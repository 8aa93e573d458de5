/** What is printed is one spelling of the value, laid out in one way; so parsing it gives the value
    back and stops right behind it. */
module JsonRoundTrip {
  import opened CStrings
  import opened JsonValues
  import opened JsonPrinter
  import opened JsonParser
  import opened G = JsonGrammar
  import opened JsonReading

  // ---------------------------------------------------------------- strings

  /** How a byte is printed: as itself unless a literal cannot hold it, and then as short as it goes. */
  function PieceOf(c: char): Piece {
    match c
    case '\"' => Short('\"')
    case '\\' => Short('\\')
    case '\n' => Short('n')
    case '\r' => Short('r')
    case '\t' => Short('t')
    case _ =>
      if c as int == 8 then Short('b')
      else if c as int == 12 then Short('f')
      else if c as int < 32 then
        Unit(['0', '0', if c as int < 16 then '0' else '1', "0123456789abcdef"[c as int % 16]])
      else Plain(c)
  }

  function PiecesOf(s: string): seq<Piece> {
    if s == "" then [] else [PieceOf(s[0])] + PiecesOf(s[1..])
  }

  lemma ControlIsSpelled(c: char)
    requires '\0' < c < ' '
    ensures var hex := ['0', '0', if c as int < 16 then '0' else '1', "0123456789abcdef"[c as int % 16]];
      && IsHex(hex) && CodeUnit(hex) == c as int
      && hex == ['0', '0', HexChar(c as int / 16), HexChar(c as int % 16)]
  {
    var d := c as int % 16;
    assert c as int == c as int / 16 * 16 + d;
    assert "0123456789abcdef"[d] == HexChar(d) && HexNumeral("0123456789abcdef"[d]) == d by {
      LowerDigit(d);
    }
    LowerDigit(c as int / 16);
  }

  lemma LowerDigit(d: nat)
    requires d < 16
    ensures "0123456789abcdef"[d] == HexChar(d) && HexNumeral("0123456789abcdef"[d]) == d
  {
  }

  lemma ControlIsPrinted(c: char)
    requires '\0' < c < ' '
    ensures var hex := ['0', '0', if c as int < 16 then '0' else '1', "0123456789abcdef"[c as int % 16]];
      WellPiece(Unit(hex)) && Meaning(Unit(hex)) == [c]
      && PieceText(Unit(hex)) == [BACKSLASH, 'u', '0', '0', HexChar(c as int / 16), HexChar(c as int % 16)]
  {
    ControlIsSpelled(c);
    hide IsHex, CodeUnit, HexChar;
  }

  predicate IsPiece(c: char, p: Piece, text: string) {
    WellPiece(p) && !p.Lone? && Meaning(p) == [c] && PieceText(p) == text
  }

  predicate IsShort(c: char, d: char) {
    || (c == d && (c == '\"' || c == '\\'))
    || (c == '\n' && d == 'n') || (c == '\r' && d == 'r') || (c == '\t' && d == 't')
    || (c as int == 8 && d == 'b') || (c as int == 12 && d == 'f')
  }

  lemma ShortIsPrinted(c: char, d: char)
    requires IsShort(c, d)
    ensures PieceOf(c) == Short(d) && Escaped(c) == ['\\', d] && IsPiece(c, Short(d), ['\\', d])
  {
  }

  lemma PieceIsPrinted(c: char)
    requires c != '\0'
    ensures IsPiece(c, PieceOf(c), Escaped(c))
  {
    if c in {'\"', '\\', '\n', '\r', '\t'} || c as int == 8 || c as int == 12 {
      ShortIsPrinted(c, PieceOf(c).c);
    } else if c < ' ' {
      ControlIsPrinted(c);
      hide WellPiece, Meaning, PieceText, HexChar;
    } else {
      assert PieceOf(c) == Plain(c) && Escaped(c) == [c];
    }
  }

  lemma PiecesJoin(p: Piece, ps: seq<Piece>, end: string)
    requires WellPiece(p) && !p.Lone? && WellPieces(ps)
    ensures WellPieces([p] + ps) && MeaningAll([p] + ps) == Meaning(p) + MeaningAll(ps)
    ensures PiecesText([p] + ps, end) == PieceText(p) + PiecesText(ps, end)
  {
    assert ([p] + ps)[1..] == ps;
    hide WellPiece, Meaning, PieceText;
  }

  lemma {:induction false} PiecesArePrinted(s: string, end: string)
    requires NulFree(s)
    ensures WellPieces(PiecesOf(s)) && MeaningAll(PiecesOf(s)) == s
    ensures EscapedAll(s) + end == PiecesText(PiecesOf(s), end)
  {
    if s == "" {
      assert "" + end == end;
    } else {
      PieceIsPrinted(s[0]);
      PiecesArePrinted(s[1..], end);
      PiecesJoin(PieceOf(s[0]), PiecesOf(s[1..]), end);
      assert s == [s[0]] + s[1..];
      Assoc(Escaped(s[0]), EscapedAll(s[1..]), end);
      hide PieceOf, Escaped, Meaning, WellPiece, PieceText, WellPieces, MeaningAll, PiecesText;
    }
  }

  lemma QuotedIsPrinted(s: string, rest: string)
    requires NulFree(s)
    ensures WellPieces(PiecesOf(s)) && MeaningAll(PiecesOf(s)) == s
    ensures Quoted(s) + rest == LiteralText(PiecesOf(s), true, rest)
  {
    PiecesArePrinted(s, "\"" + rest);
    Assoc(EscapedAll(s), [QUOTE], rest);
    Assoc([QUOTE], EscapedAll(s) + [QUOTE], rest);
    Assoc([QUOTE], EscapedAll(s), [QUOTE]);
  }

  /** parse_string undoes print_string_ptr, whatever follows the literal. */
  lemma QuotedIsRead(s: string, rest: string)
    requires NulFree(s)
    ensures ParseString(Quoted(s) + rest) == Ok(s, rest)
  {
    QuotedIsPrinted(s, rest);
    LiteralIsRead(PiecesOf(s), true, rest);
  }

  // ---------------------------------------------------------------- numbers

  /** The text behind a printed number would be read as part of it. */
  predicate Extends(n: int, rest: string) {
    || Peek(rest) == 'e'
    || Peek(rest) == 'E'
    || (Peek(rest) == '.' && IsDigit(Peek(rest[1..])))
    || (if n == 0 then '1' <= Peek(rest) <= '9' else IsDigit(Peek(rest)))
  }

  lemma DigitsAreRead(n: nat, rest: string)
    ensures IntegerPart(Digits(n) + rest) ==
      if n == 0 then (if '1' <= Peek(rest) <= '9' then TakeDigits(rest, 0) else (0, rest))
      else TakeDigits(rest, n)
  {
    if n == 0 {
      assert (Digits(n) + rest)[1..] == rest;
    } else {
      TakeDigitsOfDigits(n, rest);
    }
  }

  /** A whole number is printed as its digits, with a sign if it is negative. */
  function NumeralOf(n: int): Numeral {
    Numeral(n < 0, Digits(if n < 0 then -n else n), "", NoExponent)
  }

  lemma NumeralIsWell(n: int)
    ensures WellNumeral(NumeralOf(n))
  {
    DigitsArePlaces(if n < 0 then -n else n);
  }

  lemma NumeralIsNumber(n: int)
    ensures WellNumeral(NumeralOf(n)) && NumeralValue(NumeralOf(n)) == n as real
  {
    var size := if n < 0 then -n else n;
    NumeralIsWell(n);
    DigitsArePlaces(size);
    assert Digits(size) + "" == Digits(size);
    hide Natural, Digits, AllDigits, WellNumeral;
    assert TenTo(0) == 1.0;
  }

  lemma DecimalIsPrinted(n: int, rest: string)
    ensures Decimal(n) + rest == NumeralText(NumeralOf(n), rest)
    ensures Stops(NumeralOf(n), rest) <==> !Extends(n, rest)
  {
    var size := if n < 0 then -n else n;
    assert Digits(size) == "0" <==> size == 0;
    hide Digits;
    Assoc("-", Digits(size), rest);
  }

  /** parse_number reads back a printed integer exactly when the text behind it does not go on
      with a digit, an exponent or a fraction. */
  lemma DecimalIsRead(n: int, rest: string)
    ensures ParseNumber(Decimal(n) + rest) == (n as real, rest) <==> !Extends(n, rest)
  {
    DecimalIsPrinted(n, rest);
    NumeralIsNumber(n);
    if Extends(n, rest) {
      var size := if n < 0 then -n else n;
      var s := Decimal(n) + rest;
      assert (if Peek(s) == '-' then s[1..] else s) == Digits(size) + rest;
      ExtensionIsTaken(size, rest);
    } else {
      NumeralIsRead(NumeralOf(n), rest);
    }
  }

  /** Whatever extends the digits is consumed with them. */
  lemma ExtensionIsTaken(size: nat, rest: string)
    requires Extends(size, rest)
    ensures var (n, s1) := IntegerPart(Digits(size) + rest);
      var (_, _, s2) := FractionPart(s1, n);
      |ExponentPart(s2).1| < |rest|
  {
    DigitsAreRead(size, rest);
  }

  // ---------------------------------------------------------------- values

  /** What may stand behind a printed value: anything, but for a number no continuation of it. */
  predicate Ends(v: Json, rest: string) {
    v.Number? ==> !Extends(v.value.Floor, rest)
  }

  function If(fmt: bool, w: string): string {
    if fmt then w else ""
  }

  /** A new line and a column. */
  function NewLine(fmt: bool, depth: nat): string {
    If(fmt, "\n" + seq(depth, _ => ' '))
  }

  /** The layout of what is printed: no white space at all, or, formatted, a blank behind each comma of
      an array and each colon, and a line for each member, indented by its depth. */
  function Layout(v: Json, depth: nat, fmt: bool): Spelling
    decreases v, 1
  {
    match v
    case Null => NullWord
    case False => FalseWord
    case True => TrueWord
    case Number(r) => Num(NumeralOf(r.Floor))
    case String(t) => Str(PiecesOf(t), true)
    case Array(items) => Arr("", EntriesOf(items, true, depth + 1, fmt))
    case Object(members) =>
      Obj(if members == [] then NewLine(fmt, depth) else "", FieldsOf(members, depth, fmt))
  }

  function EntriesOf(items: seq<Json>, first: bool, depth: nat, fmt: bool): seq<Entry>
    decreases items, 0
  {
    if items == [] then []
    else
      [Entry(if first then "" else If(fmt, " "), Layout(items[0], depth, fmt), "")]
      + EntriesOf(items[1..], false, depth, fmt)
  }

  function FieldOf(m: Member, more: bool, depth: nat, fmt: bool): Field
    decreases m, 2
  {
    Field(NewLine(fmt, depth + 1), PiecesOf(m.name), "",
          Entry(If(fmt, " "), Layout(m.value, depth + 1, fmt), if more then "" else NewLine(fmt, depth)))
  }

  function FieldsOf(members: seq<Member>, depth: nat, fmt: bool): seq<Field>
    decreases members, 0
  {
    if members == [] then []
    else [FieldOf(members[0], |members| > 1, depth, fmt)] + FieldsOf(members[1..], depth, fmt)
  }

  lemma PrintStart(v: Json, depth: nat, fmt: bool)
    ensures Print(v, depth, fmt) != ""
    ensures var c := Print(v, depth, fmt)[0]; c > ' ' && c != ']' && c != '}'
  {
  }

  lemma NewLineIs(fmt: bool, depth: nat)
    ensures White(NewLine(fmt, depth)) && NewLine(fmt, depth) == Pretty(fmt, "\n") + Indent(fmt, depth)
  {
    SpacesAre(depth);
  }

  lemma {:induction false} SpacesAre(n: nat)
    ensures Spaces(n) == seq(n, _ => ' ')
  {
    if n > 0 {
      SpacesAre(n - 1);
    }
  }

  lemma BlankIs(fmt: bool)
    ensures White(If(fmt, " ")) && If(fmt, " ") == Pretty(fmt, " ")
  {
  }

  /** The layout is a spelling of the value, and what is printed in front of `rest` is its text. */
  predicate IsPrinted(v: Json, depth: nat, fmt: bool, rest: string) {
    var sp := Layout(v, depth, fmt);
    WellSpelled(sp) && Value(sp) == v && Print(v, depth, fmt) + rest == Spell(sp, rest)
  }

  lemma {:induction false} LayoutIsPrinted(v: Json, depth: nat, fmt: bool, rest: string)
    requires Printable(v)
    ensures IsPrinted(v, depth, fmt, rest)
    decreases v, 1
  {
    match v
    case Number(r) =>
      NumeralIsNumber(r.Floor);
      DecimalIsPrinted(r.Floor, rest);
    case String(t) => QuotedIsPrinted(t, rest);
    case Array(items) => ArrayIsPrinted(items, depth, fmt, rest);
    case Object(members) => ObjectIsPrinted(members, depth, fmt, rest);
    case _ =>
  }

  lemma {:induction false} ArrayIsPrinted(items: seq<Json>, depth: nat, fmt: bool, rest: string)
    requires forall i | 0 <= i < |items| :: Printable(items[i])
    ensures IsPrinted(Array(items), depth, fmt, rest)
    decreases items, 1
  {
    ItemsArePrinted(items, true, depth + 1, fmt, "]" + rest);
    ArrayStep(items, depth, fmt, rest);
  }

  lemma ArrayIs(es: seq<Entry>, items: seq<Json>, v: Json, depth: nat, fmt: bool, rest: string)
    requires WellEntries(es) && Values(es) == items
    requires v == Array(items) && Layout(v, depth, fmt) == Arr("", es)
    requires Print(v, depth, fmt) + rest == "[" + ("" + EntriesText(es, "]" + rest))
    ensures IsPrinted(v, depth, fmt, rest)
  {
    NoWhite();
    hide Print, Layout, White, WellEntries, Values, EntriesText;
  }

  lemma ArrayLayout(items: seq<Json>, depth: nat, fmt: bool)
    ensures Layout(Array(items), depth, fmt) == Arr("", EntriesOf(items, true, depth + 1, fmt))
  {
  }

  lemma ArrayStep(items: seq<Json>, depth: nat, fmt: bool, rest: string)
    requires ItemsPrinted(items, true, depth + 1, fmt, "]" + rest)
    ensures IsPrinted(Array(items), depth, fmt, rest)
  {
    var es := EntriesOf(items, true, depth + 1, fmt);
    ArrayText(items, depth, fmt, rest, EntriesText(es, "]" + rest));
    ArrayLayout(items, depth, fmt);
    hide *;
    ArrayIs(es, items, Array(items), depth, fmt, rest);
  }

  lemma NoWhite()
    ensures White("")
  {
  }

  lemma ArrayText(items: seq<Json>, depth: nat, fmt: bool, rest: string, text: string)
    requires text == "" + (PrintItems(items, depth + 1, fmt) + ("]" + rest))
    ensures Print(Array(items), depth, fmt) + rest == "[" + ("" + text)
  {
    var body := PrintItems(items, depth + 1, fmt);
    hide PrintItems;
    Assoc("[" + body, "]", rest);
    Assoc("[", body, "]" + rest);
    assert "" + text == text && "" + (body + ("]" + rest)) == body + ("]" + rest);
  }

  predicate ItemsPrinted(items: seq<Json>, first: bool, depth: nat, fmt: bool, end: string) {
    var es := EntriesOf(items, first, depth, fmt);
    && |es| == |items| && WellEntries(es) && Values(es) == items
    && EntriesText(es, end) ==
         (if first || items == [] then "" else If(fmt, " ")) + (PrintItems(items, depth, fmt) + end)
  }

  function AfterItem(items: seq<Json>, depth: nat, fmt: bool, end: string): string
    requires items != []
  {
    if |items| > 1 then "," + EntriesText(EntriesOf(items[1..], false, depth, fmt), end) else end
  }

  lemma ItemTail(items: seq<Json>, depth: nat, fmt: bool, end: string)
    requires items != [] && ItemsPrinted(items[1..], false, depth, fmt, end)
    ensures PrintItems(items, depth, fmt) + end == Print(items[0], depth, fmt) + AfterItem(items, depth, fmt, end)
  {
    var a, b, c := Print(items[0], depth, fmt), ItemEnd(|items| > 1, fmt), PrintItems(items[1..], depth, fmt);
    Assoc(a + b, c, end);
    Assoc(a, b, c + end);
    BlankIs(fmt);
    if |items| > 1 {
      Assoc(",", Pretty(fmt, " "), c + end);
    } else {
      assert c == "" && b + (c + end) == end;
    }
    hide Print, EntriesOf, WellEntries, Values, EntriesText, Layout;
  }

  lemma ItemsStep(items: seq<Json>, first: bool, depth: nat, fmt: bool, end: string)
    requires items != [] && ItemsPrinted(items[1..], false, depth, fmt, end)
    requires IsPrinted(items[0], depth, fmt, AfterItem(items, depth, fmt, end))
    ensures ItemsPrinted(items, first, depth, fmt, end)
  {
    var e := Entry(if first then "" else If(fmt, " "), Layout(items[0], depth, fmt), "");
    var es := EntriesOf(items[1..], false, depth, fmt);
    ItemTail(items, depth, fmt, end);
    BlankIs(fmt);
    NoWhite();
    PrintedIsClosed(items[0], depth, fmt);
    EntriesJoin(e, es, end);
    assert EntriesOf(items, first, depth, fmt) == [e] + es;
    var next := AfterItem(items, depth, fmt, end);
    assert "" + next == next && [items[0]] + items[1..] == items;
    hide Print, PrintItems, Layout, EntriesOf, WellSpelled, WellEntries, Values, EntriesText, Spell;
  }

  lemma EntriesJoin(e: Entry, es: seq<Entry>, end: string)
    requires WellEntry(e) && WellEntries(es)
    ensures WellEntries([e] + es) && Values([e] + es) == [Value(e.value)] + Values(es)
    ensures EntriesText([e] + es, end) == EntryText(e, if |es| > 0 then "," + EntriesText(es, end) else end)
  {
    assert ([e] + es)[1..] == es;
  }

  lemma {:induction false} ItemsArePrinted(items: seq<Json>, first: bool, depth: nat, fmt: bool, end: string)
    requires forall i | 0 <= i < |items| :: Printable(items[i])
    ensures ItemsPrinted(items, first, depth, fmt, end)
    decreases items, 0
  {
    if items == [] {
      assert "" + ("" + end) == end;
    } else {
      hide ItemsPrinted, IsPrinted, AfterItem;
      ItemsArePrinted(items[1..], false, depth, fmt, end);
      LayoutIsPrinted(items[0], depth, fmt, AfterItem(items, depth, fmt, end));
      ItemsStep(items, first, depth, fmt, end);
    }
  }

  lemma {:induction false} ObjectIsPrinted(members: seq<Member>, depth: nat, fmt: bool, rest: string)
    requires forall i | 0 <= i < |members| :: NulFree(members[i].name) && Printable(members[i].value)
    ensures IsPrinted(Object(members), depth, fmt, rest)
    decreases members, 1
  {
    MembersArePrinted(members, depth, fmt, rest);
    ObjectStep(members, depth, fmt, rest);
  }

  lemma ObjectIs(inner: string, fs: seq<Field>, members: seq<Member>, v: Json, depth: nat, fmt: bool, rest: string)
    requires White(inner) && WellFields(fs) && MembersOf(fs) == members
    requires v == Object(members) && Layout(v, depth, fmt) == Obj(inner, fs)
    requires Print(v, depth, fmt) + rest == "{" + (inner + FieldsText(fs, "}" + rest))
    ensures IsPrinted(v, depth, fmt, rest)
  {
    hide Print, Layout, White, WellFields, MembersOf, FieldsText;
  }

  lemma ObjectLayout(members: seq<Member>, depth: nat, fmt: bool)
    ensures Layout(Object(members), depth, fmt) ==
      Obj(if members == [] then NewLine(fmt, depth) else "", FieldsOf(members, depth, fmt))
  {
  }

  lemma ObjectStep(members: seq<Member>, depth: nat, fmt: bool, rest: string)
    requires MembersPrinted(members, depth, fmt, rest)
    ensures IsPrinted(Object(members), depth, fmt, rest)
  {
    var fs := FieldsOf(members, depth, fmt);
    var inner := if members == [] then NewLine(fmt, depth) else "";
    ObjectText(members, depth, fmt, rest, FieldsText(fs, "}" + rest));
    ObjectLayout(members, depth, fmt);
    NewLineIs(fmt, depth);
    NoWhite();
    hide *;
    ObjectIs(inner, fs, members, Object(members), depth, fmt, rest);
  }

  lemma ObjectText(members: seq<Member>, depth: nat, fmt: bool, rest: string, text: string)
    requires text ==
      if members == [] then "}" + rest
      else Pretty(fmt, "\n") + (PrintMembers(members, depth + 1, fmt) + (Indent(fmt, depth) + ("}" + rest)))
    ensures Print(Object(members), depth, fmt) + rest
         == "{" + ((if members == [] then NewLine(fmt, depth) else "") + text)
  {
    var a, b, c := Pretty(fmt, "\n"), PrintMembers(members, depth + 1, fmt), Indent(fmt, depth);
    assert members == [] ==> b == "";
    assert Print(Object(members), depth, fmt) == "{" + a + b + c + "}";
    NewLineIs(fmt, depth);
    hide *;
    Assoc("{" + a + b + c, "}", rest);
    Assoc("{" + a + b, c, "}" + rest);
    Assoc("{" + a, b, c + ("}" + rest));
    Assoc("{", a, b + (c + ("}" + rest)));
    if members == [] {
      Assoc(a, c, "}" + rest);
      assert "" + (c + ("}" + rest)) == c + ("}" + rest);
    } else {
      assert "" + text == text;
    }
  }

  /** The printed members from their first name on, then `close`. */
  lemma MemberText(members: seq<Member>, depth: nat, fmt: bool, close: string)
    requires members != []
    ensures PrintMembers(members, depth, fmt) + close
         == Indent(fmt, depth) + (Quoted(members[0].name) + (":" + (Pretty(fmt, " ")
            + (Print(members[0].value, depth, fmt)
               + (MemberEnd(|members| > 1, fmt) + (PrintMembers(members[1..], depth, fmt) + close))))))
  {
    var a, b, c := Indent(fmt, depth), Quoted(members[0].name), Pretty(fmt, " ");
    var d, e := Print(members[0].value, depth, fmt), MemberEnd(|members| > 1, fmt);
    var f := PrintMembers(members[1..], depth, fmt);
    Assoc(a + b + ":" + c + d + e, f, close);
    Assoc(a + b + ":" + c + d, e, f + close);
    Assoc(a + b + ":" + c, d, e + (f + close));
    Assoc(a + b + ":", c, d + (e + (f + close)));
    Assoc(a + b, ":", c + (d + (e + (f + close))));
    Assoc(a, b, ":" + (c + (d + (e + (f + close)))));
  }

  lemma MemberTail(members: seq<Member>, depth: nat, fmt: bool, rest: string, next: string)
    requires members != []
    requires var close := Indent(fmt, depth) + ("}" + rest);
      next == if |members| > 1 then "," + (Pretty(fmt, "\n") + (PrintMembers(members[1..], depth + 1, fmt) + close))
              else "}" + rest
    ensures (if |members| > 1 then "" else NewLine(fmt, depth)) + next
         == MemberEnd(|members| > 1, fmt)
            + (PrintMembers(members[1..], depth + 1, fmt) + (Indent(fmt, depth) + ("}" + rest)))
  {
    var a, b := Pretty(fmt, "\n"), PrintMembers(members[1..], depth + 1, fmt);
    var c, close := Indent(fmt, depth), Indent(fmt, depth) + ("}" + rest);
    NewLineIs(fmt, depth);
    var end := MemberEnd(|members| > 1, fmt);
    if |members| > 1 {
      assert end == "," + a;
      hide *;
      Assoc(",", a, b + close);
      assert "" + next == next;
    } else {
      assert end == "" + a && b == "";
      hide *;
      Assoc(a, c, "}" + rest);
      assert "" + a == a && "" + close == close;
    }
  }

  /** The layout of the members is theirs, and what is printed of them up to the closing brace is its text. */
  predicate MembersPrinted(members: seq<Member>, depth: nat, fmt: bool, rest: string) {
    var fs := FieldsOf(members, depth, fmt);
    && |fs| == |members| && WellFields(fs) && MembersOf(fs) == members
    && FieldsText(fs, "}" + rest) ==
         if members == [] then "}" + rest
         else Pretty(fmt, "\n") + (PrintMembers(members, depth + 1, fmt) + (Indent(fmt, depth) + ("}" + rest)))
  }

  function AfterMember(members: seq<Member>, depth: nat, fmt: bool, rest: string): string
    requires members != []
  {
    if |members| > 1 then "," + FieldsText(FieldsOf(members[1..], depth, fmt), "}" + rest) else "}" + rest
  }

  /** What stands behind the value of the first member. */
  function AfterValue(members: seq<Member>, depth: nat, fmt: bool, rest: string): string
    requires members != []
  {
    (if |members| > 1 then "" else NewLine(fmt, depth)) + AfterMember(members, depth, fmt, rest)
  }

  lemma FirstIsPrinted(members: seq<Member>, depth: nat, fmt: bool, rest: string)
    requires members != [] && NulFree(members[0].name) && MembersPrinted(members[1..], depth, fmt, rest)
    requires IsPrinted(members[0].value, depth + 1, fmt, AfterValue(members, depth, fmt, rest))
    ensures FieldText(FieldOf(members[0], |members| > 1, depth, fmt), AfterMember(members, depth, fmt, rest)) ==
      Pretty(fmt, "\n") + (PrintMembers(members, depth + 1, fmt) + (Indent(fmt, depth) + ("}" + rest)))
  {
    FieldIsPrinted(members[0], |members| > 1, depth, fmt, AfterMember(members, depth, fmt, rest));
    MemberTail(members, depth, fmt, rest, AfterMember(members, depth, fmt, rest));
    MemberText(members, depth + 1, fmt, Indent(fmt, depth) + ("}" + rest));
    hide *;
  }

  lemma MembersStep(members: seq<Member>, depth: nat, fmt: bool, rest: string)
    requires members != [] && NulFree(members[0].name) && MembersPrinted(members[1..], depth, fmt, rest)
    requires IsPrinted(members[0].value, depth + 1, fmt, AfterValue(members, depth, fmt, rest))
    ensures MembersPrinted(members, depth, fmt, rest)
  {
    hide Print, PrintMembers, Layout, FieldOf, FieldsOf, FieldText, FieldsText, WellSpelled, WellEntry, WellFields,
         MeaningAll, Value, Spell, MembersOf, White, WellPieces, AfterMember, AfterValue, NulFree, Pretty, Indent;
    var m, fs := members[0], FieldsOf(members[1..], depth, fmt);
    FirstIsPrinted(members, depth, fmt, rest);
    FieldIsWell(m, |members| > 1, depth, fmt);
    FieldsSplit(members, depth, fmt);
    MembersJoin(members, FieldOf(m, |members| > 1, depth, fmt), fs, depth, fmt, rest);
  }

  lemma MembersJoin(members: seq<Member>, f: Field, fs: seq<Field>, depth: nat, fmt: bool, rest: string)
    requires members != [] && FieldsOf(members, depth, fmt) == [f] + fs && fs == FieldsOf(members[1..], depth, fmt)
    requires MembersPrinted(members[1..], depth, fmt, rest)
    requires White(f.before) && White(f.gap) && WellPieces(f.name) && WellEntry(f.entry)
    requires MeaningAll(f.name) == members[0].name && Value(f.entry.value) == members[0].value
    requires FieldText(f, AfterMember(members, depth, fmt, rest)) ==
      Pretty(fmt, "\n") + (PrintMembers(members, depth + 1, fmt) + (Indent(fmt, depth) + ("}" + rest)))
    ensures MembersPrinted(members, depth, fmt, rest)
  {
    hide Print, PrintMembers, Layout, FieldOf, FieldsOf, FieldText, FieldsText, WellSpelled, WellEntry, WellFields,
         MeaningAll, Value, Spell, MembersOf, White, WellPieces, NulFree, Pretty, Indent;
    FieldsJoin(f, fs, "}" + rest);
    assert [members[0]] + members[1..] == members;
  }

  lemma {:induction false} MembersArePrinted(members: seq<Member>, depth: nat, fmt: bool, rest: string)
    requires forall i | 0 <= i < |members| :: NulFree(members[i].name) && Printable(members[i].value)
    ensures MembersPrinted(members, depth, fmt, rest)
    decreases members, 0
  {
    if members != [] {
      hide MembersPrinted, IsPrinted, AfterValue;
      MembersArePrinted(members[1..], depth, fmt, rest);
      LayoutIsPrinted(members[0].value, depth + 1, fmt, AfterValue(members, depth, fmt, rest));
      MembersStep(members, depth, fmt, rest);
    }
  }

  lemma FieldsSplit(members: seq<Member>, depth: nat, fmt: bool)
    requires members != []
    ensures FieldsOf(members, depth, fmt) ==
      [FieldOf(members[0], |members| > 1, depth, fmt)] + FieldsOf(members[1..], depth, fmt)
  {
  }

  lemma FieldsJoin(f: Field, fs: seq<Field>, end: string)
    requires White(f.before) && White(f.gap) && WellPieces(f.name) && WellEntry(f.entry) && WellFields(fs)
    ensures WellFields([f] + fs)
    ensures MembersOf([f] + fs) == [Member(MeaningAll(f.name), Value(f.entry.value))] + MembersOf(fs)
    ensures FieldsText([f] + fs, end) == FieldText(f, if |fs| > 0 then "," + FieldsText(fs, end) else end)
  {
    assert ([f] + fs)[1..] == fs;
  }

  lemma FieldIsWell(m: Member, more: bool, depth: nat, fmt: bool)
    requires NulFree(m.name) && WellSpelled(Layout(m.value, depth + 1, fmt))
    ensures var f := FieldOf(m, more, depth, fmt);
      && White(f.before) && White(f.gap) && WellPieces(f.name) && WellEntry(f.entry)
      && MeaningAll(f.name) == m.name && f.entry.value == Layout(m.value, depth + 1, fmt)
  {
    NewLineIs(fmt, depth);
    NewLineIs(fmt, depth + 1);
    BlankIs(fmt);
    PrintedIsClosed(m.value, depth + 1, fmt);
    QuotedIsPrinted(m.name, "");
    hide Layout, PiecesOf, NewLine, If, White, WellPieces, MeaningAll, WellSpelled;
  }

  /** A member behind its line's start, by its parts. */
  lemma FieldIsText(f: Field, name: string, value: string, line: string, indent: string, blank: string, next: string)
    requires f.before == line + indent && f.gap == "" && f.entry.before == blank
    requires Spell(f.entry.value, f.entry.after + next) == value + (f.entry.after + next)
    requires var colon := ":" + (blank + (value + (f.entry.after + next)));
      LiteralText(f.name, true, colon) == name + colon
    ensures FieldText(f, next) ==
      line + (indent + (name + (":" + (blank + (value + (f.entry.after + next))))))
  {
    var colon := ":" + (blank + (value + (f.entry.after + next)));
    assert EntryText(f.entry, next) == blank + (value + (f.entry.after + next));
    assert FieldText(f, next) == f.before + LiteralText(f.name, true, "" + colon);
    hide *;
    assert "" + colon == colon;
    Assoc(line, indent, name + colon);
  }

  lemma FieldIsPrinted(m: Member, more: bool, depth: nat, fmt: bool, next: string)
    requires NulFree(m.name)
    requires IsPrinted(m.value, depth + 1, fmt, (if more then "" else NewLine(fmt, depth)) + next)
    ensures FieldText(FieldOf(m, more, depth, fmt), next) ==
      Pretty(fmt, "\n") + (Indent(fmt, depth + 1) + (Quoted(m.name) + (":" + (Pretty(fmt, " ")
        + (Print(m.value, depth + 1, fmt) + ((if more then "" else NewLine(fmt, depth)) + next))))))
  {
    var f := FieldOf(m, more, depth, fmt);
    var value, after := Print(m.value, depth + 1, fmt), (if more then "" else NewLine(fmt, depth)) + next;
    assert f.gap == "" && f.name == PiecesOf(m.name) && f.before == NewLine(fmt, depth + 1);
    assert f.entry == Entry(If(fmt, " "), Layout(m.value, depth + 1, fmt), if more then "" else NewLine(fmt, depth));
    NewLineIs(fmt, depth + 1);
    BlankIs(fmt);
    QuotedIsPrinted(m.name, ":" + (Pretty(fmt, " ") + (value + after)));
    hide *;
    FieldIsText(f, Quoted(m.name), value, Pretty(fmt, "\n"), Indent(fmt, depth + 1), Pretty(fmt, " "), next);
  }

  lemma PrintedIsClosed(v: Json, depth: nat, fmt: bool)
    ensures Layout(v, depth, fmt).Str? ==> Layout(v, depth, fmt).closed
    ensures White("")
  {
  }

  /** parse_value on what print_value printed gives the value and leaves what follows. */
  lemma PrintedIsRead(v: Json, depth: nat, fmt: bool, rest: string)
    requires Printable(v) && Ends(v, rest)
    ensures ParseValue(Print(v, depth, fmt) + rest) == Ok(v, rest)
  {
    LayoutIsPrinted(v, depth, fmt, rest);
    if v.Number? {
      DecimalIsPrinted(v.value.Floor, rest);
    }
    SpelledIsRead(Layout(v, depth, fmt), rest);
  }

  /** cJSON_Parse of what cJSON_Print or cJSON_PrintUnformatted returned. */
  lemma PrintedIsParsed(v: Json, fmt: bool)
    requires Printable(v)
    ensures Parse(Print(v, 0, fmt)) == Ok(v, "")
  {
    var s := Print(v, 0, fmt);
    PrintStart(v, 0, fmt);
    SkipNothing(s);
    assert s + "" == s;
    PrintedIsRead(v, 0, fmt, "");
  }
}
