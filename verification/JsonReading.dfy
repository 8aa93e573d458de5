/** The parser reads every spelling of a value as that value, and nothing else. */
module JsonReading {
  import opened CStrings
  import opened JsonValues
  import opened JsonParser
  import opened JsonGrammar
  import opened Utf8

  lemma SkipNothing(s: string)
    requires s != "" && s[0] > ' '
    ensures Skip(s) == s
  {
  }

  // ---------------------------------------------------------------- white space

  lemma {:induction false} SkipWhite(w: string, s: string)
    requires White(w)
    ensures Skip(w + s) == Skip(s)
  {
    if w == "" {
      assert w + s == s;
    } else {
      assert (w + s)[1..] == w[1..] + s;
      SkipWhite(w[1..], s);
    }
  }

  /** The white space in front of a text. */
  lemma {:induction false} WhiteFront(s: string) returns (w: string)
    ensures White(w) && s == w + Skip(s)
  {
    w := "";
    if Peek(s) != '\0' && Peek(s) <= ' ' {
      var more := WhiteFront(s[1..]);
      w := [s[0]] + more;
    }
  }

  // ---------------------------------------------------------------- strings

  lemma PlainIsRead(c: char, rest: string)
    requires c != '\0' && c != QUOTE && c != BACKSLASH
    ensures Unescape([c] + rest) == Prepend([c], Unescape(rest))
  {
    assert ([c] + rest)[1..] == rest;
  }

  lemma UnescapeStep(e: string, v: string, rest: string)
    requires Peek(e) == BACKSLASH && Escape(e[1..] + rest) == Ok(v, rest)
    ensures Unescape(e + rest) == Prepend(v, Unescape(rest))
  {
    assert (e + rest)[1..] == e[1..] + rest;
  }

  /** The sixteen digits of either case, and their places. */
  lemma HexIsRead(c: char)
    ensures IsHexDigit(c) <==> HexNumeral(c) >= 0
    ensures IsHexDigit(c) ==> HexValue(c) == HexNumeral(c)
  {
  }

  lemma UnitIsRead(s: string)
    ensures HasHex4(s) <==> |s| >= 4 && IsHex(s[..4])
    ensures HasHex4(s) ==> Hex4(s) == CodeUnit(s[..4])
  {
    if |s| >= 4 {
      HexIsRead(s[0]);
      HexIsRead(s[1]);
      HexIsRead(s[2]);
      HexIsRead(s[3]);
    }
  }

  lemma UnitInFront(hex: string, rest: string)
    requires IsHex(hex)
    ensures HasHex4(hex + rest) && Hex4(hex + rest) == CodeUnit(hex) && (hex + rest)[4..] == rest
  {
    assert (hex + rest)[..4] == hex;
    UnitIsRead(hex + rest);
  }

  lemma PairIsJoined(high: nat, low: nat)
    requires IsHighSurrogate(high) && IsLowSurrogate(low)
    ensures JoinSurrogates(high, low) == PairValue(high, low)
  {
    var x := (high - 0xD800) * 0x400 + (low - 0xDC00);
    assert x / 0x10000 == (high - 0xD800) / 0x40;
    assert (high - 0xD800) / 0x40 % 2 == high / 0x40 % 2;
  }

  /** Another escape of four digits goes on. */
  predicate GoesOn(s: string) {
    Peek(s) == BACKSLASH && Peek(s[1..]) == 'u'
  }

  lemma ShortIsRead(c: char, rest: string)
    requires WellPiece(Short(c))
    ensures Escape([c] + rest) == Ok(Meaning(Short(c)), rest)
  {
    assert ([c] + rest)[1..] == rest;
  }

  lemma HexIsEscape(p: Piece, hex: string, behind: string, rest: string)
    requires if p.Pair? then p.high == hex && behind == "\\u" + (p.low + rest)
             else p in {Unit(hex), Lone(hex)} && behind == rest
    requires WellPiece(p) && (p.Lone? ==> !GoesOn(rest))
    ensures UnicodeEscape(hex + behind) == Ok(Meaning(p), rest)
  {
    hide CodeUnit, Hex4, HasHex4, Encode, PairValue, JoinSurrogates;
    UnitInFront(hex, behind);
    if p.Pair? {
      assert behind[1..][0] == 'u' && behind[2..] == p.low + rest && behind[6..] == (p.low + rest)[4..];
      UnitInFront(p.low, rest);
      if IsLowSurrogate(CodeUnit(p.low)) {
        PairIsJoined(CodeUnit(hex), CodeUnit(p.low));
      }
    }
  }

  lemma EscapeIsRead(p: Piece, rest: string)
    requires WellPiece(p) && !p.Plain? && (p.Lone? ==> !GoesOn(rest))
    ensures Escape(EscapeText(p) + rest) == Ok(Meaning(p), rest)
  {
    hide Meaning, UnicodeEscape, GoesOn;
    if p.Short? {
      ShortIsRead(p.c, rest);
    } else {
      var hex := if p.Pair? then p.high else p.hex;
      var behind := if p.Pair? then "\\u" + (p.low + rest) else rest;
      HexIsEscape(p, hex, behind, rest);
      BehindU(p, hex, behind, rest);
    }
  }

  lemma BehindU(p: Piece, hex: string, behind: string, rest: string)
    requires if p.Pair? then p.high == hex && behind == "\\u" + (p.low + rest)
             else p in {Unit(hex), Lone(hex)} && behind == rest
    ensures var s := EscapeText(p) + rest; s != "" && s[0] == 'u' && s[1..] == hex + behind
  {
    if p.Pair? {
      Assoc("\\u", p.low, rest);
      Assoc(hex, "\\u" + p.low, rest);
      Assoc("u", hex + ("\\u" + p.low), rest);
    } else {
      Assoc("u", hex, rest);
    }
    assert ("u" + (hex + behind))[1..] == hex + behind;
  }

  lemma PieceIsRead(p: Piece, rest: string)
    requires WellPiece(p) && (p.Lone? ==> !GoesOn(rest))
    ensures Unescape(PieceText(p) + rest) == Prepend(Meaning(p), Unescape(rest))
  {
    if p.Plain? {
      PlainIsRead(p.c, rest);
    } else {
      EscapeIsRead(p, rest);
      assert PieceText(p)[1..] == EscapeText(p);
      UnescapeStep(PieceText(p), Meaning(p), rest);
    }
  }

  /** Where a literal ends. */
  predicate IsEnd(end: string, rest: string) {
    end == "\"" + rest || (end == rest && Peek(rest) == '\0')
  }

  lemma EndStops(ps: seq<Piece>, end: string, rest: string)
    requires WellPieces(ps) && IsEnd(end, rest) && (ps != [] ==> ps[0].Plain? || ps[0].Short?)
    ensures !GoesOn(PiecesText(ps, end))
  {
    if ps != [] {
      var tail := PiecesText(ps[1..], end);
      assert PieceText(ps[0]) + tail == PiecesText(ps, end);
    }
  }

  lemma {:induction false} PiecesAreRead(ps: seq<Piece>, end: string, rest: string)
    requires WellPieces(ps) && IsEnd(end, rest)
    ensures Unescape(PiecesText(ps, end)) == Ok(MeaningAll(ps), rest)
  {
    if ps == [] {
      assert end != rest ==> end[1..] == rest;
    } else {
      PiecesAreRead(ps[1..], end, rest);
      if ps[0].Lone? {
        EndStops(ps[1..], end, rest);
      }
      PieceIsRead(ps[0], PiecesText(ps[1..], end));
    }
  }

  lemma LiteralIsRead(ps: seq<Piece>, closed: bool, rest: string)
    requires WellPieces(ps) && (closed || Peek(rest) == '\0')
    ensures ParseString(LiteralText(ps, closed, rest)) == Ok(MeaningAll(ps), rest)
  {
    var end := if closed then "\"" + rest else rest;
    PiecesAreRead(ps, end, rest);
    assert LiteralText(ps, closed, rest)[1..] == PiecesText(ps, end);
  }

  /** Every text that parse_string takes is spelled by pieces. */
  lemma PieceFound(s: string) returns (p: Piece)
    requires Peek(s) != '\0' && Peek(s) != QUOTE
    requires Peek(s) == BACKSLASH ==> Escape(s[1..]).Ok?
    ensures WellPiece(p)
    ensures var rest := if s[0] == BACKSLASH then Escape(s[1..]).rest else s[1..];
      s == PieceText(p) + rest && (p.Lone? ==> !GoesOn(rest))
  {
    hide UnicodeEscape, IsHex, CodeUnit, GoesOn;
    if s[0] != BACKSLASH {
      p := Plain(s[0]);
    } else {
      var t := s[1..];
      assert s == "\\" + t;
      if t[0] != 'u' {
        p := Short(t[0]);
        assert t == [t[0]] + t[1..];
        Assoc("\\", [t[0]], t[1..]);
      } else {
        p := UnitFound(t[1..]);
        assert t == "u" + t[1..];
        Assoc("\\", EscapeText(p), UnicodeEscape(t[1..]).rest);
      }
    }
  }

  lemma UnitFound(t: string) returns (p: Piece)
    requires UnicodeEscape(t).Ok?
    ensures WellPiece(p) && !p.Plain? && !p.Short?
    ensures var rest := UnicodeEscape(t).rest; "u" + t == EscapeText(p) + rest && (p.Lone? ==> !GoesOn(rest))
  {
    hide CodeUnit, Hex4, HasHex4, Encode, IsHex;
    UnitIsRead(t);
    var hex, u := t[..4], t[4..];
    assert t == hex + u;
    if !IsHighSurrogate(CodeUnit(hex)) {
      p := Unit(hex);
      Assoc("u", hex, u);
    } else if !GoesOn(u) {
      p := Lone(hex);
      Assoc("u", hex, u);
    } else {
      UnitIsRead(u[2..]);
      var low := u[2..][..4];
      p := Pair(hex, low);
      assert u == "\\u" + low + u[6..];
      Assoc(hex, "\\u" + low, u[6..]);
      Assoc("u", hex + ("\\u" + low), u[6..]);
    }
  }

  lemma {:induction false} PiecesFound(s: string) returns (ps: seq<Piece>, closed: bool)
    requires Unescape(s).Ok?
    ensures WellPieces(ps)
    ensures var rest := Unescape(s).rest;
      s == PiecesText(ps, if closed then "\"" + rest else rest) && (closed || Peek(rest) == '\0')
    decreases |s|
  {
    if Peek(s) == '\0' {
      ps, closed := [], false;
    } else if s[0] == QUOTE {
      ps, closed := [], true;
    } else {
      var p := PieceFound(s);
      var behind := if s[0] == BACKSLASH then Escape(s[1..]).rest else s[1..];
      var more;
      more, closed := PiecesFound(behind);
      ps := [p] + more;
      assert ps[1..] == more;
      if p.Lone? && more != [] && !more[0].Plain? && !more[0].Short? {
        GoneOn(more, if closed then "\"" + Unescape(s).rest else Unescape(s).rest);
        assert false;
      }
    }
  }

  lemma GoneOn(ps: seq<Piece>, end: string)
    requires WellPieces(ps) && ps != [] && !ps[0].Plain? && !ps[0].Short?
    ensures GoesOn(PiecesText(ps, end))
  {
    var s := PiecesText(ps, end);
    assert s[0] == '\\' && s[1] == 'u';
  }

  // ---------------------------------------------------------------- numbers

  /** The digits in front of a text. */
  lemma {:induction false} DigitsFront(s: string) returns (d: string, rest: string)
    ensures AllDigits(d) && s == d + rest && !IsDigit(Peek(rest))
    decreases |s|
  {
    d, rest := "", s;
    if IsDigit(Peek(s)) {
      var more;
      more, rest := DigitsFront(s[1..]);
      d := [s[0]] + more;
    }
  }

  lemma WholeIsRead(whole: string, rest: string)
    requires AllDigits(whole) && (|whole| > 1 && whole[0] == '0' ==> whole[1] != '0') && WholeStops(whole, rest)
    ensures IntegerPart(whole + rest) == (Natural(whole), rest)
  {
    hide Natural, TakeDigits;
    NoDigits();
    if whole == "" {
      assert whole + rest == rest;
    } else if whole[0] != '0' {
      assert "" + whole == whole;
      DigitsInPlace("", whole, rest);
    } else {
      ZeroIsRead(whole[1..], rest);
      assert "0" + whole[1..] == whole;
    }
  }

  lemma ZeroIsRead(d: string, rest: string)
    requires AllDigits("0" + d) && (d != "" ==> d[0] != '0') && WholeStops("0" + d, rest)
    ensures IntegerPart("0" + d + rest) == (Natural("0" + d), rest)
  {
    hide Natural, TakeDigits;
    NoDigits();
    var s := "0" + d + rest;
    assert s[1..] == d + rest;
    if d == "" {
      assert "0" + d == "0" && d + rest == rest;
    } else {
      assert forall i | 0 <= i < |d| :: d[i] == ("0" + d)[i + 1];
      DigitsInPlace("0", d, rest);
    }
  }

  lemma FractionIsRead(whole: string, fraction: string, rest: string)
    requires AllDigits(whole) && AllDigits(fraction)
    requires if fraction != "" then !IsDigit(Peek(rest)) else !(Peek(rest) == '.' && IsDigit(Peek(rest[1..])))
    ensures FractionPart(FractionText(fraction, rest), Natural(whole)) == (Natural(whole + fraction), -|fraction|, rest)
  {
    if fraction == "" {
      assert whole + fraction == whole;
    } else {
      var s := "." + (fraction + rest);
      assert s[1..] == fraction + rest;
      DigitsInPlace(whole, fraction, rest);
    }
  }

  /** The power of ten that an exponent stands for. */
  function Power(e: Exponent): int
    requires WellExponent(e)
  {
    match e
    case NoExponent => 0
    case Exponent(_, sign, digits) => if sign == "-" then 0 - Natural(digits) else Natural(digits)
  }

  predicate ExponentStops(e: Exponent, rest: string) {
    match e
    case NoExponent => Peek(rest) != 'e' && Peek(rest) != 'E'
    case Exponent(_, sign, digits) =>
      !IsDigit(Peek(rest)) && (sign == "" && digits == "" ==> Peek(rest) != '+' && Peek(rest) != '-')
  }

  lemma ExponentIsRead(e: Exponent, rest: string)
    requires WellExponent(e) && ExponentStops(e, rest)
    ensures ExponentPart(ExponentText(e, rest)) == (Power(e), rest)
  {
    hide Natural, TakeDigits, AllDigits;
    if e.Exponent? {
      var tail := e.digits + rest;
      NoDigits();
      assert "" + e.digits == e.digits;
      DigitsInPlace("", e.digits, rest);
      MarkIsRead(e.mark, e.sign, tail);
      TailStart(e.digits, rest);
    }
  }

  lemma TailStart(digits: string, rest: string)
    requires AllDigits(digits)
    ensures Peek(digits + rest) == if digits == "" then Peek(rest) else digits[0]
    ensures digits != "" ==> IsDigit(digits[0])
  {
    assert digits == "" ==> digits + rest == rest;
  }

  lemma MarkIsRead(mark: char, sign: string, tail: string)
    ensures var s := [mark] + (sign + tail);
      && s[0] == mark
      && (sign == "" ==> s[1..] == tail)
      && (|sign| == 1 ==> Peek(s[1..]) == sign[0] && s[2..] == tail)
  {
    var s := [mark] + (sign + tail);
    assert s[1..] == sign + tail;
    assert |sign| == 1 ==> s[2..] == tail;
  }

  // powers of ten

  lemma TenTimes(e: int)
    ensures Pow10(e + 1) == 10.0 * Pow10(e)
  {
  }

  lemma {:induction false} Pow10Is(k: nat)
    ensures Pow10(k) == TenTo(k)
  {
    if k > 0 {
      Pow10Is(k - 1);
    }
  }

  lemma {:induction false} Pow10Less(e: int, k: nat)
    ensures Pow10(e - k) * TenTo(k) == Pow10(e)
    decreases k
  {
    if k > 0 {
      Pow10Less(e - 1, k - 1);
      TenTimes(e - 1);
      var p, t := Pow10(e - k), TenTo(k - 1);
      assert e - 1 - (k - 1) == e - k;
      assert p * (10.0 * t) == 10.0 * (p * t);
    }
  }

  lemma Quotient(x: real, p: real, t: real, q: real)
    requires t > 0.0 && p * t == q
    ensures x * p == x * q / t
  {
    assert x * p * t == x * (p * t);
  }

  lemma ExponentIsScaled(y: real, e: Exponent)
    requires WellExponent(e)
    ensures y * Pow10(Power(e)) == Scaled(y, e)
  {
    if e.Exponent? {
      var n: int := Natural(e.digits);
      Pow10Is(n);
      Pow10Less(0, n);
      Quotient(y, Pow10(0 - n), TenTo(n), 1.0);
      hide Pow10, TenTo, Natural;
    }
  }

  lemma PowerIsScaled(x: real, k: nat, e: Exponent)
    requires WellExponent(e)
    ensures x * Pow10(Power(e) - k) == Scaled(x / TenTo(k), e)
  {
    hide *;
    var p := Power(e);
    Pow10Less(p, k);
    Quotient(x, Pow10(p - k), TenTo(k), Pow10(p));
    Commute(x, Pow10(p), TenTo(k));
    ExponentIsScaled(x / TenTo(k), e);
  }

  lemma Commute(x: real, p: real, t: real)
    requires t > 0.0
    ensures x * p / t == x / t * p
  {
    var y := x / t;
    assert y * t == x;
    assert (y * p) * t == x * p;
  }

  lemma StopsApart(n: Numeral, rest: string)
    requires WellNumeral(n) && Stops(n, rest)
    ensures ExponentStops(n.exponent, rest)
    ensures var s := ExponentText(n.exponent, rest);
      if n.fraction != "" then !IsDigit(Peek(s)) else !(Peek(s) == '.' && IsDigit(Peek(s[1..])))
    ensures WholeStops(n.whole, FractionText(n.fraction, ExponentText(n.exponent, rest)))
  {
  }

  /** The sign, and what stands behind it. */
  lemma SignIsRead(n: Numeral, rest: string)
    requires WellNumeral(n)
    ensures var s := NumeralText(n, rest);
      && (Peek(s) == '-' <==> n.minus)
      && (if n.minus then s[1..] else s) == UnsignedText(n, rest)
  {
    var u := UnsignedText(n, rest);
    assert ("-" + u)[1..] == u;
  }

  lemma PartsAreRead(n: Numeral, rest: string)
    requires WellNumeral(n) && Stops(n, rest)
    ensures var (w, s1) := IntegerPart(UnsignedText(n, rest));
      var (m, scale, s2) := FractionPart(s1, w);
      && m == Natural(n.whole + n.fraction) && scale == -|n.fraction|
      && ExponentPart(s2) == (Power(n.exponent), rest)
  {
    hide IntegerPart, FractionPart, ExponentPart, FractionText, ExponentText, WholeStops, ExponentStops, Natural;
    StopsApart(n, rest);
    var s2 := ExponentText(n.exponent, rest);
    WholeIsRead(n.whole, FractionText(n.fraction, s2));
    FractionIsRead(n.whole, n.fraction, s2);
    ExponentIsRead(n.exponent, rest);
  }

  /** A number is read to its end and has the value of its digits in their places. */
  lemma NumeralIsRead(n: Numeral, rest: string)
    requires WellNumeral(n) && Stops(n, rest)
    ensures ParseNumber(NumeralText(n, rest)) == (NumeralValue(n), rest)
  {
    hide IntegerPart, FractionPart, ExponentPart, UnsignedText, NumeralText, Natural, Scaled, Pow10, TenTo, Power;
    SignIsRead(n, rest);
    PartsAreRead(n, rest);
    var sign: int, size: int := if n.minus then -1 else 1, Natural(n.whole + n.fraction);
    var signed := if n.minus then -(size as real) else size as real;
    assert (sign * size) as real == signed;
    PowerIsScaled(signed, |n.fraction|, n.exponent);
    var (value, end) := ParseNumber(NumeralText(n, rest));
    assert end == rest && value == signed * Pow10(Power(n.exponent) - |n.fraction|);
    assert value == Scaled(signed / TenTo(|n.fraction|), n.exponent);
    assert value == NumeralValue(n);
  }

  lemma FractionFront(s: string) returns (f: string, rest: string)
    ensures AllDigits(f) && s == FractionText(f, rest)
    ensures if f != "" then !IsDigit(Peek(rest)) else !(Peek(rest) == '.' && IsDigit(Peek(rest[1..])))
  {
    f, rest := "", s;
    if Peek(s) == '.' && IsDigit(Peek(s[1..])) {
      f, rest := DigitsFront(s[1..]);
      assert s == "." + s[1..];
    }
  }

  lemma ExponentFront(s: string) returns (e: Exponent, rest: string)
    ensures WellExponent(e) && s == ExponentText(e, rest) && ExponentStops(e, rest)
  {
    e, rest := NoExponent, s;
    if Peek(s) == 'e' || Peek(s) == 'E' {
      var t := s[1..];
      var signed := Peek(t) == '+' || Peek(t) == '-';
      var sign, u := if signed then [t[0]] else "", if signed then t[1..] else t;
      assert s == [s[0]] + t && t == sign + u;
      var digits;
      digits, rest := DigitsFront(u);
      assert digits == "" ==> u == rest;
      e := Exponent(s[0], sign, digits);
    }
  }

  /** Every text that parse_number is called on starts with a number, and goes on with what stops it. */
  lemma NumeralFound(s: string) returns (n: Numeral, rest: string)
    requires Peek(s) == '-' || IsDigit(Peek(s))
    ensures WellNumeral(n) && Stops(n, rest) && s == NumeralText(n, rest)
  {
    var minus := Peek(s) == '-';
    var s0 := if minus then s[1..] else s;
    assert minus ==> s == "-" + s0;
    var whole, s1 := DigitsFront(s0);
    if |whole| > 1 && whole[0] == '0' && whole[1] == '0' {
      rest := s0[1..];
      n := Numeral(minus, "0", "", NoExponent);
      assert s0 == "0" + rest && rest[0] == whole[1];
    } else {
      var f, s2 := FractionFront(s1);
      var e;
      e, rest := ExponentFront(s2);
      n := Numeral(minus, whole, f, e);
      hide Peek, AllDigits, IsDigit;
      assert whole == "" ==> s0 == s1;
    }
  }

  // ---------------------------------------------------------------- values

  lemma FirstOfPrefix(s: string, prefix: string)
    requires prefix != ""
    ensures StartsWith(s, prefix) ==> Peek(s) == prefix[0]
  {
    if StartsWith(s, prefix) {
      assert s[..|prefix|][0] == prefix[0];
    }
  }

  lemma NotAKeyword(s: string)
    requires Peek(s) !in {'n', 'f', 't'}
    ensures !StartsWith(s, "null") && !StartsWith(s, "false") && !StartsWith(s, "true")
  {
    FirstOfPrefix(s, "null");
    FirstOfPrefix(s, "false");
    FirstOfPrefix(s, "true");
  }

  lemma ParseObjectText(body: string)
    ensures ParseValue("{" + body) ==
      var t := Skip(body); if Peek(t) == '}' then Ok(Object([]), t[1..]) else AsObject(ParseMembers(t))
  {
    NotAKeyword("{" + body);
    assert ("{" + body)[1..] == body;
  }

  /** Entries are read after skipping, so text with the same first token reads the same. */
  lemma SkipTwice(s: string, t: string)
    requires Skip(s) == Skip(t)
    ensures ParseItems(s) == ParseItems(t) && ParseMembers(s) == ParseMembers(t)
  {
  }

  lemma SpellStart(sp: Spelling, rest: string)
    requires WellSpelled(sp)
    ensures var c := Peek(Spell(sp, rest)); c > ' ' && c != ']' && c != '}'
    ensures sp.Num? ==> Peek(Spell(sp, rest)) == '-' || IsDigit(Peek(Spell(sp, rest)))
  {
  }

  /** What stands behind an entry does not belong to its value. */
  lemma EntryEnds(e: Entry, end: string)
    requires WellEntry(e) && Peek(end) in {',', ']', '}'}
    ensures Ends(e.value, e.after + end)
  {
    assert e.after == "" ==> e.after + end == end;
  }

  lemma SkipEntry(e: Entry, end: string)
    requires WellEntry(e) && Peek(end) in {',', ']', '}'}
    ensures var s := Spell(e.value, e.after + end); Skip(EntryText(e, end)) == s && Skip(s) == s
    ensures Skip(e.after + end) == end
  {
    var s := Spell(e.value, e.after + end);
    SpellStart(e.value, e.after + end);
    SkipNothing(s);
    SkipWhite(e.before, s);
    SkipNothing(end);
    SkipWhite(e.after, end);
  }

  lemma {:induction false} EntryIsRead(e: Entry, end: string)
    requires WellEntry(e) && Peek(end) in {',', ']', '}'}
    ensures ParseValue(Skip(EntryText(e, end))) == Ok(Value(e.value), e.after + end)
    ensures Skip(e.after + end) == end
    decreases e, 3
  {
    EntryEnds(e, end);
    SkipEntry(e, end);
    SpelledIsRead(e.value, e.after + end);
  }

  lemma {:induction false} EntriesAreRead(es: seq<Entry>, rest: string)
    requires es != [] && WellEntries(es)
    ensures ParseItems(EntriesText(es, "]" + rest)) == Ok(Values(es), rest)
    decreases es, 0
  {
    assert WellEntry(es[0]);
    var end := if |es| > 1 then "," + EntriesText(es[1..], "]" + rest) else "]" + rest;
    EntryIsRead(es[0], end);
    assert MoreItems(end) == Ok(Values(es[1..]), rest) by {
      if |es| > 1 {
        EntriesAreRead(es[1..], rest);
        assert end[1..] == EntriesText(es[1..], "]" + rest);
      } else {
        assert end[1..] == rest;
      }
    }
  }

  lemma {:induction false} FieldIsRead(f: Field, end: string)
    requires White(f.before) && WellPieces(f.name) && White(f.gap) && WellEntry(f.entry) && Peek(end) in {',', ']', '}'}
    ensures ParseMember(FieldText(f, end)) ==
      Ok(Member(MeaningAll(f.name), Value(f.entry.value)), f.entry.after + end)
    decreases f, 3
  {
    var colon := ":" + EntryText(f.entry, end);
    var name := LiteralText(f.name, true, f.gap + colon);
    SkipNothing(name);
    SkipWhite(f.before, name);
    LiteralIsRead(f.name, true, f.gap + colon);
    SkipNothing(colon);
    SkipWhite(f.gap, colon);
    assert colon[1..] == EntryText(f.entry, end);
    EntryIsRead(f.entry, end);
  }

  lemma {:induction false} FieldsAreRead(fs: seq<Field>, rest: string)
    requires fs != [] && WellFields(fs)
    ensures ParseMembers(FieldsText(fs, "}" + rest)) == Ok(MembersOf(fs), rest)
    decreases fs, 0
  {
    assert WellEntry(fs[0].entry);
    var end := if |fs| > 1 then "," + FieldsText(fs[1..], "}" + rest) else "}" + rest;
    FieldIsRead(fs[0], end);
    SkipEntry(fs[0].entry, end);
    assert MoreMembers(end) == Ok(MembersOf(fs[1..]), rest) by {
      if |fs| > 1 {
        FieldsAreRead(fs[1..], rest);
        assert end[1..] == FieldsText(fs[1..], "}" + rest);
      } else {
        assert end[1..] == rest;
      }
    }
  }

  lemma ParseArrayText(body: string)
    ensures ParseValue("[" + body) ==
      var t := Skip(body); if Peek(t) == ']' then Ok(Array([]), t[1..]) else AsArray(ParseItems(t))
  {
    NotAKeyword("[" + body);
    assert ("[" + body)[1..] == body;
  }

  lemma EntriesStart(es: seq<Entry>, rest: string)
    requires es != [] && WellEntries(es)
    ensures var s := Skip(EntriesText(es, "]" + rest)); Peek(s) != ']' && Skip(s) == s
  {
    assert WellEntry(es[0]);
    var end := if |es| > 1 then "," + EntriesText(es[1..], "]" + rest) else "]" + rest;
    SkipEntry(es[0], end);
    SpellStart(es[0].value, es[0].after + end);
  }

  lemma {:induction false} ArrayIsRead(inner: string, es: seq<Entry>, rest: string)
    requires White(inner) && WellEntries(es)
    ensures ParseValue(Spell(Arr(inner, es), rest)) == Ok(Array(Values(es)), rest)
    decreases es, 1
  {
    var s, body := Spell(Arr(inner, es), rest), EntriesText(es, "]" + rest);
    assert s == "[" + (inner + body);
    ParseArrayText(inner + body);
    SkipWhite(inner, body);
    if es == [] {
      assert body == "]" + rest && body[1..] == rest;
      SkipNothing(body);
    } else {
      EntriesStart(es, rest);
      SkipTwice(Skip(body), body);
      EntriesAreRead(es, rest);
    }
  }

  lemma {:induction false} ObjectIsRead(inner: string, fs: seq<Field>, rest: string)
    requires White(inner) && WellFields(fs)
    ensures ParseValue(Spell(Obj(inner, fs), rest)) == Ok(Object(MembersOf(fs)), rest)
    decreases fs, 1
  {
    var s, body := Spell(Obj(inner, fs), rest), FieldsText(fs, "}" + rest);
    assert s == "{" + (inner + body);
    ParseObjectText(inner + body);
    SkipWhite(inner, body);
    if fs == [] {
      assert body == "}" + rest && body[1..] == rest;
      SkipNothing(body);
    } else {
      FieldStart(fs[0], if |fs| > 1 then "," + FieldsText(fs[1..], "}" + rest) else "}" + rest);
      SkipTwice(Skip(body), body);
      FieldsAreRead(fs, rest);
    }
  }

  lemma FieldStart(f: Field, end: string)
    requires White(f.before)
    ensures var s := Skip(FieldText(f, end)); s != "" && s[0] == QUOTE && Skip(s) == s
  {
    var name := LiteralText(f.name, true, f.gap + (":" + EntryText(f.entry, end)));
    SkipNothing(name);
    SkipWhite(f.before, name);
  }

  lemma WordIsRead(sp: Spelling, rest: string)
    requires sp.NullWord? || sp.FalseWord? || sp.TrueWord?
    ensures ParseValue(Spell(sp, rest)) == Ok(Value(sp), rest)
  {
    var s := Spell(sp, rest);
    FirstOfPrefix(s, "null");
    FirstOfPrefix(s, "false");
    if sp.NullWord? {
      assert s[..4] == "null" && s[4..] == rest;
    } else if sp.FalseWord? {
      assert s[..5] == "false" && s[5..] == rest;
    } else {
      assert s[..4] == "true" && s[4..] == rest;
    }
  }

  /** Every spelling of a value is read as that value, and to its end. */
  lemma {:induction false} SpelledIsRead(sp: Spelling, rest: string)
    requires WellSpelled(sp) && Ends(sp, rest)
    ensures ParseValue(Spell(sp, rest)) == Ok(Value(sp), rest)
    decreases sp, 2
  {
    match sp
    case Num(n) =>
      NumeralIsRead(n, rest);
      SpellStart(sp, rest);
      NotAKeyword(Spell(sp, rest));
    case Str(ps, closed) =>
      LiteralIsRead(ps, closed, rest);
      NotAKeyword(Spell(sp, rest));
    case Arr(inner, entries) => ArrayIsRead(inner, entries, rest);
    case Obj(inner, fields) => ObjectIsRead(inner, fields, rest);
    case _ => WordIsRead(sp, rest);
  }

  // ---------------------------------------------------------------- and nothing else

  lemma {:induction false} WordFound(s: string, word: string)
    requires StartsWith(s, word)
    ensures s == word + s[|word|..]
  {
    assert s == s[..|word|] + s[|word|..];
  }

  lemma LiteralFound(s: string) returns (ps: seq<Piece>, closed: bool)
    requires ParseString(s).Ok?
    ensures var rest := ParseString(s).rest;
      WellPieces(ps) && s == LiteralText(ps, closed, rest) && (closed || Peek(rest) == '\0')
  {
    ps, closed := PiecesFound(s[1..]);
    assert s == "\"" + s[1..];
  }

  /** Whatever text is read as a value is a spelling of one, with what is left behind it. */
  lemma {:induction false} SpellingFound(s: string) returns (sp: Spelling)
    requires ParseValue(s).Ok?
    ensures var rest := ParseValue(s).rest; WellSpelled(sp) && Ends(sp, rest) && s == Spell(sp, rest)
    decreases |s|, 1
  {
    if StartsWith(s, "null") {
      WordFound(s, "null");
      sp := NullWord;
    } else if StartsWith(s, "false") {
      WordFound(s, "false");
      sp := FalseWord;
    } else if StartsWith(s, "true") {
      WordFound(s, "true");
      sp := TrueWord;
    } else if Peek(s) == QUOTE {
      var ps, closed := LiteralFound(s);
      sp := Str(ps, closed);
    } else if Peek(s) == '-' || IsDigit(Peek(s)) {
      var n, rest := NumeralFound(s);
      NumeralIsRead(n, rest);
      sp := Num(n);
    } else if Peek(s) == '[' {
      assert s == "[" + s[1..];
      ParseArrayText(s[1..]);
      sp := ArrayFound(s[1..], ParseValue(s).rest);
    } else {
      assert s == "{" + s[1..];
      ParseObjectText(s[1..]);
      sp := ObjectFound(s[1..], ParseValue(s).rest);
    }
  }

  lemma {:induction false} ArrayFound(body: string, rest: string) returns (sp: Spelling)
    requires var t := Skip(body);
      if Peek(t) == ']' then t[1..] == rest else ParseItems(t).Ok? && ParseItems(t).rest == rest
    ensures sp.Arr? && WellSpelled(sp) && "[" + body == Spell(sp, rest)
    decreases |body|, 4
  {
    var inner := WhiteFront(body);
    var t := Skip(body);
    hide Skip;
    if Peek(t) == ']' {
      sp := Arr(inner, []);
      assert t == "]" + rest;
    } else {
      var es := EntriesFound(t);
      sp := Arr(inner, es);
    }
  }

  lemma {:induction false} EntriesFound(s: string) returns (es: seq<Entry>)
    requires ParseItems(s).Ok?
    ensures es != [] && WellEntries(es) && s == EntriesText(es, "]" + ParseItems(s).rest)
    decreases |s|, 3
  {
    var rest, behind := ParseItems(s).rest, ParseValue(Skip(s)).rest;
    var end := Skip(behind);
    var e := EntryFound(s);
    if Peek(end) == ',' {
      var more := EntriesFound(end[1..]);
      es := [e] + more;
      assert es[1..] == more && end == "," + end[1..];
    } else {
      es := [e];
      assert es[1..] == [] && end == "]" + rest;
    }
  }

  lemma {:induction false} EntryFound(s: string) returns (e: Entry)
    requires ParseValue(Skip(s)).Ok? && Peek(Skip(ParseValue(Skip(s)).rest)) != '\0'
    ensures WellEntry(e) && s == EntryText(e, Skip(ParseValue(Skip(s)).rest))
    decreases |s|, 2
  {
    var before := WhiteFront(s);
    var sp := SpellingFound(Skip(s));
    var after := WhiteFront(ParseValue(Skip(s)).rest);
    e := Entry(before, sp, after);
  }

  lemma {:induction false} ObjectFound(body: string, rest: string) returns (sp: Spelling)
    requires var t := Skip(body);
      if Peek(t) == '}' then t[1..] == rest else ParseMembers(t).Ok? && ParseMembers(t).rest == rest
    ensures sp.Obj? && WellSpelled(sp) && "{" + body == Spell(sp, rest)
    decreases |body|, 5
  {
    var inner := WhiteFront(body);
    var t := Skip(body);
    hide Skip;
    if Peek(t) == '}' {
      sp := Obj(inner, []);
      assert t == "}" + rest;
    } else {
      var fs := FieldsFound(t);
      sp := Obj(inner, fs);
    }
  }

  lemma {:induction false} FieldsFound(s: string) returns (fs: seq<Field>)
    requires ParseMembers(s).Ok?
    ensures fs != [] && WellFields(fs) && s == FieldsText(fs, "}" + ParseMembers(s).rest)
    decreases |s|, 4
  {
    var rest := ParseMembers(s).rest;
    var end := Skip(ParseMember(s).rest);
    var f := FieldFound(s);
    if Peek(end) == ',' {
      var more := FieldsFound(end[1..]);
      fs := [f] + more;
      assert fs[1..] == more && end == "," + end[1..];
    } else {
      fs := [f];
      assert fs[1..] == [] && end == "}" + rest;
    }
  }

  lemma {:induction false} FieldFound(s: string) returns (f: Field)
    requires ParseMember(s).Ok? && Peek(Skip(ParseMember(s).rest)) != '\0'
    ensures White(f.before) && WellPieces(f.name) && White(f.gap) && WellEntry(f.entry)
    ensures s == FieldText(f, Skip(ParseMember(s).rest))
    decreases |s|, 3
  {
    var before := WhiteFront(s);
    var ps, closed := LiteralFound(Skip(s));
    var rest := ParseString(Skip(s)).rest;
    var gap := WhiteFront(rest);
    var colon := Skip(rest);
    assert colon == ":" + colon[1..];
    hide Skip, ParseString, ParseValue;
    var entry := EntryFound(colon[1..]);
    f := Field(before, ps, gap, entry);
  }

  /** parse_value reads `v` and leaves `rest` exactly of the texts that spell `v` with `rest` behind it. */
  lemma ReadsExactly(s: string, v: Json, rest: string)
    ensures ParseValue(s) == Ok(v, rest) <==> exists sp :: Spells(sp, v, s, rest)
  {
    if ParseValue(s) == Ok(v, rest) {
      var sp := SpellingFound(s);
      SpelledIsRead(sp, rest);
      assert Spells(sp, v, s, rest);
    }
    forall sp | Spells(sp, v, s, rest) ensures ParseValue(s) == Ok(v, rest) {
      SpelledIsRead(sp, rest);
    }
  }

  /** cJSON_Parse, likewise, with white space in front. */
  lemma ParsesExactly(s: string, v: Json, rest: string)
    ensures Parse(s) == Ok(v, rest) <==> exists w, sp :: SpellsBehind(w, sp, v, s, rest)
  {
    hide ParseValue, Skip, Spell, WellSpelled;
    if Parse(s) == Ok(v, rest) {
      var w := WhiteFront(s);
      var sp := SpellingFound(Skip(s));
      SpelledIsRead(sp, rest);
      assert SpellsBehind(w, sp, v, s, rest);
    }
    forall w, sp | SpellsBehind(w, sp, v, s, rest) ensures Parse(s) == Ok(v, rest) {
      SkipWhite(w, Spell(sp, rest));
      SpellStart(sp, rest);
      SkipNothing(Spell(sp, rest));
      SpelledIsRead(sp, rest);
    }
  }
}
