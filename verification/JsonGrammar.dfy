/** How a JSON value may be spelled, and what each spelling means, apart from the parser that reads
    it.  The grammar is that of RFC 8259, and what dap/cJSON.cpp takes beyond it. */
module JsonGrammar {
  import opened CStrings
  import opened JsonValues
  import opened Utf8

  /** Any run of the bytes 1 to 32. */
  predicate White(w: string) {
    forall i | 0 <= i < |w| :: '\0' < w[i] <= ' '
  }

  // ---------------------------------------------------------------- strings

  /** A part of a literal: a byte, a backslash and a byte, four hexadecimal digits that are no high
      surrogate, a high surrogate with no other escape of this kind behind it, or one with. */
  datatype Piece =
    | Plain(c: char) | Short(c: char) | Unit(hex: string) | Lone(hex: string) | Pair(high: string, low: string)

  function HexNumeral(c: char): int {
    match c
    case '0' => 0 case '1' => 1 case '2' => 2 case '3' => 3 case '4' => 4
    case '5' => 5 case '6' => 6 case '7' => 7 case '8' => 8 case '9' => 9
    case 'a' | 'A' => 10 case 'b' | 'B' => 11 case 'c' | 'C' => 12
    case 'd' | 'D' => 13 case 'e' | 'E' => 14 case 'f' | 'F' => 15
    case _ => -1
  }

  predicate IsHex(hex: string) {
    |hex| == 4 && forall i | 0 <= i < 4 :: HexNumeral(hex[i]) >= 0
  }

  function CodeUnit(hex: string): (u: nat)
    requires IsHex(hex)
    ensures u < 0x10000
  {
    HexNumeral(hex[0]) * 0x1000 + HexNumeral(hex[1]) * 0x100 + HexNumeral(hex[2]) * 0x10 + HexNumeral(hex[3])
  }

  predicate WellPiece(p: Piece) {
    match p
    case Plain(c) => c != '\0' && c != '\"' && c != '\\'
    case Short(c) => c != '\0' && c != 'u'
    case Unit(hex) => IsHex(hex) && !IsHighSurrogate(CodeUnit(hex))
    case Lone(hex) => IsHex(hex) && IsHighSurrogate(CodeUnit(hex))
    case Pair(high, low) => IsHex(high) && IsHighSurrogate(CodeUnit(high)) && IsHex(low)
  }

  predicate WellPieces(ps: seq<Piece>) {
    ps != [] ==>
      && WellPiece(ps[0]) && WellPieces(ps[1..])
      && (ps[0].Lone? && |ps| > 1 ==> ps[1].Plain? || ps[1].Short?)
  }

  /** What stands behind the backslash. */
  function EscapeText(p: Piece): string
    requires !p.Plain?
  {
    match p
    case Short(c) => [c]
    case Unit(hex) => "u" + hex
    case Lone(hex) => "u" + hex
    case Pair(high, low) => "u" + (high + ("\\u" + low))
  }

  function PieceText(p: Piece): string {
    if p.Plain? then [p.c] else "\\" + EscapeText(p)
  }

  /** The pieces, and `rest` behind them. */
  function PiecesText(ps: seq<Piece>, rest: string): string {
    if ps == [] then rest else PieceText(ps[0]) + PiecesText(ps[1..], rest)
  }

  /** What the code makes of a surrogate pair: bit 16 is lost where the high half has bit 6. */
  function PairValue(high: nat, low: nat): (u: nat)
    requires IsHighSurrogate(high) && IsLowSurrogate(low)
    ensures u < 0x110000
  {
    SurrogateValue(high, low) - if high / 0x40 % 2 == 1 then 0x10000 else 0
  }

  function Meaning(p: Piece): string
    requires WellPiece(p)
  {
    match p
    case Plain(c) => [c]
    case Short('b') => [8 as char]
    case Short('f') => [12 as char]
    case Short('n') => [10 as char]
    case Short('r') => [13 as char]
    case Short('t') => [9 as char]
    case Short(c) => [c]
    case Unit(hex) => if CodeUnit(hex) == 0 || IsLowSurrogate(CodeUnit(hex)) then "" else Encode(CodeUnit(hex))
    case Lone(_) => ""
    case Pair(high, low) =>
      if IsLowSurrogate(CodeUnit(low)) then Encode(PairValue(CodeUnit(high), CodeUnit(low))) else ""
  }

  function MeaningAll(ps: seq<Piece>): string
    requires WellPieces(ps)
  {
    if ps == [] then "" else Meaning(ps[0]) + MeaningAll(ps[1..])
  }

  /** A literal; the quote at its end may be missing where the text ends. */
  function LiteralText(ps: seq<Piece>, closed: bool, rest: string): string {
    "\"" + PiecesText(ps, if closed then "\"" + rest else rest)
  }

  // ---------------------------------------------------------------- numbers

  datatype Exponent = NoExponent | Exponent(mark: char, sign: string, digits: string)

  datatype Numeral = Numeral(minus: bool, whole: string, fraction: string, exponent: Exponent)

  function TenTo(k: nat): (r: real)
    ensures r > 0.0
  {
    if k == 0 then 1.0 else 10.0 * TenTo(k - 1)
  }

  predicate WellExponent(e: Exponent) {
    e.Exponent? ==> e.mark in {'e', 'E'} && e.sign in {"", "+", "-"} && AllDigits(e.digits)
  }

  /** One zero may stand in front of the other digits, and behind a minus there may be none. */
  predicate WellNumeral(n: Numeral) {
    && AllDigits(n.whole) && AllDigits(n.fraction) && WellExponent(n.exponent)
    && (n.whole == "" ==> n.minus)
    && (|n.whole| > 1 && n.whole[0] == '0' ==> n.whole[1] != '0')
  }

  function FractionText(fraction: string, rest: string): string {
    if fraction == "" then rest else "." + (fraction + rest)
  }

  function ExponentText(e: Exponent, rest: string): string {
    match e
    case NoExponent => rest
    case Exponent(mark, sign, digits) => [mark] + (sign + (digits + rest))
  }

  function UnsignedText(n: Numeral, rest: string): string {
    n.whole + FractionText(n.fraction, ExponentText(n.exponent, rest))
  }

  function NumeralText(n: Numeral, rest: string): string {
    if n.minus then "-" + UnsignedText(n, rest) else UnsignedText(n, rest)
  }

  function Scaled(x: real, e: Exponent): real
    requires WellExponent(e)
  {
    match e
    case NoExponent => x
    case Exponent(_, sign, digits) =>
      if sign == "-" then x / TenTo(Natural(digits)) else x * TenTo(Natural(digits))
  }

  function NumeralValue(n: Numeral): real
    requires WellNumeral(n)
  {
    var size := Natural(n.whole + n.fraction) as real;
    Scaled((if n.minus then -size else size) / TenTo(|n.fraction|), n.exponent)
  }

  /** `rest` does not go on with the integer part. */
  predicate WholeStops(whole: string, rest: string) {
    if whole == "0" then !('1' <= Peek(rest) <= '9') else !IsDigit(Peek(rest))
  }

  predicate FractionStops(n: Numeral, rest: string) {
    if n.fraction != "" then !IsDigit(Peek(rest))
    else !(Peek(rest) == '.' && IsDigit(Peek(rest[1..]))) && WholeStops(n.whole, rest)
  }

  /** `rest` does not go on with the number. */
  predicate Stops(n: Numeral, rest: string) {
    match n.exponent
    case NoExponent => Peek(rest) != 'e' && Peek(rest) != 'E' && FractionStops(n, rest)
    case Exponent(_, sign, digits) =>
      !IsDigit(Peek(rest)) && (sign == "" && digits == "" ==> Peek(rest) != '+' && Peek(rest) != '-')
  }

  // ---------------------------------------------------------------- values

  datatype Spelling =
    | NullWord | FalseWord | TrueWord
    | Num(numeral: Numeral)
    | Str(pieces: seq<Piece>, closed: bool)
    | Arr(inner: string, entries: seq<Entry>)
    | Obj(inner: string, fields: seq<Field>)

  /** A value between white space. */
  datatype Entry = Entry(before: string, value: Spelling, after: string)

  datatype Field = Field(before: string, name: seq<Piece>, gap: string, entry: Entry)

  predicate WellSpelled(sp: Spelling)
    decreases sp, 2
  {
    match sp
    case Num(n) => WellNumeral(n)
    case Str(ps, _) => WellPieces(ps)
    case Arr(inner, entries) => White(inner) && WellEntries(entries)
    case Obj(inner, fields) => White(inner) && WellFields(fields)
    case _ => true
  }

  predicate WellEntry(e: Entry)
    decreases e, 3
  {
    White(e.before) && White(e.after) && WellSpelled(e.value) && (e.value.Str? ==> e.value.closed)
  }

  predicate WellEntries(es: seq<Entry>)
    decreases es, 0
  {
    es != [] ==> WellEntry(es[0]) && WellEntries(es[1..])
  }

  predicate WellFields(fs: seq<Field>)
    decreases fs, 0
  {
    fs != [] ==>
      && White(fs[0].before) && WellPieces(fs[0].name) && White(fs[0].gap) && WellEntry(fs[0].entry)
      && WellFields(fs[1..])
  }

  function Value(sp: Spelling): Json
    requires WellSpelled(sp)
    decreases sp, 1
  {
    match sp
    case NullWord => Null
    case FalseWord => False
    case TrueWord => True
    case Num(n) => Number(NumeralValue(n))
    case Str(ps, _) => String(MeaningAll(ps))
    case Arr(_, entries) => Array(Values(entries))
    case Obj(_, fields) => Object(MembersOf(fields))
  }

  function Values(es: seq<Entry>): seq<Json>
    requires WellEntries(es)
    decreases es, 0
  {
    if es == [] then []
    else
      assert WellEntry(es[0]);
      [Value(es[0].value)] + Values(es[1..])
  }

  function MembersOf(fs: seq<Field>): seq<Member>
    requires WellFields(fs)
    decreases fs, 0
  {
    if fs == [] then []
    else
      assert WellEntry(fs[0].entry);
      [Member(MeaningAll(fs[0].name), Value(fs[0].entry.value))] + MembersOf(fs[1..])
  }

  /** The text of a value, and `rest` behind it. */
  function Spell(sp: Spelling, rest: string): string
    decreases sp, 1
  {
    match sp
    case NullWord => "null" + rest
    case FalseWord => "false" + rest
    case TrueWord => "true" + rest
    case Num(n) => NumeralText(n, rest)
    case Str(ps, closed) => LiteralText(ps, closed, rest)
    case Arr(inner, entries) => "[" + (inner + EntriesText(entries, "]" + rest))
    case Obj(inner, fields) => "{" + (inner + FieldsText(fields, "}" + rest))
  }

  function EntryText(e: Entry, rest: string): string
    decreases e, 2
  {
    e.before + Spell(e.value, e.after + rest)
  }

  function EntriesText(es: seq<Entry>, rest: string): string
    decreases es, 0
  {
    if es == [] then rest
    else EntryText(es[0], if |es| > 1 then "," + EntriesText(es[1..], rest) else rest)
  }

  function FieldText(f: Field, rest: string): string
    decreases f, 3
  {
    f.before + LiteralText(f.name, true, f.gap + (":" + EntryText(f.entry, rest)))
  }

  function FieldsText(fs: seq<Field>, rest: string): string
    decreases fs, 0
  {
    if fs == [] then rest
    else FieldText(fs[0], if |fs| > 1 then "," + FieldsText(fs[1..], rest) else rest)
  }

  /** What may stand behind a spelling without being taken for a part of it. */
  predicate Ends(sp: Spelling, rest: string) {
    match sp
    case Num(n) => Stops(n, rest)
    case Str(_, closed) => closed || Peek(rest) == '\0'
    case _ => true
  }

  /** `s` is a spelling of `v`, and `rest` behind it. */
  predicate Spells(sp: Spelling, v: Json, s: string, rest: string) {
    WellSpelled(sp) && Ends(sp, rest) && Value(sp) == v && s == Spell(sp, rest)
  }

  /** The same with white space in front. */
  predicate SpellsBehind(w: string, sp: Spelling, v: Json, s: string, rest: string) {
    White(w) && WellSpelled(sp) && Ends(sp, rest) && Value(sp) == v && s == w + Spell(sp, rest)
  }
}
