/** The 32-bit words that parse_string's `\u` case shifts and masks (dap/cJSON.cpp), and the
    numbers they stand for. */
module Words {
  import opened CStrings
  import opened Utf8

  type Word = bv32

  /** `((uc | 0x80) & 0xBF)` */
  function ContinuationByte(u: Word): Word {
    (u | 0x80) & 0xBF
  }

  /** `uc >>= 6` */
  function ShiftOut(u: Word): Word {
    u >> 6
  }

  /** `(uc | firstByteMark[len])` */
  function LeadByte(u: Word, len: nat): Word {
    u | FirstByteMark(len)
  }

  /** `0x10000 | ((uc & 0x3FF) << 10) | (uc2 & 0x3FF)` */
  function JoinWords(high: Word, low: Word): Word {
    OrHalves(Half(high), Half(low))
  }

  function Half(u: Word): Word {
    u & 0x3FF
  }

  function OrHalves(h: Word, l: Word): Word {
    0x10000 | (h << 10) | l
  }

  // ---------------------------------------------------------------- shifts and masks
  //
  // Each fact is proved on the bare words first; behind `hide *` only the named parts remain.

  function LastDigits(u: Word): Word {
    u & 0x3F
  }

  function Plane(u: Word): Word {
    u >> 16
  }

  function InPlane(u: Word): Word {
    u & 0xFFFF
  }

  function Or16(b: Word, x: Word): Word {
    (b << 16) | x
  }

  function Or10(b: Word, y: Word): Word {
    (b << 10) | y
  }

  lemma Parts(u: Word)
    ensures Plane(u) == u >> 16 && InPlane(u) == u & 0xFFFF && ShiftOut(u) == u >> 6 && LastDigits(u) == u & 0x3F
  {
  }

  lemma Ors(b: Word, x: Word)
    ensures Or16(b, x) == (b << 16) | x && Or10(b, x) == (b << 10) | x
  {
  }

  lemma PlaneBits(u: Word)
    requires u < 0x110000
    ensures (u >> 16) < 0x11 && (u & 0xFFFF) < 0x10000 && ((u & 0xFFFF) >> 6) < 0x400
    ensures u == ((u >> 16) << 16) | (u & 0xFFFF)
    ensures u >> 6 == ((u >> 16) << 10) | ((u & 0xFFFF) >> 6)
    ensures u & 0x3F == (u & 0xFFFF) & 0x3F
  {
  }

  lemma PlaneFits(u: Word)
    requires u < 0x110000
    ensures Plane(u) < 0x11 && InPlane(u) < 0x10000 && u == Or16(Plane(u), InPlane(u))
  {
    PlaneBits(u);
    Parts(u);
    Ors(Plane(u), InPlane(u));
    hide *;
  }

  lemma ShiftInPlane(u: Word)
    requires u < 0x110000
    ensures ShiftOut(InPlane(u)) < 0x400 && ShiftOut(u) == Or10(Plane(u), ShiftOut(InPlane(u)))
  {
    PlaneBits(u);
    Parts(u);
    Parts(InPlane(u));
    Ors(Plane(u), ShiftOut(InPlane(u)));
    hide *;
  }

  lemma LastDigitsInPlane(u: Word)
    ensures LastDigits(u) == LastDigits(InPlane(u))
  {
  }

  lemma Sum16Bits(b: Word, x: Word)
    requires b < 0x11 && x < 0x10000
    ensures ((b << 16) | x) as int == (b as int) * 0x10000 + x as int
  {
  }

  lemma Sum10Bits(b: Word, y: Word)
    requires b < 0x11 && y < 0x400
    ensures ((b << 10) | y) as int == (b as int) * 0x400 + y as int
  {
  }

  lemma Sum16(b: Word, x: Word)
    requires b < 0x11 && x < 0x10000
    ensures Or16(b, x) as int == (b as int) * 0x10000 + x as int
  {
    Sum16Bits(b, x);
    Ors(b, x);
    hide *;
  }

  lemma Sum10(b: Word, y: Word)
    requires b < 0x11 && y < 0x400
    ensures Or10(b, y) as int == (b as int) * 0x400 + y as int
  {
    Sum10Bits(b, y);
    Ors(b, y);
    hide *;
  }

  lemma SmallDigitsBits(x: Word)
    requires x < 0x10000
    ensures x as int == ((x >> 6) as int) * 0x40 + (x & 0x3F) as int
  {
  }

  lemma SmallDigits(x: Word)
    requires x < 0x10000
    ensures x as int == (ShiftOut(x) as int) * 0x40 + LastDigits(x) as int
  {
    SmallDigitsBits(x);
    Parts(x);
    hide *;
  }

  lemma LastDigitsFit(u: Word)
    ensures LastDigits(u) as int < 0x40
  {
  }

  /** A code point is what `uc >>= 6` leaves and what it shifts out. */
  lemma Digits64(u: Word)
    requires u < 0x110000
    ensures u as int == (ShiftOut(u) as int) * 0x40 + LastDigits(u) as int
  {
    PlaneFits(u);
    ShiftInPlane(u);
    LastDigitsInPlane(u);
    Sum16(Plane(u), InPlane(u));
    Sum10(Plane(u), ShiftOut(InPlane(u)));
    SmallDigits(InPlane(u));
    hide *;
  }

  /** Of a code point, the shift is a division, and what is shifted out is the remainder. */
  lemma ShiftIsDivision(u: Word)
    requires u < 0x110000
    ensures ShiftOut(u) as int == u as int / 0x40 && LastDigits(u) as int == u as int % 0x40
  {
    Digits64(u);
    LastDigitsFit(u);
    hide *;
  }

  lemma MarkBits(d: Word)
    requires d < 0x40
    ensures (d | 0x80) as int == 0x80 + d as int
  {
  }

  lemma MaskBits(u: Word)
    ensures ContinuationByte(u) == LastDigits(u) | 0x80 && LastDigits(u) < 0x40
  {
  }

  lemma ShiftFits(u: Word)
    requires u < 0x110000
    ensures ShiftOut(u) < 0x110000
  {
  }

  /** One byte is split off: what the code writes, and what it goes on with. */
  lemma SplitOff(u: Word)
    requires u < 0x110000
    ensures ContinuationByte(u) as int == 0x80 + u as int % 0x40
    ensures ShiftOut(u) as int == u as int / 0x40 && ShiftOut(u) < 0x110000
  {
    ShiftIsDivision(u);
    MaskBits(u);
    MarkBits(LastDigits(u));
    ShiftFits(u);
    hide *;
  }

  /** firstByteMark */
  function FirstByteMark(len: nat): Word {
    match len
    case 2 => 0xC0
    case 3 => 0xE0
    case 4 => 0xF0
    case _ => 0x00
  }

  /** The mark and what is left of the word do not overlap: or-ing is adding. */
  lemma LeadIsSum(u: Word, len: nat)
    requires u as int < LeadLimit(len)
    ensures LeadByte(u, len) as int == u as int + LeadMark(len)
  {
  }

  /** The comparisons that choose the length. */
  lemma SizesAgree(u: Word)
    ensures u < 0x80 <==> u as int < 0x80
    ensures u < 0x800 <==> u as int < 0x800
    ensures u < 0x10000 <==> u as int < 0x10000
    ensures u < 0x110000 <==> u as int < 0x110000
  {
  }

  function Length(u: Word): nat {
    if u < 0x80 then 1 else if u < 0x800 then 2 else if u < 0x10000 then 3 else 4
  }

  lemma LowByte(w: Word)
    ensures (w & 0xFF) as int < 0x100
    ensures w as int < 0x100 ==> w & 0xFF == w
  {
  }

  /** What storing a word into a `char` keeps of it. */
  function Byte(w: Word): char {
    LowByte(w);
    ((w & 0xFF) as int) as char
  }

  /** What stands in the buffer when the switch is done, with `k` of `len` bytes still to be written
      in front of `tail`. */
  function Finish(u: Word, k: nat, len: nat, tail: string): string {
    if k <= 1 then [Byte(LeadByte(u, len))] + tail
    else Finish(ShiftOut(u), k - 1, len, [Byte(ContinuationByte(u))] + tail)
  }

  /** The bytes that the switch writes. */
  function Written(u: Word): string {
    Finish(u, Length(u), Length(u), "")
  }

  lemma FinishLength(u: Word, k: nat, len: nat, tail: string)
    ensures |Finish(u, k, len, tail)| == (if k <= 1 then 1 else k) + |tail|
  {
  }

  /** What is left of a code point behind its last digit in base 64. */
  function Rest(n: nat): nat {
    n / 0x40
  }

  function LeadLimit(len: nat): int {
    match len case 2 => 0x20 case 3 => 0x10 case 4 => 0x08 case _ => 0x80
  }

  function LeadMark(len: nat): int {
    match len case 2 => 0xC0 case 3 => 0xE0 case 4 => 0xF0 case _ => 0
  }

  /** A lead byte. */
  function Lead(n: int, len: nat): char
    requires 0 <= n < LeadLimit(len)
  {
    (n + LeadMark(len)) as char
  }

  /** A continuation byte as it is stored, and what goes on. */
  lemma StoredContinuation(u: Word)
    requires u < 0x110000
    ensures Byte(ContinuationByte(u)) == Continuation(u as int)
    ensures ShiftOut(u) as int == Rest(u as int) && ShiftOut(u) < 0x110000
  {
    SplitOff(u);
    LowByte(ContinuationByte(u));
    hide ContinuationByte, ShiftOut;
  }

  lemma StoredLead(u: Word, len: nat)
    requires u as int < LeadLimit(len)
    ensures Byte(LeadByte(u, len)) == Lead(u as int, len)
  {
    LeadIsSum(u, len);
    LowByte(LeadByte(u, len));
    hide LeadByte;
  }

  lemma LengthIs(u: Word)
    requires u < 0x110000
    ensures u as int < 0x110000 && Length(u) == |Encode(u as int)|
  {
    SizesAgree(u);
  }

  // ---------------------------------------------------------------- the same in numbers

  /** What is left of a number for its lead byte, of `k` bytes. */
  function Remaining(n: nat, k: nat): nat {
    if k <= 1 then n else Remaining(Rest(n), k - 1)
  }

  function Spell(n: nat, k: nat, len: nat, tail: string): string
    requires Remaining(n, k) < LeadLimit(len)
  {
    if k <= 1 then [Lead(n, len)] + tail else Spell(Rest(n), k - 1, len, [Continuation(n)] + tail)
  }

  lemma {:induction false} WordsSpell(u: Word, k: nat, len: nat, tail: string)
    requires u < 0x110000 && Remaining(u as int, k) < LeadLimit(len)
    ensures Finish(u, k, len, tail) == Spell(u as int, k, len, tail)
    decreases k
  {
    hide Byte, ContinuationByte, ShiftOut, LeadByte, Continuation, Rest, Lead, LeadLimit;
    if k <= 1 {
      StoredLead(u, len);
    } else {
      StoredContinuation(u);
      WordsSpell(ShiftOut(u), k - 1, len, [Continuation(u as int)] + tail);
    }
  }

  /** The base-64 digits of a code point are the bytes of its encoding. */
  lemma SpellIsEncode(n: nat)
    requires n < 0x110000
    ensures var len := |Encode(n)|;
      Remaining(n, len) < LeadLimit(len) && Spell(n, len, len, "") == Encode(n)
  {
    var v := Rest(n);
    var w := Rest(v);
    assert w == n / 0x1000 && Rest(w) == n / 0x40000;
    var a, b, c := Continuation(n), Continuation(v), Continuation(w);
    assert [a] + "" == [a] && [b] + [a] == [b, a] && [c] + [b, a] == [c, b, a];
    match |Encode(n)|
    case 1 =>
    case 2 => assert Remaining(n, 2) == v;
    case 3 =>
      assert Remaining(n, 3) == Remaining(v, 2) == w;
      assert Spell(n, 3, 3, "") == Spell(v, 2, 3, [a]) == Spell(w, 1, 3, [b, a]);
    case _ =>
      assert Remaining(n, 4) == Remaining(v, 3) == Remaining(w, 2) == Rest(w);
      assert Spell(n, 4, 4, "") == Spell(v, 3, 4, [a]) == Spell(w, 2, 4, [b, a]) == Spell(Rest(w), 1, 4, [c, b, a]);
  }

  /** Shifted and masked words are the bytes of RFC 3629. */
  lemma WordsAreBytes(u: Word)
    requires u < 0x110000
    ensures Written(u) == Encode(u as int)
  {
    hide Encode, Finish, Spell, Remaining, LeadLimit;
    LengthIs(u);
    SpellIsEncode(u as int);
    WordsSpell(u, Length(u), Length(u), "");
  }

  // ---------------------------------------------------------------- hexadecimal digits

  lemma Nibble(n: nat)
    requires n < 16
    ensures (n as Word) as int == n && n as Word < 16
  {
  }

  lemma AppendNibble(w: Word, d: Word)
    requires w < 0x1000 && d < 0x10
    ensures ((w << 4) | d) as int == (w as int) * 16 + d as int
    ensures w < 0x10 ==> ((w << 4) | d) < 0x100
    ensures w < 0x100 ==> ((w << 4) | d) < 0x1000
    ensures ((w << 4) | d) < 0x10000
  {
  }

  function Digit(c: char): (w: Word)
    requires IsHexDigit(c)
    ensures w as int == HexValue(c) && w < 16
  {
    Nibble(HexValue(c));
    HexValue(c) as Word
  }

  /** `sscanf(s, "%4x")` on four digits. */
  function ScanHex4(s: string): (w: Word)
    requires HasHex4(s)
    ensures w as int == Hex4(s) && w < 0x10000
  {
    var a, b, c, d := Digit(s[0]), Digit(s[1]), Digit(s[2]), Digit(s[3]);
    AppendNibble(a, b);
    var ab := (a << 4) | b;
    AppendNibble(ab, c);
    var abc := (ab << 4) | c;
    AppendNibble(abc, d);
    (abc << 4) | d
  }

  // ---------------------------------------------------------------- surrogates

  predicate IsHighWord(u: Word) {
    u >= 0xD800 && u <= 0xDBFF
  }

  predicate IsLowWord(u: Word) {
    u >= 0xDC00 && u <= 0xDFFF
  }

  /** The comparisons that look for surrogates. */
  lemma SurrogatesAgree(u: Word)
    requires u < 0x10000
    ensures IsHighWord(u) <==> IsHighSurrogate(u as int)
    ensures IsLowWord(u) <==> IsLowSurrogate(u as int)
    ensures u == 0 <==> u as int == 0
  {
  }

  /** Bit 16 of the joined halves, which is bit 6 of the high one, is clear. */
  predicate PlaneIsClear(high: nat)
    requires IsHighSurrogate(high)
  {
    (high - 0xD800) / 0x40 % 2 == 0
  }

  lemma HalvesAreOffsets(high: Word, low: Word)
    ensures IsHighWord(high) ==> Half(high) as int == high as int - 0xD800
    ensures IsLowWord(low) ==> Half(low) as int == low as int - 0xDC00
    ensures Half(high) < 0x400 && Half(low) < 0x400
  {
  }

  lemma HalvesJoin(h: Word, l: Word)
    requires h < 0x400 && l < 0x400
    ensures ((h << 10) | l) as int == (h as int) * 0x400 + l as int
  {
  }

  lemma HalvesOverlap(h: Word, l: Word)
    requires h < 0x400 && l < 0x400
    ensures ((h << 10) | l) < 0x100000 && (((h << 10) | l) & 0x10000 == 0 <==> h & 0x40 == 0)
  {
  }

  lemma OrPlane(x: Word)
    requires x < 0x100000
    ensures (0x10000 | x) as int == if x & 0x10000 == 0 then x as int + 0x10000 else x as int
  {
  }

  lemma OrsAssociate(h: Word, l: Word)
    ensures OrHalves(h, l) == 0x10000 | ((h << 10) | l)
  {
  }

  /** Two halves under the plane bit, in numbers. */
  lemma JoinHalves(h: Word, l: Word)
    requires h < 0x400 && l < 0x400
    ensures OrHalves(h, l) as int == (h as int) * 0x400 + l as int + if h & 0x40 == 0 then 0x10000 else 0
  {
    hide OrHalves;
    OrsAssociate(h, l);
    HalvesJoin(h, l);
    HalvesOverlap(h, l);
    OrPlane((h << 10) | l);
  }

  lemma Bit6(h: Word)
    requires h < 0x400
    ensures h & 0x40 == 0 <==> h as int / 0x40 % 2 == 0
  {
  }

  lemma Bit6IsPlane(high: Word)
    requires IsHighWord(high) && IsHighSurrogate(high as int)
    ensures Half(high) & 0x40 == 0 <==> PlaneIsClear(high as int)
  {
    HalvesAreOffsets(high, high);
    Bit6(Half(high));
    hide Half, IsHighWord;
  }

  lemma JoinedWord(high: Word, low: Word)
    requires IsHighWord(high) && IsLowWord(low) && IsHighSurrogate(high as int)
    ensures JoinWords(high, low) as int == (Half(high) as int) * 0x400 + Half(low) as int
      + if PlaneIsClear(high as int) then 0x10000 else 0
  {
    HalvesAreOffsets(high, low);
    JoinHalves(Half(high), Half(low));
    Bit6IsPlane(high);
    hide PlaneIsClear, IsHighSurrogate, IsHighWord, IsLowWord, OrHalves, Half;
  }

  /** The word that joins two surrogates is the number that `JoinSurrogates` gives. */
  lemma JoinIsWord(high: Word, low: Word)
    requires IsHighWord(high) && IsLowWord(low)
    requires IsHighSurrogate(high as int) && IsLowSurrogate(low as int)
    ensures JoinWords(high, low) as int == JoinSurrogates(high as int, low as int)
  {
    hide JoinWords, JoinSurrogates, IsHighWord, IsLowWord, Half, PlaneIsClear;
    HalvesAreOffsets(high, low);
    JoinedWord(high, low);
    JoinNumbers(high as int, low as int);
  }

  lemma JoinNumbers(high: nat, low: nat)
    requires IsHighSurrogate(high) && IsLowSurrogate(low)
    ensures JoinSurrogates(high, low) == (high - 0xD800) * 0x400 + (low - 0xDC00)
      + if PlaneIsClear(high) then 0x10000 else 0
  {
    BitOfSum(high - 0xD800, low - 0xDC00);
  }

  lemma JoinedSize(high: Word, low: Word)
    ensures JoinWords(high, low) < 0x110000
  {
  }

  lemma BitOfSum(h: nat, l: nat)
    requires h < 0x400 && l < 0x400
    ensures (h * 0x400 + l) / 0x10000 % 2 == h / 0x40 % 2
  {
  }
}
