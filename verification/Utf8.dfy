/** UTF-16 escapes turned into UTF-8 bytes (dap/cJSON.cpp, the `\u` case of parse_string). */
module Utf8 {
  import opened CStrings

  predicate IsHighSurrogate(u: nat) {
    0xD800 <= u <= 0xDBFF
  }

  predicate IsLowSurrogate(u: nat) {
    0xDC00 <= u <= 0xDFFF
  }

  /** RFC 2781, section 2.2. */
  function SurrogateValue(high: nat, low: nat): (u: nat)
    requires IsHighSurrogate(high) && IsLowSurrogate(low)
    ensures 0x10000 <= u <= 0x10FFFF
  {
    0x10000 + (high - 0xD800) * 0x400 + (low - 0xDC00)
  }

  /** How the code joins the halves: it ors bit 16 in, where the RFC adds it. */
  function JoinSurrogates(high: nat, low: nat): (u: nat)
    requires IsHighSurrogate(high) && IsLowSurrogate(low)
    ensures 0x10000 <= u < 0x110000
  {
    var x := (high - 0xD800) * 0x400 + (low - 0xDC00);
    if x / 0x10000 % 2 == 1 then x else x + 0x10000
  }

  function Continuation(u: nat): char {
    (0x80 + u % 0x40) as char
  }

  /** RFC 3629, section 3. */
  function Encode(u: nat): (bytes: string)
    requires u < 0x110000
    ensures 1 <= |bytes| <= 4
    ensures u != 0 ==> NulFree(bytes)
  {
    if u < 0x80 then [u as char]
    else if u < 0x800 then [(0xC0 + u / 0x40) as char, Continuation(u)]
    else if u < 0x10000 then [(0xE0 + u / 0x1000) as char, Continuation(u / 0x40), Continuation(u)]
    else [(0xF0 + u / 0x40000) as char, Continuation(u / 0x1000), Continuation(u / 0x40), Continuation(u)]
  }

  /** The code point a byte sequence stands for, read off the table of RFC 3629, section 3. */
  function Decode(bytes: string): int {
    var b := seq(|bytes|, i requires 0 <= i < |bytes| => bytes[i] as int);
    match |b|
    case 1 => b[0]
    case 2 => (b[0] - 0xC0) * 0x40 + (b[1] - 0x80)
    case 3 => ((b[0] - 0xE0) * 0x40 + (b[1] - 0x80)) * 0x40 + (b[2] - 0x80)
    case 4 => (((b[0] - 0xF0) * 0x40 + (b[1] - 0x80)) * 0x40 + (b[2] - 0x80)) * 0x40 + (b[3] - 0x80)
    case _ => -1
  }

  /** The code points that UTF-8 encodes: all but the surrogates. */
  predicate IsScalar(u: int) {
    0 <= u < 0x110000 && !(0xD800 <= u <= 0xDFFF)
  }

  /** The second byte: behind four of the lead bytes its range is narrower, so that nothing has a
      longer form than it needs, and surrogates and what is past the last code point have none. */
  predicate SecondByte(lead: int, b: int) {
    if lead == 0xE0 then 0xA0 <= b < 0xC0
    else if lead == 0xED then 0x80 <= b < 0xA0
    else if lead == 0xF0 then 0x90 <= b < 0xC0
    else if lead == 0xF4 then 0x80 <= b < 0x90
    else 0x80 <= b < 0xC0
  }

  /** The grammar of RFC 3629, section 4. */
  predicate WellFormed(bytes: string) {
    && 1 <= |bytes| <= 4
    && (match |bytes|
        case 1 => bytes[0] as int < 0x80
        case 2 => 0xC2 <= bytes[0] as int < 0xE0
        case 3 => 0xE0 <= bytes[0] as int < 0xF0
        case _ => 0xF0 <= bytes[0] as int < 0xF5)
    && (|bytes| > 1 ==> SecondByte(bytes[0] as int, bytes[1] as int))
    && forall i | 2 <= i < |bytes| :: 0x80 <= bytes[i] as int < 0xC0
  }

  lemma EncodeDecodes(u: nat)
    requires u < 0x110000
    ensures Decode(Encode(u)) == u && (WellFormed(Encode(u)) <==> IsScalar(u))
  {
    assert u / 0x1000 == u / 0x40 / 0x40;
    assert u / 0x40000 == u / 0x1000 / 0x40;
  }

  /** The digits of a code point in base 64. */
  lemma LastDigit(n: nat, d: nat)
    requires d < 0x40
    ensures (n * 0x40 + d) / 0x40 == n && (n * 0x40 + d) % 0x40 == d
  {
  }

  lemma ThreeDigits(a: nat, b: nat, c: nat)
    requires a < 0x10 && b < 0x40 && c < 0x40
    ensures var u := (a * 0x40 + b) * 0x40 + c;
      u / 0x1000 == a && u / 0x40 == a * 0x40 + b && (a * 0x40 + b) % 0x40 == b && u % 0x40 == c
  {
    LastDigit(a, b);
    LastDigit(a * 0x40 + b, c);
  }

  lemma FourDigits(a: nat, b: nat, c: nat, d: nat)
    requires a < 5 && b < 0x40 && c < 0x40 && d < 0x40
    ensures var u := ((a * 0x40 + b) * 0x40 + c) * 0x40 + d;
      && u / 0x40000 == a && u / 0x1000 == a * 0x40 + b && u / 0x40 == (a * 0x40 + b) * 0x40 + c
      && (a * 0x40 + b) % 0x40 == b && ((a * 0x40 + b) * 0x40 + c) % 0x40 == c && u % 0x40 == d
  {
    ThreeDigits(a, b, c);
    LastDigit((a * 0x40 + b) * 0x40 + c, d);
  }

  lemma EncodeThree(a: nat, b: nat, c: nat)
    requires a < 0x10 && b < 0x40 && c < 0x40 && (a > 0 || b >= 0x20)
    ensures Encode((a * 0x40 + b) * 0x40 + c) == [(0xE0 + a) as char, (0x80 + b) as char, (0x80 + c) as char]
  {
    ThreeDigits(a, b, c);
  }

  lemma EncodeFour(a: nat, b: nat, c: nat, d: nat)
    requires a < 5 && b < 0x40 && c < 0x40 && d < 0x40 && (a > 0 || b >= 0x10) && (a < 4 || b < 0x10)
    ensures Encode(((a * 0x40 + b) * 0x40 + c) * 0x40 + d) ==
      [(0xF0 + a) as char, (0x80 + b) as char, (0x80 + c) as char, (0x80 + d) as char]
  {
    FourDigits(a, b, c, d);
  }

  lemma ThreeBytes(bytes: string)
    requires WellFormed(bytes) && |bytes| == 3
    ensures IsScalar(Decode(bytes)) && Encode(Decode(bytes)) == bytes
  {
    EncodeThree(bytes[0] as int - 0xE0, bytes[1] as int - 0x80, bytes[2] as int - 0x80);
    hide Encode;
  }

  lemma FourBytes(bytes: string)
    requires WellFormed(bytes) && |bytes| == 4
    ensures IsScalar(Decode(bytes)) && Encode(Decode(bytes)) == bytes
  {
    EncodeFour(bytes[0] as int - 0xF0, bytes[1] as int - 0x80, bytes[2] as int - 0x80, bytes[3] as int - 0x80);
    hide Encode;
  }

  /** Well-formed bytes decode to a scalar value, and are its encoding. */
  lemma DecodeEncodes(bytes: string)
    requires WellFormed(bytes)
    ensures IsScalar(Decode(bytes)) && Encode(Decode(bytes)) == bytes
  {
    if |bytes| == 2 {
      LastDigit(bytes[0] as int - 0xC0, bytes[1] as int - 0x80);
    } else if |bytes| == 3 {
      ThreeBytes(bytes);
    } else if |bytes| == 4 {
      FourBytes(bytes);
    }
  }

  /** A scalar value has exactly one well-formed encoding, and `Encode` gives it. */
  lemma EncodingIsExact(u: nat, bytes: string)
    requires IsScalar(u)
    ensures WellFormed(bytes) && Decode(bytes) == u <==> bytes == Encode(u)
  {
    EncodeDecodes(u);
    if WellFormed(bytes) {
      DecodeEncodes(bytes);
    }
  }

  /** The code joins two halves as the RFC does exactly when bit 6 of the high half is clear. */
  lemma JoinIsRight(high: nat, low: nat)
    requires IsHighSurrogate(high) && IsLowSurrogate(low)
    ensures Encode(JoinSurrogates(high, low)) == Encode(SurrogateValue(high, low)) <==> high / 0x40 % 2 == 0
  {
    var x := (high - 0xD800) * 0x400 + (low - 0xDC00);
    assert x / 0x10000 == (high - 0xD800) / 0x40;
    assert (high - 0xD800) / 0x40 % 2 == high / 0x40 % 2;
    EncodeDecodes(JoinSurrogates(high, low));
    EncodeDecodes(SurrogateValue(high, low));
  }
}
