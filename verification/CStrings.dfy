/** Text as the C code sees it: a byte is a `char` with code below 256, a pointer into
    a buffer is the suffix it points at, and reading at or past the end gives the
    terminator.  No definition below depends on the bound on the codes. */
module CStrings {
  const QUOTE := '\"'
  const BACKSLASH := '\\'
  const BACKSPACE := 8 as char
  const FORMFEED := 12 as char

  /** `*p` */
  function Peek(s: string): char {
    if s == "" then '\0' else s[0]
  }

  predicate StartsWith(s: string, prefix: string) {
    |prefix| <= |s| && s[..|prefix|] == prefix
  }

  predicate NulFree(s: string) {
    '\0' !in s
  }

  /** What a C function sees of a buffer: everything before the first terminator. */
  function CStr(s: string): (r: string)
    ensures NulFree(r)
  {
    if Peek(s) == '\0' then "" else [s[0]] + CStr(s[1..])
  }

  lemma {:induction false} NulFreeIsWhole(s: string)
    requires NulFree(s)
    ensures CStr(s) == s
  {
    if s != "" {
      NulFreeIsWhole(s[1..]);
    }
  }

  predicate IsDigit(c: char) {
    '0' <= c <= '9'
  }

  function DigitValue(c: char): nat
    requires IsDigit(c)
  {
    c as int - '0' as int
  }

  function DigitChar(d: nat): (c: char)
    requires d < 10
    ensures IsDigit(c) && DigitValue(c) == d
  {
    (d + '0' as int) as char
  }

  /** `%d` of a value that is not negative. */
  function Digits(n: nat): (s: string)
    ensures s != "" && (forall i | 0 <= i < |s| :: IsDigit(s[i]))
    ensures s[0] == '0' <==> n == 0
    ensures n == 0 ==> s == "0"
  {
    if n < 10 then [DigitChar(n)] else Digits(n / 10) + [DigitChar(n % 10)]
  }

  /** `%d` */
  function Decimal(n: int): string {
    if n < 0 then "-" + Digits(-n) else Digits(n)
  }

  /** The loop `n = n * 10 + (*p++ - '0')` started at `acc`. */
  function TakeDigits(s: string, acc: nat): (r: (nat, string))
    ensures |r.1| <= |s|
    ensures IsDigit(Peek(s)) ==> |r.1| < |s|
  {
    if IsDigit(Peek(s)) then TakeDigits(s[1..], acc * 10 + DigitValue(s[0])) else (acc, s)
  }

  lemma {:induction false} TakeDigitsOfDigits(n: nat, rest: string)
    ensures TakeDigits(Digits(n) + rest, 0) == TakeDigits(rest, n)
  {
    if n < 10 {
      assert (Digits(n) + rest)[1..] == rest;
    } else {
      var last := [DigitChar(n % 10)];
      assert Digits(n) + rest == Digits(n / 10) + (last + rest);
      TakeDigitsOfDigits(n / 10, last + rest);
      assert (last + rest)[1..] == rest;
    }
  }

  predicate AllDigits(d: string) {
    forall i | 0 <= i < |d| :: '0' <= d[i] <= '9'
  }

  /** The place value of a string of digits. */
  function Natural(d: string): nat
    requires AllDigits(d)
  {
    if d == "" then 0 else Natural(d[..|d| - 1]) * 10 + (d[|d| - 1] as int - '0' as int)
  }

  lemma NoDigits()
    ensures AllDigits("") && Natural("") == 0 && AllDigits("0") && Natural("0") == 0
  {
    assert "0"[..0] == "";
  }

  /** The digit loop, started with what `read` stands for, takes `d` in its places. */
  lemma {:induction false} DigitsInPlace(read: string, d: string, rest: string)
    requires AllDigits(read) && AllDigits(d) && !IsDigit(Peek(rest))
    ensures TakeDigits(d + rest, Natural(read)) == (Natural(read + d), rest)
    decreases |d|
  {
    if d == "" {
      assert d + rest == rest && read + d == read;
    } else {
      var more := read + [d[0]];
      assert more[..|more| - 1] == read;
      assert (d + rest)[1..] == d[1..] + rest && more + d[1..] == read + d;
      DigitsInPlace(more, d[1..], rest);
    }
  }

  /** A printed number is its digits in their places, none of them a leading zero. */
  lemma {:induction false} DigitsArePlaces(n: nat)
    ensures AllDigits(Digits(n)) && Natural(Digits(n)) == n
  {
    var d := Digits(n);
    if n < 10 {
      assert d[..0] == "";
    } else {
      DigitsArePlaces(n / 10);
      assert d[..|d| - 1] == Digits(n / 10);
    }
  }

  predicate IsHexDigit(c: char) {
    IsDigit(c) || 'a' <= c <= 'f' || 'A' <= c <= 'F'
  }

  function HexValue(c: char): (v: nat)
    requires IsHexDigit(c)
    ensures v < 16
  {
    if IsDigit(c) then DigitValue(c)
    else if c <= 'F' then c as int - 'A' as int + 10
    else c as int - 'a' as int + 10
  }

  function HexChar(d: nat): (c: char)
    requires d < 16
    ensures IsHexDigit(c) && HexValue(c) == d
  {
    if d < 10 then DigitChar(d) else (d - 10 + 'a' as int) as char
  }

  /** Four hexadecimal digits stand at the front of `s`. */
  predicate HasHex4(s: string) {
    |s| >= 4 && IsHexDigit(s[0]) && IsHexDigit(s[1]) && IsHexDigit(s[2]) && IsHexDigit(s[3])
  }

  /** `sscanf(s, "%4x")` on four digits. */
  function Hex4(s: string): (v: nat)
    requires HasHex4(s)
    ensures v < 0x10000
  {
    ((HexValue(s[0]) * 16 + HexValue(s[1])) * 16 + HexValue(s[2])) * 16 + HexValue(s[3])
  }

  /** Jump whitespace: everything from 1 to 32 counts. */
  function Skip(s: string): (r: string)
    ensures |r| <= |s|
    ensures Peek(r) == '\0' || Peek(r) > ' '
  {
    if Peek(s) != '\0' && Peek(s) <= ' ' then Skip(s[1..]) else s
  }

  method SkipSpace(s: string) returns (r: string)
    ensures r == Skip(s)
  {
    r := s;
    while Peek(r) != '\0' && Peek(r) <= ' '
      invariant Skip(r) == Skip(s)
      decreases |r|
    {
      r := r[1..];
    }
  }

  function Spaces(n: nat): (s: string)
    ensures |s| == n && NulFree(s)
  {
    if n == 0 then "" else " " + Spaces(n - 1)
  }

  lemma {:induction false} SkipSpaces(n: nat, rest: string)
    ensures Skip(Spaces(n) + rest) == Skip(rest)
  {
    if n == 0 {
      assert Spaces(0) + rest == rest;
    } else {
      assert (Spaces(n) + rest)[1..] == Spaces(n - 1) + rest;
      SkipSpaces(n - 1, rest);
    }
  }

  /** A buffer holds a C string and its terminator. */
  ghost predicate Holds(out: array<char>, text: string)
    reads out
  {
    |text| < out.Length && out[..|text|] == text && out[|text|] == '\0'
  }

  /** The bytes written up to `end` are those up to `at` and those from there on. */
  lemma SplitAt(out: array<char>, at: nat, end: nat)
    requires at <= end <= out.Length
    ensures out[..end] == out[..at] + out[at..end]
  {
  }

  /** Several strings, one behind the other. */
  function Concat(parts: seq<string>): string {
    if parts == [] then "" else parts[0] + Concat(parts[1..])
  }

  lemma Assoc(a: string, b: string, c: string)
    ensures (a + b) + c == a + (b + c)
  {
  }
}
