/** parse_number, loop by loop (dap/cJSON.cpp). */
module NumberCodec {
  import opened CStrings
  import P = JsonParser

  /** `n = n * 10 + (*num++ - '0')` */
  method ReadDigits(s: string, acc: nat) returns (n: nat, rest: string)
    ensures (n, rest) == TakeDigits(s, acc)
  {
    n, rest := acc, s;
    while IsDigit(Peek(rest))
      invariant TakeDigits(rest, n) == TakeDigits(s, acc)
      decreases |rest|
    {
      n, rest := n * 10 + DigitValue(rest[0]), rest[1..];
    }
  }

  method ReadInteger(s: string) returns (n: nat, rest: string)
    ensures (n, rest) == P.IntegerPart(s)
  {
    n, rest := 0, s;
    if Peek(rest) == '0' {
      rest := rest[1..];
    }
    if '1' <= Peek(rest) <= '9' {
      n, rest := ReadDigits(rest, 0);
    }
  }

  method ReadFraction(s: string, n: nat) returns (m: nat, scale: int, rest: string)
    ensures (m, scale, rest) == P.FractionPart(s, n)
  {
    m, scale, rest := n, 0, s;
    if Peek(s) == '.' && IsDigit(Peek(s[1..])) {
      m, rest := ReadDigits(s[1..], n);
      scale := |rest| - |s[1..]|;
    }
  }

  method ReadExponent(s: string) returns (e: int, rest: string)
    ensures (e, rest) == P.ExponentPart(s)
  {
    e, rest := 0, s;
    if Peek(s) == 'e' || Peek(s) == 'E' {
      var signsubscale := 1;
      rest := s[1..];
      if Peek(rest) == '+' {
        rest := s[2..];
      } else if Peek(rest) == '-' {
        signsubscale, rest := -1, s[2..];
      }
      var subscale: nat;
      subscale, rest := ReadDigits(rest, 0);
      e := signsubscale * subscale;
    }
  }

  /** parse_number */
  method ReadNumber(s: string) returns (value: real, rest: string)
    ensures (value, rest) == P.ParseNumber(s)
  {
    hide TakeDigits, P.IntegerPart, P.FractionPart, P.ExponentPart, P.Pow10;
    var sign: int, num := 1, s;
    if Peek(num) == '-' {
      sign, num := -1, num[1..];
    }
    var n, s1 := ReadInteger(num);
    var m, scale, s2 := ReadFraction(s1, n);
    var e, s3 := ReadExponent(s2);
    value, rest := (sign * m) as real * P.Pow10(scale + e), s3;
    assert rest == P.ParseNumber(s).1;
    assert value == P.ParseNumber(s).0;
  }
}
