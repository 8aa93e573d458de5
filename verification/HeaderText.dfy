/** The string helpers the framer uses (dap/StringUtils.cpp), and `std::to_string` and `atol`. */
module HeaderText {
  import opened CStrings

  /** " \n\r\t" */
  predicate IsBlank(c: char) {
    c == ' ' || c == '\n' || c == '\r' || c == '\t'
  }

  function LTrim(s: string): (r: string)
    ensures |r| <= |s| && (r != "" ==> !IsBlank(r[0]))
  {
    if s != "" && IsBlank(s[0]) then LTrim(s[1..]) else s
  }

  function RTrim(s: string): (r: string)
    ensures |r| <= |s| && (r != "" ==> !IsBlank(r[|r| - 1]))
  {
    if s != "" && IsBlank(s[|s| - 1]) then RTrim(s[..|s| - 1]) else s
  }

  function Trim(s: string): string {
    RTrim(LTrim(s))
  }

  /** Where `c` first is, or the length. */
  function Find(s: string, c: char): (i: nat)
    ensures i <= |s| && (i < |s| ==> s[i] == c) && c !in s[..i]
  {
    if s == "" || s[0] == c then 0 else
      var i := Find(s[1..], c);
      assert s[..i + 1] == [s[0]] + s[1..][..i];
      1 + i
  }

  function BeforeFirst(s: string, c: char): string {
    s[..Find(s, c)]
  }

  function AfterFirst(s: string, c: char): string {
    if Find(s, c) == |s| then "" else s[Find(s, c) + 1..]
  }

  /** strtok over a C string with the one delimiter `c`, each token trimmed, empty ones dropped. */
  function Split(s: string, c: char): seq<string>
    decreases |s|, 1
  {
    if s == "" then [] else SplitOff(s, c)
  }

  function SplitOff(s: string, c: char): seq<string>
    requires s != ""
    decreases |s|, 0
  {
    var token := Trim(BeforeFirst(s, c));
    (if token == "" then [] else [token]) + Split(AfterFirst(s, c), c)
  }

  /** `isspace` in the C locale, which knows two characters that Trim leaves alone. */
  predicate IsSpace(c: char) {
    IsBlank(c) || c == 11 as char || c == 12 as char
  }

  /** `std::atol`, without its limits. */
  function Atol(s: string): int {
    if IsSpace(Peek(s)) then Atol(s[1..])
    else
      var sign := if Peek(s) == '-' then -1 else 1;
      sign * TakeDigits(if Peek(s) == '-' || Peek(s) == '+' then s[1..] else s, 0).0
  }

  predicate Spaces(w: string) {
    forall i | 0 <= i < |w| :: w[i] == ' ' || 9 <= w[i] as int <= 13
  }

  /** Whatever stands behind space, an optional sign and digits: they are the number. */
  lemma {:induction false} AtolIsRead(w: string, sign: string, d: string, rest: string)
    requires Spaces(w) && (sign == "" || sign == "+" || sign == "-")
    requires AllDigits(d) && d != "" && !IsDigit(Peek(rest))
    ensures Atol(w + (sign + (d + rest))) == if sign == "-" then -(Natural(d) as int) else Natural(d)
  {
    var s := sign + (d + rest);
    if w == "" {
      assert w + s == s;
      NumberIsRead(sign, d, rest);
    } else {
      assert (w + s)[1..] == w[1..] + s;
      AtolIsRead(w[1..], sign, d, rest);
    }
  }

  /** At a byte that is no space, Atol looks for a sign. */
  lemma AtolStarts(s: string)
    requires s != "" && !IsSpace(s[0])
    ensures s[0] == '-' ==> Atol(s) == -(TakeDigits(s[1..], 0).0 as int)
    ensures s[0] == '+' ==> Atol(s) == TakeDigits(s[1..], 0).0
    ensures s[0] != '-' && s[0] != '+' ==> Atol(s) == TakeDigits(s, 0).0
  {
    hide TakeDigits;
  }

  lemma UnsignedIsRead(d: string, rest: string)
    requires AllDigits(d) && d != "" && !IsDigit(Peek(rest))
    ensures Atol(d + rest) == Natural(d) == TakeDigits(d + rest, 0).0
  {
    NoDigits();
    assert "" + d == d;
    DigitsInPlace("", d, rest);
    assert (d + rest)[0] == d[0];
    AtolStarts(d + rest);
    hide Natural, TakeDigits, Atol;
  }

  lemma SignedIsRead(c: char, d: string, rest: string)
    requires (c == '+' || c == '-') && AllDigits(d) && d != "" && !IsDigit(Peek(rest))
    ensures Atol([c] + (d + rest)) == if c == '-' then -(Natural(d) as int) else Natural(d)
  {
    var s := [c] + (d + rest);
    assert s[1..] == d + rest;
    UnsignedIsRead(d, rest);
    AtolStarts(s);
    hide Natural, TakeDigits, Atol;
  }

  lemma NumberIsRead(sign: string, d: string, rest: string)
    requires (sign == "" || sign == "+" || sign == "-") && AllDigits(d) && d != "" && !IsDigit(Peek(rest))
    ensures Atol(sign + (d + rest)) == if sign == "-" then -(Natural(d) as int) else Natural(d)
  {
    hide Natural, AllDigits, Atol;
    if sign == "" {
      UnsignedIsRead(d, rest);
      assert sign + (d + rest) == d + rest;
    } else {
      SignedIsRead(sign[0], d, rest);
      assert sign == [sign[0]];
    }
  }

  /** Without a digit it is none. */
  lemma AtolOfNone(s: string)
    requires !IsSpace(Peek(s)) && !IsDigit(Peek(s)) && Peek(s) != '+' && Peek(s) != '-'
    ensures Atol(s) == 0
  {
  }

  lemma AtolOfDigits(n: nat)
    ensures Atol(Digits(n)) == n
  {
    TakeDigitsOfDigits(n, "");
    assert Digits(n) + "" == Digits(n);
  }

  lemma {:induction false} FindBehind(s: string, t: string, c: char)
    requires c !in s
    ensures Find(s + t, c) == |s| + Find(t, c)
  {
    if s == "" {
      assert s + t == t;
    } else {
      assert (s + t)[1..] == s[1..] + t;
      FindBehind(s[1..], t, c);
    }
  }
}
