/** The grammar that dap/cJSON.cpp accepts and the value it reads, as functions from the
    text at a pointer to the value and the text where the returned pointer stands. */
module JsonParser {
  import opened CStrings
  import opened JsonValues
  import opened Utf8

  /** `Rejected` is the null pointer.  `Unspecified` is an escape cut short: there the code
      steps over the terminator or reads a variable that was never set. */
  datatype Parsed<+T> = Ok(value: T, rest: string) | Rejected | Unspecified

  // ---------------------------------------------------------------- strings

  /** The text after `\u`. */
  function UnicodeEscape(s: string): (r: Parsed<string>)
    ensures r.Ok? ==> |r.rest| + 4 <= |s| && |r.value| <= |s| - |r.rest|
    ensures r.Ok? ==> NulFree(r.value)
    ensures !r.Rejected?
  {
    if !HasHex4(s) then Unspecified
    else
      var uc, t := Hex4(s), s[4..];
      if IsLowSurrogate(uc) || uc == 0 then Ok("", t)
      else if !IsHighSurrogate(uc) then Ok(Encode(uc), t)
      else if Peek(t) != BACKSLASH || Peek(t[1..]) != 'u' then Ok("", t)
      else if !HasHex4(t[2..]) then Unspecified
      else if !IsLowSurrogate(Hex4(t[2..])) then Ok("", t[6..])
      else Ok(Encode(JoinSurrogates(uc, Hex4(t[2..]))), t[6..])
  }

  /** The text after a backslash. */
  function Escape(s: string): (r: Parsed<string>)
    ensures r.Ok? ==> |r.rest| < |s| && |r.value| <= |s| - |r.rest|
    ensures r.Ok? ==> NulFree(r.value)
    ensures !r.Rejected?
  {
    match Peek(s)
    case '\0' => Unspecified
    case 'b' => Ok([BACKSPACE], s[1..])
    case 'f' => Ok([FORMFEED], s[1..])
    case 'n' => Ok("\n", s[1..])
    case 'r' => Ok("\r", s[1..])
    case 't' => Ok("\t", s[1..])
    case 'u' => UnicodeEscape(s[1..])
    case c => Ok([c], s[1..])
  }

  function Prepend(prefix: string, r: Parsed<string>): Parsed<string> {
    match r
    case Ok(v, rest) => Ok(prefix + v, rest)
    case _ => r
  }

  /** The text after the opening quote.  A missing closing quote is accepted. */
  function Unescape(s: string): (r: Parsed<string>)
    ensures r.Ok? ==> |r.rest| <= |s| && |r.value| <= |s| - |r.rest|
    ensures r.Ok? ==> NulFree(r.value)
    ensures !r.Rejected?
    decreases |s|
  {
    if Peek(s) == '\0' then Ok("", s)
    else if s[0] == QUOTE then Ok("", s[1..])
    else if s[0] != BACKSLASH then Prepend([s[0]], Unescape(s[1..]))
    else
      match Escape(s[1..])
      case Ok(v, rest) => Prepend(v, Unescape(rest))
      case _ => Unspecified
  }

  /** parse_string */
  function ParseString(s: string): (r: Parsed<string>)
    ensures r.Ok? ==> |r.rest| < |s| && NulFree(r.value)
  {
    if Peek(s) != QUOTE then Rejected else Unescape(s[1..])
  }

  // ---------------------------------------------------------------- numbers

  function Pow10(e: int): real
    decreases if e < 0 then -e else e
  {
    if e == 0 then 1.0
    else if e > 0 then 10.0 * Pow10(e - 1)
    else Pow10(e + 1) / 10.0
  }

  /** The integer part: one zero is skipped, then digits count if they do not start with another. */
  function IntegerPart(s: string): (r: (nat, string))
    ensures |r.1| <= |s|
    ensures IsDigit(Peek(s)) ==> |r.1| < |s|
  {
    var t := if Peek(s) == '0' then s[1..] else s;
    if '1' <= Peek(t) <= '9' then TakeDigits(t, 0) else (0, t)
  }

  /** The fraction: digits go on being appended to `n`, and their count is the scale. */
  function FractionPart(s: string, n: nat): (r: (nat, int, string))
    ensures |r.2| <= |s|
  {
    if Peek(s) == '.' && IsDigit(Peek(s[1..])) then
      var (m, rest) := TakeDigits(s[1..], n);
      (m, |rest| - |s[1..]|, rest)
    else (n, 0, s)
  }

  function ExponentPart(s: string): (r: (int, string))
    ensures |r.1| <= |s|
  {
    if Peek(s) != 'e' && Peek(s) != 'E' then (0, s)
    else
      var (sign, t) :=
        if Peek(s[1..]) == '+' then (1, s[2..])
        else if Peek(s[1..]) == '-' then (-1, s[2..])
        else (1, s[1..]);
      var digits := TakeDigits(t, 0);
      (sign * digits.0, digits.1)
  }

  /** parse_number */
  function ParseNumber(s: string): (r: (real, string))
    ensures Peek(s) == '-' || IsDigit(Peek(s)) ==> |r.1| < |s|
    ensures |r.1| <= |s|
  {
    var sign, s0 := if Peek(s) == '-' then -1 else 1, if Peek(s) == '-' then s[1..] else s;
    var (n, s1) := IntegerPart(s0);
    var (m, scale, s2) := FractionPart(s1, n);
    var (e, s3) := ExponentPart(s2);
    ((sign * m) as real * Pow10(scale + e), s3)
  }

  // ---------------------------------------------------------------- values

  /** parse_value */
  function ParseValue(s: string): (r: Parsed<Json>)
    ensures r.Ok? ==> |r.rest| < |s|
    decreases |s|, 1
  {
    if StartsWith(s, "null") then Ok(Null, s[4..])
    else if StartsWith(s, "false") then Ok(False, s[5..])
    else if StartsWith(s, "true") then Ok(True, s[4..])
    else if Peek(s) == QUOTE then
      match ParseString(s)
      case Ok(t, rest) => Ok(String(t), rest)
      case Rejected => Rejected
      case Unspecified => Unspecified
    else if Peek(s) == '-' || IsDigit(Peek(s)) then
      var (n, rest) := ParseNumber(s);
      Ok(Number(n), rest)
    else if Peek(s) == '[' then
      var t := Skip(s[1..]);
      if Peek(t) == ']' then Ok(Array([]), t[1..]) else AsArray(ParseItems(t))
    else if Peek(s) == '{' then
      var t := Skip(s[1..]);
      if Peek(t) == '}' then Ok(Object([]), t[1..]) else AsObject(ParseMembers(t))
    else Rejected
  }

  function AsArray(r: Parsed<seq<Json>>): Parsed<Json> {
    match r
    case Ok(items, rest) => Ok(Array(items), rest)
    case Rejected => Rejected
    case Unspecified => Unspecified
  }

  function AsObject(r: Parsed<seq<Member>>): Parsed<Json> {
    match r
    case Ok(members, rest) => Ok(Object(members), rest)
    case Rejected => Rejected
    case Unspecified => Unspecified
  }

  function Cons<T>(head: T, r: Parsed<seq<T>>): Parsed<seq<T>> {
    match r
    case Ok(tail, rest) => Ok([head] + tail, rest)
    case _ => r
  }

  /** One entry of an array and everything up to the closing bracket. */
  function ParseItems(s: string): (r: Parsed<seq<Json>>)
    ensures r.Ok? ==> |r.rest| < |s|
    decreases |s|, 2
  {
    match ParseValue(Skip(s))
    case Rejected => Rejected
    case Unspecified => Unspecified
    case Ok(v, rest) => Cons(v, MoreItems(Skip(rest)))
  }

  function MoreItems(s: string): (r: Parsed<seq<Json>>)
    ensures r.Ok? ==> |r.rest| < |s|
    decreases |s|, 0
  {
    if Peek(s) == ',' then ParseItems(s[1..])
    else if Peek(s) == ']' then Ok([], s[1..])
    else Rejected
  }

  /** A name, the colon and the value. */
  function ParseMember(s: string): (r: Parsed<Member>)
    ensures r.Ok? ==> |r.rest| < |s|
    decreases |s|, 2
  {
    match ParseString(Skip(s))
    case Rejected => Rejected
    case Unspecified => Unspecified
    case Ok(name, rest) =>
      var t := Skip(rest);
      if Peek(t) != ':' then Rejected
      else
        match ParseValue(Skip(t[1..]))
        case Rejected => Rejected
        case Unspecified => Unspecified
        case Ok(v, end) => Ok(Member(name, v), end)
  }

  /** One member of an object and everything up to the closing brace. */
  function ParseMembers(s: string): (r: Parsed<seq<Member>>)
    ensures r.Ok? ==> |r.rest| < |s|
    decreases |s|, 3
  {
    match ParseMember(s)
    case Rejected => Rejected
    case Unspecified => Unspecified
    case Ok(m, rest) => Cons(m, MoreMembers(Skip(rest)))
  }

  function MoreMembers(s: string): (r: Parsed<seq<Member>>)
    ensures r.Ok? ==> |r.rest| < |s|
    decreases |s|, 0
  {
    if Peek(s) == ',' then ParseMembers(s[1..])
    else if Peek(s) == '}' then Ok([], s[1..])
    else Rejected
  }

  /** cJSON_Parse: whatever follows the first value is ignored. */
  function Parse(s: string): Parsed<Json> {
    ParseValue(Skip(s))
  }
}
