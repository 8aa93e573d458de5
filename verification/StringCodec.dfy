/** parse_string and print_string_ptr with their two passes: the first counts the bytes the
    buffer needs, the second fills it.  Every write is checked against the buffer's size. */
module StringCodec {
  import opened CStrings
  import opened JsonPrinter
  import opened JsonParser
  import opened Utf8
  import opened Words

  // ---------------------------------------------------------------- reading

  /** What the counting pass finds: the count, where it stops, and whether it got there
      without stepping over the terminator. */
  datatype Count = Count(bytes: nat, end: string, safe: bool)

  /** The counting pass over the text after the opening quote. */
  function CountPass(s: string): (r: Count)
    ensures |r.end| <= |s|
  {
    if Peek(s) == QUOTE || Peek(s) == '\0' then Count(0, s, true)
    else if s[0] != BACKSLASH then More(1, CountPass(s[1..]))
    else if Peek(s[1..]) == '\0' then Count(1, "", false)
    else More(1, CountPass(s[2..]))
  }

  function More(n: nat, c: Count): Count {
    c.(bytes := c.bytes + n)
  }

  lemma CountHex4(s: string)
    requires HasHex4(s)
    ensures CountPass(s) == More(4, CountPass(s[4..]))
  {
    assert CountPass(s) == More(1, CountPass(s[1..]));
    assert CountPass(s[1..]) == More(1, CountPass(s[2..])) by { assert s[1..][1..] == s[2..]; }
    assert CountPass(s[2..]) == More(1, CountPass(s[3..])) by { assert s[2..][1..] == s[3..]; }
    assert CountPass(s[3..]) == More(1, CountPass(s[4..])) by { assert s[3..][1..] == s[4..]; }
  }

  /** `r` is what is counted before `c`: at least `n` bytes more, and the same end. */
  predicate Before(r: Count, n: nat, c: Count) {
    r.bytes >= n + c.bytes && r.end == c.end && r.safe == c.safe
  }

  /** An escape is counted as at least as many bytes as it produces. */
  lemma CountEscape(s: string)
    requires Peek(s) == BACKSLASH && Escape(s[1..]).Ok?
    ensures var Ok(v, rest) := Escape(s[1..]); Before(CountPass(s), |v|, CountPass(rest))
  {
    assert s[1..][1..] == s[2..];
    assert CountPass(s) == More(1, CountPass(s[2..]));
    if s[1] == 'u' {
      CountUnicode(s[2..]);
    } else {
      assert Escape(s[1..]).rest == s[2..] && |Escape(s[1..]).value| == 1;
    }
  }

  lemma CountUnicode(s: string)
    requires UnicodeEscape(s).Ok?
    ensures var Ok(v, rest) := UnicodeEscape(s); Before(More(1, CountPass(s)), |v|, CountPass(rest))
  {
    CountHex4(s);
    var t := s[4..];
    if UnicodeEscape(s).rest != t {
      CountHex4(t[2..]);
      assert t[2..][4..] == t[6..];
    }
  }

  /** Both passes stop at the same place, the first never steps over the terminator, and the
      second writes no more than the first counted. */
  lemma {:induction false} PassesAgree(s: string)
    requires Unescape(s).Ok?
    ensures var count := CountPass(s);
      && count.safe
      && |Unescape(s).value| <= count.bytes
      && Unescape(s).rest == if Peek(count.end) == QUOTE then count.end[1..] else count.end
    decreases |s|
  {
    if Peek(s) == QUOTE || Peek(s) == '\0' {
    } else if s[0] == BACKSLASH {
      CountEscape(s);
      PassesAgree(Escape(s[1..]).rest);
    } else {
      PassesAgree(s[1..]);
    }
  }

  lemma PrependEmpty(r: Parsed<string>)
    ensures Prepend("", r) == r
  {
    if r.Ok? {
      assert "" + r.value == r.value;
    }
  }

  lemma PrependTwice(a: string, b: string, r: Parsed<string>)
    ensures Prepend(a, Prepend(b, r)) == Prepend(a + b, r)
  {
    if r.Ok? {
      assert a + (b + r.value) == a + b + r.value;
    }
  }

  /** `*--ptr2 = ((uc | 0x80) & 0xBF); uc >>= 6;` in front of what is written already. */
  method PutContinuation(word: Word, out: array<char>, at: nat, end: nat, ghost written: string)
    returns (p: nat, uc: Word)
    requires 0 < at <= end <= out.Length && out[at..end] == written
    modifies out
    ensures p == at - 1 && uc == ShiftOut(word)
    ensures out[p..end] == [Byte(ContinuationByte(word))] + written && out[..p] == old(out[..p])
  {
    hide Byte, ContinuationByte, ShiftOut;
    p := at - 1;
    out[p] := Byte(ContinuationByte(word));
    uc := ShiftOut(word);
    assert out[at..end] == written;
  }

  /** The comparisons that choose `len`. */
  method ByteCount(uc: Word) returns (len: nat)
    ensures len == Length(uc) && 1 <= len <= 4
  {
    len := 4;
    if uc < 0x80 {
      len := 1;
    } else if uc < 0x800 {
      len := 2;
    } else if uc < 0x10000 {
      len := 3;
    }
  }

  /** `*--ptr2 = (uc | firstByteMark[len])` */
  method PutLead(uc: Word, len: nat, out: array<char>, at: nat, end: nat, ghost tail: string)
    requires at < end <= out.Length && out[at + 1..end] == tail
    modifies out
    ensures out[at..end] == [Byte(LeadByte(uc, len))] + tail && out[..at] == old(out[..at])
  {
    hide Byte, LeadByte;
    out[at] := Byte(LeadByte(uc, len));
    assert out[at + 1..end] == tail;
  }

  /** The fall-through switch that writes a code point's bytes from the last to the first: in the
      end they stand in order, and Words.WordsAreBytes says that they are the encoding. */
  method WriteCodePoint(codePoint: Word, out: array<char>, at: nat) returns (end: nat)
    requires at + |Written(codePoint)| <= out.Length
    modifies out
    ensures end == at + |Written(codePoint)|
    ensures out[..end] == old(out[..at]) + Written(codePoint)
  {
    hide Byte, ContinuationByte, ShiftOut, LeadByte, Length;
    var uc := codePoint;
    var len := ByteCount(uc);
    FinishLength(uc, len, len, "");
    end := at + len;
    var p := end;
    if len == 4 {
      p, uc := PutContinuation(uc, out, p, end, "");
    }
    assert Finish(uc, p - at, len, out[p..end]) == Written(codePoint) && out[..at] == old(out[..at]);
    if len >= 3 {
      p, uc := PutContinuation(uc, out, p, end, out[p..end]);
    }
    assert Finish(uc, p - at, len, out[p..end]) == Written(codePoint) && out[..at] == old(out[..at]);
    if len >= 2 {
      p, uc := PutContinuation(uc, out, p, end, out[p..end]);
    }
    assert Finish(uc, p - at, len, out[p..end]) == Written(codePoint) && out[..at] == old(out[..at]);
    PutLead(uc, len, out, at, end, out[p..end]);
    SplitAt(out, at, end);
  }

  /** The `\u` case: `p` is at the `u`; the result is behind the last digit used. */
  method ReadUnicode(p: string, out: array<char>, at: nat) returns (rest: string, end: nat)
    requires Peek(p) == 'u' && UnicodeEscape(p[1..]).Ok?
    requires at + |UnicodeEscape(p[1..]).value| <= out.Length
    modifies out
    ensures rest == UnicodeEscape(p[1..]).rest
    ensures end == at + |UnicodeEscape(p[1..]).value|
    ensures out[..end] == old(out[..at]) + UnicodeEscape(p[1..]).value
  {
    hide ScanHex4, JoinWords, IsHighWord, IsLowWord, Written;
    var uc := ScanHex4(p[1..]);
    SurrogatesAgree(uc);
    SizesAgree(uc);
    var ptr := p[4..];
    assert ptr[1..] == p[1..][4..];
    rest, end := ptr[1..], at;
    if IsLowWord(uc) || uc == 0 {
      return;
    }
    if IsHighWord(uc) {
      if Peek(ptr[1..]) != BACKSLASH || Peek(ptr[2..]) != 'u' {
        return;
      }
      assert ptr[3..] == ptr[1..][2..];
      var uc2 := ScanHex4(ptr[3..]);
      SurrogatesAgree(uc2);
      ptr := ptr[6..];
      assert ptr[1..] == rest[6..];
      rest := ptr[1..];
      if !IsLowWord(uc2) {
        return;
      }
      JoinIsWord(uc, uc2);
      JoinedSize(uc, uc2);
      uc := JoinWords(uc, uc2);
    }
    WordsAreBytes(uc);
    end := WriteCodePoint(uc, out, at);
  }

  /** One turn of the filling loop: one byte, or one escape. */
  method PutUnescaped(from: string, out: array<char>, at: nat) returns (ptr: string, end: nat)
    requires Peek(from) != QUOTE && Peek(from) != '\0' && Unescape(from).Ok?
    requires at + CountPass(from).bytes <= out.Length
    modifies out
    ensures |ptr| < |from| && Unescape(ptr).Ok?
    ensures end - at + CountPass(ptr).bytes <= CountPass(from).bytes && end >= at
    ensures out[..at] == old(out[..at])
    ensures end <= out.Length && Unescape(from) == Prepend(out[at..end], Unescape(ptr))
  {
    ptr := from;
    if ptr[0] != BACKSLASH {
      out[at] := ptr[0];
      ptr, end := ptr[1..], at + 1;
      assert out[at..end] == [from[0]];
      return;
    }
    CountEscape(from);
    ghost var value := Escape(from[1..]).value;
    ptr := ptr[1..];
    if ptr[0] == 'u' {
      ptr, end := ReadUnicode(ptr, out, at);
      SplitAt(out, at, end);
    } else {
      out[at] := match ptr[0]
        case 'b' => BACKSPACE
        case 'f' => FORMFEED
        case 'n' => '\n'
        case 'r' => '\r'
        case 't' => '\t'
        case c => c;
      ptr, end := ptr[1..], at + 1;
    }
    assert out[at..end] == value;
  }

  /** The counting loop. */
  method CountLiteral(str: string) returns (len: nat)
    requires CountPass(str).safe
    ensures len == CountPass(str).bytes
  {
    var ptr := str;
    len := 0;
    while Peek(ptr) != QUOTE && Peek(ptr) != '\0'
      invariant More(len, CountPass(ptr)) == CountPass(str)
      decreases |ptr|
    {
      len := len + 1;
      if ptr[0] == BACKSLASH {
        assert ptr[1..][1..] == ptr[2..];
        ptr := ptr[1..];
      }
      ptr := ptr[1..];
    }
  }

  /** parse_string.  A caller must not pass an escape that is cut short. */
  method ReadString(str: string) returns (r: Parsed<string>)
    requires !ParseString(str).Unspecified?
    ensures r == ParseString(str)
  {
    if Peek(str) != QUOTE {
      return Rejected;
    }
    PassesAgree(str[1..]);
    var len := CountLiteral(str[1..]);
    var out := new char[len + 1];
    var ptr, ptr2 := str[1..], 0;
    PrependEmpty(Unescape(ptr));
    assert out[..0] == "";
    while Peek(ptr) != QUOTE && Peek(ptr) != '\0'
      invariant ptr2 + CountPass(ptr).bytes <= len
      invariant Unescape(ptr).Ok? && Unescape(str[1..]) == Prepend(out[..ptr2], Unescape(ptr))
      decreases |ptr|
    {
      ghost var written, start := out[..ptr2], ptr2;
      ptr, ptr2 := PutUnescaped(ptr, out, ptr2);
      SplitAt(out, start, ptr2);
      PrependTwice(written, out[start..ptr2], Unescape(ptr));
    }
    out[ptr2] := '\0';
    if Peek(ptr) == QUOTE {
      ptr := ptr[1..];
    }
    r := Ok(out[..ptr2], ptr);
    assert out[..ptr2] + "" == out[..ptr2];
  }

  // ---------------------------------------------------------------- what the escapes mean

  /** `\uXXXX` of any code point but zero and the surrogates gives its one UTF-8 encoding. */
  lemma BasicEscape(s: string)
    requires HasHex4(s) && Hex4(s) != 0 && IsScalar(Hex4(s))
    ensures var r := UnicodeEscape(s);
      && r.Ok? && r.rest == s[4..]
      && forall bytes :: WellFormed(bytes) && Decode(bytes) == Hex4(s) <==> bytes == r.value
  {
    forall bytes ensures WellFormed(bytes) && Decode(bytes) == Hex4(s) <==> bytes == Encode(Hex4(s)) {
      EncodingIsExact(Hex4(s), bytes);
    }
  }

  /** A surrogate pair always gives one well-formed UTF-8 sequence and is consumed whole.  It is
      the encoding of the code point the pair stands for exactly when bit 6 of the high half is clear. */
  lemma PairEscape(s: string)
    requires HasHex4(s) && IsHighSurrogate(Hex4(s))
    requires |s| >= 6 && s[4] == BACKSLASH && s[5] == 'u'
    requires HasHex4(s[6..]) && IsLowSurrogate(Hex4(s[6..]))
    ensures var r := UnicodeEscape(s);
      && r.Ok? && r.rest == s[10..] && WellFormed(r.value)
      && (Decode(r.value) == SurrogateValue(Hex4(s), Hex4(s[6..])) <==> Hex4(s) / 0x40 % 2 == 0)
      && (r.value == Encode(SurrogateValue(Hex4(s), Hex4(s[6..]))) <==> Hex4(s) / 0x40 % 2 == 0)
  {
    var t := s[4..];
    assert t[1..][0] == 'u' && t[2..] == s[6..] && t[6..] == s[10..];
    var high, low := Hex4(s), Hex4(s[6..]);
    EncodeDecodes(JoinSurrogates(high, low));
    EncodeDecodes(SurrogateValue(high, low));
    JoinIsRight(high, low);
  }

  // ---------------------------------------------------------------- printing

  predicate NeedsBackslash(c: char) {
    c in {QUOTE, BACKSLASH, BACKSPACE, FORMFEED, '\n', '\r', '\t'}
  }

  lemma {:induction false} EscapedAllOfConcat(s: string, t: string)
    ensures EscapedAll(s + t) == EscapedAll(s) + EscapedAll(t)
  {
    if s == "" {
      assert s + t == t;
    } else {
      assert (s + t)[1..] == s[1..] + t;
      EscapedAllOfConcat(s[1..], t);
    }
  }

  lemma EscapedAllStep(s: string, i: nat)
    requires i < |s|
    ensures EscapedAll(s[..i + 1]) == EscapedAll(s[..i]) + Escaped(s[i])
    ensures |EscapedAll(s[..i + 1])| <= |EscapedAll(s)|
  {
    hide Escaped;
    assert s[..i + 1] == s[..i] + [s[i]];
    EscapedAllOfConcat(s[..i], [s[i]]);
    assert EscapedAll([s[i]]) == Escaped(s[i]);
    assert s == s[..i + 1] + s[i + 1..];
    EscapedAllOfConcat(s[..i + 1], s[i + 1..]);
  }

  /** The counting pass: what the escaped text will need. */
  method CountEscaped(str: string) returns (len: nat)
    ensures len == |EscapedAll(str)|
  {
    var i := 0;
    len := 0;
    while i < |str|
      invariant 0 <= i <= |str|
      invariant len == |EscapedAll(str[..i])|
    {
      EscapedAllStep(str, i);
      len := len + 1;
      if NeedsBackslash(str[i]) {
        len := len + 1;
      } else if str[i] < ' ' {
        len := len + 5;
      }
      i := i + 1;
    }
    assert str[..i] == str;
  }

  /** print_string_ptr: the buffer is exactly as long as the literal and its terminator. */
  method PrintStringPtr(str: string) returns (out: array<char>)
    requires NulFree(str)
    ensures fresh(out) && Holds(out, Quoted(str))
    ensures out.Length == |Quoted(str)| + 1
  {
    var len := CountEscaped(str);
    out := new char[len + 3];
    out[0] := QUOTE;
    assert out[..1] == [QUOTE];
    var ptr2 := PutAllEscaped(str, out, 1);
    out[ptr2] := QUOTE;
    out[ptr2 + 1] := '\0';
    SplitAt(out, ptr2, ptr2 + 1);
  }

  /** The writing loop. */
  method PutAllEscaped(str: string, out: array<char>, at: nat) returns (end: nat)
    requires NulFree(str) && at + |EscapedAll(str)| <= out.Length
    modifies out
    ensures end == at + |EscapedAll(str)| && out[..end] == old(out[..at]) + EscapedAll(str)
  {
    var i := 0;
    end := at;
    while i < |str|
      invariant 0 <= i <= |str|
      invariant end == at + |EscapedAll(str[..i])| <= at + |EscapedAll(str)|
      invariant out[..end] == old(out[..at]) + EscapedAll(str[..i])
    {
      EscapedAllStep(str, i);
      Assoc(old(out[..at]), EscapedAll(str[..i]), Escaped(str[i]));
      end := PutEscaped(str[i], out, end);
      i := i + 1;
    }
    assert str[..i] == str;
  }

  /** One turn of the writing loop. */
  method PutEscaped(token: char, out: array<char>, at: nat) returns (end: nat)
    requires token != '\0' && at + |Escaped(token)| <= out.Length
    modifies out
    ensures end == at + |Escaped(token)| && out[..end] == old(out[..at]) + Escaped(token)
  {
    if token >= ' ' && token != QUOTE && token != BACKSLASH {
      out[at] := token;
      end := at + 1;
    } else {
      out[at] := BACKSLASH;
      if NeedsBackslash(token) {
        out[at + 1] := match token
          case '\n' => 'n'
          case '\r' => 'r'
          case '\t' => 't'
          case c => if c == BACKSPACE then 'b' else if c == FORMFEED then 'f' else c;
        end := at + 2;
      } else {
        out[at + 1], out[at + 2], out[at + 3] := 'u', '0', '0';
        out[at + 4], out[at + 5] := HexChar(token as int / 16), HexChar(token as int % 16);
        end := at + 6;
      }
    }
    assert out[..at] == old(out[..at]);
    SplitAt(out, at, end);
  }
}
