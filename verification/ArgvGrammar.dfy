/** How a command line may be spelled, and the arguments that each spelling stands for, apart from
    the state machine that reads it (dap/StringUtils.cpp). */
module ArgvGrammar {
  import opened CStrings
  import opened CommandLine = Argv

  // ---------------------------------------------------------------- the grammar

  /** Between quotes: a character, or a backslash and the character behind it. */
  datatype Inner = Raw(c: char) | Esc(c: char)

  /** A part of a word: a character, a quotation, or one that the text ends in, perhaps with a backslash. */
  datatype Segment =
    | Bare(c: char)
    | Quoted(q: char, body: seq<Inner>)
    | Open(q: char, body: seq<Inner>, dangling: bool)

  /** A word and the blanks behind it. */
  datatype Word = Word(segments: seq<Segment>, gap: string)

  predicate Blanks(w: string) {
    forall i | 0 <= i < |w| :: w[i] == ' ' || w[i] == '\t'
  }

  /** One of the three quotes. */
  predicate IsMark(q: char) {
    q == '\"' || q == '\'' || q == '`'
  }

  predicate WellBody(body: seq<Inner>, q: char) {
    forall i | 0 <= i < |body| :: body[i].Raw? ==> body[i].c != q && body[i].c != '\\'
  }

  predicate WellSegment(s: Segment) {
    match s
    case Bare(c) => c != ' ' && c != '\t' && !IsMark(c)
    case Quoted(q, body) => IsMark(q) && WellBody(body, q)
    case Open(q, body, _) => IsMark(q) && WellBody(body, q)
  }

  function BodyText(body: seq<Inner>): string {
    if body == [] then ""
    else (if body[0].Raw? then [body[0].c] else ['\\', body[0].c]) + BodyText(body[1..])
  }

  function SegmentText(s: Segment): string {
    match s
    case Bare(c) => [c]
    case Quoted(q, body) => [q] + (BodyText(body) + [q])
    case Open(q, body, dangling) => [q] + (BodyText(body) + if dangling then "\\" else "")
  }

  function WordText(segments: seq<Segment>): string {
    if segments == [] then "" else SegmentText(segments[0]) + WordText(segments[1..])
  }

  function LineText(words: seq<Word>): string {
    if words == [] then "" else WordText(words[0].segments) + (words[0].gap + LineText(words[1..]))
  }

  /** A backslash is dropped where it escapes the closing quote. */
  function BodyMeaning(body: seq<Inner>, q: char): string {
    if body == [] then ""
    else (if body[0].Raw? || body[0].c == q then [body[0].c] else ['\\', body[0].c]) + BodyMeaning(body[1..], q)
  }

  function SegmentMeaning(s: Segment): string {
    match s
    case Bare(c) => [c]
    case Quoted(q, body) => [q] + (BodyMeaning(body, q) + [q])
    case Open(q, body, _) => [q] + BodyMeaning(body, q)
  }

  function WordMeaning(segments: seq<Segment>): string {
    if segments == [] then "" else SegmentMeaning(segments[0]) + WordMeaning(segments[1..])
  }

  /** Nothing stands behind an open quotation, and between words there are blanks. */
  predicate WellSegments(segments: seq<Segment>, last: bool) {
    segments != [] ==>
      && WellSegment(segments[0]) && WellSegments(segments[1..], last)
      && (segments[0].Open? ==> last && |segments| == 1)
  }

  predicate WellWords(words: seq<Word>) {
    words != [] ==>
      && words[0].segments != [] && Blanks(words[0].gap) && WellWords(words[1..])
      && WellSegments(words[0].segments, |words| == 1 && words[0].gap == "")
      && (|words| > 1 ==> words[0].gap != "")
  }

  function Meanings(words: seq<Word>): seq<string> {
    if words == [] then [] else [WordMeaning(words[0].segments)] + Meanings(words[1..])
  }

  // ---------------------------------------------------------------- every spelling is read

  lemma {:induction false} BodyIsRead(body: seq<Inner>, q: char, rest: string)
    requires WellBody(body, q) && IsMark(q)
    ensures Quotation(BodyText(body) + ([q] + rest), q) == (BodyMeaning(body, q) + [q], rest)
  {
    var end := [q] + rest;
    var s := BodyText(body) + end;
    if body == [] {
      assert s == end && end[1..] == rest && "" + [q] == [q];
    } else {
      var more := BodyText(body[1..]) + end;
      BodyIsRead(body[1..], q, rest);
      if body[0].Raw? {
        Assoc([body[0].c], BodyText(body[1..]), end);
        assert s[1..] == more;
        Assoc([body[0].c], BodyMeaning(body[1..], q), [q]);
      } else {
        Assoc(['\\', body[0].c], BodyText(body[1..]), end);
        assert s[2..] == more;
        Assoc(EscapePair(body[0].c, q), BodyMeaning(body[1..], q), [q]);
      }
    }
  }

  lemma {:induction false} OpenIsRead(body: seq<Inner>, q: char, dangling: bool)
    requires WellBody(body, q) && IsMark(q)
    ensures Quotation(BodyText(body) + (if dangling then "\\" else ""), q) == (BodyMeaning(body, q), "")
  {
    var end := if dangling then "\\" else "";
    var s := BodyText(body) + end;
    if body == [] {
      assert s == end;
    } else {
      var more := BodyText(body[1..]) + end;
      OpenIsRead(body[1..], q, dangling);
      if body[0].Raw? {
        Assoc([body[0].c], BodyText(body[1..]), end);
        assert s[1..] == more;
      } else {
        Assoc(['\\', body[0].c], BodyText(body[1..]), end);
        assert s[2..] == more;
      }
    }
  }

  /** An opening quote, and what its quotation adds. */
  lemma QuoteIsRead(q: char, s: string, token: string)
    requires IsMark(q)
    ensures Tokens([q] + s, token) == Tokens(Quotation(s, q).1, token + ([q] + Quotation(s, q).0))
  {
    assert ([q] + s)[1..] == s;
    Assoc(token, [q], Quotation(s, q).0);
  }

  lemma SegmentIsRead(s: Segment, rest: string, token: string)
    requires WellSegment(s) && (s.Open? ==> rest == "")
    ensures Tokens(SegmentText(s) + rest, token) == Tokens(rest, token + SegmentMeaning(s))
  {
    hide Quotation, BodyText, BodyMeaning, WellBody;
    if s.Bare? {
      assert ([s.c] + rest)[1..] == rest;
    } else {
      hide Tokens;
      var body := BodyText(s.body);
      if s.Quoted? {
        Assoc([s.q], body + [s.q], rest);
        Assoc(body, [s.q], rest);
        BodyIsRead(s.body, s.q, rest);
        QuoteIsRead(s.q, body + ([s.q] + rest), token);
      } else {
        var text := body + if s.dangling then "\\" else "";
        assert SegmentText(s) + rest == [s.q] + text;
        OpenIsRead(s.body, s.q, s.dangling);
        QuoteIsRead(s.q, text, token);
      }
    }
  }

  lemma {:induction false} SegmentsAreRead(segments: seq<Segment>, last: bool, rest: string, token: string)
    requires WellSegments(segments, last) && (last ==> rest == "")
    ensures Tokens(WordText(segments) + rest, token) == Tokens(rest, token + WordMeaning(segments))
    decreases |segments|
  {
    if segments == [] {
      assert "" + rest == rest && token + "" == token;
    } else {
      var s, more := segments[0], WordText(segments[1..]);
      Assoc(SegmentText(s), more, rest);
      assert s.Open? ==> more + rest == "";
      SegmentIsRead(s, more + rest, token);
      SegmentsAreRead(segments[1..], last, rest, token + SegmentMeaning(s));
      Assoc(token, SegmentMeaning(s), WordMeaning(segments[1..]));
    }
  }

  lemma {:induction false} BlanksAreRead(w: string, rest: string)
    requires Blanks(w)
    ensures Tokens(w + rest, "") == Tokens(rest, "")
  {
    if w == "" {
      assert w + rest == rest;
    } else {
      assert (w + rest)[1..] == w[1..] + rest;
      BlanksAreRead(w[1..], rest);
      assert [] + Tokens(rest, "") == Tokens(rest, "");
    }
  }

  /** Blanks behind a token end it; so does the end of the text. */
  lemma TokenEnds(token: string, gap: string, rest: string)
    requires token != "" && Blanks(gap) && (gap == "" ==> rest == "")
    ensures Tokens(gap + rest, token) == [token] + Tokens(rest, "")
  {
    if gap == "" {
      assert gap + rest == "" && Tokens("", "") == [];
    } else {
      assert (gap + rest)[1..] == gap[1..] + rest;
      BlanksAreRead(gap[1..], rest);
    }
  }

  /** The tokens of a line are the meanings of its words. */
  lemma {:induction false} WordsAreRead(words: seq<Word>)
    requires WellWords(words)
    ensures Tokens(LineText(words), "") == Meanings(words)
  {
    if words != [] {
      var w, rest := words[0], LineText(words[1..]);
      var last := |words| == 1 && w.gap == "";
      assert last ==> w.gap + rest == "";
      SegmentsAreRead(w.segments, last, w.gap + rest, "");
      assert "" + WordMeaning(w.segments) == WordMeaning(w.segments);
      TokenEnds(WordMeaning(w.segments), w.gap, rest);
      WordsAreRead(words[1..]);
    }
  }

  lemma LineIsRead(lead: string, words: seq<Word>)
    requires Blanks(lead) && WellWords(words)
    ensures Tokens(lead + LineText(words), "") == Meanings(words)
  {
    BlanksAreRead(lead, LineText(words));
    WordsAreRead(words);
  }

  // ---------------------------------------------------------------- every text is a spelling

  lemma {:induction false} BodyFound(s: string, q: char)
    returns (body: seq<Inner>, closed: bool, dangling: bool, rest: string)
    ensures WellBody(body, q)
    ensures s == BodyText(body) + if closed then [q] + rest else if dangling then "\\" else ""
    ensures |rest| <= |s| && (!closed ==> rest == "")
    decreases |s|
  {
    if s == "" {
      body, closed, dangling, rest := [], false, false, "";
    } else if s[0] == q {
      body, closed, dangling, rest := [], true, false, s[1..];
      assert s == "" + ([q] + rest);
    } else if s == "\\" {
      body, closed, dangling, rest := [], false, true, "";
    } else {
      var step, inner := if s[0] == '\\' then 2 else 1, if s[0] == '\\' then Esc(s[1]) else Raw(s[0]);
      var more;
      more, closed, dangling, rest := BodyFound(s[step..], q);
      body := [inner] + more;
      assert body[1..] == more;
      assert s == (if inner.Raw? then [inner.c] else ['\\', inner.c]) + s[step..];
    }
  }

  lemma SegmentFound(s: string) returns (segment: Segment, rest: string)
    requires s != "" && s[0] != ' ' && s[0] != '\t'
    ensures WellSegment(segment) && s == SegmentText(segment) + rest && |rest| < |s|
    ensures segment.Open? ==> rest == ""
  {
    if !IsMark(s[0]) {
      segment, rest := Bare(s[0]), s[1..];
    } else {
      var body, closed, dangling;
      body, closed, dangling, rest := BodyFound(s[1..], s[0]);
      assert s == [s[0]] + s[1..];
      hide BodyText;
      if closed {
        segment := Quoted(s[0], body);
        Assoc(BodyText(body), [s[0]], rest);
        Assoc([s[0]], BodyText(body) + [s[0]], rest);
      } else {
        segment := Open(s[0], body, dangling);
        assert SegmentText(segment) + "" == SegmentText(segment);
      }
    }
  }

  lemma {:induction false} WordFound(s: string) returns (segments: seq<Segment>, last: bool, rest: string)
    ensures WellSegments(segments, last) && s == WordText(segments) + rest
    ensures (last ==> rest == "") && (rest != "" ==> rest[0] == ' ' || rest[0] == '\t')
    ensures if segments == [] then rest == s else |rest| < |s|
    decreases |s|
  {
    if s == "" || s[0] == ' ' || s[0] == '\t' {
      segments, last, rest := [], false, s;
    } else {
      var first, behind := SegmentFound(s);
      if first.Open? {
        segments, last, rest := [first], true, "";
        assert [first][1..] == [] && SegmentText(first) + "" == SegmentText(first);
      } else {
        var more;
        more, last, rest := WordFound(behind);
        segments := [first] + more;
        assert segments[1..] == more;
        Assoc(SegmentText(first), WordText(more), rest);
      }
    }
  }

  lemma {:induction false} BlanksFound(s: string) returns (w: string, rest: string)
    ensures Blanks(w) && s == w + rest && (rest != "" ==> rest[0] != ' ' && rest[0] != '\t')
    ensures s != "" && (s[0] == ' ' || s[0] == '\t') ==> w != ""
  {
    if s == "" || (s[0] != ' ' && s[0] != '\t') {
      w, rest := "", s;
    } else {
      var more;
      more, rest := BlanksFound(s[1..]);
      w := [s[0]] + more;
    }
  }

  lemma {:induction false} MayBeLast(segments: seq<Segment>)
    requires WellSegments(segments, false)
    ensures WellSegments(segments, true)
  {
    if segments != [] {
      MayBeLast(segments[1..]);
    }
  }

  lemma {:induction false} WordsFound(s: string) returns (words: seq<Word>)
    requires s != "" ==> s[0] != ' ' && s[0] != '\t'
    ensures WellWords(words) && s == LineText(words)
    decreases |s|
  {
    if s == "" {
      words := [];
    } else {
      var segments, last, behind := WordFound(s);
      var gap, rest := BlanksFound(behind);
      var more := WordsFound(rest);
      words := [Word(segments, gap)] + more;
      assert words[1..] == more;
      assert gap == "" ==> rest == "" && more == [];
      if !last {
        MayBeLast(segments);
      }
    }
  }

  /** Every command line is spelled by blanks and words, so that its tokens are their meanings. */
  lemma LineFound(s: string) returns (lead: string, words: seq<Word>)
    ensures Blanks(lead) && WellWords(words) && s == lead + LineText(words) && Tokens(s, "") == Meanings(words)
  {
    var rest;
    lead, rest := BlanksFound(s);
    words := WordsFound(rest);
    LineIsRead(lead, words);
  }

  // ---------------------------------------------------------------- the quotes of an argument

  /** A token that begins and ends with a double quote, and is not one alone, loses the two. */
  function Unquoted(token: string): string {
    if |token| >= 2 && token[0] == '\"' && token[|token| - 1] == '\"' then token[1..|token| - 1] else token
  }

  /** The arguments of a command line are its tokens, one by one, without such quotes. */
  lemma {:induction false} ArgumentsAre(tokens: seq<string>)
    requires forall t | t in tokens :: NulFree(t)
    ensures |Arguments(tokens)| == |tokens|
    ensures forall i | 0 <= i < |tokens| :: Arguments(tokens)[i] == Unquoted(tokens[i])
  {
    if tokens != [] {
      ArgumentsAre(tokens[1..]);
      NulFreeIsWhole(tokens[0]);
      forall i | 0 < i < |tokens| ensures Arguments(tokens)[i] == Unquoted(tokens[i]) {
        assert tokens[i] == tokens[1..][i - 1];
      }
    }
  }

  /** BuildArgv gives one argument for each word: its meaning, without a pair of double quotes around it. */
  lemma LineIsArgv(lead: string, words: seq<Word>)
    requires Blanks(lead) && WellWords(words) && NulFree(lead + LineText(words))
    ensures var args := Argv(lead + LineText(words));
      && |args| == |words|
      && forall i | 0 <= i < |words| :: args[i] == Unquoted(WordMeaning(words[i].segments))
  {
    LineIsRead(lead, words);
    TokensAreWhole(lead + LineText(words), "");
    ArgumentsAre(Meanings(words));
    MeaningsAt(words);
  }

  lemma {:induction false} MeaningsAt(words: seq<Word>)
    ensures |Meanings(words)| == |words|
    ensures forall i | 0 <= i < |words| :: Meanings(words)[i] == WordMeaning(words[i].segments)
  {
    if words != [] {
      MeaningsAt(words[1..]);
    }
  }

  /** An argument in double quotes is read without them, spaces or not. */
  lemma QuotedIsStripped(a: string, rest: string)
    requires NulFree(a) && QUOTE !in a && TrailingBackslashes(a) % 2 == 0
    ensures Argv([QUOTE] + a + [QUOTE] + " " + rest) == [a] + Argv(rest)
  {
    CompleteIsEven(a);
    QuotedIsToken(a, rest);
    var token := [QUOTE] + a + [QUOTE];
    NulFreeIsWhole(token);
    assert token[1..|token| - 1] == a;
    assert ([token] + Tokens(rest, ""))[1..] == Tokens(rest, "");
  }
}
