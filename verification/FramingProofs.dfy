/** Framing does not depend on how the stream is cut. */
module FramingProofs {
  import opened Wrappers
  import opened CStrings
  import opened HeaderText
  import opened JsonValues
  import opened Framing
  import opened HeaderLines

  // ---------------------------------------------------------------- bytes that arrive later

  lemma {:induction false} SeparatorStays(s: string, t: string)
    requires FindSeparator(s) >= 0
    ensures FindSeparator(s + t) == FindSeparator(s)
  {
    assert (s + t)[..4] == s[..4];
    if !StartsWith(s, SEPARATOR) {
      assert (s + t)[1..] == s[1..] + t;
      SeparatorStays(s[1..], t);
    }
  }

  /** Once a look at the buffer has found something, more bytes do not change what it found. */
  lemma LookStays(s: string, t: string)
    ensures match LookAt(s)
      case Frame(payload, rest) => LookAt(s + t) == Frame(payload, rest + t)
      case NoLength(header) => LookAt(s + t) == NoLength(header)
      case BadLength => LookAt(s + t) == BadLength
      case Wait => true
  {
    var where := FindSeparator(s);
    if where >= 0 {
      SeparatorStays(s, t);
      assert (s + t)[..where] == s[..where];
      LookBehindStays(s, t, HeadersOf(s[..where]), where + 4);
    }
  }

  lemma LookBehindStays(s: string, t: string, headers: Headers, size: nat)
    requires 4 <= size <= |s|
    ensures match LookBehind(s, headers, size)
      case Frame(payload, rest) => LookBehind(s + t, headers, size) == Frame(payload, rest + t)
      case NoLength(header) => LookBehind(s + t, headers, size) == NoLength(header)
      case BadLength => LookBehind(s + t, headers, size) == BadLength
      case Wait => true
  {
    if LookBehind(s, headers, size).Frame? {
      FrameStays(s, t, size, Atol(headers[CONTENT_LENGTH]));
    }
  }

  lemma FrameStays(s: string, t: string, size: nat, len: nat)
    requires size + len <= |s|
    ensures (s + t)[size..size + len] == s[size..size + len] && (s + t)[size + len..] == s[size + len..] + t
  {
  }

  /** A header section without a length is all the buffer keeps, and it is found again. */
  lemma SectionStays(s: string, t: string)
    requires LookAt(s).NoLength?
    ensures var kept := s[..LookAt(s).header];
      LookAt(kept + t) == LookAt(s) && (kept + t)[..LookAt(s).header] == kept
  {
    var kept := s[..LookAt(s).header];
    var where := FindSeparator(s);
    SeparatorInPrefix(s, where + 4);
    assert kept[..where] == s[..where];
    assert LookAt(kept) == LookAt(s);
    LookStays(kept, t);
  }

  lemma {:induction false} SeparatorInPrefix(s: string, n: nat)
    requires FindSeparator(s) >= 0 && FindSeparator(s) + 4 <= n <= |s|
    ensures FindSeparator(s[..n]) == FindSeparator(s)
  {
    assert s[..n][..4] == s[..4];
    if !StartsWith(s, SEPARATOR) {
      assert s[..n][1..] == s[1..][..n - 1];
      SeparatorInPrefix(s[1..], n - 1);
    }
  }

  // ---------------------------------------------------------------- conservation

  /** One call loses nothing and invents nothing: what the bytes so far and any later bytes hold
      is what was delivered and what the buffer left and the later bytes hold. */
  lemma {:induction false} DrainConserves(buffer: string, later: string, parse: Parser)
    ensures var (delivered, left) := Drain(buffer, parse);
      Messages(buffer + later, parse) == delivered + Messages(left + later, parse)
    decreases |buffer|
  {
    LookStays(buffer, later);
    match LookAt(buffer)
    case Frame(payload, rest) =>
      DrainConserves(rest, later, parse);
    case NoLength(header) =>
      SectionStays(buffer, later);
    case _ =>
  }

  lemma AssocMessages(a: seq<Json>, b: seq<Json>, c: seq<Json>)
    ensures (a + b) + c == a + (b + c)
  {
  }

  /** For every byte stream, well-formed or not, and every way of cutting it: the messages of the
      stream are those delivered and then those still in the buffer. */
  lemma {:induction false} FeedConserves(buffer: string, chunks: seq<string>, parse: Parser)
    ensures var (delivered, left) := Feed(buffer, chunks, parse);
      Messages(buffer + Concat(chunks), parse) == delivered + Messages(left, parse)
    decreases chunks
  {
    if chunks == [] {
      assert buffer + "" == buffer;
    } else {
      var later := Concat(chunks[1..]);
      var (first, left) := Drain(buffer + chunks[0], parse);
      Assoc(buffer, chunks[0], later);
      DrainConserves(buffer + chunks[0], later, parse);
      FeedConserves(left, chunks[1..], parse);
      var (more, end) := Feed(left, chunks[1..], parse);
      AssocMessages(first, more, Messages(end, parse));
    }
  }

  /** The deliveries are always a prefix of the messages of the stream. */
  lemma DeliveredIsPrefix(chunks: seq<string>, parse: Parser)
    ensures Feed("", chunks, parse).0 <= Messages(Concat(chunks), parse)
  {
    FeedConserves("", chunks, parse);
    assert "" + Concat(chunks) == Concat(chunks);
  }

  // ---------------------------------------------------------------- when nothing is withheld

  lemma {:induction false} NoMessagesIsClean(s: string, parse: Parser)
    requires Messages(s, parse) == []
    ensures Clean(s, parse)
    decreases |s|
  {
    match LookAt(s)
    case Frame(payload, rest) => NoMessagesIsClean(rest, parse);
    case _ =>
  }

  lemma {:induction false} FewerBytesFewerMessages(s: string, t: string, parse: Parser)
    ensures Messages(s, parse) <= Messages(s + t, parse)
    decreases |s|
  {
    LookStays(s, t);
    match LookAt(s)
    case Frame(payload, rest) => FewerBytesFewerMessages(rest, t, parse);
    case _ =>
  }

  /** Draining a clean stream leaves a clean stream, and no message in the buffer. */
  lemma {:induction false} DrainKeepsClean(buffer: string, later: string, parse: Parser)
    requires Clean(buffer + later, parse)
    ensures var left := Drain(buffer, parse).1;
      Clean(left + later, parse) && Messages(left, parse) == []
    decreases |buffer|
  {
    LookStays(buffer, later);
    match LookAt(buffer)
    case Frame(payload, rest) =>
      if parse(payload).Some? {
        DrainKeepsClean(rest, later, parse);
      } else {
        NoMessagesIsClean(rest + later, parse);
        FewerBytesFewerMessages(rest, later, parse);
      }
    case NoLength(header) =>
      SectionStays(buffer, later);
      SectionStays(buffer, "");
      assert buffer[..header] + "" == buffer[..header];
    case _ =>
  }

  lemma {:induction false} CleanIsDelivered(buffer: string, chunks: seq<string>, parse: Parser)
    requires Messages(buffer, parse) == [] && Clean(buffer + Concat(chunks), parse)
    ensures Feed(buffer, chunks, parse).0 == Messages(buffer + Concat(chunks), parse)
    decreases chunks
  {
    if chunks == [] {
      assert buffer + "" == buffer;
    } else {
      var later := Concat(chunks[1..]);
      var (first, left) := Drain(buffer + chunks[0], parse);
      Assoc(buffer, chunks[0], later);
      DrainConserves(buffer + chunks[0], later, parse);
      DrainKeepsClean(buffer + chunks[0], later, parse);
      CleanIsDelivered(left, chunks[1..], parse);
    }
  }

  /** Drained in one call, a stream leaves a message in the buffer exactly when it is not clean. */
  lemma {:induction false} CleanLeavesNone(buffer: string, parse: Parser)
    ensures Clean(buffer, parse) <==> Messages(Drain(buffer, parse).1, parse) == []
    decreases |buffer|
  {
    match LookAt(buffer)
    case Frame(payload, rest) =>
      if parse(payload).Some? {
        CleanLeavesNone(rest, parse);
      }
    case NoLength(header) =>
      SectionStays(buffer, "");
      assert buffer[..header] + "" == buffer[..header];
    case _ =>
  }

  /** Every way of cutting a stream delivers all its messages exactly when no message stands
      behind a payload that does not parse. */
  lemma ChunkIndependence(stream: string, parse: Parser)
    ensures Clean(stream, parse) <==>
      forall chunks :: Concat(chunks) == stream ==> Feed("", chunks, parse).0 == Messages(stream, parse)
  {
    if Clean(stream, parse) {
      forall chunks | Concat(chunks) == stream
        ensures Feed("", chunks, parse).0 == Messages(stream, parse)
      {
        assert "" + stream == stream;
        CleanIsDelivered("", chunks, parse);
      }
    } else {
      var whole := [stream];
      assert whole[1..] == [] && stream + "" == stream && "" + stream == stream;
      assert Concat(whole) == stream;
      FeedConserves("", whole, parse);
      CleanLeavesNone(stream, parse);
      assert Feed("", whole, parse).1 == Drain(stream, parse).1;
      assert Feed("", whole, parse).0 != Messages(stream, parse);
    }
  }

  // ---------------------------------------------------------------- what is left in the buffer

  lemma {:induction false} AllParseIsClean(s: string, parse: Parser)
    requires AllParse(s, parse)
    ensures Clean(s, parse)
    decreases |s|
  {
    match LookAt(s)
    case Frame(payload, rest) => AllParseIsClean(rest, parse);
    case _ =>
  }

  lemma {:induction false} DrainLeavesUndecoded(buffer: string, later: string, parse: Parser)
    requires AllParse(buffer + later, parse)
    ensures var left := Drain(buffer, parse).1;
      && left == Undecoded(buffer)
      && AllParse(left + later, parse) && Undecoded(left + later) == Undecoded(buffer + later)
    decreases |buffer|
  {
    LookStays(buffer, later);
    match LookAt(buffer)
    case Frame(payload, rest) => DrainLeavesUndecoded(rest, later, parse);
    case NoLength(header) => SectionStays(buffer, later);
    case _ =>
  }

  lemma {:induction false} UndecodedTwice(s: string)
    ensures Undecoded(Undecoded(s)) == Undecoded(s)
    decreases |s|
  {
    match LookAt(s)
    case Frame(_, rest) => UndecodedTwice(rest);
    case NoLength(header) =>
      SectionStays(s, "");
      assert s[..header] + "" == s[..header];
    case _ =>
  }

  /** When every payload parses, the buffer in the end is the undecoded tail of the stream,
      however the stream was cut. */
  lemma {:induction false} LeftoverIsTail(buffer: string, chunks: seq<string>, parse: Parser)
    requires Undecoded(buffer) == buffer && AllParse(buffer + Concat(chunks), parse)
    ensures Feed(buffer, chunks, parse).1 == Undecoded(buffer + Concat(chunks))
    decreases chunks
  {
    if chunks == [] {
      assert buffer + "" == buffer;
    } else {
      var later := Concat(chunks[1..]);
      var left := Drain(buffer + chunks[0], parse).1;
      Assoc(buffer, chunks[0], later);
      DrainLeavesUndecoded(buffer + chunks[0], later, parse);
      UndecodedTwice(buffer + chunks[0]);
      LeftoverIsTail(left, chunks[1..], parse);
    }
  }

  // ---------------------------------------------------------------- stuck

  /** Once a section has no length, or one that is not positive, no call delivers anything, however
      much arrives and however it is cut.  Of the first the section is all that stays in the
      buffer; behind the second everything piles up. */
  lemma {:induction false} Stuck(buffer: string, chunks: seq<string>, parse: Parser)
    requires LookAt(buffer).NoLength? || LookAt(buffer).BadLength?
    ensures Feed(buffer, chunks, parse).0 == []
    ensures Feed(buffer, chunks, parse).1 ==
      if LookAt(buffer).BadLength? then buffer + Concat(chunks)
      else if chunks == [] then buffer
      else buffer[..LookAt(buffer).header]
    decreases chunks
  {
    if chunks == [] {
      assert buffer + "" == buffer;
    } else {
      var first := buffer + chunks[0];
      LookStays(buffer, chunks[0]);
      if LookAt(buffer).BadLength? {
        Assoc(buffer, chunks[0], Concat(chunks[1..]));
        Stuck(first, chunks[1..], parse);
      } else {
        var kept := buffer[..LookAt(buffer).header];
        assert first[..LookAt(buffer).header] == kept;
        SectionStays(buffer, "");
        assert kept + "" == kept && kept[..LookAt(buffer).header] == kept;
        Stuck(kept, chunks[1..], parse);
      }
    }
  }

  /** A section without headers is such a section. */
  lemma EmptySectionIsStuck(rest: string)
    ensures LookAt(SEPARATOR + rest) == NoLength(4)
  {
    var s := SEPARATOR + rest;
    assert s[..4] == SEPARATOR && s[..0] == "";
    assert FindSeparator(s) == 0 && HeadersOf("") == map[];
  }

  /** So is a frame with nothing in it. */
  lemma EmptyFrameIsStuck(rest: string)
    ensures LookAt(Encode("") + rest) == BadLength
  {
    SentIsFound("", rest);
  }

  // ---------------------------------------------------------------- frames that were sent

  lemma NumberText(n: nat)
    ensures Trimmed(Digits(n)) && '\r' !in Digits(n)
  {
  }

  lemma NameText()
    ensures Trimmed(CONTENT_LENGTH) && ':' !in CONTENT_LENGTH && '\r' !in CONTENT_LENGTH && CONTENT_LENGTH != ""
  {
  }

  /** A header as Send writes one. */
  function Plain(name: string, value: string): Line {
    Field("", name, "", " ", value, "")
  }

  lemma PlainSection(name: string, value: string)
    requires Trimmed(name) && ':' !in name && '\r' !in name && name != "" && Trimmed(value) && '\r' !in value
    ensures WellSection([Plain(name, value)]) && First([Plain(name, value)], 0, name)
    ensures Section([Plain(name, value)]) == name + (": " + value)
  {
    var l, text := Plain(name, value), name + (": " + value);
    assert LineText(l) == text by {
      Assoc(":", " ", value);
      assert "" + name == name && name + "" == name && "" + text == text && text + "" == text;
    }
    assert Section([l]) == text + "" == text;
    assert name[0] in name;
  }

  /** The one line that Send writes in front of a payload. */
  lemma LengthSection(n: nat)
    ensures var l := Plain(CONTENT_LENGTH, Digits(n));
      && WellSection([l]) && First([l], 0, CONTENT_LENGTH) && ValueOf(l) == Digits(n)
      && Section([l]) == CONTENT_LENGTH + (": " + Digits(n))
  {
    NumberText(n);
    NameText();
    PlainSection(CONTENT_LENGTH, Digits(n));
  }

  /** The header that Send writes is the only one in its section. */
  lemma SentHeader(n: nat)
    ensures HeadersOf(CONTENT_LENGTH + (": " + Digits(n))) == map[CONTENT_LENGTH := Digits(n)]
  {
    var l := Plain(CONTENT_LENGTH, Digits(n));
    LengthSection(n);
    HeadersAreFirst([l]);
    hide HeadersOf, Section, WellSection;
    var headers := HeadersOf(CONTENT_LENGTH + (": " + Digits(n)));
    assert forall name, i | First([l], i, name) :: name == CONTENT_LENGTH && i == 0;
    assert headers.Keys == {CONTENT_LENGTH};
  }

  lemma SentText(payload: string, rest: string)
    ensures Encode(payload) + rest ==
      (CONTENT_LENGTH + (": " + Digits(|payload|))) + (SEPARATOR + (payload + rest))
  {
    var line := CONTENT_LENGTH + ": " + Digits(|payload|);
    Assoc(CONTENT_LENGTH, ": ", Digits(|payload|));
    Assoc(line + SEPARATOR, payload, rest);
    Assoc(line, SEPARATOR, payload + rest);
  }

  /** A frame that Send wrote is found whole, whatever follows it; one without a payload has a
      length that is not positive. */
  lemma SentIsFound(payload: string, rest: string)
    ensures LookAt(Encode(payload) + rest) == if payload == "" then BadLength else Frame(payload, rest)
  {
    var l := Plain(CONTENT_LENGTH, Digits(|payload|));
    LengthSection(|payload|);
    AtolOfDigits(|payload|);
    SectionIsRead([l], 0, payload + rest);
    SentText(payload, rest);
    assert (payload + rest)[..|payload|] == payload && (payload + rest)[|payload|..] == rest;
    hide *;
  }

  function ParsedAll(payloads: seq<string>, parse: Parser): seq<Json> {
    if payloads == [] then [] else Parsed(parse(payloads[0])) + ParsedAll(payloads[1..], parse)
  }

  lemma {:induction false} ParsedAllIs(payloads: seq<string>, parse: Parser, jsons: seq<Json>)
    requires |payloads| == |jsons| && forall i | 0 <= i < |jsons| :: parse(payloads[i]) == Some(jsons[i])
    ensures ParsedAll(payloads, parse) == jsons
    decreases payloads
  {
    if payloads != [] {
      ParsedAllIs(payloads[1..], parse, jsons[1..]);
      assert [jsons[0]] + jsons[1..] == jsons;
    }
  }

  lemma {:induction false} SentStream(payloads: seq<string>, parse: Parser)
    requires forall i | 0 <= i < |payloads| :: payloads[i] != "" && parse(payloads[i]).Some?
    ensures AllParse(EncodeAll(payloads), parse) && Undecoded(EncodeAll(payloads)) == ""
    ensures Messages(EncodeAll(payloads), parse) == ParsedAll(payloads, parse)
  {
    if payloads != [] {
      SentIsFound(payloads[0], EncodeAll(payloads[1..]));
      SentStream(payloads[1..], parse);
    }
  }

  /** Whatever was sent arrives: cut in any way, a stream of frames with payloads that parse is
      delivered in full, in order, and nothing is left in the buffer. */
  lemma SentIsDelivered(payloads: seq<string>, chunks: seq<string>, parse: Parser)
    requires forall i | 0 <= i < |payloads| :: payloads[i] != "" && parse(payloads[i]).Some?
    requires Concat(chunks) == EncodeAll(payloads)
    ensures Feed("", chunks, parse) == (ParsedAll(payloads, parse), "")
  {
    var stream := EncodeAll(payloads);
    SentStream(payloads, parse);
    AllParseIsClean(stream, parse);
    assert "" + stream == stream;
    CleanIsDelivered("", chunks, parse);
    LeftoverIsTail("", chunks, parse);
  }
}
