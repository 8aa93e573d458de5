/** From messages to bytes and back: To, the printer and the frame encoder on one side, the
    framer, the parser and FromJSON on the other. */
module EndToEnd {
  import opened Wrappers
  import opened CStrings
  import opened JsonValues
  import JsonPrinter
  import JsonParser
  import JsonRoundTrip
  import opened Framing
  import FramingProofs
  import opened Messages

  /** Json::Parse of a payload. */
  function JsonOf(payload: string): Option<Json> {
    match JsonParser.Parse(payload)
    case Ok(v, _) => Some(v)
    case _ => None
  }

  /** `msg.ToString()` */
  function Payload(m: Message): string {
    JsonPrinter.Print(To(m), 0, false)
  }

  function Payloads(messages: seq<Message>): (payloads: seq<string>)
    ensures |payloads| == |messages|
  {
    seq(|messages|, i requires 0 <= i < |messages| => Payload(messages[i]))
  }

  predicate SendableSource(s: Source) {
    NulFree(s.name) && NulFree(s.path) && 0 <= s.sourceReference <= INT_MAX
  }

  /** Fields are C ints and C strings, and source references are not negative. */
  predicate Sendable(m: Message) {
    match m
    case SetBreakpointsRequest(number, source, breakpoints) =>
      && IsInt32(number) && SendableSource(source)
      && forall i | 0 <= i < |breakpoints| :: IsInt32(breakpoints[i].line) && NulFree(breakpoints[i].condition)
    case StackTraceResponse(number, request_seq, _, message, frames) =>
      && IsInt32(number) && IsInt32(request_seq) && NulFree(message)
      && forall i | 0 <= i < |frames| ::
           && IsInt32(frames[i].id) && NulFree(frames[i].name) && IsInt32(frames[i].line)
           && SendableSource(frames[i].source)
  }

  lemma SourceIsPrintable(s: Source)
    requires SendableSource(s)
    ensures Printable(SourceTo(s))
  {
  }

  lemma FrameIsPrintable(f: StackFrame)
    requires IsInt32(f.id) && NulFree(f.name) && IsInt32(f.line) && SendableSource(f.source)
    ensures Printable(StackFrameTo(f))
  {
    SourceIsPrintable(f.source);
  }

  lemma ArgumentsArePrintable(source: Source, breakpoints: seq<SourceBreakpoint>)
    requires SendableSource(source)
    requires forall i | 0 <= i < |breakpoints| :: IsInt32(breakpoints[i].line) && NulFree(breakpoints[i].condition)
    ensures Printable(ArgumentsTo(source, breakpoints))
  {
    SourceIsPrintable(source);
    var items := ArgumentsTo(source, breakpoints).members[1].value.items;
    assert forall i | 0 <= i < |items| :: items[i] == SourceBreakpointTo(breakpoints[i]);
    assert Printable(Array(items));
  }

  lemma BodyIsPrintable(frames: seq<StackFrame>)
    requires forall i | 0 <= i < |frames| ::
      IsInt32(frames[i].id) && NulFree(frames[i].name) && IsInt32(frames[i].line) && SendableSource(frames[i].source)
    ensures Printable(BodyTo(frames))
  {
    var items := BodyTo(frames).members[0].value.items;
    forall i | 0 <= i < |items|
      ensures Printable(items[i])
    {
      FrameIsPrintable(frames[i]);
    }
    assert Printable(Array(items));
  }

  predicate PrintableMember(m: Member) {
    NulFree(m.name) && Printable(m.value)
  }

  lemma RequestIsPrintable(m: Message)
    requires Sendable(m) && m.SetBreakpointsRequest?
    ensures Printable(To(m))
  {
    var members := To(m).members;
    ArgumentsArePrintable(m.source, m.breakpoints);
    assert PrintableMember(members[0]);
    assert PrintableMember(members[1]);
    assert PrintableMember(members[2]);
    assert PrintableMember(members[3]);
  }

  lemma ResponseIsPrintable(m: Message)
    requires Sendable(m) && m.StackTraceResponse?
    ensures Printable(To(m))
  {
    var members := To(m).members;
    ResponseHeadIsPrintable(m);
    ResponseTailIsPrintable(m);
    forall i | 0 <= i < |members|
      ensures NulFree(members[i].name) && Printable(members[i].value)
    {
      assert PrintableMember(if i < 4 then members[..4][i] else members[4..][i - 4]);
    }
  }

  lemma ResponseHeadIsPrintable(m: Message)
    requires Sendable(m) && m.StackTraceResponse?
    ensures forall i | 0 <= i < 4 :: PrintableMember(To(m).members[..4][i])
  {
    var members := To(m).members;
    assert PrintableMember(members[0]) && PrintableMember(members[1]);
    assert PrintableMember(members[2]) && PrintableMember(members[3]);
  }

  lemma ResponseTailIsPrintable(m: Message)
    requires Sendable(m) && m.StackTraceResponse?
    ensures forall i | 0 <= i < 3 :: PrintableMember(To(m).members[4..][i])
  {
    var members := To(m).members;
    BodyIsPrintable(m.stackFrames);
    assert PrintableMember(members[4]) && PrintableMember(members[5]) && PrintableMember(members[6]);
  }

  lemma SendableIsPrintable(m: Message)
    requires Sendable(m)
    ensures Printable(To(m))
  {
    if m.SetBreakpointsRequest? {
      RequestIsPrintable(m);
    } else {
      ResponseIsPrintable(m);
    }
  }

  /** One payload: printed, parsed and dispatched. */
  lemma PayloadRoundTrip(m: Message)
    requires Sendable(m)
    ensures Payload(m) != "" && JsonOf(Payload(m)) == Some(To(m)) && FromJson(JsonOf(Payload(m))) == Some(m)
  {
    SendableIsPrintable(m);
    JsonRoundTrip.PrintedIsParsed(To(m), false);
    JsonRoundTrip.PrintStart(To(m), 0, false);
    MessageRoundTrip(m);
  }

  /** What the client makes of the messages that are delivered. */
  function Received(jsons: seq<Json>): seq<Option<Message>> {
    seq(|jsons|, i requires 0 <= i < |jsons| => FromJson(Some(jsons[i])))
  }

  function Sent(messages: seq<Message>): seq<Option<Message>> {
    seq(|messages|, i requires 0 <= i < |messages| => Some(messages[i]))
  }

  /** Whatever sequence of messages is sent, and however the bytes are cut on the way, the same
      messages arrive in the same order, and nothing is left over. */
  lemma WireRoundTrip(messages: seq<Message>, chunks: seq<string>)
    requires forall i | 0 <= i < |messages| :: Sendable(messages[i])
    requires Concat(chunks) == EncodeAll(Payloads(messages))
    ensures var (jsons, left) := Feed("", chunks, JsonOf);
      Received(jsons) == Sent(messages) && left == ""
  {
    var payloads := Payloads(messages);
    var values := seq(|messages|, i requires 0 <= i < |messages| => To(messages[i]));
    forall i | 0 <= i < |messages|
      ensures payloads[i] != "" && JsonOf(payloads[i]) == Some(values[i])
      ensures FromJson(Some(values[i])) == Some(messages[i])
    {
      PayloadRoundTrip(messages[i]);
    }
    FramingProofs.SentIsDelivered(payloads, chunks, JsonOf);
    FramingProofs.ParsedAllIs(payloads, JsonOf, values);
  }
}
