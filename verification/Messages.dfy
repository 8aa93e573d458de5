/** Messages of the protocol to and from Json (dap/dap.cpp). */
module Messages {
  import opened Wrappers
  import opened JsonValues
  import opened JsonAccess

  datatype Source = Source(name: string, path: string, sourceReference: int)

  datatype SourceBreakpoint = SourceBreakpoint(line: int, condition: string)

  datatype StackFrame = StackFrame(id: int, name: string, source: Source, line: int)

  /** `type` and `command` are what the constructors of the classes set them to.  `refId` of a
      stack trace response is not serialized and not modelled here. */
  datatype Message =
    | SetBreakpointsRequest(number: int, source: Source, breakpoints: seq<SourceBreakpoint>)
    | StackTraceResponse(number: int, request_seq: int, success: bool, message: string, stackFrames: seq<StackFrame>)

  // ---------------------------------------------------------------- to Json

  function Bool(b: bool): Json {
    if b then True else False
  }

  function SourceTo(s: Source): Json {
    Object([Member("name", String(s.name))] + PathMember(s.path) + ReferenceMember(s.sourceReference))
  }

  function PathMember(path: string): seq<Member> {
    if path != "" then [Member("path", String(path))] else []
  }

  function ReferenceMember(reference: int): seq<Member> {
    if reference > 0 then [Member("sourceReference", Int(reference))] else []
  }

  function StackFrameTo(f: StackFrame): Json {
    Object([Member("name", String(f.name)), Member("id", Int(f.id)), Member("line", Int(f.line)),
            Member("source", SourceTo(f.source))])
  }

  function SourceBreakpointTo(b: SourceBreakpoint): Json {
    Object([Member("line", Int(b.line)), Member("condition", String(b.condition))])
  }

  function ArgumentsTo(source: Source, breakpoints: seq<SourceBreakpoint>): Json {
    Object([Member("source", SourceTo(source)),
            Member("breakpoints", Array(seq(|breakpoints|,
              i requires 0 <= i < |breakpoints| => SourceBreakpointTo(breakpoints[i]))))])
  }

  function BodyTo(frames: seq<StackFrame>): Json {
    Object([Member("stackFrames", Array(seq(|frames|, i requires 0 <= i < |frames| => StackFrameTo(frames[i]))))])
  }

  /** The members in the order of the calls to Add: the base class first. */
  function To(m: Message): Json {
    match m
    case SetBreakpointsRequest(number, source, breakpoints) =>
      Object([Member("seq", Int(number)), Member("type", String("request")),
              Member("command", String("setBreakpoints")),
              Member("arguments", ArgumentsTo(source, breakpoints))])
    case StackTraceResponse(number, request_seq, success, message, frames) =>
      Object([Member("seq", Int(number)), Member("type", String("response")),
              Member("request_seq", Int(request_seq)), Member("success", Bool(success)),
              Member("message", String(message)), Member("command", String("stackTrace")),
              Member("body", BodyTo(frames))])
  }

  // ---------------------------------------------------------------- from Json

  function SourceFrom(v: Option<Json>): Source {
    Source(GetString(Property(v, "name"), ""), GetString(Property(v, "path"), ""),
           GetInteger(Property(v, "sourceReference"), 0))
  }

  function StackFrameFrom(v: Option<Json>): StackFrame {
    StackFrame(GetInteger(Property(v, "id"), -1), GetString(Property(v, "name"), ""),
               SourceFrom(Property(v, "source")), GetInteger(Property(v, "line"), -1))
  }

  function SourceBreakpointFrom(v: Option<Json>): SourceBreakpoint {
    SourceBreakpoint(GetInteger(Property(v, "line"), -1), GetString(Property(v, "condition"), ""))
  }

  function BreakpointsFrom(children: seq<Json>): seq<SourceBreakpoint> {
    seq(|children|, i requires 0 <= i < |children| => SourceBreakpointFrom(Some(children[i])))
  }

  function FramesFrom(children: seq<Json>): seq<StackFrame> {
    seq(|children|, i requires 0 <= i < |children| => StackFrameFrom(Some(children[i])))
  }

  /** The loop of SetBreakpointsArguments::From */
  method ReadBreakpoints(arr: Option<Json>) returns (breakpoints: seq<SourceBreakpoint>)
    ensures breakpoints == BreakpointsFrom(Children(arr))
  {
    breakpoints := [];
    var size := |Children(arr)|;
    var i := 0;
    while i < size
      invariant 0 <= i <= size && breakpoints == BreakpointsFrom(Children(arr))[..i]
    {
      breakpoints := breakpoints + [SourceBreakpointFrom(Some(Children(arr)[i]))];
      i := i + 1;
    }
  }

  /** The loop of StackTraceResponse::From */
  method ReadFrames(arr: Option<Json>) returns (frames: seq<StackFrame>)
    ensures frames == FramesFrom(Children(arr))
  {
    frames := [];
    var count := |Children(arr)|;
    var i := 0;
    while i < count
      invariant 0 <= i <= count && frames == FramesFrom(Children(arr))[..i]
    {
      frames := frames + [StackFrameFrom(Some(Children(arr)[i]))];
      i := i + 1;
    }
  }

  function RequestFrom(v: Option<Json>): Message {
    var arguments := Property(v, "arguments");
    SetBreakpointsRequest(GetInteger(Property(v, "seq"), -1), SourceFrom(Property(arguments, "source")),
                          BreakpointsFrom(Children(Property(arguments, "breakpoints"))))
  }

  function ResponseFrom(v: Option<Json>): Message {
    StackTraceResponse(GetInteger(Property(v, "seq"), -1), GetInteger(Property(v, "request_seq"), -1),
                       GetBool(Property(v, "success"), false), GetString(Property(v, "message"), ""),
                       FramesFrom(Children(Property(Property(v, "body"), "stackFrames"))))
  }

  /** ObjGenerator::FromJSON, for the classes modelled here. */
  function FromJson(v: Option<Json>): Option<Message> {
    var type_ := GetString(Property(v, "type"), "");
    var command := GetString(Property(v, if type_ == "event" then "event" else "command"), "");
    if type_ == "request" && command == "setBreakpoints" then Some(RequestFrom(v))
    else if type_ == "response" && command == "stackTrace" then Some(ResponseFrom(v))
    else None
  }

  // ---------------------------------------------------------------- and back

  lemma OneMember(m: Member, name: string)
    ensures FindMember([m], name) == if m.name == name then Some(m.value) else None
  {
    assert [m][1..] == [];
  }

  lemma SourceProperty(s: Source, name: string)
    ensures Property(Some(SourceTo(s)), name) ==
      if name == "name" then Some(String(s.name))
      else if name == "path" && s.path != "" then Some(String(s.path))
      else if name == "sourceReference" && s.sourceReference > 0 then Some(Int(s.sourceReference))
      else None
  {
    var a := [Member("name", String(s.name))];
    var b, c := PathMember(s.path), ReferenceMember(s.sourceReference);
    FindInConcat(a + b, c, name);
    FindInConcat(a, b, name);
    OneMember(a[0], name);
    if b != [] {
      OneMember(b[0], name);
    }
    if c != [] {
      OneMember(c[0], name);
    }
  }

  /** A negative source reference is not written, and reads back as 0. */
  lemma SourceRoundTrip(s: Source)
    ensures SourceFrom(Some(SourceTo(s))) == s <==> s.sourceReference >= 0
  {
    SourceProperty(s, "name");
    SourceProperty(s, "path");
    SourceProperty(s, "sourceReference");
  }

  lemma StackFrameRoundTrip(f: StackFrame)
    ensures StackFrameFrom(Some(StackFrameTo(f))) == f <==> f.source.sourceReference >= 0
  {
    var members := StackFrameTo(f).members;
    FindAt(members, 0);
    FindAt(members, 1);
    FindAt(members, 2);
    FindAt(members, 3);
    SourceRoundTrip(f.source);
  }

  lemma BreakpointRoundTrip(b: SourceBreakpoint)
    ensures SourceBreakpointFrom(Some(SourceBreakpointTo(b))) == b
  {
    var members := SourceBreakpointTo(b).members;
    FindAt(members, 0);
    FindAt(members, 1);
  }

  predicate References(m: Message) {
    match m
    case SetBreakpointsRequest(_, source, _) => source.sourceReference >= 0
    case StackTraceResponse(_, _, _, _, frames) =>
      forall i | 0 <= i < |frames| :: frames[i].source.sourceReference >= 0
  }

  lemma RequestProperties(m: Message)
    requires m.SetBreakpointsRequest?
    ensures var v := Some(To(m));
      && Property(v, "seq") == Some(Int(m.number))
      && Property(v, "type") == Some(String("request"))
      && Property(v, "command") == Some(String("setBreakpoints"))
      && Property(v, "arguments") == Some(ArgumentsTo(m.source, m.breakpoints))
  {
    var members := To(m).members;
    FindAt(members, 0);
    FindAt(members, 1);
    FindAt(members, 2);
    FindAt(members, 3);
  }

  lemma RequestRoundTrip(m: Message)
    requires m.SetBreakpointsRequest?
    ensures FromJson(Some(To(m))) == Some(m) <==> References(m)
  {
    RequestProperties(m);
    var arguments := ArgumentsTo(m.source, m.breakpoints);
    FindAt(arguments.members, 0);
    FindAt(arguments.members, 1);
    SourceRoundTrip(m.source);
    var items := arguments.members[1].value.items;
    forall i | 0 <= i < |m.breakpoints|
      ensures BreakpointsFrom(items)[i] == m.breakpoints[i]
    {
      BreakpointRoundTrip(m.breakpoints[i]);
    }
    assert BreakpointsFrom(items) == m.breakpoints;
  }

  lemma FramesRoundTrip(frames: seq<StackFrame>)
    ensures FramesFrom(seq(|frames|, i requires 0 <= i < |frames| => StackFrameTo(frames[i]))) == frames
       <==> forall i | 0 <= i < |frames| :: frames[i].source.sourceReference >= 0
  {
    var items := seq(|frames|, i requires 0 <= i < |frames| => StackFrameTo(frames[i]));
    forall i | 0 <= i < |frames|
      ensures FramesFrom(items)[i] == frames[i] <==> frames[i].source.sourceReference >= 0
    {
      StackFrameRoundTrip(frames[i]);
    }
  }

  lemma ResponseProperties(m: Message)
    requires m.StackTraceResponse?
    ensures var v := Some(To(m));
      && Property(v, "seq") == Some(Int(m.number))
      && Property(v, "type") == Some(String("response"))
      && Property(v, "request_seq") == Some(Int(m.request_seq))
      && Property(v, "success") == Some(Bool(m.success))
  {
    var members := To(m).members;
    FindAt(members, 0);
    FindAt(members, 1);
    FindAt(members, 2);
    FindAt(members, 3);
  }

  lemma ResponseMessage(m: Message)
    requires m.StackTraceResponse?
    ensures Property(Some(To(m)), "message") == Some(String(m.message))
  {
    FindAt(To(m).members, 4);
  }

  lemma ResponseCommand(m: Message)
    requires m.StackTraceResponse?
    ensures Property(Some(To(m)), "command") == Some(String("stackTrace"))
  {
    FindAt(To(m).members, 5);
  }

  lemma ResponseBody(m: Message)
    requires m.StackTraceResponse?
    ensures Property(Some(To(m)), "body") == Some(BodyTo(m.stackFrames))
    ensures Children(Property(Some(BodyTo(m.stackFrames)), "stackFrames")) ==
      seq(|m.stackFrames|, i requires 0 <= i < |m.stackFrames| => StackFrameTo(m.stackFrames[i]))
  {
    FindAt(To(m).members, 6);
    FindAt(BodyTo(m.stackFrames).members, 0);
  }

  lemma ResponseRoundTrip(m: Message)
    requires m.StackTraceResponse?
    ensures FromJson(Some(To(m))) == Some(m) <==> References(m)
  {
    ResponseProperties(m);
    ResponseMessage(m);
    ResponseCommand(m);
    ResponseBody(m);
    FramesRoundTrip(m.stackFrames);
  }

  /** A message comes back from its Json exactly when it holds no negative source reference. */
  lemma MessageRoundTrip(m: Message)
    ensures FromJson(Some(To(m))) == Some(m) <==> References(m)
  {
    if m.SetBreakpointsRequest? {
      RequestRoundTrip(m);
    } else {
      ResponseRoundTrip(m);
    }
  }
}
