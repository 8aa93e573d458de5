/** What each call and each message does, field by field, and what follows over runs: which callbacks
    are called, which events are fired, and which thread is active. */
module SessionSteps {
  import opened Wrappers
  import opened Session
  import opened SessionProofs

  /** The calls that send something. */
  predicate Sends(s: State, a: Action) {
    match a
    case Initialization | Launching | Tracking(_, _) | Evaluating(_) | Plain(_, _) | Responding => true
    case Locating(_) => s.locations
    case Loading(reference, _) => reference > 0
    case _ => false
  }

  /** The session ends: by a call that says so, a lost connection, or a send without a transport. */
  predicate Resets(s: State, a: Action) {
    a.SetTransport? || a.ResetIt? || a.ConnectionError? || (Sends(s, a) && !s.connected)
  }

  /** A message that is looked at because the handshake is over. */
  predicate Heard(s: State, a: Action) {
    a.Incoming? && s.handshake.Completed?
  }

  predicate Responds(s: State, a: Action, command: Command) {
    Heard(s, a) && a.m.Response? && a.m.command == command
  }

  // ---------------------------------------------------------------- callbacks

  /** The first callback that waits is called, if there is one. */
  predicate FirstIsCalled(c: Callbacks, d: Callbacks) {
    && d.given == c.given
    && (if c.waiting == [] then d.waiting == [] && d.called == c.called
        else d.waiting == c.waiting[1..] && d.called == c.called + [c.waiting[0]])
  }

  predicate IsQueued(c: Callbacks, callback: int, d: Callbacks) {
    d.given == c.given + [callback] && d.waiting == c.waiting + [callback] && d.called == c.called
  }

  lemma NextIsFirst(c: Callbacks)
    ensures FirstIsCalled(c, CallNext(c))
  {
  }

  lemma ResponseCalls(s: State, command: Command, q: int)
    ensures var t := HandleResponse(s, command, q);
      && (if command.Evaluate? then FirstIsCalled(s.evaluations, t.evaluations) else t.evaluations == s.evaluations)
      && (if command.Source? then FirstIsCalled(s.sources, t.sources) else t.sources == s.sources)
  {
    NextIsFirst(s.evaluations);
    NextIsFirst(s.sources);
    hide CallNext, FirstIsCalled, Answer;
    if Takes(command) {
      AnsweredFlagged(s, command, q);
      hide HandleResponse;
    }
  }

  /** An evaluate response after the handshake calls the first evaluate callback that waits, a source
      response the first source callback; no other message calls any. */
  lemma MessageCalls(s: State, m: Message)
    ensures var t := Receive(s, m);
      && (if Responds(s, Incoming(m), Evaluate) then FirstIsCalled(s.evaluations, t.evaluations)
          else t.evaluations == s.evaluations)
      && (if Responds(s, Incoming(m), Source) then FirstIsCalled(s.sources, t.sources) else t.sources == s.sources)
  {
    hide HandleResponse, FirstIsCalled;
    if s.handshake.Completed? && m.Response? {
      var t := LogIt(s);
      ResponseCalls(t.(passed := t.passed + [m]), m.command, m.requestSeq);
    }
  }

  lemma AskCalls(s: State, command: Command, arg: Argument)
    ensures var t := Ask(s, command, arg);
      if s.connected then t.evaluations == s.evaluations && t.sources == s.sources
      else t.evaluations == NO_CALLBACKS == t.sources
  {
  }

  /** What a step does to the evaluate callbacks. */
  predicate EvaluationStep(s: State, a: Action, c: Callbacks, d: Callbacks) {
    if Resets(s, a) then d == Callbacks([], [], [])
    else if a.Evaluating? then IsQueued(c, a.callback, d)
    else if Responds(s, a, Evaluate) then FirstIsCalled(c, d)
    else d == c
  }

  predicate SourceStep(s: State, a: Action, c: Callbacks, d: Callbacks) {
    if Resets(s, a) then d == Callbacks([], [], [])
    else if a.Loading? && a.reference > 0 then IsQueued(c, a.callback, d)
    else if Responds(s, a, Source) then FirstIsCalled(c, d)
    else d == c
  }

  lemma StepCalls(s: State, a: Action)
    requires Possible(a)
    ensures EvaluationStep(s, a, s.evaluations, After(s, a).evaluations)
    ensures SourceStep(s, a, s.sources, After(s, a).sources)
  {
    hide Ask, Receive, FirstIsCalled;
    match a
    case Initialization => AskCalls(s, Initialize, Nothing);
    case Launching => AskCalls(s.(activeThread := NOT_FOUND), Launch, Nothing);
    case Tracking(command, arg) =>
      var x := Resolved(s, command, arg);
      AskCalls(s.(queues := Enqueue(s.queues, command, x)), command, x);
    case Locating(file) => AskCalls(s, BreakpointLocations, Path(file));
    case Loading(reference, callback) => AskCalls(s.(sources := Wait(s.sources, callback)), Source, Number(reference));
    case Evaluating(callback) => AskCalls(s.(evaluations := Wait(s.evaluations, callback)), Evaluate, Nothing);
    case Plain(command, arg) => AskCalls(s, command, Resolved(s, command, arg));
    case Incoming(m) => MessageCalls(s, m);
    case _ =>
  }

  /** How many responses of a kind found a callback waiting since the session began, `n` before. */
  ghost function Calls(s: State, actions: seq<Action>, command: Command, n: nat): nat
    requires forall a | a in actions :: Possible(a)
    decreases |actions|
  {
    if actions == [] then n
    else
      var a := actions[0];
      var waiting := if command.Evaluate? then s.evaluations.waiting else s.sources.waiting;
      var m := if Resets(s, a) then 0 else if Responds(s, a, command) && waiting != [] then n + 1 else n;
      Calls(After(s, a), actions[1..], command, m)
  }

  /** In every run, the callbacks called are as many as the responses that found one waiting. */
  lemma {:induction false} CallsAreCounted(s: State, actions: seq<Action>)
    requires forall a | a in actions :: Possible(a)
    ensures |Run(s, actions).evaluations.called| == Calls(s, actions, Evaluate, |s.evaluations.called|)
    ensures |Run(s, actions).sources.called| == Calls(s, actions, Source, |s.sources.called|)
    decreases |actions|
  {
    hide After, Resets;
    if actions != [] {
      StepCalls(s, actions[0]);
      CallsAreCounted(After(s, actions[0]), actions[1..]);
    }
  }

  // ---------------------------------------------------------------- events

  /** What an event tells, apart from log events and the end of the handshake. */
  datatype Told = Event(name: EventName) | Reply(command: Command) | Terminal

  function TellsOf(e: Emitted): seq<Told> {
    match e
    case Notified(name) => [Event(name)]
    case Answered(command, _, _) => if command.Initialize? then [] else [Reply(command)]
    case RunInTerminalAsked => [Terminal]
    case _ => []
  }

  function Tells(events: seq<Emitted>): seq<Told> {
    if events == [] then [] else Tells(events[..|events| - 1]) + TellsOf(events[|events| - 1])
  }

  /** What the client is to tell of a message. */
  function DueOf(m: Message): seq<Told> {
    match m
    case Notification(Stopped, _) => [Event(Stopped)]
    case Notification(Process, _) => [Event(Process)]
    case Notification(Exited, _) => [Event(Exited)]
    case Notification(Terminated, _) => [Event(Terminated)]
    case Notification(Initialized, _) => [Event(Initialized)]
    case Notification(Output, _) => [Event(Output)]
    case Notification(Breakpoint, _) => [Event(Breakpoint)]
    case Notification(Continued, _) => [Event(Continued)]
    case Notification(Module, _) => [Event(Module)]
    case Response(StackTrace, _, _) => [Reply(StackTrace)]
    case Response(Scopes, _, _) => [Reply(Scopes)]
    case Response(Variables, _, _) => [Reply(Variables)]
    case Response(BreakpointLocations, _, _) => [Reply(BreakpointLocations)]
    case Response(SetFunctionBreakpoints, _, _) => [Reply(SetFunctionBreakpoints)]
    case Response(SetBreakpoints, _, _) => [Reply(SetBreakpoints)]
    case Response(ConfigurationDone, _, _) => [Reply(ConfigurationDone)]
    case Response(Launch, _, _) => [Reply(Launch)]
    case Response(Threads, _, _) => [Reply(Threads)]
    case Reverse(RunInTerminal) => [Terminal]
    case _ => []
  }

  function Due(messages: seq<Message>): seq<Told> {
    if messages == [] then [] else Due(messages[..|messages| - 1]) + DueOf(messages[|messages| - 1])
  }

  lemma TellsNext(events: seq<Emitted>, e: Emitted)
    ensures Tells(events + [e]) == Tells(events) + TellsOf(e)
  {
    assert (events + [e])[..|events|] == events;
  }

  lemma DueNext(messages: seq<Message>, m: Message)
    ensures Due(messages + [m]) == Due(messages) + DueOf(m)
  {
    assert (messages + [m])[..|messages|] == messages;
  }

  /** Of each message since the handshake the client has told what is due, in their order. */
  predicate Reported(s: State) {
    s.since <= |s.trace| && Tells(s.trace[s.since..]) == Due(s.passed)
  }

  lemma EmitTells(s: State, e: Emitted)
    requires s.since <= |s.trace|
    ensures var t := Emit(s, e);
      t.since <= |t.trace| && Tells(t.trace[t.since..]) == Tells(s.trace[s.since..]) + TellsOf(e)
  {
    assert (s.trace + [e])[s.since..] == s.trace[s.since..] + [e];
    TellsNext(s.trace[s.since..], e);
  }

  /** `t` has told `more` than `s`, of the same messages. */
  predicate TellsMore(s: State, t: State, more: seq<Told>) {
    && s.since == t.since <= |t.trace| && s.since <= |s.trace| && t.passed == s.passed
    && Tells(t.trace[t.since..]) == Tells(s.trace[s.since..]) + more
  }

  lemma NothingMore(s: State)
    requires s.since <= |s.trace|
    ensures TellsMore(s, s, [])
  {
    assert Tells(s.trace[s.since..]) + [] == Tells(s.trace[s.since..]);
  }

  lemma AnswerTells(s: State, command: Command, ref: Argument, q: int)
    requires s.since <= |s.trace|
    ensures TellsMore(s, Answer(s, command, ref, q), if command.Initialize? then [] else [Reply(command)])
  {
    EmitTells(s.(requests := Take(s.requests, q)), Answered(command, ref, Named(s.requests, q)));
  }

  /** Fields that have no part in this may change. */
  lemma TellsFrom(r: State, s: State, t: State, more: seq<Told>)
    requires TellsMore(r, t, more) && s.since == r.since && s.trace == r.trace && s.passed == r.passed
    ensures TellsMore(s, t, more)
  {
  }

  lemma ResponseTells(s: State, command: Command, q: int, locations: bool)
    requires s.since <= |s.trace|
    ensures TellsMore(s, HandleResponse(s, command, q), DueOf(Response(command, q, locations)))
  {
    NothingMore(s);
    hide TellsMore, Answer;
    var t, due := HandleResponse(s, command, q), DueOf(Response(command, q, locations));
    if Tracked(command) {
      var r := s.(queues := Dequeue(s.queues, command));
      AnswerTells(r, command, Oldest(s.queues, command), q);
      TellsFrom(r, s, t, due);
    } else if command.BreakpointLocations? && q in s.filepaths {
      var r := s.(filepaths := s.filepaths - {q});
      AnswerTells(r, command, Path(s.filepaths[q]), q);
      TellsFrom(r, s, t, due);
    } else if Takes(command) {
      AnswerTells(s, command, Nothing, q);
    } else {
      SameTells(s, t);
    }
  }

  lemma SameTells(s: State, t: State)
    requires s.since <= |s.trace| && s.since == t.since && s.trace == t.trace && s.passed == t.passed
    ensures TellsMore(s, t, [])
  {
    NothingMore(s);
  }

  lemma EventTells(s: State, name: EventName, thread: int)
    requires s.since <= |s.trace|
    ensures TellsMore(s, HandleEvent(s, name, thread), DueOf(Notification(name, thread)))
  {
    EmitTells(s, Notified(name));
    NothingMore(s);
  }

  lemma OtherTells(s: State, m: Message)
    requires s.since <= |s.trace| && !m.Notification? && !m.Response?
    ensures TellsMore(s, if m == Reverse(RunInTerminal) then Emit(s, RunInTerminalAsked) else s, DueOf(m))
  {
    EmitTells(s, RunInTerminalAsked);
    NothingMore(s);
  }

  lemma LogTells(s: State)
    requires s.since <= |s.trace|
    ensures TellsMore(s, LogIt(s), []) && LogIt(s).handshake == s.handshake
  {
    EmitTells(s, Log);
    NothingMore(s);
  }

  lemma GreetTells(s: State, m: Message)
    requires s.since <= |s.trace|
    ensures TellsMore(s, Greet(s, m), [])
  {
    EmitTells(s, Answered(Initialize, Nothing, None));
    NothingMore(s);
  }

  /** A message that passed the handshake adds what is due of it. */
  lemma PassedTells(s: State, m: Message)
    requires s.since <= |s.trace| && s.handshake.Completed?
    ensures var t := LogIt(s); TellsMore(t.(passed := t.passed + [m]), Receive(s, m), DueOf(m))
  {
    LogTells(s);
    var t := LogIt(s);
    var u := t.(passed := t.passed + [m]);
    assert u.since <= |u.trace|;
    hide TellsMore, LogIt, HandleEvent, HandleResponse, Emit;
    match m
    case Notification(name, thread) => EventTells(u, name, thread);
    case Response(command, q, locations) => ResponseTells(u, command, q, locations);
    case _ => OtherTells(u, m);
  }

  lemma ReceiveReports(s: State, m: Message)
    requires Reported(s)
    ensures Reported(Receive(s, m))
  {
    LogTells(s);
    var t := LogIt(s);
    if !s.handshake.Completed? {
      GreetTells(t, m);
    } else {
      PassedTells(s, m);
      DueNext(t.passed, m);
    }
    hide Tells, Due, DueOf, LogIt, Greet, HandleResponse, HandleEvent, Emit;
    var none: seq<Told> := [];
    var told := Tells(s.trace[s.since..]);
    assert told + none == told;
  }

  lemma AskReports(s: State, command: Command, arg: Argument)
    requires Reported(s)
    ensures Reported(Ask(s, command, arg))
  {
    EmitTells(s, Log);
    assert Tells(s.trace[s.since..]) + [] == Tells(s.trace[s.since..]);
    hide Tells;
    assert Tells([]) == [] by {
      NothingToTell();
    }
  }

  lemma NothingToTell()
    ensures Tells([]) == [] && Due([]) == []
  {
  }

  lemma FreshIsReported(t: State)
    requires t.since == |t.trace| && t.passed == []
    ensures Reported(t)
  {
    NothingToTell();
  }

  lemma SameIsReported(s: State, t: State)
    requires Reported(s) && t.since == s.since && t.trace == s.trace && t.passed == s.passed
    ensures Reported(t)
  {
  }

  lemma LogIsReported(s: State)
    requires Reported(s)
    ensures Reported(LogIt(s))
  {
    LogTells(s);
  }

  lemma StepReports(s: State, a: Action)
    requires Reported(s) && Possible(a)
    ensures Reported(After(s, a))
  {
    hide Ask, Receive, Reported, LogIt;
    var t := After(s, a);
    match a
    case SetTransport(_) | ResetIt | ConnectionError => FreshIsReported(t);
    case SetWantsLogEvents(_) => SameIsReported(s, t);
    case Responding =>
      LogIsReported(s);
      if !s.connected {
        FreshIsReported(t);
      }
    case Incoming(m) => ReceiveReports(s, m);
    case _ => RequestReports(s, a);
  }

  lemma RequestReports(s: State, a: Action)
    requires Reported(s) && Possible(a)
    requires a.Initialization? || a.Launching? || a.Tracking? || a.Locating? || a.Loading? || a.Evaluating? || a.Plain?
    ensures Reported(After(s, a))
  {
    hide Ask, Reported;
    var u := match a
      case Launching => s.(activeThread := NOT_FOUND)
      case Tracking(command, arg) => s.(queues := Enqueue(s.queues, command, Resolved(s, command, arg)))
      case Loading(reference, callback) => s.(sources := Wait(s.sources, callback))
      case Evaluating(callback) => s.(evaluations := Wait(s.evaluations, callback))
      case _ => s;
    var command := match a
      case Initialization => Initialize
      case Launching => Launch
      case Tracking(c, _) => c
      case Locating(_) => BreakpointLocations
      case Loading(_, _) => Source
      case Evaluating(_) => Evaluate
      case Plain(c, _) => c
      case _ => OtherCommand;
    var arg := match a
      case Tracking(c, x) => Resolved(s, c, x)
      case Locating(file) => Path(file)
      case Loading(reference, _) => Number(reference)
      case Plain(c, x) => Resolved(s, c, x)
      case _ => Nothing;
    SameIsReported(s, u);
    AskReports(u, command, arg);
    if Sends(s, a) {
      SameIsReported(Ask(u, command, arg), After(s, a));
    }
  }

  /** In every run, the events of the session, but for log events and the end of the handshake, are those
      that are due of its messages since the handshake, one for each and in their order. */
  lemma {:induction false} EventsInOrder(s: State, actions: seq<Action>)
    requires Reported(s) && forall a | a in actions :: Possible(a)
    ensures Reported(Run(s, actions))
    decreases |actions|
  {
    hide After, Reported;
    if actions != [] {
      StepReports(s, actions[0]);
      EventsInOrder(After(s, actions[0]), actions[1..]);
    }
  }

  lemma StartIsReported()
    ensures Reported(START)
  {
    NothingToTell();
  }

  // ---------------------------------------------------------------- fields

  /** The thread that is active after a step. */
  function ThreadStep(s: State, a: Action, thread: int): int {
    if Resets(s, a) || a.Launching? then -1
    else if Heard(s, a) && a.m.Notification? && a.m.name.Stopped? then a.m.thread
    else thread
  }

  /** How far the handshake is after a step. */
  function HandshakeStep(s: State, a: Action): Handshake {
    if a.Initialization? then InProgress
    else if Resets(s, a) then NotPerformed
    else if a.Incoming? && a.m.Response? && a.m.command.Initialize? then Completed
    else s.handshake
  }

  predicate FieldStep(s: State, a: Action, t: State) {
    && t.activeThread == ThreadStep(s, a, s.activeThread)
    && t.handshake == HandshakeStep(s, a)
    && t.connected == (if a.SetTransport? then a.given else s.connected && !Resets(s, a))
    && t.logging == (if a.SetWantsLogEvents? then a.b else s.logging)
    && t.locations == (!Resets(s, a) && (s.locations ||
         (a.Incoming? && !s.handshake.Completed? && a.m.Response? && a.m.command.Initialize? && a.m.locations)))
  }

  predicate SameFields(s: State, t: State) {
    && t.activeThread == s.activeThread && t.handshake == s.handshake && t.connected == s.connected
    && t.logging == s.logging && t.locations == s.locations
  }

  lemma AskFields(s: State, command: Command, arg: Argument)
    ensures var t := Ask(s, command, arg);
      if s.connected then SameFields(s, t) else SameFields(Clear(s), t)
  {
  }

  lemma ResponseFields(s: State, command: Command, q: int)
    ensures SameFields(s, HandleResponse(s, command, q))
  {
    hide Dequeue, Oldest, Take, Named, CallNext;
  }

  lemma ReceiveFields(s: State, m: Message)
    ensures FieldStep(s, Incoming(m), Receive(s, m))
  {
    hide HandleResponse;
    if s.handshake.Completed? && m.Response? {
      var t := LogIt(s);
      ResponseFields(t.(passed := t.passed + [m]), m.command, m.requestSeq);
    }
  }

  /** After a step: the active thread, the handshake, and the flags. */
  lemma StepFields(s: State, a: Action)
    requires Possible(a)
    ensures FieldStep(s, a, After(s, a))
  {
    hide Ask, Receive;
    match a
    case Initialization => AskFields(s, Initialize, Nothing);
    case Launching => AskFields(s.(activeThread := NOT_FOUND), Launch, Nothing);
    case Tracking(command, arg) =>
      var x := Resolved(s, command, arg);
      AskFields(s.(queues := Enqueue(s.queues, command, x)), command, x);
    case Locating(file) => AskFields(s, BreakpointLocations, Path(file));
    case Loading(reference, callback) => AskFields(s.(sources := Wait(s.sources, callback)), Source, Number(reference));
    case Evaluating(callback) => AskFields(s.(evaluations := Wait(s.evaluations, callback)), Evaluate, Nothing);
    case Plain(command, arg) => AskFields(s, command, Resolved(s, command, arg));
    case Incoming(m) => ReceiveFields(s, m);
    case _ =>
  }

  /** The thread of the latest stopped event since the latest launch or reset, `thread` before. */
  ghost function Latest(s: State, actions: seq<Action>, thread: int): int
    requires forall a | a in actions :: Possible(a)
    decreases |actions|
  {
    if actions == [] then thread
    else Latest(After(s, actions[0]), actions[1..], ThreadStep(s, actions[0], thread))
  }

  /** In every run, the active thread is that of the latest stopped event. */
  lemma {:induction false} ThreadIsLatest(s: State, actions: seq<Action>)
    requires forall a | a in actions :: Possible(a)
    ensures Run(s, actions).activeThread == Latest(s, actions, s.activeThread)
    decreases |actions|
  {
    hide After, ThreadStep;
    if actions != [] {
      StepFields(s, actions[0]);
      ThreadIsLatest(After(s, actions[0]), actions[1..]);
    }
  }

  // ---------------------------------------------------------------- requests

  /** A request that is sent is in flight under the next number, with its command and argument; what
      was in flight stays, and a log event is fired if they are wanted. */
  lemma AskSends(s: State, command: Command, arg: Argument)
    requires s.connected && s.requests.counter + 1 !in s.requests.inFlight
    ensures var t, n := Ask(s, command, arg), s.requests.counter + 1;
      && t.requests.counter == n
      && t.requests.inFlight == s.requests.inFlight[n := Request(s.requests.made, n, command, arg)]
      && t.trace == s.trace + if s.logging then [Log] else []
  {
  }

  /** -1 stands for the active thread. */
  function Threaded(s: State, thread: int): Argument {
    Number(if thread == -1 then s.activeThread else thread)
  }

  /** The request that a call sends, if it sends one. */
  function Sent(s: State, a: Action): Option<(Command, Argument)> {
    match a
    case Initialization => Some((Initialize, Nothing))
    case Launching => Some((Launch, Nothing))
    case Evaluating(_) => Some((Evaluate, Nothing))
    case Loading(reference, _) => if reference > 0 then Some((Source, Number(reference))) else None
    case Locating(file) => if s.locations then Some((BreakpointLocations, Path(file))) else None
    case Tracking(StackTrace, Number(thread)) => Some((StackTrace, Threaded(s, thread)))
    case Tracking(command, arg) => Some((command, arg))
    case Plain(command, Number(thread)) => Some((command, Threaded(s, thread)))
    case Plain(command, arg) => Some((command, arg))
    case _ => None
  }

  /** With a transport, a call puts the one request that it sends in flight, under the next number. */
  lemma CallSends(s: State, a: Action)
    requires Possible(a) && !a.Incoming? && s.connected && !Resets(s, a)
    requires s.requests.counter + 1 !in s.requests.inFlight
    ensures var r, t, sent := s.requests, After(s, a).requests, Sent(s, a);
      && (sent.None? ==> t == r)
      && (sent.Some? ==>
            && t.counter == r.counter + 1
            && t.inFlight == r.inFlight[t.counter := Request(r.made, t.counter, sent.value.0, sent.value.1)])
  {
    var u := match a
      case Launching => s.(activeThread := NOT_FOUND)
      case Tracking(command, arg) => s.(queues := Enqueue(s.queues, command, Resolved(s, command, arg)))
      case Loading(_, callback) => s.(sources := Wait(s.sources, callback))
      case Evaluating(callback) => s.(evaluations := Wait(s.evaluations, callback))
      case _ => s;
    assert u.requests == s.requests && u.connected;
    var request := Sent(s, a);
    if request.Some? {
      ArgumentIs(s, a);
      AskSends(u, request.value.0, request.value.1);
    }
    hide Ask, Sent;
  }

  lemma ArgumentIs(s: State, a: Action)
    requires Possible(a)
    ensures a.Tracking? ==> Sent(s, a) == Some((a.command, Resolved(s, a.command, a.arg)))
    ensures a.Plain? ==> Sent(s, a) == Some((a.command, Resolved(s, a.command, a.arg)))
  {
  }

  /** The responses without a queue: one event with the request that is in flight under their number. */
  lemma PlainAnswer(s: State, command: Command, q: int, locations: bool)
    requires s.handshake.Completed?
    requires command in {SetFunctionBreakpoints, ConfigurationDone, Launch, Threads}
    ensures var request := if q in s.requests.inFlight then Some(s.requests.inFlight[q]) else None;
      Receive(s, Response(command, q, locations)).trace ==
        s.trace + (if s.logging then [Log] else []) + [Answered(command, Nothing, request)]
  {
    hide Take;
  }

  /** The events of a call: a lost connection where one is reported or a send has no transport, and a
      log event for what is sent if they are wanted. */
  lemma CallTells(s: State, a: Action)
    requires Possible(a) && !a.Incoming?
    ensures After(s, a).trace == s.trace +
      if a.ConnectionError? || (Sends(s, a) && !s.connected) then [LostConnection]
      else if Sends(s, a) && s.logging then [Log]
      else []
  {
    assert s.trace + [] == s.trace;
    var u := match a
      case Launching => s.(activeThread := NOT_FOUND)
      case Tracking(command, arg) => s.(queues := Enqueue(s.queues, command, Resolved(s, command, arg)))
      case Loading(_, callback) => s.(sources := Wait(s.sources, callback))
      case Evaluating(callback) => s.(evaluations := Wait(s.evaluations, callback))
      case _ => s;
    AllAsksTell(u);
    assert u.trace == s.trace && u.connected == s.connected && u.logging == s.logging;
    hide Ask;
  }

  lemma AllAsksTell(s: State)
    ensures forall command, arg ::
      Ask(s, command, arg).trace == s.trace + if !s.connected then [LostConnection] else if s.logging then [Log] else []
  {
    forall command, arg
      ensures Ask(s, command, arg).trace ==
        s.trace + if !s.connected then [LostConnection] else if s.logging then [Log] else []
    {
      AskTells(s, command, arg);
    }
  }

  lemma AskTells(s: State, command: Command, arg: Argument)
    ensures Ask(s, command, arg).trace ==
      s.trace + if !s.connected then [LostConnection] else if s.logging then [Log] else []
  {
    assert s.trace + [] == s.trace;
  }
}
