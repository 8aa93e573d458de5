/** What holds in every run of a session: the ledger of requests, the gate, the callbacks, and
    the agreement of the queues with the requests in flight. */
module SessionProofs {
  import opened Wrappers
  import opened Session

  // ---------------------------------------------------------------- the ledger

  /** Each request in flight is under its own number, which the counter has reached. */
  ghost predicate Filed(m: map<int, Request>, counter: nat) {
    forall q | q in m :: 1 <= q <= counter && m[q].number == q
  }

  /** Each request that was created is in flight, was handed to one event, was freed by Reset or
      was forgotten by a failed send, and is only one of these. */
  ghost predicate Balanced(r: Requests) {
    && r.created == Values(r.inFlight) + r.handed + r.freed + r.abandoned
    && Values(r.inFlight) !! r.handed !! r.freed !! r.abandoned
    && (forall x | x in r.created :: x.serial < r.made)
  }

  /** The requests that events carry are the ones handed out, and no two events carry the same. */
  ghost predicate HandedOnce(trace: seq<Emitted>, handed: set<Request>) {
    && (forall e | e in trace && e.Answered? && e.request.Some? :: e.request.value in handed)
    && (forall i, j | 0 <= i < j < |trace| && trace[i].Answered? && trace[j].Answered?
                      && trace[i].request.Some? && trace[j].request.Some? ::
          trace[i].request.value != trace[j].request.value)
  }

  ghost predicate Kept(r: Requests) {
    Filed(r.inFlight, r.counter) && Balanced(r)
  }

  ghost predicate Ledger(s: State) {
    Kept(s.requests) && HandedOnce(s.trace, s.requests.handed)
  }

  lemma ValuesWith(m: map<int, Request>, x: Request)
    requires x.number !in m
    ensures Values(m[x.number := x]) == Values(m) + {x}
  {
    var n := m[x.number := x];
    assert forall q | q in m :: n[q] == m[q];
    assert n[x.number] == x;
  }

  lemma ValuesWithout(m: map<int, Request>, q: int, counter: nat)
    requires Filed(m, counter) && q in m
    ensures Values(m - {q}) == Values(m) - {m[q]}
  {
    assert forall p | p in m && p != q :: p in m - {q} && (m - {q})[p] == m[p] != m[q];
  }

  lemma FreeKeeps(r: Requests)
    requires Kept(r)
    ensures Kept(Free(r))
  {
    assert Values(map[]) == {};
  }

  lemma FileKeeps(r: Requests, x: Request)
    requires Kept(r) && x.serial == r.made && x.number == r.counter + 1
    ensures Kept(File(Make(r, x), x))
  {
    ValuesWith(r.inFlight, x);
  }

  lemma AbandonKeeps(r: Requests, x: Request)
    requires Kept(r) && x.serial == r.made
    ensures Kept(Abandon(Free(Make(r, x)), x))
  {
    assert Values(map[]) == {};
  }

  lemma TakeKeeps(r: Requests, q: int)
    requires Kept(r)
    ensures Kept(Take(r, q))
    ensures Named(r, q).Some? ==> Named(r, q).value !in r.handed
  {
    if q in r.inFlight {
      ValuesWithout(r.inFlight, q, r.counter);
    }
  }

  /** An event without a request, or with one that was not handed out before. */
  lemma EmitKeeps(trace: seq<Emitted>, handed: set<Request>, e: Emitted)
    requires HandedOnce(trace, handed)
    requires e.Answered? && e.request.Some? ==> e.request.value !in handed
    ensures HandedOnce(trace + [e], if e.Answered? && e.request.Some? then handed + {e.request.value} else handed)
  {
  }

  lemma AskKeeps(s: State, command: Command, arg: Argument)
    requires Ledger(s)
    ensures Ledger(Ask(s, command, arg))
  {
    hide Kept, HandedOnce;
    var x := NewRequest(s, command, arg);
    FileKeeps(s.requests, x);
    AbandonKeeps(s.requests, x);
    EmitKeeps(s.trace, s.requests.handed, Log);
    EmitKeeps(s.trace, s.requests.handed, LostConnection);
  }

  lemma AnswerKeeps(s: State, command: Command, ref: Argument, q: int)
    requires Ledger(s)
    ensures Ledger(Answer(s, command, ref, q))
  {
    hide Kept, HandedOnce;
    TakeKeeps(s.requests, q);
    EmitKeeps(s.trace, s.requests.handed, Answered(command, ref, Named(s.requests, q)));
  }

  lemma ResponseKeeps(s: State, command: Command, q: int)
    requires Ledger(s)
    ensures Ledger(HandleResponse(s, command, q))
  {
    hide Kept, HandedOnce, Answer;
    match command
    case StackTrace | Scopes | Variables | SetBreakpoints =>
      AnswerKeeps(s.(queues := Dequeue(s.queues, command)), command, Oldest(s.queues, command), q);
    case BreakpointLocations =>
      if q in s.filepaths {
        AnswerKeeps(s.(filepaths := s.filepaths - {q}), command, Path(s.filepaths[q]), q);
      } else {
        AnswerKeeps(s, command, Nothing, q);
      }
    case _ => AnswerKeeps(s, command, Nothing, q);
  }

  lemma ReceiveKeeps(s: State, m: Message)
    requires Ledger(s)
    ensures Ledger(Receive(s, m))
  {
    hide Kept, HandedOnce, HandleResponse;
    EmitKeeps(s.trace, s.requests.handed, Log);
    var t := LogIt(s);
    if !s.handshake.Completed? {
      EmitKeeps(t.trace, s.requests.handed, Answered(Initialize, Nothing, None));
    } else {
      var u := t.(passed := t.passed + [m]);
      match m
      case Notification(name, thread) => EmitKeeps(u.trace, s.requests.handed, Notified(name));
      case Response(command, q, _) => ResponseKeeps(u, command, q);
      case _ => EmitKeeps(u.trace, s.requests.handed, RunInTerminalAsked);
    }
  }

  lemma LedgerKept(s: State, a: Action)
    requires Ledger(s) && Possible(a)
    ensures Ledger(After(s, a))
  {
    hide Kept, HandedOnce, Ask, Receive;
    FreeKeeps(s.requests);
    match a
    case ConnectionError => EmitKeeps(s.trace, s.requests.handed, LostConnection);
    case Responding =>
      EmitKeeps(s.trace, s.requests.handed, LostConnection);
      EmitKeeps(s.trace, s.requests.handed, Log);
    case Initialization => AskKeeps(s, Initialize, Nothing);
    case Launching => AskKeeps(s.(activeThread := NOT_FOUND), Launch, Nothing);
    case Tracking(command, arg) =>
      var x := Resolved(s, command, arg);
      AskKeeps(s.(queues := Enqueue(s.queues, command, x)), command, x);
    case Locating(file) => AskKeeps(s, BreakpointLocations, Path(file));
    case Loading(reference, callback) => AskKeeps(s.(sources := Wait(s.sources, callback)), Source, Number(reference));
    case Evaluating(callback) => AskKeeps(s.(evaluations := Wait(s.evaluations, callback)), Evaluate, Nothing);
    case Plain(command, arg) => AskKeeps(s, command, Resolved(s, command, arg));
    case Incoming(m) => ReceiveKeeps(s, m);
    case _ =>
  }

  // ---------------------------------------------------------------- the gate and the flags

  /** Nothing but log events. */
  predicate Quiet(events: seq<Emitted>) {
    forall e | e in events :: e.Log?
  }

  /** The first event that is not a log event is the initialize response. */
  predicate Opened(events: seq<Emitted>) {
    events != [] && if events[0].Log? then Opened(events[1..]) else events[0] == Answered(Initialize, Nothing, None)
  }

  lemma {:induction false} OpenedGrows(events: seq<Emitted>, e: Emitted)
    ensures Opened(events) ==> Opened(events + [e])
    ensures Quiet(events) && e == Answered(Initialize, Nothing, None) ==> Opened(events + [e])
  {
    if events != [] {
      assert (events + [e])[1..] == events[1..] + [e];
      OpenedGrows(events[1..], e);
    } else {
      assert ([] + [e])[1..] == [];
    }
  }

  /** In a session only log events precede the initialize response, and while the handshake counts
      as completed there has been one. */
  predicate Gated(s: State) {
    && s.since <= |s.trace|
    && (Quiet(s.trace[s.since..]) || Opened(s.trace[s.since..]))
    && (s.handshake.Completed? ==> Opened(s.trace[s.since..]))
  }

  /** What a message says about whether the debuggee is stopped. */
  function Verdict(m: Message): Option<bool> {
    match m
    case Notification(Stopped, _) => Some(true)
    case Notification(Continued, _) => Some(false)
    case Response(StepIn, _, _) | Response(StepOut, _, _) => Some(false)
    case Response(Next, _, _) | Response(Continue, _, _) => Some(false)
    case _ => None
  }

  function Later(before: bool, verdict: Option<bool>): bool {
    if verdict.Some? then verdict.value else before
  }

  /** The latest of the messages that say so says that the debuggee is stopped. */
  predicate Interactive(messages: seq<Message>) {
    messages != [] && Later(Interactive(messages[..|messages| - 1]), Verdict(messages[|messages| - 1]))
  }

  lemma InteractiveNext(messages: seq<Message>, m: Message)
    ensures Interactive(messages + [m]) == Later(Interactive(messages), Verdict(m))
  {
    assert (messages + [m])[..|messages|] == messages;
  }

  /** Every callback is called at most once, in the order in which they were given, whichever
      request a response names. */
  predicate InTurn(c: Callbacks) {
    c.given == c.called + c.waiting
  }

  lemma GateEmits(s: State, e: Emitted)
    requires Gated(s)
    ensures e.Log? || Opened(s.trace[s.since..]) ==> Gated(Emit(s, e))
    ensures e == Answered(Initialize, Nothing, None) ==> Gated(Emit(s, e)) && Opened(Emit(s, e).trace[s.since..])
  {
    assert (s.trace + [e])[s.since..] == s.trace[s.since..] + [e];
    OpenedGrows(s.trace[s.since..], e);
  }

  lemma AskGated(s: State, command: Command, arg: Argument)
    requires Gated(s)
    ensures Gated(Ask(s, command, arg))
  {
    GateEmits(s, Log);
  }

  lemma ReceiveGated(s: State, m: Message)
    requires Gated(s)
    ensures Gated(Receive(s, m))
  {
    hide Opened, Quiet, HandleResponse;
    GateEmits(s, Log);
    var t := LogIt(s);
    if !s.handshake.Completed? {
      GateEmits(t, Answered(Initialize, Nothing, None));
    } else {
      var u := t.(passed := t.passed + [m]);
      match m
      case Notification(name, thread) => GateEmits(u, Notified(name));
      case Response(command, q, _) => ResponseGated(u, command, q);
      case _ => GateEmits(u, RunInTerminalAsked);
    }
  }

  lemma AnswerGated(s: State, command: Command, ref: Argument, q: int)
    requires Gated(s) && s.handshake.Completed?
    ensures Gated(Answer(s, command, ref, q))
  {
    GateEmits(s, Answered(command, ref, Named(s.requests, q)));
  }

  lemma ResponseGated(s: State, command: Command, q: int)
    requires Gated(s) && s.handshake.Completed?
    ensures Gated(HandleResponse(s, command, q))
  {
    hide Opened, Quiet, Answer;
    match command
    case StackTrace | Scopes | Variables | SetBreakpoints =>
      AnswerGated(s.(queues := Dequeue(s.queues, command)), command, Oldest(s.queues, command), q);
    case BreakpointLocations =>
      if q in s.filepaths {
        AnswerGated(s.(filepaths := s.filepaths - {q}), command, Path(s.filepaths[q]), q);
      } else {
        AnswerGated(s, command, Nothing, q);
      }
    case _ => AnswerGated(s, command, Nothing, q);
  }

  lemma GateKept(s: State, a: Action)
    requires Gated(s) && Possible(a)
    ensures Gated(After(s, a))
  {
    hide Ask, Receive;
    match a
    case Initialization => AskGated(s, Initialize, Nothing);
    case Launching => AskGated(s.(activeThread := NOT_FOUND), Launch, Nothing);
    case Tracking(command, arg) =>
      var x := Resolved(s, command, arg);
      AskGated(s.(queues := Enqueue(s.queues, command, x)), command, x);
    case Locating(file) => AskGated(s, BreakpointLocations, Path(file));
    case Loading(reference, callback) => AskGated(s.(sources := Wait(s.sources, callback)), Source, Number(reference));
    case Evaluating(callback) => AskGated(s.(evaluations := Wait(s.evaluations, callback)), Evaluate, Nothing);
    case Plain(command, arg) => AskGated(s, command, Resolved(s, command, arg));
    case Responding => GateEmits(s, Log);
    case Incoming(m) => ReceiveGated(s, m);
    case _ =>
  }

  /** A request that is sent changes nothing but the requests; one that cannot be sent resets. */
  lemma AskLeaves(s: State, command: Command, arg: Argument)
    ensures var t := Ask(s, command, arg);
      if s.connected then t == s.(requests := t.requests, trace := t.trace)
      else t == Clear(s).(requests := t.requests, trace := t.trace, since := t.since)
  {
  }

  predicate Flagged(s: State) {
    && s.canInteract == Interactive(s.passed)
    && InTurn(s.sources) && InTurn(s.evaluations)
  }

  predicate SameFlags(s: State, t: State) {
    && t.passed == s.passed && t.canInteract == s.canInteract
    && t.sources == s.sources && t.evaluations == s.evaluations
  }

  lemma AnswerFlagged(s: State, command: Command, ref: Argument, q: int)
    ensures SameFlags(s, Answer(s, command, ref, q))
  {
  }

  lemma CallNextInTurn(c: Callbacks)
    ensures InTurn(c) ==> InTurn(CallNext(c))
  {
    if c.waiting != [] {
      assert c.called + c.waiting == c.called + [c.waiting[0]] + c.waiting[1..];
    }
  }

  predicate Steps(command: Command) {
    command.StepIn? || command.StepOut? || command.Next? || command.Continue?
  }

  lemma AnsweredFlagged(s: State, command: Command, q: int)
    requires Takes(command)
    ensures SameFlags(s, HandleResponse(s, command, q))
  {
    hide Answer;
    if Tracked(command) {
      AnswerFlagged(s.(queues := Dequeue(s.queues, command)), command, Oldest(s.queues, command), q);
    } else if command.BreakpointLocations? && q in s.filepaths {
      AnswerFlagged(s.(filepaths := s.filepaths - {q}), command, Path(s.filepaths[q]), q);
    } else {
      AnswerFlagged(s, command, Nothing, q);
    }
  }

  lemma ResponseFlagged(s: State, command: Command, q: int)
    ensures var t := HandleResponse(s, command, q);
      && t.passed == s.passed && t.canInteract == (s.canInteract && !Steps(command))
      && (InTurn(s.sources) ==> InTurn(t.sources)) && (InTurn(s.evaluations) ==> InTurn(t.evaluations))
  {
    CallNextInTurn(s.sources);
    CallNextInTurn(s.evaluations);
    hide Answer, CallNext, InTurn;
    if Takes(command) {
      AnsweredFlagged(s, command, q);
      hide HandleResponse;
    }
  }

  lemma EventFlagged(s: State, name: EventName, thread: int)
    ensures var t := HandleEvent(s, name, thread);
      && t.passed == s.passed && t.sources == s.sources && t.evaluations == s.evaluations
      && t.canInteract == Later(s.canInteract, Verdict(Notification(name, thread)))
  {
  }

  lemma ReceiveFlagged(s: State, m: Message)
    requires Flagged(s)
    ensures Flagged(Receive(s, m))
  {
    hide HandleResponse, HandleEvent, Interactive;
    InteractiveNext(s.passed, m);
    var t := LogIt(s);
    if s.handshake.Completed? {
      var u := t.(passed := t.passed + [m]);
      match m
      case Notification(name, thread) => EventFlagged(u, name, thread);
      case Response(command, q, _) => ResponseFlagged(u, command, q);
      case _ =>
    }
  }

  lemma FlagsKept(s: State, a: Action)
    requires Flagged(s) && Possible(a)
    ensures Flagged(After(s, a))
  {
    hide Ask, Receive;
    match a
    case Initialization => AskLeaves(s, Initialize, Nothing);
    case Launching => AskLeaves(s.(activeThread := NOT_FOUND), Launch, Nothing);
    case Tracking(command, arg) =>
      var x := Resolved(s, command, arg);
      AskLeaves(s.(queues := Enqueue(s.queues, command, x)), command, x);
    case Locating(file) => AskLeaves(s, BreakpointLocations, Path(file));
    case Loading(reference, callback) => AskLeaves(s.(sources := Wait(s.sources, callback)), Source, Number(reference));
    case Evaluating(callback) => AskLeaves(s.(evaluations := Wait(s.evaluations, callback)), Evaluate, Nothing);
    case Plain(command, arg) => AskLeaves(s, command, Resolved(s, command, arg));
    case Incoming(m) => ReceiveFlagged(s, m);
    case _ =>
  }
}
