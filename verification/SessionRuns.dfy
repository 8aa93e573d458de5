/** The session's theorems, for every run from a new client on. */
module SessionRuns {
  import opened Wrappers
  import opened Session
  import opened SessionProofs
  import opened SessionQueues
  import opened SessionSteps

  ghost predicate Invariant(s: State) {
    Ledger(s) && Gated(s) && Flagged(s) && Located(s)
  }

  lemma StartHolds()
    ensures Invariant(START) && Agreed(START.queues, START.requests)
  {
    assert Values(map[]) == {};
  }

  lemma StepKeeps(s: State, a: Action)
    requires Invariant(s) && Possible(a)
    ensures Invariant(After(s, a))
  {
    hide After, Flagged, Gated, HandedOnce, Balanced, Recorded;
    LedgerKept(s, a);
    GateKept(s, a);
    FlagsKept(s, a);
    LocatedKept(s, a);
  }

  lemma {:induction false} RunKeeps(s: State, actions: seq<Action>)
    requires Invariant(s) && forall a | a in actions :: Possible(a)
    ensures Invariant(Run(s, actions))
    decreases |actions|
  {
    hide Invariant, After;
    if actions != [] {
      StepKeeps(s, actions[0]);
      RunKeeps(After(s, actions[0]), actions[1..]);
    }
  }

  function One(b: bool): nat {
    if b then 1 else 0
  }

  /** In how many places a request is. */
  ghost function Fates(r: Requests, x: Request): nat {
    One(x in Values(r.inFlight)) + One(x in r.handed) + One(x in r.freed) + One(x in r.abandoned)
  }

  lemma BalancedFates(r: Requests, x: Request)
    requires Balanced(r)
    ensures Fates(r, x) == One(x in r.created)
  {
  }

  /** Each request that was created has exactly one fate, whatever the adapter sends, and an event
      carries only requests that were handed out, each in one event. */
  lemma OneFate(actions: seq<Action>, x: Request)
    requires forall a | a in actions :: Possible(a)
    ensures var s := Run(START, actions);
      Fates(s.requests, x) == One(x in s.requests.created) && HandedOnce(s.trace, s.requests.handed)
  {
    hide Run, Fates, HandedOnce, Balanced;
    StartHolds();
    RunKeeps(START, actions);
    BalancedFates(Run(START, actions).requests, x);
  }

  /** The adapter keeps the order of each kind of request throughout the run. */
  ghost predicate Orderly(s: State, actions: seq<Action>)
    requires forall a | a in actions :: Possible(a)
    decreases |actions|
  {
    actions != [] ==>
      && (s.handshake.Completed? ==> InOrder(s.requests, actions[0]))
      && Orderly(After(s, actions[0]), actions[1..])
  }

  /** In every state of an orderly run the four queues are the arguments of the requests of their
      kind in flight, in the order of their numbers. */
  lemma {:induction false} RunAgrees(s: State, actions: seq<Action>)
    requires Invariant(s) && Agreed(s.queues, s.requests)
    requires (forall a | a in actions :: Possible(a)) && Orderly(s, actions)
    ensures Agreed(Run(s, actions).queues, Run(s, actions).requests)
    decreases |actions|
  {
    hide After, Agreed, InOrder;
    if actions != [] {
      StepKeeps(s, actions[0]);
      AgreementKept(s, actions[0]);
      RunAgrees(After(s, actions[0]), actions[1..]);
    }
  }

  lemma OldestIsInFront(queues: Queues, r: Requests, command: Command, q: int)
    requires Filed(r.inFlight, r.counter) && Agreed(queues, r) && Tracked(command) && IsOldest(r.inFlight, command, q)
    ensures Oldest(queues, command) == r.inFlight[q].arg && r.inFlight[q].number == q
  {
    PendingOldest(r.inFlight, command, q, r.counter);
    DequeueFront(queues, command, r.inFlight[q].arg, Pending(r.inFlight - {q}, command, r.counter));
  }

  /** The one event a response fires behind the log event: it carries the request in flight under
      request_seq and that request's own argument. */
  ghost predicate NamesItsRequest(s: State, command: Command, q: int, locations: bool)
    requires q in s.requests.inFlight
  {
    var x := s.requests.inFlight[q];
    && x.number == q && x.command == command
    && Receive(s, Response(command, q, locations)).trace == LogIt(s).trace + [Answered(command, x.arg, Some(x))]
  }

  /** While queues and requests agree, what comes off the queue belongs to the oldest request of the
      kind; so the event is right exactly when the request it names has the same argument. */
  lemma AnswerMatches(s: State, command: Command, q: int, first: int, locations: bool)
    requires Filed(s.requests.inFlight, s.requests.counter) && Agreed(s.queues, s.requests)
    requires s.handshake.Completed? && Tracked(command) && IsOldest(s.requests.inFlight, command, first)
    requires q in s.requests.inFlight && s.requests.inFlight[q].command == command
    ensures NamesItsRequest(s, command, q, locations)
       <==> s.requests.inFlight[first].arg == s.requests.inFlight[q].arg
  {
    OldestIsInFront(s.queues, s.requests, command, first);
    hide Agreed, Oldest, Take, Dequeue;
    var x, ref := s.requests.inFlight[q], Oldest(s.queues, command);
    var before := LogIt(s).trace;
    assert Receive(s, Response(command, q, locations)).trace == before + [Answered(command, ref, Some(x))];
    assert (before + [Answered(command, ref, Some(x))])[|before|] == Answered(command, ref, Some(x));
    assert (before + [Answered(command, x.arg, Some(x))])[|before|] == Answered(command, x.arg, Some(x));
  }

  /** At the end of every orderly run, the event for a response in order carries the request that
      request_seq names, and what came off the queue is that request's argument. */
  lemma AnswerNamesRequest(actions: seq<Action>, command: Command, q: int, locations: bool)
    requires (forall a | a in actions :: Possible(a)) && Orderly(START, actions)
    requires Run(START, actions).handshake.Completed?
    requires Tracked(command) && IsOldest(Run(START, actions).requests.inFlight, command, q)
    ensures NamesItsRequest(Run(START, actions), command, q, locations)
  {
    hide Run, Orderly, Agreed, NamesItsRequest;
    StartHolds();
    RunKeeps(START, actions);
    RunAgrees(START, actions);
    AnswerMatches(Run(START, actions), command, q, q, locations);
  }

  lemma LocationMatches(s: State, q: int, locations: bool)
    requires Located(s) && Filed(s.requests.inFlight, s.requests.counter) && s.handshake.Completed?
    requires q in s.requests.inFlight && s.requests.inFlight[q].command.BreakpointLocations?
    ensures NamesItsRequest(s, BreakpointLocations, q, locations)
  {
    hide Take;
  }

  /** A breakpointLocations response is matched by number alone: in whatever order they come, the
      event carries the file of the request it names. */
  lemma LocationsNameRequest(actions: seq<Action>, q: int, locations: bool)
    requires (forall a | a in actions :: Possible(a)) && Run(START, actions).handshake.Completed?
    requires q in Run(START, actions).requests.inFlight
    requires Run(START, actions).requests.inFlight[q].command.BreakpointLocations?
    ensures NamesItsRequest(Run(START, actions), BreakpointLocations, q, locations)
  {
    hide Run, NamesItsRequest;
    StartHolds();
    RunKeeps(START, actions);
    LocationMatches(Run(START, actions), q, locations);
  }

  /** A response takes its own request out of flight exactly when the handshake is over and it is of
      a kind that looks for it; so initialize, evaluate, source, step and continue requests stay. */
  lemma OwnResponseTakes(s: State, q: int, locations: bool)
    requires q in s.requests.inFlight
    ensures var command := s.requests.inFlight[q].command;
      q !in Receive(s, Response(command, q, locations)).requests.inFlight <==> s.handshake.Completed? && Takes(command)
  {
    hide HandleResponse;
    var m := Response(s.requests.inFlight[q].command, q, locations);
    var t := LogIt(s);
    ResponseTakes(t.(passed := t.passed + [m]), m.command, q);
  }

  lemma ResponseTakes(s: State, command: Command, q: int)
    ensures HandleResponse(s, command, q).requests == if Takes(command) then Take(s.requests, q) else s.requests
  {
    hide Take, Oldest, Dequeue, Named;
  }

  // ---------------------------------------------------------------- how long a request is in flight

  /** What takes the request under `q` out of flight: a reset, or a response of a kind that looks for
      requests, once the handshake is over, if it names `q`. */
  predicate Ends(s: State, a: Action, q: int) {
    || a.SetTransport? || a.ResetIt? || a.ConnectionError?
    || (a.Incoming? && s.handshake.Completed? && a.m.Response? && Takes(a.m.command) && a.m.requestSeq == q)
  }

  predicate Holds(m: map<int, Request>, q: int, x: Request) {
    q in m && m[q] == x
  }

  ghost predicate Settled(r: Requests, x: Request) {
    x in r.handed || x in r.freed
  }

  lemma AskHolds(s: State, command: Command, arg: Argument, q: int, x: Request)
    requires s.connected
    ensures Holds(s.requests.inFlight, q, x) && q <= s.requests.counter ==>
      Holds(Ask(s, command, arg).requests.inFlight, q, x)
  {
  }

  lemma ReceiveHolds(s: State, m: Message, q: int, x: Request)
    requires Holds(s.requests.inFlight, q, x)
    ensures Holds(Receive(s, m).requests.inFlight, q, x) <==> !Ends(s, Incoming(m), q)
    ensures Ends(s, Incoming(m), q) ==> Settled(Receive(s, m).requests, x)
  {
    hide HandleResponse;
    if s.handshake.Completed? && m.Response? {
      var t := LogIt(s);
      ResponseTakes(t.(passed := t.passed + [m]), m.command, m.requestSeq);
    }
  }

  lemma StepHolds(s: State, a: Action, q: int)
    requires Invariant(s) && Possible(a) && q in s.requests.inFlight
    ensures var x, r := s.requests.inFlight[q], After(s, a).requests;
      (Holds(r.inFlight, q, x) <==> !Ends(s, a, q)) && (Ends(s, a, q) ==> Settled(r, x))
  {
    var x := s.requests.inFlight[q];
    assert s.connected && q <= s.requests.counter;
    hide Ask, Receive, Invariant;
    match a
    case Initialization => AskHolds(s, Initialize, Nothing, q, x);
    case Launching => AskHolds(s.(activeThread := NOT_FOUND), Launch, Nothing, q, x);
    case Tracking(command, arg) =>
      var y := Resolved(s, command, arg);
      AskHolds(s.(queues := Enqueue(s.queues, command, y)), command, y, q, x);
    case Locating(file) => AskHolds(s, BreakpointLocations, Path(file), q, x);
    case Loading(reference, callback) =>
      AskHolds(s.(sources := Wait(s.sources, callback)), Source, Number(reference), q, x);
    case Evaluating(callback) => AskHolds(s.(evaluations := Wait(s.evaluations, callback)), Evaluate, Nothing, q, x);
    case Plain(command, arg) => AskHolds(s, command, Resolved(s, command, arg), q, x);
    case Incoming(m) => ReceiveHolds(s, m, q, x);
    case _ =>
  }

  /** Some step of the run takes the request under `q` out of flight. */
  ghost predicate Ended(s: State, actions: seq<Action>, q: int)
    requires forall a | a in actions :: Possible(a)
    decreases |actions|
  {
    actions != [] && (Ends(s, actions[0], q) || Ended(After(s, actions[0]), actions[1..], q))
  }

  lemma ReceiveSettles(s: State, m: Message, x: Request)
    requires Settled(s.requests, x)
    ensures Settled(Receive(s, m).requests, x)
  {
    hide HandleResponse;
    if s.handshake.Completed? && m.Response? {
      var t := LogIt(s);
      ResponseTakes(t.(passed := t.passed + [m]), m.command, m.requestSeq);
    }
  }

  lemma AskSettles(s: State, command: Command, arg: Argument, x: Request)
    requires Settled(s.requests, x)
    ensures Settled(Ask(s, command, arg).requests, x)
  {
  }

  lemma StepSettles(s: State, a: Action, x: Request)
    requires Settled(s.requests, x) && Possible(a)
    ensures Settled(After(s, a).requests, x)
  {
    hide Ask, Receive;
    match a
    case Initialization => AskSettles(s, Initialize, Nothing, x);
    case Launching => AskSettles(s.(activeThread := NOT_FOUND), Launch, Nothing, x);
    case Tracking(command, arg) =>
      var y := Resolved(s, command, arg);
      AskSettles(s.(queues := Enqueue(s.queues, command, y)), command, y, x);
    case Locating(file) => AskSettles(s, BreakpointLocations, Path(file), x);
    case Loading(reference, callback) =>
      AskSettles(s.(sources := Wait(s.sources, callback)), Source, Number(reference), x);
    case Evaluating(callback) => AskSettles(s.(evaluations := Wait(s.evaluations, callback)), Evaluate, Nothing, x);
    case Plain(command, arg) => AskSettles(s, command, Resolved(s, command, arg), x);
    case Incoming(m) => ReceiveSettles(s, m, x);
    case _ =>
  }

  lemma {:induction false} RunSettles(s: State, actions: seq<Action>, x: Request)
    requires Settled(s.requests, x) && forall a | a in actions :: Possible(a)
    ensures Settled(Run(s, actions).requests, x)
    decreases |actions|
  {
    hide After, Settled;
    if actions != [] {
      StepSettles(s, actions[0], x);
      RunSettles(After(s, actions[0]), actions[1..], x);
    }
  }

  lemma SettledIsGone(r: Requests, q: int, x: Request)
    requires Balanced(r) && Settled(r, x)
    ensures !Holds(r.inFlight, q, x)
  {
    assert q in r.inFlight ==> r.inFlight[q] in Values(r.inFlight);
  }

  /** Over every run, a request stays in flight exactly until a reset, or a response of a kind that
      looks for requests names it; once it is gone it does not come back. */
  lemma {:induction false} InFlightUntil(s: State, actions: seq<Action>, q: int)
    requires Invariant(s) && q in s.requests.inFlight && forall a | a in actions :: Possible(a)
    ensures Holds(Run(s, actions).requests.inFlight, q, s.requests.inFlight[q]) <==> !Ended(s, actions, q)
    decreases |actions|
  {
    if actions != [] {
      var x, t := s.requests.inFlight[q], After(s, actions[0]);
      StepHolds(s, actions[0], q);
      StepKeeps(s, actions[0]);
      hide After, Invariant, Ends, Settled;
      if Ends(s, actions[0], q) {
        RunSettles(t, actions[1..], x);
        RunKeeps(t, actions[1..]);
        InvariantBalances(Run(t, actions[1..]));
        SettledIsGone(Run(t, actions[1..]).requests, q, x);
      } else {
        InFlightUntil(t, actions[1..], q);
      }
    }
  }

  lemma InvariantBalances(s: State)
    requires Invariant(s)
    ensures Balanced(s.requests)
  {
  }

  /** In every run: only log events precede a session's initialize response, and the debugger can be
      interacted with exactly when the latest message that says so says it is stopped. */
  lemma SessionGating(actions: seq<Action>)
    requires forall a | a in actions :: Possible(a)
    ensures var s := Run(START, actions);
      && s.since <= |s.trace|
      && (Quiet(s.trace[s.since..]) || Opened(s.trace[s.since..]))
      && s.canInteract == Interactive(s.passed)
  {
    StartHolds();
    RunKeeps(START, actions);
  }

  /** In every run: the callbacks given in the session are those called and then those that wait, in
      that order, and as many were called as responses found one waiting. */
  lemma CallbacksInTurn(actions: seq<Action>)
    requires forall a | a in actions :: Possible(a)
    ensures var s := Run(START, actions);
      && s.sources.given == s.sources.called + s.sources.waiting
      && s.evaluations.given == s.evaluations.called + s.evaluations.waiting
      && |s.sources.called| == Calls(START, actions, Source, 0)
      && |s.evaluations.called| == Calls(START, actions, Evaluate, 0)
  {
    StartHolds();
    RunKeeps(START, actions);
    CallsAreCounted(START, actions);
    hide Run, Calls, Ledger, Gated, Located;
  }

  /** In every run: the events of the session, but for log events and the end of the handshake, are those
      that are due of its messages since the handshake, in their order; and the active thread is that of
      the latest stopped event. */
  lemma EventsAreDue(actions: seq<Action>)
    requires forall a | a in actions :: Possible(a)
    ensures var s := Run(START, actions);
      && s.since <= |s.trace| && Tells(s.trace[s.since..]) == Due(s.passed)
      && s.activeThread == Latest(START, actions, NOT_FOUND)
  {
    StartIsReported();
    EventsInOrder(START, actions);
    ThreadIsLatest(START, actions);
    hide Run, Tells, Due, Latest;
  }
}
