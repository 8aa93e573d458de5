/** The two ways in which the client matches a response with its request, first in first out and by
    request_seq, agree as long as the adapter answers each kind of request in order. */
module SessionQueues {
  import opened Session
  import opened SessionProofs

  /** The arguments of the requests of one kind that are in flight, by number up to `n`. */
  ghost function Pending(m: map<int, Request>, command: Command, n: nat): seq<Argument> {
    if n == 0 then []
    else Pending(m, command, n - 1) + if n in m && m[n].command == command then [m[n].arg] else []
  }

  function Queue(queues: Queues, command: Command): seq<Argument>
    requires Tracked(command)
  {
    match command
    case StackTrace => queues.frames
    case Scopes => queues.scopes
    case Variables => queues.variables
    case SetBreakpoints => queues.files
  }

  /** The queues list the arguments of the requests in flight in the order of their numbers. */
  ghost predicate Agreed(queues: Queues, r: Requests) {
    forall c | Tracked(c) :: Queue(queues, c) == Pending(r.inFlight, c, r.counter)
  }

  /** `q` is the oldest request of its kind in flight. */
  ghost predicate IsOldest(m: map<int, Request>, command: Command, q: int) {
    && q in m && m[q].command == command
    && forall p | p in m && m[p].command == command :: q <= p
  }

  /** The adapter answers each kind of request in the order in which it was sent. */
  ghost predicate InOrder(r: Requests, a: Action) {
    a.Incoming? && a.m.Response? && Takes(a.m.command) ==>
      if Tracked(a.m.command) then IsOldest(r.inFlight, a.m.command, a.m.requestSeq)
      else a.m.requestSeq in r.inFlight ==> !Tracked(r.inFlight[a.m.requestSeq].command)
  }

  lemma {:induction false} PendingSame(m: map<int, Request>, k: map<int, Request>, command: Command, n: nat)
    requires forall p | 1 <= p <= n ::
      (p in m && m[p].command == command ==> p in k && k[p] == m[p])
      && (p in k && k[p].command == command ==> p in m && m[p] == k[p])
    ensures Pending(m, command, n) == Pending(k, command, n)
  {
    if n > 0 {
      PendingSame(m, k, command, n - 1);
    }
  }

  lemma {:induction false} PendingNone(m: map<int, Request>, command: Command, n: nat)
    requires forall p | 1 <= p <= n && p in m :: m[p].command != command
    ensures Pending(m, command, n) == []
  {
    if n > 0 {
      PendingNone(m, command, n - 1);
    }
  }

  /** The oldest request stands in front. */
  lemma {:induction false} PendingOldest(m: map<int, Request>, command: Command, q: int, n: nat)
    requires IsOldest(m, command, q) && 1 <= q <= n
    ensures Pending(m, command, n) == [m[q].arg] + Pending(m - {q}, command, n)
  {
    if n == q {
      PendingNone(m, command, n - 1);
      PendingNone(m - {q}, command, n);
    } else {
      PendingOldest(m, command, q, n - 1);
    }
  }

  lemma PendingFiled(r: Requests, x: Request, command: Command)
    requires Filed(r.inFlight, r.counter) && x.number == r.counter + 1
    ensures var t := File(Make(r, x), x);
      Pending(t.inFlight, command, t.counter) ==
        Pending(r.inFlight, command, r.counter) + if x.command == command then [x.arg] else []
  {
    PendingSame(r.inFlight, r.inFlight[x.number := x], command, r.counter);
  }

  lemma AskAgrees(s: State, queues: Queues, command: Command, arg: Argument)
    requires Filed(s.requests.inFlight, s.requests.counter) && Agreed(s.queues, s.requests)
    requires queues == Enqueue(s.queues, command, arg)
    ensures var t := Ask(s.(queues := queues), command, arg); Agreed(t.queues, t.requests)
  {
    var x := NewRequest(s, command, arg);
    var t := Ask(s.(queues := queues), command, arg);
    if s.connected {
      forall c | Tracked(c) ensures Queue(t.queues, c) == Pending(t.requests.inFlight, c, t.requests.counter) {
        PendingFiled(s.requests, x, c);
      }
    }
  }

  /** Taking the oldest request of a kind shortens its queue and no other. */
  lemma TakeAgrees(queues: Queues, r: Requests, command: Command, q: int)
    requires Filed(r.inFlight, r.counter) && Agreed(queues, r)
    requires if Tracked(command) then IsOldest(r.inFlight, command, q)
      else q in r.inFlight ==> !Tracked(r.inFlight[q].command)
    ensures Agreed(Dequeue(queues, command), Take(r, q))
  {
    var t := Take(r, q);
    forall c | Tracked(c) ensures Queue(Dequeue(queues, command), c) == Pending(t.inFlight, c, t.counter) {
      if c == command {
        PendingOldest(r.inFlight, command, q, r.counter);
        DequeueFront(queues, command, r.inFlight[q].arg, Pending(t.inFlight, command, r.counter));
      } else {
        PendingSame(r.inFlight, t.inFlight, c, r.counter);
      }
    }
  }

  lemma DequeueFront(queues: Queues, command: Command, arg: Argument, rest: seq<Argument>)
    requires Tracked(command) && Queue(queues, command) == [arg] + rest
    ensures Queue(Dequeue(queues, command), command) == rest && Oldest(queues, command) == arg
  {
    assert ([arg] + rest)[1..] == rest;
  }

  lemma ResponseAgrees(s: State, command: Command, q: int, locations: bool)
    requires Filed(s.requests.inFlight, s.requests.counter) && Agreed(s.queues, s.requests)
    requires InOrder(s.requests, Incoming(Response(command, q, locations)))
    ensures var t := HandleResponse(s, command, q); Agreed(t.queues, t.requests)
  {
    hide Agreed;
    if Takes(command) {
      TakeAgrees(s.queues, s.requests, command, q);
    }
  }

  lemma ReceiveAgrees(s: State, m: Message)
    requires Filed(s.requests.inFlight, s.requests.counter) && Agreed(s.queues, s.requests)
    requires s.handshake.Completed? ==> InOrder(s.requests, Incoming(m))
    ensures Agreed(Receive(s, m).queues, Receive(s, m).requests)
  {
    hide HandleResponse, Agreed, InOrder;
    if s.handshake.Completed? && m.Response? {
      var t := LogIt(s);
      ResponseAgrees(t.(passed := t.passed + [m]), m.command, m.requestSeq, m.locations);
    }
  }

  /** The queues agree with the requests in flight as long as the adapter keeps the order.  A lost
      connection and Reset leave nothing to disagree on. */
  lemma AgreementKept(s: State, a: Action)
    requires Filed(s.requests.inFlight, s.requests.counter) && Agreed(s.queues, s.requests)
    requires Possible(a) && (s.handshake.Completed? ==> InOrder(s.requests, a))
    ensures Agreed(After(s, a).queues, After(s, a).requests)
  {
    hide Ask, Receive, Agreed, InOrder;
    ClearAgrees(s);
    match a
    case Initialization => AskAgrees(s, s.queues, Initialize, Nothing);
    case Launching => AskAgrees(s.(activeThread := NOT_FOUND), s.queues, Launch, Nothing);
    case Tracking(command, arg) =>
      var x := Resolved(s, command, arg);
      AskAgrees(s, Enqueue(s.queues, command, x), command, x);
    case Locating(file) => AskAgrees(s, s.queues, BreakpointLocations, Path(file));
    case Loading(reference, callback) =>
      AskAgrees(s.(sources := Wait(s.sources, callback)), s.queues, Source, Number(reference));
    case Evaluating(callback) =>
      AskAgrees(s.(evaluations := Wait(s.evaluations, callback)), s.queues, Evaluate, Nothing);
    case Plain(command, arg) => AskAgrees(s, s.queues, command, Resolved(s, command, arg));
    case Incoming(m) => ReceiveAgrees(s, m);
    case _ =>
  }

  lemma ClearAgrees(s: State)
    ensures Agreed(Clear(s).queues, Clear(s).requests)
  {
  }

  // ---------------------------------------------------------------- breakpoint locations

  /** The file of every request for breakpoint locations in flight is on record under its number. */
  ghost predicate Recorded(connected: bool, filepaths: map<int, string>, r: Requests) {
    && (connected ==> forall q | q in filepaths :: q <= r.counter)
    && (!connected ==> r.inFlight == map[])
    && (forall q | q in r.inFlight && r.inFlight[q].command.BreakpointLocations? ::
          q in filepaths && Path(filepaths[q]) == r.inFlight[q].arg)
  }

  ghost predicate Located(s: State) {
    Recorded(s.connected, s.filepaths, s.requests)
  }

  lemma TakeRecords(connected: bool, filepaths: map<int, string>, r: Requests, q: int)
    requires Recorded(connected, filepaths, r)
    ensures Recorded(connected, filepaths, Take(r, q)) && Recorded(connected, filepaths - {q}, Take(r, q))
  {
  }

  lemma FileRecords(filepaths: map<int, string>, r: Requests, x: Request)
    requires Recorded(true, filepaths, r) && Filed(r.inFlight, r.counter) && x.number == r.counter + 1
    ensures !x.command.BreakpointLocations? ==> Recorded(true, filepaths, File(Make(r, x), x))
    ensures x.number !in filepaths
    ensures forall file | x.arg == Path(file) :: Recorded(true, filepaths[x.number := file], File(Make(r, x), x))
  {
  }

  lemma AskLocates(s: State, command: Command, arg: Argument)
    requires Located(s) && Filed(s.requests.inFlight, s.requests.counter)
    ensures !command.BreakpointLocations? ==> Located(Ask(s, command, arg))
  {
    hide Recorded;
    if s.connected {
      FileRecords(s.filepaths, s.requests, NewRequest(s, command, arg));
    } else {
      NothingRecorded(Ask(s, command, arg).requests, map[]);
    }
  }

  lemma NothingRecorded(r: Requests, filepaths: map<int, string>)
    requires r.inFlight == map[]
    ensures Recorded(false, filepaths, r)
  {
  }

  lemma LocatingLocates(s: State, file: string)
    requires Located(s) && Filed(s.requests.inFlight, s.requests.counter)
    ensures Located(After(s, Locating(file)))
  {
    hide Recorded;
    if s.locations {
      if s.connected {
        FileRecords(s.filepaths, s.requests, NewRequest(s, BreakpointLocations, Path(file)));
      } else {
        var t := After(s, Locating(file));
        NothingRecorded(t.requests, t.filepaths);
      }
    }
  }

  lemma ResponseLocates(s: State, command: Command, q: int)
    requires Located(s)
    ensures Located(HandleResponse(s, command, q))
  {
    hide Recorded, Take;
    TakeRecords(s.connected, s.filepaths, s.requests, q);
  }

  lemma ReceiveLocates(s: State, m: Message)
    requires Located(s)
    ensures Located(Receive(s, m))
  {
    hide HandleResponse, Recorded;
    if s.handshake.Completed? && m.Response? {
      var t := LogIt(s);
      ResponseLocates(t.(passed := t.passed + [m]), m.command, m.requestSeq);
    }
  }

  lemma LocatedKept(s: State, a: Action)
    requires Located(s) && Filed(s.requests.inFlight, s.requests.counter) && Possible(a)
    ensures Located(After(s, a))
  {
    hide Ask, Receive, Recorded;
    match a
    case SetTransport(given) => ClearRecords(s, given);
    case ResetIt => ClearRecords(s, false);
    case ConnectionError => ClearRecords(Emit(s, LostConnection), false);
    case Responding => ClearRecords(Emit(s, LostConnection), false);
    case Initialization => AskLocates(s, Initialize, Nothing);
    case Launching => AskLocates(s.(activeThread := NOT_FOUND), Launch, Nothing);
    case Tracking(command, arg) =>
      var x := Resolved(s, command, arg);
      AskLocates(s.(queues := Enqueue(s.queues, command, x)), command, x);
    case Locating(file) => LocatingLocates(s, file);
    case Loading(reference, callback) =>
      AskLocates(s.(sources := Wait(s.sources, callback)), Source, Number(reference));
    case Evaluating(callback) => AskLocates(s.(evaluations := Wait(s.evaluations, callback)), Evaluate, Nothing);
    case Plain(command, arg) => AskLocates(s, command, Resolved(s, command, arg));
    case Incoming(m) => ReceiveLocates(s, m);
    case _ =>
  }

  lemma ClearRecords(s: State, given: bool)
    ensures Recorded(given, Clear(s).filepaths, Clear(s).requests)
  {
  }
}
