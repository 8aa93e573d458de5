/** The reader thread of dap/Client.cpp and the event loop it posts to, as a state machine over
    their steps: either side may move next. */
module ReaderThread {
  import opened CStrings
  import opened Framing
  import FramingProofs

  /** What CallAfter posts, with the session whose thread posted it. */
  datatype Event = Data(session: nat, bytes: string) | Lost(session: nat)

  /** Where the thread stands: at the loop test, in Read, with what Read gave, past
      `m_terminated`, past the loop; or there is no thread. */
  datatype Place = NoThread | AtTest | InRead | Got(bytes: string) | Failed | Terminated | Over

  /** The event loop is free, or blocked in StopReaderThread on the way to a next session. */
  datatype Loop = Free | Joining(next: bool)

  /** Sessions are counted by Reset.  `returned` and `handled` record what Read has returned and
      what was dispatched, `fed` the chunks that this session's framer was given, `clean` whether
      nothing was waiting when the session began, and `late` how often Read has returned since
      the thread was asked to stop. */
  datatype State = State(
    session: nat, transport: bool, place: Place, loop: Loop, shutdown: bool, terminated: bool,
    pending: seq<Event>, returned: seq<Event>, handled: seq<Event>, fed: seq<string>, clean: bool, late: nat)

  const START := State(0, false, NoThread, Free, false, false, [], [], [], [], true, 0)

  datatype Action =
    | Test | ReadData(bytes: string) | ReadNothing | ReadError | PostData | StoreTerminated | PostLost
    | Dispatch | Join | SetTransport(given: bool) | Reset

  predicate IsThreadStep(a: Action) {
    a.Test? || a.ReadData? || a.ReadNothing? || a.ReadError? || a.PostData? || a.StoreTerminated? || a.PostLost?
  }

  predicate Enabled(s: State, a: Action) {
    match a
    case Test => s.place.AtTest?
    case ReadData(bytes) => s.place.InRead? && bytes != ""
    case ReadNothing => s.place.InRead?
    case ReadError => s.place.InRead?
    case PostData => s.place.Got?
    case StoreTerminated => s.place.Failed?
    case PostLost => s.place.Terminated?
    case Dispatch => s.loop.Free? && s.pending != []
    case Join => s.loop.Joining? && s.place.Over?
    case SetTransport(_) => s.loop.Free?
    case Reset => s.loop.Free?
  }

  /** Reset, which empties the framer, and what SetTransport does after it, once there is no thread. */
  function Finish(s: State, next: bool): State {
    s.(session := s.session + 1, loop := Free, place := if next then AtTest else NoThread, transport := next,
       shutdown := false, terminated := false, fed := [], clean := s.pending == [], late := 0)
  }

  /** StopReaderThread up to the join. */
  function Stop(s: State, next: bool): State {
    if s.place.NoThread? then Finish(s, next) else s.(shutdown := true, loop := Joining(next))
  }

  function Returned(s: State, place: Place): State {
    s.(place := place, late := if s.shutdown then s.late + 1 else s.late)
  }

  function After(s: State, a: Action): State
    requires Enabled(s, a)
  {
    match a
    case Test => s.(place := if s.shutdown then Over else InRead)
    case ReadData(bytes) => Returned(s, Got(bytes)).(returned := s.returned + [Data(s.session, bytes)])
    case ReadNothing => Returned(s, AtTest)
    case ReadError => Returned(s, Failed).(returned := s.returned + [Lost(s.session)])
    case PostData => s.(place := AtTest, pending := s.pending + [Data(s.session, s.place.bytes)])
    case StoreTerminated => s.(place := Terminated, terminated := true)
    case PostLost => s.(place := Over, pending := s.pending + [Lost(s.session)])
    case Dispatch =>
      var t := s.(pending := s.pending[1..], handled := s.handled + [s.pending[0]]);
      (match s.pending[0]
       case Lost(_) => Stop(t, false)
       case Data(_, bytes) => t.(fed := s.fed + [bytes]))
    case Join => Finish(s, s.loop.next)
    case SetTransport(given) => Stop(s, given)
    case Reset => Stop(s, false)
  }

  predicate IsRun(s: State, actions: seq<Action>)
    decreases |actions|
  {
    actions != [] ==> Enabled(s, actions[0]) && IsRun(After(s, actions[0]), actions[1..])
  }

  function Run(s: State, actions: seq<Action>): State
    requires IsRun(s, actions)
    decreases |actions|
  {
    if actions == [] then s else Run(After(s, actions[0]), actions[1..])
  }

  // ---------------------------------------------------------------- the invariant

  /** What Read has returned and the thread has not posted yet. */
  function InHand(s: State): seq<Event> {
    match s.place
    case Got(bytes) => [Data(s.session, bytes)]
    case Failed | Terminated => [Lost(s.session)]
    case _ => []
  }

  /** Nothing that Read returned is lost, invented or overtaken. */
  predicate Conserved(s: State) {
    s.returned == s.handled + s.pending + InHand(s)
  }

  /** Sessions come one after the other, and a lost connection is the end of its session. */
  predicate LostIsLast(events: seq<Event>) {
    forall i, j | 0 <= i < j < |events| ::
      events[i].session <= events[j].session && (events[i].Lost? ==> events[i].session < events[j].session)
  }

  predicate SessionsUpTo(events: seq<Event>, session: nat) {
    forall e | e in events :: e.session <= session
  }

  predicate Alive(place: Place) {
    !place.NoThread? && !place.Over?
  }

  /** What is on record of the session so far; a failed thread is on its way out. */
  predicate Ordered(s: State) {
    && LostIsLast(s.returned) && SessionsUpTo(s.returned, s.session)
    && (Lost(s.session) in s.returned ==> s.place in {Failed, Terminated, Over, NoThread})
  }

  /** The thread has a transport to read from, the event loop joins only a thread that was asked to
      stop, and such a thread reads at most once more. */
  predicate Controlled(s: State) {
    && (Alive(s.place) ==> s.transport)
    && (s.shutdown <==> s.loop.Joining?) && (s.loop.Joining? ==> !s.place.NoThread?)
    && (s.terminated ==> s.place.Terminated? || s.place.Over?)
    && s.late <= 1 && (s.place.InRead? || !s.shutdown ==> s.late == 0)
  }

  /** The bytes of one session. */
  function Bytes(events: seq<Event>, session: nat): string {
    if events == [] then ""
    else (match events[0] case Data(k, bytes) => if k == session then bytes else "" case _ => "")
         + Bytes(events[1..], session)
  }

  lemma {:induction false} BytesAppend(a: seq<Event>, b: seq<Event>, session: nat)
    ensures Bytes(a + b, session) == Bytes(a, session) + Bytes(b, session)
  {
    if a == [] {
      assert a + b == b;
    } else {
      assert (a + b)[1..] == a[1..] + b;
      BytesAppend(a[1..], b, session);
    }
  }

  /** Only the current session has events waiting. */
  predicate OwnEventsOnly(s: State) {
    forall e | e in s.pending :: e.session == s.session
  }

  /** In a session that began with nothing waiting, what Read returned is what the framer was
      given, then what is posted, then what the thread still holds. */
  predicate FedInOrder(s: State) {
    s.clean ==>
      && OwnEventsOnly(s)
      && Bytes(s.returned, s.session) ==
           Concat(s.fed) + Bytes(s.pending, s.session) + Bytes(InHand(s), s.session)
  }

  predicate Invariant(s: State) {
    Conserved(s) && Ordered(s) && Controlled(s) && FedInOrder(s)
  }

  lemma FinishConserves(s: State, next: bool)
    requires Conserved(s) && InHand(s) == []
    ensures Conserved(Finish(s, next))
  {
  }

  lemma StopConserves(s: State, next: bool)
    requires Conserved(s)
    ensures Conserved(Stop(s, next))
  {
    if s.place.NoThread? {
      FinishConserves(s, next);
    }
  }

  lemma ReadConserves(s: State, e: Event, place: Place)
    requires Conserved(s) && InHand(s) == [] && InHand(s.(place := place)) == [e]
    ensures Conserved(Returned(s, place).(returned := s.returned + [e]))
  {
    assert s.returned + [e] == s.handled + s.pending + [e];
  }

  lemma PostConserves(s: State, e: Event, place: Place)
    requires Conserved(s) && InHand(s) == [e] && InHand(s.(place := place)) == []
    ensures Conserved(s.(place := place, pending := s.pending + [e]))
  {
    assert s.returned == s.handled + (s.pending + [e]) + [];
  }

  lemma DispatchConserves(s: State)
    requires Conserved(s) && s.pending != []
    ensures Conserved(s.(pending := s.pending[1..], handled := s.handled + [s.pending[0]]))
  {
    var e, rest := s.pending[0], s.pending[1..];
    assert s.handled + ([e] + rest) == s.handled + [e] + rest;
    assert [e] + rest == s.pending;
  }

  lemma ConservedKept(s: State, a: Action)
    requires Conserved(s) && Enabled(s, a)
    ensures Conserved(After(s, a))
  {
    match a
    case ReadData(bytes) => ReadConserves(s, Data(s.session, bytes), Got(bytes));
    case ReadError => ReadConserves(s, Lost(s.session), Failed);
    case PostData => PostConserves(s, Data(s.session, s.place.bytes), AtTest);
    case PostLost => PostConserves(s, Lost(s.session), Over);
    case Dispatch =>
      DispatchConserves(s);
      StopConserves(s.(pending := s.pending[1..], handled := s.handled + [s.pending[0]]), false);
    case Join => FinishConserves(s, s.loop.next);
    case SetTransport(given) => StopConserves(s, given);
    case Reset => StopConserves(s, false);
    case _ =>
  }

  lemma OrderedKept(s: State, a: Action)
    requires Ordered(s) && Enabled(s, a)
    ensures Ordered(After(s, a))
  {
    hide LostIsLast, SessionsUpTo;
    NextSession(s);
    match a
    case ReadData(bytes) => OneMore(s, Data(s.session, bytes));
    case ReadError => OneMore(s, Lost(s.session));
    case _ =>
  }

  lemma NextSession(s: State)
    requires SessionsUpTo(s.returned, s.session)
    ensures SessionsUpTo(s.returned, s.session + 1) && Lost(s.session + 1) !in s.returned
  {
  }

  lemma OneMore(s: State, e: Event)
    requires Ordered(s) && e.session == s.session && Lost(s.session) !in s.returned
    ensures LostIsLast(s.returned + [e]) && SessionsUpTo(s.returned + [e], s.session)
    ensures Lost(s.session) in s.returned + [e] <==> e.Lost?
  {
    var all := s.returned + [e];
    forall i, j | 0 <= i < j < |all|
      ensures all[i].session <= all[j].session && (all[i].Lost? ==> all[i].session < all[j].session)
    {
      assert all[i] in s.returned;
    }
  }

  lemma {:induction false} NoBytesYet(events: seq<Event>, session: nat)
    requires forall e | e in events :: e.session < session
    ensures Bytes(events, session) == ""
  {
    if events != [] {
      NoBytesYet(events[1..], session);
    }
  }

  lemma {:induction false} ConcatAppend(chunks: seq<string>, chunk: string)
    ensures Concat(chunks + [chunk]) == Concat(chunks) + chunk
  {
    if chunks == [] {
      assert [] + [chunk] == [chunk] && [chunk][1..] == [] && chunk + "" == chunk;
    } else {
      assert (chunks + [chunk])[1..] == chunks[1..] + [chunk];
      ConcatAppend(chunks[1..], chunk);
      Assoc(chunks[0], Concat(chunks[1..]), chunk);
    }
  }

  lemma FinishFeeds(s: State, next: bool)
    requires SessionsUpTo(s.returned, s.session)
    ensures FedInOrder(Finish(s, next))
  {
    NoBytesYet(s.returned, s.session + 1);
  }

  lemma StopFeeds(s: State, next: bool)
    requires FedInOrder(s) && SessionsUpTo(s.returned, s.session)
    ensures FedInOrder(Stop(s, next))
  {
    FinishFeeds(s, next);
  }

  lemma ReadFeeds(s: State, e: Event, place: Place)
    requires FedInOrder(s) && InHand(s) == [] && e.session == s.session
    requires InHand(s.(place := place)) == [e]
    ensures FedInOrder(s.(place := place, returned := s.returned + [e]))
  {
    BytesAppend(s.returned, [e], s.session);
    Assoc(Concat(s.fed) + Bytes(s.pending, s.session), "", Bytes([e], s.session));
  }

  lemma PostFeeds(s: State, e: Event, place: Place)
    requires FedInOrder(s) && InHand(s) == [e] && e.session == s.session && InHand(s.(place := place)) == []
    ensures FedInOrder(s.(place := place, pending := s.pending + [e]))
  {
    BytesAppend(s.pending, [e], s.session);
    Assoc(Concat(s.fed), Bytes(s.pending, s.session), Bytes([e], s.session));
    assert Bytes(s.returned, s.session) + "" == Bytes(s.returned, s.session);
  }

  lemma DispatchFeeds(s: State)
    requires FedInOrder(s) && s.pending != []
    ensures var t := s.(pending := s.pending[1..], handled := s.handled + [s.pending[0]]);
      match s.pending[0] case Lost(_) => FedInOrder(t) case Data(_, bytes) => FedInOrder(t.(fed := s.fed + [bytes]))
  {
    if s.clean {
      var rest := Bytes(s.pending[1..], s.session);
      assert s.pending[0] in s.pending && forall e | e in s.pending[1..] :: e in s.pending;
      match s.pending[0]
      case Lost(_) => assert "" + rest == rest;
      case Data(_, bytes) =>
        ConcatAppend(s.fed, bytes);
        Assoc(Concat(s.fed), bytes, rest);
        assert Bytes(s.pending, s.session) == bytes + rest;
        hide *;
    }
  }

  lemma FedKept(s: State, a: Action)
    requires FedInOrder(s) && SessionsUpTo(s.returned, s.session) && Enabled(s, a)
    ensures FedInOrder(After(s, a))
  {
    match a
    case ReadData(bytes) => ReadFeeds(s, Data(s.session, bytes), Got(bytes));
    case ReadError => ReadFeeds(s, Lost(s.session), Failed);
    case PostData => PostFeeds(s, Data(s.session, s.place.bytes), AtTest);
    case PostLost => PostFeeds(s, Lost(s.session), Over);
    case Dispatch =>
      DispatchFeeds(s);
      if s.pending[0].Lost? {
        StopFeeds(s.(pending := s.pending[1..], handled := s.handled + [s.pending[0]]), false);
      }
    case Join => FinishFeeds(s, s.loop.next);
    case SetTransport(given) => StopFeeds(s, given);
    case Reset => StopFeeds(s, false);
    case _ =>
  }

  lemma InvariantKept(s: State, a: Action)
    requires Invariant(s) && Enabled(s, a)
    ensures Invariant(After(s, a))
  {
    ConservedKept(s, a);
    OrderedKept(s, a);
    FedKept(s, a);
    ControlledKept(s, a);
    hide Conserved, Ordered, FedInOrder, Controlled, After;
  }

  lemma ControlledKept(s: State, a: Action)
    requires Controlled(s) && Enabled(s, a)
    ensures Controlled(After(s, a))
  {
  }

  // ---------------------------------------------------------------- every run

  lemma {:induction false} RunsKeep(s: State, actions: seq<Action>)
    requires Invariant(s) && IsRun(s, actions)
    ensures Invariant(Run(s, actions))
    decreases |actions|
  {
    if actions != [] {
      InvariantKept(s, actions[0]);
      RunsKeep(After(s, actions[0]), actions[1..]);
    }
  }

  /** For every interleaving and every session: what its thread read is what was dispatched of it,
      then what is posted, then what the thread still holds. */
  lemma BytesInOrder(actions: seq<Action>, session: nat)
    requires IsRun(START, actions)
    ensures var s := Run(START, actions);
      Bytes(s.returned, session) ==
        Bytes(s.handled, session) + Bytes(s.pending, session) + Bytes(InHand(s), session)
  {
    RunsKeep(START, actions);
    var s := Run(START, actions);
    BytesAppend(s.handled + s.pending, InHand(s), session);
    BytesAppend(s.handled, s.pending, session);
  }

  /** For every interleaving, in a session that began with nothing waiting: what Read returned is what
      this session's framer was given, then what is posted, then what the thread still holds. */
  lemma FramerGetsOwnBytes(actions: seq<Action>)
    requires IsRun(START, actions) && Run(START, actions).clean
    ensures var s := Run(START, actions);
      Bytes(s.returned, s.session) == Concat(s.fed) + Bytes(s.pending, s.session) + Bytes(InHand(s), s.session)
  {
    RunsKeep(START, actions);
  }

  /** For every interleaving: a session posts its lost connection at most once and nothing after it. */
  lemma LostIsPostedLast(actions: seq<Action>)
    requires IsRun(START, actions)
    ensures var s := Run(START, actions); LostIsLast(s.handled + s.pending)
  {
    RunsKeep(START, actions);
    var s := Run(START, actions);
    var posted := s.handled + s.pending;
    assert forall i | 0 <= i < |posted| :: posted[i] == s.returned[i];
  }

  /** For every interleaving: Read returns at most once after the thread was asked to stop, and a
      thread that may still read has its transport. */
  lemma OneLateRead(actions: seq<Action>)
    requires IsRun(START, actions)
    ensures var s := Run(START, actions); s.late <= 1 && (Alive(s.place) ==> s.transport)
  {
    RunsKeep(START, actions);
  }

  // ---------------------------------------------------------------- reading goes on

  /** The thread is over only when it was asked to stop or its connection was lost, and the flag that
      IsConnected looks at is up exactly from a lost connection on. */
  predicate GoesOn(s: State) {
    && (s.place.Over? ==> s.shutdown || Lost(s.session) in s.returned)
    && (s.terminated <==> s.place.Terminated? || (s.place.Over? && Lost(s.session) in s.returned))
  }

  lemma LostIsRecorded(s: State)
    ensures Lost(s.session) in s.returned + [Lost(s.session)]
    ensures forall bytes, e | e in s.returned + [Data(s.session, bytes)] :: e.Lost? ==> e in s.returned
  {
    assert (s.returned + [Lost(s.session)])[|s.returned|] == Lost(s.session);
  }

  lemma GoingKept(s: State, a: Action)
    requires GoesOn(s) && Ordered(s) && Conserved(s) && Enabled(s, a)
    ensures GoesOn(After(s, a))
  {
    hide LostIsLast;
    NextSession(s);
    LostIsRecorded(s);
    if a.StoreTerminated? || a.PostLost? {
      HeldIsReturned(s);
    }
    hide Conserved, SessionsUpTo;
  }

  lemma HeldIsReturned(s: State)
    requires Conserved(s)
    ensures forall e | e in InHand(s) :: e in s.returned
  {
  }

  /** For every interleaving: the thread reads on until it is asked to stop or a read fails. */
  lemma {:induction false} ReadingGoesOn(s: State, actions: seq<Action>)
    requires Invariant(s) && GoesOn(s) && IsRun(s, actions)
    ensures GoesOn(Run(s, actions))
    decreases |actions|
  {
    hide GoesOn, Invariant;
    if actions != [] {
      InvariantKept(s, actions[0]);
      GoingStep(s, actions[0]);
      ReadingGoesOn(After(s, actions[0]), actions[1..]);
    }
  }

  lemma GoingStep(s: State, a: Action)
    requires Invariant(s) && GoesOn(s) && Enabled(s, a)
    ensures GoesOn(After(s, a))
  {
    GoingKept(s, a);
    hide *;
  }

  /** What ends a session starts the next one at once, or has the event loop wait for the thread. */
  lemma SessionEnds(s: State, a: Action)
    requires Enabled(s, a) && (a.SetTransport? || a.Reset? || (a.Dispatch? && s.pending[0].Lost?))
    ensures var t, next := After(s, a), a.SetTransport? && a.given;
      if s.place.NoThread? then
        t.session == s.session + 1 && t.loop.Free? && t.fed == [] && t.transport == next
        && t.place == if next then AtTest else NoThread
      else
        t.session == s.session && t.shutdown && t.loop == Joining(next) && t.place == s.place
  {
  }

  /** With the join the next session starts, with a thread exactly if there is a transport to read. */
  lemma SessionStarts(s: State)
    requires Enabled(s, Join)
    ensures var t := After(s, Join);
      && t.session == s.session + 1 && t.loop.Free? && t.fed == [] && !t.shutdown && !t.terminated
      && t.transport == s.loop.next && t.pending == s.pending
      && t.place == if s.loop.next then AtTest else NoThread
  {
  }

  // ---------------------------------------------------------------- the join ends

  /** How many steps a thread that was asked to stop takes at most. */
  function StepsLeft(place: Place): nat {
    match place
    case InRead => 3
    case Got(_) | Failed => 2
    case AtTest | Terminated => 1
    case Over | NoThread => 0
  }

  lemma StopsSoon(s: State, a: Action)
    requires s.shutdown && IsThreadStep(a) && Enabled(s, a)
    ensures After(s, a).shutdown && StepsLeft(After(s, a).place) < StepsLeft(s.place)
  {
  }

  /** While the event loop waits only the thread moves; it can, until the join is possible, and
      however it moves it is over after three steps. */
  lemma {:induction false} JoinEnds(s: State, steps: seq<Action>)
    requires Invariant(s) && s.loop.Joining? && IsRun(s, steps)
    requires forall a | a in steps :: IsThreadStep(a)
    ensures |steps| <= StepsLeft(s.place) <= 3
    ensures var t := Run(s, steps); Enabled(t, Join) || exists a :: IsThreadStep(a) && Enabled(t, a)
    decreases |steps|
  {
    if steps == [] {
      var a := match s.place
        case AtTest => Test
        case InRead => ReadNothing
        case Got(_) => PostData
        case Failed => StoreTerminated
        case Terminated => PostLost
        case _ => Join;
      assert Enabled(s, a);
    } else {
      InvariantKept(s, steps[0]);
      StopsSoon(s, steps[0]);
      JoinEnds(After(s, steps[0]), steps[1..]);
    }
  }

  // ---------------------------------------------------------------- sessions mix

  /** Posted events survive Reset: a new session starts with its own events only exactly when none
      are waiting. */
  lemma OwnEventsKept(s: State, a: Action)
    requires Invariant(s) && OwnEventsOnly(s) && Enabled(s, a)
    ensures OwnEventsOnly(After(s, a)) <==> After(s, a).session == s.session || After(s, a).pending == []
  {
    var t := After(s, a);
    if t.session != s.session && t.pending != [] {
      assert t.session > s.session && t.pending[0] in s.pending;
    }
  }

  /** For every interleaving, in a session that began with nothing waiting: the messages that its
      framer delivers are a prefix of what a one-shot decoder makes of all that Read returned. */
  lemma DeliveredFromRead(actions: seq<Action>, parse: Parser)
    requires IsRun(START, actions) && Run(START, actions).clean
    ensures var s := Run(START, actions); Feed("", s.fed, parse).0 <= Messages(Bytes(s.returned, s.session), parse)
  {
    RunsKeep(START, actions);
    var s := Run(START, actions);
    var given, more := Concat(s.fed), Bytes(s.pending, s.session) + Bytes(InHand(s), s.session);
    Assoc(given, Bytes(s.pending, s.session), Bytes(InHand(s), s.session));
    FramingProofs.DeliveredIsPrefix(s.fed, parse);
    FramingProofs.FewerBytesFewerMessages(given, more, parse);
  }

  /** What a first session leaves whose thread has read "x" and posted it. */
  const POSTED := State(1, true, AtTest, Free, false, false, [Data(1, "x")], [Data(1, "x")], [], [], true, 0)

  lemma FirstSessionPosts()
    ensures var actions := [SetTransport(true), Test, ReadData("x"), PostData];
      IsRun(START, actions) && Run(START, actions) == POSTED
  {
    var s := After(After(START, SetTransport(true)), Test);
    assert IsRun(s, [ReadData("x"), PostData]);
  }

  lemma NextSessionIsFed()
    ensures var actions := [SetTransport(true), Test, Join, Dispatch];
      IsRun(POSTED, actions) && var s := Run(POSTED, actions);
      s.session == 2 && s.fed == ["x"] && s.returned == POSTED.returned
  {
    var s := After(After(POSTED, SetTransport(true)), Test);
    assert IsRun(s, [Join, Dispatch]);
  }

  lemma {:induction false} RunAppend(s: State, first: seq<Action>, more: seq<Action>)
    requires IsRun(s, first) && IsRun(Run(s, first), more)
    ensures IsRun(s, first + more) && Run(s, first + more) == Run(Run(s, first), more)
    decreases |first|
  {
    if first == [] {
      assert first + more == more;
    } else {
      assert (first + more)[1..] == first[1..] + more;
      RunAppend(After(s, first[0]), first[1..], more);
    }
  }

  /** Otherwise bytes of the session before can reach the framer: here it is given "x", which the
      thread of the first session read, before anything was read in the second. */
  lemma StaleBytesReachNextFramer()
    ensures var actions := [SetTransport(true), Test, ReadData("x"), PostData, SetTransport(true), Test, Join,
                            Dispatch];
      IsRun(START, actions) && var s := Run(START, actions);
      s.session == 2 && s.fed == ["x"] && Bytes(s.returned, 2) == ""
  {
    hide IsRun, Run;
    FirstSessionPosts();
    NextSessionIsFed();
    NoBytesYet(POSTED.returned, 2);
    var first := [SetTransport(true), Test, ReadData("x"), PostData];
    var more := [SetTransport(true), Test, Join, Dispatch];
    RunAppend(START, first, more);
    assert first + more ==
      [SetTransport(true), Test, ReadData("x"), PostData, SetTransport(true), Test, Join, Dispatch];
  }

  /** A connection lost in the first session ends the second one. */
  lemma StaleLossEndsNextSession()
    ensures var actions := [SetTransport(true), Test, ReadError, StoreTerminated, PostLost, SetTransport(true), Join,
                            Dispatch];
      IsRun(START, actions) && var s := Run(START, actions);
      s.session == 2 && s.handled == [Lost(1)] && s.loop == Joining(false)
  {
    var s1 := After(After(START, SetTransport(true)), Test);
    var s2 := After(After(After(s1, ReadError), StoreTerminated), PostLost);
    var s3 := After(After(s2, SetTransport(true)), Join);
    assert IsRun(s3, [Dispatch]);
    assert IsRun(s2, [SetTransport(true), Join, Dispatch]);
    assert IsRun(s1, [ReadError, StoreTerminated, PostLost, SetTransport(true), Join, Dispatch]);
  }
}
