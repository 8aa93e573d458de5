/** What every call of dap::Client and every message from the adapter does to the session
    (dap/Client.cpp), as functions on the session's state. */
module Session {
  import opened Wrappers

  datatype Context = CLIPBOARD | HOVER | REPL | VARIABLES | WATCH

  datatype Command =
    | Initialize | Launch | Attach | ConfigurationDone | SetBreakpoints | SetFunctionBreakpoints
    | BreakpointLocations | Threads | StackTrace | Scopes | Variables | Source | Evaluate
    | Next | StepIn | StepOut | Continue | Pause | RunInTerminal | OtherCommand

  datatype EventName =
    | Stopped | Process | Exited | Terminated | Initialized | Output | Breakpoint | Continued | Module | OtherEvent

  /** What the client remembers of a request's arguments. */
  datatype Argument = Nothing | Number(n: int) | Reference(n: int, context: Context) | Path(path: string)

  /** A `Request*`; `serial` tells apart objects that are alike. */
  datatype Request = Request(serial: nat, number: nat, command: Command, arg: Argument)

  /** A message from the adapter, as FromJSON makes it; `locations` is the feature bit in the body. */
  datatype Message =
    | Notification(name: EventName, thread: int)
    | Response(command: Command, requestSeq: int, locations: bool)
    | Reverse(command: Command)
    | Unsupported

  /** A wxEvent that the client fires, with its refId or origin and its originating request. */
  datatype Emitted =
    | Log
    | LostConnection
    | Notified(name: EventName)
    | Answered(command: Command, ref: Argument, request: Option<Request>)
    | RunInTerminalAsked

  datatype Handshake = NotPerformed | InProgress | Completed

  const NOT_FOUND := -1

  /** m_get_frames_queue, m_get_scopes_queue, m_get_variables_queue, m_source_breakpoints_queue */
  datatype Queues = Queues(frames: seq<Argument>, scopes: seq<Argument>, variables: seq<Argument>, files: seq<Argument>)

  /** Callbacks that wait, and on record those given and those called in this session. */
  datatype Callbacks = Callbacks(waiting: seq<int>, given: seq<int>, called: seq<int>)

  /** m_requestSeuqnce and m_in_flight_requests, and on record the requests created so far and
      what became of those that are no longer in flight. */
  datatype Requests = Requests(
    counter: nat, inFlight: map<int, Request>,
    made: nat, created: set<Request>, handed: set<Request>, freed: set<Request>, abandoned: set<Request>)

  /** The fields of the client, and on record the events fired (those of this session from `since`
      on) and the messages of this session that passed the handshake. */
  datatype State = State(
    connected: bool, logging: bool, handshake: Handshake, canInteract: bool, activeThread: int,
    locations: bool, filepaths: map<int, string>,
    queues: Queues, sources: Callbacks, evaluations: Callbacks, requests: Requests,
    trace: seq<Emitted>, since: nat, passed: seq<Message>)

  const NO_QUEUES := Queues([], [], [], [])
  const NO_CALLBACKS := Callbacks([], [], [])

  const START := State(
    false, false, NotPerformed, false, NOT_FOUND, false, map[], NO_QUEUES, NO_CALLBACKS, NO_CALLBACKS,
    Requests(0, map[], 0, {}, {}, {}, {}), [], 0, [])

  ghost function Values(m: map<int, Request>): set<Request> {
    set q | q in m :: m[q]
  }

  // ---------------------------------------------------------------- steps

  function Emit(s: State, e: Emitted): State {
    s.(trace := s.trace + [e])
  }

  function LogIt(s: State): State {
    if s.logging then Emit(s, Log) else s
  }

  ghost function Free(r: Requests): Requests {
    r.(counter := 0, freed := r.freed + Values(r.inFlight), inFlight := map[])
  }

  /** Reset */
  ghost function Clear(s: State): State {
    s.(connected := false, handshake := NotPerformed, canInteract := false, activeThread := NOT_FOUND,
       locations := false, filepaths := map[], queues := NO_QUEUES, sources := NO_CALLBACKS,
       evaluations := NO_CALLBACKS, requests := Free(s.requests), since := |s.trace|, passed := [])
  }

  /** OnConnectionError */
  ghost function Lose(s: State): State {
    Clear(Emit(s, LostConnection))
  }

  /** MakeRequest */
  function NewRequest(s: State, command: Command, arg: Argument): Request {
    Request(s.requests.made, s.requests.counter + 1, command, arg)
  }

  function Make(r: Requests, x: Request): Requests {
    r.(made := r.made + 1, counter := r.counter + 1, created := r.created + {x})
  }

  function File(r: Requests, x: Request): Requests {
    if x.number in r.inFlight then r else r.(inFlight := r.inFlight[x.number := x])
  }

  function Abandon(r: Requests, x: Request): Requests {
    r.(abandoned := r.abandoned + {x})
  }

  /** SendRequest: without a transport the connection counts as lost and the request is forgotten. */
  ghost function Send(s: State, x: Request): State {
    if s.connected then
      var t := LogIt(s);
      t.(requests := File(t.requests, x))
    else
      var t := Lose(s);
      t.(requests := Abandon(t.requests, x))
  }

  ghost function Ask(s: State, command: Command, arg: Argument): State {
    var x := NewRequest(s, command, arg);
    Send(s.(requests := Make(s.requests, x)), x)
  }

  /** GetOriginatingRequest */
  function Named(r: Requests, q: int): Option<Request> {
    if q in r.inFlight then Some(r.inFlight[q]) else None
  }

  function Take(r: Requests, q: int): Requests {
    if q in r.inFlight then r.(inFlight := r.inFlight - {q}, handed := r.handed + {r.inFlight[q]}) else r
  }

  function Front(queue: seq<Argument>): Argument {
    if queue == [] then Nothing else queue[0]
  }

  function Rest(queue: seq<Argument>): seq<Argument> {
    if queue == [] then [] else queue[1..]
  }

  /** SendDAPEvent for a response. */
  function Answer(s: State, command: Command, ref: Argument, q: int): State {
    Emit(s.(requests := Take(s.requests, q)), Answered(command, ref, Named(s.requests, q)))
  }

  /** OnMessage before the handshake is over. */
  function Greet(s: State, m: Message): State {
    if m.Response? && m.command.Initialize? then
      Emit(s.(handshake := Completed, locations := s.locations || m.locations), Answered(Initialize, Nothing, None))
    else s
  }

  function HandleEvent(s: State, name: EventName, thread: int): State {
    match name
    case Stopped => Emit(s.(canInteract := true, activeThread := thread), Notified(name))
    case Continued => Emit(s.(canInteract := false), Notified(name))
    case OtherEvent => s
    case _ => Emit(s, Notified(name))
  }

  /** What a queue remembers of the request of a kind that was sent first. */
  function Oldest(queues: Queues, command: Command): Argument {
    match command
    case StackTrace => Front(queues.frames)
    case Scopes => Front(queues.scopes)
    case Variables => Front(queues.variables)
    case SetBreakpoints => Front(queues.files)
    case _ => Nothing
  }

  function Dequeue(queues: Queues, command: Command): Queues {
    match command
    case StackTrace => queues.(frames := Rest(queues.frames))
    case Scopes => queues.(scopes := Rest(queues.scopes))
    case Variables => queues.(variables := Rest(queues.variables))
    case SetBreakpoints => queues.(files := Rest(queues.files))
    case _ => queues
  }

  function Enqueue(queues: Queues, command: Command, arg: Argument): Queues {
    match command
    case StackTrace => queues.(frames := queues.frames + [arg])
    case Scopes => queues.(scopes := queues.scopes + [arg])
    case Variables => queues.(variables := queues.variables + [arg])
    case SetBreakpoints => queues.(files := queues.files + [arg])
    case _ => queues
  }

  function Wait(c: Callbacks, callback: int): Callbacks {
    c.(waiting := c.waiting + [callback], given := c.given + [callback])
  }

  /** HandleSourceResponse and HandleEvaluateResponse */
  function CallNext(c: Callbacks): Callbacks {
    if c.waiting == [] then c else c.(waiting := c.waiting[1..], called := c.called + [c.waiting[0]])
  }

  function HandleResponse(s: State, command: Command, q: int): State {
    match command
    case StackTrace | Scopes | Variables | SetBreakpoints =>
      Answer(s.(queues := Dequeue(s.queues, command)), command, Oldest(s.queues, command), q)
    case BreakpointLocations =>
      if q in s.filepaths then Answer(s.(filepaths := s.filepaths - {q}), command, Path(s.filepaths[q]), q)
      else Answer(s, command, Nothing, q)
    case SetFunctionBreakpoints | ConfigurationDone | Launch | Threads => Answer(s, command, Nothing, q)
    case StepIn | StepOut | Next | Continue => s.(canInteract := false)
    case Source => s.(sources := CallNext(s.sources))
    case Evaluate => s.(evaluations := CallNext(s.evaluations))
    case _ => s
  }

  /** OnMessage */
  function Receive(s: State, m: Message): State {
    var t := LogIt(s);
    if !s.handshake.Completed? then Greet(t, m)
    else
      var u := t.(passed := t.passed + [m]);
      match m
      case Notification(name, thread) => HandleEvent(u, name, thread)
      case Response(command, q, _) => HandleResponse(u, command, q)
      case Reverse(command) => if command.RunInTerminal? then Emit(u, RunInTerminalAsked) else u
      case Unsupported => u
  }

  /** A request whose response is matched with a queue. */
  predicate Tracked(command: Command) {
    command.StackTrace? || command.Scopes? || command.Variables? || command.SetBreakpoints?
  }

  /** A response of this kind takes the request that it names out of flight. */
  predicate Takes(command: Command) {
    || Tracked(command) || command.BreakpointLocations? || command.SetFunctionBreakpoints?
    || command.ConfigurationDone? || command.Launch? || command.Threads?
  }

  /** Everything that can happen to a client. */
  datatype Action =
    | SetTransport(given: bool)
    | ResetIt
    | ConnectionError
    | SetWantsLogEvents(b: bool)
    | Initialization
    | Launching
    | Tracking(command: Command, arg: Argument)
    | Locating(file: string)
    | Loading(reference: int, callback: int)
    | Evaluating(callback: int)
    | Plain(command: Command, arg: Argument)
    | Responding
    | Incoming(m: Message)

  /** A request about a thread; NOT_FOUND stands for the active one. */
  predicate OfThread(command: Command) {
    || command.StackTrace? || command.Next? || command.StepIn? || command.StepOut? || command.Continue?
    || command.Pause?
  }

  function Resolved(s: State, command: Command, arg: Argument): Argument {
    if OfThread(command) && arg == Number(NOT_FOUND) then Number(s.activeThread) else arg
  }

  /** A request that is sent and nothing else. */
  predicate IsPlain(command: Command) {
    || command.Next? || command.StepIn? || command.StepOut? || command.Continue? || command.Pause?
    || command.ConfigurationDone? || command.Threads? || command.SetFunctionBreakpoints? || command.Attach?
  }

  predicate Fits(command: Command, arg: Argument) {
    match command
    case Variables => arg.Reference?
    case SetBreakpoints => arg.Path?
    case ConfigurationDone | Threads | SetFunctionBreakpoints | Attach => arg.Nothing?
    case _ => arg.Number?
  }

  /** The calls there are: which requests are sent in which way, and what each remembers. */
  predicate Possible(a: Action) {
    match a
    case Tracking(command, arg) => Tracked(command) && Fits(command, arg)
    case Plain(command, arg) => IsPlain(command) && Fits(command, arg)
    case _ => true
  }

  /** The calls that queue something before they send. */
  ghost function Track(s: State, command: Command, arg: Argument): State {
    Ask(s.(queues := Enqueue(s.queues, command, arg)), command, arg)
  }

  ghost function After(s: State, a: Action): State
    requires Possible(a)
  {
    match a
    case SetTransport(given) => Clear(s).(connected := given)
    case ResetIt => Clear(s)
    case ConnectionError => Lose(s)
    case SetWantsLogEvents(b) => s.(logging := b)
    case Initialization => Ask(s, Initialize, Nothing).(handshake := InProgress)
    case Launching => Ask(s.(activeThread := NOT_FOUND), Launch, Nothing)
    case Tracking(command, arg) => Track(s, command, Resolved(s, command, arg))
    case Locating(file) =>
      if !s.locations then s
      else
        var t, number := Ask(s, BreakpointLocations, Path(file)), s.requests.counter + 1;
        if number in t.filepaths then t else t.(filepaths := t.filepaths[number := file])
    case Loading(reference, callback) =>
      if reference <= 0 then s
      else Ask(s.(sources := Wait(s.sources, callback)), Source, Number(reference))
    case Evaluating(callback) => Ask(s.(evaluations := Wait(s.evaluations, callback)), Evaluate, Nothing)
    case Plain(command, arg) => Ask(s, command, Resolved(s, command, arg))
    case Responding => if s.connected then LogIt(s) else Lose(s)
    case Incoming(m) => Receive(s, m)
  }

  ghost function Run(s: State, actions: seq<Action>): State
    requires forall a | a in actions :: Possible(a)
    decreases |actions|
  {
    if actions == [] then s else Run(After(s, actions[0]), actions[1..])
  }
}
