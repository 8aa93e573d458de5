/** dap::Client: its fields, and its methods proved to do what module Session says. */
module Client {
  import opened Wrappers
  import opened Session
  import SessionRuns
  import opened SessionSteps

  /** What is recorded beside the fields. */
  datatype Record = Record(
    created: set<Request>, handed: set<Request>, freed: set<Request>, abandoned: set<Request>,
    sourcesGiven: seq<int>, sourcesCalled: seq<int>, evaluationsGiven: seq<int>, evaluationsCalled: seq<int>,
    trace: seq<Emitted>, since: nat, passed: seq<Message>)

  lemma EmptyOrNot(keys: set<int>)
    ensures keys == {} || exists q :: q in keys
  {
    if forall q :: q !in keys {
      assert keys == {};
    }
  }

  lemma PlainResponse(s: State, command: Command, q: int)
    requires !Tracked(command) && !command.BreakpointLocations?
    ensures HandleResponse(s, command, q) ==
      if command.StepIn? || command.StepOut? || command.Next? || command.Continue? then s.(canInteract := false)
      else if Takes(command) then Answer(s, command, Nothing, q)
      else if command.Source? then s.(sources := CallNext(s.sources))
      else if command.Evaluate? then s.(evaluations := CallNext(s.evaluations))
      else s
  {
  }

  class Client {
    // `transport` says whether m_transport is set, `features` whether breakpoint locations are supported,
    // and `made` counts the request objects that were allocated.
    var transport: bool
    var wantsLogEvents: bool
    var requestSequence: nat
    var handshakeState: Handshake
    var interact: bool
    var activeThreadId: int
    var features: bool
    var requestIdToFilepath: map<int, string>
    var getFramesQueue: seq<Argument>
    var getScopesQueue: seq<Argument>
    var getVariablesQueue: seq<Argument>
    var sourceBreakpointsQueue: seq<Argument>
    var loadSourcesQueue: seq<int>
    var evaluateQueue: seq<int>
    var inFlightRequests: map<int, Request>
    var made: nat
    ghost var record: Record

    /** The state as module Session has it. */
    ghost function Now(): State
      reads this
    {
      State(
        transport, wantsLogEvents, handshakeState, interact, activeThreadId, features, requestIdToFilepath,
        Queues(getFramesQueue, getScopesQueue, getVariablesQueue, sourceBreakpointsQueue),
        Callbacks(loadSourcesQueue, record.sourcesGiven, record.sourcesCalled),
        Callbacks(evaluateQueue, record.evaluationsGiven, record.evaluationsCalled),
        Requests(requestSequence, inFlightRequests, made,
                 record.created, record.handed, record.freed, record.abandoned),
        record.trace, record.since, record.passed)
    }

    /** A new client is where every run starts. */
    constructor ()
      ensures Now() == START
    {
      transport, wantsLogEvents, requestSequence, handshakeState := false, false, 0, NotPerformed;
      interact, activeThreadId, features, requestIdToFilepath := false, NOT_FOUND, false, map[];
      getFramesQueue, getScopesQueue, getVariablesQueue, sourceBreakpointsQueue := [], [], [], [];
      loadSourcesQueue, evaluateQueue, inFlightRequests, made := [], [], map[], 0;
      record := Record({}, {}, {}, {}, [], [], [], [], [], 0, []);
    }

    /** ProcessEvent: the handlers see the event. */
    ghost method ProcessEvent(e: Emitted)
      modifies this`record
      ensures Now() == Emit(old(Now()), e)
    {
      record := record.(trace := record.trace + [e]);
    }

    method LogEvent()
      modifies this`record
      ensures Now() == LogIt(old(Now()))
    {
      if wantsLogEvents {
        ProcessEvent(Log);
      }
    }

    /** The loop of Reset: `delete` for every request in flight. */
    method DeleteAll()
      modifies this`record
      ensures record == old(record).(freed := old(record.freed) + Values(inFlightRequests))
    {
      var keys := inFlightRequests.Keys;
      while keys != {}
        invariant keys <= inFlightRequests.Keys
        invariant record == old(record).(freed :=
          old(record.freed) + set q | q in inFlightRequests && q !in keys :: inFlightRequests[q])
        decreases |keys|
      {
        EmptyOrNot(keys);
        var q :| q in keys;
        record := record.(freed := record.freed + {inFlightRequests[q]});
        keys := keys - {q};
      }
    }

    method DeleteRequests()
      modifies this`inFlightRequests, this`requestSequence, this`record
      ensures Now() == old(Now()).(requests := Free(old(Now()).requests))
    {
      hide Values;
      DeleteAll();
      inFlightRequests := map[];
      requestSequence := 0;
    }

    method ClearQueues()
      modifies this`getFramesQueue, this`getScopesQueue, this`getVariablesQueue, this`sourceBreakpointsQueue
      ensures Now() == old(Now()).(queues := NO_QUEUES)
    {
      getFramesQueue := [];
      getScopesQueue := [];
      getVariablesQueue := [];
      sourceBreakpointsQueue := [];
    }

    method ClearCallbacks()
      modifies this`loadSourcesQueue, this`evaluateQueue, this`record
      ensures Now() == old(Now()).(sources := NO_CALLBACKS, evaluations := NO_CALLBACKS)
    {
      loadSourcesQueue := [];
      evaluateQueue := [];
      record := record.(sourcesGiven := [], sourcesCalled := [], evaluationsGiven := [], evaluationsCalled := []);
    }

    method ClearHandshake()
      modifies this`transport, this`handshakeState, this`features, this`requestIdToFilepath
      ensures Now() ==
        old(Now()).(connected := false, handshake := NotPerformed, locations := false, filepaths := map[])
    {
      transport := false;
      handshakeState := NotPerformed;
      features := false;
      requestIdToFilepath := map[];
    }

    method ClearInteraction()
      modifies this`activeThreadId, this`interact, this`record
      ensures Now() == old(Now()).(activeThread := NOT_FOUND, canInteract := false,
        since := |old(Now()).trace|, passed := [])
    {
      activeThreadId := NOT_FOUND;
      interact := false;
      record := record.(since := |record.trace|, passed := []);
    }

    method Reset()
      modifies this
      ensures Now() == Clear(old(Now()))
    {
      ClearHandshake();
      ClearInteraction();
      ClearQueues();
      ClearCallbacks();
      DeleteRequests();
    }

    method OnConnectionError()
      modifies this
      ensures Now() == Lose(old(Now()))
    {
      ProcessEvent(LostConnection);
      Reset();
    }

    method SetTransport(given: bool)
      modifies this
      ensures Now() == After(old(Now()), Action.SetTransport(given))
    {
      Reset();
      transport := given;
    }

    method GetNextSequence() returns (n: nat)
      modifies this`requestSequence
      ensures n == requestSequence == old(requestSequence) + 1
    {
      requestSequence := requestSequence + 1;
      return requestSequence;
    }

    method MakeRequest(command: Command, arg: Argument) returns (request: Request)
      modifies this`requestSequence, this`made, this`record
      ensures request == NewRequest(old(Now()), command, arg)
      ensures Now() == old(Now()).(requests := Make(old(Now()).requests, request))
    {
      var n := GetNextSequence();
      request := Request(made, n, command, arg);
      made := made + 1;
      record := record.(created := record.created + {request});
    }

    method SendRequest(request: Request) returns (ok: bool)
      modifies this
      ensures ok == old(transport) && Now() == Send(old(Now()), request)
    {
      if !transport {
        OnConnectionError();
        record := record.(abandoned := record.abandoned + {request});
        return false;
      }
      LogEvent();
      if request.number !in inFlightRequests {
        inFlightRequests := inFlightRequests[request.number := request];
      }
      return true;
    }

    method GetOriginatingRequest(requestSeq: int) returns (request: Option<Request>)
      modifies this`inFlightRequests, this`record
      ensures request == Named(old(Now()).requests, requestSeq)
      ensures Now() == old(Now()).(requests := Take(old(Now()).requests, requestSeq))
    {
      if requestSeq !in inFlightRequests {
        return None;
      }
      request := Some(inFlightRequests[requestSeq]);
      inFlightRequests := inFlightRequests - {requestSeq};
      record := record.(handed := record.handed + {request.value});
    }

    method SendResponse() returns (ok: bool)
      modifies this
      ensures ok == old(transport) && Now() == After(old(Now()), Responding)
    {
      if !transport {
        OnConnectionError();
        return false;
      }
      LogEvent();
      return true;
    }

    method SetWantsLogEvents(b: bool)
      modifies this`wantsLogEvents
      ensures Now() == After(old(Now()), Action.SetWantsLogEvents(b))
    {
      wantsLogEvents := b;
    }

    // ---------------------------------------------------------------- requests

    method Initialize()
      modifies this
      ensures Now() == After(old(Now()), Initialization)
    {
      hide Send;
      var req := MakeRequest(Command.Initialize, Nothing);
      var _ := SendRequest(req);
      handshakeState := InProgress;
    }

    method Launch()
      modifies this
      ensures Now() == After(old(Now()), Launching)
    {
      hide Send;
      activeThreadId := NOT_FOUND;
      var req := MakeRequest(Command.Launch, Nothing);
      var _ := SendRequest(req);
    }

    method SetBreakpointsFile(file: string)
      modifies this
      ensures Now() == After(old(Now()), Tracking(SetBreakpoints, Path(file)))
    {
      hide Send;
      var req := MakeRequest(SetBreakpoints, Path(file));
      sourceBreakpointsQueue := sourceBreakpointsQueue + [Path(file)];
      var _ := SendRequest(req);
    }

    method GetScopes(frameId: int)
      modifies this
      ensures Now() == After(old(Now()), Tracking(Scopes, Number(frameId)))
    {
      hide Send;
      var req := MakeRequest(Scopes, Number(frameId));
      getScopesQueue := getScopesQueue + [Number(frameId)];
      var _ := SendRequest(req);
    }

    method GetFrames(threadId: int)
      modifies this
      ensures Now() == After(old(Now()), Tracking(StackTrace, Number(threadId)))
    {
      hide Send;
      var req := MakeRequest(StackTrace, Number(if threadId == NOT_FOUND then activeThreadId else threadId));
      getFramesQueue := getFramesQueue + [req.arg];
      var _ := SendRequest(req);
    }

    method GetChildrenVariables(variablesReference: int, context: Context)
      modifies this
      ensures Now() == After(old(Now()), Tracking(Variables, Reference(variablesReference, context)))
    {
      hide Send;
      var req := MakeRequest(Variables, Reference(variablesReference, context));
      getVariablesQueue := getVariablesQueue + [Reference(variablesReference, context)];
      var _ := SendRequest(req);
    }

    method Next(threadId: int)
      modifies this
      ensures Now() == After(old(Now()), Plain(Command.Next, Number(threadId)))
    {
      hide Send;
      var req := MakeRequest(Command.Next, Number(if threadId == NOT_FOUND then activeThreadId else threadId));
      var _ := SendRequest(req);
    }

    method Continue(threadId: int)
      modifies this
      ensures Now() == After(old(Now()), Plain(Command.Continue, Number(threadId)))
    {
      hide Send;
      var req := MakeRequest(Command.Continue, Number(if threadId == NOT_FOUND then activeThreadId else threadId));
      var _ := SendRequest(req);
    }

    method StepIn(threadId: int)
      modifies this
      ensures Now() == After(old(Now()), Plain(Command.StepIn, Number(threadId)))
    {
      hide Send;
      var req := MakeRequest(Command.StepIn, Number(if threadId == NOT_FOUND then activeThreadId else threadId));
      var _ := SendRequest(req);
    }

    method StepOut(threadId: int)
      modifies this
      ensures Now() == After(old(Now()), Plain(Command.StepOut, Number(threadId)))
    {
      hide Send;
      var req := MakeRequest(Command.StepOut, Number(if threadId == NOT_FOUND then activeThreadId else threadId));
      var _ := SendRequest(req);
    }

    method Pause(threadId: int)
      modifies this
      ensures Now() == After(old(Now()), Plain(Command.Pause, Number(threadId)))
    {
      hide Send;
      var req := MakeRequest(Command.Pause, Number(if threadId == NOT_FOUND then activeThreadId else threadId));
      var _ := SendRequest(req);
    }

    method ConfigurationDone()
      modifies this
      ensures Now() == After(old(Now()), Plain(Command.ConfigurationDone, Nothing))
    {
      hide Send;
      var req := MakeRequest(Command.ConfigurationDone, Nothing);
      var _ := SendRequest(req);
    }

    method GetThreads()
      modifies this
      ensures Now() == After(old(Now()), Plain(Command.Threads, Nothing))
    {
      hide Send;
      var req := MakeRequest(Command.Threads, Nothing);
      var _ := SendRequest(req);
    }

    method SetFunctionBreakpoints()
      modifies this
      ensures Now() == After(old(Now()), Plain(Command.SetFunctionBreakpoints, Nothing))
    {
      hide Send;
      var req := MakeRequest(Command.SetFunctionBreakpoints, Nothing);
      var _ := SendRequest(req);
    }

    method Attach()
      modifies this
      ensures Now() == After(old(Now()), Plain(Command.Attach, Nothing))
    {
      hide Send;
      var req := MakeRequest(Command.Attach, Nothing);
      var _ := SendRequest(req);
    }

    method BreakpointLocations(filepath: string)
      modifies this
      ensures Now() == After(old(Now()), Locating(filepath))
    {
      hide Send;
      if !features {
        return;
      }
      var req := MakeRequest(Command.BreakpointLocations, Path(filepath));
      var _ := SendRequest(req);
      if req.number !in requestIdToFilepath {
        requestIdToFilepath := requestIdToFilepath[req.number := filepath];
      }
    }

    method LoadSource(sourceReference: int, callback: int) returns (queued: bool)
      modifies this
      ensures queued == (sourceReference > 0) && Now() == After(old(Now()), Loading(sourceReference, callback))
    {
      hide Send;
      if sourceReference > 0 {
        loadSourcesQueue := loadSourcesQueue + [callback];
        record := record.(sourcesGiven := record.sourcesGiven + [callback]);
        var req := MakeRequest(Source, Number(sourceReference));
        var _ := SendRequest(req);
        return true;
      } else {
        return false;
      }
    }

    method EvaluateExpression(callback: int)
      modifies this
      ensures Now() == After(old(Now()), Evaluating(callback))
    {
      hide Send;
      evaluateQueue := evaluateQueue + [callback];
      record := record.(evaluationsGiven := record.evaluationsGiven + [callback]);
      var req := MakeRequest(Evaluate, Nothing);
      var _ := SendRequest(req);
    }

    // ---------------------------------------------------------------- messages

    method HandleEvaluateResponse()
      modifies this`evaluateQueue, this`record
      ensures Now() == old(Now()).(evaluations := CallNext(old(Now()).evaluations))
      ensures FirstIsCalled(old(Now()).evaluations, Now().evaluations)
    {
      if evaluateQueue == [] {
        return;
      }
      record := record.(evaluationsCalled := record.evaluationsCalled + [evaluateQueue[0]]);
      evaluateQueue := evaluateQueue[1..];
    }

    method HandleSourceResponse()
      modifies this`loadSourcesQueue, this`record
      ensures Now() == old(Now()).(sources := CallNext(old(Now()).sources))
      ensures FirstIsCalled(old(Now()).sources, Now().sources)
    {
      if loadSourcesQueue == [] {
        return;
      }
      record := record.(sourcesCalled := record.sourcesCalled + [loadSourcesQueue[0]]);
      loadSourcesQueue := loadSourcesQueue[1..];
    }

    /** SendDAPEvent for a response and the request it names. */
    method SendAnswer(command: Command, ref: Argument, requestSeq: int)
      modifies this`inFlightRequests, this`record
      ensures Now() == Answer(old(Now()), command, ref, requestSeq)
    {
      var request := GetOriginatingRequest(requestSeq);
      ProcessEvent(Answered(command, ref, request));
    }

    method OnEvent(name: EventName, thread: int)
      modifies this`interact, this`activeThreadId, this`record
      ensures Now() == HandleEvent(old(Now()), name, thread)
    {
      if name == Stopped {
        interact := true;
        activeThreadId := thread;
        ProcessEvent(Notified(name));
      } else if name == Continued {
        interact := false;
        ProcessEvent(Notified(name));
      } else if name != OtherEvent {
        ProcessEvent(Notified(name));
      }
    }

    method OnStackTrace(requestSeq: int)
      modifies this`getFramesQueue, this`inFlightRequests, this`record
      ensures Now() == HandleResponse(old(Now()), StackTrace, requestSeq)
    {
      hide Answer;
      var ref := Nothing;
      if getFramesQueue != [] {
        ref := getFramesQueue[0];
        getFramesQueue := getFramesQueue[1..];
      }
      SendAnswer(StackTrace, ref, requestSeq);
    }

    method OnScopes(requestSeq: int)
      modifies this`getScopesQueue, this`inFlightRequests, this`record
      ensures Now() == HandleResponse(old(Now()), Scopes, requestSeq)
    {
      hide Answer;
      var ref := Nothing;
      if getScopesQueue != [] {
        ref := getScopesQueue[0];
        getScopesQueue := getScopesQueue[1..];
      }
      SendAnswer(Scopes, ref, requestSeq);
    }

    method OnVariables(requestSeq: int)
      modifies this`getVariablesQueue, this`inFlightRequests, this`record
      ensures Now() == HandleResponse(old(Now()), Variables, requestSeq)
    {
      hide Answer;
      var ref := Nothing;
      if getVariablesQueue != [] {
        ref := getVariablesQueue[0];
        getVariablesQueue := getVariablesQueue[1..];
      }
      SendAnswer(Variables, ref, requestSeq);
    }

    method OnSetBreakpoints(requestSeq: int)
      modifies this`sourceBreakpointsQueue, this`inFlightRequests, this`record
      ensures Now() == HandleResponse(old(Now()), SetBreakpoints, requestSeq)
    {
      hide Answer;
      var ref := Nothing;
      if sourceBreakpointsQueue != [] {
        ref := sourceBreakpointsQueue[0];
        sourceBreakpointsQueue := sourceBreakpointsQueue[1..];
      }
      SendAnswer(SetBreakpoints, ref, requestSeq);
    }

    method OnBreakpointLocations(requestSeq: int)
      modifies this`requestIdToFilepath, this`inFlightRequests, this`record
      ensures Now() == HandleResponse(old(Now()), Command.BreakpointLocations, requestSeq)
    {
      hide Answer;
      var ref := Nothing;
      if requestSeq in requestIdToFilepath {
        ref := Path(requestIdToFilepath[requestSeq]);
        requestIdToFilepath := requestIdToFilepath - {requestSeq};
      }
      SendAnswer(Command.BreakpointLocations, ref, requestSeq);
    }

    method OnResponse(command: Command, requestSeq: int)
      modifies this
      ensures Now() == HandleResponse(old(Now()), command, requestSeq)
    {
      hide HandleResponse;
      if command == StackTrace {
        OnStackTrace(requestSeq);
      } else if command == Scopes {
        OnScopes(requestSeq);
      } else if command == Variables {
        OnVariables(requestSeq);
      } else if command == Command.BreakpointLocations {
        OnBreakpointLocations(requestSeq);
      } else if command == SetBreakpoints {
        OnSetBreakpoints(requestSeq);
      } else {
        OnPlainResponse(command, requestSeq);
      }
    }

    /** The responses that are matched with nothing but request_seq, or not even with that. */
    method OnPlainResponse(command: Command, requestSeq: int)
      requires !Tracked(command) && command != Command.BreakpointLocations
      modifies this`interact, this`loadSourcesQueue, this`evaluateQueue, this`inFlightRequests, this`record
      ensures Now() == HandleResponse(old(Now()), command, requestSeq)
    {
      PlainResponse(Now(), command, requestSeq);
      hide HandleResponse, Answer, CallNext;
      if command == Command.StepIn || command == Command.StepOut || command == Command.Next
         || command == Command.Continue {
        interact := false;
      } else if command == Command.SetFunctionBreakpoints || command == Command.ConfigurationDone
                || command == Command.Launch || command == Threads {
        SendAnswer(command, Nothing, requestSeq);
      } else if command == Source {
        HandleSourceResponse();
      } else if command == Evaluate {
        HandleEvaluateResponse();
      }
    }

    /** OnMessage before the handshake is over. */
    method OnHandshake(m: Message)
      modifies this`handshakeState, this`features, this`record
      ensures Now() == Greet(old(Now()), m)
    {
      if m.Response? && m.command == Command.Initialize {
        handshakeState := Completed;
        features := features || m.locations;
        ProcessEvent(Answered(Command.Initialize, Nothing, None));
      }
    }

    method OnMessage(m: Message)
      modifies this
      ensures Now() == After(old(Now()), Incoming(m))
    {
      hide HandleResponse, HandleEvent, Greet, LogIt;
      LogEvent();
      if handshakeState != Completed {
        OnHandshake(m);
        return;
      }
      record := record.(passed := record.passed + [m]);
      if m.Notification? {
        OnEvent(m.name, m.thread);
      } else if m.Response? {
        OnResponse(m.command, m.requestSeq);
      } else if m.Reverse? && m.command == RunInTerminal {
        ProcessEvent(RunInTerminalAsked);
      }
    }

    // ---------------------------------------------------------------- runs

    /** The calls that queue something before they send. */
    method DoTracking(command: Command, arg: Argument)
      requires Possible(Tracking(command, arg))
      modifies this
      ensures Now() == After(old(Now()), Tracking(command, arg))
    {
      hide After;
      match command {
        case StackTrace => GetFrames(arg.n);
        case Scopes => GetScopes(arg.n);
        case Variables => GetChildrenVariables(arg.n, arg.context);
        case SetBreakpoints => SetBreakpointsFile(arg.path);
      }
    }

    /** The calls that only send. */
    method DoPlain(command: Command, arg: Argument)
      requires Possible(Plain(command, arg))
      modifies this
      ensures Now() == After(old(Now()), Plain(command, arg))
    {
      hide After;
      match command {
        case Next => Next(arg.n);
        case Continue => Continue(arg.n);
        case StepIn => StepIn(arg.n);
        case StepOut => StepOut(arg.n);
        case Pause => Pause(arg.n);
        case ConfigurationDone => ConfigurationDone();
        case Threads => GetThreads();
        case SetFunctionBreakpoints => SetFunctionBreakpoints();
        case Attach => Attach();
      }
    }

    /** One call, or one message. */
    method Do(a: Action)
      requires Possible(a)
      modifies this
      ensures Now() == After(old(Now()), a)
    {
      hide After, Possible;
      StandsFor(Now(), a);
      match a {
        case SetTransport(given) => SetTransport(given);
        case ResetIt => Reset();
        case ConnectionError => OnConnectionError();
        case SetWantsLogEvents(b) => SetWantsLogEvents(b);
        case Initialization => Initialize();
        case Launching => Launch();
        case Tracking(command, arg) => DoTracking(command, arg);
        case Locating(file) => BreakpointLocations(file);
        case Loading(reference, callback) => var _ := LoadSource(reference, callback);
        case Evaluating(callback) => EvaluateExpression(callback);
        case Plain(command, arg) => DoPlain(command, arg);
        case Responding => var _ := SendResponse();
        case Incoming(m) => OnMessage(m);
      }
    }

    /** Any sequence of calls and messages is the run that module SessionRuns speaks of. */
    method Perform(actions: seq<Action>)
      requires forall a | a in actions :: Possible(a)
      modifies this
      ensures Now() == Run(old(Now()), actions)
    {
      hide After, Possible;
      assert actions[0..] == actions;
      for i := 0 to |actions|
        invariant Run(Now(), actions[i..]) == Run(old(Now()), actions)
      {
        assert actions[i..][0] == actions[i] && actions[i..][1..] == actions[i + 1..];
        Do(actions[i]);
      }
    }
  }

  lemma StandsFor(s: State, a: Action)
    ensures a.ResetIt? ==> After(s, a) == Clear(s)
    ensures a.ConnectionError? ==> After(s, a) == Lose(s)
  {
  }

  /** Whatever is done with a new client, the invariants of every session hold. */
  method RunClient(actions: seq<Action>) returns (client: Client)
    requires forall a | a in actions :: Possible(a)
    ensures fresh(client) && client.Now() == Run(START, actions) && SessionRuns.Invariant(client.Now())
  {
    client := new Client();
    client.Perform(actions);
    SessionRuns.StartHolds();
    SessionRuns.RunKeeps(START, actions);
  }
}
