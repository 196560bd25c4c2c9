/** The server side of a subscription connection: message handlers that run one at a time, and stream
    tasks that interleave with them wherever either side awaits. */
module Subscriptions {
  import opened Sequences

  type Id = string

  /** Acknowledged, well-formed subscribe messages are numbered as they arrive. */
  type Request = nat

  datatype Envelope = Next | Error | Complete

  /** Where a `_stream_subscription` task is suspended. `failed`: it ends with an exception other than
      a cancellation. */
  datatype Phase =
    | Created
    | Iterating
    | SendingError
    | Closing
    | Completing
    | Done(failed: bool)

  datatype Task = Task(id: Id, phase: Phase, cancelled: bool, started: bool)

  /** What a handler does once the task it waits for has ended. */
  datatype Afterwards = Return | Register(request: Request, id: Id)

  /** Where the message handler is suspended. */
  datatype Handler =
    | Idle
    | SettingUp(request: Request, id: Id)
    | MustComplete(request: Request)
    | Stopping(task: Request, afterwards: Afterwards)
    | Disconnecting(tasks: seq<Request>)
    | Disconnected(cleanly: bool)

  datatype State = State(
    acknowledged: bool,
    closeCodes: seq<int>,
    active: map<Id, Request>,
    tasks: map<Request, Task>,
    traces: map<Request, seq<Envelope>>,
    requests: nat,
    handler: Handler)
  {
    /** The envelopes attempted so far for a request. */
    function Trace(r: Request): seq<Envelope> {
      if r in traces then traces[r] else []
    }

    predicate Live(r: Request) { r in tasks && !tasks[r].phase.Done? }
  }

  datatype Message =
    | ConnectionInit
    | Ping
    | Subscribe(wellFormed: bool, id: Id)
    | CompleteMessage(operation: Option<Id>)
    | Unknown

  /** How `subscribe()` and the checks before it turn out. */
  datatype Setup = Rejected | SingleResult | AsyncIterator

  /** A step of a stream task, from one await to the next. `failed` says that the step ends with an
      exception that is not a cancellation. */
  datatype Move =
    | Begin
    | DropUnstarted
    | Yield
    | Exhausted
    | Recoverable
    | ErrorSent
    | Interrupted
    | Crashed
    | AttemptComplete
    | Leave(failed: bool)

  datatype Event =
    | Receive(message: Message)
    | SetUp(setup: Setup)
    | SendComplete
    | Resume
    | Disconnect(order: seq<Request>)
    | AwaitNext
    | Stream(task: Request, move: Move)

  const INIT := State(false, [], map[], map[], map[], 0, Idle)

  // ----- steps

  function Emit(s: State, r: Request, e: Envelope): State {
    s.(traces := s.traces[r := s.Trace(r) + [e]])
  }

  function Close(s: State, code: int): State {
    s.(closeCodes := s.closeCodes + [code])
  }

  function Cancel(s: State, r: Request): State
    requires r in s.tasks
  {
    s.(tasks := s.tasks[r := s.tasks[r].(cancelled := true)])
  }

  /** `_stop_subscription` up to its await, for a registered id. */
  function Stop(s: State, id: Id, afterwards: Afterwards): State
    requires id in s.active && s.active[id] in s.tasks
  {
    Cancel(s, s.active[id]).(active := s.active - {id}, handler := Stopping(s.active[id], afterwards))
  }

  /** `create_task` and its registration. */
  function Launch(s: State, r: Request, id: Id): State {
    s.(active := s.active[id := r], tasks := s.tasks[r := Task(id, Created, false, false)], handler := Idle)
  }

  function CancelAll(s: State, rs: seq<Request>): State
    decreases rs
  {
    if rs == [] then s
    else CancelAll(if rs[0] in s.tasks then Cancel(s, rs[0]) else s, rs[1..])
  }

  function OnMessage(s: State, message: Message): State {
    match message
    case ConnectionInit => if s.acknowledged then Close(s, 4429) else s.(acknowledged := true)
    case Ping => s
    case Subscribe(wellFormed, id) =>
      if !s.acknowledged then Close(s, 4401)
      else if !wellFormed then Close(s, 4403)
      else s.(requests := s.requests + 1, handler := SettingUp(s.requests, id))
    case CompleteMessage(id) =>
      if id.Some? && id.value in s.active && s.active[id.value] in s.tasks then Stop(s, id.value, Return) else s
    case Unknown => Close(s, 4400)
  }

  function OnSetup(s: State, setup: Setup): State
    requires s.handler.SettingUp?
  {
    var r, id := s.handler.request, s.handler.id;
    match setup
    case Rejected => Emit(s, r, Error).(handler := MustComplete(r))
    case SingleResult => Emit(s, r, Next).(handler := MustComplete(r))
    case AsyncIterator =>
      if id in s.active && s.active[id] in s.tasks then Stop(s, id, Register(r, id)) else Launch(s, r, id)
  }

  /** The handler's `await task` in `_stop_subscription` returns: an exception of the task propagates. */
  function OnStopped(s: State): State
    requires MayResume(s)
  {
    if s.tasks[s.handler.task].phase.failed then s.(handler := Idle)
    else match s.handler.afterwards
      case Return => s.(handler := Idle)
      case Register(r, id) => Launch(s, r, id)
  }

  /** `_stream_subscription` and its finally blocks: the task after a step, and the envelope that the
      step attempts to send. None: the step is not possible. */
  function TaskMove(task: Task, move: Move): Option<(Task, seq<Envelope>)> {
    match (task.phase, move)
    case (Created, Begin) => if task.cancelled then None else Some((task.(phase := Iterating, started := true), []))
    case (Created, DropUnstarted) => if task.cancelled then Some((task.(phase := Done(false)), [])) else None
    case (Iterating, Yield) => Some((task, [Next]))
    case (Iterating, Exhausted) => Some((task.(phase := Closing), []))
    case (Iterating, Recoverable) => Some((task.(phase := SendingError), [Error]))
    case (Iterating, Interrupted) => if task.cancelled then Some((task.(phase := Closing), [])) else None
    case (Iterating, Crashed) => Some((task.(phase := Closing), []))
    case (SendingError, ErrorSent) => Some((task.(phase := Closing), []))
    case (SendingError, Interrupted) => if task.cancelled then Some((task.(phase := Closing), [])) else None
    case (SendingError, Crashed) => Some((task.(phase := Closing), []))
    case (Closing, AttemptComplete) => Some((task.(phase := Completing), [Complete]))
    case (Completing, Leave(failed)) => Some((task.(phase := Done(failed)), []))
    case _ => None
  }

  /** A task step in the connection: the last one deregisters the task's id. */
  function OnMove(s: State, r: Request, move: Move): Option<State> {
    if r !in s.tasks then None
    else match TaskMove(s.tasks[r], move)
      case None => None
      case Some((task, sent)) =>
        Some(s.(tasks := s.tasks[r := task],
                traces := s.traces[r := s.Trace(r) + sent],
                active := if move.Leave? then s.active - {s.tasks[r].id} else s.active))
  }

  function OnComplete(s: State): State
    requires s.handler.MustComplete?
  {
    Emit(s, s.handler.request, Complete).(handler := Idle)
  }

  predicate MayResume(s: State) {
    s.handler.Stopping? && s.handler.task in s.tasks && s.tasks[s.handler.task].phase.Done?
  }

  /** `order` lists the registered tasks. */
  predicate MayDisconnect(s: State, order: seq<Request>) {
    s.handler.Idle? && (forall id :: id in s.active ==> s.active[id] in order)
    && forall r :: r in order ==> r in s.active.Values
  }

  /** `disconnect` up to its first await */
  function OnDisconnect(s: State, order: seq<Request>): State {
    CancelAll(s, order).(handler := Disconnecting(order))
  }

  predicate MayAwaitNext(s: State) {
    s.handler.Disconnecting?
    && (s.handler.tasks != [] ==> s.handler.tasks[0] in s.tasks && s.tasks[s.handler.tasks[0]].phase.Done?)
  }

  /** The await loop of `disconnect`, one task at a time, and its end */
  function OnAwaitNext(s: State): State
    requires MayAwaitNext(s)
  {
    if s.handler.tasks == [] then s.(active := map[], handler := Disconnected(true))
    else if s.tasks[s.handler.tasks[0]].phase.failed then s.(handler := Disconnected(false))
    else s.(handler := Disconnecting(s.handler.tasks[1..]))
  }

  function Step(s: State, e: Event): Option<State> {
    match e
    case Receive(message) => if s.handler.Idle? then Some(OnMessage(s, message)) else None
    case SetUp(setup) => if s.handler.SettingUp? then Some(OnSetup(s, setup)) else None
    case SendComplete => if s.handler.MustComplete? then Some(OnComplete(s)) else None
    case Resume => if MayResume(s) then Some(OnStopped(s)) else None
    case Disconnect(order) => if MayDisconnect(s, order) then Some(OnDisconnect(s, order)) else None
    case AwaitNext => if MayAwaitNext(s) then Some(OnAwaitNext(s)) else None
    case Stream(r, move) => OnMove(s, r, move)
  }

  function Run(s: State, events: seq<Event>): Option<State>
    decreases events
  {
    if events == [] then Some(s)
    else match Step(s, events[0])
      case None => None
      case Some(next) => Run(next, events[1..])
  }

  // ----- the registry

  /** A live task is registered under its id, or the handler is waiting for its end; while it waits,
      the id is not registered. */
  ghost predicate Registry(s: State) {
    && (forall id :: id in s.active ==> s.active[id] in s.tasks && s.tasks[s.active[id]].id == id)
    && (forall r :: s.Live(r) ==>
          (s.tasks[r].id in s.active && s.active[s.tasks[r].id] == r) || (s.handler.Stopping? && s.handler.task == r))
    && (s.handler.Stopping? ==> s.handler.task in s.tasks && s.tasks[s.handler.task].id !in s.active
                                && (s.handler.afterwards.Register? ==>
                                      s.handler.afterwards.id == s.tasks[s.handler.task].id))
    && (s.handler.Disconnecting? ==>
          forall id :: id in s.active ==> s.active[id] in s.handler.tasks || s.tasks[s.active[id]].phase.Done?)
    && (s.handler == Disconnected(true) ==> s.active == map[])
  }

  /** Request numbers are used once. */
  ghost predicate Numbering(s: State) {
    && (forall r :: r in s.tasks || r in s.traces ==> r < s.requests)
    && (s.handler.SettingUp? ==>
          s.handler.request < s.requests && s.handler.request !in s.tasks && s.handler.request !in s.traces)
    && (s.handler.MustComplete? ==> s.handler.request < s.requests && s.handler.request !in s.tasks)
    && (s.handler.Stopping? && s.handler.afterwards.Register? ==>
          s.handler.afterwards.request < s.requests && s.handler.afterwards.request !in s.tasks
          && s.handler.afterwards.request !in s.traces)
  }

  // ----- the shape of a trace

  predicate AllNext(t: seq<Envelope>) { forall i :: 0 <= i < |t| ==> t[i].Next? }

  predicate Ongoing(t: seq<Envelope>) {
    AllNext(t) || (t != [] && t[|t| - 1].Error? && AllNext(t[..|t| - 1]))
  }

  /** `next* error? complete` */
  predicate Finished(t: seq<Envelope>) {
    t != [] && t[|t| - 1].Complete? && Ongoing(t[..|t| - 1])
  }

  ghost predicate ShapeFor(phase: Phase, started: bool, t: seq<Envelope>) {
    match phase
    case Created => t == [] && !started
    case Iterating => AllNext(t) && started
    case SendingError => Ongoing(t) && started
    case Closing => Ongoing(t) && started
    case Completing => Finished(t) && started
    case Done(_) => if started then Finished(t) else t == []
  }

  ghost predicate Shaped(s: State, r: Request) {
    if r in s.tasks then ShapeFor(s.tasks[r].phase, s.tasks[r].started, s.Trace(r))
    else if s.handler.MustComplete? && s.handler.request == r then s.Trace(r) == [Error] || s.Trace(r) == [Next]
    else s.Trace(r) == [] || Finished(s.Trace(r))
  }

  ghost predicate Shapes(s: State) { forall r :: Shaped(s, r) }

  lemma Ends(t: seq<Envelope>)
    ensures AllNext(t) ==> AllNext(t + [Next]) && Ongoing(t + [Error]) && Ongoing(t)
    ensures Ongoing(t) ==> Finished(t + [Complete])
  {
    assert forall e: Envelope :: (t + [e])[..|t|] == t;
  }

  // ----- invariants

  ghost predicate Inv(s: State) { Registry(s) && Numbering(s) && Shapes(s) }

  /** A finishing stream deregisters itself, never a replacement. */
  lemma LeavingKeepsReplacements(s: State, r: Request, failed: bool)
    requires Registry(s) && Step(s, Stream(r, Leave(failed))).Some?
    ensures forall id :: id in s.active && s.active[id] != r ==>
              id in Step(s, Stream(r, Leave(failed))).value.active
              && Step(s, Stream(r, Leave(failed))).value.active[id] == s.active[id]
  {
    assert s.Live(r);
  }

  lemma MoveKeepsRegistry(s: State, r: Request, move: Move)
    requires Inv(s) && OnMove(s, r, move).Some?
    ensures Registry(OnMove(s, r, move).value)
  {
    var t := OnMove(s, r, move).value;
    assert s.Live(r);
    assert forall q :: q != r ==> (t.Live(q) <==> s.Live(q));
    assert t.tasks[r].id == s.tasks[r].id && (t.Live(r) <==> !move.Leave? && !move.DropUnstarted?);
  }

  lemma MoveKeepsNumbering(s: State, r: Request, move: Move)
    requires Inv(s) && OnMove(s, r, move).Some?
    ensures Numbering(OnMove(s, r, move).value)
  {
  }

  /** The shape of a trace, along one step of its task. */
  lemma TaskMoveKeepsShape(task: Task, move: Move, t: seq<Envelope>)
    requires ShapeFor(task.phase, task.started, t) && TaskMove(task, move).Some?
    ensures var (after, sent) := TaskMove(task, move).value; ShapeFor(after.phase, after.started, t + sent)
  {
    Ends(t);
    assert t + [] == t;
  }

  lemma MoveKeepsShape(s: State, r: Request, move: Move, q: Request)
    requires Shaped(s, q) && OnMove(s, r, move).Some?
    ensures Shaped(OnMove(s, r, move).value, q)
  {
    if q == r {
      TaskMoveKeepsShape(s.tasks[r], move, s.Trace(r));
    }
  }

  // ----- stopping and launching

  lemma StopKeepsRegistry(s: State, id: Id, afterwards: Afterwards)
    requires Registry(s) && !s.handler.Stopping? && id in s.active && s.active[id] in s.tasks
    requires afterwards.Register? ==> afterwards.id == id
    ensures Registry(Stop(s, id, afterwards))
  {
  }

  lemma LaunchKeepsRegistry(s: State, r: Request, id: Id)
    requires Registry(s) && r !in s.tasks && id !in s.active
    requires s.handler.Stopping? ==> !s.Live(s.handler.task)
    ensures Registry(Launch(s, r, id))
  {
  }

  /** What the shape of a request's trace depends on. */
  ghost predicate Unmoved(s: State, t: State, r: Request) {
    && (r in s.tasks <==> r in t.tasks)
    && (r in s.tasks ==> t.tasks[r].phase == s.tasks[r].phase && t.tasks[r].started == s.tasks[r].started)
    && t.Trace(r) == s.Trace(r)
    && !s.handler.MustComplete? && !t.handler.MustComplete?
  }

  lemma UnmovedKeepsShapes(s: State, t: State)
    requires Shapes(s) && forall r :: Unmoved(s, t, r)
    ensures Shapes(t)
  {
    forall r ensures Shaped(t, r) {
      assert Shaped(s, r) && Unmoved(s, t, r);
    }
  }

  lemma LaunchKeepsShapes(s: State, r: Request, id: Id)
    requires Shapes(s) && r !in s.tasks && r !in s.traces && !s.handler.MustComplete?
    ensures Shapes(Launch(s, r, id))
  {
    var t := Launch(s, r, id);
    forall q ensures Shaped(t, q) {
      assert Shaped(s, q);
    }
  }

  // ----- the handlers, one by one

  lemma MessageKeepsRegistry(s: State, message: Message)
    requires Registry(s) && s.handler.Idle?
    ensures Registry(OnMessage(s, message))
  {
    if message.CompleteMessage? && message.operation.Some? && message.operation.value in s.active {
      StopKeepsRegistry(s, message.operation.value, Return);
    }
  }

  lemma MessageKeepsNumbering(s: State, message: Message)
    requires Registry(s) && Numbering(s) && s.handler.Idle?
    ensures Numbering(OnMessage(s, message))
  {
  }

  lemma MessageKeepsInv(s: State, message: Message)
    requires Inv(s) && s.handler.Idle?
    ensures Inv(OnMessage(s, message))
  {
    MessageKeepsRegistry(s, message);
    MessageKeepsNumbering(s, message);
    MessageMovesNothing(s, message);
    UnmovedKeepsShapes(s, OnMessage(s, message));
  }

  lemma MessageMovesNothing(s: State, message: Message)
    requires s.handler.Idle?
    ensures forall r :: Unmoved(s, OnMessage(s, message), r)
  {
  }

  lemma SetupKeepsRegistry(s: State, setup: Setup)
    requires Registry(s) && Numbering(s) && s.handler.SettingUp?
    ensures Registry(OnSetup(s, setup))
  {
    var r, id := s.handler.request, s.handler.id;
    if setup.AsyncIterator? {
      if id in s.active {
        StopKeepsRegistry(s, id, Register(r, id));
      } else {
        LaunchKeepsRegistry(s, r, id);
      }
    }
  }

  lemma SetupKeepsNumbering(s: State, setup: Setup)
    requires Registry(s) && Numbering(s) && s.handler.SettingUp?
    ensures Numbering(OnSetup(s, setup))
  {
  }

  lemma AnswerKeepsShapes(s: State, e: Envelope)
    requires Numbering(s) && Shapes(s) && s.handler.SettingUp? && (e.Error? || e.Next?)
    ensures Shapes(Emit(s, s.handler.request, e).(handler := MustComplete(s.handler.request)))
  {
    var t := Emit(s, s.handler.request, e).(handler := MustComplete(s.handler.request));
    assert [] + [e] == [e];
    forall q ensures Shaped(t, q) {
      assert Shaped(s, q);
    }
  }

  lemma SetupKeepsShapes(s: State, setup: Setup)
    requires Inv(s) && s.handler.SettingUp?
    ensures Shapes(OnSetup(s, setup))
  {
    var r, id := s.handler.request, s.handler.id;
    match setup {
      case Rejected => AnswerKeepsShapes(s, Error);
      case SingleResult => AnswerKeepsShapes(s, Next);
      case AsyncIterator =>
        if id in s.active && s.active[id] in s.tasks {
          UnmovedKeepsShapes(s, Stop(s, id, Register(r, id)));
        } else {
          LaunchKeepsShapes(s, r, id);
        }
    }
  }

  lemma SetupKeepsInv(s: State, setup: Setup)
    requires Inv(s) && s.handler.SettingUp?
    ensures Inv(OnSetup(s, setup))
  {
    SetupKeepsRegistry(s, setup);
    SetupKeepsNumbering(s, setup);
    SetupKeepsShapes(s, setup);
  }

  lemma AnsweredFinishes(t: seq<Envelope>)
    requires t == [Error] || t == [Next]
    ensures Finished(t + [Complete])
  {
    assert [] + [Error] == [Error] && [] + [Next] == [Next];
    Ends([]);
    Ends(t);
  }

  lemma CompleteKeepsShape(s: State, q: Request)
    requires Numbering(s) && Shaped(s, q) && s.handler.MustComplete?
    ensures Shaped(OnComplete(s), q)
  {
    if q == s.handler.request {
      AnsweredFinishes(s.Trace(q));
    }
  }

  lemma CompleteKeepsInv(s: State)
    requires Inv(s) && s.handler.MustComplete?
    ensures Inv(OnComplete(s))
  {
    forall q ensures Shaped(OnComplete(s), q) {
      assert Shaped(s, q);
      CompleteKeepsShape(s, q);
    }
  }

  lemma StoppedKeepsInv(s: State)
    requires Inv(s) && MayResume(s)
    ensures Inv(OnStopped(s))
  {
    if !s.tasks[s.handler.task].phase.failed && s.handler.afterwards.Register? {
      LaunchKeepsRegistry(s, s.handler.afterwards.request, s.handler.afterwards.id);
      LaunchKeepsShapes(s, s.handler.afterwards.request, s.handler.afterwards.id);
    } else {
      UnmovedKeepsShapes(s, OnStopped(s));
    }
  }

  lemma {:induction false} CancelAllIsLocal(s: State, rs: seq<Request>)
    ensures var t := CancelAll(s, rs);
            && t.active == s.active && t.traces == s.traces && t.requests == s.requests && t.handler == s.handler
            && t.tasks.Keys == s.tasks.Keys
            && (forall r :: r in s.tasks ==> t.tasks[r].(cancelled := s.tasks[r].cancelled) == s.tasks[r])
    decreases rs
  {
    if rs != [] {
      CancelAllIsLocal(if rs[0] in s.tasks then Cancel(s, rs[0]) else s, rs[1..]);
    }
  }

  lemma DisconnectKeepsRegistry(s: State, order: seq<Request>)
    requires Registry(s) && MayDisconnect(s, order)
    ensures Registry(OnDisconnect(s, order))
  {
    CancelAllIsLocal(s, order);
  }

  lemma DisconnectKeepsInv(s: State, order: seq<Request>)
    requires Inv(s) && MayDisconnect(s, order)
    ensures Inv(OnDisconnect(s, order))
  {
    DisconnectKeepsRegistry(s, order);
    CancelAllIsLocal(s, order);
    UnmovedKeepsShapes(s, OnDisconnect(s, order));
  }

  lemma AwaitKeepsRegistry(s: State)
    requires Registry(s) && MayAwaitNext(s)
    ensures Registry(OnAwaitNext(s))
  {
    assert s.handler.tasks != [] ==> s.handler.tasks == [s.handler.tasks[0]] + s.handler.tasks[1..];
    if s.handler.tasks == [] {
      assert forall r :: !s.Live(r);
    }
  }

  lemma AwaitKeepsInv(s: State)
    requires Inv(s) && MayAwaitNext(s)
    ensures Inv(OnAwaitNext(s))
  {
    AwaitKeepsRegistry(s);
    UnmovedKeepsShapes(s, OnAwaitNext(s));
  }

  lemma StepKeepsInv(s: State, e: Event)
    requires Inv(s) && Step(s, e).Some?
    ensures Inv(Step(s, e).value)
  {
    match e {
      case Receive(message) => MessageKeepsInv(s, message);
      case SetUp(setup) => SetupKeepsInv(s, setup);
      case SendComplete => CompleteKeepsInv(s);
      case Resume => StoppedKeepsInv(s);
      case Disconnect(order) => DisconnectKeepsInv(s, order);
      case AwaitNext => AwaitKeepsInv(s);
      case Stream(r, move) => MoveKeepsInv(s, r, move);
    }
  }

  lemma MoveKeepsInv(s: State, r: Request, move: Move)
    requires Inv(s) && OnMove(s, r, move).Some?
    ensures Inv(OnMove(s, r, move).value)
  {
    MoveKeepsRegistry(s, r, move);
    MoveKeepsNumbering(s, r, move);
    forall q ensures Shaped(OnMove(s, r, move).value, q) {
      MoveKeepsShape(s, r, move, q);
    }
  }

  lemma {:induction false} InvThroughout(s: State, events: seq<Event>)
    requires Inv(s) && Run(s, events).Some?
    ensures Inv(Run(s, events).value)
    decreases events
  {
    if events != [] {
      StepKeepsInv(s, events[0]);
      InvThroughout(Step(s, events[0]).value, events[1..]);
    }
  }

  // ----- what every run keeps

  /** Exactly one `complete`, at the end. */
  lemma FinishedCompletesOnce(t: seq<Envelope>, i: nat)
    requires Finished(t) && i < |t|
    ensures t[i].Complete? <==> i == |t| - 1
  {
    var u := t[..|t| - 1];
    if i < |t| - 1 {
      assert t[i] == u[i];
      assert i < |u| - 1 ==> u[i] == u[..|u| - 1][i];
    }
  }

  /** In every run, at every point: the attempted envelopes of a request read `next* error?`, or
      `next* error? complete`; those of a started stream that has ended read the latter. */
  lemma TracesAreWellShaped(events: seq<Event>, r: Request)
    requires Run(INIT, events).Some?
    ensures var s := Run(INIT, events).value;
            && (Ongoing(s.Trace(r)) || Finished(s.Trace(r)))
            && (r in s.tasks && s.tasks[r].phase.Done? && s.tasks[r].started ==> Finished(s.Trace(r)))
            && (r in s.tasks && !s.tasks[r].phase.Done? && !s.tasks[r].phase.Completing? ==> Ongoing(s.Trace(r)))
            && (r !in s.tasks && s.Trace(r) != [] && !s.handler.MustComplete? ==> Finished(s.Trace(r)))
  {
    InvThroughout(INIT, events);
    var s := Run(INIT, events).value;
    assert Shaped(s, r);
    Ends([]);
    assert [] + [Error] == [Error] && [] + [Next] == [Next];
  }

  /** At most one live stream task has a given id. */
  lemma OneLiveStreamPerId(events: seq<Event>, q: Request, r: Request)
    requires Run(INIT, events).Some?
    ensures var s := Run(INIT, events).value;
            s.Live(q) && s.Live(r) && s.tasks[q].id == s.tasks[r].id ==> q == r
  {
    InvThroughout(INIT, events);
  }

  /** A stream that leaves takes no other registration with it. */
  lemma ReplacementsSurvive(events: seq<Event>, r: Request, failed: bool)
    requires Run(INIT, events).Some? && Step(Run(INIT, events).value, Stream(r, Leave(failed))).Some?
    ensures var s := Run(INIT, events).value;
            forall id :: id in s.active && s.active[id] != r ==>
              id in Step(s, Stream(r, Leave(failed))).value.active
              && Step(s, Stream(r, Leave(failed))).value.active[id] == s.active[id]
  {
    InvThroughout(INIT, events);
    LeavingKeepsReplacements(Run(INIT, events).value, r, failed);
  }

  /** After a disconnect that awaited all tasks without an exception, nothing is registered, no task
      is live, and every started stream has sent its final `complete`. */
  lemma DisconnectLeavesNothing(events: seq<Event>, r: Request)
    requires Run(INIT, events).Some? && Run(INIT, events).value.handler == Disconnected(true)
    ensures var s := Run(INIT, events).value;
            && s.active == map[]
            && !s.Live(r)
            && (r in s.tasks && s.tasks[r].started ==> Finished(s.Trace(r)))
  {
    InvThroughout(INIT, events);
    assert Shaped(Run(INIT, events).value, r);
  }

  // ----- cancellation

  /** The most steps that a task can still take without emitting `next`. */
  function Remaining(phase: Phase): nat {
    match phase
    case Created => 5
    case Iterating => 4
    case SendingError => 3
    case Closing => 2
    case Completing => 1
    case Done(_) => 0
  }

  /** What a cancelled task does next, and where that takes it. */
  function Unwind(phase: Phase): (Move, Phase) {
    match phase
    case Created => (DropUnstarted, Done(false))
    case Iterating => (Interrupted, Closing)
    case SendingError => (Interrupted, Closing)
    case Closing => (AttemptComplete, Completing)
    case Completing => (Leave(false), Done(false))
    case Done(_) => (Leave(false), phase)
  }

  function UnwindEvents(phase: Phase, r: Request): seq<Event>
    decreases Remaining(phase)
  {
    if phase.Done? then []
    else [Stream(r, Unwind(phase).0)] + UnwindEvents(Unwind(phase).1, r)
  }

  lemma UnwindingStep(s: State, r: Request)
    requires r in s.tasks && s.tasks[r].cancelled && !s.tasks[r].phase.Done?
    ensures var t := OnMove(s, r, Unwind(s.tasks[r].phase).0);
            && t.Some? && r in t.value.tasks && t.value.tasks[r].cancelled
            && t.value.tasks[r].phase == Unwind(s.tasks[r].phase).1
            && t.value.tasks[r].started == s.tasks[r].started
  {
  }

  lemma RunFirst(s: State, e: Event, events: seq<Event>)
    requires Step(s, e).Some?
    ensures Run(s, [e] + events) == Run(Step(s, e).value, events)
  {
    assert ([e] + events)[1..] == events;
  }

  lemma {:induction false} UnwindingRuns(s: State, r: Request)
    requires r in s.tasks && s.tasks[r].cancelled
    ensures var t := Run(s, UnwindEvents(s.tasks[r].phase, r));
            t.Some? && r in t.value.tasks && t.value.tasks[r].phase.Done?
            && t.value.tasks[r].started == s.tasks[r].started
    decreases Remaining(s.tasks[r].phase)
  {
    var phase := s.tasks[r].phase;
    if !phase.Done? {
      var (move, after) := Unwind(phase);
      UnwindingStep(s, r);
      UnwindingRuns(OnMove(s, r, move).value, r);
      RunFirst(s, Stream(r, move), UnwindEvents(after, r));
    }
  }

  /** At whatever point a stream is cancelled, its own remaining steps lead to its end, and if it had
      started then with its single final `complete`. */
  lemma CancelledStreamsEnd(events: seq<Event>, r: Request)
    requires Run(INIT, events).Some?
    requires var s := Run(INIT, events).value; r in s.tasks && s.tasks[r].cancelled
    ensures var s := Run(INIT, events).value;
            var t := Run(s, UnwindEvents(s.tasks[r].phase, r));
            t.Some? && !t.value.Live(r) && (s.tasks[r].started ==> Finished(t.value.Trace(r)))
  {
    InvThroughout(INIT, events);
    var s := Run(INIT, events).value;
    UnwindingRuns(s, r);
    InvThroughout(s, UnwindEvents(s.tasks[r].phase, r));
    assert Shaped(Run(s, UnwindEvents(s.tasks[r].phase, r)).value, r);
  }

  /** A step of `r` that does not emit `next`. */
  predicate OwnStep(e: Event, r: Request) { e.Stream? && e.task == r && !e.move.Yield? }

  function OwnSteps(events: seq<Event>, r: Request): nat
    decreases events
  {
    if events == [] then 0 else (if OwnStep(events[0], r) then 1 else 0) + OwnSteps(events[1..], r)
  }

  /** No other step touches the phase of a task. */
  lemma OthersKeepPhase(s: State, e: Event, r: Request)
    requires Inv(s) && r in s.tasks && Step(s, e).Some? && !(e.Stream? && e.task == r)
    ensures var t := Step(s, e).value; r in t.tasks && t.tasks[r].phase == s.tasks[r].phase
  {
    if e.Disconnect? {
      CancelAllIsLocal(s, e.order);
    }
  }

  lemma OwnStepCounts(s: State, e: Event, r: Request)
    requires Inv(s) && r in s.tasks && Step(s, e).Some?
    ensures var t := Step(s, e).value;
            r in t.tasks
            && Remaining(t.tasks[r].phase) + (if OwnStep(e, r) then 1 else 0) <= Remaining(s.tasks[r].phase)
  {
    if !(e.Stream? && e.task == r) {
      OthersKeepPhase(s, e, r);
    }
  }

  lemma {:induction false} StepsAreBounded(s: State, events: seq<Event>, r: Request)
    requires Inv(s) && r in s.tasks && Run(s, events).Some?
    ensures var t := Run(s, events).value;
            r in t.tasks && OwnSteps(events, r) + Remaining(t.tasks[r].phase) <= Remaining(s.tasks[r].phase)
    decreases events
  {
    if events != [] {
      StepKeepsInv(s, events[0]);
      OwnStepCounts(s, events[0], r);
      StepsAreBounded(Step(s, events[0]).value, events[1..], r);
    }
  }

  lemma LiveStreamsMove(s: State, r: Request)
    requires s.Live(r)
    ensures exists move: Move :: !move.Yield? && Step(s, Stream(r, move)).Some?
  {
    var task := s.tasks[r];
    var move := match task.phase
      case Created => if task.cancelled then DropUnstarted else Begin
      case Iterating => Exhausted
      case SendingError => ErrorSent
      case Closing => AttemptComplete
      case _ => Leave(false);
    assert Step(s, Stream(r, move)).Some?;
  }

  /** Whatever the others do, from any reachable state: a stream takes at most `Remaining` further steps
      besides its `next` envelopes, and as long as it is live such a step is possible. So it ends unless
      its iterator goes on yielding. */
  lemma StreamsAreBounded(before: seq<Event>, events: seq<Event>, r: Request)
    requires Run(INIT, before).Some? && r in Run(INIT, before).value.tasks
    requires Run(Run(INIT, before).value, events).Some?
    ensures var s := Run(INIT, before).value;
            var t := Run(s, events).value;
            && r in t.tasks
            && OwnSteps(events, r) + Remaining(t.tasks[r].phase) <= Remaining(s.tasks[r].phase) <= 5
            && (t.Live(r) ==> exists move: Move :: !move.Yield? && Step(t, Stream(r, move)).Some?)
  {
    InvThroughout(INIT, before);
    StepsAreBounded(Run(INIT, before).value, events, r);
    if Run(Run(INIT, before).value, events).value.Live(r) {
      LiveStreamsMove(Run(Run(INIT, before).value, events).value, r);
    }
  }

  // ----- the consumer object

  /** A `GraphQLSubscriptionConsumer`. Each method runs one handler or one stream task from an await to
      the next one. */
  class Consumer {
    var acknowledged: bool
    var closeCodes: seq<int>
    var active: map<Id, Request>
    var tasks: map<Request, Task>
    var traces: map<Request, seq<Envelope>>
    var requests: nat
    var handler: Handler

    ghost function Contents(): State
      reads this
    {
      State(acknowledged, closeCodes, active, tasks, traces, requests, handler)
    }

    ghost predicate Valid()
      reads this
    {
      Inv(Contents())
    }

    /** `connect` */
    constructor ()
      ensures Valid() && Contents() == INIT
    {
      acknowledged, closeCodes, active, tasks, traces, requests, handler := false, [], map[], map[], map[], 0, Idle;
    }

    method Send(r: Request, e: Envelope)
      modifies this`traces
      ensures Contents() == Emit(old(Contents()), r, e)
    {
      traces := traces[r := (if r in traces then traces[r] else []) + [e]];
    }

    method CancelTask(r: Request)
      requires r in tasks
      modifies this`tasks
      ensures Contents() == Cancel(old(Contents()), r)
    {
      tasks := tasks[r := tasks[r].(cancelled := true)];
    }

    /** `_stop_subscription` up to its await */
    method StopSubscription(id: Id, afterwards: Afterwards)
      requires id in active ==> active[id] in tasks
      modifies this`active, this`tasks, this`handler
      ensures Contents() == if id in old(active) then Stop(old(Contents()), id, afterwards) else old(Contents())
    {
      if id !in active {
        return;
      }
      var task := active[id];
      active := active - {id};
      CancelTask(task);
      handler := Stopping(task, afterwards);
    }

    method CreateTask(r: Request, id: Id)
      modifies this`active, this`tasks, this`handler
      ensures Contents() == Launch(old(Contents()), r, id)
    {
      tasks := tasks[r := Task(id, Created, false, false)];
      active := active[id := r];
      handler := Idle;
    }

    /** `receive_json` and the checks at the start of each handler */
    method ReceiveJson(message: Message)
      requires Valid() && handler.Idle?
      modifies this
      ensures Valid() && Contents() == OnMessage(old(Contents()), message)
    {
      ghost var before := Contents();
      match message {
        case ConnectionInit =>
          if acknowledged {
            closeCodes := closeCodes + [4429];
          } else {
            acknowledged := true;
          }
        case Ping =>
        case Subscribe(wellFormed, id) =>
          if !acknowledged {
            closeCodes := closeCodes + [4401];
          } else if !wellFormed {
            closeCodes := closeCodes + [4403];
          } else {
            handler := SettingUp(requests, id);
            requests := requests + 1;
          }
        case CompleteMessage(id) =>
          if id.Some? {
            StopSubscription(id.value, Return);
          }
        case Unknown =>
          closeCodes := closeCodes + [4400];
      }
      MessageKeepsInv(before, message);
    }

    /** `_handle_subscribe` once `subscribe()` has an outcome */
    method FinishSetup(setup: Setup)
      requires Valid() && handler.SettingUp?
      modifies this
      ensures Valid() && Contents() == OnSetup(old(Contents()), setup)
    {
      ghost var before := Contents();
      var r, id := handler.request, handler.id;
      match setup {
        case Rejected =>
          Send(r, Error);
          handler := MustComplete(r);
        case SingleResult =>
          Send(r, Next);
          handler := MustComplete(r);
        case AsyncIterator =>
          if id in active {
            StopSubscription(id, Register(r, id));
          } else {
            CreateTask(r, id);
          }
      }
      SetupKeepsInv(before, setup);
    }

    method FinishWithComplete()
      requires Valid() && handler.MustComplete?
      modifies this
      ensures Valid() && Contents() == OnComplete(old(Contents()))
    {
      ghost var before := Contents();
      Send(handler.request, Complete);
      handler := Idle;
      CompleteKeepsInv(before);
    }

    /** `_stop_subscription` and its caller once the stopped task has ended */
    method AfterStop()
      requires Valid() && MayResume(Contents())
      modifies this
      ensures Valid() && Contents() == OnStopped(old(Contents()))
    {
      ghost var before := Contents();
      if tasks[handler.task].phase.failed || handler.afterwards.Return? {
        handler := Idle;
      } else {
        CreateTask(handler.afterwards.request, handler.afterwards.id);
      }
      StoppedKeepsInv(before);
    }

    /** `disconnect` up to its first await */
    method BeginDisconnect(order: seq<Request>)
      requires Valid() && MayDisconnect(Contents(), order)
      modifies this
      ensures Valid() && Contents() == OnDisconnect(old(Contents()), order)
    {
      ghost var before := Contents();
      for i := 0 to |order|
        invariant active == old(active) && tasks.Keys == old(tasks).Keys
        invariant CancelAll(Contents(), order[i..]) == CancelAll(before, order)
      {
        assert order[i..][1..] == order[i + 1..];
        assert order[i] in active.Values;
        CancelTask(order[i]);
      }
      handler := Disconnecting(order);
      DisconnectKeepsInv(before, order);
    }

    /** The await loop of `disconnect`, one task at a time, and its end */
    method AwaitNextTask()
      requires Valid() && MayAwaitNext(Contents())
      modifies this
      ensures Valid() && Contents() == OnAwaitNext(old(Contents()))
    {
      ghost var before := Contents();
      if handler.tasks == [] {
        active := map[];
        handler := Disconnected(true);
      } else if tasks[handler.tasks[0]].phase.failed {
        handler := Disconnected(false);
      } else {
        handler := Disconnecting(handler.tasks[1..]);
      }
      AwaitKeepsInv(before);
    }

    /** `_stream_subscription`, from one await to the next */
    method StreamStep(r: Request, move: Move)
      requires Valid() && r in tasks && TaskMove(tasks[r], move).Some?
      modifies this
      ensures Valid() && Some(Contents()) == OnMove(old(Contents()), r, move)
    {
      ghost var before := Contents();
      var (task, sent) := TaskMove(tasks[r], move).value;
      var id := tasks[r].id;
      tasks := tasks[r := task];
      traces := traces[r := (if r in traces then traces[r] else []) + sent];
      if move.Leave? {
        active := active - {id};
      }
      MoveKeepsInv(before, r, move);
    }
  }
}
