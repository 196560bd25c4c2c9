/** What a subscription connection has done, read off the messages it received and the steps its streams took. */
module SubscriptionHistory {
  import opened Sequences
  import opened Subscriptions

  // ----- runs, by their last event

  function Before(events: seq<Event>): seq<Event>
    requires events != []
  {
    events[..|events| - 1]
  }

  function Last(events: seq<Event>): Event
    requires events != []
  {
    events[|events| - 1]
  }

  lemma {:induction false} RunLast(s: State, events: seq<Event>)
    requires events != [] && Run(s, events).Some?
    ensures Run(s, Before(events)).Some?
    ensures Step(Run(s, Before(events)).value, Last(events)) == Run(s, events)
    decreases events
  {
    if |events| > 1 {
      RunLast(Step(s, events[0]).value, events[1..]);
      assert Before(events)[1..] == Before(events[1..]) && Last(events) == Last(events[1..]);
    }
  }

  lemma Reached(events: seq<Event>)
    requires Run(INIT, events).Some?
    ensures Inv(Run(INIT, events).value)
    ensures events != [] ==> Run(INIT, Before(events)).Some? && Inv(Run(INIT, Before(events)).value)
                             && Step(Run(INIT, Before(events)).value, Last(events)) == Run(INIT, events)
  {
    InvThroughout(INIT, events);
    if events != [] {
      RunLast(INIT, events);
      InvThroughout(INIT, Before(events));
    }
  }

  // ----- messages

  /** A `connection_init` was received. */
  ghost predicate Greeted(events: seq<Event>) {
    exists i :: 0 <= i < |events| && events[i] == Receive(ConnectionInit)
  }

  lemma GreetedLast(events: seq<Event>)
    requires events != []
    ensures Greeted(events) <==> Greeted(Before(events)) || Last(events) == Receive(ConnectionInit)
  {
    if i :| 0 <= i < |events| && events[i] == Receive(ConnectionInit) {
      assert i < |events| - 1 ==> Before(events)[i] == Receive(ConnectionInit);
    }
    if i :| 0 <= i < |Before(events)| && Before(events)[i] == Receive(ConnectionInit) {
      assert events[i] == Receive(ConnectionInit);
    }
  }

  /** The code that the protocol closes with for one message. */
  function CodeFor(greeted: bool, message: Message): seq<int> {
    match message
    case ConnectionInit => if greeted then [4429] else []
    case Subscribe(wellFormed, _) => if !greeted then [4401] else if !wellFormed then [4403] else []
    case Unknown => [4400]
    case _ => []
  }

  /** The codes for all messages so far, in order. */
  ghost function ProtocolCodes(events: seq<Event>): seq<int> {
    if events == [] then []
    else
      ProtocolCodes(Before(events))
      + if Last(events).Receive? then CodeFor(Greeted(Before(events)), Last(events).message) else []
  }

  /** The well-formed subscribe messages that came behind a `connection_init`. */
  ghost function Admitted(events: seq<Event>): nat {
    if events == [] then 0
    else
      var e := Last(events);
      Admitted(Before(events))
      + if e.Receive? && e.message.Subscribe? && e.message.wellFormed && Greeted(Before(events)) then 1 else 0
  }

  lemma {:induction false} CancelledAlike(s: State, rs: seq<Request>)
    ensures var t := CancelAll(s, rs); t.acknowledged == s.acknowledged && t.closeCodes == s.closeCodes
    decreases rs
  {
    if rs != [] {
      CancelledAlike(if rs[0] in s.tasks then Cancel(s, rs[0]) else s, rs[1..]);
    }
  }

  lemma OneMessage(s: State, e: Event)
    requires Step(s, e).Some?
    ensures var t := Step(s, e).value;
            && (t.acknowledged <==> s.acknowledged || e == Receive(ConnectionInit))
            && t.closeCodes == s.closeCodes + (if e.Receive? then CodeFor(s.acknowledged, e.message) else [])
            && t.requests
               == s.requests + if e.Receive? && e.message.Subscribe? && e.message.wellFormed && s.acknowledged
                               then 1 else 0
  {
    assert s.closeCodes + [] == s.closeCodes;
    if e.Disconnect? {
      CancelledAlike(s, e.order);
      CancelAllIsLocal(s, e.order);
    }
  }

  /** In every run: acknowledged iff greeted; the connection was closed with exactly the protocol's codes,
      message by message; and a number was given to exactly the subscribe messages that may have one. */
  lemma {:induction false} MessagesDecide(events: seq<Event>)
    requires Run(INIT, events).Some?
    ensures var s := Run(INIT, events).value;
            && (s.acknowledged <==> Greeted(events))
            && s.closeCodes == ProtocolCodes(events)
            && s.requests == Admitted(events)
    decreases |events|
  {
    if events != [] {
      Reached(events);
      MessagesDecide(Before(events));
      GreetedLast(events);
      OneMessage(Run(INIT, Before(events)).value, Last(events));
    }
  }

  /** Before a `connection_init` was received nothing is served. */
  lemma {:induction false} NothingBeforeInit(events: seq<Event>)
    requires Run(INIT, events).Some? && !Greeted(events)
    ensures var s := Run(INIT, events).value;
            && s.requests == 0 && s.active == map[] && s.tasks == map[] && s.traces == map[]
            && (s.handler.Idle? || s.handler.Disconnecting? || s.handler.Disconnected?)
    decreases |events|
  {
    if events != [] {
      Reached(events);
      GreetedLast(events);
      NothingBeforeInit(Before(events));
      MessagesDecide(Before(events));
      var s, e := Run(INIT, Before(events)).value, Last(events);
      if e.Disconnect? {
        CancelAllIsLocal(s, e.order);
      }
    }
  }

  // ----- requests to stop

  /** Only the cancellation flag of `r` changes. */
  ghost predicate OnlyCancels(s: State, t: State, r: Request) {
    && r in s.tasks && t.tasks == s.tasks[r := s.tasks[r].(cancelled := true)]
    && t.traces == s.traces && t.requests == s.requests && t.closeCodes == s.closeCodes
    && t.acknowledged == s.acknowledged
  }

  /** In every run: a `complete` for a registered id deregisters this id and no other, and cancels its
      task; any other `complete` changes nothing. */
  lemma CompleteStops(events: seq<Event>, id: Option<Id>)
    requires Run(INIT, events).Some? && Run(INIT, events).value.handler.Idle?
    ensures var s := Run(INIT, events).value;
            var t := Step(s, Receive(CompleteMessage(id)));
            && t.Some?
            && if id.Some? && id.value in s.active then
                 var r := s.active[id.value];
                 OnlyCancels(s, t.value, r) && t.value.active == s.active - {id.value}
                 && t.value.handler == Stopping(r, Return)
               else t.value == s
  {
    Reached(events);
  }

  lemma {:induction false} CancelledAt(s: State, rs: seq<Request>, r: Request)
    requires r in s.tasks
    ensures r in CancelAll(s, rs).tasks
    ensures CancelAll(s, rs).tasks[r].cancelled <==> s.tasks[r].cancelled || r in rs
    decreases rs
  {
    if rs != [] {
      CancelledAt(if rs[0] in s.tasks then Cancel(s, rs[0]) else s, rs[1..], r);
      assert rs == [rs[0]] + rs[1..];
    }
  }

  /** In every run: the start of a disconnect cancels exactly the registered tasks, besides those that were
      cancelled before, and then waits for them. */
  lemma DisconnectCancelsRegistered(events: seq<Event>, order: seq<Request>, r: Request)
    requires Run(INIT, events).Some? && MayDisconnect(Run(INIT, events).value, order)
    requires r in Run(INIT, events).value.tasks
    ensures var s := Run(INIT, events).value;
            var t := Step(s, Disconnect(order));
            && t.Some? && t.value.handler == Disconnecting(order) && t.value.active == s.active
            && r in t.value.tasks
            && (t.value.tasks[r].cancelled
                <==> s.tasks[r].cancelled || exists id :: id in s.active && s.active[id] == r)
  {
    Reached(events);
    var s := Run(INIT, events).value;
    CancelAllIsLocal(s, order);
    CancelledAt(s, order, r);
    if r in order {
      assert r in s.active.Values;
    }
  }

  // ----- setting up

  lemma AnswerStep(s: State, setup: Setup)
    requires Inv(s) && s.handler.SettingUp? && !setup.AsyncIterator?
    ensures var r, t := s.handler.request, OnSetup(s, setup);
            && t.handler == MustComplete(r) && t.active == s.active && t.tasks == s.tasks
            && t.traces == s.traces[r := [if setup.Rejected? then Error else Next]] && r !in s.traces
  {
    assert [] + [Error] == [Error] && [] + [Next] == [Next];
  }

  lemma CompleteStep(s: State, e: Envelope)
    requires s.handler.MustComplete? && s.handler.request in s.traces && s.traces[s.handler.request] == [e]
    ensures var r, t := s.handler.request, OnComplete(s);
            && t.handler.Idle? && t.active == s.active && t.tasks == s.tasks
            && t.traces == s.traces[r := [e, Complete]]
  {
    assert [e] + [Complete] == [e, Complete];
  }

  lemma RunTwice(s: State, e: Event, f: Event)
    requires Step(s, e).Some?
    ensures Run(s, [e, f]) == Step(Step(s, e).value, f)
  {
    var t := Step(s, e).value;
    assert [e] + [f] == [e, f] && [f] + [] == [f];
    RunFirst(s, e, [f]);
    if Step(t, f).Some? {
      RunFirst(t, f, []);
    }
  }

  /** In every run: a rejected request is answered by an error and its `complete`, a single result by a
      `next` and its `complete`; neither leaves a stream behind. */
  lemma AnswersComplete(events: seq<Event>, setup: Setup)
    requires Run(INIT, events).Some? && Run(INIT, events).value.handler.SettingUp? && !setup.AsyncIterator?
    ensures var s := Run(INIT, events).value;
            var r, t := s.handler.request, Run(s, [SetUp(setup), SendComplete]);
            && t.Some? && t.value.handler.Idle? && t.value.active == s.active && t.value.tasks == s.tasks
            && t.value.Trace(r) == [if setup.Rejected? then Error else Next, Complete]
            && r !in s.tasks && s.Trace(r) == []
            && forall q :: q != r ==> t.value.Trace(q) == s.Trace(q)
  {
    Reached(events);
    var s := Run(INIT, events).value;
    RunTwice(s, SetUp(setup), SendComplete);
    AnswerStep(s, setup);
    CompleteStep(OnSetup(s, setup), if setup.Rejected? then Error else Next);
  }

  /** In every run: an iterator whose id is free gets a stream of its own; if the id is taken, the stream
      that has it is cancelled and waited for first. */
  lemma IteratorIsServed(events: seq<Event>)
    requires Run(INIT, events).Some? && Run(INIT, events).value.handler.SettingUp?
    ensures var s := Run(INIT, events).value;
            var r, id, t := s.handler.request, s.handler.id, Step(s, SetUp(AsyncIterator));
            && t.Some? && r !in s.tasks && t.value.traces == s.traces
            && if id in s.active then
                 OnlyCancels(s, t.value, s.active[id]) && t.value.active == s.active - {id}
                 && t.value.handler == Stopping(s.active[id], Register(r, id))
               else
                 t.value.active == s.active[id := r] && t.value.tasks == s.tasks[r := Task(id, Created, false, false)]
                 && t.value.handler.Idle?
  {
    Reached(events);
  }

  /** In every run: once the stream that was waited for has ended, its replacement is registered under the
      same id, unless the ended stream failed; then nothing is. */
  lemma ReplacementIsRegistered(events: seq<Event>)
    requires Run(INIT, events).Some? && MayResume(Run(INIT, events).value)
    ensures var s := Run(INIT, events).value;
            var t, old_ := Step(s, Resume), s.tasks[s.handler.task];
            && t.Some? && t.value.handler.Idle? && t.value.traces == s.traces
            && (if s.handler.afterwards.Register? && old_.phase == Done(false) then
                  var r := s.handler.afterwards.request;
                  t.value.active == s.active[old_.id := r]
                  && t.value.tasks == s.tasks[r := Task(old_.id, Created, false, false)] && r !in s.tasks
                else t.value.active == s.active && t.value.tasks == s.tasks)
  {
    Reached(events);
  }

  // ----- streams

  /** The envelope for one step of a stream. */
  function EnvelopeOf(move: Move): seq<Envelope> {
    match move
    case Yield => [Next]
    case Recoverable => [Error]
    case AttemptComplete => [Complete]
    case _ => []
  }

  /** The envelopes for the steps that the stream of `r` took. */
  function Sent(events: seq<Event>, r: Request): seq<Envelope> {
    if events == [] then []
    else
      Sent(Before(events), r)
      + if Last(events).Stream? && Last(events).task == r then EnvelopeOf(Last(events).move) else []
  }

  /** Streams go on as they were, except that one may be cancelled; a new one has sent nothing. */
  ghost predicate LeavesStream(s: State, t: State, r: Request) {
    && (r in s.tasks ==> r in t.tasks && t.Trace(r) == s.Trace(r)
                         && t.tasks[r] == s.tasks[r].(cancelled := t.tasks[r].cancelled)
                         && (s.tasks[r].cancelled ==> t.tasks[r].cancelled))
    && (r !in s.tasks && r in t.tasks ==> t.Trace(r) == [])
  }

  lemma SetupLeavesStream(s: State, setup: Setup, r: Request)
    requires Numbering(s) && s.handler.SettingUp?
    ensures LeavesStream(s, OnSetup(s, setup), r)
  {
  }

  lemma ResumeLeavesStream(s: State, r: Request)
    requires Numbering(s) && MayResume(s)
    ensures LeavesStream(s, OnStopped(s), r)
  {
  }

  lemma CompleteLeavesStream(s: State, r: Request)
    requires Numbering(s) && s.handler.MustComplete?
    ensures LeavesStream(s, OnComplete(s), r)
  {
  }

  lemma MessageLeavesStream(s: State, message: Message, r: Request)
    requires Numbering(s)
    ensures LeavesStream(s, OnMessage(s, message), r)
  {
  }

  lemma HandlersLeaveStream(s: State, e: Event, r: Request)
    requires Inv(s) && Step(s, e).Some? && !e.Stream?
    ensures LeavesStream(s, Step(s, e).value, r)
  {
    match e {
      case Receive(message) => MessageLeavesStream(s, message, r);
      case SetUp(setup) => SetupLeavesStream(s, setup, r);
      case SendComplete => CompleteLeavesStream(s, r);
      case Resume => ResumeLeavesStream(s, r);
      case Disconnect(order) => DisconnectLeavesStream(s, order, r);
      case AwaitNext =>
    }
  }

  lemma DisconnectLeavesStream(s: State, order: seq<Request>, r: Request)
    requires Numbering(s)
    ensures LeavesStream(s, OnDisconnect(s, order), r)
  {
    CancelAllIsLocal(s, order);
    if r in s.tasks {
      CancelledAt(s, order, r);
    }
  }

  lemma StepSends(s: State, e: Event, r: Request)
    requires Inv(s) && Step(s, e).Some? && r in Step(s, e).value.tasks
    ensures var t := Step(s, e).value;
            && (r in s.tasks ==> t.Trace(r) == s.Trace(r) + if e.Stream? && e.task == r then EnvelopeOf(e.move) else [])
            && (r !in s.tasks ==> t.Trace(r) == [] && !(e.Stream? && e.task == r))
  {
    assert s.Trace(r) + [] == s.Trace(r);
    if e.Stream? {
      MoveSends(s, e.task, e.move, r);
    } else {
      HandlersLeaveStream(s, e, r);
    }
  }

  lemma MoveSends(s: State, q: Request, move: Move, r: Request)
    requires OnMove(s, q, move).Some?
    ensures var t := OnMove(s, q, move).value;
            t.Trace(r) == (if q == r then s.Trace(r) + EnvelopeOf(move) else s.Trace(r)) && t.tasks.Keys == s.tasks.Keys
  {
  }

  lemma StepKeepsTasks(s: State, e: Event)
    requires Inv(s) && Step(s, e).Some?
    ensures s.tasks.Keys <= Step(s, e).value.tasks.Keys
  {
    if e.Disconnect? {
      CancelAllIsLocal(s, e.order);
    }
  }

  /** In every run: the trace of a stream is one `next` for each value of its iterator, an error where it
      failed recoverably, and its `complete`, in the order of its steps; and nobody else's steps. */
  lemma {:induction false} TraceIsHistory(events: seq<Event>, r: Request)
    requires Run(INIT, events).Some?
    ensures var s := Run(INIT, events).value;
            if r in s.tasks then s.Trace(r) == Sent(events, r) else Sent(events, r) == []
    decreases |events|
  {
    if events != [] {
      Reached(events);
      TraceIsHistory(Before(events), r);
      var s, e := Run(INIT, Before(events)).value, Last(events);
      StepKeepsTasks(s, e);
      if r in Step(s, e).value.tasks {
        StepSends(s, e, r);
      }
    }
  }

  /** In every run: the last step of a stream deregisters it. */
  lemma LeavingDeregisters(events: seq<Event>, r: Request, failed: bool)
    requires Run(INIT, events).Some? && Step(Run(INIT, events).value, Stream(r, Leave(failed))).Some?
    ensures var t := Step(Run(INIT, events).value, Stream(r, Leave(failed))).value;
            r !in t.active.Values && t.tasks[r].phase == Done(failed)
  {
    Reached(events);
    LeaveRemoves(Run(INIT, events).value, r, failed);
  }

  lemma LeaveRemoves(s: State, r: Request, failed: bool)
    requires Registry(s) && OnMove(s, r, Leave(failed)).Some?
    ensures var t := OnMove(s, r, Leave(failed)).value;
            r !in t.active.Values && r in t.tasks && t.tasks[r].phase == Done(failed)
  {
    var t := OnMove(s, r, Leave(failed)).value;
    forall id | id in t.active ensures t.active[id] != r {
      assert id in s.active && id != s.tasks[r].id;
    }
  }

  // ----- cancellation

  /** In every run: a stream is cancelled only by a `complete` for its id, by an iterator for its id, or by
      a disconnect, and each time only while it is registered; and only a cancelled stream is interrupted. */
  lemma CancelledOnDemand(events: seq<Event>, e: Event, r: Request)
    requires Run(INIT, events).Some? && Step(Run(INIT, events).value, e).Some?
    requires r in Run(INIT, events).value.tasks && !Run(INIT, events).value.tasks[r].cancelled
    ensures var s := Run(INIT, events).value;
            var t, id := Step(s, e).value, s.tasks[r].id;
            && r in t.tasks
            && (t.tasks[r].cancelled ==>
                  id in s.active && s.active[id] == r
                  && (e == Receive(CompleteMessage(Some(id))) || e.Disconnect?
                      || (e == SetUp(AsyncIterator) && s.handler.id == id)))
            && (e.Stream? && e.task == r ==> !e.move.Interrupted? && !e.move.DropUnstarted?)
  {
    Reached(events);
    CancelStep(Run(INIT, events).value, e, r);
  }

  lemma CancelStep(s: State, e: Event, r: Request)
    requires Registry(s) && Numbering(s) && Step(s, e).Some? && r in s.tasks && !s.tasks[r].cancelled
    ensures var t, id := Step(s, e).value, s.tasks[r].id;
            && r in t.tasks
            && (t.tasks[r].cancelled ==>
                  id in s.active && s.active[id] == r
                  && (e == Receive(CompleteMessage(Some(id))) || e.Disconnect?
                      || (e == SetUp(AsyncIterator) && s.handler.id == id)))
            && (e.Stream? && e.task == r ==> !e.move.Interrupted? && !e.move.DropUnstarted?)
  {
    match e {
      case Receive(message) => MessageCancels(s, message, r);
      case SetUp(setup) => SetupCancels(s, setup, r);
      case Disconnect(order) =>
        CancelAllIsLocal(s, order);
        CancelledAt(s, order, r);
        if r in order {
          assert r in s.active.Values;
        }
      case _ =>
    }
  }

  lemma MessageCancels(s: State, message: Message, r: Request)
    requires Registry(s) && r in s.tasks && !s.tasks[r].cancelled
    ensures var t, id := OnMessage(s, message), s.tasks[r].id;
            && r in t.tasks
            && (t.tasks[r].cancelled ==>
                  id in s.active && s.active[id] == r && message == CompleteMessage(Some(id)))
  {
  }

  lemma SetupCancels(s: State, setup: Setup, r: Request)
    requires Registry(s) && Numbering(s) && s.handler.SettingUp? && r in s.tasks && !s.tasks[r].cancelled
    ensures var t, id := OnSetup(s, setup), s.tasks[r].id;
            && r in t.tasks
            && (t.tasks[r].cancelled ==>
                  id in s.active && s.active[id] == r && setup.AsyncIterator? && s.handler.id == id)
  {
  }

  ghost predicate Dropped(s: State, r: Request) {
    && r in s.tasks && s.tasks[r].cancelled && !s.tasks[r].started
    && (s.tasks[r].phase.Created? || s.tasks[r].phase.Done?)
  }

  lemma DroppedStep(s: State, e: Event, r: Request)
    requires Inv(s) && Step(s, e).Some? && Dropped(s, r)
    ensures Dropped(Step(s, e).value, r)
  {
    if e.Stream? {
      DroppedMove(s, e.task, e.move, r);
    } else {
      HandlersLeaveStream(s, e, r);
    }
  }

  lemma DroppedMove(s: State, q: Request, move: Move, r: Request)
    requires OnMove(s, q, move).Some? && Dropped(s, r)
    ensures Dropped(OnMove(s, q, move).value, r)
  {
  }

  /** Whatever happens afterwards: a stream that is cancelled before its first step never takes one, and
      sends nothing. */
  lemma {:induction false} UnstartedStaysSilent(s: State, events: seq<Event>, r: Request)
    requires Inv(s) && Run(s, events).Some?
    requires r in s.tasks && s.tasks[r].phase.Created? && s.tasks[r].cancelled
    ensures var t := Run(s, events).value; r in t.tasks && !t.tasks[r].started && t.Trace(r) == []
  {
    assert Shaped(s, r);
    DroppedThroughout(s, events, r);
    InvThroughout(s, events);
    assert Shaped(Run(s, events).value, r);
  }

  lemma {:induction false} DroppedThroughout(s: State, events: seq<Event>, r: Request)
    requires Inv(s) && Run(s, events).Some? && Dropped(s, r)
    ensures Dropped(Run(s, events).value, r)
    decreases events
  {
    if events != [] {
      DroppedStep(s, events[0], r);
      StepKeepsInv(s, events[0]);
      DroppedThroughout(Step(s, events[0]).value, events[1..], r);
    }
  }

  // ----- the end of a disconnect

  /** The awaited tasks in front of the rest have ended without an exception. */
  ghost predicate Awaited(s: State, order: seq<Request>, rest: seq<Request>) {
    && |rest| <= |order| && order[|order| - |rest|..] == rest
    && forall i :: 0 <= i < |order| - |rest| ==> order[i] in s.tasks && s.tasks[order[i]].phase == Done(false)
  }

  /** How far a disconnect with these tasks has got. */
  ghost predicate Progress(s: State, order: seq<Request>) {
    match s.handler
    case Disconnecting(rest) => Awaited(s, order, rest)
    case Disconnected(true) => Awaited(s, order, [])
    case Disconnected(false) => exists r :: r in order && r in s.tasks && s.tasks[r].phase == Done(true)
    case _ => false
  }

  lemma DoneStays(s: State, e: Event, r: Request)
    requires Inv(s) && Step(s, e).Some? && r in s.tasks && s.tasks[r].phase.Done?
    ensures r in Step(s, e).value.tasks && Step(s, e).value.tasks[r].phase == s.tasks[r].phase
  {
    if !(e.Stream? && e.task == r) {
      OthersKeepPhase(s, e, r);
    }
  }

  lemma AwaitedStays(s: State, e: Event, order: seq<Request>, rest: seq<Request>)
    requires Inv(s) && Step(s, e).Some? && Awaited(s, order, rest)
    ensures Awaited(Step(s, e).value, order, rest)
  {
    forall i | 0 <= i < |order| - |rest|
      ensures order[i] in Step(s, e).value.tasks && Step(s, e).value.tasks[order[i]].phase == Done(false)
    {
      DoneStays(s, e, order[i]);
    }
  }

  lemma ProgressStep(s: State, e: Event, order: seq<Request>)
    requires Inv(s) && Step(s, e).Some? && Progress(s, order)
    ensures Progress(Step(s, e).value, order)
  {
    var t := Step(s, e).value;
    match s.handler {
      case Disconnecting(rest) =>
        AwaitedStays(s, e, order, rest);
        if e.AwaitNext? && rest != [] {
          var first := order[|order| - |rest|];
          assert first == rest[0] && order[|order| - |rest| + 1..] == rest[1..];
          assert first in order;
        }
      case Disconnected(cleanly) =>
        if cleanly {
          AwaitedStays(s, e, order, []);
        } else {
          var r :| r in order && r in s.tasks && s.tasks[r].phase == Done(true);
          DoneStays(s, e, r);
        }
    }
  }

  lemma {:induction false} ProgressThroughout(s: State, events: seq<Event>, order: seq<Request>)
    requires Inv(s) && Progress(s, order) && Run(s, events).Some?
    ensures Progress(Run(s, events).value, order)
    decreases events
  {
    if events != [] {
      ProgressStep(s, events[0], order);
      StepKeepsInv(s, events[0]);
      ProgressThroughout(Step(s, events[0]).value, events[1..], order);
    }
  }

  /** Whatever happens after the start of a disconnect: it ends cleanly only if every task that it waits for
      has ended without an exception, and else only if one of them ended with an exception. */
  lemma DisconnectOutcome(before: seq<Event>, order: seq<Request>, events: seq<Event>)
    requires Run(INIT, before).Some? && MayDisconnect(Run(INIT, before).value, order)
    requires var s := Step(Run(INIT, before).value, Disconnect(order)); s.Some? && Run(s.value, events).Some?
    ensures var t := Run(Step(Run(INIT, before).value, Disconnect(order)).value, events).value;
            && (t.handler == Disconnected(true) ==>
                  forall r :: r in order ==> r in t.tasks && t.tasks[r].phase == Done(false))
            && (t.handler == Disconnected(false) ==>
                  exists r :: r in order && r in t.tasks && t.tasks[r].phase == Done(true))
  {
    Reached(before);
    var s := Run(INIT, before).value;
    StepKeepsInv(s, Disconnect(order));
    ProgressThroughout(Step(s, Disconnect(order)).value, events, order);
    var t := Run(Step(s, Disconnect(order)).value, events).value;
    if t.handler == Disconnected(true) {
      forall r | r in order ensures r in t.tasks && t.tasks[r].phase == Done(false) {
        var i :| 0 <= i < |order| && order[i] == r;
      }
    }
  }
}
