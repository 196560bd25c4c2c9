/** Data-change notifications collected during a bulk operation: a closing queue shared by threads,
    nested scopes, and one flush on every way out of the outermost scope. */
module NotificationBatch {
  import opened Sequences
  import opened Ordering

  type Key = seq<string>

  datatype Pending = Pending(key: Key, group: string, message: string)

  /** How `group_send` ends for a target. `Fatal` stands for everything that the flush does not catch:
      a MemoryError, or an exception outside Python's `Exception`. */
  datatype Sent = Delivered | Failed | Fatal

  // ----- Python's order on tuples of strings

  predicate KeyLe(a: Key, b: Key) { Lexicographic(StringLe, a, b) }

  predicate PendingLe(p: Pending, q: Pending) { KeyLe(p.key, q.key) }

  lemma KeyOrders()
    ensures TotalPreorder(KeyLe) && TotalPreorder(PendingLe)
  {
    StringLeIsOrder();
    forall a, b ensures KeyLe(a, b) || KeyLe(b, a) {
      LexicographicTotal(StringLe, a, b);
    }
    forall a, b, c | Linked(a, b, c) && KeyLe(a, b) && KeyLe(b, c) ensures KeyLe(a, c) {
      LexicographicTransitive(StringLe, a, b, c);
    }
    forall p, q, r | Linked(p, q, r) && PendingLe(p, q) && PendingLe(q, r) ensures PendingLe(p, r) {
      LexicographicTransitive(StringLe, p.key, q.key, r.key);
    }
  }

  // ----- the queue

  /** `targets` in insertion order; no two have the same key. */
  datatype Batch = Batch(targets: seq<Pending>, accepting: bool)

  const EMPTY := Batch([], true)

  predicate Holds(targets: seq<Pending>, key: Key) {
    exists i :: 0 <= i < |targets| && targets[i].key == key
  }

  /** The items that are first with their key. */
  function FirstPerKey(items: seq<Pending>): seq<Pending> {
    if items == [] then []
    else
      var front := FirstPerKey(items[..|items| - 1]);
      var last := items[|items| - 1];
      if Holds(front, last.key) then front else front + [last]
  }

  predicate HasKey(key: Key, p: Pending) { p.key == key }

  function WithKey(key: Key, items: seq<Pending>): seq<Pending> {
    Filter((p: Pending) => HasKey(key, p), items)
  }

  lemma HoldsIsWithKey(items: seq<Pending>, key: Key)
    ensures Holds(items, key) <==> WithKey(key, items) != []
  {
    if Holds(items, key) {
      var i :| 0 <= i < |items| && items[i].key == key;
      assert items[i] in WithKey(key, items);
    }
    if WithKey(key, items) != [] {
      assert WithKey(key, items)[0] in WithKey(key, items);
    }
  }

  /** Of all items with a key, the first one is kept, once. */
  lemma {:induction false} FirstPerKeyKeepsFirst(items: seq<Pending>, key: Key)
    ensures WithKey(key, FirstPerKey(items)) == Take(WithKey(key, items), 1)
  {
    if items != [] {
      var front, last := items[..|items| - 1], items[|items| - 1];
      FirstPerKeyKeepsFirst(front, key);
      HoldsIsWithKey(FirstPerKey(front), key);
      assert items == front + [last];
      FilterAppend((p: Pending) => HasKey(key, p), front, [last]);
      FilterAppend((p: Pending) => HasKey(key, p), FirstPerKey(front), [last]);
    }
  }

  // ----- the flush

  /** The targets that a flush attempts, given how each send ends. */
  function Attempted(send: Pending -> Sent, targets: seq<Pending>): seq<Pending> {
    if targets == [] then []
    else [targets[0]] + if send(targets[0]).Fatal? then [] else Attempted(send, targets[1..])
  }

  predicate Aborts(send: Pending -> Sent, targets: seq<Pending>) {
    exists i :: 0 <= i < |targets| && send(targets[i]).Fatal?
  }

  lemma AttemptedFrom(send: Pending -> Sent, targets: seq<Pending>, i: nat)
    requires i < |targets|
    ensures Attempted(send, targets[i..])
         == [targets[i]] + if send(targets[i]).Fatal? then [] else Attempted(send, targets[i + 1..])
    ensures Aborts(send, targets[i..]) <==> send(targets[i]).Fatal? || Aborts(send, targets[i + 1..])
  {
    var from, next := targets[i..], targets[i + 1..];
    assert from[1..] == next && from == [targets[i]] + next;
    if Aborts(send, from) && !send(targets[i]).Fatal? {
      var j :| 0 <= j < |from| && send(from[j]).Fatal?;
      assert next[j - 1] == from[j];
    }
    if Aborts(send, next) {
      var j :| 0 <= j < |next| && send(next[j]).Fatal?;
      assert from[j + 1] == next[j];
    }
    assert send(targets[i]).Fatal? ==> send(from[0]).Fatal?;
  }

  /** Failures do not stop a flush: it stops behind the first fatal send only. */
  lemma {:induction false} AttemptedIsPrefix(send: Pending -> Sent, targets: seq<Pending>)
    ensures Attempted(send, targets) <= targets
    ensures !Aborts(send, targets) ==> Attempted(send, targets) == targets
    ensures forall i :: 0 <= i < |Attempted(send, targets)| ==>
              (send(targets[i]).Fatal? <==> Aborts(send, targets) && i == |Attempted(send, targets)| - 1)
  {
    if targets != [] {
      AttemptedFrom(send, targets, 0);
      assert targets[0..] == targets && targets == [targets[0]] + targets[1..];
      AttemptedIsPrefix(send, targets[1..]);
    }
  }

  /** What the flush of the accepted items sends per key: the first item, once. */
  lemma FlushSendsFirstOnce(items: seq<Pending>, key: Key)
    ensures WithKey(key, Sort(PendingLe, FirstPerKey(items))) == Take(WithKey(key, items), 1)
  {
    KeyOrders();
    FirstPerKeyKeepsFirst(items, key);
    forall p, q | HasKey(key, p) && HasKey(key, q) ensures PendingLe(p, q) {
      assert Paired(p.key, q.key);
    }
    SortStable(PendingLe, FirstPerKey(items), (p: Pending) => HasKey(key, p));
  }

  // ----- queue calls, the close and the flush, interleaved

  /** `remaining`: the targets that the flush has still to attempt. */
  datatype Flush = Waiting | Sending(remaining: seq<Pending>) | Aborted

  /** `accepted`: the items of all calls answered True, in the order of the calls. */
  datatype World = World(batch: Batch, flush: Flush, accepted: seq<Pending>, attempts: seq<Pending>)

  /** `batched`: the calling context has the batch as its active batch. A call holds the batch's lock
      from its first look at the batch to its answer, so it is one step. */
  datatype Event =
    | Call(batched: bool, item: Pending)
    | CloseBatch
    | StartFlush
    | SendNext(sent: Sent)

  const START := World(EMPTY, Waiting, [], [])

  /** The answer to a call and the batch behind it. */
  function Queued(batch: Batch, batched: bool, item: Pending): (bool, Batch) {
    if !batched || !batch.accepting then (false, batch)
    else if Holds(batch.targets, item.key) then (true, batch)
    else (true, batch.(targets := batch.targets + [item]))
  }

  function Step(w: World, e: Event): Option<World> {
    match e
    case Call(batched, item) =>
      var (answer, batch) := Queued(w.batch, batched, item);
      Some(w.(batch := batch, accepted := if answer then w.accepted + [item] else w.accepted))
    case CloseBatch => Some(w.(batch := w.batch.(accepting := false)))
    case StartFlush =>
      if w.batch.accepting || !w.flush.Waiting? then None
      else Some(w.(flush := Sending(Sort(PendingLe, w.batch.targets))))
    case SendNext(sent) =>
      if !w.flush.Sending? || w.flush.remaining == [] then None
      else Some(w.(attempts := w.attempts + [w.flush.remaining[0]],
                   flush := if sent.Fatal? then Aborted else Sending(w.flush.remaining[1..])))
  }

  function Run(w: World, events: seq<Event>): Option<World>
    decreases events
  {
    if events == [] then Some(w)
    else match Step(w, events[0])
      case None => None
      case Some(next) => Run(next, events[1..])
  }

  ghost predicate Inv(w: World) {
    && w.batch.targets == FirstPerKey(w.accepted)
    && match w.flush
       case Waiting => w.attempts == []
       case Sending(remaining) => !w.batch.accepting && w.attempts + remaining == Sort(PendingLe, w.batch.targets)
       case Aborted => !w.batch.accepting && w.attempts <= Sort(PendingLe, w.batch.targets)
  }

  /** A call answered True queues its item unless its key is already there. */
  lemma QueuedIsFirstPerKey(items: seq<Pending>, item: Pending)
    ensures Queued(Batch(FirstPerKey(items), true), true, item) == (true, Batch(FirstPerKey(items + [item]), true))
  {
    assert (items + [item])[..|items|] == items;
  }

  lemma StepKeepsInv(w: World, e: Event)
    requires Inv(w) && Step(w, e).Some?
    ensures Inv(Step(w, e).value)
  {
    match e {
      case Call(batched, item) =>
        if batched && w.batch.accepting {
          QueuedIsFirstPerKey(w.accepted, item);
          assert w.batch == Batch(FirstPerKey(w.accepted), true);
        }
      case CloseBatch =>
      case StartFlush => assert [] + Sort(PendingLe, w.batch.targets) == Sort(PendingLe, w.batch.targets);
      case SendNext(_) => Associate(w.attempts, [w.flush.remaining[0]], w.flush.remaining[1..]);
    }
  }

  lemma {:induction false} InvThroughout(w: World, events: seq<Event>)
    requires Inv(w)
    ensures Run(w, events).Some? ==> Inv(Run(w, events).value)
    decreases events
  {
    if events != [] && Step(w, events[0]).Some? {
      StepKeepsInv(w, events[0]);
      InvThroughout(Step(w, events[0]).value, events[1..]);
    }
  }

  /** Once closed, every call is answered False and the batch stays as it is. */
  lemma {:induction false} ClosedForGood(w: World, events: seq<Event>)
    requires !w.batch.accepting && Run(w, events).Some?
    ensures Run(w, events).value.batch == w.batch && Run(w, events).value.accepted == w.accepted
    decreases events
  {
    if events != [] {
      ClosedForGood(Step(w, events[0]).value, events[1..]);
    }
  }

  /** In every interleaving: no key is attempted twice, nothing is attempted that no call was answered
      True for, and a flush that has run to its end attempted every accepted key once, with the item
      of the first call for it. */
  lemma NothingLostNothingTwice(events: seq<Event>, key: Key)
    requires Run(START, events).Some?
    ensures var w := Run(START, events).value;
            && WithKey(key, w.attempts) <= Take(WithKey(key, w.accepted), 1)
            && (w.flush == Sending([]) ==> WithKey(key, w.attempts) == Take(WithKey(key, w.accepted), 1))
  {
    InvThroughout(START, events);
    var w := Run(START, events).value;
    FlushSendsFirstOnce(w.accepted, key);
    var all := Sort(PendingLe, w.batch.targets);
    if !w.flush.Waiting? {
      var rest := all[|w.attempts|..];
      assert all == w.attempts + rest;
      FilterAppend((p: Pending) => HasKey(key, p), w.attempts, rest);
      assert w.flush == Sending([]) ==> rest == [];
    }
  }

  lemma NewKeyIsDistinct(front: seq<Pending>, last: Pending)
    requires Distinct(Map((p: Pending) => p.key, front)) && !Holds(front, last.key)
    ensures Distinct(Map((p: Pending) => p.key, front + [last]))
  {
    var before, after := Map((p: Pending) => p.key, front), Map((p: Pending) => p.key, front + [last]);
    forall i, j | 0 <= i < j < |after| ensures after[i] != after[j] {
      assert after[i] == front[i].key == before[i];
      assert j < |front| ==> after[j] == before[j];
    }
  }

  lemma {:induction false} FirstPerKeyIsDistinct(items: seq<Pending>)
    ensures Distinct(Map((p: Pending) => p.key, FirstPerKey(items)))
    ensures forall k :: Holds(FirstPerKey(items), k) <==> Holds(items, k)
  {
    if items != [] {
      var front, last := items[..|items| - 1], items[|items| - 1];
      FirstPerKeyIsDistinct(front);
      if !Holds(FirstPerKey(front), last.key) {
        NewKeyIsDistinct(FirstPerKey(front), last);
      }
      forall k ensures Holds(FirstPerKey(items), k) <==> Holds(items, k) {
        HoldsIsWithKey(FirstPerKey(items), k);
        HoldsIsWithKey(items, k);
        FirstPerKeyKeepsFirst(items, k);
      }
    }
  }

  lemma SortedKeys(targets: seq<Pending>)
    ensures var keys := Map((p: Pending) => p.key, Sort(PendingLe, targets));
            Sorted(KeyLe, keys) && multiset(keys) == multiset(Map((p: Pending) => p.key, targets))
  {
    KeyOrders();
    SortSorts(PendingLe, targets);
    SortPermutes(PendingLe, targets);
    MapPermuted((p: Pending) => p.key, Sort(PendingLe, targets), targets);
    var sorted := Sort(PendingLe, targets);
    assert forall i, j :: 0 <= i < j < |sorted| ==> PendingLe(sorted[i], sorted[j]);
  }

  /** The order of the flush depends on the accepted keys only, not on how the calls interleaved. */
  lemma FlushOrderIsFixed(events: seq<Event>, others: seq<Event>)
    requires Run(START, events).Some? && Run(START, events).value.flush == Sending([])
    requires Run(START, others).Some? && Run(START, others).value.flush == Sending([])
    requires forall k :: Holds(Run(START, events).value.accepted, k) <==> Holds(Run(START, others).value.accepted, k)
    ensures Map((p: Pending) => p.key, Run(START, events).value.attempts)
         == Map((p: Pending) => p.key, Run(START, others).value.attempts)
  {
    InvThroughout(START, events);
    InvThroughout(START, others);
    var a, b := Run(START, events).value, Run(START, others).value;
    assert a.attempts + [] == a.attempts && b.attempts + [] == b.attempts;
    SameKeysSameOrder(a.accepted, b.accepted);
  }

  lemma SameKeysSameOrder(a: seq<Pending>, b: seq<Pending>)
    requires forall k :: Holds(a, k) <==> Holds(b, k)
    ensures Map((p: Pending) => p.key, Sort(PendingLe, FirstPerKey(a)))
         == Map((p: Pending) => p.key, Sort(PendingLe, FirstPerKey(b)))
  {
    var keyOf := (p: Pending) => p.key;
    var x, y := FirstPerKey(a), FirstPerKey(b);
    FirstPerKeyIsDistinct(a);
    FirstPerKeyIsDistinct(b);
    forall k ensures k in Map(keyOf, x) <==> k in Map(keyOf, y) {
      assert k in Map(keyOf, x) <==> Holds(x, k);
      assert k in Map(keyOf, y) <==> Holds(y, k);
    }
    DistinctPermutation(Map(keyOf, x), Map(keyOf, y));
    SortedKeys(x);
    SortedKeys(y);
    KeyOrders();
    StringLeIsOrder();
    forall k, l | KeyLe(k, l) && KeyLe(l, k) ensures k == l {
      LexicographicAntisymmetric(StringLe, k, l);
    }
    SortedUnique(KeyLe, Map(keyOf, Sort(PendingLe, x)), Map(keyOf, Sort(PendingLe, y)));
  }

  // ----- nested scopes

  datatype Error =
    | BodyError(code: int)
    | FlushError
    | Combined(first: Error, second: Error)

  /** A body that runs under `bulk_data_change_notifications`. */
  datatype Statement =
    | Notify(item: Pending)
    | Raise(code: int)
    | Scope(body: seq<Statement>)
    | Try(body: seq<Statement>)

  /** `answers`: what the queue calls returned; `attempts`: what flushes attempted; `batch`: the active
      batch afterwards. */
  datatype Effect = Effect(batch: Option<Batch>, answers: seq<bool>, attempts: seq<Pending>, error: Option<Error>)

  function Flushed(send: Pending -> Sent, targets: seq<Pending>): seq<Pending> {
    Attempted(send, Sort(PendingLe, targets))
  }

  function FlushFailure(send: Pending -> Sent, targets: seq<Pending>): Option<Error> {
    if Aborts(send, Sort(PendingLe, targets)) then Some(FlushError) else None
  }

  function JoinErrors(body: Option<Error>, flush: Option<Error>): Option<Error> {
    if body.None? then flush else if flush.None? then body else Some(Combined(body.value, flush.value))
  }

  /** The outermost scope on its way out. */
  function LeaveScope(inner: Effect, send: Pending -> Sent): Effect {
    var targets := if inner.batch.Some? then inner.batch.value.targets else [];
    Effect(None, inner.answers, inner.attempts + Flushed(send, targets),
           JoinErrors(inner.error, FlushFailure(send, targets)))
  }

  function Execute(body: seq<Statement>, batch: Option<Batch>, send: Pending -> Sent): Effect
    decreases body
  {
    if body == [] then Effect(batch, [], [], None)
    else
      var first := ExecuteOne(body[0], batch, send);
      if first.error.Some? then first
      else
        var rest := Execute(body[1..], first.batch, send);
        Effect(rest.batch, first.answers + rest.answers, first.attempts + rest.attempts, rest.error)
  }

  function ExecuteOne(s: Statement, batch: Option<Batch>, send: Pending -> Sent): Effect
    decreases s
  {
    match s
    case Notify(item) =>
      if batch.None? then Effect(None, [false], [], None)
      else
        var (answer, next) := Queued(batch.value, true, item);
        Effect(Some(next), [answer], [], None)
    case Raise(code) => Effect(batch, [], [], Some(BodyError(code)))
    case Try(body) => Execute(body, batch, send).(error := None)
    case Scope(body) =>
      if batch.Some? then Execute(body, batch, send)
      else LeaveScope(Execute(body, Some(EMPTY), send), send)
  }

  /** What a body does apart from batching: the items it notifies, up to the first exception that
      leaves it, and that exception's code. */
  function Reached(body: seq<Statement>): (seq<Pending>, Option<int>)
    decreases body
  {
    if body == [] then ([], None)
    else
      var (items, code) := ReachedOne(body[0]);
      if code.Some? then (items, code)
      else
        var (later, last) := Reached(body[1..]);
        (items + later, last)
  }

  function ReachedOne(s: Statement): (seq<Pending>, Option<int>)
    decreases s
  {
    match s
    case Notify(item) => ([item], None)
    case Raise(code) => ([], Some(code))
    case Try(body) => (Reached(body).0, None)
    case Scope(body) => Reached(body)
  }

  function ErrorOf(code: Option<int>): Option<Error> {
    if code.None? then None else Some(BodyError(code.value))
  }

  function Trues(n: nat): seq<bool> { seq(n, _ => true) }

  lemma TruesAdd(m: nat, n: nat)
    ensures Trues(m) + Trues(n) == Trues(m + n)
  {
  }

  /** A body inside a batch, in terms of what it reaches. */
  function Inside(queued: seq<Pending>, reached: (seq<Pending>, Option<int>)): Effect {
    Effect(Some(Batch(FirstPerKey(queued + reached.0), true)), Trues(|reached.0|), [], ErrorOf(reached.1))
  }

  lemma InsideSequence(body: seq<Statement>, queued: seq<Pending>, send: Pending -> Sent)
    requires body != [] && ReachedOne(body[0]).1.None?
    requires ExecuteOne(body[0], Some(Batch(FirstPerKey(queued), true)), send) == Inside(queued, ReachedOne(body[0]))
    requires var after := queued + ReachedOne(body[0]).0;
             Execute(body[1..], Some(Batch(FirstPerKey(after), true)), send) == Inside(after, Reached(body[1..]))
    ensures Execute(body, Some(Batch(FirstPerKey(queued), true)), send) == Inside(queued, Reached(body))
  {
    var items, later := ReachedOne(body[0]).0, Reached(body[1..]).0;
    Associate(queued, items, later);
    TruesAdd(|items|, |later|);
    assert Reached(body) == (items + later, Reached(body[1..]).1);
  }

  /** Inside a batch no scope flushes; every call is answered True and its item is queued. */
  lemma {:induction false} InnerScopesAreTransparent(body: seq<Statement>, queued: seq<Pending>, send: Pending -> Sent)
    ensures Execute(body, Some(Batch(FirstPerKey(queued), true)), send) == Inside(queued, Reached(body))
    decreases body
  {
    if body == [] {
      assert queued + [] == queued;
    } else {
      InnerStatementIsTransparent(body[0], queued, send);
      if ReachedOne(body[0]).1.None? {
        InnerScopesAreTransparent(body[1..], queued + ReachedOne(body[0]).0, send);
        InsideSequence(body, queued, send);
      }
    }
  }

  lemma {:induction false} InnerStatementIsTransparent(s: Statement, queued: seq<Pending>, send: Pending -> Sent)
    ensures ExecuteOne(s, Some(Batch(FirstPerKey(queued), true)), send) == Inside(queued, ReachedOne(s))
    decreases s
  {
    match s {
      case Notify(item) => QueuedIsFirstPerKey(queued, item);
      case Raise(_) => assert queued + [] == queued;
      case Scope(body) => InnerScopesAreTransparent(body, queued, send);
      case Try(body) => InnerScopesAreTransparent(body, queued, send);
    }
  }

  lemma LeaveInside(reached: (seq<Pending>, Option<int>), send: Pending -> Sent)
    ensures var targets := FirstPerKey(reached.0);
            LeaveScope(Inside([], reached), send)
            == Effect(None, Trues(|reached.0|), Flushed(send, targets),
                      JoinErrors(ErrorOf(reached.1), FlushFailure(send, targets)))
  {
    assert [] + reached.0 == reached.0;
    assert [] + Flushed(send, FirstPerKey(reached.0)) == Flushed(send, FirstPerKey(reached.0));
  }

  /** An outermost scope flushes exactly once, on its way out, whether or not its body fails: the flush
      attempts the first item of every notified key in key order, and a failed flush joins the
      body's failure. */
  lemma OutermostScopeFlushesOnce(body: seq<Statement>, send: Pending -> Sent)
    ensures var (items, code) := Reached(body);
            var targets := FirstPerKey(items);
            ExecuteOne(Scope(body), None, send)
            == Effect(None, Trues(|items|), Flushed(send, targets),
                      JoinErrors(ErrorOf(code), FlushFailure(send, targets)))
  {
    InnerScopesAreTransparent(body, [], send);
    assert Batch(FirstPerKey([]), true) == EMPTY;
    LeaveInside(Reached(body), send);
  }

  // ----- the objects

  class BatchState {
    var targets: seq<Pending>
    var accepting: bool

    constructor ()
      ensures Contents() == EMPTY
    {
      targets := [];
      accepting := true;
    }

    ghost function Contents(): Batch
      reads this
    {
      Batch(targets, accepting)
    }

    /** The body of `_queue_notification` under the batch's lock. */
    method Queue(item: Pending) returns (answer: bool)
      modifies this
      ensures (answer, Contents()) == Queued(old(Contents()), true, item)
    {
      if !accepting {
        return false;
      }
      if Holds(targets, item.key) {
        return true;
      }
      targets := targets + [item];
      return true;
    }

    /** `_close_batch` */
    method Close()
      modifies this
      ensures Contents() == old(Contents()).(accepting := false)
    {
      accepting := false;
    }

    /** `_flush_sync` and `_flush_notifications` */
    method Flush(send: Pending -> Sent) returns (attempts: seq<Pending>, error: Option<Error>)
      ensures attempts == Flushed(send, targets)
      ensures error == FlushFailure(send, targets)
    {
      attempts, error := [], None;
      if targets == [] {
        return;
      }
      var order := Sort(PendingLe, targets);
      assert order[0..] == order;
      for i := 0 to |order|
        invariant attempts + Attempted(send, order[i..]) == Attempted(send, order)
        invariant Aborts(send, order) <==> Aborts(send, order[i..])
      {
        AttemptedFrom(send, order, i);
        Associate(attempts, [order[i]], Attempted(send, order[i + 1..]));
        attempts := attempts + [order[i]];
        if send(order[i]).Fatal? {
          return attempts, Some(FlushError);
        }
      }
    }
  }

  /** A context with its `_active_batch` variable. */
  class Context {
    var active: BatchState?

    ghost function Current(): Option<Batch>
      reads this, active
    {
      if active == null then None else Some(active.Contents())
    }

    method RunBody(body: seq<Statement>, send: Pending -> Sent)
      returns (answers: seq<bool>, attempts: seq<Pending>, error: Option<Error>)
      modifies this, active
      ensures active == old(active)
      ensures Effect(Current(), answers, attempts, error) == Execute(body, old(Current()), send)
      decreases body, 0
    {
      answers, attempts, error := [], [], None;
      if body == [] {
        return;
      }
      answers, attempts, error := RunStatement(body[0], send);
      if error.Some? {
        return;
      }
      var laterAnswers, laterAttempts, laterError := RunBody(body[1..], send);
      answers, attempts, error := answers + laterAnswers, attempts + laterAttempts, laterError;
    }

    method RunStatement(s: Statement, send: Pending -> Sent)
      returns (answers: seq<bool>, attempts: seq<Pending>, error: Option<Error>)
      modifies this, active
      ensures active == old(active)
      ensures Effect(Current(), answers, attempts, error) == ExecuteOne(s, old(Current()), send)
      decreases s
    {
      answers, attempts, error := [], [], None;
      match s {
        case Notify(item) =>
          var answer := false;
          if active != null {
            answer := active.Queue(item);
          }
          answers := [answer];
        case Raise(code) =>
          error := Some(BodyError(code));
        case Try(body) =>
          answers, attempts, error := RunBody(body, send);
          error := None;
        case Scope(body) =>
          answers, attempts, error := RunScope(body, send);
      }
    }

    /** `bulk_data_change_notifications` around a body. */
    method RunScope(body: seq<Statement>, send: Pending -> Sent)
      returns (answers: seq<bool>, attempts: seq<Pending>, error: Option<Error>)
      modifies this, active
      ensures active == old(active)
      ensures Effect(Current(), answers, attempts, error) == ExecuteOne(Scope(body), old(Current()), send)
      decreases body, 1
    {
      if active != null {
        answers, attempts, error := RunBody(body, send);
        return;
      }
      var state := new BatchState();
      active := state;
      answers, attempts, error := RunBody(body, send);
      state.Close();
      active := null;
      var flushed, failure := state.Flush(send);
      attempts := attempts + flushed;
      error := if error.Some? && failure.Some? then Some(Combined(error.value, failure.value))
               else if error.Some? then error
               else failure;
    }
  }
}
