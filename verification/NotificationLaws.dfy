/** What batching means for who calls it: the order of a flush, the errors of a scope, and how statements
    add up. */
module NotificationLaws {
  import opened Sequences
  import opened Ordering
  import opened NotificationBatch

  // ----- the order of the keys

  ghost predicate PartLess(a: string, b: string) { TextBefore(a, b) && a != b }

  ghost function PartOrder(): (string, string) -> bool {
    (a: string, b: string) => PartLess(a, b)
  }

  /** Python's `<` on tuples of strings. */
  ghost predicate KeyBefore(a: Key, b: Key) { ComesBefore(PartOrder(), a, b) }

  lemma KeyLeMeans(a: Key, b: Key)
    ensures KeyLe(a, b) <==> a == b || KeyBefore(a, b)
  {
    forall x, y ensures PartOrder()(x, y) <==> StringLe(x, y) && x != y {
      StringLeMeans(x, y);
    }
    LexicographicMeans(StringLe, PartOrder(), a, b);
  }

  ghost predicate Ascending(targets: seq<Pending>) {
    forall i, j :: 0 <= i < j < |targets| ==> KeyBefore(targets[i].key, targets[j].key)
  }

  lemma SortedAscends(items: seq<Pending>)
    ensures Ascending(Sort(PendingLe, FirstPerKey(items)))
  {
    var targets, keyOf := FirstPerKey(items), (p: Pending) => p.key;
    var sorted := Sort(PendingLe, targets);
    SortedKeys(targets);
    FirstPerKeyIsDistinct(items);
    PermutedDistinct(Map(keyOf, sorted), Map(keyOf, targets));
    forall i, j | 0 <= i < j < |sorted| ensures KeyBefore(sorted[i].key, sorted[j].key) {
      assert Map(keyOf, sorted)[i] == sorted[i].key && Map(keyOf, sorted)[j] == sorted[j].key;
      KeyLeMeans(sorted[i].key, sorted[j].key);
    }
  }

  lemma AscendingPrefix(targets: seq<Pending>, front: seq<Pending>)
    requires Ascending(targets) && front <= targets
    ensures Ascending(front)
  {
    forall i, j | 0 <= i < j < |front| ensures KeyBefore(front[i].key, front[j].key) {
      assert front[i] == targets[i] && front[j] == targets[j];
    }
  }

  /** In every interleaving, a flush attempts its targets in ascending order of their keys. */
  lemma FlushAscends(events: seq<Event>)
    requires Run(START, events).Some?
    ensures Ascending(Run(START, events).value.attempts)
  {
    InvThroughout(START, events);
    var w := Run(START, events).value;
    SortedAscends(w.accepted);
    if !w.flush.Waiting? {
      AscendingPrefix(Sort(PendingLe, FirstPerKey(w.accepted)), w.attempts);
    }
  }

  // ----- a whole batch

  function Calls(items: seq<Pending>): seq<Event> {
    Map((item: Pending) => Call(true, item), items)
  }

  function Sends(n: nat): seq<Event> { seq(n, _ => SendNext(Delivered)) }

  lemma {:induction false} RunAppend(w: World, events: seq<Event>, more: seq<Event>)
    requires Run(w, events).Some?
    ensures Run(w, events + more) == Run(Run(w, events).value, more)
    decreases events
  {
    if events == [] {
      assert events + more == more;
    } else {
      assert (events + more)[1..] == events[1..] + more;
      RunAppend(Step(w, events[0]).value, events[1..], more);
    }
  }

  lemma {:induction false} CallsRun(w: World, items: seq<Pending>)
    requires w.batch.accepting
    ensures var run := Run(w, Calls(items));
            run.Some? && run.value.batch.accepting && run.value.accepted == w.accepted + items
            && run.value.flush == w.flush && run.value.attempts == w.attempts
    decreases items
  {
    if items == [] {
      assert w.accepted + items == w.accepted;
    } else {
      assert Calls(items) == [Call(true, items[0])] + Calls(items[1..]);
      CallsRun(Step(w, Call(true, items[0])).value, items[1..]);
      Associate(w.accepted, [items[0]], items[1..]);
      assert [items[0]] + items[1..] == items;
    }
  }

  lemma {:induction false} SendsRun(w: World)
    requires w.flush.Sending?
    ensures var run := Run(w, Sends(|w.flush.remaining|));
            run.Some? && run.value == w.(flush := Sending([]), attempts := w.attempts + w.flush.remaining)
    decreases |w.flush.remaining|
  {
    var remaining := w.flush.remaining;
    if remaining == [] {
      assert w.attempts + remaining == w.attempts;
    } else {
      assert Sends(|remaining|)[1..] == Sends(|remaining| - 1);
      SendsRun(Step(w, SendNext(Delivered)).value);
      Associate(w.attempts, [remaining[0]], remaining[1..]);
      assert [remaining[0]] + remaining[1..] == remaining;
    }
  }

  /** Every batch can be filled, closed and flushed to its end: it accepts all items and attempts the first
      one of each key. */
  lemma BatchRuns(items: seq<Pending>) returns (events: seq<Event>)
    ensures Run(START, events).Some?
    ensures var w := Run(START, events).value;
            w.accepted == items && w.flush == Sending([]) && !w.batch.accepting
            && forall key :: WithKey(key, w.attempts) == Take(WithKey(key, items), 1)
  {
    CallsRun(START, items);
    assert START.accepted + items == items;
    var filled := Run(START, Calls(items)).value;
    var closed := Step(filled, CloseBatch).value;
    var begun := Step(closed, StartFlush).value;
    var end := [CloseBatch, StartFlush];
    assert end[1..] == [StartFlush] && [StartFlush][1..] == [];
    assert Run(closed, [StartFlush]) == Run(begun, []);
    assert Run(filled, end) == Some(begun);
    RunAppend(START, Calls(items), end);
    var sends := Sends(|begun.flush.remaining|);
    SendsRun(begun);
    RunAppend(START, Calls(items) + end, sends);
    events := Calls(items) + end + sends;
    forall key ensures WithKey(key, Run(START, events).value.attempts) == Take(WithKey(key, items), 1) {
      NothingLostNothingTwice(events, key);
    }
  }

  /** A call answers True, and its item is accepted, exactly if the caller has the batch and it was not
      closed; the batch then holds the key. */
  lemma AnswerMeans(batch: Batch, batched: bool, item: Pending)
    ensures var (answer, after) := Queued(batch, batched, item);
            && (answer <==> batched && batch.accepting)
            && after.accepting == batch.accepting
            && (!answer ==> after == batch)
            && (answer ==> (exists i :: 0 <= i < |after.targets| && after.targets[i].key == item.key)
                           && batch.targets <= after.targets)
  {
    var (answer, after) := Queued(batch, batched, item);
    if answer && !Holds(batch.targets, item.key) {
      assert after.targets[|batch.targets|] == item;
    }
  }

  // ----- scopes

  /** The attempts of one flush of these items: ascending, the first item of each key and nothing else, all
      of them unless one send is fatal, which is then the last. */
  ghost predicate IsFlushOf(attempts: seq<Pending>, items: seq<Pending>, send: Pending -> Sent) {
    var fatal := exists i :: 0 <= i < |attempts| && send(attempts[i]).Fatal?;
    && Ascending(attempts)
    && (forall i :: 0 <= i < |attempts| - 1 ==> !send(attempts[i]).Fatal?)
    && forall key :: WithKey(key, attempts) <= Take(WithKey(key, items), 1)
                     && (!fatal ==> WithKey(key, attempts) == Take(WithKey(key, items), 1))
  }

  lemma FlushIsFlushOf(items: seq<Pending>, send: Pending -> Sent)
    ensures var attempts := Flushed(send, FirstPerKey(items));
            && IsFlushOf(attempts, items, send)
            && (FlushFailure(send, FirstPerKey(items))
                == if exists i :: 0 <= i < |attempts| && send(attempts[i]).Fatal? then Some(FlushError) else None)
  {
    var sorted := Sort(PendingLe, FirstPerKey(items));
    var attempts := Attempted(send, sorted);
    SortedAscends(items);
    AttemptedIsPrefix(send, sorted);
    AscendingPrefix(sorted, attempts);
    FatalIsLast(send, sorted);
    forall key
      ensures WithKey(key, attempts) <= Take(WithKey(key, items), 1)
      ensures !Aborts(send, sorted) ==> WithKey(key, attempts) == Take(WithKey(key, items), 1)
    {
      FirstOrNone(items, send, key);
    }
  }

  lemma FatalIsLast(send: Pending -> Sent, targets: seq<Pending>)
    ensures var attempts := Attempted(send, targets);
            && (Aborts(send, targets) <==> exists i :: 0 <= i < |attempts| && send(attempts[i]).Fatal?)
            && forall i :: 0 <= i < |attempts| - 1 ==> !send(attempts[i]).Fatal?
  {
    var attempts := Attempted(send, targets);
    AttemptedIsPrefix(send, targets);
    forall i | 0 <= i < |attempts| ensures attempts[i] == targets[i] {
    }
    if Aborts(send, targets) {
      AbortIsAttempted(send, targets);
    }
  }

  lemma FirstOrNone(items: seq<Pending>, send: Pending -> Sent, key: Key)
    ensures var sorted := Sort(PendingLe, FirstPerKey(items));
            var attempts := Attempted(send, sorted);
            && WithKey(key, attempts) <= Take(WithKey(key, items), 1)
            && (!Aborts(send, sorted) ==> WithKey(key, attempts) == Take(WithKey(key, items), 1))
  {
    var sorted := Sort(PendingLe, FirstPerKey(items));
    var attempts := Attempted(send, sorted);
    AttemptedIsPrefix(send, sorted);
    FlushSendsFirstOnce(items, key);
    PrefixWithKey(attempts, sorted, key);
  }

  lemma PrefixWithKey(front: seq<Pending>, all: seq<Pending>, key: Key)
    requires front <= all
    ensures WithKey(key, front) <= WithKey(key, all)
  {
    assert all == front + all[|front|..];
    FilterAppend((p: Pending) => HasKey(key, p), front, all[|front|..]);
  }

  lemma {:induction false} AbortIsAttempted(send: Pending -> Sent, targets: seq<Pending>)
    requires Aborts(send, targets)
    ensures var attempts := Attempted(send, targets);
            exists i :: 0 <= i < |attempts| && send(attempts[i]).Fatal?
  {
    AttemptedFrom(send, targets, 0);
    assert targets[0..] == targets;
    var attempts := Attempted(send, targets);
    if send(targets[0]).Fatal? {
      assert attempts[0] == targets[0];
    } else {
      AbortIsAttempted(send, targets[1..]);
      var rest := Attempted(send, targets[1..]);
      var i :| 0 <= i < |rest| && send(rest[i]).Fatal?;
      assert attempts[i + 1] == rest[i];
    }
  }

  /** What an outermost scope does: every notification in it is answered True; one flush of what was notified,
      whether or not the body fails; and the body's failure, the flush's, or both together. */
  lemma ScopeEffect(body: seq<Statement>, send: Pending -> Sent)
    ensures var (items, code) := Reached(body);
            var effect := ExecuteOne(Scope(body), None, send);
            && effect.batch.None?
            && |effect.answers| == |items| && (forall i :: 0 <= i < |items| ==> effect.answers[i])
            && IsFlushOf(effect.attempts, items, send)
            && var fatal := exists i :: 0 <= i < |effect.attempts| && send(effect.attempts[i]).Fatal?;
               effect.error == if code.Some? && fatal then Some(Combined(BodyError(code.value), FlushError))
                               else if code.Some? then Some(BodyError(code.value))
                               else if fatal then Some(FlushError)
                               else None
  {
    OutermostScopeFlushesOnce(body, send);
    FlushIsFlushOf(Reached(body).0, send);
  }

  /** Outside of every scope a notification is answered False and nothing is sent for it. */
  lemma OutsideIsNotBatched(item: Pending, send: Pending -> Sent)
    ensures ExecuteOne(Notify(item), None, send) == Effect(None, [false], [], None)
  {
  }

  /** Statements run one after the other, up to the first exception. */
  lemma {:induction false} StatementsAddUp(body: seq<Statement>, more: seq<Statement>, batch: Option<Batch>,
                                           send: Pending -> Sent)
    ensures var first := Execute(body, batch, send);
            Execute(body + more, batch, send)
            == if first.error.Some? then first
               else
                 var rest := Execute(more, first.batch, send);
                 Effect(rest.batch, first.answers + rest.answers, first.attempts + rest.attempts, rest.error)
    decreases body
  {
    if body == [] {
      assert body + more == more;
      var rest := Execute(more, batch, send);
      assert [] + rest.answers == rest.answers && [] + rest.attempts == rest.attempts;
    } else {
      assert (body + more)[1..] == body[1..] + more;
      var one := ExecuteOne(body[0], batch, send);
      if one.error.None? {
        StatementsAddUp(body[1..], more, one.batch, send);
        var next := Execute(body[1..], one.batch, send);
        var rest := Execute(more, next.batch, send);
        Associate(one.answers, next.answers, rest.answers);
        Associate(one.attempts, next.attempts, rest.attempts);
      }
    }
  }
}
