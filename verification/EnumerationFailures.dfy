/** Which input orders make the enumeration raise: exactly when some order does, and a check on the
    input fields under which none does. */
module EnumerationFailures {
  import opened Sequences
  import opened InputOrder
  import opened InputEnumeration
  import opened EnumerationLaws

  /** `done` contains the input dependencies of its members. */
  ghost predicate Closed(slots: Slots, done: set<Name>) {
    done <= slots.Keys
    && forall n, d :: n in done && d in slots[n].field.dependsOn && d in slots ==> d in done
  }

  /** After the inputs of `done` got the values of `a`, the domain of `m` can be asked for and raises. */
  ghost predicate RaisingPoint(slots: Slots, done: set<Name>, a: Combination, m: Name) {
    && Closed(slots, done) && a.Keys <= done
    && (forall n :: n in done ==> Settled(slots[n], n, a))
    && m in slots && m !in done
    && (forall d :: d in slots[m].field.dependsOn && d in slots ==> d in done)
    && Breaks(slots[m].field, a)
  }

  ghost predicate CanRaise(slots: Slots) {
    exists done, a, m :: RaisingPoint(slots, done, a, m)
  }

  // ----- a run that raises has reached a raising point

  lemma AgreeingOffer(slots: Slots, n: Name, a: Combination, b: Combination)
    requires n in slots
    requires forall d :: d in slots[n].field.dependsOn ==> (d in a <==> d in b) && (d in a ==> a[d] == b[d])
    ensures GetPossibleValues(n, slots[n].field, a) == GetPossibleValues(n, slots[n].field, b)
  {
    var deps := slots[n].field.dependsOn;
    AgreeingMissing(deps, a, b);
    assert Restrict(a, deps) == Restrict(b, deps);
  }

  lemma {:induction false} AgreeingMissing(deps: seq<Name>, a: Combination, b: Combination)
    requires forall d :: d in deps ==> (d in a <==> d in b)
    ensures FirstMissing(deps, a) == FirstMissing(deps, b)
  {
    if deps != [] {
      assert deps[0] in deps;
      AgreeingMissing(deps[1..], a, b);
    }
  }

  /** What holds where the enumeration has assigned the inputs of `done` and `order` remains. */
  ghost predicate Reached(slots: Slots, done: set<Name>, order: seq<Name>, combo: Combination) {
    && Open(slots, order, combo)
    && Closed(slots, done) && combo.Keys <= done
    && (forall n :: n in slots <==> n in done || n in order)
    && (forall n :: n in order ==> n !in done)
    && (forall n :: n in done ==> Settled(slots[n], n, combo))
  }

  lemma NextDependencies(slots: Slots, done: set<Name>, order: seq<Name>, combo: Combination)
    requires Reached(slots, done, order, combo) && order != []
    ensures order[0] in slots && order[0] !in done
    ensures forall d :: d in slots[order[0]].field.dependsOn && d in slots ==> d in done
    ensures order[0] !in slots[order[0]].field.dependsOn
  {
    assert order[0] in order;
    forall d | d in slots[order[0]].field.dependsOn && d in slots ensures d in done {
      assert d !in order[0..];
    }
    assert order[0..] == order;
  }

  lemma NextReached(slots: Slots, done: set<Name>, order: seq<Name>, combo: Combination, next: Combination)
    requires Reached(slots, done, order, combo) && order != []
    requires next == combo || (order[0] in next && next == combo[order[0] := next[order[0]]])
    requires Settled(slots[order[0]], order[0], next)
    ensures Reached(slots, done + {order[0]}, order[1..], next)
  {
    var n := order[0];
    NextDependencies(slots, done, order, combo);
    OpenTail(slots, order, combo, if n in next then next[n] else Null);
    assert order == [n] + order[1..];
    forall k | k in done ensures Settled(slots[k], k, next) {
      AgreeingOffer(slots, k, combo, next);
      SettledByOffer(slots[k], k, combo);
      SettledByOffer(slots[k], k, next);
    }
  }

  lemma {:induction false} FailurePoint(slots: Slots, done: set<Name>, order: seq<Name>, combo: Combination)
    requires Reached(slots, done, order, combo)
    requires Enumerate(slots, order, combo).failure.Some?
    ensures CanRaise(slots)
    decreases |order|, 0, 0
  {
    var n := order[0];
    var slot := slots[n];
    NextDependencies(slots, done, order, combo);
    match GetPossibleValues(n, slot.field, combo) {
      case Raises(_) =>
        BreaksByOffer(n, slot.field, combo);
        assert RaisingPoint(slots, done, combo, n);
      case Absent =>
        SettledByOffer(slot, n, combo);
        NextReached(slots, done, order, combo, combo);
        FailurePoint(slots, done + {n}, order[1..], combo);
      case Offered(values, fromBucket) =>
        FailurePointEach(slots, done, order, combo, Candidates(slot, values, fromBucket));
    }
  }

  lemma {:induction false} FailurePointEach(slots: Slots, done: set<Name>, order: seq<Name>, combo: Combination,
                                            values: seq<Value>)
    requires Reached(slots, done, order, combo) && order != []
    requires var offer := GetPossibleValues(order[0], slots[order[0]].field, combo);
             offer.Offered? && forall v :: v in values ==>
               v in offer.values && Keeps(slots[order[0]], offer.fromBucket, v)
    requires EnumerateEach(slots, order, combo, values).failure.Some?
    ensures CanRaise(slots)
    decreases |order| - 1, 1, |values|
  {
    var n := order[0];
    if slots[n].field.hasType(values[0]) && Enumerate(slots, order[1..], combo[n := values[0]]).failure.Some? {
      var next := combo[n := values[0]];
      NextDependencies(slots, done, order, combo);
      AgreeingOffer(slots, n, combo, next);
      SettledByOffer(slots[n], n, next);
      NextReached(slots, done, order, combo, next);
      FailurePoint(slots, done + {n}, order[1..], next);
    } else {
      FailurePointEach(slots, done, order, combo, values[1..]);
    }
  }

  lemma StartReached(slots: Slots, order: seq<Name>)
    requires IsInputOrder(DependenciesOf(slots), order)
    ensures Declared(slots, order) && Reached(slots, {}, order, map[])
  {
    InputOrderIsIndependent(slots, order);
    assert forall n :: n in order <==> n in DependenciesOf(slots);
  }

  // ----- a raising point makes some order raise

  lemma {:induction false} EachRaises(slots: Slots, order: seq<Name>, combo: Combination, values: seq<Value>, v: Value)
    requires Declared(slots, order) && order != [] && v in values && slots[order[0]].field.hasType(v)
    requires Enumerate(slots, order[1..], combo[order[0] := v]).failure.Some?
    ensures EnumerateEach(slots, order, combo, values).failure.Some?
    decreases values
  {
    if values[0] != v {
      EachRaises(slots, order, combo, values[1..], v);
    }
  }

  /** With the inputs of `done` first and `m` behind them, the run follows `a` to the raising domain unless
      it raises before. */
  lemma {:induction false} OrderRaises(slots: Slots, before: seq<Name>, m: Name, after: seq<Name>, combo: Combination,
                                       a: Combination)
    requires Open(slots, before + [m] + after, combo)
    requires a - Names(before + [m] + after) == combo
    requires forall n :: n in a && n in before + [m] + after ==> n in before
    requires forall n :: n in before ==> Settled(slots[n], n, a)
    requires GetPossibleValues(m, slots[m].field, a).Raises?
    ensures Enumerate(slots, before + [m] + after, combo).failure.Some?
    decreases before
  {
    var order := before + [m] + after;
    SameOffer(slots, order, combo, a);
    if before != [] {
      var n, rest := before[0], before[1..];
      SettledByOffer(slots[n], n, a);
      assert order[1..] == rest + [m] + after;
      OpenTail(slots, order, combo, Null);
      if n in a {
        OpenTail(slots, order, combo, a[n]);
        Choice(order, combo, a[n], a);
        OrderRaises(slots, rest, m, after, combo[n := a[n]], a);
        var offer := GetPossibleValues(n, slots[n].field, combo);
        assert a[n] in Candidates(slots[n], offer.values, offer.fromBucket);
        EachRaises(slots, order, combo, Candidates(slots[n], offer.values, offer.fromBucket), a[n]);
      } else {
        Skip(order, combo, a);
        OrderRaises(slots, rest, m, after, combo, a);
      }
    }
  }

  /** Each element of a filtered sequence has in front of it what passes of the elements that were in front
      of it. */
  lemma {:induction false} FilterPosition(keep: Name -> bool, s: seq<Name>, j: nat) returns (i: nat)
    requires j < |Filter(keep, s)|
    ensures i < |s| && s[i] == Filter(keep, s)[j] && Filter(keep, s[..i]) == Filter(keep, s)[..j]
    decreases s
  {
    var rest := s[1..];
    if keep(s[0]) && j == 0 {
      i := 0;
    } else {
      var k := FilterPosition(keep, rest, if keep(s[0]) then j - 1 else j);
      i := k + 1;
      assert s[..i][1..] == rest[..k] && s[..i][0] == s[0];
    }
  }

  predicate IsDone(done: set<Name>, n: Name) { n in done }

  predicate IsLate(done: set<Name>, m: Name, n: Name) { n !in done && n != m }

  function Front(order: seq<Name>, done: set<Name>): seq<Name> {
    Filter((n: Name) => IsDone(done, n), order)
  }

  function Back(order: seq<Name>, done: set<Name>, m: Name): seq<Name> {
    Filter((n: Name) => IsLate(done, m, n), order)
  }

  lemma ReorderedMembers(order: seq<Name>, done: set<Name>, m: Name)
    requires Distinct(order) && m in order && m !in done && forall n :: n in done ==> n in order
    ensures var other := Front(order, done) + [m] + Back(order, done, m);
            Distinct(other) && forall n :: n in other <==> n in order
  {
    var front, back := Front(order, done), Back(order, done, m);
    var other := front + [m] + back;
    FilterDistinct((n: Name) => IsDone(done, n), order);
    FilterDistinct((n: Name) => IsLate(done, m, n), order);
    assert forall i :: 0 <= i < |front| ==> front[i] in front;
    assert forall i :: 0 <= i < |back| ==> back[i] in back;
    forall n ensures n in other <==> n in order {
      assert n in other <==> n in front || n == m || n in back;
    }
  }

  lemma FrontDependencies(slots: Slots, order: seq<Name>, done: set<Name>, j: nat, d: Name)
    requires IsInputOrder(DependenciesOf(slots), order) && Closed(slots, done) && j < |Front(order, done)|
    requires var n := Front(order, done)[j]; n in slots && d in slots[n].field.dependsOn && d in slots
    ensures d in Front(order, done)[..j]
  {
    var i := FilterPosition((n: Name) => IsDone(done, n), order, j);
    assert Front(order, done)[j] in Front(order, done);
    assert d in order[..i];
  }

  lemma BackDependencies(slots: Slots, order: seq<Name>, done: set<Name>, m: Name, j: nat, d: Name)
    requires IsInputOrder(DependenciesOf(slots), order) && j < |Back(order, done, m)|
    requires var n := Back(order, done, m)[j]; n in slots && d in slots[n].field.dependsOn && d in slots
    ensures d in done || d == m || d in Back(order, done, m)[..j]
  {
    var i := FilterPosition((n: Name) => IsLate(done, m, n), order, j);
    assert d in order[..i];
  }

  lemma Before<T>(front: seq<T>, m: T, back: seq<T>, j: nat)
    requires j < |front| + 1 + |back|
    ensures j < |front| ==> (front + [m] + back)[..j] == front[..j] && (front + [m] + back)[j] == front[j]
    ensures j == |front| ==> (front + [m] + back)[..j] == front && (front + [m] + back)[j] == m
    ensures j > |front| ==> (front + [m] + back)[..j] == front + [m] + back[..j - |front| - 1]
                            && (front + [m] + back)[j] == back[j - |front| - 1]
  {
  }

  lemma ReorderedDependency(slots: Slots, order: seq<Name>, done: set<Name>, m: Name, j: nat, d: Name)
    requires IsInputOrder(DependenciesOf(slots), order) && Closed(slots, done) && m in slots && m !in done
    requires forall d :: d in slots[m].field.dependsOn && d in slots ==> d in done
    requires j < |Front(order, done)| + 1 + |Back(order, done, m)|
    requires var n := (Front(order, done) + [m] + Back(order, done, m))[j];
             n in slots && d in slots[n].field.dependsOn && d in slots
    ensures d in (Front(order, done) + [m] + Back(order, done, m))[..j]
  {
    var front, back := Front(order, done), Back(order, done, m);
    Before(front, m, back, j);
    assert d in done ==> d in order && d in front by {
      assert d in DependenciesOf(slots);
    }
    if j < |front| {
      FrontDependencies(slots, order, done, j, d);
    } else if j > |front| {
      BackDependencies(slots, order, done, m, j - |front| - 1, d);
    }
  }

  lemma ReorderedIsInputOrder(slots: Slots, order: seq<Name>, done: set<Name>, m: Name)
    requires IsInputOrder(DependenciesOf(slots), order) && Closed(slots, done) && m in slots && m !in done
    requires forall d :: d in slots[m].field.dependsOn && d in slots ==> d in done
    ensures IsInputOrder(DependenciesOf(slots), Front(order, done) + [m] + Back(order, done, m))
  {
    var deps := DependenciesOf(slots);
    var other := Front(order, done) + [m] + Back(order, done, m);
    assert forall n :: n in order <==> n in deps;
    ReorderedMembers(order, done, m);
    forall j, d | 0 <= j < |other| && other[j] in deps && d in deps[other[j]] && d in deps ensures d in other[..j] {
      ReorderedDependency(slots, order, done, m, j, d);
    }
  }

  lemma RaisingPointRaises(slots: Slots, order: seq<Name>, done: set<Name>, a: Combination, m: Name)
    requires IsInputOrder(DependenciesOf(slots), order) && RaisingPoint(slots, done, a, m)
    ensures var other := Front(order, done) + [m] + Back(order, done, m);
            IsInputOrder(DependenciesOf(slots), other) && Declared(slots, other)
            && Enumerate(slots, other, map[]).failure.Some?
  {
    var front, back := Front(order, done), Back(order, done, m);
    var other := front + [m] + back;
    ReorderedIsInputOrder(slots, order, done, m);
    StartReached(slots, other);
    assert forall n :: n in order <==> n in DependenciesOf(slots);
    forall n | n in a ensures n in Names(other) && n in front {
      assert n in done && n in order;
      assert n in front && n in other;
    }
    assert a - Names(other) == map[];
    BreaksByOffer(m, slots[m].field, a);
    OrderRaises(slots, front, m, back, map[], a);
  }

  /** An order that respects the dependencies and makes the enumeration raise. */
  ghost predicate RaisingOrder(slots: Slots, order: seq<Name>) {
    IsInputOrder(DependenciesOf(slots), order) && Declared(slots, order) && Enumerate(slots, order, map[]).failure.Some?
  }

  /** Some order raises exactly when some inputs, closed under dependencies, can be given admissible values
      under which the domain of an input that depends on nothing else raises. */
  lemma SomeOrderRaisesExactly(slots: Slots, order: seq<Name>)
    requires IsInputOrder(DependenciesOf(slots), order)
    ensures (exists other :: RaisingOrder(slots, other)) <==> CanRaise(slots)
  {
    if other :| RaisingOrder(slots, other) {
      StartReached(slots, other);
      FailurePoint(slots, {}, other, map[]);
    }
    if CanRaise(slots) {
      var done, a, m :| RaisingPoint(slots, done, a, m);
      RaisingPointRaises(slots, order, done, a, m);
      assert RaisingOrder(slots, Front(order, done) + [m] + Back(order, done, m));
    }
  }

  /** The run along `other` raises nothing and emits what the run along `order` emits, equally often. */
  ghost predicate RunsAlike(slots: Slots, order: seq<Name>, other: seq<Name>)
    requires Declared(slots, order)
  {
    && Declared(slots, other)
    && Enumerate(slots, other, map[]).failure.None?
    && multiset(Enumerate(slots, other, map[]).emitted) == multiset(Enumerate(slots, order, map[]).emitted)
  }

  /** All orders generate the same combinations equally often and raise nothing, exactly when there is no
      raising point. */
  lemma OrdersAgreeExactly(slots: Slots, order: seq<Name>)
    requires IsInputOrder(DependenciesOf(slots), order) && Declared(slots, order)
    ensures (forall other :: IsInputOrder(DependenciesOf(slots), other) ==> RunsAlike(slots, order, other))
       <==> !CanRaise(slots)
  {
    SomeOrderRaisesExactly(slots, order);
    if !CanRaise(slots) {
      forall other | IsInputOrder(DependenciesOf(slots), other) ensures RunsAlike(slots, order, other) {
        StartReached(slots, other);
        assert !RaisingOrder(slots, other) && !RaisingOrder(slots, order);
        EmittedAlike(slots, order, other);
      }
    }
  }

  // ----- a check on the fields

  ghost predicate NeverAbsent(possible: PossibleValues) {
    match possible
    case Static(domain) => !domain.NoDomain?
    case Provider(provide) => forall c :: !provide(c).NoDomain?
  }

  ghost predicate NeverMalformed(possible: PossibleValues) {
    match possible
    case Static(domain) => !domain.Malformed?
    case Provider(provide) => forall c :: !provide(c).Malformed?
  }

  /** No malformed domain, a domain for every required input, and providers that depend on inputs with a
      domain only. */
  ghost predicate SafeField(slots: Slots, field: InputField) {
    && NeverMalformed(field.possibleValues)
    && (field.required ==> NeverAbsent(field.possibleValues))
    && (field.possibleValues.Provider? ==>
          forall d :: d in field.dependsOn ==> d in slots && NeverAbsent(slots[d].field.possibleValues))
  }

  ghost predicate SafeFields(slots: Slots) {
    forall n :: n in slots ==> SafeField(slots, slots[n].field)
  }

  lemma {:induction false} NothingMissing(deps: seq<Name>, a: Combination)
    requires forall d :: d in deps ==> d in a
    ensures FirstMissing(deps, a).None?
    decreases deps
  {
    if deps != [] {
      assert deps[0] in deps;
      NothingMissing(deps[1..], a);
    }
  }

  lemma SafeFieldOffers(slots: Slots, field: InputField, m: Name, a: Combination)
    requires SafeField(slots, field)
    requires field.possibleValues.Provider? ==> FirstMissing(field.dependsOn, a).None?
    ensures !GetPossibleValues(m, field, a).Raises?
  {
  }

  lemma SettledIsPresent(slot: Slot, n: Name, a: Combination)
    requires Settled(slot, n, a) && NeverAbsent(slot.field.possibleValues)
    ensures n in a
  {
  }

  lemma SafeFieldsHaveNoRaisingPoint(slots: Slots, done: set<Name>, a: Combination, m: Name)
    requires SafeFields(slots)
    ensures !RaisingPoint(slots, done, a, m)
  {
    if m in slots && (forall n :: n in done ==> n in slots && Settled(slots[n], n, a))
       && (forall d :: d in slots[m].field.dependsOn && d in slots ==> d in done) {
      var field := slots[m].field;
      assert SafeField(slots, field);
      if field.possibleValues.Provider? {
        forall d | d in field.dependsOn ensures d in a {
          SettledIsPresent(slots[d], d, a);
        }
        NothingMissing(field.dependsOn, a);
      }
      SafeFieldOffers(slots, field, m, a);
      BreaksByOffer(m, field, a);
    }
  }

  /** With safe fields every two orders generate the same combinations equally often, and none raises. */
  lemma OrderIndependent(slots: Slots, order: seq<Name>, other: seq<Name>)
    requires IsInputOrder(DependenciesOf(slots), order) && IsInputOrder(DependenciesOf(slots), other)
    requires Declared(slots, order) && SafeFields(slots)
    ensures RunsAlike(slots, order, other) && Enumerate(slots, order, map[]).failure.None?
  {
    forall done, a, m ensures !RaisingPoint(slots, done, a, m) {
      SafeFieldsHaveNoRaisingPoint(slots, done, a, m);
    }
    OrdersAgreeExactly(slots, order);
    assert RunsAlike(slots, order, order);
  }
}
