/** What the backtracking enumerator computes: exactly the admissible assignments, with the
    multiplicities of the offered values, whatever dependency-respecting order is used. */
module EnumerationLaws {
  import opened Sequences
  import opened InputOrder
  import opened InputEnumeration

  function Names(order: seq<Name>): set<Name> { set n | n in order }

  function DependenciesOf(slots: Slots): Dependencies {
    map n | n in slots :: slots[n].field.dependsOn
  }

  /** No remaining input depends on itself or on an input that comes later. */
  ghost predicate Independent(slots: Slots, order: seq<Name>)
    requires Declared(slots, order)
  {
    forall i, d :: 0 <= i < |order| && d in slots[order[i]].field.dependsOn ==> d !in order[i..]
  }

  lemma InputOrderIsIndependent(slots: Slots, order: seq<Name>)
    requires IsInputOrder(DependenciesOf(slots), order)
    ensures Declared(slots, order) && Independent(slots, order)
  {
    var deps := DependenciesOf(slots);
    forall n | n in order ensures n in slots {
      assert n in deps;
    }
    forall i, d | 0 <= i < |order| && d in slots[order[i]].field.dependsOn ensures d !in order[i..] {
      assert order[i] in deps && d in deps[order[i]];
      if d in deps {
        assert d in order[..i];
      } else {
        assert d !in order;
      }
    }
  }

  lemma IndependentTail(slots: Slots, order: seq<Name>)
    requires Declared(slots, order) && Independent(slots, order) && order != []
    ensures Declared(slots, order[1..]) && Independent(slots, order[1..])
  {
    var rest := order[1..];
    forall i, d | 0 <= i < |rest| && d in slots[rest[i]].field.dependsOn ensures d !in rest[i..] {
      assert rest[i] == order[i + 1] && rest[i..] == order[i + 1..];
    }
  }

  // ----- the declarative meaning of an assignment

  /** What a provider is given: every declared dependency with its value, and nothing else. */
  ghost predicate Given(field: InputField, a: Combination, given: Combination) {
    && given.Keys == (set d | d in field.dependsOn)
    && forall d :: d in field.dependsOn ==> d in a && given[d] == a[d]
  }

  /** The input's possible values: a fixed domain, or the provider's answer to its dependencies. */
  ghost predicate HasDomain(field: InputField, a: Combination, domain: Domain) {
    match field.possibleValues
    case Static(fixed) => domain == fixed
    case Provider(provide) => exists given :: Given(field, a, given) && domain == provide(given)
  }

  /** All filters hold of the value and no exclude does. */
  ghost predicate Satisfies(slot: Slot, v: Value) {
    && (forall i :: 0 <= i < |slot.filterFuncs| ==> slot.filterFuncs[i](v))
    && (forall i :: 0 <= i < |slot.excludeFuncs| ==> !slot.excludeFuncs[i](v))
  }

  /** The value has the input's type and passes its criteria: the predicates for a list, those of the bucket
      for managers. */
  ghost predicate Takes(slot: Slot, domain: Domain, v: Value) {
    slot.field.hasType(v) && if domain.Managers? then slot.bucketKeeps(v) else Satisfies(slot, v)
  }

  /** With that domain, the assignment is right about the input: an offered value that passes, or, for an
      optional input without a domain, none at all if the criteria accept None. */
  ghost predicate Fits(slot: Slot, name: Name, a: Combination, domain: Domain) {
    match domain
    case NoDomain => !slot.field.required && name !in a && Satisfies(slot, Null)
    case Malformed => false
    case Items(values) => name in a && a[name] in values && Takes(slot, domain, a[name])
    case Managers(values) => name in a && a[name] in values && Takes(slot, domain, a[name])
  }

  /** How many times that domain offers what the assignment says about the input. */
  ghost function Times(slot: Slot, name: Name, a: Combination, domain: Domain): nat {
    if !Fits(slot, name, a, domain) then 0
    else if domain.NoDomain? then 1
    else multiset(domain.items)[a[name]]
  }

  /** How often the input's domain offers the value that `a` gives it. */
  ghost function Multiplicity(slots: Slots, name: Name, a: Combination): nat
    requires name in slots
  {
    if domain :| HasDomain(slots[name].field, a, domain) then Times(slots[name], name, a, domain) else 0
  }

  ghost function Weight(slots: Slots, order: seq<Name>, a: Combination): nat
    requires Declared(slots, order)
  {
    if order == [] then 1
    else Multiplicity(slots, order[0], a) * Weight(slots, order[1..], a)
  }

  /** All dependencies are there, and the assignment fits the domain that they give. */
  ghost predicate Settled(slot: Slot, name: Name, a: Combination) {
    exists domain :: HasDomain(slot.field, a, domain) && Fits(slot, name, a, domain)
  }

  ghost predicate Admissible(slots: Slots, a: Combination) {
    && a.Keys <= slots.Keys
    && forall n :: n in slots ==> Settled(slots[n], n, a)
  }

  /** Asking for the possible values raises: a dependency of a provider is missing, a required input has no
      domain, or the domain is malformed. */
  ghost predicate Breaks(field: InputField, a: Combination) {
    || (field.possibleValues.Provider? && exists d :: d in field.dependsOn && d !in a)
    || (exists domain :: HasDomain(field, a, domain) && (domain.Malformed? || (domain.NoDomain? && field.required)))
  }

  // ----- the same as the enumerator asks for it

  lemma SameGiven(field: InputField, a: Combination, given: Combination, other: Combination)
    requires Given(field, a, given) && Given(field, a, other)
    ensures given == other
  {
    forall d | d in given ensures d in field.dependsOn && given[d] == other[d] {
      assert d in given.Keys;
    }
  }

  lemma OneDomain(field: InputField, a: Combination, domain: Domain, other: Domain)
    requires HasDomain(field, a, domain) && HasDomain(field, a, other)
    ensures domain == other
  {
    if field.possibleValues.Provider? {
      var provide := field.possibleValues.provide;
      var given :| Given(field, a, given) && domain == provide(given);
      var same :| Given(field, a, same) && other == provide(same);
      SameGiven(field, a, given, same);
    }
  }

  lemma {:induction false} MissingMeans(names: seq<Name>, a: Combination)
    ensures match FirstMissing(names, a)
            case None => forall d :: d in names ==> d in a
            case Some(d) => d in names && d !in a
    decreases names
  {
    if names != [] {
      MissingMeans(names[1..], a);
    }
  }

  /** `get_possible_values` looks at the input's domain under the declared dependency values. */
  lemma OfferByDomain(name: Name, field: InputField, a: Combination) returns (domain: Option<Domain>)
    ensures match domain
            case Some(d) => HasDomain(field, a, d) && GetPossibleValues(name, field, a) == OfferOf(name, field, d)
            case None => field.possibleValues.Provider? && GetPossibleValues(name, field, a).Raises?
                         && (exists d :: d in field.dependsOn && d !in a) && forall d :: !HasDomain(field, a, d)
  {
    MissingMeans(field.dependsOn, a);
    match field.possibleValues {
      case Static(fixed) => domain := Some(fixed);
      case Provider(provide) =>
        if FirstMissing(field.dependsOn, a).Some? {
          domain := None;
        } else {
          assert Given(field, a, Restrict(a, field.dependsOn));
          domain := Some(provide(Restrict(a, field.dependsOn)));
        }
    }
  }

  ghost predicate OfferSettles(slot: Slot, name: Name, a: Combination) {
    match GetPossibleValues(name, slot.field, a)
    case Raises(_) => false
    case Absent => name !in a && PassesFuncs(slot, Null)
    case Offered(values, fromBucket) =>
      name in a && a[name] in values && slot.field.hasType(a[name]) && Keeps(slot, fromBucket, a[name])
  }

  lemma SettledByOffer(slot: Slot, name: Name, a: Combination)
    ensures Settled(slot, name, a) <==> OfferSettles(slot, name, a)
  {
    var domain := OfferByDomain(name, slot.field, a);
    if domain.Some? {
      forall d | HasDomain(slot.field, a, d) ensures d == domain.value {
        OneDomain(slot.field, a, d, domain.value);
      }
    }
  }

  lemma BreaksByOffer(name: Name, field: InputField, a: Combination)
    ensures Breaks(field, a) <==> GetPossibleValues(name, field, a).Raises?
  {
    var domain := OfferByDomain(name, field, a);
    if domain.Some? {
      MissingMeans(field.dependsOn, a);
      forall d | HasDomain(field, a, d) ensures d == domain.value {
        OneDomain(field, a, d, domain.value);
      }
    }
  }

  lemma MultiplicityByOffer(slots: Slots, name: Name, a: Combination)
    requires name in slots
    ensures var slot := slots[name];
            Multiplicity(slots, name, a)
            == if !OfferSettles(slot, name, a) then 0
               else match GetPossibleValues(name, slot.field, a)
                 case Offered(values, _) => multiset(values)[a[name]]
                 case _ => 1
  {
    var slot := slots[name];
    var domain := OfferByDomain(name, slot.field, a);
    if domain.Some? {
      forall d | HasDomain(slot.field, a, d) ensures d == domain.value {
        OneDomain(slot.field, a, d, domain.value);
      }
    }
  }

  // ----- counting what is generated

  lemma SameOffer(slots: Slots, order: seq<Name>, combo: Combination, a: Combination)
    requires Declared(slots, order) && Independent(slots, order) && order != []
    requires a - Names(order) == combo
    ensures GetPossibleValues(order[0], slots[order[0]].field, combo)
         == GetPossibleValues(order[0], slots[order[0]].field, a)
  {
    var deps := slots[order[0]].field.dependsOn;
    assert order[0..] == order;
    SameDependencies(deps, combo, a, Names(order));
  }

  lemma SameDependencies(deps: seq<Name>, combo: Combination, a: Combination, names: set<Name>)
    requires a - names == combo && forall d :: d in deps ==> d !in names
    ensures FirstMissing(deps, combo) == FirstMissing(deps, a)
    ensures Restrict(combo, deps) == Restrict(a, deps)
  {
    SameMissing(deps, combo, a, names);
    forall k | k in deps ensures k in combo <==> k in a {
    }
  }

  lemma {:induction false} SameMissing(deps: seq<Name>, combo: Combination, a: Combination, names: set<Name>)
    requires a - names == combo && forall d :: d in deps ==> d !in names
    ensures FirstMissing(deps, combo) == FirstMissing(deps, a)
  {
    if deps != [] {
      assert deps[0] in deps;
      SameMissing(deps[1..], combo, a, names);
    }
  }

  /** Choosing `v` for the next input: what must then hold of the rest. */
  lemma Choice(order: seq<Name>, combo: Combination, v: Value, a: Combination)
    requires order != [] && order[0] !in order[1..] && order[0] !in combo
    ensures a - Names(order[1..]) == combo[order[0] := v]
       <==> order[0] in a && a[order[0]] == v && a - Names(order) == combo
  {
    var n := order[0];
    forall k ensures k in order <==> k == n || k in order[1..] {
    }
    if a - Names(order[1..]) == combo[n := v] {
      var kept := a - Names(order[1..]);
      assert n in combo[n := v];
      assert n in kept && kept[n] == v;
      forall k ensures k in a - Names(order) <==> k in combo {
        assert k != n ==> (k in combo <==> k in kept);
      }
      forall k | k in combo ensures (a - Names(order))[k] == combo[k] {
        assert k in kept && kept[k] == combo[k];
      }
    }
    if n in a && a[n] == v && a - Names(order) == combo {
      forall k ensures k in a - Names(order[1..]) <==> k in combo[n := v] {
        assert k != n ==> (k in combo <==> k in a - Names(order));
      }
    }
  }

  lemma Skip(order: seq<Name>, combo: Combination, a: Combination)
    requires order != [] && order[0] !in order[1..] && order[0] !in combo
    ensures a - Names(order[1..]) == combo <==> order[0] !in a && a - Names(order) == combo
  {
    var n := order[0];
    forall k ensures k in order <==> k == n || k in order[1..] {
    }
    if a - Names(order[1..]) == combo {
      assert n !in a - Names(order[1..]);
    }
    if n !in a && a - Names(order) == combo {
      forall k ensures k in a - Names(order[1..]) <==> k in combo {
      }
    }
  }

  ghost predicate Open(slots: Slots, order: seq<Name>, combo: Combination) {
    && Declared(slots, order) && Independent(slots, order) && Distinct(order)
    && forall n :: n in order ==> n !in combo
  }

  lemma OpenTail(slots: Slots, order: seq<Name>, combo: Combination, v: Value)
    requires Open(slots, order, combo) && order != []
    ensures order[0] in order && order[0] !in order[1..]
    ensures Open(slots, order[1..], combo) && Open(slots, order[1..], combo[order[0] := v])
  {
    IndependentTail(slots, order);
  }

  /** The first factor of a weight, with the domain taken from the combination built so far. */
  lemma FirstFactor(slots: Slots, order: seq<Name>, combo: Combination, a: Combination)
    requires Open(slots, order, combo) && order != [] && a - Names(order) == combo
    ensures var slot, n, offer := slots[order[0]], order[0], GetPossibleValues(order[0], slots[order[0]].field, combo);
            && (offer.Absent? ==> Multiplicity(slots, n, a) == if n !in a && PassesFuncs(slot, Null) then 1 else 0)
            && (offer.Offered? ==>
                  Multiplicity(slots, n, a)
                  == if n in a && slot.field.hasType(a[n])
                     then multiset(Candidates(slot, offer.values, offer.fromBucket))[a[n]] else 0)
  {
    var slot, n, offer := slots[order[0]], order[0], GetPossibleValues(order[0], slots[order[0]].field, combo);
    SameOffer(slots, order, combo, a);
    MultiplicityByOffer(slots, n, a);
    if offer.Offered? && n in a {
      FilterCounts(v => Keeps(slot, offer.fromBucket, v), offer.values, a[n]);
    }
  }

  /** Every completion `a` of `combo` is emitted once for each way of picking its values. */
  lemma {:induction false} Counts(slots: Slots, order: seq<Name>, combo: Combination, a: Combination)
    requires Open(slots, order, combo)
    requires Enumerate(slots, order, combo).failure.None?
    ensures multiset(Enumerate(slots, order, combo).emitted)[a]
         == if a - Names(order) == combo then Weight(slots, order, a) else 0
    decreases |order|, 0, 0
  {
    if order == [] {
      assert a - Names(order) == a;
    } else {
      var slot := slots[order[0]];
      OpenTail(slots, order, combo, Null);
      if a - Names(order) == combo {
        FirstFactor(slots, order, combo, a);
      }
      match GetPossibleValues(order[0], slot.field, combo) {
        case Raises(_) =>
        case Absent =>
          Skip(order, combo, a);
          if PassesFuncs(slot, Null) {
            Counts(slots, order[1..], combo, a);
          }
        case Offered(values, fromBucket) =>
          CountsEach(slots, order, combo, Candidates(slot, values, fromBucket), a);
      }
    }
  }

  lemma {:induction false} CountsEach(slots: Slots, order: seq<Name>, combo: Combination, values: seq<Value>,
                                      a: Combination)
    requires Open(slots, order, combo) && order != []
    requires EnumerateEach(slots, order, combo, values).failure.None?
    ensures multiset(EnumerateEach(slots, order, combo, values).emitted)[a]
         == if a - Names(order) == combo && order[0] in a && slots[order[0]].field.hasType(a[order[0]])
            then multiset(values)[a[order[0]]] * Weight(slots, order[1..], a) else 0
    decreases |order| - 1, 1, |values|
  {
    if values != [] {
      var v := values[0];
      CountsEach(slots, order, combo, values[1..], a);
      CountsSplit(values, Weight(slots, order[1..], a));
      if slots[order[0]].field.hasType(v) {
        OpenTail(slots, order, combo, v);
        Counts(slots, order[1..], combo[order[0] := v], a);
        Choice(order, combo, v, a);
      }
    }
  }

  lemma CountsSplit<T(!new)>(values: seq<T>, w: nat)
    requires values != []
    ensures forall x :: multiset(values)[x] * w
                     == (if x == values[0] then w else 0) + multiset(values[1..])[x] * w
  {
    assert values == [values[0]] + values[1..];
    forall x ensures multiset(values)[x] * w == (if x == values[0] then w else 0) + multiset(values[1..])[x] * w {
      var m := multiset(values[1..])[x];
      assert multiset(values)[x] == (if x == values[0] then 1 else 0) + m;
      assert (1 + m) * w == w + m * w;
    }
  }

  // ----- sound and complete

  lemma PositiveProduct(x: nat, y: nat)
    ensures x * y > 0 <==> x > 0 && y > 0
  {
    if x > 0 && y > 0 {
      assert x * y >= y;
    }
  }

  lemma {:induction false} WeightPositive(slots: Slots, order: seq<Name>, a: Combination)
    requires Declared(slots, order)
    ensures Weight(slots, order, a) > 0 <==> forall n :: n in order ==> Settled(slots[n], n, a)
  {
    if order != [] {
      var n := order[0];
      WeightPositive(slots, order[1..], a);
      SettledByOffer(slots[n], n, a);
      MultiplicityByOffer(slots, n, a);
      PositiveProduct(Multiplicity(slots, n, a), Weight(slots, order[1..], a));
      assert forall m :: m in order <==> m == n || m in order[1..];
    }
  }

  /** A run that raises nothing emits exactly the admissible assignments. */
  lemma SoundAndComplete(slots: Slots, order: seq<Name>, a: Combination)
    requires IsInputOrder(DependenciesOf(slots), order)
    requires Declared(slots, order) && Enumerate(slots, order, map[]).failure.None?
    ensures a in Enumerate(slots, order, map[]).emitted <==> Admissible(slots, a)
  {
    InputOrderIsIndependent(slots, order);
    Counts(slots, order, map[], a);
    WeightPositive(slots, order, a);
    assert a in Enumerate(slots, order, map[]).emitted
      <==> a in multiset(Enumerate(slots, order, map[]).emitted);
    assert forall n :: n in order <==> n in DependenciesOf(slots);
    assert Names(order) == slots.Keys;
    if a - Names(order) == map[] {
      forall k | k in a ensures k in slots {
        assert k in Names(order) || k in a - Names(order);
      }
    }
    if a.Keys <= slots.Keys {
      assert a - Names(order) == map[];
    }
  }

  // ----- the order does not matter

  lemma {:induction false} WeightPulled(slots: Slots, order: seq<Name>, i: nat, a: Combination)
    requires Declared(slots, order) && i < |order|
    ensures Declared(slots, order[..i] + order[i + 1..])
    ensures Weight(slots, order, a)
         == Multiplicity(slots, order[i], a) * Weight(slots, order[..i] + order[i + 1..], a)
  {
    var without := order[..i] + order[i + 1..];
    if i == 0 {
      assert without == order[1..];
    } else {
      var rest := order[1..];
      var shorter := rest[..i - 1] + rest[i..];
      WeightPulled(slots, rest, i - 1, a);
      assert without[0] == order[0] && without[1..] == shorter && rest[i - 1] == order[i];
      Swap(Multiplicity(slots, order[0], a), Multiplicity(slots, order[i], a), Weight(slots, shorter, a));
    }
  }

  lemma Swap(x: nat, y: nat, z: nat)
    ensures x * (y * z) == y * (x * z)
  {
  }

  lemma {:induction false} WeightPermuted(slots: Slots, order: seq<Name>, other: seq<Name>, a: Combination)
    requires Declared(slots, order) && Declared(slots, other) && multiset(order) == multiset(other)
    ensures Weight(slots, order, a) == Weight(slots, other, a)
  {
    assert |multiset(order)| == |order| && |multiset(other)| == |other|;
    if order != [] {
      assert order[0] in multiset(other);
      var i :| 0 <= i < |other| && other[i] == order[0];
      WeightPulled(slots, other, i, a);
      PulledMultisets(order, other, i);
      WeightPermuted(slots, order[1..], other[..i] + other[i + 1..], a);
    }
  }

  /** Two dependency-respecting runs that raise nothing generate the same combinations equally often. */
  lemma EmittedAlike(slots: Slots, order: seq<Name>, other: seq<Name>)
    requires IsInputOrder(DependenciesOf(slots), order) && IsInputOrder(DependenciesOf(slots), other)
    requires Declared(slots, order) && Declared(slots, other)
    requires Enumerate(slots, order, map[]).failure.None? && Enumerate(slots, other, map[]).failure.None?
    ensures multiset(Enumerate(slots, order, map[]).emitted) == multiset(Enumerate(slots, other, map[]).emitted)
  {
    InputOrderIsIndependent(slots, order);
    InputOrderIsIndependent(slots, other);
    DistinctPermutation(order, other);
    assert Names(order) == Names(other);
    forall a ensures multiset(Enumerate(slots, order, map[]).emitted)[a]
                  == multiset(Enumerate(slots, other, map[]).emitted)[a] {
      Counts(slots, order, map[], a);
      Counts(slots, other, map[], a);
      WeightPermuted(slots, order, other, a);
    }
  }

  /** Whether anything is raised does depend on the order: an empty domain placed first hides a
      required input without a domain. */
  lemma FailuresDependOnOrder(empty: Slot, broken: Slot)
    requires empty.field.dependsOn == [] && empty.field.possibleValues == Static(Items([]))
    requires broken.field.dependsOn == [] && broken.field.possibleValues == Static(NoDomain) && broken.field.required
    ensures var slots := map["a" := empty, "b" := broken];
            && IsInputOrder(DependenciesOf(slots), ["a", "b"]) && IsInputOrder(DependenciesOf(slots), ["b", "a"])
            && Enumerate(slots, ["a", "b"], map[]) == Generated([], None)
            && Enumerate(slots, ["b", "a"], map[]) == Generated([], Some(InvalidPossibleValues("b")))
  {
    var slots := map["a" := empty, "b" := broken];
    assert Candidates(empty, [], false) == [];
    assert ["a", "b"][0] == "a" && ["b", "a"][0] == "b";
    assert forall n :: n in ["a", "b"] <==> n in DependenciesOf(slots);
    assert forall n :: n in ["b", "a"] <==> n in DependenciesOf(slots);
  }

  // ----- pushing the filters down changes nothing

  function Unrestrict(slot: Slot): Slot {
    slot.(filterFuncs := [], excludeFuncs := [], bucketKeeps := (v: Value) => true,
          field := slot.field.(hasType := (v: Value) => true))
  }

  function Unrestricted(slots: Slots): Slots {
    map n | n in slots :: Unrestrict(slots[n])
  }

  /** The test a complete assignment is put to afterwards. */
  ghost predicate Accepted(slots: Slots, order: seq<Name>, a: Combination)
    requires Declared(slots, order)
  {
    forall n :: n in order ==> AcceptedAt(slots[n], n, a)
  }

  /** The value passes the criteria, or there is none to pass and they accept None. */
  ghost predicate AcceptedAt(slot: Slot, name: Name, a: Combination) {
    exists domain :: HasDomain(slot.field, a, domain) && match domain
      case NoDomain => !slot.field.required && Satisfies(slot, Null)
      case Malformed => false
      case Items(_) => name in a && Takes(slot, domain, a[name])
      case Managers(_) => name in a && Takes(slot, domain, a[name])
  }

  lemma AcceptedByOffer(slot: Slot, name: Name, a: Combination)
    ensures AcceptedAt(slot, name, a) <==> AcceptedNext(slot, name, a, a)
  {
    var domain := OfferByDomain(name, slot.field, a);
    if domain.Some? {
      forall d | HasDomain(slot.field, a, d) ensures d == domain.value {
        OneDomain(slot.field, a, d, domain.value);
      }
    }
  }

  lemma {:induction false} EmittedExtends(slots: Slots, order: seq<Name>, combo: Combination, a: Combination)
    requires Open(slots, order, combo) && a in Enumerate(slots, order, combo).emitted
    ensures a - Names(order) == combo
    decreases |order|, 0, 0
  {
    if order == [] {
      assert a - Names(order) == a;
    } else {
      var slot := slots[order[0]];
      OpenTail(slots, order, combo, Null);
      Skip(order, combo, a);
      match GetPossibleValues(order[0], slot.field, combo) {
        case Raises(_) =>
        case Absent => EmittedExtends(slots, order[1..], combo, a);
        case Offered(values, fromBucket) =>
          EachExtends(slots, order, combo, Candidates(slot, values, fromBucket), a);
      }
    }
  }

  lemma {:induction false} EachExtends(slots: Slots, order: seq<Name>, combo: Combination, values: seq<Value>,
                                       a: Combination)
    requires Open(slots, order, combo) && order != []
    requires a in EnumerateEach(slots, order, combo, values).emitted
    ensures a - Names(order) == combo && order[0] in a && a[order[0]] in values
    decreases |order| - 1, 1, |values|
  {
    if values != [] {
      var v := values[0];
      if slots[order[0]].field.hasType(v) {
        var chosen := Enumerate(slots, order[1..], combo[order[0] := v]);
        if a in chosen.emitted {
          OpenTail(slots, order, combo, v);
          EmittedExtends(slots, order[1..], combo[order[0] := v], a);
          Choice(order, combo, v, a);
        } else {
          EachExtends(slots, order, combo, values[1..], a);
        }
      } else {
        EachExtends(slots, order, combo, values[1..], a);
      }
    }
  }

  ghost function AcceptedBy(slots: Slots, order: seq<Name>): Combination -> bool
    requires Declared(slots, order)
  {
    (a: Combination) => Accepted(slots, order, a)
  }

  /** The test on one input, with its domain taken from the combination built so far. */
  predicate AcceptedNext(slot: Slot, name: Name, combo: Combination, a: Combination) {
    match GetPossibleValues(name, slot.field, combo)
    case Raises(_) => false
    case Absent => PassesFuncs(slot, Null)
    case Offered(_, fromBucket) =>
      name in a && slot.field.hasType(a[name]) && Keeps(slot, fromBucket, a[name])
  }

  lemma AcceptedStep(slots: Slots, order: seq<Name>, combo: Combination, a: Combination)
    requires Declared(slots, order) && Independent(slots, order) && order != []
    requires a - Names(order) == combo
    ensures AcceptedBy(slots, order)(a)
            == (AcceptedBy(slots, order[1..])(a) && AcceptedNext(slots[order[0]], order[0], combo, a))
  {
    SameOffer(slots, order, combo, a);
    AcceptedByOffer(slots[order[0]], order[0], a);
    assert order == [order[0]] + order[1..];
    assert Accepted(slots, order, a) <==> AcceptedAt(slots[order[0]], order[0], a) && Accepted(slots, order[1..], a);
  }

  lemma OpenUnrestricted(slots: Slots, order: seq<Name>, combo: Combination)
    requires Open(slots, order, combo)
    ensures Open(Unrestricted(slots), order, combo)
  {
    assert forall n :: n in slots ==> Unrestricted(slots)[n].field.dependsOn == slots[n].field.dependsOn;
  }

  /** The pruned run against the complete product filtered afterwards: it starts with what the product
      emits before it raises, if it raises, and is exactly that if it does not. */
  ghost predicate Prunes(run: Generated<Combination>, accepted: Combination -> bool, product: Generated<Combination>) {
    && Filter(accepted, product.emitted) <= run.emitted
    && (product.failure.None? ==> run == Generated(Filter(accepted, product.emitted), None))
  }

  lemma SkipAccepted(slots: Slots, order: seq<Name>, combo: Combination)
    requires Open(slots, order, combo) && Open(Unrestricted(slots), order, combo) && order != []
    requires GetPossibleValues(order[0], slots[order[0]].field, combo).Absent?
    ensures var product := Enumerate(Unrestricted(slots), order[1..], combo).emitted;
            Filter(AcceptedBy(slots, order), product)
            == if PassesFuncs(slots[order[0]], Null) then Filter(AcceptedBy(slots, order[1..]), product) else []
  {
    var all, slot := Unrestricted(slots), slots[order[0]];
    var product := Enumerate(all, order[1..], combo).emitted;
    OpenTail(all, order, combo, Null);
    forall a | a in product
      ensures AcceptedBy(slots, order)(a) <==> PassesFuncs(slot, Null) && AcceptedBy(slots, order[1..])(a)
    {
      EmittedExtends(all, order[1..], combo, a);
      Skip(order, combo, a);
      AcceptedStep(slots, order, combo, a);
    }
    if PassesFuncs(slot, Null) {
      FilterExtensional(AcceptedBy(slots, order), AcceptedBy(slots, order[1..]), product);
    } else {
      FilterNothing(AcceptedBy(slots, order), product);
    }
  }

  lemma PrunesSkipped(run: Generated<Combination>, accepted: Combination -> bool, later: Combination -> bool,
                      product: Generated<Combination>, passes: bool)
    requires Filter(accepted, product.emitted) == if passes then Filter(later, product.emitted) else []
    requires Prunes(run, later, product)
    ensures Prunes(if passes then run else Generated([], None), accepted, product)
  {
  }

  lemma PrunesThen(run: Generated<Combination>, rest: Generated<Combination>, accepted: Combination -> bool,
                   later: Combination -> bool, first: Generated<Combination>, others: Generated<Combination>,
                   taken: bool)
    requires Filter(accepted, first.emitted) == if taken then Filter(later, first.emitted) else []
    requires Prunes(run, later, first) && Prunes(rest, accepted, others)
    ensures Prunes(if taken then Then(run, rest) else rest, accepted, Then(first, others))
  {
    FilterAppend(accepted, first.emitted, others.emitted);
    assert [] <= rest.emitted;
    if taken && first.failure.None? {
      assert run.emitted + Filter(accepted, others.emitted) <= run.emitted + rest.emitted;
    }
  }

  /** The complete product at one level. */
  lemma UnrestrictedLevel(slots: Slots, order: seq<Name>, combo: Combination)
    requires Declared(slots, order) && Declared(Unrestricted(slots), order) && order != []
    ensures var offer := GetPossibleValues(order[0], slots[order[0]].field, combo);
            var product := Enumerate(Unrestricted(slots), order, combo);
            && (offer.Raises? ==> product == Generated([], Some(offer.failure)))
            && (offer.Absent? ==> product == Enumerate(Unrestricted(slots), order[1..], combo))
            && (offer.Offered? ==> product == EnumerateEach(Unrestricted(slots), order, combo, offer.values))
  {
    var offer := GetPossibleValues(order[0], slots[order[0]].field, combo);
    if offer.Offered? {
      FilterEverything((v: Value) => Keeps(Unrestricted(slots)[order[0]], offer.fromBucket, v), offer.values);
    }
  }

  /** Pruning at every level yields what filtering the complete dependent product yields: the same
      combinations, in the same order, equally often; and it raises only where the product raises. */
  lemma {:induction false} PushDown(slots: Slots, order: seq<Name>, combo: Combination)
    requires Open(slots, order, combo) && Open(Unrestricted(slots), order, combo)
    ensures Prunes(Enumerate(slots, order, combo), AcceptedBy(slots, order),
                   Enumerate(Unrestricted(slots), order, combo))
    decreases |order|, 0, 0
  {
    if order != [] {
      UnrestrictedLevel(slots, order, combo);
      match GetPossibleValues(order[0], slots[order[0]].field, combo) {
        case Raises(_) =>
        case Absent => PushDownAbsent(slots, order, combo);
        case Offered(values, fromBucket) => PushDownEach(slots, order, combo, values, fromBucket);
      }
    }
  }

  lemma {:induction false} PushDownAbsent(slots: Slots, order: seq<Name>, combo: Combination)
    requires Open(slots, order, combo) && Open(Unrestricted(slots), order, combo) && order != []
    requires GetPossibleValues(order[0], slots[order[0]].field, combo).Absent?
    ensures Prunes(Enumerate(slots, order, combo), AcceptedBy(slots, order),
                   Enumerate(Unrestricted(slots), order[1..], combo))
    decreases |order| - 1, 1, 0
  {
    OpenTail(slots, order, combo, Null);
    OpenTail(Unrestricted(slots), order, combo, Null);
    PushDown(slots, order[1..], combo);
    SkipAccepted(slots, order, combo);
    PrunesSkipped(Enumerate(slots, order[1..], combo), AcceptedBy(slots, order), AcceptedBy(slots, order[1..]),
                  Enumerate(Unrestricted(slots), order[1..], combo), PassesFuncs(slots[order[0]], Null));
  }

  /** The first value contributes if it is kept and has the right type. */
  lemma FirstCandidate(slots: Slots, order: seq<Name>, combo: Combination, values: seq<Value>, fromBucket: bool)
    requires Declared(slots, order) && order != [] && values != []
    ensures EnumerateEach(slots, order, combo, Candidates(slots[order[0]], values, fromBucket))
         == var rest := EnumerateEach(slots, order, combo, Candidates(slots[order[0]], values[1..], fromBucket));
            if slots[order[0]].field.hasType(values[0]) && Keeps(slots[order[0]], fromBucket, values[0])
            then Then(Enumerate(slots, order[1..], combo[order[0] := values[0]]), rest) else rest
  {
    var later := Candidates(slots[order[0]], values[1..], fromBucket);
    assert ([values[0]] + later)[1..] == later;
  }

  /** Filtering what one chosen value leads to. */
  lemma FilterChosen(slots: Slots, order: seq<Name>, combo: Combination, v: Value, fromBucket: bool)
    requires Open(slots, order, combo) && Open(Unrestricted(slots), order, combo) && order != []
    requires var offer := GetPossibleValues(order[0], slots[order[0]].field, combo);
             offer.Offered? && offer.fromBucket == fromBucket
    ensures var product := Enumerate(Unrestricted(slots), order[1..], combo[order[0] := v]).emitted;
            Filter(AcceptedBy(slots, order), product)
            == if slots[order[0]].field.hasType(v) && Keeps(slots[order[0]], fromBucket, v)
               then Filter(AcceptedBy(slots, order[1..]), product) else []
  {
    var all, slot, chosen := Unrestricted(slots), slots[order[0]], combo[order[0] := v];
    var product := Enumerate(all, order[1..], chosen).emitted;
    var taken := slot.field.hasType(v) && Keeps(slot, fromBucket, v);
    OpenTail(all, order, combo, v);
    forall a | a in product
      ensures AcceptedBy(slots, order)(a) <==> taken && AcceptedBy(slots, order[1..])(a)
    {
      EmittedExtends(all, order[1..], chosen, a);
      Choice(order, combo, v, a);
      AcceptedStep(slots, order, combo, a);
    }
    if taken {
      FilterExtensional(AcceptedBy(slots, order), AcceptedBy(slots, order[1..]), product);
    } else {
      FilterNothing(AcceptedBy(slots, order), product);
    }
  }

  lemma {:induction false} PushDownEach(slots: Slots, order: seq<Name>, combo: Combination, values: seq<Value>,
                                        fromBucket: bool)
    requires Open(slots, order, combo) && Open(Unrestricted(slots), order, combo) && order != []
    requires var offer := GetPossibleValues(order[0], slots[order[0]].field, combo);
             offer.Offered? && offer.fromBucket == fromBucket
    ensures Prunes(EnumerateEach(slots, order, combo, Candidates(slots[order[0]], values, fromBucket)),
                   AcceptedBy(slots, order), EnumerateEach(Unrestricted(slots), order, combo, values))
    decreases |order| - 1, 1, |values|
  {
    if values != [] {
      var all, v := Unrestricted(slots), values[0];
      var chosen := combo[order[0] := v];
      PushDownEach(slots, order, combo, values[1..], fromBucket);
      FirstCandidate(slots, order, combo, values, fromBucket);
      OpenTail(slots, order, combo, v);
      OpenTail(all, order, combo, v);
      PushDown(slots, order[1..], chosen);
      FilterChosen(slots, order, combo, v, fromBucket);
      PrunesThen(Enumerate(slots, order[1..], chosen),
                 EnumerateEach(slots, order, combo, Candidates(slots[order[0]], values[1..], fromBucket)),
                 AcceptedBy(slots, order), AcceptedBy(slots, order[1..]),
                 Enumerate(all, order[1..], chosen), EnumerateEach(all, order, combo, values[1..]),
                 slots[order[0]].field.hasType(v) && Keeps(slots[order[0]], fromBucket, v));
    }
  }

  /** The whole generator against the whole product. */
  lemma PushDownFromScratch(slots: Slots, order: seq<Name>)
    requires IsInputOrder(DependenciesOf(slots), order)
    requires Declared(slots, order) && Declared(Unrestricted(slots), order)
    ensures Prunes(Enumerate(slots, order, map[]), AcceptedBy(slots, order),
                   Enumerate(Unrestricted(slots), order, map[]))
  {
    InputOrderIsIndependent(slots, order);
    OpenUnrestricted(slots, order, map[]);
    PushDown(slots, order, map[]);
  }

  // ----- two inputs, as loops

  ghost function Taken(slot: Slot): Value -> bool {
    (v: Value) => Takes(slot, Items([]), v)
  }

  /** `for y in ys: if taken(y): yield {first: x, second: y}` */
  ghost function InnerLoop(first: Name, second: Name, x: Value, taken: Value -> bool, ys: seq<Value>): seq<Combination>
  {
    Map((y: Value) => map[first := x, second := y], Filter(taken, ys))
  }

  /** `for x in xs: if taken(x):` and the loop over `ys(x)` in it */
  ghost function OuterLoop(slots: Slots, first: Name, second: Name, xs: seq<Value>,
                           ys: Value -> seq<Value>): seq<Combination>
    requires first in slots && second in slots
  {
    if xs == [] then []
    else (if Taken(slots[first])(xs[0])
          then InnerLoop(first, second, xs[0], Taken(slots[second]), ys(xs[0])) else [])
         + OuterLoop(slots, first, second, xs[1..], ys)
  }

  ghost predicate TwoInputs(slots: Slots, first: Name, second: Name, xs: seq<Value>, ys: Value -> seq<Value>) {
    && first != second && first in slots && second in slots
    && slots[first].field.dependsOn == [] && slots[first].field.possibleValues == Static(Items(xs))
    && slots[second].field.dependsOn == [first] && slots[second].field.possibleValues.Provider?
    && forall x :: slots[second].field.possibleValues.provide(map[first := x]) == Items(ys(x))
  }

  lemma TakenIsKept(slot: Slot, v: Value)
    ensures Taken(slot)(v) <==> slot.field.hasType(v) && Keeps(slot, false, v)
  {
  }

  lemma {:induction false} InnerRun(slots: Slots, first: Name, second: Name, x: Value, ys: seq<Value>)
    requires first != second && second in slots
    ensures EnumerateEach(slots, [second], map[first := x], Candidates(slots[second], ys, false))
         == Generated(InnerLoop(first, second, x, Taken(slots[second]), ys), None)
    decreases ys
  {
    if ys != [] {
      assert [second][1..] == [];
      InnerRun(slots, first, second, x, ys[1..]);
      FirstCandidate(slots, [second], map[first := x], ys, false);
      TakenIsKept(slots[second], ys[0]);
      assert map[first := x][second := ys[0]] == map[first := x, second := ys[0]];
    }
  }

  lemma InnerEnumeration(slots: Slots, first: Name, second: Name, xs: seq<Value>, ys: Value -> seq<Value>, x: Value)
    requires TwoInputs(slots, first, second, xs, ys)
    ensures Enumerate(slots, [second], map[first := x])
         == Generated(InnerLoop(first, second, x, Taken(slots[second]), ys(x)), None)
  {
    var field, combo := slots[second].field, map[first := x];
    assert [first][1..] == [];
    assert FirstMissing([first], combo).None?;
    assert Restrict(combo, [first]) == combo;
    assert GetPossibleValues(second, field, combo) == Offered(ys(x), false);
    InnerRun(slots, first, second, x, ys(x));
  }

  lemma {:induction false} OuterRun(slots: Slots, first: Name, second: Name, all: seq<Value>, ys: Value -> seq<Value>,
                                    xs: seq<Value>)
    requires TwoInputs(slots, first, second, all, ys)
    ensures EnumerateEach(slots, [first, second], map[], Candidates(slots[first], xs, false))
         == Generated(OuterLoop(slots, first, second, xs, ys), None)
    decreases xs
  {
    if xs != [] {
      assert [first, second][1..] == [second];
      OuterRun(slots, first, second, all, ys, xs[1..]);
      FirstCandidate(slots, [first, second], map[], xs, false);
      TakenIsKept(slots[first], xs[0]);
      InnerEnumeration(slots, first, second, all, ys, xs[0]);
      assert map[][first := xs[0]] == map[first := xs[0]];
    }
  }

  /** An input with a list, and one that gets its list from the first one's value: the run is two nested
      loops, in the order of the lists. */
  lemma DependentLoops(slots: Slots, first: Name, second: Name, xs: seq<Value>, ys: Value -> seq<Value>)
    requires TwoInputs(slots, first, second, xs, ys)
    ensures Enumerate(slots, [first, second], map[]) == Generated(OuterLoop(slots, first, second, xs, ys), None)
  {
    assert [first, second][0] == first;
    OuterRun(slots, first, second, xs, ys, xs);
  }

  /** What is raised where the possible values cannot be had: the first missing dependency, or the input. */
  lemma {:induction false} RaisedFailure(name: Name, field: InputField, a: Combination)
    ensures match GetPossibleValues(name, field, a)
            case Raises(f) =>
              if field.possibleValues.Provider? && exists d :: d in field.dependsOn && d !in a
              then exists i :: 0 <= i < |field.dependsOn| && field.dependsOn[i] !in a
                               && (forall j :: 0 <= j < i ==> field.dependsOn[j] in a)
                               && f == MissingDependency(field.dependsOn[i])
              else f == InvalidPossibleValues(name)
            case _ => !Breaks(field, a)
  {
    BreaksByOffer(name, field, a);
    MissingMeans(field.dependsOn, a);
    if field.possibleValues.Provider? && FirstMissing(field.dependsOn, a).Some? {
      var i := FirstMissingAt(field.dependsOn, a);
    }
  }

  lemma {:induction false} FirstMissingAt(names: seq<Name>, a: Combination) returns (i: nat)
    requires FirstMissing(names, a).Some?
    ensures i < |names| && names[i] !in a && FirstMissing(names, a) == Some(names[i])
    ensures forall j :: 0 <= j < i ==> names[j] in a
    decreases names
  {
    if names[0] !in a {
      i := 0;
    } else {
      var k := FirstMissingAt(names[1..], a);
      i := k + 1;
      forall j | 0 <= j < i ensures names[j] in a {
        if j > 0 {
          assert names[j] == names[1..][j - 1];
        }
      }
    }
  }
}
