/** Calculation buckets on their lookups, values and positions: what a lookup is about, what passes, and
    what the derivations do to a plan. */
module BucketMeaning {
  import opened Sequences
  import opened Dicts
  import opened InputOrder
  import opened InputEnumeration
  import opened EnumerationLaws
  import opened CalculationBuckets
  import opened BucketAlgebra

  // ----- lookups

  /** Two underscores in a row, at this position. */
  ghost predicate SeparatorAt(lookup: string, i: int) {
    0 <= i && i + 1 < |lookup| && lookup[i] == '_' && lookup[i + 1] == '_'
  }

  /** The root of a lookup is all in front of its first separator. */
  lemma {:induction false} RootMeans(lookup: string)
    ensures Root(lookup) <= lookup
    ensures Root(lookup) == lookup || SeparatorAt(lookup, |Root(lookup)|)
    ensures forall i :: 0 <= i < |Root(lookup)| ==> !SeparatorAt(lookup, i)
  {
    if |lookup| >= 2 && !(lookup[0] == '_' && lookup[1] == '_') {
      var rest := lookup[1..];
      RootMeans(rest);
      forall i | 0 <= i < |Root(lookup)| ensures !SeparatorAt(lookup, i) {
        assert i > 0 ==> (SeparatorAt(lookup, i) <==> SeparatorAt(rest, i - 1));
      }
      assert SeparatorAt(rest, |Root(rest)|) ==> SeparatorAt(lookup, |Root(lookup)|);
      assert lookup == [lookup[0]] + rest;
    }
  }

  ghost predicate Declares(cls: ManagerClass, name: Name) {
    name in cls.fields || name in cls.properties
  }

  /** A property decides if there is one of that name, else the input. */
  ghost predicate ManagerTyped(cls: ManagerClass, name: Name) {
    if name in cls.properties then cls.properties[name] else name in cls.managerInputs
  }

  /** A lookup is about the input or property that its root names; a root that names none may be one's name
      with `_id` behind it, if that one is manager-typed. */
  lemma FieldMeans(cls: ManagerClass, lookup: string, n: Name)
    ensures FieldOf(cls, lookup) == Some(n)
       <==> var root := Root(lookup);
            && Declares(cls, n)
            && (n == root || (!Declares(cls, root) && root == n + "_id" && ManagerTyped(cls, n)))
  {
    var root := Root(lookup);
    if root == n + "_id" {
      assert root[..|root| - 3] == n && root[|root| - 3..] == "_id";
      assert WithoutIdSuffix(root) == Some(n);
    }
    if WithoutIdSuffix(root) == Some(n) {
      assert root == n + root[|root| - 3..];
      assert root[|root| - 3..] == "_id";
    }
  }

  // ----- what passes

  /** The definition is about a property that is not manager-typed. */
  ghost predicate AboutPlainProperty(cls: ManagerClass, lookup: string, p: Name) {
    FieldOf(cls, lookup) == Some(p) && p !in cls.fields && !ManagerTyped(cls, p)
  }

  ghost predicate Fulfils(cls: ManagerClass, item: (string, Raw), p: Name, c: Combination) {
    cls.matches(p, item.0, item.1, cls.attribute(p, c))
  }

  /** A combination passes if its identification is one of those that the fence allows, all filters about plain
      properties hold of it, and no such exclude does. */
  lemma PassesMeans(cls: ManagerClass, plan: BucketPlan, c: Combination)
    ensures Passes(cls, plan, c)
       <==> && (plan.allowed.Some? ==>
                  exists a :: a in plan.allowed.value && cls.freeze(a) == cls.freeze(cls.identify(c)))
            && (forall item, p :: item in plan.filters && AboutPlainProperty(cls, item.0, p)
                                  ==> Fulfils(cls, item, p, c))
            && (forall item, p :: item in plan.excludes && AboutPlainProperty(cls, item.0, p)
                                  ==> !Fulfils(cls, item, p, c))
  {
    FenceMeans(cls, plan, c);
    PropertyTestMeans(cls, plan, c);
  }

  lemma FenceMeans(cls: ManagerClass, plan: BucketPlan, c: Combination)
    ensures FenceTest(cls, plan)(c)
       <==> plan.allowed.Some? ==> exists a :: a in plan.allowed.value && cls.freeze(a) == cls.freeze(cls.identify(c))
  {
  }

  lemma KeptAt<V(!new)>(keep: string -> bool, d: Dict<V>, item: (string, V))
    ensures item in d && keep(item.0) <==> exists i :: 0 <= i < |Keep(keep, d)| && Keep(keep, d)[i] == item
  {
    assert item in Keep(keep, d) <==> exists i :: 0 <= i < |Keep(keep, d)| && Keep(keep, d)[i] == item;
  }

  lemma PropertyTestMeans(cls: ManagerClass, plan: BucketPlan, c: Combination)
    ensures PropertyTest(cls, plan)(c)
       <==> && (forall item, p :: item in plan.filters && AboutPlainProperty(cls, item.0, p)
                                  ==> Fulfils(cls, item, p, c))
            && (forall item, p :: item in plan.excludes && AboutPlainProperty(cls, item.0, p)
                                  ==> !Fulfils(cls, item, p, c))
  {
    var filters, excludes := Keep(AboutProperty(cls), plan.filters), Keep(AboutProperty(cls), plan.excludes);
    if PropertyTest(cls, plan)(c) {
      forall item, p | item in plan.filters && AboutPlainProperty(cls, item.0, p) ensures Fulfils(cls, item, p, c) {
        KeptAt(AboutProperty(cls), plan.filters, item);
        var i :| 0 <= i < |filters| && filters[i] == item;
      }
      forall item, p | item in plan.excludes && AboutPlainProperty(cls, item.0, p) ensures !Fulfils(cls, item, p, c) {
        KeptAt(AboutProperty(cls), plan.excludes, item);
        var i :| 0 <= i < |excludes| && excludes[i] == item;
      }
    } else {
      FailingItem(cls, plan, c);
    }
  }

  lemma FailingItem(cls: ManagerClass, plan: BucketPlan, c: Combination)
    requires !PropertyTest(cls, plan)(c)
    ensures || (exists item, p :: item in plan.filters && AboutPlainProperty(cls, item.0, p)
                                  && !Fulfils(cls, item, p, c))
            || (exists item, p :: item in plan.excludes && AboutPlainProperty(cls, item.0, p)
                                  && Fulfils(cls, item, p, c))
  {
    var filters, excludes := Keep(AboutProperty(cls), plan.filters), Keep(AboutProperty(cls), plan.excludes);
    if i :| 0 <= i < |filters| && PropertyEvaluated(cls, filters[i]) && !PropertyMatches(cls, filters[i], c) {
      var item, p := filters[i], FieldOf(cls, filters[i].0).value;
      assert item in filters && AboutPlainProperty(cls, item.0, p) && !Fulfils(cls, item, p, c);
    } else {
      var i :| 0 <= i < |excludes| && PropertyMatches(cls, excludes[i], c);
      var item, p := excludes[i], FieldOf(cls, excludes[i].0).value;
      assert item in excludes && AboutPlainProperty(cls, item.0, p) && Fulfils(cls, item, p, c);
    }
  }

  /** These are the definitions about that input. */
  ghost predicate AreAbout(cls: ManagerClass, own: Definitions, defs: Definitions, n: Name) {
    forall item :: item in own <==> item in defs && FieldOf(cls, item.0) == Some(n)
  }

  lemma SlotParts(cls: ManagerClass, plan: BucketPlan, n: Name)
    requires n in cls.fields && !ManagerTyped(cls, n)
    ensures var slot := SlotsOf(cls, plan)[n];
            && slot.field == cls.fields[n]
            && slot.filterFuncs == Predicates(cls, n, Keep(AboutInput(cls, n), plan.filters))
            && slot.excludeFuncs == Predicates(cls, n, Keep(AboutInput(cls, n), plan.excludes))
  {
  }

  lemma KeptAreAbout(cls: ManagerClass, defs: Definitions, n: Name)
    ensures AreAbout(cls, Keep(AboutInput(cls, n), defs), defs, n)
  {
  }

  ghost predicate AllMatch(cls: ManagerClass, n: Name, defs: Definitions, v: Value) {
    forall item :: item in defs ==> cls.matches(n, item.0, item.1, v)
  }

  ghost predicate NoneMatches(cls: ManagerClass, n: Name, defs: Definitions, v: Value) {
    forall item :: item in defs ==> !cls.matches(n, item.0, item.1, v)
  }

  lemma SlotSatisfies(cls: ManagerClass, slot: Slot, n: Name, filters: Definitions, excludes: Definitions, v: Value)
    requires slot.filterFuncs == Predicates(cls, n, filters) && slot.excludeFuncs == Predicates(cls, n, excludes)
    ensures Satisfies(slot, v) <==> AllMatch(cls, n, filters, v) && NoneMatches(cls, n, excludes, v)
  {
    PredicatesMean(cls, n, filters, v);
    PredicatesMean(cls, n, excludes, v);
  }

  /** An input that is not manager-typed takes, from a list, the values of its type of which all filters about
      it hold and no exclude does. */
  lemma InputTakes(cls: ManagerClass, plan: BucketPlan, n: Name, values: seq<Value>, v: Value)
    requires n in cls.fields && !ManagerTyped(cls, n)
    ensures Takes(SlotsOf(cls, plan)[n], Items(values), v)
       <==> && cls.fields[n].hasType(v)
            && (forall item :: item in plan.filters && FieldOf(cls, item.0) == Some(n) ==>
                  cls.matches(n, item.0, item.1, v))
            && (forall item :: item in plan.excludes && FieldOf(cls, item.0) == Some(n) ==>
                  !cls.matches(n, item.0, item.1, v))
  {
    SlotParts(cls, plan, n);
    KeptAreAbout(cls, plan.filters, n);
    KeptAreAbout(cls, plan.excludes, n);
    SlotSatisfies(cls, SlotsOf(cls, plan)[n], n, Keep(AboutInput(cls, n), plan.filters),
                  Keep(AboutInput(cls, n), plan.excludes), v);
  }

  lemma PredicatesMean(cls: ManagerClass, n: Name, defs: Definitions, v: Value)
    ensures |Predicates(cls, n, defs)| == |defs|
    ensures (forall i :: 0 <= i < |defs| ==> Predicates(cls, n, defs)[i](v)) <==> AllMatch(cls, n, defs, v)
    ensures (forall i :: 0 <= i < |defs| ==> !Predicates(cls, n, defs)[i](v)) <==> NoneMatches(cls, n, defs, v)
  {
    forall i | 0 <= i < |defs|
      ensures Predicates(cls, n, defs)[i](v) == cls.matches(n, defs[i].0, defs[i].1, v) && defs[i] in defs
    {
    }
  }

  /** From managers, an input takes what their bucket keeps: a manager-typed one with the definitions about
      it, another one without any. */
  lemma InputTakesManagers(cls: ManagerClass, plan: BucketPlan, n: Name, values: seq<Value>, v: Value)
    returns (filters: Definitions, excludes: Definitions)
    requires n in cls.fields
    ensures Takes(SlotsOf(cls, plan)[n], Managers(values), v)
       <==> cls.fields[n].hasType(v) && cls.bucketKeeps(n, filters, excludes, v)
    ensures if ManagerTyped(cls, n)
            then AreAbout(cls, filters, plan.filters, n) && AreAbout(cls, excludes, plan.excludes, n)
            else filters == [] && excludes == []
  {
    filters, excludes := [], [];
    if ManagerTyped(cls, n) {
      filters, excludes := Keep(AboutInput(cls, n), plan.filters), Keep(AboutInput(cls, n), plan.excludes);
      KeptAreAbout(cls, plan.filters, n);
      KeptAreAbout(cls, plan.excludes, n);
    }
  }

  /** The contents are identifications, and not the enumerated combinations, if there is a fence, a criterion on
      a property, or a sort key that is no input. */
  lemma IdentifiedMeans(cls: ManagerClass, plan: BucketPlan)
    ensures Identified(cls, plan)
       <==> || plan.allowed.Some?
            || (exists item :: (item in plan.filters || item in plan.excludes) && FieldOf(cls, item.0).Some?
                               && FieldOf(cls, item.0).value !in cls.fields)
            || (plan.sortKey.Some? && exists k :: k in plan.sortKey.value && k !in cls.fields)
  {
    KeptItems(AboutProperty(cls), plan.filters);
    KeptItems(AboutProperty(cls), plan.excludes);
  }

  // ----- derivations

  ghost predicate AllKnown(cls: ManagerClass, defs: Definitions) {
    forall item :: item in defs ==> FieldOf(cls, item.0).Some?
  }

  lemma {:induction false} UnknownMeans(cls: ManagerClass, defs: Definitions)
    ensures match FirstUnknown(cls, defs)
            case None => AllKnown(cls, defs)
            case Some(root) => exists i :: 0 <= i < |defs| && FieldOf(cls, defs[i].0).None? && root == Root(defs[i].0)
                                           && forall j :: 0 <= j < i ==> FieldOf(cls, defs[j].0).Some?
  {
    if defs != [] && FieldOf(cls, defs[0].0).Some? {
      var rest := defs[1..];
      UnknownMeans(cls, rest);
      if FirstUnknown(cls, rest).Some? {
        var i :| 0 <= i < |rest| && FieldOf(cls, rest[i].0).None? && FirstUnknown(cls, rest).value == Root(rest[i].0)
                 && forall j :: 0 <= j < i ==> FieldOf(cls, rest[j].0).Some?;
        assert defs[i + 1] == rest[i];
        forall j | 0 <= j < i + 1 ensures FieldOf(cls, defs[j].0).Some? {
          assert j > 0 ==> defs[j] == rest[j - 1];
        }
      }
      assert defs == [defs[0]] + rest;
    } else if defs != [] {
      assert FieldOf(cls, defs[0].0).None? && FirstUnknown(cls, defs).value == Root(defs[0].0);
    }
  }

  /** A derived plan is refused if a lookup is about nothing, and else has the given definitions and sort, and
      the fence it is derived from. */
  lemma DeriveMeans(cls: ManagerClass, plan: BucketPlan, filters: Definitions, excludes: Definitions,
                    sortKey: Option<seq<Name>>, reverse: bool)
    ensures var derived := Derive(cls, plan, filters, excludes, sortKey, reverse);
            && (derived.Ok? <==> AllKnown(cls, filters) && AllKnown(cls, excludes))
            && (derived.Ok? ==> derived.value == BucketPlan(filters, excludes, plan.allowed, sortKey, reverse))
            && (derived.Raised? ==>
                  exists item :: (item in filters || item in excludes) && FieldOf(cls, item.0).None?
                                 && derived.failure == UnknownInputField(Root(item.0)))
  {
    UnknownMeans(cls, filters);
    UnknownMeans(cls, excludes);
    var unknown := if FirstUnknown(cls, filters).Some? then filters else excludes;
    if FirstUnknown(cls, unknown).Some? {
      var i :| 0 <= i < |unknown| && FieldOf(cls, unknown[i].0).None?
               && FirstUnknown(cls, unknown).value == Root(unknown[i].0);
      assert unknown[i] in unknown;
    }
  }

  /** Sorting sets the keys and the direction and keeps everything else. */
  lemma SortMeans(cls: ManagerClass, plan: BucketPlan, keys: seq<Name>, reverse: bool)
    requires AllKnown(cls, plan.filters) && AllKnown(cls, plan.excludes)
    ensures SortPlan(cls, plan, keys, reverse) == Ok(plan.(sortKey := Some(keys), reverse := reverse))
  {
    DeriveMeans(cls, plan, plan.filters, plan.excludes, Some(keys), reverse);
  }

  /** `with_instances` makes the given identifications both the fence and the contents. */
  lemma InstancesMean(cls: ManagerClass, plan: BucketPlan, identifications: seq<Combination>)
    requires AllKnown(cls, plan.filters) && AllKnown(cls, plan.excludes)
    ensures WithInstances(cls, plan, identifications)
         == Ok(Bucket(plan.(allowed := Some(identifications)), Some(identifications)))
  {
    DeriveMeans(cls, plan, plan.filters, plan.excludes, plan.sortKey, plan.reverse);
  }

  /** A merge is unsorted, and allows what both operands allow; an operand without a fence allows
      everything. */
  lemma MeetMeans(cls: ManagerClass, a: BucketPlan, b: BucketPlan)
    requires Meet(cls, a, b).Ok?
    ensures var plan := Meet(cls, a, b).value;
            && plan.sortKey.None? && !plan.reverse
            && (plan.allowed.None? <==> a.allowed.None? && b.allowed.None?)
            && (plan.allowed.Some? ==>
                  forall key :: key in FrozenKeys(cls, plan.allowed.value)
                                <==> && (a.allowed.Some? ==> key in FrozenKeys(cls, a.allowed.value))
                                     && (b.allowed.Some? ==> key in FrozenKeys(cls, b.allowed.value)))
  {
    if a.allowed.Some? && b.allowed.Some? {
      var both := MeetFences(cls, a.allowed, b.allowed).value;
      forall key
        ensures key in FrozenKeys(cls, both)
           <==> key in FrozenKeys(cls, a.allowed.value) && key in FrozenKeys(cls, b.allowed.value)
      {
        if key in FrozenKeys(cls, a.allowed.value) && key in FrozenKeys(cls, b.allowed.value) {
          var c :| c in a.allowed.value && cls.freeze(c) == key;
          assert c in both;
        }
      }
    }
  }

  /** `bucket | manager` does not add the manager: it leaves the bucket's own definitions, without an
      `id__in` that differs from the manager's. */
  lemma OrManagerMeans(cls: ManagerClass, plan: BucketPlan, identification: Raw, k: string, v: Raw)
    requires IsDict(plan.filters) && IsDict(plan.excludes) && MeetManager(cls, plan, identification).Ok?
    ensures var merged := MeetManager(cls, plan, identification).value;
            && ((k, v) in merged.filters <==> (k, v) in plan.filters && (k == "id__in" ==> v == identification))
            && ((k, v) in merged.excludes <==> (k, v) in plan.excludes)
  {
    var ids: Definitions := [("id__in", identification)];
    var other := FilterBy(cls, plan, ids).value;
    MergeKeeps(plan.filters, ids);
    MeetKeepsCommon(cls, plan, other, k, v);
    GetMerge(plan.filters, ids, k);
    assert ids[1..] == [];
    GetFound(plan.filters, k);
    GetFound(other.filters, k);
    if (k, v) in plan.filters {
      GetItem(plan.filters, k, v);
    }
    if (k, v) in other.filters {
      GetItem(other.filters, k, v);
    }
  }

  // ----- slices

  /** Where a forward slice begins or ends: from the front, or from the end for a negative bound, and never
      outside of the list. */
  ghost predicate ForwardBound(bound: Option<int>, otherwise: nat, n: nat, at: int) {
    match bound
    case None => at == otherwise
    case Some(b) =>
      if b < 0 then at == (if b + n < 0 then 0 else b + n) else at == (if b > n then n else b)
  }

  /** The same for a backward slice, which may end in front of the first entry. */
  ghost predicate BackwardBound(bound: Option<int>, otherwise: int, n: nat, at: int) {
    match bound
    case None => at == otherwise
    case Some(b) =>
      if b < 0 then at == (if b + n < -1 then -1 else b + n) else at == (if b > n - 1 then n - 1 else b)
  }

  /** Entry `i` of a slice is the list's at that place, in front of the end, and the next place is a stride
      further. */
  ghost predicate StandsAt<T(!new)>(r: seq<T>, s: seq<T>, places: seq<int>, i: nat, to: int, stride: int) {
    && i < |r| && i + 1 < |places| && 0 <= places[i] < |s| && r[i] == s[places[i]]
    && places[i + 1] == places[i] + stride
    && if stride > 0 then places[i] < to else places[i] > to
  }

  /** The entries of a slice stand at these places, from its begin to the last one in front of its end. */
  ghost predicate IsSlice<T(!new)>(r: seq<T>, s: seq<T>, places: seq<int>, from: int, to: int, stride: int) {
    && |places| == |r| + 1 && places[0] == from
    && (forall i :: 0 <= i < |r| ==> StandsAt(r, s, places, i, to, stride))
    && if stride > 0 then places[|r|] >= to else places[|r|] <= to
  }

  lemma OnePlaceMore<T(!new)>(r: seq<T>, s: seq<T>, rest: seq<int>, at: int, to: int, stride: int)
    requires r != [] && IsSlice(r[1..], s, rest, at + stride, to, stride)
    requires 0 <= at < |s| && r[0] == s[at] && if stride > 0 then at < to else at > to
    ensures IsSlice(r, s, [at] + rest, at, to, stride)
  {
    var places := [at] + rest;
    forall i | 0 <= i < |r| ensures StandsAt(r, s, places, i, to, stride) {
      if i > 0 {
        assert StandsAt(r[1..], s, rest, i - 1, to, stride);
        assert r[1..][i - 1] == r[i] && places[i] == rest[i - 1] && places[i + 1] == rest[i];
      }
    }
    assert places[|r|] == rest[|r[1..]|];
  }

  lemma {:induction false} SteppedIsSlice<T(!new)>(s: seq<T>, at: int, stop: int, stride: int)
    returns (places: seq<int>)
    requires stride != 0 && -1 <= at && -1 <= stop && (stride > 0 ==> 0 <= at && stop <= |s|)
    requires stride < 0 ==> at < |s|
    ensures IsSlice(Stepped(s, at, stop, stride), s, places, at, stop, stride)
    decreases if stride > 0 then stop - at else at - stop
  {
    var r := Stepped(s, at, stop, stride);
    places := [at];
    if stride > 0 && at < stop {
      var rest := SteppedIsSlice(s, at + stride, stop, stride);
      OnePlaceMore(r, s, rest, at, stop, stride);
      places := [at] + rest;
    } else if stride < 0 && at > stop {
      var rest := [at + stride];
      if at + stride > stop {
        rest := SteppedIsSlice(s, at + stride, stop, stride);
      }
      OnePlaceMore(r, s, rest, at, stop, stride);
      places := [at] + rest;
    }
  }

  /** `s[start:stop:stride]` is Python's slice. */
  lemma SliceMeans<T(!new)>(s: seq<T>, start: Option<int>, stop: Option<int>, stride: int)
    returns (places: seq<int>, from: int, to: int)
    requires stride != 0
    ensures IsSlice(Sliced(s, start, stop, stride), s, places, from, to, stride)
    ensures if stride > 0 then ForwardBound(start, 0, |s|, from) && ForwardBound(stop, |s|, |s|, to)
            else BackwardBound(start, |s| - 1, |s|, from) && BackwardBound(stop, -1, |s|, to)
  {
    var n := |s|;
    if stride > 0 {
      from, to := Bound(start, 0, n, 0, n), Bound(stop, n, n, 0, n);
    } else {
      from, to := Bound(start, n - 1, n, -1, n - 1), Bound(stop, -1, n, -1, n - 1);
    }
    places := SteppedIsSlice(s, from, to, stride);
  }
}
