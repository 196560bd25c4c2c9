/** The list query plan of a calculation manager: input criteria first, a fence around what they
    select, then the criteria on computed properties. */
module QueryPlan {
  import opened Sequences
  import opened Dicts
  import opened InputOrder
  import opened InputEnumeration
  import opened CalculationBuckets
  import opened BucketAlgebra

  datatype QueryParameterPlan = QueryParameterPlan(
    filters: Definitions,
    excludes: Definitions,
    normalizedExcludes: Definitions)
  {
    predicate Empty() { filters == [] && excludes == [] && normalizedExcludes == [] }

    ghost predicate Valid() { IsDict(filters) && IsDict(excludes) && IsDict(normalizedExcludes) }
  }

  // ----- partition

  datatype Side = InputSide | DeferredSide | UnknownSide

  function ClassifiedRoot(cls: ManagerClass, root: string): string {
    if Known(cls, root) then root
    else match WithoutIdSuffix(root)
      case Some(alias) => if alias in cls.fields && alias in cls.managerInputs then alias else root
      case None => root
  }

  function SideOf(cls: ManagerClass, lookup: string): Side {
    var root := ClassifiedRoot(cls, Root(lookup));
    if !Known(cls, root) then UnknownSide else if root in cls.fields then InputSide else DeferredSide
  }

  function OnInputs(cls: ManagerClass): string -> bool {
    lookup => SideOf(cls, lookup).InputSide?
  }

  function OnProperties(cls: ManagerClass): string -> bool {
    lookup => SideOf(cls, lookup).DeferredSide?
  }

  function FirstUnsided(cls: ManagerClass, mapping: Definitions): Option<string> {
    if mapping == [] then None
    else if SideOf(cls, mapping[0].0).UnknownSide? then Some(Root(mapping[0].0))
    else FirstUnsided(cls, mapping[1..])
  }

  function PartitionedMapping(cls: ManagerClass, mapping: Definitions): Outcome<(Definitions, Definitions)> {
    match FirstUnsided(cls, mapping)
    case Some(root) => Raised(UnknownInputField(root))
    case None => Ok((Keep(OnInputs(cls), mapping), Keep(OnProperties(cls), mapping)))
  }

  lemma {:induction false} FirstUnsidedPrefix(cls: ManagerClass, a: Definitions, b: Definitions)
    requires FirstUnsided(cls, a).None?
    ensures FirstUnsided(cls, a + b) == FirstUnsided(cls, b)
  {
    if a == [] {
      assert a + b == b;
    } else {
      assert (a + b)[1..] == a[1..] + b;
      FirstUnsidedPrefix(cls, a[1..], b);
    }
  }

  lemma {:induction false} KeepAppend<V(!new)>(keep: string -> bool, d: Dict<V>, item: (string, V))
    ensures Keep(keep, d + [item]) == if keep(item.0) then Keep(keep, d) + [item] else Keep(keep, d)
  {
    if d == [] {
      KeepCons(keep, item, []);
      assert d + [item] == [item] + [];
    } else {
      KeepAppend(keep, d[1..], item);
      KeepCons(keep, d[0], d[1..] + [item]);
      assert d + [item] == [d[0]] + (d[1..] + [item]);
    }
  }

  /** `partition_mapping` */
  method PartitionMapping(cls: ManagerClass, mapping: Definitions) returns (result: Outcome<(Definitions, Definitions)>)
    requires IsDict(mapping)
    ensures result == PartitionedMapping(cls, mapping)
  {
    var inputMapping: Definitions, deferredMapping: Definitions := [], [];
    for i := 0 to |mapping|
      invariant FirstUnsided(cls, mapping[..i]).None?
      invariant inputMapping == Keep(OnInputs(cls), mapping[..i])
      invariant deferredMapping == Keep(OnProperties(cls), mapping[..i])
    {
      var lookup, value := mapping[i].0, mapping[i].1;
      PartitionStep(cls, mapping, i);
      KeepStep(OnInputs(cls), mapping, i);
      KeepStep(OnProperties(cls), mapping, i);
      match SideOf(cls, lookup) {
        case UnknownSide =>
          return Raised(UnknownInputField(Root(lookup)));
        case InputSide =>
          inputMapping := Put(inputMapping, lookup, value);
        case DeferredSide =>
          deferredMapping := Put(deferredMapping, lookup, value);
      }
    }
    assert mapping[..|mapping|] == mapping;
    return Ok((inputMapping, deferredMapping));
  }

  lemma PartitionStep(cls: ManagerClass, mapping: Definitions, i: nat)
    requires IsDict(mapping) && i < |mapping| && FirstUnsided(cls, mapping[..i]).None?
    ensures SideOf(cls, mapping[i].0).UnknownSide? ==> FirstUnsided(cls, mapping) == Some(Root(mapping[i].0))
    ensures !SideOf(cls, mapping[i].0).UnknownSide? ==> FirstUnsided(cls, mapping[..i + 1]).None?
  {
    FirstUnsidedPrefix(cls, mapping[..i], mapping[i..]);
    assert mapping[..i] + mapping[i..] == mapping;
    FirstUnsidedPrefix(cls, mapping[..i], [mapping[i]]);
    assert mapping[..i + 1] == mapping[..i] + [mapping[i]];
  }

  lemma KeepStep(keep: string -> bool, mapping: Definitions, i: nat)
    requires IsDict(mapping) && i < |mapping|
    ensures Keep(keep, mapping[..i + 1])
         == if keep(mapping[i].0) then Put(Keep(keep, mapping[..i]), mapping[i].0, mapping[i].1)
            else Keep(keep, mapping[..i])
  {
    assert mapping[..i + 1] == mapping[..i] + [mapping[i]];
    KeepAppend(keep, mapping[..i], mapping[i]);
    NewKey(keep, mapping, i);
    PutNew(Keep(keep, mapping[..i]), mapping[i].0, mapping[i].1);
  }

  lemma NewKey(keep: string -> bool, mapping: Definitions, i: nat)
    requires IsDict(mapping) && i < |mapping|
    ensures !HasKey(Keep(keep, mapping[..i]), mapping[i].0)
  {
    var kept := Keep(keep, mapping[..i]);
    forall j | 0 <= j < |kept| ensures kept[j].0 != mapping[i].0 {
      assert kept[j] in kept;
      assert kept[j] in mapping[..i];
    }
  }

  function Partition(cls: ManagerClass, plan: QueryParameterPlan): Outcome<(QueryParameterPlan, QueryParameterPlan)> {
    match PartitionedMapping(cls, plan.filters)
    case Raised(f) => Raised(f)
    case Ok(filters) =>
      match PartitionedMapping(cls, plan.excludes)
      case Raised(f) => Raised(f)
      case Ok(excludes) =>
        match PartitionedMapping(cls, plan.normalizedExcludes)
        case Raised(f) => Raised(f)
        case Ok(normalized) =>
          Ok((QueryParameterPlan(filters.0, excludes.0, normalized.0),
              QueryParameterPlan(filters.1, excludes.1, normalized.1)))
  }

  lemma {:induction false} AllSided(cls: ManagerClass, mapping: Definitions)
    ensures FirstUnsided(cls, mapping).None? <==> forall item :: item in mapping ==> !SideOf(cls, item.0).UnknownSide?
  {
    if mapping != [] {
      AllSided(cls, mapping[1..]);
      assert mapping == [mapping[0]] + mapping[1..];
    }
  }

  /** Each item of a partitioned mapping is on exactly one side, and nothing is added. */
  lemma PartitionIsExact(cls: ManagerClass, mapping: Definitions, item: (string, Raw))
    requires PartitionedMapping(cls, mapping).Ok?
    ensures var sides := PartitionedMapping(cls, mapping).value;
            && (item in mapping <==> item in sides.0 || item in sides.1)
            && !(item in sides.0 && item in sides.1)
  {
    AllSided(cls, mapping);
  }

  // ----- applying a plan

  function Bind(first: Outcome<Bucket>, next: Bucket -> Outcome<Bucket>): Outcome<Bucket> {
    match first case Raised(f) => Raised(f) case Ok(b) => next(b)
  }

  function FilterUnlessEmpty(cls: ManagerClass, bucket: Bucket, kwargs: Definitions): Outcome<Bucket> {
    if kwargs == [] then Ok(bucket) else Uncached(FilterBy(cls, bucket.plan, kwargs))
  }

  function ExcludeUnlessEmpty(cls: ManagerClass, bucket: Bucket, kwargs: Definitions): Outcome<Bucket> {
    if kwargs == [] then Ok(bucket) else Uncached(ExcludeBy(cls, bucket.plan, kwargs))
  }

  /** `apply_query_parameter_plan` without sort keys */
  function ApplyPlan(cls: ManagerClass, bucket: Bucket, plan: QueryParameterPlan): Outcome<Bucket> {
    Bind(Bind(FilterUnlessEmpty(cls, bucket, plan.filters),
              b => ExcludeUnlessEmpty(cls, b, plan.excludes)),
         b => ExcludeUnlessEmpty(cls, b, plan.normalizedExcludes))
  }

  const BASE := Bucket(BucketPlan([], [], None, None, false), None)

  /** The calculation branch of the list resolver under an allow-all permission plan. */
  ghost function StagedPipeline(cls: ManagerClass, plan: QueryParameterPlan, order: SortOutcome): Outcome<Bucket>
    requires IsSortOutcome(cls.DependsOn(), order)
  {
    match Partition(cls, plan)
    case Raised(f) => Raised(f)
    case Ok(parts) =>
      match ApplyPlan(cls, BASE, parts.0)
      case Raised(f) => Raised(f)
      case Ok(selected) =>
        match FenceUnlessEmpty(cls, selected, parts.0, order)
        case Raised(f) => Raised(f)
        case Ok(fenced) => ApplyPlan(cls, fenced, parts.1)
  }

  ghost function FenceUnlessEmpty(cls: ManagerClass, selected: Bucket, inputPlan: QueryParameterPlan,
                                  order: SortOutcome): Outcome<Bucket>
    requires IsSortOutcome(cls.DependsOn(), order)
  {
    if inputPlan.Empty() then Ok(selected)
    else match Contents(cls, selected, order)
      case Raised(f) => Raised(f)
      case Ok(combos) => WithInstances(cls, selected.plan, Map(cls.identify, combos))
  }

  // ----- parsing succeeds or fails as a whole

  lemma {:induction false} ParsesIffKnown(cls: ManagerClass, defs: Definitions)
    ensures FirstUnknown(cls, defs).None? <==> forall item :: item in defs ==> FieldOf(cls, item.0).Some?
  {
    if defs != [] {
      ParsesIffKnown(cls, defs[1..]);
      assert defs == [defs[0]] + defs[1..];
    }
  }

  lemma {:induction false} PutItems<V>(d: Dict<V>, k: string, v: V)
    ensures forall item :: item in Put(d, k, v) ==> item in d || item == (k, v)
  {
    if d != [] {
      PutItems(d[1..], k, v);
    }
  }

  lemma {:induction false} MergeItems<V>(d: Dict<V>, e: Dict<V>)
    ensures forall item :: item in Merge(d, e) ==> item in d || item in e
    decreases e
  {
    if e != [] {
      PutItems(d, e[0].0, e[0].1);
      MergeItems(Put(d, e[0].0, e[0].1), e[1..]);
    }
  }

  lemma MergeHolds<V>(d: Dict<V>, e: Dict<V>, item: (string, V))
    requires IsDict(e) && item in e
    ensures item in Merge(d, e)
  {
    GetItem(e, item.0, item.1);
    GetMerge(d, e, item.0);
    GetFound(Merge(d, e), item.0);
  }

  ghost predicate Parses(cls: ManagerClass, defs: Definitions) {
    forall item :: item in defs ==> FieldOf(cls, item.0).Some?
  }

  /** Every lookup of the plan is about an input or a property. */
  ghost predicate Understood(cls: ManagerClass, plan: QueryParameterPlan) {
    Parses(cls, plan.filters) && Parses(cls, plan.excludes) && Parses(cls, plan.normalizedExcludes)
  }

  ghost predicate Refused(outcome: Outcome<Bucket>) {
    outcome.Raised? && outcome.failure.UnknownInputField?
  }

  lemma MergeParses(cls: ManagerClass, d: Definitions, e: Definitions)
    requires Parses(cls, d) && IsDict(e)
    ensures FirstUnknown(cls, d).None?
    ensures Parses(cls, Merge(d, e)) <==> Parses(cls, e)
    ensures FirstUnknown(cls, Merge(d, e)).None? <==> Parses(cls, e)
  {
    MergeItems(d, e);
    ParsesIffKnown(cls, d);
    ParsesIffKnown(cls, Merge(d, e));
    forall item | item in e ensures item in Merge(d, e) {
      MergeHolds(d, e, item);
    }
  }

  lemma FilterApplied(cls: ManagerClass, bucket: Bucket, kwargs: Definitions)
    requires IsDict(kwargs) && Parses(cls, bucket.plan.filters) && Parses(cls, bucket.plan.excludes)
    ensures Parses(cls, kwargs) ==>
              FilterUnlessEmpty(cls, bucket, kwargs)
              == Ok(if kwargs == [] then bucket
                    else Bucket(BucketPlan(Merge(bucket.plan.filters, kwargs), bucket.plan.excludes,
                                           bucket.plan.allowed, None, false), None))
    ensures !Parses(cls, kwargs) ==> Refused(FilterUnlessEmpty(cls, bucket, kwargs))
    ensures Parses(cls, kwargs) ==> Parses(cls, Merge(bucket.plan.filters, kwargs))
  {
    MergeParses(cls, bucket.plan.filters, kwargs);
    MergeParses(cls, bucket.plan.excludes, []);
  }

  lemma ExcludeApplied(cls: ManagerClass, bucket: Bucket, kwargs: Definitions)
    requires IsDict(kwargs) && Parses(cls, bucket.plan.filters) && Parses(cls, bucket.plan.excludes)
    ensures Parses(cls, kwargs) ==>
              ExcludeUnlessEmpty(cls, bucket, kwargs)
              == Ok(if kwargs == [] then bucket
                    else Bucket(BucketPlan(bucket.plan.filters, Merge(bucket.plan.excludes, kwargs),
                                           bucket.plan.allowed, None, false), None))
    ensures !Parses(cls, kwargs) ==> Refused(ExcludeUnlessEmpty(cls, bucket, kwargs))
    ensures Parses(cls, kwargs) ==> Parses(cls, Merge(bucket.plan.excludes, kwargs))
  {
    MergeParses(cls, bucket.plan.filters, []);
    MergeParses(cls, bucket.plan.excludes, kwargs);
  }

  /** A plan is applied iff all its lookups parse, and what it then adds to a bucket. */
  lemma ApplyPlanResult(cls: ManagerClass, bucket: Bucket, plan: QueryParameterPlan)
    requires plan.Valid() && Parses(cls, bucket.plan.filters) && Parses(cls, bucket.plan.excludes)
    ensures var applied := ApplyPlan(cls, bucket, plan);
            && (applied.Ok? <==> Understood(cls, plan))
            && (applied.Raised? ==> Refused(applied))
            && (applied.Ok? ==>
                  && applied.value.plan.filters == Merge(bucket.plan.filters, plan.filters)
                  && applied.value.plan.excludes
                     == Merge(Merge(bucket.plan.excludes, plan.excludes), plan.normalizedExcludes)
                  && applied.value.plan.allowed == bucket.plan.allowed
                  && (plan.Empty() ==> applied.value == bucket)
                  && (!plan.Empty() ==> applied.value.data.None? && applied.value.plan.sortKey.None?
                                        && !applied.value.plan.reverse))
  {
    FilterApplied(cls, bucket, plan.filters);
    if Parses(cls, plan.filters) {
      var filtered := FilterUnlessEmpty(cls, bucket, plan.filters).value;
      ExcludeApplied(cls, filtered, plan.excludes);
      if Parses(cls, plan.excludes) {
        ExcludeApplied(cls, ExcludeUnlessEmpty(cls, filtered, plan.excludes).value, plan.normalizedExcludes);
      }
    }
  }

  // ----- staging changes nothing

  /** Lookups about an input are on the input side; of the lookups that have a side, those about a
      property alone are on the other. */
  lemma Sides(cls: ManagerClass, lookup: string)
    ensures FieldOf(cls, lookup).Some? && FieldOf(cls, lookup).value in cls.fields ==>
              !SideOf(cls, lookup).DeferredSide?
    ensures AboutProperty(cls)(lookup) ==> !SideOf(cls, lookup).InputSide?
    ensures SideOf(cls, lookup).DeferredSide? ==> AboutProperty(cls)(lookup)
  {
  }

  /** What the parts of a mapping say about one input, and about the properties. */
  lemma SplitMapping(cls: ManagerClass, mapping: Definitions, n: Name)
    requires n in cls.fields && PartitionedMapping(cls, mapping).Ok?
    ensures var (inputs, deferred) := PartitionedMapping(cls, mapping).value;
            && Keep(AboutInput(cls, n), inputs) == Keep(AboutInput(cls, n), mapping)
            && Keep(AboutInput(cls, n), deferred) == []
  {
    AllSided(cls, mapping);
    forall item | item in mapping && AboutInput(cls, n)(item.0)
      ensures OnInputs(cls)(item.0) && !OnProperties(cls)(item.0)
    {
      Sides(cls, item.0);
    }
    KeepTwice(OnInputs(cls), AboutInput(cls, n), mapping);
    KeepDisjoint(OnProperties(cls), AboutInput(cls, n), mapping);
  }

  lemma SplitProperties(cls: ManagerClass, mapping: Definitions)
    requires PartitionedMapping(cls, mapping).Ok?
    ensures var (inputs, deferred) := PartitionedMapping(cls, mapping).value;
            && Keep(AboutProperty(cls), inputs) == []
            && Keep(AboutProperty(cls), deferred) == Keep(AboutProperty(cls), mapping)
            && (deferred != [] ==> Keep(AboutProperty(cls), mapping) != [])
            && (deferred == [] ==> Keep(AboutProperty(cls), mapping) == [])
  {
    AllSided(cls, mapping);
    forall item | item in mapping && AboutProperty(cls)(item.0)
      ensures OnProperties(cls)(item.0) && !OnInputs(cls)(item.0)
    {
      Sides(cls, item.0);
    }
    KeepTwice(OnProperties(cls), AboutProperty(cls), mapping);
    KeepDisjoint(OnInputs(cls), AboutProperty(cls), mapping);
    var deferred := Keep(OnProperties(cls), mapping);
    if deferred != [] {
      Sides(cls, deferred[0].0);
      assert deferred[0] in deferred;
      assert deferred[0] in Keep(AboutProperty(cls), mapping);
    }
  }

  ghost predicate SameCriteria(cls: ManagerClass, a: BucketPlan, b: BucketPlan) {
    && (forall n :: n in cls.fields ==> Keep(AboutInput(cls, n), a.filters) == Keep(AboutInput(cls, n), b.filters))
    && (forall n :: n in cls.fields ==> Keep(AboutInput(cls, n), a.excludes) == Keep(AboutInput(cls, n), b.excludes))
  }

  ghost predicate SameProperties(cls: ManagerClass, a: BucketPlan, b: BucketPlan) {
    && Keep(AboutProperty(cls), a.filters) == Keep(AboutProperty(cls), b.filters)
    && Keep(AboutProperty(cls), a.excludes) == Keep(AboutProperty(cls), b.excludes)
  }

  lemma SameInputs(cls: ManagerClass, a: BucketPlan, b: BucketPlan, order: SortOutcome)
    requires IsSortOutcome(cls.DependsOn(), order) && SameCriteria(cls, a, b)
    ensures Inputs(cls, a, order) == Inputs(cls, b, order)
  {
    assert SlotsOf(cls, a) == SlotsOf(cls, b);
  }

  /** The definitions left behind by a plan applied to the base bucket, or by its parts applied one
      after the other. */
  function WholePlan(plan: QueryParameterPlan): BucketPlan {
    BucketPlan(plan.filters, Merge(plan.excludes, plan.normalizedExcludes), None, None, false)
  }

  function StagedPlan(first: QueryParameterPlan, second: QueryParameterPlan,
                      allowed: Option<seq<Combination>>): BucketPlan
  {
    BucketPlan(Merge(first.filters, second.filters),
               Merge(Merge(Merge(first.excludes, first.normalizedExcludes), second.excludes),
                     second.normalizedExcludes),
               allowed, None, false)
  }

  lemma StagedSaysTheSame(cls: ManagerClass, plan: QueryParameterPlan, allowed: Option<seq<Combination>>)
    requires plan.Valid() && Partition(cls, plan).Ok?
    ensures var (first, second) := Partition(cls, plan).value;
            && SameCriteria(cls, WholePlan(plan), WholePlan(first))
            && SameCriteria(cls, WholePlan(plan), StagedPlan(first, second, allowed))
            && SameProperties(cls, WholePlan(plan), StagedPlan(first, second, allowed))
            && !FiltersProperties(cls, WholePlan(first))
            && (FiltersProperties(cls, WholePlan(plan)) <==> !second.Empty())
  {
    var (first, second) := Partition(cls, plan).value;
    var staged := StagedPlan(first, second, allowed);
    forall n | n in cls.fields
      ensures Keep(AboutInput(cls, n), plan.filters) == Keep(AboutInput(cls, n), first.filters)
      ensures Keep(AboutInput(cls, n), plan.filters) == Keep(AboutInput(cls, n), staged.filters)
      ensures Keep(AboutInput(cls, n), WholePlan(plan).excludes) == Keep(AboutInput(cls, n), WholePlan(first).excludes)
      ensures Keep(AboutInput(cls, n), WholePlan(plan).excludes) == Keep(AboutInput(cls, n), staged.excludes)
    {
      SplitMapping(cls, plan.filters, n);
      SplitMapping(cls, plan.excludes, n);
      SplitMapping(cls, plan.normalizedExcludes, n);
      KeepMerges(AboutInput(cls, n), plan, first, second);
    }
    SplitProperties(cls, plan.filters);
    SplitProperties(cls, plan.excludes);
    SplitProperties(cls, plan.normalizedExcludes);
    KeepMerges(AboutProperty(cls), plan, first, second);
    var e, m := Keep(AboutProperty(cls), plan.excludes), Keep(AboutProperty(cls), plan.normalizedExcludes);
    KeepIsDict(AboutProperty(cls), plan.filters);
    KeepIsDict(AboutProperty(cls), plan.excludes);
    MergeEmpty(Keep(AboutProperty(cls), plan.filters));
    MergeEmpty(e);
    MergeNonempty(e, m);
  }

  lemma KeepMerges(keep: string -> bool, plan: QueryParameterPlan, first: QueryParameterPlan,
                   second: QueryParameterPlan)
    ensures Keep(keep, Merge(first.filters, second.filters))
            == Merge(Keep(keep, first.filters), Keep(keep, second.filters))
    ensures Keep(keep, WholePlan(plan).excludes)
            == Merge(Keep(keep, plan.excludes), Keep(keep, plan.normalizedExcludes))
    ensures Keep(keep, WholePlan(first).excludes)
            == Merge(Keep(keep, first.excludes), Keep(keep, first.normalizedExcludes))
    ensures Keep(keep, StagedPlan(first, second, None).excludes)
         == Merge(Merge(Keep(keep, WholePlan(first).excludes), Keep(keep, second.excludes)),
                  Keep(keep, second.normalizedExcludes))
  {
    var e := Merge(first.excludes, first.normalizedExcludes);
    KeepMerge(keep, first.filters, second.filters);
    KeepMerge(keep, plan.excludes, plan.normalizedExcludes);
    KeepMerge(keep, first.excludes, first.normalizedExcludes);
    KeepMerge(keep, e, second.excludes);
    KeepMerge(keep, Merge(e, second.excludes), second.normalizedExcludes);
  }

  lemma {:induction false} MergeNonempty<V>(d: Dict<V>, e: Dict<V>)
    ensures |Merge(d, e)| >= |d| && (Merge(d, e) == [] <==> d == [] && e == [])
    decreases e
  {
    if e != [] {
      PutLonger(d, e[0].0, e[0].1);
      MergeNonempty(Put(d, e[0].0, e[0].1), e[1..]);
    }
  }

  lemma {:induction false} PutLonger<V>(d: Dict<V>, k: string, v: V)
    ensures |Put(d, k, v)| >= |d| && |Put(d, k, v)| >= 1
  {
    if d != [] {
      PutLonger(d[1..], k, v);
    }
  }

  // ----- the pipeline

  lemma PartsAreValid(cls: ManagerClass, plan: QueryParameterPlan)
    requires plan.Valid() && Partition(cls, plan).Ok?
    ensures var (first, second) := Partition(cls, plan).value;
            && first.Valid() && second.Valid()
            && (Understood(cls, plan) <==> Understood(cls, first)) && Understood(cls, second)
  {
    KeepIsDict(OnInputs(cls), plan.filters);
    KeepIsDict(OnInputs(cls), plan.excludes);
    KeepIsDict(OnInputs(cls), plan.normalizedExcludes);
    KeepIsDict(OnProperties(cls), plan.filters);
    KeepIsDict(OnProperties(cls), plan.excludes);
    KeepIsDict(OnProperties(cls), plan.normalizedExcludes);
    PartsParse(cls, plan.filters);
    PartsParse(cls, plan.excludes);
    PartsParse(cls, plan.normalizedExcludes);
  }

  /** Lookups about properties always parse. */
  lemma PartsParse(cls: ManagerClass, mapping: Definitions)
    requires PartitionedMapping(cls, mapping).Ok?
    ensures var (inputs, deferred) := PartitionedMapping(cls, mapping).value;
            (Parses(cls, mapping) <==> Parses(cls, inputs)) && Parses(cls, deferred)
  {
    var (inputs, deferred) := PartitionedMapping(cls, mapping).value;
    AllSided(cls, mapping);
    forall item | item in mapping ensures item in inputs || (item in deferred && FieldOf(cls, item.0).Some?) {
      Sides(cls, item.0);
    }
    forall item | item in deferred ensures FieldOf(cls, item.0).Some? {
      Sides(cls, item.0);
    }
  }

  lemma AppliedToBase(cls: ManagerClass, plan: QueryParameterPlan)
    requires plan.Valid()
    ensures Understood(cls, plan) ==> ApplyPlan(cls, BASE, plan) == Ok(Bucket(WholePlan(plan), None))
    ensures !Understood(cls, plan) ==> Refused(ApplyPlan(cls, BASE, plan))
  {
    ApplyPlanResult(cls, BASE, plan);
    MergeEmpty(plan.filters);
    MergeEmpty(plan.excludes);
  }

  /** A fence around the identifications of `combos` lets all of `combos` through. */
  lemma OwnFencePasses(cls: ManagerClass, plan: BucketPlan, combos: seq<Combination>)
    requires plan.allowed == Some(Map(cls.identify, combos))
    ensures Filter(FenceTest(cls, plan), combos) == combos
  {
    forall c | c in combos ensures FenceTest(cls, plan)(c) {
      var i :| 0 <= i < |combos| && combos[i] == c;
      assert Map(cls.identify, combos)[i] == cls.identify(c);
    }
    FilterEverything(FenceTest(cls, plan), combos);
  }

  /** An unsorted plan without property criteria contains what its inputs enumerate. */
  lemma InputsOnly(cls: ManagerClass, plan: BucketPlan, combos: seq<Combination>)
    requires plan.sortKey.None? && !plan.reverse && plan.allowed.None? && !FiltersProperties(cls, plan)
    ensures Finish(cls, plan, combos) == combos
  {
  }

  /** Fencing the enumerated inputs before the property criteria changes at most the form of the
      result: identifications instead of raw combinations. */
  lemma FencedFinish(cls: ManagerClass, whole: BucketPlan, staged: BucketPlan, combos: seq<Combination>)
    requires whole.sortKey.None? && !whole.reverse && whole.allowed.None?
    requires staged.sortKey.None? && !staged.reverse && SameProperties(cls, whole, staged)
    requires staged.allowed.None?
             || (staged.allowed == Some(Map(cls.identify, combos)) && FiltersProperties(cls, whole))
    ensures Finish(cls, staged, combos) == Finish(cls, whole, combos)
  {
    FilterEverything(FenceTest(cls, whole), combos);
    if staged.allowed.Some? {
      OwnFencePasses(cls, staged, combos);
    } else {
      FilterEverything(FenceTest(cls, staged), combos);
    }
  }

  /** What a plan that both ways understand contains. Without property criteria the fence hands out
      the identifications of the selected combinations. */
  lemma StagedContents(cls: ManagerClass, plan: QueryParameterPlan, order: SortOutcome)
    requires IsSortOutcome(cls.DependsOn(), order)
    requires plan.Valid() && Partition(cls, plan).Ok? && Understood(cls, plan)
    ensures var (first, second) := Partition(cls, plan).value;
            var staged := StagedPipeline(cls, plan, order);
            ApplyPlan(cls, BASE, plan).Ok?
            && match Contents(cls, ApplyPlan(cls, BASE, plan).value, order)
               case Raised(f) => staged == Raised(f) || (staged.Ok? && Contents(cls, staged.value, order) == Raised(f))
               case Ok(combos) =>
                 staged.Ok? && Contents(cls, staged.value, order)
                               == Ok(if !first.Empty() && second.Empty() then Map(cls.identify, combos) else combos)
  {
    var (first, second) := Partition(cls, plan).value;
    PartsAreValid(cls, plan);
    AppliedToBase(cls, plan);
    AppliedToBase(cls, first);
    var selected := Bucket(WholePlan(first), None);
    var whole := WholePlan(plan);
    StagedSaysTheSame(cls, plan, None);
    SameInputs(cls, whole, selected.plan, order);
    var run := Inputs(cls, whole, order);
    InputsOnly(cls, selected.plan, run.emitted);
    if !first.Empty() && run.failure.Some? {
      return;
    }
    var allowed := if first.Empty() then None else Some(Map(cls.identify, run.emitted));
    var fenced := if first.Empty() then selected else Bucket(selected.plan.(allowed := allowed), allowed);
    MergeParses(cls, first.filters, []);
    MergeParses(cls, first.excludes, first.normalizedExcludes);
    ParsesIffKnown(cls, selected.plan.excludes);
    assert FenceUnlessEmpty(cls, selected, first, order) == Ok(fenced);
    ApplyPlanResult(cls, fenced, second);
    if second.Empty() && !first.Empty() {
      InputsOnly(cls, whole, run.emitted);
    } else {
      var staged := StagedPlan(first, second, allowed);
      StagedSaysTheSame(cls, plan, allowed);
      SameInputs(cls, whole, staged, order);
      FencedFinish(cls, whole, staged, run.emitted);
      assert ApplyPlan(cls, fenced, second).value == Bucket(staged, None);
    }
  }

  // ----- which plans only the stages refuse

  /** An `_id` alias of a manager-typed property: the bucket parses it, the partition knows such aliases
      of inputs only. */
  predicate PropertyAlias(cls: ManagerClass, lookup: string) {
    var alias := WithoutIdSuffix(Root(lookup));
    && !Known(cls, Root(lookup)) && alias.Some?
    && alias.value in cls.properties && cls.properties[alias.value]
    && !(alias.value in cls.fields && alias.value in cls.managerInputs)
  }

  ghost predicate Aliases(cls: ManagerClass, mapping: Definitions) {
    exists item :: item in mapping && PropertyAlias(cls, item.0)
  }

  ghost predicate MentionsPropertyAlias(cls: ManagerClass, plan: QueryParameterPlan) {
    Aliases(cls, plan.filters) || Aliases(cls, plan.excludes) || Aliases(cls, plan.normalizedExcludes)
  }

  lemma SidesDiffer(cls: ManagerClass, lookup: string)
    ensures FieldOf(cls, lookup).Some? && SideOf(cls, lookup).UnknownSide? <==> PropertyAlias(cls, lookup)
  {
  }

  lemma AliasesAreUnsided(cls: ManagerClass, mapping: Definitions)
    ensures Aliases(cls, mapping) ==> PartitionedMapping(cls, mapping).Raised?
    ensures Parses(cls, mapping) && !Aliases(cls, mapping) ==> PartitionedMapping(cls, mapping).Ok?
  {
    AllSided(cls, mapping);
    forall item | item in mapping
      ensures FieldOf(cls, item.0).Some? && SideOf(cls, item.0).UnknownSide? <==> PropertyAlias(cls, item.0)
    {
      SidesDiffer(cls, item.0);
    }
  }

  lemma {:induction false} EnumerationKnowsItsInputs(slots: Slots, order: seq<Name>, combo: Combination)
    requires Declared(slots, order)
    ensures var failure := Enumerate(slots, order, combo).failure; failure.Some? ==> !failure.value.UnknownInputField?
    decreases |order|, 0, 0
  {
    if order != [] {
      match GetPossibleValues(order[0], slots[order[0]].field, combo) {
        case Raises(_) =>
        case Absent => EnumerationKnowsItsInputs(slots, order[1..], combo);
        case Offered(values, fromBucket) =>
          EachKnowsItsInputs(slots, order, combo, Candidates(slots[order[0]], values, fromBucket));
      }
    }
  }

  lemma {:induction false} EachKnowsItsInputs(slots: Slots, order: seq<Name>, combo: Combination, values: seq<Value>)
    requires Declared(slots, order) && order != []
    ensures var failure := EnumerateEach(slots, order, combo, values).failure;
            failure.Some? ==> !failure.value.UnknownInputField?
    decreases |order| - 1, 1, |values|
  {
    if values != [] {
      EachKnowsItsInputs(slots, order, combo, values[1..]);
      if slots[order[0]].field.hasType(values[0]) {
        EnumerationKnowsItsInputs(slots, order[1..], combo[order[0] := values[0]]);
      }
    }
  }

  /** Selecting by inputs, fencing the selection and then filtering by properties, for every plan. A plan
      with an unknown lookup is refused both ways. A plan with an `_id` alias of a manager-typed property
      is refused by the stages. Every other plan yields the same combinations in the same order, as raw
      combinations or as their identifications, or the same exception. */
  lemma StagedIsSinglePass(cls: ManagerClass, plan: QueryParameterPlan, order: SortOutcome)
    requires IsSortOutcome(cls.DependsOn(), order) && plan.Valid()
    ensures var whole := ApplyPlan(cls, BASE, plan);
            var staged := StagedPipeline(cls, plan, order);
            && (whole.Raised? ==> Refused(whole) && Refused(staged))
            && (MentionsPropertyAlias(cls, plan) ==> Refused(staged))
            && (whole.Ok? && !MentionsPropertyAlias(cls, plan) ==>
                  && Partition(cls, plan).Ok?
                  && var (first, second) := Partition(cls, plan).value;
                     match Contents(cls, whole.value, order)
                     case Raised(f) =>
                       staged == Raised(f) || (staged.Ok? && Contents(cls, staged.value, order) == Raised(f))
                     case Ok(combos) =>
                       staged.Ok?
                       && Contents(cls, staged.value, order)
                          == Ok(if !first.Empty() && second.Empty() then Map(cls.identify, combos) else combos))
  {
    AppliedToBase(cls, plan);
    AliasesAreUnsided(cls, plan.filters);
    AliasesAreUnsided(cls, plan.excludes);
    AliasesAreUnsided(cls, plan.normalizedExcludes);
    if Partition(cls, plan).Ok? {
      if Understood(cls, plan) {
        StagedContents(cls, plan, order);
      } else {
        PartsAreValid(cls, plan);
        AppliedToBase(cls, Partition(cls, plan).value.0);
      }
    }
  }

  /** The stages refuse a plan that the bucket accepts iff all its lookups parse and one of them is an
      `_id` alias of a manager-typed property. */
  lemma OnlyStagesRefuseExactly(cls: ManagerClass, plan: QueryParameterPlan, order: SortOutcome)
    requires IsSortOutcome(cls.DependsOn(), order) && plan.Valid()
    ensures ApplyPlan(cls, BASE, plan).Ok? && Refused(StagedPipeline(cls, plan, order))
       <==> Understood(cls, plan) && MentionsPropertyAlias(cls, plan)
  {
    AppliedToBase(cls, plan);
    StagedIsSinglePass(cls, plan, order);
    if Understood(cls, plan) && !MentionsPropertyAlias(cls, plan) {
      var run := Inputs(cls, WholePlan(plan), order);
      if order.Ordered? {
        EnumerationKnowsItsInputs(SlotsOf(cls, WholePlan(plan)), order.order, map[]);
      }
    }
  }

  /** Such a plan: one filter on the `_id` alias of the manager-typed property "p". */
  lemma PropertyAliasIsRefused(cls: ManagerClass, v: Raw, order: SortOutcome)
    requires cls.fields == map[] && cls.properties == map["p" := true]
    requires IsSortOutcome(cls.DependsOn(), order)
    ensures var plan := QueryParameterPlan([("p_id", v)], [], []);
            ApplyPlan(cls, BASE, plan).Ok? && Refused(StagedPipeline(cls, plan, order))
  {
    var plan := QueryParameterPlan([("p_id", v)], [], []);
    assert Root("p_id") == "p_id" by {
      assert "p_id"[1..] == "_id" && "_id"[1..] == "id" && "id"[1..] == "d";
    }
    assert WithoutIdSuffix("p_id") == Some("p") by {
      assert "p_id"[..1] == "p";
    }
    assert PropertyAlias(cls, "p_id");
    assert ("p_id", v) in plan.filters;
    OnlyStagesRefuseExactly(cls, plan, order);
  }
}
