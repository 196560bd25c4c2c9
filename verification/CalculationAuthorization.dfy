/** Read authorization of a list over a calculation manager: the merged alternatives, the row gate, the
    deferred criteria applied afterwards, and what search accepts instead. */
module CalculationAuthorization {
  import opened Sequences
  import opened Dicts
  import opened InputOrder
  import opened InputEnumeration
  import opened CalculationBuckets
  import opened CalculationContents
  import opened BucketAlgebra
  import opened QueryPlan
  import opened CalculationPermissions
  import ReadAuthorization

  /** `hasPermissionClass`: whether the manager class declares a Permission class for the row gate. */
  datatype Permissions = Permissions(
    decision: ReadAuthorization.Decision,
    alternatives: seq<Alternative>,
    requiresInstanceCheck: bool,
    hasPermissionClass: bool)
  {
    /** The row gate runs. */
    predicate Gates() { decision.Conditional? && requiresInstanceCheck && hasPermissionClass }
  }

  /** `can_read_instance` of a Permission class, by frozen identification. */
  type Gate = int -> bool

  function Key(cls: ManagerClass, a: Combination): int {
    cls.freeze(cls.identify(a))
  }

  function Readable(cls: ManagerClass, gate: Gate): Combination -> bool {
    (c: Combination) => gate(Key(cls, c))
  }

  // ----- the list path

  /** The loop over the alternatives, if there are any; a single empty one leaves the bucket as it is. */
  function Prefiltered(cls: ManagerClass, base: Bucket, alternatives: seq<Alternative>): Outcome<Bucket> {
    if alternatives == [] || (|alternatives| == 1 && alternatives[0].Unconstrained()) then Ok(base)
    else Uncached(Merged(cls, base.plan, alternatives))
  }

  /** The instances that pass the gate, as `with_instances` restores them. */
  function Gated(cls: ManagerClass, plan: BucketPlan, contents: Outcome<seq<Combination>>,
                 gate: Gate): Outcome<Bucket>
  {
    match contents
    case Raised(f) => Raised(f)
    case Ok(items) => WithInstances(cls, plan, Map(cls.identify, Filter(Readable(cls, gate), items)))
  }

  /** What goes into the gate. */
  function Ungated(cls: ManagerClass, base: Bucket, permissions: Permissions): Outcome<Bucket> {
    match permissions.decision
    case AllowAll => Ok(base)
    case DenyAll => Ok(NoneOf(base.plan))
    case Conditional => Prefiltered(cls, base, permissions.alternatives)
  }

  ghost function Authorized(cls: ManagerClass, base: Bucket, permissions: Permissions, gate: Gate,
                            order: SortOutcome): Outcome<Bucket>
    requires IsSortOutcome(cls.DependsOn(), order)
  {
    match Ungated(cls, base, permissions)
    case Raised(f) => Raised(f)
    case Ok(bucket) =>
      if permissions.Gates() then Gated(cls, bucket.plan, Contents(cls, bucket, order), gate) else Ok(bucket)
  }

  /** The gate's loop over the materialized bucket. */
  method ReadableInstances(cls: ManagerClass, items: seq<Combination>, gate: Gate)
    returns (identifications: seq<Combination>)
    ensures identifications == Map(cls.identify, Filter(Readable(cls, gate), items))
  {
    identifications := [];
    for i := 0 to |items|
      invariant identifications == Map(cls.identify, Filter(Readable(cls, gate), items[..i]))
    {
      assert items[..i + 1] == items[..i] + [items[i]];
      FilterAppend(Readable(cls, gate), items[..i], [items[i]]);
      MapAppend(cls.identify, Filter(Readable(cls, gate), items[..i]), Filter(Readable(cls, gate), [items[i]]));
      if gate(Key(cls, items[i])) {
        identifications := identifications + [cls.identify(items[i])];
      }
    }
    assert items[..|items|] == items;
  }

  /** `apply_read_authorization` on a calculation bucket; a gated bucket without a cache is materialized. */
  method ApplyReadAuthorization(cls: ManagerClass, base: Bucket, permissions: Permissions, gate: Gate)
    returns (result: Outcome<Bucket>, ghost order: SortOutcome)
    requires cls.Valid()
    ensures var ungated := Ungated(cls, base, permissions);
            && (ungated.Raised? || !permissions.Gates() ==> result == ungated)
            && (ungated.Ok? && permissions.Gates() ==>
                  if ungated.value.data.Some? then
                    result == Gated(cls, ungated.value.plan, Ok(ungated.value.data.value), gate)
                  else
                    IsSortOutcome(cls.DependsOn(), order) && result == Authorized(cls, base, permissions, gate, order))
  {
    order := CyclicDependency("");
    if permissions.decision.DenyAll? {
      return Ok(NoneOf(base.plan)), order;
    }
    if permissions.decision.AllowAll? {
      return Ok(base), order;
    }
    var bucket := base;
    if permissions.alternatives != []
       && !(|permissions.alternatives| == 1 && permissions.alternatives[0].Unconstrained())
    {
      var merged := MergeAlternatives(cls, base.plan, permissions.alternatives);
      if merged.Raised? {
        return Raised(merged.failure), order;
      }
      bucket := Bucket(merged.value, None);
    }
    if !permissions.requiresInstanceCheck || !permissions.hasPermissionClass {
      return Ok(bucket), order;
    }
    var materialized := new CalculationBucket(cls, bucket);
    var items;
    items, order := materialized.GenerateCombinations();
    if items.Raised? {
      return Raised(items.failure), order;
    }
    var identifications := ReadableInstances(cls, items.value, gate);
    result := WithInstances(cls, bucket.plan, identifications);
  }

  // ----- what the list shows

  /** The plan after the alternatives. */
  function PermittedPlan(cls: ManagerClass, base: BucketPlan, alternatives: seq<Alternative>): Outcome<BucketPlan> {
    if alternatives == [] then Ok(base) else Merged(cls, base, alternatives)
  }

  predicate IdentifiedAlike(cls: ManagerClass, a: Combination) {
    cls.identify(cls.identify(a)) == cls.identify(a)
  }

  /** A manager built from its own identification is the same manager. */
  ghost predicate Identifying(cls: ManagerClass) {
    forall a :: IdentifiedAlike(cls, a)
  }

  lemma ShapeIdentifies(cls: ManagerClass, plan: BucketPlan, a: Combination)
    requires Identifying(cls)
    ensures cls.identify(Shape(cls, plan, a)) == cls.identify(a) && Key(cls, Shape(cls, plan, a)) == Key(cls, a)
  {
    assert IdentifiedAlike(cls, a);
  }

  lemma KeyOfIdentification(cls: ManagerClass, a: Combination)
    requires Identifying(cls)
    ensures Key(cls, cls.identify(a)) == Key(cls, a)
  {
    assert IdentifiedAlike(cls, a);
  }

  lemma PrefilteredPlan(cls: ManagerClass, base: BucketPlan, alternatives: seq<Alternative>)
    requires Alternatives(cls, base, alternatives)
    ensures PermittedPlan(cls, base, alternatives).Ok?
    ensures Prefiltered(cls, Bucket(base, None), alternatives)
         == Ok(Bucket(PermittedPlan(cls, base, alternatives).value, None))
    ensures Proper(cls, PermittedPlan(cls, base, alternatives).value)
    ensures LocalPlan(cls, PermittedPlan(cls, base, alternatives).value)
    ensures PermittedPlan(cls, base, alternatives).value.allowed == base.allowed
  {
    if alternatives != [] {
      MergedIsCommon(cls, base, alternatives);
      MergedIsComparable(cls, base, alternatives);
      if |alternatives| == 1 && alternatives[0].Unconstrained() {
        MergeFromNext(cls, base, None, alternatives, 0);
        assert alternatives[0..] == alternatives;
      }
    }
  }

  /** The bucket that the gate leaves: a fence around, and a cache of, the identifications that passed. */
  lemma GatedBucket(cls: ManagerClass, plan: BucketPlan, items: seq<Combination>, gate: Gate)
    requires Proper(cls, plan)
    ensures var passed := Map(cls.identify, Filter(Readable(cls, gate), items));
            Gated(cls, plan, Ok(items), gate) == Ok(Bucket(plan.(allowed := Some(passed)), Some(passed)))
  {
    ParsesIffKnown(cls, plan.filters);
    ParsesIffKnown(cls, plan.excludes);
  }

  lemma GatedItems(cls: ManagerClass, plan: BucketPlan, gate: Gate, order: SortOutcome, items: seq<Combination>,
                   c: Combination)
    requires IsSortOutcome(cls.DependsOn(), order) && Inputs(cls, plan, order).failure.None? && Identifying(cls)
    requires Materialize(cls, plan, order) == Ok(items)
    ensures c in Map(cls.identify, Filter(Readable(cls, gate), items))
       <==> exists a :: Member(cls, plan, order, a) && gate(Key(cls, a)) && c == cls.identify(a)
  {
    MapMembers(cls.identify, Filter(Readable(cls, gate), items), c);
    if x :| x in Filter(Readable(cls, gate), items) && c == cls.identify(x) {
      ContentsAreMembers(cls, plan, order, x);
      var a :| Member(cls, plan, order, a) && x == Shape(cls, plan, a);
      ShapeIdentifies(cls, plan, a);
    }
    if a :| Member(cls, plan, order, a) && gate(Key(cls, a)) && c == cls.identify(a) {
      var x := Shape(cls, plan, a);
      ContentsAreMembers(cls, plan, order, x);
      ShapeIdentifies(cls, plan, a);
      assert x in Filter(Readable(cls, gate), items);
    }
  }

  /** Which managers the list accepts. */
  ghost predicate ListAccepts(holds: Truth, readable: bool, base: BucketPlan, permitted: BucketPlan,
                              permissions: Permissions)
  {
    match permissions.decision
    case AllowAll => Accepts(holds, base)
    case DenyAll => false
    case Conditional =>
      Accepts(holds, permitted) && (permissions.requiresInstanceCheck && permissions.hasPermissionClass ==> readable)
  }

  /** The list over a calculation manager shows exactly the managers that it accepts, as raw combinations or
      as identifications. */
  lemma ListShowsExactly(cls: ManagerClass, base: BucketPlan, permissions: Permissions, gate: Gate, order: SortOutcome,
                         key: int)
    requires IsSortOutcome(cls.DependsOn(), order) && order.Ordered? && NeverRaises(cls) && Identifying(cls)
    requires Alternatives(cls, base, permissions.alternatives)
    ensures PermittedPlan(cls, base, permissions.alternatives).Ok?
    ensures var authorized := Authorized(cls, Bucket(base, None), permissions, gate, order);
            && authorized.Ok? && Contents(cls, authorized.value, order).Ok?
            && ((exists c :: c in Contents(cls, authorized.value, order).value && Key(cls, c) == key)
                <==> exists a :: Member(cls, Bare(base), order, a) && Key(cls, a) == key
                                 && ListAccepts(TruthOf(cls, a), gate(key), base,
                                                PermittedPlan(cls, base, permissions.alternatives).value, permissions))
  {
    PrefilteredPlan(cls, base, permissions.alternatives);
    var permitted := PermittedPlan(cls, base, permissions.alternatives).value;
    match permissions.decision {
      case AllowAll => PlanShows(cls, base, base, order, key);
      case DenyAll =>
      case Conditional =>
        if permissions.Gates() {
          GatedShows(cls, base, permitted, gate, order, key);
        } else {
          PlanShows(cls, base, permitted, order, key);
        }
    }
  }

  lemma PlanShows(cls: ManagerClass, base: BucketPlan, plan: BucketPlan, order: SortOutcome, key: int)
    requires IsSortOutcome(cls.DependsOn(), order) && order.Ordered? && NeverRaises(cls) && Identifying(cls)
    requires LocalPlan(cls, plan) && plan.allowed == base.allowed
    ensures Materialize(cls, plan, order).Ok?
    ensures (exists c :: c in Materialize(cls, plan, order).value && Key(cls, c) == key)
       <==> exists a :: Member(cls, Bare(base), order, a) && Key(cls, a) == key && Accepts(TruthOf(cls, a), plan)
  {
    LocalPlansNeverRaise(cls, plan, order);
    ShownKeys(cls, plan, order, key);
    forall a
      ensures Member(cls, plan, order, a) <==> Member(cls, Bare(base), order, a) && Accepts(TruthOf(cls, a), plan)
    {
      MemberOfBase(cls, base, plan, order, a);
    }
  }

  lemma ShownKeys(cls: ManagerClass, plan: BucketPlan, order: SortOutcome, key: int)
    requires IsSortOutcome(cls.DependsOn(), order) && Inputs(cls, plan, order).failure.None? && Identifying(cls)
    ensures Materialize(cls, plan, order).Ok?
    ensures (exists c :: c in Materialize(cls, plan, order).value && Key(cls, c) == key)
       <==> exists a :: Member(cls, plan, order, a) && Key(cls, a) == key
  {
    ContentsAreMembers(cls, plan, order, map[]);
    if c :| c in Materialize(cls, plan, order).value && Key(cls, c) == key {
      ContentsAreMembers(cls, plan, order, c);
      var a :| Member(cls, plan, order, a) && c == Shape(cls, plan, a);
      ShapeIdentifies(cls, plan, a);
    }
    if a :| Member(cls, plan, order, a) && Key(cls, a) == key {
      ContentsAreMembers(cls, plan, order, Shape(cls, plan, a));
      ShapeIdentifies(cls, plan, a);
    }
  }

  /** The definitions narrow the candidates of the base bucket. */
  lemma MemberOfBase(cls: ManagerClass, base: BucketPlan, plan: BucketPlan, order: SortOutcome, a: Combination)
    requires IsSortOutcome(cls.DependsOn(), order) && order.Ordered? && NeverRaises(cls)
    requires LocalPlan(cls, plan) && plan.allowed == base.allowed
    ensures Member(cls, plan, order, a) <==> Member(cls, Bare(base), order, a) && Accepts(TruthOf(cls, a), plan)
  {
    MemberByDefinition(cls, plan, order, a);
    SameFence(cls, plan, base, order, a);
  }

  lemma GatedShows(cls: ManagerClass, base: BucketPlan, plan: BucketPlan, gate: Gate, order: SortOutcome, key: int)
    requires IsSortOutcome(cls.DependsOn(), order) && order.Ordered? && NeverRaises(cls) && Identifying(cls)
    requires Proper(cls, plan) && LocalPlan(cls, plan) && plan.allowed == base.allowed
    ensures var gated := Gated(cls, plan, Materialize(cls, plan, order), gate);
            && gated.Ok? && gated.value.data.Some?
            && ((exists c :: c in gated.value.data.value && Key(cls, c) == key)
                <==> exists a :: Member(cls, Bare(base), order, a) && Key(cls, a) == key
                                 && Accepts(TruthOf(cls, a), plan) && gate(key))
  {
    LocalPlansNeverRaise(cls, plan, order);
    ContentsAreMembers(cls, plan, order, map[]);
    var items := Materialize(cls, plan, order).value;
    GatedBucket(cls, plan, items, gate);
    GatedKeys(cls, plan, gate, order, items, key);
    forall a
      ensures Member(cls, plan, order, a) <==> Member(cls, Bare(base), order, a) && Accepts(TruthOf(cls, a), plan)
    {
      MemberOfBase(cls, base, plan, order, a);
    }
  }

  lemma GatedKeys(cls: ManagerClass, plan: BucketPlan, gate: Gate, order: SortOutcome, items: seq<Combination>,
                  key: int)
    requires IsSortOutcome(cls.DependsOn(), order) && Inputs(cls, plan, order).failure.None? && Identifying(cls)
    requires Materialize(cls, plan, order) == Ok(items)
    ensures (exists c :: c in Map(cls.identify, Filter(Readable(cls, gate), items)) && Key(cls, c) == key)
       <==> exists a :: Member(cls, plan, order, a) && Key(cls, a) == key && gate(key)
  {
    var shown := Map(cls.identify, Filter(Readable(cls, gate), items));
    if c :| c in shown && Key(cls, c) == key {
      GatedItems(cls, plan, gate, order, items, c);
      var a :| Member(cls, plan, order, a) && gate(Key(cls, a)) && c == cls.identify(a);
      KeyOfIdentification(cls, a);
    }
    if a :| Member(cls, plan, order, a) && Key(cls, a) == key && gate(key) {
      GatedItems(cls, plan, gate, order, items, cls.identify(a));
      KeyOfIdentification(cls, a);
    }
  }

  // ----- what search accepts instead

  ghost predicate AllHold(holds: Truth, defs: Definitions) {
    forall k, v :: (k, v) in defs ==> holds(k, v)
  }

  /** The filter holds and the exclude, if there is one, does not hold as a whole. */
  ghost predicate SearchSatisfies(holds: Truth, alternative: Alternative) {
    AllHold(holds, alternative.filter) && !(alternative.exclude != [] && AllHold(holds, alternative.exclude))
  }

  ghost predicate SearchSatisfiesSome(holds: Truth, alternatives: seq<Alternative>) {
    exists i :: 0 <= i < |alternatives| && SearchSatisfies(holds, alternatives[i])
  }

  /** `passes_permission_filters` */
  ghost predicate SearchAccepts(holds: Truth, readable: bool, permissions: Permissions) {
    var canRead := permissions.hasPermissionClass ==> readable;
    match permissions.decision
    case AllowAll => true
    case DenyAll => false
    case Conditional =>
      if permissions.alternatives == [] then canRead
      else SearchSatisfiesSome(holds, permissions.alternatives) && (permissions.requiresInstanceCheck ==> canRead)
  }

  /** Whatever the lookups and the row gate answer, the list without criteria of its own and search accept
      the same managers. */
  ghost predicate PathsAgree(cls: ManagerClass, base: BucketPlan, permitted: BucketPlan, permissions: Permissions,
                             order: SortOutcome)
    requires IsSortOutcome(cls.DependsOn(), order)
  {
    forall matches, readable, a :: Member(cls, base, order, a) ==>
      AgreeOn(TruthOf(WithMatches(cls, matches), a), readable, base, permitted, permissions)
  }

  ghost predicate AgreeOn(holds: Truth, readable: bool, base: BucketPlan, permitted: BucketPlan,
                          permissions: Permissions)
  {
    ListAccepts(holds, readable, base, permitted, permissions) <==> SearchAccepts(holds, readable, permissions)
  }

  /** In every row of the truth table over the alternatives' definitions, the merge accepts what search
      accepts. */
  ghost predicate TablesAgree(base: BucketPlan, permitted: BucketPlan, alternatives: seq<Alternative>) {
    forall t :: t <= Mentioned(PlansOf(base, alternatives)) ==>
      (Accepts(Among(t), permitted) <==> SearchSatisfiesSome(Among(t), alternatives))
  }

  lemma AloneOnNothing(cls: ManagerClass, base: BucketPlan, alternatives: seq<Alternative>, i: nat)
    requires Alternatives(cls, base, alternatives) && base.filters == [] && base.excludes == [] && i < |alternatives|
    ensures PlansOf(base, alternatives)[i].filters == alternatives[i].filter
    ensures PlansOf(base, alternatives)[i].excludes == alternatives[i].exclude
  {
    assert ProperAlternative(cls, alternatives[i]) by {
      assert alternatives[i] in alternatives;
    }
    MergeEmpty(alternatives[i].filter);
    MergeEmpty(alternatives[i].exclude);
  }

  ghost predicate AgreeOnAlternatives(holds: Truth, other: Truth, alternatives: seq<Alternative>) {
    forall i, k, v :: 0 <= i < |alternatives| && ((k, v) in alternatives[i].filter || (k, v) in alternatives[i].exclude)
                      ==> holds(k, v) == other(k, v)
  }

  lemma SearchAlike(holds: Truth, other: Truth, alternatives: seq<Alternative>)
    requires AgreeOnAlternatives(holds, other, alternatives)
    ensures SearchSatisfiesSome(holds, alternatives) <==> SearchSatisfiesSome(other, alternatives)
  {
    forall i | 0 <= i < |alternatives|
      ensures SearchSatisfies(holds, alternatives[i]) <==> SearchSatisfies(other, alternatives[i])
    {
      var alternative := alternatives[i];
      assert AllHold(holds, alternative.filter) <==> AllHold(other, alternative.filter);
      assert AllHold(holds, alternative.exclude) <==> AllHold(other, alternative.exclude);
    }
  }

  /** The merge's definitions are all among those of the alternatives. */
  lemma MergedIsMentioned(holds: Truth, other: Truth, cls: ManagerClass, base: BucketPlan,
                          alternatives: seq<Alternative>)
    requires alternatives != [] && Alternatives(cls, base, alternatives) && base.filters == [] && base.excludes == []
    requires AgreeOnAlternatives(holds, other, alternatives) && Merged(cls, base, alternatives).Ok?
    ensures Accepts(holds, Merged(cls, base, alternatives).value)
            <==> Accepts(other, Merged(cls, base, alternatives).value)
  {
    var merged, plans := Merged(cls, base, alternatives).value, PlansOf(base, alternatives);
    MergedIsCommon(cls, base, alternatives);
    AloneOnNothing(cls, base, alternatives, 0);
    forall k, v | (k, v) in merged.filters || (k, v) in merged.excludes ensures holds(k, v) == other(k, v) {
      assert AllFilter(plans, k, v) || AllExclude(plans, k, v);
      assert (k, v) in plans[0].filters || (k, v) in plans[0].excludes;
    }
    AcceptsAlike(holds, other, merged);
  }

  lemma RowOnAlternatives(holds: Truth, cls: ManagerClass, base: BucketPlan, alternatives: seq<Alternative>)
    requires Alternatives(cls, base, alternatives) && base.filters == [] && base.excludes == []
    ensures AgreeOnAlternatives(holds, Among(RowOf(holds, PlansOf(base, alternatives))), alternatives)
  {
    var plans := PlansOf(base, alternatives);
    forall i, k, v | 0 <= i < |alternatives| && ((k, v) in alternatives[i].filter || (k, v) in alternatives[i].exclude)
      ensures holds(k, v) == Among(RowOf(holds, plans))(k, v)
    {
      AloneOnNothing(cls, base, alternatives, i);
      RowAgrees(holds, plans, i);
    }
  }

  lemma AnsweringOnAlternatives(cls: ManagerClass, base: BucketPlan, alternatives: seq<Alternative>,
                                t: set<(string, Raw)>, a: Combination)
    requires Alternatives(cls, base, alternatives)
    ensures AgreeOnAlternatives(TruthOf(WithMatches(cls, Answering(t)), a), Among(t), alternatives)
  {
    forall i, k, v | 0 <= i < |alternatives| && ((k, v) in alternatives[i].filter || (k, v) in alternatives[i].exclude)
      ensures TruthOf(WithMatches(cls, Answering(t)), a)(k, v) == Among(t)(k, v)
    {
      assert ProperAlternative(cls, alternatives[i]) && Local(cls, (k, v).0);
    }
  }

  /** Both paths over calculation managers agree exactly when the plan is not conditional, or has
      alternatives whose merge accepts what search accepts in every row of their truth table, or has none
      and leaves nothing to the row gate alone; or when there is no manager at all. */
  lemma PathsAgreeExactly(cls: ManagerClass, base: BucketPlan, permissions: Permissions, order: SortOutcome)
    requires IsSortOutcome(cls.DependsOn(), order) && order.Ordered? && NeverRaises(cls)
    requires Alternatives(cls, base, permissions.alternatives) && base.filters == [] && base.excludes == []
    ensures PermittedPlan(cls, base, permissions.alternatives).Ok?
    ensures var permitted := PermittedPlan(cls, base, permissions.alternatives).value;
            PathsAgree(cls, base, permitted, permissions, order)
            <==> || !permissions.decision.Conditional?
                 || (forall a :: !Member(cls, base, order, a))
                 || (if permissions.alternatives == []
                     then permissions.requiresInstanceCheck || !permissions.hasPermissionClass
                     else TablesAgree(base, permitted, permissions.alternatives))
  {
    PrefilteredPlan(cls, base, permissions.alternatives);
    var permitted := PermittedPlan(cls, base, permissions.alternatives).value;
    if permissions.decision.Conditional? {
      if permissions.alternatives == [] {
        WithoutAlternatives(cls, base, permissions, order);
      } else {
        if TablesAgree(base, permitted, permissions.alternatives) {
          forall matches, readable, a | Member(cls, base, order, a)
            ensures AgreeOn(TruthOf(WithMatches(cls, matches), a), readable, base, permitted, permissions)
          {
            TableDecides(TruthOf(WithMatches(cls, matches), a), cls, base, permissions.alternatives);
          }
        }
        if a :| Member(cls, base, order, a) && PathsAgree(cls, base, permitted, permissions, order) {
          forall t | t <= Mentioned(PlansOf(base, permissions.alternatives))
            ensures Accepts(Among(t), permitted) <==> SearchSatisfiesSome(Among(t), permissions.alternatives)
          {
            RowIsCompared(cls, base, permissions, order, a, t);
          }
        }
      }
    }
  }

  lemma WithoutAlternatives(cls: ManagerClass, base: BucketPlan, permissions: Permissions, order: SortOutcome)
    requires IsSortOutcome(cls.DependsOn(), order) && base.filters == [] && base.excludes == []
    requires permissions.decision.Conditional? && permissions.alternatives == []
    ensures PathsAgree(cls, base, base, permissions, order)
       <==> (forall a :: !Member(cls, base, order, a)) || permissions.requiresInstanceCheck
            || !permissions.hasPermissionClass
  {
    if a :| Member(cls, base, order, a) && PathsAgree(cls, base, base, permissions, order) {
      assert AgreeOn(TruthOf(WithMatches(cls, Answering({})), a), false, base, base, permissions);
    }
  }

  lemma TableDecides(holds: Truth, cls: ManagerClass, base: BucketPlan, alternatives: seq<Alternative>)
    requires alternatives != [] && Alternatives(cls, base, alternatives) && base.filters == [] && base.excludes == []
    requires Merged(cls, base, alternatives).Ok?
    requires TablesAgree(base, Merged(cls, base, alternatives).value, alternatives)
    ensures Accepts(holds, Merged(cls, base, alternatives).value) <==> SearchSatisfiesSome(holds, alternatives)
  {
    var t := RowOf(holds, PlansOf(base, alternatives));
    RowOnAlternatives(holds, cls, base, alternatives);
    MergedIsMentioned(holds, Among(t), cls, base, alternatives);
    SearchAlike(holds, Among(t), alternatives);
  }

  lemma RowIsCompared(cls: ManagerClass, base: BucketPlan, permissions: Permissions, order: SortOutcome, a: Combination,
                      t: set<(string, Raw)>)
    requires IsSortOutcome(cls.DependsOn(), order) && Member(cls, base, order, a)
    requires permissions.decision.Conditional? && permissions.alternatives != []
    requires Alternatives(cls, base, permissions.alternatives) && base.filters == [] && base.excludes == []
    requires Merged(cls, base, permissions.alternatives).Ok?
    requires PathsAgree(cls, base, Merged(cls, base, permissions.alternatives).value, permissions, order)
    ensures Accepts(Among(t), Merged(cls, base, permissions.alternatives).value)
       <==> SearchSatisfiesSome(Among(t), permissions.alternatives)
  {
    var holds := TruthOf(WithMatches(cls, Answering(t)), a);
    AnsweringOnAlternatives(cls, base, permissions.alternatives, t, a);
    MergedIsMentioned(holds, Among(t), cls, base, permissions.alternatives);
    SearchAlike(holds, Among(t), permissions.alternatives);
    assert AgreeOn(holds, true, base, Merged(cls, base, permissions.alternatives).value, permissions);
  }

  /** With one alternative: exactly when it excludes at most one definition, or only what it filters for. A
      bucket excludes a manager of which any excluded definition holds, search one of which all hold. */
  lemma OneAlternativeAgreesExactly(cls: ManagerClass, base: BucketPlan, alternative: Alternative)
    requires Alternatives(cls, base, [alternative]) && base.filters == [] && base.excludes == []
    ensures Merged(cls, base, [alternative]).Ok?
    ensures TablesAgree(base, Merged(cls, base, [alternative]).value, [alternative])
       <==> |alternative.exclude| <= 1 || forall item :: item in alternative.exclude ==> item in alternative.filter
  {
    MergedIsCommon(cls, base, [alternative]);
    var permitted := Merged(cls, base, [alternative]).value;
    if |alternative.exclude| <= 1 || forall item :: item in alternative.exclude ==> item in alternative.filter {
      forall t | t <= Mentioned(PlansOf(base, [alternative]))
        ensures Accepts(Among(t), permitted) <==> SearchSatisfiesSome(Among(t), [alternative])
      {
        OneAlternativeAccepts(Among(t), cls, base, alternative);
        FewExcludes(Among(t), alternative);
      }
    } else {
      var item :| item in alternative.exclude && item !in alternative.filter;
      SomeExcluded(cls, base, alternative, item);
    }
  }

  lemma OneAlternativeAccepts(holds: Truth, cls: ManagerClass, base: BucketPlan, alternative: Alternative)
    requires Alternatives(cls, base, [alternative]) && base.filters == [] && base.excludes == []
    ensures Merged(cls, base, [alternative]).Ok?
    ensures Accepts(holds, Merged(cls, base, [alternative]).value)
       <==> AllHold(holds, alternative.filter) && NoneHolds(holds, alternative.exclude)
    ensures SearchSatisfiesSome(holds, [alternative]) <==> SearchSatisfies(holds, alternative)
  {
    MergedIsCommon(cls, base, [alternative]);
    AloneOnNothing(cls, base, [alternative], 0);
    OneIsAlone(Merged(cls, base, [alternative]).value, PlansOf(base, [alternative]));
    assert [alternative][0] == alternative;
  }

  /** A manager of which one of several excluded definitions holds. */
  lemma SomeExcluded(cls: ManagerClass, base: BucketPlan, alternative: Alternative, item: (string, Raw))
    requires Alternatives(cls, base, [alternative]) && base.filters == [] && base.excludes == []
    requires Merged(cls, base, [alternative]).Ok?
    requires |alternative.exclude| >= 2 && item in alternative.exclude && item !in alternative.filter
    ensures !TablesAgree(base, Merged(cls, base, [alternative]).value, [alternative])
  {
    var plans := PlansOf(base, [alternative]);
    assert ProperAlternative(cls, alternative) by {
      assert alternative in [alternative];
    }
    var other := OtherItem(alternative.exclude, item);
    var t := DefinitionSet(alternative.filter) + {other};
    AloneOnNothing(cls, base, [alternative], 0);
    MentionedItems(plans, 0);
    assert t <= Mentioned(plans);
    assert (other.0, other.1) in alternative.exclude && Among(t)(other.0, other.1);
    assert (item.0, item.1) in alternative.exclude && !Among(t)(item.0, item.1);
    OneAlternativeAccepts(Among(t), cls, base, alternative);
  }

  ghost predicate NoneHolds(holds: Truth, defs: Definitions) {
    forall k, v :: (k, v) in defs ==> !holds(k, v)
  }

  lemma OneIsAlone(permitted: BucketPlan, plans: seq<BucketPlan>)
    requires |plans| == 1 && AsksForCommon(permitted, plans)
    ensures forall k, v :: (k, v) in permitted.filters <==> (k, v) in plans[0].filters
    ensures forall k, v :: (k, v) in permitted.excludes <==> (k, v) in plans[0].excludes
  {
    forall k, v
      ensures AllFilter(plans, k, v) <==> (k, v) in plans[0].filters
      ensures AllExclude(plans, k, v) <==> (k, v) in plans[0].excludes
    {
    }
  }

  lemma FewExcludes(holds: Truth, alternative: Alternative)
    requires |alternative.exclude| <= 1 || forall item :: item in alternative.exclude ==> item in alternative.filter
    ensures SearchSatisfies(holds, alternative)
       <==> AllHold(holds, alternative.filter) && NoneHolds(holds, alternative.exclude)
  {
    var exclude := alternative.exclude;
    if exclude != [] {
      assert (exclude[0].0, exclude[0].1) in exclude;
      if |exclude| == 1 {
        assert forall item :: item in exclude ==> item == exclude[0];
      } else {
        forall k, v | (k, v) in exclude ensures (k, v) in alternative.filter {
        }
      }
    }
  }

  lemma OtherItem(defs: Definitions, item: (string, Raw)) returns (other: (string, Raw))
    requires IsDict(defs) && |defs| >= 2 && item in defs
    ensures other in defs && other != item
  {
    other := if defs[0] == item then defs[1] else defs[0];
    assert defs[0].0 != defs[1].0;
  }

  // ----- the deferred criteria

  /** No lookup of `e` gives a definition of `d` another value. */
  ghost predicate Keeps(d: Definitions, e: Definitions) {
    forall k :: Get(d, k).Some? && Get(e, k).Some? ==> Get(d, k) == Get(e, k)
  }

  ghost predicate DeferredAgrees(permitted: BucketPlan, deferred: QueryParameterPlan) {
    && Keeps(permitted.filters, deferred.filters)
    && Keeps(permitted.excludes, Merge(deferred.excludes, deferred.normalizedExcludes))
  }

  ghost predicate Contradictory(plan: BucketPlan) {
    exists item :: item in plan.filters && item in plan.excludes
  }

  lemma ItemIsGet(d: Definitions, k: string, v: Raw)
    requires IsDict(d)
    ensures (k, v) in d <==> Get(d, k) == Some(v)
  {
    if (k, v) in d {
      GetItem(d, k, v);
    }
    GetFound(d, k);
  }

  lemma MergeKeepsItems(d: Definitions, e: Definitions)
    requires IsDict(d) && IsDict(e)
    ensures Keeps(d, e) <==> forall item :: item in d ==> item in Merge(d, e)
  {
    MergeKeeps(d, e);
    if Keeps(d, e) {
      forall item | item in d ensures item in Merge(d, e) {
        ItemIsGet(d, item.0, item.1);
        GetMerge(d, e, item.0);
        GetFound(e, item.0);
        ItemIsGet(Merge(d, e), item.0, item.1);
      }
    }
    if forall item :: item in d ==> item in Merge(d, e) {
      forall k | Get(d, k).Some? && Get(e, k).Some? ensures Get(d, k) == Get(e, k) {
        var v := Get(d, k).value;
        ItemIsGet(d, k, v);
        ItemIsGet(Merge(d, e), k, v);
        GetMerge(d, e, k);
        GetFound(e, k);
      }
    }
  }

  /** What `plan` asks for is implied by `final` alone iff `final` still has it, or accepts nothing. */
  lemma ImpliesOneExactly(final: BucketPlan, plan: BucketPlan)
    ensures Implies(final, [plan])
       <==> || Contradictory(final)
            || ((forall item :: item in plan.filters ==> item in final.filters)
                && (forall item :: item in plan.excludes ==> item in final.excludes))
  {
    assert [plan][0] == plan;
    if Implies(final, [plan]) && !Contradictory(final) {
      forall item | item in plan.filters ensures item in final.filters {
        MustFilter(final, plan, item);
      }
      forall item | item in plan.excludes ensures item in final.excludes {
        MustExclude(final, plan, item);
      }
    }
    if Contradictory(final) {
      var item :| item in final.filters && item in final.excludes;
      assert (item.0, item.1) in final.filters && (item.0, item.1) in final.excludes;
    } else if (forall item :: item in plan.filters ==> item in final.filters)
              && (forall item :: item in plan.excludes ==> item in final.excludes) {
      forall t | t <= Mentioned([final] + [plan]) && Accepts(Among(t), final) ensures AcceptsSome(Among(t), [plan]) {
        assert Accepts(Among(t), [plan][0]);
      }
    }
  }

  lemma MentionedBoth(final: BucketPlan, plan: BucketPlan)
    ensures DefinitionSet(final.filters) <= Mentioned([final] + [plan])
    ensures DefinitionSet(plan.excludes) <= Mentioned([final] + [plan])
  {
    var plans := [final] + [plan];
    MentionedItems(plans, 0);
    MentionedItems(plans, 1);
  }

  lemma MustFilter(final: BucketPlan, plan: BucketPlan, item: (string, Raw))
    requires Implies(final, [plan]) && !Contradictory(final) && item in plan.filters
    ensures item in final.filters
  {
    var t := DefinitionSet(final.filters);
    MentionedBoth(final, plan);
    assert Accepts(Among(t), final);
    assert AcceptsSome(Among(t), [plan]) && [plan][0] == plan;
    assert (item.0, item.1) in plan.filters;
  }

  lemma MustExclude(final: BucketPlan, plan: BucketPlan, item: (string, Raw))
    requires Implies(final, [plan]) && !Contradictory(final) && item in plan.excludes
    ensures item in final.excludes
  {
    var t := DefinitionSet(final.filters) + {item};
    MentionedBoth(final, plan);
    RefusedByExclude(t, plan, item);
    assert !Accepts(Among(t), final);
  }

  lemma RefusedByExclude(t: set<(string, Raw)>, plan: BucketPlan, item: (string, Raw))
    requires item in t && item in plan.excludes
    ensures !AcceptsSome(Among(t), [plan])
  {
    assert [plan][0] == plan;
    assert (item.0, item.1) in plan.excludes && Among(t)(item.0, item.1);
  }

  ghost predicate DeferredPlan(cls: ManagerClass, deferred: QueryParameterPlan) {
    && deferred.Valid()
    && LocalDefinitions(cls, deferred.filters) && LocalDefinitions(cls, deferred.excludes)
    && LocalDefinitions(cls, deferred.normalizedExcludes)
  }

  /** The plan after the deferred part. */
  function Final(permitted: BucketPlan, deferred: QueryParameterPlan): BucketPlan {
    if deferred.Empty() then permitted
    else BucketPlan(Merge(permitted.filters, deferred.filters),
                    Merge(Merge(permitted.excludes, deferred.excludes), deferred.normalizedExcludes),
                    permitted.allowed, None, false)
  }

  lemma FinalIsApplied(cls: ManagerClass, permitted: BucketPlan, deferred: QueryParameterPlan)
    requires Proper(cls, permitted) && LocalPlan(cls, permitted) && DeferredPlan(cls, deferred)
    ensures ApplyPlan(cls, Bucket(permitted, None), deferred) == Ok(Bucket(Final(permitted, deferred), None))
    ensures LocalPlan(cls, Final(permitted, deferred))
  {
    assert Understood(cls, deferred);
    ApplyPlanResult(cls, Bucket(permitted, None), deferred);
    MergeItems(permitted.filters, deferred.filters);
    MergeItems(permitted.excludes, deferred.excludes);
    MergeItems(Merge(permitted.excludes, deferred.excludes), deferred.normalizedExcludes);
  }

  lemma {:induction false} MergeTwice(d: Definitions, e: Definitions, f: Definitions)
    requires IsDict(d) && IsDict(e) && IsDict(f)
    ensures forall item :: item in Merge(Merge(d, e), f) <==> item in Merge(d, Merge(e, f))
  {
    MergeKeeps(d, e);
    MergeKeeps(Merge(d, e), f);
    MergeKeeps(e, f);
    MergeKeeps(d, Merge(e, f));
    forall item ensures item in Merge(Merge(d, e), f) <==> item in Merge(d, Merge(e, f)) {
      assert item == (item.0, item.1);
      ItemIsGet(Merge(Merge(d, e), f), item.0, item.1);
      ItemIsGet(Merge(d, Merge(e, f)), item.0, item.1);
      GetMerge(Merge(d, e), f, item.0);
      GetMerge(d, e, item.0);
      GetMerge(e, f, item.0);
      GetMerge(d, Merge(e, f), item.0);
    }
  }

  /** Without row gate, whatever the lookups answer: all that the list shows after its deferred criteria
      satisfies the merged permission definitions, exactly when the deferred criteria give none of their
      lookups another value, or nothing can be shown. */
  lemma DeferredKeepsPermissionsExactly(cls: ManagerClass, permitted: BucketPlan, deferred: QueryParameterPlan,
                                        order: SortOutcome)
    requires IsSortOutcome(cls.DependsOn(), order) && order.Ordered? && NeverRaises(cls)
    requires Proper(cls, permitted) && LocalPlan(cls, permitted) && DeferredPlan(cls, deferred)
    ensures ApplyPlan(cls, Bucket(permitted, None), deferred) == Ok(Bucket(Final(permitted, deferred), None))
    ensures var final := Final(permitted, deferred);
            ShowsOnly(cls, final, [permitted], order)
            <==> NoCandidates(cls, final, order) || Contradictory(final) || DeferredAgrees(permitted, deferred)
  {
    var final := Final(permitted, deferred);
    FinalIsApplied(cls, permitted, deferred);
    ShowsOnlyExactly(cls, final, [permitted], order);
    ImpliesOneExactly(final, permitted);
    var excludes := Merge(deferred.excludes, deferred.normalizedExcludes);
    MergeKeeps(deferred.excludes, deferred.normalizedExcludes);
    MergeKeepsItems(permitted.filters, deferred.filters);
    MergeKeepsItems(permitted.excludes, excludes);
    MergeTwice(permitted.excludes, deferred.excludes, deferred.normalizedExcludes);
  }

  /** And it is accepted by some permission alternative exactly when the definitions that are left imply
      one. */
  lemma DeferredStaysPermittedExactly(cls: ManagerClass, base: BucketPlan, alternatives: seq<Alternative>,
                                      deferred: QueryParameterPlan, order: SortOutcome)
    requires IsSortOutcome(cls.DependsOn(), order) && order.Ordered? && NeverRaises(cls)
    requires alternatives != [] && Alternatives(cls, base, alternatives) && DeferredPlan(cls, deferred)
    ensures Merged(cls, base, alternatives).Ok?
    ensures var final, plans := Final(Merged(cls, base, alternatives).value, deferred), PlansOf(base, alternatives);
            ShowsOnly(cls, final, plans, order) <==> NoCandidates(cls, final, order) || Implies(final, plans)
  {
    MergedIsCommon(cls, base, alternatives);
    MergedIsComparable(cls, base, alternatives);
    var permitted := Merged(cls, base, alternatives).value;
    FinalIsApplied(cls, permitted, deferred);
    ShowsOnlyExactly(cls, Final(permitted, deferred), PlansOf(base, alternatives), order);
  }

  /** One permission on a lookup and a deferred filter on the same lookup: only the filter is left, and no
      fence. */
  lemma DeferredReplacesPermission(cls: ManagerClass, k: string, v: Raw, w: Raw)
    requires FieldOf(cls, k).Some?
    ensures var permitted := Narrow(cls, BASE.plan, Alternative([(k, v)], []));
            && permitted.Ok?
            && ApplyPlan(cls, Bucket(permitted.value, None), QueryParameterPlan([(k, w)], [], []))
               == Ok(Bucket(BucketPlan([(k, w)], [], None, None, false), None))
  {
    NarrowToOne(cls, BASE.plan, k, v);
    var before, after: Definitions := [(k, v)], [(k, w)];
    assert before[1..] == [] && after[1..] == [];
    assert Merge(before, after) == Merge(Put(before, k, w), []) == after;
    assert FirstUnknown(cls, after).None? && FirstUnknown(cls, []).None?;
  }

  // ----- behind the row gate

  lemma FilterStaysFenced(cls: ManagerClass, bucket: Bucket, kwargs: Definitions, keys: set<int>)
    requires Fenced(cls, bucket, keys)
    ensures var filtered := FilterUnlessEmpty(cls, bucket, kwargs); filtered.Ok? ==> Fenced(cls, filtered.value, keys)
    ensures var excluded := ExcludeUnlessEmpty(cls, bucket, kwargs); excluded.Ok? ==> Fenced(cls, excluded.value, keys)
  {
  }

  lemma PlanStaysFenced(cls: ManagerClass, bucket: Bucket, plan: QueryParameterPlan, keys: set<int>)
    requires Fenced(cls, bucket, keys)
    ensures ApplyPlan(cls, bucket, plan).Ok? ==> Fenced(cls, ApplyPlan(cls, bucket, plan).value, keys)
  {
    FilterStaysFenced(cls, bucket, plan.filters, keys);
    var filtered := FilterUnlessEmpty(cls, bucket, plan.filters);
    if filtered.Ok? {
      FilterStaysFenced(cls, filtered.value, plan.excludes, keys);
      var excluded := ExcludeUnlessEmpty(cls, filtered.value, plan.excludes);
      if excluded.Ok? {
        FilterStaysFenced(cls, excluded.value, plan.normalizedExcludes, keys);
      }
    }
  }

  /** Behind the row gate every deferred criterion can only narrow: what is shown passed the gate before. */
  lemma DeferredStaysGated(cls: ManagerClass, bucket: Bucket, gate: Gate, deferred: QueryParameterPlan,
                           order: SortOutcome, c: Combination)
    requires IsSortOutcome(cls.DependsOn(), order) && Contents(cls, bucket, order).Ok?
    requires Gated(cls, bucket.plan, Contents(cls, bucket, order), gate).Ok?
    requires var gated := Gated(cls, bucket.plan, Contents(cls, bucket, order), gate).value;
             && ApplyPlan(cls, gated, deferred).Ok?
             && Contents(cls, ApplyPlan(cls, gated, deferred).value, order).Ok?
             && c in Contents(cls, ApplyPlan(cls, gated, deferred).value, order).value
    ensures exists x :: x in Contents(cls, bucket, order).value && gate(Key(cls, x)) && cls.freeze(c) == Key(cls, x)
  {
    var items := Contents(cls, bucket, order).value;
    var passed := Filter(Readable(cls, gate), items);
    var gated := Gated(cls, bucket.plan, Ok(items), gate).value;
    var keys := FrozenKeys(cls, Map(cls.identify, passed));
    PlanStaysFenced(cls, gated, deferred, keys);
    ContentsWithin(cls, ApplyPlan(cls, gated, deferred).value, order, keys);
    var id :| id in Map(cls.identify, passed) && cls.freeze(id) == cls.freeze(c);
    MapMembers(cls.identify, passed, id);
  }

  // ----- the whole list resolver

  /** The calculation branch of the list resolver. */
  ghost function ListPipeline(cls: ManagerClass, plan: QueryParameterPlan, permissions: Permissions, gate: Gate,
                              order: SortOutcome): Outcome<Bucket>
    requires IsSortOutcome(cls.DependsOn(), order)
  {
    match Partition(cls, plan)
    case Raised(f) => Raised(f)
    case Ok(parts) =>
      match ApplyPlan(cls, BASE, parts.0)
      case Raised(f) => Raised(f)
      case Ok(selected) =>
        match FenceUnlessEmpty(cls, selected, parts.0, order)
        case Raised(f) => Raised(f)
        case Ok(fenced) =>
          match Authorized(cls, fenced, permissions, gate, order)
          case Raised(f) => Raised(f)
          case Ok(authorized) => ApplyPlan(cls, authorized, parts.1)
  }

  /** With a row gate the whole list shows nothing that did not pass it. */
  lemma PipelineStaysGated(cls: ManagerClass, plan: QueryParameterPlan, permissions: Permissions, gate: Gate,
                           order: SortOutcome, c: Combination)
    requires IsSortOutcome(cls.DependsOn(), order) && permissions.Gates()
    requires var shown := ListPipeline(cls, plan, permissions, gate, order);
             shown.Ok? && Contents(cls, shown.value, order).Ok? && c in Contents(cls, shown.value, order).value
    ensures exists x :: gate(Key(cls, x)) && cls.freeze(c) == Key(cls, x)
  {
    var parts := Partition(cls, plan).value;
    var fenced := FenceUnlessEmpty(cls, ApplyPlan(cls, BASE, parts.0).value, parts.0, order).value;
    DeferredStaysGated(cls, Ungated(cls, fenced, permissions).value, gate, parts.1, order, c);
  }

  /** Under an allow-all plan this is the pipeline without permissions. */
  lemma AllowAllPipeline(cls: ManagerClass, plan: QueryParameterPlan, permissions: Permissions, gate: Gate,
                         order: SortOutcome)
    requires IsSortOutcome(cls.DependsOn(), order) && permissions.decision.AllowAll?
    ensures ListPipeline(cls, plan, permissions, gate, order) == StagedPipeline(cls, plan, order)
  {
  }
}
