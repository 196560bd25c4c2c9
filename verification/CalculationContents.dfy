/** What a calculation bucket contains, definition by definition, for definitions that are evaluated one by
    one: about computed properties and inputs that are not managers. */
module CalculationContents {
  import opened Sequences
  import opened Dicts
  import opened InputOrder
  import opened InputEnumeration
  import opened EnumerationLaws
  import opened EnumerationFailures
  import opened CalculationBuckets

  // ----- definitions that are evaluated one by one

  ghost predicate NeverBucket(possible: PossibleValues) {
    match possible
    case Static(domain) => !domain.Managers?
    case Provider(provide) => forall c :: !provide(c).Managers?
  }

  /** A lookup about a property or an input that is not manager-typed, and whose values come as a list. */
  ghost predicate Local(cls: ManagerClass, k: string) {
    match FieldOf(cls, k)
    case Some(p) => !ParsedAsManager(cls, p) && (p in cls.fields ==> NeverBucket(cls.fields[p].possibleValues))
    case None => false
  }

  ghost predicate LocalDefinitions(cls: ManagerClass, defs: Definitions) {
    forall item :: item in defs ==> Local(cls, item.0)
  }

  ghost predicate LocalPlan(cls: ManagerClass, plan: BucketPlan) {
    LocalDefinitions(cls, plan.filters) && LocalDefinitions(cls, plan.excludes)
  }

  // ----- truth

  /** What each definition says of one manager. */
  type Truth = (string, Raw) -> bool

  ghost predicate Accepts(holds: Truth, plan: BucketPlan) {
    && (forall k, v :: (k, v) in plan.filters ==> holds(k, v))
    && (forall k, v :: (k, v) in plan.excludes ==> !holds(k, v))
  }

  ghost predicate AcceptsSome(holds: Truth, plans: seq<BucketPlan>) {
    exists i :: 0 <= i < |plans| && Accepts(holds, plans[i])
  }

  /** The value that a lookup about `p` is put to; an absent input counts as None. */
  function ValueOf(cls: ManagerClass, p: Name, a: Combination): Value {
    if p !in cls.fields then cls.attribute(p, a) else if p in a then a[p] else Null
  }

  predicate Says(cls: ManagerClass, k: string, v: Raw, a: Combination) {
    match FieldOf(cls, k)
    case Some(p) => cls.matches(p, k, v, ValueOf(cls, p, a))
    case None => false
  }

  function TruthOf(cls: ManagerClass, a: Combination): Truth {
    (k: string, v: Raw) => Says(cls, k, v, a)
  }

  // ----- members

  /** A combination that the bucket's inputs yield and that its fence and its property criteria let through. */
  ghost predicate Member(cls: ManagerClass, plan: BucketPlan, order: SortOutcome, a: Combination)
    requires IsSortOutcome(cls.DependsOn(), order)
  {
    a in Inputs(cls, plan, order).emitted && Passes(cls, plan, a)
  }

  /** The bucket without its definitions. */
  function Bare(plan: BucketPlan): BucketPlan { plan.(filters := [], excludes := []) }

  /** Without definitions the class enumerates its inputs in every order without an exception. */
  ghost predicate NeverRaises(cls: ManagerClass) {
    !CanRaise(SlotsOf(cls, BucketPlan([], [], None, None, false)))
  }

  // ----- the inputs

  ghost predicate AllSay(cls: ManagerClass, defs: Definitions, a: Combination) {
    forall item :: item in defs ==> Says(cls, item.0, item.1, a)
  }

  ghost predicate NoneSays(cls: ManagerClass, defs: Definitions, a: Combination) {
    forall item :: item in defs ==> !Says(cls, item.0, item.1, a)
  }

  lemma PassesByDefinition(cls: ManagerClass, n: Name, fs: Definitions, es: Definitions, slot: Slot, a: Combination)
    requires slot.filterFuncs == Predicates(cls, n, fs) && slot.excludeFuncs == Predicates(cls, n, es)
    requires forall item :: item in fs || item in es ==> FieldOf(cls, item.0) == Some(n)
    ensures PassesFuncs(slot, ValueOf(cls, n, a)) <==> AllSay(cls, fs, a) && NoneSays(cls, es, a)
  {
    var v := ValueOf(cls, n, a);
    forall i | 0 <= i < |fs| ensures slot.filterFuncs[i](v) <==> Says(cls, fs[i].0, fs[i].1, a) {
      assert fs[i] in fs;
    }
    forall i | 0 <= i < |es| ensures slot.excludeFuncs[i](v) <==> Says(cls, es[i].0, es[i].1, a) {
      assert es[i] in es;
    }
    AllByPosition(cls, fs, a);
    NoneByPosition(cls, es, a);
  }

  lemma AllByPosition(cls: ManagerClass, defs: Definitions, a: Combination)
    ensures AllSay(cls, defs, a) <==> forall i :: 0 <= i < |defs| ==> Says(cls, defs[i].0, defs[i].1, a)
  {
    forall i | 0 <= i < |defs| ensures defs[i] in defs {
    }
  }

  lemma NoneByPosition(cls: ManagerClass, defs: Definitions, a: Combination)
    ensures NoneSays(cls, defs, a) <==> forall i :: 0 <= i < |defs| ==> !Says(cls, defs[i].0, defs[i].1, a)
  {
    forall i | 0 <= i < |defs| ensures defs[i] in defs {
    }
  }

  /** The definitions about one input decide together with its domain. */
  lemma SettledByDefinition(cls: ManagerClass, n: Name, fs: Definitions, es: Definitions, a: Combination)
    requires n in cls.fields && LocalDefinitions(cls, fs) && LocalDefinitions(cls, es)
    requires forall item :: item in fs || item in es ==> AboutInput(cls, n)(item.0)
    ensures Settled(SlotOf(cls, n, fs, es), n, a)
       <==> Settled(SlotOf(cls, n, [], []), n, a) && AllSay(cls, fs, a) && NoneSays(cls, es, a)
  {
    if fs != [] || es != [] {
      var some := if fs != [] then fs[0] else es[0];
      assert some in fs || some in es;
      assert Local(cls, some.0) && FieldOf(cls, some.0) == Some(n);
      var slot, bare := SlotOf(cls, n, fs, es), SlotOf(cls, n, [], []);
      PassesByDefinition(cls, n, fs, es, slot, a);
      assert PassesFuncs(bare, ValueOf(cls, n, a));
      assert GetPossibleValues(n, slot.field, a) == GetPossibleValues(n, bare.field, a);
    }
  }

  /** The definitions about `n` let the combination through. */
  ghost predicate InputAccepts(cls: ManagerClass, plan: BucketPlan, n: Name, a: Combination) {
    && AllSay(cls, Keep(AboutInput(cls, n), plan.filters), a)
    && NoneSays(cls, Keep(AboutInput(cls, n), plan.excludes), a)
  }

  ghost predicate InputsAccept(cls: ManagerClass, plan: BucketPlan, a: Combination) {
    forall n :: n in cls.fields ==> InputAccepts(cls, plan, n, a)
  }

  lemma AboutOneInput(cls: ManagerClass, plan: BucketPlan, n: Name, a: Combination)
    requires n in cls.fields && LocalPlan(cls, plan)
    ensures Settled(SlotsOf(cls, plan)[n], n, a)
       <==> Settled(SlotOf(cls, n, [], []), n, a) && InputAccepts(cls, plan, n, a)
  {
    SettledByDefinition(cls, n, Keep(AboutInput(cls, n), plan.filters), Keep(AboutInput(cls, n), plan.excludes), a);
  }

  lemma SlotsDeclared(cls: ManagerClass, plan: BucketPlan)
    ensures SlotsOf(cls, plan).Keys == cls.fields.Keys
    ensures forall n :: n in cls.fields ==> SlotsOf(cls, plan)[n].field == cls.fields[n]
    ensures DependenciesOf(SlotsOf(cls, plan)) == cls.DependsOn()
  {
  }

  // ----- fewer candidates raise no more

  /** The same fields; what is settled in `tight` is settled in `loose`. */
  ghost predicate Tighter(tight: Slots, loose: Slots) {
    && tight.Keys == loose.Keys
    && (forall n :: n in tight ==> tight[n].field == loose[n].field)
    && forall n, a :: n in tight && Settled(tight[n], n, a) ==> Settled(loose[n], n, a)
  }

  lemma TighterRaisesNoMore(tight: Slots, loose: Slots)
    requires Tighter(tight, loose) && CanRaise(tight)
    ensures CanRaise(loose)
  {
    var done, a, m :| RaisingPoint(tight, done, a, m);
    assert RaisingPoint(loose, done, a, m);
  }

  lemma PlanIsTighter(cls: ManagerClass, plan: BucketPlan, bare: BucketPlan)
    requires LocalPlan(cls, plan) && bare.filters == [] && bare.excludes == []
    ensures Tighter(SlotsOf(cls, plan), SlotsOf(cls, bare))
  {
    SlotsDeclared(cls, plan);
    SlotsDeclared(cls, bare);
    forall n, a | n in cls.fields && Settled(SlotsOf(cls, plan)[n], n, a) ensures Settled(SlotsOf(cls, bare)[n], n, a) {
      AboutOneInput(cls, plan, n, a);
      AboutOneInput(cls, bare, n, a);
    }
  }

  lemma LocalPlansNeverRaise(cls: ManagerClass, plan: BucketPlan, order: SortOutcome)
    requires IsSortOutcome(cls.DependsOn(), order) && order.Ordered? && NeverRaises(cls) && LocalPlan(cls, plan)
    ensures Inputs(cls, plan, order).failure.None?
  {
    var slots := SlotsOf(cls, plan);
    SlotsDeclared(cls, plan);
    PlanIsTighter(cls, plan, BucketPlan([], [], None, None, false));
    if CanRaise(slots) {
      TighterRaisesNoMore(slots, SlotsOf(cls, BucketPlan([], [], None, None, false)));
    }
    SomeOrderRaisesExactly(slots, order.order);
    StartReached(slots, order.order);
    assert !RaisingOrder(slots, order.order);
  }

  // ----- a bucket, definition by definition

  lemma EmittedIsAdmissible(cls: ManagerClass, plan: BucketPlan, order: SortOutcome, a: Combination)
    requires IsSortOutcome(cls.DependsOn(), order) && order.Ordered? && NeverRaises(cls) && LocalPlan(cls, plan)
    ensures a in Inputs(cls, plan, order).emitted <==> Admissible(SlotsOf(cls, plan), a)
  {
    LocalPlansNeverRaise(cls, plan, order);
    SlotsDeclared(cls, plan);
    StartReached(SlotsOf(cls, plan), order.order);
    SoundAndComplete(SlotsOf(cls, plan), order.order, a);
  }

  lemma EmittedByDefinition(cls: ManagerClass, plan: BucketPlan, order: SortOutcome, a: Combination)
    requires IsSortOutcome(cls.DependsOn(), order) && order.Ordered? && NeverRaises(cls) && LocalPlan(cls, plan)
    ensures a in Inputs(cls, plan, order).emitted
       <==> a in Inputs(cls, Bare(plan), order).emitted && InputsAccept(cls, plan, a)
  {
    EmittedIsAdmissible(cls, plan, order, a);
    EmittedIsAdmissible(cls, Bare(plan), order, a);
    AdmissibleByDefinition(cls, plan, a);
  }

  lemma AdmissibleByDefinition(cls: ManagerClass, plan: BucketPlan, a: Combination)
    requires LocalPlan(cls, plan)
    ensures Admissible(SlotsOf(cls, plan), a) <==> Admissible(SlotsOf(cls, Bare(plan)), a) && InputsAccept(cls, plan, a)
  {
    SlotsDeclared(cls, plan);
    SlotsDeclared(cls, Bare(plan));
    forall n | n in cls.fields
      ensures Settled(SlotsOf(cls, plan)[n], n, a)
         <==> Settled(SlotsOf(cls, Bare(plan))[n], n, a) && InputAccepts(cls, plan, n, a)
    {
      BesidesBare(cls, plan, n, a);
    }
  }

  lemma BesidesBare(cls: ManagerClass, plan: BucketPlan, n: Name, a: Combination)
    requires n in cls.fields && LocalPlan(cls, plan)
    ensures Settled(SlotsOf(cls, plan)[n], n, a)
       <==> Settled(SlotsOf(cls, Bare(plan))[n], n, a) && InputAccepts(cls, plan, n, a)
  {
    AboutOneInput(cls, plan, n, a);
    AboutOneInput(cls, Bare(plan), n, a);
  }

  lemma PropertiesByDefinition(cls: ManagerClass, plan: BucketPlan, a: Combination)
    requires LocalPlan(cls, plan)
    ensures PropertyTest(cls, plan)(a)
       <==> && AllSay(cls, Keep(AboutProperty(cls), plan.filters), a)
            && NoneSays(cls, Keep(AboutProperty(cls), plan.excludes), a)
  {
    var filters, excludes := Keep(AboutProperty(cls), plan.filters), Keep(AboutProperty(cls), plan.excludes);
    forall item | item in filters || item in excludes
      ensures PropertyEvaluated(cls, item) && (PropertyMatches(cls, item, a) <==> Says(cls, item.0, item.1, a))
    {
      assert Local(cls, item.0);
    }
    if PropertyTest(cls, plan)(a) {
      forall item | item in filters ensures Says(cls, item.0, item.1, a) {
        var i :| 0 <= i < |filters| && filters[i] == item;
      }
      forall item | item in excludes ensures !Says(cls, item.0, item.1, a) {
        var i :| 0 <= i < |excludes| && excludes[i] == item;
      }
    }
  }

  lemma SplitByField(cls: ManagerClass, plan: BucketPlan, a: Combination)
    requires LocalPlan(cls, plan)
    ensures Accepts(TruthOf(cls, a), plan) <==> InputsAccept(cls, plan, a) && PropertyTest(cls, plan)(a)
  {
    PropertiesByDefinition(cls, plan, a);
    if InputsAccept(cls, plan, a) && PropertyTest(cls, plan)(a) {
      forall k, v | (k, v) in plan.filters ensures Says(cls, k, v, a) {
        OneField(cls, plan.filters, (k, v));
      }
      forall k, v | (k, v) in plan.excludes ensures !Says(cls, k, v, a) {
        OneField(cls, plan.excludes, (k, v));
      }
    }
    if Accepts(TruthOf(cls, a), plan) {
      forall item | item in plan.filters ensures Says(cls, item.0, item.1, a) {
        assert (item.0, item.1) in plan.filters;
      }
      forall item | item in plan.excludes ensures !Says(cls, item.0, item.1, a) {
        assert (item.0, item.1) in plan.excludes;
      }
    }
  }

  /** Each definition is about one input or about a property. */
  lemma OneField(cls: ManagerClass, defs: Definitions, item: (string, Raw))
    requires item in defs && Local(cls, item.0)
    ensures item in Keep(AboutProperty(cls), defs)
            || exists n :: n in cls.fields && item in Keep(AboutInput(cls, n), defs)
  {
    var p := FieldOf(cls, item.0).value;
    assert p in cls.fields ==> AboutInput(cls, p)(item.0);
  }

  /** Without definitions only the fence decides. */
  lemma BarePasses(cls: ManagerClass, plan: BucketPlan, a: Combination)
    requires plan.filters == [] && plan.excludes == []
    ensures Passes(cls, plan, a) <==> FenceTest(cls, plan)(a)
  {
    assert PropertyTest(cls, plan)(a);
  }

  lemma PassesBesidesBare(cls: ManagerClass, plan: BucketPlan, a: Combination)
    ensures Passes(cls, plan, a) <==> Passes(cls, Bare(plan), a) && PropertyTest(cls, plan)(a)
  {
    BarePasses(cls, Bare(plan), a);
    assert FenceTest(cls, plan) == FenceTest(cls, Bare(plan));
  }

  /** A bucket contains exactly the members of the bucket without definitions of which all its filters and
      none of its excludes hold. */
  lemma MemberByDefinition(cls: ManagerClass, plan: BucketPlan, order: SortOutcome, a: Combination)
    requires IsSortOutcome(cls.DependsOn(), order) && order.Ordered? && NeverRaises(cls) && LocalPlan(cls, plan)
    ensures Member(cls, plan, order, a) <==> Member(cls, Bare(plan), order, a) && Accepts(TruthOf(cls, a), plan)
  {
    EmittedByDefinition(cls, plan, order, a);
    PassesBesidesBare(cls, plan, a);
    SplitByField(cls, plan, a);
  }

  function Shape(cls: ManagerClass, plan: BucketPlan, a: Combination): Combination {
    if Identified(cls, plan) then cls.identify(a) else a
  }

  lemma IdentifiedContents(cls: ManagerClass, plan: BucketPlan, order: SortOutcome, c: Combination)
    requires IsSortOutcome(cls.DependsOn(), order) && Identified(cls, plan)
    ensures c in Finish(cls, plan, Inputs(cls, plan, order).emitted)
       <==> exists a :: Member(cls, plan, order, a) && c == cls.identify(a)
  {
    var combos := Inputs(cls, plan, order).emitted;
    FinishedContents(cls, plan, combos, c);
    forall a ensures a in Filter(Passing(cls, plan), combos) <==> Member(cls, plan, order, a) {
      ChosenIsMember(cls, plan, order, a);
    }
  }

  lemma ChosenIsMember(cls: ManagerClass, plan: BucketPlan, order: SortOutcome, a: Combination)
    requires IsSortOutcome(cls.DependsOn(), order)
    ensures a in Filter(Passing(cls, plan), Inputs(cls, plan, order).emitted) <==> Member(cls, plan, order, a)
  {
  }

  lemma RawContents(cls: ManagerClass, plan: BucketPlan, order: SortOutcome, c: Combination)
    requires IsSortOutcome(cls.DependsOn(), order) && !Identified(cls, plan)
    ensures c in Finish(cls, plan, Inputs(cls, plan, order).emitted) <==> Member(cls, plan, order, c)
  {
    var combos := Inputs(cls, plan, order).emitted;
    FinishSelects(cls, plan, combos);
    PassingInStages(cls, plan, combos);
    SameElements(Finish(cls, plan, combos), combos);
  }

  /** The materialized bucket holds exactly its members, as raw combinations or as their identifications,
      sorted or not. */
  lemma ContentsAreMembers(cls: ManagerClass, plan: BucketPlan, order: SortOutcome, c: Combination)
    requires IsSortOutcome(cls.DependsOn(), order) && Inputs(cls, plan, order).failure.None?
    ensures Materialize(cls, plan, order).Ok?
    ensures c in Materialize(cls, plan, order).value
       <==> exists a :: Member(cls, plan, order, a) && c == Shape(cls, plan, a)
  {
    if Identified(cls, plan) {
      IdentifiedContents(cls, plan, order, c);
    } else {
      RawContents(cls, plan, order, c);
    }
  }

  // ----- in every world

  /** The class with other answers to its lookups. */
  function WithMatches(cls: ManagerClass, matches: (Name, string, Raw, Value) -> bool): ManagerClass {
    cls.(matches := matches)
  }

  lemma SameDependencies(cls: ManagerClass, matches: (Name, string, Raw, Value) -> bool)
    ensures WithMatches(cls, matches).DependsOn() == cls.DependsOn()
  {
  }

  ghost predicate MemberIn(cls: ManagerClass, matches: (Name, string, Raw, Value) -> bool, plan: BucketPlan,
                           order: SortOutcome, a: Combination)
    requires IsSortOutcome(cls.DependsOn(), order)
  {
    SameDependencies(cls, matches);
    Member(WithMatches(cls, matches), plan, order, a)
  }

  lemma SameBareSlots(cls: ManagerClass, matches: (Name, string, Raw, Value) -> bool, plan: BucketPlan, n: Name,
                      a: Combination)
    requires n in cls.fields && plan.filters == [] && plan.excludes == []
    ensures Settled(SlotsOf(WithMatches(cls, matches), plan)[n], n, a) <==> Settled(SlotsOf(cls, plan)[n], n, a)
  {
    var slot, other := SlotsOf(cls, plan)[n], SlotsOf(WithMatches(cls, matches), plan)[n];
    assert slot.filterFuncs == [] == other.filterFuncs && slot.excludeFuncs == [] == other.excludeFuncs;
  }

  lemma WorldIsLocal(cls: ManagerClass, matches: (Name, string, Raw, Value) -> bool, plan: BucketPlan)
    requires LocalPlan(cls, plan)
    ensures LocalPlan(WithMatches(cls, matches), plan)
  {
    forall k ensures Local(WithMatches(cls, matches), k) <==> Local(cls, k) {
    }
  }

  lemma WorldNeverRaises(cls: ManagerClass, matches: (Name, string, Raw, Value) -> bool)
    requires NeverRaises(cls)
    ensures NeverRaises(WithMatches(cls, matches))
  {
    var none := BucketPlan([], [], None, None, false);
    var world := WithMatches(cls, matches);
    SlotsDeclared(cls, none);
    SlotsDeclared(world, none);
    forall n, a | n in cls.fields
      ensures Settled(SlotsOf(world, none)[n], n, a) <==> Settled(SlotsOf(cls, none)[n], n, a)
    {
      SameBareSlots(cls, matches, none, n, a);
    }
    if !NeverRaises(world) {
      TighterRaisesNoMore(SlotsOf(world, none), SlotsOf(cls, none));
    }
  }

  lemma BareMember(cls: ManagerClass, plan: BucketPlan, order: SortOutcome, a: Combination)
    requires IsSortOutcome(cls.DependsOn(), order) && order.Ordered? && NeverRaises(cls)
    requires plan.filters == [] && plan.excludes == []
    ensures Member(cls, plan, order, a) <==> Admissible(SlotsOf(cls, plan), a) && FenceTest(cls, plan)(a)
  {
    EmittedIsAdmissible(cls, plan, order, a);
    BarePasses(cls, plan, a);
  }

  lemma SameCandidates(cls: ManagerClass, matches: (Name, string, Raw, Value) -> bool, plan: BucketPlan,
                       order: SortOutcome, a: Combination)
    requires IsSortOutcome(cls.DependsOn(), order) && order.Ordered? && NeverRaises(cls)
    requires plan.filters == [] && plan.excludes == []
    ensures MemberIn(cls, matches, plan, order, a) <==> Member(cls, plan, order, a)
  {
    var world := WithMatches(cls, matches);
    WorldNeverRaises(cls, matches);
    SameDependencies(cls, matches);
    BareMember(cls, plan, order, a);
    BareMember(world, plan, order, a);
    SameAdmissible(cls, matches, plan, a);
  }

  lemma SameAdmissible(cls: ManagerClass, matches: (Name, string, Raw, Value) -> bool, plan: BucketPlan, a: Combination)
    requires plan.filters == [] && plan.excludes == []
    ensures Admissible(SlotsOf(WithMatches(cls, matches), plan), a) <==> Admissible(SlotsOf(cls, plan), a)
  {
    forall n | n in cls.fields
      ensures Settled(SlotsOf(WithMatches(cls, matches), plan)[n], n, a) <==> Settled(SlotsOf(cls, plan)[n], n, a)
    {
      SameBareSlots(cls, matches, plan, n, a);
    }
  }

  /** Only the fence matters for a bucket without definitions. */
  lemma SameFence(cls: ManagerClass, plan: BucketPlan, other: BucketPlan, order: SortOutcome, a: Combination)
    requires IsSortOutcome(cls.DependsOn(), order) && plan.allowed == other.allowed
    ensures Member(cls, Bare(plan), order, a) <==> Member(cls, Bare(other), order, a)
  {
    assert SlotsOf(cls, Bare(plan)) == SlotsOf(cls, Bare(other));
  }

  lemma MemberInByDefinition(cls: ManagerClass, matches: (Name, string, Raw, Value) -> bool, plan: BucketPlan,
                             order: SortOutcome, a: Combination)
    requires IsSortOutcome(cls.DependsOn(), order) && order.Ordered? && NeverRaises(cls) && LocalPlan(cls, plan)
    ensures MemberIn(cls, matches, plan, order, a)
       <==> Member(cls, Bare(plan), order, a) && Accepts(TruthOf(WithMatches(cls, matches), a), plan)
  {
    WorldNeverRaises(cls, matches);
    WorldIsLocal(cls, matches, plan);
    SameDependencies(cls, matches);
    MemberByDefinition(WithMatches(cls, matches), plan, order, a);
    SameCandidates(cls, matches, Bare(plan), order, a);
  }

  // ----- exactly when a bucket shows nothing but what others show

  ghost function Among(t: set<(string, Raw)>): Truth {
    (k: string, v: Raw) => (k, v) in t
  }

  function DefinitionSet(d: Definitions): set<(string, Raw)> { set item | item in d }

  ghost function Mentioned(plans: seq<BucketPlan>): set<(string, Raw)> {
    if plans == [] then {}
    else DefinitionSet(plans[0].filters) + DefinitionSet(plans[0].excludes) + Mentioned(plans[1..])
  }

  lemma {:induction false} MentionedItems(plans: seq<BucketPlan>, i: nat)
    requires i < |plans|
    ensures DefinitionSet(plans[i].filters) + DefinitionSet(plans[i].excludes) <= Mentioned(plans)
    decreases plans
  {
    if i > 0 {
      MentionedItems(plans[1..], i - 1);
    }
  }

  /** In every row of the truth table over their definitions, what `plan` accepts is accepted by one of
      `plans`. */
  ghost predicate Implies(plan: BucketPlan, plans: seq<BucketPlan>) {
    forall t :: t <= Mentioned([plan] + plans) && Accepts(Among(t), plan) ==> AcceptsSome(Among(t), plans)
  }

  ghost predicate AgreesOn(holds: Truth, other: Truth, plan: BucketPlan) {
    forall k, v :: (k, v) in plan.filters || (k, v) in plan.excludes ==> holds(k, v) == other(k, v)
  }

  lemma AcceptsAlike(holds: Truth, other: Truth, plan: BucketPlan)
    requires AgreesOn(holds, other, plan)
    ensures Accepts(holds, plan) <==> Accepts(other, plan)
  {
  }

  /** The row of the truth table that `holds` is in. */
  ghost function RowOf(holds: Truth, plans: seq<BucketPlan>): set<(string, Raw)> {
    set item | item in Mentioned(plans) && holds(item.0, item.1)
  }

  lemma RowAgrees(holds: Truth, plans: seq<BucketPlan>, i: nat)
    requires i < |plans|
    ensures AgreesOn(holds, Among(RowOf(holds, plans)), plans[i])
  {
    MentionedItems(plans, i);
    forall k, v | (k, v) in plans[i].filters || (k, v) in plans[i].excludes
      ensures holds(k, v) == Among(RowOf(holds, plans))(k, v)
    {
      assert (k, v) in DefinitionSet(plans[i].filters) + DefinitionSet(plans[i].excludes);
    }
  }

  lemma ImpliesEverywhere(holds: Truth, plan: BucketPlan, plans: seq<BucketPlan>)
    requires Implies(plan, plans) && Accepts(holds, plan)
    ensures AcceptsSome(holds, plans)
  {
    var all := [plan] + plans;
    var t := RowOf(holds, all);
    RowAgrees(holds, all, 0);
    AcceptsAlike(holds, Among(t), plan);
    var i :| 0 <= i < |plans| && Accepts(Among(t), plans[i]);
    RowAgrees(holds, all, i + 1);
    AcceptsAlike(holds, Among(t), plans[i]);
  }

  /** The world in which exactly the definitions of `t` hold. */
  function Answering(t: set<(string, Raw)>): (Name, string, Raw, Value) -> bool {
    (n: Name, k: string, v: Raw, x: Value) => (k, v) in t
  }

  lemma AnsweringAccepts(cls: ManagerClass, t: set<(string, Raw)>, plan: BucketPlan, a: Combination)
    requires LocalPlan(cls, plan)
    ensures Accepts(TruthOf(WithMatches(cls, Answering(t)), a), plan) <==> Accepts(Among(t), plan)
  {
    forall k, v | (k, v) in plan.filters || (k, v) in plan.excludes
      ensures TruthOf(WithMatches(cls, Answering(t)), a)(k, v) == Among(t)(k, v)
    {
      assert Local(cls, (k, v).0);
    }
    AcceptsAlike(TruthOf(WithMatches(cls, Answering(t)), a), Among(t), plan);
  }

  /** Whatever the lookups answer: every member of `plan` is a member of one of `plans`. */
  ghost predicate ShowsOnly(cls: ManagerClass, plan: BucketPlan, plans: seq<BucketPlan>, order: SortOutcome)
    requires IsSortOutcome(cls.DependsOn(), order)
  {
    forall matches, a :: MemberIn(cls, matches, plan, order, a) ==>
      exists i :: 0 <= i < |plans| && MemberIn(cls, matches, plans[i], order, a)
  }

  ghost predicate NoCandidates(cls: ManagerClass, plan: BucketPlan, order: SortOutcome)
    requires IsSortOutcome(cls.DependsOn(), order)
  {
    forall a :: !Member(cls, Bare(plan), order, a)
  }

  ghost predicate Comparable(cls: ManagerClass, plan: BucketPlan, plans: seq<BucketPlan>) {
    && LocalPlan(cls, plan)
    && forall i :: 0 <= i < |plans| ==> LocalPlan(cls, plans[i]) && plans[i].allowed == plan.allowed
  }

  lemma MemberOfSome(cls: ManagerClass, matches: (Name, string, Raw, Value) -> bool, plan: BucketPlan,
                     plans: seq<BucketPlan>, order: SortOutcome, a: Combination)
    requires IsSortOutcome(cls.DependsOn(), order) && order.Ordered? && NeverRaises(cls)
    requires Comparable(cls, plan, plans) && Member(cls, Bare(plan), order, a)
    ensures (exists i :: 0 <= i < |plans| && MemberIn(cls, matches, plans[i], order, a))
       <==> AcceptsSome(TruthOf(WithMatches(cls, matches), a), plans)
  {
    forall i | 0 <= i < |plans|
      ensures MemberIn(cls, matches, plans[i], order, a) <==> Accepts(TruthOf(WithMatches(cls, matches), a), plans[i])
    {
      MemberInByDefinition(cls, matches, plans[i], order, a);
      SameFence(cls, plan, plans[i], order, a);
    }
  }

  /** A bucket shows nothing but what some other buckets with its fence show, whatever the lookups answer,
      exactly when its definitions imply those of one of them, or when it has no candidates at all. */
  lemma ShowsOnlyExactly(cls: ManagerClass, plan: BucketPlan, plans: seq<BucketPlan>, order: SortOutcome)
    requires IsSortOutcome(cls.DependsOn(), order) && order.Ordered? && NeverRaises(cls) && Comparable(cls, plan, plans)
    ensures ShowsOnly(cls, plan, plans, order) <==> NoCandidates(cls, plan, order) || Implies(plan, plans)
  {
    if NoCandidates(cls, plan, order) || Implies(plan, plans) {
      forall matches, a | MemberIn(cls, matches, plan, order, a)
        ensures exists i :: 0 <= i < |plans| && MemberIn(cls, matches, plans[i], order, a)
      {
        MemberInByDefinition(cls, matches, plan, order, a);
        ImpliesEverywhere(TruthOf(WithMatches(cls, matches), a), plan, plans);
        MemberOfSome(cls, matches, plan, plans, order, a);
      }
    }
    if ShowsOnly(cls, plan, plans, order) && !NoCandidates(cls, plan, order) {
      var a :| Member(cls, Bare(plan), order, a);
      forall t | t <= Mentioned([plan] + plans) && Accepts(Among(t), plan) ensures AcceptsSome(Among(t), plans) {
        RowIsShown(cls, plan, plans, order, a, t);
      }
    }
  }

  lemma RowIsShown(cls: ManagerClass, plan: BucketPlan, plans: seq<BucketPlan>, order: SortOutcome, a: Combination,
                   t: set<(string, Raw)>)
    requires IsSortOutcome(cls.DependsOn(), order) && order.Ordered? && NeverRaises(cls) && Comparable(cls, plan, plans)
    requires ShowsOnly(cls, plan, plans, order) && Member(cls, Bare(plan), order, a) && Accepts(Among(t), plan)
    ensures AcceptsSome(Among(t), plans)
  {
    AnsweringAccepts(cls, t, plan, a);
    MemberInByDefinition(cls, Answering(t), plan, order, a);
    MemberOfSome(cls, Answering(t), plan, plans, order, a);
    var i :| 0 <= i < |plans| && Accepts(TruthOf(WithMatches(cls, Answering(t)), a), plans[i]);
    AnsweringAccepts(cls, t, plans[i], a);
  }
}
