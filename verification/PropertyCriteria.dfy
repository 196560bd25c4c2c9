/** Criteria on computed properties: exactly which of them a calculation bucket honours. */
module PropertyCriteria {
  import opened Sequences
  import opened Dicts
  import opened InputOrder
  import opened InputEnumeration
  import opened CalculationBuckets

  /** The class with other properties: what they are, and what lookups say of them. */
  function World(cls: ManagerClass, attribute: (Name, Combination) -> Value,
                 matches: (Name, string, Raw, Value) -> bool): ManagerClass
  {
    cls.(attribute := attribute, matches := matches)
  }

  function PropertyFilters(cls: ManagerClass, plan: BucketPlan): Definitions {
    Keep(AboutProperty(cls), plan.filters)
  }

  function PropertyExcludes(cls: ManagerClass, plan: BucketPlan): Definitions {
    Keep(AboutProperty(cls), plan.excludes)
  }

  /** What a definition about a property says of a manager, for properties of any type. */
  ghost predicate Says(cls: ManagerClass, item: (string, Raw), combo: Combination) {
    match FieldOf(cls, item.0)
    case Some(p) => cls.matches(p, item.0, item.1, cls.attribute(p, combo))
    case None => false
  }

  ghost predicate Honours(cls: ManagerClass, plan: BucketPlan, combo: Combination) {
    && (forall item :: item in PropertyFilters(cls, plan) ==> Says(cls, item, combo))
    && (forall item :: item in PropertyExcludes(cls, plan) ==> !Says(cls, item, combo))
  }

  /** Whatever the properties are: of the enumerated combinations, all that the bucket lets through satisfy
      its property definitions. */
  ghost predicate AlwaysHonoured(cls: ManagerClass, plan: BucketPlan, combos: seq<Combination>) {
    forall attribute, matches, c ::
      var world := World(cls, attribute, matches);
      c in combos && Passes(world, plan, c) ==> Honours(world, plan, c)
  }

  ghost predicate MentionsManagerProperty(cls: ManagerClass, plan: BucketPlan) {
    exists item :: (item in PropertyFilters(cls, plan) || item in PropertyExcludes(cls, plan))
                   && !PropertyEvaluated(cls, item)
  }

  /** An evaluated definition is both filtered for and excluded. */
  ghost predicate Contradictory(cls: ManagerClass, plan: BucketPlan) {
    exists item :: item in PropertyFilters(cls, plan) && item in PropertyExcludes(cls, plan)
                   && PropertyEvaluated(cls, item)
  }

  /** Nothing passes: all combinations are outside of the fence, or the definitions contradict each other. */
  ghost predicate Empty(cls: ManagerClass, plan: BucketPlan, combos: seq<Combination>) {
    (forall c :: c in combos ==> !FenceTest(cls, plan)(c)) || Contradictory(cls, plan)
  }

  lemma SameDefinitions(cls: ManagerClass, world: ManagerClass, plan: BucketPlan)
    requires world.fields == cls.fields && world.properties == cls.properties
    requires world.managerInputs == cls.managerInputs
    ensures PropertyFilters(world, plan) == PropertyFilters(cls, plan)
    ensures PropertyExcludes(world, plan) == PropertyExcludes(cls, plan)
  {
    KeepAlike(AboutProperty(world), AboutProperty(cls), plan.filters);
    KeepAlike(AboutProperty(world), AboutProperty(cls), plan.excludes);
  }

  lemma PassesByItem(cls: ManagerClass, plan: BucketPlan, combo: Combination)
    ensures PropertyTest(cls, plan)(combo)
       <==> && (forall item :: item in PropertyFilters(cls, plan) && PropertyEvaluated(cls, item) ==>
                  PropertyMatches(cls, item, combo))
            && (forall item :: item in PropertyExcludes(cls, plan) ==> !PropertyMatches(cls, item, combo))
  {
    var filters, excludes := PropertyFilters(cls, plan), PropertyExcludes(cls, plan);
    if PropertyTest(cls, plan)(combo) {
      forall item | item in filters && PropertyEvaluated(cls, item) ensures PropertyMatches(cls, item, combo) {
        var i :| 0 <= i < |filters| && filters[i] == item;
      }
      forall item | item in excludes ensures !PropertyMatches(cls, item, combo) {
        var i :| 0 <= i < |excludes| && excludes[i] == item;
      }
    }
  }

  lemma SameEvaluation(cls: ManagerClass, world: ManagerClass, item: (string, Raw))
    requires world.fields == cls.fields && world.properties == cls.properties
    requires world.managerInputs == cls.managerInputs
    ensures FieldOf(world, item.0) == FieldOf(cls, item.0)
    ensures PropertyEvaluated(world, item) <==> PropertyEvaluated(cls, item)
  {
  }

  lemma ContradictoryPassesNothing(cls: ManagerClass, world: ManagerClass, plan: BucketPlan, combo: Combination)
    requires world.fields == cls.fields && world.properties == cls.properties
    requires world.managerInputs == cls.managerInputs
    requires Contradictory(cls, plan)
    ensures !Passes(world, plan, combo)
  {
    SameDefinitions(cls, world, plan);
    PassesByItem(world, plan, combo);
    var item :| item in PropertyFilters(cls, plan) && item in PropertyExcludes(cls, plan)
                && PropertyEvaluated(cls, item);
    SameEvaluation(cls, world, item);
  }

  /** The fence does not depend on the properties. */
  lemma SameFence(cls: ManagerClass, attribute: (Name, Combination) -> Value,
                  matches: (Name, string, Raw, Value) -> bool, plan: BucketPlan, c: Combination)
    ensures FenceTest(World(cls, attribute, matches), plan)(c) <==> FenceTest(cls, plan)(c)
  {
    if plan.allowed.Some? {
      assert FrozenKeys(World(cls, attribute, matches), plan.allowed.value) == FrozenKeys(cls, plan.allowed.value);
    }
  }

  lemma EvaluatedIsHonoured(cls: ManagerClass, world: ManagerClass, plan: BucketPlan, combo: Combination)
    requires world.fields == cls.fields && world.properties == cls.properties
    requires world.managerInputs == cls.managerInputs
    requires !MentionsManagerProperty(cls, plan) && Passes(world, plan, combo)
    ensures Honours(world, plan, combo)
  {
    SameDefinitions(cls, world, plan);
    PassesByItem(world, plan, combo);
    forall item | item in PropertyFilters(cls, plan) || item in PropertyExcludes(cls, plan)
      ensures PropertyEvaluated(world, item) && (PropertyMatches(world, item, combo) <==> Says(world, item, combo))
    {
      SameEvaluation(cls, world, item);
    }
  }

  function TrapValue(): (Name, Combination) -> Value {
    (p: Name, c: Combination) => Null
  }

  function TrapMatches(cls: ManagerClass, plan: BucketPlan, culprit: (string, Raw))
    : (Name, string, Raw, Value) -> bool
  {
    (n: Name, k: string, v: Raw, x: Value) =>
      ((k, v) in PropertyFilters(cls, plan) && PropertyEvaluated(cls, (k, v)))
      || ((k, v) == culprit && (k, v) !in PropertyFilters(cls, plan))
  }

  /** The world that makes a definition about a manager-typed property matter: the evaluated filters hold of
      every manager, and `culprit` holds exactly when it is excluded. */
  function Trap(cls: ManagerClass, plan: BucketPlan, culprit: (string, Raw)): ManagerClass {
    World(cls, TrapValue(), TrapMatches(cls, plan, culprit))
  }

  lemma TrapSays(cls: ManagerClass, plan: BucketPlan, culprit: (string, Raw), item: (string, Raw), combo: Combination)
    requires FieldOf(cls, item.0).Some?
    ensures Says(Trap(cls, plan, culprit), item, combo)
       <==> (item in PropertyFilters(cls, plan) && PropertyEvaluated(cls, item))
            || (item == culprit && item !in PropertyFilters(cls, plan))
  {
    assert item == (item.0, item.1);
    SameEvaluation(cls, Trap(cls, plan, culprit), item);
  }

  lemma TrapPasses(cls: ManagerClass, plan: BucketPlan, culprit: (string, Raw), combo: Combination)
    requires !PropertyEvaluated(cls, culprit) && !Contradictory(cls, plan)
    ensures PropertyTest(Trap(cls, plan, culprit), plan)(combo)
  {
    var world := Trap(cls, plan, culprit);
    SameDefinitions(cls, world, plan);
    PassesByItem(world, plan, combo);
    forall item | item in PropertyFilters(cls, plan) && PropertyEvaluated(world, item)
      ensures PropertyMatches(world, item, combo)
    {
      SameEvaluation(cls, world, item);
      TrapSays(cls, plan, culprit, item, combo);
    }
    forall item | item in PropertyExcludes(cls, plan) ensures !PropertyMatches(world, item, combo) {
      SameEvaluation(cls, world, item);
      if PropertyEvaluated(cls, item) {
        TrapSays(cls, plan, culprit, item, combo);
      }
    }
  }

  /** A definition about a manager-typed property is parsed and then ignored: unless the evaluated definitions
      contradict each other, every manager inside of the fence passes, and none satisfies it. */
  lemma ManagerPropertyIsIgnored(cls: ManagerClass, plan: BucketPlan, culprit: (string, Raw), combo: Combination)
    requires culprit in PropertyFilters(cls, plan) || culprit in PropertyExcludes(cls, plan)
    requires !PropertyEvaluated(cls, culprit) && !Contradictory(cls, plan) && FenceTest(cls, plan)(combo)
    ensures Passes(Trap(cls, plan, culprit), plan, combo) && !Honours(Trap(cls, plan, culprit), plan, combo)
  {
    SameDefinitions(cls, Trap(cls, plan, culprit), plan);
    SameFence(cls, TrapValue(), TrapMatches(cls, plan, culprit), plan, combo);
    TrapPasses(cls, plan, culprit, combo);
    assert AboutProperty(cls)(culprit.0);
    TrapSays(cls, plan, culprit, culprit, combo);
  }

  /** Of the enumerated combinations a bucket shows only such that satisfy its property definitions, in every
      world, exactly when none of the definitions is about a manager-typed property, or when it shows
      nothing in any world. */
  lemma HonouredExactly(cls: ManagerClass, plan: BucketPlan, combos: seq<Combination>)
    ensures AlwaysHonoured(cls, plan, combos) <==> !MentionsManagerProperty(cls, plan) || Empty(cls, plan, combos)
  {
    if !MentionsManagerProperty(cls, plan) || Empty(cls, plan, combos) {
      forall attribute, matches, c | c in combos && Passes(World(cls, attribute, matches), plan, c)
        ensures Honours(World(cls, attribute, matches), plan, c)
      {
        var world := World(cls, attribute, matches);
        SameFence(cls, attribute, matches, plan, c);
        if MentionsManagerProperty(cls, plan) {
          ContradictoryPassesNothing(cls, world, plan, c);
        } else {
          EvaluatedIsHonoured(cls, world, plan, c);
        }
      }
    } else {
      var culprit :| (culprit in PropertyFilters(cls, plan) || culprit in PropertyExcludes(cls, plan))
                     && !PropertyEvaluated(cls, culprit);
      var c :| c in combos && FenceTest(cls, plan)(c);
      ManagerPropertyIsIgnored(cls, plan, culprit, c);
      assert !Honours(World(cls, TrapValue(), TrapMatches(cls, plan, culprit)), plan, c);
    }
  }
}
