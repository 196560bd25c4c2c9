/** The permission alternatives of a list over a calculation manager: the loop that unions querysets of a
    table merges constraints here, because `|` of calculation buckets keeps what both operands ask for. */
module CalculationPermissions {
  import opened Sequences
  import Ordering
  import opened Dicts
  import opened InputOrder
  import opened InputEnumeration
  import opened CalculationBuckets
  import opened CalculationContents
  import opened BucketAlgebra
  import opened QueryPlan

  /** One read-permission alternative. */
  datatype Alternative = Alternative(filter: Definitions, exclude: Definitions)
  {
    predicate Unconstrained() { filter == [] && exclude == [] }
  }

  // ----- the loop

  /** `queryset.filter(**filter).exclude(**exclude)`, or the queryset for an empty alternative */
  function Narrow(cls: ManagerClass, base: BucketPlan, alternative: Alternative): Outcome<BucketPlan> {
    if alternative.Unconstrained() then Ok(base)
    else match FilterBy(cls, base, alternative.filter)
      case Raised(f) => Raised(f)
      case Ok(filtered) => ExcludeBy(cls, filtered, alternative.exclude)
  }

  /** `qs_perm if filtered_queryset is None else filtered_queryset | qs_perm` */
  function MergeOne(cls: ManagerClass, base: BucketPlan, found: Option<BucketPlan>,
                    alternative: Alternative): Outcome<BucketPlan>
  {
    match Narrow(cls, base, alternative)
    case Raised(f) => Raised(f)
    case Ok(next) => if found.None? then Ok(next) else Meet(cls, found.value, next)
  }

  /** The alternatives merged from left to right, onto what was found before. */
  function MergeFrom(cls: ManagerClass, base: BucketPlan, found: Option<BucketPlan>,
                     alternatives: seq<Alternative>): Outcome<BucketPlan>
    requires found.Some? || alternatives != []
    decreases alternatives
  {
    if alternatives == [] then Ok(found.value)
    else match MergeOne(cls, base, found, alternatives[0])
      case Raised(f) => Raised(f)
      case Ok(next) => MergeFrom(cls, base, Some(next), alternatives[1..])
  }

  function Merged(cls: ManagerClass, base: BucketPlan, alternatives: seq<Alternative>): Outcome<BucketPlan>
    requires alternatives != []
  {
    MergeFrom(cls, base, None, alternatives)
  }

  lemma MergeFromNext(cls: ManagerClass, base: BucketPlan, found: Option<BucketPlan>, alternatives: seq<Alternative>,
                      i: nat)
    requires i < |alternatives|
    ensures MergeFrom(cls, base, found, alternatives[i..])
         == match MergeOne(cls, base, found, alternatives[i])
            case Raised(f) => Raised(f)
            case Ok(next) => MergeFrom(cls, base, Some(next), alternatives[i + 1..])
  {
    assert alternatives[i..][0] == alternatives[i] && alternatives[i..][1..] == alternatives[i + 1..];
  }

  /** The loop of `apply_read_authorization` on a calculation bucket. */
  method MergeAlternatives(cls: ManagerClass, base: BucketPlan, alternatives: seq<Alternative>)
    returns (result: Outcome<BucketPlan>)
    requires alternatives != []
    ensures result == Merged(cls, base, alternatives)
  {
    var found: Option<BucketPlan> := None;
    assert alternatives[0..] == alternatives;
    for i := 0 to |alternatives|
      invariant i > 0 ==> found.Some?
      invariant Merged(cls, base, alternatives) == MergeFrom(cls, base, found, alternatives[i..])
    {
      MergeFromNext(cls, base, found, alternatives, i);
      var next := MergeOne(cls, base, found, alternatives[i]);
      if next.Raised? {
        return next;
      }
      found := Some(next.value);
    }
    return Ok(found.value);
  }

  // ----- what the merge asks for

  /** The plan of one alternative alone. */
  function Alone(base: BucketPlan, alternative: Alternative): BucketPlan {
    if alternative.Unconstrained() then base
    else BucketPlan(Merge(base.filters, alternative.filter), Merge(base.excludes, alternative.exclude), base.allowed,
                    None, false)
  }

  function PlansOf(base: BucketPlan, alternatives: seq<Alternative>): seq<BucketPlan> {
    Map((alternative: Alternative) => Alone(base, alternative), alternatives)
  }

  /** A plan as constructors make it: dictionaries whose lookups parse. */
  ghost predicate Proper(cls: ManagerClass, plan: BucketPlan) {
    IsDict(plan.filters) && IsDict(plan.excludes) && Parses(cls, plan.filters) && Parses(cls, plan.excludes)
  }

  ghost predicate ProperAlternative(cls: ManagerClass, alternative: Alternative) {
    && IsDict(alternative.filter) && IsDict(alternative.exclude)
    && LocalDefinitions(cls, alternative.filter) && LocalDefinitions(cls, alternative.exclude)
  }

  /** The base and its alternatives, with definitions that are evaluated one by one. */
  ghost predicate Alternatives(cls: ManagerClass, base: BucketPlan, alternatives: seq<Alternative>) {
    && Proper(cls, base) && LocalPlan(cls, base)
    && forall alternative :: alternative in alternatives ==> ProperAlternative(cls, alternative)
  }

  lemma NarrowIsProper(cls: ManagerClass, base: BucketPlan, alternative: Alternative)
    requires Proper(cls, base) && LocalPlan(cls, base) && ProperAlternative(cls, alternative)
    ensures Narrow(cls, base, alternative) == Ok(Alone(base, alternative))
    ensures Proper(cls, Alone(base, alternative)) && LocalPlan(cls, Alone(base, alternative))
  {
    MergeKeeps(base.filters, alternative.filter);
    MergeKeeps(base.excludes, alternative.exclude);
    MergeItems(base.filters, alternative.filter);
    MergeItems(base.excludes, alternative.exclude);
    ParsesIffKnown(cls, base.excludes);
    ParsesIffKnown(cls, Merge(base.filters, alternative.filter));
    ParsesIffKnown(cls, Merge(base.excludes, alternative.exclude));
  }

  lemma {:induction false} CommonIsDict(d: Definitions, e: Definitions)
    requires IsDict(d)
    ensures IsDict(Common(d, e))
    decreases d
  {
    if d != [] {
      var rest := d[1..];
      CommonIsDict(rest, e);
      assert forall item :: item in Common(rest, e) ==> item in rest;
      assert Common(d, e) == if Get(e, d[0].0) == Some(d[0].1) then [d[0]] + Common(rest, e) else Common(rest, e);
      forall i | 0 <= i < |Common(rest, e)| ensures Common(rest, e)[i].0 != d[0].0 {
        assert Common(rest, e)[i] in rest;
        var j :| 0 <= j < |rest| && rest[j] == Common(rest, e)[i];
        assert d[j + 1] == rest[j];
      }
    }
  }

  lemma MeetIsProper(cls: ManagerClass, a: BucketPlan, b: BucketPlan)
    requires Proper(cls, a) && Proper(cls, b) && a.allowed == b.allowed
    ensures Meet(cls, a, b).Ok? && Proper(cls, Meet(cls, a, b).value) && Meet(cls, a, b).value.allowed == a.allowed
  {
    CommonIsDict(a.filters, b.filters);
    CommonIsDict(a.excludes, b.excludes);
    ParsesIffKnown(cls, Common(a.filters, b.filters));
    ParsesIffKnown(cls, Common(a.excludes, b.excludes));
    if a.allowed.Some? {
      FilterEverything((c: Combination) => cls.freeze(c) in FrozenKeys(cls, a.allowed.value), a.allowed.value);
    }
  }

  ghost predicate AllFilter(plans: seq<BucketPlan>, k: string, v: Raw) {
    forall i :: 0 <= i < |plans| ==> (k, v) in plans[i].filters
  }

  ghost predicate AllExclude(plans: seq<BucketPlan>, k: string, v: Raw) {
    forall i :: 0 <= i < |plans| ==> (k, v) in plans[i].excludes
  }

  /** `plan` asks for exactly what all of `plans` ask for. */
  ghost predicate AsksForCommon(plan: BucketPlan, plans: seq<BucketPlan>) {
    && (forall k, v :: (k, v) in plan.filters <==> AllFilter(plans, k, v))
    && (forall k, v :: (k, v) in plan.excludes <==> AllExclude(plans, k, v))
  }

  lemma OneMore(plans: seq<BucketPlan>, next: BucketPlan, k: string, v: Raw)
    ensures AllFilter(plans + [next], k, v) <==> AllFilter(plans, k, v) && (k, v) in next.filters
    ensures AllExclude(plans + [next], k, v) <==> AllExclude(plans, k, v) && (k, v) in next.excludes
  {
    var more := plans + [next];
    assert more[|plans|] == next && forall i :: 0 <= i < |plans| ==> more[i] == plans[i];
  }

  /** The plan is the merge of `plans`, inside of the base's fence. */
  ghost predicate IsCommonPlan(cls: ManagerClass, base: BucketPlan, plan: BucketPlan, plans: seq<BucketPlan>) {
    Proper(cls, plan) && plan.allowed == base.allowed && AsksForCommon(plan, plans)
  }

  lemma MeetIsCommonPlan(cls: ManagerClass, base: BucketPlan, before: BucketPlan, plans: seq<BucketPlan>,
                         next: BucketPlan)
    requires IsCommonPlan(cls, base, before, plans) && Proper(cls, next) && next.allowed == base.allowed
    ensures Meet(cls, before, next).Ok? && IsCommonPlan(cls, base, Meet(cls, before, next).value, plans + [next])
  {
    MeetIsProper(cls, before, next);
    var met := Meet(cls, before, next).value;
    forall k, v
      ensures (k, v) in met.filters <==> AllFilter(plans + [next], k, v)
      ensures (k, v) in met.excludes <==> AllExclude(plans + [next], k, v)
    {
      MeetKeepsCommon(cls, before, next, k, v);
      OneMore(plans, next, k, v);
    }
  }

  lemma OneIsCommonPlan(cls: ManagerClass, base: BucketPlan, plan: BucketPlan)
    requires Proper(cls, plan) && plan.allowed == base.allowed
    ensures IsCommonPlan(cls, base, plan, [plan])
  {
    forall k, v
      ensures (k, v) in plan.filters <==> AllFilter([plan], k, v)
      ensures (k, v) in plan.excludes <==> AllExclude([plan], k, v)
    {
      assert [plan][0] == plan;
    }
  }

  /** What was found before is the merge of the plans before. */
  ghost predicate FoundIsCommon(cls: ManagerClass, base: BucketPlan, found: Option<BucketPlan>,
                                before: seq<BucketPlan>)
  {
    if found.None? then before == [] else IsCommonPlan(cls, base, found.value, before)
  }

  lemma MergeOneIsCommon(cls: ManagerClass, base: BucketPlan, found: Option<BucketPlan>, before: seq<BucketPlan>,
                         alternative: Alternative)
    requires Proper(cls, base) && LocalPlan(cls, base) && ProperAlternative(cls, alternative)
    requires FoundIsCommon(cls, base, found, before)
    ensures var merged := MergeOne(cls, base, found, alternative);
            merged.Ok? && IsCommonPlan(cls, base, merged.value, before + [Alone(base, alternative)])
  {
    var next := Alone(base, alternative);
    NarrowIsProper(cls, base, alternative);
    if found.None? {
      OneIsCommonPlan(cls, base, next);
      assert before + [next] == [next];
    } else {
      MeetIsCommonPlan(cls, base, found.value, before, next);
    }
  }

  lemma {:induction false} MergeFromIsCommon(cls: ManagerClass, base: BucketPlan, found: Option<BucketPlan>,
                                             before: seq<BucketPlan>, alternatives: seq<Alternative>)
    requires Alternatives(cls, base, alternatives) && FoundIsCommon(cls, base, found, before)
    requires found.Some? || alternatives != []
    ensures var merged := MergeFrom(cls, base, found, alternatives);
            merged.Ok? && IsCommonPlan(cls, base, merged.value, before + PlansOf(base, alternatives))
    decreases alternatives
  {
    if alternatives == [] {
      assert before + PlansOf(base, alternatives) == before;
    } else {
      var next, rest := Alone(base, alternatives[0]), alternatives[1..];
      MergeOneIsCommon(cls, base, found, before, alternatives[0]);
      var merged := MergeOne(cls, base, found, alternatives[0]).value;
      MergeFromIsCommon(cls, base, Some(merged), before + [next], rest);
      assert PlansOf(base, alternatives) == [next] + PlansOf(base, rest);
      Ordering.Associate(before, [next], PlansOf(base, rest));
    }
  }

  /** The loop's result asks for exactly what every alternative's plan asks for, inside of the base's fence. */
  lemma MergedIsCommon(cls: ManagerClass, base: BucketPlan, alternatives: seq<Alternative>)
    requires alternatives != [] && Alternatives(cls, base, alternatives)
    ensures Merged(cls, base, alternatives).Ok?
    ensures IsCommonPlan(cls, base, Merged(cls, base, alternatives).value, PlansOf(base, alternatives))
  {
    MergeFromIsCommon(cls, base, None, [], alternatives);
    assert [] + PlansOf(base, alternatives) == PlansOf(base, alternatives);
  }

  lemma CommonIsLocal(cls: ManagerClass, merged: BucketPlan, plans: seq<BucketPlan>)
    requires plans != [] && AsksForCommon(merged, plans) && LocalPlan(cls, plans[0])
    ensures LocalPlan(cls, merged)
  {
    forall item | item in merged.filters ensures Local(cls, item.0) {
      assert (item.0, item.1) in merged.filters && AllFilter(plans, item.0, item.1);
    }
    forall item | item in merged.excludes ensures Local(cls, item.0) {
      assert (item.0, item.1) in merged.excludes && AllExclude(plans, item.0, item.1);
    }
  }

  // ----- what the list shows

  /** The merge drops nothing that some alternative accepts. */
  lemma MergeNeverDrops(holds: Truth, merged: BucketPlan, plans: seq<BucketPlan>)
    requires AsksForCommon(merged, plans) && AcceptsSome(holds, plans)
    ensures Accepts(holds, merged)
  {
    var i :| 0 <= i < |plans| && Accepts(holds, plans[i]);
    forall k, v | (k, v) in merged.filters ensures holds(k, v) {
      assert AllFilter(plans, k, v);
    }
    forall k, v | (k, v) in merged.excludes ensures !holds(k, v) {
      assert AllExclude(plans, k, v);
    }
  }

  /** Whatever the lookups answer, the members of `merged` are the members of `plans`. */
  ghost predicate ShowsUnion(cls: ManagerClass, merged: BucketPlan, plans: seq<BucketPlan>, order: SortOutcome)
    requires IsSortOutcome(cls.DependsOn(), order)
  {
    forall matches, a :: MemberIn(cls, matches, merged, order, a) <==>
                           exists i :: 0 <= i < |plans| && MemberIn(cls, matches, plans[i], order, a)
  }

  lemma UnionIsShown(cls: ManagerClass, merged: BucketPlan, plans: seq<BucketPlan>, order: SortOutcome,
                     matches: (Name, string, Raw, Value) -> bool, a: Combination)
    requires IsSortOutcome(cls.DependsOn(), order) && order.Ordered? && NeverRaises(cls)
    requires Comparable(cls, merged, plans)
    requires AsksForCommon(merged, plans)
    requires exists i :: 0 <= i < |plans| && MemberIn(cls, matches, plans[i], order, a)
    ensures MemberIn(cls, matches, merged, order, a)
  {
    var i :| 0 <= i < |plans| && MemberIn(cls, matches, plans[i], order, a);
    MemberInByDefinition(cls, matches, plans[i], order, a);
    SameFence(cls, merged, plans[i], order, a);
    MergeNeverDrops(TruthOf(WithMatches(cls, matches), a), merged, plans);
    MemberInByDefinition(cls, matches, merged, order, a);
  }

  /** Without instance check, the list over a calculation manager shows the union of its permission
      alternatives exactly when what all of them have in common implies one of them, or when there is
      nothing to show. */
  lemma MergeIsUnionExactly(cls: ManagerClass, base: BucketPlan, alternatives: seq<Alternative>, order: SortOutcome)
    requires IsSortOutcome(cls.DependsOn(), order) && order.Ordered? && NeverRaises(cls)
    requires alternatives != [] && Alternatives(cls, base, alternatives)
    ensures Merged(cls, base, alternatives).Ok?
    ensures var merged, plans := Merged(cls, base, alternatives).value, PlansOf(base, alternatives);
            ShowsUnion(cls, merged, plans, order) <==> NoCandidates(cls, merged, order) || Implies(merged, plans)
  {
    MergedIsCommon(cls, base, alternatives);
    var merged, plans := Merged(cls, base, alternatives).value, PlansOf(base, alternatives);
    MergedIsComparable(cls, base, alternatives);
    ShowsOnlyExactly(cls, merged, plans, order);
    forall matches, a | exists i :: 0 <= i < |plans| && MemberIn(cls, matches, plans[i], order, a)
      ensures MemberIn(cls, matches, merged, order, a)
    {
      UnionIsShown(cls, merged, plans, order, matches, a);
    }
  }

  lemma MergedIsComparable(cls: ManagerClass, base: BucketPlan, alternatives: seq<Alternative>)
    requires alternatives != [] && Alternatives(cls, base, alternatives)
    ensures Merged(cls, base, alternatives).Ok?
    ensures Comparable(cls, Merged(cls, base, alternatives).value, PlansOf(base, alternatives))
  {
    var plans := PlansOf(base, alternatives);
    MergedIsCommon(cls, base, alternatives);
    forall i | 0 <= i < |plans| ensures LocalPlan(cls, plans[i]) && plans[i].allowed == base.allowed {
      NarrowIsProper(cls, base, alternatives[i]);
    }
    CommonIsLocal(cls, Merged(cls, base, alternatives).value, plans);
  }

  // ----- without the truth table

  /** No definition is a filter of one alternative and an exclude of another one. */
  ghost predicate OneSided(plans: seq<BucketPlan>) {
    forall i, j, k, v :: 0 <= i < |plans| && 0 <= j < |plans| ==>
                           !((k, v) in plans[i].filters && (k, v) in plans[j].excludes)
  }

  /** Every alternative asks for all that alternative `i` asks for. */
  ghost predicate Weakest(plans: seq<BucketPlan>, i: nat)
    requires i < |plans|
  {
    && (forall k, v :: (k, v) in plans[i].filters ==> AllFilter(plans, k, v))
    && (forall k, v :: (k, v) in plans[i].excludes ==> AllExclude(plans, k, v))
  }

  /** The truth in which only what all alternatives have in common is satisfied. */
  ghost function Barely(plans: seq<BucketPlan>): Truth {
    (k: string, v: Raw) =>
      AllFilter(plans, k, v)
      || ((exists i :: 0 <= i < |plans| && (k, v) in plans[i].excludes) && !AllExclude(plans, k, v))
  }

  lemma BarelyIsMerged(merged: BucketPlan, plans: seq<BucketPlan>)
    requires plans != [] && AsksForCommon(merged, plans) && OneSided(plans)
    ensures Accepts(Barely(plans), merged)
    ensures forall i :: 0 <= i < |plans| && Accepts(Barely(plans), plans[i]) ==> Weakest(plans, i)
  {
    forall k, v | (k, v) in merged.excludes ensures !Barely(plans)(k, v) {
      assert AllExclude(plans, k, v) && (k, v) in plans[0].excludes;
      assert (k, v) !in plans[0].filters;
    }
    forall i | 0 <= i < |plans| && Accepts(Barely(plans), plans[i]) ensures Weakest(plans, i) {
      forall k, v | (k, v) in plans[i].filters ensures AllFilter(plans, k, v) {
        assert Barely(plans)(k, v);
      }
      forall k, v | (k, v) in plans[i].excludes ensures AllExclude(plans, k, v) {
        assert !Barely(plans)(k, v);
      }
    }
  }

  /** When no definition is both filtered for and excluded, the common definitions imply one alternative
      exactly when one alternative asks only for what all of them ask for. */
  lemma OneSidedMergeIsUnionExactly(merged: BucketPlan, plans: seq<BucketPlan>)
    requires plans != [] && AsksForCommon(merged, plans) && OneSided(plans)
    ensures Implies(merged, plans) <==> exists i :: 0 <= i < |plans| && Weakest(plans, i)
  {
    if Implies(merged, plans) {
      BarelyIsMerged(merged, plans);
      ImpliesEverywhere(Barely(plans), merged, plans);
    }
    if i :| 0 <= i < |plans| && Weakest(plans, i) {
      forall t | t <= Mentioned([merged] + plans) && Accepts(Among(t), merged) ensures AcceptsSome(Among(t), plans) {
        assert Accepts(Among(t), plans[i]);
      }
    }
  }

  /** Two alternatives with one different definition each, over a bucket without definitions: the merge asks
      for nothing, so without instance check the list shows every row, whatever the alternatives say. */
  lemma TwoAlternativesShowEverything(cls: ManagerClass, base: BucketPlan, k: string, v: Raw, l: string, w: Raw)
    requires base.filters == [] && base.excludes == [] && (k, v) != (l, w)
    requires FieldOf(cls, k).Some? && FieldOf(cls, l).Some?
    ensures var alternatives := [Alternative([(k, v)], []), Alternative([(l, w)], [])];
            var merged := Merged(cls, base, alternatives);
            merged.Ok? && merged.value.filters == [] && merged.value.excludes == []
  {
    var first, second := Alternative([(k, v)], []), Alternative([(l, w)], []);
    var alternatives := [first, second];
    NarrowToOne(cls, base, k, v);
    NarrowToOne(cls, base, l, w);
    var one, other := Narrow(cls, base, first).value, Narrow(cls, base, second).value;
    NothingCommon(k, v, l, w);
    var met := Meet(cls, one, other);
    assert met.Ok? && met.value.filters == [] && met.value.excludes == [];
    MergeFromNext(cls, base, None, alternatives, 0);
    MergeFromNext(cls, base, Some(one), alternatives, 1);
    assert alternatives[0..] == alternatives;
  }

  lemma NothingCommon(k: string, v: Raw, l: string, w: Raw)
    requires (k, v) != (l, w)
    ensures Common([(k, v)], [(l, w)]) == [] && Common([], []) == []
  {
    var one, other: Definitions := [(k, v)], [(l, w)];
    assert one[1..] == [] && other[1..] == [];
    assert Get(other, k) == if k == l then Some(w) else None;
  }

  lemma NarrowToOne(cls: ManagerClass, base: BucketPlan, k: string, v: Raw)
    requires base.filters == [] && base.excludes == [] && FieldOf(cls, k).Some?
    ensures Narrow(cls, base, Alternative([(k, v)], []))
         == Ok(BucketPlan([(k, v)], [], base.allowed, None, false))
  {
    var one: Definitions := [(k, v)];
    MergeEmpty(one);
    assert one[1..] == [] && FirstUnknown(cls, one).None? && FirstUnknown(cls, []).None?;
    var filtered := BucketPlan(one, [], base.allowed, None, false);
    assert FilterBy(cls, base, one) == Ok(filtered);
    assert ExcludeBy(cls, filtered, []) == Ok(filtered);
  }
}
