/** Read authorization of list queries and of search hits, and the search prefilter. */
module ReadAuthorization {
  import opened Sequences
  import opened Dicts

  type Row = nat

  /** A lookup value; what a lookup says of a row is given by the environment. */
  type Raw = int

  datatype Decision = AllowAll | DenyAll | Conditional

  /** One read-permission alternative. */
  datatype Constraint = Constraint(filter: Dict<Raw>, exclude: Dict<Raw>)

  datatype PermissionPlan = PermissionPlan(
    decision: Decision,
    filters: seq<Constraint>,
    requiresInstanceCheck: bool)

  /** `holds` evaluates one lookup on one row, for the backend and in memory alike. */
  datatype Environment = Environment(
    holds: (Row, string, Raw) -> bool,
    hasPermissionClass: bool,
    permissionAllows: Row -> bool)

  /** `can_read_instance` */
  predicate CanRead(env: Environment, r: Row) {
    !env.hasPermissionClass || env.permissionAllows(r)
  }

  ghost predicate AllHold(env: Environment, r: Row, d: Dict<Raw>) {
    forall i :: 0 <= i < |d| ==> env.holds(r, d[i].0, d[i].1)
  }

  /** The row satisfies the alternative: its filter holds and its exclude, if any, does not. */
  ghost predicate Satisfies(env: Environment, r: Row, c: Constraint) {
    AllHold(env, r, c.filter) && !(c.exclude != [] && AllHold(env, r, c.exclude))
  }

  ghost predicate SatisfiesSome(env: Environment, r: Row, cs: seq<Constraint>) {
    exists i :: 0 <= i < |cs| && Satisfies(env, r, cs[i])
  }

  // ----- search: the first matching alternative, then the gate

  /** `matches_filters` */
  method MatchesFilters(env: Environment, r: Row, filters: Dict<Raw>, emptyIsMatch: bool) returns (matched: bool)
    ensures matched <==> if filters == [] then emptyIsMatch else AllHold(env, r, filters)
  {
    if filters == [] {
      return emptyIsMatch;
    }
    for i := 0 to |filters|
      invariant forall k :: 0 <= k < i ==> env.holds(r, filters[k].0, filters[k].1)
    {
      if !env.holds(r, filters[i].0, filters[i].1) {
        return false;
      }
    }
    return true;
  }

  ghost predicate SearchAccepts(env: Environment, plan: PermissionPlan, r: Row) {
    match plan.decision
    case AllowAll => true
    case DenyAll => false
    case Conditional =>
      if plan.filters == [] then CanRead(env, r)
      else SatisfiesSome(env, r, plan.filters) && (plan.requiresInstanceCheck ==> CanRead(env, r))
  }

  /** `passes_permission_filters` */
  method PassesPermissionFilters(env: Environment, plan: PermissionPlan, r: Row) returns (passes: bool)
    ensures passes <==> SearchAccepts(env, plan, r)
  {
    if plan.decision.AllowAll? {
      return true;
    }
    if plan.decision.DenyAll? {
      return false;
    }
    if plan.filters == [] {
      return CanRead(env, r);
    }
    for i := 0 to |plan.filters|
      invariant forall k :: 0 <= k < i ==> !Satisfies(env, r, plan.filters[k])
    {
      var matched := MatchesFilters(env, r, plan.filters[i].filter, true);
      var excluded := MatchesFilters(env, r, plan.filters[i].exclude, false);
      if matched && !excluded {
        assert Satisfies(env, r, plan.filters[i]);
        if !plan.requiresInstanceCheck {
          return true;
        }
        return CanRead(env, r);
      }
    }
    return false;
  }

  // ----- list: the union of all alternatives, then the gate row by row

  datatype ReadAuthorizationResult = ReadAuthorizationResult(
    rows: seq<Row>,
    candidateCount: Option<nat>,
    authorizedCount: Option<nat>,
    deniedCount: Option<nat>)

  ghost function Narrowed(env: Environment, c: Constraint): Row -> bool {
    (r: Row) => Satisfies(env, r, c)
  }

  /** `queryset.filter(**filter).exclude(**exclude)` */
  method NarrowRows(env: Environment, c: Constraint, rows: seq<Row>) returns (narrowed: seq<Row>)
    ensures narrowed == Filter(Narrowed(env, c), rows)
  {
    narrowed := [];
    for i := 0 to |rows|
      invariant narrowed == Filter(Narrowed(env, c), rows[..i])
    {
      var matched := MatchesFilters(env, rows[i], c.filter, true);
      var excluded := MatchesFilters(env, rows[i], c.exclude, false);
      FilterAppend(Narrowed(env, c), rows[..i], [rows[i]]);
      assert rows[..i + 1] == rows[..i] + [rows[i]];
      if matched && !excluded {
        narrowed := narrowed + [rows[i]];
      }
    }
    assert rows[..|rows|] == rows;
  }

  /** The union of two querysets over the same table, in table order. */
  function Union(table: seq<Row>, a: seq<Row>, b: seq<Row>): seq<Row> {
    Filter((r: Row) => r in a || r in b, table)
  }

  ghost predicate ListAccepts(env: Environment, plan: PermissionPlan, r: Row) {
    match plan.decision
    case AllowAll => true
    case DenyAll => false
    case Conditional =>
      && (plan.filters == [] || SatisfiesSome(env, r, plan.filters))
      && (plan.requiresInstanceCheck ==> CanRead(env, r))
  }

  ghost function Prefiltered(env: Environment, cs: seq<Constraint>): Row -> bool {
    (r: Row) => cs == [] || SatisfiesSome(env, r, cs)
  }

  ghost function ListAccepted(env: Environment, plan: PermissionPlan): Row -> bool {
    (r: Row) => ListAccepts(env, plan, r)
  }

  ghost function SearchAccepted(env: Environment, plan: PermissionPlan): Row -> bool {
    (r: Row) => SearchAccepts(env, plan, r)
  }

  /** The union loop of `apply_read_authorization`. */
  method UnionOfAlternatives(env: Environment, cs: seq<Constraint>, table: seq<Row>) returns (rows: seq<Row>)
    requires cs != []
    ensures rows == Filter(Prefiltered(env, cs), table)
  {
    var found: Option<seq<Row>> := None;
    for i := 0 to |cs|
      invariant found.Some? <==> i > 0
      invariant found.Some? ==> found.value == Filter(Prefiltered(env, cs[..i]), table)
    {
      var narrowed := table;
      if cs[i].filter != [] || cs[i].exclude != [] {
        narrowed := NarrowRows(env, cs[i], table);
      } else {
        FilterEverything(Narrowed(env, cs[i]), table);
      }
      ghost var before := found;
      found := Some(if found.None? then narrowed else Union(table, found.value, narrowed));
      forall r | r in table
        ensures Prefiltered(env, cs[..i + 1])(r) <==> (i > 0 && Prefiltered(env, cs[..i])(r)) || Narrowed(env, cs[i])(r)
      {
        OneMore(env, r, cs, i);
      }
      if i == 0 {
        FilterExtensional(Narrowed(env, cs[i]), Prefiltered(env, cs[..i + 1]), table);
      } else {
        FilterExtensional((r: Row) => r in before.value || r in narrowed, Prefiltered(env, cs[..i + 1]), table);
      }
    }
    assert cs[..|cs|] == cs;
    return found.value;
  }

  lemma OneMore(env: Environment, r: Row, cs: seq<Constraint>, i: nat)
    requires i < |cs|
    ensures SatisfiesSome(env, r, cs[..i + 1]) <==> SatisfiesSome(env, r, cs[..i]) || Satisfies(env, r, cs[i])
  {
    var longer, shorter := cs[..i + 1], cs[..i];
    assert longer[i] == cs[i];
    if SatisfiesSome(env, r, shorter) {
      var k :| 0 <= k < |shorter| && Satisfies(env, r, shorter[k]);
      assert longer[k] == shorter[k];
    }
    if SatisfiesSome(env, r, longer) {
      var k :| 0 <= k < |longer| && Satisfies(env, r, longer[k]);
      assert k < i ==> shorter[k] == longer[k];
    }
  }

  /** `filter_queryset_by_read_permission` */
  method FilterByReadPermission(env: Environment, rows: seq<Row>, requiresInstanceCheck: bool)
    returns (result: ReadAuthorizationResult)
    ensures result.rows == Filter((r: Row) => requiresInstanceCheck ==> CanRead(env, r), rows)
    ensures result.authorizedCount.Some? ==>
              && result.authorizedCount == Some(|result.rows|) && result.candidateCount == Some(|rows|)
              && result.deniedCount == Some(|rows| - |result.rows|)
    ensures requiresInstanceCheck && env.hasPermissionClass <==> result.authorizedCount.Some?
  {
    ghost var passes := (r: Row) => requiresInstanceCheck ==> CanRead(env, r);
    if !requiresInstanceCheck || !env.hasPermissionClass {
      FilterEverything(passes, rows);
      return ReadAuthorizationResult(rows, None, None, None);
    }
    var authorized: seq<Row>, candidates := [], 0;
    for i := 0 to |rows|
      invariant authorized == Filter(passes, rows[..i]) && candidates == i
    {
      FilterAppend(passes, rows[..i], [rows[i]]);
      assert rows[..i + 1] == rows[..i] + [rows[i]];
      candidates := candidates + 1;
      if env.permissionAllows(rows[i]) {
        authorized := authorized + [rows[i]];
      }
    }
    assert rows[..|rows|] == rows;
    return ReadAuthorizationResult(authorized, Some(candidates), Some(|authorized|),
                                   Some(Max(candidates - |authorized|, 0)));
  }

  /** `apply_read_authorization` */
  method ApplyReadAuthorization(env: Environment, plan: PermissionPlan, table: seq<Row>)
    returns (result: ReadAuthorizationResult)
    ensures result.rows == Filter(ListAccepted(env, plan), table)
  {
    if plan.decision.DenyAll? {
      FilterNothing(ListAccepted(env, plan), table);
      return ReadAuthorizationResult([], Some(0), Some(0), Some(0));
    }
    if plan.decision.AllowAll? {
      FilterEverything(ListAccepted(env, plan), table);
      return ReadAuthorizationResult(table, None, None, None);
    }
    if !plan.requiresInstanceCheck && |plan.filters| == 1 && plan.filters[0].filter == []
       && plan.filters[0].exclude == []
    {
      forall r | r in table ensures ListAccepted(env, plan)(r) {
        assert Satisfies(env, r, plan.filters[0]);
      }
      FilterEverything(ListAccepted(env, plan), table);
      return ReadAuthorizationResult(table, None, None, None);
    }
    var rows := table;
    if plan.filters != [] {
      rows := UnionOfAlternatives(env, plan.filters, table);
    } else {
      FilterEverything(Prefiltered(env, plan.filters), table);
    }
    result := FilterByReadPermission(env, rows, plan.requiresInstanceCheck);
    FilterTwice(Prefiltered(env, plan.filters), (r: Row) => plan.requiresInstanceCheck ==> CanRead(env, r),
                ListAccepted(env, plan), table);
  }

  // ----- the two agree, with one exception

  /** The list path and the search path accept the same rows of a table, unless the plan is
      conditional, has no alternatives and asks for no instance check: then the list shows every
      row while search still applies the gate, so they agree iff the gate passes every row. */
  lemma PathsAgree(env: Environment, plan: PermissionPlan, table: seq<Row>)
    ensures Filter(ListAccepted(env, plan), table) == Filter(SearchAccepted(env, plan), table)
       <==> (plan.decision.Conditional? && plan.filters == [] && !plan.requiresInstanceCheck
             ==> forall r :: r in table ==> CanRead(env, r))
  {
    if plan.decision.Conditional? && plan.filters == [] && !plan.requiresInstanceCheck {
      FilterEverything(ListAccepted(env, plan), table);
      if forall r :: r in table ==> CanRead(env, r) {
        FilterEverything(SearchAccepted(env, plan), table);
      } else {
        var r :| r in table && !CanRead(env, r);
        assert r !in Filter(SearchAccepted(env, plan), table);
      }
    } else {
      FilterExtensional(ListAccepted(env, plan), SearchAccepted(env, plan), table);
    }
  }

  // ----- the search prefilter

  datatype Prefilter = NoPrefilter | OneGroup(group: Dict<Raw>) | AnyGroup(groups: seq<Dict<Raw>>)

  ghost predicate BackendMatches(env: Environment, prefilter: Prefilter, r: Row) {
    match prefilter
    case NoPrefilter => true
    case OneGroup(g) => AllHold(env, r, g)
    case AnyGroup(gs) => exists i :: 0 <= i < |gs| && AllHold(env, r, gs[i])
  }

  function MergedGroups(filters: Dict<Raw>, cs: seq<Constraint>): seq<Dict<Raw>> {
    Map((c: Constraint) => Merge(filters, c.filter), cs)
  }

  /** `merge_permission_filters` */
  method MergePermissionFilters(filters: Dict<Raw>, cs: seq<Constraint>) returns (prefilter: Prefilter)
    ensures prefilter == if cs == [] then (if filters == [] then NoPrefilter else OneGroup(filters))
                         else AnyGroup(MergedGroups(filters, cs))
  {
    if cs == [] {
      if filters == [] {
        return NoPrefilter;
      }
      return OneGroup(filters);
    }
    var groups: seq<Dict<Raw>> := [];
    for i := 0 to |cs|
      invariant groups == MergedGroups(filters, cs[..i])
    {
      assert cs[..i + 1] == cs[..i] + [cs[i]];
      groups := groups + [Merge(filters, cs[i].filter)];
    }
    assert cs[..|cs|] == cs;
    return AnyGroup(groups);
  }

  ghost predicate HoldsAt(env: Environment, r: Row, d: Dict<Raw>, k: string) {
    Get(d, k).Some? ==> env.holds(r, k, Get(d, k).value)
  }

  lemma HoldsByKey(env: Environment, r: Row, d: Dict<Raw>)
    requires IsDict(d)
    ensures AllHold(env, r, d) <==> forall k :: HoldsAt(env, r, d, k)
  {
    if AllHold(env, r, d) {
      forall k ensures HoldsAt(env, r, d, k) {
        GetFound(d, k);
      }
    }
    forall i | 0 <= i < |d|
      ensures env.holds(r, d[i].0, d[i].1) <==> HoldsAt(env, r, d, d[i].0)
    {
      assert d[i] in d;
      GetItem(d, d[i].0, d[i].1);
    }
  }

  function Unless(d: Dict<Raw>): string -> bool {
    k => Get(d, k).None?
  }

  lemma {:induction false} GetKeep(keep: string -> bool, d: Dict<Raw>, k: string)
    ensures Get(Keep(keep, d), k) == if keep(k) then Get(d, k) else None
  {
    if d != [] {
      GetKeep(keep, d[1..], k);
      KeepCons(keep, d[0], d[1..]);
      assert d == [d[0]] + d[1..];
    }
  }

  /** A merged group asks for the alternative's filter and for what is left of the user's filter
      after the alternative overrode it. */
  lemma MergedGroupMeaning(env: Environment, r: Row, filters: Dict<Raw>, override: Dict<Raw>)
    requires IsDict(filters) && IsDict(override)
    ensures AllHold(env, r, Merge(filters, override))
       <==> AllHold(env, r, override) && AllHold(env, r, Keep(Unless(override), filters))
  {
    var left := Keep(Unless(override), filters);
    MergeKeeps(filters, override);
    KeepIsDict(Unless(override), filters);
    HoldsByKey(env, r, Merge(filters, override));
    HoldsByKey(env, r, override);
    HoldsByKey(env, r, left);
    forall k
      ensures HoldsAt(env, r, Merge(filters, override), k)
         <==> HoldsAt(env, r, override, k) && HoldsAt(env, r, left, k)
    {
      GetMerge(filters, override, k);
      GetKeep(Unless(override), filters, k);
    }
  }

  ghost predicate ValidPlan(plan: PermissionPlan) {
    forall i :: 0 <= i < |plan.filters| ==> IsDict(plan.filters[i].filter)
  }

  /** What the backend is asked for under a conditional plan. */
  function PrefilterOf(filters: Dict<Raw>, plan: PermissionPlan): Prefilter {
    if plan.decision.AllowAll? || plan.filters == [] then (if filters == [] then NoPrefilter else OneGroup(filters))
    else AnyGroup(MergedGroups(filters, plan.filters))
  }

  /** The prefilter never drops a row that matches the user's filter and is accepted by search. */
  lemma PrefilterNeverDrops(env: Environment, filters: Dict<Raw>, plan: PermissionPlan, r: Row)
    requires IsDict(filters) && ValidPlan(plan)
    requires AllHold(env, r, filters) && SearchAccepts(env, plan, r)
    ensures BackendMatches(env, PrefilterOf(filters, plan), r)
  {
    if plan.decision.Conditional? && plan.filters != [] {
      var i :| 0 <= i < |plan.filters| && Satisfies(env, r, plan.filters[i]);
      var override := plan.filters[i].filter;
      var left := Keep(Unless(override), filters);
      forall k | 0 <= k < |left| ensures env.holds(r, left[k].0, left[k].1) {
        assert left[k] in left;
        var j :| 0 <= j < |filters| && filters[j] == left[k];
      }
      MergedGroupMeaning(env, r, filters, override);
      assert AllHold(env, r, MergedGroups(filters, plan.filters)[i]);
    }
  }

  // ----- when the prefilter is exact

  /** The alternative agrees with the user's filter on every lookup that both use. */
  ghost predicate Agrees(filters: Dict<Raw>, override: Dict<Raw>) {
    forall k :: Get(filters, k).Some? && Get(override, k).Some? ==> Get(filters, k) == Get(override, k)
  }

  lemma AgreeingGroup(env: Environment, r: Row, filters: Dict<Raw>, override: Dict<Raw>)
    requires IsDict(filters) && IsDict(override) && Agrees(filters, override)
    ensures AllHold(env, r, Merge(filters, override)) <==> AllHold(env, r, filters) && AllHold(env, r, override)
  {
    MergeKeeps(filters, override);
    HoldsByKey(env, r, Merge(filters, override));
    HoldsByKey(env, r, filters);
    HoldsByKey(env, r, override);
    forall k
      ensures HoldsAt(env, r, Merge(filters, override), k)
              <==> HoldsAt(env, r, filters, k) && HoldsAt(env, r, override, k)
    {
      GetMerge(filters, override, k);
    }
  }

  /** The row matches the user's filter and the filter of some alternative. */
  ghost predicate Wanted(env: Environment, filters: Dict<Raw>, plan: PermissionPlan, r: Row) {
    AllHold(env, r, filters) && exists i :: 0 <= i < |plan.filters| && AllHold(env, r, plan.filters[i].filter)
  }

  lemma AgreeingIsExact(env: Environment, filters: Dict<Raw>, plan: PermissionPlan, r: Row)
    requires IsDict(filters) && ValidPlan(plan) && plan.decision.Conditional? && plan.filters != []
    requires forall i :: 0 <= i < |plan.filters| ==> Agrees(filters, plan.filters[i].filter)
    ensures BackendMatches(env, PrefilterOf(filters, plan), r) <==> Wanted(env, filters, plan, r)
  {
    var groups := MergedGroups(filters, plan.filters);
    forall i | 0 <= i < |groups|
      ensures AllHold(env, r, groups[i]) <==> AllHold(env, r, filters) && AllHold(env, r, plan.filters[i].filter)
    {
      AgreeingGroup(env, r, filters, plan.filters[i].filter);
    }
  }

  /** The environment in which exactly the conditions of `d` hold. */
  ghost function Only(d: Dict<Raw>): Environment {
    Environment((r: Row, k: string, v: Raw) => (k, v) in d, false, (r: Row) => true)
  }

  /** An alternative that disagrees with the user's filter on a lookup replaces the user's condition: the
      backend then offers rows that the user's filter rules out, and search accepts them when the
      alternative excludes nothing. */
  lemma OverriddenFilterIsLost(filters: Dict<Raw>, plan: PermissionPlan, i: nat, k: string, r: Row)
    requires IsDict(filters) && ValidPlan(plan) && plan.decision.Conditional? && i < |plan.filters|
    requires var override := plan.filters[i].filter;
             Get(filters, k).Some? && Get(override, k).Some? && Get(filters, k) != Get(override, k)
    ensures var env := Only(Merge(filters, plan.filters[i].filter));
            && BackendMatches(env, PrefilterOf(filters, plan), r)
            && !AllHold(env, r, filters)
            && (plan.filters[i].exclude == [] ==> SearchAccepts(env, plan, r))
  {
    var override := plan.filters[i].filter;
    var merged := Merge(filters, override);
    var env := Only(merged);
    MergeKeeps(filters, override);
    GetMerge(filters, override, k);
    HoldsByKey(env, r, filters);
    var wanted := Get(filters, k).value;
    if (k, wanted) in merged {
      GetItem(merged, k, wanted);
    }
    assert !HoldsAt(env, r, filters, k);
    assert AllHold(env, r, MergedGroups(filters, plan.filters)[i]);
    MergedGroupMeaning(env, r, filters, override);
    assert plan.filters[i].exclude == [] ==> Satisfies(env, r, plan.filters[i]);
  }

  /** In every environment the prefilter selects exactly the wanted rows. */
  ghost predicate ExactPrefilter(filters: Dict<Raw>, plan: PermissionPlan) {
    forall env: Environment, r: Row ::
      BackendMatches(env, PrefilterOf(filters, plan), r) <==> Wanted(env, filters, plan, r)
  }

  /** The prefilter is exact exactly when every alternative agrees with the user's filter on every lookup
      that both use. */
  lemma PrefilterExactly(filters: Dict<Raw>, plan: PermissionPlan)
    requires IsDict(filters) && ValidPlan(plan) && plan.decision.Conditional? && plan.filters != []
    ensures ExactPrefilter(filters, plan)
       <==> forall i :: 0 <= i < |plan.filters| ==> Agrees(filters, plan.filters[i].filter)
  {
    if forall i :: 0 <= i < |plan.filters| ==> Agrees(filters, plan.filters[i].filter) {
      forall env: Environment, r: Row
        ensures BackendMatches(env, PrefilterOf(filters, plan), r) <==> Wanted(env, filters, plan, r)
      {
        AgreeingIsExact(env, filters, plan, r);
      }
    } else {
      var i :| 0 <= i < |plan.filters| && !Agrees(filters, plan.filters[i].filter);
      var override := plan.filters[i].filter;
      var k :| Get(filters, k).Some? && Get(override, k).Some? && Get(filters, k) != Get(override, k);
      OverriddenFilterIsLost(filters, plan, i, k, 0);
    }
  }
}
