/** Calculation buckets: derived plans, materialization with its cache, and the lazy preview. */
module CalculationBuckets {
  import opened Sequences
  import opened Ordering
  import opened Dicts
  import opened InputOrder
  import opened InputEnumeration

  /** The right-hand side of a filter keyword. */
  datatype Raw = One(value: Value) | Many(values: seq<Value>)

  type Definitions = Dict<Raw>

  /** What a calculation manager class contributes. A manager is represented by the combination it
      is built from: `identify` gives its identification, `attribute` its computed properties. The
      possible values of `oneShotInputs` are iterators, which can be read once. */
  datatype ManagerClass = ManagerClass(
    names: seq<Name>,
    fields: map<Name, InputField>,
    oneShotInputs: set<Name>,
    managerInputs: set<Name>,
    properties: map<Name, bool>,
    matches: (Name, string, Raw, Value) -> bool,
    bucketKeeps: (Name, Definitions, Definitions, Value) -> bool,
    identify: Combination -> Combination,
    freeze: Combination -> int,
    attribute: (Name, Combination) -> Value,
    rank: Value -> int)
  {
    ghost predicate Valid() {
      Distinct(names) && forall n :: n in names <==> n in fields
    }

    function DependsOn(): Dependencies {
      map n | n in fields :: fields[n].dependsOn
    }
  }

  /** `allowed` is the fence: the identifications a bucket may still produce. */
  datatype BucketPlan = BucketPlan(
    filters: Definitions,
    excludes: Definitions,
    allowed: Option<seq<Combination>>,
    sortKey: Option<seq<Name>>,
    reverse: bool)

  /** A bucket: its plan and its cached combinations. */
  datatype Bucket = Bucket(plan: BucketPlan, data: Option<seq<Combination>>)

  // ----- filter parsing

  /** `lookup.split("__")[0]` */
  function Root(lookup: string): string {
    if |lookup| < 2 then lookup
    else if lookup[0] == '_' && lookup[1] == '_' then ""
    else [lookup[0]] + Root(lookup[1..])
  }

  function WithoutIdSuffix(root: string): Option<string> {
    var n := |root|;
    if n >= 3 && root[n - 3] == '_' && root[n - 2] == 'i' && root[n - 1] == 'd' then Some(root[..n - 3]) else None
  }

  predicate Known(cls: ManagerClass, name: Name) {
    name in cls.fields || name in cls.properties
  }

  /** Properties shadow inputs of the same name when filters are parsed. */
  predicate ParsedAsManager(cls: ManagerClass, name: Name) {
    if name in cls.properties then cls.properties[name] else name in cls.managerInputs
  }

  /** The input or property a lookup is about; None is `UnknownInputFieldError`. */
  function FieldOf(cls: ManagerClass, lookup: string): Option<Name> {
    var root := Root(lookup);
    if Known(cls, root) then Some(root)
    else match WithoutIdSuffix(root)
      case Some(alias) => if Known(cls, alias) && ParsedAsManager(cls, alias) then Some(alias) else None
      case None => None
  }

  function FirstUnknown(cls: ManagerClass, defs: Definitions): Option<Name> {
    if defs == [] then None
    else if FieldOf(cls, defs[0].0).None? then Some(Root(defs[0].0))
    else FirstUnknown(cls, defs[1..])
  }

  function AboutInput(cls: ManagerClass, n: Name): string -> bool {
    lookup => FieldOf(cls, lookup).Some? && FieldOf(cls, lookup).value == n
  }

  function AboutProperty(cls: ManagerClass): string -> bool {
    lookup => FieldOf(cls, lookup).Some? && FieldOf(cls, lookup).value !in cls.fields
  }

  function Predicates(cls: ManagerClass, n: Name, defs: Definitions): seq<Value -> bool> {
    Map((item: (string, Raw)) => ((v: Value) => cls.matches(n, item.0, item.1, v)), defs)
  }

  /** One input with the filters and excludes about it. Manager-typed inputs have keyword criteria
      for their bucket, other inputs have predicates. */
  function SlotOf(cls: ManagerClass, n: Name, filters: Definitions, excludes: Definitions): Slot
    requires n in cls.fields
  {
    if ParsedAsManager(cls, n) then
      Slot(cls.fields[n], [], [], (v: Value) => cls.bucketKeeps(n, filters, excludes, v))
    else
      Slot(cls.fields[n], Predicates(cls, n, filters), Predicates(cls, n, excludes),
           (v: Value) => cls.bucketKeeps(n, [], [], v))
  }

  function SlotsOf(cls: ManagerClass, plan: BucketPlan): Slots {
    map n | n in cls.fields :: SlotOf(cls, n, Keep(AboutInput(cls, n), plan.filters),
                                      Keep(AboutInput(cls, n), plan.excludes))
  }

  // ----- property criteria

  /** Keyword criteria of manager-typed properties are parsed but never evaluated. */
  predicate PropertyMatches(cls: ManagerClass, item: (string, Raw), combo: Combination) {
    match FieldOf(cls, item.0)
    case Some(p) => !ParsedAsManager(cls, p) && cls.matches(p, item.0, item.1, cls.attribute(p, combo))
    case None => false
  }

  predicate PropertyEvaluated(cls: ManagerClass, item: (string, Raw)) {
    FieldOf(cls, item.0).Some? && !ParsedAsManager(cls, FieldOf(cls, item.0).value)
  }

  predicate PassesProperties(cls: ManagerClass, filters: Definitions, excludes: Definitions, combo: Combination) {
    && (forall i :: 0 <= i < |filters| && PropertyEvaluated(cls, filters[i]) ==>
          PropertyMatches(cls, filters[i], combo))
    && (forall i :: 0 <= i < |excludes| ==> !PropertyMatches(cls, excludes[i], combo))
  }

  function PassingProperties(cls: ManagerClass, filters: Definitions, excludes: Definitions): Combination -> bool {
    (c: Combination) => PassesProperties(cls, filters, excludes, c)
  }

  function PropertyTest(cls: ManagerClass, plan: BucketPlan): Combination -> bool {
    PassingProperties(cls, Keep(AboutProperty(cls), plan.filters), Keep(AboutProperty(cls), plan.excludes))
  }

  predicate FiltersProperties(cls: ManagerClass, plan: BucketPlan) {
    Keep(AboutProperty(cls), plan.filters) != [] || Keep(AboutProperty(cls), plan.excludes) != []
  }

  predicate NeedsManagerAccess(cls: ManagerClass, plan: BucketPlan) {
    FiltersProperties(cls, plan)
    || (plan.sortKey.Some? && exists k :: k in plan.sortKey.value && k !in cls.fields)
  }

  // ----- fence and order

  function FrozenKeys(cls: ManagerClass, identifications: seq<Combination>): set<int> {
    set a | a in identifications :: cls.freeze(a)
  }

  function FenceTest(cls: ManagerClass, plan: BucketPlan): Combination -> bool {
    match plan.allowed
    case None => (c: Combination) => true
    case Some(allowed) =>
      var keys := FrozenKeys(cls, allowed);
      (c: Combination) => cls.freeze(cls.identify(c)) in keys
  }

  function ManagerKey(cls: ManagerClass, keys: seq<Name>, c: Combination): seq<int> {
    Map((k: Name) => cls.rank(cls.attribute(k, c)), keys)
  }

  /** Missing inputs sort behind present ones. */
  function InputKey(cls: ManagerClass, keys: seq<Name>, c: Combination): seq<int> {
    if keys == [] then []
    else (if keys[0] in c then [0, cls.rank(c[keys[0]])] else [1, 0]) + InputKey(cls, keys[1..], c)
  }

  function ManagerOrder(cls: ManagerClass, keys: seq<Name>): (Combination, Combination) -> bool {
    (a: Combination, b: Combination) => Lexicographic(IntLe, ManagerKey(cls, keys, a), ManagerKey(cls, keys, b))
  }

  function InputKeyOrder(cls: ManagerClass, keys: seq<Name>): (Combination, Combination) -> bool {
    (a: Combination, b: Combination) => Lexicographic(IntLe, InputKey(cls, keys, a), InputKey(cls, keys, b))
  }

  function SortKeys(plan: BucketPlan): seq<Name> {
    if plan.sortKey.Some? then plan.sortKey.value else []
  }

  function MaybeSorted(plan: BucketPlan, le: (Combination, Combination) -> bool,
                       s: seq<Combination>): (r: seq<Combination>)
    ensures multiset(r) == multiset(s)
  {
    SortPermutes(le, s);
    if plan.sortKey.Some? then Sort(le, s) else s
  }

  // ----- what a bucket contains

  /** Everything after the enumeration: fence, property criteria, sort, reverse. */
  function Finish(cls: ManagerClass, plan: BucketPlan, combos: seq<Combination>): seq<Combination> {
    var managers := Filter(FenceTest(cls, plan), combos);
    var ordered :=
      if NeedsManagerAccess(cls, plan) then
        Map(cls.identify,
            MaybeSorted(plan, ManagerOrder(cls, SortKeys(plan)), Filter(PropertyTest(cls, plan), managers)))
      else
        MaybeSorted(plan, InputKeyOrder(cls, SortKeys(plan)),
                    if plan.allowed.Some? then Map(cls.identify, managers) else combos);
    if plan.reverse then Reversed(ordered) else ordered
  }

  predicate Passes(cls: ManagerClass, plan: BucketPlan, c: Combination) {
    FenceTest(cls, plan)(c) && PropertyTest(cls, plan)(c)
  }

  function Passing(cls: ManagerClass, plan: BucketPlan): Combination -> bool {
    (c: Combination) => Passes(cls, plan, c)
  }

  /** Whether the contents are identifications rather than raw combinations. */
  predicate Identified(cls: ManagerClass, plan: BucketPlan) {
    NeedsManagerAccess(cls, plan) || plan.allowed.Some?
  }

  lemma PassingInStages(cls: ManagerClass, plan: BucketPlan, combos: seq<Combination>)
    ensures Filter(Passing(cls, plan), combos) == Filter(PropertyTest(cls, plan), Filter(FenceTest(cls, plan), combos))
    ensures !NeedsManagerAccess(cls, plan) ==>
              Filter(Passing(cls, plan), combos) == Filter(FenceTest(cls, plan), combos)
    ensures !Identified(cls, plan) ==> Filter(Passing(cls, plan), combos) == combos
  {
    FilterTwice(FenceTest(cls, plan), PropertyTest(cls, plan), Passing(cls, plan), combos);
    if !NeedsManagerAccess(cls, plan) {
      FilterEverything(PropertyTest(cls, plan), Filter(FenceTest(cls, plan), combos));
    }
    if plan.allowed.None? {
      FilterEverything(FenceTest(cls, plan), combos);
    }
  }

  /** A bucket contains exactly the enumerated combinations inside the fence that pass the property
      criteria, each as often as it was enumerated; sort and reverse only permute. */
  lemma FinishSelects(cls: ManagerClass, plan: BucketPlan, combos: seq<Combination>)
    ensures var chosen := Filter(Passing(cls, plan), combos);
            multiset(Finish(cls, plan, combos))
            == multiset(if Identified(cls, plan) then Map(cls.identify, chosen) else combos)
  {
    var managers := Filter(FenceTest(cls, plan), combos);
    PassingInStages(cls, plan, combos);
    if NeedsManagerAccess(cls, plan) {
      var kept := Filter(PropertyTest(cls, plan), managers);
      var ordered := MaybeSorted(plan, ManagerOrder(cls, SortKeys(plan)), kept);
      MapPermuted(cls.identify, ordered, kept);
      ReversedPermutes(Map(cls.identify, ordered));
    } else {
      var current := if plan.allowed.Some? then Map(cls.identify, managers) else combos;
      ReversedPermutes(MaybeSorted(plan, InputKeyOrder(cls, SortKeys(plan)), current));
    }
  }

  /** A bucket of managers contains exactly the identifications of the combinations that pass. */
  lemma FinishedContents(cls: ManagerClass, plan: BucketPlan, combos: seq<Combination>, c: Combination)
    requires Identified(cls, plan)
    ensures c in Finish(cls, plan, combos)
       <==> exists a :: a in Filter(Passing(cls, plan), combos) && c == cls.identify(a)
  {
    var chosen := Filter(Passing(cls, plan), combos);
    FinishSelects(cls, plan, combos);
    SameElements(Finish(cls, plan, combos), Map(cls.identify, chosen));
    MapMembers(cls.identify, chosen, c);
  }

  lemma KeyOrdersAreTotal(cls: ManagerClass, keys: seq<Name>)
    ensures TotalPreorder(ManagerOrder(cls, keys)) && TotalPreorder(InputKeyOrder(cls, keys))
  {
    forall a, b ensures Lexicographic(IntLe, a, b) || Lexicographic(IntLe, b, a) {
      LexicographicTotal(IntLe, a, b);
    }
    forall a, b, c | Linked(a, b, c) && ManagerOrder(cls, keys)(a, b) && ManagerOrder(cls, keys)(b, c)
      ensures ManagerOrder(cls, keys)(a, c)
    {
      LexicographicTransitive(IntLe, ManagerKey(cls, keys, a), ManagerKey(cls, keys, b), ManagerKey(cls, keys, c));
    }
    forall a, b, c | Linked(a, b, c) && InputKeyOrder(cls, keys)(a, b) && InputKeyOrder(cls, keys)(b, c)
      ensures InputKeyOrder(cls, keys)(a, c)
    {
      LexicographicTransitive(IntLe, InputKey(cls, keys, a), InputKey(cls, keys, b), InputKey(cls, keys, c));
    }
  }

  // ----- what a sorted bucket is sorted by

  /** Both lack the input, or both have it with the same rank. */
  ghost predicate SameInput(cls: ManagerClass, k: Name, x: Combination, y: Combination) {
    (k in x <==> k in y) && (k in x && k in y ==> cls.rank(x[k]) == cls.rank(y[k]))
  }

  ghost predicate SameAttribute(cls: ManagerClass, k: Name, x: Combination, y: Combination) {
    cls.rank(cls.attribute(k, x)) == cls.rank(cls.attribute(k, y))
  }

  /** At the first key where two entries differ, the earlier one has the input, and the later one has a
      greater value there, or lacks it. */
  ghost predicate OrderedByInputs(cls: ManagerClass, keys: seq<Name>, list: seq<Combination>) {
    forall i, j, m :: 0 <= i < j < |list| && 0 <= m < |keys|
                      && (forall l :: 0 <= l < m ==> SameInput(cls, keys[l], list[i], list[j]))
                      && !SameInput(cls, keys[m], list[i], list[j])
                      ==> keys[m] in list[i]
                          && (keys[m] in list[j] ==> cls.rank(list[i][keys[m]]) < cls.rank(list[j][keys[m]]))
  }

  /** At the first key where two managers differ, the earlier one has the smaller value. */
  ghost predicate OrderedByAttributes(cls: ManagerClass, keys: seq<Name>, list: seq<Combination>) {
    forall i, j, m :: 0 <= i < j < |list| && 0 <= m < |keys|
                      && (forall l :: 0 <= l < m ==> SameAttribute(cls, keys[l], list[i], list[j]))
                      && !SameAttribute(cls, keys[m], list[i], list[j])
                      ==> cls.rank(cls.attribute(keys[m], list[i])) < cls.rank(cls.attribute(keys[m], list[j]))
  }

  ghost function TiedInputs(cls: ManagerClass, keys: seq<Name>, x: Combination): Combination -> bool {
    (y: Combination) => forall k :: k in keys ==> SameInput(cls, k, x, y)
  }

  ghost function TiedAttributes(cls: ManagerClass, keys: seq<Name>, x: Combination): Combination -> bool {
    (y: Combination) => forall k :: k in keys ==> SameAttribute(cls, k, x, y)
  }

  /** Entries that agree on all keys keep their order. */
  ghost predicate KeepsTiedInputs(cls: ManagerClass, keys: seq<Name>, list: seq<Combination>, all: seq<Combination>) {
    forall x :: Filter(TiedInputs(cls, keys, x), list) == Filter(TiedInputs(cls, keys, x), all)
  }

  ghost predicate KeepsTiedAttributes(cls: ManagerClass, keys: seq<Name>, list: seq<Combination>,
                                      all: seq<Combination>)
  {
    forall x :: Filter(TiedAttributes(cls, keys, x), list) == Filter(TiedAttributes(cls, keys, x), all)
  }

  lemma {:induction false} InputKeyAt(cls: ManagerClass, keys: seq<Name>, x: Combination, y: Combination, m: nat)
    requires m < |keys| && !SameInput(cls, keys[m], x, y)
    requires forall l :: 0 <= l < m ==> SameInput(cls, keys[l], x, y)
    ensures InputKeyOrder(cls, keys)(x, y)
       <==> keys[m] in x && (keys[m] in y ==> cls.rank(x[keys[m]]) < cls.rank(y[keys[m]]))
    decreases keys
  {
    var rest := keys[1..];
    var a, b := InputKey(cls, keys, x), InputKey(cls, keys, y);
    if m == 0 {
      var at := if keys[0] in x <==> keys[0] in y then 1 else 0;
      assert a[..at] == b[..at];
      LexicographicAt(IntLe, a, b, at);
    } else {
      var first := if keys[0] in x then [0, cls.rank(x[keys[0]])] else [1, 0];
      assert SameInput(cls, keys[0], x, y);
      forall l | 0 <= l < m - 1 ensures SameInput(cls, rest[l], x, y) {
        assert rest[l] == keys[l + 1];
      }
      InputKeyAt(cls, rest, x, y, m - 1);
      LexicographicPrefix(IntLe, first, InputKey(cls, rest, x), InputKey(cls, rest, y));
      assert a == first + InputKey(cls, rest, x) && b == first + InputKey(cls, rest, y);
    }
  }

  lemma {:induction false} TiedInputKeys(cls: ManagerClass, keys: seq<Name>, x: Combination, y: Combination)
    requires forall k :: k in keys ==> SameInput(cls, k, x, y)
    ensures InputKey(cls, keys, x) == InputKey(cls, keys, y)
  {
    if keys != [] {
      assert keys[0] in keys;
      TiedInputKeys(cls, keys[1..], x, y);
    }
  }

  lemma ManagerKeyAt(cls: ManagerClass, keys: seq<Name>, x: Combination, y: Combination, m: nat)
    requires m < |keys| && !SameAttribute(cls, keys[m], x, y)
    requires forall l :: 0 <= l < m ==> SameAttribute(cls, keys[l], x, y)
    ensures ManagerOrder(cls, keys)(x, y)
       <==> cls.rank(cls.attribute(keys[m], x)) < cls.rank(cls.attribute(keys[m], y))
  {
    var a, b := ManagerKey(cls, keys, x), ManagerKey(cls, keys, y);
    forall l | 0 <= l < m ensures a[l] == b[l] {
      assert SameAttribute(cls, keys[l], x, y);
    }
    assert a[..m] == b[..m];
    LexicographicAt(IntLe, a, b, m);
  }

  lemma SortedByInputs(cls: ManagerClass, keys: seq<Name>, all: seq<Combination>)
    ensures OrderedByInputs(cls, keys, Sort(InputKeyOrder(cls, keys), all))
    ensures KeepsTiedInputs(cls, keys, Sort(InputKeyOrder(cls, keys), all), all)
  {
    var le := InputKeyOrder(cls, keys);
    KeyOrdersAreTotal(cls, keys);
    SortSorts(le, all);
    var list := Sort(le, all);
    forall i, j, m | 0 <= i < j < |list| && 0 <= m < |keys|
                     && (forall l :: 0 <= l < m ==> SameInput(cls, keys[l], list[i], list[j]))
                     && !SameInput(cls, keys[m], list[i], list[j])
      ensures keys[m] in list[i]
              && (keys[m] in list[j] ==> cls.rank(list[i][keys[m]]) < cls.rank(list[j][keys[m]]))
    {
      InputKeyAt(cls, keys, list[i], list[j], m);
    }
    forall x ensures Filter(TiedInputs(cls, keys, x), list) == Filter(TiedInputs(cls, keys, x), all) {
      forall y, z | TiedInputs(cls, keys, x)(y) && TiedInputs(cls, keys, x)(z) ensures le(y, z) {
        TiedInputKeys(cls, keys, x, y);
        TiedInputKeys(cls, keys, x, z);
        LexicographicTotal(IntLe, InputKey(cls, keys, y), InputKey(cls, keys, z));
      }
      SortStable(le, all, TiedInputs(cls, keys, x));
    }
  }

  lemma SortedByAttributes(cls: ManagerClass, keys: seq<Name>, all: seq<Combination>)
    ensures OrderedByAttributes(cls, keys, Sort(ManagerOrder(cls, keys), all))
    ensures KeepsTiedAttributes(cls, keys, Sort(ManagerOrder(cls, keys), all), all)
  {
    var le := ManagerOrder(cls, keys);
    KeyOrdersAreTotal(cls, keys);
    SortSorts(le, all);
    var list := Sort(le, all);
    forall i, j, m | 0 <= i < j < |list| && 0 <= m < |keys|
                     && (forall l :: 0 <= l < m ==> SameAttribute(cls, keys[l], list[i], list[j]))
                     && !SameAttribute(cls, keys[m], list[i], list[j])
      ensures cls.rank(cls.attribute(keys[m], list[i])) < cls.rank(cls.attribute(keys[m], list[j]))
    {
      ManagerKeyAt(cls, keys, list[i], list[j], m);
    }
    forall x ensures Filter(TiedAttributes(cls, keys, x), list) == Filter(TiedAttributes(cls, keys, x), all) {
      forall y, z | TiedAttributes(cls, keys, x)(y) && TiedAttributes(cls, keys, x)(z) ensures le(y, z) {
        assert forall i :: 0 <= i < |keys| ==> SameAttribute(cls, keys[i], x, y) && SameAttribute(cls, keys[i], x, z);
        assert ManagerKey(cls, keys, y) == ManagerKey(cls, keys, z);
        LexicographicTotal(IntLe, ManagerKey(cls, keys, y), ManagerKey(cls, keys, z));
      }
      SortStable(le, all, TiedAttributes(cls, keys, x));
    }
  }

  /** All sort keys are inputs, and no filter or exclude is about a property. */
  ghost predicate OnlyInputs(cls: ManagerClass, plan: BucketPlan, keys: seq<Name>) {
    && (forall k :: k in keys ==> k in cls.fields)
    && forall item :: (item in plan.filters || item in plan.excludes) && FieldOf(cls, item.0).Some?
                      ==> FieldOf(cls, item.0).value in cls.fields
  }

  lemma OnlyInputsNeedNoManagers(cls: ManagerClass, plan: BucketPlan)
    requires plan.sortKey.Some?
    ensures NeedsManagerAccess(cls, plan) <==> !OnlyInputs(cls, plan, plan.sortKey.value)
  {
    KeptItems(AboutProperty(cls), plan.filters);
    KeptItems(AboutProperty(cls), plan.excludes);
  }

  lemma KeptItems(keep: string -> bool, defs: Definitions)
    ensures Keep(keep, defs) != [] <==> exists item :: item in defs && keep(item.0)
  {
    if Keep(keep, defs) != [] {
      assert Keep(keep, defs)[0] in Keep(keep, defs);
    }
    if item :| item in defs && keep(item.0) {
      assert item in Keep(keep, defs);
    }
  }

  /** A sorted bucket, read backwards if it is reversed: by input values if all keys are inputs and no
      criterion is about a property, and else by the managers' attributes. Entries that agree on all keys
      keep the order in which they were enumerated. */
  lemma FinishOrders(cls: ManagerClass, plan: BucketPlan, combos: seq<Combination>)
    requires plan.sortKey.Some?
    ensures var keys, finished := plan.sortKey.value, Finish(cls, plan, combos);
            var list := if plan.reverse then Reversed(finished) else finished;
            if OnlyInputs(cls, plan, keys) then
              && OrderedByInputs(cls, keys, list)
              && KeepsTiedInputs(cls, keys, list,
                                 if plan.allowed.None? then combos
                                 else Map(cls.identify, Filter(Passing(cls, plan), combos)))
            else
              exists managers :: list == Map(cls.identify, managers) && OrderedByAttributes(cls, keys, managers)
                                 && KeepsTiedAttributes(cls, keys, managers, Filter(Passing(cls, plan), combos))
  {
    var keys := plan.sortKey.value;
    var inside := Filter(FenceTest(cls, plan), combos);
    OnlyInputsNeedNoManagers(cls, plan);
    PassingInStages(cls, plan, combos);
    if OnlyInputs(cls, plan, keys) {
      var all := if plan.allowed.None? then combos else Map(cls.identify, inside);
      SortedByInputs(cls, keys, all);
      ReversedTwice(Sort(InputKeyOrder(cls, keys), all));
    } else {
      var all := Filter(PropertyTest(cls, plan), inside);
      var managers := Sort(ManagerOrder(cls, keys), all);
      SortedByAttributes(cls, keys, all);
      ReversedTwice(Map(cls.identify, managers));
    }
  }

  lemma ReversedTwice<T>(s: seq<T>)
    ensures Reversed(Reversed(s)) == s
  {
  }

  /** Reversing turns the list around. */
  lemma FinishReverses(cls: ManagerClass, plan: BucketPlan, combos: seq<Combination>, i: nat)
    requires plan.reverse && i < |Finish(cls, plan, combos)|
    ensures var straight := Finish(cls, plan.(reverse := false), combos);
            |straight| == |Finish(cls, plan, combos)|
            && Finish(cls, plan, combos)[i] == straight[|straight| - 1 - i]
  {
    var other := plan.(reverse := false);
    SameTests(cls, plan, other, combos);
    SameArrangement(cls, plan, other, combos);
    ReversedAt(Finish(cls, other, combos), i);
  }

  lemma ReversedAt<T>(s: seq<T>, i: nat)
    requires i < |s|
    ensures |Reversed(s)| == |s| && Reversed(s)[i] == s[|s| - 1 - i]
  {
  }

  lemma SameArrangement(cls: ManagerClass, plan: BucketPlan, other: BucketPlan, combos: seq<Combination>)
    requires plan.(reverse := false) == other && plan.reverse
    requires Filter(FenceTest(cls, plan), combos) == Filter(FenceTest(cls, other), combos)
    requires PropertyTest(cls, plan) == PropertyTest(cls, other)
    ensures Finish(cls, plan, combos) == Reversed(Finish(cls, other, combos))
  {
    var managers := Filter(FenceTest(cls, plan), combos);
    assert NeedsManagerAccess(cls, plan) == NeedsManagerAccess(cls, other) && SortKeys(plan) == SortKeys(other);
    if NeedsManagerAccess(cls, plan) {
      SameSort(plan, other, ManagerOrder(cls, SortKeys(plan)), Filter(PropertyTest(cls, plan), managers));
    } else {
      SameSort(plan, other, InputKeyOrder(cls, SortKeys(plan)),
               if plan.allowed.Some? then Map(cls.identify, managers) else combos);
    }
  }

  lemma SameSort(plan: BucketPlan, other: BucketPlan, le: (Combination, Combination) -> bool, s: seq<Combination>)
    requires plan.sortKey.Some? == other.sortKey.Some?
    ensures MaybeSorted(plan, le, s) == MaybeSorted(other, le, s)
  {
  }

  lemma SameTests(cls: ManagerClass, plan: BucketPlan, other: BucketPlan, combos: seq<Combination>)
    requires plan.(reverse := false) == other
    ensures Filter(FenceTest(cls, plan), combos) == Filter(FenceTest(cls, other), combos)
    ensures PropertyTest(cls, plan) == PropertyTest(cls, other)
  {
    FilterExtensional(FenceTest(cls, plan), FenceTest(cls, other), combos);
  }

  ghost predicate IsSortOutcome(deps: Dependencies, outcome: SortOutcome) {
    match outcome
    case Ordered(order) => IsInputOrder(deps, order)
    case CyclicDependency(node) => OnCycle(deps, node)
  }

  ghost function Inputs(cls: ManagerClass, plan: BucketPlan, order: SortOutcome): Generated<Combination>
    requires IsSortOutcome(cls.DependsOn(), order)
  {
    match order
    case CyclicDependency(node) => Generated([], Some(CyclicInputs(node)))
    case Ordered(names) =>
      assert Declared(SlotsOf(cls, plan), names) by {
        assert forall n :: n in names <==> n in cls.DependsOn();
      }
      Enumerate(SlotsOf(cls, plan), names, map[])
  }

  ghost function Materialize(cls: ManagerClass, plan: BucketPlan, order: SortOutcome): Outcome<seq<Combination>>
    requires IsSortOutcome(cls.DependsOn(), order)
  {
    var run := Inputs(cls, plan, order);
    if run.failure.Some? then Raised(run.failure.value) else Ok(Finish(cls, plan, run.emitted))
  }

  ghost function Contents(cls: ManagerClass, bucket: Bucket, order: SortOutcome): Outcome<seq<Combination>>
    requires IsSortOutcome(cls.DependsOn(), order)
  {
    if bucket.data.Some? then Ok(bucket.data.value) else Materialize(cls, bucket.plan, order)
  }

  // ----- the preview

  datatype CountLabel = Exactly(n: nat) | AtLeast(n: nat)

  datatype Preview = Preview(combinations: seq<Combination>, count: CountLabel, hasMore: bool)

  function WholePreview(all: seq<Combination>, limit: nat): Preview {
    Preview(Take(all, limit), Exactly(|all|), |all| > limit)
  }

  /** `list(islice(generator, n))`: nothing past the n-th element is pulled. */
  function IsliceList<T>(g: Generated<T>, n: nat): Outcome<seq<T>> {
    if n <= |g.emitted| then Ok(g.emitted[..n])
    else if g.failure.Some? then Raised(g.failure.value)
    else Ok(g.emitted)
  }

  /** The generator behind the preview of an unsorted, uncached bucket. */
  function PreviewStream(cls: ManagerClass, plan: BucketPlan, inputs: Generated<Combination>): Generated<Combination> {
    if FiltersProperties(cls, plan) || plan.allowed.Some? then
      Generated(Map(cls.identify, Filter(Passing(cls, plan), inputs.emitted)), inputs.failure)
    else inputs
  }

  function LazyPreview(stream: Generated<Combination>, limit: nat): Outcome<Preview> {
    match IsliceList(stream, limit + 1)
    case Raised(f) => Raised(f)
    case Ok(pulled) =>
      if |pulled| > limit then Ok(Preview(pulled[..limit], AtLeast(limit), true))
      else Ok(Preview(pulled, Exactly(|pulled|), false))
  }

  /** `_uses_static_iterator_possible_values` */
  predicate UsesOneShotInputs(cls: ManagerClass) {
    exists n :: n in cls.fields && n in cls.oneShotInputs
  }

  /** Configurations in which the preview materializes the whole bucket. */
  predicate Eager(cls: ManagerClass, plan: BucketPlan) {
    plan.sortKey.Some? || plan.reverse || UsesOneShotInputs(cls)
  }

  ghost function PreviewOf(cls: ManagerClass, bucket: Bucket, limit: nat, order: SortOutcome): Outcome<Preview>
    requires IsSortOutcome(cls.DependsOn(), order)
  {
    if bucket.data.Some? then Ok(WholePreview(bucket.data.value, limit))
    else if Eager(cls, bucket.plan) then
      match Materialize(cls, bucket.plan, order)
      case Ok(all) => Ok(WholePreview(all, limit))
      case Raised(f) => Raised(f)
    else LazyPreview(PreviewStream(cls, bucket.plan, Inputs(cls, bucket.plan, order)), limit)
  }

  /** An unsorted, unreversed bucket materializes exactly what its preview generator emits. */
  lemma StreamIsFinish(cls: ManagerClass, plan: BucketPlan, inputs: Generated<Combination>)
    requires plan.sortKey.None? && !plan.reverse
    ensures PreviewStream(cls, plan, inputs).emitted == Finish(cls, plan, inputs.emitted)
    ensures PreviewStream(cls, plan, inputs).failure == inputs.failure
  {
    PassingInStages(cls, plan, inputs.emitted);
  }

  ghost predicate ShowsStartOf(preview: Preview, combos: seq<Combination>, limit: nat) {
    && preview.combinations == Take(combos, limit)
    && preview.hasMore == (|combos| > limit)
    && (!preview.hasMore ==> preview.count == Exactly(|combos|))
    && (preview.count.AtLeast? ==> preview.count.n < |combos|)
  }

  lemma LazyShowsStart(stream: Generated<Combination>, limit: nat)
    ensures stream.failure.None?
            ==> LazyPreview(stream, limit).Ok? && ShowsStartOf(LazyPreview(stream, limit).value, stream.emitted, limit)
    ensures stream.failure.Some?
            ==> LazyPreview(stream, limit) == Raised(stream.failure.value)
                || (LazyPreview(stream, limit).Ok? && LazyPreview(stream, limit).value.hasMore)
  {
  }

  /** The lazy preview pulls one entry more than it shows, and raises what the generator raises in front of that
      one. */
  lemma LazyPreviewRaisesExactly(stream: Generated<Combination>, limit: nat)
    ensures LazyPreview(stream, limit).Raised? <==> stream.failure.Some? && |stream.emitted| <= limit
    ensures LazyPreview(stream, limit).Raised? ==> stream.failure == Some(LazyPreview(stream, limit).failure)
  {
    assert LazyPreview(stream, limit).Raised? <==> IsliceList(stream, limit + 1).Raised?;
  }

  /** In every configuration the preview is the first `limit` entries of the materialized bucket,
      it reports overflow iff there are more, and without overflow its count is exact. When
      materializing raises, the preview raises the same or has already seen enough. */
  lemma PreviewAgrees(cls: ManagerClass, bucket: Bucket, limit: nat, order: SortOutcome)
    requires IsSortOutcome(cls.DependsOn(), order)
    ensures var all, preview := Contents(cls, bucket, order), PreviewOf(cls, bucket, limit, order);
            match all
            case Ok(combos) => preview.Ok? && ShowsStartOf(preview.value, combos, limit)
            case Raised(f) => preview == Raised(f) || (preview.Ok? && preview.value.hasMore)
  {
    var plan := bucket.plan;
    if bucket.data.None? && !Eager(cls, plan) {
      var inputs := Inputs(cls, plan, order);
      StreamIsFinish(cls, plan, inputs);
      LazyShowsStart(PreviewStream(cls, plan, inputs), limit);
    }
  }

  // ----- the bucket object

  class CalculationBucket {
    const cls: ManagerClass
    const plan: BucketPlan
    var data: Option<seq<Combination>>

    constructor (cls: ManagerClass, bucket: Bucket)
      ensures this.cls == cls && this.plan == bucket.plan && this.data == bucket.data
    {
      this.cls, this.plan, this.data := cls, bucket.plan, bucket.data;
    }

    /** The inner loops of `_filter_prop_combinations`. */
    method KeepsManager(filters: Definitions, excludes: Definitions, manager: Combination) returns (keep: bool)
      ensures keep <==> PassesProperties(cls, filters, excludes, manager)
    {
      for i := 0 to |filters|
        invariant forall k :: 0 <= k < i && PropertyEvaluated(cls, filters[k]) ==>
                    PropertyMatches(cls, filters[k], manager)
      {
        if PropertyEvaluated(cls, filters[i]) && !PropertyMatches(cls, filters[i], manager) {
          return false;
        }
      }
      for i := 0 to |excludes|
        invariant forall k :: 0 <= k < i ==> !PropertyMatches(cls, excludes[k], manager)
      {
        if PropertyMatches(cls, excludes[i], manager) {
          return false;
        }
      }
      return true;
    }

    /** `_filter_prop_combinations` */
    method FilterPropCombinations(managers: seq<Combination>) returns (kept: seq<Combination>)
      ensures kept == Filter(PropertyTest(cls, plan), managers)
    {
      var filters := Keep(AboutProperty(cls), plan.filters);
      var excludes := Keep(AboutProperty(cls), plan.excludes);
      if filters == [] && excludes == [] {
        FilterEverything(PropertyTest(cls, plan), managers);
        return managers;
      }
      kept := [];
      for m := 0 to |managers|
        invariant kept == Filter(PropertyTest(cls, plan), managers[..m])
      {
        var keep := KeepsManager(filters, excludes, managers[m]);
        FilterAppend(PropertyTest(cls, plan), managers[..m], [managers[m]]);
        assert managers[..m + 1] == managers[..m] + [managers[m]];
        if keep {
          kept := kept + [managers[m]];
        }
      }
      assert managers[..|managers|] == managers;
    }

    /** The input enumeration, in the order the topological sort arrives at. */
    method GenerateInputCombinations() returns (run: Generated<Combination>, ghost order: SortOutcome)
      requires cls.Valid()
      ensures IsSortOutcome(cls.DependsOn(), order) && run == Inputs(cls, plan, order)
    {
      var sorter := new TopologicalSorter(cls.names, cls.DependsOn());
      var outcome := sorter.TopologicalSortInputs();
      order := outcome;
      match outcome {
        case CyclicDependency(node) =>
          run := Generated([], Some(CyclicInputs(node)));
        case Ordered(names) =>
          assert forall n :: n in names <==> n in cls.DependsOn();
          var enumerator := new InputEnumerator(SlotsOf(cls, plan), names);
          var failure := enumerator.Helper(0);
          assert names[0..] == names;
          run := Generated(enumerator.yielded, failure);
      }
    }

    method GenerateCombinations() returns (result: Outcome<seq<Combination>>, ghost order: SortOutcome)
      requires cls.Valid()
      modifies this`data
      ensures old(data).Some? ==> result == Ok(old(data).value)
      ensures old(data).None? ==> IsSortOutcome(cls.DependsOn(), order) && result == Materialize(cls, plan, order)
      ensures data == if result.Ok? then Some(result.value) else old(data)
    {
      order := CyclicDependency("");
      if data.Some? {
        return Ok(data.value), order;
      }
      var run;
      run, order := GenerateInputCombinations();
      if run.failure.Some? {
        return Raised(run.failure.value), order;
      }
      var managers := run.emitted;
      var current := run.emitted;
      if plan.allowed.Some? {
        managers := Filter(FenceTest(cls, plan), run.emitted);
        current := Map(cls.identify, managers);
      } else {
        FilterEverything(FenceTest(cls, plan), run.emitted);
      }
      var identifications;
      if NeedsManagerAccess(cls, plan) {
        managers := FilterPropCombinations(managers);
        if plan.sortKey.Some? {
          managers := Sort(ManagerOrder(cls, plan.sortKey.value), managers);
        }
        identifications := Map(cls.identify, managers);
      } else {
        identifications := current;
        if plan.sortKey.Some? {
          identifications := Sort(InputKeyOrder(cls, plan.sortKey.value), identifications);
        }
      }
      if plan.reverse {
        identifications := Reversed(identifications);
      }
      data := Some(identifications);
      return Ok(identifications), order;
    }

    /** `_str_combinations_preview`: only the eager branches touch the cache. */
    method StrCombinationsPreview(limit: nat) returns (result: Outcome<Preview>, ghost order: SortOutcome)
      requires cls.Valid()
      modifies this`data
      ensures old(data).Some? ==> result == Ok(WholePreview(old(data).value, limit))
      ensures old(data).None? ==> IsSortOutcome(cls.DependsOn(), order)
                                  && result == PreviewOf(cls, Bucket(plan, None), limit, order)
      ensures plan.sortKey.None? && !plan.reverse && (forall n :: n in cls.fields ==> n !in cls.oneShotInputs)
              ==> data == old(data)
    {
      order := CyclicDependency("");
      if data.Some? {
        return Ok(WholePreview(data.value, limit)), order;
      }
      if plan.sortKey.Some? || plan.reverse || UsesOneShotInputs(cls) {
        var all;
        all, order := GenerateCombinations();
        match all {
          case Ok(combos) => result := Ok(WholePreview(combos, limit));
          case Raised(f) => result := Raised(f);
        }
        return;
      }
      var run;
      run, order := GenerateInputCombinations();
      result := LazyPreview(PreviewStream(cls, plan, run), limit);
    }
  }
}
