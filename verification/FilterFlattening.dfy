/** `normalize_filter_input`: nested relation filters become flat filter and exclude lookups. */
module FilterFlattening {
  import opened Sequences
  import opened Dicts

  /** A filter input value: anything that is not a mapping, or a mapping. */
  datatype Input = Scalar(value: int) | Mapping(items: Dict<Input>)

  type TypeName = string

  /** Metadata of one attribute of a manager type. */
  datatype Attribute =
    | Plain
    | Direct(lookup: string, target: TypeName)
    | Collection(lookup: string, target: TypeName)
    | OtherRelation

  /** Types without metadata are missing; `cast` is `normalize_id_filter_value`. */
  datatype Schema = Schema(types: map<TypeName, map<string, Attribute>>, cast: (TypeName, string, Input) -> Input)

  datatype Plan = Plan(filter: Dict<Input>, exclude: Dict<Input>)

  /** The attribute of a key whose value is a mapping; everything else is passed through. */
  function AttributeOf(schema: Schema, t: TypeName, key: string): Attribute {
    if t in schema.types && key in schema.types[t] then schema.types[t][key] else Plain
  }

  /** What a key is stored as when it is not flattened. */
  function StoredValue(schema: Schema, t: TypeName, key: string, value: Input): Input {
    if t !in schema.types then value
    else if key !in schema.types[t] || value.Scalar? then schema.cast(t, key, value)
    else value
  }

  /** A mapping is larger than the values inside it. */
  lemma Inside(items: Dict<Input>)
    ensures forall i :: 0 <= i < |items| ==> (items decreases to items[i].1)
  {
    forall i | 0 <= i < |items| ensures (items decreases to items[i].1) {
      var item := items[i];
      assert (items decreases to item);
      assert (item decreases to item.1);
    }
  }

  function Prefixed(lookup: string, d: Dict<Input>): Dict<Input> {
    if d == [] then [] else [(lookup + "__" + d[0].0, d[0].1)] + Prefixed(lookup, d[1..])
  }

  /** The mapping under an operator of a collection filter, if it is one. */
  function Operand(items: Dict<Input>, operator: string): (r: Option<Input>)
    ensures r.Some? ==> r.value.Mapping? && (items decreases to r.value)
  {
    if items == [] then None
    else if items[0].0 == operator then
      Inside(items);
      if items[0].1.Mapping? then Some(items[0].1) else None
    else Operand(items[1..], operator)
  }

  // ----- the normalizer

  function Extend(plan: Plan, lookup: string, nested: Plan, inverted: bool): Plan {
    if inverted then
      Plan(Merge(plan.filter, Prefixed(lookup, nested.exclude)), Merge(plan.exclude, Prefixed(lookup, nested.filter)))
    else
      Plan(Merge(plan.filter, Prefixed(lookup, nested.filter)), Merge(plan.exclude, Prefixed(lookup, nested.exclude)))
  }

  function NormalizeFrom(schema: Schema, t: TypeName, plan: Plan, items: Dict<Input>): Plan
    decreases items
  {
    if items == [] then plan
    else
      Inside(items);
      NormalizeFrom(schema, t, AddItem(schema, t, plan, items[0].0, items[0].1), items[1..])
  }

  function AddItem(schema: Schema, t: TypeName, plan: Plan, key: string, value: Input): Plan
    decreases value
  {
    if value.Scalar? then Store(schema, t, plan, key, value)
    else match AttributeOf(schema, t, key)
      case Direct(lookup, target) => AddNested(schema, plan, lookup, target, value, false)
      case Collection(lookup, target) =>
        var any, none := Operand(value.items, "any"), Operand(value.items, "none");
        var withAny := if any.Some? then AddNested(schema, plan, lookup, target, any.value, false) else plan;
        if none.Some? then AddNested(schema, withAny, lookup, target, none.value, true) else withAny
      case Plain => Store(schema, t, plan, key, value)
      case OtherRelation => Store(schema, t, plan, key, value)
  }

  function AddNested(schema: Schema, plan: Plan, lookup: string, target: TypeName, nested: Input, inverted: bool): Plan
    requires nested.Mapping?
    decreases nested, 0
  {
    Extend(plan, lookup, NormalizeFrom(schema, target, Plan([], []), nested.items), inverted)
  }

  function Store(schema: Schema, t: TypeName, plan: Plan, key: string, value: Input): Plan {
    plan.(filter := Put(plan.filter, key, StoredValue(schema, t, key, value)))
  }

  /** The specification of the normalizer. */
  function Normalize(schema: Schema, t: TypeName, items: Dict<Input>): Plan {
    NormalizeFrom(schema, t, Plan([], []), items)
  }

  /** The loop that fills one dictionary from the items of another. */
  method AddPrefixed(d: Dict<Input>, lookup: string, nested: Dict<Input>) returns (r: Dict<Input>)
    ensures r == Merge(d, Prefixed(lookup, nested))
  {
    r := d;
    var i := 0;
    while i < |nested|
      invariant i <= |nested|
      invariant Merge(d, Prefixed(lookup, nested)) == Merge(r, Prefixed(lookup, nested[i..]))
    {
      assert nested[i..][1..] == nested[i + 1..];
      assert Prefixed(lookup, nested[i..])[1..] == Prefixed(lookup, nested[i + 1..]);
      r := Put(r, lookup + "__" + nested[i].0, nested[i].1);
      i := i + 1;
    }
  }

  method ExtendPlan(plan: Plan, lookup: string, nested: Plan, inverted: bool) returns (r: Plan)
    ensures r == Extend(plan, lookup, nested, inverted)
  {
    var filters, excludes;
    if inverted {
      excludes := AddPrefixed(plan.exclude, lookup, nested.filter);
      filters := AddPrefixed(plan.filter, lookup, nested.exclude);
    } else {
      filters := AddPrefixed(plan.filter, lookup, nested.filter);
      excludes := AddPrefixed(plan.exclude, lookup, nested.exclude);
    }
    r := Plan(filters, excludes);
  }

  /** `normalize_filter_input` */
  method NormalizeFilterInput(schema: Schema, t: TypeName, items: Dict<Input>) returns (plan: Plan)
    ensures plan == Normalize(schema, t, items)
    decreases items
  {
    Inside(items);
    plan := Plan([], []);
    var i := 0;
    while i < |items|
      invariant i <= |items|
      invariant Normalize(schema, t, items) == NormalizeFrom(schema, t, plan, items[i..])
    {
      var (key, value) := items[i];
      assert items[i..][0] == items[i] && items[i..][1..] == items[i + 1..];
      ghost var before := plan;
      var attribute := AttributeOf(schema, t, key);
      if value.Scalar? || attribute.Plain? || attribute.OtherRelation? {
        plan := Store(schema, t, plan, key, value);
      } else if attribute.Direct? {
        var nested := NormalizeFilterInput(schema, attribute.target, value.items);
        plan := ExtendPlan(plan, attribute.lookup, nested, false);
      } else {
        var any, none := Operand(value.items, "any"), Operand(value.items, "none");
        if any.Some? {
          var nested := NormalizeFilterInput(schema, attribute.target, any.value.items);
          plan := ExtendPlan(plan, attribute.lookup, nested, false);
        }
        if none.Some? {
          var nested := NormalizeFilterInput(schema, attribute.target, none.value.items);
          plan := ExtendPlan(plan, attribute.lookup, nested, true);
        }
      }
      assert plan == AddItem(schema, t, before, key, value);
      i := i + 1;
    }
  }

  // ----- the leaves of a nested filter

  /** A condition, the flat lookup it belongs under, and the number of `none` operators above it. */
  datatype Leaf = Leaf(lookup: string, value: Input, nones: nat)

  function Below(lookup: string, leaves: seq<Leaf>, nones: nat): seq<Leaf> {
    if leaves == [] then []
    else [Leaf(lookup + "__" + leaves[0].lookup, leaves[0].value, leaves[0].nones + nones)]
         + Below(lookup, leaves[1..], nones)
  }

  function Leaves(schema: Schema, t: TypeName, items: Dict<Input>): seq<Leaf>
    decreases items
  {
    if items == [] then []
    else
      Inside(items);
      LeavesOf(schema, t, items[0].0, items[0].1) + Leaves(schema, t, items[1..])
  }

  function LeavesOf(schema: Schema, t: TypeName, key: string, value: Input): seq<Leaf>
    decreases value
  {
    if value.Scalar? then [Leaf(key, StoredValue(schema, t, key, value), 0)]
    else match AttributeOf(schema, t, key)
      case Direct(lookup, target) => LeavesBelow(schema, lookup, target, value, 0)
      case Collection(lookup, target) =>
        var any, none := Operand(value.items, "any"), Operand(value.items, "none");
        (if any.Some? then LeavesBelow(schema, lookup, target, any.value, 0) else [])
        + (if none.Some? then LeavesBelow(schema, lookup, target, none.value, 1) else [])
      case Plain => [Leaf(key, StoredValue(schema, t, key, value), 0)]
      case OtherRelation => [Leaf(key, StoredValue(schema, t, key, value), 0)]
  }

  function LeavesBelow(schema: Schema, lookup: string, target: TypeName, nested: Input, nones: nat): seq<Leaf>
    requires nested.Mapping?
    decreases nested, 0
  {
    Below(lookup, Leaves(schema, target, nested.items), nones)
  }

  predicate Excluded(leaf: Leaf) { leaf.nones % 2 == 1 }

  /** The value of the last leaf on a side with the given lookup. */
  function LastOn(excluded: bool, leaves: seq<Leaf>, lookup: string): Option<Input> {
    if leaves == [] then None
    else
      var last := leaves[|leaves| - 1];
      if Excluded(last) == excluded && last.lookup == lookup then Some(last.value)
      else LastOn(excluded, leaves[..|leaves| - 1], lookup)
  }

  function Or(first: Option<Input>, second: Option<Input>): Option<Input> {
    if first.Some? then first else second
  }

  // ----- the plan holds exactly the leaves

  lemma {:induction false} LastOnAppend(excluded: bool, a: seq<Leaf>, b: seq<Leaf>, lookup: string)
    ensures LastOn(excluded, a + b, lookup) == Or(LastOn(excluded, b, lookup), LastOn(excluded, a, lookup))
  {
    if b == [] {
      assert a + b == a;
    } else {
      assert (a + b)[..|a + b| - 1] == a + b[..|b| - 1];
      LastOnAppend(excluded, a, b[..|b| - 1], lookup);
    }
  }

  /** Asking below a relation: strip the prefix, and look on the other side under `none`. */
  lemma {:induction false} LastOnBelow(excluded: bool, relation: string, leaves: seq<Leaf>, nones: nat, lookup: string)
    ensures LastOn(excluded, Below(relation, leaves, nones), lookup)
         == if |relation + "__"| <= |lookup| && lookup[..|relation + "__"|] == relation + "__"
            then LastOn(excluded != (nones % 2 == 1), leaves, lookup[|relation + "__"|..]) else None
    decreases |leaves|
  {
    if leaves != [] {
      var last := leaves[|leaves| - 1];
      var rest := leaves[..|leaves| - 1];
      LastOnBelow(excluded, relation, rest, nones, lookup);
      BelowSnoc(relation, rest, last, nones);
      assert leaves == rest + [last];
      var lifted := Leaf(relation + "__" + last.lookup, last.value, last.nones + nones);
      assert Below(relation, leaves, nones)[..|leaves| - 1] == Below(relation, rest, nones);
      SamePrefix(relation + "__", last.lookup, lookup);
    }
  }

  lemma SamePrefix(prefix: string, key: string, lookup: string)
    ensures prefix + key == lookup
       <==> |prefix| <= |lookup| && lookup[..|prefix|] == prefix && lookup[|prefix|..] == key
  {
    if |prefix| <= |lookup| && lookup[..|prefix|] == prefix && lookup[|prefix|..] == key {
      assert lookup == lookup[..|prefix|] + lookup[|prefix|..];
    }
  }

  lemma {:induction false} BelowSnoc(relation: string, leaves: seq<Leaf>, last: Leaf, nones: nat)
    ensures Below(relation, leaves + [last], nones)
         == Below(relation, leaves, nones) + [Leaf(relation + "__" + last.lookup, last.value, last.nones + nones)]
    ensures |Below(relation, leaves, nones)| == |leaves|
  {
    if leaves == [] {
      assert leaves + [last] == [last] && [last][1..] == [];
    } else {
      assert (leaves + [last])[1..] == leaves[1..] + [last];
      BelowSnoc(relation, leaves[1..], last, nones);
    }
  }

  lemma {:induction false} GetPrefixed(relation: string, d: Dict<Input>, lookup: string)
    ensures Get(Prefixed(relation, d), lookup)
         == if |relation + "__"| <= |lookup| && lookup[..|relation + "__"|] == relation + "__"
            then Get(d, lookup[|relation + "__"|..]) else None
  {
    if d != [] {
      GetPrefixed(relation, d[1..], lookup);
      SamePrefix(relation + "__", d[0].0, lookup);
    }
  }

  lemma {:induction false} PrefixedIsDict(relation: string, d: Dict<Input>)
    requires IsDict(d)
    ensures IsDict(Prefixed(relation, d)) && |Prefixed(relation, d)| == |d|
    ensures forall i :: 0 <= i < |d| ==> Prefixed(relation, d)[i] == (relation + "__" + d[i].0, d[i].1)
  {
    if d != [] {
      PrefixedIsDict(relation, d[1..]);
      assert forall i :: 0 < i < |d| ==> d[i] == d[1..][i - 1];
      forall i, j | 0 <= i < j < |d| ensures Prefixed(relation, d)[i].0 != Prefixed(relation, d)[j].0 {
        SamePrefix(relation + "__", d[i].0, Prefixed(relation, d)[j].0);
        SamePrefix(relation + "__", d[j].0, Prefixed(relation, d)[j].0);
      }
    }
  }

  ghost predicate ValidPlan(plan: Plan) { IsDict(plan.filter) && IsDict(plan.exclude) }

  /** The plan answers every lookup with the last leaf written there. */
  ghost predicate Holds(plan: Plan, leaves: seq<Leaf>) {
    && ValidPlan(plan)
    && (forall k :: Get(plan.filter, k) == LastOn(false, leaves, k))
    && (forall k :: Get(plan.exclude, k) == LastOn(true, leaves, k))
  }

  lemma ExtendHolds(plan: Plan, leaves: seq<Leaf>, lookup: string, nested: Plan, below: seq<Leaf>, inverted: bool)
    requires Holds(plan, leaves) && Holds(nested, below)
    ensures Holds(Extend(plan, lookup, nested, inverted), leaves + Below(lookup, below, if inverted then 1 else 0))
  {
    var nones := if inverted then 1 else 0;
    var (f, e) := if inverted then (nested.exclude, nested.filter) else (nested.filter, nested.exclude);
    PrefixedIsDict(lookup, f);
    PrefixedIsDict(lookup, e);
    MergeKeeps(plan.filter, Prefixed(lookup, f));
    MergeKeeps(plan.exclude, Prefixed(lookup, e));
    var extended := Extend(plan, lookup, nested, inverted);
    forall k
      ensures Get(extended.filter, k) == LastOn(false, leaves + Below(lookup, below, nones), k)
      ensures Get(extended.exclude, k) == LastOn(true, leaves + Below(lookup, below, nones), k)
    {
      GetMerge(plan.filter, Prefixed(lookup, f), k);
      GetMerge(plan.exclude, Prefixed(lookup, e), k);
      GetPrefixed(lookup, f, k);
      GetPrefixed(lookup, e, k);
      LastOnAppend(false, leaves, Below(lookup, below, nones), k);
      LastOnAppend(true, leaves, Below(lookup, below, nones), k);
      LastOnBelow(false, lookup, below, nones, k);
      LastOnBelow(true, lookup, below, nones, k);
    }
  }

  lemma PutHolds(plan: Plan, leaves: seq<Leaf>, key: string, value: Input)
    requires Holds(plan, leaves)
    ensures Holds(plan.(filter := Put(plan.filter, key, value)), leaves + [Leaf(key, value, 0)])
  {
    PutKeeps(plan.filter, key, value);
    var longer := leaves + [Leaf(key, value, 0)];
    assert longer[..|longer| - 1] == leaves;
    forall k ensures Get(Put(plan.filter, key, value), k) == LastOn(false, longer, k) {
      GetPut(plan.filter, key, value, k);
    }
  }

  lemma {:induction false} NormalizeFromHolds(schema: Schema, t: TypeName, plan: Plan, items: Dict<Input>,
                                              leaves: seq<Leaf>)
    requires Holds(plan, leaves)
    ensures Holds(NormalizeFrom(schema, t, plan, items), leaves + Leaves(schema, t, items))
    decreases items
  {
    if items == [] {
      assert leaves + [] == leaves;
    } else {
      Inside(items);
      var (key, value) := items[0];
      var here, tail := LeavesOf(schema, t, key, value), Leaves(schema, t, items[1..]);
      AddItemHolds(schema, t, plan, key, value, leaves);
      NormalizeFromHolds(schema, t, AddItem(schema, t, plan, key, value), items[1..], leaves + here);
      assert leaves + here + tail == leaves + (here + tail);
    }
  }

  lemma {:induction false} AddItemHolds(schema: Schema, t: TypeName, plan: Plan, key: string, value: Input,
                                        leaves: seq<Leaf>)
    requires Holds(plan, leaves)
    ensures Holds(AddItem(schema, t, plan, key, value), leaves + LeavesOf(schema, t, key, value))
    decreases value
  {
    PutHolds(plan, leaves, key, StoredValue(schema, t, key, value));
    if value.Mapping? {
      match AttributeOf(schema, t, key) {
        case Direct(lookup, target) =>
          AddNestedHolds(schema, plan, lookup, target, value, false, leaves);
        case Collection(lookup, target) =>
          var any, none := Operand(value.items, "any"), Operand(value.items, "none");
          var here, next := [], plan;
          assert leaves + here == leaves;
          if any.Some? {
            AddNestedHolds(schema, plan, lookup, target, any.value, false, leaves);
            here := LeavesBelow(schema, lookup, target, any.value, 0);
            next := AddNested(schema, plan, lookup, target, any.value, false);
          }
          if none.Some? {
            AddNestedHolds(schema, next, lookup, target, none.value, true, leaves + here);
            assert leaves + here + LeavesBelow(schema, lookup, target, none.value, 1)
                == leaves + (here + LeavesBelow(schema, lookup, target, none.value, 1));
          } else {
            assert here + [] == here;
          }
        case Plain =>
        case OtherRelation =>
      }
    }
  }

  lemma {:induction false} AddNestedHolds(schema: Schema, plan: Plan, lookup: string, target: TypeName, nested: Input,
                                          inverted: bool, leaves: seq<Leaf>)
    requires nested.Mapping? && Holds(plan, leaves)
    ensures Holds(AddNested(schema, plan, lookup, target, nested, inverted),
                  leaves + LeavesBelow(schema, lookup, target, nested, if inverted then 1 else 0))
    decreases nested, 0
  {
    var items := nested.items;
    assert Holds(Plan([], []), []);
    NormalizeFromHolds(schema, target, Plan([], []), items, []);
    assert [] + Leaves(schema, target, items) == Leaves(schema, target, items);
    ExtendHolds(plan, leaves, lookup, Normalize(schema, target, items), Leaves(schema, target, items), inverted);
  }

  /** Every lookup of the filter and of the exclude carries the last leaf written there; a leaf is on
      the exclude side iff an odd number of `none` operators lie above it. */
  lemma FlatPlanHoldsTheLeaves(schema: Schema, t: TypeName, items: Dict<Input>)
    ensures Holds(Normalize(schema, t, items), Leaves(schema, t, items))
  {
    assert Holds(Plan([], []), []);
    NormalizeFromHolds(schema, t, Plan([], []), items, []);
    assert [] + Leaves(schema, t, items) == Leaves(schema, t, items);
  }

  lemma {:induction false} LastOnPresent(leaves: seq<Leaf>, i: nat)
    requires i < |leaves|
    ensures LastOn(Excluded(leaves[i]), leaves, leaves[i].lookup).Some?
  {
    if i < |leaves| - 1 {
      LastOnPresent(leaves[..|leaves| - 1], i);
    }
  }

  // ----- the conditions of a nested filter, as they are written

  /** The item's dictionary key; in a dictionary no earlier item has it. */
  ghost predicate KeyAt(items: Dict<Input>, i: int, key: string) {
    0 <= i < |items| && items[i].0 == key && forall j :: 0 <= j < i ==> items[j].0 != key
  }

  /** The nested filter contains this condition. */
  ghost predicate Asks(schema: Schema, t: TypeName, items: Dict<Input>, leaf: Leaf)
    decreases items
  {
    Inside(items);
    exists i :: 0 <= i < |items| && ItemAsks(schema, t, items[i].0, items[i].1, leaf)
  }

  /** A mapping under a direct relation contains its conditions, and one under a collection relation those
      of the mappings that it has under `any` and, one `none` deeper, under `none`. Anything else is one
      condition: cast if the type has metadata and it is no mapping or the key is unknown, and else as it
      is. */
  ghost predicate ItemAsks(schema: Schema, t: TypeName, key: string, value: Input, leaf: Leaf)
    decreases value
  {
    var known := t in schema.types && key in schema.types[t];
    if known && value.Mapping? && schema.types[t][key].Direct? then
      var relation := schema.types[t][key];
      AsksBelow(schema, relation.lookup, relation.target, value, 0, leaf)
    else if known && value.Mapping? && schema.types[t][key].Collection? then
      var relation, items := schema.types[t][key], value.items;
      Inside(items);
      exists i :: 0 <= i < |items| && items[i].1.Mapping?
                  && ((KeyAt(items, i, "any")
                       && AsksBelow(schema, relation.lookup, relation.target, items[i].1, 0, leaf))
                      || (KeyAt(items, i, "none")
                          && AsksBelow(schema, relation.lookup, relation.target, items[i].1, 1, leaf)))
    else
      leaf == Leaf(key, if t in schema.types && (!known || value.Scalar?) then schema.cast(t, key, value) else value, 0)
  }

  ghost predicate AsksBelow(schema: Schema, lookup: string, target: TypeName, nested: Input, nones: nat, leaf: Leaf)
    requires nested.Mapping?
    decreases nested, 0
  {
    exists sub :: Asks(schema, target, nested.items, sub)
                  && leaf == Leaf(lookup + "__" + sub.lookup, sub.value, sub.nones + nones)
  }

  lemma {:induction false} BelowMembers(lookup: string, leaves: seq<Leaf>, nones: nat, leaf: Leaf)
    ensures leaf in Below(lookup, leaves, nones)
       <==> exists sub :: sub in leaves && leaf == Leaf(lookup + "__" + sub.lookup, sub.value, sub.nones + nones)
  {
    if leaves != [] {
      BelowMembers(lookup, leaves[1..], nones, leaf);
      var first := Leaf(lookup + "__" + leaves[0].lookup, leaves[0].value, leaves[0].nones + nones);
      assert leaf in Below(lookup, leaves, nones) <==> leaf == first || leaf in Below(lookup, leaves[1..], nones);
      assert leaves == [leaves[0]] + leaves[1..];
    }
  }

  /** `Operand` finds the mapping under a key wherever it stands. */
  lemma {:induction false} OperandAt(items: Dict<Input>, operator: string)
    ensures match Operand(items, operator)
            case None => forall i :: KeyAt(items, i, operator) ==> !items[i].1.Mapping?
            case Some(m) => exists i :: KeyAt(items, i, operator) && items[i].1 == m
  {
    if items != [] {
      OperandAt(items[1..], operator);
      if items[0].0 == operator {
        assert KeyAt(items, 0, operator);
      } else {
        forall i ensures KeyAt(items, i, operator) <==> i > 0 && KeyAt(items[1..], i - 1, operator) {
          KeyAtTail(items, i, operator);
        }
        if i :| KeyAt(items[1..], i, operator) && Operand(items[1..], operator) == Some(items[1..][i].1) {
          assert KeyAt(items, i + 1, operator);
        }
      }
    }
  }

  lemma KeyAtTail(items: Dict<Input>, i: int, key: string)
    requires items != [] && items[0].0 != key
    ensures KeyAt(items, i, key) <==> i > 0 && KeyAt(items[1..], i - 1, key)
  {
    assert forall j :: 0 < j < |items| ==> items[j] == items[1..][j - 1];
  }

  lemma OneKey(items: Dict<Input>, i: int, j: int, key: string)
    requires KeyAt(items, i, key) && KeyAt(items, j, key)
    ensures i == j
  {
  }

  /** The leaves are the conditions of the nested filter, no more and no fewer. */
  lemma {:induction false} LeavesAreAsked(schema: Schema, t: TypeName, items: Dict<Input>, leaf: Leaf)
    ensures leaf in Leaves(schema, t, items) <==> Asks(schema, t, items, leaf)
    decreases items
  {
    Inside(items);
    if items != [] {
      var here, tail := LeavesOf(schema, t, items[0].0, items[0].1), items[1..];
      LeavesOfAreAsked(schema, t, items[0].0, items[0].1, leaf);
      LeavesAreAsked(schema, t, tail, leaf);
      assert leaf in Leaves(schema, t, items) <==> leaf in here || leaf in Leaves(schema, t, tail);
      if i :| 0 <= i < |tail| && ItemAsks(schema, t, tail[i].0, tail[i].1, leaf) {
        assert tail[i] == items[i + 1];
      }
      if i :| 0 <= i < |items| && ItemAsks(schema, t, items[i].0, items[i].1, leaf) {
        assert i > 0 ==> items[i] == tail[i - 1];
      }
    }
  }

  lemma {:induction false} LeavesOfAreAsked(schema: Schema, t: TypeName, key: string, value: Input, leaf: Leaf)
    ensures leaf in LeavesOf(schema, t, key, value) <==> ItemAsks(schema, t, key, value, leaf)
    decreases value
  {
    if value.Mapping? {
      match AttributeOf(schema, t, key) {
        case Direct(lookup, target) => LeavesBelowAreAsked(schema, lookup, target, value, 0, leaf);
        case Collection(lookup, target) => OperandsAreAsked(schema, t, key, value, leaf);
        case Plain =>
        case OtherRelation =>
      }
    }
  }

  lemma {:induction false} OperandsAreAsked(schema: Schema, t: TypeName, key: string, value: Input, leaf: Leaf)
    requires value.Mapping? && AttributeOf(schema, t, key).Collection?
    ensures leaf in LeavesOf(schema, t, key, value) <==> ItemAsks(schema, t, key, value, leaf)
    decreases value, 0
  {
    var relation, items := AttributeOf(schema, t, key), value.items;
    var any, none := Operand(items, "any"), Operand(items, "none");
    Inside(items);
    OperandAt(items, "any");
    OperandAt(items, "none");
    if any.Some? {
      LeavesBelowAreAsked(schema, relation.lookup, relation.target, any.value, 0, leaf);
    }
    if none.Some? {
      LeavesBelowAreAsked(schema, relation.lookup, relation.target, none.value, 1, leaf);
    }
    forall i, j | KeyAt(items, i, "any") && KeyAt(items, j, "any") ensures i == j {
      OneKey(items, i, j, "any");
    }
    forall i, j | KeyAt(items, i, "none") && KeyAt(items, j, "none") ensures i == j {
      OneKey(items, i, j, "none");
    }
  }

  lemma {:induction false} LeavesBelowAreAsked(schema: Schema, lookup: string, target: TypeName, nested: Input,
                                               nones: nat, leaf: Leaf)
    requires nested.Mapping?
    ensures leaf in LeavesBelow(schema, lookup, target, nested, nones)
       <==> AsksBelow(schema, lookup, target, nested, nones, leaf)
    decreases nested, 0
  {
    BelowMembers(lookup, Leaves(schema, target, nested.items), nones, leaf);
    forall sub ensures sub in Leaves(schema, target, nested.items) <==> Asks(schema, target, nested.items, sub) {
      LeavesAreAsked(schema, target, nested.items, sub);
    }
  }

  // ----- nothing is lost, nothing is added

  /** Whatever else the nested filter asks for under this lookup on this side asks for the same value. */
  ghost predicate Undisputed(schema: Schema, t: TypeName, items: Dict<Input>, leaf: Leaf) {
    forall other :: Asks(schema, t, items, other) && other.lookup == leaf.lookup && other.nones % 2 == leaf.nones % 2
                    ==> other.value == leaf.value
  }

  /** No condition is lost: its lookup is in the filter, or in the exclude under an odd number of `none`
      operators, with its value unless conditions dispute it. */
  lemma NoLeafIsLost(schema: Schema, t: TypeName, items: Dict<Input>, leaf: Leaf)
    requires Asks(schema, t, items, leaf)
    ensures var plan := Normalize(schema, t, items);
            var side := if leaf.nones % 2 == 1 then plan.exclude else plan.filter;
            HasKey(side, leaf.lookup) && (Undisputed(schema, t, items, leaf) ==> (leaf.lookup, leaf.value) in side)
  {
    var leaves, plan := Leaves(schema, t, items), Normalize(schema, t, items);
    var side := if leaf.nones % 2 == 1 then plan.exclude else plan.filter;
    FlatPlanHoldsTheLeaves(schema, t, items);
    LeavesAreAsked(schema, t, items, leaf);
    var i :| 0 <= i < |leaves| && leaves[i] == leaf;
    LastOnPresent(leaves, i);
    GetFound(side, leaf.lookup);
    var other := LastOnIsLeaf(Excluded(leaf), leaves, leaf.lookup);
    LeavesAreAsked(schema, t, items, other);
  }

  /** Nothing is added: each item of the filter and of the exclude is a condition of the nested filter. */
  lemma NothingIsAdded(schema: Schema, t: TypeName, items: Dict<Input>, k: string, v: Input)
    ensures var plan := Normalize(schema, t, items);
            && ((k, v) in plan.filter ==> exists nones :: nones % 2 == 0 && Asks(schema, t, items, Leaf(k, v, nones)))
            && ((k, v) in plan.exclude ==> exists nones :: nones % 2 == 1 && Asks(schema, t, items, Leaf(k, v, nones)))
  {
    var leaves, plan := Leaves(schema, t, items), Normalize(schema, t, items);
    FlatPlanHoldsTheLeaves(schema, t, items);
    if (k, v) in plan.filter {
      GetItem(plan.filter, k, v);
      var leaf := LastOnIsLeaf(false, leaves, k);
      LeavesAreAsked(schema, t, items, leaf);
      assert leaf == Leaf(k, v, leaf.nones);
    }
    if (k, v) in plan.exclude {
      GetItem(plan.exclude, k, v);
      var leaf := LastOnIsLeaf(true, leaves, k);
      LeavesAreAsked(schema, t, items, leaf);
      assert leaf == Leaf(k, v, leaf.nones);
    }
  }

  lemma {:induction false} LeavesAppend(schema: Schema, t: TypeName, items: Dict<Input>, more: Dict<Input>)
    ensures Leaves(schema, t, items + more) == Leaves(schema, t, items) + Leaves(schema, t, more)
  {
    if items == [] {
      assert items + more == more;
    } else {
      assert (items + more)[1..] == items[1..] + more;
      LeavesAppend(schema, t, items[1..], more);
    }
  }

  /** Later items take the place of earlier ones: a condition that the later items do not dispute among
      themselves is in the plan with its value. */
  lemma LaterItemsWin(schema: Schema, t: TypeName, items: Dict<Input>, more: Dict<Input>, leaf: Leaf)
    requires Asks(schema, t, more, leaf) && Undisputed(schema, t, more, leaf)
    ensures var plan := Normalize(schema, t, items + more);
            (leaf.lookup, leaf.value) in if leaf.nones % 2 == 1 then plan.exclude else plan.filter
  {
    var leaves, later, plan := Leaves(schema, t, items), Leaves(schema, t, more), Normalize(schema, t, items + more);
    FlatPlanHoldsTheLeaves(schema, t, items + more);
    LeavesAppend(schema, t, items, more);
    LastOnAppend(Excluded(leaf), leaves, later, leaf.lookup);
    LeavesAreAsked(schema, t, more, leaf);
    var i :| 0 <= i < |later| && later[i] == leaf;
    LastOnPresent(later, i);
    var other := LastOnIsLeaf(Excluded(leaf), later, leaf.lookup);
    LeavesAreAsked(schema, t, more, other);
    GetFound(if leaf.nones % 2 == 1 then plan.exclude else plan.filter, leaf.lookup);
  }

  lemma {:induction false} LastOnIsLeaf(excluded: bool, leaves: seq<Leaf>, k: string) returns (leaf: Leaf)
    requires LastOn(excluded, leaves, k).Some?
    ensures leaf in leaves && leaf.lookup == k && Excluded(leaf) == excluded
    ensures LastOn(excluded, leaves, k) == Some(leaf.value)
  {
    var last := leaves[|leaves| - 1];
    leaf := last;
    if Excluded(last) != excluded || last.lookup != k {
      leaf := LastOnIsLeaf(excluded, leaves[..|leaves| - 1], k);
    }
  }

  // ----- what a direct nested filter means

  /** Records: whether a flat lookup holds of one, and the record a relation leads to. */
  datatype Records<!R> = Records(holds: (R, string, Input) -> bool, related: (R, string) -> R)

  /** A lookup through a relation asks the related record. */
  ghost predicate Traverses<R(!new)>(records: Records<R>) {
    forall r, relation, key, value ::
      records.holds(r, relation + "__" + key, value) == records.holds(records.related(r, relation), key, value)
  }

  /** Only direct relations are filtered through. */
  ghost predicate DirectOnly(schema: Schema, t: TypeName, items: Dict<Input>)
    decreases items
  {
    if items == [] then true
    else
      Inside(items);
      DirectItem(schema, t, items[0].0, items[0].1) && DirectOnly(schema, t, items[1..])
  }

  ghost predicate DirectItem(schema: Schema, t: TypeName, key: string, value: Input)
    decreases value
  {
    value.Mapping? ==>
      match AttributeOf(schema, t, key)
      case Collection(_, _) => false
      case Direct(_, target) => DirectOnly(schema, target, value.items)
      case Plain => true
      case OtherRelation => true
  }

  /** The nested filter, read as it is written. */
  ghost predicate NestedHolds<R(!new)>(records: Records<R>, schema: Schema, t: TypeName, items: Dict<Input>, r: R)
    decreases items
  {
    if items == [] then true
    else
      Inside(items);
      ItemHolds(records, schema, t, items[0].0, items[0].1, r) && NestedHolds(records, schema, t, items[1..], r)
  }

  ghost predicate ItemHolds<R(!new)>(records: Records<R>, schema: Schema, t: TypeName, key: string, value: Input, r: R)
    decreases value
  {
    if value.Mapping? && AttributeOf(schema, t, key).Direct? then
      var attribute := AttributeOf(schema, t, key);
      NestedHolds(records, schema, attribute.target, value.items, records.related(r, attribute.lookup))
    else records.holds(r, key, StoredValue(schema, t, key, value))
  }

  ghost predicate LeavesHold<R(!new)>(records: Records<R>, leaves: seq<Leaf>, r: R) {
    forall i :: 0 <= i < |leaves| ==> records.holds(r, leaves[i].lookup, leaves[i].value)
  }

  ghost predicate FlatHolds<R(!new)>(records: Records<R>, d: Dict<Input>, r: R) {
    forall i :: 0 <= i < |d| ==> records.holds(r, d[i].0, d[i].1)
  }

  /** Leaves with the same lookup ask for the same value. */
  ghost predicate Consistent(leaves: seq<Leaf>) {
    forall i, j :: 0 <= i < |leaves| && 0 <= j < |leaves| && leaves[i].lookup == leaves[j].lookup
                   ==> leaves[i].value == leaves[j].value
  }

  ghost predicate NoNones(leaves: seq<Leaf>) {
    forall i :: 0 <= i < |leaves| ==> leaves[i].nones == 0
  }

  lemma {:induction false} LeavesOfDirect<R(!new)>(records: Records<R>, schema: Schema, t: TypeName,
                                                   items: Dict<Input>, r: R)
    requires Traverses(records) && DirectOnly(schema, t, items)
    ensures LeavesHold(records, Leaves(schema, t, items), r) <==> NestedHolds(records, schema, t, items, r)
    ensures NoNones(Leaves(schema, t, items))
    decreases items
  {
    if items != [] {
      Inside(items);
      LeavesOfDirectItem(records, schema, t, items[0].0, items[0].1, r);
      LeavesOfDirect(records, schema, t, items[1..], r);
      LeavesHoldAppend(records, LeavesOf(schema, t, items[0].0, items[0].1), Leaves(schema, t, items[1..]), r);
    }
  }

  lemma {:induction false} LeavesOfDirectItem<R(!new)>(records: Records<R>, schema: Schema, t: TypeName, key: string,
                                                       value: Input, r: R)
    requires Traverses(records) && DirectItem(schema, t, key, value)
    ensures LeavesHold(records, LeavesOf(schema, t, key, value), r) <==> ItemHolds(records, schema, t, key, value, r)
    ensures NoNones(LeavesOf(schema, t, key, value))
    decreases value
  {
    if value.Mapping? && AttributeOf(schema, t, key).Direct? {
      var attribute := AttributeOf(schema, t, key);
      LeavesOfDirect(records, schema, attribute.target, value.items, records.related(r, attribute.lookup));
      BelowHold(records, attribute.lookup, Leaves(schema, attribute.target, value.items), r);
    } else {
      var stored := Leaf(key, StoredValue(schema, t, key, value), 0);
      assert LeavesOf(schema, t, key, value) == [stored] && [stored][0] == stored;
    }
  }

  lemma LeavesHoldAppend<R(!new)>(records: Records<R>, a: seq<Leaf>, b: seq<Leaf>, r: R)
    ensures LeavesHold(records, a + b, r) <==> LeavesHold(records, a, r) && LeavesHold(records, b, r)
  {
    assert forall i :: 0 <= i < |a| ==> (a + b)[i] == a[i];
    assert forall i :: 0 <= i < |b| ==> (a + b)[|a| + i] == b[i];
  }

  lemma {:induction false} BelowHold<R(!new)>(records: Records<R>, relation: string, leaves: seq<Leaf>, r: R)
    requires Traverses(records)
    ensures LeavesHold(records, Below(relation, leaves, 0), r)
            <==> LeavesHold(records, leaves, records.related(r, relation))
    ensures NoNones(leaves) ==> NoNones(Below(relation, leaves, 0))
  {
    if leaves != [] {
      var first := leaves[0];
      BelowHold(records, relation, leaves[1..], r);
      var lifted := Leaf(relation + "__" + first.lookup, first.value, first.nones);
      LeavesHoldAppend(records, [lifted], Below(relation, leaves[1..], 0), r);
      LeavesHoldAppend(records, [first], leaves[1..], records.related(r, relation));
      assert leaves == [first] + leaves[1..];
      assert LeavesHold(records, [lifted], r) <==> records.holds(r, lifted.lookup, lifted.value) by {
        assert [lifted][0] == lifted;
      }
      assert LeavesHold(records, [first], records.related(r, relation))
        <==> records.holds(records.related(r, relation), first.lookup, first.value) by {
        assert [first][0] == first;
      }
    }
  }

  lemma {:induction false} LastOnFrom(leaves: seq<Leaf>, k: string)
    requires LastOn(false, leaves, k).Some?
    ensures exists i :: 0 <= i < |leaves| && leaves[i].lookup == k && LastOn(false, leaves, k) == Some(leaves[i].value)
  {
    var last := leaves[|leaves| - 1];
    if Excluded(last) || last.lookup != k {
      LastOnFrom(leaves[..|leaves| - 1], k);
    }
  }

  /** For nested direct relations the flat filter alone carries the meaning: a record that satisfies
      the nested filter satisfies the flat one, and conversely when leaves that share a lookup agree. */
  lemma FlatFilterMeansNested<R(!new)>(records: Records<R>, schema: Schema, t: TypeName, items: Dict<Input>, r: R)
    requires Traverses(records) && DirectOnly(schema, t, items)
    ensures Normalize(schema, t, items).exclude == []
    ensures NestedHolds(records, schema, t, items, r) ==> FlatHolds(records, Normalize(schema, t, items).filter, r)
    ensures Consistent(Leaves(schema, t, items))
            ==> (FlatHolds(records, Normalize(schema, t, items).filter, r)
                 <==> NestedHolds(records, schema, t, items, r))
  {
    var plan, leaves := Normalize(schema, t, items), Leaves(schema, t, items);
    FlatPlanHoldsTheLeaves(schema, t, items);
    LeavesOfDirect(records, schema, t, items, r);
    NothingExcluded(leaves, plan);
    forall i | 0 <= i < |plan.filter|
      ensures exists j :: 0 <= j < |leaves| && leaves[j].lookup == plan.filter[i].0
                          && leaves[j].value == plan.filter[i].1
    {
      assert plan.filter[i] in plan.filter;
      GetItem(plan.filter, plan.filter[i].0, plan.filter[i].1);
      LastOnFrom(leaves, plan.filter[i].0);
    }
    if Consistent(leaves) && FlatHolds(records, plan.filter, r) {
      forall i | 0 <= i < |leaves| ensures records.holds(r, leaves[i].lookup, leaves[i].value) {
        LastOnPresent(leaves, i);
        LastOnFrom(leaves, leaves[i].lookup);
        GetFound(plan.filter, leaves[i].lookup);
        var k :| 0 <= k < |plan.filter|
                 && plan.filter[k] == (leaves[i].lookup, Get(plan.filter, leaves[i].lookup).value);
      }
    }
  }

  lemma {:induction false} NothingExcluded(leaves: seq<Leaf>, plan: Plan)
    requires Holds(plan, leaves) && NoNones(leaves)
    ensures plan.exclude == []
  {
    if plan.exclude != [] {
      var k := plan.exclude[0].0;
      assert Get(plan.exclude, k).Some?;
      NoneOn(leaves, k);
    }
  }

  lemma {:induction false} NoneOn(leaves: seq<Leaf>, k: string)
    requires NoNones(leaves)
    ensures LastOn(true, leaves, k).None?
  {
    if leaves != [] {
      NoneOn(leaves[..|leaves| - 1], k);
    }
  }

  // ----- leaves that contradict each other

  /** The world whose records are the prefixes walked so far: everything holds there but one value of one
      lookup. */
  function Refusing(lookup: string, value: Input): Records<string> {
    Records((r: string, key: string, v: Input) => !(r + key == lookup && v == value),
            (r: string, relation: string) => r + (relation + "__"))
  }

  lemma RefusingTraverses(lookup: string, value: Input)
    ensures Traverses(Refusing(lookup, value))
  {
    forall r, relation, key ensures r + (relation + "__" + key) == r + (relation + "__") + key {
    }
  }

  /** The last leaf of a lookup is what the plan keeps; any other value of that lookup is not asked for. */
  lemma OverwrittenLeafIsLost(schema: Schema, t: TypeName, items: Dict<Input>, i: nat)
    requires DirectOnly(schema, t, items) && i < |Leaves(schema, t, items)|
    requires var leaf := Leaves(schema, t, items)[i];
             LastOn(false, Leaves(schema, t, items), leaf.lookup) != Some(leaf.value)
    ensures var leaf := Leaves(schema, t, items)[i];
            var records := Refusing(leaf.lookup, leaf.value);
            && Traverses(records)
            && FlatHolds(records, Normalize(schema, t, items).filter, "")
            && !NestedHolds(records, schema, t, items, "")
  {
    var leaves, filter := Leaves(schema, t, items), Normalize(schema, t, items).filter;
    var leaf := leaves[i];
    var records := Refusing(leaf.lookup, leaf.value);
    RefusingTraverses(leaf.lookup, leaf.value);
    LeavesOfDirect(records, schema, t, items, "");
    assert "" + leaf.lookup == leaf.lookup;
    assert !records.holds("", leaf.lookup, leaf.value);
    FlatPlanHoldsTheLeaves(schema, t, items);
    forall k | 0 <= k < |filter| ensures records.holds("", filter[k].0, filter[k].1) {
      assert filter[k] in filter;
      GetItem(filter, filter[k].0, filter[k].1);
      assert "" + filter[k].0 == filter[k].0;
    }
  }

  /** The flat filter means the nested one in every world of related records. */
  ghost predicate MeansNested(schema: Schema, t: TypeName, items: Dict<Input>) {
    forall records: Records<string>, r: string :: Traverses(records) ==>
      (FlatHolds(records, Normalize(schema, t, items).filter, r) <==> NestedHolds(records, schema, t, items, r))
  }

  /** For nested direct relations that is so exactly when leaves that flatten to the same lookup ask for the
      same value. */
  lemma MeansNestedExactly(schema: Schema, t: TypeName, items: Dict<Input>)
    requires DirectOnly(schema, t, items)
    ensures MeansNested(schema, t, items) <==> Consistent(Leaves(schema, t, items))
  {
    var leaves := Leaves(schema, t, items);
    if Consistent(leaves) {
      forall records: Records<string>, r: string | Traverses(records)
        ensures FlatHolds(records, Normalize(schema, t, items).filter, r) <==> NestedHolds(records, schema, t, items, r)
      {
        FlatFilterMeansNested(records, schema, t, items, r);
      }
    } else {
      var i, j :| 0 <= i < |leaves| && 0 <= j < |leaves| && leaves[i].lookup == leaves[j].lookup
                  && leaves[i].value != leaves[j].value;
      var lost := if LastOn(false, leaves, leaves[i].lookup) != Some(leaves[i].value) then i else j;
      OverwrittenLeafIsLost(schema, t, items, lost);
    }
  }
}
