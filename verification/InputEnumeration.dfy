/** `_iter_input_combinations`: the backtracking enumerator of dependent input values. */
module InputEnumeration {
  import opened Sequences
  import opened InputOrder

  datatype Value = Null | Number(n: int) | Text(s: string) | Reference(manager: string, id: int)

  /** Input values by name; an absent optional input has no entry. */
  type Combination = map<Name, Value>

  /** What `possible_values` resolves to. */
  datatype Domain =
    | NoDomain
    | Malformed
    | Items(items: seq<Value>)
    | Managers(items: seq<Value>)

  /** A provider is called with the declared dependency values only. */
  datatype PossibleValues =
    | Static(domain: Domain)
    | Provider(provide: Combination -> Domain)

  datatype InputField = InputField(
    dependsOn: seq<Name>,
    required: bool,
    hasType: Value -> bool,
    possibleValues: PossibleValues)

  /** An input with the parsed criteria that apply to it. `bucketKeeps` stands for
      `bucket.filter(**filter_kwargs).exclude(**exclude_kwargs)`. */
  datatype Slot = Slot(
    field: InputField,
    filterFuncs: seq<Value -> bool>,
    excludeFuncs: seq<Value -> bool>,
    bucketKeeps: Value -> bool)

  type Slots = map<Name, Slot>

  datatype Failure =
    | InvalidPossibleValues(key: Name)
    | MissingDependency(key: Name)
    | CyclicInputs(node: Name)
    | UnknownInputField(key: Name)
    | SliceStepZero

  /** A generator: what it yields, and the exception that ends it if there is one. */
  datatype Generated<T> = Generated(emitted: seq<T>, failure: Option<Failure>)

  datatype Outcome<+T> = Ok(value: T) | Raised(failure: Failure)

  function Then<T>(first: Generated<T>, second: Generated<T>): Generated<T> {
    if first.failure.Some? then first
    else Generated(first.emitted + second.emitted, second.failure)
  }

  // ----- one input

  function Restrict(combo: Combination, names: seq<Name>): Combination {
    map k | k in combo && k in names :: combo[k]
  }

  function FirstMissing(names: seq<Name>, combo: Combination): Option<Name> {
    if names == [] then None
    else if names[0] !in combo then Some(names[0])
    else FirstMissing(names[1..], combo)
  }

  datatype Offer = Raises(failure: Failure) | Absent | Offered(values: seq<Value>, fromBucket: bool)

  function OfferOf(name: Name, field: InputField, domain: Domain): Offer {
    match domain
    case NoDomain => if field.required then Raises(InvalidPossibleValues(name)) else Absent
    case Malformed => Raises(InvalidPossibleValues(name))
    case Items(vs) => Offered(vs, false)
    case Managers(vs) => Offered(vs, true)
  }

  /** `get_possible_values` */
  function GetPossibleValues(name: Name, field: InputField, combo: Combination): Offer {
    match field.possibleValues
    case Static(domain) => OfferOf(name, field, domain)
    case Provider(provide) =>
      match FirstMissing(field.dependsOn, combo)
      case Some(d) => Raises(MissingDependency(d))
      case None => OfferOf(name, field, provide(Restrict(combo, field.dependsOn)))
  }

  predicate PassesFuncs(slot: Slot, v: Value) {
    && (forall i :: 0 <= i < |slot.filterFuncs| ==> slot.filterFuncs[i](v))
    && (forall i :: 0 <= i < |slot.excludeFuncs| ==> !slot.excludeFuncs[i](v))
  }

  predicate Keeps(slot: Slot, fromBucket: bool, v: Value) {
    if fromBucket then slot.bucketKeeps(v) else PassesFuncs(slot, v)
  }

  function Candidates(slot: Slot, values: seq<Value>, fromBucket: bool): seq<Value> {
    Filter(v => Keeps(slot, fromBucket, v), values)
  }

  // ----- all inputs

  ghost predicate Declared(slots: Slots, order: seq<Name>) {
    forall n :: n in order ==> n in slots
  }

  /** What the generator yields once `combo` is chosen and `order` remains. */
  ghost function Enumerate(slots: Slots, order: seq<Name>, combo: Combination): Generated<Combination>
    requires Declared(slots, order)
    decreases |order|, 0, 0
  {
    if order == [] then Generated([combo], None)
    else
      var slot := slots[order[0]];
      match GetPossibleValues(order[0], slot.field, combo)
      case Raises(failure) => Generated([], Some(failure))
      case Absent =>
        if PassesFuncs(slot, Null) then Enumerate(slots, order[1..], combo) else Generated([], None)
      case Offered(values, fromBucket) =>
        EnumerateEach(slots, order, combo, Candidates(slot, values, fromBucket))
  }

  ghost function EnumerateEach(slots: Slots, order: seq<Name>, combo: Combination, values: seq<Value>)
    : Generated<Combination>
    requires Declared(slots, order) && order != []
    decreases |order| - 1, 1, |values|
  {
    if values == [] then Generated([], None)
    else if !slots[order[0]].field.hasType(values[0]) then
      EnumerateEach(slots, order, combo, values[1..])
    else
      Then(Enumerate(slots, order[1..], combo[order[0] := values[0]]),
           EnumerateEach(slots, order, combo, values[1..]))
  }

  lemma EachFrom(slots: Slots, order: seq<Name>, combo: Combination, values: seq<Value>, i: nat)
    requires Declared(slots, order) && order != [] && i < |values|
    ensures EnumerateEach(slots, order, combo, values[i..])
         == var rest := EnumerateEach(slots, order, combo, values[i + 1..]);
            if slots[order[0]].field.hasType(values[i])
            then Then(Enumerate(slots, order[1..], combo[order[0] := values[i]]), rest) else rest
  {
    assert values[i..][0] == values[i] && values[i..][1..] == values[i + 1..];
  }

  // ----- the generator as written: one combination, assigned and deleted in place

  class InputEnumerator {
    const slots: Slots
    const sortedInputs: seq<Name>
    var currentCombo: Combination
    var yielded: seq<Combination>

    constructor (slots: Slots, sortedInputs: seq<Name>)
      ensures this.slots == slots && this.sortedInputs == sortedInputs
      ensures currentCombo == map[] && yielded == []
    {
      this.slots, this.sortedInputs := slots, sortedInputs;
      currentCombo, yielded := map[], [];
    }

    ghost predicate Ready(index: nat)
      reads this
    {
      && index <= |sortedInputs| && Distinct(sortedInputs) && Declared(slots, sortedInputs)
      && forall n :: n in sortedInputs[index..] ==> n !in currentCombo
    }

    method Helper(index: nat) returns (failure: Option<Failure>)
      requires Ready(index)
      modifies this
      ensures var run := Enumerate(slots, sortedInputs[index..], old(currentCombo));
              yielded == old(yielded) + run.emitted && failure == run.failure
      ensures failure.None? ==> currentCombo == old(currentCombo)
      decreases |sortedInputs| - index, 2
    {
      if index == |sortedInputs| {
        yielded := yielded + [currentCombo];
        return None;
      }
      ghost var order := sortedInputs[index..];
      assert order[1..] == sortedInputs[index + 1..];
      var inputName := sortedInputs[index];
      var slot := slots[inputName];
      match GetPossibleValues(inputName, slot.field, currentCombo) {
        case Raises(f) =>
          return Some(f);
        case Absent =>
          if PassesFuncs(slot, Null) {
            failure := Helper(index + 1);
          } else {
            failure := None;
          }
        case Offered(values, fromBucket) =>
          var possible := NarrowValues(slot, values, fromBucket);
          failure := EachValue(index, possible);
      }
    }

    /** The loop of `helper` over the candidates of one input. */
    method EachValue(index: nat, possible: seq<Value>) returns (failure: Option<Failure>)
      requires Ready(index) && index < |sortedInputs|
      modifies this
      ensures var run := EnumerateEach(slots, sortedInputs[index..], old(currentCombo), possible);
              yielded == old(yielded) + run.emitted && failure == run.failure
      ensures failure.None? ==> currentCombo == old(currentCombo)
      decreases |sortedInputs| - index, 1
    {
      ghost var order, before := sortedInputs[index..], currentCombo;
      ghost var each := EnumerateEach(slots, order, before, possible);
      for i := 0 to |possible|
        invariant currentCombo == before
        invariant var rest := EnumerateEach(slots, order, before, possible[i..]);
                  old(yielded) + each.emitted == yielded + rest.emitted && each.failure == rest.failure
      {
        EachFrom(slots, order, before, possible, i);
        if !slots[sortedInputs[index]].field.hasType(possible[i]) {
          continue;
        }
        failure := WithValue(index, possible[i]);
        if failure.Some? {
          return;
        }
      }
      failure := None;
    }

    /** The body of the loop over the candidates: assign, recurse, delete. */
    method WithValue(index: nat, value: Value) returns (failure: Option<Failure>)
      requires Ready(index) && index < |sortedInputs|
      modifies this
      ensures var run := Enumerate(slots, sortedInputs[index..][1..], old(currentCombo)[sortedInputs[index] := value]);
              yielded == old(yielded) + run.emitted && failure == run.failure
      ensures failure.None? ==> currentCombo == old(currentCombo)
      decreases |sortedInputs| - index, 0
    {
      assert sortedInputs[index..][1..] == sortedInputs[index + 1..];
      currentCombo := currentCombo[sortedInputs[index] := value];
      failure := Helper(index + 1);
      if failure.Some? {
        return;
      }
      currentCombo := currentCombo - {sortedInputs[index]};
      assert currentCombo == old(currentCombo);
    }
  }

  /** The candidate filters of `helper`, applied one after the other. */
  method NarrowValues(slot: Slot, values: seq<Value>, fromBucket: bool) returns (possible: seq<Value>)
    ensures possible == Candidates(slot, values, fromBucket)
  {
    if fromBucket {
      possible := Filter(slot.bucketKeeps, values);
      FilterExtensional(slot.bucketKeeps, v => Keeps(slot, fromBucket, v), values);
      return;
    }
    possible := values;
    ghost var passed: Value -> bool := v => true;
    FilterEverything(passed, values);
    for i := 0 to |slot.filterFuncs|
      invariant forall v :: passed(v) <==> forall k :: 0 <= k < i ==> slot.filterFuncs[k](v)
      invariant possible == Filter(passed, values)
    {
      var f := slot.filterFuncs[i];
      ghost var was := passed;
      passed := v => was(v) && f(v);
      FilterTwice(was, f, passed, values);
      possible := Filter(f, possible);
    }
    for i := 0 to |slot.excludeFuncs|
      invariant forall v :: passed(v) <==>
                            (forall k :: 0 <= k < |slot.filterFuncs| ==> slot.filterFuncs[k](v))
                            && (forall k :: 0 <= k < i ==> !slot.excludeFuncs[k](v))
      invariant possible == Filter(passed, values)
    {
      var f := slot.excludeFuncs[i];
      var keep := v => !f(v);
      ghost var was := passed;
      passed := v => was(v) && keep(v);
      FilterTwice(was, keep, passed, values);
      possible := Filter(keep, possible);
    }
    FilterExtensional(passed, v => Keeps(slot, fromBucket, v), values);
  }
}
