/** Derived calculation buckets, and the fence no derivation can leave. */
module BucketAlgebra {
  import opened Sequences
  import opened Dicts
  import opened InputOrder
  import opened InputEnumeration
  import opened CalculationBuckets

  /** `_derive`: the constructor parses both definitions; the fence is copied, the cache is not. */
  function Derive(cls: ManagerClass, plan: BucketPlan, filters: Definitions, excludes: Definitions,
                  sortKey: Option<seq<Name>>, reverse: bool): Outcome<BucketPlan>
  {
    if FirstUnknown(cls, filters).Some? then Raised(UnknownInputField(FirstUnknown(cls, filters).value))
    else if FirstUnknown(cls, excludes).Some? then Raised(UnknownInputField(FirstUnknown(cls, excludes).value))
    else Ok(BucketPlan(filters, excludes, plan.allowed, sortKey, reverse))
  }

  function FilterBy(cls: ManagerClass, plan: BucketPlan, kwargs: Definitions): Outcome<BucketPlan> {
    Derive(cls, plan, Merge(plan.filters, kwargs), plan.excludes, None, false)
  }

  function ExcludeBy(cls: ManagerClass, plan: BucketPlan, kwargs: Definitions): Outcome<BucketPlan> {
    Derive(cls, plan, plan.filters, Merge(plan.excludes, kwargs), None, false)
  }

  function SortPlan(cls: ManagerClass, plan: BucketPlan, keys: seq<Name>, reverse: bool): Outcome<BucketPlan> {
    Derive(cls, plan, plan.filters, plan.excludes, Some(keys), reverse)
  }

  /** The definitions of `d` that `e` has with an equal value. */
  function Common(d: Definitions, e: Definitions): Definitions {
    Filter((item: (string, Raw)) => Get(e, item.0) == Some(item.1), d)
  }

  function MeetFences(cls: ManagerClass, a: Option<seq<Combination>>,
                      b: Option<seq<Combination>>): Option<seq<Combination>>
  {
    match (a, b)
    case (None, _) => b
    case (Some(_), None) => a
    case (Some(s), Some(t)) => Some(Filter((c: Combination) => cls.freeze(c) in FrozenKeys(cls, t), s))
  }

  /** `a | b`: the constraints common to both operands, inside both fences. */
  function Meet(cls: ManagerClass, a: BucketPlan, b: BucketPlan): Outcome<BucketPlan> {
    match Derive(cls, a, Common(a.filters, b.filters), Common(a.excludes, b.excludes), None, false)
    case Raised(f) => Raised(f)
    case Ok(plan) => Ok(plan.(allowed := MeetFences(cls, a.allowed, b.allowed)))
  }

  /** `bucket | manager` */
  function MeetManager(cls: ManagerClass, plan: BucketPlan, identification: Raw): Outcome<BucketPlan> {
    match FilterBy(cls, plan, [("id__in", identification)])
    case Raised(f) => Raised(f)
    case Ok(other) => Meet(cls, plan, other)
  }

  function WithInstances(cls: ManagerClass, plan: BucketPlan, identifications: seq<Combination>): Outcome<Bucket> {
    match Derive(cls, plan, plan.filters, plan.excludes, plan.sortKey, plan.reverse)
    case Raised(f) => Raised(f)
    case Ok(subset) => Ok(Bucket(subset.(allowed := Some(identifications)), Some(identifications)))
  }

  function NoneOf(plan: BucketPlan): Bucket {
    Bucket(plan.(filters := [], excludes := [], allowed := Some([])), Some([]))
  }

  /** A later definition of a lookup replaces the earlier one; other definitions and the fence stay, the
      sort does not. */
  lemma LaterDefinitionsReplace(cls: ManagerClass, plan: BucketPlan, kwargs: Definitions, k: string)
    requires IsDict(kwargs)
    ensures var filtered := FilterBy(cls, plan, kwargs);
            filtered.Ok? ==>
              && Get(filtered.value.filters, k) == (if HasKey(kwargs, k) then Get(kwargs, k) else Get(plan.filters, k))
              && filtered.value.excludes == plan.excludes
              && filtered.value.allowed == plan.allowed && filtered.value.sortKey.None? && !filtered.value.reverse
    ensures var excluded := ExcludeBy(cls, plan, kwargs);
            excluded.Ok? ==>
              && Get(excluded.value.excludes, k)
                 == (if HasKey(kwargs, k) then Get(kwargs, k) else Get(plan.excludes, k))
              && excluded.value.filters == plan.filters
              && excluded.value.allowed == plan.allowed && excluded.value.sortKey.None? && !excluded.value.reverse
  {
    GetMerge(plan.filters, kwargs, k);
    GetMerge(plan.excludes, kwargs, k);
    GetFound(kwargs, k);
  }

  lemma CommonHolds(d: Definitions, e: Definitions, k: string, v: Raw)
    requires IsDict(d) && IsDict(e)
    ensures (k, v) in Common(d, e) <==> (k, v) in d && (k, v) in e
  {
    if (k, v) in e {
      GetItem(e, k, v);
    }
    GetFound(e, k);
  }

  /** Merging keeps exactly the definitions that both buckets have with the same value. */
  lemma MeetKeepsCommon(cls: ManagerClass, a: BucketPlan, b: BucketPlan, k: string, v: Raw)
    requires IsDict(a.filters) && IsDict(b.filters) && IsDict(a.excludes) && IsDict(b.excludes)
    requires Meet(cls, a, b).Ok?
    ensures (k, v) in Meet(cls, a, b).value.filters <==> (k, v) in a.filters && (k, v) in b.filters
    ensures (k, v) in Meet(cls, a, b).value.excludes <==> (k, v) in a.excludes && (k, v) in b.excludes
  {
    CommonHolds(a.filters, b.filters, k, v);
    CommonHolds(a.excludes, b.excludes, k, v);
  }

  // ----- derivations

  datatype Step =
    | FilterStep(kwargs: Definitions)
    | ExcludeStep(kwargs: Definitions)
    | SortStep(keys: seq<Name>, reversed: bool)
    | OrStep(other: BucketPlan)
    | OrOntoStep(other: BucketPlan)
    | OrManagerStep(identification: Raw)
    | SliceStep(start: Option<int>, stop: Option<int>, stride: Option<int>)

  function Uncached(plan: Outcome<BucketPlan>): Outcome<Bucket> {
    match plan
    case Ok(p) => Ok(Bucket(p, None))
    case Raised(f) => Raised(f)
  }

  /** A slice bound, counted from the end when negative and moved into `low..high`. */
  function Bound(bound: Option<int>, default_: int, n: nat, low: int, high: int): int {
    match bound
    case None => default_
    case Some(b) => Max(low, Min(high, if b < 0 then b + n else b))
  }

  /** The items at `at`, `at + stride`, ... before `stop`. */
  function Stepped<T>(s: seq<T>, at: int, stop: int, stride: int): (r: seq<T>)
    requires stride != 0 && -1 <= at && -1 <= stop && (stride > 0 ==> 0 <= at && stop <= |s|)
    requires stride < 0 ==> at < |s|
    ensures forall x :: x in r ==> x in s
    decreases if stride > 0 then stop - at else at - stop
  {
    if stride > 0 then
      if at < stop then [s[at]] + Stepped(s, at + stride, stop, stride) else []
    else
      if at > stop then [s[at]] + (if at + stride > stop then Stepped(s, at + stride, stop, stride) else []) else []
  }

  /** `s[start:stop:stride]` for a stride other than zero */
  function Sliced<T>(s: seq<T>, start: Option<int>, stop: Option<int>, stride: int): (r: seq<T>)
    requires stride != 0
    ensures forall x :: x in r ==> x in s
  {
    if stride > 0 then
      Stepped(s, Bound(start, 0, |s|, 0, |s|), Bound(stop, |s|, |s|, 0, |s|), stride)
    else
      Stepped(s, Bound(start, |s| - 1, |s|, -1, |s| - 1), Bound(stop, -1, |s|, -1, |s| - 1), stride)
  }

  lemma {:induction false} SteppedForward<T>(s: seq<T>, at: nat, stop: nat)
    requires stop <= |s|
    ensures Stepped(s, at, stop, 1) == Slice(s, at, stop)
    decreases stop - at
  {
    if at < stop {
      SteppedForward(s, at + 1, stop);
      assert s[at..stop] == [s[at]] + s[at + 1..stop];
    }
  }

  lemma {:induction false} SteppedBackward<T>(s: seq<T>, at: int)
    requires -1 <= at < |s|
    ensures Stepped(s, at, -1, -1) == Reversed(s[..at + 1])
    decreases at + 1
  {
    if at >= 0 {
      SteppedBackward(s, at - 1);
      assert Reversed(s[..at + 1]) == [s[at]] + Reversed(s[..at]);
    }
  }

  /** Slices without a stride are contiguous, and bounds past the end are cut. */
  lemma SliceForward<T>(s: seq<T>, from: nat, to: nat)
    ensures Sliced(s, Some(from), Some(to), 1) == Slice(s, from, to)
  {
    SteppedForward(s, Min(from, |s|), Min(to, |s|));
  }

  /** Negative bounds count from the end. */
  lemma SliceFromEnd<T>(s: seq<T>, k: int)
    requires 0 < k <= |s|
    ensures Sliced(s, Some(-k), None, 1) == s[|s| - k..]
    ensures Sliced(s, None, Some(-k), 1) == s[..|s| - k]
  {
    var from := |s| - k;
    assert Sliced(s, Some(-k), None, 1) == Stepped(s, from, |s|, 1) == s[from..] by {
      SteppedForward(s, from, |s|);
    }
    SteppedForward(s, 0, from);
  }

  /** `[::-1]` turns the list around. */
  lemma SliceBackward<T>(s: seq<T>)
    ensures Sliced(s, None, None, -1) == Reversed(s)
  {
    var last, whole := |s| - 1, s[..|s|];
    SteppedBackward(s, last);
    assert whole == s && Stepped(s, last, -1, -1) == Reversed(s);
  }

  /** `bucket[start:stop:stride]` once the bucket is materialized */
  function SliceOf(cls: ManagerClass, plan: BucketPlan, contents: Outcome<seq<Combination>>,
                   start: Option<int>, stop: Option<int>, stride: Option<int>): Outcome<Bucket>
  {
    match contents
    case Raised(f) => Raised(f)
    case Ok(items) =>
      if stride == Some(0) then Raised(SliceStepZero)
      else
        var shown := Sliced(items, start, stop, if stride.Some? then stride.value else 1);
        match Derive(cls, plan, plan.filters, plan.excludes, plan.sortKey, plan.reverse)
        case Raised(f) => Raised(f)
        case Ok(derived) => Ok(Bucket(derived, Some(shown)))
  }

  ghost function Take1(cls: ManagerClass, bucket: Bucket, step: Step, order: SortOutcome): Outcome<Bucket>
    requires IsSortOutcome(cls.DependsOn(), order)
  {
    match step
    case FilterStep(kwargs) => Uncached(FilterBy(cls, bucket.plan, kwargs))
    case ExcludeStep(kwargs) => Uncached(ExcludeBy(cls, bucket.plan, kwargs))
    case SortStep(keys, reversed) => Uncached(SortPlan(cls, bucket.plan, keys, reversed))
    case OrStep(other) => Uncached(Meet(cls, bucket.plan, other))
    case OrOntoStep(other) => Uncached(Meet(cls, other, bucket.plan))
    case OrManagerStep(identification) => Uncached(MeetManager(cls, bucket.plan, identification))
    case SliceStep(start, stop, stride) => SliceOf(cls, bucket.plan, Contents(cls, bucket, order), start, stop, stride)
  }

  ghost function TakeAll(cls: ManagerClass, bucket: Bucket, steps: seq<Step>, order: SortOutcome): Outcome<Bucket>
    requires IsSortOutcome(cls.DependsOn(), order)
    decreases steps
  {
    if steps == [] then Ok(bucket)
    else match Take1(cls, bucket, steps[0], order)
      case Raised(f) => Raised(f)
      case Ok(next) => TakeAll(cls, next, steps[1..], order)
  }

  // ----- the fence

  ghost predicate Within(cls: ManagerClass, s: seq<Combination>, keys: set<int>) {
    forall c :: c in s ==> cls.freeze(c) in keys
  }

  ghost predicate Fenced(cls: ManagerClass, bucket: Bucket, keys: set<int>) {
    && bucket.plan.allowed.Some?
    && Within(cls, bucket.plan.allowed.value, keys)
    && (bucket.data.Some? ==> Within(cls, bucket.data.value, keys))
  }

  lemma FinishWithin(cls: ManagerClass, plan: BucketPlan, combos: seq<Combination>, keys: set<int>)
    requires plan.allowed.Some? && Within(cls, plan.allowed.value, keys)
    ensures Within(cls, Finish(cls, plan, combos), keys)
  {
    forall c | c in Finish(cls, plan, combos) ensures cls.freeze(c) in keys {
      FinishedContents(cls, plan, combos, c);
      var x :| x in Filter(Passing(cls, plan), combos) && c == cls.identify(x);
      PassedFence(cls, plan, combos, x);
      var allowed :| allowed in plan.allowed.value && cls.freeze(allowed) == cls.freeze(c);
    }
  }

  lemma PassedFence(cls: ManagerClass, plan: BucketPlan, combos: seq<Combination>, x: Combination)
    requires plan.allowed.Some? && x in Filter(Passing(cls, plan), combos)
    ensures cls.freeze(cls.identify(x)) in FrozenKeys(cls, plan.allowed.value)
  {
    assert Passes(cls, plan, x);
  }

  /** A fenced bucket contains only fenced identifications. */
  lemma ContentsWithin(cls: ManagerClass, bucket: Bucket, order: SortOutcome, keys: set<int>)
    requires IsSortOutcome(cls.DependsOn(), order) && Fenced(cls, bucket, keys)
    ensures Contents(cls, bucket, order).Ok? ==> Within(cls, Contents(cls, bucket, order).value, keys)
  {
    if bucket.data.None? {
      FinishWithin(cls, bucket.plan, Inputs(cls, bucket.plan, order).emitted, keys);
    }
  }

  lemma MeetWithin(cls: ManagerClass, a: BucketPlan, b: BucketPlan, keys: set<int>)
    requires Meet(cls, a, b).Ok?
    requires (a.allowed.Some? && Within(cls, a.allowed.value, keys))
             || (b.allowed.Some? && Within(cls, b.allowed.value, keys))
    ensures var plan := Meet(cls, a, b).value; plan.allowed.Some? && Within(cls, plan.allowed.value, keys)
  {
    if a.allowed.Some? && b.allowed.Some? {
      forall c | c in MeetFences(cls, a.allowed, b.allowed).value ensures cls.freeze(c) in keys {
        var d :| d in b.allowed.value && cls.freeze(d) == cls.freeze(c);
      }
    }
  }

  /** Every slice, with any bounds and stride, stays inside the fence. */
  lemma SliceStaysFenced(cls: ManagerClass, plan: BucketPlan, contents: Outcome<seq<Combination>>,
                         start: Option<int>, stop: Option<int>, stride: Option<int>, keys: set<int>)
    requires plan.allowed.Some? && Within(cls, plan.allowed.value, keys)
    requires contents.Ok? ==> Within(cls, contents.value, keys)
    ensures var slice := SliceOf(cls, plan, contents, start, stop, stride);
            slice.Ok? ==> Fenced(cls, slice.value, keys)
  {
  }

  lemma StepStaysFenced(cls: ManagerClass, bucket: Bucket, step: Step, order: SortOutcome, keys: set<int>)
    requires IsSortOutcome(cls.DependsOn(), order) && Fenced(cls, bucket, keys)
    ensures Take1(cls, bucket, step, order).Ok? ==> Fenced(cls, Take1(cls, bucket, step, order).value, keys)
  {
    match step {
      case SliceStep(start, stop, stride) =>
        ContentsWithin(cls, bucket, order, keys);
        SliceStaysFenced(cls, bucket.plan, Contents(cls, bucket, order), start, stop, stride, keys);
      case OrStep(other) =>
        if Meet(cls, bucket.plan, other).Ok? {
          MeetWithin(cls, bucket.plan, other, keys);
        }
      case OrOntoStep(other) =>
        if Meet(cls, other, bucket.plan).Ok? {
          MeetWithin(cls, other, bucket.plan, keys);
        }
      case OrManagerStep(identification) =>
        var filtered := FilterBy(cls, bucket.plan, [("id__in", identification)]);
        if filtered.Ok? && Meet(cls, bucket.plan, filtered.value).Ok? {
          MeetWithin(cls, bucket.plan, filtered.value, keys);
        }
      case FilterStep(_) =>
      case ExcludeStep(_) =>
      case SortStep(_, _) =>
    }
  }

  /** After `with_instances`, no sequence of filters, excludes, sorts, merges in either direction and
      slices produces a combination whose identification was not handed over. */
  lemma {:induction false} FenceIsPermanent(cls: ManagerClass, bucket: Bucket, steps: seq<Step>, order: SortOutcome,
                                            keys: set<int>)
    requires IsSortOutcome(cls.DependsOn(), order) && Fenced(cls, bucket, keys)
    ensures var derived := TakeAll(cls, bucket, steps, order);
            derived.Ok? && Contents(cls, derived.value, order).Ok?
            ==> Within(cls, Contents(cls, derived.value, order).value, keys)
    decreases steps
  {
    if steps == [] {
      ContentsWithin(cls, bucket, order, keys);
    } else if Take1(cls, bucket, steps[0], order).Ok? {
      StepStaysFenced(cls, bucket, steps[0], order, keys);
      FenceIsPermanent(cls, Take1(cls, bucket, steps[0], order).value, steps[1..], order, keys);
    }
  }

  lemma InstancesStayFenced(cls: ManagerClass, plan: BucketPlan, identifications: seq<Combination>, steps: seq<Step>,
                            order: SortOutcome)
    requires IsSortOutcome(cls.DependsOn(), order)
    requires WithInstances(cls, plan, identifications).Ok?
    ensures var derived := TakeAll(cls, WithInstances(cls, plan, identifications).value, steps, order);
            derived.Ok? && Contents(cls, derived.value, order).Ok?
            ==> Within(cls, Contents(cls, derived.value, order).value, FrozenKeys(cls, identifications))
  {
    FenceIsPermanent(cls, WithInstances(cls, plan, identifications).value, steps, order,
                     FrozenKeys(cls, identifications));
  }

  /** Everything derived from the bucket stays among `keys`. */
  ghost predicate NeverLeaves(cls: ManagerClass, bucket: Bucket, order: SortOutcome, keys: set<int>)
    requires IsSortOutcome(cls.DependsOn(), order)
  {
    forall steps :: var derived := TakeAll(cls, bucket, steps, order);
      derived.Ok? && Contents(cls, derived.value, order).Ok? ==>
        Within(cls, Contents(cls, derived.value, order).value, keys)
  }

  /** `with_instances` on a fenced bucket replaces the fence: what is derived then stays inside the old
      fence exactly when all the given identifications are inside of it. */
  lemma WithInstancesNarrowsExactly(cls: ManagerClass, plan: BucketPlan, identifications: seq<Combination>,
                                    order: SortOutcome)
    requires IsSortOutcome(cls.DependsOn(), order) && plan.allowed.Some?
    requires WithInstances(cls, plan, identifications).Ok?
    ensures NeverLeaves(cls, WithInstances(cls, plan, identifications).value, order,
                        FrozenKeys(cls, plan.allowed.value))
       <==> FrozenKeys(cls, identifications) <= FrozenKeys(cls, plan.allowed.value)
  {
    var bucket, old_ := WithInstances(cls, plan, identifications).value, FrozenKeys(cls, plan.allowed.value);
    if FrozenKeys(cls, identifications) <= old_ {
      forall steps | TakeAll(cls, bucket, steps, order).Ok?
                     && Contents(cls, TakeAll(cls, bucket, steps, order).value, order).Ok?
        ensures Within(cls, Contents(cls, TakeAll(cls, bucket, steps, order).value, order).value, old_)
      {
        FenceIsPermanent(cls, bucket, steps, order, old_);
      }
    }
    if NeverLeaves(cls, bucket, order, old_) {
      assert TakeAll(cls, bucket, [], order) == Ok(bucket);
      assert Within(cls, identifications, old_);
    }
  }

  lemma NoElements<T(!new)>(s: seq<T>)
    requires forall x :: x !in s
    ensures s == []
  {
    FilterNothing((x: T) => true, s);
    FilterEverything((x: T) => true, s);
  }

  /** Everything derived from `none()` is empty. */
  lemma NoneStaysEmpty(cls: ManagerClass, plan: BucketPlan, steps: seq<Step>, order: SortOutcome)
    requires IsSortOutcome(cls.DependsOn(), order)
    ensures var derived := TakeAll(cls, NoneOf(plan), steps, order);
            derived.Ok? && Contents(cls, derived.value, order).Ok? ==> Contents(cls, derived.value, order).value == []
  {
    FenceIsPermanent(cls, NoneOf(plan), steps, order, {});
    var derived := TakeAll(cls, NoneOf(plan), steps, order);
    if derived.Ok? && Contents(cls, derived.value, order).Ok? {
      NoElements(Contents(cls, derived.value, order).value);
    }
  }
}
