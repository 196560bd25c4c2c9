/** `sort_search_hit_entries` and `trim_search_hit_entries_to_window`: keeping a window of the best
    hits between pages instead of all of them. */
module SearchWindow {
  import opened Sequences
  import opened Ordering

  /** A search hit with its score and the normalized value of the sort field. */
  datatype Hit = Hit(manager: string, id: int, score: Option<real>, sortValue: Option<int>)

  datatype SortMode = ByScore | ByField(descending: bool)

  // ----- sorting

  /** `item[0] or 0` */
  function Score(h: Hit): real {
    if h.score.Some? then h.score.value else 0.0
  }

  predicate ScoreDescends(a: Hit, b: Hit) { Score(a) >= Score(b) }

  predicate KeyAscends(x: Option<int>, y: Option<int>) {
    y.None? || (x.Some? && x.value <= y.value)
  }

  predicate KeyDescends(x: Option<int>, y: Option<int>) {
    y.None? || (x.Some? && x.value >= y.value)
  }

  predicate Ascends(a: Hit, b: Hit) { KeyAscends(a.sortValue, b.sortValue) }

  predicate Descends(a: Hit, b: Hit) { KeyDescends(a.sortValue, b.sortValue) }

  predicate IsNull(h: Hit) { h.sortValue.None? }

  predicate NonNull(h: Hit) { h.sortValue.Some? }

  function NullStart(s: seq<Hit>): (n: nat)
    ensures n <= |s|
  {
    if s == [] || IsNull(s[0]) then 0 else 1 + NullStart(s[1..])
  }

  function FlipNonNull(s: seq<Hit>): seq<Hit> {
    Reversed(s[..NullStart(s)]) + s[NullStart(s)..]
  }

  function SortEntries(mode: SortMode, s: seq<Hit>): seq<Hit> {
    match mode
    case ByScore => Sort(ScoreDescends, s)
    case ByField(false) => Sort(Ascends, s)
    case ByField(true) => FlipNonNull(Sort(Ascends, s))
  }

  function Trimmed(mode: SortMode, s: seq<Hit>, k: nat): seq<Hit> {
    if |s| <= k then s else Take(SortEntries(mode, s), k)
  }

  /** The retained hits after each batch was appended and the list trimmed to `k`. */
  function Rounds(mode: SortMode, kept: seq<Hit>, batches: seq<seq<Hit>>, k: nat): seq<Hit>
    decreases batches
  {
    if batches == [] then kept
    else Rounds(mode, Trimmed(mode, kept + batches[0], k), batches[1..], k)
  }

  /** The size of the window for a page: everything up to its end. */
  function RequestedCount(offset: nat, limit: nat): nat { offset + limit }

  /** One page of a sorted list. */
  function Page(mode: SortMode, hits: seq<Hit>, offset: nat, limit: nat): seq<Hit> {
    Slice(SortEntries(mode, hits), offset, RequestedCount(offset, limit))
  }

  /** The page shown for a request whose hits came in `batches`. */
  function ShownPage(mode: SortMode, batches: seq<seq<Hit>>, offset: nat, limit: nat): seq<Hit> {
    Page(mode, Rounds(mode, [], batches, RequestedCount(offset, limit)), offset, limit)
  }

  class HitList {
    var entries: seq<Hit>

    constructor ()
      ensures entries == []
    {
      entries := [];
    }

    method Append(batch: seq<Hit>)
      modifies this
      ensures entries == old(entries) + batch
    {
      entries := entries + batch;
    }

    method SortSearchHitEntries(mode: SortMode)
      modifies this
      ensures entries == SortEntries(mode, old(entries))
    {
      match mode {
        case ByScore =>
          entries := Sort(ScoreDescends, entries);
        case ByField(descending) =>
          entries := Sort(Ascends, entries);
          if descending {
            var nullStart := 0;
            while nullStart < |entries| && !IsNull(entries[nullStart])
              invariant nullStart <= |entries|
              invariant NullStart(entries) == nullStart + NullStart(entries[nullStart..])
            {
              assert entries[nullStart..][1..] == entries[nullStart + 1..];
              nullStart := nullStart + 1;
            }
            entries := Reversed(entries[..nullStart]) + entries[nullStart..];
          }
      }
    }

    method TrimSearchHitEntriesToWindow(requestedCount: nat, mode: SortMode)
      modifies this
      ensures entries == Trimmed(mode, old(entries), requestedCount)
    {
      if |entries| <= requestedCount {
        return;
      }
      SortSearchHitEntries(mode);
      SortEntriesPermutes(mode, old(entries));
      entries := entries[..requestedCount];
    }
  }

  lemma OrdersAreTotal()
    ensures TotalPreorder(ScoreDescends) && TotalPreorder(Ascends) && TotalPreorder(Descends)
    ensures TotalPreorder(KeyAscends) && TotalPreorder(KeyDescends)
  {
  }

  lemma {:induction false} FlipPermutes(t: seq<Hit>)
    ensures multiset(FlipNonNull(t)) == multiset(t)
  {
    ReversedPermutes(t[..NullStart(t)]);
    assert t == t[..NullStart(t)] + t[NullStart(t)..];
  }

  lemma {:induction false} SortEntriesPermutes(mode: SortMode, s: seq<Hit>)
    ensures multiset(SortEntries(mode, s)) == multiset(s) && |SortEntries(mode, s)| == |s|
  {
    SortPermutes(ScoreDescends, s);
    SortPermutes(Ascends, s);
    FlipPermutes(Sort(Ascends, s));
    assert |multiset(SortEntries(mode, s))| == |SortEntries(mode, s)|;
  }

  // ----- windows of a stable sort

  function StableRounds<T>(le: (T, T) -> bool, kept: seq<T>, batches: seq<seq<T>>, k: nat): seq<T>
    decreases batches
  {
    if batches == [] then kept
    else
      var all := kept + batches[0];
      StableRounds(le, if |all| <= k then all else Take(Sort(le, all), k), batches[1..], k)
  }

  lemma WindowKeepsPrefix<T(!new)>(le: (T, T) -> bool, s: seq<T>, k: nat)
    requires TotalPreorder(le)
    ensures Take(Sort(le, Take(Sort(le, s), k)), k) == Take(Sort(le, s), k)
  {
    SortSorts(le, s);
    SortOrdered(le, Take(Sort(le, s), k));
  }

  function Window<T>(le: (T, T) -> bool, s: seq<T>, k: nat): seq<T> {
    Take(Sort(le, s), k)
  }

  lemma RoundKeepsWindow<T(!new)>(le: (T, T) -> bool, kept: seq<T>, seen: seq<T>, batch: seq<T>, k: nat)
    requires TotalPreorder(le) && Window(le, kept, k) == Window(le, seen, k)
    ensures var all := kept + batch;
            Window(le, if |all| <= k then all else Take(Sort(le, all), k), k) == Window(le, seen + batch, k)
  {
    SortPrefixAppend(le, kept, seen, batch, k);
    WindowKeepsPrefix(le, kept + batch, k);
  }

  /** Trimming to the first `k` after every batch leaves the first `k` of the whole untouched. */
  lemma {:induction false} StableWindow<T(!new)>(le: (T, T) -> bool, kept: seq<T>, seen: seq<T>, batches: seq<seq<T>>,
                                                 k: nat)
    requires TotalPreorder(le)
    requires Window(le, kept, k) == Window(le, seen, k)
    ensures Window(le, StableRounds(le, kept, batches, k), k) == Window(le, seen + Flatten(batches), k)
    decreases batches
  {
    if batches == [] {
      assert seen + Flatten(batches) == seen;
    } else {
      var all := kept + batches[0];
      RoundKeepsWindow(le, kept, seen, batches[0], k);
      StableWindow(le, if |all| <= k then all else Take(Sort(le, all), k), seen + batches[0], batches[1..], k);
      Associate(seen, batches[0], Flatten(batches[1..]));
    }
  }

  lemma {:induction false} RoundsAreStable(mode: SortMode, le: (Hit, Hit) -> bool, kept: seq<Hit>,
                                           batches: seq<seq<Hit>>, k: nat)
    requires (mode == ByScore && le == ScoreDescends) || (mode == ByField(false) && le == Ascends)
    ensures Rounds(mode, kept, batches, k) == StableRounds(le, kept, batches, k)
    decreases batches
  {
    if batches != [] {
      RoundsAreStable(mode, le, Trimmed(mode, kept + batches[0], k), batches[1..], k);
    }
  }

  lemma SameWindowSamePage(mode: SortMode, x: seq<Hit>, y: seq<Hit>, offset: nat, limit: nat)
    requires Take(SortEntries(mode, x), RequestedCount(offset, limit))
             == Take(SortEntries(mode, y), RequestedCount(offset, limit))
    ensures Page(mode, x, offset, limit) == Page(mode, y, offset, limit)
  {
    SliceOfTake(SortEntries(mode, x), offset, RequestedCount(offset, limit));
    SliceOfTake(SortEntries(mode, y), offset, RequestedCount(offset, limit));
  }

  lemma SliceOfTake<T>(s: seq<T>, from: nat, to: nat)
    ensures Slice(s, from, to) == Slice(Take(s, to), from, to)
  {
  }

  lemma WindowIsKept(mode: SortMode, batches: seq<seq<Hit>>, k: nat)
    requires mode != ByField(true)
    ensures Take(SortEntries(mode, Rounds(mode, [], batches, k)), k) == Take(SortEntries(mode, Flatten(batches)), k)
  {
    var le := if mode == ByScore then ScoreDescends else Ascends;
    OrdersAreTotal();
    RoundsAreStable(mode, le, [], batches, k);
    StableWindow(le, [], [], batches, k);
    assert [] + Flatten(batches) == Flatten(batches);
  }

  /** In score order and in ascending field order the page is the page of one sort over all hits,
      ties included, whatever the batches. */
  lemma WindowIsExact(mode: SortMode, batches: seq<seq<Hit>>, offset: nat, limit: nat)
    requires mode != ByField(true)
    ensures ShownPage(mode, batches, offset, limit) == Page(mode, Flatten(batches), offset, limit)
  {
    WindowIsKept(mode, batches, RequestedCount(offset, limit));
    SameWindowSamePage(mode, Rounds(mode, [], batches, RequestedCount(offset, limit)), Flatten(batches), offset, limit);
  }

  // ----- descending order

  /** The hits have the same non-null key. */
  predicate Tied(x: Hit, y: Hit) { x.sortValue.Some? && x.sortValue == y.sortValue }

  /** Tied hits are the same hit. */
  ghost predicate NoTies(s: seq<Hit>) {
    forall x, y :: x in s && y in s && Tied(x, y) ==> x == y
  }

  lemma {:induction false} NullsLast(le: (Hit, Hit) -> bool, s: seq<Hit>)
    requires Sorted(le, s) && forall a, b :: IsNull(a) && NonNull(b) ==> !le(a, b)
    ensures s[..NullStart(s)] == Filter(NonNull, s) && s[NullStart(s)..] == Filter(IsNull, s)
  {
    if s == [] {
    } else if IsNull(s[0]) {
      forall x | x in s ensures IsNull(x) {
        var i :| 0 <= i < |s| && s[i] == x;
        assert i == 0 || le(s[0], s[i]);
      }
      FilterNothing(NonNull, s);
      FilterEverything(IsNull, s);
    } else {
      NullsLast(le, s[1..]);
      assert s[..NullStart(s)] == [s[0]] + s[1..][..NullStart(s[1..])];
    }
  }

  lemma {:induction false} FilterSorted(le: (Hit, Hit) -> bool, keep: Hit -> bool, s: seq<Hit>)
    requires Sorted(le, s)
    ensures Sorted(le, Filter(keep, s))
  {
    if s != [] {
      var r := Filter(keep, s[1..]);
      FilterSorted(le, keep, s[1..]);
      forall j | 0 <= j < |r| ensures le(s[0], r[j]) {
        assert r[j] in r;
        var i :| 0 <= i < |s[1..]| && s[1..][i] == r[j];
        assert s[i + 1] == r[j];
      }
    }
  }

  lemma ReversedDescends(s: seq<Hit>)
    requires Sorted(Ascends, s) && forall x :: x in s ==> NonNull(x)
    ensures Sorted(Descends, Reversed(s))
  {
    var r := Reversed(s);
    forall i, j | 0 <= i < j < |r| ensures Descends(r[i], r[j]) {
      assert r[i] == s[|s| - 1 - i] && r[j] == s[|s| - 1 - j];
      assert r[i] in s && r[j] in s && Ascends(r[j], r[i]);
    }
  }

  /** The two halves of a descending sort. */
  lemma DescendingHalves(s: seq<Hit>)
    ensures var up := Filter(NonNull, Sort(Ascends, s));
            && SortEntries(ByField(true), s) == Reversed(up) + Filter(IsNull, s)
            && Sorted(Descends, Reversed(up))
            && multiset(Reversed(up)) == multiset(Filter(NonNull, s))
  {
    OrdersAreTotal();
    var t := Sort(Ascends, s);
    SortSorts(Ascends, s);
    NullsLast(Ascends, t);
    SortStable(Ascends, s, IsNull);
    FilterSorted(Ascends, NonNull, t);
    ReversedDescends(Filter(NonNull, t));
    ReversedPermutes(Filter(NonNull, t));
    FilterPermuted(NonNull, t, s);
  }

  lemma {:induction false} DescendingSorted(s: seq<Hit>)
    ensures Sorted(Descends, SortEntries(ByField(true), s))
  {
    DescendingHalves(s);
    JoinedDescends(Reversed(Filter(NonNull, Sort(Ascends, s))), Filter(IsNull, s));
  }

  lemma {:induction false} JoinedDescends(flipped: seq<Hit>, nulls: seq<Hit>)
    requires Sorted(Descends, flipped) && forall x :: x in nulls ==> IsNull(x)
    ensures Sorted(Descends, flipped + nulls)
  {
    var t := flipped + nulls;
    forall i, j | 0 <= i < j < |t| ensures Descends(t[i], t[j]) {
      if j < |flipped| {
        assert Descends(flipped[i], flipped[j]);
      } else {
        assert t[j] in nulls;
      }
    }
  }

  lemma StableDescendingHalves(s: seq<Hit>)
    ensures Sort(Descends, s) == Filter(NonNull, Sort(Descends, s)) + Filter(IsNull, s)
    ensures Sorted(Descends, Filter(NonNull, Sort(Descends, s)))
    ensures multiset(Filter(NonNull, Sort(Descends, s))) == multiset(Filter(NonNull, s))
  {
    var t := Sort(Descends, s);
    OrdersAreTotal();
    SortSorts(Descends, s);
    FilterSorted(Descends, NonNull, t);
    FilterPermuted(NonNull, t, s);
    SplitAtNulls(Descends, t);
    SortStable(Descends, s, IsNull);
  }

  lemma SplitAtNulls(le: (Hit, Hit) -> bool, t: seq<Hit>)
    requires Sorted(le, t) && forall a, b :: IsNull(a) && NonNull(b) ==> !le(a, b)
    ensures t == Filter(NonNull, t) + Filter(IsNull, t)
  {
    NullsLast(le, t);
    Rejoin(t, NullStart(t));
  }

  lemma Rejoin<T>(t: seq<T>, n: nat)
    requires n <= |t|
    ensures t == t[..n] + t[n..]
  {
  }

  lemma KeyedTieFree(s: seq<Hit>)
    requires NoTies(s) && forall x :: x in s ==> NonNull(x)
    ensures TieFree(Descends, s)
  {
  }

  lemma SameKeyedOrder(keyed: seq<Hit>, a: seq<Hit>, b: seq<Hit>)
    requires NoTies(keyed) && forall x :: x in keyed ==> NonNull(x)
    requires multiset(a) == multiset(keyed) == multiset(b) && Sorted(Descends, a) && Sorted(Descends, b)
    ensures a == b
  {
    OrdersAreTotal();
    forall x | x in a ensures x in keyed {
      assert x in multiset(a);
    }
    KeyedTieFree(a);
    SortedUnique(Descends, a, b);
  }

  /** Without ties among non-null keys, reversing after the sort is sorting in reverse. */
  lemma FlipIsDescendingSort(s: seq<Hit>)
    requires NoTies(s)
    ensures SortEntries(ByField(true), s) == Sort(Descends, s)
  {
    DescendingHalves(s);
    StableDescendingHalves(s);
    SameKeyedOrder(Filter(NonNull, s), Reversed(Filter(NonNull, Sort(Ascends, s))), Filter(NonNull, Sort(Descends, s)));
  }

  ghost predicate DrawnFrom(kept: seq<Hit>, seen: seq<Hit>) {
    forall x :: x in kept ==> x in seen
  }

  lemma TrimmedDrawn(mode: SortMode, s: seq<Hit>, k: nat)
    ensures DrawnFrom(Trimmed(mode, s, k), s)
  {
    SortEntriesPermutes(mode, s);
    forall x | x in Trimmed(mode, s, k) ensures x in s {
      assert x in multiset(s) || x in multiset(SortEntries(mode, s));
    }
  }

  // ----- the part of a descending list down to a key

  /** Hits whose key is at least `v`; a null key is the least. */
  function AtLeast(v: Option<int>): Hit -> bool {
    (h: Hit) => KeyDescends(h.sortValue, v)
  }

  /** The key of the last hit of the window. */
  function LastKey(s: seq<Hit>, k: nat): Option<int> {
    var t := SortEntries(ByField(true), s);
    if 0 < k <= |t| then t[k - 1].sortValue else None
  }

  /** No two hits share a non-null key that is at least the window's last one: ties below do not
      matter. */
  ghost predicate TieFreeWindow(s: seq<Hit>, k: nat) {
    |s| <= k || TieFreeDownTo(s, LastKey(s, k))
  }

  ghost predicate TieFreeDownTo(s: seq<Hit>, v: Option<int>) {
    forall x, y :: x in s && y in s && Tied(x, y) && KeyDescends(x.sortValue, v) ==> x == y
  }

  lemma {:induction false} HighPrefix(t: seq<Hit>, v: Option<int>)
    requires Sorted(Descends, t)
    ensures var n := |Filter(AtLeast(v), t)|;
            Filter(AtLeast(v), t) == t[..n] && forall i :: n <= i < |t| ==> !AtLeast(v)(t[i])
  {
    if t == [] {
    } else if AtLeast(v)(t[0]) {
      HighPrefix(t[1..], v);
      assert t == [t[0]] + t[1..];
    } else {
      forall i | 0 <= i < |t| ensures !AtLeast(v)(t[i]) {
        assert i == 0 || Descends(t[0], t[i]);
      }
      FilterNothing(AtLeast(v), t);
    }
  }

  lemma PrefixOfPrefix<T(!new)>(keep: T -> bool, t: seq<T>, n: nat, k: nat)
    requires n <= |t| && k <= |t|
    requires Filter(keep, t) == t[..n] && forall i :: n <= i < |t| ==> !keep(t[i])
    ensures Filter(keep, t[..k]) == if k <= n then t[..k] else t[..n]
  {
    if k <= n {
      forall i | 0 <= i < k ensures keep(t[i]) {
        assert t[..n][i] in Filter(keep, t);
      }
      FilterEverything(keep, t[..k]);
    } else {
      forall x | x in t[k..] ensures !keep(x) {
        var i :| k <= i < |t| && t[i] == x;
      }
      FilterNothing(keep, t[k..]);
      FilterAppend(keep, t[..k], t[k..]);
      assert t[..k] + t[k..] == t;
    }
  }

  lemma HighOfWindow(t: seq<Hit>, v: Option<int>, k: nat)
    requires Sorted(Descends, t)
    ensures Filter(AtLeast(v), Take(t, k)) == Take(Filter(AtLeast(v), t), k)
    ensures k <= |Filter(AtLeast(v), t)| ==> Take(t, k) == Take(Filter(AtLeast(v), t), k)
  {
    var n := |Filter(AtLeast(v), t)|;
    HighPrefix(t, v);
    if |t| <= k {
      assert Take(t, k) == t;
    } else {
      PrefixOfPrefix(AtLeast(v), t, n, k);
      assert k > n ==> Take(t[..n], k) == t[..n];
    }
  }

  lemma HighCount(t: seq<Hit>, k: nat)
    requires Sorted(Descends, t) && 0 < k <= |t|
    ensures k <= |Filter(AtLeast(t[k - 1].sortValue), t)|
  {
    HighPrefix(t, t[k - 1].sortValue);
  }

  lemma HighPermutes(s: seq<Hit>, keep: Hit -> bool)
    ensures multiset(Filter(keep, SortEntries(ByField(true), s))) == multiset(Filter(keep, s))
    ensures Sorted(Descends, Filter(keep, SortEntries(ByField(true), s)))
  {
    DescendingSorted(s);
    FilterSorted(Descends, keep, SortEntries(ByField(true), s));
    SortEntriesPermutes(ByField(true), s);
    FilterPermuted(keep, SortEntries(ByField(true), s), s);
  }

  lemma SortOfKeyed(high: seq<Hit>, other: seq<Hit>)
    requires NoTies(high) && forall x :: x in high ==> NonNull(x)
    requires multiset(other) == multiset(high) && Sorted(Descends, other)
    ensures other == Sort(Descends, high)
  {
    OrdersAreTotal();
    SortSorts(Descends, high);
    SameKeyedOrder(high, Sort(Descends, high), other);
  }

  /** Without ties down to `v`, reversing after the sort is sorting in reverse, down to `v`. */
  lemma HighOfDescending(s: seq<Hit>, v: Option<int>)
    requires NoTies(Filter(AtLeast(v), s))
    ensures Filter(AtLeast(v), SortEntries(ByField(true), s)) == Sort(Descends, Filter(AtLeast(v), s))
  {
    if v.None? {
      FilterEverything(AtLeast(v), s);
      FilterEverything(AtLeast(v), SortEntries(ByField(true), s));
      FlipIsDescendingSort(s);
    } else {
      HighPermutes(s, AtLeast(v));
      SortOfKeyed(Filter(AtLeast(v), s), Filter(AtLeast(v), SortEntries(ByField(true), s)));
    }
  }

  lemma HighOfTrimmed(kept: seq<Hit>, seen: seq<Hit>, batch: seq<Hit>, v: Option<int>, k: nat)
    requires NoTies(Filter(AtLeast(v), kept + batch))
    requires Window(Descends, Filter(AtLeast(v), kept), k) == Window(Descends, Filter(AtLeast(v), seen), k)
    ensures Window(Descends, Filter(AtLeast(v), Trimmed(ByField(true), kept + batch, k)), k)
         == Window(Descends, Filter(AtLeast(v), seen + batch), k)
  {
    var all := kept + batch;
    OrdersAreTotal();
    FilterAppend(AtLeast(v), kept, batch);
    FilterAppend(AtLeast(v), seen, batch);
    SortPrefixAppend(Descends, Filter(AtLeast(v), kept), Filter(AtLeast(v), seen), Filter(AtLeast(v), batch), k);
    if |all| > k {
      DescendingSorted(all);
      HighOfWindow(SortEntries(ByField(true), all), v, k);
      HighOfDescending(all, v);
      WindowKeepsPrefix(Descends, Filter(AtLeast(v), all), k);
    }
  }

  /** Trimming leaves the window down to `v` untouched. */
  lemma {:induction false} HighOfRounds(kept: seq<Hit>, seen: seq<Hit>, batches: seq<seq<Hit>>, v: Option<int>, k: nat)
    requires NoTies(Filter(AtLeast(v), seen + Flatten(batches))) && DrawnFrom(kept, seen)
    requires Window(Descends, Filter(AtLeast(v), kept), k) == Window(Descends, Filter(AtLeast(v), seen), k)
    ensures var last := Rounds(ByField(true), kept, batches, k);
            && DrawnFrom(last, seen + Flatten(batches))
            && Window(Descends, Filter(AtLeast(v), last), k)
               == Window(Descends, Filter(AtLeast(v), seen + Flatten(batches)), k)
    decreases batches
  {
    if batches == [] {
      assert seen + Flatten(batches) == seen;
    } else {
      Associate(seen, batches[0], Flatten(batches[1..]));
      HighOfTrimmed(kept, seen, batches[0], v, k);
      TrimmedDrawn(ByField(true), kept + batches[0], k);
      HighOfRounds(Trimmed(ByField(true), kept + batches[0], k), seen + batches[0], batches[1..], v, k);
    }
  }

  lemma {:induction false} NothingTrimmed(mode: SortMode, kept: seq<Hit>, batches: seq<seq<Hit>>, k: nat)
    requires |kept + Flatten(batches)| <= k
    ensures Rounds(mode, kept, batches, k) == kept + Flatten(batches)
    decreases batches
  {
    if batches != [] {
      Associate(kept, batches[0], Flatten(batches[1..]));
      NothingTrimmed(mode, kept + batches[0], batches[1..], k);
    }
  }

  /** The window of a descending list is what a stable descending sort shows of the hits down to its
      last key. */
  lemma WindowOfHigh(s: seq<Hit>, v: Option<int>, k: nat)
    requires NoTies(Filter(AtLeast(v), s)) && k <= |Filter(AtLeast(v), s)|
    ensures Take(SortEntries(ByField(true), s), k) == Window(Descends, Filter(AtLeast(v), s), k)
  {
    DescendingSorted(s);
    HighOfDescending(s, v);
    SortPermutes(Descends, Filter(AtLeast(v), s));
    HighOfWindow(SortEntries(ByField(true), s), v, k);
  }

  lemma EnoughHigh(s: seq<Hit>, k: nat)
    requires 0 < k <= |s|
    ensures k <= |Filter(AtLeast(LastKey(s, k)), s)|
  {
    var t, v := SortEntries(ByField(true), s), LastKey(s, k);
    SortEntriesPermutes(ByField(true), s);
    DescendingSorted(s);
    HighCount(t, k);
    FilterPermuted(AtLeast(v), t, s);
    SameLength(Filter(AtLeast(v), t), Filter(AtLeast(v), s));
  }

  lemma HighIsTieFree(s: seq<Hit>, v: Option<int>)
    requires TieFreeDownTo(s, v)
    ensures NoTies(Filter(AtLeast(v), s))
  {
  }

  lemma TrimmedWindowIsKept(batches: seq<seq<Hit>>, v: Option<int>, k: nat)
    requires NoTies(Filter(AtLeast(v), Flatten(batches))) && k <= |Filter(AtLeast(v), Flatten(batches))|
    ensures Take(SortEntries(ByField(true), Rounds(ByField(true), [], batches, k)), k)
         == Take(SortEntries(ByField(true), Flatten(batches)), k)
  {
    var all, kept := Flatten(batches), Rounds(ByField(true), [], batches, k);
    assert [] + all == all;
    HighOfRounds([], [], batches, v, k);
    WindowOfHigh(all, v, k);
    SameWindowLength(Descends, Filter(AtLeast(v), kept), Filter(AtLeast(v), all), k);
    WindowOfHigh(kept, v, k);
  }

  lemma DescendingWindowIsKept(batches: seq<seq<Hit>>, k: nat)
    requires TieFreeWindow(Flatten(batches), k)
    ensures Take(SortEntries(ByField(true), Rounds(ByField(true), [], batches, k)), k)
         == Take(SortEntries(ByField(true), Flatten(batches)), k)
  {
    var all := Flatten(batches);
    if |all| <= k {
      assert [] + all == all;
      NothingTrimmed(ByField(true), [], batches, k);
    } else if k > 0 {
      HighIsTieFree(all, LastKey(all, k));
      EnoughHigh(all, k);
      TrimmedWindowIsKept(batches, LastKey(all, k), k);
    }
  }

  lemma SameWindowLength<T(!new)>(le: (T, T) -> bool, a: seq<T>, b: seq<T>, k: nat)
    requires Window(le, a, k) == Window(le, b, k) && k <= |b|
    ensures k <= |a|
  {
    SortPermutes(le, a);
    SortPermutes(le, b);
  }

  /** In descending order the page is exact too if no two hits tie on a non-null key that is at least
      the window's last one. */
  lemma DescendingWindowIsExact(batches: seq<seq<Hit>>, offset: nat, limit: nat)
    requires TieFreeWindow(Flatten(batches), RequestedCount(offset, limit))
    ensures ShownPage(ByField(true), batches, offset, limit) == Page(ByField(true), Flatten(batches), offset, limit)
  {
    DescendingWindowIsKept(batches, RequestedCount(offset, limit));
    SameWindowSamePage(ByField(true), Rounds(ByField(true), [], batches, RequestedCount(offset, limit)),
                       Flatten(batches), offset, limit);
  }

  // ----- with ties: the keys are right, the entries need not be

  function Keys(s: seq<Hit>): seq<Option<int>> {
    Map((h: Hit) => h.sortValue, s)
  }

  lemma {:induction false} KeysSorted(t: seq<Hit>)
    requires Sorted(Descends, t)
    ensures Sorted(KeyDescends, Keys(t))
  {
    forall i, j | 0 <= i < j < |t| ensures KeyDescends(Keys(t)[i], Keys(t)[j]) {
      assert Descends(t[i], t[j]);
    }
  }

  lemma {:induction false} KeysOfDescending(s: seq<Hit>)
    ensures Keys(SortEntries(ByField(true), s)) == Sort(KeyDescends, Keys(s))
  {
    OrdersAreTotal();
    var t := SortEntries(ByField(true), s);
    DescendingSorted(s);
    KeysSorted(t);
    SortEntriesPermutes(ByField(true), s);
    MapPermuted((h: Hit) => h.sortValue, t, s);
    SortSorts(KeyDescends, Keys(s));
    SortedUnique(KeyDescends, Keys(t), Sort(KeyDescends, Keys(s)));
  }

  lemma {:induction false} KeysOfRounds(kept: seq<Hit>, batches: seq<seq<Hit>>, k: nat)
    ensures Keys(Rounds(ByField(true), kept, batches, k))
         == StableRounds(KeyDescends, Keys(kept), KeyBatches(batches), k)
    decreases batches
  {
    if batches != [] {
      KeysOfTrimmed(kept, batches[0], k);
      KeysOfRounds(Trimmed(ByField(true), kept + batches[0], k), batches[1..], k);
    }
  }

  lemma {:induction false} KeysOfTrimmed(kept: seq<Hit>, batch: seq<Hit>, k: nat)
    ensures var all := Keys(kept) + Keys(batch);
            Keys(Trimmed(ByField(true), kept + batch, k)) == if |all| <= k then all else Take(Sort(KeyDescends, all), k)
  {
    var all := kept + batch;
    assert Keys(all) == Keys(kept) + Keys(batch);
    if |all| > k {
      KeysOfDescending(all);
      TakenKeys(SortEntries(ByField(true), all), k);
    }
  }

  lemma TakenKeys(s: seq<Hit>, k: nat)
    ensures Keys(Take(s, k)) == Take(Keys(s), k)
  {
  }

  function KeyBatches(batches: seq<seq<Hit>>): seq<seq<Option<int>>> {
    if batches == [] then [] else [Keys(batches[0])] + KeyBatches(batches[1..])
  }

  lemma {:induction false} KeysOfFlatten(batches: seq<seq<Hit>>)
    ensures Flatten(KeyBatches(batches)) == Keys(Flatten(batches))
  {
    if batches != [] {
      KeysOfFlatten(batches[1..]);
      assert Keys(batches[0] + Flatten(batches[1..])) == Keys(batches[0]) + Keys(Flatten(batches[1..]));
    }
  }

  /** In descending order the page always shows the right keys. */
  lemma DescendingKeysAreExact(batches: seq<seq<Hit>>, offset: nat, limit: nat)
    ensures Keys(ShownPage(ByField(true), batches, offset, limit))
         == Keys(Page(ByField(true), Flatten(batches), offset, limit))
  {
    DescendingKeyWindow(batches, RequestedCount(offset, limit));
    SameKeysSamePage(ByField(true), Rounds(ByField(true), [], batches, RequestedCount(offset, limit)), Flatten(batches),
                     offset, limit);
  }

  lemma SameKeysSamePage(mode: SortMode, x: seq<Hit>, y: seq<Hit>, offset: nat, limit: nat)
    requires Take(Keys(SortEntries(mode, x)), RequestedCount(offset, limit))
          == Take(Keys(SortEntries(mode, y)), RequestedCount(offset, limit))
    ensures Keys(Page(mode, x, offset, limit)) == Keys(Page(mode, y, offset, limit))
  {
    KeysOfSlice(SortEntries(mode, x), offset, RequestedCount(offset, limit));
    KeysOfSlice(SortEntries(mode, y), offset, RequestedCount(offset, limit));
  }

  lemma DescendingKeyWindow(batches: seq<seq<Hit>>, k: nat)
    ensures Take(Keys(SortEntries(ByField(true), Rounds(ByField(true), [], batches, k))), k)
         == Take(Keys(SortEntries(ByField(true), Flatten(batches))), k)
  {
    OrdersAreTotal();
    KeysOfRounds([], batches, k);
    KeysOfFlatten(batches);
    StableWindow(KeyDescends, [], [], KeyBatches(batches), k);
    assert [] + Keys(Flatten(batches)) == Keys(Flatten(batches));
    KeysOfDescending(Rounds(ByField(true), [], batches, k));
    KeysOfDescending(Flatten(batches));
  }

  lemma {:induction false} KeysOfSlice(s: seq<Hit>, from: nat, to: nat)
    ensures Keys(Slice(s, from, to)) == Slice(Take(Keys(s), to), from, to)
  {
    TakenKeys(s, to);
    if from <= |s| {
      DroppedKeys(Take(s, to), Min(from, |Take(s, to)|));
    }
  }

  lemma DroppedKeys(s: seq<Hit>, m: nat)
    requires m <= |s|
    ensures Keys(s[m..]) == Keys(s)[m..]
  {
  }

  /** A trim followed by the final sort is exact iff the trimmed window holds no two hits with the
      same non-null key: the second reversal turns their order around. */
  lemma OneRoundExactly(s: seq<Hit>, k: nat)
    requires Distinct(s)
    ensures Take(SortEntries(ByField(true), Trimmed(ByField(true), s, k)), k) == Take(SortEntries(ByField(true), s), k)
       <==> |s| <= k || NoTies(Take(SortEntries(ByField(true), s), k))
  {
    if |s| > k {
      var window := Take(SortEntries(ByField(true), s), k);
      SortEntriesPermutes(ByField(true), s);
      SortEntriesPermutes(ByField(true), window);
      DescendingHalves(s);
      DistinctWindow(s, k);
      WindowDescends(s, k);
      if NoTies(window) {
        FlipIsDescendingSort(window);
        SortOrdered(Descends, window);
      } else {
        TieFlips(window);
      }
    }
  }

  /** However the hits are cut into batches, the first page of `k` is the page of one sort. */
  ghost predicate AlwaysExact(all: seq<Hit>, k: nat) {
    forall batches :: Flatten(batches) == all ==>
                        ShownPage(ByField(true), batches, 0, k) == Page(ByField(true), all, 0, k)
  }

  /** For that it is sufficient that no two hits tie down to the window's last key, and necessary that no
      two hits of the window tie. What differs are ties across the window's edge. */
  lemma AlwaysExactBetween(all: seq<Hit>, k: nat)
    requires Distinct(all)
    ensures TieFreeWindow(all, k) ==> AlwaysExact(all, k)
    ensures AlwaysExact(all, k) ==> |all| <= k || NoTies(Take(SortEntries(ByField(true), all), k))
  {
    assert RequestedCount(0, k) == k;
    if TieFreeWindow(all, k) {
      forall batches | Flatten(batches) == all
        ensures ShownPage(ByField(true), batches, 0, k) == Page(ByField(true), all, 0, k)
      {
        DescendingWindowIsExact(batches, 0, k);
      }
    }
    if AlwaysExact(all, k) {
      OneBatch(all, k);
      assert ShownPage(ByField(true), [all], 0, k) == Page(ByField(true), all, 0, k);
      OneRoundExactly(all, k);
    }
  }

  lemma OneBatch(all: seq<Hit>, k: nat)
    ensures Flatten([all]) == all
    ensures ShownPage(ByField(true), [all], 0, k) == Take(SortEntries(ByField(true), Trimmed(ByField(true), all, k)), k)
    ensures Page(ByField(true), all, 0, k) == Take(SortEntries(ByField(true), all), k)
  {
    assert [all][1..] == [] && all + [] == all && [] + all == all;
    assert Rounds(ByField(true), [], [all], k) == Trimmed(ByField(true), all, k);
  }

  lemma DistinctWindow(s: seq<Hit>, k: nat)
    requires Distinct(s)
    ensures Distinct(Take(SortEntries(ByField(true), s), k))
  {
    SortEntriesPermutes(ByField(true), s);
    PermutedDistinct(SortEntries(ByField(true), s), s);
  }

  lemma {:induction false} WindowDescends(s: seq<Hit>, k: nat)
    ensures Sorted(Descends, Take(SortEntries(ByField(true), s), k))
  {
    DescendingSorted(s);
  }

  /** Sorting a descending window again turns every group of tied hits around. */
  lemma {:induction false} TieFlips(window: seq<Hit>)
    requires Distinct(window) && !NoTies(window)
    ensures SortEntries(ByField(true), window) != window
  {
    var x, y :| x in window && y in window && x.sortValue.Some? && x.sortValue == y.sortValue && x != y;
    var tied := (h: Hit) => h.sortValue == x.sortValue;
    OrdersAreTotal();
    SortStable(Ascends, window, tied);
    var t := Sort(Ascends, window);
    DescendingHalves(window);
    var up := Filter(NonNull, t);
    FilterTwice(NonNull, tied, tied, t);
    FilterReversed(tied, up);
    FilterAppend(tied, Reversed(up), Filter(IsNull, window));
    FilterNothing(tied, Filter(IsNull, window));
    var group := Filter(tied, window);
    assert Filter(tied, SortEntries(ByField(true), window)) == Reversed(group);
    FilterDistinct(tied, window);
    assert x in group && y in group;
    TwoMembers(group, x, y);
    assert Reversed(group)[0] != group[0];
  }

  lemma TwoMembers<T>(s: seq<T>, x: T, y: T)
    requires x in s && y in s && x != y
    ensures |s| >= 2
  {
  }

  lemma {:induction false} SortSteps<T>(le: (T, T) -> bool, a: T, b: T, c: T)
    requires le(a, b)
    ensures Sort(le, [a, b, c]) == Insert(le, [a, b], c)
  {
    assert Insert(le, [a], b) == [a, b] by {
      assert [a][1..] == [];
    }
    assert [a, b, c][1..] == [b, c] && [b, c][1..] == [c] && [c][1..] == [];
    assert InsertAll(le, [], [a, b, c]) == InsertAll(le, [a], [b, c]);
    assert InsertAll(le, [a], [b, c]) == InsertAll(le, [a, b], [c]);
    assert InsertAll(le, [a, b], [c]) == InsertAll(le, Insert(le, [a, b], c), []);
  }

  lemma ThreeTurned(a: Hit, b: Hit, c: Hit)
    requires a.sortValue.Some? && a.sortValue == b.sortValue
    requires c.sortValue.Some? && c.sortValue.value < a.sortValue.value
    ensures SortEntries(ByField(true), [a, b, c]) == [b, a, c]
  {
    SortSteps(Ascends, a, b, c);
    assert Insert(Ascends, [a, b], c) == [c, a, b];
    assert NullStart([c, a, b]) == 3 by {
      assert [c, a, b][1..] == [a, b] && [a, b][1..] == [b] && [b][1..] == [];
      assert NullStart([b]) == 1 && NullStart([a, b]) == 2;
    }
  }

  lemma PairTurned(a: Hit, b: Hit)
    requires a.sortValue.Some? && a.sortValue == b.sortValue
    ensures SortEntries(ByField(true), [a, b]) == [b, a]
  {
    assert Sort(Ascends, [a, b]) == [a, b] by {
      SortOrdered(Ascends, [a, b]);
    }
    assert NullStart([a, b]) == 2 by {
      assert [a, b][1..] == [b] && [b][1..] == [];
    }
  }

  /** Any two tied hits followed by one below them show the difference on the first page of two. */
  lemma {:induction false} TiedPairIsShownTurned(a: Hit, b: Hit, c: Hit)
    requires a != b && a.sortValue.Some? && a.sortValue == b.sortValue
    requires c.sortValue.Some? && c.sortValue.value < a.sortValue.value
    ensures ShownPage(ByField(true), [[a, b], [c]], 0, 2) == [a, b]
    ensures Page(ByField(true), Flatten([[a, b], [c]]), 0, 2) == [b, a]
  {
    var all := [a, b, c];
    assert [] + [a, b] == [a, b] && [a, b] + [c] == all;
    assert Flatten([[a, b], [c]]) == all by {
      assert [[a, b], [c]][1..] == [[c]];
      assert Flatten([[c]]) == [c] + Flatten([]);
    }
    ThreeTurned(a, b, c);
    PairTurned(b, a);
    var batches := [[a, b], [c]];
    assert batches[1..] == [[c]] && [[c]][1..] == [];
    assert Rounds(ByField(true), [], batches, 2) == Rounds(ByField(true), [a, b], [[c]], 2);
    assert Rounds(ByField(true), [a, b], [[c]], 2) == [b, a];
  }
}
