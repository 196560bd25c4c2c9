/** The order of search hits, on their scores and sort values, and the page as a part of it. */
module SearchOrder {
  import opened Sequences
  import opened Ordering
  import opened SearchWindow

  // ----- what the sort modes mean

  /** `b` may be listed behind `a`: no better score, a missing one counting as zero; or a value that is not
      smaller, or not greater in descending order, with missing values last. */
  ghost predicate MayPrecede(mode: SortMode, a: Hit, b: Hit) {
    match mode
    case ByScore =>
      (if a.score.Some? then a.score.value else 0.0) >= (if b.score.Some? then b.score.value else 0.0)
    case ByField(false) =>
      b.sortValue.Some? ==> a.sortValue.Some? && a.sortValue.value <= b.sortValue.value
    case ByField(true) =>
      b.sortValue.Some? ==> a.sortValue.Some? && a.sortValue.value >= b.sortValue.value
  }

  ghost predicate InOrder(mode: SortMode, list: seq<Hit>) {
    forall i, j :: 0 <= i < j < |list| ==> MayPrecede(mode, list[i], list[j])
  }

  /** Neither is better. */
  ghost function LevelWith(mode: SortMode, a: Hit): Hit -> bool {
    (b: Hit) => MayPrecede(mode, a, b) && MayPrecede(mode, b, a)
  }

  /** Hits on a level keep their order. */
  ghost predicate KeepsLevels(mode: SortMode, list: seq<Hit>, all: seq<Hit>) {
    forall a :: Filter(LevelWith(mode, a), list) == Filter(LevelWith(mode, a), all)
  }

  /** Hits with the same value are turned around, hits without one keep their order. */
  ghost predicate TurnsLevels(list: seq<Hit>, all: seq<Hit>) {
    forall a ::
      var level := LevelWith(ByField(true), a);
      Filter(level, list) == if a.sortValue.Some? then Reversed(Filter(level, all)) else Filter(level, all)
  }

  lemma LevelsAreTied(mode: SortMode, le: (Hit, Hit) -> bool, a: Hit)
    requires forall x, y :: le(x, y) <==> MayPrecede(mode, x, y)
    ensures forall x, y :: LevelWith(mode, a)(x) && LevelWith(mode, a)(y) ==> le(x, y)
  {
  }

  lemma StableInOrder(mode: SortMode, le: (Hit, Hit) -> bool, s: seq<Hit>)
    requires forall x, y :: le(x, y) <==> MayPrecede(mode, x, y)
    requires TotalPreorder(le)
    ensures InOrder(mode, Sort(le, s)) && KeepsLevels(mode, Sort(le, s), s)
  {
    SortSorts(le, s);
    forall a ensures Filter(LevelWith(mode, a), Sort(le, s)) == Filter(LevelWith(mode, a), s) {
      LevelsAreTied(mode, le, a);
      SortStable(le, s, LevelWith(mode, a));
    }
  }

  /** Sorting puts better hits first: by score, or by the sort value in the given direction, missing values
      last. Equal ones keep their order, but are turned around in descending order. */
  lemma EntriesInOrder(mode: SortMode, s: seq<Hit>)
    ensures InOrder(mode, SortEntries(mode, s)) && multiset(SortEntries(mode, s)) == multiset(s)
    ensures if mode == ByField(true) then TurnsLevels(SortEntries(mode, s), s)
            else KeepsLevels(mode, SortEntries(mode, s), s)
  {
    OrdersAreTotal();
    SortEntriesPermutes(mode, s);
    match mode {
      case ByScore => StableInOrder(mode, ScoreDescends, s);
      case ByField(descending) =>
        if descending {
          DescendingInOrder(s);
        } else {
          StableInOrder(mode, Ascends, s);
        }
    }
  }

  lemma DescendingInOrder(s: seq<Hit>)
    ensures InOrder(ByField(true), SortEntries(ByField(true), s))
    ensures TurnsLevels(SortEntries(ByField(true), s), s)
  {
    var list := SortEntries(ByField(true), s);
    DescendingSorted(s);
    forall i, j | 0 <= i < j < |list| ensures MayPrecede(ByField(true), list[i], list[j]) {
      assert Descends(list[i], list[j]);
    }
    forall a
      ensures var level := LevelWith(ByField(true), a);
              Filter(level, list) == if a.sortValue.Some? then Reversed(Filter(level, s)) else Filter(level, s)
    {
      LevelsTurned(s, a);
    }
  }

  lemma LevelsTurned(s: seq<Hit>, a: Hit)
    ensures var level := LevelWith(ByField(true), a);
            Filter(level, SortEntries(ByField(true), s))
            == if a.sortValue.Some? then Reversed(Filter(level, s)) else Filter(level, s)
  {
    var level := LevelWith(ByField(true), a);
    var up := Filter(NonNull, Sort(Ascends, s));
    DescendingHalves(s);
    FilterAppend(level, Reversed(up), Filter(IsNull, s));
    if a.sortValue.Some? {
      ValuesTurned(s, a);
    } else {
      NullsKept(s, a);
    }
  }

  lemma ValuesTurned(s: seq<Hit>, a: Hit)
    requires a.sortValue.Some?
    ensures var level, up := LevelWith(ByField(true), a), Filter(NonNull, Sort(Ascends, s));
            Filter(level, Reversed(up)) == Reversed(Filter(level, s)) && Filter(level, Filter(IsNull, s)) == []
  {
    var level, sorted := LevelWith(ByField(true), a), Sort(Ascends, s);
    FilterNothing(level, Filter(IsNull, s));
    FilterReversed(level, Filter(NonNull, sorted));
    FilterTwice(NonNull, level, level, sorted);
    OrdersAreTotal();
    SortStable(Ascends, s, level);
  }

  lemma NullsKept(s: seq<Hit>, a: Hit)
    requires a.sortValue.None?
    ensures var level, up := LevelWith(ByField(true), a), Filter(NonNull, Sort(Ascends, s));
            Filter(level, Reversed(up)) == [] && Filter(level, Filter(IsNull, s)) == Filter(level, s)
  {
    var level, up := LevelWith(ByField(true), a), Filter(NonNull, Sort(Ascends, s));
    ReversedPermutes(up);
    SameElements(Reversed(up), up);
    FilterNothing(level, Reversed(up));
    FilterTwice(IsNull, level, level, s);
  }

  // ----- the page of a window

  lemma {:induction false} BehindFails(keep: Hit -> bool, s: seq<Hit>, i: nat)
    requires i < |s| && forall j :: i <= j < |s| ==> !keep(s[j])
    ensures |Filter(keep, s)| <= i
  {
    assert s == s[..i] + s[i..];
    FilterAppend(keep, s[..i], s[i..]);
    FilterNothing(keep, s[i..]);
  }

  /** If at least `k` hits may precede `r`, then the first `k` of the sorted hits may. */
  lemma FirstMayPrecede(mode: SortMode, s: seq<Hit>, k: nat, r: Hit, some: seq<Hit>, others: seq<Hit>)
    requires multiset(s) == multiset(some + others) && |some| == k && InOrder(mode, s)
    requires forall x :: x in some ==> MayPrecede(mode, x, r)
    ensures k <= |s| && forall i :: 0 <= i < k ==> MayPrecede(mode, s[i], r)
  {
    var keep := (x: Hit) => MayPrecede(mode, x, r);
    FilterPermuted(keep, s, some + others);
    SameSize(Filter(keep, s), Filter(keep, some + others));
    FilterAppend(keep, some, others);
    FilterEverything(keep, some);
    SameSize(s, some + others);
    forall i | 0 <= i < k ensures MayPrecede(mode, s[i], r) {
      if !keep(s[i]) {
        forall j | i <= j < |s| ensures !keep(s[j]) {
          assert i < j ==> MayPrecede(mode, s[i], s[j]);
        }
        BehindFails(keep, s, i);
      }
    }
  }

  lemma SameSize(a: seq<Hit>, b: seq<Hit>)
    requires multiset(a) == multiset(b)
    ensures |a| == |b|
  {
    assert |multiset(a)| == |a| && |multiset(b)| == |b|;
  }

  /** The window and what was dropped are all hits; a full window was never dropped from to its harm. */
  ghost predicate SplitsOff(mode: SortMode, kept: seq<Hit>, dropped: seq<Hit>, all: seq<Hit>, k: nat) {
    && |kept| <= k && (dropped != [] ==> |kept| == k)
    && multiset(kept) + multiset(dropped) == multiset(all)
    && AllPrecede(mode, kept, dropped)
  }

  lemma SplitFurther(mode: SortMode, kept: seq<Hit>, dropped: seq<Hit>, all: seq<Hit>, batch: seq<Hit>, k: nat)
    returns (more: seq<Hit>)
    requires SplitsOff(mode, kept, dropped, all, k)
    ensures SplitsOff(mode, Trimmed(mode, kept + batch, k), more, all + batch, k)
  {
    if |kept + batch| <= k {
      more := dropped;
      NothingCut(mode, kept, dropped, all, batch, k);
    } else {
      var sorted := SortEntries(mode, kept + batch);
      EntriesInOrder(mode, kept + batch);
      SameSize(sorted, kept + batch);
      more := sorted[k..] + dropped;
      CutAdds(kept, dropped, all, batch, sorted, k);
      CutIsInOrder(mode, kept, dropped, batch, sorted, k);
    }
  }

  lemma NothingCut(mode: SortMode, kept: seq<Hit>, dropped: seq<Hit>, all: seq<Hit>, batch: seq<Hit>, k: nat)
    requires SplitsOff(mode, kept, dropped, all, k) && |kept + batch| <= k
    ensures SplitsOff(mode, kept + batch, dropped, all + batch, k)
  {
    if dropped != [] {
      assert batch == [];
      assert kept + batch == kept && all + batch == all;
    }
  }

  lemma CutAdds(kept: seq<Hit>, dropped: seq<Hit>, all: seq<Hit>, batch: seq<Hit>, sorted: seq<Hit>, k: nat)
    requires multiset(kept) + multiset(dropped) == multiset(all)
    requires multiset(sorted) == multiset(kept + batch) && k < |sorted|
    ensures multiset(sorted[..k]) + multiset(sorted[k..] + dropped) == multiset(all + batch)
  {
    var front, back := sorted[..k], sorted[k..];
    assert sorted == front + back;
    assert multiset(front) + multiset(back) == multiset(kept) + multiset(batch);
    assert multiset(back + dropped) == multiset(back) + multiset(dropped);
    assert multiset(all + batch) == multiset(all) + multiset(batch);
    Regroup(multiset(front), multiset(back), multiset(dropped));
    Regroup(multiset(kept), multiset(batch), multiset(dropped));
    Regroup(multiset(kept), multiset(dropped), multiset(batch));
    assert multiset(batch) + multiset(dropped) == multiset(dropped) + multiset(batch);
  }

  lemma Regroup(a: multiset<Hit>, b: multiset<Hit>, c: multiset<Hit>)
    ensures a + (b + c) == (a + b) + c
  {
  }

  /** Each hit of `front` may precede each of `back`. */
  ghost predicate AllPrecede(mode: SortMode, front: seq<Hit>, back: seq<Hit>) {
    forall i, j :: 0 <= i < |front| && 0 <= j < |back| ==> MayPrecede(mode, front[i], back[j])
  }

  lemma CutIsInOrder(mode: SortMode, kept: seq<Hit>, dropped: seq<Hit>, batch: seq<Hit>, sorted: seq<Hit>, k: nat)
    requires multiset(sorted) == multiset(kept + batch) && InOrder(mode, sorted) && k < |sorted|
    requires dropped != [] ==> |kept| == k
    requires AllPrecede(mode, kept, dropped)
    ensures AllPrecede(mode, sorted[..k], sorted[k..] + dropped)
  {
    var more := sorted[k..] + dropped;
    forall i, j | 0 <= i < k && 0 <= j < |more| ensures MayPrecede(mode, sorted[i], more[j]) {
      if j < |sorted[k..]| {
        assert more[j] == sorted[k + j];
      } else {
        FirstMayPrecede(mode, sorted, k, more[j], kept, batch);
      }
    }
  }

  lemma {:induction false} RoundsSplitOff(mode: SortMode, kept: seq<Hit>, dropped: seq<Hit>, all: seq<Hit>,
                                          batches: seq<seq<Hit>>, k: nat) returns (more: seq<Hit>)
    requires SplitsOff(mode, kept, dropped, all, k)
    ensures SplitsOff(mode, Rounds(mode, kept, batches, k), more, all + Flatten(batches), k)
    decreases batches
  {
    if batches == [] {
      more := dropped;
      assert all + Flatten(batches) == all;
    } else {
      var next := SplitFurther(mode, kept, dropped, all, batches[0], k);
      more := RoundsSplitOff(mode, Trimmed(mode, kept + batches[0], k), next, all + batches[0], batches[1..], k);
      Associate(all, batches[0], Flatten(batches[1..]));
    }
  }

  /** All hits, better ones first. */
  ghost predicate Arranges(mode: SortMode, list: seq<Hit>, all: seq<Hit>) {
    multiset(list) == multiset(all) && InOrder(mode, list)
  }

  lemma ArrangedBehind(mode: SortMode, kept: seq<Hit>, dropped: seq<Hit>, all: seq<Hit>, k: nat)
    requires SplitsOff(mode, kept, dropped, all, k)
    ensures Arranges(mode, SortEntries(mode, kept) + SortEntries(mode, dropped), all)
  {
    var front, back := SortEntries(mode, kept), SortEntries(mode, dropped);
    EntriesInOrder(mode, kept);
    EntriesInOrder(mode, dropped);
    SameElements(front, kept);
    SameElements(back, dropped);
    var list := front + back;
    forall i, j | 0 <= i < j < |list| ensures MayPrecede(mode, list[i], list[j]) {
      if i < |front| <= j {
        assert front[i] in kept && back[j - |front|] in dropped;
        var a, b :| 0 <= a < |kept| && kept[a] == front[i] && 0 <= b < |dropped| && dropped[b] == back[j - |front|];
      }
    }
  }

  /** The page that is shown, as part of an arrangement of all hits. */
  ghost predicate ShowsPartOf(page: seq<Hit>, list: seq<Hit>, offset: nat, limit: nat) {
    page == if offset <= |list| then list[offset..if offset + limit <= |list| then offset + limit else |list|] else []
  }

  lemma PartOfWindow(mode: SortMode, kept: seq<Hit>, dropped: seq<Hit>, offset: nat, limit: nat)
    requires |kept| <= RequestedCount(offset, limit) && (dropped != [] ==> |kept| == RequestedCount(offset, limit))
    ensures var list := SortEntries(mode, kept) + SortEntries(mode, dropped);
            ShowsPartOf(Page(mode, kept, offset, limit), list, offset, limit)
  {
    SortEntriesPermutes(mode, kept);
    SortEntriesPermutes(mode, dropped);
    var front, back := SortEntries(mode, kept), SortEntries(mode, dropped);
    if dropped == [] {
      assert front + back == front;
    }
  }

  /** However the hits came in batches, the page that is shown is the requested part of some arrangement of
      all hits: whoever is listed in front of somebody may precede him, on the page and beyond. */
  lemma PageIsPart(mode: SortMode, batches: seq<seq<Hit>>, offset: nat, limit: nat)
    returns (list: seq<Hit>)
    ensures Arranges(mode, list, Flatten(batches))
    ensures ShowsPartOf(ShownPage(mode, batches, offset, limit), list, offset, limit)
  {
    var k := RequestedCount(offset, limit);
    var kept := Rounds(mode, [], batches, k);
    var dropped := DroppedBehind(mode, batches, k);
    ArrangedBehind(mode, kept, dropped, Flatten(batches), k);
    PartOfWindow(mode, kept, dropped, offset, limit);
    list := SortEntries(mode, kept) + SortEntries(mode, dropped);
  }

  lemma DroppedBehind(mode: SortMode, batches: seq<seq<Hit>>, k: nat) returns (dropped: seq<Hit>)
    ensures SplitsOff(mode, Rounds(mode, [], batches, k), dropped, Flatten(batches), k)
  {
    dropped := RoundsSplitOff(mode, [], [], [], batches, k);
    assert [] + Flatten(batches) == Flatten(batches);
  }

  /** No hit behind the page is better than one on it, and none in front of it is worse. */
  lemma NothingBetterBehind(mode: SortMode, page: seq<Hit>, list: seq<Hit>, all: seq<Hit>, offset: nat, limit: nat,
                            shown: Hit)
    requires Arranges(mode, list, all) && ShowsPartOf(page, list, offset, limit) && shown in page
    ensures forall i :: 0 <= i < offset && i < |list| ==> MayPrecede(mode, list[i], shown)
    ensures forall i :: offset + limit <= i < |list| ==> MayPrecede(mode, shown, list[i])
  {
    var j :| 0 <= j < |page| && page[j] == shown;
    assert list[offset + j] == shown;
  }
}
