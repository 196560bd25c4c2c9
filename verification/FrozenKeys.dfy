/** The freezing of field values into hashable index keys. */
module FrozenKeys {
  import opened Sequences
  import opened Ordering

  /** Hashable values. `FObject` and `FClass` compare by identity. */
  datatype Frozen =
    | FStr(s: string)
    | FNumber(n: int)
    | FObject(id: int)
    | FClass(name: string)
    | FTuple(items: seq<Frozen>)
    | FSet(members: set<Frozen>)

  /** Field values. `Hashed`: anything that is hashable as it is and is none of the containers below, with
      what `str` shows of it; equal values may show differently, as equal frozensets do. Dictionaries,
      identifications and sets are in iteration order. */
  datatype Value =
    | Hashed(value: Frozen, shown: string)
    | Unhashable(id: int)
    | Items(items: seq<Value>)
    | SetOf(members: seq<Value>)
    | Dict(pairs: seq<Pair>)
    | Manager(name: string, identification: seq<Pair>)

  datatype Pair = Pair(key: Value, item: Value)

  /** A frozen pair with the two strings it is sorted by. */
  datatype Entry = Entry(key: Frozen, item: Frozen, keyText: string, itemText: string)

  /** Python's `str` of the frozen form of a value. It sees the iteration order of sets and
      dictionaries, which the frozen form as a key does not. */
  type Text = Value -> string

  // ----- the sort key of frozen pairs

  predicate EntryLe(p: Entry, q: Entry) {
    if p.keyText == q.keyText then StringLe(p.itemText, q.itemText) else StringLe(p.keyText, q.keyText)
  }

  lemma EntryLeIsOrder()
    ensures TotalPreorder(EntryLe)
  {
    forall p, q ensures EntryLe(p, q) || EntryLe(q, p) {
      StringLeTotal(p.keyText, q.keyText);
      StringLeTotal(p.itemText, q.itemText);
    }
    forall p, q, r | Linked(p, q, r) && EntryLe(p, q) && EntryLe(q, r) ensures EntryLe(p, r) {
      EntryLeTransitive(p, q, r);
    }
  }

  lemma EntryLeTransitive(p: Entry, q: Entry, r: Entry)
    requires EntryLe(p, q) && EntryLe(q, r)
    ensures EntryLe(p, r)
  {
    var a, b, c := p.keyText, q.keyText, r.keyText;
    if a == b == c {
      StringLeTransitive(p.itemText, q.itemText, r.itemText);
    } else if a == c {
      StringLeAntisymmetric(a, b);
    } else {
      StringLeTotal(a, a);
      StringLeTotal(b, b);
      StringLeTransitive(a, b, c);
    }
  }

  // ----- freezing

  function AsTuple(e: Entry): Frozen { FTuple([e.key, e.item]) }

  function SortedEntries(entries: seq<Entry>): Frozen {
    FTuple(Map(AsTuple, Sort(EntryLe, entries)))
  }

  function Members(xs: seq<Frozen>): set<Frozen> { set x | x in xs }

  /** `freeze_bucket_index_value`; None: the value cannot be hashed. */
  function Freeze(text: Text, v: Value): Option<Frozen>
    decreases v
  {
    match v
    case Hashed(value, _) => Some(value)
    case Unhashable(_) => None
    case Items(items) =>
      var all := FreezeAll(text, items);
      if all.None? then None else Some(FTuple(all.value))
    case SetOf(members) =>
      var all := FreezeAll(text, members);
      if all.None? then None else Some(FSet(Members(all.value)))
    case Dict(pairs) =>
      var all := FreezePairs(text, pairs);
      if all.None? then None else Some(SortedEntries(all.value))
    case Manager(name, identification) =>
      var all := FreezePairs(text, identification);
      if all.None? then None else Some(FTuple([FClass(name), SortedEntries(all.value)]))
  }

  function FreezeAll(text: Text, vs: seq<Value>): (r: Option<seq<Frozen>>)
    ensures r.Some? <==> forall i :: 0 <= i < |vs| ==> Freeze(text, vs[i]).Some?
    ensures r.Some? ==> |r.value| == |vs| && forall i :: 0 <= i < |vs| ==> r.value[i] == Freeze(text, vs[i]).value
    decreases vs
  {
    if vs == [] then Some([])
    else
      var first, rest := Freeze(text, vs[0]), FreezeAll(text, vs[1..]);
      assert forall i :: 0 < i < |vs| ==> vs[i] == vs[1..][i - 1];
      if first.None? || rest.None? then None else Some([first.value] + rest.value)
  }

  predicate Freezes(text: Text, p: Pair)
    decreases p, 0
  {
    Freeze(text, p.key).Some? && Freeze(text, p.item).Some?
  }

  function FreezePair(text: Text, p: Pair): Entry
    requires Freezes(text, p)
    decreases p, 1
  {
    Entry(Freeze(text, p.key).value, Freeze(text, p.item).value, text(p.key), text(p.item))
  }

  function FreezePairs(text: Text, ps: seq<Pair>): (r: Option<seq<Entry>>)
    ensures r.Some? <==> forall i :: 0 <= i < |ps| ==> Freezes(text, ps[i])
    ensures r.Some? ==> |r.value| == |ps| && forall i :: 0 <= i < |ps| ==> r.value[i] == FreezePair(text, ps[i])
    decreases ps
  {
    if ps == [] then Some([])
    else
      var rest := FreezePairs(text, ps[1..]);
      assert forall i :: 0 < i < |ps| ==> ps[i] == ps[1..][i - 1];
      if !Freezes(text, ps[0]) || rest.None? then None else Some([FreezePair(text, ps[0])] + rest.value)
  }

  // ----- the order of frozen pairs

  function Tuples(x: seq<Entry>): seq<Frozen> {
    Map(AsTuple, x)
  }

  ghost predicate DistinctEntries(x: seq<Entry>) {
    forall i, j :: 0 <= i < j < |x| ==> x[i].key != x[j].key
  }

  /** Two pairs sort one way around in one presentation and may sort the other way in the other one. */
  predicate Opposed(e: Entry, f: Entry, g: Entry, h: Entry) {
    e.key != f.key && AsTuple(e) == AsTuple(g) && AsTuple(f) == AsTuple(h) && EntryLe(e, f) && EntryLe(h, g)
  }

  ghost predicate OrderedAlike(x: seq<Entry>, y: seq<Entry>) {
    forall e, f, g, h :: e in x && f in x && g in y && h in y ==> !Opposed(e, f, g, h)
  }

  function Rank(s: seq<Frozen>, t: Frozen): nat {
    if s == [] || s[0] == t then 0 else 1 + Rank(s[1..], t)
  }

  lemma {:induction false} RankAt(s: seq<Frozen>, i: nat)
    requires Distinct(s) && i < |s|
    ensures Rank(s, s[i]) == i
    decreases s
  {
    if i > 0 {
      RankAt(s[1..], i - 1);
    }
  }

  lemma TupleParts(e: Entry, f: Entry)
    ensures AsTuple(e) == AsTuple(f) <==> e.key == f.key && e.item == f.item
  {
    assert AsTuple(e).items == [e.key, e.item] && AsTuple(f).items == [f.key, f.item];
    assert [e.key, e.item][0] == e.key && [e.key, e.item][1] == e.item;
    assert [f.key, f.item][0] == f.key && [f.key, f.item][1] == f.item;
  }

  lemma DistinctTuples(x: seq<Entry>)
    requires DistinctEntries(x)
    ensures Distinct(Tuples(x)) && Distinct(x)
  {
    forall i, j | 0 <= i < j < |x| ensures Tuples(x)[i] != Tuples(x)[j] {
      TupleParts(x[i], x[j]);
    }
  }

  lemma SortedTuples(x: seq<Entry>)
    requires DistinctEntries(x)
    ensures var sorted := Sort(EntryLe, x);
            && Sorted(EntryLe, sorted) && (forall e :: e in sorted <==> e in x)
            && Distinct(Tuples(sorted)) && multiset(Tuples(sorted)) == multiset(Tuples(x))
  {
    var sorted := Sort(EntryLe, x);
    EntryLeIsOrder();
    SortSorts(EntryLe, x);
    SortPermutes(EntryLe, x);
    DistinctTuples(x);
    MapPermuted(AsTuple, sorted, x);
    PermutedDistinct(Tuples(sorted), Tuples(x));
  }

  lemma PositionOf(sx: seq<Entry>, t: Frozen) returns (k: nat)
    requires Distinct(Tuples(sx)) && t in Tuples(sx)
    ensures k < |sx| && AsTuple(sx[k]) == t && Rank(Tuples(sx), t) == k
  {
    k :| 0 <= k < |sx| && Tuples(sx)[k] == t;
    RankAt(Tuples(sx), k);
  }

  lemma RanksAscend(sx: seq<Entry>, g: Entry, h: Entry)
    requires Sorted(EntryLe, sx) && Distinct(Tuples(sx)) && EntryLe(g, h)
    requires AsTuple(g) in Tuples(sx) && AsTuple(h) in Tuples(sx)
    requires forall e, f :: e in sx && f in sx ==> !Opposed(e, f, h, g)
    requires forall i, j :: 0 <= i < j < |sx| ==> sx[i].key != sx[j].key
    ensures Rank(Tuples(sx), AsTuple(g)) <= Rank(Tuples(sx), AsTuple(h))
  {
    var k := PositionOf(sx, AsTuple(g));
    var l := PositionOf(sx, AsTuple(h));
    if l < k {
      assert EntryLe(sx[l], sx[k]);
      assert Opposed(sx[l], sx[k], h, g);
    }
  }

  lemma SortedKeysDiffer(x: seq<Entry>)
    requires DistinctEntries(x)
    ensures DistinctEntries(Sort(EntryLe, x))
  {
    var sorted := Sort(EntryLe, x);
    SortedTuples(x);
    forall i, j | 0 <= i < j < |sorted| ensures sorted[i].key != sorted[j].key {
      assert sorted[i] in x && sorted[j] in x;
      assert Tuples(sorted)[i] != Tuples(sorted)[j];
    }
  }

  /** Ranks order what they are ranks in. */
  lemma RanksSort(s: seq<Frozen>)
    requires Distinct(s)
    ensures var le := (t: Frozen, u: Frozen) => Rank(s, t) <= Rank(s, u);
            TotalPreorder(le) && Sorted(le, s) && TieFree(le, s)
  {
    forall i, j | 0 <= i < j < |s| ensures Rank(s, s[i]) <= Rank(s, s[j]) {
      RankAt(s, i);
      RankAt(s, j);
    }
    forall t, u | t in s && u in s && Rank(s, t) == Rank(s, u) ensures t == u {
      var i :| 0 <= i < |s| && s[i] == t;
      var j :| 0 <= j < |s| && s[j] == u;
      RankAt(s, i);
      RankAt(s, j);
    }
  }

  lemma PlacesAscend(sx: seq<Entry>, sy: seq<Entry>, i: nat, j: nat)
    requires Sorted(EntryLe, sx) && Sorted(EntryLe, sy) && DistinctEntries(sx) && Distinct(Tuples(sx))
    requires OrderedAlike(sx, sy) && (forall t :: t in Tuples(sy) ==> t in Tuples(sx)) && i < j < |sy|
    ensures Rank(Tuples(sx), Tuples(sy)[i]) <= Rank(Tuples(sx), Tuples(sy)[j])
  {
    assert Tuples(sy)[i] in Tuples(sy) && Tuples(sy)[j] in Tuples(sy);
    assert sy[i] in sy && sy[j] in sy && EntryLe(sy[i], sy[j]);
    RanksAscend(sx, sy[i], sy[j]);
  }

  lemma SortedAlike(sx: seq<Entry>, sy: seq<Entry>)
    requires Sorted(EntryLe, sx) && Sorted(EntryLe, sy) && DistinctEntries(sx) && DistinctEntries(sy)
    requires OrderedAlike(sx, sy) && forall t :: t in Tuples(sx) <==> t in Tuples(sy)
    ensures Tuples(sx) == Tuples(sy)
  {
    var le := (t: Frozen, u: Frozen) => Rank(Tuples(sx), t) <= Rank(Tuples(sx), u);
    DistinctTuples(sx);
    DistinctTuples(sy);
    DistinctPermutation(Tuples(sx), Tuples(sy));
    RanksSort(Tuples(sx));
    forall i, j | 0 <= i < j < |sy| ensures le(Tuples(sy)[i], Tuples(sy)[j]) {
      PlacesAscend(sx, sy, i, j);
    }
    SortedUnique(le, Tuples(sx), Tuples(sy));
  }

  /** Dictionaries that hold the same frozen pairs freeze alike when no two pairs are opposed. */
  lemma SameOrder(x: seq<Entry>, y: seq<Entry>)
    requires DistinctEntries(x) && DistinctEntries(y) && OrderedAlike(x, y)
    requires forall t :: t in Tuples(x) <==> t in Tuples(y)
    ensures SortedEntries(x) == SortedEntries(y)
  {
    SortedTuples(x);
    SortedTuples(y);
    SortedKeysDiffer(x);
    SortedKeysDiffer(y);
    SameMultisetMembers(Tuples(Sort(EntryLe, x)), Tuples(x));
    SameMultisetMembers(Tuples(Sort(EntryLe, y)), Tuples(y));
    SortedAlike(Sort(EntryLe, x), Sort(EntryLe, y));
  }

  lemma SameMultisetMembers<T>(a: seq<T>, b: seq<T>)
    requires multiset(a) == multiset(b)
    ensures forall x :: x in a <==> x in b
  {
    forall x ensures x in a <==> x in b {
      assert x in a <==> x in multiset(a);
      assert x in b <==> x in multiset(b);
    }
  }

  // ----- string-keyed dictionaries

  predicate IsString(v: Value) { v.Hashed? && v.value.FStr? }

  /** `str` of a string is the string. */
  ghost predicate PlainText(text: Text) {
    forall v :: IsString(v) ==> text(v) == v.value.s
  }

  /** A Python dictionary whose keys are strings. */
  ghost predicate StringKeyed(ps: seq<Pair>) {
    && (forall i :: 0 <= i < |ps| ==> IsString(ps[i].key))
    && (forall i, j :: 0 <= i < j < |ps| ==> ps[i].key.value != ps[j].key.value)
  }

  lemma StringEntries(text: Text, ps: seq<Pair>)
    requires PlainText(text) && StringKeyed(ps) && FreezePairs(text, ps).Some?
    ensures var x := FreezePairs(text, ps).value;
            DistinctEntries(x) && forall e :: e in x ==> e.key.FStr? && e.keyText == e.key.s
  {
    var x := FreezePairs(text, ps).value;
    forall i | 0 <= i < |ps| ensures x[i].key == ps[i].key.value && x[i].key.FStr? && x[i].keyText == x[i].key.s {
      assert IsString(ps[i].key);
      assert x[i] == FreezePair(text, ps[i]);
    }
  }

  lemma StringsAreOrderedAlike(x: seq<Entry>, y: seq<Entry>)
    requires forall e :: e in x || e in y ==> e.key.FStr? && e.keyText == e.key.s
    ensures OrderedAlike(x, y)
  {
    forall e, f, g, h | e in x && f in x && g in y && h in y ensures !Opposed(e, f, g, h) {
      if Opposed(e, f, g, h) {
        TupleParts(e, g);
        TupleParts(f, h);
        StringLeAntisymmetric(e.keyText, f.keyText);
      }
    }
  }

  /** Frozen string-keyed dictionaries are equal exactly when they hold the same frozen pairs. */
  lemma SortedEntriesAgree(text: Text, a: seq<Pair>, b: seq<Pair>)
    requires PlainText(text) && StringKeyed(a) && StringKeyed(b)
    requires FreezePairs(text, a).Some? && FreezePairs(text, b).Some?
    ensures var x, y := FreezePairs(text, a).value, FreezePairs(text, b).value;
            SortedEntries(x) == SortedEntries(y) <==> forall t :: t in Tuples(x) <==> t in Tuples(y)
  {
    var x, y := FreezePairs(text, a).value, FreezePairs(text, b).value;
    StringEntries(text, a);
    StringEntries(text, b);
    if forall t :: t in Tuples(x) <==> t in Tuples(y) {
      StringsAreOrderedAlike(x, y);
      SameOrder(x, y);
    }
    if SortedEntries(x) == SortedEntries(y) {
      SortedTuples(x);
      SortedTuples(y);
      SameMultisetMembers(Tuples(x), Tuples(y));
    }
  }

  // ----- presentations of a value

  /** The same value up to the iteration order of sets and of string-keyed dictionaries, at any depth, and
      up to how hashable values show. */
  ghost predicate Reordered(v: Value, w: Value)
    decreases v, 0
  {
    match (v, w)
    case (Hashed(x, _), Hashed(y, _)) => x == y
    case (Items(a), Items(b)) => |a| == |b| && forall i :: 0 <= i < |a| ==> Reordered(a[i], b[i])
    case (SetOf(a), SetOf(b)) => EachFrom(a, b) && EachTo(a, b)
    case (Dict(a), Dict(b)) => a == b || ReorderedPairs(a, b)
    case (Manager(m, a), Manager(n, b)) => m == n && (a == b || ReorderedPairs(a, b))
    case _ => v == w
  }

  ghost predicate ReorderedTo(v: Value, b: seq<Value>)
    decreases v, 1
  {
    exists j :: 0 <= j < |b| && Reordered(v, b[j])
  }

  ghost predicate ReorderedFrom(a: seq<Value>, w: Value)
    decreases a, 0
  {
    exists i :: 0 <= i < |a| && Reordered(a[i], w)
  }

  ghost predicate EachFrom(a: seq<Value>, b: seq<Value>)
    decreases a, 1
  {
    forall i :: 0 <= i < |a| ==> ReorderedTo(a[i], b)
  }

  ghost predicate EachTo(a: seq<Value>, b: seq<Value>)
    decreases a, 1
  {
    forall j :: 0 <= j < |b| ==> ReorderedFrom(a, b[j])
  }

  ghost predicate ReorderedPair(p: Pair, q: Pair)
    decreases p, 0
  {
    Reordered(p.key, q.key) && Reordered(p.item, q.item)
  }

  ghost predicate PairTo(p: Pair, b: seq<Pair>)
    decreases p, 1
  {
    exists j :: 0 <= j < |b| && ReorderedPair(p, b[j])
  }

  ghost predicate PairFrom(a: seq<Pair>, q: Pair)
    decreases a, 0
  {
    exists i :: 0 <= i < |a| && ReorderedPair(a[i], q)
  }

  ghost predicate ReorderedPairs(a: seq<Pair>, b: seq<Pair>)
    decreases a, 2
  {
    && StringKeyed(a) && StringKeyed(b)
    && (forall i :: 0 <= i < |a| ==> PairTo(a[i], b))
    && (forall j :: 0 <= j < |b| ==> PairFrom(a, b[j]))
  }

  /** Freezing ignores the iteration order of sets and of string-keyed dictionaries, at every depth. */
  lemma {:induction false} FreezeIgnoresOrder(text: Text, v: Value, w: Value)
    requires PlainText(text) && Reordered(v, w)
    ensures Freeze(text, v) == Freeze(text, w)
    decreases v, 0
  {
    match (v, w) {
      case (Items(a), Items(b)) =>
        forall i | 0 <= i < |a| ensures Freeze(text, a[i]) == Freeze(text, b[i]) {
          FreezeIgnoresOrder(text, a[i], b[i]);
        }
        ItemsInOrder(text, a, b);
      case (SetOf(a), SetOf(b)) => SetIgnoresOrder(text, a, b);
      case (Dict(a), Dict(b)) =>
        if a != b {
          PairsIgnoreOrder(text, a, b);
        }
      case (Manager(_, a), Manager(_, b)) =>
        if a != b {
          PairsIgnoreOrder(text, a, b);
        }
      case _ =>
    }
  }

  lemma {:induction false} SetIgnoresOrder(text: Text, a: seq<Value>, b: seq<Value>)
    requires PlainText(text) && EachFrom(a, b) && EachTo(a, b)
    ensures FreezeAll(text, a).Some? <==> FreezeAll(text, b).Some?
    ensures FreezeAll(text, a).Some? ==> Members(FreezeAll(text, a).value) == Members(FreezeAll(text, b).value)
    decreases a
  {
    AllOccurTo(text, a, b);
    AllOccurFrom(text, a, b);
    SameMembers(text, a, b);
  }

  lemma {:induction false} AllOccurTo(text: Text, a: seq<Value>, b: seq<Value>)
    requires PlainText(text) && EachFrom(a, b)
    ensures AllOccur(text, a, b)
    decreases a, 0
  {
    forall i | 0 <= i < |a| ensures Occurs(text, a[i], b) {
      OccursTo(text, a[i], b);
    }
  }

  lemma {:induction false} AllOccurFrom(text: Text, a: seq<Value>, b: seq<Value>)
    requires PlainText(text) && EachTo(a, b)
    ensures AllOccur(text, b, a)
    decreases a, 1
  {
    forall j | 0 <= j < |b| ensures Occurs(text, b[j], a) {
      OccursFrom(text, a, b[j]);
    }
  }

  lemma {:induction false} OccursTo(text: Text, v: Value, b: seq<Value>)
    requires PlainText(text) && ReorderedTo(v, b)
    ensures Occurs(text, v, b)
    decreases v, 1
  {
    var j :| 0 <= j < |b| && Reordered(v, b[j]);
    FreezeIgnoresOrder(text, v, b[j]);
  }

  lemma {:induction false} OccursFrom(text: Text, a: seq<Value>, w: Value)
    requires PlainText(text) && ReorderedFrom(a, w)
    ensures Occurs(text, w, a)
    decreases a, 0
  {
    var i :| 0 <= i < |a| && Reordered(a[i], w);
    FreezeIgnoresOrder(text, a[i], w);
  }

  lemma ItemsInOrder(text: Text, a: seq<Value>, b: seq<Value>)
    requires |a| == |b| && forall i :: 0 <= i < |a| ==> Freeze(text, a[i]) == Freeze(text, b[i])
    ensures FreezeAll(text, a) == FreezeAll(text, b)
  {
    if FreezeAll(text, a).Some? {
      assert FreezeAll(text, a).value == FreezeAll(text, b).value;
    }
  }

  /** Some value in `b` freezes as `v` does. */
  ghost predicate Occurs(text: Text, v: Value, b: seq<Value>) {
    exists j :: 0 <= j < |b| && Freeze(text, v) == Freeze(text, b[j])
  }

  ghost predicate AllOccur(text: Text, a: seq<Value>, b: seq<Value>) {
    forall i :: 0 <= i < |a| ==> Occurs(text, a[i], b)
  }

  lemma SameMembers(text: Text, a: seq<Value>, b: seq<Value>)
    requires AllOccur(text, a, b) && AllOccur(text, b, a)
    ensures FreezeAll(text, a).Some? <==> FreezeAll(text, b).Some?
    ensures FreezeAll(text, a).Some? ==> Members(FreezeAll(text, a).value) == Members(FreezeAll(text, b).value)
  {
    MembersAlsoIn(text, a, b);
    MembersAlsoIn(text, b, a);
  }

  lemma MembersAlsoIn(text: Text, a: seq<Value>, b: seq<Value>)
    requires AllOccur(text, a, b)
    ensures FreezeAll(text, b).Some? ==>
              FreezeAll(text, a).Some? && Members(FreezeAll(text, a).value) <= Members(FreezeAll(text, b).value)
  {
    if FreezeAll(text, b).Some? {
      forall i | 0 <= i < |a| ensures Freeze(text, a[i]).Some? && Freeze(text, a[i]).value in FreezeAll(text, b).value {
        assert Occurs(text, a[i], b);
        var j :| 0 <= j < |b| && Freeze(text, a[i]) == Freeze(text, b[j]);
        assert FreezeAll(text, b).value[j] == Freeze(text, b[j]).value;
      }
    }
  }

  ghost predicate PairAlike(text: Text, p: Pair, q: Pair) {
    Freeze(text, p.key) == Freeze(text, q.key) && Freeze(text, p.item) == Freeze(text, q.item)
  }

  ghost predicate PairOccurs(text: Text, p: Pair, b: seq<Pair>) {
    exists j :: 0 <= j < |b| && PairAlike(text, p, b[j])
  }

  ghost predicate AllPairsOccur(text: Text, a: seq<Pair>, b: seq<Pair>) {
    forall i :: 0 <= i < |a| ==> PairOccurs(text, a[i], b)
  }

  lemma {:induction false} PairIgnoresOrder(text: Text, p: Pair, q: Pair)
    requires PlainText(text) && ReorderedPair(p, q)
    ensures PairAlike(text, p, q)
    decreases p, 0
  {
    FreezeIgnoresOrder(text, p.key, q.key);
    FreezeIgnoresOrder(text, p.item, q.item);
  }

  lemma {:induction false} PairsIgnoreOrder(text: Text, a: seq<Pair>, b: seq<Pair>)
    requires PlainText(text) && ReorderedPairs(a, b)
    ensures FreezePairs(text, a).Some? <==> FreezePairs(text, b).Some?
    ensures FreezePairs(text, a).Some? ==>
              SortedEntries(FreezePairs(text, a).value) == SortedEntries(FreezePairs(text, b).value)
    decreases a, 2
  {
    PairsOccurTo(text, a, b);
    PairsOccurFrom(text, a, b);
    PairsCover(text, a, b);
    if FreezePairs(text, a).Some? {
      SortedEntriesAgree(text, a, b);
    }
  }

  lemma {:induction false} PairsOccurTo(text: Text, a: seq<Pair>, b: seq<Pair>)
    requires PlainText(text) && forall i :: 0 <= i < |a| ==> PairTo(a[i], b)
    ensures AllPairsOccur(text, a, b)
    decreases a, 0
  {
    forall i | 0 <= i < |a| ensures PairOccurs(text, a[i], b) {
      PairOccursTo(text, a[i], b);
    }
  }

  lemma {:induction false} PairsOccurFrom(text: Text, a: seq<Pair>, b: seq<Pair>)
    requires PlainText(text) && forall j :: 0 <= j < |b| ==> PairFrom(a, b[j])
    ensures AllPairsOccur(text, b, a)
    decreases a, 1
  {
    forall j | 0 <= j < |b| ensures PairOccurs(text, b[j], a) {
      PairOccursFrom(text, a, b[j]);
    }
  }

  lemma {:induction false} PairOccursTo(text: Text, p: Pair, b: seq<Pair>)
    requires PlainText(text) && PairTo(p, b)
    ensures PairOccurs(text, p, b)
    decreases p, 1
  {
    var j :| 0 <= j < |b| && ReorderedPair(p, b[j]);
    PairIgnoresOrder(text, p, b[j]);
  }

  lemma {:induction false} PairOccursFrom(text: Text, a: seq<Pair>, q: Pair)
    requires PlainText(text) && PairFrom(a, q)
    ensures PairOccurs(text, q, a)
    decreases a, 0
  {
    var i :| 0 <= i < |a| && ReorderedPair(a[i], q);
    PairIgnoresOrder(text, a[i], q);
    assert PairAlike(text, q, a[i]);
  }

  lemma PairsCover(text: Text, a: seq<Pair>, b: seq<Pair>)
    requires AllPairsOccur(text, a, b) && AllPairsOccur(text, b, a)
    ensures FreezePairs(text, a).Some? <==> FreezePairs(text, b).Some?
    ensures FreezePairs(text, a).Some? ==>
              forall t :: t in Tuples(FreezePairs(text, a).value) <==> t in Tuples(FreezePairs(text, b).value)
  {
    PairsAlsoIn(text, a, b);
    PairsAlsoIn(text, b, a);
  }

  lemma PairsAlsoIn(text: Text, a: seq<Pair>, b: seq<Pair>)
    requires AllPairsOccur(text, a, b)
    ensures FreezePairs(text, b).Some? ==> FreezePairs(text, a).Some?
    ensures FreezePairs(text, b).Some? ==>
              forall t :: t in Tuples(FreezePairs(text, a).value) ==> t in Tuples(FreezePairs(text, b).value)
  {
    if FreezePairs(text, b).Some? {
      var y := FreezePairs(text, b).value;
      forall i | 0 <= i < |a| ensures Freezes(text, a[i]) && AsTuple(FreezePair(text, a[i])) in Tuples(y) {
        assert PairOccurs(text, a[i], b);
        var j :| 0 <= j < |b| && PairAlike(text, a[i], b[j]);
        assert Freezes(text, b[j]) && y[j] == FreezePair(text, b[j]);
        assert Tuples(y)[j] == AsTuple(y[j]);
      }
      var x := FreezePairs(text, a).value;
      forall t | t in Tuples(x) ensures t in Tuples(y) {
        var i :| 0 <= i < |x| && Tuples(x)[i] == t;
        assert t == AsTuple(FreezePair(text, a[i]));
      }
    }
  }

  // ----- dictionaries with any keys

  /** `b` is the dictionary `a` in another insertion order, its pairs in other presentations: pair `k` of `b`
      is pair `perm[k]` of `a`. */
  ghost predicate PresentsAs(rel: (Pair, Pair) -> bool, a: seq<Pair>, b: seq<Pair>, perm: seq<nat>, inverse: seq<nat>) {
    && |b| == |a| == |perm| == |inverse|
    && (forall k :: 0 <= k < |b| ==> perm[k] < |a| && inverse[perm[k]] == k)
    && (forall i :: 0 <= i < |a| ==> inverse[i] < |b| && perm[inverse[i]] == i)
    && (forall k :: 0 <= k < |b| ==> rel(a[perm[k]], b[k]))
  }

  ghost predicate Presents(rel: (Pair, Pair) -> bool, a: seq<Pair>, b: seq<Pair>) {
    exists perm, inverse :: PresentsAs(rel, a, b, perm, inverse)
  }

  /** The pairs `x` and `y` may sort one way around as `p` and `q` and the other way around as `p2`, `q2`. */
  ghost predicate Clash(rel: (Pair, Pair) -> bool, entry: Pair -> Entry, x: Pair, y: Pair, p: Pair, q: Pair, p2: Pair,
                        q2: Pair)
  {
    && rel(x, p) && rel(x, p2) && rel(y, q) && rel(y, q2)
    && EntryLe(entry(p), entry(q)) && EntryLe(entry(q2), entry(p2))
  }

  /** For no two pairs does their order under `str` depend on how they are presented, and no two tie. */
  ghost predicate Steady(rel: (Pair, Pair) -> bool, entry: Pair -> Entry, a: seq<Pair>) {
    forall i, j, p, q, p2, q2 :: 0 <= i < j < |a| ==> !Clash(rel, entry, a[i], a[j], p, q, p2, q2)
  }

  /** What a relation between presentations of pairs has to satisfy. */
  ghost predicate Presentation(rel: (Pair, Pair) -> bool, entry: Pair -> Entry, a: seq<Pair>) {
    && (forall p :: rel(p, p))
    && (forall p, q :: p in a && rel(p, q) ==> AsTuple(entry(p)) == AsTuple(entry(q)))
  }

  /** A presentation has the frozen pairs of the dictionary, each at its new place. */
  lemma PresentedPair(rel: (Pair, Pair) -> bool, entry: Pair -> Entry, a: seq<Pair>, b: seq<Pair>,
                      perm: seq<nat>, inverse: seq<nat>, k: nat)
    requires Presentation(rel, entry, a) && PresentsAs(rel, a, b, perm, inverse) && k < |b|
    ensures AsTuple(entry(b[k])) == AsTuple(entry(a[perm[k]])) && entry(b[k]).key == entry(a[perm[k]]).key
  {
    assert a[perm[k]] in a;
    TupleParts(entry(a[perm[k]]), entry(b[k]));
  }

  lemma PresentedKeys(rel: (Pair, Pair) -> bool, entry: Pair -> Entry, a: seq<Pair>, b: seq<Pair>,
                      perm: seq<nat>, inverse: seq<nat>)
    requires Presentation(rel, entry, a) && PresentsAs(rel, a, b, perm, inverse) && DistinctEntries(Map(entry, a))
    ensures DistinctEntries(Map(entry, b))
  {
    var x, y := Map(entry, a), Map(entry, b);
    forall k, l | 0 <= k < l < |y| ensures y[k].key != y[l].key {
      PresentedPair(rel, entry, a, b, perm, inverse, k);
      PresentedPair(rel, entry, a, b, perm, inverse, l);
      KeysApart(x, perm[k], perm[l]);
    }
  }

  lemma KeysApart(x: seq<Entry>, i: nat, j: nat)
    requires DistinctEntries(x) && i < |x| && j < |x|
    ensures x[i].key == x[j].key <==> i == j
  {
    assert i < j ==> x[i].key != x[j].key;
    assert j < i ==> x[j].key != x[i].key;
  }

  ghost predicate SteadyPresentation(rel: (Pair, Pair) -> bool, entry: Pair -> Entry, a: seq<Pair>, b: seq<Pair>,
                                     perm: seq<nat>, inverse: seq<nat>)
  {
    && Presentation(rel, entry, a) && PresentsAs(rel, a, b, perm, inverse)
    && DistinctEntries(Map(entry, a)) && Steady(rel, entry, a)
  }

  lemma NotOpposed(rel: (Pair, Pair) -> bool, entry: Pair -> Entry, a: seq<Pair>, b: seq<Pair>,
                   perm: seq<nat>, inverse: seq<nat>, x: seq<Entry>, y: seq<Entry>, i: nat, j: nat, k: nat, l: nat)
    requires x == Map(entry, a) && y == Map(entry, b) && i < |x| && j < |x| && k < |y| && l < |y|
    ensures SteadyPresentation(rel, entry, a, b, perm, inverse) ==> !Opposed(x[i], x[j], y[k], y[l])
  {
    if SteadyPresentation(rel, entry, a, b, perm, inverse) && Opposed(x[i], x[j], y[k], y[l]) {
      PresentedPair(rel, entry, a, b, perm, inverse, k);
      PresentedPair(rel, entry, a, b, perm, inverse, l);
      TupleParts(x[i], y[k]);
      TupleParts(x[j], y[l]);
      KeysApart(x, i, perm[k]);
      KeysApart(x, j, perm[l]);
      if i < j {
        assert Clash(rel, entry, a[i], a[j], a[i], a[j], b[k], b[l]);
      } else {
        assert Clash(rel, entry, a[j], a[i], b[l], b[k], a[j], a[i]);
      }
    }
  }

  /** No entries of `x` and of `y` oppose each other, by position. */
  ghost predicate OrderedAlikeAt(x: seq<Entry>, y: seq<Entry>) {
    forall i, j, k, l :: 0 <= i < |x| && 0 <= j < |x| && 0 <= k < |y| && 0 <= l < |y| ==>
                           !Opposed(x[i], x[j], y[k], y[l])
  }

  lemma Position(x: seq<Entry>, e: Entry) returns (i: nat)
    requires e in x
    ensures i < |x| && x[i] == e
  {
    i :| 0 <= i < |x| && x[i] == e;
  }

  lemma OrderedAlikeByPosition(x: seq<Entry>, y: seq<Entry>)
    requires OrderedAlikeAt(x, y)
    ensures OrderedAlike(x, y)
  {
    forall e, f, g, h | e in x && f in x && g in y && h in y ensures !Opposed(e, f, g, h) {
      var i := Position(x, e);
      var j := Position(x, f);
      var k := Position(y, g);
      var l := Position(y, h);
      assert !Opposed(x[i], x[j], y[k], y[l]);
    }
  }

  lemma SteadyIsOrderedAlikeAt(rel: (Pair, Pair) -> bool, entry: Pair -> Entry, a: seq<Pair>, b: seq<Pair>,
                               perm: seq<nat>, inverse: seq<nat>, x: seq<Entry>, y: seq<Entry>)
    requires x == Map(entry, a) && y == Map(entry, b)
    ensures SteadyPresentation(rel, entry, a, b, perm, inverse) ==> OrderedAlikeAt(x, y)
  {
    forall i, j, k, l | 0 <= i < |x| && 0 <= j < |x| && 0 <= k < |y| && 0 <= l < |y|
      ensures SteadyPresentation(rel, entry, a, b, perm, inverse) ==> !Opposed(x[i], x[j], y[k], y[l])
    {
      NotOpposed(rel, entry, a, b, perm, inverse, x, y, i, j, k, l);
    }
  }

  lemma PresentedTuples(rel: (Pair, Pair) -> bool, entry: Pair -> Entry, a: seq<Pair>, b: seq<Pair>,
                        perm: seq<nat>, inverse: seq<nat>)
    requires Presentation(rel, entry, a) && PresentsAs(rel, a, b, perm, inverse)
    ensures forall t :: t in Tuples(Map(entry, a)) <==> t in Tuples(Map(entry, b))
  {
    var x, y := Tuples(Map(entry, a)), Tuples(Map(entry, b));
    forall t | t in x ensures t in y {
      var i :| 0 <= i < |x| && x[i] == t;
      PresentedPair(rel, entry, a, b, perm, inverse, inverse[i]);
      assert y[inverse[i]] == t;
    }
    forall t | t in y ensures t in x {
      var k :| 0 <= k < |y| && y[k] == t;
      PresentedPair(rel, entry, a, b, perm, inverse, k);
      assert x[perm[k]] == t;
    }
  }

  // ----- a clash shows

  lemma {:induction false} InsertKeepsOrder(t: seq<Entry>, e: Entry, k: nat, l: nat) returns (m: nat, n: nat)
    requires k < l < |t|
    ensures m < n < |Insert(EntryLe, t, e)|
    ensures Insert(EntryLe, t, e)[m] == t[k] && Insert(EntryLe, t, e)[n] == t[l]
    decreases t
  {
    if !EntryLe(t[0], e) {
      m, n := k + 1, l + 1;
    } else if k > 0 {
      m, n := InsertKeepsOrder(t[1..], e, k - 1, l - 1);
      m, n := m + 1, n + 1;
    } else {
      m := 0;
      n := InsertKeeps(t[1..], e, l - 1);
      n := n + 1;
    }
  }

  lemma {:induction false} InsertKeeps(t: seq<Entry>, e: Entry, l: nat) returns (n: nat)
    requires l < |t|
    ensures n < |Insert(EntryLe, t, e)| && Insert(EntryLe, t, e)[n] == t[l]
    decreases t
  {
    if !EntryLe(t[0], e) {
      n := l + 1;
    } else if l > 0 {
      n := InsertKeeps(t[1..], e, l - 1);
      n := n + 1;
    } else {
      n := 0;
    }
  }

  /** An element is inserted behind every element of a sorted sequence that does not exceed it. */
  lemma {:induction false} InsertBehind(t: seq<Entry>, e: Entry, k: nat) returns (n: nat)
    requires Sorted(EntryLe, t) && k < |t| && EntryLe(t[k], e)
    ensures k < n < |Insert(EntryLe, t, e)|
    ensures Insert(EntryLe, t, e)[k] == t[k] && Insert(EntryLe, t, e)[n] == e
    decreases t
  {
    if k > 0 {
      assert EntryLe(t[0], t[k]);
      EntryLeTransitive(t[0], t[k], e);
      SortedTail(EntryLe, t);
      n := InsertBehind(t[1..], e, k - 1);
      n := n + 1;
    } else {
      n := InsertPlace(t[1..], e);
      n := n + 1;
    }
  }

  lemma {:induction false} InsertPlace(t: seq<Entry>, e: Entry) returns (n: nat)
    ensures n < |Insert(EntryLe, t, e)| && Insert(EntryLe, t, e)[n] == e
    decreases t
  {
    n := 0;
    if t != [] && EntryLe(t[0], e) {
      n := InsertPlace(t[1..], e);
      n := n + 1;
    }
  }

  lemma {:induction false} InsertAllKeepsOrder(t: seq<Entry>, es: seq<Entry>, k: nat, l: nat) returns (m: nat, n: nat)
    requires k < l < |t|
    ensures m < n < |InsertAll(EntryLe, t, es)|
    ensures InsertAll(EntryLe, t, es)[m] == t[k] && InsertAll(EntryLe, t, es)[n] == t[l]
    decreases es
  {
    m, n := k, l;
    if es != [] {
      m, n := InsertKeepsOrder(t, es[0], k, l);
      m, n := InsertAllKeepsOrder(Insert(EntryLe, t, es[0]), es[1..], m, n);
    }
  }

  lemma SortSplit(front: seq<Entry>, e: Entry, rest: seq<Entry>)
    ensures Sort(EntryLe, front + [e] + rest) == InsertAll(EntryLe, Insert(EntryLe, Sort(EntryLe, front), e), rest)
  {
    InsertAllAppend(EntryLe, [], front, [e] + rest);
    Associate(front, [e], rest);
    assert ([e] + rest)[1..] == rest;
  }

  lemma SortedPosition(x: seq<Entry>, i: nat) returns (k: nat)
    requires i < |x|
    ensures k < |Sort(EntryLe, x)| && Sort(EntryLe, x)[k] == x[i]
  {
    SortPermutes(EntryLe, x);
    k := Position(Sort(EntryLe, x), x[i]);
  }

  lemma SortedByEntryLe(x: seq<Entry>)
    ensures Sorted(EntryLe, Sort(EntryLe, x))
  {
    EntryLeIsOrder();
    SortSorts(EntryLe, x);
  }

  /** The stable sort keeps an element in front of a later one that it does not exceed. */
  lemma SortKeepsOrder(x: seq<Entry>, i: nat, j: nat) returns (m: nat, n: nat)
    requires i < j < |x| && EntryLe(x[i], x[j])
    ensures m < n < |Sort(EntryLe, x)| && Sort(EntryLe, x)[m] == x[i] && Sort(EntryLe, x)[n] == x[j]
  {
    var front, rest := x[..j], x[j + 1..];
    var t := Sort(EntryLe, front);
    SortedByEntryLe(front);
    var k := SortedPosition(front, i);
    n := InsertBehind(t, x[j], k);
    m, n := InsertAllKeepsOrder(Insert(EntryLe, t, x[j]), rest, k, n);
    SortSplit(front, x[j], rest);
    assert x == front + [x[j]] + rest;
  }

  function Identity(n: nat): seq<nat> { seq(n, i => i) }

  /** Two pairs in another presentation, in their places or exchanged. */
  lemma ReplacedPresents(rel: (Pair, Pair) -> bool, a: seq<Pair>, i: nat, j: nat, m: nat, n: nat, p: Pair, q: Pair)
    requires forall p :: rel(p, p)
    requires i < j < |a| && ((m == i && n == j) || (m == j && n == i))
    requires rel(a[m], p) && rel(a[n], q)
    ensures Presents(rel, a, a[i := p][j := q])
  {
    var perm: seq<nat> := Identity(|a|)[i := m][j := n];
    assert PresentsAs(rel, a, a[i := p][j := q], perm, perm);
  }

  /** A sequence of different tuples has two of them in one order only. */
  lemma OneOrder(s: seq<Frozen>, t: Frozen, u: Frozen, k: nat, l: nat, m: nat, n: nat)
    requires Distinct(s) && k < l < |s| && n < m < |s|
    requires s[k] == t && s[l] == u && s[m] == t
    ensures s[n] != u
  {
  }

  /** In the stable sort of `x` the pair at `i` stays in front of the pair at `j`. */
  lemma SortedTuplesKeep(x: seq<Entry>, i: nat, j: nat, e: Entry, f: Entry) returns (k: nat, l: nat)
    requires i < j < |x| && x[i] == e && x[j] == f && EntryLe(e, f)
    ensures k < l < |Tuples(Sort(EntryLe, x))|
    ensures Tuples(Sort(EntryLe, x))[k] == AsTuple(e) && Tuples(Sort(EntryLe, x))[l] == AsTuple(f)
  {
    k, l := SortKeepsOrder(x, i, j);
  }

  lemma ExchangedSort(x: seq<Entry>, y: seq<Entry>, i: nat, j: nat, e: Entry, f: Entry, g: Entry, h: Entry)
    requires DistinctEntries(x) && i < j < |x| && j < |y|
    requires x[i] == e && x[j] == f && y[i] == h && y[j] == g
    requires AsTuple(e) == AsTuple(g) && AsTuple(f) == AsTuple(h) && EntryLe(e, f) && EntryLe(h, g)
    ensures SortedEntries(x) != SortedEntries(y)
  {
    var k, l := SortedTuplesKeep(x, i, j, e, f);
    var n, m := SortedTuplesKeep(y, i, j, h, g);
    SortedTuples(x);
    var sx, sy := Tuples(Sort(EntryLe, x)), Tuples(Sort(EntryLe, y));
    if sx == sy {
      OneOrder(sx, AsTuple(e), AsTuple(f), k, l, m, n);
    }
  }

  lemma ClashShows(rel: (Pair, Pair) -> bool, entry: Pair -> Entry, a: seq<Pair>, i: nat, j: nat,
                   p: Pair, q: Pair, p2: Pair, q2: Pair)
    requires Presentation(rel, entry, a) && DistinctEntries(Map(entry, a))
    requires i < j < |a| && Clash(rel, entry, a[i], a[j], p, q, p2, q2)
    ensures Presents(rel, a, a[i := p][j := q]) && Presents(rel, a, a[i := q2][j := p2])
    ensures SortedEntries(Map(entry, a[i := p][j := q])) != SortedEntries(Map(entry, a[i := q2][j := p2]))
  {
    ReplacedPresents(rel, a, i, j, i, j, p, q);
    ReplacedPresents(rel, a, i, j, j, i, q2, p2);
    var perm, inverse :| PresentsAs(rel, a, a[i := p][j := q], perm, inverse);
    PresentedKeys(rel, entry, a, a[i := p][j := q], perm, inverse);
    assert a[i] in a && a[j] in a;
    ExchangedSort(Map(entry, a[i := p][j := q]), Map(entry, a[i := q2][j := p2]), i, j, entry(p), entry(q),
                  entry(p2), entry(q2));
  }

  lemma SteadyFreezesAlike(rel: (Pair, Pair) -> bool, entry: Pair -> Entry, a: seq<Pair>, b: seq<Pair>)
    requires Presentation(rel, entry, a) && DistinctEntries(Map(entry, a)) && Steady(rel, entry, a)
    requires Presents(rel, a, b)
    ensures SortedEntries(Map(entry, b)) == SortedEntries(Map(entry, a))
  {
    var perm, inverse :| PresentsAs(rel, a, b, perm, inverse);
    SteadyIsOrderedAlikeAt(rel, entry, a, b, perm, inverse, Map(entry, a), Map(entry, b));
    OrderedAlikeByPosition(Map(entry, a), Map(entry, b));
    PresentedTuples(rel, entry, a, b, perm, inverse);
    PresentedKeys(rel, entry, a, b, perm, inverse);
    SameOrder(Map(entry, a), Map(entry, b));
  }

  ghost predicate FreezesAlike(entry: Pair -> Entry, a: seq<Pair>, b: seq<Pair>) {
    SortedEntries(Map(entry, b)) == SortedEntries(Map(entry, a))
  }

  ghost predicate AllFreezeAlike(rel: (Pair, Pair) -> bool, entry: Pair -> Entry, a: seq<Pair>) {
    forall b :: Presents(rel, a, b) ==> FreezesAlike(entry, a, b)
  }

  lemma OneDiffers(presented: seq<Pair> -> bool, frozen: seq<Pair> -> Frozen, a: seq<Pair>, b: seq<Pair>, c: seq<Pair>)
    requires presented(b) && presented(c) && frozen(b) != frozen(c)
    ensures exists d :: presented(d) && frozen(d) != frozen(a)
  {
  }

  ghost function Presented(rel: (Pair, Pair) -> bool, a: seq<Pair>): seq<Pair> -> bool {
    (b: seq<Pair>) => Presents(rel, a, b)
  }

  ghost function FrozenAs(entry: Pair -> Entry): seq<Pair> -> Frozen {
    (b: seq<Pair>) => SortedEntries(Map(entry, b))
  }

  lemma ClashingDiffers(rel: (Pair, Pair) -> bool, entry: Pair -> Entry, a: seq<Pair>, i: nat, j: nat,
                        p: Pair, q: Pair, p2: Pair, q2: Pair)
    requires Presentation(rel, entry, a) && DistinctEntries(Map(entry, a))
    requires i < j < |a| && Clash(rel, entry, a[i], a[j], p, q, p2, q2)
    ensures exists b :: Presented(rel, a)(b) && FrozenAs(entry)(b) != FrozenAs(entry)(a)
  {
    ClashShows(rel, entry, a, i, j, p, q, p2, q2);
    OneDiffers(Presented(rel, a), FrozenAs(entry), a, a[i := p][j := q], a[i := q2][j := p2]);
  }

  lemma SomeClash(rel: (Pair, Pair) -> bool, entry: Pair -> Entry, a: seq<Pair>)
    returns (i: nat, j: nat, p: Pair, q: Pair, p2: Pair, q2: Pair)
    requires !Steady(rel, entry, a)
    ensures i < j < |a| && Clash(rel, entry, a[i], a[j], p, q, p2, q2)
  {
    i, j, p, q, p2, q2 :| 0 <= i < j < |a| && Clash(rel, entry, a[i], a[j], p, q, p2, q2);
  }

  lemma PresentationsFreezeAlikeExactly(rel: (Pair, Pair) -> bool, entry: Pair -> Entry, a: seq<Pair>)
    requires Presentation(rel, entry, a) && DistinctEntries(Map(entry, a))
    ensures AllFreezeAlike(rel, entry, a) <==> Steady(rel, entry, a)
  {
    if Steady(rel, entry, a) {
      forall b | Presents(rel, a, b) ensures FreezesAlike(entry, a, b) {
        SteadyFreezesAlike(rel, entry, a, b);
      }
    } else {
      var i, j, p, q, p2, q2 := SomeClash(rel, entry, a);
      ClashingDiffers(rel, entry, a, i, j, p, q, p2, q2);
      var b :| Presented(rel, a)(b) && FrozenAs(entry)(b) != FrozenAs(entry)(a);
      assert Presents(rel, a, b) && !FreezesAlike(entry, a, b);
    }
  }

  /** A pair as it is sorted; pairs that cannot be frozen do not occur. */
  ghost function EntryOf(text: Text): Pair -> Entry {
    (p: Pair) => if Freezes(text, p) then FreezePair(text, p) else Entry(FNumber(0), FNumber(0), "", "")
  }

  ghost function SamePair(): (Pair, Pair) -> bool {
    (p: Pair, q: Pair) => ReorderedPair(p, q)
  }

  lemma {:induction false} ReorderedReflexive(v: Value)
    ensures Reordered(v, v)
    decreases v
  {
    match v {
      case Items(a) =>
        forall i | 0 <= i < |a| ensures Reordered(a[i], a[i]) {
          ReorderedReflexive(a[i]);
        }
      case SetOf(a) =>
        forall i | 0 <= i < |a| ensures ReorderedTo(a[i], a) && ReorderedFrom(a, a[i]) {
          ReorderedReflexive(a[i]);
        }
      case _ =>
    }
  }

  lemma PairReflexive(p: Pair)
    ensures ReorderedPair(p, p)
  {
    ReorderedReflexive(p.key);
    ReorderedReflexive(p.item);
  }

  ghost predicate AllFreeze(text: Text, ps: seq<Pair>) {
    forall p :: p in ps ==> Freezes(text, p)
  }

  lemma FrozenPairs(text: Text, ps: seq<Pair>)
    requires AllFreeze(text, ps)
    ensures FreezePairs(text, ps) == Some(Map(EntryOf(text), ps))
    ensures Freeze(text, Dict(ps)) == Some(SortedEntries(Map(EntryOf(text), ps)))
  {
    var x := FreezePairs(text, ps);
    assert x.Some?;
    assert x.value == Map(EntryOf(text), ps);
  }

  lemma SamePairIsPresentation(text: Text, a: seq<Pair>)
    requires PlainText(text) && AllFreeze(text, a)
    ensures Presentation(SamePair(), EntryOf(text), a)
  {
    forall p ensures SamePair()(p, p) {
      PairReflexive(p);
    }
    forall p, q | p in a && SamePair()(p, q) ensures AsTuple(EntryOf(text)(p)) == AsTuple(EntryOf(text)(q)) {
      PairIgnoresOrder(text, p, q);
    }
  }

  lemma PresentationFreezes(text: Text, a: seq<Pair>, b: seq<Pair>)
    requires PlainText(text) && AllFreeze(text, a) && Presents(SamePair(), a, b)
    ensures AllFreeze(text, b)
  {
    var perm, inverse :| PresentsAs(SamePair(), a, b, perm, inverse);
    forall q | q in b ensures Freezes(text, q) {
      var k :| 0 <= k < |b| && b[k] == q;
      assert SamePair()(a[perm[k]], b[k]) && a[perm[k]] in a;
      PairIgnoresOrder(text, a[perm[k]], b[k]);
    }
  }

  ghost predicate DictsFreezeAlike(text: Text, a: seq<Pair>) {
    forall b :: Presents(SamePair(), a, b) ==> Freeze(text, Dict(b)) == Freeze(text, Dict(a))
  }

  /** A dictionary with any keys freezes alike in every insertion order and every presentation of its keys
      and items, exactly when no two of its pairs clash under `str`. */
  lemma DictFreezesAlikeExactly(text: Text, a: seq<Pair>)
    requires PlainText(text) && AllFreeze(text, a) && DistinctEntries(Map(EntryOf(text), a))
    ensures DictsFreezeAlike(text, a) <==> Steady(SamePair(), EntryOf(text), a)
  {
    SamePairIsPresentation(text, a);
    FrozenPairs(text, a);
    PresentationsFreezeAlikeExactly(SamePair(), EntryOf(text), a);
    forall b | Presents(SamePair(), a, b)
      ensures Freeze(text, Dict(b)) == Freeze(text, Dict(a)) <==> FreezesAlike(EntryOf(text), a, b)
    {
      PresentationFreezes(text, a, b);
      FrozenPairs(text, b);
    }
  }

  lemma TwoSorts(entry: Pair -> Entry, p: Pair, q: Pair, p2: Pair)
    requires AsTuple(entry(p)) == AsTuple(entry(p2)) && entry(p).key != entry(q).key
    requires EntryLe(entry(p), entry(q)) && EntryLe(entry(q), entry(p2))
    ensures SortedEntries(Map(entry, [p, q])) != SortedEntries(Map(entry, [q, p2]))
  {
    var x, y := Map(entry, [p, q]), Map(entry, [q, p2]);
    assert x[0] == entry(p) && x[1] == entry(q) && y[0] == entry(q) && y[1] == entry(p2);
    assert DistinctEntries(x);
    ExchangedSort(x, y, 0, 1, entry(p), entry(q), entry(p2), entry(q));
  }

  lemma TwoPresents(p: Pair, q: Pair, p2: Pair)
    requires ReorderedPair(p, p2)
    ensures Presents(SamePair(), [p, q], [q, p2])
  {
    forall r ensures SamePair()(r, r) {
      PairReflexive(r);
    }
    ReplacedPresents(SamePair(), [p, q], 0, 1, 1, 0, q, p2);
    assert [p, q][0 := q][1 := p2] == [q, p2];
  }

  lemma TwoFreeze(text: Text, p: Pair, q: Pair)
    requires Freezes(text, p) && Freezes(text, q)
    ensures Freeze(text, Dict([p, q])) == Some(SortedEntries(Map(EntryOf(text), [p, q])))
  {
    assert AllFreeze(text, [p, q]);
    FrozenPairs(text, [p, q]);
  }

  /** Two keys that `str` shows alike, and an item shown below and above the other one: such a dictionary
      freezes in two ways. */
  lemma TiedKeysFreezeApart(text: Text, p: Pair, q: Pair, p2: Pair)
    requires PlainText(text) && ReorderedPair(p, p2) && Freezes(text, p) && Freezes(text, q)
    requires Freeze(text, p.key) != Freeze(text, q.key)
    requires text(p.key) == text(q.key) == text(p2.key)
    requires StringLe(text(p.item), text(q.item)) && StringLe(text(q.item), text(p2.item))
    ensures Presents(SamePair(), [p, q], [q, p2])
    ensures Freeze(text, Dict([p, q])) != Freeze(text, Dict([q, p2]))
  {
    PairIgnoresOrder(text, p, p2);
    TwoPresents(p, q, p2);
    TwoFreeze(text, p, q);
    TwoFreeze(text, q, p2);
    TwoSorts(EntryOf(text), p, q, p2);
  }

  /** `str` of strings, of other hashable values, and of frozen sets, as Python shows them. */
  function Shown(v: Value): string {
    match v
    case Hashed(value, shown) => if value.FStr? then value.s else shown
    case SetOf(members) => if members == [] then "frozenset()" else "frozenset({" + Listed(members) + "})"
    case _ => ""
  }

  function Listed(members: seq<Value>): string
    requires members != []
    decreases members
  {
    match members[0]
    case Hashed(_, shown) => if |members| == 1 then shown else shown + ", " + Listed(members[1..])
    case _ => ""
  }

  const ZERO := Hashed(FNumber(0), "0")
  const EIGHT := Hashed(FNumber(8), "8")

  /** The pair `1: {0, 8}`, with its set iterated in either order. */
  const UPWARDS := Pair(Hashed(FNumber(1), "1"), SetOf([ZERO, EIGHT]))
  const DOWNWARDS := Pair(Hashed(FNumber(1), "1"), SetOf([EIGHT, ZERO]))

  /** The pair `"1": frozenset({5})`. */
  const FIVE := Pair(Hashed(FStr("1"), "1"), Hashed(FSet({FNumber(5)}), "frozenset({5})"))

  lemma ShownSets()
    ensures Shown(UPWARDS.item) == "frozenset({0, 8})"
    ensures Shown(FIVE.item) == "frozenset({5})"
    ensures Shown(DOWNWARDS.item) == "frozenset({8, 0})"
  {
    assert [ZERO, EIGHT][1..] == [EIGHT] && [EIGHT, ZERO][1..] == [ZERO];
    assert Listed([EIGHT]) == "8" && Listed([ZERO]) == "0";
    assert "0" + ", " + "8" == "0, 8" && "8" + ", " + "0" == "8, 0";
  }

  lemma ShownInOrder()
    ensures StringLe("frozenset({0, 8})", "frozenset({5})") && StringLe("frozenset({5})", "frozenset({8, 0})")
  {
    var start := "frozenset({";
    assert start + "0, 8})" == "frozenset({0, 8})";
    assert start + "5})" == "frozenset({5})";
    assert start + "8, 0})" == "frozenset({8, 0})";
    LexicographicPrefix(CharLe, start, "0, 8})", "5})");
    LexicographicPrefix(CharLe, start, "5})", "8, 0})");
  }

  /** `{1: {0, 8}, "1": frozenset({5})}` freezes in two ways. */
  lemma MixedKeysFreezeApart()
    ensures Presents(SamePair(), [UPWARDS, FIVE], [FIVE, DOWNWARDS])
    ensures Freeze(Shown, Dict([UPWARDS, FIVE])) != Freeze(Shown, Dict([FIVE, DOWNWARDS]))
  {
    ShownSets();
    ShownInOrder();
    TurnedSet(ZERO, EIGHT);
    ShownKeysFreeze();
    TiedKeysFreezeApart(Shown, UPWARDS, FIVE, DOWNWARDS);
  }

  lemma TurnedSet(x: Value, y: Value)
    requires Reordered(x, x) && Reordered(y, y)
    ensures Reordered(SetOf([x, y]), SetOf([y, x]))
  {
    var a, b := [x, y], [y, x];
    assert Reordered(a[0], b[1]) && Reordered(a[1], b[0]);
    assert EachFrom(a, b) by {
      assert ReorderedTo(a[0], b) && ReorderedTo(a[1], b);
    }
    assert EachTo(a, b) by {
      assert ReorderedFrom(a, b[0]) && ReorderedFrom(a, b[1]);
    }
  }

  lemma ShownKeysFreeze()
    ensures PlainText(Shown) && Freezes(Shown, UPWARDS) && Freezes(Shown, FIVE)
    ensures Shown(UPWARDS.key) == Shown(FIVE.key) == Shown(DOWNWARDS.key)
    ensures Freeze(Shown, UPWARDS.key) != Freeze(Shown, FIVE.key)
  {
    var members := [ZERO, EIGHT];
    forall i | 0 <= i < |members| ensures Freeze(Shown, members[i]).Some? {
    }
  }
}
