/** Python dictionaries with string keys, as item lists in insertion order. */
module Dicts {
  import opened Sequences

  type Dict<V> = seq<(string, V)>

  ghost predicate IsDict<V>(d: Dict<V>) {
    forall i, j :: 0 <= i < j < |d| ==> d[i].0 != d[j].0
  }

  predicate HasKey<V>(d: Dict<V>, k: string) {
    exists i :: 0 <= i < |d| && d[i].0 == k
  }

  function Get<V>(d: Dict<V>, k: string): Option<V> {
    if d == [] then None else if d[0].0 == k then Some(d[0].1) else Get(d[1..], k)
  }

  /** `d[k] = v`: an existing key keeps its place. */
  function Put<V>(d: Dict<V>, k: string, v: V): Dict<V> {
    if d == [] then [(k, v)]
    else if d[0].0 == k then [(k, v)] + d[1..]
    else [d[0]] + Put(d[1..], k, v)
  }

  /** `{**d, **e}` */
  function Merge<V>(d: Dict<V>, e: Dict<V>): Dict<V>
    decreases e
  {
    if e == [] then d else Merge(Put(d, e[0].0, e[0].1), e[1..])
  }

  /** The items whose key is accepted. */
  function Keep<V(!new)>(keep: string -> bool, d: Dict<V>): (r: Dict<V>)
    ensures forall item {:trigger item in r} :: item in r <==> item in d && keep(item.0)
  {
    if d == [] then []
    else if keep(d[0].0) then [d[0]] + Keep(keep, d[1..])
    else Keep(keep, d[1..])
  }

  lemma {:induction false} GetFound<V>(d: Dict<V>, k: string)
    ensures Get(d, k).Some? <==> HasKey(d, k)
    ensures Get(d, k).Some? ==> (k, Get(d, k).value) in d
  {
    if d != [] {
      GetFound(d[1..], k);
      if HasKey(d, k) && d[0].0 != k {
        var i :| 0 <= i < |d| && d[i].0 == k;
        assert d[1..][i - 1].0 == k;
      }
      if HasKey(d[1..], k) {
        var i :| 0 <= i < |d[1..]| && d[1..][i].0 == k;
        assert d[i + 1].0 == k;
      }
    }
  }

  lemma {:induction false} GetItem<V>(d: Dict<V>, k: string, v: V)
    requires IsDict(d) && (k, v) in d
    ensures Get(d, k) == Some(v)
  {
    var i :| 0 <= i < |d| && d[i] == (k, v);
    if i != 0 {
      GetItem(d[1..], k, v);
    }
  }

  lemma {:induction false} GetPut<V>(d: Dict<V>, k: string, v: V, j: string)
    ensures Get(Put(d, k, v), j) == if j == k then Some(v) else Get(d, j)
  {
    if d != [] {
      GetPut(d[1..], k, v, j);
    }
  }

  /** A merged dictionary answers from its second operand first. */
  lemma {:induction false} GetMerge<V>(d: Dict<V>, e: Dict<V>, k: string)
    requires IsDict(e)
    ensures Get(Merge(d, e), k) == if Get(e, k).Some? then Get(e, k) else Get(d, k)
    decreases e
  {
    if e != [] {
      GetMerge(Put(d, e[0].0, e[0].1), e[1..], k);
      GetPut(d, e[0].0, e[0].1, k);
      if e[0].0 == k {
        GetFound(e[1..], k);
      }
    }
  }

  lemma {:induction false} PutNew<V>(d: Dict<V>, k: string, v: V)
    requires !HasKey(d, k)
    ensures Put(d, k, v) == d + [(k, v)]
  {
    if d != [] {
      assert d[0].0 != k;
      assert forall i :: 0 <= i < |d[1..]| ==> d[1..][i] == d[i + 1];
      PutNew(d[1..], k, v);
    }
  }

  lemma {:induction false} PutKeeps<V>(d: Dict<V>, k: string, v: V)
    requires IsDict(d)
    ensures IsDict(Put(d, k, v))
    ensures forall j :: HasKey(Put(d, k, v), j) <==> HasKey(d, j) || j == k
  {
    if d == [] {
      assert Put(d, k, v)[0].0 == k;
    } else if d[0].0 == k {
      assert forall i :: 0 <= i < |d| ==> Put(d, k, v)[i].0 == d[i].0;
    } else {
      var r := Put(d[1..], k, v);
      PutKeeps(d[1..], k, v);
      assert Put(d, k, v) == [d[0]] + r;
      HasKeyCons(d[0], d[1..]);
      HasKeyCons(d[0], r);
      assert d == [d[0]] + d[1..];
      assert forall i :: 0 <= i < |d[1..]| ==> d[1..][i] == d[i + 1];
      assert !HasKey(d[1..], d[0].0);
      assert !HasKey(r, d[0].0);
    }
  }

  lemma HasKeyCons<V>(item: (string, V), d: Dict<V>)
    ensures forall j :: HasKey([item] + d, j) <==> item.0 == j || HasKey(d, j)
  {
    var c := [item] + d;
    forall j ensures HasKey(c, j) <==> item.0 == j || HasKey(d, j) {
      assert c[0] == item;
      if HasKey(d, j) {
        var i :| 0 <= i < |d| && d[i].0 == j;
        assert c[i + 1].0 == j;
      }
    }
  }

  lemma {:induction false} MergeKeeps<V>(d: Dict<V>, e: Dict<V>)
    requires IsDict(d)
    ensures IsDict(Merge(d, e))
    decreases e
  {
    if e != [] {
      PutKeeps(d, e[0].0, e[0].1);
      MergeKeeps(Put(d, e[0].0, e[0].1), e[1..]);
    }
  }

  /** Merging a dictionary into the empty one copies it, order included. */
  lemma {:induction false} MergeNew<V>(d: Dict<V>, e: Dict<V>)
    requires IsDict(d + e)
    ensures Merge(d, e) == d + e
    decreases e
  {
    if e == [] {
      assert d + e == d;
    } else {
      assert (d + e)[|d|] == e[0];
      forall i | 0 <= i < |d| ensures d[i].0 != e[0].0 {
        assert (d + e)[i] == d[i];
      }
      PutNew(d, e[0].0, e[0].1);
      assert d + [e[0]] + e[1..] == d + e;
      MergeNew(d + [e[0]], e[1..]);
    }
  }

  lemma MergeEmpty<V>(e: Dict<V>)
    requires IsDict(e)
    ensures Merge([], e) == e
  {
    assert [] + e == e;
    MergeNew([], e);
  }

  lemma KeepCons<V(!new)>(keep: string -> bool, item: (string, V), d: Dict<V>)
    ensures Keep(keep, [item] + d) == if keep(item.0) then [item] + Keep(keep, d) else Keep(keep, d)
  {
    assert ([item] + d)[1..] == d;
  }

  lemma {:induction false} KeepPut<V(!new)>(keep: string -> bool, d: Dict<V>, k: string, v: V)
    ensures Keep(keep, Put(d, k, v)) == if keep(k) then Put(Keep(keep, d), k, v) else Keep(keep, d)
  {
    if d == [] {
      KeepCons(keep, (k, v), []);
    } else {
      KeepCons(keep, d[0], d[1..]);
      assert d == [d[0]] + d[1..];
      if d[0].0 == k {
        KeepCons(keep, (k, v), d[1..]);
      } else {
        KeepPut(keep, d[1..], k, v);
        KeepCons(keep, d[0], Put(d[1..], k, v));
        PutBehind(d[0], Keep(keep, d[1..]), k, v);
      }
      if keep(d[0].0) {
        PutInFront(d[0], Keep(keep, d[1..]), k, v);
      }
    }
  }

  lemma PutBehind<V>(item: (string, V), d: Dict<V>, k: string, v: V)
    requires item.0 != k
    ensures Put([item] + d, k, v) == [item] + Put(d, k, v)
  {
    assert ([item] + d)[1..] == d;
  }

  lemma PutInFront<V>(item: (string, V), d: Dict<V>, k: string, v: V)
    ensures item.0 == k ==> Put([item] + d, k, v) == [(k, v)] + d
  {
    assert ([item] + d)[1..] == d;
  }

  /** Selecting items by key commutes with merging. */
  lemma {:induction false} KeepMerge<V(!new)>(keep: string -> bool, d: Dict<V>, e: Dict<V>)
    ensures Keep(keep, Merge(d, e)) == Merge(Keep(keep, d), Keep(keep, e))
    decreases e
  {
    if e != [] {
      var kept := Keep(keep, e[1..]);
      KeepPut(keep, d, e[0].0, e[0].1);
      KeepMerge(keep, Put(d, e[0].0, e[0].1), e[1..]);
      KeepCons(keep, e[0], e[1..]);
      assert e == [e[0]] + e[1..];
      assert ([e[0]] + kept)[1..] == kept;
    }
  }

  lemma {:induction false} KeepTwice<V(!new)>(f: string -> bool, g: string -> bool, d: Dict<V>)
    requires forall item :: item in d && g(item.0) ==> f(item.0)
    ensures Keep(g, Keep(f, d)) == Keep(g, d)
  {
    if d != [] {
      KeepTwice(f, g, d[1..]);
      KeepCons(g, d[0], Keep(f, d[1..]));
    }
  }

  lemma {:induction false} KeepDisjoint<V(!new)>(f: string -> bool, g: string -> bool, d: Dict<V>)
    requires forall item :: item in d && g(item.0) ==> !f(item.0)
    ensures Keep(g, Keep(f, d)) == []
  {
    if d != [] {
      KeepDisjoint(f, g, d[1..]);
      KeepCons(g, d[0], Keep(f, d[1..]));
    }
  }

  lemma {:induction false} KeepAlike<V(!new)>(f: string -> bool, g: string -> bool, d: Dict<V>)
    requires forall item :: item in d ==> f(item.0) == g(item.0)
    ensures Keep(f, d) == Keep(g, d)
  {
    if d != [] {
      KeepAlike(f, g, d[1..]);
    }
  }

  lemma {:induction false} KeepIsDict<V(!new)>(keep: string -> bool, d: Dict<V>)
    requires IsDict(d)
    ensures IsDict(Keep(keep, d))
  {
    if d != [] {
      var r := Keep(keep, d[1..]);
      KeepIsDict(keep, d[1..]);
      forall i | 0 <= i < |r| ensures r[i].0 != d[0].0 {
        assert r[i] in r;
        assert r[i] in d[1..];
      }
    }
  }
}
