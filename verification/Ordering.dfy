/** Python's stable sort, and the orders it is used with. */
module Ordering {
  import opened Sequences

  /** Name elements: totality and transitivity are applied only to elements named this way. */
  ghost predicate Paired<T>(a: T, b: T) { true }

  ghost predicate Linked<T>(a: T, b: T, c: T) { true }

  ghost predicate TotalPreorder<T(!new)>(le: (T, T) -> bool) {
    && (forall a, b {:trigger Paired(a, b)} :: Paired(a, b) ==> le(a, b) || le(b, a))
    && (forall a, b, c {:trigger Linked(a, b, c)} :: Linked(a, b, c) && le(a, b) && le(b, c) ==> le(a, c))
  }

  ghost predicate Sorted<T>(le: (T, T) -> bool, s: seq<T>) {
    forall i, j :: 0 <= i < j < |s| ==> le(s[i], s[j])
  }

  /** No two different elements of `s` are tied. */
  ghost predicate TieFree<T>(le: (T, T) -> bool, s: seq<T>) {
    forall x, y :: x in s && y in s && le(x, y) && le(y, x) ==> x == y
  }

  /** Places `e` behind every leading element that does not exceed it. */
  function Insert<T>(le: (T, T) -> bool, s: seq<T>, e: T): seq<T> {
    if s == [] || !le(s[0], e) then [e] + s
    else [s[0]] + Insert(le, s[1..], e)
  }

  function InsertAll<T>(le: (T, T) -> bool, s: seq<T>, es: seq<T>): seq<T>
    decreases es
  {
    if es == [] then s else InsertAll(le, Insert(le, s, es[0]), es[1..])
  }

  /** `sorted(s)`: ordered by `le`, tied elements in their original order. */
  function Sort<T>(le: (T, T) -> bool, s: seq<T>): seq<T> {
    InsertAll(le, [], s)
  }

  // ----- sortedness and permutation

  /** Sorting permutes, whatever the comparison. */
  lemma {:induction false} InsertPermutes<T(!new)>(le: (T, T) -> bool, s: seq<T>, e: T)
    ensures multiset(Insert(le, s, e)) == multiset(s) + multiset{e}
  {
    if s != [] && le(s[0], e) {
      InsertPermutes(le, s[1..], e);
      assert s == [s[0]] + s[1..];
    }
  }

  lemma {:induction false} InsertAllPermutes<T(!new)>(le: (T, T) -> bool, s: seq<T>, es: seq<T>)
    ensures multiset(InsertAll(le, s, es)) == multiset(s) + multiset(es)
    decreases es
  {
    if es != [] {
      InsertPermutes(le, s, es[0]);
      InsertAllPermutes(le, Insert(le, s, es[0]), es[1..]);
      assert es == [es[0]] + es[1..];
    }
  }

  lemma SortPermutes<T(!new)>(le: (T, T) -> bool, s: seq<T>)
    ensures multiset(Sort(le, s)) == multiset(s)
    ensures |Sort(le, s)| == |s|
    ensures forall x :: x in Sort(le, s) <==> x in s
  {
    InsertAllPermutes(le, [], s);
    assert |multiset(Sort(le, s))| == |Sort(le, s)| && |multiset(s)| == |s|;
    forall x ensures x in Sort(le, s) <==> x in s {
      assert x in multiset(Sort(le, s)) <==> x in multiset(s);
    }
  }

  lemma {:induction false} InsertSorted<T(!new)>(le: (T, T) -> bool, s: seq<T>, e: T)
    requires TotalPreorder(le) && Sorted(le, s)
    ensures Sorted(le, Insert(le, s, e))
  {
    if s == [] {
    } else if !le(s[0], e) {
      assert Paired(e, s[0]);
      forall j | 0 <= j < |s| ensures le(e, s[j]) {
        assert Linked(e, s[0], s[j]);
      }
    } else {
      var r := Insert(le, s[1..], e);
      InsertSorted(le, s[1..], e);
      InsertPermutes(le, s[1..], e);
      forall j | 0 <= j < |r| ensures le(s[0], r[j]) {
        assert r[j] in multiset(r);
        assert r[j] in s[1..] || r[j] == e;
      }
    }
  }

  lemma {:induction false} InsertAllSorted<T(!new)>(le: (T, T) -> bool, s: seq<T>, es: seq<T>)
    requires TotalPreorder(le) && Sorted(le, s)
    ensures Sorted(le, InsertAll(le, s, es))
    decreases es
  {
    if es != [] {
      InsertSorted(le, s, es[0]);
      InsertAllSorted(le, Insert(le, s, es[0]), es[1..]);
    }
  }

  lemma {:induction false} SortSorts<T(!new)>(le: (T, T) -> bool, s: seq<T>)
    requires TotalPreorder(le)
    ensures Sorted(le, Sort(le, s))
    ensures multiset(Sort(le, s)) == multiset(s)
    ensures |Sort(le, s)| == |s|
    ensures forall x :: x in Sort(le, s) <==> x in s
  {
    InsertAllSorted(le, [], s);
    SortPermutes(le, s);
  }

  // ----- a list already in order

  lemma {:induction false} InsertLast<T>(le: (T, T) -> bool, s: seq<T>, e: T)
    requires forall x :: x in s ==> le(x, e)
    ensures Insert(le, s, e) == s + [e]
  {
    if s != [] {
      InsertLast(le, s[1..], e);
    }
  }

  lemma {:induction false} InsertAllOrdered<T>(le: (T, T) -> bool, s: seq<T>, es: seq<T>)
    requires Sorted(le, s + es)
    ensures InsertAll(le, s, es) == s + es
    decreases es
  {
    if es == [] {
      assert s + es == s;
    } else {
      forall x | x in s ensures le(x, es[0]) {
        var i :| 0 <= i < |s| && s[i] == x;
        assert (s + es)[i] == x && (s + es)[|s|] == es[0];
      }
      InsertLast(le, s, es[0]);
      assert s + [es[0]] + es[1..] == s + es;
      InsertAllOrdered(le, s + [es[0]], es[1..]);
    }
  }

  lemma {:induction false} SortOrdered<T>(le: (T, T) -> bool, s: seq<T>)
    requires Sorted(le, s)
    ensures Sort(le, s) == s
  {
    assert [] + s == s;
    InsertAllOrdered(le, [], s);
  }

  // ----- only the first k matter to the first k

  lemma {:induction false} InsertPrefix<T>(le: (T, T) -> bool, s: seq<T>, e: T, k: nat)
    ensures Take(Insert(le, s, e), k) == Take(Insert(le, Take(s, k), e), k)
  {
    if s != [] && k > 0 {
      var t := Take(s, k);
      assert t[0] == s[0];
      if !le(s[0], e) {
        TakeCons(e, s, k);
        TakeCons(e, t, k);
        assert Take(t, k - 1) == Take(s, k - 1);
      } else {
        InsertPrefix(le, s[1..], e, k - 1);
        assert t[1..] == Take(s[1..], k - 1);
        TakeCons(s[0], Insert(le, s[1..], e), k);
        TakeCons(s[0], Insert(le, t[1..], e), k);
      }
    } else if k == 0 {
      assert Take(Insert(le, s, e), 0) == [];
    }
  }

  lemma TakeCons<T>(x: T, s: seq<T>, k: nat)
    requires k > 0
    ensures Take([x] + s, k) == [x] + Take(s, k - 1)
  {
  }

  lemma {:induction false} InsertAllPrefix<T>(le: (T, T) -> bool, s: seq<T>, es: seq<T>, k: nat)
    ensures Take(InsertAll(le, s, es), k) == Take(InsertAll(le, Take(s, k), es), k)
    decreases es
  {
    if es != [] {
      var a, b := Insert(le, s, es[0]), Insert(le, Take(s, k), es[0]);
      InsertPrefix(le, s, es[0], k);
      InsertAllPrefix(le, a, es[1..], k);
      InsertAllPrefix(le, b, es[1..], k);
    }
  }

  lemma {:induction false} InsertAllAppend<T>(le: (T, T) -> bool, s: seq<T>, a: seq<T>, b: seq<T>)
    ensures InsertAll(le, s, a + b) == InsertAll(le, InsertAll(le, s, a), b)
    decreases a
  {
    if a == [] {
      assert a + b == b;
    } else {
      assert (a + b)[1..] == a[1..] + b;
      InsertAllAppend(le, Insert(le, s, a[0]), a[1..], b);
    }
  }

  /** Two lists that agree on their sorted first `k` still agree after both get `b`. */
  lemma {:induction false} SortPrefixAppend<T>(le: (T, T) -> bool, x: seq<T>, y: seq<T>, b: seq<T>, k: nat)
    requires Take(Sort(le, x), k) == Take(Sort(le, y), k)
    ensures Take(Sort(le, x + b), k) == Take(Sort(le, y + b), k)
  {
    InsertAllAppend(le, [], x, b);
    InsertAllAppend(le, [], y, b);
    InsertAllPrefix(le, Sort(le, x), b, k);
    InsertAllPrefix(le, Sort(le, y), b, k);
  }

  // ----- stability

  /** Elements of a class whose members are all tied keep their order. */
  lemma {:induction false} InsertStable<T(!new)>(le: (T, T) -> bool, s: seq<T>, e: T, tied: T -> bool)
    requires TotalPreorder(le) && Sorted(le, s)
    requires forall x, y :: tied(x) && tied(y) ==> le(x, y)
    ensures Filter(tied, Insert(le, s, e)) == Filter(tied, s + [e])
  {
    FilterAppend(tied, s, [e]);
    if s == [] {
    } else if !le(s[0], e) {
      FilterAppend(tied, [e], s);
      if tied(e) {
        NothingTied(le, s, e, tied);
      }
    } else {
      var r := s[1..];
      InsertStable(le, r, e, tied);
      FilterAppend(tied, [s[0]], Insert(le, r, e));
      FilterAppend(tied, [s[0]], r + [e]);
      assert s + [e] == [s[0]] + (r + [e]);
    }
  }

  lemma {:induction false} NothingTied<T(!new)>(le: (T, T) -> bool, s: seq<T>, e: T, tied: T -> bool)
    requires TotalPreorder(le) && Sorted(le, s) && s != [] && !le(s[0], e)
    requires forall x, y :: tied(x) && tied(y) ==> le(x, y)
    requires tied(e)
    ensures Filter(tied, s) == []
  {
    forall x | x in s ensures !tied(x) {
      var i :| 0 <= i < |s| && s[i] == x;
      assert i == 0 || le(s[0], x);
      assert Linked(s[0], x, e);
    }
    FilterNothing(tied, s);
  }

  lemma {:induction false} InsertAllStable<T(!new)>(le: (T, T) -> bool, s: seq<T>, es: seq<T>, tied: T -> bool)
    requires TotalPreorder(le) && Sorted(le, s)
    requires forall x, y :: tied(x) && tied(y) ==> le(x, y)
    ensures Filter(tied, InsertAll(le, s, es)) == Filter(tied, s) + Filter(tied, es)
    decreases es
  {
    if es != [] {
      var t := Insert(le, s, es[0]);
      InsertSorted(le, s, es[0]);
      InsertStable(le, s, es[0], tied);
      InsertAllStable(le, t, es[1..], tied);
      FilterAppend(tied, s, [es[0]]);
      FilterAppend(tied, [es[0]], es[1..]);
      assert es == [es[0]] + es[1..];
      Associate(Filter(tied, s), Filter(tied, [es[0]]), Filter(tied, es[1..]));
    }
  }

  lemma Associate<T>(a: seq<T>, b: seq<T>, c: seq<T>)
    ensures (a + b) + c == a + (b + c)
  {
  }

  lemma {:induction false} SortStable<T(!new)>(le: (T, T) -> bool, s: seq<T>, tied: T -> bool)
    requires TotalPreorder(le)
    requires forall x, y :: tied(x) && tied(y) ==> le(x, y)
    ensures Filter(tied, Sort(le, s)) == Filter(tied, s)
  {
    InsertAllStable(le, [], s, tied);
  }

  // ----- uniqueness

  lemma {:induction false} SortedUnique<T(!new)>(le: (T, T) -> bool, a: seq<T>, b: seq<T>)
    requires TotalPreorder(le) && Sorted(le, a) && Sorted(le, b)
    requires multiset(a) == multiset(b) && TieFree(le, a)
    ensures a == b
  {
    SameLength(a, b);
    if a != [] {
      SameFirst(le, a, b);
      SameTails(a, b);
      TailUnique(le, a);
      SortedTail(le, b);
      SortedUnique(le, a[1..], b[1..]);
      assert a == [a[0]] + a[1..] && b == [b[0]] + b[1..];
    }
  }

  lemma SameTails<T>(a: seq<T>, b: seq<T>)
    requires a != [] && b != [] && a[0] == b[0] && multiset(a) == multiset(b)
    ensures multiset(a[1..]) == multiset(b[1..])
  {
    PulledMultisets(a, b, 0);
    assert b[..0] + b[1..] == b[1..];
  }

  lemma SameLength<T>(a: seq<T>, b: seq<T>)
    requires multiset(a) == multiset(b)
    ensures |a| == |b|
  {
    assert |multiset(a)| == |a| && |multiset(b)| == |b|;
  }

  lemma SortedTail<T(!new)>(le: (T, T) -> bool, a: seq<T>)
    requires Sorted(le, a) && a != []
    ensures Sorted(le, a[1..])
  {
    forall i, j | 0 <= i < j < |a[1..]| ensures le(a[1..][i], a[1..][j]) {
      assert le(a[i + 1], a[j + 1]);
    }
  }

  lemma TailUnique<T(!new)>(le: (T, T) -> bool, a: seq<T>)
    requires Sorted(le, a) && TieFree(le, a) && a != []
    ensures Sorted(le, a[1..]) && TieFree(le, a[1..])
  {
    SortedTail(le, a);
  }

  lemma SameFirst<T(!new)>(le: (T, T) -> bool, a: seq<T>, b: seq<T>)
    requires TotalPreorder(le) && Sorted(le, a) && Sorted(le, b)
    requires multiset(a) == multiset(b) && TieFree(le, a) && a != [] && b != []
    ensures a[0] == b[0]
  {
    LeastFirst(le, a, b);
    LeastFirst(le, b, a);
    assert b[0] in multiset(a);
  }

  lemma LeastFirst<T(!new)>(le: (T, T) -> bool, a: seq<T>, b: seq<T>)
    requires TotalPreorder(le) && Sorted(le, b) && multiset(a) == multiset(b) && a != [] && b != []
    ensures le(b[0], a[0])
  {
    assert a[0] in multiset(b);
    var j :| 0 <= j < |b| && b[j] == a[0];
    assert j == 0 || le(b[0], b[j]);
    assert Paired(b[0], b[0]);
  }

  // ----- Python's order on sequences and strings

  ghost predicate TotalOrder<T(!new)>(le: (T, T) -> bool) {
    TotalPreorder(le) && forall a, b :: le(a, b) && le(b, a) ==> a == b
  }

  predicate Lexicographic<T(==)>(le: (T, T) -> bool, a: seq<T>, b: seq<T>) {
    a == [] || (b != [] && if a[0] == b[0] then Lexicographic(le, a[1..], b[1..]) else le(a[0], b[0]))
  }

  lemma {:induction false} LexicographicTotal<T(!new)>(le: (T, T) -> bool, a: seq<T>, b: seq<T>)
    requires TotalPreorder(le)
    ensures Lexicographic(le, a, b) || Lexicographic(le, b, a)
  {
    if a != [] && b != [] {
      assert Paired(a[0], b[0]);
      LexicographicTotal(le, a[1..], b[1..]);
    }
  }

  lemma {:induction false} LexicographicTransitive<T(!new)>(le: (T, T) -> bool, a: seq<T>, b: seq<T>, c: seq<T>)
    requires TotalOrder(le) && Lexicographic(le, a, b) && Lexicographic(le, b, c)
    ensures Lexicographic(le, a, c)
  {
    if a != [] {
      if a[0] == b[0] == c[0] {
        LexicographicTransitive(le, a[1..], b[1..], c[1..]);
      } else if a[0] != b[0] && b[0] != c[0] {
        assert Linked(a[0], b[0], c[0]);
      }
    }
  }

  lemma {:induction false} LexicographicAntisymmetric<T(!new)>(le: (T, T) -> bool, a: seq<T>, b: seq<T>)
    requires TotalOrder(le) && Lexicographic(le, a, b) && Lexicographic(le, b, a)
    ensures a == b
  {
    if a != [] && b != [] {
      LexicographicAntisymmetric(le, a[1..], b[1..]);
      assert a == [a[0]] + a[1..] && b == [b[0]] + b[1..];
    }
  }

  lemma {:induction false} LexicographicPrefix<T>(le: (T, T) -> bool, prefix: seq<T>, a: seq<T>, b: seq<T>)
    ensures Lexicographic(le, prefix + a, prefix + b) <==> Lexicographic(le, a, b)
  {
    if prefix == [] {
      assert prefix + a == a && prefix + b == b;
    } else {
      assert (prefix + a)[1..] == prefix[1..] + a && (prefix + b)[1..] == prefix[1..] + b;
      LexicographicPrefix(le, prefix[1..], a, b);
    }
  }

  /** The first position where two sequences differ decides. */
  lemma {:induction false} LexicographicAt<T>(le: (T, T) -> bool, a: seq<T>, b: seq<T>, m: nat)
    requires m < |a| && m < |b| && a[..m] == b[..m] && a[m] != b[m]
    ensures Lexicographic(le, a, b) <==> le(a[m], b[m])
  {
    if m > 0 {
      assert a[..m][0] == a[0] && b[..m][0] == b[0];
      assert a[1..][..m - 1] == a[..m][1..] && b[1..][..m - 1] == b[..m][1..];
      LexicographicAt(le, a[1..], b[1..], m - 1);
    }
  }

  predicate IntLe(a: int, b: int) { a <= b }

  predicate CharLe(a: char, b: char) { a <= b }

  predicate StringLe(a: string, b: string) { Lexicographic(CharLe, a, b) }

  /** The first sequence ends inside of the second one, or is smaller where they first differ. */
  ghost predicate ComesBefore<T(!new)>(less: (T, T) -> bool, a: seq<T>, b: seq<T>) {
    || (|a| < |b| && a == b[..|a|])
    || exists i :: SmallerAt(less, a, b, i)
  }

  predicate CharLess(a: char, b: char) { a < b }

  /** At this position the first sequence is smaller, and before it they are the same. */
  ghost predicate SmallerAt<T(!new)>(less: (T, T) -> bool, a: seq<T>, b: seq<T>, i: int) {
    0 <= i < |a| && i < |b| && a[..i] == b[..i] && less(a[i], b[i])
  }

  lemma SmallerBehind<T(!new)>(less: (T, T) -> bool, a: seq<T>, b: seq<T>, i: int)
    requires a != [] && b != [] && a[0] == b[0] && !less(a[0], b[0])
    ensures SmallerAt(less, a, b, i) <==> SmallerAt(less, a[1..], b[1..], i - 1)
  {
    if 0 < i < |a| && i < |b| {
      assert a[..i] == [a[0]] + a[1..][..i - 1] && b[..i] == [b[0]] + b[1..][..i - 1];
      assert a[..i][1..] == a[1..][..i - 1] && b[..i][1..] == b[1..][..i - 1];
    }
  }

  lemma NotSmallerBehind<T(!new)>(less: (T, T) -> bool, a: seq<T>, b: seq<T>, i: int)
    requires 0 < i < |a| && i < |b| && a[0] != b[0]
    ensures !SmallerAt(less, a, b, i)
  {
    assert a[..i][0] == a[0] && b[..i][0] == b[0];
  }

  lemma BeforeBehind<T(!new)>(less: (T, T) -> bool, a: seq<T>, b: seq<T>)
    requires a != [] && b != [] && a[0] == b[0] && !less(a[0], b[0])
    ensures ComesBefore(less, a, b) <==> ComesBefore(less, a[1..], b[1..])
  {
    assert a == [a[0]] + a[1..] && b == [a[0]] + b[1..];
    if |a| < |b| {
      assert b[..|a|] == [b[0]] + b[1..][..|a[1..]|];
    }
    if i :| SmallerAt(less, a, b, i) {
      SmallerBehind(less, a, b, i);
    }
    if i :| SmallerAt(less, a[1..], b[1..], i) {
      SmallerBehind(less, a, b, i + 1);
    }
  }

  lemma {:induction false} LexicographicMeans<T(!new)>(le: (T, T) -> bool, less: (T, T) -> bool, a: seq<T>, b: seq<T>)
    requires forall x, y :: less(x, y) <==> le(x, y) && x != y
    ensures Lexicographic(le, a, b) <==> a == b || ComesBefore(less, a, b)
  {
    if a != [] && b != [] {
      if a[0] == b[0] {
        LexicographicMeans(le, less, a[1..], b[1..]);
        BeforeBehind(less, a, b);
        assert a == [a[0]] + a[1..] && b == [a[0]] + b[1..];
      } else {
        assert a[..0] == b[..0];
        assert SmallerAt(less, a, b, 0) <==> le(a[0], b[0]);
        forall i | 0 < i < |a| && i < |b| ensures !SmallerAt(less, a, b, i) {
          NotSmallerBehind(less, a, b, i);
        }
        assert |a| < |b| ==> b[..|a|][0] == b[0];
      }
    }
  }

  /** Python's `<` on strings. */
  ghost predicate TextBefore(a: string, b: string) { ComesBefore(CharLess, a, b) }

  lemma StringLeMeans(a: string, b: string)
    ensures StringLe(a, b) <==> a == b || TextBefore(a, b)
  {
    LexicographicMeans(CharLe, CharLess, a, b);
  }

  lemma StringLeTotal(a: string, b: string)
    ensures StringLe(a, b) || StringLe(b, a)
  {
    LexicographicTotal(CharLe, a, b);
  }

  lemma StringLeTransitive(a: string, b: string, c: string)
    requires StringLe(a, b) && StringLe(b, c)
    ensures StringLe(a, c)
  {
    LexicographicTransitive(CharLe, a, b, c);
  }

  lemma StringLeAntisymmetric(a: string, b: string)
    requires StringLe(a, b) && StringLe(b, a)
    ensures a == b
  {
    LexicographicAntisymmetric(CharLe, a, b);
  }

  lemma StringLeIsOrder()
    ensures TotalOrder(StringLe)
  {
    forall a, b | Paired(a, b) ensures StringLe(a, b) || StringLe(b, a) {
      StringLeTotal(a, b);
    }
    forall a, b, c | Linked(a, b, c) && StringLe(a, b) && StringLe(b, c) ensures StringLe(a, c) {
      StringLeTransitive(a, b, c);
    }
    forall a, b | StringLe(a, b) && StringLe(b, a) ensures a == b {
      StringLeAntisymmetric(a, b);
    }
  }
}
