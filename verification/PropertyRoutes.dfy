/** The property walk on documents with any spreads: exactly which selected names it misses. */
module PropertyRoutes {
  import opened Sequences
  import opened SelectionWalk

  // ----- routes

  /** `n` is a name directly in the selections, after the fragments of `inner` were entered one after the
      other. */
  predicate FoundBelow(q: Query, selections: seq<Selection>, inner: seq<Name>, n: Name)
    decreases |inner|, selections
  {
    selections != [] && (FoundBelowOne(q, selections[0], inner, n) || FoundBelow(q, selections[1..], inner, n))
  }

  predicate FoundBelowOne(q: Query, selection: Selection, inner: seq<Name>, n: Name)
    decreases |inner|, selection
  {
    match selection
    case Leaf(name) => inner == [] && n in Chosen(q, name)
    case Field(name, _) => inner == [] && n in Chosen(q, name)
    case Inline(body) => FoundBelow(q, body, inner, n)
    case Spread(f) => inner != [] && inner[0] == f && f in q.fragments && FoundBelow(q, q.fragments[f], inner[1..], n)
  }

  /** `n` is a name directly under an outermost root field: the fragments of `outer` are entered outside of
      the field, those of `inner` below it. */
  predicate Found(q: Query, selections: seq<Selection>, outer: seq<Name>, inner: seq<Name>, n: Name)
    decreases |outer|, selections
  {
    selections != [] && (FoundOne(q, selections[0], outer, inner, n) || Found(q, selections[1..], outer, inner, n))
  }

  predicate FoundOne(q: Query, selection: Selection, outer: seq<Name>, inner: seq<Name>, n: Name)
    decreases |outer|, selection
  {
    match selection
    case Leaf(_) => false
    case Field(name, children) =>
      if name == q.root then outer == [] && FoundBelow(q, children, inner, n) else Found(q, children, outer, inner, n)
    case Inline(body) => Found(q, body, outer, inner, n)
    case Spread(f) => outer != [] && outer[0] == f && f in q.fragments && Found(q, q.fragments[f], outer[1..], inner, n)
  }

  ghost predicate Avoids(route: seq<Name>, visited: set<Name>) {
    forall f :: f in route ==> f !in visited
  }

  lemma Enter(f: Name, route: seq<Name>, visited: set<Name>)
    requires Distinct(route) && Avoids(route, visited + {f}) && f !in visited
    ensures Distinct([f] + route) && Avoids([f] + route, visited) && ([f] + route)[1..] == route
  {
  }

  lemma Entered(route: seq<Name>, visited: set<Name>)
    requires route != [] && Distinct(route) && Avoids(route, visited)
    ensures route[0] !in visited && Distinct(route[1..]) && Avoids(route[1..], visited + {route[0]})
  {
    forall f | f in route[1..] ensures f !in visited + {route[0]} {
      var i :| 0 <= i < |route[1..]| && route[1..][i] == f;
      assert route[i + 1] == f && route[i + 1] in route;
    }
  }

  // ----- the walk takes the routes that enter no fragment twice

  lemma {:induction false} DirectHasRoute(q: Query, selections: seq<Selection>, visited: set<Name>, n: Name)
    returns (inner: seq<Name>)
    requires n in DirectNames(q, selections, visited)
    ensures Distinct(inner) && Avoids(inner, visited) && FoundBelow(q, selections, inner, n)
    decreases q.fragments.Keys - visited, selections
  {
    if n in DirectNames(q, selections[1..], visited) {
      inner := DirectHasRoute(q, selections[1..], visited, n);
    } else {
      match selections[0] {
        case Leaf(_) => inner := [];
        case Field(_, _) => inner := [];
        case Inline(body) => inner := DirectHasRoute(q, body, visited, n);
        case Spread(f) =>
          var rest := DirectHasRoute(q, q.fragments[f], visited + {f}, n);
          Enter(f, rest, visited);
          inner := [f] + rest;
      }
    }
  }

  lemma {:induction false} RouteIsDirect(q: Query, selections: seq<Selection>, visited: set<Name>, inner: seq<Name>,
                                         n: Name)
    requires Distinct(inner) && Avoids(inner, visited) && FoundBelow(q, selections, inner, n)
    ensures n in DirectNames(q, selections, visited)
    decreases |inner|, selections
  {
    if FoundBelow(q, selections[1..], inner, n) {
      RouteIsDirect(q, selections[1..], visited, inner, n);
    } else {
      match selections[0] {
        case Leaf(_) =>
        case Field(_, _) =>
        case Inline(body) => RouteIsDirect(q, body, visited, inner, n);
        case Spread(f) =>
          Entered(inner, visited);
          RouteIsDirect(q, q.fragments[f], visited + {f}, inner[1..], n);
      }
    }
  }

  /** The route as a whole enters no fragment twice. */
  ghost predicate Simple(outer: seq<Name>, inner: seq<Name>, visited: set<Name>) {
    && Distinct(outer) && Distinct(inner) && Avoids(outer, visited) && Avoids(inner, visited)
    && forall f :: f in outer ==> f !in inner
  }

  lemma {:induction false} CollectedHasRoute(q: Query, selections: seq<Selection>, visited: set<Name>, n: Name)
    returns (outer: seq<Name>, inner: seq<Name>)
    requires n in NamesUnderRoot(q, selections, visited)
    ensures Simple(outer, inner, visited) && Found(q, selections, outer, inner, n)
    decreases q.fragments.Keys - visited, selections
  {
    if n in NamesUnderRoot(q, selections[1..], visited) {
      outer, inner := CollectedHasRoute(q, selections[1..], visited, n);
    } else {
      match selections[0] {
        case Field(name, children) =>
          if name == q.root {
            outer := [];
            inner := DirectHasRoute(q, children, visited, n);
          } else {
            outer, inner := CollectedHasRoute(q, children, visited, n);
          }
        case Inline(body) => outer, inner := CollectedHasRoute(q, body, visited, n);
        case Spread(f) =>
          var rest;
          rest, inner := CollectedHasRoute(q, q.fragments[f], visited + {f}, n);
          Enter(f, rest, visited);
          outer := [f] + rest;
      }
    }
  }

  lemma {:induction false} RouteIsCollected(q: Query, selections: seq<Selection>, visited: set<Name>, outer: seq<Name>,
                                            inner: seq<Name>, n: Name)
    requires Simple(outer, inner, visited) && Found(q, selections, outer, inner, n)
    ensures n in NamesUnderRoot(q, selections, visited)
    decreases |outer|, selections
  {
    if Found(q, selections[1..], outer, inner, n) {
      RouteIsCollected(q, selections[1..], visited, outer, inner, n);
    } else {
      match selections[0] {
        case Field(name, children) =>
          if name == q.root {
            RouteIsDirect(q, children, visited, inner, n);
          } else {
            RouteIsCollected(q, children, visited, outer, inner, n);
          }
        case Inline(body) => RouteIsCollected(q, body, visited, outer, inner, n);
        case Spread(f) =>
          Entered(outer, visited);
          RouteIsCollected(q, q.fragments[f], visited + {f}, outer[1..], inner, n);
      }
    }
  }

  // ----- expanding takes all routes

  lemma {:induction false} TreeNamesHaveRoute(q: Query, selections: seq<Selection>, depth: nat, n: Name)
    returns (inner: seq<Name>)
    requires n in TreeNames(q, Expand(selections, q.fragments, depth))
    ensures FoundBelow(q, selections, inner, n)
    decreases depth, selections
  {
    var first, rest := ExpandOne(selections[0], q.fragments, depth), Expand(selections[1..], q.fragments, depth);
    TreeNamesAppend(q, first, rest);
    if n in TreeNames(q, rest) {
      inner := TreeNamesHaveRoute(q, selections[1..], depth, n);
    } else {
      match selections[0] {
        case Leaf(name) => inner := [];
        case Field(name, _) => inner := [];
        case Inline(body) => inner := TreeNamesHaveRoute(q, body, depth, n);
        case Spread(f) =>
          var later := TreeNamesHaveRoute(q, q.fragments[f], depth - 1, n);
          inner := [f] + later;
          assert inner[1..] == later;
      }
    }
  }

  lemma {:induction false} RouteIsInTree(q: Query, selections: seq<Selection>, depth: nat, inner: seq<Name>, n: Name)
    requires FoundBelow(q, selections, inner, n) && |inner| <= depth
    ensures n in TreeNames(q, Expand(selections, q.fragments, depth))
    decreases |inner|, selections
  {
    TreeNamesAppend(q, ExpandOne(selections[0], q.fragments, depth), Expand(selections[1..], q.fragments, depth));
    if FoundBelow(q, selections[1..], inner, n) {
      RouteIsInTree(q, selections[1..], depth, inner, n);
    } else {
      match selections[0] {
        case Leaf(_) =>
        case Field(_, _) =>
        case Inline(body) => RouteIsInTree(q, body, depth, inner, n);
        case Spread(f) => RouteIsInTree(q, q.fragments[f], depth - 1, inner[1..], n);
      }
    }
  }

  lemma {:induction false} SelectedHasRoute(q: Query, selections: seq<Selection>, depth: nat, n: Name)
    returns (outer: seq<Name>, inner: seq<Name>)
    requires n in TreeNamesUnderRoot(q, Expand(selections, q.fragments, depth))
    ensures Found(q, selections, outer, inner, n)
    decreases depth, selections
  {
    var first, rest := ExpandOne(selections[0], q.fragments, depth), Expand(selections[1..], q.fragments, depth);
    TreeNamesAppend(q, first, rest);
    if n in TreeNamesUnderRoot(q, rest) {
      outer, inner := SelectedHasRoute(q, selections[1..], depth, n);
    } else {
      match selections[0] {
        case Leaf(name) => TreeNamesOne(q, name, []);
        case Field(name, children) =>
          TreeNamesOne(q, name, Expand(children, q.fragments, depth));
          if name == q.root {
            outer := [];
            inner := TreeNamesHaveRoute(q, children, depth, n);
          } else {
            outer, inner := SelectedHasRoute(q, children, depth, n);
          }
        case Inline(body) => outer, inner := SelectedHasRoute(q, body, depth, n);
        case Spread(f) =>
          var later;
          later, inner := SelectedHasRoute(q, q.fragments[f], depth - 1, n);
          outer := [f] + later;
          assert outer[1..] == later;
      }
    }
  }

  lemma {:induction false} RouteIsSelected(q: Query, selections: seq<Selection>, depth: nat, outer: seq<Name>,
                                           inner: seq<Name>, n: Name)
    requires Found(q, selections, outer, inner, n) && |outer| + |inner| <= depth
    ensures n in TreeNamesUnderRoot(q, Expand(selections, q.fragments, depth))
    decreases |outer|, selections
  {
    TreeNamesAppend(q, ExpandOne(selections[0], q.fragments, depth), Expand(selections[1..], q.fragments, depth));
    if Found(q, selections[1..], outer, inner, n) {
      RouteIsSelected(q, selections[1..], depth, outer, inner, n);
    } else {
      match selections[0] {
        case Field(name, children) =>
          TreeNamesOne(q, name, Expand(children, q.fragments, depth));
          if name == q.root {
            RouteIsInTree(q, children, depth, inner, n);
          } else {
            RouteIsSelected(q, children, depth, outer, inner, n);
          }
        case Inline(body) => RouteIsSelected(q, body, depth, outer, inner, n);
        case Spread(f) => RouteIsSelected(q, q.fragments[f], depth - 1, outer[1..], inner, n);
      }
    }
  }

  // ----- repetitions on one side of the root field can be cut out

  lemma {:induction false} BelowFirst(q: Query, selections: seq<Selection>, inner: seq<Name>, n: Name)
    requires FoundBelow(q, selections, inner, n) && inner != []
    ensures inner[0] in q.fragments && FoundBelow(q, q.fragments[inner[0]], inner[1..], n)
    decreases selections
  {
    if FoundBelow(q, selections[1..], inner, n) {
      BelowFirst(q, selections[1..], inner, n);
    } else if selections[0].Inline? {
      BelowFirst(q, selections[0].body, inner, n);
    }
  }

  lemma {:induction false} BelowAgain(q: Query, selections: seq<Selection>, inner: seq<Name>, other: seq<Name>, n: Name)
    requires FoundBelow(q, selections, inner, n) && inner != [] && inner[0] in q.fragments
    requires FoundBelow(q, q.fragments[inner[0]], other, n)
    ensures FoundBelow(q, selections, [inner[0]] + other, n)
    decreases selections
  {
    assert ([inner[0]] + other)[1..] == other;
    if FoundBelow(q, selections[1..], inner, n) {
      BelowAgain(q, selections[1..], inner, other, n);
    } else if selections[0].Inline? {
      BelowAgain(q, selections[0].body, inner, other, n);
    }
  }

  lemma {:induction false} BelowFrom(q: Query, selections: seq<Selection>, inner: seq<Name>, i: nat, n: Name)
    requires FoundBelow(q, selections, inner, n) && i < |inner|
    ensures inner[i] in q.fragments && FoundBelow(q, q.fragments[inner[i]], inner[i + 1..], n)
    decreases i
  {
    BelowFirst(q, selections, inner, n);
    if i > 0 {
      BelowFrom(q, q.fragments[inner[0]], inner[1..], i - 1, n);
      assert inner[1..][i - 1] == inner[i] && inner[1..][i - 1 + 1..] == inner[i + 1..];
    }
  }

  lemma SuffixIsDistinct(route: seq<Name>, i: nat)
    requires Distinct(route) && i < |route|
    ensures Distinct(route[i + 1..]) && route[i] !in route[i + 1..]
    ensures forall f :: f in route[i + 1..] ==> f in route
  {
    var rest := route[i + 1..];
    forall k | 0 <= k < |rest| ensures rest[k] != route[i] && rest[k] in route {
      assert rest[k] == route[i + 1 + k];
    }
  }

  lemma NewFirst(f: Name, rest: seq<Name>)
    requires Distinct(rest) && f !in rest
    ensures Distinct([f] + rest)
  {
  }

  /** The route without the loops back to a fragment entered before. */
  lemma {:induction false} CutBelow(q: Query, selections: seq<Selection>, inner: seq<Name>, n: Name)
    returns (cut: seq<Name>)
    requires FoundBelow(q, selections, inner, n)
    ensures FoundBelow(q, selections, cut, n) && Distinct(cut) && forall f :: f in cut ==> f in inner
    decreases |inner|
  {
    cut := inner;
    if inner != [] {
      BelowFirst(q, selections, inner, n);
      var body := q.fragments[inner[0]];
      var rest := CutBelow(q, body, inner[1..], n);
      if i :| 0 <= i < |rest| && rest[i] == inner[0] {
        BelowFrom(q, body, rest, i, n);
        SuffixIsDistinct(rest, i);
        rest := rest[i + 1..];
      }
      NewFirst(inner[0], rest);
      assert inner == [inner[0]] + inner[1..];
      BelowAgain(q, selections, inner, rest, n);
      cut := [inner[0]] + rest;
    }
  }

  lemma {:induction false} OuterFirst(q: Query, selections: seq<Selection>, outer: seq<Name>, inner: seq<Name>, n: Name)
    requires Found(q, selections, outer, inner, n) && outer != []
    ensures outer[0] in q.fragments && Found(q, q.fragments[outer[0]], outer[1..], inner, n)
    decreases selections
  {
    if Found(q, selections[1..], outer, inner, n) {
      OuterFirst(q, selections[1..], outer, inner, n);
    } else {
      match selections[0] {
        case Field(_, children) => OuterFirst(q, children, outer, inner, n);
        case Inline(body) => OuterFirst(q, body, outer, inner, n);
        case Spread(_) =>
      }
    }
  }

  lemma {:induction false} OuterAgain(q: Query, selections: seq<Selection>, outer: seq<Name>, other: seq<Name>,
                                      inner: seq<Name>, n: Name)
    requires Found(q, selections, outer, inner, n) && outer != [] && outer[0] in q.fragments
    requires Found(q, q.fragments[outer[0]], other, inner, n)
    ensures Found(q, selections, [outer[0]] + other, inner, n)
    decreases selections
  {
    assert ([outer[0]] + other)[1..] == other;
    if Found(q, selections[1..], outer, inner, n) {
      OuterAgain(q, selections[1..], outer, other, inner, n);
    } else {
      match selections[0] {
        case Field(_, children) => OuterAgain(q, children, outer, other, inner, n);
        case Inline(body) => OuterAgain(q, body, outer, other, inner, n);
        case Spread(_) =>
      }
    }
  }

  lemma {:induction false} OuterFrom(q: Query, selections: seq<Selection>, outer: seq<Name>, inner: seq<Name>, i: nat,
                                     n: Name)
    requires Found(q, selections, outer, inner, n) && i < |outer|
    ensures outer[i] in q.fragments && Found(q, q.fragments[outer[i]], outer[i + 1..], inner, n)
    decreases i
  {
    OuterFirst(q, selections, outer, inner, n);
    if i > 0 {
      OuterFrom(q, q.fragments[outer[0]], outer[1..], inner, i - 1, n);
      assert outer[1..][i - 1] == outer[i] && outer[1..][i - 1 + 1..] == outer[i + 1..];
    }
  }

  lemma {:induction false} CutOuter(q: Query, selections: seq<Selection>, outer: seq<Name>, inner: seq<Name>, n: Name)
    returns (cut: seq<Name>)
    requires Found(q, selections, outer, inner, n)
    ensures Found(q, selections, cut, inner, n) && Distinct(cut) && forall f :: f in cut ==> f in outer
    decreases |outer|
  {
    cut := outer;
    if outer != [] {
      OuterFirst(q, selections, outer, inner, n);
      var body := q.fragments[outer[0]];
      var rest := CutOuter(q, body, outer[1..], inner, n);
      if i :| 0 <= i < |rest| && rest[i] == outer[0] {
        OuterFrom(q, body, rest, inner, i, n);
        SuffixIsDistinct(rest, i);
        rest := rest[i + 1..];
      }
      NewFirst(outer[0], rest);
      assert outer == [outer[0]] + outer[1..];
      OuterAgain(q, selections, outer, rest, inner, n);
      cut := [outer[0]] + rest;
    }
  }

  lemma {:induction false} CutInner(q: Query, selections: seq<Selection>, outer: seq<Name>, inner: seq<Name>, n: Name)
    returns (cut: seq<Name>)
    requires Found(q, selections, outer, inner, n)
    ensures Found(q, selections, outer, cut, n) && Distinct(cut) && forall f :: f in cut ==> f in inner
    decreases |outer|, selections
  {
    if Found(q, selections[1..], outer, inner, n) {
      cut := CutInner(q, selections[1..], outer, inner, n);
    } else {
      match selections[0] {
        case Field(name, children) =>
          if name == q.root {
            cut := CutBelow(q, children, inner, n);
          } else {
            cut := CutInner(q, children, outer, inner, n);
          }
        case Inline(body) => cut := CutInner(q, body, outer, inner, n);
        case Spread(f) => cut := CutInner(q, q.fragments[f], outer[1..], inner, n);
      }
    }
  }

  // ----- which names are missed

  predicate SelectedAt(q: Query, selections: seq<Selection>, depth: nat, n: Name) {
    n in TreeNamesUnderRoot(q, Expand(selections, q.fragments, depth))
  }

  /** The name is selected directly under a root field, at some depth of expansion. */
  ghost predicate SelectedUnderRoot(q: Query, selections: seq<Selection>, n: Name) {
    exists depth :: SelectedAt(q, selections, depth, n)
  }

  /** Some fragment is entered outside of the root field and again below it. */
  ghost predicate Crosses(outer: seq<Name>, inner: seq<Name>) {
    exists f :: f in outer && f in inner
  }

  ghost predicate Route(q: Query, selections: seq<Selection>, outer: seq<Name>, inner: seq<Name>, n: Name) {
    Found(q, selections, outer, inner, n)
  }

  /** A name is selected under the root iff there is a route to it. */
  lemma SelectedByRoutes(q: Query, selections: seq<Selection>, n: Name)
    ensures SelectedUnderRoot(q, selections, n) <==> exists outer, inner :: Route(q, selections, outer, inner, n)
  {
    if SelectedUnderRoot(q, selections, n) {
      var depth :| SelectedAt(q, selections, depth, n);
      var outer, inner := SelectedHasRoute(q, selections, depth, n);
      assert Route(q, selections, outer, inner, n);
    }
    if outer, inner :| Route(q, selections, outer, inner, n) {
      RouteIsSelected(q, selections, |outer| + |inner|, outer, inner, n);
      assert SelectedAt(q, selections, |outer| + |inner|, n);
    }
  }

  /** The walk collects exactly the names with a route that enters no fragment both outside of the root
      field and below it. So it misses a selected name exactly when all its routes do that. */
  lemma CollectedExactly(q: Query, selections: seq<Selection>, n: Name)
    ensures n in NamesUnderRoot(q, selections, {})
       <==> exists outer, inner :: Route(q, selections, outer, inner, n) && !Crosses(outer, inner)
  {
    if n in NamesUnderRoot(q, selections, {}) {
      var outer, inner := CollectedHasRoute(q, selections, {}, n);
      assert Route(q, selections, outer, inner, n) && !Crosses(outer, inner);
    }
    if outer, inner :| Route(q, selections, outer, inner, n) && !Crosses(outer, inner) {
      var simple := CutOuter(q, selections, outer, inner, n);
      var short := CutInner(q, selections, simple, inner, n);
      assert Simple(simple, short, {});
      RouteIsCollected(q, selections, {}, simple, short, n);
    }
  }

  /** The fragment is spread, directly or through others, outside of a root field and again below it. */
  ghost predicate ReachesItselfThroughRoot(q: Query, selections: seq<Selection>, f: Name) {
    exists outer, inner, n :: Route(q, selections, outer, inner, n) && f in outer && f in inner
  }

  /** Unless some fragment reaches itself through a root field, the walk misses nothing; other cycles of
      spreads are harmless. */
  lemma NothingMissedWithoutRootCycles(q: Query, selections: seq<Selection>, n: Name)
    requires forall f :: !ReachesItselfThroughRoot(q, selections, f)
    ensures n in NamesUnderRoot(q, selections, {}) <==> SelectedUnderRoot(q, selections, n)
  {
    SelectedByRoutes(q, selections, n);
    CollectedExactly(q, selections, n);
    forall outer, inner | Route(q, selections, outer, inner, n) ensures !Crosses(outer, inner) {
      if f :| f in outer && f in inner {
        assert ReachesItselfThroughRoot(q, selections, f);
      }
    }
  }

  /** `...F` with `F { root { ...F } total }`: the walk finds nothing, and `total` is selected under the
      root. */
  lemma RootCycleMissesName(q: Query, f: Name, total: Name, n: Name)
    requires q.fragments == map[f := [Field(q.root, [Spread(f)]), Leaf(total)]]
    requires n in Chosen(q, total)
    ensures NamesUnderRoot(q, [Spread(f)], {}) == {} && SelectedUnderRoot(q, [Spread(f)], n)
  {
    var top, children := [Spread(f)], [Spread(f)];
    var body := [Field(q.root, children), Leaf(total)];
    assert top[1..] == [] && children[1..] == [] && body[1..] == [Leaf(total)] && [Leaf(total)][1..] == [];
    assert DirectNames(q, children, {f}) == {};
    assert NamesUnderRoot(q, [Leaf(total)], {f}) == {};
    assert NamesUnderRoot(q, body, {f}) == {};
    assert {} + {f} == {f};
    assert FoundBelow(q, [Leaf(total)], [], n);
    assert FoundBelow(q, body, [], n);
    assert [f][1..] == [];
    assert FoundBelow(q, children, [f], n);
    assert Found(q, body, [], [f], n);
    assert Route(q, top, [f], [f], n);
    SelectedByRoutes(q, top, n);
  }
}
