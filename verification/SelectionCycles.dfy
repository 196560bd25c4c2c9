/** Cyclic fragment spreads: exactly which ones make the path walk miss a selected path. */
module SelectionCycles {
  import opened SelectionWalk

  // ----- spreads inside and outside of fields

  /** The fragments that `selections` spreads outside of any field. */
  function InlineSpreads(selections: seq<Selection>): set<Name>
    decreases selections
  {
    if selections == [] then {} else InlineSpreadsOne(selections[0]) + InlineSpreads(selections[1..])
  }

  function InlineSpreadsOne(selection: Selection): set<Name>
    decreases selection
  {
    match selection
    case Leaf(_) => {}
    case Field(_, _) => {}
    case Inline(body) => InlineSpreads(body)
    case Spread(f) => {f}
  }

  /** The fragments that `selections` spreads inside of a field. */
  function FieldSpreads(selections: seq<Selection>): set<Name>
    decreases selections
  {
    if selections == [] then {} else FieldSpreadsOne(selections[0]) + FieldSpreads(selections[1..])
  }

  function FieldSpreadsOne(selection: Selection): set<Name>
    decreases selection
  {
    match selection
    case Leaf(_) => {}
    case Field(_, children) => Spreads(children)
    case Inline(body) => FieldSpreads(body)
    case Spread(_) => {}
  }

  lemma {:induction false} SpreadsAreBoth(selections: seq<Selection>)
    ensures Spreads(selections) == InlineSpreads(selections) + FieldSpreads(selections)
    decreases selections
  {
    if selections != [] {
      SpreadsAreBoth(selections[1..]);
      if selections[0].Inline? {
        SpreadsAreBoth(selections[0].body);
      }
    }
  }

  lemma Parts(selections: seq<Selection>)
    requires selections != []
    ensures SpreadsOne(selections[0]) <= Spreads(selections) && Spreads(selections[1..]) <= Spreads(selections)
    ensures FieldSpreadsOne(selections[0]) <= FieldSpreads(selections)
    ensures FieldSpreads(selections[1..]) <= FieldSpreads(selections)
  {
  }

  // ----- chains of spreads

  ghost predicate FieldEdge(fragments: Fragments, f: Name, g: Name) {
    f in fragments && g in fragments && g in FieldSpreads(fragments[f])
  }

  ghost predicate FieldChain(fragments: Fragments, f: Name, g: Name, path: seq<Name>, i: nat) {
    Chain(fragments, f, g, path) && i < |path| - 1 && FieldEdge(fragments, path[i], path[i + 1])
  }

  /** `f` spreads `g`, directly or through others, and on the way inside of a field. */
  ghost predicate ReachesThroughField(fragments: Fragments, f: Name, g: Name) {
    exists path, i: nat :: FieldChain(fragments, f, g, path, i)
  }

  lemma ChainFurther(fragments: Fragments, f: Name, g: Name, h: Name, path: seq<Name>)
    requires Chain(fragments, f, g, path) && Edge(fragments, g, h)
    ensures Chain(fragments, f, h, path + [h])
  {
    var longer := path + [h];
    forall i | 0 <= i < |longer| - 1 ensures Edge(fragments, longer[i], longer[i + 1]) {
      assert i < |path| - 1 ==> Edge(fragments, path[i], path[i + 1]);
    }
  }

  lemma ReachesFurther(fragments: Fragments, f: Name, g: Name, h: Name)
    requires Reaches(fragments, f, g) && Edge(fragments, g, h)
    ensures Reaches(fragments, f, h)
    ensures FieldEdge(fragments, g, h) ==> ReachesThroughField(fragments, f, h)
    ensures ReachesThroughField(fragments, f, g) ==> ReachesThroughField(fragments, f, h)
  {
    var path :| Chain(fragments, f, g, path);
    ChainFurther(fragments, f, g, h, path);
    if FieldEdge(fragments, g, h) {
      assert FieldChain(fragments, f, h, path + [h], |path| - 1);
    }
    if ReachesThroughField(fragments, f, g) {
      var other, i: nat :| FieldChain(fragments, f, g, other, i);
      ChainFurther(fragments, f, g, h, other);
      assert FieldChain(fragments, f, h, other + [h], i);
    }
  }

  lemma OneEdge(fragments: Fragments, f: Name, g: Name)
    requires Edge(fragments, f, g)
    ensures Reaches(fragments, f, g)
    ensures FieldEdge(fragments, f, g) ==> ReachesThroughField(fragments, f, g)
  {
    assert Chain(fragments, f, g, [f, g]);
    if FieldEdge(fragments, f, g) {
      assert FieldChain(fragments, f, g, [f, g], 0);
    }
  }

  lemma ThroughFieldReaches(fragments: Fragments, f: Name, g: Name)
    requires ReachesThroughField(fragments, f, g)
    ensures Reaches(fragments, f, g)
  {
    var path, i: nat :| FieldChain(fragments, f, g, path, i);
  }

  /** The fragments that `selections` uses, directly or through others. */
  ghost predicate Uses(selections: seq<Selection>, fragments: Fragments, f: Name) {
    f in fragments
    && (f in Spreads(selections) || exists g :: g in Spreads(selections) && g in fragments && Reaches(fragments, g, f))
  }

  /** No fragment in use spreads itself inside of a field. */
  ghost predicate Harmless(selections: seq<Selection>, fragments: Fragments) {
    forall f :: Uses(selections, fragments, f) ==> !ReachesThroughField(fragments, f, f)
  }

  lemma FewerUses(selections: seq<Selection>, fewer: seq<Selection>, fragments: Fragments)
    requires Harmless(selections, fragments) && Spreads(fewer) <= Spreads(selections)
    ensures Harmless(fewer, fragments)
  {
    forall f | Uses(fewer, fragments, f) ensures Uses(selections, fragments, f) {
    }
  }

  lemma FragmentUses(selections: seq<Selection>, fragments: Fragments, g: Name)
    requires Harmless(selections, fragments) && g in Spreads(selections) && g in fragments
    ensures Harmless(fragments[g], fragments)
  {
    forall f | Uses(fragments[g], fragments, f) ensures Uses(selections, fragments, f) {
      if f in Spreads(fragments[g]) {
        OneEdge(fragments, g, f);
      } else {
        var h :| h in Spreads(fragments[g]) && h in fragments && Reaches(fragments, h, f);
        var path :| Chain(fragments, h, f, path);
        var longer := [g] + path;
        forall i | 0 <= i < |longer| - 1 ensures Edge(fragments, longer[i], longer[i + 1]) {
          assert i > 0 ==> Edge(fragments, path[i - 1], path[i]);
        }
        assert Chain(fragments, g, f, longer);
      }
    }
  }

  // ----- depth

  lemma {:induction false} DeeperHasPath(selections: seq<Selection>, path: seq<Name>, fragments: Fragments, depth: nat,
                                         more: nat)
    requires depth <= more && HasPath(Expand(selections, fragments, depth), path)
    ensures HasPath(Expand(selections, fragments, more), path)
    decreases depth, selections
  {
    if selections != [] {
      var first, rest := selections[0], selections[1..];
      HasPathAppend(ExpandOne(first, fragments, depth), Expand(rest, fragments, depth), path);
      HasPathAppend(ExpandOne(first, fragments, more), Expand(rest, fragments, more), path);
      if HasPath(Expand(rest, fragments, depth), path) {
        DeeperHasPath(rest, path, fragments, depth, more);
      } else {
        DeeperHasPathOne(first, path, fragments, depth, more);
      }
    }
  }

  lemma {:induction false} DeeperHasPathOne(selection: Selection, path: seq<Name>, fragments: Fragments, depth: nat,
                                            more: nat)
    requires depth <= more && HasPath(ExpandOne(selection, fragments, depth), path)
    ensures HasPath(ExpandOne(selection, fragments, more), path)
    decreases depth, selection
  {
    match selection {
      case Leaf(_) =>
      case Field(name, children) =>
        HasPathOne(Tree(name, Expand(children, fragments, depth)), path);
        HasPathOne(Tree(name, Expand(children, fragments, more)), path);
        if |path| > 1 {
          DeeperHasPath(children, path[1..], fragments, depth, more);
        }
      case Inline(body) => DeeperHasPath(body, path, fragments, depth, more);
      case Spread(f) =>
        if depth > 0 && f in fragments {
          DeeperHasPath(fragments[f], path, fragments, depth - 1, more - 1);
        }
    }
  }

  lemma {:induction false} LeastDepth(selections: seq<Selection>, path: seq<Name>, fragments: Fragments, depth: nat)
    returns (least: nat)
    requires HasPath(Expand(selections, fragments, depth), path)
    ensures least <= depth && HasPath(Expand(selections, fragments, least), path)
    ensures least > 0 ==> !HasPath(Expand(selections, fragments, least - 1), path)
    decreases depth
  {
    if depth > 0 && HasPath(Expand(selections, fragments, depth - 1), path) {
      least := LeastDepth(selections, path, fragments, depth - 1);
    } else {
      least := depth;
    }
  }

  // ----- harmless spreads hide nothing

  /** The visited fragments on the way to `selections`: those since the last field, and those before. */
  ghost predicate Behind(selections: seq<Selection>, fragments: Fragments, inner: set<Name>, outer: set<Name>) {
    && inner <= fragments.Keys && outer <= fragments.Keys
    && (forall v, g :: v in inner && g in Spreads(selections) && g in fragments ==> Reaches(fragments, v, g))
    && (forall v, g :: v in inner && g in FieldSpreads(selections) && g in fragments ==>
          ReachesThroughField(fragments, v, g))
    && (forall v, g :: v in outer && g in Spreads(selections) && g in fragments ==>
          ReachesThroughField(fragments, v, g))
  }

  /** Below this depth no fragment visited since the last field has the path. */
  ghost predicate Fruitless(path: seq<Name>, fragments: Fragments, inner: set<Name>, depth: nat) {
    forall v :: v in inner && v in fragments && depth > 0 ==> !HasPath(Expand(fragments[v], fragments, depth - 1), path)
  }

  lemma BehindFewer(selections: seq<Selection>, fewer: seq<Selection>, fragments: Fragments, inner: set<Name>,
                    outer: set<Name>)
    requires Behind(selections, fragments, inner, outer)
    requires Spreads(fewer) <= Spreads(selections) && FieldSpreads(fewer) <= FieldSpreads(selections)
    ensures Behind(fewer, fragments, inner, outer)
  {
  }

  lemma BehindField(selections: seq<Selection>, children: seq<Selection>, fragments: Fragments, inner: set<Name>,
                    outer: set<Name>)
    requires Behind(selections, fragments, inner, outer)
    requires Spreads(children) <= FieldSpreads(selections) && Spreads(children) <= Spreads(selections)
    ensures Behind(children, fragments, {}, inner + outer)
  {
  }

  lemma BehindSpread(selections: seq<Selection>, f: Name, fragments: Fragments, inner: set<Name>, outer: set<Name>)
    requires Behind(selections, fragments, inner, outer) && f in Spreads(selections) && f in fragments
    ensures Behind(fragments[f], fragments, inner + {f}, outer)
  {
    SpreadsAreBoth(fragments[f]);
    forall v, g | v in inner + {f} && g in Spreads(fragments[f]) && g in fragments
      ensures Reaches(fragments, v, g)
      ensures g in FieldSpreads(fragments[f]) ==> ReachesThroughField(fragments, v, g)
    {
      if v == f {
        OneEdge(fragments, f, g);
      } else {
        ReachesFurther(fragments, v, f, g);
      }
    }
    forall v, g | v in outer && g in Spreads(fragments[f]) && g in fragments
      ensures ReachesThroughField(fragments, v, g)
    {
      ThroughFieldReaches(fragments, v, f);
      ReachesFurther(fragments, v, f, g);
    }
  }

  lemma {:induction false} HarmlessPathsAreFound(selections: seq<Selection>, path: seq<Name>, fragments: Fragments,
                                                 inner: set<Name>, outer: set<Name>, depth: nat)
    requires Harmless(selections, fragments) && Behind(selections, fragments, inner, outer)
    requires Fruitless(path, fragments, inner, depth) && HasPath(Expand(selections, fragments, depth), path)
    ensures IncludesPath(selections, path, fragments, inner + outer)
    decreases |path|, depth, 1, selections
  {
    var first, rest := selections[0], selections[1..];
    Parts(selections);
    HasPathAppend(ExpandOne(first, fragments, depth), Expand(rest, fragments, depth), path);
    if HasPath(Expand(rest, fragments, depth), path) {
      FewerUses(selections, rest, fragments);
      BehindFewer(selections, rest, fragments, inner, outer);
      HarmlessPathsAreFound(rest, path, fragments, inner, outer, depth);
    } else {
      match first {
        case Leaf(name) => HasPathOne(Tree(name, []), path);
        case Field(name, children) =>
          HasPathOne(Tree(name, Expand(children, fragments, depth)), path);
          if |path| > 1 {
            FewerUses(selections, children, fragments);
            BehindField(selections, children, fragments, inner, outer);
            HarmlessPathsAreFound(children, path[1..], fragments, {}, inner + outer, depth);
            assert {} + (inner + outer) == inner + outer;
          }
        case Inline(body) =>
          FewerUses(selections, body, fragments);
          BehindFewer(selections, body, fragments, inner, outer);
          HarmlessPathsAreFound(body, path, fragments, inner, outer, depth);
        case Spread(f) =>
          HarmlessSpreadIsFound(selections, f, path, fragments, inner, outer, depth);
      }
    }
  }

  lemma {:induction false} HarmlessSpreadIsFound(selections: seq<Selection>, f: Name, path: seq<Name>,
                                                 fragments: Fragments, inner: set<Name>, outer: set<Name>, depth: nat)
    requires Harmless(selections, fragments) && Behind(selections, fragments, inner, outer)
    requires Fruitless(path, fragments, inner, depth)
    requires f in Spreads(selections) && HasPath(ExpandOne(Spread(f), fragments, depth), path)
    ensures f in fragments && f !in inner + outer
    ensures IncludesPath(fragments[f], path, fragments, inner + outer + {f})
    decreases |path|, depth, 0
  {
    var least := LeastDepth(fragments[f], path, fragments, depth - 1);
    assert Uses(selections, fragments, f);
    FragmentUses(selections, fragments, f);
    BehindSpread(selections, f, fragments, inner, outer);
    forall v | v in inner + {f} && v in fragments && least > 0
      ensures !HasPath(Expand(fragments[v], fragments, least - 1), path)
    {
      if v != f && HasPath(Expand(fragments[v], fragments, least - 1), path) {
        DeeperHasPath(fragments[v], path, fragments, least - 1, depth - 1);
      }
    }
    HarmlessPathsAreFound(fragments[f], path, fragments, inner + {f}, outer, least);
    assert inner + {f} + outer == inner + outer + {f};
  }

  // ----- a walk finds only short paths

  function FieldDepth(selections: seq<Selection>): nat
    decreases selections
  {
    if selections == [] then 0
    else
      var first, rest := FieldDepthOne(selections[0]), FieldDepth(selections[1..]);
      if first <= rest then rest else first
  }

  function FieldDepthOne(selection: Selection): nat
    decreases selection
  {
    match selection
    case Leaf(_) => 1
    case Field(_, children) => 1 + FieldDepth(children)
    case Inline(body) => FieldDepth(body)
    case Spread(_) => 0
  }

  function Budget(most: nat, fragments: nat): nat {
    if fragments == 0 then 0 else most + Budget(most, fragments - 1)
  }

  lemma {:induction false} BudgetGrows(most: nat, few: nat, many: nat)
    requires few <= many
    ensures Budget(most, few) <= Budget(most, many)
    decreases many
  {
    if few < many {
      BudgetGrows(most, few, many - 1);
    }
  }

  ghost predicate Bounded(fragments: Fragments, keys: set<Name>, most: nat) {
    forall f :: f in keys && f in fragments ==> FieldDepth(fragments[f]) <= most
  }

  lemma {:induction false} BodiesAreBounded(fragments: Fragments, keys: set<Name>) returns (most: nat)
    ensures Bounded(fragments, keys, most)
    decreases keys
  {
    most := 0;
    if keys != {} {
      var f :| f in keys;
      most := BodiesAreBounded(fragments, keys - {f});
      if f in fragments && FieldDepth(fragments[f]) > most {
        most := FieldDepth(fragments[f]);
      }
    }
  }

  /** Every fragment contributes to a found path at most once. */
  lemma {:induction false} FoundPathsAreShort(selections: seq<Selection>, path: seq<Name>, fragments: Fragments,
                                              visited: set<Name>, most: nat)
    requires Bounded(fragments, fragments.Keys, most) && IncludesPath(selections, path, fragments, visited)
    ensures |path| <= FieldDepth(selections) + Budget(most, |fragments.Keys - visited|)
    decreases fragments.Keys - visited, selections
  {
    if SelectionIncludesPath(selections[0], path, fragments, visited) {
      FoundPathsAreShortOne(selections[0], path, fragments, visited, most);
    } else {
      FoundPathsAreShort(selections[1..], path, fragments, visited, most);
    }
  }

  lemma {:induction false} FoundPathsAreShortOne(selection: Selection, path: seq<Name>, fragments: Fragments,
                                                 visited: set<Name>, most: nat)
    requires path != [] && Bounded(fragments, fragments.Keys, most)
    requires SelectionIncludesPath(selection, path, fragments, visited)
    ensures |path| <= FieldDepthOne(selection) + Budget(most, |fragments.Keys - visited|)
    decreases fragments.Keys - visited, selection
  {
    match selection {
      case Leaf(_) =>
      case Field(_, children) =>
        if |path| > 1 {
          FoundPathsAreShort(children, path[1..], fragments, visited, most);
        }
      case Inline(body) => FoundPathsAreShort(body, path, fragments, visited, most);
      case Spread(f) =>
        var fewer := |fragments.Keys - (visited + {f})|;
        OneLess(fragments, visited, f);
        FoundPathsAreShort(fragments[f], path, fragments, visited + {f}, most);
        BudgetGrows(most, fewer + 1, |fragments.Keys - visited|);
    }
  }

  // ----- a cycle through a field has arbitrarily long paths

  /** A path below a spread is a path of the selections, longer when the spread is inside of a field. */
  lemma {:induction false} Lift(selections: seq<Selection>, fragments: Fragments, g: Name, path: seq<Name>, depth: nat)
    returns (longer: seq<Name>)
    requires g in fragments && g in Spreads(selections) && HasPath(Expand(fragments[g], fragments, depth), path)
    ensures HasPath(Expand(selections, fragments, depth + 1), longer)
    ensures |longer| >= |path| + if g in FieldSpreads(selections) then 1 else 0
    decreases selections
  {
    var first, rest := selections[0], selections[1..];
    if g in FieldSpreadsOne(first) || (g !in FieldSpreads(selections) && g in SpreadsOne(first)) {
      SpreadsOfOne(first);
      longer := LiftOne(first, fragments, g, path, depth);
    } else {
      SpreadsAreBoth(rest);
      longer := Lift(rest, fragments, g, path, depth);
    }
    HasPathAppend(ExpandOne(first, fragments, depth + 1), Expand(rest, fragments, depth + 1), longer);
  }

  lemma SpreadsOfOne(selection: Selection)
    ensures SpreadsOne(selection) == InlineSpreadsOne(selection) + FieldSpreadsOne(selection)
  {
    if selection.Inline? {
      SpreadsAreBoth(selection.body);
    }
  }

  lemma {:induction false} LiftOne(selection: Selection, fragments: Fragments, g: Name, path: seq<Name>, depth: nat)
    returns (longer: seq<Name>)
    requires g in fragments && g in SpreadsOne(selection) && HasPath(Expand(fragments[g], fragments, depth), path)
    ensures HasPath(ExpandOne(selection, fragments, depth + 1), longer)
    ensures |longer| >= |path| + if g in FieldSpreadsOne(selection) then 1 else 0
    decreases selection
  {
    match selection {
      case Field(name, children) =>
        var inside := Lift(children, fragments, g, path, depth);
        longer := [name] + inside;
        assert longer[1..] == inside;
        HasPathOne(Tree(name, Expand(children, fragments, depth + 1)), longer);
      case Inline(body) => longer := Lift(body, fragments, g, path, depth);
      case Spread(f) => longer := path;
    }
  }

  /** A spread inside of a field has a field around it. */
  lemma {:induction false} FieldAround(selections: seq<Selection>, fragments: Fragments, g: Name)
    returns (path: seq<Name>)
    requires g in FieldSpreads(selections)
    ensures HasPath(Expand(selections, fragments, 0), path)
    decreases selections
  {
    var first, rest := selections[0], selections[1..];
    if g in FieldSpreadsOne(first) {
      match first {
        case Field(name, children) =>
          path := [name];
          HasPathOne(Tree(name, Expand(children, fragments, 0)), path);
        case Inline(body) => path := FieldAround(body, fragments, g);
      }
    } else {
      path := FieldAround(rest, fragments, g);
    }
    HasPathAppend(ExpandOne(first, fragments, 0), Expand(rest, fragments, 0), path);
  }

  /** A path at the end of a chain of spreads is one at its start, longer if the chain passes a field. */
  lemma {:induction false} LiftAlong(fragments: Fragments, chain: seq<Name>, path: seq<Name>, depth: nat)
    returns (longer: seq<Name>, deeper: nat)
    requires chain != [] && forall i :: 0 <= i < |chain| - 1 ==> Edge(fragments, chain[i], chain[i + 1])
    requires chain[|chain| - 1] in fragments && HasPath(Expand(fragments[chain[|chain| - 1]], fragments, depth), path)
    ensures chain[0] in fragments && HasPath(Expand(fragments[chain[0]], fragments, deeper), longer)
    ensures |longer| >= |path|
    ensures (exists i :: 0 <= i < |chain| - 1 && FieldEdge(fragments, chain[i], chain[i + 1])) ==> |longer| > |path|
    decreases chain
  {
    if |chain| == 1 {
      longer, deeper := path, depth;
    } else {
      var rest := chain[1..];
      forall i | 0 <= i < |rest| - 1 ensures Edge(fragments, rest[i], rest[i + 1]) {
        assert Edge(fragments, chain[i + 1], chain[i + 2]);
      }
      var inner, below := LiftAlong(fragments, rest, path, depth);
      assert Edge(fragments, chain[0], chain[1]);
      longer := Lift(fragments[chain[0]], fragments, chain[1], inner, below);
      deeper := below + 1;
      if i :| 0 < i < |chain| - 1 && FieldEdge(fragments, chain[i], chain[i + 1]) {
        assert rest[i - 1] == chain[i] && rest[i] == chain[i + 1];
      }
    }
  }

  /** Around a cycle through a field, paths get as long as one likes. */
  lemma {:induction false} LongAround(fragments: Fragments, f: Name, cycle: seq<Name>, i: nat, n: nat)
    returns (path: seq<Name>, depth: nat)
    requires FieldChain(fragments, f, f, cycle, i)
    ensures f in fragments && |path| >= n && HasPath(Expand(fragments[f], fragments, depth), path)
    decreases n
  {
    assert Edge(fragments, cycle[0], cycle[1]);
    if n == 0 {
      var start := FieldAround(fragments[cycle[i]], fragments, cycle[i + 1]);
      var front := cycle[..i + 1];
      forall k | 0 <= k < |front| - 1 ensures Edge(fragments, front[k], front[k + 1]) {
        assert Edge(fragments, cycle[k], cycle[k + 1]);
      }
      path, depth := LiftAlong(fragments, front, start, 0);
    } else {
      var shorter, below := LongAround(fragments, f, cycle, i, n - 1);
      path, depth := LiftAlong(fragments, cycle, shorter, below);
    }
  }

  lemma LongPath(selections: seq<Selection>, fragments: Fragments, f: Name, n: nat)
    returns (path: seq<Name>, depth: nat)
    requires Uses(selections, fragments, f) && ReachesThroughField(fragments, f, f)
    ensures |path| >= n && HasPath(Expand(selections, fragments, depth), path)
  {
    var cycle, i: nat :| FieldChain(fragments, f, f, cycle, i);
    var long, below := LongAround(fragments, f, cycle, i, n);
    if f in Spreads(selections) {
      path := Lift(selections, fragments, f, long, below);
      depth := below + 1;
    } else {
      var g :| g in Spreads(selections) && g in fragments && Reaches(fragments, g, f);
      var chain :| Chain(fragments, g, f, chain);
      var longer, deeper := LiftAlong(fragments, chain, long, below);
      path := Lift(selections, fragments, g, longer, deeper);
      depth := deeper + 1;
    }
  }

  // ----- exactly when the walk hides nothing

  ghost predicate Selected(selections: seq<Selection>, fragments: Fragments, path: seq<Name>) {
    exists depth :: HasPath(Expand(selections, fragments, depth), path)
  }

  /** The walk answers for every path as expanding the spreads does, however deep. */
  ghost predicate WalkAgrees(selections: seq<Selection>, fragments: Fragments) {
    forall path :: IncludesPath(selections, path, fragments, {}) <==> Selected(selections, fragments, path)
  }

  /** The walk hides a selected path exactly when some fragment in use spreads itself inside of a field. */
  lemma WalkAgreesExactly(selections: seq<Selection>, fragments: Fragments)
    ensures WalkAgrees(selections, fragments) <==> Harmless(selections, fragments)
  {
    if Harmless(selections, fragments) {
      forall path ensures IncludesPath(selections, path, fragments, {}) <==> Selected(selections, fragments, path) {
        if IncludesPath(selections, path, fragments, {}) {
          FoundPathsExist(selections, path, fragments, {}, |fragments.Keys|);
        }
        if Selected(selections, fragments, path) {
          var depth :| HasPath(Expand(selections, fragments, depth), path);
          var least := LeastDepth(selections, path, fragments, depth);
          var none: set<Name> := {};
          HarmlessPathsAreFound(selections, path, fragments, none, none, least);
          assert none + none == none;
        }
      }
    } else {
      var f :| Uses(selections, fragments, f) && ReachesThroughField(fragments, f, f);
      var most := BodiesAreBounded(fragments, fragments.Keys);
      var bound := FieldDepth(selections) + Budget(most, |fragments.Keys - {}|);
      var path, depth := LongPath(selections, fragments, f, bound + 1);
      assert Selected(selections, fragments, path);
      if IncludesPath(selections, path, fragments, {}) {
        FoundPathsAreShort(selections, path, fragments, {}, most);
      }
    }
  }
}
