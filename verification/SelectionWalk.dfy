/** The two walks over a GraphQL selection that follow named fragments: whether a path is selected, and
    which property names are selected directly under a root field. */
module SelectionWalk {
  import opened Sequences

  type Name = string

  /** A leaf is a field without a selection set. */
  datatype Selection =
    | Leaf(name: Name)
    | Field(name: Name, selections: seq<Selection>)
    | Inline(body: seq<Selection>)
    | Spread(fragment: Name)

  type Fragments = map<Name, seq<Selection>>

  function SelectionsOf(selections: Option<seq<Selection>>): seq<Selection> {
    if selections.None? then [] else selections.value
  }

  // ----- the path walk

  /** `_selection_set_includes_path` */
  predicate IncludesPath(selections: seq<Selection>, path: seq<Name>, fragments: Fragments, visited: set<Name>)
    decreases fragments.Keys - visited, selections
  {
    selections != [] && path != []
    && (SelectionIncludesPath(selections[0], path, fragments, visited)
        || IncludesPath(selections[1..], path, fragments, visited))
  }

  predicate SelectionIncludesPath(selection: Selection, path: seq<Name>, fragments: Fragments, visited: set<Name>)
    requires path != []
    decreases fragments.Keys - visited, selection
  {
    match selection
    case Leaf(name) => path == [name]
    case Field(name, children) =>
      name == path[0] && (|path| == 1 || IncludesPath(children, path[1..], fragments, visited))
    case Inline(body) => IncludesPath(body, path, fragments, visited)
    case Spread(f) =>
      f !in visited && f in fragments && IncludesPath(fragments[f], path, fragments, visited + {f})
  }

  /** `selection_includes_path` over the resolver's field nodes */
  predicate SelectionIncludes(fieldNodes: seq<Option<seq<Selection>>>, path: seq<Name>, fragments: Fragments) {
    exists i :: 0 <= i < |fieldNodes| && IncludesPath(SelectionsOf(fieldNodes[i]), path, fragments, {})
  }

  // ----- the document with its fragments dissolved

  datatype Tree = Tree(name: Name, children: seq<Tree>)

  /** The selected fields, with inline fragments and up to `depth` levels of spreads replaced by their
      selections. */
  function Expand(selections: seq<Selection>, fragments: Fragments, depth: nat): seq<Tree>
    decreases depth, selections
  {
    if selections == [] then []
    else ExpandOne(selections[0], fragments, depth) + Expand(selections[1..], fragments, depth)
  }

  function ExpandOne(selection: Selection, fragments: Fragments, depth: nat): seq<Tree>
    decreases depth, selection
  {
    match selection
    case Leaf(name) => [Tree(name, [])]
    case Field(name, children) => [Tree(name, Expand(children, fragments, depth))]
    case Inline(body) => Expand(body, fragments, depth)
    case Spread(f) => if depth == 0 || f !in fragments then [] else Expand(fragments[f], fragments, depth - 1)
  }

  /** All levels. Without cyclic spreads there are no more levels than fragments. */
  function Inlined(selections: seq<Selection>, fragments: Fragments): seq<Tree> {
    Expand(selections, fragments, |fragments|)
  }

  /** Some chain of nested fields reads `path`. */
  predicate HasPath(trees: seq<Tree>, path: seq<Name>)
    decreases path
  {
    path != []
    && exists i :: 0 <= i < |trees| && trees[i].name == path[0]
                   && (|path| == 1 || HasPath(trees[i].children, path[1..]))
  }

  lemma HasPathAppend(a: seq<Tree>, b: seq<Tree>, path: seq<Name>)
    ensures HasPath(a + b, path) <==> HasPath(a, path) || HasPath(b, path)
  {
    if path != [] {
      var good := (t: Tree) => t.name == path[0] && (|path| == 1 || HasPath(t.children, path[1..]));
      if HasPath(a, path) {
        var i :| 0 <= i < |a| && good(a[i]);
        assert (a + b)[i] == a[i];
      }
      if HasPath(b, path) {
        var i :| 0 <= i < |b| && good(b[i]);
        assert (a + b)[|a| + i] == b[i];
      }
      if HasPath(a + b, path) {
        var i :| 0 <= i < |a + b| && good((a + b)[i]);
        assert if i < |a| then (a + b)[i] == a[i] else (a + b)[i] == b[i - |a|];
      }
    }
  }

  lemma HasPathOne(t: Tree, path: seq<Name>)
    ensures HasPath([t], path)
       <==> path != [] && t.name == path[0] && (|path| == 1 || HasPath(t.children, path[1..]))
  {
    assert [t][0] == t;
  }

  // ----- acyclic spreads

  /** The fragments that `selections` spreads, at any depth of fields and inline fragments. */
  function Spreads(selections: seq<Selection>): set<Name>
    decreases selections
  {
    if selections == [] then {} else SpreadsOne(selections[0]) + Spreads(selections[1..])
  }

  function SpreadsOne(selection: Selection): set<Name>
    decreases selection
  {
    match selection
    case Leaf(_) => {}
    case Field(_, children) => Spreads(children)
    case Inline(body) => Spreads(body)
    case Spread(f) => {f}
  }

  ghost predicate Edge(fragments: Fragments, f: Name, g: Name) {
    f in fragments && g in fragments && g in Spreads(fragments[f])
  }

  ghost predicate Chain(fragments: Fragments, f: Name, g: Name, path: seq<Name>) {
    && |path| >= 2 && path[0] == f && path[|path| - 1] == g
    && forall i :: 0 <= i < |path| - 1 ==> Edge(fragments, path[i], path[i + 1])
  }

  ghost predicate Reaches(fragments: Fragments, f: Name, g: Name) {
    exists path :: Chain(fragments, f, g, path)
  }

  /** Section 5.5.2.2 of the GraphQL specification: no fragment spreads itself, directly or through
      others. */
  ghost predicate Acyclic(fragments: Fragments) {
    forall f :: f in fragments ==> !Reaches(fragments, f, f)
  }

  ghost function Reached(fragments: Fragments, f: Name): set<Name> {
    set g | g in fragments && Reaches(fragments, f, g)
  }

  ghost function Rank(fragments: Fragments, f: Name): nat {
    |Reached(fragments, f)|
  }

  lemma Smaller<T>(a: set<T>, b: set<T>, x: T)
    requires a <= b && x in b && x !in a
    ensures |a| < |b|
  {
    assert |b| == |a| + |b - a| by {
      assert b == a + (b - a);
    }
    assert x in b - a;
  }

  lemma EdgeLowersRank(fragments: Fragments, f: Name, g: Name)
    requires Acyclic(fragments) && Edge(fragments, f, g)
    ensures Rank(fragments, g) < Rank(fragments, f)
  {
    assert Chain(fragments, f, g, [f, g]);
    forall h | h in Reached(fragments, g) ensures h in Reached(fragments, f) {
      var path :| Chain(fragments, g, h, path);
      var longer := [f] + path;
      forall i | 0 <= i < |longer| - 1 ensures Edge(fragments, longer[i], longer[i + 1]) {
        assert i > 0 ==> Edge(fragments, path[i - 1], path[i]);
      }
      assert Chain(fragments, f, h, longer);
    }
    Smaller(Reached(fragments, g), Reached(fragments, f), g);
  }

  lemma RankIsBounded(fragments: Fragments, f: Name)
    requires Acyclic(fragments) && f in fragments
    ensures Rank(fragments, f) < |fragments|
  {
    Smaller(Reached(fragments, f), fragments.Keys, f);
  }

  /** Every fragment spread in `selections` ranks below `bound`. */
  ghost predicate Below(spread: set<Name>, fragments: Fragments, bound: nat) {
    forall g :: g in spread && g in fragments ==> Rank(fragments, g) < bound
  }

  lemma BelowParts(selections: seq<Selection>, fragments: Fragments, bound: nat)
    requires Below(Spreads(selections), fragments, bound) && selections != []
    ensures Below(SpreadsOne(selections[0]), fragments, bound) && Below(Spreads(selections[1..]), fragments, bound)
  {
    assert Spreads(selections) == SpreadsOne(selections[0]) + Spreads(selections[1..]);
  }

  lemma FragmentBelow(fragments: Fragments, f: Name)
    requires Acyclic(fragments) && f in fragments
    ensures Below(Spreads(fragments[f]), fragments, Rank(fragments, f))
  {
    forall g | g in Spreads(fragments[f]) && g in fragments ensures Rank(fragments, g) < Rank(fragments, f) {
      EdgeLowersRank(fragments, f, g);
    }
  }

  lemma AllBelow(selections: seq<Selection>, fragments: Fragments)
    requires Acyclic(fragments)
    ensures Below(Spreads(selections), fragments, |fragments|)
  {
    forall g | g in Spreads(selections) && g in fragments ensures Rank(fragments, g) < |fragments| {
      RankIsBounded(fragments, g);
    }
  }

  /** With acyclic spreads, expanding further changes nothing: the inlined document is complete. */
  lemma {:induction false} ExpansionIsComplete(selections: seq<Selection>, fragments: Fragments, bound: nat,
                                               depth: nat, more: nat)
    requires Acyclic(fragments) && Below(Spreads(selections), fragments, bound)
    requires bound <= depth && bound <= more
    ensures Expand(selections, fragments, depth) == Expand(selections, fragments, more)
    decreases depth, selections
  {
    if selections != [] {
      BelowParts(selections, fragments, bound);
      ExpansionOfOne(selections[0], fragments, bound, depth, more);
      ExpansionIsComplete(selections[1..], fragments, bound, depth, more);
    }
  }

  lemma {:induction false} ExpansionOfOne(selection: Selection, fragments: Fragments, bound: nat, depth: nat, more: nat)
    requires Acyclic(fragments) && Below(SpreadsOne(selection), fragments, bound)
    requires bound <= depth && bound <= more
    ensures ExpandOne(selection, fragments, depth) == ExpandOne(selection, fragments, more)
    decreases depth, selection
  {
    match selection {
      case Leaf(_) =>
      case Field(_, children) => ExpansionIsComplete(children, fragments, bound, depth, more);
      case Inline(body) => ExpansionIsComplete(body, fragments, bound, depth, more);
      case Spread(f) =>
        if f in fragments {
          FragmentBelow(fragments, f);
          ExpansionIsComplete(fragments[f], fragments, Rank(fragments, f), depth - 1, more - 1);
        }
    }
  }

  // ----- the path walk against the inlined document

  lemma OneLess(fragments: Fragments, visited: set<Name>, f: Name)
    requires f in fragments && f !in visited
    ensures |fragments.Keys - (visited + {f})| < |fragments.Keys - visited|
  {
    Smaller(fragments.Keys - (visited + {f}), fragments.Keys - visited, f);
  }

  /** On every document the walk finds only paths that are there. */
  lemma {:induction false} FoundPathsExist(selections: seq<Selection>, path: seq<Name>, fragments: Fragments,
                                           visited: set<Name>, depth: nat)
    requires IncludesPath(selections, path, fragments, visited)
    requires depth >= |fragments.Keys - visited|
    ensures HasPath(Expand(selections, fragments, depth), path)
    decreases fragments.Keys - visited, selections
  {
    HasPathAppend(ExpandOne(selections[0], fragments, depth), Expand(selections[1..], fragments, depth), path);
    if SelectionIncludesPath(selections[0], path, fragments, visited) {
      match selections[0] {
        case Leaf(_) => HasPathOne(ExpandOne(selections[0], fragments, depth)[0], path);
        case Field(name, children) =>
          HasPathOne(ExpandOne(selections[0], fragments, depth)[0], path);
          if |path| > 1 {
            FoundPathsExist(children, path[1..], fragments, visited, depth);
          }
        case Inline(body) => FoundPathsExist(body, path, fragments, visited, depth);
        case Spread(f) =>
          OneLess(fragments, visited, f);
          FoundPathsExist(fragments[f], path, fragments, visited + {f}, depth - 1);
      }
    } else {
      FoundPathsExist(selections[1..], path, fragments, visited, depth);
    }
  }

  ghost predicate Above(visited: set<Name>, fragments: Fragments, bound: nat) {
    forall v :: v in visited ==> Rank(fragments, v) >= bound
  }

  /** With acyclic spreads the visited guard never hides anything. */
  lemma {:induction false} ExistingPathsAreFound(selections: seq<Selection>, path: seq<Name>, fragments: Fragments,
                                                 visited: set<Name>, bound: nat, depth: nat)
    requires Acyclic(fragments) && Below(Spreads(selections), fragments, bound) && Above(visited, fragments, bound)
    requires HasPath(Expand(selections, fragments, depth), path)
    ensures IncludesPath(selections, path, fragments, visited)
    decreases depth, selections
  {
    if selections != [] {
      BelowParts(selections, fragments, bound);
      HasPathAppend(ExpandOne(selections[0], fragments, depth), Expand(selections[1..], fragments, depth), path);
      if HasPath(Expand(selections[1..], fragments, depth), path) {
        ExistingPathsAreFound(selections[1..], path, fragments, visited, bound, depth);
      } else {
        match selections[0] {
          case Leaf(_) => HasPathOne(ExpandOne(selections[0], fragments, depth)[0], path);
          case Field(name, children) =>
            HasPathOne(ExpandOne(selections[0], fragments, depth)[0], path);
            if |path| > 1 {
              ExistingPathsAreFound(children, path[1..], fragments, visited, bound, depth);
            }
          case Inline(body) => ExistingPathsAreFound(body, path, fragments, visited, bound, depth);
          case Spread(f) =>
            if f in fragments && depth > 0 {
              FragmentBelow(fragments, f);
              ExistingPathsAreFound(fragments[f], path, fragments, visited + {f}, Rank(fragments, f), depth - 1);
            }
        }
      }
    }
  }

  /** On documents with acyclic spreads the walk answers as on the inlined document. */
  lemma PathWalkIsInlined(fieldNodes: seq<Option<seq<Selection>>>, path: seq<Name>, fragments: Fragments)
    requires Acyclic(fragments)
    ensures SelectionIncludes(fieldNodes, path, fragments)
       <==> exists i :: 0 <= i < |fieldNodes| && HasPath(Inlined(SelectionsOf(fieldNodes[i]), fragments), path)
  {
    forall i | 0 <= i < |fieldNodes|
      ensures IncludesPath(SelectionsOf(fieldNodes[i]), path, fragments, {})
         <==> HasPath(Inlined(SelectionsOf(fieldNodes[i]), fragments), path)
    {
      var selections := SelectionsOf(fieldNodes[i]);
      AllBelow(selections, fragments);
      assert fragments.Keys - {} == fragments.Keys;
      if IncludesPath(selections, path, fragments, {}) {
        FoundPathsExist(selections, path, fragments, {}, |fragments|);
      }
      if HasPath(Inlined(selections, fragments), path) {
        ExistingPathsAreFound(selections, path, fragments, {}, |fragments|, |fragments|);
      }
    }
  }

  /** A cyclic spread can hide a path: replacing the spread by its fragment's selections reveals it. */
  lemma CyclicSpreadsHidePaths()
    ensures var body := [Field("items", [Spread("F")]), Leaf("capabilities")];
            && !IncludesPath([Spread("F")], ["items", "capabilities"], map["F" := body], {})
            && IncludesPath(body, ["items", "capabilities"], map["F" := body], {})
  {
    var body := [Field("items", [Spread("F")]), Leaf("capabilities")];
    var fragments := map["F" := body];
    var path := ["items", "capabilities"];
    assert path[1..] == ["capabilities"];
    assert body[1..] == [Leaf("capabilities")] && body[1..][1..] == [];
    assert !IncludesPath([Spread("F")], path[1..], fragments, {"F"});
    assert {} + {"F"} == {"F"};
    assert !IncludesPath(body[1..], path, fragments, {"F"});
    assert !IncludesPath(body, path, fragments, {"F"});
    assert IncludesPath(body[1..], path[1..], fragments, {"F"});
    assert IncludesPath(body, path[1..], fragments, {"F"});
    assert IncludesPath([Spread("F")], path[1..], fragments, {});
  }

  // ----- the property walk

  /** What `collect_selected_graphql_property_names` is called with. */
  datatype Query = Query(fragments: Fragments, available: set<Name>, normalize: Name -> Name, root: Name)

  function Chosen(q: Query, name: Name): set<Name> {
    if q.normalize(name) in q.available then {q.normalize(name)} else {}
  }

  /** What `collect_direct_fields` adds. */
  function DirectNames(q: Query, selections: seq<Selection>, visited: set<Name>): set<Name>
    decreases q.fragments.Keys - visited, selections
  {
    if selections == [] then {}
    else DirectNamesOne(q, selections[0], visited) + DirectNames(q, selections[1..], visited)
  }

  function DirectNamesOne(q: Query, selection: Selection, visited: set<Name>): set<Name>
    decreases q.fragments.Keys - visited, selection
  {
    match selection
    case Leaf(name) => Chosen(q, name)
    case Field(name, _) => Chosen(q, name)
    case Inline(body) => DirectNames(q, body, visited)
    case Spread(f) =>
      if f in visited || f !in q.fragments then {} else DirectNames(q, q.fragments[f], visited + {f})
  }

  /** What `inspect_for_root` adds. */
  function NamesUnderRoot(q: Query, selections: seq<Selection>, visited: set<Name>): set<Name>
    decreases q.fragments.Keys - visited, selections
  {
    if selections == [] then {}
    else NamesUnderRootOne(q, selections[0], visited) + NamesUnderRoot(q, selections[1..], visited)
  }

  function NamesUnderRootOne(q: Query, selection: Selection, visited: set<Name>): set<Name>
    decreases q.fragments.Keys - visited, selection
  {
    match selection
    case Leaf(_) => {}
    case Field(name, children) =>
      if name == q.root then DirectNames(q, children, visited) else NamesUnderRoot(q, children, visited)
    case Inline(body) => NamesUnderRoot(q, body, visited)
    case Spread(f) =>
      if f in visited || f !in q.fragments then {} else NamesUnderRoot(q, q.fragments[f], visited + {f})
  }

  function NamesOfAll(q: Query, fieldNodes: seq<Option<seq<Selection>>>): set<Name> {
    if fieldNodes == [] then {}
    else NamesUnderRoot(q, SelectionsOf(fieldNodes[0]), {}) + NamesOfAll(q, fieldNodes[1..])
  }

  /** The closures of `collect_selected_graphql_property_names` and the set they share. */
  class PropertyCollector {
    const q: Query
    var propertyNames: set<Name>

    constructor (q: Query)
      ensures this.q == q && propertyNames == {}
    {
      this.q := q;
      propertyNames := {};
    }

    method CollectDirectFields(selections: seq<Selection>, visited: set<Name>)
      modifies this
      ensures propertyNames == old(propertyNames) + DirectNames(q, selections, visited)
      decreases q.fragments.Keys - visited, selections
    {
      for i := 0 to |selections|
        invariant propertyNames + DirectNames(q, selections[i..], visited)
               == old(propertyNames) + DirectNames(q, selections, visited)
      {
        assert selections[i..] == [selections[i]] + selections[i + 1..];
        match selections[i] {
          case Leaf(name) => propertyNames := propertyNames + Chosen(q, name);
          case Field(name, _) => propertyNames := propertyNames + Chosen(q, name);
          case Inline(body) => CollectDirectFields(body, visited);
          case Spread(f) =>
            if f !in visited && f in q.fragments {
              CollectDirectFields(q.fragments[f], visited + {f});
            }
        }
      }
    }

    method InspectForRoot(selections: seq<Selection>, visited: set<Name>)
      modifies this
      ensures propertyNames == old(propertyNames) + NamesUnderRoot(q, selections, visited)
      decreases q.fragments.Keys - visited, selections
    {
      for i := 0 to |selections|
        invariant propertyNames + NamesUnderRoot(q, selections[i..], visited)
               == old(propertyNames) + NamesUnderRoot(q, selections, visited)
      {
        assert selections[i..] == [selections[i]] + selections[i + 1..];
        match selections[i] {
          case Leaf(_) =>
          case Field(name, children) =>
            if name == q.root {
              CollectDirectFields(children, visited);
            } else {
              InspectForRoot(children, visited);
            }
          case Inline(body) => InspectForRoot(body, visited);
          case Spread(f) =>
            if f !in visited && f in q.fragments {
              InspectForRoot(q.fragments[f], visited + {f});
            }
        }
      }
    }
  }

  /** `collect_selected_graphql_property_names` */
  method CollectSelectedPropertyNames(q: Query, fieldNodes: seq<Option<seq<Selection>>>) returns (names: set<Name>)
    ensures names == if q.available == {} then {} else NamesOfAll(q, fieldNodes)
  {
    if q.available == {} {
      return {};
    }
    var collector := new PropertyCollector(q);
    for i := 0 to |fieldNodes|
      invariant collector.q == q
      invariant collector.propertyNames + NamesOfAll(q, fieldNodes[i..]) == NamesOfAll(q, fieldNodes)
    {
      assert fieldNodes[i..] == [fieldNodes[i]] + fieldNodes[i + 1..];
      if fieldNodes[i].Some? {
        collector.InspectForRoot(fieldNodes[i].value, {});
      }
    }
    names := collector.propertyNames;
  }

  // ----- the property walk against the inlined document

  function TreeNames(q: Query, trees: seq<Tree>): set<Name> {
    if trees == [] then {} else Chosen(q, trees[0].name) + TreeNames(q, trees[1..])
  }

  /** The available names directly under the outermost fields named `root`. */
  function TreeNamesUnderRoot(q: Query, trees: seq<Tree>): set<Name>
    decreases trees
  {
    if trees == [] then {}
    else
      (if trees[0].name == q.root then TreeNames(q, trees[0].children) else TreeNamesUnderRoot(q, trees[0].children))
      + TreeNamesUnderRoot(q, trees[1..])
  }

  lemma {:induction false} TreeNamesAppend(q: Query, a: seq<Tree>, b: seq<Tree>)
    ensures TreeNames(q, a + b) == TreeNames(q, a) + TreeNames(q, b)
    ensures TreeNamesUnderRoot(q, a + b) == TreeNamesUnderRoot(q, a) + TreeNamesUnderRoot(q, b)
  {
    if a == [] {
      assert a + b == b;
    } else {
      TreeNamesAppend(q, a[1..], b);
      assert (a + b)[1..] == a[1..] + b;
    }
  }

  lemma {:induction false} DirectNamesExist(q: Query, selections: seq<Selection>, visited: set<Name>, depth: nat)
    requires depth >= |q.fragments.Keys - visited|
    ensures DirectNames(q, selections, visited) <= TreeNames(q, Expand(selections, q.fragments, depth))
    decreases q.fragments.Keys - visited, selections
  {
    if selections != [] {
      DirectNamesExistOne(q, selections[0], visited, depth);
      DirectNamesExist(q, selections[1..], visited, depth);
      TreeNamesAppend(q, ExpandOne(selections[0], q.fragments, depth), Expand(selections[1..], q.fragments, depth));
    }
  }

  lemma {:induction false} DirectNamesExistOne(q: Query, selection: Selection, visited: set<Name>, depth: nat)
    requires depth >= |q.fragments.Keys - visited|
    ensures DirectNamesOne(q, selection, visited) <= TreeNames(q, ExpandOne(selection, q.fragments, depth))
    decreases q.fragments.Keys - visited, selection
  {
    match selection {
      case Leaf(_) =>
      case Field(_, _) =>
      case Inline(body) => DirectNamesExist(q, body, visited, depth);
      case Spread(f) =>
        if f !in visited && f in q.fragments {
          OneLess(q.fragments, visited, f);
          DirectNamesExist(q, q.fragments[f], visited + {f}, depth - 1);
        }
    }
  }

  lemma {:induction false} DirectNamesAreFound(q: Query, selections: seq<Selection>, visited: set<Name>, bound: nat,
                                               depth: nat)
    requires Acyclic(q.fragments) && Below(Spreads(selections), q.fragments, bound)
    requires Above(visited, q.fragments, bound)
    ensures TreeNames(q, Expand(selections, q.fragments, depth)) <= DirectNames(q, selections, visited)
    decreases depth, selections
  {
    if selections != [] {
      BelowParts(selections, q.fragments, bound);
      DirectNamesAreFoundOne(q, selections[0], visited, bound, depth);
      DirectNamesAreFound(q, selections[1..], visited, bound, depth);
      TreeNamesAppend(q, ExpandOne(selections[0], q.fragments, depth), Expand(selections[1..], q.fragments, depth));
    }
  }

  lemma {:induction false} DirectNamesAreFoundOne(q: Query, selection: Selection, visited: set<Name>, bound: nat,
                                                  depth: nat)
    requires Acyclic(q.fragments) && Below(SpreadsOne(selection), q.fragments, bound)
    requires Above(visited, q.fragments, bound)
    ensures TreeNames(q, ExpandOne(selection, q.fragments, depth)) <= DirectNamesOne(q, selection, visited)
    decreases depth, selection
  {
    match selection {
      case Leaf(_) =>
      case Field(_, _) =>
      case Inline(body) => DirectNamesAreFound(q, body, visited, bound, depth);
      case Spread(f) =>
        if f in q.fragments && depth > 0 {
          FragmentBelow(q.fragments, f);
          DirectNamesAreFound(q, q.fragments[f], visited + {f}, Rank(q.fragments, f), depth - 1);
        }
    }
  }

  lemma TreeNamesOne(q: Query, name: Name, children: seq<Tree>)
    ensures TreeNamesUnderRoot(q, [Tree(name, children)])
         == if name == q.root then TreeNames(q, children) else TreeNamesUnderRoot(q, children)
  {
    var t := [Tree(name, children)];
    assert t[1..] == [];
  }

  /** On every document the walk collects only names that are selected under the root. */
  lemma {:induction false} CollectedNamesExist(q: Query, selections: seq<Selection>, visited: set<Name>, depth: nat)
    requires depth >= |q.fragments.Keys - visited|
    ensures NamesUnderRoot(q, selections, visited) <= TreeNamesUnderRoot(q, Expand(selections, q.fragments, depth))
    decreases q.fragments.Keys - visited, selections
  {
    if selections != [] {
      CollectedNamesExistOne(q, selections[0], visited, depth);
      CollectedNamesExist(q, selections[1..], visited, depth);
      TreeNamesAppend(q, ExpandOne(selections[0], q.fragments, depth), Expand(selections[1..], q.fragments, depth));
    }
  }

  lemma {:induction false} CollectedNamesExistOne(q: Query, selection: Selection, visited: set<Name>, depth: nat)
    requires depth >= |q.fragments.Keys - visited|
    ensures NamesUnderRootOne(q, selection, visited) <= TreeNamesUnderRoot(q, ExpandOne(selection, q.fragments, depth))
    decreases q.fragments.Keys - visited, selection
  {
    match selection {
      case Leaf(_) =>
      case Field(name, children) =>
        TreeNamesOne(q, name, Expand(children, q.fragments, depth));
        if name == q.root {
          DirectNamesExist(q, children, visited, depth);
        } else {
          CollectedNamesExist(q, children, visited, depth);
        }
      case Inline(body) => CollectedNamesExist(q, body, visited, depth);
      case Spread(f) =>
        if f !in visited && f in q.fragments {
          OneLess(q.fragments, visited, f);
          CollectedNamesExist(q, q.fragments[f], visited + {f}, depth - 1);
        }
    }
  }

  /** With acyclic spreads the walk misses none of them. */
  lemma {:induction false} SelectedNamesAreCollected(q: Query, selections: seq<Selection>, visited: set<Name>,
                                                     bound: nat, depth: nat)
    requires Acyclic(q.fragments) && Below(Spreads(selections), q.fragments, bound)
    requires Above(visited, q.fragments, bound)
    ensures TreeNamesUnderRoot(q, Expand(selections, q.fragments, depth)) <= NamesUnderRoot(q, selections, visited)
    decreases depth, selections
  {
    if selections != [] {
      BelowParts(selections, q.fragments, bound);
      SelectedNamesAreCollectedOne(q, selections[0], visited, bound, depth);
      SelectedNamesAreCollected(q, selections[1..], visited, bound, depth);
      TreeNamesAppend(q, ExpandOne(selections[0], q.fragments, depth), Expand(selections[1..], q.fragments, depth));
    }
  }

  lemma {:induction false} SelectedNamesAreCollectedOne(q: Query, selection: Selection, visited: set<Name>, bound: nat,
                                                        depth: nat)
    requires Acyclic(q.fragments) && Below(SpreadsOne(selection), q.fragments, bound)
    requires Above(visited, q.fragments, bound)
    ensures TreeNamesUnderRoot(q, ExpandOne(selection, q.fragments, depth)) <= NamesUnderRootOne(q, selection, visited)
    decreases depth, selection
  {
    match selection {
      case Leaf(name) => TreeNamesOne(q, name, []);
      case Field(name, children) =>
        TreeNamesOne(q, name, Expand(children, q.fragments, depth));
        if name == q.root {
          DirectNamesAreFound(q, children, visited, bound, depth);
        } else {
          SelectedNamesAreCollected(q, children, visited, bound, depth);
        }
      case Inline(body) => SelectedNamesAreCollected(q, body, visited, bound, depth);
      case Spread(f) =>
        if f in q.fragments && depth > 0 {
          FragmentBelow(q.fragments, f);
          SelectedNamesAreCollected(q, q.fragments[f], visited + {f}, Rank(q.fragments, f), depth - 1);
        }
    }
  }

  lemma WalkIsInlined(q: Query, selections: seq<Selection>)
    requires Acyclic(q.fragments)
    ensures NamesUnderRoot(q, selections, {}) == TreeNamesUnderRoot(q, Inlined(selections, q.fragments))
  {
    assert q.fragments.Keys - {} == q.fragments.Keys;
    AllBelow(selections, q.fragments);
    CollectedNamesExist(q, selections, {}, |q.fragments|);
    SelectedNamesAreCollected(q, selections, {}, |q.fragments|, |q.fragments|);
  }

  lemma {:induction false} NamesOfSome(q: Query, fieldNodes: seq<Option<seq<Selection>>>, name: Name)
    ensures name in NamesOfAll(q, fieldNodes)
       <==> exists i :: 0 <= i < |fieldNodes| && name in NamesUnderRoot(q, SelectionsOf(fieldNodes[i]), {})
  {
    if fieldNodes != [] {
      var later := fieldNodes[1..];
      NamesOfSome(q, later, name);
      if name in NamesOfAll(q, later) {
        var i :| 0 <= i < |later| && name in NamesUnderRoot(q, SelectionsOf(later[i]), {});
        assert fieldNodes[i + 1] == later[i];
      }
      if i :| 0 < i < |fieldNodes| && name in NamesUnderRoot(q, SelectionsOf(fieldNodes[i]), {}) {
        assert later[i - 1] == fieldNodes[i];
      }
    }
  }

  /** On documents with acyclic spreads the walk collects what is selected in the inlined document. */
  lemma PropertyWalkIsInlined(q: Query, fieldNodes: seq<Option<seq<Selection>>>, name: Name)
    requires Acyclic(q.fragments)
    ensures name in NamesOfAll(q, fieldNodes)
       <==> exists i :: 0 <= i < |fieldNodes|
                        && name in TreeNamesUnderRoot(q, Inlined(SelectionsOf(fieldNodes[i]), q.fragments))
  {
    NamesOfSome(q, fieldNodes, name);
    forall i | 0 <= i < |fieldNodes|
      ensures NamesUnderRoot(q, SelectionsOf(fieldNodes[i]), {})
           == TreeNamesUnderRoot(q, Inlined(SelectionsOf(fieldNodes[i]), q.fragments))
    {
      WalkIsInlined(q, SelectionsOf(fieldNodes[i]));
    }
  }
}
