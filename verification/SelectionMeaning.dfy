/** The selection walks on field names: which field nodes have a path, and which names stand under a root. */
module SelectionMeaning {
  import opened Sequences
  import opened SelectionWalk

  /** A path is selected iff it is selected in one of the field nodes that have a selection set. */
  lemma PathInSomeNode(fieldNodes: seq<Option<seq<Selection>>>, path: seq<Name>, fragments: Fragments)
    ensures SelectionIncludes(fieldNodes, path, fragments)
       <==> exists i :: 0 <= i < |fieldNodes| && fieldNodes[i].Some?
                        && IncludesPath(fieldNodes[i].value, path, fragments, {})
  {
    if i :| 0 <= i < |fieldNodes| && fieldNodes[i].Some? && IncludesPath(fieldNodes[i].value, path, fragments, {}) {
      assert IncludesPath(SelectionsOf(fieldNodes[i]), path, fragments, {});
    }
  }

  /** One of the fields normalizes to that property name, and the property is available. */
  ghost predicate ShowsProperty(q: Query, trees: seq<Tree>, n: Name) {
    n in q.available && exists i :: 0 <= i < |trees| && q.normalize(trees[i].name) == n
  }

  /** The property is selected directly in an outermost field with the root's name. */
  ghost predicate ShowsUnderRoot(q: Query, trees: seq<Tree>, n: Name)
    decreases trees
  {
    exists i :: 0 <= i < |trees| && if trees[i].name == q.root then ShowsProperty(q, trees[i].children, n)
                                    else ShowsUnderRoot(q, trees[i].children, n)
  }

  lemma {:induction false} TreeNamesMean(q: Query, trees: seq<Tree>, n: Name)
    ensures n in TreeNames(q, trees) <==> ShowsProperty(q, trees, n)
    decreases trees
  {
    if trees != [] {
      var rest := trees[1..];
      TreeNamesMean(q, rest, n);
      if i :| 0 <= i < |trees| && q.normalize(trees[i].name) == n {
        assert i > 0 ==> trees[i] == rest[i - 1];
      }
      if i :| 0 <= i < |rest| && q.normalize(rest[i].name) == n {
        assert trees[i + 1] == rest[i];
      }
    }
  }

  ghost predicate ShowsAt(q: Query, tree: Tree, n: Name) {
    if tree.name == q.root then ShowsProperty(q, tree.children, n) else ShowsUnderRoot(q, tree.children, n)
  }

  /** The names under the root of a document are the available properties that it selects there. */
  lemma {:induction false} NamesUnderRootMean(q: Query, trees: seq<Tree>, n: Name)
    ensures n in TreeNamesUnderRoot(q, trees) <==> ShowsUnderRoot(q, trees, n)
    decreases trees
  {
    if trees != [] {
      var rest := trees[1..];
      TreeNamesMean(q, trees[0].children, n);
      NamesUnderRootMean(q, trees[0].children, n);
      NamesUnderRootMean(q, rest, n);
      assert ShowsUnderRoot(q, trees, n) <==> ShowsAt(q, trees[0], n) || ShowsUnderRoot(q, rest, n) by {
        if i :| 0 <= i < |trees| && ShowsAt(q, trees[i], n) {
          assert i > 0 ==> trees[i] == rest[i - 1];
        }
        if i :| 0 <= i < |rest| && ShowsAt(q, rest[i], n) {
          assert trees[i + 1] == rest[i];
        }
      }
    }
  }

  /** With acyclic spreads the property walk collects exactly the available properties that the inlined
      document selects directly in a root field of some field node. */
  lemma CollectedMeans(q: Query, fieldNodes: seq<Option<seq<Selection>>>, n: Name)
    requires Acyclic(q.fragments)
    ensures n in NamesOfAll(q, fieldNodes)
       <==> exists i :: 0 <= i < |fieldNodes| && fieldNodes[i].Some?
                        && ShowsUnderRoot(q, Inlined(fieldNodes[i].value, q.fragments), n)
  {
    PropertyWalkIsInlined(q, fieldNodes, n);
    forall i | 0 <= i < |fieldNodes|
      ensures n in TreeNamesUnderRoot(q, Inlined(SelectionsOf(fieldNodes[i]), q.fragments))
         <==> fieldNodes[i].Some? && ShowsUnderRoot(q, Inlined(fieldNodes[i].value, q.fragments), n)
    {
      NamesUnderRootMean(q, Inlined(SelectionsOf(fieldNodes[i]), q.fragments), n);
    }
  }
}
