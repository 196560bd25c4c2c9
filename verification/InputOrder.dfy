/** `topological_sort_inputs`: a depth-first sort of calculation inputs by dependency. */
module InputOrder {
  import opened Sequences

  type Name = string

  /** Each input name with the names it declares in `depends_on`, which need not be inputs. */
  type Dependencies = map<Name, seq<Name>>

  datatype SortOutcome = Ordered(order: seq<Name>) | CyclicDependency(node: Name)

  // ----- the dependency graph

  ghost predicate Edge(deps: Dependencies, before: Name, after: Name) {
    after in deps && before in deps[after]
  }

  ghost predicate Chain(deps: Dependencies, path: seq<Name>) {
    forall i :: 0 <= i < |path| - 1 ==> Edge(deps, path[i], path[i + 1])
  }

  ghost predicate CycleThrough(deps: Dependencies, node: Name, path: seq<Name>) {
    |path| >= 2 && path[0] == node && path[|path| - 1] == node && Chain(deps, path)
  }

  ghost predicate OnCycle(deps: Dependencies, node: Name) {
    exists path :: CycleThrough(deps, node, path)
  }

  /** Every dependency that is itself an input comes before its dependent. */
  ghost predicate Respects(deps: Dependencies, order: seq<Name>) {
    forall i, d :: 0 <= i < |order| && order[i] in deps && d in deps[order[i]] && d in deps
                   ==> d in order[..i]
  }

  ghost predicate IsInputOrder(deps: Dependencies, order: seq<Name>) {
    && Distinct(order)
    && (forall n :: n in order <==> n in deps)
    && Respects(deps, order)
  }

  // ----- an order rules out cycles

  lemma {:induction false} ChainClimbs(deps: Dependencies, order: seq<Name>, path: seq<Name>, i: nat, j: nat)
    requires IsInputOrder(deps, order) && Chain(deps, path) && |path| >= 2
    requires forall n :: n in path ==> n in order
    requires i < |order| && order[i] == path[0]
    requires j < |order| && order[j] == path[|path| - 1]
    ensures i < j
    decreases |path|
  {
    assert Edge(deps, path[0], path[1]);
    assert path[1] in path;
    var m :| 0 <= m < |order| && order[m] == path[1];
    assert path[0] in order[..m];
    if |path| > 2 {
      var rest := path[1..];
      forall k | 0 <= k < |rest| - 1 ensures Edge(deps, rest[k], rest[k + 1]) {
        assert Edge(deps, path[k + 1], path[k + 2]);
      }
      ChainClimbs(deps, order, rest, m, j);
    }
  }

  /** An input order and a cycle exclude each other. */
  lemma OrderExcludesCycles(deps: Dependencies, order: seq<Name>, node: Name)
    requires IsInputOrder(deps, order)
    ensures !OnCycle(deps, node)
  {
    if OnCycle(deps, node) {
      var path :| CycleThrough(deps, node, path);
      forall k | 0 <= k < |path| ensures path[k] in deps {
        if k == 0 {
          assert Edge(deps, path[|path| - 2], path[|path| - 1]);
        } else {
          assert Edge(deps, path[k - 1], path[k]);
        }
      }
      var i :| 0 <= i < |order| && order[i] == node;
      ChainClimbs(deps, order, path, i, i);
    }
  }

  /** The part of a path that starts at an earlier occurrence of its next node is a cycle. */
  lemma PathMeetsItself(deps: Dependencies, path: seq<Name>, node: Name)
    requires Chain(deps, path + [node]) && node in path
    ensures OnCycle(deps, node)
  {
    var i :| 0 <= i < |path| && path[i] == node;
    var cycle := path[i..] + [node];
    forall k | 0 <= k < |cycle| - 1 ensures Edge(deps, cycle[k], cycle[k + 1]) {
      assert cycle[k] == (path + [node])[i + k] && cycle[k + 1] == (path + [node])[i + k + 1];
    }
    assert CycleThrough(deps, node, cycle);
  }

  // ----- the sort

  /** Every successor of a finished node was finished before it. */
  ghost predicate PostOrder(deps: Dependencies, done: seq<Name>) {
    forall i, k :: 0 <= i < |done| && Edge(deps, done[i], k) ==> k in done[..i]
  }

  lemma ReversedPostOrder(deps: Dependencies, done: seq<Name>)
    requires Distinct(done) && PostOrder(deps, done)
    requires forall n :: n in done <==> n in deps
    ensures IsInputOrder(deps, Reversed(done))
  {
    var order := Reversed(done);
    forall n ensures n in order <==> n in deps {
      if n in deps {
        var i :| 0 <= i < |done| && done[i] == n;
        assert order[|done| - 1 - i] == n;
      }
    }
    forall i, d | 0 <= i < |order| && order[i] in deps && d in deps[order[i]] && d in deps
      ensures d in order[..i]
    {
      var j :| 0 <= j < |done| && done[j] == d;
      assert Edge(deps, done[j], order[i]);
      var k :| 0 <= k < j && done[k] == order[i];
      assert done[|done| - 1 - i] == order[i];
      assert order[|done| - 1 - j] == d;
    }
  }

  /** `graph.get(node, [])` */
  function Successors(graph: map<Name, set<Name>>, node: Name): set<Name> {
    if node in graph then graph[node] else {}
  }

  class TopologicalSorter {
    const names: seq<Name>
    const dependsOn: Dependencies
    var graph: map<Name, set<Name>>
    var visited: set<Name>
    var sortedInputs: seq<Name>
    var tempMark: set<Name>

    constructor (names: seq<Name>, dependsOn: Dependencies)
      requires Distinct(names) && forall n :: n in names <==> n in dependsOn
      ensures this.names == names && this.dependsOn == dependsOn
    {
      this.names, this.dependsOn := names, dependsOn;
      graph, visited, sortedInputs, tempMark := map[], {}, [], {};
    }

    ghost predicate GraphBuilt()
      reads this
    {
      forall d, k :: k in Successors(graph, d) <==> Edge(dependsOn, d, k)
    }

    ghost predicate Valid()
      reads this
    {
      && GraphBuilt()
      && Distinct(sortedInputs)
      && (forall n :: n in visited <==> n in sortedInputs)
      && visited !! tempMark
      && visited <= dependsOn.Keys && tempMark <= dependsOn.Keys
      && PostOrder(dependsOn, sortedInputs)
    }

    method BuildGraph()
      requires Distinct(names) && forall n :: n in names <==> n in dependsOn
      modifies this`graph
      ensures GraphBuilt()
    {
      graph := map[];
      for i := 0 to |names|
        invariant forall d, k :: k in Successors(graph, d) <==> k in names[..i] && d in dependsOn[k]
      {
        var key := names[i];
        var deps := dependsOn[key];
        for j := 0 to |deps|
          invariant forall d, k :: k in Successors(graph, d) <==>
                                   (k in names[..i] && d in dependsOn[k]) || (k == key && d in deps[..j])
        {
          assert deps[..j + 1] == deps[..j] + [deps[j]];
          ghost var before := graph;
          graph := graph[deps[j] := Successors(graph, deps[j]) + {key}];
          forall d, k
            ensures k in Successors(graph, d) <==> k in Successors(before, d) || (k == key && d == deps[j])
          {
          }
        }
        assert deps[..|deps|] == deps;
        assert names[..i + 1] == names[..i] + [key];
      }
      assert names[..|names|] == names;
    }

    /** `visit`: `path` is the chain of nodes whose visits are still open. */
    method Visit(node: Name, ghost path: seq<Name>) returns (cyclic: Option<Name>)
      requires Valid() && node in dependsOn
      requires Chain(dependsOn, path + [node])
      requires forall n :: n in path <==> n in tempMark
      modifies this`visited, this`sortedInputs, this`tempMark
      ensures cyclic.Some? ==> OnCycle(dependsOn, cyclic.value)
      ensures cyclic.None? ==> Valid() && tempMark == old(tempMark)
      ensures cyclic.None? ==> node in visited && old(visited) <= visited
      decreases dependsOn.Keys - tempMark
    {
      if node in visited {
        return None;
      }
      if node in tempMark {
        PathMeetsItself(dependsOn, path, node);
        return Some(node);
      }
      tempMark := tempMark + {node};
      ghost var open := path + [node];
      var todo := Successors(graph, node);
      while todo != {}
        invariant Valid() && tempMark == old(tempMark) + {node} && old(visited) <= visited
        invariant todo <= Successors(graph, node) && Successors(graph, node) <= visited + todo
      {
        var m :| m in todo;
        assert Edge(dependsOn, node, m);
        todo := todo - {m};
        ExtendChain(dependsOn, open, m);
        cyclic := Visit(m, open);
        if cyclic.Some? {
          return;
        }
      }
      tempMark := tempMark - {node};
      visited := visited + {node};
      ExtendPostOrder(dependsOn, sortedInputs, node);
      sortedInputs := sortedInputs + [node];
      return None;
    }

    /** The whole sort, for whatever order each successor set is iterated in. */
    method TopologicalSortInputs() returns (outcome: SortOutcome)
      requires Distinct(names) && forall n :: n in names <==> n in dependsOn
      modifies this
      ensures outcome.Ordered? ==> IsInputOrder(dependsOn, outcome.order)
      ensures outcome.Ordered? ==> multiset(outcome.order) == multiset(names)
      ensures outcome.CyclicDependency? ==> OnCycle(dependsOn, outcome.node)
      ensures outcome.CyclicDependency? <==> exists node :: OnCycle(dependsOn, node)
    {
      BuildGraph();
      visited, sortedInputs, tempMark := {}, [], {};
      for i := 0 to |names|
        invariant Valid() && tempMark == {}
        invariant forall j :: 0 <= j < i ==> names[j] in visited
      {
        if names[i] !in visited {
          var cyclic := Visit(names[i], []);
          if cyclic.Some? {
            return CyclicDependency(cyclic.value);
          }
        }
      }
      ReversedPostOrder(dependsOn, sortedInputs);
      sortedInputs := Reversed(sortedInputs);
      forall node ensures !OnCycle(dependsOn, node) {
        OrderExcludesCycles(dependsOn, sortedInputs, node);
      }
      DistinctPermutation(sortedInputs, names);
      return Ordered(sortedInputs);
    }
  }

  lemma ExtendChain(deps: Dependencies, path: seq<Name>, next: Name)
    requires Chain(deps, path) && path != [] && Edge(deps, path[|path| - 1], next)
    ensures Chain(deps, path + [next])
  {
  }

  lemma ExtendPostOrder(deps: Dependencies, done: seq<Name>, node: Name)
    requires PostOrder(deps, done) && forall k :: Edge(deps, node, k) ==> k in done
    ensures PostOrder(deps, done + [node])
  {
    var longer := done + [node];
    forall i, k | 0 <= i < |longer| && Edge(deps, longer[i], k) ensures k in longer[..i] {
      if i < |done| {
        assert Edge(deps, done[i], k);
        assert longer[..i] == done[..i];
      } else {
        assert longer[..i] == done;
      }
    }
  }
}
