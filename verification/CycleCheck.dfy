/** The recursive cycle check of the vehicle topology (vehicle/topology_loader.py, `_dependency_cycle_errors`). */
module CycleCheck {
  import opened DependencyGraphs

  /** What each ECU depends on, as configured. */
  type Dependencies = map<Name, seq<Name>>

  function DependenciesOf(d: Dependencies, n: Name): seq<Name> {
    if n in d then d[n] else []
  }

  /** The relation "must come before" that the dependencies stand for. */
  function Requirements(d: Dependencies): Relation {
    set n, x | n in d && x in d[n] :: (x, n)
  }

  /** A chain of dependencies, each of the one before it. */
  ghost predicate IsChain(d: Dependencies, p: seq<Name>) {
    forall i | 0 <= i < |p| - 1 :: p[i + 1] in DependenciesOf(d, p[i])
  }

  /** What an error reports: a chain of dependencies that comes back to one of its own members. */
  ghost predicate ReportsCycle(d: Dependencies, p: seq<Name>) {
    |p| > 1 && IsChain(d, p) && p[|p| - 1] in p[..|p| - 1]
  }

  lemma ReportedCycleExists(d: Dependencies, p: seq<Name>)
    requires ReportsCycle(d, p)
    ensures Cyclic(Requirements(d))
  {
    var back := Reverse(Requirements(d));
    var last := |p| - 1;
    var i :| 0 <= i < last && p[i] == p[last];
    var c := p[i..];
    forall k | 0 <= k < |c| - 1 ensures (c[k], c[k + 1]) in back {
      assert p[i + k + 1] in DependenciesOf(d, p[i + k]);
      assert (c[k + 1], c[k]) in Requirements(d);
    }
    assert IsCycle(back, c);
    ReverseCyclic(Requirements(d));
  }

  lemma ChainGrows(d: Dependencies, chain: seq<Name>, next: Name)
    requires chain != [] && IsChain(d, chain) && next in DependenciesOf(d, chain[|chain| - 1])
    ensures IsChain(d, chain + [next])
  {
    var longer := chain + [next];
    forall k | 0 <= k < |longer| - 1 ensures longer[k + 1] in DependenciesOf(d, longer[k]) {
      if k < |chain| - 1 {
        assert longer[k + 1] == chain[k + 1] && longer[k] == chain[k];
      }
    }
  }

  /** The sets and the error list shared by the recursive calls. */
  class DependencyVisitor {
    const dependencies: Dependencies
    var visiting: set<Name>
    var visited: set<Name>
    var errors: seq<seq<Name>>
    /** The visited nodes in the order in which their visits ended. */
    ghost var finished: seq<Name>

    ghost predicate Valid()
      reads this
    {
      && visited == (set n | n in finished) && Distinct(finished)
      && visiting !! visited
      && (forall e | e in errors :: ReportsCycle(dependencies, e))
      && (errors == [] ==> PredecessorsFirst(Requirements(dependencies), finished))
    }

    constructor (dependencies: Dependencies)
      ensures Valid() && this.dependencies == dependencies && errors == [] && visiting == {}
    {
      this.dependencies := dependencies;
      visiting, visited, errors, finished := {}, {}, [], [];
    }

    /** All dependencies are in `universe`. */
    ghost predicate Closed(universe: set<Name>) {
      forall n, x | n in dependencies && x in dependencies[n] :: x in universe
    }

    method ReportCycle(node: Name, path: seq<Name>)
      requires Valid() && node in path && IsChain(dependencies, path + [node])
      modifies `errors
      ensures Valid() && errors == old(errors) + [path + [node]]
    {
      ghost var p := path + [node];
      assert p[..|p| - 1] == path && p[|p| - 1] == node && |p| > 1;
      errors := errors + [path + [node]];
    }

    /** A visit ends after those of all dependencies. */
    method Finish(node: Name)
      requires Valid() && node in visiting
      requires errors == [] ==> forall x | x in DependenciesOf(dependencies, node) :: x in visited
      modifies `visiting, `visited, `finished
      ensures Valid() && visiting == old(visiting) - {node} && visited == old(visited) + {node}
    {
      visiting := visiting - {node};
      visited := visited + {node};
      FinishNode(dependencies, finished, node);
      finished := finished + [node];
    }

    /** `path` is the chain of ECUs whose visits are under way. */
    method Visit(node: Name, path: seq<Name>, ghost universe: set<Name>)
      requires Valid() && visiting == (set n | n in path) && IsChain(dependencies, path + [node])
      requires node in universe && Closed(universe)
      modifies this
      ensures Valid() && visiting == old(visiting)
      ensures old(visited) <= visited && old(errors) <= errors
      ensures errors == [] ==> node in visited
      decreases universe - (visiting + visited), 0
    {
      if node in visiting {
        ReportCycle(node, path);
        return;
      }
      if node in visited {
        return;
      }
      visiting := visiting + {node};
      VisitDependencies(node, path + [node], universe);
      Finish(node);
    }

    /** The loop of a visit over the dependencies of the last ECU of `path`. */
    method VisitDependencies(node: Name, path: seq<Name>, ghost universe: set<Name>)
      requires Valid() && visiting == (set n | n in path) && path != [] && path[|path| - 1] == node
      requires IsChain(dependencies, path) && Closed(universe)
      modifies this
      ensures Valid() && visiting == old(visiting)
      ensures old(visited) <= visited && old(errors) <= errors
      ensures errors == [] ==> forall x | x in DependenciesOf(dependencies, node) :: x in visited
      decreases universe - (visiting + visited), 1
    {
      var next := DependenciesOf(dependencies, node);
      for i := 0 to |next|
        invariant Valid() && visiting == old(visiting)
        invariant old(visited) <= visited && old(errors) <= errors
        invariant errors == [] ==> forall j | 0 <= j < i :: next[j] in visited
      {
        ChainGrows(dependencies, path, next[i]);
        Visit(next[i], path, universe);
      }
    }
  }

  lemma FinishNode(d: Dependencies, finished: seq<Name>, node: Name)
    ensures PredecessorsFirst(Requirements(d), finished) && (forall x | x in DependenciesOf(d, node) :: x in finished)
      ==> PredecessorsFirst(Requirements(d), finished + [node])
  {
    var e, next := Requirements(d), finished + [node];
    if PredecessorsFirst(e, finished) && (forall x | x in DependenciesOf(d, node) :: x in finished) {
      forall a, i | 0 <= i < |next| && (a, next[i]) in e ensures a in next[..i] {
        if i < |finished| {
          assert next[..i] == finished[..i];
        } else {
          assert next[..i] == finished;
        }
      }
    }
  }

  /**
   No error is reported exactly when the dependencies have no cycle, and every reported error is the chain of
   an actual cycle. `names` are the keys of the dictionary in its iteration order.
   */
  method DependencyCycleErrors(dependencies: Dependencies, names: seq<Name>) returns (errors: seq<seq<Name>>)
    requires forall n :: n in names <==> n in dependencies
    ensures errors == [] <==> !Cyclic(Requirements(dependencies))
    ensures forall e | e in errors :: ReportsCycle(dependencies, e)
  {
    var v := new DependencyVisitor(dependencies);
    ghost var universe := dependencies.Keys + set n, x | n in dependencies && x in dependencies[n] :: x;
    for i := 0 to |names|
      invariant v.Valid() && v.visiting == {}
      invariant v.errors == [] ==> forall j | 0 <= j < i :: names[j] in v.visited
    {
      v.Visit(names[i], [], universe);
    }
    if v.errors == [] {
      OrderedMeansAcyclic(Requirements(dependencies), v.finished);
    } else {
      ReportedCycleExists(dependencies, v.errors[0]);
    }
    return v.errors;
  }
}
