/** The update dependency graph (tcu/models/dependency_graph.py) and what it means for it to have a cycle. */
module DependencyGraphs {

  type Name = string

  /** A finite relation: (a, b) means a must come before b. */
  type Relation = set<(Name, Name)>

  predicate IsPath(e: Relation, p: seq<Name>) {
    p != [] && forall i | 0 <= i < |p| - 1 :: (p[i], p[i + 1]) in e
  }

  predicate IsCycle(e: Relation, p: seq<Name>) {
    IsPath(e, p) && |p| > 1 && p[0] == p[|p| - 1]
  }

  ghost predicate Cyclic(e: Relation) {
    exists p :: IsCycle(e, p)
  }

  predicate Distinct(s: seq<Name>) {
    forall i, j | 0 <= i < j < |s| :: s[i] != s[j]
  }

  /** Every predecessor of an element of `order` stands before it. */
  ghost predicate PredecessorsFirst(e: Relation, order: seq<Name>) {
    forall a, i | 0 <= i < |order| && (a, order[i]) in e :: a in order[..i]
  }

  // ----- cycles

  lemma {:induction false} DistinctFits(s: seq<Name>, nodes: set<Name>)
    requires Distinct(s) && forall x | x in s :: x in nodes
    ensures |s| <= |nodes|
    ensures |s| == |nodes| ==> forall x | x in nodes :: x in s
  {
    if s != [] {
      var last := s[|s| - 1];
      var front := s[..|s| - 1];
      assert last in nodes && last !in front;
      DistinctFits(front, nodes - {last});
      assert forall x | x in nodes :: x == last || x in nodes - {last};
      assert forall x | x in front :: x in s;
    }
  }

  ghost predicate HasPredecessor(e: Relation, nodes: set<Name>, b: Name) {
    exists a :: a in nodes && (a, b) in e
  }

  ghost predicate AllHavePredecessors(e: Relation, nodes: set<Name>) {
    forall b {:trigger HasPredecessor(e, nodes, b)} | b in nodes :: HasPredecessor(e, nodes, b)
  }

  /** Walking back through predecessors inside `nodes` for as long as one likes. */
  lemma {:induction false} WalkBack(e: Relation, nodes: set<Name>, n: Name, length: nat) returns (p: seq<Name>)
    requires n in nodes && AllHavePredecessors(e, nodes)
    ensures IsPath(e, p) && |p| == length + 1 && forall x | x in p :: x in nodes
    decreases length
  {
    if length == 0 {
      return [n];
    }
    var q := WalkBack(e, nodes, n, length - 1);
    assert q[0] in q && HasPredecessor(e, nodes, q[0]);
    var b :| b in nodes && (b, q[0]) in e;
    p := [b] + q;
    forall i | 0 <= i < |p| - 1 ensures (p[i], p[i + 1]) in e {
      if i > 0 { assert (q[i - 1], q[i]) in e; }
    }
  }

  /** A non-empty set in which every node has a predecessor holds a cycle. */
  lemma NoFirstMeansCycle(e: Relation, nodes: set<Name>)
    requires nodes != {} && AllHavePredecessors(e, nodes)
    ensures Cyclic(e)
  {
    var n :| n in nodes;
    var p := WalkBack(e, nodes, n, |nodes|);
    if Distinct(p) {
      DistinctFits(p, nodes);
      assert false;
    }
    var i, j :| 0 <= i < j < |p| && p[i] == p[j];
    var c := p[i..j + 1];
    forall k | 0 <= k < |c| - 1 ensures (c[k], c[k + 1]) in e {
      assert (p[i + k], p[i + k + 1]) in e;
    }
    assert IsCycle(e, c);
  }

  /** The position of a listed name. */
  lemma {:induction false} PathClimbs(e: Relation, order: seq<Name>, p: seq<Name>, i: nat) returns (first: nat)
    requires PredecessorsFirst(e, order) && IsPath(e, p)
    requires i < |order| && order[i] == p[|p| - 1]
    ensures first <= i && order[first] == p[0] && (|p| > 1 ==> first < i)
    decreases |p|
  {
    if |p| == 1 {
      return i;
    }
    var front := p[..|p| - 1];
    assert (p[|p| - 2], p[|p| - 1]) in e;
    assert p[|p| - 2] in order[..i];
    var k :| 0 <= k < i && order[k] == p[|p| - 2];
    assert IsPath(e, front) by {
      forall j | 0 <= j < |front| - 1 ensures (front[j], front[j + 1]) in e { assert (p[j], p[j + 1]) in e; }
    }
    first := PathClimbs(e, order, front, k);
  }

  /** A relation whose targets can all be listed with predecessors first has no cycle. */
  lemma OrderedMeansAcyclic(e: Relation, order: seq<Name>)
    requires Distinct(order) && PredecessorsFirst(e, order)
    requires forall a, b | (a, b) in e :: b in order
    ensures !Cyclic(e)
  {
    forall p | IsCycle(e, p) ensures false {
      assert (p[|p| - 2], p[|p| - 1]) in e;
      var i :| 0 <= i < |order| && order[i] == p[|p| - 1];
      var first := PathClimbs(e, order, p, i);
    }
  }

  function Reverse(e: Relation): Relation {
    set x | x in e :: (x.1, x.0)
  }

  lemma ReverseCycle(e: Relation)
    ensures Cyclic(e) ==> Cyclic(Reverse(e))
  {
    if Cyclic(e) {
      var p :| IsCycle(e, p);
      var q := seq(|p|, i requires 0 <= i < |p| => p[|p| - 1 - i]);
      forall i | 0 <= i < |q| - 1 ensures (q[i], q[i + 1]) in Reverse(e) {
        var j := |p| - 2 - i;
        assert (p[j], p[j + 1]) in e;
        assert q[i] == p[j + 1] && q[i + 1] == p[j];
      }
      assert IsCycle(Reverse(e), q);
    }
  }

  /** Reading a dependency from either end makes no difference to cycles. */
  lemma ReverseCyclic(e: Relation)
    ensures Cyclic(Reverse(e)) <==> Cyclic(e)
  {
    ReverseCycle(e);
    ReverseCycle(Reverse(e));
    assert Reverse(Reverse(e)) == e by {
      forall x | x in e ensures x in Reverse(Reverse(e)) { assert (x.1, x.0) in Reverse(e); }
    }
  }

  // ----- the graph

  /** Nodes, and the children each parent was given, in order and with repetitions. */
  datatype Graph = Graph(nodes: set<Name>, parents: seq<Name>, children: map<Name, seq<Name>>) {
    ghost predicate Valid() {
      && Distinct(parents)
      && (forall p :: p in parents <==> p in children)
      && (forall p | p in children :: p in nodes)
      && (forall p, c | p in children && c in children[p] :: c in nodes)
    }

    function ChildrenOf(n: Name): seq<Name> {
      if n in children then children[n] else []
    }

    /** One more edge, even if there is one already. */
    function With(parent: Name, child: Name): Graph {
      Graph(nodes + {parent, child}, parents + (if parent in children then [] else [parent]),
            children[parent := ChildrenOf(parent) + [child]])
    }

    function Edges(): Relation {
      set p, c | p in children && c in children[p] :: (p, c)
    }
  }

  /** A valid graph stays valid with one more edge, and has exactly that edge more. */
  lemma EdgeAdded(g: Graph, parent: Name, child: Name)
    requires g.Valid()
    ensures var h := g.With(parent, child); h.Valid() && h.Edges() == g.Edges() + {(parent, child)}
  {
    var h := g.With(parent, child);
    assert forall p, c | (p, c) in g.Edges() :: (p, c) in h.Edges();
    assert (parent, child) in h.Edges();
  }

  class DependencyGraph {
    var nodes: set<Name>
    var parents: seq<Name>
    var children: map<Name, seq<Name>>

    ghost function State(): Graph
      reads this
    {
      Graph(nodes, parents, children)
    }

    constructor ()
      ensures State() == Graph({}, [], map[])
    {
      nodes, parents, children := {}, [], map[];
    }

    method AddNode(name: Name)
      requires State().Valid()
      modifies this
      ensures State() == old(State()).(nodes := old(nodes) + {name}) && State().Valid()
    {
      nodes := nodes + {name};
    }

    method AddDependency(parent: Name, child: Name)
      requires State().Valid()
      modifies this
      ensures State() == old(State()).With(parent, child) && State().Valid()
      ensures State().Edges() == old(State()).Edges() + {(parent, child)}
    {
      EdgeAdded(State(), parent, child);
      nodes := nodes + {parent, child};
      if parent !in children {
        parents := parents + [parent];
        children := children[parent := []];
      }
      children := children[parent := children[parent] + [child]];
    }
  }
}
