/** Kahn's algorithm with priorities (tcu/dependency_manager.py, `TopologicalUpdatePlanner`). */
module TopologicalPlanner {
  import opened Base
  import opened DependencyGraphs

  const DEFAULT_PRIORITY := 9999

  type Priorities = map<Name, int>

  datatype PlanError = CycleDetected

  // ----- the order of `_sort_nodes`: by priority, then by name

  predicate LexLeq(a: Name, b: Name) {
    a == "" || (b != "" && (a[0] < b[0] || (a[0] == b[0] && LexLeq(a[1..], b[1..]))))
  }

  function PriorityOf(priority: Priorities, n: Name): int {
    if n in priority then priority[n] else DEFAULT_PRIORITY
  }

  predicate KeyLeq(priority: Priorities, a: Name, b: Name) {
    var x, y := PriorityOf(priority, a), PriorityOf(priority, b);
    x < y || (x == y && LexLeq(a, b))
  }

  /** Nodes without a priority come after all that have one below 9999. */
  lemma UnlistedComeLast(priority: Priorities, a: Name, b: Name)
    requires a in priority && b !in priority
    ensures priority[a] < 9999 ==> KeyLeq(priority, a, b) && !KeyLeq(priority, b, a)
    ensures priority[a] > 9999 ==> KeyLeq(priority, b, a) && !KeyLeq(priority, a, b)
  {
  }

  lemma {:induction false} LexTotal(a: Name, b: Name)
    ensures LexLeq(a, b) || LexLeq(b, a)
  {
    if a != "" && b != "" && a[0] == b[0] { LexTotal(a[1..], b[1..]); }
  }

  lemma {:induction false} LexAntisymmetric(a: Name, b: Name)
    requires LexLeq(a, b) && LexLeq(b, a)
    ensures a == b
  {
    if a != "" { LexAntisymmetric(a[1..], b[1..]); }
  }

  /** The first difference, at `k`, decides. */
  predicate SmallerAt(a: Name, b: Name, k: nat) {
    k < |a| && k < |b| && a[..k] == b[..k] && a[k] < b[k]
  }

  lemma SmallerTail(a: Name, b: Name, k: nat)
    requires a != "" && b != "" && a[0] == b[0] && SmallerAt(a[1..], b[1..], k)
    ensures SmallerAt(a, b, k + 1)
  {
    assert a[..k + 1] == [a[0]] + a[1..][..k] && b[..k + 1] == [b[0]] + b[1..][..k];
  }

  lemma {:induction false} LexFindsDifference(a: Name, b: Name) returns (k: nat)
    requires LexLeq(a, b) && !(a <= b)
    ensures SmallerAt(a, b, k)
  {
    k := 0;
    if a[0] == b[0] {
      assert a == [a[0]] + a[1..] && b == [b[0]] + b[1..];
      k := LexFindsDifference(a[1..], b[1..]);
      SmallerTail(a, b, k);
      k := k + 1;
    }
  }

  lemma {:induction false} DifferenceDecides(a: Name, b: Name, k: nat)
    requires a <= b || SmallerAt(a, b, k)
    ensures LexLeq(a, b)
    decreases |a|
  {
    if a != "" && (a <= b || k > 0) {
      var a', b' := a[1..], b[1..];
      if a <= b {
        DifferenceDecides(a', b', 0);
      } else {
        assert a[..k][0] == b[..k][0];
        assert a'[..k - 1] == a[..k][1..] && b'[..k - 1] == b[..k][1..];
        DifferenceDecides(a', b', k - 1);
      }
    }
  }

  /** Lexicographic: a prefix comes first, and otherwise the first difference decides. */
  lemma LexIsLexicographic(a: Name, b: Name)
    ensures LexLeq(a, b) <==> a <= b || exists k :: SmallerAt(a, b, k)
  {
    if LexLeq(a, b) && !(a <= b) {
      var k := LexFindsDifference(a, b);
    }
    if a <= b {
      DifferenceDecides(a, b, 0);
    }
    if k :| SmallerAt(a, b, k) {
      DifferenceDecides(a, b, k);
    }
  }

  lemma {:induction false} LexTransitive(a: Name, b: Name, c: Name)
    requires LexLeq(a, b) && LexLeq(b, c)
    ensures LexLeq(a, c)
  {
    if a != "" && a[0] == b[0] == c[0] { LexTransitive(a[1..], b[1..], c[1..]); }
  }

  predicate Sorted(priority: Priorities, s: seq<Name>) {
    forall i, j | 0 <= i < j < |s| :: KeyLeq(priority, s[i], s[j])
  }

  function Insert(priority: Priorities, x: Name, s: seq<Name>): seq<Name> {
    if s == [] then [x]
    else if KeyLeq(priority, x, s[0]) then [x] + s
    else [s[0]] + Insert(priority, x, s[1..])
  }

  function SortNodes(priority: Priorities, s: seq<Name>): seq<Name> {
    if s == [] then [] else Insert(priority, s[0], SortNodes(priority, s[1..]))
  }

  lemma {:induction false} InsertAdds(priority: Priorities, x: Name, s: seq<Name>)
    ensures multiset(Insert(priority, x, s)) == multiset(s) + multiset{x}
  {
    if s != [] && !KeyLeq(priority, x, s[0]) {
      InsertAdds(priority, x, s[1..]);
      assert s == [s[0]] + s[1..];
    }
  }

  lemma LeqAll(priority: Priorities, x: Name, s: seq<Name>)
    requires Sorted(priority, s) && s != [] && KeyLeq(priority, x, s[0])
    ensures Sorted(priority, [x] + s)
  {
    forall j | 0 <= j < |s| ensures KeyLeq(priority, x, s[j]) {
      if j > 0 && PriorityOf(priority, x) == PriorityOf(priority, s[j]) { LexTransitive(x, s[0], s[j]); }
    }
  }

  lemma {:induction false} InsertSorts(priority: Priorities, x: Name, s: seq<Name>)
    requires Sorted(priority, s)
    ensures Sorted(priority, Insert(priority, x, s))
    ensures multiset(Insert(priority, x, s)) == multiset(s) + multiset{x}
  {
    InsertAdds(priority, x, s);
    if s == [] {
    } else if KeyLeq(priority, x, s[0]) {
      LeqAll(priority, x, s);
    } else {
      var tail := Insert(priority, x, s[1..]);
      InsertSorts(priority, x, s[1..]);
      LexTotal(x, s[0]);
      forall j | 0 <= j < |tail| ensures KeyLeq(priority, s[0], tail[j]) {
        assert tail[j] in multiset(s[1..]) + multiset{x};
        assert tail[j] == x || tail[j] in s[1..];
      }
    }
  }

  /** `sorted(nodes, key=...)` of a list. */
  lemma {:induction false} SortNodesSorts(priority: Priorities, s: seq<Name>)
    ensures Sorted(priority, SortNodes(priority, s))
    ensures multiset(SortNodes(priority, s)) == multiset(s)
  {
    if s != [] {
      SortNodesSorts(priority, s[1..]);
      InsertSorts(priority, s[0], SortNodes(priority, s[1..]));
      assert s == [s[0]] + s[1..];
    }
  }

  /** `sorted(nodes, key=...)` of a set, whatever order the set is iterated in. */
  method SortedNodes(priority: Priorities, nodes: set<Name>) returns (s: seq<Name>)
    ensures Sorted(priority, s) && Distinct(s)
    ensures forall n :: n in s <==> n in nodes
  {
    s := [];
    var rest := nodes;
    while rest != {}
      invariant rest <= nodes && Sorted(priority, s)
      invariant forall n :: multiset(s)[n] == if n in nodes && n !in rest then 1 else 0
      decreases rest
    {
      var n :| n in rest;
      InsertSorts(priority, n, s);
      s := Insert(priority, n, s);
      rest := rest - {n};
    }
    OnceMeansDistinct(s);
    assert forall n :: n in s <==> multiset(s)[n] > 0;
  }

  lemma OnceMeansDistinct(s: seq<Name>)
    requires forall n :: multiset(s)[n] <= 1
    ensures Distinct(s)
  {
    forall i, j | 0 <= i < j < |s| ensures s[i] != s[j] {
      assert s == s[..i] + [s[i]] + s[i + 1..j] + [s[j]] + s[j + 1..];
      assert multiset(s)[s[i]] >= (multiset{s[i]} + multiset{s[j]})[s[i]];
    }
  }

  // ----- indegrees

  function Count(s: seq<Name>, n: Name): nat {
    multiset(s)[n]
  }

  /** Edges into `c`, with repetitions, from the first `k` parents that are not in `done`. */
  ghost function Pending(g: Graph, done: set<Name>, c: Name, k: nat): nat
    requires k <= |g.parents|
  {
    if k == 0 then 0
    else Pending(g, done, c, k - 1) + if g.parents[k - 1] in done then 0 else Count(g.ChildrenOf(g.parents[k - 1]), c)
  }

  ghost function Indegree(g: Graph, done: set<Name>, c: Name): nat {
    Pending(g, done, c, |g.parents|)
  }

  lemma {:induction false} PendingZero(g: Graph, done: set<Name>, c: Name, k: nat)
    requires k <= |g.parents|
    ensures Pending(g, done, c, k) == 0 <==>
      forall i | 0 <= i < k && c in g.ChildrenOf(g.parents[i]) :: g.parents[i] in done
  {
    if k > 0 {
      PendingZero(g, done, c, k - 1);
      assert c in g.ChildrenOf(g.parents[k - 1]) <==> Count(g.ChildrenOf(g.parents[k - 1]), c) > 0;
    }
  }

  /** No edge is pending exactly when every predecessor is done. */
  lemma IndegreeZero(g: Graph, done: set<Name>, c: Name)
    requires g.Valid()
    ensures Indegree(g, done, c) == 0 <==> forall a | (a, c) in g.Edges() :: a in done
  {
    PendingZero(g, done, c, |g.parents|);
    if Indegree(g, done, c) == 0 {
      forall a | (a, c) in g.Edges() ensures a in done {
        assert a in g.parents;
        var i :| 0 <= i < |g.parents| && g.parents[i] == a;
        assert c in g.ChildrenOf(g.parents[i]);
      }
    } else {
      var i :| 0 <= i < |g.parents| && c in g.ChildrenOf(g.parents[i]) && g.parents[i] !in done;
      assert g.parents[i] in g.children;
      assert (g.parents[i], c) in g.Edges();
    }
  }

  lemma {:induction false} PendingDone(g: Graph, done: set<Name>, n: Name, c: Name, k: nat)
    requires g.Valid() && n !in done && k <= |g.parents|
    ensures Pending(g, done, c, k)
         == Pending(g, done + {n}, c, k) + if n in g.parents[..k] then Count(g.ChildrenOf(n), c) else 0
  {
    if k > 0 {
      PendingDone(g, done, n, c, k - 1);
      OneMoreParent(g.parents, n, k);
    }
  }

  lemma OneMoreParent(parents: seq<Name>, n: Name, k: nat)
    requires 0 < k <= |parents| && Distinct(parents)
    ensures n in parents[..k] <==> n in parents[..k - 1] || parents[k - 1] == n
    ensures parents[k - 1] !in parents[..k - 1]
  {
    assert parents[..k] == parents[..k - 1] + [parents[k - 1]];
  }

  /** Finishing a node takes its edges, with repetitions, off its children's indegrees. */
  lemma IndegreeDone(g: Graph, done: set<Name>, n: Name, c: Name)
    requires g.Valid() && n !in done
    ensures Indegree(g, done, c) == Indegree(g, done + {n}, c) + Count(g.ChildrenOf(n), c)
  {
    PendingDone(g, done, n, c, |g.parents|);
    assert g.parents[..|g.parents|] == g.parents;
  }

  function Elements(s: seq<Name>): set<Name> {
    set x | x in s
  }

  /** What the main loop keeps: `queue` holds exactly the nodes not yet planned whose predecessors all are. */
  ghost predicate Planning(g: Graph, indegree: map<Name, int>, order: seq<Name>, queue: seq<Name>) {
    && indegree.Keys == g.nodes
    && Distinct(order + queue) && (forall n | n in order + queue :: n in g.nodes)
    && PredecessorsFirst(g.Edges(), order)
    && (forall n | n in g.nodes :: indegree[n] == Indegree(g, Elements(order), n))
    && (forall n | n in g.nodes :: n in order + queue <==> indegree[n] == 0)
  }

  /** The nodes without predecessors come first, by priority and then by name. */
  ghost predicate RootsFirst(g: Graph, priority: Priorities, order: seq<Name>) {
    exists k :: 0 <= k <= |order| && Sorted(priority, order[..k])
      && forall n :: n in order[..k] <==> n in g.nodes && Indegree(g, {}, n) == 0
  }

  // ----- the order of the queue

  /** Where the last of its predecessors stands in `order`: that is when a node joins the queue. Roots have -1. */
  function ReleasedAt(e: Relation, order: seq<Name>, n: Name): (r: int)
    ensures -1 <= r < |order|
  {
    if order == [] then -1
    else if (order[|order| - 1], n) in e then |order| - 1
    else ReleasedAt(e, order[..|order| - 1], n)
  }

  /** Nodes stand in the order of their release, and those released together by priority and then by name. */
  predicate Ranked(e: Relation, priority: Priorities, order: seq<Name>, s: seq<Name>) {
    forall i, j | 0 <= i < j < |s| :: RankLeq(e, priority, order, s[i], s[j])
  }

  predicate RankLeq(e: Relation, priority: Priorities, order: seq<Name>, a: Name, b: Name) {
    var x, y := ReleasedAt(e, order, a), ReleasedAt(e, order, b);
    x < y || (x == y && KeyLeq(priority, a, b))
  }

  lemma {:induction false} ReleasedBefore(e: Relation, order: seq<Name>, k: nat, n: Name)
    requires k <= |order| && forall i | k <= i < |order| :: (order[i], n) !in e
    ensures ReleasedAt(e, order, n) == ReleasedAt(e, order[..k], n)
    decreases |order|
  {
    if k == |order| {
      assert order[..k] == order;
    } else {
      var front := order[..|order| - 1];
      ReleasedBefore(e, front, k, n);
      assert front[..k] == order[..k];
    }
  }

  lemma RankedRoots(e: Relation, priority: Priorities, queue: seq<Name>)
    requires Sorted(priority, queue)
    ensures Ranked(e, priority, [], queue)
  {
  }

  /** The head of the queue is planned, and the nodes it releases join the queue. */
  lemma RankedNext(e: Relation, priority: Priorities, order: seq<Name>, queue: seq<Name>, released: seq<Name>)
    requires queue != [] && Ranked(e, priority, order, order + queue) && Sorted(priority, released)
    requires forall n | n in order + queue :: (queue[0], n) !in e
    requires forall n | n in released :: (queue[0], n) in e
    ensures Ranked(e, priority, order + [queue[0]], order + queue + released)
  {
    var next, s := order + [queue[0]], order + queue + released;
    assert next[..|order|] == order;
    forall n | n in order + queue ensures ReleasedAt(e, next, n) == ReleasedAt(e, order, n) {
      ReleasedBefore(e, next, |order|, n);
    }
    forall i, j | 0 <= i < j < |s| ensures RankLeq(e, priority, next, s[i], s[j]) {
      var m := |order + queue|;
      if j < m {
        assert s[i] == (order + queue)[i] && s[j] == (order + queue)[j];
      } else {
        assert s[j] == released[j - m];
        if i < m { assert s[i] == (order + queue)[i]; } else { assert s[i] == released[i - m]; }
      }
    }
  }

  /** With its predecessors among the first `k`, a node's release is the same in any two orders that share those. */
  lemma SameRelease(e: Relation, order: seq<Name>, other: seq<Name>, k: nat, i: nat)
    requires Distinct(order) && Distinct(other) && Elements(order) == Elements(other)
    requires PredecessorsFirst(e, other)
    requires k <= i < |other| && k <= |order| && order[..k] == other[..k]
    requires forall a | (a, other[i]) in e :: a in other[..k]
    ensures ReleasedAt(e, order, other[i]) == ReleasedAt(e, other, other[i]) == ReleasedAt(e, order[..k], other[i])
  {
    forall m | k <= m < |order| ensures (order[m], other[i]) !in e {
      assert order[m] !in order[..k];
    }
    forall m | k <= m < |other| ensures (other[m], other[i]) !in e {
      assert other[m] !in other[..k];
    }
    ReleasedBefore(e, order, k, other[i]);
    ReleasedBefore(e, other, k, other[i]);
  }

  /** What one order has at `k` or later, another with the same first `k` has there too. */
  lemma StandsLater(order: seq<Name>, other: seq<Name>, k: nat, j: nat) returns (i: nat)
    requires Distinct(other) && Elements(order) == Elements(other)
    requires k <= j < |other| && k <= |order| && order[..k] == other[..k]
    ensures k <= i < |order| && order[i] == other[j]
  {
    forall m | 0 <= m < k ensures order[m] == other[m] {
      assert order[..k][m] == other[..k][m];
    }
    assert other[j] in Elements(other);
    i :| 0 <= i < |order| && order[i] == other[j];
  }

  lemma NextIsSame(e: Relation, priority: Priorities, order: seq<Name>, other: seq<Name>, k: nat)
    requires Distinct(order) && Distinct(other) && Elements(order) == Elements(other)
    requires k < |order| && k < |other| && order[..k] == other[..k]
    requires PredecessorsFirst(e, order) && PredecessorsFirst(e, other)
    requires Ranked(e, priority, order, order) && Ranked(e, priority, other, other)
    ensures order[k] == other[k]
  {
    var i := StandsLater(order, other, k, k);
    var j := StandsLater(other, order, k, k);
    if i != k {
      assert i > k && j > k;
      SameRelease(e, order, other, k, k);
      SameRelease(e, other, order, k, k);
      assert RankLeq(e, priority, order, order[k], order[i]) && RankLeq(e, priority, other, other[k], other[j]);
      LexAntisymmetric(order[k], other[k]);
    }
  }

  /** There is only one such order: the plan does not depend on how sets and edges happen to be enumerated. */
  lemma {:induction false} RankedIsUnique(e: Relation, priority: Priorities, order: seq<Name>, other: seq<Name>,
                                          k: nat)
    requires Distinct(order) && Distinct(other) && Elements(order) == Elements(other) && k <= |order|
    requires PredecessorsFirst(e, order) && PredecessorsFirst(e, other)
    requires Ranked(e, priority, order, order) && Ranked(e, priority, other, other)
    ensures |order| == |other| && order[..k] == other[..k]
  {
    DistinctSize(order);
    DistinctSize(other);
    if k > 0 {
      RankedIsUnique(e, priority, order, other, k - 1);
      NextIsSame(e, priority, order, other, k - 1);
      assert order[..k] == order[..k - 1] + [order[k - 1]] && other[..k] == other[..k - 1] + [other[k - 1]];
    }
  }

  /** In the middle of visiting the children of the last node of `order`; `left` are still to be visited. */
  ghost predicate Relaxing(g: Graph, indegree: map<Name, int>, order: seq<Name>, queue: seq<Name>, left: seq<Name>) {
    && indegree.Keys == g.nodes && (forall c | c in left :: c in g.nodes)
    && Distinct(order + queue) && (forall n | n in order + queue :: n in g.nodes)
    && (forall n | n in g.nodes :: indegree[n] == Indegree(g, Elements(order), n) + Count(left, n))
    && (forall n | n in g.nodes :: n in order + queue <==> indegree[n] == 0)
  }

  lemma StartRelaxing(g: Graph, indegree: map<Name, int>, order: seq<Name>, queue: seq<Name>, left: seq<Name>)
    requires g.Valid() && queue != [] && Planning(g, indegree, order, queue)
    requires multiset(left) == multiset(g.ChildrenOf(queue[0]))
    ensures Relaxing(g, indegree, order + [queue[0]], queue[1..], left)
    ensures PredecessorsFirst(g.Edges(), order + [queue[0]])
  {
    var node, done := queue[0], Elements(order);
    var order' := order + [node];
    assert order' + queue[1..] == order + queue;
    assert (order + queue)[|order|] == node;
    assert node !in order by {
      forall i | 0 <= i < |order| ensures order[i] != node { assert (order + queue)[i] == order[i]; }
    }
    assert Elements(order') == done + {node};
    forall n | n in g.nodes ensures indegree[n] == Indegree(g, Elements(order'), n) + Count(left, n) {
      IndegreeDone(g, done, node, n);
    }
    forall c | c in left ensures c in g.nodes {
      assert c in multiset(left);
      assert c in g.ChildrenOf(node);
    }
    IndegreeZero(g, done, node);
    forall a, i | 0 <= i < |order'| && (a, order'[i]) in g.Edges() ensures a in order'[..i] {
      if i < |order| { assert order'[..i] == order[..i]; } else { assert order'[..i] == order; }
    }
  }

  lemma RelaxChild(g: Graph, indegree: map<Name, int>, order: seq<Name>, queue: seq<Name>, left: seq<Name>)
    requires left != [] && Relaxing(g, indegree, order, queue, left)
    ensures var child := left[0];
      var next := indegree[child := indegree[child] - 1];
      Relaxing(g, next, order, if next[child] == 0 then queue + [child] else queue, left[1..])
  {
    var child := left[0];
    assert left == [child] + left[1..];
    assert Count(left, child) >= 1;
    var next := indegree[child := indegree[child] - 1];
    if next[child] == 0 {
      assert order + (queue + [child]) == (order + queue) + [child];
    }
    assert forall n :: Count(left, n) == Count(left[1..], n) + if n == child then 1 else 0;
  }

  lemma {:induction false} DistinctSize(s: seq<Name>)
    requires Distinct(s)
    ensures |Elements(s)| == |s|
  {
    if s != [] {
      var front := s[..|s| - 1];
      DistinctSize(front);
      assert Elements(s) == Elements(front) + {s[|s| - 1]};
      assert s[|s| - 1] !in front;
    }
  }

  /** Nodes that all wait for one another hold a cycle. */
  lemma StuckMeansCycle(g: Graph, done: set<Name>)
    requires g.Valid() && g.nodes - done != {}
    requires forall n | n in g.nodes - done :: Indegree(g, done, n) != 0
    ensures Cyclic(g.Edges())
  {
    var rest := g.nodes - done;
    forall n | n in rest ensures HasPredecessor(g.Edges(), rest, n) {
      IndegreeZero(g, done, n);
      var a :| (a, n) in g.Edges() && a !in done;
      assert a in rest;
    }
    NoFirstMeansCycle(g.Edges(), rest);
  }

  /** When the queue runs dry, everything has been planned exactly if there is no cycle. */
  lemma DryQueue(g: Graph, indegree: map<Name, int>, order: seq<Name>)
    requires g.Valid() && Planning(g, indegree, order, [])
    ensures Distinct(order) && PredecessorsFirst(g.Edges(), order)
    ensures |order| == |g.nodes| ==> Elements(order) == g.nodes && !Cyclic(g.Edges())
    ensures |order| != |g.nodes| ==> Cyclic(g.Edges())
  {
    assert order + [] == order;
    DistinctSize(order);
    if |order| == |g.nodes| {
      DistinctFits(order, g.nodes);
      OrderedMeansAcyclic(g.Edges(), order);
    } else {
      var done := Elements(order);
      assert done <= g.nodes && done != g.nodes;
      assert g.nodes == done + (g.nodes - done);
      StuckMeansCycle(g, done);
    }
  }

  lemma CountNext(s: seq<Name>, j: nat)
    requires j < |s|
    ensures forall n :: Count(s[..j + 1], n) == Count(s[..j], n) + if n == s[j] then 1 else 0
  {
    assert s[..j + 1] == s[..j] + [s[j]];
  }

  /** The inner loop of the indegree count: one for every time a node occurs among `children`. */
  method CountChildren(before: map<Name, int>, children: seq<Name>) returns (indegree: map<Name, int>)
    requires forall c | c in children :: c in before
    ensures indegree.Keys == before.Keys
    ensures forall n | n in before :: indegree[n] == before[n] + Count(children, n)
  {
    indegree := before;
    for j := 0 to |children|
      invariant indegree.Keys == before.Keys
      invariant forall n | n in before :: indegree[n] == before[n] + Count(children[..j], n)
    {
      CountNext(children, j);
      indegree := indegree[children[j] := indegree[children[j]] + 1];
    }
    assert children[..|children|] == children;
  }

  lemma PendingNext(g: Graph, i: nat)
    requires i < |g.parents|
    ensures forall n :: Pending(g, {}, n, i + 1) == Pending(g, {}, n, i) + Count(g.ChildrenOf(g.parents[i]), n)
  {
  }

  /** The edges from the first `i` parents have been counted. */
  ghost predicate CountedTo(g: Graph, indegree: map<Name, int>, i: nat) {
    i <= |g.parents| && indegree.Keys == g.nodes && forall n | n in g.nodes :: indegree[n] == Pending(g, {}, n, i)
  }

  /** The edges from one more parent. */
  method CountOneParent(graph: DependencyGraph, before: map<Name, int>, i: nat) returns (indegree: map<Name, int>)
    requires graph.State().Valid() && i < |graph.parents| && CountedTo(graph.State(), before, i)
    ensures CountedTo(graph.State(), indegree, i + 1)
  {
    ghost var g := graph.State();
    var parent := graph.parents[i];
    assert parent in g.children;
    PendingNext(g, i);
    indegree := CountChildren(before, graph.children[parent]);
  }

  method ZeroIndegrees(graph: DependencyGraph) returns (indegree: map<Name, int>)
    ensures CountedTo(graph.State(), indegree, 0)
  {
    return map n | n in graph.nodes :: 0;
  }

  method CountIndegrees(graph: DependencyGraph) returns (indegree: map<Name, int>)
    requires graph.State().Valid()
    ensures indegree.Keys == graph.nodes
    ensures forall n | n in graph.nodes :: indegree[n] == Indegree(graph.State(), {}, n)
  {
    indegree := ZeroIndegrees(graph);
    for i := 0 to |graph.parents|
      invariant CountedTo(graph.State(), indegree, i)
    {
      indegree := CountOneParent(graph, indegree, i);
    }
  }

  /** The nodes of indegree 0, in sorted order. */
  method InitialQueue(priority: Priorities, indegree: map<Name, int>) returns (queue: seq<Name>)
    ensures Sorted(priority, queue) && Distinct(queue)
    ensures forall n :: n in queue <==> n in indegree && indegree[n] == 0
  {
    var nodes := SortedNodes(priority, indegree.Keys);
    queue := [];
    for i := 0 to |nodes|
      invariant Sorted(priority, queue) && Distinct(queue)
      invariant forall n :: n in queue <==> n in nodes[..i] && indegree[n] == 0
      invariant forall k, j | 0 <= k < |queue| && i <= j < |nodes| ::
        queue[k] != nodes[j] && KeyLeq(priority, queue[k], nodes[j])
    {
      assert nodes[..i + 1] == nodes[..i] + [nodes[i]];
      if indegree[nodes[i]] == 0 {
        queue := queue + [nodes[i]];
      }
    }
    assert nodes[..|nodes|] == nodes;
  }

  /** Some of the children, in their order. */
  predicate Joined(priority: Priorities, children: seq<Name>, released: seq<Name>) {
    Sorted(priority, released) && forall n | n in released :: n in children
  }

  lemma JoinedNext(priority: Priorities, children: seq<Name>, j: nat, released: seq<Name>)
    requires j < |children| && Sorted(priority, children) && Joined(priority, children[..j], released)
    ensures Joined(priority, children[..j + 1], released)
    ensures Joined(priority, children[..j + 1], released + [children[j]])
  {
    assert children[..j + 1] == children[..j] + [children[j]];
    forall i | 0 <= i < |released| ensures KeyLeq(priority, released[i], children[j]) {
      assert released[i] in children[..j];
    }
  }

  lemma SuffixSnoc(s: seq<Name>, from: nat, x: Name)
    requires from <= |s|
    ensures (s + [x])[from..] == s[from..] + [x]
  {
  }

  /** Takes the edges to `children` off the indegrees; a child that reaches 0 joins the queue. */
  method VisitChildren(ghost g: Graph, ghost priority: Priorities, ghost order: seq<Name>, before: map<Name, int>,
                       start: seq<Name>, children: seq<Name>)
    returns (indegree: map<Name, int>, queue: seq<Name>)
    requires Relaxing(g, before, order, start, children) && Sorted(priority, children)
    ensures Relaxing(g, indegree, order, queue, []) && start <= queue && Joined(priority, children, queue[|start|..])
  {
    indegree, queue := before, start;
    assert children[0..] == children;
    for j := 0 to |children|
      invariant Relaxing(g, indegree, order, queue, children[j..])
      invariant start <= queue && Joined(priority, children[..j], queue[|start|..])
    {
      JoinedNext(priority, children, j, queue[|start|..]);
      RelaxChild(g, indegree, order, queue, children[j..]);
      assert children[j..][1..] == children[j + 1..];
      var child := children[j];
      indegree := indegree[child := indegree[child] - 1];
      if indegree[child] == 0 {
        SuffixSnoc(queue, |start|, child);
        queue := queue + [child];
      }
    }
    assert children[|children|..] == [] && children[..|children|] == children;
  }

  lemma MoveHead(order: seq<Name>, queue: seq<Name>)
    requires queue != []
    ensures order + [queue[0]] + queue[1..] == order + queue
  {
  }

  lemma PrefixKept(order: seq<Name>, a: seq<Name>, b: seq<Name>)
    requires a <= b
    ensures order + a <= order + b
  {
  }

  lemma EndRelaxing(g: Graph, indegree: map<Name, int>, order: seq<Name>, queue: seq<Name>)
    requires Relaxing(g, indegree, order, queue, []) && PredecessorsFirst(g.Edges(), order)
    ensures Planning(g, indegree, order, queue) && |order| <= |g.nodes|
  {
    assert forall i | 0 <= i < |order| :: order[i] == (order + queue)[i];
    DistinctFits(order, g.nodes);
  }

  /** One turn of the main loop: the head of the queue is planned and its children are visited. */
  method PlanHead(graph: DependencyGraph, priority: Priorities, before: map<Name, int>, order: seq<Name>,
                  start: seq<Name>)
    returns (indegree: map<Name, int>, queue: seq<Name>)
    requires graph.State().Valid() && start != [] && Planning(graph.State(), before, order, start)
    ensures Planning(graph.State(), indegree, order + [start[0]], queue)
    requires Ranked(graph.State().Edges(), priority, order, order + start)
    ensures order + start <= order + [start[0]] + queue && |order| < |graph.nodes|
    ensures Ranked(graph.State().Edges(), priority, order + [start[0]], order + [start[0]] + queue)
  {
    ghost var g := graph.State();
    var node := start[0];
    var children := SortNodes(priority, if node in graph.children then graph.children[node] else []);
    SortNodesSorts(priority, g.ChildrenOf(node));
    StartRelaxing(g, before, order, start, children);
    indegree, queue := VisitChildren(g, priority, order + [node], before, start[1..], children);
    MoveHead(order, start);
    PrefixKept(order + [node], start[1..], queue);
    EndRelaxing(g, indegree, order + [node], queue);
    HeadRanked(g, priority, before, order, start, children, queue);
  }

  lemma HeadRanked(g: Graph, priority: Priorities, indegree: map<Name, int>, order: seq<Name>, start: seq<Name>,
                   children: seq<Name>, queue: seq<Name>)
    requires g.Valid() && start != [] && Planning(g, indegree, order, start)
    requires Ranked(g.Edges(), priority, order, order + start)
    requires multiset(children) == multiset(g.ChildrenOf(start[0]))
    requires start[1..] <= queue && Joined(priority, children, queue[|start| - 1..])
    ensures Ranked(g.Edges(), priority, order + [start[0]], order + [start[0]] + queue)
  {
    var released := queue[|start| - 1..];
    HeadReleasesNobodyBefore(g, indegree, order, start);
    forall n | n in released ensures (start[0], n) in g.Edges() {
      assert n in multiset(children);
      assert n in g.ChildrenOf(start[0]);
    }
    RankedNext(g.Edges(), priority, order, start, released);
    MoveHeadMore(order, start, queue);
  }

  lemma MoveHeadMore(order: seq<Name>, start: seq<Name>, queue: seq<Name>)
    requires start != [] && start[1..] <= queue
    ensures order + start + queue[|start| - 1..] == order + [start[0]] + queue
  {
  }

  lemma HeadReleasesNobodyBefore(g: Graph, indegree: map<Name, int>, order: seq<Name>, queue: seq<Name>)
    requires g.Valid() && queue != [] && Planning(g, indegree, order, queue)
    ensures forall n | n in order + queue :: (queue[0], n) !in g.Edges()
  {
    forall n | n in order + queue ensures (queue[0], n) !in g.Edges() {
      IndegreeZero(g, Elements(order), n);
      assert (order + queue)[|order|] == queue[0];
      forall i | 0 <= i < |order| ensures order[i] != queue[0] { assert (order + queue)[i] == order[i]; }
    }
  }

  /**
   The plan lists every node once with all its parents before it and the roots first in priority order; nodes come in
   the order of their release, and those released by the same node in priority order. It is refused exactly when the
   graph has a cycle.
   */
  method Plan(graph: DependencyGraph, priority: Priorities) returns (r: Result<seq<Name>, PlanError>)
    requires graph.State().Valid()
    ensures r.Err? <==> Cyclic(graph.State().Edges())
    ensures r.Ok? ==> Distinct(r.value) && Elements(r.value) == graph.nodes
    ensures r.Ok? ==> PredecessorsFirst(graph.State().Edges(), r.value)
    ensures r.Ok? ==> RootsFirst(graph.State(), priority, r.value)
    ensures r.Ok? ==> Ranked(graph.State().Edges(), priority, r.value, r.value)
  {
    var indegree := CountIndegrees(graph);
    var queue := InitialQueue(priority, indegree);
    ghost var roots := queue;
    var order: seq<Name> := [];
    assert [] + queue == queue && Elements([]) == {};
    RankedRoots(graph.State().Edges(), priority, queue);
    while queue != []
      invariant Planning(graph.State(), indegree, order, queue) && roots <= order + queue && |order| <= |graph.nodes|
      invariant Ranked(graph.State().Edges(), priority, order, order + queue)
      decreases |graph.nodes| - |order|
    {
      var node := queue[0];
      indegree, queue := PlanHead(graph, priority, indegree, order, queue);
      order := order + [node];
    }
    DryQueue(graph.State(), indegree, order);
    if |order| != |graph.nodes| {
      return Err(CycleDetected);
    }
    RootsStay(graph.State(), priority, roots, order);
    assert order + queue == order;
    return Ok(order);
  }

  lemma RootsStay(g: Graph, priority: Priorities, roots: seq<Name>, order: seq<Name>)
    requires roots <= order + [] && Sorted(priority, roots)
    requires forall n :: n in roots <==> n in g.nodes && Indegree(g, {}, n) == 0
    ensures RootsFirst(g, priority, order)
  {
    assert order + [] == order;
    assert order[..|roots|] == roots;
  }
}
