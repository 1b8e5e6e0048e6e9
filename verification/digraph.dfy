/** The dependency multigraph of a DAG run, and the facts about walks that the
    graph builder and the scheduler rely on.

    `from[u]` lists the dependents of `u` and `to[v]` the dependencies of `v`; a
    dependency that is written twice appears twice in both lists.  A vertex
    missing from a map has no edges there. */
module Digraph {
  import opened Collections

  datatype Graph = Graph(ids: seq<int>, from: map<int, seq<int>>, to: map<int, seq<int>>)

  function Lookup(m: map<int, seq<int>>, u: int): seq<int> {
    if u in m then m[u] else []
  }

  function Succs(g: Graph, u: int): seq<int> {
    Lookup(g.from, u)
  }

  function Preds(g: Graph, v: int): seq<int> {
    Lookup(g.to, v)
  }

  ghost predicate Edge(g: Graph, u: int, v: int) {
    u in Preds(g, v)
  }

  function IdSet(g: Graph): set<int> {
    set x | x in g.ids
  }

  ghost predicate Distinct(s: seq<int>) {
    forall i, j :: 0 <= i < j < |s| ==> s[i] != s[j]
  }

  function Copies(s: seq<int>, x: int): nat {
    multiset(s)[x]
  }

  /** The edge from `u` to `v` is listed equally often on both sides. */
  ghost predicate Balanced(g: Graph, u: int, v: int) {
    Copies(Succs(g, u), v) == Copies(Preds(g, v), u)
  }

  /** Both adjacency maps describe the same multiset of edges, between known vertices. */
  ghost predicate WellFormed(g: Graph) {
    && Distinct(g.ids)
    && (forall u, v :: Balanced(g, u, v))
    && (forall u, v :: Edge(g, u, v) ==> u in g.ids && v in g.ids)
  }

  /** A nonempty sequence of known vertices, each one a dependency of the next. */
  ghost predicate Walk(g: Graph, p: seq<int>) {
    && |p| > 0
    && p[0] in g.ids
    && forall i :: 0 < i < |p| ==> StepAt(g, p, i)
  }

  ghost predicate StepAt(g: Graph, p: seq<int>, i: nat)
    requires 0 < i < |p|
  {
    Edge(g, p[i - 1], p[i])
  }

  ghost predicate WalkFromTo(g: Graph, p: seq<int>, u: int, v: int) {
    Walk(g, p) && p[0] == u && p[|p| - 1] == v
  }

  /** A walk of at least one edge that returns to where it began; a self-loop is one. */
  ghost predicate ClosedWalk(g: Graph, p: seq<int>) {
    |p| >= 2 && Walk(g, p) && p[0] == p[|p| - 1]
  }

  ghost predicate Acyclic(g: Graph) {
    !exists p :: ClosedWalk(g, p)
  }

  lemma EdgeIsSucc(g: Graph, u: int, v: int)
    requires WellFormed(g)
    ensures Edge(g, u, v) <==> v in Succs(g, u)
  {
    assert Balanced(g, u, v);
    assert v in multiset(Succs(g, u)) <==> v in Succs(g, u);
    assert u in multiset(Preds(g, v)) <==> u in Preds(g, v);
  }

  lemma WalkStaysInside(g: Graph, p: seq<int>, i: nat)
    requires WellFormed(g) && Walk(g, p) && i < |p|
    ensures p[i] in g.ids
  {
    if i > 0 {
      assert StepAt(g, p, i);
    }
  }

  lemma ExtendWalk(g: Graph, p: seq<int>, v: int)
    requires Walk(g, p) && Edge(g, p[|p| - 1], v)
    ensures WalkFromTo(g, p + [v], p[0], v)
  {
    var q := p + [v];
    forall i | 0 < i < |q| ensures StepAt(g, q, i) {
      if i < |p| {
        assert StepAt(g, p, i);
      }
    }
  }

  // ---------------------------------------------------------------- pigeonhole

  /** A sequence longer than the finite set it draws from repeats an element. */
  lemma {:induction false} Pigeonhole(s: seq<int>, dom: set<int>) returns (i: nat, j: nat)
    requires forall x :: x in s ==> x in dom
    requires |s| > |dom|
    ensures i < j < |s| && s[i] == s[j]
    decreases |s|
  {
    var last := s[|s| - 1];
    var front := s[..|s| - 1];
    if k :| 0 <= k < |front| && front[k] == last {
      i, j := k, |front|;
    } else {
      assert forall x :: x in front ==> x in dom - {last} by {
        forall x | x in front ensures x in dom - {last} {
          var k :| 0 <= k < |front| && front[k] == x;
          assert x == s[k];
        }
      }
      assert last in s;
      assert |dom - {last}| == |dom| - 1;
      i, j := Pigeonhole(front, dom - {last});
    }
  }

  /** In an acyclic graph a walk visits no vertex twice. */
  lemma AcyclicWalkIsShort(g: Graph, p: seq<int>)
    requires WellFormed(g) && Acyclic(g) && Walk(g, p)
    ensures |p| <= |IdSet(g)|
  {
    if |p| > |IdSet(g)| {
      forall x | x in p ensures x in IdSet(g) {
        var k :| 0 <= k < |p| && p[k] == x;
        WalkStaysInside(g, p, k);
      }
      var i, j := Pigeonhole(p, IdSet(g));
      WalkStaysInside(g, p, i);
      SubWalkCloses(g, p, i, j);
    }
  }

  lemma SubWalkCloses(g: Graph, p: seq<int>, i: nat, j: nat)
    requires forall k :: 0 < k < |p| ==> StepAt(g, p, k)
    requires i < j < |p| && p[i] == p[j] && p[i] in g.ids
    ensures ClosedWalk(g, p[i..j + 1])
  {
    var q := p[i..j + 1];
    forall k | 0 < k < |q| ensures StepAt(g, q, k) {
      assert StepAt(g, p, i + k);
    }
  }

  ghost predicate FedFrom(g: Graph, u: set<int>, v: int) {
    exists d :: d in u && Edge(g, d, v)
  }

  /** Following dependencies backwards inside `u`, for `n` steps. */
  lemma {:induction false} BackwardWalk(g: Graph, u: set<int>, n: nat) returns (p: seq<int>)
    requires u != {} && u <= IdSet(g)
    requires forall v {:trigger FedFrom(g, u, v)} :: v in u ==> FedFrom(g, u, v)
    ensures |p| == n + 1 && Walk(g, p) && forall x :: x in p ==> x in u
    decreases n
  {
    if n == 0 {
      var v := AnyMember(u);
      assert v in IdSet(g);
      p := [v];
    } else {
      var q := BackwardWalk(g, u, n - 1);
      assert FedFrom(g, u, q[0]);
      var d :| d in u && Edge(g, d, q[0]);
      p := [d] + q;
      forall i | 0 < i < |p| ensures StepAt(g, p, i) {
        if i > 1 {
          assert StepAt(g, q, i - 1);
        }
      }
    }
  }

  /** A nonempty set of vertices in which everyone depends on a member has a closed walk. */
  lemma SelfFeedingSetHasCycle(g: Graph, u: set<int>) returns (p: seq<int>)
    requires u != {} && u <= IdSet(g)
    requires forall v {:trigger FedFrom(g, u, v)} :: v in u ==> FedFrom(g, u, v)
    ensures ClosedWalk(g, p)
  {
    var q := BackwardWalk(g, u, |u|);
    var i, j := Pigeonhole(q, u);
    assert q[i] in q;
    SubWalkCloses(g, q, i, j);
    p := q[i..j + 1];
  }

  /** In an acyclic graph every nonempty set of vertices has a member that depends on
      no member: this is what lets a run make progress. */
  lemma AcyclicSetHasSource(g: Graph, u: set<int>) returns (v: int)
    requires Acyclic(g) && u != {} && u <= IdSet(g)
    ensures v in u && forall d :: d in u ==> !Edge(g, d, v)
  {
    if forall x {:trigger FedFrom(g, u, x)} :: x in u ==> FedFrom(g, u, x) {
      var p := SelfFeedingSetHasCycle(g, u);
      assert false;
    }
    v :| v in u && !FedFrom(g, u, v);
  }

  /** A set that holds every vertex without dependencies and is closed under
      dependents holds every vertex, provided there is no cycle. */
  lemma RootsReachEverything(g: Graph, seen: set<int>)
    requires Acyclic(g)
    requires forall v :: v in g.ids && Preds(g, v) == [] ==> v in seen
    requires forall u, v :: u in seen && v in g.ids && Edge(g, u, v) ==> v in seen
    requires forall u, v :: Edge(g, u, v) ==> u in g.ids
    ensures IdSet(g) <= seen
  {
    var missing := IdSet(g) - seen;
    if missing != {} {
      var v := AcyclicSetHasSource(g, missing);
      assert v in g.ids;
      var d := Preds(g, v)[0];
      assert Edge(g, d, v);
    }
    forall x | x in IdSet(g) ensures x in seen {
      assert x !in missing;
    }
  }

  // ------------------------------------------------- an ordering excludes cycles

  /** Each listed vertex comes after all its dependencies. */
  ghost predicate DependenciesFirst(g: Graph, order: seq<int>) {
    forall i, d :: 0 <= i < |order| && Edge(g, d, order[i]) ==> d in order[..i]
  }

  lemma {:induction false} WalkDescends(g: Graph, order: seq<int>, p: seq<int>, a: nat) returns (b: nat)
    requires DependenciesFirst(g, order)
    requires Walk(g, p) && |p| >= 2
    requires a < |order| && order[a] == p[|p| - 1]
    ensures b < a && order[b] == p[0]
    decreases |p|
  {
    var n := |p|;
    assert StepAt(g, p, n - 1);
    var c :| 0 <= c < a && order[..a][c] == p[n - 2];
    if n == 2 {
      b := c;
    } else {
      var q := p[..n - 1];
      assert forall i :: 0 < i < |q| ==> StepAt(g, q, i) by {
        forall i | 0 < i < |q| ensures StepAt(g, q, i) {
          assert StepAt(g, p, i);
        }
      }
      b := WalkDescends(g, order, q, c);
    }
  }

  lemma OrderedMeansAcyclic(g: Graph, order: seq<int>)
    requires WellFormed(g) && Distinct(order) && DependenciesFirst(g, order)
    requires forall x :: x in g.ids ==> x in order
    ensures Acyclic(g)
  {
    forall p | ClosedWalk(g, p) ensures false {
      WalkStaysInside(g, p, |p| - 1);
      var a :| 0 <= a < |order| && order[a] == p[|p| - 1];
      var b := WalkDescends(g, order, p, a);
    }
  }
}
