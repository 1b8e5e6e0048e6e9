/** The graph builder: linking steps by their declared dependencies, refusing cycles, and
    preparing a graph for a retry. */
module ExecutionGraphs {
  import opened Collections
  import opened Digraph
  import opened Nodes
  import opened Wrappers

  datatype SetupResult = Ready | CycleDetected | StepNotFound(name: string)

  function Degree(inDegrees: map<int, int>, v: int): int {
    if v in inDegrees then inDegrees[v] else 0
  }

  // ------------------------------------------------------------ adding an edge

  function WithEdge(g: Graph, u: int, v: int): Graph {
    g.(from := g.from[u := Succs(g, u) + [v]], to := g.to[v := Preds(g, v) + [u]])
  }

  lemma CopiesAfterAppend(s: seq<int>, x: int, y: int)
    ensures Copies(s + [x], y) == Copies(s, y) + (if y == x then 1 else 0)
  {
  }

  lemma AddedEdgeKeepsShape(g: Graph, u: int, v: int)
    requires WellFormed(g) && u in g.ids && v in g.ids
    ensures WellFormed(WithEdge(g, u, v))
  {
    var h := WithEdge(g, u, v);
    forall x, y ensures Balanced(h, x, y) {
      assert Balanced(g, x, y);
      CopiesAfterAppend(Succs(g, u), v, y);
      CopiesAfterAppend(Preds(g, v), u, x);
      assert Succs(h, x) == if x == u then Succs(g, u) + [v] else Succs(g, x);
      assert Preds(h, y) == if y == v then Preds(g, v) + [u] else Preds(g, y);
    }
    forall x, y | Edge(h, x, y) ensures x in g.ids && y in g.ids {
      assert Edge(g, x, y) || (x == u && y == v);
    }
  }

  // ------------------------------------------------- counting open dependencies

  /** How many entries of `s`, repeated ones included, are outside `done`. */
  ghost function Open(s: seq<int>, done: set<int>): nat {
    if s == [] then 0
    else Open(s[..|s| - 1], done) + (if s[|s| - 1] in done then 0 else 1)
  }

  lemma {:induction false} OpenWhenOneIsDone(s: seq<int>, done: set<int>, f: int)
    requires f !in done
    ensures Open(s, done) == Open(s, done + {f}) + Copies(s, f)
    decreases |s|
  {
    if s != [] {
      var front := s[..|s| - 1];
      OpenWhenOneIsDone(front, done, f);
      assert s == front + [s[|s| - 1]];
    }
  }

  lemma {:induction false} OpenIsPositive(s: seq<int>, done: set<int>)
    ensures Open(s, done) > 0 <==> exists x :: x in s && x !in done
    decreases |s|
  {
    if s != [] {
      var front := s[..|s| - 1];
      OpenIsPositive(front, done);
      assert s == front + [s[|s| - 1]];
      assert forall x :: x in s <==> x in front || x == s[|s| - 1];
    }
  }

  lemma {:induction false} OpenOfNothingDone(s: seq<int>)
    ensures Open(s, {}) == |s|
    decreases |s|
  {
    if s != [] {
      OpenOfNothingDone(s[..|s| - 1]);
    }
  }

  /** Vertices left with open dependencies once nothing is ready form a cycle. */
  lemma LeftoverHasCycle(g: Graph, done: set<int>, v: int)
    requires WellFormed(g)
    requires forall x :: x in g.ids && x !in done ==> Open(Preds(g, x), done) > 0
    requires Open(Preds(g, v), done) > 0
    ensures !Acyclic(g)
  {
    var rest := IdSet(g) - done;
    OpenIsPositive(Preds(g, v), done);
    var w :| w in Preds(g, v) && w !in done;
    assert Edge(g, w, v);
    assert w in rest;
    forall x | x in rest ensures FedFrom(g, rest, x) {
      OpenIsPositive(Preds(g, x), done);
      var d :| d in Preds(g, x) && d !in done;
      assert Edge(g, d, x);
      assert d in rest;
    }
    var p := SelfFeedingSetHasCycle(g, rest);
  }

  // ------------------------------------------------------- states of Kahn's loop

  /** The queue holds, without repetition, the vertices whose dependencies are all done. */
  ghost predicate QueueHoldsReady(g: Graph, done: set<int>, q: seq<int>, inDegrees: map<int, int>) {
    && Distinct(q)
    && (forall x :: x in q ==> x in g.ids && x !in done && Degree(inDegrees, x) == 0)
    && (forall x :: x in g.ids && Degree(inDegrees, x) == 0 ==> x in done || x in q)
    && (forall x :: x in done ==> x in g.ids && Degree(inDegrees, x) == 0)
  }

  /** The degree of `v` counts its edges from vertices not done, and from the `v`s in `rest`. */
  ghost predicate Counted(g: Graph, done: set<int>, inDegrees: map<int, int>, rest: seq<int>, v: int) {
    Degree(inDegrees, v) == Open(Preds(g, v), done) + Copies(rest, v)
  }

  /** Between two rounds: each degree counts the edges from vertices not yet processed. */
  ghost predicate Kahn(g: Graph, order: seq<int>, done: set<int>, q: seq<int>, inDegrees: map<int, int>) {
    && Distinct(order) && DependenciesFirst(g, order)
    && (forall x :: x in done <==> x in order)
    && (forall v :: Counted(g, done, inDegrees, [], v))
    && QueueHoldsReady(g, done, q, inDegrees)
  }

  /** Within a round: edges to the vertices in `rest` are still to be released. */
  ghost predicate Releasing(g: Graph, done: set<int>, q: seq<int>, inDegrees: map<int, int>, rest: seq<int>) {
    && (forall v :: Counted(g, done, inDegrees, rest, v))
    && QueueHoldsReady(g, done, q, inDegrees)
  }

  lemma KahnStarts(g: Graph, q: seq<int>, inDegrees: map<int, int>)
    requires forall v :: Degree(inDegrees, v) == |Preds(g, v)|
    requires Distinct(q) && forall v :: v in q <==> v in g.ids && Degree(inDegrees, v) == 0
    ensures Kahn(g, [], {}, q, inDegrees)
  {
    forall v ensures Counted(g, {}, inDegrees, [], v) {
      OpenOfNothingDone(Preds(g, v));
    }
  }

  lemma KahnStep(g: Graph, order: seq<int>, done: set<int>, f: int, q: seq<int>, inDegrees: map<int, int>)
    requires WellFormed(g) && Kahn(g, order, done, [f] + q, inDegrees)
    ensures f in g.ids && f !in done
    ensures Releasing(g, done + {f}, q, inDegrees, Succs(g, f))
    ensures Distinct(order + [f]) && DependenciesFirst(g, order + [f])
  {
    var all := [f] + q;
    assert all[0] == f;
    assert f in all;
    forall i, j | 0 <= i < j < |q| ensures q[i] != q[j] {
      assert all[i + 1] == q[i] && all[j + 1] == q[j];
    }
    forall x | x in q ensures x != f && x in all {
      var i :| 0 <= i < |q| && q[i] == x;
      assert all[i + 1] == x;
    }
    forall v ensures Counted(g, done + {f}, inDegrees, Succs(g, f), v) {
      assert Counted(g, done, inDegrees, [], v);
      OpenWhenOneIsDone(Preds(g, v), done, f);
      assert Balanced(g, f, v);
    }
    assert Counted(g, done, inDegrees, [], f);
    OpenIsPositive(Preds(g, f), done);
    var order' := order + [f];
    forall i, d | 0 <= i < |order'| && Edge(g, d, order'[i]) ensures d in order'[..i] {
      if i < |order| {
        assert d in order[..i];
        assert order'[..i] == order[..i];
      } else {
        assert order'[..i] == order;
      }
    }
  }

  lemma ReleaseOne(g: Graph, done: set<int>, q: seq<int>, inDegrees: map<int, int>, t: int, rest: seq<int>)
    requires WellFormed(g) && Releasing(g, done, q, inDegrees, [t] + rest)
    requires t in g.ids
    ensures var degree := Degree(inDegrees, t) - 1;
            Releasing(g, done, if degree == 0 then q + [t] else q, inDegrees[t := degree], rest)
  {
    var degree := Degree(inDegrees, t) - 1;
    var after := inDegrees[t := degree];
    assert Copies([t] + rest, t) == 1 + Copies(rest, t);
    assert Counted(g, done, inDegrees, [t] + rest, t);
    assert Degree(inDegrees, t) > 0;
    forall v ensures Counted(g, done, after, rest, v) {
      assert Counted(g, done, inDegrees, [t] + rest, v);
      assert Copies([t] + rest, v) == (if v == t then 1 else 0) + Copies(rest, v);
    }
  }

  lemma KahnStepEnds(g: Graph, order: seq<int>, done: set<int>, f: int, q: seq<int>, inDegrees: map<int, int>)
    requires forall x :: x in done <==> x in order
    requires Distinct(order + [f]) && DependenciesFirst(g, order + [f])
    requires Releasing(g, done + {f}, q, inDegrees, [])
    ensures Kahn(g, order + [f], done + {f}, q, inDegrees)
  {
  }

  lemma KahnEnds(g: Graph, order: seq<int>, done: set<int>, inDegrees: map<int, int>)
    requires WellFormed(g) && Kahn(g, order, done, [], inDegrees)
    ensures !Acyclic(g) <==> exists v :: Degree(inDegrees, v) > 0
  {
    if v :| Degree(inDegrees, v) > 0 {
      forall x | x in g.ids && x !in done ensures Open(Preds(g, x), done) > 0 {
        assert Counted(g, done, inDegrees, [], x);
      }
      assert Counted(g, done, inDegrees, [], v);
      LeftoverHasCycle(g, done, v);
    } else {
      forall x | x in g.ids ensures x in order {
        assert Counted(g, done, inDegrees, [], x);
      }
      OrderedMeansAcyclic(g, order);
    }
  }

  // ------------------------------------------------------------------- retries

  predicate Failed(status: NodeStatus) {
    status == Error || status == Cancel
  }

  /** The step failed or was cancelled, or something it depends on did, however far up. */
  ghost predicate Affected(g: Graph, before: map<int, NodeData>, v: int) {
    exists p :: Walk(g, p) && p[|p| - 1] == v && p[0] in before && Failed(before[p[0]].state.status)
  }

  lemma AffectedIsInherited(g: Graph, before: map<int, NodeData>, u: int, v: int)
    requires Affected(g, before, u) && Edge(g, u, v)
    ensures Affected(g, before, v)
  {
    var p :| Walk(g, p) && p[|p| - 1] == u && p[0] in before && Failed(before[p[0]].state.status);
    ExtendWalk(g, p, v);
    assert (p + [v])[0] == p[0];
  }

  /** Marks that hold for failed steps and pass along every edge reach all affected steps. */
  lemma {:induction false} MarksReachAffected(g: Graph, before: map<int, NodeData>, marks: map<int, bool>,
                                              p: seq<int>, n: nat)
    requires WellFormed(g) && Walk(g, p) && n < |p|
    requires forall v :: v in g.ids ==> v in marks
    requires p[0] in before && Failed(before[p[0]].state.status)
    requires forall v :: v in g.ids && v in before && Failed(before[v].state.status) ==> marks[v]
    requires forall u, v :: u in g.ids && v in g.ids && marks[u] && Edge(g, u, v) ==> marks[v]
    ensures p[n] in marks && marks[p[n]]
    decreases n
  {
    WalkStaysInside(g, p, n);
    if n > 0 {
      MarksReachAffected(g, before, marks, p, n - 1);
      assert StepAt(g, p, n);
    }
  }

  ghost predicate EndsWalkOf(g: Graph, v: int, n: nat) {
    n > 0 && exists p :: Walk(g, p) && |p| == n && p[n - 1] == v
  }

  lemma EndsLongerWalk(g: Graph, u: int, v: int, n: nat)
    requires EndsWalkOf(g, u, n) && Edge(g, u, v)
    ensures EndsWalkOf(g, v, n + 1)
  {
    var p :| Walk(g, p) && |p| == n && p[n - 1] == u;
    ExtendWalk(g, p, v);
    assert |p + [v]| == n + 1;
  }

  ghost function Elements(s: seq<int>): set<int> {
    set x | x in s
  }

  lemma PendingBeforeVisit(frontier: seq<int>, i: nat, next: seq<int>)
    requires i < |frontier|
    ensures Elements(frontier[i..] + next) == {frontier[i]} + Elements(frontier[i + 1..] + next)
    ensures frontier[i] in frontier
  {
    assert frontier[i..] + next == [frontier[i]] + (frontier[i + 1..] + next);
  }

  lemma SuccsAreVertices(g: Graph, u: int, succs: seq<int>)
    requires WellFormed(g) && succs == Succs(g, u)
    ensures forall v :: Edge(g, u, v) <==> v in Elements(succs)
    ensures forall v :: v in succs ==> v in IdSet(g)
  {
    forall v ensures Edge(g, u, v) <==> v in Elements(succs) {
      EdgeIsSucc(g, u, v);
    }
    forall v | v in succs ensures v in IdSet(g) {
      assert v in Elements(succs);
    }
  }

  lemma StartOfWalks(g: Graph, frontier: seq<int>)
    requires forall u :: u in frontier ==> u in g.ids
    ensures forall u :: u in frontier ==> EndsWalkOf(g, u, 1)
  {
    forall u | u in frontier ensures EndsWalkOf(g, u, 1) {
      assert Walk(g, [u]);
    }
  }

  lemma NextRound(g: Graph, u: int, succs: seq<int>, n: nat)
    requires WellFormed(g) && EndsWalkOf(g, u, n) && succs == Succs(g, u)
    ensures forall v :: v in succs ==> EndsWalkOf(g, v, n + 1)
  {
    forall v | v in succs ensures EndsWalkOf(g, v, n + 1) {
      EdgeIsSucc(g, u, v);
      EndsLongerWalk(g, u, v, n);
    }
  }

  lemma WalkEndBound(g: Graph, v: int, n: nat)
    requires WellFormed(g) && Acyclic(g) && EndsWalkOf(g, v, n)
    ensures n <= |IdSet(g)|
  {
    var p :| Walk(g, p) && |p| == n && p[n - 1] == v;
    AcyclicWalkIsShort(g, p);
  }

  function Cleared(d: NodeData): NodeData {
    d.(state := ClearedState)
  }

  /** Marked steps are affected ones; they are cleared and have passed the mark on, unless
      they are still pending. */
  ghost predicate MarksInStep(g: Graph, before: map<int, NodeData>, dict: map<int, NodeData>,
                              marks: map<int, bool>, pending: set<int>) {
    && before.Keys == IdSet(g) && dict.Keys == IdSet(g) && marks.Keys == IdSet(g)
    && (forall v :: v in dict ==> dict[v] == before[v] || (marks[v] && dict[v] == Cleared(before[v])))
    && (forall v :: v in dict && marks[v] && v !in pending ==> dict[v] == Cleared(before[v]))
    && (forall v {:trigger Affected(g, before, v)} :: v in marks && marks[v] ==> Affected(g, before, v))
    && (forall u, v {:trigger Edge(g, u, v)} ::
          u in marks && marks[u] && u !in pending && Edge(g, u, v) ==> v in marks && marks[v])
  }

  /** Nothing is overlooked: what is seen or pending holds the roots, the dependents of what
      is seen are in it too, and seen failures are marked. */
  ghost predicate NothingOverlooked(g: Graph, before: map<int, NodeData>, marks: map<int, bool>,
                                    pending: set<int>, seen: set<int>) {
    && pending <= IdSet(g)
    && (forall v :: v in g.ids && Preds(g, v) == [] ==> v in seen || v in pending)
    && (forall u, v {:trigger Edge(g, u, v)} :: u in seen && Edge(g, u, v) ==> v in seen || v in pending)
    && (forall v :: v in seen ==> v in before && v in marks && (Failed(before[v].state.status) ==> marks[v]))
  }

  ghost predicate Sweep(g: Graph, before: map<int, NodeData>, dict: map<int, NodeData>,
                        marks: map<int, bool>, pending: set<int>, seen: set<int>) {
    && MarksInStep(g, before, dict, marks, pending)
    && NothingOverlooked(g, before, marks, pending, seen)
  }

  lemma SweepStarts(g: Graph, dict: map<int, NodeData>, marks: map<int, bool>, roots: set<int>)
    requires dict.Keys == IdSet(g) && marks == map v | v in dict :: false
    requires forall v :: v in roots <==> v in g.ids && Preds(g, v) == []
    ensures Sweep(g, dict, dict, marks, roots, {})
  {
    forall v | v in roots ensures v in IdSet(g) {
    }
  }

  lemma SweepBounds(g: Graph, before: map<int, NodeData>, dict: map<int, NodeData>, marks: map<int, bool>,
                    pending: set<int>, seen: set<int>)
    requires Sweep(g, before, dict, marks, pending, seen)
    ensures pending <= IdSet(g)
    ensures before.Keys == dict.Keys == marks.Keys == IdSet(g)
  {
  }

  /** Visiting `u`: its state is cleared if it is hit, and the hit is passed on. */
  ghost predicate Visited(g: Graph, before: map<int, NodeData>, u: int,
                          dict: map<int, NodeData>, marks: map<int, bool>,
                          dict': map<int, NodeData>, marks': map<int, bool>)
  {
    && u in before && u in marks && u in dict
    && var hit := marks[u] || Failed(before[u].state.status);
    && (forall v :: v in dict' <==> v in dict)
    && (forall v :: v in marks' <==> v in marks)
    && (forall v :: v in dict ==> dict'[v] == if hit && v == u then Cleared(dict[u]) else dict[v])
    && (forall v :: v in marks ==> marks'[v] == (marks[v] || (hit && (v == u || Edge(g, u, v)))))
  }

  lemma VisitMarksAffected(g: Graph, before: map<int, NodeData>, dict: map<int, NodeData>, marks: map<int, bool>,
                           u: int, dict': map<int, NodeData>, marks': map<int, bool>)
    requires WellFormed(g) && u in g.ids && Visited(g, before, u, dict, marks, dict', marks')
    requires forall v {:trigger Affected(g, before, v)} :: v in marks && marks[v] ==> Affected(g, before, v)
    ensures forall v {:trigger Affected(g, before, v)} :: v in marks' && marks'[v] ==> Affected(g, before, v)
  {
    if Failed(before[u].state.status) {
      assert Walk(g, [u]) && [u][|[u]| - 1] == u;
    }
    forall v | v in marks' && marks'[v] ensures Affected(g, before, v) {
      if !marks[v] && v != u {
        AffectedIsInherited(g, before, u, v);
      }
    }
  }

  lemma VisitKeepsMarksInStep(g: Graph, before: map<int, NodeData>, dict: map<int, NodeData>,
                              marks: map<int, bool>, u: int, rest: set<int>,
                              dict': map<int, NodeData>, marks': map<int, bool>, next: set<int>)
    requires WellFormed(g) && MarksInStep(g, before, dict, marks, {u} + rest)
    requires u in g.ids && Visited(g, before, u, dict, marks, dict', marks')
    requires forall v :: Edge(g, u, v) <==> v in next
    ensures MarksInStep(g, before, dict', marks', rest + next)
  {
    hide WellFormed, Affected, Failed;
    VisitMarksAffected(g, before, dict, marks, u, dict', marks');
    SameKeys(dict, dict');
    SameKeys(marks, marks');
    forall x, y | Edge(g, x, y) ensures y in IdSet(g) {
      EdgeInside(g, x, y);
    }
  }

  lemma VisitOverlooksNothing(g: Graph, before: map<int, NodeData>, dict: map<int, NodeData>,
                              marks: map<int, bool>, u: int, rest: set<int>, seen: set<int>,
                              dict': map<int, NodeData>, marks': map<int, bool>, next: set<int>)
    requires WellFormed(g) && NothingOverlooked(g, before, marks, {u} + rest, seen)
    requires Visited(g, before, u, dict, marks, dict', marks')
    requires forall v :: Edge(g, u, v) <==> v in next
    ensures NothingOverlooked(g, before, marks', rest + next, seen + {u})
  {
    hide WellFormed, Failed, Cleared;
    forall v | v in next ensures v in IdSet(g) {
      EdgeInside(g, u, v);
    }
    assert rest <= {u} + rest;
  }

  /** Visiting `u` keeps the sweep on course; its dependents are to be visited again. */
  lemma SweepStep(g: Graph, before: map<int, NodeData>, dict: map<int, NodeData>, marks: map<int, bool>,
                  u: int, rest: set<int>, seen: set<int>, dict': map<int, NodeData>, marks': map<int, bool>,
                  next: set<int>)
    requires WellFormed(g) && Sweep(g, before, dict, marks, {u} + rest, seen)
    requires Visited(g, before, u, dict, marks, dict', marks')
    requires forall v :: Edge(g, u, v) <==> v in next
    ensures Sweep(g, before, dict', marks', rest + next, seen + {u})
  {
    hide MarksInStep, NothingOverlooked, WellFormed, Visited;
    SweepBounds(g, before, dict, marks, {u} + rest, seen);
    assert u in {u} + rest;
    VisitKeepsMarksInStep(g, before, dict, marks, u, rest, dict', marks', next);
    VisitOverlooksNothing(g, before, dict, marks, u, rest, seen, dict', marks', next);
  }

  lemma EdgeInside(g: Graph, x: int, y: int)
    requires WellFormed(g) && Edge(g, x, y)
    ensures y in IdSet(g)
  {
  }

  lemma SweepEnds(g: Graph, before: map<int, NodeData>, dict: map<int, NodeData>, marks: map<int, bool>, seen: set<int>)
    requires WellFormed(g) && Acyclic(g) && Sweep(g, before, dict, marks, {}, seen)
    ensures forall v :: v in g.ids ==>
              v in dict && v in before && dict[v] == if Affected(g, before, v) then Cleared(before[v]) else before[v]
    ensures dict.Keys == before.Keys
  {
    RootsReachEverything(g, seen);
    forall v | v in g.ids
      ensures v in dict && v in before && dict[v] == if Affected(g, before, v) then Cleared(before[v]) else before[v]
    {
      assert v in IdSet(g);
      if Affected(g, before, v) {
        var p :| Walk(g, p) && p[|p| - 1] == v && p[0] in before && Failed(before[p[0]].state.status);
        forall x | x in g.ids ensures x in marks && x in seen {
          assert x in IdSet(g);
        }
        MarksReachAffected(g, before, marks, p, |p| - 1);
      }
    }
  }

  // ----------------------------------------------------------------- the graph

  ghost predicate Named(dict: map<int, NodeData>, u: int, name: string) {
    u in dict && dict[u].step.name == name
  }

  /** The dependencies of `v` are, in order, nodes bearing the names that `v` depends on. */
  ghost predicate LinksOf(dict: map<int, NodeData>, to: map<int, seq<int>>, v: int) {
    && v in dict
    && var depends, preds := dict[v].step.depends, Lookup(to, v);
    && |preds| == |depends|
    && forall j :: 0 <= j < |preds| ==> Named(dict, preds[j], depends[j])
  }

  class ExecutionGraph {
    var ids: seq<int>
    var dict: map<int, NodeData>
    var from: map<int, seq<int>>
    var to: map<int, seq<int>>

    ghost function View(): Graph
      reads this
    {
      Graph(ids, from, to)
    }

    /** Every vertex has its node, and the adjacency maps are consistent. */
    ghost predicate Valid()
      reads this
    {
      && WellFormed(View())
      && dict.Keys == IdSet(View())
    }

    /** All dependencies of all nodes are in place. */
    ghost predicate Linked()
      reads this
    {
      forall v :: v in ids ==> LinksOf(dict, to, v)
    }

    /** Nodes get consecutive identifiers; no edges yet. */
    constructor (nodes: seq<NodeData>, firstId: int)
      ensures Valid() && from == map[] && to == map[]
      ensures |ids| == |nodes|
      ensures forall i :: 0 <= i < |nodes| ==> ids[i] in dict && dict[ids[i]] == nodes[i]
    {
      ids, dict, from, to := [], map[], map[], map[];
      new;
      for i := 0 to |nodes|
        invariant from == map[] && to == map[]
        invariant |ids| == i
        invariant forall k :: 0 <= k < i ==> ids[k] == firstId + k
        invariant forall k :: 0 <= k < i ==> ids[k] in dict && dict[ids[k]] == nodes[k]
        invariant dict.Keys == set v | v in ids
      {
        var id := firstId + i;
        dict := dict[id := nodes[i]];
        ids := ids + [id];
      }
    }

    method AddEdge(u: int, v: int)
      requires Valid() && u in ids && v in ids
      modifies this`from, this`to
      ensures Valid()
      ensures from == old(from)[u := Lookup(old(from), u) + [v]]
      ensures to == old(to)[v := Lookup(old(to), v) + [u]]
      ensures Lookup(to, v) == Lookup(old(to), v) + [u]
      ensures forall x :: x != v ==> Lookup(to, x) == Lookup(old(to), x)
    {
      hide WellFormed;
      AddedEdgeKeepsShape(View(), u, v);
      ghost var grown := WithEdge(View(), u, v);
      from := from[u := Lookup(from, u) + [v]];
      to := to[v := Lookup(to, v) + [u]];
      assert View() == grown;
    }

    /** Any node of that name: the search runs over a map, in no fixed order. */
    method FindStep(name: string) returns (found: Option<int>)
      ensures found.Some? ==> found.value in dict && dict[found.value].step.name == name
      ensures found.None? <==> forall v :: v in dict ==> dict[v].step.name != name
    {
      found := None;
      var keys := dict.Keys;
      while keys != {}
        invariant keys <= dict.Keys && found == None
        invariant forall v :: v in dict && v !in keys ==> dict[v].step.name != name
        decreases |keys|
      {
        ghost var w := AnyMember(keys);
        var v :| v in keys;
        if dict[v].step.name == name {
          return Some(v);
        }
        keys := keys - {v};
      }
    }

    /** Adds the edges into one node. */
    method LinkNode(v: int) returns (r: SetupResult)
      requires Valid() && v in dict && Lookup(to, v) == []
      modifies this`from, this`to
      ensures Valid() && !r.CycleDetected?
      ensures forall x :: x != v ==> Lookup(to, x) == Lookup(old(to), x)
      ensures r.StepNotFound? ==>
                && r.name in dict[v].step.depends
                && (forall x :: x in dict ==> dict[x].step.name != r.name)
      ensures r.Ready? ==> LinksOf(dict, to, v)
    {
      hide WellFormed;
      var depends := dict[v].step.depends;
      for j := 0 to |depends|
        invariant Valid() && v in dict && |Lookup(to, v)| == j
        invariant forall k :: 0 <= k < j ==> Named(dict, Lookup(to, v)[k], depends[k])
        invariant forall x :: x != v ==> Lookup(to, x) == Lookup(old(to), x)
      {
        var found := FindStep(depends[j]);
        if found.None? {
          return StepNotFound(depends[j]);
        }
        assert found.value in IdSet(View()) && v in IdSet(View());
        AddEdge(found.value, v);
      }
      return Ready;
    }

    /** Links all nodes, then looks for cycles.  Whichever way it ends, the outcome is
        forced: a missing name, else a closed walk, else a linked acyclic graph. */
    method Setup() returns (r: SetupResult)
      requires Valid() && from == map[] && to == map[]
      modifies this`from, this`to
      ensures Valid()
      ensures r.StepNotFound? ==>
                && (exists v :: v in dict && r.name in dict[v].step.depends)
                && (forall v :: v in dict ==> dict[v].step.name != r.name)
      ensures !r.StepNotFound? ==> Linked()
      ensures r.CycleDetected? ==> !Acyclic(View())
      ensures r.Ready? ==> Acyclic(View())
    {
      for i := 0 to |ids|
        invariant Valid()
        invariant forall k :: 0 <= k < i ==> LinksOf(dict, to, ids[k])
        invariant forall k :: i <= k < |ids| ==> Lookup(to, ids[k]) == []
      {
        assert ids[i] in IdSet(View());
        r := LinkNode(ids[i]);
        if r.StepNotFound? {
          return;
        }
      }
      assert forall v :: v in IdSet(View()) ==> v in dict;
      var cyclic := HasCycle();
      r := if cyclic then CycleDetected else Ready;
    }

    /** Kahn's algorithm finds a cycle exactly when there is a closed walk. */
    method HasCycle() returns (cyclic: bool)
      requires Valid()
      ensures cyclic <==> exists p :: ClosedWalk(View(), p)
    {
      ghost var g := View();
      var inDegrees := CountDependencies();
      var q := ReadyNodes(inDegrees);
      ghost var order, done := [], {};
      KahnStarts(g, q, inDegrees);
      while q != []
        invariant Kahn(g, order, done, q, inDegrees)
        decreases |IdSet(g) - done|
      {
        ghost var f := q[0];
        inDegrees, q := ProcessNext(g, order, done, q, inDegrees);
        OneFewer(IdSet(g), done, f);
        order, done := order + [f], done + {f};
      }
      KahnEnds(g, order, done, inDegrees);
      cyclic := AnyPositive(inDegrees);
      assert cyclic <==> !Acyclic(g);
      assert g == View();
    }

    method AnyPositive(inDegrees: map<int, int>) returns (found: bool)
      ensures found <==> exists v :: Degree(inDegrees, v) > 0
    {
      var keys := inDegrees.Keys;
      while keys != {}
        invariant keys <= inDegrees.Keys
        invariant forall v :: v in inDegrees && v !in keys ==> inDegrees[v] <= 0
        decreases |keys|
      {
        ghost var w := AnyMember(keys);
        var v :| v in keys;
        if inDegrees[v] > 0 {
          assert Degree(inDegrees, v) > 0;
          return true;
        }
        keys := keys - {v};
      }
      assert forall v :: Degree(inDegrees, v) <= 0;
      return false;
    }

    method CountDependencies() returns (inDegrees: map<int, int>)
      ensures forall v :: Degree(inDegrees, v) == |Lookup(to, v)|
    {
      inDegrees := map[];
      var keys := to.Keys;
      while keys != {}
        invariant keys <= to.Keys
        invariant forall v :: v in inDegrees <==> v in to && v !in keys
        invariant forall v :: v in inDegrees ==> inDegrees[v] == |to[v]|
        decreases |keys|
      {
        ghost var w := AnyMember(keys);
        var v :| v in keys;
        inDegrees := inDegrees[v := |to[v]|];
        keys := keys - {v};
      }
    }

    method ReadyNodes(inDegrees: map<int, int>) returns (q: seq<int>)
      requires Valid()
      ensures Distinct(q)
      ensures forall v :: v in q <==> v in ids && Degree(inDegrees, v) == 0
    {
      q := [];
      for i := 0 to |ids|
        invariant Distinct(q)
        invariant forall v :: v in q <==> v in ids[..i] && Degree(inDegrees, v) == 0
      {
        if Degree(inDegrees, ids[i]) == 0 {
          q := q + [ids[i]];
        }
        assert ids[..i + 1] == ids[..i] + [ids[i]];
      }
      assert ids[..|ids|] == ids;
    }

    /** Takes the first queued node out of the graph. */
    method ProcessNext(ghost g: Graph, ghost order: seq<int>, ghost done: set<int>, q: seq<int>,
                       inDegrees: map<int, int>) returns (inDegrees': map<int, int>, q': seq<int>)
      requires WellFormed(g) && g == View()
      requires q != [] && Kahn(g, order, done, q, inDegrees)
      ensures q[0] in IdSet(g) && q[0] !in done
      ensures Kahn(g, order + [q[0]], done + {q[0]}, q', inDegrees')
    {
      var f := q[0];
      assert q == [f] + q[1..];
      KahnStep(g, order, done, f, q[1..], inDegrees);
      inDegrees', q' := Release(g, done + {f}, f, q[1..], inDegrees);
      KahnStepEnds(g, order, done, f, q', inDegrees');
    }

    method Release(ghost g: Graph, ghost done: set<int>, f: int, q: seq<int>, inDegrees: map<int, int>)
      returns (inDegrees': map<int, int>, q': seq<int>)
      requires WellFormed(g) && g == View()
      requires Releasing(g, done, q, inDegrees, Succs(g, f))
      ensures Releasing(g, done, q', inDegrees', [])
    {
      hide Releasing, WellFormed;
      inDegrees', q' := inDegrees, q;
      var tos := Lookup(from, f);
      assert tos[0..] == tos;
      for k := 0 to |tos|
        invariant Releasing(g, done, q', inDegrees', tos[k..])
      {
        var t := tos[k];
        assert tos[k..] == [t] + tos[k + 1..];
        EdgeIsSucc(g, f, t);
        EdgeInside(g, f, t);
        ReleaseOne(g, done, q', inDegrees', t, tos[k + 1..]);
        inDegrees' := inDegrees'[t := Degree(inDegrees', t) - 1];
        if inDegrees'[t] == 0 {
          q' := q' + [t];
        }
      }
    }

    method Roots() returns (frontier: seq<int>)
      requires Valid() && Linked()
      ensures forall v :: v in frontier <==> v in ids && Lookup(to, v) == []
    {
      frontier := [];
      for i := 0 to |ids|
        invariant forall v :: v in frontier <==> v in ids[..i] && Lookup(to, v) == []
      {
        assert LinksOf(dict, to, ids[i]);
        if |dict[ids[i]].step.depends| == 0 {
          frontier := frontier + [ids[i]];
        }
        assert ids[..i + 1] == ids[..i] + [ids[i]];
      }
      assert ids[..|ids|] == ids;
    }

    /** Clears exactly the steps that failed or were cancelled and everything downstream of
        them.  There is no visited set: the sweep ends because its k-th round holds only
        ends of walks with k edges, and without cycles those are short. */
    method SetupRetry()
      requires Valid() && Linked() && Acyclic(View())
      modifies this`dict
      ensures dict.Keys == old(dict.Keys)
      ensures forall v :: v in ids ==>
                dict[v] == if Affected(View(), old(dict), v) then Cleared(old(dict)[v]) else old(dict)[v]
    {
      ghost var g := View();
      hide Sweep, WellFormed, EndsWalkOf, Affected;
      ghost var before := dict;
      var status := map v | v in dict :: dict[v].state.status;
      var retry := map v | v in dict :: false;
      var frontier := Roots();
      ghost var seen: set<int> := {};
      ghost var round: nat := 0;
      StartOfWalks(g, frontier);
      SweepStarts(g, dict, retry, Elements(frontier));
      while frontier != []
        invariant Sweep(g, before, dict, retry, Elements(frontier), seen)
        invariant forall u :: u in frontier ==> EndsWalkOf(g, u, round + 1)
        decreases |IdSet(g)| - round
      {
        assert frontier[0] in frontier;
        WalkEndBound(g, frontier[0], round + 1);
        var next: seq<int> := [];
        assert frontier[0..] == frontier;
        assert frontier + next == frontier;
        for i := 0 to |frontier|
          invariant Sweep(g, before, dict, retry, Elements(frontier[i..] + next), seen)
          invariant forall u :: u in next ==> EndsWalkOf(g, u, round + 2)
        {
          PendingBeforeVisit(frontier, i, next);
          retry, next := Visit(g, before, status, retry, frontier[i], frontier[i + 1..], next, seen, round + 1);
          seen := seen + {frontier[i]};
        }
        assert frontier[|frontier|..] + next == next;
        frontier := next;
        round := round + 1;
      }
      assert Elements(frontier) == {};
      SweepEnds(g, before, dict, retry, seen);
    }

    /** One visit of the sweep: the body of its middle loop. */
    method Visit(ghost g: Graph, ghost before: map<int, NodeData>, status: map<int, NodeStatus>,
                 retry: map<int, bool>, u: int, ghost later: seq<int>, next: seq<int>,
                 ghost seen: set<int>, ghost round: nat)
      returns (retry': map<int, bool>, next': seq<int>)
      requires WellFormed(g) && g == View()
      requires Sweep(g, before, dict, retry, {u} + Elements(later + next), seen)
      requires status == map v | v in before :: before[v].state.status
      requires EndsWalkOf(g, u, round) && forall x :: x in next ==> EndsWalkOf(g, x, round + 1)
      modifies this`dict
      ensures Sweep(g, before, dict, retry', Elements(later + next'), seen + {u})
      ensures forall x :: x in next' ==> EndsWalkOf(g, x, round + 1)
    {
      hide Sweep, WellFormed, EndsWalkOf, Affected;
      ghost var dict0 := dict;
      SweepBounds(g, before, dict, retry, {u} + Elements(later + next), seen);
      assert u in IdSet(g);
      retry', next' := retry, next;
      if retry[u] || status[u] == Error || status[u] == Cancel {
        dict := dict[u := Cleared(dict[u])];
        retry' := retry'[u := true];
      }
      var succs := Lookup(from, u);
      SuccsAreVertices(g, u, succs);
      retry', next' := PassOn(retry', u, succs, next);
      SweepStep(g, before, dict0, retry, u, Elements(later + next), seen, dict, retry', Elements(succs));
      assert Elements(later + next) + Elements(succs) == Elements(later + next');
      NextRound(g, u, succs, round);
    }

    /** The innermost loop: hands the mark of `u` to its dependents and queues them. */
    method PassOn(retry: map<int, bool>, u: int, succs: seq<int>, next: seq<int>)
      returns (retry': map<int, bool>, next': seq<int>)
      requires u in retry && forall v :: v in succs ==> v in retry
      ensures forall v :: v in retry' <==> v in retry
      ensures forall v :: v in retry ==> retry'[v] == (retry[v] || (retry[u] && v in succs))
      ensures next' == next + succs
    {
      retry', next' := retry, next;
      for j := 0 to |succs|
        invariant forall v :: v in retry' <==> v in retry
        invariant forall v :: v in retry ==> retry'[v] == (retry[v] || (retry[u] && v in succs[..j]))
        invariant next' == next + succs[..j]
      {
        assert succs[j] in succs;
        if retry'[u] {
          retry' := retry'[succs[j] := true];
        }
        next' := next' + [succs[j]];
        assert succs[..j + 1] == succs[..j] + [succs[j]];
        assert forall v :: v in succs[..j + 1] <==> v in succs[..j] || v == succs[j];
      }
      assert succs[..|succs|] == succs;
    }
  }

  // ----------------------------------------------------------- building a graph

  ghost predicate Holds(graph: ExecutionGraph, nodes: seq<NodeData>)
    reads graph
  {
    && |graph.ids| == |nodes|
    && forall i :: 0 <= i < |nodes| ==> graph.ids[i] in graph.dict && graph.dict[graph.ids[i]] == nodes[i]
  }

  /** The name is depended on and nothing bears it. */
  ghost predicate NobodyBears(nodes: seq<NodeData>, name: string) {
    && (exists i :: 0 <= i < |nodes| && name in nodes[i].step.depends)
    && (forall i :: 0 <= i < |nodes| ==> nodes[i].step.name != name)
  }

  /** The nodes, linked by the names they depend on. */
  ghost predicate LinkedGraph(nodes: seq<NodeData>, g: Graph, dict: map<int, NodeData>) {
    && WellFormed(g) && |g.ids| == |nodes|
    && (forall i :: 0 <= i < |nodes| ==> g.ids[i] in dict && dict[g.ids[i]] == nodes[i])
    && (forall v :: v in g.ids ==> LinksOf(dict, g.to, v))
  }

  /** Linking the nodes by name gives a cyclic graph. */
  ghost predicate LinksToCycle(nodes: seq<NodeData>) {
    exists g, dict :: LinkedGraph(nodes, g, dict) && !Acyclic(g)
  }

  ghost predicate RefusedFor(nodes: seq<NodeData>, r: SetupResult) {
    match r
    case Ready => true
    case StepNotFound(name) => NobodyBears(nodes, name)
    case CycleDetected => LinksToCycle(nodes)
  }

  lemma NameIsMissing(graph: ExecutionGraph, nodes: seq<NodeData>, name: string)
    requires graph.Valid() && Holds(graph, nodes)
    requires exists v :: v in graph.dict && name in graph.dict[v].step.depends
    requires forall v :: v in graph.dict ==> graph.dict[v].step.name != name
    ensures NobodyBears(nodes, name)
  {
    var v :| v in graph.dict && name in graph.dict[v].step.depends;
    assert v in IdSet(graph.View());
    var i :| 0 <= i < |graph.ids| && graph.ids[i] == v;
    assert nodes[i] == graph.dict[v];
    forall k | 0 <= k < |nodes| ensures nodes[k].step.name != name {
      assert graph.ids[k] in graph.dict;
    }
  }

  /** A graph is handed out unless a name does not resolve or there is a cycle. */
  method NewExecutionGraph(steps: seq<Step>, firstId: int) returns (r: SetupResult, graph: ExecutionGraph?)
    ensures r.Ready? <==> graph != null
    ensures RefusedFor(Unstarted(steps), r)
    ensures graph != null ==>
              && fresh(graph) && graph.Valid() && graph.Linked() && Acyclic(graph.View())
              && |graph.ids| == |steps|
              && forall i :: 0 <= i < |steps| ==>
                   && graph.ids[i] in graph.dict
                   && graph.dict[graph.ids[i]] == NodeData(steps[i], NodeState(NotStarted, 0, 0), None)
  {
    hide WellFormed, LinksOf, NobodyBears;
    var nodes := Unstarted(steps);
    var g := new ExecutionGraph(nodes, firstId);
    r := g.Setup();
    graph := if r.Ready? then g else null;
    if r.StepNotFound? {
      NameIsMissing(g, nodes, r.name);
    }
    assert !r.StepNotFound? ==> LinkedGraph(nodes, g.View(), g.dict);
  }

  function Unstarted(steps: seq<Step>): seq<NodeData> {
    seq(|steps|, i requires 0 <= i < |steps| => NodeData(steps[i], ClearedState, None))
  }

  /** Clearing states leaves the links in place. */
  lemma ClearingKeepsLinks(before: map<int, NodeData>, after: map<int, NodeData>, to: map<int, seq<int>>, v: int)
    requires LinksOf(before, to, v)
    requires forall u :: u in before ==> u in after && after[u].step == before[u].step
    ensures LinksOf(after, to, v)
  {
    var preds := Lookup(to, v);
    forall j | 0 <= j < |preds| ensures Named(after, preds[j], after[v].step.depends[j]) {
      assert Named(before, preds[j], before[v].step.depends[j]);
    }
  }

  lemma FailedIsAffected(g: Graph, before: map<int, NodeData>, v: int)
    requires v in g.ids && v in before && Failed(before[v].state.status)
    ensures Affected(g, before, v)
  {
    assert Walk(g, [v]) && [v][|[v]| - 1] == v;
  }

  /** The graph of a retried run: `before` holds the nodes as they were.  What failed, what was
      cancelled and whatever depends on such a step is cleared, the rest is as it was, and
      nothing failed is left. */
  method CreateRetryExecutionGraph(nodes: seq<NodeData>, firstId: int)
    returns (r: SetupResult, graph: ExecutionGraph?, ghost before: map<int, NodeData>)
    ensures r.Ready? <==> graph != null
    ensures RefusedFor(nodes, r)
    ensures graph != null ==>
              && fresh(graph) && graph.Valid() && graph.Linked() && Acyclic(graph.View())
              && |graph.ids| == |nodes|
              && (forall i :: 0 <= i < |nodes| ==> graph.ids[i] in before && before[graph.ids[i]] == nodes[i])
              && (forall v :: v in graph.ids ==>
                    && v in graph.dict && v in before && !Failed(graph.dict[v].state.status)
                    && graph.dict[v].step == before[v].step && graph.dict[v].decision == before[v].decision
                    && graph.dict[v].state == (if Affected(graph.View(), before, v) then NodeState(NotStarted, 0, 0)
                                               else before[v].state)
                    && graph.dict[v] == if Affected(graph.View(), before, v) then Cleared(before[v]) else before[v])
  {
    hide Affected, WellFormed, LinksOf, NobodyBears;
    var g := new ExecutionGraph(nodes, firstId);
    before := g.dict;
    assert before.Keys == IdSet(g.View());
    r := g.Setup();
    graph := null;
    if r.StepNotFound? {
      NameIsMissing(g, nodes, r.name);
    }
    assert !r.StepNotFound? ==> LinkedGraph(nodes, g.View(), g.dict);
    if r.Ready? {
      g.SetupRetry();
      graph := g;
      forall v | v in g.ids ensures v in IdSet(g.View()) && v in before && v in g.dict {
      }
      forall v | v in before ensures v in g.ids && v in g.dict && g.dict[v].step == before[v].step {
        assert v in IdSet(g.View());
      }
      forall v | v in g.ids ensures LinksOf(g.dict, g.to, v) && !Failed(g.dict[v].state.status) {
        ClearingKeepsLinks(before, g.dict, g.to, v);
        if Failed(before[v].state.status) {
          FailedIsAffected(g.View(), before, v);
        }
      }
    }
  }
}
