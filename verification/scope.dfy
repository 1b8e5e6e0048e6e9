/** Which output variables a step sees: those of itself and everything upstream, the
    nearest definition winning. */
module Scope {
  import opened Collections
  import opened Digraph
  import opened Wrappers

  /** The output variables of each step; a step may have none at all. */
  type Outputs = map<int, Option<map<string, string>>>

  ghost predicate Defines(outputs: Outputs, v: int, key: string) {
    v in outputs && outputs[v].Some? && key in outputs[v].value
  }

  // ------------------------------------------------------------------ distance

  /** `v` is reached from `start` by following `n` dependencies. */
  ghost predicate Upstream(g: Graph, start: int, v: int, n: nat)
    decreases n
  {
    if n == 0 then v == start
    else exists u :: u in g.ids && Upstream(g, start, u, n - 1) && Edge(g, v, u)
  }

  /** `n` is the least number of dependencies to follow. */
  ghost predicate Distance(g: Graph, start: int, v: int, n: nat) {
    Upstream(g, start, v, n) && forall m: nat :: Upstream(g, start, v, m) ==> n <= m
  }

  /** That is: the step depends on `v` by a chain of `n` dependencies. */
  lemma UpstreamByWalk(g: Graph, start: int, v: int, n: nat)
    requires WellFormed(g) && start in g.ids
    ensures Upstream(g, start, v, n) <==> exists p :: WalkFromTo(g, p, v, start) && |p| == n + 1
  {
    hide WellFormed, WalkFromTo, Upstream;
    if Upstream(g, start, v, n) {
      var p := UpstreamHasWalk(g, start, v, n);
    }
    if p :| WalkFromTo(g, p, v, start) && |p| == n + 1 {
      WalkIsUpstream(g, start, v, n, p);
    }
  }

  lemma {:induction false} UpstreamHasWalk(g: Graph, start: int, v: int, n: nat) returns (p: seq<int>)
    requires WellFormed(g) && start in g.ids && Upstream(g, start, v, n)
    ensures WalkFromTo(g, p, v, start) && |p| == n + 1
    decreases n
  {
    hide WellFormed;
    if n == 0 {
      p := [start];
    } else {
      var u :| u in g.ids && Upstream(g, start, u, n - 1) && Edge(g, v, u);
      var q := UpstreamHasWalk(g, start, u, n - 1);
      PrependWalk(g, v, q);
      p := [v] + q;
    }
  }

  lemma {:induction false} WalkIsUpstream(g: Graph, start: int, v: int, n: nat, p: seq<int>)
    requires WellFormed(g) && WalkFromTo(g, p, v, start) && |p| == n + 1
    ensures Upstream(g, start, v, n)
    decreases n
  {
    hide WellFormed;
    if n > 0 {
      TailOfWalk(g, p);
      WalkIsUpstream(g, start, p[1], n - 1, p[1..]);
    }
  }

  lemma PrependWalk(g: Graph, v: int, p: seq<int>)
    requires WellFormed(g) && Walk(g, p) && Edge(g, v, p[0])
    ensures Walk(g, [v] + p)
  {
    var q := [v] + p;
    forall i | 0 < i < |q| ensures StepAt(g, q, i) {
      if i > 1 {
        assert StepAt(g, p, i - 1);
      }
    }
  }

  lemma TailOfWalk(g: Graph, p: seq<int>)
    requires WellFormed(g) && Walk(g, p) && |p| > 1
    ensures p[1] in g.ids && Edge(g, p[0], p[1]) && Walk(g, p[1..])
  {
    assert StepAt(g, p, 1);
    var q := p[1..];
    forall i | 0 < i < |q| ensures StepAt(g, q, i) {
      assert StepAt(g, p, i + 1);
    }
  }

  // ------------------------------------------------------------ the search state

  /** The queue holds vertices with the distance at which they were put there, in order, and
      no more than one beyond the distance `level` of the last vertex visited. */
  ghost predicate QueueSorted(depths: seq<nat>, level: nat) {
    && (forall i, j :: 0 <= i < j < |depths| ==> depths[i] <= depths[j])
    && (forall i :: 0 <= i < |depths| ==> level <= depths[i] <= level + 1)
  }

  ghost predicate Queued(queue: seq<int>, depths: seq<nat>, v: int, n: nat) {
    |queue| == |depths| && exists i :: 0 <= i < |queue| && queue[i] == v && depths[i] <= n
  }

  ghost predicate Reached(dist: map<int, nat>, queue: seq<int>, depths: seq<nat>, v: int, n: nat) {
    (v in dist && dist[v] <= n) || Queued(queue, depths, v, n)
  }

  ghost predicate Search(g: Graph, start: int, dist: map<int, nat>, queue: seq<int>, depths: seq<nat>, level: nat) {
    && start in g.ids
    && |queue| == |depths| && QueueSorted(depths, level)
    && (forall i :: 0 <= i < |queue| ==> queue[i] in g.ids && Upstream(g, start, queue[i], depths[i]))
    && (forall v :: v in dist ==> v in g.ids && dist[v] <= level && Distance(g, start, v, dist[v]))
    && Reached(dist, queue, depths, start, 0)
    && (forall u, v {:trigger Edge(g, v, u)} :: u in dist && Edge(g, v, u) ==> Reached(dist, queue, depths, v, dist[u] + 1))
  }

  /** Whatever is upstream within `n` steps has been visited, or something at most that far
      away is still queued. */
  lemma {:induction false} SearchCovers(g: Graph, start: int, dist: map<int, nat>, queue: seq<int>,
                                        depths: seq<nat>, level: nat, v: int, n: nat)
    requires Search(g, start, dist, queue, depths, level) && Upstream(g, start, v, n)
    ensures (v in dist && dist[v] <= n) || exists i :: 0 <= i < |depths| && depths[i] <= n
    decreases n
  {
    if n > 0 {
      var u :| u in g.ids && Upstream(g, start, u, n - 1) && Edge(g, v, u);
      SearchCovers(g, start, dist, queue, depths, level, u, n - 1);
      if i :| 0 <= i < |depths| && depths[i] <= n - 1 {
        assert depths[i] <= n;
      } else {
        assert Reached(dist, queue, depths, v, dist[u] + 1);
      }
    }
  }

  /** The head of the queue, if not visited yet, is at its least distance. */
  lemma HeadIsNearest(g: Graph, start: int, dist: map<int, nat>, queue: seq<int>, depths: seq<nat>, level: nat)
    requires Search(g, start, dist, queue, depths, level) && queue != [] && queue[0] !in dist
    ensures Distance(g, start, queue[0], depths[0])
  {
    forall m: nat | Upstream(g, start, queue[0], m) ensures depths[0] <= m {
      SearchCovers(g, start, dist, queue, depths, level, queue[0], m);
    }
  }

  lemma ReachedAfterPop(dist: map<int, nat>, dist': map<int, nat>, queue: seq<int>, depths: seq<nat>,
                        more: seq<int>, deeper: seq<nat>, v: int, n: nat)
    requires |queue| == |depths| > 0 && |more| == |deeper|
    requires forall x :: x in dist ==> x in dist' && dist'[x] == dist[x]
    requires queue[0] in dist' && dist'[queue[0]] <= depths[0]
    requires Reached(dist, queue, depths, v, n)
    ensures Reached(dist', queue[1..] + more, depths[1..] + deeper, v, n)
  {
    if !(v in dist && dist[v] <= n) {
      var i :| 0 <= i < |queue| && queue[i] == v && depths[i] <= n;
      if i > 0 {
        assert (queue[1..] + more)[i - 1] == v && (depths[1..] + deeper)[i - 1] <= n;
      }
    }
  }

  lemma SkipVisited(g: Graph, start: int, dist: map<int, nat>, queue: seq<int>, depths: seq<nat>, level: nat)
    requires Search(g, start, dist, queue, depths, level) && queue != [] && queue[0] in dist
    ensures Search(g, start, dist, queue[1..], depths[1..], depths[0])
  {
    assert queue[1..] + [] == queue[1..] && depths[1..] + [] == depths[1..];
    ReachedAfterPop(dist, dist, queue, depths, [], [], start, 0);
    forall u, v | u in dist && Edge(g, v, u) ensures Reached(dist, queue[1..], depths[1..], v, dist[u] + 1) {
      ReachedAfterPop(dist, dist, queue, depths, [], [], v, dist[u] + 1);
    }
  }

  lemma VisitNext(g: Graph, start: int, dist: map<int, nat>, queue: seq<int>, depths: seq<nat>, level: nat,
                  deeper: seq<nat>)
    requires WellFormed(g) && Search(g, start, dist, queue, depths, level) && queue != [] && queue[0] !in dist
    requires |deeper| == |Preds(g, queue[0])| && forall i :: 0 <= i < |deeper| ==> deeper[i] == depths[0] + 1
    ensures queue[0] in g.ids && (forall v :: v in dist ==> v in g.ids && dist[v] <= depths[0])
    ensures Search(g, start, dist[queue[0] := depths[0]], queue[1..] + Preds(g, queue[0]), depths[1..] + deeper, depths[0])
  {
    var c, h := queue[0], depths[0];
    var dist' := dist[c := h];
    var preds := Preds(g, c);
    HeadIsNearest(g, start, dist, queue, depths, level);
    ReachedAfterPop(dist, dist', queue, depths, preds, deeper, start, 0);
    var queue', depths' := queue[1..] + preds, depths[1..] + deeper;
    forall u, v | u in dist' && Edge(g, v, u) ensures Reached(dist', queue', depths', v, dist'[u] + 1) {
      if u == c {
        var k :| 0 <= k < |preds| && preds[k] == v;
        assert queue'[|queue| - 1 + k] == v && depths'[|queue| - 1 + k] == h + 1;
      } else {
        ReachedAfterPop(dist, dist', queue, depths, preds, deeper, v, dist[u] + 1);
      }
    }
    forall i | 0 <= i < |queue'| ensures queue'[i] in g.ids && Upstream(g, start, queue'[i], depths'[i]) {
      if i < |queue| - 1 {
        assert queue'[i] == queue[i + 1] && depths'[i] == depths[i + 1];
      } else {
        var k := i - (|queue| - 1);
        assert queue'[i] == preds[k] && depths'[i] == h + 1;
        assert preds[k] in preds;
        assert Edge(g, preds[k], c);
      }
    }
  }

  lemma SearchStarts(g: Graph, start: int)
    requires start in g.ids
    ensures Search(g, start, map[], [start], [0], 0)
  {
    assert Queued([start], [0], start, 0) by {
      assert [start][0] == start && [0][0] <= 0;
    }
  }

  /** Once the queue is empty, exactly what is upstream has been visited. */
  lemma SearchEnds(g: Graph, start: int, dist: map<int, nat>, level: nat)
    requires Search(g, start, dist, [], [], level)
    ensures forall v, n: nat :: Distance(g, start, v, n) <==> v in dist && dist[v] == n
  {
    forall v, n: nat | Distance(g, start, v, n) ensures v in dist && dist[v] == n {
      SearchCovers(g, start, dist, [], [], level, v, n);
      assert Distance(g, start, v, dist[v]);
    }
  }

  // ------------------------------------------------------------- first one wins

  /** `key` has the value given by a nearest definition among the visited vertices. */
  ghost predicate FromNearest(outputs: Outputs, dist: map<int, nat>, key: string, value: string) {
    exists v :: v in dist && Defines(outputs, v, key) && outputs[v].value[key] == value
             && forall u :: u in dist && Defines(outputs, u, key) ==> dist[v] <= dist[u]
  }

  ghost predicate ScopeFits(outputs: Outputs, dist: map<int, nat>, scope: map<string, string>) {
    && (forall key :: key in scope ==> FromNearest(outputs, dist, key, scope[key]))
    && (forall v, key :: v in dist && Defines(outputs, v, key) ==> key in scope)
  }

  lemma ScopeGrows(outputs: Outputs, dist: map<int, nat>, c: int, h: nat,
                   scope: map<string, string>, scope': map<string, string>)
    requires ScopeFits(outputs, dist, scope) && c !in dist && forall v :: v in dist ==> dist[v] <= h
    requires forall key :: key in scope' <==> key in scope || Defines(outputs, c, key)
    requires forall key :: key in scope ==> key in scope' && scope'[key] == scope[key]
    requires forall key :: key !in scope && Defines(outputs, c, key) ==> key in scope' && scope'[key] == outputs[c].value[key]
    ensures ScopeFits(outputs, dist[c := h], scope')
  {
    var dist' := dist[c := h];
    forall key | key in scope' ensures FromNearest(outputs, dist', key, scope'[key]) {
      if key in scope {
        assert FromNearest(outputs, dist, key, scope[key]);
        var v :| v in dist && Defines(outputs, v, key) && outputs[v].value[key] == scope[key]
              && forall u :: u in dist && Defines(outputs, u, key) ==> dist[v] <= dist[u];
        assert v in dist' && dist'[v] == dist[v];
      } else {
        assert c in dist' && Defines(outputs, c, key);
      }
    }
  }

  /** Loads the variables whose names are not taken yet. */
  method LoadOutputVariables(scope: map<string, string>, vars: map<string, string>)
    returns (scope': map<string, string>)
    ensures forall key :: key in scope' <==> key in scope || key in vars
    ensures forall key :: key in scope' ==> scope'[key] == if key in scope then scope[key] else vars[key]
  {
    scope' := scope;
    var keys := vars.Keys;
    while keys != {}
      invariant keys <= vars.Keys
      invariant forall key :: key in scope' <==> key in scope || (key in vars && key !in keys)
      invariant forall key :: key in scope' ==> scope'[key] == if key in scope then scope[key] else vars[key]
      decreases |keys|
    {
      var key :| key in keys;
      if key !in scope' {
        scope' := scope'[key := vars[key]];
      }
      keys := keys - {key};
    }
  }

  /** What the search leaves is what the documentation of scoping asks for. */
  ghost predicate SeesNearest(g: Graph, outputs: Outputs, start: int, scope: map<string, string>) {
    && (forall v, n: nat, key :: Distance(g, start, v, n) && Defines(outputs, v, key) ==> key in scope)
    && (forall key :: key in scope ==> exists v, n: nat :: NearestDefinition(g, outputs, start, key, v, n, scope[key]))
  }

  ghost predicate NearestDefinition(g: Graph, outputs: Outputs, start: int, key: string, v: int, n: nat, value: string) {
    && Distance(g, start, v, n) && Defines(outputs, v, key) && outputs[v].value[key] == value
    && forall u, m: nat :: Distance(g, start, u, m) && Defines(outputs, u, key) ==> n <= m
  }

  lemma ScopeIsComplete(g: Graph, outputs: Outputs, start: int, dist: map<int, nat>, level: nat, scope: map<string, string>)
    requires Search(g, start, dist, [], [], level) && ScopeFits(outputs, dist, scope)
    ensures SeesNearest(g, outputs, start, scope)
  {
    SearchEnds(g, start, dist, level);
    forall key | key in scope
      ensures exists v, n: nat :: NearestDefinition(g, outputs, start, key, v, n, scope[key])
    {
      assert FromNearest(outputs, dist, key, scope[key]);
      var v :| v in dist && Defines(outputs, v, key) && outputs[v].value[key] == scope[key]
            && forall u :: u in dist && Defines(outputs, u, key) ==> dist[v] <= dist[u];
      assert Distance(g, start, v, dist[v]);
      assert NearestDefinition(g, outputs, start, key, v, dist[v], scope[key]);
    }
  }

  /** Loads what one step offers, if it offers anything. */
  method LoadFrom(outputs: Outputs, v: int, scope: map<string, string>) returns (scope': map<string, string>)
    ensures forall key :: key in scope' <==> key in scope || Defines(outputs, v, key)
    ensures forall key :: key in scope ==> key in scope' && scope'[key] == scope[key]
    ensures forall key :: key !in scope && Defines(outputs, v, key) ==> key in scope' && scope'[key] == outputs[v].value[key]
  {
    scope' := scope;
    if v in outputs && outputs[v].Some? {
      scope' := LoadOutputVariables(scope, outputs[v].value);
    }
  }

  /** The variables a step sees are exactly those defined upstream, itself included, and each
      has the value of a definition at the least distance. */
  method SetupContext(g: Graph, outputs: Outputs, start: int) returns (scope: map<string, string>)
    requires WellFormed(g) && start in g.ids
    ensures SeesNearest(g, outputs, start, scope)
  {
    hide Search, WellFormed, SeesNearest, ScopeFits, Defines;
    scope := map[];
    var visited: set<int> := {};
    var queue := [start];
    ghost var dist: map<int, nat>, depths: seq<nat>, level: nat := map[], [0], 0;
    SearchStarts(g, start);
    NothingInScope(outputs);
    while queue != []
      invariant Search(g, start, dist, queue, depths, level)
      invariant |depths| == |queue|
      invariant forall v :: v in visited <==> v in dist
      invariant ScopeFits(outputs, dist, scope)
      decreases |IdSet(g) - visited|, |queue|
    {
      var curr := queue[0];
      if curr in visited {
        SkipVisited(g, start, dist, queue, depths, level);
        queue, depths, level := queue[1..], depths[1..], depths[0];
        continue;
      }
      ghost var h := depths[0];
      ghost var deeper := seq(|Preds(g, curr)|, _ => h + 1);
      VisitNext(g, start, dist, queue, depths, level, deeper);
      OneFewer(IdSet(g), visited, curr);
      visited := visited + {curr};
      queue, depths, level := queue[1..] + Preds(g, curr), depths[1..] + deeper, h;
      ghost var before := scope;
      scope := LoadFrom(outputs, curr, scope);
      ScopeGrows(outputs, dist, curr, h, before, scope);
      dist := dist[curr := h];
    }
    ScopeIsComplete(g, outputs, start, dist, level, scope);
  }

  lemma NothingInScope(outputs: Outputs)
    ensures ScopeFits(outputs, map[], map[])
  {
  }
}
