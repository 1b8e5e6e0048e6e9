/** Safety over whole runs: dependency order, what a retried run leaves alone, cancellation. */
module Runs {
  import opened Digraph
  import opened Nodes
  import opened Engine
  import opened Safety
  import opened ExecutionGraphs
  import opened Wrappers

  /** How an action moves the scanner. */
  lemma ScannerMoves(cfg: Config, s: State, a: Action)
    requires Shape(cfg, s)
    ensures var s' := Next(cfg, s, a);
            && (s.canceled ==> s'.canceled)
            && (!a.Scan? || s.scan.Left? ==> s'.scan == s.scan)
            && (a.Scan? && !ChecksDependency(cfg, s.scan) ==> s'.scan == NextPc(cfg, s))
            && (a.Scan? && ChecksDependency(cfg, s.scan) ==>
                  s'.scan.Dependency? && s'.scan.i == s.scan.i && s'.scan.j == s.scan.j + 1)
  {
    hide CheckDependency, Proceed;
  }

  /** The scanner takes up only steps that have not started. */
  lemma TakesUpUnstarted(cfg: Config, s: State)
    requires Shape(cfg, s) && !ChecksDependency(cfg, s.scan)
    ensures var pc := NextPc(cfg, s);
            pc.Dependency? ==> Status(s, cfg.g.ids[pc.i]) == NotStarted
  {
  }

  ghost predicate ValidConfig(cfg: Config) {
    WellFormed(cfg.g) && Acyclic(cfg.g)
  }

  lemma {:induction false} InvHolds(cfg: Config, s0: State, acts: nat -> Action, t: nat)
    requires ValidConfig(cfg) && Init(cfg, s0)
    ensures Inv(cfg, At(cfg, s0, acts, t)) && NoSelfLoop(cfg.g)
    decreases t
  {
    hide Inv, Next;
    AcyclicHasNoSelfLoop(cfg.g);
    if t == 0 {
      InitHasInv(cfg, s0);
    } else {
      InvHolds(cfg, s0, acts, t - 1);
      NextKeepsInv(cfg, At(cfg, s0, acts, t - 1), acts(t - 1));
    }
  }

  lemma InitHasInv(cfg: Config, s: State)
    requires Init(cfg, s)
    ensures Inv(cfg, s)
  {
    assert cfg.g.ids[..0] == [];
  }

  // --------------------------------------------------------- dependency order

  /** A settled step never becomes startable or running again. */
  lemma {:induction false} FinishedForever(cfg: Config, s0: State, acts: nat -> Action, t: nat, t': nat, v: int)
    requires ValidConfig(cfg) && Init(cfg, s0) && t <= t' && v in cfg.g.ids
    requires Settled(At(cfg, s0, acts, t), v)
    ensures Settled(At(cfg, s0, acts, t'), v)
    decreases t' - t
  {
    hide Next, Inv, ValidConfig, Passed, Settled;
    if t < t' {
      FinishedForever(cfg, s0, acts, t, t' - 1, v);
      InvHolds(cfg, s0, acts, t' - 1);
      var s := At(cfg, s0, acts, t' - 1);
      NextKeepsInv(cfg, s, acts(t' - 1));
      assert Evolves(cfg, s, Next(cfg, s, acts(t' - 1)), v);
    }
  }

  /** When a step starts, it has not been started since it was last reset, and each of its
      dependencies has finished.  It lets the step pass, unless it was a success whose teardown
      failed and nothing else says to go on. */
  lemma LaunchIsSafe(cfg: Config, s0: State, acts: nat -> Action, t: nat, v: int)
    requires ValidConfig(cfg) && Init(cfg, s0)
    requires Launches(cfg, At(cfg, s0, acts, t), acts(t), v)
    ensures var s := At(cfg, s0, acts, t);
            && Pristine(s, v)
            && forall d :: Edge(cfg.g, d, v) ==>
                 && Settled(s, d)
                 && (Continues(s.nodes[d]) <==> d !in s.tornDown || GoesOnRegardless(s.nodes[d]))
  {
    InvHolds(cfg, s0, acts, t);
    var s := At(cfg, s0, acts, t);
    var preds := Preds(cfg.g, v);
    assert preds[..|preds|] == preds;
    forall d | Edge(cfg.g, d, v) ensures Passed(s, d) && (d in s.tornDown ==> Status(s, d) == Error) {
      assert d in preds[..|preds|];
      assert d in cfg.g.ids;
      assert Sound(s, d);
    }
  }

  /** A failure of the step would not hold back its dependents. */
  predicate GoesOnRegardless(d: NodeData) {
    d.step.continueOn.failure || d.decision == Some(true)
  }

  /** At that moment the teardown of `d` fails, and `d` has been reported successful. */
  ghost predicate TeardownFailsAt(cfg: Config, s0: State, acts: nat -> Action, k: nat, d: int)
    requires Shape(cfg, s0) && d in cfg.g.ids
  {
    var s := At(cfg, s0, acts, k);
    IsWorkOf(acts(k), d) && s.workers[d] == TearingDown && Status(s, d) == Success && !acts(k).event.ok
  }

  ghost predicate TeardownFailed(cfg: Config, s0: State, acts: nat -> Action, t: nat, d: int)
    requires Shape(cfg, s0) && d in cfg.g.ids
  {
    exists k: nat :: k < t && TeardownFailsAt(cfg, s0, acts, k, d)
  }

  lemma TearingStep(cfg: Config, s: State, a: Action, d: int)
    requires Shape(cfg, s) && d in cfg.g.ids
    ensures d in Next(cfg, s, a).tornDown <==>
              d in s.tornDown
              || (IsWorkOf(a, d) && s.workers[d] == TearingDown && Status(s, d) == Success && !a.event.ok)
  {
    hide NextPc, Inspect;
  }

  /** The steps remembered as torn down are those whose teardown failed. */
  lemma {:induction false} TornDownByEvent(cfg: Config, s0: State, acts: nat -> Action, t: nat, d: int)
    requires Init(cfg, s0) && d in cfg.g.ids
    ensures d in At(cfg, s0, acts, t).tornDown <==> TeardownFailed(cfg, s0, acts, t, d)
    decreases t
  {
    hide Next, TeardownFailsAt;
    if t > 0 {
      TornDownByEvent(cfg, s0, acts, t - 1, d);
      TearingStep(cfg, At(cfg, s0, acts, t - 1), acts(t - 1), d);
      TeardownFailsThen(cfg, s0, acts, t - 1, d);
    }
  }

  lemma TeardownFailsThen(cfg: Config, s0: State, acts: nat -> Action, k: nat, d: int)
    requires Shape(cfg, s0) && d in cfg.g.ids
    ensures TeardownFailsAt(cfg, s0, acts, k, d) <==>
              var s := At(cfg, s0, acts, k);
              IsWorkOf(acts(k), d) && s.workers[d] == TearingDown && Status(s, d) == Success && !acts(k).event.ok
  {
    hide At;
  }

  /** When a step starts, a dependency holds it back for all that is known then exactly if its
      teardown failed after it had succeeded and it does not allow failure. */
  lemma DependenciesAllowLaunch(cfg: Config, s0: State, acts: nat -> Action, t: nat, v: int, d: int)
    requires ValidConfig(cfg) && Init(cfg, s0) && Edge(cfg.g, d, v)
    requires Launches(cfg, At(cfg, s0, acts, t), acts(t), v)
    ensures d in cfg.g.ids
    ensures var dep := At(cfg, s0, acts, t).nodes[d];
            Continues(dep) <==> !TeardownFailed(cfg, s0, acts, t, d) || GoesOnRegardless(dep)
  {
    hide At, Next, Continues, TeardownFailed;
    LaunchIsSafe(cfg, s0, acts, t, v);
    TornDownByEvent(cfg, s0, acts, t, d);
  }

  /** If no teardown ever fails, every dependency lets every step pass that is started. */
  lemma NoFailingTeardownNoException(cfg: Config, s0: State, acts: nat -> Action, t: nat, v: int)
    requires ValidConfig(cfg) && Init(cfg, s0)
    requires forall k: nat, d :: d in cfg.g.ids ==> !TeardownFailsAt(cfg, s0, acts, k, d)
    requires Launches(cfg, At(cfg, s0, acts, t), acts(t), v)
    ensures forall d :: Edge(cfg.g, d, v) ==> d in cfg.g.ids && Continues(At(cfg, s0, acts, t).nodes[d])
  {
    hide At, Next, Continues, TeardownFailsAt;
    forall d | Edge(cfg.g, d, v) ensures d in cfg.g.ids && Continues(At(cfg, s0, acts, t).nodes[d]) {
      DependenciesAllowLaunch(cfg, s0, acts, t, v, d);
    }
  }

  /** Every start of a dependency comes before every start of its dependents. */
  lemma StartsFollowDependencies(cfg: Config, s0: State, acts: nat -> Action, t: nat, v: int, t': nat, d: int)
    requires ValidConfig(cfg) && Init(cfg, s0) && Edge(cfg.g, d, v)
    requires Launches(cfg, At(cfg, s0, acts, t), acts(t), v)
    requires Launches(cfg, At(cfg, s0, acts, t'), acts(t'), d)
    ensures t' < t
  {
    LaunchIsSafe(cfg, s0, acts, t, v);
    LaunchIsSafe(cfg, s0, acts, t', d);
    if t <= t' {
      FinishedForever(cfg, s0, acts, t, t', d);
      assert false;
    }
  }

  // ------------------------------------------------------- what is never started

  ghost predicate LaunchedAt(cfg: Config, s0: State, acts: nat -> Action, k: nat, v: int)
    requires Shape(cfg, s0)
  {
    Launches(cfg, At(cfg, s0, acts, k), acts(k), v)
  }

  ghost predicate NeverLaunched(cfg: Config, s0: State, acts: nat -> Action, t: nat, v: int)
    requires Shape(cfg, s0)
  {
    forall k: nat :: k < t ==> !LaunchedAt(cfg, s0, acts, k, v)
  }

  /** The scanner looks at a dependency of `v` that bars it for good. */
  ghost predicate BarsAt(cfg: Config, s: State, a: Action, v: int)
    requires Shape(cfg, s)
  {
    && a.Scan? && ChecksDependency(cfg, s.scan) && cfg.g.ids[s.scan.i] == v
    && var d := Preds(cfg.g, v)[s.scan.j];
    d in s.nodes && Inspect(s.nodes[d], a.log).verdict.Bar?
  }

  ghost predicate Barred(cfg: Config, s0: State, acts: nat -> Action, t: nat, v: int)
    requires Shape(cfg, s0)
  {
    exists k: nat :: k < t && BarsAt(cfg, At(cfg, s0, acts, k), acts(k), v)
  }

  /** No worker has touched it; it is finished only if it has been barred. */
  ghost predicate AsideFits(s: State, v: int, barred: bool) {
    && v in s.nodes && v in s.workers && s.workers[v] == Idle
    && Status(s, v) in {NotStarted, Cancel, Skipped}
    && (Status(s, v) == NotStarted <==> !barred)
  }

  lemma StaysAside(cfg: Config, s: State, a: Action, v: int, barred: bool)
    requires Inv(cfg, s) && NoSelfLoop(cfg.g) && v in cfg.g.ids && !Launches(cfg, s, a, v) && AsideFits(s, v, barred)
    ensures AsideFits(Next(cfg, s, a), v, barred || BarsAt(cfg, s, a, v))
  {
    hide NextPc, Inspect, HandleResult, DepsPassed, Sound;
    if a.Scan? && ChecksDependency(cfg, s.scan) {
      var d := Preds(cfg.g, cfg.g.ids[s.scan.i])[s.scan.j];
      assert d in Preds(cfg.g, cfg.g.ids[s.scan.i]) && !Edge(cfg.g, v, v);
      InspectionEffect(s.nodes[d], a.log);
    }
  }

  lemma {:induction false} AsideThroughout(cfg: Config, s0: State, acts: nat -> Action, t: nat, v: int)
    requires ValidConfig(cfg) && Init(cfg, s0) && v in cfg.g.ids && Status(s0, v) == NotStarted
    requires NeverLaunched(cfg, s0, acts, t, v)
    ensures AsideFits(At(cfg, s0, acts, t), v, Barred(cfg, s0, acts, t, v))
    decreases t
  {
    hide Next, Inv, Launches, BarsAt, Barred, AsideFits, WellFormed, Acyclic, InRange;
    if t == 0 {
      AsideAtFirst(cfg, s0, v);
      NotBarredAtFirst(cfg, s0, acts, v);
    } else {
      AsideThroughout(cfg, s0, acts, t - 1, v);
      InvHolds(cfg, s0, acts, t - 1);
      BarredOnceMore(cfg, s0, acts, t - 1, v);
      assert !LaunchedAt(cfg, s0, acts, t - 1, v);
      StaysAside(cfg, At(cfg, s0, acts, t - 1), acts(t - 1), v, Barred(cfg, s0, acts, t - 1, v));
    }
  }

  lemma NotBarredAtFirst(cfg: Config, s0: State, acts: nat -> Action, v: int)
    requires Shape(cfg, s0)
    ensures !Barred(cfg, s0, acts, 0, v)
  {
  }

  lemma BarredOnceMore(cfg: Config, s0: State, acts: nat -> Action, t: nat, v: int)
    requires Shape(cfg, s0)
    ensures Barred(cfg, s0, acts, t + 1, v) <==>
              Barred(cfg, s0, acts, t, v) || BarsAt(cfg, At(cfg, s0, acts, t), acts(t), v)
  {
    hide BarsAt, At;
  }

  lemma AsideAtFirst(cfg: Config, s0: State, v: int)
    requires Init(cfg, s0) && v in cfg.g.ids && Status(s0, v) == NotStarted
    ensures AsideFits(s0, v, false)
  {
  }

  /** A step that has never been started is finished exactly if a look at a dependency has
      barred it: nothing is held back without a reason, and nothing barred comes back. */
  lemma HeldBackForAReason(cfg: Config, s0: State, acts: nat -> Action, t: nat, v: int)
    requires ValidConfig(cfg) && Init(cfg, s0) && v in cfg.g.ids && Status(s0, v) == NotStarted
    requires NeverLaunched(cfg, s0, acts, t, v)
    ensures Finished(Status(At(cfg, s0, acts, t), v)) <==> Barred(cfg, s0, acts, t, v)
  {
    hide Barred, NeverLaunched, Next, ValidConfig;
    AsideThroughout(cfg, s0, acts, t, v);
  }

  // ------------------------------------------------------------ retried runs

  ghost predicate ScansFreshNode(cfg: Config, s0: State, s: State) {
    match s.scan
    case Dependency(i, _, _) => FreshAt(cfg, s0, i)
    case Gate(i) => FreshAt(cfg, s0, i)
    case Count(i, _, _) => FreshAt(cfg, s0, i)
    case Launch(i) => FreshAt(cfg, s0, i)
    case _ => true
  }

  ghost predicate FreshAt(cfg: Config, s0: State, i: nat) {
    i < |cfg.g.ids| && cfg.g.ids[i] in s0.nodes && Status(s0, cfg.g.ids[i]) == NotStarted
  }

  ghost predicate KeptSince(s0: State, s: State, v: int) {
    && v in s0.nodes && v in s.nodes && v in s.workers
    && (Status(s0, v) != NotStarted ==> s.nodes[v].state == s0.nodes[v].state && s.workers[v] == Idle)
  }

  lemma StillScansFreshNode(cfg: Config, s0: State, s: State, a: Action)
    requires Shape(cfg, s) && ScansFreshNode(cfg, s0, s)
    requires forall v :: v in cfg.g.ids ==> KeptSince(s0, s, v)
    ensures ScansFreshNode(cfg, s0, Next(cfg, s, a))
  {
    ScannerMoves(cfg, s, a);
    hide Next;
    if s.scan.Visit? && s.scan.i < |cfg.g.ids| {
      assert KeptSince(s0, s, cfg.g.ids[s.scan.i]);
    }
  }

  lemma NextKeepsOldResults(cfg: Config, s0: State, s: State, a: Action)
    requires Inv(cfg, s) && NoSelfLoop(cfg.g) && ScansFreshNode(cfg, s0, s)
    requires forall v :: v in cfg.g.ids ==> KeptSince(s0, s, v) && Status(s0, v) != Running
    ensures forall v :: v in cfg.g.ids ==> KeptSince(s0, Next(cfg, s, a), v)
  {
    var s' := Next(cfg, s, a);
    if a.Scan? && ChecksDependency(cfg, s.scan) {
      InspectionEffect(s.nodes[Preds(cfg.g, cfg.g.ids[s.scan.i])[s.scan.j]], a.log);
    }
    hide Inspect, NextPc, ScanFits, Sound;
    forall v | v in cfg.g.ids ensures KeptSince(s0, s', v) {
      assert KeptSince(s0, s, v);
    }
  }

  /** Steps that were finished at the outset keep their outcome and are never started. */
  lemma {:induction false} OldResultsStay(cfg: Config, s0: State, acts: nat -> Action, t: nat)
    requires ValidConfig(cfg) && Init(cfg, s0)
    ensures ScansFreshNode(cfg, s0, At(cfg, s0, acts, t))
    ensures forall v :: v in cfg.g.ids ==> KeptSince(s0, At(cfg, s0, acts, t), v)
    decreases t
  {
    hide Next, Inv;
    if t > 0 {
      OldResultsStay(cfg, s0, acts, t - 1);
      InvHolds(cfg, s0, acts, t - 1);
      StillScansFreshNode(cfg, s0, At(cfg, s0, acts, t - 1), acts(t - 1));
      NextKeepsOldResults(cfg, s0, At(cfg, s0, acts, t - 1), acts(t - 1));
    }
  }

  /** The run begins with what preparing `before` for a retry leaves. */
  ghost predicate PreparedFrom(cfg: Config, before: map<int, NodeData>, s0: State)
    requires Shape(cfg, s0)
  {
    forall v :: v in cfg.g.ids ==>
      && v in before && before[v].state.status != Running
      && s0.nodes[v] == if Affected(cfg.g, before, v) then Cleared(before[v]) else before[v]
  }

  /** From the nodes of an earlier run to the beginning of the retried one. */
  method BeginRetry(nodes: seq<NodeData>, firstId: int, cap: int)
    returns (r: SetupResult, run: Option<(Config, State)>, ghost before: map<int, NodeData>)
    ensures r.Ready? <==> run.Some?
    ensures RefusedFor(nodes, r)
    ensures run.Some? ==>
              var (cfg, s0) := run.value;
              && ValidConfig(cfg) && cfg.cap == cap && |cfg.g.ids| == |nodes|
              && (forall i :: 0 <= i < |nodes| ==> cfg.g.ids[i] in before && before[cfg.g.ids[i]] == nodes[i])
              && ((forall i :: 0 <= i < |nodes| ==> nodes[i].state.status != Running) ==>
                    Init(cfg, s0) && PreparedFrom(cfg, before, s0))
  {
    hide Affected, WellFormed, Acyclic, LinksOf, RefusedFor;
    var graph;
    r, graph, before := CreateRetryExecutionGraph(nodes, firstId);
    run := None;
    if graph != null {
      var cfg := Config(Graph(graph.ids, graph.from, graph.to), cap);
      assert cfg.g == graph.View();
      var s0 := State(graph.dict, map v | v in graph.dict :: Idle, IsFinished(0), false, false, false, {});
      run := Some((cfg, s0));
      DependenciesInside(cfg.g);
      if forall i :: 0 <= i < |nodes| ==> nodes[i].state.status != Running {
        forall v | v in cfg.g.ids ensures before[v].state.status != Running {
          var i :| 0 <= i < |cfg.g.ids| && cfg.g.ids[i] == v;
          assert before[v] == nodes[i];
        }
      }
    }
  }

  lemma DependenciesInside(g: Graph)
    requires WellFormed(g)
    ensures DependenciesKnown(g)
  {
    forall v, d | v in g.ids && d in Preds(g, v) ensures d in g.ids {
      assert Edge(g, d, v);
    }
  }

  /** A retried run starts only steps that had not started, or failed or were cancelled, or
      depend on such a step; the others keep their results throughout. */
  lemma RetryTouchesOnlyAffected(cfg: Config, before: map<int, NodeData>, s0: State,
                                 acts: nat -> Action, t: nat, v: int)
    requires ValidConfig(cfg) && Init(cfg, s0) && PreparedFrom(cfg, before, s0) && v in cfg.g.ids
    ensures var s := At(cfg, s0, acts, t);
            var open := before[v].state.status == NotStarted || Affected(cfg.g, before, v);
            && (Launches(cfg, s, acts(t), v) ==> open)
            && (!open ==> s.nodes[v].state == before[v].state)
  {
    hide Affected, Next, Inv;
    OldResultsStay(cfg, s0, acts, t);
    assert KeptSince(s0, At(cfg, s0, acts, t), v);
    if Launches(cfg, At(cfg, s0, acts, t), acts(t), v) {
      LaunchIsSafe(cfg, s0, acts, t, v);
    }
  }

  // ------------------------------------------------------------- cancellation

  lemma {:induction false} CanceledForever(cfg: Config, s0: State, acts: nat -> Action, t: nat, t': nat)
    requires Shape(cfg, s0) && t <= t' && At(cfg, s0, acts, t).canceled
    ensures At(cfg, s0, acts, t').canceled
    decreases t' - t
  {
    hide Next;
    if t < t' {
      CanceledForever(cfg, s0, acts, t, t' - 1);
      ScannerMoves(cfg, At(cfg, s0, acts, t' - 1), acts(t' - 1));
    }
  }

  /** The flags are set by what sets them, and by nothing else. */
  lemma {:induction false} FlagsByEvent(cfg: Config, s0: State, acts: nat -> Action, t: nat)
    requires Init(cfg, s0)
    ensures At(cfg, s0, acts, t).canceled <==> exists k: nat :: k < t && acts(k) == SetCanceled
    ensures At(cfg, s0, acts, t).expired <==> exists k: nat :: k < t && acts(k) == Expire
    decreases t
  {
    hide Next;
    if t > 0 {
      FlagsByEvent(cfg, s0, acts, t - 1);
      FlagStep(cfg, At(cfg, s0, acts, t - 1), acts(t - 1));
    }
  }

  lemma FlagStep(cfg: Config, s: State, a: Action)
    requires Shape(cfg, s)
    ensures Next(cfg, s, a).canceled <==> s.canceled || a == SetCanceled
    ensures Next(cfg, s, a).expired <==> s.expired || a == Expire
  {
    hide NextPc, Proceed;
  }

  // The distance of a scanner position from the end of the scan.

  ghost function PassCost(g: Graph, i: nat): (c: nat)
    ensures c > 0
    decreases |g.ids| - i
  {
    if i >= |g.ids| then |g.ids| + 3
    else |Preds(g, g.ids[i])| + |g.ids| + 7 + PassCost(g, i + 1)
  }

  ghost function Rank(g: Graph, pc: ScanPc): nat
    requires InRange(g, pc)
  {
    var n := |g.ids|;
    match pc
    case Left => 0
    case CheckCanceled => 1
    case IsFinished(k) => n - k + 2
    case Visit(i) => PassCost(g, i)
    case Dependency(i, j, _) => |Preds(g, g.ids[i])| - j + n + 5 + PassCost(g, i + 1)
    case Gate(i) => n + 4 + PassCost(g, i + 1)
    case Count(i, k, _) => n - k + 2 + PassCost(g, i + 1)
    case Launch(i) => 1 + PassCost(g, i + 1)
  }

  lemma OnlyLeftHasRankZero(g: Graph, pc: ScanPc)
    requires InRange(g, pc)
    ensures Rank(g, pc) == 0 <==> pc.Left?
  {
  }

  lemma PassCostStep(g: Graph, i: nat)
    requires i <= |g.ids|
    ensures i == |g.ids| ==> PassCost(g, i) == |g.ids| + 3
    ensures i < |g.ids| ==> PassCost(g, i) == |Preds(g, g.ids[i])| + |g.ids| + 7 + PassCost(g, i + 1)
  {
  }

  lemma NextPcIsNearer(cfg: Config, s: State)
    requires Shape(cfg, s) && !ChecksDependency(cfg, s.scan)
    requires !s.scan.Left? && (s.scan.CheckCanceled? ==> s.canceled)
    ensures Rank(cfg.g, NextPc(cfg, s)) < Rank(cfg.g, s.scan)
  {
    if s.scan.Visit? {
      PassCostStep(cfg.g, s.scan.i);
    }
    hide PassCost;
    match s.scan
    case Visit(i) =>
    case Count(i, k, c) =>
    case Dependency(i, j, ready) =>
    case _ =>
  }
}
