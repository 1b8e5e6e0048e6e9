/** Deadlock freedom and termination: as long as nobody cancels, a scan with no worker at
    work always finds something to start, bar or conclude, so a fair run ends. */
module Liveness {
  import opened Digraph
  import opened Nodes
  import opened Engine
  import opened Safety
  import opened Runs
  import opened Verdicts
  import opened Progress
  import opened Interleavings
  import opened Wrappers

  ghost predicate AllIdle(cfg: Config, s: State)
    requires Shape(cfg, s)
  {
    forall v :: v in cfg.g.ids ==> s.workers[v] == Idle
  }

  /** What the scanner heads for: a step that has not started but whose dependencies have all
      finished, or, past the last node, the end. */
  ghost predicate Goal(cfg: Config, s: State, goal: nat)
    requires Shape(cfg, s)
  {
    if goal < |cfg.g.ids| then
      && Status(s, cfg.g.ids[goal]) == NotStarted
      && forall d :: d in Preds(cfg.g, cfg.g.ids[goal]) ==> d in cfg.g.ids && Finished(Status(s, d))
    else AllFinished(cfg, s)
  }

  /** The scanner is in a pass that has not dealt with the goal yet; what it has read of the
      goal so far, if anything, is not out of date. */
  predicate Ahead(pc: ScanPc, goal: nat) {
    match pc
    case Visit(i) => i <= goal
    case Dependency(i, _, ready) => i < goal || (i == goal && ready)
    case Gate(i) => i <= goal
    case Count(i, _, c) => i < goal || (i == goal && c == 0)
    case Launch(i) => i <= goal
    case _ => false
  }

  /** Passes still needed before the goal is dealt with. */
  function Lap(cfg: Config, pc: ScanPc, goal: nat): nat {
    if goal < |cfg.g.ids| then (if Ahead(pc, goal) then 0 else 1)
    else (if pc.CheckCanceled? then 1 else 0)
  }

  /** Without cycles there is always a goal. */
  lemma GoalExists(cfg: Config, s: State) returns (goal: nat)
    requires ValidConfig(cfg) && Inv(cfg, s) && AllIdle(cfg, s) && !s.canceled
    ensures goal <= |cfg.g.ids| && Goal(cfg, s, goal)
  {
    forall v | v in cfg.g.ids ensures Finished(Status(s, v)) || Status(s, v) == NotStarted {
      assert Sound(s, v);
    }
    var open := set v | v in cfg.g.ids && Status(s, v) == NotStarted;
    if open == {} {
      forall v | v in cfg.g.ids ensures Finished(Status(s, v)) {
        assert v !in open;
      }
      goal := |cfg.g.ids|;
    } else {
      forall v | v in open ensures v in IdSet(cfg.g) {
      }
      var v := AcyclicSetHasSource(cfg.g, open);
      assert v in cfg.g.ids;
      goal :| 0 <= goal < |cfg.g.ids| && cfg.g.ids[goal] == v;
      forall d | d in Preds(cfg.g, v) ensures d in cfg.g.ids && Finished(Status(s, d)) {
        assert Edge(cfg.g, d, v);
        assert d !in open;
      }
    }
  }

  ghost predicate SameStandstill(cfg: Config, s: State, s': State)
    requires Shape(cfg, s) && Shape(cfg, s')
  {
    && s'.workers == s.workers
    && forall v :: v in cfg.g.ids ==>
         && (Status(s', v) == NotStarted <==> Status(s, v) == NotStarted)
         && (Finished(Status(s', v)) <==> Finished(Status(s, v)))
  }

  lemma NothingRuns(cfg: Config, s: State)
    requires Inv(cfg, s) && AllIdle(cfg, s) && !s.canceled
    ensures forall v :: v in cfg.g.ids ==> Status(s, v) != Running
  {
    forall v | v in cfg.g.ids ensures Status(s, v) != Running {
      assert Sound(s, v);
    }
  }

  ghost predicate Nearer(cfg: Config, pc: ScanPc, pc': ScanPc, goal: nat)
    requires InRange(cfg.g, pc) && InRange(cfg.g, pc')
  {
    || Lap(cfg, pc', goal) < Lap(cfg, pc, goal)
    || (Lap(cfg, pc', goal) == Lap(cfg, pc, goal) && Rank(cfg.g, pc') < Rank(cfg.g, pc))
  }

  /** A move of the scanner among its positions brings it nearer to the goal. */
  lemma NextPcApproaches(cfg: Config, s: State, goal: nat)
    requires Shape(cfg, s) && goal <= |cfg.g.ids| && Goal(cfg, s, goal) && !s.canceled
    requires !ChecksDependency(cfg, s.scan) && !s.scan.Left?
    requires s.scan.Count? ==> cfg.cap > 0
    requires forall v :: v in cfg.g.ids ==> Status(s, v) != Running
    requires goal == |cfg.g.ids| || s.scan != Launch(goal)
    ensures Nearer(cfg, s.scan, NextPc(cfg, s), goal)
  {
    if !s.scan.CheckCanceled? {
      NextPcIsNearer(cfg, s);
    }
    hide Rank, PassCost;
    if s.scan.Count? && s.scan.k < |cfg.g.ids| {
      var v := cfg.g.ids[s.scan.k];
      assert v in cfg.g.ids;
    }
    if s.scan.IsFinished? && s.scan.k < |cfg.g.ids| {
      var v := cfg.g.ids[s.scan.k];
      assert v in cfg.g.ids;
    }
  }

  /** Reading a dependency either bars a step or brings the scanner nearer. */
  lemma CheckApproaches(cfg: Config, s: State, log: LogProbe, goal: nat)
    requires Inv(cfg, s) && NoSelfLoop(cfg.g) && goal <= |cfg.g.ids| && Goal(cfg, s, goal)
    requires ChecksDependency(cfg, s.scan)
    ensures var s' := CheckDependency(cfg, s, log);
            || Total(cfg, s') < Total(cfg, s)
            || (SameStandstill(cfg, s, s') && Nearer(cfg, s.scan, s'.scan, goal))
  {
    var v := cfg.g.ids[s.scan.i];
    var d := Preds(cfg.g, v)[s.scan.j];
    CheckOutcome(cfg, s, log, v, d);
    CheckAddsNoWork(cfg, s, log);
    hide CheckDependency, Total, TotalBudget, Sound, PassCost;
    var s' := CheckDependency(cfg, s, log);
    SumsFall(cfg, s, s');
    assert v in cfg.g.ids;
    if Status(s, v) == NotStarted && Status(s', v) != NotStarted {
      assert Weight(s', v) < Weight(s, v);
    }
  }

  /** With no worker at work, every move of the scanner leaves less to do or is a step
      towards the goal. */
  lemma ScanApproaches(cfg: Config, s: State, log: LogProbe, goal: nat)
    requires Inv(cfg, s) && NoSelfLoop(cfg.g) && AllIdle(cfg, s) && !s.canceled && !s.scan.Left?
    requires goal <= |cfg.g.ids| && Goal(cfg, s, goal)
    ensures var s' := ScanStep(cfg, s, log);
            || Total(cfg, s') < Total(cfg, s)
            || (SameStandstill(cfg, s, s') && Nearer(cfg, s.scan, s'.scan, goal))
  {
    hide Total, CheckDependency, Nearer, Goal;
    if ChecksDependency(cfg, s.scan) {
      CheckApproaches(cfg, s, log, goal);
    } else if s.scan.Launch? {
      LaunchTakesWork(cfg, s, log);
      SumsFall(cfg, s, ScanStep(cfg, s, log));
      var v := cfg.g.ids[s.scan.i];
      assert v in cfg.g.ids;
    } else {
      NothingRuns(cfg, s);
      NextPcApproaches(cfg, s, goal);
      hide NextPc;
    }
  }

  lemma GoalStays(cfg: Config, s: State, s': State, goal: nat)
    requires Shape(cfg, s) && Shape(cfg, s') && SameStandstill(cfg, s, s')
    requires Goal(cfg, s, goal) && AllIdle(cfg, s)
    ensures Goal(cfg, s', goal) && AllIdle(cfg, s')
  {
    if goal < |cfg.g.ids| {
      var v := cfg.g.ids[goal];
      assert v in cfg.g.ids;
    }
  }

  // ------------------------------------------------------------------ fairness

  ghost predicate ScansFrom(acts: nat -> Action, t: nat) {
    exists t' :: t' >= t && acts(t').Scan?
  }

  ghost predicate WorksFrom(acts: nat -> Action, v: int, t: nat) {
    exists t' :: t' >= t && IsWorkOf(acts(t'), v)
  }

  /** The scanner and every worker move again and again. */
  ghost predicate Fair(cfg: Config, acts: nat -> Action) {
    && (forall t: nat :: ScansFrom(acts, t))
    && (forall v, t: nat :: v in cfg.g.ids ==> WorksFrom(acts, v, t))
  }

  ghost predicate NeverCanceled(cfg: Config, s0: State, acts: nat -> Action)
    requires Shape(cfg, s0)
  {
    forall t: nat :: !At(cfg, s0, acts, t).canceled
  }

  lemma {:induction false} NextScan(acts: nat -> Action, t: nat, bound: nat) returns (t': nat)
    requires t <= bound && acts(bound).Scan?
    ensures t <= t' && acts(t').Scan? && forall k :: t <= k < t' ==> !acts(k).Scan?
    decreases bound - t
  {
    if acts(t).Scan? {
      t' := t;
    } else {
      t' := NextScan(acts, t + 1, bound);
    }
  }

  /** While no worker works, nobody but the scanner changes anything that matters. */
  lemma OnlyTheClockTicks(cfg: Config, s: State, a: Action)
    requires Shape(cfg, s) && AllIdle(cfg, s) && !a.Scan? && !Next(cfg, s, a).canceled
    ensures Next(cfg, s, a) == s.(expired := Next(cfg, s, a).expired)
  {
    if a.Work? && a.node in cfg.g.ids {
      var v := a.node;
      assert s.nodes[v := s.nodes[v]] == s.nodes;
      assert s.workers[v := s.workers[v]] == s.workers;
    }
  }

  lemma {:induction false} Waiting(cfg: Config, s0: State, acts: nat -> Action, t: nat, t': nat)
    requires Shape(cfg, s0) && t <= t' && NeverCanceled(cfg, s0, acts) && AllIdle(cfg, At(cfg, s0, acts, t))
    requires forall k :: t <= k < t' ==> !acts(k).Scan?
    ensures At(cfg, s0, acts, t') == At(cfg, s0, acts, t).(expired := At(cfg, s0, acts, t').expired)
    decreases t' - t
  {
    hide Next;
    if t < t' {
      Waiting(cfg, s0, acts, t, t' - 1);
      var s := At(cfg, s0, acts, t' - 1);
      assert AllIdle(cfg, s);
      assert !At(cfg, s0, acts, t').canceled;
      OnlyTheClockTicks(cfg, s, acts(t' - 1));
    }
  }

  lemma {:induction false} WorkNeverGrows(cfg: Config, s0: State, acts: nat -> Action, t: nat, t': nat)
    requires ValidConfig(cfg) && Init(cfg, s0) && t <= t'
    ensures forall v :: v in cfg.g.ids ==> NoHeavier(At(cfg, s0, acts, t), At(cfg, s0, acts, t'), v)
    decreases t' - t
  {
    hide Next, Inv, Weight, Budget;
    if t < t' {
      WorkNeverGrows(cfg, s0, acts, t, t' - 1);
      InvHolds(cfg, s0, acts, t' - 1);
      NextAddsNoWork(cfg, At(cfg, s0, acts, t' - 1), acts(t' - 1));
      forall v | v in cfg.g.ids ensures NoHeavier(At(cfg, s0, acts, t), At(cfg, s0, acts, t'), v) {
        assert NoHeavier(At(cfg, s0, acts, t), At(cfg, s0, acts, t' - 1), v);
        assert NoHeavier(At(cfg, s0, acts, t' - 1), At(cfg, s0, acts, t'), v);
      }
    }
  }

  // ------------------------------------------------------------- the main result

  lemma SameWeightStillActive(s: State, s': State, v: int)
    requires Tracked(s, v) && Tracked(s', v) && Weight(s', v) == Weight(s, v) && s.workers[v] != Idle
    ensures s'.workers[v] != Idle
  {
  }

  /** A worker at work gets something done. */
  lemma WorkerGetsDone(cfg: Config, s0: State, acts: nat -> Action, t: nat, v: int) returns (t': nat)
    requires ValidConfig(cfg) && Init(cfg, s0) && Fair(cfg, acts)
    requires v in cfg.g.ids && At(cfg, s0, acts, t).workers[v] != Idle
    ensures t' >= t && Total(cfg, At(cfg, s0, acts, t')) < Total(cfg, At(cfg, s0, acts, t))
  {
    hide Next, Inv, Total, TotalBudget, WellFormed, Acyclic, Weight, Budget, Sum, InRange;
    assert WorksFrom(acts, v, t);
    var k :| k >= t && IsWorkOf(acts(k), v);
    var s, r := At(cfg, s0, acts, t), At(cfg, s0, acts, k);
    WorkNeverGrows(cfg, s0, acts, t, k);
    SumsFall(cfg, s, r);
    assert NoHeavier(s, r, v);
    if Weight(r, v) < Weight(s, v) {
      t' := k;
    } else {
      SameWeightStillActive(s, r, v);
      InvHolds(cfg, s0, acts, k);
      WorkStepCounts(cfg, r, acts(k), v);
      t' := k + 1;
    }
  }

  lemma WorkStepCounts(cfg: Config, s: State, a: Action, v: int)
    requires Inv(cfg, s) && NoSelfLoop(cfg.g) && v in cfg.g.ids && IsWorkOf(a, v) && s.workers[v] != Idle
    ensures Total(cfg, Next(cfg, s, a)) < Total(cfg, s)
  {
    hide Total, TotalBudget;
    NextAddsNoWork(cfg, s, a);
    SumsFall(cfg, s, Next(cfg, s, a));
    assert Sound(s, v);
    WorkLowersWeight(s, v, a.event);
    hide Proceed;
  }

  /** The scanner's next move, whenever it comes. */
  lemma NextScanApproaches(cfg: Config, s0: State, acts: nat -> Action, t: nat, goal: nat) returns (t': nat)
    requires ValidConfig(cfg) && Init(cfg, s0) && Fair(cfg, acts) && NeverCanceled(cfg, s0, acts)
    requires AllIdle(cfg, At(cfg, s0, acts, t)) && !At(cfg, s0, acts, t).scan.Left?
    requires goal <= |cfg.g.ids| && Goal(cfg, At(cfg, s0, acts, t), goal)
    ensures t' > t
    ensures var s, s' := At(cfg, s0, acts, t), At(cfg, s0, acts, t');
            || Total(cfg, s') < Total(cfg, s)
            || (AllIdle(cfg, s') && Goal(cfg, s', goal) && Nearer(cfg, s.scan, s'.scan, goal))
  {
    hide Next, Inv, Rank, Lap, Nearer, Total, ScanStep, Goal, WellFormed, Acyclic, InRange;
    var s := At(cfg, s0, acts, t);
    assert ScansFrom(acts, t);
    var bound :| bound >= t && acts(bound).Scan?;
    var k := NextScan(acts, t, bound);
    Waiting(cfg, s0, acts, t, k);
    var r := At(cfg, s0, acts, k);
    InvHolds(cfg, s0, acts, k);
    SameButForTheClock(cfg, s, r, goal);
    assert !r.canceled;
    ScanApproaches(cfg, r, acts(k).log, goal);
    ScanIsNext(cfg, r, acts(k));
    t' := k + 1;
    if Total(cfg, At(cfg, s0, acts, t')) >= Total(cfg, s) {
      GoalStays(cfg, r, At(cfg, s0, acts, t'), goal);
    }
  }

  /** Left alone, the scanner starts, bars or concludes something: there is no standstill. */
  lemma {:induction false} ScannerGetsDone(cfg: Config, s0: State, acts: nat -> Action, t: nat, goal: nat)
    returns (t': nat)
    requires ValidConfig(cfg) && Init(cfg, s0) && Fair(cfg, acts) && NeverCanceled(cfg, s0, acts)
    requires AllIdle(cfg, At(cfg, s0, acts, t))
    requires goal <= |cfg.g.ids| && Goal(cfg, At(cfg, s0, acts, t), goal)
    ensures t' >= t
    ensures || Terminated(cfg, At(cfg, s0, acts, t'))
            || Total(cfg, At(cfg, s0, acts, t')) < Total(cfg, At(cfg, s0, acts, t))
    decreases Lap(cfg, At(cfg, s0, acts, t).scan, goal), Rank(cfg.g, At(cfg, s0, acts, t).scan)
  {
    hide Next, Rank, Lap, Total, Goal, WellFormed, Acyclic, Fair, NeverCanceled, InRange;
    if At(cfg, s0, acts, t).scan.Left? {
      return t;
    }
    var k := NextScanApproaches(cfg, s0, acts, t, goal);
    if Total(cfg, At(cfg, s0, acts, k)) < Total(cfg, At(cfg, s0, acts, t)) {
      return k;
    }
    t' := ScannerGetsDone(cfg, s0, acts, k, goal);
    TotalNeverGrows(cfg, s0, acts, t, k);
  }

  lemma TotalNeverGrows(cfg: Config, s0: State, acts: nat -> Action, t: nat, t': nat)
    requires ValidConfig(cfg) && Init(cfg, s0) && t <= t'
    ensures Total(cfg, At(cfg, s0, acts, t')) <= Total(cfg, At(cfg, s0, acts, t))
  {
    hide Next, Total, TotalBudget, NoHeavier, Weight, Budget;
    WorkNeverGrows(cfg, s0, acts, t, t');
    SumsFall(cfg, At(cfg, s0, acts, t), At(cfg, s0, acts, t'));
  }

  lemma ScanIsNext(cfg: Config, s: State, a: Action)
    requires Shape(cfg, s) && a.Scan?
    ensures Next(cfg, s, a) == ScanStep(cfg, s, a.log)
  {
    hide ScanStep;
  }

  lemma SameButForTheClock(cfg: Config, s: State, r: State, goal: nat)
    requires Shape(cfg, s) && Shape(cfg, r) && r == s.(expired := r.expired)
    requires AllIdle(cfg, s) && Goal(cfg, s, goal)
    ensures AllIdle(cfg, r) && Goal(cfg, r, goal) && Total(cfg, r) == Total(cfg, s)
  {
    SumIsMonotone(v => Weight(s, v), v => Weight(r, v), cfg.g.ids);
    SumIsMonotone(v => Weight(r, v), v => Weight(s, v), cfg.g.ids);
  }

  /** Every fair run that is never cancelled ends, with every step finished. */
  lemma {:induction false} FairRunEnds(cfg: Config, s0: State, acts: nat -> Action, t: nat) returns (t': nat)
    requires ValidConfig(cfg) && Init(cfg, s0) && Fair(cfg, acts) && NeverCanceled(cfg, s0, acts)
    ensures t' >= t && Terminated(cfg, At(cfg, s0, acts, t')) && AllFinished(cfg, At(cfg, s0, acts, t'))
    decreases Total(cfg, At(cfg, s0, acts, t))
  {
    hide Next, Total, Goal, WellFormed, Acyclic, Fair;
    var s := At(cfg, s0, acts, t);
    assert !s.canceled;
    InvHolds(cfg, s0, acts, t);
    if v :| v in cfg.g.ids && s.workers[v] != Idle {
      t' := WorkerGetsDone(cfg, s0, acts, t, v);
      t' := FairRunEnds(cfg, s0, acts, t');
    } else {
      var goal := GoalExists(cfg, s);
      t' := ScannerGetsDone(cfg, s0, acts, t, goal);
      if Terminated(cfg, At(cfg, s0, acts, t')) {
        assert !At(cfg, s0, acts, t').canceled;
        InvHolds(cfg, s0, acts, t');
        TerminatedIsFinished(cfg, At(cfg, s0, acts, t'));
      } else {
        t' := FairRunEnds(cfg, s0, acts, t');
      }
    }
  }

  // ---------------------------------------------------------- cancelled runs end

  /** The scanner of a cancelled run leaves its loops. */
  lemma {:induction false} CanceledScannerStops(cfg: Config, s0: State, acts: nat -> Action, t: nat) returns (t': nat)
    requires Shape(cfg, s0) && Fair(cfg, acts) && At(cfg, s0, acts, t).canceled
    ensures t' >= t && At(cfg, s0, acts, t').scan.Left?
    decreases Rank(cfg.g, At(cfg, s0, acts, t).scan)
  {
    hide Next, Rank;
    if At(cfg, s0, acts, t).scan.Left? {
      return t;
    }
    assert ScansFrom(acts, t);
    var k :| k >= t && acts(k).Scan?;
    CanceledScanIsNearer(cfg, s0, acts, t, k);
    if At(cfg, s0, acts, k + 1).scan.Left? {
      return k + 1;
    }
    CanceledForever(cfg, s0, acts, t, k + 1);
    t' := CanceledScannerStops(cfg, s0, acts, k + 1);
  }

  /** A move of the scanner of a cancelled run brings it nearer to the end. */
  lemma CanceledScanIsNearer(cfg: Config, s0: State, acts: nat -> Action, t: nat, k: nat)
    requires Shape(cfg, s0) && t <= k && acts(k).Scan? && At(cfg, s0, acts, t).canceled
    requires !At(cfg, s0, acts, t).scan.Left?
    ensures At(cfg, s0, acts, k + 1).scan.Left?
            || Rank(cfg.g, At(cfg, s0, acts, k + 1).scan) < Rank(cfg.g, At(cfg, s0, acts, t).scan)
  {
    hide At, Rank, Interleaving;
    var run: nat -> State := (x: nat) => At(cfg, s0, acts, x);
    var turns: nat -> Option<LogProbe> := (x: nat) => if acts(x).Scan? then Some(acts(x).log) else None;
    RunsInterleave(cfg, s0, acts);
    CanceledScanLeaves(cfg, run, turns, t, k + 1);
    OnlyLeftHasRankZero(cfg.g, run(k + 1).scan);
    OnlyLeftHasRankZero(cfg.g, run(t).scan);
    assert turns(k).Some?;
  }

  lemma {:induction false} LeftForever(cfg: Config, s0: State, acts: nat -> Action, t: nat, t': nat)
    requires Shape(cfg, s0) && t <= t' && At(cfg, s0, acts, t).scan.Left?
    ensures At(cfg, s0, acts, t').scan.Left?
    decreases t' - t
  {
    hide Next, NextPc;
    if t < t' {
      LeftForever(cfg, s0, acts, t, t' - 1);
      ScannerMoves(cfg, At(cfg, s0, acts, t' - 1), acts(t' - 1));
    }
  }

  /** Once nothing more is started, the workers run dry. */
  lemma {:induction false} WorkersRunDry(cfg: Config, s0: State, acts: nat -> Action, t: nat) returns (t': nat)
    requires ValidConfig(cfg) && Init(cfg, s0) && Fair(cfg, acts) && At(cfg, s0, acts, t).scan.Left?
    ensures t' >= t && Terminated(cfg, At(cfg, s0, acts, t'))
    decreases Total(cfg, At(cfg, s0, acts, t))
  {
    hide Next, Total, WellFormed, Acyclic, Fair;
    if v :| v in cfg.g.ids && At(cfg, s0, acts, t).workers[v] != Idle {
      t' := WorkerGetsDone(cfg, s0, acts, t, v);
      LeftForever(cfg, s0, acts, t, t');
      t' := WorkersRunDry(cfg, s0, acts, t');
    } else {
      t' := t;
    }
  }

  /** Every fair run ends, and with every step finished if it is never cancelled. */
  lemma EveryFairRunEnds(cfg: Config, s0: State, acts: nat -> Action) returns (t: nat)
    requires ValidConfig(cfg) && Init(cfg, s0) && Fair(cfg, acts)
    ensures Terminated(cfg, At(cfg, s0, acts, t))
    ensures NeverCanceled(cfg, s0, acts) ==> AllFinished(cfg, At(cfg, s0, acts, t))
  {
    hide Next, Total, WellFormed, Acyclic, Fair, Terminated;
    if c: nat :| At(cfg, s0, acts, c).canceled {
      t := CanceledScannerStops(cfg, s0, acts, c);
      t := WorkersRunDry(cfg, s0, acts, t);
    } else {
      t := FairRunEnds(cfg, s0, acts, 0);
    }
  }
}
