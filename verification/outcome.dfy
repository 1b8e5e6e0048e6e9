/** The outcome of any run, cancelled and timed out ones included. */
module Outcomes {
  import opened Digraph
  import opened Nodes
  import opened Engine
  import opened Safety
  import opened Runs
  import opened Verdicts

  /** Went wrong for good: no later action makes the step succeed or count as skipped.  A step
      that is being scanned may still turn from cancelled to skipped; one whose execution
      failed after the flag was set stays Running until a signal reaches it. */
  ghost predicate Spoiled(cfg: Config, s: State, v: int) {
    && v in s.nodes && v in s.workers
    && var status := Status(s, v);
    || status == Error
    || (s.workers[v] == Idle && (status == Running || (status == Cancel && !UnderScan(cfg, s, v))))
  }

  ghost predicate SomeSpoiled(cfg: Config, s: State) {
    exists v :: v in cfg.g.ids && Spoiled(cfg, s, v)
  }

  ghost predicate FailuresReported(cfg: Config, s: State) {
    forall v :: v in cfg.g.ids && v in s.nodes && (Status(s, v) == Error || Status(s, v) == Cancel) ==> s.lastError
  }

  /** The last error is set only if a step is spoiled, and, unless the run is cancelled,
      whenever a step failed or was cancelled. */
  ghost predicate Accounted(cfg: Config, s: State) {
    && (s.lastError ==> SomeSpoiled(cfg, s))
    && (!s.canceled ==> FailuresReported(cfg, s))
  }

  // ------------------------------------------------------------- what a worker does

  lemma WorkSpoils(s: State, v: int, e: Event)
    requires v in s.nodes && v in s.workers && Sound(s, v)
    ensures var p := Proceed(s.nodes[v], s.workers[v], s.canceled, s.expired, e);
            var status := p.node.state.status;
            && (p.failed ==> status == Error || (p.worker == Idle && (status == Running || status == Cancel)))
            && (Status(s, v) == Error ==> status == Error)
            && (!s.canceled && (status == Error || status == Cancel) ==>
                  p.failed || Status(s, v) == Error || Status(s, v) == Cancel)
            && (s.workers[v] == Idle ==> p == Progress(s.nodes[v], Idle, false, false))
  {
  }

  lemma WorkKeepsAccounted(cfg: Config, s: State, v: int, e: Event)
    requires Inv(cfg, s) && Accounted(cfg, s) && v in cfg.g.ids
    ensures Accounted(cfg, Next(cfg, s, Work(v, e)))
  {
    hide Proceed, Sound, DepsPassed;
    WorkSpoils(s, v, e);
    WorkIsLocal(s, v, e);
    var s' := Next(cfg, s, Work(v, e));
    assert UnderScan(cfg, s, v) ==> s.workers[v] == Idle;
    if s.lastError {
      var x :| x in cfg.g.ids && Spoiled(cfg, s, x);
      assert x == v || Untouched(s, s', x);
      assert Spoiled(cfg, s', x);
    } else if s'.lastError {
      assert Spoiled(cfg, s', v);
    }
    if !s'.canceled {
      forall x | x in cfg.g.ids && (Status(s', x) == Error || Status(s', x) == Cancel) ensures s'.lastError {
        assert x == v || Untouched(s, s', x);
      }
    }
  }

  // -------------------------------------------------------- what the others do

  lemma SpoiledStays(cfg: Config, s: State, s': State)
    requires s.lastError == s'.lastError && (s.lastError ==> SomeSpoiled(cfg, s))
    requires forall v :: v in cfg.g.ids && Spoiled(cfg, s, v) ==> Spoiled(cfg, s', v)
    ensures s'.lastError ==> SomeSpoiled(cfg, s')
  {
    if s.lastError {
      var v :| v in cfg.g.ids && Spoiled(cfg, s, v);
      assert Spoiled(cfg, s', v);
    }
  }

  lemma SignalKeepsAccounted(cfg: Config, s: State, v: int)
    requires Inv(cfg, s) && Accounted(cfg, s) && v in cfg.g.ids
    ensures Accounted(cfg, Next(cfg, s, SignalNode(v)))
  {
    hide Sound, DepsPassed;
    var s' := Next(cfg, s, SignalNode(v));
    SpoiledStays(cfg, s, s');
  }

  /** Reading a dependency spoils nothing by itself and saves nothing spoiled. */
  lemma CheckKeepsAccounted(cfg: Config, s: State, log: LogProbe)
    requires Inv(cfg, s) && NoSelfLoop(cfg.g) && Accounted(cfg, s) && ChecksDependency(cfg, s.scan)
    ensures Accounted(cfg, CheckDependency(cfg, s, log))
  {
    hide Inspect, Sound, DepsPassed;
    var v := cfg.g.ids[s.scan.i];
    var d := Preds(cfg.g, v)[s.scan.j];
    assert d in Preds(cfg.g, v) && !Edge(cfg.g, v, v);
    InspectionEffect(s.nodes[d], log);
    var s' := CheckDependency(cfg, s, log);
    assert UnderScan(cfg, s, v) && s.workers[v] == Idle;
    SpoiledStays(cfg, s, s');
  }

  lemma LaunchKeepsAccounted(cfg: Config, s: State, log: LogProbe)
    requires Inv(cfg, s) && Accounted(cfg, s) && s.scan.Launch?
    ensures Accounted(cfg, ScanStep(cfg, s, log))
  {
    hide CheckDependency, NextPc, Sound, DepsPassed;
    var s' := ScanStep(cfg, s, log);
    assert Pristine(s, cfg.g.ids[s.scan.i]);
    LaunchGoesOn(cfg, s, log);
    SpoiledStays(cfg, s, s');
  }

  lemma LaunchGoesOn(cfg: Config, s: State, log: LogProbe)
    requires Shape(cfg, s) && s.scan.Launch?
    ensures ScanStep(cfg, s, log).scan.Visit?
  {
    hide CheckDependency;
  }

  /** The scanner takes up only steps that have not started. */
  lemma LookingKeepsAccounted(cfg: Config, s: State, log: LogProbe)
    requires Inv(cfg, s) && Accounted(cfg, s) && !s.scan.Launch? && !ChecksDependency(cfg, s.scan)
    ensures Accounted(cfg, ScanStep(cfg, s, log))
  {
    hide CheckDependency, NextPc, Sound, DepsPassed;
    var s' := ScanStep(cfg, s, log);
    TakesUpUnstarted(cfg, s);
    SpoiledStays(cfg, s, s');
  }

  lemma FlagKeepsAccounted(cfg: Config, s: State, s': State)
    requires Accounted(cfg, s) && s' == s.(canceled := s'.canceled, expired := s'.expired)
    requires s.canceled ==> s'.canceled
    ensures Accounted(cfg, s')
  {
    forall v | v in cfg.g.ids && Spoiled(cfg, s, v) ensures Spoiled(cfg, s', v) {
    }
    SpoiledStays(cfg, s, s');
  }

  lemma NextKeepsAccounted(cfg: Config, s: State, a: Action)
    requires Inv(cfg, s) && NoSelfLoop(cfg.g) && Accounted(cfg, s)
    ensures Accounted(cfg, Next(cfg, s, a))
  {
    hide CheckDependency, NextPc, WorkStep, Signalled, Accounted, Sound, ScanFits;
    match a
    case Scan(log) =>
      if ChecksDependency(cfg, s.scan) {
        CheckKeepsAccounted(cfg, s, log);
      } else if s.scan.Launch? {
        LaunchKeepsAccounted(cfg, s, log);
      } else {
        LookingKeepsAccounted(cfg, s, log);
      }
    case Work(v, e) =>
      if v in cfg.g.ids {
        WorkKeepsAccounted(cfg, s, v, e);
      }
    case SignalNode(v) =>
      if v in cfg.g.ids {
        SignalKeepsAccounted(cfg, s, v);
      }
    case SetCanceled => FlagKeepsAccounted(cfg, s, Next(cfg, s, a));
    case Expire => FlagKeepsAccounted(cfg, s, Next(cfg, s, a));
  }

  lemma {:induction false} AccountedThroughout(cfg: Config, s0: State, acts: nat -> Action, t: nat)
    requires ValidConfig(cfg) && Init(cfg, s0) && Clean(cfg, s0)
    ensures Accounted(cfg, At(cfg, s0, acts, t))
    decreases t
  {
    hide Next, Inv, Accounted;
    if t == 0 {
      CleanIsAccounted(cfg, s0);
    } else {
      AccountedThroughout(cfg, s0, acts, t - 1);
      InvHolds(cfg, s0, acts, t - 1);
      NextKeepsAccounted(cfg, At(cfg, s0, acts, t - 1), acts(t - 1));
    }
  }

  lemma CleanIsAccounted(cfg: Config, s: State)
    requires Init(cfg, s) && Clean(cfg, s)
    ensures Accounted(cfg, s)
  {
    forall v | v in cfg.g.ids ensures Status(s, v) != Error && Status(s, v) != Cancel {
      assert v in s.nodes;
    }
  }

  // ------------------------------------------------------------------ the outcome

  /** What a run that is over amounts to. */
  ghost function Outcome(cfg: Config, s: State): RunStatus
    requires Shape(cfg, s)
  {
    if AllFine(cfg, s) then Succeeded else if s.canceled then Canceled else Failure
  }

  lemma OutcomeOf(cfg: Config, s: State)
    requires Inv(cfg, s) && Terminated(cfg, s) && Accounted(cfg, s)
    ensures StatusOf(cfg, s) == Outcome(cfg, s)
  {
    hide Sound, DepsPassed, NextPc;
    if !AllFine(cfg, s) && !s.canceled {
      TerminatedIsFinished(cfg, s);
      var v :| v in cfg.g.ids && !Fine(s, v);
      assert Finished(Status(s, v));
      assert s.lastError;
    }
  }

  /** However a run begun without failed steps went, once it is over its status is never "in
      progress": it is a success exactly if all steps succeeded or were skipped, and else
      cancelled or a failure by whether it was cancelled; the matching handler is chosen. */
  lemma EveryRunHasItsOutcome(cfg: Config, s0: State, acts: nat -> Action, t: nat)
    requires ValidConfig(cfg) && Init(cfg, s0) && Clean(cfg, s0)
    requires Terminated(cfg, At(cfg, s0, acts, t))
    ensures var s := At(cfg, s0, acts, t);
            && StatusOf(cfg, s) == Outcome(cfg, s)
            && Handlers(StatusOf(cfg, s)) ==
                 [if AllFine(cfg, s) then OnSuccess else if s.canceled then OnCancel else OnFailure, OnExit]
  {
    hide At, Inv, Accounted, Next, StatusOf, ValidConfig, Clean;
    AccountedThroughout(cfg, s0, acts, t);
    InvHolds(cfg, s0, acts, t);
    OutcomeOf(cfg, At(cfg, s0, acts, t));
  }
}
