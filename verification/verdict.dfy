/** What the outcome of a run means: the last error, the reported status and the handlers. */
module Verdicts {
  import opened Digraph
  import opened Nodes
  import opened ExecutionGraphs
  import opened Engine
  import opened Safety
  import opened Runs

  datatype RunStatus = InProgress | Failure | Canceled | Succeeded

  datatype Handler = OnSuccess | OnFailure | OnCancel | OnExit

  ghost predicate Fine(s: State, v: int)
    requires v in s.nodes
  {
    Status(s, v) == Success || Status(s, v) == Skipped
  }

  ghost predicate AllFine(cfg: Config, s: State)
    requires Shape(cfg, s)
  {
    forall v :: v in cfg.g.ids ==> Fine(s, v)
  }

  ghost predicate SomeStatus(cfg: Config, s: State, status: NodeStatus)
    requires Shape(cfg, s)
  {
    exists v :: v in cfg.g.ids && Status(s, v) == status
  }

  /** The status of a run that has been started. */
  ghost function StatusOf(cfg: Config, s: State): RunStatus
    requires Shape(cfg, s)
  {
    if s.canceled && !AllFine(cfg, s) then Canceled
    else if SomeStatus(cfg, s, Running) then InProgress
    else if s.lastError then Failure
    else Succeeded
  }

  function Handlers(status: RunStatus): seq<Handler> {
    (match status
     case Succeeded => [OnSuccess]
     case Failure => [OnFailure]
     case Canceled => [OnCancel]
     case InProgress => []) + [OnExit]
  }

  /** The scanner is past its loops and every worker is done. */
  ghost predicate Terminated(cfg: Config, s: State)
    requires Shape(cfg, s)
  {
    s.scan.Left? && forall v :: v in cfg.g.ids ==> s.workers[v] == Idle
  }

  ghost predicate Clean(cfg: Config, s: State)
    requires Shape(cfg, s)
  {
    forall v :: v in cfg.g.ids ==> !Failed(Status(s, v))
  }

  lemma PreparedIsClean(cfg: Config, before: map<int, NodeData>, s0: State)
    requires Shape(cfg, s0) && PreparedFrom(cfg, before, s0)
    ensures Clean(cfg, s0)
  {
    forall v | v in cfg.g.ids ensures !Failed(Status(s0, v)) {
      if Failed(before[v].state.status) {
        FailedIsAffected(cfg.g, before, v);
      }
    }
  }

  // ------------------------------------------------------------- the invariant

  /** Some step upstream failed. */
  ghost predicate FailedUpstream(cfg: Config, s: State, v: int) {
    exists p :: Walk(cfg.g, p) && |p| >= 2 && p[|p| - 1] == v && p[0] in s.nodes && Status(s, p[0]) == Error
  }

  ghost predicate Explained(cfg: Config, s: State)
    requires Shape(cfg, s)
  {
    && (s.lastError <==> SomeStatus(cfg, s, Error))
    && (forall v :: v in cfg.g.ids && Status(s, v) == Cancel ==> FailedUpstream(cfg, s, v))
  }

  ghost predicate Undisturbed(s: State) {
    !s.canceled && !s.expired
  }

  ghost predicate ErrorsStay(s: State, s': State) {
    forall v :: v in s.nodes && Status(s, v) == Error ==> v in s'.nodes && Status(s', v) == Error
  }

  lemma FailedUpstreamStays(cfg: Config, s: State, s': State, v: int)
    requires FailedUpstream(cfg, s, v) && ErrorsStay(s, s')
    ensures FailedUpstream(cfg, s', v)
  {
    var p :| Walk(cfg.g, p) && |p| >= 2 && p[|p| - 1] == v && p[0] in s.nodes && Status(s, p[0]) == Error;
    assert p[0] in s'.nodes;
  }

  lemma FailurePassesOn(cfg: Config, s: State, d: int, v: int)
    requires Edge(cfg.g, d, v) && d in cfg.g.ids && d in s.nodes
    requires Status(s, d) == Error || FailedUpstream(cfg, s, d)
    ensures FailedUpstream(cfg, s, v)
  {
    if Status(s, d) == Error {
      assert Walk(cfg.g, [d]);
      ExtendWalk(cfg.g, [d], v);
      assert ([d] + [v])[0] == d;
    } else {
      var p :| Walk(cfg.g, p) && |p| >= 2 && p[|p| - 1] == d && p[0] in s.nodes && Status(s, p[0]) == Error;
      ExtendWalk(cfg.g, p, v);
      assert (p + [v])[0] == p[0];
    }
  }

  /** What a worker does to its node and to the last error, in an undisturbed run. */
  lemma WorkExplained(s: State, v: int, e: Event)
    requires v in s.nodes && v in s.workers && Sound(s, v) && Undisturbed(s)
    ensures var p := Proceed(s.nodes[v], s.workers[v], s.canceled, s.expired, e);
            && (p.node.state.status == Cancel ==> Status(s, v) == Cancel)
            && (Status(s, v) == Error ==> p.node.state.status == Error)
            && (p.node.state.status == Error && Status(s, v) != Error ==> p.failed)
            && (p.failed ==> p.node.state.status == Error)
  {
  }

  lemma WorkEffect(s: State, v: int, e: Event)
    requires v in s.nodes && v in s.workers && Sound(s, v) && Undisturbed(s)
    ensures var s' := WorkStep(s, v, e);
            && (Status(s', v) == Cancel ==> Status(s, v) == Cancel)
            && (Status(s, v) == Error ==> Status(s', v) == Error)
            && (s.lastError ==> s'.lastError)
            && (s'.lastError && !s.lastError ==> Status(s', v) == Error)
            && (Status(s', v) == Error ==> s'.lastError || Status(s, v) == Error)
            && (forall x :: x != v && x in s.nodes ==> Status(s', x) == Status(s, x))
            && (forall x :: x in s.nodes <==> x in s'.nodes)
  {
    hide Proceed;
    WorkExplained(s, v, e);
  }

  lemma WorkKeepsExplained(cfg: Config, s: State, v: int, e: Event)
    requires Inv(cfg, s) && Undisturbed(s) && Explained(cfg, s) && v in cfg.g.ids
    ensures Explained(cfg, Next(cfg, s, Work(v, e)))
  {
    hide Proceed, WorkStep, FailedUpstream, ScanFits;
    WorkIsLocal(s, v, e);
    WorkEffect(s, v, e);
    var s' := Next(cfg, s, Work(v, e));
    assert ErrorsStay(s, s');
    if s.lastError {
      var x :| x in cfg.g.ids && Status(s, x) == Error;
      assert Status(s', x) == Error;
    }
    if s'.lastError && !s.lastError {
      assert Status(s', v) == Error;
    }
    forall x | x in cfg.g.ids && Status(s', x) == Cancel ensures FailedUpstream(cfg, s', x) {
      assert Status(s, x) == Cancel;
      FailedUpstreamStays(cfg, s, s', x);
    }
  }

  lemma CheckKeepsExplained(cfg: Config, s: State, log: LogProbe)
    requires Inv(cfg, s) && NoSelfLoop(cfg.g) && Explained(cfg, s) && ChecksDependency(cfg, s.scan)
    ensures Explained(cfg, CheckDependency(cfg, s, log))
  {
    hide Inspect, Sound, DepsPassed, FailedUpstream;
    var v := cfg.g.ids[s.scan.i];
    var d := Preds(cfg.g, v)[s.scan.j];
    assert d in Preds(cfg.g, v) && !Edge(cfg.g, v, v);
    var s' := CheckDependency(cfg, s, log);
    InspectionEffect(s.nodes[d], log);
    var verdict := Inspect(s.nodes[d], log).verdict;
    assert ErrorsStay(s, s');
    forall x | x in cfg.g.ids && Status(s', x) == Cancel ensures FailedUpstream(cfg, s', x) {
      if Status(s, x) == Cancel {
        FailedUpstreamStays(cfg, s, s', x);
      } else {
        assert x == v && verdict == Bar(Cancel);
        FailurePassesOn(cfg, s, d, v);
        FailedUpstreamStays(cfg, s, s', v);
      }
    }
    if s.lastError {
      var x :| x in cfg.g.ids && Status(s, x) == Error;
      assert Status(s', x) == Error;
    }
  }

  lemma LaunchKeepsExplained(cfg: Config, s: State, log: LogProbe)
    requires Inv(cfg, s) && Explained(cfg, s) && s.scan.Launch?
    ensures Explained(cfg, ScanStep(cfg, s, log))
  {
    var v := cfg.g.ids[s.scan.i];
    var s' := ScanStep(cfg, s, log);
    assert Pristine(s, v);
    hide CheckDependency, NextPc;
    assert ErrorsStay(s, s');
    if s.lastError {
      var x :| x in cfg.g.ids && Status(s, x) == Error;
      assert Status(s', x) == Error;
    }
    forall x | x in cfg.g.ids && Status(s', x) == Cancel ensures FailedUpstream(cfg, s', x) {
      assert Status(s, x) == Cancel;
      FailedUpstreamStays(cfg, s, s', x);
    }
  }

  lemma SameNodesKeepExplained(cfg: Config, s: State, s': State)
    requires Shape(cfg, s) && Shape(cfg, s') && Explained(cfg, s)
    requires s'.nodes == s.nodes && s'.lastError == s.lastError
    ensures Explained(cfg, s')
  {
    assert ErrorsStay(s, s');
    if s.lastError {
      var x :| x in cfg.g.ids && Status(s, x) == Error;
      assert Status(s', x) == Error;
    }
    forall x | x in cfg.g.ids && Status(s', x) == Cancel ensures FailedUpstream(cfg, s', x) {
      FailedUpstreamStays(cfg, s, s', x);
    }
  }

  lemma NextKeepsExplained(cfg: Config, s: State, a: Action)
    requires Inv(cfg, s) && NoSelfLoop(cfg.g) && (Undisturbed(s) ==> Explained(cfg, s))
    ensures Undisturbed(Next(cfg, s, a)) ==> Undisturbed(s) && Explained(cfg, Next(cfg, s, a))
  {
    hide CheckDependency, NextPc, Proceed, Explained;
    var s' := Next(cfg, s, a);
    if Undisturbed(s') {
      match a
      case Scan(log) =>
        if ChecksDependency(cfg, s.scan) {
          CheckKeepsExplained(cfg, s, log);
        } else if s.scan.Launch? {
          LaunchKeepsExplained(cfg, s, log);
        } else {
          SameNodesKeepExplained(cfg, s, s');
        }
      case Work(v, e) =>
        if v in cfg.g.ids {
          WorkKeepsExplained(cfg, s, v, e);
        }
      case SignalNode(v) => SameNodesKeepExplained(cfg, s, s');
      case SetCanceled =>
      case Expire =>
    }
  }

  lemma {:induction false} ExplainedThroughout(cfg: Config, s0: State, acts: nat -> Action, t: nat)
    requires ValidConfig(cfg) && Init(cfg, s0) && Clean(cfg, s0)
    ensures Undisturbed(At(cfg, s0, acts, t)) ==> Explained(cfg, At(cfg, s0, acts, t))
    decreases t
  {
    hide Next, Inv, Explained;
    if t == 0 {
      CleanIsExplained(cfg, s0);
    } else {
      ExplainedThroughout(cfg, s0, acts, t - 1);
      InvHolds(cfg, s0, acts, t - 1);
      NextKeepsExplained(cfg, At(cfg, s0, acts, t - 1), acts(t - 1));
    }
  }

  lemma CleanIsExplained(cfg: Config, s: State)
    requires Init(cfg, s) && Clean(cfg, s)
    ensures Explained(cfg, s)
  {
    forall v | v in cfg.g.ids ensures Status(s, v) != Error && Status(s, v) != Cancel {
      assert !Failed(Status(s, v));
    }
  }

  /** The end of a run that was neither cancelled nor timed out, begun without failed steps:
      everything is finished; the last error tells whether a step failed; whatever is
      cancelled has a failed step upstream; the status is success exactly when all steps
      succeeded or were skipped; one of the two outcome handlers is chosen, then the exit
      handler. */
  lemma FinalVerdict(cfg: Config, s0: State, acts: nat -> Action, t: nat)
    requires ValidConfig(cfg) && Init(cfg, s0) && Clean(cfg, s0)
    requires var s := At(cfg, s0, acts, t); Terminated(cfg, s) && Undisturbed(s)
    ensures var s := At(cfg, s0, acts, t);
            && AllFinished(cfg, s)
            && (s.lastError <==> SomeStatus(cfg, s, Error))
            && (forall v :: v in cfg.g.ids && Status(s, v) == Cancel ==> FailedUpstream(cfg, s, v))
            && StatusOf(cfg, s) == (if AllFine(cfg, s) then Succeeded else Failure)
            && Handlers(StatusOf(cfg, s)) == (if AllFine(cfg, s) then [OnSuccess, OnExit] else [OnFailure, OnExit])
  {
    ExplainedThroughout(cfg, s0, acts, t);
    InvHolds(cfg, s0, acts, t);
    var s := At(cfg, s0, acts, t);
    hide Inv, Sound, FailedUpstream, At;
    assert AllFinished(cfg, s) by {
      TerminatedIsFinished(cfg, s);
    }
    FinishedVerdict(cfg, s);
  }

  lemma TerminatedIsFinished(cfg: Config, s: State)
    requires Inv(cfg, s) && s.scan.Left? && !s.canceled
    ensures AllFinished(cfg, s)
  {
  }

  lemma FinishedVerdict(cfg: Config, s: State)
    requires Shape(cfg, s) && AllFinished(cfg, s) && Undisturbed(s) && Explained(cfg, s)
    ensures StatusOf(cfg, s) == if AllFine(cfg, s) then Succeeded else Failure
  {
    if !AllFine(cfg, s) {
      var v :| v in cfg.g.ids && !Fine(s, v);
      if Status(s, v) == Cancel {
        assert FailedUpstream(cfg, s, v);
        var p :| Walk(cfg.g, p) && |p| >= 2 && p[|p| - 1] == v && p[0] in s.nodes && Status(s, p[0]) == Error;
        assert Status(s, p[0]) == Error;
      }
      assert SomeStatus(cfg, s, Error);
    }
  }
}
