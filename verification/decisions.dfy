/** Which dependencies let their dependents start, told from the configuration, the exit codes
    and the logs alone, whatever the program remembers. */
module Decisions {
  import opened Digraph
  import opened Nodes
  import opened Engine
  import opened Safety
  import opened Runs
  import opened Wrappers

  // ------------------------------------------------------------------ the evidence

  /** The exit code of the last execution of a step, and what was found in its log when it was
      decided whether its dependents may go on, if that has been decided since. */
  datatype Evidence = Evidence(exitCode: int, log: Option<LogProbe>)

  function ExitCodeOf(e: Event): int {
    if e.built then e.exitCode else 0
  }

  predicate RanWell(e: Event) {
    e.ok && e.built
  }

  /** The scanner looks at `d` for a step that depends on it. */
  ghost predicate LooksAt(cfg: Config, s: State, a: Action, d: int)
    requires Shape(cfg, s)
  {
    a.Scan? && ChecksDependency(cfg, s.scan) && Preds(cfg.g, cfg.g.ids[s.scan.i])[s.scan.j] == d
  }

  /** An execution of `d` fails with no way out: no cancellation, deadline or retry. */
  predicate FailsForGood(s: State, d: int, e: Event)
    requires d in s.nodes
  {
    && Status(s, d) == Running && !RanWell(e) && !s.canceled && !s.expired
    && s.nodes[d].step.retryLimit <= s.nodes[d].state.retryCount
  }

  /** What an action adds to the evidence. */
  ghost function Learned(cfg: Config, s: State, a: Action, d: int, ev: Evidence): Evidence
    requires Shape(cfg, s) && d in cfg.g.ids
  {
    if IsWorkOf(a, d) && s.workers[d] == Executing then
      var exitCode, log := ExitCodeOf(a.event), a.event.log;
      Evidence(exitCode, if FailsForGood(s, d, a.event) && Settles(s.nodes[d].step, Error, exitCode, log) then Some(log) else None)
    else if LooksAt(cfg, s, a, d) && ev.log.None? && Settles(s.nodes[d].step, Status(s, d), ev.exitCode, a.log) then
      Evidence(ev.exitCode, Some(a.log))
    else ev
  }

  ghost function EvidenceOf(cfg: Config, s0: State, acts: nat -> Action, t: nat, d: int): Evidence
    requires Shape(cfg, s0) && d in cfg.g.ids
  {
    if t == 0 then Evidence(s0.nodes[d].state.exitCode, None)
    else Learned(cfg, At(cfg, s0, acts, t - 1), acts(t - 1), d, EvidenceOf(cfg, s0, acts, t - 1, d))
  }

  /** The exit code is listed, or a pattern was found in the log. */
  predicate Excused(step: Step, ev: Evidence) {
    ev.exitCode in step.continueOn.exitCodes || (step.continueOn.output && ev.log == Some(Matched))
  }

  /** What the configuration makes of the evidence. */
  predicate AllowedBy(step: Step, status: NodeStatus, ev: Evidence) {
    AllowedOutright(step, status) || ((status == Error || status == Skipped) && Excused(step, ev))
  }

  // -------------------------------------------------- what is remembered is the evidence

  predicate EvidenceFits(d: NodeData, ev: Evidence) {
    && d.state.exitCode == ev.exitCode
    && d.decision == (if ev.log.None? then None else Some(Excused(d.step, ev)))
  }

  ghost predicate NothingDecided(cfg: Config, s: State)
    requires Shape(cfg, s)
  {
    forall v :: v in cfg.g.ids ==> s.nodes[v].decision == None
  }

  lemma LookLearns(d: NodeData, log: LogProbe, ev: Evidence)
    requires EvidenceFits(d, ev)
    ensures var ev' := if ev.log.None? && Settles(d.step, d.state.status, ev.exitCode, log) then Evidence(ev.exitCode, Some(log)) else ev;
            && EvidenceFits(Inspect(d, log).dep, ev')
            && Inspect(d, log).verdict ==
                 match d.state.status {
                   case NotStarted => Hold
                   case Running => Hold
                   case Success => Pass
                   case Cancel => Bar(Cancel)
                   case Error => if AllowedBy(d.step, Error, ev') then Pass else Bar(Cancel)
                   case Skipped => if AllowedBy(d.step, Skipped, ev') then Pass else Bar(Skipped)
                 }
  {
    AnswerAsConfigured(d, log);
    hide Judge;
  }

  lemma ExecutionLearns(s: State, d: int, e: Event)
    requires d in s.nodes && d in s.workers && s.workers[d] == Executing && Sound(s, d)
    ensures var log := if FailsForGood(s, d, e) && Settles(s.nodes[d].step, Error, ExitCodeOf(e), e.log) then Some(e.log) else None;
            EvidenceFits(WorkStep(s, d, e).nodes[d], Evidence(ExitCodeOf(e), log))
  {
    var ran := s.nodes[d].(state := s.nodes[d].state.(exitCode := ExitCodeOf(e)), decision := None);
    AnswerAsConfigured(WithStatus(ran, Error), e.log);
    hide Judge, ShouldContinue;
  }

  lemma OtherWorkLearnsNothing(s: State, d: int, e: Event)
    requires d in s.nodes && d in s.workers && s.workers[d] != Executing
    ensures var d' := WorkStep(s, d, e).nodes[d];
            d'.state.exitCode == s.nodes[d].state.exitCode && d'.decision == s.nodes[d].decision && d'.step == s.nodes[d].step
  {
  }

  lemma NextFitsEvidence(cfg: Config, s: State, a: Action, d: int, ev: Evidence)
    requires Inv(cfg, s) && NoSelfLoop(cfg.g) && d in cfg.g.ids && EvidenceFits(s.nodes[d], ev)
    ensures EvidenceFits(Next(cfg, s, a).nodes[d], Learned(cfg, s, a, d, ev))
  {
    hide WorkStep, NextPc, Inspect, Settles, Excused, DepsPassed, Sound, ScanFits;
    match a
    case Scan(log) =>
      if ChecksDependency(cfg, s.scan) {
        var v := cfg.g.ids[s.scan.i];
        var x := Preds(cfg.g, v)[s.scan.j];
        assert x in Preds(cfg.g, v) && !Edge(cfg.g, v, v);
        InspectionEffect(s.nodes[x], log);
        LookLearns(s.nodes[d], log, ev);
      }
    case Work(v, e) =>
      if v in cfg.g.ids {
        WorkIsLocal(s, v, e);
        if v == d {
          assert Sound(s, d);
          if s.workers[d] == Executing {
            ExecutionLearns(s, d, e);
          } else {
            OtherWorkLearnsNothing(s, d, e);
          }
        } else {
          assert Untouched(s, WorkStep(s, v, e), d);
        }
      }
    case _ =>
  }

  lemma {:induction false} EvidenceFitsThroughout(cfg: Config, s0: State, acts: nat -> Action, t: nat, d: int)
    requires ValidConfig(cfg) && Init(cfg, s0) && NothingDecided(cfg, s0) && d in cfg.g.ids
    ensures EvidenceFits(At(cfg, s0, acts, t).nodes[d], EvidenceOf(cfg, s0, acts, t, d))
    decreases t
  {
    hide Next, Inv, WellFormed, Acyclic, EvidenceFits, Learned, InRange;
    if t == 0 {
      NothingLearnedYet(s0.nodes[d]);
    } else {
      EvidenceFitsThroughout(cfg, s0, acts, t - 1, d);
      InvHolds(cfg, s0, acts, t - 1);
      NextFitsEvidence(cfg, At(cfg, s0, acts, t - 1), acts(t - 1), d, EvidenceOf(cfg, s0, acts, t - 1, d));
    }
  }

  lemma NothingLearnedYet(d: NodeData)
    requires d.decision == None
    ensures EvidenceFits(d, Evidence(d.state.exitCode, None))
  {
  }

  // ------------------------------------------------------------------ looks and starts

  /** What a look at a dependency comes to, told from its status and the evidence. */
  function VerdictBy(step: Step, status: NodeStatus, ev: Evidence): Verdict {
    match status
    case NotStarted => Hold
    case Running => Hold
    case Success => Pass
    case Cancel => Bar(Cancel)
    case Error => if AllowedBy(step, Error, ev) then Pass else Bar(Cancel)
    case Skipped => if AllowedBy(step, Skipped, ev) then Pass else Bar(Skipped)
  }

  lemma LookEffect(cfg: Config, s: State, a: Action, d: int, ev: Evidence)
    requires Shape(cfg, s) && NoSelfLoop(cfg.g) && d in cfg.g.ids && LooksAt(cfg, s, a, d) && EvidenceFits(s.nodes[d], ev)
    ensures var s' := Next(cfg, s, a);
            var v := cfg.g.ids[s.scan.i];
            var verdict := VerdictBy(s.nodes[d].step, Status(s, d), Learned(cfg, s, a, d, ev));
            && s'.scan == Dependency(s.scan.i, s.scan.j + 1, s.scan.ready && verdict.Pass?)
            && Status(s', v) == (if verdict.Bar? then verdict.status else Status(s, v))
  {
    hide Inspect, AllowedBy, Settles;
    var v := cfg.g.ids[s.scan.i];
    assert d in Preds(cfg.g, v) && !Edge(cfg.g, v, v);
    InspectionEffect(s.nodes[d], a.log);
    LookLearns(s.nodes[d], a.log, ev);
  }

  /** Every look at a dependency ends as its configuration says of its outcome: the scanned
      step stays ready, waits, or is barred, and with which status. */
  lemma LooksAreAsConfigured(cfg: Config, s0: State, acts: nat -> Action, t: nat, d: int)
    requires ValidConfig(cfg) && Init(cfg, s0) && NothingDecided(cfg, s0) && d in cfg.g.ids
    requires LooksAt(cfg, At(cfg, s0, acts, t), acts(t), d)
    ensures var s, s' := At(cfg, s0, acts, t), At(cfg, s0, acts, t + 1);
            var v := cfg.g.ids[s.scan.i];
            var verdict := VerdictBy(s.nodes[d].step, Status(s, d), EvidenceOf(cfg, s0, acts, t + 1, d));
            && s'.scan == Dependency(s.scan.i, s.scan.j + 1, s.scan.ready && verdict.Pass?)
            && Status(s', v) == (if verdict.Bar? then verdict.status else Status(s, v))
  {
    hide Next, Inv, WellFormed, Acyclic, Learned, VerdictBy, EvidenceFits, LooksAt;
    InvHolds(cfg, s0, acts, t);
    EvidenceFitsThroughout(cfg, s0, acts, t, d);
    LookEffect(cfg, At(cfg, s0, acts, t), acts(t), d, EvidenceOf(cfg, s0, acts, t, d));
  }

  /** At every start, each dependency succeeded, or failed or was skipped and its configuration
      excuses that, or was a success whose teardown failed. */
  lemma StartsAreAsConfigured(cfg: Config, s0: State, acts: nat -> Action, t: nat, v: int, d: int)
    requires ValidConfig(cfg) && Init(cfg, s0) && NothingDecided(cfg, s0) && Edge(cfg.g, d, v)
    requires Launches(cfg, At(cfg, s0, acts, t), acts(t), v)
    ensures d in cfg.g.ids
    ensures var dep := At(cfg, s0, acts, t).nodes[d];
            || AllowedBy(dep.step, dep.state.status, EvidenceOf(cfg, s0, acts, t, d))
            || (dep.state.status == Error && TeardownFailed(cfg, s0, acts, t, d))
  {
    hide At, Next, TeardownFailed, WellFormed, Acyclic, Launches;
    DependenciesAllowLaunch(cfg, s0, acts, t, v, d);
    TornDownByEvent(cfg, s0, acts, t, d);
    if d in At(cfg, s0, acts, t).tornDown {
      TornIsError(cfg, s0, acts, t, d);
    }
    EvidenceFitsThroughout(cfg, s0, acts, t, d);
    hide EvidenceOf;
  }

  lemma TornIsError(cfg: Config, s0: State, acts: nat -> Action, t: nat, d: int)
    requires ValidConfig(cfg) && Init(cfg, s0) && d in cfg.g.ids && d in At(cfg, s0, acts, t).tornDown
    ensures Status(At(cfg, s0, acts, t), d) == Error
  {
    hide At, Next;
    InvHolds(cfg, s0, acts, t);
    assert Sound(At(cfg, s0, acts, t), d);
  }

  // ------------------------------------------------------- a failure nothing excuses

  lemma ErrorStays(cfg: Config, s: State, a: Action, d: int)
    requires Inv(cfg, s) && d in cfg.g.ids && Status(s, d) == Error
    ensures Status(Next(cfg, s, a), d) == Error
  {
    hide NextPc, Inspect, HandleResult, DepsPassed;
    assert Sound(s, d);
    if a.Scan? && ChecksDependency(cfg, s.scan) {
      var x := Preds(cfg.g, cfg.g.ids[s.scan.i])[s.scan.j];
      assert x in Preds(cfg.g, cfg.g.ids[s.scan.i]);
      InspectionEffect(s.nodes[x], a.log);
    }
  }

  lemma {:induction false} ErrorForever(cfg: Config, s0: State, acts: nat -> Action, t: nat, t': nat, d: int)
    requires ValidConfig(cfg) && Init(cfg, s0) && t <= t' && d in cfg.g.ids && Status(At(cfg, s0, acts, t), d) == Error
    ensures Status(At(cfg, s0, acts, t'), d) == Error
    decreases t' - t
  {
    hide Next, Inv, WellFormed, Acyclic;
    if t < t' {
      ErrorForever(cfg, s0, acts, t, t' - 1, d);
      InvHolds(cfg, s0, acts, t' - 1);
      ErrorStays(cfg, At(cfg, s0, acts, t' - 1), acts(t' - 1), d);
    }
  }

  /** A success becomes a failure only by its teardown. */
  lemma SuccessEnds(cfg: Config, s: State, a: Action, d: int)
    requires Inv(cfg, s) && d in cfg.g.ids && Status(s, d) == Success
    ensures Status(Next(cfg, s, a), d) == Success
            || (IsWorkOf(a, d) && s.workers[d] == TearingDown && !a.event.ok && Status(Next(cfg, s, a), d) == Error)
  {
    hide NextPc, Inspect, HandleResult, DepsPassed;
    assert Sound(s, d);
    if a.Scan? && ChecksDependency(cfg, s.scan) {
      var x := Preds(cfg.g, cfg.g.ids[s.scan.i])[s.scan.j];
      assert x in Preds(cfg.g, cfg.g.ids[s.scan.i]);
      InspectionEffect(s.nodes[x], a.log);
    }
  }

  lemma {:induction false} SuccessUntilTeardown(cfg: Config, s0: State, acts: nat -> Action, t: nat, t': nat, d: int)
    requires ValidConfig(cfg) && Init(cfg, s0) && t <= t' && d in cfg.g.ids && Status(At(cfg, s0, acts, t), d) == Success
    ensures Status(At(cfg, s0, acts, t'), d) == Success
            || (Status(At(cfg, s0, acts, t'), d) == Error && TeardownFailed(cfg, s0, acts, t', d))
    decreases t' - t
  {
    hide Next, Inv, WellFormed, Acyclic;
    if t < t' {
      SuccessUntilTeardown(cfg, s0, acts, t, t' - 1, d);
      InvHolds(cfg, s0, acts, t' - 1);
      var s, a := At(cfg, s0, acts, t' - 1), acts(t' - 1);
      if Status(s, d) == Success {
        SuccessEnds(cfg, s, a, d);
        if Status(At(cfg, s0, acts, t'), d) != Success {
          assert TeardownFailsAt(cfg, s0, acts, t' - 1, d);
        }
      } else {
        ErrorStays(cfg, s, a, d);
        var k: nat :| k < t' - 1 && TeardownFailsAt(cfg, s0, acts, k, d);
        assert k < t' && TeardownFailsAt(cfg, s0, acts, k, d);
      }
    }
  }

  /** Nothing in the configuration lets dependents go on after a failure. */
  predicate Strict(step: Step) {
    !step.continueOn.failure && !step.continueOn.output && step.continueOn.exitCodes == []
  }

  /** If a strict step fails, other than by its teardown after it had succeeded, no step that
      depends on it ever starts, before or after. */
  lemma NothingFollowsAFailure(cfg: Config, s0: State, acts: nat -> Action, t: nat, d: int, t': nat, v: int)
    requires ValidConfig(cfg) && Init(cfg, s0) && NothingDecided(cfg, s0) && Edge(cfg.g, d, v) && d in cfg.g.ids
    requires Status(At(cfg, s0, acts, t), d) == Error && Strict(At(cfg, s0, acts, t).nodes[d].step)
    requires forall k: nat :: !TeardownFailsAt(cfg, s0, acts, k, d)
    ensures !Launches(cfg, At(cfg, s0, acts, t'), acts(t'), v)
  {
    hide At, Next, TeardownFailsAt, WellFormed, Acyclic, EvidenceOf, Launches;
    if Launches(cfg, At(cfg, s0, acts, t'), acts(t'), v) {
      StartsAreAsConfigured(cfg, s0, acts, t', v, d);
      SameStep(cfg, s0, acts, t, d);
      SameStep(cfg, s0, acts, t', d);
      if t <= t' {
        ErrorForever(cfg, s0, acts, t, t', d);
      } else {
        var status := Status(At(cfg, s0, acts, t'), d);
        if status == Error {
        } else if status == Success {
          SuccessUntilTeardown(cfg, s0, acts, t', t, d);
        } else {
          SkippedNeverFails(cfg, s0, acts, t', t, d);
        }
      }
    }
  }

  lemma {:induction false} SameStep(cfg: Config, s0: State, acts: nat -> Action, t: nat, d: int)
    requires Shape(cfg, s0) && d in cfg.g.ids
    ensures At(cfg, s0, acts, t).nodes[d].step == s0.nodes[d].step
    decreases t
  {
    hide Next;
    if t > 0 {
      SameStep(cfg, s0, acts, t - 1, d);
      NextKeepsStep(cfg, At(cfg, s0, acts, t - 1), acts(t - 1), d);
    }
  }

  lemma NextKeepsStep(cfg: Config, s: State, a: Action, d: int)
    requires Shape(cfg, s) && d in cfg.g.ids
    ensures Next(cfg, s, a).nodes[d].step == s.nodes[d].step
  {
    hide NextPc, Inspect;
    if a.Scan? && ChecksDependency(cfg, s.scan) {
      var x := Preds(cfg.g, cfg.g.ids[s.scan.i])[s.scan.j];
      assert x in Preds(cfg.g, cfg.g.ids[s.scan.i]);
      InspectionEffect(s.nodes[x], a.log);
    }
  }

  /** A step that is skipped and at rest never fails later. */
  lemma {:induction false} SkippedNeverFails(cfg: Config, s0: State, acts: nat -> Action, t: nat, t': nat, d: int)
    requires ValidConfig(cfg) && Init(cfg, s0) && t <= t' && d in cfg.g.ids
    requires Status(At(cfg, s0, acts, t), d) == Skipped
    ensures Status(At(cfg, s0, acts, t'), d) in {Skipped, Cancel} && At(cfg, s0, acts, t').workers[d] == Idle
    decreases t' - t
  {
    hide Next, Inv, WellFormed, Acyclic;
    InvHolds(cfg, s0, acts, t');
    if t < t' {
      SkippedNeverFails(cfg, s0, acts, t, t' - 1, d);
      InvHolds(cfg, s0, acts, t' - 1);
      RestStays(cfg, At(cfg, s0, acts, t' - 1), acts(t' - 1), d);
    } else {
      SkippedRests(cfg, At(cfg, s0, acts, t), d);
    }
  }

  lemma SkippedRests(cfg: Config, s: State, d: int)
    requires Inv(cfg, s) && d in cfg.g.ids && Status(s, d) == Skipped
    ensures s.workers[d] == Idle
  {
    assert Sound(s, d);
  }

  lemma RestStays(cfg: Config, s: State, a: Action, d: int)
    requires Inv(cfg, s) && d in cfg.g.ids && Status(s, d) in {Skipped, Cancel} && s.workers[d] == Idle
    ensures Status(Next(cfg, s, a), d) in {Skipped, Cancel} && Next(cfg, s, a).workers[d] == Idle
  {
    hide NextPc, Inspect, HandleResult, DepsPassed;
    if a.Scan? && ChecksDependency(cfg, s.scan) {
      var x := Preds(cfg.g, cfg.g.ids[s.scan.i])[s.scan.j];
      assert x in Preds(cfg.g, cfg.g.ids[s.scan.i]);
      InspectionEffect(s.nodes[x], a.log);
    }
  }
}
