/** What becomes of a step, told from what happened to it: how its preconditions, setup,
    execution and teardown turned out. */
module Results {
  import opened Digraph
  import opened Nodes
  import opened Engine
  import opened Safety
  import opened Runs
  import opened Executions
  import opened Decisions
  import opened Wrappers

  // ------------------------------------------------------------- a failed execution

  /** The configuration turns this failure into a success. */
  predicate Forgiven(step: Step, e: Event) {
    step.continueOn.markSuccess && Allows(step, Error, ExitCodeOf(e), e.log)
  }

  /** A failed execution that nobody has cancelled: past the deadline the step is cancelled;
      while retries are left it waits for one; otherwise it has failed, and the run with it,
      unless the failure is forgiven. */
  lemma FailedExecution(cfg: Config, s: State, v: int, e: Event)
    requires Inv(cfg, s) && v in cfg.g.ids && s.workers[v] == Executing && !s.canceled && !RanWell(e)
    ensures var d, s' := s.nodes[v], Next(cfg, s, Work(v, e));
            var d' := s'.nodes[v];
            if s.expired then d'.state.status == Cancel && s'.workers[v] == Idle && s'.lastError && d'.state.retryCount == d.state.retryCount
            else if d.state.retryCount < d.step.retryLimit then
              d'.state.status == Running && s'.workers[v] == Backoff && s'.lastError == s.lastError
              && d'.state.retryCount == d.state.retryCount + 1
            else
              && s'.workers[v] == Idle && d'.state.retryCount == d.state.retryCount
              && if Forgiven(d.step, e) then d'.state.status == Success && s'.lastError == s.lastError
                 else d'.state.status == Error && s'.lastError
  {
    var ran := s.nodes[v].(state := s.nodes[v].state.(exitCode := ExitCodeOf(e)), decision := None);
    AnswerAsConfigured(WithStatus(ran, Error), e.log);
    assert Sound(s, v);
    hide Judge, ShouldContinue;
  }

  /** One that fails after a cancellation: the run has failed, the step is left as it is, and
      if it is still running a signal turns it into a cancelled one. */
  lemma FailedExecutionOfCanceled(cfg: Config, s: State, v: int, e: Event)
    requires Inv(cfg, s) && v in cfg.g.ids && s.workers[v] == Executing && s.canceled && !s.expired && !RanWell(e)
    ensures var s' := Next(cfg, s, Work(v, e));
            && Status(s', v) == Status(s, v) && s'.workers[v] == Idle
            && s'.nodes[v].state.retryCount == s.nodes[v].state.retryCount
            && (s'.lastError <==> s.lastError || Status(s, v) == Running)
  {
    assert Sound(s, v);
    hide Judge, ShouldContinue;
  }

  /** A cancelled step, unless it is just being scanned, stays cancelled through its execution
      and to its end: it changes only if its preconditions, setup or teardown fail, or when its
      wait for a retry is over. */
  lemma CanceledStepStays(cfg: Config, s: State, a: Action, v: int)
    requires Inv(cfg, s) && v in cfg.g.ids && Status(s, v) == Cancel && !UnderScan(cfg, s, v)
    ensures Status(Next(cfg, s, a), v) ==
            if !IsWorkOf(a, v) then Cancel
            else if s.workers[v] == Precondition && !a.event.ok then Skipped
            else if (s.workers[v] == SettingUp || s.workers[v] == TearingDown) && !a.event.ok then Error
            else if s.workers[v] == Backoff then NotStarted
            else Cancel
  {
    hide NextPc, Inspect, DepsPassed;
    if a.Scan? && ChecksDependency(cfg, s.scan) {
      var d := Preds(cfg.g, cfg.g.ids[s.scan.i])[s.scan.j];
      assert d in Preds(cfg.g, cfg.g.ids[s.scan.i]);
      InspectionEffect(s.nodes[d], a.log);
    }
  }

  // ----------------------------------------------------------- what happened to a step

  datatype Execution = Execution(event: Event, expired: bool)

  /** How far an attempt has come, and how each part of it turned out. */
  datatype Trace = Trace(precondition: Option<bool>, setup: Option<bool>, execution: Option<Execution>,
                         teardown: Option<bool>, reset: bool)

  const NotBegun := Trace(None, None, None, None, false)

  /** What an action adds to the trace of an attempt of `v`. */
  function Noted(s: State, a: Action, v: int, tr: Trace): Trace {
    if !IsWorkOf(a, v) || v !in s.workers then tr
    else
      match s.workers[v]
      case Idle => tr
      case Precondition => tr.(precondition := Some(a.event.ok))
      case SettingUp => tr.(setup := Some(a.event.ok))
      case LoopTop => tr
      case Executing => tr.(execution := Some(Execution(a.event, s.expired)))
      case Backoff => tr.(reset := true)
      case Ending => tr
      case TearingDown => tr.(teardown := Some(a.event.ok))
  }

  /** The trace of the attempt of `v` that began at `k`. */
  ghost function TraceOf(cfg: Config, s0: State, acts: nat -> Action, k: nat, t: nat, v: int): Trace
    requires Shape(cfg, s0)
    decreases t
  {
    if t <= k + 1 then NotBegun
    else Noted(At(cfg, s0, acts, t - 1), acts(t - 1), v, TraceOf(cfg, s0, acts, k, t - 1, v))
  }

  predicate Retried(step: Step, tries: nat, tr: Trace) {
    tr.execution.Some? && !RanWell(tr.execution.value.event) && !tr.execution.value.expired && tries < step.retryLimit
  }

  /** How an attempt ends that nobody cancels.  A step that is to be retried may be barred
      before it is started again. */
  predicate EndsAs(step: Step, tries: nat, tr: Trace, status: NodeStatus) {
    && tr.precondition.Some?
    && if !tr.precondition.value then status == Skipped && tr.setup.None? && tr.execution.None?
       else
         && tr.setup.Some?
         && if !tr.setup.value then status == Error && tr.execution.None?
            else
              && tr.execution.Some?
              && var x := tr.execution.value;
              if RanWell(x.event) then tr.teardown.Some? && status == (if tr.teardown.value then Success else Error)
              else if x.expired then status == Cancel
              else if tries < step.retryLimit then status in {NotStarted, Cancel, Skipped}
              else status == if Forgiven(step, x.event) then Success else Error
  }

  /** Up to the execution all has gone well. */
  predicate Begun(tr: Trace) {
    tr.precondition == Some(true) && tr.setup == Some(true) && tr.teardown == None
  }

  /** What a worker's position and its step's status tell of the attempt, in a run that is not
      cancelled. */
  ghost predicate TraceFits(cfg: Config, s: State, v: int, tries: nat, tr: Trace) {
    && v in s.nodes && v in s.workers
    && var d, status := s.nodes[v], Status(s, v);
    match s.workers[v]
    case Precondition => tr == NotBegun && status == Running && d.state.retryCount == tries
    case SettingUp => tr == NotBegun.(precondition := Some(true)) && status == Running && d.state.retryCount == tries
    case LoopTop => Begun(tr) && tr.execution.None? && status == Running && d.state.retryCount == tries
    case Executing => Begun(tr) && tr.execution.None? && status == Running && d.state.retryCount == tries
    case Backoff => Begun(tr) && Retried(d.step, tries, tr) && status == Running && d.state.retryCount == tries + 1
    case Ending => AfterWork(tr) && status == (if tr.setup.value then Running else Error)
    case TearingDown => AfterWork(tr) && status == (if tr.setup.value then Success else Error)
    case Idle =>
      && EndsAs(d.step, tries, tr, status)
      && (UnderScan(cfg, s, v) || status == NotStarted ==> Begun(tr) && Retried(d.step, tries, tr))
      && (Begun(tr) && Retried(d.step, tries, tr) ==> d.state.retryCount == tries + 1)
  }

  /** The setup failed, or the execution succeeded. */
  predicate AfterWork(tr: Trace) {
    && tr.precondition == Some(true) && tr.setup.Some? && tr.teardown == None
    && if tr.setup.value then tr.execution.Some? && RanWell(tr.execution.value.event) else tr.execution.None?
  }

  lemma WorkFitsTrace(cfg: Config, s: State, v: int, e: Event, tries: nat, tr: Trace)
    requires v in s.nodes && v in s.workers && !s.canceled && TraceFits(cfg, s, v, tries, tr)
    requires UnderScan(cfg, s, v) ==> s.workers[v] == Idle
    ensures TraceFits(cfg, WorkStep(s, v, e), v, tries, Noted(s, Work(v, e), v, tr))
  {
    var ran := s.nodes[v].(state := s.nodes[v].state.(exitCode := ExitCodeOf(e)), decision := None);
    AnswerAsConfigured(WithStatus(ran, Error), e.log);
    hide Judge, ShouldContinue;
  }

  lemma CheckFitsTrace(cfg: Config, s: State, log: LogProbe, v: int, tries: nat, tr: Trace)
    requires Inv(cfg, s) && NoSelfLoop(cfg.g) && v in cfg.g.ids && ChecksDependency(cfg, s.scan) && TraceFits(cfg, s, v, tries, tr)
    ensures TraceFits(cfg, CheckDependency(cfg, s, log), v, tries, tr)
  {
    hide Inspect, DepsPassed, Sound, Forgiven;
    var d := Preds(cfg.g, cfg.g.ids[s.scan.i])[s.scan.j];
    assert d in Preds(cfg.g, cfg.g.ids[s.scan.i]);
    InspectionEffect(s.nodes[d], log);
  }

  lemma LookFitsTrace(cfg: Config, s: State, log: LogProbe, v: int, tries: nat, tr: Trace)
    requires Inv(cfg, s) && v in cfg.g.ids && !ChecksDependency(cfg, s.scan) && !Launches(cfg, s, Scan(log), v)
    requires TraceFits(cfg, s, v, tries, tr)
    ensures TraceFits(cfg, ScanStep(cfg, s, log), v, tries, tr)
  {
    hide CheckDependency, NextPc, DepsPassed, Sound, EndsAs, AfterWork, Begun, Retried;
    TakesUpUnstarted(cfg, s);
  }

  lemma NextFitsTrace(cfg: Config, s: State, a: Action, v: int, tries: nat, tr: Trace)
    requires Inv(cfg, s) && NoSelfLoop(cfg.g) && v in cfg.g.ids && !Launches(cfg, s, a, v) && !s.canceled
    requires TraceFits(cfg, s, v, tries, tr)
    ensures Next(cfg, s, a).canceled || TraceFits(cfg, Next(cfg, s, a), v, tries, Noted(s, a, v, tr))
  {
    hide CheckDependency, WorkStep, Sound, DepsPassed, EndsAs, AfterWork, Begun, Retried, NextPc;
    match a
    case Scan(log) =>
      if ChecksDependency(cfg, s.scan) {
        CheckFitsTrace(cfg, s, log, v, tries, tr);
      } else {
        LookFitsTrace(cfg, s, log, v, tries, tr);
      }
    case Work(w, e) =>
      if w == v {
        WorkFitsTrace(cfg, s, v, e, tries, tr);
      } else if w in cfg.g.ids {
        WorkIsLocal(s, w, e);
        assert Untouched(s, WorkStep(s, w, e), v);
      }
    case _ =>
  }

  lemma LaunchFitsTrace(cfg: Config, s: State, a: Action, v: int)
    requires Inv(cfg, s) && v in cfg.g.ids && Launches(cfg, s, a, v)
    ensures TraceFits(cfg, Next(cfg, s, a), v, s.nodes[v].state.retryCount, NotBegun)
  {
    hide NextPc, Sound, DepsPassed;
  }

  ghost function TriesBefore(cfg: Config, s0: State, acts: nat -> Action, k: nat, v: int): nat
    requires Shape(cfg, s0) && v in cfg.g.ids
  {
    At(cfg, s0, acts, k).nodes[v].state.retryCount
  }

  lemma {:induction false} TraceFitsThroughout(cfg: Config, s0: State, acts: nat -> Action, k: nat, t: nat, v: int)
    requires ValidConfig(cfg) && Init(cfg, s0) && v in cfg.g.ids && LastAttempt(cfg, s0, acts, k, t, v)
    requires !At(cfg, s0, acts, t).canceled
    ensures TraceFits(cfg, At(cfg, s0, acts, t), v, TriesBefore(cfg, s0, acts, k, v), TraceOf(cfg, s0, acts, k, t, v))
    decreases t
  {
    hide Next, Inv, TraceFits, Noted, Launches, WellFormed, Acyclic, InRange;
    if t == k + 1 {
      InvHolds(cfg, s0, acts, k);
      LaunchFitsTrace(cfg, At(cfg, s0, acts, k), acts(k), v);
    } else {
      var s, a := At(cfg, s0, acts, t - 1), acts(t - 1);
      if s.canceled {
        CanceledForever(cfg, s0, acts, t - 1, t);
      }
      TraceFitsThroughout(cfg, s0, acts, k, t - 1, v);
      InvHolds(cfg, s0, acts, t - 1);
      assert !LaunchedAt(cfg, s0, acts, t - 1, v);
      NextFitsTrace(cfg, s, a, v, TriesBefore(cfg, s0, acts, k, v), TraceOf(cfg, s0, acts, k, t - 1, v));
    }
  }

  /** In a run that is not cancelled, an attempt that is over has the outcome that its trace
      tells: skipped by its preconditions, failed by its setup or teardown, cancelled by the
      deadline, to be retried exactly while retries are left, and otherwise a success exactly
      if the execution succeeded or its failure is forgiven. */
  lemma AttemptEnds(cfg: Config, s0: State, acts: nat -> Action, k: nat, t: nat, v: int)
    requires ValidConfig(cfg) && Init(cfg, s0) && v in cfg.g.ids && LastAttempt(cfg, s0, acts, k, t, v)
    requires !At(cfg, s0, acts, t).canceled && At(cfg, s0, acts, t).workers[v] == Idle
    ensures var d := At(cfg, s0, acts, t).nodes[v];
            EndsAs(d.step, TriesBefore(cfg, s0, acts, k, v), TraceOf(cfg, s0, acts, k, t, v), d.state.status)
  {
    hide At, Next, EndsAs, Begun, Retried, LastAttempt, ValidConfig;
    TraceFitsThroughout(cfg, s0, acts, k, t, v);
  }

  /** A step whose failures are not to be marked as successes has succeeded exactly if its
      execution did and its teardown did not fail. */
  lemma SucceedsExactly(cfg: Config, s0: State, acts: nat -> Action, k: nat, t: nat, v: int)
    requires ValidConfig(cfg) && Init(cfg, s0) && v in cfg.g.ids && LastAttempt(cfg, s0, acts, k, t, v)
    requires !At(cfg, s0, acts, t).canceled && At(cfg, s0, acts, t).workers[v] == Idle
    requires !At(cfg, s0, acts, t).nodes[v].step.continueOn.markSuccess
    ensures var tr := TraceOf(cfg, s0, acts, k, t, v);
            Status(At(cfg, s0, acts, t), v) == Success <==>
              tr.execution.Some? && RanWell(tr.execution.value.event) && tr.teardown == Some(true)
  {
    hide At, Next, LastAttempt, ValidConfig;
    AttemptEnds(cfg, s0, acts, k, t, v);
  }

  // ----------------------------------------------- successes of any run, cancelled or not

  /** A success that has an execution behind it. */
  predicate Justified(step: Step, tr: Trace) {
    tr.execution.None? || RanWell(tr.execution.value.event) || Forgiven(step, tr.execution.value.event)
  }

  ghost predicate JustifiedSoFar(s: State, v: int, tr: Trace) {
    && v in s.nodes && v in s.workers
    && match s.workers[v]
       case Precondition => tr.execution.None?
       case SettingUp => tr.execution.None?
       case LoopTop => tr.execution.None?
       case Executing => tr.execution.None?
       case Backoff => Status(s, v) != Success
       case Ending => tr.execution.None? || RanWell(tr.execution.value.event)
       case TearingDown => tr.execution.None? || RanWell(tr.execution.value.event)
       case Idle => Status(s, v) == Success ==> Justified(s.nodes[v].step, tr)
  }

  lemma WorkStaysJustified(s: State, v: int, e: Event, tr: Trace)
    requires v in s.nodes && v in s.workers && Sound(s, v) && JustifiedSoFar(s, v, tr)
    ensures JustifiedSoFar(WorkStep(s, v, e), v, Noted(s, Work(v, e), v, tr))
  {
    var ran := s.nodes[v].(state := s.nodes[v].state.(exitCode := ExitCodeOf(e)), decision := None);
    AnswerAsConfigured(WithStatus(ran, Error), e.log);
    hide Judge, ShouldContinue;
  }

  lemma NextStaysJustified(cfg: Config, s: State, a: Action, v: int, tr: Trace)
    requires Inv(cfg, s) && v in cfg.g.ids && !Launches(cfg, s, a, v) && JustifiedSoFar(s, v, tr)
    ensures JustifiedSoFar(Next(cfg, s, a), v, Noted(s, a, v, tr))
  {
    hide WorkStep, Sound, DepsPassed, NextPc, Inspect, Forgiven;
    match a
    case Scan(log) =>
      if ChecksDependency(cfg, s.scan) {
        var d := Preds(cfg.g, cfg.g.ids[s.scan.i])[s.scan.j];
        assert d in Preds(cfg.g, cfg.g.ids[s.scan.i]);
        InspectionEffect(s.nodes[d], log);
      }
    case Work(w, e) =>
      if w == v {
        assert Sound(s, v);
        WorkStaysJustified(s, v, e, tr);
      } else if w in cfg.g.ids {
        WorkIsLocal(s, w, e);
        assert Untouched(s, WorkStep(s, w, e), v);
      }
    case _ =>
  }

  lemma LaunchIsJustified(cfg: Config, s: State, a: Action, v: int)
    requires Shape(cfg, s) && v in cfg.g.ids && Launches(cfg, s, a, v)
    ensures JustifiedSoFar(Next(cfg, s, a), v, NotBegun)
  {
    hide NextPc;
  }

  lemma {:induction false} JustifiedThroughout(cfg: Config, s0: State, acts: nat -> Action, k: nat, t: nat, v: int)
    requires ValidConfig(cfg) && Init(cfg, s0) && v in cfg.g.ids && LastAttempt(cfg, s0, acts, k, t, v)
    ensures JustifiedSoFar(At(cfg, s0, acts, t), v, TraceOf(cfg, s0, acts, k, t, v))
    decreases t
  {
    hide Next, Inv, JustifiedSoFar, Noted, Launches, WellFormed, Acyclic, InRange;
    if t == k + 1 {
      LaunchIsJustified(cfg, At(cfg, s0, acts, k), acts(k), v);
    } else {
      JustifiedThroughout(cfg, s0, acts, k, t - 1, v);
      InvHolds(cfg, s0, acts, t - 1);
      assert !LaunchedAt(cfg, s0, acts, t - 1, v);
      NextStaysJustified(cfg, At(cfg, s0, acts, t - 1), acts(t - 1), v, TraceOf(cfg, s0, acts, k, t - 1, v));
    }
  }

  /** In any run: if a step is successful although the execution of its last attempt was not,
      its failures are to be marked as successes, and failure is allowed, the exit code is
      listed, or a pattern was found in the log. */
  lemma OnlyForgivenFailuresSucceed(cfg: Config, s0: State, acts: nat -> Action, k: nat, t: nat, v: int)
    requires ValidConfig(cfg) && Init(cfg, s0) && v in cfg.g.ids && LastAttempt(cfg, s0, acts, k, t, v)
    requires Status(At(cfg, s0, acts, t), v) == Success
    ensures var x := TraceOf(cfg, s0, acts, k, t, v).execution;
            x.Some? && !RanWell(x.value.event) ==> Forgiven(At(cfg, s0, acts, t).nodes[v].step, x.value.event)
  {
    hide At, Next, LastAttempt, ValidConfig, Forgiven, RanWell;
    JustifiedThroughout(cfg, s0, acts, k, t, v);
    InvHolds(cfg, s0, acts, t);
    assert Sound(At(cfg, s0, acts, t), v);
  }
}
