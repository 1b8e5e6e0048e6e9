/** What a step's success says about its command, and short runs that show where the
    exceptions in the general statements come from. */
module Executions {
  import opened Digraph
  import opened Nodes
  import opened Engine
  import opened Safety
  import opened Runs
  import opened Verdicts
  import opened Wrappers

  /** The worker of `v` runs the command, to whatever result. */
  ghost predicate ExecutesAt(cfg: Config, s0: State, acts: nat -> Action, k: nat, v: int)
    requires Shape(cfg, s0) && v in cfg.g.ids
  {
    Executes(At(cfg, s0, acts, k), acts(k), v)
  }

  ghost predicate Executes(s: State, a: Action, v: int) {
    IsWorkOf(a, v) && v in s.workers && s.workers[v] == Executing && a.event.built
  }

  /** The worker of `v`, about to run the command, finds the cancel flag set, or cannot set up
      an executor. */
  ghost predicate GivesUp(s: State, a: Action, v: int) {
    && IsWorkOf(a, v) && v in s.workers
    && ((s.workers[v] == LoopTop && s.canceled) || (s.workers[v] == Executing && !a.event.built))
  }

  ghost predicate GivesUpAt(cfg: Config, s0: State, acts: nat -> Action, k: nat, v: int)
    requires Shape(cfg, s0) && v in cfg.g.ids
  {
    GivesUp(At(cfg, s0, acts, k), acts(k), v)
  }

  ghost predicate Executed(cfg: Config, s0: State, acts: nat -> Action, from: nat, t: nat, v: int)
    requires Shape(cfg, s0) && v in cfg.g.ids
  {
    exists k: nat :: from <= k < t && ExecutesAt(cfg, s0, acts, k, v)
  }

  ghost predicate GaveUp(cfg: Config, s0: State, acts: nat -> Action, from: nat, t: nat, v: int)
    requires Shape(cfg, s0) && v in cfg.g.ids
  {
    exists k: nat :: from <= k < t && GivesUpAt(cfg, s0, acts, k, v)
  }

  /** The attempt that begins at `k` is the last one before `t`. */
  ghost predicate LastAttempt(cfg: Config, s0: State, acts: nat -> Action, k: nat, t: nat, v: int)
    requires Shape(cfg, s0)
  {
    k < t && LaunchedAt(cfg, s0, acts, k, v) && forall j: nat :: k < j < t ==> !LaunchedAt(cfg, s0, acts, j, v)
  }

  /** What the position of a worker tells of its attempt: up to the execution neither has
      happened; past it, unless the setup failed, exactly one of them has. */
  ghost predicate AttemptFits(s: State, v: int, executed: bool, gaveUp: bool)
    requires v in s.nodes && v in s.workers
  {
    match s.workers[v]
    case Idle => Status(s, v) == Success ==> executed != gaveUp
    case Backoff => Status(s, v) != Success
    case Ending => Status(s, v) != Error ==> executed != gaveUp
    case TearingDown => Status(s, v) != Error ==> executed != gaveUp
    case _ => !executed && !gaveUp
  }

  lemma WorkFitsAttempt(s: State, v: int, e: Event, executed: bool, gaveUp: bool)
    requires v in s.nodes && v in s.workers && Sound(s, v) && AttemptFits(s, v, executed, gaveUp)
    ensures AttemptFits(WorkStep(s, v, e), v, executed || Executes(s, Work(v, e), v), gaveUp || GivesUp(s, Work(v, e), v))
  {
  }

  lemma CheckFitsAttempt(cfg: Config, s: State, log: LogProbe, v: int, executed: bool, gaveUp: bool)
    requires Inv(cfg, s) && v in cfg.g.ids && ChecksDependency(cfg, s.scan) && AttemptFits(s, v, executed, gaveUp)
    ensures AttemptFits(CheckDependency(cfg, s, log), v, executed, gaveUp)
  {
    hide Inspect, DepsPassed, Sound;
    var d := Preds(cfg.g, cfg.g.ids[s.scan.i])[s.scan.j];
    assert d in Preds(cfg.g, cfg.g.ids[s.scan.i]);
    InspectionEffect(s.nodes[d], log);
  }

  lemma ScanFitsAttempt(cfg: Config, s: State, log: LogProbe, v: int, executed: bool, gaveUp: bool)
    requires Inv(cfg, s) && v in cfg.g.ids && !Launches(cfg, s, Scan(log), v) && AttemptFits(s, v, executed, gaveUp)
    ensures AttemptFits(ScanStep(cfg, s, log), v, executed, gaveUp)
  {
    hide NextPc, CheckDependency, ScanFits, Sound;
    if ChecksDependency(cfg, s.scan) {
      CheckFitsAttempt(cfg, s, log, v, executed, gaveUp);
    }
  }

  /** One more action, other than a start of `v`. */
  lemma StepFitsAttempt(cfg: Config, s: State, a: Action, v: int, executed: bool, gaveUp: bool)
    requires Inv(cfg, s) && v in cfg.g.ids && !Launches(cfg, s, a, v)
    requires AttemptFits(s, v, executed, gaveUp)
    ensures AttemptFits(Next(cfg, s, a), v, executed || Executes(s, a, v), gaveUp || GivesUp(s, a, v))
  {
    hide WorkStep, ScanStep, Sound, ScanFits;
    match a
    case Scan(log) => ScanFitsAttempt(cfg, s, log, v, executed, gaveUp);
    case Work(w, e) =>
      if w == v {
        assert Sound(s, v);
        WorkFitsAttempt(s, v, e, executed, gaveUp);
      } else if w in cfg.g.ids {
        WorkIsLocal(s, w, e);
        assert Untouched(s, WorkStep(s, w, e), v);
      }
    case _ =>
  }

  lemma NothingYet(cfg: Config, s0: State, acts: nat -> Action, t: nat, v: int)
    requires Shape(cfg, s0) && v in cfg.g.ids
    ensures !Executed(cfg, s0, acts, t, t, v) && !GaveUp(cfg, s0, acts, t, t, v)
  {
  }

  lemma OneActionMore(cfg: Config, s0: State, acts: nat -> Action, from: nat, t: nat, v: int)
    requires Shape(cfg, s0) && v in cfg.g.ids && from <= t
    ensures Executed(cfg, s0, acts, from, t + 1, v) <==>
              Executed(cfg, s0, acts, from, t, v) || ExecutesAt(cfg, s0, acts, t, v)
    ensures GaveUp(cfg, s0, acts, from, t + 1, v) <==>
              GaveUp(cfg, s0, acts, from, t, v) || GivesUpAt(cfg, s0, acts, t, v)
  {
    hide ExecutesAt, GivesUpAt;
  }

  lemma LaunchFitsAttempt(cfg: Config, s: State, a: Action, v: int)
    requires Shape(cfg, s) && v in cfg.g.ids && Launches(cfg, s, a, v)
    ensures AttemptFits(Next(cfg, s, a), v, false, false)
  {
    hide NextPc;
  }

  lemma {:induction false} AttemptFitsThroughout(cfg: Config, s0: State, acts: nat -> Action, k: nat, t: nat, v: int)
    requires ValidConfig(cfg) && Init(cfg, s0) && v in cfg.g.ids && LastAttempt(cfg, s0, acts, k, t, v)
    ensures AttemptFits(At(cfg, s0, acts, t), v, Executed(cfg, s0, acts, k + 1, t, v), GaveUp(cfg, s0, acts, k + 1, t, v))
    decreases t
  {
    hide Next, Inv, AttemptFits, Executed, GaveUp, Launches, WellFormed, Acyclic, InRange, IsWorkOf;
    if t == k + 1 {
      NothingYet(cfg, s0, acts, t, v);
      LaunchFitsAttempt(cfg, At(cfg, s0, acts, k), acts(k), v);
    } else {
      AttemptFitsThroughout(cfg, s0, acts, k, t - 1, v);
      InvHolds(cfg, s0, acts, t - 1);
      assert !LaunchedAt(cfg, s0, acts, t - 1, v);
      StepFitsAttempt(cfg, At(cfg, s0, acts, t - 1), acts(t - 1), v,
                      Executed(cfg, s0, acts, k + 1, t - 1, v), GaveUp(cfg, s0, acts, k + 1, t - 1, v));
      OneActionMore(cfg, s0, acts, k + 1, t - 1, v);
    }
  }

  // ------------------------------------------------------------- there is an attempt

  ghost predicate Untried(s: State, v: int, wasSuccess: bool)
    requires v in s.nodes && v in s.workers
  {
    s.workers[v] == Idle && (Status(s, v) == Success ==> wasSuccess)
  }

  lemma StaysUntried(cfg: Config, s: State, a: Action, v: int, wasSuccess: bool)
    requires Shape(cfg, s) && v in cfg.g.ids && !Launches(cfg, s, a, v) && Untried(s, v, wasSuccess)
    ensures Untried(Next(cfg, s, a), v, wasSuccess)
  {
    hide NextPc, Inspect, HandleResult;
    if a.Scan? && ChecksDependency(cfg, s.scan) {
      var d := Preds(cfg.g, cfg.g.ids[s.scan.i])[s.scan.j];
      assert d in Preds(cfg.g, cfg.g.ids[s.scan.i]);
      InspectionEffect(s.nodes[d], a.log);
    }
  }

  /** Either there is a last attempt or the step has not been touched by a worker. */
  lemma {:induction false} FindAttempt(cfg: Config, s0: State, acts: nat -> Action, t: nat, v: int) returns (k: Option<nat>)
    requires Init(cfg, s0) && v in cfg.g.ids
    ensures k.Some? ==> LastAttempt(cfg, s0, acts, k.value, t, v)
    ensures k.None? ==> Untried(At(cfg, s0, acts, t), v, Status(s0, v) == Success)
    decreases t
  {
    hide Next, Launches;
    if t == 0 {
      k := None;
    } else if LaunchedAt(cfg, s0, acts, t - 1, v) {
      k := Some(t - 1);
    } else {
      k := FindAttempt(cfg, s0, acts, t - 1, v);
      if k.None? {
        StaysUntried(cfg, At(cfg, s0, acts, t - 1), acts(t - 1), v, Status(s0, v) == Success);
      }
    }
  }

  /** A step that became successful was started, and in its last attempt its command ran
      exactly unless the worker, when it was about to run it, found the cancel flag set or
      could not set up an executor. */
  lemma SuccessMeansExecuted(cfg: Config, s0: State, acts: nat -> Action, t: nat, v: int) returns (k: nat)
    requires ValidConfig(cfg) && Init(cfg, s0) && v in cfg.g.ids
    requires Status(s0, v) != Success && Status(At(cfg, s0, acts, t), v) == Success
    ensures LastAttempt(cfg, s0, acts, k, t, v)
    ensures Executed(cfg, s0, acts, k + 1, t, v) <==> !GaveUp(cfg, s0, acts, k + 1, t, v)
  {
    hide At, Next, Inv, Executed, GaveUp, LastAttempt, ValidConfig;
    var last := FindAttempt(cfg, s0, acts, t, v);
    k := last.value;
    AttemptFitsThroughout(cfg, s0, acts, k, t, v);
    InvHolds(cfg, s0, acts, t);
    SuccessIsPastExecution(cfg, At(cfg, s0, acts, t), v, Executed(cfg, s0, acts, k + 1, t, v),
                           GaveUp(cfg, s0, acts, k + 1, t, v));
  }

  lemma SuccessIsPastExecution(cfg: Config, s: State, v: int, executed: bool, gaveUp: bool)
    requires Inv(cfg, s) && v in cfg.g.ids && Status(s, v) == Success && AttemptFits(s, v, executed, gaveUp)
    ensures executed != gaveUp
  {
    assert Sound(s, v);
  }

  // ---------------------------------------------------------- runs of a single step

  const Fresh := Plain(ContinueOn(false, false, [], false, false), 0)
  const Good := Event(true, true, 0, NotMatched)
  const Bad := Event(false, true, 1, NotMatched)
  const Unbuilt := Event(false, false, 0, NotMatched)

  function Plain(continueOn: ContinueOn, retryLimit: int): NodeData {
    NodeData(Step("step", [], continueOn, retryLimit), ClearedState, None)
  }

  lemma AtStart(cfg: Config, s0: State, acts: nat -> Action)
    requires Shape(cfg, s0)
    ensures At(cfg, s0, acts, 0) == s0
  {
  }

  lemma AtNext(cfg: Config, s0: State, acts: nat -> Action, t: nat, s: State, s': State)
    requires Shape(cfg, s0) && At(cfg, s0, acts, t) == s && Next(cfg, s, acts(t)) == s'
    ensures At(cfg, s0, acts, t + 1) == s'
  {
  }

  const Alone := Config(Graph([1], map[], map[]), 0)

  function Solo(d: NodeData, w: Worker, pc: ScanPc, canceled: bool): State {
    State(map[1 := d], map[1 := w], pc, canceled, false, false, {})
  }

  function SoloStart(first: NodeData): State {
    Solo(first, Idle, IsFinished(0), false)
  }

  lemma AloneIsValid(first: NodeData)
    requires first.state.status == NotStarted
    ensures ValidConfig(Alone) && Init(Alone, SoloStart(first))
  {
    assert IdSet(Alone.g) == {1};
    OrderedMeansAcyclic(Alone.g, [1]);
  }

  ghost predicate Stage(first: NodeData, acts: nat -> Action, t: nat, d: NodeData, w: Worker, pc: ScanPc, canceled: bool) {
    Init(Alone, SoloStart(first)) && At(Alone, SoloStart(first), acts, t) == Solo(d, w, pc, canceled)
  }

  /** Where the scanner of a single step goes next, short of starting it. */
  function Onward(status: NodeStatus, pc: ScanPc, canceled: bool): ScanPc {
    match pc
    case IsFinished(k) => if k == 1 then Left else if Finished(status) then IsFinished(1) else CheckCanceled
    case CheckCanceled => if canceled then Left else Visit(0)
    case Visit(i) => if i == 1 then IsFinished(0) else if status != NotStarted then Visit(1) else Dependency(0, 0, true)
    case Dependency(_, _, ready) => if ready then Gate(0) else Visit(1)
    case Gate(_) => if canceled then IsFinished(0) else Launch(0)
    case Count(_, _, _) => pc
    case Launch(_) => pc
    case Left => Left
  }

  lemma SoloLooks(d: NodeData, w: Worker, pc: ScanPc, canceled: bool)
    requires InRange(Alone.g, pc) && !pc.Launch? && !pc.Count?
    ensures Shape(Alone, Solo(d, w, pc, canceled)) && !ChecksDependency(Alone, pc)
    ensures NextPc(Alone, Solo(d, w, pc, canceled)) == Onward(d.state.status, pc, canceled)
  {
  }

  lemma ScanTurn(first: NodeData, acts: nat -> Action, t: nat, d: NodeData, w: Worker, pc: ScanPc, canceled: bool)
    requires InRange(Alone.g, pc) && !pc.Launch? && !pc.Count?
    requires acts(t).Scan? && Stage(first, acts, t, d, w, pc, canceled)
    ensures Stage(first, acts, t + 1, d, w, Onward(d.state.status, pc, canceled), canceled)
  {
    hide At, CheckDependency, NextPc, Onward;
    var s := Solo(d, w, pc, canceled);
    SoloLooks(d, w, pc, canceled);
    AtNext(Alone, SoloStart(first), acts, t, s, s.(scan := Onward(d.state.status, pc, canceled)));
  }

  lemma LaunchTurn(first: NodeData, acts: nat -> Action, t: nat, d: NodeData)
    requires acts(t).Scan? && Stage(first, acts, t, d, Idle, Launch(0), false)
    ensures Stage(first, acts, t + 1, WithStatus(d, Running), Precondition, Visit(1), false)
  {
    hide At, CheckDependency;
    AtNext(Alone, SoloStart(first), acts, t, Solo(d, Idle, Launch(0), false),
           Solo(WithStatus(d, Running), Precondition, Visit(1), false));
  }

  lemma CancelTurn(first: NodeData, acts: nat -> Action, t: nat, d: NodeData, w: Worker, pc: ScanPc)
    requires acts(t) == SetCanceled && Stage(first, acts, t, d, w, pc, false)
    ensures Stage(first, acts, t + 1, d, w, pc, true)
  {
    hide At;
    AtNext(Alone, SoloStart(first), acts, t, Solo(d, w, pc, false), Solo(d, w, pc, true));
  }

  lemma SignalTurn(first: NodeData, acts: nat -> Action, t: nat, d: NodeData, w: Worker, pc: ScanPc)
    requires acts(t) == SignalNode(1) && Stage(first, acts, t, d, w, pc, true) && d.state.status == Running
    ensures Stage(first, acts, t + 1, WithStatus(d, Cancel), w, pc, true)
  {
    hide At;
    assert 1 in Alone.g.ids;
    AtNext(Alone, SoloStart(first), acts, t, Solo(d, w, pc, true), Solo(WithStatus(d, Cancel), w, pc, true));
  }

  lemma WorkTurn(first: NodeData, acts: nat -> Action, t: nat, e: Event, d: NodeData, w: Worker, pc: ScanPc,
                 canceled: bool, d': NodeData, w': Worker)
    requires acts(t) == Work(1, e) && Stage(first, acts, t, d, w, pc, canceled)
    requires Proceed(d, w, canceled, false, e) == Progress(d', w', false, false)
    ensures Stage(first, acts, t + 1, d', w', pc, canceled)
  {
    hide At, Proceed;
    assert 1 in Alone.g.ids;
    AtNext(Alone, SoloStart(first), acts, t, Solo(d, w, pc, canceled), Solo(d', w', pc, canceled));
  }

  /** The first six moves of the scanner start the step. */
  lemma SoloStarts(first: NodeData, acts: nat -> Action)
    requires first.state.status == NotStarted && forall k: nat :: k < 6 ==> acts(k).Scan?
    ensures Stage(first, acts, 6, WithStatus(first, Running), Precondition, Visit(1), false)
  {
    hide At, Solo, ValidConfig, Next;
    AloneIsValid(first);
    AtStart(Alone, SoloStart(first), acts);
    assert Stage(first, acts, 0, first, Idle, IsFinished(0), false);
    hide Stage;
    ScanTurn(first, acts, 0, first, Idle, IsFinished(0), false);
    ScanTurn(first, acts, 1, first, Idle, CheckCanceled, false);
    ScanTurn(first, acts, 2, first, Idle, Visit(0), false);
    ScanTurn(first, acts, 3, first, Idle, Dependency(0, 0, true), false);
    ScanTurn(first, acts, 4, first, Idle, Gate(0), false);
    LaunchTurn(first, acts, 5, first);
  }

  /** Then the worker gets ready to execute, if nothing is cancelled. */
  lemma SoloExecutes(first: NodeData, acts: nat -> Action)
    requires first.state.status == NotStarted && forall k: nat :: k < 6 ==> acts(k).Scan?
    requires forall k :: 6 <= k < 9 ==> acts(k) == Work(1, Good)
    ensures var d := WithStatus(first, Running);
            && Stage(first, acts, 6, d, Precondition, Visit(1), false)
            && Stage(first, acts, 7, d, SettingUp, Visit(1), false)
            && Stage(first, acts, 8, d, LoopTop, Visit(1), false)
            && Stage(first, acts, 9, d, Executing, Visit(1), false)
  {
    hide Stage, Next;
    var d := WithStatus(first, Running);
    SoloStarts(first, acts);
    WorkTurn(first, acts, 6, Good, d, Precondition, Visit(1), false, d, SettingUp);
    WorkTurn(first, acts, 7, Good, d, SettingUp, Visit(1), false, d, LoopTop);
    WorkTurn(first, acts, 8, Good, d, LoopTop, Visit(1), false, d, Executing);
  }

  /** The scan ends once the step has. */
  lemma SoloEnds(first: NodeData, acts: nat -> Action, t: nat, d: NodeData, canceled: bool)
    requires Stage(first, acts, t, d, Idle, Visit(1), canceled) && d.state.status == Success
    requires acts(t).Scan? && acts(t + 1).Scan? && acts(t + 2).Scan?
    ensures Stage(first, acts, t + 3, d, Idle, Left, canceled)
  {
    hide Stage, Next;
    ScanTurn(first, acts, t, d, Idle, Visit(1), canceled);
    ScanTurn(first, acts, t + 1, d, Idle, IsFinished(0), canceled);
    ScanTurn(first, acts, t + 2, d, Idle, IsFinished(1), canceled);
  }

  lemma StageExecutesNothing(first: NodeData, acts: nat -> Action, t: nat, d: NodeData, w: Worker, pc: ScanPc, canceled: bool)
    requires Stage(first, acts, t, d, w, pc, canceled)
    requires w == Executing ==> !IsWorkOf(acts(t), 1) || !acts(t).event.built
    ensures !ExecutesAt(Alone, SoloStart(first), acts, t, 1)
  {
    hide At;
  }

  // The flag is set between the start of the step and the first look of its worker.

  function CancelEarly(): nat -> Action {
    k => if k == 6 then SetCanceled else if 7 <= k <= 11 then Work(1, Good) else Scan(NotMatched)
  }

  lemma CanceledSoloWorks()
    ensures var acts, d, e := CancelEarly(), WithStatus(Fresh, Running), WithStatus(Fresh, Success);
            && Stage(Fresh, acts, 7, d, Precondition, Visit(1), true)
            && Stage(Fresh, acts, 8, d, SettingUp, Visit(1), true)
            && Stage(Fresh, acts, 9, d, LoopTop, Visit(1), true)
            && Stage(Fresh, acts, 10, d, Ending, Visit(1), true)
            && Stage(Fresh, acts, 11, e, TearingDown, Visit(1), true)
            && Stage(Fresh, acts, 12, e, Idle, Visit(1), true)
  {
    hide Stage, Next;
    var acts, d, e := CancelEarly(), WithStatus(Fresh, Running), WithStatus(Fresh, Success);
    SoloStarts(Fresh, acts);
    CancelTurn(Fresh, acts, 6, d, Precondition, Visit(1));
    WorkTurn(Fresh, acts, 7, Good, d, Precondition, Visit(1), true, d, SettingUp);
    WorkTurn(Fresh, acts, 8, Good, d, SettingUp, Visit(1), true, d, LoopTop);
    WorkTurn(Fresh, acts, 9, Good, d, LoopTop, Visit(1), true, d, Ending);
    WorkTurn(Fresh, acts, 10, Good, d, Ending, Visit(1), true, e, TearingDown);
    WorkTurn(Fresh, acts, 11, Good, e, TearingDown, Visit(1), true, e, Idle);
  }

  lemma CanceledSoloIsNotExecuted()
    requires Init(Alone, SoloStart(Fresh))
    ensures !Executed(Alone, SoloStart(Fresh), CancelEarly(), 0, 15, 1)
  {
    hide Stage, Next, At, Solo, ExecutesAt;
    var acts, d, e := CancelEarly(), WithStatus(Fresh, Running), WithStatus(Fresh, Success);
    CanceledSoloWorks();
    StageExecutesNothing(Fresh, acts, 7, d, Precondition, Visit(1), true);
    StageExecutesNothing(Fresh, acts, 8, d, SettingUp, Visit(1), true);
    StageExecutesNothing(Fresh, acts, 9, d, LoopTop, Visit(1), true);
    StageExecutesNothing(Fresh, acts, 10, d, Ending, Visit(1), true);
    StageExecutesNothing(Fresh, acts, 11, e, TearingDown, Visit(1), true);
    forall k: nat | k < 15 ensures !ExecutesAt(Alone, SoloStart(Fresh), acts, k, 1) {
      if k !in {7, 8, 9, 10, 11} {
        OnlyWorkExecutes(SoloStart(Fresh), acts, k);
      }
    }
  }

  lemma OnlyWorkExecutes(s0: State, acts: nat -> Action, k: nat)
    requires Shape(Alone, s0) && !acts(k).Work?
    ensures !ExecutesAt(Alone, s0, acts, k, 1)
  {
  }

  /** A cancelled run can end as a success although its only step was never executed: the
      worker finds the flag set, skips the execution and still marks the step successful. */
  lemma CanceledRunMaySucceedUnexecuted()
    ensures var s0 := SoloStart(Fresh);
            && ValidConfig(Alone) && Init(Alone, s0)
            && var s := At(Alone, s0, CancelEarly(), 15);
            && s.canceled && Terminated(Alone, s) && StatusOf(Alone, s) == Succeeded
            && Handlers(StatusOf(Alone, s)) == [OnSuccess, OnExit]
            && !Executed(Alone, s0, CancelEarly(), 0, 15, 1)
  {
    hide At, ValidConfig, Executed, Next;
    AloneIsValid(Fresh);
    CanceledSoloWorks();
    SoloEnds(Fresh, CancelEarly(), 12, WithStatus(Fresh, Success), true);
    CanceledSoloIsNotExecuted();
  }

  // No executor can be set up, and failures of the step are to be marked as successes.

  const Lenient := Plain(ContinueOn(true, false, [], false, true), 0)

  function NoExecutor(): nat -> Action {
    k => if 6 <= k < 9 then Work(1, Good) else if k == 9 then Work(1, Unbuilt) else Scan(NotMatched)
  }

  /** A run that nobody cancels can end as a success although its only step was never executed. */
  lemma UnbuiltStepMaySucceedUnexecuted()
    ensures var s0 := SoloStart(Lenient);
            && ValidConfig(Alone) && Init(Alone, s0)
            && var s := At(Alone, s0, NoExecutor(), 13);
            && !s.canceled && Terminated(Alone, s) && StatusOf(Alone, s) == Succeeded
            && !Executed(Alone, s0, NoExecutor(), 0, 13, 1)
  {
    hide At, ValidConfig, Executed, Next;
    AloneIsValid(Lenient);
    UnbuiltSoloWorks();
    SoloEnds(Lenient, NoExecutor(), 10, WithStatus(Lenient, Success), false);
    UnbuiltSoloIsNotExecuted();
  }

  lemma UnbuiltSoloWorks()
    ensures Stage(Lenient, NoExecutor(), 10, WithStatus(Lenient, Success), Idle, Visit(1), false)
  {
    hide Stage, Next;
    SoloExecutes(Lenient, NoExecutor());
    WorkTurn(Lenient, NoExecutor(), 9, Unbuilt, WithStatus(Lenient, Running), Executing, Visit(1), false,
             WithStatus(Lenient, Success), Idle);
  }

  lemma UnbuiltSoloIsNotExecuted()
    requires Init(Alone, SoloStart(Lenient))
    ensures !Executed(Alone, SoloStart(Lenient), NoExecutor(), 0, 13, 1)
  {
    hide Stage, Next, At, Solo, ExecutesAt;
    var acts, d := NoExecutor(), WithStatus(Lenient, Running);
    SoloExecutes(Lenient, acts);
    StageExecutesNothing(Lenient, acts, 6, d, Precondition, Visit(1), false);
    StageExecutesNothing(Lenient, acts, 7, d, SettingUp, Visit(1), false);
    StageExecutesNothing(Lenient, acts, 8, d, LoopTop, Visit(1), false);
    StageExecutesNothing(Lenient, acts, 9, d, Executing, Visit(1), false);
    forall k: nat | k < 13 ensures !ExecutesAt(Alone, SoloStart(Lenient), acts, k, 1) {
      if k !in {6, 7, 8, 9} {
        OnlyWorkExecutes(SoloStart(Lenient), acts, k);
      }
    }
  }

  // A signal arrives while a failed step waits for its retry.

  const OneRetry := Plain(ContinueOn(false, false, [], false, false), 1)

  const Waiting := NodeData(OneRetry.step, NodeState(Running, 1, 1), None)

  function CancelLate(): nat -> Action {
    k => if 6 <= k < 9 || k == 12 then Work(1, Good) else if k == 9 then Work(1, Bad)
         else if k == 10 then SetCanceled else if k == 11 then SignalNode(1) else Scan(NotMatched)
  }

  /** A cancelled, and so finished, step can be taken back to not started: its worker was
      waiting to retry it. */
  lemma CanceledStepMayBeReset()
    ensures var s0 := SoloStart(OneRetry);
            && ValidConfig(Alone) && Init(Alone, s0)
            && Finished(Status(At(Alone, s0, CancelLate(), 12), 1)) && Status(At(Alone, s0, CancelLate(), 12), 1) == Cancel
            && Status(At(Alone, s0, CancelLate(), 13), 1) == NotStarted
  {
    hide At, ValidConfig, Next;
    AloneIsValid(OneRetry);
    ResetSoloWorks();
  }

  lemma ResetSoloWorks()
    ensures Stage(OneRetry, CancelLate(), 12, WithStatus(Waiting, Cancel), Backoff, Visit(1), true)
    ensures Stage(OneRetry, CancelLate(), 13, WithStatus(Waiting, NotStarted), Idle, Visit(1), true)
  {
    hide Stage, Next;
    var acts := CancelLate();
    SoloExecutes(OneRetry, acts);
    WorkTurn(OneRetry, acts, 9, Bad, WithStatus(OneRetry, Running), Executing, Visit(1), false, Waiting, Backoff);
    CancelTurn(OneRetry, acts, 10, Waiting, Backoff, Visit(1));
    SignalTurn(OneRetry, acts, 11, Waiting, Backoff, Visit(1));
    WorkTurn(OneRetry, acts, 12, Good, WithStatus(Waiting, Cancel), Backoff, Visit(1), true,
             WithStatus(Waiting, NotStarted), Idle);
  }

  // ------------------------------------------------------------ a late teardown failure

  /** Step 2 depends on step 1. */
  const Pair := Config(Graph([1, 2], map[1 := [2]], map[2 := [1]]), 0)

  function Duo(status: NodeStatus, w: Worker, pc: ScanPc, torn: bool): State {
    State(map[1 := WithStatus(Fresh, status), 2 := Fresh], map[1 := w, 2 := Idle], pc, false, false, torn,
          if torn then {1} else {})
  }

  const DuoStart := Duo(NotStarted, Idle, IsFinished(0), false)

  /** The teardown of step 1 fails between the scanner's look at it and the start of step 2. */
  function FailLate(): nat -> Action {
    k => if k == 13 then Work(1, Bad) else if 6 <= k <= 10 then Work(1, Good) else Scan(NotMatched)
  }

  lemma PairIsValid()
    ensures ValidConfig(Pair)
  {
    var g := Pair.g;
    assert Preds(g, 2) == [1] && Succs(g, 1) == [2];
    forall u, v ensures Balanced(g, u, v) {
      assert Succs(g, u) == if u == 1 then [2] else [];
      assert Preds(g, v) == if v == 2 then [1] else [];
    }
    forall i, d | 0 <= i < |g.ids| && Edge(g, d, g.ids[i]) ensures d in g.ids[..i] {
      assert i == 1 && d == 1 && g.ids[..1][0] == 1;
    }
    OrderedMeansAcyclic(g, g.ids);
  }

  lemma PairBegins()
    ensures Init(Pair, DuoStart)
  {
  }

  ghost predicate Moment(t: nat, status: NodeStatus, w: Worker, pc: ScanPc, torn: bool) {
    && Init(Pair, DuoStart)
    && At(Pair, DuoStart, FailLate(), t) == Duo(status, w, pc, torn)
  }

  /** The scanner's moves in this run. */
  ghost predicate Moves(status: NodeStatus, pc: ScanPc, pc': ScanPc) {
    || (pc == IsFinished(0) && pc' == CheckCanceled && status == NotStarted)
    || (pc == CheckCanceled && pc' == Visit(0))
    || (pc == Visit(0) && pc' == Dependency(0, 0, true) && status == NotStarted)
    || (pc == Dependency(0, 0, true) && pc' == Gate(0))
    || (pc.Gate? && pc.i <= 1 && pc' == Launch(pc.i))
    || (pc == Visit(1) && pc' == Dependency(1, 0, true))
    || (pc == Dependency(1, 1, true) && pc' == Gate(1))
  }

  lemma DuoLooks(status: NodeStatus, w: Worker, pc: ScanPc, torn: bool, pc': ScanPc)
    requires Moves(status, pc, pc')
    ensures Shape(Pair, Duo(status, w, pc, torn)) && !ChecksDependency(Pair, pc) && !pc.Launch?
    ensures NextPc(Pair, Duo(status, w, pc, torn)) == pc'
  {
    assert Preds(Pair.g, 1) == [] && Preds(Pair.g, 2) == [1];
  }

  lemma DuoScans(t: nat, status: NodeStatus, w: Worker, pc: ScanPc, torn: bool, pc': ScanPc)
    requires Moves(status, pc, pc')
    requires FailLate()(t).Scan? && Moment(t, status, w, pc, torn)
    ensures Moment(t + 1, status, w, pc', torn)
  {
    hide At, CheckDependency, NextPc, Moves;
    var s := Duo(status, w, pc, torn);
    DuoLooks(status, w, pc, torn, pc');
    AtNext(Pair, DuoStart, FailLate(), t, s, s.(scan := pc'));
  }

  lemma DuoLaunches(t: nat)
    requires FailLate()(t).Scan? && Moment(t, NotStarted, Idle, Launch(0), false)
    ensures Moment(t + 1, Running, Precondition, Visit(1), false)
  {
    hide At, CheckDependency;
    AtNext(Pair, DuoStart, FailLate(), t, Duo(NotStarted, Idle, Launch(0), false),
           Duo(Running, Precondition, Visit(1), false));
  }

  lemma DuoStep(e: Event, status: NodeStatus, w: Worker, pc: ScanPc, status': NodeStatus, w': Worker, torn: bool)
    requires Proceed(WithStatus(Fresh, status), w, false, false, e)
          == Progress(WithStatus(Fresh, status'), w', torn, torn)
    ensures WorkStep(Duo(status, w, pc, false), 1, e) == Duo(status', w', pc, torn)
  {
    hide Proceed;
    var s, s' := Duo(status, w, pc, false), Duo(status', w', pc, torn);
    assert s.nodes[1 := WithStatus(Fresh, status')] == s'.nodes;
    assert s.workers[1 := w'] == s'.workers;
  }

  lemma DuoWorks(t: nat, e: Event, status: NodeStatus, w: Worker, pc: ScanPc, status': NodeStatus, w': Worker, torn: bool)
    requires FailLate()(t) == Work(1, e) && Moment(t, status, w, pc, false)
    requires Proceed(WithStatus(Fresh, status), w, false, false, e)
          == Progress(WithStatus(Fresh, status'), w', torn, torn)
    ensures Moment(t + 1, status', w', pc, torn)
  {
    hide At, Proceed, WorkStep;
    DuoStep(e, status, w, pc, status', w', torn);
    assert 1 in Pair.g.ids;
    AtNext(Pair, DuoStart, FailLate(), t, Duo(status, w, pc, false), Duo(status', w', pc, torn));
  }

  lemma DuoInspects(t: nat, w: Worker)
    requires FailLate()(t) == Scan(NotMatched) && Moment(t, Success, w, Dependency(1, 0, true), false)
    ensures Moment(t + 1, Success, w, Dependency(1, 1, true), false)
  {
    hide At, NextPc;
    var s, s' := Duo(Success, w, Dependency(1, 0, true), false), Duo(Success, w, Dependency(1, 1, true), false);
    assert Preds(Pair.g, 2) == [1];
    assert s.nodes[1 := s.nodes[1]] == s.nodes;
    AtNext(Pair, DuoStart, FailLate(), t, s, s');
  }

  lemma FirstStepRuns()
    ensures Moment(11, Success, TearingDown, Visit(1), false)
  {
    hide At, Duo, Next;
    PairBegins();
    AtStart(Pair, DuoStart, FailLate());
    DuoScans(0, NotStarted, Idle, IsFinished(0), false, CheckCanceled);
    DuoScans(1, NotStarted, Idle, CheckCanceled, false, Visit(0));
    DuoScans(2, NotStarted, Idle, Visit(0), false, Dependency(0, 0, true));
    DuoScans(3, NotStarted, Idle, Dependency(0, 0, true), false, Gate(0));
    DuoScans(4, NotStarted, Idle, Gate(0), false, Launch(0));
    DuoLaunches(5);
    DuoWorks(6, Good, Running, Precondition, Visit(1), Running, SettingUp, false);
    DuoWorks(7, Good, Running, SettingUp, Visit(1), Running, LoopTop, false);
    DuoWorks(8, Good, Running, LoopTop, Visit(1), Running, Executing, false);
    DuoWorks(9, Good, Running, Executing, Visit(1), Running, Ending, false);
    DuoWorks(10, Good, Running, Ending, Visit(1), Success, TearingDown, false);
  }

  /** A step can start although a dependency has failed and nothing says to go on regardless:
      the dependency was a success when the scanner looked, and its teardown failed then. */
  lemma DependentMayFollowFailedTeardown()
    ensures ValidConfig(Pair) && Init(Pair, DuoStart) && Edge(Pair.g, 1, 2)
    ensures var s := At(Pair, DuoStart, FailLate(), 16);
            && Launches(Pair, s, FailLate()(16), 2)
            && Status(s, 1) == Error && !Continues(s.nodes[1]) && !s.canceled && !s.expired
  {
    hide At, Next, ValidConfig;
    PairIsValid();
    assert Preds(Pair.g, 2) == [1];
    SecondStepFollows();
  }

  lemma SecondStepFollows()
    ensures Moment(16, Error, Idle, Launch(1), true)
  {
    hide Moment, Duo, Next;
    FirstStepRuns();
    DuoScans(11, Success, TearingDown, Visit(1), false, Dependency(1, 0, true));
    DuoInspects(12, TearingDown);
    DuoWorks(13, Bad, Success, TearingDown, Dependency(1, 1, true), Error, Idle, true);
    DuoScans(14, Error, Idle, Dependency(1, 1, true), true, Gate(1));
    DuoScans(15, Error, Idle, Gate(1), true, Launch(1));
  }
}
