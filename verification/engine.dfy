/** The run of a graph as a state machine.

    One scanner, one worker per started step and any number of signal senders interleave.
    The scanner moves one read or write of shared state at a time; a worker moves one
    status change at a time, the handling of one execution result being a single step up
    to the wait before a retry;
    a signal sets the flag in one step and tests and sets each node in another.
    What the environment decides (does a command succeed, does a log match, who moves
    next) is the action; the successor state is a function of state and action. */
module Engine {
  import opened Digraph
  import opened Nodes
  import opened Wrappers

  /** Where the scanning loop is.  `IsFinished(k)` has found the first `k` nodes finished;
      `Dependency(i, j, ready)` is about to look at dependency `j` of node `i`;
      `Count(i, k, c)` has counted `c` running nodes among the first `k`; `Left` is past
      both loops. */
  datatype ScanPc =
    | IsFinished(k: nat)
    | CheckCanceled
    | Visit(i: nat)
    | Dependency(i: nat, j: nat, ready: bool)
    | Gate(i: nat)
    | Count(i: nat, k: nat, c: nat)
    | Launch(i: nat)
    | Left

  /** `Executing` is about to handle the result of an execution, `Backoff` waits before the
      step is reset for a retry. */
  datatype Worker = Idle | Precondition | SettingUp | LoopTop | Executing | Backoff | Ending | TearingDown

  /** `cap` bounds the number of running steps if it is positive. */
  datatype Config = Config(g: Graph, cap: int)

  /** `tornDown` remembers the steps whose teardown failed after they had been reported
      successful; the program does not keep it. */
  datatype State = State(nodes: map<int, NodeData>, workers: map<int, Worker>, scan: ScanPc,
                         canceled: bool, expired: bool, lastError: bool, tornDown: set<int>)

  /** How a worker's current activity turns out; `built` says whether an executor for the
      command could be set up at all. */
  datatype Event = Event(ok: bool, built: bool, exitCode: int, log: LogProbe)

  datatype Action =
    | Scan(log: LogProbe)
    | Work(node: int, event: Event)
    | SetCanceled
    | SignalNode(node: int)
    | Expire

  // -------------------------------------------------------------------- shape

  predicate InRange(g: Graph, pc: ScanPc) {
    match pc
    case IsFinished(k) => k <= |g.ids|
    case CheckCanceled => true
    case Visit(i) => i <= |g.ids|
    case Dependency(i, j, _) => i < |g.ids| && j <= |Preds(g, g.ids[i])|
    case Gate(i) => i < |g.ids|
    case Count(i, k, _) => i < |g.ids| && k <= |g.ids|
    case Launch(i) => i < |g.ids|
    case Left => true
  }

  ghost predicate DependenciesKnown(g: Graph) {
    forall v, d :: v in g.ids && d in Preds(g, v) ==> d in g.ids
  }

  ghost predicate Shape(cfg: Config, s: State) {
    && DependenciesKnown(cfg.g)
    && (forall v :: v in cfg.g.ids ==> v in s.nodes && v in s.workers)
    && InRange(cfg.g, s.scan)
  }

  /** No node or worker disappears. */
  ghost predicate Keeps(s: State, s': State) {
    && (forall v :: v in s.nodes ==> v in s'.nodes)
    && (forall v :: v in s.workers ==> v in s'.workers)
  }

  function Status(s: State, v: int): NodeStatus
    requires v in s.nodes
  {
    s.nodes[v].state.status
  }

  function SetNode(s: State, v: int, d: NodeData): State {
    s.(nodes := s.nodes[v := d])
  }

  function SetStatus(s: State, v: int, status: NodeStatus): State
    requires v in s.nodes
  {
    SetNode(s, v, WithStatus(s.nodes[v], status))
  }

  function SetWorker(s: State, v: int, w: Worker): State {
    s.(workers := s.workers[v := w])
  }

  // -------------------------------------------------------------- the scanner

  /** What a dependency means for the node that waits for it: go on, hold, or a status that
      bars it for good. */
  datatype Verdict = Pass | Hold | Bar(status: NodeStatus)

  datatype Inspection = Inspection(dep: NodeData, verdict: Verdict)

  function Inspect(dep: NodeData, log: LogProbe): Inspection {
    match dep.state.status
    case Success => Inspection(dep, Pass)
    case NotStarted => Inspection(dep, Hold)
    case Running => Inspection(dep, Hold)
    case Cancel => Inspection(dep, Bar(Cancel))
    case Error =>
      var a := ShouldContinue(dep, log);
      Inspection(a.node, if a.ok then Pass else Bar(Cancel))
    case Skipped =>
      var a := ShouldContinue(dep, log);
      Inspection(a.node, if a.ok then Pass else Bar(Skipped))
  }

  predicate ChecksDependency(cfg: Config, pc: ScanPc)
    requires InRange(cfg.g, pc)
  {
    pc.Dependency? && pc.j < |Preds(cfg.g, cfg.g.ids[pc.i])|
  }

  /** One dependency of the scanned node, as the readiness check treats it. */
  ghost function CheckDependency(cfg: Config, s: State, log: LogProbe): (s': State)
    requires Shape(cfg, s) && ChecksDependency(cfg, s.scan)
    ensures Keeps(s, s') && InRange(cfg.g, s'.scan)
    ensures s'.scan.Dependency? && s'.scan.i == s.scan.i && s'.scan.j == s.scan.j + 1
    ensures s' == s.(nodes := s'.nodes, scan := s'.scan)
  {
    var v := cfg.g.ids[s.scan.i];
    var d := Preds(cfg.g, v)[s.scan.j];
    var look := Inspect(s.nodes[d], log);
    var seen := SetNode(s, d, look.dep).(scan := Dependency(s.scan.i, s.scan.j + 1, s.scan.ready && look.verdict.Pass?));
    if look.verdict.Bar? then SetStatus(seen, v, look.verdict.status) else seen
  }

  /** Where the scanner goes from here, unless it is about to look at a dependency. */
  ghost function NextPc(cfg: Config, s: State): (pc: ScanPc)
    requires Shape(cfg, s) && !ChecksDependency(cfg, s.scan)
    ensures InRange(cfg.g, pc)
  {
    var ids := cfg.g.ids;
    match s.scan
    case IsFinished(k) =>
      if k == |ids| then Left else if Finished(Status(s, ids[k])) then IsFinished(k + 1) else CheckCanceled
    case CheckCanceled => if s.canceled then Left else Visit(0)
    case Visit(i) =>
      if i == |ids| then IsFinished(0)
      else if Status(s, ids[i]) != NotStarted then Visit(i + 1) else Dependency(i, 0, true)
    case Dependency(i, j, ready) => if ready then Gate(i) else Visit(i + 1)
    case Gate(i) => if s.canceled then IsFinished(0) else if cfg.cap > 0 then Count(i, 0, 0) else Launch(i)
    case Count(i, k, c) =>
      if k == |ids| then (if c >= cfg.cap then Visit(i + 1) else Launch(i))
      else Count(i, k + 1, if Status(s, ids[k]) == Running then c + 1 else c)
    case Launch(i) => Visit(i + 1)
    case Left => Left
  }

  ghost function ScanStep(cfg: Config, s: State, log: LogProbe): (s': State)
    requires Shape(cfg, s)
    ensures Keeps(s, s') && InRange(cfg.g, s'.scan)
  {
    if ChecksDependency(cfg, s.scan) then CheckDependency(cfg, s, log)
    else if s.scan.Launch? then
      var v := cfg.g.ids[s.scan.i];
      SetWorker(SetStatus(s, v, Running), v, Precondition).(scan := NextPc(cfg, s))
    else s.(scan := NextPc(cfg, s))
  }

  // -------------------------------------------------------------- the workers

  /** What one step of a worker does: to its node, to itself, to the run's last error, and
      whether it was the failing teardown of a success. */
  datatype Progress = Progress(node: NodeData, worker: Worker, failed: bool, torn: bool)

  /** One execution result.  A failed execution ends the worker whatever the verdict, except
      that a step to be retried waits first.  Without an executor no command runs. */
  function HandleResult(d: NodeData, canceled: bool, expired: bool, e: Event): Progress {
    var ran := d.(state := d.state.(exitCode := if e.built then e.exitCode else 0), decision := None);
    if e.ok && e.built then Progress(ran, Ending, false, false)
    else if ran.state.status == Success || ran.state.status == Cancel then Progress(ran, Idle, false, false)
    else if expired then Progress(WithStatus(ran, Cancel), Idle, true, false)
    else if canceled then Progress(ran, Idle, true, false)
    else if ran.step.retryLimit > ran.state.retryCount then
      var retried := ran.(state := ran.state.(retryCount := ran.state.retryCount + 1));
      Progress(retried, Backoff, false, false)
    else
      var a := ShouldContinue(WithStatus(ran, Error), e.log);
      if a.ok && ran.step.continueOn.markSuccess then Progress(WithStatus(a.node, Success), Idle, false, false)
      else Progress(a.node, Idle, true, false)
  }

  function Proceed(d: NodeData, w: Worker, canceled: bool, expired: bool, e: Event): Progress {
    match w
    case Idle => Progress(d, Idle, false, false)
    case Precondition =>
      if e.ok then Progress(d, SettingUp, false, false)
      else Progress(WithStatus(d, Skipped), Idle, false, false)
    case SettingUp =>
      if e.ok then Progress(d, LoopTop, false, false)
      else Progress(WithStatus(d, Error), Ending, true, false)
    case LoopTop => Progress(d, if canceled then Ending else Executing, false, false)
    case Executing => HandleResult(d, canceled, expired, e)
    case Backoff => Progress(WithStatus(d, NotStarted), Idle, false, false)
    case Ending =>
      Progress(if d.state.status == Running then WithStatus(d, Success) else d, TearingDown, false, false)
    case TearingDown =>
      if e.ok then Progress(d, Idle, false, false)
      else Progress(WithStatus(d, Error), Idle, true, d.state.status == Success)
  }

  function WorkStep(s: State, v: int, e: Event): (s': State)
    requires v in s.nodes && v in s.workers
    ensures Keeps(s, s')
  {
    var p := Proceed(s.nodes[v], s.workers[v], s.canceled, s.expired, e);
    s.(nodes := s.nodes[v := p.node], workers := s.workers[v := p.worker],
       lastError := s.lastError || p.failed, tornDown := if p.torn then s.tornDown + {v} else s.tornDown)
  }

  /** A signal reaches a node: whatever is running becomes cancelled. */
  function Signalled(s: State, v: int): State
    requires v in s.nodes
  {
    if s.canceled && Status(s, v) == Running then SetStatus(s, v, Cancel) else s
  }

  ghost function Next(cfg: Config, s: State, a: Action): (s': State)
    requires Shape(cfg, s)
    ensures Shape(cfg, s') && Keeps(s, s')
  {
    match a
    case Scan(log) => ScanStep(cfg, s, log)
    case Work(v, e) => if v in cfg.g.ids then WorkStep(s, v, e) else s
    case SetCanceled => s.(canceled := true)
    case SignalNode(v) => if v in cfg.g.ids then Signalled(s, v) else s
    case Expire => s.(expired := true)
  }

  // --------------------------------------------------------------------- runs

  /** Before the first scan; for a retried graph some nodes may be finished already. */
  ghost predicate Init(cfg: Config, s: State) {
    && Shape(cfg, s)
    && s.scan == IsFinished(0)
    && !s.canceled && !s.expired && !s.lastError && s.tornDown == {}
    && forall v :: v in cfg.g.ids ==> s.workers[v] == Idle && Status(s, v) != Running
  }

  /** The state after the first `t` actions. */
  ghost function At(cfg: Config, s0: State, acts: nat -> Action, t: nat): (s: State)
    requires Shape(cfg, s0)
    ensures Shape(cfg, s)
  {
    if t == 0 then s0 else Next(cfg, At(cfg, s0, acts, t - 1), acts(t - 1))
  }

  ghost predicate Launches(cfg: Config, s: State, a: Action, v: int) {
    a.Scan? && s.scan.Launch? && s.scan.i < |cfg.g.ids| && cfg.g.ids[s.scan.i] == v
  }

  predicate IsWorkOf(a: Action, v: int) {
    a.Work? && a.node == v
  }
}
