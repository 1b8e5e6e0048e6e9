/** A measure of the work left that no step raises, and the bound on the number of starts. */
module Progress {
  import opened Digraph
  import opened Nodes
  import opened Engine
  import opened Safety
  import opened Runs
  import opened ExecutionGraphs

  // ---------------------------------------------------------------------- sums

  ghost function Sum(f: int -> nat, vs: seq<int>): nat {
    if vs == [] then 0 else Sum(f, vs[..|vs| - 1]) + f(vs[|vs| - 1])
  }

  lemma {:induction false} SumIsMonotone(f: int -> nat, h: int -> nat, vs: seq<int>)
    requires forall v :: v in vs ==> f(v) <= h(v)
    ensures Sum(f, vs) <= Sum(h, vs)
    ensures Sum(f, vs) == Sum(h, vs) ==> forall v :: v in vs ==> f(v) == h(v)
    decreases |vs|
  {
    if vs != [] {
      var front, last := vs[..|vs| - 1], vs[|vs| - 1];
      assert vs == front + [last];
      assert forall v :: v in vs <==> v in front || v == last;
      SumIsMonotone(f, h, front);
    }
  }

  // ------------------------------------------------------------------- measures

  ghost predicate Tracked(s: State, v: int) {
    v in s.nodes && v in s.workers
  }

  function RetriesLeft(d: NodeData): nat {
    if d.step.retryLimit > d.state.retryCount then d.step.retryLimit - d.state.retryCount else 0
  }

  function Phase(status: NodeStatus, w: Worker): nat {
    match w
    case Backoff => 8
    case Precondition => 6
    case SettingUp => 5
    case LoopTop => 4
    case Executing => 3
    case Ending => 2
    case TearingDown => 1
    case Idle => if status == NotStarted then 7 else 0
  }

  /** What is left to do for one step: a full round for every retry, and the rest of this one. */
  ghost function Weight(s: State, v: int): nat {
    if Tracked(s, v) then 9 * RetriesLeft(s.nodes[v]) + Phase(Status(s, v), s.workers[v]) else 0
  }

  ghost function Total(cfg: Config, s: State): nat {
    Sum(v => Weight(s, v), cfg.g.ids)
  }

  /** How often a step may still be started: not at all once it is at rest and finished. */
  function Starts(d: NodeData, w: Worker): nat {
    if w == Idle && d.state.status != NotStarted then 0
    else RetriesLeft(d) + (if w == Idle || w == Backoff then 1 else 0)
  }

  ghost function Budget(s: State, v: int): nat {
    if Tracked(s, v) then Starts(s.nodes[v], s.workers[v]) else 0
  }

  ghost function TotalBudget(cfg: Config, s: State): nat {
    Sum(v => Budget(s, v), cfg.g.ids)
  }

  lemma WorkLowersWeight(s: State, v: int, e: Event)
    requires Tracked(s, v) && Sound(s, v)
    ensures var s' := WorkStep(s, v, e);
            && Budget(s', v) <= Budget(s, v) && Weight(s', v) <= Weight(s, v)
            && (s.workers[v] != Idle ==> Weight(s', v) < Weight(s, v))
  {
    var p := Proceed(s.nodes[v], s.workers[v], s.canceled, s.expired, e);
    match s.workers[v]
    case Executing => ResultLowersWeight(s.nodes[v], s.canceled, s.expired, e);
    case _ =>
  }

  lemma ResultLowersWeight(d: NodeData, canceled: bool, expired: bool, e: Event)
    requires d.state.status == Running || d.state.status == Cancel
    ensures var p := HandleResult(d, canceled, expired, e);
            && Starts(p.node, p.worker) <= RetriesLeft(d)
            && 9 * RetriesLeft(p.node) + Phase(p.node.state.status, p.worker) < 9 * RetriesLeft(d) + 3
  {
  }

  ghost predicate NoHeavier(s: State, s': State, v: int) {
    Weight(s', v) <= Weight(s, v) && Budget(s', v) <= Budget(s, v)
  }

  /** No action adds work. */
  lemma NextAddsNoWork(cfg: Config, s: State, a: Action)
    requires Inv(cfg, s) && NoSelfLoop(cfg.g)
    ensures forall v :: v in cfg.g.ids ==> NoHeavier(s, Next(cfg, s, a), v)
  {
    var s' := Next(cfg, s, a);
    match a
    case Scan(log) => ScanAddsNoWork(cfg, s, log);
    case Work(v, e) =>
      if v in cfg.g.ids {
        assert Sound(s, v);
        WorkLowersWeight(s, v, e);
        WorkIsLocal(s, v, e);
        hide Proceed, Sound;
        forall x | x in cfg.g.ids ensures NoHeavier(s, s', x) {
          assert x == v || Untouched(s, s', x);
        }
      }
    case SignalNode(v) =>
      forall x | x in cfg.g.ids ensures NoHeavier(s, s', x) {
      }
    case SetCanceled =>
    case Expire =>
  }

  lemma CheckAddsNoWork(cfg: Config, s: State, log: LogProbe)
    requires Shape(cfg, s) && NoSelfLoop(cfg.g) && ChecksDependency(cfg, s.scan)
    ensures forall x :: x in cfg.g.ids ==> NoHeavier(s, CheckDependency(cfg, s, log), x)
  {
    var v := cfg.g.ids[s.scan.i];
    var d := Preds(cfg.g, v)[s.scan.j];
    CheckOutcome(cfg, s, log, v, d);
    hide CheckDependency;
    var s' := CheckDependency(cfg, s, log);
    forall x | x in cfg.g.ids ensures NoHeavier(s, s', x) {
    }
  }

  /** Looking at dependency `d` of `v` leaves everything alone but the cached decision of `d`
      and the status of `v`, which it can only bar. */
  lemma CheckOutcome(cfg: Config, s: State, log: LogProbe, v: int, d: int)
    requires Shape(cfg, s) && NoSelfLoop(cfg.g) && ChecksDependency(cfg, s.scan)
    requires v == cfg.g.ids[s.scan.i] && d == Preds(cfg.g, v)[s.scan.j]
    ensures v in s.nodes && d in s.nodes && d in Preds(cfg.g, v)
    ensures var s' := CheckDependency(cfg, s, log);
            && s'.workers == s.workers && v in s'.nodes
            && (forall x :: x in s.nodes ==> x in s'.nodes && s'.nodes[x].step == s.nodes[x].step)
            && (forall x :: x in s.nodes && x != v ==> s'.nodes[x].state == s.nodes[x].state)
            && s'.nodes[v] in {s.nodes[v], WithStatus(s.nodes[v], Cancel), WithStatus(s.nodes[v], Skipped)}
            && (s.scan.ready && Finished(Status(s, d)) ==> s'.scan.ready || Status(s', v) != NotStarted)
  {
    hide Inspect, Continues;
    assert d in Preds(cfg.g, v) && !Edge(cfg.g, v, v);
    InspectionEffect(s.nodes[d], log);
  }

  lemma LaunchTakesWork(cfg: Config, s: State, log: LogProbe)
    requires Inv(cfg, s) && s.scan.Launch?
    ensures var s' := ScanStep(cfg, s, log);
            var v := cfg.g.ids[s.scan.i];
            && (forall x :: x in cfg.g.ids ==> NoHeavier(s, s', x))
            && Budget(s', v) < Budget(s, v) && Weight(s', v) < Weight(s, v)
  {
    hide CheckDependency, NextPc, Sound, DepsPassed;
    var s' := ScanStep(cfg, s, log);
    forall x | x in cfg.g.ids ensures NoHeavier(s, s', x) {
    }
  }

  lemma ScanAddsNoWork(cfg: Config, s: State, log: LogProbe)
    requires Inv(cfg, s) && NoSelfLoop(cfg.g)
    ensures forall v :: v in cfg.g.ids ==> NoHeavier(s, ScanStep(cfg, s, log), v)
  {
    if ChecksDependency(cfg, s.scan) {
      CheckAddsNoWork(cfg, s, log);
    } else if s.scan.Launch? {
      LaunchTakesWork(cfg, s, log);
    }
    hide CheckDependency, NextPc;
  }

  lemma SumsFall(cfg: Config, s: State, s': State)
    requires forall v :: v in cfg.g.ids ==> NoHeavier(s, s', v)
    ensures Total(cfg, s') <= Total(cfg, s) && TotalBudget(cfg, s') <= TotalBudget(cfg, s)
    ensures forall v :: v in cfg.g.ids && Weight(s', v) < Weight(s, v) ==> Total(cfg, s') < Total(cfg, s)
    ensures forall v :: v in cfg.g.ids && Budget(s', v) < Budget(s, v) ==> TotalBudget(cfg, s') < TotalBudget(cfg, s)
  {
    var f, h := v => Weight(s', v), v => Weight(s, v);
    forall v | v in cfg.g.ids ensures f(v) <= h(v) {
      assert NoHeavier(s, s', v);
    }
    SumIsMonotone(f, h, cfg.g.ids);
    assert Total(cfg, s') == Sum(f, cfg.g.ids) && Total(cfg, s) == Sum(h, cfg.g.ids);
    var f', h' := v => Budget(s', v), v => Budget(s, v);
    forall v | v in cfg.g.ids ensures f'(v) <= h'(v) {
      assert NoHeavier(s, s', v);
    }
    SumIsMonotone(f', h', cfg.g.ids);
    assert TotalBudget(cfg, s') == Sum(f', cfg.g.ids) && TotalBudget(cfg, s) == Sum(h', cfg.g.ids);
    assert forall v :: v in cfg.g.ids && Weight(s', v) < Weight(s, v) ==> f(v) < h(v);
    assert forall v :: v in cfg.g.ids && Budget(s', v) < Budget(s, v) ==> f'(v) < h'(v);
  }

  // -------------------------------------------------------------- launch budget

  ghost function LaunchesOf(cfg: Config, s0: State, acts: nat -> Action, t: nat, v: int): nat
    requires Shape(cfg, s0)
  {
    if t == 0 then 0
    else LaunchesOf(cfg, s0, acts, t - 1, v)
         + (if Launches(cfg, At(cfg, s0, acts, t - 1), acts(t - 1), v) then 1 else 0)
  }

  /** In any run, cancelled or not, the starts a step has had and those it may still have never
      exceed what it was given: one and its retries if it had not started, none otherwise. */
  lemma {:induction false} LaunchesAreBounded(cfg: Config, s0: State, acts: nat -> Action, t: nat, v: int)
    requires ValidConfig(cfg) && Init(cfg, s0) && v in cfg.g.ids
    ensures LaunchesOf(cfg, s0, acts, t, v) + Budget(At(cfg, s0, acts, t), v) <= Budget(s0, v)
    ensures Budget(s0, v) == if Status(s0, v) == NotStarted then 1 + RetriesLeft(s0.nodes[v]) else 0
    decreases t
  {
    hide Inv, Next, Launches, WellFormed, Acyclic;
    if t > 0 {
      LaunchesAreBounded(cfg, s0, acts, t - 1, v);
      InvHolds(cfg, s0, acts, t - 1);
      StepFitsBudget(cfg, At(cfg, s0, acts, t - 1), acts(t - 1), v);
    }
  }

  lemma StepFitsBudget(cfg: Config, s: State, a: Action, v: int)
    requires Inv(cfg, s) && NoSelfLoop(cfg.g) && v in cfg.g.ids
    ensures Budget(Next(cfg, s, a), v) + (if Launches(cfg, s, a, v) then 1 else 0) <= Budget(s, v)
  {
    hide Budget, Weight, Sound, CheckDependency, Proceed, NextPc;
    NextAddsNoWork(cfg, s, a);
    assert NoHeavier(s, Next(cfg, s, a), v);
    if Launches(cfg, s, a, v) {
      LaunchTakesWork(cfg, s, a.log);
    }
  }

  ghost function TotalLaunches(cfg: Config, s0: State, acts: nat -> Action, t: nat): nat
    requires Shape(cfg, s0)
  {
    Sum(v => LaunchesOf(cfg, s0, acts, t, v), cfg.g.ids)
  }

  /** All steps together: no more starts than one for each step not started and its retries. */
  lemma TotalLaunchesAreBounded(cfg: Config, s0: State, acts: nat -> Action, t: nat)
    requires ValidConfig(cfg) && Init(cfg, s0)
    ensures TotalLaunches(cfg, s0, acts, t) <= TotalBudget(cfg, s0)
  {
    hide Budget, LaunchesOf, ValidConfig;
    var f, h := v => LaunchesOf(cfg, s0, acts, t, v), v => Budget(s0, v);
    forall v | v in cfg.g.ids ensures f(v) <= h(v) {
      LaunchesAreBounded(cfg, s0, acts, t, v);
    }
    SumIsMonotone(f, h, cfg.g.ids);
    assert TotalLaunches(cfg, s0, acts, t) == Sum(f, cfg.g.ids) && TotalBudget(cfg, s0) == Sum(h, cfg.g.ids);
  }

  /** A step that is cleared for a retried run may be started as often as in a first run. */
  lemma ClearedStepHasAllItsStarts(cfg: Config, before: map<int, NodeData>, s0: State, v: int)
    requires Init(cfg, s0) && PreparedFrom(cfg, before, s0) && v in cfg.g.ids && Affected(cfg.g, before, v)
    ensures Status(s0, v) == NotStarted
    ensures Budget(s0, v) == 1 + if before[v].step.retryLimit > 0 then before[v].step.retryLimit else 0
  {
    hide Affected;
  }
}
