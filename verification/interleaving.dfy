/** The concurrency cap and the effect of cancellation, however finely the workers and the
    signals interleave with the scanner, and whatever they do short of marking a step running. */
module Interleavings {
  import opened Collections
  import opened Digraph
  import opened Nodes
  import opened Engine
  import opened Safety
  import opened Runs
  import opened Wrappers

  ghost predicate NoNewRunning(s: State, s': State) {
    forall v :: v in s'.nodes && Status(s', v) == Running ==> v in s.nodes && Status(s, v) == Running
  }

  /** Any part of what a worker or a signal does: only the scanner moves the scanner and marks
      steps running, and nobody resets the flag.  The worker of a repeating step is no
      exception: its step stays running between executions. */
  ghost predicate OthersMove(s: State, s': State) {
    s'.scan == s.scan && (s.canceled ==> s'.canceled) && NoNewRunning(s, s')
  }

  /** The scanner's next move, finding what it does in the log, or somebody else's. */
  ghost predicate Turn(cfg: Config, s: State, turn: Option<LogProbe>, s': State)
    requires Shape(cfg, s)
  {
    match turn
    case Some(log) => s' == ScanStep(cfg, s, log)
    case None => OthersMove(s, s')
  }

  ghost predicate MoveAt(cfg: Config, run: nat -> State, turns: nat -> Option<LogProbe>, t: nat) {
    Shape(cfg, run(t)) && Turn(cfg, run(t), turns(t), run(t + 1))
  }

  ghost predicate Interleaving(cfg: Config, run: nat -> State, turns: nat -> Option<LogProbe>) {
    forall t: nat :: MoveAt(cfg, run, turns, t)
  }

  /** The runs of the engine are among them. */
  lemma RunsInterleave(cfg: Config, s0: State, acts: nat -> Action)
    requires Shape(cfg, s0)
    ensures Interleaving(cfg, (t: nat) => At(cfg, s0, acts, t), (t: nat) => if acts(t).Scan? then Some(acts(t).log) else None)
  {
    hide ScanStep;
    var run: nat -> State := (t: nat) => At(cfg, s0, acts, t);
    var turns: nat -> Option<LogProbe> := (t: nat) => if acts(t).Scan? then Some(acts(t).log) else None;
    forall t: nat ensures MoveAt(cfg, run, turns, t) {
      assert run(t + 1) == Next(cfg, run(t), acts(t));
      if !acts(t).Scan? {
        OnlyScansStart(cfg, run(t), acts(t));
      }
    }
  }

  lemma OnlyScansStart(cfg: Config, s: State, a: Action)
    requires Shape(cfg, s) && !a.Scan?
    ensures OthersMove(s, Next(cfg, s, a))
  {
  }

  // ------------------------------------------------------- the concurrency cap

  ghost function RunningAmong(s: State, vs: seq<int>): nat {
    if vs == [] then 0
    else
      var v := vs[|vs| - 1];
      RunningAmong(s, vs[..|vs| - 1]) + (if v in s.nodes && Status(s, v) == Running then 1 else 0)
  }

  lemma {:induction false} FewerRunning(s: State, s': State, vs: seq<int>)
    requires NoNewRunning(s, s')
    ensures RunningAmong(s', vs) <= RunningAmong(s, vs)
    decreases |vs|
  {
    if vs != [] {
      FewerRunning(s, s', vs[..|vs| - 1]);
    }
  }

  /** Starting one step adds at most one. */
  lemma {:induction false} OneMoreRunning(s: State, s': State, x: int, vs: seq<int>)
    requires Distinct(vs)
    requires forall v :: v != x && v in s'.nodes && Status(s', v) == Running ==> v in s.nodes && Status(s, v) == Running
    ensures RunningAmong(s', vs) <= RunningAmong(s, vs) + (if x in vs then 1 else 0)
    decreases |vs|
  {
    if vs != [] {
      var front, last := vs[..|vs| - 1], vs[|vs| - 1];
      assert vs == front + [last];
      OneMoreRunning(s, s', x, front);
      assert last == x ==> x !in front;
    }
  }

  /** The scanner's count covers what runs among the nodes it has counted. */
  ghost predicate CapFits(cfg: Config, s: State)
    requires Shape(cfg, s)
  {
    var ids := cfg.g.ids;
    && RunningAmong(s, ids) <= cfg.cap
    && (s.scan.Count? ==> RunningAmong(s, ids[..s.scan.k]) <= s.scan.c)
    && (s.scan.Launch? ==> RunningAmong(s, ids) < cfg.cap)
  }

  /** The scanner's moves, other than a start. */
  lemma LookingStartsNothing(cfg: Config, s: State, log: LogProbe)
    requires Shape(cfg, s) && !s.scan.Launch?
    ensures var s' := ScanStep(cfg, s, log);
            && NoNewRunning(s, s') && s'.canceled == s.canceled
            && if ChecksDependency(cfg, s.scan) then s'.scan.Dependency? else s'.scan == NextPc(cfg, s)
  {
    hide Inspect, NextPc;
    if ChecksDependency(cfg, s.scan) {
      var d := Preds(cfg.g, cfg.g.ids[s.scan.i])[s.scan.j];
      assert d in Preds(cfg.g, cfg.g.ids[s.scan.i]);
      InspectionEffect(s.nodes[d], log);
    }
  }

  /** A start marks one step running; the scanner goes on with the next. */
  lemma StartOfOne(cfg: Config, s: State, log: LogProbe)
    requires Shape(cfg, s) && s.scan.Launch?
    ensures var s' := ScanStep(cfg, s, log);
            && s'.scan.Visit? && s'.canceled == s.canceled
            && forall v :: v != cfg.g.ids[s.scan.i] && v in s'.nodes && Status(s', v) == Running ==>
                 v in s.nodes && Status(s, v) == Running
  {
    hide CheckDependency;
  }

  lemma TurnKeepsCap(cfg: Config, s: State, turn: Option<LogProbe>, s': State)
    requires Shape(cfg, s) && Shape(cfg, s') && cfg.cap > 0 && Distinct(cfg.g.ids) && CapFits(cfg, s)
    requires Turn(cfg, s, turn, s')
    ensures CapFits(cfg, s')
  {
    hide ScanStep, NextPc, RunningAmong;
    var ids := cfg.g.ids;
    if turn.Some? && s.scan.Launch? {
      StartOfOne(cfg, s, turn.value);
      OneMoreRunning(s, s', ids[s.scan.i], ids);
    } else {
      if turn.Some? {
        LookingStartsNothing(cfg, s, turn.value);
      }
      FewerRunning(s, s', ids);
      if s.scan.Count? {
        CountingStep(cfg, s, s');
      } else {
        NotCounting(cfg, s, s');
      }
    }
  }

  lemma NotCounting(cfg: Config, s: State, s': State)
    requires Shape(cfg, s) && Shape(cfg, s') && CapFits(cfg, s) && !s.scan.Count? && cfg.cap > 0
    requires RunningAmong(s', cfg.g.ids) <= RunningAmong(s, cfg.g.ids)
    requires s'.scan == s.scan || s'.scan.Dependency? || (!ChecksDependency(cfg, s.scan) && s'.scan == NextPc(cfg, s))
    ensures CapFits(cfg, s')
  {
    assert cfg.g.ids[..0] == [];
  }

  lemma CountingStep(cfg: Config, s: State, s': State)
    requires Shape(cfg, s) && Shape(cfg, s') && CapFits(cfg, s) && s.scan.Count? && NoNewRunning(s, s')
    requires s'.scan == s.scan || s'.scan == NextPc(cfg, s)
    ensures s'.scan.Count? ==> RunningAmong(s', cfg.g.ids[..s'.scan.k]) <= s'.scan.c
    ensures s'.scan.Launch? ==> RunningAmong(s', cfg.g.ids) < cfg.cap
  {
    var ids, k := cfg.g.ids, s.scan.k;
    FewerRunning(s, s', ids[..k]);
    if k < |ids| {
      var v := cfg.g.ids[k];
      assert v in cfg.g.ids;
      assert v in s.nodes;
      assert v in s'.nodes;
      CountOneMore(s', ids, k);
    } else {
      assert ids[..k] == ids;
    }
  }

  lemma CountOneMore(s: State, ids: seq<int>, k: nat)
    requires k < |ids| && ids[k] in s.nodes
    ensures RunningAmong(s, ids[..k + 1]) == RunningAmong(s, ids[..k]) + (if Status(s, ids[k]) == Running then 1 else 0)
  {
    assert ids[..k + 1][..k] == ids[..k];
  }

  lemma {:induction false} NoneRunning(s: State, vs: seq<int>)
    requires forall v :: v in vs ==> v in s.nodes && Status(s, v) != Running
    ensures RunningAmong(s, vs) == 0
    decreases |vs|
  {
    if vs != [] {
      NoneRunning(s, vs[..|vs| - 1]);
    }
  }

  lemma {:induction false} CapFitsThroughout(cfg: Config, run: nat -> State, turns: nat -> Option<LogProbe>, t: nat)
    requires Interleaving(cfg, run, turns) && Distinct(cfg.g.ids) && cfg.cap > 0
    requires run(0).scan == IsFinished(0) && forall v :: v in cfg.g.ids ==> v in run(0).nodes && Status(run(0), v) != Running
    ensures Shape(cfg, run(t)) && CapFits(cfg, run(t))
    decreases t
  {
    hide Turn;
    assert MoveAt(cfg, run, turns, t);
    if t == 0 {
      NoneRunning(run(0), cfg.g.ids);
    } else {
      CapFitsThroughout(cfg, run, turns, t - 1);
      assert MoveAt(cfg, run, turns, t - 1);
      TurnKeepsCap(cfg, run(t - 1), turns(t - 1), run(t));
    }
  }

  ghost function RunningSet(s: State, vs: seq<int>): set<int> {
    set v | v in vs && v in s.nodes && Status(s, v) == Running
  }

  lemma {:induction false} RunningAmongSize(s: State, vs: seq<int>)
    requires Distinct(vs)
    ensures RunningAmong(s, vs) == |RunningSet(s, vs)|
    decreases |vs|
  {
    if vs == [] {
      assert RunningSet(s, vs) == {};
    } else {
      var front, last := vs[..|vs| - 1], vs[|vs| - 1];
      RunningAmongSize(s, front);
      RunningSetOfOneMore(s, vs);
    }
  }

  lemma RunningSetOfOneMore(s: State, vs: seq<int>)
    requires vs != [] && Distinct(vs)
    ensures var front, last := vs[..|vs| - 1], vs[|vs| - 1];
            |RunningSet(s, vs)| == |RunningSet(s, front)| + (if last in s.nodes && Status(s, last) == Running then 1 else 0)
  {
    var front, last := vs[..|vs| - 1], vs[|vs| - 1];
    assert vs == front + [last];
    assert last !in front;
    if last in s.nodes && Status(s, last) == Running {
      SameSet(RunningSet(s, vs), RunningSet(s, front) + {last});
    } else {
      SameSet(RunningSet(s, vs), RunningSet(s, front));
    }
  }

  /** Under a positive cap, no interleaving ever has more steps running than the cap allows,
      although the scanner counts them one read at a time. */
  lemma CapIsRespected(cfg: Config, run: nat -> State, turns: nat -> Option<LogProbe>, t: nat)
    requires Interleaving(cfg, run, turns) && Distinct(cfg.g.ids) && cfg.cap > 0
    requires run(0).scan == IsFinished(0) && forall v :: v in cfg.g.ids ==> v in run(0).nodes && Status(run(0), v) != Running
    ensures |RunningSet(run(t), cfg.g.ids)| <= cfg.cap
  {
    CapFitsThroughout(cfg, run, turns, t);
    assert MoveAt(cfg, run, turns, t);
    RunningAmongSize(run(t), cfg.g.ids);
  }

  ghost function TurnCount(turns: nat -> Option<LogProbe>, t: nat, t': nat): nat
    requires t <= t'
    decreases t' - t
  {
    if t == t' then 0 else TurnCount(turns, t, t' - 1) + (if turns(t' - 1).Some? then 1 else 0)
  }

  // ------------------------------------------------------ no free slot is passed over

  /** While the scanner counts for step `i`, having started at `s0`: it has counted at most
      what ran then. */
  ghost predicate CountingFrom(cfg: Config, s0: State, s: State, i: nat, k: nat) {
    && Shape(cfg, s) && NoNewRunning(s0, s) && k <= |cfg.g.ids|
    && s.scan.Count? && s.scan.i == i && s.scan.k == k
    && s.scan.c <= RunningAmong(s0, cfg.g.ids[..k])
  }

  lemma CountingTurn(cfg: Config, s0: State, s: State, turn: Option<LogProbe>, s': State, i: nat, k: nat)
    requires CountingFrom(cfg, s0, s, i, k) && Turn(cfg, s, turn, s') && Shape(cfg, s')
    requires forall v :: v in cfg.g.ids ==> v in s0.nodes
    ensures turn.None? ==> CountingFrom(cfg, s0, s', i, k)
    ensures turn.Some? && k < |cfg.g.ids| ==> CountingFrom(cfg, s0, s', i, k + 1)
    ensures turn.Some? && k == |cfg.g.ids| && RunningAmong(s0, cfg.g.ids) < cfg.cap ==> s'.scan == Launch(i)
  {
    hide CheckDependency, RunningAmong;
    var ids := cfg.g.ids;
    if turn.Some? {
      if k < |ids| {
        assert ids[k] in ids;
        CountOneMore(s0, ids, k);
      } else {
        assert ids[..k] == ids;
      }
    }
  }

  /** How the scanner stands after some of its own turns since it began to count. */
  ghost predicate CountedSoFar(cfg: Config, s0: State, s: State, i: nat, turns: nat) {
    if turns <= |cfg.g.ids| then CountingFrom(cfg, s0, s, i, turns)
    else turns == |cfg.g.ids| + 1 ==> s.scan == Launch(i)
  }

  lemma BeginsCounting(cfg: Config, s: State, log: LogProbe, i: nat, s': State)
    requires Shape(cfg, s) && s.scan == Gate(i) && !s.canceled && cfg.cap > 0 && s' == ScanStep(cfg, s, log)
    ensures CountingFrom(cfg, s, s', i, 0)
  {
    hide CheckDependency;
    assert cfg.g.ids[..0] == [];
  }

  lemma {:induction false} CountsOn(cfg: Config, run: nat -> State, turns: nat -> Option<LogProbe>, t: nat, t': nat, i: nat)
    requires Interleaving(cfg, run, turns) && cfg.cap > 0 && t < t'
    requires run(t).scan == Gate(i) && turns(t).Some? && !run(t).canceled
    requires RunningAmong(run(t), cfg.g.ids) < cfg.cap && TurnCount(turns, t + 1, t') <= |cfg.g.ids| + 1
    requires TurnCount(turns, t + 1, t') == |cfg.g.ids| + 1 ==> turns(t' - 1).Some?
    ensures CountedSoFar(cfg, run(t), run(t'), i, TurnCount(turns, t + 1, t'))
    decreases t'
  {
    hide Turn, CountingFrom, RunningAmong;
    assert MoveAt(cfg, run, turns, t) && MoveAt(cfg, run, turns, t' - 1) && MoveAt(cfg, run, turns, t');
    if t' == t + 1 {
      TurnIsScan(cfg, run(t), turns(t), run(t'));
      BeginsCounting(cfg, run(t), turns(t).value, i, run(t'));
    } else {
      CountsOn(cfg, run, turns, t, t' - 1, i);
      KnowsItsNodes(cfg, run(t));
      CountingTurn(cfg, run(t), run(t' - 1), turns(t' - 1), run(t'), i, TurnCount(turns, t + 1, t' - 1));
    }
  }

  lemma TurnIsScan(cfg: Config, s: State, turn: Option<LogProbe>, s': State)
    requires Shape(cfg, s) && Turn(cfg, s, turn, s') && turn.Some?
    ensures s' == ScanStep(cfg, s, turn.value)
  {
    hide ScanStep;
  }

  lemma KnowsItsNodes(cfg: Config, s: State)
    requires Shape(cfg, s)
    ensures forall v :: v in cfg.g.ids ==> v in s.nodes
  {
  }

  /** If fewer steps than the cap run when a ready step has passed the check for cancellation,
      it is started: the scanner's next turns are one for each step it counts, one to compare,
      and then the start, whatever happens meanwhile. */
  lemma FreeSlotIsUsed(cfg: Config, run: nat -> State, turns: nat -> Option<LogProbe>, t: nat, t': nat, i: nat)
    requires Interleaving(cfg, run, turns) && Distinct(cfg.g.ids) && t < t'
    requires run(t).scan == Gate(i) && turns(t).Some? && !run(t).canceled
    requires cfg.cap > 0 ==> |RunningSet(run(t), cfg.g.ids)| < cfg.cap
    requires TurnCount(turns, t + 1, t') == if cfg.cap > 0 then |cfg.g.ids| + 1 else 0
    requires cfg.cap > 0 ==> turns(t' - 1).Some?
    ensures run(t').scan == Launch(i)
    decreases t'
  {
    if cfg.cap > 0 {
      RunningAmongSize(run(t), cfg.g.ids);
      CountsOn(cfg, run, turns, t, t', i);
    } else {
      hide Turn;
      assert MoveAt(cfg, run, turns, t) && MoveAt(cfg, run, turns, t' - 1);
      if t' == t + 1 {
        OpenGate(cfg, run(t), turns(t), run(t'), i);
      } else {
        FreeSlotIsUsed(cfg, run, turns, t, t' - 1, i);
        OthersLeaveScanner(cfg, run(t' - 1), turns(t' - 1), run(t'));
      }
    }
  }

  lemma OpenGate(cfg: Config, s: State, turn: Option<LogProbe>, s': State, i: nat)
    requires Shape(cfg, s) && s.scan == Gate(i) && !s.canceled && cfg.cap <= 0 && turn.Some? && Turn(cfg, s, turn, s')
    ensures s'.scan == Launch(i)
  {
    hide CheckDependency;
  }

  lemma OthersLeaveScanner(cfg: Config, s: State, turn: Option<LogProbe>, s': State)
    requires Shape(cfg, s) && Turn(cfg, s, turn, s') && turn.None?
    ensures s'.scan == s.scan
  {
  }

  // ------------------------------------------------------------- cancellation

  /** Past the last look at the flag before a start. */
  predicate PastGate(pc: ScanPc) {
    pc.Count? || pc.Launch?
  }

  ghost function StartCount(run: nat -> State, turns: nat -> Option<LogProbe>, t: nat): nat {
    if t == 0 then 0
    else StartCount(run, turns, t - 1) + (if run(t - 1).scan.Launch? && turns(t - 1).Some? then 1 else 0)
  }

  lemma CanceledTurn(cfg: Config, s: State, turn: Option<LogProbe>, s': State)
    requires Shape(cfg, s) && s.canceled && Turn(cfg, s, turn, s')
    ensures s'.canceled && (PastGate(s'.scan) ==> PastGate(s.scan) && !(turn.Some? && s.scan.Launch?))
  {
    hide ScanStep;
    if turn.Some? {
      if s.scan.Launch? {
        StartOfOne(cfg, s, turn.value);
      } else {
        LookingStartsNothing(cfg, s, turn.value);
      }
    }
  }

  /** After the flag is set, at most the one step that was already past its check starts. */
  lemma {:induction false} AtMostOneStartAfterCancel(cfg: Config, run: nat -> State, turns: nat -> Option<LogProbe>,
                                                     t: nat, t': nat)
    requires Interleaving(cfg, run, turns) && t <= t' && run(t).canceled
    ensures run(t').canceled
    ensures var more := StartCount(run, turns, t') - StartCount(run, turns, t);
            && 0 <= more <= (if PastGate(run(t).scan) then 1 else 0)
            && (PastGate(run(t').scan) ==> more == 0 && PastGate(run(t).scan))
    decreases t' - t
  {
    hide Turn;
    if t < t' {
      AtMostOneStartAfterCancel(cfg, run, turns, t, t' - 1);
      assert MoveAt(cfg, run, turns, t' - 1);
      CanceledTurn(cfg, run(t' - 1), turns(t' - 1), run(t'));
    }
  }

  /** Each move of a cancelled scanner brings it nearer to the end. */
  lemma CanceledTurnIsNearer(cfg: Config, s: State, turn: Option<LogProbe>, s': State)
    requires Shape(cfg, s) && Shape(cfg, s') && Turn(cfg, s, turn, s') && s.canceled
    ensures turn.None? || s.scan.Left? ==> s'.scan == s.scan
    ensures turn.Some? && !s.scan.Left? ==> Rank(cfg.g, s'.scan) < Rank(cfg.g, s.scan)
  {
    hide NextPc, PassCost, CheckDependency;
    if turn.Some? {
      if s.scan.Left? {
        StaysLeft(cfg, s);
      } else if !ChecksDependency(cfg, s.scan) {
        NextPcIsNearer(cfg, s);
      }
    }
  }

  lemma StaysLeft(cfg: Config, s: State)
    requires Shape(cfg, s) && s.scan.Left?
    ensures NextPc(cfg, s) == Left
  {
  }

  /** In any interleaving, a cancelled scan leaves both loops within a bounded number of its
      own moves. */
  lemma {:induction false} CanceledScanLeaves(cfg: Config, run: nat -> State, turns: nat -> Option<LogProbe>,
                                              t: nat, t': nat)
    requires Interleaving(cfg, run, turns) && t <= t' && run(t).canceled
    ensures Shape(cfg, run(t)) && Shape(cfg, run(t'))
    ensures var left := Rank(cfg.g, run(t').scan);
            left == 0 || left + TurnCount(turns, t, t') <= Rank(cfg.g, run(t).scan)
    ensures TurnCount(turns, t, t') >= Rank(cfg.g, run(t).scan) ==> run(t').scan.Left?
    decreases t' - t
  {
    hide Turn, Rank;
    assert MoveAt(cfg, run, turns, t) && MoveAt(cfg, run, turns, t');
    OnlyLeftHasRankZero(cfg.g, run(t').scan);
    if t < t' {
      CanceledScanLeaves(cfg, run, turns, t, t' - 1);
      AtMostOneStartAfterCancel(cfg, run, turns, t, t' - 1);
      assert MoveAt(cfg, run, turns, t' - 1);
      OnlyLeftHasRankZero(cfg.g, run(t' - 1).scan);
      CanceledTurnIsNearer(cfg, run(t' - 1), turns(t' - 1), run(t'));
    }
  }

  /** Between a look at the cancel flag that found it set and the end. */
  predicate OnTheWayOut(pc: ScanPc) {
    pc.IsFinished? || pc.CheckCanceled? || pc.Left?
  }

  lemma WayOutTurn(cfg: Config, s: State, turn: Option<LogProbe>, s': State)
    requires Shape(cfg, s) && s.canceled && Turn(cfg, s, turn, s')
    requires OnTheWayOut(s.scan) || (turn.Some? && s.scan.Gate?)
    ensures OnTheWayOut(s'.scan) && s'.canceled
  {
    hide CheckDependency;
  }

  /** A scanner that finds the flag set, for a step or at the top of its loop, does not look at
      another step. */
  lemma {:induction false} LooksAtNothingMore(cfg: Config, run: nat -> State, turns: nat -> Option<LogProbe>, t: nat, t': nat)
    requires Interleaving(cfg, run, turns) && t < t' && run(t).canceled
    requires OnTheWayOut(run(t).scan) || (turns(t).Some? && run(t).scan.Gate?)
    ensures OnTheWayOut(run(t').scan) && run(t').canceled
    decreases t'
  {
    hide Turn;
    assert MoveAt(cfg, run, turns, t' - 1);
    if t + 1 < t' {
      LooksAtNothingMore(cfg, run, turns, t, t' - 1);
    }
    WayOutTurn(cfg, run(t' - 1), turns(t' - 1), run(t'));
  }

  // ------------------------------------------------------------------- signals

  /** A signal reaches a step: whatever is running becomes cancelled. */
  lemma SignalCancels(cfg: Config, s: State, v: int)
    requires Shape(cfg, s) && s.canceled && v in cfg.g.ids
    ensures var s' := Next(cfg, s, SignalNode(v));
            Status(s', v) == if Status(s, v) == Running then Cancel else Status(s, v)
  {
  }

  lemma StaysNotRunning(cfg: Config, s: State, turn: Option<LogProbe>, s': State, v: int)
    requires Shape(cfg, s) && Shape(cfg, s') && Turn(cfg, s, turn, s') && v in cfg.g.ids && Status(s, v) != Running
    requires !(turn.Some? && s.scan.Launch?)
    ensures Status(s', v) != Running
  {
    hide ScanStep;
    if turn.Some? {
      LookingStartsNothing(cfg, s, turn.value);
    }
  }

  lemma {:induction false} NoStartAfterCancel(cfg: Config, run: nat -> State, turns: nat -> Option<LogProbe>, t: nat, t': nat)
    requires Interleaving(cfg, run, turns) && t <= t' && run(t).canceled && !PastGate(run(t).scan)
    ensures run(t').canceled && !PastGate(run(t').scan)
  {
    AtMostOneStartAfterCancel(cfg, run, turns, t, t');
  }

  /** Once a run is cancelled and the scanner is not about to start a step, a step that does
      not run, as after its signal, never runs again. */
  lemma {:induction false} StoppedForGood(cfg: Config, run: nat -> State, turns: nat -> Option<LogProbe>, t: nat, t': nat, v: int)
    requires Interleaving(cfg, run, turns) && t <= t' && run(t).canceled && !PastGate(run(t).scan)
    requires v in cfg.g.ids && v in run(t).nodes && Status(run(t), v) != Running
    ensures v in run(t').nodes && Status(run(t'), v) != Running
    decreases t'
  {
    hide Turn;
    assert MoveAt(cfg, run, turns, t');
    if t < t' {
      assert MoveAt(cfg, run, turns, t' - 1);
      StoppedForGood(cfg, run, turns, t, t' - 1, v);
      NoStartAfterCancel(cfg, run, turns, t, t' - 1);
      StaysNotRunning(cfg, run(t' - 1), turns(t' - 1), run(t'), v);
    }
  }
}
