/** What every step keeps: the relation between a step's status and its worker, what the
    scanner may rely on between its reads, and what finished steps never do again. */
module Safety {
  import opened Digraph
  import opened Nodes
  import opened Engine

  // ------------------------------------------------------------- the invariant

  /** A cancelled status beside a live worker, or a running one without, needs a signal. */
  ghost predicate WorkerFits(s: State, v: int)
    requires v in s.nodes && v in s.workers
  {
    var status := Status(s, v);
    match s.workers[v]
    case Idle => status == Running ==> s.canceled
    case Ending => status == Running || status == Error || (s.canceled && status == Cancel)
    case TearingDown => status == Success || status == Error || (s.canceled && status == Cancel)
    case _ => status == Running || (s.canceled && status == Cancel)
  }

  ghost predicate TornFits(s: State, v: int)
    requires v in s.nodes && v in s.workers
  {
    v in s.tornDown ==> Status(s, v) == Error && s.workers[v] == Idle
  }

  ghost predicate Sound(s: State, v: int)
    requires v in s.nodes && v in s.workers
  {
    WorkerFits(s, v) && TornFits(s, v)
  }

  /** A dependency that lets its dependents run: it succeeded, or it failed or was skipped
      and the run goes on regardless, or it had succeeded until its teardown failed. */
  ghost predicate Passed(s: State, d: int) {
    d in s.nodes && (Continues(s.nodes[d]) || (d in s.tornDown && Status(s, d) == Error))
  }

  ghost predicate DepsPassed(cfg: Config, s: State, v: int, n: nat) {
    n <= |Preds(cfg.g, v)| && forall d :: d in Preds(cfg.g, v)[..n] ==> Passed(s, d)
  }

  ghost predicate Pristine(s: State, v: int) {
    v in s.nodes && v in s.workers && s.workers[v] == Idle && Status(s, v) == NotStarted
  }

  ghost predicate AllFinished(cfg: Config, s: State) {
    forall v :: v in cfg.g.ids ==> v in s.nodes && Finished(Status(s, v))
  }

  ghost predicate ScanFits(cfg: Config, s: State)
    requires Shape(cfg, s)
  {
    var ids := cfg.g.ids;
    match s.scan
    case IsFinished(k) => s.canceled || forall v :: v in ids[..k] ==> Finished(Status(s, v))
    case Dependency(i, j, ready) =>
      && s.workers[ids[i]] == Idle
      && (Status(s, ids[i]) == NotStarted || Status(s, ids[i]) == Cancel || Status(s, ids[i]) == Skipped)
      && (ready ==> Pristine(s, ids[i]) && DepsPassed(cfg, s, ids[i], j))
    case Gate(i) => Pristine(s, ids[i]) && DepsPassed(cfg, s, ids[i], |Preds(cfg.g, ids[i])|)
    case Count(i, _, _) => cfg.cap > 0 && Pristine(s, ids[i]) && DepsPassed(cfg, s, ids[i], |Preds(cfg.g, ids[i])|)
    case Launch(i) => Pristine(s, ids[i]) && DepsPassed(cfg, s, ids[i], |Preds(cfg.g, ids[i])|)
    case Left => s.canceled || AllFinished(cfg, s)
    case CheckCanceled => true
    case Visit(_) => true
  }

  ghost predicate Inv(cfg: Config, s: State) {
    && Shape(cfg, s)
    && (forall v :: v in cfg.g.ids ==> Sound(s, v))
    && ScanFits(cfg, s)
  }

  ghost predicate NoSelfLoop(g: Graph) {
    forall v :: !Edge(g, v, v)
  }

  lemma AcyclicHasNoSelfLoop(g: Graph)
    requires Acyclic(g) && forall u, v :: Edge(g, u, v) ==> u in g.ids
    ensures NoSelfLoop(g)
  {
    forall v ensures !Edge(g, v, v) {
      if Edge(g, v, v) {
        assert StepAt(g, [v, v], 1);
        assert ClosedWalk(g, [v, v]);
      }
    }
  }

  // ------------------------------------------------------ how a step may evolve

  ghost predicate UnderScan(cfg: Config, s: State, v: int) {
    s.scan.Dependency? && s.scan.i < |cfg.g.ids| && cfg.g.ids[s.scan.i] == v
  }

  /** Finished, and no worker is about to reset the step for a retry. */
  ghost predicate Settled(s: State, v: int) {
    v in s.nodes && v in s.workers && Finished(Status(s, v)) && s.workers[v] != Backoff
  }

  /** Settled steps stay settled, and those that let dependents pass keep doing so; only
      the node being scanned may still turn from skipped to cancelled or back. */
  ghost predicate Evolves(cfg: Config, s: State, s': State, v: int) {
    && (Settled(s, v) ==> Settled(s', v))
    && (Passed(s, v) && !UnderScan(cfg, s, v) ==> Passed(s', v))
  }

  ghost predicate Untouched(s: State, s': State, v: int) {
    && v in s.nodes && v in s.workers && v in s'.nodes && v in s'.workers
    && s'.nodes[v] == s.nodes[v] && s'.workers[v] == s.workers[v]
    && (v in s'.tornDown <==> v in s.tornDown)
  }

  ghost predicate Rests(s: State, v: int)
    requires v in s.nodes && v in s.workers
  {
    s.workers[v] == Idle && Status(s, v) != Running
  }

  lemma WorkIsLocal(s: State, v: int, e: Event)
    requires v in s.nodes && v in s.workers
    ensures var s' := WorkStep(s, v, e);
            && s'.canceled == s.canceled && s'.expired == s.expired && s'.scan == s.scan
            && forall w :: w != v && w in s.nodes && w in s.workers ==> Untouched(s, s', w)
  {
  }

  lemma WorkEvolves(cfg: Config, s: State, v: int, e: Event)
    requires v in s.nodes && v in s.workers && Sound(s, v)
    ensures var s' := WorkStep(s, v, e);
            && Sound(s', v) && Evolves(cfg, s, s', v)
            && (Rests(s, v) ==> Untouched(s, s', v))
  {
    var p := Proceed(s.nodes[v], s.workers[v], s.canceled, s.expired, e);
    match s.workers[v]
    case Idle =>
    case Precondition =>
    case SettingUp =>
    case LoopTop =>
    case Executing =>
    case Backoff =>
    case Ending =>
    case TearingDown =>
  }

  lemma SignalEvolves(cfg: Config, s: State, v: int)
    requires v in s.nodes && v in s.workers && Sound(s, v)
    ensures var s' := Signalled(s, v);
            && s'.scan == s.scan && s'.canceled == s.canceled
            && Sound(s', v) && Evolves(cfg, s, s', v)
            && (Status(s, v) != Running ==> Untouched(s, s', v))
            && forall w :: w != v && w in s.nodes && w in s.workers ==> Untouched(s, s', w)
  {
  }

  lemma DependenciesSurvive(cfg: Config, s: State, s': State, v: int, n: nat)
    requires DepsPassed(cfg, s, v, n)
    requires forall d :: d in Preds(cfg.g, v) && Passed(s, d) ==> Passed(s', d)
    ensures DepsPassed(cfg, s', v, n)
  {
    forall d | d in Preds(cfg.g, v)[..n] ensures Passed(s', d) {
      assert d in Preds(cfg.g, v);
    }
  }

  /** A step that waits for its retry is finished only if it has been cancelled. */
  lemma FinishedIsSettled(s: State, v: int)
    requires v in s.nodes && v in s.workers && Sound(s, v) && Finished(Status(s, v)) && !s.canceled
    ensures Settled(s, v)
  {
  }

  /** Steps taken by others leave the scanner's knowledge intact. */
  lemma ScanKnowledgeSurvives(cfg: Config, s: State, s': State)
    requires Inv(cfg, s) && Shape(cfg, s') && NoSelfLoop(cfg.g)
    requires s'.scan == s.scan && (s.canceled ==> s'.canceled)
    requires forall v :: v in cfg.g.ids ==> Evolves(cfg, s, s', v) && (Rests(s, v) ==> Untouched(s, s', v))
    ensures ScanFits(cfg, s')
  {
    if s.scan.Dependency? || s.scan.Gate? || s.scan.Count? || s.scan.Launch? {
      var v := cfg.g.ids[s.scan.i];
      assert v in cfg.g.ids && Untouched(s, s', v);
      forall d | d in Preds(cfg.g, v) && Passed(s, d) ensures Passed(s', d) {
        assert d in cfg.g.ids;
        assert !Edge(cfg.g, v, v);
        assert Evolves(cfg, s, s', d);
      }
      if s.scan.Dependency? && s.scan.ready {
        DependenciesSurvive(cfg, s, s', v, s.scan.j);
      } else if !s.scan.Dependency? {
        DependenciesSurvive(cfg, s, s', v, |Preds(cfg.g, v)|);
      }
    } else if s.scan.IsFinished? && !s'.canceled {
      forall v | v in cfg.g.ids[..s.scan.k] ensures Finished(Status(s', v)) {
        assert v in cfg.g.ids;
        FinishedIsSettled(s, v);
        assert Evolves(cfg, s, s', v);
      }
    }
  }

  lemma OthersKeepInv(cfg: Config, s: State, s': State, v: int)
    requires Inv(cfg, s) && Shape(cfg, s') && NoSelfLoop(cfg.g) && v in cfg.g.ids
    requires s'.scan == s.scan && s'.canceled == s.canceled
    requires Sound(s', v) && Evolves(cfg, s, s', v) && (Rests(s, v) ==> Untouched(s, s', v))
    requires forall w :: w != v && w in s.nodes && w in s.workers ==> Untouched(s, s', w)
    ensures Inv(cfg, s')
    ensures forall w :: w in cfg.g.ids ==> Evolves(cfg, s, s', w)
  {
    forall w | w in cfg.g.ids
      ensures Sound(s', w) && Evolves(cfg, s, s', w) && (Rests(s, w) ==> Untouched(s, s', w))
    {
      assert Sound(s, w);
      if w != v {
        assert Untouched(s, s', w);
      }
    }
    ScanKnowledgeSurvives(cfg, s, s');
  }

  lemma FlagKeepsInv(cfg: Config, s: State, s': State)
    requires Inv(cfg, s) && Shape(cfg, s') && NoSelfLoop(cfg.g)
    requires s' == s.(canceled := s'.canceled, expired := s'.expired) && (s.canceled ==> s'.canceled)
    ensures Inv(cfg, s')
    ensures forall w :: w in cfg.g.ids ==> Evolves(cfg, s, s', w)
  {
    forall w | w in cfg.g.ids
      ensures Sound(s', w) && Evolves(cfg, s, s', w) && Untouched(s, s', w)
    {
      assert Sound(s, w);
    }
    ScanKnowledgeSurvives(cfg, s, s');
  }

  // ------------------------------------------------------------- every step keeps it

  /** Looking at a dependency changes at most its cached decision. */
  lemma InspectionEffect(dep: NodeData, log: LogProbe)
    ensures var look := Inspect(dep, log);
            && look.dep.state == dep.state && look.dep.step == dep.step
            && (Continues(dep) ==> look == Inspection(dep, Pass))
            && (look.verdict.Pass? <==> Continues(look.dep))
            && (look.verdict.Hold? <==> !Finished(dep.state.status))
            && (look.verdict.Bar? ==> look.verdict.status in {Cancel, Skipped})
            && (look.verdict == Bar(Cancel) ==> dep.state.status == Error || dep.state.status == Cancel)
  {
  }

  lemma CheckDependencyEvolves(cfg: Config, s: State, log: LogProbe)
    requires Inv(cfg, s) && NoSelfLoop(cfg.g) && ChecksDependency(cfg, s.scan)
    ensures var s' := CheckDependency(cfg, s, log);
            forall w :: w in cfg.g.ids ==> Sound(s', w) && Evolves(cfg, s, s', w)
  {
    hide Inspect;
    var v := cfg.g.ids[s.scan.i];
    var d := Preds(cfg.g, v)[s.scan.j];
    assert d in Preds(cfg.g, v) && !Edge(cfg.g, v, v);
    InspectionEffect(s.nodes[d], log);
    var s' := CheckDependency(cfg, s, log);
    forall w | w in cfg.g.ids ensures Sound(s', w) && Evolves(cfg, s, s', w) {
      assert Sound(s, w);
    }
  }

  lemma CheckDependencyKeepsInv(cfg: Config, s: State, log: LogProbe)
    requires Inv(cfg, s) && NoSelfLoop(cfg.g) && ChecksDependency(cfg, s.scan)
    ensures var s' := CheckDependency(cfg, s, log);
            Inv(cfg, s') && forall w :: w in cfg.g.ids ==> Evolves(cfg, s, s', w)
  {
    hide Inspect, Sound;
    var v := cfg.g.ids[s.scan.i];
    var preds := Preds(cfg.g, v);
    var d := preds[s.scan.j];
    assert d in preds && !Edge(cfg.g, v, v);
    var s' := CheckDependency(cfg, s, log);
    CheckDependencyEvolves(cfg, s, log);
    InspectionEffect(s.nodes[d], log);
    if s'.scan.ready {
      forall x | x in preds[..s.scan.j + 1] ensures Passed(s', x) {
        assert preds[..s.scan.j + 1] == preds[..s.scan.j] + [d];
        if x != d {
          assert x in preds[..s.scan.j];
          assert Passed(s, x);
        }
      }
    }
  }

  lemma LaunchKeepsInv(cfg: Config, s: State, log: LogProbe)
    requires Inv(cfg, s) && s.scan.Launch?
    ensures var s' := ScanStep(cfg, s, log);
            Inv(cfg, s') && forall w :: w in cfg.g.ids ==> Evolves(cfg, s, s', w)
  {
    hide CheckDependency;
    var s' := ScanStep(cfg, s, log);
    forall w | w in cfg.g.ids ensures Sound(s', w) && Evolves(cfg, s, s', w) {
      assert Sound(s, w);
    }
  }

  /** The scanner's other moves only change where it is. */
  lemma LookingKeepsInv(cfg: Config, s: State, log: LogProbe)
    requires Inv(cfg, s) && !s.scan.Launch? && !ChecksDependency(cfg, s.scan)
    ensures var s' := ScanStep(cfg, s, log);
            && s' == s.(scan := s'.scan)
            && Inv(cfg, s') && forall w :: w in cfg.g.ids ==> Evolves(cfg, s, s', w)
  {
    hide CheckDependency;
    var s' := ScanStep(cfg, s, log);
    var ids := cfg.g.ids;
    SameNodesKeepInv(cfg, s, s');
    hide Sound, Evolves, DepsPassed, Pristine;
    match s.scan
    case IsFinished(k) => CountFinished(cfg, s, s', k);
    case Visit(i) =>
      if i < |ids| && Status(s, ids[i]) == NotStarted {
        NotStartedIsPristine(s, ids[i]);
        NothingToPass(cfg, s, ids[i]);
      }
    case _ =>
  }

  lemma SameNodesKeepInv(cfg: Config, s: State, s': State)
    requires Inv(cfg, s) && s' == s.(scan := s'.scan)
    ensures forall w :: w in cfg.g.ids ==> Sound(s', w) && Evolves(cfg, s, s', w)
    ensures forall w :: Pristine(s, w) ==> Pristine(s', w)
    ensures forall v, n: nat :: DepsPassed(cfg, s, v, n) ==> DepsPassed(cfg, s', v, n)
  {
    SamePassed(cfg, s, s');
    forall w | w in cfg.g.ids ensures Sound(s', w) && Evolves(cfg, s, s', w) {
      assert Sound(s, w);
    }
  }

  lemma CountFinished(cfg: Config, s: State, s': State, k: nat)
    requires Shape(cfg, s) && ScanFits(cfg, s) && s.scan == IsFinished(k)
    requires s' == s.(scan := if k == |cfg.g.ids| then Left
                              else if Finished(Status(s, cfg.g.ids[k])) then IsFinished(k + 1) else CheckCanceled)
    ensures ScanFits(cfg, s')
  {
    var ids := cfg.g.ids;
    if k == |ids| {
      assert ids[..k] == ids;
      assert !s.canceled ==> AllFinished(cfg, s');
    } else {
      assert ids[..k + 1] == ids[..k] + [ids[k]];
    }
  }

  lemma NotStartedIsPristine(s: State, v: int)
    requires v in s.nodes && v in s.workers && Sound(s, v) && Status(s, v) == NotStarted
    ensures Pristine(s, v)
  {
  }

  lemma NothingToPass(cfg: Config, s: State, v: int)
    ensures DepsPassed(cfg, s, v, 0)
  {
    assert Preds(cfg.g, v)[..0] == [];
  }

  lemma SamePassed(cfg: Config, s: State, s': State)
    requires s'.nodes == s.nodes && s'.tornDown == s.tornDown
    ensures forall v, n: nat :: DepsPassed(cfg, s, v, n) ==> DepsPassed(cfg, s', v, n)
  {
    forall v, n: nat | DepsPassed(cfg, s, v, n) ensures DepsPassed(cfg, s', v, n) {
      DependenciesSurvive(cfg, s, s', v, n);
    }
  }

  /** The invariant survives every action, and no step undoes what is settled. */
  lemma NextKeepsInv(cfg: Config, s: State, a: Action)
    requires Inv(cfg, s) && NoSelfLoop(cfg.g)
    ensures Inv(cfg, Next(cfg, s, a))
    ensures forall w :: w in cfg.g.ids ==> Evolves(cfg, s, Next(cfg, s, a), w)
  {
    hide NextPc, CheckDependency, WorkStep, Signalled;
    var s' := Next(cfg, s, a);
    match a
    case Scan(log) =>
      if ChecksDependency(cfg, s.scan) {
        CheckDependencyKeepsInv(cfg, s, log);
      } else if s.scan.Launch? {
        LaunchKeepsInv(cfg, s, log);
      } else {
        LookingKeepsInv(cfg, s, log);
      }
    case Work(v, e) =>
      if v in cfg.g.ids {
        WorkIsLocal(s, v, e);
        WorkEvolves(cfg, s, v, e);
        OthersKeepInv(cfg, s, s', v);
      }
    case SignalNode(v) =>
      if v in cfg.g.ids {
        SignalEvolves(cfg, s, v);
        OthersKeepInv(cfg, s, s', v);
      }
    case SetCanceled => FlagKeepsInv(cfg, s, s');
    case Expire => FlagKeepsInv(cfg, s, s');
  }

  /** The one way in which a finished step is taken back: it was cancelled while its worker
      waited to retry it, and the worker resets it all the same. */
  lemma UnfinishedOnlyByRetry(cfg: Config, s: State, a: Action, v: int)
    requires Inv(cfg, s) && NoSelfLoop(cfg.g) && v in cfg.g.ids && Finished(Status(s, v))
    ensures !Finished(Status(Next(cfg, s, a), v)) <==>
              Status(s, v) == Cancel && s.workers[v] == Backoff && IsWorkOf(a, v)
  {
    hide Next, ScanFits;
    assert Sound(s, v);
    NextKeepsInv(cfg, s, a);
    if s.workers[v] == Backoff {
      BackoffMoves(cfg, s, a, v);
    }
  }

  lemma BackoffMoves(cfg: Config, s: State, a: Action, v: int)
    requires Inv(cfg, s) && v in cfg.g.ids && s.workers[v] == Backoff
    ensures IsWorkOf(a, v) ==> Status(Next(cfg, s, a), v) == NotStarted
    ensures !IsWorkOf(a, v) && Finished(Status(s, v)) ==> Finished(Status(Next(cfg, s, a), v))
  {
    hide HandleResult, NextPc, Inspect, DepsPassed;
    if a.Scan? && ChecksDependency(cfg, s.scan) {
      var d := Preds(cfg.g, cfg.g.ids[s.scan.i])[s.scan.j];
      assert d in Preds(cfg.g, cfg.g.ids[s.scan.i]);
      InspectionEffect(s.nodes[d], a.log);
    }
  }
}
