/** One step of a DAG run: its configuration, its run state, and the decision whether
    the steps that depend on it may go on. */
module Nodes {
  import opened Wrappers

  /** `NotStarted` is the zero value, so it is also what clearing a node's state yields. */
  datatype NodeStatus = NotStarted | Running | Error | Cancel | Success | Skipped

  /** `output` says that log patterns are configured. */
  datatype ContinueOn = ContinueOn(failure: bool, skipped: bool, exitCodes: seq<int>,
                                   output: bool, markSuccess: bool)

  datatype Step = Step(name: string, depends: seq<string>, continueOn: ContinueOn, retryLimit: int)

  datatype NodeState = NodeState(status: NodeStatus, retryCount: nat, exitCode: int)

  const ClearedState := NodeState(NotStarted, 0, 0)

  /** `decision` is the continue decision cached among the step's output variables; it is
      not part of the state, so clearing the state leaves it in place. */
  datatype NodeData = NodeData(step: Step, state: NodeState, decision: Option<bool>)

  /** What looking for the configured patterns in the step's log file may yield. */
  datatype LogProbe = Matched | NotMatched | ReadFailed

  datatype Answer = Answer(ok: bool, node: NodeData)

  predicate Finished(status: NodeStatus) {
    status != NotStarted && status != Running
  }

  function WithStatus(d: NodeData, status: NodeStatus): NodeData {
    d.(state := d.state.(status := status))
  }

  function Remember(d: NodeData, ok: bool): Answer {
    Answer(ok, d.(decision := Some(ok)))
  }

  /** The uncertain cases: a cached decision, then the exit code, then the log.  A log that
      cannot be read answers no without caching the answer. */
  function Judge(d: NodeData, log: LogProbe): Answer {
    if d.decision.Some? then Answer(d.decision.value, d)
    else if d.state.exitCode in d.step.continueOn.exitCodes then Remember(d, true)
    else if d.step.continueOn.output && log == ReadFailed then Answer(false, d)
    else Remember(d, d.step.continueOn.output && log == Matched)
  }

  function ShouldContinue(d: NodeData, log: LogProbe): Answer {
    match d.state.status
    case Success => Answer(true, d)
    case Error => if d.step.continueOn.failure then Answer(true, d) else Judge(d, log)
    case Skipped => if d.step.continueOn.skipped then Answer(true, d) else Judge(d, log)
    case Cancel => Answer(false, d)
    case NotStarted => Answer(false, d)
    case Running => Answer(false, d)
  }

  /** The decision is settled in favour of continuing, whatever the log says later. */
  predicate Continues(d: NodeData) {
    || d.state.status == Success
    || (d.state.status == Error && (d.step.continueOn.failure || d.decision == Some(true)))
    || (d.state.status == Skipped && (d.step.continueOn.skipped || d.decision == Some(true)))
  }

  /** Only an unreadable log leaves the question open. */
  predicate Undecided(d: NodeData, log: LogProbe) {
    && (d.state.status == Error || d.state.status == Skipped)
    && !Continues(d)
    && d.decision == None
    && d.state.exitCode !in d.step.continueOn.exitCodes
    && d.step.continueOn.output
    && log == ReadFailed
  }

  /** A yes is final; a no is final too, unless it came from an unreadable log that
      can be read, and matches, the second time. */
  lemma DecisionIsFinal(d: NodeData, first: LogProbe, second: LogProbe)
    ensures var a := ShouldContinue(d, first);
            var b := ShouldContinue(a.node, second);
            && a.node.state == d.state && a.node.step == d.step
            && (a.ok <==> Continues(a.node))
            && (a.ok != b.ok <==> Undecided(d, first) && second == Matched)
            && (a.ok ==> b == a)
  {
  }

  // ---------------------------------------------------- what the configuration means

  /** The status alone is enough to go on. */
  predicate AllowedOutright(step: Step, status: NodeStatus) {
    || status == Success
    || (status == Error && step.continueOn.failure)
    || (status == Skipped && step.continueOn.skipped)
  }

  /** Whether dependents of a step that ended so may go on: its configuration allows the status,
      lists the exit code, or has patterns of which one is in the log. */
  predicate Allows(step: Step, status: NodeStatus, exitCode: int, log: LogProbe) {
    || AllowedOutright(step, status)
    || ((status == Error || status == Skipped)
        && (exitCode in step.continueOn.exitCodes || (step.continueOn.output && log == Matched)))
  }

  /** The answer is worked out and then remembered: the status alone does not settle it, and
      the log can be read if it has to be. */
  predicate Settles(step: Step, status: NodeStatus, exitCode: int, log: LogProbe) {
    && (status == Error || status == Skipped) && !AllowedOutright(step, status)
    && (exitCode in step.continueOn.exitCodes || !step.continueOn.output || log != ReadFailed)
  }

  /** The first answer since an execution is what the configuration says; later ones repeat it. */
  lemma AnswerAsConfigured(d: NodeData, log: LogProbe)
    ensures var a := ShouldContinue(d, log);
            var status, exitCode := d.state.status, d.state.exitCode;
            && a.node.state == d.state && a.node.step == d.step
            && (d.decision == None ==>
                  && (a.ok <==> Allows(d.step, status, exitCode, log))
                  && a.node.decision == if Settles(d.step, status, exitCode, log) then Some(a.ok) else None)
            && (d.decision.Some? ==>
                  && a.node == d
                  && (a.ok <==> AllowedOutright(d.step, status) || ((status == Error || status == Skipped) && d.decision.value)))
  {
  }
}
