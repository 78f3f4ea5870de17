/** Event-sourced workflow runs: how one event changes a run, and what each command checks before it appends. */
module Workflow {
  import opened Prelude
  import opened Ordering
  import opened Text

  datatype StepKind = ReadOnly | Idempotent | NonIdempotent

  datatype RunStatus = Active | NeedsReconcile | Failed | Completed | Aborted

  datatype StepStatus = Pending | Claimed | Completed | Failed | NeedsReconcile

  /** A step's stored payload: what completing and reconciling write, or the free-form error of a failure. */
  datatype Payload = Checkpoint(output: string, approval: Option<string>) | Raw(text: string)

  datatype StepDefinition = StepDefinition(id: string, title: string, kind: StepKind, approvalRequired: bool)

  datatype StepSummary = StepSummary(definition: StepDefinition, status: StepStatus,
                                     claimedBy: Option<string>, output: Option<Payload>)

  datatype Run = Run(id: int, workflowId: string, title: string, spec: string, status: RunStatus, input: string,
                     steps: seq<StepSummary>, currentStep: Option<string>, createdAt: int, updatedAt: int, sources: seq<int>)

  datatype Action =
    | Started(workflowId: string, title: string, spec: string, input: string, steps: seq<StepDefinition>)
    | Claim(step: string)
    | Reclaim(step: string)
    | TakeOver(step: string)
    | CompleteStep(step: string, value: Option<Payload>)
    | FailStep(step: string, value: Option<Payload>)
    | Reconcile(step: string, value: Option<Payload>)
    | CompleteRun
    | AbortRun
    | Unreadable  // an unknown action, or metadata without the fields its action needs

  datatype Event = Event(key: Key, agent: string, runId: int, action: Action)

  predicate OnStep(action: Action) {
    action.Claim? || action.Reclaim? || action.TakeOver? || action.CompleteStep? || action.FailStep? || action.Reconcile?
  }

  predicate TakesStep(action: Action) {
    action.Claim? || action.Reclaim? || action.TakeOver?
  }

  // ----- Projection of one run -----

  /** The first step with this identifier. */
  function FindStep(steps: seq<StepSummary>, id: string): (i: Option<nat>)
    ensures i.Some? ==> i.value < |steps| && steps[i.value].definition.id == id
    ensures i.None? ==> forall k | 0 <= k < |steps| :: steps[k].definition.id != id
  {
    if steps == [] then None
    else if steps[0].definition.id == id then Some(0)
    else match FindStep(steps[1..], id) case None => None case Some(k) => Some(k + 1)
  }

  function StartRun(event: Event): Run
    requires event.action.Started?
  {
    var defs := event.action.steps;
    Run(event.runId, event.action.workflowId, event.action.title, event.action.spec, RunStatus.Active, event.action.input,
        seq(|defs|, i requires 0 <= i < |defs| => StepSummary(defs[i], Pending, None, None)),
        None, event.key.at, event.key.at, [event.key.id])
  }

  function ApplyToStep(run: Run, i: nat, event: Event): Run
    requires i < |run.steps| && OnStep(event.action)
  {
    var step := run.steps[i];
    match event.action
    case CompleteStep(_, value) =>
      run.(steps := run.steps[i := step.(status := StepStatus.Completed, output := value)],
           currentStep := None, status := Active)
    case Reconcile(_, value) =>
      run.(steps := run.steps[i := step.(status := StepStatus.Completed, output := value)],
           currentStep := None, status := Active)
    case FailStep(_, value) =>
      run.(steps := run.steps[i := step.(status := StepStatus.Failed, output := value)], status := RunStatus.Failed)
    case _ =>
      if event.action.TakeOver? && step.status == Claimed && step.definition.kind == NonIdempotent then
        run.(steps := run.steps[i := step.(status := StepStatus.NeedsReconcile, claimedBy := Some(event.agent))],
             currentStep := Some(event.action.step), status := RunStatus.NeedsReconcile)
      else
        run.(steps := run.steps[i := step.(status := Claimed, claimedBy := Some(event.agent))],
             currentStep := Some(event.action.step),
             status := if run.status == RunStatus.Failed then Active else run.status)
  }

  /** One event on an existing run. */
  function ApplyAction(run: Run, event: Event): Result<Run> {
    var touched := run.(updatedAt := event.key.at, sources := run.sources + [event.key.id]);
    match event.action
    case CompleteRun => Ok(touched.(status := RunStatus.Completed))
    case AbortRun => Ok(touched.(status := Aborted))
    case Started(_, _, _, _, _) => Err("unknown workflow action")
    case Unreadable => Err("unknown workflow action")
    case _ =>
      match FindStep(run.steps, event.action.step)
      case None => Err("unknown workflow step")
      case Some(i) => Ok(ApplyToStep(touched, i, event))
  }

  /** The same change made in place, field by field. */
  class RunRecord {
    var id: int
    var workflowId: string
    var title: string
    var spec: string
    var status: RunStatus
    var input: string
    var steps: seq<StepSummary>
    var currentStep: Option<string>
    var createdAt: int
    var updatedAt: int
    var sources: seq<int>

    constructor (run: Run)
      ensures Snapshot() == run
    {
      id, workflowId, title, spec := run.id, run.workflowId, run.title, run.spec;
      status, input, steps := run.status, run.input, run.steps;
      currentStep, createdAt, updatedAt, sources := run.currentStep, run.createdAt, run.updatedAt, run.sources;
    }

    function Snapshot(): Run
      reads this
    {
      Run(id, workflowId, title, spec, status, input, steps, currentStep, createdAt, updatedAt, sources)
    }

    method Apply(event: Event) returns (ok: bool)
      modifies this
      ensures ok <==> ApplyAction(old(Snapshot()), event).Ok?
      ensures ok ==> ApplyAction(old(Snapshot()), event) == Ok(Snapshot())
    {
      updatedAt := event.key.at;
      sources := sources + [event.key.id];
      if event.action.CompleteRun? {
        status := RunStatus.Completed;
        return true;
      }
      if event.action.AbortRun? {
        status := Aborted;
        return true;
      }
      if !OnStep(event.action) {
        return false;
      }
      var found := FindStep(steps, event.action.step);
      if found.None? {
        return false;
      }
      var i := found.value;
      var step := steps[i];
      if TakesStep(event.action) {
        if event.action.TakeOver? && step.status == Claimed && step.definition.kind == NonIdempotent {
          step := step.(status := StepStatus.NeedsReconcile);
          status := RunStatus.NeedsReconcile;
        } else {
          step := step.(status := Claimed);
          if status == RunStatus.Failed {
            status := Active;
          }
        }
        step := step.(claimedBy := Some(event.agent));
        currentStep := Some(event.action.step);
      } else if event.action.FailStep? {
        step := step.(status := StepStatus.Failed, output := event.action.value);
        status := RunStatus.Failed;
      } else {
        step := step.(status := StepStatus.Completed, output := event.action.value);
        currentStep := None;
        status := Active;
      }
      steps := steps[i := step];
      return true;
    }
  }

  // ----- Validation -----

  /** The first step that is not completed, or the number of steps. */
  function Front(steps: seq<StepSummary>): (c: nat)
    ensures c <= |steps|
    ensures forall i | 0 <= i < c :: steps[i].status == StepStatus.Completed
    ensures c < |steps| ==> steps[c].status != StepStatus.Completed
  {
    if steps == [] || steps[0].status != StepStatus.Completed then 0 else 1 + Front(steps[1..])
  }

  predicate Evidence(approval: Option<string>) {
    approval.Some? && !Blank(approval.value)
  }

  /** The action a claim is recorded as, or the reason it is refused. */
  function ValidateClaim(run: Run, step: string, takeover: bool, agent: Option<string>): Result<Action> {
    if run.status == RunStatus.Completed || run.status == Aborted then Err("run is not active")
    else
      var c := Front(run.steps);
      if c == |run.steps| then Err("all workflow steps are completed")
      else if run.steps[c].definition.id != step then Err("not the next workflow step")
      else
        match run.steps[c].status
        case Pending => if takeover then Err("not claimed; claim it without takeover") else Ok(Claim(step))
        case Failed => if takeover then Err("not claimed; claim it without takeover") else Ok(Reclaim(step))
        case Claimed =>
          if takeover then Ok(TakeOver(step))
          else if agent.Some? && run.steps[c].claimedBy == agent then Ok(Claim(step))
          else Err("already claimed")
        case NeedsReconcile => Err("needs reconciliation")
        case Completed => Err("completed")
  }

  predicate ValidateStepClaimed(run: Run, step: string) {
    var found := FindStep(run.steps, step);
    found.Some? && run.steps[found.value].status == Claimed
  }

  predicate ValidateComplete(run: Run, step: string, agent: string, approval: Option<string>) {
    && ValidateStepClaimed(run, step)
    && var s := run.steps[FindStep(run.steps, step).value];
       s.claimedBy == Some(agent) && (s.definition.approvalRequired ==> Evidence(approval))
  }

  predicate ValidateFail(run: Run, step: string, agent: string) {
    && ValidateStepClaimed(run, step)
    && run.steps[FindStep(run.steps, step).value].claimedBy == Some(agent)
  }

  predicate ValidateReconcile(run: Run, step: string, approval: Option<string>) {
    var found := FindStep(run.steps, step);
    && found.Some? && run.steps[found.value].status == StepStatus.NeedsReconcile
    && (run.steps[found.value].definition.approvalRequired ==> Evidence(approval))
  }

  predicate ValidateRunComplete(run: Run) {
    forall i | 0 <= i < |run.steps| :: run.steps[i].status == StepStatus.Completed
  }

  predicate ValidSteps(steps: seq<StepDefinition>) {
    steps != [] && forall i, j | 0 <= i < j < |steps| :: steps[i].id != steps[j].id
  }

  /** The command behind an event passes its own checks on the run it read. */
  ghost predicate Validated(run: Run, event: Event) {
    match event.action
    case Claim(step) =>
      || ValidateClaim(run, step, false, None) == Ok(event.action)
      || ValidateClaim(run, step, false, Some(event.agent)) == Ok(event.action)
    case Reclaim(step) => ValidateClaim(run, step, false, None) == Ok(event.action)
    case TakeOver(step) => ValidateClaim(run, step, true, None) == Ok(event.action)
    case CompleteStep(step, value) =>
      value.Some? && value.value.Checkpoint? && ValidateComplete(run, step, event.agent, value.value.approval)
    case FailStep(step, _) => ValidateFail(run, step, event.agent)
    case Reconcile(step, value) =>
      value.Some? && value.value.Checkpoint? && ValidateReconcile(run, step, value.value.approval)
    case CompleteRun => ValidateRunComplete(run)
    case AbortRun => true
    case Started(_, _, _, _, _) => false
    case Unreadable => false
  }

  /** The initial-claim index refuses a second `claimed` event for a step of a run. */
  ghost predicate ClaimIndexed(log: seq<Event>, runId: int, step: string) {
    exists e | e in log :: e.runId == runId && e.action == Claim(step)
  }

  // ----- Logs -----

  /** What a run looks like after a log: its events folded in order. */
  function History(log: seq<Event>, id: int): Option<Run> {
    if log == [] then None
    else
      var e := log[|log| - 1];
      var before := History(log[..|log| - 1], id);
      if e.runId != id then before
      else if e.action.Started? then Some(StartRun(e))
      else if before.None? then None
      else match ApplyAction(before.value, e) case Ok(run) => Some(run) case Err(_) => None
  }

  /** The next event a command may append: later than everything, validated against what it read, let in by the index. */
  ghost predicate Admissible(log: seq<Event>, e: Event) {
    && (forall x | x in log :: Less(x.key, e.key))
    && match e.action
       case Started(_, _, _, _, steps) => ValidSteps(steps) && forall x | x in log :: x.runId != e.runId
       case _ =>
         && History(log, e.runId).Some?
         && Validated(History(log, e.runId).value, e)
         && (e.action.Claim? ==> !ClaimIndexed(log, e.runId, e.action.step))
  }

  /** A log that only commands have written. */
  ghost predicate Legal(log: seq<Event>) {
    log == [] || (Legal(log[..|log| - 1]) && Admissible(log[..|log| - 1], log[|log| - 1]))
  }
}
