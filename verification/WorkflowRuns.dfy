/** What every run looks like in every log that commands can write, and what can never happen to it. */
module WorkflowRuns {
  import opened Prelude
  import opened Ordering
  import opened Text
  import opened Workflow

  // ----- Shape -----

  /** The run status a current step stands for. */
  function StandsFor(status: StepStatus): RunStatus {
    match status
    case Pending => Active
    case Claimed => Active
    case Completed => Active
    case Failed => RunStatus.Failed
    case NeedsReconcile => RunStatus.NeedsReconcile
  }

  ghost predicate DistinctSteps(steps: seq<StepSummary>) {
    forall i, j | 0 <= i < j < |steps| :: steps[i].definition.id != steps[j].definition.id
  }

  ghost predicate EvidencedStep(s: StepSummary) {
    s.definition.approvalRequired ==> s.output.Some? && s.output.value.Checkpoint? && Evidence(s.output.value.approval)
  }

  /** Completed steps, then at most one current step, then untouched ones; and the run's own fields agree. */
  ghost predicate Shape(run: Run) {
    var c := Front(run.steps);
    && run.steps != [] && DistinctSteps(run.steps)
    && (forall i | 0 <= i < c :: EvidencedStep(run.steps[i]))
    && (forall i | c < i < |run.steps| ::
          run.steps[i].status == Pending && run.steps[i].claimedBy.None? && run.steps[i].output.None?)
    && (c < |run.steps| ==>
          var s := run.steps[c];
          && run.status != RunStatus.Completed
          && (run.status != Aborted ==> run.status == StandsFor(s.status))
          && (s.status == StepStatus.NeedsReconcile ==> s.definition.kind == NonIdempotent)
          && (s.status == Claimed ==> s.claimedBy.Some?)
          && run.currentStep == (if s.status == Pending then None else Some(s.definition.id)))
    && (c == |run.steps| ==>
          && run.currentStep.None?
          && (run.status == Active || run.status == RunStatus.Completed || run.status == Aborted))
  }

  lemma {:induction false} FindIsFront(steps: seq<StepSummary>, id: string)
    requires DistinctSteps(steps)
    requires FindStep(steps, id).Some?
    ensures forall k | 0 <= k < |steps| && steps[k].definition.id == id :: k == FindStep(steps, id).value
  {
  }

  lemma {:induction false} FrontIs(steps: seq<StepSummary>, c: nat)
    requires c <= |steps|
    requires forall i | 0 <= i < c :: steps[i].status == StepStatus.Completed
    requires c < |steps| ==> steps[c].status != StepStatus.Completed
    ensures Front(steps) == c
  {
    if c > 0 {
      FrontIs(steps[1..], c - 1);
    }
  }

  /** A step command that passes its checks is about the current step. */
  lemma CommandsHitTheFront(run: Run, e: Event)
    requires Shape(run) && Validated(run, e) && OnStep(e.action)
    ensures var c := Front(run.steps);
            c < |run.steps| && run.steps[c].definition.id == e.action.step && FindStep(run.steps, e.action.step) == Some(c)
  {
    var c := Front(run.steps);
    if TakesStep(e.action) {
      assert FindStep(run.steps, e.action.step).Some?;
      FindIsFront(run.steps, e.action.step);
    }
  }

  lemma StartHasShape(e: Event)
    requires e.action.Started? && ValidSteps(e.action.steps)
    ensures Shape(StartRun(e))
  {
    FrontIs(StartRun(e).steps, 0);
  }

  /** The status a step command leaves its step in. */
  function NextStatus(step: StepSummary, action: Action): StepStatus
    requires OnStep(action)
  {
    match action
    case CompleteStep(_, _) => StepStatus.Completed
    case Reconcile(_, _) => StepStatus.Completed
    case FailStep(_, _) => StepStatus.Failed
    case TakeOver(_) =>
      if step.status == Claimed && step.definition.kind == NonIdempotent then StepStatus.NeedsReconcile else Claimed
    case _ => Claimed
  }

  /** The status a step command finds its step in. */
  function NeededStatus(action: Action): StepStatus
    requires OnStep(action)
  {
    match action
    case Claim(_) => Pending
    case Reclaim(_) => StepStatus.Failed
    case Reconcile(_, _) => StepStatus.NeedsReconcile
    case _ => Claimed
  }

  /** How an accepted event moves a run: only the current step changes, from one known status to another. */
  ghost predicate Moves(run: Run, e: Event, after: Run) {
    var c := Front(run.steps);
    && after.(status := run.status, steps := run.steps, currentStep := run.currentStep)
       == run.(updatedAt := e.key.at, sources := run.sources + [e.key.id])
    && (e.action.CompleteRun? ==> after.status == RunStatus.Completed)
    && (e.action.AbortRun? ==> after.status == Aborted)
    && (!OnStep(e.action) ==> after.steps == run.steps)
    && (OnStep(e.action) ==>
          && c < |run.steps| && run.steps[c].definition.id == e.action.step
          && run.steps[c].status == NeededStatus(e.action)
          && |after.steps| == |run.steps| && after.steps == run.steps[c := after.steps[c]]
          && after.steps[c].definition == run.steps[c].definition
          && after.steps[c].status == NextStatus(run.steps[c], e.action)
          && after.steps[c].claimedBy == (if TakesStep(e.action) then Some(e.agent) else run.steps[c].claimedBy)
          && after.steps[c].output == (if TakesStep(e.action) then run.steps[c].output else e.action.value)
          && (e.action.CompleteStep? || e.action.FailStep? ==> run.steps[c].claimedBy == Some(e.agent)))
  }

  lemma AcceptedEventsMove(run: Run, e: Event)
    requires Shape(run) && Validated(run, e)
    requires e.action.Claim? ==> run.steps[Front(run.steps)].status == Pending
    ensures ApplyAction(run, e).Ok? && Moves(run, e, ApplyAction(run, e).value)
  {
    if OnStep(e.action) {
      CommandsHitTheFront(run, e);
    }
  }

  lemma FinishingKeepsShape(run: Run, e: Event)
    requires Shape(run) && Validated(run, e) && (e.action.CompleteStep? || e.action.Reconcile?)
    ensures ApplyAction(run, e).Ok? && Shape(ApplyAction(run, e).value)
  {
    hide FindStep, Front;
    var c := Front(run.steps);
    CommandsHitTheFront(run, e);
    var after := ApplyAction(run, e).value;
    assert EvidencedStep(after.steps[c]);
    hide Validated, ApplyAction, Evidence, EvidencedStep;
    FrontIs(after.steps, c + 1);
  }

  /** Steps with the current one replaced by another that is not completed. */
  lemma ReplacingTheFront(run: Run, after: Run, s: StepSummary)
    requires Shape(run) && Front(run.steps) < |run.steps|
    requires after.steps == run.steps[Front(run.steps) := s]
    requires s.definition == run.steps[Front(run.steps)].definition && s.status != StepStatus.Completed
    requires after.status != RunStatus.Completed && (after.status != Aborted ==> after.status == StandsFor(s.status))
    requires s.status == StepStatus.NeedsReconcile ==> s.definition.kind == NonIdempotent
    requires s.status == Claimed ==> s.claimedBy.Some?
    requires after.currentStep == (if s.status == Pending then None else Some(s.definition.id))
    ensures Shape(after)
  {
    hide EvidencedStep, Front;
    FrontIs(after.steps, Front(run.steps));
  }

  lemma TakingKeepsShape(run: Run, e: Event)
    requires Shape(run) && Validated(run, e) && TakesStep(e.action)
    requires e.action.Claim? ==> run.steps[Front(run.steps)].status == Pending
    ensures ApplyAction(run, e).Ok? && Shape(ApplyAction(run, e).value)
  {
    hide EvidencedStep, FindStep, Front, DistinctSteps;
    var c := Front(run.steps);
    CommandsHitTheFront(run, e);
    AcceptedEventsMove(run, e);
    var after := ApplyAction(run, e).value;
    ReplacingTheFront(run, after, after.steps[c]);
  }

  lemma FailingKeepsShape(run: Run, e: Event)
    requires Shape(run) && Validated(run, e) && e.action.FailStep?
    ensures ApplyAction(run, e).Ok? && Shape(ApplyAction(run, e).value)
  {
    hide EvidencedStep, FindStep, Front, DistinctSteps;
    var c := Front(run.steps);
    CommandsHitTheFront(run, e);
    AcceptedEventsMove(run, e);
    var after := ApplyAction(run, e).value;
    ReplacingTheFront(run, after, after.steps[c]);
  }

  lemma StepKeepsShape(run: Run, e: Event)
    requires Shape(run) && Validated(run, e)
    requires e.action.Claim? ==> run.steps[Front(run.steps)].status == Pending
    ensures ApplyAction(run, e).Ok? && Shape(ApplyAction(run, e).value)
  {
    if e.action.CompleteStep? || e.action.Reconcile? {
      FinishingKeepsShape(run, e);
    } else if e.action.FailStep? {
      FailingKeepsShape(run, e);
    } else if OnStep(e.action) {
      TakingKeepsShape(run, e);
    } else if e.action.CompleteRun? {
      var c := Front(run.steps);
      assert c == |run.steps|;
    }
  }

  /** A step that is not pending was once recorded as claimed, so the index knows it. */
  ghost predicate Indexed(log: seq<Event>, id: int, run: Run) {
    forall i | 0 <= i < |run.steps| && run.steps[i].status != Pending ::
      ClaimIndexed(log, id, run.steps[i].definition.id)
  }

  /** Everything known of a run that commands have written. */
  ghost predicate Sound(log: seq<Event>, id: int) {
    History(log, id).Some? ==> Shape(History(log, id).value) && Indexed(log, id, History(log, id).value)
  }

  lemma IndexGrows(log: seq<Event>, e: Event, id: int, step: string)
    requires ClaimIndexed(log, id, step)
    ensures ClaimIndexed(log + [e], id, step)
  {
    var x :| x in log && x.runId == id && x.action == Claim(step);
    assert x in log + [e];
  }

  /** The claim the validators let through is the very first one: a retry by the owner never gets past the index. */
  lemma {:induction false} OnlyPendingStepsAreClaimed(log: seq<Event>, e: Event)
    requires Admissible(log, e) && e.action.Claim? && Sound(log, e.runId)
    ensures var run := History(log, e.runId).value; run.steps[Front(run.steps)].status == Pending
  {
    var run := History(log, e.runId).value;
    CommandsHitTheFront(run, e);
  }

  lemma {:induction false} OtherRunsStaySound(log: seq<Event>, e: Event, id: int)
    requires Sound(log, id) && e.runId != id
    ensures Sound(log + [e], id) && History(log + [e], id) == History(log, id)
  {
    assert (log + [e])[..|log|] == log;
    if History(log, id).Some? {
      var run := History(log, id).value;
      forall i | 0 <= i < |run.steps| && run.steps[i].status != Pending
        ensures ClaimIndexed(log + [e], id, run.steps[i].definition.id)
      {
        IndexGrows(log, e, id, run.steps[i].definition.id);
      }
    }
  }

  lemma {:induction false} StartIsSound(log: seq<Event>, e: Event)
    requires Admissible(log, e) && e.action.Started?
    ensures History(log, e.runId).None? && History(log + [e], e.runId) == Some(StartRun(e)) && Sound(log + [e], e.runId)
  {
    assert (log + [e])[..|log|] == log;
    StartHasShape(e);
    NoRunWithoutStart(log, e.runId);
  }

  lemma ActionStaysIndexed(log: seq<Event>, e: Event, run: Run, after: Run)
    requires Indexed(log, e.runId, run) && Moves(run, e, after)
    ensures Indexed(log + [e], e.runId, after)
  {
    forall i | 0 <= i < |after.steps| && after.steps[i].status != Pending
      ensures ClaimIndexed(log + [e], e.runId, after.steps[i].definition.id)
    {
      if run.steps[i].status != Pending {
        IndexGrows(log, e, e.runId, run.steps[i].definition.id);
      } else {
        assert i == Front(run.steps) && e.action == Claim(run.steps[i].definition.id);
        assert e in log + [e];
      }
    }
  }

  lemma {:induction false} ActionIsSound(log: seq<Event>, e: Event)
    requires Sound(log, e.runId) && Admissible(log, e) && !e.action.Started?
    ensures var run := History(log, e.runId).value;
            && ApplyAction(run, e).Ok?
            && History(log + [e], e.runId) == Some(ApplyAction(run, e).value)
            && Moves(run, e, ApplyAction(run, e).value)
    ensures Sound(log + [e], e.runId)
  {
    assert (log + [e])[..|log|] == log;
    var run := History(log, e.runId).value;
    if e.action.Claim? { OnlyPendingStepsAreClaimed(log, e); }
    StepKeepsShape(run, e);
    AcceptedEventsMove(run, e);
    ActionStaysIndexed(log, e, run, ApplyAction(run, e).value);
  }

  /** One accepted event, seen from any run. */
  ghost predicate Extends(before: Option<Run>, e: Event, id: int, after: Option<Run>) {
    if e.runId != id then after == before
    else if e.action.Started? then before.None? && after == Some(StartRun(e))
    else before.Some? && after.Some? && Moves(before.value, e, after.value)
         && ApplyAction(before.value, e) == Ok(after.value)
  }

  lemma {:induction false} ExtendKeepsSound(log: seq<Event>, e: Event, id: int)
    requires Sound(log, id) && Admissible(log, e)
    ensures Sound(log + [e], id) && Extends(History(log, id), e, id, History(log + [e], id))
  {
    hide History, Sound, Moves, Shape, ApplyAction, Validated;
    if e.runId != id {
      OtherRunsStaySound(log, e, id);
    } else if e.action.Started? {
      StartIsSound(log, e);
    } else {
      ActionIsSound(log, e);
    }
  }

  lemma {:induction false} NoRunWithoutStart(log: seq<Event>, id: int)
    requires forall x | x in log :: x.runId != id
    ensures History(log, id).None?
  {
    if log != [] {
      NoRunWithoutStart(log[..|log| - 1], id);
    }
  }

  lemma {:induction false} LegalIsSound(log: seq<Event>, id: int)
    requires Legal(log)
    ensures Sound(log, id)
  {
    if log != [] {
      var n := |log| - 1;
      LegalIsSound(log[..n], id);
      ExtendKeepsSound(log[..n], log[n], id);
      assert log[..n] + [log[n]] == log;
    }
  }

  /** Every run in every log that commands can write has the expected shape. */
  lemma {:induction false} ReachableRunsHaveShape(log: seq<Event>, id: int)
    requires Legal(log) && History(log, id).Some?
    ensures var run := History(log, id).value;
            var c := Front(run.steps);
            && (forall i | 0 <= i < c :: run.steps[i].status == StepStatus.Completed && EvidencedStep(run.steps[i]))
            && (forall i | c < i < |run.steps| :: run.steps[i].status == Pending)
            && (run.status == Active && c < |run.steps| ==>
                  run.steps[c].status == Pending || run.steps[c].status == Claimed)
            && (run.status == RunStatus.Failed ==> c < |run.steps| && run.steps[c].status == StepStatus.Failed)
            && (run.status == RunStatus.NeedsReconcile ==>
                  && c < |run.steps| && run.steps[c].status == StepStatus.NeedsReconcile
                  && run.steps[c].definition.kind == NonIdempotent)
            && (run.status == RunStatus.Completed ==> c == |run.steps|)
            && (run.currentStep.Some? <==> c < |run.steps| && run.steps[c].status != Pending)
            && (run.currentStep.Some? ==> run.currentStep == Some(run.steps[c].definition.id))
  {
    LegalIsSound(log, id);
  }

  /** The owner of a claimed step may retry its claim as far as the validator goes, but no log ever takes the retry. */
  lemma {:induction false} OwnerRetriesAreRefused(log: seq<Event>, id: int, agent: string, key: Key)
    requires Legal(log) && History(log, id).Some?
    requires var run := History(log, id).value;
             var c := Front(run.steps);
             && (run.status == Active || run.status == RunStatus.Failed || run.status == RunStatus.NeedsReconcile)
             && c < |run.steps| && run.steps[c].status == Claimed && run.steps[c].claimedBy == Some(agent)
    ensures var run := History(log, id).value;
            var step := run.steps[Front(run.steps)].definition.id;
            && ValidateClaim(run, step, false, Some(agent)) == Ok(Claim(step))
            && !Admissible(log, Event(key, agent, id, Claim(step)))
  {
    hide History;
    LegalIsSound(log, id);
  }

  // ----- From prefix to prefix -----

  lemma {:induction false} PrefixIsLegal(log: seq<Event>, i: nat)
    requires Legal(log) && i <= |log|
    ensures Legal(log[..i])
    ensures i < |log| ==> Admissible(log[..i], log[i])
  {
    var n := |log|;
    if i == n {
      assert log[..i] == log;
    } else if i == n - 1 {
    } else {
      PrefixIsLegal(log[..n - 1], i);
      assert log[..n - 1][..i] == log[..i];
    }
  }

  /** One step of a legal log, with both ends sound. */
  lemma {:induction false} NextPrefix(log: seq<Event>, i: nat, id: int)
    requires Legal(log) && i < |log|
    ensures Sound(log[..i], id) && Sound(log[..i + 1], id)
    ensures Extends(History(log[..i], id), log[i], id, History(log[..i + 1], id))
  {
    hide History, Sound, Extends, Admissible;
    PrefixIsLegal(log, i);
    LegalIsSound(log[..i], id);
    ExtendKeepsSound(log[..i], log[i], id);
    assert log[..i + 1] == log[..i] + [log[i]];
  }

  // ----- Finality -----

  lemma MovesKeepCompleted(run: Run, e: Event, after: Run, s: nat)
    requires Moves(run, e, after) && s < |run.steps| && run.steps[s].status == StepStatus.Completed
    ensures s < |after.steps| && after.steps[s] == run.steps[s]
  {
  }

  /** A completed step never changes again: not its status, not its owner, not its output. */
  lemma {:induction false} CompletedStepsAreFinal(log: seq<Event>, i: nat, j: nat, id: int, s: nat)
    requires Legal(log) && i <= j <= |log| && History(log[..i], id).Some?
    requires s < |History(log[..i], id).value.steps|
    requires History(log[..i], id).value.steps[s].status == StepStatus.Completed
    ensures History(log[..j], id).Some? && s < |History(log[..j], id).value.steps|
    ensures History(log[..j], id).value.steps[s] == History(log[..i], id).value.steps[s]
    decreases j - i
  {
    hide History, Sound, Moves, Legal, ApplyAction;
    if i < j {
      CompletedStepsAreFinal(log, i, j - 1, id, s);
      NextPrefix(log, j - 1, id);
      if log[j - 1].runId == id {
        MovesKeepCompleted(History(log[..j - 1], id).value, log[j - 1], History(log[..j], id).value, s);
      }
    }
  }

  lemma CompletedRunsMoveToAborted(run: Run, e: Event, after: Run)
    requires Moves(run, e, after) && ApplyAction(run, e) == Ok(after) && ValidateRunComplete(run)
    requires run.status == RunStatus.Completed || run.status == Aborted
    ensures ValidateRunComplete(after) && (after.status == RunStatus.Completed || after.status == Aborted)
  {
  }

  lemma CompletedRunsHaveNoStepsLeft(run: Run)
    requires Shape(run) && run.status == RunStatus.Completed
    ensures ValidateRunComplete(run)
  {
  }

  /** A completed run stays completed or is marked aborted, with every step still completed. */
  lemma {:induction false} CompletedRunsAreFinal(log: seq<Event>, i: nat, j: nat, id: int)
    requires Legal(log) && i <= j <= |log| && History(log[..i], id).Some?
    requires History(log[..i], id).value.status == RunStatus.Completed
    ensures History(log[..j], id).Some?
    ensures var run := History(log[..j], id).value;
            && ValidateRunComplete(run)
            && (run.status == RunStatus.Completed || run.status == Aborted)
    decreases j - i
  {
    hide History, Moves, Legal, ApplyAction, Shape;
    if i == j {
      PrefixIsLegal(log, i);
      LegalIsSound(log[..i], id);
      CompletedRunsHaveNoStepsLeft(History(log[..i], id).value);
    } else {
      CompletedRunsAreFinal(log, i, j - 1, id);
      NextPrefix(log, j - 1, id);
      if log[j - 1].runId == id {
        CompletedRunsMoveToAborted(History(log[..j - 1], id).value, log[j - 1], History(log[..j], id).value);
      }
    }
  }

  // ----- Ownership -----

  /** The agent of the latest event that took this step. */
  function LatestOwner(log: seq<Event>, id: int, step: string): Option<string> {
    if log == [] then None
    else
      var e := log[|log| - 1];
      if e.runId == id && TakesStep(e.action) && e.action.step == step then Some(e.agent)
      else LatestOwner(log[..|log| - 1], id, step)
  }

  lemma {:induction false} LatestOwnerNext(log: seq<Event>, i: nat, id: int, step: string)
    requires i < |log|
    ensures LatestOwner(log[..i + 1], id, step)
         == var e := log[i];
            if e.runId == id && TakesStep(e.action) && e.action.step == step then Some(e.agent)
            else LatestOwner(log[..i], id, step)
  {
    assert log[..i + 1][..i] == log[..i];
  }

  /** Every touched step is held by its latest owner. */
  ghost predicate Owned(log: seq<Event>, id: int, run: Run) {
    forall s | 0 <= s < |run.steps| && run.steps[s].status != Pending ::
      run.steps[s].claimedBy == LatestOwner(log, id, run.steps[s].definition.id)
  }

  lemma MovesKeepOwned(log: seq<Event>, i: nat, run: Run, after: Run)
    requires i < |log| && Moves(run, log[i], after) && DistinctSteps(run.steps)
    requires Owned(log[..i], log[i].runId, run)
    ensures Owned(log[..i + 1], log[i].runId, after)
  {
    var id := log[i].runId;
    forall s | 0 <= s < |after.steps| && after.steps[s].status != Pending
      ensures after.steps[s].claimedBy == LatestOwner(log[..i + 1], id, after.steps[s].definition.id)
    {
      LatestOwnerNext(log, i, id, after.steps[s].definition.id);
      assert after.steps[s].definition == run.steps[s].definition;
    }
  }

  lemma OthersStayOwned(log: seq<Event>, i: nat, id: int, run: Run)
    requires i < |log| && log[i].runId != id && Owned(log[..i], id, run)
    ensures Owned(log[..i + 1], id, run)
  {
    forall s | 0 <= s < |run.steps| && run.steps[s].status != Pending
      ensures run.steps[s].claimedBy == LatestOwner(log[..i + 1], id, run.steps[s].definition.id)
    {
      LatestOwnerNext(log, i, id, run.steps[s].definition.id);
    }
  }

  lemma {:induction false} OwnerIsLatest(log: seq<Event>, i: nat, id: int)
    requires Legal(log) && i <= |log| && History(log[..i], id).Some?
    ensures Owned(log[..i], id, History(log[..i], id).value)
  {
    hide Moves, Legal, ApplyAction, Owned;
    if i > 0 {
      hide History;
      NextPrefix(log, i - 1, id);
      var e := log[i - 1];
      if e.runId != id {
        OwnerIsLatest(log, i - 1, id);
        OthersStayOwned(log, i - 1, id, History(log[..i], id).value);
      } else if e.action.Started? {
        FreshRunIsOwned(log[..i], e);
      } else {
        OwnerIsLatest(log, i - 1, id);
        MovesKeepOwned(log, i - 1, History(log[..i - 1], id).value, History(log[..i], id).value);
      }
    }
  }

  lemma FreshRunIsOwned(log: seq<Event>, e: Event)
    requires e.action.Started?
    ensures Owned(log, e.runId, StartRun(e))
  {
  }

  /** Steps are completed and failed only by the agent that last took them. */
  lemma {:induction false} StepsAreFinishedByTheirOwner(log: seq<Event>, j: nat)
    requires Legal(log) && j < |log| && (log[j].action.CompleteStep? || log[j].action.FailStep?)
    ensures LatestOwner(log[..j], log[j].runId, log[j].action.step) == Some(log[j].agent)
  {
    hide History, Legal, Sound, ApplyAction, LatestOwner;
    var id := log[j].runId;
    NextPrefix(log, j, id);
    var run := History(log[..j], id).value;
    OwnerIsLatest(log, j, id);
    assert run.steps[Front(run.steps)].status == Claimed;
  }

  /** A completed step that needs approval was completed with evidence, and still carries it. */
  lemma {:induction false} CompletedStepsCarryEvidence(log: seq<Event>, id: int, s: nat)
    requires Legal(log) && History(log, id).Some? && s < |History(log, id).value.steps|
    requires History(log, id).value.steps[s].status == StepStatus.Completed
    ensures EvidencedStep(History(log, id).value.steps[s])
  {
    LegalIsSound(log, id);
  }

  // ----- Non-idempotent steps -----

  ghost predicate About(e: Event, id: int, step: string) {
    e.runId == id && OnStep(e.action) && e.action.step == step
  }

  /** Step `s` of the run is the non-idempotent step with this name, and in this status. */
  ghost predicate StepIs(log: seq<Event>, id: int, s: nat, step: string, status: StepStatus) {
    && History(log, id).Some? && s < |History(log, id).value.steps|
    && History(log, id).value.steps[s].definition.id == step
    && History(log, id).value.steps[s].definition.kind == NonIdempotent
    && History(log, id).value.steps[s].status == status
  }

  lemma MovesOneStep(run: Run, e: Event, after: Run, s: nat)
    requires Moves(run, e, after) && DistinctSteps(run.steps) && s < |run.steps|
    ensures s < |after.steps| && after.steps[s].definition == run.steps[s].definition
    ensures !(OnStep(e.action) && e.action.step == run.steps[s].definition.id) ==> after.steps[s] == run.steps[s]
    ensures OnStep(e.action) && e.action.step == run.steps[s].definition.id ==>
              && Front(run.steps) == s
              && run.steps[s].status == NeededStatus(e.action)
              && after.steps[s].status == NextStatus(run.steps[s], e.action)
    ensures OnStep(e.action) && s < Front(run.steps) ==> run.steps[s].status == StepStatus.Completed
  {
    if OnStep(e.action) {
      var c := Front(run.steps);
      assert s != c ==> run.steps[s].definition.id != run.steps[c].definition.id;
    }
  }

  /** One event, seen from one non-idempotent step. */
  lemma {:induction false} StepMoves(log: seq<Event>, i: nat, id: int, s: nat, step: string, status: StepStatus)
    requires Legal(log) && i < |log| && StepIs(log[..i], id, s, step, status)
    ensures !About(log[i], id, step) ==> StepIs(log[..i + 1], id, s, step, status)
    ensures About(log[i], id, step) ==>
              && status == NeededStatus(log[i].action)
              && StepIs(log[..i + 1], id, s, step,
                        if log[i].action.TakeOver? then StepStatus.NeedsReconcile
                        else if TakesStep(log[i].action) then Claimed
                        else if log[i].action.FailStep? then StepStatus.Failed else StepStatus.Completed)
    ensures log[i].runId == id && OnStep(log[i].action) && log[i].action.step != step && status != StepStatus.Completed ==>
              Front(History(log[..i], id).value.steps) < s
  {
    hide History, Legal, Moves, ApplyAction;
    NextPrefix(log, i, id);
    if log[i].runId == id {
      var run := History(log[..i], id).value;
      MovesOneStep(run, log[i], History(log[..i + 1], id).value, s);
      if status != StepStatus.Completed {
        OthersAreEarlier(run, log[i], History(log[..i + 1], id).value, s);
      }
    }
  }

  lemma OthersAreEarlier(run: Run, e: Event, after: Run, s: nat)
    requires Moves(run, e, after) && s < |run.steps| && run.steps[s].status != StepStatus.Completed
    ensures OnStep(e.action) && e.action.step != run.steps[s].definition.id ==> Front(run.steps) < s
  {
  }

  lemma FrontOrder(run: Run, s: nat)
    requires s < |run.steps| && run.steps[s].status != StepStatus.Completed
    ensures Front(run.steps) <= s
  {
  }

  /** Once claimed and until it fails, a non-idempotent step is held, waiting or done. */
  lemma {:induction false} HeldUntilFailed(log: seq<Event>, i: nat, m: nat, id: int, s: nat, step: string)
    requires Legal(log) && i < m <= |log| && StepIs(log[..i + 1], id, s, step, Claimed)
    requires forall k | i < k < m :: !(About(log[k], id, step) && log[k].action.FailStep?)
    ensures || StepIs(log[..m], id, s, step, Claimed)
            || StepIs(log[..m], id, s, step, StepStatus.NeedsReconcile)
            || StepIs(log[..m], id, s, step, StepStatus.Completed)
    decreases m
  {
    hide History, Legal, StepIs;
    if m > i + 1 {
      HeldUntilFailed(log, i, m - 1, id, s, step);
      if StepIs(log[..m - 1], id, s, step, Claimed) {
        StepMoves(log, m - 1, id, s, step, Claimed);
      } else if StepIs(log[..m - 1], id, s, step, StepStatus.NeedsReconcile) {
        StepMoves(log, m - 1, id, s, step, StepStatus.NeedsReconcile);
      } else {
        StepMoves(log, m - 1, id, s, step, StepStatus.Completed);
      }
    }
  }

  /** Between two events that put a non-idempotent step in the claimed state, it failed. */
  lemma {:induction false} NonIdempotentStepsAreNotReplayed(log: seq<Event>, i: nat, j: nat, id: int, s: nat, step: string)
    requires Legal(log) && i < j < |log|
    requires About(log[i], id, step) && StepIs(log[..i + 1], id, s, step, Claimed)
    requires About(log[j], id, step) && StepIs(log[..j + 1], id, s, step, Claimed)
    ensures exists k :: i < k < j && About(log[k], id, step) && log[k].action.FailStep?
  {
    if forall k | i < k < j :: !(About(log[k], id, step) && log[k].action.FailStep?) {
      HeldUntilFailed(log, i, j, id, s, step);
      NotReclaimedWhileHeld(log, j, id, s, step);
    }
  }

  lemma {:induction false} NotReclaimedWhileHeld(log: seq<Event>, j: nat, id: int, s: nat, step: string)
    requires Legal(log) && j < |log| && About(log[j], id, step)
    requires || StepIs(log[..j], id, s, step, Claimed)
             || StepIs(log[..j], id, s, step, StepStatus.NeedsReconcile)
             || StepIs(log[..j], id, s, step, StepStatus.Completed)
    ensures !StepIs(log[..j + 1], id, s, step, Claimed)
  {
    hide Legal;
    StepMoves(log, j, id, s, step, History(log[..j], id).value.steps[s].status);
  }

  ghost predicate Reconciled(log: seq<Event>, i: nat, m: nat, id: int, step: string)
    requires m <= |log|
  {
    exists k :: i < k < m && About(log[k], id, step) && log[k].action.Reconcile?
  }

  /** After a takeover while claimed, the step waits for its one reconciliation and then stays completed. */
  lemma {:induction false} TakenOverStepsWait(log: seq<Event>, i: nat, m: nat, id: int, s: nat, step: string)
    requires Legal(log) && i < m <= |log| && StepIs(log[..i], id, s, step, Claimed)
    requires About(log[i], id, step) && log[i].action.TakeOver?
    ensures StepIs(log[..m], id, s, step,
                   if Reconciled(log, i, m, id, step) then StepStatus.Completed else StepStatus.NeedsReconcile)
    decreases m
  {
    hide History, Legal, StepIs;
    StepMoves(log, i, id, s, step, Claimed);
    if m > i + 1 {
      TakenOverStepsWait(log, i, m - 1, id, s, step);
      var now := if Reconciled(log, i, m - 1, id, step) then StepStatus.Completed else StepStatus.NeedsReconcile;
      StepMoves(log, m - 1, id, s, step, now);
      assert About(log[m - 1], id, step) ==> log[m - 1].action.Reconcile?;
    }
  }

  /**
   * After a takeover while claimed, the only event ever accepted about the step is one reconciliation, and until then no
   * later step is touched.
   */
  lemma {:induction false} TakenOverStepsAreReconciledOnce(log: seq<Event>, i: nat, j: nat, id: int, s: nat, step: string)
    requires Legal(log) && i < j < |log| && StepIs(log[..i], id, s, step, Claimed)
    requires About(log[i], id, step) && log[i].action.TakeOver?
    requires log[j].runId == id && OnStep(log[j].action)
    ensures log[j].action.step == step ==> log[j].action.Reconcile? && !Reconciled(log, i, j, id, step)
    ensures log[j].action.step != step ==> Reconciled(log, i, j, id, step)
  {
    hide Legal;
    TakenOverStepsWait(log, i, j, id, s, step);
    StepMoves(log, j, id, s, step,
              if Reconciled(log, i, j, id, step) then StepStatus.Completed else StepStatus.NeedsReconcile);
    if log[j].action.step != step && !Reconciled(log, i, j, id, step) {
      TakenOverIsAtTheFront(log, i, j, id, s, step);
    }
  }

  /** While it waits, the taken-over step is the current one. */
  lemma {:induction false} TakenOverIsAtTheFront(log: seq<Event>, i: nat, m: nat, id: int, s: nat, step: string)
    requires Legal(log) && i < m <= |log| && StepIs(log[..i], id, s, step, Claimed)
    requires About(log[i], id, step) && log[i].action.TakeOver? && !Reconciled(log, i, m, id, step)
    ensures History(log[..m], id).Some? && Front(History(log[..m], id).value.steps) == s
  {
    hide Legal;
    TakenOverStepsWait(log, i, m, id, s, step);
    PrefixIsLegal(log, m);
    LegalIsSound(log[..m], id);
    var run := History(log[..m], id).value;
    assert run.steps[s].status == StepStatus.NeedsReconcile;
    FrontOrder(run, s);
  }

  // ----- Aborted is not terminal -----

  ghost predicate QuietlyAborted(run: Run) {
    var c := Front(run.steps);
    run.status == Aborted && c < |run.steps|
    && (run.steps[c].status == Pending || run.steps[c].status == StepStatus.Failed)
  }

  lemma QuietAbortHolds(run: Run, e: Event)
    requires Shape(run) && QuietlyAborted(run) && Validated(run, e)
    ensures ApplyAction(run, e).Ok? && QuietlyAborted(ApplyAction(run, e).value)
  {
    if OnStep(e.action) {
      CommandsHitTheFront(run, e);
      assert false;
    }
    assert !ValidateRunComplete(run);
  }

  lemma {:induction false} QuietAbortStays(log: seq<Event>, more: seq<Event>, id: int)
    requires Legal(log + more) && History(log, id).Some? && QuietlyAborted(History(log, id).value)
    ensures History(log + more, id).Some? && QuietlyAborted(History(log + more, id).value)
    decreases |more|
  {
    hide QuietlyAborted, Shape, Moves, ApplyAction, Validated;
    if more == [] {
      assert log + more == log;
    } else {
      var n := |more| - 1;
      var all := log + more;
      var prefix := log + more[..n];
      assert all[..|all| - 1] == prefix && all[|all| - 1] == more[n] && prefix + [more[n]] == all;
      QuietAbortStays(log, more[..n], id);
      LegalIsSound(prefix, id);
      ExtendKeepsSound(prefix, more[n], id);
      if more[n].runId == id {
        QuietAbortHolds(History(prefix, id).value, more[n]);
      }
    }
  }

  /** The command that revives an aborted run. */
  function Revival(log: seq<Event>, id: int): Event
    requires History(log, id).Some?
  {
    var run := History(log, id).value;
    var c := Front(run.steps);
    var key := Key((if log == [] then 0 else log[|log| - 1].key.at) + 1, 0);
    if c == |run.steps| then Event(key, "agent", id, CompleteRun)
    else
      var step := run.steps[c];
      var proof := Some(Checkpoint("", Some("approved")));
      if step.status == StepStatus.NeedsReconcile then Event(key, "agent", id, Reconcile(step.definition.id, proof))
      else Event(key, if step.claimedBy.Some? then step.claimedBy.value else "agent", id,
                 CompleteStep(step.definition.id, proof))
  }

  lemma {:induction false} LegalKeysIncrease(log: seq<Event>)
    requires Legal(log)
    ensures forall i, j | 0 <= i < j < |log| :: Less(log[i].key, log[j].key)
  {
    if log != [] {
      var n := |log| - 1;
      LegalKeysIncrease(log[..n]);
      forall i | 0 <= i < n ensures Less(log[i].key, log[n].key) {
        assert log[..n][i] in log[..n];
      }
    }
  }

  /**
   * An aborted run can only stay aborted exactly when its current step is pending or failed. A step left claimed or
   * waiting for reconciliation, or a run with nothing left to do, can still be moved on.
   */
  lemma {:induction false} AbortedIsFinalIff(log: seq<Event>, id: int)
    requires Legal(log) && History(log, id).Some? && History(log, id).value.status == Aborted
    ensures (forall more | Legal(log + more) :: StillAborted(log + more, id))
       <==> (var run := History(log, id).value;
             var c := Front(run.steps);
             c < |run.steps| && (run.steps[c].status == Pending || run.steps[c].status == StepStatus.Failed))
  {
    var run := History(log, id).value;
    var c := Front(run.steps);
    LegalIsSound(log, id);
    if c < |run.steps| && (run.steps[c].status == Pending || run.steps[c].status == StepStatus.Failed) {
      forall more | Legal(log + more) ensures StillAborted(log + more, id) {
        QuietAbortStays(log, more, id);
      }
    } else {
      var e := Revival(log, id);
      RevivalIsAdmissible(log, id);
      assert (log + [e])[..|log|] == log;
      assert Legal(log + [e]);
      ExtendKeepsSound(log, e, id);
      RevivalRevives(run, e);
      assert !StillAborted(log + [e], id);
    }
  }

  ghost predicate StillAborted(log: seq<Event>, id: int) {
    History(log, id).Some? && History(log, id).value.status == Aborted
  }

  lemma RevivalRevives(run: Run, e: Event)
    requires e.action.CompleteRun? || e.action.CompleteStep? || e.action.Reconcile?
    ensures ApplyAction(run, e).Ok? ==> ApplyAction(run, e).value.status != Aborted
  {
  }

  lemma {:induction false} RevivalIsAdmissible(log: seq<Event>, id: int)
    requires Legal(log) && History(log, id).Some? && Shape(History(log, id).value)
    requires var run := History(log, id).value;
             var c := Front(run.steps);
             c < |run.steps| ==> run.steps[c].status == Claimed || run.steps[c].status == StepStatus.NeedsReconcile
    ensures Admissible(log, Revival(log, id))
  {
    var run := History(log, id).value;
    var c := Front(run.steps);
    var e := Revival(log, id);
    assert !Blank("approved") by { assert !WhiteSpace("approved"[0]); }
    LegalKeysIncrease(log);
    forall x | x in log ensures Less(x.key, e.key) {
      var i :| 0 <= i < |log| && log[i] == x;
      assert i < |log| - 1 ==> Less(log[i].key, log[|log| - 1].key);
    }
    if c < |run.steps| {
      assert FindStep(run.steps, run.steps[c].definition.id).Some?;
      FindIsFront(run.steps, run.steps[c].definition.id);
    }
    assert Validated(run, e);
  }

  const STEP := StepDefinition("step", "Step", ReadOnly, false)

  const STARTED := Event(Key(1, 1), "agent", 7, Started("workflow", "Title", "plan.md", "input", [STEP]))

  const CLAIMED := Event(Key(2, 2), "agent", 7, Claim("step"))

  const ABORTED := Event(Key(3, 3), "agent", 7, AbortRun)

  const FINISHED := Event(Key(4, 4), "agent", 7, CompleteStep("step", Some(Checkpoint("done", None))))

  const CLOSED := Event(Key(5, 5), "agent", 7, CompleteRun)

  /** What the run of these events looks like after the first, the first two, and so on. */
  function Stage(i: nat): Run
    requires 1 <= i <= 5
  {
    var step := StepSummary(STEP, Claimed, Some("agent"), None);
    var done := step.(status := StepStatus.Completed, output := Some(Checkpoint("done", None)));
    match i
    case 1 => Run(7, "workflow", "Title", "plan.md", Active, "input", [StepSummary(STEP, Pending, None, None)],
                     None, 1, 1, [1])
    case 2 => Run(7, "workflow", "Title", "plan.md", Active, "input", [step], Some("step"), 1, 2, [1, 2])
    case 3 => Run(7, "workflow", "Title", "plan.md", Aborted, "input", [step], Some("step"), 1, 3, [1, 2, 3])
    case 4 => Run(7, "workflow", "Title", "plan.md", Active, "input", [done], None, 1, 4, [1, 2, 3, 4])
    case _ => Run(7, "workflow", "Title", "plan.md", RunStatus.Completed, "input", [done], None, 1, 5, [1, 2, 3, 4, 5])
  }

  function Story(): (r: seq<Event>)
    ensures |r| == 5
  {
    [STARTED, CLAIMED, ABORTED, FINISHED, CLOSED]
  }

  lemma StageFollows(i: nat)
    requires 1 <= i <= 4
    ensures ApplyAction(Stage(i), Story()[i]) == Ok(Stage(i + 1))
    ensures Validated(Stage(i), Story()[i])
  {
    var run, e := Stage(i), Story()[i];
    assert FindStep(run.steps, "step") == Some(0);
    assert run.sources + [e.key.id] == Stage(i + 1).sources;
    assert run.steps[0 := Stage(i + 1).steps[0]] == Stage(i + 1).steps;
    assert i <= 3 ==> Front(run.steps) == 0;
  }

  lemma {:induction false} LegalGrows(log: seq<Event>, e: Event, before: Run, after: Run)
    requires Legal(log) && !e.action.Started? && History(log, e.runId) == Some(before)
    requires forall x | x in log :: Less(x.key, e.key) && (e.action.Claim? ==> !x.action.Claim?)
    requires Validated(before, e) && ApplyAction(before, e) == Ok(after)
    ensures Legal(log + [e]) && History(log + [e], e.runId) == Some(after)
  {
    assert (log + [e])[..|log|] == log;
    hide Validated, ApplyAction;
  }

  lemma {:induction false} StoryIsOrdered(i: nat)
    requires 1 <= i <= 4
    ensures !Story()[i].action.Started? && Story()[i].runId == 7
    ensures forall x | x in Story()[..i] :: Less(x.key, Story()[i].key) && (Story()[i].action.Claim? ==> !x.action.Claim?)
  {
  }

  lemma {:induction false} StoryGoesOn(i: nat, log: seq<Event>, more: seq<Event>)
    requires 1 <= i <= 4 && log == Story()[..i] && more == Story()[..i + 1]
    requires Legal(log) && History(log, 7) == Some(Stage(i))
    ensures Legal(more) && History(more, 7) == Some(Stage(i + 1))
  {
    hide Legal, History, Stage, Validated, ApplyAction, Less;
    StageFollows(i);
    StoryIsOrdered(i);
    hide Story;
    assert log + [Story()[i]] == more;
    LegalGrows(log, Story()[i], Stage(i), Stage(i + 1));
  }

  lemma {:induction false} StoryIsLegal(i: nat)
    requires 1 <= i <= 5
    ensures Legal(Story()[..i]) && History(Story()[..i], 7) == Some(Stage(i))
  {
    if i == 1 {
      FirstStage();
      assert Story()[..1] == [STARTED];
    } else {
      hide Legal, History, Stage, Story;
      StoryIsLegal(i - 1);
      StoryGoesOn(i - 1, Story()[..i - 1], Story()[..i]);
    }
  }

  /** Commands can write a log in which an aborted run holds a claimed step. Finishing that step revives the run. */
  lemma {:induction false} AbortedRunCanComplete()
    ensures var aborted := [STARTED, CLAIMED, ABORTED];
            && Legal(aborted) && History(aborted, 7) == Some(Stage(3)) && Stage(3).status == Aborted
    ensures var ended := [STARTED, CLAIMED, ABORTED] + [FINISHED, CLOSED];
            && Legal(ended) && History(ended, 7) == Some(Stage(5)) && Stage(5).status == RunStatus.Completed
  {
    hide Legal, History;
    StoryIsLegal(3);
    StoryIsLegal(5);
    assert Story()[..3] == [STARTED, CLAIMED, ABORTED];
    assert Story()[..5] == [STARTED, CLAIMED, ABORTED] + [FINISHED, CLOSED];
  }

  lemma {:induction false} FirstStage()
    ensures Legal([STARTED]) && History([STARTED], 7) == Some(Stage(1))
  {
    assert [STARTED][..0] == [];
    assert Legal([STARTED][..0]) && History([STARTED][..0], 7).None?;
    assert StartRun(STARTED).steps == Stage(1).steps;
  }
}
