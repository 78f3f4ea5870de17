/** Which commands are accepted, and what that means for the steps a start event lists. */
module WorkflowPromises {
  import opened Prelude
  import opened Ordering
  import opened Text
  import opened Workflow
  import opened WorkflowRuns

  // ----- A run is the one its start event describes -----

  /** The run has the identity and the steps this event started it with. */
  ghost predicate StartedAs(e: Event, run: Run) {
    && e.action.Started?
    && run.id == e.runId && run.createdAt == e.key.at
    && run.workflowId == e.action.workflowId && run.title == e.action.title && run.spec == e.action.spec
    && run.input == e.action.input
    && |run.steps| == |e.action.steps|
    && forall i | 0 <= i < |run.steps| :: run.steps[i].definition == e.action.steps[i]
  }

  ghost predicate Starts(e: Event, log: seq<Event>, id: int) {
    e in log && e.runId == id && e.action.Started?
  }

  lemma MovesKeepStart(e: Event, run: Run, x: Event, after: Run)
    requires StartedAs(e, run) && Moves(run, x, after)
    ensures StartedAs(e, after)
  {
    hide Front, NeededStatus, NextStatus;
  }

  /** The run exists exactly if this log starts it, and then it is as started. */
  ghost predicate AsStarted(log: seq<Event>, id: int, run: Option<Run>) {
    && (run.Some? <==> exists e :: Starts(e, log, id))
    && (forall e, f | Starts(e, log, id) && Starts(f, log, id) :: e == f)
    && (forall e | Starts(e, log, id) :: run.Some? && StartedAs(e, run.value))
  }

  lemma StartIsAsListed(e: Event)
    requires e.action.Started?
    ensures StartedAs(e, StartRun(e))
  {
  }

  lemma ExtendKeepsAsStarted(log: seq<Event>, x: Event, id: int, before: Option<Run>, after: Option<Run>)
    requires AsStarted(log, id, before) && Admissible(log, x) && Extends(before, x, id, after)
    ensures AsStarted(log + [x], id, after)
  {
    assert forall e :: Starts(e, log + [x], id) <==> Starts(e, log, id) || (e == x && x.runId == id && x.action.Started?);
    hide Moves, StartedAs, ApplyAction, StartRun, History, Validated;
    if x.runId == id && x.action.Started? {
      StartIsAsListed(x);
      assert forall e :: !Starts(e, log, id);
      assert Starts(x, log + [x], id);
    } else {
      assert forall e :: Starts(e, log + [x], id) <==> Starts(e, log, id);
      if x.runId == id {
        forall e | Starts(e, log, id) ensures StartedAs(e, after.value) {
          MovesKeepStart(e, before.value, x, after.value);
        }
      }
    }
  }

  lemma {:induction false} LegalRunsAreAsStarted(log: seq<Event>, id: int)
    requires Legal(log)
    ensures AsStarted(log, id, History(log, id))
  {
    hide AsStarted, Admissible, Extends, Sound;
    if log == [] {
      NothingIsStarted(id);
    } else {
      var n := |log| - 1;
      LegalRunsAreAsStarted(log[..n], id);
      LegalIsSound(log[..n], id);
      ExtendKeepsSound(log[..n], log[n], id);
      assert log[..n] + [log[n]] == log;
      ExtendKeepsAsStarted(log[..n], log[n], id, History(log[..n], id), History(log, id));
    }
  }

  lemma NothingIsStarted(id: int)
    ensures AsStarted([], id, None)
  {
  }

  /** Every run of a legal log was started once, and still has the identity and the steps it was started with. */
  lemma {:induction false} RunsAreAsStarted(log: seq<Event>, id: int)
    requires Legal(log)
    ensures History(log, id).Some? <==> exists e :: Starts(e, log, id)
    ensures forall e, f | Starts(e, log, id) && Starts(f, log, id) :: e == f
    ensures forall e | Starts(e, log, id) ::
              var run := History(log, id).value;
              && run.id == id && run.createdAt == e.key.at
              && run.workflowId == e.action.workflowId && run.title == e.action.title && run.spec == e.action.spec
              && run.input == e.action.input
              && |run.steps| == |e.action.steps|
              && forall i | 0 <= i < |run.steps| :: run.steps[i].definition == e.action.steps[i]
  {
    LegalRunsAreAsStarted(log, id);
  }

  // ----- What a start event's own steps can rely on -----

  /** Step `s` of the run, as its start event lists it, must not be done twice. */
  ghost predicate ListsNonIdempotent(log: seq<Event>, e: Event, id: int, s: nat) {
    Starts(e, log, id) && s < |e.action.steps| && e.action.steps[s].kind == NonIdempotent
  }

  ghost predicate StepHas(log: seq<Event>, id: int, s: nat, status: StepStatus) {
    History(log, id).Some? && s < |History(log, id).value.steps| && History(log, id).value.steps[s].status == status
  }

  /** Any event about a run comes after its start. */
  lemma {:induction false} StartComesFirst(log: seq<Event>, e: Event, id: int, i: nat)
    requires Legal(log) && Starts(e, log, id) && i <= |log| && History(log[..i], id).Some?
    ensures Legal(log[..i]) && Starts(e, log[..i], id)
  {
    hide Legal, History;
    PrefixIsLegal(log, i);
    RunsAreAsStarted(log[..i], id);
    RunsAreAsStarted(log, id);
    var f :| Starts(f, log[..i], id);
    assert Starts(f, log, id);
  }

  lemma {:induction false} StepIsAsListed(log: seq<Event>, e: Event, id: int, s: nat, i: nat)
    requires Legal(log) && ListsNonIdempotent(log, e, id, s) && i <= |log| && History(log[..i], id).Some?
    ensures s < |History(log[..i], id).value.steps|
    ensures StepIs(log[..i], id, s, e.action.steps[s].id, History(log[..i], id).value.steps[s].status)
  {
    hide Legal, History;
    StartComesFirst(log, e, id, i);
    RunsAreAsStarted(log[..i], id);
  }

  /** An event about a step finds it in the status the event needs. */
  lemma {:induction false} EventFindsStep(log: seq<Event>, e: Event, id: int, s: nat, i: nat)
    requires Legal(log) && ListsNonIdempotent(log, e, id, s) && i < |log| && About(log[i], id, e.action.steps[s].id)
    ensures StepIs(log[..i], id, s, e.action.steps[s].id, NeededStatus(log[i].action))
  {
    PrefixIsLegal(log, i);
    hide Legal, History, Validated;
    StepIsAsListed(log, e, id, s, i);
    StepMoves(log, i, id, s, e.action.steps[s].id, History(log[..i], id).value.steps[s].status);
  }

  ghost predicate Claims(e: Event, id: int, step: string) {
    e.runId == id && (e.action == Claim(step) || e.action == Reclaim(step))
  }

  lemma {:induction false} ClaimHolds(log: seq<Event>, e: Event, id: int, s: nat, i: nat)
    requires Legal(log) && ListsNonIdempotent(log, e, id, s) && i < |log| && Claims(log[i], id, e.action.steps[s].id)
    ensures StepIs(log[..i + 1], id, s, e.action.steps[s].id, Claimed)
  {
    hide Legal, History;
    EventFindsStep(log, e, id, s, i);
    StepMoves(log, i, id, s, e.action.steps[s].id, NeededStatus(log[i].action));
  }

  /** A step listed as non-idempotent is claimed a second time only after it has failed. */
  lemma {:induction false} ListedStepsAreNotReplayed(log: seq<Event>, e: Event, id: int, s: nat, i: nat, j: nat)
    requires Legal(log) && ListsNonIdempotent(log, e, id, s) && i < j < |log|
    requires Claims(log[i], id, e.action.steps[s].id) && Claims(log[j], id, e.action.steps[s].id)
    ensures exists k :: i < k < j && log[k].runId == id && log[k].action.FailStep?
                        && log[k].action.step == e.action.steps[s].id
  {
    hide Legal, StepIs;
    ClaimHolds(log, e, id, s, i);
    ClaimHolds(log, e, id, s, j);
    NonIdempotentStepsAreNotReplayed(log, i, j, id, s, e.action.steps[s].id);
  }

  /** A step listed as non-idempotent, once taken over, waits until it is reconciled and is completed from then on. */
  lemma {:induction false} ListedStepsWait(log: seq<Event>, e: Event, id: int, s: nat, i: nat, m: nat)
    requires Legal(log) && ListsNonIdempotent(log, e, id, s) && i < m <= |log|
    requires log[i].runId == id && log[i].action == TakeOver(e.action.steps[s].id)
    ensures StepHas(log[..m], id, s, if Reconciled(log, i, m, id, e.action.steps[s].id) then StepStatus.Completed
                                     else StepStatus.NeedsReconcile)
  {
    hide Legal, Reconciled, History;
    EventFindsStep(log, e, id, s, i);
    TakenOverStepsWait(log, i, m, id, s, e.action.steps[s].id);
  }

  /** After that takeover the only event about the step is one reconciliation, and no other step is touched before it. */
  lemma {:induction false} ListedStepsAreReconciledOnce(log: seq<Event>, e: Event, id: int, s: nat, i: nat, j: nat)
    requires Legal(log) && ListsNonIdempotent(log, e, id, s) && i < j < |log|
    requires log[i].runId == id && log[i].action == TakeOver(e.action.steps[s].id)
    requires log[j].runId == id && OnStep(log[j].action)
    ensures log[j].action.step == e.action.steps[s].id ==>
              log[j].action.Reconcile? && !Reconciled(log, i, j, id, e.action.steps[s].id)
    ensures log[j].action.step != e.action.steps[s].id ==> Reconciled(log, i, j, id, e.action.steps[s].id)
  {
    hide Legal, Reconciled, StepIs;
    EventFindsStep(log, e, id, s, i);
    TakenOverStepsAreReconciledOnce(log, i, j, id, s, e.action.steps[s].id);
  }

  /** A step listed as needing approval is only completed with approval that says something. */
  lemma {:induction false} ListedStepsCarryEvidence(log: seq<Event>, e: Event, id: int, s: nat)
    requires Legal(log) && Starts(e, log, id) && s < |e.action.steps| && e.action.steps[s].approvalRequired
    requires StepHas(log, id, s, StepStatus.Completed)
    ensures var output := History(log, id).value.steps[s].output;
            && output.Some? && output.value.Checkpoint? && output.value.approval.Some?
            && exists k :: 0 <= k < |output.value.approval.value| && !WhiteSpace(output.value.approval.value[k])
  {
    hide Legal, History;
    RunsAreAsStarted(log, id);
    CompletedStepsCarryEvidence(log, id, s);
  }

  // ----- Which commands are accepted -----

  ghost predicate HasEvidence(step: StepDefinition, value: Option<Payload>) {
    && value.Some? && value.value.Checkpoint?
    && (step.approvalRequired ==>
          && value.value.approval.Some?
          && exists k :: 0 <= k < |value.value.approval.value| && !WhiteSpace(value.value.approval.value[k]))
  }

  /** The first step that is not completed, by name and status. */
  ghost predicate AtFront(run: Run, step: string, status: StepStatus) {
    var c := Front(run.steps);
    c < |run.steps| && run.steps[c].definition.id == step && run.steps[c].status == status
  }

  ghost predicate Owns(run: Run, agent: string) {
    var c := Front(run.steps);
    c < |run.steps| && run.steps[c].claimedBy == Some(agent)
  }

  /** What a command needs, by the state of the run alone. */
  ghost predicate Accepts(run: Run, agent: string, action: Action) {
    var open := run.status == Active || run.status == RunStatus.Failed || run.status == RunStatus.NeedsReconcile;
    var c := Front(run.steps);
    match action
    case Claim(step) => open && AtFront(run, step, Pending)
    case Reclaim(step) => open && AtFront(run, step, StepStatus.Failed)
    case TakeOver(step) => open && AtFront(run, step, Claimed)
    case CompleteStep(step, value) =>
      AtFront(run, step, Claimed) && Owns(run, agent) && HasEvidence(run.steps[c].definition, value)
    case FailStep(step, value) => AtFront(run, step, Claimed) && Owns(run, agent)
    case Reconcile(step, value) =>
      AtFront(run, step, StepStatus.NeedsReconcile) && HasEvidence(run.steps[c].definition, value)
    case CompleteRun => c == |run.steps|
    case AbortRun => true
    case Started(_, _, _, _, _) => false
    case Unreadable => false
  }

  /** A pending step was never claimed. */
  ghost predicate PendingIsUnclaimed(log: seq<Event>, id: int, run: Run) {
    forall i | 0 <= i < |run.steps| && run.steps[i].status == Pending :: !ClaimIndexed(log, id, run.steps[i].definition.id)
  }

  lemma ClaimIndexedNext(log: seq<Event>, x: Event, id: int, step: string)
    ensures ClaimIndexed(log + [x], id, step) <==> ClaimIndexed(log, id, step) || (x.runId == id && x.action == Claim(step))
  {
    if ClaimIndexed(log, id, step) {
      IndexGrows(log, x, id, step);
    }
    assert x in log + [x];
  }

  lemma ActionKeepsUnclaimed(log: seq<Event>, x: Event, run: Run, after: Run)
    requires DistinctSteps(run.steps) && PendingIsUnclaimed(log, x.runId, run) && Moves(run, x, after)
    ensures PendingIsUnclaimed(log + [x], x.runId, after)
  {
    hide ClaimIndexed, Front;
    forall i | 0 <= i < |after.steps| && after.steps[i].status == Pending
      ensures !ClaimIndexed(log + [x], x.runId, after.steps[i].definition.id)
    {
      MovesOneStep(run, x, after, i);
      ClaimIndexedNext(log, x, x.runId, after.steps[i].definition.id);
    }
  }

  lemma {:induction false} PendingStepsAreUnclaimed(log: seq<Event>, id: int)
    requires Legal(log) && History(log, id).Some?
    ensures PendingIsUnclaimed(log, id, History(log, id).value)
  {
    var n := |log| - 1;
    var x := log[n];
    assert log[..n] + [x] == log;
    LegalIsSound(log[..n], id);
    ExtendKeepsSound(log[..n], x, id);
    hide Legal, History, Moves, ApplyAction, ClaimIndexed, StartRun;
    if x.runId != id {
      PendingStepsAreUnclaimed(log[..n], id);
      forall step: string ensures ClaimIndexed(log, id, step) <==> ClaimIndexed(log[..n], id, step) {
        ClaimIndexedNext(log[..n], x, id, step);
      }
    } else if x.action.Started? {
      StartIsUnclaimed(log[..n], x);
    } else {
      PendingStepsAreUnclaimed(log[..n], id);
      ActionKeepsUnclaimed(log[..n], x, History(log[..n], id).value, History(log, id).value);
    }
  }

  lemma StartIsUnclaimed(log: seq<Event>, x: Event)
    requires Admissible(log, x) && x.action.Started?
    ensures PendingIsUnclaimed(log + [x], x.runId, StartRun(x))
  {
    hide ValidSteps;
  }

  lemma {:induction false} FoundAtFront(run: Run, step: string, status: StepStatus)
    requires Shape(run) && status != StepStatus.Completed && status != Pending
    ensures var found := FindStep(run.steps, step);
            found.Some? && run.steps[found.value].status == status <==> AtFront(run, step, status)
    ensures AtFront(run, step, status) ==> FindStep(run.steps, step) == Some(Front(run.steps))
  {
    hide EvidencedStep;
    if FindStep(run.steps, step).Some? {
      FindIsFront(run.steps, step);
    }
  }

  lemma EvidenceSaysSomething(step: StepDefinition, value: Option<Payload>)
    ensures HasEvidence(step, value) <==>
              value.Some? && value.value.Checkpoint? && (step.approvalRequired ==> Evidence(value.value.approval))
  {
  }

  lemma TakingIsAcceptedIff(run: Run, e: Event)
    requires Shape(run) && TakesStep(e.action)
    ensures Validated(run, e) && !(e.action.Claim? && AtFront(run, e.action.step, Claimed))
       <==> Accepts(run, e.agent, e.action)
  {
    hide Front, EvidencedStep, FindStep, DistinctSteps;
  }

  lemma FinishingIsAcceptedIff(run: Run, e: Event)
    requires Shape(run) && OnStep(e.action) && !TakesStep(e.action)
    ensures Validated(run, e) <==> Accepts(run, e.agent, e.action)
  {
    var step := e.action.step;
    FoundAtFront(run, step, Claimed);
    FoundAtFront(run, step, StepStatus.NeedsReconcile);
    if Front(run.steps) < |run.steps| {
      EvidenceSaysSomething(run.steps[Front(run.steps)].definition, e.action.value);
    }
    hide Shape, FindStep, Front, Evidence, HasEvidence;
  }

  lemma ClosingIsAcceptedIff(run: Run, e: Event)
    requires Shape(run) && !OnStep(e.action)
    ensures Validated(run, e) <==> Accepts(run, e.agent, e.action)
  {
  }

  /** In every reachable state of every run, a command is accepted exactly when the run's own state allows it. */
  lemma {:induction false} AcceptedIff(log: seq<Event>, id: int, key: Key, agent: string, action: Action)
    requires Legal(log) && History(log, id).Some? && forall x | x in log :: Less(x.key, key)
    ensures Admissible(log, Event(key, agent, id, action)) <==> Accepts(History(log, id).value, agent, action)
  {
    var e := Event(key, agent, id, action);
    var run := History(log, id).value;
    LegalIsSound(log, id);
    PendingStepsAreUnclaimed(log, id);
    RunsAreAsStarted(log, id);
    hide History, Legal, Validated, Accepts, Shape, ValidSteps, Front, Indexed, PendingIsUnclaimed, ClaimIndexed, AtFront;
    if TakesStep(action) {
      TakingIsAcceptedIff(run, e);
      if action.Claim? && Validated(run, e) {
        ClaimIsPendingIff(log, run, e);
      }
    } else if OnStep(action) {
      FinishingIsAcceptedIff(run, e);
    } else {
      ClosingIsAcceptedIff(run, e);
    }
  }

  /** The index refuses a validated claim exactly when the step is held already. */
  lemma ClaimIsPendingIff(log: seq<Event>, run: Run, e: Event)
    requires Shape(run) && Indexed(log, e.runId, run) && PendingIsUnclaimed(log, e.runId, run)
    requires e.action.Claim? && Validated(run, e)
    ensures ClaimIndexed(log, e.runId, e.action.step) <==> AtFront(run, e.action.step, Claimed)
  {
    CommandsHitTheFront(run, e);
    hide EvidencedStep, ClaimIndexed, Front, FindStep;
  }

  /** A run can be started exactly under a new identifier, with at least one step and no two of the same name. */
  lemma {:induction false} StartAcceptedIff(log: seq<Event>, e: Event)
    requires Legal(log) && e.action.Started? && forall x | x in log :: Less(x.key, e.key)
    ensures Admissible(log, e)
       <==> && (forall x | x in log :: x.runId != e.runId)
            && |e.action.steps| > 0
            && forall i, j | 0 <= i < j < |e.action.steps| :: e.action.steps[i].id != e.action.steps[j].id
  {
  }

  // ----- A takeover -----

  const PUBLISH := StepDefinition("publish", "Publish", NonIdempotent, true)

  const APPROVED := Checkpoint("done", Some("approved"))

  /** Alice claims the only step, Bob takes it over, reconciles it with approval and closes the run. */
  function Takeover(): (r: seq<Event>)
    ensures |r| == 5
  {
    [Event(Key(1, 1), "alice", 7, Started("workflow", "Title", "plan.md", "input", [PUBLISH])),
     Event(Key(2, 2), "alice", 7, Claim("publish")),
     Event(Key(3, 3), "bob", 7, TakeOver("publish")),
     Event(Key(4, 4), "bob", 7, Reconcile("publish", Some(APPROVED))),
     Event(Key(5, 5), "bob", 7, CompleteRun)]
  }

  /** The run after the first of these events, the first two, and so on. */
  function TakeoverRun(i: nat): Run
    requires 1 <= i <= 5
  {
    var step := StepSummary(PUBLISH, Pending, None, None);
    var held := step.(status := Claimed, claimedBy := Some("alice"));
    var waiting := step.(status := StepStatus.NeedsReconcile, claimedBy := Some("bob"));
    var done := waiting.(status := StepStatus.Completed, output := Some(APPROVED));
    var (status, current, now) := match i
      case 1 => (Active, None, step)
      case 2 => (Active, Some("publish"), held)
      case 3 => (RunStatus.NeedsReconcile, Some("publish"), waiting)
      case 4 => (Active, None, done)
      case _ => (RunStatus.Completed, None, done);
    Run(7, "workflow", "Title", "plan.md", status, "input", [now], current, 1, i, [1, 2, 3, 4, 5][..i])
  }

  lemma TakeoverFollows(i: nat)
    requires 1 <= i <= 4
    ensures ApplyAction(TakeoverRun(i), Takeover()[i]) == Ok(TakeoverRun(i + 1))
    ensures Validated(TakeoverRun(i), Takeover()[i])
  {
    var run, e := TakeoverRun(i), Takeover()[i];
    assert FindStep(run.steps, "publish") == Some(0);
    assert run.sources + [e.key.id] == TakeoverRun(i + 1).sources;
    assert run.steps[0 := TakeoverRun(i + 1).steps[0]] == TakeoverRun(i + 1).steps;
    assert i <= 3 ==> Front(run.steps) == 0;
    assert !Blank("approved") by { assert !WhiteSpace("approved"[0]); }
  }

  lemma {:induction false} TakeoverIsOrdered(i: nat)
    requires 1 <= i <= 4
    ensures !Takeover()[i].action.Started? && Takeover()[i].runId == 7
    ensures forall x | x in Takeover()[..i] ::
              Less(x.key, Takeover()[i].key) && (Takeover()[i].action.Claim? ==> !x.action.Claim?)
  {
  }

  lemma {:induction false} TakeoverStarts()
    ensures Legal(Takeover()[..1]) && History(Takeover()[..1], 7) == Some(TakeoverRun(1))
  {
    var e := Takeover()[0];
    assert Takeover()[..1] == [e] && [e][..0] == [];
    assert Legal([e][..0]) && History([e][..0], 7).None?;
    assert StartRun(e).steps == TakeoverRun(1).steps && StartRun(e).sources == TakeoverRun(1).sources;
    assert StartRun(e) == TakeoverRun(1);
  }

  lemma {:induction false} TakeoverGoesOn(i: nat, log: seq<Event>, more: seq<Event>)
    requires 1 <= i <= 4 && log == Takeover()[..i] && more == Takeover()[..i + 1]
    requires Legal(log) && History(log, 7) == Some(TakeoverRun(i))
    ensures Legal(more) && History(more, 7) == Some(TakeoverRun(i + 1))
  {
    hide Legal, History, TakeoverRun, Validated, ApplyAction, Less;
    TakeoverFollows(i);
    TakeoverIsOrdered(i);
    hide Takeover;
    assert log + [Takeover()[i]] == more;
    LegalGrows(log, Takeover()[i], TakeoverRun(i), TakeoverRun(i + 1));
  }

  lemma {:induction false} TakeoverIsLegal(i: nat)
    requires 1 <= i <= 5
    ensures Legal(Takeover()[..i]) && History(Takeover()[..i], 7) == Some(TakeoverRun(i))
  {
    if i == 1 {
      TakeoverStarts();
    } else {
      hide Legal, History, TakeoverRun, Takeover;
      TakeoverIsLegal(i - 1);
      TakeoverGoesOn(i - 1, Takeover()[..i - 1], Takeover()[..i]);
    }
  }

  /** A log commands can write in which a claimed non-idempotent step is taken over, waits, and is reconciled. */
  lemma {:induction false} StepsCanBeTakenOver()
    ensures var log := Takeover();
            && Legal(log) && Starts(log[0], log, 7) && log[0].action.steps == [PUBLISH]
            && StepHas(log[..2], 7, 0, Claimed) && log[2].action == TakeOver("publish") && log[2].agent != log[1].agent
            && StepHas(log[..3], 7, 0, StepStatus.NeedsReconcile) && log[3].action.Reconcile?
            && StepHas(log[..4], 7, 0, StepStatus.Completed)
            && History(log, 7).Some? && History(log, 7).value.status == RunStatus.Completed
  {
    hide Legal, History;
    TakeoverIsLegal(2);
    TakeoverIsLegal(3);
    TakeoverIsLegal(4);
    TakeoverIsLegal(5);
    assert Takeover()[..5] == Takeover();
  }
}
