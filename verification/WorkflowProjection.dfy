/** The list of workflow runs as a function of the set of events, whatever order they arrived in. */
module WorkflowProjection {
  import opened Prelude
  import opened Ordering
  import opened Listing
  import opened Workflow
  import opened WorkflowRuns
  import opened WorkflowPromises

  function EventKey(e: Event): Key { e.key }

  /** Newest update first, then smallest identifier. */
  function RunKey(run: Run): Key { Key(-run.updatedAt, run.id) }

  /** One event on the table of runs: a start replaces whatever was there, anything else needs a run to act on. */
  function Step(runs: map<int, Run>, e: Event): Result<map<int, Run>> {
    if e.action.Started? then Ok(runs[e.runId := StartRun(e)])
    else if e.runId !in runs then Err("workflow action before start")
    else match ApplyAction(runs[e.runId], e)
         case Ok(run) => Ok(runs[e.runId := run])
         case Err(reason) => Err(reason)
  }

  function Fold(log: seq<Event>): Result<map<int, Run>> {
    if log == [] then Ok(map[])
    else match Fold(log[..|log| - 1])
         case Ok(runs) => Step(runs, log[|log| - 1])
         case Err(reason) => Err(reason)
  }

  /** The table a set of events stands for. */
  function Project(events: seq<Event>): Result<map<int, Run>> {
    Fold(Sort(events, EventKey))
  }

  lemma {:induction false} FoldIsKeyed(log: seq<Event>)
    requires Fold(log).Ok?
    ensures Keyed(Fold(log).value, RunKey)
  {
    if log != [] {
      FoldIsKeyed(log[..|log| - 1]);
    }
  }

  lemma {:induction false} FoldFailsForGood(log: seq<Event>, k: nat)
    requires k <= |log| && Fold(log[..k]).Err?
    ensures Fold(log).Err?
    decreases |log|
  {
    if k < |log| {
      assert log[..|log| - 1][..k] == log[..k];
      FoldFailsForGood(log[..|log| - 1], k);
    } else {
      assert log[..k] == log;
    }
  }

  // ----- What is listed, without replaying -----

  ghost predicate LastStart(events: seq<Event>, id: int, e: Event) {
    && e in events && e.runId == id && e.action.Started?
    && forall x | x in events && x.runId == id && x.action.Started? :: AtMost(x.key, e.key)
  }

  /** The events of a run from this one on. */
  ghost predicate Since(events: seq<Event>, id: int, e: Event, x: Event) {
    x in events && x.runId == id && AtMost(e.key, x.key)
  }

  ghost predicate DescribedFrom(events: seq<Event>, e: Event, run: Run) {
    && LastStart(events, run.id, e) && StartedAs(e, run)
    && (forall n :: n in run.sources <==> exists x :: Since(events, run.id, e, x) && x.key.id == n)
    && (exists x :: Since(events, run.id, e, x) && x.key.at == run.updatedAt)
    && forall x | Since(events, run.id, e, x) :: x.key.at <= run.updatedAt
  }

  /**
   * A run is the one its last start event describes; it was updated by its latest event, and its sources are its events from
   * that start on.
   */
  ghost predicate Described(events: seq<Event>, run: Run) {
    exists e :: DescribedFrom(events, e, run)
  }

  lemma ApplyKeepsStart(e: Event, run: Run, x: Event)
    requires StartedAs(e, run) && ApplyAction(run, x).Ok?
    ensures StartedAs(e, ApplyAction(run, x).value)
    ensures ApplyAction(run, x).value.updatedAt == x.key.at
    ensures ApplyAction(run, x).value.sources == run.sources + [x.key.id]
  {
  }

  ghost predicate Newest(log: seq<Event>, x: Event) {
    forall y | y in log :: Less(y.key, x.key)
  }

  lemma SinceNext(log: seq<Event>, x: Event, id: int, e: Event)
    requires Newest(log, x) && e in log
    ensures forall y :: Since(log + [x], id, e, y) <==> Since(log, id, e, y) || (y == x && x.runId == id)
  {
  }

  lemma OthersStayDescribed(log: seq<Event>, x: Event, run: Run)
    requires Newest(log, x) && Described(log, run) && x.runId != run.id
    ensures Described(log + [x], run)
  {
    hide StartedAs;
    var e :| DescribedFrom(log, e, run);
    SinceNext(log, x, run.id, e);
    assert DescribedFrom(log + [x], e, run) by {
      assert forall y :: y in log + [x] <==> y in log || y == x;
      hide Since;
    }
  }

  lemma AppliedIsDescribed(log: seq<Event>, x: Event, run: Run)
    requires Newest(log, x) && Described(log, run) && x.runId == run.id && !x.action.Started? && ApplyAction(run, x).Ok?
    ensures Described(log + [x], ApplyAction(run, x).value)
  {
    hide StartedAs, ApplyAction;
    var after := ApplyAction(run, x).value;
    var e :| DescribedFrom(log, e, run);
    ApplyKeepsStart(e, run, x);
    StartedIsNamed(e, run);
    StartedIsNamed(e, after);
    SinceNext(log, x, run.id, e);
    assert Since(log + [x], run.id, e, x);
    assert forall y | Since(log, run.id, e, y) :: y.key.at <= x.key.at;
    assert LastStart(log + [x], run.id, e) by {
      assert forall y :: y in log + [x] <==> y in log || y == x;
    }
    hide Since, LastStart;
    assert DescribedFrom(log + [x], e, after);
  }

  lemma StartedIsNamed(e: Event, run: Run)
    requires StartedAs(e, run)
    ensures run.id == e.runId
  {
  }

  lemma StartIsDescribed(log: seq<Event>, x: Event)
    requires Newest(log, x) && x.action.Started?
    ensures Described(log + [x], StartRun(x))
  {
    StartIsAsListed(x);
    assert Since(log + [x], x.runId, x, x);
    assert forall y | Since(log + [x], x.runId, x, y) :: y == x;
    assert DescribedFrom(log + [x], x, StartRun(x)) by {
      hide StartedAs, Since;
    }
  }

  /** The runs of a table are the runs that have events, each as described. */
  ghost predicate AllDescribed(events: seq<Event>, runs: map<int, Run>) {
    && (forall id | id in runs :: runs[id].id == id && Described(events, runs[id]))
    && forall x | x in events :: x.runId in runs
  }

  lemma StepIsDescribed(log: seq<Event>, x: Event, runs: map<int, Run>)
    requires Newest(log, x) && AllDescribed(log, runs) && Step(runs, x).Ok?
    ensures AllDescribed(log + [x], Step(runs, x).value)
  {
    hide Described, ApplyAction, StartRun, Newest;
    forall id | id in runs && id != x.runId ensures Described(log + [x], runs[id]) {
      OthersStayDescribed(log, x, runs[id]);
    }
    if x.action.Started? {
      StartIsDescribed(log, x);
      StartedIsNamed(x, StartRun(x)) by { StartIsAsListed(x); }
    } else {
      AppliedIsDescribed(log, x, runs[x.runId]);
      AppliedIsNamed(runs[x.runId], x);
    }
  }

  lemma {:induction false} FoldIsDescribed(log: seq<Event>)
    requires StrictlySorted(log, EventKey) && Fold(log).Ok?
    ensures AllDescribed(log, Fold(log).value)
  {
    hide AllDescribed, Step;
    if log == [] {
      NothingIsDescribed();
    } else {
      var n := |log| - 1;
      FoldIsDescribed(log[..n]);
      LastIsNewest(log);
      StepIsDescribed(log[..n], log[n], Fold(log[..n]).value);
      assert log[..n] + [log[n]] == log;
    }
  }

  lemma NothingIsDescribed()
    ensures AllDescribed([], map[])
  {
  }

  lemma LastIsNewest(log: seq<Event>)
    requires log != [] && StrictlySorted(log, EventKey)
    ensures Newest(log[..|log| - 1], log[|log| - 1])
  {
    var n := |log| - 1;
    forall y | y in log[..n] ensures Less(y.key, log[n].key) {
      var i :| 0 <= i < n && log[i] == y;
      assert Less(EventKey(log[i]), EventKey(log[n]));
    }
  }

  lemma AppliedIsNamed(run: Run, x: Event)
    requires ApplyAction(run, x).Ok?
    ensures ApplyAction(run, x).value.id == run.id
  {
  }

  lemma SameEventsDescribe(xs: seq<Event>, ys: seq<Event>, run: Run)
    requires SameElements(xs, ys) && Described(xs, run)
    ensures Described(ys, run)
  {
    hide StartedAs;
    var e :| DescribedFrom(xs, e, run);
    assert forall x :: Since(xs, run.id, e, x) <==> Since(ys, run.id, e, x);
    assert DescribedFrom(ys, e, run) by {
      hide Since;
    }
  }

  lemma {:induction false} ProjectIsDescribed(events: seq<Event>)
    requires DistinctKeys(events, EventKey) && Project(events).Ok?
    ensures forall id | id in Project(events).value :: Described(events, Project(events).value[id])
    ensures forall x | x in events :: x.runId in Project(events).value
  {
    hide Described;
    var log := Sort(events, EventKey);
    SortSorted(events, EventKey);
    SortedElements(events, EventKey);
    FoldIsDescribed(log);
    forall id | id in Fold(log).value ensures Described(events, Fold(log).value[id]) {
      SameEventsDescribe(log, events, Fold(log).value[id]);
    }
  }

  /** What listing runs comes to: latest update first, then by identifier; every run that has events, as described. */
  ghost predicate ListsRuns(shown: seq<Run>, events: seq<Event>) {
    && (forall i, j | 0 <= i < j < |shown| ::
          || shown[i].updatedAt > shown[j].updatedAt
          || (shown[i].updatedAt == shown[j].updatedAt && shown[i].id < shown[j].id))
    && (DistinctKeys(events, EventKey) ==>
          && (forall run | run in shown :: Described(events, run))
          && (forall x | x in events :: exists run :: run in shown && run.id == x.runId)
          && forall run, other | run in shown && other in shown && run.id == other.id :: run == other)
  }

  lemma ListIsDescribed(shown: seq<Run>, events: seq<Event>)
    requires Project(events).Ok? && Lists(shown, Project(events).value, RunKey)
    ensures ListsRuns(shown, events)
  {
    hide Described;
    forall i, j | 0 <= i < j < |shown|
      ensures || shown[i].updatedAt > shown[j].updatedAt
              || (shown[i].updatedAt == shown[j].updatedAt && shown[i].id < shown[j].id)
    {
      assert Less(RunKey(shown[i]), RunKey(shown[j]));
    }
    var runs := Project(events).value;
    if DistinctKeys(events, EventKey) {
      ProjectIsDescribed(events);
      FoldIsKeyed(Sort(events, EventKey));
      forall run | run in shown ensures Described(events, run) {
        assert RunKey(run).id in runs && runs[RunKey(run).id] == run;
      }
      forall x | x in events ensures exists run :: run in shown && run.id == x.runId {
        assert RunKey(runs[x.runId]).id == x.runId;
        assert runs[x.runId] in shown;
      }
      forall run, other | run in shown && other in shown && run.id == other.id ensures run == other {
        assert runs[RunKey(run).id] == run && runs[RunKey(other).id] == other;
      }
    }
  }

  /** Sort the log, replay it into a table, and list the table. */
  method ProjectRuns(events: seq<Event>) returns (shown: Result<seq<Run>>)
    ensures shown.Ok? <==> Project(events).Ok?
    ensures shown.Ok? ==> Lists(shown.value, Project(events).value, RunKey)
    ensures shown.Ok? ==> ListsRuns(shown.value, events)
  {
    var log := Sort(events, EventKey);
    var runs: map<int, Run> := map[];
    for i := 0 to |log|
      invariant Fold(log[..i]) == Ok(runs)
    {
      var e := log[i];
      assert log[..i + 1][..i] == log[..i];
      if e.action.Started? {
        runs := runs[e.runId := StartRun(e)];
      } else {
        if e.runId !in runs {
          FoldFailsForGood(log, i + 1);
          return Err("workflow action before start");
        }
        var run := new RunRecord(runs[e.runId]);
        var ok := run.Apply(e);
        if !ok {
          FoldFailsForGood(log, i + 1);
          return Err("event cannot be applied");
        }
        runs := runs[e.runId := run.Snapshot()];
      }
    }
    assert log[..|log|] == log;
    FoldIsKeyed(log);
    var list := Listed(runs, RunKey);
    ListIsDescribed(list, events);
    shown := Ok(list);
  }

  // ----- What the table depends on -----

  /** Two logs with the same events give the same table, so the same list. */
  lemma ArrivalOrderIsIrrelevant(xs: seq<Event>, ys: seq<Event>)
    requires DistinctKeys(xs, EventKey) && multiset(xs) == multiset(ys)
    ensures Project(xs) == Project(ys)
    ensures Project(xs).Ok? ==>
              forall a, b | Lists(a, Project(xs).value, RunKey) && Lists(b, Project(ys).value, RunKey) :: a == b
  {
    SortIgnoresArrivalOrder(xs, ys, EventKey);
    if Project(xs).Ok? {
      forall a, b | Lists(a, Project(xs).value, RunKey) && Lists(b, Project(ys).value, RunKey) ensures a == b {
        ListIsUnique(a, b, Project(xs).value, RunKey);
      }
    }
  }

  /** The events of one run. */
  function Own(log: seq<Event>, id: int): seq<Event> {
    if log == [] then []
    else
      var e := log[|log| - 1];
      Own(log[..|log| - 1], id) + (if e.runId == id then [e] else [])
  }

  lemma {:induction false} OwnElements(log: seq<Event>, id: int)
    ensures forall e :: e in Own(log, id) <==> e in log && e.runId == id
  {
    if log != [] {
      OwnElements(log[..|log| - 1], id);
      assert log == log[..|log| - 1] + [log[|log| - 1]];
    }
  }

  lemma {:induction false} OwnStaysSorted(log: seq<Event>, id: int)
    requires StrictlySorted(log, EventKey)
    ensures StrictlySorted(Own(log, id), EventKey)
  {
    if log != [] {
      var n := |log| - 1;
      OwnStaysSorted(log[..n], id);
      OwnElements(log[..n], id);
      var own := Own(log[..n], id);
      forall i | 0 <= i < |own| ensures Less(own[i].key, log[n].key) {
        assert own[i] in log[..n];
        var j :| 0 <= j < n && log[j] == own[i];
        assert Less(EventKey(log[j]), EventKey(log[n]));
      }
    }
  }

  lemma {:induction false} OwnStaysDistinct(log: seq<Event>, id: int)
    requires DistinctKeys(log, EventKey)
    ensures DistinctKeys(Own(log, id), EventKey)
  {
    if log != [] {
      var n := |log| - 1;
      OwnStaysDistinct(log[..n], id);
      OwnElements(log[..n], id);
      var own := Own(log[..n], id);
      forall i | 0 <= i < |own| ensures own[i].key != log[n].key {
        assert own[i] in log[..n];
        var j :| 0 <= j < n && log[j] == own[i];
        assert EventKey(log[j]) != EventKey(log[n]);
      }
    }
  }

  /** Picking one run's events and sorting can be done in either order. */
  lemma {:induction false} OwnThenSort(events: seq<Event>, id: int)
    requires DistinctKeys(events, EventKey)
    ensures Sort(Own(events, id), EventKey) == Own(Sort(events, EventKey), id)
  {
    var sorted := Sort(events, EventKey);
    SortSorted(events, EventKey);
    SortElements(events, EventKey);
    OwnStaysSorted(sorted, id);
    OwnStaysDistinct(events, id);
    SortSorted(Own(events, id), EventKey);
    SortElements(Own(events, id), EventKey);
    OwnElements(sorted, id);
    OwnElements(events, id);
    forall e ensures e in Sort(Own(events, id), EventKey) <==> e in Own(sorted, id) {
      assert e in Sort(Own(events, id), EventKey) <==> e in multiset(Own(events, id));
      assert e in sorted <==> e in multiset(events);
    }
    SortedIsUnique(Sort(Own(events, id), EventKey), Own(sorted, id), EventKey);
  }

  function Lookup(runs: map<int, Run>, id: int): Option<Run> {
    if id in runs then Some(runs[id]) else None
  }

  lemma {:induction false} OwnFold(log: seq<Event>, id: int)
    requires Fold(log).Ok?
    ensures Fold(Own(log, id)).Ok?
    ensures Lookup(Fold(Own(log, id)).value, id) == Lookup(Fold(log).value, id)
  {
    if log != [] {
      var n := |log| - 1;
      OwnFold(log[..n], id);
      if log[n].runId == id {
        assert Own(log, id)[..|Own(log, id)| - 1] == Own(log[..n], id);
      } else {
        assert Own(log, id) == Own(log[..n], id);
      }
    }
  }

  lemma {:induction false} EveryRunFolds(log: seq<Event>)
    requires forall id :: Fold(Own(log, id)).Ok?
    ensures Fold(log).Ok?
  {
    if log != [] {
      var n := |log| - 1;
      forall id ensures Fold(Own(log[..n], id)).Ok? {
        assert Fold(Own(log, id)).Ok?;
        if log[n].runId == id {
          assert Own(log, id)[..|Own(log, id)| - 1] == Own(log[..n], id);
        } else {
          assert Own(log, id) == Own(log[..n], id);
        }
      }
      EveryRunFolds(log[..n]);
      var id := log[n].runId;
      OwnFold(log[..n], id);
      assert Own(log, id)[..|Own(log, id)| - 1] == Own(log[..n], id);
      assert Fold(Own(log, id)).Ok?;
    }
  }

  ghost predicate EveryRunProjects(events: seq<Event>) {
    forall id :: Project(Own(events, id)).Ok?
  }

  /** A run depends on its own events only; the whole list fails exactly when some run fails on its own. */
  lemma {:induction false} RunsAreIndependent(events: seq<Event>)
    requires DistinctKeys(events, EventKey)
    ensures Project(events).Ok? <==> EveryRunProjects(events)
    ensures Project(events).Ok? ==>
              forall id :: Lookup(Project(Own(events, id)).value, id) == Lookup(Project(events).value, id)
  {
    var sorted := Sort(events, EventKey);
    forall id ensures Project(Own(events, id)) == Fold(Own(sorted, id)) {
      OwnThenSort(events, id);
    }
    if Project(events).Ok? {
      forall id
        ensures Project(Own(events, id)).Ok?
        ensures Lookup(Project(Own(events, id)).value, id) == Lookup(Project(events).value, id)
      {
        OwnFold(sorted, id);
      }
    }
    if EveryRunProjects(events) {
      forall id ensures Fold(Own(sorted, id)).Ok? {
        assert Project(Own(events, id)).Ok?;
      }
      EveryRunFolds(sorted);
    }
  }

  /** Appending the newest event is one step on the old table: nothing has to be replayed. */
  lemma AppendingIsOneStep(events: seq<Event>, e: Event)
    requires DistinctKeys(events, EventKey) && forall x | x in events :: Less(x.key, e.key)
    ensures Project(events + [e]) == (match Project(events) case Ok(runs) => Step(runs, e) case Err(reason) => Err(reason))
  {
    SortAppendsTheNewest(events, e, EventKey);
    var sorted := Sort(events, EventKey);
    assert (sorted + [e])[..|sorted + [e]| - 1] == sorted;
  }

  // ----- Logs that commands have written -----

  lemma {:induction false} LegalLogsFold(log: seq<Event>)
    requires Legal(log)
    ensures Fold(log).Ok?
    ensures forall id :: Lookup(Fold(log).value, id) == History(log, id)
  {
    hide ApplyAction, Admissible, Sound, Moves;
    if log != [] {
      var n := |log| - 1;
      LegalLogsFold(log[..n]);
      var e := log[n];
      var runs := Fold(log[..n]).value;
      assert log[..n] + [e] == log;
      LegalIsSound(log[..n], e.runId);
      ExtendKeepsSound(log[..n], e, e.runId);
      assert Lookup(runs, e.runId) == History(log[..n], e.runId);
    }
  }

  /** However a legal log is shuffled, replaying it gives each run exactly its history. */
  lemma {:induction false} ShuffledLegalLogsProject(log: seq<Event>, events: seq<Event>)
    requires Legal(log) && multiset(events) == multiset(log)
    ensures Project(events).Ok?
    ensures forall id :: Lookup(Project(events).value, id) == History(log, id)
  {
    LegalKeysIncrease(log);
    assert StrictlySorted(log, EventKey);
    SortedHasDistinctElements(log, EventKey);
    SortIgnoresArrivalOrder(log, events, EventKey);
    SortSorted(log, EventKey);
    SortElements(log, EventKey);
    forall x ensures x in Sort(log, EventKey) <==> x in log {
      assert x in Sort(log, EventKey) <==> x in multiset(log);
    }
    SortedIsUnique(Sort(log, EventKey), log, EventKey);
    LegalLogsFold(log);
  }
}
