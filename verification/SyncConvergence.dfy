/** When a sync leaves both sides equal, judged by what the two sides held before it. */
module SyncConvergence {
  import opened Prelude
  import opened Ordering
  import opened Gateway
  import opened SyncMachine
  import opened SyncLosses
  import opened SyncLoops

  // ----- What an import brings in -----

  /** Rows that stand for one event the log lacks agree on the step it claims. */
  ghost predicate OneClaimPerEvent(cfg: Config, rows: seq<Row>, log: LocalLog) {
    forall a, b | a in rows && b in rows && cfg.localId(a.key.id) == cfg.localId(b.key.id) ::
      cfg.localId(a.key.id) !in log ==> a.claim == b.claim
  }

  /** One of these rows is new to the log, and is the same event as `row` or claims the same step. */
  ghost predicate Brings(cfg: Config, log: LocalLog, rows: seq<Row>, row: Row) {
    exists e :: e in rows && cfg.localId(e.key.id) !in log
                && (cfg.localId(e.key.id) == cfg.localId(row.key.id) || (row.claim.Some? && e.claim == row.claim))
  }

  /** Importing these rows will leave the log with this row, or with its step claimed by another. */
  ghost predicate Foreseen(cfg: Config, log: LocalLog, rows: seq<Row>, row: Row) {
    Covered(cfg, log, row) || Brings(cfg, log, rows, row)
  }

  lemma {:induction false} ImportedFrom(cfg: Config, log: LocalLog, events: seq<Row>, u: int)
    requires u in ImportAll(cfg, log, events) && u !in log
    ensures exists e :: e in events && cfg.localId(e.key.id) == u && ImportAll(cfg, log, events)[u] == ToLocal(cfg, e)
  {
    hide Covered;
    if events != [] {
      var n := |events| - 1;
      var mid := ImportAll(cfg, log, events[..n]);
      if u in mid {
        ImportedFrom(cfg, log, events[..n], u);
        ImportCovers(cfg, mid, events[n]);
        var e :| e in events[..n] && cfg.localId(e.key.id) == u && mid[u] == ToLocal(cfg, e);
        assert e in events;
      } else {
        assert events[n] in events;
      }
    }
  }

  lemma {:induction false} ImportCoversOnlyForeseen(cfg: Config, log: LocalLog, events: seq<Row>, row: Row)
    requires Covered(cfg, ImportAll(cfg, log, events), row)
    ensures Foreseen(cfg, log, events, row)
  {
    var after := ImportAll(cfg, log, events);
    var id: int := cfg.localId(row.key.id);
    hide ImportAll;
    ImportAllCovers(cfg, log, events);
    if id in after && id !in log {
      ImportedFrom(cfg, log, events, id);
    } else if id !in after {
      var u :| u in after && after[u].claim == Some(Slot(cfg.home, row.claim.value));
      if u !in log {
        ImportedFrom(cfg, log, events, u);
      } else {
        assert Taken(log, Slot(cfg.home, row.claim.value));
      }
    }
  }

  lemma {:induction false} ImportCoversForeseen(cfg: Config, log: LocalLog, events: seq<Row>, row: Row)
    requires OneClaimPerEvent(cfg, events + [row], log) && Foreseen(cfg, log, events, row)
    ensures Covered(cfg, ImportAll(cfg, log, events), row)
  {
    var after := ImportAll(cfg, log, events);
    hide ImportAll;
    ImportAllCovers(cfg, log, events);
    if Covered(cfg, log, row) {
      CoveredGrows(cfg, log, after, row);
    } else {
      var e :| e in events && cfg.localId(e.key.id) !in log
               && (cfg.localId(e.key.id) == cfg.localId(row.key.id) || (row.claim.Some? && e.claim == row.claim));
      assert e in events + [row] && row in events + [row];
      if cfg.localId(e.key.id) != cfg.localId(row.key.id) && cfg.localId(e.key.id) in after {
        ImportedFrom(cfg, log, events, cfg.localId(e.key.id));
        var f :| f in events && cfg.localId(f.key.id) == cfg.localId(e.key.id)
                 && after[cfg.localId(e.key.id)] == ToLocal(cfg, f);
        assert f in events + [row];
      }
    }
  }

  /** What a list of rows brings in can be told beforehand. */
  lemma {:induction false} ImportCoversIff(cfg: Config, log: LocalLog, events: seq<Row>, row: Row)
    requires OneClaimPerEvent(cfg, events + [row], log)
    ensures Covered(cfg, ImportAll(cfg, log, events), row) <==> Foreseen(cfg, log, events, row)
  {
    hide Covered, Foreseen, ImportAll, OneClaimPerEvent;
    if Covered(cfg, ImportAll(cfg, log, events), row) {
      ImportCoversOnlyForeseen(cfg, log, events, row);
    }
    if Foreseen(cfg, log, events, row) {
      ImportCoversForeseen(cfg, log, events, row);
    }
  }

  lemma OneClaimPerPart(cfg: Config, rows: seq<Row>, log: LocalLog, a: nat, b: nat, row: Row)
    requires OneClaimPerEvent(cfg, rows, log) && a <= b <= |rows| && row in rows
    ensures OneClaimPerEvent(cfg, rows[a..b] + [row], log)
  {
    forall x | x in rows[a..b] + [row] ensures x in rows {
    }
  }

  lemma ReversedForeseen(cfg: Config, log: LocalLog, events: seq<Row>, row: Row)
    ensures OneClaimPerEvent(cfg, Reverse(events) + [row], log) <==> OneClaimPerEvent(cfg, events + [row], log)
    ensures Foreseen(cfg, log, Reverse(events), row) <==> Foreseen(cfg, log, events, row)
  {
    ReverseElements(events);
    assert forall x :: x in Reverse(events) + [row] <==> x in events + [row];
    hide Covered;
  }

  // ----- One pull -----

  /** Every row of this slice is in the log, or has its step claimed by another event there. */
  ghost predicate SliceCovered(cfg: Config, rows: seq<Row>, log: LocalLog, a: nat, b: nat)
    requires a <= b <= |rows|
  {
    forall i | a <= i < b :: Covered(cfg, log, rows[i])
  }

  /**
   * A pull from scratch gets everything exactly when its pages are honest, or each row beyond the one page it reads is
   * there already or comes with that page.
   */
  lemma {:induction false} BackfillGetsAllIff(cfg: Config, rows: seq<Row>, log: LocalLog)
    requires ValidConfig(cfg) && Table(rows) && OneClaimPerEvent(cfg, rows, log)
    ensures SliceCovered(cfg, rows, BackfillFrom(cfg, rows, log, |rows|).log, 0, |rows|)
       <==> || Honest(cfg.limit, cfg.cap, |rows|)
            || forall i | 0 <= i < |rows| - cfg.cap :: Foreseen(cfg, log, rows[|rows| - cfg.cap..], rows[i])
  {
    hide ImportAll, BackfillFrom, Covered, Foreseen, OneClaimPerEvent;
    if Honest(cfg.limit, cfg.cap, |rows|) {
      BackfillFromVisits(cfg, rows, log, |rows|);
      BackfillIsCompleteIff(rows, |rows|, cfg.limit, cfg.cap);
      assert rows[..|rows|] == rows;
      ReverseElements(rows);
      ImportAllCovers(cfg, log, Reverse(rows));
    } else {
      var k := |rows| - cfg.cap;
      var tail := rows[k..];
      ClampedBackfillImportsTheNewest(cfg, rows, log);
      ImportAllCovers(cfg, log, Reverse(tail));
      ReverseElements(tail);
      assert rows[k..|rows|] == tail;
      forall i | 0 <= i < |rows|
        ensures Covered(cfg, BackfillFrom(cfg, rows, log, |rows|).log, rows[i]) <==>
                  i >= k || Foreseen(cfg, log, tail, rows[i])
      {
        if i < k {
          OneClaimPerPart(cfg, rows, log, k, |rows|, rows[i]);
          ReversedForeseen(cfg, log, tail, rows[i]);
          ImportCoversIff(cfg, log, Reverse(tail), rows[i]);
        } else {
          assert tail[i - k] == rows[i];
        }
      }
    }
  }

  /**
   * An incremental pull gets everything above its cursor exactly when its pages are honest, or each row beyond the one page
   * it reads is there already or comes with that page. Until then the rest is late, not lost.
   */
  lemma {:induction false} IncrementalPullGetsAllIff(cfg: Config, rows: seq<Row>, log: LocalLog, n: nat)
    requires ValidConfig(cfg) && Table(rows) && n <= |rows| && OneClaimPerEvent(cfg, rows, log)
    ensures SliceCovered(cfg, rows, WalkFrom(cfg, rows, log, n).log, n, |rows|)
       <==> || Honest(cfg.limit, cfg.cap, |rows| - n)
            || forall i | n + cfg.cap <= i < |rows| :: Foreseen(cfg, log, rows[n..n + cfg.cap], rows[i])
  {
    hide ImportAll, WalkFrom, Covered, Foreseen, OneClaimPerEvent, CaughtUp;
    WalkVisitsASlice(cfg, rows, log, n);
    var m := n + WalkFrom(cfg, rows, log, n).visited;
    var page := rows[n..m];
    ImportAllCovers(cfg, log, page);
    forall i | n <= i < |rows|
      ensures Covered(cfg, WalkFrom(cfg, rows, log, n).log, rows[i]) <==> i < m || Foreseen(cfg, log, page, rows[i])
    {
      if i < m {
        assert page[i - n] == rows[i];
      } else {
        OneClaimPerPart(cfg, rows, log, n, m, rows[i]);
        ImportCoversIff(cfg, log, page, rows[i]);
      }
    }
  }

  // ----- A sync that finishes a half-done backfill -----

  /** The rows a resumed backfill has still to fetch. */
  function Older(rows: seq<Row>, before: Key): seq<Row> {
    rows[..Below(rows, before)]
  }

  /** What a push adds stands for events the log already has. */
  lemma {:induction false} PushedBringNothing(cfg: Config, s: State, list: seq<Key>, before: Key, row: Row)
    requires ValidConfig(cfg) && Table(s.gateway) && forall k | k in list :: k.id in s.local
    ensures var rows := PublishAll(cfg, s.gateway, s.local, list);
            Foreseen(cfg, s.local, Older(rows, before), row) <==> Foreseen(cfg, s.local, Older(s.gateway, before), row)
  {
    hide PublishAll, Covered, Table;
    var rows := PublishAll(cfg, s.gateway, s.local, list);
    PublishAllReaches(cfg, s.gateway, s.local, list);
    OlderElements(rows, before);
    OlderElements(s.gateway, before);
    assert forall e: Row :: cfg.localId(e.key.id) !in s.local ==>
                              (e in Older(rows, before) <==> e in Older(s.gateway, before));
    hide Older;
  }

  lemma OlderElements(rows: seq<Row>, before: Key)
    requires Table(rows)
    ensures forall row :: row in Older(rows, before) <==> row in rows && Less(row.key, before)
  {
    BelowSplits(rows, before);
    var older := Older(rows, before);
    forall row | row in older ensures row in rows && Less(row.key, before) {
      var i :| 0 <= i < |older| && older[i] == row;
      assert rows[i] == row;
    }
    forall row | row in rows && Less(row.key, before) ensures row in older {
      var i :| 0 <= i < |rows| && rows[i] == row;
      assert older[i] == row;
    }
  }

  /** A push does not introduce two claims for one event. */
  lemma {:induction false} PushKeepsOneClaim(cfg: Config, s: State, list: seq<Key>)
    requires ValidConfig(cfg) && Table(s.gateway) && forall k | k in list :: k.id in s.local
    requires OneClaimPerEvent(cfg, s.gateway, s.local)
    ensures OneClaimPerEvent(cfg, PublishAll(cfg, s.gateway, s.local, list), s.local)
  {
    hide PublishAll, Table;
    PublishAllReaches(cfg, s.gateway, s.local, list);
  }

  /** After an honest resumed backfill a row above its range is there exactly if that could be told beforehand. */
  lemma {:induction false} NewerRowIsCoveredIff(cfg: Config, s: State, list: seq<Key>, row: Row)
    requires ValidConfig(cfg) && Table(s.gateway) && forall k | k in list :: k.id in s.local
    requires s.saved.before.Some? && OneClaimPerEvent(cfg, s.gateway, s.local)
    requires var rows := PublishAll(cfg, s.gateway, s.local, list);
             Table(rows) && row in rows && Honest(cfg.limit, cfg.cap, Beneath(rows, s.saved.before))
    ensures var rows := PublishAll(cfg, s.gateway, s.local, list);
            Covered(cfg, BackfillFrom(cfg, rows, s.local, Beneath(rows, s.saved.before)).log, row)
            <==> Foreseen(cfg, s.local, Older(s.gateway, s.saved.before.value), row)
  {
    hide PublishAll, Covered, Foreseen, BackfillFrom, ImportAll, OneClaimPerEvent, Table;
    var rows := PublishAll(cfg, s.gateway, s.local, list);
    var n := Beneath(rows, s.saved.before);
    BackfillFromVisits(cfg, rows, s.local, n);
    BackfillIsCompleteIff(rows, n, cfg.limit, cfg.cap);
    PushKeepsOneClaim(cfg, s, list);
    OneClaimPerPart(cfg, rows, s.local, 0, n, row);
    assert rows[0..n] == rows[..n];
    ReversedForeseen(cfg, s.local, rows[..n], row);
    ImportCoversIff(cfg, s.local, Reverse(rows[..n]), row);
    PushedBringNothing(cfg, s, list, s.saved.before.value, row);
  }

  /** Every row above the range of a half-done backfill is in the log already, or comes with what is left to fetch. */
  ghost predicate NothingNewerMissing(cfg: Config, s: State)
    requires s.saved.before.Some? && s.saved.after.Some?
  {
    forall row | row in s.gateway && Less(s.saved.after.value, row.key) ::
      Foreseen(cfg, s.local, Older(s.gateway, s.saved.before.value), row)
  }

  /**
   * A push and a resumed backfill end with both sides equal exactly when, before they started, the gateway had nothing
   * newer than the backfill's first page that is not in the log or coming with the pages left.
   */
  lemma {:induction false} ResumedSyncConvergesIff(cfg: Config, s: State, list: seq<Key>)
    requires ValidConfig(cfg) && Inv(cfg, s) && s.loop.Idle? && IsPending(s.local, s.saved.pushAfter, list)
    requires s.saved.phase == Backfill && s.saved.before.Some? && OneClaimPerEvent(cfg, s.gateway, s.local)
    requires Honest(cfg.limit, cfg.cap, Beneath(PublishAll(cfg, s.gateway, s.local, list), s.saved.before))
    ensures s.saved.after.Some?
    ensures var rows := PublishAll(cfg, s.gateway, s.local, list);
            Converged(cfg, rows, BackfillFrom(cfg, rows, s.local, Beneath(rows, s.saved.before)).log)
            <==> NothingNewerMissing(cfg, s)
  {
    hide PublishAll, Covered, Foreseen, BackfillFrom, ImportAll, OneClaimPerEvent, Table, OnGateway;
    var rows := PublishAll(cfg, s.gateway, s.local, list);
    var n := Beneath(rows, s.saved.before);
    var after := BackfillFrom(cfg, rows, s.local, n).log;
    PublishAllReaches(cfg, s.gateway, s.local, list);
    PushReachesEverything(cfg, s, list);
    PushKeepsPulledRange(cfg, s, list, s.saved.pushAfter);
    var s1 := State(rows, s.local, s.saved.(pushAfter := s.saved.pushAfter), Idle);
    BackfillConverges(cfg, s1, after);
    BackfillFromVisits(cfg, rows, s.local, n);
    VisitedAreRows(rows, n, cfg.limit, cfg.cap);
    PulledComeFromGateway(cfg, s1, Backfilled(rows, n, cfg.limit, cfg.cap));
    forall row | row in rows
      ensures Covered(cfg, after, row) <==> Foreseen(cfg, s.local, Older(s.gateway, s.saved.before.value), row)
    {
      NewerRowIsCoveredIff(cfg, s, list, row);
    }
    forall row | row in rows && row !in s.gateway ensures Covered(cfg, after, row) {
      OwnIsForeseen(cfg, s.local, Older(s.gateway, s.saved.before.value), row);
    }
    hide Inv, Older, Beneath, PulledRange;
  }

  lemma OwnIsForeseen(cfg: Config, log: LocalLog, rows: seq<Row>, row: Row)
    requires cfg.localId(row.key.id) in log
    ensures Foreseen(cfg, log, rows, row)
  {
  }

  function Bare(id: int): Row { Row(Key(id, id), None) }

  /** The state of a client that crashed after the first of two pages, and of a gateway that has grown since. */
  function HalfDone(): State {
    State([Bare(1), Bare(2), Bare(3)], map[2 := LocalEvent(2, None)],
          Checkpoint(None, Backfill, Some(Key(2, 2)), Some(Key(2, 2))), Idle)
  }

  const TWO := [Bare(1), Bare(2)]

  /** The checkpoint after the first page of two. */
  const PAGED := Checkpoint(None, Backfill, Some(Key(2, 2)), Some(Key(2, 2)))

  lemma FirstPageHoldsTheNewest()
    ensures OlderPage(TWO, None, 1, 10) == Page([Bare(2)], true, Some(Key(2, 2)))
    ensures Beneath(TWO, None) == 2
  {
    assert Reverse(TWO[1..2]) == [Bare(2)];
  }

  lemma ThirdComesLast()
    ensures !Known(TWO, 3) && Publish(TWO, Bare(3)) == [Bare(1), Bare(2), Bare(3)]
  {
    assert TWO[0].key.id == 1 && TWO[1].key.id == 2;
    BelowSplits(TWO, Key(3, 3));
    assert Less(TWO[0].key, Key(3, 3)) && Less(TWO[1].key, Key(3, 3));
    assert TWO[..2] == TWO && TWO[2..] == [];
  }

  lemma PageIsFetched(start: State)
    requires start == State(TWO, map[], FRESH, Idle)
    ensures Runs(Plain(1, 10), true, start, [StartPull, FetchOlder],
                 start.(loop := Importing([Bare(2)], true, Key(2, 2), Key(2, 2))))
  {
    var cfg := Plain(1, 10);
    FirstPageHoldsTheNewest();
    hide OlderPage, Beneath;
    var s1 := start.(loop := Backfilling(None, None));
    RunsOn(cfg, true, start, [], start, StartPull);
    assert After(cfg, start, StartPull) == s1 && [] + [StartPull] == [StartPull];
    RunsOn(cfg, true, start, [StartPull], s1, FetchOlder);
    assert [StartPull] + [FetchOlder] == [StartPull, FetchOlder];
  }

  lemma PageIsImported(importing: State)
    requires importing == State(TWO, map[], FRESH, Importing([Bare(2)], true, Key(2, 2), Key(2, 2)))
    ensures Runs(Plain(1, 10), true, importing, [ImportOne, SaveOlder],
                 State(TWO, map[2 := LocalEvent(2, None)], PAGED, Backfilling(Some(Key(2, 2)), Some(Key(2, 2)))))
  {
    var cfg := Plain(1, 10);
    var s3 := State(TWO, map[2 := LocalEvent(2, None)], FRESH, Importing([], true, Key(2, 2), Key(2, 2)));
    assert Import(cfg, map[], Bare(2)) == map[2 := LocalEvent(2, None)] && [Bare(2)][1..] == [];
    RunsOn(cfg, true, importing, [], importing, ImportOne);
    assert After(cfg, importing, ImportOne) == s3 && [] + [ImportOne] == [ImportOne];
    RunsOn(cfg, true, importing, [ImportOne], s3, SaveOlder);
    assert [ImportOne] + [SaveOlder] == [ImportOne, SaveOlder];
  }

  lemma CrashAndAppend(paged: State)
    requires paged == State(TWO, map[2 := LocalEvent(2, None)], PAGED, Backfilling(Some(Key(2, 2)), Some(Key(2, 2))))
    ensures Runs(Plain(1, 10), true, paged, [Crash, ForeignAppend(Bare(3))], HalfDone())
  {
    var cfg := Plain(1, 10);
    ThirdComesLast();
    hide Publish, Known;
    var crashed := paged.(loop := Idle);
    var append := ForeignAppend(Bare(3));
    RunsOn(cfg, true, paged, [], paged, Crash);
    assert After(cfg, paged, Crash) == crashed && [] + [Crash] == [Crash];
    RunsOn(cfg, true, paged, [Crash], crashed, append);
    assert After(cfg, crashed, append) == HalfDone() && [Crash] + [append] == [Crash, append];
  }

  lemma ThreeParts(cfg: Config, s: State, a: seq<Step>, m: State, b: seq<Step>, n: State, c: seq<Step>, t: State)
    requires Runs(cfg, true, s, a, m) && Runs(cfg, true, m, b, n) && Runs(cfg, true, n, c, t)
    ensures Runs(cfg, true, s, a + b + c, t)
  {
    hide Runs;
    RunsThrough(cfg, true, s, a, m, b, n);
    RunsThrough(cfg, true, s, a + b, n, c, t);
  }

  /** A fair run that gets there: one page of a first pull, a crash, and a third event appended by somebody else. */
  lemma HalfDoneIsReached() returns (start: State, steps: seq<Step>)
    ensures NeverSynced(start) && start.gateway == [Bare(1), Bare(2)] && start.local == map[]
    ensures steps == [StartPull, FetchOlder, ImportOne, SaveOlder, Crash, ForeignAppend(Bare(3))]
    ensures Runs(Plain(1, 10), true, start, steps, HalfDone())
  {
    var cfg := Plain(1, 10);
    start := State(TWO, map[], FRESH, Idle);
    var importing := start.(loop := Importing([Bare(2)], true, Key(2, 2), Key(2, 2)));
    PageIsFetched(start);
    PageIsImported(importing);
    hide Runs;
    var paged := State(TWO, map[2 := LocalEvent(2, None)], PAGED, Backfilling(Some(Key(2, 2)), Some(Key(2, 2))));
    var append := ForeignAppend(Bare(3));
    CrashAndAppend(paged);
    steps := [StartPull, FetchOlder] + [ImportOne, SaveOlder] + [Crash, append];
    ThreeParts(cfg, start, [StartPull, FetchOlder], importing, [ImportOne, SaveOlder], paged, [Crash, append], HalfDone());
  }

  lemma ThirdIsNotForeseen()
    ensures !Foreseen(Plain(1, 10), HalfDone().local, Older(HalfDone().gateway, Key(2, 2)), Bare(3))
    ensures OneClaimPerEvent(Plain(1, 10), HalfDone().gateway, HalfDone().local)
    ensures Table(HalfDone().gateway)
  {
    OlderElements(HalfDone().gateway, Key(2, 2));
    hide Older;
  }

  /** From there, a sync with honest pages ends without the third event. */
  lemma {:induction false} ResumedSyncCanMiss(list: seq<Key>)
    requires IsPending(HalfDone().local, None, list)
    ensures var cfg, s := Plain(1, 10), HalfDone();
            var rows := PublishAll(cfg, s.gateway, s.local, list);
            && Honest(cfg.limit, cfg.cap, Beneath(rows, s.saved.before))
            && !Converged(cfg, rows, BackfillFrom(cfg, rows, s.local, Beneath(rows, s.saved.before)).log)
  {
    hide PublishAll, BackfillFrom, Inv, Older, IsPending, Converged, Foreseen, OneClaimPerEvent, Runs, Beneath, NeverSynced;
    var cfg, s := Plain(1, 10), HalfDone();
    var start, steps := HalfDoneIsReached();
    FreshInv(cfg, start);
    RunsKeepInv(cfg, start, steps, s) by { FairRuns(cfg, start, steps, s); }
    ThirdIsNotForeseen();
    ResumedSyncConvergesIff(cfg, s, list);
    assert s.gateway[2] == Bare(3);
  }

  lemma FreshInv(cfg: Config, start: State)
    requires NeverSynced(start)
    ensures Inv(cfg, start)
  {
  }

  lemma {:induction false} FairRuns(cfg: Config, s: State, steps: seq<Step>, t: State)
    requires Runs(cfg, true, s, steps, t)
    ensures Leads(cfg, s, steps, t) && Fair(cfg, s, steps)
  {
  }

  // ----- A whole sync -----

  /** The rows the next pull will import, oldest first: all that are left if its pages are honest, else one clamped page. */
  ghost function Ahead(cfg: Config, rows: seq<Row>, c: Checkpoint): seq<Row> {
    if c.phase == Incremental && c.after.Some? then
      var n := UpTo(rows, c.after.value);
      rows[n..if Honest(cfg.limit, cfg.cap, |rows| - n) then |rows| else n + cfg.cap]
    else
      var n := Beneath(rows, c.before);
      rows[if Honest(cfg.limit, cfg.cap, n) then 0 else n - cfg.cap..n]
  }

  lemma {:induction false} BackfillImportsAhead(cfg: Config, rows: seq<Row>, log: LocalLog, n: nat)
    requires ValidConfig(cfg) && n <= |rows|
    ensures var ahead := rows[if Honest(cfg.limit, cfg.cap, n) then 0 else n - cfg.cap..n];
            BackfillFrom(cfg, rows, log, n).log == ImportAll(cfg, log, Reverse(ahead))
  {
    hide ImportAll, BackfillFrom, Backfilled;
    BackfillFromVisits(cfg, rows, log, n);
    BackfillIsCompleteIff(rows, n, cfg.limit, cfg.cap);
    BackfillVisitsNewest(rows, n, cfg.limit, cfg.cap);
    assert rows[0..n] == rows[..n];
  }

  lemma {:induction false} SliceBringsForeseen(cfg: Config, rows: seq<Row>, log: LocalLog, a: nat, b: nat, after: LocalLog)
    requires a <= b <= |rows| && OneClaimPerEvent(cfg, rows, log)
    requires after == ImportAll(cfg, log, rows[a..b]) || after == ImportAll(cfg, log, Reverse(rows[a..b]))
    ensures forall row | row in rows :: Covered(cfg, after, row) <==> Foreseen(cfg, log, rows[a..b], row)
  {
    hide ImportAll, OneClaimPerEvent, Covered, Foreseen;
    forall row | row in rows ensures Covered(cfg, after, row) <==> Foreseen(cfg, log, rows[a..b], row) {
      OneClaimPerPart(cfg, rows, log, a, b, row);
      ReversedForeseen(cfg, log, rows[a..b], row);
      ImportCoversIff(cfg, log, rows[a..b], row);
      ImportCoversIff(cfg, log, Reverse(rows[a..b]), row);
    }
  }

  lemma {:induction false} PullBringsForeseen(cfg: Config, s: State, after: LocalLog, saved: Checkpoint)
    requires ValidConfig(cfg) && Table(s.gateway) && OneClaimPerEvent(cfg, s.gateway, s.local)
    requires PulledAsPaged(cfg, s, after, saved)
    ensures forall row | row in s.gateway ::
              Covered(cfg, after, row) <==> Foreseen(cfg, s.local, Ahead(cfg, s.gateway, s.saved), row)
  {
    hide ImportAll, WalkFrom, BackfillFrom, OneClaimPerEvent, Covered, Foreseen, UpTo, Beneath, Table, CaughtUp;
    var rows, c := s.gateway, s.saved;
    if c.phase == Incremental && c.after.Some? {
      var n := UpTo(rows, c.after.value);
      WalkVisitsASlice(cfg, rows, s.local, n);
      SliceBringsForeseen(cfg, rows, s.local, n, n + WalkFrom(cfg, rows, s.local, n).visited, after);
    } else {
      var n := Beneath(rows, c.before);
      BackfillImportsAhead(cfg, rows, s.local, n);
      SliceBringsForeseen(cfg, rows, s.local, if Honest(cfg.limit, cfg.cap, n) then 0 else n - cfg.cap, n, after);
    }
  }

  /** Every row the gateway had is in the log already, or comes with the rows of the next pull. */
  ghost predicate NothingWillBeMissing(cfg: Config, s: State, pushed: seq<Row>) {
    forall row | row in s.gateway :: Foreseen(cfg, s.local, Ahead(cfg, pushed, s.saved), row)
  }

  /**
   * A push and a pull end with both sides equal exactly when every row the gateway had before is in the log already or comes
   * with the rows the pull imports: in either phase, resumed or not, honest pages or not.
   */
  lemma {:induction false} SyncConvergesIff(cfg: Config, s: State, list: seq<Key>, pushed: State, t: State)
    requires ValidConfig(cfg) && Inv(cfg, s) && s.loop.Idle? && IsPending(s.local, s.saved.pushAfter, list)
    requires OneClaimPerEvent(cfg, s.gateway, s.local)
    requires pushed == State(PublishAll(cfg, s.gateway, s.local, list), s.local,
                             s.saved.(pushAfter := pushed.saved.pushAfter), Idle)
    requires t.gateway == pushed.gateway && PulledAsPaged(cfg, pushed, t.local, t.saved)
    requires AllOnGateway(cfg, t.gateway, t.local)
    ensures Converged(cfg, t.gateway, t.local) <==> NothingWillBeMissing(cfg, s, t.gateway)
  {
    var rows := t.gateway;
    PendingIsLocal(s.local, s.saved.pushAfter, list);
    PublishAllReaches(cfg, s.gateway, s.local, list);
    hide PublishAll, OneClaimPerEvent, Covered, Foreseen, OnGateway, Inv, IsPending, PulledAsPaged, Table, Ahead;
    PushKeepsOneClaim(cfg, s, list) by { InvHasTable(cfg, s); }
    PullBringsForeseen(cfg, pushed, t.local, t.saved);
    AheadIgnoresPushes(cfg, rows, s.saved, pushed.saved.pushAfter);
    forall row | row in rows && row !in s.gateway ensures Foreseen(cfg, s.local, Ahead(cfg, rows, s.saved), row) {
      OwnIsForeseen(cfg, s.local, Ahead(cfg, rows, s.saved), row);
    }
  }

  lemma InvHasTable(cfg: Config, s: State)
    requires Inv(cfg, s)
    ensures Table(s.gateway)
  {
  }

  lemma AheadIgnoresPushes(cfg: Config, rows: seq<Row>, c: Checkpoint, p: Option<Key>)
    ensures Ahead(cfg, rows, c.(pushAfter := p)) == Ahead(cfg, rows, c)
  {
  }

  /** What a push and a pull that did as they should leave behind. */
  lemma {:induction false} SyncedWell(cfg: Config, s: State, list: seq<Key>, pushed: State, t: State)
    requires ValidConfig(cfg) && Inv(cfg, s) && s.loop.Idle? && IsPending(s.local, s.saved.pushAfter, list)
    requires pushed == State(PublishAll(cfg, s.gateway, s.local, list), s.local,
                             s.saved.(pushAfter := pushed.saved.pushAfter), Idle)
    requires t.gateway == pushed.gateway && t.loop.Idle? && PulledAsPaged(cfg, pushed, t.local, t.saved)
    requires PulledWell(cfg, pushed, t.local, t.saved, HonestPages(cfg, t.gateway, s.saved))
    ensures AllOnGateway(cfg, t.gateway, t.local)
    ensures var resumed := s.saved.phase == Backfill && s.saved.before.Some?;
            HonestPages(cfg, t.gateway, s.saved) ==>
              && (!resumed ==> Converged(cfg, t.gateway, t.local))
              && (resumed && OneClaimPerEvent(cfg, s.gateway, s.local) ==>
                    s.saved.after.Some? && (Converged(cfg, t.gateway, t.local) <==> NothingNewerMissing(cfg, s)))
              && PulledAll(cfg, pushed, t.local)
    ensures OneClaimPerEvent(cfg, s.gateway, s.local) ==>
              (Converged(cfg, t.gateway, t.local) <==> NothingWillBeMissing(cfg, s, t.gateway))
    ensures s.saved.phase == Incremental ==> SyncStep(cfg, s, list, t)
  {
    hide PublishAll, BackfillFrom, WalkFrom, Beneath, UpTo, Honest, Table, OneClaimPerEvent, Covered, OnGateway, IsPending;
    hide NothingNewerMissing, NothingWillBeMissing, Remaining, PushedPrefix;
    PushReachesEverything(cfg, s, list);
    if OneClaimPerEvent(cfg, s.gateway, s.local) {
      SyncConvergesIff(cfg, s, list, pushed, t);
    }
    if HonestPages(cfg, t.gateway, s.saved) && s.saved.phase == Backfill && s.saved.before.Some?
       && OneClaimPerEvent(cfg, s.gateway, s.local) {
      ResumedSyncConvergesIff(cfg, s, list);
    }
  }

  // ----- Syncing again and again -----

  /** What a whole sync does once the first backfill is over. */
  ghost predicate SyncStep(cfg: Config, s: State, list: seq<Key>, t: State) {
    && 1 <= cfg.limit && s.loop.Idle? && t.loop.Idle? && s.saved.phase == Incremental && s.saved.after.Some?
    && IsPending(s.local, s.saved.pushAfter, list)
    && t.gateway == PublishAll(cfg, s.gateway, s.local, list)
    && WalkedTo(cfg, s.(gateway := t.gateway), t.local, t.saved.(pushAfter := s.saved.pushAfter))
  }

  /** Every row is stored under the name this client would push its event as. */
  ghost predicate KeepsNames(cfg: Config, rows: seq<Row>) {
    forall row | row in rows :: cfg.remoteId(cfg.localId(row.key.id)) == row.key.id
  }

  lemma {:induction false} PublishKeepsNames(cfg: Config, rows: seq<Row>, log: LocalLog, list: seq<Key>)
    requires ValidConfig(cfg) && Table(rows) && KeepsNames(cfg, rows) && forall k | k in list :: k.id in log
    ensures KeepsNames(cfg, PublishAll(cfg, rows, log, list)) && Table(PublishAll(cfg, rows, log, list))
  {
    if list != [] {
      var n := |list| - 1;
      var last := list[n];
      PublishKeepsNames(cfg, rows, log, list[..n]);
      PublishKeepsTable(PublishAll(cfg, rows, log, list[..n]), ToRemote(cfg, last.id, log[last.id]));
      hide Publish, Table;
    }
  }

  /** Once everything local is on the gateway under its own name, pushing changes nothing. */
  lemma {:induction false} NothingNewToPush(cfg: Config, rows: seq<Row>, log: LocalLog, list: seq<Key>)
    requires ValidConfig(cfg) && KeepsNames(cfg, rows) && AllOnGateway(cfg, rows, log) && forall k | k in list :: k.id in log
    ensures PublishAll(cfg, rows, log, list) == rows
  {
    if list != [] {
      var n := |list| - 1;
      NothingNewToPush(cfg, rows, log, list[..n]);
      var last := list[n];
      assert last in list;
      var row :| row in rows && cfg.localId(row.key.id) == last.id;
      assert cfg.remoteId(last.id) == row.key.id;
    }
  }

  /** How far `i` pulls get from position `p` of `total` rows. */
  function Reach(cfg: Config, total: nat, p: nat, i: nat): nat
    requires p <= total
  {
    if i == 0 then p else if cfg.limit < cfg.cap then total else Min(total, p + i * cfg.cap)
  }

  lemma ReachNext(cfg: Config, total: nat, p: nat, i: nat)
    requires p <= total
    ensures var r := Reach(cfg, total, p, i);
            && p <= r <= total
            && Reach(cfg, total, p, i + 1) == if Honest(cfg.limit, cfg.cap, total - r) then total else r + cfg.cap
  {
    assert (i + 1) * cfg.cap == i * cfg.cap + cfg.cap;
    assert 0 <= i * cfg.cap;
  }

  /** One sync moves the cursor over the next rows and imports exactly those. */
  lemma {:induction false} SyncAdvances(cfg: Config, s: State, list: seq<Key>, t: State, p: nat)
    requires ValidConfig(cfg) && Table(t.gateway) && SyncStep(cfg, s, list, t) && p == UpTo(t.gateway, s.saved.after.value)
    ensures var q := if Honest(cfg.limit, cfg.cap, |t.gateway| - p) then |t.gateway| else p + cfg.cap;
            && p <= q <= |t.gateway| && UpTo(t.gateway, t.saved.after.value) == q
            && t.local == ImportAll(cfg, s.local, t.gateway[p..q])
  {
    hide PublishAll, ImportAll, WalkFrom, CaughtUp, UpTo, Table, IsPending;
    WalkVisitsASlice(cfg, t.gateway, s.local, p);
    var q := p + WalkFrom(cfg, t.gateway, s.local, p).visited;
    if q > p {
      KeyPositions(t.gateway, q - 1);
    }
  }

  /** Where the `i`-th of a series of syncs stands: the gateway settled after the first push, the log so far imported. */
  ghost predicate Stands(cfg: Config, first: State, rows: seq<Row>, p: nat, i: nat, s: State) {
    && p <= |rows| && s.gateway == rows && s.saved.phase == Incremental && s.saved.after.Some? && s.loop.Idle?
    && UpTo(rows, s.saved.after.value) == Reach(cfg, |rows|, p, i)
    && s.local == ImportAll(cfg, first.local, rows[p..Reach(cfg, |rows|, p, i)])
  }

  ghost predicate Settled(cfg: Config, first: State, rows: seq<Row>) {
    Table(rows) && KeepsNames(cfg, rows) && AllOnGateway(cfg, rows, first.local)
  }

  lemma {:induction false} NextSyncStands(cfg: Config, first: State, rows: seq<Row>, p: nat, i: nat, s: State,
                                          list: seq<Key>, t: State)
    requires ValidConfig(cfg) && Settled(cfg, first, rows) && Stands(cfg, first, rows, p, i, s) && SyncStep(cfg, s, list, t)
    ensures Stands(cfg, first, rows, p, i + 1, t)
  {
    hide ImportAll, UpTo, Table, KeepsNames, PublishAll;
    var r := Reach(cfg, |rows|, p, i);
    ReachNext(cfg, |rows|, p, i);
    hide Reach;
    SlicesAreRows(rows, p, r);
    SlicePulledIsKnown(cfg, first.local, rows, rows[p..r]);
    PendingIsLocal(s.local, s.saved.pushAfter, list);
    NothingNewToPush(cfg, rows, s.local, list);
    SyncAdvances(cfg, s, list, t, r);
    var q := Reach(cfg, |rows|, p, i + 1);
    ImportAllConcat(cfg, first.local, rows[p..r], rows[r..q]);
    assert rows[p..r] + rows[r..q] == rows[p..q];
  }

  lemma SlicesAreRows(rows: seq<Row>, a: nat, b: nat)
    requires a <= b <= |rows|
    ensures forall row | row in rows[a..b] :: row in rows
  {
  }

  lemma {:induction false} SlicePulledIsKnown(cfg: Config, log: LocalLog, rows: seq<Row>, visited: seq<Row>)
    requires AllOnGateway(cfg, rows, log) && forall row | row in visited :: row in rows
    ensures AllOnGateway(cfg, rows, ImportAll(cfg, log, visited))
  {
    ImportAllCovers(cfg, log, visited);
  }

  lemma PendingIsLocal(log: LocalLog, after: Option<Key>, list: seq<Key>)
    requires IsPending(log, after, list)
    ensures forall k | k in list :: k.id in log
  {
  }

  /** A series of whole syncs, with nobody else writing in between. */
  ghost predicate Series(cfg: Config, states: seq<State>, lists: seq<seq<Key>>) {
    |states| == |lists| + 1 && forall i | 0 <= i < |lists| :: SyncStep(cfg, states[i], lists[i], states[i + 1])
  }

  lemma {:induction false} SeriesStands(cfg: Config, states: seq<State>, lists: seq<seq<Key>>, i: nat)
    requires ValidConfig(cfg) && Series(cfg, states, lists) && 1 <= i <= |lists|
    requires Inv(cfg, states[0]) && KeepsNames(cfg, states[0].gateway)
    ensures var rows := states[1].gateway;
            && Settled(cfg, states[0], rows) && states[0].saved.after.Some?
            && Stands(cfg, states[0], rows, UpTo(rows, states[0].saved.after.value), i, states[i])
    decreases i
  {
    hide Inv, Stands, Settled, KeepsNames, Table;
    var s, t := states[0], states[1];
    assert SyncStep(cfg, states[i - 1], lists[i - 1], states[i - 1 + 1]);
    if i == 1 {
      FirstSyncStands(cfg, s, lists[0], t);
    } else {
      SeriesStands(cfg, states, lists, i - 1);
      NextSyncStands(cfg, s, t.gateway, UpTo(t.gateway, s.saved.after.value), i - 1, states[i - 1], lists[i - 1], states[i]);
    }
  }

  lemma {:induction false} FirstSyncStands(cfg: Config, s: State, list: seq<Key>, t: State)
    requires ValidConfig(cfg) && Inv(cfg, s) && KeepsNames(cfg, s.gateway) && SyncStep(cfg, s, list, t)
    ensures Settled(cfg, s, t.gateway)
    ensures Stands(cfg, s, t.gateway, UpTo(t.gateway, s.saved.after.value), 1, t)
  {
    PushReachesEverything(cfg, s, list);
    PendingIsLocal(s.local, s.saved.pushAfter, list);
    PublishKeepsNames(cfg, s.gateway, s.local, list);
    hide Inv, ImportAll, UpTo, Table, KeepsNames, PublishAll, OnGateway, WalkFrom, IsPending;
    var p := UpTo(t.gateway, s.saved.after.value);
    ReachNext(cfg, |t.gateway|, p, 0);
    SyncAdvances(cfg, s, list, t, p);
  }

  /** Nothing the log had stands for the newest row, and no other row does. */
  ghost predicate NewestIsNew(cfg: Config, rows: seq<Row>, log: LocalLog) {
    && rows != []
    && var row := rows[|rows| - 1];
       && row.claim.None? && cfg.localId(row.key.id) !in log
       && forall x | x in rows :: cfg.localId(x.key.id) == cfg.localId(row.key.id) ==> x == row
  }

  /** Enough syncs for the rows that are missing: one with honest pages, else one for each clamped page. */
  ghost predicate Enough(cfg: Config, missing: int, syncs: nat) {
    cfg.limit < cfg.cap || syncs * cfg.cap >= missing
  }

  /**
   * However wrong the pages are about what follows them, repeated syncs of a quiet gateway converge once there are as many
   * as missing rows divided by the clamp, rounded up; and if the newest row is really new, not before.
   */
  lemma {:induction false} RepeatedSyncsConverge(cfg: Config, states: seq<State>, lists: seq<seq<Key>>)
    requires ValidConfig(cfg) && Series(cfg, states, lists) && lists != []
    requires Inv(cfg, states[0]) && KeepsNames(cfg, states[0].gateway)
    ensures states[0].saved.after.Some?
    ensures var rows, last := states[1].gateway, states[|lists|];
            var missing := |rows| - UpTo(rows, states[0].saved.after.value);
            && last.gateway == rows
            && (Enough(cfg, missing, |lists|) ==> Converged(cfg, rows, last.local))
            && (NewestIsNew(cfg, rows, states[0].local) ==>
                  (Converged(cfg, rows, last.local) <==> Enough(cfg, missing, |lists|)))
  {
    hide Inv, ImportAll, UpTo, Table, KeepsNames, SyncStep;
    var k := |lists|;
    SeriesStands(cfg, states, lists, k);
    var s, rows, last := states[0], states[1].gateway, states[k];
    var p := UpTo(rows, s.saved.after.value);
    var r := Reach(cfg, |rows|, p, k);
    SlicesAreRows(rows, p, r);
    SlicePulledIsKnown(cfg, s.local, rows, rows[p..r]);
    if Enough(cfg, |rows| - p, k) {
      assert r == |rows|;
      FirstRowsAreCovered(cfg, states, lists);
      EverythingReached(cfg, s.local, rows, p);
      assert rows[p..|rows|] == rows[p..];
    } else if NewestIsNew(cfg, rows, s.local) {
      assert r < |rows|;
      NewestIsMissed(cfg, s.local, rows, p, r);
    }
  }

  lemma {:induction false} FirstRowsAreCovered(cfg: Config, states: seq<State>, lists: seq<seq<Key>>)
    requires ValidConfig(cfg) && Series(cfg, states, lists) && lists != [] && Inv(cfg, states[0])
    requires states[0].saved.after.Some? && Table(states[1].gateway)
    ensures SliceCovered(cfg, states[1].gateway, states[0].local, 0, UpTo(states[1].gateway, states[0].saved.after.value))
  {
    var s, rows := states[0], states[1].gateway;
    assert SyncStep(cfg, states[0], lists[0], states[0 + 1]);
    PendingIsLocal(s.local, s.saved.pushAfter, lists[0]);
    PushKeepsPulledRange(cfg, s, lists[0], s.saved.pushAfter);
    UpToSplits(rows, s.saved.after.value);
    hide PublishAll, Inv, IsPending, WalkFrom, UpTo;
    forall i | 0 <= i < UpTo(rows, s.saved.after.value) ensures Covered(cfg, s.local, rows[i]) {
      assert rows[i] in rows;
    }
  }

  lemma {:induction false} EverythingReached(cfg: Config, log: LocalLog, rows: seq<Row>, p: nat)
    requires p <= |rows| && SliceCovered(cfg, rows, log, 0, p)
    ensures forall row | row in rows :: Covered(cfg, ImportAll(cfg, log, rows[p..]), row)
  {
    hide ImportAll;
    ImportAllCovers(cfg, log, rows[p..]);
    forall row | row in rows ensures Covered(cfg, ImportAll(cfg, log, rows[p..]), row) {
      var i :| 0 <= i < |rows| && rows[i] == row;
      if i < p {
        CoveredGrows(cfg, log, ImportAll(cfg, log, rows[p..]), row);
      } else {
        assert rows[p..][i - p] == row;
      }
    }
  }

  lemma {:induction false} NewestIsMissed(cfg: Config, log: LocalLog, rows: seq<Row>, p: nat, r: nat)
    requires Table(rows) && p <= r < |rows| && NewestIsNew(cfg, rows, log)
    ensures !Converged(cfg, rows, ImportAll(cfg, log, rows[p..r]))
  {
    hide ImportAll;
    var row := rows[|rows| - 1];
    forall x | x in rows[p..r] ensures cfg.localId(x.key.id) != cfg.localId(row.key.id) {
      var i :| 0 <= i < r - p && rows[p..r][i] == x;
      assert rows[p + i] == x && Less(rows[p + i].key, row.key);
      assert x in rows && x != row;
    }
    assert row in rows;
    assert !Foreseen(cfg, log, rows[p..r], row);
    if Covered(cfg, ImportAll(cfg, log, rows[p..r]), row) {
      ImportCoversOnlyForeseen(cfg, log, rows[p..r], row);
    }
  }
}
