/**
 * The push and pull loops as they run, over the client's local log, its checkpoint file and the gateway's table.
 *
 * Every method with a `steps` out-parameter also shows that what it did is a run of `SyncMachine`, one durable or
 * visible action at a time, and a fair one as far as the client is concerned. A crash anywhere inside it is therefore a
 * prefix of that run followed by `Crash`, which `SyncMachine.CrashAnywhereKeepsInv` is about.
 */
module SyncClient {
  import opened Prelude
  import opened Ordering
  import opened Gateway
  import opened SyncMachine
  import opened SyncLoops
  import opened SyncConvergence

  datatype PushReport = PushReport(pushed: nat, deduplicated: nat)

  datatype PullReport = PullReport(imported: nat, skipped: nat, pages: nat)

  lemma SendAndSave(cfg: Config, start: State, steps: seq<Step>, s: State)
    requires Runs(cfg, true, start, steps, s)
    requires s.loop.Pushing? && s.loop.pending != [] && !s.loop.sent && s.loop.pending[0].id in s.local
    ensures var k := s.loop.pending[0];
            Runs(cfg, true, start, steps + [SendOne, SavePushed],
                 State(Publish(s.gateway, ToRemote(cfg, k.id, s.local[k.id])), s.local,
                       s.saved.(pushAfter := Some(k)), Pushing(s.loop.pending[1..], false)))
  {
    hide Runs;
    var sent := After(cfg, s, SendOne);
    RunsOn(cfg, true, start, steps, s, SendOne);
    RunsOn(cfg, true, start, steps + [SendOne], sent, SavePushed);
    assert steps + [SendOne] + [SavePushed] == steps + [SendOne, SavePushed];
  }

  lemma NothingYet(cfg: Config, s: State)
    ensures Runs(cfg, true, s, [], s)
  {
  }

  lemma PushStarts(cfg: Config, s: State, list: seq<Key>)
    requires s.loop.Idle? && IsPending(s.local, s.saved.pushAfter, list)
    ensures Runs(cfg, true, s, [StartPush(list)], s.(loop := Pushing(list, false)))
  {
    hide IsPending;
    RunsOn(cfg, true, s, [], s, StartPush(list));
    assert [] + [StartPush(list)] == [StartPush(list)];
  }

  lemma PushEnds(cfg: Config, start: State, steps: seq<Step>, s: State)
    requires Runs(cfg, true, start, steps, s) && s.loop.Pushing? && s.loop.pending == []
    ensures Runs(cfg, true, start, steps + [Finish], s.(loop := Idle))
  {
    hide Runs;
    RunsOn(cfg, true, start, steps, s, Finish);
  }

  lemma PullStarts(cfg: Config, fair: bool, s: State)
    requires s.loop.Idle?
    ensures Runs(cfg, fair, s, [StartPull],
                 s.(loop := if s.saved.phase == Incremental && s.saved.after.Some? then Walking(s.saved.after.value)
                            else Backfilling(s.saved.before, s.saved.after)))
  {
    RunsOn(cfg, fair, s, [], s, StartPull);
    assert [] + [StartPull] == [StartPull];
  }

  lemma BackfillEnds(cfg: Config, fair: bool, start: State, steps: seq<Step>, s: State)
    requires Runs(cfg, fair, start, steps, s) && s.loop.Backfilling?
    requires OlderPage(s.gateway, s.loop.before, cfg.limit, cfg.cap).events == []
    requires fair ==> Honest(cfg.limit, cfg.cap, Beneath(s.gateway, s.loop.before))
    ensures Runs(cfg, fair, start, steps + [FetchOlder], s.(loop := Idle))
  {
    hide Runs;
    RunsOn(cfg, fair, start, steps, s, FetchOlder);
  }

  lemma WalkEnds(cfg: Config, start: State, steps: seq<Step>, s: State)
    requires ValidConfig(cfg) && Runs(cfg, true, start, steps, s) && s.loop.Walking?
    requires NewerPage(s.gateway, s.loop.cursor, cfg.limit, cfg.cap).events == []
    ensures Runs(cfg, true, start, steps + [FetchNewer], s.(loop := Idle))
  {
    hide Runs;
    RunsOn(cfg, true, start, steps, s, FetchNewer);
  }

  /** A fair run is a run. */
  lemma {:induction false} RunsEitherWay(cfg: Config, fair: bool, s: State, steps: seq<Step>, t: State)
    requires Runs(cfg, true, s, steps, t)
    ensures Runs(cfg, fair, s, steps, t)
  {
  }

  /** Fetching from further down leaves no more to be dishonest about. */
  lemma HonestStays(limit: nat, cap: nat, more: nat, less: nat)
    requires Honest(limit, cap, more) && less <= more
    ensures Honest(limit, cap, less)
  {
  }

  lemma FairRunsKeepInv(cfg: Config, fair: bool, s: State, steps: seq<Step>, t: State)
    requires ValidConfig(cfg) && Inv(cfg, s) && Runs(cfg, fair, s, steps, t)
    ensures fair ==> Inv(cfg, t)
  {
    hide Inv;
    if fair {
      RunsKeepInv(cfg, s, steps, t);
    }
  }

  lemma InvParts(cfg: Config, s: State)
    requires Inv(cfg, s)
    ensures Table(s.gateway) && PulledRange(cfg, s)
  {
  }

  /** Honesty is about the pull cursors alone. */
  lemma HonestyIgnoresPushes(cfg: Config, rows: seq<Row>, c: Checkpoint, p: Option<Key>)
    ensures HonestPages(cfg, rows, c.(pushAfter := p)) == HonestPages(cfg, rows, c)
    ensures HonestBackfill(cfg, rows, c.(pushAfter := p)) == HonestBackfill(cfg, rows, c)
  {
  }

  /** A push leaves the pull cursors as good as they were. */
  lemma {:induction false} PushedRange(cfg: Config, s: State, list: seq<Key>, p: Option<Key>)
    requires ValidConfig(cfg) && Inv(cfg, s) && s.loop.Idle? && IsPending(s.local, s.saved.pushAfter, list)
    ensures Table(PublishAll(cfg, s.gateway, s.local, list))
    ensures PulledRange(cfg, State(PublishAll(cfg, s.gateway, s.local, list), s.local, s.saved.(pushAfter := p), Idle))
  {
    PublishAllReaches(cfg, s.gateway, s.local, list);
    PushKeepsPulledRange(cfg, s, list, p);
  }

  lemma {:induction false} OneIsSent(cfg: Config, rows: seq<Row>, log: LocalLog, k: Key)
    requires k.id in log
    ensures k.at == log[k.id].at && Table(rows) ==>
              Sent(cfg, rows, log, [k], Publish(rows, ToRemote(cfg, k.id, log[k.id])))
  {
    if k.at == log[k.id].at && Table(rows) {
      assert forall row, i :: !SentBy(cfg, rows, log, [], i, row);
      SentNext(cfg, rows, log, [], k, rows);
      assert [] + [k] == [k];
    }
  }

  lemma {:induction false} PushIsSent(cfg: Config, rows: seq<Row>, log: LocalLog, list: seq<Key>, saved: Checkpoint,
                                      checkpointed: bool)
    requires ValidConfig(cfg) && Table(rows) && IsPending(log, if checkpointed then saved.pushAfter else None, list)
    ensures var after := PublishAll(cfg, rows, log, list);
            && Sent(cfg, rows, log, list, after)
            && forall k | k in list && (forall row | row in rows :: row.key.id != cfg.remoteId(k.id)) ::
                 exists row :: row in after && SentAs(cfg, k, log[k.id], row)
  {
    PublishAllSends(cfg, rows, log, list);
    var after := PublishAll(cfg, rows, log, list);
    hide Sent, SentAs, PublishAll, Table;
    forall k | k in list && forall row | row in rows :: row.key.id != cfg.remoteId(k.id)
      ensures exists row :: row in after && SentAs(cfg, k, log[k.id], row)
    {
      EachIsSent(cfg, rows, log, list, after, k);
    }
  }

  lemma {:induction false} PullCameFromAhead(cfg: Config, s: State, after: LocalLog, saved: Checkpoint)
    requires ValidConfig(cfg) && PulledAsPaged(cfg, s, after, saved)
    ensures CameFrom(cfg, s.local, Ahead(cfg, s.gateway, s.saved), after)
  {
    hide ImportAll, WalkFrom, BackfillFrom, UpTo, Beneath, CaughtUp, ReceivedAs;
    var rows, c := s.gateway, s.saved;
    if c.phase == Incremental && c.after.Some? {
      var n := UpTo(rows, c.after.value);
      WalkVisitsASlice(cfg, rows, s.local, n);
      ImportAllCameFrom(cfg, s.local, rows[n..n + WalkFrom(cfg, rows, s.local, n).visited]);
    } else {
      var n := Beneath(rows, c.before);
      BackfillImportsAhead(cfg, rows, s.local, n);
      var ahead := rows[if Honest(cfg.limit, cfg.cap, n) then 0 else n - cfg.cap..n];
      ImportAllCameFrom(cfg, s.local, Reverse(ahead));
      ReverseElements(ahead);
    }
  }

  class Client {
    const cfg: Config
    var rows: seq<Row>
    var log: LocalLog
    var saved: Checkpoint

    constructor (cfg: Config, rows: seq<Row>, log: LocalLog)
      ensures this.cfg == cfg && this.rows == rows && this.log == log && saved == FRESH
    {
      this.cfg := cfg;
      this.rows := rows;
      this.log := log;
      this.saved := FRESH;
    }

    ghost function Now(loop: Loop): State
      reads this
    {
      State(rows, log, saved, loop)
    }

    ghost predicate Listed(list: seq<Key>, after: Option<Key>, done: set<int>)
      reads this
      requires done <= log.Keys
    {
      forall k :: k in list <==> k.id in done && log[k.id].at == k.at && (after.None? || Less(after.value, k))
    }

    /** `list`, `sort_by` and `retain`: the events a push has to send, in order. */
    method PendingEvents(after: Option<Key>) returns (list: seq<Key>)
      ensures IsPending(log, after, list)
    {
      list := [];
      var left: set<int> := log.Keys;
      while |left| > 0
        invariant left <= log.Keys
        invariant StrictlySorted(list, k => k)
        invariant Listed(list, after, log.Keys - left)
        decreases |left|
      {
        assert exists u: int :: u in left by { SomeId(left); }
        var u: int :| u in left;
        left := left - {u};
        var k := Key(log[u].at, u);
        if after.None? || Less(after.value, k) {
          InsertSorted(k, list, x => x);
          InsertElements(k, list, x => x);
          ghost var was := list;
          list := Insert(k, list, x => x);
          forall x ensures x in list <==> x in was || x == k {
            assert x in list <==> x in multiset(list);
          }
        }
      }
      assert forall i | 0 <= i < |list| :: (k => k)(list[i]) == list[i];
    }

    /** Append one event on the gateway, then move the push cursor past it. */
    method SendOneEvent(checkpointed: bool, pending: seq<Key>, ghost start: State, ghost steps: seq<Step>)
      returns (deduplicated: bool, ghost steps': seq<Step>)
      requires pending != [] && pending[0].id in log
      requires checkpointed ==> Runs(cfg, true, start, steps, Now(Pushing(pending, false)))
      modifies this`rows, this`saved
      ensures var row := ToRemote(cfg, pending[0].id, log[pending[0].id]);
              rows == Publish(old(rows), row) && deduplicated == Known(old(rows), row.key.id)
      ensures saved == old(saved).(pushAfter := if checkpointed then Some(pending[0]) else old(saved).pushAfter)
      ensures pending[0].at == log[pending[0].id].at && Table(old(rows)) ==> Sent(cfg, old(rows), log, [pending[0]], rows)
      ensures checkpointed ==> Runs(cfg, true, start, steps', Now(Pushing(pending[1..], false)))
    {
      var row := ToRemote(cfg, pending[0].id, log[pending[0].id]);
      deduplicated := Known(rows, row.key.id);
      steps' := steps;
      if checkpointed {
        SendAndSave(cfg, start, steps, Now(Pushing(pending, false)));
        steps' := steps + [SendOne, SavePushed];
        saved := saved.(pushAfter := Some(pending[0]));
      }
      OneIsSent(cfg, rows, log, pending[0]);
      rows := Publish(rows, row);
    }

    method PushImpl(checkpointed: bool) returns (report: PushReport, ghost list: seq<Key>, ghost steps: seq<Step>)
      requires ValidConfig(cfg) && Table(rows)
      modifies this`rows, this`saved
      ensures IsPending(log, if checkpointed then old(saved).pushAfter else None, list)
      ensures rows == PublishAll(cfg, old(rows), log, list) && Sent(cfg, old(rows), log, list, rows)
      ensures forall k | k in list && (forall row | row in old(rows) :: row.key.id != cfg.remoteId(k.id)) ::
                exists row :: row in rows && SentAs(cfg, k, log[k.id], row)
      ensures report.pushed + report.deduplicated == |list|
      ensures report.pushed == |rows| - |old(rows)|
      ensures saved == old(saved).(pushAfter := if checkpointed && list != [] then Some(list[|list| - 1])
                                                else old(saved).pushAfter)
      ensures checkpointed ==> Runs(cfg, true, old(Now(Idle)), steps, Now(Idle))
    {
      hide Runs, Sent, SentAs, IsPending, Table, Known;
      var events := PendingEvents(if checkpointed then saved.pushAfter else None);
      list := events;
      ghost var start := Now(Idle);
      steps := [];
      if checkpointed {
        PushStarts(cfg, start, events);
        steps := [StartPush(events)];
      }
      report := PushReport(0, 0);
      var i := 0;
      assert events[..0] == [] && events[0..] == events;
      while i < |events|
        invariant 0 <= i <= |events|
        invariant rows == PublishAll(cfg, old(rows), log, events[..i])
        invariant |rows| == |old(rows)| + report.pushed
        invariant report.pushed + report.deduplicated == i
        invariant saved == old(saved).(pushAfter := if checkpointed && i > 0 then Some(events[i - 1])
                                                    else old(saved).pushAfter)
        invariant checkpointed ==> Runs(cfg, true, start, steps, Now(Pushing(events[i..], false)))
      {
        var deduplicated;
        deduplicated, steps := SendOneEvent(checkpointed, events[i..], start, steps);
        if deduplicated {
          report := report.(deduplicated := report.deduplicated + 1);
        } else {
          report := report.(pushed := report.pushed + 1);
        }
        assert events[..i + 1][..i] == events[..i];
        assert events[i..][1..] == events[i + 1..];
        i := i + 1;
      }
      assert events[..i] == events;
      PushIsSent(cfg, old(rows), log, events, start.saved, checkpointed);
      if checkpointed {
        assert events[i..] == [];
        PushEnds(cfg, start, steps, Now(Pushing([], false)));
        steps := steps + [Finish];
      }
    }

    /** Insert one row unless it is there or blocked. */
    method ImportOneRow(queue: seq<Row>, ghost at: Loop, ghost start: State, ghost steps: seq<Step>)
      returns (inserted: bool, ghost steps': seq<Step>)
      requires (at.Importing? || at.Catching?) && queue != []
      requires Runs(cfg, true, start, steps, Now(at.(queue := queue)))
      modifies this`log
      ensures log == Import(cfg, old(log), queue[0])
      ensures CameFrom(cfg, old(log), [queue[0]], log)
      ensures |log| == |old(log)| + if inserted then 1 else 0
      ensures Runs(cfg, true, start, steps', Now(at.(queue := queue[1..])))
    {
      hide Runs, Taken;
      RunsOn(cfg, true, start, steps, Now(at.(queue := queue)), ImportOne);
      steps' := steps + [ImportOne];
      ImportCameFrom(cfg, log, queue[0]);
      inserted := !Covered(cfg, log, queue[0]);
      log := Import(cfg, log, queue[0]);
    }

    /** Import one page, counting what was new. */
    method ImportPage(events: seq<Row>, ghost at: Loop) returns (imported: nat, skipped: nat, ghost steps: seq<Step>)
      requires (at.Importing? || at.Catching?) && at.queue == events
      modifies this`log
      ensures log == ImportAll(cfg, old(log), events) && CameFrom(cfg, old(log), events, log)
      ensures imported + skipped == |events| && |log| == |old(log)| + imported
      ensures Runs(cfg, true, old(Now(at)), steps, Now(at.(queue := [])))
    {
      hide Runs, Import;
      imported, skipped, steps := 0, 0, [];
      var i := 0;
      ghost var start := Now(at);
      assert events[..0] == [] && events[0..] == events;
      NothingYet(cfg, start);
      while i < |events|
        invariant 0 <= i <= |events|
        invariant log == ImportAll(cfg, old(log), events[..i])
        invariant imported + skipped == i && |log| == |old(log)| + imported
        invariant Runs(cfg, true, start, steps, Now(at.(queue := events[i..])))
      {
        var inserted;
        inserted, steps := ImportOneRow(events[i..], at, start, steps);
        if inserted {
          imported := imported + 1;
        } else {
          skipped := skipped + 1;
        }
        assert events[i..][1..] == events[i + 1..];
        assert events[..i + 1][..i] == events[..i];
        i := i + 1;
      }
      assert events[..i] == events;
      assert events[i..] == [];
      ImportAllCameFrom(cfg, start.local, events);
    }

    /** Import a backfill page, then move the durable cursors past it. */
    method TakeOlder(checkpointed: bool, before: Option<Key>, latest: Option<Key>, page: Page,
                     ghost fair: bool, ghost start: State, ghost steps: seq<Step>)
      returns (imported: nat, skipped: nat, newest: Key, ghost steps': seq<Step>)
      requires page == OlderPage(rows, before, cfg.limit, cfg.cap) && page.events != [] && page.next.Some?
      requires checkpointed ==> Runs(cfg, fair, start, steps, Now(Backfilling(before, latest)))
      requires fair ==> Honest(cfg.limit, cfg.cap, Beneath(rows, before))
      modifies this`log, this`saved
      ensures newest == if latest.None? then page.events[0].key else latest.value
      ensures log == ImportAll(cfg, old(log), page.events)
      ensures imported + skipped == |page.events| && |log| == |old(log)| + imported
      ensures saved == if !checkpointed then old(saved)
                       else if page.hasMore then old(saved).(before := page.next, after := Some(newest))
                       else old(saved).(phase := Incremental, before := None, after := Some(newest))
      ensures checkpointed ==>
                Runs(cfg, fair, start, steps', Now(if page.hasMore then Backfilling(page.next, Some(newest)) else Idle))
    {
      steps' := steps;
      newest := if latest.None? then page.events[0].key else latest.value;
      ghost var at := Importing(page.events, page.hasMore, page.next.value, newest);
      if checkpointed {
        RunsOn(cfg, fair, start, steps', Now(Backfilling(before, latest)), FetchOlder);
        steps' := steps' + [FetchOlder];
      }
      ghost var unread := Now(at);
      ghost var imports;
      imported, skipped, imports := ImportPage(page.events, at);
      if checkpointed {
        ghost var read := Now(Importing([], page.hasMore, page.next.value, newest));
        RunsEitherWay(cfg, fair, unread, imports, read);
        RunsThrough(cfg, fair, start, steps', unread, imports, read);
        RunsOn(cfg, fair, start, steps' + imports, read, SaveOlder);
        steps' := steps' + imports + [SaveOlder];
        if page.hasMore {
          saved := saved.(before := page.next, after := Some(newest));
        } else {
          saved := saved.(phase := Incremental, before := None, after := Some(newest));
        }
      }
    }

    method TakeNewer(cursor: Key, page: Page, ghost start: State, ghost steps: seq<Step>)
      returns (imported: nat, skipped: nat, ghost steps': seq<Step>)
      requires page == NewerPage(rows, cursor, cfg.limit, cfg.cap) && page.next.Some?
      requires Runs(cfg, true, start, steps, Now(Walking(cursor)))
      modifies this`log, this`saved
      ensures log == ImportAll(cfg, old(log), page.events)
      ensures imported + skipped == |page.events| && |log| == |old(log)| + imported
      ensures saved == old(saved).(after := page.next)
      ensures Runs(cfg, true, start, steps', Now(if page.hasMore then Walking(page.next.value) else Idle))
    {
      ghost var at := Catching(page.events, page.hasMore, page.next.value);
      RunsOn(cfg, true, start, steps, Now(Walking(cursor)), FetchNewer);
      steps' := steps + [FetchNewer];
      ghost var unread := Now(at);
      ghost var imports;
      imported, skipped, imports := ImportPage(page.events, at);
      ghost var read := Now(Catching([], page.hasMore, page.next.value));
      RunsThrough(cfg, true, start, steps', unread, imports, read);
      RunsOn(cfg, true, start, steps' + imports, read, SaveNewer);
      steps' := steps' + imports + [SaveNewer];
      saved := saved.(after := page.next);
    }

    method PullBackfill(checkpointed: bool) returns (report: PullReport, ghost steps: seq<Step>)
      requires ValidConfig(cfg) && Table(rows)
      requires checkpointed ==> !(saved.phase == Incremental && saved.after.Some?)
      modifies this`log, this`saved
      ensures var n := Beneath(rows, if checkpointed then old(saved).before else None);
              && Outcome(log, report.imported + report.skipped, report.pages) == BackfillFrom(cfg, rows, old(log), n)
              && saved == if !checkpointed || n == 0 then old(saved) else
                            old(saved).(phase := Incremental, before := None,
                                        after := if old(saved).after.None? then Some(rows[n - 1].key) else old(saved).after)
      ensures report.imported == |log| - |old(log)|
      ensures checkpointed ==>
                Runs(cfg, Honest(cfg.limit, cfg.cap, Beneath(rows, old(saved).before)), old(Now(Idle)), steps, Now(Idle))
    {
      hide Runs, After, Enabled, ImportAll, OlderPage, BackfillFrom, Table, Beneath, Honest;
      var before := if checkpointed then saved.before else None;
      var latest := if checkpointed then saved.after else None;
      ghost var start := Now(Idle);
      ghost var fair := Honest(cfg.limit, cfg.cap, Beneath(rows, before));
      ghost var before0, latest0, n := before, latest, Beneath(rows, before);
      ghost var newest0 := if latest.Some? then latest.value else if n > 0 then rows[n - 1].key else Key(0, 0);
      ghost var total := BackfillFrom(cfg, rows, log, n);
      ghost var rest := total;
      ghost var started := false;
      report, steps := PullReport(0, 0, 0), [];
      if checkpointed {
        PullStarts(cfg, fair, start);
        steps := [StartPull];
      }
      var more := true;
      while more
        invariant total.visited == report.imported + report.skipped + rest.visited
        invariant total.pages == report.pages + rest.pages && total.log == rest.log
        invariant rest == if more then BackfillFrom(cfg, rows, log, Beneath(rows, before)) else Outcome(log, 0, 0)
        invariant report.imported == |log| - |old(log)|
        invariant started ==> n > 0 && latest == Some(newest0) && (more ==> Beneath(rows, before) > 0)
        invariant !started ==> saved == old(saved) && (!more ==> n == 0)
        invariant !started && more ==> before == before0 && latest == latest0
        invariant started && checkpointed ==>
                    saved == if more then old(saved).(before := before, after := latest)
                             else old(saved).(phase := Incremental, before := None, after := latest)
        invariant !checkpointed ==> saved == old(saved)
        invariant more && fair ==> Honest(cfg.limit, cfg.cap, Beneath(rows, before))
        invariant checkpointed ==> Runs(cfg, fair, start, steps, Now(if more then Backfilling(before, latest) else Idle))
        decreases more, Beneath(rows, before)
      {
        var page := OlderPage(rows, before, cfg.limit, cfg.cap);
        NothingOlder(cfg, rows, log, before);
        if page.events == [] {
          if checkpointed {
            BackfillEnds(cfg, fair, start, steps, Now(Backfilling(before, latest)));
            steps := steps + [FetchOlder];
          }
          more := false;
        } else {
          OlderPageAdvances(cfg, rows, log, before);
          if fair {
            HonestStays(cfg.limit, cfg.cap, Beneath(rows, before), Beneath(rows, page.next));
          }
          assert newest0 == if latest.None? then page.events[0].key else latest.value;
          var imported, skipped, newest;
          imported, skipped, newest, steps := TakeOlder(checkpointed, before, latest, page, fair, start, steps);
          report := PullReport(report.imported + imported, report.skipped + skipped, report.pages + 1);
          latest, started, more := Some(newest), true, page.hasMore;
          if more {
            before := page.next;
          }
          rest := if more then BackfillFrom(cfg, rows, log, Beneath(rows, before)) else Outcome(log, 0, 0);
        }
      }
    }

    method PullIncremental() returns (report: PullReport, ghost steps: seq<Step>)
      requires ValidConfig(cfg) && Table(rows)
      requires saved.phase == Incremental && saved.after.Some?
      modifies this`log, this`saved
      ensures var n := UpTo(rows, old(saved).after.value);
              var visited := report.imported + report.skipped;
              && Outcome(log, visited, report.pages) == WalkFrom(cfg, rows, old(log), n)
              && n + visited <= |rows|
              && saved == old(saved).(after := if visited == 0 then old(saved).after else Some(rows[n + visited - 1].key))
      ensures report.imported == |log| - |old(log)|
      ensures Runs(cfg, true, old(Now(Idle)), steps, Now(Idle))
    {
      hide Runs, After, Enabled, ImportAll, NewerPage, WalkFrom, Table, UpTo, Served, Fetched, Less, AtMost;
      var cursor := saved.after.value;
      ghost var start := Now(Idle);
      ghost var n := UpTo(rows, cursor);
      ghost var total := WalkFrom(cfg, rows, log, n);
      ghost var rest, reached := total, n;
      report := PullReport(0, 0, 0);
      PullStarts(cfg, true, start);
      steps := [StartPull];
      var more := true;
      while more
        invariant total.visited == report.imported + report.skipped + rest.visited
        invariant total.pages == report.pages + rest.pages && total.log == rest.log
        invariant reached == n + report.imported + report.skipped <= |rows| && reached == UpTo(rows, cursor)
        invariant rest == if more then WalkFrom(cfg, rows, log, reached) else Outcome(log, 0, 0)
        invariant report.imported == |log| - |old(log)|
        invariant saved == old(saved).(after := Some(cursor))
        invariant Some(cursor) == if reached == n then old(saved).after else Some(rows[reached - 1].key)
        invariant Runs(cfg, true, start, steps, Now(if more then Walking(cursor) else Idle))
        decreases if more then |rows| - reached + 1 else 0
      {
        var page := NewerPage(rows, cursor, cfg.limit, cfg.cap);
        NothingNewer(cfg, rows, log, cursor);
        if page.events == [] {
          WalkEnds(cfg, start, steps, Now(Walking(cursor)));
          steps := steps + [FetchNewer];
          more := false;
        } else {
          NewerPageAdvances(cfg, rows, log, cursor);
          var imported, skipped;
          imported, skipped, steps := TakeNewer(cursor, page, start, steps);
          report := PullReport(report.imported + imported, report.skipped + skipped, report.pages + 1);
          cursor, more, reached := page.next.value, page.hasMore, reached + |page.events|;
          rest := if more then WalkFrom(cfg, rows, log, reached) else Outcome(log, 0, 0);
        }
      }
    }

    /** Pull, resuming from the checkpoint file. */
    method PullWithCheckpoint() returns (report: PullReport, ghost steps: seq<Step>)
      requires ValidConfig(cfg) && Table(rows) && PulledRange(cfg, Now(Idle))
      modifies this`log, this`saved
      ensures Runs(cfg, HonestBackfill(cfg, rows, old(saved)), old(Now(Idle)), steps, Now(Idle))
      ensures report.imported == |log| - |old(log)|
      ensures PulledWell(cfg, old(Now(Idle)), log, saved, HonestPages(cfg, rows, old(saved)))
      ensures PulledAsPaged(cfg, old(Now(Idle)), log, saved)
      ensures CameFrom(cfg, old(log), Ahead(cfg, rows, old(saved)), log)
    {
      hide Runs, Table, BackfillFrom, WalkFrom, Beneath, UpTo, PulledWell, Served, Fetched, Honest;
      ghost var s := Now(Idle);
      RangeShape(cfg, s);
      hide PulledRange;
      if saved.phase == Incremental && saved.after.Some? {
        report, steps := PullIncremental();
        IncrementalPullsWell(cfg, s, log, saved);
        RunsEitherWay(cfg, HonestBackfill(cfg, rows, s.saved), s, steps, Now(Idle));
      } else {
        report, steps := PullBackfill(true);
        BackfillPullsWell(cfg, s, log, saved);
      }
      PullCameFromAhead(cfg, s, log, saved);
    }

    /**
     * Push, then pull. Both sides end up equal exactly when every row of the gateway was in the log before, or is among the
     * rows this pull imports. With honest pages that is always so, unless this resumes a half-done backfill: then it is so
     * exactly when nothing was missing above the backfill's first page. No completed sync leaves a half-done backfill behind,
     * and once the first is over nothing is ever lost, whatever the pages claim.
     */
    method SyncWithCheckpoint() returns (push: PushReport, pull: PullReport, ghost list: seq<Key>, ghost steps: seq<Step>)
      requires ValidConfig(cfg) && Inv(cfg, Now(Idle))
      modifies this`rows, this`log, this`saved
      ensures IsPending(old(log), old(saved).pushAfter, list)
      ensures rows == PublishAll(cfg, old(rows), old(log), list) && Sent(cfg, old(rows), old(log), list, rows)
      ensures forall k | k in list && (forall row | row in old(rows) :: row.key.id != cfg.remoteId(k.id)) ::
                exists row :: row in rows && SentAs(cfg, k, old(log)[k.id], row)
      ensures CameFrom(cfg, old(log), Ahead(cfg, rows, old(saved)), log)
      ensures Runs(cfg, HonestBackfill(cfg, rows, old(saved)), old(Now(Idle)), steps, Now(Idle))
      ensures HonestBackfill(cfg, rows, old(saved)) ==> Inv(cfg, Now(Idle))
      ensures AllOnGateway(cfg, rows, log)
      ensures pull.imported == |log| - |old(log)| && push.pushed == |rows| - |old(rows)|
      ensures var resumed := old(saved).phase == Backfill && old(saved).before.Some?;
              HonestPages(cfg, rows, old(saved)) ==>
                && (!resumed ==> Converged(cfg, rows, log))
                && (resumed && OneClaimPerEvent(cfg, old(rows), old(log)) ==>
                      old(saved).after.Some? && (Converged(cfg, rows, log) <==> NothingNewerMissing(cfg, old(Now(Idle)))))
                && PulledAll(cfg, old(Now(Idle)).(gateway := rows), log)
      ensures OneClaimPerEvent(cfg, old(rows), old(log)) ==>
                (Converged(cfg, rows, log) <==> NothingWillBeMissing(cfg, old(Now(Idle)), rows))
      ensures !(saved.phase == Backfill && saved.before.Some?)
      ensures old(saved).phase == Incremental ==> SyncStep(cfg, old(Now(Idle)), list, Now(Idle))
    {
      hide Runs, PublishAll, Inv, IsPending, AllOnGateway, HonestPages, HonestBackfill, PulledAsPaged, Table, SyncStep;
      hide OneClaimPerEvent, NothingNewerMissing, NothingWillBeMissing, Converged, PulledRange, Sent, SentAs, CameFrom, Ahead;
      ghost var s := Now(Idle);
      ghost var first, second;
      InvParts(cfg, s);
      push, list, first := PushImpl(true);
      PushedRange(cfg, s, list, saved.pushAfter);
      ghost var pushed := Now(Idle);
      HonestyIgnoresPushes(cfg, rows, s.saved, saved.pushAfter);
      AheadIgnoresPushes(cfg, rows, s.saved, saved.pushAfter);
      pull, second := PullWithCheckpoint();
      SyncedWell(cfg, s, list, pushed, Now(Idle));
      steps := first + second;
      ghost var fair := HonestBackfill(cfg, rows, s.saved);
      RunsEitherWay(cfg, fair, s, first, pushed);
      RunsThrough(cfg, fair, s, first, pushed, second, Now(Idle));
      FairRunsKeepInv(cfg, fair, s, steps, Now(Idle));
    }
  }
}
