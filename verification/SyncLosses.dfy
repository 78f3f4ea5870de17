/** What exactly is lost when the hypotheses of `SyncMachine` do not hold, with runs that lose it. */
module SyncLosses {
  import opened Prelude
  import opened Ordering
  import opened Gateway
  import opened SyncMachine

  /** A client that writes everything under its own name. */
  function Plain(limit: nat, cap: nat): Config {
    Config(limit, cap, 0, x => x, x => x, x => x, x => x)
  }

  // ----- Writes behind a push -----

  /** What is left to do of a push. */
  function RestOfPush(loop: Loop): seq<Step>
    decreases if loop.Pushing? then |loop.pending| else 0
  {
    if !loop.Pushing? then []
    else if loop.pending == [] then [Finish]
    else (if loop.sent then [SavePushed] else [SendOne, SavePushed]) + RestOfPush(Pushing(loop.pending[1..], false))
  }

  /** A push that will not send event `u`. */
  ghost predicate Overlooks(cfg: Config, s: State, u: int) {
    && ValidConfig(cfg) && Table(s.gateway) && u in s.local && !OnGateway(cfg, s.gateway, u)
    && s.loop.Pushing? && (s.loop.sent ==> s.loop.pending != [])
    && forall k | k in s.loop.pending :: k.id in s.local && k.id != u
  }

  /** The event is still missing when the push is over, and the cursor is at the last key pushed. */
  ghost predicate Overlooked(cfg: Config, s: State, u: int, t: State) {
    && s.loop.Pushing? && t.loop.Idle? && t.local == s.local && Table(t.gateway) && !OnGateway(cfg, t.gateway, u)
    && t.saved.pushAfter == if s.loop.pending == [] then s.saved.pushAfter else Some(s.loop.pending[|s.loop.pending| - 1])
  }

  lemma SendingOverlooks(cfg: Config, s: State, u: int)
    requires Overlooks(cfg, s, u) && Enabled(s, SendOne)
    ensures Overlooks(cfg, After(cfg, s, SendOne), u)
  {
    var k := s.loop.pending[0];
    assert k in s.loop.pending;
    PublishKeepsTable(s.gateway, ToRemote(cfg, k.id, s.local[k.id]));
    hide Publish, Table;
  }

  /** The head of the push is sent, unless it was already, and saved. */
  lemma HeadIsPushed(cfg: Config, s: State, u: int) returns (m: State)
    requires Overlooks(cfg, s, u) && s.loop.pending != []
    ensures Runs(cfg, false, s, if s.loop.sent then [SavePushed] else [SendOne, SavePushed], m)
    ensures Overlooks(cfg, m, u) && m.local == s.local && m.loop == Pushing(s.loop.pending[1..], false)
    ensures m.saved.pushAfter == Some(s.loop.pending[0])
  {
    var k := s.loop.pending[0];
    assert k in s.loop.pending;
    assert forall x | x in s.loop.pending[1..] :: x in s.loop.pending;
    var sent := s;
    var steps: seq<Step> := [];
    if !s.loop.sent {
      SendingOverlooks(cfg, s, u);
      sent := After(cfg, s, SendOne);
      RunsOn(cfg, false, s, [], s, SendOne);
      assert [] + [SendOne] == [SendOne];
      steps := [SendOne];
    }
    RunsOn(cfg, false, s, steps, sent, SavePushed);
    assert [SendOne] + [SavePushed] == [SendOne, SavePushed] && [] + [SavePushed] == [SavePushed];
    m := After(cfg, sent, SavePushed);
  }

  lemma {:induction false} PushOverlooks(cfg: Config, s: State, u: int) returns (t: State)
    requires Overlooks(cfg, s, u)
    ensures Runs(cfg, false, s, RestOfPush(s.loop), t) && Overlooked(cfg, s, u, t)
    decreases |s.loop.pending|
  {
    if s.loop.pending == [] {
      RunsOn(cfg, false, s, [], s, Finish);
      assert [] + [Finish] == [Finish];
      t := After(cfg, s, Finish);
    } else {
      var m := HeadIsPushed(cfg, s, u);
      t := PushOverlooks(cfg, m, u);
      RunsThrough(cfg, false, s, if s.loop.sent then [SavePushed] else [SendOne, SavePushed], m, RestOfPush(m.loop), t);
      var pending := s.loop.pending;
      assert |pending| > 1 ==> pending[1..][|pending| - 2] == pending[|pending| - 1];
      hide Runs, Overlooks;
    }
  }

  lemma AppendIsOverlooked(cfg: Config, s: State, u: int, event: LocalEvent)
    requires ValidConfig(cfg) && Inv(cfg, s) && s.loop.Pushing? && Enabled(s, LocalAppend(u, event))
    requires !OnGateway(cfg, s.gateway, u)
    ensures Overlooks(cfg, After(cfg, s, LocalAppend(u, event)), u)
  {
  }

  /**
   * A local write is stranded by the push in progress exactly when it does not sort after everything pushed so far and after
   * the last event that push will send: sorting after `pushAfter`, or after the head of the push, is not enough.
   */
  lemma WritesAreStrandedIff(cfg: Config, s: State, u: int, event: LocalEvent) returns (t: State)
    requires ValidConfig(cfg) && Inv(cfg, s) && Enabled(s, LocalAppend(u, event)) && !OnGateway(cfg, s.gateway, u)
    ensures var s1 := After(cfg, s, LocalAppend(u, event)); Leads(cfg, s1, RestOfPush(s1.loop), t)
    ensures s.loop.Pushing? ==> t.loop.Idle?
    ensures Stranded(cfg, t, u) <==> !BeyondPush(s, Key(event.at, u))
  {
    var s1 := After(cfg, s, LocalAppend(u, event));
    if s.loop.Pushing? {
      AppendIsOverlooked(cfg, s, u, event);
      t := PushOverlooks(cfg, s1, u);
      var pending := s.loop.pending;
      if pending != [] {
        assert pending[|pending| - 1] in pending;
      }
      hide Runs, Inv, Table, OnGateway, RestOfPush;
      StrandedByCursor(cfg, s, s1, u, event, t);
    } else {
      t := s1;
    }
  }

  lemma StrandedByCursor(cfg: Config, s: State, s1: State, u: int, event: LocalEvent, t: State)
    requires s.loop.Pushing? && s1 == s.(local := s.local[u := event]) && Overlooked(cfg, s1, u, t)
    requires forall k | k in s.loop.pending :: k.id != u && (s.saved.pushAfter.Some? ==> Less(s.saved.pushAfter.value, k))
    ensures Stranded(cfg, t, u) <==> !BeyondPush(s, Key(event.at, u))
  {
    hide OnGateway, Table;
    var pending := s.loop.pending;
    if pending != [] {
      assert pending[|pending| - 1] in pending;
    }
  }

  /** A run: two events are being pushed when one is written between them. It is never sent. */
  lemma WriteBetweenPushedEventsIsStranded() returns (start: State, steps: seq<Step>, t: State)
    ensures NeverSynced(start) && start.local == map[1 := LocalEvent(10, None), 2 := LocalEvent(30, None)]
    ensures Leads(Plain(500, 500), start, steps, t) && LocalAppend(3, LocalEvent(20, None)) in steps
    ensures t.loop.Idle? && Stranded(Plain(500, 500), t, 3)
  {
    var cfg := Plain(500, 500);
    start := State([], map[1 := LocalEvent(10, None), 2 := LocalEvent(30, None)], FRESH, Idle);
    var list := [Key(10, 1), Key(30, 2)];
    assert IsPending(start.local, None, list) by {
      forall k ensures k in list <==> k.id in start.local && start.local[k.id].at == k.at {
        assert list[0] == Key(10, 1) && list[1] == Key(30, 2);
      }
    }
    var s := After(cfg, start, StartPush(list));
    var event := LocalEvent(20, None);
    var s1 := After(cfg, s, LocalAppend(3, event));
    RunsOn(cfg, false, start, [], start, StartPush(list));
    RunsOn(cfg, false, start, [] + [StartPush(list)], s, LocalAppend(3, event));
    StepKeepsInv(cfg, start, StartPush(list));
    t := WritesAreStrandedIff(cfg, s, 3, event);
    RunsThrough(cfg, false, start, [] + [StartPush(list)] + [LocalAppend(3, event)], s1, RestOfPush(s1.loop), t);
    steps := [] + [StartPush(list)] + [LocalAppend(3, event)] + RestOfPush(s1.loop);
    assert steps[1] == LocalAppend(3, event);
  }

  // ----- Inserts into the page being imported -----

  /** What is left to do of a page. */
  function RestOfPage(loop: Loop): seq<Step>
    requires loop.Importing? || loop.Catching?
    decreases |loop.queue|
  {
    if loop.queue == [] then [if loop.Importing? then SaveOlder else SaveNewer]
    else [ImportOne] + RestOfPage(loop.(queue := loop.queue[1..]))
  }

  /** A row in the range of the page being imported that is not on the page. */
  ghost predicate Missed(cfg: Config, s: State, r: Row) {
    && Table(s.gateway) && r in s.gateway && cfg.localId(r.key.id) !in s.local
    && (forall row | row in s.gateway :: cfg.localId(row.key.id) == cfg.localId(r.key.id) ==> row == r)
    && (s.loop.Importing? || s.loop.Catching?) && s.saved.phase == (if s.loop.Importing? then Backfill else Incremental)
    && OnPage(s.loop, r.key) && r !in s.loop.queue && forall row | row in s.loop.queue :: row in s.gateway
  }

  lemma ImportingMisses(cfg: Config, s: State, r: Row)
    requires Missed(cfg, s, r) && s.loop.queue != []
    ensures Missed(cfg, After(cfg, s, ImportOne), r)
  {
    assert s.loop.queue[0] in s.gateway && s.loop.queue[0] != r;
    forall row | row in s.loop.queue[1..] ensures row in s.loop.queue { }
    hide Table, Taken;
  }

  lemma {:induction false} PageLoses(cfg: Config, s: State, r: Row) returns (t: State)
    requires Missed(cfg, s, r)
    ensures Runs(cfg, false, s, RestOfPage(s.loop), t) && Lost(cfg, t, r)
    decreases |s.loop.queue|
  {
    if s.loop.queue == [] {
      var save := if s.loop.Importing? then SaveOlder else SaveNewer;
      RunsOn(cfg, false, s, [], s, save);
      assert [] + [save] == [save];
      t := After(cfg, s, save);
    } else {
      ImportingMisses(cfg, s, r);
      var m := After(cfg, s, ImportOne);
      RunsOn(cfg, false, s, [], s, ImportOne);
      assert [] + [ImportOne] == [ImportOne];
      t := PageLoses(cfg, m, r);
      RunsThrough(cfg, false, s, [ImportOne], m, RestOfPage(m.loop), t);
      hide Runs, Missed, Lost;
    }
  }

  /**
   * An insert into the range of the page being imported is lost once that page is saved. Together with
   * `InsertBehindFrontierIsLost` this is every way to write into the walked range, so that hypothesis is exact.
   */
  lemma InsertOnPageIsLostOnceSaved(cfg: Config, s: State, row: Row) returns (t: State)
    requires Inv(cfg, s) && Enabled(s, ForeignAppend(row)) && OnPage(s.loop, row.key)
    requires cfg.localId(row.key.id) !in s.local
    requires forall r | r in s.gateway :: cfg.localId(r.key.id) != cfg.localId(row.key.id)
    ensures var s1 := After(cfg, s, ForeignAppend(row)); Leads(cfg, s1, RestOfPage(s1.loop), t) && Lost(cfg, t, row)
  {
    PublishKeepsTable(s.gateway, row);
    var s1 := After(cfg, s, ForeignAppend(row));
    t := PageLoses(cfg, s1, row);
  }
}
