/**
 * Checkpointed push and pull as a transition system.
 *
 * One step is one durable or visible action, so a crash can fall between any two of them. Other clients and local
 * writers act in between as well; what is assumed of them is `Assumed`, and nothing else is.
 */
module SyncMachine {
  import opened Prelude
  import opened Ordering
  import opened Gateway

  /** The initial-claim index key: the workspace an event lives in and the workflow step it claims. */
  datatype Slot = Slot(home: int, step: int)

  datatype LocalEvent = LocalEvent(at: int, claim: Option<Slot>)

  type LocalLog = map<int, LocalEvent>

  /**
   * The fixed parts of one client: page size and query clamp, its workspace, and how identifiers and timestamps are
   * rewritten on the way to the gateway and back.
   */
  datatype Config = Config(limit: nat, cap: nat, home: int,
                           localId: int -> int, remoteId: int -> int,
                           localAt: int -> int, remoteAt: int -> int)

  ghost predicate ValidConfig(cfg: Config) {
    && 1 <= cfg.limit && 1 <= cfg.cap
    && forall u :: cfg.localId(cfg.remoteId(u)) == u
  }

  datatype Phase = Backfill | Incremental

  /** The durable cursor file. */
  datatype Checkpoint = Checkpoint(pushAfter: Option<Key>, phase: Phase, before: Option<Key>, after: Option<Key>)

  const FRESH := Checkpoint(None, Backfill, None, None)

  /** What is lost in a crash: which loop is running and where it is. */
  datatype Loop =
    | Idle
    | Pushing(pending: seq<Key>, sent: bool)
    | Backfilling(before: Option<Key>, latest: Option<Key>)
    | Importing(queue: seq<Row>, more: bool, low: Key, newest: Key)
    | Walking(cursor: Key)
    | Catching(queue: seq<Row>, more: bool, high: Key)

  datatype State = State(gateway: seq<Row>, local: LocalLog, saved: Checkpoint, loop: Loop)

  datatype Step =
    | StartPush(list: seq<Key>)
    | SendOne
    | SavePushed
    | StartPull
    | FetchOlder
    | FetchNewer
    | ImportOne
    | SaveOlder
    | SaveNewer
    | Finish
    | Crash
    | LocalAppend(id: int, event: LocalEvent)
    | ForeignAppend(row: Row)

  // ----- Local store and value mappings -----

  function LocalKey(local: LocalLog, u: int): Key
    requires u in local
  {
    Key(local[u].at, u)
  }

  predicate Taken(local: LocalLog, slot: Slot) {
    exists u | u in local :: local[u].claim == Some(slot)
  }

  function ToLocal(cfg: Config, row: Row): LocalEvent {
    LocalEvent(cfg.localAt(row.key.at), if row.claim.None? then None else Some(Slot(cfg.home, row.claim.value)))
  }

  function ToRemote(cfg: Config, u: int, event: LocalEvent): Row {
    Row(Key(cfg.remoteAt(event.at), cfg.remoteId(u)), if event.claim.None? then None else Some(event.claim.value.step))
  }

  /** The local log already has this row, or its initial-claim index will never admit it. */
  predicate Covered(cfg: Config, local: LocalLog, row: Row) {
    || cfg.localId(row.key.id) in local
    || (row.claim.Some? && Taken(local, Slot(cfg.home, row.claim.value)))
  }

  /** Insert-or-ignore of a pulled row. */
  function Import(cfg: Config, local: LocalLog, row: Row): LocalLog {
    if Covered(cfg, local, row) then local else local[cfg.localId(row.key.id) := ToLocal(cfg, row)]
  }

  predicate OnGateway(cfg: Config, rows: seq<Row>, u: int) {
    exists row | row in rows :: cfg.localId(row.key.id) == u
  }

  /** The sorted snapshot a push works through: every local event above the push cursor. */
  ghost predicate IsPending(local: LocalLog, after: Option<Key>, list: seq<Key>) {
    && (forall i, j | 0 <= i < j < |list| :: Less(list[i], list[j]))
    && (forall k :: k in list <==>
          k.id in local && local[k.id].at == k.at && (after.None? || Less(after.value, k)))
  }

  // ----- Steps -----

  ghost predicate Enabled(s: State, step: Step) {
    match step
    case StartPush(list) => s.loop.Idle? && IsPending(s.local, s.saved.pushAfter, list)
    case SendOne => s.loop.Pushing? && s.loop.pending != [] && !s.loop.sent && s.loop.pending[0].id in s.local
    case SavePushed => s.loop.Pushing? && s.loop.pending != [] && s.loop.sent
    case StartPull => s.loop.Idle?
    case FetchOlder => s.loop.Backfilling?
    case FetchNewer => s.loop.Walking?
    case ImportOne => (s.loop.Importing? || s.loop.Catching?) && s.loop.queue != []
    case SaveOlder => s.loop.Importing? && s.loop.queue == []
    case SaveNewer => s.loop.Catching? && s.loop.queue == []
    case Finish => s.loop.Pushing? && s.loop.pending == []
    case Crash => true
    case LocalAppend(id, event) => id !in s.local && (event.claim.Some? ==> !Taken(s.local, event.claim.value))
    case ForeignAppend(row) => !Known(s.gateway, row.key.id)
  }

  function Fetch(cfg: Config, s: State): Page
    requires s.loop.Backfilling? || s.loop.Walking?
  {
    if s.loop.Backfilling? then OlderPage(s.gateway, s.loop.before, cfg.limit, cfg.cap)
    else NewerPage(s.gateway, s.loop.cursor, cfg.limit, cfg.cap)
  }

  function After(cfg: Config, s: State, step: Step): State
    requires Enabled(s, step)
  {
    match step
    case StartPush(list) => s.(loop := Pushing(list, false))
    case SendOne =>
      var u := s.loop.pending[0].id;
      s.(gateway := Publish(s.gateway, ToRemote(cfg, u, s.local[u])), loop := s.loop.(sent := true))
    case SavePushed =>
      s.(saved := s.saved.(pushAfter := Some(s.loop.pending[0])), loop := Pushing(s.loop.pending[1..], false))
    case StartPull =>
      if s.saved.phase == Incremental && s.saved.after.Some? then s.(loop := Walking(s.saved.after.value))
      else s.(loop := Backfilling(s.saved.before, s.saved.after))
    case FetchOlder =>
      var page := Fetch(cfg, s);
      if page.next.None? || page.events == [] then s.(loop := Idle)
      else s.(loop := Importing(page.events, page.hasMore, page.next.value,
                                if s.loop.latest.None? then page.events[0].key else s.loop.latest.value))
    case FetchNewer =>
      var page := Fetch(cfg, s);
      if page.next.None? then s.(loop := Idle)
      else s.(loop := Catching(page.events, page.hasMore, page.next.value))
    case ImportOne =>
      s.(local := Import(cfg, s.local, s.loop.queue[0]), loop := s.loop.(queue := s.loop.queue[1..]))
    case SaveOlder =>
      if s.loop.more then
        s.(saved := s.saved.(before := Some(s.loop.low), after := Some(s.loop.newest)),
           loop := Backfilling(Some(s.loop.low), Some(s.loop.newest)))
      else
        s.(saved := s.saved.(phase := Incremental, before := None, after := Some(s.loop.newest)), loop := Idle)
    case SaveNewer =>
      s.(saved := s.saved.(after := Some(s.loop.high)), loop := if s.loop.more then Walking(s.loop.high) else Idle)
    case Finish => s.(loop := Idle)
    case Crash => s.(loop := Idle)
    case LocalAppend(id, event) => s.(local := s.local[id := event])
    case ForeignAppend(row) => s.(gateway := Publish(s.gateway, row))
  }

  // ----- Hypotheses about everybody else -----

  /** The key range the durable cursors vouch for. */
  ghost predicate Passed(c: Checkpoint, k: Key) {
    || (c.phase == Backfill && c.before.Some? && c.after.Some? && AtMost(c.before.value, k) && AtMost(k, c.after.value))
    || (c.phase == Incremental && c.after.Some? && AtMost(k, c.after.value))
  }

  /** The key range of the page being imported. */
  ghost predicate OnPage(loop: Loop, k: Key) {
    || (loop.Importing? && (loop.more ==> AtMost(loop.low, k)) && AtMost(k, loop.newest))
    || (loop.Catching? && AtMost(k, loop.high))
  }

  /** The key range this client has already walked, or is importing right now. */
  ghost predicate Walked(s: State, k: Key) {
    Passed(s.saved, k) || OnPage(s.loop, k)
  }

  /** A local write sorts after everything pushed so far, and after the snapshot of a push in progress. */
  ghost predicate BeyondPush(s: State, k: Key) {
    && (s.saved.pushAfter.Some? ==> Less(s.saved.pushAfter.value, k))
    && (s.loop.Pushing? && s.loop.pending != [] ==> Less(s.loop.pending[|s.loop.pending| - 1], k))
  }

  ghost predicate Assumed(cfg: Config, s: State, step: Step) {
    match step
    case ForeignAppend(row) => !Walked(s, row.key)
    case LocalAppend(id, event) => BeyondPush(s, Key(event.at, id))
    case FetchOlder =>
      s.loop.Backfilling? ==>
        Honest(cfg.limit, cfg.cap, Beneath(s.gateway, s.loop.before))
    case _ => true
  }

  // ----- Invariant -----

  /** Every event the push cursor has passed is on the gateway. */
  ghost predicate PushedPrefix(cfg: Config, s: State) {
    forall u | u in s.local ::
      s.saved.pushAfter.Some? && AtMost(LocalKey(s.local, u), s.saved.pushAfter.value) ==> OnGateway(cfg, s.gateway, u)
  }

  /** The promise the durable pull cursors make. */
  ghost predicate PulledRange(cfg: Config, s: State) {
    var c := s.saved;
    && (c.phase == Backfill ==> (c.before.Some? <==> c.after.Some?))
    && (c.phase == Backfill && c.before.Some? && c.after.Some? ==>
          && (forall row | row in s.gateway ::
                AtMost(c.before.value, row.key) && AtMost(row.key, c.after.value) ==> Covered(cfg, s.local, row))
          && AtMost(c.before.value, c.after.value)
          && Remaining(s.gateway, c.before.value))
    && (c.phase == Incremental ==> c.before.None? && c.after.Some?)
    && (c.phase == Incremental && c.after.Some? ==>
          forall row | row in s.gateway :: AtMost(row.key, c.after.value) ==> Covered(cfg, s.local, row))
  }

  /** A resumed backfill has a row to fetch. */
  ghost predicate Remaining(rows: seq<Row>, before: Key) {
    exists row | row in rows :: Less(row.key, before)
  }

  ghost predicate PendingPush(cfg: Config, s: State) {
    s.loop.Pushing? ==>
      var pending := s.loop.pending;
      && (forall i, j | 0 <= i < j < |pending| :: Less(pending[i], pending[j]))
      && (forall k | k in pending ::
            && k.id in s.local && s.local[k.id].at == k.at
            && (s.saved.pushAfter.Some? ==> Less(s.saved.pushAfter.value, k)))
      && (pending != [] ==> forall u | u in s.local ::
            (s.saved.pushAfter.Some? ==> Less(s.saved.pushAfter.value, LocalKey(s.local, u))) ==>
            AtMost(LocalKey(s.local, u), pending[|pending| - 1]) ==> LocalKey(s.local, u) in pending)
      && (s.loop.sent ==> pending != [] && OnGateway(cfg, s.gateway, pending[0].id))
  }

  ghost predicate PendingPull(cfg: Config, s: State) {
    match s.loop
    case Idle => true
    case Pushing(_, _) => true
    case Backfilling(before, latest) =>
      s.saved.phase == Backfill && before == s.saved.before && latest == s.saved.after
    case Importing(queue, more, low, latest) =>
      && s.saved.phase == Backfill
      && AtMost(low, latest)
      && (s.saved.before.Some? ==> AtMost(low, s.saved.before.value))
      && (s.saved.after.Some? ==> latest == s.saved.after.value)
      && (more ==> Remaining(s.gateway, low))
      && (forall row | row in queue :: row in s.gateway)
      && forall row | row in s.gateway ::
           (more ==> AtMost(low, row.key)) && AtMost(row.key, latest) ==> Covered(cfg, s.local, row) || row in queue
    case Walking(cursor) => s.saved.phase == Incremental && s.saved.after == Some(cursor)
    case Catching(queue, more, high) =>
      && s.saved.phase == Incremental
      && (s.saved.after.Some? ==> AtMost(s.saved.after.value, high))
      && (forall row | row in queue :: row in s.gateway)
      && forall row | row in s.gateway :: AtMost(row.key, high) ==> Covered(cfg, s.local, row) || row in queue
  }

  ghost predicate Inv(cfg: Config, s: State) {
    && Table(s.gateway)
    && PushedPrefix(cfg, s)
    && PulledRange(cfg, s)
    && PendingPush(cfg, s)
    && PendingPull(cfg, s)
  }

  // ----- Small facts -----

  lemma CoveredGrows(cfg: Config, small: LocalLog, big: LocalLog, row: Row)
    requires Covered(cfg, small, row)
    requires forall u | u in small :: u in big && big[u] == small[u]
    ensures Covered(cfg, big, row)
  {
    var id: int := cfg.localId(row.key.id);
    if id in small {
      assert id in big;
    } else {
      var u :| u in small && small[u].claim == Some(Slot(cfg.home, row.claim.value));
      assert big[u].claim == Some(Slot(cfg.home, row.claim.value));
    }
  }

  lemma ImportCovers(cfg: Config, local: LocalLog, row: Row)
    ensures Covered(cfg, Import(cfg, local, row), row)
    ensures forall u | u in local :: u in Import(cfg, local, row) && Import(cfg, local, row)[u] == local[u]
    ensures forall u | u in Import(cfg, local, row) :: u in local || u == cfg.localId(row.key.id)
  {
  }

  /** A row this client publishes itself is one it already has. */
  lemma OwnRowsAreCovered(cfg: Config, local: LocalLog, u: int)
    requires ValidConfig(cfg) && u in local
    ensures Covered(cfg, local, ToRemote(cfg, u, local[u]))
  {
  }

  lemma PublishReaches(cfg: Config, rows: seq<Row>, u: int, event: LocalEvent)
    requires ValidConfig(cfg) && Table(rows)
    ensures OnGateway(cfg, Publish(rows, ToRemote(cfg, u, event)), u)
  {
    var row := ToRemote(cfg, u, event);
    PublishKeepsTable(rows, row);
    var r :| r in Publish(rows, row) && r.key.id == row.key.id;
    assert cfg.localId(r.key.id) == u;
  }

  // ----- Each step keeps the invariant -----

  lemma PublishKeepsInv(cfg: Config, s: State, row: Row, s': State)
    requires ValidConfig(cfg) && Inv(cfg, s)
    requires Covered(cfg, s.local, row) || !Walked(s, row.key)
    requires s' == s.(gateway := Publish(s.gateway, row))
    ensures Inv(cfg, s')
  {
    PublishKeepsTable(s.gateway, row);
    assert forall r | r in s.gateway :: r in s'.gateway;
    forall u | OnGateway(cfg, s.gateway, u) ensures OnGateway(cfg, s'.gateway, u) {
      var r :| r in s.gateway && cfg.localId(r.key.id) == u;
      assert r in s'.gateway;
    }
    forall k | Remaining(s.gateway, k) ensures Remaining(s'.gateway, k) {
      var r :| r in s.gateway && Less(r.key, k);
      assert r in s'.gateway;
    }
    if !Covered(cfg, s.local, row) {
      assert !Walked(s, row.key);
    }
  }

  lemma SendKeepsInv(cfg: Config, s: State)
    requires ValidConfig(cfg) && Inv(cfg, s) && Enabled(s, SendOne)
    ensures Inv(cfg, After(cfg, s, SendOne))
  {
    var u := s.loop.pending[0].id;
    var row := ToRemote(cfg, u, s.local[u]);
    OwnRowsAreCovered(cfg, s.local, u);
    PublishKeepsInv(cfg, s, row, s.(gateway := Publish(s.gateway, row)));
    PublishReaches(cfg, s.gateway, u, s.local[u]);
  }

  lemma SavePushedKeepsInv(cfg: Config, s: State)
    requires Inv(cfg, s) && Enabled(s, SavePushed)
    ensures Inv(cfg, After(cfg, s, SavePushed))
  {
    var s' := After(cfg, s, SavePushed);
    var pending := s.loop.pending;
    forall u | u in s.local && AtMost(LocalKey(s.local, u), pending[0])
      ensures OnGateway(cfg, s.gateway, u)
    {
      if s.saved.pushAfter.None? || Less(s.saved.pushAfter.value, LocalKey(s.local, u)) {
        assert AtMost(pending[0], pending[|pending| - 1]);
        assert LocalKey(s.local, u) in pending;
        var i :| 0 <= i < |pending| && pending[i] == LocalKey(s.local, u);
        assert forall j | 0 < j < |pending| :: Less(pending[0], pending[j]);
        assert i == 0;
      }
    }
    assert PushedPrefix(cfg, s');
    forall k | k in pending[1..] ensures Less(pending[0], k) {
      var i :| 0 < i < |pending| && pending[i] == k;
    }
    assert PendingPush(cfg, s');
  }

  lemma SliceByKey(rows: seq<Row>, a: nat, n: nat, before: Option<Key>)
    requires Table(rows) && a < n <= |rows|
    requires n == Beneath(rows, before)
    ensures forall row | row in rows[a..n] :: row in rows
    ensures forall row | row in rows :: row in rows[a..n] <==>
              AtMost(rows[a].key, row.key) && (before.None? || Less(row.key, before.value))
  {
    var slice := rows[a..n];
    if before.Some? { BelowSplits(rows, before.value); }
    forall row | row in slice ensures row in rows {
    }
    forall row | row in rows
      ensures row in slice <==> AtMost(rows[a].key, row.key) && (before.None? || Less(row.key, before.value))
    {
      var i :| 0 <= i < |rows| && rows[i] == row;
      if a <= i < n {
        assert slice[i - a] == row;
      }
      if row in slice {
        var k :| 0 <= k < |slice| && slice[k] == row;
        assert rows[a + k] == row;
      }
    }
  }

  lemma GreatestRow(rows: seq<Row>)
    requires Table(rows) && rows != []
    ensures forall row | row in rows :: AtMost(row.key, rows[|rows| - 1].key)
  {
    forall row | row in rows ensures AtMost(row.key, rows[|rows| - 1].key) {
      var i :| 0 <= i < |rows| && rows[i] == row;
    }
  }

  /** What a backfill page holds: exactly the rows from its low key up to the cursor. */
  ghost predicate HoldsBelow(rows: seq<Row>, before: Option<Key>, page: Page) {
    && page.next.Some?
    && (before.Some? ==> Less(page.next.value, before.value))
    && (forall row | row in rows :: row in page.events <==>
          AtMost(page.next.value, row.key) && (before.None? || Less(row.key, before.value)))
    && page.events != []
    && (forall row | row in page.events :: row in rows)
    && AtMost(page.next.value, page.events[0].key)
    && (before.None? ==> forall row | row in rows :: AtMost(row.key, page.events[0].key))
  }

  lemma SliceHoldsBelow(rows: seq<Row>, a: nat, n: nat, before: Option<Key>, page: Page)
    requires Table(rows) && a < n <= |rows|
    requires n == Beneath(rows, before)
    requires page.events == Reverse(rows[a..n]) && page.next == Some(rows[a].key)
    ensures HoldsBelow(rows, before, page)
  {
    ReverseElements(rows[a..n]);
    SliceByKey(rows, a, n, before);
    assert page.events[0] == rows[n - 1];
    assert a < n - 1 ==> Less(rows[a].key, rows[n - 1].key);
    if before.None? { GreatestRow(rows); }
  }

  lemma OlderPageHolds(rows: seq<Row>, before: Option<Key>, limit: nat, cap: nat)
    requires Table(rows) && 1 <= limit && 1 <= cap
    ensures var page := OlderPage(rows, before, limit, cap);
            var n := Beneath(rows, before);
            && (page.next.None? <==> n == 0) && (page.events == [] <==> n == 0)
            && (n > 0 ==> HoldsBelow(rows, before, page))
  {
    var n := Beneath(rows, before);
    var page := OlderPage(rows, before, limit, cap);
    if n > 0 {
      SliceHoldsBelow(rows, n - Served(limit, cap, n), n, before, page);
    }
  }

  lemma OlderPageRemaining(rows: seq<Row>, before: Option<Key>, limit: nat, cap: nat)
    requires Table(rows) && 1 <= limit && 1 <= cap
    ensures var page := OlderPage(rows, before, limit, cap);
            var n := Beneath(rows, before);
            page.next.Some? ==>
              && (page.hasMore ==> Remaining(rows, page.next.value))
              && (Honest(limit, cap, n) && !page.hasMore ==>
                    forall row | row in rows :: AtMost(page.next.value, row.key))
  {
    var page := OlderPage(rows, before, limit, cap);
    var n := Beneath(rows, before);
    var served := Served(limit, cap, n);
    HasMoreIsHonest(limit, cap, n);
    if page.next.Some? {
      if page.hasMore {
        assert rows[n - served - 1] in rows;
        assert Less(rows[n - served - 1].key, page.next.value);
      } else if Honest(limit, cap, n) {
        assert page.next.value == rows[0].key;
        forall row | row in rows ensures AtMost(page.next.value, row.key) {
          var i :| 0 <= i < |rows| && rows[i] == row;
        }
      }
    }
  }

  lemma PageCoversRange(cfg: Config, s: State, page: Page, newest: Key)
    requires Inv(cfg, s) && s.loop.Backfilling? && HoldsBelow(s.gateway, s.loop.before, page)
    requires newest == if s.loop.latest.None? then page.events[0].key else s.loop.latest.value
    requires page.hasMore ==> Remaining(s.gateway, page.next.value)
    requires !page.hasMore ==> forall row | row in s.gateway :: AtMost(page.next.value, row.key)
    ensures PendingPull(cfg, s.(loop := Importing(page.events, page.hasMore, page.next.value, newest)))
  {
    forall row | row in s.gateway && AtMost(page.next.value, row.key) && AtMost(row.key, newest)
      ensures Covered(cfg, s.local, row) || row in page.events
    {
      if s.loop.before.Some? && !Less(row.key, s.loop.before.value) {
        assert AtMost(s.loop.before.value, row.key);
      }
    }
  }

  lemma SomethingIsBeneath(rows: seq<Row>, before: Key)
    requires Table(rows) && Remaining(rows, before)
    ensures Beneath(rows, Some(before)) > 0
  {
    BelowSplits(rows, before);
    var r :| r in rows && Less(r.key, before);
    var i :| 0 <= i < |rows| && rows[i] == r;
    assert Beneath(rows, Some(before)) > i;
  }

  lemma OlderPageIsEmptyIff(rows: seq<Row>, before: Option<Key>, limit: nat, cap: nat)
    requires 1 <= limit && 1 <= cap
    ensures var page := OlderPage(rows, before, limit, cap);
            (page.events == [] <==> Beneath(rows, before) == 0) && (page.next.Some? <==> page.events != [])
  {
  }

  /** A backfill under way is somewhere with rows left to fetch. */
  lemma BackfillHasMore(cfg: Config, s: State)
    requires Inv(cfg, s) && s.loop.Backfilling?
    ensures s.loop.before.Some? ==> Beneath(s.gateway, s.loop.before) > 0
  {
    if s.loop.before.Some? {
      SomethingIsBeneath(s.gateway, s.loop.before.value);
    }
  }

  /** Fetching changes nothing the rest of the invariant is about. */
  lemma FetchOnlyMovesOn(cfg: Config, s: State)
    requires Inv(cfg, s) && s.loop.Backfilling?
    ensures var s' := After(cfg, s, FetchOlder);
            && Table(s'.gateway) && PushedPrefix(cfg, s') && PulledRange(cfg, s') && PendingPush(cfg, s')
            && (s'.loop.Idle? ==> PendingPull(cfg, s'))
  {
    hide OlderPage, Table, OnGateway, Covered;
  }

  lemma FetchOlderKeepsInv(cfg: Config, s: State)
    requires ValidConfig(cfg) && Inv(cfg, s) && Enabled(s, FetchOlder) && Assumed(cfg, s, FetchOlder)
    ensures Inv(cfg, After(cfg, s, FetchOlder))
    ensures s.loop.before.Some? ==> After(cfg, s, FetchOlder).loop.Importing?
  {
    var page := Fetch(cfg, s);
    OlderPageHolds(s.gateway, s.loop.before, cfg.limit, cfg.cap);
    OlderPageRemaining(s.gateway, s.loop.before, cfg.limit, cfg.cap);
    OlderPageIsEmptyIff(s.gateway, s.loop.before, cfg.limit, cfg.cap);
    BackfillHasMore(cfg, s);
    FetchOnlyMovesOn(cfg, s);
    hide OlderPage, Beneath, Remaining, Table, PulledRange, PushedPrefix, PendingPull, PendingPush, HoldsBelow, Honest;
    if page.events != [] {
      PageCoversRange(cfg, s, page, if s.loop.latest.None? then page.events[0].key else s.loop.latest.value);
    }
  }

  /** A page of newer rows starts right above its cursor and leaves nothing out below its own. */
  lemma {:induction false} NewerPageHolds(rows: seq<Row>, cursor: Key, limit: nat, cap: nat)
    requires Table(rows) && 1 <= limit && 1 <= cap
    ensures var page := NewerPage(rows, cursor, limit, cap);
            && (page.next.Some? ==> AtMost(cursor, page.next.value))
            && (forall row | row in page.events :: row in rows)
            && (page.next.Some? ==> forall row | row in rows && AtMost(row.key, page.next.value) ::
                  AtMost(row.key, cursor) || row in page.events)
  {
    var n := UpTo(rows, cursor);
    UpToSplits(rows, cursor);
    var served := Served(limit, cap, |rows| - n);
    var page := NewerPage(rows, cursor, limit, cap);
    hide NewerPage, UpTo;
    assert page.events == rows[n..n + served] by { NewerPageSlice(rows, cursor, limit, cap); }
    assert page.next.Some? ==> served > 0 && page.next.value == rows[n + served - 1].key by {
      NewerPageSlice(rows, cursor, limit, cap);
    }
    if page.next.Some? {
      forall row | row in rows && AtMost(row.key, page.next.value) && !AtMost(row.key, cursor) ensures row in page.events {
        var i :| 0 <= i < |rows| && rows[i] == row;
        assert n <= i < n + served;
        assert rows[n..n + served][i - n] == row;
      }
    }
  }

  lemma {:induction false} NewerPageSlice(rows: seq<Row>, cursor: Key, limit: nat, cap: nat)
    requires 1 <= limit && 1 <= cap
    ensures var page := NewerPage(rows, cursor, limit, cap);
            var n := UpTo(rows, cursor);
            var served := Served(limit, cap, |rows| - n);
            && page.events == rows[n..n + served]
            && (page.next.Some? <==> served > 0) && (served > 0 ==> page.next.value == rows[n + served - 1].key)
  {
  }

  lemma FetchNewerKeepsInv(cfg: Config, s: State)
    requires ValidConfig(cfg) && Inv(cfg, s) && Enabled(s, FetchNewer)
    ensures Inv(cfg, After(cfg, s, FetchNewer))
  {
    NewerPageHolds(s.gateway, s.loop.cursor, cfg.limit, cfg.cap);
    hide NewerPage, Table, OnGateway, Covered;
  }

  lemma ImportKeepsInv(cfg: Config, s: State)
    requires ValidConfig(cfg) && Inv(cfg, s) && Enabled(s, ImportOne)
    ensures Inv(cfg, After(cfg, s, ImportOne))
  {
    var s' := After(cfg, s, ImportOne);
    var row := s.loop.queue[0];
    ImportCovers(cfg, s.local, row);
    forall r | Covered(cfg, s.local, r) ensures Covered(cfg, s'.local, r) {
      CoveredGrows(cfg, s.local, s'.local, r);
    }
    forall r | r in s.loop.queue && r != row ensures r in s'.loop.queue {
    }
    forall u | u in s'.local && s.saved.pushAfter.Some? && AtMost(LocalKey(s'.local, u), s.saved.pushAfter.value)
      ensures OnGateway(cfg, s.gateway, u)
    {
      assert u in s.local || u == cfg.localId(row.key.id);
    }
  }

  lemma LocalAppendKeepsInv(cfg: Config, s: State, id: int, event: LocalEvent)
    requires Inv(cfg, s) && Enabled(s, LocalAppend(id, event)) && Assumed(cfg, s, LocalAppend(id, event))
    ensures Inv(cfg, After(cfg, s, LocalAppend(id, event)))
  {
    var s' := After(cfg, s, LocalAppend(id, event));
    forall r | Covered(cfg, s.local, r) ensures Covered(cfg, s'.local, r) {
      CoveredGrows(cfg, s.local, s'.local, r);
    }
    assert PushedPrefix(cfg, s');
    assert PendingPush(cfg, s');
  }

  lemma StepKeepsInv(cfg: Config, s: State, step: Step)
    requires ValidConfig(cfg) && Inv(cfg, s) && Enabled(s, step) && Assumed(cfg, s, step)
    ensures Inv(cfg, After(cfg, s, step))
  {
    match step
    case StartPush(list) =>
    case SendOne => SendKeepsInv(cfg, s);
    case SavePushed => SavePushedKeepsInv(cfg, s);
    case StartPull =>
    case FetchOlder => FetchOlderKeepsInv(cfg, s);
    case FetchNewer => FetchNewerKeepsInv(cfg, s);
    case ImportOne => ImportKeepsInv(cfg, s);
    case SaveOlder =>
    case SaveNewer =>
    case Finish =>
    case Crash =>
    case LocalAppend(id, event) => LocalAppendKeepsInv(cfg, s, id, event);
    case ForeignAppend(row) => PublishKeepsInv(cfg, s, row, After(cfg, s, step));
  }

  // ----- Runs -----

  ghost predicate Leads(cfg: Config, s: State, steps: seq<Step>, t: State)
    decreases |steps|
  {
    if steps == [] then s == t
    else Enabled(s, steps[0]) && Leads(cfg, After(cfg, s, steps[0]), steps[1..], t)
  }

  /** Everybody else kept to the hypotheses throughout the run. */
  ghost predicate Fair(cfg: Config, s: State, steps: seq<Step>)
    decreases |steps|
  {
    steps == [] || (Enabled(s, steps[0]) && Assumed(cfg, s, steps[0]) && Fair(cfg, After(cfg, s, steps[0]), steps[1..]))
  }

  /** A run, and whether everybody else kept to the hypotheses in it. */
  ghost predicate Runs(cfg: Config, fair: bool, s: State, steps: seq<Step>, t: State) {
    Leads(cfg, s, steps, t) && (fair ==> Fair(cfg, s, steps))
  }

  lemma {:induction false} RunsOn(cfg: Config, fair: bool, s: State, steps: seq<Step>, t: State, step: Step)
    requires Runs(cfg, fair, s, steps, t) && Enabled(t, step) && (fair ==> Assumed(cfg, t, step))
    ensures Runs(cfg, fair, s, steps + [step], After(cfg, t, step))
    decreases |steps|
  {
    if steps == [] {
      assert Leads(cfg, After(cfg, s, step), [], After(cfg, s, step));
      assert ([step])[1..] == [];
    } else {
      RunsOn(cfg, fair, After(cfg, s, steps[0]), steps[1..], t, step);
      assert (steps + [step])[1..] == steps[1..] + [step];
    }
  }

  lemma {:induction false} RunsThrough(cfg: Config, fair: bool, s: State, a: seq<Step>, m: State, b: seq<Step>, t: State)
    requires Runs(cfg, fair, s, a, m) && Runs(cfg, fair, m, b, t)
    ensures Runs(cfg, fair, s, a + b, t)
    decreases |a|
  {
    if a == [] {
      assert a + b == b;
    } else {
      RunsThrough(cfg, fair, After(cfg, s, a[0]), a[1..], m, b, t);
      assert (a + b)[1..] == a[1..] + b;
    }
  }

  /** A client that has never synchronised, over any gateway and any local history. */
  ghost predicate NeverSynced(s: State) {
    Table(s.gateway) && s.saved == FRESH && s.loop.Idle?
  }

  lemma {:induction false} RunsKeepInv(cfg: Config, s: State, steps: seq<Step>, t: State)
    requires ValidConfig(cfg) && Inv(cfg, s) && Leads(cfg, s, steps, t) && Fair(cfg, s, steps)
    ensures Inv(cfg, t)
    decreases |steps|
  {
    if steps != [] {
      StepKeepsInv(cfg, s, steps[0]);
      RunsKeepInv(cfg, After(cfg, s, steps[0]), steps[1..], t);
    }
  }

  /** After a crash at any point of a fair run the invariant holds and everything can go on. */
  lemma {:induction false} CrashAnywhereKeepsInv(cfg: Config, s: State, steps: seq<Step>, t: State, k: nat)
    requires ValidConfig(cfg) && Inv(cfg, s) && Runs(cfg, true, s, steps, t) && k <= |steps|
    ensures exists m :: Leads(cfg, s, steps[..k], m) && Inv(cfg, m) && Inv(cfg, After(cfg, m, Crash))
    decreases k
  {
    hide Inv, After;
    if k == 0 {
      StepKeepsInv(cfg, s, Crash);
      assert Leads(cfg, s, steps[..0], s);
    } else {
      StepKeepsInv(cfg, s, steps[0]);
      var next := After(cfg, s, steps[0]);
      CrashAnywhereKeepsInv(cfg, next, steps[1..], t, k - 1);
      var m :| Leads(cfg, next, steps[1..][..k - 1], m) && Inv(cfg, m) && Inv(cfg, After(cfg, m, Crash));
      assert steps[..k][1..] == steps[1..][..k - 1] && steps[..k][0] == steps[0];
      assert Leads(cfg, s, steps[..k], m);
    }
  }

  /**
   * Whatever crashes, late pushes, local writes and other clients' writes happen in between, every reachable durable
   * checkpoint keeps its promise: events up to `pushAfter` are on the gateway; in a backfill every row between the two
   * pull cursors is local and another row waits below; in the incremental phase every row up to the cursor is local.
   */
  lemma {:induction false} CheckpointsKeepTheirPromise(cfg: Config, s: State, steps: seq<Step>, t: State)
    requires ValidConfig(cfg) && NeverSynced(s) && Leads(cfg, s, steps, t) && Fair(cfg, s, steps)
    ensures PushedPrefix(cfg, t)
    ensures t.saved.phase == Backfill && t.saved.before.Some? ==>
              && t.saved.after.Some?
              && Remaining(t.gateway, t.saved.before.value)
              && forall row | row in t.gateway ::
                   AtMost(t.saved.before.value, row.key) && AtMost(row.key, t.saved.after.value)
                   ==> Covered(cfg, t.local, row)
    ensures t.saved.phase == Incremental ==>
              && t.saved.after.Some?
              && forall row | row in t.gateway :: AtMost(row.key, t.saved.after.value) ==> Covered(cfg, t.local, row)
  {
    assert Inv(cfg, s);
    RunsKeepInv(cfg, s, steps, t);
  }

  // ----- The hypotheses cannot be dropped -----

  /** An uncovered row in the range the durable cursors vouch for, and not on the page being imported. */
  ghost predicate Lost(cfg: Config, s: State, r: Row) {
    && Table(s.gateway)
    && r in s.gateway && cfg.localId(r.key.id) !in s.local
    && (forall row | row in s.gateway :: cfg.localId(row.key.id) == cfg.localId(r.key.id) ==> row == r)
    && Passed(s.saved, r.key)
    && match s.loop
       case Idle => true
       case Pushing(_, _) => true
       case Backfilling(before, latest) =>
         s.saved.phase == Backfill && before == s.saved.before && latest == s.saved.after
       case Importing(queue, more, low, newest) =>
         && s.saved.phase == Backfill && OnPage(s.loop, r.key)
         && r !in queue && forall row | row in queue :: row in s.gateway
       case Walking(cursor) => s.saved.phase == Incremental && AtMost(r.key, cursor)
       case Catching(queue, _, high) =>
         && s.saved.phase == Incremental && OnPage(s.loop, r.key)
         && r !in queue && forall row | row in queue :: row in s.gateway
  }

  /** Nobody writes the missing event again under another name. */
  ghost predicate NotRewritten(cfg: Config, u: int, steps: seq<Step>) {
    forall step | step in steps ::
      && (step.LocalAppend? ==> step.id != u)
      && (step.ForeignAppend? ==> cfg.localId(step.row.key.id) != u)
  }

  lemma NewerPageIsAbove(rows: seq<Row>, cursor: Key, limit: nat, cap: nat)
    requires Table(rows)
    ensures var page := NewerPage(rows, cursor, limit, cap);
            && (page.next.Some? ==> Less(cursor, page.next.value))
            && forall row | row in page.events :: row in rows && Less(cursor, row.key)
  {
    var n := UpTo(rows, cursor);
    UpToSplits(rows, cursor);
    var page := NewerPage(rows, cursor, limit, cap);
    forall row | row in page.events ensures row in rows && Less(cursor, row.key) {
      var i :| 0 <= i < |page.events| && page.events[i] == row;
      assert rows[n + i] == row;
    }
  }

  lemma PublishKeepsLost(cfg: Config, s: State, row: Row, loop: Loop, r: Row)
    requires Lost(cfg, s, r)
    requires Known(s.gateway, row.key.id) || cfg.localId(row.key.id) != cfg.localId(r.key.id)
    requires loop == s.loop || (s.loop.Pushing? && loop.Pushing?)
    ensures Lost(cfg, s.(gateway := Publish(s.gateway, row), loop := loop), r)
  {
    PublishKeepsTable(s.gateway, row);
    assert forall x :: x in s.gateway ==> x in Publish(s.gateway, row);
    hide Publish, Known, Table, Passed, OnPage;
  }

  lemma OlderPageIsBelow(rows: seq<Row>, before: Key, limit: nat, cap: nat)
    requires Table(rows) && 1 <= limit && 1 <= cap
    ensures var page := OlderPage(rows, Some(before), limit, cap);
            && (page.next.Some? ==> Less(page.next.value, before))
            && forall row | row in page.events :: row in rows && Less(row.key, before)
  {
    OlderPageHolds(rows, Some(before), limit, cap);
    hide Table, OlderPage, Beneath;
  }

  lemma FetchOlderKeepsLost(cfg: Config, s: State, r: Row)
    requires ValidConfig(cfg) && Lost(cfg, s, r) && Enabled(s, FetchOlder)
    ensures Lost(cfg, After(cfg, s, FetchOlder), r)
  {
    OlderPageIsBelow(s.gateway, s.loop.before.value, cfg.limit, cfg.cap);
    hide OlderPage, Table;
  }

  lemma FetchNewerKeepsLost(cfg: Config, s: State, r: Row)
    requires ValidConfig(cfg) && Lost(cfg, s, r) && Enabled(s, FetchNewer)
    ensures Lost(cfg, After(cfg, s, FetchNewer), r)
  {
    NewerPageIsAbove(s.gateway, s.loop.cursor, cfg.limit, cfg.cap);
    hide NewerPage, Table;
  }

  lemma ImportKeepsLost(cfg: Config, s: State, r: Row)
    requires Lost(cfg, s, r) && Enabled(s, ImportOne)
    ensures Lost(cfg, After(cfg, s, ImportOne), r)
  {
    assert s.loop.queue[0] in s.gateway && s.loop.queue[0] != r;
    forall row | row in s.loop.queue[1..] ensures row in s.loop.queue { }
    hide Table, Passed, OnPage, Taken;
  }

  lemma StepKeepsLost(cfg: Config, s: State, step: Step, r: Row)
    requires ValidConfig(cfg) && Lost(cfg, s, r) && Enabled(s, step)
    requires NotRewritten(cfg, cfg.localId(r.key.id), [step])
    ensures Lost(cfg, After(cfg, s, step), r)
  {
    assert step in [step];
    hide Table, Publish, OlderPage, NewerPage;
    match step
    case SendOne =>
      PublishKeepsLost(cfg, s, ToRemote(cfg, s.loop.pending[0].id, s.local[s.loop.pending[0].id]),
                       s.loop.(sent := true), r);
    case ForeignAppend(row) =>
      PublishKeepsLost(cfg, s, row, s.loop, r);
    case FetchOlder => FetchOlderKeepsLost(cfg, s, r);
    case FetchNewer => FetchNewerKeepsLost(cfg, s, r);
    case ImportOne => ImportKeepsLost(cfg, s, r);
    case _ =>
  }

  /** No later push, pull or crash ever brings a lost row in. */
  lemma {:induction false} LostForever(cfg: Config, s: State, steps: seq<Step>, t: State, r: Row)
    requires ValidConfig(cfg) && Lost(cfg, s, r) && Leads(cfg, s, steps, t)
    requires NotRewritten(cfg, cfg.localId(r.key.id), steps)
    ensures Lost(cfg, t, r)
    decreases |steps|
  {
    if steps != [] {
      assert steps[0] in steps;
      assert forall x | x in steps[1..] :: x in steps;
      StepKeepsLost(cfg, s, steps[0], r);
      LostForever(cfg, After(cfg, s, steps[0]), steps[1..], t, r);
    }
  }

  /** Another client's insert into the range the durable cursors vouch for is lost on arrival. */
  lemma InsertBehindFrontierIsLost(cfg: Config, s: State, row: Row)
    requires Inv(cfg, s) && Enabled(s, ForeignAppend(row)) && Passed(s.saved, row.key)
    requires cfg.localId(row.key.id) !in s.local
    requires forall r | r in s.gateway :: cfg.localId(r.key.id) != cfg.localId(row.key.id)
    ensures Lost(cfg, After(cfg, s, ForeignAppend(row)), row)
  {
    PublishKeepsTable(s.gateway, row);
  }

  /** A local event the push cursor has passed without sending. */
  ghost predicate Stranded(cfg: Config, s: State, u: int) {
    && Table(s.gateway)
    && u in s.local && !OnGateway(cfg, s.gateway, u)
    && s.saved.pushAfter.Some? && AtMost(LocalKey(s.local, u), s.saved.pushAfter.value)
    && (s.loop.Pushing? ==> forall k | k in s.loop.pending :: k.id != u && Less(LocalKey(s.local, u), k))
  }

  lemma StepKeepsStranded(cfg: Config, s: State, step: Step, u: int)
    requires ValidConfig(cfg) && Stranded(cfg, s, u) && Enabled(s, step)
    requires NotRewritten(cfg, u, [step])
    ensures Stranded(cfg, After(cfg, s, step), u)
  {
    assert step in [step];
    match step
    case SendOne =>
      assert s.loop.pending[0] in s.loop.pending;
      PublishKeepsTable(s.gateway, ToRemote(cfg, s.loop.pending[0].id, s.local[s.loop.pending[0].id]));
    case ForeignAppend(row) =>
      PublishKeepsTable(s.gateway, row);
    case SavePushed =>
      assert s.loop.pending[0] in s.loop.pending;
      forall k | k in s.loop.pending[1..] ensures k in s.loop.pending { }
    case _ =>
  }

  /** No later sync ever pushes a stranded event. */
  lemma {:induction false} StrandedForever(cfg: Config, s: State, steps: seq<Step>, t: State, u: int)
    requires ValidConfig(cfg) && Stranded(cfg, s, u) && Leads(cfg, s, steps, t)
    requires NotRewritten(cfg, u, steps)
    ensures Stranded(cfg, t, u)
    decreases |steps|
  {
    if steps != [] {
      assert steps[0] in steps;
      assert forall x | x in steps[1..] :: x in steps;
      StepKeepsStranded(cfg, s, steps[0], u);
      StrandedForever(cfg, After(cfg, s, steps[0]), steps[1..], t, u);
    }
  }

  /**
   * A local write that lands behind the head of a push in progress, though past the saved cursor, is stranded as soon as
   * the head is saved. Sorting after `pushAfter` alone is therefore not enough.
   */
  lemma WriteBehindSnapshotIsStranded(cfg: Config, s: State, u: int, event: LocalEvent)
    requires Inv(cfg, s) && Enabled(s, SavePushed) && Enabled(s, LocalAppend(u, event))
    requires !OnGateway(cfg, s.gateway, u)
    requires s.saved.pushAfter.Some? ==> Less(s.saved.pushAfter.value, Key(event.at, u))
    requires Less(Key(event.at, u), s.loop.pending[0])
    ensures Stranded(cfg, After(cfg, After(cfg, s, LocalAppend(u, event)), SavePushed), u)
  {
    forall k | k in s.loop.pending[1..] ensures k.id != u && Less(s.loop.pending[0], k) {
      var i :| 0 < i < |s.loop.pending| && s.loop.pending[i] == k;
    }
  }
}
