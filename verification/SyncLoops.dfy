/** What whole push and pull loops amount to, and when a sync converges. */
module SyncLoops {
  import opened Prelude
  import opened Ordering
  import opened Gateway
  import opened SyncMachine

  // ----- What a whole loop amounts to -----

  function PublishAll(cfg: Config, rows: seq<Row>, log: LocalLog, list: seq<Key>): seq<Row>
    requires forall k | k in list :: k.id in log
  {
    if list == [] then rows
    else
      var last := list[|list| - 1];
      Publish(PublishAll(cfg, rows, log, list[..|list| - 1]), ToRemote(cfg, last.id, log[last.id]))
  }

  function ImportAll(cfg: Config, log: LocalLog, events: seq<Row>): LocalLog {
    if events == [] then log
    else Import(cfg, ImportAll(cfg, log, events[..|events| - 1]), events[|events| - 1])
  }

  /** The rows an incremental pull visits once `n` rows lie at or below its cursor. */
  function CaughtUp(rows: seq<Row>, n: nat, limit: nat, cap: nat): seq<Row>
    requires n <= |rows| && 1 <= limit
    decreases |rows| - n
  {
    var served := Served(limit, cap, |rows| - n);
    rows[n..n + served]
    + if Fetched(limit, cap, |rows| - n) > limit then CaughtUp(rows, n + served, limit, cap) else []
  }

  /** The non-empty pages that pull asks for. */
  function CatchUpPages(total: nat, n: nat, limit: nat, cap: nat): nat
    requires n <= total && 1 <= limit
    decreases total - n
  {
    var served := Served(limit, cap, total - n);
    if served == 0 then 0
    else 1 + if Fetched(limit, cap, total - n) > limit then CatchUpPages(total, n + served, limit, cap) else 0
  }

  lemma {:induction false} CatchUpPageCount(total: nat, n: nat, limit: nat, cap: nat)
    requires n <= total && 1 <= limit && 1 <= cap && Honest(limit, cap, total - n)
    ensures CatchUpPages(total, n, limit, cap) == (total - n + limit - 1) / limit
    decreases total - n
  {
    SamePages(total, n, limit, cap);
    BackfillPageCount(total - n, limit, cap);
  }

  lemma {:induction false} SamePages(total: nat, n: nat, limit: nat, cap: nat)
    requires n <= total && 1 <= limit
    ensures CatchUpPages(total, n, limit, cap) == BackfillPages(total - n, limit, cap)
    decreases total - n
  {
    var served := Served(limit, cap, total - n);
    if Fetched(limit, cap, total - n) > limit {
      SamePages(total, n + served, limit, cap);
      assert total - (n + served) == total - n - served;
    }
  }

  lemma {:induction false} CaughtUpVisitsOldest(rows: seq<Row>, n: nat, limit: nat, cap: nat)
    requires n <= |rows| && 1 <= limit && 1 <= cap
    ensures limit < cap ==> CaughtUp(rows, n, limit, cap) == rows[n..]
    ensures cap <= limit ==> CaughtUp(rows, n, limit, cap) == rows[n..n + Min(cap, |rows| - n)]
    decreases |rows| - n
  {
    var served := Served(limit, cap, |rows| - n);
    if Fetched(limit, cap, |rows| - n) > limit {
      CaughtUpVisitsOldest(rows, n + served, limit, cap);
      assert rows[n..n + served] + rows[n + served..] == rows[n..];
    } else if limit < cap {
      assert n + served == |rows|;
    }
  }

  lemma {:induction false} KeyPositions(rows: seq<Row>, i: nat)
    requires Table(rows) && i < |rows|
    ensures Below(rows, rows[i].key) == i && UpTo(rows, rows[i].key) == i + 1
  {
    BelowSplits(rows, rows[i].key);
    UpToSplits(rows, rows[i].key);
    assert forall j | 0 <= j < |rows| :: Less(rows[j].key, rows[i].key) <==> j < i;
    assert forall j | 0 <= j < |rows| :: AtMost(rows[j].key, rows[i].key) <==> j <= i;
    var n, m := Below(rows, rows[i].key), UpTo(rows, rows[i].key);
    var j := if n < i then n else i;
    assert Less(rows[j].key, rows[i].key) <==> j < i;
    var k := if m <= i then m else if i + 1 < |rows| then i + 1 else i;
    assert AtMost(rows[k].key, rows[i].key) <==> k <= i;
  }

  lemma ServedIs(limit: nat, cap: nat, n: nat)
    requires 1 <= limit && 1 <= cap
    ensures var served := Served(limit, cap, n);
            && served <= n && (n > 0 <==> served > 0)
            && (Fetched(limit, cap, n) > limit ==> served == limit < n)
  {
  }

  lemma {:induction false} BackfillUnfolds(rows: seq<Row>, n: nat, limit: nat, cap: nat)
    requires n <= |rows| && 1 <= limit && 1 <= cap
    ensures var rest := n - Served(limit, cap, n);
            var more := Fetched(limit, cap, n) > limit;
            && (n > 0 <==> rest < n)
            && (more ==> rest > 0)
            && Backfilled(rows, n, limit, cap)
               == Reverse(rows[rest..n]) + (if more then Backfilled(rows, rest, limit, cap) else [])
            && BackfillPages(n, limit, cap)
               == (if n == 0 then 0 else 1) + (if more then BackfillPages(rest, limit, cap) else 0)
  {
    hide Served, Fetched;
    ServedIs(limit, cap, n);
  }

  lemma {:induction false} CatchUpUnfolds(rows: seq<Row>, n: nat, limit: nat, cap: nat)
    requires n <= |rows| && 1 <= limit && 1 <= cap
    ensures var rest := n + Served(limit, cap, |rows| - n);
            var more := Fetched(limit, cap, |rows| - n) > limit;
            && (n < |rows| <==> n < rest)
            && rest <= |rows| && (more ==> rest < |rows|)
            && CaughtUp(rows, n, limit, cap)
               == rows[n..rest] + (if more then CaughtUp(rows, rest, limit, cap) else [])
            && CatchUpPages(|rows|, n, limit, cap)
               == (if n == |rows| then 0 else 1) + (if more then CatchUpPages(|rows|, rest, limit, cap) else 0)
  {
    hide Served, Fetched;
    ServedIs(limit, cap, |rows| - n);
  }

  /** What a walk leaves behind: the local log, the rows visited and the non-empty pages read. */
  datatype Outcome = Outcome(log: LocalLog, visited: nat, pages: nat)

  function Then(first: LocalLog, served: nat, more: bool, rest: Outcome): Outcome {
    if more then Outcome(rest.log, served + rest.visited, 1 + rest.pages) else Outcome(first, served, 1)
  }

  function BackfillFrom(cfg: Config, rows: seq<Row>, log: LocalLog, n: nat): Outcome
    requires n <= |rows| && 1 <= cfg.limit
    decreases n
  {
    var served := Served(cfg.limit, cfg.cap, n);
    if served == 0 then Outcome(log, 0, 0)
    else
      var first := ImportAll(cfg, log, Reverse(rows[n - served..n]));
      Then(first, served, Fetched(cfg.limit, cfg.cap, n) > cfg.limit, BackfillFrom(cfg, rows, first, n - served))
  }

  function WalkFrom(cfg: Config, rows: seq<Row>, log: LocalLog, n: nat): Outcome
    requires n <= |rows| && 1 <= cfg.limit
    decreases |rows| - n
  {
    var served := Served(cfg.limit, cfg.cap, |rows| - n);
    if served == 0 then Outcome(log, 0, 0)
    else
      var first := ImportAll(cfg, log, rows[n..n + served]);
      Then(first, served, Fetched(cfg.limit, cfg.cap, |rows| - n) > cfg.limit, WalkFrom(cfg, rows, first, n + served))
  }

  lemma BackfillFromUnfolds(cfg: Config, rows: seq<Row>, log: LocalLog, n: nat)
    requires n <= |rows| && 1 <= cfg.limit && 1 <= cfg.cap
    ensures n == 0 ==> BackfillFrom(cfg, rows, log, n) == Outcome(log, 0, 0)
    ensures n > 0 ==>
              var left := n - Served(cfg.limit, cfg.cap, n);
              var first := ImportAll(cfg, log, Reverse(rows[left..n]));
              BackfillFrom(cfg, rows, log, n)
              == Then(first, n - left, Fetched(cfg.limit, cfg.cap, n) > cfg.limit, BackfillFrom(cfg, rows, first, left))
  {
    hide ImportAll, Then;
  }

  lemma WalkFromUnfolds(cfg: Config, rows: seq<Row>, log: LocalLog, n: nat)
    requires n <= |rows| && 1 <= cfg.limit && 1 <= cfg.cap
    ensures n == |rows| ==> WalkFrom(cfg, rows, log, n) == Outcome(log, 0, 0)
    ensures n < |rows| ==>
              var left := n + Served(cfg.limit, cfg.cap, |rows| - n);
              var first := ImportAll(cfg, log, rows[n..left]);
              WalkFrom(cfg, rows, log, n)
              == Then(first, left - n, Fetched(cfg.limit, cfg.cap, |rows| - n) > cfg.limit, WalkFrom(cfg, rows, first, left))
  {
    hide ImportAll, Then;
  }

  lemma {:induction false} ImportNothing(cfg: Config, log: LocalLog)
    ensures ImportAll(cfg, log, []) == log
  {
  }

  lemma {:induction false} BackfillFromVisits(cfg: Config, rows: seq<Row>, log: LocalLog, n: nat)
    requires n <= |rows| && 1 <= cfg.limit && 1 <= cfg.cap
    ensures var visited := Backfilled(rows, n, cfg.limit, cfg.cap);
            BackfillFrom(cfg, rows, log, n)
            == Outcome(ImportAll(cfg, log, visited), |visited|, BackfillPages(n, cfg.limit, cfg.cap))
    decreases n
  {
    hide ImportAll, Served, Fetched, BackfillFrom, Backfilled, BackfillPages;
    var left := n - Served(cfg.limit, cfg.cap, n);
    var page := Reverse(rows[left..n]);
    BackfillUnfolds(rows, n, cfg.limit, cfg.cap);
    BackfillFromUnfolds(cfg, rows, log, n);
    if n == 0 {
      ImportNothing(cfg, log);
      assert page + [] == [];
    } else if Fetched(cfg.limit, cfg.cap, n) > cfg.limit {
      BackfillFromVisits(cfg, rows, ImportAll(cfg, log, page), left);
      ImportAllConcat(cfg, log, page, Backfilled(rows, left, cfg.limit, cfg.cap));
    } else {
      assert page + [] == page;
    }
  }

  lemma {:induction false} WalkFromVisits(cfg: Config, rows: seq<Row>, log: LocalLog, n: nat)
    requires n <= |rows| && 1 <= cfg.limit && 1 <= cfg.cap
    ensures var visited := CaughtUp(rows, n, cfg.limit, cfg.cap);
            WalkFrom(cfg, rows, log, n)
            == Outcome(ImportAll(cfg, log, visited), |visited|, CatchUpPages(|rows|, n, cfg.limit, cfg.cap))
    decreases |rows| - n
  {
    hide ImportAll, Served, Fetched, WalkFrom, CaughtUp, CatchUpPages;
    var left := n + Served(cfg.limit, cfg.cap, |rows| - n);
    var page := rows[n..left];
    CatchUpUnfolds(rows, n, cfg.limit, cfg.cap);
    WalkFromUnfolds(cfg, rows, log, n);
    if n == |rows| {
      ImportNothing(cfg, log);
      assert page + [] == [];
    } else if Fetched(cfg.limit, cfg.cap, |rows| - n) > cfg.limit {
      WalkFromVisits(cfg, rows, ImportAll(cfg, log, page), left);
      ImportAllConcat(cfg, log, page, CaughtUp(rows, left, cfg.limit, cfg.cap));
    } else {
      assert page + [] == page;
    }
  }

  lemma OlderPageIs(cfg: Config, rows: seq<Row>, before: Option<Key>)
    requires ValidConfig(cfg) && Beneath(rows, before) > 0
    ensures var page := OlderPage(rows, before, cfg.limit, cfg.cap);
            var n := Beneath(rows, before);
            var left := n - Served(cfg.limit, cfg.cap, n);
            && 0 <= left < n && page.events == Reverse(rows[left..n]) && page.next == Some(rows[left].key)
            && page.hasMore == (Fetched(cfg.limit, cfg.cap, n) > cfg.limit) && (page.hasMore ==> left > 0)
  {
    hide Beneath;
  }

  /** One backfill page, and what is left of the walk after it. */
  lemma {:induction false} OlderPageAdvances(cfg: Config, rows: seq<Row>, log: LocalLog, before: Option<Key>)
    requires ValidConfig(cfg) && Table(rows) && Beneath(rows, before) > 0
    ensures var page := OlderPage(rows, before, cfg.limit, cfg.cap);
            var n := Beneath(rows, before);
            && page.next.Some? && page.events != [] && page.events[0] == rows[n - 1]
            && Beneath(rows, page.next) < n && (page.hasMore ==> Beneath(rows, page.next) > 0)
            && var first := ImportAll(cfg, log, page.events);
               BackfillFrom(cfg, rows, log, n)
               == Then(first, |page.events|, page.hasMore, BackfillFrom(cfg, rows, first, Beneath(rows, page.next)))
  {
    hide ImportAll, BackfillFrom, Then, Served, Fetched, Table, OlderPage, Below;
    var n := Beneath(rows, before);
    OlderPageIs(cfg, rows, before);
    BackfillFromUnfolds(cfg, rows, log, n);
    KeyPositions(rows, n - Served(cfg.limit, cfg.cap, n));
  }

  lemma {:induction false} NewerPageIs(cfg: Config, rows: seq<Row>, cursor: Key)
    requires ValidConfig(cfg) && UpTo(rows, cursor) < |rows|
    ensures var page := NewerPage(rows, cursor, cfg.limit, cfg.cap);
            var n := UpTo(rows, cursor);
            var left := n + Served(cfg.limit, cfg.cap, |rows| - n);
            && n < left <= |rows| && page.events == rows[n..left] && page.next == Some(rows[left - 1].key)
            && page.hasMore == (Fetched(cfg.limit, cfg.cap, |rows| - n) > cfg.limit)
  {
    hide UpTo;
  }

  /** One incremental page, and what is left of the walk after it. */
  lemma {:induction false} NewerPageAdvances(cfg: Config, rows: seq<Row>, log: LocalLog, cursor: Key)
    requires ValidConfig(cfg) && Table(rows) && UpTo(rows, cursor) < |rows|
    ensures var page := NewerPage(rows, cursor, cfg.limit, cfg.cap);
            var n := UpTo(rows, cursor);
            && page.next.Some? && page.events != []
            && UpTo(rows, page.next.value) == n + |page.events| <= |rows|
            && page.next.value == rows[n + |page.events| - 1].key
            && var first := ImportAll(cfg, log, page.events);
               WalkFrom(cfg, rows, log, n)
               == Then(first, |page.events|, page.hasMore, WalkFrom(cfg, rows, first, n + |page.events|))
  {
    hide ImportAll, WalkFrom, Then, Served, Fetched, Table, UpTo, NewerPage;
    var n := UpTo(rows, cursor);
    NewerPageIs(cfg, rows, cursor);
    WalkFromUnfolds(cfg, rows, log, n);
    KeyPositions(rows, n + Served(cfg.limit, cfg.cap, |rows| - n) - 1);
  }

  lemma {:induction false} NothingOlder(cfg: Config, rows: seq<Row>, log: LocalLog, before: Option<Key>)
    requires ValidConfig(cfg)
    ensures OlderPage(rows, before, cfg.limit, cfg.cap).events == [] <==> Beneath(rows, before) == 0
    ensures BackfillFrom(cfg, rows, log, 0) == Outcome(log, 0, 0)
  {
  }

  lemma {:induction false} NothingNewer(cfg: Config, rows: seq<Row>, log: LocalLog, cursor: Key)
    requires ValidConfig(cfg)
    ensures NewerPage(rows, cursor, cfg.limit, cfg.cap).events == [] <==> UpTo(rows, cursor) == |rows|
    ensures WalkFrom(cfg, rows, log, |rows|) == Outcome(log, 0, 0)
  {
  }

  lemma {:induction false} ImportAllSnoc(cfg: Config, log: LocalLog, events: seq<Row>, row: Row)
    ensures ImportAll(cfg, log, events + [row]) == Import(cfg, ImportAll(cfg, log, events), row)
  {
    assert (events + [row])[..|events|] == events;
  }

  lemma {:induction false} ImportAllConcat(cfg: Config, log: LocalLog, a: seq<Row>, b: seq<Row>)
    ensures ImportAll(cfg, log, a + b) == ImportAll(cfg, ImportAll(cfg, log, a), b)
  {
    if b == [] {
      assert a + b == a;
    } else {
      var n := |b| - 1;
      ImportAllConcat(cfg, log, a, b[..n]);
      assert a + b == (a + b[..n]) + [b[n]];
      ImportAllSnoc(cfg, log, a + b[..n], b[n]);
    }
  }

  lemma {:induction false} ImportAllCovers(cfg: Config, log: LocalLog, events: seq<Row>)
    ensures var after := ImportAll(cfg, log, events);
            && (forall u | u in log :: u in after && after[u] == log[u])
            && (forall row | row in events :: Covered(cfg, after, row))
            && (forall u | u in after :: u in log || exists row | row in events :: cfg.localId(row.key.id) == u)
  {
    if events != [] {
      var n := |events| - 1;
      var mid := ImportAll(cfg, log, events[..n]);
      ImportAllCovers(cfg, log, events[..n]);
      ImportCovers(cfg, mid, events[n]);
      forall row | row in events ensures Covered(cfg, ImportAll(cfg, log, events), row) {
        if row in events[..n] {
          CoveredGrows(cfg, mid, ImportAll(cfg, log, events), row);
        }
      }
      forall u | u in ImportAll(cfg, log, events) && u !in log
        ensures exists row | row in events :: cfg.localId(row.key.id) == u
      {
        if u in mid {
          var row :| row in events[..n] && cfg.localId(row.key.id) == u;
          assert row in events;
        } else {
          assert events[n] in events;
        }
      }
    }
  }

  lemma {:induction false} PublishAllReaches(cfg: Config, rows: seq<Row>, log: LocalLog, list: seq<Key>)
    requires ValidConfig(cfg) && Table(rows) && forall k | k in list :: k.id in log
    ensures var after := PublishAll(cfg, rows, log, list);
            && Table(after)
            && (forall row | row in rows :: row in after)
            && (forall k | k in list :: OnGateway(cfg, after, k.id))
            && (forall row | row in after :: row in rows || cfg.localId(row.key.id) in log)
  {
    if list != [] {
      var n := |list| - 1;
      var mid := PublishAll(cfg, rows, log, list[..n]);
      var last := list[n];
      PublishAllReaches(cfg, rows, log, list[..n]);
      PublishKeepsTable(mid, ToRemote(cfg, last.id, log[last.id]));
      PublishReaches(cfg, mid, last.id, log[last.id]);
      forall k | k in list ensures OnGateway(cfg, PublishAll(cfg, rows, log, list), k.id) {
        if k in list[..n] {
          var row :| row in mid && cfg.localId(row.key.id) == k.id;
          assert row in PublishAll(cfg, rows, log, list);
        }
      }
    }
  }

  // ----- What travels -----

  /** This row is that event under the client's rewriting of identifiers and instants, and claims the step it claims. */
  ghost predicate SentAs(cfg: Config, k: Key, event: LocalEvent, row: Row) {
    && row.key.at == cfg.remoteAt(k.at) && row.key.id == cfg.remoteId(k.id)
    && (row.claim.Some? <==> event.claim.Some?)
    && (event.claim.Some? ==> row.claim == Some(event.claim.value.step))
  }

  /** The first listed event to go by its remote identifier, where nothing on the gateway went by it before. */
  ghost predicate SentBy(cfg: Config, before: seq<Row>, log: LocalLog, list: seq<Key>, i: int, row: Row) {
    && 0 <= i < |list| && list[i].id in log
    && (forall r | r in before :: r.key.id != cfg.remoteId(list[i].id))
    && (forall j | 0 <= j < i :: cfg.remoteId(list[j].id) != cfg.remoteId(list[i].id))
    && SentAs(cfg, list[i], log[list[i].id], row)
  }

  /**
   * The rows after a push are those from before and, for each identifier the gateway lacked, the first listed event that goes
   * by it.
   */
  ghost predicate Sent(cfg: Config, before: seq<Row>, log: LocalLog, list: seq<Key>, after: seq<Row>) {
    forall row :: row in after <==> row in before || exists i :: SentBy(cfg, before, log, list, i, row)
  }

  lemma ToRemoteIsSent(cfg: Config, k: Key, event: LocalEvent, row: Row)
    requires k.at == event.at
    ensures SentAs(cfg, k, event, row) <==> row == ToRemote(cfg, k.id, event)
  {
  }

  lemma PublishedRows(rows: seq<Row>, row: Row)
    requires Table(rows)
    ensures Known(rows, row.key.id) ==> Publish(rows, row) == rows
    ensures !Known(rows, row.key.id) ==> forall r :: r in Publish(rows, row) <==> r in rows || r == row
  {
    PublishKeepsTable(rows, row);
  }

  lemma FirstWith(cfg: Config, list: seq<Key>, id: int, n: nat) returns (i: nat)
    requires n < |list| && cfg.remoteId(list[n].id) == id
    ensures i < |list| && cfg.remoteId(list[i].id) == id
    ensures forall j | 0 <= j < i :: cfg.remoteId(list[j].id) != id
  {
    i := 0;
    while cfg.remoteId(list[i].id) != id
      invariant i <= n && forall j | 0 <= j < i :: cfg.remoteId(list[j].id) != id
      decreases n - i
    {
      i := i + 1;
    }
  }

  lemma KnownAfterSending(cfg: Config, before: seq<Row>, log: LocalLog, list: seq<Key>, after: seq<Row>, id: int)
    requires (forall k | k in list :: k.id in log && k.at == log[k.id].at) && Sent(cfg, before, log, list, after)
    ensures Known(after, id) <==> Known(before, id) || exists i :: 0 <= i < |list| && cfg.remoteId(list[i].id) == id
  {
    if Known(before, id) {
      var r :| r in before && r.key.id == id;
      assert r in after;
    } else if exists n :: 0 <= n < |list| && cfg.remoteId(list[n].id) == id {
      var n :| 0 <= n < |list| && cfg.remoteId(list[n].id) == id;
      var i := FirstWith(cfg, list, id, n);
      assert list[i] in list;
      var row := ToRemote(cfg, list[i].id, log[list[i].id]);
      assert SentBy(cfg, before, log, list, i, row);
      assert row in after;
    }
    if Known(after, id) {
      var r :| r in after && r.key.id == id;
      assert r in before || exists i :: SentBy(cfg, before, log, list, i, r);
    }
  }

  lemma SentByLonger(cfg: Config, before: seq<Row>, log: LocalLog, list: seq<Key>, k: Key, i: int, row: Row)
    ensures SentBy(cfg, before, log, list + [k], i, row)
       <==> || SentBy(cfg, before, log, list, i, row)
            || (i == |list| && SentBy(cfg, before, log, list + [k], |list|, row))
  {
    hide SentAs;
    var all := list + [k];
    assert forall j | 0 <= j < |list| :: all[j] == list[j];
  }

  lemma SentByLast(cfg: Config, before: seq<Row>, log: LocalLog, list: seq<Key>, k: Key, mid: seq<Row>, row: Row)
    requires (forall x | x in list :: x.id in log && x.at == log[x.id].at) && k.id in log && k.at == log[k.id].at
    requires Sent(cfg, before, log, list, mid)
    ensures SentBy(cfg, before, log, list + [k], |list|, row)
       <==> !Known(mid, cfg.remoteId(k.id)) && row == ToRemote(cfg, k.id, log[k.id])
  {
    var all := list + [k];
    assert all[|list|] == k && forall j | 0 <= j < |list| :: all[j] == list[j];
    KnownAfterSending(cfg, before, log, list, mid, cfg.remoteId(k.id));
    ToRemoteIsSent(cfg, k, log[k.id], row);
    hide SentAs, ToRemote, Sent;
  }

  lemma SentNext(cfg: Config, before: seq<Row>, log: LocalLog, list: seq<Key>, k: Key, mid: seq<Row>)
    requires (forall x | x in list :: x.id in log && x.at == log[x.id].at) && k.id in log && k.at == log[k.id].at
    requires Table(mid) && Sent(cfg, before, log, list, mid)
    ensures Sent(cfg, before, log, list + [k], Publish(mid, ToRemote(cfg, k.id, log[k.id])))
  {
    var row := ToRemote(cfg, k.id, log[k.id]);
    var all := list + [k];
    assert row.key.id == cfg.remoteId(k.id);
    PublishedRows(mid, row);
    hide Publish, Table, Known, SentBy, ToRemote;
    forall r ensures r in Publish(mid, row) <==> r in before || exists i :: SentBy(cfg, before, log, all, i, r) {
      SentByLast(cfg, before, log, list, k, mid, r);
      forall i { SentByLonger(cfg, before, log, list, k, i, r); }
    }
  }

  /** What a push leaves on the gateway, told without running it. */
  lemma {:induction false} PublishAllSends(cfg: Config, rows: seq<Row>, log: LocalLog, list: seq<Key>)
    requires ValidConfig(cfg) && Table(rows) && forall k | k in list :: k.id in log && k.at == log[k.id].at
    ensures Sent(cfg, rows, log, list, PublishAll(cfg, rows, log, list))
  {
    if list == [] {
      assert forall row, i :: !SentBy(cfg, rows, log, [], i, row);
    } else {
      var n := |list| - 1;
      PublishAllSends(cfg, rows, log, list[..n]);
      PublishAllReaches(cfg, rows, log, list[..n]);
      assert list[..n] + [list[n]] == list;
      hide Sent, Publish, ToRemote, Table;
      SentNext(cfg, rows, log, list[..n], list[n], PublishAll(cfg, rows, log, list[..n]));
    }
  }

  /** A client with distinct remote identifiers sends every listed event the gateway lacks. */
  lemma {:induction false} EachIsSent(cfg: Config, before: seq<Row>, log: LocalLog, list: seq<Key>, after: seq<Row>, k: Key)
    requires ValidConfig(cfg) && (forall x | x in list :: x.id in log && x.at == log[x.id].at)
    requires Sent(cfg, before, log, list, after) && k in list
    requires forall row | row in before :: row.key.id != cfg.remoteId(k.id)
    ensures exists row :: row in after && SentAs(cfg, k, log[k.id], row)
  {
    var n :| 0 <= n < |list| && list[n] == k;
    var i := FirstWith(cfg, list, cfg.remoteId(k.id), n);
    assert list[i] in list && cfg.localId(cfg.remoteId(list[i].id)) == list[i].id;
    assert cfg.localId(cfg.remoteId(k.id)) == k.id;
    var row := ToRemote(cfg, k.id, log[k.id]);
    assert SentBy(cfg, before, log, list, i, row);
    assert row in after;
  }

  /** This local event is that row under the client's rewriting, claiming the same step in the client's own workspace. */
  ghost predicate ReceivedAs(cfg: Config, row: Row, u: int, event: LocalEvent) {
    && u == cfg.localId(row.key.id) && event.at == cfg.localAt(row.key.at)
    && (event.claim.Some? <==> row.claim.Some?)
    && (row.claim.Some? ==> event.claim.value.home == cfg.home && event.claim.value.step == row.claim.value)
  }

  /** What was in the log is as it was, and what is new in it comes from one of these rows. */
  ghost predicate CameFrom(cfg: Config, before: LocalLog, visited: seq<Row>, after: LocalLog) {
    && (forall u | u in before :: u in after && after[u] == before[u])
    && forall u | u in after && u !in before :: exists row :: row in visited && ReceivedAs(cfg, row, u, after[u])
  }

  lemma ImportCameFrom(cfg: Config, log: LocalLog, row: Row)
    ensures CameFrom(cfg, log, [row], Import(cfg, log, row))
  {
    ImportCovers(cfg, log, row);
    hide Covered;
    assert row in [row];
    assert ReceivedAs(cfg, row, cfg.localId(row.key.id), ToLocal(cfg, row));
    var after := Import(cfg, log, row);
    forall u | u in after && u !in log ensures exists r :: r in [row] && ReceivedAs(cfg, r, u, after[u]) {
      assert after[u] == ToLocal(cfg, row) && ReceivedAs(cfg, row, u, after[u]);
    }
  }

  lemma CameFromGrows(cfg: Config, a: LocalLog, xs: seq<Row>, b: LocalLog, ys: seq<Row>, c: LocalLog)
    requires CameFrom(cfg, a, xs, b) && CameFrom(cfg, b, ys, c)
    ensures CameFrom(cfg, a, xs + ys, c)
  {
    hide ReceivedAs;
    forall u | u in c && u !in a ensures exists row :: row in xs + ys && ReceivedAs(cfg, row, u, c[u]) {
      if u in b {
        var row :| row in xs && ReceivedAs(cfg, row, u, b[u]);
        assert row in xs + ys;
      } else {
        var row :| row in ys && ReceivedAs(cfg, row, u, c[u]);
        assert row in xs + ys;
      }
    }
  }

  /** What an import brings into the log is what its rows say, told without running it. */
  lemma {:induction false} ImportAllCameFrom(cfg: Config, log: LocalLog, visited: seq<Row>)
    ensures CameFrom(cfg, log, visited, ImportAll(cfg, log, visited))
  {
    if visited != [] {
      var n := |visited| - 1;
      var mid := ImportAll(cfg, log, visited[..n]);
      ImportAllCameFrom(cfg, log, visited[..n]);
      ImportCameFrom(cfg, mid, visited[n]);
      CameFromGrows(cfg, log, visited[..n], mid, [visited[n]], Import(cfg, mid, visited[n]));
      assert visited[..n] + [visited[n]] == visited;
      hide CameFrom;
    }
  }

  /** Both sides hold the same events, up to initial claims the local index refuses. */
  ghost predicate Converged(cfg: Config, rows: seq<Row>, log: LocalLog) {
    && (forall u | u in log :: OnGateway(cfg, rows, u))
    && (forall row | row in rows :: Covered(cfg, log, row))
  }

  // ----- When a whole sync converges -----

  /** A push sends everything the durable cursor does not already vouch for. */
  lemma {:induction false} PushReachesEverything(cfg: Config, s: State, list: seq<Key>)
    requires ValidConfig(cfg) && Inv(cfg, s) && s.loop.Idle? && IsPending(s.local, s.saved.pushAfter, list)
    ensures forall u | u in s.local :: OnGateway(cfg, PublishAll(cfg, s.gateway, s.local, list), u)
  {
    var after := PublishAll(cfg, s.gateway, s.local, list);
    PublishAllReaches(cfg, s.gateway, s.local, list);
    forall u | u in s.local ensures OnGateway(cfg, after, u) {
      var k := LocalKey(s.local, u);
      if k !in list {
        assert s.saved.pushAfter.Some? && AtMost(k, s.saved.pushAfter.value);
        var row :| row in s.gateway && cfg.localId(row.key.id) == u;
        assert row in after;
      }
    }
  }

  /** Pushing does not disturb what the pull cursors promise, nor what is still to be fetched. */
  lemma {:induction false} PushKeepsPulledRange(cfg: Config, s: State, list: seq<Key>, p: Option<Key>)
    requires ValidConfig(cfg) && Inv(cfg, s) && s.loop.Idle? && forall k | k in list :: k.id in s.local
    ensures PulledRange(cfg, State(PublishAll(cfg, s.gateway, s.local, list), s.local, s.saved.(pushAfter := p), Idle))
  {
    PublishAllReaches(cfg, s.gateway, s.local, list);
    var after := PublishAll(cfg, s.gateway, s.local, list);
    forall k | Remaining(s.gateway, k) ensures Remaining(after, k) {
      var row :| row in s.gateway && Less(row.key, k);
      assert row in after;
    }
  }

  lemma {:induction false} VisitedAreRows(rows: seq<Row>, n: nat, limit: nat, cap: nat)
    requires n <= |rows| && 1 <= limit && 1 <= cap
    ensures forall row | row in Backfilled(rows, n, limit, cap) :: row in rows
    ensures forall row | row in CaughtUp(rows, n, limit, cap) :: row in rows
  {
    BackfillVisitsNewest(rows, n, limit, cap);
    CaughtUpVisitsOldest(rows, n, limit, cap);
    ReverseElements(rows[..n]);
    ReverseElements(rows[n - Min(cap, n)..n]);
  }

  lemma {:induction false} PulledComeFromGateway(cfg: Config, s: State, visited: seq<Row>)
    requires forall u | u in s.local :: OnGateway(cfg, s.gateway, u)
    requires forall row | row in visited :: row in s.gateway
    ensures forall u | u in ImportAll(cfg, s.local, visited) :: OnGateway(cfg, s.gateway, u)
  {
    ImportAllCovers(cfg, s.local, visited);
  }

  /** Every row is in; of a resumed backfill only the rows its cursors span are asked for. */
  ghost predicate PulledAll(cfg: Config, s: State, after: LocalLog) {
    forall row | row in s.gateway ::
      (s.saved.phase == Backfill && s.saved.after.Some? ==> AtMost(row.key, s.saved.after.value)) ==>
      Covered(cfg, after, row)
  }

  /** A finished backfill has everything up to its newest key; only a resumed one can miss what came later. */
  lemma {:induction false} BackfillConverges(cfg: Config, s: State, after: LocalLog)
    requires ValidConfig(cfg) && Table(s.gateway) && PulledRange(cfg, s) && s.saved.phase == Backfill
    requires after == BackfillFrom(cfg, s.gateway, s.local, Beneath(s.gateway, s.saved.before)).log
    requires Honest(cfg.limit, cfg.cap, Beneath(s.gateway, s.saved.before))
    ensures PulledAll(cfg, s, after)
  {
    hide ImportAll, BackfillFrom;
    var rows := s.gateway;
    var n := Beneath(rows, s.saved.before);
    BackfillFromVisits(cfg, rows, s.local, n);
    BackfillIsCompleteIff(rows, n, cfg.limit, cfg.cap);
    var visited := Reverse(rows[..n]);
    ReverseElements(rows[..n]);
    ImportAllCovers(cfg, s.local, visited);
    if s.saved.before.Some? { BelowSplits(rows, s.saved.before.value); }
    forall row | row in rows && (s.saved.after.Some? ==> AtMost(row.key, s.saved.after.value))
      ensures Covered(cfg, after, row)
    {
      var i :| 0 <= i < |rows| && rows[i] == row;
      if i < n {
        assert rows[..n][i] == row;
        assert row in visited;
      } else {
        assert AtMost(s.saved.before.value, row.key);
        CoveredGrows(cfg, s.local, after, row);
      }
    }
  }

  lemma {:induction false} HonestWalkImportsTheRest(cfg: Config, rows: seq<Row>, log: LocalLog, n: nat)
    requires ValidConfig(cfg) && n <= |rows| && Honest(cfg.limit, cfg.cap, |rows| - n)
    ensures WalkFrom(cfg, rows, log, n).log == ImportAll(cfg, log, rows[n..])
  {
    hide ImportAll, WalkFrom, CaughtUp, CatchUpPages;
    WalkFromVisits(cfg, rows, log, n);
    CaughtUpVisitsOldest(rows, n, cfg.limit, cfg.cap);
    if cfg.cap <= cfg.limit {
      assert Min(cfg.cap, |rows| - n) == |rows| - n;
      assert rows[n..|rows|] == rows[n..];
    }
  }

  /** A finished incremental pull has everything. */
  lemma {:induction false} WalkConverges(cfg: Config, s: State, after: LocalLog)
    requires ValidConfig(cfg) && Table(s.gateway) && PulledRange(cfg, s)
    requires s.saved.phase == Incremental && s.saved.after.Some?
    requires after == WalkFrom(cfg, s.gateway, s.local, UpTo(s.gateway, s.saved.after.value)).log
    requires Honest(cfg.limit, cfg.cap, |s.gateway| - UpTo(s.gateway, s.saved.after.value))
    ensures PulledAll(cfg, s, after)
  {
    hide ImportAll, WalkFrom;
    var rows := s.gateway;
    var n := UpTo(rows, s.saved.after.value);
    HonestWalkImportsTheRest(cfg, rows, s.local, n);
    ImportAllCovers(cfg, s.local, rows[n..]);
    UpToSplits(rows, s.saved.after.value);
    forall row | row in rows ensures Covered(cfg, after, row) {
      var i :| 0 <= i < |rows| && rows[i] == row;
      if i >= n {
        assert rows[n..][i - n] == row;
      } else {
        CoveredGrows(cfg, s.local, after, row);
      }
    }
  }

  lemma {:induction false} ClampedBackfillImportsTheNewest(cfg: Config, rows: seq<Row>, log: LocalLog)
    requires ValidConfig(cfg) && cfg.cap <= cfg.limit && cfg.cap <= |rows|
    ensures BackfillFrom(cfg, rows, log, |rows|).log == ImportAll(cfg, log, Reverse(rows[|rows| - cfg.cap..]))
  {
    hide ImportAll, BackfillFrom, Backfilled;
    BackfillFromVisits(cfg, rows, log, |rows|);
    BackfillVisitsNewest(rows, |rows|, cfg.limit, cfg.cap);
    assert rows[|rows| - cfg.cap..|rows|] == rows[|rows| - cfg.cap..];
  }

  lemma RangeShape(cfg: Config, s: State)
    requires PulledRange(cfg, s)
    ensures s.saved.phase == Incremental ==> s.saved.after.Some?
  {
  }

  /** A resumed backfill has rows left to fetch. */
  lemma ResumedBackfillHasRows(cfg: Config, s: State)
    requires PulledRange(cfg, s) && Table(s.gateway) && s.saved.phase == Backfill && s.saved.before.Some?
    ensures Beneath(s.gateway, s.saved.before) > 0
  {
    BelowSplits(s.gateway, s.saved.before.value);
    var r :| r in s.gateway && Less(r.key, s.saved.before.value);
    var i :| 0 <= i < |s.gateway| && s.gateway[i] == r;
    assert Beneath(s.gateway, s.saved.before) > i;
  }

  /** The cursor a finished backfill saves is one its log lives up to. */
  lemma FinishedBackfillKeepsRange(cfg: Config, s: State, after: LocalLog, saved: Checkpoint)
    requires Table(s.gateway) && PulledRange(cfg, s) && s.saved.phase == Backfill
    requires var n := Beneath(s.gateway, s.saved.before);
             saved == if n == 0 then s.saved else
                        s.saved.(phase := Incremental, before := None,
                                 after := if s.saved.after.None? then Some(s.gateway[n - 1].key) else s.saved.after)
    requires PulledAll(cfg, s, after)
    ensures PulledRange(cfg, State(s.gateway, after, saved, Idle))
  {
    if s.saved.before.Some? {
      ResumedBackfillHasRows(cfg, s);
    }
  }

  /** A clamped page that lies about `has_more` turns every row it leaves out into a lost one. */
  lemma {:induction false} ClampedBackfillLoses(cfg: Config, rows: seq<Row>, log: LocalLog, i: nat, p: Option<Key>)
    requires ValidConfig(cfg) && Table(rows) && cfg.cap <= cfg.limit && i < |rows| - cfg.cap
    requires cfg.localId(rows[i].key.id) !in log
    requires forall row | row in rows :: cfg.localId(row.key.id) == cfg.localId(rows[i].key.id) ==> row == rows[i]
    ensures Lost(cfg, State(rows, BackfillFrom(cfg, rows, log, |rows|).log,
                            Checkpoint(p, Incremental, None, Some(rows[|rows| - 1].key)), Idle), rows[i])
  {
    hide ImportAll, BackfillFrom;
    var tail := rows[|rows| - cfg.cap..];
    ClampedBackfillImportsTheNewest(cfg, rows, log);
    ReverseElements(tail);
    ImportAllCovers(cfg, log, Reverse(tail));
    forall row | row in tail ensures row in rows && row != rows[i] {
      var j :| 0 <= j < |tail| && tail[j] == row;
      assert rows[|rows| - cfg.cap + j] == row;
      assert Less(rows[i].key, row.key);
    }
    assert i < |rows| - 1 ==> Less(rows[i].key, rows[|rows| - 1].key);
  }

  /**
   * A first pull by a client that has none of the rows brings in all of them exactly when the pages told the truth.
   */
  lemma {:induction false} FirstPullIsCompleteIff(cfg: Config, rows: seq<Row>, log: LocalLog)
    requires ValidConfig(cfg) && Table(rows)
    requires forall row | row in rows :: cfg.localId(row.key.id) !in log && row.claim.None?
    requires forall a, b | a in rows && b in rows && cfg.localId(a.key.id) == cfg.localId(b.key.id) :: a == b
    ensures (forall row | row in rows :: Covered(cfg, BackfillFrom(cfg, rows, log, |rows|).log, row))
       <==> Honest(cfg.limit, cfg.cap, |rows|)
  {
    var s := State(rows, log, FRESH, Idle);
    if Honest(cfg.limit, cfg.cap, |rows|) {
      BackfillConverges(cfg, s, BackfillFrom(cfg, rows, log, |rows|).log);
    } else {
      ClampedBackfillLoses(cfg, rows, log, 0, None);
      assert rows[0] in rows;
    }
  }

  /** A gateway holding events 0 to n-1. */
  function Numbered(n: nat): seq<Row> {
    seq(n, i => Row(Key(i, i), None))
  }

  /** With the deployed page size and query clamp, a first pull of 501 events loses the oldest one for good. */
  lemma DeployedPullLosesTheOldest(home: int)
    ensures var cfg := Config(PULL_PAGE_LIMIT, QUERY_LIMIT, home, x => x, x => x, x => x, x => x);
            var rows := Numbered(501);
            Lost(cfg, State(rows, BackfillFrom(cfg, rows, map[], |rows|).log,
                            Checkpoint(None, Incremental, None, Some(rows[500].key)), Idle), rows[0])
  {
    var cfg := Config(PULL_PAGE_LIMIT, QUERY_LIMIT, home, x => x, x => x, x => x, x => x);
    ClampedBackfillLoses(cfg, Numbered(501), map[], 0, None);
  }

  /** Nothing local that the gateway does not know. */
  ghost predicate AllOnGateway(cfg: Config, rows: seq<Row>, log: LocalLog) {
    forall u | u in log :: OnGateway(cfg, rows, u)
  }

  /** What a pull that ended in this log and checkpoint has achieved. */
  ghost predicate PulledWell(cfg: Config, s: State, after: LocalLog, saved: Checkpoint, honest: bool) {
    && (AllOnGateway(cfg, s.gateway, s.local) ==> AllOnGateway(cfg, s.gateway, after))
    && (honest ==> PulledAll(cfg, s, after))
    && (honest || s.saved.phase == Incremental ==> PulledRange(cfg, State(s.gateway, after, saved, Idle)))
    && saved.pushAfter == s.saved.pushAfter
    && !(saved.phase == Backfill && saved.before.Some?)
  }

  /** The pages left to pull tell the truth about what follows them. */
  ghost predicate HonestPages(cfg: Config, rows: seq<Row>, c: Checkpoint) {
    Honest(cfg.limit, cfg.cap,
           if c.phase == Incremental && c.after.Some? then |rows| - UpTo(rows, c.after.value) else Beneath(rows, c.before))
  }

  /** The pages left of a backfill do; once it is over nothing is asked of the pages. */
  ghost predicate HonestBackfill(cfg: Config, rows: seq<Row>, c: Checkpoint) {
    c.phase == Incremental || Honest(cfg.limit, cfg.cap, Beneath(rows, c.before))
  }

  /** Where an incremental pull gets to, page by page. */
  ghost predicate WalkedTo(cfg: Config, s: State, after: LocalLog, saved: Checkpoint)
    requires 1 <= cfg.limit && s.saved.after.Some?
  {
    var n := UpTo(s.gateway, s.saved.after.value);
    var out := WalkFrom(cfg, s.gateway, s.local, n);
    && n + out.visited <= |s.gateway| && after == out.log
    && saved == s.saved.(after := if out.visited == 0 then s.saved.after else Some(s.gateway[n + out.visited - 1].key))
  }

  /** Where a pull gets to, page by page, in either phase. */
  ghost predicate PulledAsPaged(cfg: Config, s: State, after: LocalLog, saved: Checkpoint)
    requires 1 <= cfg.limit
  {
    if s.saved.phase == Incremental && s.saved.after.Some? then WalkedTo(cfg, s, after, saved)
    else after == BackfillFrom(cfg, s.gateway, s.local, Beneath(s.gateway, s.saved.before)).log
  }

  /** The rows an incremental pull visits are the ones right above its cursor, honest pages or not. */
  lemma {:induction false} WalkVisitsASlice(cfg: Config, rows: seq<Row>, log: LocalLog, n: nat)
    requires ValidConfig(cfg) && n <= |rows|
    ensures var out := WalkFrom(cfg, rows, log, n);
            && n + out.visited <= |rows|
            && out.visited == (if Honest(cfg.limit, cfg.cap, |rows| - n) then |rows| - n else cfg.cap)
            && CaughtUp(rows, n, cfg.limit, cfg.cap) == rows[n..n + out.visited]
            && out.log == ImportAll(cfg, log, rows[n..n + out.visited])
  {
    hide ImportAll, WalkFrom, CaughtUp, CatchUpPages;
    WalkFromVisits(cfg, rows, log, n);
    CaughtUpVisitsOldest(rows, n, cfg.limit, cfg.cap);
    var visited := CaughtUp(rows, n, cfg.limit, cfg.cap);
    if cfg.limit < cfg.cap {
      assert rows[n..] == rows[n..|rows|];
    }
  }

  lemma {:induction false} WalkCoversUpTo(cfg: Config, rows: seq<Row>, log: LocalLog, cursor: Key, row: Row)
    requires ValidConfig(cfg) && Table(rows) && row in rows
    requires AtMost(row.key, cursor) ==> Covered(cfg, log, row)
    ensures var n := UpTo(rows, cursor);
            var out := WalkFrom(cfg, rows, log, n);
            && n + out.visited <= |rows|
            && (out.visited > 0 && AtMost(row.key, rows[n + out.visited - 1].key) ==> Covered(cfg, out.log, row))
            && (out.visited == 0 ==> out.log == log)
  {
    hide ImportAll, WalkFrom, CaughtUp, UpTo, Covered;
    var n := UpTo(rows, cursor);
    WalkVisitsASlice(cfg, rows, log, n);
    var out := WalkFrom(cfg, rows, log, n);
    var m := n + out.visited;
    ImportAllCovers(cfg, log, rows[n..m]);
    UpToSplits(rows, cursor);
    var i :| 0 <= i < |rows| && rows[i] == row;
    if out.visited == 0 {
      assert rows[n..m] == [];
      ImportNothing(cfg, log);
    } else if i < n {
      CoveredGrows(cfg, log, out.log, row);
    } else if i < m {
      assert rows[n..m][i - n] == row;
    } else {
      assert Less(rows[m - 1].key, rows[i].key);
    }
  }

  lemma {:induction false} WalkedCovers(cfg: Config, s: State, after: LocalLog, saved: Checkpoint, row: Row)
    requires ValidConfig(cfg) && Table(s.gateway) && s.saved.after.Some? && WalkedTo(cfg, s, after, saved)
    requires row in s.gateway && (AtMost(row.key, s.saved.after.value) ==> Covered(cfg, s.local, row))
    ensures saved.after.Some? && (AtMost(row.key, saved.after.value) ==> Covered(cfg, after, row))
  {
    hide WalkFrom, UpTo, Table, Covered;
    WalkCoversUpTo(cfg, s.gateway, s.local, s.saved.after.value, row);
  }

  /** Whatever the pages claim, an incremental pull only moves its cursor over rows it has imported: late, never lost. */
  lemma {:induction false} IncrementalPullsKeepRange(cfg: Config, s: State, after: LocalLog, saved: Checkpoint)
    requires ValidConfig(cfg) && Table(s.gateway) && PulledRange(cfg, s)
    requires s.saved.phase == Incremental && s.saved.after.Some?
    requires WalkedTo(cfg, s, after, saved)
    ensures PulledRange(cfg, State(s.gateway, after, saved, Idle))
  {
    assert saved == s.saved.(after := saved.after);
    hide WalkedTo, Table, Covered, ValidConfig;
    forall row | row in s.gateway
      ensures saved.after.Some? && (AtMost(row.key, saved.after.value) ==> Covered(cfg, after, row))
    {
      WalkedCovers(cfg, s, after, saved, row);
    }
    SavedCursorIsThere(cfg, s, after, saved);
  }

  lemma SavedCursorIsThere(cfg: Config, s: State, after: LocalLog, saved: Checkpoint)
    requires ValidConfig(cfg) && s.saved.after.Some? && WalkedTo(cfg, s, after, saved)
    ensures saved.after.Some?
  {
    hide WalkFrom, UpTo;
  }

  lemma {:induction false} IncrementalPullsWell(cfg: Config, s: State, after: LocalLog, saved: Checkpoint)
    requires ValidConfig(cfg) && Table(s.gateway) && PulledRange(cfg, s)
    requires s.saved.phase == Incremental && s.saved.after.Some?
    requires WalkedTo(cfg, s, after, saved)
    ensures PulledWell(cfg, s, after, saved,
                       Honest(cfg.limit, cfg.cap, |s.gateway| - UpTo(s.gateway, s.saved.after.value)))
  {
    hide Table, WalkFrom, ImportAll, CaughtUp, UpTo, OnGateway, PulledRange, PulledAll;
    var rows := s.gateway;
    var n := UpTo(rows, s.saved.after.value);
    WalkFromVisits(cfg, rows, s.local, n);
    VisitedAreRows(rows, n, cfg.limit, cfg.cap);
    if AllOnGateway(cfg, rows, s.local) {
      PulledComeFromGateway(cfg, s, CaughtUp(rows, n, cfg.limit, cfg.cap));
    }
    IncrementalPullsKeepRange(cfg, s, after, saved);
    if Honest(cfg.limit, cfg.cap, |rows| - n) {
      WalkConverges(cfg, s, after);
    }
  }

  lemma {:induction false} BackfillPullsWell(cfg: Config, s: State, after: LocalLog, saved: Checkpoint)
    requires ValidConfig(cfg) && Table(s.gateway) && PulledRange(cfg, s) && s.saved.phase == Backfill
    requires after == BackfillFrom(cfg, s.gateway, s.local, Beneath(s.gateway, s.saved.before)).log
    requires var n := Beneath(s.gateway, s.saved.before);
             saved == if n == 0 then s.saved else
                        s.saved.(phase := Incremental, before := None,
                                 after := if s.saved.after.None? then Some(s.gateway[n - 1].key) else s.saved.after)
    ensures PulledWell(cfg, s, after, saved, Honest(cfg.limit, cfg.cap, Beneath(s.gateway, s.saved.before)))
  {
    hide Table, BackfillFrom, ImportAll, Backfilled, Beneath, OnGateway, PulledRange, PulledAll;
    var rows := s.gateway;
    var n := Beneath(rows, s.saved.before);
    if s.saved.before.Some? {
      ResumedBackfillHasRows(cfg, s);
    }
    BackfillFromVisits(cfg, rows, s.local, n);
    VisitedAreRows(rows, n, cfg.limit, cfg.cap);
    if AllOnGateway(cfg, rows, s.local) {
      PulledComeFromGateway(cfg, s, Backfilled(rows, n, cfg.limit, cfg.cap));
    }
    if Honest(cfg.limit, cfg.cap, n) {
      BackfillConverges(cfg, s, after);
      FinishedBackfillKeepsRange(cfg, s, after, saved);
    }
  }
}
