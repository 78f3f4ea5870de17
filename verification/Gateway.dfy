/**
 * The cloud gateway's event table for one project, and the pages it serves.
 *
 * The table is kept as the ascending result of `ORDER BY created_at, id`, so a keyset query is a slice of it.
 */
module Gateway {
  import opened Prelude
  import opened Ordering

  /** A stored event: its text key, and the workflow step it claims when it is an initial claim. */
  datatype Row = Row(key: Key, claim: Option<int>)

  /** What the client asks for in one pull request. */
  const PULL_PAGE_LIMIT: nat := 500

  /** What the Worker's query layer clamps every listing to, look-ahead row included. */
  const QUERY_LIMIT: nat := 500

  datatype Page = Page(events: seq<Row>, hasMore: bool, next: Option<Key>)

  ghost predicate Table(rows: seq<Row>) {
    && (forall i, j | 0 <= i < j < |rows| :: Less(rows[i].key, rows[j].key))
    && (forall i, j | 0 <= i < j < |rows| :: rows[i].key.id != rows[j].key.id)
  }

  /** The number of rows strictly below a key. */
  function Below(rows: seq<Row>, k: Key): (n: nat)
    ensures n <= |rows|
  {
    if rows == [] || !Less(rows[0].key, k) then 0 else 1 + Below(rows[1..], k)
  }

  lemma {:induction false} BelowSplits(rows: seq<Row>, k: Key)
    requires Table(rows)
    ensures forall i | 0 <= i < |rows| :: i < Below(rows, k) <==> Less(rows[i].key, k)
  {
    if rows != [] && Less(rows[0].key, k) {
      BelowSplits(rows[1..], k);
      forall i | 0 <= i < |rows| ensures i < Below(rows, k) <==> Less(rows[i].key, k) {
        assert i > 0 ==> rows[i] == rows[1..][i - 1];
      }
    }
  }

  /** The number of rows at or below a key. */
  function UpTo(rows: seq<Row>, k: Key): (n: nat)
    ensures n <= |rows|
  {
    if rows == [] || !AtMost(rows[0].key, k) then 0 else 1 + UpTo(rows[1..], k)
  }

  lemma {:induction false} UpToSplits(rows: seq<Row>, k: Key)
    requires Table(rows)
    ensures forall i | 0 <= i < |rows| :: i < UpTo(rows, k) <==> AtMost(rows[i].key, k)
  {
    if rows != [] && AtMost(rows[0].key, k) {
      UpToSplits(rows[1..], k);
      forall i | 0 <= i < |rows| ensures i < UpTo(rows, k) <==> AtMost(rows[i].key, k) {
        assert i > 0 ==> rows[i] == rows[1..][i - 1];
      }
    }
  }

  /** The number of rows a `before` cursor leaves to fetch. */
  function Beneath(rows: seq<Row>, before: Option<Key>): (n: nat)
    ensures n <= |rows|
  {
    if before.None? then |rows| else Below(rows, before.value)
  }

  predicate Known(rows: seq<Row>, id: int) {
    exists row | row in rows :: row.key.id == id
  }

  /** Append, deduplicated by event id. */
  function Publish(rows: seq<Row>, row: Row): (r: seq<Row>) {
    if Known(rows, row.key.id) then rows
    else var k := Below(rows, row.key); rows[..k] + [row] + rows[k..]
  }

  lemma InsertKeepsTable(rows: seq<Row>, row: Row, k: nat)
    requires Table(rows) && k <= |rows| && !Known(rows, row.key.id)
    requires forall i | 0 <= i < |rows| :: i < k <==> Less(rows[i].key, row.key)
    ensures Table(rows[..k] + [row] + rows[k..])
  {
    var r := rows[..k] + [row] + rows[k..];
    forall i | 0 <= i < |rows| ensures rows[i].key.id != row.key.id {
      assert rows[i] in rows;
    }
    assert forall i | 0 <= i < |r| :: r[i] == if i < k then rows[i] else if i == k then row else rows[i - 1];
    hide Known;
  }

  lemma InsertedRows(rows: seq<Row>, row: Row, k: nat)
    requires k <= |rows|
    ensures forall r :: r in rows[..k] + [row] + rows[k..] <==> r in rows || r == row
  {
    assert rows == rows[..k] + rows[k..];
  }

  lemma PublishKeepsTable(rows: seq<Row>, row: Row)
    requires Table(rows)
    ensures Table(Publish(rows, row))
    ensures forall r :: r in Publish(rows, row) <==> r in rows || (r == row && !Known(rows, row.key.id))
    ensures Known(Publish(rows, row), row.key.id)
  {
    if !Known(rows, row.key.id) {
      var k := Below(rows, row.key);
      BelowSplits(rows, row.key);
      InsertKeepsTable(rows, row, k);
      InsertedRows(rows, row, k);
      assert row in Publish(rows, row);
      hide Table, Below;
    }
  }

  /** How many rows one query returns when `available` match: the look-ahead row is asked for, then clamped. */
  function Fetched(limit: nat, cap: nat, available: nat): nat {
    Min(Min(limit + 1, cap), available)
  }

  function Served(limit: nat, cap: nat, available: nat): (s: nat)
    ensures s <= available
  {
    Min(limit, Fetched(limit, cap, available))
  }

  /** `GET events?before=`: the newest rows below the cursor, newest first. */
  function OlderPage(rows: seq<Row>, before: Option<Key>, limit: nat, cap: nat): Page {
    var n := Beneath(rows, before);
    var served := Served(limit, cap, n);
    Page(Reverse(rows[n - served..n]),
         Fetched(limit, cap, n) > limit,
         if served == 0 then None else Some(rows[n - served].key))
  }

  /** `GET events?after=`: the oldest rows above the cursor, oldest first. */
  function NewerPage(rows: seq<Row>, after: Key, limit: nat, cap: nat): Page {
    var n := UpTo(rows, after);
    var served := Served(limit, cap, |rows| - n);
    Page(rows[n..n + served],
         Fetched(limit, cap, |rows| - n) > limit,
         if served == 0 then None else Some(rows[n + served - 1].key))
  }

  /** `has_more` tells the truth about `available` rows exactly when the look-ahead row survives the clamp. */
  ghost predicate Honest(limit: nat, cap: nat, available: nat) {
    limit < cap || available <= cap
  }

  lemma HasMoreIsHonest(limit: nat, cap: nat, available: nat)
    requires 1 <= limit && 1 <= cap
    ensures Honest(limit, cap, available)
         <==> (Fetched(limit, cap, available) > limit <==> available > Served(limit, cap, available))
    ensures Fetched(limit, cap, available) > limit ==> available > Served(limit, cap, available) == limit
  {
  }

  /** With the deployed constants the gateway never reports another page, whatever it holds. */
  lemma DeployedPagesNeverReportMore(rows: seq<Row>, before: Option<Key>, after: Key)
    ensures !OlderPage(rows, before, PULL_PAGE_LIMIT, QUERY_LIMIT).hasMore
    ensures !NewerPage(rows, after, PULL_PAGE_LIMIT, QUERY_LIMIT).hasMore
  {
  }

  /** The rows a backfill of the lowest `n` rows visits, in the order it visits them. */
  function Backfilled(rows: seq<Row>, n: nat, limit: nat, cap: nat): seq<Row>
    requires n <= |rows| && 1 <= limit
    decreases n
  {
    var served := Served(limit, cap, n);
    Reverse(rows[n - served..n])
    + if Fetched(limit, cap, n) > limit then Backfilled(rows, n - served, limit, cap) else []
  }

  /** The non-empty pages that backfill asks for. */
  function BackfillPages(n: nat, limit: nat, cap: nat): nat
    requires 1 <= limit
    decreases n
  {
    var served := Served(limit, cap, n);
    if served == 0 then 0
    else 1 + if Fetched(limit, cap, n) > limit then BackfillPages(n - served, limit, cap) else 0
  }

  lemma {:induction false} BackfillVisitsNewest(rows: seq<Row>, n: nat, limit: nat, cap: nat)
    requires n <= |rows| && 1 <= limit && 1 <= cap
    ensures limit < cap ==> Backfilled(rows, n, limit, cap) == Reverse(rows[..n])
    ensures cap <= limit ==> Backfilled(rows, n, limit, cap) == Reverse(rows[n - Min(cap, n)..n])
    decreases n
  {
    var served := Served(limit, cap, n);
    if Fetched(limit, cap, n) > limit {
      BackfillVisitsNewest(rows, n - served, limit, cap);
      assert Reverse(rows[..n]) == Reverse(rows[n - served..n]) + Reverse(rows[..n - served]);
    } else if limit < cap {
      assert served == n && rows[n - served..n] == rows[..n];
    }
  }

  /** A completed backfill has visited every row, each once, exactly when the pages told the truth. */
  lemma {:induction false} BackfillIsCompleteIff(rows: seq<Row>, n: nat, limit: nat, cap: nat)
    requires n <= |rows| && 1 <= limit && 1 <= cap
    ensures Backfilled(rows, n, limit, cap) == Reverse(rows[..n]) <==> Honest(limit, cap, n)
    ensures !Honest(limit, cap, n) ==> |Backfilled(rows, n, limit, cap)| == cap < n
  {
    BackfillVisitsNewest(rows, n, limit, cap);
    if cap <= limit {
      assert n <= cap ==> rows[n - Min(cap, n)..n] == rows[..n];
    }
  }

  lemma {:induction false} BackfillPageCount(n: nat, limit: nat, cap: nat)
    requires 1 <= limit && 1 <= cap && Honest(limit, cap, n)
    ensures BackfillPages(n, limit, cap) == (n + limit - 1) / limit
    decreases n
  {
    var served := Served(limit, cap, n);
    if Fetched(limit, cap, n) > limit {
      BackfillPageCount(n - limit, limit, cap);
      assert (n + limit - 1) / limit == 1 + (n - limit + limit - 1) / limit by {
        DivideStep(n - 1, limit);
      }
    } else if served == 0 {
      assert n == 0;
      DivideSmall(limit - 1, limit);
    } else {
      DivideSmall(n - 1, limit);
      DivideStep(n - 1, limit);
    }
  }

  lemma DivideUnique(x: int, b: int, q: int, r: int)
    requires b >= 1 && 0 <= r < b && x == q * b + r
    ensures x / b == q
  {
    var p := x / b;
    assert x == p * b + x % b;
    assert q > p ==> q * b >= (p + 1) * b;
    assert q < p ==> p * b >= (q + 1) * b;
  }

  lemma DivideStep(a: int, b: int)
    requires b >= 1
    ensures (a + b) / b == a / b + 1
  {
    DivideUnique(a + b, b, a / b + 1, a % b);
  }

  lemma DivideSmall(a: int, b: int)
    requires 0 <= a < b
    ensures a / b == 0
  {
    DivideUnique(a, b, 0, a);
  }
}
