/** Recalling memories: many short queries, each cut at fifty, and what the cuts can lose. */
module Recall {
  import opened Prelude
  import opened Ordering
  import opened Listing
  import opened Text
  import opened Events
  import opened Store
  import opened Ranking

  const PAGE: nat := 50

  const TOKENS: nat := 8

  // ----- The newest of a set -----

  /** `r` is a choice of the newest `n` of `s`: nothing left out is newer than anything chosen. */
  ghost predicate Top(r: set<Event>, s: set<Event>, n: nat) {
    && r <= s && |r| == Min(n, |s|)
    && forall x, y | x in s && x !in r && y in r :: x.key.at <= y.key.at
  }

  ghost function NoOlder(s: set<Event>, at: int): set<Event> {
    set y | y in s && y.key.at >= at
  }

  /** Whatever `u` leaves out of `s`, it has `n` events no older. */
  ghost predicate Covers(u: set<Event>, s: set<Event>, n: nat) {
    u <= s && forall x | x in s && x !in u :: |NoOlder(u, x.key.at)| >= n
  }

  lemma TopCovers(r: set<Event>, s: set<Event>, n: nat)
    requires Top(r, s, n)
    ensures Covers(r, s, n)
  {
    SubsetSize(r, s);
    forall x | x in s && x !in r ensures |NoOlder(r, x.key.at)| >= n {
      assert NoOlder(r, x.key.at) == r;
    }
  }

  lemma CoversJoin(u: set<Event>, s: set<Event>, v: set<Event>, t: set<Event>, n: nat)
    requires Covers(u, s, n) && Covers(v, t, n)
    ensures Covers(u + v, s + t, n)
  {
    forall x | x in s + t && x !in u + v ensures |NoOlder(u + v, x.key.at)| >= n {
      SubsetSize(NoOlder(u, x.key.at), NoOlder(u + v, x.key.at));
      SubsetSize(NoOlder(v, x.key.at), NoOlder(u + v, x.key.at));
    }
  }

  /** The newest of a cover are the newest of the whole: cutting early lost nothing. */
  lemma TopOfCover(r: set<Event>, u: set<Event>, s: set<Event>, n: nat)
    requires Covers(u, s, n) && Top(r, u, n)
    ensures Top(r, s, n)
  {
    SubsetSize(u, s);
    forall x | x in s && x !in u ensures |u| >= n {
      SubsetSize(NoOlder(u, x.key.at), u);
    }
    if |u| < n {
      assert u == s;
    }
    forall x, y | x in s && x !in r && y in r ensures x.key.at <= y.key.at {
      if x !in u && x.key.at > y.key.at {
        NewerAreFew(r, u, n, y, x.key.at);
      }
    }
  }

  lemma NewerAreFew(r: set<Event>, u: set<Event>, n: nat, y: Event, at: int)
    requires Top(r, u, n) && y in r && at > y.key.at
    ensures |NoOlder(u, at)| < n
  {
    assert NoOlder(u, at) <= r - {y};
    SubsetSize(NoOlder(u, at), r - {y});
  }

  /** A choice of the newest has, for every instant, as many events no older as there are, up to the size of a page. */
  lemma TopCounts(r: set<Event>, s: set<Event>, n: nat, at: int)
    requires Top(r, s, n)
    ensures |NoOlder(r, at)| == Min(n, |NoOlder(s, at)|)
  {
    if NoOlder(s, at) <= r {
      assert NoOlder(r, at) == NoOlder(s, at);
      SubsetSize(NoOlder(r, at), r);
    } else {
      var x :| x in NoOlder(s, at) && x !in r;
      assert NoOlder(r, at) == r;
      SubsetSize(r + {x}, s);
      SubsetSize(r + {x}, NoOlder(s, at));
    }
  }

  /** Without ties there is only one choice. */
  lemma DistinctTimesDecide(r: set<Event>, q: set<Event>, s: set<Event>, n: nat)
    requires Top(r, s, n) && Top(q, s, n)
    requires forall x, y | x in s && y in s && x.key.at == y.key.at :: x == y
    ensures r == q
  {
    if r <= q {
      SubsetSize(r, q);
    } else {
      var x :| x in r && x !in q;
      if q <= r {
        SubsetSize(q, r);
        assert false;
      }
      var y :| y in q && y !in r;
      assert false;
    }
  }

  // ----- Lists as sets -----

  ghost function SetOf(xs: seq<Event>): set<Event> {
    set x | x in xs
  }

  ghost predicate NewestFirst(xs: seq<Event>) {
    forall i, j | 0 <= i < j < |xs| :: xs[i] != xs[j] && xs[i].key.at >= xs[j].key.at
  }

  lemma {:induction false} SizeOfSet(xs: seq<Event>)
    requires forall i, j | 0 <= i < j < |xs| :: xs[i] != xs[j]
    ensures |SetOf(xs)| == |xs|
  {
    if xs != [] {
      var n := |xs| - 1;
      SizeOfSet(xs[..n]);
      assert xs == xs[..n] + [xs[n]];
      assert SetOf(xs) == SetOf(xs[..n]) + {xs[n]};
      assert xs[n] !in xs[..n];
    }
  }

  /** Cutting a list that is newest first keeps a choice of the newest. */
  lemma FirstAreTop(xs: seq<Event>, n: nat)
    requires NewestFirst(xs)
    ensures Top(SetOf(xs[..Min(n, |xs|)]), SetOf(xs), n)
  {
    var k := Min(n, |xs|);
    SizeOfSet(xs);
    SizeOfSet(xs[..k]);
    forall i | 0 <= i < k ensures xs[i] in xs[..k] {
      assert xs[..k][i] == xs[i];
    }
    forall x, y | x in SetOf(xs) && x !in SetOf(xs[..k]) && y in SetOf(xs[..k]) ensures x.key.at <= y.key.at {
      var i :| 0 <= i < |xs| && xs[i] == x;
      var j :| 0 <= j < k && xs[j] == y;
    }
  }

  // ----- Queries -----

  /** The search condition of the store, on text and event. */
  type Like = (string, Event) -> bool

  /** The query itself, then its first words. */
  function Queries(query: string): seq<string> {
    var tokens := SortedDistinct(Words(query));
    [query] + tokens[..Min(TOKENS, |tokens|)]
  }

  /** The words of a query that sort before this one. */
  ghost function WordsBefore(query: string, q: string): set<string> {
    set w | w in Words(query) && TextLess(w, q)
  }

  /** What a recall asks the store for: the query, and its first eight different words. */
  ghost predicate AskedFor(query: string, q: string) {
    q == query || (q in Words(query) && |WordsBefore(query, q)| < 8)
  }

  lemma {:induction false} IncreasingIsOrdered(texts: seq<string>, i: nat, j: nat)
    requires Increasing(texts) && i < j < |texts|
    ensures TextLess(texts[i], texts[j])
    decreases j
  {
    assert TextLess(texts[j - 1], texts[j - 1 + 1]);
    if i < j - 1 {
      IncreasingIsOrdered(texts, i, j - 1);
      Transitive(texts[i], texts[j - 1], texts[j]);
    }
  }

  ghost function TextsIn(texts: seq<string>): set<string> {
    set w | w in texts
  }

  lemma {:induction false} PrefixSize(texts: seq<string>, k: nat)
    requires Increasing(texts) && k <= |texts|
    ensures |TextsIn(texts[..k])| == k
  {
    hide TextLess;
    if k > 0 {
      PrefixSize(texts, k - 1);
      forall i | 0 <= i < k - 1 ensures texts[i] != texts[k - 1] {
        IncreasingIsOrdered(texts, i, k - 1);
        Irreflexive(texts[i]);
      }
      assert texts[..k] == texts[..k - 1] + [texts[k - 1]];
      hide Increasing;
      OneMoreText(texts[..k - 1], texts[k - 1]);
    }
  }

  lemma OneMoreText(texts: seq<string>, text: string)
    requires text !in texts
    ensures |TextsIn(texts + [text])| == |TextsIn(texts)| + 1
  {
    assert TextsIn(texts + [text]) == TextsIn(texts) + {text};
  }

  lemma {:induction false} EarlierIsSmaller(texts: seq<string>, k: nat, w: string)
    requires Increasing(texts) && k < |texts|
    ensures w in texts[..k] <==> w in texts && TextLess(w, texts[k])
  {
    hide TextLess, Increasing;
    if w in texts[..k] {
      var i :| 0 <= i < k && texts[..k][i] == w;
      IncreasingIsOrdered(texts, i, k);
    }
    if w in texts && TextLess(w, texts[k]) {
      var i :| 0 <= i < |texts| && texts[i] == w;
      if i > k {
        IncreasingIsOrdered(texts, k, i);
        Asymmetric(w, texts[k]);
      } else if i == k {
        Irreflexive(w);
      }
      assert texts[..k][i] == w;
    }
  }

  lemma {:induction false} WordsBeforeAreFirst(query: string, k: nat)
    requires k < |SortedDistinct(Words(query))|
    ensures |WordsBefore(query, SortedDistinct(Words(query))[k])| == k
  {
    hide TextLess, Increasing;
    var texts := SortedDistinct(Words(query));
    SortedDistinctIsOrdered(Words(query));
    PrefixSize(texts, k);
    forall w ensures w in texts[..k] <==> w in Words(query) && TextLess(w, texts[k]) {
      EarlierIsSmaller(texts, k, w);
    }
    assert WordsBefore(query, texts[k]) == TextsIn(texts[..k]);
  }

  lemma {:induction false} QueriesAreAskedFor(query: string, q: string)
    ensures q in Queries(query) <==> AskedFor(query, q)
  {
    hide TextLess, WordsBefore, SortedDistinct, Words;
    var texts := SortedDistinct(Words(query));
    SortedDistinctIsOrdered(Words(query));
    var n := Min(TOKENS, |texts|);
    assert q in Queries(query) <==> q == query || q in texts[..n];
    if q in texts {
      var k :| 0 <= k < |texts| && texts[k] == q;
      WordsBeforeAreFirst(query, k);
      if k < n {
        assert texts[..n][k] == q;
      }
      if q in texts[..n] {
        var m :| 0 <= m < n && texts[..n][m] == q;
        WordsBeforeAreFirst(query, m);
      }
    }
  }

  /** The stored events of one type that a query finds. */
  ghost function Found(rows: map<int, Row>, kind: EventType, workspace: Option<string>, query: string, like: Like): set<Event>
  {
    set id | id in rows && rows[id].event.kind == kind
             && (workspace.Some? ==> rows[id].event.workspace == workspace.value)
             && like(query, rows[id].event) :: rows[id].event
  }

  ghost function FoundByAny(rows: map<int, Row>, kind: EventType, workspace: Option<string>, queries: seq<string>,
                            like: Like): set<Event>
  {
    if queries == [] then {}
    else FoundByAny(rows, kind, workspace, queries[..|queries| - 1], like)
         + Found(rows, kind, workspace, queries[|queries| - 1], like)
  }

  ghost function FoundInAny(rows: map<int, Row>, kinds: seq<EventType>, workspace: Option<string>, queries: seq<string>,
                            like: Like): set<Event>
  {
    if kinds == [] then {}
    else FoundInAny(rows, kinds[..|kinds| - 1], workspace, queries, like)
         + FoundByAny(rows, kinds[|kinds| - 1], workspace, queries, like)
  }

  ghost predicate Stored(xs: seq<Event>, rows: map<int, Row>) {
    forall e | e in xs :: e.key.id in rows && rows[e.key.id].event == e
  }

  function Search(kind: EventType, workspace: Option<string>): Filter {
    EVERYTHING.(kind := Some(kind), workspace := workspace, limit := Some(PAGE))
  }

  lemma {:induction false} FoundByAnyIs(rows: map<int, Row>, kind: EventType, workspace: Option<string>,
                                        queries: seq<string>, like: Like)
    requires Keyed(rows, RowKey)
    ensures forall e :: e in FoundByAny(rows, kind, workspace, queries, like) <==>
              && e.key.id in rows && rows[e.key.id].event == e && e.kind == kind
              && (workspace.Some? ==> e.workspace == workspace.value)
              && exists q :: q in queries && like(q, e)
  {
    assert forall id | id in rows :: RowKey(rows[id]).id == id;
    if queries != [] {
      var n := |queries| - 1;
      FoundByAnyIs(rows, kind, workspace, queries[..n], like);
      assert queries == queries[..n] + [queries[n]];
    }
  }

  function EventsOf(rows: seq<Row>): (events: seq<Event>)
    ensures |events| == |rows|
  {
    seq(|rows|, i requires 0 <= i < |rows| => rows[i].event)
  }

  ghost function Values(found: map<int, Row>): set<Event> {
    set id | id in found :: found[id].event
  }

  lemma ListIsNewestFirst(all: seq<Row>, found: map<int, Row>)
    requires Lists(all, found, RowKey) && Keyed(found, RowKey)
    ensures NewestFirst(EventsOf(Reverse(all))) && SetOf(EventsOf(Reverse(all))) == Values(found)
  {
    var es := EventsOf(Reverse(all));
    forall i, j | 0 <= i < j < |es| ensures es[i] != es[j] && es[i].key.at >= es[j].key.at {
      assert Less(RowKey(all[|all| - 1 - j]), RowKey(all[|all| - 1 - i]));
    }
    forall e | e in es ensures e in Values(found) {
      var i :| 0 <= i < |es| && es[i] == e;
      assert all[|all| - 1 - i] in all;
      assert RowKey(all[|all| - 1 - i]).id in found;
    }
    forall e | e in Values(found) ensures e in es {
      var id :| id in found && found[id].event == e;
      assert RowKey(found[id]).id == id;
      assert found[id] in all;
      var i :| 0 <= i < |all| && all[i] == found[id];
      assert es[|all| - 1 - i] == e;
    }
  }

  /** A page of the store is a choice of the newest rows it matches. */
  lemma PageIsTop(events: seq<Event>, found: map<int, Row>)
    requires Keyed(found, RowKey) && IsPage(Ok(events), found, PAGE)
    ensures Top(SetOf(events), Values(found), PAGE)
  {
    var all :| Lists(all, found, RowKey) && Ok(events) == ReadRows(Reverse(all)[..Min(PAGE, |all|)]);
    ListIsNewestFirst(all, found);
    var es := EventsOf(Reverse(all));
    FirstAreTop(es, PAGE);
    assert events == es[..Min(PAGE, |es|)];
  }

  /** One query, cut at a page. */
  method Query(store: EventStore, kind: EventType, workspace: Option<string>, query: string, like: Like)
    returns (events: Result<seq<Event>>)
    requires store.Ready()
    ensures AllReadable(store.rows) ==> events.Ok?
    ensures events.Ok? ==> Stored(events.value, store.rows)
    ensures events.Ok? ==> Top(SetOf(events.value), Found(store.rows, kind, workspace, query, like), PAGE)
  {
    hide Top, Found, Matches, IsPage, AllReadable;
    var text := e => like(query, e);
    events := store.List(Search(kind, workspace), text);
    MatchingIsFound(store, kind, workspace, query, like, text);
    ghost var found := store.Matching(Search(kind, workspace), text);
    if AllReadable(store.rows) {
      ReadablePages(events, found, store.rows, PAGE);
    }
    if events.Ok? {
      PageIsTop(events.value, found);
      TopIsStored(events.value, found, store.rows);
    }
  }

  lemma MatchingIsFound(store: EventStore, kind: EventType, workspace: Option<string>, query: string, like: Like,
                        text: Event -> bool)
    requires store.Ready() && forall e :: text(e) == like(query, e)
    ensures var found := store.Matching(Search(kind, workspace), text);
            && Keyed(found, RowKey) && Values(found) == Found(store.rows, kind, workspace, query, like)
            && forall id | id in found :: id in store.rows && found[id] == store.rows[id]
  {
    hide SchemaSound, TagsExact, TagsSound, ClaimsUnique, ClaimsReadable;
    var found := store.Matching(Search(kind, workspace), text);
    forall id | id in store.rows
      ensures id in found <==> var e := store.rows[id].event;
                && e.kind == kind && (workspace.Some? ==> e.workspace == workspace.value) && like(query, e)
    {
    }
    assert Keyed(store.rows, RowKey);
  }

  lemma TopIsStored(events: seq<Event>, found: map<int, Row>, rows: map<int, Row>)
    requires Keyed(found, RowKey) && Top(SetOf(events), Values(found), PAGE)
    requires forall id | id in found :: id in rows && found[id] == rows[id]
    ensures Stored(events, rows)
  {
    assert forall id | id in found :: RowKey(found[id]).id == id;
    forall e | e in events ensures e.key.id in rows && rows[e.key.id].event == e {
      assert e in SetOf(events);
    }
  }

  // ----- Putting results together -----

  /** Newest first, then smallest identifier. */
  function RecallKey(e: Event): Key { Key(-e.key.at, e.key.id) }

  /** Keep the first event with each identifier. */
  method Dedup(events: seq<Event>, ghost rows: map<int, Row>) returns (kept: seq<Event>)
    requires Stored(events, rows)
    ensures SetOf(kept) == SetOf(events) && DistinctKeys(kept, RecallKey)
  {
    kept := [];
    var seen: set<int> := {};
    for i := 0 to |events|
      invariant SetOf(kept) == SetOf(events[..i])
      invariant forall k | 0 <= k < |kept| :: kept[k].key.id in seen
      invariant forall id | id in seen :: exists e :: e in kept && e.key.id == id
      invariant DistinctKeys(kept, RecallKey)
    {
      var e := events[i];
      assert events[..i + 1] == events[..i] + [e];
      assert SetOf(events[..i + 1]) == SetOf(events[..i]) + {e};
      if e.key.id !in seen {
        seen := seen + {e.key.id};
        ghost var was := kept;
        kept := kept + [e];
        assert SetOf(kept) == SetOf(was) + {e};
        assert e in kept && forall x :: x in was ==> x in kept;
      } else {
        ghost var x :| x in kept && x.key.id == e.key.id;
        assert x in SetOf(kept);
        SameIdSameEvent(events, rows, x, e);
      }
    }
    assert events[..|events|] == events;
  }

  lemma SameIdSameEvent(events: seq<Event>, rows: map<int, Row>, x: Event, e: Event)
    requires Stored(events, rows) && x in events && e in events && x.key.id == e.key.id
    ensures x == e
  {
  }

  /** Drop duplicates, sort, and cut at a page. */
  method Collate(events: seq<Event>, ghost rows: map<int, Row>) returns (page: seq<Event>)
    requires Stored(events, rows)
    ensures StrictlySorted(page, RecallKey) && Stored(page, rows)
    ensures Top(SetOf(page), SetOf(events), PAGE)
  {
    hide Top;
    var kept := Dedup(events, rows);
    SortSorted(kept, RecallKey);
    SortedElements(kept, RecallKey);
    var sorted := Sort(kept, RecallKey);
    assert SetOf(sorted) == SetOf(kept);
    page := sorted[..Min(PAGE, |sorted|)];
    SortedIsNewestFirst(sorted);
    FirstAreTop(sorted, PAGE);
    PrefixIsStored(sorted, events, page, rows);
  }

  lemma SortedIsNewestFirst(sorted: seq<Event>)
    requires StrictlySorted(sorted, RecallKey)
    ensures NewestFirst(sorted)
  {
    forall i, j | 0 <= i < j < |sorted| ensures sorted[i] != sorted[j] && sorted[i].key.at >= sorted[j].key.at {
      assert Less(RecallKey(sorted[i]), RecallKey(sorted[j]));
    }
  }

  lemma PrefixIsStored(sorted: seq<Event>, events: seq<Event>, page: seq<Event>, rows: map<int, Row>)
    requires SetOf(sorted) == SetOf(events) && page <= sorted && Stored(events, rows)
    ensures Stored(page, rows)
  {
    forall e | e in page ensures e.key.id in rows && rows[e.key.id].event == e {
      assert e in SetOf(sorted);
    }
  }

  /** What a recall of one type gives: sorted, and a choice of the newest that any of the queries finds. */
  ghost predicate Recalled(page: seq<Event>, rows: map<int, Row>, all: set<Event>) {
    StrictlySorted(page, RecallKey) && Stored(page, rows) && Top(SetOf(page), all, PAGE)
  }

  /** Ask once for the query and once for each of its first words, and put the answers together. */
  method RecallCandidates(store: EventStore, query: string, kind: EventType, workspace: Option<string>, like: Like)
    returns (page: Result<seq<Event>>)
    requires store.Ready()
    ensures AllReadable(store.rows) ==> page.Ok?
    ensures page.Ok? ==> Recalled(page.value, store.rows, FoundByAny(store.rows, kind, workspace, Queries(query), like))
  {
    hide Top, Covers, Found, Queries, AllReadable;
    var queries := Queries(query);
    var events: seq<Event> := [];
    EmptyCovers();
    for i := 0 to |queries|
      invariant Stored(events, store.rows)
      invariant Covers(SetOf(events), FoundByAny(store.rows, kind, workspace, queries[..i], like), PAGE)
    {
      var found := Query(store, kind, workspace, queries[i], like);
      if found.Err? { return Err(found.error); }
      assert queries[..i + 1][..i] == queries[..i];
      TopCovers(SetOf(found.value), Found(store.rows, kind, workspace, queries[i], like), PAGE);
      CoversJoin(SetOf(events), FoundByAny(store.rows, kind, workspace, queries[..i], like),
                 SetOf(found.value), Found(store.rows, kind, workspace, queries[i], like), PAGE);
      assert SetOf(events + found.value) == SetOf(events) + SetOf(found.value);
      events := events + found.value;
    }
    assert queries[..|queries|] == queries;
    var result := Collate(events, store.rows);
    TopOfCover(SetOf(result), SetOf(events), FoundByAny(store.rows, kind, workspace, queries, like), PAGE);
    page := Ok(result);
  }

  lemma EmptyCovers()
    ensures Covers(SetOf([]), {}, PAGE)
  {
  }

  /** The types that count as memories. */
  const MEMORY_TYPES: seq<EventType> := [Memory, Decision, Observation, Pattern, Fact, Bug, Handoff]

  function Kinds(kind: Option<EventType>): seq<EventType> {
    if kind.Some? then [kind.value] else MEMORY_TYPES
  }

  /**
   * Recall over one type, or over all of them. Each query, each type and the whole are cut at fifty, and yet the result is a
   * choice of the newest fifty of everything any query finds in any type.
   */
  method RecallByType(store: EventStore, query: string, kind: Option<EventType>, workspace: Option<string>, like: Like)
    returns (page: Result<seq<Event>>)
    requires store.Ready()
    ensures AllReadable(store.rows) ==> page.Ok?
    ensures page.Ok? ==>
              Recalled(page.value, store.rows,
                       FoundInAny(store.rows, Kinds(kind), workspace, Queries(query), like))
    ensures page.Ok? ==> NewestRecalled(page.value, store.rows, kind, workspace, query, like)
  {
    hide Top, Covers, FoundByAny, Queries, Found, AllReadable, NewestRecalled;
    if kind.Some? {
      page := RecallCandidates(store, query, kind.value, workspace, like);
      OneType(store.rows, kind.value, workspace, Queries(query), like);
      if page.Ok? {
        RecalledIsNewest(page.value, store.rows, kind, workspace, query, like);
      }
      return;
    }
    var kinds := MEMORY_TYPES;
    var events: seq<Event> := [];
    EmptyCovers();
    for i := 0 to |kinds|
      invariant Stored(events, store.rows)
      invariant Covers(SetOf(events), FoundInAny(store.rows, kinds[..i], workspace, Queries(query), like), PAGE)
    {
      var found := RecallCandidates(store, query, kinds[i], workspace, like);
      if found.Err? { return Err(found.error); }
      assert kinds[..i + 1][..i] == kinds[..i];
      ghost var part := FoundByAny(store.rows, kinds[i], workspace, Queries(query), like);
      TopCovers(SetOf(found.value), part, PAGE);
      CoversJoin(SetOf(events), FoundInAny(store.rows, kinds[..i], workspace, Queries(query), like),
                 SetOf(found.value), part, PAGE);
      assert SetOf(events + found.value) == SetOf(events) + SetOf(found.value);
      events := events + found.value;
    }
    assert kinds[..|kinds|] == kinds;
    var result := Collate(events, store.rows);
    TopOfCover(SetOf(result), SetOf(events), FoundInAny(store.rows, kinds, workspace, Queries(query), like), PAGE);
    RecalledIsNewest(result, store.rows, kind, workspace, query, like);
    page := Ok(result);
  }

  /** An event that counts: a memory of the type asked for, in the workspace asked for, found by one of the queries. */
  ghost predicate Recallable(rows: map<int, Row>, kind: Option<EventType>, workspace: Option<string>, query: string,
                             like: Like, e: Event) {
    && e.key.id in rows && rows[e.key.id].event == e
    && (if kind.Some? then e.kind == kind.value
        else e.kind in {Memory, Decision, Observation, Pattern, Fact, Bug, Handoff})
    && (workspace.Some? ==> e.workspace == workspace.value)
    && exists q :: AskedFor(query, q) && like(q, e)
  }

  /** The newest fifty of what counts, newest first and then by identifier; what is left out is no newer. */
  ghost predicate NewestRecalled(page: seq<Event>, rows: map<int, Row>, kind: Option<EventType>, workspace: Option<string>,
                                 query: string, like: Like) {
    && |page| <= 50
    && (forall i, j | 0 <= i < j < |page| ::
          page[i].key.at > page[j].key.at || (page[i].key.at == page[j].key.at && page[i].key.id < page[j].key.id))
    && (forall e | e in page :: Recallable(rows, kind, workspace, query, like, e))
    && forall e | Recallable(rows, kind, workspace, query, like, e) && e !in page ::
         |page| == 50 && forall x | x in page :: x.key.at >= e.key.at
  }

  /** A stored event of one of these types, in the workspace asked for, that one of these queries finds. */
  ghost predicate IsFound(rows: map<int, Row>, kinds: seq<EventType>, workspace: Option<string>, queries: seq<string>,
                          like: Like, e: Event) {
    && e.key.id in rows && rows[e.key.id].event == e && e.kind in kinds
    && (workspace.Some? ==> e.workspace == workspace.value)
    && exists q :: q in queries && like(q, e)
  }

  lemma {:induction false} FoundOfOneKind(rows: map<int, Row>, kind: EventType, workspace: Option<string>,
                                          queries: seq<string>, like: Like, e: Event)
    requires Keyed(rows, RowKey)
    ensures e in FoundByAny(rows, kind, workspace, queries, like) <==> IsFound(rows, [kind], workspace, queries, like, e)
  {
    FoundByAnyIs(rows, kind, workspace, queries, like);
    hide FoundByAny, Keyed;
  }

  lemma FoundOfMoreKinds(rows: map<int, Row>, kinds: seq<EventType>, kind: EventType, workspace: Option<string>,
                         queries: seq<string>, like: Like, e: Event)
    ensures IsFound(rows, kinds + [kind], workspace, queries, like, e)
       <==> IsFound(rows, kinds, workspace, queries, like, e) || IsFound(rows, [kind], workspace, queries, like, e)
  {
  }

  lemma {:induction false} FoundInAnyIs(rows: map<int, Row>, kinds: seq<EventType>, workspace: Option<string>,
                                        queries: seq<string>, like: Like, e: Event)
    requires Keyed(rows, RowKey)
    ensures e in FoundInAny(rows, kinds, workspace, queries, like) <==> IsFound(rows, kinds, workspace, queries, like, e)
  {
    if kinds != [] {
      var n := |kinds| - 1;
      FoundInAnyIs(rows, kinds[..n], workspace, queries, like, e);
      FoundOfOneKind(rows, kinds[n], workspace, queries, like, e);
      FoundOfMoreKinds(rows, kinds[..n], kinds[n], workspace, queries, like, e);
      assert kinds == kinds[..n] + [kinds[n]];
      hide FoundByAny, IsFound, Keyed;
    }
  }

  lemma {:induction false} FoundIsRecallable(rows: map<int, Row>, kind: Option<EventType>, workspace: Option<string>,
                                             query: string, like: Like, e: Event)
    requires Keyed(rows, RowKey)
    ensures e in FoundInAny(rows, Kinds(kind), workspace, Queries(query), like)
       <==> Recallable(rows, kind, workspace, query, like, e)
  {
    hide FoundInAny, Queries, AskedFor;
    FoundInAnyIs(rows, Kinds(kind), workspace, Queries(query), like, e);
    forall q ensures q in Queries(query) <==> AskedFor(query, q) {
      QueriesAreAskedFor(query, q);
    }
    assert e.kind in Kinds(kind) <==> if kind.Some? then e.kind == kind.value
                                      else e.kind in {Memory, Decision, Observation, Pattern, Fact, Bug, Handoff};
  }

  lemma {:induction false} TopIsNewest(page: seq<Event>, all: set<Event>)
    requires StrictlySorted(page, RecallKey) && Top(SetOf(page), all, PAGE)
    ensures |page| <= 50 && forall e | e in page :: e in all
    ensures forall i, j | 0 <= i < j < |page| ::
              page[i].key.at > page[j].key.at || (page[i].key.at == page[j].key.at && page[i].key.id < page[j].key.id)
    ensures forall e | e in all && e !in page :: |page| == 50 && forall x | x in page :: x.key.at >= e.key.at
  {
    forall i, j | 0 <= i < j < |page|
      ensures page[i].key.at > page[j].key.at || (page[i].key.at == page[j].key.at && page[i].key.id < page[j].key.id)
    {
      assert Less(RecallKey(page[i]), RecallKey(page[j]));
    }
    SizeOfSet(page);
    forall e | e in page ensures e in all {
      assert e in SetOf(page);
    }
    forall e | e in all && e !in page ensures |page| == 50 && forall x | x in page :: x.key.at >= e.key.at {
      SubsetSize(SetOf(page), all);
      assert e !in SetOf(page);
      forall x | x in page ensures x.key.at >= e.key.at {
        assert x in SetOf(page);
      }
    }
  }

  lemma {:induction false} RecalledIsNewest(page: seq<Event>, rows: map<int, Row>, kind: Option<EventType>,
                                            workspace: Option<string>, query: string, like: Like)
    requires Keyed(rows, RowKey)
    requires Recalled(page, rows, FoundInAny(rows, Kinds(kind), workspace, Queries(query), like))
    ensures NewestRecalled(page, rows, kind, workspace, query, like)
  {
    var all := FoundInAny(rows, Kinds(kind), workspace, Queries(query), like);
    TopIsNewest(page, all);
    forall e ensures e in all <==> Recallable(rows, kind, workspace, query, like, e) {
      FoundIsRecallable(rows, kind, workspace, query, like, e);
    }
    hide FoundInAny, Recallable, Queries, Kinds, Top, Recalled;
  }

  lemma {:induction false} OneType(rows: map<int, Row>, kind: EventType, workspace: Option<string>, queries: seq<string>,
                                   like: Like)
    ensures FoundInAny(rows, [kind], workspace, queries, like) == FoundByAny(rows, kind, workspace, queries, like)
  {
    assert [kind][..0] == [];
    assert FoundInAny(rows, [], workspace, queries, like) == {};
  }

  // ----- Ranking -----

  /** Highest score first, then newest, then smallest identifier. */
  function Closer(score: Event -> int): (Event, Event) -> bool {
    (a: Event, b: Event) =>
      score(a) > score(b) || (score(a) == score(b) && Less(RecallKey(a), RecallKey(b)))
  }

  /** A recall in another order. */
  ghost predicate Reorders(ranked: seq<Event>, rows: map<int, Row>, all: set<Event>) {
    exists page :: Recalled(page, rows, all) && multiset(page) == multiset(ranked)
  }

  /** Higher score first, then newer, then smaller identifier. */
  ghost predicate Before(a: Event, b: Event, score: Event -> int) {
    || score(a) > score(b)
    || (score(a) == score(b) && a.key.at > b.key.at)
    || (score(a) == score(b) && a.key.at == b.key.at && a.key.id < b.key.id)
  }

  ghost predicate Scored(ranked: seq<Event>, score: Event -> int) {
    forall i, j | 0 <= i < j < |ranked| :: Before(ranked[i], ranked[j], score)
  }

  /** The recalled events in the order of their scores. */
  method RankedRecall(store: EventStore, query: string, kind: Option<EventType>, workspace: Option<string>, like: Like,
                      score: Event -> int)
    returns (ranked: Result<seq<Event>>)
    requires store.Ready()
    ensures AllReadable(store.rows) ==> ranked.Ok?
    ensures ranked.Ok? ==> Ranked(ranked.value, Closer(score)) && Scored(ranked.value, score)
    ensures ranked.Ok? ==>
              exists page :: multiset(page) == multiset(ranked.value)
                             && NewestRecalled(page, store.rows, kind, workspace, query, like)
    ensures ranked.Ok? ==>
              Reorders(ranked.value, store.rows,
                       FoundInAny(store.rows, Kinds(kind), workspace, Queries(query), like))
  {
    hide Recalled, FoundInAny, AllReadable, NewestRecalled, Scored;
    var page := RecallByType(store, query, kind, workspace, like);
    if page.Err? { return Err(page.error); }
    CloserIsAnOrder(score);
    RankIsRanked(page.value, Closer(score));
    ranked := Ok(Rank(page.value, Closer(score)));
    assert NewestRecalled(page.value, store.rows, kind, workspace, query, like);
    RankedIsScored(page.value, ranked.value, store.rows, kind, workspace, query, like, score);
  }

  lemma RankedIsScored(page: seq<Event>, ranked: seq<Event>, rows: map<int, Row>, kind: Option<EventType>,
                       workspace: Option<string>, query: string, like: Like, score: Event -> int)
    requires NewestRecalled(page, rows, kind, workspace, query, like) && multiset(page) == multiset(ranked)
    requires Ranked(ranked, Closer(score))
    ensures Scored(ranked, score)
  {
    assert DistinctKeys(page, RecallKey);
    PermutationKeepsDistinctKeys(page, ranked, RecallKey);
    forall i, j | 0 <= i < j < |ranked| ensures Before(ranked[i], ranked[j], score) {
      assert RecallKey(ranked[i]) != RecallKey(ranked[j]);
      assert !Closer(score)(ranked[j], ranked[i]);
    }
  }

  lemma CloserIsAnOrder(score: Event -> int)
    ensures WeakOrder(Closer(score))
  {
  }
}
