/** Exchanging logs between two stores, and what the two then agree on. */
module Mesh {
  import opened Prelude
  import opened Ordering
  import opened Listing
  import opened Events
  import opened Store
  import Tasks
  import Uuid

  const U32_MAX: nat := 0xFFFF_FFFF

  const MARKER := "mesh_source_workspace_id"

  datatype ImportReport = ImportReport(imported: nat, skipped: nat)

  datatype SyncReport = SyncReport(localImported: nat, peerImported: nat, skipped: nat)

  /** An event moved to another workspace, remembering where it came from if its metadata has room for it. */
  function EventForWorkspace(e: Event, workspace: string): Event {
    if e.workspace == workspace then e
    else
      var marked := if e.metadata.Object? then Object(e.metadata.fields[MARKER := Text(e.workspace)]) else e.metadata;
      e.(workspace := workspace, metadata := marked)
  }

  function Rehomed(e: Event, target: Option<string>): Event {
    if target.Some? then EventForWorkspace(e, target.value) else e
  }

  /** A moved event says where it was, and is otherwise as it was. */
  lemma RehomingSaysWhere(e: Event, target: Option<string>)
    ensures var moved := Rehomed(e, target);
            && (target.None? || target.value == e.workspace ==> moved == e)
            && moved.(workspace := e.workspace, metadata := e.metadata) == e
            && (target.Some? && target.value != e.workspace ==>
                  && moved.workspace == target.value
                  && (!e.metadata.Object? ==> moved.metadata == e.metadata)
                  && (e.metadata.Object? ==>
                        && TextField(moved.metadata, "mesh_source_workspace_id") == Some(e.workspace)
                        && forall name | name != "mesh_source_workspace_id" ::
                             Field(moved.metadata, name) == Field(e.metadata, name)))
  {
  }

  // ----- Importing -----

  predicate Welcome(rows: map<int, Row>, e: Event) {
    e.key.id !in rows && !Blocked(rows, e)
  }

  function Admit(rows: map<int, Row>, e: Event): map<int, Row> {
    if Welcome(rows, e) then rows[e.key.id := NewRow(e)] else rows
  }

  function Import(rows: map<int, Row>, events: seq<Event>, target: Option<string>): map<int, Row> {
    if events == [] then rows
    else
      var n := |events| - 1;
      Admit(Import(rows, events[..n], target), Rehomed(events[n], target))
  }

  method ImportEvents(store: EventStore, events: seq<Event>, target: Option<string>) returns (report: ImportReport)
    requires store.Ready()
    modifies store
    ensures store.Ready()
    ensures store.rows == Import(old(store.rows), events, target)
    ensures report.imported + report.skipped == |events|
    ensures |store.rows| == |old(store.rows)| + report.imported
  {
    report := ImportReport(0, 0);
    for i := 0 to |events|
      invariant store.Ready()
      invariant store.rows == Import(old(store.rows), events[..i], target)
      invariant report.imported + report.skipped == i
      invariant |store.rows| == |old(store.rows)| + report.imported
    {
      assert events[..i + 1][..i] == events[..i];
      var inserted := store.InsertEvent(Rehomed(events[i], target), IgnoreDuplicates);
      if inserted.value {
        report := report.(imported := report.imported + 1);
      } else {
        report := report.(skipped := report.skipped + 1);
      }
    }
    assert events[..|events|] == events;
  }

  lemma BlockedForGood(rows: map<int, Row>, more: map<int, Row>, e: Event)
    requires Blocked(rows, e) && forall id | id in rows :: id in more && more[id] == rows[id]
    ensures Blocked(more, e)
  {
    var i :| i in rows.Keys && RowClaim(rows[i]) == ClaimOf(e);
    assert i in more.Keys;
  }

  /** Old rows stay, every new row is one of the events, and every event is present or kept out by a claim. */
  lemma {:induction false} ImportIsAJoin(rows: map<int, Row>, events: seq<Event>, target: Option<string>)
    ensures var after := Import(rows, events, target);
            && (forall id | id in rows :: id in after && after[id] == rows[id])
            && (forall id | id in after && id !in rows ::
                  exists e :: e in events && e.key.id == id && after[id] == NewRow(Rehomed(e, target)))
            && (forall e | e in events :: e.key.id in after || Blocked(after, Rehomed(e, target)))
  {
    hide Blocked, Rehomed;
    if events != [] {
      var n := |events| - 1;
      var before := Import(rows, events[..n], target);
      var after := Import(rows, events, target);
      ImportIsAJoin(rows, events[..n], target);
      RehomingKeepsKey(events[n], target);
      assert forall e :: e in events <==> e in events[..n] || e == events[n];
      forall e | e in events ensures e.key.id in after || Blocked(after, Rehomed(e, target)) {
        if Blocked(before, Rehomed(e, target)) {
          BlockedForGood(before, after, Rehomed(e, target));
        }
      }
    }
  }

  lemma RehomingKeepsKey(e: Event, target: Option<string>)
    ensures Rehomed(e, target).key == e.key && Rehomed(e, target).kind == e.kind
  {
  }

  /** Nothing is imported once every event is present or blocked. */
  lemma {:induction false} NothingLeftToImport(rows: map<int, Row>, events: seq<Event>, target: Option<string>)
    requires forall e | e in events :: e.key.id in rows || Blocked(rows, Rehomed(e, target))
    ensures Import(rows, events, target) == rows
  {
    if events != [] {
      var n := |events| - 1;
      NothingLeftToImport(rows, events[..n], target);
      RehomingKeepsKey(events[n], target);
      assert events[n] in events;
    }
  }

  lemma {:induction false} SecondImportAddsNothing(rows: map<int, Row>, events: seq<Event>, target: Option<string>)
    ensures var once := Import(rows, events, target); Import(once, events, target) == once
  {
    ImportIsAJoin(rows, events, target);
    NothingLeftToImport(Import(rows, events, target), events, target);
  }

  // ----- Syncing -----

  /** Every event of a table, newest first. */
  ghost predicate Everything(events: seq<Event>, rows: map<int, Row>) {
    exists all :: Lists(all, rows, RowKey) && ReadRows(Reverse(all)) == Ok(events)
  }

  lemma EverythingIsThere(events: seq<Event>, rows: map<int, Row>)
    requires Everything(events, rows)
    ensures forall e :: e in events <==> e.key.id in rows && rows[e.key.id] == NewRow(e)
  {
    var all :| Lists(all, rows, RowKey) && ReadRows(Reverse(all)) == Ok(events);
    var page := Reverse(all);
    ReverseElements(all);
    forall e | e in events ensures e.key.id in rows && rows[e.key.id] == NewRow(e) {
      var i :| 0 <= i < |events| && events[i] == e;
      assert page[i] == NewRow(e);
      assert page[i] in page;
      assert page[i] in all;
      assert RowKey(page[i]).id in rows;
    }
    forall e: Event | e.key.id in rows && rows[e.key.id] == NewRow(e) ensures e in events {
      var row := NewRow(e);
      assert RowKey(row).id in rows;
      assert row in all;
      assert row in page;
      var i :| 0 <= i < |page| && page[i] == row;
      assert events[i] == page[i].event;
    }
  }

  function Anything(e: Event): bool { true }

  lemma WholePage(all: seq<Row>, rows: map<int, Row>)
    requires Lists(all, rows, RowKey) && Keyed(rows, RowKey) && |rows| <= U32_MAX
    ensures Reverse(all)[..Min(U32_MAX, |all|)] == Reverse(all)
    ensures ReadRows(Reverse(all)).Ok? <==> AllReadable(rows)
  {
    SizeOfList(all, rows, RowKey);
    ReverseElements(all);
    var page := Reverse(all);
    assert page[..|all|] == page;
    if AllReadable(rows) {
      forall i | 0 <= i < |page| ensures page[i].Readable() {
        assert page[i] in page;
        assert page[i] in all;
        assert RowKey(page[i]).id in rows;
      }
    } else {
      var id :| id in rows && !rows[id].Readable();
      assert RowKey(rows[id]).id == id;
      assert rows[id] in page;
    }
  }

  method AllEvents(store: EventStore) returns (events: Result<seq<Event>>)
    requires store.Ready() && |store.rows| <= 4_294_967_295
    ensures events.Ok? <==> AllReadable(store.rows)
    ensures events.Ok? ==> Everything(events.value, store.rows)
  {
    hide IsPage, Matches;
    var filter := EVERYTHING.(limit := Some(U32_MAX));
    events := store.List(filter, Anything);
    MatchesEverything(store);
    WholePageIsEverything(events, store.rows);
  }

  lemma MatchesEverything(store: EventStore)
    ensures store.Matching(EVERYTHING.(limit := Some(U32_MAX)), Anything) == store.rows
  {
    forall id | id in store.rows
      ensures Matches(store.rows[id], EVERYTHING.(limit := Some(U32_MAX)), Anything,
                      CarriedTags(store.rows[id], store.tagIndex))
    {
    }
  }

  lemma WholePageIsEverything(events: Result<seq<Event>>, rows: map<int, Row>)
    requires Keyed(rows, RowKey) && |rows| <= U32_MAX && IsPage(events, rows, U32_MAX)
    ensures events.Ok? <==> AllReadable(rows)
    ensures events.Ok? ==> Everything(events.value, rows)
  {
    hide ReadRows, Reverse, AllReadable;
    var all :| Lists(all, rows, RowKey) && events == ReadRows(Reverse(all)[..Min(U32_MAX, |all|)]);
    WholePage(all, rows);
  }

  /** What a sync leaves on both sides, and how it counts it. */
  ghost predicate Synced(l: map<int, Row>, p: map<int, Row>, lt: Option<string>, pt: Option<string>,
                         l2: map<int, Row>, p2: map<int, Row>, report: SyncReport) {
    exists mine, theirs ::
      && Everything(mine, l) && Everything(theirs, p)
      && l2 == Import(l, theirs, lt) && p2 == Import(p, mine, pt)
      && |l2| == |l| + report.localImported && |p2| == |p| + report.peerImported
      && report.localImported + report.peerImported + report.skipped == |mine| + |theirs|
  }

  /** Read both logs, then import each into the other store. A log that cannot be read stops everything. */
  method SyncBidirectional(local: EventStore, localTarget: Option<string>, peer: EventStore, peerTarget: Option<string>)
    returns (report: Result<SyncReport>)
    requires local != peer && local.Ready() && peer.Ready()
    requires |local.rows| <= U32_MAX && |peer.rows| <= U32_MAX
    modifies local, peer
    ensures local.Ready() && peer.Ready()
    ensures report.Ok? <==> AllReadable(old(local.rows)) && AllReadable(old(peer.rows))
    ensures report.Err? ==> local.rows == old(local.rows) && peer.rows == old(peer.rows)
    ensures report.Ok? ==>
              Synced(old(local.rows), old(peer.rows), localTarget, peerTarget, local.rows, peer.rows, report.value)
  {
    hide Import, Everything, Sound, AllReadable, Synced;
    ghost var l, p := local.rows, peer.rows;
    var mine := AllEvents(local);
    if mine.Err? { return Err(mine.error); }
    var theirs := AllEvents(peer);
    if theirs.Err? { return Err(theirs.error); }
    var localReport := ImportEvents(local, theirs.value, localTarget);
    var peerReport := ImportEvents(peer, mine.value, peerTarget);
    report := Ok(SyncReport(localReport.imported, peerReport.imported, localReport.skipped + peerReport.skipped));
    BothImported(l, p, localTarget, peerTarget, mine.value, theirs.value, local.rows, peer.rows, report.value);
  }

  lemma {:induction false} BothImported(l: map<int, Row>, p: map<int, Row>, lt: Option<string>, pt: Option<string>,
                     mine: seq<Event>, theirs: seq<Event>, l2: map<int, Row>, p2: map<int, Row>, report: SyncReport)
    requires Everything(mine, l) && Everything(theirs, p) && l2 == Import(l, theirs, lt) && p2 == Import(p, mine, pt)
    requires |l2| == |l| + report.localImported && |p2| == |p| + report.peerImported
    requires report.localImported + report.peerImported + report.skipped == |mine| + |theirs|
    ensures Synced(l, p, lt, pt, l2, p2, report)
  {
    hide Import, Everything;
  }

  /** After a sync, a second one imports nothing, whichever workspaces the events are moved to. */
  lemma {:induction false} SecondSyncAddsNothing(l: map<int, Row>, p: map<int, Row>, lt: Option<string>, pt: Option<string>,
                              mine: seq<Event>, theirs: seq<Event>, more: seq<Event>)
    requires Everything(mine, l) && Everything(theirs, p)
    requires var p2 := Import(p, mine, pt); Everything(more, p2)
    ensures var l2 := Import(l, theirs, lt); Import(l2, more, lt) == l2
  {
    var l2, p2 := Import(l, theirs, lt), Import(p, mine, pt);
    ImportIsAJoin(l, theirs, lt);
    ImportIsAJoin(p, mine, pt);
    EverythingIsThere(mine, l);
    EverythingIsThere(theirs, p);
    EverythingIsThere(more, p2);
    forall e | e in more ensures e.key.id in l2 || Blocked(l2, Rehomed(e, lt)) {
      if e.key.id in p {
        assert e in theirs;
      } else {
        var x :| x in mine && x.key.id == e.key.id && p2[e.key.id] == NewRow(Rehomed(x, pt));
      }
    }
    NothingLeftToImport(l2, more, lt);
  }

  // ----- What the two stores agree on -----

  /** An event without the traces of moving between workspaces. */
  function Bare(e: Event): Event {
    e.(workspace := "", metadata := if e.metadata.Object? then Object(e.metadata.fields - {MARKER}) else e.metadata)
  }

  function AllBare(events: seq<Event>): seq<Event> {
    seq(|events|, i requires 0 <= i < |events| => Bare(events[i]))
  }

  lemma RehomingIsBare(e: Event, target: Option<string>)
    ensures Bare(Rehomed(e, target)) == Bare(e)
  {
    if e.metadata.Object? {
      var marked := e.metadata.fields[MARKER := Text(e.workspace)];
      assert marked - {MARKER} == e.metadata.fields - {MARKER};
    }
  }

  /** The views never look at what moving an event changes. */
  lemma BareReadsTheSame(view: Tasks.View, e: Event)
    ensures Tasks.EffectOf(view, Bare(e)) == Tasks.EffectOf(view, e)
    ensures Tasks.Subject(view, Bare(e)) == Tasks.Subject(view, e)
  {
    FieldsStay(e, "task_id");
    FieldsStay(e, "handoff_id");
    FieldsStay(e, "action");
    FieldsStay(e, "claimed_by");
    FieldsStay(e, "accepted_by");
    FieldsStay(e, "to");
    FieldsStay(e, "from");
    hide TextField, Tasks.TagReference, Uuid.Parse;
  }

  lemma FieldsStay(e: Event, name: string)
    requires |name| < |MARKER|
    ensures TextField(Bare(e).metadata, name) == TextField(e.metadata, name)
  {
    assert name != MARKER;
  }

  lemma {:induction false} BareFoldsTheSame(view: Tasks.View, log: seq<Event>)
    ensures Tasks.Fold(view, AllBare(log)) == Tasks.Fold(view, log)
  {
    hide Tasks.EffectOf, Tasks.Subject;
    if log != [] {
      var n := |log| - 1;
      assert AllBare(log)[..n] == AllBare(log[..n]);
      BareFoldsTheSame(view, log[..n]);
      BareReadsTheSame(view, log[n]);
    }
  }

  lemma BareElements(events: seq<Event>)
    ensures forall e :: e in AllBare(events) <==> exists x :: x in events && Bare(x) == e
  {
    forall x | x in events ensures Bare(x) in AllBare(events) {
      var i :| 0 <= i < |events| && events[i] == x;
      assert AllBare(events)[i] == Bare(x);
    }
  }

  lemma BareProjectsTheSame(view: Tasks.View, events: seq<Event>)
    requires DistinctKeys(events, EventKey)
    ensures DistinctKeys(AllBare(events), EventKey)
    ensures Tasks.Project(view, AllBare(events)) == Tasks.Project(view, events)
  {
    hide Bare;
    var sorted := Sort(events, EventKey);
    BareKeepsKeys(events);
    BareKeepsKeys(sorted);
    SortSorted(events, EventKey);
    SortedElements(events, EventKey);
    BareElements(events);
    BareElements(sorted);
    SortSorted(AllBare(events), EventKey);
    SortedElements(AllBare(events), EventKey);
    SortedIsUnique(Sort(AllBare(events), EventKey), AllBare(sorted), EventKey);
    BareFoldsTheSame(view, sorted);
  }

  lemma BareKeepsKeys(events: seq<Event>)
    ensures forall i | 0 <= i < |events| :: EventKey(AllBare(events)[i]) == EventKey(events[i])
  {
  }

  /** Two lists that differ only by moves between workspaces show the same items. */
  lemma AlikeListsShowTheSame(view: Tasks.View, xs: seq<Event>, ys: seq<Event>)
    requires DistinctKeys(xs, EventKey) && DistinctKeys(ys, EventKey)
    requires forall x | x in xs :: exists y :: y in ys && Bare(y) == Bare(x)
    requires forall y | y in ys :: exists x :: x in xs && Bare(x) == Bare(y)
    ensures Tasks.Project(view, xs) == Tasks.Project(view, ys)
  {
    hide Bare;
    BareProjectsTheSame(view, xs);
    BareProjectsTheSame(view, ys);
    BareElements(xs);
    BareElements(ys);
    SameElementsSortTheSame(AllBare(xs), AllBare(ys), EventKey);
  }

  function KindOf(view: Tasks.View): EventType {
    match view case TaskView => Task case HandoffView => Handoff
  }

  /** The events a view of one workspace is made of, in any order. */
  ghost predicate SeenFrom(events: seq<Event>, rows: map<int, Row>, view: Tasks.View, workspace: Option<string>) {
    && DistinctKeys(events, EventKey)
    && forall e :: e in events <==>
         && e.key.id in rows && rows[e.key.id].event == e && e.kind == (if view.TaskView? then Task else Handoff)
         && (workspace.Some? ==> e.workspace == workspace.value)
  }

  /** The items of a table, latest update first, then by identifier, and cut at the limit. */
  ghost predicate Shows(shown: seq<Tasks.Summary>, table: map<int, Tasks.Summary>, limit: Option<nat>) {
    && Tasks.ShowsNewest(shown, table, limit)
    && exists all :: Lists(all, table, Tasks.SummaryKey)
                     && shown == (if limit.Some? then all[..Min(limit.value, |all|)] else all)
  }

  /** A list of a view's items over these rows. */
  ghost predicate ListsItems(shown: seq<Tasks.Summary>, rows: map<int, Row>, view: Tasks.View, workspace: Option<string>,
                             limit: Option<nat>) {
    exists events :: SeenFrom(events, rows, view, workspace) && Shows(shown, Tasks.Project(view, events), limit)
  }

  function ViewFilter(view: Tasks.View, workspace: Option<string>): Filter {
    EVERYTHING.(kind := Some(KindOf(view)), workspace := workspace, limit := Some(U32_MAX))
  }

  /** Read the events of the view, then replay and list them. */
  method ListItems(store: EventStore, view: Tasks.View, workspace: Option<string>, limit: Option<nat>)
    returns (shown: Result<seq<Tasks.Summary>>)
    requires store.Ready() && |store.rows| <= U32_MAX
    ensures AllReadable(store.rows) ==> shown.Ok?
    ensures shown.Ok? ==> ListsItems(shown.value, store.rows, view, workspace, limit)
  {
    hide Matches, IsPage, Lists, AllReadable, Sound;
    var events := store.List(ViewFilter(view, workspace), Anything);
    ViewIsFound(store, view, workspace);
    PageIsSeen(store.Matching(ViewFilter(view, workspace), Anything), store.rows, view, workspace, events);
    if events.Err? { return Err(events.error); }
    var items := Tasks.Show(view, events.value, limit);
    shown := Ok(items);
  }

  /** These rows are the ones a view of this workspace is made of. */
  ghost predicate FoundFor(found: map<int, Row>, rows: map<int, Row>, view: Tasks.View, workspace: Option<string>) {
    && Keyed(found, RowKey) && found.Keys <= rows.Keys
    && (forall id | id in found :: found[id] == rows[id])
    && forall id | id in rows ::
         id in found <==> && rows[id].event.kind == KindOf(view)
                          && (workspace.Some? ==> rows[id].event.workspace == workspace.value)
  }

  lemma ViewIsFound(store: EventStore, view: Tasks.View, workspace: Option<string>)
    requires store.Ready()
    ensures FoundFor(store.Matching(ViewFilter(view, workspace), Anything), store.rows, view, workspace)
  {
    hide TagsExact, TagsSound, ClaimsUnique, ClaimsReadable, SchemaSound, KindOf;
  }

  lemma PageIsSeen(found: map<int, Row>, rows: map<int, Row>, view: Tasks.View, workspace: Option<string>,
                   events: Result<seq<Event>>)
    requires FoundFor(found, rows, view, workspace) && |rows| <= U32_MAX && IsPage(events, found, U32_MAX)
    ensures AllReadable(rows) ==> events.Ok?
    ensures events.Ok? ==> SeenFrom(events.value, rows, view, workspace)
  {
    SubsetSize(found.Keys, rows.Keys);
    hide IsPage, Lists, ReadRows, Everything, KindOf;
    WholePageIsEverything(events, found);
    if events.Ok? {
      EverythingIsThere(events.value, found);
      EverythingIsDistinct(events.value, found);
      forall id | id in found ensures found[id].Readable() {
        FoundIsReadable(events.value, found, id);
      }
    }
  }

  lemma EverythingIsDistinct(events: seq<Event>, rows: map<int, Row>)
    requires Everything(events, rows)
    ensures DistinctKeys(events, EventKey)
  {
    var all :| Lists(all, rows, RowKey) && ReadRows(Reverse(all)) == Ok(events);
    forall i, j | 0 <= i < j < |events| ensures EventKey(events[i]) != EventKey(events[j]) {
      assert Less(RowKey(all[|all| - 1 - j]), RowKey(all[|all| - 1 - i]));
    }
  }

  lemma FoundIsReadable(events: seq<Event>, rows: map<int, Row>, id: int)
    requires Everything(events, rows) && Keyed(rows, RowKey) && id in rows
    ensures rows[id].Readable()
  {
    var all :| Lists(all, rows, RowKey) && ReadRows(Reverse(all)) == Ok(events);
    ReverseElements(all);
    assert RowKey(rows[id]).id == id;
    assert rows[id] in all;
    var page := Reverse(all);
    assert rows[id] in page;
    var i :| 0 <= i < |page| && page[i] == rows[id];
    assert page[i].Readable();
  }

  ghost predicate Home(rows: map<int, Row>, workspace: string) {
    forall id | id in rows :: rows[id].Readable() && rows[id].event.workspace == workspace
  }

  /** An identifier names one event, wherever it is stored. */
  ghost predicate SameIdsSameEvents(l: map<int, Row>, p: map<int, Row>) {
    forall id | id in l && id in p :: Bare(l[id].event) == Bare(p[id].event)
  }

  /** Whatever one side shows in its workspace, the other side shows too. */
  lemma {:induction false} OtherSideHasIt(l: map<int, Row>, p: map<int, Row>, lw: string, pw: string,
                       mine: seq<Event>, theirs: seq<Event>, id: int)
    requires Keyed(l, RowKey) && Keyed(p, RowKey) && Home(l, lw) && Home(p, pw) && SameIdsSameEvents(l, p)
    requires Everything(mine, l) && Everything(theirs, p)
    requires var l2 := Import(l, theirs, Some(lw)); id in l2 && l2[id].event.kind != Workflow
    ensures var l2, p2 := Import(l, theirs, Some(lw)), Import(p, mine, Some(pw));
            && id in p2 && Bare(p2[id].event) == Bare(l2[id].event) && p2[id].event.kind == l2[id].event.kind
            && p2[id].event.workspace == pw && l2[id].event.workspace == lw
            && p2[id].event.key == l2[id].event.key && l2[id].event.key.id == id
  {
    var l2, p2 := Import(l, theirs, Some(lw)), Import(p, mine, Some(pw));
    ImportIsAJoin(l, theirs, Some(lw));
    ImportIsAJoin(p, mine, Some(pw));
    EverythingIsThere(mine, l);
    EverythingIsThere(theirs, p);
    assert forall r: Row :: Bare(r.event).key == r.event.key && Bare(r.event).kind == r.event.kind;
    hide Bare, Import, Everything;
    if id in l {
      var e := l[id].event;
      assert l[id] == NewRow(e) && e.key.id == id;
      RehomingIsBare(e, Some(pw));
      assert e in mine;
    } else {
      var e :| e in theirs && e.key.id == id && l2[id] == NewRow(Rehomed(e, Some(lw)));
      RehomingIsBare(e, Some(lw));
    }
  }

  /** The views of two stores that each keep their events in one workspace are the same table after a sync. */
  lemma {:induction false} SyncedViewsAgree(l: map<int, Row>, p: map<int, Row>, lw: string, pw: string,
                         mine: seq<Event>, theirs: seq<Event>, view: Tasks.View, xs: seq<Event>, ys: seq<Event>)
    requires Keyed(l, RowKey) && Keyed(p, RowKey) && Home(l, lw) && Home(p, pw) && SameIdsSameEvents(l, p)
    requires Everything(mine, l) && Everything(theirs, p)
    requires SeenFrom(xs, Import(l, theirs, Some(lw)), view, Some(lw))
    requires SeenFrom(ys, Import(p, mine, Some(pw)), view, Some(pw))
    ensures Tasks.Project(view, xs) == Tasks.Project(view, ys)
  {
    hide Bare, Import, Everything, Home, Keyed;
    assert SameIdsSameEvents(p, l);
    forall x | x in xs ensures exists y :: y in ys && Bare(y) == Bare(x) {
      OtherSideHasIt(l, p, lw, pw, mine, theirs, x.key.id);
      assert Import(p, mine, Some(pw))[x.key.id].event in ys;
    }
    forall y | y in ys ensures exists x :: x in xs && Bare(x) == Bare(y) {
      OtherSideHasIt(p, l, pw, lw, theirs, mine, y.key.id);
      assert Import(l, theirs, Some(lw))[y.key.id].event in xs;
    }
    AlikeListsShowTheSame(view, xs, ys);
  }

  lemma ListsOfOneTableAgree(a: seq<Tasks.Summary>, b: seq<Tasks.Summary>, table: map<int, Tasks.Summary>, limit: Option<nat>)
    requires Shows(a, table, limit) && Shows(b, table, limit)
    ensures a == b
  {
    var all :| Lists(all, table, Tasks.SummaryKey) && a == if limit.Some? then all[..Min(limit.value, |all|)] else all;
    var others :| Lists(others, table, Tasks.SummaryKey)
                  && b == if limit.Some? then others[..Min(limit.value, |others|)] else others;
    ListIsUnique(all, others, table, Tasks.SummaryKey);
  }

  /**
   * Two stores that each keep their events in one workspace show the same tasks and the same handoffs after a sync, in the
   * same order and cut at the same limit, although each has the other's events rewritten and in another order.
   */
  lemma {:induction false} SyncedListsAgree(l: map<int, Row>, p: map<int, Row>, lw: string, pw: string,
                                            l2: map<int, Row>, p2: map<int, Row>, report: SyncReport, view: Tasks.View,
                                            limit: Option<nat>, a: seq<Tasks.Summary>, b: seq<Tasks.Summary>)
    requires Keyed(l, RowKey) && Keyed(p, RowKey) && Home(l, lw) && Home(p, pw) && SameIdsSameEvents(l, p)
    requires Synced(l, p, Some(lw), Some(pw), l2, p2, report)
    requires ListsItems(a, l2, view, Some(lw), limit) && ListsItems(b, p2, view, Some(pw), limit)
    ensures a == b
  {
    hide SeenFrom, Shows, Everything, Import, Home, SameIdsSameEvents, Keyed, Tasks.Project;
    var mine, theirs :| && Everything(mine, l) && Everything(theirs, p)
                        && l2 == Import(l, theirs, Some(lw)) && p2 == Import(p, mine, Some(pw))
                        && |l2| == |l| + report.localImported && |p2| == |p| + report.peerImported
                        && report.localImported + report.peerImported + report.skipped == |mine| + |theirs|;
    var xs :| SeenFrom(xs, l2, view, Some(lw)) && Shows(a, Tasks.Project(view, xs), limit);
    var ys :| SeenFrom(ys, p2, view, Some(pw)) && Shows(b, Tasks.Project(view, ys), limit);
    SyncedViewsAgree(l, p, lw, pw, mine, theirs, view, xs, ys);
    ListsOfOneTableAgree(a, b, Tasks.Project(view, xs), limit);
  }
}
