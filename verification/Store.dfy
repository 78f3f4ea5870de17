/** The local event store: its tables, its migrations, and what its indexes promise. */
module Store {
  import opened Prelude
  import opened Ordering
  import opened Listing
  import opened Events

  const CURRENT_VERSION: nat := 4

  const DEFAULT_LIMIT: nat := 50

  /** A stored event. An old row may hold tags or metadata that do not parse; those fields of its event then mean nothing. */
  datatype Row = Row(event: Event, tagsParse: bool, metadataParses: bool) {
    predicate Readable() { tagsParse && metadataParses }
  }

  /** A row as it is written. */
  function NewRow(e: Event): Row { Row(e, true, true) }

  /** What the initial-claim index compares; nulls are never equal, so an event without run or step has none. */
  datatype Claim = Claim(workspace: string, run: Json, step: Json)

  datatype InsertMode = Strict | IgnoreDuplicates

  datatype Filter = Filter(id: Option<int>, kind: Option<EventType>, workspace: Option<string>, agent: Option<string>,
                           recipient: Option<string>, tag: Option<string>, tags: seq<string>, limit: Option<nat>)

  const EVERYTHING := Filter(None, None, None, None, None, None, [], None)

  /** `columns` are those of the event table, none while there is no such table. */
  datatype Database = Database(rows: map<int, Row>, tagIndex: set<(int, string)>, version: nat, claimIndex: bool,
                               columns: set<string>, indexes: set<string>)

  /** The columns the event table always had. */
  const OLDEST_COLUMNS :=
    {"id", "event_type", "workspace_id", "agent", "session_id", "title", "content", "tags", "created_at"}

  /** The columns a table from before versions may lack. */
  const LATER_COLUMNS :=
    {"repo_id", "repo_path", "git_remote", "bit_repo_id", "branch", "commit_hash", "repo_dirty", "metadata_json"}

  const INDEXES :=
    {"idx_events_type_created", "idx_events_workspace_created", "idx_events_agent_created", "idx_events_created_id",
     "idx_event_tags_tag"}

  datatype Outcome = Done | Refused | Broken | Interrupted

  function RowKey(row: Row): Key { row.event.key }

  /** The value SQL sees in a JSON field: booleans are numbers, and a null is as good as nothing. */
  function SqlValue(metadata: Json, field: string): Option<Json> {
    match Field(metadata, field)
    case None => None
    case Some(Null) => None
    case Some(Bool(b)) => Some(Number(if b then 1 else 0))
    case Some(value) => Some(value)
  }

  function ClaimOf(e: Event): Option<Claim> {
    var run, step := SqlValue(e.metadata, "run_id"), SqlValue(e.metadata, "step_id");
    if e.kind == Workflow && TextField(e.metadata, "action") == Some("claimed") && run.Some? && step.Some?
    then Some(Claim(e.workspace, run.value, step.value)) else None
  }

  function RowClaim(row: Row): Option<Claim> {
    if row.metadataParses then ClaimOf(row.event) else None
  }

  ghost predicate ClaimsUnique(rows: map<int, Row>) {
    forall i, j | i in rows && j in rows && i != j && RowClaim(rows[i]).Some? :: RowClaim(rows[i]) != RowClaim(rows[j])
  }

  /** The index reads the metadata of every workflow row, and can only be created if all of it parses. */
  ghost predicate ClaimsReadable(rows: map<int, Row>) {
    forall id | id in rows && rows[id].event.kind == Workflow :: rows[id].metadataParses
  }

  predicate Blocked(rows: map<int, Row>, e: Event) {
    ClaimOf(e).Some? && exists i | i in rows.Keys :: RowClaim(rows[i]) == ClaimOf(e)
  }

  /** The tag index has exactly the tags of every row whose tags can be read. */
  ghost predicate TagsExact(rows: map<int, Row>, index: set<(int, string)>) {
    forall id, tag | id in rows && rows[id].tagsParse :: (id, tag) in index <==> tag in rows[id].event.tags
  }

  /** No entry of the tag index is wrong, though some may be missing. */
  ghost predicate TagsSound(rows: map<int, Row>, index: set<(int, string)>) {
    forall id, tag | (id, tag) in index :: id in rows && (rows[id].tagsParse ==> tag in rows[id].event.tags)
  }

  /** What each version promises about the tables; a table from before versions has at least the oldest columns. */
  ghost predicate SchemaSound(db: Database) {
    && (db.columns == {} || OLDEST_COLUMNS <= db.columns)
    && (db.rows != map[] || db.version >= 1 ==> db.columns != {})
    && (db.version >= 2 ==> LATER_COLUMNS <= db.columns)
    && (db.version >= 3 ==> INDEXES <= db.indexes)
  }

  ghost predicate Sound(db: Database) {
    && SchemaSound(db)
    && Keyed(db.rows, RowKey)
    && TagsSound(db.rows, db.tagIndex)
    && (db.claimIndex ==> ClaimsReadable(db.rows) && ClaimsUnique(db.rows))
    && (db.version == CURRENT_VERSION ==> db.claimIndex && TagsExact(db.rows, db.tagIndex))
  }

  // ----- Migration -----

  function TagEntries(id: int, tags: seq<string>): set<(int, string)> {
    set tag | tag in tags :: (id, tag)
  }

  function AllTagEntries(rows: map<int, Row>): (entries: set<(int, string)>)
    ensures forall id, tag :: (id, tag) in entries <==> id in rows && rows[id].tagsParse && tag in rows[id].event.tags
  {
    set id, tag | id in rows && rows[id].tagsParse && tag in rows[id].event.tags :: (id, tag)
  }

  lemma PairsDecide(a: set<(int, string)>, b: set<(int, string)>)
    requires forall id, tag :: (id, tag) in a <==> (id, tag) in b
    ensures a == b
  {
    forall entry ensures entry in a <==> entry in b {
      var (id, tag) := entry;
      assert (id, tag) in a <==> (id, tag) in b;
    }
  }

  /** Create the event table unless there is one. */
  function WithTable(columns: set<string>): set<string> {
    if columns == {} then OLDEST_COLUMNS + LATER_COLUMNS else columns
  }

  /** One migration transaction. Only the last one depends on the rows. */
  ghost function Transaction(db: Database, target: nat): Option<Database>
    requires 1 <= target <= CURRENT_VERSION
  {
    if target == 1 then Some(db.(version := target, columns := WithTable(db.columns)))
    else if target == 2 then Some(db.(version := target, columns := db.columns + LATER_COLUMNS))
    else if target == 3 then Some(db.(version := target, indexes := db.indexes + INDEXES))
    else if !db.claimIndex && !(ClaimsReadable(db.rows) && ClaimsUnique(db.rows)) then None
    else Some(db.(version := target, claimIndex := true, tagIndex := db.tagIndex + AllTagEntries(db.rows)))
  }

  /** Migrating until done, broken, or out of luck after `budget` transactions. */
  ghost function MigrateFor(db: Database, budget: nat): (Database, Outcome)
    decreases budget
  {
    if db.version > CURRENT_VERSION then (db, Refused)
    else if db.version == CURRENT_VERSION then (db, Done)
    else if budget == 0 then (db, Interrupted)
    else match Transaction(db, db.version + 1)
         case None => (db, Broken)
         case Some(next) => MigrateFor(next, budget - 1)
  }

  /** Being interrupted any number of times changes nothing about where a migration ends. */
  lemma {:induction false} InterruptionsLeaveNoTrace(db: Database, first: nat, rest: nat)
    requires MigrateFor(db, first).1 == Interrupted
    ensures MigrateFor(MigrateFor(db, first).0, rest) == MigrateFor(db, first + rest)
    decreases first
  {
    if db.version < CURRENT_VERSION && first > 0 {
      InterruptionsLeaveNoTrace(Transaction(db, db.version + 1).value, first - 1, rest);
    }
  }

  /** A migration succeeds exactly when the claims of every workflow row can be read and no step was claimed twice. */
  lemma {:induction false} MigrationSucceedsIff(db: Database, budget: nat)
    requires Sound(db) && db.version <= CURRENT_VERSION && budget >= CURRENT_VERSION - db.version
    ensures var (after, outcome) := MigrateFor(db, budget);
            && (outcome == Done <==> ClaimsReadable(db.rows) && ClaimsUnique(db.rows))
            && (outcome != Done ==> outcome == Broken && after.version == CURRENT_VERSION - 1)
            && (outcome == Done ==> after.version == CURRENT_VERSION)
    decreases budget
  {
    if db.version < CURRENT_VERSION && Transaction(db, db.version + 1).Some? {
      TransactionKeepsSound(db, db.version + 1);
      if db.version + 1 < CURRENT_VERSION {
        MigrationSucceedsIff(Transaction(db, db.version + 1).value, budget - 1);
      }
    }
  }

  lemma TransactionKeepsSound(db: Database, target: nat)
    requires Sound(db) && target == db.version + 1 <= CURRENT_VERSION && Transaction(db, target).Some?
    ensures Sound(Transaction(db, target).value) && Transaction(db, target).value.rows == db.rows
  {
  }

  /** Wherever a migration stops, the rows are untouched and the indexes are as good as the version says. */
  lemma {:induction false} MigrationKeepsSound(db: Database, budget: nat)
    requires Sound(db)
    ensures Sound(MigrateFor(db, budget).0) && MigrateFor(db, budget).0.rows == db.rows
    decreases budget
  {
    hide Sound;
    if db.version < CURRENT_VERSION && budget > 0 && Transaction(db, db.version + 1).Some? {
      TransactionKeepsSound(db, db.version + 1);
      MigrationKeepsSound(Transaction(db, db.version + 1).value, budget - 1);
    }
  }

  // ----- The store -----

  /** The conditions a query checks before it looks into the metadata. */
  predicate Considered(e: Event, filter: Filter) {
    && (filter.id.Some? ==> e.key.id == filter.id.value)
    && (filter.kind.Some? ==> e.kind == filter.kind.value)
    && (filter.workspace.Some? ==> e.workspace == filter.workspace.value)
    && (filter.agent.Some? ==> e.agent == filter.agent.value)
  }

  /** A query by recipient stops at metadata it cannot read. */
  predicate Stuck(rows: map<int, Row>, filter: Filter) {
    filter.recipient.Some? && exists id | id in rows.Keys :: Considered(rows[id].event, filter) && !rows[id].metadataParses
  }

  /** The conditions a query puts on a row, given the tags the row is found under. */
  predicate Matches(row: Row, filter: Filter, text: Event -> bool, carries: string -> bool) {
    var e := row.event;
    && Considered(e, filter)
    && (filter.recipient.Some? ==>
          TextField(e.metadata, "to") == filter.recipient || carries("to:" + filter.recipient.value))
    && (forall tag | tag in filter.tags :: carries(tag))
    && (filter.tag.Some? ==> carries(filter.tag.value))
    && text(e)
  }

  /** The tags of a row: its own where they can be read, else whatever the index has. */
  function CarriedTags(row: Row, index: set<(int, string)>): string -> bool {
    tag => if row.tagsParse then tag in row.event.tags else (row.event.key.id, tag) in index
  }

  function IndexedTags(id: int, index: set<(int, string)>): string -> bool {
    tag => (id, tag) in index
  }

  lemma MatchesOnTags(row: Row, filter: Filter, text: Event -> bool, f: string -> bool, g: string -> bool)
    requires forall tag :: f(tag) == g(tag)
    ensures Matches(row, filter, text, f) == Matches(row, filter, text, g)
  {
  }

  /** A page of rows as events; one unreadable row spoils the page. */
  function ReadRows(page: seq<Row>): Result<seq<Event>> {
    if forall i | 0 <= i < |page| :: page[i].Readable()
    then Ok(seq(|page|, i requires 0 <= i < |page| => page[i].event))
    else Err("row has malformed tags or metadata")
  }

  function LimitOf(filter: Filter): nat {
    if filter.limit.Some? then filter.limit.value else DEFAULT_LIMIT
  }

  /** The newest of the rows found, newest first. */
  ghost predicate IsPage(events: Result<seq<Event>>, found: map<int, Row>, limit: nat) {
    exists all :: Lists(all, found, RowKey) && events == ReadRows(Reverse(all)[..Min(limit, |all|)])
  }

  ghost predicate AllReadable(rows: map<int, Row>) {
    forall id | id in rows :: rows[id].Readable()
  }

  /** Only a row that cannot be read makes a query fail. */
  lemma ReadablePages(events: Result<seq<Event>>, found: map<int, Row>, rows: map<int, Row>, limit: nat)
    requires AllReadable(rows) && IsPage(events, found, limit)
    requires forall id | id in found :: id in rows && found[id] == rows[id]
    ensures events.Ok?
  {
    var all :| Lists(all, found, RowKey) && events == ReadRows(Reverse(all)[..Min(limit, |all|)]);
    ReverseElements(all);
    var page := Reverse(all)[..Min(limit, |all|)];
    forall i | 0 <= i < |page| ensures page[i].Readable() {
      assert page[i] == Reverse(all)[i] && Reverse(all)[i] in Reverse(all);
      assert page[i] in all;
      assert RowKey(page[i]).id in found;
    }
  }

  // ----- What queries and inserts come to, in terms of the rows themselves -----

  /** What a query asks of an event. */
  ghost predicate Wanted(e: Event, filter: Filter, text: Event -> bool) {
    && (filter.id.Some? ==> e.key.id == filter.id.value)
    && (filter.kind.Some? ==> e.kind == filter.kind.value)
    && (filter.workspace.Some? ==> e.workspace == filter.workspace.value)
    && (filter.agent.Some? ==> e.agent == filter.agent.value)
    && (filter.recipient.Some? ==>
          TextField(e.metadata, "to") == filter.recipient || "to:" + filter.recipient.value in e.tags)
    && (filter.tag.Some? ==> filter.tag.value in e.tags)
    && (forall tag | tag in filter.tags :: tag in e.tags)
    && text(e)
  }

  ghost predicate Newer(a: Event, b: Event) {
    a.key.at > b.key.at || (a.key.at == b.key.at && a.key.id > b.key.id)
  }

  /**
   * The newest of what is wanted, newest first: all of it, or as many as the limit says, fifty if it says nothing, and then
   * everything left out is older.
   */
  ghost predicate NewestWanted(events: seq<Event>, rows: map<int, Row>, filter: Filter, text: Event -> bool) {
    var limit := if filter.limit.Some? then filter.limit.value else 50;
    && |events| <= limit
    && (forall i, j | 0 <= i < j < |events| :: Newer(events[i], events[j]))
    && (forall e | e in events ::
          e.key.id in rows && rows[e.key.id] == Row(e, true, true) && Wanted(e, filter, text))
    && forall id | id in rows && rows[id].tagsParse && rows[id].metadataParses && Wanted(rows[id].event, filter, text) ::
         || rows[id].event in events
         || (|events| == limit && forall e | e in events :: Newer(e, rows[id].event))
  }

  lemma ReadableMatchesIff(row: Row, filter: Filter, text: Event -> bool, index: set<(int, string)>)
    requires row.Readable()
    ensures Matches(row, filter, text, CarriedTags(row, index)) <==> Wanted(row.event, filter, text)
  {
  }

  lemma ReadPage(page: seq<Row>, events: seq<Event>)
    requires ReadRows(page) == Ok(events)
    ensures |events| == |page| && forall i | 0 <= i < |page| :: page[i] == Row(events[i], true, true)
  {
  }

  lemma FoundInOrder(all: seq<Row>, found: map<int, Row>, i: nat, j: nat)
    requires Lists(all, found, RowKey) && i < j < |all|
    ensures Newer(Reverse(all)[i].event, Reverse(all)[j].event)
  {
    assert Less(RowKey(all[|all| - 1 - j]), RowKey(all[|all| - 1 - i]));
  }

  /** Every row found is somewhere in the list, newest first. */
  lemma FoundAreListed(all: seq<Row>, found: map<int, Row>)
    requires Lists(all, found, RowKey) && Keyed(found, RowKey)
    ensures forall row | row in Reverse(all) :: row.event.key.id in found && found[row.event.key.id] == row
    ensures forall id | id in found :: found[id] in Reverse(all)
    ensures forall i, j | 0 <= i < j < |all| :: Newer(Reverse(all)[i].event, Reverse(all)[j].event)
  {
    ReverseElements(all);
    forall row | row in Reverse(all) ensures row.event.key.id in found && found[row.event.key.id] == row {
      assert RowKey(row).id in found;
    }
    forall id | id in found ensures found[id] in Reverse(all) {
      assert RowKey(found[id]).id == id;
    }
    forall i, j | 0 <= i < j < |all| ensures Newer(Reverse(all)[i].event, Reverse(all)[j].event) {
      FoundInOrder(all, found, i, j);
    }
  }

  lemma CutKeepsNewest(newest: seq<Row>, events: seq<Event>, row: Row)
    requires |events| <= |newest| && forall i | 0 <= i < |events| :: events[i] == newest[i].event
    requires forall i, j | 0 <= i < j < |newest| :: Newer(newest[i].event, newest[j].event)
    requires row in newest
    ensures row.event in events || (|events| < |newest| && forall e | e in events :: Newer(e, row.event))
  {
    hide Newer;
    var k :| 0 <= k < |newest| && newest[k] == row;
    if k < |events| {
      assert events[k] == row.event;
    }
  }

  lemma PageIsNewest(events: seq<Event>, found: map<int, Row>, limit: nat)
    requires Keyed(found, RowKey) && IsPage(Ok(events), found, limit)
    ensures |events| <= limit
    ensures forall i, j | 0 <= i < j < |events| :: Newer(events[i], events[j])
    ensures forall e | e in events :: e.key.id in found && found[e.key.id] == Row(e, true, true)
    ensures forall id | id in found ::
              found[id].event in events || (|events| == limit && forall e | e in events :: Newer(e, found[id].event))
  {
    var all :| Lists(all, found, RowKey) && Ok(events) == ReadRows(Reverse(all)[..Min(limit, |all|)]);
    FoundAreListed(all, found);
    var newest := Reverse(all);
    ReadPage(newest[..Min(limit, |all|)], events);
    hide ReadRows, Reverse, Lists, Keyed, Newer, IsPage;
    assert forall i | 0 <= i < |events| :: newest[i] == Row(events[i], true, true);
    forall e | e in events ensures e.key.id in found && found[e.key.id] == Row(e, true, true) {
      var i :| 0 <= i < |events| && events[i] == e;
      assert newest[i] in newest;
    }
    forall id | id in found
      ensures found[id].event in events || (|events| == limit && forall e | e in events :: Newer(e, found[id].event))
    {
      CutKeepsNewest(newest, events, found[id]);
    }
  }

  lemma PageIsNewestWanted(events: seq<Event>, found: map<int, Row>, rows: map<int, Row>, filter: Filter,
                           text: Event -> bool, index: set<(int, string)>)
    requires Keyed(rows, RowKey) && IsPage(Ok(events), found, LimitOf(filter))
    requires found == map id | id in rows && Matches(rows[id], filter, text, CarriedTags(rows[id], index)) :: rows[id]
    ensures NewestWanted(events, rows, filter, text)
  {
    PageIsNewest(events, found, LimitOf(filter));
    forall id | id in rows && rows[id].Readable()
      ensures Matches(rows[id], filter, text, CarriedTags(rows[id], index)) <==> Wanted(rows[id].event, filter, text)
    {
      ReadableMatchesIff(rows[id], filter, text, index);
    }
    hide Matches, Wanted, Newer, IsPage;
  }

  /** A value other than null, a boolean standing for one or zero. */
  ghost predicate SameValue(a: Option<Json>, b: Option<Json>) {
    && a.Some? && b.Some? && !a.value.Null? && !b.value.Null?
    && (|| a == b
        || (a.value.Bool? && b.value == Number(if a.value.value then 1 else 0))
        || (b.value.Bool? && a.value == Number(if b.value.value then 1 else 0)))
  }

  /** Both events claim the same step of the same run for the first time, in the same workspace. */
  ghost predicate SameClaim(a: Event, b: Event) {
    && a.kind == Workflow && b.kind == Workflow && a.workspace == b.workspace
    && TextField(a.metadata, "action") == Some("claimed") && TextField(b.metadata, "action") == Some("claimed")
    && SameValue(Field(a.metadata, "run_id"), Field(b.metadata, "run_id"))
    && SameValue(Field(a.metadata, "step_id"), Field(b.metadata, "step_id"))
  }

  lemma SameSqlValue(a: Json, b: Json, field: string)
    ensures SqlValue(a, field).Some? && SqlValue(a, field) == SqlValue(b, field)
       <==> SameValue(Field(a, field), Field(b, field))
  {
  }

  lemma SameClaimIff(a: Event, b: Event)
    ensures ClaimOf(a).Some? && ClaimOf(a) == ClaimOf(b) <==> SameClaim(a, b)
  {
    SameSqlValue(a.metadata, b.metadata, "run_id");
    SameSqlValue(a.metadata, b.metadata, "step_id");
    hide SqlValue, SameValue, TextField;
  }

  lemma BlockedIff(rows: map<int, Row>, e: Event)
    ensures Blocked(rows, e) <==> exists id :: id in rows && rows[id].metadataParses && SameClaim(e, rows[id].event)
  {
    forall id | id in rows
      ensures ClaimOf(e).Some? && RowClaim(rows[id]) == ClaimOf(e) <==>
                rows[id].metadataParses && SameClaim(e, rows[id].event)
    {
      SameClaimIff(e, rows[id].event);
    }
    hide ClaimOf, SameClaim;
    if Blocked(rows, e) {
      var id :| id in rows.Keys && RowClaim(rows[id]) == ClaimOf(e);
      assert id in rows && SameClaim(e, rows[id].event);
    }
    if id :| id in rows && rows[id].metadataParses && SameClaim(e, rows[id].event) {
      assert id in rows.Keys && RowClaim(rows[id]) == ClaimOf(e);
    }
  }

  class EventStore {
    var rows: map<int, Row>
    var tagIndex: set<(int, string)>
    var version: nat
    var claimIndex: bool
    var columns: set<string>
    var indexes: set<string>

    constructor (db: Database)
      ensures Snapshot() == db
    {
      rows, tagIndex, version, claimIndex := db.rows, db.tagIndex, db.version, db.claimIndex;
      columns, indexes := db.columns, db.indexes;
    }

    function Snapshot(): Database
      reads this
    {
      Database(rows, tagIndex, version, claimIndex, columns, indexes)
    }

    /** Open and up to date, the only state events are read and written in. */
    ghost predicate Ready()
      reads this
    {
      Sound(Snapshot()) && version == CURRENT_VERSION
    }

    /** Add the missing tags of every readable row to the index. */
    method BackfillEventTags()
      modifies this`tagIndex
      ensures tagIndex == old(tagIndex) + AllTagEntries(rows)
    {
      var rest := rows.Keys;
      while rest != {}
        invariant rest <= rows.Keys
        invariant forall id, tag :: (id, tag) in tagIndex <==>
                    || (id, tag) in old(tagIndex)
                    || (id in rows && id !in rest && rows[id].tagsParse && tag in rows[id].event.tags)
        decreases |rest|
      {
        SomeId(rest);
        var id :| id in rest;
        rest := rest - {id};
        if rows[id].tagsParse {
          tagIndex := tagIndex + TagEntries(id, rows[id].event.tags);
        }
      }
      PairsDecide(tagIndex, old(tagIndex) + AllTagEntries(rows));
    }

    /** Whether the unique index could be created over the rows there are. */
    method ClaimsCanBeIndexed() returns (ok: bool)
      ensures ok <==> ClaimsReadable(rows) && ClaimsUnique(rows)
    {
      ok := && (forall id | id in rows.Keys && rows[id].event.kind == Workflow :: rows[id].metadataParses)
            && forall i, j | i in rows.Keys && j in rows.Keys && i != j && RowClaim(rows[i]).Some? ::
                 RowClaim(rows[i]) != RowClaim(rows[j]);
    }

    /** The work of one migration, before its version is recorded. */
    method ApplyMigration(target: nat) returns (ok: bool)
      requires 1 <= target <= CURRENT_VERSION
      modifies this
      ensures ok <==> Transaction(old(Snapshot()), target).Some?
      ensures Snapshot() == if ok then Transaction(old(Snapshot()), target).value.(version := old(version))
                            else old(Snapshot())
    {
      if target == 1 {
        if columns == {} {
          columns := OLDEST_COLUMNS + LATER_COLUMNS;
        }
      } else if target == 2 {
        columns := columns + LATER_COLUMNS;
      } else if target == 3 {
        indexes := indexes + INDEXES;
      } else {
        if !claimIndex {
          ok := ClaimsCanBeIndexed();
          if !ok {
            return;
          }
          claimIndex := true;
        }
        BackfillEventTags();
      }
      ok := true;
    }

    method Migrate(budget: nat) returns (outcome: Outcome)
      modifies this
      ensures (Snapshot(), outcome) == MigrateFor(old(Snapshot()), budget)
    {
      if version > CURRENT_VERSION {
        return Refused;
      }
      var left: nat := budget;
      while version < CURRENT_VERSION
        invariant version <= CURRENT_VERSION && left <= budget
        invariant MigrateFor(Snapshot(), left) == MigrateFor(old(Snapshot()), budget)
        decreases CURRENT_VERSION - version
      {
        if left == 0 {
          return Interrupted;
        }
        var target := version + 1;
        var ok := ApplyMigration(target);
        if !ok {
          return Broken;
        }
        version := target;
        left := left - 1;
      }
      outcome := Done;
    }

    /** Insert a row and its tags, or report the row that stands in the way. */
    method InsertEvent(e: Event, mode: InsertMode) returns (inserted: Result<bool>)
      requires Ready()
      modifies this
      ensures Ready()
      ensures var free := e.key.id !in old(rows) && !Blocked(old(rows), e);
              && rows == (if free then old(rows)[e.key.id := NewRow(e)] else old(rows))
              && inserted == (if free then Ok(true) else if mode == IgnoreDuplicates then Ok(false)
                              else Err("constraint failed"))
      ensures inserted == Ok(true) <==>
                && e.key.id !in old(rows)
                && !exists id :: id in old(rows) && old(rows)[id].metadataParses && SameClaim(e, old(rows)[id].event)
    {
      BlockedIff(rows, e);
      if e.key.id in rows || Blocked(rows, e) {
        return if mode == IgnoreDuplicates then Ok(false) else Err("constraint failed");
      }
      rows := rows[e.key.id := NewRow(e)];
      tagIndex := tagIndex + TagEntries(e.key.id, e.tags);
      inserted := Ok(true);
    }

    /** What a query finds, judged by the rows' own tags. */
    ghost function Matching(filter: Filter, text: Event -> bool): map<int, Row>
      reads this
    {
      var index := tagIndex;
      map id | id in rows && Matches(rows[id], filter, text, CarriedTags(rows[id], index)) :: rows[id]
    }

    /** The query itself only looks tags up in the index. */
    method List(filter: Filter, text: Event -> bool) returns (events: Result<seq<Event>>)
      requires Ready()
      ensures Stuck(rows, filter) ==> events.Err?
      ensures !Stuck(rows, filter) ==> IsPage(events, Matching(filter, text), LimitOf(filter))
      ensures events.Ok? ==> NewestWanted(events.value, rows, filter, text)
      ensures (forall id | id in rows :: rows[id].tagsParse && rows[id].metadataParses) ==> events.Ok?
    {
      if Stuck(rows, filter) {
        return Err("malformed JSON");
      }
      var index := tagIndex;
      var table := rows;
      var found := map id | id in table && Matches(table[id], filter, text, IndexedTags(id, index)) :: table[id];
      forall id | id in table
        ensures Matches(table[id], filter, text, IndexedTags(id, index))
             == Matches(table[id], filter, text, CarriedTags(table[id], index))
      {
        MatchesOnTags(table[id], filter, text, IndexedTags(id, index), CarriedTags(table[id], index));
      }
      assert found == Matching(filter, text);
      var all := Listed(found, RowKey);
      events := ReadRows(Reverse(all)[..Min(LimitOf(filter), |all|)]);
      assert IsPage(events, found, LimitOf(filter));
      if events.Ok? {
        PageIsNewestWanted(events.value, found, rows, filter, text, index);
      } else if AllReadable(rows) {
        ReadablePages(events, found, rows, LimitOf(filter));
      }
    }
  }
}
