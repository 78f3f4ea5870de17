/** An event on its way to the gateway and back: the request body, the stored row, and the event rebuilt from it. */
module PushBody {
  import opened Prelude
  import opened Ordering
  import opened Text
  import opened Events
  import Uuid

  const LOCAL := "shuttle_local"

  const REPO := "repo"

  const SOURCE := "remote_source_workspace_id"

  /** The body of an append request. Times travel as text that keeps every nanosecond, so they stay instants here. */
  datatype Body = Body(eventId: string, kind: EventType, agent: string, session: string, title: Option<string>,
                       content: string, tags: seq<string>, workspace: string, gitRemote: Option<string>,
                       branch: Option<string>, commit: Option<string>, dirty: Option<bool>,
                       metadata: map<string, Json>, createdAt: int)

  datatype GatewayRow = GatewayRow(id: string, workspace: Option<string>, kind: EventType, agent: string, session: string,
                                   title: Option<string>, content: string, gitRemote: Option<string>, branch: Option<string>,
                                   commit: Option<string>, dirty: Option<bool>, metadata: map<string, Json>,
                                   tags: seq<string>, createdAt: int)

  // ----- Pushing -----

  function WithText(fields: map<string, Json>, name: string, value: Option<string>): map<string, Json> {
    if value.Some? then fields[name := Text(value.value)] else fields
  }

  /** The columns the gateway does not have. */
  function LocalFields(repo: Repo): map<string, Json> {
    WithText(WithText(WithText(map[], "repo_id", repo.id), "repo_path", repo.path), "bit_repo_id", repo.bitId)
  }

  function FieldsOf(metadata: Json): map<string, Json> {
    if metadata.Object? then metadata.fields else map[]
  }

  function EventToPushBody(e: Event): Body
    requires 0 <= e.key.id < Uuid.LIMIT
  {
    var local := LocalFields(e.repo);
    var metadata := if local == map[] then FieldsOf(e.metadata) else FieldsOf(e.metadata)[LOCAL := Object(local)];
    Body(Uuid.Format(e.key.id), e.kind, e.agent, e.session, e.title, e.content, e.tags, e.workspace,
         e.repo.gitRemote, e.repo.branch, e.repo.commit, e.repo.dirty, metadata, e.key.at)
  }

  // ----- Accepting, as the gateway does it -----

  /** The characters that JavaScript trims. */
  predicate JsSpace(c: char) {
    || '\t' <= c <= '\r' || c == ' ' || c == '\U{A0}' || c == '\U{1680}' || '\U{2000}' <= c <= '\U{200A}'
    || c == '\U{2028}' || c == '\U{2029}' || c == '\U{202F}' || c == '\U{205F}' || c == '\U{3000}' || c == '\U{FEFF}'
  }

  /** They are the blanks of Unicode without U+0085 and with U+FEFF. */
  lemma JsSpacesAre(c: char)
    ensures JsSpace(c) <==> (WhiteSpace(c) && c != '\U{85}') || c == '\U{FEFF}'
  {
  }

  function Trim(s: string): string
    decreases |s|
  {
    if s == "" then ""
    else if JsSpace(s[0]) then Trim(s[1..])
    else if JsSpace(s[|s| - 1]) then Trim(s[..|s| - 1])
    else s
  }

  function Cleaned(tags: seq<string>): seq<string> {
    if tags == [] then []
    else
      var tag := Trim(tags[0]);
      (if tag == "" then [] else [tag]) + Cleaned(tags[1..])
  }

  function OptionJson(value: Option<string>): Json {
    if value.Some? then Text(value.value) else Null
  }

  function RepoEntry(b: Body): Json {
    Object(map["git_remote" := OptionJson(b.gitRemote), "branch" := OptionJson(b.branch), "commit" := OptionJson(b.commit),
               "dirty" := if b.dirty.Some? then Bool(b.dirty.value) else Null, "dirty_files" := List([])])
  }

  function OrElse(text: string, other: string): string {
    if text == "" then other else text
  }

  /** The row a new event is stored as; `freshId` is drawn when an identifier is missing. */
  function Accept(b: Body, freshId: string): Result<GatewayRow> {
    if Trim(b.content) == "" then Err("content is required")
    else Ok(GatewayRow(OrElse(Trim(b.eventId), freshId), Some(b.workspace), b.kind,
                       OrElse(Trim(b.agent), "unknown"), OrElse(Trim(b.session), freshId), b.title, b.content,
                       b.gitRemote, b.branch, b.commit, b.dirty, b.metadata[REPO := RepoEntry(b)],
                       SortedDistinct(Cleaned(b.tags)), b.createdAt))
  }

  // ----- Pulling -----

  function LocalField(local: Option<Json>, name: string): Option<string> {
    if local.Some? then TextField(local.value, name) else None
  }

  /** The event a row becomes in a workspace. Identifiers that are not UUIDs are mapped by a fixed function. */
  function RemoteToEvent(row: GatewayRow, workspace: string, uuid5: string -> int): Event {
    var parsed := Uuid.Parse(row.id);
    var id := if parsed.Some? then parsed.value else uuid5(row.id);
    var local := if LOCAL in row.metadata then Some(row.metadata[LOCAL]) else None;
    var stripped := row.metadata - {LOCAL};
    var marked := if row.workspace.Some? && row.workspace.value != workspace
                  then stripped[SOURCE := Text(row.workspace.value)] else stripped;
    Event(Key(row.createdAt, id), row.kind, workspace,
          Repo(LocalField(local, "repo_id"), LocalField(local, "repo_path"), row.gitRemote, LocalField(local, "bit_repo_id"),
               row.branch, row.commit, row.dirty),
          row.agent, row.session, row.title, row.content, row.tags, Object(marked))
  }

  /**
   * How a row of the gateway is read, whoever wrote it: a UUID in any accepted spelling is that identifier and anything else a
   * fixed one, so a second pull finds the event again; metadata loses the stash and gains the workspace it came from.
   */
  lemma RowsAreRead(row: GatewayRow, workspace: string, uuid5: string -> int)
    ensures var e := RemoteToEvent(row, workspace, uuid5);
            && (Uuid.Parse(row.id).Some? ==> e.key == Key(row.createdAt, Uuid.Parse(row.id).value))
            && (Uuid.Parse(row.id).None? ==> e.key == Key(row.createdAt, uuid5(row.id)))
            && e.workspace == workspace && e.kind == row.kind && e.agent == row.agent && e.session == row.session
            && e.title == row.title && e.content == row.content && e.tags == row.tags
            && e.repo.gitRemote == row.gitRemote && e.repo.branch == row.branch && e.repo.commit == row.commit
            && e.repo.dirty == row.dirty
            && Field(e.metadata, "shuttle_local").None?
            && (row.workspace.Some? && row.workspace.value != workspace ==>
                  TextField(e.metadata, "remote_source_workspace_id") == row.workspace)
            && (!(row.workspace.Some? && row.workspace.value != workspace) ==>
                  Field(e.metadata, "remote_source_workspace_id") == Field(Object(row.metadata), "remote_source_workspace_id"))
            && forall name | name != "shuttle_local" && name != "remote_source_workspace_id" ::
                 Field(e.metadata, name) == Field(Object(row.metadata), name)
  {
    assert "shuttle_local"[0] != "remote_source_workspace_id"[0];
    hide Uuid.Parse, LocalField;
  }

  // ----- There and back -----

  /** What the gateway would not change about an event. */
  predicate Canonical(e: Event) {
    && Trim(e.content) != "" && Trim(e.agent) == e.agent != "" && Trim(e.session) == e.session != ""
    && Increasing(e.tags) && forall i | 0 <= i < |e.tags| :: Trim(e.tags[i]) == e.tags[i] != ""
  }

  predicate Unreserved(metadata: Json) {
    var fields := FieldsOf(metadata);
    LOCAL !in fields && REPO !in fields && SOURCE !in fields
  }

  lemma LocalFieldsAreRead(repo: Repo)
    ensures LocalField(Some(Object(LocalFields(repo))), "repo_id") == repo.id
    ensures LocalField(Some(Object(LocalFields(repo))), "repo_path") == repo.path
    ensures LocalField(Some(Object(LocalFields(repo))), "bit_repo_id") == repo.bitId
    ensures LocalFields(repo) == map[] <==> repo.id.None? && repo.path.None? && repo.bitId.None?
  {
  }

  /** From the first to the last character that is no space. */
  ghost predicate Inside(s: string, i: int, j: int) {
    && 0 <= i <= j <= |s|
    && (forall k | 0 <= k < i :: JsSpace(s[k])) && (forall k | j <= k < |s| :: JsSpace(s[k]))
    && (i < j ==> !JsSpace(s[i]) && !JsSpace(s[j - 1]))
  }

  lemma InsideLater(s: string, i: int, j: int)
    requires s != "" && JsSpace(s[0]) && Inside(s[1..], i, j)
    ensures Inside(s, i + 1, j + 1) && s[1..][i..j] == s[i + 1..j + 1]
  {
    hide JsSpace;
    assert forall k | 1 <= k < |s| :: s[k] == s[1..][k - 1];
  }

  lemma InsideEarlier(s: string, i: int, j: int)
    requires s != "" && JsSpace(s[|s| - 1]) && Inside(s[..|s| - 1], i, j)
    ensures Inside(s, i, j) && s[..|s| - 1][i..j] == s[i..j]
  {
    hide JsSpace;
    assert forall k | 0 <= k < |s| - 1 :: s[k] == s[..|s| - 1][k];
  }

  /** What trimming leaves. */
  lemma {:induction false} TrimIs(s: string)
    ensures exists i, j :: Inside(s, i, j) && Trim(s) == s[i..j]
    decreases |s|
  {
    if s != "" && JsSpace(s[0]) {
      TrimIs(s[1..]);
      var i, j :| Inside(s[1..], i, j) && Trim(s[1..]) == s[1..][i..j];
      InsideLater(s, i, j);
    } else if s != "" && JsSpace(s[|s| - 1]) {
      TrimIs(s[..|s| - 1]);
      var i, j :| Inside(s[..|s| - 1], i, j) && Trim(s[..|s| - 1]) == s[..|s| - 1][i..j];
      InsideEarlier(s, i, j);
    } else {
      assert Inside(s, 0, |s|) && s[0..|s|] == s;
    }
    hide JsSpace, Inside;
  }

  lemma {:induction false} TrimIsStable(s: string)
    ensures Trim(Trim(s)) == Trim(s)
    decreases |s|
  {
    if s == "" {
    } else if JsSpace(s[0]) {
      TrimIsStable(s[1..]);
    } else if JsSpace(s[|s| - 1]) {
      TrimIsStable(s[..|s| - 1]);
    }
  }

  ghost predicate Tidy(tags: seq<string>) {
    forall tag | tag in tags :: Trim(tag) == tag != ""
  }

  lemma {:induction false} CleanedIsTidy(tags: seq<string>)
    ensures Tidy(Cleaned(tags))
    ensures Tidy(tags) ==> Cleaned(tags) == tags
  {
    if tags != [] {
      CleanedIsTidy(tags[1..]);
      TrimIsStable(tags[0]);
      assert tags == [tags[0]] + tags[1..];
      hide Trim;
    }
  }

  /** Tags come back unchanged exactly when they were already trimmed, distinct and in order. */
  lemma {:induction false} TagsComeBackIff(tags: seq<string>)
    ensures SortedDistinct(Cleaned(tags)) == tags <==> Increasing(tags) && Tidy(tags)
  {
    hide TextLess, Increasing, Cleaned, SortedDistinct;
    CleanedIsTidy(tags);
    SortedDistinctIsOrdered(Cleaned(tags));
    SortedDistinctIsOrdered(tags);
  }

  ghost predicate Left(tags: seq<string>, tag: string) {
    tag != "" && exists i :: 0 <= i < |tags| && Trim(tags[i]) == tag
  }

  /** A stored row has exactly what trimming leaves of each tag. */
  lemma {:induction false} TagsAreKeptAsASet(tags: seq<string>)
    ensures forall x :: x in SortedDistinct(Cleaned(tags)) <==> Left(tags, x)
  {
    SortedDistinctIsOrdered(Cleaned(tags));
    CleanedElements(tags);
  }

  lemma {:induction false} CleanedElements(tags: seq<string>)
    ensures forall x :: x in Cleaned(tags) <==> Left(tags, x)
  {
    hide Trim;
    if tags != [] {
      CleanedElements(tags[1..]);
      forall x ensures Left(tags, x) <==> Left(tags[1..], x) || (x != "" && Trim(tags[0]) == x) {
        if Left(tags[1..], x) {
          var i :| 0 <= i < |tags[1..]| && Trim(tags[1..][i]) == x;
          assert Trim(tags[i + 1]) == x;
        }
        if Left(tags, x) && Trim(tags[0]) != x {
          var i :| 0 <= i < |tags| && Trim(tags[i]) == x;
          assert Trim(tags[1..][i - 1]) == x;
        }
      }
    }
  }

  /** Everything a pull is meant to give back. */
  predicate Restores(e: Event, back: Event) {
    && back.key == e.key && back.kind == e.kind && back.repo == e.repo && back.agent == e.agent
    && back.session == e.session && back.title == e.title && back.content == e.content && back.tags == e.tags
  }

  /** What the trip adds to an event's metadata: the gateway's own entry, and where the event came from. */
  function Travelled(e: Event, workspace: string): Json
    requires 0 <= e.key.id < Uuid.LIMIT
  {
    var fields := FieldsOf(e.metadata)[REPO := RepoEntry(EventToPushBody(e))];
    Object(if e.workspace == workspace then fields else fields[SOURCE := Text(e.workspace)])
  }

  lemma {:induction false} HexHasNoSpace(n: nat, w: nat)
    requires n < Uuid.Power16(w)
    ensures forall i | 0 <= i < w :: !JsSpace(Uuid.Hex(n, w)[i])
  {
    if w > 0 {
      HexHasNoSpace(n / 16, w - 1);
      assert !JsSpace(Uuid.DIGITS[n % 16]);
    }
  }

  lemma IdentifiersAreTrimmed(id: nat)
    requires id < Uuid.LIMIT
    ensures Trim(Uuid.Format(id)) == Uuid.Format(id)
  {
    HexHasNoSpace(id, 32);
    var h := Uuid.Format(id);
    var s := Uuid.Hex(id, 32);
    assert h[0] == s[0] && h[35] == s[31];
  }

  lemma EntryHolds(b: Body)
    ensures TextField(RepoEntry(b), "git_remote") == b.gitRemote
    ensures TextField(RepoEntry(b), "branch") == b.branch
    ensures TextField(RepoEntry(b), "commit") == b.commit
    ensures Field(RepoEntry(b), "dirty") == Some(if b.dirty.Some? then Bool(b.dirty.value) else Null)
  {
    assert |"git_remote"| == 10 && |"branch"| == 6 && "commit"[0] == 'c' && |"dirty"| == 5 && |"dirty_files"| == 11;
  }

  lemma BodyHolds(e: Event)
    requires 0 <= e.key.id < Uuid.LIMIT
    ensures var b := EventToPushBody(e);
            && b.gitRemote == e.repo.gitRemote && b.branch == e.repo.branch && b.commit == e.repo.commit
            && b.dirty == e.repo.dirty
  {
  }

  /** The gateway's own entry holds the repository columns that were sent. */
  lemma RepositoriesTravel(e: Event, workspace: string)
    requires 0 <= e.key.id < Uuid.LIMIT
    ensures var back := Travelled(e, workspace);
            var repo := Field(back, "repo");
            && repo.Some?
            && TextField(repo.value, "git_remote") == e.repo.gitRemote
            && TextField(repo.value, "branch") == e.repo.branch
            && TextField(repo.value, "commit") == e.repo.commit
            && Field(repo.value, "dirty") == Some(if e.repo.dirty.Some? then Bool(e.repo.dirty.value) else Null)
            && (e.workspace != workspace ==> TextField(back, "remote_source_workspace_id") == Some(e.workspace))
            && forall name | name != "repo" && name != "remote_source_workspace_id" ::
                 Field(back, name) == if e.metadata.Object? then Field(e.metadata, name) else None
  {
    assert |"repo"| != |"remote_source_workspace_id"|;
    EntryHolds(EventToPushBody(e));
    BodyHolds(e);
    hide RepoEntry, EventToPushBody;
  }

  lemma MetadataTravels(e: Event, workspace: string)
    requires 0 <= e.key.id < Uuid.LIMIT && Unreserved(e.metadata)
    ensures var b := EventToPushBody(e);
            var sent := b.metadata[REPO := RepoEntry(b)];
            && sent - {LOCAL} == FieldsOf(e.metadata)[REPO := RepoEntry(b)]
            && (if LocalFields(e.repo) == map[] then LOCAL !in sent
                else LOCAL in sent && sent[LOCAL] == Object(LocalFields(e.repo)))
  {
  }

  lemma ColumnsTravel(e: Event, freshId: string, workspace: string, uuid5: string -> int)
    requires 0 <= e.key.id < Uuid.LIMIT && Unreserved(e.metadata)
    requires Accept(EventToPushBody(e), freshId).Ok?
    ensures var back := RemoteToEvent(Accept(EventToPushBody(e), freshId).value, workspace, uuid5);
            && back.key == e.key && back.kind == e.kind && back.repo == e.repo && back.workspace == workspace
            && back.title == e.title && back.content == e.content && back.metadata == Travelled(e, workspace)
            && back.agent == (if Trim(e.agent) == "" then "unknown" else Trim(e.agent))
            && back.session == (if Trim(e.session) == "" then freshId else Trim(e.session))
            && back.tags == SortedDistinct(Cleaned(e.tags))
  {
    IdentifiersAreTrimmed(e.key.id);
    Uuid.ParseFormat(e.key.id);
    MetadataTravels(e, workspace);
    LocalFieldsAreRead(e.repo);
    hide Trim, SortedDistinct, Cleaned, RepoEntry, LocalFields, Uuid.Parse, Uuid.Format;
  }

  /**
   * Pushing and pulling back is the identity up to rehoming, exactly for the events the gateway has nothing to tidy about:
   * the identifier, type, time, content, tags and every repository column come back, and the metadata gains two entries.
   */
  lemma {:induction false} PushThenPull(e: Event, freshId: string, workspace: string, uuid5: string -> int)
    requires 0 <= e.key.id < Uuid.LIMIT && Unreserved(e.metadata) && Trim(freshId) == freshId != ""
    ensures var accepted := Accept(EventToPushBody(e), freshId);
            && (accepted.Ok? && Restores(e, RemoteToEvent(accepted.value, workspace, uuid5)) <==> Canonical(e))
            && (Canonical(e) ==>
                  RemoteToEvent(accepted.value, workspace, uuid5)
                  == e.(workspace := workspace, metadata := Travelled(e, workspace)))
  {
    hide Trim, SortedDistinct, Cleaned, RemoteToEvent, Travelled, Increasing, Tidy, Accept, EventToPushBody, OrElse;
    TagsComeBackIff(e.tags);
    TidyTags(e.tags);
    ContentIsRequired(e, freshId);
    UnknownIsTrimmed();
    DefaultsApplyIff(e.agent, "unknown");
    DefaultsApplyIff(e.session, freshId);
    if Accept(EventToPushBody(e), freshId).Ok? {
      ColumnsTravel(e, freshId, workspace, uuid5);
    }
  }

  lemma ContentIsRequired(e: Event, freshId: string)
    requires 0 <= e.key.id < Uuid.LIMIT
    ensures Accept(EventToPushBody(e), freshId).Ok? <==> Trim(e.content) != ""
  {
  }

  lemma {:induction false} DefaultsApplyIff(text: string, other: string)
    requires Trim(other) == other != ""
    ensures OrElse(Trim(text), other) == text <==> Trim(text) == text != ""
  {
    TrimIsStable(text);
  }

  lemma UnknownIsTrimmed()
    ensures Trim("unknown") == "unknown"
  {
    assert "unknown"[0] == 'u' && "unknown"[6] == 'n';
  }

  lemma TidyTags(tags: seq<string>)
    ensures Tidy(tags) <==> forall i | 0 <= i < |tags| :: Trim(tags[i]) == tags[i] != ""
  {
  }
}
