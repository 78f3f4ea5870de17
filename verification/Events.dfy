/** The event every part of the system stores, exchanges and reads. */
module Events {
  import opened Prelude
  import opened Ordering

  datatype Json =
    | Null
    | Bool(value: bool)
    | Number(number: int)
    | Text(text: string)
    | List(items: seq<Json>)
    | Object(fields: map<string, Json>)

  datatype EventType =
    Message | Memory | Decision | Task | Handoff | Observation | Pattern | Fact | Bug | Artifact | Workflow

  datatype Repo = Repo(id: Option<string>, path: Option<string>, gitRemote: Option<string>, bitId: Option<string>,
                       branch: Option<string>, commit: Option<string>, dirty: Option<bool>)

  datatype Event = Event(key: Key, kind: EventType, workspace: string, repo: Repo, agent: string, session: string,
                         title: Option<string>, content: string, tags: seq<string>, metadata: Json)

  function EventKey(e: Event): Key { e.key }

  /** A field of an object; anything else has none. */
  function Field(metadata: Json, name: string): Option<Json> {
    if metadata.Object? && name in metadata.fields then Some(metadata.fields[name]) else None
  }

  function TextField(metadata: Json, name: string): Option<string> {
    var field := Field(metadata, name);
    if field.Some? && field.value.Text? then Some(field.value.text) else None
  }
}
