/** Tasks and handoffs as views of the event log. */
module Tasks {
  import opened Prelude
  import opened Ordering
  import opened Listing
  import opened Events
  import Uuid

  /** The two views are the same fold over two readings of an event. */
  datatype View = TaskView | HandoffView

  /** Open, claimed and completed; a handoff calls the first two pending and accepted. */
  datatype Status = Open | Claimed | Completed

  datatype Summary = Summary(id: int, status: Status, content: string, createdBy: string, recipient: Option<string>,
                             claimedBy: Option<string>, createdAt: int, updatedAt: int, sources: seq<int>)

  /** What an event does to the item it is about. */
  datatype Effect = Opens(agent: string, recipient: Option<string>) | Claims(agent: string) | Updates | Completes | Ignored

  // ----- Reading an event -----

  /** The first tag with this prefix whose remainder is an identifier. */
  function TagReference(tags: seq<string>, prefix: string): Option<int> {
    if tags == [] then None
    else
      var tag := tags[0];
      var parsed := if prefix <= tag then Uuid.Parse(tag[|prefix|..]) else None;
      if parsed.Some? then Some(parsed.value) else TagReference(tags[1..], prefix)
  }

  function ReferencedId(e: Event, field: string, prefix: string): Option<int> {
    var named := TextField(e.metadata, field);
    var parsed := if named.Some? then Uuid.Parse(named.value) else None;
    if parsed.Some? then Some(parsed.value) else TagReference(e.tags, prefix)
  }

  function Subject(view: View, e: Event): int {
    var id := match view
              case TaskView => ReferencedId(e, "task_id", "task_ref:")
              case HandoffView => ReferencedId(e, "handoff_id", "handoff_ref:");
    if id.Some? then id.value else e.key.id
  }

  function Or(text: Option<string>, other: string): string {
    if text.Some? then text.value else other
  }

  function EffectOf(view: View, e: Event): Effect {
    var action := TextField(e.metadata, "action");
    match view
    case TaskView =>
      if action == Some("claimed") then Claims(Or(TextField(e.metadata, "claimed_by"), e.agent))
      else if action == Some("updated") then Updates
      else if action == Some("completed") then Completes
      else if "task:open" in e.tags then Opens(e.agent, None)
      else if "task:claimed" in e.tags then Claims(e.agent)
      else Ignored
    case HandoffView =>
      if action == Some("accepted") then Claims(Or(TextField(e.metadata, "accepted_by"), e.agent))
      else if action == Some("completed") then Completes
      else
        var to := TextField(e.metadata, "to");
        if to.Some? then Opens(Or(TextField(e.metadata, "from"), e.agent), to) else Ignored
  }

  // ----- Replaying -----

  function Touch(item: Summary, e: Event): Summary {
    item.(updatedAt := e.key.at, sources := item.sources + [e.key.id])
  }

  function Step(view: View, table: map<int, Summary>, e: Event): map<int, Summary> {
    var id := Subject(view, e);
    var known := id in table;
    match EffectOf(view, e)
    case Opens(agent, to) =>
      if known then table
      else table[id := Summary(id, Open, e.content, agent, to, None, e.key.at, e.key.at, [e.key.id])]
    case Claims(agent) =>
      if known then table[id := Touch(table[id].(status := Claimed, claimedBy := Some(agent)), e)] else table
    case Updates =>
      if known then table[id := Touch(table[id].(content := e.content), e)] else table
    case Completes =>
      if known then table[id := Touch(table[id].(status := Completed), e)] else table
    case Ignored => table
  }

  function Fold(view: View, log: seq<Event>): map<int, Summary> {
    if log == [] then map[] else Step(view, Fold(view, log[..|log| - 1]), log[|log| - 1])
  }

  function Project(view: View, events: seq<Event>): map<int, Summary> {
    Fold(view, Sort(events, EventKey))
  }

  /** Sort the events and update the table one event at a time. */
  method ProjectView(view: View, events: seq<Event>) returns (table: map<int, Summary>)
    ensures table == Project(view, events)
  {
    hide EffectOf, Subject;
    var log := Sort(events, EventKey);
    table := map[];
    for i := 0 to |log|
      invariant table == Fold(view, log[..i])
    {
      var e := log[i];
      assert log[..i + 1][..i] == log[..i];
      var id := Subject(view, e);
      var effect := EffectOf(view, e);
      if id in table {
        var item := table[id];
        var touched := true;
        match effect {
          case Claims(agent) => item := item.(status := Claimed, claimedBy := Some(agent));
          case Updates => item := item.(content := e.content);
          case Completes => item := item.(status := Completed);
          case Opens(_, _) => touched := false;
          case Ignored => touched := false;
        }
        if touched {
          item := item.(updatedAt := e.key.at, sources := item.sources + [e.key.id]);
          table := table[id := item];
        }
      } else if effect.Opens? {
        table := table[id := Summary(id, Open, e.content, effect.agent, effect.recipient, None,
                                     e.key.at, e.key.at, [e.key.id])];
      }
    }
    assert log[..|log|] == log;
  }

  /** Latest update first, then smallest identifier. */
  function SummaryKey(item: Summary): Key { Key(-item.updatedAt, item.id) }

  lemma {:induction false} FoldIsKeyed(view: View, log: seq<Event>)
    ensures Keyed(Fold(view, log), SummaryKey)
  {
    if log != [] {
      FoldIsKeyed(view, log[..|log| - 1]);
    }
  }

  /** Latest update first, then smallest identifier; what a limit leaves out comes after all that is shown. */
  ghost predicate ShowsNewest(shown: seq<Summary>, table: map<int, Summary>, limit: Option<nat>) {
    && (forall i, j | 0 <= i < j < |shown| ::
          || shown[i].updatedAt > shown[j].updatedAt
          || (shown[i].updatedAt == shown[j].updatedAt && shown[i].id < shown[j].id))
    && (forall item | item in shown :: item.id in table && table[item.id] == item)
    && (limit.Some? ==> |shown| <= limit.value)
    && forall id | id in table && table[id] !in shown ::
         && limit.Some? && |shown| == limit.value
         && forall item | item in shown ::
              || item.updatedAt > table[id].updatedAt
              || (item.updatedAt == table[id].updatedAt && item.id < table[id].id)
  }

  lemma CutListShowsNewest(all: seq<Summary>, table: map<int, Summary>, limit: Option<nat>)
    requires Lists(all, table, SummaryKey) && Keyed(table, SummaryKey)
    ensures ShowsNewest(if limit.Some? then all[..Min(limit.value, |all|)] else all, table, limit)
  {
    var n := if limit.Some? then Min(limit.value, |all|) else |all|;
    var shown := all[..n];
    assert all[..|all|] == all;
    forall i, j | 0 <= i < j < |all|
      ensures || all[i].updatedAt > all[j].updatedAt
              || (all[i].updatedAt == all[j].updatedAt && all[i].id < all[j].id)
    {
      assert Less(SummaryKey(all[i]), SummaryKey(all[j]));
    }
    forall k | 0 <= k < n ensures all[k] in shown {
      assert shown[k] == all[k];
    }
    forall item | item in shown ensures item.id in table && table[item.id] == item {
      assert item in all && SummaryKey(item).id in table;
    }
    forall id | id in table && table[id] !in shown
      ensures limit.Some? && n == limit.value
      ensures forall item | item in shown ::
                || item.updatedAt > table[id].updatedAt
                || (item.updatedAt == table[id].updatedAt && item.id < table[id].id)
    {
      assert SummaryKey(table[id]).id == id;
      assert table[id] in all;
      var k :| 0 <= k < |all| && all[k] == table[id];
    }
  }

  /** The list that is shown, cut at an optional limit. */
  method Show(view: View, events: seq<Event>, limit: Option<nat>) returns (shown: seq<Summary>)
    ensures exists all :: Lists(all, Project(view, events), SummaryKey)
                          && shown == (if limit.Some? then all[..Min(limit.value, |all|)] else all)
    ensures ShowsNewest(shown, Project(view, events), limit)
  {
    hide ShowsNewest;
    var table := ProjectView(view, events);
    FoldIsKeyed(view, Sort(events, EventKey));
    var all := Listed(table, SummaryKey);
    CutListShowsNewest(all, table, limit);
    shown := if limit.Some? then all[..Min(limit.value, |all|)] else all;
  }

  // ----- What a view says, without replaying -----

  datatype Role = Claiming | Updating | Settling | Touching

  /** The event opens the item with this identifier. */
  predicate OpensItem(view: View, id: int, e: Event) {
    Subject(view, e) == id && EffectOf(view, e).Opens?
  }

  /** The event is about the item, comes after `start`, and has this role. */
  predicate Plays(view: View, id: int, start: Key, role: Role, e: Event) {
    && Subject(view, e) == id && Less(start, e.key)
    && var effect := EffectOf(view, e);
       match role
       case Claiming => effect.Claims?
       case Updating => effect.Updates?
       case Settling => effect.Claims? || effect.Completes?
       case Touching => effect.Claims? || effect.Updates? || effect.Completes?
  }

  ghost predicate First(view: View, events: seq<Event>, id: int, c: Event) {
    c in events && OpensItem(view, id, c) && forall x | x in events && OpensItem(view, id, x) :: AtMost(c.key, x.key)
  }

  ghost predicate Latest(view: View, events: seq<Event>, id: int, start: Key, role: Role, e: Event) {
    && e in events && Plays(view, id, start, role, e)
    && forall x | x in events && Plays(view, id, start, role, x) :: AtMost(x.key, e.key)
  }

  ghost predicate Nobody(view: View, events: seq<Event>, id: int, start: Key, role: Role) {
    forall x | x in events :: !Plays(view, id, start, role, x)
  }

  function Ids(own: seq<Event>): seq<int> {
    seq(|own|, i requires 0 <= i < |own| => own[i].key.id)
  }

  /** The opening event and everything that touched the item since, in key order. */
  ghost predicate Sources(view: View, events: seq<Event>, id: int, c: Event, own: seq<Event>) {
    && StrictlySorted(own, EventKey)
    && forall e :: e in own <==> e in events && (e == c || Plays(view, id, c.key, Touching, e))
  }

  function StatusFrom(view: View): Event -> Status {
    e => if EffectOf(view, e).Claims? then Claimed else Completed
  }

  function OwnerFrom(view: View): Event -> Option<string> {
    e => if EffectOf(view, e).Claims? then Some(EffectOf(view, e).agent) else None
  }

  function ContentOf(e: Event): string { e.content }

  function TimeOf(e: Event): int { e.key.at }

  /** A value written by the last event with this role, and initial until there is one. */
  ghost predicate Written<V>(view: View, events: seq<Event>, id: int, start: Key, role: Role,
                             initial: V, read: Event -> V, value: V) {
    && (Nobody(view, events, id, start, role) ==> value == initial)
    && forall e | Latest(view, events, id, start, role, e) :: value == read(e)
  }

  ghost predicate DescribesFrom(view: View, events: seq<Event>, id: int, c: Event, item: Summary) {
    && EffectOf(view, c).Opens?
    && item.id == id && item.createdAt == c.key.at
    && item.createdBy == EffectOf(view, c).agent && item.recipient == EffectOf(view, c).recipient
    && Written(view, events, id, c.key, Settling, Open, StatusFrom(view), item.status)
    && Written(view, events, id, c.key, Claiming, None, OwnerFrom(view), item.claimedBy)
    && Written(view, events, id, c.key, Updating, c.content, ContentOf, item.content)
    && Written(view, events, id, c.key, Touching, c.key.at, TimeOf, item.updatedAt)
    && exists own :: Sources(view, events, id, c, own) && item.sources == Ids(own)
  }

  /**
   * The last-writer reading of an item: opened by its first opening event, settled by the last claim or completion after
   * it, owned by the last claim, worded by the last update.
   */
  ghost predicate Describes(view: View, events: seq<Event>, id: int, item: Summary) {
    exists c :: First(view, events, id, c) && DescribesFrom(view, events, id, c, item)
  }

  // ----- The fold meets the description -----

  ghost predicate Newest(prev: seq<Event>, e: Event) {
    forall x | x in prev :: Less(x.key, e.key)
  }

  lemma RoleNext(view: View, prev: seq<Event>, e: Event, id: int, start: Key, role: Role)
    requires Newest(prev, e)
    ensures Plays(view, id, start, role, e) ==>
              && !Nobody(view, prev + [e], id, start, role)
              && forall x :: Latest(view, prev + [e], id, start, role, x) <==> x == e
    ensures !Plays(view, id, start, role, e) ==>
              && (Nobody(view, prev + [e], id, start, role) <==> Nobody(view, prev, id, start, role))
              && forall x :: Latest(view, prev + [e], id, start, role, x) <==> Latest(view, prev, id, start, role, x)
  {
    hide Plays;
    assert e in prev + [e];
    assert forall x :: x in prev + [e] <==> x in prev || x == e;
    assert forall x :: x in prev + [e] ==> AtMost(x.key, e.key);
    assert forall x :: x in prev ==> !AtMost(e.key, x.key);
  }

  lemma WrittenNext<V>(view: View, prev: seq<Event>, e: Event, id: int, start: Key, role: Role,
                       initial: V, read: Event -> V, value: V)
    requires Newest(prev, e) && Written(view, prev, id, start, role, initial, read, value)
    ensures Written(view, prev + [e], id, start, role, initial, read,
                    if Plays(view, id, start, role, e) then read(e) else value)
  {
    hide Plays, Latest, Nobody;
    RoleNext(view, prev, e, id, start, role);
  }

  lemma AllWrittenNext(view: View, prev: seq<Event>, e: Event, id: int, c: Event, item: Summary)
    requires Newest(prev, e) && DescribesFrom(view, prev, id, c, item)
    ensures Written(view, prev + [e], id, c.key, Settling, Open, StatusFrom(view),
                    if Plays(view, id, c.key, Settling, e) then StatusFrom(view)(e) else item.status)
    ensures Written(view, prev + [e], id, c.key, Claiming, None, OwnerFrom(view),
                    if Plays(view, id, c.key, Claiming, e) then OwnerFrom(view)(e) else item.claimedBy)
    ensures Written(view, prev + [e], id, c.key, Updating, c.content, ContentOf,
                    if Plays(view, id, c.key, Updating, e) then e.content else item.content)
    ensures Written(view, prev + [e], id, c.key, Touching, c.key.at, TimeOf,
                    if Plays(view, id, c.key, Touching, e) then e.key.at else item.updatedAt)
  {
    hide Plays, Written, Sources, EffectOf, StatusFrom, OwnerFrom;
    WrittenNext(view, prev, e, id, c.key, Settling, Open, StatusFrom(view), item.status);
    WrittenNext(view, prev, e, id, c.key, Claiming, None, OwnerFrom(view), item.claimedBy);
    WrittenNext(view, prev, e, id, c.key, Updating, c.content, ContentOf, item.content);
    WrittenNext(view, prev, e, id, c.key, Touching, c.key.at, TimeOf, item.updatedAt);
  }

  lemma SourcesNext(view: View, prev: seq<Event>, e: Event, id: int, c: Event, own: seq<Event>)
    requires Newest(prev, e) && c in prev && Sources(view, prev, id, c, own)
    ensures Plays(view, id, c.key, Touching, e) ==>
              Sources(view, prev + [e], id, c, own + [e]) && Ids(own + [e]) == Ids(own) + [e.key.id]
    ensures !Plays(view, id, c.key, Touching, e) ==> Sources(view, prev + [e], id, c, own)
  {
    hide Plays;
    assert forall x :: x in prev + [e] <==> x in prev || x == e;
    if Plays(view, id, c.key, Touching, e) {
      forall i | 0 <= i < |own| ensures Less(EventKey(own[i]), EventKey(e)) {
        assert own[i] in own;
      }
      assert forall x :: x in own + [e] <==> x in own || x == e;
    }
  }

  lemma UntouchedStaysDescribed(view: View, prev: seq<Event>, e: Event, id: int, c: Event, item: Summary)
    requires Newest(prev, e) && c in prev && DescribesFrom(view, prev, id, c, item)
    requires !Plays(view, id, c.key, Touching, e)
    ensures DescribesFrom(view, prev + [e], id, c, item)
  {
    assert forall role :: !Plays(view, id, c.key, role, e);
    hide Plays, Written, Sources, EffectOf;
    AllWrittenNext(view, prev, e, id, c, item);
    var own :| Sources(view, prev, id, c, own) && item.sources == Ids(own);
    SourcesNext(view, prev, e, id, c, own);
  }

  /** What a touching event makes of an item. */
  function Touched(view: View, item: Summary, e: Event): Summary {
    match EffectOf(view, e)
    case Claims(agent) => Touch(item.(status := Claimed, claimedBy := Some(agent)), e)
    case Updates => Touch(item.(content := e.content), e)
    case Completes => Touch(item.(status := Completed), e)
    case _ => item
  }

  lemma TouchedIsDescribed(view: View, prev: seq<Event>, e: Event, id: int, c: Event, item: Summary)
    requires Newest(prev, e) && c in prev && DescribesFrom(view, prev, id, c, item)
    requires Plays(view, id, c.key, Touching, e)
    ensures DescribesFrom(view, prev + [e], id, c, Touched(view, item, e))
  {
    var effect := EffectOf(view, e);
    assert Plays(view, id, c.key, Settling, e) <==> effect.Claims? || effect.Completes?;
    assert Plays(view, id, c.key, Claiming, e) <==> effect.Claims?;
    assert Plays(view, id, c.key, Updating, e) <==> effect.Updates?;
    hide Plays, Written, Sources, EffectOf;
    AllWrittenNext(view, prev, e, id, c, item);
    var own :| Sources(view, prev, id, c, own) && item.sources == Ids(own);
    SourcesNext(view, prev, e, id, c, own);
  }

  lemma OpenedIsDescribed(view: View, prev: seq<Event>, e: Event, id: int)
    requires Newest(prev, e) && OpensItem(view, id, e)
    requires forall x | x in prev :: !OpensItem(view, id, x)
    ensures var effect := EffectOf(view, e);
            Describes(view, prev + [e], id,
                      Summary(id, Open, e.content, effect.agent, effect.recipient, None, e.key.at, e.key.at, [e.key.id]))
  {
    var effect := EffectOf(view, e);
    var item := Summary(id, Open, e.content, effect.agent, effect.recipient, None, e.key.at, e.key.at, [e.key.id]);
    assert forall x :: x in prev + [e] <==> x in prev || x == e;
    assert First(view, prev + [e], id, e);
    assert forall role, x :: x in prev + [e] ==> !Plays(view, id, e.key, role, x);
    hide EffectOf, Subject, Plays;
    assert Sources(view, prev + [e], id, e, [e]);
    assert Ids([e]) == [e.key.id];
    assert DescribesFrom(view, prev + [e], id, e, item);
  }

  ghost predicate Opened(view: View, events: seq<Event>, id: int) {
    exists e :: e in events && OpensItem(view, id, e)
  }

  ghost predicate FoldedRight(view: View, log: seq<Event>, id: int) {
    var table := Fold(view, log);
    && (id in table <==> Opened(view, log, id))
    && (id in table ==> Describes(view, log, id, table[id]))
  }

  lemma StepOnKnown(view: View, table: map<int, Summary>, e: Event, id: int)
    requires id in table
    ensures id in Step(view, table, e)
    ensures Step(view, table, e)[id] == if Subject(view, e) == id then Touched(view, table[id], e) else table[id]
  {
    hide EffectOf, Subject;
  }

  lemma StepOnUnknown(view: View, table: map<int, Summary>, e: Event, id: int)
    requires id !in table
    ensures id in Step(view, table, e) <==> OpensItem(view, id, e)
    ensures OpensItem(view, id, e) ==>
              Step(view, table, e)[id] == Summary(id, Open, e.content, EffectOf(view, e).agent, EffectOf(view, e).recipient,
                                                  None, e.key.at, e.key.at, [e.key.id])
  {
    hide EffectOf, Subject;
  }

  /** An event that does not touch an open item leaves it alone. */
  lemma TouchingIsPlaying(view: View, c: Event, item: Summary, e: Event, id: int)
    requires Less(c.key, e.key) && Subject(view, e) == id && !Plays(view, id, c.key, Touching, e)
    ensures Touched(view, item, e) == item
  {
    hide EffectOf, Subject;
  }

  lemma StepIsDescribed(view: View, prev: seq<Event>, e: Event, id: int)
    requires Newest(prev, e) && FoldedRight(view, prev, id)
    ensures FoldedRight(view, prev + [e], id)
  {
    hide EffectOf, Subject, Plays, OpensItem, DescribesFrom, Touched, Step;
    var log := prev + [e];
    assert log[..|log| - 1] == prev;
    assert forall x :: x in log <==> x in prev || x == e;
    assert OpensItem(view, id, e) ==> Opened(view, log, id);
    assert Opened(view, prev, id) ==> Opened(view, log, id);
    var table := Fold(view, prev);
    if id in table {
      StepOnKnown(view, table, e, id);
      KnownIsDescribed(view, prev, e, id, table[id]);
    } else {
      StepOnUnknown(view, table, e, id);
      if OpensItem(view, id, e) {
        OpenedIsDescribed(view, prev, e, id);
      }
    }
  }

  lemma KnownIsDescribed(view: View, prev: seq<Event>, e: Event, id: int, item: Summary)
    requires Newest(prev, e) && Describes(view, prev, id, item)
    ensures Describes(view, prev + [e], id, if Subject(view, e) == id then Touched(view, item, e) else item)
  {
    var log := prev + [e];
    assert forall x :: x in log <==> x in prev || x == e;
    var c :| First(view, prev, id, c) && DescribesFrom(view, prev, id, c, item);
    assert First(view, log, id, c);
    assert Subject(view, e) != id ==> !Plays(view, id, c.key, Touching, e);
    if Plays(view, id, c.key, Touching, e) {
      assert Subject(view, e) == id;
      hide EffectOf, Subject, Plays, OpensItem, DescribesFrom, Touched;
      TouchedIsDescribed(view, prev, e, id, c, item);
    } else {
      hide EffectOf, Subject, Plays, OpensItem, DescribesFrom, Touched;
      UntouchedStaysDescribed(view, prev, e, id, c, item);
      if Subject(view, e) == id {
        TouchingIsPlaying(view, c, item, e, id);
      }
    }
  }

  lemma {:induction false} FoldIsDescribed(view: View, log: seq<Event>, id: int)
    requires StrictlySorted(log, EventKey)
    ensures FoldedRight(view, log, id)
  {
    hide FoldedRight;
    if log == [] {
      NothingIsFolded(view, id);
    } else {
      var n := |log| - 1;
      FoldIsDescribed(view, log[..n], id);
      forall x | x in log[..n] ensures Less(x.key, log[n].key) {
        var i :| 0 <= i < n && log[i] == x;
        assert Less(EventKey(log[i]), EventKey(log[n]));
      }
      StepIsDescribed(view, log[..n], log[n], id);
      assert log[..n] + [log[n]] == log;
    }
  }

  lemma NothingIsFolded(view: View, id: int)
    ensures FoldedRight(view, [], id)
  {
  }

  /** A description only depends on which events there are. */
  lemma DescribesIgnoresOrder(view: View, xs: seq<Event>, ys: seq<Event>, id: int, item: Summary)
    requires SameElements(xs, ys) && Describes(view, xs, id, item)
    ensures Describes(view, ys, id, item)
  {
    hide EffectOf, Subject, Plays, OpensItem;
    var c :| First(view, xs, id, c) && DescribesFrom(view, xs, id, c, item);
    assert First(view, ys, id, c);
    assert forall role :: Nobody(view, ys, id, c.key, role) <==> Nobody(view, xs, id, c.key, role);
    forall role, e ensures Latest(view, ys, id, c.key, role, e) <==> Latest(view, xs, id, c.key, role, e) {
    }
    var own :| Sources(view, xs, id, c, own) && item.sources == Ids(own);
    assert Sources(view, ys, id, c, own);
    hide Latest, Nobody, Sources, StatusFrom, OwnerFrom;
  }

  /** Whatever order the events come in, each item is what the last writers made of it. */
  lemma ViewIsLastWriterWins(view: View, events: seq<Event>, id: int)
    requires DistinctKeys(events, EventKey)
    ensures id in Project(view, events) <==> Opened(view, events, id)
    ensures id in Project(view, events) ==> Describes(view, events, id, Project(view, events)[id])
  {
    hide Describes, OpensItem;
    var log := Sort(events, EventKey);
    SortSorted(events, EventKey);
    SortElements(events, EventKey);
    FoldIsDescribed(view, log, id);
    forall x ensures x in log <==> x in events {
      assert x in log <==> x in multiset(log);
    }
    if id in Project(view, events) {
      DescribesIgnoresOrder(view, log, events, id, Project(view, events)[id]);
    }
  }

  // ----- The description leaves nothing open -----

  lemma {:induction false} SomebodyIsLatest(view: View, events: seq<Event>, id: int, start: Key, role: Role)
    ensures Nobody(view, events, id, start, role) || exists e :: Latest(view, events, id, start, role, e)
  {
    hide Plays;
    if events != [] {
      var n := |events| - 1;
      var x := events[n];
      SomebodyIsLatest(view, events[..n], id, start, role);
      assert forall y :: y in events <==> y in events[..n] || y == x;
      if Nobody(view, events[..n], id, start, role) {
        assert Plays(view, id, start, role, x) ==> Latest(view, events, id, start, role, x);
      } else {
        var e :| Latest(view, events[..n], id, start, role, e);
        if Plays(view, id, start, role, x) && Less(e.key, x.key) {
          assert Latest(view, events, id, start, role, x);
        } else {
          assert Latest(view, events, id, start, role, e);
        }
      }
    }
  }

  lemma WrittenOnce<V>(view: View, events: seq<Event>, id: int, start: Key, role: Role,
                       initial: V, read: Event -> V, a: V, b: V)
    requires Written(view, events, id, start, role, initial, read, a)
    requires Written(view, events, id, start, role, initial, read, b)
    ensures a == b
  {
    SomebodyIsLatest(view, events, id, start, role);
  }

  /** No two different items fit the description. */
  lemma DescriptionIsUnique(view: View, events: seq<Event>, id: int, a: Summary, b: Summary)
    requires DistinctKeys(events, EventKey)
    requires Describes(view, events, id, a) && Describes(view, events, id, b)
    ensures a == b
  {
    hide EffectOf, OpensItem, Plays, Written, Sources;
    var c :| First(view, events, id, c) && DescribesFrom(view, events, id, c, a);
    var d :| First(view, events, id, d) && DescribesFrom(view, events, id, d, b);
    KeyIdentifies(events, c, d, EventKey);
    WrittenOnce(view, events, id, c.key, Settling, Open, StatusFrom(view), a.status, b.status);
    WrittenOnce(view, events, id, c.key, Claiming, None, OwnerFrom(view), a.claimedBy, b.claimedBy);
    WrittenOnce(view, events, id, c.key, Updating, c.content, ContentOf, a.content, b.content);
    WrittenOnce(view, events, id, c.key, Touching, c.key.at, TimeOf, a.updatedAt, b.updatedAt);
    var xs :| Sources(view, events, id, c, xs) && a.sources == Ids(xs);
    var ys :| Sources(view, events, id, c, ys) && b.sources == Ids(ys);
    SourcesAreUnique(view, events, id, c, xs, ys);
  }

  lemma SourcesAreUnique(view: View, events: seq<Event>, id: int, c: Event, xs: seq<Event>, ys: seq<Event>)
    requires Sources(view, events, id, c, xs) && Sources(view, events, id, c, ys)
    ensures xs == ys
  {
    hide Plays;
    SortedIsUnique(xs, ys, EventKey);
  }

  ghost predicate DistinctIds(events: seq<Event>) {
    forall x, y | x in events && y in events && x.key.id == y.key.id :: x == y
  }

  /** Every event counts for one item at most, and no item was updated before it was created. */
  lemma ItemsAreConsistent(view: View, events: seq<Event>, i: int, j: int)
    requires DistinctKeys(events, EventKey) && DistinctIds(events)
    requires i in Project(view, events) && j in Project(view, events)
    ensures var table := Project(view, events);
            && table[i].createdAt <= table[i].updatedAt
            && (i != j ==> forall id :: id in table[i].sources ==> id !in table[j].sources)
  {
    hide EffectOf, Subject, Written;
    var table := Project(view, events);
    ViewIsLastWriterWins(view, events, i);
    ViewIsLastWriterWins(view, events, j);
    var c :| First(view, events, i, c) && DescribesFrom(view, events, i, c, table[i]);
    var d :| First(view, events, j, d) && DescribesFrom(view, events, j, d, table[j]);
    UpdatedAfterCreated(view, events, i, c, table[i].updatedAt);
    var xs :| Sources(view, events, i, c, xs) && table[i].sources == Ids(xs);
    var ys :| Sources(view, events, j, d, ys) && table[j].sources == Ids(ys);
    SourcesAreAbout(view, events, i, c, xs);
    SourcesAreAbout(view, events, j, d, ys);
    if i != j {
      forall a: Event, b: Event | a in xs && b in ys ensures a.key.id != b.key.id {
        assert Subject(view, a) != Subject(view, b);
      }
    }
  }

  lemma UpdatedAfterCreated(view: View, events: seq<Event>, id: int, c: Event, at: int)
    requires Written(view, events, id, c.key, Touching, c.key.at, TimeOf, at)
    ensures c.key.at <= at
  {
    SomebodyIsLatest(view, events, id, c.key, Touching);
  }

  lemma SourcesAreAbout(view: View, events: seq<Event>, id: int, c: Event, own: seq<Event>)
    requires Sources(view, events, id, c, own) && First(view, events, id, c)
    ensures forall n :: n in Ids(own) ==> exists e :: e in own && e.key.id == n
    ensures forall e :: e in own ==> e in events && Subject(view, e) == id
  {
    forall n | n in Ids(own) ensures exists e :: e in own && e.key.id == n {
      var k :| 0 <= k < |own| && own[k].key.id == n;
      assert own[k] in own;
    }
  }

  /** Only the set of events matters, and a newest event is one step on what was there. */
  lemma ViewsAreOrderFree(view: View, xs: seq<Event>, ys: seq<Event>, e: Event)
    requires DistinctKeys(xs, EventKey) && multiset(xs) == multiset(ys)
    ensures Project(view, xs) == Project(view, ys)
    ensures Newest(xs, e) ==> Project(view, xs + [e]) == Step(view, Project(view, ys), e)
  {
    hide Step, EffectOf, Subject, Sort;
    SortIgnoresArrivalOrder(xs, ys, EventKey);
    if Newest(xs, e) {
      SortAppendsTheNewest(xs, e, EventKey);
      var sorted := Sort(xs, EventKey);
      assert (sorted + [e])[..|sorted + [e]| - 1] == sorted;
    }
  }

  function FieldOf(view: View): string {
    match view case TaskView => "task_id" case HandoffView => "handoff_id"
  }

  function PrefixOf(view: View): string {
    match view case TaskView => "task_ref:" case HandoffView => "handoff_ref:"
  }

  /** A metadata field that is there and holds an identifier. */
  predicate Names(view: View, e: Event) {
    TextField(e.metadata, FieldOf(view)).Some? && Uuid.Parse(TextField(e.metadata, FieldOf(view)).value).Some?
  }

  /** A tag that refers to an item. */
  predicate Refers(prefix: string, tag: string) {
    prefix <= tag && Uuid.Parse(tag[|prefix|..]).Some?
  }

  /**
   * An event is about the item its metadata names; failing that, whether the field is missing or unreadable, about the one
   * its first referring tag names, whatever comes before that tag; failing that, about itself.
   */
  lemma ReferencesAreRead(view: View, e: Event, id: nat, k: nat)
    requires id < Uuid.LIMIT
    ensures TextField(e.metadata, FieldOf(view)) == Some(Uuid.Format(id)) ==> Subject(view, e) == id
    ensures && !Names(view, e) && k < |e.tags| && e.tags[k] == PrefixOf(view) + Uuid.Format(id)
            && (forall i | 0 <= i < k :: !Refers(PrefixOf(view), e.tags[i]))
            ==> Subject(view, e) == id
    ensures !Names(view, e) && (forall i | 0 <= i < |e.tags| :: !Refers(PrefixOf(view), e.tags[i]))
            ==> Subject(view, e) == e.key.id
  {
    hide Uuid.Parse, Uuid.Format;
    Uuid.ParseFormat(id);
    if k < |e.tags| && e.tags[k] == PrefixOf(view) + Uuid.Format(id)
       && forall i | 0 <= i < k :: !Refers(PrefixOf(view), e.tags[i]) {
      TagIsRead(e.tags, PrefixOf(view), id, k);
    }
    if forall i | 0 <= i < |e.tags| :: !Refers(PrefixOf(view), e.tags[i]) {
      NothingIsRead(e.tags, PrefixOf(view));
    }
  }

  lemma {:induction false} TagIsRead(tags: seq<string>, prefix: string, id: nat, k: nat)
    requires id < Uuid.LIMIT && k < |tags| && tags[k] == prefix + Uuid.Format(id)
    requires forall i | 0 <= i < k :: !Refers(prefix, tags[i])
    ensures TagReference(tags, prefix) == Some(id)
  {
    hide Uuid.Parse, Uuid.Format;
    Uuid.ParseFormat(id);
    if k == 0 {
      assert tags[0][|prefix|..] == Uuid.Format(id);
    } else {
      assert !Refers(prefix, tags[0]);
      TagIsRead(tags[1..], prefix, id, k - 1);
    }
  }

  lemma {:induction false} NothingIsRead(tags: seq<string>, prefix: string)
    requires forall i | 0 <= i < |tags| :: !Refers(prefix, tags[i])
    ensures TagReference(tags, prefix).None?
  {
    hide Uuid.Parse;
    if tags != [] {
      assert !Refers(prefix, tags[0]);
      NothingIsRead(tags[1..], prefix);
    }
  }

  /** Which events do what to a task: by their action, or failing a known one by their tags. */
  lemma TaskEffectsAreRead(e: Event)
    ensures var action := TextField(e.metadata, "action");
            var known := action in {Some("claimed"), Some("updated"), Some("completed")};
            var claimer := TextField(e.metadata, "claimed_by");
            var effect := EffectOf(TaskView, e);
            && (effect.Updates? <==> action == Some("updated")) && (effect.Completes? <==> action == Some("completed"))
            && (effect.Opens? <==> !known && "task:open" in e.tags)
            && (effect.Claims? <==> action == Some("claimed")
                                    || (!known && "task:open" !in e.tags && "task:claimed" in e.tags))
            && (effect.Opens? ==> effect.agent == e.agent && effect.recipient.None?)
            && (effect.Claims? ==>
                  effect.agent == if action == Some("claimed") && claimer.Some? then claimer.value else e.agent)
  {
    hide TextField;
  }

  /** Which events do what to a handoff: by their action, or failing a known one by naming a recipient. */
  lemma HandoffEffectsAreRead(e: Event)
    ensures var action := TextField(e.metadata, "action");
            var known := action in {Some("accepted"), Some("completed")};
            var to, from, accepter := TextField(e.metadata, "to"), TextField(e.metadata, "from"),
                                      TextField(e.metadata, "accepted_by");
            var effect := EffectOf(HandoffView, e);
            && !effect.Updates? && (effect.Completes? <==> action == Some("completed"))
            && (effect.Claims? <==> action == Some("accepted"))
            && (effect.Opens? <==> !known && to.Some?)
            && (effect.Opens? ==>
                  effect.recipient == to && effect.agent == if from.Some? then from.value else e.agent)
            && (effect.Claims? ==> effect.agent == if accepter.Some? then accepter.value else e.agent)
  {
    hide TextField;
  }

  // ----- The events that commands write -----

  const NO_REPO := Repo(None, None, None, None, None, None, None)

  function NewEvent(key: Key, kind: EventType, workspace: string, agent: string, session: string, title: string,
                    content: string, tags: seq<string>, fields: map<string, string>): Event {
    Event(key, kind, workspace, NO_REPO, agent, session, Some(title), content, tags,
          Object(map name | name in fields :: Text(fields[name])))
  }

  function NewTask(key: Key, workspace: string, agent: string, session: string, content: string): Event {
    NewEvent(key, Task, workspace, agent, session, "task", content, ["task:open"],
             map["action" := "created", "status" := "open"])
  }

  function NewClaim(key: Key, workspace: string, agent: string, session: string, task: nat): Event
    requires task < Uuid.LIMIT
  {
    var id := Uuid.Format(task);
    NewEvent(key, Task, workspace, agent, session, "task claim", "claimed task " + id,
             ["task:claimed", "claimed_by:" + agent, "task_ref:" + id],
             map["action" := "claimed", "status" := "claimed", "task_id" := id, "claimed_by" := agent])
  }

  function NewTaskUpdate(key: Key, workspace: string, agent: string, session: string, task: nat, content: string): Event
    requires task < Uuid.LIMIT
  {
    var id := Uuid.Format(task);
    NewEvent(key, Task, workspace, agent, session, "task update", content, ["task_ref:" + id],
             map["action" := "updated", "task_id" := id])
  }

  function NewTaskDone(key: Key, workspace: string, agent: string, session: string, task: nat): Event
    requires task < Uuid.LIMIT
  {
    var id := Uuid.Format(task);
    NewEvent(key, Task, workspace, agent, session, "task completed", "completed task " + id,
             ["task:done", "task_ref:" + id], map["action" := "completed", "status" := "completed", "task_id" := id])
  }

  function NewHandoff(key: Key, workspace: string, agent: string, session: string, to: string, content: string): Event {
    NewEvent(key, Handoff, workspace, agent, session, "handoff", content, ["handoff:pending"],
             map["action" := "requested", "status" := "pending", "from" := agent, "to" := to])
  }

  function NewHandoffAccept(key: Key, workspace: string, agent: string, session: string, handoff: nat): Event
    requires handoff < Uuid.LIMIT
  {
    var id := Uuid.Format(handoff);
    NewEvent(key, Handoff, workspace, agent, session, "handoff accepted", "accepted handoff " + id,
             ["handoff:accepted", "handoff_ref:" + id, "claimed_by:" + agent],
             map["action" := "accepted", "status" := "accepted", "handoff_id" := id, "accepted_by" := agent])
  }

  function NewHandoffDone(key: Key, workspace: string, agent: string, session: string, handoff: nat): Event
    requires handoff < Uuid.LIMIT
  {
    var id := Uuid.Format(handoff);
    NewEvent(key, Handoff, workspace, agent, session, "handoff completed", "completed handoff " + id,
             ["handoff:done", "handoff_ref:" + id],
             map["action" := "completed", "status" := "completed", "handoff_id" := id])
  }

  /** Filed under its writer, in its workspace, and with these words. */
  ghost predicate FiledAs(e: Event, key: Key, kind: EventType, workspace: string, agent: string, session: string) {
    && e.key == key && e.kind == kind && e.workspace == workspace && e.agent == agent && e.session == session
    && e.repo == Repo(None, None, None, None, None, None, None) && e.metadata.Object?
  }

  /** What commands write goes into the caller's workspace under the caller's name, so the caller's lists show it. */
  lemma CommandsFileTheirEvents(key: Key, workspace: string, agent: string, session: string, id: nat, to: string,
                                content: string)
    requires id < Uuid.LIMIT
    ensures FiledAs(NewTask(key, workspace, agent, session, content), key, Task, workspace, agent, session)
    ensures FiledAs(NewClaim(key, workspace, agent, session, id), key, Task, workspace, agent, session)
    ensures FiledAs(NewTaskUpdate(key, workspace, agent, session, id, content), key, Task, workspace, agent, session)
    ensures FiledAs(NewTaskDone(key, workspace, agent, session, id), key, Task, workspace, agent, session)
    ensures FiledAs(NewHandoff(key, workspace, agent, session, to, content), key, Handoff, workspace, agent, session)
    ensures FiledAs(NewHandoffAccept(key, workspace, agent, session, id), key, Handoff, workspace, agent, session)
    ensures FiledAs(NewHandoffDone(key, workspace, agent, session, id), key, Handoff, workspace, agent, session)
    ensures NewTask(key, workspace, agent, session, content).content == content
    ensures NewHandoff(key, workspace, agent, session, to, content).content == content
  {
    hide Uuid.Format;
  }

  /** The words and tags under which a search finds what commands write. */
  lemma CommandsTagTheirEvents(key: Key, workspace: string, agent: string, session: string, id: nat, to: string,
                               content: string)
    requires id < Uuid.LIMIT
    ensures var e := NewClaim(key, workspace, agent, session, id);
            && e.content == "claimed task " + Uuid.Format(id)
            && e.tags == ["task:claimed", "claimed_by:" + agent, "task_ref:" + Uuid.Format(id)]
    ensures NewTaskUpdate(key, workspace, agent, session, id, content).tags == ["task_ref:" + Uuid.Format(id)]
    ensures var e := NewTaskDone(key, workspace, agent, session, id);
            && e.content == "completed task " + Uuid.Format(id)
            && e.tags == ["task:done", "task_ref:" + Uuid.Format(id)]
    ensures var e := NewHandoff(key, workspace, agent, session, to, content);
            && e.tags == ["handoff:pending"] && TextField(e.metadata, "to") == Some(to)
            && TextField(e.metadata, "from") == Some(agent)
    ensures var e := NewHandoffAccept(key, workspace, agent, session, id);
            && e.content == "accepted handoff " + Uuid.Format(id)
            && e.tags == ["handoff:accepted", "handoff_ref:" + Uuid.Format(id), "claimed_by:" + agent]
    ensures var e := NewHandoffDone(key, workspace, agent, session, id);
            && e.content == "completed handoff " + Uuid.Format(id)
            && e.tags == ["handoff:done", "handoff_ref:" + Uuid.Format(id)]
  {
    hide Uuid.Format, TextField;
    var fields := map["action" := "requested", "status" := "pending", "from" := agent, "to" := to];
    FieldsAreRead(fields, "to");
    FieldsAreRead(fields, "from");
  }

  lemma FieldsAreRead(fields: map<string, string>, name: string)
    ensures TextField(Object(map n | n in fields :: Text(fields[n])), name)
         == if name in fields then Some(fields[name]) else None
  {
  }

  lemma {:induction false} NoReference(tag: string, prefix: string, i: nat)
    requires i < |tag| && i < |prefix| && tag[i] != prefix[i]
    ensures TagReference([tag], prefix) == None
  {
    assert [tag][1..] == [];
  }

  /** A new task opens itself for its writer. */
  lemma NewTasksOpenThemselves(key: Key, workspace: string, agent: string, session: string, content: string)
    ensures var e := NewTask(key, workspace, agent, session, content);
            OpensItem(TaskView, key.id, e) && EffectOf(TaskView, e) == Opens(agent, None)
  {
    var e := NewTask(key, workspace, agent, session, content);
    var fields := map["action" := "created", "status" := "open"];
    FieldsAreRead(fields, "action");
    FieldsAreRead(fields, "task_id");
    NoReference("task:open", "task_ref:", 4);
    hide TextField, TagReference;
    assert Subject(TaskView, e) == key.id;
  }

  /** A new handoff opens itself for its writer and its recipient. */
  lemma NewHandoffsOpenThemselves(key: Key, workspace: string, agent: string, session: string, to: string, content: string)
    ensures var e := NewHandoff(key, workspace, agent, session, to, content);
            OpensItem(HandoffView, key.id, e) && EffectOf(HandoffView, e) == Opens(agent, Some(to))
  {
    var e := NewHandoff(key, workspace, agent, session, to, content);
    var fields := map["action" := "requested", "status" := "pending", "from" := agent, "to" := to];
    FieldsAreRead(fields, "action");
    FieldsAreRead(fields, "to");
    FieldsAreRead(fields, "from");
    FieldsAreRead(fields, "handoff_id");
    NoReference("handoff:pending", "handoff_ref:", 7);
    hide TextField, TagReference;
    assert Subject(HandoffView, e) == key.id;
  }

  /** What commands write about a task is read as just that. */
  lemma TaskEventsTouchTheirTask(key: Key, workspace: string, agent: string, session: string, id: nat, content: string)
    requires id < Uuid.LIMIT
    ensures var e := NewClaim(key, workspace, agent, session, id);
            Subject(TaskView, e) == id && EffectOf(TaskView, e) == Claims(agent)
    ensures var e := NewTaskUpdate(key, workspace, agent, session, id, content);
            Subject(TaskView, e) == id && EffectOf(TaskView, e) == Updates && e.content == content
    ensures var e := NewTaskDone(key, workspace, agent, session, id);
            Subject(TaskView, e) == id && EffectOf(TaskView, e) == Completes
  {
    hide Uuid.Parse, Uuid.Format, TagReference, TextField;
    Uuid.ParseFormat(id);
    var task := Uuid.Format(id);
    var claim := map["action" := "claimed", "status" := "claimed", "task_id" := task, "claimed_by" := agent];
    FieldsAreRead(claim, "action");
    FieldsAreRead(claim, "task_id");
    FieldsAreRead(claim, "claimed_by");
    var update := map["action" := "updated", "task_id" := task];
    FieldsAreRead(update, "action");
    FieldsAreRead(update, "task_id");
    var done := map["action" := "completed", "status" := "completed", "task_id" := task];
    FieldsAreRead(done, "action");
    FieldsAreRead(done, "task_id");
  }

  /** What commands write about a handoff is read as just that. */
  lemma HandoffEventsTouchTheirHandoff(key: Key, workspace: string, agent: string, session: string, id: nat)
    requires id < Uuid.LIMIT
    ensures var e := NewHandoffAccept(key, workspace, agent, session, id);
            Subject(HandoffView, e) == id && EffectOf(HandoffView, e) == Claims(agent)
    ensures var e := NewHandoffDone(key, workspace, agent, session, id);
            Subject(HandoffView, e) == id && EffectOf(HandoffView, e) == Completes
  {
    hide Uuid.Parse, Uuid.Format, TagReference, TextField;
    Uuid.ParseFormat(id);
    var handoff := Uuid.Format(id);
    var accept := map["action" := "accepted", "status" := "accepted", "handoff_id" := handoff, "accepted_by" := agent];
    FieldsAreRead(accept, "action");
    FieldsAreRead(accept, "handoff_id");
    FieldsAreRead(accept, "accepted_by");
    var done := map["action" := "completed", "status" := "completed", "handoff_id" := handoff];
    FieldsAreRead(done, "action");
    FieldsAreRead(done, "handoff_id");
  }
}
