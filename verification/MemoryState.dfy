/** The memory engine as a state machine: what `add`, `update`, `delete` and
    `delete_all` of the synchronous `Memory` class do to the vector store, the
    entity index and the history log when no service fails. */
module MemoryState {
  import opened Wrappers
  import opened Stores
  import opened EntityIndex
  import opened BatchLinking

  /** A row of the vector store. */
  datatype Row = Row(vector: Vector, payload: Payload)

  datatype EventKind = Added | Updated | Deleted

  /** A row of the history table, in insertion order. */
  datatype Event = Event(
    memoryId: Id, oldMemory: Option<string>, newMemory: Option<string>, kind: EventKind,
    createdAt: Option<string>, updatedAt: Option<string>, isDeleted: bool,
    actorId: Option<string>, role: Option<string>)

  datatype State = State(rows: map<Id, Row>, index: Index, log: seq<Event>)

  const Empty := State(map[], Index(map[], 0, false), [])

  function Get(p: Payload, k: Key): Option<string> { if k in p then Some(p[k]) else None }

  // ---------- building payloads ----------

  /** A fresh payload: the caller's metadata overlaid with what the engine owns. */
  function NewPayload(b: Backend, metadata: Payload, data: string, now: string): Payload {
    var created := if CreatedAt in metadata then metadata[CreatedAt] else now;
    metadata[Data := data][Hash := b.md5(data)][TextLemmatized := b.lemmatize(data)]
            [CreatedAt := created][UpdatedAt := created]
  }

  /** The payload after `_update_memory`; creation time and any actor are kept. */
  function UpdatedPayload(b: Backend, payload: Payload, metadata: Payload, data: string, now: string): Payload {
    var merged := (payload + metadata)[Data := data][Hash := b.md5(data)][TextLemmatized := b.lemmatize(data)];
    var created := if CreatedAt in payload then merged[CreatedAt := payload[CreatedAt]] else merged - {CreatedAt};
    var stamped := created[UpdatedAt := now];
    if ActorId in payload then stamped[ActorId := payload[ActorId]] else stamped
  }

  /** An item of the extraction response; absent fields are empty strings. */
  datatype Extracted = Extracted(text: string, attributedTo: string, rawContent: string, memoryType: string)

  function PutTruthy(p: Payload, k: Key, v: string): Payload { if v == "" then p else p[k := v] }

  function ExtractedPayload(b: Backend, metadata: Payload, mem: Extracted, now: string): Payload {
    var p := PutTruthy(NewPayload(b, metadata, mem.text, now), AttributedTo, mem.attributedTo);
    var q := if mem.rawContent == "" then p else p[RawContent := mem.rawContent][HasTechnicalContent := "True"];
    PutTruthy(q, MemoryType, mem.memoryType)
  }

  // ---------- Phases 4-5: one record per new hash ----------

  datatype Record = Record(id: Id, text: string, vector: Vector, payload: Payload)

  function BuildRecords(b: Backend, mems: seq<Extracted>, embedMap: map<string, Vector>, existing: set<string>,
        seen: set<string>, metadata: Payload, now: string, next: Id): (r: seq<Record>)
    ensures |r| <= |mems|
    ensures forall i :: 0 <= i < |r| ==> r[i].id == next + i
    decreases |mems|
  {
    if mems == [] then [] else
    var mem := mems[0];
    var h := b.md5(mem.text);
    if mem.text == "" || mem.text !in embedMap || h in existing || h in seen
    then BuildRecords(b, mems[1..], embedMap, existing, seen, metadata, now, next)
    else [Record(next, mem.text, embedMap[mem.text], ExtractedPayload(b, metadata, mem, now))]
         + BuildRecords(b, mems[1..], embedMap, existing, seen + {h}, metadata, now, next + 1)
  }

  /** A chat message as the caller passes it. */
  datatype Message = Message(role: Option<string>, content: Option<string>, name: string)

  /** One raw message that survived validation, with its clock reading. */
  datatype RawMessage = RawMessage(content: string, role: string, name: string, now: string)

  /** Messages without role or content, and system messages, are skipped. */
  function Usable(messages: seq<Message>, now: string): seq<RawMessage>
    decreases |messages|
  {
    if messages == [] then [] else
    var m, rest := messages[0], Usable(messages[1..], now);
    if m.role.None? || m.content.None? || m.role.value == "system" then rest
    else [RawMessage(m.content.value, m.role.value, m.name, now)] + rest
  }

  function RawPayload(b: Backend, metadata: Payload, msg: RawMessage): Payload {
    NewPayload(b, PutTruthy(metadata[Role := msg.role], ActorId, msg.name), msg.content, msg.now)
  }

  function RawRecords(b: Backend, msgs: seq<RawMessage>, metadata: Payload, next: Id): (r: seq<Record>)
    ensures |r| == |msgs|
    ensures forall i :: 0 <= i < |r| ==> r[i].id == next + i
  {
    seq(|msgs|, i requires 0 <= i < |msgs| => RawRecord(b, msgs[i], metadata, next + i))
  }

  function RawRecord(b: Backend, msg: RawMessage, metadata: Payload, id: Id): Record {
    Record(id, msg.content, Embed(b, msg.content), RawPayload(b, metadata, msg))
  }

  // ---------- Phase 6: batch persist ----------

  function AddEvent(r: Record): Event {
    Event(r.id, None, Some(r.text), Added, Get(r.payload, CreatedAt), None, false, None, None)
  }

  function PersistOne(s: State, r: Record): State {
    State(s.rows[r.id := Row(r.vector, r.payload)], s.index.(next := s.index.next + 1), s.log + [AddEvent(r)])
  }

  function Persist(s: State, records: seq<Record>): State
    decreases |records|
  {
    if records == [] then s else Persist(PersistOne(s, records[0]), records[1..])
  }

  function OccurrencesIn(mentions: seq<Mention>, m: Id): (r: seq<Occurrence>)
    ensures |r| == |mentions|
  {
    seq(|mentions|, i requires 0 <= i < |mentions| => Occurrence(mentions[i], m))
  }

  /** Every entity of every record, in order. */
  function Occurrences(b: Backend, records: seq<Record>): seq<Occurrence>
    decreases |records|
  {
    if records == [] then []
    else OccurrencesIn(b.extract(records[0].text), records[0].id) + Occurrences(b, records[1..])
  }

  // ---------- the operations ----------

  /** What the environment supplies to one call: arguments (`ids` are the session
      ids and project given as keyword arguments, already trimmed), clock
      readings, and the answers of the model and of the vector store. */
  datatype Op =
    | AddInferred(ids: Filter, metadata: Payload, extracted: seq<Extracted>, recalled: set<Id>, now: string)
    | AddRaw(ids: Filter, metadata: Payload, messages: seq<RawMessage>)
    | AddProcedural(ids: Filter, metadata: Payload, summary: string, now: string)
    | Update(id: Id, data: string, newMetadata: Payload, now: string)
    | Delete(id: Id, now: string)
    | DeleteAll(filters: Filter, listed: seq<Id>, now: string)

  /** `_build_filters_and_metadata` accepts ids that are present, known and name a session. */
  predicate ValidIds(ids: Filter) {
    && (forall k | k in ids :: k in SCOPE_KEYS && ids[k] != "")
    && exists k | k in SESSION_KEYS :: k in ids
  }

  function EmbedMap(b: Backend, mems: seq<Extracted>): map<string, Vector> {
    map i | 0 <= i < |mems| && mems[i].text != "" :: mems[i].text := Embed(b, mems[i].text)
  }

  /** The truthy hashes of the memories recalled in Phase 1. */
  function RecalledHashes(s: State, recalled: set<Id>): set<string> {
    set id | id in recalled && id in s.rows && Hash in s.rows[id].payload && s.rows[id].payload[Hash] != "" ::
      s.rows[id].payload[Hash]
  }

  function AddRecords(b: Backend, s: State, filters: Filter, records: seq<Record>): State {
    var t := Persist(s, records);
    t.(index := LinkBatch(b, t.index, Occurrences(b, records), filters))
  }

  function NewRecords(b: Backend, s: State, metadata: Payload, extracted: seq<Extracted>, recalled: set<Id>,
        now: string): seq<Record> {
    BuildRecords(b, extracted, EmbedMap(b, extracted), RecalledHashes(s, recalled), {}, metadata, now, s.index.next)
  }

  function CreateMemory(b: Backend, s: State, metadata: Payload, data: string, now: string): State {
    var p := NewPayload(b, metadata, data, now);
    var id := s.index.next;
    State(s.rows[id := Row(Embed(b, data), p)], s.index.(next := id + 1),
          s.log + [Event(id, None, Some(data), Added, Get(p, CreatedAt), Get(p, UpdatedAt), false, Get(p, ActorId),
            Get(p, Role))])
  }

  function UpdateMemory(b: Backend, s: State, id: Id, data: string, metadata: Payload, now: string): State
    requires id in s.rows
  {
    var old' := s.rows[id].payload;
    var p := UpdatedPayload(b, old', metadata, data, now);
    var session := SessionFilters(p);
    State(s.rows[id := Row(Embed(b, data), p)],
          LinkAll(b, Strip(b, s.index, id, session), b.extract(data), {}, id, session),
          s.log + [Event(id, Get(old', Data), Some(data), Updated, Get(p, CreatedAt), Some(now), false,
            Get(p, ActorId), Get(p, Role))])
  }

  function DeleteMemory(b: Backend, s: State, id: Id, now: string): State
    requires id in s.rows
  {
    var p := s.rows[id].payload;
    var created := match Get(p, CreatedAt) case Some(t) => Some(b.toUtc(t)) case None => None;
    var prev := match Get(p, Data) case Some(d) => d case None => "";
    State(s.rows - {id}, Strip(b, s.index, id, SessionFilters(p)),
          s.log + [Event(id, Some(prev), None, Deleted, created, Some(now), true, Get(p, ActorId), Get(p, Role))])
  }

  /** The loop of `delete_all`; it raises at the first listed memory that is not there. */
  function DeleteEach(b: Backend, s: State, listed: seq<Id>, now: string): State
    decreases |listed|
  {
    if listed == [] || listed[0] !in s.rows then s
    else DeleteEach(b, DeleteMemory(b, s, listed[0], now), listed[1..], now)
  }

  /** A call with invalid ids, an unknown memory or no filter raises before it
      writes anything.  The stored template is the caller's metadata overlaid
      with the ids; the ids alone are the filters. */
  function Step(b: Backend, s: State, op: Op): State {
    match op
    case AddInferred(ids, metadata, extracted, recalled, now) =>
      if ValidIds(ids) then AddRecords(b, s, ids, NewRecords(b, s, metadata + ids, extracted, recalled, now)) else s
    case AddRaw(ids, metadata, messages) =>
      if ValidIds(ids) then Persist(s, RawRecords(b, messages, metadata + ids, s.index.next)) else s
    case AddProcedural(ids, metadata, summary, now) =>
      if ValidIds(ids) then CreateMemory(b, s, (metadata + ids)[MemoryType := "procedural_memory"], summary, now) else s
    case Update(id, data, metadata, now) => if id in s.rows then UpdateMemory(b, s, id, data, metadata, now) else s
    case Delete(id, now) => if id in s.rows then DeleteMemory(b, s, id, now) else s
    case DeleteAll(filters, listed, now) => if filters == map[] then s else DeleteEach(b, s, listed, now)
  }

  function Run(b: Backend, s: State, ops: seq<Op>): State
    decreases |ops|
  {
    if ops == [] then s else Run(b, Step(b, s, ops[0]), ops[1..])
  }
}
