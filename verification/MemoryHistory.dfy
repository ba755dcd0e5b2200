/** The history log and the payloads, over every run of calls whatsoever. */
module MemoryHistory {
  import opened Wrappers
  import opened Stores
  import opened EntityIndex
  import opened BatchLinking
  import opened MemoryState

  // ---------- the history log ----------

  function EventsOf(log: seq<Event>, id: Id): seq<Event> {
    if log == [] then []
    else EventsOf(log[..|log| - 1], id) + if log[|log| - 1].memoryId == id then [log[|log| - 1]] else []
  }

  ghost predicate EventFits(evs: seq<Event>, i: nat)
    requires i < |evs|
  {
    var e := evs[i];
    && (e.kind.Added? <==> i == 0)
    && (e.kind.Deleted? ==> i == |evs| - 1)
    && (e.newMemory.None? <==> e.kind.Deleted?)
    && (e.isDeleted <==> e.kind.Deleted?)
    && e.oldMemory == if i == 0 then None else evs[i - 1].newMemory
  }

  /** ADD, then UPDATEs, then at most one DELETE, each starting from the text the
      previous one left. */
  ghost predicate Lifecycle(evs: seq<Event>) {
    forall i :: 0 <= i < |evs| ==> EventFits(evs, i)
  }

  /** The text a memory's events leave it with; None when it is not live. */
  function Replay(evs: seq<Event>): Option<string> {
    if evs == [] then None else evs[|evs| - 1].newMemory
  }

  function Live(rows: map<Id, Row>, id: Id): Option<string> {
    if id in rows then Get(rows[id].payload, Data) else None
  }

  /** The events of `id` tell its whole story. */
  ghost predicate Told(rows: map<Id, Row>, log: seq<Event>, id: Id) {
    var evs := EventsOf(log, id);
    && Lifecycle(evs)
    && Replay(evs) == Live(rows, id)
    && (id in rows ==> evs != [] && evs[0].createdAt == Get(rows[id].payload, CreatedAt))
  }

  /** Ids are taken from the uuid supply in order, so later ones are unused. */
  ghost predicate LogOk(rows: map<Id, Row>, log: seq<Event>, next: Id) {
    && (forall i :: 0 <= i < |log| ==> log[i].memoryId < next)
    && (forall id :: id in rows ==> id < next && Data in rows[id].payload)
    && (forall id :: Told(rows, log, id))
  }

  lemma {:induction false} NoEvents(log: seq<Event>, id: Id)
    requires forall i :: 0 <= i < |log| ==> log[i].memoryId != id
    ensures EventsOf(log, id) == []
  {
    if log != [] { NoEvents(log[..|log| - 1], id); }
  }

  /** The event that one write of memory `id` must log. */
  ghost predicate Logs(rows: map<Id, Row>, rows': map<Id, Row>, next: Id, e: Event) {
    var id := e.memoryId;
    && (forall k :: k != id ==> (k in rows' <==> k in rows))
    && (forall k :: k != id && k in rows ==> rows'[k] == rows[k])
    && (e.isDeleted <==> e.kind.Deleted?)
    && (id in rows' ==> Data in rows'[id].payload && e.newMemory == Some(rows'[id].payload[Data]))
    && (e.kind.Added? <==> id == next)
    && match e.kind
       case Added => id in rows' && e.oldMemory == None && e.createdAt == Get(rows'[id].payload, CreatedAt)
       case Updated => id in rows && id in rows' && e.oldMemory == Live(rows, id)
                       && Get(rows'[id].payload, CreatedAt) == Get(rows[id].payload, CreatedAt)
       case Deleted => id in rows && id !in rows' && e.oldMemory == Live(rows, id) && e.newMemory == None
  }

  lemma LifecycleAppend(evs: seq<Event>, e: Event)
    requires Lifecycle(evs) && evs != [] && Replay(evs).Some?
    requires !e.kind.Added? && (e.isDeleted <==> e.kind.Deleted?) && (e.newMemory.None? <==> e.kind.Deleted?)
    requires e.oldMemory == Replay(evs)
    ensures Lifecycle(evs + [e])
  {
    var evs' := evs + [e];
    forall i | 0 <= i < |evs'| ensures EventFits(evs', i) {
      assert EventFits(evs, if i < |evs| then i else |evs| - 1);
      if 0 < i { assert evs'[i - 1] == evs[i - 1]; }
    }
  }

  lemma ToldAfter(rows: map<Id, Row>, rows': map<Id, Row>, log: seq<Event>, next: Id, e: Event, id: Id)
    requires LogOk(rows, log, next) && Logs(rows, rows', next, e)
    ensures Told(rows', log + [e], id)
  {
    var evs, evs' := EventsOf(log, id), EventsOf(log + [e], id);
    assert (log + [e])[..|log|] == log;
    assert Told(rows, log, id);
    if e.memoryId == id {
      assert evs' == evs + [e];
      assert e.newMemory == Live(rows', id);
      if e.kind.Added? {
        NoEvents(log, id);
      } else {
        LifecycleAppend(evs, e);
      }
    } else {
      assert evs' == evs && (id in rows' <==> id in rows);
    }
  }

  lemma LogOkAfter(rows: map<Id, Row>, rows': map<Id, Row>, log: seq<Event>, next: Id, next': Id, e: Event)
    requires LogOk(rows, log, next) && Logs(rows, rows', next, e)
    requires next' >= next && e.memoryId < next'
    ensures LogOk(rows', log + [e], next')
  {
    forall id ensures Told(rows', log + [e], id) { ToldAfter(rows, rows', log, next, e, id); }
    var log' := log + [e];
    forall i | 0 <= i < |log'| ensures log'[i].memoryId < next' { }
  }

  // ---------- payloads ----------

  /** Hash, lemma and vector are those of the row's own text. */
  ghost predicate RowOk(b: Backend, r: Row) {
    && Data in r.payload && CreatedAt in r.payload
    && Get(r.payload, Hash) == Some(b.md5(r.payload[Data]))
    && Get(r.payload, TextLemmatized) == Some(b.lemmatize(r.payload[Data]))
    && r.vector == Embed(b, r.payload[Data])
  }

  ghost predicate RecordOk(b: Backend, r: Record, session: Filter) {
    r.text != "" && Storable(b, r) && SessionFilters(r.payload) == session
  }

  ghost predicate Storable(b: Backend, r: Record) {
    RowOk(b, Row(r.vector, r.payload)) && r.payload[Data] == r.text
  }

  /** Session filters only look at the session keys. */
  lemma SessionOf(p: Payload, q: Payload)
    requires forall k :: k in SESSION_KEYS ==> Get(p, k) == Get(q, k)
    ensures SessionFilters(p) == SessionFilters(q)
  {
  }

  lemma NewPayloadOk(b: Backend, metadata: Payload, data: string, now: string)
    ensures var p := NewPayload(b, metadata, data, now);
            && RowOk(b, Row(Embed(b, data), p)) && p[Data] == data
            && SessionFilters(p) == SessionFilters(metadata)
  {
    SessionOf(NewPayload(b, metadata, data, now), metadata);
  }

  const TEXT_KEYS: set<Key> := {Data, Hash, TextLemmatized, CreatedAt} + SESSION_KEYS

  ghost predicate SameText(p: Payload, q: Payload) {
    forall k :: k in TEXT_KEYS ==> Get(q, k) == Get(p, k)
  }

  lemma PutSameText(p: Payload, q: Payload, k: Key, v: string)
    requires SameText(p, q) && k !in TEXT_KEYS
    ensures SameText(p, q[k := v]) && SameText(p, PutTruthy(q, k, v))
  {
  }

  lemma SameTextOk(b: Backend, vector: Vector, p: Payload, q: Payload)
    requires RowOk(b, Row(vector, p)) && SameText(p, q)
    ensures RowOk(b, Row(vector, q)) && q[Data] == p[Data] && SessionFilters(q) == SessionFilters(p)
  {
    SessionOf(q, p);
    assert Get(q, Data) == Get(p, Data) && Get(q, CreatedAt) == Get(p, CreatedAt);
  }

  lemma ExtractedPayloadOk(b: Backend, metadata: Payload, mem: Extracted, now: string)
    ensures var p := ExtractedPayload(b, metadata, mem, now);
            && RowOk(b, Row(Embed(b, mem.text), p)) && p[Data] == mem.text
            && SessionFilters(p) == SessionFilters(metadata)
  {
    hide RowOk, NewPayload, SessionFilters, Embed;
    var base := NewPayload(b, metadata, mem.text, now);
    var p := PutTruthy(base, AttributedTo, mem.attributedTo);
    NewPayloadOk(b, metadata, mem.text, now);
    PutSameText(base, base, AttributedTo, mem.attributedTo);
    PutSameText(base, p, RawContent, mem.rawContent);
    PutSameText(base, p[RawContent := mem.rawContent], HasTechnicalContent, "True");
    var q := if mem.rawContent == "" then p else p[RawContent := mem.rawContent][HasTechnicalContent := "True"];
    PutSameText(base, q, MemoryType, mem.memoryType);
    SameTextOk(b, Embed(b, mem.text), NewPayload(b, metadata, mem.text, now), ExtractedPayload(b, metadata, mem, now));
  }

  lemma {:induction false} BuildRecordsSound(b: Backend, mems: seq<Extracted>, embedMap: map<string, Vector>,
        existing: set<string>, seen: set<string>, metadata: Payload, now: string, next: Id)
    requires forall t :: t in embedMap ==> embedMap[t] == Embed(b, t)
    ensures forall i :: 0 <= i < |BuildRecords(b, mems, embedMap, existing, seen, metadata, now, next)| ==>
              RecordOk(b, BuildRecords(b, mems, embedMap, existing, seen, metadata, now, next)[i],
                SessionFilters(metadata))
    decreases |mems|
  {
    if mems != [] {
      BuildRecordsSound(b, mems[1..], embedMap, existing, seen, metadata, now, next);
      BuildRecordsSound(b, mems[1..], embedMap, existing, seen + {b.md5(mems[0].text)}, metadata, now, next + 1);
      ExtractedPayloadOk(b, metadata, mems[0], now);
    }
  }

  // ---------- each operation keeps the history ----------

  /** The log tells the story of every id, and every row is that of its own text. */
  ghost predicate HistoryOk(b: Backend, s: State) {
    && LogOk(s.rows, s.log, s.index.next)
    && forall id :: id in s.rows ==> RowOk(b, s.rows[id])
  }

  lemma PersistOneLog(rows: map<Id, Row>, log: seq<Event>, next: Id, r: Record)
    requires LogOk(rows, log, next) && r.id == next && Data in r.payload && r.payload[Data] == r.text
    ensures LogOk(rows[r.id := Row(r.vector, r.payload)], log + [AddEvent(r)], next + 1)
  {
    LogOkAfter(rows, rows[r.id := Row(r.vector, r.payload)], log, next, next + 1, AddEvent(r));
  }

  lemma LogOkLater(rows: map<Id, Row>, log: seq<Event>, next: Id, next': Id)
    requires LogOk(rows, log, next) && next <= next'
    ensures LogOk(rows, log, next')
  {
  }

  lemma PersistOneHistory(b: Backend, s: State, r: Record)
    requires HistoryOk(b, s) && r.id == s.index.next && Storable(b, r)
    ensures HistoryOk(b, PersistOne(s, r))
  {
    hide LogOk;
    PersistOneLog(s.rows, s.log, s.index.next, r);
  }

  lemma {:induction false} PersistHistory(b: Backend, s: State, records: seq<Record>)
    requires HistoryOk(b, s)
    requires forall i :: 0 <= i < |records| ==> records[i].id == s.index.next + i && Storable(b, records[i])
    ensures HistoryOk(b, Persist(s, records))
    decreases |records|
  {
    hide HistoryOk, Storable;
    if records != [] {
      PersistOneHistory(b, s, records[0]);
      PersistHistory(b, PersistOne(s, records[0]), records[1..]);
    }
  }

  lemma AddInferredHistory(b: Backend, s: State, ids: Filter, metadata: Payload, extracted: seq<Extracted>,
        recalled: set<Id>, now: string)
    requires HistoryOk(b, s)
    ensures HistoryOk(b, AddRecords(b, s, ids, NewRecords(b, s, metadata, extracted, recalled, now)))
  {
    hide LogOk, LinkBatch, RowOk, EmbedMap, Persist;
    var records := NewRecords(b, s, metadata, extracted, recalled, now);
    EmbedMapOk(b, extracted);
    BuildRecordsSound(b, extracted, EmbedMap(b, extracted), RecalledHashes(s, recalled), {}, metadata, now,
      s.index.next);
    PersistHistory(b, s, records);
    var t := Persist(s, records);
    LinkBatchNext(b, t.index, Occurrences(b, records), ids);
    LogOkLater(t.rows, t.log, t.index.next, LinkBatch(b, t.index, Occurrences(b, records), ids).next);
  }

  lemma EmbedMapOk(b: Backend, extracted: seq<Extracted>)
    ensures forall t :: t in EmbedMap(b, extracted) ==> EmbedMap(b, extracted)[t] == Embed(b, t)
  {
  }

  lemma AddRawHistory(b: Backend, s: State, messages: seq<RawMessage>, metadata: Payload)
    requires HistoryOk(b, s)
    ensures HistoryOk(b, Persist(s, RawRecords(b, messages, metadata, s.index.next)))
  {
    hide HistoryOk, RowOk, NewPayload, Embed;
    var records := RawRecords(b, messages, metadata, s.index.next);
    forall i | 0 <= i < |records| ensures Storable(b, records[i]) {
      NewPayloadOk(b, PutTruthy(metadata[Role := messages[i].role], ActorId, messages[i].name), messages[i].content,
        messages[i].now);
    }
    PersistHistory(b, s, records);
  }

  lemma CreateHistory(b: Backend, s: State, metadata: Payload, data: string, now: string)
    requires HistoryOk(b, s)
    ensures HistoryOk(b, CreateMemory(b, s, metadata, data, now))
  {
    hide NewPayload, Embed;
    var t := CreateMemory(b, s, metadata, data, now);
    NewPayloadOk(b, metadata, data, now);
    LogOkAfter(s.rows, t.rows, s.log, s.index.next, s.index.next + 1, t.log[|s.log|]);
  }

  lemma UpdatedPayloadOk(b: Backend, p: Payload, metadata: Payload, data: string, now: string)
    requires CreatedAt in p
    ensures var q := UpdatedPayload(b, p, metadata, data, now);
            && RowOk(b, Row(Embed(b, data), q)) && q[Data] == data
            && q[CreatedAt] == p[CreatedAt]
            && (ActorId in p ==> Get(q, ActorId) == Get(p, ActorId))
  {
  }

  lemma UpdateLog(rows: map<Id, Row>, log: seq<Event>, next: Id, r: Row, e: Event)
    requires LogOk(rows, log, next) && e.memoryId in rows && e.kind.Updated? && !e.isDeleted
    requires Data in r.payload && e.newMemory == Some(r.payload[Data]) && e.oldMemory == Live(rows, e.memoryId)
    requires Get(r.payload, CreatedAt) == Get(rows[e.memoryId].payload, CreatedAt)
    ensures LogOk(rows[e.memoryId := r], log + [e], next)
  {
    LogOkAfter(rows, rows[e.memoryId := r], log, next, next, e);
  }

  lemma UpdateHistory(b: Backend, s: State, id: Id, data: string, metadata: Payload, now: string)
    requires HistoryOk(b, s) && id in s.rows
    ensures HistoryOk(b, UpdateMemory(b, s, id, data, metadata, now))
  {
    hide LogOk, LinkAll, Strip, UpdatedPayload, Embed;
    var p, t := s.rows[id].payload, UpdateMemory(b, s, id, data, metadata, now);
    var session := SessionFilters(UpdatedPayload(b, p, metadata, data, now));
    UpdatedPayloadOk(b, p, metadata, data, now);
    UpdateLog(s.rows, s.log, s.index.next, t.rows[id], t.log[|s.log|]);
    StripExact(b, s.index, id, session);
    LinkAllNext(b, Strip(b, s.index, id, session), b.extract(data), {}, id, session);
    LogOkLater(t.rows, t.log, s.index.next, t.index.next);
  }

  lemma DeleteLog(rows: map<Id, Row>, log: seq<Event>, next: Id, e: Event)
    requires LogOk(rows, log, next) && e.memoryId in rows && e.kind.Deleted? && e.isDeleted
    requires e.newMemory == None && e.oldMemory == Live(rows, e.memoryId)
    ensures LogOk(rows - {e.memoryId}, log + [e], next)
  {
    LogOkAfter(rows, rows - {e.memoryId}, log, next, next, e);
  }

  lemma DeleteHistory(b: Backend, s: State, id: Id, now: string)
    requires HistoryOk(b, s) && id in s.rows
    ensures HistoryOk(b, DeleteMemory(b, s, id, now))
  {
    hide LogOk, Strip;
    var t := DeleteMemory(b, s, id, now);
    DeleteLog(s.rows, s.log, s.index.next, t.log[|s.log|]);
    StripExact(b, s.index, id, SessionFilters(s.rows[id].payload));
  }

  lemma {:induction false} DeleteEachHistory(b: Backend, s: State, listed: seq<Id>, now: string)
    requires HistoryOk(b, s)
    ensures HistoryOk(b, DeleteEach(b, s, listed, now))
    decreases |listed|
  {
    hide HistoryOk, DeleteMemory;
    if listed != [] && listed[0] in s.rows {
      DeleteHistory(b, s, listed[0], now);
      DeleteEachHistory(b, DeleteMemory(b, s, listed[0], now), listed[1..], now);
    }
  }

  /** Every call keeps it: no condition on metadata, filters, extractor or listing. */
  lemma StepKeepsHistory(b: Backend, s: State, op: Op)
    requires HistoryOk(b, s)
    ensures HistoryOk(b, Step(b, s, op))
  {
    hide HistoryOk, AddRecords, NewRecords, CreateMemory, UpdateMemory, DeleteMemory, DeleteEach, Persist;
    match op
    case AddInferred(ids, metadata, extracted, recalled, now) =>
      AddInferredHistory(b, s, ids, metadata + ids, extracted, recalled, now);
    case AddRaw(ids, metadata, messages) => AddRawHistory(b, s, messages, metadata + ids);
    case AddProcedural(ids, metadata, summary, now) =>
      CreateHistory(b, s, (metadata + ids)[MemoryType := "procedural_memory"], summary, now);
    case Update(id, data, metadata, now) => if id in s.rows { UpdateHistory(b, s, id, data, metadata, now); }
    case Delete(id, now) => if id in s.rows { DeleteHistory(b, s, id, now); }
    case DeleteAll(filters, listed, now) => DeleteEachHistory(b, s, listed, now);
  }

  lemma {:induction false} RunKeepsHistory(b: Backend, s: State, ops: seq<Op>)
    requires HistoryOk(b, s)
    ensures HistoryOk(b, Run(b, s, ops))
    decreases |ops|
  {
    hide HistoryOk, Step;
    if ops != [] {
      StepKeepsHistory(b, s, ops[0]);
      RunKeepsHistory(b, Step(b, s, ops[0]), ops[1..]);
    }
  }

  lemma EmptyHistory(b: Backend)
    ensures HistoryOk(b, Empty)
  {
    forall id ensures Told(Empty.rows, Empty.log, id) { NoEvents([], id); }
  }

  /** Over any run of any calls from empty stores the events of every id, in insertion
      order, replay to the vector store, and every live row carries the hash, lemma and
      vector of its own text and the creation time of its ADD event. */
  lemma HistoryReplays(b: Backend, ops: seq<Op>, id: Id)
    ensures var s := Run(b, Empty, ops);
            var evs := EventsOf(s.log, id);
            && Lifecycle(evs)
            && (id in s.rows ==>
                  && RowOk(b, s.rows[id])
                  && Replay(evs) == Some(s.rows[id].payload[Data])
                  && evs != [] && evs[0].createdAt == Some(s.rows[id].payload[CreatedAt]))
            && (id !in s.rows ==> evs == [] || evs[|evs| - 1].kind.Deleted?)
  {
    hide Run;
    EmptyHistory(b);
    RunKeepsHistory(b, Empty, ops);
    var s := Run(b, Empty, ops);
    var evs := EventsOf(s.log, id);
    assert Told(s.rows, s.log, id);
    if evs != [] { assert EventFits(evs, |evs| - 1); }
  }
}
