/** What each call writes, read off the rows and the log afterwards, key by key. */
module MemoryRows {
  import opened Wrappers
  import opened Stores
  import opened EntityIndex
  import opened MemoryState
  import opened MemoryHistory
  import opened MemoryIndex
  import opened ExtractionRecords

  // ---------- updates and deletions ----------

  /** An update overlays the old payload with the caller's metadata; what the engine owns is
      that of the new text, but for the creation time and an existing actor, which stay. */
  lemma UpdateWrites(b: Backend, s: State, id: Id, data: string, metadata: Payload, now: string, k: Key)
    requires id in s.rows
    ensures var t := Step(b, s, Update(id, data, metadata, now));
            && t.rows.Keys == s.rows.Keys && (forall m :: m in s.rows && m != id ==> t.rows[m] == s.rows[m])
            && var p, q := s.rows[id].payload, t.rows[id].payload;
            && t.rows[id].vector == Embed(b, data)
            && Get(q, k) == match k
                            case Data => Some(data)
                            case Hash => Some(b.md5(data))
                            case TextLemmatized => Some(b.lemmatize(data))
                            case UpdatedAt => Some(now)
                            case CreatedAt => Get(p, CreatedAt)
                            case ActorId => if ActorId in p then Some(p[ActorId]) else Get(metadata, ActorId)
                            case _ => if k in metadata then Some(metadata[k]) else Get(p, k)
  {
    hide LinkAll, Strip, Embed, UpdatedPayload;
    UpdatedPayloadAt(b, s.rows[id].payload, metadata, data, now, k);
  }

  lemma UpdatedPayloadAt(b: Backend, p: Payload, metadata: Payload, data: string, now: string, k: Key)
    ensures Get(UpdatedPayload(b, p, metadata, data, now), k) ==
              match k
              case Data => Some(data)
              case Hash => Some(b.md5(data))
              case TextLemmatized => Some(b.lemmatize(data))
              case UpdatedAt => Some(now)
              case CreatedAt => Get(p, CreatedAt)
              case ActorId => if ActorId in p then Some(p[ActorId]) else Get(metadata, ActorId)
              case _ => if k in metadata then Some(metadata[k]) else Get(p, k)
  {
    MergedAt(b, p, metadata, data, k);
  }

  lemma MergedAt(b: Backend, p: Payload, metadata: Payload, data: string, k: Key)
    ensures Get((p + metadata)[Data := data][Hash := b.md5(data)][TextLemmatized := b.lemmatize(data)], k) ==
              match k
              case Data => Some(data)
              case Hash => Some(b.md5(data))
              case TextLemmatized => Some(b.lemmatize(data))
              case _ => if k in metadata then Some(metadata[k]) else Get(p, k)
  {
  }

  /** The one event of an update: from the old text to the new, with the creation time and
      actor that stay and the role the row has now. */
  lemma UpdateLogs(b: Backend, s: State, id: Id, data: string, metadata: Payload, now: string)
    requires id in s.rows
    ensures var log := Step(b, s, Update(id, data, metadata, now)).log;
            && |log| == |s.log| + 1 && log[..|s.log|] == s.log
            && var e, p := log[|s.log|], s.rows[id].payload;
            && e.memoryId == id && e.kind == Updated && !e.isDeleted
            && e.oldMemory == Get(p, Data) && e.newMemory == Some(data)
            && e.createdAt == Get(p, CreatedAt) && e.updatedAt == Some(now)
            && e.actorId == (if ActorId in p then Some(p[ActorId]) else Get(metadata, ActorId))
            && e.role == (if Role in metadata then Some(metadata[Role]) else Get(p, Role))
  {
    hide LinkAll, Strip, Embed, UpdatedPayload;
    var p := s.rows[id].payload;
    UpdatedPayloadAt(b, p, metadata, data, now, CreatedAt);
    UpdatedPayloadAt(b, p, metadata, data, now, ActorId);
    UpdatedPayloadAt(b, p, metadata, data, now, Role);
  }

  /** A deletion removes one row and logs its last text, creation time, actor and role. */
  lemma DeleteWrites(b: Backend, s: State, id: Id, now: string)
    requires id in s.rows
    ensures var t := Step(b, s, Delete(id, now));
            && t.rows.Keys == s.rows.Keys - {id} && (forall m :: m in t.rows ==> t.rows[m] == s.rows[m])
            && |t.log| == |s.log| + 1 && t.log[..|s.log|] == s.log
            && var e, p := t.log[|s.log|], s.rows[id].payload;
            && e.memoryId == id && e.kind == Deleted && e.isDeleted && e.newMemory == None
            && e.oldMemory == Some(if Data in p then p[Data] else "")
            && e.createdAt == (if CreatedAt in p then Some(b.toUtc(p[CreatedAt])) else None)
            && e.updatedAt == Some(now)
            && e.actorId == Get(p, ActorId) && e.role == Get(p, Role)
  {
    hide Strip;
  }

  // ---------- adds ----------

  /** A call is accepted iff it names a session and every id it gives is known and not empty;
      otherwise nothing at all is written. */
  lemma AcceptedIff(b: Backend, s: State, ids: Filter, metadata: Payload, extracted: seq<Extracted>,
        recalled: set<Id>, messages: seq<RawMessage>, summary: string, now: string)
    ensures ValidIds(ids) <==>
              && (UserId in ids || AgentId in ids || RunId in ids)
              && forall k :: k in ids ==> (k.UserId? || k.AgentId? || k.RunId? || k.Project?) && ids[k] != ""
    ensures !ValidIds(ids) ==>
              && Step(b, s, Op.AddInferred(ids, metadata, extracted, recalled, now)) == s
              && Step(b, s, Op.AddRaw(ids, metadata, messages)) == s
              && Step(b, s, Op.AddProcedural(ids, metadata, summary, now)) == s
  {
  }

  /** The caller's metadata, with the ids of the call over it. */
  lemma OverlaidAt(metadata: Payload, ids: Filter, k: Key)
    ensures Get(metadata + ids, k) == if k in ids then Some(ids[k]) else Get(metadata, k)
  {
  }

  /** The creation time of a new row. */
  function Born(metadata: Payload, ids: Filter, now: string): string {
    if CreatedAt in ids then ids[CreatedAt] else if CreatedAt in metadata then metadata[CreatedAt] else now
  }

  function OrElse(v: string, other: Option<string>): Option<string> { if v != "" then Some(v) else other }

  lemma NewPayloadAt(b: Backend, metadata: Payload, data: string, now: string, k: Key)
    ensures Get(NewPayload(b, metadata, data, now), k) ==
              match k
              case Data => Some(data)
              case Hash => Some(b.md5(data))
              case TextLemmatized => Some(b.lemmatize(data))
              case CreatedAt => Some(if CreatedAt in metadata then metadata[CreatedAt] else now)
              case UpdatedAt => Some(if CreatedAt in metadata then metadata[CreatedAt] else now)
              case _ => Get(metadata, k)
  {
  }

  lemma PutTruthyAt(p: Payload, key: Key, v: string, k: Key)
    ensures Get(PutTruthy(p, key, v), k) == if k == key then OrElse(v, Get(p, k)) else Get(p, k)
  {
  }

  lemma ExtractedPayloadAt(b: Backend, metadata: Payload, ids: Filter, mem: Extracted, now: string, k: Key)
    ensures var other := if k in ids then Some(ids[k]) else Get(metadata, k);
            Get(ExtractedPayload(b, metadata + ids, mem, now), k) ==
              match k
              case Data => Some(mem.text)
              case Hash => Some(b.md5(mem.text))
              case TextLemmatized => Some(b.lemmatize(mem.text))
              case CreatedAt => Some(Born(metadata, ids, now))
              case UpdatedAt => Some(Born(metadata, ids, now))
              case AttributedTo => OrElse(mem.attributedTo, other)
              case RawContent => OrElse(mem.rawContent, other)
              case HasTechnicalContent => if mem.rawContent != "" then Some("True") else other
              case MemoryType => OrElse(mem.memoryType, other)
              case _ => other
  {
    hide NewPayload, PutTruthy;
    var base := NewPayload(b, metadata + ids, mem.text, now);
    var p := PutTruthy(base, AttributedTo, mem.attributedTo);
    var q := if mem.rawContent == "" then p else p[RawContent := mem.rawContent][HasTechnicalContent := "True"];
    OverlaidAt(metadata, ids, k);
    OverlaidAt(metadata, ids, CreatedAt);
    NewPayloadAt(b, metadata + ids, mem.text, now, k);
    PutTruthyAt(base, AttributedTo, mem.attributedTo, k);
    PutTruthyAt(q, MemoryType, mem.memoryType, k);
  }

  /** Every row of an inferring add is that of one extraction, the first of its hash: what the
      engine owns is that of its text, what the model answered is taken where it answered, and
      every other key is the call's id, or else the caller's metadata. */
  lemma InferredWrites(b: Backend, s: State, ids: Filter, metadata: Payload, extracted: seq<Extracted>,
        recalled: set<Id>, now: string, id: Id, k: Key) returns (n: nat)
    requires id !in s.rows
    requires id in Step(b, s, Op.AddInferred(ids, metadata, extracted, recalled, now)).rows
    ensures n < |extracted| && FirstOfHash(b, extracted, n)
    ensures var row, mem := Step(b, s, Op.AddInferred(ids, metadata, extracted, recalled, now)).rows[id], extracted[n];
            var other := if k in ids then Some(ids[k]) else Get(metadata, k);
            && row.vector == Embed(b, mem.text)
            && Get(row.payload, k) ==
                 match k
                 case Data => Some(mem.text)
                 case Hash => Some(b.md5(mem.text))
                 case TextLemmatized => Some(b.lemmatize(mem.text))
                 case CreatedAt => Some(Born(metadata, ids, now))
                 case UpdatedAt => Some(Born(metadata, ids, now))
                 case AttributedTo => OrElse(mem.attributedTo, other)
                 case RawContent => OrElse(mem.rawContent, other)
                 case HasTechnicalContent => if mem.rawContent != "" then Some("True") else other
                 case MemoryType => OrElse(mem.memoryType, other)
                 case _ => other
  {
    hide Step, RecalledHashes, BuildRecords, ExtractedPayload, EmbedMap, Embed;
    var i := NewRowSource(b, s, ids, metadata, extracted, recalled, now, id);
    n := RecordOfExtraction(b, s, metadata + ids, extracted, recalled, now, i);
    ExtractedPayloadAt(b, metadata, ids, extracted[n], now, k);
  }

  lemma RecordOfExtraction(b: Backend, s: State, metadata: Payload, extracted: seq<Extracted>, recalled: set<Id>,
        now: string, i: nat) returns (n: nat)
    requires i < |NewRecords(b, s, metadata, extracted, recalled, now)|
    ensures n < |extracted| && FirstOfHash(b, extracted, n)
    ensures NewRecords(b, s, metadata, extracted, recalled, now)[i]
              == Record(s.index.next + i, extracted[n].text, Embed(b, extracted[n].text),
                        ExtractedPayload(b, metadata, extracted[n], now))
  {
    hide RecalledHashes, BuildRecords, ExtractedPayload, Embed;
    var vectors, existing := EmbedMap(b, extracted), RecalledHashes(s, recalled);
    n := RecordSource(b, extracted, vectors, existing, {}, metadata, now, s.index.next, i);
    EmbedMapOk(b, extracted);
    assert forall j :: 0 <= j < |extracted| ==> (Embeddable(extracted[j], vectors) <==> extracted[j].text != "");
  }

  /** One ADD event per stored record, in order, with its text and creation time and no more. */
  lemma PersistLogs(s: State, records: seq<Record>, i: nat)
    requires i < |records|
    ensures |Persist(s, records).log| == |s.log| + |records| && Persist(s, records).log[..|s.log|] == s.log
    ensures var e, r := Persist(s, records).log[|s.log| + i], records[i];
            && e.memoryId == r.id && e.kind == Added && !e.isDeleted
            && e.oldMemory == None && e.newMemory == Some(r.text)
            && e.createdAt == Get(r.payload, CreatedAt) && e.updatedAt == None
            && e.actorId == None && e.role == None
    decreases |records|
  {
    PersistLog(s, records);
    assert Persist(s, records).log[|s.log| + i] == AddEvents(records)[i];
  }

  function AddEvents(records: seq<Record>): (r: seq<Event>)
    ensures |r| == |records|
  {
    seq(|records|, i requires 0 <= i < |records| => AddEvent(records[i]))
  }

  lemma {:induction false} PersistLog(s: State, records: seq<Record>)
    ensures Persist(s, records).log == s.log + AddEvents(records)
    decreases |records|
  {
    if records != [] {
      PersistLog(PersistOne(s, records[0]), records[1..]);
      assert AddEvents(records) == [AddEvent(records[0])] + AddEvents(records[1..]);
    }
  }

  // ---------- raw and procedural adds ----------

  /** A message counts when it has a role other than system, and content. */
  predicate Counts(m: Message) { m.role.Some? && m.content.Some? && m.role.value != "system" }

  /** The messages kept are those that count, in order: keeping works message by message. */
  lemma {:induction false} UsableIs(a: seq<Message>, m: Message, c: seq<Message>, now: string)
    ensures Usable(a + [m] + c, now) == Usable(a, now) + Usable([m], now) + Usable(c, now)
    ensures Usable([m], now) == if Counts(m) then [RawMessage(m.content.value, m.role.value, m.name, now)] else []
    decreases |a|
  {
    assert [m][1..] == [];
    if a == [] {
      assert (a + [m] + c)[1..] == c;
    } else {
      assert (a + [m] + c)[1..] == a[1..] + [m] + c;
      UsableIs(a[1..], m, c, now);
    }
  }

  lemma {:induction false} UsableFrom(messages: seq<Message>, now: string, i: nat) returns (k: nat)
    requires i < |Usable(messages, now)|
    ensures k < |messages| && Counts(messages[k])
    ensures Usable(messages, now)[i]
              == RawMessage(messages[k].content.value, messages[k].role.value, messages[k].name, now)
    decreases |messages|
  {
    if !Counts(messages[0]) {
      k := UsableFrom(messages[1..], now, i);
      k := k + 1;
    } else if i == 0 {
      k := 0;
    } else {
      k := UsableFrom(messages[1..], now, i - 1);
      k := k + 1;
    }
  }

  /** Every row of a raw add is that of one message that counts, with its role and, when the
      message names one, its actor; no entity is linked. */
  lemma RawWrites(b: Backend, s: State, ids: Filter, metadata: Payload, messages: seq<Message>, now: string, i: nat,
        k: Key) returns (n: nat)
    requires ValidIds(ids) && i < |Usable(messages, now)| && forall id :: id in s.rows ==> id < s.index.next
    ensures n < |messages| && Counts(messages[n])
    ensures var t := Step(b, s, Op.AddRaw(ids, metadata, Usable(messages, now)));
            var text, other := messages[n].content.value, if k in ids then Some(ids[k]) else Get(metadata, k);
            && (forall m :: m in t.rows <==> m in s.rows || 0 <= m - s.index.next < |Usable(messages, now)|)
            && (forall m :: m in s.rows ==> t.rows[m] == s.rows[m]) && t.index.ents == s.index.ents
            && t.rows[s.index.next + i].vector == Embed(b, text)
            && Get(t.rows[s.index.next + i].payload, k) ==
                 match k
                 case Data => Some(text)
                 case Hash => Some(b.md5(text))
                 case TextLemmatized => Some(b.lemmatize(text))
                 case CreatedAt => Some(Born(metadata, ids, now))
                 case UpdatedAt => Some(Born(metadata, ids, now))
                 case Role => messages[n].role
                 case ActorId => OrElse(messages[n].name, other)
                 case _ => other
  {
    hide Persist, Usable, RawPayload, Embed;
    var usable := Usable(messages, now);
    n := UsableFrom(messages, now, i);
    var records := RawRecords(b, usable, metadata + ids, s.index.next);
    PersistExact(s, records);
    assert records[i] == RawRecord(b, usable[i], metadata + ids, s.index.next + i);
    RawPayloadAt(b, metadata, ids, usable[i], k);
    var t := Step(b, s, Op.AddRaw(ids, metadata, usable));
    forall id ensures id in t.rows <==> id in s.rows || s.index.next <= id < s.index.next + |usable| {
      if s.index.next <= id < s.index.next + |usable| { assert records[id - s.index.next].id == id; }
    }
  }

  lemma RawPayloadAt(b: Backend, metadata: Payload, ids: Filter, msg: RawMessage, k: Key)
    requires ValidIds(ids)
    ensures var other := if k in ids then Some(ids[k]) else Get(metadata, k);
            Get(RawPayload(b, metadata + ids, msg), k) ==
              match k
              case Data => Some(msg.content)
              case Hash => Some(b.md5(msg.content))
              case TextLemmatized => Some(b.lemmatize(msg.content))
              case CreatedAt => Some(Born(metadata, ids, msg.now))
              case UpdatedAt => Some(Born(metadata, ids, msg.now))
              case Role => Some(msg.role)
              case ActorId => OrElse(msg.name, other)
              case _ => other
  {
    hide NewPayload, PutTruthy, ValidIds;
    var template := (metadata + ids)[Role := msg.role];
    IdsNameNoTimes(ids);
    OverlaidAt(metadata, ids, k);
    OverlaidAt(metadata, ids, CreatedAt);
    PutTruthyAt(template, ActorId, msg.name, k);
    PutTruthyAt(template, ActorId, msg.name, CreatedAt);
    NewPayloadAt(b, PutTruthy(template, ActorId, msg.name), msg.content, msg.now, k);
  }

  lemma IdsNameNoTimes(ids: Filter)
    requires ValidIds(ids)
    ensures CreatedAt !in ids && ActorId !in ids && Role !in ids
  {
  }

  /** A procedural add makes one row, of the summary; no entity is linked. */
  lemma ProceduralWrites(b: Backend, s: State, ids: Filter, metadata: Payload, summary: string, now: string, k: Key)
    requires ValidIds(ids) && forall id :: id in s.rows ==> id < s.index.next
    ensures var t := Step(b, s, Op.AddProcedural(ids, metadata, summary, now));
            var id, other := s.index.next, if k in ids then Some(ids[k]) else Get(metadata, k);
            && t.rows.Keys == s.rows.Keys + {id} && (forall m :: m in s.rows ==> t.rows[m] == s.rows[m])
            && t.index.ents == s.index.ents
            && t.rows[id].vector == Embed(b, summary)
            && Get(t.rows[id].payload, k) ==
                 match k
                 case Data => Some(summary)
                 case Hash => Some(b.md5(summary))
                 case TextLemmatized => Some(b.lemmatize(summary))
                 case CreatedAt => Some(Born(metadata, ids, now))
                 case UpdatedAt => Some(Born(metadata, ids, now))
                 case MemoryType => Some("procedural_memory")
                 case _ => other
  {
    hide Embed, NewPayload, ValidIds;
    var template := (metadata + ids)[MemoryType := "procedural_memory"];
    TemplateAt(metadata, ids, k);
    TemplateAt(metadata, ids, CreatedAt);
    NewPayloadAt(b, template, summary, now, k);
  }

  /** And logs one ADD event, which also carries the row's update time, actor and role. */
  lemma ProceduralLogs(b: Backend, s: State, ids: Filter, metadata: Payload, summary: string, now: string)
    requires ValidIds(ids)
    ensures var log := Step(b, s, Op.AddProcedural(ids, metadata, summary, now)).log;
            && |log| == |s.log| + 1 && log[..|s.log|] == s.log
            && var e := log[|s.log|];
            && e.memoryId == s.index.next && e.kind == Added && !e.isDeleted
            && e.oldMemory == None && e.newMemory == Some(summary)
            && e.createdAt == e.updatedAt == Some(Born(metadata, ids, now))
            && e.actorId == Get(metadata, ActorId) && e.role == Get(metadata, Role)
  {
    hide Embed, NewPayload, ValidIds;
    var template := (metadata + ids)[MemoryType := "procedural_memory"];
    IdsNameNoTimes(ids);
    TemplateAt(metadata, ids, CreatedAt);
    TemplateAt(metadata, ids, ActorId);
    TemplateAt(metadata, ids, Role);
    NewPayloadAt(b, template, summary, now, CreatedAt);
    NewPayloadAt(b, template, summary, now, UpdatedAt);
    NewPayloadAt(b, template, summary, now, ActorId);
    NewPayloadAt(b, template, summary, now, Role);
  }

  lemma TemplateAt(metadata: Payload, ids: Filter, k: Key)
    ensures Get((metadata + ids)[MemoryType := "procedural_memory"], k)
              == if k == MemoryType then Some("procedural_memory")
                 else if k in ids then Some(ids[k]) else Get(metadata, k)
  {
  }
}
