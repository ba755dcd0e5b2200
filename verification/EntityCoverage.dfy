/** The counterpart of index integrity: no link that should be there is missing, over every run
    of calls whatsoever. */
module EntityCoverage {
  import opened Wrappers
  import opened Stores
  import opened EntityIndex
  import opened BatchLinking
  import opened BatchRefinement
  import opened LinkingTheorems
  import opened MemoryState
  import opened MemoryHistory
  import opened MemoryIndex

  /** Some record with the key lists the memory. */
  ghost predicate Keyed(b: Backend, x: Index, m: Id, key: string) {
    exists e :: Lists(x, e, m) && b.normalise(x.ents[e].data) == key
  }

  /** Every entity of the text that has a key has a record with that key listing the memory. */
  ghost predicate Indexed(b: Backend, x: Index, m: Id, text: string) {
    forall mention :: mention in b.extract(text) && b.normalise(mention.text) != "" ==>
      Keyed(b, x, m, b.normalise(mention.text))
  }

  // ---------- links that stay ----------

  /** Links of memories outside `gone` stay, in records of the same text. */
  ghost predicate LinksStay(x: Index, y: Index, gone: set<Id>) {
    forall e, m :: Lists(x, e, m) && m !in gone ==> Lists(y, e, m) && y.ents[e].data == x.ents[e].data
  }

  ghost predicate Fresh(x: Index) { forall id :: id in x.ents ==> id < x.next }

  lemma IndexedStays(b: Backend, x: Index, y: Index, gone: set<Id>, m: Id, text: string)
    requires LinksStay(x, y, gone) && m !in gone && Indexed(b, x, m, text)
    ensures Indexed(b, y, m, text)
  {
    forall mention | mention in b.extract(text) && b.normalise(mention.text) != ""
      ensures Keyed(b, y, m, b.normalise(mention.text))
    {
      var e :| Lists(x, e, m) && b.normalise(x.ents[e].data) == b.normalise(mention.text);
      assert Lists(y, e, m);
    }
  }

  lemma StripLinks(b: Backend, x: Index, m: Id, filters: Filter)
    requires Fresh(x)
    ensures LinksStay(x, Strip(b, x, m, filters), {m}) && Fresh(Strip(b, x, m, filters))
  {
    hide Strip;
    StripExact(b, x, m, filters);
  }

  lemma {:induction false} LinkAllFresh(b: Backend, x: Index, mentions: seq<Mention>, seen: set<string>, m: Id,
        filters: Filter)
    requires Fresh(x)
    ensures Fresh(LinkAll(b, x, mentions, seen, m, filters))
    ensures LinksStay(x, LinkAll(b, x, mentions, seen, m, filters), {})
    decreases |mentions|
  {
    hide Lists;
    if mentions != [] {
      var key := b.normalise(mentions[0].text);
      if key == "" || key in seen {
        LinkAllFresh(b, x, mentions[1..], seen, m, filters);
      } else {
        UpsertStays(b, x, mentions[0], m, filters);
        LinkAllFresh(b, Upsert(b, x, mentions[0], m, filters), mentions[1..], seen + {key}, m, filters);
      }
    }
  }

  lemma UpsertStays(b: Backend, x: Index, mention: Mention, m: Id, filters: Filter)
    requires Fresh(x)
    ensures Fresh(Upsert(b, x, mention, m, filters)) && LinksStay(x, Upsert(b, x, mention, m, filters), {})
  {
    hide Upsert, Target;
    UpsertExact(b, x, mention, m, filters);
  }

  lemma {:induction false} UpsertAllStays(b: Backend, x: Index, occs: seq<Occurrence>, filters: Filter)
    requires Fresh(x)
    ensures Fresh(UpsertAll(b, x, occs, filters)) && LinksStay(x, UpsertAll(b, x, occs, filters), {})
  {
    hide Lists, Upsert;
    if occs != [] {
      var init, o := occs[..|occs| - 1], occs[|occs| - 1];
      UpsertAllStays(b, x, init, filters);
      UpsertStays(b, UpsertAll(b, x, init, filters), o.mention, o.memory, filters);
    }
  }

  // ---------- links that are made ----------

  lemma UpsertKeyed(b: Backend, pick: set<Id> -> Id, x: Index, mention: Mention, m: Id, filters: Filter)
    requires KeyMatching(b, pick) && Fresh(x)
    ensures Keyed(b, Upsert(b, x, mention, m, filters), m, b.normalise(mention.text))
  {
    hide KeyMatching, Resolve;
    SameKeyResolvesAlike(b, pick, x.ents, mention.text, mention.text, ScopeFilters(filters));
    assert Lists(Upsert(b, x, mention, m, filters), Target(b, x, mention, filters), m);
  }

  lemma KeyedStays(b: Backend, x: Index, y: Index, m: Id, key: string)
    requires LinksStay(x, y, {}) && Keyed(b, x, m, key)
    ensures Keyed(b, y, m, key)
  {
    var e :| Lists(x, e, m) && b.normalise(x.ents[e].data) == key;
    assert Lists(y, e, m);
  }

  /** The single-memory path links every key, whatever it has seen before. */
  lemma {:induction false} LinkAllCovers(b: Backend, pick: set<Id> -> Id, x: Index, mentions: seq<Mention>,
        seen: set<string>, m: Id, filters: Filter)
    requires KeyMatching(b, pick) && Fresh(x) && forall key :: key in seen ==> Keyed(b, x, m, key)
    ensures forall mention :: mention in mentions && b.normalise(mention.text) != "" ==>
              Keyed(b, LinkAll(b, x, mentions, seen, m, filters), m, b.normalise(mention.text))
    decreases |mentions|
  {
    hide KeyMatching, Keyed, Upsert, LinksStay;
    if mentions != [] {
      var key, rest := b.normalise(mentions[0].text), mentions[1..];
      var y := LinkAll(b, x, mentions, seen, m, filters);
      LinkAllFresh(b, x, mentions, seen, m, filters);
      if key == "" || key in seen {
        LinkAllCovers(b, pick, x, rest, seen, m, filters);
        if key in seen { KeyedStays(b, x, y, m, key); }
      } else {
        var z := Upsert(b, x, mentions[0], m, filters);
        UpsertKeyed(b, pick, x, mentions[0], m, filters);
        UpsertStays(b, x, mentions[0], m, filters);
        forall k | k in seen + {key} ensures Keyed(b, z, m, k) { if k != key { KeyedStays(b, x, z, m, k); } }
        LinkAllCovers(b, pick, z, rest, seen + {key}, m, filters);
        LinkAllFresh(b, z, rest, seen + {key}, m, filters);
        KeyedStays(b, z, y, m, key);
      }
      assert forall mention :: mention in mentions ==> mention == mentions[0] || mention in rest;
    }
  }

  lemma SameIndexStays(x: Index, y: Index)
    requires SameIndex(x, y)
    ensures LinksStay(x, y, {}) && (Fresh(x) ==> Fresh(y))
  {
    forall e, m | Lists(x, e, m) ensures Lists(y, e, m) && y.ents[e].data == x.ents[e].data {
      assert m in LinkSet(x.ents[e].links);
    }
  }

  /** The batch keeps every link and links every entity of the new memories. */
  lemma LinkBatchCovers(b: Backend, pick: set<Id> -> Id, x: Index, records: seq<Record>, filters: Filter)
    requires KeyMatching(b, pick) && Fresh(x)
    ensures var y := LinkBatch(b, x, Occurrences(b, records), filters);
            && Fresh(y) && LinksStay(x, y, {})
            && forall i :: 0 <= i < |records| ==> Indexed(b, y, records[i].id, records[i].text)
  {
    hide KeyMatching, LinkBatch, UpsertAll, SameIndex, Lists;
    var occs := Occurrences(b, records);
    var y, u := LinkBatch(b, x, occs, filters), UpsertAll(b, x, occs, filters);
    BatchRefinesUpserts(b, pick, x, occs, filters);
    SameIndexSymmetric(y, u);
    SameIndexStays(u, y);
    UpsertAllStays(b, x, occs, filters);
    forall i | 0 <= i < |records| ensures Indexed(b, y, records[i].id, records[i].text) {
      UpsertAllCovers(b, pick, x, records, filters, i);
      IndexedStays(b, u, y, {}, records[i].id, records[i].text);
    }
  }

  lemma SameIndexSymmetric(x: Index, y: Index)
    requires SameIndex(x, y)
    ensures SameIndex(y, x)
  {
  }

  lemma UpsertAllCovers(b: Backend, pick: set<Id> -> Id, x: Index, records: seq<Record>, filters: Filter, i: nat)
    requires KeyMatching(b, pick) && Fresh(x) && i < |records|
    ensures Indexed(b, UpsertAll(b, x, Occurrences(b, records), filters), records[i].id, records[i].text)
  {
    hide KeyMatching, UpsertAll, Occurrences, HasOccurrence;
    var mentions, y := b.extract(records[i].text), UpsertAll(b, x, Occurrences(b, records), filters);
    forall mention | mention in mentions && b.normalise(mention.text) != ""
      ensures Keyed(b, y, records[i].id, b.normalise(mention.text))
    {
      var k :| 0 <= k < |mentions| && mentions[k] == mention;
      OccurrenceOfRecord(b, records, i, k);
      ResolvesToListing(b, pick, x, Occurrences(b, records), filters, mention.text, records[i].id);
      assert Lists(y, Resolve(b, y.ents, mention.text, ScopeFilters(filters)).value, records[i].id);
    }
  }

  // ---------- every run ----------

  /** The memories whose text one call links: those of an inferring add, and one updated. */
  function LinkedBy(b: Backend, s: State, op: Op): set<Id> {
    match op
    case AddInferred(ids, metadata, extracted, recalled, now) =>
      if ValidIds(ids)
      then (set r | r in NewRecords(b, s, metadata + ids, extracted, recalled, now) :: r.id)
      else {}
    case Update(id, data, metadata, now) => if id in s.rows then {id} else {}
    case _ => {}
  }

  function Linked(b: Backend, s: State, ops: seq<Op>): set<Id>
    decreases |ops|
  {
    if ops == [] then {} else LinkedBy(b, s, ops[0]) + Linked(b, Step(b, s, ops[0]), ops[1..])
  }

  /** Every live memory of `linked` is listed under each key of its current text. */
  ghost predicate Covered(b: Backend, s: State, linked: set<Id>) {
    && Fresh(s.index) && (forall id :: id in linked ==> id < s.index.next)
    && forall id :: id in linked && id in s.rows ==> CoveredRow(b, s, id)
  }

  ghost predicate CoveredRow(b: Backend, s: State, id: Id)
    requires id in s.rows
  {
    Data in s.rows[id].payload && Indexed(b, s.index, id, s.rows[id].payload[Data])
  }

  lemma CoveredRowStays(b: Backend, s: State, t: State, gone: set<Id>, id: Id)
    requires LinksStay(s.index, t.index, gone) && id !in gone
    requires id in s.rows && id in t.rows && t.rows[id] == s.rows[id] && CoveredRow(b, s, id)
    ensures CoveredRow(b, t, id)
  {
    hide LinksStay, Indexed;
    IndexedStays(b, s.index, t.index, gone, id, s.rows[id].payload[Data]);
  }

  lemma PersistCovered(b: Backend, s: State, records: seq<Record>, linked: set<Id>)
    requires Covered(b, s, linked) && forall i :: 0 <= i < |records| ==> records[i].id == s.index.next + i
    ensures Covered(b, Persist(s, records), linked)
  {
    hide CoveredRow;
    var t := Persist(s, records);
    PersistExact(s, records);
    forall id | id in linked && id in t.rows ensures CoveredRow(b, t, id) { CoveredRowStays(b, s, t, {}, id); }
  }

  lemma AddCovered(b: Backend, pick: set<Id> -> Id, s: State, records: seq<Record>, ids: Filter, linked: set<Id>)
    requires KeyMatching(b, pick) && Covered(b, s, linked)
    requires forall i :: 0 <= i < |records| ==> records[i].id == s.index.next + i && Storable(b, records[i])
    ensures Covered(b, AddRecords(b, s, ids, records), linked + (set r | r in records :: r.id))
  {
    hide KeyMatching, CoveredRow, LinkBatch, LinksStay, Persist, Storable;
    var u, t := Persist(s, records), AddRecords(b, s, ids, records);
    PersistExact(s, records);
    PersistCovered(b, s, records, linked);
    LinkBatchCovers(b, pick, u.index, records, ids);
    LinkBatchNext(b, u.index, Occurrences(b, records), ids);
    forall id | id in linked && id in t.rows ensures CoveredRow(b, t, id) { CoveredRowStays(b, u, t, {}, id); }
    forall i | 0 <= i < |records| ensures records[i].id < t.index.next && CoveredRow(b, t, records[i].id) {
      NewRowCovered(b, t, records[i]);
    }
  }

  lemma NewRowCovered(b: Backend, t: State, r: Record)
    requires r.id in t.rows && t.rows[r.id] == Row(r.vector, r.payload)
    requires Storable(b, r) && Indexed(b, t.index, r.id, r.text)
    ensures CoveredRow(b, t, r.id)
  {
  }

  lemma AddInferredCovered(b: Backend, pick: set<Id> -> Id, s: State, ids: Filter, metadata: Payload,
        extracted: seq<Extracted>, recalled: set<Id>, now: string, linked: set<Id>)
    requires KeyMatching(b, pick) && Covered(b, s, linked)
    ensures var records := NewRecords(b, s, metadata, extracted, recalled, now);
            Covered(b, AddRecords(b, s, ids, records), linked + (set r | r in records :: r.id))
  {
    hide KeyMatching, Covered, EmbedMap, AddRecords, Storable;
    var records := NewRecords(b, s, metadata, extracted, recalled, now);
    EmbedMapOk(b, extracted);
    BuildRecordsSound(b, extracted, EmbedMap(b, extracted), RecalledHashes(s, recalled), {}, metadata, now,
      s.index.next);
    AddCovered(b, pick, s, records, ids, linked);
  }

  lemma CreateCovered(b: Backend, s: State, metadata: Payload, data: string, now: string, linked: set<Id>)
    requires Covered(b, s, linked)
    ensures Covered(b, CreateMemory(b, s, metadata, data, now), linked)
  {
    hide CoveredRow, NewPayload, Embed;
    var t := CreateMemory(b, s, metadata, data, now);
    forall id | id in linked && id in t.rows ensures CoveredRow(b, t, id) { CoveredRowStays(b, s, t, {}, id); }
  }

  lemma UpdateCovered(b: Backend, pick: set<Id> -> Id, s: State, id: Id, data: string, metadata: Payload,
        now: string, linked: set<Id>)
    requires KeyMatching(b, pick) && Covered(b, s, linked) && id in s.rows && id < s.index.next
    ensures Covered(b, UpdateMemory(b, s, id, data, metadata, now), linked + {id})
  {
    hide KeyMatching, CoveredRow, LinksStay, Keyed, Strip, LinkAll, UpdatedPayload, SessionFilters, Embed;
    var session, t := NewSession(b, s, id, data, metadata, now), UpdateMemory(b, s, id, data, metadata, now);
    var x := Strip(b, s.index, id, session);
    StripLinks(b, s.index, id, session);
    StripExact(b, s.index, id, session);
    LinkAllFresh(b, x, b.extract(data), {}, id, session);
    LinkAllNext(b, x, b.extract(data), {}, id, session);
    LinkAllCovers(b, pick, x, b.extract(data), {}, id, session);
    StayTwice(s.index, x, t.index, {id});
    forall k | k in linked && k in t.rows && k != id ensures CoveredRow(b, t, k) {
      CoveredRowStays(b, s, t, {id}, k);
    }
    UpdatedText(b, s.rows[id].payload, metadata, data, now);
    UpdatedRowCovered(b, t, id, data);
  }

  lemma UpdatedRowCovered(b: Backend, t: State, id: Id, data: string)
    requires id in t.rows && Data in t.rows[id].payload && t.rows[id].payload[Data] == data
    requires Indexed(b, t.index, id, data)
    ensures CoveredRow(b, t, id)
  {
  }

  lemma UpdatedText(b: Backend, p: Payload, metadata: Payload, data: string, now: string)
    ensures Get(UpdatedPayload(b, p, metadata, data, now), Data) == Some(data)
  {
  }

  lemma StayTwice(x: Index, y: Index, z: Index, gone: set<Id>)
    requires LinksStay(x, y, gone) && LinksStay(y, z, {})
    ensures LinksStay(x, z, gone)
  {
    hide Lists;
  }

  lemma DeleteCovered(b: Backend, s: State, id: Id, now: string, linked: set<Id>)
    requires Covered(b, s, linked) && id in s.rows
    ensures Covered(b, DeleteMemory(b, s, id, now), linked)
  {
    hide CoveredRow, LinksStay, Strip, SessionFilters;
    var t, session := DeleteMemory(b, s, id, now), SessionFilters(s.rows[id].payload);
    StripLinks(b, s.index, id, session);
    StripExact(b, s.index, id, session);
    forall k | k in linked && k in t.rows ensures CoveredRow(b, t, k) { CoveredRowStays(b, s, t, {id}, k); }
  }

  lemma {:induction false} DeleteEachCovered(b: Backend, s: State, listed: seq<Id>, now: string, linked: set<Id>)
    requires Covered(b, s, linked)
    ensures Covered(b, DeleteEach(b, s, listed, now), linked)
    decreases |listed|
  {
    hide Covered, DeleteMemory;
    if listed != [] && listed[0] in s.rows {
      DeleteCovered(b, s, listed[0], now, linked);
      DeleteEachCovered(b, DeleteMemory(b, s, listed[0], now), listed[1..], now, linked);
    }
  }

  lemma StepCovers(b: Backend, pick: set<Id> -> Id, s: State, op: Op, linked: set<Id>)
    requires KeyMatching(b, pick) && Covered(b, s, linked) && HistoryOk(b, s)
    ensures Covered(b, Step(b, s, op), linked + LinkedBy(b, s, op))
  {
    hide KeyMatching, Covered, AddRecords, NewRecords, Persist, CreateMemory, UpdateMemory, DeleteMemory, DeleteEach,
      RowOk, Told;
    assert linked + {} == linked;
    match op
    case AddInferred(ids, metadata, extracted, recalled, now) =>
      AddInferredCovered(b, pick, s, ids, metadata + ids, extracted, recalled, now, linked);
    case AddRaw(ids, metadata, messages) =>
      PersistCovered(b, s, RawRecords(b, messages, metadata + ids, s.index.next), linked);
    case AddProcedural(ids, metadata, summary, now) =>
      CreateCovered(b, s, (metadata + ids)[MemoryType := "procedural_memory"], summary, now, linked);
    case Update(id, data, metadata, now) =>
      if id in s.rows { UpdateCovered(b, pick, s, id, data, metadata, now, linked); }
    case Delete(id, now) => if id in s.rows { DeleteCovered(b, s, id, now, linked); }
    case DeleteAll(filters, listed, now) => DeleteEachCovered(b, s, listed, now, linked);
  }

  lemma {:induction false} RunCovers(b: Backend, pick: set<Id> -> Id, s: State, ops: seq<Op>, linked: set<Id>)
    requires KeyMatching(b, pick) && Covered(b, s, linked) && HistoryOk(b, s)
    ensures Covered(b, Run(b, s, ops), linked + Linked(b, s, ops))
    decreases |ops|
  {
    hide KeyMatching, Covered, HistoryOk, Step, LinkedBy;
    if ops == [] {
      assert linked + {} == linked;
    } else {
      var t, now := Step(b, s, ops[0]), LinkedBy(b, s, ops[0]);
      StepCovers(b, pick, s, ops[0], linked);
      StepKeepsHistory(b, s, ops[0]);
      RunCovers(b, pick, t, ops[1..], linked + now);
      assert linked + now + Linked(b, t, ops[1..]) == linked + Linked(b, s, ops);
    }
  }

  /** Over any run from empty stores, whatever the metadata and whatever fits a page: for every
      entity with a key in the current text of a live memory that was inferred or updated, a
      record with that key lists the memory. */
  lemma IndexIsComplete(b: Backend, pick: set<Id> -> Id, ops: seq<Op>, id: Id, mention: Mention)
    requires KeyMatching(b, pick)
    requires id in Linked(b, Empty, ops) && id in Run(b, Empty, ops).rows
    ensures var s := Run(b, Empty, ops);
            && Data in s.rows[id].payload
            && (mention in b.extract(s.rows[id].payload[Data]) && b.normalise(mention.text) != "" ==>
                  exists e :: Lists(s.index, e, id) && b.normalise(s.index.ents[e].data) == b.normalise(mention.text))
  {
    hide KeyMatching, Run, Linked;
    EmptyHistory(b);
    RunCovers(b, pick, Empty, ops, {});
    assert {} + Linked(b, Empty, ops) == Linked(b, Empty, ops) && CoveredRow(b, Run(b, Empty, ops), id);
  }
}
