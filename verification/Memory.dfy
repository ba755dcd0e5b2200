/** The `Memory` class: three stores updated in place, each method proved to take
    exactly the step its specification describes. */
module Memory {
  import opened Wrappers
  import opened Stores
  import opened EntityIndex
  import opened BatchLinking
  import opened MemoryState
  import opened MemoryHistory
  import opened MemoryIndex
  import opened EmbedBatch

  datatype Error = InvalidIds | NotFound | NoFilter

  /** One entry of the list `add` returns. */
  datatype Returned = Returned(id: Id, memory: string)

  lemma {:induction false} PersistAppend(s: State, records: seq<Record>, r: Record)
    ensures Persist(s, records + [r]) == PersistOne(Persist(s, records), r)
    decreases |records|
  {
    var all := records + [r];
    if records == [] {
      assert Persist(s, all) == Persist(Persist(s, all[..1]), all[1..]);
    } else {
      assert all[1..] == records[1..] + [r];
      PersistAppend(PersistOne(s, records[0]), records[1..], r);
    }
  }

  /** Persisting rows and events does not look at the entity index. */
  lemma {:induction false} PersistIgnoresIndex(s: State, x: Index, records: seq<Record>)
    ensures Persist(s.(index := x), records).rows == Persist(s, records).rows
    ensures Persist(s.(index := x), records).log == Persist(s, records).log
    ensures Persist(s, records).index == s.index.(next := s.index.next + |records|)
    decreases |records|
  {
    if records != [] {
      PersistIgnoresIndex(PersistOne(s, records[0]), x.(next := x.next + 1), records[1..]);
    }
  }

  /** What `add` returns for the records it stored. */
  function Report(records: seq<Record>): seq<Returned> {
    seq(|records|, i requires 0 <= i < |records| => Returned(records[i].id, records[i].text))
  }

  /** What is returned is what was stored: the returned ids are exactly the new rows, each
      listed once, with the text that the row holds. */
  lemma ReportedAreStored(b: Backend, s: State, records: seq<Record>, id: Id)
    requires forall m :: m in s.rows ==> m < s.index.next
    requires forall i :: 0 <= i < |records| ==> records[i].id == s.index.next + i && Storable(b, records[i])
    ensures var t, returned := Persist(s, records), Report(records);
            && (id in t.rows && id !in s.rows <==> exists i :: 0 <= i < |returned| && returned[i].id == id)
            && (forall i, j :: 0 <= i < j < |returned| ==> returned[i].id != returned[j].id)
            && forall i :: 0 <= i < |returned| && returned[i].id == id ==>
                 Get(t.rows[id].payload, Data) == Some(returned[i].memory)
  {
    hide Persist, RowOk;
    PersistExact(s, records);
    if id in Persist(s, records).rows && id !in s.rows {
      assert Report(records)[id - s.index.next].id == id;
    }
    forall i | 0 <= i < |records| ensures Get(records[i].payload, Data) == Some(records[i].text) {
      StorableText(b, records[i]);
    }
  }

  lemma StorableText(b: Backend, r: Record)
    requires Storable(b, r)
    ensures Get(r.payload, Data) == Some(r.text)
  {
  }

  /** Cleaning one more row. */
  lemma StripRowsStep(before: map<Id, Entity>, done: set<Id>, id: Id, m: Id)
    requires id in before && id !in done
    ensures var ents := StripRows(before, done, m);
            && id in ents && ents[id] == before[id]
            && StripRows(before, done + {id}, m) ==
                 match Stripped(before[id], m)
                 case None => ents - {id}
                 case Some(e) => ents[id := e]
  {
  }

  lemma OccurrencesSplit(b: Backend, done: seq<Occurrence>, records: seq<Record>, i: nat)
    requires i < |records|
    ensures done + Occurrences(b, records[i..])
         == done + OccurrencesIn(b.extract(records[i].text), records[i].id) + Occurrences(b, records[i + 1..])
  {
    assert records[i..][1..] == records[i + 1..];
  }

  lemma BuildRecordsSplit(b: Backend, done: seq<Record>, mems: seq<Extracted>, i: nat, embedMap: map<string, Vector>,
                          existing: set<string>, seen: set<string>, metadata: Payload, now: string, next: Id)
    requires i < |mems|
    ensures var mem := mems[i];
            var h := b.md5(mem.text);
            done + BuildRecords(b, mems[i..], embedMap, existing, seen, metadata, now, next) ==
              if mem.text == "" || mem.text !in embedMap || h in existing || h in seen
              then done + BuildRecords(b, mems[i + 1..], embedMap, existing, seen, metadata, now, next)
              else done + [Record(next, mem.text, embedMap[mem.text], ExtractedPayload(b, metadata, mem, now))]
                   + BuildRecords(b, mems[i + 1..], embedMap, existing, seen + {h}, metadata, now, next + 1)
  {
  }

  /** Rewriting an old record and inserting a new one commute. */
  lemma PendingInsert(ents: map<Id, Entity>, pending: map<Id, Entity>, id: Id, e: Entity)
    ensures ents + pending[id := e] == (ents + pending)[id := e]
    ensures id !in pending ==> ents[id := e] + pending == (ents + pending)[id := e]
  {
  }

  lemma DeleteRows(b: Backend, s: State, id: Id, now: string)
    requires id in s.rows
    ensures DeleteMemory(b, s, id, now).rows == s.rows - {id}
  {
  }

  /** Every listed memory is there when its turn comes. */
  predicate AllThere(rows: map<Id, Row>, listed: seq<Id>)
    decreases |listed|
  {
    listed == [] || (listed[0] in rows && AllThere(rows - {listed[0]}, listed[1..]))
  }

  lemma {:induction false} AllThereIff(rows: map<Id, Row>, listed: seq<Id>)
    ensures AllThere(rows, listed) <==> NoDup(listed) && forall id :: id in listed ==> id in rows
    decreases |listed|
  {
    if listed != [] {
      var rest := listed[1..];
      AllThereIff(rows - {listed[0]}, rest);
      assert forall id :: id in listed <==> id == listed[0] || id in rest;
      assert NoDup(listed) <==> NoDup(rest) && listed[0] !in rest by { NoDupCons(listed); }
    }
  }

  lemma NoDupCons(listed: seq<Id>)
    requires listed != []
    ensures NoDup(listed) <==> NoDup(listed[1..]) && listed[0] !in listed[1..]
  {
  }

  class Memory {
    const b: Backend
    var rows: map<Id, Row>
    var ents: map<Id, Entity>
    var entOpen: bool
    var log: seq<Event>
    var next: Id

    ghost function Entities(): Index
      reads this
    {
      Index(ents, next, entOpen)
    }

    ghost function Model(): State
      reads this
    {
      State(rows, Entities(), log)
    }

    /** No uuid is handed out twice. */
    ghost predicate Valid()
      reads this
    {
      forall id :: id in ents ==> id < next
    }

    constructor (b: Backend)
      ensures this.b == b && Model() == Empty && Valid()
    {
      this.b := b;
      rows, ents, entOpen, log, next := map[], map[], false, [], 0;
    }

    // ---------- the entity store ----------

    /** `_upsert_entity` */
    method UpsertEntity(mention: Mention, m: Id, filters: Filter)
      requires Valid()
      modifies this`ents, this`entOpen, this`next
      ensures Valid() && Entities() == Upsert(b, old(Entities()), mention, m, filters)
    {
      var scope := ScopeFilters(filters);
      entOpen := true;
      var existing := Search(b, ents, mention.text, scope);
      if existing.Some? && existing.value.score >= MATCH_SCORE {
        var e := ents[existing.value.id];
        if m !in e.links {
          ents := ents[existing.value.id := e.(links := e.links + [m])];
        }
      } else {
        ents := ents[next := Entity(mention.text, mention.kind, scope, [m])];
        next := next + 1;
      }
    }

    /** `_remove_memory_from_entity_store` */
    method RemoveMemoryFromEntityStore(m: Id, filters: Filter)
      requires Valid()
      modifies this`ents
      ensures Valid() && Entities() == Strip(b, old(Entities()), m, filters)
    {
      if !entOpen { return; }
      var todo := Listed(b, ents, ScopeFilters(filters));
      ghost var all := todo;
      ghost var before := ents;
      while todo != {}
        invariant todo <= all && all <= before.Keys
        invariant ents == StripRows(before, all - todo, m)
        decreases |todo|
      {
        var id :| id in todo;
        StripRowsStep(before, all - todo, id, m);
        var e := ents[id];
        assert all - (todo - {id}) == (all - todo) + {id};
        if m in e.links {
          var remaining := Without(e.links, m);
          if remaining == [] {
            ents := ents - {id};
          } else if e.data != "" {
            ents := ents[id := e.(links := remaining)];
          }
        }
        todo := todo - {id};
      }
      assert all - todo == all;
    }

    /** `_link_entities_for_memory` */
    method LinkEntitiesForMemory(m: Id, text: string, filters: Filter)
      requires Valid()
      modifies this`ents, this`entOpen, this`next
      ensures Valid() && Entities() == LinkAll(b, old(Entities()), b.extract(text), {}, m, filters)
    {
      var mentions := b.extract(text);
      var seen: set<string> := {};
      var i := 0;
      assert mentions[0..] == mentions;
      while i < |mentions|
        invariant 0 <= i <= |mentions| && Valid()
        invariant LinkAll(b, Entities(), mentions[i..], seen, m, filters)
               == LinkAll(b, old(Entities()), mentions, {}, m, filters)
      {
        var key := b.normalise(mentions[i].text);
        assert mentions[i..][1..] == mentions[i + 1..];
        if key != "" && key !in seen {
          seen := seen + {key};
          UpsertEntity(mentions[i], m, filters);
        }
        i := i + 1;
      }
    }
  
    /** The entities of one record join the groups so far. */
    method GroupMentions(soFar: seq<Group>, ghost before: seq<Occurrence>, mentions: seq<Mention>, m: Id)
      returns (groups: seq<Group>)
      requires soFar == GroupAll(b, before)
      ensures groups == GroupAll(b, before + OccurrencesIn(mentions, m))
    {
      hide IndexOfKey;
      groups := soFar;
      ghost var occs := before + OccurrencesIn(mentions, m);
      ghost var n := |before|;
      assert occs[..n] == before;
      var j := 0;
      while j < |mentions|
        invariant 0 <= j <= |mentions|
        invariant groups == GroupAll(b, occs[..n + j])
      {
        var key := b.normalise(mentions[j].text);
        var k := IndexOfKey(groups, key);
        assert occs[..n + j + 1][..n + j] == occs[..n + j];
        assert occs[n + j] == Occurrence(mentions[j], m);
        if k < |groups| {
          groups := groups[k := groups[k].(ids := groups[k].ids + {m})];
        } else {
          groups := groups + [Group(key, mentions[j].kind, mentions[j].text, {m})];
        }
        j := j + 1;
      }
      assert occs[..n + j] == occs;
    }

    /** Phase 7a: one group per key over every entity of every record. */
    method GroupEntities(records: seq<Record>) returns (groups: seq<Group>)
      ensures groups == GroupAll(b, Occurrences(b, records))
    {
      groups := [];
      ghost var done: seq<Occurrence> := [];
      var i := 0;
      assert records[0..] == records;
      while i < |records|
        invariant 0 <= i <= |records|
        invariant groups == GroupAll(b, done)
        invariant done + Occurrences(b, records[i..]) == Occurrences(b, records)
      {
        var mentions := b.extract(records[i].text);
        groups := GroupMentions(groups, done, mentions, records[i].id);
        OccurrencesSplit(b, done, records, i);
        done := done + OccurrencesIn(mentions, records[i].id);
        i := i + 1;
      }
      assert done == done + [] == Occurrences(b, records);
    }

    /** Phases 7c-7e: search once, rewrite the matches, insert the rest together. */
    method ApplyBatch(groups: seq<Group>, filters: Filter)
      requires Valid()
      modifies this`ents, this`next
      ensures Valid() && Entities() == ApplyGroups(b, old(ents), old(Entities()), groups, ScopeFilters(filters))
    {
      hide Search, Sorted, LinkSet;
      var scope := ScopeFilters(filters);
      var snapshot := ents;
      var matches := seq(|groups|, i requires 0 <= i < |groups| => Search(b, snapshot, groups[i].text, scope));
      var toInsert: map<Id, Entity> := map[];
      var j := 0;
      while j < |groups|
        invariant 0 <= j <= |groups| && old(next) <= next
        invariant ents.Keys == snapshot.Keys && forall id :: id in toInsert ==> old(next) <= id < next
        invariant Index(ents + toInsert, next, entOpen) == ApplyGroups(b, snapshot, old(Entities()), groups[..j], scope)
      {
        var g := groups[j];
        assert groups[..j + 1][..j] == groups[..j];
        if matches[j].Some? && matches[j].value.score >= MATCH_SCORE {
          var id := matches[j].value.id;
          var payload := snapshot[id];
          PendingInsert(ents, toInsert, id, payload.(links := Sorted(LinkSet(payload.links) + g.ids)));
          ents := ents[id := payload.(links := Sorted(LinkSet(payload.links) + g.ids))];
        } else {
          PendingInsert(ents, toInsert, next, Entity(g.text, g.kind, scope, Sorted(g.ids)));
          toInsert := toInsert[next := Entity(g.text, g.kind, scope, Sorted(g.ids))];
          next := next + 1;
        }
        j := j + 1;
      }
      assert groups[..j] == groups;
      ents := ents + toInsert;
    }

    /** Phase 7 */
    method LinkRecords(records: seq<Record>, filters: Filter)
      requires Valid()
      modifies this`ents, this`next, this`entOpen
      ensures Valid() && Entities() == LinkBatch(b, old(Entities()), Occurrences(b, records), filters)
    {
      var groups := GroupEntities(records);
      if groups != [] {
        entOpen := true;
        ApplyBatch(groups, filters);
      }
    }
  
    // ---------- adding ----------

    /** Phase 3: the vectors of the distinct non-empty texts. */
    method EmbedTexts(extracted: seq<Extracted>) returns (embedMap: map<string, Vector>)
      requires FaithfulApi(b)
      ensures embedMap == EmbedMap(b, extracted)
    {
      var texts := [];
      var i := 0;
      while i < |extracted|
        invariant 0 <= i <= |extracted|
        invariant forall t :: t in texts <==> t != "" && exists k :: 0 <= k < i && extracted[k].text == t
      {
        if extracted[i].text != "" { texts := texts + [extracted[i].text]; }
        i := i + 1;
      }
      var vectors := BatchVectors(b, texts);
      embedMap := map[];
      i := 0;
      while i < |texts|
        invariant 0 <= i <= |texts|
        invariant forall t :: t in embedMap <==> exists k :: 0 <= k < i && texts[k] == t
        invariant forall t :: t in embedMap ==> embedMap[t] == Embed(b, t)
      {
        embedMap := embedMap[texts[i] := vectors[i]];
        i := i + 1;
      }
      assert forall t :: t in embedMap <==> t in texts;
    }

    /** Phases 4-5: skip what cannot be embedded and what is a duplicate. */
    method TakeRecords(extracted: seq<Extracted>, embedMap: map<string, Vector>, existing: set<string>,
          metadata: Payload, now: string)
      returns (records: seq<Record>)
      modifies this`next
      ensures records == BuildRecords(b, extracted, embedMap, existing, {}, metadata, now, old(next))
      ensures next == old(next) + |records|
    {
      hide BuildRecords, ExtractedPayload;
      records := [];
      var seen: set<string> := {};
      var i := 0;
      ghost var all := BuildRecords(b, extracted, embedMap, existing, {}, metadata, now, next);
      assert extracted[0..] == extracted && records + all == all;
      while i < |extracted|
        invariant 0 <= i <= |extracted| && next == old(next) + |records|
        invariant records + BuildRecords(b, extracted[i..], embedMap, existing, seen, metadata, now, next) == all
      {
        var mem := extracted[i];
        BuildRecordsSplit(b, records, extracted, i, embedMap, existing, seen, metadata, now, next);
        i := i + 1;
        if mem.text == "" || mem.text !in embedMap { continue; }
        var h := b.md5(mem.text);
        if h in existing || h in seen { continue; }
        seen := seen + {h};
        records := records + [Record(next, mem.text, embedMap[mem.text], ExtractedPayload(b, metadata, mem, now))];
        next := next + 1;
      }
    }

    /** Phase 6: one batch insert and one batch of ADD events. */
    method PersistRecords(records: seq<Record>)
      modifies this`rows, this`log
      ensures rows == Persist(old(Model()), records).rows && log == Persist(old(Model()), records).log
    {
      ghost var s := Model();
      var i := 0;
      while i < |records|
        invariant 0 <= i <= |records|
        invariant rows == Persist(s, records[..i]).rows && log == Persist(s, records[..i]).log
      {
        var r := records[i];
        PersistAppend(s, records[..i], r);
        assert records[..i + 1] == records[..i] + [r];
        rows := rows[r.id := Row(r.vector, r.payload)];
        log := log + [AddEvent(r)];
        i := i + 1;
      }
      assert records[..i] == records;
    }

    /** Phases 4 to 6 */
    method StoreNewRecords(extracted: seq<Extracted>, embedMap: map<string, Vector>, existing: set<string>,
          metadata: Payload, now: string) returns (records: seq<Record>)
      requires Valid()
      modifies this`next, this`rows, this`log
      ensures Valid() && records == BuildRecords(b, extracted, embedMap, existing, {}, metadata, now, old(next))
      ensures Model() == Persist(old(Model()), records)
    {
      ghost var s := Model();
      records := TakeRecords(extracted, embedMap, existing, metadata, now);
      PersistIgnoresIndex(s, Entities(), records);
      PersistRecords(records);
    }

    /** The hashes of the memories Phase 1 recalled. */
    method HashesOf(recalled: set<Id>) returns (existing: set<string>)
      ensures existing == RecalledHashes(Model(), recalled)
    {
      existing := {};
      var todo := recalled;
      while todo != {}
        invariant todo <= recalled
        invariant existing == RecalledHashes(Model(), recalled - todo)
        decreases |todo|
      {
        var id :| id in todo;
        if id in rows {
          var payload := rows[id].payload;
          if Hash in payload && payload[Hash] != "" { existing := existing + {payload[Hash]}; }
        }
        todo := todo - {id};
      }
      assert recalled - todo == recalled;
    }

    /** `add` with inference: Phases 3 to 7 over the extraction response. */
    method AddInferred(ids: Filter, metadata: Payload, extracted: seq<Extracted>, recalled: set<Id>, now: string)
      returns (result: Result<seq<Returned>, Error>)
      requires Valid() && FaithfulApi(b)
      modifies this
      ensures Valid() && Model() == Step(b, old(Model()), Op.AddInferred(ids, metadata, extracted, recalled, now))
      ensures result == if !ValidIds(ids) then Err(InvalidIds)
                        else Ok(Report(NewRecords(b, old(Model()), metadata + ids, extracted, recalled, now)))
    {
      if !ValidIds(ids) { return Err(InvalidIds); }
      var existing := HashesOf(recalled);
      var embedMap := EmbedTexts(extracted);
      var records := StoreNewRecords(extracted, embedMap, existing, metadata + ids, now);
      LinkRecords(records, ids);
      result := Ok(Report(records));
    }

    /** The messages raw mode keeps. */
    method KeepUsable(messages: seq<Message>, now: string) returns (valid: seq<RawMessage>)
      ensures valid == Usable(messages, now)
    {
      valid := [];
      var i := 0;
      assert messages[0..] == messages;
      while i < |messages|
        invariant 0 <= i <= |messages|
        invariant valid + Usable(messages[i..], now) == Usable(messages, now)
      {
        var m := messages[i];
        assert messages[i..][1..] == messages[i + 1..];
        i := i + 1;
        if m.role.None? || m.content.None? { continue; }
        if m.role.value == "system" { continue; }
        valid := valid + [RawMessage(m.content.value, m.role.value, m.name, now)];
      }
    }

    method TakeRawRecords(valid: seq<RawMessage>, template: Payload) returns (records: seq<Record>)
      requires FaithfulApi(b)
      modifies this`next
      ensures records == RawRecords(b, valid, template, old(next)) && next == old(next) + |records|
    {
      hide RawPayload, Embed, FaithfulApi;
      var vectors := BatchVectors(b, seq(|valid|, k requires 0 <= k < |valid| => valid[k].content));
      records := [];
      var i := 0;
      while i < |valid|
        invariant 0 <= i <= |valid| && |records| == i && next == old(next) + i
        invariant forall k :: 0 <= k < i ==> records[k] == RawRecord(b, valid[k], template, old(next) + k)
      {
        records := records + [Record(next, valid[i].content, vectors[i], RawPayload(b, template, valid[i]))];
        next := next + 1;
        i := i + 1;
      }
    }

    /** `add` without inference: every usable message becomes a memory. */
    method AddRaw(ids: Filter, metadata: Payload, messages: seq<Message>, now: string)
      returns (result: Result<seq<Returned>, Error>)
      requires Valid() && FaithfulApi(b)
      modifies this
      ensures Valid() && Model() == Step(b, old(Model()), Op.AddRaw(ids, metadata, Usable(messages, now)))
      ensures result == if !ValidIds(ids) then Err(InvalidIds)
                        else Ok(Report(RawRecords(b, Usable(messages, now), metadata + ids, old(next))))
    {
      if !ValidIds(ids) { return Err(InvalidIds); }
      ghost var s := Model();
      var valid := KeepUsable(messages, now);
      var records := TakeRawRecords(valid, metadata + ids);
      PersistIgnoresIndex(s, Entities(), records);
      PersistRecords(records);
      result := Ok(Report(records));
    }

    /** `_create_procedural_memory`, given the model's summary. */
    method AddProcedural(ids: Filter, metadata: Payload, summary: string, now: string)
      returns (result: Result<seq<Returned>, Error>)
      requires Valid()
      modifies this
      ensures Valid() && Model() == Step(b, old(Model()), Op.AddProcedural(ids, metadata, summary, now))
      ensures result == if ValidIds(ids) then Ok([Returned(old(next), summary)]) else Err(InvalidIds)
    {
      if !ValidIds(ids) { return Err(InvalidIds); }
      var p := NewPayload(b, (metadata + ids)[MemoryType := "procedural_memory"], summary, now);
      var id := next;
      next := next + 1;
      rows := rows[id := Row(Embed(b, summary), p)];
      log := log + [Event(id, None, Some(summary), Added, Get(p, CreatedAt), Get(p, UpdatedAt), false, Get(p, ActorId),
        Get(p, Role))];
      result := Ok([Returned(id, summary)]);
    }

    // ---------- updating and deleting ----------

    /** `_update_memory` */
    method Update(id: Id, data: string, metadata: Payload, now: string) returns (result: Result<Id, Error>)
      requires Valid()
      modifies this
      ensures Valid() && Model() == Step(b, old(Model()), Op.Update(id, data, metadata, now))
      ensures result == if id in old(rows) then Ok(id) else Err(NotFound)
    {
      if id !in rows { return Err(NotFound); }
      var payload := rows[id].payload;
      var p := UpdatedPayload(b, payload, metadata, data, now);
      rows := rows[id := Row(Embed(b, data), p)];
      log := log + [Event(id, Get(payload, Data), Some(data), Updated, Get(p, CreatedAt), Some(now), false,
        Get(p, ActorId), Get(p, Role))];
      var session := SessionFilters(p);
      RemoveMemoryFromEntityStore(id, session);
      LinkEntitiesForMemory(id, data, session);
      result := Ok(id);
    }

    /** `_delete_memory` */
    method Delete(id: Id, now: string) returns (result: Result<Id, Error>)
      requires Valid()
      modifies this
      ensures Valid() && Model() == Step(b, old(Model()), Op.Delete(id, now))
      ensures result == if id in old(rows) then Ok(id) else Err(NotFound)
    {
      if id !in rows { return Err(NotFound); }
      var p := rows[id].payload;
      var prev := if Data in p then p[Data] else "";
      var created := if CreatedAt in p then Some(b.toUtc(p[CreatedAt])) else None;
      rows := rows - {id};
      log := log + [Event(id, Some(prev), None, Deleted, created, Some(now), true, Get(p, ActorId), Get(p, Role))];
      RemoveMemoryFromEntityStore(id, SessionFilters(p));
      result := Ok(id);
    }

    /** `delete_all` over the rows the vector store listed. */
    method DeleteAll(filters: Filter, listed: seq<Id>, now: string) returns (result: Result<nat, Error>)
      requires Valid()
      modifies this
      ensures Valid() && Model() == Step(b, old(Model()), Op.DeleteAll(filters, listed, now))
      ensures result == if filters == map[] then Err(NoFilter)
                        else if AllThere(old(rows), listed) then Ok(|listed|) else Err(NotFound)
    {
      hide Strip, DeleteMemory;
      if filters == map[] { return Err(NoFilter); }
      var i := 0;
      assert listed[0..] == listed;
      while i < |listed|
        invariant 0 <= i <= |listed| && Valid()
        invariant DeleteEach(b, Model(), listed[i..], now) == DeleteEach(b, old(Model()), listed, now)
        invariant AllThere(rows, listed[i..]) <==> AllThere(old(rows), listed)
      {
        assert listed[i..][0] == listed[i] && listed[i..][1..] == listed[i + 1..];
        if listed[i] !in rows { return Err(NotFound); }
        DeleteRows(b, Model(), listed[i], now);
        var _ := Delete(listed[i], now);
        i := i + 1;
      }
      result := Ok(|listed|);
    }
  }
}
