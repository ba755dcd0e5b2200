/** The entity index only names live memories, over every admissible run. */
module MemoryIndex {
  import opened Stores
  import opened EntityIndex
  import opened BatchLinking
  import opened MemoryState
  import opened MemoryHistory
  import opened Sets

  // ---------- the invariant ----------

  function Sessions(rows: map<Id, Row>): map<Id, Filter> {
    map id | id in rows :: SessionFilters(rows[id].payload)
  }

  ghost predicate Inv(s: State) {
    IndexOk(s.index, Sessions(s.rows)) && forall id :: id in s.rows ==> id < s.index.next
  }

  /** The extractor never reports an empty text (it drops texts of two characters or fewer). */
  ghost predicate CleanExtractor(b: Backend) {
    forall t: string, m :: m in b.extract(t) ==> m.text != ""
  }

  ghost predicate Fits(x: Index, filters: Filter) {
    |InScope(x.ents, ScopeFilters(filters))| <= 10_000
  }

  /** Every record that lists the memory is in scope for the given session. */
  ghost predicate RecordsFollow(x: Index, id: Id, session: Filter) {
    forall e :: Lists(x, e, id) ==> Matches(session, x.ents[e].scope)
  }

  function NewSession(b: Backend, s: State, id: Id, data: string, metadata: Payload, now: string): Filter
    requires id in s.rows
  {
    SessionFilters(UpdatedPayload(b, s.rows[id].payload, metadata, data, now))
  }

  /** Each entity of the new memories ends up in a record in scope for the session that they
      store: one in scope for `ids` that it resolves to, or a new one scoped to `ids`. */
  ghost predicate RecordsAccept(b: Backend, x: Index, ids: Filter, session: Filter, records: seq<Record>) {
    GroupsFollow(b, x.ents, GroupAll(b, Occurrences(b, records)), ScopeFilters(ids), session)
  }

  /** The calls the guarantee covers: an add whose entities end up in records of the session it
      stores, an update that does not move a memory out of reach of the records listing it, and
      a deletion whose entity listing fits one page. */
  ghost predicate Admissible(b: Backend, s: State, op: Op) {
    match op
    case AddInferred(ids, metadata, extracted, recalled, now) =>
      ValidIds(ids) ==>
        RecordsAccept(b, s.index, ids, SessionFilters(metadata + ids),
                      NewRecords(b, s, metadata + ids, extracted, recalled, now))
    case AddRaw(ids, metadata, messages) => true
    case AddProcedural(ids, metadata, summary, now) => true
    case Update(id, data, metadata, now) =>
      id in s.rows ==> RecordsFollow(s.index, id, NewSession(b, s, id, data, metadata, now))
    case Delete(id, now) => id in s.rows ==> Fits(s.index, SessionFilters(s.rows[id].payload))
    case DeleteAll(filters, listed, now) =>
      forall id :: id in listed && id in s.rows ==> Fits(s.index, SessionFilters(s.rows[id].payload))
  }

  lemma ScopeOfSession(p: Payload)
    ensures ScopeFilters(SessionFilters(p)) == SessionFilters(p)
  {
  }

  // ---------- adding memories ----------

  lemma SessionsPut(rows: map<Id, Row>, id: Id, r: Row)
    ensures Sessions(rows[id := r]) == Sessions(rows)[id := SessionFilters(r.payload)]
  {
  }

  lemma AddRowIndex(x: Index, rows: map<Id, Row>, id: Id, r: Row)
    requires IndexOk(x, Sessions(rows)) && id !in rows
    ensures IndexOk(x.(next := x.next + 1), Sessions(rows[id := r]))
  {
    SessionsPut(rows, id, r);
    IndexOkExtends(x, Sessions(rows), Sessions(rows[id := r]));
  }

  lemma {:induction false} PersistKeeps(s: State, records: seq<Record>)
    requires Inv(s) && forall i :: 0 <= i < |records| ==> records[i].id == s.index.next + i
    ensures Inv(Persist(s, records))
    decreases |records|
  {
    hide IndexOk;
    if records != [] {
      AddRowIndex(s.index, s.rows, records[0].id, Row(records[0].vector, records[0].payload));
      PersistKeeps(PersistOne(s, records[0]), records[1..]);
    }
  }

  /** It adds exactly those rows. */
  lemma {:induction false} PersistExact(s: State, records: seq<Record>)
    requires forall i :: 0 <= i < |records| ==> records[i].id == s.index.next + i
    ensures var t := Persist(s, records);
            && t.index == s.index.(next := s.index.next + |records|)
            && (forall id :: id < s.index.next ==> (id in t.rows <==> id in s.rows))
            && (forall id :: id in s.rows && id < s.index.next ==> t.rows[id] == s.rows[id])
            && (forall id :: id in t.rows && id !in s.rows ==> s.index.next <= id < s.index.next + |records|)
            && (forall i :: 0 <= i < |records| ==>
                  records[i].id in t.rows && t.rows[records[i].id] == Row(records[i].vector, records[i].payload))
    decreases |records|
  {
    if records != [] {
      var u, rest := PersistOne(s, records[0]), records[1..];
      PersistExact(u, rest);
      forall i | 0 <= i < |records|
        ensures records[i].id in Persist(s, records).rows
        ensures Persist(s, records).rows[records[i].id] == Row(records[i].vector, records[i].payload)
      {
        if i > 0 { assert rest[i - 1] == records[i]; }
      }
    }
  }

  lemma {:induction false} OccurrencesOf(b: Backend, records: seq<Record>)
    requires CleanExtractor(b)
    ensures forall o :: o in Occurrences(b, records) ==>
              o.mention.text != "" && exists r :: r in records && r.id == o.memory
    decreases |records|
  {
    if records != [] {
      OccurrencesOf(b, records[1..]);
      forall o | o in Occurrences(b, records)
        ensures o.mention.text != "" && exists r :: r in records && r.id == o.memory
      {
        if o in Occurrences(b, records[1..]) {
          var r :| r in records[1..] && r.id == o.memory;
          assert r in records;
        } else {
          assert records[0] in records && o.mention in b.extract(records[0].text);
        }
      }
    }
  }

  lemma LinkRecordsKeepsIff(b: Backend, t: State, records: seq<Record>, ids: Filter, session: Filter)
    requires CleanExtractor(b) && Inv(t)
    requires forall i :: 0 <= i < |records| ==>
               records[i].id in t.rows && SessionFilters(t.rows[records[i].id].payload) == session
    ensures Inv(t.(index := LinkBatch(b, t.index, Occurrences(b, records), ids)))
       <==> RecordsAccept(b, t.index, ids, session, records)
  {
    hide IndexOk, LinkBatch, CleanExtractor, SessionFilters, ScopeFilters, GroupsFollow;
    var occs := Occurrences(b, records);
    var mems := set i | 0 <= i < |records| :: records[i].id;
    OccurrencesOf(b, records);
    LinkBatchKeepsIff(b, t.index, occs, ids, Sessions(t.rows), mems, session);
    LinkBatchNext(b, t.index, occs, ids);
  }

  /** An add, whatever session ids its metadata sets, keeps the invariant iff each entity ends
      up in a record in scope for the session that is stored. */
  lemma AddKeepsIff(b: Backend, s: State, ids: Filter, metadata: Payload, extracted: seq<Extracted>,
        recalled: set<Id>, now: string)
    requires CleanExtractor(b) && Inv(s)
    ensures var records := NewRecords(b, s, metadata + ids, extracted, recalled, now);
            Inv(AddRecords(b, s, ids, records)) <==>
              RecordsAccept(b, s.index, ids, SessionFilters(metadata + ids), records)
  {
    hide Inv, CleanExtractor, SessionFilters, RowOk, EmbedMap, LinkBatch, GroupsFollow;
    var records := NewRecords(b, s, metadata + ids, extracted, recalled, now);
    EmbedMapOk(b, extracted);
    BuildRecordsSound(b, extracted, EmbedMap(b, extracted), RecalledHashes(s, recalled), {}, metadata + ids, now,
      s.index.next);
    PersistKeeps(s, records);
    PersistExact(s, records);
    LinkRecordsKeepsIff(b, Persist(s, records), records, ids, SessionFilters(metadata + ids));
  }

  /** Metadata overlaid with the ids names at least the session of the ids. */
  lemma SessionOfOverlay(ids: Filter, metadata: Payload)
    ensures Matches(SessionFilters(metadata + ids), ScopeFilters(ids))
       <==> SessionFilters(metadata + ids) == SessionFilters(ids)
  {
    var session := SessionFilters(metadata + ids);
    forall k | k in SessionFilters(ids) ensures k in session && session[k] == SessionFilters(ids)[k] { }
    if Matches(session, ScopeFilters(ids)) {
      forall k | k in session ensures k in SessionFilters(ids) && session[k] == SessionFilters(ids)[k] { }
    }
  }

  /** An add whose metadata changes no session id is always accepted. */
  lemma SameSessionAccepts(b: Backend, x: Index, ids: Filter, metadata: Payload, records: seq<Record>)
    requires SessionFilters(metadata + ids) == SessionFilters(ids)
    ensures RecordsAccept(b, x, ids, SessionFilters(metadata + ids), records)
  {
    SessionOfOverlay(ids, metadata);
    ScopeFollows(b, x.ents, GroupAll(b, Occurrences(b, records)), ScopeFilters(ids), SessionFilters(metadata + ids));
  }

  /** And while there are no entity records, an add that names an entity keeps the invariant in
      no other case. */
  lemma FirstAddKeepsIff(b: Backend, s: State, ids: Filter, metadata: Payload, extracted: seq<Extracted>,
        recalled: set<Id>, now: string)
    requires CleanExtractor(b) && Inv(s) && s.index.ents == map[]
    requires Occurrences(b, NewRecords(b, s, metadata + ids, extracted, recalled, now)) != []
    ensures Inv(AddRecords(b, s, ids, NewRecords(b, s, metadata + ids, extracted, recalled, now)))
       <==> SessionFilters(metadata + ids) == SessionFilters(ids)
  {
    hide Inv, CleanExtractor, Matches, SessionFilters, ScopeFilters, AddRecords, NewRecords;
    var records := NewRecords(b, s, metadata + ids, extracted, recalled, now);
    var groups := GroupAll(b, Occurrences(b, records));
    AddKeepsIff(b, s, ids, metadata, extracted, recalled, now);
    SessionOfOverlay(ids, metadata);
    assert groups[0] in groups && GroupScope(b, s.index.ents, groups[0], ScopeFilters(ids)) == ScopeFilters(ids);
    if SessionFilters(metadata + ids) == SessionFilters(ids) {
      SameSessionAccepts(b, s.index, ids, metadata, records);
    }
  }

  lemma CreateKeeps(b: Backend, s: State, metadata: Payload, data: string, now: string)
    requires Inv(s)
    ensures Inv(CreateMemory(b, s, metadata, data, now))
  {
    hide IndexOk, NewPayload, Embed;
    AddRowIndex(s.index, s.rows, s.index.next, Row(Embed(b, data), NewPayload(b, metadata, data, now)));
  }

  // ---------- updating and deleting ----------

  /** Cleanup under a session that all records listing the memory follow, whether or not the
      listing fits one page. */
  lemma StripFollows(b: Backend, x: Index, sess: map<Id, Filter>, id: Id, session: Filter)
    requires IndexOk(x, sess) && RecordsFollow(x, id, session)
    ensures IndexOk(Strip(b, x, id, session), sess[id := session])
  {
    var y := Strip(b, x, id, session);
    StripExact(b, x, id, session);
    forall e | e in y.ents ensures EntityOk(y.ents[e], sess[id := session]) {
      assert EntityOk(x.ents[e], sess);
      WithoutKeepsNoDup(x.ents[e].links, id);
      forall m | m in y.ents[e].links
        ensures m in sess[id := session] && Matches(sess[id := session][m], y.ents[e].scope)
      {
        assert Lists(y, e, m) && Lists(x, e, m);
      }
    }
  }

  lemma RelinkKeeps(b: Backend, x: Index, sess: map<Id, Filter>, id: Id, session: Filter, data: string)
    requires CleanExtractor(b) && IndexOk(x, sess) && ScopeFilters(session) == session && RecordsFollow(x, id, session)
    ensures IndexOk(LinkAll(b, Strip(b, x, id, session), b.extract(data), {}, id, session), sess[id := session])
  {
    hide IndexOk, Strip, LinkAll;
    StripFollows(b, x, sess, id, session);
    LinkAllKeeps(b, Strip(b, x, id, session), b.extract(data), {}, id, session, sess[id := session]);
  }

  /** A record that does not follow keeps its link through cleanup and relinking. */
  lemma LostLinkStays(b: Backend, x: Index, id: Id, e: Id, session: Filter, data: string)
    requires Lists(x, e, id) && !Matches(session, x.ents[e].scope) && ScopeFilters(session) == session
    requires forall k :: k in x.ents ==> k < x.next
    ensures var y := LinkAll(b, Strip(b, x, id, session), b.extract(data), {}, id, session);
            Lists(y, e, id) && y.ents[e].scope == x.ents[e].scope
  {
    hide Strip, LinkAll, Listed;
    var y := Strip(b, x, id, session);
    assert e !in Listed(b, x.ents, ScopeFilters(session));
    StripExact(b, x, id, session);
    LinkAllExact(b, y, b.extract(data), {}, id, session);
  }

  /** Cleaning up and relinking under a new session keeps a sound index sound iff every record
      listing the memory is in scope for that session. */
  lemma RelinkKeepsIff(b: Backend, x: Index, sess: map<Id, Filter>, id: Id, session: Filter, data: string)
    requires CleanExtractor(b) && IndexOk(x, sess) && ScopeFilters(session) == session
    ensures IndexOk(LinkAll(b, Strip(b, x, id, session), b.extract(data), {}, id, session), sess[id := session])
       <==> RecordsFollow(x, id, session)
  {
    hide Strip, LinkAll, CleanExtractor;
    var y := LinkAll(b, Strip(b, x, id, session), b.extract(data), {}, id, session);
    if RecordsFollow(x, id, session) {
      RelinkKeeps(b, x, sess, id, session, data);
    } else {
      var e :| Lists(x, e, id) && !Matches(session, x.ents[e].scope);
      LostLinkStays(b, x, id, e, session, data);
      assert !EntityOk(y.ents[e], sess[id := session]);
    }
  }

  /** So an update keeps the invariant iff it leaves the memory in reach of the records that
      list it: naming another user or a further id fails, dropping an id does not. */
  lemma UpdateKeepsIff(b: Backend, s: State, id: Id, data: string, metadata: Payload, now: string)
    requires CleanExtractor(b) && Inv(s) && id in s.rows
    ensures Inv(UpdateMemory(b, s, id, data, metadata, now))
       <==> RecordsFollow(s.index, id, NewSession(b, s, id, data, metadata, now))
  {
    hide IndexOk, LinkAll, Strip, UpdatedPayload, SessionFilters, CleanExtractor, RecordsFollow;
    var session, t := NewSession(b, s, id, data, metadata, now), UpdateMemory(b, s, id, data, metadata, now);
    ScopeOfSession(UpdatedPayload(b, s.rows[id].payload, metadata, data, now));
    RelinkKeepsIff(b, s.index, Sessions(s.rows), id, session, data);
    SessionsPut(s.rows, id, t.rows[id]);
    StripExact(b, s.index, id, session);
    LinkAllNext(b, Strip(b, s.index, id, session), b.extract(data), {}, id, session);
  }

  lemma SessionsRemove(rows: map<Id, Row>, id: Id)
    ensures Sessions(rows - {id}) == Sessions(rows) - {id}
  {
  }

  /** A sound record listing a memory is in that memory's session. */
  lemma ListedInSession(x: Index, rows: map<Id, Row>, id: Id)
    requires IndexOk(x, Sessions(rows)) && id in rows
    ensures forall e :: Lists(x, e, id) ==> Matches(SessionFilters(rows[id].payload), x.ents[e].scope)
  {
  }

  lemma DeleteKeeps(b: Backend, s: State, id: Id, now: string)
    requires Inv(s) && id in s.rows && Fits(s.index, SessionFilters(s.rows[id].payload))
    ensures Inv(DeleteMemory(b, s, id, now))
  {
    hide IndexOk, Strip;
    ScopeOfSession(s.rows[id].payload);
    ListedInSession(s.index, s.rows, id);
    StripKeeps(b, s.index, id, SessionFilters(s.rows[id].payload), Sessions(s.rows));
    StripExact(b, s.index, id, SessionFilters(s.rows[id].payload));
    SessionsRemove(s.rows, id);
  }

  /** Cleanup only shrinks what any listing sees. */
  lemma StripFits(b: Backend, x: Index, m: Id, f: Filter, g: Filter)
    requires Fits(x, g)
    ensures Fits(Strip(b, x, m, f), g)
  {
    StripExact(b, x, m, f);
    var before, after := InScope(x.ents, ScopeFilters(g)), InScope(Strip(b, x, m, f).ents, ScopeFilters(g));
    assert after <= before;
    SubsetSize(after, before);
  }

  /** Every entity listing that deleting these memories needs fits one page. */
  ghost predicate Deletable(s: State, listed: seq<Id>) {
    forall id :: id in listed && id in s.rows ==> Fits(s.index, SessionFilters(s.rows[id].payload))
  }

  lemma DeletableRest(b: Backend, s: State, listed: seq<Id>, now: string)
    requires Deletable(s, listed) && listed != [] && listed[0] in s.rows
    ensures Deletable(DeleteMemory(b, s, listed[0], now), listed[1..])
  {
    var t := DeleteMemory(b, s, listed[0], now);
    forall id | id in listed[1..] && id in t.rows ensures Fits(t.index, SessionFilters(t.rows[id].payload)) {
      assert id in listed && id in s.rows;
      StripFits(b, s.index, listed[0], SessionFilters(s.rows[listed[0]].payload), SessionFilters(s.rows[id].payload));
    }
  }

  lemma {:induction false} DeleteEachKeeps(b: Backend, s: State, listed: seq<Id>, now: string)
    requires Inv(s) && Deletable(s, listed)
    ensures Inv(DeleteEach(b, s, listed, now))
    decreases |listed|
  {
    if listed != [] && listed[0] in s.rows {
      DeleteKeeps(b, s, listed[0], now);
      DeletableRest(b, s, listed, now);
      DeleteEachKeeps(b, DeleteMemory(b, s, listed[0], now), listed[1..], now);
    }
  }

  /** `delete_all` over distinct live memories removes exactly those rows. */
  lemma {:induction false} DeleteEachExact(b: Backend, s: State, listed: seq<Id>, now: string)
    requires NoDup(listed) && forall id :: id in listed ==> id in s.rows
    ensures DeleteEach(b, s, listed, now).rows == s.rows - (set id | id in listed)
    decreases |listed|
  {
    if listed != [] {
      var t := DeleteMemory(b, s, listed[0], now);
      forall id | id in listed[1..] ensures id in t.rows { assert id in listed; }
      DeleteEachExact(b, t, listed[1..], now);
      assert forall id :: id in listed <==> id == listed[0] || id in listed[1..];
    }
  }

  lemma StepKeeps(b: Backend, s: State, op: Op)
    requires CleanExtractor(b) && Inv(s) && Admissible(b, s, op)
    ensures Inv(Step(b, s, op))
  {
    match op
    case AddInferred(ids, metadata, extracted, recalled, now) =>
      if ValidIds(ids) { AddKeepsIff(b, s, ids, metadata, extracted, recalled, now); }
    case AddRaw(ids, metadata, messages) => PersistKeeps(s, RawRecords(b, messages, metadata + ids, s.index.next));
    case AddProcedural(ids, metadata, summary, now) =>
      CreateKeeps(b, s, (metadata + ids)[MemoryType := "procedural_memory"], summary, now);
    case Update(id, data, metadata, now) => if id in s.rows { UpdateKeepsIff(b, s, id, data, metadata, now); }
    case Delete(id, now) => if id in s.rows { DeleteKeeps(b, s, id, now); }
    case DeleteAll(filters, listed, now) => DeleteEachKeeps(b, s, listed, now);
  }

  ghost predicate AllAdmissible(b: Backend, s: State, ops: seq<Op>)
    decreases |ops|
  {
    ops == [] || (Admissible(b, s, ops[0]) && AllAdmissible(b, Step(b, s, ops[0]), ops[1..]))
  }

  lemma {:induction false} RunKeeps(b: Backend, s: State, ops: seq<Op>)
    requires CleanExtractor(b) && Inv(s) && AllAdmissible(b, s, ops)
    ensures Inv(Run(b, s, ops))
    decreases |ops|
  {
    if ops != [] {
      StepKeeps(b, s, ops[0]);
      RunKeeps(b, Step(b, s, ops[0]), ops[1..]);
    }
  }

  /** Over any run from empty stores every id in any entity record is a live
      memory of that record's session, and no list is empty or has repeats. */
  lemma IndexIntegrity(b: Backend, ops: seq<Op>, e: Id)
    requires CleanExtractor(b) && AllAdmissible(b, Empty, ops)
    requires e in Run(b, Empty, ops).index.ents
    ensures var s := Run(b, Empty, ops);
            var links := s.index.ents[e].links;
            && links != [] && NoDup(links)
            && forall m :: m in links ==>
                 m in s.rows && Matches(SessionFilters(s.rows[m].payload), s.index.ents[e].scope)
  {
    RunKeeps(b, Empty, ops);
    assert EntityOk(Run(b, Empty, ops).index.ents[e], Sessions(Run(b, Empty, ops).rows));
  }
}
