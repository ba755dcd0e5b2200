/** What callers can rely on across calls, and where the guarantee ends. */
module MemoryTheorems {
  import opened Wrappers
  import opened Stores
  import opened EntityIndex
  import opened BatchLinking
  import opened MemoryState
  import opened MemoryHistory
  import opened MemoryIndex

  // ---------- permanence ----------

  /** Of the ids already handed out, none is born again, and a surviving row has
      kept its creation time and any actor. */
  ghost predicate Persists(s: State, t: State) {
    && s.index.next <= t.index.next
    && forall id :: id < s.index.next && id in t.rows ==>
         id in s.rows && KeepsBirth(s.rows[id].payload, t.rows[id].payload)
  }

  ghost predicate KeepsBirth(p: Payload, q: Payload) {
    && Get(q, CreatedAt) == Get(p, CreatedAt)
    && (ActorId in p ==> Get(q, ActorId) == Get(p, ActorId))
  }

  lemma PersistsTransitive(s: State, t: State, u: State)
    requires Persists(s, t) && Persists(t, u)
    ensures Persists(s, u)
  {
  }

  lemma DeletePersists(b: Backend, s: State, id: Id, now: string)
    requires id in s.rows
    ensures Persists(s, DeleteMemory(b, s, id, now))
  {
  }

  lemma {:induction false} DeleteEachPersists(b: Backend, s: State, listed: seq<Id>, now: string)
    ensures Persists(s, DeleteEach(b, s, listed, now))
    decreases |listed|
  {
    if listed != [] && listed[0] in s.rows {
      var t := DeleteMemory(b, s, listed[0], now);
      DeleteEachPersists(b, t, listed[1..], now);
      PersistsTransitive(s, t, DeleteEach(b, t, listed[1..], now));
    }
  }

  lemma UpdatePersists(b: Backend, s: State, id: Id, data: string, metadata: Payload, now: string)
    requires id in s.rows
    ensures Persists(s, UpdateMemory(b, s, id, data, metadata, now))
  {
    var session := SessionFilters(UpdatedPayload(b, s.rows[id].payload, metadata, data, now));
    LinkAllNext(b, Strip(b, s.index, id, session), b.extract(data), {}, id, session);
  }

  lemma BatchPersists(b: Backend, s: State, records: seq<Record>, ids: Filter)
    requires forall i :: 0 <= i < |records| ==> records[i].id == s.index.next + i
    ensures Persists(s, Persist(s, records)) && Persists(s, AddRecords(b, s, ids, records))
  {
    PersistExact(s, records);
    var t := Persist(s, records);
    var occs := Occurrences(b, records);
    ApplyGroupsNext(b, t.index.ents, t.index.(open := true), GroupAll(b, occs), ScopeFilters(ids));
  }

  lemma StepPersists(b: Backend, s: State, op: Op)
    ensures Persists(s, Step(b, s, op))
  {
    match op
    case AddInferred(ids, metadata, extracted, recalled, now) =>
      BatchPersists(b, s, NewRecords(b, s, metadata + ids, extracted, recalled, now), ids);
    case AddRaw(ids, metadata, messages) =>
      BatchPersists(b, s, RawRecords(b, messages, metadata + ids, s.index.next), ids);
    case AddProcedural(ids, metadata, summary, now) =>
    case Update(id, data, metadata, now) => if id in s.rows { UpdatePersists(b, s, id, data, metadata, now); }
    case Delete(id, now) => if id in s.rows { DeletePersists(b, s, id, now); }
    case DeleteAll(filters, listed, now) => DeleteEachPersists(b, s, listed, now);
  }

  /** Whatever is called, with whatever metadata: a memory that is live after a
      run and existed before it was live throughout, with the same creation time
      and actor, and a deleted id never returns. */
  lemma {:induction false} BirthIsPermanent(b: Backend, s: State, ops: seq<Op>)
    ensures Persists(s, Run(b, s, ops))
    decreases |ops|
  {
    if ops != [] {
      StepPersists(b, s, ops[0]);
      BirthIsPermanent(b, Step(b, s, ops[0]), ops[1..]);
      PersistsTransitive(s, Step(b, s, ops[0]), Run(b, s, ops));
    }
  }

  // ---------- re-linking ----------

  /** After an update that the records listing the memory follow, those records are exactly
      the ones the distinct non-blank entities of the new text resolve to or create, and
      every other memory's links are what they were. */
  lemma RelinkingIsExact(b: Backend, s: State, id: Id, data: string, metadata: Payload, now: string)
    requires Inv(s) && id in s.rows
    requires var session := NewSession(b, s, id, data, metadata, now);
             Fits(s.index, session) && RecordsFollow(s.index, id, session)
    ensures var t, session := UpdateMemory(b, s, id, data, metadata, now), NewSession(b, s, id, data, metadata, now);
            var targets := LinkTargets(b, Strip(b, s.index, id, session), b.extract(data), {}, id, session);
            && (forall e :: Lists(t.index, e, id) <==> e in targets)
            && (forall e, m :: m != id ==> (Lists(t.index, e, m) <==> Lists(s.index, e, m)))
  {
    hide Strip, LinkAll, LinkTargets, UpdatedPayload, SessionFilters;
    var session := NewSession(b, s, id, data, metadata, now);
    ScopeOfSession(UpdatedPayload(b, s.rows[id].payload, metadata, data, now));
    StripKeeps(b, s.index, id, session, Sessions(s.rows));
    StripExact(b, s.index, id, session);
    LinkAllExact(b, Strip(b, s.index, id, session), b.extract(data), {}, id, session);
  }

  lemma IdsBelow(s: State)
    requires Inv(s)
    ensures forall id :: id in s.index.ents ==> id < s.index.next
  {
  }

  /** Relinking leaves the project out of the session. So of the records that list the memory
      after such an update, those in scope for its payload are: all when it has no project,
      otherwise only records of that project that were there before. */
  lemma ProjectAfterUpdate(b: Backend, s: State, id: Id, e: Id, data: string, metadata: Payload, now: string)
    requires Inv(s) && id in s.rows && RecordsFollow(s.index, id, NewSession(b, s, id, data, metadata, now))
    requires Lists(UpdateMemory(b, s, id, data, metadata, now).index, e, id)
    ensures var t := UpdateMemory(b, s, id, data, metadata, now);
            var scope := ScopeFilters(t.rows[id].payload);
            Matches(scope, t.index.ents[e].scope) <==>
              Project !in scope
              || (e in s.index.ents && Get(s.index.ents[e].scope, Project) == Some(scope[Project]))
  {
    hide Strip, LinkAll, LinkTargets, UpdatedPayload, SessionFilters, ScopeFilters, IndexOk;
    var session, t := NewSession(b, s, id, data, metadata, now), UpdateMemory(b, s, id, data, metadata, now);
    var x := Strip(b, s.index, id, session);
    ScopeOfSession(t.rows[id].payload);
    IdsBelow(s);
    StripExact(b, s.index, id, session);
    LinkAllExact(b, x, b.extract(data), {}, id, session);
    LinkAllScopes(b, x, b.extract(data), {}, id, session);
    if e in x.ents { StripKeepsScopes(b, s.index, id, session, e); }
    ScopeIsSessionAndProject(t.rows[id].payload, t.index.ents[e].scope);
  }

  lemma StripKeepsScopes(b: Backend, x: Index, m: Id, session: Filter, e: Id)
    requires e in Strip(b, x, m, session).ents
    ensures e in x.ents && Strip(b, x, m, session).ents[e].scope == x.ents[e].scope
  {
  }

  lemma ScopeIsSessionAndProject(p: Payload, scope: Filter)
    ensures Project !in SessionFilters(p)
    ensures Matches(ScopeFilters(p), scope)
       <==> && Matches(SessionFilters(p), scope)
            && (Project in ScopeFilters(p) ==> Get(scope, Project) == Some(ScopeFilters(p)[Project]))
  {
  }

  /** Deleting one memory leaves every other memory's links alone. */
  lemma DeletionIsLocal(b: Backend, s: State, id: Id, now: string)
    requires Inv(s) && id in s.rows && Fits(s.index, SessionFilters(s.rows[id].payload))
    ensures var t := DeleteMemory(b, s, id, now);
            forall e, m :: Lists(t.index, e, m) <==> Lists(s.index, e, m) && m != id
  {
  }

  /** `delete_all` removes the listed memories and every link to them, and touches no other
      memory nor link. Of the memories the filters match none remains iff the listing was
      complete: the store lists up to its own default limit. */
  lemma DeleteAllIsExact(b: Backend, s: State, filters: Filter, listed: seq<Id>, now: string)
    requires Inv(s) && Deletable(s, listed) && NoDup(listed)
    requires forall id :: id in listed ==> id in s.rows && Matches(filters, s.rows[id].payload)
    ensures var t := DeleteEach(b, s, listed, now);
            && t.rows == s.rows - (set id | id in listed)
            && (forall e, m :: Lists(t.index, e, m) <==> Lists(s.index, e, m) && m !in listed)
            && ((forall id :: id in t.rows ==> !Matches(filters, t.rows[id].payload))
                <==> (forall id :: id in s.rows && Matches(filters, s.rows[id].payload) ==> id in listed))
  {
    hide IndexOk, Deletable, DeleteEach, Matches;
    DeleteEachExact(b, s, listed, now);
    DeleteEachLinks(b, s, listed, now);
    var t := DeleteEach(b, s, listed, now);
    forall id | id in t.rows ensures id in s.rows && t.rows[id] == s.rows[id] && id !in listed { }
    forall id | id in s.rows ensures id in listed || (id in t.rows && t.rows[id] == s.rows[id]) { }
  }

  lemma {:induction false} DeleteEachLinks(b: Backend, s: State, listed: seq<Id>, now: string)
    requires Inv(s) && Deletable(s, listed) && NoDup(listed) && forall id :: id in listed ==> id in s.rows
    ensures forall e, m :: Lists(DeleteEach(b, s, listed, now).index, e, m) <==> Lists(s.index, e, m) && m !in listed
    decreases |listed|
  {
    if listed != [] {
      DeletionIsLocal(b, s, listed[0], now);
      DeleteKeeps(b, s, listed[0], now);
      DeletableRest(b, s, listed, now);
      forall id | id in listed[1..] ensures id in DeleteMemory(b, s, listed[0], now).rows { assert id in listed; }
      DeleteEachLinks(b, DeleteMemory(b, s, listed[0], now), listed[1..], now);
      assert forall m :: m in listed <==> m == listed[0] || m in listed[1..];
    }
  }

  // ---------- where the guarantee ends ----------

  /** In any state at all, a deletion leaves no link to the memory iff every record
      listing it can be reached: the entity store was opened in this process, the
      listing by the row's own session returns the record, and the record has
      text or lists nothing else. */
  lemma DeletionCleansIff(b: Backend, s: State, id: Id, now: string)
    requires id in s.rows
    ensures (forall e :: !Lists(DeleteMemory(b, s, id, now).index, e, id))
       <==> (forall e :: Lists(s.index, e, id) ==>
               && s.index.open
               && e in Listed(b, s.index.ents, ScopeFilters(SessionFilters(s.rows[id].payload)))
               && (s.index.ents[e].data != "" || Without(s.index.ents[e].links, id) == []))
  {
    var session := SessionFilters(s.rows[id].payload);
    assert DeleteMemory(b, s, id, now).index == Strip(b, s.index, id, session);
    StripComplete(b, s.index, id, session);
    forall e | Lists(s.index, e, id)
      ensures !Survives(b, s.index, e, id, session) <==>
              && s.index.open
              && e in Listed(b, s.index.ents, ScopeFilters(session))
              && (s.index.ents[e].data != "" || Without(s.index.ents[e].links, id) == [])
    {
    }
  }

  /** Cleanup does not see a record of another scope. */
  lemma OutOfScopeStays(b: Backend, x: Index, e: Id, m: Id, filters: Filter)
    requires Lists(x, e, m) && !Matches(ScopeFilters(filters), x.ents[e].scope)
    ensures var y := Strip(b, x, m, filters); Lists(y, e, m) && y.ents[e].scope == x.ents[e].scope
  {
  }

  /** The records must accept a new memory: when its add puts some entity into a record out of
      scope of the session that is stored, some new memory is still listed after its deletion. */
  lemma AddedMemoryDangles(b: Backend, s: State, ids: Filter, metadata: Payload, extracted: seq<Extracted>,
        recalled: set<Id>, now: string, later: string) returns (m: Id, e: Id)
    requires CleanExtractor(b) && Inv(s)
    requires !RecordsAccept(b, s.index, ids, SessionFilters(metadata + ids),
                            NewRecords(b, s, metadata + ids, extracted, recalled, now))
    ensures var t := AddRecords(b, s, ids, NewRecords(b, s, metadata + ids, extracted, recalled, now));
            m !in s.rows && m in t.rows && Lists(DeleteMemory(b, t, m, later).index, e, m)
  {
    hide CleanExtractor, SessionFilters, ScopeFilters, EmbedMap, LinkBatch, GroupsFollow, Strip, Matches, IndexOk,
      RowOk;
    var session, records := SessionFilters(metadata + ids), NewRecords(b, s, metadata + ids, extracted, recalled, now);
    var u, t := Persist(s, records), AddRecords(b, s, ids, records);
    EmbedMapOk(b, extracted);
    BuildRecordsSound(b, extracted, EmbedMap(b, extracted), RecalledHashes(s, recalled), {}, metadata + ids, now,
      s.index.next);
    PersistExact(s, records);
    OccurrencesOf(b, records);
    IdsBelow(s);
    var mems := set i | 0 <= i < |records| :: records[i].id;
    LinkBatchStrays(b, u.index, Occurrences(b, records), ids, mems, session);
    e, m :| Lists(t.index, e, m) && m in mems && !Matches(session, t.index.ents[e].scope);
    ScopeOfSession(metadata + ids);
    OutOfScopeStays(b, t.index, e, m, session);
  }

  /** The records must follow: when an update moves the session out of scope of a record that
      lists the memory, that record still lists it after the memory is deleted. */
  lemma MovedMemoryDangles(b: Backend, s: State, id: Id, e: Id, data: string, metadata: Payload, now: string)
    requires id in s.rows && Lists(s.index, e, id) && forall x :: x in s.index.ents ==> x < s.index.next
    requires !Matches(NewSession(b, s, id, data, metadata, now), s.index.ents[e].scope)
    ensures var t := UpdateMemory(b, s, id, data, metadata, now);
            var u := DeleteMemory(b, t, id, now);
            id !in u.rows && Lists(u.index, e, id)
  {
    hide Strip, LinkAll, UpdatedPayload, SessionFilters;
    var session, t := NewSession(b, s, id, data, metadata, now), UpdateMemory(b, s, id, data, metadata, now);
    ScopeOfSession(UpdatedPayload(b, s.rows[id].payload, metadata, data, now));
    LostLinkStays(b, s.index, id, e, session, data);
    OutOfScopeStays(b, t.index, e, id, session);
  }
}
