/** The project is part of an entity record's scope: what is linked under one project stays
    apart from every other. */
module ProjectScopes {
  import opened Wrappers
  import opened Stores
  import opened EntityIndex
  import opened BatchLinking
  import opened MemoryState
  import opened MemoryIndex
  import opened EntityCoverage

  // ---------- the scope of a record ----------

  /** The entries of `filters` that scope an entity record. */
  lemma ScopeAt(filters: Filter, k: Key)
    ensures Get(ScopeFilters(filters), k)
              == if (k.UserId? || k.AgentId? || k.RunId? || k.Project?) && k in filters && filters[k] != ""
                 then Some(filters[k]) else None
    ensures Get(SessionFilters(filters), k)
              == if (k.UserId? || k.AgentId? || k.RunId?) && k in filters && filters[k] != ""
                 then Some(filters[k]) else None
  {
  }

  /** The store's best hit for the text, if it is in scope and close enough. */
  ghost predicate Hits(b: Backend, ents: map<Id, Entity>, text: string, filter: Filter, id: Id) {
    && id in ents
    && (forall k :: k in filter ==> Get(ents[id].scope, k) == Some(filter[k]))
    && match b.rank(ents, text, filter)
       case Some(h) => h.id == id && h.score >= 0.95
       case None => false
  }

  lemma ResolveIff(b: Backend, ents: map<Id, Entity>, text: string, filter: Filter, id: Id)
    ensures Resolve(b, ents, text, filter) == Some(id) <==> Hits(b, ents, text, filter, id)
  {
  }

  /** An upsert creates a record iff nothing in scope is close enough; a record it creates has
      the text and type of the entity, the one link, and in its scope exactly the non-empty
      user, agent, run and project of the call. */
  lemma UpsertCreates(b: Backend, x: Index, mention: Mention, m: Id, filters: Filter, e: Id, k: Key)
    requires forall id :: id in x.ents ==> id < x.next
    ensures var y := Upsert(b, x, mention, m, filters);
            && (y.ents.Keys == x.ents.Keys <==>
                  exists id :: Hits(b, x.ents, mention.text, ScopeFilters(filters), id))
            && (e in y.ents && e !in x.ents ==>
                  && y.ents[e].data == mention.text && y.ents[e].kind == mention.kind && y.ents[e].links == [m]
                  && Get(y.ents[e].scope, k)
                       == if (k.UserId? || k.AgentId? || k.RunId? || k.Project?) && k in filters && filters[k] != ""
                          then Some(filters[k]) else None)
  {
    hide Hits, ScopeFilters, Resolve;
    var scope := ScopeFilters(filters);
    ScopeAt(filters, k);
    match Resolve(b, x.ents, mention.text, scope)
    case Some(id) =>
      ResolveIff(b, x.ents, mention.text, scope, id);
    case None =>
      forall id ensures !Hits(b, x.ents, mention.text, scope, id) { ResolveIff(b, x.ents, mention.text, scope, id); }
      assert x.next in Upsert(b, x, mention, m, filters).ents;
  }

  // ---------- links of a batch ----------

  /** Every link of `y` is one of the snapshot or one that a group made within the scope. */
  ghost predicate LinksFrom(base: map<Id, Entity>, y: Index, groups: seq<Group>, scope: Filter) {
    forall e, m :: Lists(y, e, m) ==>
      || (e in base && m in base[e].links)
      || (Matches(scope, y.ents[e].scope) && exists g :: g in groups && m in g.ids)
  }

  /** Records created by the batch have just its scope. */
  ghost predicate NewInScope(base: map<Id, Entity>, y: Index, scope: Filter) {
    forall e :: e in y.ents && e !in base ==> y.ents[e].scope == scope
  }

  lemma ApplyGroupLinks(b: Backend, base: map<Id, Entity>, y: Index, groups: seq<Group>, g: Group, scope: Filter)
    requires Over(base, y) && LinksFrom(base, y, groups, scope) && NewInScope(base, y, scope) && g in groups
    ensures var z := ApplyGroup(b, base, y, g, scope);
            LinksFrom(base, z, groups, scope) && NewInScope(base, z, scope)
  {
    var z := ApplyGroup(b, base, y, g, scope);
    forall e, m | Lists(z, e, m)
      ensures || (e in base && m in base[e].links)
              || (Matches(scope, z.ents[e].scope) && exists h :: h in groups && m in h.ids)
    {
      if e in y.ents && z.ents[e] == y.ents[e] {
        assert Lists(y, e, m);
      } else {
        assert m in g.ids || (e in base && m in base[e].links);
      }
    }
  }

  lemma {:induction false} ApplyGroupsLinks(b: Backend, base: map<Id, Entity>, x: Index, groups: seq<Group>,
        all: seq<Group>, scope: Filter)
    requires x.ents == base && (forall id :: id in base ==> id < x.next) && forall g :: g in groups ==> g in all
    ensures var y := ApplyGroups(b, base, x, groups, scope);
            Over(base, y) && LinksFrom(base, y, all, scope) && NewInScope(base, y, scope)
    decreases |groups|
  {
    hide ApplyGroup, Matches;
    if groups != [] {
      var init, g := groups[..|groups| - 1], groups[|groups| - 1];
      ApplyGroupsLinks(b, base, x, init, all, scope);
      ApplyGroupOver(b, base, ApplyGroups(b, base, x, init, scope), g, scope);
      ApplyGroupLinks(b, base, ApplyGroups(b, base, x, init, scope), all, g, scope);
    }
  }

  lemma {:induction false} GroupMemories(b: Backend, occs: seq<Occurrence>, g: Group, m: Id)
    requires g in GroupAll(b, occs) && m in g.ids
    ensures exists o :: o in occs && o.memory == m
    decreases |occs|
  {
    hide IndexOfKey;
    var init, last := occs[..|occs| - 1], occs[|occs| - 1];
    if m == last.memory {
      assert last in occs;
    } else {
      var before, i := GroupAll(b, init), IndexOfKey(GroupAll(b, init), b.normalise(last.mention.text));
      var h := if i < |before| && g == before[i].(ids := before[i].ids + {last.memory}) then before[i] else g;
      assert h in before && m in h.ids;
      GroupMemories(b, init, h, m);
      var o :| o in init && o.memory == m;
      assert o in occs;
    }
  }

  /** What a batch links was linked before, or is a memory of the batch in a record in scope;
      records keep their scopes and new ones have the batch's. */
  lemma LinkBatchLinks(b: Backend, x: Index, occs: seq<Occurrence>, filters: Filter, e: Id, m: Id)
    requires Fresh(x) && Lists(LinkBatch(b, x, occs, filters), e, m)
    ensures var y := LinkBatch(b, x, occs, filters);
            && (e in x.ents ==> y.ents[e].scope == x.ents[e].scope)
            && (e !in x.ents ==> y.ents[e].scope == ScopeFilters(filters))
            && (Lists(x, e, m)
                || (Matches(ScopeFilters(filters), y.ents[e].scope) && exists o :: o in occs && o.memory == m))
  {
    hide ApplyGroups, ScopeFilters, Matches;
    if occs != [] {
      var groups, scope := GroupAll(b, occs), ScopeFilters(filters);
      ApplyGroupsLinks(b, x.ents, x.(open := true), groups, groups, scope);
      if !Lists(x, e, m) {
        var g :| g in groups && m in g.ids;
        GroupMemories(b, occs, g, m);
      }
    }
  }

  /** A batch scopes the records it creates by exactly the non-empty user, agent, run and
      project of the call. */
  lemma BatchCreates(b: Backend, x: Index, occs: seq<Occurrence>, filters: Filter, e: Id, k: Key)
    requires Fresh(x) && e in LinkBatch(b, x, occs, filters).ents && e !in x.ents
    ensures Get(LinkBatch(b, x, occs, filters).ents[e].scope, k)
              == if (k.UserId? || k.AgentId? || k.RunId? || k.Project?) && k in filters && filters[k] != ""
                 then Some(filters[k]) else None
  {
    hide ApplyGroups, ScopeFilters;
    var groups := GroupAll(b, occs);
    ScopeAt(filters, k);
    ApplyGroupsLinks(b, x.ents, x.(open := true), groups, groups, ScopeFilters(filters));
  }

  // ---------- other projects are left alone ----------

  /** Records without project `p` are as they were. */
  ghost predicate OthersStay(x: Index, y: Index, p: string) {
    forall e :: e in x.ents && Get(x.ents[e].scope, Project) != Some(p) ==> e in y.ents && y.ents[e] == x.ents[e]
  }

  ghost predicate NamesProject(filters: Filter, p: string) { p != "" && Get(filters, Project) == Some(p) }

  lemma ProjectMatches(filters: Filter, p: string, scope: Filter)
    requires NamesProject(filters, p) && Matches(ScopeFilters(filters), scope)
    ensures Get(scope, Project) == Some(p)
  {
    ScopeAt(filters, Project);
  }

  /** Linking one entity, or cleaning up a memory, under a project. */
  lemma UpsertIsolated(b: Backend, x: Index, mention: Mention, m: Id, filters: Filter, p: string)
    requires Fresh(x) && NamesProject(filters, p)
    ensures OthersStay(x, Upsert(b, x, mention, m, filters), p)
  {
    hide Matches, ScopeFilters;
    match Resolve(b, x.ents, mention.text, ScopeFilters(filters))
    case Some(id) => ProjectMatches(filters, p, x.ents[id].scope);
    case None =>
  }

  lemma {:induction false} LinkAllIsolated(b: Backend, x: Index, mentions: seq<Mention>, seen: set<string>, m: Id,
        filters: Filter, p: string)
    requires Fresh(x) && NamesProject(filters, p)
    ensures OthersStay(x, LinkAll(b, x, mentions, seen, m, filters), p)
    decreases |mentions|
  {
    hide Upsert, NamesProject;
    if mentions != [] {
      var key := b.normalise(mentions[0].text);
      if key == "" || key in seen {
        LinkAllIsolated(b, x, mentions[1..], seen, m, filters, p);
      } else {
        UpsertIsolated(b, x, mentions[0], m, filters, p);
        UpsertStays(b, x, mentions[0], m, filters);
        LinkAllIsolated(b, Upsert(b, x, mentions[0], m, filters), mentions[1..], seen + {key}, m, filters, p);
      }
    }
  }

  lemma StripIsolated(b: Backend, x: Index, m: Id, filters: Filter, p: string)
    requires NamesProject(filters, p)
    ensures OthersStay(x, Strip(b, x, m, filters), p)
  {
    hide Matches, ScopeFilters;
    forall e | e in Listed(b, x.ents, ScopeFilters(filters)) ensures Get(x.ents[e].scope, Project) == Some(p) {
      ProjectMatches(filters, p, x.ents[e].scope);
    }
  }

  lemma {:induction false} ApplyGroupsIsolated(b: Backend, base: map<Id, Entity>, x: Index, groups: seq<Group>,
        filters: Filter, p: string)
    requires x.ents == base && (forall id :: id in base ==> id < x.next) && NamesProject(filters, p)
    ensures OthersStay(x, ApplyGroups(b, base, x, groups, ScopeFilters(filters)), p)
    decreases |groups|
  {
    hide Matches, ScopeFilters, Sorted, LinkSet;
    if groups != [] {
      var init, g, scope := groups[..|groups| - 1], groups[|groups| - 1], ScopeFilters(filters);
      ApplyGroupsIsolated(b, base, x, init, filters, p);
      ApplyGroupsNext(b, base, x, init, scope);
      if Resolve(b, base, g.text, scope).Some? {
        ProjectMatches(filters, p, base[Resolve(b, base, g.text, scope).value].scope);
      }
    }
  }

  lemma LinkBatchIsolated(b: Backend, x: Index, occs: seq<Occurrence>, filters: Filter, p: string)
    requires Fresh(x) && NamesProject(filters, p)
    ensures OthersStay(x, LinkBatch(b, x, occs, filters), p)
  {
    hide ApplyGroups, ScopeFilters;
    ApplyGroupsIsolated(b, x.ents, x.(open := true), GroupAll(b, occs), filters, p);
  }

  // ---------- over runs ----------

  /** The memories that inferring adds for project `p` stored. */
  function AddedBy(b: Backend, s: State, op: Op, p: string): set<Id> {
    match op
    case AddInferred(ids, metadata, extracted, recalled, now) =>
      if ValidIds(ids) && Get(ids, Project) == Some(p)
      then (set r | r in NewRecords(b, s, metadata + ids, extracted, recalled, now) :: r.id)
      else {}
    case _ => {}
  }

  function AddedUnder(b: Backend, s: State, ops: seq<Op>, p: string): set<Id>
    decreases |ops|
  {
    if ops == [] then {} else AddedBy(b, s, ops[0], p) + AddedUnder(b, Step(b, s, ops[0]), ops[1..], p)
  }

  /** Every record listing one of the memories has project `p`. */
  ghost predicate Within(x: Index, ms: set<Id>, p: string) {
    forall e, m :: m in ms && Lists(x, e, m) ==> Get(x.ents[e].scope, Project) == Some(p)
  }

  /** Ids are taken in order, those linked and those of `ms` included. */
  ghost predicate Taken(x: Index, ms: set<Id>) {
    Fresh(x) && (forall m :: m in ms ==> m < x.next) && forall e: Id, m: Id :: Lists(x, e, m) ==> m < x.next
  }

  lemma {:induction false} OccurrenceMemory(b: Backend, records: seq<Record>, o: Occurrence)
    requires o in Occurrences(b, records)
    ensures exists i :: 0 <= i < |records| && records[i].id == o.memory
    decreases |records|
  {
    if o in Occurrences(b, records[1..]) {
      OccurrenceMemory(b, records[1..], o);
      var i :| 0 <= i < |records[1..]| && records[1..][i].id == o.memory;
      assert records[i + 1].id == o.memory;
    } else {
      assert records[0].id == o.memory;
    }
  }

  lemma AddLinks(b: Backend, s: State, records: seq<Record>, ids: Filter, e: Id, m: Id)
    requires Fresh(s.index) && forall i :: 0 <= i < |records| ==> records[i].id == s.index.next + i
    requires Lists(AddRecords(b, s, ids, records).index, e, m)
    ensures var y := AddRecords(b, s, ids, records).index;
            || (Lists(s.index, e, m) && y.ents[e].scope == s.index.ents[e].scope)
            || (Matches(ScopeFilters(ids), y.ents[e].scope) && s.index.next <= m < s.index.next + |records| <= y.next)
  {
    hide LinkBatch, Occurrences, Matches, ScopeFilters;
    var x, occs := Persist(s, records).index, Occurrences(b, records);
    PersistExact(s, records);
    LinkBatchLinks(b, x, occs, ids, e, m);
    LinkBatchNext(b, x, occs, ids);
    if !Lists(s.index, e, m) {
      var o :| o in occs && o.memory == m;
      OccurrenceMemory(b, records, o);
    }
  }

  lemma AddWithin(b: Backend, s: State, records: seq<Record>, ids: Filter, ms: set<Id>, p: string)
    requires Taken(s.index, ms) && Within(s.index, ms, p) && ValidIds(ids)
    requires forall i :: 0 <= i < |records| ==> records[i].id == s.index.next + i
    ensures var y := AddRecords(b, s, ids, records).index;
            var all := ms + if Get(ids, Project) == Some(p) then (set r | r in records :: r.id) else {};
            Taken(y, all) && Within(y, all, p)
  {
    hide AddRecords, Matches, ScopeFilters;
    var y := AddRecords(b, s, ids, records).index;
    var all := ms + if Get(ids, Project) == Some(p) then (set r | r in records :: r.id) else {};
    AddFresh(b, s, records, ids);
    forall e: Id, m: Id | Lists(y, e, m)
      ensures m < y.next && (m in all ==> Get(y.ents[e].scope, Project) == Some(p))
    {
      AddLinks(b, s, records, ids, e, m);
      if m in all && m !in ms { ProjectMatches(ids, p, y.ents[e].scope); }
    }
  }

  lemma AddFresh(b: Backend, s: State, records: seq<Record>, ids: Filter)
    requires Fresh(s.index) && forall i :: 0 <= i < |records| ==> records[i].id == s.index.next + i
    ensures var y := AddRecords(b, s, ids, records).index; Fresh(y) && s.index.next + |records| <= y.next
  {
    hide ApplyGroups, ScopeFilters;
    var x, groups := Persist(s, records).index, GroupAll(b, Occurrences(b, records));
    PersistExact(s, records);
    LinkBatchNext(b, x, Occurrences(b, records), ids);
    ApplyGroupsLinks(b, x.ents, x.(open := true), groups, groups, ScopeFilters(ids));
  }

  lemma LaterWithin(x: Index, next: Id, ms: set<Id>, p: string)
    requires Taken(x, ms) && Within(x, ms, p) && x.next <= next
    ensures Taken(x.(next := next), ms) && Within(x.(next := next), ms, p)
  {
    forall e: Id, m: Id | Lists(x.(next := next), e, m) ensures m < next { assert Lists(x, e, m); }
  }

  lemma DeleteWithin(b: Backend, s: State, id: Id, now: string, ms: set<Id>, p: string)
    requires Taken(s.index, ms) && Within(s.index, ms, p) && id in s.rows
    ensures Taken(DeleteMemory(b, s, id, now).index, ms) && Within(DeleteMemory(b, s, id, now).index, ms, p)
  {
    hide Strip;
    StripExact(b, s.index, id, SessionFilters(s.rows[id].payload));
  }

  lemma {:induction false} DeleteEachWithin(b: Backend, s: State, listed: seq<Id>, now: string, ms: set<Id>, p: string)
    requires Taken(s.index, ms) && Within(s.index, ms, p)
    ensures Taken(DeleteEach(b, s, listed, now).index, ms) && Within(DeleteEach(b, s, listed, now).index, ms, p)
    decreases |listed|
  {
    hide DeleteMemory, Taken, Within;
    if listed != [] && listed[0] in s.rows {
      DeleteWithin(b, s, listed[0], now, ms, p);
      DeleteEachWithin(b, DeleteMemory(b, s, listed[0], now), listed[1..], now, ms, p);
    }
  }

  lemma StepWithin(b: Backend, s: State, op: Op, ms: set<Id>, p: string)
    requires !op.Update? && Taken(s.index, ms) && Within(s.index, ms, p)
    ensures var all := ms + AddedBy(b, s, op, p);
            Taken(Step(b, s, op).index, all) && Within(Step(b, s, op).index, all, p)
  {
    hide AddRecords, NewRecords, Persist, DeleteMemory, DeleteEach, NewPayload;
    assert ms + {} == ms;
    match op
    case AddInferred(ids, metadata, extracted, recalled, now) =>
      if ValidIds(ids) {
        NewRecordIds(b, s, metadata + ids, extracted, recalled, now);
        AddWithin(b, s, NewRecords(b, s, metadata + ids, extracted, recalled, now), ids, ms, p);
      }
    case AddRaw(ids, metadata, messages) =>
      PersistExact(s, RawRecords(b, messages, metadata + ids, s.index.next));
      LaterWithin(s.index, s.index.next + |messages|, ms, p);
    case AddProcedural(ids, metadata, summary, now) => LaterWithin(s.index, s.index.next + 1, ms, p);
    case Delete(id, now) => if id in s.rows { DeleteWithin(b, s, id, now, ms, p); }
    case DeleteAll(filters, listed, now) => DeleteEachWithin(b, s, listed, now, ms, p);
  }

  lemma NewRecordIds(b: Backend, s: State, metadata: Payload, extracted: seq<Extracted>, recalled: set<Id>, now: string)
    ensures forall i :: 0 <= i < |NewRecords(b, s, metadata, extracted, recalled, now)| ==>
              NewRecords(b, s, metadata, extracted, recalled, now)[i].id == s.index.next + i
  {
  }

  lemma {:induction false} RunWithin(b: Backend, s: State, ops: seq<Op>, ms: set<Id>, p: string)
    requires Taken(s.index, ms) && Within(s.index, ms, p) && forall op :: op in ops ==> !op.Update?
    ensures Within(Run(b, s, ops).index, ms + AddedUnder(b, s, ops, p), p)
    decreases |ops|
  {
    hide Step, AddedBy, Taken, Within;
    if ops == [] {
      assert ms + {} == ms;
    } else {
      var t, added := Step(b, s, ops[0]), AddedBy(b, s, ops[0], p);
      StepWithin(b, s, ops[0], ms, p);
      RunWithin(b, t, ops[1..], ms + added, p);
      assert ms + added + AddedUnder(b, t, ops[1..], p) == ms + AddedUnder(b, s, ops, p);
    }
  }

  /** Over any run of adds and deletions, whatever the store ranks first: memories added under
      two different projects never share an entity record. */
  lemma ProjectsNeverShare(b: Backend, ops: seq<Op>, p: string, q: string, e: Id, m: Id, n: Id)
    requires p != q && forall op :: op in ops ==> !op.Update?
    requires m in AddedUnder(b, Empty, ops, p) && n in AddedUnder(b, Empty, ops, q)
    ensures var x := Run(b, Empty, ops).index; !(Lists(x, e, m) && Lists(x, e, n))
  {
    hide Run, AddedUnder;
    RunWithin(b, Empty, ops, {}, p);
    RunWithin(b, Empty, ops, {}, q);
    assert {} + AddedUnder(b, Empty, ops, p) == AddedUnder(b, Empty, ops, p);
    assert {} + AddedUnder(b, Empty, ops, q) == AddedUnder(b, Empty, ops, q);
  }
}
