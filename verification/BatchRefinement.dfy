/** The batch of Phase 7 refines folding `_upsert_entity` over every memory and entity
    in order, when a match means an equal key. */
module BatchRefinement {
  import opened Wrappers
  import opened Stores
  import opened EntityIndex
  import opened BatchLinking

  // ---------- what both forms build ----------

  function Candidates(b: Backend, ents: map<Id, Entity>, key: string, filter: Filter): set<Id> {
    set id | id in ents && Matches(filter, ents[id].scope) && b.normalise(ents[id].data) == key
  }

  /** Search resolves a text exactly to the records in scope with its key;
      `pick` is how the store breaks ties among them. */
  ghost predicate KeyMatching(b: Backend, pick: set<Id> -> Id) {
    && (forall c: set<Id> :: c != {} ==> pick(c) in c)
    && forall ents, text, filter :: Resolve(b, ents, text, filter) ==
         var c := Candidates(b, ents, b.normalise(text), filter);
         if c == {} then None else Some(pick(c))
  }

  /** The groups that resolve to nothing in the snapshot, in order. */
  function Unresolved(b: Backend, base: map<Id, Entity>, groups: seq<Group>, scope: Filter): seq<Group> {
    if groups == [] then [] else
    var rest := Unresolved(b, base, groups[..|groups| - 1], scope);
    var g := groups[|groups| - 1];
    if Resolve(b, base, g.text, scope).Some? then rest else rest + [g]
  }

  /** The ids a batch adds to each record that was there before. */
  function Additions(b: Backend, base: map<Id, Entity>, groups: seq<Group>, scope: Filter): map<Id, set<Id>> {
    map id | id in base :: AdditionsTo(b, base, groups, scope, id)
  }

  function AdditionsTo(b: Backend, base: map<Id, Entity>, groups: seq<Group>, scope: Filter, id: Id): set<Id>
    requires id in base
  {
    var i := IndexOfKey(groups, b.normalise(base[id].data));
    if i < |groups| && Resolve(b, base, groups[i].text, scope) == Some(id) then groups[i].ids else {}
  }

  ghost predicate Grown(e: Entity, e': Entity, extra: set<Id>) {
    SameRecord(e, e') && LinkSet(e'.links) == LinkSet(e.links) + extra
  }

  ghost predicate IsRecordOf(e: Entity, g: Group, scope: Filter) {
    e.data == g.text && e.kind == g.kind && e.scope == scope && LinkSet(e.links) == g.ids
  }

  /** `y` is `x` with its records grown by `added` and one record per group of `news`. */
  ghost predicate Shape(x: Index, added: map<Id, set<Id>>, news: seq<Group>, scope: Filter, y: Index) {
    && added.Keys == x.ents.Keys
    && y.next == x.next + |news|
    && (forall id :: id in x.ents ==> id < x.next && id in y.ents && Grown(x.ents[id], y.ents[id], added[id]))
    && (forall id :: x.next <= id < y.next ==> id in y.ents && IsRecordOf(y.ents[id], news[id - x.next], scope))
    && (forall id :: id in y.ents ==> id in x.ents || x.next <= id < y.next)
  }

  /** What any index that has linked `groups` over the snapshot `x` looks like. */
  ghost predicate Represents(b: Backend, x: Index, groups: seq<Group>, scope: Filter, y: Index) {
    Shape(x, Additions(b, x.ents, groups, scope), Unresolved(b, x.ents, groups, scope), scope, y)
  }

  /** Equal up to the order of each link list. */
  ghost predicate SameIndex(x: Index, y: Index) {
    && x.next == y.next && x.open == y.open && x.ents.Keys == y.ents.Keys
    && forall id :: id in x.ents ==>
         && SameRecord(x.ents[id], y.ents[id])
         && LinkSet(x.ents[id].links) == LinkSet(y.ents[id].links)
  }

  lemma ShapeUnique(x: Index, added: map<Id, set<Id>>, news: seq<Group>, scope: Filter, y: Index, z: Index)
    requires Shape(x, added, news, scope, y) && Shape(x, added, news, scope, z) && y.open == z.open
    ensures SameIndex(y, z)
  {
    assert forall id :: id in y.ents <==> id in z.ents;
  }

  lemma ShapeRecord(x: Index, added: map<Id, set<Id>>, news: seq<Group>, scope: Filter, y: Index, j: nat)
    requires Shape(x, added, news, scope, y) && j < |news|
    ensures x.next + j in y.ents && IsRecordOf(y.ents[x.next + j], news[j], scope)
  {
    assert news[x.next + j - x.next] == news[j];
  }

  lemma ShapeGrowOld(x: Index, added: map<Id, set<Id>>, news: seq<Group>, scope: Filter, y: Index, id: Id, e: Entity,
        ids: set<Id>, open: bool)
    requires Shape(x, added, news, scope, y) && id in x.ents && Grown(x.ents[id], e, ids)
    ensures Shape(x, added[id := ids], news, scope, Index(y.ents[id := e], y.next, open))
  {
  }

  lemma ShapeGrowNew(x: Index, added: map<Id, set<Id>>, news: seq<Group>, scope: Filter, y: Index, j: nat, g: Group,
        e: Entity, open: bool)
    requires Shape(x, added, news, scope, y) && j < |news| && IsRecordOf(e, g, scope)
    ensures Shape(x, added, news[j := g], scope, Index(y.ents[x.next + j := e], y.next, open))
  {
  }

  lemma ShapeAppend(x: Index, added: map<Id, set<Id>>, news: seq<Group>, scope: Filter, y: Index, g: Group, e: Entity,
        open: bool)
    requires Shape(x, added, news, scope, y) && IsRecordOf(e, g, scope)
    ensures Shape(x, added, news + [g], scope, Index(y.ents[y.next := e], y.next + 1, open))
  {
  }

  ghost predicate KeysDistinct(b: Backend, groups: seq<Group>) {
    && (forall i :: 0 <= i < |groups| ==> groups[i].key == b.normalise(groups[i].text))
    && (forall i, j :: 0 <= i < j < |groups| ==> groups[i].key != groups[j].key)
  }

  lemma {:induction false} GroupAllDistinct(b: Backend, occs: seq<Occurrence>)
    ensures KeysDistinct(b, GroupAll(b, occs))
  {
    if occs != [] { GroupAllDistinct(b, occs[..|occs| - 1]); }
  }

  /** Unresolved groups are groups, still with distinct keys. */
  lemma {:induction false} UnresolvedAreGroups(b: Backend, base: map<Id, Entity>, groups: seq<Group>, scope: Filter)
    requires KeysDistinct(b, groups)
    ensures var news := Unresolved(b, base, groups, scope);
            && KeysDistinct(b, news)
            && (forall j :: 0 <= j < |news| ==> news[j] in groups && Resolve(b, base, news[j].text, scope).None?)
            && (forall i :: 0 <= i < |groups| && Resolve(b, base, groups[i].text, scope).None? ==> groups[i] in news)
  {
    hide Resolve;
    if groups != [] {
      UnresolvedAreGroups(b, base, groups[..|groups| - 1], scope);
    }
  }

  lemma IndexOfKeyUnique(groups: seq<Group>, j: nat)
    requires j < |groups| && forall i, k :: 0 <= i < k < |groups| ==> groups[i].key != groups[k].key
    ensures IndexOfKey(groups, groups[j].key) == j
  {
  }

  /** Growing the id set of an unresolved group changes only its own entry, and
      of a resolved group none. */
  lemma {:induction false} UnresolvedUpdate(b: Backend, base: map<Id, Entity>, groups: seq<Group>, scope: Filter,
        i: nat, g: Group)
    returns (j: nat)
    requires i < |groups| && g == groups[i].(ids := g.ids)
    ensures var news, after := Unresolved(b, base, groups, scope), Unresolved(b, base, groups[i := g], scope);
            if Resolve(b, base, g.text, scope).Some? then after == news
            else j < |news| && news[j] == groups[i] && after == news[j := g]
  {
    hide Resolve, KeysDistinct;
    var n := |groups| - 1;
    var init, after := groups[..n], groups[i := g];
    var rest := Unresolved(b, base, init, scope);
    j := |rest|;
    if i == n {
      assert after[..n] == init && after[n] == g;
      assert (rest + [groups[n]])[j := g] == rest + [g];
    } else {
      assert after[..n] == init[i := g] && after[n] == groups[n];
      j := UnresolvedUpdate(b, base, init, scope, i, g);
      assert Resolve(b, base, g.text, scope).None? ==> (rest + [groups[n]])[j := g] == rest[j := g] + [groups[n]];
    }
  }

  /** A record of a grown index has a key iff it is an old record with that key
      or the one created for it. */
  lemma ShapeCandidate(b: Backend, x: Index, added: map<Id, set<Id>>, news: seq<Group>, scope: Filter, y: Index,
        key: string, id: Id)
    requires KeysDistinct(b, news) && Shape(x, added, news, scope, y)
    ensures id in Candidates(b, y.ents, key, scope) <==>
            id in Candidates(b, x.ents, key, scope) || (id == x.next + IndexOfKey(news, key) && id < y.next)
  {
    if id in x.ents {
      assert Grown(x.ents[id], y.ents[id], added[id]);
    } else if id in y.ents {
      NewRecordKey(b, y.ents[id], news, id - x.next, scope, key);
    }
  }

  lemma ShapeCandidatesOld(b: Backend, x: Index, added: map<Id, set<Id>>, news: seq<Group>, scope: Filter, y: Index,
        key: string)
    requires KeysDistinct(b, news) && Shape(x, added, news, scope, y) && IndexOfKey(news, key) == |news|
    ensures Candidates(b, y.ents, key, scope) == Candidates(b, x.ents, key, scope)
  {
    forall id ensures id in Candidates(b, y.ents, key, scope) <==> id in Candidates(b, x.ents, key, scope) {
      ShapeCandidate(b, x, added, news, scope, y, key, id);
    }
  }

  lemma SingletonByMembers(c: set<Id>, x: Id)
    requires forall id :: id in c <==> id == x
    ensures c == {x}
  {
  }

  lemma ShapeCandidatesNew(b: Backend, x: Index, added: map<Id, set<Id>>, news: seq<Group>, scope: Filter, y: Index,
        key: string, j: nat)
    requires KeysDistinct(b, news) && Shape(x, added, news, scope, y) && j < |news| && IndexOfKey(news, key) == j
    requires Candidates(b, x.ents, key, scope) == {}
    ensures Candidates(b, y.ents, key, scope) == {x.next + j}
  {
    hide KeysDistinct, Candidates, IsRecordOf, Grown;
    forall id ensures id in Candidates(b, y.ents, key, scope) <==> id == x.next + j {
      ShapeCandidate(b, x, added, news, scope, y, key, id);
    }
    SingletonByMembers(Candidates(b, y.ents, key, scope), x.next + j);
  }

  lemma NewRecordKey(b: Backend, e: Entity, news: seq<Group>, i: nat, scope: Filter, key: string)
    requires KeysDistinct(b, news) && i < |news| && IsRecordOf(e, news[i], scope)
    ensures Matches(scope, e.scope)
    ensures b.normalise(e.data) == key <==> i == IndexOfKey(news, key)
  {
    IndexOfKeyUnique(news, i);
  }

  /** The record found, if any, has the key. */
  predicate KeyOk(b: Backend, ents: map<Id, Entity>, r: Option<Id>, key: string) {
    r.Some? ==> r.value in ents && b.normalise(ents[r.value].data) == key
  }

  /** Two texts with one key resolve alike. */
  lemma SameKeyResolvesAlike(b: Backend, pick: set<Id> -> Id, ents: map<Id, Entity>, s: string, t: string,
        scope: Filter)
    requires KeyMatching(b, pick) && b.normalise(s) == b.normalise(t)
    ensures Resolve(b, ents, s, scope) == Resolve(b, ents, t, scope)
    ensures KeyOk(b, ents, Resolve(b, ents, s, scope), b.normalise(s))
  {
  }

  lemma IndexOfKeyAppend(groups: seq<Group>, g: Group, key: string)
    ensures IndexOfKey(groups + [g], key) ==
            var i := IndexOfKey(groups, key);
            if i < |groups| || g.key == key then i else |groups| + 1
  {
    if groups != [] {
      assert (groups + [g])[1..] == groups[1..] + [g];
      IndexOfKeyAppend(groups[1..], g, key);
    }
  }

  lemma IndexOfKeyUpdate(groups: seq<Group>, i: nat, g: Group, key: string)
    requires i < |groups| && g.key == groups[i].key
    ensures IndexOfKey(groups[i := g], key) == IndexOfKey(groups, key)
  {
    if i > 0 {
      assert groups[i := g][1..] == groups[1..][i - 1 := g];
      IndexOfKeyUpdate(groups[1..], i - 1, g, key);
    } else {
      assert groups[0 := g][1..] == groups[1..];
    }
  }

  /** Appending a group with a new key changes only the record it resolves to. */
  lemma AddedAppend(b: Backend, base: map<Id, Entity>, groups: seq<Group>, g: Group, scope: Filter, id: Id)
    requires id in base && IndexOfKey(groups, g.key) == |groups|
    requires Resolve(b, base, g.text, scope) == Some(id) ==> b.normalise(base[id].data) == g.key
    ensures AdditionsTo(b, base, groups + [g], scope, id) ==
            if Resolve(b, base, g.text, scope) == Some(id) then g.ids else AdditionsTo(b, base, groups, scope, id)
  {
    IndexOfKeyAppend(groups, g, b.normalise(base[id].data));
  }

  /** So does growing a group. */
  lemma AddedUpdate(b: Backend, base: map<Id, Entity>, groups: seq<Group>, i: nat, g: Group, scope: Filter, id: Id)
    requires id in base && i < |groups| && IndexOfKey(groups, g.key) == i && g == groups[i].(ids := g.ids)
    requires Resolve(b, base, g.text, scope) == Some(id) ==> b.normalise(base[id].data) == g.key
    ensures AdditionsTo(b, base, groups[i := g], scope, id) ==
            if Resolve(b, base, g.text, scope) == Some(id) then g.ids else AdditionsTo(b, base, groups, scope, id)
    ensures Resolve(b, base, g.text, scope) == Some(id) ==> AdditionsTo(b, base, groups, scope, id) == groups[i].ids
  {
    IndexOfKeyUpdate(groups, i, g, b.normalise(base[id].data));
  }

  /** The effect of one more group, as a whole map. */
  lemma AddedAfter(b: Backend, base: map<Id, Entity>, groups: seq<Group>, groups': seq<Group>, g: Group, scope: Filter)
    requires forall id :: id in base ==>
               AdditionsTo(b, base, groups', scope, id) ==
               if Resolve(b, base, g.text, scope) == Some(id) then g.ids else AdditionsTo(b, base, groups, scope, id)
    ensures var r, added := Resolve(b, base, g.text, scope), Additions(b, base, groups, scope);
            Additions(b, base, groups', scope) == if r.Some? then added[r.value := g.ids] else added
  {
  }

  lemma UnresolvedAppend(b: Backend, base: map<Id, Entity>, groups: seq<Group>, g: Group, scope: Filter)
    ensures var news := Unresolved(b, base, groups, scope);
            Unresolved(b, base, groups + [g], scope) ==
              if Resolve(b, base, g.text, scope).Some? then news else news + [g]
  {
    assert (groups + [g])[..|groups|] == groups;
  }

  lemma AddedAppendAll(b: Backend, base: map<Id, Entity>, groups: seq<Group>, g: Group, scope: Filter)
    requires IndexOfKey(groups, g.key) == |groups|
    requires KeyOk(b, base, Resolve(b, base, g.text, scope), g.key)
    ensures var r, added := Resolve(b, base, g.text, scope), Additions(b, base, groups, scope);
            Additions(b, base, groups + [g], scope) == if r.Some? then added[r.value := g.ids] else added
  {
    forall id | id in base
      ensures AdditionsTo(b, base, groups + [g], scope, id) ==
              if Resolve(b, base, g.text, scope) == Some(id) then g.ids else AdditionsTo(b, base, groups, scope, id)
    {
      AddedAppend(b, base, groups, g, scope, id);
    }
    AddedAfter(b, base, groups, groups + [g], g, scope);
  }

  lemma SortedLinks(s: set<Id>)
    ensures LinkSet(Sorted(s)) == s
  {
  }

  lemma ApplyGroupShape(b: Backend, x: Index, added: map<Id, set<Id>>, news: seq<Group>, g: Group, scope: Filter,
        y: Index)
    requires Shape(x, added, news, scope, y)
    ensures var r := Resolve(b, x.ents, g.text, scope);
            Shape(x, if r.Some? then added[r.value := g.ids] else added, if r.Some? then news else news + [g], scope,
                  ApplyGroup(b, x.ents, y, g, scope))
  {
    match Resolve(b, x.ents, g.text, scope)
    case Some(id) =>
      var links := LinkSet(x.ents[id].links) + g.ids;
      SortedLinks(links);
      ShapeGrowOld(x, added, news, scope, y, id, x.ents[id].(links := Sorted(links)), g.ids, y.open);
    case None =>
      SortedLinks(g.ids);
      ShapeAppend(x, added, news, scope, y, g, Entity(g.text, g.kind, scope, Sorted(g.ids)), y.open);
  }

  /** One batch step over the snapshot. */
  lemma ApplyGroupRepresents(b: Backend, x: Index, groups: seq<Group>, g: Group, scope: Filter, y: Index)
    requires Represents(b, x, groups, scope, y) && IndexOfKey(groups, g.key) == |groups|
    requires KeyOk(b, x.ents, Resolve(b, x.ents, g.text, scope), g.key)
    ensures Represents(b, x, groups + [g], scope, ApplyGroup(b, x.ents, y, g, scope))
  {
    ApplyGroupShape(b, x, Additions(b, x.ents, groups, scope), Unresolved(b, x.ents, groups, scope), g, scope, y);
    UnresolvedAppend(b, x.ents, groups, g, scope);
    AddedAppendAll(b, x.ents, groups, g, scope);
  }

  /** Before the first group nothing has changed. */
  lemma NothingRepresents(b: Backend, x: Index, scope: Filter, open: bool)
    requires forall id :: id in x.ents ==> id < x.next
    ensures Represents(b, x, [], scope, x.(open := open))
  {
  }

  lemma {:induction false} ApplyGroupsRepresents(b: Backend, pick: set<Id> -> Id, x: Index, groups: seq<Group>,
        scope: Filter)
    requires KeyMatching(b, pick) && KeysDistinct(b, groups)
    requires forall id :: id in x.ents ==> id < x.next
    ensures Represents(b, x, groups, scope, ApplyGroups(b, x.ents, x.(open := true), groups, scope))
    ensures ApplyGroups(b, x.ents, x.(open := true), groups, scope).open
  {
    hide KeyMatching, Represents, Resolve;
    NothingRepresents(b, x, scope, true);
    if groups != [] {
      var init, g := groups[..|groups| - 1], groups[|groups| - 1];
      var y := ApplyGroups(b, x.ents, x.(open := true), init, scope);
      ApplyGroupsRepresents(b, pick, x, init, scope);
      assert groups == init + [g] && IndexOfKey(init, g.key) == |init|;
      SameKeyResolvesAlike(b, pick, x.ents, g.text, g.text, scope);
      ApplyGroupRepresents(b, x, init, g, scope, y);
    }
  }

  // ---------- the one-at-a-time form builds the same shape ----------

  lemma SameCandidatesResolveAlike(b: Backend, pick: set<Id> -> Id, ents: map<Id, Entity>, ents': map<Id, Entity>,
        text: string, scope: Filter)
    requires KeyMatching(b, pick)
    requires Candidates(b, ents, b.normalise(text), scope) == Candidates(b, ents', b.normalise(text), scope)
    ensures Resolve(b, ents, text, scope) == Resolve(b, ents', text, scope)
  {
  }

  lemma OneCandidateResolves(b: Backend, pick: set<Id> -> Id, ents: map<Id, Entity>, text: string, scope: Filter,
        id: Id)
    requires KeyMatching(b, pick) && Candidates(b, ents, b.normalise(text), scope) == {id}
    ensures Resolve(b, ents, text, scope) == Some(id)
  {
    assert pick({id}) in {id};
  }

  lemma NoCandidateMisses(b: Backend, pick: set<Id> -> Id, ents: map<Id, Entity>, text: string, scope: Filter)
    requires KeyMatching(b, pick) && Resolve(b, ents, text, scope) == None
    ensures Candidates(b, ents, b.normalise(text), scope) == {}
  {
  }

  lemma KeyAbsent(groups: seq<Group>, key: string)
    requires forall j :: 0 <= j < |groups| ==> groups[j].key != key
    ensures IndexOfKey(groups, key) == |groups|
  {
  }

  /** A key without an unresolved group has no created record. */
  lemma UnresolvedKeyAbsent(b: Backend, base: map<Id, Entity>, groups: seq<Group>, scope: Filter, key: string)
    requires KeysDistinct(b, groups)
    requires var i := IndexOfKey(groups, key); i < |groups| ==> Resolve(b, base, groups[i].text, scope).Some?
    ensures var news := Unresolved(b, base, groups, scope); IndexOfKey(news, key) == |news|
  {
    var news := Unresolved(b, base, groups, scope);
    UnresolvedAreGroups(b, base, groups, scope);
    forall j | 0 <= j < |news| ensures news[j].key != key {
      var i :| 0 <= i < |groups| && groups[i] == news[j];
      IndexOfKeyUnique(groups, i);
    }
    KeyAbsent(news, key);
  }

  /** An upsert that resolves as it would in the snapshot. */
  lemma UpsertShapeOld(b: Backend, x: Index, added: map<Id, set<Id>>, news: seq<Group>, y: Index, g: Group,
        ids: set<Id>, m: Id, filters: Filter)
    requires Shape(x, added, news, ScopeFilters(filters), y)
    requires Resolve(b, y.ents, g.text, ScopeFilters(filters)) == Resolve(b, x.ents, g.text, ScopeFilters(filters))
    requires var r := Resolve(b, x.ents, g.text, ScopeFilters(filters)); r.Some? ==> added[r.value] + {m} == ids
    requires Resolve(b, x.ents, g.text, ScopeFilters(filters)) == None ==> g.ids == {m}
    ensures var r := Resolve(b, x.ents, g.text, ScopeFilters(filters));
            Shape(x, if r.Some? then added[r.value := ids] else added,
                  if r.Some? then news else news + [g], ScopeFilters(filters),
                  Upsert(b, y, Mention(g.kind, g.text), m, filters))
  {
    var scope := ScopeFilters(filters);
    match Resolve(b, x.ents, g.text, scope)
    case Some(id) => ShapeGrowOld(x, added, news, scope, y, id, AddLink(y.ents[id], m), ids, true);
    case None => ShapeAppend(x, added, news, scope, y, g, Entity(g.text, g.kind, scope, [m]), true);
  }

  /** An upsert whose key has a created record. */
  lemma UpsertShapeNew(b: Backend, x: Index, added: map<Id, set<Id>>, news: seq<Group>, y: Index, mention: Mention,
        m: Id, j: nat, filters: Filter)
    requires Shape(x, added, news, ScopeFilters(filters), y) && j < |news|
    requires Resolve(b, y.ents, mention.text, ScopeFilters(filters)) == Some(x.next + j)
    ensures Shape(x, added, news[j := news[j].(ids := news[j].ids + {m})], ScopeFilters(filters),
      Upsert(b, y, mention, m, filters))
  {
    hide Shape;
    var id, g := x.next + j, news[j].(ids := news[j].ids + {m});
    ShapeRecord(x, added, news, ScopeFilters(filters), y, j);
    ShapeGrowNew(x, added, news, ScopeFilters(filters), y, j, g, AddLink(y.ents[id], m), true);
  }

  /** Over a represented index an absent or resolved key has the candidates it had
      in the snapshot. */
  lemma CandidatesAsBefore(b: Backend, x: Index, groups: seq<Group>, scope: Filter, y: Index, key: string)
    requires KeysDistinct(b, groups) && Represents(b, x, groups, scope, y)
    requires var i := IndexOfKey(groups, key); i < |groups| ==> Resolve(b, x.ents, groups[i].text, scope).Some?
    ensures Candidates(b, y.ents, key, scope) == Candidates(b, x.ents, key, scope)
  {
    UnresolvedKeyAbsent(b, x.ents, groups, scope, key);
    UnresolvedAreGroups(b, x.ents, groups, scope);
    ShapeCandidatesOld(b, x, Additions(b, x.ents, groups, scope), Unresolved(b, x.ents, groups, scope), scope, y, key);
  }

  /** An occurrence with a new key. */
  lemma UpsertNewKey(b: Backend, pick: set<Id> -> Id, x: Index, groups: seq<Group>, y: Index, o: Occurrence,
        filters: Filter)
    requires KeyMatching(b, pick) && KeysDistinct(b, groups)
    requires Represents(b, x, groups, ScopeFilters(filters), y)
    requires IndexOfKey(groups, b.normalise(o.mention.text)) == |groups|
    ensures Represents(b, x, AddOccurrence(b, groups, o), ScopeFilters(filters),
      Upsert(b, y, o.mention, o.memory, filters))
  {
    hide Shape, Candidates, KeyMatching, Resolve, Upsert, Unresolved, KeysDistinct;
    var scope, text, m := ScopeFilters(filters), o.mention.text, o.memory;
    var g := Group(b.normalise(text), o.mention.kind, text, {m});
    CandidatesAsBefore(b, x, groups, scope, y, g.key);
    SameCandidatesResolveAlike(b, pick, x.ents, y.ents, text, scope);
    SameKeyResolvesAlike(b, pick, x.ents, text, text, scope);
    UpsertShapeOld(b, x, Additions(b, x.ents, groups, scope), Unresolved(b, x.ents, groups, scope), y, g, {m}, m,
      filters);
    UnresolvedAppend(b, x.ents, groups, g, scope);
    AddedAppendAll(b, x.ents, groups, g, scope);
  }

  lemma AddedUpdateAll(b: Backend, base: map<Id, Entity>, groups: seq<Group>, i: nat, g: Group, scope: Filter)
    requires i < |groups| && IndexOfKey(groups, g.key) == i && g == groups[i].(ids := g.ids)
    requires KeyOk(b, base, Resolve(b, base, g.text, scope), g.key)
    ensures var r, added := Resolve(b, base, g.text, scope), Additions(b, base, groups, scope);
            && Additions(b, base, groups[i := g], scope) == (if r.Some? then added[r.value := g.ids] else added)
            && (r.Some? ==> added[r.value] == groups[i].ids)
  {
    forall id | id in base
      ensures AdditionsTo(b, base, groups[i := g], scope, id) ==
              if Resolve(b, base, g.text, scope) == Some(id) then g.ids else AdditionsTo(b, base, groups, scope, id)
      ensures Resolve(b, base, g.text, scope) == Some(id) ==> AdditionsTo(b, base, groups, scope, id) == groups[i].ids
    {
      AddedUpdate(b, base, groups, i, g, scope, id);
    }
    AddedAfter(b, base, groups, groups[i := g], g, scope);
  }

  /** An occurrence of a key whose group resolves in the snapshot. */
  lemma UpsertResolvedKey(b: Backend, pick: set<Id> -> Id, x: Index, groups: seq<Group>, y: Index, o: Occurrence,
        i: nat, filters: Filter)
    requires KeyMatching(b, pick) && KeysDistinct(b, groups) && i < |groups|
    requires Represents(b, x, groups, ScopeFilters(filters), y)
    requires IndexOfKey(groups, b.normalise(o.mention.text)) == i
    requires Resolve(b, x.ents, groups[i].text, ScopeFilters(filters)).Some?
    ensures Represents(b, x, AddOccurrence(b, groups, o), ScopeFilters(filters),
      Upsert(b, y, o.mention, o.memory, filters))
  {
    var scope, text := ScopeFilters(filters), o.mention.text;
    var g := groups[i].(ids := groups[i].ids + {o.memory});
    CandidatesAsBefore(b, x, groups, scope, y, g.key);
    SameCandidatesResolveAlike(b, pick, x.ents, y.ents, text, scope);
    SameKeyResolvesAlike(b, pick, x.ents, g.text, text, scope);
    AddedUpdateAll(b, x.ents, groups, i, g, scope);
    UpsertShapeOld(b, x, Additions(b, x.ents, groups, scope), Unresolved(b, x.ents, groups, scope), y,
                   Group(g.key, o.mention.kind, text, {}), g.ids, o.memory, filters);
    var _ := UnresolvedUpdate(b, x.ents, groups, scope, i, g);
  }

  /** An occurrence of a key whose group created a record. */
  lemma UpsertCreatedKey(b: Backend, pick: set<Id> -> Id, x: Index, groups: seq<Group>, y: Index, o: Occurrence,
        i: nat, filters: Filter)
    requires KeyMatching(b, pick) && KeysDistinct(b, groups) && i < |groups|
    requires Represents(b, x, groups, ScopeFilters(filters), y)
    requires IndexOfKey(groups, b.normalise(o.mention.text)) == i
    requires Resolve(b, x.ents, groups[i].text, ScopeFilters(filters)).None?
    ensures Represents(b, x, AddOccurrence(b, groups, o), ScopeFilters(filters),
      Upsert(b, y, o.mention, o.memory, filters))
  {
    var scope := ScopeFilters(filters);
    var g := groups[i].(ids := groups[i].ids + {o.memory});
    var j := CreatedRecordResolves(b, pick, x, groups, y, o.mention.text, i, scope, g);
    AddedUpdateAll(b, x.ents, groups, i, g, scope);
    UpsertShapeNew(b, x, Additions(b, x.ents, groups, scope), Unresolved(b, x.ents, groups, scope), y, o.mention,
      o.memory, j, filters);
  }

  lemma CreatedRecordResolves(b: Backend, pick: set<Id> -> Id, x: Index, groups: seq<Group>, y: Index, text: string,
        i: nat, scope: Filter, g: Group)
    returns (j: nat)
    requires KeyMatching(b, pick) && KeysDistinct(b, groups) && i < |groups|
    requires Represents(b, x, groups, scope, y)
    requires groups[i].key == b.normalise(text) && g == groups[i].(ids := g.ids)
    requires Resolve(b, x.ents, groups[i].text, scope).None?
    ensures var news := Unresolved(b, x.ents, groups, scope);
            && j < |news| && news[j] == groups[i]
            && Unresolved(b, x.ents, groups[i := g], scope) == news[j := g]
            && Resolve(b, y.ents, text, scope) == Some(x.next + j)
  {
    hide Shape, KeyMatching, Candidates, Resolve, Additions, Unresolved;
    var added, news := Additions(b, x.ents, groups, scope), Unresolved(b, x.ents, groups, scope);
    j := UnresolvedUpdate(b, x.ents, groups, scope, i, g);
    UnresolvedAreGroups(b, x.ents, groups, scope);
    IndexOfKeyUnique(news, j);
    NoCandidateMisses(b, pick, x.ents, groups[i].text, scope);
    ShapeCandidatesNew(b, x, added, news, scope, y, g.key, j);
    OneCandidateResolves(b, pick, y.ents, text, scope, x.next + j);
  }

  lemma {:induction false} UpsertAllRepresents(b: Backend, pick: set<Id> -> Id, x: Index, occs: seq<Occurrence>,
        filters: Filter)
    requires KeyMatching(b, pick)
    requires forall id :: id in x.ents ==> id < x.next
    ensures Represents(b, x, GroupAll(b, occs), ScopeFilters(filters), UpsertAll(b, x, occs, filters))
    ensures occs != [] ==> UpsertAll(b, x, occs, filters).open
  {
    hide KeyMatching, Represents, Resolve, AddOccurrence, ScopeFilters;
    NothingRepresents(b, x, ScopeFilters(filters), x.open);
    assert x.(open := x.open) == x;
    if occs != [] {
      var init, o := occs[..|occs| - 1], occs[|occs| - 1];
      var groups, y := GroupAll(b, init), UpsertAll(b, x, init, filters);
      UpsertAllRepresents(b, pick, x, init, filters);
      GroupAllDistinct(b, init);
      var i := IndexOfKey(groups, b.normalise(o.mention.text));
      if i == |groups| {
        UpsertNewKey(b, pick, x, groups, y, o, filters);
      } else if Resolve(b, x.ents, groups[i].text, ScopeFilters(filters)).Some? {
        UpsertResolvedKey(b, pick, x, groups, y, o, i, filters);
      } else {
        UpsertCreatedKey(b, pick, x, groups, y, o, i, filters);
      }
    }
  }

  /** Phase 7 builds the index that upserting every occurrence in order builds:
      the same records under the same ids, each with the first text, the first
      type, the same scope and the same set of linked memories. */
  lemma BatchRefinesUpserts(b: Backend, pick: set<Id> -> Id, x: Index, occs: seq<Occurrence>, filters: Filter)
    requires KeyMatching(b, pick)
    requires forall id :: id in x.ents ==> id < x.next
    ensures SameIndex(LinkBatch(b, x, occs, filters), UpsertAll(b, x, occs, filters))
  {
    if occs != [] {
      var groups, scope := GroupAll(b, occs), ScopeFilters(filters);
      GroupAllDistinct(b, occs);
      ApplyGroupsRepresents(b, pick, x, groups, scope);
      UpsertAllRepresents(b, pick, x, occs, filters);
      ShapeUnique(x, Additions(b, x.ents, groups, scope), Unresolved(b, x.ents, groups, scope), scope,
                  LinkBatch(b, x, occs, filters), UpsertAll(b, x, occs, filters));
    }
  }
}
