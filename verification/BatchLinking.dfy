/** Phase 7 of `_add_to_vector_store`: linking a whole batch of memories with one
    global dedup, one batch search and one batch insert. */
module BatchLinking {
  import opened Stores
  import opened EntityIndex

  /** One entity found in one memory, in extraction order. */
  datatype Occurrence = Occurrence(mention: Mention, memory: Id)

  /** A value of the `global_entities` dict; `key` is its normalised text. */
  datatype Group = Group(key: string, kind: string, text: string, ids: set<Id>)

  // ---------- 7a: global dedup ----------

  function IndexOfKey(groups: seq<Group>, key: string): (r: nat)
    ensures r <= |groups|
    ensures r < |groups| ==> groups[r].key == key
    ensures forall i :: 0 <= i < r ==> groups[i].key != key
  {
    if groups == [] then 0
    else if groups[0].key == key then 0
    else 1 + IndexOfKey(groups[1..], key)
  }

  function AddOccurrence(b: Backend, groups: seq<Group>, o: Occurrence): seq<Group> {
    var key := b.normalise(o.mention.text);
    var i := IndexOfKey(groups, key);
    if i < |groups| then groups[i := groups[i].(ids := groups[i].ids + {o.memory})]
    else groups + [Group(key, o.mention.kind, o.mention.text, {o.memory})]
  }

  function GroupAll(b: Backend, occs: seq<Occurrence>): seq<Group> {
    if occs == [] then []
    else AddOccurrence(b, GroupAll(b, occs[..|occs| - 1]), occs[|occs| - 1])
  }

  // ---------- 7c-7e: search once, then update or insert ----------

  predicate IsLeast(s: set<Id>, m: Id) {
    m in s && forall x | x in s :: m <= x
  }

  lemma {:induction false} LeastExists(s: set<Id>)
    requires s != {}
    ensures exists m :: IsLeast(s, m)
  {
    var x :| x in s;
    var rest := s - {x};
    if rest == {} {
      assert forall y :: y in s ==> y == x || y in rest;
      assert IsLeast(s, x);
    } else {
      LeastExists(rest);
      var m :| IsLeast(rest, m);
      assert forall y :: y in s ==> y == x || y in rest;
      assert IsLeast(s, if x < m then x else m);
    }
  }

  /** Python's `sorted(set)` */
  function Sorted(s: set<Id>): (r: seq<Id>)
    ensures forall x :: x in r <==> x in s
    ensures forall i, j :: 0 <= i < j < |r| ==> r[i] < r[j]
  {
    if s == {} then [] else
    LeastExists(s);
    var m :| IsLeast(s, m);
    [m] + Sorted(s - {m})
  }

  function LinkSet(links: seq<Id>): (r: set<Id>)
    ensures forall x :: x in r <==> x in links
  {
    set x | x in links
  }

  /** One group: `base` is the snapshot the batch search saw. */
  function ApplyGroup(b: Backend, base: map<Id, Entity>, x: Index, g: Group, scope: Filter): Index {
    match Resolve(b, base, g.text, scope)
    case Some(id) => x.(ents := x.ents[id := base[id].(links := Sorted(LinkSet(base[id].links) + g.ids))])
    case None => Index(x.ents[x.next := Entity(g.text, g.kind, scope, Sorted(g.ids))], x.next + 1, x.open)
  }

  function ApplyGroups(b: Backend, base: map<Id, Entity>, x: Index, groups: seq<Group>, scope: Filter): Index {
    if groups == [] then x
    else ApplyGroup(b, base, ApplyGroups(b, base, x, groups[..|groups| - 1], scope), groups[|groups| - 1], scope)
  }

  function LinkBatch(b: Backend, x: Index, occs: seq<Occurrence>, filters: Filter): Index {
    if occs == [] then x
    else ApplyGroups(b, x.ents, x.(open := true), GroupAll(b, occs), ScopeFilters(filters))
  }

  // ---------- the one-at-a-time form ----------

  function UpsertAll(b: Backend, x: Index, occs: seq<Occurrence>, filters: Filter): Index {
    if occs == [] then x
    else var o := occs[|occs| - 1];
         Upsert(b, UpsertAll(b, x, occs[..|occs| - 1], filters), o.mention, o.memory, filters)
  }

  // ---------- soundness of the batch for any ranking ----------

  ghost predicate GroupsOk(b: Backend, groups: seq<Group>, mems: set<Id>) {
    && (forall g :: g in groups ==> g.key == b.normalise(g.text) && g.text != "" && g.ids != {} && g.ids <= mems)
    && (forall i, j :: 0 <= i < j < |groups| ==> groups[i].key != groups[j].key)
  }

  lemma {:induction false} GroupAllOk(b: Backend, occs: seq<Occurrence>, mems: set<Id>)
    requires forall o :: o in occs ==> o.mention.text != "" && o.memory in mems
    ensures GroupsOk(b, GroupAll(b, occs), mems)
  {
    if occs != [] {
      GroupAllOk(b, occs[..|occs| - 1], mems);
    }
  }

  /** The scope of the record that a group's memories get linked to. */
  function GroupScope(b: Backend, base: map<Id, Entity>, g: Group, scope: Filter): Filter {
    match Resolve(b, base, g.text, scope)
    case Some(id) => base[id].scope
    case None => scope
  }

  /** Every group ends up in a record that is in scope for the given session. */
  ghost predicate GroupsFollow(b: Backend, base: map<Id, Entity>, groups: seq<Group>, scope: Filter, session: Filter) {
    forall g :: g in groups ==> Matches(session, GroupScope(b, base, g, scope))
  }

  lemma ApplyGroupKeeps(b: Backend, base: Index, x: Index, g: Group, scope: Filter, sess: map<Id, Filter>)
    requires IndexOk(base, sess) && IndexOk(x, sess) && x.open && base.next <= x.next
    requires g.text != "" && g.ids != {}
    requires forall m :: m in g.ids ==> m in sess && Matches(sess[m], GroupScope(b, base.ents, g, scope))
    ensures var y := ApplyGroup(b, base.ents, x, g, scope);
            IndexOk(y, sess) && y.open && x.next <= y.next
  {
    match Resolve(b, base.ents, g.text, scope)
    case None =>
      var links := Sorted(g.ids);
      var m :| m in g.ids;
      assert m in links;
    case Some(id) =>
      var e := base.ents[id].(links := Sorted(LinkSet(base.ents[id].links) + g.ids));
      assert EntityOk(base.ents[id], sess) && base.ents[id].links[0] in e.links;
      forall m | m in e.links ensures m in sess && Matches(sess[m], e.scope) { }
      assert EntityOk(e, sess);
  }

  lemma {:induction false} ApplyGroupsKeeps(b: Backend, base: Index, x: Index, groups: seq<Group>, scope: Filter,
        sess: map<Id, Filter>)
    requires IndexOk(base, sess) && IndexOk(x, sess) && x.open && base.next <= x.next
    requires forall g :: g in groups ==> g.text != "" && g.ids != {}
    requires forall g, m :: g in groups && m in g.ids ==>
               m in sess && Matches(sess[m], GroupScope(b, base.ents, g, scope))
    ensures var y := ApplyGroups(b, base.ents, x, groups, scope);
            IndexOk(y, sess) && y.open && x.next <= y.next
  {
    if groups != [] {
      var init := groups[..|groups| - 1];
      ApplyGroupsKeeps(b, base, x, init, scope, sess);
      ApplyGroupKeeps(b, base, ApplyGroups(b, base.ents, x, init, scope), groups[|groups| - 1], scope, sess);
    }
  }

  /** Whatever the store ranks first, a batch leaves the index sound when every group ends up
      in scope for its memories, even when two groups overwrite one record from the same
      snapshot. */
  lemma LinkBatchKeeps(b: Backend, x: Index, occs: seq<Occurrence>, filters: Filter, sess: map<Id, Filter>,
        mems: set<Id>)
    requires IndexOk(x, sess)
    requires forall o :: o in occs ==> o.mention.text != "" && o.memory in mems
    requires forall g, m :: g in GroupAll(b, occs) && m in g.ids ==>
               m in sess && Matches(sess[m], GroupScope(b, x.ents, g, ScopeFilters(filters)))
    ensures IndexOk(LinkBatch(b, x, occs, filters), sess)
  {
    if occs != [] {
      GroupAllOk(b, occs, mems);
      ApplyGroupsKeeps(b, x, x.(open := true), GroupAll(b, occs), ScopeFilters(filters), sess);
    }
  }

  // ---------- memories of another session ----------

  /** `y` holds the records of the snapshot `base` with their scopes, and its ids are below
      its next one. */
  ghost predicate Over(base: map<Id, Entity>, y: Index) {
    && (forall id :: id in base ==> id in y.ents && y.ents[id].scope == base[id].scope)
    && forall id :: id in y.ents ==> id < y.next
  }

  /** Some record out of scope for the session lists one of the memories. */
  ghost predicate Astray(y: Index, mems: set<Id>, session: Filter) {
    exists e, m :: Lists(y, e, m) && m in mems && !Matches(session, y.ents[e].scope)
  }

  lemma ApplyGroupOver(b: Backend, base: map<Id, Entity>, y: Index, g: Group, scope: Filter)
    requires Over(base, y)
    ensures Over(base, ApplyGroup(b, base, y, g, scope))
  {
  }

  lemma {:induction false} ApplyGroupsOver(b: Backend, base: map<Id, Entity>, x: Index, groups: seq<Group>,
        scope: Filter)
    requires Over(base, x)
    ensures Over(base, ApplyGroups(b, base, x, groups, scope))
  {
    hide ApplyGroup, Over;
    if groups != [] {
      var init := groups[..|groups| - 1];
      ApplyGroupsOver(b, base, x, init, scope);
      ApplyGroupOver(b, base, ApplyGroups(b, base, x, init, scope), groups[|groups| - 1], scope);
    }
  }

  /** A group that ends up out of scope leads its memories astray. */
  lemma ApplyGroupStrays(b: Backend, base: map<Id, Entity>, y: Index, g: Group, scope: Filter, mems: set<Id>,
        session: Filter)
    requires g.ids != {} && g.ids <= mems && !Matches(session, GroupScope(b, base, g, scope))
    ensures Astray(ApplyGroup(b, base, y, g, scope), mems, session)
  {
    hide Matches;
    var m :| m in g.ids;
    var e := match Resolve(b, base, g.text, scope) case Some(id) => id case None => y.next;
    assert Lists(ApplyGroup(b, base, y, g, scope), e, m);
  }

  /** And later groups do not mend that: one that overwrites the record links it again. */
  lemma ApplyGroupStaysAstray(b: Backend, base: map<Id, Entity>, y: Index, g: Group, scope: Filter, mems: set<Id>,
        session: Filter)
    requires Over(base, y) && Astray(y, mems, session) && g.ids != {} && g.ids <= mems
    ensures Astray(ApplyGroup(b, base, y, g, scope), mems, session)
  {
    hide Matches;
    var e, m :| Lists(y, e, m) && m in mems && !Matches(session, y.ents[e].scope);
    var z := ApplyGroup(b, base, y, g, scope);
    var n :| n in g.ids;
    if Resolve(b, base, g.text, scope) .Some? && Resolve(b, base, g.text, scope).value == e {
      assert Lists(z, e, n);
    } else {
      assert Lists(z, e, m) && z.ents[e] == y.ents[e];
    }
  }

  lemma {:induction false} ApplyGroupsStray(b: Backend, base: map<Id, Entity>, x: Index, groups: seq<Group>,
        scope: Filter, mems: set<Id>, session: Filter)
    requires Over(base, x) && !GroupsFollow(b, base, groups, scope, session)
    requires forall g :: g in groups ==> g.ids != {} && g.ids <= mems
    ensures Astray(ApplyGroups(b, base, x, groups, scope), mems, session)
  {
    hide ApplyGroup, Over, Astray, Matches, GroupScope;
    var init, g := groups[..|groups| - 1], groups[|groups| - 1];
    var y := ApplyGroups(b, base, x, init, scope);
    assert forall h :: h in groups ==> h in init || h == g;
    if Matches(session, GroupScope(b, base, g, scope)) {
      ApplyGroupsStray(b, base, x, init, scope, mems, session);
      ApplyGroupsOver(b, base, x, init, scope);
      ApplyGroupStaysAstray(b, base, y, g, scope, mems, session);
    } else {
      ApplyGroupStrays(b, base, y, g, scope, mems, session);
    }
  }

  lemma LinkBatchStrays(b: Backend, x: Index, occs: seq<Occurrence>, filters: Filter, mems: set<Id>, session: Filter)
    requires forall id :: id in x.ents ==> id < x.next
    requires forall o :: o in occs ==> o.mention.text != "" && o.memory in mems
    requires !GroupsFollow(b, x.ents, GroupAll(b, occs), ScopeFilters(filters), session)
    ensures Astray(LinkBatch(b, x, occs, filters), mems, session)
  {
    hide Matches, ApplyGroups, GroupScope, Astray;
    GroupAllOk(b, occs, mems);
    ApplyGroupsStray(b, x.ents, x.(open := true), GroupAll(b, occs), ScopeFilters(filters), mems, session);
  }

  /** Whatever the store ranks first, and even when two groups overwrite one record from the
      same snapshot: a batch of memories of one session leaves a sound index sound iff every
      group ends up in a record that is in scope for that session. */
  lemma LinkBatchKeepsIff(b: Backend, x: Index, occs: seq<Occurrence>, filters: Filter, sess: map<Id, Filter>,
        mems: set<Id>, session: Filter)
    requires IndexOk(x, sess)
    requires forall o :: o in occs ==> o.mention.text != "" && o.memory in mems
    requires forall m :: m in mems ==> m in sess && sess[m] == session
    ensures IndexOk(LinkBatch(b, x, occs, filters), sess)
       <==> GroupsFollow(b, x.ents, GroupAll(b, occs), ScopeFilters(filters), session)
  {
    hide Matches, LinkBatch, GroupScope;
    GroupAllOk(b, occs, mems);
    if GroupsFollow(b, x.ents, GroupAll(b, occs), ScopeFilters(filters), session) {
      LinkBatchKeeps(b, x, occs, filters, sess, mems);
    } else {
      LinkBatchStrays(b, x, occs, filters, mems, session);
      AstrayIsUnsound(LinkBatch(b, x, occs, filters), mems, session, sess);
    }
  }

  lemma AstrayIsUnsound(y: Index, mems: set<Id>, session: Filter, sess: map<Id, Filter>)
    requires Astray(y, mems, session) && forall m :: m in mems ==> m in sess && sess[m] == session
    ensures !IndexOk(y, sess)
  {
    var e, m :| Lists(y, e, m) && m in mems && !Matches(session, y.ents[e].scope);
    assert !EntityOk(y.ents[e], sess);
  }

  /** In particular when the session is that of the scope the batch was called for. */
  lemma ScopeFollows(b: Backend, base: map<Id, Entity>, groups: seq<Group>, scope: Filter, session: Filter)
    requires Matches(session, scope)
    ensures GroupsFollow(b, base, groups, scope, session)
  {
    forall g | g in groups ensures Matches(session, GroupScope(b, base, g, scope)) {
      MatchesTransitive(session, scope, GroupScope(b, base, g, scope));
    }
  }

  /** Linking only takes ids. */
  lemma {:induction false} ApplyGroupsNext(b: Backend, base: map<Id, Entity>, x: Index, groups: seq<Group>,
        scope: Filter)
    ensures x.next <= ApplyGroups(b, base, x, groups, scope).next
  {
    if groups != [] { ApplyGroupsNext(b, base, x, groups[..|groups| - 1], scope); }
  }

  lemma LinkBatchNext(b: Backend, x: Index, occs: seq<Occurrence>, filters: Filter)
    ensures x.next <= LinkBatch(b, x, occs, filters).next
  {
    ApplyGroupsNext(b, x.ents, x.(open := true), GroupAll(b, occs), ScopeFilters(filters));
  }
}
