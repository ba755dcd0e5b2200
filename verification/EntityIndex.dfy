/** The entity store: an inverted index from entity records to the memories
    that mention them, as `_upsert_entity`, `_link_entities_for_memory` and
    `_remove_memory_from_entity_store` maintain it. */
module EntityIndex {
  import opened Wrappers
  import opened Stores

  /** `next` is the uuid4 supply; `open` says the lazily created store exists. */
  datatype Index = Index(ents: map<Id, Entity>, next: Id, open: bool)

  const MATCH_SCORE := 0.95

  /** Equal but for the links. */
  predicate SameRecord(e: Entity, e': Entity) {
    e'.data == e.data && e'.kind == e.kind && e'.scope == e.scope
  }

  predicate Lists(x: Index, id: Id, m: Id) {
    id in x.ents && m in x.ents[id].links
  }

  /** The record a text resolves to: the best hit, when it is close enough. */
  function Resolve(b: Backend, ents: map<Id, Entity>, text: string, filter: Filter): (r: Option<Id>)
    ensures r.Some? ==> r.value in ents && Matches(filter, ents[r.value].scope)
  {
    match Search(b, ents, text, filter)
    case Some(h) => if h.score >= MATCH_SCORE then Some(h.id) else None
    case None => None
  }

  // ---------- the specification of each operation ----------

  function AddLink(e: Entity, m: Id): Entity {
    if m in e.links then e else e.(links := e.links + [m])
  }

  function Upsert(b: Backend, x: Index, mention: Mention, m: Id, filters: Filter): Index {
    var scope := ScopeFilters(filters);
    match Resolve(b, x.ents, mention.text, scope)
    case Some(id) => Index(x.ents[id := AddLink(x.ents[id], m)], x.next, true)
    case None => Index(x.ents[x.next := Entity(mention.text, mention.kind, scope, [m])], x.next + 1, true)
  }

  /** The record `Upsert` leaves linked to the memory. */
  function Target(b: Backend, x: Index, mention: Mention, filters: Filter): Id {
    match Resolve(b, x.ents, mention.text, ScopeFilters(filters))
    case Some(id) => id
    case None => x.next
  }

  /** The loop of `_link_entities_for_memory`, skipping blank and repeated keys. */
  function LinkAll(b: Backend, x: Index, mentions: seq<Mention>, seen: set<string>, m: Id, filters: Filter): Index
    decreases |mentions|
  {
    if mentions == [] then x else
    var key := b.normalise(mentions[0].text);
    if key == "" || key in seen then LinkAll(b, x, mentions[1..], seen, m, filters)
    else LinkAll(b, Upsert(b, x, mentions[0], m, filters), mentions[1..], seen + {key}, m, filters)
  }

  /** The records that loop resolves or creates. */
  function LinkTargets(b: Backend, x: Index, mentions: seq<Mention>, seen: set<string>, m: Id, filters: Filter): set<Id>
    decreases |mentions|
  {
    if mentions == [] then {} else
    var key := b.normalise(mentions[0].text);
    if key == "" || key in seen then LinkTargets(b, x, mentions[1..], seen, m, filters)
    else {Target(b, x, mentions[0], filters)}
         + LinkTargets(b, Upsert(b, x, mentions[0], m, filters), mentions[1..], seen + {key}, m, filters)
  }

  /** One record of the cleanup loop; None means the record is deleted.  A
      record without text is skipped unless it becomes empty. */
  function Stripped(e: Entity, m: Id): Option<Entity> {
    if m !in e.links then Some(e) else
    var remaining := Without(e.links, m);
    if remaining == [] then None
    else if e.data == "" then Some(e)
    else Some(e.(links := remaining))
  }

  function StripRows(ents: map<Id, Entity>, rows: set<Id>, m: Id): map<Id, Entity> {
    map id | id in ents && (id in rows ==> Stripped(ents[id], m).Some?) ::
      if id in rows then Stripped(ents[id], m).value else ents[id]
  }

  function Strip(b: Backend, x: Index, m: Id, filters: Filter): Index {
    if !x.open then x
    else x.(ents := StripRows(x.ents, Listed(b, x.ents, ScopeFilters(filters)), m))
  }

  // ---------- what every operation keeps ----------

  /** A record is sound for `sess`, the session filters of the live memories. */
  ghost predicate EntityOk(e: Entity, sess: map<Id, Filter>) {
    && e.data != ""
    && e.links != [] && NoDup(e.links)
    && forall m :: m in e.links ==> m in sess && Matches(sess[m], e.scope)
  }

  ghost predicate IndexOk(x: Index, sess: map<Id, Filter>) {
    && (!x.open ==> x.ents == map[])
    && forall id :: id in x.ents ==> id < x.next && EntityOk(x.ents[id], sess)
  }

  lemma UpsertKeeps(b: Backend, x: Index, mention: Mention, m: Id, filters: Filter, sess: map<Id, Filter>)
    requires IndexOk(x, sess) && mention.text != ""
    requires m in sess && Matches(sess[m], ScopeFilters(filters))
    ensures IndexOk(Upsert(b, x, mention, m, filters), sess)
  {
    match Resolve(b, x.ents, mention.text, ScopeFilters(filters))
    case None =>
    case Some(id) =>
      MatchesTransitive(sess[m], ScopeFilters(filters), x.ents[id].scope);
      assert EntityOk(AddLink(x.ents[id], m), sess);
  }

  /** An upsert adds exactly one link and rewrites nothing else of the index. */
  lemma UpsertExact(b: Backend, x: Index, mention: Mention, m: Id, filters: Filter)
    requires forall id :: id in x.ents ==> id < x.next
    ensures var y, t := Upsert(b, x, mention, m, filters), Target(b, x, mention, filters);
            && y.ents.Keys == x.ents.Keys + {t} && x.next <= y.next && t < y.next
            && (forall e, k :: Lists(y, e, k) <==> Lists(x, e, k) || (e == t && k == m))
            && (forall e :: e in x.ents ==> SameRecord(x.ents[e], y.ents[e]))
            && Matches(ScopeFilters(filters), y.ents[t].scope)
  {
  }

  lemma {:induction false} LinkAllKeeps(b: Backend, x: Index, mentions: seq<Mention>, seen: set<string>, m: Id,
        filters: Filter, sess: map<Id, Filter>)
    requires IndexOk(x, sess) && (forall i :: 0 <= i < |mentions| ==> mentions[i].text != "")
    requires m in sess && Matches(sess[m], ScopeFilters(filters))
    ensures IndexOk(LinkAll(b, x, mentions, seen, m, filters), sess)
    ensures x.next <= LinkAll(b, x, mentions, seen, m, filters).next
    decreases |mentions|
  {
    if mentions != [] {
      var key := b.normalise(mentions[0].text);
      if key == "" || key in seen {
        LinkAllKeeps(b, x, mentions[1..], seen, m, filters, sess);
      } else {
        UpsertKeeps(b, x, mentions[0], m, filters, sess);
        LinkAllKeeps(b, Upsert(b, x, mentions[0], m, filters), mentions[1..], seen + {key}, m, filters, sess);
      }
    }
  }

  /** Linking a memory touches exactly the records it resolves or creates. */
  lemma {:induction false} LinkAllExact(b: Backend, x: Index, mentions: seq<Mention>, seen: set<string>, m: Id,
        filters: Filter)
    requires forall id :: id in x.ents ==> id < x.next
    ensures var y, targets := LinkAll(b, x, mentions, seen, m, filters), LinkTargets(b, x, mentions, seen, m, filters);
            && y.ents.Keys == x.ents.Keys + targets
            && (forall e, k :: Lists(y, e, k) <==> Lists(x, e, k) || (e in targets && k == m))
            && (forall e :: e in x.ents ==> SameRecord(x.ents[e], y.ents[e]))
    decreases |mentions|
  {
    if mentions != [] {
      var key := b.normalise(mentions[0].text);
      if key == "" || key in seen {
        LinkAllExact(b, x, mentions[1..], seen, m, filters);
      } else {
        UpsertExact(b, x, mentions[0], m, filters);
        LinkAllExact(b, Upsert(b, x, mentions[0], m, filters), mentions[1..], seen + {key}, m, filters);
      }
    }
  }

  /** The distinct non-blank keys that are still to be linked. */
  function KeysLeft(b: Backend, mentions: seq<Mention>, seen: set<string>): set<string> {
    set mention | mention in mentions && b.normalise(mention.text) !in seen + {""} :: b.normalise(mention.text)
  }

  lemma KeysLeftStep(b: Backend, mentions: seq<Mention>, seen: set<string>)
    requires mentions != []
    ensures var key := b.normalise(mentions[0].text);
            if key == "" || key in seen then KeysLeft(b, mentions, seen) == KeysLeft(b, mentions[1..], seen)
            else |KeysLeft(b, mentions, seen)| == 1 + |KeysLeft(b, mentions[1..], seen + {key})|
  {
    var key, rest := b.normalise(mentions[0].text), mentions[1..];
    assert forall o :: o in mentions <==> o == mentions[0] || o in rest;
    if key != "" && key !in seen {
      assert KeysLeft(b, mentions, seen) == KeysLeft(b, rest, seen + {key}) + {key};
    }
  }

  /** For any ranking, no more records than distinct non-blank keys are linked: each key once. */
  lemma {:induction false} LinkTargetsBound(b: Backend, x: Index, mentions: seq<Mention>, seen: set<string>, m: Id,
        filters: Filter)
    ensures |LinkTargets(b, x, mentions, seen, m, filters)| <= |KeysLeft(b, mentions, seen)|
    decreases |mentions|
  {
    hide Upsert, Target, KeysLeft;
    if mentions != [] {
      var key, rest := b.normalise(mentions[0].text), mentions[1..];
      KeysLeftStep(b, mentions, seen);
      if key == "" || key in seen {
        LinkTargetsBound(b, x, rest, seen, m, filters);
      } else {
        LinkTargetsBound(b, Upsert(b, x, mentions[0], m, filters), rest, seen + {key}, m, filters);
      }
    }
  }

  lemma UpsertScope(b: Backend, x: Index, mention: Mention, m: Id, filters: Filter)
    requires forall id :: id in x.ents ==> id < x.next
    ensures var y, t := Upsert(b, x, mention, m, filters), Target(b, x, mention, filters);
            && t in y.ents && Matches(ScopeFilters(filters), y.ents[t].scope)
            && (forall e :: e in y.ents && e !in x.ents ==> x.next <= e && y.ents[e].scope == ScopeFilters(filters))
  {
  }

  /** The records it resolves to are in scope, and those it creates are new and have just that
      scope. */
  lemma {:induction false} LinkAllScopes(b: Backend, x: Index, mentions: seq<Mention>, seen: set<string>, m: Id,
        filters: Filter)
    requires forall id :: id in x.ents ==> id < x.next
    ensures var y, targets := LinkAll(b, x, mentions, seen, m, filters), LinkTargets(b, x, mentions, seen, m, filters);
            && (forall e :: e in targets ==> e in y.ents && Matches(ScopeFilters(filters), y.ents[e].scope))
            && (forall e :: e in y.ents && e !in x.ents ==> x.next <= e && y.ents[e].scope == ScopeFilters(filters))
    decreases |mentions|
  {
    hide Matches, ScopeFilters, Upsert, Target, Lists;
    if mentions != [] {
      var key := b.normalise(mentions[0].text);
      if key == "" || key in seen {
        LinkAllScopes(b, x, mentions[1..], seen, m, filters);
      } else {
        var y := Upsert(b, x, mentions[0], m, filters);
        UpsertExact(b, x, mentions[0], m, filters);
        UpsertScope(b, x, mentions[0], m, filters);
        LinkAllExact(b, y, mentions[1..], seen + {key}, m, filters);
        LinkAllScopes(b, y, mentions[1..], seen + {key}, m, filters);
      }
    }
  }

  /** Cleanup never adds a link, and the links it leaves behind are exactly
      those of other memories, of unlisted records and of records without text. */
  lemma StripExact(b: Backend, x: Index, m: Id, filters: Filter)
    ensures var y := Strip(b, x, m, filters);
            && y.next == x.next && y.open == x.open && y.ents.Keys <= x.ents.Keys
            && (forall e, k :: Lists(y, e, k) <==> Lists(x, e, k) && (k == m ==> Survives(b, x, e, m, filters)))
            && (forall e :: e in y.ents ==> SameRecord(x.ents[e], y.ents[e]))
  {
    var y := Strip(b, x, m, filters);
    forall e, k ensures Lists(y, e, k) <==> Lists(x, e, k) && (k == m ==> Survives(b, x, e, m, filters)) {
      if x.open && e in x.ents && m in x.ents[e].links {
        var remaining := Without(x.ents[e].links, m);
        if k in x.ents[e].links && k != m { assert k in remaining; }
      }
    }
  }

  /** Whether the cleanup of `m` leaves record `e` alone although it lists `m`. */
  ghost predicate Survives(b: Backend, x: Index, e: Id, m: Id, filters: Filter)
    requires e in x.ents
  {
    || !x.open
    || e !in Listed(b, x.ents, ScopeFilters(filters))
    || (x.ents[e].data == "" && Without(x.ents[e].links, m) != [])
  }

  /** Cleanup is complete iff every record listing the memory is one it can reach. */
  lemma StripComplete(b: Backend, x: Index, m: Id, filters: Filter)
    ensures (forall e :: !Lists(Strip(b, x, m, filters), e, m))
       <==> (forall e :: Lists(x, e, m) ==> !Survives(b, x, e, m, filters))
  {
    StripExact(b, x, m, filters);
  }

  /** The reachable case: a sound, open index whose records listing `m` are all in scope. */
  lemma StripKeeps(b: Backend, x: Index, m: Id, filters: Filter, sess: map<Id, Filter>)
    requires IndexOk(x, sess)
    requires |InScope(x.ents, ScopeFilters(filters))| <= 10_000
    requires forall e :: Lists(x, e, m) ==> Matches(ScopeFilters(filters), x.ents[e].scope)
    ensures var y := Strip(b, x, m, filters);
            IndexOk(y, sess - {m}) && forall e :: !Lists(y, e, m)
  {
    var y := Strip(b, x, m, filters);
    StripComplete(b, x, m, filters);
    StripExact(b, x, m, filters);
    forall id | id in y.ents ensures EntityOk(y.ents[id], sess - {m}) {
      WithoutKeepsNoDup(x.ents[id].links, m);
      assert EntityOk(x.ents[id], sess);
      assert !Lists(y, id, m);
    }
  }

  /** Soundness only looks at the session filters of linked memories. */
  lemma IndexOkExtends(x: Index, sess: map<Id, Filter>, bigger: map<Id, Filter>)
    requires IndexOk(x, sess)
    requires forall m :: m in sess ==> m in bigger && bigger[m] == sess[m]
    ensures IndexOk(x, bigger)
  {
  }

  /** Linking only takes ids. */
  lemma {:induction false} LinkAllNext(b: Backend, x: Index, mentions: seq<Mention>, seen: set<string>, m: Id,
        filters: Filter)
    ensures x.next <= LinkAll(b, x, mentions, seen, m, filters).next
    decreases |mentions|
  {
    if mentions != [] {
      var key := b.normalise(mentions[0].text);
      if key == "" || key in seen {
        LinkAllNext(b, x, mentions[1..], seen, m, filters);
      } else {
        LinkAllNext(b, Upsert(b, x, mentions[0], m, filters), mentions[1..], seen + {key}, m, filters);
      }
    }
  }
}
