/** Phase 7 against the single-memory path it batches: folding
    `_link_entities_for_memory` over the same records. */
module LinkingTheorems {
  import opened Stores
  import opened EntityIndex
  import opened BatchLinking
  import opened BatchRefinement
  import opened MemoryState

  function LinkEach(b: Backend, x: Index, records: seq<Record>, filters: Filter): Index
    decreases |records|
  {
    if records == [] then x
    else LinkEach(b, LinkAll(b, x, b.extract(records[0].text), {}, records[0].id, filters), records[1..], filters)
  }

  ghost predicate HasOccurrence(b: Backend, occs: seq<Occurrence>, key: string, m: Id) {
    exists k :: 0 <= k < |occs| && b.normalise(occs[k].mention.text) == key && occs[k].memory == m
  }

  lemma {:induction false} GroupAllHas(b: Backend, occs: seq<Occurrence>, key: string, m: Id)
    requires HasOccurrence(b, occs, key, m)
    ensures var groups := GroupAll(b, occs);
            var i := IndexOfKey(groups, key);
            i < |groups| && m in groups[i].ids
  {
    var n := |occs| - 1;
    var before, o := GroupAll(b, occs[..n]), occs[n];
    var i := IndexOfKey(before, b.normalise(o.mention.text));
    var k :| 0 <= k < |occs| && b.normalise(occs[k].mention.text) == key && occs[k].memory == m;
    if k < n {
      assert occs[..n][k] == occs[k];
      GroupAllHas(b, occs[..n], key, m);
    }
    if i < |before| {
      IndexOfKeyUpdate(before, i, before[i].(ids := before[i].ids + {o.memory}), key);
    } else {
      IndexOfKeyAppend(before, Group(b.normalise(o.mention.text), o.mention.kind, o.mention.text, {o.memory}), key);
    }
  }

  /** After upserting a memory's key, that key resolves to a record with that key listing the memory. */
  lemma ResolvesToListing(b: Backend, pick: set<Id> -> Id, x: Index, occs: seq<Occurrence>, filters: Filter,
        text: string, m: Id)
    requires KeyMatching(b, pick) && forall id :: id in x.ents ==> id < x.next
    requires HasOccurrence(b, occs, b.normalise(text), m)
    ensures var y := UpsertAll(b, x, occs, filters);
            var r := Resolve(b, y.ents, text, ScopeFilters(filters));
            && y.open && r.Some? && m in y.ents[r.value].links
            && b.normalise(y.ents[r.value].data) == b.normalise(text)
  {
    hide Represents, KeyMatching, Resolve, UpsertAll, Unresolved;
    var y, groups, scope, key := UpsertAll(b, x, occs, filters), GroupAll(b, occs), ScopeFilters(filters),
      b.normalise(text);
    var i := IndexOfKey(groups, key);
    GroupAllHas(b, occs, key, m);
    GroupAllDistinct(b, occs);
    UpsertAllRepresents(b, pick, x, occs, filters);
    SameKeyResolvesAlike(b, pick, y.ents, text, text, scope);
    ResolvesToGroup(b, pick, x, groups, scope, y, text, i);
    var r := Resolve(b, y.ents, text, scope);
    assert m in LinkSet(y.ents[r.value].links);
  }

  lemma ResolvesToGroup(b: Backend, pick: set<Id> -> Id, x: Index, groups: seq<Group>, scope: Filter, y: Index,
        text: string, i: nat)
    requires KeyMatching(b, pick) && KeysDistinct(b, groups) && Represents(b, x, groups, scope, y)
    requires IndexOfKey(groups, b.normalise(text)) == i && i < |groups|
    ensures var r := Resolve(b, y.ents, text, scope); r.Some? && groups[i].ids <= LinkSet(y.ents[r.value].links)
  {
    hide KeyMatching, Resolve, Unresolved, Candidates;
    if Resolve(b, x.ents, groups[i].text, scope).Some? {
      CandidatesAsBefore(b, x, groups, scope, y, b.normalise(text));
      SameCandidatesResolveAlike(b, pick, x.ents, y.ents, text, scope);
      SameKeyResolvesAlike(b, pick, x.ents, text, groups[i].text, scope);
      var id := Resolve(b, x.ents, text, scope).value;
      assert Grown(x.ents[id], y.ents[id], Additions(b, x.ents, groups, scope)[id]);
    } else {
      var j := CreatedRecordResolves(b, pick, x, groups, y, text, i, scope, groups[i]);
      ShapeRecord(x, Additions(b, x.ents, groups, scope), Unresolved(b, x.ents, groups, scope), scope, y, j);
    }
  }

  /** Upserting a key a memory already has changes nothing. */
  lemma RepeatIsNoop(b: Backend, pick: set<Id> -> Id, x: Index, occs: seq<Occurrence>, filters: Filter, o: Occurrence)
    requires KeyMatching(b, pick) && forall id :: id in x.ents ==> id < x.next
    requires HasOccurrence(b, occs, b.normalise(o.mention.text), o.memory)
    ensures Upsert(b, UpsertAll(b, x, occs, filters), o.mention, o.memory, filters) == UpsertAll(b, x, occs, filters)
  {
    ResolvesToListing(b, pick, x, occs, filters, o.mention.text, o.memory);
  }

  lemma UpsertAllSnoc(b: Backend, x: Index, occs: seq<Occurrence>, o: Occurrence, filters: Filter)
    ensures UpsertAll(b, x, occs + [o], filters)
      == Upsert(b, UpsertAll(b, x, occs, filters), o.mention, o.memory, filters)
  {
    assert (occs + [o])[..|occs|] == occs;
  }

  lemma {:induction false} LinkAllIsUpserts(b: Backend, pick: set<Id> -> Id, x: Index, before: seq<Occurrence>,
        mentions: seq<Mention>, seen: set<string>, m: Id, filters: Filter)
    requires KeyMatching(b, pick) && forall id :: id in x.ents ==> id < x.next
    requires forall k :: 0 <= k < |mentions| ==> b.normalise(mentions[k].text) != ""
    requires forall key :: key in seen ==> HasOccurrence(b, before, key, m)
    ensures LinkAll(b, UpsertAll(b, x, before, filters), mentions, seen, m, filters)
         == UpsertAll(b, x, before + OccurrencesIn(mentions, m), filters)
    decreases |mentions|
  {
    if mentions == [] {
      assert before + [] == before;
    } else {
      var o, rest := Occurrence(mentions[0], m), mentions[1..];
      var key, after := b.normalise(o.mention.text), before + [o];
      assert before + OccurrencesIn(mentions, m) == after + OccurrencesIn(rest, m);
      UpsertAllSnoc(b, x, before, o, filters);
      assert after[|before|] == o;
      forall k | k in seen + {key} ensures HasOccurrence(b, after, k, m) {
        if k != key {
          var i :| 0 <= i < |before| && b.normalise(before[i].mention.text) == k && before[i].memory == m;
          assert after[i] == before[i];
        }
      }
      if key in seen {
        RepeatIsNoop(b, pick, x, before, filters, o);
        LinkAllIsUpserts(b, pick, x, after, rest, seen, m, filters);
      } else {
        LinkAllIsUpserts(b, pick, x, after, rest, seen + {key}, m, filters);
      }
    }
  }

  ghost predicate NoBlankKeys(b: Backend, records: seq<Record>) {
    forall i, k :: 0 <= i < |records| && 0 <= k < |b.extract(records[i].text)| ==>
      b.normalise(b.extract(records[i].text)[k].text) != ""
  }

  lemma NoBlankTail(b: Backend, records: seq<Record>)
    requires records != [] && NoBlankKeys(b, records)
    ensures NoBlankKeys(b, records[1..])
    ensures forall k :: 0 <= k < |b.extract(records[0].text)| ==> b.normalise(b.extract(records[0].text)[k].text) != ""
  {
  }

  lemma {:induction false} LinkEachIsUpserts(b: Backend, pick: set<Id> -> Id, x: Index, before: seq<Occurrence>,
        records: seq<Record>, filters: Filter)
    requires KeyMatching(b, pick) && forall id :: id in x.ents ==> id < x.next
    requires NoBlankKeys(b, records)
    ensures LinkEach(b, UpsertAll(b, x, before, filters), records, filters)
         == UpsertAll(b, x, before + Occurrences(b, records), filters)
    decreases |records|
  {
    hide KeyMatching, UpsertAll, NoBlankKeys, LinkAll, OccurrencesIn, HasOccurrence;
    if records == [] {
      assert before + [] == before;
    } else {
      var own := OccurrencesIn(b.extract(records[0].text), records[0].id);
      NoBlankTail(b, records);
      LinkAllIsUpserts(b, pick, x, before, b.extract(records[0].text), {}, records[0].id, filters);
      LinkEachIsUpserts(b, pick, x, before + own, records[1..], filters);
      assert before + Occurrences(b, records) == before + own + Occurrences(b, records[1..]);
    }
  }

  // ---------- blank keys ----------

  /** Every record listing one of `mems` has a non-blank key. */
  ghost predicate OnlyNamed(b: Backend, y: Index, mems: set<Id>) {
    forall e, m :: m in mems && Lists(y, e, m) ==> b.normalise(y.ents[e].data) != ""
  }

  lemma {:induction false} LinkAllOnlyNamed(b: Backend, pick: set<Id> -> Id, x: Index, mentions: seq<Mention>,
        seen: set<string>, m: Id, filters: Filter, mems: set<Id>)
    requires KeyMatching(b, pick) && OnlyNamed(b, x, mems) && forall id :: id in x.ents ==> id < x.next
    ensures var y := LinkAll(b, x, mentions, seen, m, filters);
            OnlyNamed(b, y, mems) && forall id :: id in y.ents ==> id < y.next
    decreases |mentions|
  {
    if mentions != [] {
      var key := b.normalise(mentions[0].text);
      if key == "" || key in seen {
        LinkAllOnlyNamed(b, pick, x, mentions[1..], seen, m, filters, mems);
      } else {
        var y := Upsert(b, x, mentions[0], m, filters);
        UpsertExact(b, x, mentions[0], m, filters);
        SameKeyResolvesAlike(b, pick, x.ents, mentions[0].text, mentions[0].text, ScopeFilters(filters));
        LinkAllOnlyNamed(b, pick, y, mentions[1..], seen + {key}, m, filters, mems);
      }
    }
  }

  lemma {:induction false} LinkEachOnlyNamed(b: Backend, pick: set<Id> -> Id, x: Index, records: seq<Record>,
        filters: Filter, mems: set<Id>)
    requires KeyMatching(b, pick) && OnlyNamed(b, x, mems) && forall id :: id in x.ents ==> id < x.next
    ensures OnlyNamed(b, LinkEach(b, x, records, filters), mems)
    decreases |records|
  {
    if records != [] {
      LinkAllOnlyNamed(b, pick, x, b.extract(records[0].text), {}, records[0].id, filters, mems);
      LinkEachOnlyNamed(b, pick, LinkAll(b, x, b.extract(records[0].text), {}, records[0].id, filters), records[1..],
        filters, mems);
    }
  }

  lemma {:induction false} OccurrenceOfRecord(b: Backend, records: seq<Record>, i: nat, k: nat)
    requires i < |records| && k < |b.extract(records[i].text)|
    ensures HasOccurrence(b, Occurrences(b, records), b.normalise(b.extract(records[i].text)[k].text), records[i].id)
    decreases |records|
  {
    var own, rest := OccurrencesIn(b.extract(records[0].text), records[0].id), Occurrences(b, records[1..]);
    var key := b.normalise(b.extract(records[i].text)[k].text);
    if i == 0 {
      assert (own + rest)[k] == Occurrence(b.extract(records[0].text)[k], records[0].id);
    } else {
      OccurrenceOfRecord(b, records[1..], i - 1, k);
      var j :| 0 <= j < |rest| && b.normalise(rest[j].mention.text) == key && rest[j].memory == records[i].id;
      assert (own + rest)[|own| + j] == rest[j];
    }
  }

  /** Phase 7 links new memories as the single-memory path does, iff no extracted
      entity is blank: the batch has no check for a blank key, the other path has. */
  lemma BatchRefinesLinkEachIff(b: Backend, pick: set<Id> -> Id, x: Index, records: seq<Record>, filters: Filter)
    requires KeyMatching(b, pick) && forall id :: id in x.ents ==> id < x.next
    requires forall e, i :: 0 <= i < |records| ==> !Lists(x, e, records[i].id)
    ensures SameIndex(LinkBatch(b, x, Occurrences(b, records), filters), LinkEach(b, x, records, filters))
       <==> NoBlankKeys(b, records)
  {
    var occs := Occurrences(b, records);
    BatchRefinesUpserts(b, pick, x, occs, filters);
    if NoBlankKeys(b, records) {
      LinkEachIsUpserts(b, pick, x, [], records, filters);
      assert [] + occs == occs;
    } else {
      var i, k :| 0 <= i < |records| && 0 <= k < |b.extract(records[i].text)|
        && b.normalise(b.extract(records[i].text)[k].text) == "";
      BlankSeparates(b, pick, x, records, filters, i, k);
    }
  }

  lemma BlankSeparates(b: Backend, pick: set<Id> -> Id, x: Index, records: seq<Record>, filters: Filter, i: nat, k: nat)
    requires KeyMatching(b, pick) && forall id :: id in x.ents ==> id < x.next
    requires forall e, i :: 0 <= i < |records| ==> !Lists(x, e, records[i].id)
    requires i < |records| && k < |b.extract(records[i].text)| && b.normalise(b.extract(records[i].text)[k].text) == ""
    ensures !SameIndex(LinkBatch(b, x, Occurrences(b, records), filters), LinkEach(b, x, records, filters))
  {
    var occs, m, text := Occurrences(b, records), records[i].id, b.extract(records[i].text)[k].text;
    var batch, each, y := LinkBatch(b, x, occs, filters), LinkEach(b, x, records, filters),
      UpsertAll(b, x, occs, filters);
    BatchRefinesUpserts(b, pick, x, occs, filters);
    OccurrenceOfRecord(b, records, i, k);
    ResolvesToListing(b, pick, x, occs, filters, text, m);
    LinkEachOnlyNamed(b, pick, x, records, filters, {m});
    NamedDiffers(b, y, batch, each, m, Resolve(b, y.ents, text, ScopeFilters(filters)).value);
  }

  lemma NamedDiffers(b: Backend, y: Index, batch: Index, each: Index, m: Id, e: Id)
    requires SameIndex(batch, y) && Lists(y, e, m) && b.normalise(y.ents[e].data) == ""
    requires OnlyNamed(b, each, {m})
    ensures !SameIndex(batch, each)
  {
  }
}
