/** `_compute_entity_boosts` (mem0/memory/main.py), in the thread-pool version and in
    the asyncio version, with exact arithmetic over the reals. */
module EntityBoosts {
  import opened Wrappers

  /** A match of the entity store; `linked` is None when the payload holds no list. */
  datatype Match = Match(score: real, linked: Option<seq<string>>)

  /** What one search came to: an exception is logged and skipped. */
  datatype Outcome = Found(matches: seq<Match>) | Failed

  type Boosts = map<string, real>
  type Pair = (string, real)

  const MAX_ENTITIES := 8
  const MIN_SIMILARITY := 0.5

  // ---------- which entities are searched for ----------

  /** Entity `i` is the first of its non-empty key. */
  predicate FirstOfKey(texts: seq<string>, key: string -> string, i: nat)
    requires i < |texts|
  {
    key(texts[i]) != "" && forall j :: 0 <= j < i ==> key(texts[j]) != key(texts[i])
  }

  function Firsts(texts: seq<string>, key: string -> string, n: nat): seq<string>
    requires n <= |texts|
  {
    if n == 0 then [] else
    Firsts(texts, key, n - 1) + if FirstOfKey(texts, key, n - 1) then [texts[n - 1]] else []
  }

  /** The first eight entities. */
  function Head(texts: seq<string>): (head: seq<string>)
    ensures head <= texts && |head| == if |texts| <= 8 then |texts| else 8
  {
    if |texts| <= MAX_ENTITIES then texts else texts[..MAX_ENTITIES]
  }

  method Deduplicate(entities: seq<string>, key: string -> string) returns (deduped: seq<string>)
    ensures deduped == Firsts(Head(entities), key, |Head(entities)|)
  {
    var texts := Head(entities);
    var seen: set<string> := {};
    deduped := [];
    for i := 0 to |texts|
      invariant deduped == Firsts(texts, key, i)
      invariant forall k :: k in seen <==> k != "" && exists j :: 0 <= j < i && key(texts[j]) == k
    {
      var k := key(texts[i]);
      if k != "" && k !in seen {
        seen := seen + {k};
        deduped := deduped + [texts[i]];
      }
    }
  }

  lemma {:induction false} FirstsFrom(texts: seq<string>, key: string -> string, n: nat, t: string)
    requires n <= |texts| && t in Firsts(texts, key, n)
    ensures exists j :: 0 <= j < n && texts[j] == t && FirstOfKey(texts, key, j)
  {
    if t in Firsts(texts, key, n - 1) { FirstsFrom(texts, key, n - 1, t); }
  }

  /** Distinct members of the list have distinct keys, and none is empty. */
  ghost predicate DistinctKeys(f: seq<string>, key: string -> string) {
    && (forall i :: 0 <= i < |f| ==> key(f[i]) != "")
    && forall i, j :: 0 <= i < j < |f| ==> key(f[i]) != key(f[j])
  }

  /** The entities searched for have non-empty, pairwise distinct keys. */
  lemma {:induction false} FirstsDistinct(texts: seq<string>, key: string -> string, n: nat)
    requires n <= |texts|
    ensures DistinctKeys(Firsts(texts, key, n), key)
  {
    if n > 0 {
      FirstsDistinct(texts, key, n - 1);
      if FirstOfKey(texts, key, n - 1) {
        var before := Firsts(texts, key, n - 1);
        forall i: nat | i < |before| ensures key(before[i]) != key(texts[n - 1]) {
          FirstsFrom(texts, key, n - 1, before[i]);
        }
      }
    }
  }

  lemma {:induction false} FirstWithKey(texts: seq<string>, key: string -> string, i: nat) returns (j: nat)
    requires i < |texts| && key(texts[i]) != ""
    ensures j <= i && FirstOfKey(texts, key, j) && key(texts[j]) == key(texts[i])
  {
    j := i;
    if !FirstOfKey(texts, key, i) {
      var k :| 0 <= k < i && key(texts[k]) == key(texts[i]);
      j := FirstWithKey(texts, key, k);
    }
  }

  lemma {:induction false} FirstsHave(texts: seq<string>, key: string -> string, n: nat, j: nat)
    requires j < n <= |texts| && FirstOfKey(texts, key, j)
    ensures texts[j] in Firsts(texts, key, n)
  {
    hide FirstOfKey;
    if j < n - 1 { FirstsHave(texts, key, n - 1, j); }
  }

  /** Every non-empty key is searched for. */
  lemma FirstsCover(texts: seq<string>, key: string -> string, n: nat, i: nat)
    requires i < n <= |texts| && key(texts[i]) != ""
    ensures exists t :: t in Firsts(texts, key, n) && key(t) == key(texts[i])
  {
    var j := FirstWithKey(texts, key, i);
    FirstsHave(texts, key, n, j);
  }

  // ---------- the boosts ----------

  function CountWeight(links: nat): real {
    var n := if links > 1 then links else 1;
    1.0 / (1.0 + 0.001 * ((n - 1) * (n - 1)) as real)
  }

  function Boost(score: real, links: nat, w: real): real { score * w * CountWeight(links) }

  function Tagged(ids: seq<string>, boost: real): set<Pair> { set id | id in ids && id != "" :: (id, boost) }

  function MatchPairs(m: Match, w: real): set<Pair> {
    if m.score < MIN_SIMILARITY || m.linked.None? then {} else
    Tagged(m.linked.value, Boost(m.score, |m.linked.value|, w))
  }

  function PairsOf(matches: seq<Match>, w: real): set<Pair> {
    set m, p | m in matches && p in MatchPairs(m, w) :: p
  }

  /** Every (memory, boost) that some match of some search contributes. */
  function Pairs(outcomes: seq<Outcome>, w: real): set<Pair> {
    set o, p | o in outcomes && o.Found? && p in PairsOf(o.matches, w) :: p
  }

  /** The memories of `pairs`, each with the greatest of its boosts. */
  ghost predicate MaxMap(b: Boosts, pairs: set<Pair>) {
    && (forall id :: id in b ==> (id, b[id]) in pairs)
    && (forall p :: p in pairs ==> p.0 in b && p.1 <= b[p.0])
  }

  ghost predicate BoostMap(b: Boosts, outcomes: seq<Outcome>, w: real) { MaxMap(b, Pairs(outcomes, w)) }

  lemma MaxMapUnique(a: Boosts, b: Boosts, pairs: set<Pair>)
    requires MaxMap(a, pairs) && MaxMap(b, pairs)
    ensures a == b
  {
  }

  /** The map is the same for every order in which the searches complete. */
  lemma CompletionOrderIsIrrelevant(a: Boosts, b: Boosts, inOrder: seq<Outcome>, completed: seq<Outcome>, w: real)
    requires multiset(inOrder) == multiset(completed)
    requires BoostMap(a, inOrder, w) && BoostMap(b, completed, w)
    ensures a == b
  {
    forall o ensures o in inOrder <==> o in completed {
      assert o in multiset(inOrder) <==> o in multiset(completed);
    }
    assert Pairs(inOrder, w) == Pairs(completed, w);
    MaxMapUnique(a, b, Pairs(inOrder, w));
  }

  lemma CountWeightRange(links: nat)
    ensures 0.0 < CountWeight(links) <= 1.0
  {
    var n := if links > 1 then links else 1;
    assert (n - 1) * (n - 1) >= 0;
    Reciprocal(1.0 + 0.001 * ((n - 1) * (n - 1)) as real);
  }

  lemma Reciprocal(d: real)
    requires d >= 1.0
    ensures 0.0 < 1.0 / d <= 1.0
  {
    assert (1.0 / d) * d == 1.0;
  }

  lemma BoostPositive(score: real, links: nat, w: real)
    requires MIN_SIMILARITY <= score && 0.0 < w
    ensures 0.0 < Boost(score, links, w)
    ensures score <= 1.0 ==> Boost(score, links, w) <= w
  {
    CountWeightRange(links);
    var c := CountWeight(links);
    assert 0.0 < score * w;
    assert score <= 1.0 ==> score * w <= w;
    assert 0.0 < (score * w) * c <= (score * w);
  }

  ghost predicate Normalised(outcomes: seq<Outcome>) {
    forall o, m :: o in outcomes && o.Found? && m in o.matches ==> m.score <= 1.0
  }

  /** Every boost lies in (0, w] when no similarity exceeds 1. */
  lemma BoostsInRange(b: Boosts, outcomes: seq<Outcome>, w: real, id: string)
    requires BoostMap(b, outcomes, w) && 0.0 < w && Normalised(outcomes) && id in b
    ensures 0.0 < b[id] <= w
  {
    var p := (id, b[id]);
    var o :| o in outcomes && o.Found? && p in PairsOf(o.matches, w);
    var m :| m in o.matches && p in MatchPairs(m, w);
    BoostPositive(m.score, |m.linked.value|, w);
  }

  predicate Qualifies(m: Match, id: string) {
    m.score >= 0.5 && m.linked.Some? && id in m.linked.value && id != ""
  }

  /** Some search came back with a match of similarity at least 0.5 that links `id`. */
  ghost predicate Linked(outcomes: seq<Outcome>, id: string) {
    exists o, m :: o in outcomes && o.Found? && m in o.matches && Qualifies(m, id)
  }

  lemma BoostedIsLinked(b: Boosts, outcomes: seq<Outcome>, w: real, id: string)
    requires BoostMap(b, outcomes, w) && id in b
    ensures Linked(outcomes, id)
  {
    var p := (id, b[id]);
    var o :| o in outcomes && o.Found? && p in PairsOf(o.matches, w);
    var m :| m in o.matches && p in MatchPairs(m, w);
    assert Qualifies(m, id);
  }

  lemma LinkedIsBoosted(b: Boosts, outcomes: seq<Outcome>, w: real, o: Outcome, m: Match, id: string)
    requires BoostMap(b, outcomes, w)
    requires o in outcomes && o.Found? && m in o.matches && Qualifies(m, id)
    ensures id in b && b[id] >= Boost(m.score, |m.linked.value|, w)
  {
    var p := (id, Boost(m.score, |m.linked.value|, w));
    assert p in MatchPairs(m, w);
    assert p in PairsOf(o.matches, w);
    assert p in Pairs(outcomes, w);
    assert p.0 in b && p.1 <= b[p.0];
  }

  /** A memory is boosted iff some match of similarity at least 0.5 links it. */
  lemma BoostedIff(b: Boosts, outcomes: seq<Outcome>, w: real, id: string)
    requires BoostMap(b, outcomes, w)
    ensures id in b <==> Linked(outcomes, id)
  {
    if id in b { BoostedIsLinked(b, outcomes, w, id); }
    if Linked(outcomes, id) {
      var o, m :| o in outcomes && o.Found? && m in o.matches && Qualifies(m, id);
      LinkedIsBoosted(b, outcomes, w, o, m, id);
    }
  }

  /** What a match that links many memories is divided by. */
  function Damping(links: nat): real {
    if links <= 1 then 1.0 else 1.0 + 0.001 * ((links - 1) * (links - 1)) as real
  }

  lemma BoostIs(score: real, links: nat, w: real)
    ensures Boost(score, links, w) * Damping(links) == score * w && Damping(links) >= 1.0
  {
    var n := if links > 1 then links else 1;
    assert (n - 1) * (n - 1) >= 0;
    var d, x := Damping(links), score * w;
    Divides(x, d);
    assert Boost(score, links, w) == x * (1.0 / d);
  }

  lemma Divides(x: real, d: real)
    requires d >= 1.0
    ensures (x * (1.0 / d)) * d == x
  {
    assert (1.0 / d) * d == 1.0;
    assert (x * (1.0 / d)) * d == x * ((1.0 / d) * d);
  }

  /** The boost of a memory is the greatest `similarity * w / damping` of the matches of
      similarity at least 0.5 that link it. */
  lemma BoostIsGreatest(b: Boosts, outcomes: seq<Outcome>, w: real, id: string)
    requires BoostMap(b, outcomes, w)
    ensures id in b ==>
              exists o, m :: o in outcomes && o.Found? && m in o.matches && Qualifies(m, id)
                             && b[id] * Damping(|m.linked.value|) == m.score * w
    ensures forall o, m :: o in outcomes && o.Found? && m in o.matches && Qualifies(m, id) ==>
              id in b && b[id] * Damping(|m.linked.value|) >= m.score * w
  {
    hide Boost, Damping;
    if id in b {
      var p := (id, b[id]);
      var o :| o in outcomes && o.Found? && p in PairsOf(o.matches, w);
      var m :| m in o.matches && p in MatchPairs(m, w);
      BoostIs(m.score, |m.linked.value|, w);
      assert Qualifies(m, id);
    }
    forall o, m | o in outcomes && o.Found? && m in o.matches && Qualifies(m, id)
      ensures id in b && b[id] * Damping(|m.linked.value|) >= m.score * w
    {
      LinkedIsBoosted(b, outcomes, w, o, m, id);
      BoostIs(m.score, |m.linked.value|, w);
      Scale(b[id], Boost(m.score, |m.linked.value|, w), Damping(|m.linked.value|));
    }
  }

  lemma Scale(x: real, y: real, d: real)
    requires x >= y && d >= 1.0
    ensures x * d >= y * d
  {
  }

  // ---------- the loops ----------

  function Raise(b: Boosts, id: string, boost: real): Boosts {
    var was := if id in b then b[id] else 0.0;
    b[id := if boost > was then boost else was]
  }

  lemma RaiseKeeps(b: Boosts, pairs: set<Pair>, id: string, boost: real)
    requires MaxMap(b, pairs) && 0.0 < boost
    ensures MaxMap(Raise(b, id, boost), pairs + {(id, boost)})
  {
  }

  lemma TaggedSnoc(ids: seq<string>, i: nat, boost: real, pairs: set<Pair>)
    requires i < |ids|
    ensures pairs + Tagged(ids[..i + 1], boost)
              == if ids[i] == "" then pairs + Tagged(ids[..i], boost)
                 else pairs + Tagged(ids[..i], boost) + {(ids[i], boost)}
  {
    assert ids[..i + 1] == ids[..i] + [ids[i]];
  }

  /** The loop over one match. */
  method AddMatch(m: Match, w: real, b: Boosts, ghost pairs: set<Pair>) returns (r: Boosts)
    requires 0.0 < w && MaxMap(b, pairs)
    ensures MaxMap(r, pairs + MatchPairs(m, w))
  {
    r := b;
    if m.score < MIN_SIMILARITY || m.linked.None? {
      assert pairs + MatchPairs(m, w) == pairs;
      return;
    }
    var ids := m.linked.value;
    var boost := Boost(m.score, |ids|, w);
    BoostPositive(m.score, |ids|, w);
    assert pairs + Tagged(ids[..0], boost) == pairs;
    for i := 0 to |ids|
      invariant MaxMap(r, pairs + Tagged(ids[..i], boost))
    {
      TaggedSnoc(ids, i, boost, pairs);
      if ids[i] != "" {
        RaiseKeeps(r, pairs + Tagged(ids[..i], boost), ids[i], boost);
        r := Raise(r, ids[i], boost);
      }
    }
    assert ids[..|ids|] == ids;
  }

  method AddMatches(ms: seq<Match>, w: real, b: Boosts, ghost pairs: set<Pair>) returns (r: Boosts)
    requires 0.0 < w && MaxMap(b, pairs)
    ensures MaxMap(r, pairs + PairsOf(ms, w))
  {
    r := b;
    assert pairs + PairsOf(ms[..0], w) == pairs;
    for i := 0 to |ms|
      invariant MaxMap(r, pairs + PairsOf(ms[..i], w))
    {
      r := AddMatch(ms[i], w, r, pairs + PairsOf(ms[..i], w));
      PairsOfSnoc(ms, i, w);
      assert pairs + PairsOf(ms[..i], w) + MatchPairs(ms[i], w) == pairs + PairsOf(ms[..i + 1], w);
    }
    assert ms[..|ms|] == ms;
  }

  lemma PairsOfSnoc(ms: seq<Match>, i: nat, w: real)
    requires i < |ms|
    ensures PairsOf(ms[..i + 1], w) == PairsOf(ms[..i], w) + MatchPairs(ms[i], w)
  {
    assert ms[..i + 1] == ms[..i] + [ms[i]];
  }

  function OutcomePairs(o: Outcome, w: real): set<Pair> { if o.Found? then PairsOf(o.matches, w) else {} }

  lemma PairsSnoc(os: seq<Outcome>, o: Outcome, w: real)
    ensures Pairs(os + [o], w) == Pairs(os, w) + OutcomePairs(o, w)
  {
  }

  /** The loop over the searches, in the order given. */
  method Accumulate(outcomes: seq<Outcome>, w: real) returns (boosts: Boosts)
    requires 0.0 < w
    ensures BoostMap(boosts, outcomes, w)
  {
    boosts := map[];
    for i := 0 to |outcomes|
      invariant MaxMap(boosts, Pairs(outcomes[..i], w))
    {
      assert outcomes[..i + 1] == outcomes[..i] + [outcomes[i]];
      PairsSnoc(outcomes[..i], outcomes[i], w);
      if outcomes[i].Found? {
        boosts := AddMatches(outcomes[i].matches, w, boosts, Pairs(outcomes[..i], w));
      }
    }
    assert outcomes[..|outcomes|] == outcomes;
  }

  function Searched<V>(texts: seq<string>, vectors: seq<V>, search: (string, V) -> Outcome): (os: seq<Outcome>)
    requires |texts| == |vectors|
    ensures |os| == |texts| && forall i :: 0 <= i < |os| ==> os[i] == search(texts[i], vectors[i])
  {
    seq(|texts|, i requires 0 <= i < |texts| => search(texts[i], vectors[i]))
  }

  /** What either version must return for these entities. */
  ghost predicate Boosted<V>(boosts: Boosts, entities: seq<string>, key: string -> string,
                             embed: seq<string> -> seq<V>, search: (string, V) -> Outcome, w: real)
  {
    var texts := Firsts(Head(entities), key, |Head(entities)|);
    if texts == [] || |embed(texts)| != |texts| then boosts == map[]
    else BoostMap(boosts, Searched(texts, embed(texts), search), w)
  }

  /** `AsyncMemory._compute_entity_boosts`: results in the order of submission. */
  method ComputeEntityBoostsAsync<V>(entities: seq<string>, key: string -> string,
      embed: seq<string> -> seq<V>, search: (string, V) -> Outcome, w: real) returns (boosts: Boosts)
    requires 0.0 < w
    ensures Boosted(boosts, entities, key, embed, search, w)
  {
    var texts := Deduplicate(entities, key);
    boosts := map[];
    if texts == [] { return; }
    var vectors := embed(texts);
    if |vectors| != |texts| { return; }
    boosts := Accumulate(Searched(texts, vectors, search), w);
  }

  ghost predicate CompletionOrder(order: seq<nat>, n: nat) {
    && (forall k :: 0 <= k < |order| ==> order[k] < n)
    && (forall i: nat :: i < n ==> i in order)
    && (forall i, j :: 0 <= i < j < |order| ==> order[i] != order[j])
  }

  /** `Memory._compute_entity_boosts`: `completes(n)` is the order in which the pool's n
      searches finish. */
  method ComputeEntityBoosts<V>(entities: seq<string>, key: string -> string,
      embed: seq<string> -> seq<V>, search: (string, V) -> Outcome, w: real,
      completes: nat -> seq<nat>) returns (boosts: Boosts)
    requires 0.0 < w && forall n: nat :: CompletionOrder(completes(n), n)
    ensures Boosted(boosts, entities, key, embed, search, w)
  {
    var texts := Deduplicate(entities, key);
    boosts := map[];
    if texts == [] { return; }
    var vectors := embed(texts);
    if |vectors| != |texts| { return; }
    var outcomes := Searched(texts, vectors, search);
    var order := completes(|texts|);
    assert CompletionOrder(order, |outcomes|);
    var completed := InCompletionOrder(outcomes, order);
    boosts := Accumulate(completed, w);
    SameElements(outcomes, order, w);
  }

  function InCompletionOrder(outcomes: seq<Outcome>, order: seq<nat>): (r: seq<Outcome>)
    requires forall k :: 0 <= k < |order| ==> order[k] < |outcomes|
    ensures |r| == |order| && forall k :: 0 <= k < |r| ==> r[k] == outcomes[order[k]]
  {
    seq(|order|, k requires 0 <= k < |order| => outcomes[order[k]])
  }

  lemma SameElements(outcomes: seq<Outcome>, order: seq<nat>, w: real)
    requires CompletionOrder(order, |outcomes|)
    ensures Pairs(InCompletionOrder(outcomes, order), w) == Pairs(outcomes, w)
  {
    var completed := InCompletionOrder(outcomes, order);
    forall o ensures o in outcomes <==> o in completed {
      if o in completed {
        var k :| 0 <= k < |completed| && completed[k] == o;
        assert outcomes[order[k]] == o;
      }
      if o in outcomes {
        var i: nat :| i < |outcomes| && outcomes[i] == o;
        assert i in order;
        var k :| 0 <= k < |order| && order[k] == i;
        assert completed[k] == o;
      }
    }
  }

  /** The two versions return the same map, whatever the completion order was. */
  lemma SyncAndAsyncAgree<V>(a: Boosts, b: Boosts, entities: seq<string>, key: string -> string,
      embed: seq<string> -> seq<V>, search: (string, V) -> Outcome, w: real)
    requires Boosted(a, entities, key, embed, search, w) && Boosted(b, entities, key, embed, search, w)
    ensures a == b
  {
    var texts := Firsts(Head(entities), key, |Head(entities)|);
    if texts != [] && |embed(texts)| == |texts| {
      MaxMapUnique(a, b, Pairs(Searched(texts, embed(texts), search), w));
    }
  }
}
