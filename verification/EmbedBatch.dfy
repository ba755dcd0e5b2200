/** `OpenAIEmbedding.embed_batch`: chunks of 100, each answered in any order. */
module EmbedBatch {
  import opened Stores

  const MAX_BATCH := 100

  /** An API answer holds one vector per input, tagged with the input's position. */
  ghost predicate Answers(b: Backend, chunk: seq<string>, items: seq<Embedded>) {
    && |items| == |chunk|
    && (forall k :: 0 <= k < |items| ==> items[k].index < |chunk| && items[k].vector == b.model(chunk[items[k].index]))
    && (forall j, k :: 0 <= j < k < |items| ==> items[j].index != items[k].index)
  }

  /** The API answers requests of up to 100 inputs; nothing is known of longer or empty ones. */
  ghost predicate FaithfulApi(b: Backend) {
    forall chunk: seq<string> :: 0 < |chunk| <= 100 ==> Answers(b, chunk, b.respond(chunk))
  }

  // ---------- sorting a chunk by index ----------

  function Insert(item: Embedded, sorted: seq<Embedded>): (r: seq<Embedded>)
    ensures |r| == |sorted| + 1
    ensures multiset(r) == multiset(sorted) + multiset{item}
  {
    if sorted == [] || item.index < sorted[0].index then [item] + sorted
    else
      assert sorted == [sorted[0]] + sorted[1..];
      [sorted[0]] + Insert(item, sorted[1..])
  }

  function SortByIndex(items: seq<Embedded>): (r: seq<Embedded>)
    ensures |r| == |items|
    ensures multiset(r) == multiset(items)
  {
    if items == [] then [] else
    var n := |items| - 1;
    assert items == items[..n] + [items[n]];
    Insert(items[n], SortByIndex(items[..n]))
  }

  ghost predicate Increasing(items: seq<Embedded>) {
    forall j, k :: 0 <= j < k < |items| ==> items[j].index < items[k].index
  }

  lemma InsertIncreasing(item: Embedded, sorted: seq<Embedded>)
    requires Increasing(sorted) && forall k :: 0 <= k < |sorted| ==> sorted[k].index != item.index
    ensures Increasing(Insert(item, sorted))
  {
    if sorted != [] && item.index > sorted[0].index {
      InsertIncreasing(item, sorted[1..]);
      var r := Insert(item, sorted[1..]);
      forall k | 0 <= k < |r| ensures sorted[0].index < r[k].index {
        assert r[k] in multiset(r);
        assert r[k] == item || r[k] in sorted[1..];
      }
    }
  }

  lemma {:induction false} SortIncreasing(items: seq<Embedded>)
    requires forall j, k :: 0 <= j < k < |items| ==> items[j].index != items[k].index
    ensures Increasing(SortByIndex(items))
  {
    if items != [] {
      var n := |items| - 1;
      var sorted := SortByIndex(items[..n]);
      SortIncreasing(items[..n]);
      forall k | 0 <= k < |sorted| ensures sorted[k].index != items[n].index {
        assert sorted[k] in multiset(sorted) && sorted[k] in items[..n];
      }
      InsertIncreasing(items[n], sorted);
    }
  }

  /** Distinct positions below the length, in increasing order, are all positions. */
  lemma {:induction false} IncreasingIndexes(items: seq<Embedded>, i: nat)
    requires Increasing(items) && i < |items|
    requires forall k :: 0 <= k < |items| ==> items[k].index < |items|
    ensures items[i].index == i
  {
    AtLeast(items, i);
    AtMost(items, i);
  }

  lemma {:induction false} AtLeast(items: seq<Embedded>, i: nat)
    requires Increasing(items) && i < |items|
    ensures items[i].index >= i
  {
    if i > 0 { AtLeast(items, i - 1); }
  }

  lemma {:induction false} AtMost(items: seq<Embedded>, i: nat)
    requires Increasing(items) && i < |items|
    requires forall k :: 0 <= k < |items| ==> items[k].index < |items|
    ensures items[i].index <= i
    decreases |items| - i
  {
    if i < |items| - 1 { AtMost(items, i + 1); }
  }

  /** However the API orders an answer, sorting it lines the vectors up with the inputs. */
  lemma SortedAnswer(b: Backend, chunk: seq<string>, items: seq<Embedded>, i: nat)
    requires Answers(b, chunk, items) && i < |chunk|
    ensures SortByIndex(items)[i].vector == b.model(chunk[i])
  {
    var sorted := SortByIndex(items);
    SortIncreasing(items);
    forall k | 0 <= k < |sorted| ensures sorted[k] in items {
      assert sorted[k] in multiset(sorted);
    }
    IncreasingIndexes(sorted, i);
  }

  // ---------- the method ----------

  function Min(a: int, c: int): int { if a < c then a else c }

  /** One request: its answer, sorted by index. */
  method EmbedChunk(b: Backend, chunk: seq<string>) returns (vectors: seq<Vector>)
    requires FaithfulApi(b) && 0 < |chunk| <= 100
    ensures |vectors| == |chunk|
    ensures forall i :: 0 <= i < |chunk| ==> vectors[i] == b.model(chunk[i])
  {
    hide SortByIndex;
    var items := b.respond(chunk);
    assert Answers(b, chunk, items);
    var sorted := SortByIndex(items);
    forall i | 0 <= i < |chunk| ensures sorted[i].vector == b.model(chunk[i]) {
      SortedAnswer(b, chunk, items, i);
    }
    vectors := seq(|sorted|, i requires 0 <= i < |sorted| => sorted[i].vector);
  }

  /** Every text gets the vector `embed` would give it, in order. */
  method BatchVectors(b: Backend, texts: seq<string>) returns (all: seq<Vector>)
    requires FaithfulApi(b)
    ensures |all| == |texts|
    ensures forall i :: 0 <= i < |texts| ==> all[i] == Embed(b, texts[i])
  {
    hide FaithfulApi, OneLine;
    var cleaned := seq(|texts|, i requires 0 <= i < |texts| => OneLine(texts[i]));
    all := [];
    var start := 0;
    while start < |cleaned|
      invariant 0 <= start && |all| == Min(start, |cleaned|)
      invariant forall i :: 0 <= i < |all| ==> all[i] == Embed(b, texts[i])
    {
      var chunk := cleaned[start..Min(start + MAX_BATCH, |cleaned|)];
      var vectors := EmbedChunk(b, chunk);
      forall i | 0 <= i < |chunk| ensures vectors[i] == Embed(b, texts[start + i]) {
        assert chunk[i] == cleaned[start + i];
      }
      all := all + vectors;
      start := start + MAX_BATCH;
    }
  }
}
