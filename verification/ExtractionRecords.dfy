/** Phases 3-5 of `_add_to_vector_store`: which extractions become new memories. */
module ExtractionRecords {
  import opened Stores
  import opened MemoryState
  import opened MemoryHistory
  import opened MemoryIndex

  ghost predicate Embeddable(mem: Extracted, embedMap: map<string, Vector>) {
    mem.text != "" && mem.text in embedMap
  }

  /** An extraction is kept iff its hash is new to the recalled memories and to
      every embeddable extraction before it. */
  ghost predicate Kept(b: Backend, mems: seq<Extracted>, embedMap: map<string, Vector>, existing: set<string>, i: nat)
    requires i < |mems|
  {
    && Embeddable(mems[i], embedMap)
    && b.md5(mems[i].text) !in existing
    && forall j :: 0 <= j < i && Embeddable(mems[j], embedMap) ==> b.md5(mems[j].text) != b.md5(mems[i].text)
  }

  ghost function KeptTexts(b: Backend, mems: seq<Extracted>, embedMap: map<string, Vector>, existing: set<string>,
        from: nat): seq<string>
    requires from <= |mems|
    decreases |mems| - from
  {
    if from == |mems| then []
    else (if Kept(b, mems, embedMap, existing, from) then [mems[from].text] else [])
         + KeptTexts(b, mems, embedMap, existing, from + 1)
  }

  function Texts(records: seq<Record>): (r: seq<string>)
    ensures |r| == |records|
  {
    seq(|records|, i requires 0 <= i < |records| => records[i].text)
  }

  /** `seen` holds the hashes of the embeddable extractions before `from`, but for those recalled. */
  ghost predicate SeenSoFar(b: Backend, mems: seq<Extracted>, embedMap: map<string, Vector>, existing: set<string>,
        seen: set<string>, from: nat)
    requires from <= |mems|
  {
    forall h :: h in seen <==>
      h !in existing && exists j :: 0 <= j < from && Embeddable(mems[j], embedMap) && b.md5(mems[j].text) == h
  }

  lemma SeenStep(b: Backend, mems: seq<Extracted>, embedMap: map<string, Vector>, existing: set<string>,
        seen: set<string>, from: nat)
    requires from < |mems| && SeenSoFar(b, mems, embedMap, existing, seen, from)
    ensures var h := b.md5(mems[from].text);
            && (Kept(b, mems, embedMap, existing, from) <==>
                  Embeddable(mems[from], embedMap) && h !in existing && h !in seen)
            && SeenSoFar(b, mems, embedMap, existing,
                         if Kept(b, mems, embedMap, existing, from) then seen + {h} else seen, from + 1)
  {
  }

  /** The loop keeps exactly those extractions, in order. */
  lemma {:induction false} KeepsInOrder(b: Backend, mems: seq<Extracted>, embedMap: map<string, Vector>,
        existing: set<string>, seen: set<string>, metadata: Payload, now: string, next: Id, from: nat)
    requires from <= |mems| && SeenSoFar(b, mems, embedMap, existing, seen, from)
    ensures Texts(BuildRecords(b, mems[from..], embedMap, existing, seen, metadata, now, next))
            == KeptTexts(b, mems, embedMap, existing, from)
    decreases |mems| - from
  {
    hide ExtractedPayload, SeenSoFar, Kept;
    if from < |mems| {
      var mem := mems[from];
      var h := b.md5(mem.text);
      assert mems[from..][0] == mem && mems[from..][1..] == mems[from + 1..];
      SeenStep(b, mems, embedMap, existing, seen, from);
      if !Kept(b, mems, embedMap, existing, from) {
        KeepsInOrder(b, mems, embedMap, existing, seen, metadata, now, next, from + 1);
      } else {
        var rest := BuildRecords(b, mems[from + 1..], embedMap, existing, seen + {h}, metadata, now, next + 1);
        KeepsInOrder(b, mems, embedMap, existing, seen + {h}, metadata, now, next + 1, from + 1);
        var r := Record(next, mem.text, embedMap[mem.text], ExtractedPayload(b, metadata, mem, now));
        assert Texts([r] + rest) == [mem.text] + Texts(rest);
      }
    }
  }

  ghost predicate NewRecord(b: Backend, r: Record, embedMap: map<string, Vector>, taken: set<string>) {
    b.md5(r.text) !in taken && r.text in embedMap && r.vector == embedMap[r.text]
  }

  ghost predicate AllNew(b: Backend, rs: seq<Record>, embedMap: map<string, Vector>, taken: set<string>) {
    && (forall i :: 0 <= i < |rs| ==> NewRecord(b, rs[i], embedMap, taken))
    && (forall i, j :: 0 <= i < j < |rs| ==> b.md5(rs[i].text) != b.md5(rs[j].text))
  }

  lemma AllNewCons(b: Backend, r: Record, rest: seq<Record>, embedMap: map<string, Vector>, taken: set<string>)
    requires NewRecord(b, r, embedMap, taken) && AllNew(b, rest, embedMap, taken + {b.md5(r.text)})
    ensures AllNew(b, [r] + rest, embedMap, taken)
  {
  }

  /** Hashes of the new records are pairwise distinct and new, and each record
      carries the vector of its own text. */
  lemma {:induction false} RecordsAreNew(b: Backend, mems: seq<Extracted>, embedMap: map<string, Vector>,
        existing: set<string>, seen: set<string>, metadata: Payload, now: string, next: Id)
    ensures AllNew(b, BuildRecords(b, mems, embedMap, existing, seen, metadata, now, next), embedMap, existing + seen)
    decreases |mems|
  {
    if mems != [] {
      var h := b.md5(mems[0].text);
      if !Embeddable(mems[0], embedMap) || h in existing || h in seen {
        RecordsAreNew(b, mems[1..], embedMap, existing, seen, metadata, now, next);
      } else {
        RecordsAreNew(b, mems[1..], embedMap, existing, seen + {h}, metadata, now, next + 1);
        assert existing + (seen + {h}) == existing + seen + {h};
        AllNewCons(b, Record(next, mems[0].text, embedMap[mems[0].text], ExtractedPayload(b, metadata, mems[0], now)),
                   BuildRecords(b, mems[1..], embedMap, existing, seen + {h}, metadata, now, next + 1),
                   embedMap, existing + seen);
      }
    }
  }

  ghost predicate Recorded(b: Backend, rs: seq<Record>, h: string) {
    exists i :: 0 <= i < |rs| && b.md5(rs[i].text) == h
  }

  /** Every embeddable extraction has its hash recalled, seen or recorded. */
  lemma {:induction false} RecordsAreMaximal(b: Backend, mems: seq<Extracted>, embedMap: map<string, Vector>,
        existing: set<string>, seen: set<string>, metadata: Payload, now: string, next: Id, k: nat)
    requires k < |mems| && Embeddable(mems[k], embedMap)
    requires b.md5(mems[k].text) !in existing && b.md5(mems[k].text) !in seen
    ensures Recorded(b, BuildRecords(b, mems, embedMap, existing, seen, metadata, now, next), b.md5(mems[k].text))
    decreases |mems|
  {
    var h, g := b.md5(mems[0].text), b.md5(mems[k].text);
    var rs := BuildRecords(b, mems, embedMap, existing, seen, metadata, now, next);
    if !Embeddable(mems[0], embedMap) || h in existing || h in seen {
      RecordsAreMaximal(b, mems[1..], embedMap, existing, seen, metadata, now, next, k - 1);
    } else if g == h {
      assert b.md5(rs[0].text) == g;
    } else {
      RecordsAreMaximal(b, mems[1..], embedMap, existing, seen + {h}, metadata, now, next + 1, k - 1);
      var i :| 0 <= i < |rs| - 1 && b.md5(rs[1..][i].text) == g;
      assert b.md5(rs[i + 1].text) == g;
    }
  }

  lemma KeptInTail(b: Backend, mems: seq<Extracted>, embedMap: map<string, Vector>, existing: set<string>, k: nat)
    requires k + 1 < |mems| && (Embeddable(mems[0], embedMap) ==> b.md5(mems[0].text) != b.md5(mems[k + 1].text))
    ensures Kept(b, mems[1..], embedMap, existing, k) <==> Kept(b, mems, embedMap, existing, k + 1)
  {
    if Kept(b, mems[1..], embedMap, existing, k) {
      forall j | 0 <= j < k + 1 && Embeddable(mems[j], embedMap)
        ensures b.md5(mems[j].text) != b.md5(mems[k + 1].text)
      {
        if j > 0 { assert mems[1..][j - 1] == mems[j]; }
      }
    }
    if Kept(b, mems, embedMap, existing, k + 1) {
      forall j | 0 <= j < k && Embeddable(mems[1..][j], embedMap)
        ensures b.md5(mems[1..][j].text) != b.md5(mems[1..][k].text)
      {
        assert mems[j + 1] == mems[1..][j];
      }
    }
  }

  /** A kept extraction is none of an earlier one's hash. */
  lemma KeptDiffers(b: Backend, mems: seq<Extracted>, embedMap: map<string, Vector>, existing: set<string>, k: nat)
    requires k < |mems| && Kept(b, mems, embedMap, existing, k)
    ensures Embeddable(mems[k], embedMap) && b.md5(mems[k].text) !in existing
    ensures k > 0 && Embeddable(mems[0], embedMap) ==> b.md5(mems[0].text) != b.md5(mems[k].text)
  {
  }

  /** Every record is built from one extraction, the first embeddable one of its hash. */
  lemma {:induction false} RecordSource(b: Backend, mems: seq<Extracted>, embedMap: map<string, Vector>,
        existing: set<string>, seen: set<string>, metadata: Payload, now: string, next: Id, i: nat) returns (k: nat)
    requires i < |BuildRecords(b, mems, embedMap, existing, seen, metadata, now, next)|
    ensures k < |mems| && Kept(b, mems, embedMap, existing, k) && b.md5(mems[k].text) !in seen
    ensures BuildRecords(b, mems, embedMap, existing, seen, metadata, now, next)[i]
              == Record(next + i, mems[k].text, embedMap[mems[k].text], ExtractedPayload(b, metadata, mems[k], now))
    decreases |mems|
  {
    hide ExtractedPayload, Kept;
    var h := b.md5(mems[0].text);
    if !Embeddable(mems[0], embedMap) || h in existing || h in seen {
      k := RecordSource(b, mems[1..], embedMap, existing, seen, metadata, now, next, i);
      KeptDiffers(b, mems[1..], embedMap, existing, k);
      KeptInTail(b, mems, embedMap, existing, k);
      k := k + 1;
    } else if i == 0 {
      k := 0;
      NothingBefore(b, mems, embedMap, existing);
    } else {
      k := RecordSource(b, mems[1..], embedMap, existing, seen + {h}, metadata, now, next + 1, i - 1);
      KeptInTail(b, mems, embedMap, existing, k);
      k := k + 1;
    }
  }

  lemma NothingBefore(b: Backend, mems: seq<Extracted>, embedMap: map<string, Vector>, existing: set<string>)
    requires mems != [] && Embeddable(mems[0], embedMap) && b.md5(mems[0].text) !in existing
    ensures Kept(b, mems, embedMap, existing, 0)
  {
  }

  /** And every such extraction has its record. */
  lemma {:induction false} KeptHasRecord(b: Backend, mems: seq<Extracted>, embedMap: map<string, Vector>,
        existing: set<string>, seen: set<string>, metadata: Payload, now: string, next: Id, k: nat) returns (i: nat)
    requires k < |mems| && Kept(b, mems, embedMap, existing, k) && b.md5(mems[k].text) !in seen
    ensures i < |BuildRecords(b, mems, embedMap, existing, seen, metadata, now, next)|
    ensures BuildRecords(b, mems, embedMap, existing, seen, metadata, now, next)[i].text == mems[k].text
    decreases |mems|
  {
    hide ExtractedPayload, Kept;
    var h := b.md5(mems[0].text);
    KeptDiffers(b, mems, embedMap, existing, k);
    if k > 0 { KeptInTail(b, mems, embedMap, existing, k - 1); }
    if !Embeddable(mems[0], embedMap) || h in existing || h in seen {
      i := KeptHasRecord(b, mems[1..], embedMap, existing, seen, metadata, now, next, k - 1);
    } else if k == 0 {
      i := 0;
    } else {
      i := KeptHasRecord(b, mems[1..], embedMap, existing, seen + {h}, metadata, now, next + 1, k - 1);
      i := i + 1;
    }
  }

  /** The whole of Phases 3-5: with the vectors of the batch API, the new memories
      are the first extraction of every hash that was not recalled, in order,
      each with the vector of its own text. */
  lemma NewMemories(b: Backend, s: State, metadata: Payload, extracted: seq<Extracted>, recalled: set<Id>, now: string)
    ensures var rs, vectors, hashes := NewRecords(b, s, metadata, extracted, recalled, now), EmbedMap(b, extracted),
                                       RecalledHashes(s, recalled);
            && Texts(rs) == KeptTexts(b, extracted, vectors, hashes, 0)
            && (forall i :: 0 <= i < |rs| ==> rs[i].vector == Embed(b, rs[i].text))
            && (forall i, j :: 0 <= i < j < |rs| ==> b.md5(rs[i].text) != b.md5(rs[j].text))
            && (forall k :: 0 <= k < |extracted| && extracted[k].text != "" ==>
                  var h := b.md5(extracted[k].text);
                  h in hashes || Recorded(b, rs, h))
  {
    var vectors, hashes := EmbedMap(b, extracted), RecalledHashes(s, recalled);
    KeepsInOrder(b, extracted, vectors, hashes, {}, metadata, now, s.index.next, 0);
    assert extracted[0..] == extracted;
    RecordsAreNew(b, extracted, vectors, hashes, {}, metadata, now, s.index.next);
    var rs := NewRecords(b, s, metadata, extracted, recalled, now);
    forall i | 0 <= i < |rs| ensures rs[i].vector == Embed(b, rs[i].text) {
      assert NewRecord(b, rs[i], vectors, hashes + {});
    }
    forall k | 0 <= k < |extracted| && extracted[k].text != "" && b.md5(extracted[k].text) !in hashes
      ensures Recorded(b, rs, b.md5(extracted[k].text))
    {
      RecordsAreMaximal(b, extracted, vectors, hashes, {}, metadata, now, s.index.next, k);
    }
  }

  // ---------- duplicates of what was recalled ----------

  /** Some recalled live memory holds a text of this hash. */
  ghost predicate Known(b: Backend, s: State, recalled: set<Id>, h: string) {
    exists id :: id in recalled && id in s.rows && Data in s.rows[id].payload
                 && b.md5(s.rows[id].payload[Data]) == h
  }

  /** Extraction `k` is the first non-empty one of its hash. */
  ghost predicate FirstOfHash(b: Backend, extracted: seq<Extracted>, k: nat)
    requires k < |extracted|
  {
    && extracted[k].text != ""
    && forall j :: 0 <= j < k && extracted[j].text != "" ==> b.md5(extracted[j].text) != b.md5(extracted[k].text)
  }

  /** The hashes that Phase 1 collects are those of the recalled texts. */
  lemma RecalledAreKnown(b: Backend, s: State, recalled: set<Id>, h: string)
    requires forall id :: id in recalled && id in s.rows ==> RowOk(b, s.rows[id])
    ensures h in RecalledHashes(s, recalled) <==> h != "" && Known(b, s, recalled, h)
  {
  }

  lemma KeptIff(b: Backend, s: State, extracted: seq<Extracted>, recalled: set<Id>, k: nat)
    requires k < |extracted| && forall id :: id in recalled && id in s.rows ==> RowOk(b, s.rows[id])
    ensures var h := b.md5(extracted[k].text);
            Kept(b, extracted, EmbedMap(b, extracted), RecalledHashes(s, recalled), k) <==>
              FirstOfHash(b, extracted, k) && (h == "" || !Known(b, s, recalled, h))
  {
    hide RecalledHashes, Known, RowOk;
    RecalledAreKnown(b, s, recalled, b.md5(extracted[k].text));
    assert forall j :: 0 <= j < |extracted| ==>
             (Embeddable(extracted[j], EmbedMap(b, extracted)) <==> extracted[j].text != "");
  }

  /** A text is stored iff it is the first extraction of its hash and no recalled memory holds
      a text of that hash. */
  lemma StoredIff(b: Backend, s: State, metadata: Payload, extracted: seq<Extracted>, recalled: set<Id>, now: string,
        text: string)
    requires forall id :: id in recalled && id in s.rows ==> RowOk(b, s.rows[id])
    ensures var rs := NewRecords(b, s, metadata, extracted, recalled, now);
            (exists i :: 0 <= i < |rs| && rs[i].text == text) <==>
              (b.md5(text) == "" || !Known(b, s, recalled, b.md5(text)))
              && exists k :: 0 <= k < |extracted| && FirstOfHash(b, extracted, k) && extracted[k].text == text
  {
    hide RecalledHashes, Known, RowOk, Kept, FirstOfHash, EmbedMap;
    var rs, vectors := NewRecords(b, s, metadata, extracted, recalled, now), EmbedMap(b, extracted);
    var existing := RecalledHashes(s, recalled);
    if i :| 0 <= i < |rs| && rs[i].text == text {
      var k := RecordSource(b, extracted, vectors, existing, {}, metadata, now, s.index.next, i);
      KeptIff(b, s, extracted, recalled, k);
    }
    if k :| 0 <= k < |extracted| && FirstOfHash(b, extracted, k) && extracted[k].text == text {
      KeptIff(b, s, extracted, recalled, k);
      if Kept(b, extracted, vectors, existing, k) {
        var i := KeptHasRecord(b, extracted, vectors, existing, {}, metadata, now, s.index.next, k);
        assert rs[i].text == text;
      }
    }
  }

  lemma RowsOk(b: Backend, s: State)
    requires HistoryOk(b, s)
    ensures forall id :: id in s.rows ==> id < s.index.next && RowOk(b, s.rows[id])
  {
  }

  /** A stored text has another hash than every recalled one. */
  lemma RecalledIsRejected(b: Backend, s: State, metadata: Payload, extracted: seq<Extracted>, recalled: set<Id>,
        now: string, id: Id, i: nat)
    requires i < |NewRecords(b, s, metadata, extracted, recalled, now)|
    requires forall x :: x in recalled && x in s.rows ==> RowOk(b, s.rows[x])
    requires id in recalled && id in s.rows && Data in s.rows[id].payload
    ensures var h := b.md5(s.rows[id].payload[Data]);
            h != "" ==> b.md5(NewRecords(b, s, metadata, extracted, recalled, now)[i].text) != h
  {
    hide RowOk, RecalledHashes, BuildRecords, EmbedMap, ExtractedPayload, FirstOfHash;
    var h := b.md5(s.rows[id].payload[Data]);
    var text := NewRecords(b, s, metadata, extracted, recalled, now)[i].text;
    StoredIff(b, s, metadata, extracted, recalled, now, text);
    assert Known(b, s, recalled, h);
  }

  /** After any run: whatever an inferring add stores has another hash than every live memory
      that was recalled. */
  lemma NeverStoredAgain(b: Backend, ops: seq<Op>, ids: Filter, metadata: Payload, extracted: seq<Extracted>,
        recalled: set<Id>, now: string, old': Id, new': Id)
    requires old' in recalled && old' in Run(b, Empty, ops).rows && new' !in Run(b, Empty, ops).rows
    requires new' in Step(b, Run(b, Empty, ops), Op.AddInferred(ids, metadata, extracted, recalled, now)).rows
    ensures var s := Run(b, Empty, ops);
            var t := Step(b, s, Op.AddInferred(ids, metadata, extracted, recalled, now));
            && Data in s.rows[old'].payload && Data in t.rows[new'].payload
            && (b.md5(s.rows[old'].payload[Data]) != "" ==>
                  b.md5(t.rows[new'].payload[Data]) != b.md5(s.rows[old'].payload[Data]))
  {
    hide Run, Step, RowOk, HistoryOk, NewRecords;
    var s := Run(b, Empty, ops);
    EmptyHistory(b);
    RunKeepsHistory(b, Empty, ops);
    RowsOk(b, s);
    RowHasText(b, s.rows[old']);
    var i := NewRowSource(b, s, ids, metadata, extracted, recalled, now, new');
    RecalledIsRejected(b, s, metadata + ids, extracted, recalled, now, old', i);
  }

  /** A row that an inferring add makes is that of a record, with the record's text. */
  lemma NewRowSource(b: Backend, s: State, ids: Filter, metadata: Payload, extracted: seq<Extracted>,
        recalled: set<Id>, now: string, new': Id) returns (i: nat)
    requires new' !in s.rows
    requires new' in Step(b, s, Op.AddInferred(ids, metadata, extracted, recalled, now)).rows
    ensures var rs := NewRecords(b, s, metadata + ids, extracted, recalled, now);
            var row := Step(b, s, Op.AddInferred(ids, metadata, extracted, recalled, now)).rows[new'];
            && ValidIds(ids) && i < |rs| && new' == s.index.next + i && row == Row(rs[i].vector, rs[i].payload)
            && Data in row.payload && row.payload[Data] == rs[i].text
  {
    hide EmbedMap, BuildRecords, ExtractedPayload, RecalledHashes, Persist, RowOk;
    var rs := NewRecords(b, s, metadata + ids, extracted, recalled, now);
    PersistExact(s, rs);
    i := new' - s.index.next;
    EmbedMapOk(b, extracted);
    BuildRecordsSound(b, extracted, EmbedMap(b, extracted), RecalledHashes(s, recalled), {}, metadata + ids, now,
      s.index.next);
    assert Storable(b, rs[i]);
    RowHasText(b, Row(rs[i].vector, rs[i].payload));
  }

  lemma RowHasText(b: Backend, r: Row)
    requires RowOk(b, r)
    ensures Data in r.payload
  {
  }
}
