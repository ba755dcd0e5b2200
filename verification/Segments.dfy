/** `extract_technical_segments` and its `_add` (mem0/memory/technical_content.py).
    The regular expressions are given: `find` lists their matches in order. */
module Segments {
  import opened Text

  datatype Segment = Segment(kind: string, content: string)

  /** The two variables that `_add` closes over. */
  datatype Acc = Acc(segments: seq<Segment>, seen: set<string>)

  const EMPTY := Acc([], {})
  const MIN_LENGTH := 15
  const KEY_LENGTH := 200

  /** The first 200 characters. */
  function KeyOf(cleaned: string): (key: string)
    ensures key <= cleaned && |key| == if |cleaned| <= 200 then |cleaned| else 200
  {
    if |cleaned| <= KEY_LENGTH then cleaned else cleaned[..KEY_LENGTH]
  }

  /** Some segment contains `c`. */
  predicate Covered(segments: seq<Segment>, c: string) {
    exists i :: 0 <= i < |segments| && Contains(segments[i].content, c)
  }

  function Pruned(segments: seq<Segment>, cleaned: string): seq<Segment> {
    if segments == [] then [] else
    (if Contains(cleaned, segments[0].content) then [] else [segments[0]]) + Pruned(segments[1..], cleaned)
  }

  function Added(a: Acc, m: Segment): Acc {
    var cleaned := Strip(m.content);
    if |cleaned| < MIN_LENGTH || Covered(a.segments, cleaned) then a else
    var kept := Pruned(a.segments, cleaned);
    if KeyOf(cleaned) in a.seen then Acc(kept, a.seen)
    else Acc(kept + [Segment(m.kind, cleaned)], a.seen + {KeyOf(cleaned)})
  }

  function AddAll(a: Acc, ms: seq<Segment>): Acc
    decreases |ms|
  {
    if ms == [] then a else Added(AddAll(a, ms[..|ms| - 1]), ms[|ms| - 1])
  }

  // ---------- no segment contains another ----------

  ghost predicate Antichain(segments: seq<Segment>) {
    forall i, j :: 0 <= i < |segments| && 0 <= j < |segments| && i != j
      ==> !Contains(segments[i].content, segments[j].content)
  }

  ghost predicate Outside(s: Segment, segments: seq<Segment>) {
    forall i :: 0 <= i < |segments| ==>
      !Contains(s.content, segments[i].content) && !Contains(segments[i].content, s.content)
  }

  lemma {:induction false} PrunedFrom(segments: seq<Segment>, cleaned: string, k: nat)
    requires k < |Pruned(segments, cleaned)|
    ensures Pruned(segments, cleaned)[k] in segments && !Contains(cleaned, Pruned(segments, cleaned)[k].content)
  {
    var here := !Contains(cleaned, segments[0].content);
    if !here || k > 0 { PrunedFrom(segments[1..], cleaned, if here then k - 1 else k); }
  }

  lemma {:induction false} PrunedKeeps(segments: seq<Segment>, cleaned: string, i: nat)
    requires i < |segments| && !Contains(cleaned, segments[i].content)
    ensures segments[i] in Pruned(segments, cleaned)
  {
    if i > 0 { PrunedKeeps(segments[1..], cleaned, i - 1); }
  }

  lemma OutsideTail(s: Segment, segments: seq<Segment>, part: seq<Segment>)
    requires Outside(s, segments) && forall x :: x in part ==> x in segments
    ensures Outside(s, part)
  {
    forall i | 0 <= i < |part| ensures !Contains(s.content, part[i].content) && !Contains(part[i].content, s.content) {
      assert part[i] in segments;
    }
  }

  lemma AntichainCons(s: Segment, segments: seq<Segment>)
    requires Outside(s, segments) && Antichain(segments)
    ensures Antichain([s] + segments) && Antichain(segments + [s])
  {
  }

  lemma AntichainTail(segments: seq<Segment>)
    requires segments != [] && Antichain(segments)
    ensures Antichain(segments[1..]) && Outside(segments[0], segments[1..])
  {
  }

  lemma {:induction false} PrunedAntichain(segments: seq<Segment>, cleaned: string)
    requires Antichain(segments)
    ensures Antichain(Pruned(segments, cleaned))
  {
    if segments != [] {
      AntichainTail(segments);
      var rest := Pruned(segments[1..], cleaned);
      PrunedAntichain(segments[1..], cleaned);
      forall x | x in rest ensures x in segments[1..] {
        var k: nat :| k < |rest| && rest[k] == x;
        PrunedFrom(segments[1..], cleaned, k);
      }
      OutsideTail(segments[0], segments[1..], rest);
      AntichainCons(segments[0], rest);
      assert [] + rest == rest;
    }
  }

  /** No segment ever contains another one. */
  lemma AddKeepsAntichain(a: Acc, m: Segment)
    requires Antichain(a.segments)
    ensures Antichain(Added(a, m).segments)
  {
    var cleaned := Strip(m.content);
    var kept := Pruned(a.segments, cleaned);
    PrunedAntichain(a.segments, cleaned);
    if !Covered(a.segments, cleaned) {
      forall k: nat | k < |kept| ensures !Contains(cleaned, kept[k].content) && !Contains(kept[k].content, cleaned) {
        PrunedFrom(a.segments, cleaned, k);
      }
      AntichainCons(Segment(m.kind, cleaned), kept);
    }
  }

  lemma {:induction false} SegmentsStayAntichain(a: Acc, ms: seq<Segment>)
    requires Antichain(a.segments)
    ensures Antichain(AddAll(a, ms).segments)
    decreases |ms|
  {
    if ms != [] {
      SegmentsStayAntichain(a, ms[..|ms| - 1]);
      AddKeepsAntichain(AddAll(a, ms[..|ms| - 1]), ms[|ms| - 1]);
    }
  }

  /** `s` is the stripped text of one of the matches, and not a short one. */
  ghost predicate IsMatch(s: Segment, ms: seq<Segment>) {
    Trimmed(s.content) && |s.content| >= MIN_LENGTH
    && exists m :: m in ms && s == Segment(m.kind, Strip(m.content))
  }

  lemma IsMatchMore(s: Segment, ms: seq<Segment>, more: seq<Segment>)
    requires IsMatch(s, ms) && forall m :: m in ms ==> m in more
    ensures IsMatch(s, more)
  {
  }

  /** Every segment is one of the matches, verbatim but for outer white space. */
  lemma {:induction false} SegmentsAreMatches(ms: seq<Segment>, s: Segment)
    requires s in AddAll(EMPTY, ms).segments
    ensures IsMatch(s, ms)
    decreases |ms|
  {
    var n := |ms| - 1;
    var a := AddAll(EMPTY, ms[..n]);
    var cleaned := Strip(ms[n].content);
    if s in a.segments {
      SegmentsAreMatches(ms[..n], s);
      IsMatchMore(s, ms[..n], ms);
    } else {
      var kept := Pruned(a.segments, cleaned);
      if s in kept {
        var k: nat :| k < |kept| && kept[k] == s;
        PrunedFrom(a.segments, cleaned, k);
      }
      assert s == Segment(ms[n].kind, cleaned) && ms[n] in ms;
      StripTrims(ms[n].content);
    }
  }

  // ---------- coverage ----------

  /** The guard of the branch that loses text: `m` is new, but its first 200 characters
      were seen before. */
  predicate Dropped(a: Acc, m: Segment) {
    var cleaned := Strip(m.content);
    |cleaned| >= MIN_LENGTH && !Covered(a.segments, cleaned) && KeyOf(cleaned) in a.seen
  }

  lemma StillCovered(a: Acc, m: Segment, c: string)
    requires Covered(a.segments, c) && !Dropped(a, m)
    ensures Covered(Added(a, m).segments, c)
  {
    var cleaned := Strip(m.content);
    if Added(a, m) != a {
      var i :| 0 <= i < |a.segments| && Contains(a.segments[i].content, c);
      var after := Added(a, m).segments;
      assert after[|after| - 1].content == cleaned;
      if Contains(cleaned, a.segments[i].content) {
        ContainsTrans(cleaned, a.segments[i].content, c);
      } else {
        PrunedKeeps(a.segments, cleaned, i);
        var k :| 0 <= k < |Pruned(a.segments, cleaned)| && Pruned(a.segments, cleaned)[k] == a.segments[i];
        assert after[k] == a.segments[i];
      }
    }
  }

  lemma DroppedIsLost(a: Acc, m: Segment)
    requires Dropped(a, m)
    ensures !Covered(Added(a, m).segments, Strip(m.content))
  {
    var cleaned := Strip(m.content);
    var kept := Pruned(a.segments, cleaned);
    forall k: nat | k < |kept| ensures !Contains(kept[k].content, cleaned) {
      PrunedFrom(a.segments, cleaned, k);
    }
  }

  /** A candidate long enough to count is covered after its `_add` iff it was not dropped. */
  lemma AddCoversIff(a: Acc, m: Segment)
    requires |Strip(m.content)| >= MIN_LENGTH
    ensures Covered(Added(a, m).segments, Strip(m.content)) <==> !Dropped(a, m)
  {
    var cleaned := Strip(m.content);
    if Dropped(a, m) {
      DroppedIsLost(a, m);
    } else if !Covered(a.segments, cleaned) {
      var after := Added(a, m).segments;
      ContainsSelf(cleaned);
      assert after[|after| - 1].content == cleaned;
    }
  }

  /** Every candidate long enough to count is a substring of some segment. */
  ghost predicate AllCovered(segments: seq<Segment>, ms: seq<Segment>) {
    forall m :: m in ms && |Strip(m.content)| >= MIN_LENGTH ==> Covered(segments, Strip(m.content))
  }

  ghost predicate NeverDropped(ms: seq<Segment>) {
    forall n :: 0 <= n < |ms| ==> !Dropped(AddAll(EMPTY, ms[..n]), ms[n])
  }

  lemma StepCovers(a: Acc, ms: seq<Segment>, m: Segment)
    requires AllCovered(a.segments, ms) && !Dropped(a, m)
    ensures AllCovered(Added(a, m).segments, ms + [m])
  {
    forall x | x in ms + [m] && |Strip(x.content)| >= MIN_LENGTH
      ensures Covered(Added(a, m).segments, Strip(x.content))
    {
      if x == m { AddCoversIff(a, m); } else { StillCovered(a, m, Strip(x.content)); }
    }
  }

  lemma {:induction false} NoDropCovers(ms: seq<Segment>)
    requires NeverDropped(ms)
    ensures AllCovered(AddAll(EMPTY, ms).segments, ms)
    decreases |ms|
  {
    hide Strip, Dropped, Added, AllCovered;
    if ms != [] {
      var n := |ms| - 1;
      assert forall k :: 0 <= k < n ==> ms[..n][..k] == ms[..k];
      assert !Dropped(AddAll(EMPTY, ms[..n]), ms[n]);
      NoDropCovers(ms[..n]);
      StepCovers(AddAll(EMPTY, ms[..n]), ms[..n], ms[n]);
      assert ms[..n] + [ms[n]] == ms;
    } else {
      NothingToCover();
    }
  }

  lemma NothingToCover()
    ensures AllCovered(AddAll(EMPTY, []).segments, [])
  {
  }

  /** At every point all candidates so far are covered iff none was dropped on arrival. */
  lemma CoverageIff(ms: seq<Segment>)
    ensures (forall n :: 0 <= n <= |ms| ==> AllCovered(AddAll(EMPTY, ms[..n]).segments, ms[..n])) <==> NeverDropped(ms)
  {
    if NeverDropped(ms) {
      forall n | 0 <= n <= |ms| ensures AllCovered(AddAll(EMPTY, ms[..n]).segments, ms[..n]) {
        assert forall k :: 0 <= k < n ==> ms[..n][..k] == ms[..k];
        NoDropCovers(ms[..n]);
      }
    }
    if forall n :: 0 <= n <= |ms| ==> AllCovered(AddAll(EMPTY, ms[..n]).segments, ms[..n]) {
      forall n | 0 <= n < |ms| ensures !Dropped(AddAll(EMPTY, ms[..n]), ms[n]) {
        CoveredOnArrival(ms, n);
      }
    }
  }

  lemma CoveredOnArrival(ms: seq<Segment>, n: nat)
    requires n < |ms| && AllCovered(AddAll(EMPTY, ms[..n + 1]).segments, ms[..n + 1])
    ensures !Dropped(AddAll(EMPTY, ms[..n]), ms[n])
  {
    var a := AddAll(EMPTY, ms[..n]);
    assert ms[..n + 1][..n] == ms[..n] && ms[n] in ms[..n + 1];
    assert AddAll(EMPTY, ms[..n + 1]) == Added(a, ms[n]);
    if |Strip(ms[n].content)| >= MIN_LENGTH { AddCoversIff(a, ms[n]); }
  }

  /** No two different candidates share their first 200 characters. */
  ghost predicate DistinctKeys(ms: seq<Segment>) {
    forall x, y :: x in ms && y in ms && KeyOf(Strip(x.content)) == KeyOf(Strip(y.content)) ==>
      Strip(x.content) == Strip(y.content)
  }

  lemma {:induction false} SeenFrom(ms: seq<Segment>, key: string)
    requires key in AddAll(EMPTY, ms).seen
    ensures exists m :: m in ms && |Strip(m.content)| >= MIN_LENGTH && KeyOf(Strip(m.content)) == key
    decreases |ms|
  {
    var n := |ms| - 1;
    if key in AddAll(EMPTY, ms[..n]).seen {
      SeenFrom(ms[..n], key);
      var m :| m in ms[..n] && |Strip(m.content)| >= MIN_LENGTH && KeyOf(Strip(m.content)) == key;
      assert m in ms;
    } else {
      assert ms[n] in ms;
    }
  }

  lemma DistinctNotDropped(ms: seq<Segment>, m: Segment)
    requires DistinctKeys(ms + [m]) && AllCovered(AddAll(EMPTY, ms).segments, ms)
    ensures !Dropped(AddAll(EMPTY, ms), m)
  {
    var key := KeyOf(Strip(m.content));
    if key in AddAll(EMPTY, ms).seen {
      SeenFrom(ms, key);
      var x :| x in ms && |Strip(x.content)| >= MIN_LENGTH && KeyOf(Strip(x.content)) == key;
      assert x in ms + [m] && m in ms + [m];
    }
  }

  /** With distinct keys every candidate of at least 15 characters is a substring of some
      final segment. */
  lemma {:induction false} DistinctKeysCover(ms: seq<Segment>)
    requires DistinctKeys(ms)
    ensures AllCovered(AddAll(EMPTY, ms).segments, ms)
    decreases |ms|
  {
    if ms != [] {
      var n := |ms| - 1;
      assert ms[..n] + [ms[n]] == ms;
      DistinctKeysCover(ms[..n]);
      DistinctNotDropped(ms[..n], ms[n]);
      StepCovers(AddAll(EMPTY, ms[..n]), ms[..n], ms[n]);
    }
  }

  lemma AddFirst(kind: string, c: string)
    requires |c| >= MIN_LENGTH && Strip(c) == c
    ensures AddAll(EMPTY, [Segment(kind, c)]) == Acc([Segment(kind, c)], {KeyOf(c)})
  {
  }

  /** Without that condition text is lost: a block of at least 200 characters followed by a
      longer one that starts with it leaves no segment at all. */
  lemma SharedKeyLosesBoth(kind: string, c: string, more: string)
    requires |c| >= KEY_LENGTH && more != "" && Strip(c) == c && Strip(c + more) == c + more
    ensures AddAll(EMPTY, [Segment(kind, c), Segment(kind, c + more)]).segments == []
  {
    var x, y := Segment(kind, c), Segment(kind, c + more);
    AddFirst(kind, c);
    var a := AddAll(EMPTY, [x]);
    assert [x, y][..1] == [x] && [x, y][1] == y;
    assert AddAll(EMPTY, [x, y]) == Added(a, y);
    if Covered(a.segments, c + more) { ContainsLonger(c, c + more); }
    ContainsMiddle("", c, more);
    assert "" + c + more == c + more;
    assert KeyOf(c + more) == KeyOf(c);
    assert Pruned([x], c + more) == [] + Pruned([x][1..], c + more);
  }

  // ---------- the loops ----------

  /** The variables of `extract_technical_segments` and its nested `_add`. */
  class Collector {
    var segments: seq<Segment>
    var seen: set<string>

    ghost function State(): Acc
      reads this
    {
      Acc(segments, seen)
    }

    constructor ()
      ensures State() == EMPTY
    {
      segments, seen := [], {};
    }

    /** `_add` */
    method Add(content: string, kind: string)
      modifies this
      ensures State() == Added(old(State()), Segment(kind, content))
    {
      var cleaned := Strip(content);
      if |cleaned| < MIN_LENGTH { return; }
      for i := 0 to |segments|
        invariant segments == old(segments) && seen == old(seen)
        invariant forall k :: 0 <= k < i ==> !Contains(segments[k].content, cleaned)
      {
        if Contains(segments[i].content, cleaned) { return; }
      }
      assert !Covered(segments, cleaned);
      Prune(cleaned);
      var key := KeyOf(cleaned);
      if key in seen { return; }
      seen := seen + {key};
      segments := segments + [Segment(kind, cleaned)];
    }

    /** The list comprehension that drops what `cleaned` contains. */
    method Prune(cleaned: string)
      modifies this`segments
      ensures segments == Pruned(old(segments), cleaned)
    {
      var kept: seq<Segment> := [];
      for i := 0 to |segments|
        invariant segments == old(segments)
        invariant kept + Pruned(segments[i..], cleaned) == Pruned(segments, cleaned)
      {
        assert segments[i..][0] == segments[i] && segments[i..][1..] == segments[i + 1..];
        if !Contains(cleaned, segments[i].content) { kept := kept + [segments[i]]; }
      }
      segments := kept;
    }
  }

  /** What `extract_technical_segments` returns. */
  ghost function Extracted(text: string, find: string -> seq<Segment>, technical: string -> bool): seq<Segment> {
    var a := AddAll(EMPTY, find(text));
    if text == "" then []
    else if a.segments == [] && technical(text) then Added(a, Segment("technical_text", Strip(text))).segments
    else a.segments
  }

  method ExtractTechnicalSegments(text: string, find: string -> seq<Segment>, technical: string -> bool)
    returns (segments: seq<Segment>)
    ensures segments == Extracted(text, find, technical)
  {
    if text == "" { return []; }
    var c := new Collector();
    var matches := find(text);
    for i := 0 to |matches|
      invariant c.State() == AddAll(EMPTY, matches[..i])
    {
      c.Add(matches[i].content, matches[i].kind);
      assert matches[..i + 1][..i] == matches[..i];
    }
    assert matches[..|matches|] == matches;
    if c.segments == [] && technical(text) { c.Add(Strip(text), "technical_text"); }
    segments := c.segments;
  }

  lemma ExtractedIsAntichain(text: string, find: string -> seq<Segment>, technical: string -> bool)
    ensures Antichain(Extracted(text, find, technical))
  {
    SegmentsStayAntichain(EMPTY, find(text));
    AddKeepsAntichain(AddAll(EMPTY, find(text)), Segment("technical_text", Strip(text)));
  }

  lemma ExtractedAreTrimmed(text: string, find: string -> seq<Segment>, technical: string -> bool, s: Segment)
    requires s in Extracted(text, find, technical)
    ensures Trimmed(s.content) && s.content != ""
  {
    hide Pruned, Strip;
    var ms := find(text);
    if s in AddAll(EMPTY, ms).segments {
      SegmentsAreMatches(ms, s);
    } else {
      var all := ms + [Segment("technical_text", Strip(text))];
      assert all[..|ms|] == ms;
      assert AddAll(EMPTY, all) == Added(AddAll(EMPTY, ms), all[|ms|]);
      SegmentsAreMatches(all, s);
    }
  }

  // ---------- what the extraction returns ----------

  /** When no two different matches share their first 200 characters, every match of at least
      15 characters stands in some returned segment. */
  lemma ExtractedCovers(text: string, find: string -> seq<Segment>, technical: string -> bool, m: Segment)
    requires text != "" && DistinctKeys(find(text)) && m in find(text) && |Strip(m.content)| >= 15
    ensures Covered(Extracted(text, find, technical), Strip(m.content))
  {
    hide Strip, Added, KeyOf;
    DistinctKeysCover(find(text));
    assert Covered(AddAll(EMPTY, find(text)).segments, Strip(m.content));
  }

  /** Every returned segment is a match, stripped, or else the only one: the whole text,
      stripped, of a text that looks technical. */
  lemma ExtractedFrom(text: string, find: string -> seq<Segment>, technical: string -> bool, s: Segment)
    requires s in Extracted(text, find, technical)
    ensures text != "" && |s.content| >= 15
    ensures || (exists m :: m in find(text) && s == Segment(m.kind, Strip(m.content)))
            || (technical(text) && s == Segment("technical_text", Strip(text))
                && Extracted(text, find, technical) == [s])
  {
    hide Strip, KeyOf;
    var a, whole := AddAll(EMPTY, find(text)), Segment("technical_text", Strip(text));
    if s in a.segments {
      SegmentsAreMatches(find(text), s);
    } else {
      StripTwice(text);
      assert a.segments == [] && s in Added(a, whole).segments;
      assert Pruned([], Strip(text)) == [];
    }
  }

  lemma StripTwice(text: string)
    ensures Strip(Strip(text)) == Strip(text)
  {
    StripTrims(text);
    StripTrimmed(Strip(text));
  }

  lemma {:induction false} NothingLong(ms: seq<Segment>)
    requires forall m :: m in ms ==> |Strip(m.content)| < 15
    ensures AddAll(EMPTY, ms) == EMPTY
    decreases |ms|
  {
    hide Strip;
    if ms != [] {
      assert ms[|ms| - 1] in ms;
      NothingLong(ms[..|ms| - 1]);
    }
  }

  /** Without a match that is long enough, the whole text is the one segment iff it looks
      technical and is long enough itself; otherwise there is none. */
  lemma ExtractedFallback(text: string, find: string -> seq<Segment>, technical: string -> bool)
    requires forall m :: m in find(text) ==> |Strip(m.content)| < 15
    ensures Extracted(text, find, technical)
              == if technical(text) && |Strip(text)| >= 15 then [Segment("technical_text", Strip(text))] else []
  {
    hide Strip, KeyOf;
    NothingLong(find(text));
    StripTwice(text);
    var before, after := StripRemoves(text);
    assert Pruned([], Strip(text)) == [];
  }
}
