/** `format_memory_with_raw` and `enrich_extracted_memories`
    (mem0/memory/technical_content.py). The regular expressions and the judgements they
    make are given as functions. */
module Enrichment {
  import opened Wrappers
  import opened Text
  import EscapeRepair
  import Segments
  type Segment = Segments.Segment

  const MARKER := "--- Original technical content ---"

  // ---------- format_memory_with_raw ----------

  function Format(interpreted: string, raw: string): string {
    var i, r := Strip(interpreted), Strip(raw);
    if r == "" || Contains(i, r) then i
    else if i == "" then MARKER + "\n" + r
    else i + "\n\n" + MARKER + "\n" + r
  }

  /** The raw content is in the result verbatim, after the whole interpreted text. */
  lemma FormatContains(interpreted: string, raw: string)
    ensures Contains(Format(interpreted, raw), Strip(raw))
    ensures Strip(interpreted) <= Format(interpreted, raw)
  {
    var i, r := Strip(interpreted), Strip(raw);
    if r == "" {
      assert At(i, r, 0);
    } else if !Contains(i, r) {
      var before := if i == "" then MARKER + "\n" else i + "\n\n" + MARKER + "\n";
      ContainsMiddle(before, r, "");
      assert before + r + "" == Format(interpreted, raw);
    }
  }

  lemma FormatTrimmed(interpreted: string, raw: string)
    ensures Trimmed(Format(interpreted, raw))
  {
    StripTrims(interpreted);
    StripTrims(raw);
    assert !IsSpace(MARKER[0]);
  }

  /** Formatting twice is formatting once. */
  lemma FormatIdempotent(interpreted: string, raw: string)
    ensures Format(Format(interpreted, raw), raw) == Format(interpreted, raw)
  {
    FormatTrimmed(interpreted, raw);
    StripTrimmed(Format(interpreted, raw));
    FormatContains(interpreted, raw);
  }

  // ---------- memories ----------

  /** A memory of the extractor's answer; None is a missing key. */
  datatype Mem = Mem(text: Option<string>, raw: Option<string>, kind: Option<string>, rest: map<string, string>)

  /** The given functions. */
  datatype Judge = Judge(
    preserved: (Segment, string) -> bool,
    vague: string -> bool,
    related: (string, string) -> bool,
    replace: string -> string,
    standIn: string -> string,
    caption: string -> string,
    decimal: nat -> string)

  function Or(o: Option<string>): string { if o.Some? then o.value else "" }

  /** What became of a segment. */
  datatype Fate = Preserved | Grafted(mem: nat) | Appended(mem: nat)

  type Fates = map<nat, Fate>

  /** The memories so far; the domain of `fates` is `used_segment_indexes`. */
  datatype State = State(mems: seq<Mem>, fates: Fates)

  function Corpus(mems: seq<Mem>): string { Join("\n", CorpusParts(mems)) }

  function CorpusParts(mems: seq<Mem>): seq<string> {
    if mems == [] then [] else [Or(mems[0].text), Or(mems[0].raw)] + CorpusParts(mems[1..])
  }

  /** The texts and raw contents of all memories, one to a line. */
  lemma CorpusIs(m: Mem, rest: seq<Mem>)
    ensures Corpus([m]) == Or(m.text) + "\n" + Or(m.raw)
    ensures rest != [] ==> Corpus([m] + rest) == Or(m.text) + "\n" + Or(m.raw) + "\n" + Corpus(rest)
  {
    hide Join;
    var text, raw, parts := Or(m.text), Or(m.raw), CorpusParts(rest);
    assert [m][1..] == [] && ([m] + rest)[1..] == rest;
    assert CorpusParts([m]) == [text, raw] + [] == [text] + [raw];
    JoinOne("\n", raw);
    JoinCons("\n", text, [raw]);
    if rest != [] {
      assert CorpusParts([m] + rest) == [text, raw] + parts == [text] + ([raw] + parts);
      JoinCons("\n", text, [raw] + parts);
      JoinCons("\n", raw, parts);
      assert text + "\n" + (raw + "\n" + Join("\n", parts)) == text + "\n" + raw + "\n" + Join("\n", parts);
    }
  }

  /** The unused segments that `text` preserves become used. */
  function Mark(j: Judge, segs: seq<Segment>, fates: Fates, text: string): Fates {
    fates + map i: nat | i < |segs| && i !in fates && j.preserved(segs[i], text) :: Preserved
  }

  /** The first unused segment, from `i` on, that `text` is vague or related enough for. */
  function AttachTo(j: Judge, segs: seq<Segment>, fates: Fates, text: string, i: nat): (r: Option<nat>)
    ensures r.Some? ==> i <= r.value < |segs| && r.value !in fates
                        && (j.vague(text) || j.related(text, segs[r.value].content))
    decreases |segs| - i
  {
    if i >= |segs| then None
    else if i !in fates && (j.vague(text) || j.related(text, segs[i].content)) then Some(i)
    else AttachTo(j, segs, fates, text, i + 1)
  }

  function Formatted(m: Mem): Mem {
    m.(text := Some(Format(Strip(Or(m.text)), Strip(Or(m.raw)))),
       kind := if m.kind.Some? then m.kind else Some("technical"))
  }

  function Graft(j: Judge, m: Mem, s: Segment): Mem {
    var text := Strip(Or(m.text));
    var replacement := if j.vague(text) then j.replace(text) else text;
    m.(text := Some(Format(if replacement != "" then replacement else j.standIn(s.kind), s.content)),
       raw := Some(s.content), kind := Some("technical"))
  }

  function Artifact(j: Judge, s: Segment, id: nat): Mem {
    Mem(Some(Format(j.caption(s.kind), s.content)), Some(s.content), Some("technical_artifact"),
        map["id" := j.decimal(id), "attributed_to" := "user"])
  }

  /** The body of the first loop, for memory `k`. */
  function OnMemory(j: Judge, segs: seq<Segment>, st: State, k: nat): (r: State)
    requires k < |st.mems|
    ensures |r.mems| == |st.mems|
  {
    var m := st.mems[k];
    var raw, text := Strip(Or(m.raw)), Strip(Or(m.text));
    if raw != "" then
      State(st.mems[k := Formatted(m)], Mark(j, segs, st.fates, text + "\n" + raw))
    else
      var fates := Mark(j, segs, st.fates, text);
      var at := AttachTo(j, segs, fates, text, 0);
      if at.None? then State(st.mems, fates)
      else State(st.mems[k := Graft(j, m, segs[at.value])], fates[at.value := Grafted(k)])
  }

  function OnMemories(j: Judge, segs: seq<Segment>, mems: seq<Mem>, k: nat): (st: State)
    requires k <= |mems|
    ensures |st.mems| == |mems|
  {
    if k == 0 then State(mems, map[]) else OnMemory(j, segs, OnMemories(j, segs, mems, k - 1), k - 1)
  }

  /** The body of the second loop, for segment `i`. */
  function OnSegment(j: Judge, segs: seq<Segment>, st: State, i: nat): State
    requires i < |segs|
  {
    if i in st.fates then st
    else if j.preserved(segs[i], Corpus(st.mems)) then State(st.mems, st.fates[i := Preserved])
    else State(st.mems + [Artifact(j, segs[i], |st.mems|)], st.fates[i := Appended(|st.mems|)])
  }

  function OnSegments(j: Judge, segs: seq<Segment>, st: State, i: nat): State
    requires i <= |segs|
  {
    if i == 0 then st else OnSegment(j, segs, OnSegments(j, segs, st, i - 1), i - 1)
  }

  /** Both loops. */
  function Attached(j: Judge, segs: seq<Segment>, mems: seq<Mem>): State {
    OnSegments(j, segs, OnMemories(j, segs, mems, |mems|), |segs|)
  }

  // ---------- the first loop ----------

  /** Memory `m` carries segment `s`. */
  ghost predicate Carries(m: Mem, s: Segment) {
    m.raw == Some(s.content) && m.text.Some? && Contains(m.text.value, Strip(s.content))
  }

  /** The text that the first loop judges memory `m` by. */
  function Judged(m: Mem): string {
    var raw, text := Strip(Or(m.raw)), Strip(Or(m.text));
    if raw != "" then text + "\n" + raw else text
  }

  predicate Fits(j: Judge, m: Mem, s: Segment) {
    j.vague(Strip(Or(m.text))) || j.related(Strip(Or(m.text)), s.content)
  }

  ghost predicate PreservedByInput(j: Judge, s: Segment, mems: seq<Mem>) {
    exists k :: 0 <= k < |mems| && j.preserved(s, Judged(mems[k]))
  }

  /** The fate `f` of segment `s` once the first `k` memories are done. */
  ghost predicate Settled(j: Judge, s: Segment, mems: seq<Mem>, now: seq<Mem>, k: nat, f: Fate) {
    match f
    case Preserved => PreservedByInput(j, s, mems)
    case Grafted(g) => g < k <= |now| == |mems| && now[g] == Graft(j, mems[g], s) && Strip(Or(mems[g].raw)) == ""
                       && Carries(now[g], s) && Fits(j, mems[g], s)
    case Appended(_) => false
  }

  lemma GraftCarries(j: Judge, m: Mem, s: Segment)
    ensures Carries(Graft(j, m, s), s)
  {
    var text := Strip(Or(m.text));
    var replacement := if j.vague(text) then j.replace(text) else text;
    FormatContains(if replacement != "" then replacement else j.standIn(s.kind), s.content);
  }

  lemma ArtifactCarries(j: Judge, s: Segment, id: nat)
    ensures Carries(Artifact(j, s, id), s)
  {
    FormatContains(j.caption(s.kind), s.content);
  }

  lemma OnMemoryAt(j: Judge, segs: seq<Segment>, mems: seq<Mem>, st: State, k: nat, i: nat)
    requires k < |st.mems| == |mems| && st.mems[k] == mems[k]
    requires i in OnMemory(j, segs, st, k).fates && i !in st.fates
    ensures i < |segs|
      && Settled(j, segs[i], mems, OnMemory(j, segs, st, k).mems, k + 1, OnMemory(j, segs, st, k).fates[i])
  {
    var m := mems[k];
    var fates := Mark(j, segs, st.fates, Judged(m));
    if i in fates {
      assert j.preserved(segs[i], Judged(mems[k]));
    } else {
      GraftCarries(j, m, segs[i]);
    }
  }

  lemma OnMemoryOthers(j: Judge, segs: seq<Segment>, st: State, k: nat, i: nat)
    requires k < |st.mems| && i in st.fates
    ensures i in OnMemory(j, segs, st, k).fates && OnMemory(j, segs, st, k).fates[i] == st.fates[i]
  {
  }

  lemma {:induction false} NotYet(j: Judge, segs: seq<Segment>, mems: seq<Mem>, k: nat, x: nat)
    requires k <= x < |mems|
    ensures OnMemories(j, segs, mems, k).mems[x] == mems[x]
  {
    hide Strip, Format, Graft, Formatted, Judged, Fits, Carries, AttachTo, Mark;
    if k > 0 { NotYet(j, segs, mems, k - 1, x); }
  }

  lemma SettledStays(j: Judge, s: Segment, mems: seq<Mem>, now: seq<Mem>, later: seq<Mem>, k: nat, f: Fate)
    requires k < |now| == |later| && later[..k] == now[..k] && Settled(j, s, mems, now, k, f)
    ensures Settled(j, s, mems, later, k + 1, f)
  {
    hide Strip, Format, Carries, Graft, Fits;
    if f.Grafted? { assert later[f.mem] == later[..k][f.mem] == now[..k][f.mem]; }
  }

  lemma OnMemoryPrefix(j: Judge, segs: seq<Segment>, st: State, k: nat)
    requires k < |st.mems|
    ensures OnMemory(j, segs, st, k).mems[..k] == st.mems[..k]
  {
    hide Strip, Format, Graft, Formatted, AttachTo, Mark;
  }

  lemma {:induction false} FateAfter(j: Judge, segs: seq<Segment>, mems: seq<Mem>, k: nat, i: nat)
    requires k <= |mems| && i in OnMemories(j, segs, mems, k).fates
    ensures i < |segs|
      && Settled(j, segs[i], mems, OnMemories(j, segs, mems, k).mems, k, OnMemories(j, segs, mems, k).fates[i])
  {
    hide Strip, Format, Settled, OnMemory;
    if k > 0 {
      var before, after := OnMemories(j, segs, mems, k - 1), OnMemories(j, segs, mems, k);
      NotYet(j, segs, mems, k - 1, k - 1);
      if i in before.fates {
        FateAfter(j, segs, mems, k - 1, i);
        OnMemoryOthers(j, segs, before, k - 1, i);
        OnMemoryPrefix(j, segs, before, k - 1);
        SettledStays(j, segs[i], mems, before.mems, after.mems, k - 1, before.fates[i]);
      } else {
        OnMemoryAt(j, segs, mems, before, k - 1, i);
      }
    }
  }

  /** The step for memory `k` grafts at most one segment, on `k`. */
  lemma OnMemoryGrafts(j: Judge, segs: seq<Segment>, st: State, k: nat, a: nat, b: nat)
    requires k < |st.mems| && a !in st.fates && a != b
    ensures var f := OnMemory(j, segs, st, k).fates;
            a in f && f[a].Grafted? ==> f[a] == Grafted(k) && (b in f && b !in st.fates ==> f[b] == Preserved)
  {
    hide Strip, Format, Graft, Formatted, Judged, Fits, Carries;
  }

  lemma GraftedBelow(j: Judge, segs: seq<Segment>, mems: seq<Mem>, k: nat, i: nat)
    requires k <= |mems| && i in OnMemories(j, segs, mems, k).fates
    ensures var f := OnMemories(j, segs, mems, k).fates[i]; f.Grafted? ==> f.mem < k
  {
    hide Strip, Format, Graft, Formatted, Judged, Fits, Carries, OnMemories;
    FateAfter(j, segs, mems, k, i);
  }

  /** No memory gets two segments. */
  lemma {:induction false} GraftedOnce(j: Judge, segs: seq<Segment>, mems: seq<Mem>, k: nat, a: nat, b: nat)
    requires k <= |mems| && a != b
    ensures var f := OnMemories(j, segs, mems, k).fates; a in f && b in f && f[a].Grafted? ==> f[a] != f[b]
  {
    hide Strip, Format, OnMemory;
    if k > 0 {
      var before := OnMemories(j, segs, mems, k - 1);
      GraftedOnce(j, segs, mems, k - 1, a, b);
      if a in before.fates {
        GraftedBelow(j, segs, mems, k - 1, a);
        OnMemoryOthers(j, segs, before, k - 1, a);
        if b in before.fates {
          OnMemoryOthers(j, segs, before, k - 1, b);
        } else {
          OnMemoryGrafts(j, segs, before, k - 1, b, a);
        }
      } else {
        OnMemoryGrafts(j, segs, before, k - 1, a, b);
        if b in before.fates {
          GraftedBelow(j, segs, mems, k - 1, b);
          OnMemoryOthers(j, segs, before, k - 1, b);
        }
      }
    }
  }

  // ---------- what becomes of a memory ----------

  ghost predicate NoneGrafted(fates: Fates, k: nat) { forall i :: i in fates ==> fates[i] != Grafted(k) }

  /** Memory `m` at position `k` carries the segment whose fate says so. */
  ghost predicate HasItsGraft(j: Judge, segs: seq<Segment>, fates: Fates, m: Mem, k: nat, now: Mem) {
    exists i :: i in fates && i < |segs| && fates[i] == Grafted(k) && Fits(j, m, segs[i]) && now == Graft(j, m, segs[i])
  }

  /** What has become of input memory `m` at position `k`: formatted when it came with raw
      content; otherwise the carrier of the segment grafted on it, or untouched when none was. */
  ghost predicate MemoryOk(j: Judge, segs: seq<Segment>, fates: Fates, m: Mem, k: nat, now: Mem) {
    if Strip(Or(m.raw)) != "" then now == Formatted(m) && NoneGrafted(fates, k)
    else HasItsGraft(j, segs, fates, m, k, now) || (now == m && NoneGrafted(fates, k))
  }

  /** The same segments are grafted on memory `k`. */
  ghost predicate GraftsAlike(before: Fates, after: Fates, k: nat) {
    forall i :: (i in before && before[i] == Grafted(k)) <==> (i in after && after[i] == Grafted(k))
  }

  lemma MemoryStaysOk(j: Judge, segs: seq<Segment>, before: Fates, after: Fates, m: Mem, k: nat, now: Mem)
    requires GraftsAlike(before, after, k) && MemoryOk(j, segs, before, m, k, now)
    ensures MemoryOk(j, segs, after, m, k, now)
  {
    hide Strip, Format, Graft, Formatted, Fits;
    if HasItsGraft(j, segs, before, m, k, now) {
      var i :| i in before && i < |segs| && before[i] == Grafted(k) && Fits(j, m, segs[i])
        && now == Graft(j, m, segs[i]);
      assert i in after && after[i] == Grafted(k);
    }
  }

  lemma OnMemoryTurns(j: Judge, segs: seq<Segment>, st: State, k: nat)
    requires k < |st.mems| && NoneGrafted(st.fates, k)
    ensures var next := OnMemory(j, segs, st, k); MemoryOk(j, segs, next.fates, st.mems[k], k, next.mems[k])
  {
    hide Strip, Format, Graft, Formatted;
    var m, next := st.mems[k], OnMemory(j, segs, st, k);
    var fates := Mark(j, segs, st.fates, Judged(m));
    assert NoneGrafted(fates, k);
    var at := AttachTo(j, segs, fates, Strip(Or(m.text)), 0);
    if Strip(Or(m.raw)) == "" && at.Some? {
      assert Fits(j, m, segs[at.value]) && next.fates[at.value] == Grafted(k);
    }
  }

  lemma OnMemoryGraftsAlike(j: Judge, segs: seq<Segment>, st: State, k: nat, x: nat)
    requires k < |st.mems| && x != k
    ensures GraftsAlike(st.fates, OnMemory(j, segs, st, k).fates, x)
  {
    hide Strip, Format, OnMemory;
    var after := OnMemory(j, segs, st, k).fates;
    forall i ensures (i in st.fates && st.fates[i] == Grafted(x)) <==> (i in after && after[i] == Grafted(x)) {
      if i in st.fates { OnMemoryOthers(j, segs, st, k, i); } else { OnMemoryGrafts(j, segs, st, k, i, i + 1); }
    }
  }

  lemma {:induction false} MemoryAfter(j: Judge, segs: seq<Segment>, mems: seq<Mem>, k: nat, x: nat)
    requires x < k <= |mems|
    ensures var st := OnMemories(j, segs, mems, k); MemoryOk(j, segs, st.fates, mems[x], x, st.mems[x])
  {
    hide Strip, Format, OnMemory, MemoryOk, GraftsAlike;
    var before := OnMemories(j, segs, mems, k - 1);
    if x < k - 1 {
      MemoryAfter(j, segs, mems, k - 1, x);
      OnMemoryGraftsAlike(j, segs, before, k - 1, x);
      OnMemoryPrefix(j, segs, before, k - 1);
      var after := OnMemories(j, segs, mems, k);
      assert after.mems[x] == after.mems[..k - 1][x] == before.mems[..k - 1][x];
      MemoryStaysOk(j, segs, before.fates, after.fates, mems[x], x, before.mems[x]);
    } else {
      NotYet(j, segs, mems, x, x);
      forall i | i in before.fates ensures before.fates[i] != Grafted(x) { GraftedBelow(j, segs, mems, x, i); }
      OnMemoryTurns(j, segs, before, x);
    }
  }

  // ---------- the second loop ----------

  lemma {:induction false} MemsGrow(j: Judge, segs: seq<Segment>, st: State, i: nat, n: nat)
    requires i <= n <= |segs|
    ensures OnSegments(j, segs, st, i).mems <= OnSegments(j, segs, st, n).mems
  {
    hide Strip, Format, Artifact, Corpus, Carries, OnMemories;
    if i < n { MemsGrow(j, segs, st, i, n - 1); }
  }

  lemma {:induction false} FateStays(j: Judge, segs: seq<Segment>, st: State, i: nat, n: nat, a: nat)
    requires i <= n <= |segs| && a in OnSegments(j, segs, st, i).fates
    ensures a in OnSegments(j, segs, st, n).fates
      && OnSegments(j, segs, st, n).fates[a] == OnSegments(j, segs, st, i).fates[a]
  {
    hide Strip, Format, Artifact, Corpus, Carries, OnMemories;
    if i < n { FateStays(j, segs, st, i, n - 1, a); }
  }

  /** The fate that segment `s`, unused after the first loop, gets when the memories are
      `now`, and the memory it is appended as. */
  ghost predicate SettledLate(j: Judge, s: Segment, now: seq<Mem>, out: seq<Mem>, f: Fate) {
    match f
    case Preserved => j.preserved(s, Corpus(now))
    case Grafted(_) => false
    case Appended(g) =>
      g == |now| < |out| && out[g] == Artifact(j, s, g) && Carries(out[g], s) && !j.preserved(s, Corpus(now))
  }

  /** The texts of the final memories up to some point of the second loop preserve it. */
  ghost predicate PreservedByOutput(j: Judge, s: Segment, n: nat, out: seq<Mem>) {
    exists k :: n <= k <= |out| && j.preserved(s, Corpus(out[..k]))
  }

  lemma OnSegmentFate(j: Judge, segs: seq<Segment>, st: State, i: nat)
    requires i < |segs| && i !in st.fates
    ensures var next := OnSegment(j, segs, st, i);
            i in next.fates && SettledLate(j, segs[i], st.mems, next.mems, next.fates[i])
  {
    hide Strip, Format, Corpus, Carries, Artifact;
    ArtifactCarries(j, segs[i], |st.mems|);
  }

  lemma SettledLateMore(j: Judge, s: Segment, now: seq<Mem>, out: seq<Mem>, more: seq<Mem>, f: Fate)
    requires SettledLate(j, s, now, out, f) && out <= more
    ensures SettledLate(j, s, now, more, f)
  {
  }

  lemma LateFate(j: Judge, segs: seq<Segment>, st: State, i: nat)
    requires i < |segs| && i !in OnSegments(j, segs, st, i).fates
    ensures var out := OnSegments(j, segs, st, |segs|);
            i in out.fates && SettledLate(j, segs[i], OnSegments(j, segs, st, i).mems, out.mems, out.fates[i])
  {
    hide Strip, Format, OnSegment, SettledLate;
    var before, after := OnSegments(j, segs, st, i), OnSegments(j, segs, st, i + 1);
    assert after == OnSegment(j, segs, before, i);
    OnSegmentFate(j, segs, before, i);
    FateStays(j, segs, st, i + 1, |segs|, i);
    MemsGrow(j, segs, st, i + 1, |segs|);
    SettledLateMore(j, segs[i], before.mems, after.mems, OnSegments(j, segs, st, |segs|).mems, after.fates[i]);
  }

  /** Nothing gives segment `a` a fate before its own turn. */
  lemma {:induction false} NotBefore(j: Judge, segs: seq<Segment>, st: State, i: nat, a: nat)
    requires i <= a < |segs| && a !in st.fates
    ensures a !in OnSegments(j, segs, st, i).fates
  {
    if i > 0 { NotBefore(j, segs, st, i - 1, a); }
  }

  /** The fate of segment `i`: judged preserved by an input memory or by the texts so far,
      grafted on one input memory that it fits, or appended as one artifact because the
      texts so far do not preserve it. */
  ghost predicate Accounted(j: Judge, segs: seq<Segment>, mems: seq<Mem>, out: State, i: nat)
    requires i < |segs|
  {
    i in out.fates &&
    match out.fates[i]
    case Preserved => PreservedByInput(j, segs[i], mems) || PreservedByOutput(j, segs[i], |mems|, out.mems)
    case Grafted(g) => g < |mems| <= |out.mems| && Carries(out.mems[g], segs[i]) && Fits(j, mems[g], segs[i])
    case Appended(g) =>
      && |mems| <= g < |out.mems| && out.mems[g] == Artifact(j, segs[i], g) && Carries(out.mems[g], segs[i])
      && !j.preserved(segs[i], Corpus(out.mems[..g]))
  }

  lemma AccountedEarly(j: Judge, segs: seq<Segment>, mems: seq<Mem>, i: nat)
    requires i in OnMemories(j, segs, mems, |mems|).fates
    ensures i < |segs| && Accounted(j, segs, mems, Attached(j, segs, mems), i)
  {
    hide Strip, Format, Graft, Formatted, Judged, Fits, Carries, OnMemory, OnSegment, OnMemories, OnSegments, Corpus;
    var st := OnMemories(j, segs, mems, |mems|);
    FateAfter(j, segs, mems, |mems|, i);
    FateZero(j, segs, st);
    FateStays(j, segs, st, 0, |segs|, i);
    MemsGrow(j, segs, st, 0, |segs|);
  }

  lemma FateZero(j: Judge, segs: seq<Segment>, st: State)
    ensures OnSegments(j, segs, st, 0) == st
  {
  }

  lemma AccountedLate(j: Judge, segs: seq<Segment>, mems: seq<Mem>, i: nat)
    requires i < |segs| && i !in OnMemories(j, segs, mems, |mems|).fates
    ensures Accounted(j, segs, mems, Attached(j, segs, mems), i)
  {
    hide Strip, Format, Graft, Formatted, Judged, Fits, Carries, OnMemory, OnSegment, OnMemories, OnSegments, Corpus,
      Artifact;
    var st := OnMemories(j, segs, mems, |mems|);
    NotBefore(j, segs, st, i, i);
    LateFate(j, segs, st, i);
    FateZero(j, segs, st);
    MemsGrow(j, segs, st, 0, i);
    MemsGrow(j, segs, st, i, |segs|);
    var now, out := OnSegments(j, segs, st, i).mems, Attached(j, segs, mems).mems;
    assert out[..|now|] == now;
  }

  /** Every segment ends in exactly one of the three states, and a grafted or appended one
      stands verbatim in the text and the raw content of its memory. */
  lemma EverySegmentIsAccountedFor(j: Judge, segs: seq<Segment>, mems: seq<Mem>, i: nat)
    requires i < |segs|
    ensures Accounted(j, segs, mems, Attached(j, segs, mems), i)
  {
    hide Strip, Format, Accounted, Attached, OnMemories;
    if i in OnMemories(j, segs, mems, |mems|).fates {
      AccountedEarly(j, segs, mems, i);
    } else {
      AccountedLate(j, segs, mems, i);
    }
  }

  /** Segments with different numbers never go to the same memory. */
  lemma OneSegmentPerMemory(j: Judge, segs: seq<Segment>, mems: seq<Mem>, a: nat, b: nat)
    requires a < b < |segs|
    ensures var f := Attached(j, segs, mems).fates; a in f && b in f && !f[a].Preserved? ==> f[a] != f[b]
  {
    var st := OnMemories(j, segs, mems, |mems|);
    EarlyOrLate(j, segs, mems, a);
    EarlyOrLate(j, segs, mems, b);
    GraftedOnce(j, segs, mems, |mems|, a, b);
    if a !in st.fates && b !in st.fates {
      LateApart(j, segs, st, a, b);
    }
  }

  /** A segment used by the first loop is not appended; a later one is not grafted. */
  lemma EarlyOrLate(j: Judge, segs: seq<Segment>, mems: seq<Mem>, i: nat)
    requires i < |segs|
    ensures var st, out := OnMemories(j, segs, mems, |mems|), Attached(j, segs, mems);
            && i in out.fates
            && (i in st.fates ==> out.fates[i] == st.fates[i] && !out.fates[i].Appended?)
            && (i !in st.fates ==> !out.fates[i].Grafted?)
  {
    var st := OnMemories(j, segs, mems, |mems|);
    if i in st.fates {
      FateAfter(j, segs, mems, |mems|, i);
      FateStays(j, segs, st, 0, |segs|, i);
    } else {
      NotBefore(j, segs, st, i, i);
      LateFate(j, segs, st, i);
    }
  }

  lemma LateApart(j: Judge, segs: seq<Segment>, st: State, a: nat, b: nat)
    requires a < b < |segs| && a !in st.fates && b !in st.fates
    ensures var f := OnSegments(j, segs, st, |segs|).fates; a in f && b in f && f[a].Appended? ==> f[a] != f[b]
  {
    hide Strip, Format, Artifact, Corpus, Carries, OnMemories;
    NotBefore(j, segs, st, a, a);
    NotBefore(j, segs, st, b, b);
    LateFate(j, segs, st, a);
    LateFate(j, segs, st, b);
    MemsGrow(j, segs, st, a + 1, b);
    FateStays(j, segs, st, a + 1, |segs|, a);
  }

  /** Every memory beyond the input is the artifact of one segment. */
  lemma {:induction false} EveryArtifactHasItsSegment(j: Judge, segs: seq<Segment>, st: State, n: nat, g: nat)
    requires n <= |segs| && |st.mems| <= g < |OnSegments(j, segs, st, n).mems|
    ensures var fates := OnSegments(j, segs, st, n).fates;
            exists i :: 0 <= i < n && i in fates && fates[i] == Appended(g)
  {
    var before, after := OnSegments(j, segs, st, n - 1), OnSegments(j, segs, st, n);
    if g < |before.mems| {
      EveryArtifactHasItsSegment(j, segs, st, n - 1, g);
      var i :| 0 <= i < n - 1 && i in before.fates && before.fates[i] == Appended(g);
      FateStays(j, segs, st, n - 1, n, i);
    } else {
      assert n - 1 in after.fates && after.fates[n - 1] == Appended(g);
    }
  }

  lemma {:induction false} OnSegmentsGraftsAlike(j: Judge, segs: seq<Segment>, st: State, n: nat, x: nat)
    requires n <= |segs|
    ensures GraftsAlike(st.fates, OnSegments(j, segs, st, n).fates, x)
  {
    hide Strip, Format, Artifact, Corpus;
    if n > 0 { OnSegmentsGraftsAlike(j, segs, st, n - 1, x); }
  }

  /** No input memory is dropped or moved, and each keeps all its other keys. One without raw
      content carries the segment whose fate names it, or is untouched when no fate does. */
  lemma EveryMemoryIsKept(j: Judge, segs: seq<Segment>, mems: seq<Mem>, k: nat)
    requires k < |mems|
    ensures var out := Attached(j, segs, mems);
            && k < |out.mems|
            && MemoryOk(j, segs, out.fates, mems[k], k, out.mems[k])
            && out.mems[k].rest == mems[k].rest
  {
    hide Strip, Format, OnMemories, OnSegments, GraftsAlike;
    var st := OnMemories(j, segs, mems, |mems|);
    MemoryAfter(j, segs, mems, |mems|, k);
    FateZero(j, segs, st);
    MemsGrow(j, segs, st, 0, |segs|);
    OnSegmentsGraftsAlike(j, segs, st, |segs|, k);
    MemoryStaysOk(j, segs, st.fates, Attached(j, segs, mems).fates, mems[k], k, st.mems[k]);
  }

  // ---------- what is written on a memory ----------

  /** A memory that came with raw content keeps it, its kind if it had one and its other keys;
      its text starts with the old one and holds the raw content. */
  lemma FormattedKeeps(m: Mem)
    ensures var r := Formatted(m);
            && r.raw == m.raw && r.rest == m.rest && r.kind == Some(if m.kind.Some? then m.kind.value else "technical")
            && r.text.Some? && Strip(Or(m.text)) <= r.text.value && Contains(r.text.value, Strip(Or(m.raw)))
  {
    hide Strip, Format;
    StripTrims(Or(m.text));
    StripTrimmed(Strip(Or(m.text)));
    StripTrims(Or(m.raw));
    StripTrimmed(Strip(Or(m.raw)));
    FormatContains(Strip(Or(m.text)), Strip(Or(m.raw)));
  }

  /** A memory that a segment is grafted on keeps its other keys, and the text too unless it is
      vague or empty; the segment becomes its raw content and stands in its text. */
  lemma GraftKeeps(j: Judge, m: Mem, s: Segment)
    ensures var r, text := Graft(j, m, s), Strip(Or(m.text));
            && r.raw == Some(s.content) && r.rest == m.rest && r.kind == Some("technical")
            && r.text.Some? && Contains(r.text.value, Strip(s.content))
            && (text != "" && !j.vague(text) ==> text <= r.text.value)
            && (j.vague(text) && j.replace(text) != "" ==> Strip(j.replace(text)) <= r.text.value)
            && ((if j.vague(text) then j.replace(text) else text) == "" ==> Strip(j.standIn(s.kind)) <= r.text.value)
  {
    hide Strip, Format;
    var text := Strip(Or(m.text));
    StripTrims(Or(m.text));
    StripTrimmed(text);
    FormatContains(text, s.content);
    FormatContains(j.replace(text), s.content);
    FormatContains(j.standIn(s.kind), s.content);
  }

  /** A segment that no memory takes becomes one of its own, numbered by its position. */
  lemma ArtifactIs(j: Judge, s: Segment, id: nat)
    ensures var r := Artifact(j, s, id);
            && r.raw == Some(s.content) && r.kind == Some("technical_artifact")
            && r.text.Some? && Strip(j.caption(s.kind)) <= r.text.value && Contains(r.text.value, Strip(s.content))
            && r.rest.Keys == {"id", "attributed_to"}
            && r.rest["id"] == j.decimal(id) && r.rest["attributed_to"] == "user"
  {
    hide Strip, Format;
    FormatContains(j.caption(s.kind), s.content);
  }

  // ---------- segments are attached where they can be ----------

  lemma {:induction false} AttachToFirst(j: Judge, segs: seq<Segment>, fates: Fates, text: string, from: nat, i: nat)
    requires from <= i < |segs| && i !in fates && (j.vague(text) || j.related(text, segs[i].content))
    ensures AttachTo(j, segs, fates, text, from).Some? && AttachTo(j, segs, fates, text, from).value <= i
    decreases i - from
  {
    if from < i { AttachToFirst(j, segs, fates, text, from + 1, i); }
  }

  lemma {:induction false} FateKept(j: Judge, segs: seq<Segment>, mems: seq<Mem>, k: nat, n: nat, i: nat)
    requires k <= n <= |mems| && i in OnMemories(j, segs, mems, k).fates
    ensures i in OnMemories(j, segs, mems, n).fates
    ensures OnMemories(j, segs, mems, n).fates[i] == OnMemories(j, segs, mems, k).fates[i]
  {
    hide Strip, Format, OnMemory;
    if k < n {
      FateKept(j, segs, mems, k, n - 1, i);
      OnMemoryOthers(j, segs, OnMemories(j, segs, mems, n - 1), n - 1, i);
    }
  }

  lemma OnMemoryIsGreedy(j: Judge, segs: seq<Segment>, st: State, k: nat, i: nat)
    requires k < |st.mems| && i < |segs| && i !in OnMemory(j, segs, st, k).fates
    ensures !j.preserved(segs[i], Judged(st.mems[k]))
    ensures var f := OnMemory(j, segs, st, k).fates;
            Strip(Or(st.mems[k].raw)) == "" && Fits(j, st.mems[k], segs[i]) ==>
              exists x :: 0 <= x < i && x in f && f[x] == Grafted(k)
  {
    hide Strip, Format, Graft, Formatted;
    var m, f := st.mems[k], OnMemory(j, segs, st, k).fates;
    var fates := Mark(j, segs, st.fates, Judged(m));
    assert i !in fates;
    if Strip(Or(m.raw)) == "" && Fits(j, m, segs[i]) {
      AttachToFirst(j, segs, fates, Strip(Or(m.text)), 0, i);
      var x := AttachTo(j, segs, fates, Strip(Or(m.text)), 0).value;
      assert f[x] == Grafted(k);
    }
  }

  /** A segment that is appended, or grafted on a later memory, was not preserved by memory
      `k`; and if it fits memory `k`, which has no raw content of its own, then an earlier
      segment was grafted there. */
  lemma GraftingIsGreedy(j: Judge, segs: seq<Segment>, mems: seq<Mem>, k: nat, i: nat)
    requires k < |mems| && i in Attached(j, segs, mems).fates && i < |segs|
    requires var f := Attached(j, segs, mems).fates[i]; f.Appended? || (f.Grafted? && f.mem > k)
    ensures !j.preserved(segs[i], Judged(mems[k]))
    ensures var f := Attached(j, segs, mems).fates;
            Strip(Or(mems[k].raw)) == "" && Fits(j, mems[k], segs[i]) ==>
              exists x :: 0 <= x < i && x in f && f[x] == Grafted(k)
  {
    hide Strip, Format, Graft, Formatted, Judged, Fits, Carries, OnMemory, OnSegment;
    var st, next := OnMemories(j, segs, mems, k), OnMemories(j, segs, mems, k + 1);
    var all := OnMemories(j, segs, mems, |mems|);
    NotYet(j, segs, mems, k, k);
    FateZero(j, segs, all);
    if i in next.fates {
      FateAfter(j, segs, mems, k + 1, i);
      FateKept(j, segs, mems, k + 1, |mems|, i);
      FateStays(j, segs, all, 0, |segs|, i);
    } else {
      OnMemoryIsGreedy(j, segs, st, k, i);
      if Strip(Or(mems[k].raw)) == "" && Fits(j, mems[k], segs[i]) {
        var x :| 0 <= x < i && x in next.fates && next.fates[x] == Grafted(k);
        FateKept(j, segs, mems, k + 1, |mems|, x);
        FateStays(j, segs, all, 0, |segs|, x);
      }
    }
  }

  // ---------- each segment is attached at most once ----------

  /** Read off the input and the output alone: `content` was attached to the memory at
      position `k`, by grafting or by appending. */
  ghost predicate AttachedAt(mems: seq<Mem>, out: seq<Mem>, k: nat, content: string)
    requires k < |out|
  {
    && (k < |mems| ==> Strip(Or(mems[k].raw)) == "" && out[k] != mems[k])
    && out[k].raw == Some(content)
  }

  ghost predicate DistinctContents(segs: seq<Segment>) {
    forall a, b :: 0 <= a < b < |segs| ==> segs[a].content != segs[b].content
  }

  /** Whatever was attached is a segment, and its fate names the memory. */
  lemma AttachmentHasItsFate(j: Judge, segs: seq<Segment>, mems: seq<Mem>, k: nat, content: string) returns (i: nat)
    requires k < |Attached(j, segs, mems).mems| && AttachedAt(mems, Attached(j, segs, mems).mems, k, content)
    ensures var f := Attached(j, segs, mems).fates;
            i in f && i < |segs| && segs[i].content == content && !f[i].Preserved? && f[i].mem == k
  {
    hide Strip, Format, Attached, OnMemories, OnSegments, Fits;
    var out := Attached(j, segs, mems);
    if k < |mems| {
      EveryMemoryIsKept(j, segs, mems, k);
      i :| i in out.fates && i < |segs| && out.fates[i] == Grafted(k) && out.mems[k] == Graft(j, mems[k], segs[i]);
      assert Graft(j, mems[k], segs[i]).raw == Some(segs[i].content);
    } else {
      i := ArtifactSegment(j, segs, mems, k);
      EverySegmentIsAccountedFor(j, segs, mems, i);
      assert out.mems[k] == Artifact(j, segs[i], k);
    }
  }

  lemma ArtifactSegment(j: Judge, segs: seq<Segment>, mems: seq<Mem>, k: nat) returns (i: nat)
    requires |mems| <= k < |Attached(j, segs, mems).mems|
    ensures i < |segs| && i in Attached(j, segs, mems).fates && Attached(j, segs, mems).fates[i] == Appended(k)
  {
    hide Strip, Format, OnMemories, OnSegments;
    var st := OnMemories(j, segs, mems, |mems|);
    EveryArtifactHasItsSegment(j, segs, st, |segs|, k);
    i :| 0 <= i < |segs| && i in Attached(j, segs, mems).fates && Attached(j, segs, mems).fates[i] == Appended(k);
  }

  /** Each segment is attached at most once. */
  lemma AttachedAtMostOnce(j: Judge, segs: seq<Segment>, mems: seq<Mem>, a: nat, b: nat, content: string)
    requires DistinctContents(segs) && a < b < |Attached(j, segs, mems).mems|
    ensures var out := Attached(j, segs, mems).mems;
            !(AttachedAt(mems, out, a, content) && AttachedAt(mems, out, b, content))
  {
    hide Strip, Attached, AttachedAt;
    var out := Attached(j, segs, mems).mems;
    if AttachedAt(mems, out, a, content) && AttachedAt(mems, out, b, content) {
      var i := AttachmentHasItsFate(j, segs, mems, a, content);
      var i' := AttachmentHasItsFate(j, segs, mems, b, content);
    }
  }

  /** In particular each segment of the source: none contains another, so all differ. */
  lemma SourceAttachedAtMostOnce(j: Judge, mems: seq<Mem>, source: string, find: string -> seq<Segment>,
        technical: string -> bool)
    ensures var out := Attached(j, Segments.Extracted(source, find, technical), mems).mems;
            forall a, b, content :: 0 <= a < b < |out| && AttachedAt(mems, out, a, content) ==>
              !AttachedAt(mems, out, b, content)
  {
    hide Attached, AttachedAt, Segments.Extracted;
    var segs := Segments.Extracted(source, find, technical);
    Segments.ExtractedIsAntichain(source, find, technical);
    forall x, y | 0 <= x < y < |segs| ensures segs[x].content != segs[y].content {
      ContainsSelf(segs[x].content);
      assert !Contains(segs[x].content, segs[y].content);
    }
    var out := Attached(j, segs, mems).mems;
    forall a, b, content | 0 <= a < b < |out| && AttachedAt(mems, out, a, content)
      ensures !AttachedAt(mems, out, b, content)
    {
      AttachedAtMostOnce(j, segs, mems, a, b, content);
    }
  }

  // ---------- the loops ----------

  /** Marks the unused segments that `text` preserves. */
  method MarkPreserved(j: Judge, segs: seq<Segment>, used: set<nat>, ghost fates: Fates, text: string)
    returns (r: set<nat>)
    requires used == fates.Keys
    ensures r == Mark(j, segs, fates, text).Keys
  {
    r := used;
    for i := 0 to |segs|
      invariant r == used + set x: nat | x < i && x !in used && j.preserved(segs[x], text)
    {
      if i !in r && j.preserved(segs[i], text) { r := r + {i}; }
    }
  }

  method FindAttachment(j: Judge, segs: seq<Segment>, used: set<nat>, ghost fates: Fates, text: string)
    returns (r: Option<nat>)
    requires used == fates.Keys
    ensures r == AttachTo(j, segs, fates, text, 0)
  {
    for i := 0 to |segs|
      invariant AttachTo(j, segs, fates, text, 0) == AttachTo(j, segs, fates, text, i)
    {
      if i !in used && (j.vague(text) || j.related(text, segs[i].content)) { return Some(i); }
    }
    r := None;
  }

  /** The body of the first loop. */
  method AttachToMemory(j: Judge, segs: seq<Segment>, mems: seq<Mem>, used: set<nat>, k: nat, ghost fates: Fates)
    returns (r: seq<Mem>, used': set<nat>)
    requires k < |mems| && used == fates.Keys
    ensures var next := OnMemory(j, segs, State(mems, fates), k); r == next.mems && used' == next.fates.Keys
  {
    hide Strip, Format, Graft, Formatted, Mark, AttachTo;
    var m := mems[k];
    var raw, text := Strip(Or(m.raw)), Strip(Or(m.text));
    if raw != "" {
      used' := MarkPreserved(j, segs, used, fates, text + "\n" + raw);
      r := mems[k := Formatted(m)];
      return;
    }
    used' := MarkPreserved(j, segs, used, fates, text);
    ghost var marked := Mark(j, segs, fates, text);
    var at := FindAttachment(j, segs, used', marked, text);
    if at.None? { return mems, used'; }
    r := mems[k := Graft(j, m, segs[at.value])];
    used' := used' + {at.value};
  }

  method AttachAll(j: Judge, segs: seq<Segment>, mems: seq<Mem>) returns (r: seq<Mem>)
    ensures r == Attached(j, segs, mems).mems
  {
    hide Strip, Format, Corpus, OnMemory;
    r := mems;
    var used: set<nat> := {};
    for k := 0 to |mems|
      invariant r == OnMemories(j, segs, mems, k).mems && used == OnMemories(j, segs, mems, k).fates.Keys
    {
      ghost var st := OnMemories(j, segs, mems, k);
      assert st == State(r, st.fates);
      r, used := AttachToMemory(j, segs, r, used, k, st.fates);
    }
    ghost var first := OnMemories(j, segs, mems, |mems|);
    r := AppendLeft(j, segs, r, used, first);
  }

  /** The second loop. */
  method AppendLeft(j: Judge, segs: seq<Segment>, mems: seq<Mem>, used: set<nat>, ghost st: State) returns (r: seq<Mem>)
    requires st.mems == mems && st.fates.Keys == used
    ensures r == OnSegments(j, segs, st, |segs|).mems
  {
    hide Strip, Format, Corpus, Artifact;
    r := mems;
    var left := used;
    var corpus := Corpus(r);
    for i := 0 to |segs|
      invariant r == OnSegments(j, segs, st, i).mems && left == OnSegments(j, segs, st, i).fates.Keys
      invariant corpus == Corpus(r)
    {
      if i in left { continue; }
      if !j.preserved(segs[i], corpus) {
        r := r + [Artifact(j, segs[i], |r|)];
        corpus := Corpus(r);
      }
      left := left + {i};
    }
  }

  // ---------- the whole of enrich_extracted_memories ----------

  function RepairField(o: Option<string>, paths: seq<string>): Option<string> {
    if o.Some? then Some(EscapeRepair.Repair(o.value, paths)) else None
  }

  function Repaired(m: Mem, paths: seq<string>): Mem {
    m.(text := RepairField(m.text, paths), raw := RepairField(m.raw, paths))
  }

  function AllRepaired(mems: seq<Mem>, paths: seq<string>): (r: seq<Mem>)
    ensures |r| == |mems| && forall k :: 0 <= k < |r| ==> r[k] == Repaired(mems[k], paths)
  {
    seq(|mems|, k requires 0 <= k < |mems| => Repaired(mems[k], paths))
  }

  ghost function Enriched(j: Judge, mems: seq<Mem>, source: string, paths: string -> seq<string>,
                          find: string -> seq<Segment>, technical: string -> bool): seq<Mem>
  {
    var repaired := AllRepaired(mems, paths(source));
    if source == "" || !technical(source) then repaired else
    var segs := Segments.Extracted(source, find, technical);
    if segs == [] then repaired else Attached(j, segs, repaired).mems
  }

  /** Memory `m` holds `content` verbatim in its text and as its raw content. */
  ghost predicate HoldsVerbatim(m: Mem, content: string) {
    content != "" && m.raw == Some(content) && m.text.Some? && Contains(m.text.value, content)
  }

  /** A segment of the source that is grafted or appended stands in its memory verbatim. */
  lemma SegmentStandsVerbatim(j: Judge, mems: seq<Mem>, source: string, find: string -> seq<Segment>,
                              technical: string -> bool, i: nat)
    requires i < |Segments.Extracted(source, find, technical)|
    ensures var segs := Segments.Extracted(source, find, technical);
            var out := Attached(j, segs, mems);
            && i in out.fates
            && (!out.fates[i].Preserved? ==>
                  out.fates[i].mem < |out.mems| && HoldsVerbatim(out.mems[out.fates[i].mem], segs[i].content))
  {
    hide Strip, Format, Attached, Fits, Artifact, PreservedByInput, Corpus, Segments.Extracted;
    var segs := Segments.Extracted(source, find, technical);
    Segments.ExtractedAreTrimmed(source, find, technical, segs[i]);
    StripTrimmed(segs[i].content);
    EverySegmentIsAccountedFor(j, segs, mems, i);
  }

  /** Without a technical source every memory stays in its place with its kind and other keys;
      its text and raw content come back free of damage, and unchanged if they had none. */
  lemma OnlyRepaired(j: Judge, mems: seq<Mem>, source: string, paths: string -> seq<string>,
                     find: string -> seq<Segment>, technical: string -> bool, k: nat)
    requires k < |mems| && (source == "" || !technical(source))
    ensures var out := Enriched(j, mems, source, paths, find, technical);
            && |out| == |mems| && out[k].kind == mems[k].kind && out[k].rest == mems[k].rest
            && !EscapeRepair.HasControl(Or(out[k].text)) && !EscapeRepair.HasControl(Or(out[k].raw))
            && (!EscapeRepair.HasControl(Or(mems[k].text)) ==> out[k].text == mems[k].text)
            && (!EscapeRepair.HasControl(Or(mems[k].raw)) ==> out[k].raw == mems[k].raw)
  {
    EscapeRepair.RepairIsCleanAndStable(Or(mems[k].text), paths(source), []);
    EscapeRepair.RepairIsCleanAndStable(Or(mems[k].raw), paths(source), []);
  }

  /** What enrichment is for: with a technical source in which no two different matches share
      their first 200 characters, every match of at least 15 characters stands in a segment that
      is judged preserved, or verbatim in the text of some returned memory. */
  lemma TechnicalTextSurvives(j: Judge, mems: seq<Mem>, source: string, paths: string -> seq<string>,
                              find: string -> seq<Segment>, technical: string -> bool, m: Segment)
    requires source != "" && technical(source) && Segments.DistinctKeys(find(source))
    requires m in find(source) && |Strip(m.content)| >= 15
    ensures var out := Enriched(j, mems, source, paths, find, technical);
            exists s :: s in Segments.Extracted(source, find, technical) && Contains(s.content, Strip(m.content))
              && (|| PreservedByInput(j, s, AllRepaired(mems, paths(source)))
                  || PreservedByOutput(j, s, |mems|, out)
                  || exists k :: 0 <= k < |out| && HoldsVerbatim(out[k], s.content)
                                 && Contains(out[k].text.value, Strip(m.content)))
  {
    hide Strip, Format, Attached, Fits, Artifact, PreservedByInput, PreservedByOutput, Corpus, AllRepaired,
      Segments.Extracted, Segments.DistinctKeys, Contains;
    var repaired, segs := AllRepaired(mems, paths(source)), Segments.Extracted(source, find, technical);
    Segments.ExtractedCovers(source, find, technical, m);
    var i :| 0 <= i < |segs| && Contains(segs[i].content, Strip(m.content));
    var out := Attached(j, segs, repaired);
    SegmentStandsVerbatim(j, repaired, source, find, technical, i);
    EverySegmentIsAccountedFor(j, segs, repaired, i);
    if !out.fates[i].Preserved? {
      var k := out.fates[i].mem;
      ContainsTrans(out.mems[k].text.value, segs[i].content, Strip(m.content));
    }
    assert segs[i] in segs;
  }

  method RepairAll(mems: seq<Mem>, paths: seq<string>) returns (r: seq<Mem>)
    ensures r == AllRepaired(mems, paths)
  {
    r := mems;
    for k := 0 to |mems|
      invariant |r| == |mems|
      invariant forall x :: 0 <= x < |r| ==> r[x] == if x < k then Repaired(mems[x], paths) else mems[x]
    {
      var m := r[k];
      if m.text.Some? && EscapeRepair.HasControl(m.text.value) {
        var fixed := EscapeRepair.RepairEscapeDamage(m.text.value, paths);
        m := m.(text := Some(fixed));
      }
      if m.raw.Some? && EscapeRepair.HasControl(m.raw.value) {
        var fixed := EscapeRepair.RepairEscapeDamage(m.raw.value, paths);
        m := m.(raw := Some(fixed));
      }
      r := r[k := m];
    }
  }

  /** `enrich_extracted_memories` */
  method EnrichExtractedMemories(j: Judge, extracted: seq<Mem>, source: string, paths: string -> seq<string>,
      find: string -> seq<Segment>, technical: string -> bool) returns (memories: seq<Mem>)
    ensures memories == Enriched(j, extracted, source, paths, find, technical)
  {
    hide Strip, Format, Attached, AllRepaired, Segments.Extracted;
    memories := RepairAll(extracted, paths(source));
    if source == "" || !technical(source) { return; }
    var segs := Segments.ExtractTechnicalSegments(source, find, technical);
    if segs == [] { return; }
    memories := AttachAll(j, segs, memories);
  }
}
