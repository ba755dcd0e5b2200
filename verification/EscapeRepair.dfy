/** The repair of Windows paths that JSON unescaping has damaged
    (mem0/memory/technical_content.py). The paths found in the source text are given. */
module EscapeRepair {
  import opened Wrappers
  import opened Text

  const BS := '\\'

  /** `[\x00-\x09\x0b\x0c\x0e-\x1f]` */
  predicate IsControl(c: char) {
    var n := c as int;
    n <= 9 || n == 11 || n == 12 || 14 <= n <= 31
  }

  /** The C0 controls, but for the two that separate lines. */
  lemma ControlIs(c: char)
    ensures IsControl(c) <==> (c as int) < 32 && c != '\n' && c != '\r'
  {
  }

  predicate HasControl(text: string) { exists i :: 0 <= i < |text| && IsControl(text[i]) }

  // ---------- one damaged span ----------

  predicate IsSeparator(c: char) { c == BS || c == '/' }

  function RunLength(p: string): (n: nat)
    ensures n <= |p| && (p != "" && !IsSeparator(p[0]) ==> n > 0)
  {
    if p == "" || IsSeparator(p[0]) then 0 else 1 + RunLength(p[1..])
  }

  /** The non-empty components of a path. */
  function Components(p: string): (cs: seq<string>)
    ensures forall c :: c in cs ==> c != ""
    decreases |p|
  {
    if p == "" then []
    else if IsSeparator(p[0]) then Components(p[1..])
    else var n := RunLength(p); [p[..n]] + Components(p[n..])
  }

  /** `start` moved left over backslashes. */
  function BackUp(text: string, i: nat): (start: nat)
    requires i <= |text|
    ensures start <= i && forall k :: start <= k < i ==> text[k] == BS
    ensures start > 0 ==> text[start - 1] != BS
  {
    if i > 0 && text[i - 1] == BS then BackUp(text, i - 1) else i
  }

  /** The first of `,;` and the line break from `i` on, or the end. */
  function Delimiter(text: string, i: nat): (e: nat)
    requires i <= |text|
    ensures i <= e <= |text| && forall k :: i <= k < e ==> text[k] !in {',', ';', '\n'}
    ensures e < |text| ==> text[e] in {',', ';', '\n'}
    decreases |text| - i
  {
    if i == |text| || text[i] in {',', ';', '\n'} then i else Delimiter(text, i + 1)
  }

  datatype Span = Span(start: nat, end: nat)

  /** `_damaged_span` */
  function DamagedSpan(text: string, path: string): (r: Option<Span>)
    ensures r.Some? ==> InDamage(text, r.value)
  {
    var cs := Components(path);
    if cs == [] then None else
    var head, tail := cs[0], cs[|cs| - 1];
    var i := Find(text, head, 0);
    if i.None? then None else
    var start := BackUp(text, i.value);
    var j := Find(text, tail, i.value + |head|);
    var end := if j.Some? then j.value + |tail| else Delimiter(text, i.value);
    if HasControl(text[start..end]) then Some(Span(start, end)) else None
  }

  /** In bounds, and holding at least one control character. */
  ghost predicate InDamage(text: string, s: Span) { s.start <= s.end <= |text| && HasControl(text[s.start..s.end]) }

  /** `_damaged_span`, with its loop. */
  method FindDamagedSpan(text: string, path: string) returns (r: Option<Span>)
    ensures r == DamagedSpan(text, path)
  {
    hide Find, Components, HasControl, Delimiter;
    var cs := Components(path);
    if cs == [] { return None; }
    var head, tail := cs[0], cs[|cs| - 1];
    var i := Find(text, head, 0);
    if i.None? { return None; }
    var start: nat := i.value;
    while start > 0 && text[start - 1] == BS
      invariant start <= i.value && BackUp(text, start) == BackUp(text, i.value)
    {
      start := start - 1;
    }
    var j := Find(text, tail, i.value + |head|);
    var end := if j.Some? then j.value + |tail| else Delimiter(text, i.value);
    r := if HasControl(text[start..end]) then Some(Span(start, end)) else None;
  }

  // ---------- the ends of a path ----------

  ghost predicate Separators(s: string) { forall i :: 0 <= i < |s| ==> IsSeparator(s[i]) }

  ghost predicate Component(s: string) { s != "" && forall i :: 0 <= i < |s| ==> !IsSeparator(s[i]) }

  lemma {:induction false} RunOf(c: string, rest: string)
    requires (forall i :: 0 <= i < |c| ==> !IsSeparator(c[i])) && (rest != "" ==> IsSeparator(rest[0]))
    ensures RunLength(c + rest) == |c|
    decreases |c|
  {
    if c == "" {
      assert c + rest == rest;
    } else {
      assert (c + rest)[1..] == c[1..] + rest;
      RunOf(c[1..], rest);
    }
  }

  lemma {:induction false} NoComponents(s: string)
    requires Separators(s)
    ensures Components(s) == []
    decreases |s|
  {
    if s != "" { NoComponents(s[1..]); }
  }

  lemma {:induction false} FirstComponent(a: string, head: string, rest: string)
    requires Separators(a) && Component(head) && (rest != "" ==> IsSeparator(rest[0]))
    ensures Components(a + head + rest) != [] && Components(a + head + rest)[0] == head
    decreases |a|
  {
    if a == "" {
      assert a + head + rest == head + rest;
      RunOf(head, rest);
      assert (head + rest)[..|head|] == head;
    } else {
      assert (a + head + rest)[1..] == a[1..] + head + rest;
      FirstComponent(a[1..], head, rest);
    }
  }

  lemma {:induction false} RunStops(p: string, k: nat)
    requires k < |p| && IsSeparator(p[k])
    ensures RunLength(p) <= k
    decreases k
  {
    if k > 0 && !IsSeparator(p[0]) { RunStops(p[1..], k - 1); }
  }

  lemma {:induction false} LastComponent(front: string, tail: string, b: string)
    requires (front != "" ==> IsSeparator(front[|front| - 1])) && Component(tail) && Separators(b)
    ensures var cs := Components(front + tail + b); cs != [] && cs[|cs| - 1] == tail
    decreases |front|
  {
    var p := front + tail + b;
    if front == "" {
      assert p == tail + b;
      RunOf(tail, b);
      assert p[..|tail|] == tail && p[|tail|..] == b;
      NoComponents(b);
    } else if IsSeparator(p[0]) {
      assert p[1..] == front[1..] + tail + b;
      LastComponent(front[1..], tail, b);
    } else {
      var n := RunLength(p);
      RunStops(p, |front| - 1);
      assert p[n..] == front[n..] + tail + b;
      LastComponent(front[n..], tail, b);
    }
  }

  /** A path between optional separators: its first component, what joins it to the last, and
      the last. */
  ghost predicate IsPath(path: string, head: string, tail: string) {
    exists a: string, between: string, b: string ::
      && path == a + head + between + tail + b && Separators(a) && Separators(b)
      && Component(head) && Component(tail)
      && between != "" && IsSeparator(between[0]) && IsSeparator(between[|between| - 1])
  }

  lemma PathEnds(path: string, head: string, tail: string)
    requires IsPath(path, head, tail)
    ensures var cs := Components(path); cs != [] && cs[0] == head && cs[|cs| - 1] == tail
  {
    hide Components, Separators, Component, IsSeparator;
    var a: string, between: string, b: string :|
      && path == a + head + between + tail + b && Separators(a) && Separators(b)
      && Component(head) && Component(tail)
      && between != "" && IsSeparator(between[0]) && IsSeparator(between[|between| - 1]);
    Regroup(a, head, between, tail, b);
    FirstComponent(a, head, between + tail + b);
    LastComponent(a + head + between, tail, b);
  }

  lemma Regroup(a: string, b: string, c: string, d: string, e: string)
    ensures a + b + c + d + e == a + b + (c + d + e)
    ensures c != "" ==> (c + d + e)[0] == c[0]
    ensures c != "" ==> (a + b + c)[|a + b + c| - 1] == c[|c| - 1]
  {
  }

  // ---------- damaged paths are found ----------

  /** `s` stands at position `i` of `t` and nowhere before it from `from` on. */
  ghost predicate FirstAt(t: string, s: string, from: nat, i: nat) {
    from <= i && At(t, s, i) && forall k :: from <= k < i ==> !At(t, s, k)
  }

  lemma FindIs(t: string, s: string, from: nat, i: nat)
    requires FirstAt(t, s, from, i)
    ensures Find(t, s, from) == Some(i)
  {
    var r := Find(t, s, from);
    assert r.Some?;
  }

  lemma {:induction false} BackUpOver(pre: string, slashes: string, rest: string, n: nat)
    requires n <= |slashes| && (forall i :: 0 <= i < |slashes| ==> slashes[i] == BS)
    requires pre != "" ==> pre[|pre| - 1] != BS
    ensures BackUp(pre + slashes + rest, |pre| + n) == |pre|
    decreases n
  {
    var text := pre + slashes + rest;
    if n > 0 {
      assert text[|pre| + n - 1] == slashes[n - 1];
      BackUpOver(pre, slashes, rest, n - 1);
    } else if pre != "" {
      assert text[|pre| - 1] == pre[|pre| - 1];
    }
  }

  lemma ControlIn(a: string, mid: string, b: string)
    requires HasControl(mid)
    ensures HasControl(a + mid + b)
  {
    var i :| 0 <= i < |mid| && IsControl(mid[i]);
    assert (a + mid + b)[|a| + i] == mid[i];
  }

  /** The damaged span of a path whose two ends survived: from the backslashes before the first
      occurrence of its head to the end of the next occurrence of its tail. */
  lemma DamageIsFound(pre: string, slashes: string, head: string, mid: string, tail: string, post: string, path: string)
    requires IsPath(path, head, tail) && HasControl(mid)
    requires (forall i :: 0 <= i < |slashes| ==> slashes[i] == BS) && (pre != "" ==> pre[|pre| - 1] != BS)
    requires var text := pre + slashes + head + mid + tail + post;
             && FirstAt(text, head, 0, |pre| + |slashes|)
             && FirstAt(text, tail, |pre| + |slashes| + |head|, |pre| + |slashes| + |head| + |mid|)
    ensures var text := pre + slashes + head + mid + tail + post;
            DamagedSpan(text, path) == Some(Span(|pre|, |text| - |post|))
  {
    hide Components, Find, BackUp, HasControl, IsPath, FirstAt, Delimiter;
    var text, i := pre + slashes + head + mid + tail + post, |pre| + |slashes|;
    PathEnds(path, head, tail);
    FindIs(text, head, 0, i);
    FindIs(text, tail, i + |head|, i + |head| + |mid|);
    BackUpOver(pre, slashes, head + mid + tail + post, |slashes|);
    assert text == pre + slashes + (head + mid + tail + post);
    var end := |text| - |post|;
    assert text[|pre|..end] == (slashes + head) + mid + tail;
    ControlIn(slashes + head, mid, tail);
  }

  /** When the tail is lost, up to the next comma, semicolon or line break. */
  lemma LostTailIsFound(pre: string, slashes: string, head: string, mid: string, post: string, tail: string,
                        path: string)
    requires IsPath(path, head, tail) && HasControl(mid)
    requires (forall i :: 0 <= i < |slashes| ==> slashes[i] == BS) && (pre != "" ==> pre[|pre| - 1] != BS)
    requires (forall i :: 0 <= i < |head + mid| ==> (head + mid)[i] !in {',', ';', '\n'})
    requires post != "" ==> post[0] in {',', ';', '\n'}
    requires var text := pre + slashes + head + mid + post;
             && FirstAt(text, head, 0, |pre| + |slashes|)
             && forall k :: |pre| + |slashes| + |head| <= k ==> !At(text, tail, k)
    ensures var text := pre + slashes + head + mid + post;
            DamagedSpan(text, path) == Some(Span(|pre|, |text| - |post|))
  {
    hide Components, Find, BackUp, HasControl, IsPath, At, Delimiter;
    var text, i := pre + slashes + head + mid + post, |pre| + |slashes|;
    PathEnds(path, head, tail);
    FindIs(text, head, 0, i);
    BackUpOver(pre, slashes, head + mid + post, |slashes|);
    Regroup(pre, slashes, head, mid, post);
    DelimiterIs(pre + slashes, head + mid, post);
    Middle(pre, slashes, head, mid, post);
    ControlIn(slashes + head, mid, "");
  }

  lemma Middle(a: string, b: string, c: string, d: string, e: string)
    ensures var text := a + b + c + d + e;
            text == (a + b) + (c + d) + e && text[|a|..|text| - |e|] == (b + c) + d + ""
  {
  }

  lemma DelimiterIs(a: string, s: string, post: string)
    requires forall i :: 0 <= i < |s| ==> s[i] !in {',', ';', '\n'}
    requires post != "" ==> post[0] in {',', ';', '\n'}
    ensures Delimiter(a + s + post, |a|) == |a| + |s|
  {
    var text := a + s + post;
    var e := Delimiter(text, |a|);
    assert forall k :: |a| <= k < |a| + |s| ==> text[k] == s[k - |a|];
    assert post != "" ==> text[|a| + |s|] == post[0];
  }

  // ---------- the repair loop ----------

  function Splice(text: string, s: Span, path: string): string
    requires s.start <= s.end <= |text|
  {
    text[..s.start] + path + text[s.end..]
  }

  datatype Edit = Edit(span: Span, path: string)

  /** The replacements that the loop makes, in order. */
  function Edits(text: string, paths: seq<string>): seq<Edit>
    decreases |paths|
  {
    if paths == [] then [] else
    var span := DamagedSpan(text, paths[0]);
    if span.None? then Edits(text, paths[1..]) else
    var next := Splice(text, span.value, paths[0]);
    [Edit(span.value, paths[0])] + if HasControl(next) then Edits(next, paths[1..]) else []
  }

  /** Each edit replaces a damaged span of the text it meets. */
  ghost predicate Valid(text: string, edits: seq<Edit>)
    decreases |edits|
  {
    edits != [] ==>
      InDamage(text, edits[0].span) && Valid(Splice(text, edits[0].span, edits[0].path), edits[1..])
  }

  function ApplyEdits(text: string, edits: seq<Edit>): string
    requires Valid(text, edits)
    decreases |edits|
  {
    if edits == [] then text else ApplyEdits(Splice(text, edits[0].span, edits[0].path), edits[1..])
  }

  /** Every edit stays in bounds and replaces only damage, by a path of the source. */
  lemma {:induction false} EditsAreValid(text: string, paths: seq<string>)
    ensures Valid(text, Edits(text, paths))
    ensures forall k :: 0 <= k < |Edits(text, paths)| ==> Edits(text, paths)[k].path in paths
    decreases |paths|
  {
    if paths != [] {
      var span := DamagedSpan(text, paths[0]);
      if span.None? {
        EditsAreValid(text, paths[1..]);
      } else {
        var next := Splice(text, span.value, paths[0]);
        EditsAreValid(next, paths[1..]);
        var es := Edits(text, paths);
        assert es[1..] == if HasControl(next) then Edits(next, paths[1..]) else [];
        assert Valid(next, es[1..]);
      }
    }
  }

  // ---------- what is left ----------

  /** A control character between two characters that are not white space. */
  predicate Glued(text: string, pos: nat)
    requires pos < |text|
  {
    pos > 0 && pos + 1 < |text| && !IsSpace(text[pos - 1]) && !IsSpace(text[pos + 1])
  }

  function Piece(text: string, pos: nat): string
    requires pos < |text|
  {
    if !IsControl(text[pos]) then [text[pos]] else if Glued(text, pos) then [BS] else ""
  }

  function CollapseTo(text: string, n: nat): string
    requires n <= |text|
  {
    if n == 0 then "" else CollapseTo(text, n - 1) + Piece(text, n - 1)
  }

  /** `_collapse_leftover_controls` */
  function Collapse(text: string): string { CollapseTo(text, |text|) }

  lemma {:induction false} CollapsePrefix(text: string, n: nat, m: nat)
    requires n <= m <= |text|
    ensures CollapseTo(text, n) <= CollapseTo(text, m)
  {
    if n < m { CollapsePrefix(text, n, m - 1); }
  }

  /** Every character that is no control character survives, at a position that grows
      with its own; a control character between glued characters leaves a backslash. */
  lemma CollapseKeeps(text: string, i: nat)
    requires i < |text|
    ensures var at := |CollapseTo(text, i)|;
            && (!IsControl(text[i]) ==> at < |Collapse(text)| && Collapse(text)[at] == text[i])
            && (IsControl(text[i]) && Glued(text, i) ==> at < |Collapse(text)| && Collapse(text)[at] == BS)
            && |CollapseTo(text, i + 1)| == if IsControl(text[i]) && !Glued(text, i) then at else at + 1
  {
    CollapsePrefix(text, i + 1, |text|);
  }

  /** And nothing else is in the result. */
  lemma {:induction false} CollapseOnly(text: string, n: nat, k: nat)
    requires n <= |text| && k < |CollapseTo(text, n)|
    ensures exists i :: 0 <= i < n && |CollapseTo(text, i)| == k && Piece(text, i) == [CollapseTo(text, n)[k]]
  {
    if k < |CollapseTo(text, n - 1)| {
      CollapseOnly(text, n - 1, k);
    } else {
      assert |CollapseTo(text, n - 1)| == k && Piece(text, n - 1) == [CollapseTo(text, n)[k]];
    }
  }

  lemma CollapseIsClean(text: string)
    ensures !HasControl(Collapse(text))
  {
    forall k | 0 <= k < |Collapse(text)| ensures !IsControl(Collapse(text)[k]) {
      CollapseOnly(text, |text|, k);
      var i :| 0 <= i < |text| && Piece(text, i) == [Collapse(text)[k]];
      assert Piece(text, i)[0] == Collapse(text)[k];
    }
  }

  /** A stretch without control characters survives in one piece. */
  lemma {:induction false} CleanStretchSurvives(a: string, p: string, b: string, n: nat)
    requires n <= |p| && !HasControl(p)
    ensures CollapseTo(a + p + b, |a| + n) == CollapseTo(a + p + b, |a|) + p[..n]
  {
    if n > 0 {
      var text := a + p + b;
      CleanStretchSurvives(a, p, b, n - 1);
      assert text[|a| + n - 1] == p[n - 1];
      assert p[..n] == p[..n - 1] + [p[n - 1]];
    }
  }

  lemma CleanStretchKept(a: string, p: string, b: string)
    requires !HasControl(p)
    ensures Contains(Collapse(a + p + b), p)
  {
    var text := a + p + b;
    CleanStretchSurvives(a, p, b, |p|);
    assert p[..|p|] == p;
    CollapsePrefix(text, |a| + |p|, |text|);
    var before := CollapseTo(text, |a|);
    var rest := Collapse(text)[|before| + |p|..];
    assert Collapse(text) == before + p + rest;
    ContainsMiddle(before, p, rest);
  }

  lemma CleanPartKept(t: string, p: string)
    requires Contains(t, p) && !HasControl(p)
    ensures Contains(Collapse(t), p)
  {
    var i :| 0 <= i <= |t| && At(t, p, i);
    assert t == t[..i] + p + t[i + |p|..];
    CleanStretchKept(t[..i], p, t[i + |p|..]);
  }

  // ---------- the whole repair ----------

  function Repair(text: string, paths: seq<string>): string {
    if !HasControl(text) then text else
    EditsAreValid(text, paths);
    Collapse(ApplyEdits(text, Edits(text, paths)))
  }

  lemma {:induction false} ApplyLast(text: string, edits: seq<Edit>)
    requires Valid(text, edits) && edits != []
    ensures Contains(ApplyEdits(text, edits), edits[|edits| - 1].path)
    decreases |edits|
  {
    var next := Splice(text, edits[0].span, edits[0].path);
    if |edits| == 1 {
      assert ApplyEdits(next, edits[1..]) == next;
      ContainsMiddle(text[..edits[0].span.start], edits[0].path, text[edits[0].span.end..]);
    } else {
      ApplyLast(next, edits[1..]);
    }
  }

  /** The result holds no control character, undamaged text is untouched, and a second
      repair (against any source) changes nothing. */
  lemma RepairIsCleanAndStable(text: string, paths: seq<string>, others: seq<string>)
    ensures !HasControl(Repair(text, paths))
    ensures !HasControl(text) <==> Repair(text, paths) == text
    ensures Repair(Repair(text, paths), others) == Repair(text, paths)
  {
    if HasControl(text) {
      EditsAreValid(text, paths);
      CollapseIsClean(ApplyEdits(text, Edits(text, paths)));
    }
  }

  /** The path grafted last stands in the result verbatim. */
  lemma GraftedPathSurvives(text: string, paths: seq<string>)
    requires HasControl(text)
    ensures var es := Edits(text, paths);
            es != [] && !HasControl(es[|es| - 1].path) ==> Contains(Repair(text, paths), es[|es| - 1].path)
  {
    var es := Edits(text, paths);
    EditsAreValid(text, paths);
    if es != [] && !HasControl(es[|es| - 1].path) {
      ApplyLast(text, es);
      CleanPartKept(ApplyEdits(text, es), es[|es| - 1].path);
    }
  }

  lemma {:induction false} SkipsUnfound(text: string, paths: seq<string>, n: nat)
    requires n <= |paths| && forall i :: 0 <= i < n ==> DamagedSpan(text, paths[i]).None?
    ensures Edits(text, paths) == Edits(text, paths[n..])
    decreases n
  {
    hide DamagedSpan;
    if n > 0 {
      assert paths[1..][n - 1..] == paths[n..];
      SkipsUnfound(text, paths[1..], n - 1);
    } else {
      assert paths[0..] == paths;
    }
  }

  /** The first path of the source that is found damaged is put back, and if that was all the
      damage the text comes back with just that path in place of the damaged one. */
  lemma PathIsRestored(text: string, paths: seq<string>, n: nat, span: Span)
    requires n < |paths| && forall i :: 0 <= i < n ==> DamagedSpan(text, paths[i]).None?
    requires DamagedSpan(text, paths[n]) == Some(span)
    requires span.start <= span.end <= |text|
             && !HasControl(text[..span.start]) && !HasControl(paths[n]) && !HasControl(text[span.end..])
    ensures Repair(text, paths) == text[..span.start] + paths[n] + text[span.end..]
  {
    hide DamagedSpan, HasControl, Collapse;
    var next := Splice(text, span, paths[n]);
    SkipsUnfound(text, paths, n);
    CleanParts(text[..span.start], paths[n], text[span.end..]);
    CleanIsKept(next);
    DamageInside(text, span);
    assert paths[n..][0] == paths[n];
    EditsAreValid(text, paths);
    assert Edits(text, paths) == [Edit(span, paths[n])];
    assert ApplyEdits(text, Edits(text, paths)) == ApplyEdits(next, Edits(text, paths)[1..]) == next;
  }

  /** A text clean but for one path whose two ends survived comes back with that path whole,
      when no longer path of the source is found damaged in it. */
  lemma DamagedPathComesBack(pre: string, slashes: string, head: string, mid: string, tail: string, post: string,
                             paths: seq<string>, n: nat)
    requires n < |paths| && IsPath(paths[n], head, tail) && HasControl(mid)
    requires (forall i :: 0 <= i < |slashes| ==> slashes[i] == BS) && (pre != "" ==> pre[|pre| - 1] != BS)
    requires var text := pre + slashes + head + mid + tail + post;
             && FirstAt(text, head, 0, |pre| + |slashes|)
             && FirstAt(text, tail, |pre| + |slashes| + |head|, |pre| + |slashes| + |head| + |mid|)
             && forall i :: 0 <= i < n ==> DamagedSpan(text, paths[i]).None?
    requires !HasControl(pre) && !HasControl(paths[n]) && !HasControl(post)
    ensures Repair(pre + slashes + head + mid + tail + post, paths) == pre + paths[n] + post
  {
    hide DamagedSpan, HasControl, IsPath, Repair, FirstAt;
    var text := pre + slashes + head + mid + tail + post;
    DamageIsFound(pre, slashes, head, mid, tail, post, paths[n]);
    OuterParts(pre, slashes + head + mid + tail, post);
    assert text == pre + (slashes + head + mid + tail) + post;
    PathIsRestored(text, paths, n, Span(|pre|, |text| - |post|));
  }

  lemma OuterParts(a: string, m: string, b: string)
    ensures var text := a + m + b; text[..|a|] == a && text[|text| - |b|..] == b
  {
  }

  lemma DamageInside(text: string, span: Span)
    requires InDamage(text, span)
    ensures HasControl(text)
  {
    var i :| 0 <= i < |text[span.start..span.end]| && IsControl(text[span.start..span.end][i]);
    assert IsControl(text[span.start + i]);
  }

  lemma CleanParts(a: string, p: string, b: string)
    requires !HasControl(a) && !HasControl(p) && !HasControl(b)
    ensures !HasControl(a + p + b)
  {
  }

  lemma {:induction false} CleanPrefix(text: string, n: nat)
    requires n <= |text| && !HasControl(text)
    ensures CollapseTo(text, n) == text[..n]
  {
    if n > 0 {
      CleanPrefix(text, n - 1);
      assert text[..n] == text[..n - 1] + [text[n - 1]];
    }
  }

  lemma CleanIsKept(text: string)
    requires !HasControl(text)
    ensures Collapse(text) == text
  {
    CleanPrefix(text, |text|);
    assert text[..|text|] == text;
  }

  method CollapseLeftoverControls(text: string) returns (r: string)
    ensures r == Collapse(text)
  {
    r := "";
    for pos := 0 to |text|
      invariant r == CollapseTo(text, pos)
    {
      if !IsControl(text[pos]) {
        r := r + [text[pos]];
      } else if Glued(text, pos) {
        r := r + [BS];
      }
    }
  }

  /** `repair_escape_damage` */
  method RepairEscapeDamage(text: string, paths: seq<string>) returns (r: string)
    ensures r == Repair(text, paths)
  {
    if !HasControl(text) { return text; }
    EditsAreValid(text, paths);
    var repaired := text;
    for k := 0 to |paths|
      invariant Valid(repaired, Edits(repaired, paths[k..]))
      invariant ApplyEdits(repaired, Edits(repaired, paths[k..])) == ApplyEdits(text, Edits(text, paths))
    {
      assert paths[k..][0] == paths[k] && paths[k..][1..] == paths[k + 1..];
      var span := FindDamagedSpan(repaired, paths[k]);
      if span.None? { continue; }
      EditsAreValid(Splice(repaired, span.value, paths[k]), paths[k + 1..]);
      ghost var es := Edits(repaired, paths[k..]);
      repaired := Splice(repaired, span.value, paths[k]);
      assert es[1..] == if HasControl(repaired) then Edits(repaired, paths[k + 1..]) else [];
      if !HasControl(repaired) {
        assert ApplyEdits(repaired, es[1..]) == repaired;
        r := CollapseLeftoverControls(repaired);
        return;
      }
    }
    r := CollapseLeftoverControls(repaired);
  }
}
