/** `set_env` and `read_env` (install.py): a `.env` file as a map from keys to values. */
module EnvFile {
  import opened Wrappers
  import opened Text

  // ---------- text and lines ----------

  /** The characters at which `str.splitlines` breaks. */
  predicate IsBreak(c: char) {
    var n := c as int;
    10 <= n <= 13 || 28 <= n <= 30 || n == 0x85 || n == 0x2028 || n == 0x2029
  }

  /** No line break inside. */
  predicate OneLine(s: string) { forall i :: 0 <= i < |s| ==> !IsBreak(s[i]) }

  function LineEnd(text: string): (n: nat)
    ensures n <= |text|
    decreases |text|
  {
    if text == "" || IsBreak(text[0]) then 0 else 1 + LineEnd(text[1..])
  }

  /** `str.splitlines` */
  function SplitLines(text: string): seq<string>
    decreases |text|
  {
    if text == "" then [] else
    var n := LineEnd(text);
    if n == |text| then [text] else
    var m := if text[n] == '\r' && n + 1 < |text| && text[n + 1] == '\n' then n + 2 else n + 1;
    [text[..n]] + SplitLines(text[m..])
  }

  /** `"\n".join(lines) + "\n"` */
  function Render(lines: seq<string>): string { Join("\n", lines) + "\n" }

  lemma {:induction false} LineEndAt(line: string, rest: string)
    requires OneLine(line)
    ensures LineEnd(line + "\n" + rest) == |line|
    decreases |line|
  {
    var text := line + "\n" + rest;
    if line != "" {
      assert text[0] == line[0] && text[1..] == line[1..] + "\n" + rest;
      LineEndAt(line[1..], rest);
    }
  }

  lemma FirstLine(line: string, rest: string)
    requires OneLine(line)
    ensures SplitLines(line + "\n" + rest) == [line] + SplitLines(rest)
  {
    var text := line + "\n" + rest;
    LineEndAt(line, rest);
    assert text[|line|] == '\n' && text[..|line|] == line && text[|line| + 1..] == rest;
  }

  ghost predicate AllOneLine(lines: seq<string>) { forall l :: l in lines ==> OneLine(l) }

  /** What is written reads back as the same lines. */
  lemma {:induction false} RenderSplits(lines: seq<string>)
    requires lines != [] && AllOneLine(lines)
    ensures SplitLines(Render(lines)) == lines
    decreases |lines|
  {
    var rest := if |lines| == 1 then "" else Render(lines[1..]);
    assert lines[0] in lines && forall l :: l in lines[1..] ==> l in lines;
    assert Render(lines) == lines[0] + "\n" + rest;
    FirstLine(lines[0], rest);
    assert lines == [lines[0]] + lines[1..];
    if |lines| > 1 { RenderSplits(lines[1..]); }
  }

  lemma {:induction false} LineEndIsFirst(text: string)
    ensures OneLine(text[..LineEnd(text)])
    decreases |text|
  {
    if text != "" && !IsBreak(text[0]) {
      LineEndIsFirst(text[1..]);
      var n := LineEnd(text[1..]);
      assert text[..1 + n] == [text[0]] + text[1..][..n];
    }
  }

  lemma {:induction false} SplitLinesAreLines(text: string)
    ensures AllOneLine(SplitLines(text))
    decreases |text|
  {
    if text != "" {
      var n := LineEnd(text);
      LineEndIsFirst(text);
      if n == |text| {
        assert text[..n] == text;
      } else {
        var m := if text[n] == '\r' && n + 1 < |text| && text[n + 1] == '\n' then n + 2 else n + 1;
        SplitLinesAreLines(text[m..]);
      }
    }
  }

  // ---------- one line ----------

  /** A key without `=`, `#` or white space. */
  predicate Key(k: string) { k != "" && forall i :: 0 <= i < |k| ==> k[i] != '=' && k[i] != '#' && !IsSpace(k[i]) }

  /** How many characters `lstrip("# ")` removes. */
  function LeadingMarks(s: string): (n: nat)
    ensures n <= |s|
    decreases |s|
  {
    if s != "" && (s[0] == '#' || s[0] == ' ') then 1 + LeadingMarks(s[1..]) else 0
  }

  function Entry(k: string, v: string): string { k + "=" + v }

  /** The test by which `set_env` finds the line to replace. */
  predicate SetMatches(line: string, k: string) {
    k + "=" <= RStrip(line[LeadingMarks(line)..]) || k + "=" <= line
  }

  /** The test by which `read_env` finds the line to read. */
  predicate ReadMatches(line: string, k: string) { k + "=" <= Strip(line) }

  function EqualsAt(s: string): nat { if s == "" || s[0] == '=' then 0 else 1 + EqualsAt(s[1..]) }

  lemma {:induction false} KeyEnds(s: string, k: string)
    requires k + "=" <= s && forall i :: 0 <= i < |k| ==> k[i] != '='
    ensures EqualsAt(s) == |k|
    decreases |k|
  {
    if k == "" {
      assert s[0] == (k + "=")[0];
    } else {
      assert s[0] == (k + "=")[0] == k[0];
      assert (k + "=")[1..] == k[1..] + "=" <= s[1..];
      KeyEnds(s[1..], k[1..]);
    }
  }

  lemma KeyIsUnique(s: string, a: string, b: string)
    requires Key(a) && Key(b) && a + "=" <= s && b + "=" <= s
    ensures a == b
  {
    KeyEnds(s, a);
    KeyEnds(s, b);
    assert a == s[..|a|] && b == s[..|b|];
  }

  lemma {:induction false} LeadingIsSpace(s: string, i: nat)
    requires i < |s|
    ensures i < Leading(s) ==> IsSpace(s[i])
    ensures !IsSpace(s[i]) ==> Leading(s) <= i
    decreases |s|
  {
    if i > 0 && IsSpace(s[0]) { LeadingIsSpace(s[1..], i - 1); }
  }

  lemma {:induction false} TrailingPast(s: string, i: nat)
    requires i < |s| && !IsSpace(s[i])
    ensures Trailing(s) > i
    decreases |s|
  {
    if IsSpace(s[|s| - 1]) { TrailingPast(s[..|s| - 1], i); }
  }

  lemma {:induction false} MarksAreMarks(s: string, i: nat)
    requires i < |s|
    ensures i < LeadingMarks(s) ==> s[i] == '#' || s[i] == ' '
    ensures s[i] != '#' && s[i] != ' ' ==> LeadingMarks(s) <= i
    decreases |s|
  {
    if i > 0 && (s[0] == '#' || s[0] == ' ') { MarksAreMarks(s[1..], i - 1); }
  }

  lemma KeyPrefix(s: string, k: string)
    requires Key(k) && k + "=" <= s
    ensures s[0] == k[0] && s[|k|] == '='
    ensures Leading(s) == 0 && LeadingMarks(s) == 0 && k + "=" <= RStrip(s)
  {
  }

  /** The second test of `set_env` adds nothing to the first. */
  lemma SetMatchesByStripping(line: string, k: string)
    requires Key(k)
    ensures SetMatches(line, k) <==> k + "=" <= RStrip(line[LeadingMarks(line)..])
  {
    if k + "=" <= line {
      KeyPrefix(line, k);
      assert line[0..] == line;
    }
  }

  /** A line is found for one key only. */
  lemma SetMatchIsUnique(line: string, a: string, b: string)
    requires Key(a) && Key(b) && SetMatches(line, a) && SetMatches(line, b)
    ensures a == b
  {
    SetMatchesByStripping(line, a);
    SetMatchesByStripping(line, b);
    KeyIsUnique(RStrip(line[LeadingMarks(line)..]), a, b);
  }

  lemma ReadStart(line: string, k: string)
    requires Key(k) && ReadMatches(line, k)
    ensures Leading(line) < |line| && line[Leading(line)] == k[0] && k + "=" <= LStrip(line)
  {
    KeyPrefix(Strip(line), k);
  }

  lemma SetStart(line: string, k: string)
    requires Key(k) && SetMatches(line, k)
    ensures LeadingMarks(line) < |line| && line[LeadingMarks(line)] == k[0] && k + "=" <= line[LeadingMarks(line)..]
  {
    SetMatchesByStripping(line, k);
    KeyPrefix(RStrip(line[LeadingMarks(line)..]), k);
  }

  /** The line that is replaced for one key is not read for another. */
  lemma SetLineReadsOwnKey(line: string, a: string, b: string)
    requires Key(a) && Key(b) && SetMatches(line, a) && ReadMatches(line, b)
    ensures a == b
  {
    var m, n := Leading(line), LeadingMarks(line);
    SetStart(line, a);
    ReadStart(line, b);
    LeadingIsSpace(line, n);
    MarksAreMarks(line, m);
    assert m == n;
    KeyIsUnique(line[n..], a, b);
  }

  /** A line indented with spaces only. */
  ghost predicate SpaceIndented(line: string) { forall i :: 0 <= i < Leading(line) ==> line[i] == ' ' }

  lemma {:induction false} MarksCover(s: string, n: nat)
    requires n < |s| && (forall i :: 0 <= i < n ==> s[i] == ' ') && s[n] != '#' && s[n] != ' '
    ensures LeadingMarks(s) == n
    decreases |s|
  {
    if n > 0 { MarksCover(s[1..], n - 1); }
  }

  lemma ReadIsSet(line: string, k: string)
    requires Key(k) && ReadMatches(line, k) && SpaceIndented(line)
    ensures SetMatches(line, k)
  {
    ReadStart(line, k);
    MarksCover(line, Leading(line));
    KeyPrefix(LStrip(line), k);
  }

  lemma EntryLine(k: string, v: string)
    requires Key(k)
    ensures SetMatches(Entry(k, v), k) && ReadMatches(Entry(k, v), k)
    ensures Strip(Entry(k, v))[|k| + 1..] == RStrip(v)
  {
    var line := Entry(k, v);
    assert k + "=" <= line;
    KeyPrefix(line, k);
    assert line[0..] == line;
    EntryStrip(k + "=", v);
    assert line == (k + "=") + v;
  }

  lemma {:induction false} EntryStrip(p: string, v: string)
    requires p != "" && !IsSpace(p[|p| - 1])
    ensures RStrip(p + v) == p + RStrip(v)
    decreases |v|
  {
    if v == "" {
      assert p + v == p;
    } else {
      assert (p + v)[|p + v| - 1] == v[|v| - 1];
      assert (p + v)[..|p + v| - 1] == p + v[..|v| - 1];
      if IsSpace(v[|v| - 1]) { EntryStrip(p, v[..|v| - 1]); }
    }
  }

  // ---------- which lines are meant ----------

  /** The line assigns `rest` to `k`, after some leading characters. */
  ghost predicate Assigns(line: string, lead: string, k: string, rest: string) { line == lead + (k + "=" + rest) }

  ghost predicate Commenting(lead: string) { forall i :: 0 <= i < |lead| ==> lead[i] == '#' || lead[i] == ' ' }

  ghost predicate White(lead: string) { forall i :: 0 <= i < |lead| ==> IsSpace(lead[i]) }

  lemma SplitAt(line: string, n: nat, k: string)
    requires n <= |line| && k + "=" <= line[n..]
    ensures Assigns(line, line[..n], k, line[n..][|k| + 1..])
  {
    assert line == line[..n] + line[n..];
    assert line[n..] == k + "=" + line[n..][|k| + 1..];
  }

  /** `set_env` replaces a line iff it assigns the key, commented out or not. */
  lemma SetMatchesIff(line: string, k: string)
    requires Key(k)
    ensures SetMatches(line, k) <==> exists lead, rest :: Assigns(line, lead, k, rest) && Commenting(lead)
  {
    hide SetMatches, Key, Assigns;
    if SetMatches(line, k) {
      var n := LeadingMarks(line);
      SetStart(line, k);
      SplitAt(line, n, k);
      forall i | 0 <= i < n ensures line[i] == '#' || line[i] == ' ' { MarksAreMarks(line, i); }
      assert Commenting(line[..n]);
    }
    if lead, rest :| Assigns(line, lead, k, rest) && Commenting(lead) { AssignmentMatches(line, lead, k, rest); }
  }

  lemma AssignmentMatches(line: string, lead: string, k: string, rest: string)
    requires Key(k) && Assigns(line, lead, k, rest) && Commenting(lead)
    ensures SetMatches(line, k)
  {
    var tail := k + "=" + rest;
    KeyPrefix(tail, k);
    LeadIsMarks(lead, tail);
    assert line[|lead|..] == tail;
  }

  lemma {:induction false} LeadIsMarks(lead: string, tail: string)
    requires Commenting(lead) && tail != "" && tail[0] != '#' && tail[0] != ' '
    ensures LeadingMarks(lead + tail) == |lead|
    decreases |lead|
  {
    if lead == "" {
      assert lead + tail == tail;
    } else {
      assert (lead + tail)[1..] == lead[1..] + tail;
      LeadIsMarks(lead[1..], tail);
    }
  }

  lemma {:induction false} LeadIsBlank(lead: string, tail: string)
    requires White(lead) && tail != "" && !IsSpace(tail[0])
    ensures LStrip(lead + tail) == tail
    decreases |lead|
  {
    if lead == "" {
      assert lead + tail == tail;
    } else {
      assert (lead + tail)[1..] == lead[1..] + tail;
      LeadIsBlank(lead[1..], tail);
    }
  }

  /** `read_env` reads a line iff it assigns the key behind white space only, and what it reads
      is the value without trailing white space. */
  lemma ReadMatchesIff(line: string, k: string)
    requires Key(k)
    ensures ReadMatches(line, k) <==> exists lead, rest :: Assigns(line, lead, k, rest) && White(lead)
    ensures forall lead, rest :: Assigns(line, lead, k, rest) && White(lead) ==>
              ReadMatches(line, k) && Strip(line)[|k| + 1..] == RStrip(rest)
  {
    if ReadMatches(line, k) {
      var n := Leading(line);
      ReadStart(line, k);
      SplitAt(line, n, k);
      forall i | 0 <= i < n ensures IsSpace(line[i]) { LeadingIsSpace(line, i); }
      assert White(line[..n]);
    }
    forall lead, rest | Assigns(line, lead, k, rest) && White(lead)
      ensures ReadMatches(line, k) && Strip(line)[|k| + 1..] == RStrip(rest)
    {
      var tail := k + "=" + rest;
      assert tail[0] == k[0];
      LeadIsBlank(lead, tail);
      EntryStrip(k + "=", rest);
      assert tail == (k + "=") + rest;
    }
  }

  // ---------- the lines of a file ----------

  /** `set_env` on the lines: the first match is replaced, or a line appended. */
  function Set(lines: seq<string>, k: string, v: string): seq<string>
    decreases |lines|
  {
    if lines == [] then [Entry(k, v)]
    else if SetMatches(lines[0], k) then [Entry(k, v)] + lines[1..]
    else [lines[0]] + Set(lines[1..], k, v)
  }

  /** `read_env` on the lines */
  function Read(lines: seq<string>, k: string): Option<string>
    decreases |lines|
  {
    if lines == [] then None
    else if ReadMatches(lines[0], k) then Some(Strip(lines[0])[|k| + 1..])
    else Read(lines[1..], k)
  }

  /** Ahead of the line that `set_env` would replace stands one that `read_env` reads. */
  predicate Shadowed(lines: seq<string>, k: string)
    decreases |lines|
  {
    lines != [] && !SetMatches(lines[0], k) && (ReadMatches(lines[0], k) || Shadowed(lines[1..], k))
  }

  lemma ReadCons(head: string, tail: seq<string>, k: string)
    ensures Read([head] + tail, k) == if ReadMatches(head, k) then Some(Strip(head)[|k| + 1..]) else Read(tail, k)
  {
    assert ([head] + tail)[1..] == tail;
  }

  /** Reading after a set gives the new value, but for a shadowed key it gives the old one. */
  lemma {:induction false} ReadAfterSet(lines: seq<string>, k: string, v: string)
    requires Key(k)
    ensures Read(Set(lines, k, v), k) == if Shadowed(lines, k) then Read(lines, k) else Some(RStrip(v))
    decreases |lines|
  {
    hide SetMatches, ReadMatches, Strip;
    EntryLine(k, v);
    if lines == [] {
      ReadCons(Entry(k, v), [], k);
      assert [Entry(k, v)] + [] == [Entry(k, v)];
    } else if SetMatches(lines[0], k) {
      ReadCons(Entry(k, v), lines[1..], k);
    } else {
      ReadAfterSet(lines[1..], k, v);
      ReadCons(lines[0], Set(lines[1..], k, v), k);
    }
  }

  /** Every value reads back iff the key is not shadowed. */
  lemma EveryValueReadsBackIff(lines: seq<string>, k: string)
    requires Key(k)
    ensures (forall v :: Read(Set(lines, k, v), k) == Some(RStrip(v))) <==> !Shadowed(lines, k)
  {
    hide Set, Read, Shadowed, Strip, RStrip;
    forall v ensures Read(Set(lines, k, v), k) == if Shadowed(lines, k) then Read(lines, k) else Some(RStrip(v)) {
      ReadAfterSet(lines, k, v);
    }
    TwoValues();
    assert Read(Set(lines, k, "0"), k) == Some(RStrip("0")) && Read(Set(lines, k, "1"), k) == Some(RStrip("1"))
      ==> !Shadowed(lines, k);
  }

  lemma TwoValues()
    ensures RStrip("0") != RStrip("1")
  {
  }

  /** A line indented with a tab is read but not replaced: the set goes unseen. */
  lemma TabShadows(k: string, was: string, v: string)
    requires Key(k)
    ensures Read(Set(["\t" + Entry(k, was)], k, v), k) == Some(RStrip(was))
  {
    var line := "\t" + Entry(k, was);
    assert line[1..] == Entry(k, was) && line[0] != k[0];
    assert (k + "=")[0] == k[0];
    EntryLine(k, was);
    KeyPrefix(Entry(k, was), k);
    assert Leading(line) == 1 && LeadingMarks(line) == 0;
    assert line[0..] == line;
    assert !(k + "=" <= line) && !SetMatches(line, k);
    ReadAfterSet([line], k, v);
  }

  /** Files indented with spaces only shadow nothing. */
  lemma {:induction false} SpacesDoNotShadow(lines: seq<string>, k: string)
    requires Key(k) && forall l :: l in lines ==> SpaceIndented(l)
    ensures !Shadowed(lines, k)
    decreases |lines|
  {
    hide SetMatches, ReadMatches, SpaceIndented;
    if lines != [] {
      assert lines[0] in lines && forall l :: l in lines[1..] ==> l in lines;
      SpacesDoNotShadow(lines[1..], k);
      if ReadMatches(lines[0], k) { ReadIsSet(lines[0], k); }
    }
  }

  lemma OtherKeys(k: string, v: string, other: string)
    requires Key(k) && Key(other) && k != other
    ensures !ReadMatches(Entry(k, v), other) && !SetMatches(Entry(k, v), other)
  {
    hide SetMatches, ReadMatches, Entry;
    EntryLine(k, v);
    if ReadMatches(Entry(k, v), other) { SetLineReadsOwnKey(Entry(k, v), k, other); }
    if SetMatches(Entry(k, v), other) { SetMatchIsUnique(Entry(k, v), k, other); }
  }

  /** A set of one key does not change what any other key reads. */
  lemma {:induction false} SetKeepsOthers(lines: seq<string>, k: string, v: string, other: string)
    requires Key(k) && Key(other) && k != other
    ensures Read(Set(lines, k, v), other) == Read(lines, other)
    decreases |lines|
  {
    hide SetMatches, ReadMatches, Strip, Entry;
    OtherKeys(k, v, other);
    if lines == [] {
      ReadCons(Entry(k, v), [], other);
      assert [Entry(k, v)] + [] == [Entry(k, v)];
    } else if SetMatches(lines[0], k) {
      if ReadMatches(lines[0], other) { SetLineReadsOwnKey(lines[0], k, other); }
      ReadCons(Entry(k, v), lines[1..], other);
    } else {
      SetKeepsOthers(lines[1..], k, v, other);
      ReadCons(lines[0], Set(lines[1..], k, v), other);
    }
  }

  /** A set changes no key's shadow. */
  lemma {:induction false} SetKeepsShadows(lines: seq<string>, k: string, v: string, other: string)
    requires Key(k) && Key(other)
    ensures Shadowed(Set(lines, k, v), other) <==> Shadowed(lines, other)
    decreases |lines|
  {
    hide SetMatches, ReadMatches, Entry;
    EntryLine(k, v);
    if k != other { OtherKeys(k, v, other); }
    if lines == [] {
      assert [Entry(k, v)][1..] == [];
    } else if SetMatches(lines[0], k) {
      if ReadMatches(lines[0], other) { SetLineReadsOwnKey(lines[0], k, other); }
      if SetMatches(lines[0], other) { SetMatchIsUnique(lines[0], k, other); }
      assert ([Entry(k, v)] + lines[1..])[1..] == lines[1..];
    } else {
      SetKeepsShadows(lines[1..], k, v, other);
      assert ([lines[0]] + Set(lines[1..], k, v))[1..] == Set(lines[1..], k, v);
    }
  }

  /** The line that `set_env` would replace. */
  function Target(lines: seq<string>, k: string): Option<string>
    decreases |lines|
  {
    if lines == [] then None
    else if SetMatches(lines[0], k) then Some(lines[0])
    else Target(lines[1..], k)
  }

  lemma TargetCons(head: string, tail: seq<string>, k: string)
    ensures Target([head] + tail, k) == if SetMatches(head, k) then Some(head) else Target(tail, k)
  {
    assert ([head] + tail)[1..] == tail;
  }

  lemma {:induction false} SetTarget(lines: seq<string>, k: string, v: string, other: string)
    requires Key(k) && Key(other)
    ensures Target(Set(lines, k, v), other) == if k == other then Some(Entry(k, v)) else Target(lines, other)
    decreases |lines|
  {
    hide SetMatches, Entry;
    EntryLine(k, v);
    if k != other { OtherKeys(k, v, other); }
    if lines == [] {
      TargetCons(Entry(k, v), [], other);
      assert [Entry(k, v)] + [] == [Entry(k, v)];
    } else if SetMatches(lines[0], k) {
      if SetMatches(lines[0], other) { SetMatchIsUnique(lines[0], k, other); }
      TargetCons(Entry(k, v), lines[1..], other);
    } else {
      SetTarget(lines[1..], k, v, other);
      TargetCons(lines[0], Set(lines[1..], k, v), other);
    }
  }

  /** A set changes nothing iff the line it would replace is already the one it writes. */
  lemma {:induction false} SetIsNoopIff(lines: seq<string>, k: string, v: string)
    ensures Set(lines, k, v) == lines <==> Target(lines, k) == Some(Entry(k, v))
    decreases |lines|
  {
    hide SetMatches, Entry;
    if lines != [] {
      assert lines == [lines[0]] + lines[1..];
      SetIsNoopIff(lines[1..], k, v);
      var rest := Set(lines[1..], k, v);
      assert !SetMatches(lines[0], k) ==> Set(lines, k, v)[1..] == rest;
      assert Set(lines, k, v)[0] == if SetMatches(lines[0], k) then Entry(k, v) else lines[0];
    }
  }

  lemma SetTwice(lines: seq<string>, k: string, v: string)
    requires Key(k)
    ensures Set(Set(lines, k, v), k, v) == Set(lines, k, v)
  {
  }

  lemma {:induction false} SetOneLine(lines: seq<string>, k: string, v: string)
    requires Key(k) && OneLine(v) && AllOneLine(lines)
    ensures AllOneLine(Set(lines, k, v)) && Set(lines, k, v) != []
    decreases |lines|
  {
    hide SetMatches;
    assert OneLine(Entry(k, v));
    if lines != [] {
      assert lines[0] in lines && forall l :: l in lines[1..] ==> l in lines;
      SetOneLine(lines[1..], k, v);
    }
  }

  // ---------- the file ----------

  /** The content of a file; None when there is no file. */
  type Content = Option<string>

  function Lines(c: Content): seq<string> { if c.Some? then SplitLines(c.value) else [] }
  function SetIn(c: Content, k: string, v: string): Content { Some(Render(Set(Lines(c), k, v))) }
  function ReadIn(c: Content, k: string): Option<string> { Read(Lines(c), k) }

  lemma LinesAfterSet(c: Content, k: string, v: string)
    requires Key(k) && OneLine(v)
    ensures Lines(SetIn(c, k, v)) == Set(Lines(c), k, v)
  {
    hide Set, Render, SplitLines;
    if c.Some? { SplitLinesAreLines(c.value); }
    SetOneLine(Lines(c), k, v);
    RenderSplits(Set(Lines(c), k, v));
  }

  /** On files: a set is a map update, every other key is unchanged, and repeating it is a
      no-op. */
  lemma SetRefinesMap(c: Content, k: string, v: string, other: string)
    requires Key(k) && Key(other) && OneLine(v)
    ensures ReadIn(SetIn(c, k, v), k) == if Shadowed(Lines(c), k) then ReadIn(c, k) else Some(RStrip(v))
    ensures k != other ==> ReadIn(SetIn(c, k, v), other) == ReadIn(c, other)
    ensures SetIn(SetIn(c, k, v), k, v) == SetIn(c, k, v)
  {
    hide Set, Read, Shadowed, Render, SplitLines;
    LinesAfterSet(c, k, v);
    ReadAfterSet(Lines(c), k, v);
    if k != other { SetKeepsOthers(Lines(c), k, v, other); }
    SetTwice(Lines(c), k, v);
  }

  /** One turn of the loop of `set_env`. */
  lemma SetStep(lines: seq<string>, i: nat, k: string, v: string)
    requires i < |lines|
    ensures lines[..i] + Set(lines[i..], k, v)
              == if SetMatches(lines[i], k) then lines[i := Entry(k, v)]
                 else lines[..i + 1] + Set(lines[i + 1..], k, v)
  {
    hide SetMatches, Entry;
    assert lines[i..][0] == lines[i] && lines[i..][1..] == lines[i + 1..];
    if SetMatches(lines[i], k) {
      assert lines[i := Entry(k, v)] == lines[..i] + ([Entry(k, v)] + lines[i + 1..]);
    } else {
      assert lines[..i + 1] == lines[..i] + [lines[i]];
    }
  }

  class File {
    var content: Content

    constructor (c: Content)
      ensures content == c
    {
      content := c;
    }

    /** `set_env` */
    method SetEnv(k: string, v: string)
      modifies this
      ensures content == SetIn(old(content), k, v)
    {
      hide SetMatches, Entry, Render, SplitLines;
      var lines := Lines(content);
      ghost var before := lines;
      var replaced := false;
      for i := 0 to |lines|
        invariant lines == before && !replaced
        invariant lines[..i] + Set(lines[i..], k, v) == Set(before, k, v)
      {
        SetStep(lines, i, k, v);
        if SetMatches(lines[i], k) {
          lines := lines[i := Entry(k, v)];
          replaced := true;
          break;
        }
      }
      if !replaced {
        assert lines[..|lines|] == lines && lines[|lines|..] == [];
        lines := lines + [Entry(k, v)];
      }
      content := Some(Render(lines));
    }

    /** `read_env` */
    method ReadEnv(k: string) returns (r: Option<string>)
      ensures r == ReadIn(content, k)
    {
      hide SplitLines;
      var lines := Lines(content);
      for i := 0 to |lines|
        invariant Read(lines[i..], k) == Read(lines, k)
      {
        assert lines[i..][0] == lines[i] && lines[i..][1..] == lines[i + 1..];
        if ReadMatches(lines[i], k) { return Some(Strip(lines[i])[|k| + 1..]); }
      }
      r := None;
    }
  }
}
