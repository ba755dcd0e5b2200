/** The operations of Python's `str` that the modelled code relies on. */
module Text {
  import opened Wrappers

  /** `str.isspace` for one character */
  predicate IsSpace(c: char) {
    var n := c as int;
    9 <= n <= 13 || 28 <= n <= 32 || n == 0x85 || n == 0xA0 || n == 0x1680 || 0x2000 <= n <= 0x200A
    || n == 0x2028 || n == 0x2029 || n == 0x202F || n == 0x205F || n == 0x3000
  }

  /** How many characters `lstrip` removes: the first character that is no space. */
  function Leading(s: string): (n: nat)
    ensures n <= |s|
    decreases |s|
  {
    if s != "" && IsSpace(s[0]) then 1 + Leading(s[1..]) else 0
  }

  /** Where `rstrip` cuts: after the last character that is no space. */
  function Trailing(s: string): (n: nat)
    ensures n <= |s|
    decreases |s|
  {
    if s != "" && IsSpace(s[|s| - 1]) then Trailing(s[..|s| - 1]) else |s|
  }

  function LStrip(s: string): string { s[Leading(s)..] }
  function RStrip(s: string): string { s[..Trailing(s)] }

  /** `s.strip()` */
  function Strip(s: string): string { RStrip(LStrip(s)) }

  /** No white space at either end. */
  predicate Trimmed(s: string) { s == "" || (!IsSpace(s[0]) && !IsSpace(s[|s| - 1])) }

  lemma {:induction false} LeadingStops(s: string)
    ensures Leading(s) < |s| ==> !IsSpace(s[Leading(s)])
    decreases |s|
  {
    if s != "" && IsSpace(s[0]) { LeadingStops(s[1..]); }
  }

  lemma {:induction false} TrailingStops(s: string)
    ensures Trailing(s) > 0 ==> !IsSpace(s[Trailing(s) - 1])
    decreases |s|
  {
    if s != "" && IsSpace(s[|s| - 1]) { TrailingStops(s[..|s| - 1]); }
  }

  lemma StripTrims(s: string)
    ensures Trimmed(Strip(s))
  {
    LeadingStops(s);
    TrailingStops(LStrip(s));
  }

  lemma StripTrimmed(s: string)
    requires Trimmed(s)
    ensures Strip(s) == s
  {
    assert Leading(s) == 0 && Trailing(s) == |s|;
  }

  lemma {:induction false} LeadingSpaces(s: string, k: nat)
    requires k < Leading(s)
    ensures IsSpace(s[k])
    decreases |s|
  {
    if k > 0 { LeadingSpaces(s[1..], k - 1); }
  }

  lemma {:induction false} TrailingSpaces(s: string, k: nat)
    requires Trailing(s) <= k < |s|
    ensures IsSpace(s[k])
    decreases |s|
  {
    if k < |s| - 1 { TrailingSpaces(s[..|s| - 1], k); }
  }

  /** Stripping removes white space at the two ends and nothing else. */
  lemma StripRemoves(s: string) returns (a: string, b: string)
    ensures s == a + Strip(s) + b
    ensures (forall k :: 0 <= k < |a| ==> IsSpace(a[k])) && (forall k :: 0 <= k < |b| ==> IsSpace(b[k]))
  {
    var l := LStrip(s);
    a, b := s[..Leading(s)], l[Trailing(l)..];
    forall k | 0 <= k < |a| ensures IsSpace(a[k]) { LeadingSpaces(s, k); }
    forall k | 0 <= k < |b| ensures IsSpace(b[k]) { TrailingSpaces(l, Trailing(l) + k); }
  }

  /** `sep.join(parts)` */
  function Join(sep: string, parts: seq<string>): string {
    if parts == [] then "" else if |parts| == 1 then parts[0] else parts[0] + sep + Join(sep, parts[1..])
  }

  lemma JoinOne(sep: string, part: string)
    ensures Join(sep, [part]) == part
  {
  }

  lemma JoinCons(sep: string, part: string, rest: seq<string>)
    requires rest != []
    ensures Join(sep, [part] + rest) == part + sep + Join(sep, rest)
  {
    assert ([part] + rest)[1..] == rest;
  }

  /** `s` occurs in `t` at position `i`. */
  predicate At(t: string, s: string, i: nat) { i + |s| <= |t| && t[i..i + |s|] == s }

  /** `s in t` */
  predicate Contains(t: string, s: string) { exists i :: 0 <= i <= |t| && At(t, s, i) }

  lemma ContainsSelf(t: string)
    ensures Contains(t, t)
  {
    assert At(t, t, 0);
  }

  lemma ContainsMiddle(a: string, s: string, b: string)
    ensures Contains(a + s + b, s)
  {
    assert At(a + s + b, s, |a|);
  }

  lemma SliceOfSlice(t: string, i: nat, n: nat, j: nat, m: nat)
    requires i + n <= |t| && j + m <= n
    ensures t[i..i + n][j..j + m] == t[i + j..i + j + m]
  {
    var a, b := t[i..i + n][j..j + m], t[i + j..i + j + m];
    forall k | 0 <= k < m ensures a[k] == b[k] {
      assert a[k] == t[i..i + n][j + k] == t[i + (j + k)];
      assert b[k] == t[(i + j) + k];
    }
  }

  lemma ContainsTrans(t: string, s: string, r: string)
    requires Contains(t, s) && Contains(s, r)
    ensures Contains(t, r)
  {
    var i :| 0 <= i <= |t| && At(t, s, i);
    var j :| 0 <= j <= |s| && At(s, r, j);
    SliceOfSlice(t, i, |s|, j, |r|);
    assert At(t, r, i + j);
  }

  lemma ContainsLonger(t: string, s: string)
    requires Contains(t, s)
    ensures |s| <= |t| && (|s| == |t| ==> s == t)
  {
    var i :| 0 <= i <= |t| && At(t, s, i);
  }

  /** `t.find(s, from)` */
  function Find(t: string, s: string, from: nat): (r: Option<nat>)
    ensures r.Some? ==> from <= r.value && At(t, s, r.value)
    ensures r.Some? ==> forall i :: from <= i < r.value ==> !At(t, s, i)
    ensures r.None? ==> forall i :: from <= i ==> !At(t, s, i)
    decreases |t| - from
  {
    if from + |s| > |t| then None
    else if At(t, s, from) then Some(from)
    else Find(t, s, from + 1)
  }
}
