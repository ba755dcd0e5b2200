/** `_build_session_scope` (mem0/memory/main.py): the string under which the last
    messages of a session are kept, and a parser that inverts it. */
module SessionScope {
  import MessageWindow
  import opened Text

  type Filters = map<string, string>

  /** sorted(["user_id", "agent_id", "run_id", "project"]) */
  const KEYS: seq<string> := ["agent_id", "project", "run_id", "user_id"]

  function Value(filters: Filters, key: string): string { if key in filters then filters[key] else "" }

  function Parts(filters: Filters, keys: seq<string>): seq<string> {
    if keys == [] then [] else
    var v := Value(filters, keys[0]);
    (if v == "" then [] else [keys[0] + "=" + v]) + Parts(filters, keys[1..])
  }

  function Scope(filters: Filters): string { Join("&", Parts(filters, KEYS)) }

  lemma PartsOfNone(filters: Filters)
    ensures Parts(filters, []) == []
  {
  }

  lemma PartsFrom(filters: Filters, keys: seq<string>, i: nat)
    requires i < |keys|
    ensures Parts(filters, keys[i..])
              == (if Value(filters, keys[i]) == "" then [] else [keys[i] + "=" + Value(filters, keys[i])])
                 + Parts(filters, keys[i + 1..])
  {
    assert keys[i..][0] == keys[i] && keys[i..][1..] == keys[i + 1..];
  }

  /** The loop of `_build_session_scope` over the sorted keys. */
  method CollectParts(filters: Filters, keys: seq<string>) returns (parts: seq<string>)
    ensures parts == Parts(filters, keys)
  {
    hide Parts, Value;
    parts := [];
    assert keys[0..] == keys;
    for i := 0 to |keys|
      invariant parts + Parts(filters, keys[i..]) == Parts(filters, keys)
    {
      var v := Value(filters, keys[i]);
      PartsFrom(filters, keys, i);
      if v != "" { parts := parts + [keys[i] + "=" + v]; }
    }
    assert keys[|keys|..] == [];
    PartsOfNone(filters);
  }

  /** `_build_session_scope` */
  method BuildSessionScope(filters: Filters) returns (scope: string)
    ensures scope == Scope(filters)
  {
    var parts := CollectParts(filters, KEYS);
    scope := Join("&", parts);
  }

  // ---------- the inverse ----------

  function IndexOf(s: string, c: char): (i: nat)
    ensures i <= |s|
    ensures i < |s| ==> s[i] == c
    ensures c !in s[..i]
  {
    if s == "" || s[0] == c then 0 else
    var i := IndexOf(s[1..], c);
    assert s[..1 + i] == [s[0]] + s[1..][..i];
    1 + i
  }

  function Split(s: string): seq<string>
    decreases |s|
  {
    var i := IndexOf(s, '&');
    if i == |s| then [s] else [s[..i]] + Split(s[i + 1..])
  }

  function ParseParts(parts: seq<string>): Filters {
    if parts == [] then map[] else
    var rest := ParseParts(parts[1..]);
    var i := IndexOf(parts[0], '=');
    if i == |parts[0]| then rest else rest[parts[0][..i] := parts[0][i + 1..]]
  }

  function Parse(scope: string): Filters { if scope == "" then map[] else ParseParts(Split(scope)) }

  lemma {:induction false} IndexOfIs(a: string, c: char, rest: string)
    requires c !in a
    ensures IndexOf(a + [c] + rest, c) == |a|
    ensures IndexOf(a, c) == |a|
  {
    if a == "" {
      assert a + [c] + rest == [c] + rest;
    } else {
      assert a[0] != c;
      assert (a + [c] + rest)[1..] == a[1..] + [c] + rest;
      IndexOfIs(a[1..], c, rest);
    }
  }

  lemma SplitFirst(part: string, rest: string)
    requires '&' !in part
    ensures Split(part + ['&'] + rest) == [part] + Split(rest)
  {
    var s, n := part + ['&'] + rest, |part|;
    IndexOfIs(part, '&', rest);
    assert s[..n] == part && s[n + 1..] == rest;
  }

  lemma SplitLast(part: string)
    requires '&' !in part
    ensures Split(part) == [part]
  {
  }

  lemma {:induction false} SplitJoin(parts: seq<string>)
    requires parts != [] && forall p :: p in parts ==> '&' !in p
    ensures Split(Join("&", parts)) == parts
    decreases |parts|
  {
    if |parts| == 1 {
      SplitLast(parts[0]);
      assert parts == [parts[0]];
    } else {
      SplitFirst(parts[0], Join("&", parts[1..]));
      SplitJoin(parts[1..]);
      assert parts == [parts[0]] + parts[1..];
    }
  }

  ghost predicate Separable(filters: Filters) {
    forall k :: k in KEYS ==> '&' !in Value(filters, k)
  }

  ghost predicate Plain(keys: seq<string>) {
    && (forall k :: k in keys ==> '&' !in k && '=' !in k)
    && forall i, j :: 0 <= i < j < |keys| ==> keys[i] != keys[j]
  }

  lemma KeysArePlain()
    ensures Plain(KEYS)
  {
    assert |KEYS[0]| == 8 && |KEYS[1]| == 7 && |KEYS[2]| == 6 && |KEYS[3]| == 7 && KEYS[1][0] != KEYS[3][0];
  }

  lemma PlainTail(keys: seq<string>)
    requires keys != [] && Plain(keys)
    ensures Plain(keys[1..]) && keys[0] !in keys[1..] && '=' !in keys[0] && '&' !in keys[0]
  {
  }

  lemma ParseStep(key: string, v: string, rest: seq<string>)
    requires '=' !in key
    ensures ParseParts([key + "=" + v] + rest) == ParseParts(rest)[key := v]
  {
    var part := key + "=" + v;
    assert part == key + ['='] + v;
    IndexOfIs(key, '=', v);
    assert part[..|key|] == key && part[|key| + 1..] == v;
    assert ([part] + rest)[1..] == rest;
  }

  lemma {:induction false} PartsParse(filters: Filters, keys: seq<string>, k: string)
    requires Plain(keys)
    ensures k in ParseParts(Parts(filters, keys)) <==> k in keys && Value(filters, k) != ""
    ensures k in ParseParts(Parts(filters, keys)) ==> ParseParts(Parts(filters, keys))[k] == Value(filters, k)
    decreases |keys|
  {
    if keys != [] {
      PlainTail(keys);
      PartsParse(filters, keys[1..], k);
      var v, rest := Value(filters, keys[0]), Parts(filters, keys[1..]);
      ParseStep(keys[0], v, rest);
      assert [] + rest == rest;
    }
  }

  lemma {:induction false} PartsSeparate(filters: Filters, keys: seq<string>, p: string)
    requires Plain(keys) && forall k :: k in keys ==> '&' !in Value(filters, k)
    requires p in Parts(filters, keys)
    ensures '&' !in p && p != ""
    decreases |keys|
  {
    PlainTail(keys);
    var v := Value(filters, keys[0]);
    assert '&' !in v && keys[0] in keys;
    if p in Parts(filters, keys[1..]) {
      assert forall k :: k in keys[1..] ==> k in keys;
      PartsSeparate(filters, keys[1..], p);
    }
  }

  /** The parser gives back the non-empty value of each of the four keys. */
  lemma ParseInvertsScope(filters: Filters, key: string)
    requires Separable(filters) && key in KEYS
    ensures Value(Parse(Scope(filters)), key) == Value(filters, key)
  {
    var parts := Parts(filters, KEYS);
    KeysArePlain();
    PartsParse(filters, KEYS, key);
    if parts != [] {
      forall p | p in parts ensures '&' !in p && p != "" { PartsSeparate(filters, KEYS, p); }
      SplitJoin(parts);
      assert parts[0] in parts && Scope(filters) != "";
    }
  }

  /** The two sessions have the same four ids. */
  predicate SameIds(f: Filters, g: Filters) {
    && Value(f, "user_id") == Value(g, "user_id") && Value(f, "agent_id") == Value(g, "agent_id")
    && Value(f, "run_id") == Value(g, "run_id") && Value(f, "project") == Value(g, "project")
  }

  lemma KeysAre()
    ensures forall k :: k in KEYS <==> k in {"user_id", "agent_id", "run_id", "project"}
  {
  }

  /** For ids without '&', scope strings are equal iff the four ids are. */
  lemma ScopeInjective(f: Filters, g: Filters)
    requires Separable(f) && Separable(g)
    ensures Scope(f) == Scope(g) <==> SameIds(f, g)
  {
    KeysAre();
    if Scope(f) == Scope(g) {
      forall k | k in KEYS ensures Value(f, k) == Value(g, k) {
        ParseInvertsScope(f, k);
        ParseInvertsScope(g, k);
      }
    }
    if SameIds(f, g) { SameParts(f, g, KEYS); }
  }

  lemma {:induction false} SameParts(f: Filters, g: Filters, keys: seq<string>)
    requires forall k :: k in keys ==> Value(f, k) == Value(g, k)
    ensures Parts(f, keys) == Parts(g, keys)
    decreases |keys|
  {
    if keys != [] {
      assert keys[0] in keys && forall k :: k in keys[1..] ==> k in keys;
      SameParts(f, g, keys[1..]);
    }
  }

  // ---------- exactly when scope strings collide ----------

  /** The scope string of the keys from `from` on. */
  function ScopeFrom(f: Filters, keys: seq<string>, from: nat): string
    requires from <= |keys|
  {
    Join("&", Parts(f, keys[from..]))
  }

  ghost predicate Differ(f: Filters, g: Filters, keys: seq<string>) {
    exists k :: k in keys && Value(f, k) != Value(g, k)
  }

  /** `v` is non-empty text, then `&key=`, then non-empty text. */
  predicate Splits(v: string, key: string) {
    exists p :: 0 < p < |v| - |key| - 2 && At(v, "&" + key + "=", p)
  }

  predicate CollidesAt(f: Filters, keys: seq<string>, i: nat, k: nat)
    requires i < |keys| && k < |keys|
  {
    Value(f, keys[i]) != "" && (Value(f, keys[k]) != "" || Splits(Value(f, keys[i]), keys[k]))
  }

  /** Two ids are named, or one whose value splits at a later key. */
  predicate Collides(f: Filters, keys: seq<string>) {
    exists i, k :: 0 <= i < k < |keys| && CollidesAt(f, keys, i, k)
  }

  /** The first key from `from` on that is named. */
  function Named(f: Filters, keys: seq<string>, from: nat): (i: nat)
    requires from <= |keys|
    ensures from <= i <= |keys|
    ensures i < |keys| ==> Value(f, keys[i]) != ""
    ensures forall x :: from <= x < i ==> Value(f, keys[x]) == ""
    decreases |keys| - from
  {
    if from == |keys| || Value(f, keys[from]) != "" then from else Named(f, keys, from + 1)
  }

  function Entry(key: string, v: string): string { key + "=" + v }
  function Linked(rest: string): string { if rest == "" then "" else "&" + rest }

  lemma {:induction false} PartsNamed(f: Filters, keys: seq<string>, from: nat)
    requires from <= |keys|
    ensures var i := Named(f, keys, from);
            Parts(f, keys[from..])
              == if i == |keys| then [] else [Entry(keys[i], Value(f, keys[i]))] + Parts(f, keys[i + 1..])
    decreases |keys| - from
  {
    hide Parts, Value;
    if from == |keys| {
      assert keys[from..] == [];
      PartsOfNone(f);
    } else {
      PartsFrom(f, keys, from);
      if Value(f, keys[from]) == "" { PartsNamed(f, keys, from + 1); }
    }
  }

  lemma LinkCons(part: string, later: seq<string>)
    ensures Join("&", [part] + later) == part + if later == [] then "" else "&" + Join("&", later)
  {
    assert ([part] + later)[1..] == later;
    assert part + "&" + Join("&", later) == part + ("&" + Join("&", later));
    assert part + "" == part;
  }

  lemma EntryAppend(key: string, v: string, more: string)
    ensures Entry(key, v) + more == Entry(key, v + more) && Entry(key, v) != ""
  {
  }

  /** A scope string is empty, or the first id and then the scope of the later ones. */
  lemma ScopeNamed(f: Filters, keys: seq<string>, from: nat)
    requires from <= |keys|
    ensures var i := Named(f, keys, from);
            ScopeFrom(f, keys, from)
              == if i == |keys| then "" else Entry(keys[i], Value(f, keys[i]) + Linked(ScopeFrom(f, keys, i + 1)))
    ensures ScopeFrom(f, keys, from) == "" <==> Named(f, keys, from) == |keys|
  {
    hide Parts, Value, Entry, Join;
    var i := Named(f, keys, from);
    PartsNamed(f, keys, from);
    if i == |keys| {
      JoinNone();
    } else {
      var v, later := Value(f, keys[i]), Parts(f, keys[i + 1..]);
      LinkCons(Entry(keys[i], v), later);
      LaterParts(f, keys, i + 1);
      EntryAppend(keys[i], v, Linked(ScopeFrom(f, keys, i + 1)));
      EntryAppend(keys[i], v + Linked(ScopeFrom(f, keys, i + 1)), "");
    }
  }

  lemma JoinNone()
    ensures Join("&", []) == ""
  {
  }

  lemma LaterParts(f: Filters, keys: seq<string>, from: nat)
    requires from <= |keys|
    ensures Parts(f, keys[from..]) == [] <==> ScopeFrom(f, keys, from) == ""
  {
    hide Parts, Value, Entry, Join;
    PartsNamed(f, keys, from);
    JoinNone();
    var i := Named(f, keys, from);
    if i < |keys| {
      LinkCons(Entry(keys[i], Value(f, keys[i])), Parts(f, keys[i + 1..]));
      EntryAppend(keys[i], Value(f, keys[i]), "");
    }
  }

  /** Equal entries have equal keys and equal values. */
  lemma SameEntry(a: string, x: string, b: string, y: string)
    requires '=' !in a && '=' !in b && Entry(a, x) == Entry(b, y)
    ensures a == b && x == y
  {
    var s := Entry(a, x);
    IndexOfIs(a, '=', x);
    IndexOfIs(b, '=', y);
    assert a + ['='] + x == s && b + ['='] + y == s;
    assert a == s[..|a|] && x == s[|a| + 1..] && b == s[..|b|] && y == s[|b| + 1..];
  }

  lemma SplitsAt(x: string, key: string, y: string)
    requires x != "" && y != ""
    ensures Splits(x + Linked(Entry(key, y)), key)
  {
    var v := x + Linked(Entry(key, y));
    EntryAppend(key, y, "");
    assert v == x + ("&" + key + "=") + y;
    assert At(v, "&" + key + "=", |x|);
  }

  /** A session that shares its scope string with another is of the kind described. */
  lemma SharedScopeCollides(f: Filters, g: Filters, keys: seq<string>)
    requires Plain(keys) && ScopeFrom(f, keys, 0) == ScopeFrom(g, keys, 0) && Differ(f, g, keys)
    ensures Collides(f, keys)
  {
    hide Splits, Parts, Value, Entry, Join, Linked, ScopeFrom, Plain;
    var i := Named(f, keys, 0);
    var c :| c in keys && Value(f, c) != Value(g, c);
    var d :| 0 <= d < |keys| && keys[d] == c;
    ScopeNamed(f, keys, 0);
    ScopeNamed(g, keys, 0);
    if i < |keys| && i == Named(g, keys, 0) { SameFirst(f, g, keys, i, d); }
    if i < |keys| && i != Named(g, keys, 0) { OtherFirst(f, g, keys, i, Named(g, keys, 0)); }
  }

  lemma PlainKeys(keys: seq<string>, i: nat, j: nat)
    requires Plain(keys) && i < |keys| && j < |keys|
    ensures '=' !in keys[i] && (keys[i] == keys[j] ==> i == j)
  {
  }

  lemma OtherFirst(f: Filters, g: Filters, keys: seq<string>, i: nat, j: nat)
    requires Plain(keys) && i < |keys| && j < |keys|
    requires Entry(keys[i], Value(f, keys[i]) + Linked(ScopeFrom(f, keys, i + 1)))
          == Entry(keys[j], Value(g, keys[j]) + Linked(ScopeFrom(g, keys, j + 1)))
    ensures i == j
  {
    hide Plain, Value, Entry, Linked, ScopeFrom;
    PlainKeys(keys, i, j);
    PlainKeys(keys, j, i);
    SameEntry(keys[i], Value(f, keys[i]) + Linked(ScopeFrom(f, keys, i + 1)),
              keys[j], Value(g, keys[j]) + Linked(ScopeFrom(g, keys, j + 1)));
  }

  lemma SameFirst(f: Filters, g: Filters, keys: seq<string>, i: nat, d: nat)
    requires Plain(keys) && i == Named(f, keys, 0) == Named(g, keys, 0) && i < |keys|
    requires d < |keys| && Value(f, keys[d]) != Value(g, keys[d])
    requires ScopeFrom(f, keys, 0) == ScopeFrom(g, keys, 0)
    ensures Collides(f, keys)
  {
    hide Splits, Parts, Value, Entry, Join, Linked, ScopeFrom, Plain;
    var v, w := Value(f, keys[i]), Value(g, keys[i]);
    ScopeNamed(f, keys, 0);
    ScopeNamed(g, keys, 0);
    PlainKeys(keys, i, i);
    SameEntry(keys[i], v + Linked(ScopeFrom(f, keys, i + 1)), keys[i], w + Linked(ScopeFrom(g, keys, i + 1)));
    ScopeNamed(f, keys, i + 1);
    ScopeNamed(g, keys, i + 1);
    LinkedNone();
    var k := Named(f, keys, i + 1);
    if k < |keys| {
      assert CollidesAt(f, keys, i, k);
    } else {
      k := Named(g, keys, i + 1);
      if k < |keys| {
        SplitsAt(w, keys[k], Value(g, keys[k]) + Linked(ScopeFrom(g, keys, k + 1)));
        assert CollidesAt(f, keys, i, k);
      }
    }
  }

  lemma LinkedNone()
    ensures forall v: string :: v + Linked("") == v
  {
  }

  /** The session with the one id `w` under key `i`. */
  lemma ScopeOfOne(keys: seq<string>, i: nat, w: string)
    requires Plain(keys) && i < |keys| && w != ""
    ensures ScopeFrom(map[keys[i] := w], keys, 0) == Entry(keys[i], w)
  {
    hide Parts, Entry, Join, ScopeFrom;
    var g := map[keys[i] := w];
    ScopeNamed(g, keys, 0);
    ScopeNamed(g, keys, i + 1);
    LinkedNone();
  }

  /** The session with the ids `x` and `y` under keys `i` and `k`. */
  lemma ScopeOfTwo(keys: seq<string>, i: nat, k: nat, x: string, y: string)
    requires Plain(keys) && i < k < |keys| && x != "" && y != ""
    ensures ScopeFrom(map[keys[i] := x, keys[k] := y], keys, 0) == Entry(keys[i], x + Linked(Entry(keys[k], y)))
  {
    hide Parts, Entry, Join, ScopeFrom, Linked;
    var g := map[keys[i] := x, keys[k] := y];
    ScopeNamed(g, keys, 0);
    ScopeNamed(g, keys, i + 1);
    ScopeNamed(g, keys, k + 1);
    LinkedNone();
  }

  /** And every session of the kind described shares its scope string with another. */
  lemma CollidingIsShared(f: Filters, keys: seq<string>) returns (g: Filters)
    requires Plain(keys) && Collides(f, keys)
    ensures ScopeFrom(f, keys, 0) == ScopeFrom(g, keys, 0) && Differ(f, g, keys)
  {
    hide Splits, Plain, Parts, Entry, Join, ScopeFrom;
    var i := Named(f, keys, 0);
    var a, c :| 0 <= a < c < |keys| && CollidesAt(f, keys, a, c);
    ScopeNamed(f, keys, 0);
    ScopeNamed(f, keys, i + 1);
    var v, rest := Value(f, keys[i]), ScopeFrom(f, keys, i + 1);
    if rest != "" {
      g := map[keys[i] := v + Linked(rest)];
      ScopeOfOne(keys, i, v + Linked(rest));
      assert keys[i] in keys && Value(g, keys[i]) != v;
    } else {
      LinkedNone();
      g := SplitSession(f, keys, i, c);
    }
  }

  lemma SplitSession(f: Filters, keys: seq<string>, i: nat, k: nat) returns (g: Filters)
    requires Plain(keys) && i < k < |keys| && Value(f, keys[k]) == "" && Splits(Value(f, keys[i]), keys[k])
    requires ScopeFrom(f, keys, 0) == Entry(keys[i], Value(f, keys[i]))
    ensures ScopeFrom(f, keys, 0) == ScopeFrom(g, keys, 0) && Differ(f, g, keys)
  {
    hide Plain, Parts, Entry, Join, ScopeFrom, Splits;
    var x, y := SplitValue(Value(f, keys[i]), keys[k]);
    g := map[keys[i] := x, keys[k] := y];
    ScopeOfTwo(keys, i, k, x, y);
    assert keys[k] in keys && Value(g, keys[k]) == y;
  }

  lemma SplitValue(v: string, key: string) returns (x: string, y: string)
    requires Splits(v, key)
    ensures x != "" && y != "" && v == x + Linked(Entry(key, y))
  {
    var p :| 0 < p < |v| - |key| - 2 && At(v, "&" + key + "=", p);
    var n := p + |key| + 2;
    x, y := v[..p], v[n..];
    EntryAppend(key, y, "");
    assert v == x + v[p..n] + y;
    assert x + ("&" + key + "=") + y == x + ("&" + (key + "=" + y));
  }

  /** A session shares its scope string with a different one iff it names two ids, or its
      one id splits at a later key: at least `&` and a key must stand inside it. */
  lemma CollidesIff(f: Filters)
    ensures (exists g :: Scope(g) == Scope(f) && Differ(f, g, KEYS)) <==> Collides(f, KEYS)
  {
    hide Collides, Differ, KEYS, Parts;
    KeysArePlain();
    assert KEYS[0..] == KEYS;
    if g :| Scope(g) == Scope(f) && Differ(f, g, KEYS) { SharedScopeCollides(f, g, KEYS); }
    if Collides(f, KEYS) { var g := CollidingIsShared(f, KEYS); }
  }

  /** So a session with a user id alone shares its string with none, whatever the ids hold:
      `user_id` is the last key. */
  lemma UserAloneNeverCollides(f: Filters, g: Filters)
    requires Value(f, "agent_id") == "" && Value(f, "run_id") == "" && Value(f, "project") == ""
    ensures Scope(f) == Scope(g) <==> SameIds(f, g)
  {
    hide Parts;
    CollidesIff(f);
    KeysAre();
    if !Differ(f, g, KEYS) { SameParts(f, g, KEYS); }
  }

  lemma FourParts(f: Filters, keys: seq<string>)
    requires |keys| == 4 && forall i :: 0 <= i < 4 ==> Value(f, keys[i]) != ""
    ensures ScopeFrom(f, keys, 0)
              == Entry(keys[0], Value(f, keys[0])) + "&" + (Entry(keys[1], Value(f, keys[1])) + "&"
                 + (Entry(keys[2], Value(f, keys[2])) + "&" + Entry(keys[3], Value(f, keys[3]))))
  {
    hide Join, Value;
    PartsFrom(f, keys, 0);
    PartsFrom(f, keys, 1);
    PartsFrom(f, keys, 2);
    PartsFrom(f, keys, 3);
    assert keys[4..] == [] && Parts(f, []) == [];
    var a, p := Entry(keys[0], Value(f, keys[0])), Entry(keys[1], Value(f, keys[1]));
    var r, u := Entry(keys[2], Value(f, keys[2])), Entry(keys[3], Value(f, keys[3]));
    assert [u] + [] == [u];
    JoinOne("&", u);
    JoinCons("&", r, [u]);
    JoinCons("&", p, [r] + [u]);
    JoinCons("&", a, [p] + ([r] + [u]));
  }

  lemma KeysInOrder()
    ensures |KEYS| == 4
    ensures KEYS[0] == "agent_id" && KEYS[1] == "project" && KEYS[2] == "run_id" && KEYS[3] == "user_id"
  {
  }

  /** The string of a session with all four ids, in the order of their names. */
  lemma FullScope(f: Filters)
    requires Value(f, "agent_id") != "" && Value(f, "project") != ""
             && Value(f, "run_id") != "" && Value(f, "user_id") != ""
    ensures Scope(f)
              == ("agent_id" + "=" + Value(f, "agent_id")) + "&" + (("project" + "=" + Value(f, "project")) + "&"
                 + (("run_id" + "=" + Value(f, "run_id")) + "&" + ("user_id" + "=" + Value(f, "user_id"))))
  {
    hide Join, Value, Parts, KEYS;
    KeysInOrder();
    FourParts(f, KEYS);
    assert KEYS[0..] == KEYS;
  }

  /** Saving messages of one session never touches the window of a different one, when the
      ids of both are free of `&` or one of them shares its scope string with none. */
  lemma WindowsAreSeparate(t: MessageWindow.Table, c: MessageWindow.Save, f: Filters, g: Filters)
    requires (Separable(f) && Separable(g)) || !Collides(f, KEYS) || !Collides(g, KEYS)
    requires Differ(f, g, KEYS) && c.scope == Scope(f)
    ensures MessageWindow.OfScope(MessageWindow.Apply(t, c).rows, Scope(g)) == MessageWindow.OfScope(t.rows, Scope(g))
  {
    hide Collides, Separable, KEYS, Parts;
    CollidesIff(f);
    CollidesIff(g);
    if Separable(f) && Separable(g) {
      ScopeInjective(f, g);
      KeysAre();
    }
    assert Differ(g, f, KEYS);
    MessageWindow.OtherScopesUntouched(t, c, Scope(g));
  }
}
