/** The compiled filter means what the caller wrote, exactly when no two of its
    conjuncts overwrite each other. */
module FilterMeaning {
  import opened Wrappers
  import opened Filters

  // ---------- shapes ----------

  ghost predicate PlainEntry(e: Entry) {
    e.key !in LOGICAL && e.key !in CLAUSES && (e.value.Dict? ==> DistinctKeys(e.value.entries))
  }

  ghost predicate PlainDict(d: seq<Entry>) {
    DistinctKeys(d) && forall e :: e in d ==> PlainEntry(e)
  }

  ghost predicate PlainItems(items: seq<Node>) {
    forall c :: c in items && c.Dict? ==> PlainDict(c.entries)
  }

  /** A Python dictionary whose nested conditions use plain keys. */
  ghost predicate PlainFilter(filter: seq<Entry>) {
    && DistinctKeys(filter)
    && forall e :: e in filter ==>
         if e.key in LOGICAL then e.value.List? ==> PlainItems(e.value.items) else PlainEntry(e)
  }

  /** What compilation produces. */
  ghost predicate CompiledEntry(e: Entry) {
    && e.key !in LOGICAL
    && (e.key in CLAUSES ==> e.value.List?)
    && (e.value.Dict? ==>
          && e.value.entries != [] && DistinctKeys(e.value.entries)
          && forall o :: o in e.value.entries ==> o.key in OPERATORS)
  }

  ghost predicate Compiled(d: seq<Entry>) {
    DistinctKeys(d) && forall e :: e in d ==> CompiledEntry(e)
  }

  // ---------- dictionaries ----------

  lemma PutFacts(d: seq<Entry>, key: string, value: Node)
    requires DistinctKeys(d)
    ensures DistinctKeys(Put(d, key, value))
    ensures forall e :: e in Put(d, key, value) <==> (e in d && e.key != key) || e == Entry(key, value)
  {
    var i, r := Find(d, key), Put(d, key, value);
    forall e ensures e in r <==> (e in d && e.key != key) || e == Entry(key, value) {
      if e in d && e.key != key {
        var j :| 0 <= j < |d| && d[j] == e;
        assert r[j] == e;
      }
      if e == Entry(key, value) { assert r[i] == e; }
    }
  }

  lemma PutCons(d: seq<Entry>, key: string, value: Node)
    requires d != []
    ensures Put(d, key, value)
              == if d[0].key == key then [Entry(key, value)] + d[1..] else [d[0]] + Put(d[1..], key, value)
  {
  }

  lemma GetCons(d: seq<Entry>, k: string)
    requires d != []
    ensures Get(d, k) == if d[0].key == k then Some(d[0].value) else Get(d[1..], k)
  {
  }

  lemma {:induction false} GetPut(d: seq<Entry>, key: string, value: Node, k: string)
    ensures Get(Put(d, key, value), k) == if k == key then Some(value) else Get(d, k)
    decreases |d|
  {
    hide Find, Put;
    if d == [] {
      assert Put(d, key, value) == [Entry(key, value)] && [Entry(key, value)][1..] == [] by { PutNone(key, value); }
      GetCons([Entry(key, value)], k);
    } else {
      PutCons(d, key, value);
      GetCons(d, k);
      GetPut(d[1..], key, value, k);
      GetCons(Put(d, key, value), k);
      assert Put(d, key, value)[1..] == if d[0].key == key then d[1..] else Put(d[1..], key, value);
    }
  }

  lemma PutNone(key: string, value: Node)
    ensures Put([], key, value) == [Entry(key, value)]
  {
  }

  lemma FindIn(d: seq<Entry>, e: Entry)
    requires DistinctKeys(d) && e in d
    ensures Find(d, e.key) < |d| && d[Find(d, e.key)] == e && Get(d, e.key) == Some(e.value)
  {
  }

  lemma {:induction false} UpdateFacts(d: seq<Entry>, more: seq<Entry>)
    requires DistinctKeys(d) && DistinctKeys(more)
    ensures DistinctKeys(Update(d, more))
    ensures forall e :: e in Update(d, more) <==> e in more || (e in d && !Has(more, e.key))
    decreases |more|
  {
    if more != [] {
      var m, rest := more[0], more[1..];
      PutFacts(d, m.key, m.value);
      UpdateFacts(Put(d, m.key, m.value), rest);
      assert forall e :: e in more <==> e == m || e in rest;
      forall e: Entry ensures Has(more, e.key) <==> e.key == m.key || Has(rest, e.key) { }
      forall e | e in rest ensures e.key != m.key { }
      assert !Has(rest, m.key);
    }
  }

  // ---------- tests ----------

  ghost predicate HasTest(d: seq<Entry>, t: Test) {
    exists e :: e in d && e.key !in CLAUSES && Asks(e, t)
  }

  ghost function TestsOf(d: seq<Entry>): iset<Test> { iset t | HasTest(d, t) }

  ghost function Asked(e: Entry): iset<Test> { iset t | Asks(e, t) }

  /** Two tests a single dictionary can hold together. */
  ghost predicate Compatible(s: Test, t: Test) {
    s == t || s.key != t.key || (s.Compare? && t.Compare? && s.op != t.op)
  }

  ghost predicate Consistent(ts: iset<Test>) {
    forall s, t :: s in ts && t in ts ==> Compatible(s, t)
  }

  /** A dictionary can only hold compatible tests. */
  lemma CompiledIsConsistent(d: seq<Entry>)
    requires Compiled(d)
    ensures Consistent(TestsOf(d))
  {
  }

  lemma TestsOfPut(d: seq<Entry>, key: string, value: Node)
    requires DistinctKeys(d) && key !in CLAUSES
    ensures forall t ::
              HasTest(Put(d, key, value), t) <==> Asks(Entry(key, value), t) || (t.key != key && HasTest(d, t))
  {
  }

  // ---------- one conjunct ----------

  lemma AddConditionCompiled(target: seq<Entry>, e: Entry, next: seq<Entry>)
    requires Compiled(target) && PlainEntry(e) && AddCondition(target, e.key, e.value) == Ok(next)
    ensures Compiled(next)
    ensures forall k :: k in CLAUSES ==> Get(next, k) == Get(target, k)
  {
    var i := Find(target, e.key);
    if e.value.Dict? && e.value.entries != [] && i < |target| && target[i].value.Dict? {
      assert CompiledEntry(target[i]);
      UpdateFacts(target[i].value.entries, e.value.entries);
      var merged := Dict(Update(target[i].value.entries, e.value.entries));
      assert e.value.entries[0] in merged.entries;
      PutFacts(target, e.key, merged);
      forall k | k in CLAUSES ensures Get(next, k) == Get(target, k) { GetPut(target, e.key, merged, k); }
    } else if next != target {
      PutFacts(target, e.key, e.value);
      forall k | k in CLAUSES ensures Get(next, k) == Get(target, k) { GetPut(target, e.key, e.value, k); }
    }
  }

  /** The tests of a merged operator dictionary. */
  lemma MergedAsks(old': Entry, e: Entry, t: Test)
    requires old'.key == e.key && old'.value.Dict? && e.value.Dict?
    requires DistinctKeys(old'.value.entries) && DistinctKeys(e.value.entries)
    ensures var merged := Entry(e.key, Dict(Update(old'.value.entries, e.value.entries)));
            && (Asks(merged, t) ==> Asks(old', t) || Asks(e, t))
            && (Asks(e, t) ==> Asks(merged, t))
            && (Asks(old', t) && (forall s :: Asks(e, s) ==> Compatible(s, t)) ==> Asks(merged, t))
  {
    UpdateFacts(old'.value.entries, e.value.entries);
    if Asks(old', t) && Has(e.value.entries, t.op) {
      var o := e.value.entries[Find(e.value.entries, t.op)];
      assert Asks(e, Compare(e.key, o.key, o.value));
    }
  }

  /** Adding a conjunct loses no test it is compatible with, and invents none. */
  lemma AddConditionTests(target: seq<Entry>, e: Entry, next: seq<Entry>)
    requires Compiled(target) && PlainEntry(e) && AddCondition(target, e.key, e.value) == Ok(next)
    ensures TestsOf(next) <= TestsOf(target) + Asked(e)
    ensures Consistent(TestsOf(target) + Asked(e)) ==> TestsOf(next) == TestsOf(target) + Asked(e)
  {
    forall t
      ensures HasTest(next, t) ==> HasTest(target, t) || Asks(e, t)
      ensures Consistent(TestsOf(target) + Asked(e)) && (HasTest(target, t) || Asks(e, t)) ==> HasTest(next, t)
    {
      AddConditionTest(target, e, next, t);
    }
  }

  lemma AddConditionTest(target: seq<Entry>, e: Entry, next: seq<Entry>, t: Test)
    requires Compiled(target) && PlainEntry(e) && AddCondition(target, e.key, e.value) == Ok(next)
    ensures HasTest(next, t) ==> HasTest(target, t) || Asks(e, t)
    ensures Consistent(TestsOf(target) + Asked(e)) && (HasTest(target, t) || Asks(e, t)) ==> HasTest(next, t)
  {
    var i := Find(target, e.key);
    if e.value.Dict? && e.value.entries == [] {
    } else if e.value.Dict? && i < |target| && target[i].value.Dict? {
      assert CompiledEntry(target[i]);
      MergedAsks(target[i], e, t);
      TestsOfPut(target, e.key, Dict(Update(target[i].value.entries, e.value.entries)));
      SameKeyTest(target, i, t);
      if Consistent(TestsOf(target) + Asked(e)) && Asks(target[i], t) {
        forall s | Asks(e, s) ensures Compatible(s, t) {
          assert t in TestsOf(target) + Asked(e) && s in TestsOf(target) + Asked(e);
        }
      }
    } else {
      TestsOfPut(target, e.key, e.value);
      if Consistent(TestsOf(target) + Asked(e)) && HasTest(target, t) && t.key == e.key {
        ReplacedTest(target, e, i, t);
      }
    }
  }

  lemma SameKeyTest(d: seq<Entry>, i: nat, t: Test)
    requires DistinctKeys(d) && i < |d| && d[i].key !in CLAUSES
    ensures HasTest(d, t) && t.key == d[i].key <==> Asks(d[i], t)
  {
  }

  /** Replacing an entry is harmless only if it asked the same test. */
  lemma ReplacedTest(target: seq<Entry>, e: Entry, i: nat, t: Test)
    requires Compiled(target) && PlainEntry(e) && i == Find(target, e.key)
    requires HasTest(target, t) && t.key == e.key && Consistent(TestsOf(target) + Asked(e))
    requires !(e.value.Dict? && e.value.entries == [])
    requires !(e.value.Dict? && i < |target| && target[i].value.Dict?)
    ensures Asks(e, t)
  {
    var f :| f in target && f.key !in CLAUSES && Asks(f, t);
    FindIn(target, f);
    var s := if e.value.Dict? then Compare(e.key, e.value.entries[0].key, e.value.entries[0].value)
             else Equals(e.key, e.value);
    assert e.value.Dict? ==> e.value.entries[0] in e.value.entries;
    assert Asks(e, s);
    assert s in TestsOf(target) + Asked(e) && t in TestsOf(target) + Asked(e);
    assert Compatible(s, t);
  }

  // ---------- a dictionary of conjuncts ----------

  ghost function AskedByAll(d: seq<Entry>): iset<Test> { iset e, t | e in d && Asks(e, t) :: t }

  lemma AskedByCons(d: seq<Entry>)
    requires d != []
    ensures AskedByAll(d) == Asked(d[0]) + AskedByAll(d[1..])
  {
    assert forall e :: e in d <==> e == d[0] || e in d[1..];
  }

  lemma {:induction false} AddConditionsTests(target: seq<Entry>, d: seq<Entry>, out: seq<Entry>)
    requires Compiled(target) && (forall e :: e in d ==> PlainEntry(e)) && AddConditions(target, d) == Ok(out)
    ensures Compiled(out) && forall k :: k in CLAUSES ==> Get(out, k) == Get(target, k)
    ensures TestsOf(out) <= TestsOf(target) + AskedByAll(d)
    ensures Consistent(TestsOf(target) + AskedByAll(d)) ==> TestsOf(out) == TestsOf(target) + AskedByAll(d)
    decreases |d|
  {
    if d == [] {
      assert AskedByAll(d) == iset{};
    } else {
      var next := AddCondition(target, d[0].key, d[0].value).value;
      AddConditionCompiled(target, d[0], next);
      AddConditionTests(target, d[0], next);
      AskedByCons(d);
      AddConditionsTests(next, d[1..], out);
      if Consistent(TestsOf(target) + AskedByAll(d)) {
        SmallerConsistent(TestsOf(target) + Asked(d[0]), TestsOf(target) + AskedByAll(d));
        SmallerConsistent(TestsOf(next) + AskedByAll(d[1..]), TestsOf(target) + AskedByAll(d));
      }
    }
  }

  lemma SmallerConsistent(a: iset<Test>, c: iset<Test>)
    requires a <= c && Consistent(c)
    ensures Consistent(a)
  {
  }

  /** The tests of one dictionary are always consistent. */
  lemma PlainIsConsistent(d: seq<Entry>)
    requires PlainDict(d)
    ensures Consistent(AskedByAll(d))
  {
  }

  /** So compiling one nested dictionary keeps its meaning. */
  lemma NestedMeaning(p: Answers, d: seq<Entry>, out: seq<Entry>)
    requires PlainDict(d) && AddConditions([], d) == Ok(out)
    ensures PlainSat(p, out) <==> PlainSat(p, d)
  {
    AddConditionsTests([], d, out);
    assert TestsOf([]) == iset{};
    PlainIsConsistent(d);
    assert TestsOf([]) + AskedByAll(d) == AskedByAll(d);
    forall e | e in out ensures e.key !in CLAUSES {
      FindIn(out, e);
    }
    assert forall t :: HasTest(out, t) <==> t in AskedByAll(d);
    PlainSatTests(p, out);
    PlainSatTests(p, d);
  }

  lemma PlainSatTests(p: Answers, d: seq<Entry>)
    ensures PlainSat(p, d) <==> forall t :: t in AskedByAll(d) ==> p(t)
  {
  }

  // ---------- the whole filter ----------

  /** The tests the plain and AND entries of a filter ask. */
  ghost predicate FilterAsks(filter: seq<Entry>, t: Test) {
    exists e :: e in filter && EntryAsks(e, t)
  }

  ghost predicate EntryAsks(e: Entry, t: Test) {
    if e.key == "AND" then e.value.List? && exists c :: c in e.value.items && c.Dict? && t in AskedByAll(c.entries)
    else e.key !in LOGICAL && Asks(e, t)
  }

  ghost function ConjunctTests(filter: seq<Entry>): iset<Test> { iset t | FilterAsks(filter, t) }

  ghost function EntryTests(e: Entry): iset<Test> { iset t | EntryAsks(e, t) }

  lemma ConjunctTestsCons(filter: seq<Entry>)
    requires filter != []
    ensures ConjunctTests(filter) == EntryTests(filter[0]) + ConjunctTests(filter[1..])
  {
    assert forall e :: e in filter <==> e == filter[0] || e in filter[1..];
  }

  ghost function ItemTests(items: seq<Node>): iset<Test> {
    iset c, t | c in items && c.Dict? && t in AskedByAll(c.entries) :: t
  }

  lemma ItemTestsCons(items: seq<Node>)
    requires items != [] && items[0].Dict?
    ensures ItemTests(items) == AskedByAll(items[0].entries) + ItemTests(items[1..])
  {
    assert forall c :: c in items <==> c == items[0] || c in items[1..];
  }

  lemma {:induction false} AddAllTests(target: seq<Entry>, items: seq<Node>, out: seq<Entry>)
    requires Compiled(target) && PlainItems(items) && AddAll(target, items) == Ok(out)
    ensures Compiled(out) && forall k :: k in CLAUSES ==> Get(out, k) == Get(target, k)
    ensures TestsOf(out) <= TestsOf(target) + ItemTests(items)
    ensures Consistent(TestsOf(target) + ItemTests(items)) ==> TestsOf(out) == TestsOf(target) + ItemTests(items)
    ensures forall c :: c in items ==> c.Dict?
    decreases |items|
  {
    if items == [] {
      assert ItemTests(items) == iset{};
    } else {
      var d := items[0].entries;
      assert items[0] in items;
      var next := AddConditions(target, d).value;
      AddConditionsTests(target, d, next);
      ItemTestsCons(items);
      assert PlainItems(items[1..]);
      AddAllTests(next, items[1..], out);
      assert forall c :: c in items ==> c == items[0] || c in items[1..];
      if Consistent(TestsOf(target) + ItemTests(items)) {
        SmallerConsistent(TestsOf(target) + AskedByAll(d), TestsOf(target) + ItemTests(items));
        SmallerConsistent(TestsOf(next) + ItemTests(items[1..]), TestsOf(target) + ItemTests(items));
      }
    }
  }

  /** Compiling each nested dictionary keeps the disjunction. */
  lemma {:induction false} CompileEachMeaning(p: Answers, items: seq<Node>, out: seq<Node>)
    requires PlainItems(items) && CompileEach(items) == Ok(out)
    ensures AnySat(p, out) <==> AnySat(p, items)
    decreases |items|
  {
    if items != [] {
      var d := items[0].entries;
      assert items[0] in items;
      var first := AddConditions([], d).value;
      NestedMeaning(p, d, first);
      assert PlainItems(items[1..]);
      CompileEachMeaning(p, items[1..], out[1..]);
      assert forall c :: c in items <==> c == items[0] || c in items[1..];
      assert forall c :: c in out <==> c == Dict(first) || c in out[1..];
    }
  }

  lemma PutClause(d: seq<Entry>, key: string, items: seq<Node>)
    requires Compiled(d) && key in CLAUSES
    ensures Compiled(Put(d, key, List(items))) && TestsOf(Put(d, key, List(items))) == TestsOf(d)
    ensures forall k :: Get(Put(d, key, List(items)), k) == if k == key then Some(List(items)) else Get(d, k)
  {
    PutFacts(d, key, List(items));
    forall k ensures Get(Put(d, key, List(items)), k) == if k == key then Some(List(items)) else Get(d, k) {
      GetPut(d, key, List(items), k);
    }
    forall t ensures HasTest(Put(d, key, List(items)), t) <==> HasTest(d, t) { }
  }

  ghost predicate FilterEntryOk(e: Entry) {
    if e.key in LOGICAL then e.value.List? ==> PlainItems(e.value.items) else PlainEntry(e)
  }

  /** The clause list a logical entry is compiled to. */
  ghost predicate ClauseOf(e: Entry, value: Option<Node>) {
    && e.value.List? && CompileEach(e.value.items).Ok?
    && value == Some(List(CompileEach(e.value.items).value))
  }

  lemma CompileEntryFacts(target: seq<Entry>, e: Entry, next: seq<Entry>)
    requires Compiled(target) && FilterEntryOk(e) && CompileEntry(target, e) == Ok(next)
    ensures Compiled(next)
    ensures TestsOf(next) <= TestsOf(target) + EntryTests(e)
    ensures Consistent(TestsOf(target) + EntryTests(e)) ==> TestsOf(next) == TestsOf(target) + EntryTests(e)
    ensures if e.key == "OR" then ClauseOf(e, Get(next, "$or")) else Get(next, "$or") == Get(target, "$or")
    ensures if e.key == "NOT" then ClauseOf(e, Get(next, "$not")) else Get(next, "$not") == Get(target, "$not")
    ensures e.key == "AND" ==> e.value.List? && forall c :: c in e.value.items ==> c.Dict?
  {
    if e.key == "AND" {
      AddAllTests(target, e.value.items, next);
      assert EntryTests(e) == ItemTests(e.value.items);
    } else if e.key == "OR" || e.key == "NOT" {
      PutClause(target, if e.key == "OR" then "$or" else "$not", CompileEach(e.value.items).value);
      assert EntryTests(e) == iset{};
    } else {
      AddConditionCompiled(target, e, next);
      AddConditionTests(target, e, next);
      assert EntryTests(e) == Asked(e);
    }
  }

  /** What the clause of a compiled filter is, given the one it started from. */
  ghost predicate ClauseFrom(filter: seq<Entry>, key: string, start: Option<Node>, value: Option<Node>) {
    if Has(filter, key) then ClauseOf(filter[Find(filter, key)], value) else value == start
  }

  lemma ClauseFromCons(filter: seq<Entry>, key: string, start: Option<Node>, mid: Option<Node>, value: Option<Node>)
    requires filter != [] && DistinctKeys(filter)
    requires if filter[0].key == key then ClauseOf(filter[0], mid) else mid == start
    requires ClauseFrom(filter[1..], key, mid, value)
    ensures ClauseFrom(filter, key, start, value)
  {
  }

  lemma NoConjuncts()
    ensures ConjunctTests([]) == iset{}
  {
  }

  lemma NoClause(filter: seq<Entry>)
    requires filter == []
    ensures forall key, v :: ClauseFrom(filter, key, v, v)
  {
  }

  lemma {:induction false} CompileFromFacts(target: seq<Entry>, filter: seq<Entry>, out: seq<Entry>)
    requires Compiled(target) && DistinctKeys(filter) && (forall e :: e in filter ==> FilterEntryOk(e))
    requires CompileFrom(target, filter) == Ok(out)
    ensures Compiled(out)
    ensures TestsOf(out) <= TestsOf(target) + ConjunctTests(filter)
    ensures Consistent(TestsOf(target) + ConjunctTests(filter))
      ==> TestsOf(out) == TestsOf(target) + ConjunctTests(filter)
    ensures ClauseFrom(filter, "OR", Get(target, "$or"), Get(out, "$or"))
    ensures ClauseFrom(filter, "NOT", Get(target, "$not"), Get(out, "$not"))
    ensures forall e :: e in filter && e.key == "AND" ==> e.value.List? && forall c :: c in e.value.items ==> c.Dict?
    decreases |filter|
  {
    hide Consistent, Compiled, CompileEntry, FilterEntryOk, ClauseOf, EntryTests, ConjunctTests, TestsOf, ClauseFrom;
    if filter == [] {
      NoConjuncts();
      NoClause(filter);
    } else {
      var e, rest := filter[0], filter[1..];
      var next := CompileEntry(target, e).value;
      CompileEntryFacts(target, e, next);
      ConjunctTestsCons(filter);
      CompileFromFacts(next, rest, out);
      assert forall f :: f in filter ==> f == e || f in rest;
      ClauseFromCons(filter, "OR", Get(target, "$or"), Get(next, "$or"), Get(out, "$or"));
      ClauseFromCons(filter, "NOT", Get(target, "$not"), Get(next, "$not"), Get(out, "$not"));
      if Consistent(TestsOf(target) + ConjunctTests(filter)) {
        SmallerConsistent(TestsOf(target) + EntryTests(e), TestsOf(target) + ConjunctTests(filter));
        SmallerConsistent(TestsOf(next) + ConjunctTests(rest), TestsOf(target) + ConjunctTests(filter));
      }
    }
  }

  lemma ClauseMeaning(p: Answers, filter: seq<Entry>, out: seq<Entry>, key: string, clause: string)
    requires DistinctKeys(filter) && DistinctKeys(out)
    requires forall e :: e in filter ==> FilterEntryOk(e)
    requires key in LOGICAL && ClauseFrom(filter, key, None, Get(out, clause))
    ensures (exists e :: e in out && e.key == clause) <==> Has(filter, key)
    ensures forall e, f :: e in filter && e.key == key && f in out && f.key == clause ==>
              e.value.List? && f.value.List? && (AnySat(p, f.value.items) <==> AnySat(p, e.value.items))
  {
    if Has(filter, key) {
      var e := filter[Find(filter, key)];
      var f := out[Find(out, clause)];
      assert FilterEntryOk(e);
      CompileEachMeaning(p, e.value.items, f.value.items);
      forall g | g in filter && g.key == key ensures g == e { FindIn(filter, g); }
      forall g | g in out && g.key == clause ensures g == f { FindIn(out, g); }
    } else {
      forall e | e in filter ensures e.key != key { FindIn(filter, e); }
      forall f | f in out ensures f.key != clause { FindIn(out, f); }
    }
  }

  /** The entries of `d` under `key` are lists, and all agree on whether some item holds. */
  ghost predicate Asserts(p: Answers, d: seq<Entry>, key: string, sat: bool) {
    forall e :: e in d && e.key == key ==> e.value.List? && (AnySat(p, e.value.items) <==> sat)
  }

  lemma AssertsAlike(p: Answers, filter: seq<Entry>, out: seq<Entry>, key: string, clause: string, sat: bool)
    requires DistinctKeys(filter) && DistinctKeys(out)
    requires forall e :: e in filter ==> FilterEntryOk(e)
    requires key in LOGICAL && ClauseFrom(filter, key, None, Get(out, clause))
    ensures Asserts(p, out, clause, sat) <==> Asserts(p, filter, key, sat)
  {
    hide FilterEntryOk, ClauseFrom, AnySat;
    ClauseMeaning(p, filter, out, key, clause);
    forall e | e in filter && e.key == key ensures exists f :: f in out && f.key == clause { FindIn(filter, e); }
    forall f | f in out && f.key == clause ensures exists e :: e in filter && e.key == key {
      assert filter[Find(filter, key)] in filter;
    }
  }

  lemma ClausesMeaning(p: Answers, filter: seq<Entry>, out: seq<Entry>)
    requires DistinctKeys(filter) && DistinctKeys(out)
    requires forall e :: e in filter ==> FilterEntryOk(e)
    requires ClauseFrom(filter, "OR", None, Get(out, "$or")) && ClauseFrom(filter, "NOT", None, Get(out, "$not"))
    ensures ClausesSat(p, out, "$or", "$not") <==> ClausesSat(p, filter, "OR", "NOT")
  {
    hide FilterEntryOk, ClauseFrom, AnySat, DistinctKeys;
    AssertsAlike(p, filter, out, "OR", "$or", true);
    AssertsAlike(p, filter, out, "NOT", "$not", false);
    assert ClausesSat(p, out, "$or", "$not") <==> Asserts(p, out, "$or", true) && Asserts(p, out, "$not", false);
    assert ClausesSat(p, filter, "OR", "NOT") <==> Asserts(p, filter, "OR", true) && Asserts(p, filter, "NOT", false);
  }

  /** A filter asks its conjuncts and its two clauses. */
  lemma FilterSatSplit(p: Answers, filter: seq<Entry>)
    requires forall e :: e in filter && e.key == "AND" ==> e.value.List? && forall c :: c in e.value.items ==> c.Dict?
    ensures FilterSat(p, filter) <==>
              (forall t :: t in ConjunctTests(filter) ==> p(t)) && ClausesSat(p, filter, "OR", "NOT")
  {
  }

  lemma CompiledSatSplit(p: Answers, out: seq<Entry>)
    ensures CompiledSat(p, out) <==> (forall t :: t in TestsOf(out) ==> p(t)) && ClausesSat(p, out, "$or", "$not")
  {
    assert forall t :: t in TestsOf(out) <==> HasTest(out, t);
  }

  /** No two conjuncts ask the same field for different things: the same operator
      with two values, two values at once, or a value and an operator. */
  ghost predicate NoOverwrite(filter: seq<Entry>) {
    Consistent(ConjunctTests(filter))
  }

  lemma CompileFacts(filter: seq<Entry>, out: seq<Entry>)
    requires PlainFilter(filter) && Compile(filter) == Ok(out)
    ensures Compiled(out) && TestsOf(out) <= ConjunctTests(filter)
    ensures NoOverwrite(filter) ==> TestsOf(out) == ConjunctTests(filter)
    ensures ClauseFrom(filter, "OR", None, Get(out, "$or")) && ClauseFrom(filter, "NOT", None, Get(out, "$not"))
    ensures forall e :: e in filter && e.key == "AND" ==> e.value.List? && forall c :: c in e.value.items ==> c.Dict?
  {
    assert TestsOf([]) == iset{};
    assert TestsOf([]) + ConjunctTests(filter) == ConjunctTests(filter);
    CompileFromFacts([], filter, out);
  }

  /** With or without OR and NOT: the compiled filter asks all that the caller's conjuncts
      ask iff none of them overwrites another; it never asks more. */
  lemma ConjunctsKeptIff(filter: seq<Entry>, out: seq<Entry>)
    requires PlainFilter(filter) && Compile(filter) == Ok(out)
    ensures TestsOf(out) <= ConjunctTests(filter)
    ensures TestsOf(out) == ConjunctTests(filter) <==> NoOverwrite(filter)
  {
    hide Compiled, ClauseFrom, PlainFilter, ConjunctTests, TestsOf;
    CompileFacts(filter, out);
    CompiledIsConsistent(out);
  }

  /** The rewrite keeps the meaning of every filter whose conjuncts do not
      overwrite each other, and never rejects a payload the caller's filter accepts. */
  lemma RewritePreservesMeaning(p: Answers, filter: seq<Entry>, out: seq<Entry>)
    requires PlainFilter(filter) && Compile(filter) == Ok(out)
    ensures FilterSat(p, filter) ==> CompiledSat(p, out)
    ensures NoOverwrite(filter) ==> (CompiledSat(p, out) <==> FilterSat(p, filter))
  {
    CompileFacts(filter, out);
    ClausesMeaning(p, filter, out);
    FilterSatSplit(p, filter);
    CompiledSatSplit(p, out);
  }

  /** For a purely conjunctive filter that is exactly the condition: when two
      conjuncts do overwrite each other, some payload tells the difference. */
  lemma ConjunctionPreservedIff(filter: seq<Entry>, out: seq<Entry>)
    requires PlainFilter(filter) && Compile(filter) == Ok(out)
    requires !Has(filter, "OR") && !Has(filter, "NOT")
    ensures (forall p: Answers :: CompiledSat(p, out) <==> FilterSat(p, filter)) <==> NoOverwrite(filter)
  {
    CompileFacts(filter, out);
    if NoOverwrite(filter) {
      forall p: Answers ensures CompiledSat(p, out) <==> FilterSat(p, filter) {
        RewritePreservesMeaning(p, filter, out);
      }
    } else {
      CompiledIsConsistent(out);
      var lost :| lost in ConjunctTests(filter) && lost !in TestsOf(out);
      var p: Answers := t => t != lost;
      NoClauses(p, filter, out);
      FilterSatSplit(p, filter);
      CompiledSatSplit(p, out);
      assert CompiledSat(p, out) && !FilterSat(p, filter);
    }
  }

  lemma NoClauses(p: Answers, filter: seq<Entry>, out: seq<Entry>)
    requires DistinctKeys(filter) && DistinctKeys(out) && !Has(filter, "OR") && !Has(filter, "NOT")
    requires ClauseFrom(filter, "OR", None, Get(out, "$or")) && ClauseFrom(filter, "NOT", None, Get(out, "$not"))
    ensures ClausesSat(p, out, "$or", "$not") && ClausesSat(p, filter, "OR", "NOT")
  {
  }
}
