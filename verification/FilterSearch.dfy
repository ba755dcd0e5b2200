/** Which filters compile, what a compiled filter looks like, and the dictionary that
    `search` hands to the vector store. */
module FilterSearch {
  import opened Wrappers
  import opened Filters
  import opened FilterMeaning

  // ---------- which filters compile ----------

  predicate Supported(condition: Node) {
    condition.Dict? ==> forall o | o in condition.entries :: o.key in OPERATORS
  }

  predicate SupportedDict(c: Node) {
    c.Dict? && forall e | e in c.entries :: Supported(e.value)
  }

  predicate WellShaped(e: Entry) {
    if e.key == "AND" then e.value.List? && forall c | c in e.value.items :: SupportedDict(c)
    else if e.key in LOGICAL then
      e.value.List? && e.value.items != [] && forall c | c in e.value.items :: SupportedDict(c)
    else Supported(e.value)
  }

  lemma {:induction false} AddConditionsSucceed(target: seq<Entry>, d: seq<Entry>)
    ensures AddConditions(target, d).Ok? <==> forall e :: e in d ==> Supported(e.value)
    ensures AddConditions(target, d).Err? ==> AddConditions(target, d).error == UnsupportedOperator
    decreases |d|
  {
    if d != [] {
      var r := AddCondition(target, d[0].key, d[0].value);
      assert r.Ok? <==> Supported(d[0].value);
      if r.Ok? { AddConditionsSucceed(r.value, d[1..]); }
      assert forall e :: e in d <==> e == d[0] || e in d[1..];
    }
  }

  lemma {:induction false} AddAllSucceeds(target: seq<Entry>, items: seq<Node>)
    ensures AddAll(target, items).Ok? <==> forall c :: c in items ==> SupportedDict(c)
    decreases |items|
  {
    if items != [] {
      assert items[0] in items && forall c :: c in items <==> c == items[0] || c in items[1..];
      assert SupportedDict(items[0]) <==> items[0].Dict? && forall e :: e in items[0].entries ==> Supported(e.value);
      if items[0].Dict? {
        var r := AddConditions(target, items[0].entries);
        AddConditionsSucceed(target, items[0].entries);
        if r.Ok? { AddAllSucceeds(r.value, items[1..]); }
      }
    }
  }

  lemma {:induction false} CompileEachSucceeds(items: seq<Node>)
    ensures CompileEach(items).Ok? <==> forall c :: c in items ==> SupportedDict(c)
    decreases |items|
  {
    if items != [] {
      assert items[0] in items && forall c :: c in items <==> c == items[0] || c in items[1..];
      assert SupportedDict(items[0]) <==> items[0].Dict? && forall e :: e in items[0].entries ==> Supported(e.value);
      if items[0].Dict? {
        AddConditionsSucceed([], items[0].entries);
        CompileEachSucceeds(items[1..]);
      }
    }
  }

  lemma CompileEntrySucceeds(target: seq<Entry>, e: Entry)
    ensures CompileEntry(target, e).Ok? <==> WellShaped(e)
  {
    if e.value.List? {
      AddAllSucceeds(target, e.value.items);
      CompileEachSucceeds(e.value.items);
    }
  }

  lemma {:induction false} CompileFromSucceeds(target: seq<Entry>, filter: seq<Entry>)
    ensures CompileFrom(target, filter).Ok? <==> forall e :: e in filter ==> WellShaped(e)
    decreases |filter|
  {
    if filter != [] {
      var r := CompileEntry(target, filter[0]);
      CompileEntrySucceeds(target, filter[0]);
      if r.Ok? { CompileFromSucceeds(r.value, filter[1..]); }
      assert forall e :: e in filter <==> e == filter[0] || e in filter[1..];
    }
  }

  /** A filter compiles iff every entry is well shaped; otherwise the call raises. */
  lemma CompilesIff(filter: seq<Entry>)
    ensures Compile(filter).Ok? <==> forall e :: e in filter ==> WellShaped(e)
  {
    CompileFromSucceeds([], filter);
  }

  /** A comparison of one field compiles iff its operator is one of the ten documented ones. */
  lemma OperatorsAre(key: string, op: string, v: Node)
    requires key !in LOGICAL
    ensures Compile([Entry(key, Dict([Entry(op, v)]))]).Ok?
       <==> op in {"eq", "ne", "gt", "gte", "lt", "lte", "in", "nin", "contains", "icontains"}
  {
    hide Compile, CompileFrom;
    var o, e := Entry(op, v), Entry(key, Dict([Entry(op, v)]));
    CompilesIff([e]);
    assert o in [o] && e in [e];
  }

  // ---------- compiled filters ----------

  lemma FreshKey(d: seq<Entry>, i: nat)
    requires DistinctKeys(d) && i < |d|
    ensures Find(d[..i], d[i].key) == i
  {
  }

  /** No condition that the compiler would drop or refuse. */
  ghost predicate Settled(e: Entry) {
    e.value.Dict? ==> e.value.entries != [] && forall o :: o in e.value.entries ==> o.key in OPERATORS
  }

  ghost predicate SettledDict(d: seq<Entry>) {
    DistinctKeys(d) && forall e :: e in d ==> Settled(e)
  }

  lemma {:induction false} UpdateSettles(d: seq<Entry>, more: seq<Entry>)
    requires Settled(Entry("", Dict(d))) && Settled(Entry("", Dict(more)))
    ensures Settled(Entry("", Dict(Update(d, more))))
    decreases |more|
  {
    var next := Put(d, more[0].key, more[0].value);
    forall o | o in next ensures o in d || o == Entry(more[0].key, more[0].value) { }
    if |more| > 1 {
      UpdateSettles(next, more[1..]);
    } else {
      assert Update(d, more) == Update(next, []);
    }
  }

  lemma AddConditionSettles(target: seq<Entry>, key: string, condition: Node, next: seq<Entry>)
    requires SettledDict(target) && AddCondition(target, key, condition) == Ok(next)
    ensures SettledDict(next)
  {
    var i := Find(target, key);
    PutFacts(target, key, condition);
    if condition.Dict? && condition.entries != [] && i < |target| && target[i].value.Dict? {
      assert Settled(target[i]);
      UpdateSettles(target[i].value.entries, condition.entries);
      PutFacts(target, key, Dict(Update(target[i].value.entries, condition.entries)));
    }
  }

  lemma {:induction false} AddConditionsSettle(target: seq<Entry>, d: seq<Entry>, out: seq<Entry>)
    requires SettledDict(target) && AddConditions(target, d) == Ok(out)
    ensures SettledDict(out)
    decreases |d|
  {
    hide SettledDict, AddCondition;
    if d != [] {
      var next := AddCondition(target, d[0].key, d[0].value).value;
      AddConditionSettles(target, d[0].key, d[0].value, next);
      AddConditionsSettle(next, d[1..], out);
    }
  }

  lemma {:induction false} AddAllSettles(target: seq<Entry>, items: seq<Node>, out: seq<Entry>)
    requires SettledDict(target) && AddAll(target, items) == Ok(out)
    ensures SettledDict(out)
    decreases |items|
  {
    hide SettledDict, AddConditions;
    if items != [] {
      var next := AddConditions(target, items[0].entries).value;
      AddConditionsSettle(target, items[0].entries, next);
      AddAllSettles(next, items[1..], out);
    }
  }

  /** What any compiled filter looks like, whatever the keys of the caller's. */
  lemma {:induction false} CompileFromSettles(target: seq<Entry>, filter: seq<Entry>, out: seq<Entry>)
    requires SettledDict(target) && CompileFrom(target, filter) == Ok(out)
    ensures SettledDict(out)
    decreases |filter|
  {
    hide AddAll, AddCondition, CompileEach;
    if filter != [] {
      var e, next := filter[0], CompileEntry(target, filter[0]).value;
      if e.key == "AND" {
        AddAllSettles(target, e.value.items, next);
      } else if e.key == "OR" || e.key == "NOT" {
        PutFacts(target, if e.key == "OR" then "$or" else "$not", List(CompileEach(e.value.items).value));
      } else {
        AddConditionSettles(target, e.key, e.value, next);
      }
      CompileFromSettles(next, filter[1..], out);
    }
  }

  /** A settled filter without logical keys compiles to itself, entry for entry. */
  lemma {:induction false} SettledIsFixed(out: seq<Entry>, i: nat)
    requires SettledDict(out) && (forall e :: e in out ==> e.key !in LOGICAL) && i <= |out|
    ensures CompileFrom(out[..i], out[i..]) == Ok(out)
    decreases |out| - i
  {
    if i == |out| {
      assert out[..i] == out && out[i..] == [];
    } else {
      assert Settled(out[i]) && out[i..][0] == out[i] && out[i..][1..] == out[i + 1..];
      FreshKey(out, i);
      assert out[..i] + [out[i]] == out[..i + 1];
      assert CompileEntry(out[..i], out[i]) == Ok(out[..i + 1]);
      SettledIsFixed(out, i + 1);
    }
  }

  /** A logical key nested in an AND is compiled to an equality test on a field of that name. */
  lemma NestedOrBecomesField(p: Answers, items: seq<Node>)
    ensures var filter := [Entry("AND", List([Dict([Entry("OR", List(items))])]))];
            var out := [Entry("OR", List(items))];
            Compile(filter) == Ok(out) && (CompiledSat(p, out) <==> p(Equals("OR", List(items))))
  {
    var inner := [Entry("OR", List(items))];
    var filter := [Entry("AND", List([Dict(inner)]))];
    var none: seq<Entry> := [];
    assert none + inner == inner && Put(none, "OR", List(items)) == inner;
    assert AddCondition([], "OR", List(items)) == Ok(inner) && inner[1..] == [];
    assert AddConditions([], inner) == AddConditions(inner, inner[1..]) == Ok(inner);
    assert [Dict(inner)][1..] == [] && filter[1..] == [];
    assert AddAll([], [Dict(inner)]) == AddAll(inner, [Dict(inner)][1..]) == Ok(inner);
    assert CompileFrom([], filter) == CompileFrom(inner, filter[1..]) == Ok(inner);
    assert inner[0] in inner && Asks(inner[0], Equals("OR", List(items)));
  }

  // ---------- what `search` sends ----------

  const PROTECTED: set<string> := {"user_id", "agent_id", "run_id"}

  lemma HeadNotLater(d: seq<Entry>)
    requires d != [] && DistinctKeys(d)
    ensures !Has(d[1..], d[0].key)
  {
    forall i | 0 <= i < |d[1..]| ensures d[1..][i].key != d[0].key { }
  }

  lemma {:induction false} UpdateGet(d: seq<Entry>, more: seq<Entry>, k: string)
    requires DistinctKeys(more)
    ensures Get(Update(d, more), k) == if Has(more, k) then Get(more, k) else Get(d, k)
    decreases |more|
  {
    if more != [] {
      var m, rest := more[0], more[1..];
      GetPut(d, m.key, m.value, k);
      UpdateGet(Put(d, m.key, m.value), rest, k);
      GetCons(more, k);
      HeadNotLater(more);
    }
  }

  /** The entries that were reprocessed: logical keys and operator dictionaries. */
  predicate Popped(e: Entry) {
    e.key in LOGICAL || (e.key !in PROTECTED && e.value.Dict?)
  }

  function PopAll(d: seq<Entry>): seq<Entry> {
    if d == [] then [] else if Popped(d[0]) then PopAll(d[1..]) else [d[0]] + PopAll(d[1..])
  }

  lemma {:induction false} PopAllGet(d: seq<Entry>, k: string)
    requires DistinctKeys(d)
    ensures Get(PopAll(d), k)
      == match Get(d, k) case None => None case Some(v) => if Popped(Entry(k, v)) then None else Some(v)
  {
    if d != [] {
      PopAllGet(d[1..], k);
      GetCons(d, k);
      if !Popped(d[0]) { GetCons(PopAll(d), k); }
      if d[0].key == k { NotInTail(d); }
    }
  }

  lemma NotInTail(d: seq<Entry>)
    requires DistinctKeys(d) && d != []
    ensures Get(d[1..], d[0].key) == None
  {
    forall j | 0 <= j < |d| - 1 ensures d[1..][j].key != d[0].key { assert d[1..][j] == d[j + 1]; }
  }

  /** Keys survive compilation. */
  lemma AddConditionKeys(target: seq<Entry>, e: Entry, next: seq<Entry>, k: string)
    requires AddCondition(target, e.key, e.value) == Ok(next)
    ensures Has(target, k) ==> Has(next, k)
    ensures e.value != Dict([]) ==> Has(next, e.key)
  {
    forall v ensures Has(Put(target, e.key, v), e.key) && (Has(target, k) ==> Has(Put(target, e.key, v), k)) {
      GetPut(target, e.key, v, k);
      GetPut(target, e.key, v, e.key);
    }
  }

  lemma {:induction false} AddConditionsKeys(target: seq<Entry>, d: seq<Entry>, out: seq<Entry>, k: string)
    requires AddConditions(target, d) == Ok(out)
    ensures Has(target, k) ==> Has(out, k)
    ensures forall e :: e in d && e.key == k && e.value != Dict([]) ==> Has(out, k)
    decreases |d|
  {
    if d != [] {
      var next := AddCondition(target, d[0].key, d[0].value).value;
      AddConditionKeys(target, d[0], next, k);
      AddConditionsKeys(next, d[1..], out, k);
      assert forall e :: e in d ==> e == d[0] || e in d[1..];
    }
  }

  lemma {:induction false} AddAllKeys(target: seq<Entry>, items: seq<Node>, out: seq<Entry>, k: string)
    requires AddAll(target, items) == Ok(out)
    ensures Has(target, k) ==> Has(out, k)
    ensures forall c, e :: c in items && c.Dict? && e in c.entries && e.key == k && e.value != Dict([]) ==> Has(out, k)
    decreases |items|
  {
    if items != [] {
      var next := AddConditions(target, items[0].entries).value;
      AddConditionsKeys(target, items[0].entries, next, k);
      AddAllKeys(next, items[1..], out, k);
      assert forall c :: c in items ==> c == items[0] || c in items[1..];
    }
  }

  lemma CompileEntryKeys(target: seq<Entry>, e: Entry, next: seq<Entry>, k: string)
    requires CompileEntry(target, e) == Ok(next)
    ensures Has(target, k) ==> Has(next, k)
    ensures e.key !in LOGICAL && e.value != Dict([]) ==> Has(next, e.key)
  {
    if e.key == "AND" {
      AddAllKeys(target, e.value.items, next, k);
    } else if e.key == "OR" || e.key == "NOT" {
      GetPut(target, if e.key == "OR" then "$or" else "$not", List(CompileEach(e.value.items).value), k);
    } else {
      AddConditionKeys(target, e, next, k);
    }
  }

  lemma {:induction false} CompileFromKeys(target: seq<Entry>, filter: seq<Entry>, out: seq<Entry>, k: string)
    requires CompileFrom(target, filter) == Ok(out)
    ensures Has(target, k) ==> Has(out, k)
    ensures forall e :: e in filter && e.key == k && k !in LOGICAL && e.value != Dict([]) ==> Has(out, k)
    decreases |filter|
  {
    if filter != [] {
      var next := CompileEntry(target, filter[0]).value;
      CompileEntryKeys(target, filter[0], next, k);
      CompileFromKeys(next, filter[1..], out, k);
      assert forall e :: e in filter ==> e == filter[0] || e in filter[1..];
    }
  }

  /** The dictionary `search` sends when the filter needed compiling. */
  function SearchFilters(filters: seq<Entry>, processed: seq<Entry>): seq<Entry> {
    Update(PopAll(filters), processed)
  }

  /** What `search` has made sure of before it compiles: session ids are trimmed strings. */
  predicate IdsValidated(filters: seq<Entry>) {
    forall k | k in PROTECTED :: Get(filters, k).Some? ==> !Get(filters, k).value.Dict?
  }

  /** It holds exactly the compiled entries. */
  lemma SearchSendsCompiled(filters: seq<Entry>, out: seq<Entry>, k: string)
    requires DistinctKeys(filters) && IdsValidated(filters) && Compile(filters) == Ok(out)
    ensures Get(SearchFilters(filters, out), k) == Get(out, k)
  {
    CompileFromSettles([], filters, out);
    UpdateGet(PopAll(filters), out, k);
    PopAllGet(filters, k);
    CompileFromKeys([], filters, out, k);
    if Has(filters, k) { assert filters[Find(filters, k)] in filters; }
  }
}
