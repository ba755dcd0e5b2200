/** Filters whose nested conditions use logical keys: what the documentation means by them,
    exactly when the rewrite keeps that meaning, and when compiling twice changes nothing. */
module FilterNesting {
  import opened Wrappers
  import opened Filters
  import opened FilterMeaning
  import opened FilterSearch

  // ---------- meaning ----------

  /** A filter holds when all its entries do; a nested condition is a filter again. */
  ghost predicate DeepSat(p: Answers, filter: seq<Entry>)
    decreases filter
  {
    forall i :: 0 <= i < |filter| ==> DeepEntry(p, filter[i])
  }

  ghost predicate DeepEntry(p: Answers, e: Entry)
    decreases e
  {
    match e.key
    case "AND" => e.value.List? && forall i :: 0 <= i < |e.value.items| ==> DeepNode(p, e.value.items[i])
    case "OR" => e.value.List? && exists i :: 0 <= i < |e.value.items| && DeepNode(p, e.value.items[i])
    case "NOT" => e.value.List? && forall i :: 0 <= i < |e.value.items| ==> !DeepNode(p, e.value.items[i])
    case _ => forall t :: Asks(e, t) ==> p(t)
  }

  ghost predicate DeepNode(p: Answers, c: Node)
    decreases c
  {
    c.Dict? && DeepSat(p, c.entries)
  }

  lemma DeepPlain(p: Answers, e: Entry)
    requires e.key !in LOGICAL
    ensures DeepEntry(p, e) <==> forall t :: Asks(e, t) ==> p(t)
  {
  }

  lemma DeepPlainNode(p: Answers, c: Node)
    requires c.Dict? ==> PlainDict(c.entries)
    ensures DeepNode(p, c) <==> c.Dict? && PlainSat(p, c.entries)
  {
    if c.Dict? {
      forall i | 0 <= i < |c.entries|
        ensures DeepEntry(p, c.entries[i]) <==> forall t :: Asks(c.entries[i], t) ==> p(t)
      {
        assert PlainEntry(c.entries[i]);
        DeepPlain(p, c.entries[i]);
      }
    }
  }

  lemma DeepPlainEntry(p: Answers, e: Entry)
    requires if e.key in LOGICAL then e.value.List? ==> PlainItems(e.value.items) else PlainEntry(e)
    ensures DeepEntry(p, e) <==> EntrySat(p, e)
  {
    hide PlainDict, PlainSat;
    if e.key in LOGICAL && e.value.List? {
      var items := e.value.items;
      forall i | 0 <= i < |items| ensures DeepNode(p, items[i]) <==> items[i].Dict? && PlainSat(p, items[i].entries) {
        DeepPlainNode(p, items[i]);
      }
    }
  }

  /** Without nested logical keys the two meanings agree. */
  lemma DeepIsFlat(p: Answers, filter: seq<Entry>)
    requires PlainFilter(filter)
    ensures DeepSat(p, filter) <==> FilterSat(p, filter)
  {
    hide DeepEntry, EntrySat;
    forall i | 0 <= i < |filter| ensures DeepEntry(p, filter[i]) <==> EntrySat(p, filter[i]) {
      DeepPlainEntry(p, filter[i]);
    }
  }

  /** The meaning looks at no field named like a logical key. */
  lemma {:induction false} DeepIgnores(p: Answers, q: Answers, filter: seq<Entry>)
    requires forall t: Test :: t.key !in LOGICAL ==> p(t) == q(t)
    ensures DeepSat(p, filter) <==> DeepSat(q, filter)
    decreases filter
  {
    hide DeepEntry;
    forall i | 0 <= i < |filter| ensures DeepEntry(p, filter[i]) <==> DeepEntry(q, filter[i]) {
      DeepEntryIgnores(p, q, filter[i]);
    }
  }

  lemma {:induction false} DeepEntryIgnores(p: Answers, q: Answers, e: Entry)
    requires forall t: Test :: t.key !in LOGICAL ==> p(t) == q(t)
    ensures DeepEntry(p, e) <==> DeepEntry(q, e)
    decreases e
  {
    if e.key !in LOGICAL {
      DeepPlain(p, e);
      DeepPlain(q, e);
    } else if e.value.List? {
      forall i | 0 <= i < |e.value.items| ensures DeepNode(p, e.value.items[i]) <==> DeepNode(q, e.value.items[i]) {
        if e.value.items[i].Dict? { DeepIgnores(p, q, e.value.items[i].entries); }
      }
    }
  }

  // ---------- shapes ----------

  ghost predicate FieldEntry(e: Entry) { e.key !in CLAUSES && (e.value.Dict? ==> DistinctKeys(e.value.entries)) }

  ghost predicate FieldDict(d: seq<Entry>) { DistinctKeys(d) && forall e :: e in d ==> FieldEntry(e) }

  /** A Python dictionary without OR and NOT at the top, whose nested conditions may use any
      keys but the two that the compiler reserves. */
  ghost predicate ConjunctiveFilter(filter: seq<Entry>) {
    && FieldDict(filter)
    && forall e :: e in filter ==>
         e.key != "OR" && e.key != "NOT" && (e.key == "AND" && e.value.List? ==> FieldItems(e.value.items))
  }

  ghost predicate FieldItems(items: seq<Node>) {
    forall c :: c in items && c.Dict? ==> FieldDict(c.entries)
  }

  ghost predicate NestedLogical(filter: seq<Entry>, e: Entry, c: Node, x: Entry) {
    && e in filter && e.key == "AND" && e.value.List?
    && c in e.value.items && c.Dict? && x in c.entries && x.key in LOGICAL
  }

  /** No nested condition uses a logical key. */
  ghost predicate NoNesting(filter: seq<Entry>) {
    forall e, c, x :: !NestedLogical(filter, e, c, x)
  }

  lemma NoNestingIsPlain(filter: seq<Entry>)
    requires ConjunctiveFilter(filter) && NoNesting(filter)
    ensures PlainFilter(filter) && !Has(filter, "OR") && !Has(filter, "NOT")
  {
    forall e | e in filter && e.key == "AND" && e.value.List? ensures PlainItems(e.value.items) {
      forall c, x | c in e.value.items && c.Dict? && x in c.entries ensures PlainEntry(x) {
        assert FieldDict(c.entries) && FieldEntry(x) && !NestedLogical(filter, e, c, x);
      }
    }
    forall i | 0 <= i < |filter| ensures filter[i].key != "OR" && filter[i].key != "NOT" { assert filter[i] in filter; }
  }

  // ---------- what compilation leaves ----------

  /** No clause, and no empty operator dictionary. */
  ghost predicate FieldsOnly(d: seq<Entry>) {
    forall e :: e in d ==> e.key !in CLAUSES && e.value != Dict([])
  }

  lemma PutFieldsOnly(d: seq<Entry>, key: string, value: Node)
    requires FieldsOnly(d) && key !in CLAUSES && value != Dict([])
    ensures FieldsOnly(Put(d, key, value))
  {
    forall e | e in Put(d, key, value) ensures e in d || e == Entry(key, value) { }
  }

  lemma {:induction false} UpdateNotEmpty(d: seq<Entry>, more: seq<Entry>)
    requires more != []
    ensures Update(d, more) != []
    decreases |more|
  {
    if |more| > 1 { UpdateNotEmpty(Put(d, more[0].key, more[0].value), more[1..]); }
  }

  lemma AddConditionFields(target: seq<Entry>, e: Entry, next: seq<Entry>)
    requires FieldsOnly(target) && e.key !in CLAUSES && AddCondition(target, e.key, e.value) == Ok(next)
    ensures FieldsOnly(next)
  {
    var i := Find(target, e.key);
    if e.value.Dict? && e.value.entries != [] {
      PutFieldsOnly(target, e.key, e.value);
      if i < |target| && target[i].value.Dict? {
        UpdateNotEmpty(target[i].value.entries, e.value.entries);
        PutFieldsOnly(target, e.key, Dict(Update(target[i].value.entries, e.value.entries)));
      }
    } else if !e.value.Dict? {
      PutFieldsOnly(target, e.key, e.value);
    }
  }

  lemma {:induction false} AddConditionsFields(target: seq<Entry>, d: seq<Entry>, out: seq<Entry>)
    requires FieldsOnly(target) && (forall e :: e in d ==> e.key !in CLAUSES) && AddConditions(target, d) == Ok(out)
    ensures FieldsOnly(out)
    decreases |d|
  {
    if d != [] {
      var next := AddCondition(target, d[0].key, d[0].value).value;
      AddConditionFields(target, d[0], next);
      AddConditionsFields(next, d[1..], out);
    }
  }

  lemma {:induction false} AddAllFields(target: seq<Entry>, items: seq<Node>, out: seq<Entry>)
    requires FieldsOnly(target) && FieldItems(items) && AddAll(target, items) == Ok(out)
    ensures FieldsOnly(out)
    decreases |items|
  {
    if items != [] {
      var next := AddConditions(target, items[0].entries).value;
      assert FieldDict(items[0].entries) && FieldItems(items[1..]);
      AddConditionsFields(target, items[0].entries, next);
      AddAllFields(next, items[1..], out);
    }
  }

  lemma {:induction false} CompileFromFields(target: seq<Entry>, filter: seq<Entry>, out: seq<Entry>)
    requires FieldsOnly(target) && ConjunctiveFilter(filter) && CompileFrom(target, filter) == Ok(out)
    ensures FieldsOnly(out)
    decreases |filter|
  {
    if filter != [] {
      var e, next := filter[0], CompileEntry(target, filter[0]).value;
      assert e in filter && FieldEntry(e);
      if e.key == "AND" { AddAllFields(target, e.value.items, next); } else { AddConditionFields(target, e, next); }
      assert ConjunctiveFilter(filter[1..]);
      CompileFromFields(next, filter[1..], out);
    }
  }

  /** A nested key survives compilation, but for an empty operator dictionary. */
  lemma {:induction false} NestedKeyStays(target: seq<Entry>, filter: seq<Entry>, out: seq<Entry>, e: Entry, c: Node,
        x: Entry)
    requires CompileFrom(target, filter) == Ok(out) && NestedLogical(filter, e, c, x) && x.value != Dict([])
    ensures Has(out, x.key)
    decreases |filter|
  {
    var next := CompileEntry(target, filter[0]).value;
    if e == filter[0] {
      AddAllKeys(target, e.value.items, next, x.key);
      CompileFromKeys(next, filter[1..], out, x.key);
    } else {
      assert NestedLogical(filter[1..], e, c, x);
      NestedKeyStays(next, filter[1..], out, e, c, x);
    }
  }

  // ---------- exactly when the meaning is kept ----------

  /** An entry that is no empty dictionary asks something of its own field. */
  lemma AsksSomething(e: Entry) returns (t: Test)
    requires e.value != Dict([])
    ensures Asks(e, t) && t.key == e.key
  {
    t := if e.value.Dict? then Compare(e.key, e.value.entries[0].key, e.value.entries[0].value)
         else Equals(e.key, e.value);
    if e.value.Dict? { assert e.value.entries[0] in e.value.entries; }
  }

  /** A nested empty dictionary under a logical key satisfies nothing. */
  lemma EmptyNestedFails(p: Answers, filter: seq<Entry>, e: Entry, c: Node, x: Entry)
    requires NestedLogical(filter, e, c, x) && x.value == Dict([])
    ensures !DeepSat(p, filter)
  {
    assert !DeepEntry(p, x);
    var k :| 0 <= k < |c.entries| && c.entries[k] == x;
    assert !DeepNode(p, c);
    var n :| 0 <= n < |e.value.items| && e.value.items[n] == c;
    assert !DeepEntry(p, e);
  }

  /** With a nested logical key some payload tells the compiled filter from the caller's. */
  lemma NestingLosesMeaning(filter: seq<Entry>, out: seq<Entry>, e: Entry, c: Node, x: Entry) returns (p: Answers)
    requires ConjunctiveFilter(filter) && Compile(filter) == Ok(out) && NestedLogical(filter, e, c, x)
    ensures CompiledSat(p, out) != DeepSat(p, filter)
  {
    hide DeepSat, ConjunctiveFilter, Compile, NestedLogical;
    CompileFields(filter, out);
    if q: Answers :| DeepSat(q, filter) {
      p := t => q(t) && t.key !in LOGICAL;
      DeepIgnores(p, q, filter);
      LogicalFieldFails(q, p, filter, out, e, c, x);
    } else {
      p := t => true;
    }
  }

  lemma CompileFields(filter: seq<Entry>, out: seq<Entry>)
    requires ConjunctiveFilter(filter) && Compile(filter) == Ok(out)
    ensures FieldsOnly(out)
  {
    CompileFromFields([], filter, out);
  }

  lemma LogicalFieldFails(q: Answers, p: Answers, filter: seq<Entry>, out: seq<Entry>, e: Entry, c: Node, x: Entry)
    requires Compile(filter) == Ok(out) && NestedLogical(filter, e, c, x) && FieldsOnly(out) && DeepSat(q, filter)
    requires forall t: Test :: t.key in LOGICAL ==> !p(t)
    ensures !CompiledSat(p, out)
  {
    if x.value == Dict([]) { EmptyNestedFails(q, filter, e, c, x); }
    NestedKeyStays([], filter, out, e, c, x);
    var o := out[Find(out, x.key)];
    assert o in out;
    var t := AsksSomething(o);
  }

  /** The rewrite keeps the documented meaning of a conjunctive filter for every payload iff no
      nested condition uses a logical key and no two conjuncts overwrite each other. */
  lemma NestedMeaningKeptIff(filter: seq<Entry>, out: seq<Entry>)
    requires ConjunctiveFilter(filter) && Compile(filter) == Ok(out)
    ensures (forall p: Answers :: CompiledSat(p, out) <==> DeepSat(p, filter))
      <==> NoNesting(filter) && NoOverwrite(filter)
  {
    hide DeepSat, FilterSat, ConjunctiveFilter, Compile, NestedLogical, NoOverwrite, PlainFilter, CompiledSat;
    if NoNesting(filter) {
      NoNestingIsPlain(filter);
      ConjunctionPreservedIff(filter, out);
      forall p: Answers ensures DeepSat(p, filter) <==> FilterSat(p, filter) { DeepIsFlat(p, filter); }
    } else {
      var e, c, x :| NestedLogical(filter, e, c, x);
      var p := NestingLosesMeaning(filter, out, e, c, x);
    }
  }

  /** With OR and NOT too, a filter without nested logical keys keeps its documented meaning. */
  lemma RewriteKeepsDocumentedMeaning(p: Answers, filter: seq<Entry>, out: seq<Entry>)
    requires PlainFilter(filter) && Compile(filter) == Ok(out)
    ensures DeepSat(p, filter) ==> CompiledSat(p, out)
    ensures NoOverwrite(filter) ==> (CompiledSat(p, out) <==> DeepSat(p, filter))
  {
    DeepIsFlat(p, filter);
    RewritePreservesMeaning(p, filter, out);
  }

  // ---------- exactly when compiling twice changes nothing ----------

  /** Compiling condition `x` can have left the entry `o`. */
  ghost predicate Gives(x: Entry, o: Entry) {
    x.key == o.key && x.value != Dict([]) && (o.value.Dict? || x.value == o.value)
  }

  ghost predicate GivenBy(d: seq<Entry>, o: Entry) { exists x :: x in d && Gives(x, o) }

  ghost predicate GivenByItem(items: seq<Node>, o: Entry) {
    exists c :: c in items && c.Dict? && GivenBy(c.entries, o)
  }

  /** A logical key of the compiled filter comes from one nested in an AND. */
  ghost predicate GivenByNested(filter: seq<Entry>, o: Entry) {
    exists e, c, x :: NestedLogical(filter, e, c, x) && Gives(x, o)
  }

  lemma AddConditionSource(target: seq<Entry>, x: Entry, next: seq<Entry>, o: Entry)
    requires AddCondition(target, x.key, x.value) == Ok(next) && o in next
    ensures o in target || Gives(x, o)
  {
  }

  lemma {:induction false} AddConditionsSource(target: seq<Entry>, d: seq<Entry>, out: seq<Entry>, o: Entry)
    requires AddConditions(target, d) == Ok(out) && o in out
    ensures o in target || GivenBy(d, o)
    decreases |d|
  {
    hide AddCondition, Gives;
    if d != [] {
      var next := AddCondition(target, d[0].key, d[0].value).value;
      AddConditionsSource(next, d[1..], out, o);
      if o in next {
        AddConditionSource(target, d[0], next, o);
      } else {
        var x :| x in d[1..] && Gives(x, o);
        assert x in d;
      }
    }
  }

  lemma {:induction false} AddAllSource(target: seq<Entry>, items: seq<Node>, out: seq<Entry>, o: Entry)
    requires AddAll(target, items) == Ok(out) && o in out
    ensures o in target || GivenByItem(items, o)
    decreases |items|
  {
    hide AddConditions, GivenBy;
    if items != [] {
      var next := AddConditions(target, items[0].entries).value;
      AddAllSource(next, items[1..], out, o);
      if o in next {
        AddConditionsSource(target, items[0].entries, next, o);
      } else {
        var c :| c in items[1..] && c.Dict? && GivenBy(c.entries, o);
        assert c in items;
      }
    }
  }

  lemma CompileEntrySource(target: seq<Entry>, filter: seq<Entry>, next: seq<Entry>, o: Entry)
    requires filter != [] && CompileEntry(target, filter[0]) == Ok(next) && o in next && o.key in LOGICAL
    ensures o in target || GivenByNested(filter, o)
  {
    hide AddAll, AddCondition, CompileEach;
    var e := filter[0];
    if e.key == "AND" {
      AddAllSource(target, e.value.items, next, o);
      if o !in target {
        var c :| c in e.value.items && c.Dict? && GivenBy(c.entries, o);
        var x :| x in c.entries && Gives(x, o);
        assert NestedLogical(filter, e, c, x);
      }
    } else if e.key != "OR" && e.key != "NOT" {
      AddConditionSource(target, e, next, o);
    }
  }

  lemma {:induction false} LogicalSource(target: seq<Entry>, filter: seq<Entry>, out: seq<Entry>, o: Entry)
    requires CompileFrom(target, filter) == Ok(out) && o in out && o.key in LOGICAL
    ensures o in target || GivenByNested(filter, o)
    decreases |filter|
  {
    hide CompileEntry, Gives;
    if filter != [] {
      var next := CompileEntry(target, filter[0]).value;
      LogicalSource(next, filter[1..], out, o);
      if o in next {
        CompileEntrySource(target, filter, next, o);
      } else {
        var e, c, x :| NestedLogical(filter[1..], e, c, x) && Gives(x, o);
        assert NestedLogical(filter, e, c, x);
      }
    }
  }

  /** No list is nested in itself. */
  lemma NotInItself(v: Node, c: Node, x: Entry)
    requires v.List? && c in v.items && c.Dict? && x in c.entries
    ensures x.value != v
  {
    assert v decreases to c;
    assert c decreases to x;
    assert x decreases to x.value;
  }

  lemma AndIsNotItsOwn(d: seq<Entry>, e: Entry)
    requires DistinctKeys(d) && e in d && e.key == "AND" && e.value.List?
    ensures !GivenByNested(d, e)
  {
    forall e', c, x | NestedLogical(d, e', c, x) ensures !Gives(x, e) {
      assert e' == e;
      NotInItself(e.value, c, x);
    }
  }

  /** So a filter with a logical key does not compile to itself: its AND would have to hold
      itself. */
  lemma LogicalIsNotFixed(d: seq<Entry>, o: Entry)
    requires DistinctKeys(d) && o in d && o.key in LOGICAL
    ensures Compile(d) != Ok(d)
  {
    hide CompileFrom;
    if Compile(d) == Ok(d) {
      LogicalSource([], d, d, o);
      var e, c, x :| NestedLogical(d, e, c, x) && Gives(x, o);
      AndIsNotItsOwn(d, e);
      LogicalSource([], d, d, e);
    }
  }

  /** Compiling a compiled filter gives it back, entry for entry, iff the caller's filter has no
      logical key inside an AND, empty dictionaries apart. */
  lemma RewriteIsIdempotentIff(filter: seq<Entry>, out: seq<Entry>)
    requires Compile(filter) == Ok(out)
    ensures Compile(out) == Ok(out)
       <==> forall e, c, x :: NestedLogical(filter, e, c, x) ==> x.value == Dict([])
  {
    hide CompileFrom, NestedLogical, Settled;
    CompileFromSettles([], filter, out);
    if o :| o in out && o.key in LOGICAL {
      LogicalIsNotFixed(out, o);
      LogicalSource([], filter, out, o);
    } else {
      SettledIsFixed(out, 0);
      assert out[..0] == [] && out[0..] == out;
      forall e, c, x | NestedLogical(filter, e, c, x) ensures x.value == Dict([]) {
        if x.value != Dict([]) { var o := LogicalStays(filter, out, e, c, x); }
      }
    }
  }

  lemma LogicalStays(filter: seq<Entry>, out: seq<Entry>, e: Entry, c: Node, x: Entry) returns (o: Entry)
    requires Compile(filter) == Ok(out) && NestedLogical(filter, e, c, x) && x.value != Dict([])
    ensures o in out && o.key in LOGICAL
  {
    NestedKeyStays([], filter, out, e, c, x);
    o := out[Find(out, x.key)];
  }
}
