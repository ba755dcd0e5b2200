/** The loops of `_process_metadata_filters` and of its caller in `search`. */
module FilterCompiler {
  import opened Wrappers
  import opened Filters
  import opened FilterSearch

  /** Python dictionaries have distinct keys, at every level the compiler looks at. */
  ghost predicate OperatorDicts(d: seq<Entry>) {
    forall e :: e in d && e.value.Dict? ==> DistinctKeys(e.value.entries)
  }

  ghost predicate PythonItems(items: seq<Node>) {
    forall c :: c in items && c.Dict? ==> OperatorDicts(c.entries)
  }

  ghost predicate PythonFilter(filter: seq<Entry>) {
    OperatorDicts(filter) && forall e :: e in filter && e.value.List? ==> PythonItems(e.value.items)
  }

  lemma PutNew(d: seq<Entry>, i: nat)
    requires DistinctKeys(d) && i < |d|
    ensures Put(d[..i], d[i].key, d[i].value) == d[..i + 1]
  {
  }

  /** `process_condition` */
  method ProcessCondition(key: string, condition: Node) returns (r: Result<seq<Entry>, Error>)
    requires condition.Dict? ==> DistinctKeys(condition.entries)
    ensures r == if !Supported(condition) then Err(UnsupportedOperator)
                 else if condition == Dict([]) then Ok([])
                 else Ok([Entry(key, condition)])
  {
    if !condition.Dict? { return Ok([Entry(key, condition)]); }
    var ops: seq<Entry> := [];
    var i := 0;
    while i < |condition.entries|
      invariant 0 <= i <= |condition.entries| && ops == condition.entries[..i]
      invariant forall k :: 0 <= k < i ==> condition.entries[k].key in OPERATORS
    {
      var o := condition.entries[i];
      if o.key in OPERATORS {
        PutNew(condition.entries, i);
        ops := Put(ops, o.key, o.value);
      } else {
        assert o in condition.entries;
        return Err(UnsupportedOperator);
      }
      i := i + 1;
    }
    assert ops == condition.entries;
    r := Ok(if ops == [] then [] else [Entry(key, Dict(ops))]);
  }

  /** `merge_filters` */
  method MergeFilters(target: seq<Entry>, source: seq<Entry>) returns (merged: seq<Entry>)
    requires |source| <= 1
    requires source != [] && source[0].value.Dict? ==> source[0].value.entries != []
    requires source != [] ==> Supported(source[0].value)
    ensures Ok(merged) == if source == [] then Ok(target) else AddCondition(target, source[0].key, source[0].value)
  {
    merged := target;
    for i := 0 to |source|
      invariant i == 0 ==> merged == target
      invariant i == 1 ==> Ok(merged) == AddCondition(target, source[0].key, source[0].value)
    {
      var e := source[i];
      var k := Find(merged, e.key);
      if k < |merged| && merged[k].value.Dict? && e.value.Dict? {
        merged := Put(merged, e.key, Dict(Update(merged[k].value.entries, e.value.entries)));
      } else {
        merged := Put(merged, e.key, e.value);
      }
    }
  }

  lemma AddConditionCases(target: seq<Entry>, key: string, condition: Node)
    ensures !Supported(condition) ==> AddCondition(target, key, condition) == Err(UnsupportedOperator)
    ensures condition == Dict([]) ==> AddCondition(target, key, condition) == Ok(target)
  {
  }

  /** The inner loop shared by AND, OR and NOT. */
  method MergeConditions(start: seq<Entry>, conditions: seq<Entry>) returns (r: Result<seq<Entry>, Error>)
    requires OperatorDicts(conditions)
    ensures r == AddConditions(start, conditions)
  {
    hide AddCondition, Supported;
    var target := start;
    var i := 0;
    assert conditions[0..] == conditions;
    while i < |conditions|
      invariant 0 <= i <= |conditions|
      invariant AddConditions(target, conditions[i..]) == AddConditions(start, conditions)
    {
      var e := conditions[i];
      assert e in conditions && conditions[i..][0] == e && conditions[i..][1..] == conditions[i + 1..];
      AddConditionCases(target, e.key, e.value);
      var processed := ProcessCondition(e.key, e.value);
      if processed.Err? { return Err(processed.error); }
      target := MergeFilters(target, processed.value);
      i := i + 1;
    }
    r := Ok(target);
  }

  method MergeAll(start: seq<Entry>, items: seq<Node>) returns (r: Result<seq<Entry>, Error>)
    requires PythonItems(items)
    ensures r == AddAll(start, items)
  {
    var target := start;
    var i := 0;
    assert items[0..] == items;
    while i < |items|
      invariant 0 <= i <= |items|
      invariant AddAll(target, items[i..]) == AddAll(start, items)
    {
      assert items[i] in items && items[i..][0] == items[i] && items[i..][1..] == items[i + 1..];
      if !items[i].Dict? { return Err(NotADict); }
      var next := MergeConditions(target, items[i].entries);
      if next.Err? { return next; }
      target := next.value;
      i := i + 1;
    }
    r := Ok(target);
  }

  function After(clauses: seq<Node>, rest: Result<seq<Node>, Error>): Result<seq<Node>, Error> {
    match rest case Ok(more) => Ok(clauses + more) case Err(e) => Err(e)
  }

  lemma CompileEachSplit(clauses: seq<Node>, items: seq<Node>, i: nat)
    requires i < |items|
    ensures After(clauses, CompileEach(items[i..])) ==
            if !items[i].Dict? then Err(NotADict) else
            match AddConditions([], items[i].entries)
            case Ok(first) => After(clauses + [Dict(first)], CompileEach(items[i + 1..]))
            case Err(e) => Err(e)
  {
    assert items[i..][0] == items[i] && items[i..][1..] == items[i + 1..];
    if items[i].Dict? && AddConditions([], items[i].entries).Ok? && CompileEach(items[i + 1..]).Ok? {
      var first, rest := Dict(AddConditions([], items[i].entries).value), CompileEach(items[i + 1..]).value;
      assert clauses + ([first] + rest) == clauses + [first] + rest;
    }
  }

  /** The clauses of OR and NOT, each merged into a dictionary of its own. */
  method MergeEach(items: seq<Node>) returns (r: Result<seq<Node>, Error>)
    requires PythonItems(items)
    ensures r == CompileEach(items)
  {
    var clauses: seq<Node> := [];
    var i := 0;
    assert items[0..] == items;
    assert CompileEach(items).Ok? ==> clauses + CompileEach(items).value == CompileEach(items).value;
    while i < |items|
      invariant 0 <= i <= |items|
      invariant After(clauses, CompileEach(items[i..])) == CompileEach(items)
    {
      assert items[i] in items;
      CompileEachSplit(clauses, items, i);
      if !items[i].Dict? { return Err(NotADict); }
      var first := MergeConditions([], items[i].entries);
      if first.Err? { return Err(first.error); }
      clauses := clauses + [Dict(first.value)];
      i := i + 1;
    }
    assert clauses + [] == clauses;
    r := Ok(clauses);
  }

  /** `_process_metadata_filters` */
  method ProcessMetadataFilters(filter: seq<Entry>) returns (r: Result<seq<Entry>, Error>)
    requires PythonFilter(filter)
    ensures r == Compile(filter)
  {
    var target: seq<Entry> := [];
    var i := 0;
    assert filter[0..] == filter;
    while i < |filter|
      invariant 0 <= i <= |filter|
      invariant CompileFrom(target, filter[i..]) == Compile(filter)
    {
      var e := filter[i];
      assert e in filter && filter[i..][0] == e && filter[i..][1..] == filter[i + 1..];
      if e.key == "AND" {
        if !e.value.List? { return Err(BadAnd); }
        var next := MergeAll(target, e.value.items);
        if next.Err? { return next; }
        target := next.value;
      } else if e.key == "OR" || e.key == "NOT" {
        if !e.value.List? || e.value.items == [] { return Err(if e.key == "OR" then BadOr else BadNot); }
        var clauses := MergeEach(e.value.items);
        if clauses.Err? { return Err(clauses.error); }
        target := Put(target, if e.key == "OR" then "$or" else "$not", List(clauses.value));
      } else {
        var next := MergeConditions(target, [e]);
        assert AddConditions(target, [e]) == AddCondition(target, e.key, e.value) by { AddConditionsOne(target, e); }
        if next.Err? { return next; }
        target := next.value;
      }
      i := i + 1;
    }
    r := Ok(target);
  }

  lemma AddConditionsOne(target: seq<Entry>, e: Entry)
    ensures AddConditions(target, [e]) == AddCondition(target, e.key, e.value)
  {
    assert [e][1..] == [];
  }

  /** The advanced-filter branch of `search`: compile, drop what was reprocessed, overlay. */
  method FiltersForSearch(filters: seq<Entry>) returns (r: Result<seq<Entry>, Error>)
    requires PythonFilter(filters) && DistinctKeys(filters)
    ensures r == match Compile(filters) case Ok(out) => Ok(SearchFilters(filters, out)) case Err(e) => Err(e)
  {
    var processed := ProcessMetadataFilters(filters);
    if processed.Err? { return processed; }
    var effective: seq<Entry> := [];
    var i := 0;
    assert filters[0..] == filters;
    while i < |filters|
      invariant 0 <= i <= |filters|
      invariant effective + PopAll(filters[i..]) == PopAll(filters)
    {
      var e := filters[i];
      assert filters[i..][0] == e && filters[i..][1..] == filters[i + 1..];
      if !(e.key in LOGICAL || (e.key !in PROTECTED && e.value.Dict?)) { effective := effective + [e]; }
      i := i + 1;
    }
    assert effective == PopAll(filters);
    r := Ok(Update(effective, processed.value));
  }
}
