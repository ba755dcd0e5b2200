/** The filter compiler `_process_metadata_filters` and its caller in `search`
    (mem0/memory/main.py): a rewrite that flattens AND, renames OR and NOT and
    merges operator dictionaries. */
module Filters {
  import opened Wrappers

  /** A JSON-like value; a dictionary keeps its insertion order. */
  datatype Node = Leaf(text: string) | Dict(entries: seq<Entry>) | List(items: seq<Node>)
  datatype Entry = Entry(key: string, value: Node)

  datatype Error = BadAnd | BadOr | BadNot | NotADict | UnsupportedOperator

  const OPERATORS: set<string> := {"eq", "ne", "gt", "gte", "lt", "lte", "in", "nin", "contains", "icontains"}
  const LOGICAL: set<string> := {"AND", "OR", "NOT"}
  const CLAUSES: set<string> := {"$or", "$not"}

  // ---------- Python dictionaries ----------

  ghost predicate DistinctKeys(d: seq<Entry>) {
    forall i, j :: 0 <= i < j < |d| ==> d[i].key != d[j].key
  }

  function Find(d: seq<Entry>, key: string): (i: nat)
    ensures i <= |d|
    ensures i < |d| ==> d[i].key == key
    ensures forall k :: 0 <= k < i ==> d[k].key != key
  {
    if d == [] then 0
    else if d[0].key == key then 0
    else 1 + Find(d[1..], key)
  }

  predicate Has(d: seq<Entry>, key: string) { Find(d, key) < |d| }

  function Get(d: seq<Entry>, key: string): Option<Node> {
    var i := Find(d, key);
    if i < |d| then Some(d[i].value) else None
  }

  /** `d[key] = value` */
  function Put(d: seq<Entry>, key: string, value: Node): (r: seq<Entry>)
    ensures |r| == if Has(d, key) then |d| else |d| + 1
  {
    var i := Find(d, key);
    if i < |d| then d[i := Entry(key, value)] else d + [Entry(key, value)]
  }

  /** `d.update(more)` */
  function Update(d: seq<Entry>, more: seq<Entry>): seq<Entry>
    decreases |more|
  {
    if more == [] then d else Update(Put(d, more[0].key, more[0].value), more[1..])
  }

  // ---------- the compiler ----------

  /** `process_condition` followed by `merge_filters` into the target. */
  function AddCondition(target: seq<Entry>, key: string, condition: Node): Result<seq<Entry>, Error> {
    if !condition.Dict? then Ok(Put(target, key, condition))
    else if exists e | e in condition.entries :: e.key !in OPERATORS then Err(UnsupportedOperator)
    else if condition.entries == [] then Ok(target)
    else
      var i := Find(target, key);
      if i < |target| && target[i].value.Dict?
      then Ok(Put(target, key, Dict(Update(target[i].value.entries, condition.entries))))
      else Ok(Put(target, key, condition))
  }

  function AddConditions(target: seq<Entry>, conditions: seq<Entry>): Result<seq<Entry>, Error>
    decreases |conditions|
  {
    if conditions == [] then Ok(target) else
    match AddCondition(target, conditions[0].key, conditions[0].value)
    case Ok(next) => AddConditions(next, conditions[1..])
    case Err(e) => Err(e)
  }

  /** The body of the AND branch. */
  function AddAll(target: seq<Entry>, dicts: seq<Node>): Result<seq<Entry>, Error>
    decreases |dicts|
  {
    if dicts == [] then Ok(target)
    else if !dicts[0].Dict? then Err(NotADict)
    else
      match AddConditions(target, dicts[0].entries)
      case Ok(next) => AddAll(next, dicts[1..])
      case Err(e) => Err(e)
  }

  /** The list stored under `$or` or `$not`. */
  function CompileEach(dicts: seq<Node>): (r: Result<seq<Node>, Error>)
    ensures r.Ok? ==> |r.value| == |dicts|
    decreases |dicts|
  {
    if dicts == [] then Ok([])
    else if !dicts[0].Dict? then Err(NotADict)
    else
      match AddConditions([], dicts[0].entries)
      case Err(e) => Err(e)
      case Ok(first) =>
        match CompileEach(dicts[1..])
        case Err(e) => Err(e)
        case Ok(rest) => Ok([Dict(first)] + rest)
  }

  function CompileEntry(target: seq<Entry>, e: Entry): Result<seq<Entry>, Error> {
    if e.key == "AND" then
      if e.value.List? then AddAll(target, e.value.items) else Err(BadAnd)
    else if e.key == "OR" || e.key == "NOT" then
      if !e.value.List? || e.value.items == [] then Err(if e.key == "OR" then BadOr else BadNot)
      else
        match CompileEach(e.value.items)
        case Ok(clauses) => Ok(Put(target, if e.key == "OR" then "$or" else "$not", List(clauses)))
        case Err(error) => Err(error)
    else AddCondition(target, e.key, e.value)
  }

  function CompileFrom(target: seq<Entry>, filter: seq<Entry>): Result<seq<Entry>, Error>
    decreases |filter|
  {
    if filter == [] then Ok(target) else
    match CompileEntry(target, filter[0])
    case Ok(next) => CompileFrom(next, filter[1..])
    case Err(e) => Err(e)
  }

  function Compile(filter: seq<Entry>): Result<seq<Entry>, Error> { CompileFrom([], filter) }

  // ---------- meaning ----------

  /** An atomic question about one payload field. */
  datatype Test = Equals(key: string, value: Node) | Compare(key: string, op: string, value: Node)

  /** A payload is whatever answers tests; equality with "*" and with lists is its business. */
  type Answers = Test -> bool

  /** A test that a plain entry asks. */
  predicate Asks(e: Entry, t: Test) {
    match e.value
    case Dict(ops) => t.Compare? && t.key == e.key && Entry(t.op, t.value) in ops
    case _ => t == Equals(e.key, e.value)
  }

  ghost predicate PlainSat(p: Answers, d: seq<Entry>) {
    forall e, t :: e in d && Asks(e, t) ==> p(t)
  }

  /** The documented meaning of a filter whose nested conditions use plain keys. */
  ghost predicate FilterSat(p: Answers, filter: seq<Entry>) {
    forall e :: e in filter ==> EntrySat(p, e)
  }

  ghost predicate EntrySat(p: Answers, e: Entry) {
    if e.key == "AND" then e.value.List? && forall c :: c in e.value.items ==> c.Dict? && PlainSat(p, c.entries)
    else if e.key == "OR" then e.value.List? && AnySat(p, e.value.items)
    else if e.key == "NOT" then e.value.List? && !AnySat(p, e.value.items)
    else forall t :: Asks(e, t) ==> p(t)
  }

  ghost predicate AnySat(p: Answers, items: seq<Node>) {
    exists c :: c in items && c.Dict? && PlainSat(p, c.entries)
  }

  /** The disjunction stored under one key holds and that under another does not. */
  ghost predicate ClausesSat(p: Answers, d: seq<Entry>, orKey: string, notKey: string) {
    && (forall e :: e in d && e.key == orKey ==> e.value.List? && AnySat(p, e.value.items))
    && (forall e :: e in d && e.key == notKey ==> e.value.List? && !AnySat(p, e.value.items))
  }

  /** What the vector store makes of a compiled filter. */
  ghost predicate CompiledSat(p: Answers, out: seq<Entry>) {
    && (forall e, t :: e in out && e.key !in CLAUSES && Asks(e, t) ==> p(t))
    && ClausesSat(p, out, "$or", "$not")
  }
}
