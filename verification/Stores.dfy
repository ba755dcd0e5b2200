/** Payloads, filters and the injected services of the memory engine
    (mem0/memory/main.py).  Embedding, hashing, lemmatizing, entity extraction
    and similarity ranking are arbitrary functions: nothing below depends on
    what they compute. */
module Stores {
  import opened Wrappers

  type Id = nat

  /** Names of the payload and filter entries the engine itself reads or writes. */
  datatype Key =
    | UserId | AgentId | RunId | Project
    | Data | Hash | TextLemmatized | CreatedAt | UpdatedAt
    | ActorId | Role | AttributedTo | RawContent | HasTechnicalContent | MemoryType
    | Other(name: string)

  type Payload = map<Key, string>
  type Filter = map<Key, string>
  type Vector = seq<real>

  const SESSION_KEYS: set<Key> := {UserId, AgentId, RunId}
  const SCOPE_KEYS: set<Key> := {UserId, AgentId, RunId, Project}

  /** A store returns a row for a filter iff the row's payload agrees with every entry. */
  predicate Matches(filter: Filter, payload: Payload) {
    forall k | k in filter :: k in payload && payload[k] == filter[k]
  }

  /** The entries of `payload` under `keys` that are not the empty string. */
  function Truthy(payload: Payload, keys: set<Key>): (r: Filter)
    ensures Matches(r, payload)
    ensures forall k :: k in r <==> k in keys && k in payload && payload[k] != ""
  {
    map k | k in payload && k in keys && payload[k] != "" :: payload[k]
  }

  /** `_entity_scope_filters` */
  function ScopeFilters(filters: Filter): (r: Filter) { Truthy(filters, SCOPE_KEYS) }

  /** The `session_filters` that `_update_memory` and `_delete_memory` rebuild from a payload. */
  function SessionFilters(payload: Payload): (r: Filter) { Truthy(payload, SESSION_KEYS) }

  lemma MatchesTransitive(a: Filter, b: Filter, payload: Payload)
    requires Matches(a, b) && Matches(b, payload)
    ensures Matches(a, payload)
  {
  }

  datatype Mention = Mention(kind: string, text: string)
  datatype Entity = Entity(data: string, kind: string, scope: Filter, links: seq<Id>)
  datatype Hit = Hit(id: Id, score: real)

  /** One item of an embedding API response: the vector of input number `index`. */
  datatype Embedded = Embedded(index: nat, vector: Vector)

  /** The services injected into the engine. */
  datatype Backend = Backend(
    md5: string -> string,
    lemmatize: string -> string,
    model: string -> Vector,
    respond: seq<string> -> seq<Embedded>,
    extract: string -> seq<Mention>,
    normalise: string -> string,
    toUtc: string -> string,
    rank: (map<Id, Entity>, string, Filter) -> Option<Hit>,
    page: (map<Id, Entity>, Filter) -> set<Id>)

  /** `text.replace("\n", " ")` */
  function OneLine(text: string): (r: string)
    ensures |r| == |text| && '\n' !in r
    ensures forall i :: 0 <= i < |r| ==> r[i] == text[i] || (text[i] == '\n' && r[i] == ' ')
  {
    seq(|text|, i requires 0 <= i < |text| => if text[i] == '\n' then ' ' else text[i])
  }

  /** `OpenAIEmbedding.embed` */
  function Embed(b: Backend, text: string): Vector {
    b.model(OneLine(text))
  }

  /** Top-1 search of the entity store.  The ranking is arbitrary; a store only
      returns rows it holds and that satisfy the filter. */
  function Search(b: Backend, ents: map<Id, Entity>, text: string, filter: Filter): (r: Option<Hit>)
    ensures r.Some? ==> r.value.id in ents && Matches(filter, ents[r.value.id].scope)
  {
    match b.rank(ents, text, filter)
    case Some(h) => if h.id in ents && Matches(filter, ents[h.id].scope) then Some(h) else None
    case None => None
  }

  const LIST_LIMIT := 10000

  function InScope(ents: map<Id, Entity>, filter: Filter): set<Id> {
    set id | id in ents && Matches(filter, ents[id].scope)
  }

  /** `entity_store.list(filters, top_k=10000)`: everything in scope while that
      fits the limit, otherwise whichever rows the store picks. */
  function Listed(b: Backend, ents: map<Id, Entity>, filter: Filter): (r: set<Id>)
    ensures r <= InScope(ents, filter)
    ensures |InScope(ents, filter)| <= LIST_LIMIT ==> r == InScope(ents, filter)
  {
    var rows := InScope(ents, filter);
    if |rows| <= LIST_LIMIT then rows else b.page(ents, filter) * rows
  }

  ghost predicate NoDup<T>(xs: seq<T>) {
    forall i, j :: 0 <= i < j < |xs| ==> xs[i] != xs[j]
  }

  /** Python list comprehension `[x for x in links if x != m]` */
  function Without(links: seq<Id>, m: Id): (r: seq<Id>)
    ensures forall x :: x in r <==> x in links && x != m
  {
    if links == [] then [] else
    var rest := Without(links[1..], m);
    assert forall x :: x in links <==> x == links[0] || x in links[1..];
    if links[0] == m then rest else [links[0]] + rest
  }

  lemma WithoutKeepsNoDup(links: seq<Id>, m: Id)
    requires NoDup(links)
    ensures NoDup(Without(links, m))
  {
    if links != [] {
      assert NoDup(links[1..]) && links[0] !in links[1..];
      WithoutKeepsNoDup(links[1..], m);
    }
  }
}
