# A verified model of the memory engine

This project models, in Dafny, the logic that keeps the stores of the memory engine in
step (`mem0/memory/main.py`), the filter compiler beside it, the bookkeeping around it
(message window, notice limiter, telemetry client, extraction and preservation of
technical text) and the `.env` editing of the installer (`install.py`).

`dafny verify dfyconfig.toml` checks everything.

## What is modelled

**Stores.** A memory is a row of the vector store (vector and payload), an entity is a
record of the entity store (text, type, scope, `linked_memory_ids`), and every write
appends an event to the history log. `MemoryState.Step` gives the effect of each call
on the three; the class `Memory.Memory` does the same by updating its fields with the
loops of the source, and each of its methods is proved equal to the specification.
Embedding, md5, lemmatizing, entity extraction, key normalisation, the ranking of a
search and the page a listing returns beyond its limit are arbitrary functions, so no
proof depends on what they compute. uuid4 is a counter: an id is never handed out twice.
Session ids and payload entries are strings, and one call reads the clock once.

**Linking.** `BatchLinking` is Phase 7 of `add` (group by key, search a snapshot, rewrite
matches, insert the rest); `EntityIndex` is `_upsert_entity`, `_link_entities_for_memory`
and `_remove_memory_from_entity_store`. That they agree is proved under `KeyMatching`: the
search returns a record exactly when one in scope has the same normalised key, with any
rule for ties. Agreement is up to the order inside `linked_memory_ids` (the batch sorts,
the other path appends).

**Filters.** Both sides of the rewrite get a meaning over an arbitrary assignment of
truth values to tests (field, operator, value), so nothing depends on how a vector store
compares values. Dictionaries are sequences of entries, because their order matters to the
rewrite.

**Message window, notices, telemetry.** SQLite transactions are atomic steps; `ORDER BY`
breaks ties by an arbitrary function. Timestamps are integers. The five copies of the
notice code are one definition with the notice id as parameter. The telemetry singleton is
a state machine whose steps interleave the reads, writes and lock operations of any number
of threads.

**Technical text.** Regular expressions are given as functions: the matches in order, the
paths of the source, and the judgements made with them. Everything done with the results
is modelled, down to characters.

**Installer.** Files are strings; splitting and joining of lines is part of the model. The
host name of a URL, the class of an IP address and `container_host_url` are given.

## Preconditions worth knowing

- `IndexIntegrity` needs an extractor that reports no empty text
  (`mem0/utils/entity_extraction.py` drops texts of two characters or fewer), at most 10000
  entity records in a scope when a memory of it is deleted, and, where metadata sets session
  ids, that linked records stay in scope. An update must leave the memory in the session of
  every record listing it: narrowing a session to fewer ids is harmless, adding or changing one
  is not. An add stores the metadata overlaid with the ids but scopes new entity records to the
  ids alone, so each of its entities must end up in a record in scope for the stored session;
  that holds when the metadata changes no session id, and while there are no entity records in
  no other case (`FirstAddKeepsIff`). `UpdateKeepsIff` and `AddKeepsIff` say both conditions are
  exact; `MovedMemoryDangles` and `AddedMemoryDangles` show what is left behind otherwise.
  `DeletionCleansIff` says in any state exactly when a deletion leaves no link behind.
  `HistoryReplays` needs nothing, and `IndexIsComplete` only key matching.
- `ProjectAfterUpdate`: an update relinks under a session without the project, so of the records
  that list the memory afterwards a search scoped to its project sees only older ones of that
  project. For the same reason `ProjectsNeverShare` is about runs without updates.
- `StoredIff` compares hashes of texts: it needs recalled rows whose hash is that of their own
  text, which every run gives (`HistoryReplays`).
- The batch path has no check for a blank key and the single path has one: they agree iff no
  extracted entity is blank (`BatchRefinesLinkEachIff`).
- `ConjunctionPreservedIff`: a conjunctive filter keeps its meaning iff no two conjuncts ask
  one field for different things; the later one overwrites the earlier.
- `NestedMeaningKeptIff`: the documentation of `search` lists AND, OR and NOT over filters,
  but a logical key inside a nested condition is compiled to a test of a field of that name.
  A filter without OR and NOT at the top keeps its recursive meaning iff no nested condition
  uses a logical key and no conjuncts overwrite each other. With a
  logical key inside an AND, compiling twice also differs from compiling once
  (`RewriteIsIdempotentIff`).
- `ClockMustNotGoBack`: a refusal at one reading survives a recording at another iff the
  clock has not gone back between them; `SlidingWindowSafety` and `AcceptedIff` need that.
- `LatchOutlivesWindow`: the check before each recording latches, so a notice that was once at
  capacity stays refused until the process restarts, also after the seven days.
- `AddCoversIff` and `SharedKeyLosesBoth`: `_add` prunes the segments that a candidate contains
  before it looks at the candidate's first 200 characters, so a block followed by a longer
  block with the same first 200 characters leaves neither. `ExtractedCovers` and
  `TechnicalTextSurvives` therefore need matches that differ there.
- `EveryValueReadsBackIff`: `set_env` skips leading `#` and spaces only, `read_env` all white
  space; a value reads back iff no line that only `read_env` sees stands ahead (`TabShadows`
  is such a file). For such a file the fail-closed flag keeps its old value (`FlagReads`).
- `CollidesIff`: ids may hold any character, so two sessions can share a scope string. A
  session shares its own with another one iff it names two ids, or its one id holds
  non-empty text, `&`, the name of a later key, `=` and non-empty text.

## Model

| member | source | states |
|---|---|---|
| EntityIndex.UpsertExact | mem0/memory/main.py:605-646 | an upsert adds exactly one link, to the record it resolves to or creates, and that record is in scope; every other link, text, type and scope is as before |
| EntityIndex.UpsertKeeps | mem0/memory/main.py:605-646 | an upsert keeps the index sound: every linked id is a live memory whose session filters match the record's scope, no list is empty or has repeats |
| EntityIndex.LinkAllExact | mem0/memory/main.py:703-724 | linking one memory adds that memory's link to exactly the records its distinct non-blank keys resolve to or create |
| EntityIndex.LinkTargetsBound | mem0/memory/main.py:703-724 | for any ranking, these are no more records than there are distinct non-blank keys |
| EntityIndex.StripExact | mem0/memory/main.py:648-701 | cleanup adds no link and removes exactly the links of that memory in records it reaches; other memories' links stay |
| EntityIndex.StripComplete | mem0/memory/main.py:648-701 | cleanup leaves no link to the memory iff every record listing it is in an opened store, in the listing, and has text or lists nothing else |
| EntityIndex.StripKeeps | mem0/memory/main.py:648-701 | with all such records in scope and one page, cleanup keeps the index sound without that memory |
| ProjectScopes.ScopeAt | mem0/memory/main.py:188-193 | the entries that scope an entity record, key by key: the non-empty user, agent, run and project; those that `_update_memory` and `_delete_memory` rebuild leave the project out |
| ProjectScopes.UpsertCreates | mem0/memory/main.py:605-646 | an upsert creates a record iff no record in scope is hit with a score of at least 0.95; a created record has the text and type of the entity, one link, and in its scope key by key the non-empty user, agent, run and project of the call |
| ProjectScopes.BatchCreates | mem0/memory/main.py:1283-1356 | a record that the batch creates has just that scope too |
| ProjectScopes.UpsertIsolated | mem0/memory/main.py:605-646 | an upsert for a project leaves every record without that project as it was |
| ProjectScopes.LinkAllIsolated | mem0/memory/main.py:703-724 | so does linking all entities of a memory |
| ProjectScopes.LinkBatchIsolated | mem0/memory/main.py:1283-1356 | and so does a batch, for any ranking |
| ProjectScopes.StripIsolated | mem0/memory/main.py:648-701 | and so does a cleanup called with a project |
| ProjectScopes.ProjectsNeverShare | mem0/memory/main.py:1240-1361 | over any run of adds and deletions, memories added under two different projects are never listed by one record |
| BatchLinking.LinkBatchKeeps | mem0/memory/main.py:1240-1361 | for any ranking, even when two groups overwrite one record from the same snapshot, the batch leaves the index sound when each group ends up in scope for its memories |
| BatchLinking.LinkBatchKeepsIff | mem0/memory/main.py:1240-1361 | a batch of memories of one session leaves a sound index sound iff every group resolves to a record in scope for that session, or to none while the batch's own scope is |
| BatchRefinement.BatchRefinesUpserts | mem0/memory/main.py:1249-1356 | under key matching the batch builds the records that upserting every (entity, memory) in order builds: same ids, first text, first type, scope and set of linked memories |
| LinkingTheorems.ResolvesToListing | mem0/memory/main.py:605-646 | after upserting a memory's key, that key resolves to a record with that key that lists the memory |
| LinkingTheorems.RepeatIsNoop | mem0/memory/main.py:625-634 | upserting a key that a memory already has changes nothing |
| LinkingTheorems.BatchRefinesLinkEachIff | mem0/memory/main.py:1249-1356 | Phase 7 and `_link_entities_for_memory` over each new memory give the same index iff no extracted entity has a blank key |
| ExtractionRecords.KeepsInOrder | mem0/memory/main.py:1143-1170 | the dedup loop keeps, in order, exactly the embeddable extractions whose hash is neither recalled nor that of an earlier embeddable one |
| ExtractionRecords.RecordsAreNew | mem0/memory/main.py:1143-1170 | hashes of the records are pairwise distinct and not among the existing ones, and each record has the vector mapped to its own text |
| ExtractionRecords.RecordsAreMaximal | mem0/memory/main.py:1143-1170 | every embeddable extraction has its hash among the existing ones or among the records |
| ExtractionRecords.NewMemories | mem0/memory/main.py:1109-1170 | Phases 3 to 5 together: the three properties above with the vectors the batch embedder returns |
| ExtractionRecords.StoredIff | mem0/memory/main.py:1132-1170 | a text is stored iff it is that of the first non-empty extraction of its hash and no recalled live memory holds a text of that hash |
| ExtractionRecords.RecalledIsRejected | mem0/memory/main.py:1136-1153 | no stored text has the hash of the text of a recalled memory |
| ExtractionRecords.NeverStoredAgain | mem0/memory/main.py:1132-1170 | after any run, whatever an inferring add stores has another hash than the current text of every live memory that was recalled |
| EmbedBatch.SortedAnswer | mem0/embeddings/openai.py:57-76 | whatever order the API answers in, sorting by index lines each vector up with its input |
| EmbedBatch.BatchVectors | mem0/embeddings/openai.py:57-76 | over all chunks, none empty and none longer than the 100 inputs the API takes, the i-th vector is the one `embed` gives for the i-th text |
| MemoryIndex.PersistExact | mem0/memory/main.py:1181-1238 | the batch insert adds exactly the new rows and leaves the others and the entity records as they were |
| MemoryIndex.DeleteEachExact | mem0/memory/main.py:2140-2146 | over distinct live memories the loop of `delete_all` removes exactly those rows |
| MemoryIndex.RelinkKeepsIff | mem0/memory/main.py:2299-2303 | for any sound index and any new session, cleanup and relinking leave the index sound iff the scope of every record listing the memory matches the new session |
| MemoryIndex.UpdateKeepsIff | mem0/memory/main.py:2248-2305 | an update with any metadata keeps the index sound iff the memory's new session matches the scope of every record that lists it before the call |
| MemoryIndex.AddKeepsIff | mem0/memory/main.py:388-410 | an add with any metadata keeps the index sound iff every entity ends up in a record in scope for the session that is stored |
| MemoryIndex.FirstAddKeepsIff | mem0/memory/main.py:388-410 | with no entity records yet and at least one entity, an add keeps the index sound iff its metadata changes no session id |
| MemoryIndex.SameSessionAccepts | mem0/memory/main.py:388-410 | an add whose metadata changes no session id always meets the condition |
| MemoryIndex.StepKeeps | mem0/memory/main.py:903-2335 | every admissible call keeps the index sound for the sessions of the live memories; adds and updates are admissible under the exact conditions of `AddKeepsIff` and `UpdateKeepsIff` |
| MemoryIndex.IndexIntegrity | mem0/memory/main.py:605-724 | over any run of admissible calls from empty stores every id in any `linked_memory_ids` is a live memory of that record's session, no list is empty and none has repeats |
| EntityCoverage.LinkAllCovers | mem0/memory/main.py:703-724 | under key matching the single-memory path leaves each non-blank key of its entities with a record listing the memory |
| EntityCoverage.LinkBatchCovers | mem0/memory/main.py:1240-1361 | under key matching the batch drops no link and does the same for every entity of every new memory |
| EntityCoverage.IndexIsComplete | mem0/memory/main.py:605-724 | under key matching, over any run of any calls from empty stores: for each non-blank key in the current text of a live memory that was inferred or updated, a record with that key lists the memory |
| MemoryHistory.LifecycleAppend | mem0/memory/storage.py:150-191 | an event that starts from the text the log replays to extends a memory's lifecycle |
| MemoryHistory.PersistHistory | mem0/memory/main.py:1181-1238 | the batch insert and the batch of ADD events keep log and rows in agreement |
| MemoryHistory.ExtractedPayloadOk | mem0/memory/main.py:1150-1168 | the payload of a new record has hash and lemma of its own text, and its template's session |
| MemoryHistory.UpdatedPayloadOk | mem0/memory/main.py:2261-2276 | an updated payload has hash and lemma of the new text and keeps creation time and any actor |
| MemoryHistory.StepKeepsHistory | mem0/memory/main.py:903-2335 | every call, without any condition, keeps log, rows and payloads in agreement |
| MemoryHistory.HistoryReplays | mem0/memory/main.py:2177-2335 | over any run of any calls the events of each id are ADD, UPDATEs, at most one DELETE, each starting from the text before it; they replay to the live text or to none; every live row has hash, lemma and vector of its own text and the creation time of its ADD |
| MemoryTheorems.BirthIsPermanent | mem0/memory/main.py:2248-2276 | over any run with any metadata, a memory live at two points keeps creation time and any existing actor, and an id is never born twice |
| MemoryRows.UpdateWrites | mem0/memory/main.py:2261-2283 | key by key, the row after an update: data, hash, lemma, vector and update time of the new text, creation time and an existing actor of the old row, and every other key of the new metadata or else as before; no other row changes |
| MemoryRows.UpdateLogs | mem0/memory/main.py:2285-2294 | the one event of an update, field by field |
| MemoryRows.DeleteWrites | mem0/memory/main.py:2307-2335 | a deletion removes one row and logs its last text, creation time, actor and role |
| MemoryRows.AcceptedIff | mem0/memory/main.py:388-424 | an add is accepted iff it names a user, agent or run and every id given is known and not empty; otherwise nothing is written |
| MemoryRows.InferredWrites | mem0/memory/main.py:1143-1168 | key by key, each row of an inferring add: what the engine owns is that of one extraction, the first of its hash, what the model answered is taken where it answered, and every other key is the id of the call or else the caller's metadata |
| MemoryRows.PersistLogs | mem0/memory/main.py:1212-1223 | one ADD event per record, in order, with text and creation time, and no update time, actor or role |
| MemoryRows.UsableIs | mem0/memory/main.py:908-935 | keeping usable messages works message by message, in order: one is kept iff it has content and a role other than system |
| MemoryRows.RawWrites | mem0/memory/main.py:945-962 | key by key, each row of a raw add: the text, role and, if named, actor of one usable message; nothing else changes and no entity is linked |
| MemoryRows.ProceduralWrites | mem0/memory/main.py:2178-2195 | key by key, the one row of a procedural add; nothing else changes and no entity is linked |
| MemoryRows.ProceduralLogs | mem0/memory/main.py:2196-2206 | its ADD event, which also carries update time, actor and role |
| Memory.ReportedAreStored | mem0/memory/main.py:1363-1370 | what an add returns: exactly the new rows, each once, with the text the row holds |
| MemoryTheorems.RelinkingIsExact | mem0/memory/main.py:2299-2303 | after an update to any session that the listing records follow and that fits one page, the records listing the memory are exactly those resolved or created for the new text's distinct non-blank keys, and all other memories' links are unchanged |
| MemoryTheorems.DeletionIsLocal | mem0/memory/main.py:2307-2335 | a deletion removes exactly that memory's links |
| MemoryTheorems.DeleteAllIsExact | mem0/memory/main.py:2111-2146 | over distinct matching ids exactly the listed rows and the links to them go; no matching memory remains iff the listing held them all |
| MemoryTheorems.DeletionCleansIff | mem0/memory/main.py:648-701 | in any state, when exactly a deletion leaves no link to the memory |
| MemoryTheorems.OutOfScopeStays | mem0/memory/main.py:648-701 | cleanup leaves a link in a record outside the scope it lists |
| MemoryTheorems.ProjectAfterUpdate | mem0/memory/main.py:2301-2303 | of the records listing a memory after an update, those in scope for its payload are all when it has no project, else only older records of that project |
| MemoryTheorems.MovedMemoryDangles | mem0/memory/main.py:2299-2303 | after an update whose new session does not match the scope of a record listing the memory, that record still lists it once the memory is deleted |
| MemoryTheorems.AddedMemoryDangles | mem0/memory/main.py:1240-1361 | after an add that fails the condition of `AddKeepsIff`, some new memory is still listed once it is deleted |
| Memory.Memory.UpsertEntity | mem0/memory/main.py:605-646 | the method updates the entity store as the specification says and nothing else |
| Memory.Memory.RemoveMemoryFromEntityStore | mem0/memory/main.py:648-701 | the cleanup loop over the listed rows does to the entity store what the specification says |
| Memory.Memory.LinkEntitiesForMemory | mem0/memory/main.py:703-724 | the linking loop with its `seen` set does to the entity store what the specification says |
| Memory.Memory.GroupEntities | mem0/memory/main.py:1249-1281 | the global dedup: one group per key with the first text, first type and all memories |
| Memory.Memory.ApplyBatch | mem0/memory/main.py:1283-1356 | updates in place plus one deferred insert equal applying the groups one by one to the snapshot |
| Memory.Memory.EmbedTexts | mem0/memory/main.py:1109-1118 | the map of texts to vectors that Phase 3 builds |
| Memory.Memory.TakeRecords | mem0/memory/main.py:1143-1170 | the records and the ids consumed by the dedup loop |
| Memory.Memory.AddInferred | mem0/memory/main.py:903-1376 | Phases 3 to 7 in place: the new state of all three stores and the returned list, or the validation error with nothing written |
| Memory.Memory.AddRaw | mem0/memory/main.py:903-1012 | every usable message becomes a memory with its role and actor |
| Memory.Memory.AddProcedural | mem0/memory/main.py:2209-2246 | the summary becomes one memory |
| Memory.Memory.Update | mem0/memory/main.py:2248-2305 | row, history and relinking, or the error for an unknown id |
| Memory.Memory.Delete | mem0/memory/main.py:2307-2335 | row, history and cleanup, or the error for an unknown id |
| Memory.AllThereIff | mem0/memory/main.py:2140-2146 | the deletion loop runs to its end iff the listed memories are distinct and live |
| Memory.Memory.DeleteAll | mem0/memory/main.py:2111-2146 | every listed memory in turn up to the first that is missing, which is the error returned; without a filter the call is refused |
| FilterMeaning.RewritePreservesMeaning | mem0/memory/main.py:1743-1818 | a payload that satisfies the caller's filter satisfies the compiled one, and conversely when no conjuncts overwrite each other |
| FilterMeaning.ConjunctsKeptIff | mem0/memory/main.py:1780-1818 | with or without OR and NOT, the compiled filter asks all that the conjuncts ask iff none overwrites another, and never more |
| FilterMeaning.ConjunctionPreservedIff | mem0/memory/main.py:1780-1795 | for filters without OR and NOT, meaning is preserved for every payload iff no two conjuncts overwrite each other |
| FilterSearch.CompilesIff | mem0/memory/main.py:1764-1816 | the compiler returns a map iff every entry is well shaped, and raises otherwise |
| FilterSearch.OperatorsAre | mem0/memory/main.py:1764-1778 | a comparison compiles iff its operator is one of the ten documented ones |
| FilterNesting.DeepIsFlat | mem0/memory/main.py:1756-1818 | on filters whose nested conditions use plain keys the recursive meaning is the meaning of the rows above |
| FilterNesting.RewriteKeepsDocumentedMeaning | mem0/memory/main.py:1743-1818 | so on those filters the rewrite never loses a payload that the recursive meaning accepts, and keeps that meaning when no conjuncts overwrite each other |
| FilterNesting.NestedMeaningKeptIff | mem0/memory/main.py:1780-1795 | a filter without OR and NOT at the top keeps its recursive meaning for every payload iff no nested condition uses a logical key and no conjuncts overwrite each other |
| FilterNesting.RewriteIsIdempotentIff | mem0/memory/main.py:1743-1818 | for every filter that compiles, compiling the result gives it back, entry for entry, iff no AND holds a nested logical key, empty dictionaries apart |
| FilterSearch.NestedOrBecomesField | mem0/memory/main.py:1791-1795 | what becomes of an OR nested in an AND: one equality on a field named OR |
| FilterSearch.SearchSendsCompiled | mem0/memory/main.py:1632-1668 | with session ids that passed validation, the dictionary after the pops and the update is exactly the compiled one, also when logical keys are nested |
| FilterCompiler.ProcessCondition | mem0/memory/main.py:1756-1779 | one condition becomes one entry, none for an empty operator dictionary, or the error for an unknown operator |
| FilterCompiler.MergeFilters | mem0/memory/main.py:1781-1787 | two operator dictionaries of one key are merged, anything else is replaced |
| FilterCompiler.ProcessMetadataFilters | mem0/memory/main.py:1743-1818 | the loops over AND, OR, NOT and plain entries compute the specified compiled filter or error |
| FilterCompiler.FiltersForSearch | mem0/memory/main.py:1660-1668 | the pop loops and the update give the dictionary that `search` sends |
| MessageWindow.QueryIsLatest | mem0/memory/storage.py:283-297 | `ORDER BY created_at DESC LIMIT k` returns a valid latest-k for any tie-breaking |
| MessageWindow.LatestOfLatest | mem0/memory/storage.py:260-299 | choosing the latest k again after new rows arrive is choosing the latest k of everything |
| MessageWindow.StreamingEqualsGlobal | mem0/memory/storage.py:260-299 | after any calls, with any timestamps and tie-breaking, a scope's rows are a valid latest-10 of all messages ever saved to it, each with the scope, content and time of its call |
| MessageWindow.SavedOnce | mem0/memory/storage.py:266-281 | in that history each message of each call is one row: no two share an id |
| MessageWindow.LastCallIsKept | mem0/memory/storage.py:266-297 | a last call of at most ten messages, later than all earlier ones of its scope, is in the window whole, however ties break |
| MessageWindow.LastCallIsRead | mem0/memory/storage.py:301-327 | and reading with room for it returns it whole |
| MessageWindow.OtherScopesUntouched | mem0/memory/storage.py:285-297 | a save changes no other scope, not even the order of its rows |
| MessageWindow.LastMessagesAreLatest | mem0/memory/storage.py:301-327 | reading a scope gives, ascending and without repeats, a valid latest-`limit` of everything ever saved to it |
| MessageWindow.SQLiteManager.SaveMessages | mem0/memory/storage.py:260-299 | inserts and eviction give the specified table |
| MessageWindow.SQLiteManager.GetLastMessages | mem0/memory/storage.py:301-327 | the query and the re-sorting give the specified rows |
| Notices.SlidingWindowSafety | mem0/memory/notices.py:901-982 | over any run with restarts and a nondecreasing clock, no closed interval of seven days holds more than ten accepted opportunities of one notice |
| Notices.RecordIsLocal | mem0/memory/notices.py:917-958 | recording for one notice leaves every other notice's events, state and latch alone |
| Notices.RecentExact | mem0/memory/notices.py:961-982 | the recent entries are exactly those that parse and are at most seven days old, each as often as in the list |
| Notices.LatchedIff | mem0/memory/notices.py:901-958 | exactly when a step latches a notice, and that only a restart unlatches it |
| Notices.ClaimedOnce | mem0/memory/notices.py:853-880 | over any run, restarts included, the first-run notice is claimed at most once, and not at all if the file already said so |
| Notices.ClaimedWhenAsked | mem0/memory/notices.py:853-880 | starting with an unclaimed process, the notice is claimed once if anyone asks and the file did not say so, and else never |
| Notices.AcceptedIff | mem0/memory/notices.py:917-982 | after any run with a nondecreasing clock an opportunity is accepted iff fewer than ten of the events at the start and of those accepted since are recent |
| Notices.OfferedIff | mem0/memory/notices.py:901-958 | a whole call, check then record, accepts iff the notice is not latched and fewer than ten of those events are recent at the check |
| Notices.LatchOutlivesWindow | mem0/memory/notices.py:901-914 | a latched notice is refused until the process restarts, whatever the clock says; after a restart only the events count |
| Notices.ClockMustNotGoBack | mem0/memory/notices.py:961-982 | for any two readings, a refusal at the one survives a recording at the other in every state iff the clock has not gone back |
| Notices.NoticeLimiter.RecentEntries | mem0/memory/notices.py:961-982 | the loop keeps, in order, the entries that parse and are not older than seven days |
| Notices.NoticeLimiter.IsAtCapacity | mem0/memory/notices.py:901-914 | the latch short-circuits the file and is set when the file is full |
| Notices.NoticeLimiter.RecordOpportunity | mem0/memory/notices.py:917-958 | prune, refuse at ten, else append and write back, latching at ten |
| Notices.NoticeLimiter.ClaimFirstRun | mem0/memory/notices.py:853-880 | the claim and its latch |
| Telemetry.AtMostOneClient | mem0/memory/telemetry.py:150-183 | in every interleaving at most one client is made, each call returns that client, or none once shutdown has begun, only it is closed, and no two threads are in the locked regions together |
| Telemetry.NothingAfterShutdown | mem0/memory/telemetry.py:177-189 | once shutdown has run, whatever follows, the global is empty, the client is closed and none is made |
| Telemetry.CallReturns | mem0/memory/telemetry.py:155-174 | in every reachable state a call that finds the lock free and is not disturbed returns within eight steps, with none once shutdown has begun and otherwise with the one client, made if nobody has |
| Telemetry.ShutdownFinishes | mem0/memory/telemetry.py:177-189 | a shutdown that finds the lock free is over in six steps, with the flag set, the global empty and the client closed |
| SessionScope.BuildSessionScope | mem0/memory/main.py:436-449 | the loop and the join give the scope string |
| SessionScope.FullScope | mem0/memory/main.py:436-449 | the string of a session with all four ids, in the order of their names |
| SessionScope.ParseInvertsScope | mem0/memory/main.py:436-449 | for ids without `&` a parser gives back the value of each of the four keys |
| SessionScope.ScopeInjective | mem0/memory/main.py:436-449 | for ids without `&` two scope strings are equal iff the four ids are |
| SessionScope.CollidesIff | mem0/memory/main.py:436-449 | for ids of any characters, some other session has the same scope string iff the session names two ids, or its one id splits at a later key |
| SessionScope.UserAloneNeverCollides | mem0/memory/main.py:436-449 | the scope string of a session with a user id alone is equal to another's iff the four ids are, whatever they hold |
| SessionScope.WindowsAreSeparate | mem0/memory/storage.py:285-297 | saving for one session leaves the window of a different one as it was, when neither has an id with `&` or one of the two shares its scope string with none |
| EntityBoosts.Deduplicate | mem0/memory/main.py:1982-1989 | the loop with its `seen` set keeps, of the first eight entities, the first of every non-empty key |
| EntityBoosts.FirstsDistinct | mem0/memory/main.py:1982-1989 | the entities searched for have non-empty, pairwise distinct keys |
| EntityBoosts.FirstsCover | mem0/memory/main.py:1982-1989 | every non-empty key of the first eight is searched for |
| EntityBoosts.CompletionOrderIsIrrelevant | mem0/memory/main.py:2015-2050 | any permutation of the search results gives the same map |
| EntityBoosts.SyncAndAsyncAgree | mem0/memory/main.py:3670-3697 | the thread-pool version and the asyncio version return the same map |
| EntityBoosts.BoostedIff | mem0/memory/main.py:2029-2045 | a memory is in the map iff some match of similarity at least 0.5 links it |
| EntityBoosts.BoostsInRange | mem0/memory/main.py:2036-2045 | every boost lies in (0, W] when no similarity exceeds 1 |
| EntityBoosts.BoostIsGreatest | mem0/memory/main.py:2029-2045 | the boost of a memory is the greatest similarity times weight, divided by 1 + 0.001 (n - 1)^2, of the matches of similarity at least 0.5 that link it among n |
| EntityBoosts.Accumulate | mem0/memory/main.py:2020-2045 | the loops compute for each memory the maximum of the boosts of the matches linking it |
| EntityBoosts.ComputeEntityBoosts | mem0/memory/main.py:1970-2050 | whatever order the searches complete in, the result is that map, or the empty one without entities or with a wrong number of vectors |
| EntityBoosts.ComputeEntityBoostsAsync | mem0/memory/main.py:3625-3697 | the same for results in submission order |
| Segments.Collector.Add | mem0/memory/technical_content.py:73-85 | the loops and the pruning of `_add` give the specified segments and seen keys |
| Segments.ExtractTechnicalSegments | mem0/memory/technical_content.py:65-117 | all matches in order, then the whole text if there was no segment and it looks technical |
| Segments.AddKeepsAntichain | mem0/memory/technical_content.py:73-85 | after an `_add` no segment contains another |
| Segments.ExtractedIsAntichain | mem0/memory/technical_content.py:65-117 | in what the extraction returns no segment contains another |
| Segments.SegmentsAreMatches | mem0/memory/technical_content.py:73-85 | every segment is one of the matches, stripped, of at least 15 characters |
| Segments.AddCoversIff | mem0/memory/technical_content.py:73-85 | a candidate of at least 15 characters is a substring of some segment after its `_add` iff it was not new with an already seen key |
| Segments.CoverageIff | mem0/memory/technical_content.py:65-117 | at every point all candidates so far are covered iff none was dropped on arrival |
| Segments.DistinctKeysCover | mem0/memory/technical_content.py:65-117 | when no two different candidates share their first 200 characters, every candidate of at least 15 characters is a substring of some final segment |
| Segments.SharedKeyLosesBoth | mem0/memory/technical_content.py:80-84 | otherwise a block and a longer block that starts with it can both be lost |
| Segments.ExtractedCovers | mem0/memory/technical_content.py:65-117 | when no two different matches share their first 200 characters, every match of at least 15 characters stands in a returned segment |
| Segments.ExtractedFrom | mem0/memory/technical_content.py:65-117 | every returned segment is a match, stripped, or the only one: the stripped whole of a text that looks technical |
| Segments.ExtractedFallback | mem0/memory/technical_content.py:113-117 | without a long enough match the result is that one segment iff the text looks technical and is long enough, and else nothing |
| Enrichment.FormatContains | mem0/memory/technical_content.py:359-369 | the result holds the raw content verbatim and starts with the interpreted text |
| Enrichment.FormatIdempotent | mem0/memory/technical_content.py:359-369 | formatting again changes nothing |
| Enrichment.FormattedKeeps | mem0/memory/technical_content.py:457-475 | a memory with raw content keeps it, its own kind and all other keys; its text starts with the old one and holds the raw content |
| Enrichment.GraftKeeps | mem0/memory/technical_content.py:476-498 | a memory that is grafted keeps its other keys, and its text unless vague or empty; the segment becomes its raw content and stands in its text |
| Enrichment.ArtifactIs | mem0/memory/technical_content.py:513-534 | an appended memory has the segment as raw content and in its text, behind its caption, and is numbered by its position |
| Enrichment.CorpusIs | mem0/memory/technical_content.py:386-391 | the corpus holds text and raw content of all memories, one to a line |
| Enrichment.GraftingIsGreedy | mem0/memory/technical_content.py:457-498 | a segment that is appended, or grafted later, was not preserved by memory k, and if it fits that memory, which has no raw content, an earlier segment was grafted there |
| Enrichment.EverySegmentIsAccountedFor | mem0/memory/technical_content.py:457-536 | every segment ends judged preserved, grafted on one input memory that it fits, or appended as one artifact because the texts so far do not preserve it |
| Enrichment.OneSegmentPerMemory | mem0/memory/technical_content.py:457-536 | no memory gets two segments |
| Enrichment.EveryArtifactHasItsSegment | mem0/memory/technical_content.py:500-536 | every memory beyond the input is the artifact of one segment |
| Enrichment.EveryMemoryIsKept | mem0/memory/technical_content.py:457-498 | no input memory is dropped, moved or stripped of other keys; one with raw content is formatted, one without carries the segment whose fate names it, or is untouched when no fate does |
| Enrichment.AttachmentHasItsFate | mem0/memory/technical_content.py:457-536 | whatever was attached to a memory is a segment, and the fate of that segment names the memory |
| Enrichment.AttachedAtMostOnce | mem0/memory/technical_content.py:409-536 | read off input and output alone: no two memories get the same segment, by grafting or by appending |
| Enrichment.SourceAttachedAtMostOnce | mem0/memory/technical_content.py:409-536 | in particular each segment extracted from the source is attached at most once |
| Enrichment.SegmentStandsVerbatim | mem0/memory/technical_content.py:438-536 | a grafted or appended segment of the source stands verbatim in its memory's text and is its raw content |
| Enrichment.TechnicalTextSurvives | mem0/memory/technical_content.py:409-536 | with a technical source whose different matches differ in their first 200 characters, every match of at least 15 characters stands in a segment that is judged preserved, or verbatim in the text of a returned memory |
| Enrichment.OnlyRepaired | mem0/memory/technical_content.py:409-455 | without a technical source every memory keeps its place, kind and other keys, and its texts are only repaired |
| Enrichment.EnrichExtractedMemories | mem0/memory/technical_content.py:409-536 | repair, the early returns and the two attachment loops compute the specified list |
| EscapeRepair.FindDamagedSpan | mem0/memory/technical_content.py:302-325 | the search for head and tail of a path, with its loop, gives the specified span |
| EscapeRepair.PathEnds | mem0/memory/technical_content.py:302-306 | the head and tail of a path are its first and last component |
| EscapeRepair.DamageIsFound | mem0/memory/technical_content.py:302-325 | a damaged path whose two ends survive is found, from the backslashes before its head to the end of its tail |
| EscapeRepair.LostTailIsFound | mem0/memory/technical_content.py:316-321 | when its tail is lost, up to the next comma, semicolon or line break |
| EscapeRepair.EditsAreValid | mem0/memory/technical_content.py:341-356 | every replacement stays in bounds, replaces a span holding a control character, and inserts a path of the source |
| EscapeRepair.CollapseKeeps | mem0/memory/technical_content.py:328-339 | every character that is no control character survives in order; a control character between glued characters leaves a backslash, any other leaves nothing |
| EscapeRepair.CollapseOnly | mem0/memory/technical_content.py:328-339 | every character of the result is such a survivor or such a backslash |
| EscapeRepair.ControlIs | mem0/memory/technical_content.py:274 | the characters taken for damage are the C0 controls but for the two that separate lines |
| EscapeRepair.RepairIsCleanAndStable | mem0/memory/technical_content.py:341-356 | the result has no control character, text is returned unchanged iff undamaged, and a second repair changes nothing |
| EscapeRepair.GraftedPathSurvives | mem0/memory/technical_content.py:341-356 | a clean path grafted last stands in the result verbatim |
| EscapeRepair.DamagedPathComesBack | mem0/memory/technical_content.py:341-356 | a text that is clean but for one such path comes back with that path of the source in its place, and nothing else changed |
| EscapeRepair.RepairEscapeDamage | mem0/memory/technical_content.py:341-356 | the loop with its early exit equals applying those replacements and then collapsing |
| EnvFile.RenderSplits | install.py:565-596 | what is written splits into the same lines |
| EnvFile.SetMatchesIff | install.py:577-582 | `set_env` replaces a line iff it assigns the key, possibly behind `#` and spaces |
| EnvFile.ReadMatchesIff | install.py:1098-1103 | `read_env` reads a line iff it assigns the key behind white space only, and reads the value without trailing white space |
| EnvFile.ReadAfterSet | install.py:565-596 | reading after a set gives the new value, or the old one when a line only `read_env` sees stands ahead |
| EnvFile.EveryValueReadsBackIff | install.py:565-596 | all values read back iff no such line stands ahead |
| EnvFile.SpacesDoNotShadow | install.py:1085-1103 | files indented with spaces only have no such line |
| EnvFile.TabShadows | install.py:580-581 | a tab-indented line is such a line |
| EnvFile.SetKeepsOthers | install.py:565-596 | a set leaves what every other key reads as it was |
| EnvFile.SetIsNoopIff | install.py:565-596 | a set changes nothing iff the line it would replace is the one it writes |
| EnvFile.SetRefinesMap | install.py:565-596 | on whole files a set is a map update, and repeating it is a no-op |
| EnvFile.File.SetEnv | install.py:565-596 | the loop replaces the first match or appends, and rewrites the file |
| EnvFile.File.ReadEnv | install.py:1085-1103 | the loop returns the value of the first line that matches |
| Installer.SetAllReads | install.py:1703-1723 | a sequence of sets reads as the map updated in order |
| Installer.EnsureOpsReads | install.py:675-707 | what each key reads after the step: blank defaults are filled, a blank or relative board URL is made absolute, all else is as before |
| Installer.NeedsBaseIff | install.py:694-706 | the board URL is replaced iff it is all white space or starts with a slash after some |
| Installer.AbsoluteIs | install.py:694-706 | by the site's URL without trailing slashes and the board's path, or by the fallback |
| Installer.NonBlankIsKept | install.py:675-707 | a key that is not blank is never overwritten, a relative board URL excepted |
| Installer.EnsureOpsTwice | install.py:675-707 | on every file the step is idempotent |
| Installer.EnsureUpdateOpsEnv | install.py:675-707 | the loop over the defaults and the board URL edit the file as specified |
| Installer.WriteInferenceScale | install.py:1697-1724 | the eleven sets in order, and whether some role is public |
| Installer.WrittenReads | install.py:1697-1724 | after the call every written name reads the value written for it, unless shadowed |
| Installer.RolesRead | install.py:1703-1718 | name by name, what each variable of the two roles reads afterwards on a file that shadows none |
| Installer.BaseIs | install.py:1706-1711 | the URL and key of a role: the given ones for openai, the container form of the Ollama URL otherwise, with the default key only for openai |
| Installer.HostIsLocalIff | install.py:1044-1069 | a URL is local iff its host is this machine, under .local or .internal, a local address, or a single word that is no known cloud |
| Installer.WrittenKeepsOthers | install.py:1697-1724 | every other key reads what it did before |
| Installer.FlagReads | install.py:1719-1723 | MEM0_LOCAL_ONLY reads 1 iff both roles are local, or its old value when shadowed |
| Installer.FlagIsTruthful | install.py:1044-1069 | in the file as written, when neither the flag nor one of the four URL names is shadowed, the flag reads 1 iff both roles' base URLs read from it are local, and each role's two URLs agree |

## Left out

- Failure paths: every exception that the source logs and swallows, and the one-by-one fallbacks after a failed batch call; the model is the run in which no service fails.
- The asyncio class, except for its entity boosts; in particular `delete_all` with concurrent cleanup.
- Vectors of entity records: linking never reads them, and every search result comes from the given ranking.
- Phases 0 to 2 and 8 of `add`: prompts, recall and the model's answer are inputs, and saving messages is `MessageWindow`.
- The action argument of `embed`: the model takes one embedding function for all of them.
- `get_history` ordering by timestamp text: the log is read in insertion order.
- The vector store's own listing in `delete_all`: `DeleteAll` takes the listed ids as input.
- Aliasing: two list items that are one and the same dictionary object in `enrich_extracted_memories`.
- Wording: the stand-in and caption sentences of `enrich_extracted_memories` are given functions.
- FilterMeaning.RewritePreservesMeaning: covers filters whose nested conditions use plain keys; `NestedMeaningKeptIff` covers the others, for filters without OR and NOT at the top. With OR or NOT beside overwriting conjuncts only one direction is claimed, because a disjunction may hide the difference.
- FilterNesting.NestedMeaningKeptIff: says nothing of logical keys nested in a top-level OR or NOT, which may hide the lost meaning.
- Notices.SlidingWindowSafety: config writes are taken to succeed.
- Installer.FlagIsTruthful: base URLs have no trailing white space and no value has a line break, since a file line cannot hold either.
- The floating-point rounding of boosts: arithmetic is exact.
- Prompting, health polling, Docker and git in the installer, and its permission errors.
- Provider clients, scoring and ranking, the lemmatizer, prompts, logging, telemetry payloads and notice texts: remote calls, or code with no state to keep in agreement.
