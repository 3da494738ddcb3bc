# Grapl, modelled and verified in Dafny

Grapl turns logs into a graph: events become nodes and edges, nodes are given stable
identities, graphs are merged into a database, and analyzers query it.  This project models
the parts of that pipeline whose correctness spans many calls, and proves what holds of them
over all inputs and all runs.

| file | component |
|---|---|
| Sessions.dfy, SessionRuns.dfy | the session table, and properties of every run of it |
| Executor.dfy | the message executor: workers, spawned tasks, queue, dead letters |
| Sequences.dfy, Wrappers.dfy | sequences, results and optional values |
| Lru.dfy, EventCache.dfy | the event cache: an LRU in front of Redis, alone and shared by clones |
| Folds.dfy, Properties.dfy, Graphs.dfy | the merge of properties, nodes and graphs, in any order |
| Identification.dfy | rewriting a graph to its identities |
| QueryVars.dfy, QueryFilters.dfy, QueryGraph.dfy | the query compiler: variables, filters, traversals |
| ReverseEdges.dfy | reverse edges of a subgraph |
| Literals.dfy, Upserts.dfy | upserting nodes |
| TtlPaging.dfy | pruning expired nodes page by page |
| MetricLines.dfy | printing and reading metric lines |

What the components do not control is a parameter: database failures, generated ids, clock
readings, answers of queries, the texts of floating-point numbers.  The order in which a hash
map is visited is an arbitrary choice.  Concurrency is a state machine whose actions carry every
choice of the environment.  Classes follow the source's mutable objects; their methods are
proved against functions, and the lemmas are about those functions.

Where code and comments disagree, the model follows the code:

- A creation event that hits a guessed row at its exact time leaves it guessed, although the
  comment says that the row is already canonical (sessiondb.rs, lines 346-352).
- The executor looks an id up as text and stores it as bytes, so the two never match by
  themselves (sqs-executor lib.rs, lines 178 and 276).
- A store of ids that are all in the LRU is meant to be an optimization, but it sends an empty
  SET, which Redis refuses, so it is answered with an error (redis_cache.rs, lines 186-209).
- After a failed SET the ids stay in the LRU, although the comment says that an id in the LRU
  was stored in Redis (redis_cache.rs, lines 186-209).
- A counter's sample rate of 1.0 is an error, although the comment says that it is ignored
  (statsd_formatter.rs, lines 70-75).
- A metric line holds the service before the timestamp, although the forwarder's comment has
  no service at all (cloudwatch_logs_parse.rs, lines 29-32).

Arithmetic on 64-bit timestamps wraps, as in a release build; debug assertions are off.

To verify: `dafny verify dfyconfig.toml`.

## Model

| member | source | states |
|---|---|---|
| SessionRuns.ReachableTables | src/rust/node-identifier/src/sessiondb.rs:319-475 | in every run of events with timestamps of at least 100 and no overflow, from the empty table and with any database failures, every row sits at its own key, at a multiple of 100 before its end, no end is canonical, each pseudo key has at most one guessed session and it is the earliest, and session ids are distinct |
| SessionRuns.SessionSurvives | src/rust/node-identifier/src/sessiondb.rs:128-177 | over any run from a reachable table a stored session stays in exactly one row of its pseudo key, its creation time never increases, its version grows by exactly the number of its moves, and a canonical row does not change at all |
| SessionRuns.ReturnedIdsAreForever | src/rust/node-identifier/src/sessiondb.rs:319-461 | an id returned by any event of a run from the empty table is, at the end of the run, in exactly one row of that event's pseudo key, not later than the event; so no put ever overwrites a row |
| SessionRuns.AnswerIsStored | src/rust/node-identifier/src/sessiondb.rs:319-461 | when a handler answers, the id is stored under the event's pseudo key; after a creation event in the row of its shaved time |
| SessionRuns.StepChanges | src/rust/node-identifier/src/sessiondb.rs:319-475 | one event leaves a reachable table alone, creates one row under an unused key, or moves the guessed row of its pseudo key to an earlier unused time; a new row has the event's id and key, its shaved time, its end 101 later and version 0, a moved row keeps id and end and gets the next version, and either is canonical exactly when a creation event did it |
| SessionRuns.CreationAttribution | src/rust/node-identifier/src/sessiondb.rs:319-398 | in a reachable table, with any failures: a creation event is answered with the row at its own time if there is one, and then changes nothing; else with the guessed row of its key that lies later, which moves and becomes canonical; else with a new canonical row; a failed query or a lost write leaves the table alone |
| SessionRuns.LastSeenAttribution | src/rust/node-identifier/src/sessiondb.rs:400-461 | in a reachable table, with any failures: a last-seen event is answered with its predecessor row whenever there is one, however long ago its end was; else with the guessed session of its key, which moves back and stays a guess; else with a new guess exactly if the caller allows one; a failed query or a lost write leaves the table alone |
| SessionRuns.OneIdWithoutCreation | src/rust/node-identifier/src/sessiondb.rs:400-461 | in every run from the empty table in which no creation event of a pseudo key comes, all last-seen events of that key that are answered at all are answered with one and the same id, whatever database calls fail in between |
| SessionRuns.CanonicalIffCreation | src/rust/node-identifier/src/sessiondb.rs:319-475 | a row is canonical at the end of a run from the empty table if and only if some creation event of the run created it or moved it |
| SessionRuns.ClosedSessionEnds | src/rust/node-identifier/src/sessiondb.rs:413-459 | for a predecessor whose end is canonical, which no handler makes it, a last-seen event belongs to it if and only if it comes less than ten after its end; otherwise, with nothing later, it starts a new session if the caller allows one |
| SessionRuns.ImpossibleErrors | src/rust/node-identifier/src/sessiondb.rs:325-363 | neither the bail for a timestamp past the session found nor a transaction that names one row twice is reachable, and without database failures every creation event and every defaulting last-seen event is answered |
| SessionRuns.CreationAtCanonicalRow | src/rust/node-identifier/src/sessiondb.rs:332-362 | a creation event at the time of a canonical row answers that row's id and changes nothing if and only if the time is not 0; at time 0 the tolerance test wraps and the row is overwritten |
| SessionRuns.CanonicalIsPermanent | src/rust/node-identifier/src/sessiondb.rs:325-363 | whatever run follows, a creation event at the time of a canonical row is answered with that row's id |
| SessionRuns.GuessIsNotPermanent | src/rust/node-identifier/src/sessiondb.rs:332-337 | a row left guessed above time 100 can be moved away, after which its old time gets another id |
| SessionRuns.CreationAnswerPermanentIff | src/rust/node-identifier/src/sessiondb.rs:325-398 | after a successful creation event its row is canonical unless it hit a guessed row at the exact time, and its answer is the answer to every later creation event at that time if and only if the row is canonical or at time 100 |
| Sessions.SkewedCmpOnShavedTimes | src/rust/node-identifier/src/sessiondb.rs:477-479 | on shaved times the tolerance comparison holds if and only if the times are equal and not 0 |
| Sessions.ShaveInt | src/rust/node-identifier/src/sessions.rs:35-38 | shaving one digit gives the largest multiple of 100 that is not above the input |
| Sessions.FirstIsNearest | src/rust/node-identifier/src/sessiondb.rs:44-83 | the query answers nothing only if no row of the key is at or after the time, and otherwise the row of the key nearest after it |
| Sessions.LastIsNearest | src/rust/node-identifier/src/sessiondb.rs:85-122 | the query answers nothing only if no row of the key is at or before the time, and otherwise the row of the key nearest before it |
| Sessions.SessionDb.UpdateSessionCreateTime | src/rust/node-identifier/src/sessiondb.rs:128-177 | moves the row to its new sort key in one transaction: same id, key and end, the given flag, the next version; or leaves the table alone, as its answer says |
| Sessions.SessionDb.HandleCreationEvent | src/rust/node-identifier/src/sessiondb.rs:319-398 | new table and answer are those of the specification function that the run properties are about, in every failure case |
| Sessions.SessionDb.HandleLastSeen | src/rust/node-identifier/src/sessiondb.rs:400-461 | new table and answer are those of the specification function that the run properties are about, in every failure case |
| Sessions.SessionDb.HandleUnidSession | src/rust/node-identifier/src/sessiondb.rs:463-474 | shaves the time and dispatches; new table and answer are those of the step that runs are made of |
| Executor.NoMessageIsLost | src/rust/sqs-executor/src/lib.rs:170-347 | over all interleavings of up to ten workers with redelivery, aborts of all workers, failing deletes and sends and surviving spawned tasks, every message ever queued is still queued, or its total output was emitted, or it is a dead letter, or it had no payload, in every run in which no queued message was looked up under the hash of something else that was stored |
| Executor.LossNeedsCollision | src/rust/sqs-executor/src/lib.rs:178-192 | for every hash: some run loses a message if and only if some message id, as text, hashes like some bytes other than its own that can come to be stored |
| Executor.EffectsFollowCauses | src/rust/sqs-executor/src/lib.rs:262-291 | in every run without such a collision an id is stored as processed, and a cache hit for a message happens, only after the message's total output was emitted, and every dead letter is a message that failed for good |
| Executor.DeduplicationNeedsCollision | src/rust/sqs-executor/src/lib.rs:178-192 | a worker can come to the branch for an already processed message in some run if and only if some message id, as text, hashes like some storable bytes, because ids are looked up as text and stored as bytes |
| Executor.FinishedWorker | src/rust/sqs-executor/src/lib.rs:170-347 | however other workers, tasks, failed attempts and redeliveries interleave, a finished worker leaves its message as its verdict says: after a total result the output is emitted, the id and every identity that is not partial are cached, and the message is deleted; after a failure for good it is a dead letter and deleted, unless sending was given up; after a partial result that output is emitted and the finished identities are cached; without a payload a loop that deletes the message was spawned, and once that loop is over so is the deletion; deletion may have been given up after its attempts |
| Executor.FinishedForever | src/rust/sqs-executor/src/lib.rs:170-347 | what a finished worker left stays so in every continuation of the run, after its batch is joined, aborted or timed out, too |
| Executor.QueuedCanBeProcessed | src/rust/sqs-executor/src/lib.rs:398-486 | no run gets stuck: from every reachable state, a message that is still queued can in the next round be received, emitted, stored and deleted |
| Executor.OnlyTasksRemove | src/rust/sqs-executor/src/rusoto_helpers.rs:148-289 | nothing but an attempt of a running delete task that takes effect removes a message from the queue, and nothing but such an attempt of a send task makes a dead letter |
| Executor.ReceiveStarts | src/rust/sqs-executor/src/lib.rs:398-486 | a batch starts one worker for each of its first ten messages, in order, at the cache lookup |
| Executor.WorkersEnd | src/rust/sqs-executor/src/lib.rs:178-346 | every step of a worker that does not wait for a running task brings it nearer to its end, or it panics |
| Executor.TasksEnd | src/rust/sqs-executor/src/rusoto_helpers.rs:236-287 | a spawned loop ends after at most five attempts |
| Executor.RunKeepsInv | src/rust/sqs-executor/src/lib.rs:398-486 | the invariant behind these results holds after every sequence of actions without a collision |
| Executor.WorkerStepKeepsInv | src/rust/sqs-executor/src/lib.rs:178-346 | every step of one worker, at each of its suspension points and for each outcome of its call, keeps the invariant |
| Executor.TaskStepKeepsInv | src/rust/sqs-executor/src/rusoto_helpers.rs:236-337 | every attempt of a spawned delete or send, applied or not, keeps the invariant although its worker may be gone |
| Executor.StoredIsRaw | src/rust/sqs-executor/src/lib.rs:275-279 | everything ever passed to the cache is raw bytes, at least eight of them |
| Executor.HitMeansEmitted | src/rust/sqs-executor/src/lib.rs:178-192 | in a state without collisions, a cache hit for a queued message implies that its total output was emitted |
| Executor.SendMessage | src/rust/sqs-executor/src/rusoto_helpers.rs:148-234 | succeeds if and only if one of five attempts succeeds with no persistent failure before it, makes no further attempt, and ends its spawned loop accordingly |
| Executor.CacheCompleted | src/rust/sqs-executor/src/lib.rs:79-101 | drains the completed identities and keeps, in order, exactly those that are not partial |
| EventCache.AnswersAreSound | src/rust/sqs-executor/src/redis_cache.rs:83-165 | over all interleavings of lock sections and Redis calls of any number of clones, with any Redis failures, a filter call reports as cached only what was passed to store, and with a working GET reports as uncached nothing that was in Redis when it began |
| EventCache.StoredIsBacked | src/rust/sqs-executor/src/redis_cache.rs:176-212 | while no SET with something to set has failed, everything stored and everything in the LRU is in Redis or in a SET under way |
| EventCache.QuiescentFilterIsExact | src/rust/sqs-executor/src/redis_cache.rs:83-165 | after any run in which no SET with something to set failed and with none under way, a filter call made alone returns, in input order, exactly the items never stored, for every capacity and eviction history |
| EventCache.MissedIffNotInRedis | src/rust/sqs-executor/src/redis_cache.rs:83-212 | after any run in which no SET with something to set failed, an idle clone can come to be told that an id is not cached if and only if Redis does not hold it now, whatever was stored or acknowledged; as many other ids as the LRU holds are enough |
| EventCache.AcknowledgedStoreCanBeMissed | src/rust/sqs-executor/src/redis_cache.rs:186-212 | for every capacity: a store of two ids answered with success, of which one was in the LRU while another clone's SET of it is under way, does not keep that id from being reported uncached later |
| EventCache.FoundIsRemembered | src/rust/sqs-executor/src/redis_cache.rs:145-158 | if the LRU has room for the ids of one filter call, then after such a call made alone it holds one of these ids if and only if one of the tiers held it before: hits in Redis are put back |
| EventCache.FilterAloneFailing | src/rust/sqs-executor/src/redis_cache.rs:160-164 | a filter call made alone whose GET fails answers exactly the items that the LRU does not hold |
| EventCache.StoreAlone | src/rust/sqs-executor/src/redis_cache.rs:176-212 | a store made alone sets exactly the ids that were not in the LRU, and is answered with success if and only if there was one and the SET worked |
| EventCache.RunIsSound | src/rust/sqs-executor/src/redis_cache.rs:83-212 | LRU, Redis and failed SETs that may still apply never hold an id that was not passed to store |
| EventCache.RunIsBacked | src/rust/sqs-executor/src/redis_cache.rs:83-212 | while no SET with something to set has failed, the LRU is within Redis and the SETs under way |
| EventCache.RedisCache.FilterCached | src/rust/sqs-executor/src/redis_cache.rs:83-165 | used by one caller: the items in neither tier, in input order; without failures exactly the items never stored; with a failing GET no item never stored is withheld; the LRU is afterwards what the lookups and, with a working GET, the puts of the ids found in Redis make of it |
| EventCache.RedisCache.StoreAll | src/rust/sqs-executor/src/redis_cache.rs:176-212 | a failed SET is reported but leaves its ids in the LRU; a store of ids that all are in the LRU is reported failed too, as Redis refuses the empty SET, but loses nothing; without failing SETs everything stored is in Redis and covers the LRU |
| EventCache.WithoutTwice | src/rust/sqs-executor/src/redis_cache.rs:91-164 | filtering through one tier and then the other is filtering through their union |
| EventCache.TouchAllKeys | src/rust/sqs-executor/src/redis_cache.rs:92-99 | looking items up changes only the recency of LRU entries |
| EventCache.PutAllKeys | src/rust/sqs-executor/src/redis_cache.rs:192-199 | after the puts the LRU holds only old and given ids, and every given id was in it already or is among those sent to Redis, whatever was evicted in between |
| Lru.LruCache.Get | src/rust/sqs-executor/src/redis_cache.rs:98-98 | answers the entry of the key and makes it the most recent one |
| Lru.LruCache.Put | src/rust/sqs-executor/src/redis_cache.rs:197-197 | answers the previous entry of the key; a full cache drops its least recent entry |
| Lru.RecencyDecides | src/rust/sqs-executor/src/redis_cache.rs:92-99 | a key that was just used is still there after any further lookups and puts of others if and only if fewer different keys than the capacity were put or found since |
| Properties.MergeInto | src/rust/graph-descriptions/src/lib.rs:289-325 | merging a property map in place, in any hash-map order, is the pointwise merge |
| Properties.MergedValue | src/rust/graph-descriptions/src/lib.rs:369-512 | a merge is one of the two values: never below either for an increment-only property, never above either for a decrement-only one, and the left one for an immutable property and for two variants |
| Properties.MergeAssociativeIff | src/rust/graph-descriptions/src/lib.rs:347-410 | merging three properties is associative if and only if the first two have one variant or the third does not move the first |
| Properties.MergeCommutativeIff | src/rust/graph-descriptions/src/lib.rs:369-410 | merging two properties is commutative if and only if they are equal or of one mutable variant |
| Properties.MergeIdempotent | src/rust/graph-descriptions/src/lib.rs:289-325 | merging the same node again changes nothing, with no side condition |
| Properties.MergeMapsAssociative | src/rust/graph-descriptions/src/lib.rs:289-325 | merging three nodes' properties is associative whenever they agree on each property's variant |
| Properties.AgreeingMapsSwap | src/rust/graph-descriptions/src/lib.rs:369-410 | two maps that agree on variants and immutable values merge into a third in either order |
| Graphs.Graph.AddNode | src/rust/graph-descriptions/src/lib.rs:65-73 | adds the node, or merges its properties into the node of its key |
| Graphs.MergeNodesAre | src/rust/graph-descriptions/src/lib.rs:261-282 | merging two graphs' nodes gives the nodes of both: those of one side as they are, those of both with the key, type and uid of the left one and their properties merged |
| Graphs.Graph.AddEdge | src/rust/graph-descriptions/src/lib.rs:228-259 | panics if and only if the edge is a loop by key or uid, and otherwise pushes it to the list of its own source |
| Graphs.Graph.Merge | src/rust/graph-descriptions/src/lib.rs:261-282 | panics if and only if the other graph has a loop; otherwise nodes are merged pointwise and the bags of edges are added, in any order of the other graph's maps; every list keeps to edges of its own source |
| Graphs.MergeOrderIrrelevant | src/rust/graph-descriptions/src/lib.rs:228-282 | folding merge over any permutation of graphs that agree on types, uids, variants and immutable values gives the same nodes and the same edges |
| Graphs.MergeIsExtremum | src/rust/graph-descriptions/src/lib.rs:369-512 | the fold has a property if and only if some graph has it, and its value is one of the contributed ones that no contribution moves: the largest of an increment-only, the smallest of a decrement-only property |
| Graphs.SameBagSameLists | src/rust/graph-descriptions/src/lib.rs:261-282 | grouped edge maps with the same bag of edges have the same lists up to order |
| Graphs.SerializeCompletedEvents | src/rust/analyzer-dispatcher/src/dispatch_event.rs:40-67 | panics if and only if some subgraph has a loop; otherwise every completed event is sent out, in order and under its own key, with the merge of the subgraphs of all of them |
| Graphs.DispatchOrderIrrelevant | src/rust/analyzer-dispatcher/src/dispatch_event.rs:44-66 | the graph sent out does not depend on the order of the events, its edge lists only by their own order |
| Identification.HandleEvent | src/rust/node-identifier/src/lib.rs:114-242 | panics if and only if some edge in a list it visits joins two nodes of one identity; otherwise Ok if and only if all nodes were attributed, total failure if and only if there were nodes and none was; the graph has the merge of the attributed nodes and, for any p, q and name, as many edges of that name from p to q as there are visited edges of that name from a node attributed to p to a node attributed to q, and no others; a list is visited unless it is kept under the key of a node without identity |
| Identification.SkippedListsAreDead | src/rust/node-identifier/src/lib.rs:171-174 | in a grouped input the skipped lists hold no edge with both ends attributed, so the output has an edge for each such edge of the whole input |
| Identification.NoDanglingEdge | src/rust/node-identifier/src/lib.rs:171-212 | both ends of every edge in the output are nodes of the output |
| Identification.IdentifiedKeys | src/rust/node-identifier/src/lib.rs:149-164 | the output's nodes are exactly the identities given out |
| Identification.IdentifiedFields | src/rust/node-identifier/src/lib.rs:149-164 | an identified node has its identity as its key, and the type of one of the nodes it was made of |
| Identification.IdentifiedNodeIsMerge | src/rust/node-identifier/src/lib.rs:149-164 | an identified node has exactly the properties of its preimages, each with the extreme of their values |
| Identification.IdentificationOrderIrrelevant | src/rust/node-identifier/src/lib.rs:149-164 | with agreeing preimages and each node's identity given, the identified nodes do not depend on the order of the hash map |
| Identification.IdentifyEdges | src/rust/node-identifier/src/lib.rs:176-211 | panics if and only if an edge of the list has one identity at both ends; otherwise adds, for any p, q and name, as many edges from p to q as the list has edges of that name from a node identified as p to one identified as q |
| QueryVars.NextIsNth | src/python/grapl_analyzerlib/grapl_analyzerlib/query_gen.py:9-20 | the generator's step takes the n-th placeholder, prefix, n/26 letters z and the letter n mod 26, to the next one |
| QueryVars.PlaceholdersDistinct | src/python/grapl_analyzerlib/grapl_analyzerlib/query_gen.py:9-20 | placeholders with different numbers are different |
| QueryVars.VarAllocator.Alloc | src/python/grapl_analyzerlib/grapl_analyzerlib/query_gen.py:33-46 | a value keeps its placeholder, a new value gets one no other value has, and the allocation stays injective |
| QueryVars.VarAllocator.Variables | src/python/grapl_analyzerlib/grapl_analyzerlib/queryable.py:199-199 | the variables sent with a query are the inverse of the allocation in both directions |
| QueryFilters.GenPropFilters | src/python/grapl_analyzerlib/grapl_analyzerlib/query_gen.py:62-99 | prints, while allocating placeholders and changing none of the old ones, the text that the reading theorems are about, in terms of the final allocation |
| QueryFilters.PrintedMeans | src/python/grapl_analyzerlib/grapl_analyzerlib/query_gen.py:62-99 | the printed text parses, with NOT over AND over OR; read with the functions eq, gt, ge, lt, le, type and distance as comparisons of what a node stores, and with variables substituted, it says of every property that all kept comparisons of some printed conjunction hold; nothing is printed if and only if nothing is kept |
| QueryFilters.PrintedIsExact | src/python/grapl_analyzerlib/grapl_analyzerlib/query_gen.py:62-99 | with no Has or regex atom and no empty conjunction, a node satisfies the text if and only if for every property it satisfies all comparisons of some conjunction |
| QueryFilters.PrintedIsImplied | src/python/grapl_analyzerlib/grapl_analyzerlib/query_gen.py:72-87 | with Has and regex atoms dropped, the query implies the text if in every disjunction all or none of the conjunctions become empty |
| QueryFilters.ImpliedIff | src/python/grapl_analyzerlib/grapl_analyzerlib/query_gen.py:72-90 | the exact condition for every disjunction and any order of values: its text is implied if and only if all or none of its conjunctions become empty, or no choice of one comparison from each printed conjunction can be failed by one node, predicate by predicate |
| QueryFilters.ImpliedIffAllOrNone | src/python/grapl_analyzerlib/grapl_analyzerlib/query_gen.py:72-90 | so if the printed comparisons of each predicate are all plain, or all negated and such that some values fail each, a disjunction implies its text if and only if all or none of its conjunctions become empty |
| QueryFilters.AtomReads | src/python/grapl_analyzerlib/grapl_analyzerlib/comparators.py:46-203 | every printed comparison, negated or not, reads back as one call, negated or not, of a function on its predicate and placeholder |
| QueryFilters.AtomEval | src/python/grapl_analyzerlib/grapl_analyzerlib/comparators.py:46-203 | that call, with the placeholder's value, holds of a node if and only if the comparison does: equal, greater, at least, less, at most, or within the distance, and the opposite if negated |
| QueryFilters.AllocatedAreWords | src/python/grapl_analyzerlib/grapl_analyzerlib/query_gen.py:9-46 | the allocator's placeholders are words of the filter syntax |
| QueryGraph.WriteBlock | src/python/grapl_analyzerlib/grapl_analyzerlib/query_gen.py:185-306 | on any finite, possibly cyclic query graph it terminates and expands each query reachable from the root exactly once and no other; every one with text of its own gets exactly one place in the block; within the block of a query stand only blocks of its own neighbours, and a block has text of its own or a block within it |
| QueryGraph.NeighborsAre | src/python/grapl_analyzerlib/grapl_analyzerlib/query_gen.py:225-292 | the neighbours of a query are all queries in an alternative of one of its edge filters, whether alone or with others that must match together |
| QueryGraph.BlockWriter.IntoQueryBlock | src/python/grapl_analyzerlib/grapl_analyzerlib/query_gen.py:201-306 | one call visits only what it reaches, all of its closure that was not visited before, and returns no text for a visited query |
| QueryGraph.TraverseQueryIter | src/python/grapl_analyzerlib/grapl_analyzerlib/query_gen.py:492-515 | terminates and yields exactly the reachable queries: those with a nonempty neighbour filter once, a leaf once for each time one of those lists it and once more if it is the root |
| QueryGraph.WalkTraverses | src/python/grapl_analyzerlib/grapl_analyzerlib/query_gen.py:492-515 | from any visited set, a traversal yields reachable queries only, marks just the internal ones it yields, meets all neighbours of what it marks, and counts each leaf as often as it is listed |
| QueryGraph.QueryIterator.Traverse | src/python/grapl_analyzerlib/grapl_analyzerlib/query_gen.py:492-515 | the recursive generator yields and marks what the walk function says, which these properties are about |
| ReverseEdges.CacheAgreesIffInvolutive | src/rust/graph-merger/src/reverse_resolver.rs:64-70 | the resolver's cache always agrees with the schema table if and only if the table is an involution |
| ReverseEdges.ReverseEdgeResolver.ResolveFromCache | src/rust/graph-merger/src/reverse_resolver.rs:76-113 | splits the edges by cached name, in order; an edge is in the first part if and only if some input edge with a cached name goes the other way and the table pairs their names; the lookups make their names the most recent ones |
| ReverseEdges.ReverseEdgeResolver.ResolveReverseEdges | src/rust/graph-merger/src/reverse_resolver.rs:45-74 | for any cache contents that agree with the table: an edge without uids is in the answer if and only if some input edge goes from its target to its source under a name that the table pairs with its own; the cache still agrees; one reverse per edge in the order of the input if all names were cached, otherwise sorted and without duplicates; it fails if and only if some name is uncached and the table cannot be read |
| ReverseEdges.LastIsCached | src/rust/graph-merger/src/reverse_resolver.rs:64-70 | with a capacity of at least two, the name looked up last and its reverse are both cached afterwards |
| ReverseEdges.SortDedup | src/rust/graph-merger/src/reverse_resolver.rs:71-72 | the result is strictly increasing by source, target and name, and has the elements of the input |
| ReverseEdges.BeforeIsLexicographic | src/rust/graph-merger/src/reverse_resolver.rs:71-72 | the order of names is the lexicographic one: smaller at the first difference, or a proper prefix |
| ReverseEdges.CloseEdges | src/rust/graph-merger/src/service.rs:133-156 | the graph handed on has the nodes of the subgraph; with every edge of a known name it has the edge from its target to its source under the paired name; it includes every input edge, and whatever it has more of goes the other way than some input edge under the paired name; it fails if and only if a name is uncached and the table cannot be read, and otherwise panics if and only if the subgraph has a loop |
| ReverseEdges.ReversesClose | src/rust/graph-merger/src/service.rs:134-145 | a list of edges followed by the reverses of its known edges holds, with every edge of a known name, the edge the other way under the paired name |
| Upserts.GraphDb.UpsertNodes | src/rust/graph-merger/src/upserter.rs:66-169 | for any chunks, order and repetition of transactions: every node that a transaction with effect covered ends with its own properties, the stored ones it did not come with and no others, existing nodes keep uid and type and new ones get their own type, nothing else changes, and fresh blank nodes keep uids distinct; it succeeds if and only if every node was replied for, and then every merged node carries its stored uid |
| Upserts.LineBreakIsRefused | src/rust/graph-merger/src/upserter.rs:110-114 | a node whose key or upserted text has a line break is never upserted, nor is any node that shares its chunks, and the upsert does not succeed |
| Upserts.ChunkParses | src/rust/graph-merger/src/upsert_util.rs:110-203 | the database can read the request for a chunk if and only if no quoted key or text of its nodes has a line break |
| Upserts.ChunkGivesKey | src/rust/graph-merger/src/upsert_util.rs:110-151 | the quads of a readable request for a chunk give every blank node the key of its own node |
| Upserts.DistinctStep | src/rust/graph-merger/src/upserter.rs:111-114 | a transaction with fresh uids for its blank nodes keeps the uids of nodes distinct |
| Upserts.ChunksComplete | src/rust/graph-merger/src/upserter.rs:86-118 | a reply for each chunk of any fixed size, in any order, is a reply for every node |
| Upserts.ChunkOverrides | src/rust/graph-merger/src/upserter.rs:91-115 | the mutations of one readable chunk, run in one transaction, equal one map override per node |
| Upserts.RequestOverrides | src/rust/graph-merger/src/upsert_util.rs:62-108 | the conditional mutations of one node, in any order of its properties, create it with its type and properties or override its properties |
| Upserts.OneProperty | src/rust/graph-merger/src/upsert_util.rs:153-203 | the two conditional mutations of a property, which look the node up by its quoted key, together set it, on an existing or a new node, to the unescaped value and change nothing else |
| Upserts.BuildUpserts | src/rust/graph-merger/src/upsert_util.rs:62-108 | builds the creation and then two mutations per property, leaving out node_key and dgraph.type |
| Upserts.ProgressStep | src/rust/graph-merger/src/upserter.rs:111-114 | running a chunk with effect, again or for the first time, leaves its nodes finished and all others as they were |
| Upserts.AnswersStep | src/rust/graph-merger/src/upserter.rs:120-137 | the uids collected from one more answer are the stored ones, and cover the chunk's nodes |
| Upserts.GraphDb.Transact | src/rust/graph-merger/src/upserter.rs:111-114 | one transaction: the override of the chunk if it is committed and can be read, otherwise nothing; and the uids found and created |
| Literals.EscapeQuote | src/rust/graph-merger/src/upsert_util.rs:29-47 | writes the quoted text with quotes and backslashes escaped |
| Literals.QuotedReadsBack | src/rust/graph-merger/src/upsert_util.rs:29-47 | the output read as a STRING_LITERAL_QUOTE of section 4 of RDF 1.1 N-Quads gives the input back, and is one if and only if the input has no CR or LF |
| TtlPaging.Database.PruneExpired | src/python/grapl-dgraph-ttl/grapl_dgraph_ttl.py:127-146 | it terminates; the pages joined are, in uid order and each once, the nodes last indexed at least the time to live ago, although each page is deleted before the next is fetched; every other node is left as it was, and of the edges just those that neither start nor, if their name has a reverse, end at such a node |
| TtlPaging.RoundsFinish | src/python/grapl-dgraph-ttl/grapl_dgraph_ttl.py:58-66 | the loop ends after n rounds if and only if n times the batch size exceeds the number of expired nodes: so with batch size 0 it never does |
| TtlPaging.Database.PrunePage | src/python/grapl-dgraph-ttl/grapl_dgraph_ttl.py:50-66 | one round continues where the pages before it ended; a short page is the last one |
| TtlPaging.RestIsAfter | src/python/grapl-dgraph-ttl/grapl_dgraph_ttl.py:57-66 | every expired node not yet taken lies after the last uid taken |
| TtlPaging.PageStep | src/python/grapl-dgraph-ttl/grapl_dgraph_ttl.py:59-66 | earlier pages followed by a page of the rest are a page of the whole, complete if the page is short |
| TtlPaging.Database.DeleteEdges | src/python/grapl-dgraph-ttl/grapl_dgraph_ttl.py:101-124 | deletes exactly the edges that touch the page's nodes, forward ones and those shown under a reversed name |
| TtlPaging.LinkObjects | src/python/grapl-dgraph-ttl/grapl_dgraph_ttl.py:74-124 | the edge objects built from what shows at some nodes are stored edges, and every edge touching those nodes is one of them |
| TtlPaging.Links | src/python/grapl-dgraph-ttl/grapl_dgraph_ttl.py:74-84 | lists exactly the uid, key and target of every link of the entities |
| MetricLines.LineReadsBack | src/rust/metric-forwarder/src/cloudwatch_logs_parse.rs:28-54 | a printed line reads back as the reported service, timestamp, name, value text, type, rate and tags if and only if the value of its last tag does not end in a space |
| MetricLines.StatsdReadsBack | src/rust/grapl-observe/src/statsd_formatter.rs:49-95 | the statsd text of a message is the one text that splits back into that message |
| MetricLines.MetricReporter.StatsdFormat | src/rust/grapl-observe/src/statsd_formatter.rs:49-95 | succeeds if and only if name and tags have no reserved character and a counter's rate is in [0, 1); reports the sample rate only after the name; on success the buffer, whatever it held before, holds a text that reads back as the name, value, type, tags and, for a counter, the rate |
| MetricLines.RefusedAre | src/rust/grapl-observe/src/statsd_formatter.rs:10-76 | the reserved characters are the five of the pattern, and a rate is refused if and only if the metric is a counter and the rate is not a number at least 0 and below 1 |
| MetricLines.MetricReporter.WriteMetric | src/rust/grapl-observe/src/metric_reporter.rs:65-90 | appends one line for what was reported, or nothing if formatting fails |
| MetricLines.LineStarts | src/rust/grapl-observe/src/metric_reporter.rs:83-88 | a line starts with the monitoring mark |
| MetricLines.MetricReporter.WriteToBuf | src/rust/grapl-observe/src/metric_reporter.rs:242-248 | appends key and value, or fails and appends nothing if one has a reserved character |
| MetricLines.TextEnd | src/rust/grapl-observe/src/statsd_formatter.rs:60-93 | only the value of the last tag can put a space at the end of the text |
| MetricLines.ParsedFields | src/rust/grapl-observe/src/statsd_formatter.rs:60-93 | the fields of whatever reads as a message are the fields printed for it |

## Left out

- Executor.NoMessageIsLost: speaks of runs without collisions, because a collision of the 64-bit hash loses a message; how likely one is, is not part of this model.
- Executor.SendMessage: models the retry loop as a sequence of answers; the growing pauses between attempts are not modelled.
- SessionRuns.ReachableTables: handlers run one at a time; writers in other processes, whose puts are unconditional, are not modelled, and `version` is unbounded.
- ReverseEdges.CloseEdges: says which nodes it has only if the subgraph keys every node by its own node key, as the graph types do.
- Identification.IdentificationOrderIrrelevant: takes each node's identity as given; identities come from the session table, whose answers may depend on the order in which the nodes are visited.
- Upserts.GraphDb.UpsertNodes: assumes distinct node keys, as the nodes of a graph have; types and property names are not quoted by the source and are taken to be readable; how often a chunk is tried before the retry handler gives it up, at attempt 21, is left to the schedule. A blank node that gets no key is not one of the nodes of the store.
- QueryGraph.WriteBlock: a block is a tree of queries; the edge names, aliases and filters in its text are left out.
- QueryFilters.PrintedMeans: predicates, distances and placeholders are words of the filter syntax; values reach the text only as placeholders.
- TtlPaging.Database.PruneExpired: needs a batch size of at least 1 if anything is to expire, because the source loops forever with 0 (RoundsFinish); of the edge count it says only that no deleted edge goes uncounted, because an edge between two expired nodes can be listed at both; nodes indexed by others during the run are not modelled.
- MetricLines.LineReadsBack: the external statsd parser is not part of this model; a reader that splits at the delimiters stands for it.
- Literals.QuotedReadsBack: numeric escapes are left out of the reader, because nothing written here uses them.
- Node attribution itself (dynamic_sessiondb.rs): which identity a node gets is a parameter, and its primary-key strings, joined without a separator, are not claimed to be unique.
- Upserting edges and the retry policy of transactions, beyond their repetition.
- Variable types, root functions and regex text of queries; `zip_graph` and the traversal over neighbours.
- Visibility timeouts and keep-alive: a message not deleted may be received again at any time.
- The cache of the hash kind, whose filter keeps what the others drop; the cache that stores nothing.
- Grouping of metric data and its comparison of dimensions.
- Session operations that no handler calls: setting end times, making times canonical, deleting.
- Serialization, logging, object storage, and everything outside these components: web interfaces, deployment, generators.
