# Verified core of the RAG evaluation service

A Dafny model of the parts of the service whose behaviour is not evident from reading one function:
the workflow graph engine, the asynchronous job lifecycle, the text splitters, and the small cores that
keep state in an awkward form (feature flags in a string, API keys behind a cache, metrics, pages).
`dafny verify dfyconfig.toml` checks everything.

| file | models | main results |
|---|---|---|
| Schemas, Graphs | `WorkflowDefinition` and Kahn's algorithm | the returned order is the one queue order of the graph; it raises exactly for duplicate ids or cycles; ids come out by non-decreasing depth |
| Problems, Validator | `WorkflowValidator` | the search finds exactly the reachable steps; `validate` lists every problem once and in order, and is empty exactly for sound workflows; a clean workflow starts with its first step |
| JobStore, JobProtocol | the job store and all its concurrent clients | what every interleaving keeps; what a read after any updates returns |
| JobPublishing | terminal events of the v2 handler | how many there are; exactly when they agree with the stored record |
| JobAtomicity | the get-then-set of `update_job` | exactly when the store behaves like an atomic one |
| JobSequential | an activation that nothing interrupts | it does what the sequential handler or task attempt does |
| JobSchedules | schedules in which a promise fails | an overlap that loses an update; a completion followed by a failure |
| Events, EvalWorker, EvalTasks | the v2 handler and the v1 task chain | topic and stored status agree; what a chain of retries leaves behind |
| Text, Chunking, ChunkCuts, ChunkSizes, Markdown | `split`/`join`/`strip` and the two splitters | chunks tile the text in the one greedy way, nothing visible is lost, sizes are bounded, and exactly when they keep to the chunk size; sections reassemble |
| FeatureFlags | flags in a comma-joined string | the string refines a set over every run |
| ApiKeys, KeyCache | API keys behind a cache | exactly when the cache is invisible, over every interleaving |
| Metrics, Pagination | scores and pages | F1 in closed form, bounds, consistency; pages partition the items |
| Prelude, Sequences | shared types and sequences | |

Modelling decisions:

- Clocks, UUIDs, evaluation outcomes and failures of Redis, Kafka and the key repository are parameters. A failing
  call has no effect, except that in `JobProtocol` a store write or a publish and in `ApiKeys` a revocation may also take
  effect and then raise.
- Concurrent code is a machine whose steps are the awaited calls; `HandlingRuns`, `AttemptRuns` and the contracts of
  `ApiKeyService` tie the calls that run to their end to these steps.
- Dictionary keys keep their insertion order (`Dedup`); iteration over a Python set is an arbitrary enumeration.
- Step ids, job ids, hashes and labels are strings wrapped in one-constructor datatypes.
- `_split_recursive` is documented as recursive; the code makes one pass with the first separator, and so does the model.
- An undeclared edge endpoint makes `get_step_order` fail with a KeyError that `validate` does not catch. Construction
  excludes such edges; the model keeps the path (`UnknownStep`, `KeyError`).

Nine promises hold only under a condition, which is proved to be exact:

- The markdown splitter's `headers` lists every header line of every text exactly when each marker has a visible
  character or a line break (`HeadersCompleteIff`).
- `enable(name)` adds exactly `name` exactly when the name is non-empty, trimmed and free of commas (`EnableExact`);
  for any other name it adds what the name parses to (`AfterEnable`, `CommaName`).
- After `disable(name)`, `is_enabled(name)` is false exactly when the wildcard was not enabled or is the name itself
  (`QueryAfterDisable`); with the wildcard every other name stays on (`DisableUnderWildcard`).
- `update_job` is documented to preserve the time-to-live. The code restarts it: an update leaves its end alone exactly
  when it comes in the same instant as the last write, or too late (`UpdateRestartsTimeToLive`).
- No chunk exceeds the chunk size, with a whitespace separator, exactly when every part fits behind the overlap kept
  before it or trimming takes the excess away (`ChunksFitIff`); two parts of the full size attain the bound
  max(chunk_size, overlap + longest part) (`BoundAttained`).
- A v2 handling that returns normally has published exactly one terminal event, and any other activation none, exactly
  when none of its publishes raised after taking effect (`ExactlyOneTerminalEvent`); a completion publish that does is
  followed by a failure event (`CompletionThenFailure`).
- Readers see throughout what a v2 handling announced, or no record, exactly when every later set of the job by another
  activation writes the same (`AgreesExactlyWhenHarmless`); an overlapping delivery need not (`OverlapLosesUpdate`).
- The stored record of a job that does not expire is, throughout a schedule, its creation record with all patches
  applied in call order, exactly when every set finds the record equal to its snapshot on the fields its patch leaves
  alone (`FoldExactlyWhenFresh`). Updates that do not overlap meet this (`RefinesAtomicStore`); two overlapping
  deliveries need not (`OverlapLosesUpdate`).
- The key cache answers like the repository throughout a schedule, for keys without a revocation in flight, exactly
  when no read is cached after a revocation of its key ran completely since the read, and no revocation ends, by its
  one deletion or by raising after its effect, with a usable copy left in the cache, unless another revocation of that
  key is in flight at the insertion or the end (`TransparentExactlyWhenSafe`). With one hash for each id and no such raise, only the first part remains
  (`TransparentExactlyWithoutRace`). Each part has a failing schedule: `RaceKeepsRevokedKey`, `FailureKeepsRevokedKey`
  and `SharedIdKeepsRevokedKey`. The last needs a repository in which two hashes have one id, and such a repository
  must come from outside, because `generate_key` draws a new id for every key.

## Model

| member | source | states |
|---|---|---|
| Schemas.Construct | app/domain/workflows/schemas.py:73-98 | construction succeeds exactly when given steps are non-empty and all edges connect declared steps; otherwise it names the undeclared endpoint of the first edge that has one, the source if both are undeclared |
| Graphs.FirstUnknownIs | app/domain/workflows/schemas.py:92-97 | the reported id is that endpoint, and no other id is |
| Schemas.BuildGraph | app/domain/workflows/schemas.py:110-115 | the dictionaries hold each declared step's adjacency list in edge order and its counted in-degree; the first undeclared endpoint is reported |
| Graphs.OutgoingEdges | app/domain/workflows/schemas.py:113-115 | an adjacency list follows the outgoing edges of its step, each once (parallel edges included) and in list order |
| Schemas.InitialQueue | app/domain/workflows/schemas.py:118-119 | the queue of in-degree-zero ids in declaration order establishes the invariant of the sort |
| Schemas.FollowEdge | app/domain/workflows/schemas.py:125-128 | following one edge of the current step keeps the invariant: in-degrees count unfollowed edges, exactly the ids without any are queued or ordered, in release order |
| Schemas.ReleaseSuccessors | app/domain/workflows/schemas.py:125-128 | after the inner loop all edges of the ordered steps have been followed |
| Schemas.DrainQueue | app/domain/workflows/schemas.py:121-128 | the main loop terminates with an empty queue and the invariant |
| Schemas.LeftoverIsCyclic | app/domain/workflows/schemas.py:130-131 | if ids are left over, each keeps a left-over predecessor and the edges contain a cycle |
| Schemas.Verdict | app/domain/workflows/schemas.py:130-133 | the final length test passes exactly for distinct ids without a cycle, and then the order meets the full specification |
| Schemas.GetStepOrder | app/domain/workflows/schemas.py:107-133 | returns a permutation of the ids in which every edge goes forward and ids appear in release order; raises exactly when ids repeat or the edges have a cycle; undeclared endpoints are a KeyError |
| Graphs.KahnOrderUnique | app/domain/workflows/schemas.py:117-133 | at most one order meets that specification, so the result is fully determined by steps and edges |
| Graphs.ForwardIsAcyclic | app/domain/workflows/schemas.py:130-133 | edges that all go forward in an order exclude cycles |
| Graphs.LeftoverCycle | app/domain/workflows/schemas.py:130-131 | a non-empty set in which every member has a predecessor in the set holds a cycle (pigeonhole on a backward walk) |
| Graphs.LaterIsAsDeep | app/domain/workflows/schemas.py:121-128 | every path into an ordered id is matched by an at least as long path into every later id |
| Graphs.DepthNonDecreasing | app/domain/workflows/schemas.py:117-128 | ids come out in non-decreasing longest-path depth |
| Graphs.DepthExists | app/domain/workflows/schemas.py:117-133 | every ordered id has a longest-path depth, at most its place in the order |
| Validator.ValidateSteps | app/domain/workflows/validator.py:61-87 | lists each step problem once, in order: an id that an earlier step has, then an unregistered implementation, then every message of the check of a non-empty override |
| Validator.ValidateEdges | app/domain/workflows/validator.py:89-107 | lists each edge problem once, in order: undeclared source, undeclared target, self-loop, with the number of the edge |
| Validator.BuildAdjacency | app/domain/workflows/validator.py:139-143 | the search graph holds the edges whose source is declared |
| Validator.GetReachableSteps | app/domain/workflows/validator.py:134-156 | returns exactly the ids on a path from the first step; the number of queue insertions is one plus the edges leaving reached steps, hence at most one plus the number of edges |
| Validator.ValidateConnectivity | app/domain/workflows/validator.py:109-132 | lists, when there are edges, the set of exactly the declared steps without a path from the first one, unless it is empty, and the cycle error exactly for repeated ids or a cycle; only an undeclared endpoint escapes |
| Validator.Validate | app/domain/workflows/validator.py:23-46 | lists every problem of the workflow once, in the order of the passes, or escapes with the first undeclared endpoint exactly when there is one |
| Validator.ReportListed | app/domain/workflows/validator.py:23-132 | the report is the list of all findings, each stated by the steps, edges, registry and paths alone |
| Problems.ListedIff | app/domain/workflows/validator.py:66-130 | a problem is reported if and only if it is found at some step, edge or in the graph |
| Problems.ListUnique | app/domain/workflows/validator.py:34-46 | there is only one list of the findings, so content, multiplicity and order of the report are determined |
| Validator.StepProblemsEmpty | app/domain/workflows/validator.py:66-87 | the step report is empty exactly when ids are distinct and every implementation is registered and accepts its non-empty override |
| Validator.EdgeProblemsEmpty | app/domain/workflows/validator.py:94-107 | the edge report is empty exactly when all endpoints are declared and there is no self-loop |
| Validator.CleanIffSound | app/domain/workflows/validator.py:23-132 | for a constructed definition with steps, `validate` is empty if and only if ids are distinct, all steps are accepted, there is no cycle and, with edges, every step is reachable |
| Validator.ConstructedReports | app/domain/workflows/validator.py:94-105 | on constructed definitions the not-found errors never occur and every self-loop comes with the cycle error |
| Validator.EntryStep | app/domain/workflows/validator.py:109-156 | a workflow that validates cleanly is executed from its first declared step; with edges that step is the only one without incoming edges and all others lie on a path from it |
| JobStore.RedisJobStore.CreateJob | app/infra/jobs/redis_job_store.py:28-49 | stores a pending record with the given id, type, idempotency key and the current time, all other fields null, for 3600 seconds |
| JobStore.ReadAfterUpdates | app/infra/jobs/redis_job_store.py:28-68 | `get_job` after a write and any number of later updates returns the record with all their patches applied in order, if every call came within one time-to-live of the one before it, and nothing otherwise |
| JobStore.RedisJobStore.UpdateJob | app/infra/jobs/redis_job_store.py:59-68 | a live record gets every given field, whichever they are, keeps all others, and lives for another 3600 seconds; nothing else changes, and nothing at all without a live record |
| JobStore.ApplyExactly | app/infra/jobs/redis_job_store.py:65-66 | the patched record is the one that has the given fields and agrees with the old one elsewhere |
| JobStore.UpdateRestartsTimeToLive | app/infra/jobs/redis_job_store.py:60-68 | an update leaves the end of the time-to-live alone if and only if it comes in the same instant as the last write or after that end; otherwise, and only then, the record can be read at that end |
| JobStore.AgreeOutsideIff | app/infra/jobs/redis_job_store.py:65-67 | an update makes two records equal exactly when they agree on every field it does not give |
| JobProtocol.AdvanceWorker | app/workers/eval_worker.py:64-88 | one awaited call of one worker ends; no other worker moves, and at most its own terminal event is published |
| JobSequential.HandlingRuns | app/workers/eval_worker.py:64-88 | from its delivery on, a v2 activation that nothing interrupts leaves the store, the clock, the events and the ending of `EvalWorker.Handle` in the same world, wherever in an update a call raises |
| JobSequential.DeliveryRuns | app/workers/eval_worker.py:47-88 | after any schedule a new delivery can be handled in this way |
| JobSequential.AttemptRuns | app/workers/tasks/eval_tasks.py:52-68 | a v1 activation that nothing interrupts leaves the store, the clock, the patches and the ending of `EvalTasks.RunAttempt` |
| JobProtocol.EffectIsInvisible | app/workers/eval_worker.py:75-88 | a worker goes on in the same way whether or not a call that raised took effect |
| JobProtocol.WrittenRecord | app/infra/jobs/redis_job_store.py:65-68 | whichever update wrote it, a record keeps its identity, has started and has the fields its status promises |
| JobProtocol.StepKeepsLifecycle | app/infra/jobs/redis_job_store.py:28-68 | every step of every client keeps the lifecycle invariant on records, snapshots and program counters |
| JobProtocol.RecordsAlwaysGood | app/infra/jobs/redis_job_store.py:28-68 | in every schedule of any number of workers, redeliveries, crashes and expiries, a readable record has its created identity and the fields its status promises |
| JobProtocol.UninterruptedUpdate | app/infra/jobs/redis_job_store.py:59-68 | a get and set with nothing in between have the whole effect of `update_job`, on a live record and on a missing one |
| JobPublishing.ExactlyOneTerminalEvent | app/workers/eval_worker.py:64-88 | in every schedule an activation publishes at most a completion and then a failure of its job; it has published exactly one event if it is a v2 handling that returned normally, and none otherwise, if and only if none of its publishes raised after taking effect |
| JobPublishing.EventsAreCounted | app/workers/eval_worker.py:64-88 | every event of an activation is accounted for: one by its normal return, the others by publishes that raised after taking effect |
| JobSchedules.CompletionThenFailure | app/workers/eval_worker.py:75-88 | a schedule in which one handling returns normally and has published both terminal events |
| JobSchedules.PublishBoth | app/workers/eval_worker.py:75-88 | every handling that is about to publish its completion may go on to publish both |
| JobPublishing.StepAgreesIff | app/workers/eval_worker.py:64-88 | one step of any client keeps the readable record equal to what a handling announced if and only if it is not a set by another activation that writes something else |
| JobPublishing.AgreesExactlyWhenHarmless | app/workers/eval_worker.py:64-88 | in every schedule, overlaps, crashes and expiries included, a readable record has the status and the result or error that a handling announced throughout, if and only if every later set by another activation writes the same |
| JobPublishing.LastEventAgrees | app/workers/eval_worker.py:64-88 | if no other activation sets the job after the announcement of a handling that returned normally, a readable record agrees with its last event, whatever overlapped before |
| JobPublishing.SoleHandlerAgrees | app/workers/eval_worker.py:64-88 | in every schedule in which no other activation runs beside a v2 handling (earlier ones may have returned, raised or crashed) and the job does not expire meanwhile, the record can be read and its status and result or error are those of the last published event, whichever calls raised |
| JobAtomicity.FoldWrite | app/infra/jobs/redis_job_store.py:62-68 | a set keeps the record equal to the fold of all patches exactly when its snapshot agrees with the stored record on the fields the patch leaves alone |
| JobAtomicity.FoldExactlyWhenFresh | app/infra/jobs/redis_job_store.py:59-68 | for every schedule in which a job does not expire, its record is the creation record with all its patches applied in call order throughout if and only if every set of it was fresh in this sense |
| JobAtomicity.RefinesAtomicStore | app/infra/jobs/redis_job_store.py:59-68 | if at most one update of a job is ever in flight and it does not expire, its record is the creation record with all its patches applied in call order, whatever happens to other jobs |
| JobSchedules.OverlapLosesUpdate | app/infra/jobs/redis_job_store.py:62-68 | a schedule of two overlapping deliveries in which a stored result is overwritten and the record contradicts the event its handling published |
| EvalWorker.TryComplete | app/workers/eval_worker.py:66-79 | ends with the first exception among evaluation, completion write and completion publish; publishes the completion exactly when there is none |
| EvalWorker.VerdictTells | app/workers/eval_worker.py:66-88 | for "single_turn" and "multi_turn" the event is the completion with the result if evaluation, write and publish work, and else the failure with the first error; any other type is a failure that names the type |
| EvalWorker.Handle | app/workers/eval_worker.py:47-88 | returns normally exactly when the start write and either the whole completion or the whole failure path worked; then it published exactly that event, and the record of a job that stayed live has its status, result or error, and the times of the first and the last write |
| EvalTasks.RunAttempt | app/workers/tasks/eval_tasks.py:52-68 | an attempt succeeds exactly when start write, evaluation and completion write do; the record receives the start patch and the completion or failure patch, each at its time |
| EvalTasks.RunTask | app/workers/tasks/eval_tasks.py:37-74 | at most four attempts, five seconds apart, all but the last failing, four unless one succeeds; the record is the old one with the attempts' patches applied in turn |
| EvalTasks.ChainOutcome | app/workers/tasks/eval_tasks.py:58-74 | the record is completed exactly when the last attempt succeeded, even if store calls raise; with a working store it is otherwise failed and the error is that of the last evaluation that broke |
| Text.JoinSplit | app/domain/workflows/nodes/chunking.py:67-70 | joining the parts of a split with the separator restores the text |
| Text.SplitExactly | app/domain/workflows/nodes/chunking.py:67-70 | for every separator, the parts are the one sequence that joins to the text and in which every part ends at the leftmost occurrence of the separator in what remains |
| Text.StripExactly | app/domain/workflows/nodes/chunking.py:76-77 | strip is the one way to remove whitespace at both ends so that none is left there |
| Text.SplitJoin | app/core/config/feature_flags.py:53-75 | splitting a join of parts without the separator character restores the parts |
| Text.StripKeeps | app/domain/workflows/nodes/chunking.py:76-77 | trimming keeps every character that is not whitespace, at its place |
| Chunking.RoundEmits | app/domain/workflows/nodes/chunking.py:75-80 | emitting a chunk keeps the tiling: the next window starts the overlap before the previous end |
| Chunking.SplitRecursive | app/domain/workflows/nodes/chunking.py:55-85 | chunks are trimmed windows of text plus separator: the first starts at 0, the last ends at the end, each next starts min(overlap, previous length) before the previous end; a window is cut exactly before a part that does not fit the chunk size (`Plan`); there are at most as many as parts; an empty first separator is an error |
| ChunkCuts.CutsAreGreedy | app/domain/workflows/nodes/chunking.py:72-80 | every window holds its first part and the following parts as long as they fit the chunk size, and ends before the first that does not |
| ChunkCuts.GreedyUnique | app/domain/workflows/nodes/chunking.py:72-85 | parts, chunk size and overlap admit one such tiling only |
| Chunking.NothingLost | app/domain/workflows/nodes/chunking.py:72-85 | every non-whitespace character of the text is in some chunk, at its place |
| Chunking.ChunkSize | app/domain/workflows/nodes/chunking.py:72-80 | chunks have length at most max(chunk_size, overlap + longest part) for a whitespace separator, and at most the separator's length more otherwise |
| ChunkSizes.OversizedWindows | app/domain/workflows/nodes/chunking.py:72-80 | the windows whose content exceeds the chunk size are exactly those left open by a part that does not fit behind the kept overlap |
| ChunkSizes.ChunksFitIff | app/domain/workflows/nodes/chunking.py:55-85 | with a whitespace separator no chunk exceeds the chunk size if and only if every part fits behind the overlap kept before it, or trimming takes the excess of its window away |
| ChunkSizes.BoundAttained | app/domain/workflows/nodes/chunking.py:72-80 | for every size and overlap over one character, a text with a chunk of length overlap + chunk_size, which is the bound |
| Chunking.ValidateConfig | app/domain/workflows/nodes/chunking.py:87-103 | no errors exactly when 100 <= chunk_size <= 10000 and 0 <= chunk_overlap < chunk_size after defaults; each message appears exactly when its condition fails |
| Chunking.RunSplitter | app/domain/workflows/nodes/chunking.py:21-53 | empty text gives no chunks, other text is split with the merged configuration, without an override at "\n\n" with size 1000 and overlap 200 |
| Chunking.AcceptedConfigBound | app/domain/workflows/nodes/chunking.py:28-40 | with an accepted configuration and no part over chunk_size, whitespace-separated chunks are shorter than 2 * chunk_size |
| Markdown.SplitMarkdown | app/domain/workflows/nodes/chunking.py:115-160 | the chunks are the trimmed sections between consecutive section starts, with their header; `headers` are the non-blank trimmed header lines in order |
| Markdown.ChunkHolds | app/domain/workflows/nodes/chunking.py:138-154 | the content of a chunk is the text of its lines, trimmed, and its header is its opening header line, trimmed, or empty |
| Markdown.HeaderLine | app/domain/workflows/nodes/chunking.py:128-139 | a line is a header if and only if it is a marker, a blank and any rest |
| Markdown.StartsAre | app/domain/workflows/nodes/chunking.py:138-148 | sections start exactly at the first line and at header lines |
| Markdown.SectionShape | app/domain/workflows/nodes/chunking.py:138-148 | every section but a possible preamble starts with a header line, and none contains another |
| Markdown.SectionCount | app/domain/workflows/nodes/chunking.py:138-158 | the number of chunks is the number of header lines, plus one when the first line is not a header |
| Markdown.SectionsReassemble | app/domain/workflows/nodes/chunking.py:138-154 | the untrimmed sections concatenate to the text with a final newline |
| Markdown.HeadersCompleteIff | app/domain/workflows/nodes/chunking.py:128-159 | `headers` lists all header lines of every text if and only if there are markers and each has a visible character or a line break |
| Markdown.DefaultMarkers | app/domain/workflows/nodes/chunking.py:109-113 | the default markers meet that condition |
| FeatureFlags.ParseJoin | app/core/config/feature_flags.py:51-53 | parsing a joined list yields the union of what its members parse to |
| FeatureFlags.ParsePadded | app/core/config/feature_flags.py:53 | whitespace around a name does not matter |
| FeatureFlags.AfterEnable | app/core/config/feature_flags.py:70-75 | enabling any name, joined in any order, adds what the name parses to |
| FeatureFlags.EnableExact | app/core/config/feature_flags.py:70-75 | enabling adds exactly the name if and only if it is non-empty, trimmed and comma-free |
| FeatureFlags.AfterDisable | app/core/config/feature_flags.py:77-82 | disabling any name, joined in any order, removes exactly that name |
| FeatureFlags.CommaName | app/core/config/feature_flags.py:70-75 | a name with a comma enables the two names around it and not itself |
| FeatureFlags.QueryAfterEnable | app/core/config/feature_flags.py:55-75 | after enabling any name, `is_enabled` is true of exactly the flags that were on or that the name alone turns on; the name itself is on exactly when it was, or is clean, or parses to the wildcard |
| FeatureFlags.QueryAfterDisable | app/core/config/feature_flags.py:55-82 | after disabling a name, `is_enabled` is unchanged for other flags, and still true of the name under the wildcard; disabling the wildcard leaves the flags listed by name |
| FeatureFlags.DisableUnderWildcard | app/core/config/feature_flags.py:55-82 | for every name but the wildcard, a stored string after whose `disable` of the name the name is still on |
| FeatureFlags.Flags.Enable | app/core/config/feature_flags.py:70-75 | the stored string parses to the old set with the name added |
| FeatureFlags.Flags.Disable | app/core/config/feature_flags.py:77-82 | the stored string parses to the old set with the name removed |
| FeatureFlags.Flags.GetAllFlags | app/core/config/feature_flags.py:84-89 | lists every known flag with the answer of `is_enabled` |
| FeatureFlags.RunRefinesSet | app/core/config/feature_flags.py:51-82 | over any sequence of operations with any names the parsed string equals an abstract set to which `enable` adds what its name parses to and from which `disable` removes its name, whatever order it was joined in |
| FeatureFlags.CleanRunRefinesSet | app/core/config/feature_flags.py:51-82 | if all enabled names are clean, that set is the one in which each name is added and removed as it is |
| ApiKeys.ApiKeyService.ValidateKey | app/core/security/api_key_service.py:101-142 | a cached key that is active and before its expiry is returned and nothing changes; otherwise such a key of the repository is returned, cached and touched; otherwise nothing is returned and nothing changes. The effect is that of its read, its insertion and its touch run without interruption |
| ApiKeys.ApiKeyService.RevokeKey | app/core/security/api_key_service.py:144-161 | true exactly when the repository call worked; its effect is that of the deactivation and of one matching deletion run without interruption; a call that raises may have deactivated the key, and deletes nothing |
| KeyCache.StepKeepsLinked | app/core/security/api_key_service.py:101-161 | every step keeps cached and fetched keys copies of repository keys that differ at most in a later revocation |
| KeyCache.StepTransparentIff | app/core/security/api_key_service.py:112-158 | from a state in which the cache is transparent, one step of any call leaves it transparent if and only if the step is safe: fresh insertion, complete deletion, or another revocation of the key in flight |
| KeyCache.TransparentExactlyWhenSafe | app/core/security/api_key_service.py:101-161 | in every schedule of validations, revocations, new keys and failures, the service answers like the repository throughout, for keys without a revocation in flight, if and only if every step is safe |
| KeyCache.TransparentExactlyWithoutRace | app/core/security/api_key_service.py:121-158 | with one hash for each id and no revocation that raises after its effect, this holds if and only if no revocation of a key runs completely between a read and its insertion, unless another revocation of that key is in flight at the insertion |
| KeyCache.CacheIsTransparent | app/core/security/api_key_service.py:101-161 | if validations and revocations do not overlap either, the service accepts after every run exactly the keys, with the same entity up to last use, that the repository accepts after the same operations without a cache |
| KeyCache.NeverAnsweredExpired | app/core/security/api_key_service.py:112-128 | after every run an answer is active and before its expiry, and an active key of the repository before its expiry is answered |
| KeyCache.CacheRespectsExpiry | app/core/security/api_key_service.py:112-128 | after every run no hash is answered at or after the expiry that the repository holds for it |
| KeyCache.RaceKeepsRevokedKey | app/core/security/api_key_service.py:121-128 | for every valid key, a schedule with a revocation between read and insertion after which the key is accepted until it expires and the repository never accepts it |
| KeyCache.FailureKeepsRevokedKey | app/core/security/api_key_service.py:149-161 | the same after a revocation of a cached key that raises after its effect |
| KeyCache.SharedIdKeepsRevokedKey | app/core/security/api_key_service.py:153-156 | the same for the second of two cached hashes with one key id |
| Metrics.ConfusionCounts | app/utils/evaluation_metrics.py:10-21 | counts the pairs of each of the four kinds; lengths must match |
| Metrics.CountIs | app/utils/evaluation_metrics.py:10-21 | each counter is the number of positions whose pair is of its kind |
| Metrics.CountsAddUp | app/utils/evaluation_metrics.py:10-21 | the counts sum to the samples; tp+fn and tp+fp are the positive label's entries in the two class distributions |
| Metrics.CorrectBounds | app/utils/evaluation_metrics.py:30-31 | tp <= correct <= tp+tn, with the upper equality exactly when no pair has two different non-positive labels |
| Metrics.ClassificationSummary | app/utils/evaluation_metrics.py:24-43 | rejects exactly unequal lengths and empty input; accuracy times samples is the number of positions with equal labels |
| Metrics.SharesOfPositives | app/utils/evaluation_metrics.py:32-33 | precision is the number of pairs with two positive labels divided by the predicted positives, recall the same divided by the actual positives; without such positives the score is zero |
| Metrics.ScoreBounds | app/utils/evaluation_metrics.py:32-35 | precision, recall and F1 are in [0,1] and F1 lies between precision and recall |
| Metrics.F1ClosedForm | app/utils/evaluation_metrics.py:32-34 | F1 equals 2tp/(2tp+fp+fn), degenerate cases included |
| Pagination.HasNextIff | app/api/deps/pagination.py:84-105 | `has_next` holds exactly when offset + limit < total |
| Pagination.HasPrevIff | app/api/deps/pagination.py:97-105 | the response repeats items, total, page and page size, and `has_prev` holds exactly when the offset is positive |
| Pagination.PagesExactly | app/api/deps/pagination.py:92-96 | `pages` is the least positive number of pages that holds all items |
| Pagination.ExactlyOnePage | app/api/deps/pagination.py:38-46 | every item index lies on exactly one page, and that page is between 1 and `pages` |
| Pagination.WalkIsEverything | app/api/deps/pagination.py:84-105 | following `has_next` from page 1 concatenates the slices back to the whole list |

## Left out

- FastAPI routers, middleware, logging, tracing and settings: request plumbing without deep invariants.
- The Ragas adapter, LLM and embedding providers, vector store and SQL session: calls into libraries; an evaluation is a parameter that succeeds or fails.
- The real Redis, Kafka and Celery clients: only the store, publisher and retry counter the code relies on are modelled.
- Hashing, JWT, Auth0 and password checks: a key is identified with its hash.
- Workflow fields that ordering and validation do not read (edge conditions and priorities, quality gates, metadata, node types) and `compute_hash`.
- Retrieval, embedding, generation, reranking, evaluation and guardrail nodes: only their configuration check appears, as an arbitrary function in the registry.
- The regular expression of the markdown splitter beyond an anchored choice of literal markers followed by a space.
- A key repository that hands out the very objects it later changes: keys are values, so a cached key is a copy.
- EvalWorker.Handle: does not model a write or publish that takes effect and then raises, because `JobProtocol` does.
- The escapes of `repr` in the error for an unknown evaluation type: the type is put between quotes as it is.
- Floating-point rounding in the metrics: scores are exact reals.
- Python type errors for configuration values of the wrong type.
- RateLimiter, quota checks, `publish_version` and dry runs: stubs in the source.
- The in-memory user store, permission predicates, cursor pagination and sort-field parsing: short independent checks.
