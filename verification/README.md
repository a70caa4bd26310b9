# nv-ingest verification

A Dafny model of the parts of nv-ingest that are algorithms and state machines rather than glue, with proofs of what
they keep. Code that changes state step by step is modelled by classes and loops proved against a specification;
threads, HTTP, Redis and the backend appear as the choices of an environment that is not constrained.
`dafny verify dfyconfig.toml` checks all of it.

| file | models |
|---|---|
| Scheduler, ConcurrentProcessor, ClientJobs | the client's bounded in-flight scheduler with retries, its books, and the client's job table |
| JobHandler | the CLI's round-based scheduler over the same client |
| PipelineDependencies | the depth-first search for cycles among pipeline stages |
| UdfKeys, UdfCache | the LRU cache with time to live of compiled user functions, and what its keys tell apart |
| BalancedGroups, Sorting | longest-first grouping with a heap |
| PdfSplit, ChunkRecords, DocumentExtraction, ShippedRecords, Aggregation | splitting a PDF, renumbering its records, gathering and aggregating subjobs, and what extraction of the whole PDF gives |
| TraceTimes, TraceKeys, TraceStages, TraceAggregation, TraceClient | trace keys, resident times, parent traces, and where client and server agree |
| ReplicaResolver | static replica counts under a memory budget |
| LazyLoadedList | indexed access to a line file |
| ControlMessage | the task dictionary and removal by type |
| MarkdownSplit | splitting text at markdown headers |
| FetchJob, JobStates | the states of a job on the server and the fetch endpoint |
| Sequences, PyStrings | sequences, and the Python string operations the code uses |

## What the code does not promise

Each of these is proved, with the exact condition where there is one.

- A result whose resident times cannot be computed, because a stage the client reads off the trace has an entry and an
  exit that are not both numbers, is recorded as a result and then again as a failure. So results and failures add up
  to the jobs, and traces run parallel to results, exactly when no recorded result is of that kind
  (`ConcurrentProcessor.AccountingExact`, `ConcurrentProcessor.TracesParallel`). On the server times of a chunk that are
  not null and not both numbers make the response of the parent job a 500 (`Aggregation.BrokenResponse`).
- A response without a status, or with a status that is a stretch of the word "failed", counts as failed
  (`ConcurrentProcessor.FailureMeans`).
- The guard against recording a failure twice compares a bare index with `index:source_id` and never holds
  (`ConcurrentProcessor.BareIndexIsNoLabel`).
- Functions share a cache key exactly when another colon of the key ends a trimmed text (`UdfKeys.KeyIsUnique`). Without
  expiry and with room, a request gets what the first one with its key compiled to, so all answers are right exactly
  when requests with one key agree (`UdfKeys.AnswersRight`, `UdfCache.UDFCache.Serve`); `UdfKeys.WrongAnswer` has the
  requests of which the second gets the wrong function, `UdfKeys.WrongAfterComment` texts for them.
- Splitting a PDF and aggregating gives the records of extracting it whole with the pdfium engine exactly when two
  things hold (`DocumentExtraction.SplitHoldsSameRecords`). First, the text is taken page by page or there is one chunk:
  at document depth, the client's default, every chunk brings its own text record. Second, all chunks say of the
  document what the whole says: normalization replaces id, name and page count, but the engine writes the id as the
  name, so that a document sent under another id gets another name (`DocumentExtraction.NameIsReplaced`), and dates and
  keywords remain those of the chunk, which is a new PDF with an info dictionary of its own
  (`DocumentExtraction.KeywordsAreLost`). `DocumentExtraction.AlikeExactly` says when the second holds. Tables and
  charts can change places (`DocumentExtraction.TablesComeEarlier`).
- Chunk descriptors as shipped carry no start page, because the split writes `start_page` and the descriptor reads
  `start`; the records are then right exactly when besides nothing after the first chunk is numbered
  (`ShippedRecords.ShippedHoldsSameRecords`).
- A fetch that yields nothing is counted in `subjobs_failed` but not listed in `failed_subjobs`, and alone it does not
  make the status "failed" (`Aggregation.EverySubjobCounted`, `Aggregation.StatusShowsGaps`).
- The minimum of one replica can exceed the memory budget (`ReplicaResolver.MinimumCanExceedBudget`); the budget is kept
  exactly when what raising adds is saved by rounding down or left over (`ReplicaResolver.ResolvedStagesKeepBudget`).
- Reading a line file as text sees one more line for every carriage return inside it that no newline follows
  (`LazyLoadedList.TextLineCount`); a list announced as empty never shows a line.
- Removal by type removes the first tasks of each matching id, which are those of the type exactly when they come first
  under their id (`ControlMessage.RemovesExactlyTheKind`); removing one takes a task of another type exactly when the
  first id that has one of the type does not start with it (`ControlMessage.TakesFirstOrOther`).
- With one file to a group, files of equal weight come in the reverse order of their paths
  (`BalancedGroups.SinglesReverseTies`).
- A destructive read that cannot be serialized is recorded as delivered, and the result is lost
  (`FetchJob.UnserializableIsLost`).
- When specs are missing, jobs are entered under the names of other files unless all unreadable files of the slice come
  last (`JobHandler.NamesMatchFiles`).
- The client takes every occurrence of the prefix out of an entry key, so it computes the resident time of a stage
  exactly when some entry key is read as that stage (`TraceClient.ClientAddsNamed`); a stage alone in its trace is
  missed when its name holds the prefix again (`TraceClient.ClientMissesNestedPrefix`).

## Model

| member | source | states |
|---|---|---|
| ClientJobs.NvIngestClient.SubmitJobAsync | client/src/nv_ingest_client/client/client.py:1580-1592 | only pending jobs of the list are marked submitted; on normal return all of them were pending and are; nothing else moves |
| ClientJobs.NvIngestClient.RunSubmissions | client/src/nv_ingest_client/client/client.py:1439-1497 | each job waiting for its submission ends submitted or failed; all others stay |
| ClientJobs.NvIngestClient.FetchJobResultAsync | client/src/nv_ingest_client/client/client.py:1380-1437 | returns normally only when every job asked for is submitted; an unknown or terminal job makes it raise |
| ClientJobs.NvIngestClient.FetchJobResult | client/src/nv_ingest_client/client/client.py:1056-1187 | what the caller is told and what becomes of the job, for every reply of the broker: a fetched job leaves the table, one that is not ready stays as it was, a failed one is marked so, and no other job is touched |
| ClientJobs.MovesAre | client/src/nv_ingest_client/primitives/jobs/job_state.py:110-119 | a job state moves forwards only, and from a final state not at all |
| Scheduler.StepKeepsPartition | client/src/nv_ingest_client/client/client.py:531-636 | every event of the loop (take, submit or refuse, launch, finish in any way, retry) leaves each job in exactly one of the places unsubmitted, retry, taken, in flight, succeeded, failed |
| Scheduler.StepKeepsBudget | client/src/nv_ingest_client/client/client.py:617-630 | a job not yet recorded has been fetched once for each counted retry and once more while in flight, and never more than the retry limit plus one |
| Scheduler.RunInvariant | client/src/nv_ingest_client/client/client.py:531-636 | for any sequence of events from a good state the partition and the fetch budget hold, and every finished future or refused job uses up remaining work |
| Scheduler.NotReadyRetries | client/src/nv_ingest_client/client/client.py:617-630 | a job that is not ready waits for a retry exactly when there is no limit or it has not yet used up as many fetches, and is refused otherwise |
| Scheduler.RetriedToTheLimit | client/src/nv_ingest_client/client/client.py:531-636 | over a whole run a job that is only ever put off is given up exactly when it has been put off once more often than the limit allows, with as many fetches; without a limit never |
| Scheduler.RunsAreBounded | client/src/nv_ingest_client/client/client.py:531-636 | with a retry limit M no sequence of events finishes futures and refuses jobs more than jobs * (M + 1) times, or fetches one job more than M + 1 times |
| Scheduler.WorkCoversPending | client/src/nv_ingest_client/client/client.py:531-636 | remaining work is never negative and is positive while anything is pending |
| Scheduler.Drained | client/src/nv_ingest_client/client/client.py:531-641 | when nothing is pending, the succeeded and the failed jobs together are the given jobs, each once |
| ConcurrentProcessor.FailureMeans | client/src/nv_ingest_client/util/util.py:194 | a status counts as failed exactly when it is a stretch of the word failed, so a missing one does and a longer one does not |
| ConcurrentProcessor.LabelNamesJob | client/src/nv_ingest_client/client/client.py:236-238 | the text under which a failure is recorded determines its job and source |
| ConcurrentProcessor.BareIndexIsNoLabel | client/src/nv_ingest_client/client/client.py:235-240 | no recorded failure is the bare index, so the record-once guard never holds a failure back |
| ConcurrentProcessor.AccountingExact | client/src/nv_ingest_client/client/client.py:318-335 | results and failures add up to the jobs, so that the warning about lost jobs is not reached, exactly when no recorded result had a trace whose resident times cannot be computed; in particular without return_traces |
| ConcurrentProcessor.ListsHold | client/src/nv_ingest_client/client/client.py:285-306 | results hold the form that was asked for, and traces the trace of the response with its resident times |
| ConcurrentProcessor.TracesParallel | client/src/nv_ingest_client/client/client.py:290-305 | traces has the length of results, and then traces[i] and results[i] come from the same job, exactly when no recorded result had such a trace |
| ConcurrentProcessor.RecordedKeepsFaithful | client/src/nv_ingest_client/client/client.py:264-316 | after a fetched response the three lists and the callback calls still hold, entry by entry, what their jobs' responses say; the callback is called once for every fetched response whose handling ends |
| ConcurrentProcessor.EachJobOnce | client/src/nv_ingest_client/client/client.py:531-641 | the recorded jobs are the given ones, and a job has both a result and a failure exactly when handling its result raised late |
| ConcurrentProcessor.Processor.HandleFailure | client/src/nv_ingest_client/client/client.py:209-245 | always appends the labelled failure and forgets the retry count |
| ConcurrentProcessor.Processor.HandleSuccess | client/src/nv_ingest_client/client/client.py:264-316 | a failed status (looked up as a substring of "failed") is a failure with its description, any other a result in the requested form with its trace; raises exactly when return_traces is set and the trace pairs an entry and an exit that are not both numbers, after the result was recorded; otherwise the callback is called |
| ConcurrentProcessor.Processor.Settle | client/src/nv_ingest_client/client/client.py:605-636 | the outcome of the fetch decides: a timeout within the limit becomes a retry, a good response a result, everything else a failure with its reason, and the answer is kept for the books |
| ConcurrentProcessor.Processor.FinishOne | client/src/nv_ingest_client/client/client.py:602-636 | any in-flight future, however it ends, keeps the books and uses up work |
| ConcurrentProcessor.Processor.SubmitNew | client/src/nv_ingest_client/client/client.py:542-571 | the next contiguous slice is submitted in one call, or all of it is recorded as failed |
| ConcurrentProcessor.Processor.LaunchFetches | client/src/nv_ingest_client/client/client.py:573-590 | fetches start for all jobs of the turn, each submitted and not terminal, or all of them are recorded as failed |
| ConcurrentProcessor.Processor.ProcessDone | client/src/nv_ingest_client/client/client.py:597-636 | at least one and at most all in-flight futures are handled, in any order |
| ConcurrentProcessor.Processor.Fill | client/src/nv_ingest_client/client/client.py:531-590 | unless something is refused, no in-flight place stays empty while a job waits for one, and new jobs are submitted only when no retry is left waiting |
| ConcurrentProcessor.Processor.Turn | client/src/nv_ingest_client/client/client.py:531-636 | one turn keeps the partition, the books and at most batch_size jobs in flight, and with a retry limit uses up work |
| ConcurrentProcessor.Processor.Run | client/src/nv_ingest_client/client/client.py:498-641 | on normal return every job is recorded once (and once more for each late fault), the submitted slices put together are the job list, and with a retry limit M it ends within jobs * (M + 1) turns and no job is fetched more than M + 1 times; every record is explained by what the fetches of the job came back with: a result by its last answer, a failure by its reason, and one for exceeded retries by M + 1 answers that it is not ready, so that without a limit there is none |
| ConcurrentProcessor.ValidateBatchSize | client/src/nv_ingest_client/client/client.py:1216-1253 | the requested size when it is at least 1, the environment's when none is requested and it is at least 1, otherwise 32 |
| ConcurrentProcessor.ProcessJobsConcurrently | client/src/nv_ingest_client/client/client.py:1255-1378 | the results, failures and traces returned account for every given job, and are explained by what the client was told |
| JobHandler.IngestJobHandler.GenerateJobBatch | client/src/nv_ingest_client/client/ingest_job_handler.py:136-174 | retries first, then new jobs up to the batch size: at most batch_size jobs, every one in the id map; raises exactly when fail_on_error is set and a file of the slice is unreadable, or submitting the new jobs raises |
| JobHandler.IngestJobHandler.RoomIsFilled | client/src/nv_ingest_client/client/ingest_job_handler.py:137-156 | as many new files are taken as there is room for beside the retries |
| JobHandler.IngestJobHandler.CollectRound | client/src/nv_ingest_client/client/ingest_job_handler.py:325-388 | whatever order the futures complete in, each job of the round is retried, succeeded or failed as its wait ended, once, and the progress counts those not retried |
| JobHandler.IngestJobHandler.Run | client/src/nv_ingest_client/client/ingest_job_handler.py:305-390 | on normal return every file was attempted once in order, the progress equals the number of files and every job made is settled once, as one of its waits ended; it raises only for an unreadable file under fail_on_error or a submission or fetch that raises, takes at most one round for each file and for each wait that timed out, and never ends with a batch size below 1 |
| JobHandler.NamesMatchFiles | client/src/nv_ingest_client/client/ingest_job_handler.py:151-168 | new jobs are entered under their own files exactly when no unreadable file of the slice precedes a readable one |
| JobHandler.EachIndexOnce | client/src/nv_ingest_client/client/client.py:726-740 | the job indices are distinct, so settling their multiset settles each job once |
| PipelineDependencies.OrderExcludesCycle | src/nv_ingest/pipeline/ingest_pipeline.py:316-356 | stages that can be put in a start order have no cycle |
| PipelineDependencies.CircularIsCycle | src/nv_ingest/pipeline/ingest_pipeline.py:345-353 | an edge whose target leads back to its source lies on a cycle |
| PipelineDependencies.CycleSearch.DetectCycle | src/nv_ingest/pipeline/ingest_pipeline.py:345-356 | the search ends (stages outside visiting and visited shrink), restores visiting, and reports only an edge whose target leads back |
| PipelineDependencies.GraphHoldsStages | src/nv_ingest/pipeline/ingest_pipeline.py:326-327 | the graph holds the name of every stage, with the dependencies of the last stage of that name |
| PipelineDependencies.ValidateDependencies | src/nv_ingest/pipeline/ingest_pipeline.py:316-343 | in terms of the stages: accepts exactly when every dependency is the name of a stage and the stages have an order to start in, which is exactly when none goes round to itself; reports a real undefined dependency or a real step of a cycle; for any iteration order |
| UdfKeys.KeyDeterminesFunction | api/src/nv_ingest_api/internal/meta/udf.py:40-43 | for names without a colon the key determines stripped text and name |
| UdfKeys.KeyIsUnique | api/src/nv_ingest_api/internal/meta/udf.py:40-43 | a trimmed text and a name share their key with no other exactly when no other colon of the key ends a trimmed text |
| UdfCache.AliveUntil | api/src/nv_ingest_api/internal/meta/udf.py:54-64 | an entry stays while it is no older than the time to live, used or not; for ever without one |
| UdfCache.UDFCache.EvictLru | api/src/nv_ingest_api/internal/meta/udf.py:45-49 | takes the oldest entry of the order out of order and cache |
| UdfCache.UDFCache.CleanupExpired | api/src/nv_ingest_api/internal/meta/udf.py:51-64 | exactly the entries older than the time to live leave; the order keeps its coverage, and its exact listing when it had one |
| UdfCache.UDFCache.Get | api/src/nv_ingest_api/internal/meta/udf.py:66-85 | returns exactly an unexpired entry of the key, now used last; what it returns is no older than the time to live, and a cached entry it does not return is; keeps coverage and the LRU order |
| UdfCache.UDFCache.Put | api/src/nv_ingest_api/internal/meta/udf.py:87-110 | for any calls: evicts until there is room and keeps every cached key in the order; for a key not cached: evicts least recently used keys only |
| UdfCache.UDFCache.MakeRoom | api/src/nv_ingest_api/internal/meta/udf.py:93-95 | the eviction loop ends, because every cached key is in the order |
| UdfCache.UDFCache.Lookup | api/src/nv_ingest_api/internal/meta/udf.py:190-217 | get, then compile and put on a miss: the answer is the cached code of the key, or else what compiling gives; expired keys leave the order and the key moves to its end, if there is a function, in place of the oldest one when there is no room |
| UdfCache.UDFCache.Serve | api/src/nv_ingest_api/internal/meta/udf.py:158-217 | over a whole sequence of requests whose keys tell different functions apart every answer is what compiling afresh gives; whatever expires, the order is the cached keys by last request; without expiry they are the most recently used distinct functions, and with room for all keys every request gets what the first one with its key gave, so that all are right exactly when requests with one key agree |
| UdfCache.LastAccess | api/src/nv_ingest_api/internal/meta/udf.py:66-112 | one access, with keys expired and evicted, keeps the order that of the last accesses |
| UdfKeys.KeysTellWithoutColons | api/src/nv_ingest_api/internal/meta/udf.py:40-43 | keys tell the functions of all requests apart when no name holds a colon |
| UdfKeys.AnswersAreFirst | api/src/nv_ingest_api/internal/meta/udf.py:190-217 | when nothing is dropped, the known code of a key is that of the first request with this key that compiles |
| UdfKeys.AnswersRight | api/src/nv_ingest_api/internal/meta/udf.py:190-217 | then every request gets what compiling it gives exactly when requests with one key compile alike, as far as the earlier one compiles |
| UdfKeys.AgreeAlways | api/src/nv_ingest_api/internal/meta/udf.py:40-43 | for all functions at once that is so exactly when requests with one key ask for one function |
| UdfKeys.WrongAnswer | api/src/nv_ingest_api/internal/meta/udf.py:40-43 | a trimmed text t with the name s:f and the text t:s with the name f: the second request is answered with the function of the first |
| UdfKeys.WrongAfterComment | api/src/nv_ingest_api/internal/meta/udf.py:129-144 | so it is for any text that ends in a comment, which the second text merely continues |
| UdfCache.LruIsRecency | api/src/nv_ingest_api/internal/meta/udf.py:66-110 | moving to the end and dropping the oldest is the same as keeping the last max_size distinct keys of the history |
| UdfCache.LargerCacheHoldsMore | api/src/nv_ingest_api/internal/meta/udf.py:66-110 | a larger cache holds whatever a smaller one holds after the same history |
| BalancedGroups.GroupCountIsCeiling | client/src/nv_ingest_client/util/util.py:260-261 | the number of groups is the least that has room for all files |
| BalancedGroups.NeverFull | client/src/nv_ingest_client/util/util.py:271-272 | before each file is placed some group has room: the heap is never popped empty |
| BalancedGroups.HeapStep | client/src/nv_ingest_client/util/util.py:271-277 | popping the top and pushing it back unless the group is full keeps exactly one current entry for every group with room |
| BalancedGroups.PlaceWithHeap | client/src/nv_ingest_client/util/util.py:264-277 | the heap form computes what scanning for the lightest group with room computes, and the loads are the groups' weights |
| BalancedGroups.PlaceKeeps | client/src/nv_ingest_client/util/util.py:270-277 | no group is overfull and every file is in one group, once |
| BalancedGroups.PlaceBalances | client/src/nv_ingest_client/util/util.py:270-277 | a group outweighs a group with room by at most the file put into it last |
| BalancedGroups.ArrangedIsPermutation | client/src/nv_ingest_client/util/util.py:279-281 | arranging keeps the groups and puts heavier ones first |
| BalancedGroups.GroupsAreBalanced | client/src/nv_ingest_client/util/util.py:248-282 | the groups hold the given files, as many as needed and none too large, heaviest first, and none outweighs a group with room by more than its own smallest file |
| BalancedGroups.GroupsForgetOrder | client/src/nv_ingest_client/util/util.py:253-259 | the groups do not depend on the order in which the files are given |
| BalancedGroups.SinglesReverseTies | client/src/nv_ingest_client/util/util.py:270-281 | with one file to a group, files of equal weight come in the reverse order of their paths |
| BalancedGroups.BalancedGroupsFlatOrder | client/src/nv_ingest_client/util/util.py:248-282 | returns the given paths, cut into as many groups as are needed, none too large, each and all of them heaviest first by the weights of the paths, and none heavier than a group with room by more than any of its own paths |
| Sorting.LexMeans | client/src/nv_ingest_client/util/util.py:255-257 | strings compare by their first difference, or by which is a beginning of the other |
| Sorting.SortedIsSorted | client/src/nv_ingest_client/util/util.py:253-259 | sorted() gives an ordered permutation |
| Sorting.SortedUnique | client/src/nv_ingest_client/util/util.py:253-259 | there is only one ordered permutation when no two items tie |
| PdfSplit.SplitPdfToChunks | src/nv_ingest/api/v2/ingest.py:133-181 | the chunks are the consecutive slices of the given size (1 when it is not positive), with their index and page range |
| PdfSplit.ChunkCountIsCeiling | src/nv_ingest/api/v2/ingest.py:150 | there is a chunk exactly for every multiple of the size below the page count |
| PdfSplit.SplitPartitions | src/nv_ingest/api/v2/ingest.py:150-176 | the chunks put end to end are the document; none is empty, none too large, and only the last may be short |
| PdfSplit.RangesAreConsecutive | src/nv_ingest/api/v2/ingest.py:167-175 | the page ranges on the chunks run from page 1 to the last page without gap or overlap |
| PdfSplit.PageHasOnePlace | src/nv_ingest/api/v2/ingest.py:150-175 | every page of the document is exactly one local page of exactly one chunk |
| ChunkRecords.NormalizeChunkRecords | src/nv_ingest/api/v2/ingest.py:504-571 | every record is normalized, in order; records that are not a list give none |
| ChunkRecords.NormalizeEntry | src/nv_ingest/api/v2/ingest.py:525-569 | shifts page numbers, puts in the document's id, name and page count, and leaves all else |
| ChunkRecords.SourceKept | src/nv_ingest/api/v2/ingest.py:535-543 | an id or name of the document that is unknown or empty leaves that of the record |
| ChunkRecords.NormalizeExtract | src/nv_ingest/api/v2/ingest.py:504-571 | normalizing what a pass over a part of the pages made gives what a pass counted as in the document makes of those pages, with id, name and page count replaced by those of the document that are known, and dates and keywords left as the part has them; a negative page number stays as it is |
| ChunkRecords.DatesRead | api/src/nv_ingest_api/util/metadata/aggregators.py:105-117 | the id is written as the name too, and the clock stands in for a date that is missing |
| ChunkRecords.ExtractBears | api/src/nv_ingest_api/util/metadata/aggregators.py:105-127 | records of a pass say of the document what another label says exactly when the labels agree on the source metadata, keywords and page counts these records have |
| DocumentExtraction.NormalizedExtraction | src/nv_ingest/api/v2/ingest.py:504-571 | normalized, an extraction of a part of the document is one under the replaced label, its pages counted as in the document: loop over the pages, tables and charts in any order, text of all pages |
| DocumentExtraction.NoPageStays | src/nv_ingest/api/v2/ingest.py:552-566 | a record without a page, such as the text of a whole document with its page -1, keeps saying so |
| DocumentExtraction.SplitContents | src/nv_ingest/api/v2/ingest.py:656-771 | when all chunks say the same of the document as the whole does, the aggregated records are those of both passes over all pages and, at document depth, one text record for every chunk |
| DocumentExtraction.SplitHoldsSameRecords | api/src/nv_ingest_api/internal/extract/pdf/engines/pdfium.py:436-606 | with start pages carried the aggregated records are those of extracting the whole document exactly when the text is taken page by page or there is at most one chunk, and for every chunk the id, name, page count, dates and keywords of its normalized records are the whole's |
| DocumentExtraction.BearersAlike | src/nv_ingest/api/v2/ingest.py:525-566 | equal records force the labels to agree, with or without start pages |
| DocumentExtraction.AlikeExactly | api/src/nv_ingest_api/util/metadata/aggregators.py:105-127 | for records with source metadata the labels agree exactly when the name sent is the id, which the engine writes as the name, and the dates of each chunk with a record and the keywords of each chunk with text are the document's |
| DocumentExtraction.NameIsReplaced | src/nv_ingest/api/v2/ingest.py:540-543 | a document sent under an id other than its name: the whole gives the id as its name, the aggregated records give the name |
| DocumentExtraction.KeywordsAreLost | src/nv_ingest/api/v2/ingest.py:155-158 | keywords of the document that a chunk's own info dictionary lacks are missing from the aggregated records |
| DocumentExtraction.SplitIsSameSequence | api/src/nv_ingest_api/internal/extract/pdf/engines/pdfium.py:436-606 | without tables and charts they are then the same list |
| DocumentExtraction.TablesComeEarlier | api/src/nv_ingest_api/internal/extract/pdf/engines/pdfium.py:548-588 | with tables the order can differ, because extraction of the whole puts them after all pages |
| ShippedRecords.ShippedHoldsSameRecords | src/nv_ingest/api/v2/ingest.py:942-950 | with the descriptors as shipped they are those of the whole document exactly when besides no record made of a page after the first chunk carries a page number |
| ShippedRecords.ShippedIsSameSequence | src/nv_ingest/api/v2/ingest.py:942-950 | and likewise the same list without tables and charts |
| Aggregation.GatherInBatches | src/nv_ingest/api/v2/ingest.py:282-305 | all outcomes in order, whatever the batch size, never more of them awaited at once; without return_exceptions it stops exactly when some call raised |
| Aggregation.CheckAllSubjobStates | src/nv_ingest/api/v2/ingest.py:352-393 | deferred exactly when some subjob is under way; otherwise lists exactly the failed ones in order |
| Aggregation.FetchAllSubjobResults | src/nv_ingest/api/v2/ingest.py:396-486 | deferred exactly when a fetchable subjob is not ready; otherwise each result stands in its subjob's place and each failed fetch is appended in order |
| Aggregation.BuildAggregatedResponse | src/nv_ingest/api/v2/ingest.py:656-771 | data is the in-order concatenation of the normalized records of successful subjobs, the chunks are their descriptors, failed exactly when a failure is listed, and the trace is the parent trace of their segments; raises exactly when times of the merged traces cannot be subtracted |
| Aggregation.SegmentsDistinct | src/nv_ingest/api/v2/ingest.py:725-745 | subjobs with different chunk indices give segments with different chunk indices |
| Aggregation.BrokenResponse | src/nv_ingest/api/v2/ingest.py:628-653 | then a response cannot be built exactly when the trace of some subjob pairs an entry and an exit that are not both numbers |
| Aggregation.FetchParentJob | src/nv_ingest/api/v2/ingest.py:1285-1303 | 202 exactly when some subjob is pending, 500 exactly when a state cannot be read or times of the merged traces cannot be subtracted, otherwise the response of all subjobs, for every concurrency level; never more calls at once than half of it, but for a single one |
| Aggregation.EverySubjobCounted | src/nv_ingest/api/v2/ingest.py:372-484 | chunks, failures and empty fetches add up to the subjobs, and subjobs_failed counts the last two |
| Aggregation.FailuresAreTheLost | src/nv_ingest/api/v2/ingest.py:380-480 | failed_subjobs names exactly the subjobs that failed or whose fetch raised, each once |
| Aggregation.ChunksAreDone | src/nv_ingest/api/v2/ingest.py:713-720 | for ascending chunk indices, chunks lists the descriptors of the subjobs with a result, ascending |
| Aggregation.SegmentsAreTraces | src/nv_ingest/api/v2/ingest.py:722-736 | and trace_segments the traces that are there, under their chunk indices |
| Aggregation.AnnotationsAreLast | src/nv_ingest/api/v2/ingest.py:739-751 | an annotation is that of the last subjob that has one under its key |
| Aggregation.FailureEntries | src/nv_ingest/api/v2/ingest.py:375-497 | each entry of failed_subjobs names job and error of the subjob that it counts |
| Aggregation.StatusShowsGaps | src/nv_ingest/api/v2/ingest.py:684-705 | the status shows a missing result unless fetches came back empty and nothing else failed |
| Aggregation.SplitAggregateIsWhole | src/nv_ingest/api/v2/ingest.py:656-771 | when all subjobs of a split document succeed and descriptors carry start_page, data holds the records of extracting the whole document exactly when the text is taken page by page or there is at most one chunk, and all chunks say of the document what the whole says; without tables and charts it is then the same list |
| Aggregation.ShippedAggregateIsWhole | src/nv_ingest/api/v2/ingest.py:942-950 | with the descriptors as shipped exactly when besides no record of a page after the first chunk carries a page number |
| TraceTimes.ComputeResidentTimes | client/src/nv_ingest_client/client/client.py:47-88 | adds the resident time of every named stage with both times and changes nothing else; leaves a trace that has resident times alone; raises exactly when a named stage has both times and they are not both numbers |
| TraceTimes.ResidentTimesAt | client/src/nv_ingest_client/client/client.py:72-86 | which keys the client adds, and their values |
| TraceKeys.PrintedKeyParses | src/nv_ingest/api/v2/ingest.py:595-621 | a printed entry or exit key of a chunk is read back to chunk, event and stage, even when the stage name holds "::" |
| TraceKeys.ParsedKeyIsPrinted | src/nv_ingest/api/v2/ingest.py:595-621 | a key read as an entry or exit was printed from exactly that chunk and key |
| TraceKeys.ChunkKeyInjective | src/nv_ingest/api/v2/ingest.py:759-764 | different chunks or keys never print the same merged key |
| TraceStages.TimesMean | src/nv_ingest/api/v2/ingest.py:638-646 | a chunk counts in a stage when both times are there and not null, and breaks it when one is no number then |
| TraceStages.CollectStages | src/nv_ingest/api/v2/ingest.py:593-626 | the stage table holds for every stage and chunk what a key of the trace tells, and nothing where no key does |
| TraceStages.SummarizeStage | src/nv_ingest/api/v2/ingest.py:631-646 | earliest entry, latest exit and summed durations of the chunks with both times; raises exactly when they cannot be subtracted |
| TraceAggregation.AggregateParentTraces | src/nv_ingest/api/v2/ingest.py:574-653 | three metrics for every stage with a complete chunk, and nothing else, or an exception when times cannot be subtracted |
| TraceAggregation.ParentTraces | src/nv_ingest/api/v2/ingest.py:753-769 | the same, stated of the chunks' own traces, for distinct chunk indices |
| TraceAggregation.BrokenUnique | src/nv_ingest/api/v2/ingest.py:593-626 | whether times cannot be subtracted is decided by the merged dictionary |
| TraceAggregation.ParentTraceUnique | src/nv_ingest/api/v2/ingest.py:628-653 | the chunk traces determine the parent trace |
| TraceAggregation.OrderIrrelevant | src/nv_ingest/api/v2/ingest.py:753-769 | the order of the segments matters neither for the parent trace nor for whether there is one |
| TraceStages.ResidentBound | src/nv_ingest/api/v2/ingest.py:631-651 | with every entry before its exit, the resident time is at most the number of complete chunks times the span |
| TraceClient.ClientAddsNamed | client/src/nv_ingest_client/client/client.py:72-86 | the client adds the resident time of a stage exactly when the stage has both times and some entry key, the prefix taken out wherever it occurs, is read as it |
| TraceClient.ClientAgreesExactly | client/src/nv_ingest_client/client/client.py:47-88 | for one chunk the server's parent trace and the client's own computation agree on a stage with both times exactly when some entry key is read as it |
| TraceClient.ClientAgreesOnAll | client/src/nv_ingest_client/client/client.py:47-88 | they agree on all such stages exactly when each is read off some entry key |
| TraceClient.ClientAgreesWithServer | client/src/nv_ingest_client/client/client.py:47-88 | in particular on every stage whose name does not hold the prefix |
| TraceClient.ClientMissesNestedPrefix | client/src/nv_ingest_client/client/client.py:74-77 | on a trace of this stage alone the client adds the resident time exactly when the name does not hold the prefix |
| ReplicaResolver.ResolveStaticReplicas | src/nv_ingest/pipeline/config/replica_resolver.py:28-141 | every stage with a strategy gets the count it wants, or the whole part of the share of it that all get, but at least one, and nothing else changes; divides by zero exactly when there is no memory at all, or none available and some demanded |
| ReplicaResolver.CollectDemands | src/nv_ingest/pipeline/config/replica_resolver.py:67-96 | the total is the sum of baseline times memory over the stages with a strategy |
| ReplicaResolver.ApplyCounts | src/nv_ingest/pipeline/config/replica_resolver.py:117-135 | each such stage gets its scaled count, once |
| ReplicaResolver.BaselineIsWanted | src/nv_ingest/pipeline/config/replica_resolver.py:144-198 | the baseline is the configured value, the whole part of the wanted CPUs, or the most replicas that fit into the share of the memory, between one and the limit |
| ReplicaResolver.MostIsUnique | src/nv_ingest/pipeline/config/replica_resolver.py:176-194 | for the memory strategies that determines the count |
| ReplicaResolver.BaselineIsPositive | src/nv_ingest/pipeline/config/replica_resolver.py:144-198 | a baseline is below one exactly for a static value below one, or on less than one CPU without a limit |
| ReplicaResolver.BaselineWithinLimit | src/nv_ingest/pipeline/config/replica_resolver.py:169-194 | a configured limit is never exceeded |
| ReplicaResolver.ScaledBounds | src/nv_ingest/pipeline/config/replica_resolver.py:125 | for a baseline of at least one the count lies between one and the baseline |
| ReplicaResolver.ScaledMonotone | src/nv_ingest/pipeline/config/replica_resolver.py:125 | a larger baseline never gets fewer replicas |
| ReplicaResolver.WithinBudget | src/nv_ingest/pipeline/config/replica_resolver.py:106-108 | without scaling and with baselines of at least one, every count is the whole part of its baseline and all together take no more than the demand |
| ReplicaResolver.GrantedIsBudget | src/nv_ingest/pipeline/config/replica_resolver.py:106-111 | what the factor grants all stages together is the demand, or the whole budget when the demand exceeds it |
| ReplicaResolver.BudgetBounds | src/nv_ingest/pipeline/config/replica_resolver.py:109-135 | the scaled shares use the demand or the whole budget but for less than one replica of each stage, and never more; the counts exceed it by at most what the minimum of one adds, and not at all when that is nothing |
| ReplicaResolver.BudgetKeptExactly | src/nv_ingest/pipeline/config/replica_resolver.py:117-135 | a budget below one replica of each stage cannot be kept; it is kept exactly when what raising stages to one replica adds is at most what rounding down saves on the others and the demand leaves over |
| ReplicaResolver.ResolvedStagesKeepBudget | src/nv_ingest/pipeline/config/replica_resolver.py:28-141 | the same bounds and condition for the memory of the stages that are returned |
| ReplicaResolver.MinimumCanExceedBudget | src/nv_ingest/pipeline/config/replica_resolver.py:125 | a budget that one replica of each stage would keep can be exceeded |
| LazyLoadedList.LazyLoadedList.BuildIndex | client/src/nv_ingest_client/client/interface.py:120-146 | records exactly the line starts; an index once built is never rebuilt; a missing or unreadable file is empty |
| LazyLoadedList.LazyLoadedList.Len | client/src/nv_ingest_client/client/interface.py:148-157 | the announced length until the index is built, and otherwise the number of lines shown |
| LazyLoadedList.LazyLoadedList.GetItem | client/src/nv_ingest_client/client/interface.py:159-190 | the line of that number, counted from the end when negative; IndexError exactly out of range |
| LazyLoadedList.Iterate | client/src/nv_ingest_client/client/interface.py:108-118 | the text lines in order; a missing file has none |
| LazyLoadedList.StartReadsLine | client/src/nv_ingest_client/client/interface.py:127-137 | reading at the k-th recorded offset gives the k-th line |
| LazyLoadedList.LinesAreTheFile | client/src/nv_ingest_client/client/interface.py:127-137 | the lines are the only way to cut the file into lines that end in a newline, but perhaps the last |
| LazyLoadedList.TextLineCount | client/src/nv_ingest_client/client/interface.py:108-112 | iteration sees one more line for every carriage return that stands alone inside the file |
| LazyLoadedList.IterationAgrees | client/src/nv_ingest_client/client/interface.py:108-137 | iteration and indexing see the same lines exactly when there is no such carriage return |
| ControlMessage.IngestControlMessage.AddTask | api/src/nv_ingest_api/internal/primitives/ingest_control_message.py:121-125 | the task goes to the end of its id, a new id to the end of the dictionary |
| ControlMessage.IngestControlMessage.GetTasks | api/src/nv_ingest_api/internal/primitives/ingest_control_message.py:127-132 | all tasks, id after id |
| ControlMessage.IngestControlMessage.RemoveTask | api/src/nv_ingest_api/internal/primitives/ingest_control_message.py:140-151 | takes the first task of the id and drops the id with its last task; an error exactly without one |
| ControlMessage.AddIsLast | api/src/nv_ingest_api/internal/primitives/ingest_control_message.py:121-125 | a task is added after those of its id and a new id after the others; nothing else moves |
| ControlMessage.PopIsFirst | api/src/nv_ingest_api/internal/primitives/ingest_control_message.py:140-151 | the first task of the id is taken, and none exactly without the id; nothing else moves |
| ControlMessage.AddConserves | api/src/nv_ingest_api/internal/primitives/ingest_control_message.py:121-125 | adding changes the tasks by exactly that task |
| ControlMessage.PopConserves | api/src/nv_ingest_api/internal/primitives/ingest_control_message.py:140-151 | removing changes the tasks by exactly the task returned |
| ControlMessage.RemoveAllTasksByType | api/src/nv_ingest_api/internal/primitives/ingest_control_message.py:59-102 | never asks for a missing task; not found exactly without a match; removes as many tasks of each id, from its front, as match, and returns their properties |
| ControlMessage.RemovalSplitsGroups | api/src/nv_ingest_api/internal/primitives/ingest_control_message.py:84-100 | removing by the ids of the matching tasks, one after another, splits every id's list at its number of matches |
| ControlMessage.RemovalConserves | api/src/nv_ingest_api/internal/primitives/ingest_control_message.py:84-100 | removed and remaining tasks are the original ones, and as many are removed as match |
| ControlMessage.RemovesExactlyTheKind | api/src/nv_ingest_api/internal/primitives/ingest_control_message.py:59-102 | exactly the tasks of the type are removed, in get_tasks order and leaving the rest in order, if and only if under every id they come first |
| ControlMessage.RemoveTaskByType | api/src/nv_ingest_api/internal/primitives/ingest_control_message.py:19-56 | finds the first task of the type and removes the first task of its id |
| ControlMessage.TakesFirstOrOther | api/src/nv_ingest_api/internal/primitives/ingest_control_message.py:44-56 | that is the task found, and a task of the type at all, exactly when the first id that has a task of the type starts with one |
| ControlMessage.TakesOtherType | api/src/nv_ingest_api/internal/primitives/ingest_control_message.py:44-56 | it can be a task of another type, added before under the same id |
| MarkdownSplit.HeaderLines | examples/udfs/structural_split_udf.py:158-162 | a line is a header exactly when it is made of white space, a header, white space, and something that is not white space |
| MarkdownSplit.SplitByMarkdownHeaders | examples/udfs/structural_split_udf.py:149-181 | the trimmed, non-blank groups of lines in order; a blank text as it is |
| MarkdownSplit.GroupingIsUnique | examples/udfs/structural_split_udf.py:154-173 | the groups are the one way to cut the lines so that each group but the first starts with a header and none has a header after its first line |
| MarkdownSplit.ChunksKeepText | examples/udfs/structural_split_udf.py:149-181 | the chunks hold the text's characters in order, but for white space |
| MarkdownSplit.NeverWithoutChunk | examples/udfs/structural_split_udf.py:175-181 | a text that is not blank has a chunk, so the last fallback is never used |
| MarkdownSplit.ResplitIsChunk | examples/udfs/structural_split_udf.py:149-181 | splitting any chunk again gives just that chunk |
| FetchJob.IngestService.FetchJob | src/nv_ingest/api/v1/ingest.py:178-291 | the status and the state left behind, for every stored state and backend behaviour |
| FetchJob.IngestService.RecordRetrieval | src/nv_ingest/api/v1/ingest.py:210-225 | the state follows the fetch mode unless the mode cannot be read or the write fails |
| FetchJob.IngestService.FetchRepeatedly | src/nv_ingest/api/v1/ingest.py:178-291 | consecutive calls answer as the protocol says |
| FetchJob.StatusMeans | src/nv_ingest/api/v1/ingest.py:178-291 | when each status is answered, in terms of the state and the backend |
| FetchJob.PollingDelivers | src/nv_ingest/api/v1/ingest.py:196-262 | a job under way is answered 202 as long as fetches time out, and 200 with the first payload |
| FetchJob.DeliveryRecords | src/nv_ingest/api/v1/ingest.py:210-225 | a delivery leaves the state of the fetch mode, if it can be read and written |
| FetchJob.AbsorbingAnswers | src/nv_ingest/api/v1/ingest.py:185-198 | failed, destructively retrieved, unknown and missing jobs stay so: 503, 410, 500 or 404 on every later call that can read the state |
| FetchJob.NoRetryAfterRetrieval | src/nv_ingest/api/v1/ingest.py:247-262 | once a retrieval is recorded no call answers 202 again |
| FetchJob.RetryMeansNothingRecorded | src/nv_ingest/api/v1/ingest.py:258-262 | a 202 means that no call before it changed the state |
| FetchJob.DestructiveReadIsLast | src/nv_ingest/api/v1/ingest.py:196-223 | no call answers 200 after a recorded destructive read |
| FetchJob.AtMostOneSuccess | src/nv_ingest/api/v1/ingest.py:178-291 | with every read destructive and recorded at most one call answers 200 |
| FetchJob.SecondSuccess | src/nv_ingest/api/v1/ingest.py:206-229 | a second 200 is possible exactly when the first read was not recorded as destructive |
| FetchJob.UnserializableIsLost | src/nv_ingest/api/v1/ingest.py:206-232 | a destructive read that cannot be serialized answers 500 and every later call 410 |

## Left out

- HTTP, Redis, Ray, message brokers, PDF rendering and JSON are outcomes chosen by the environment or parameters; a
  payload, a page and a compiled function are opaque values, and SHA-256 is taken as injective.
- Threads: a worker's effect on its own job is applied where the caller waits for it; which futures have finished is an
  arbitrary choice.
- Floating-point rounding in replica counts (exact reals) and in trace times (integers).
- ConcurrentProcessor.Processor.Run: without a retry limit it need not end, so it follows the loop for a given number of
  turns; the registration of trace ids is not part of the model; job indices are distinct and hold no colon, as the
  client's counter makes them.
- ConcurrentProcessor.Processor.HandleFailure: the attempt to mark the job failed in the client's table is not modelled,
  because the method it calls does not exist and the error is swallowed.
- ConcurrentProcessor.Processor.HandleSuccess: the description of a failed response is taken as given; how annotation
  messages are put into it is not modelled. The texts of other failures are not modelled either; a failure carries the
  reason they are made up from.
- JobHandler.IngestJobHandler.Run: follows the rounds up to a given horizon, since retries are unlimited; page counts,
  saved files and trace times are not modelled.
- UdfCache.UDFCache.Put: asks for max_size of at least 1, because with less the eviction loop never ends; the cached
  object is a value, so that a caller's later changes to it are not seen.
- UdfCache.UDFCache.Lookup: empty function texts and names, which the stage skips or rejects before it asks the cache,
  are not told apart from others.
- TraceKeys.ParseKey: reads chunk numbers made of decimal digits only; Python's int() also takes signs, spaces and
  underscores, which no printed key holds.
- ChunkRecords.NormalizeChunkRecords: a boolean, which Python counts as an integer, is taken as no page number; keys
  that are not touched are one opaque rest.
- DocumentExtraction.IsExtraction: is extraction by the pdfium engine alone; what a page yields does not depend on the
  other pages, the random ids of records are left out, and later stages, which may split or drop records, are not
  modelled. The info dictionary of each PDF and the clock readings that stand in for its missing dates are arbitrary;
  what pypdfium2 puts into the dictionary of a new PDF, and how a PDF date is converted, is not part of this model.
- Aggregation.FetchParentJob: starts from ordered descriptors and ends with the response; the annotation segments, the
  state written afterwards and the special case of a parent without subjobs are not modelled.
- The v2 submission endpoint, which submits split-PDF subjobs twice: only the helpers it calls are modelled, and the
  stray separator in line 16 of that file is taken as absent.
- LazyLoadedList.LazyLoadedList.GetItem: gives the bytes of the line; decoding them as JSON is not modelled, and the
  file does not change between calls.
- PipelineDependencies.ValidateDependencies: the recursion depth limit of Python is not modelled.
- BalancedGroups.BalancedGroupsFlatOrder: asks for a group size of at least 1; with less the source divides by zero or
  pops from an empty heap.
- BalancedGroups.PlaceWithHeap: the heap is a set of entries with the least one popped; heapq's array layout is not
  modelled.
- ControlMessage.IngestControlMessage.RemoveTask: properties are opaque; metadata, timestamps, payload and configuration
  of the message are not modelled.
- FetchJob.IngestService.FetchRepeatedly: calls do not overlap, and no other writer changes the state between them.
- Quality-of-service tiers, page-count parsing, type maps, image filters, telemetry counters and progress bars are
  lookups and counters without an invariant of their own.
