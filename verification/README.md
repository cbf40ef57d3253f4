# Verified model of the Inherent ingestion core

A Dafny model of the parts of the repository whose correctness is a matter of order, retries,
concurrency or exact arithmetic, with proofs about it. To check them, use
`dafny verify dfyconfig.toml` with Dafny 4.11.

What is modelled, one module per component:

- `Tables`, `DatabaseService`: the PostgreSQL tables that the ingestion service writes. `Tables`
  gives every transaction as a function on the whole database; `DatabaseService.Service` is the
  class whose methods carry the transactions out statement by statement, each proved to have
  exactly that effect. What the next five modules prove about histories of `Tables.Execute`
  therefore holds of calls on the class.
- `Fencing`, `Trigger`: workflow runs that start, supersede one another and go on writing.
- `AppendFlushes`: conversation flushes and their replays.
- `ReuseLedger`, `ReuseDetection`: the chunk-reuse events and counters, and the pass that records them.
- `WorkspaceStats`, `WorkspacePurge`: the exactly-once counters, and the purge of one workspace.
- `RankingMetrics`: recall, MRR, hit rate and nDCG, with the rearrangement inequality behind nDCG <= 1.
- `Embedding`, `StoreBudget`: batched embedding under a semaphore, and the timeout that must cover it.
- `Naming`: vector-store names (section 3 of RFC 3629, section 6 of RFC 4648).
- `Reindex`: PostgreSQL to the vector store.
- `ContentTypeBackfill`, `FileTypes`: the keyset-paged backfill, the registry lookups, and sniffing.
- `Migrations`: the migration runner under crashes and concurrent runners.
- `EnvFile`, `StoragePath`: the `compose.env` file, and lexical path normalisation.
- `Text`, `Order`, `Wrappers`: Python string operations, ordered sets, `Option` and `Result`.

## How the methods and the theorems fit together

Code that works step by step is a method, proved against a specification function; the theorems
are lemmas about that function. Concurrency is a state machine: `Fencing.Play`, `Embedding.Play`
and `Migrations.Play` run any sequence of events, an event that is not possible changes nothing,
and a theorem over `Play` is a theorem over every interleaving.

## Where code and documentation disagree

The model follows the code. Each of these is a theorem with the exact condition.

- The workspace-stats ledger is keyed by run id alone, so of a conversation run that reports
  several flushes only the first report is ever counted (`WorkspaceStats.OnlyFirstReportOfRunCounts`).
- The append path never claims a document, so a workflow that goes on under a new run id is
  fenced out of its own document (`AppendFlushes.OtherRunIsFencedOut`).
- Two runs with the very same start time are not ordered: a second claim displaces the first
  (`Fencing.RivalClaimDisplaces`). The newest-run theorem therefore asks for the strictly newest.
- A store never updates the workspace of an existing row but stamps the message's workspace on
  the chunks, so the two can differ; a store keeps the labels right exactly when the two agree or
  nothing goes in, and a purge is verified clean exactly when no label is wrong
  (`WorkspacePurge.StoreKeepsLabels`, `WorkspacePurge.PurgeIsCompleteExactly`).
- `text_length` and `size_bytes` are the sums over all flushes exactly when no flush without
  chunks brings text, and none after the first is without chunks (`AppendFlushes.TextIsSumExactly`,
  `AppendFlushes.SizeIsSumExactly`).
- The backfill says that a second run repairs a failed synchronisation with the vector store. It
  changes no label at all, so the stores agree afterwards exactly when every change was taken the
  first time or its label was right before (`ContentTypeBackfill.SecondRunRepairsExactly`;
  `ContentTypeBackfill.RefusedOnceStaysStale` is such a state).
- For the workspace id `..` the storage-path check grants just the paths that climb above the
  root; for every other id it never grants such a path (`StoragePath.AcceptedExactly`).

## Model

| member | source | states |
|---|---|---|
| DatabaseService.Service.CreatePendingDocument | services/inh-ingestion-svc/src/services/database.py:1590-1647 | a new row holds the workspace, size, run and start of the message, is processing and counts nothing yet; an existing one keeps its workspace; insert and start-ordered claim together are `Tables.Claim`, and `created` says whether the row is new |
| DatabaseService.Service.StoreProcessedDocument | services/inh-ingestion-svc/src/services/database.py:1100-1490 | fenced upsert, delete unless appending, insert and growth of the counters have the effect of `Tables.Store` on the whole database, and the caller learns stored, inserted or fenced out |
| DatabaseService.Service.IsActiveRun | services/inh-ingestion-svc/src/services/database.py:1675-1686 | permitted exactly when the store and status writes of that run would pass their fence |
| DatabaseService.Service.GetDocumentChunkCount | services/inh-ingestion-svc/src/services/database.py:1522-1530 | the stored counter, or zero without a row |
| DatabaseService.Service.UpdateDocumentStatus | services/inh-ingestion-svc/src/services/database.py:1720-1738 | a tagged write is fenced like a store, an untagged one is not; `processed_at` is set exactly for 'processed' |
| DatabaseService.Service.DeleteDocument | services/inh-ingestion-svc/src/services/database.py:2082-2103 | a blank workspace is an error that changes nothing; otherwise the row goes only within its workspace, with its chunk rows and their reuse events |
| DatabaseService.Service.RecordChunkReuse | services/inh-ingestion-svc/src/services/database.py:1932-1976 | a known triple changes nothing; a new one adds its event and increments its chunk in one transaction; a vanished chunk is an error that changes nothing |
| DatabaseService.Service.UpdateWorkspaceStats | services/inh-ingestion-svc/src/services/database.py:947-986 | ledger insert and clamped increment together, at most once per run id; `applied` needs an existing workspace row |
| DatabaseService.Service.DeleteWorkspaceData | services/inh-ingestion-svc/src/services/database.py:1002-1027 | the workspace's documents with all that cascades, and its metadata row; returns how many documents |
| DatabaseService.Service.DeleteWorkspaceSideTables | services/inh-ingestion-svc/src/services/database.py:2203-2229 | one delete per pipeline table and the stats ledger, this workspace only; returns how many rows each had |
| DatabaseService.Service.DeleteWorkspaceEvalData | services/inh-ingestion-svc/src/services/database.py:2240-2259 | one delete per evaluation table, this workspace only; returns how many rows each had |
| DatabaseService.Service.RevokeWorkspaceApiKeys | services/inh-ingestion-svc/src/services/database.py:2261-2285 | every key of the workspace is inactive afterwards, no other key changes; returns how many were active |
| Tables.StoreEffect | services/inh-ingestion-svc/src/services/database.py:1204-1480 | what an unfenced store leaves: the document's rows are the batch, or the old rows extended by it, and the row's counters grow by the rows that were new |
| Tables.StoreFrame | services/inh-ingestion-svc/src/services/database.py:1204-1480 | a store leaves every other document's row and chunk rows the very same, with ids, labels and counters |
| Tables.InsertIntoEmpty | services/inh-ingestion-svc/src/services/database.py:1392-1398 | ON CONFLICT DO NOTHING keeps every chunk of a batch exactly when the batch's indices are pairwise distinct |
| Tables.ClaimInserts | services/inh-ingestion-svc/src/services/database.py:1590-1624 | every field of a row that a claim inserts, from the message, the run and its start |
| Tables.ClaimKeeps | services/inh-ingestion-svc/src/services/database.py:1626-1645 | a claim changes nothing of an existing row but its claim, and that only if no later-started run holds it; no other row is touched |
| Tables.StoreIsWrittenExactly | services/inh-ingestion-svc/src/services/database.py:1204-1240 | a store takes effect exactly when the row is absent, unclaimed or claimed by that run, and otherwise changes nothing; the row keeps its workspace and claim time |
| Tables.StoreCounts | services/inh-ingestion-svc/src/services/database.py:1204-1480 | the three counters afterwards: those of the batch, or for an append what was there and what the chunk rows that were really new bring |
| Tables.StatusIsWrittenExactly | services/inh-ingestion-svc/src/services/database.py:1720-1738 | a status write takes effect exactly on a row that is there and, if the write is tagged, is unclaimed or claimed by its run |
| Tables.DeleteTakesExactly | services/inh-ingestion-svc/src/services/database.py:2082-2103 | a delete takes the document with its chunk rows exactly when the workspace is its own and not blank, and otherwise changes nothing |
| Fencing.InvHolds | services/inh-ingestion-svc/src/services/database.py:1607-1645 | in every reachable state a recorded claim names a run of that document with exactly that start time, and 'processed' goes with `processed_at` |
| Fencing.ClaimsMoveForward | services/inh-ingestion-svc/src/services/database.py:1626-1645 | while a row lives, its claim time never falls back, whatever interleaves |
| Fencing.EarlierRunsChangeNothing | services/inh-ingestion-svc/src/services/database.py:1720-1738 | after a claim by a run started at t, no claim, store or tagged status write of an earlier-started run changes anything |
| Fencing.NewestKeepsOwnership | services/inh-ingestion-svc/src/services/database.py:1204-1240 | from its claim on the strictly newest run is never fenced out |
| Fencing.NewestRunWins | services/inh-ingestion-svc/src/services/database.py:1204-1240 | in every interleaving, once the strictly newest run has claimed and then stored, the chunk rows are its chunks for good, and `chunk_count` is their number exactly when the indices are distinct |
| Fencing.SupersedingRunIsNewest | services/inh-ingestion-svc/src/temporal/trigger.py:549-558 | with an advancing clock the run that superseded the others is the strictly newest one |
| Fencing.NewestStaysProcessed | services/inh-ingestion-svc/src/services/database.py:1700-1738 | the newest run's document stays 'processed', with its time, as long as every later status write is tagged by another run |
| Fencing.RivalClaimDisplaces | services/inh-ingestion-svc/src/services/database.py:1637-1638 | a rival takes the document over exactly when it did not start earlier, ties included |
| Trigger.WorkflowTrigger.TriggerWorkflowAsync | services/inh-ingestion-svc/src/temporal/trigger.py:472-569 | poison is dead-lettered and acknowledged; otherwise a run starts exactly when Temporal answers and no open run is in the way or it is superseded, with the effect of `Fencing.Next`; an error changes nothing |
| AppendFlushes.FlushesCountOnce | services/inh-ingestion-svc/src/services/database.py:1392-1480 | whatever is replayed and how often, indices are 0..`chunk_count`-1, content is the concatenation, and the counters count each distinct flush once |
| AppendFlushes.TextIsSumExactly | services/inh-ingestion-svc/src/services/database.py:1412-1434 | `text_length` is the plain sum exactly when no flush without chunks carries text |
| AppendFlushes.SizeIsSumExactly | services/inh-ingestion-svc/src/services/database.py:1459-1478 | `size_bytes` is the plain sum exactly when every flush after the first carries a chunk |
| AppendFlushes.OtherRunIsFencedOut | services/inh-ingestion-svc/src/services/database.py:1207-1210 | an append under any other run id than the first one's changes nothing |
| ReuseLedger.ReuseConserved | services/inh-ingestion-svc/src/services/database.py:1932-1976 | in every reachable state of the whole database each chunk's `reuse_count` is the number of reuse events naming it, and no event is orphaned |
| ReuseLedger.LookupIsWhatIsCounted | services/inh-ingestion-svc/src/services/database.py:1873-1976 | a new event for the id that a lookup returned adds one to the counter of the looked-up row and changes no other row |
| ReuseDetection.ConfirmAndRecord | services/inh-ingestion-svc/src/services/reuse_detection.py:155-217 | the candidate loop with its skips, database calls that raise included, has the effect of `RecordCandidates`, which `PassAddsExactly` pins down |
| ReuseDetection.DetectAndRecord | services/inh-ingestion-svc/src/services/reuse_detection.py:94-139 | the chunk loop, including chunks that are too short and lookups that raise, has the effect of `RecordSections` |
| ReuseDetection.SecondPassRecordsNothing | services/inh-ingestion-svc/src/services/reuse_detection.py:94-139 | a second pass over the same chunks and candidates changes nothing and reports zero, even after failed mirror writes |
| ReuseDetection.PassReportsNewEvents | services/inh-ingestion-svc/src/services/reuse_detection.py:155-217 | the reported number is at most the number of new events, and equal to it when every mirror write succeeds |
| ReuseDetection.ReportedExactly | services/inh-ingestion-svc/src/services/reuse_detection.py:184-217 | a candidate is reported exactly when it adds an event and its mirror write succeeds |
| ReuseDetection.PassAddsExactly | services/inh-ingestion-svc/src/services/reuse_detection.py:94-217 | an event stands after the pass exactly when it stood before, or some long-enough section and some candidate of it give it: a similar text, another document and an index named, the database reached, that chunk stored under that id, and the hash of the section |
| ReuseDetection.NeverReusesItself | services/inh-ingestion-svc/src/services/reuse_detection.py:155-217 | behind every new event stands a candidate whose text was found similar and which names a chunk of another document; no chunk of the document itself has the id of the event |
| WorkspaceStats.RepeatsChangeNothing | services/inh-ingestion-svc/src/services/database.py:951-966 | any sequence of calls has the same effect on the whole database as its first occurrences per run id |
| WorkspaceStats.CountersCountOnce | services/inh-ingestion-svc/src/services/database.py:947-986 | a workspace's counters are the clamped fold over the calls that count for it |
| WorkspaceStats.ExactUnlessClamped | services/inh-ingestion-svc/src/services/database.py:974-976 | a counter is the exact sum exactly when no running sum is negative, and above it for good otherwise |
| WorkspaceStats.OnlyFirstReportOfRunCounts | services/inh-ingestion-svc/src/services/database.py:951-966 | of several reports under one run id only the first has any effect |
| Tables.ReportIsPurged | services/inh-ingestion-svc/src/services/database.py:951-966 | the first report of a run leaves its ledger row under the workspace it names, and under no other, where the purge of that workspace finds and removes it |
| WorkspacePurge.OrderIsIrrelevant | services/inh-ingestion-svc/src/services/database.py:2215-2282 | the outcome of any sequence of purge methods depends only on which ones it contains |
| WorkspacePurge.SecondPurgeIsNoOp | services/inh-ingestion-svc/src/services/database.py:2215-2282 | purging again with any of the methods that ran changes nothing |
| WorkspacePurge.ResidueAfterPurge | services/inh-ingestion-svc/src/services/database.py:2297-2338 | after the four methods every residue entry is zero but for the chunk rows whose label differs from their parent's |
| WorkspacePurge.PurgeIsCompleteExactly | services/inh-ingestion-svc/src/services/database.py:2297-2338 | all entries are zero exactly when no chunk row was mislabelled |
| WorkspacePurge.ResidueZeroExactly | services/inh-ingestion-svc/src/services/database.py:2297-2338 | a residue entry of zero means, table by table, that no such row of the workspace is left |
| Tables.PurgeDataExactly | services/inh-ingestion-svc/src/services/database.py:1002-1027 | row by row: the purge takes exactly the documents of the workspace, the chunk rows under them and its metadata row |
| Tables.PurgeSideExactly | services/inh-ingestion-svc/src/services/database.py:2203-2259 | row by row: the two side purges take exactly the rows of the workspace in their three and four tables |
| WorkspacePurge.OthersKeepTheirRows | services/inh-ingestion-svc/src/services/database.py:2215-2282 | every other workspace keeps every count, up to rows labelled with it under a purged document |
| WorkspacePurge.StoreKeepsLabels | services/inh-ingestion-svc/src/services/database.py:1181-1204 | a store, appending or not, keeps labels right exactly when the message's workspace is the row's, or nothing goes in |
| WorkspacePurge.LabelsStayRight | services/inh-ingestion-svc/src/services/database.py:1181-1204 | labels are right in every reachable state when each store carries its row's workspace |
| WorkspacePurge.AgreeingMessagesKeepLabels | services/inh-ingestion-svc/src/services/database.py:1181-1204 | from the empty database, in every history in which the claims and stores of one document carry one workspace: each row belongs to that workspace, every label is right, and a purge of any workspace is clean |
| RankingMetrics.DedupePreserveOrder | services/inh-contracts/src/inh_contracts/ranking_metrics.py:36-44 | every id of the ranking once, in the order of the first positions in the ranking |
| RankingMetrics.AccumulateDcg | services/inh-contracts/src/inh_contracts/ranking_metrics.py:97-103 | the accumulating loop that skips grades of zero and below computes the discounted sum |
| RankingMetrics.DcgExactly | services/inh-contracts/src/inh_contracts/ranking_metrics.py:97-103 | a positive grade at rank r, counted from 1, adds gain times discount of r, and any other grade nothing |
| RankingMetrics.NdcgAtK | services/inh-contracts/src/inh_contracts/ranking_metrics.py:127-140 | the whole call equals `Ndcg`, with zero for k <= 0 and for an ideal of zero |
| RankingMetrics.GradeExactly | services/inh-contracts/src/inh_contracts/ranking_metrics.py:129-130 | a ranked id has the grade of its entry, or zero when the mapping has none |
| RankingMetrics.IdealIsBest | services/inh-contracts/src/inh_contracts/ranking_metrics.py:133-136 | the ideal grades are positive grades of the mapping in descending order: all of them, or k that no grade left out exceeds |
| RankingMetrics.DcgBound | services/inh-contracts/src/inh_contracts/ranking_metrics.py:97-140 | any k grades drawn from a list are worth at most its k best; under a strict scale only the ideal order reaches them |
| RankingMetrics.NdcgInUnitInterval | services/inh-contracts/src/inh_contracts/ranking_metrics.py:106-140 | nDCG lies in [0, 1] for every ranking, mapping and cutoff |
| RankingMetrics.PerfectScoreExactly | services/inh-contracts/src/inh_contracts/ranking_metrics.py:106-140 | ideal order scores exactly 1, and under a strict scale nothing else does |
| RankingMetrics.ZeroScoreExactly | services/inh-contracts/src/inh_contracts/ranking_metrics.py:106-140 | under a strict scale the score is 0 exactly when the top k holds nothing relevant |
| RankingMetrics.SwapNeverLowersScore | services/inh-contracts/src/inh_contracts/ranking_metrics.py:106-140 | putting an adjacent out-of-order pair into order never lowers the score |
| RankingMetrics.Mrr | services/inh-contracts/src/inh_contracts/ranking_metrics.py:90-94 | the reciprocal of the first relevant rank of the de-duplicated list, or zero |
| RankingMetrics.NoRankExactly | services/inh-contracts/src/inh_contracts/ranking_metrics.py:88-94 | there is no such rank exactly when nothing in the ranking is relevant |
| RankingMetrics.RecallAndHitAgree | services/inh-contracts/src/inh_contracts/ranking_metrics.py:47-68 | recall is at most 1, and positive exactly when the hit metric is 1 |
| RankingMetrics.RecallExactly | services/inh-contracts/src/inh_contracts/ranking_metrics.py:47-68 | recall times the number of relevant ids is the number of relevant ids among the top k of the de-duplicated ranking |
| Embedding.SplitBatches | services/inh-ingestion-svc/src/services/embedder.py:271-275 | the slicing loop cuts the kept texts into consecutive batches |
| Embedding.SplitExactly | services/inh-ingestion-svc/src/services/embedder.py:271-275 | the b-th batch starts at b times the size and takes that many texts or what is left, and there is one as long as that start is within the texts |
| Embedding.EveryScheduleIsOrderly | services/inh-ingestion-svc/src/services/embedder.py:283-325 | at most the bound in flight, progress 1..n of the total once each, nothing waiting or running after a raise, no return after a failed batch |
| Embedding.NeverStuck | services/inh-ingestion-svc/src/services/embedder.py:310-325 | in every reachable run that has not settled some step other than an outside interrupt is possible |
| Embedding.SchedulesEnd | services/inh-ingestion-svc/src/services/embedder.py:283-325 | a schedule takes at most two steps a batch and two more |
| Embedding.EveryScheduleSettles | services/inh-ingestion-svc/src/services/embedder.py:283-325 | a schedule that has run its course has returned or raised, and has returned when no batch failed and nobody interrupted |
| Embedding.TroubleRaises | services/inh-ingestion-svc/src/services/embedder.py:314-325 | once a batch call has raised or the gathering caller was cancelled, the call never returns however the schedule goes on, and has raised when it has run its course |
| Embedding.AdmittedExactly | services/inh-ingestion-svc/src/services/embedder.py:278-285 | until the call has settled, a waiting batch gets a slot exactly when fewer than `maxConcurrency` are in flight |
| Embedding.Gather | services/inh-ingestion-svc/src/services/embedder.py:326-329 | writing results back by position gives the per-text map |
| Embedding.ZeroForWhitespace | services/inh-ingestion-svc/src/services/embedder.py:267 | the zero vector stands in exactly for texts of nothing but whitespace |
| Embedding.EmbedTextsWithProgress | services/inh-ingestion-svc/src/services/embedder.py:264-329 | whatever the schedule, a returned result is the embedding of text i at i, and zero for a blank one; something is returned exactly when nothing was to be embedded or the gather returned; after every prefix of the schedule at most `maxConcurrency` batches are in flight |
| StoreBudget.Simulate | services/inh-ingestion-svc/src/services/embedder.py:278-304 | a semaphore with any positive number of slots produces the schedules that the theorems speak of |
| StoreBudget.HeartbeatHasMargin | services/inh-ingestion-svc/src/temporal/weaviate_store_budget.py:87-112 | a gap between completions is at most half of the heartbeat timeout |
| StoreBudget.BudgetCoversEverySchedule | services/inh-ingestion-svc/src/temporal/weaviate_store_budget.py:59-79 | up to 2272 chunks every schedule ends within the timeout less its overhead, for any concurrency and any batch size of at least the default |
| StoreBudget.CoveredExactly | services/inh-ingestion-svc/src/temporal/weaviate_store_budget.py:75-79 | every schedule is covered exactly up to 2272 chunks: beyond, the serial schedule is not |
| StoreBudget.TimeoutIsMonotone | services/inh-ingestion-svc/src/temporal/weaviate_store_budget.py:75-79 | the timeout grows with the chunk count and stays between one batch and the cap |
| StoreBudget.TimeoutExactly | services/inh-ingestion-svc/src/temporal/weaviate_store_budget.py:75-79 | for b batches 100 b + 30 seconds up to 7200, one batch for no chunks, and batch size 1 for one below |
| Naming.Utf8RoundTrip | services/inh-contracts/src/inh_contracts/naming.py:36 | UTF-8 exists exactly for ids without lone surrogates, and is decodable |
| Naming.Utf8CharExactly | services/inh-contracts/src/inh_contracts/naming.py:36 | the bytes of each code point by the table of RFC 3629: shortest form, lead byte by length, six bits in each byte that follows |
| Naming.UnpaddedRoundTrip | services/inh-contracts/src/inh_contracts/naming.py:28-36 | base32 without padding is decodable for all byte strings |
| Naming.DigitsExactly | services/inh-contracts/src/inh_contracts/naming.py:36 | the eight base32 digits of five bytes are the same 40-bit number |
| Naming.NamesRoundTrip | services/inh-contracts/src/inh_contracts/naming.py:28-51 | a decoder recovers the id from a collection or tenant name |
| Naming.NamesAreInjective | services/inh-contracts/src/inh_contracts/naming.py:39-51 | distinct ids have distinct names of each kind, and no collection is named like a tenant |
| Naming.NamesAreWellFormed | services/inh-contracts/src/inh_contracts/naming.py:28-36 | the suffix is A-Z and 2-7 only, ceil(8n/5) of them for n bytes |
| Naming.GoldenName | services/inh-contracts/src/inh_contracts/naming.py:18-51 | the collection name of the id "ws-123" that both services pin down, and the tenant name with the same suffix |
| Reindex.LoadAllChunks | services/inh-ingestion-svc/src/services/reindex_from_postgres.py:62-76 | paging ends and has read every chunk row exactly once in order |
| Reindex.NameIsInjective | services/inh-ingestion-svc/src/services/weaviate.py:680-695 | within a tenant an object's name determines document and index, even for ids with colons |
| Reindex.OwnersLiveApart | services/inh-contracts/src/inh_contracts/naming.py:39-51 | two owners never share a collection and tenant |
| Reindex.VectorStore.DeleteGraceful | services/inh-ingestion-svc/src/services/weaviate.py:1104-1171 | deletes what the filter matches in one tenant, or reports a failure that may have taken part of it; never raises |
| Reindex.VectorStore.StoreChunks | services/inh-ingestion-svc/src/services/weaviate.py:866-965 | writes every accepted row's object and raises when one was refused or the embedding failed |
| Reindex.DeleteThenWriteAgrees | services/inh-ingestion-svc/src/services/reindex_from_postgres.py:129-159 | after a delete and the write the document's objects are exactly one per chunk row |
| Reindex.ReindexDocument | services/inh-ingestion-svc/src/services/reindex_from_postgres.py:99-167 | skipped exactly without row or chunks, and otherwise in order exactly when the embedding got through and no object was refused; success means one object per row after a good delete and full cover after a failed one; other tenants, and documents that the filter tells apart, are untouched in every case; objects stay named after what they hold |
| Reindex.ReindexTwice | services/inh-ingestion-svc/src/services/reindex_from_postgres.py:90-92 | a second successful run after a first one leaves the document's objects the same map, and a good run repairs whatever a failed one left |
| FileTypes.SniffExactly | services/inh-contracts/src/inh_contracts/file_types.py:1109-1138 | the whole call: when a type is unknown, when the own signature is missing, and when bytes are accepted, each by an if-and-only-if |
| FileTypes.ParametersAreIgnored | services/inh-contracts/src/inh_contracts/file_types.py:711-717 | parameters of a declared type never matter |
| FileTypes.NormalMimeExactly | services/inh-contracts/src/inh_contracts/file_types.py:711-717 | a declared type is looked up in lower case, without what follows its first semicolon and without the whitespace around it |
| FileTypes.CarriesExactly | services/inh-contracts/src/inh_contracts/file_types.py:1030-1042 | a signature counts wherever it stands, exactly as long as it ends within its entry's window, or within 1024 bytes |
| FileTypes.MimeExactly | services/inh-contracts/src/inh_contracts/file_types.py:737-770 | the type of an extension is that of its first override, or the canonical one when it has none |
| FileTypes.AcceptedExactly | services/inh-contracts/src/inh_contracts/file_types.py:1109-1138 | bytes pass exactly when the own signature is in its window and no signature that can be told apart is in its own |
| FileTypes.OrderNeverDecides | services/inh-contracts/src/inh_contracts/file_types.py:1124-1136 | reordering the registry never changes whether bytes pass |
| FileTypes.AcceptedTwiceMeansFamily | services/inh-contracts/src/inh_contracts/file_types.py:1044-1062 | bytes that pass under two entries with signatures: one signature is a prefix of the other |
| FileTypes.SameSignatureSameVerdict | services/inh-contracts/src/inh_contracts/file_types.py:1044-1062 | entries with equal signature and window accept the same bytes |
| FileTypes.PlainMeansNoSignature | services/inh-contracts/src/inh_contracts/file_types.py:1109-1138 | bytes that pass under an entry without signature hold no registered signature in its window |
| FileTypes.AddingChangesExactly | services/inh-contracts/src/inh_contracts/file_types.py:1109-1138 | exactly which verdicts a new entry changes |
| FileTypes.FamilyIsNeverInTheWay | services/inh-contracts/src/inh_contracts/file_types.py:1044-1062 | a new entry of the same family changes no result at all |
| ContentTypeBackfill.Stores.RunBackfill | services/inh-ingestion-svc/scripts/backfill_stale_content_type.py:261-362 | for every batch size of at least 1 the paged loop ends and visits each stale row exactly once in id order, although its updates take rows out of the query |
| ContentTypeBackfill.DeriveExactly | services/inh-ingestion-svc/scripts/backfill_stale_content_type.py:156-162 | what follows the last dot and the first entry that declares it decide: its type for the extension if the entry is one of the MCP's, and nothing otherwise or without a dot |
| ContentTypeBackfill.CountersExactly | services/inh-ingestion-svc/scripts/backfill_stale_content_type.py:284-341 | each counter from the rows at the start, and scanned = updated + not_determinable + already_correct |
| ContentTypeBackfill.SyncedExactly | services/inh-ingestion-svc/scripts/backfill_stale_content_type.py:314-350 | the objects reported are the sum of what the vector store said for the rows to change, in a dry run and a real one |
| ContentTypeBackfill.RowExactly | services/inh-ingestion-svc/scripts/backfill_stale_content_type.py:335-341 | each visited row ends with its planned type |
| ContentTypeBackfill.DryRunChangesNothing | services/inh-ingestion-svc/scripts/backfill_stale_content_type.py:314-325 | a dry run changes neither store |
| ContentTypeBackfill.DryRunForecasts | services/inh-ingestion-svc/scripts/backfill_stale_content_type.py:314-325 | a dry run that gets through reports the counts of the real run |
| ContentTypeBackfill.DryRunRaisesExactly | services/inh-ingestion-svc/scripts/backfill_stale_content_type.py:314-325 | a dry run ends in an exception exactly when the vector store refuses to count for one of the rows to change |
| ContentTypeBackfill.SecondRunUpdatesNothing | services/inh-ingestion-svc/scripts/backfill_stale_content_type.py:327-341 | a second run updates no row and no label, whatever failed in the first |
| ContentTypeBackfill.LabelExactly | services/inh-ingestion-svc/scripts/backfill_stale_content_type.py:343-360 | after a real run a visited document is labelled with its planned type if the vector store took it, and as before otherwise |
| ContentTypeBackfill.AgreesExactly | services/inh-ingestion-svc/scripts/backfill_stale_content_type.py:327-360 | the stores agree on a changed row exactly when its change was taken or its label was right already |
| ContentTypeBackfill.SecondRunRepairsExactly | services/inh-ingestion-svc/scripts/backfill_stale_content_type.py:327-360 | two runs leave the stores in agreement on all changed rows exactly when each change was taken in the first, or its label was right already |
| ContentTypeBackfill.RefusedOnceStaysStale | services/inh-ingestion-svc/scripts/backfill_stale_content_type.py:327-334 | a state in which the first call is refused, the second would be taken, and the label stays stale for good |
| Migrations.CommitsAtMostOnce | services/inh-ingestion-svc/src/services/migrations.py:102-147 | over all interleavings, crashes and file lists: no file commits twice, tracked and back-filled files never execute, backfill only on a schema older than tracking |
| Migrations.RunnersKeepOrder | services/inh-ingestion-svc/src/services/migrations.py:126-147 | a runner commits files of its own list only, in the order of their characters, and a successful one leaves all its files tracked |
| Migrations.Database.BackfillIfPretracking | services/inh-ingestion-svc/src/services/migrations.py:102-123 | tracks every file exactly when the schema is there and nothing is tracked |
| Migrations.Database.ApplyPending | services/inh-ingestion-svc/src/services/migrations.py:126-147 | alone, a run executes exactly the pending files up to the first that fails |
| Migrations.Database.RunMigrations | services/inh-ingestion-svc/src/services/migrations.py:55-82 | the whole run, with its errors for a missing or empty directory: the newly executed files are the pending ones up to the first that fails, in the order of the characters of their names |
| Text.PrecedesExactly | services/inh-ingestion-svc/src/services/migrations.py:59 | the order that lists are sorted by: a proper prefix comes first, and otherwise the smaller character at the first difference |
| Migrations.RunAloneIsAHistory | services/inh-ingestion-svc/src/services/migrations.py:72-82 | what a run alone leaves is what one history of the state machine leaves, finished or failed alike |
| EnvFile.ParseEnvFile | services/inh-cli/src/inh_cli/secrets.py:13-23 | the line loop computes `ParseFile`: blank lines, comments and lines without `=` are skipped, later lines win |
| EnvFile.LaterLineWins | services/inh-cli/src/inh_cli/secrets.py:13-23 | a line `key=value` after the others, whitespace around it or not, gives the key that value whatever earlier lines gave it, and touches no other key |
| EnvFile.OtherLinesSayNothing | services/inh-cli/src/inh_cli/secrets.py:13-23 | a line of whitespace, a comment or a line without `=` changes no value |
| EnvFile.RenderIsOrdered | services/inh-cli/src/inh_cli/secrets.py:26-28 | the printed lines are one for each key, in the order of the characters of the keys |
| EnvFile.RoundTripExactly | services/inh-cli/src/inh_cli/secrets.py:13-28 | parse after render is the identity exactly on maps whose keys and values a line can carry |
| EnvFile.ParseRenderParse | services/inh-cli/src/inh_cli/secrets.py:13-28 | parse(render(parse(f))) = parse(f) for every text f |
| EnvFile.GenerateMissing | services/inh-cli/src/inh_cli/secrets.py:46-67 | the fill-in statements in their order compute `Filled` |
| EnvFile.EachKeyIsFilled | services/inh-cli/src/inh_cli/secrets.py:46-67 | a key that has a value keeps it, one without gets its own fresh one |
| EnvFile.FilledExactly | services/inh-cli/src/inh_cli/secrets.py:46-67 | for whatever was there, the nine keys and the value of each, prefixes and defaults included: six replace an empty value too, three keep it |
| EnvFile.FilledIsStable | services/inh-cli/src/inh_cli/secrets.py:46-67 | non-empty values stay, every generated key has a value, and a second pass changes nothing |
| EnvFile.ComposeEnv.LoadOrCreate | services/inh-cli/src/inh_cli/secrets.py:70-76 | reads, fills in, replaces the file by the rendering of what it returns |
| EnvFile.LoadTwice | services/inh-cli/src/inh_cli/secrets.py:70-76 | a second load returns the same map and writes the same bytes, whatever the file held |
| StoragePath.WalkClimbs | services/inh-ingestion-svc/src/api/ownership.py:294-298 | the walk ends above its start exactly when some prefix leaves more names than it enters |
| StoragePath.NormPathKeepsWalk | services/inh-ingestion-svc/src/api/ownership.py:298 | normalising keeps the walk and is idempotent |
| StoragePath.StripSlashesExactly | services/inh-ingestion-svc/src/api/ownership.py:298 | all leading slashes come off, and nothing else |
| StoragePath.AcceptedExactly | services/inh-ingestion-svc/src/api/ownership.py:290-331 | the exact verdict for every path and every workspace id |
| StoragePath.NeverAccepted | services/inh-ingestion-svc/src/api/ownership.py:290-331 | the id `.` and ids with a slash are granted no path |
| StoragePath.OwnFoldersAreAccepted | services/inh-ingestion-svc/src/api/ownership.py:242-249 | a plain id is granted both storage layouts |

## Left out

- SQLAlchemy, PostgreSQL, Weaviate, Temporal, HTTP, logging and metrics: each transaction is one atomic step on maps and sets; only columns that decide control flow, or that a promise is about, are kept.
- Fencing.NewestRunWins: speaks of the time between deletes of the document (a delete resets the claim) and of stores without manual chunk edits, which carry no run marker.
- AppendFlushes.FlushesCountOnce: each flush is acknowledged before the next reads its offset; an abandoned flush whose first commit lands later is not covered.
- The vector store has no fence: `is_active_run` narrows the window and the model claims no more for it than its answer.
- Reuse events and the purge-state row are not among the entries that `count_workspace_residue` counts, so the purge theorems do not speak of them.
- RankingMetrics.NdcgInUnitInterval: reals for floats; the logarithm and the power are any positive decreasing discount and monotone gain with gain(0) = 0, strict where a theorem says so.
- Embedding.EmbedTextsWithProgress: a batch call returns one vector per input or raises; the HTTP retries inside it are not modelled.
- StoreBudget.BudgetCoversEverySchedule: a batch takes at most its budget; the fixed overhead for the write itself is subtracted, not explained.
- Reindex: uuid5 is represented by the name it hashes, so it is taken to be injective; vectors and the other object properties are left out, and the server's comparison of document ids is a parameter.
- ContentTypeBackfill.Stores.RunBackfill: a failed synchronisation leaves the labels of that document as they were; a partial one is not modelled. The call `update_chunks_content_type` is a parameter that may succeed or raise: the vector-store service at this commit does not define it.
- Migrations: no SQL file commits by itself, and nothing but migrations creates or drops the probed table.
- EnvFile: undecodable bytes, file modes and the temporary file are left out; replacing the file is one step.
- StoragePath: a path never begins with a slash where it is normalised, so leading slashes of `normpath` are not modelled.
- FileTypes: `str.lower` is a parameter, and the messages of the errors are reduced to which entry they name.
- Regex redaction, content-risk scoring, settings, CLI commands and API route bodies: they would add easy members or hang on engines that cannot be seen.
