# Total Recall: a verified model

Total Recall is a memory store. Most of its hard logic is a set of protocols over one table of memory
rows, plus crash-resumable jobs and in-process queues around them. This project models those protocols
in Dafny and proves what they promise, for all inputs, all reachable states and all runs.

`dafny verify dfyconfig.toml` checks everything.

| file | models |
|---|---|
| `Ordering.dfy`, `Prelude.dfy` | `ORDER BY … LIMIT` as a function from a set to its one ascending listing; nullable columns, ids, instants |
| `MemoryValidity.dfy` | the validity columns and the preflights of the backfill and of the finalizer |
| `ValidityBackfill.dfy` | the bounded, resumable repair of validity intervals |
| `VersionChains.dfy` | what the finalizer's row-by-row checks imply about whole supersession chains |
| `AutomaticRevision.dfy` | the automatic writer that extends the chains, over all runs |
| `Clustering.dfy` | greedy complete-link clustering |
| `ConsolidationRun.dfy` | selection of overlapping clusters, and the checkpoint across failing runs |
| `ConsolidationStore.dfy`, `ConsolidationTables.dfy` | consolidate, deconsolidate and forget on the two tables they write |
| `ConsolidationSafety.dfy`, `ConsolidationTheorems.dfy`, `ConsolidationRestore.dfy`, `ConsolidationRoundTrip.dfy` | the invariant of every run of them, and what follows from it |
| `GraphTraversal.dfy` | the capped breadth-first search |
| `ShadowScheduler.dfy` | the bounded scheduler and the runtime shutdown around it |
| `RuntimeBudget.dfy` | the micro-dollar budget and its decimal texts |
| `DiscordSweep.dfy`, `DiscordSweepFile.dfy` | the crash-retry checkpoint protocol, for one channel and for all channels of the state file |
| `GeminiRekey.dfy` | in-place re-keying under a uniqueness constraint |
| `Migrations.dfy` | the migration ledger and the legacy reconciliation |
| `Reembedding.dfy` | the re-embedding cursor scan |
| `Calendar.dfy`, `Clock.dfy`, `PlayedAt.dfy` | calendar arithmetic and the fuzzy played-at phrases |

## How it is modelled

The database is explicit state: maps from ids to rows, with `Option` for nullable columns and integers for
instants on one clock. A committed transaction is one step; a transaction that fails changes nothing. What
lies outside the code (the order of clock readings, other writers, rows locked elsewhere, provider answers,
crashes, the moment a promise settles) is a parameter or an arbitrary step, so that a theorem holds for every
behaviour of it. Code that updates rows or fields is a class with methods, proved equal to a function of the
old state; the theorems are about those functions and about runs of them. SHA-256 and MD5 are injections: a
hash is what it digests. Similarity is an arbitrary map from pairs to reals. Texts that are only compared
stand for their rank in the collation. Instants are microseconds, except in `GeminiRekey.dfy`, where they are the
milliseconds that `iso()` keeps.

## Where the code and its promises differ

- Deconsolidation does not restore a member's revision. The trigger at `migrations/027_memory_consolidation.sql:152`
  counts both the link and the unlink, so it ends two higher (`ConsolidationRoundTrip.RestoredWheneverAccepted`).
  Source keys digest revisions, so a key never repeats and the replay branch of `applyCluster` is never taken
  (`ConsolidationTheorems.ReplayNeverRebinds`).
- `applyDeconsolidation` never asks whether a manifest is complete. It leaves no memory linked exactly when the
  manifest lists every linked one (`ConsolidationRestore.NothingLeftIffComplete`); a previewed manifest always does.
  Any two to twenty of its active memberships make an accepted manifest
  (`ConsolidationRestore.PartialManifestIsAccepted`). A canonical left with one linked member can never be released
  (`ConsolidationRestore.LoneMemberIsStranded`), and a run from empty tables leads there
  (`ConsolidationRestore.AMemberCanBeStranded`).
- Neighbours of an anchor are cut at 21 before clustering. A cluster that is not oversized is maximal among all rows
  near its anchor exactly when none past the cut fits it (`ConsolidationRun.MaximalIffNoneCutOffFits`). That is
  guaranteed for every table exactly while at most 21 rows are near the anchor (`ConsolidationRun.AlwaysMaximalIff`).
- The rows reach `buildCompleteLinkCluster` in time order, and it sorts them again by the text of `created_at`. The two
  orders differ when one text has a fraction of a second and another has none. The theorems hold for any order of the
  texts.
- `buildCompleteLinkCluster` is oversized exactly when it returns `maxSize + 1` members, except for a maximum of
  zero (`Clustering.OversizedIffFull`).
- The sweep's "nothing is stored before its snapshot is durable" holds for all watermarks and histories exactly when no
  two display names of the session map share a channel id (`DiscordSweepFile.SafeIffDistinct`). If two do, the channel
  is visited twice in a run, and the second visit can store a snapshot whose save failed in the first; the next run
  then asks the model again (`DiscordSweepFile.ExtractsFirstIffDistinct`). The windows tile all the same
  (`DiscordSweepFile.EveryChannelTiles`).
- The comment at `scripts/discord-sweep.py:314` says every channel's legacy watermark is kept. With `--channels`,
  only those of the selected channels are (`DiscordSweep.MigrationKeepsWatermarkIff`).
- A re-key manifest can be valid and still be refused: uniqueness also covers soft-deleted rows and rows of other
  sources, which the script does not load. It applies exactly when none of them holds a target
  (`GeminiRekey.MemoriesTable.ApplyGeminiKeyRepair`); otherwise it rolls back.
- With a full repair every row in scope is eligible, so "the verification counts are zero exactly when no row is
  eligible" holds for a scope, over all tables, exactly without full repair (`Reembedding.CountsMeanNoneEligibleIff`).
- Not every phrase the parser accepts resolves. A phrase resolves exactly when its count fits a timedelta and the unit
  it names, and the start of the next, lie in the calendar (`PlayedAt.PhraseMeansItsUnit`); otherwise, unless the answer
  is None, it raises an uncaught error. So does `n months ago` for a count whose weeks overflow a timedelta, because
  the table of timedeltas is built for every unit (`PlayedAt.HugeCountsRaise`), and so do `today` and `this month` at
  the end of the calendar (`PlayedAt.EndDaysRaise`, `PlayedAt.EndMonthRaises`).

## Model

| member | source | states |
|---|---|---|
| ValidityBackfill.RepairSettles | scripts/backfill-memory-validity.ts:87-108 | an updated row stays pending exactly when neither a boundary nor a creation date gives it a start |
| ValidityBackfill.RepairShrinksPending | scripts/backfill-memory-validity.ts:87-108 | after a clean preflight each update removes its rows from the pending set for good and touches no other row's status |
| ValidityBackfill.RepairKeepsClean | scripts/backfill-memory-validity.ts:46-79 | a clean table stays clean under any batch |
| ValidityBackfill.RepairTwice | scripts/backfill-memory-validity.ts:84-108 | batches commute: two updates amount to one over their union |
| ValidityBackfill.ScheduleOutcome | scripts/backfill-memory-validity.ts:34-125 | any succession of batches, over any number of runs, only decides which rows are repaired so far; rows updated are exactly the drop in pending rows |
| ValidityBackfill.SchedulesConverge | scripts/backfill-memory-validity.ts:34-125 | all schedules that drain the pending set reach the same table with equally many row updates, and a further pass changes nothing |
| ValidityBackfill.DrainedIffAcceptable | scripts/finalize-memory-validity.ts:48-85 | on a clean table, nothing pending if and only if every finalizer count but duplicate predecessors is zero |
| ValidityBackfill.DrainedIsAccepted | scripts/finalize-memory-validity.ts:48-85 | the table a schedule ends in passes the finalizer if and only if it is drained and had no duplicate predecessors |
| ValidityBackfill.AcceptedIff | scripts/finalize-memory-validity.ts:48-85 | the five counts are zero exactly if every row has a start, before its end, its two ends agree, it starts where its predecessor ends, and no two rows replace the same one |
| ValidityBackfill.MemoriesTable.RepairBatch | scripts/backfill-memory-validity.ts:85-109 | the rows repaired are the first free pending ones in id order, up to the batch size; each gets its missing start, from its predecessor or its creation, and its missing end, and no other column or row changes |
| ValidityBackfill.MemoriesTable.Backfill | scripts/backfill-memory-validity.ts:34-125 | which options are refused; refused too exactly if some row is faulty; otherwise every row is as it was or repaired, the counts are those of pending rows before and after, the bounds hold; and, if nothing is locked, it updates as many pending rows as its batches allow |
| VersionChains.LinkAdvances | scripts/finalize-memory-validity.ts:48-85 | in an accepted table a link leads to an existing row, whose end is the next start, strictly after its own |
| VersionChains.ChainAdvances | scripts/finalize-memory-validity.ts:48-85 | along a chain every interval ends before any later one starts |
| VersionChains.ChainsAreFinite | scripts/finalize-memory-validity.ts:48-85 | no version is reached twice, so chains are acyclic and no longer than the table |
| VersionChains.HistoryIsUnique | scripts/finalize-memory-validity.ts:48-85 | every version has exactly one way back to a root |
| VersionChains.ChainsDoNotBranch | scripts/finalize-memory-validity.ts:63-70 | two chains of one root are one the beginning of the other |
| VersionChains.FamilyIsChain | scripts/finalize-memory-validity.ts:48-85 | the versions of a root are exactly the chain to its last version |
| VersionChains.LastExists | scripts/finalize-memory-validity.ts:48-85 | every family of an accepted table has a last version, one without a successor |
| VersionChains.LastIsUnique | scripts/finalize-memory-validity.ts:48-85 | and only one |
| VersionChains.AtMostOneValid | scripts/finalize-memory-validity.ts:48-85 | two versions of one root are never valid at the same instant |
| VersionChains.OneVersionPerInstant | scripts/finalize-memory-validity.ts:48-85 | some version of a family is valid at an instant if and only if it lies from the root's start to the last version's end, for ever if that is open |
| VersionChains.OpenIsLast | src/contradictions.ts:678 | an open version has no successor |
| AutomaticRevision.Memories.CommitAutomaticRevision | src/contradictions.ts:657-743 | not eligible exactly when the row is absent, foreign, restricted, not semantic, forgotten, expired, superseded, closed, not started, consolidated or already has a successor; rolled back exactly when eligible and the id is taken or the clock has not passed its start; else only its two ends are written, and the successor starts where it ends |
| AutomaticRevision.RejectedIff | src/contradictions.ts:663-702 | the successor guard never decides in an accepted table; a revision rolls back exactly when the clock has not passed the predecessor's start or the id is taken |
| AutomaticRevision.CommitKeepsAccepted | src/contradictions.ts:657-743 | a revision keeps every condition the finalizer checked |
| AutomaticRevision.RevisionHandsOver | src/contradictions.ts:684-735 | from the revision instant on the successor is valid in the predecessor's place; nothing else and no earlier instant changes |
| AutomaticRevision.RevisionAppends | src/contradictions.ts:704-735 | one version is appended to one chain; every other history is as it was |
| AutomaticRevision.RunKeepsAccepted | src/contradictions.ts:657-743 | after any run of inserts, revisions and rewrites of other columns the table is still accepted |
| AutomaticRevision.RunKeepsPast | src/contradictions.ts:657-743 | what was valid at an instant before every boundary a run writes is still valid at it, and nothing else is |
| AutomaticRevision.RunKeepsVersions | migrations/025_memory_supersession.sql:38-43 | a closed version keeps its end and its place for the rest of the run |
| Clustering.BuildCompleteLinkCluster | src/consolidation.ts:150-174 | starting from the anchor, a candidate is taken if and only if it is at the threshold from every member before it in (similarity, time, id) order; the walk stops at the first member beyond maxSize, and only that makes it oversized |
| Clustering.BuiltIsGreedy | src/consolidation.ts:150-174 | the same of the unbounded greedy group cut at maxSize + 1, with ids distinct |
| Clustering.ClusterIsCliqueAndMaximal | src/consolidation.ts:150-174 | the cluster is a clique at the threshold; if not oversized, no other candidate fits |
| Clustering.LexicographicallyFirst | src/consolidation.ts:150-174 | the positions chosen are the lexicographically first maximal clique |
| Clustering.ChosenIsClique | src/consolidation.ts:160-168 | the positions chosen are a clique |
| Clustering.ChosenIsMaximal | src/consolidation.ts:160-168 | a position not chosen misses some chosen one before it |
| Clustering.AdmittedAreChosen | src/consolidation.ts:160-168 | what the loop pushes are exactly the candidates at chosen positions |
| Clustering.OversizedIffFull | src/consolidation.ts:150-174 | oversized exactly when maxSize + 1 members are returned, for every maximum but zero, where it fails |
| Clustering.OrderIndependent | src/consolidation.ts:150-174 | the cluster does not depend on the order candidates are supplied in |
| ConsolidationRun.QueryCandidates | src/consolidation.ts:293-328 | the candidates are the first 21 rows within 0.92 of the anchor by similarity, then time and id, and the map holds the similarity of every two of them |
| ConsolidationRun.ExamineAnchor | src/consolidation.ts:285-343 | one pass of the selection loop on the progress so far; what a whole loop of them selects is stated by ScanIsSelection |
| ConsolidationRun.SelectClusters | src/consolidation.ts:245-352 | it examines the anchors after the cursor in time order; the selected clusters are those of distinct examined anchors, in order; an examined anchor has its cluster selected exactly if that has two members and the anchor is in no earlier selected cluster that is not oversized; and on a consistent table every cluster is the greedy group around its anchor, over the similarities the table holds |
| ConsolidationRun.ScanIsSelection | src/consolidation.ts:285-343 | the same of every page of anchors and every limit: no anchor of a later cluster is a member of an earlier one that is not oversized |
| ConsolidationRun.ClusterGroupsAround | src/consolidation.ts:150-343 | an anchor's cluster is its own greedy group over its first 21 neighbours, oversized exactly beyond 20 members |
| ConsolidationRun.OversizedExactly | src/consolidation.ts:328-343 | an anchor's cluster is oversized if and only if it has 20 other neighbours and all 21 are pairwise similar |
| ConsolidationRun.ClusterIsClique | src/consolidation.ts:285-343 | the members at an anchor are distinct eligible rows near it and pairwise similar in the table |
| ConsolidationRun.MaximalIffNoneCutOffFits | src/consolidation.ts:293-343 | a cluster that is not oversized is maximal among all rows near its anchor if and only if no row past the 21st neighbour is similar to all its members |
| ConsolidationRun.AlwaysMaximalIff | src/consolidation.ts:293-343 | over all tables with so many rows near the anchor a cluster that is not oversized is maximal, if and only if they are at most 21 |
| ConsolidationRun.MaximalityCanFail | src/consolidation.ts:293-343 | for every number of near rows above 21 there is a table whose selection pushes a cluster that leaves out a row which fits it |
| ConsolidationRun.SelectionsMayOverlap | src/consolidation.ts:285-343 | there is a table whose selection puts one memory in two clusters |
| ConsolidationRun.NoClusterPassedUndecided | src/consolidation.ts:495-601 | wherever a run fails, the checkpoint passes no selected cluster without a recorded decision |
| ConsolidationRun.CheckpointMoves | src/consolidation.ts:345-351 | a successful nonempty run strictly advances the checkpoint; a failing one never moves it back |
| ConsolidationRun.PassedWereExamined | src/consolidation.ts:262-293 | every anchor the checkpoint moved past was examined by that run |
| ConsolidationRun.BehindCheckpointWasExamined | src/consolidation.ts:495-601 | over any schedule of runs, failing or not, every eligible anchor behind the checkpoint was examined since the last wrap |
| ConsolidationRun.WrapMeansAllExamined | src/consolidation.ts:262-284 | when a run wraps, every eligible anchor has been examined since the previous wrap |
| ConsolidationRun.ConsolidationJob.Apply | src/consolidation.ts:495-601 | the saves of a run leave the checkpoint at the last anchor decided before the failure, or, if it completes, at the last one examined, or nowhere when it wrapped |
| ConsolidationSafety.StepKeeps | src/consolidation.ts:750-881 | every insert, consolidation, forget and deconsolidation keeps the link and membership invariant |
| ConsolidationSafety.RunKeeps | src/consolidation.ts:750-881 | so does every run |
| ConsolidationTheorems.LinkedIffOneActiveMembership | migrations/027_memory_consolidation.sql:92-145 | in every reachable state a memory is linked to c if and only if it has exactly one active membership and that names c; canonicals are never members |
| ConsolidationTheorems.FreshRequestsAreUnopposed | src/consolidation.ts:806-856 | when the locked members pass every check, the source key is new and no active membership names them |
| ConsolidationTheorems.ReplayNeverRebinds | src/consolidation.ts:806-856 | the replay branch is unreachable: a request is stale, aborted by an expiring member, or merged under its own canonical |
| ConsolidationTheorems.MergedVersionsAreSpent | src/consolidation.ts:503-507 | after a merge, any request loaded from one of the merged versions is stale for ever, so overlapping clusters of one selection never link a memory twice |
| ConsolidationTheorems.RunEvolves | src/consolidation.ts:857-874 | over any run rows keep their base columns, revisions never fall, and the membership history is append-only |
| ConsolidationTheorems.ActiveNeverGrows | src/consolidation.ts:857-874 | a canonical's active memberships never grow after its creation |
| ConsolidationRestore.NothingLeftIffComplete | src/consolidation.ts:992-1050 | an accepted manifest tombstones its canonicals, and leaves none linked exactly when it lists every linked memory |
| ConsolidationRestore.PartialManifestIsAccepted | src/consolidation.ts:992-1050 | any 2 to 20 distinct active memberships of a canonical make a manifest that is accepted and releases exactly their members |
| ConsolidationRestore.PreviewCoversLater | src/consolidation.ts:943-990 | a preview lists everything that is linked to the canonical at any later time |
| ConsolidationRestore.PreviewedManifestLeavesNothingLinked | src/consolidation.ts:943-1050 | a previewed manifest, applied whenever it is accepted, leaves no memory linked to its canonicals |
| ConsolidationRestore.VisibleIff | src/consolidation.ts:202-209 | visible is neither forgotten, superseded, ended, linked nor expired |
| ConsolidationRestore.ConsolidationSwapsVisible | src/consolidation.ts:857-874 | consolidation replaces the members by the canonical in the visible set and changes nothing else in it |
| ConsolidationRestore.RoundTrip | src/consolidation.ts:943-1050 | consolidate, then preview and apply at once: if nothing between touched the cluster's rows the manifest is accepted, every member has its content, tags, embedding and lifecycle back two revisions later, the canonical is tombstoned, no other row changes |
| ConsolidationRestore.RoundTripRestoresVisible | src/consolidation.ts:943-1050 | and the visible set is what it was |
| ConsolidationRoundTrip.PreviewAcceptedIff | src/consolidation.ts:943-1050 | whatever runs between preview and application, the previewed manifest is accepted if and only if the caller is permitted and of the same client, each canonical has 2 to 20 members listed, and every listed membership is still open: forgetting does not matter |
| ConsolidationRoundTrip.PreviewIff | src/consolidation.ts:943-990 | a manifest is previewed exactly for a permitted caller and one to a hundred canonicals with an open membership of the client each |
| ConsolidationRoundTrip.ListedMembersAreRestored | src/consolidation.ts:992-1050 | whatever ran before the preview and between it and an accepted application, each listed member is unlinked two revisions above the one its membership recorded, with the same base columns, and forgotten only if a step between forgot it |
| ConsolidationRoundTrip.RestoredWheneverAccepted | src/consolidation.ts:750-1050 | consolidate, run anything, preview, run anything, apply: if accepted, each member still linked at the preview is its row from before the merge, two revisions later, with the tombstone the steps between gave it |
| ConsolidationRoundTrip.EntriesAcceptedIff | src/consolidation.ts:1008-1050 | the entries of a manifest are accepted one after the other if and only if each is accepted at first |
| ConsolidationRestore.LoneMemberIsStranded | src/consolidation.ts:992-1008 | a canonical with one linked member left can never be released |
| ConsolidationRestore.AMemberCanBeStranded | src/consolidation.ts:992-1050 | a run from empty tables reaches a released canonical with exactly one memory still linked |
| ConsolidationRestore.ForgetIsExact | src/memory-lifecycle.ts:82-124 | a forget step changes at most 100 rows, only by tombstoning them, and returns in order exactly the selected ids it tombstoned |
| ConsolidationRestore.ForgottenWithCanonical | src/memory-lifecycle.ts:82-112 | in every reachable state a forgotten memory's canonical is forgotten |
| ConsolidationTables.MemoryTables.CommitCluster | src/consolidation.ts:750-881 | stale exactly when a locked member differs from what was loaded or the similarities no longer hold; merged exactly when not stale, the key is new and every member can be linked; then the canonical row, the links and one open membership per member are written, and nothing else |
| ConsolidationTables.MemoryTables.AppendMemberships | src/consolidation.ts:857-867 | the insert loop appends one membership per member in id order |
| ConsolidationTables.MemoryTables.CommitManifest | src/consolidation.ts:992-1050 | in reachable tables released exactly when the manifest is well formed, the caller permitted, and every canonical is as previewed with all its listed memberships open; then exactly the listed members lose their link, the canonicals are forgotten and the listed memberships closed; otherwise nothing changes |
| ConsolidationTables.AcceptedIff | src/consolidation.ts:992-1050 | applying the canonicals one after the other is accepted exactly if every one of them passes against the tables as they were |
| ConsolidationTables.ManifestReleases | src/consolidation.ts:1008-1050 | what each row and membership becomes when a whole manifest is applied |
| ConsolidationTables.MemoryTables.CommitForget | src/memory-lifecycle.ts:82-124 | the rows selected are those of the caller that match every selector given; over 100 of them, or of them and the canonicals their links lead to, is refused; otherwise exactly those are forgotten, once each, and the selected ids are returned ascending |
| GraphTraversal.TraverseMemoryGraph | src/entities.ts:209-271 | with distance the least number of hops from a match through visible memories the hop's two entities share: each entity returned has its true distance, within the depth; the list ascends by distance, then namespace, normalised name, name and id; an entity a walk of at most that many hops reaches is returned, or else the answer is truncated, 100 long, and ranks before it; truncated only if some such entity is missing |
| GraphTraversal.LayerIsDistance | src/entities.ts:250-262 | an entity of layer n is reached by a walk of n hops through visible memories and by none shorter |
| GraphTraversal.LayerIsShortestDistance | src/entities.ts:244-271 | a layer holds exactly the entities whose shortest path from a seed has that many hops |
| GraphTraversal.ByDistanceListsBall | src/entities.ts:244-271 | the reference order lists the ball, each entity once |
| GraphTraversal.FrontierSuffices | src/entities.ts:246-261 | expanding only the last frontier finds the whole next layer |
| GraphTraversal.ListAdvances | src/entities.ts:245-271 | one pass under the cap keeps the loop at the first 100 of the layers so far, truncated or not |
| GraphTraversal.LevelReached | src/entities.ts:244-271 | after d passes the loop's variables are those of the first d layers |
| GraphTraversal.LevelEnds | src/entities.ts:244-271 | stopping at the depth or at an empty frontier loses nothing of the ball |
| ShadowScheduler.ScheduleTakesIff | src/contradictions.ts:163-179 | a job is taken exactly when the scheduler is open with a slot or a queue place, and starts at once exactly when it finds a slot |
| ShadowScheduler.SettleHandsOn | src/contradictions.ts:193-208 | a finished job's slot goes to the longest-waiting job |
| ShadowScheduler.RunIsValid | src/contradictions.ts:154-209 | in every run active and queued stay within the limits of the configuration the runtime was created for, jobs wait only while all slots are busy, jobs start in the order they were accepted, and no shutdown caller waits on an idle runtime |
| ShadowScheduler.RefusedExactly | src/contradictions.ts:211-246 | in every reachable runtime a job is taken exactly when no reason is given; shut down, no budget, another configuration and saturated each have their exact condition; and a refusal changes nothing |
| ShadowScheduler.RunKeepsConfig | src/contradictions.ts:228-242 | the runtime keeps the configuration it was created for, whatever policies later calls bring |
| ShadowScheduler.AcceptedJobsInOrder | src/contradictions.ts:163-191 | the i-th accepted job is the i-th started, or waits, or was dropped by closing: exactly one of them |
| ShadowScheduler.RunKeepsHistory | src/contradictions.ts:163-208 | nothing accepted, started or dropped is ever undone or reordered |
| ShadowScheduler.ShutdownReturnsExactlyWhenIdle | src/contradictions.ts:262-295 | in every run a shutdown call has returned if and only if every started job has settled and as many classifications have finished as were begun |
| ShadowScheduler.ClassificationsAreCounted | src/contradictions.ts:248-260 | the counter is the number of classifications let in, with a budget, before shutdown and under the configuration in force, minus those finished |
| ShadowScheduler.RunIsOpen | src/contradictions.ts:228-252 | in every run the runtime accepts until the first shutdown, and its configuration is that of the first call with a budget |
| ShadowScheduler.ShutdownOnlyShrinks | src/contradictions.ts:248-295 | after shutdown nothing starts, so idleness is final |
| ShadowScheduler.WaitingCallerProgresses | src/contradictions.ts:181-208 | while a caller waits, some started job has not settled or some begun classification has not finished, and its end brings the answer one closer |
| ShadowScheduler.BoundedShadowScheduler.ScheduleJob | src/contradictions.ts:163-179 | the new state, and that it refuses exactly the jobs it does not accept |
| ShadowScheduler.BoundedShadowScheduler.JobSettled | src/contradictions.ts:193-208 | the finally block's new state |
| ShadowScheduler.BoundedShadowScheduler.CloseAndDrain | src/contradictions.ts:181-187 | the new state, and that it waits exactly while something is active |
| ShadowScheduler.ContradictionRuntime.EnsureRuntime | src/contradictions.ts:228-242 | available exactly with a budget and no other configuration in force; the scheduler is built once, with the limits of the first |
| ShadowScheduler.ContradictionRuntime.ScheduleShadowClassification | src/contradictions.ts:268-285 | the new state, with the runtime created at its first use, and the reason given: shut down, no budget, another configuration, or saturated |
| ShadowScheduler.ContradictionRuntime.Begin | src/contradictions.ts:228-252 | a classification begins, and is counted, exactly when the runtime accepts, the policy has a budget and no other configuration is in force; otherwise the reason, and nothing counted |
| ShadowScheduler.ContradictionRuntime.Finish | src/contradictions.ts:254-260 | the last classification to finish answers every waiting caller |
| ShadowScheduler.ContradictionRuntime.ShutDownRuntime | src/contradictions.ts:287-295 | the new state, and that it waits exactly while a job or a classification is active |
| RuntimeBudget.ParseIsExact | src/contradictions.ts:764-768 | an accepted text with k decimals parses to exactly its digits times 10^6 / 10^k |
| RuntimeBudget.AmountIff | src/contradictions.ts:765 | exactly digits, optionally a point and one to six digits, are amounts |
| RuntimeBudget.ParseFailsIff | src/contradictions.ts:764-768 | a text is no amount exactly if, trimmed, it is neither digits nor digits, a point and one to six digits |
| RuntimeBudget.RoundUpIsLeast | src/contradictions.ts:770-775 | the rounded rate is the least whole micro-dollar amount covering the exact one |
| RuntimeBudget.ReservationCoversCost | src/contradictions.ts:135-151 | after any attempts the reservation is within the limit, at least the exact cost of all granted calls, and over it by less than two micro-dollars a call |
| RuntimeBudget.GrantedWorkIsAffordable | src/contradictions.ts:135-151 | the exact cost of everything granted never exceeds the limit |
| RuntimeBudget.ReservationGrows | src/contradictions.ts:135-141 | the reservation never shrinks and a refusal is never reversed |
| RuntimeBudget.ConservativeRuntimeBudget.TryReserve | src/contradictions.ts:135-141 | which byte counts throw; otherwise the cost is the request price plus the least whole micro-dollars covering each rate, the attempt is granted exactly if that fits what is left, and only then is it reserved |
| DiscordSweep.StepKeepsValid | scripts/discord-sweep.py:306-367 | every statement, save outcome, store outcome and crash keeps the protocol invariant |
| DiscordSweep.RunIsValid | scripts/discord-sweep.py:306-367 | so does every succession of sweeps that visits the channel once each |
| DiscordSweep.StepKeepsWindowed | scripts/discord-sweep.py:306-367 | every step, a second visit in one run included, keeps the windows of file and state dict adjacent and only adds to the checkpointed ones |
| DiscordSweep.StoredExactlyTheSnapshots | scripts/discord-sweep.py:346-363 | wherever sweeps crash, the server holds exactly the snapshots of checkpointed windows, and during a store the recorded part of the durable snapshot and at most its next memory |
| DiscordSweep.ExtractionPrecedesStores | scripts/discord-sweep.py:346-353 | if the channel is visited once per run, the model is never asked again once a memory of the window is stored |
| DiscordSweep.SecondVisitStoresUnsaved | scripts/discord-sweep.py:324-363 | whatever the watermark, a channel visited twice in a run can have a memory stored before its snapshot is durable |
| DiscordSweep.StoredIsForeseenIff | scripts/discord-sweep.py:324-363 | over all channels, watermarks and histories nothing is stored before its snapshot is durable, if and only if no run may visit a channel twice |
| DiscordSweep.RunKeepsWindows | scripts/discord-sweep.py:361-363 | in every history, of one visit a run or many, a checkpointed window is never changed or withdrawn |
| DiscordSweep.EachInstantOnce | scripts/discord-sweep.py:86-87 | every instant from the first recorded start to the watermark lies in exactly one completed window, and no other instant in any |
| DiscordSweep.WithinCovers | scripts/discord-sweep.py:71-121 | extraction keeps each message of a log, as often as it occurs, exactly if the window covers it |
| DiscordSweep.EachMessageOnce | scripts/discord-sweep.py:71-121 | a message of a log is extracted for exactly one completed window if it lies between the first recorded start and the watermark, and otherwise for none |
| DiscordSweep.WindowsTile | scripts/discord-sweep.py:331-345 | after any succession of runs, visits and crashes the durable windows are adjacent, cover exactly the instants from the first recorded start to the watermark, and do not overlap |
| DiscordSweep.KeyNamesOneMemory | scripts/discord-sweep.py:162-164 | no two memories of completed windows and the pending snapshot share a key |
| DiscordSweep.RejectedOnlyByClock | scripts/discord-sweep.py:291-303 | in every history saved state is never found corrupt: a pending window is rejected exactly when it ends after the clock |
| DiscordSweep.MigrationKeepsWatermarkIff | scripts/discord-sweep.py:312-323 | migrating the legacy file keeps a channel's watermark exactly if the run selects it, or selects none |
| DiscordSweep.ChannelSweep.Visit | scripts/discord-sweep.py:324-367 | a visit is a succession of protocol steps whatever fails; a successful one adds one window, from the pending start, the watermark or the lookback, holding the pending snapshot, nothing if under three messages lie in it, or else what the model answered; the server gains exactly those memories under their keys; and it succeeds if clock, saves, stores and model do |
| DiscordSweep.ChannelSweep.OpenWindow | scripts/discord-sweep.py:331-345 | a pending window is resumed as it is; otherwise one is planned from the watermark, or the lookback, to the clock; and exactly when that fails |
| DiscordSweep.ChannelSweep.Snapshot | scripts/discord-sweep.py:346-353 | under three messages in the window give no memory and need no model; otherwise the snapshot is the answer; it succeeds exactly if there is one to save and the save is acknowledged |
| DiscordSweep.ChannelSweep.StoreMemory | scripts/discord-sweep.py:355-360 | a store that is taken puts the next memory of the snapshot on the server under its key, and a saved one moves the position by one |
| DiscordSweep.ChannelSweep.StoreSnapshot | scripts/discord-sweep.py:354-363 | when it succeeds the server has gained every memory of the snapshot from its position on, and the window is checkpointed with all of them |
| DiscordSweep.ChannelSweep.CloseWindow | scripts/discord-sweep.py:361-363 | the window joins the completed ones with its memories, and its end is the watermark |
| DiscordSweepFile.ChannelFollowsProtocol | scripts/discord-sweep.py:324-367 | over any session map, with every save writing all channels' state and crashes anywhere, each channel alone goes through a run of the single-channel protocol, and is visited once per sweep if no channel is named twice |
| DiscordSweepFile.SaveWritesEveryChannel | scripts/discord-sweep.py:235-236 | a save that takes effect writes the state of every channel; no other move touches the file |
| DiscordSweepFile.EveryChannelStoresItsSnapshots | scripts/discord-sweep.py:324-367 | if no channel is named twice, the server holds for every channel what its durable record says, and at most its next memory |
| DiscordSweepFile.EveryChannelTiles | scripts/discord-sweep.py:324-367 | over every session map, one with two names for a channel included, the completed windows of every channel are adjacent, cover exactly the instants from its first recorded start to its watermark, and do not overlap |
| DiscordSweepFile.TwoNamesStoreUnsaved | scripts/discord-sweep.py:54-68 | two names of one channel store a memory of a snapshot that no file holds, whatever the watermarks |
| DiscordSweepFile.SafeIffDistinct | scripts/discord-sweep.py:54-68 | over all watermarks and histories the file foresees everything stored, if and only if no two names of the session map share a channel |
| DiscordSweepFile.ExtractsFirstIffDistinct | scripts/discord-sweep.py:324-363 | over all watermarks and histories the model is only asked while nothing of the window is stored, if and only if no two names of the session map share a channel |
| GeminiRekey.ConflictIffHeldOutside | scripts/repair-gemini-source-keys.ts:225-265 | at any point of a repair the next update meets a holder of its key exactly when a row outside the loaded scope holds it |
| GeminiRekey.MemoriesTable.ApplyGeminiKeyRepair | scripts/repair-gemini-source-keys.ts:225-265 | commits exactly when the manifest approves exactly the rows concerned with their fingerprints, every contested key is settled, no deleted row is referenced and no target is held outside; then each group of equal payloads is its row oldest by audit time, at the key of its content, rows of other groups and sources are as they were, and the ids reported are those moved and dropped |
| GeminiRekey.MayRepairIff | scripts/repair-gemini-source-keys.ts:164-234 | the checks of the preview, of the manifest and of the update amount to that condition over the columns |
| GeminiRekey.RepairedRepairs | scripts/repair-gemini-source-keys.ts:235-259 | what becomes of each row: moved to the key of its content, dropped for an older equal one, or unchanged |
| GeminiRekey.UniqueThroughout | scripts/repair-gemini-source-keys.ts:235-259 | no two rows share a key after any intermediate statement of such a repair, in whatever order groups and candidates are taken |
| GeminiRekey.MemoriesTable.MergeGroup | scripts/repair-gemini-source-keys.ts:235-252 | an equivalent group keeps its oldest row, at its target |
| GeminiRekey.MemoriesTable.MoveSingles | scripts/repair-gemini-source-keys.ts:253-259 | the candidates outside collisions move, each needing its own approval |
| GeminiRekey.OldestExists | scripts/repair-gemini-source-keys.ts:129-132 | a group has an oldest row |
| GeminiRekey.RepairKeepsPayloads | scripts/repair-gemini-source-keys.ts:114-127 | no distinct payload is lost or altered |
| GeminiRekey.RepairMovesExactly | scripts/repair-gemini-source-keys.ts:253-259 | every surviving candidate outside uncertain groups has its content-derived key; every other surviving row is untouched |
| GeminiRekey.UncertainUntouched | scripts/repair-gemini-source-keys.ts:236-239 | non-equivalent collision groups are left alone |
| GeminiRekey.SecondPreview | scripts/repair-gemini-source-keys.ts:134-162 | a second preview shows exactly the non-equivalent groups of the first, as they were |
| Migrations.LoadInventory | scripts/migrate.ts:34-68 | loading fails exactly when two files share a number; otherwise it lists all of them in number order |
| Migrations.OrderedIffPrefix | scripts/migrate.ts:366-383 | the order checks pass if and only if the applied migrations are a prefix of the inventory within the target |
| Migrations.Database.RunMigrations | scripts/migrate.ts:304-448 | refused exactly when the preflights fail, a ledger row is unknown, repeated or not next in order, or its checksum is neither absent, the inventory's nor a reviewed one; refusal changes nothing; otherwise the ledger records the inventory up to the target, or to the first migration that stops it, and exactly those missing were executed, in order |
| Migrations.MayRunIff | scripts/migrate.ts:340-416 | the checks of the runner amount to that condition over the ledger rows |
| Migrations.EndIsRun | scripts/migrate.ts:385-444 | what the ledger and the execution log are wherever a run ends |
| Migrations.Database.Baseline | scripts/migrate.ts:385-416 | the recorded checksums become those of the inventory |
| Migrations.RunKeepsOrder | scripts/migrate.ts:418-444 | however a run ends, the ledger is a prefix of the inventory, and what ran, since the start or since the reconciliation, is the rest of it in order |
| Migrations.StagingComposes | scripts/migrate.ts:314-322 | through k1 and then k2 is through k2 |
| Migrations.ResumingComposes | scripts/migrate.ts:418-444 | a run stopped and resumed ends as one that was not |
| Migrations.GapsAreRefused | scripts/migrate.ts:376-383 | a ledger with a gap is refused whatever the target |
| Migrations.ReconcileLegacyLedger | scripts/reconcile-legacy-ledger.ts:174-230 | it applies exactly to the two-row legacy ledger under a reviewed inventory, and then the ledger is the first six migrations with their checksums, nothing being executed |
| Migrations.ReconciliationYieldsPrefix | scripts/reconcile-legacy-ledger.ts:202-222 | before reconciliation every run refuses the ledger; afterwards it is a recognised prefix from which runs keep the order |
| Reembedding.Maintenance.Reembed | scripts/reembed-all.ts:181-318 | whatever interferes, each id selected was due when it was, and is selected once, in ascending order; every write goes to a row selected before whose content, revision and time are still the selected ones; selected equals succeeded plus failed, overall and by namespace; it fails exactly past the error limit, conflicts not counted; and if nothing interferes exactly what was due has the new vector, every other row is untouched and nothing is left to do |
| Reembedding.Maintenance.Pass | scripts/reembed-all.ts:240-306 | the batch is what the selection returns after the cursor; it advances the cursor strictly and accounts for each of its rows once |
| Reembedding.Maintenance.SelectBatch | scripts/reembed-all.ts:118-148 | the first free due rows after the cursor: a row is due if live, in scope and, unless the repair is full, without a vector of the profile |
| Reembedding.Maintenance.WriteOne | scripts/reembed-all.ts:150-179 | the update takes effect exactly if the row is still due with the content, revision and time selected, and then writes the vector, the profile and the time, and logs the write |
| Reembedding.BatchPassesNone | scripts/reembed-all.ts:128-144 | a batch passes no eligible row by, but those locked |
| Reembedding.SweptToTheEnd | scripts/reembed-all.ts:240-312 | when an undisturbed scan ends, everything eligible at its start was selected and, unless dry, re-embedded |
| Reembedding.CountsZeroIffNoneEligible | scripts/reembed-all.ts:101-112 | both verification counts are zero if and only if no row in scope is eligible without full repair |
| Reembedding.CountsMeanNoneEligibleIff | scripts/reembed-all.ts:101-112 | for a scope, over all tables, both counts are zero exactly when no row is eligible, if and only if the repair is not full |
| Calendar.SubtractMonthsInverts | scripts/ytmusic_helper.py:165-167 | month subtraction and stepping month by month undo each other across years |
| Calendar.WeekIsNumberedByThursday | scripts/ytmusic_helper.py:142-143 | week labels follow section 4.1.4 of ISO 8601:2004: the week's year and number are those of its Thursday |
| Calendar.WeekLabelNamesMonday | scripts/ytmusic_helper.py:142-143 | two Mondays share a week label exactly when they are the same day |
| Calendar.OrdinalIsInjective | scripts/ytmusic_helper.py:98-113 | an ordinal names one date |
| PlayedAt.RepresentativeInBucket | scripts/ytmusic_helper.py:116-162 | every time resolves into its half-open bucket, under its label, exactly when its unit and the start of the next lie in the calendar |
| PlayedAt.FuzzyResolvesIff | scripts/ytmusic_helper.py:116-162 | a bucket exists, for each precision, exactly when the next unit starts inside the calendar |
| PlayedAt.InCalendarIff | scripts/ytmusic_helper.py:116-162 | which minutes, hours, days, weeks, months and years those are |
| PlayedAt.BucketsEqualOrDisjoint | scripts/ytmusic_helper.py:116-162 | buckets of one precision are equal or disjoint |
| PlayedAt.LabelsNameBuckets | scripts/ytmusic_helper.py:116-162 | and share a text exactly when they are the same bucket |
| PlayedAt.SamePhraseSameUnit | scripts/ytmusic_helper.py:174-246 | a phrase read at two instants of the same unit resolves identically |
| PlayedAt.PhraseMeansItsUnit | scripts/ytmusic_helper.py:174-246 | every phrase resolves exactly when its count fits a timedelta and the unit it names has a bucket, answers None exactly in the stated cases and otherwise raises; what resolves is that unit, with the representative inside it |
| PlayedAt.PhraseMidpoint | scripts/ytmusic_helper.py:116-216 | the representative of every phrase: the minute or hour itself, noon of the day, of the Wednesday of the week, of the 15th of the month, of 2 July; and comparable exactly for minutes and hours |
| PlayedAt.HugeCountsRaise | scripts/ytmusic_helper.py:217-246 | a count whose weeks overflow a timedelta raises for every unit, months included |
| PlayedAt.EndDaysRaise | scripts/ytmusic_helper.py:174-216 | `yesterday` raises exactly on the first day of the calendar, `today` exactly on the last |
| PlayedAt.EndMonthRaises | scripts/ytmusic_helper.py:174-216 | `this month` raises exactly in the last month of the calendar |

## Left out

- `valid_from` in the consolidation tables: every row there has started.
- PostgreSQL itself, row-level security, advisory locks, `pg` and zod: replaced by atomic steps, arbitrary locked rows and typed inputs.
- The manual revision path, the search and ranking code, import and export, dashboard, connectors, audit reading and HTTP: plumbing, or easier repeats.
- The runtime's read-only snapshot and the reset its tests use: no step of the protocol.
- Audit rows: appended beside every step, read by none of the modelled code.
- The canonical's merged tags and content: an input of the consolidation request; the fingerprints do not cover tags.
- The floating-point budgets of the consolidation run and of entity enrichment: the integer budget is the exact one.
- The entity enrichment queue: content is loaded and links are replaced in two transactions, and the code that decides freshness between them is not part of this model.
- Expiry between the statements of a consolidation: an abort of the whole step.
- Hard deletion of memory rows outside the re-keying: `ON DELETE RESTRICT` keeps superseded rows.
- The finalizer's index builds and constraint validation: the model takes its preflight as the condition for acceptance and the constraints as checks on every later write.
- Duplicate or blank ids in a re-key manifest: approvals are a map from id to approval.
- The string forms of fuzzy phrases and absolute timestamps: phrases are a datatype, and their spelling is not part of this model.
- The contents of session files and of extracted memories: timestamps decide the window, an arbitrary list of memories is the answer.
- AutomaticRevision.Memories.CommitAutomaticRevision: does not model the audit row and the embedding columns of the inserted row.
- Reembedding.Maintenance.Reembed: counts by namespace are multisets, and a failing batch request is folded into the answer each row finally gets.
- Migrations.Database.RunMigrations: the missing-table case is an empty ledger, and lock, authority and grant preflights are one condition.
