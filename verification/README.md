# A verified model of the Zaaheen vault

The vault keeps memories in SQLite rows, their embeddings in a vector store, a keyword index in
memory and a knowledge graph beside them. A nightly sleep cycle merges, retires, fades and archives
memories; keepers, maintenance runs and exclusive takers contend for the vault; the owner can edit,
delete, restore and export. This project models those parts in Dafny and proves what they keep true.

The model follows the program's own shape. What the program changes in place is a class with fields
(`StorageBackend`, `Consolidator`, `GraphStore`, `Enricher`, `SafetyWrapper`, `HeadlessSchedule`,
`VaultAdapter`, `StoredCheckpoint`, `MaintenanceFile`) whose methods loop as the program does, each proved equal to a
specification function; the laws are lemmas about those functions. What several processes do at once
is a transition system with an inductive invariant (`Ownership`, `Watermark`). Text functions are
functions. Clocks, fresh ids, the language model, embeddings, searches and every call that can fail
are inputs, so a theorem holds for every answer and every pattern of failures.

- `VaultCore`, `SortedIds`, `Storage`, `EmbedText`: rows, the filters every listing uses, the storage
  primitives, and which text a row's vector stands for.
- `UnionFind`, `Clusters`, `NearIdentical`, `MergePhase`, `ClusterPass`, `MergeLaws`, `Conservation`,
  `Contradiction`, `Candidates`, `ColdPass`, `Checkpoint`, `PrimaryKeys`, `SleepCycle`, `Supersession`,
  `RunLaws`, `RunCounts`, `Attribution`: the sleep cycle, phase by phase, then whole runs and their reports.
- `Graph`, `Enrichment`, `EnrichmentLaws`, `EnrichCounts`, `Fingerprints`: alias lines, how a reworded fact is
  noticed, and the graph kept in step with the facts.
- `History`, `ReturnExample`: any number of runs, enrichment passes and saves, and a rollback between.
- `Coverage`, `SafeRun`, `Watermark`, `Retries`, `Rfc3339`: what a completed run has examined, when the
  mark moves, which facts an incremental run can miss, what a skip means for the next run, and the
  timestamp comparison all of it rests on.
- `Ownership`, `OwnershipLaws`, `Turns`, `HandOver`, `KeeperExit`, `Records`: the lock, the intent, the
  discovery record and its heartbeats.
- `Adapter`, `Changes`, `AdapterLaws`: saves, edits, deletes, restores and erasures, the keyword index, vectors,
  links and the hourly limit on apps.
- `Chars`, `Decimals`, `Utf8`, `Export`, `ExportLaws`, `ExportMarks`, `ExportLimits`, `Normalization`,
  `NormalizationLaws`, `Sayings`, `Release`, `Schedule`: the text and timing functions.

What the program computes is said twice: by a specification function, which the method that does it is proved
to equal, and by lemmas on the fields, characters and bytes themselves (`Conservation`, `Attribution`,
`Changes`, `ExportMarks`, `Sayings`, `Fingerprints`, `Records`, `Turns`), so that the specification is not its
own only witness.

## Where the code and its own description differ

The model follows the code. For each point there is a lemma that says exactly when the description
holds, or an input on which it does not.

- Normalisation is described as idempotent (`crates/vault-app/src/normalization.rs:66-70`); it is so
  exactly on the inputs of `OnceIsEnoughIff`.
- A contradiction inside a cluster is settled in favour of whatever id the model names; if that is no
  member, every member is retired (`ContradictionKeepsAFactIff`).
- Applying a merge is several transactions, so a failure can leave the merged row beside members that
  are still current (`MergeCluster`), and members already pointed at it uncounted (`CountersMissExactlyHalfMerges`).
- The guard against retiring a whole boundary can never fire in Phase 2b (`StaleLeavesNewest`).
- "No lost work" for incremental runs does not cover a save stamped just before a run and committed
  after its boundary was listed, nor an edit or a restore, which keep `created_at` (`EntryLostIff`,
  `EntryBetweenRuns`, `AdvanceLosesExactly`, `LostUntilFullSweep`, `RestoredFactIsLost`).
- "Next cycle retries" does not hold of a skipped cluster or a failed judgement once the mark has moved
  past its facts (`SkippedClusterRetriedIff`, `FailedPairRetriedIff`).
- "A new fact still surfaces an old same-subject neighbour" ends where retired facts' vectors take up the
  search's places (`RetiredVectorsCrowdOut`).
- The stored vector of an enriched fact is described as recoverable from its row; an edit that keeps
  the wording, or a restore, breaks that for good (`SameWordingParts`, `PartedStaysParted`).
- Facts brought back by a rollback do not get back the graph links an enrichment pass ended meanwhile
  (`ReturningFactRelinkedIff`).
- Merged facts are not in the keyword index until the next start when the run is in the same process
  (`RunKeepsAgreementIff`).
- An edit clears the archive marker and may move a memory to another boundary, leaving a link across
  boundaries (`EditThenRestore`, `EditKeepsForestIff`).
- A restore brings a memory back with the link it had, which may by then lead nowhere, across boundaries
  or round in a circle (`RestoreKeepsForestIff`, `DeletedHeirBreaksRestore`, `RestoreCanCloseACycle`).
- "Any failure from here on is published" in the keeper misses one exit, and failures it cannot write;
  and a keeper that has no key in lock mode may be unable to take its record away (`StartingLeftBehindIff`).
- A probe of the intent that fails reads as "not held"; the hand-over to a taker rests on the second
  probe of each process that comes late, and on no other (`HandOverFailsIff`).
- The export's escape splits at line feeds only and catches underlines from three marks on
  (`ReturnsForgeIff`, `UnderlineCaughtIff`; sections 2.1 and 4.3 of the CommonMark specification).
- A catch-up is due again as soon as a busy, paused or failed run is recorded after a success
  (`DueRuleHoldsIff`, `BusyHidesSuccess`).
- What the owner restores or erases is taken out of the hourly count of app changes, so apps may make as
  many more (`AppsStayWithinLimit`, `EmptyingAllowsThirtyMore`).

## Model

| member | source | states |
|---|---|---|
| Supersession.ForestIffChainsEnd | crates/vault-consolidator/src/consolidator.rs:333-544 | links form a forest exactly when every row's chain of supersessions ends, inside the vault and its boundary, at a row nothing supersedes |
| Supersession.ForestIsAcyclic | crates/vault-consolidator/src/consolidator.rs:333-544 | a chain of supersessions never visits a row twice |
| Supersession.SupersedeKeepsForest | crates/vault-storage/src/cascading.rs:582-625 | pointing a row at a current row of its boundary keeps the forest, although the primitive itself checks nothing |
| Supersession.DeleteKeepsForestIff | crates/vault-storage/src/cascading.rs:423-480 | a delete keeps the forest exactly when nothing else points at the row |
| Supersession.ReplaceKeepsForestIff | crates/vault-storage/src/recently_deleted.rs:339-348 | putting one row in another's place, or where there was none, keeps the forest exactly when its link leads to a chain in its boundary that does not come back to it, and it is in the boundary it was in or nothing is superseded by it |
| UnionFind.RootsAreComponents | crates/vault-consolidator/src/phases/cluster.rs:379-434 | two nodes have the same root exactly when a chain of edges joins them |
| UnionFind.Unite | crates/vault-consolidator/src/phases/cluster.rs:379-434 | after uniting every edge, with path compression on the way, the parents describe the graph's components |
| Clusters.FindCandidateClusters | crates/vault-consolidator/src/phases/cluster.rs:164-329 | the loop over seeds, edges, union-find and buckets returns exactly the components of two or more; a threshold out of range, a failed listing or a failed search is its error |
| Clusters.ClustersAreComponents | crates/vault-consolidator/src/phases/cluster.rs:164-329 | clusters are disjoint groups of two or more active facts of the boundary, and two facts share one exactly when near-enough pairs proposed by examined seeds join them |
| MergePhase.PickSurvivor | crates/vault-consolidator/src/phases/dedup.rs:277-285 | the in-order scan returns the index of a member that no other precedes: by becoming true later, then by being created later, then by more bytes of text, confidence, uses, and the lower id |
| MergePhase.SurvivorByFields | crates/vault-consolidator/src/phases/dedup.rs:287-311 | so does the specification: the survivor became true last, ties settled in that order |
| MergePhase.SurvivorIgnoresOrder | crates/vault-consolidator/src/phases/dedup.rs:270-285 | the same member survives in whatever order the members are listed |
| Conservation.DedupConserves | crates/vault-consolidator/src/phases/dedup.rs:254-274 | collapsing a cluster keeps the sum of the access counts of the facts in use |
| Conservation.DedupLeaves | crates/vault-storage/src/cascading.rs:768-853 | the survivor is as sure as the surest member and used as often as all together, the others point at it, and all else is as it was |
| ClusterPass.CheckPairs | crates/vault-consolidator/src/phases/dedup.rs:219-252 | the over-merge guard passes exactly when every pair of members, not only neighbouring ones, clears all three axes: cosine, word containment and word order |
| NearIdentical.GateIsSymmetric | crates/vault-consolidator/src/phases/dedup.rs:166-194 | which of two texts is listed first does not matter to the gate |
| NearIdentical.SameWordsPassIff | crates/vault-consolidator/src/phases/dedup.rs:166-194 | of texts with the same words and near vectors, the gate lets through exactly those in the same order |
| NearIdentical.GateIff | crates/vault-consolidator/src/phases/dedup.rs:166-252 | two texts pass exactly at cosine 0.93 or nearer, with four fifths of the words of the one with fewer in the other, and not the same words in another order |
| NearIdentical.WordsAreRuns | crates/vault-consolidator/src/phases/dedup.rs:136-146 | the words of a text are its runs of letters and digits, lower-cased, in order |
| MergePhase.ReorderingIsJudged | crates/vault-consolidator/src/phases/dedup.rs:219-252 | a cluster with two members that say the same words in another order is never collapsed unjudged |
| ClusterPass.TryDedupCluster | crates/vault-consolidator/src/consolidator.rs:1081-1113 | a cluster collapses, falls through or fails, and the vault changes only when it collapses |
| ClusterPass.MergeCluster | crates/vault-consolidator/src/phases/merge.rs:314-409 | the merged row is committed before its members are pointed at it one by one; the first failure stops and leaves what was done |
| Conservation.MergedRowIs | crates/vault-consolidator/src/phases/merge.rs:314-409 | the merged row says what the model wrote, in the members' boundary, true from now on, as sure as the surest and used as often as all together |
| Conservation.MergeLeaves | crates/vault-consolidator/src/phases/merge.rs:314-409 | a merge that goes through adds that row and its vector, points every member at it, and changes nothing else |
| Conservation.MergeConserves | crates/vault-consolidator/src/phases/merge.rs:314-409 | and keeps the sum of the access counts of the facts in use |
| ClusterPass.DispatchClusters | crates/vault-consolidator/src/consolidator.rs:380-542 | the cluster loop ends in the vault and the counters that the step-by-step specification gives, failures counted and skipped |
| Storage.StorageBackend.ApplyDedup | crates/vault-storage/src/cascading.rs:768-853 | one transaction: every loser points at the survivor and the survivor takes the aggregates, or nothing changes |
| MergeLaws.InvalidateAllExact | crates/vault-consolidator/src/consolidator.rs:500-525 | exactly the rows that can be ended are, nothing else changes, and the count is theirs |
| MergeLaws.PlanCoversCluster | crates/vault-consolidator/src/phases/dedup.rs:254-267 | a dedup plan names one member as survivor and each other member once as a loser |
| MergeLaws.DispatchLaw | crates/vault-consolidator/src/consolidator.rs:380-542 | one cluster, whatever is answered and whatever fails: links stay a forest, rows only age, only its own members are touched |
| MergeLaws.DispatchAllLaw | crates/vault-consolidator/src/consolidator.rs:380-542 | a whole boundary's clusters keep what one keeps, because no two share a member |
| MergeLaws.ContradictionKeepsAFactIff | crates/vault-consolidator/src/consolidator.rs:458-503 | a contradiction settled inside a cluster leaves the cluster a current fact exactly when the winner the model named is one of its members; nothing checks that it is |
| MergeLaws.CountersMissExactlyHalfMerges | crates/vault-consolidator/src/consolidator.rs:424-456 | a cluster's counters fall short of what it superseded exactly when the decision is to merge, the merged row is committed, the first mark succeeds and a later one fails |
| Contradiction.IncrementalRefinesFull | crates/vault-consolidator/src/consolidator.rs:615-680 | with each its own search: which pairs an incremental run asks about, which of the full sweep's it leaves out, and exactly when all of its own are among the sweep's |
| Contradiction.IncrementalEqualsFull | crates/vault-consolidator/src/consolidator.rs:615-680 | when the searches agree, they are all of them when every fact is a seed; with mutual nearness only pairs of two unchanged facts are left out |
| Candidates.FoundIff | crates/vault-consolidator/src/phases/candidates.rs:113-190 | which of its neighbours each search finds: the sweep counts the active facts nearer, the store the retired ones too |
| Candidates.RetiredVectorsCrowdOut | crates/vault-consolidator/src/phases/candidates.rs:143-190 | an old fact the sweep would pair with a new one is missed by an incremental run exactly when enough retired facts' vectors are nearer |
| Candidates.ThreeRetiredCrowdOut | crates/vault-consolidator/src/phases/candidates.rs:143-190 | three are enough |
| Candidates.StorePairsWithinSweep | crates/vault-consolidator/src/consolidator.rs:615-680 | every pair an incremental run asks about is one the full sweep would |
| Contradiction.GatherPairs | crates/vault-consolidator/src/consolidator.rs:639-667 | the loop yields each unordered pair once, in order, both ends active, and ends the run when an embedding or search fails |
| Contradiction.JudgeCandidatePairs | crates/vault-consolidator/src/phases/contradiction.rs:366-427 | an id is flagged, once, exactly when a judged pair is answered as a contradiction about a named attribute and the id is its side that became true earlier; a failed judgement skips one pair |
| Contradiction.NewestNeverStale | crates/vault-consolidator/src/phases/contradiction.rs:339-365 | a fact that no candidate is newer than is never flagged |
| Contradiction.ResolveStaleIds | crates/vault-consolidator/src/consolidator.rs:87-104 | the verdict's ids in the group, each once, in order of first occurrence; refused exactly when they cover the group |
| Contradiction.StaleLeavesNewest | crates/vault-consolidator/src/consolidator.rs:706-728 | only the boundary's active facts are flagged and never its newest, so the refusal cannot come up in Phase 2b |
| Contradiction.RetireContradictions | crates/vault-consolidator/src/consolidator.rs:600-765 | the boundary's turn ends in an error exactly when a call it cannot skip fails, and otherwise retires exactly the flagged facts that can be retired and counts them; a fact that no answer contradicts is as it was |
| Contradiction.RetiredIff | crates/vault-consolidator/src/consolidator.rs:600-765 | a fact's validity ends exactly when the model was asked about it and a fact true later, said that they contradict each other and about what, and the write goes through |
| Contradiction.RetirementLaw | crates/vault-consolidator/src/consolidator.rs:600-765 | nothing but flagged facts is touched, the boundary's newest facts stay current, and the active count drops by exactly the counter |
| ColdPass.DecayMemories | crates/vault-consolidator/src/consolidator.rs:943-1003 | exactly the due facts whose write succeeds are faded and counted |
| ColdPass.ArchiveMemories | crates/vault-consolidator/src/consolidator.rs:1020-1063 | exactly the due facts whose write succeeds are archived and counted |
| ColdPass.FadedIff | crates/vault-consolidator/src/phases/decay.rs:78-116 | a fact loses a tenth of its confidence exactly when it is in use, still true, untouched for the period, not faded within it, and the step is noticeable; no other changes |
| ColdPass.ShelvedIff | crates/vault-consolidator/src/phases/archive.rs:64-94 | a fact is archived exactly when it is in use, still true and untouched for the period |
| ColdPass.DecayConvergesIff | crates/vault-consolidator/src/phases/decay.rs:78-116 | a second decay pass straight after finds nothing exactly when the period is positive or nothing is left worth fading |
| ColdPass.DecayOncePerPeriod | crates/vault-consolidator/src/phases/decay.rs:78-116 | a fact is not faded twice within a period |
| ColdPass.ArchiveConverges | crates/vault-consolidator/src/phases/archive.rs:64-94 | after an archive pass a second one would move exactly what failed to move |
| EmbedText.ExtendsKeepsFidelity | crates/vault-consolidator/src/phases/enrich.rs:181-204 | the sleep cycle cannot part a vector from what its row says it is |
| Fingerprints.OneByteShows | crates/vault-consolidator/src/phases/enrich.rs:160-167 | texts that differ in one byte never have the same fingerprint |
| Fingerprints.RewordedIsNotEnriched | crates/vault-consolidator/src/phases/enrich.rs:169-179 | an enriched fact reworded by one byte no longer counts as enriched |
| Fingerprints.KnownValues | crates/vault-consolidator/src/phases/enrich.rs:160-167 | the hash is the published 64-bit one on two texts |
| Checkpoint.DiffToEntries | crates/vault-consolidator/src/checkpoint.rs:50-99 | in whatever order the maps are read: one entry for each changed row and none for any other, with its pre-image |
| Checkpoint.EntriesTell | crates/vault-consolidator/src/checkpoint.rs:50-99 | each entry is the row as it was and the text its vector stood for, or the id and boundary of a row the run added |
| Checkpoint.CaptureCheckpoint | crates/vault-consolidator/src/consolidator.rs:889-925 | an undo log is stored only for a changed vault; the capture fails exactly when the listing, a pre-image's embedding or the insert it needs does |
| Checkpoint.CaptureIsEmptyIff | crates/vault-consolidator/src/checkpoint.rs:50-99 | the log is empty exactly when nothing changed, and has as many entries as rows changed |
| Checkpoint.ApplyUndo | crates/vault-storage/src/checkpoint.rs:489-510 | entries are undone in any order, up to the first that fails |
| Checkpoint.StoredCheckpoint.RollBack | crates/vault-storage/src/checkpoint.rs:427-531 | a checkpoint is rolled back at most once; a rollback that fails stops at the first entry that failed and leaves it active |
| Checkpoint.UndoRestoresRows | crates/vault-consolidator/src/consolidator.rs:889-925 | undoing brings back the rows of before exactly when none of them was hard-deleted |
| Checkpoint.UndoRoundTrip | crates/vault-consolidator/src/consolidator.rs:889-925 | after a run, undoing restores every row, and the vector of a modified row exactly when it was what its row said |
| Checkpoint.UndoCanBeRepeated | crates/vault-storage/src/checkpoint.rs:489-510 | a rollback that stopped half-way can be run again and ends where an uninterrupted one would |
| SleepCycle.Consolidator.MergePass | crates/vault-consolidator/src/consolidator.rs:331-544 | Phases 1 to 3 over the boundaries in order, and the number of memories processed |
| SleepCycle.Consolidator.RetirePass | crates/vault-consolidator/src/consolidator.rs:586-765 | Phase 2b over the boundaries of the facts still active |
| SleepCycle.Consolidator.RunConsolidation | crates/vault-consolidator/src/consolidator.rs:302-872 | a run leaves the vault and the report the specification gives and an undo log of exactly what it changed, or none exactly when nothing changed or a call the capture needs failed; an error leaves what was done with no log |
| RunLaws.RunFailsWhen | crates/vault-consolidator/src/consolidator.rs:300-380 | a failed listing ends the run in an error, and so does a threshold out of range when there is anything to merge |
| RunLaws.FadedThenShelved | crates/vault-consolidator/src/consolidator.rs:766-845 | a fact due for both leaves the run faded and in the archive |
| RunLaws.RetirementKeepsEveryBoundaryAlive | crates/vault-consolidator/src/consolidator.rs:586-765 | after Phase 2b, completed or cut short, every boundary that had a current fact still has its newest |
| RunLaws.RunLaw | crates/vault-consolidator/src/consolidator.rs:302-872 | a run, however it ends, keeps the forest, only ages rows, keeps their vectors, and gives each new row the vector of its content |
| RunLaws.RunUndo | crates/vault-consolidator/src/consolidator.rs:302-872 | a run's undo log applies to the vault the run left and brings back the rows it found |
| History.NoMemoryIsLost | crates/vault-app/src/application.rs:1174-1187 | over any number of runs, enrichment passes and saves a memory stays, says the same, keeps its link once set, and its chain ends without repeating at an unsuperseded row of its boundary |
| History.HistoryKeepsFidelity | crates/vault-app/src/application.rs:1174-1187 | no number of runs, enrichment passes and saves parts a vector from its row |
| RunCounts.ReportAccounts | crates/vault-consolidator/src/consolidator.rs:792-872 | the report's counts are what changed in the vault: faded, archived, ended and superseded; the last falls short exactly when some merge of the run broke off between its first mark and its last |
| Attribution.ReportAttributes | crates/vault-consolidator/src/consolidator.rs:766-880 | the facts superseded by facts the run found are as many as were deduplicated; those superseded by facts it wrote are as many as were merged, or more exactly when a merge stopped half-way |
| Attribution.ClusterTally | crates/vault-consolidator/src/consolidator.rs:380-542 | each cluster adds to the one counter that says what became of it |
| Attribution.ReportAddsUp | crates/vault-consolidator/src/consolidator.rs:845-880 | the report adds up the boundaries' counters, each into its own figure |
| Coverage.CompletedRunExamines | crates/vault-consolidator/src/consolidator.rs:331-765 | a run that ends without an error has searched for every active fact of its scope, put it in one cluster with every active fact that search reached, and compared it again in Phase 2b if it was still active |
| SafeRun.SafetyWrapper.RunUnderSafety | crates/vault-app/src/application.rs:1120-1232 | sleep cycle and enrichment under the lock: the mark moves to the run's start exactly when every stage completes and the write does, and then every active fact not behind the mark it read has been examined; a failed read widens to a full sweep; a held lock refuses |
| SafeRun.HeadlessSchedule.Night | crates/vault-consolidator/src/consolidator.rs:1415-1482 | the same without lock, timeout and reports: the mark moves whenever the run completes, and what it moves past was examined |
| SafeRun.ScopeIsSeeds | crates/vault-consolidator/src/phases/cluster.rs:180-195 | what the interleaved history takes a listing to find is what the run seeds the boundary with |
| Watermark.CoverageIsExact | crates/vault-app/src/application.rs:1137-1232 | in every history of saves, edits, deletes, restores, runs and crashes, a fact behind the mark was in the scope of a successful run since it came in with its present wording, or is lost; never both |
| Watermark.NothingIsMissed | crates/vault-app/src/application.rs:1137-1232 | when nothing is saved, reworded or put back behind the mark or behind a listing already made, everything behind the mark was in scope of a successful run |
| Watermark.AdvanceLosesExactly | crates/vault-consolidator/src/phases/cluster.rs:180-195 | a successful run loses exactly what was stamped before it started and was saved, reworded or put back after its boundary was listed, or is still to commit |
| Watermark.EntryLostIff | crates/vault-consolidator/src/phases/cluster.rs:180-195 | what is saved, reworded or put back during a run and is older than it is lost exactly when its boundary had been listed, or it is older than the run looks, and covered otherwise |
| Watermark.EntryBetweenRuns | crates/vault-consolidator/src/phases/cluster.rs:180-195 | what comes in between runs is lost at once exactly when it is behind the mark |
| Watermark.RestoredFactIsLost | crates/vault-storage/src/recently_deleted.rs:300-372 | saved, deleted, and put back after a run moved the mark past it: a fact is lost though nothing was reworded and no save straddled a run |
| Watermark.LostUntilFullSweep | crates/vault-consolidator/src/consolidator.rs:615-634 | a lost fact stays lost through any number of incremental runs, edits, saves, restores and crashes |
| Watermark.FullSweepFindsTheLost | crates/vault-app/src/application.rs:1137-1151 | a full sweep that succeeds covers every lost fact that was there when it started and was left alone |
| Watermark.StraddlingSaveIsLost | crates/vault-app/src/adapter.rs:313-337 | a save stamped just before a run's start and committed once the boundaries were listed is lost |
| Retries.SkippedClusterRetriedIff | crates/vault-consolidator/src/consolidator.rs:380-420 | a member of a skipped cluster is clustered again by the next run exactly when the mark did not move past it and its search still finds an active fact, or another seed's search finds it |
| Retries.FailedPairRetriedIff | crates/vault-consolidator/src/phases/contradiction.rs:366-390 | a pair whose judgement failed is asked about again exactly when one of the two is still a seed and finds the other |
| Retries.SkippedAndForgotten | crates/vault-consolidator/src/consolidator.rs:380-420 | two near facts skipped by a run that succeeds: the next run neither clusters nor compares them |
| Rfc3339.TextOrderIsTimeOrder | crates/vault-storage/src/metadata_store.rs:860-867 | the stored timestamp texts compare as the instants do, although their fractions vary in length |
| Graph.GraphStore.RetireRelationships | crates/vault-storage/src/graph_store.rs:1072-1094 | exactly the fact's live relationships end, and their number is returned |
| Graph.GraphStore.RegisterAll | crates/vault-consolidator/src/phases/extract.rs:280-302 | entities are reused or created in order, up to the first that fails |
| Graph.GraphStore.CreateRelationships | crates/vault-consolidator/src/phases/extract.rs:304-341 | a link that fails is counted and skipped; created and failed add up |
| Graph.LinksPointAsNamed | crates/vault-consolidator/src/phases/extract.rs:304-341 | a row is written exactly for each link whose names are known and whose write goes through, from the one entity to the other with its relation |
| Graph.LinkRowsAreMeant | crates/vault-consolidator/src/phases/extract.rs:304-341 | the rows written are live links of their fact alone, and all those meant when no write fails |
| Graph.RetireEmpties | crates/vault-storage/src/graph_store.rs:1072-1094 | retiring a fact leaves it no live link and every other fact's as they were |
| Enrichment.Enricher.EnrichFacts | crates/vault-consolidator/src/consolidator.rs:1220-1393 | the pass ends in the rows, vectors, graph and counts of the specification; only the first enumeration can make it fail |
| EnrichmentLaws.GraphPartLinks | crates/vault-consolidator/src/consolidator.rs:1245-1300 | writing one fact's extraction gives it exactly these links and changes no other fact's |
| EnrichmentLaws.LatestIff | crates/vault-consolidator/src/consolidator.rs:1252-1272 | a re-enriched fact's live links are its latest extraction exactly when its prior ones were ended, or there were none |
| EnrichmentLaws.PassLaw | crates/vault-consolidator/src/consolidator.rs:1220-1393 | enriched, skipped and failed add up to the active facts; each is settled; inactive facts lose their links unless that fails; a deleted row's links stay for good |
| EnrichCounts.RefreshedIs | crates/vault-consolidator/src/consolidator.rs:1220-1300 | which active facts are enriched, and with what: the alias line and fingerprint in the metadata, and the vector of the wording followed by the line |
| EnrichCounts.EnrichReportAccounts | crates/vault-consolidator/src/consolidator.rs:1196-1393 | the report accounts for the pass: facts rewritten, skipped and failed, links written and ended, entities new |
| EnrichCounts.GraphPartAccounts | crates/vault-consolidator/src/phases/extract.rs:260-341 | one extraction: all its entities and links are counted once each, or it stops at an entity and counts as that |
| EnrichmentLaws.GraphFollowsActiveFacts | crates/vault-consolidator/src/consolidator.rs:1220-1393 | with nothing failing, live links of stored facts belong to active ones, and an enriched fact has those of its latest extraction |
| EnrichmentLaws.SecondPassDoesNothing | crates/vault-consolidator/src/consolidator.rs:1196-1203 | after a pass with no failed fact or reconciliation, the next on an unchanged vault enriches, creates and retires nothing |
| EnrichmentLaws.PassKeepsFidelityAndForest | crates/vault-consolidator/src/phases/enrich.rs:304-325 | a pass keeps vectors what their rows say and links a forest |
| History.ReturningFactRelinkedIff | crates/vault-consolidator/src/consolidator.rs:1245-1272 | run, pass, rollback, pass: an enriched fact the run took out of use and the rollback brings back has its old links exactly when its reconciliation failed or was never reached, or it had none |
| ReturnExample.ReturnsWithoutItsLink | crates/vault-consolidator/src/consolidator.rs:1245-1272 | a vault on which it comes back without its link |
| OwnershipLaws.OneOwner | crates/vault-cli/src/keeper.rs:105-128 | at most one process has the vault open, it holds the lock, and none has while a taker or eraser holds it |
| Turns.SeenIntentTurnsBack | crates/vault-cli/src/keeper.rs:105-128 | whoever sees another's intent turns back, with the lock given back; whoever sees none goes on |
| Turns.HeldLockTurnsBack | crates/vault-cli/src/keeper.rs:110-116 | a keeper or run that finds the vault held leaves; one that takes it over waits |
| Turns.KeeperGetsServing | crates/vault-cli/src/keeper.rs:105-257 | left alone, a keeper gets from its start to serving |
| Turns.KeeperGetsDone | crates/vault-cli/src/keeper.rs:257-330 | and one that serves leaves with no record and the lock free |
| Turns.RunGetsGoing | crates/vault-cli/src/main.rs:1117-1146 | left alone, a run that finds the vault free opens it with its record on disk |
| Turns.RunGetsDone | crates/vault-cli/src/main.rs:1243-1316 | left alone, a run that has the vault open ends with no record and the lock free |
| Turns.TakerGetsGoing | crates/vault-cli/src/main.rs:1117-1132 | left alone, a run that takes the vault over gets it, and publishes before it gives up its intent |
| Turns.EraserGetsDone | crates/vault-app/src/erasure.rs:179-230 | left alone, an eraser erases and leaves no record, lock or intent |
| HandOver.HandOverIsSafe | crates/vault-cli/src/main.rs:1117-1146 | while a process holds the intent, a keeper or run that takes the lock afterwards does not open the vault, unless its own probe after the lock was misread |
| HandOver.HandOverFailsIff | crates/vault-cli/src/keeper.rs:117-128 | in every interleaving, a process gets past its second check under an intent it was late for if and only if it misread that check |
| HandOver.MisreadProbeOpensLate | crates/vault-app/src/keeper/intent.rs:68-95 | with a misread probe one does |
| OwnershipLaws.RecordFollowsTheLock | crates/vault-cli/src/main.rs:1299-1316 | only the lock holder's steps change the record on disk, and a removal never removes another's |
| Records.RecordTellsTheTruth | crates/vault-cli/src/keeper.rs:130-257 | in every interleaving, a record on disk was written by the process it names with the step its kind stands for: serving by a keeper that began to serve, failed by one that failed |
| Records.RunRecordIff | crates/vault-cli/src/main.rs:1243-1316 | a run's record is on disk exactly when a write of it went through, until it ends it; after that exactly when it could not be read back or removed |
| KeeperExit.KeeperRecordIff | crates/vault-cli/src/keeper.rs:130-257 | a keeper's record on disk is exactly what it last wrote and did not take away |
| OwnershipLaws.RecordMeansBusy | crates/vault-cli/src/main.rs:1243-1316 | a maintenance record on disk means its writer still holds the vault, unless it died, or could not read it back or remove it |
| OwnershipLaws.NoHeartbeatOutlivesItsRecord | crates/vault-cli/src/main.rs:1251-1316 | after a build is over, or a run began to end its record, no heartbeat of it puts a record back |
| KeeperExit.LeavingWithoutHomeLeavesStarting | crates/vault-cli/src/keeper.rs:139-155 | a keeper that cannot find its account folder leaves a starting record behind |
| KeeperExit.LeavingLockedLeavesStarting | crates/vault-cli/src/keeper.rs:352-356 | so does one without a key in lock mode when the record cannot be taken away |
| KeeperExit.StartingLeftBehindIff | crates/vault-cli/src/keeper.rs:130-155 | in every interleaving, which record a keeper that leaves without dying leaves: a failed one exactly when it wrote that; its starting one exactly when it wrote it and could not find its account folder, write its failure over it, or take it away in lock mode; its serving one exactly when it could not take it away or write its failure over it |
| Export.ToMarkdown | crates/vault-app/src/export.rs:51-103 | the text pushed piece by piece is exactly the document's lines |
| ExportMarks.EscapesExactly | crates/vault-app/src/export.rs:138-197 | a line that after its white space begins with #, > or three of one fence mark, or is a rule, is written with a backslash there, and every other line as it is |
| ExportMarks.OpensIff | crates/vault-app/src/export.rs:155-197 | the program's test of a line is that one, on characters |
| Export.OrderIsUnique | crates/vault-app/src/export.rs:83-92 | distinct memories have one order by age |
| ExportMarks.OnlyHeadingsOpen | crates/vault-app/src/export.rs:51-103 | for any texts, the lines of the file that begin so are the title and one heading per topic, topics in character order |
| Chars.PrecedesIff | crates/vault-app/src/export.rs:74-82 | the order of topics: the first character in which they differ decides, and a beginning comes first |
| ExportMarks.LinesAreTheText | crates/vault-app/src/export.rs:138-153 | a text is its lines, each with the line end it had |
| ExportMarks.MemoryIsWritten | crates/vault-app/src/export.rs:93-100 | a memory is a blank line, its lines as escaped, and the day it was saved |
| ExportMarks.IntroIsWritten | crates/vault-app/src/export.rs:51-72 | the file begins with its title, the day and the number of memories |
| ExportLaws.FileIsItsLines | crates/vault-app/src/export.rs:51-103 | read back line by line the file is the lines written |
| ExportLaws.ExportIsCanonical | crates/vault-app/src/export.rs:74-100 | any rearrangement of distinct memories gives the same file |
| ExportLaws.EachPrintedOnce | crates/vault-app/src/export.rs:74-100 | the file is its introduction and a run of headings and memories, each memory in it as often as in the input, under its own topic's heading, oldest first |
| ExportLimits.ReturnsForgeIff | crates/vault-app/src/export.rs:138-153 | where a lone carriage return ends a line too, structure holds exactly when no line of a memory has a structural piece that has text before it, or that is in a line not structural as a whole |
| ExportLimits.ReturnForges | crates/vault-app/src/export.rs:138-153 | such a memory exists: a mark after a return |
| ExportLimits.RuleBeforeReturnForges | crates/vault-app/src/export.rs:138-153 | and another: a rule before one |
| ExportLimits.UnderlineCaughtIff | crates/vault-app/src/export.rs:183-197 | a line of underline marks is caught exactly from three marks on |
| Utf8.StripPrefixIsRight | crates/vault-app/src/normalization.rs:207-217 | the byte test succeeds exactly when the leading characters match ignoring ASCII case, and the rest is the encoding of the rest |
| Utf8.BoundaryIffWholeChars | crates/vault-app/src/normalization.rs:207-217 | a byte offset is a character boundary exactly when whole characters lie before it |
| Utf8.LowerIff | crates/vault-app/src/normalization.rs:207-217 | ignoring case means A to Z in either form, and nothing else |
| Utf8.SpellsCodePoint | crates/vault-app/src/normalization.rs:207-217 | the bytes of a character spell its code point, in the fewest bytes there are for it |
| NormalizationLaws.ShapeAlwaysCanonical | crates/vault-app/src/normalization.rs:71-90 | every accepted text is saved non-empty and ending in a full stop, exclamation or question mark; only white space is refused |
| Sayings.WishIsSaved | crates/vault-app/src/normalization.rs:145-170 | "I prefer ..." is saved as "The user prefers ...", and so for each of the seven verbs: the verb is the one read, the rest untouched up to the final mark |
| Sayings.ToldIsSaved | crates/vault-app/src/normalization.rs:107-122 | "The user told me [that] ..." is saved as "The user ..." |
| Sayings.AskedIsSaved | crates/vault-app/src/normalization.rs:92-106 | "When [the user was] asked[,] ..." is saved as what follows |
| Sayings.ThoughtIsSaved | crates/vault-app/src/normalization.rs:126-143 | "I think [that] ..." is saved as what follows |
| Sayings.PlainIsSaved | crates/vault-app/src/normalization.rs:71-193 | a text that begins with none of these is saved as it is, with a capital and a final mark |
| Sayings.AskedLeaves | crates/vault-app/src/normalization.rs:92-106 | what the framing pass leaves of a text that begins so, whatever follows |
| Sayings.ToldLeaves | crates/vault-app/src/normalization.rs:107-122 | the same for what the user told |
| Sayings.ThoughtLeaves | crates/vault-app/src/normalization.rs:126-143 | what the self-reference pass leaves |
| Sayings.WishBecomes | crates/vault-app/src/normalization.rs:145-170 | what the first-person pass makes of each verb |
| NormalizationLaws.FixedIffCanonical | crates/vault-app/src/normalization.rs:71-193 | the texts returned unchanged are exactly the canonical ones |
| NormalizationLaws.OnceIsEnoughIff | crates/vault-app/src/normalization.rs:66-90 | normalising twice is normalising once exactly when the first result begins with neither white space nor anything strippable |
| NormalizationLaws.AgainShortensOrSettles | crates/vault-app/src/normalization.rs:71-193 | normalising a saved text again leaves it, shortens it, or lands on a rewritten statement, which is final |
| NormalizationLaws.RepeatingComesToRest | crates/vault-app/src/normalization.rs:71-193 | repeating always reaches a canonical text, within a bound on the first result's length |
| NormalizationLaws.DoubledFramingNeedsTwo | crates/vault-app/src/normalization.rs:126-143 | a doubled framing needs two passes |
| NormalizationLaws.ExtraSpaceNeedsTwo | crates/vault-app/src/normalization.rs:92-124 | an extra space after a stripped prefix needs two passes |
| Release.ParseRelease | crates/vault-account/src/app_version.rs:11-32 | pulling parts from the split iterator gives what the whole text's parts give |
| Release.ParsesExactlyPrintings | crates/vault-account/src/app_version.rs:11-32 | a text is read as a version exactly when it is its canonical printing with parts from 0 to 9999 |
| Release.NewerIsStrictOrder | crates/vault-account/src/app_version.rs:34-40 | newer is a strict order, total on accepted texts, false for all others |
| Release.NewerIff | crates/vault-account/src/app_version.rs:34-40 | newer means greater, the three parts read as one number |
| Adapter.VaultAdapter.Write | crates/vault-app/src/adapter.rs:313-337 | a save commits row, vector and index entry, or nothing |
| Adapter.VaultAdapter.UpdateAs | crates/vault-app/src/adapter.rs:173-237 | an edit keeps the preserved fields, drops the archive marker, re-embeds the bare wording and files the old row, or changes nothing |
| Adapter.VaultAdapter.DeleteAs | crates/vault-app/src/adapter.rs:242-246 | a delete files the row, removes it, and clears the index whether or not it was there |
| Adapter.VaultAdapter.RestoreRecentlyDeleted | crates/vault-app/src/adapter.rs:264-278 | an entry is put back over or beside what is there, or nothing changes |
| Adapter.VaultAdapter.EraseRecentlyDeleted | crates/vault-storage/src/recently_deleted.rs:377-393 | one entry goes for good and nothing else; says whether it was there |
| Adapter.VaultAdapter.EmptyRecentlyDeleted | crates/vault-storage/src/recently_deleted.rs:397-410 | every entry goes, and their number is returned |
| Adapter.VaultAdapter.PurgeRecentlyDeleted | crates/vault-storage/src/recently_deleted.rs:422-440 | exactly the entries past their thirty days go, and their number is returned |
| Changes.SaveAcceptedIff | crates/vault-app/src/adapter.rs:313-337 | a save is refused exactly for a blank text, text, confidence or times out of bounds, and failing calls |
| Changes.SaveWrites | crates/vault-app/src/adapter.rs:313-337 | what a save writes, field by field |
| Changes.EditAcceptedIff | crates/vault-app/src/adapter.rs:173-237 | an edit is refused exactly for those, for a memory that is not there, and to an app at thirty changes in the hour |
| Changes.EditWrites | crates/vault-app/src/adapter.rs:173-237 | what an edit replaces and what it keeps, field by field, and what goes to Recently deleted |
| Changes.RemoveAcceptedIff | crates/vault-storage/src/cascading.rs:423-480 | a delete is refused only to an app at its limit, and when the call fails |
| Changes.RemoveWrites | crates/vault-storage/src/cascading.rs:423-480 | a delete takes row and vector away and keeps the row, with who and when |
| Changes.RestoreAcceptedIff | crates/vault-storage/src/recently_deleted.rs:300-372 | a restore is refused exactly when the entry is gone or over thirty days old, its row is out of bounds, or a call fails |
| Changes.RestoreWrites | crates/vault-storage/src/recently_deleted.rs:300-372 | a restore puts the row back as it was, and what stood there goes to Recently deleted under the owner |
| Changes.PurgeErases | crates/vault-storage/src/recently_deleted.rs:422-440 | exactly the entries over thirty days old go |
| AdapterLaws.LoadedAgrees | crates/vault-app/src/application.rs:377-381 | the start-up load agrees with the rows |
| AdapterLaws.OpKeepsAgreement | crates/vault-app/src/adapter.rs:143-167 | every operation keeps the agreement, and leaves its memory agreeing exactly when its index call succeeds |
| AdapterLaws.IndexAlwaysAgrees | crates/vault-app/src/adapter.rs:143-167 | after any operations and failures, every id whose latest index call succeeded shows exactly its stored wording, or nothing when gone |
| AdapterLaws.RunKeepsAgreementIff | crates/vault-app/src/application.rs:1282-1324 | a run in the same process, however it ends, keeps the agreement exactly when it adds no listed row: merged facts are not indexed |
| AdapterLaws.EditFaithfulIff | crates/vault-app/src/adapter.rs:173-237 | an edit's vector is what the row says exactly when the row does not count as enriched for the new wording |
| AdapterLaws.SameWordingParts | crates/vault-app/src/adapter.rs:173-237 | saving an enriched fact with its own wording parts its vector from its row |
| AdapterLaws.RestoreFaithfulIff | crates/vault-app/src/adapter.rs:264-278 | so does restoring an enriched one |
| AdapterLaws.PartedStaysParted | crates/vault-consolidator/src/phases/enrich.rs:304-325 | no enrichment pass mends it |
| AdapterLaws.DeleteThenRestore | crates/vault-storage/src/recently_deleted.rs:300-372 | delete and restore bring back row and index entry, and the vector exactly when it was of the bare wording |
| AdapterLaws.EditThenRestore | crates/vault-storage/src/recently_deleted.rs:300-372 | restoring what an edit replaced brings the row back, archive marker included |
| AdapterLaws.EditKeepsForestIff | crates/vault-app/src/adapter.rs:173-237 | an edit that moves a memory to another boundary keeps the forest exactly when nothing links it |
| AdapterLaws.RemoveKeepsForestIff | crates/vault-app/src/adapter.rs:242-246 | a delete keeps the forest exactly when nothing is superseded by the memory |
| AdapterLaws.RestoreKeepsForestIff | crates/vault-storage/src/recently_deleted.rs:300-372 | a restore keeps the forest exactly when the link it brings back leads to a chain in its boundary that does not come back to it, and the row is in the boundary the vault has it in or nothing is superseded by it |
| AdapterLaws.DeletedHeirBreaksRestore | crates/vault-storage/src/recently_deleted.rs:346-348 | a memory restored after what superseded it was deleted has a link to nowhere, although both deletes kept the forest |
| AdapterLaws.RestoreCanCloseACycle | crates/vault-storage/src/recently_deleted.rs:339-343 | restoring a wording that was superseded by a memory since superseded by it makes a cycle |
| AdapterLaws.AppChangeCounts | crates/vault-storage/src/recently_deleted.rs:126-148 | an app's change gets through only under the hourly limit, and counts towards it |
| AdapterLaws.CountAddsUp | crates/vault-storage/src/recently_deleted.rs:126-148 | over any saves, edits, deletes, restores, erasures and purges the hour's count is what it was, plus what apps got through, less what the owner restored or erased, and stays within the limit |
| AdapterLaws.AppsStayWithinLimit | crates/vault-storage/src/recently_deleted.rs:126-148 | in the hour before any moment apps get at most thirty changes through, and one more for each of them that the owner restores or erases |
| AdapterLaws.EmptyingAllowsThirtyMore | crates/vault-storage/src/recently_deleted.rs:397-410 | thirty deletes by an app, the owner empties Recently deleted, thirty more in the same hour: sixty get through |
| AdapterLaws.RestoreUncounts | crates/vault-storage/src/recently_deleted.rs:300-372 | restoring an app's change takes it out of the count |
| Schedule.NextRunIsLeast | crates/vault-consolidator/src/scheduler.rs:29-36 | the target is the least instant at the set time strictly after now, within a day |
| Schedule.RunSchedule | crates/vault-app/src/application.rs:1282-1324 | the loop sleeps to the least target after each look at the clock and runs when it wakes, night after night until it is cancelled, awake or asleep |
| Schedule.NeverTwiceADay | crates/vault-app/src/application.rs:1282-1324 | waking no earlier than the target, no two targets fall on one date |
| Schedule.RepeatedIffTooEarly | crates/vault-consolidator/src/scheduler.rs:29-36 | a target repeats exactly when the clock read is short of it by at most a day |
| Schedule.MaintenanceFile.RecordRun | crates/vault-app/src/maintenance_state.rs:266-274 | the schedule then on disk is kept; only a completed run counts as a success; until the schedule changes, maintenance is due exactly when it is on and this was no success or is over an interval old |
| Schedule.DueIsMonotone | crates/vault-app/src/maintenance_state.rs:208-226 | once due, due at every later time |
| Schedule.CatchUpRuns | crates/vault-cli/src/main.rs:1158-1168 | a catch-up asking again goes ahead exactly when the latest record is not a success within the interval |
| Schedule.DueRuleHoldsIff | crates/vault-app/src/maintenance_state.rs:202-226 | the documented rule holds exactly when there was no recent success, on disk or recorded since, or nothing was recorded after the one on disk, or the last thing recorded is one |
| Schedule.LastOutcomeDecides | crates/vault-app/src/maintenance_state.rs:202-226 | with runs in order of time: exactly when there was none, or the last outcome is a success |
| Schedule.BusyHidesSuccess | crates/vault-app/src/maintenance_state.rs:202-226 | a success an hour ago and a busy run since: due again at once |

## Left out

- Cosine values, embeddings, model prompts and answers: inputs, as are the vector store's rankings and
  Unicode's letter table and lower-casing.
- Candidates.FoundIff: takes the sweep and the store to rank by the same nearness and a seed to be nearest
  to itself; an enriched seed's stored vector, which carries its alias line, need not be.
- Floating point: confidence is a real number; the decay factor and the smallest change written keep
  their stated values.
- Order of listings: newest first with ties by id in the program, ascending id here; which member
  survives a dedup is proved not to depend on it.
- The queue between SQLite and the vector store is taken as drained, and the sum of access counts does
  not wrap at 32 bits.
- SleepCycle.Consolidator.RunConsolidation: says nothing of an operation of another task on the vault
  while a run is under way, nor of the summary text.
- SafeRun.SafetyWrapper.RunUnderSafety: a timeout strikes between stages; how far one that strikes within
  a stage had got is not modelled. Writing the reports to disk is left out.
- Watermark.CoverageIsExact: a run's scope is what Phase 1 lists; Phase 2b lists each boundary again, later,
  and can compare facts Phase 1 did not see. One run at a time, and a clock that never goes back, are
  taken for granted; the headless schedule takes no lock.
- RunLaws.RunUndo: is about the vault as the run left it; rolling back an older checkpoint after newer
  runs, and checkpoint retention, are left out.
- History.NoMemoryIsLost: covers runs, enrichment passes and saves; edits, deletes and restores between runs
  are in AdapterLaws, each with the exact condition under which the links stay a forest.
- OwnershipLaws.OneOwner: process ids are not reused, the poisoned-mutex arm is left out, and the keeper's
  own removal of its record is one step.
- HandOver.HandOverIsSafe: says nothing about how long a taker waits, the handshake, or commands that
  do not check the intent.
- Opening a lockfile retries a few times on a sharing violation: operating-system detail.
- Export.ToMarkdown: the date's wording is any one-line text, and ids compare as numbers in the order of
  their text.
- Adapter.VaultAdapter.RestoreRecentlyDeleted: listing and counting entries are left out, and a fresh
  entry id is taken as unused.
- AdapterLaws.AppsStayWithinLimit: clock readings never go back.
- Fingerprints.OneByteShows: says nothing of texts that differ in more bytes, which a 64-bit hash can confuse.
- Rfc3339.TextOrderIsTimeOrder: leaves out leap seconds and years past 9999.
- Schedule.RunSchedule: wall-clock time without daylight-saving shifts.
- Graph: aliases across boundaries, entity merging, snapshots and queries; matching of names is a
  function given to the model.
- Reports, topics, summaries, boundaries and their registry, tokens, audit chain, account and lease
  checks, relays and the desktop shell.
