# SyncPlus core, modelled and verified in Dafny

SyncPlus decides which files to copy, overwrite or delete between two peers and proves each step in a durable
journal before it moves on. This project models the deciding parts of `syncplus-core` and proves what they promise.

| area | files |
|---|---|
| vocabulary: options, results, peers, machine integers, path components | `Common.dfy`, `Paths.dfy` |
| run-evidence journal: the write rules, the read rules, their agreement, what survives storage and what does not, Safe Delete, serial execution, the store, reports | `EvidenceTypes.dfy`, `EvidenceAppend.dfy`, `EvidenceReplay.dfy`, `EvidenceAgreement.dfy`, `EvidenceJournal.dfy`, `EvidenceSurvival.dfy`, `EvidenceWitnesses.dfy`, `SafeDelete.dfy`, `SerialExecution.dfy`, `EvidenceStore.dfy`, `Reports.dfy` |
| missed-schedule notices | `MissedSchedule.dfy` |
| the two wildcard engines and the two exclusion walks | `Wildcards.dfy`, `Exclusions.dfy` |
| equality, one-way plans, Mirror plans and conflicts | `Equality.dfy`, `Planning.dfy`, `Mirror.dfy` |
| sync baselines and reviewed Mirror deletions | `Baselines.dfy`, `MirrorDeletion.dfy` |
| names for preserved conflict copies | `PreservedCopy.dfy` |
| rsync output: lines and the streaming parser | `TransferLines.dfy`, `TransferParser.dfy` |
| quoting and the run lifecycle | `Quoting.dfy`, `RunLifecycle.dfy` |

`dafny verify dfyconfig.toml` checks everything.

How the model reads the code:

- Code that updates state is a class or a method with its loop, proved against a function or a predicate; the lemmas
  are about that function. Pure code is functions.
- Every database call is one atomic step on tables kept as sequences and maps. Columns that hold the text of an
  enumeration hold the enumeration.
- SHA-256 digests are numbers; paths are text, or components where their parts matter; modification times are the
  nanoseconds the comparisons use.
- The order in which a sorted set or map is walked is a parameter (`Enumerates`): the results hold for any order, the
  sorted one included.
- Inventories have unique paths (`UniquePaths`), as a directory walk gives them.
- Reading and writing follow the code where its two rule sets differ: the model keeps both and states when they agree.

What the proofs found, each stated with its exact condition:

- A journal `append_event` accepted loads again exactly when every event was `Storable`: its sizes are below 2^63, its
  provenance has a source size and digest together or neither, and the removal of a regular file that carries
  provenance carries a recovery digest (`WriteReplayAgreement`). One planned size of 2^63 makes the journal unreadable
  (`AcceptedJournalCanBeUnreadable`), and so does a recovery review with provenance and a source size without its digest
  (`SizeWithoutDigestIsUnreadable`).
- A journal that loads says what was recorded exactly when every event `Survives`: it carries no provenance, or one that
  holds nothing but what replay rebuilds from the row, and no link target (`LoadedJournalExactly`). Otherwise it differs
  in provenance only (`FoldsAlike`). The ordinary removal to Trash does not survive: the recorded content or link target
  of its provenance is gone from the loaded entry (`TrashRemovalLosesProvenance`).
- At most one action is active in a history that plans ahead; a plan for a smaller id added while an action is active
  lets two run (`LatePlanRunsTwo`).
- The greedy matcher decides the wildcard relation for every pattern exactly on values without `*`
  (`GreedyExactValues`), and for every value exactly on patterns without `*` (`GreedyExactPatterns`); the table matcher
  covers it on a pattern exactly when the pattern has no `?` (`EnginesContainedExactly`). Patterns that start with `./`
  exclude nothing in the analysis, and in the precheck what their rest excludes.
- One run loses no source item (`NothingIsLost`), two can: an included source item is gone from both peers, recovery
  copies aside, exactly when Safe Delete drained it in the first run and Destination Cleanup is on, because its copy
  then has no source any more (`ItemIsGoneExactly`). The plan of the second run is empty exactly when nothing was
  drained with Destination Cleanup on and every other transferable item is comparable with itself
  (`NextPlanEmptyExactly`).
- A source is removed without a transfer in the same plan exactly when Safe Delete finds its equal on the destination
  already (`LoneRemovalExactly`).
- The journal compares the destination with the plan nowhere. A source removal is accepted, loads and is Completed with
  any size below 2^63 and any digest at the destination (`RemovalOverAnyContent`); a completed one shows the planned
  content there exactly when its proof boundary did (`PlannedContentExactly`). That source and destination agree is left
  to the executor that reports the proof.
- The counts of missed-schedule notices are the missed runs, and one more for every time a run that was merged into the
  notice of another is recorded again (`TotalCountsRuns`, `MergedRunCountsAgain`).
- Every candidate for a Mirror deletion is also a planned copy back to the peer it is missing from; carrying that plan
  out instead of the deletion ends the candidacy (`CandidateIsCopied`, `PlanUndoesDeletion`).
- Merging baselines is associative exactly when it does not pass another profile or peer and come back with paths lost
  (`MergeAssociatesExactly`).
- Generated names differ for different suffixes, but for the last two of the 2^32 (`NamesDistinctExactly`).
- A part of a process preview is what a shell would read as the original text exactly when the text has no backslash
  and no control character (`QuotedIsShellWordExactly`).

## Model

| member | source | states |
|---|---|---|
| EvidenceAgreement.AdmittedTransitionReplays | crates/syncplus-core/src/evidence.rs:5060-5119 | every phase transition the write rules admit for an action is one the separately written replay rules allow |
| EvidenceAgreement.StorableReadsBack | crates/syncplus-core/src/evidence.rs:5195-5331 | storable evidence reads back from its columns as it was written, but for provenance, which comes back as replay rebuilds it from the row |
| EvidenceAgreement.UnstorableDoesNotReadBack | crates/syncplus-core/src/evidence.rs:5195-5331 | evidence that is not storable cannot be read back |
| EvidenceAgreement.EventReplays | crates/syncplus-core/src/evidence.rs:4810-5058 | the row of an accepted event applies to its entry exactly when the event is storable, and then adds the event as it reads back |
| EvidenceAgreement.EncodeMirrors | crates/syncplus-core/src/evidence.rs:3744-3890 | what the queries of `append_event` read from an action's rows is what the fold of its events holds |
| EvidenceAgreement.ActionReplays | crates/syncplus-core/src/evidence.rs:4810-5058 | the rows of one accepted action replay exactly when all its events are storable, to the fold of the events as they read back |
| EvidenceAgreement.FoldsAlike | crates/syncplus-core/src/evidence.rs:5244-5331 | the events as they read back add up to what they said, in everything but the provenance of the evidence |
| EvidenceJournal.TableEncodesHistory | crates/syncplus-core/src/evidence.rs:3744-3890 | the rows of an action, in the table of any history, are its events numbered 0, 1, 2 without gaps |
| EvidenceJournal.OrderRowsOrders | crates/syncplus-core/src/evidence.rs:3897-3974 | loading reads a permutation of the table ordered by action and sequence |
| EvidenceJournal.OrderKeepsGroups | crates/syncplus-core/src/evidence.rs:3897-3974 | the reordering keeps the rows of each action in the order they were inserted |
| EvidenceJournal.ReplayRegroups | crates/syncplus-core/src/evidence.rs:3897-3974 | replaying the whole reordered table succeeds exactly when each action replays on its own, and holds the same entries |
| EvidenceJournal.WriteReplayAgreement | crates/syncplus-core/src/evidence.rs:3897-3974 | every accepted history loads exactly when all its events are storable, and then the loaded entries are the fold of each action's events as they read back |
| EvidenceJournal.AppendExtendsHistory | crates/syncplus-core/src/evidence.rs:3744-3890 | an append succeeds exactly when the longer history is an accepted one, and leaves its table |
| EvidenceJournal.EveryPrefixReplays | crates/syncplus-core/src/evidence.rs:3897-3974 | every prefix of a loadable journal loads, to the fold of that prefix as it reads back |
| EvidenceJournal.AcceptedJournalCanBeUnreadable | crates/syncplus-core/src/evidence.rs:4482-4667 | an accepted plan of a 2^63-byte item makes the journal fail to load |
| EvidenceSurvival.SurvivesExactly | crates/syncplus-core/src/evidence.rs:5244-5331 | an event reads back as it was written exactly when it carries no provenance, or one of its own action, method and verification, with the content of the evidence and no link target |
| EvidenceSurvival.EvidenceIsWrittenOnce | crates/syncplus-core/src/evidence.rs:5347-5578 | no admitted event overwrites evidence of its kind recorded before it |
| EvidenceSurvival.ActionSurvivesExactly | crates/syncplus-core/src/evidence.rs:4810-5058 | an accepted action reads back to the fold of its recorded events exactly when all of them survive |
| EvidenceSurvival.LoadedEntryExactly | crates/syncplus-core/src/evidence.rs:3897-3974 | the loaded entry of an action is the fold of its recorded events exactly when all of them survive |
| EvidenceSurvival.LoadedJournalExactly | crates/syncplus-core/src/evidence.rs:3897-3974 | a loaded journal is the fold of what was recorded, action by action, exactly when every event survives |
| EvidenceWitnesses.TrashRemovalLosesProvenance | crates/syncplus-core/src/removal.rs:1861-1894 | the events of an ordinary removal to Trash are accepted and load, and the content or link target recorded in the provenance is not in the loaded entry |
| EvidenceWitnesses.SizeWithoutDigestIsUnreadable | crates/syncplus-core/src/evidence.rs:5244-5331 | a recovery review with provenance and a source size without its digest is accepted and makes a loadable journal unreadable |
| SafeDelete.EntryOfEvents | crates/syncplus-core/src/evidence.rs:4810-5058 | an entry's plan, phase and proof boundary are those of the action's first, last and proving events |
| SafeDelete.AcceptedIsShaped | crates/syncplus-core/src/evidence.rs:5347-5578 | an accepted action whose last event is a start, proof or removal step has exactly the phases that must come before it, each with its required evidence |
| SafeDelete.CompletedRemovalIsProven | crates/syncplus-core/src/evidence.rs:5663-5751 | a source removal ends up Completed exactly when its events are the full chain: source verified against the plan, both sides looked at again, removal with the frozen method, destination as at the proof boundary, source absent |
| SafeDelete.RemovalFollowsProof | crates/syncplus-core/src/evidence.rs:5347-5578 | no removal starts or completes without a verified transfer and its proof boundary before it |
| SafeDelete.SafeDeleteChain | crates/syncplus-core/src/evidence.rs:3897-3974 | the same for every loaded journal: Completed source removals are exactly the full chains, and no removal precedes its proof boundary |
| SafeDelete.PlannedContentExactly | crates/syncplus-core/src/evidence.rs:5663-5751 | a loaded, completed source removal has the destination of its proof boundary, and so the planned content there exactly when the proof boundary showed it |
| EvidenceWitnesses.RemovalOverAnyContent | crates/syncplus-core/src/evidence.rs:5663-5751 | with any destination size below 2^63 and any digest, the chain of a removal to Trash is accepted, loads and is Completed; it shows the planned content exactly when that is what is there |
| SerialExecution.AppendMeans | crates/syncplus-core/src/evidence.rs:5580-5623 | acceptance is the action's own checks and, but for planning, cancelling and interrupting, no unsettled action with a smaller id |
| SerialExecution.SettledIsFinal | crates/syncplus-core/src/evidence.rs:5757-5769 | no event is accepted after a settled phase, `recovery_resolved` included |
| SerialExecution.UnsettledBlocksLater | crates/syncplus-core/src/evidence.rs:5580-5623 | an unsettled action, one in recovery review included, blocks every later action but for planning, cancelling and interrupting |
| SerialExecution.SerialStepExactly | crates/syncplus-core/src/evidence.rs:5580-5623 | an accepted event makes two actions active at once exactly when it starts one below an active one |
| SerialExecution.SerialExecutionHolds | crates/syncplus-core/src/evidence.rs:5580-5623 | in every accepted history that plans ahead at most one action is past planned and unsettled |
| SerialExecution.InOrderPlansAhead | crates/syncplus-core/src/evidence.rs:5580-5623 | an accepted history whose plans come in increasing order of their action ids plans ahead |
| SerialExecution.LatePlanRunsTwo | crates/syncplus-core/src/evidence.rs:5580-5623 | a smaller id planned while an action is active is accepted, started and runs beside it |
| EvidenceStore.RunEvidenceStore.BeginRun | crates/syncplus-core/src/evidence.rs:2167-2175 | a run below 2^63 begins once, with its deletion method frozen and no events; any other is refused |
| EvidenceStore.RunEvidenceStore.AppendEvent | crates/syncplus-core/src/evidence.rs:3744-3890 | an accepted event extends the history of its run; a refused one leaves every table as it was |
| EvidenceStore.RunEvidenceStore.LoadJournal | crates/syncplus-core/src/evidence.rs:3897-3974 | loading succeeds for a run below 2^63 exactly when every accepted event of it was storable, and then lists, by action id, what the events add up to as they read back; that is what was recorded exactly when every event survives |
| EvidenceStore.ReplayInOrder | crates/syncplus-core/src/evidence.rs:3897-3974 | applying the rows one by one to a growing map is the replay the proofs are about |
| Reports.ClearableMeansCompleted | crates/syncplus-core/src/evidence.rs:1164-1177 | a run can be marked Review-Cleared exactly when its status is Completed and it has an action or a reconciliation |
| Reports.StatusAgreesWithResult | crates/syncplus-core/src/evidence.rs:5771-5881 | status and execution result, two orders of precedence, agree on every outcome unless a Mirror resolution failed |
| Reports.OutcomeOfLastEvent | crates/syncplus-core/src/evidence.rs:4960-4970 | an action is Completed exactly when its last event completed it; a proof boundary or a started removal leaves it in recovery review |
| Reports.CompletedReportIsSettled | crates/syncplus-core/src/evidence.rs:5771-5881 | in a run reported Completed or Review-Cleared the last event of every action completed it |
| MissedSchedule.TablesStayConsistent | crates/syncplus-core/src/evidence.rs:3253-3349 | over any calls each profile has at most one pending notice, a run makes at most one notice and one missed event, and latest is not before first |
| MissedSchedule.NoMissedRunIsLost | crates/syncplus-core/src/evidence.rs:3253-3349 | the missed counts add up to the accepted records whose run had no notice of its own |
| MissedSchedule.TotalCountsRuns | crates/syncplus-core/src/evidence.rs:3253-3349 | the missed counts are the runs recorded, each with one missed event, and the repeated records of runs merged into the notice of another |
| MissedSchedule.MergedRunCountsAgain | crates/syncplus-core/src/evidence.rs:3253-3349 | two missed runs of a profile, the second recorded twice, give one notice that counts three |
| MissedSchedule.DecisionsAreFinal | crates/syncplus-core/src/evidence.rs:3391-3431 | decided notices never change; no notice loses its profile, run or first time |
| MissedSchedule.MissedScheduleStore.RecordMissedSchedule | crates/syncplus-core/src/evidence.rs:3253-3349 | a record is accepted exactly for valid input whose reason does not start with NUL, unless its run has a notice already; it returns a stored notice and leaves a missed event for the run |
| MissedSchedule.MissedScheduleStore.MarkMissedScheduleDecision | crates/syncplus-core/src/evidence.rs:3391-3431 | a decision is accepted exactly on a pending notice or one decided the same way, and changes that notice only |
| Wildcards.GreedyIsSound | crates/syncplus-core/src/analysis.rs:1146-1178 | the greedy matcher accepts only what the `?` and `*` relation holds of, for every pattern and value |
| Wildcards.GreedyDecides | crates/syncplus-core/src/analysis.rs:1146-1178 | on values without `*` it decides the relation |
| Wildcards.GreedyExactValues | crates/syncplus-core/src/analysis.rs:1146-1178 | it decides the relation for every pattern exactly on the values without `*` |
| Wildcards.GreedyExactPatterns | crates/syncplus-core/src/analysis.rs:1146-1178 | it decides the relation for every value exactly on the patterns without `*` |
| Wildcards.WildcardMatch | crates/syncplus-core/src/analysis.rs:1146-1178 | the two loops terminate, are sound on every input and exact on values without `*` |
| Wildcards.WildcardMatches | crates/syncplus-core/src/precheck.rs:2370-2388 | the table decides exactly the relation in which only `*` is special |
| Wildcards.EnginesAgree | crates/syncplus-core/src/precheck.rs:2370-2388 | without `?` in the pattern and `*` in the value both engines answer alike |
| Wildcards.EnginesContainedExactly | crates/syncplus-core/src/analysis.rs:1146-1178 | the precheck engine covers the analysis engine on a pattern exactly when the pattern has no `?` |
| Exclusions.WalkDirectory | crates/syncplus-core/src/analysis.rs:980-1063 | the recursive walk builds the inventory the lemmas are about |
| Exclusions.WalkListsExactly | crates/syncplus-core/src/analysis.rs:980-1063 | the inventory lists exactly the tree's entries outside SyncPlus's temporary names, each Excluded exactly when it or a directory above it matches an exclusion |
| Exclusions.ExcludedIsClosed | crates/syncplus-core/src/analysis.rs:980-1063 | everything below an excluded directory is excluded |
| Exclusions.CollectEntries | crates/syncplus-core/src/precheck.rs:2317-2352 | the recursive collection builds the list the lemmas are about |
| Exclusions.CollectKeepsExactly | crates/syncplus-core/src/precheck.rs:2317-2352 | the precheck keeps exactly the entries that neither it nor a directory above excludes |
| Exclusions.DotSlashMatchesNothing | crates/syncplus-core/src/analysis.rs:1113-1137 | a pattern that starts with `./` excludes nothing in the analysis |
| Exclusions.DotSlashIsIgnored | crates/syncplus-core/src/precheck.rs:2355-2368 | the precheck reads such a pattern as what follows the `./` |
| Exclusions.ExclusionContained | crates/syncplus-core/src/precheck.rs:2355-2368 | what a pattern without `?` excludes in the analysis it excludes in the precheck |
| Exclusions.PrecheckKeepsOnlyAnalysed | crates/syncplus-core/src/precheck.rs:2311-2352 | over any tree, what the precheck keeps the analysis lists and does not exclude, temporary names apart |
| Equality.EqualityIsSameView | crates/syncplus-core/src/baseline.rs:76-116 | equality is having the same visible fields on comparable items: symmetric, and reflexive exactly without specialist metadata and with a fingerprint on files |
| Equality.EqualityIsTransitive | crates/syncplus-core/src/baseline.rs:76-116 | equality is transitive |
| Equality.ReviewEqualityAgrees | crates/syncplus-core/src/conflict.rs:365-392 | the comparison of the conflict review, written separately, agrees with Mirror equality on included items |
| Planning.PlanHoldsWhatIsDue | crates/syncplus-core/src/analysis.rs:1254-1320 | a step is planned exactly when the two states call for it: copies of missing items, overwrites of unequal ones, Safe Delete removals, cleanup removals, each with its size |
| Planning.PlanIsOrdered | crates/syncplus-core/src/analysis.rs:1254-1320 | no step is planned twice, and two steps for one path are its transfer and, behind it, the removal of the source |
| Planning.LoneRemovalExactly | crates/syncplus-core/src/analysis.rs:1270-1304 | a source removal is planned without a transfer of its path exactly when Safe Delete drains an item whose equal is on the destination already |
| Planning.BuildOneWayPlan | crates/syncplus-core/src/analysis.rs:1180-1335 | the plan built has ids 1 to n, its summary, and always passes its own validation |
| Planning.Validate | crates/syncplus-core/src/analysis.rs:487-537 | validation succeeds exactly when no action is refused and the summary fits, and reports the first refusal otherwise |
| Planning.SummaryFor | crates/syncplus-core/src/analysis.rs:1379-1409 | the counters are the counts and bytes of the actions by kind |
| Planning.SummaryConserves | crates/syncplus-core/src/analysis.rs:1379-1409 | counts and bytes over the four kinds add up to all actions and all bytes |
| Planning.PlanOutcome | crates/syncplus-core/src/analysis.rs:1254-1335 | carrying the plan out gives each path its own result, whatever happens on other paths |
| Planning.NothingIsLost | crates/syncplus-core/src/analysis.rs:1254-1335 | for every option a removed source item is on the destination, itself or its equal, and ineligible destination paths are unchanged |
| Planning.NextPlanEmptyExactly | crates/syncplus-core/src/analysis.rs:1254-1335 | for every option the next plan is empty exactly when each transferable item is comparable with itself, or drained without Destination Cleanup |
| Planning.OneWayConverges | crates/syncplus-core/src/analysis.rs:1254-1335 | with Safe Delete off the next plan is empty exactly when each transferable source item equals itself |
| Planning.RunsSettle | crates/syncplus-core/src/analysis.rs:1254-1335 | from the second run on, with nothing else happening, no run changes a path any more |
| Planning.ItemIsGoneExactly | crates/syncplus-core/src/analysis.rs:1254-1335 | after two or more runs an included source item is gone from both peers exactly when Safe Delete drained it in the first and Destination Cleanup is on |
| Mirror.MirrorPlanExactly | crates/syncplus-core/src/analysis.rs:1199-1240 | the Mirror plan copies exactly the items included on one peer and absent from the other, each once, from the peer that has it, with the size of a regular file only |
| Mirror.BuildMirrorPlan | crates/syncplus-core/src/analysis.rs:1199-1252 | the plan built has ids 1 to n, its summary, and always passes its own validation |
| Mirror.MirrorSummaryFor | crates/syncplus-core/src/analysis.rs:1411-1475 | considered, included and excluded paths are counted once over both peers, included winning over excluded |
| Mirror.SamePathConflicts | crates/syncplus-core/src/conflict.rs:246-281 | the conflicts are exactly the paths included on some peer, present on both and not review-equal, each once |
| Mirror.MirrorPartition | crates/syncplus-core/src/conflict.rs:246-281 | a path included on some peer is exactly one of a planned copy, a conflict, or agreed |
| Mirror.MirrorOutcome | crates/syncplus-core/src/analysis.rs:1199-1252 | a copied path ends up the same on both peers and every other path is as it was |
| Mirror.MirrorPreserves | crates/syncplus-core/src/analysis.rs:1199-1252 | carrying the plan out changes no item that is there |
| Mirror.MirrorConverges | crates/syncplus-core/src/analysis.rs:1199-1252 | the next Mirror plan is empty |
| Mirror.NextConflictsExactly | crates/syncplus-core/src/conflict.rs:365-392 | the next review has the old conflicts and the copied items that cannot be compared with themselves |
| Baselines.FromInventories | crates/syncplus-core/src/baseline.rs:325-360 | a baseline records exactly the included states, path by path |
| Baselines.FromReconciledInventories | crates/syncplus-core/src/baseline.rs:362-415 | settled paths are exactly those unblocked and equal on both peers, recorded as both held them |
| Baselines.Compare | crates/syncplus-core/src/baseline.rs:471-512 | one comparison for each recorded or included path |
| Baselines.SettledIsStable | crates/syncplus-core/src/baseline.rs:544-562 | against its own inventories a baseline shows settled paths Unchanged, other included items New, and nothing Changed or Absent |
| Baselines.MergeSettled | crates/syncplus-core/src/baseline.rs:514-541 | merging is the right-biased union by path for one identity, and the updates alone otherwise |
| Baselines.MergeAssociatesExactly | crates/syncplus-core/src/baseline.rs:514-541 | exactly when merging three baselines is associative |
| Baselines.MergeChainIsLatest | crates/syncplus-core/src/baseline.rs:514-541 | after any chain of merges each path holds what the latest counting baseline holds |
| MirrorDeletion.DeletionCandidates | crates/syncplus-core/src/mirror_deletion.rs:201-268 | the candidates are those the baseline entries give, each path once |
| MirrorDeletion.CandidateExactly | crates/syncplus-core/src/mirror_deletion.rs:201-268 | a path is a candidate exactly with equal states recorded for both peers, the item gone from one, and the rest included and equal to the missing side's recorded state |
| MirrorDeletion.CandidateIsAbsentAndUnchanged | crates/syncplus-core/src/baseline.rs:544-562 | an equal recorded pair is a candidate exactly when the comparison shows one side Absent, with nothing left under its path, and the other Unchanged |
| MirrorDeletion.SettledGivesNoCandidate | crates/syncplus-core/src/mirror_deletion.rs:201-268 | a baseline gives no candidate against the inventories it was settled from |
| MirrorDeletion.CandidateComesFromRun | crates/syncplus-core/src/mirror_deletion.rs:201-268 | after any merges a candidate goes back to the latest run of the same identity that settled its path |
| MirrorDeletion.Resolve | crates/syncplus-core/src/mirror_deletion.rs:146-193 | resolving succeeds exactly when the decisions name each candidate once, and each error names its cause |
| MirrorDeletion.ReviewedDeletions | crates/syncplus-core/src/mirror_deletion.rs:413-450 | a candidate is deleted exactly when the plan is confirmed and its decision is to delete the counterpart |
| MirrorDeletion.CandidateIsCopied | crates/syncplus-core/src/mirror_deletion.rs:201-268 | every candidate is also a planned copy, from the peer its deletion would affect |
| MirrorDeletion.PlanUndoesDeletion | crates/syncplus-core/src/mirror_deletion.rs:201-268 | the Mirror plan, carried out, puts a candidate's item on both peers again and leaves no candidate |
| MirrorDeletion.DeletionsExactly | crates/syncplus-core/src/mirror_deletion.rs:413-450 | carrying out the confirmed deletions takes exactly the candidates so decided from both peers, the plan and the next candidates; every other path keeps its items, candidate and copy |
| MirrorDeletion.DeletionsThenPlan | crates/syncplus-core/src/mirror_deletion.rs:413-450 | deletions first and the new Mirror plan then: the deleted stays away, the preserved or deferred is on both peers, no candidate is left and nothing more is copied |
| PreservedCopy.NamesDistinctExactly | crates/syncplus-core/src/preserved_copy.rs:561-610 | generated names differ for different suffixes but for the last two |
| PreservedCopy.PeersNeverShareName | crates/syncplus-core/src/preserved_copy.rs:556-571 | the copies of the two peers never share a name |
| PreservedCopy.ExtensionIsKept | crates/syncplus-core/src/preserved_copy.rs:548-571 | a generated name keeps the stem in front and the extension behind |
| PreservedCopy.ToldApartExactly | crates/syncplus-core/src/precheck.rs:2261-2270 | generated paths have different keys exactly when the policy does not fold two of the names into one |
| PreservedCopy.AllocatesLeastFree | crates/syncplus-core/src/preserved_copy.rs:561-606 | the name allocated is the one with the least free suffix, within as many tries as there are occupied keys and one more when keys are told apart |
| PreservedCopy.PlainPolicyTellsApart | crates/syncplus-core/src/precheck.rs:2261-2289 | a policy that folds nothing tells the candidates of every path apart, so the bound on the tries applies to it |
| PreservedCopy.AllocateCopy | crates/syncplus-core/src/preserved_copy.rs:535-606 | the name found is reserved on the target, and an error reserves nothing |
| PreservedCopy.PreservedCopyPlanner.Plan | crates/syncplus-core/src/preserved_copy.rs:149-190 | both copies are planned and reserved, or the inventory is the one it was |
| PreservedCopy.PlanReserves | crates/syncplus-core/src/preserved_copy.rs:149-190 | a call reserves nothing, or the original and one fresh key on each peer, one copy in each direction |
| PreservedCopy.ReservedExactly | crates/syncplus-core/src/preserved_copy.rs:149-190 | after any calls the reserved keys are the initial ones and those of the calls that allocated |
| PreservedCopy.CopiesNeverCollide | crates/syncplus-core/src/preserved_copy.rs:149-190 | over any calls a copy's key is not in the initial inventory, not an original's so far, and not an earlier copy's |
| TransferLines.ReadingIsUnique | crates/syncplus-core/src/parser.rs:342-400 | an encoding is read in exactly one way, and exactly when it is well spelled |
| TransferLines.UnescapeExactly | crates/syncplus-core/src/parser.rs:342-413 | an encoding decodes to a path exactly when it spells it by literals, named, hex and octal escapes, and the path is valid UTF-8 without NUL |
| TransferLines.UnescapePath | crates/syncplus-core/src/parser.rs:342-413 | the index loop computes that decoding and its error |
| TransferLines.SplitExactly | crates/syncplus-core/src/parser.rs:278-300 | a line splits into code and encoding exactly when it is a valid code, whitespace and a non-blank rest |
| TransferLines.ItemizedExactly | crates/syncplus-core/src/parser.rs:240-271 | a line yields an itemized record exactly when it is a valid code, whitespace and a spelling of a namable path |
| TransferLines.ItemizedRoundTrip | crates/syncplus-core/src/parser.rs:240-271 | a valid code, a space and a hex-escaped path parse back to that record |
| TransferLines.ProgressRoundTrip | crates/syncplus-core/src/parser.rs:327-340 | a progress line parses to its byte count and percentage, for every count below 2^64 and percentage up to 100 |
| TransferLines.ProgressIsInRange | crates/syncplus-core/src/parser.rs:327-340 | no line yields progress above 100 percent or a count out of range, and only valid UTF-8 with a percent sign yields progress |
| TransferParser.TransferOutputParser.FeedChunk | crates/syncplus-core/src/parser.rs:160-184 | the byte loop is the machine the proofs are about |
| TransferParser.TransferOutputParser.AppendOneLine | crates/syncplus-core/src/parser.rs:200-219 | a line is admitted within the budget as specified |
| TransferParser.TransferOutputParser.FinishOutput | crates/syncplus-core/src/parser.rs:186-198 | finishing reports what is left and empties the buffer |
| TransferParser.SplitIsFaithful | crates/syncplus-core/src/parser.rs:160-184 | the line specification splits the input at its newlines and loses nothing |
| TransferParser.StreamingRefinesLines | crates/syncplus-core/src/parser.rs:160-198 | however the input is cut into chunks, the output is what its lines and tail call for |
| TransferParser.BufferIsBounded | crates/syncplus-core/src/parser.rs:178-182 | between bytes the buffer never exceeds the record limit |
| TransferParser.BudgetExactly | crates/syncplus-core/src/parser.rs:200-219 | the counters stay within the limits, nothing is withheld while the short lines fit, and the limit is reached exactly when they no longer do |
| TransferParser.NothingActsBeyondTheLimit | crates/syncplus-core/src/parser.rs:200-219 | OutputTooLarge is said once when the limit is reached, and no action follows |
| TransferParser.WholeOutputIsQuiet | crates/syncplus-core/src/parser.rs:160-219 | the same for the whole output of any chunks |
| TransferParser.ParseChunks | crates/syncplus-core/src/parser.rs:221-236 | the parser fed chunk by chunk and finished collects exactly what the lines and tail of the input call for: no more records than the limit, OutputTooLarge at most once and exactly when the short lines do not fit, no record after it |
| TransferParser.ActionsAreBounded | crates/syncplus-core/src/parser.rs:200-219 | every record let through is counted against the limit |
| Quoting.EncodeRemoteShellWord | crates/syncplus-core/src/process.rs:1019-1030 | the loop builds the encoded word |
| Quoting.EncodedWordIsOneWord | crates/syncplus-core/src/process.rs:1019-1030 | a POSIX shell reads the encoded text as that one word |
| Quoting.EncodedWordsAreRead | crates/syncplus-core/src/process.rs:1019-1030 | and a spaced list of encoded texts as those words |
| Quoting.ShellQuote | crates/syncplus-core/src/process.rs:1102-1121 | the loop builds the quoted text |
| Quoting.PreviewIsDecoded | crates/syncplus-core/src/process.rs:311-321 | binding names, program and arguments can be decoded from the preview |
| Quoting.PreviewIsInjective | crates/syncplus-core/src/process.rs:311-321 | two invocations never share a preview |
| Quoting.QuotedIsShellWordExactly | crates/syncplus-core/src/process.rs:1102-1121 | a shell reads a quoted part as the original text exactly when it has no backslash and no control character |
| RunLifecycle.AcceptedExactly | crates/syncplus-core/src/model.rs:908-986 | the accepted traces are exactly the course of precheck and review cycles, and such a course with one ending event |
| RunLifecycle.ExecutingFollowsConfirmation | crates/syncplus-core/src/model.rs:941-960 | execution is entered only behind analysis, review and confirmation of a run that was analysing |
| RunLifecycle.TerminalAbsorbs | crates/syncplus-core/src/model.rs:921-939 | a finished run accepts nothing more |

## Left out

- SQLite itself: schema, migrations, text codecs and the errors of unknown text; tables are values and each call is one step.
- Deleting and clearing stored runs, stored inventories and backups: plumbing around the tables modelled here.
- Recovery provenance: the checks its constructors make on peer, root and relative path are taken as made.
- Hashing, NFKC and case folding: digests are numbers and a naming policy folds one name by an uninterpreted function.
- Filesystem, clocks, processes and rsync itself: walks run over trees, plans over path maps.
- Exclusions.WalkDirectory: does not model metadata, fingerprints and read errors, and takes the entries in the order it visits them.
- Exclusions.CollectEntries: does not model read errors.
- MissedSchedule.MissedScheduleStore.RecordMissedSchedule: does not model a missed count past the i64 range, a clock that fails, or other kinds of scheduler events.
- Planning.SummaryFor: does not model u64 overflow of the byte totals.
- Planning.PlanOutcome: steps act on flat path maps, so removing a directory does not remove what is below it, and a copy is exact.
- Mirror.SamePathConflicts: does not model the possible-rename and naming-compatibility entries of a review or its text previews.
- MirrorDeletion.DeletionsExactly: the executor of deletions is outside the core; a deletion is taken to remove the one item of its path.
- MirrorDeletion.Resolve: does not model the final sort of the actions by path; which missing decision is named first is left open.
- PreservedCopy.AllocateCopy: does not model names that are not Unicode, and the policy judges a path by its components, not by repeated separators in its text.
- The executor of preserved copies, scope locks, the scheduler, transfers and removals: not part of this model.
- TransferParser.TransferOutputParser.FeedChunk: `usize` is taken as 64 bits.
- Quoting.EncodeRemoteShellWord: texts are Unicode; the code converts a path that is not with replacement characters first, and this conversion is not modelled.
- Quoting.ShellQuote: texts are Unicode; the same conversion of an argument is not modelled.
- Quoting.PreviewIsDecoded: texts are Unicode; what is decoded of an argument that is not is its converted text.
- Quoting.PreviewIsInjective: texts are Unicode; two arguments that are not can be converted to the same text and share a preview.
- Quoting.EncodedWordIsOneWord: the tokeniser covers words of plain characters, backslashes and single quotes; other special characters unquoted are outside it, and none occurs in encoded text.
- Consequence texts, display strings and enumeration encoders: enumerations with only easy claims.
