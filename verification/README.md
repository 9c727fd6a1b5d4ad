# Verification of the artifact lifecycle, the inference code, the partition builders and the retrieval session

Four parts of the repository, modelled in Dafny with proofs of what they promise.

- **Artifacts.** Metadata rows live in a database and bytes in an object store, and no transaction spans the
  two. `Protocol` models every transaction and every store call as one atomic step of an operation in flight;
  operations interleave freely, any of them may stop for ever between two steps, a store call may fail with or
  without having taken effect, and the clock only moves forward. `Integrity`, `Reconciliation`, `AuditTrail`
  and `AuditChain` prove what every run keeps. `Store` and `Service` are the source's classes, method by
  method; each method is shown to take exactly the steps the protocol prescribes when it runs alone (`Solo`),
  and `FaultyUpload` and `FaultyPurge` add failing store calls (`Faults`). `Overlap` says what overlap
  does and `Resumption` what becomes of deletions cut short by a crash. `Ledger` is the in-memory audit ledger.
- **Exact inference.** `ExactTests` is the exact McNemar test, `Holm` the step-down correction, `Lcg` the
  generator and `ClusterBootstrap` the repository bootstrap it drives. Arithmetic is exact: naturals, and
  reals for scaled values.
- **Partitions.** `NearDuplicates` is the union-find with path halving, `Partition` the partition built on it
  and its audit, `Apportionment` the allocator that places whole families of task variants.
- **Decisions.** `Retrieval` is the abstention rule with its threshold search, `AgenticSession` the
  search/browse session with its budgets.

`Records`, `Iteration`, `Powers` and `Sequences` hold shared vocabulary.

## What the proofs found

Where a promise of the code or its documentation is false, the model keeps the code and states exactly when
the promise holds.

- *Audit chain.* The lock does keep two transitions from reading the same newest hash, but "newest" is decided
  by `created_at`, which defaults to the time the transaction began (`migrations/sql/0001_up.sql:133`). A
  transaction that begins first and gets the lock second forks the chain (`AuditChain.LateStarterForks`); the
  chain is unforked if and only if a tenant's transactions, the newest commit excepted, commit in the order they
  began (`AuditChain.ChainUnforkedIff`).
- *Updates to AVAILABLE are unconditional.* Without overlap of a physical deletion with an upload or repair of
  the same artifact, integrity holds over all runs (`Integrity.AvailableRowsIntact`). From every reachable state
  in which one is about to make an artifact AVAILABLE and a deletion has yet to remove its object, the run can go
  on to leave the row AVAILABLE without its object (`Overlap.CriticalOverlapBreaksIntegrity`).
- *A deletion cut short by a crash is finished by the next run, except in one state.* A crash between two
  transactions of the worker leaves a row LOGICALLY_DELETED or PHYSICAL_DELETE_PENDING. One later run confirms
  every row in a deletion state exactly when it was not PHYSICAL_DELETE_PENDING (`Resumption.LaterRunFinishes`);
  a row that was, stays so with its object in the store, whatever else runs, until the same content is uploaded
  again (`Resumption.StrandedStays`), and reconciliation never names it (`Resumption.StrandedUnreported`).
- *Deletion requests are audited even when they change nothing*, so the newest event can name a state the row
  is not in (`AuditTrail.RequestOfPendingDisagrees`). Trail and rows agree all along a run if and only if every
  recorded request is of a row that is AVAILABLE or already DELETE_REQUESTED (`AuditTrail.TrailNamesTheState`).
- *The bootstrap interval collapses at exactly the powers of two.* The generator's low bits have full period, so
  with 2^k repositories each replicate draws every repository once and equals the observed difference; at no
  other number of repositories does that happen for all data (`ClusterBootstrap.NoSpreadIff`,
  `ClusterBootstrap.FlatIntervalIff`).

## Reading the contracts

`Sha256`, `EventHash`, `Digest`, `OrderKey`, `Router`, `Similarity` and `Round` are constants without a definition: the
theorems hold for any function in their place, and injectivity or distinctness is assumed only where a lemma
says so. The order in which the database returns rows, and the shuffle of the families of a library, are
parameters. Task ids of the near-duplicate partition are numbers in the order of their names. Deficits of the
allocator are kept in hundredths of a task, and the Jaccard threshold is cleared of its division.

## Model

| member | source | states |
|---|---|---|
| `Integrity.AvailableRowsIntact` | src/enterprise_memory/artifacts/service.py:101-164 | In every run of uploads, reads, deletion requests, physical deletions and repairs, interleaved step by step with crashes and failing store calls anywhere, in which no physical deletion overlaps an upload or repair of the same artifact: every AVAILABLE row's key holds bytes whose digest is the row's content hash |
| `Integrity.NeverOverlapsIff` | src/enterprise_memory/artifacts/service.py:157-162 | A run is without overlap exactly when in no state along it a physical deletion has an artifact in its work that an upload is storing or a repair has in its work |
| `Integrity.StepKeepsServedIff` | src/enterprise_memory/artifacts/service.py:157-162 | Exactly which atomic steps keep every AVAILABLE row backed by an object: those that neither make a row AVAILABLE without its object nor remove the object of an AVAILABLE row |
| `Overlap.CriticalOverlapBreaksIntegrity` | src/enterprise_memory/artifacts/service.py:157-162 | From every reachable state in which an upload or a repair is about to make an artifact AVAILABLE and a physical deletion has yet to remove its object, some continuation of the two alone, without crash or failure, leaves the row AVAILABLE without its object |
| `Overlap.OverlapBreaksIntegrity` | src/enterprise_memory/artifacts/service.py:157-162 | Such states are reached without a crash, so integrity is false without the no-overlap condition: the unconditional update to AVAILABLE commits after the removal |
| `Integrity.ReadNeverCorrupt` | src/enterprise_memory/artifacts/service.py:167-175 | In every run whatsoever, a read that passed its lookup ends in the stored bytes (matching the digest in its key) or in a store error, never in a corruption report |
| `Integrity.ProtectedNeverErased` | src/enterprise_memory/artifacts/service.py:199-220 | Over all runs and interleavings, a row under legal hold, or whose retention ends after the run does, is not DELETE_REQUESTED, LOGICALLY_DELETED, PHYSICAL_DELETE_PENDING or PHYSICALLY_CONFIRMED when the run ends, keeps its hold and retention, and its object, once stored, stays with the same bytes |
| `Integrity.RunOk` | src/enterprise_memory/artifacts/store.py:67-81 | What all runs keep: objects match the digest in their key and have a row, rows match their key, rows on their way to deletion are erasable, and every operation in flight only carries artifacts it may act on |
| `Reconciliation.OnlyTwoKindsOfDrift` | src/enterprise_memory/artifacts/service.py:254-279 | In every run without overlap, crashes included, four of the six drift lists are empty; only pending_with_object and confirmed_object_reappeared can ever fill |
| `Reconciliation.NoDriftWithoutCrash` | src/enterprise_memory/artifacts/service.py:254-279 | In every run without overlap and without a crash, store failures included, once all operations have ended none of the six drift lists has an entry |
| `Reconciliation.CrashLeavesDrift` | src/enterprise_memory/artifacts/service.py:125-157 | The crash-free condition is needed: a crash between object write and commit leaves exactly that artifact in pending_with_object |
| `Resumption.LaterRunFinishes` | src/enterprise_memory/artifacts/service.py:214-251 | After every run of the protocol, crashes and failures anywhere, one completed run of the deletion worker leaves no row of the tenant DELETE_REQUESTED or LOGICALLY_DELETED, and of the rows in a deletion state it leaves PHYSICALLY_CONFIRMED exactly those that were not PHYSICAL_DELETE_PENDING |
| `Resumption.CompletedRun` | src/enterprise_memory/artifacts/service.py:214-251 | From any state, whatever the completed run of the worker: the rows of the tenant that were DELETE_REQUESTED or LOGICALLY_DELETED, without legal hold, and with no retention or one that has ended, are PHYSICALLY_CONFIRMED and reported, their objects absent; every other row is as it was |
| `Resumption.StrandedStays` | src/enterprise_memory/artifacts/service.py:214-251 | A row left PHYSICAL_DELETE_PENDING with no operation working on it stays so, with its object, in every continuation of uploads of other content, reads, requests, deletion runs, repairs and crashes |
| `Resumption.StrandedUnreported` | src/enterprise_memory/artifacts/service.py:254-279 | No list of reconciliation, for any tenant, names such a row or its key |
| `Resumption.CrashStrands` | src/enterprise_memory/artifacts/service.py:229-233 | A run in which the worker crashes after its second transaction: the row is PHYSICAL_DELETE_PENDING, its object in the store, and nothing in flight |
| `Resumption.CrashBegun` | src/enterprise_memory/artifacts/service.py:223-228 | A run in which it crashes after its first transaction: the row is LOGICALLY_DELETED, which a later run finishes |
| `AuditTrail.TrailNamesTheState` | src/enterprise_memory/artifacts/service.py:64-82 | For every run: the newest audit event of each artifact names its row's state all along, and a row without event is PENDING_UPLOAD, if and only if every deletion request the run records is of a row AVAILABLE or already DELETE_REQUESTED |
| `AuditTrail.StepKeepsAgreementIff` | src/enterprise_memory/artifacts/service.py:208-212 | Exactly which atomic steps keep trail and rows in agreement: all but a deletion request for a row that is neither AVAILABLE nor DELETE_REQUESTED |
| `AuditTrail.RequestOfPendingDisagrees` | src/enterprise_memory/artifacts/service.py:208-212 | A run in which the request for a still PENDING_UPLOAD row is audited as DELETE_REQUESTED while the row stays as it is |
| `AuditChain.ChainUnforkedIff` | src/enterprise_memory/artifacts/service.py:64-82 | With a digest that is injective on previous hash and payload, for every interleaving of the transactions of all tenants: a tenant's events are one unforked chain if and only if its transactions, the newest commit excepted, commit in the order in which they began |
| `AuditChain.InOrderUnforked` | src/enterprise_memory/artifacts/service.py:64-82 | When a tenant's transactions commit in the order in which they began, every event's previous hash is the hash of that tenant's preceding event, for any digest |
| `AuditChain.LateStarterForks` | src/enterprise_memory/artifacts/service.py:68-71 | A run in which two events share their predecessor although the lock is held: the sort by created_at (the transaction's start) misses the newest commit |
| `AuditChain.RunKeeps` | src/enterprise_memory/artifacts/service.py:64-82 | In every interleaving, a transaction past the lock holds it alone and what it read is still the newest hash, and every event points at the event that sorted newest when it was appended |
| `Service.ArtifactService.Put` | src/enterprise_memory/artifacts/service.py:85-164 | Running alone, takes exactly the protocol's steps. An unknown class is refused. An AVAILABLE row is returned unchanged when its object has the length and digest of the data, and else becomes DELETE_FAILED; any other row, old or new, becomes AVAILABLE with the data's size unless its key holds something else, and then UPLOAD_FAILED. Rows, objects and audit afterwards are stated in full |
| `Service.ArtifactService.CheckExisting` | src/enterprise_memory/artifacts/service.py:105-124 | The idempotent path returns the existing artifact exactly when its object has the right size and digest, and then changes nothing; otherwise the row is failed |
| `Service.ArtifactService.Get` | src/enterprise_memory/artifacts/service.py:167-175 | In order: a row that is missing, another tenant's or not AVAILABLE is refused, a missing object is a store error, a digest other than the row's is corruption, and otherwise the stored bytes are returned; from a consistent state it is never corrupt or missing |
| `Service.ArtifactService.RequestDelete` | src/enterprise_memory/artifacts/service.py:199-212 | In order: not found, blocked by hold, blocked by a retention that has not ended, and otherwise requested: an AVAILABLE row becomes DELETE_REQUESTED and, whatever the row's state, one event is appended; a refusal changes nothing |
| `Service.ArtifactService.RunPhysicalDeletions` | src/enterprise_memory/artifacts/service.py:214-251 | Takes the protocol's steps. The rows of the scan that are the tenant's, DELETE_REQUESTED or LOGICALLY_DELETED, without legal hold, and with no retention or one that has ended, become PHYSICALLY_CONFIRMED and are reported; exactly their objects are gone; every other row and object is as before; the audit grows by each such row's lifecycle in scan order |
| `Service.ArtifactService.Repair` | src/enterprise_memory/artifacts/service.py:281-307 | Takes the protocol's steps. Every PENDING_UPLOAD row of the tenant becomes AVAILABLE or UPLOAD_FAILED as its key holds the row's digest or not, every AVAILABLE row without an object becomes DELETE_FAILED, no other row and no object changes; the three lists hold exactly those rows, and each change is audited in scan order |
| `Service.ArtifactService.Reconcile` | src/enterprise_memory/artifacts/service.py:254-279 | Each of the six lists, over the rows and the objects: AVAILABLE without object, object without row, AVAILABLE with another digest, PENDING_UPLOAD with object, PHYSICALLY_CONFIRMED with object, key outside the tenant; has_drift is true exactly when one of these occurs |
| `Solo.PurgeAllOutcome` | src/enterprise_memory/artifacts/service.py:222-251 | A completed physical deletion changes the selected rows and objects and nothing else, and appends each row's lifecycle in order |
| `FaultyUpload.FaultyUploadOutcome` | src/enterprise_memory/artifacts/service.py:102-164 | Whatever store calls fail, and whether or not they took effect, an upload that ended is stored (row AVAILABLE, size and digest verified), failed (row UPLOAD_FAILED), corrupt (a served row DELETE_FAILED) or stopped by a store error with nothing changed; other rows and existing objects are as before, and at most one event was appended |
| `FaultyPurge.FaultyPurgeOutcome` | src/enterprise_memory/artifacts/service.py:214-251 | Whatever store calls fail, and whether or not they took effect: a completed run leaves each selected row PHYSICALLY_CONFIRMED with its object absent, or DELETE_FAILED, reports which, and leaves every other row and object unchanged |
| `FaultyPurge.FaultyPurgeTrail` | src/enterprise_memory/artifacts/service.py:214-251 | Whatever store calls fail, a completed run appends each selected row's lifecycle in order, ending in its reported result, and nothing else |
| `Solo.PurgeAllRuns` | src/enterprise_memory/artifacts/service.py:222-251 | The protocol, running alone without faults, takes a physical deletion from its selection to that outcome |
| `Solo.RepairAllRuns` | src/enterprise_memory/artifacts/service.py:288-307 | The protocol, running alone without faults, takes a repair from its selection to its outcome and its three lists |
| `Solo.RepairOutcome` | src/enterprise_memory/artifacts/service.py:281-307 | From any state, a repair over all rows of a tenant leaves each in its repaired state, other rows and the whole store untouched |
| `Solo.RepairSettles` | src/enterprise_memory/artifacts/service.py:281-307 | After a repair no row of the tenant is PENDING_UPLOAD and every AVAILABLE row has an object, so two reconcile lists are empty; a second repair changes nothing and returns three empty lists |
| `Solo.SoloIsRun` | src/enterprise_memory/artifacts/service.py:85-251 | An operation running alone is a run of the interleaving protocol, so what all runs keep it keeps |
| `Solo.SoloKeeps` | src/enterprise_memory/artifacts/service.py:85-307 | Running alone to any point keeps the consistency of rows and objects and the availability of served bytes |
| `Store.LocalArtifactStore.Put` | src/enterprise_memory/artifacts/store.py:67-81 | Write-once: no existing content ever changes; success means the key holds content with the expected digest; a mismatch or a collision stores nothing |
| `Store.LocalArtifactStore.Verify` | src/enterprise_memory/artifacts/store.py:46-51 | True exactly when the key holds content with the expected digest; a missing object does not verify |
| `Store.LocalArtifactStore.Get` | src/enterprise_memory/artifacts/store.py:83-89 | Returns the stored bytes, or fails exactly when there are none |
| `Store.LocalArtifactStore.Head` | src/enterprise_memory/artifacts/store.py:91-95 | Returns the size of the object, or nothing exactly when there is none |
| `Store.LocalArtifactStore.Exists` | src/enterprise_memory/artifacts/store.py:31-32 | True exactly when there is an object |
| `Store.LocalArtifactStore.Delete` | src/enterprise_memory/artifacts/store.py:97-100 | Removes that object and no other; deleting a missing object is no error |
| `Store.LocalArtifactStore.ListKeys` | src/enterprise_memory/artifacts/store.py:108-129 | Lists exactly the keys the prefix covers, each once |
| `Ledger.AuditLedger.Emit` | src/enterprise_memory/audit/events.py:15-22 | Appends one numbered, hashed event that names its predecessor's hash, or, for an unknown type, leaves the ledger as it is; the ledger stays a chain |
| `Ledger.AuditLedger.Events` | src/enterprise_memory/audit/events.py:24-25 | Exactly the events of the asked type, or all, by increasing sequence number |
| `Ledger.Completeness` | src/enterprise_memory/audit/events.py:27-34 | Scores 1 exactly when the first event names the genesis and every other event the hash of the one before it |
| `Ledger.ExactlyPrefixesIff` | src/enterprise_memory/audit/events.py:15-34 | Among all sequences of a ledger's own events exactly its prefixes score 1, if and only if no two of its hashes are equal |
| `Ledger.NoCollisionsSuffice` | src/enterprise_memory/audit/events.py:18-20 | An injective digest makes the hashes distinct, because events are numbered |
| `Ledger.LastHashPinsLedger` | src/enterprise_memory/audit/events.py:15-22 | With a digest without collisions, two ledgers that end in the same hash are the same ledger, event by event |
| `Ledger.ScoreSeesLinksOnly` | src/enterprise_memory/audit/events.py:27-34 | The score depends on the links alone: rewriting event contents with links kept does not change it |
| `ExactTests.McNemarValid` | scripts/r19_analysis.py:23-26 | Validity: for every number of discordant pairs n and every level alpha >= 0, at most alpha * 2^n of the 2^n equally likely awards of the pairs have a p-value of at most alpha |
| `ExactTests.SwappingArms` | scripts/r19_analysis.py:23-26 | The p-value is symmetric in the two counts, positive and at most 1 |
| `ExactTests.OneIffBalanced` | scripts/r19_analysis.py:23-26 | The p-value is 1 exactly when the counts differ by at most one |
| `ExactTests.BothFormsAgree` | experiments/bigcode_r2/analysis.py:12-18 | Scaling every term of the tail before summing gives the p-value of scaling the sum: both scripts compute the same number |
| `ExactTests.PairedMcNemar` | experiments/bigcode_r2/analysis.py:12-18 | Wins are the listed pairs that are in both arms, passed in the first and failed in the second, losses the mirror image, each counted as a set of positions, and the p-value is the exact one of the two counts |
| `ExactTests.OnlyDiscordantPairsCount` | experiments/bigcode_r2/analysis.py:14-15 | A pair with the same result in both arms, or that one arm lacks, changes neither count wherever it stands in the list, and so not the p-value |
| `ExactTests.ShareOfExtremeAwards` | scripts/r19_analysis.py:23-26 | What the p-value is: of the 2^n equally likely awards of the n discordant pairs, the share at least as far from even as the one observed |
| `Holm.HolmBonferroni` | experiments/bigcode_r2/analysis.py:34-45 | Whenever the level or else all p-values are non-negative, a hypothesis is rejected if and only if every set of hypotheses containing it has a member at or below alpha divided by the size of the set; so the result depends neither on the listing order nor on how ties sort; thresholds are those of a ranking by p-value |
| `Holm.StepDown` | experiments/bigcode_r2/analysis.py:39-44 | The loop over ranked hypotheses rejects exactly those for which every smaller-ranked one met its threshold too, and reports each p-value and threshold |
| `Holm.StepDownIsClosed` | experiments/bigcode_r2/analysis.py:34-45 | Step-down rejection of any rank is rejection by closed Bonferroni testing, both directions |
| `Holm.MisfitSignsDiffer` | experiments/bigcode_r2/analysis.py:34-45 | With a negative level and negative p-values the two differ: an input that step-down rejects and closed testing does not |
| `Holm.FamilyWiseError` | experiments/bigcode_r2/analysis.py:34-45 | Family-wise error: over any finite space of outcomes, whatever the dependence, if every true null has a valid p-value then outcomes rejecting some true null weigh at most alpha of the whole |
| `Lcg.ExactPeriod` | scripts/r19_analysis.py:29-33 | From any seed and for every k <= 31, two draws agree modulo 2^k exactly when their positions do |
| `Lcg.VisitsEverything` | scripts/r19_analysis.py:29-33 | Any 2^k consecutive draws take every value modulo 2^k; with k = 31 the generator visits all 2^31 values before repeating |
| `Lcg.StatePeriod` | scripts/r19_analysis.py:29-33 | The whole state repeats exactly every 2^31 draws |
| `Lcg.Generator.Draw` | scripts/r19_analysis.py:31-33 | The n-th draw is the n-th value of the recurrence, and the state becomes (1103515245 * state + 12345) mod 2^31 |
| `ClusterBootstrap.ClusterBoot` | scripts/r19_analysis.py:36-50 | The two ends are the entries of the sorted replicates at ranks B/40 and 39B/40: at most so many replicates are below them and more than so many not above; the lower end is at most the upper, and both are 0 when the arms agree on every task |
| `ClusterBootstrap.ReplicateIs` | scripts/r19_analysis.py:36-48 | What a replicate is, over the tasks: its draws name repositories in order of first appearance, and it is the sum over the draws of the tasks only A passed less those only B passed, over the sum of all tasks of the drawn repositories |
| `ClusterBootstrap.TotalDiffCounts` | scripts/r19_analysis.py:46-47 | The difference of a task list is the number of tasks only A passed less the number only B passed |
| `ClusterBootstrap.SwappingNegates` | scripts/r19_analysis.py:36-48 | Swapping the arms in every task negates every replicate |
| `ClusterBootstrap.SwappingMirrors` | scripts/r19_analysis.py:49-50 | ... and turns the sorted replicates round: entry i is minus entry B - 1 - i of the original |
| `ClusterBootstrap.DrawReplicate` | scripts/r19_analysis.py:43-48 | One replicate pools the difference and the count over exactly the repositories the next draws name |
| `ClusterBootstrap.GroupedTotals` | scripts/r19_analysis.py:38-40 | Grouping by repository loses no task and no difference |
| `ClusterBootstrap.PowerOfTwoReplicate` | scripts/r19_analysis.py:41-48 | When the number of repositories is a power of two, every replicate draws every repository exactly once and equals the observed difference |
| `ClusterBootstrap.PowerOfTwoIntervalCollapses` | scripts/r19_analysis.py:36-50 | So with 2^k repositories the interval has no width, whatever the data and however many replicates |
| `ClusterBootstrap.NoSpreadIff` | scripts/r19_analysis.py:29-48 | Every replicate of every task list over n repositories equals the observed difference if and only if n is 0 or a power of two up to 2^31 |
| `ClusterBootstrap.FlatIntervalIff` | scripts/r19_analysis.py:36-50 | Every entry the interval could be read from is the observed difference, for all tasks and all numbers of replicates, if and only if the number of repositories is 0 or a power of two up to 2^31 |
| `ClusterBootstrap.CountedBothWays` | scripts/r19_analysis.py:29-48 | If the first repository is drawn once in every replicate, then n times its draws in one period is 2^31: the draws of 2^31 replicates are those of n periods |
| `NearDuplicates.UnionFind.Find` | experiments/bigcode_r2/partition.py:46-50 | Terminates at the root of the argument; path halving changes the root of no task |
| `NearDuplicates.UnionFind.Union` | experiments/bigcode_r2/partition.py:52-55 | Makes the two trees one under the smaller root and leaves every other tree as it is; parents stay at or below their children |
| `NearDuplicates.HalvingKeepsRoot` | experiments/bigcode_r2/partition.py:47-49 | Pointing any task at its grandparent keeps every root |
| `NearDuplicates.LinkingMergesRoots` | experiments/bigcode_r2/partition.py:53-55 | Linking a root under a smaller one changes the root of its own tree only |
| `NearDuplicates.Cluster` | experiments/bigcode_r2/partition.py:44-62 | After the pair loops two tasks have equal roots if and only if a chain of near-duplicate pairs joins them |
| `NearDuplicates.NearDupExtras` | experiments/bigcode_r2/partition.py:40-71 | Of every near-duplicate component exactly one task is left in, and no task chained to it has a smaller digest |
| `NearDuplicates.NoNearDuplicatesLeft` | experiments/bigcode_r2/partition.py:63-71 | No two distinct tasks left in are near-duplicates |
| `NearDuplicates.SimilarIsJaccard` | experiments/bigcode_r2/partition.py:34-37 | The comparison cleared of its division holds exactly when neither prompt is empty and the shared words are at least 0.7 of all their words |
| `NearDuplicates.NotTransitive` | experiments/bigcode_r2/partition.py:34-37 | Near-duplication is not transitive: three prompts, the first and last of which are not near-duplicates |
| `Partition.BuildPartition` | experiments/bigcode_r2/partition.py:74-89 | For distinct ids: the six sets in order list first one representative per cluster, no two near-duplicates, by digest, then the quarantined tasks by digest, each chained to a representative; together they are a permutation of the ids; the active sets hold at most 300, 80, 120, 80 and 500, each full before the next has any, and the reserve has no representative before the last is full |
| `Partition.Cut` | experiments/bigcode_r2/partition.py:81-89 | The active sets are consecutive slices of the ordered tasks and the reserve is the remainder followed by the quarantined ones |
| `Partition.AuditPartition` | experiments/bigcode_r2/partition.py:107-132 | For any partition: for every two of the six sets the number of shared tasks, all zero exactly when no task is in two sets, and the number of near-duplicate pairs between the source set and the discovery, calibration and main sets |
| `Partition.SoundAuditsClean` | experiments/bigcode_r2/partition.py:74-132 | Every sound partition has pairwise disjoint sets and no near-duplicate pair between the source set and a target set |
| `Partition.BuildAndAudit` | experiments/bigcode_r2/partition.py:74-132 | The audit of a built partition finds all overlaps zero and no source/target near-duplicate pair |
| `Apportionment.Build` | experiments/actionable_memory_r3/partition.py:38-68 | For distinct ids and any shuffle: every task is in exactly one split, the split of its family; sizes add up to the number of tasks; in every library each split holds more than its percentage (45, 20, 12, 10, 8, 5) less five, and less than it plus one, times the library's largest family; family_span_violations is 0 |
| `Apportionment.LibraryShares` | experiments/actionable_memory_r3/partition.py:38-60 | The shares counted over the tasks themselves: positions with that library, and positions with that library whose id the split lists |
| `Apportionment.PlaceLibrary` | experiments/actionable_memory_r3/partition.py:47-59 | Within a library every split ends strictly below its quota plus one largest family and strictly above its quota minus five; the families are taken by decreasing size, equal ones in the shuffled order, and each goes to the split that is neediest at its turn |
| `Apportionment.FindNeediest` | experiments/actionable_memory_r3/partition.py:56 | The split with the largest deficit, the earlier in priority among equals |
| `Apportionment.NeediestIff` | experiments/actionable_memory_r3/partition.py:50-56 | Which split that is, in figures: the first in the order main, source, discovery, calibration, dev, reserve of those whose percentage of the library exceeds what they hold by most |
| `Apportionment.SomeSplitNeedy` | experiments/actionable_memory_r3/partition.py:56 | While tasks remain to be placed the chosen split is below its quota |
| `Apportionment.NoneFarUnder` | experiments/actionable_memory_r3/partition.py:50-59 | When no split is a family above its quota and all is placed, none is five families below |
| `Apportionment.GroupFamilies` | experiments/actionable_memory_r3/partition.py:30-35 | Groups the tasks by library and origin, losing none and keeping their order |
| `Apportionment.CountSpans` | experiments/actionable_memory_r3/partition.py:60-68 | For any assignment: the number of families whose members are recorded under more than one split |
| `Apportionment.WholePlaced` | experiments/actionable_memory_r3/partition.py:57-60 | Placing every family places every task exactly once |
| `Retrieval.QualityMonotone` | experiments/p5_2/retrieval.py:71-118 | Over any dev set, raising either threshold never raises recall and never lowers no-match specificity |
| `Retrieval.FeasibleConvex` | experiments/p5_2/retrieval.py:125-140 | The feasible region is order-convex: between two feasible points every point is feasible |
| `Retrieval.CountsMonotone` | experiments/p5_2/retrieval.py:85-107 | Raising thresholds loses true positives and gains true negatives while the numbers of relevant and no-match queries stay what they are |
| `Retrieval.Measure` | experiments/p5_2/retrieval.py:85-118 | The five counts are numbers of queries with the stated relevance, injection and best candidate; precision, recall, specificity, false injections and abstentions are their quotients, and macro F1 is half of 2tp/(injections+tp+fn) plus 2tn/(2tn+fn+fp), degenerate cases included; fails on exactly the dev sets with no query, a query without candidates, or one that claims a relevant candidate and has none, reporting the first such query |
| `Retrieval.AveragesAre` | experiments/p5_2/retrieval.py:88-117 | The mean reciprocal rank averages one over the position of the first relevant candidate over the queries that claim one; the mean margin averages best minus second score, a missing second counting as 0 |
| `Retrieval.MacroF1FromCounts` | experiments/p5_2/retrieval.py:107-114 | Macro F1 in terms of the counts alone: an empty side counts 0, or 1 for abstention when nothing was missed or wrongly injected |
| `Retrieval.SelectThresholds` | experiments/p5_2/retrieval.py:125-140 | Sweeps the 110 points (0.30 + 0.05 i, 0.05 + 0.05 j), the margin varying faster, with the measures of each; chooses none exactly when none has the recall and the specificity asked for, and else one that has, of the largest macro F1, then the largest absolute threshold, then the largest margin |
| `Retrieval.InjectsIffStandsOut` | experiments/p5_2/retrieval.py:64-75 | A candidate is injected exactly when one of several candidates reaches the absolute threshold and is ahead of every other by the margin, however ties sort; a lone candidate is measured against 0 |
| `Retrieval.BestIs` | experiments/p5_2/retrieval.py:57-61 | The candidate ranked first is the earliest listed of those with the highest score |
| `Retrieval.F1FromCounts` | experiments/p5_2/retrieval.py:108-114 | The F1 of precision and recall is twice the hits over claimed plus actual |
| `Retrieval.RankOfRelevant` | experiments/p5_2/retrieval.py:78-82 | The rank of the first relevant candidate, 0 exactly when there is none |
| `AgenticSession.EveryRunKeeps` | src/enterprise_memory/agentic/service.py:50-110 | Over every sequence of searches, decisions, browses and store additions: rounds, browsed cards and injected tokens stay within budget, browsed keys are distinct, tokens are the sum over browse_injected entries, each of which directly follows a USE decision for that version and names a version in the session's organisation; shadow mode injects nothing |
| `AgenticSession.EveryInjectionDelivered` | src/enterprise_memory/agentic/service.py:99-110 | Every browse_injected entry of a run was written by one of its browse calls: the recorded tokens are the size of the view that version had in the store of the session's organisation at that moment, and that view is what the call returned |
| `AgenticSession.BrowseKept` | src/enterprise_memory/agentic/service.py:85-110 | One browse keeps all of that, on every path including the missing version |
| `AgenticSession.MemorySearchService.BrowseExperience` | src/enterprise_memory/agentic/service.py:85-110 | The reply and the session afterwards in full: the decision is logged; the view, counted as one token per word and at least one, is injected exactly when the decision is to use, the mode is not shadow, the card was not browsed, both card budgets have room, the version is in the store of the session's organisation and the tokens fit; every refusal changes nothing but its own audit entry |
| `AgenticSession.MemorySearchService.SearchExperiences` | src/enterprise_memory/agentic/service.py:50-64 | Off and exhausted sessions get nothing and one audit entry; otherwise one round is spent and the result describes the first cards of the ranking, each promoted or probationary, of the asked repository, and in the store of the session's organisation |
| `AgenticSession.MemorySearchService.Decide` | src/enterprise_memory/agentic/service.py:67-82 | In reference mode approves exactly verified cards that are promoted or probationary, otherwise asks the router with the cards browsed so far; logs one decision and changes nothing else |
| `AgenticSession.InMemoryExperienceStore.Search` | src/enterprise_memory/agentic/store.py:67-97 | Describes the first cards of the ranking, as many as asked (a negative number counts from the end), each with its margin to the next |
| `AgenticSession.RankedHolds` | src/enterprise_memory/agentic/store.py:67-84 | The ranking holds exactly the promoted and probationary cards of the organisation and repository, as they are in the store, by decreasing similarity and then increasing version |
| `AgenticSession.RankedLength` | src/enterprise_memory/agentic/store.py:67-84 | ... each once for every time its version was added |
| `AgenticSession.InMemoryExperienceStore.Add` | src/enterprise_memory/agentic/store.py:60-62 | Replaces the card of that organisation and version and records one more addition |
| `AgenticSession.SearchIsolated` | src/enterprise_memory/agentic/store.py:67-97 | Every result is a promoted or probationary card of the asking organisation and repository, as it is in the store |

## Left out

- Row ids, content types, creators, metadata and the `result`, `actor`, `request_id` and `object_hash` fields of audit events: an artifact is identified by its tenant and key, which the table keeps unique together.
- The S3 store and its hash metadata; presigned URLs, `head`, `list_metadata` and `health`; the check of unsafe keys in the local store.
- SQL, asyncio, threads and files: replaced by the atomic steps and by a map from keys to bytes.
- The other writers of `audit_events`, which take no lock: the chain theorems are about the artifact service alone.
- The environment switch for per-job keys: the job suffix is an optional parameter of the upload.
- Two transactions of a tenant that begin at the same instant: start times are distinct in `AuditChain`.
- Hiding and aliasing of the detail dictionary of a ledger event, and the JSON text that is hashed.
- Service.ArtifactService.Put: the method runs alone and no store call fails; failing store calls are covered by `FaultyUpload`, and other operations in between by the protocol.
- Service.ArtifactService.Repair: requires the scan to return every row of the tenant, which the query does.
- Service.ArtifactService.RunPhysicalDeletions: without store failures; `FaultyPurge` covers those.
- Store.LocalArtifactStore.ListKeys: the prefix is a test on keys; how the source tells a directory from a partial path is not modelled.
- FaultyPurge.FaultyPurgeOutcome: starts from the rows just selected.
- Holm.HolmBonferroni: p-values are exact numbers; for a negative level together with negative p-values, which no test yields, it states the ranking, the thresholds and the step-down rule but not closed testing.
- ClusterBootstrap.ClusterBoot: the number of replicates is positive, ends are not rounded, and replicates are exact quotients.
- Apportionment.Build: the shuffle is any order of the families; the final sorting of the sets by numeric id, the per-library counts and the hash of the split are not modelled.
- Partition.BuildPartition: the statistics on entry-point names and the split hash are not modelled.
- Retrieval.Measure: scores come from the embedder as given numbers.
- AgenticSession.InMemoryExperienceStore.Search: the descriptors copied from a card are one value, and how similarities are computed and rounded is left open.
- Float rounding and the rounding of displayed values everywhere.
- The router, the experience compiler, governance, prompts, renderers, model calls, scorers, embedders, and the scripts that run, seed and combine experiments.
- The bootstrap of `paired`, which draws from the standard library's generator, and the derangement maps, which can have fixed points.
