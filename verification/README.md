# Verified model of provable erasure

This project models a system that erases people from a sharded machine-learning
deployment and issues a signed manifest for each of them. A subject's rows live in one
shard file and one slice of it. Erasing the subject purges the rows, rolls the shard's
model back to before that slice, retrains on what is left, and publishes a Merkle root
over the remaining subjects together with a proof that the erased one is not among them.

| file | what it models |
|---|---|
| `hashing.dfy`, `ordering.dfy`, `sums.dfy` | byte strings, collisions, ordered sets, sums and argsort |
| `smt.dfy`, `smt_tree.dfy`, `smt_proof.dfy`, `smt_theorems.dfy`, `smt_cache.dfy` | `verify/smt.py`: the sparse Merkle tree, deletion, absence proofs, the per-shard tree cache |
| `merkle.dfy`, `merkle_absence.dfy` | `verify/merkle.py`: the tree of RFC 6962 section 2.1, its loop verifier, absence by adjacency |
| `slicer.dfy`, `corpus.dfy`, `corpus_theorems.dfy` | `engine/slicer.py`, `engine/sharder.py` and the partition in `engine/train.py` |
| `erasure.dfy`, `gbdt.dfy`, `boosting.dfy` | what both engines share, the boosted-tree engine, and what decides a booster |
| `mlp.dfy`, `mlp_theorems.dfy` | the network engine with one checkpoint per slice |
| `overlap.dfy`, `overlap_theorems.dfy`, `overlap_models.dfy` | rebuilds by several workers whose file reads and writes overlap |
| `eval_set.dfy` | the AUC of `data/eval_set.py` |
| `job_queue.dfy`, `worker.dfy`, `worker_theorems.dfy` | the job table, leases, idempotent requests, `process_claimed` |
| `promotion.dfy`, `bootstrap.dfy` | content-addressed promotion from the bootstrap on, and the ensemble cache |

How it is modelled:

- SHA-256 is a parameter, any function from byte strings to 32-byte strings. Nothing
  assumes it injective. A claim that only a collision can break is stated as: the claim
  holds, or a named function computes from the inputs two different preimages with one
  hash. The 0x00, 0x01 and 0x02 prefixes, the 32-byte nodes and the depth of 256 are kept.
- One boosting round, fitting a preprocessor and training one slice of the network are
  uninterpreted deterministic functions of the model so far and the rows they see.
- Loops and updates in place are methods proved equal to functions, and the theorems are
  lemmas about those functions. Exceptions are values, and the writes made before an
  exception are part of the result.

Where the code and its documentation disagree, or a promise holds only on a condition:

- `verify/merkle.py` documents `verify_absence` as never raising. It raises an
  OverflowError exactly when the claimed size does not fit eight bytes and a consulted
  entry's path has the length its index has in a tree of that size (`RaisesExactlyWhen`,
  with a proof that does it in `RaisingProof`).
- docs/runbook.md calls extra worker replicas safe. Two rebuilds that overlap on one shard
  can put an erased subject's rows and route back (`OverlapTheorems.ErasureUndone`), and on
  different shards can put a popped route back, because routing.json is written back whole
  (`RouteReturns`). `ErasureLasts` and `PopLasts` say exactly which overlaps undo an erasure.
- A shard's rows and booster are two files, so overlapping rebuilds can also leave a booster
  that is not the clean retrain of the rows beside it: a batch between another's two reads
  (`OverlapModels.TornReadShows`) or two writes (`TornWriteShows`), or one that reads between
  another's writes (`ReadMidWriteShows`). In the last two an erased subject is gone from the
  file and still in the trees. `UndisturbedExact` says what overlap is harmless, and
  `BoostersExactly` when booster and rows agree, for one round function and for all.
- A batch that names one subject twice, as two jobs for one subject do: the boosted-tree
  engine raises KeyError on the second `pop`, after the shard, the model and the cache are
  written, and leaves routing entries without rows (`Gbdt.RebuildOutcome`, with an input in
  `SubjectRequestedTwice`). The comment at lines 149 to 153 of worker/jobs.py says nothing has
  happened by then; `WorkerTheorems.GroupOutcome` shows the rows are gone. The network engine
  refuses such a batch untouched.
- A batch that empties slice 0 makes the network engine raise after the purged shard file
  is saved (`MlpTheorems.RebuildOutcome`, with an input in `LastOfSliceZero`). Slice 0 can be
  empty from the start: `FirstSliceOccupied` says exactly when it is not.
- gateway/routes/predict.py (lines 8 to 16) has it that serving cannot undo an erasure. The
  promoted weights of a shard are not always served (`StepServes` has the exact condition):
  - A claimed batch is processed in one transaction (worker/main.py, lines 32 and 33), although
    worker/queue.py says training happens outside any, and `promoted_at` defaults to its start
    (db/schema.sql, line 97). Jobs on two shards give two versions of one time, and the newest
    by time may be the first, with the second shard's weights from before its erasure
    (`TwoShardsOneInstant`, `Bootstrap.FirstBatchOfTwo`).
  - A transaction that began before the one of a version on record adds one that is never
    served (`StartedEarlier`), and of two that do not see each other's version one is lost
    (`NotSeen`).
  - A shard that returns to weights promoted before is not served them again, because the
    version name already exists (`ReturningWeightsNotServed`).
  - A rebuild that lands between another's rebuild of the same shard and its promotion is
    copied under the other's digest (`OverwrittenBeforeCopy`).
- Two shards with equal weights share one checkpoint row, and then one of them has no path
  (`PathsAreCopies`): the gateway answers 503 for every prediction, while the evaluation in
  worker/jobs.py scores without that shard. It happens when two shards are bootstrapped with
  one model (`SharedBaseline`) or a rebuild arrives at another shard's first one
  (`TakesOverDigest`).

## Model

| member | source | states |
|---|---|---|
| SparseMerkle.DefaultHashes | verify/smt.py:47-53 | the table filled from the leaves up holds, at every depth, the hash of a wholly empty subtree |
| Ordering.LessAtFirst | verify/smt.py:83-84 | the byte order: after a common prefix the first string ends or has the smaller byte |
| Ordering.LessIsNumeric | verify/smt.py:83-84 | among strings of one width it is the order of the numbers they stand for |
| SparseMerkle.PathIsKey | verify/smt.py:60-61 | the position is the key: keys that take all 256 turns alike are equal |
| SparseMerkle.LessIsLeft | verify/smt.py:60-61 | most significant bit first: of two keys the lesser is the one with turn 0 at the first depth where they part |
| SparseMerkle.ComputeSingletonRoot | verify/smt.py:64-70 | the loop from depth 255 up computes the recursive singleton root |
| SparseMerkle.CollapsedSingleton | verify/smt.py:64-70 | a collapsed lone key hashes like the tree in which every one of the leaves below is hashed |
| SparseMerkle.SubtreeRootIsFull | verify/smt.py:73-80 | the collapsing recursion over any list of distinct keys equals that uncompressed tree of their set |
| SparseTree.BuildRep | verify/smt.py:102-113 | a built tree represents exactly its keys, every node carrying the root of its subtree |
| SparseTree.RemoveKeyRep | verify/smt.py:116-141 | removing a present key gives a tree of the others, removing an absent one raises; un-collapsed shapes included |
| SparseTree.RemoveBatch | verify/smt.py:195-224 | the loop with its `removed` set computes the batch removal, raising before any change on an absent ref |
| SparseTree.RemoveRefines | verify/smt.py:195-224 | a batch, repeats allowed, raises exactly when a ref is absent, and otherwise leaves a valid tree of the survivors |
| SparseTree.RootOfSet | verify/smt.py:184-186 | a valid tree's root is `build_root` of any list of its refs |
| SparseTree.HistoryRoot | verify/smt.py:195-224 | after any history of removal batches the root is that of a fresh build over the survivors, for every hash |
| SparseProof.ProveAbsence | verify/smt.py:226-262 | the prover's walk collects exactly the non-default siblings of the target's path, or raises for a present key |
| SparseProof.ParseSiblings | verify/smt.py:329-340 | parsing rejects exactly the siblings out of depth or width; a later entry for a depth wins |
| SparseProof.VerifyAbsence | verify/smt.py:321-349 | the verifier's loop accepts exactly well-formed proofs whose climb from the empty leaf meets the root |
| SparseTheorems.SoundnessClash | verify/smt.py:344-349 | from a proof that a member is absent, the two preimages that collide |
| SparseTheorems.AbsenceSound | verify/smt.py:310-349 | whatever proof is accepted against the root of a set, the target is not in the set, or that clash collides |
| SparseTheorems.BindingClash | verify/smt.py:73-80 | from two different sets with one root, the two preimages that collide |
| SparseTheorems.RootBinding | verify/smt.py:310-311 | lists of refs with equal roots hold the same refs, or that clash collides |
| SparseTheorems.SiblingsComplete | verify/smt.py:238-262 | climbing the prover's compressed siblings gives back the subtree's root, at every depth of every valid tree |
| SparseTheorems.AbsenceComplete | verify/smt.py:226-262 | in every tree reached by building and removing, proving succeeds exactly for absent keys and the proof is accepted, for every hash |
| SparseTheorems.CanonSound | verify/smt.py:238-262 | any tree for a set issues the siblings its set determines, or the audit exhibits a collision |
| SparseTheorems.ProofsAgree | verify/smt.py:116-141 | two trees for the same refs, whatever was deleted on the way, have one root and issue one proof per absent key, or a collision is exhibited |
| SparseTheorems.HistoryRefinesRebuild | verify/smt.py:195-262 | any history of removals agrees with a rebuild over the survivors in root and proofs, and its proofs are accepted |
| TreeCache.JoinInjective | verify/smt.py:87-99 | concatenating fixed-width keys is unambiguous, so a fingerprint preimage names one key list |
| TreeCache.JoinAt | verify/smt.py:87-99 | the preimage holds the keys one after the other, 32 bytes each |
| TreeCache.SameRefsHit | verify/smt.py:273-290 | a cached tree is handed out, not rebuilt, for every list of the refs it stands for |
| TreeCache.TreeForAgrees | verify/smt.py:273-290 | whatever was cached and whoever changed the shard file, the tree handed out is valid and stands for the refs on disk, or the fingerprint collides on two computed key lists |
| TreeCache.CachedTreeServesFresh | verify/smt.py:273-298 | its root is that of a fresh build and its proofs are those of a fresh build |
| TreeCache.Cache.TreeForShard | verify/smt.py:273-290 | the lookup returns that tree |
| TreeCache.Cache.CacheTree | verify/smt.py:293-298 | writing an entry changes that shard's entry only |
| SortedMerkle.SplitIsLargest | verify/merkle.py:53-55 | the split point is a power of two and the largest one below n |
| SortedMerkle.PairRoot | verify/merkle.py:58-67 | splitting top-down and pairing bottom-up compute one root |
| SortedMerkle.PairPath | verify/merkle.py:70-77 | an audit path is this level's sibling followed by the path one level up |
| SortedMerkle.ReconstructRoot | verify/merkle.py:92-111 | the fn/sn loop computes the level-by-level climb, although it consumes siblings before shifting past promoted levels |
| SortedMerkle.ReconstructComplete | verify/merkle.py:92-111 | for every leaf list and index the loop takes the leaf and its recursive audit path to the tree hash |
| SortedMerkle.ReconstructSound | verify/merkle.py:92-111 | a leaf, index and path of any widths that reach the tree hash are that leaf and its audit path, or the audit exhibits a collision |
| SortedMerkle.ReconstructShape | verify/merkle.py:95-111 | the loop gives up depending on index, size and path length only, and never on a hash |
| SortedAbsence.BigEndianInjective | verify/merkle.py:29-39 | sizes that fit the committed width are told apart by it |
| SortedAbsence.BigEndianIsNumeral | verify/merkle.py:29-39 | the size goes in as eight bytes, most significant first, for exactly the sizes below 2^64 |
| SortedAbsence.ProveAbsence | verify/merkle.py:120-149 | the binary search finds the gap the target belongs in, the proof holds its two neighbours, and a present target raises |
| SortedAbsence.VerifyAbsence | verify/merkle.py:152-205 | the verifier's branches, with the loop run on each entry consulted, decide accept, reject or overflow |
| SortedAbsence.EntrySound | verify/merkle.py:114-117 | an entry that passes against a published root carries the true size, leaf and path, or a collision |
| SortedAbsence.EntryComplete | verify/merkle.py:114-117 | the true entry passes |
| SortedAbsence.AbsenceSound | verify/merkle.py:152-205 | whatever proof is accepted against the root of a set, the target is not in the set, or the audit exhibits a collision |
| SortedAbsence.AbsenceComplete | verify/merkle.py:120-205 | below 2^64 leaves the prover refuses exactly members, and its proof for anyone else is accepted: before the first, after the last, between two, or over no leaves |
| SortedAbsence.RaisesExactlyWhen | verify/merkle.py:152-205 | the verifier raises if and only if the claimed size overflows eight bytes and a consulted entry has an index in that tree and a path of that index's length |
| SortedAbsence.RaisingProof | verify/merkle.py:152-205 | one well-typed proof that makes it raise, for every hash, target and root |
| SortedAbsence.MthBinding | verify/merkle.py:58-67 | leaf lists of one length with one tree hash are equal, or a collision is exhibited |
| SortedAbsence.RootBinding | verify/merkle.py:87-89 | a published root names one set of refs, or a collision is exhibited |
| Slicer.AssignSlices | engine/slicer.py:25-64 | sorting, running counts and the scatter in place give the slice at position p of the order to the subject at p; ValueError exactly for fewer than one slice |
| Slicer.Scatter | engine/slicer.py:57-63 | floor bucketing scattered back through the permutation |
| Slicer.BeforeBalanced | engine/slicer.py:54-60 | the records before slice j number j/n of the total, up to one subject's records, on both sides |
| Slicer.PackingBound | engine/slicer.py:54-64 | for every slice, empty ones included, n times its records differ from the total by less than n times the largest subject |
| Slicer.SlicesFollowChurn | engine/slicer.py:52-64 | slice indices lie in range, never decrease with churn, and for equal churn never decrease along the identifiers, first differing code point and proper prefixes first |
| Slicer.FirstSliceOccupied | engine/slicer.py:57-60 | slice 0 has a subject if and only if the first subject in order owns few enough records |
| Slicer.FirstSliceCanBeEmpty | engine/slicer.py:57-60 | a lone subject with two records leaves slice 0 of five empty |
| Corpus.ShardOf | engine/sharder.py:26-33 | every subject gets the shard congruent to its hash among the hot or the cold ones, a hot one exactly when its churn reaches the threshold |
| Corpus.Build | engine/train.py:50-106 | shard by shard slicing, shard files and routing as the partition functions say; refused exactly for no rows, bad shard counts or no slices |
| Corpus.AssignAllSlices | engine/train.py:86-90 | after the loop every shard's subjects hold the slices `assign_slices` gave them, later shards overwriting none |
| CorpusTheorems.PartKeepsOrder | engine/train.py:94-99 | shard file k is the ascending list of the raw rows of its subjects, all of them, each once |
| CorpusTheorems.PartitionConserves | engine/train.py:94-99 | the shard files together hold as many rows as the corpus |
| CorpusTheorems.SubjectStaysTogether | engine/train.py:86-99 | all rows of a subject lie in one shard file and one slice |
| CorpusTheorems.BuildRouted | engine/train.py:92-105 | routing agrees with every row on disk if and only if subjects sharing a pseudonym share shard and slice |
| CorpusTheorems.BuildNotStale | engine/train.py:101-105 | every routed subject has rows in the shard it is routed to |
| CorpusTheorems.ShardSlicesBalanced | engine/train.py:86-99 | the packing bound for the rows actually stored per slice of every shard file |
| CorpusTheorems.PurgeIsAbsence | engine/rebuild.py:39-48 | purging a shard file gives the file of a corpus that never held the purged rows |
| CorpusTheorems.ForestStartsHealthy | engine/gbdt.py:184-197 | a deployment partitioned from raw rows with one booster per routed shard satisfies the invariant |
| CorpusTheorems.ForestStaysExact | engine/gbdt.py:184-278 | from raw rows through partition and training to overlapping batches of any workers: where each batch of a shard read rows and booster that one batch wrote, the booster is the clean retrain of the rows whenever those in place are one batch's |
| CorpusTheorems.NetworkForgets | engine/train.py:135-194 | two corpora that differ in some subjects' rows, partitioned, trained and given the same batches: every batch ends the same way on both, and once each of those subjects was in a completed batch, everything stored is identical |
| Erasure.AdmitBatch | engine/rebuild.py:61-75 | the checks before any write: no subjects, unknown ref, several shards, else the shard and the earliest slice |
| Erasure.UpToMembers | engine/gbdt.py:96-99 | slice i sees exactly the rows of slices 0 to i |
| Erasure.UpToSifts | engine/gbdt.py:96-99 | what slice i sees are those rows in file order, with every repetition |
| Erasure.RetainSifts | engine/rebuild.py:46-48 | so are the rows a purge keeps: everyone else's, in place |
| Erasure.UpToLast | engine/train.py:177 | the last slice trains on every row of the shard file |
| Erasure.PurgedSlices | engine/rebuild.py:70-75 | the batch's minimum slice lies at or before every row it purges |
| Erasure.RetainTwice | engine/rebuild.py:83-88 | purging in steps is purging at once |
| Erasure.PopAllSpec | engine/rebuild.py:131-133 | popping the routes of known refs succeeds if and only if none repeats, and then removes exactly those |
| Erasure.RoutedAfter | engine/rebuild.py:83-133 | purging a batch keeps every remaining row routed to its shard and slice, popped or not |
| Erasure.NoStaleAfter | engine/rebuild.py:131-133 | purging and popping leaves no route without rows; purging alone does |
| Erasure.CertifyTrue | engine/rebuild.py:108-125 | certifying a batch succeeds and each certificate names the root of the refs left and is accepted for its own subject |
| Erasure.ConcludeTrue | engine/rebuild.py:104-133 | with distinct refs true manifests and popped routes, with a repeat an exception; either way the cache now holds the tree of the refs left |
| Erasure.IssuedTrue | engine/rebuild.py:104-133 | whatever the shard, table and cache went through, manifests are issued only if they are true of the rows left |
| Erasure.ConcludeBatch | engine/gbdt.py:248-278 | the steps after training on this worker's cache, exceptions and the writes before them included |
| Gbdt.Train | engine/gbdt.py:106-119 | the slice loop computes the recursive training from a slice on; None exactly when resuming without a booster |
| Gbdt.TreesOf | engine/gbdt.py:106-119 | each tree added is one round on all the trees before it and on the rows of its own slice and the slices before, `trees_per_slice` to a slice; the trees given stay |
| Gbdt.StagePrefix | engine/gbdt.py:122-131 | truncating a clean booster at a slice boundary gives the booster as that slice began |
| Gbdt.StageIgnores | engine/gbdt.py:96-99 | the trees of earlier slices do not depend on subjects of later ones |
| Gbdt.LastTreesSeeAll | engine/gbdt.py:96-119 | the last slice's trees of a clean booster are boosted on every row of the shard |
| Gbdt.RebuildIsClean | engine/gbdt.py:134-154 | truncating and boosting on over the retained rows gives the booster that never saw the purged ones |
| Gbdt.RebuildBatchByRef | engine/gbdt.py:200-296 | the method's effect on files and cache and its outcome, every exception and the writes before it |
| Gbdt.RebuildRaises | engine/gbdt.py:215-238 | which batches write nothing and with which error: refused, a file missing, none of its subjects in the shard; every other one saves the purged rows |
| Gbdt.RebuildKeepsExact | engine/gbdt.py:200-278 | whatever the refs, the cache and the errors, stored boosters stay clean retrains of what is on disk |
| Gbdt.RebuildKeepsRoutes | engine/gbdt.py:276-278 | the table loses the whole batch if it completes, and nothing otherwise |
| Gbdt.RebuildOutcomeAt | engine/gbdt.py:214-296 | where its own shard is tight, an admitted batch purges exactly its subjects and caches the tree of the refs left; with distinct refs it completes with true manifests, with a repeat it raises KeyError after writing |
| Gbdt.TightAfter | engine/gbdt.py:214-278 | the shard stays tight if and only if the refs are distinct, and no other shard is affected |
| Gbdt.RebuildOutcome | engine/gbdt.py:214-296 | on a healthy deployment routing stays tight and the batch completes if and only if its refs are distinct |
| Gbdt.SubjectRequestedTwice | engine/gbdt.py:276-278 | a built deployment of two subjects and a batch with one of them twice: KeyError, its rows and trees gone, its route kept |
| Gbdt.DoneManifestsTrue | engine/gbdt.py:251-274 | from any files and any valid cache, a batch that completes issues manifests true of the files it leaves and of the stored booster, and counts the rows that went, or the fingerprint collides |
| Gbdt.RunExact | engine/gbdt.py:200-278 | along every run of batches one after another, whatever they ask for and however they end, every stored booster is the clean retrain of its shard file |
| Gbdt.RunHealthy | engine/gbdt.py:200-278 | along runs of distinct-ref batches without fingerprint clashes, one after another, routing and shard files agree |
| Gbdt.RunManifestsTrue | engine/gbdt.py:251-274 | every manifest of every batch of every run, failed batches and stale routes before it included, is true of the files then, or the fingerprint collides |
| Gbdt.RunRefusedOrDone | engine/gbdt.py:214-296 | after a run of distinct-ref batches the next one is refused untouched or completes |
| Gbdt.Build | engine/gbdt.py:184-197 | the initial build gives every routed shard its clean booster and touches nothing else |
| Gbdt.BuildHealthy | engine/gbdt.py:184-197 | a built deployment satisfies the invariant |
| Mlp.TrainShard | engine/train.py:140-194 | fit, then one checkpoint per slice with the optimiser carried along; nothing written when slice 0 is empty |
| Mlp.RetrainFollows | engine/train.py:158-194 | the checkpoints follow from the weights handed over, or fresh ones, with a fresh optimiser, each slice trained on from the one before with the preprocessor fitted on slice 0 |
| Mlp.LastSliceSeesAll | engine/train.py:174-193 | the last checkpoint is written after training on every row of the shard |
| Mlp.PurgeAllSpec | engine/rebuild.py:83-88 | purging one by one succeeds if and only if the refs are distinct and all have rows |
| Mlp.RebuildBatchByRef | engine/rebuild.py:51-150 | the method's effect on files and cache and its outcome, every exception and the writes before it |
| MlpTheorems.RebuildOutcome | engine/rebuild.py:61-135 | a healthy deployment stays healthy if and only if the batch repeats a ref or leaves slice 0 a row; each outcome identified, manifests true |
| MlpTheorems.LastOfSliceZero | engine/train.py:135-160 | a deployment of one subject in slice 0: erasing it raises after the emptied file is saved, and every later request for it is refused |
| MlpTheorems.RebuildRaises | engine/rebuild.py:61-99 | a batch that does not train: which error, and whether the purged file was saved before it |
| MlpTheorems.RebuildResumes | engine/rebuild.py:77-99 | a batch that trains leaves the preprocessor of the retained slice 0 and checkpoints that follow from the stored one before its minimum slice, or from fresh weights; earlier checkpoints and other shards stay |
| MlpTheorems.RunHealthy | engine/rebuild.py:51-135 | along runs whose distinct-ref batches leave slice 0 a row and meet no fingerprint clash, one after another, routing, files and checkpoints agree, and the run completes if and only if every batch was admissible and distinct |
| MlpTheorems.DoneManifestsTrue | engine/rebuild.py:104-125 | from any files and any valid cache, a batch that completes issues manifests true of the files it leaves and of the stored weights, and counts the rows that went, or the fingerprint collides |
| MlpTheorems.RunManifestsTrue | engine/rebuild.py:104-125 | every manifest of every batch of every run, failed batches and emptied slices before it included, is true of the files then, or the fingerprint collides |
| MlpTheorems.RunRefusedOrDone | engine/rebuild.py:61-135 | after a run of safe batches the next safe batch is refused untouched or completes |
| MlpTheorems.BootstrappedHealthy | engine/train.py:140-194 | a deployment trained from scratch on agreeing files satisfies the invariant |
| MlpTheorems.SlicesAgree | engine/train.py:174-193 | training from one state over the same visible rows writes the same checkpoints |
| MlpTheorems.StepAlike | engine/rebuild.py:51-135 | one batch on two deployments that differ in pending subjects' rows ends the same way on both, whichever way: same error or same certificates but for the weights, same caches, and if it completes its subjects no longer differ |
| MlpTheorems.RunAlike | engine/rebuild.py:51-135 | the same along whole runs of any batches one after another |
| MlpTheorems.NothingErasedRemains | engine/rebuild.py:75-100 | noninterference: any batches end the same way on both deployments, and once every differing subject was in a completed one, shard files, routing, preprocessors and checkpoints of every slice are identical |
| Overlap.StagesFaithful | engine/gbdt.py:214-240 | what a worker holds of its batch is what each file held when it read that file, table, rows and model one after the other |
| Overlap.ErasureLasts | engine/rebuild.py:77-89 | an erased subject stays off its shard file if and only if no batch that read the file before, with the subject in it, saves it afterwards without erasing it too |
| Overlap.PopLasts | engine/rebuild.py:64-133 | a popped route stays popped if and only if no batch of any shard that read routing.json before publishes it afterwards without popping it too |
| OverlapTheorems.FilesKeptExactly | engine/rebuild.py:77-89 | a shard file holds its first rows less what was purged, at every moment, if and only if every save purges whatever was purged since its read |
| OverlapTheorems.TableKeptExactly | engine/train.py:109-132 | the same for routing.json over all batches of all shards |
| OverlapTheorems.TightWhenSettled | engine/rebuild.py:77-133 | where both hold and no batch is half-way, every routed subject has its rows and every row its route |
| OverlapTheorems.OverlappedManifests | engine/gbdt.py:251-278 | an overlapped batch issues manifests only if true of the rows it wrote, and so of those in the file at any moment if and only if the same subjects have rows there then, or a collision is exhibited |
| OverlapTheorems.ForestBatchIsRun | engine/gbdt.py:200-278 | a boosted-tree batch alone is such a run of reads and writes, cut short after the save if it raises there |
| OverlapTheorems.NetworkBatchIsRun | engine/rebuild.py:51-135 | so is a network batch, as far as shard file and table go |
| OverlapTheorems.ErasureUndone | engine/rebuild.py:64-133 | two workers on one shard: the first batch completes, and its subject's row and route are back after the second |
| OverlapTheorems.RouteReturns | engine/rebuild.py:64-133 | two workers on two shards that both keep a subject in slice 0: both files lose the row asked for, and a popped route is back without any |
| Boosting.CleanIsGrown | engine/gbdt.py:96-119 | a clean retrain is decided by what each slice's trees see of the rows |
| Boosting.ResumeGrows | engine/gbdt.py:122-154 | rolling back and boosting on, from whatever booster over whatever rows, keeps what the earlier slices' trees saw and shows the later ones the retained rows |
| Boosting.SameUnderAll | engine/gbdt.py:106-119 | two such histories give one booster under every round function if and only if they are the same, or no trees are grown |
| OverlapModels.PairedAfter | engine/gbdt.py:238-239 | once a batch has written both files they are its own if and only if no other batch wrote rows between its two writes |
| OverlapModels.PairsAreExact | engine/gbdt.py:230-239 | where every batch of a shard read two files of one batch, its booster is the clean retrain of the rows its batch wrote, and of the rows in place whenever the two are a pair |
| OverlapModels.UndisturbedExact | engine/gbdt.py:230-239 | batches that others do not disturb between their reads or between their writes, overlapping otherwise, each leave the clean retrain of the rows in the file, resurrected ones included |
| OverlapModels.RunGrows | engine/gbdt.py:200-278 | along any overlap every stored booster is what grows from what its trees saw |
| OverlapModels.BoostersExactly | engine/gbdt.py:200-278 | at every moment of any overlap: the booster is the clean retrain of its file if and only if what its trees saw grows the same trees as the file, and is so for every round function if and only if its trees saw, slice by slice, the rows in the file |
| OverlapModels.TornReadShows | engine/gbdt.py:230-239 | a whole batch between another's two reads: the first slice's trees never saw a row that is back in the file |
| OverlapModels.TornWriteShows | engine/gbdt.py:230-239 | a batch's writes between another's two writes: an erased row gone from the file is in every tree |
| OverlapModels.ReadMidWriteShows | engine/gbdt.py:230-239 | a batch's reads between another's two writes: both erased rows gone from the file, one of them in the first slice's trees |
| EvalSet.AverageTies | data/eval_set.py:52-55 | one turn of the tie loop gives each tied row the group's averaged rank and changes no other |
| EvalSet.AveragedRanks | data/eval_set.py:48-55 | after the loop every row's rank is the number below it plus half of one more than the number equal |
| EvalSet.RankSumIdentity | data/eval_set.py:56-58 | the positives' rank sum exceeds its minimum by wins plus half the ties over all pairs |
| EvalSet.AucIsCount | data/eval_set.py:36-58 | times the number of (positive, negative) row pairs the statistic is the number won plus half of those drawn; one half without such a pair |
| EvalSet.PerfectScore | data/eval_set.py:36-58 | it lies between 0 and 1 and is 1 exactly when every positive scores above every negative |
| EvalSet.LabelsExchanged | data/eval_set.py:36-58 | exchanging the labels gives what is missing to 1 |
| EvalSet.Auc | data/eval_set.py:36-58 | the sorted, tie-averaged rank computation returns that statistic: pairs won plus half of those drawn over all pairs, between 0 and 1, one half if a class is absent |
| EvalSet.RowOrderIrrelevant | data/eval_set.py:36-58 | permuting the rows does not change it |
| JobQueue.Table.InsertOrGet | gateway/idempotency.py:19-42 | a new key adds one queued job with what was requested, a used key returns the id of the only job with that principal and key |
| JobQueue.Table.ReapExpiredLeases | worker/queue.py:15-20 | exactly the processing jobs whose lease is over are requeued and counted |
| JobQueue.Table.ClaimBatch | worker/queue.py:23-53 | as many unlocked queued jobs as allowed are leased, none left behind with a lower shard, or the same shard and an earlier deadline, than one taken, each returned once, sorted by shard |
| JobQueue.RunSane | db/schema.sql:33-60 | in every reachable table lease fields are set exactly while processing, attempts count the claims, and principal and key identify a job |
| JobQueue.JobsPersist | gateway/idempotency.py:19-42 | jobs are never dropped and what was requested never changes |
| JobQueue.ReplayFindsOriginal | gateway/idempotency.py:19-42 | a replay, however much later, finds the job its key first created and adds none |
| JobQueue.RequeuedBetweenClaims | worker/queue.py:15-45 | two claims of one job have a requeue between them that ran after the first lease ended, so leases on a job never overlap |
| JobQueue.OverForGood | worker/jobs.py:177-181 | a finished job is never requeued or claimed again |
| Worker.SortKeepsRefs | worker/jobs.py:143-146 | sorting by shard keeps each shard's refs in order |
| Worker.RefsInOrder | worker/jobs.py:146-148 | the refs of a group are those of its shard's claims, each once and in the order claimed |
| Worker.Ledger.ProcessClaimed | worker/jobs.py:140-202 | one rebuild per distinct shard with exactly that shard's refs; every job ends done with its own manifest, or failed with none if the rebuild raised or could not be booked, and nothing else changes |
| Worker.Ledger.RunOnce | worker/main.py:23-39 | reap, claim, process: every job taken ends finished, with a manifest exactly if done and one more attempt; all others are as the reaper left them |
| WorkerTheorems.ForestCertifies | engine/gbdt.py:251-266 | a result holds a manifest for every ref asked for |
| WorkerTheorems.RepliesTrue | worker/jobs.py:140-168 | whatever state the deployment was in and whatever the other groups did, every result holds manifests true of the file its call leaves, or the fingerprint collides |
| WorkerTheorems.GroupOutcome | worker/jobs.py:146-160 | where its shard is tight a group is done if and only if no subject is asked for twice; its rows are purged either way, and other shards keep as they are |
| WorkerTheorems.BatchDone | worker/jobs.py:140-181 | in a claimed batch whose shards are tight, exactly the groups without repeats are done, each with manifests true of the file it leaves |
| Promotion.Registry.PromoteArtifact | engine/active.py:60-77 | the live file as it is then is copied under the digest, an existing copy is left alone, and with neither it raises |
| Promotion.Registry.Promote | worker/jobs.py:33-66 | both inserts do nothing on a conflict; a new version carries every other shard forward from the row its query returned |
| Promotion.CopiesStay | engine/active.py:70-77 | no rebuild or promotion changes a copy |
| Promotion.PromotionServes | worker/jobs.py:54-66 | the query can return only the served map with the promoted weights in it if and only if those were served already, or the name is new, the time later than every version's and the row read has the other shards as served; the cases between included |
| Promotion.UndisturbedShows | worker/jobs.py:54-66 | for a promotion that read a row of the newest time: served already, or name new and time later than all |
| Promotion.ReturningWeightsNotServed | worker/jobs.py:61-65 | weights a, then b, then a again: only b can be served |
| Promotion.TwoShardsOneInstant | worker/main.py:32-33 | two promotions of one transaction, on any registry: the query may return the first, and a later promotion that does so serves the second shard's old weights for certain |
| Promotion.StartedEarlier | db/schema.sql:93-98 | a version of an earlier time than one on record changes nothing the query may return |
| Promotion.NotSeen | worker/jobs.py:54-66 | two transactions that do not see each other's version: the other shard's old weights are carried forward |
| Promotion.OverwrittenBeforeCopy | engine/active.py:70-77 | two rebuilds of one shard before the first is promoted: the copy under the first digest holds the second model |
| Promotion.Registry.Bootstrap | scripts/load_routing.py:41-60 | every shard's live model is copied and recorded, once per digest, and `v0-baseline` names them all |
| Promotion.StepServes | worker/jobs.py:33-66 | one promotion keeps every shard's latest weights the only ones served, from true copies under their own names, if and only if it shows, copies a file of its digest, and the digest is not another shard's |
| Promotion.RunServesLatest | worker/jobs.py:33-66 | from any registry in order and along any run of rebuilds and promotions, of whatever times and rows read, the query can return only each shard's latest promoted weights at every moment if and only if every promotion met that condition |
| Promotion.PathsAreCopies | worker/jobs.py:81-83 | the query behind serving returns each shard's own copy if and only if every digest was recorded for its shard |
| Promotion.LatestIsLoaded | gateway/routes/predict.py:32-48 | after such a run, whichever row the query returns, the gateway scores with a file for every promoted shard and no other, of the digest last promoted for it, or the file it had at the start |
| Bootstrap.BootstrapServes | scripts/load_routing.py:41-60 | the bootstrap serves every shard's model, each under its own name if and only if no two digests are equal |
| Bootstrap.DeploymentLoadsLatest | scripts/load_routing.py:41-62 | a deployment's whole life from the bootstrap on: the gateway scores, every shard from a file of the digest last promoted for it or of its first model |
| Bootstrap.SharedBaseline | gateway/routes/predict.py:41-47 | two shards bootstrapped with models of one digest: the later one has no path, and every prediction is answered 503 |
| Bootstrap.TakesOverDigest | worker/jobs.py:48-53 | a rebuild that arrives at any other shard's first model: its own shard has no path, and every prediction is answered 503 |
| Bootstrap.FirstBatchOfTwo | worker/main.py:32-33 | after the bootstrap, one claimed batch with jobs on two shards: the query may return the version that still has the second shard's first model |
| Promotion.StepKeepsCurrent | inference/batched_ensemble.py:147-173 | no rebuild or promotion makes a cached ensemble differ from a cold load |
| Promotion.AnswersAreCold | inference/batched_ensemble.py:147-173 | along any interleaving of queries, rebuilds and promotions every answer is what the files hold for each shard at that moment, in shard order |
| Promotion.ReadAll | inference/batched_ensemble.py:163-167 | one booster for each shard with a path, in ascending shard order, each what its file holds |
| Promotion.EnsembleCache.Load | inference/batched_ensemble.py:147-173 | hit or miss, those boosters, as a cold load would read them; an error exactly for no shards |

## Left out

- Gbdt.Boost: a round is an uninterpreted function; XGBoost's numerics, its behaviour on a shard without rows and the effect of library versions are not modelled, truncation is exact and save and load are the identity.
- Mlp.TrainShard: fitting and training a slice are uninterpreted functions; epochs, batches, seeds and floating point are inside them, and the slice loop carries weights and optimiser only.
- EvalSet.Auc: scores are exact reals, so NaN and the rounding of ranks and quotients are not modelled.
- Slicer.AssignSlices: record counts are unbounded integers, not int64, and record counts are positive as `build` provides them.
- Corpus.Build: churn scores, the keyed pseudonym and the stable hash are parameters; `last_step`, the tenant and `record_count` fields of a route and generated corpora are not modelled.
- SparseProof.VerifyAbsence: proofs are well typed with decoded bytes; hex parsing, integer-valued strings as depths and malformed JSON are not modelled.
- SortedAbsence.VerifyAbsence: likewise well typed; booleans as sizes and non-string roots are not modelled.
- Erasure.ConcludeBatch: manifests without their constants, timestamps, model version string and Ed25519 signature, and without canonical JSON.
- Gbdt.RunHealthy: batches run one after another, as in the other run theorems of `Gbdt` and `MlpTheorems`; what overlapping batches keep and lose is in `OverlapTheorems`.
- MlpTheorems.RunHealthy: likewise.
- MlpTheorems.RunAlike: likewise.
- Gbdt.RunManifestsTrue: likewise; what an overlapped batch's manifests promise is `OverlapTheorems.OverlappedManifests`.
- MlpTheorems.RunManifestsTrue: likewise.
- CorpusTheorems.NetworkForgets: likewise, as it rests on the next one.
- MlpTheorems.NothingErasedRemains: likewise; `Overlap` follows the network's shard files and routing table, not its weights. That a rebuild equals a clean retrain is not claimed for the network, because the optimiser state is dropped at the resume point.
- Overlap.StagesFaithful: reading or writing one file is one step; a file read while it is being written is not modelled.
- Worker.Ledger.RunOnce: other workers' statements between the claim and the end of processing are not interleaved here; runs of single statements are in `JobQueue`.
- Worker.Ledger.ProcessClaimed: whether a result is booked is decided before the first manifest is inserted; an exception between the inserts of one group, Postgres's behaviour in an aborted transaction and the spot check are not modelled.
- JobQueue.Table.ClaimBatch: one statement is one step; rows held by other transactions are a parameter, and a worker that finishes after its lease ended appears only as a late Finished step.
- Promotion.RunServesLatest: the digest of a model is that of its file's bytes, as for boosters, whose raw JSON and saved file are taken to be the same; the network's is of the state dict. A version joins the table when it can be seen; what a promotion could not see or what ties its query broke is in the row it read, which may be any.
- Promotion.EnsembleCache.Load: one thread; the lock around the dictionary and the network's ensemble cache, which also reads a mutable preprocessor file, are not modelled.
- Crash recovery between file writes and database writes.
- `average_precision` and `precision_at_recall`: array expressions with no loop or shared state.
- The replay digest of the spot check: a second call of the same deterministic function.
- HTTP routes, authentication, the dashboard, ingest, benchmarks and statistical claims about churn, sampling rates and spread.
