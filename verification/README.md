# Verified model of lm_resiliency's checkpointing and detection core

This project models the parts of lm_resiliency whose correctness spans several functions, a loop or
a whole run, and proves what they promise.

* **GEMINI in-memory checkpoints.** Each rank keeps a current and a previous generation of its own
  shard and of its peer's. `GeminiPipeline` is the save, copy, exchange, finalize, rotate, drop and
  flush pipeline of one rank as a function on values, with the theorems about runs; `GeminiManager`
  has the slots as objects, rotated and relabelled in place, each method proved to make exactly the
  pipeline step; `GeminiPair` joins two ranks by a FIFO in each direction; `GeminiFlush` says what a
  flush writes in either setting. `PeerPairing` and `PeerWire` are the rank pairing and the wire
  protocol between peers.
* **Recovery.** `Recovery`, with `RecoveryMode`, is the lock-step search for a step that every rank
  can load, driven by MIN reductions only; `ExactRecovery` is the all-or-none load of one requested
  step; `TrustStatus` is the persisted candidate, verified set and recovery mode.
* **Durable certification.** `DurableStore`, `DurableCertification`, `DurableOutcome`,
  `DurableRefusal`, `DurableCycle`, `DurableCoordinator` and `ReplayShapes` are a crash-restart state
  machine over record files, PENDING and LATEST. A crash may fall between any two file operations.
* **Structure codec.** `StateDict`, `DiskFormat` and `CheckpointCodec` take tensors out of nested
  state dicts, print and parse the skeleton, and put the tensors back.
* **Consensus and signatures.** `Words` and `Signature` are the salted XOR fold modulo 2^64;
  `Consensus`, `ConsensusDetection` and `ConsensusVerdict` are the verdict rule over exact and
  statistical evidence.
* **Combinatorial algorithms.** `Coverage`, `MoeRegimes` and `MoeDiscovery` group profiled
  shapes and select replay representatives; `FabricGraph`, `FabricLeast` and `FabricRouting` are
  breadth-first routing; `CommunicationLocalizer` and `SwitchLocalizer`, with `Streak`, are the two
  localizers; `AllToAll` and `AllToAllPayload`, with `CyclicSums`, are the replayed traffic.
  `Prelude`, `Sorting` and `LexOrder` hold shared vocabulary.

Results of collectives, of the framework, of loading a file and of a copy or an exchange are
parameters, so every theorem holds for all of them. Digests and identifiers are taken as injective,
file replacement as atomic, JSON and base64 as lossless. Arithmetic on evidence and latencies is
over the reals.

Where the code does not do what its documentation, its comments or a caller would expect, there is a
concrete counterexample and the exact condition under which it does:

* The previous own and peer generations do not stay aligned when a save starts with a failure
  outstanding, because a cleared replication source counts as success
  (`StaleFailureBreaksAlignment`, `AlignmentTheorem`).
* A peer shard without tensors is flushed with the local layout entries
  (`EmptyPeerLayoutIsReplaced`, `FlushTheorem`).
* A commit whose last file operation raises leaves a candidate that the next check rejects, and so
  overwrites the record LATEST names (`FailedCommitTheorem`).
* A rejection whose file operation raises leaves the refused candidate pending, and later clean checks
  commit it (`FailedRejectTheorem`, `RefusedTheorem`).
* The comment in `c3.py` calls the per-level salt odd; it is even at every odd-numbered level, and
  from 1025 words on some single-bit changes are invisible (`OddLevelsLose`,
  `LargeTensorsMissAFlip`, `Signature.DetectionTheorem`).
* `find_latest` can name a step that `load` does not recover (`FindDiffersFromLoad`,
  `FindMatchesLoad`).
* The verified pointer may be neither -1 nor verified after a verified boundary at step 0
  (`ZeroStepPointer`, `PointerTheorem`).
* Statistical consensus can miss a lone outlier among two, three or four peers, at the default
  threshold among two or three (`SingleOutlierTheorem`, `DefaultNeedsFourPeers`).
* Role coverage does not chain with negative counts (`NegativeCountsDoNotChain`,
  `ChainsIffNonNegative`). This matters only for a direct call of the selection: discovery never puts
  such a fingerprint into a group with another shape (`SharedGroup`, `Discover`).
* The route check of the all-to-all replay sees every wrong route only up to nine ranks, and less
  for short segments of truth values (`DistinguishesUpToNine`, `TruthValuesHideARoute`,
  `MisrouteTheorem`).

`dafny verify dfyconfig.toml` checks the whole project.

## Model

| member | source | states |
|---|---|---|
| GeminiPipeline.AlignmentTheorem | lm_resiliency/checkpointing/manager.py:410-457 | over every run of saves, copy completions, waits, finalizes and flushes with any copy and exchange outcomes, own_previous and peer_previous are READY at one positive step or both empty at every point, if and only if no save starts with a failure outstanding: a save that raised while preparing, a wait that raised, or a finalize or flush that raised or whose exchange was not taken, with no save having prepared since |
| GeminiPipeline.OutstandingIsStale | lm_resiliency/checkpointing/manager.py:427-428 | a failure is outstanding after an event exactly when the next finalize would take the cleared-source shortcut over a misaligned current pair |
| GeminiPipeline.StaleFailureBreaksAlignment | lm_resiliency/checkpointing/manager.py:427-428 | the documented promise fails on a concrete run: failed finalize outside the save path, then a save, leaves a READY own_previous without its replica |
| GeminiPipeline.StepAlignment | lm_resiliency/checkpointing/manager.py:1274-1289 | one event keeps the previous pair aligned exactly when it is not a save after a stale failure |
| GeminiPipeline.StepInv | lm_resiliency/checkpointing/manager.py:1252-1325 | every event keeps the pipeline invariant, and only a save changes the previous pair |
| GeminiPipeline.SuccessProtects | lm_resiliency/checkpointing/manager.py:439-457 | a successful exchange leaves a generation held for both pair members |
| GeminiPipeline.RetentionTheorem | lm_resiliency/checkpointing/manager.py:1274-1289 | from the first successful exchange on, such a generation is held at every point of the run exactly when no save captures over an unbacked current pair |
| GeminiPipeline.ReportedRetentionTheorem | lm_resiliency/checkpointing/manager.py:1274-1289 | from the first successful exchange on, a generation is held at every point exactly when no save captures while the current pair is known to have no replica, where what is known follows from the reported results alone: raises, refusals and the outcome of each finalize |
| GeminiPipeline.SaveIsFinalizeThenSave | lm_resiliency/checkpointing/manager.py:1274-1289 | a save whose exchange succeeds equals a successful finalize followed by that save, whatever that later save is told about the exchange |
| GeminiPipeline.FlushWritesBothMembers | lm_resiliency/checkpointing/manager.py:1118-1143 | a flush in a protected state writes a shard of each pair member for one common positive step however the exchange in flight ends; it raises exactly when joining a failed host copy does |
| GeminiPipeline.SurvivorTheorem | lm_resiliency/checkpointing/manager.py:1118-1143 | from the first successful exchange of a run on, while no save captures over an unbacked current pair, a flush at any point writes a shard of both pair members for one common positive step however the exchange in flight ends; it raises exactly for a failed host copy or launch |
| GeminiPipeline.FinalizeKeepsPair | lm_resiliency/checkpointing/manager.py:410-457 | finalizing loses no protected pair and raises only for a host copy or launch that failed |
| GeminiPipeline.IntervalFlushTheorem | lm_resiliency/checkpointing/manager.py:1337-1359 | after every completed save of every run, replicated or not, a labelled own_previous is a finished copy, so the interval flush, which ignores the slot state, writes no half-copied shard |
| GeminiManager.Manager.FinalizeReplication | lm_resiliency/checkpointing/manager.py:410-457 | the method on slot objects makes exactly the pipeline step, including the shortcut once the source is cleared |
| GeminiManager.Manager.RetireExchange | lm_resiliency/checkpointing/manager.py:439-457 | the peer slot is labelled exactly when the received step is positive and equals the step sent; the source is released either way |
| GeminiManager.Manager.PrepareNextCapture | lm_resiliency/checkpointing/manager.py:1274-1289 | rotate after success, drop the current pair after a failed exchange, raise for a failed copy |
| GeminiManager.Manager.Save | lm_resiliency/checkpointing/manager.py:1252-1272 | the whole save on slot objects is the pipeline save, with its exception outcome |
| GeminiManager.Manager.StartCapture | lm_resiliency/checkpointing/copy.py:38-71 | a copy is refused while one is in flight or when the tensor count differs, and then nothing changes |
| GeminiManager.Manager.CompleteCopy | lm_resiliency/checkpointing/manager.py:1291-1325 | the completion thread labels its slot, clears the receive slot and launches the exchange, or stores its error |
| GeminiManager.Manager.WaitForCompletionWorker | lm_resiliency/checkpointing/manager.py:1327-1335 | joins the completion thread and reports its stored error once |
| GeminiManager.Manager.FlushSlots | lm_resiliency/checkpointing/manager.py:1118-1154 | the files written are exactly those of the slots READY at a positive step when the flush ends, own slots always and peer slots when replicated, each with its tensors and slot metadata |
| GeminiManager.BufferPool.Rotate | lm_resiliency/checkpointing/buffer.py:116-131 | current and previous change places on the own side and, with four slots, on the peer side; the slot objects stay the same |
| GeminiPair.ContentTheorem | lm_resiliency/checkpointing/manager.py:439-457 | in every run of two paired ranks over lossy FIFOs, every complete own slot labelled s holds a capture of this rank at step s and every complete peer slot labelled s a capture of the peer at step s, across rotations, dropped exchanges and step mismatches |
| GeminiPair.FlushTheorem | lm_resiliency/checkpointing/manager.py:1118-1154 | in every run, every file a flush writes is exactly the file of a capture its owner made at that step: step, tensors and skeleton verbatim, and the captured layout entries unless the capture had none |
| GeminiFlush.CompletenessTheorem | lm_resiliency/checkpointing/manager.py:1118-1143 | in every run of a rank, replicated or not, a flush that does not raise writes a file for an owner and a step exactly when the step is positive and one of that owner's slots ends READY at it, whatever became of the exchange |
| GeminiFlush.PairCompletenessTheorem | lm_resiliency/checkpointing/manager.py:1118-1143 | the same in every run of two paired ranks, for every network outcome |
| GeminiFlush.LandedCaptureTheorem | lm_resiliency/checkpointing/manager.py:1118-1154 | after a capture at a positive step whose host copy lands, on any rank, replicated or not, every flush before the next save that does not raise writes exactly that capture's own file first, however the exchanges ended; with all launches successful none raises |
| GeminiFlush.TwoCapturesTheorem | lm_resiliency/checkpointing/manager.py:1252-1289 | unless the next save finds its exchange failed, the landed capture survives it: every flush up to the save after writes both captures, each under its own step |
| GeminiPair.EmptyPeerLayoutIsReplaced | lm_resiliency/checkpointing/manager.py:1145-1154 | the substitution happens in a run: the peer captures no tensors, the exchange succeeds, and the flush writes the peer shard with the local layout entries |
| DurableCertification.CrashSafetyTheorem | lm_resiliency/checkpointing/durable.py:435-469 | with a crash allowed after any file operation of begin, observe, commit, reject and restart, LATEST is absent or a clean recovery-verified record with complete shape coverage whose own record file still says so |
| DurableCertification.EpochsIncreaseTheorem | lm_resiliency/checkpointing/durable.py:233-252 | over all restarts a later LATEST is the same record or has a strictly larger epoch, and the record file of every checkpoint that ever was LATEST never changes again, even though a failed begin reuses its epoch |
| DurableCertification.SameEventTheorem | lm_resiliency/checkpointing/durable.py:348-400 | in every reachable state all ranks return the same event for any replay results |
| DurableCertification.CommittedTheorem | lm_resiliency/checkpointing/durable.py:348-400 | in every reachable run, whatever number of shapes each check covers, a COMMITTED answer leaves LATEST certified for a rotation of the whole plan, each shape checked once in that order |
| DurableOutcome.ObserveTheorem | lm_resiliency/checkpointing/durable.py:355-400 | in every reachable state and for any replay results, every rank answers REJECTED exactly when no non-empty next stretch of the candidate's rotation was checked cleanly, and as a whole, by every rank: missing evidence, divergence, no shapes, shapes out of order and shapes that differ between ranks all refuse. A refusal leaves LATEST as it was, PENDING gone, the record rejected and no rank with a candidate; otherwise the record gains those checks and is committed exactly when they complete the rotation |
| DurableOutcome.RestartTheorem | lm_resiliency/checkpointing/durable.py:233-252 | a completed restart leaves nothing pending and LATEST as it was; what a crash left pending is rejected on file, or untouched when LATEST already names it |
| DurableOutcome.BeginSettles | lm_resiliency/checkpointing/durable.py:266-346 | a begin leaves a fresh candidate, no shape checked and its rotation starting at the given shape, on file and in PENDING exactly when the save and the manifest update succeeded on all ranks; any other end leaves its record rejected and nothing pending |
| DurableCertification.FailedCommitTheorem | lm_resiliency/checkpointing/durable.py:387-400 | when a file operation of a commit raises and the process lives on, every later check of the still pending candidate refuses it, and the refusal leaves the store sound exactly when LATEST had not been written yet |
| DurableRefusal.RefusedTheorem | lm_resiliency/checkpointing/durable.py:348-410 | in every run, after an observation or a rejection that refuses the pending candidate, cut by a crash at any file operation or not, no later LATEST ever has its id |
| DurableRefusal.FailedRejectTheorem | lm_resiliency/checkpointing/durable.py:402-410 | when a file operation of a rejection raises and the process lives on, one clean check of the remaining shapes commits the refused candidate; it is out of reach exactly when both operations took effect |
| DurableCertification.SameDecision | lm_resiliency/checkpointing/durable.py:375-385 | for any gathered opinions every rank reaches the same verdict and reason |
| DurableCertification.AllPending | lm_resiliency/checkpointing/durable.py:355-385 | under the system invariant either all ranks or none have a pending candidate, so they make the same collective calls |
| DurableCertification.RotationTheorem | lm_resiliency/checkpointing/durable.py:512-519 | the rotation starts at the given shape and lists every plan shape as often as the plan |
| DurableCertification.RotationDistinct | lm_resiliency/checkpointing/durable.py:512-519 | rotating a plan without duplicates gives no duplicates |
| DurableCertification.BeginSafe | lm_resiliency/checkpointing/durable.py:266-346 | every file operation of a begin, successful, failed in the framework write or cut short in the manifest update, keeps the store sound; what it leaves in the files |
| DurableCertification.ObserveSafe | lm_resiliency/checkpointing/durable.py:348-400 | every file operation of an observation keeps the store sound; the candidate is extended, committed or rejected |
| DurableCertification.RestartSafe | lm_resiliency/checkpointing/durable.py:233-252 | retiring a stale PENDING on restart keeps the store sound and leaves LATEST alone |
| DurableStore.PrefixKeeps | lm_resiliency/checkpointing/durable.py:537-559 | a crash after any number of safe operations leaves a sound store that only advanced |
| DurableStore.ManifestStore.Commit | lm_resiliency/checkpointing/durable.py:541-544 | commit performs the record, LATEST and PENDING operations in that order |
| DurableStore.ManifestStore.Reject | lm_resiliency/checkpointing/durable.py:546-548 | reject overwrites the record and removes PENDING, nothing else |
| DurableStore.ManifestStore.NextValidationEpoch | lm_resiliency/checkpointing/durable.py:553-559 | the next epoch is one past the largest epoch on record, and 1 without records |
| DurableCycle.CycleTheorem | lm_resiliency/checkpointing/durable.py:348-400 | a candidate begun at the current shape, from any position and on any rank, answers n-1 clean one-shape checks with PROGRESS and the n-th with COMMITTED, having checked every plan shape once in rotation order |
| DurableCycle.CleanCheckAccepted | lm_resiliency/checkpointing/durable.py:361-391 | a unanimous check of the next expected shape is accepted |
| DurableCoordinator.Coordinator.constructor | lm_resiliency/checkpointing/durable.py:233-252 | restart leaves the files as the restart operations say and starts past every recorded epoch |
| DurableCoordinator.Coordinator.BeginCandidate | lm_resiliency/checkpointing/durable.py:266-346 | begin changes the rank and the files exactly as the protocol step, and names each refusal |
| DurableCoordinator.Coordinator.Observe | lm_resiliency/checkpointing/durable.py:348-400 | one gathered round changes the rank and, on the writer, the files exactly as the protocol step; it answers REJECTED exactly unless this rank checked a non-empty next stretch of the rotation cleanly and every other rank approves the very same shapes, and then no candidate is pending; otherwise the record has one more check for each of those shapes |
| DurableCoordinator.Coordinator.LoadLatestValidated | lm_resiliency/checkpointing/durable.py:412-433 | only a trusted, complete LATEST is loaded, at exactly its step; on a sound store it succeeds exactly when the framework returns that step |
| ReplayShapes.AdvancedPosition | lm_resiliency/detection/replay_shapes.py:152-156 | from any position, as many advances as shapes visit every position once, in order, and complete one cycle |
| ReplayShapes.Scheduler.Advance | lm_resiliency/detection/replay_shapes.py:152-156 | the position moves on cyclically and the cycle count rises at the wrap |
| ReplayShapes.Scheduler.LoadStateDict | lm_resiliency/detection/replay_shapes.py:165-181 | without a saved rotation nothing changes; one of another plan or outside the plan is refused and changes nothing; any other is restored |
| Signature.DetectionTheorem | lm_resiliency/detection/c3.py:75-146 | changing exactly one 64-bit word with lowest changed bit k changes the tensor signature exactly when k plus the low zero bits of the salts it meets in the right half stays below 64 |
| Signature.SaltZeros | lm_resiliency/detection/c3.py:92-98 | the salt of a level is a multiple of 2^j, for every j up to 64, exactly when the level number plus one is |
| Signature.OddLevelsLose | lm_resiliency/detection/c3.py:81-98 | the salt of a level is even exactly at odd-numbered levels, against the comment in the source |
| Signature.LossFreeSize | lm_resiliency/detection/c3.py:55-101 | no word loses bits exactly when the tensor has at most 1024 words |
| Signature.SmallTensorsAlwaysDetect | lm_resiliency/detection/c3.py:130-146 | in tensors of at most 1024 words every single-word change is detected |
| Signature.LargeTensorsMissAFlip | lm_resiliency/detection/c3.py:130-146 | every larger tensor has a word whose sign bit can flip unseen |
| Signature.FinalizeDetects | lm_resiliency/detection/c3.py:104-115 | changing one value of the chain changes the final signature exactly when the value changes modulo 2^64 |
| Signature.ShapeDetects | lm_resiliency/detection/c3.py:130-146 | changing one entry of the shape changes the tensor signature exactly when the entry changes modulo 2^64 |
| Signature.DtypeDetects | lm_resiliency/detection/c3.py:130-146 | changing the dtype value changes the tensor signature exactly when it changes modulo 2^64 |
| Signature.XorFoldToBlocks | lm_resiliency/detection/c3.py:55-101 | the in-place fold loop computes, for every row, the left-right fold recursion of the row |
| Signature.FinalizeSignature | lm_resiliency/detection/c3.py:104-115 | the XOR-multiply loop computes the chain, reread as a signed 64-bit number |
| Coverage.MinimumCoverTheorem | lm_resiliency/detection/moe_regimes.py:1344-1433 | the tops are no more than the members of any subset of the shapes that covers every shape |
| Coverage.TopsAreAntichain | lm_resiliency/detection/moe_regimes.py:1344-1433 | no top covers another top |
| Coverage.ScanMaximal | lm_resiliency/detection/moe_regimes.py:1351-1385 | the scan with its growing and shrinking list ends with exactly the tops, which cover every shape |
| Coverage.CollectClasses | lm_resiliency/detection/moe_regimes.py:1387-1411 | taking one preferred member per coverage class keeps every member of an antichain |
| Coverage.TopUp | lm_resiliency/detection/moe_regimes.py:1422-1433 | the selection grows to the requested count, each time by the unselected shape farthest from the selected ones, the larger on ties |
| Coverage.GapIsMinimum | lm_resiliency/detection/moe_regimes.py:1423-1431 | the distance used by the top-up is the least distance to a selected position |
| Coverage.SelectRepresentatives | lm_resiliency/detection/moe_regimes.py:1344-1433 | on a preorder the assertion is unreachable, the size is min(#shapes, max(requested, #tops)), and for every shape some chosen shape covers it and, if the shape covers that one too, is the larger of the two or on equal sizes the later one |
| MoeRegimes.SelectCoverageRepresentatives | lm_resiliency/detection/moe_regimes.py:1344-1433 | every shape has a chosen shape with the same fingerprint, or one that has, kernel by kernel, a grid, at least its work, its mapping class and at least its count of every role; without negative role counts the result is the minimum cover topped up to the requested number |
| MoeRegimes.CoversIff | lm_resiliency/detection/moe_regimes.py:1436-1470 | one fingerprint covers another exactly when they are equal, or both are complete with as many kernels and each kernel has a grid, at least the work, the same mapping class and no role less often |
| MoeRegimes.SizeTracksCounts | lm_resiliency/detection/moe_regimes.py:1473-1487 | the size that ranks equivalent shapes moves one for one with every single role count |
| MoeRegimes.CoversTransitive | lm_resiliency/detection/moe_regimes.py:1436-1470 | fingerprint coverage chains when the first fingerprint has no negative role count |
| MoeRegimes.CoverageIsPreorder | lm_resiliency/detection/moe_regimes.py:1436-1470 | coverage of fingerprinted shapes is a preorder when no role count is negative |
| MoeRegimes.NegativeCountsDoNotChain | lm_resiliency/detection/moe_regimes.py:1508-1513 | with a negative count role coverage does not chain |
| MoeRegimes.ChainsIffNonNegative | lm_resiliency/detection/moe_regimes.py:1508-1513 | role coverage chains from a count list exactly when none of its roles counts below zero |
| MoeDiscovery.Discover | lm_resiliency/detection/moe_regimes.py:855-962 | errors exactly for no observations, no requested representative or two fingerprints of one shape; otherwise there is one regime for each grouping key, its representatives are the minimum cover of its shapes topped up to the requested number, and every observation has a chosen shape of its group that replays it: the same fingerprint, or in every kernel at least its work, its mapping class and at least its count of every role |
| MoeDiscovery.SharedGroup | lm_resiliency/detection/moe_regimes.py:1269-1331 | two observations with one grouping key have the same shape and fingerprint, or neither has a role count below zero |
| MoeDiscovery.GroupIff | lm_resiliency/detection/moe_regimes.py:1269-1341 | two observations of one execution class share a group exactly when both are compressible and run the same plan, kernels differing at most in grids, amounts of work and role counts, or neither is and they agree on shape and fingerprint |
| MoeDiscovery.SizeIsDemand | lm_resiliency/detection/moe_regimes.py:1473-1494 | the coverage size of a compressible fingerprint is the number of thread blocks its kernels run |
| MoeDiscovery.GroupIsPreorder | lm_resiliency/detection/moe_regimes.py:1269-1331 | in every discovered group coverage is a preorder |
| Recovery.ConsistentStep | lm_resiliency/checkpointing/manager.py:478-496 | the search terminates with all ranks at the same collective call throughout and returns on every rank the largest positive step below the bound present everywhere, or -1 |
| Recovery.RoundKeeps | lm_resiliency/checkpointing/manager.py:459-496 | one MIN reduction from a common state leads all ranks to one common, still sound state |
| Recovery.LoadLatestValidated | lm_resiliency/checkpointing/manager.py:864-910 | the descending loader returns the newest step that validates on every rank, or nothing when there is none |
| Recovery.ConsistentMemoryStep | lm_resiliency/checkpointing/manager.py:511-517 | a positive step is returned exactly when it is one rank's latest step, no rank's is smaller and every rank holds it; else -1 |
| Recovery.VerifiedDiskStepIff | lm_resiliency/checkpointing/manager.py:552-566 | the verified disk step is positive exactly when every rank's verified step is positive and on its own disk, and then it is the least of them |
| Recovery.RecoverySteps | lm_resiliency/checkpointing/manager.py:519-566 | the two steps recovery starts from: in verified mode the least verified step that is on its disk, else the common memory step and the newest common disk step |
| Recovery.Load | lm_resiliency/checkpointing/manager.py:646-672 | load answers from the two searches and the loader; a memory answer is held by every rank and a disk answer validates on every rank |
| Recovery.FindLatest | lm_resiliency/checkpointing/manager.py:580-597 | find_latest answers the larger of the memory step and the validated disk step of the two searches |
| Recovery.FindMatchesLoad | lm_resiliency/checkpointing/manager.py:580-597 | on every cluster find_latest names the step load recovers if and only if, whenever some step newer than a held memory step is on every disk, some step from the memory step on loads on every rank |
| Recovery.FindDiffersFromLoad | lm_resiliency/checkpointing/manager.py:646-672 | a cluster with memory 8, unloadable disk 10 and loadable disk 5: load recovers 5 while find_latest says 8 |
| Recovery.FindMatchesLoadVerified | lm_resiliency/checkpointing/manager.py:552-566 | in verified mode the two always agree; a step is recovered exactly when the verified disk step is positive and loads on every rank, and it is that step |
| Recovery.LatestOnDisk | lm_resiliency/checkpointing/disk.py:603-606 | the largest step on disk below the bound, or -1 |
| ExactRecovery.ExactRecoveryTheorem | lm_resiliency/checkpointing/manager.py:732-862 | a rank returns a shard of a step and mode exactly when all ranks request that positive step and mode and every rank activates the mode and has the shard; in verified mode the step is verified and on disk everywhere |
| ExactRecovery.AllOrNone | lm_resiliency/checkpointing/manager.py:732-780 | all ranks have the same outcome: the same exception, the same refusal or a shard of one step and mode |
| ExactRecovery.DisagreementRaises | lm_resiliency/checkpointing/manager.py:782-821 | every rank raises exactly when there is no common valid request |
| TrustStatus.SoundTheorem | lm_resiliency/checkpointing/manager.py:961-1034 | over every run with crashes the verified set only grows, a positive pointer is in it, and each verified step and the live candidate had its own and, when replicated, its peer shard written first |
| TrustStatus.PointerTheorem | lm_resiliency/checkpointing/manager.py:961-1034 | over every run with crashes the verified pointer is -1 or verified at every point if and only if no verified boundary completes at step 0 or below -1 |
| TrustStatus.ZeroStepPointer | lm_resiliency/checkpointing/disk.py:163-171 | a verified boundary at step 0 without replication leaves a pointer that is neither -1 nor verified |
| TrustStatus.ProvenanceTheorem | lm_resiliency/checkpointing/manager.py:961-1034 | over every run with crashes a step is verified if and only if it is positive and a verified boundary at it completed, or a cycle boundary completed while it was live; live is said of the events alone: an earlier cycle boundary at the step completed, and since then no boundary, clear, rejection or switch to verified recovery did |
| TrustStatus.CandidateTheorem | lm_resiliency/checkpointing/manager.py:917-1034 | over every run with crashes the positive candidate of the status is exactly the step that is live by the events |
| TrustStatus.RejectedTheorem | lm_resiliency/checkpointing/manager.py:917-946 | after a completed clear, rejection, switch to verified recovery or activation of it, no candidate is left; a step not yet verified then becomes verified only if a later boundary at that very step completes |
| TrustStatus.LastVerifiedTheorem | lm_resiliency/checkpointing/manager.py:1018-1033 | the verified pointer is the step verified last, or -1 before anything was verified |
| TrustStatus.EventEffect | lm_resiliency/checkpointing/manager.py:917-1034 | what one event, complete or cut by a crash, does to the candidate, the pointer with the verified set, and the mode, read off the event: in particular a completed clear, rejection or switch to verified recovery leaves no positive candidate |
| TrustStatus.StatusKeeper.PersistBoundary | lm_resiliency/checkpointing/manager.py:961-1034 | the writes are own shard, peer shard, status; a boundary persists exactly when the exchange completed and every replica is READY, then selects the default mode, its candidate and the pointer its kind asks for; a refusal changes no status |
| TrustStatus.StatusKeeper.SetRecoveryMode | lm_resiliency/checkpointing/manager.py:917-930 | the mode is stored, verified mode sets the candidate to -1 and any other keeps it, and the pointer stays |
| TrustStatus.StatusKeeper.RejectCandidate | lm_resiliency/checkpointing/manager.py:944-946 | no candidate is left and verified recovery is required; the pointer stays |
| TrustStatus.StatusKeeper.ActivateRecoveryMode | lm_resiliency/checkpointing/manager.py:539-550 | the mode is persisted only when it or a live candidate requires it; afterwards it is the mode, without a positive candidate in verified mode |
| TrustStatus.StatusKeeper.Clear | lm_resiliency/checkpointing/manager.py:932-942 | only the candidate is cleared |
| CheckpointCodec.CodecTheorem | lm_resiliency/checkpointing/_disk_format.py:28-133 | for every state dict of plain containers, flatten, encode, decode, path validation and unflatten give back the original, None values next to placeholders included, exactly when it fits the depth and size limits, has str and int keys on tensor paths, no tensor directly in a tuple and at most a million tensors; a result is never wrong |
| CheckpointCodec.MetadataRoundTrip | lm_resiliency/checkpointing/_disk_format.py:63-133 | the encoded metadata of a flattened well-formed dict decodes to itself exactly when every tensor path is assignable |
| CheckpointCodec.PathsValid | lm_resiliency/checkpointing/_disk_format.py:464-494 | all recorded tensor paths validate exactly when no tensor is directly in a tuple |
| CheckpointCodec.FoundDistinct | lm_resiliency/checkpointing/state_dict.py:38-59 | flattening never records one path twice |
| CheckpointCodec.DecodeEntriesLoop | lm_resiliency/checkpointing/_disk_format.py:85-124 | the loop over raw entries computes the entry decoder with its duplicate-path refusal |
| CheckpointCodec.ValidateTensorPath | lm_resiliency/checkpointing/_disk_format.py:464-494 | the walk with a moving cursor computes the recursive path check |
| DiskFormat.ValueRoundTrip | lm_resiliency/checkpointing/_disk_format.py:289-424 | every encoded value decodes to itself |
| DiskFormat.EncodesIffFits | lm_resiliency/checkpointing/_disk_format.py:201-286 | encoding succeeds exactly on values within the depth and size limits that hold no tensor or foreign object |
| StateDict.Flattener.Recurse | lm_resiliency/checkpointing/state_dict.py:38-59 | one recursive call returns the skeleton of its value and appends the value's tensors with their paths, in order |
| StateDict.Unflatten | lm_resiliency/checkpointing/state_dict.py:62-77 | the reinsertion loop computes the fill of the skeleton along all paths, in order |
| StateDict.FillSkeleton | lm_resiliency/checkpointing/state_dict.py:62-91 | unflattening undoes flattening for every well-formed value with no tensor directly in a tuple |
| Consensus.MinorityTheorem | lm_resiliency/detection/c3.py:449-489 | statistical mode flags strictly fewer than half the peers on all evidence exactly for thresholds of at least 1, in all three dispersion branches |
| Consensus.HalfFlaggedBelowOne | lm_resiliency/detection/c3.py:449-464 | values 0 and 1 with a threshold below 1: one of two peers is flagged |
| Consensus.SingleOutlierTheorem | lm_resiliency/detection/c3.py:449-489 | when all peers hold one value except one, statistical mode flags exactly that one if and only if it is, far enough off: the smaller of two at a threshold below 1, one of three below 2, one of four below 4, or one of five or more at any threshold |
| Consensus.OutlierAmongMany | lm_resiliency/detection/c3.py:449-489 | among three or more such peers nobody but the outlier is ever flagged |
| Consensus.DefaultNeedsFourPeers | lm_resiliency/detection/c3.py:424-464 | at the default threshold 3 a lone outlier is flagged exactly among four or more peers and far enough off |
| Consensus.MedianWithinHealthy | lm_resiliency/detection/c3.py:452-454 | with fewer than half the peers corrupted, the median lies between two healthy values |
| Consensus.MedianTheorem | lm_resiliency/detection/c3.py:452-454 | for n peers with c corrupted the median lies in the healthy range on all evidence exactly when 2c < n |
| Consensus.HalfCorruptedMovesMedian | lm_resiliency/detection/c3.py:452-454 | for every n and c with 2c >= n there is evidence on which the median leaves the healthy range |
| Consensus.OrderStatistic | lm_resiliency/detection/c3.py:472-474 | at least k+1 values are at most the k-th smallest and at least N-k are at least it |
| Consensus.MoreThanHalfNear | lm_resiliency/detection/c3.py:472-474 | more than half the values lie within the median absolute deviation of the median |
| ConsensusDetection.MedianExactly | lm_resiliency/detection/c3.py:452-454 | the median is the one value with more than half the values at most it and at least half at least it |
| ConsensusDetection.MadExactly | lm_resiliency/detection/c3.py:472-474 | the median absolute deviation is the one distance from the median that more than half the values keep within and at least half reach |
| ConsensusDetection.DetectionTheorem | lm_resiliency/detection/c3.py:459-477 | any number of outliers: where the median absolute deviation is the scale and more than half the values lie within d of the median, every value farther than threshold times d from it is flagged |
| ConsensusDetection.HealthyMajorityDetects | lm_resiliency/detection/c3.py:452-477 | the same for more than half the values within d of any value c: every value farther than d plus 2d times the threshold from c is flagged |
| ConsensusDetection.FlaggedExactly | lm_resiliency/detection/c3.py:449-489 | in every branch a peer is flagged exactly when it is farther from the median than the threshold times the deviation, else times the interquartile range, else than half the range, each usable from its own bound on |
| ConsensusDetection.MeasuresExist | lm_resiliency/detection/c3.py:449-489 | every peer has such a median, deviation, interquartile range and range, so the flags are determined |
| Consensus.ChoiceCoversMad | lm_resiliency/detection/c3.py:476-489 | from threshold 1 on, the limit of every branch is at least the median absolute deviation |
| Consensus.PercentileIsAt | lm_resiliency/detection/c3.py:492-499 | the percentile is the piecewise linear curve through the sorted values at its position |
| Consensus.PercentileMonotone | lm_resiliency/detection/c3.py:492-499 | the percentile grows with the quantile, so the interquartile range is not negative |
| ConsensusVerdict.ClassifyEvidence | lm_resiliency/detection/c3.py:424-489 | the exact errors; exact mode agrees iff unanimous, attributes iff not unanimous with a strict majority, flags exactly the dissenters, else flags nobody; statistical mode flags a peer exactly when its distance from the median exceeds the threshold times the first usable scale, with median and deviation told by counting how many values lie on either side |
| ConsensusVerdict.ClassifyExact | lm_resiliency/detection/c3.py:437-447 | the counting loops and the majority test give that exact verdict |
| ConsensusVerdict.HealthyMajorityDecides | lm_resiliency/detection/c3.py:437-447 | when fewer than half are corrupted and the rest hold one value, exactly the differing peers are flagged and the verdict is never inconclusive |
| ConsensusVerdict.MostCommon | lm_resiliency/detection/c3.py:438-441 | the chosen value is a most frequent one |
| FabricRouting.ShortestPath | lm_resiliency/detection/ib_topology.py:54-72 | terminates on every switch graph; the result is empty exactly when the destination is unreachable, and otherwise, of all paths of minimum length, the first in dictionary order |
| FabricRouting.ToTopology | lm_resiliency/detection/ib_topology.py:74-85 | for exactly the ordered leaf pairs the recorded spine is the first one on the dictionary-first shortest path between the leaves, none recorded when it has none; the default is the least spine |
| FabricGraph.ShortWalksDiscovered | lm_resiliency/detection/ib_topology.py:58-71 | once everything closer than d is expanded, every walk of at most d links ends at a discovered switch |
| FabricLeast.NewRouteLeast | lm_resiliency/detection/ib_topology.py:58-71 | of all walks of its length to a newly discovered switch, the one through the switch being expanded is first in dictionary order |
| FabricLeast.FirstShortestUnique | lm_resiliency/detection/ib_topology.py:54-72 | two switches have at most one dictionary-first shortest path, so the route found does not depend on the search |
| FabricRouting.BuildPath | lm_resiliency/detection/ib_topology.py:64-69 | following predecessors back and reversing gives the route by which the switch was discovered |
| PeerPairing.PeerIsInvolution | lm_resiliency/checkpointing/replication.py:258-265 | the peer of the peer is the rank itself, and no rank is its own peer |
| PeerPairing.DivisibilityTheorem | lm_resiliency/checkpointing/replication.py:240-247 | the world size is divisible by twice the jump exactly when every rank's peer is in range |
| PeerPairing.CreateGroups | lm_resiliency/checkpointing/replication.py:229-281 | the three errors, and otherwise every rank is in exactly one enumerated group, which joins it with its computed peer; the returned group is this rank's |
| PeerPairing.EachRankInOneGroup | lm_resiliency/checkpointing/replication.py:267-281 | when all segments are enumerated, each rank is in exactly one group, its own pair |
| PeerWire.WireTheorem | lm_resiliency/checkpointing/replication.py:366-394 | for any step, metadata, tensor sizes and chunk size, receiving a transmitted shard rebuilds it and consumes exactly its messages |
| PeerWire.StreamTheorem | lm_resiliency/checkpointing/replication.py:366-394 | successive shards on one FIFO are received one by one, unmixed |
| PeerWire.InterruptedTransferStarves | lm_resiliency/checkpointing/replication.py:380-394 | a proper prefix of a transmission leaves the receiver waiting and never yields a shard or a mismatch |
| PeerWire.ChunksRoundTrip | lm_resiliency/checkpointing/replication.py:373-392 | chunked elements are reassembled for every length and chunk size, the short last chunk and the empty tensor included |
| PeerWire.ChunksAreBounded | lm_resiliency/checkpointing/replication.py:369-378 | every chunk is non-empty and within the bound |
| PeerWire.ChunksAreFewest | lm_resiliency/checkpointing/replication.py:369-378 | one chunk less could not hold the tensor |
| PeerWire.ChunkBytesBounded | lm_resiliency/checkpointing/replication.py:369-378 | a chunk holds the most elements that fit the configured bytes, and at least one |
| PeerWire.BlobRoundTrip | lm_resiliency/checkpointing/replication.py:111-129 | a length-prefixed blob is received whole, the empty one without a second message |
| PeerWire.Channel.SendShard | lm_resiliency/checkpointing/replication.py:366-378 | the send loops put exactly the specified messages on the FIFO |
| PeerWire.Channel.RecvChunks | lm_resiliency/checkpointing/replication.py:383-392 | the receive loop fills a buffer exactly as the chunk specification says, whatever it held |
| PeerWire.ReceiveSlot.Prepare | lm_resiliency/checkpointing/replication.py:143-166 | buffers end with the peer's layout and are kept when they already have it |
| PeerWire.ReceiveSlot.RecvShard | lm_resiliency/checkpointing/replication.py:183-193 | header, reallocation and chunk loops receive exactly what the specification receives, or its fault |
| Streak.StreakIsLongest | lm_resiliency/detection/communication_localizer.py:298-307 | the streak is exactly the number of final rounds that named the last suspect |
| Streak.ConfirmedIff | lm_resiliency/detection/communication_localizer.py:298-307 | the streak reaches the persistence with suspect x exactly when the last that many rounds all named x |
| CommunicationLocalizer.Localizer.Observe | lm_resiliency/detection/communication_localizer.py:173-351 | a missing roster entry fails the round and changes nothing; otherwise the verdict names e exactly when e explains the counted groups, is normal exactly without counted slow groups, ambiguous exactly when some class with enough evidence has a candidate, and confirmed exactly when the last `persistence` completed rounds all localized that endpoint; a localized endpoint is touched by every slow group of its class, of which there is enough evidence, and by no healthy one |
| CommunicationLocalizer.CulpritIsTheOnlyAnswer | lm_resiliency/detection/communication_localizer.py:246-307 | if an endpoint touches every slow group of its class and no healthy one, no other endpoint is localized |
| CommunicationLocalizer.Resources | lm_resiliency/detection/communication_localizer.py:362-381 | the resources of a group are those of its members, and fail exactly when a roster entry is missing |
| CommunicationLocalizer.TouchesIff | lm_resiliency/detection/communication_localizer.py:362-381 | a group touches the resources listed for its members; without a list the ranks themselves, or the non-empty node, HCA or NIC identity the roster gives a member, as its kind asks |
| CommunicationLocalizer.SlowIff | lm_resiliency/detection/communication_localizer.py:186-197 | a group is slow exactly when it failed or took at least the factor times its own baseline, healthy exactly when it did not fail and took at most that |
| CommunicationLocalizer.ReportClass | lm_resiliency/detection/communication_localizer.py:225-285 | one class is insufficient, exactly explained or weighted as its slow and healthy groups say |
| CommunicationLocalizer.CountSupport | lm_resiliency/detection/communication_localizer.py:269-272 | the support map holds for each clean resource exactly the groups that touch it |
| CommunicationLocalizer.Localizer.Partition | lm_resiliency/detection/communication_localizer.py:186-197 | slow groups without a known straggler and healthy groups are exactly those the factors say |
| SwitchLocalizer.SharpnessTheorem | lm_resiliency/detection/switch_localizer.py:199-211 | for n slow and m healthy groups the two thresholds mean "on every slow route and no healthy one" for all routes exactly when one missed slow route and one crossed healthy route are each beyond them |
| SwitchLocalizer.DefaultsSharp | lm_resiliency/detection/switch_localizer.py:108-122 | the default thresholds are sharp exactly below 1000 slow and 10^9 healthy groups |
| SwitchLocalizer.CandidatesExplain | lm_resiliency/detection/switch_localizer.py:199-211 | with sharp thresholds the candidates are the intersection of the slow routes minus the union of the healthy ones |
| SwitchLocalizer.CulpritIsCandidate | lm_resiliency/detection/switch_localizer.py:199-211 | for any thresholds a switch on every slow route and no healthy one is a candidate, so no other can be the only one |
| SwitchLocalizer.HittingSet | lm_resiliency/detection/switch_localizer.py:199-211 | the result is exactly the set of switches that meet both thresholds |
| SwitchLocalizer.SwitchesOnPath | lm_resiliency/detection/switch_localizer.py:85-92 | the route is the members' leaves and the spines between different leaves; it fails exactly when a member is unknown |
| SwitchLocalizer.CrossesIff | lm_resiliency/detection/switch_localizer.py:85-92 | a switch is on the route exactly when it is a member's leaf, or the spine recorded for two members' different leaves, or the default spine while some such pair has none recorded |
| SwitchLocalizer.Partition | lm_resiliency/detection/switch_localizer.py:182-197 | each measurement is kept as often as it occurs: as slow when slow against the fastest of its collective and without straggler, as healthy when not slow |
| SwitchLocalizer.Localizer.Observe | lm_resiliency/detection/switch_localizer.py:124-179 | an unmapped member fails the round and changes nothing; a node in every slow group is reported instead of a switch; otherwise the sole candidate is named and confirmed exactly when the last `persistence` completed rounds all named it |
| AllToAll.BalancedIsRegular | lm_resiliency/detection/all_to_all_replay.py:133-140 | for every group size, sequence and unit count, all row sums and all column sums of the balanced matrix equal the units |
| AllToAll.PermutationIsRegular | lm_resiliency/detection/all_to_all_replay.py:143-150 | all row sums and all column sums of the cyclic permutation equal the units |
| AllToAll.PermutationHasNoSelfTraffic | lm_resiliency/detection/all_to_all_replay.py:143-150 | in a group of more than one no rank sends to itself |
| AllToAll.BalancedRow | lm_resiliency/detection/all_to_all_replay.py:421-431 | the incrementing loop gives one extra unit exactly to the first `remainder` destinations from the start on, wrapping around |
| AllToAll.FirstServedFairly | lm_resiliency/detection/all_to_all_replay.py:133-140 | over as many consecutive sequences as ranks every destination is served first by a source exactly once, and within one sequence by exactly one source |
| AllToAll.OffsetsFairly | lm_resiliency/detection/all_to_all_replay.py:143-150 | over one sequence less than ranks the permutation uses every offset to another rank exactly once |
| AllToAll.Generate | lm_resiliency/detection/all_to_all_replay.py:126-157 | no matrices exactly for an empty group; all generated matrices are regular; the permutation is dropped exactly when it equals the balanced matrix |
| AllToAll.Units | lm_resiliency/detection/all_to_all_replay.py:130 | at least one unit, otherwise the most units that fit the payload bound |
| AllToAllPayload.ExchangeTheorem | lm_resiliency/detection/all_to_all_replay.py:223-278 | for any square matrix a faithful all-to-all of the materialized inputs gives every destination exactly its expected output |
| AllToAllPayload.VolumesMatch | lm_resiliency/detection/all_to_all_replay.py:434-487 | inputs and outputs have the row and column sums as sizes |
| AllToAllPayload.SegmentEquality | lm_resiliency/detection/all_to_all_replay.py:490-508 | two non-empty segments of one size are equal exactly when their seeds agree modulo 97 or, for truth values, both value cycles begin at one parity and neither wraps within the segment |
| AllToAllPayload.MisrouteTheorem | lm_resiliency/detection/all_to_all_replay.py:269-278 | the correctness flag of a destination is true exactly when every non-empty segment came over a route that carries the same segment in that sense |
| AllToAllPayload.DistinguishesUpToNine | lm_resiliency/detection/all_to_all_replay.py:490-508 | all routes of a group carry different segments exactly when it has at most nine ranks and, for truth values, the segments are long enough for parities to tell the seeds of the group apart |
| AllToAllPayload.LongTruthValuesSuffice | lm_resiliency/detection/all_to_all_replay.py:505-507 | 97 truth values are always enough for that |
| AllToAllPayload.TruthValuesHideARoute | lm_resiliency/detection/all_to_all_replay.py:505-507 | among three ranks two routes carry the same truth values exactly in segments of at most 46 |

## Left out

- DurableCoordinator.Coordinator.Observe: a commit or rejection whose file operation raises without a crash is modelled on values, in FailedCommitTheorem and FailedRejectTheorem, not in the class
- GeminiManager.Manager.Save: models the replicated and the disabled four-slot pool, not the two-slot pool of HSDP runs; the interval-flush theorem on values covers runs without replication
- GeminiManager.Manager.CompleteCopy: the copy-and-label block is atomic; streams, pinned memory and threads still running after a timed-out join are not modelled, a timeout is an abandoned exchange
- GeminiPipeline.FlushWritesBothMembers: one call of flush with its files in order; the disk writer behind it, restart destinations and signal handlers are left out
- Recovery.Load: all ranks are taken to have resolved the same recovery mode in the collective load without an exact step
- Recovery.ConsistentMemoryStep: a common memory step below the least of the ranks' latest steps is not found, as in the source
- Recovery.LoadLatestValidated: what loading a shard of a step yields on a rank is fixed during one recovery
- TrustStatus.StatusKeeper.PersistBoundary: the exchange result and the search for READY slots enter as booleans; reading the status from a peer's copy on restart is not modelled
- CheckpointCodec.MetadataRoundTrip: metadata that does not come from flattening a well-formed dict is not considered
- CheckpointCodec.CodecTheorem: numpy arrays, torch.Size and tensors stored inline as skeleton leaves, the 64 MiB text limit, set iteration order, equality of Python keys of different type (True and 1) and negative list indices are not modelled; a byte string is identified with its base64 text
- DiskFormat.ValueRoundTrip: JSON text and float printing are taken as lossless
- PeerWire.WireTheorem: elements are opaque; a message is a unit, so byte-level resynchronisation after a size mismatch is not modelled; an unsupported dtype name counts as a mismatch; the unchunked Gloo backend, NIXL and one-shot transfer are left out
- PeerWire.Channel.RecvChunks: the buffer is a sequence that the loop rewrites, so aliasing of tensor storage is not captured
- PeerPairing.CreateGroups: a process group is the pair of its ranks
- ConsensusVerdict.ClassifyEvidence: evidence values are reals, so rounding, NaN and infinities are not modelled; the echo of the values in the result is dropped
- Signature.DetectionTheorem: one changed word; the view of a tensor as 64-bit words and the signatures of strings and nested structures are left out
- MoeDiscovery.Discover: sampling minimums, expected requests, locations, the recipe limit and the catalog around the regimes are left out; the label, digest and launch checks of compression readiness are a parameter, its counts are modelled
- DurableCoordinator.Coordinator.BeginCandidate: adapters, barriers and I/O timing are parameters or left out, as is a draft or PENDING write that raises without a crash; fsync and temporary files are left out
- DurableCertification.CrashSafetyTheorem: a crash takes every rank down; one rank dying alone is not modelled
- FabricRouting.ShortestPath: switch identifiers are integers in their sort order; parsing of ibnetdiscover output is left out
- CommunicationLocalizer.Localizer.Observe: the ranks, support ratio, ranking and truncation of the candidates in ambiguous verdicts, and the descriptive fields of a verdict, are left out
- SwitchLocalizer.Localizer.Observe: which of several common nodes is reported (the first in string order) and the order of listed candidates are left out, as is the report dictionary
- AllToAllPayload.ExchangeTheorem: values that a narrow float type cannot represent are not modelled; gathering of captures and policy failures are left out
- Layer replay, replay harness, materializers, temporal baselines, cadence, framework adapters, command line and benchmarks: plumbing, or only easier members
