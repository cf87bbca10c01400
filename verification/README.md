# Verified model of the knowledge store's core

A Dafny 4.11 model of the parts of the wiki store that carry its guarantees, with proofs. It is checked with

    dafny verify dfyconfig.toml

A hash is modelled by what it is computed from: a free datatype constructor, so that two hashes are equal only when they were made from the same parts in the same way. That is collision resistance together with the domain prefixes. A signature is modelled by its key and message. Git, SQLite and the file system are maps with atomic steps; clocks, probe results, push failures and the moment at which a process dies are parameters, and every theorem holds for all their values.

Code that changes state step by step is modelled by methods and classes with the same steps, each tied to a specification function; the theorems are about those functions and about all runs.

- **Authenticated trees.** `HistoryTree` has the recursive generator of RFC 6962 roots, audit paths and consistency paths; `InclusionVerifier` the validator's bit-shifting loop and, for comparison, the verifier of RFC 9162; `ConsistencyVerifier` the verifier of section 2.1.4.2 of RFC 9162. Recursive producer and iterative checker are shown to agree exactly, for every size. `SparseMap` is the sparse Merkle map at any depth (the program uses 256), `ClaimSetRoot` and `AcceptedClaims` the sorted tree over a generation's decisions.
- **Publication.** `Publication` is a transition system of any number of publishers that may stop between any two database transactions and readings or writings of Git refs; a publisher that loses the race becomes idle and may begin again, which covers the retry loop. `PublicationSafety` has its invariant, `PublicationTheorems` what the invariant means, `Building` when an attempt gives up before it is registered; `Search` and `Mirror` extend the system by a lagging index and by the mirror's worker. `ControlPlane` and `RemoteMirror` are the program's own objects, tied method by method to the system's steps. `Search` has a query in one state and a query whose statements run among other steps.
- **Generations.** `Snapshot` renders pages, citations and snapshot, with the escaping of `Escaping` and the stable sort of `StableSort`; `Generation` builds and verifies signed commits.
- **Canary.** `CanaryChain`, `CanaryLoader` and `Canary` are the checkpoint files, the loader that finds their chain, and the run that may be killed after any clock reading or disk write; `CanaryCompletion` says what comes of a run and exactly when it completes, with sleeps of any length; `CanaryReport` has the two judges of its report and the job from run to evidence. Clock readings are real milliseconds, stored times whole ones.
- **Deletion.** `Deletion`, `DeletionSafety` and `DeletionRuns` are the phase machine over durable effects and all histories of calls that follow one another; `DeletionInterleaving` lets any number of calls overlap, effect by effect; `LifecyclePipeline` is the object that runs it.
- **Smaller parts.** `Bundle` (builder and importer of evidence bundles, with `SortedListing`), `TokenBucket` (in real arithmetic), `Extraction`.

Where the code and what is written about it differ, the model follows the code:

- The inclusion loop omits the last check of section 2.1.3.2 of RFC 9162 (scripts/validate_encrypted_lifecycle_vectors.py:205-219); `ValidatorVersusRfc` gives the exact difference and `ShortPathMovesTheLeaf` an instance.
- The consistency recursion passes `False` to its left branch, unlike section 2.1.2 of RFC 6962 (scripts/generate_encrypted_lifecycle_vectors.py:169-186); `ConsistencyPathVersusRfc` and `GeneratedPathPassesRfcVerifier` give the exact difference.
- `activate` does not compare a row's parent with the expected one (src/wiki_spike/controlplane.py:369-424); the chain theorems hold for publishers that prepare and activate as the program does, and `ActivationKeepsChainExactly` says what a single activation needs and `AnyParentIsActivated` gives the failing family.
- `verify_manifest` asks for a file outbox/<id>.json and never reads it, nor what the manifest says beside four fields (src/wiki_spike/generation.py:143-201), although its comment says that a tampered commit with a copied manifest fails: `TamperingIsNoticed` is exact, `OutboxIsNotRead` the failing instance, `AcceptedExactly` says what else is free.
- A ref is read first and created later (src/wiki_spike/generation.py:124-126, publish.py:79-81), and a create that comes second fails even for the same commit and is not retried: `BuildingStopsExactly`, `TwoPublishersCollide`.
- Pages are rendered from the text as it came, the snapshot is normalized (src/wiki_spike/generation.py:68-75); `BuiltIsAuthentic` with `RenderOfNorm` gives the exact condition on the text, `UnnormalizedTextFails` the failing family.
- `resume_deletion` compares neither the artifact nor the blob it is given with the deletion's (src/wiki_spike/applications/encrypted_lifecycle_pipeline.py:1992-2043); `ResumeMustNameItsDeletion` gives the exact condition, `WrongKeysAreDestroyed` the damage.
- A phase is written without a look at the row (src/wiki_spike/infrastructure/lifecycle_db.py:960-964), so the "forward-only" machine can go back when two processes drive one deletion: `ForwardExactly` and `OneDriverIsForward` say when it does not, `SlowDriveGoesBack` shows it. What a deletion claims is true all the same (`SchedulesKeep`).
- `activate_artifact` and `restore` check the veto before their transactions and not in them (the pipeline, lines 822-874 and 1946-1990): `VetoIsForever` and `VetoHoldsInSchedules` are about calls that begin after the request, `RequestInBetween` and `RequestBeforeRelease` show the other case, `ActivationFromStart` and `RestorationFromStart` say exactly when such a call succeeds.
- A process that dies in `remember` before both custodians hold the key leaves an artifact whose deletion cannot complete; the completion theorems state this as a condition on custody.
- A canary whose duration is not a multiple of its interval reads the clock for the end right after its last probe, and is refused as shortened unless that probe lasts past the deadline (scripts/run_encrypted_lifecycle_canary_24h.py:619-622); see `RaggedScheduleIsShortened`. The production values divide.
- A canary killed between making its directory and the first checkpoint can never resume (`Run`).
- The odd node of the claim-set tree is paired with itself although the comment says promoted (src/wiki_spike/hashing.py:37); `RootIsExact` says exactly what this costs: the root does not show more copies of the greatest leaf, up to a reach that depends on the length, which for decisions, that never repeat, does not matter (`RootCommitsToClaims`).
- The quote recovery counts occurrences without overlaps (src/wiki_spike/extraction.py:80-88); see `CountOfOne` and `CountMissesOverlaps`.
- The builder of bundles does not check that payloads are canonical documents; see `BuiltIsImportable`.

## Model

| member | source | states |
|---|---|---|
| HistoryTree.ComputeSplit | scripts/generate_encrypted_lifecycle_vectors.py:138-147 | the doubling loop finds the largest power of two below the size, the split of every tree recursion |
| HistoryTree.MerkleRoot | scripts/generate_encrypted_lifecycle_vectors.py:138-151 | the generator's recursion computes the root specified by `Root` |
| HistoryTree.RootOfPairs | scripts/generate_encrypted_lifecycle_vectors.py:138-147 | the tree split from the top and the tree built level by level from the bottom have the same root, for every size |
| HistoryTree.RootIsInjective | scripts/generate_encrypted_lifecycle_vectors.py:130-147 | for one size a root determines every leaf digest |
| HistoryTree.MerkleInclusionProof | scripts/generate_encrypted_lifecycle_vectors.py:154-166 | the generator's recursion computes the audit path specified by `InclusionPath` |
| HistoryTree.InclusionPathByLevel | scripts/generate_encrypted_lifecycle_vectors.py:154-166 | an audit path is, level by level, the neighbours on the way up; a promoted digest adds nothing |
| HistoryTree.MerkleConsistencyProof | scripts/generate_encrypted_lifecycle_vectors.py:169-186 | the generator's nested recursion computes `ConsistencyPath` |
| HistoryTree.ConsistencyPathVersusRfc | scripts/generate_encrypted_lifecycle_vectors.py:169-186 | the generated path is SUBPROOF of section 2.1.2 of RFC 6962, except that for an old size that is a power of two the old root stands in front |
| InclusionVerifier.InclusionRoot | scripts/validate_encrypted_lifecycle_vectors.py:205-219 | the `fn`/`sn` loops compute `Climb`, for every index, size and path, also negative ones |
| InclusionVerifier.InclusionIsExact | scripts/validate_encrypted_lifecycle_vectors.py:205-219 | over a path of the dictated length the loop reaches the root exactly for the leaf at that index with the generated path: completeness and soundness for every size and index |
| InclusionVerifier.SnChecksAreLengthCheck | scripts/validate_encrypted_lifecycle_vectors.py:205-219 | the two checks on `sn` of section 2.1.3.2 of RFC 9162, which the validator omits, say exactly that the path has the dictated length |
| InclusionVerifier.RfcVerifierIsExact | scripts/validate_encrypted_lifecycle_vectors.py:205-219 | the standard's verifier accepts exactly the leaf at the index with the generated path |
| InclusionVerifier.ValidatorVersusRfc | scripts/validate_encrypted_lifecycle_vectors.py:205-219 | the validator reaches the root where the standard does not accept exactly when the length differs |
| InclusionVerifier.ShortPathMovesTheLeaf | scripts/validate_encrypted_lifecycle_vectors.py:205-219 | in every tree of three leaves a path that is one short takes leaf 2 to the root under index 1 |
| InclusionVerifier.AcceptedLeafIsInTheTree | scripts/validate_encrypted_lifecycle_vectors.py:205-219 | without any condition on length, index or size, a leaf that reaches a tree's root is one of its leaves |
| ConsistencyVerifier.ConsistencyIsExact | scripts/generate_encrypted_lifecycle_vectors.py:169-186 | the verifier of section 2.1.4.2 of RFC 9162, seeded with the first path element, rebuilds both roots exactly when the old leaves are the first of the new and the path is the generated one |
| ConsistencyVerifier.RfcProofIsExact | scripts/generate_encrypted_lifecycle_vectors.py:169-186 | the standard's own proofs are exactly what the standard's verifier accepts |
| ConsistencyVerifier.GeneratedPathPassesRfcVerifier | scripts/generate_encrypted_lifecycle_vectors.py:169-186 | a generated path handed to that verifier as it is passes exactly when the old size is not a power of two |
| ConsistencyVerifier.TwoToThree | scripts/validate_encrypted_lifecycle_vectors.py:365-380 | the step from two leaves to three that the validator rebuilds by hand |
| SparseMap.ComputeSubtree | scripts/generate_encrypted_lifecycle_vectors.py:208-220 | the recursion computes the subtree digest; unpacking the single item at full depth cannot fail |
| SparseMap.GenerateProof | scripts/generate_encrypted_lifecycle_vectors.py:223-239 | the generator appends the siblings of the key, topmost first |
| SparseMap.RootFromProof | scripts/validate_encrypted_lifecycle_vectors.py:229-244 | the loop from the last level folds the siblings |
| SparseMap.BitsDetermineKey | scripts/generate_encrypted_lifecycle_vectors.py:200-202 | two keys in range that agree on every bit are equal |
| SparseMap.MapProofIsExact | scripts/validate_encrypted_lifecycle_vectors.py:229-244 | at any depth a sibling list that is long enough folds to the map's root exactly from the key's own bottom digest (leaf, or default when absent) with a list that begins with the generated siblings |
| SparseMap.NoTwoAnswers | scripts/validate_encrypted_lifecycle_vectors.py:392-408 | under one root no key has two values or is both present and absent |
| SparseMap.RootDeterminesMap | scripts/generate_encrypted_lifecycle_vectors.py:208-220 | the root commits to the whole map |
| ClaimSetRoot.MerkleRoot | src/wiki_spike/hashing.py:28-40 | the loops over the sorted leaf hashes compute `SetRoot`, an odd node paired with itself |
| ClaimSetRoot.RootIgnoresOrder | src/wiki_spike/hashing.py:28-40 | the root does not depend on the order of the leaves |
| ClaimSetRoot.RootIsExact | src/wiki_spike/hashing.py:28-40 | two lists have one root exactly when they are permutations, or one is the other with more copies of its greatest leaf, as many as filling up odd levels hides |
| ClaimSetRoot.RootAndLengthCommit | src/wiki_spike/hashing.py:28-40 | for lists of one length equal roots mean equal multisets, and conversely |
| ClaimSetRoot.RootCommitsToSet | src/wiki_spike/hashing.py:28-40 | for lists without repeats, of any two lengths, equal roots mean equal sets, and conversely |
| ClaimSetRoot.RepeatedGreatestIsInvisible | src/wiki_spike/hashing.py:28-40 | every list of odd length above one has the root of the list with its greatest leaf once more |
| ClaimSetRoot.FiveLeavesHideThree | src/wiki_spike/hashing.py:28-40 | five leaves with a single greatest one have the root of the lists with up to three more copies of it, and of no longer one |
| AcceptedClaims.Decisions | src/wiki_spike/publish.py:134-151 | one decision for each surviving claim, with its assertion ids in order |
| AcceptedClaims.RootCommitsToClaims | src/wiki_spike/models.py:136-139 | two generations have the same accepted-claim-set root exactly when they accept the same assertions for the same claims |
| SortedListing.OneListing | src/wiki_spike/publish.py:134-151 | a set has one increasing listing |
| PublicationSafety.ReachableInv | src/wiki_spike/publish.py:86-252 | the invariant of rows, pointer, outbox, tables, search pointer and every publisher's progress holds in every state any interleaving reaches, with crashes anywhere |
| PublicationSafety.ActivateKeepsDb | src/wiki_spike/controlplane.py:357-424 | an activation that is not refused keeps the database invariant and extends the chain by one |
| PublicationTheorems.OnePublished | src/wiki_spike/controlplane.py:402-415 | in every reachable state exactly the pointer's target is published |
| PublicationTheorems.OutboxIsTheChain | src/wiki_spike/controlplane.py:417-421 | in every reachable state the outbox is one parent chain ending in the pointer, with growing sequence numbers, of exactly the activated generations |
| PublicationTheorems.PublishingRefinesReplay | src/wiki_spike/publish.py:101-131 | whatever the interleaving, the current contents are the replay of the activations one after the other |
| PublicationTheorems.AssertionsLeaveOnlyByRevoke | src/wiki_spike/publish.py:112-118 | between consecutive activations an assertion disappears exactly when the later one revokes the claim it then stands for |
| PublicationTheorems.OnlyALostRaceIsRefused | src/wiki_spike/controlplane.py:369-400 | a publisher with everything ready is refused only when the pointer has left the parent it read |
| Building.BuildingStopsExactly | src/wiki_spike/publish.py:121-160 | building gives up exactly when the work changes nothing, the release's ref was made with another previous release, or one of the two refs was made by another publisher between this one's look and its create |
| Building.AnotherReleaseIsALostRace | src/wiki_spike/publish.py:57-84 | another previous release in the ref means that the pointer has left the parent |
| Building.UndisturbedBuildSucceeds | src/wiki_spike/publish.py:121-160 | undisturbed and with the pointer still at the parent, building succeeds exactly unless nothing changes, whatever attempts were broken off before |
| Building.TwoPublishersCollide | src/wiki_spike/generation.py:120-128 | two publishers with the same work both find no ref; the second create fails although the pointer has not moved |
| PublicationTheorems.ActivatedHasReadModels | src/wiki_spike/controlplane.py:384-394 | in every reachable state both read models were marked for every generation that is or was published |
| PublicationTheorems.ActivationKeepsChainExactly | src/wiki_spike/controlplane.py:369-424 | `activate` does not compare the row's parent with the expected one: an activation keeps the pointer's chain exactly when they are equal |
| PublicationTheorems.AnyParentIsActivated | src/wiki_spike/controlplane.py:369-424 | the failing family: any generation with another parent, registered and ready, is activated by a caller who expects the pointer as it is, and the chain breaks |
| ControlPlane.ControlPlane.NextSeq | src/wiki_spike/controlplane.py:176-183 | one more than the greatest number in use |
| ControlPlane.ControlPlane.RegisterGeneration | src/wiki_spike/controlplane.py:167-183 | inserts once, an existing row stays; ties the class to the protocol's step |
| ControlPlane.ControlPlane.SetReadModelsReady | src/wiki_spike/controlplane.py:286-290 | moves a validated row only |
| ControlPlane.ControlPlane.RegisterPrepared | src/wiki_spike/publish.py:162-174 | the row with the next number, both read models, and the move to ready |
| ControlPlane.PreparedBySteps | src/wiki_spike/publish.py:162-174 | the protocol's four steps, with none in between, end in the same tables |
| ControlPlane.ControlPlane.Activate | src/wiki_spike/controlplane.py:357-424 | the transaction: its five refusals change nothing, success supersedes the old target, moves pointer and release and appends one event |
| ControlPlane.ControlPlane.PostPublish | src/wiki_spike/publish.py:254-278 | all rows that follow an activation and last the search pointer |
| ControlPlane.AnyOrderOfWrites | src/wiki_spike/publish.py:254-278 | the protocol's single writes, in any order, end in the same tables as the method |
| ControlPlane.CollectSurvivors | src/wiki_spike/publish.py:111-118 | dictionary building gives the parent overwritten by the new claims, without the revoked ones |
| ControlPlane.ControlPlane.Query | src/wiki_spike/search.py:38-61 | the loop over the index rows computes the answer specified by `Search.Query` |
| Search.HitsAreAccepted | src/wiki_spike/search.py:50-61 | in every reachable state a hit is a matching claim accepted in the current generation, however old the index |
| Search.LagIsBounded | src/wiki_spike/search.py:44-48 | when results are not withheld the index is at most `max_generation_lag` activations behind |
| Search.AnswerIsExact | src/wiki_spike/search.py:50-61 | once the current generation's rows are written the hits are exactly the matching claims of both the indexed and the current generation |
| Search.FreshAnswerIsComplete | src/wiki_spike/search.py:38-61 | with the index at the current generation nothing that matches is missing |
| Search.SlowHitsAreAccepted | src/wiki_spike/search.py:38-61 | with the pointers, the index and each resolution read at different moments of a run, a hit still is a matching claim accepted in the generation the answer calls current |
| Search.SlowAnswerIsExact | src/wiki_spike/search.py:38-61 | and the hits are exactly the matching claims of both reported generations, if the current one's rows were written before the index was read |
| Search.SlowLagIsBounded | src/wiki_spike/search.py:44-48 | and an answer that is not withheld is at most `max_generation_lag` activations behind |
| Mirror.MirrorIsFaithful | src/wiki_spike/mirror.py:42-72 | with one worker, failing pushes and activations interleaved anywhere: a processed event's generation is at the remote, and with no event pending the remote release is the current one |
| RemoteMirror.RemoteMirror.SyncReleaseRef | src/wiki_spike/mirror.py:46-53 | pushes the database's release, if there is one |
| RemoteMirror.RemoteMirror.ProcessOutbox | src/wiki_spike/mirror.py:55-72 | a failing push leaves its event pending; a call that returns has processed all and synchronized the release |
| StableSort.SortForgetsOrder | src/wiki_spike/assembler.py:108-111 | sorting by a key that tells the members apart forgets the order |
| Snapshot.RenderPages | src/wiki_spike/assembler.py:39-54 | the loops compute one line per claim and one page per subject, the last claim of an id counting |
| Snapshot.RenderForgetsOrder | src/wiki_spike/assembler.py:39-54 | when ids tell identities, pages depend only on which claims there are |
| Snapshot.BuildCitationIndex | src/wiki_spike/assembler.py:57-69 | the loop collects every assertion of a claim, in the order of assertion ids |
| Snapshot.CiteOfSort | src/wiki_spike/assembler.py:57-69 | sorting the claims first does not change the citation index, also with equal assertion ids |
| Snapshot.SnapIsWellFormed | src/wiki_spike/assembler.py:89-119 | a snapshot parses exactly when every claim is bound to its own identity |
| Snapshot.SnapRenders | src/wiki_spike/assembler.py:108-119 | rendering and citing the parsed snapshot gives what the normalized claims give |
| Snapshot.RenderOfNorm | src/wiki_spike/assembler.py:39-54 | pages rendered from the text as it came are those of the normalized claims exactly if every subject is normalized, and predicate and object of the last claim of every id |
| Generation.BuildCandidate | src/wiki_spike/generation.py:58-118 | pages, citations, snapshot, descriptor with its engine, id, signature, outbox event and files of a candidate; a missing parent ref and a retention ref that points elsewhere are refused, and no ref ever moves |
| Generation.VerifyManifest | src/wiki_spike/generation.py:143-201 | accepts exactly the authentic commits: signed, no other files, everything but the outbox file as the descriptor says and as follows from the snapshot |
| Generation.BuiltIsAuthentic | src/wiki_spike/generation.py:143-201 | a built commit verifies exactly when its key is known, every claim is bound to its identity, and the text its pages show is normalized |
| Generation.UnnormalizedTextFails | src/wiki_spike/publish.py:47-55 | when ids tell identities, one claim whose subject, predicate or object is not normalized makes a generation that never verifies, so nothing can be published on top of it |
| Generation.AcceptedIsRebuilt | src/wiki_spike/generation.py:154-201 | an accepted commit is, signature included, what the builder makes of the claims in its snapshot exactly when these are sorted and normalized, the engine is the builder's, the outbox file is the builder's event, and no document says more than the builder writes; the verifier asks for none of that |
| Generation.AcceptedIsDetermined | src/wiki_spike/generation.py:154-201 | all files of an accepted commit follow from its id but the outbox file and, in the manifest, the signer and what is not read |
| Generation.TamperingIsNoticed | src/wiki_spike/generation.py:143-201 | with its manifest copied, exactly the commits are accepted that differ in no more than the bytes of the outbox file |
| Generation.AcceptedExactly | src/wiki_spike/generation.py:154-201 | beside one accepted commit of an id exactly those are accepted that differ in the outbox file, the signer and the unread part of the manifest, for known signers |
| Generation.OutboxIsNotRead | src/wiki_spike/generation.py:163-171 | the failing instance: whatever the outbox file is replaced by, the commit is accepted |
| Generation.IdForgetsOrder | src/wiki_spike/generation.py:68-93 | the generation id does not depend on the order of the claims |
| CanaryChain.ProbesAreInOrder | scripts/run_encrypted_lifecycle_canary_24h.py:280-366 | the loop accepts exactly probe lists on schedule, in their slots and in order |
| CanaryChain.LoadCheckpoint | scripts/run_encrypted_lifecycle_canary_24h.py:306-384 | a checkpoint is accepted exactly when it is well formed, sealed, not from the future and, where asked, fresh |
| CanaryLoader.IndexFiles | scripts/run_encrypted_lifecycle_canary_24h.py:420-447 | the first loop succeeds exactly when every file loads under its name and binding and no digest comes twice |
| CanaryLoader.CheckSuccessors | scripts/run_encrypted_lifecycle_canary_24h.py:449-457 | one genesis child, no orphan, no fork |
| CanaryLoader.Walk | scripts/run_encrypted_lifecycle_canary_24h.py:459-484 | the walk ends at the tip of a linked path covering every digest, and otherwise there is no such path; no digest recurs, so it terminates by the unvisited ones |
| CanaryLoader.LoadDurableChain | scripts/run_encrypted_lifecycle_canary_24h.py:407-490 | accepts a directory exactly when its files are one linked path from genesis, each once, with a fresh tip |
| CanaryLoader.OneTip | scripts/run_encrypted_lifecycle_canary_24h.py:459-490 | a bag of checkpoints is the path to at most one tip |
| Canary.SavedIsChain | scripts/run_encrypted_lifecycle_canary_24h.py:546-626 | the files any interrupted and resumed runs leave form a chain |
| Canary.SavedIsAccepted | scripts/run_encrypted_lifecycle_canary_24h.py:407-490 | the loader accepts such files exactly while the clock is not before a file and the tip is fresh |
| Canary.OneMoreProbe | scripts/run_encrypted_lifecycle_canary_24h.py:600-621 | adding a probe in its slot keeps the checkpoint well formed and linked |
| Canary.StateDirectory.WaitForSlot | scripts/run_encrypted_lifecycle_canary_24h.py:513-535 | reads the clock until the first reading that decides, as the function `Waited` says |
| Canary.StateDirectory.Discover | scripts/run_encrypted_lifecycle_canary_24h.py:493-510 | resumes exactly an acceptable, unfinished chain with the next attempt number, and says why otherwise |
| Canary.StateDirectory.TakeProbe | scripts/run_encrypted_lifecycle_canary_24h.py:582-621 | one turn of the schedule, step by step: waits, probes, checks the slot, and saves unless it was the last |
| Canary.StateDirectory.Finish | scripts/run_encrypted_lifecycle_canary_24h.py:622-643 | one more reading, the terminal checkpoint after the deadline, and the report on it |
| Canary.StateDirectory.Run | scripts/run_encrypted_lifecycle_canary_24h.py:538-643 | result, files and steps of a run as a function of files, clock and probes, killed after any step; every run keeps the directory a chain and appends only under its attempt number; a directory left empty by a kill is refused for ever |
| Canary.StateDirectory.IssuedIsTruthful | scripts/run_encrypted_lifecycle_canary_24h.py:622-643 | a report of a run, however often resumed, has every slot from the start to the deadline, in order, and the observed duration |
| CanaryCompletion.WaitIsExact | scripts/run_encrypted_lifecycle_canary_24h.py:513-535 | the wait is decided by the first reading that is not early; a kill, a skipped slot and a rollback come only with their causes |
| CanaryCompletion.TurnsEnd | scripts/run_encrypted_lifecycle_canary_24h.py:582-621 | so does a turn: what can end it, and only for which cause |
| CanaryCompletion.KilledAtTheEnd | scripts/run_encrypted_lifecycle_canary_24h.py:582-643 | a run reports a kill only when the process has taken all its steps, and never removes a file |
| CanaryCompletion.LongerLife | scripts/run_encrypted_lifecycle_canary_24h.py:582-643 | a kill only cuts a run short: a longer life goes on from the same files, and a run that was not killed stays the same |
| CanaryCompletion.CompletesExactly | scripts/run_encrypted_lifecycle_canary_24h.py:582-643 | for any clock and from any point of the schedule: a run completes exactly if there are at most 97 probes, the clock keeps every slot that is left, the last reading is not before the deadline, and the process lives long enough; the report is healthy exactly if all probes pass |
| CanaryCompletion.PunctualRunCompletes | scripts/run_encrypted_lifecycle_canary_24h.py:582-643 | a clock that never goes back and shows three steps in every slot, however long the sleeps between, brings a run of at most 97 probes to its last reading, and to its report exactly if that is not before the deadline; with whole intervals always |
| CanaryCompletion.FreshRunCompletes | scripts/run_encrypted_lifecycle_canary_24h.py:538-643 | a first run with a punctual clock completes, healthy exactly if all probes pass |
| CanaryCompletion.ResumedRunCompletes | scripts/run_encrypted_lifecycle_canary_24h.py:538-643 | so does a run that resumes with a punctual clock, wherever the one before was killed |
| CanaryCompletion.RaggedScheduleIsShortened | scripts/run_encrypted_lifecycle_canary_24h.py:619-622 | with a duration that is not a multiple of the interval and a punctual clock a run is refused as shortened exactly if its last probe is done with before the deadline, a second or more behind the slot: nothing waits for it |
| CanaryCompletion.SleepingRunCompletes | scripts/run_encrypted_lifecycle_canary_24h.py:528-535 | the clock of a process that sleeps through to every slot is punctual, and its run completes |
| CanaryCompletion.SteadyIsPunctual | scripts/run_encrypted_lifecycle_canary_24h.py:528-535 | so is the clock of a process whose sleeps all return early and that reads it often enough |
| CanaryCompletion.ReportTellsTheTruth | scripts/run_encrypted_lifecycle_canary_24h.py:582-643 | from any well-formed checkpoint on, what a run reports has every slot in order, its own schedule and the observed duration |
| CanaryReport.RequireProductionContract | scripts/run_encrypted_lifecycle_canary_24h.py:650-677 | the issuer's contract as a predicate |
| CanaryReport.ValidateCanaryPayload | scripts/join_gate8_evidence.py:102-137 | the join's schedule checks as a predicate |
| CanaryReport.HealthyReportPassesBoth | scripts/join_gate8_evidence.py:102-137 | a production report passes both judges exactly when it is healthy, with 97 probes over 24 hours |
| CanaryReport.JoinableIsIssuable | scripts/join_gate8_evidence.py:102-137 | what the join lets through was issuable |
| CanaryReport.JudgedAlike | scripts/run_encrypted_lifecycle_canary_24h.py:650-677 | of the reports of runs of any schedule both judges accept exactly the healthy ones of the production schedule |
| CanaryReport.ProductionRunIsJudged | scripts/run_encrypted_lifecycle_canary_24h.py:538-643 | end to end, from any saved point: the report of a production run, however often resumed, passes both judges exactly if it is healthy |
| CanaryReport.PunctualProductionRunPasses | scripts/run_encrypted_lifecycle_canary_24h.py:538-643 | a first production run with a punctual clock completes and passes both judges exactly if its 97 probes pass |
| CanaryReport.RunAndIssue | scripts/run_encrypted_lifecycle_canary_24h.py:731-760 | the job runs once and issues evidence exactly for a healthy report of the production schedule, which the join then accepts |
| Deletion.ExecuteBoth | src/wiki_spike/applications/encrypted_lifecycle_pipeline.py:1826-1889 | running two scripts in a row is running the second where the first ended |
| DeletionSafety.ForgetIsSafe | src/wiki_spike/applications/encrypted_lifecycle_pipeline.py:1826-1889 | at every crash point the claimed phase is true, and forgetting completes exactly when both key stores hold the key |
| DeletionSafety.ResumeIsSafe | src/wiki_spike/applications/encrypted_lifecycle_pipeline.py:2001-2043 | the same for resuming; without a crash it completes exactly when the keys are destroyed already or both stores have an entry, and is held before key destruction otherwise |
| DeletionRuns.RunIsForward | src/wiki_spike/applications/encrypted_lifecycle_pipeline.py:1740-1770 | in every history of calls that follow one another, dying anywhere, phases only advance, tombstones stay and destroyed keys stay destroyed |
| DeletionRuns.VetoIsForever | src/wiki_spike/applications/encrypted_lifecycle_pipeline.py:822-826 | from the request on, in every such history, the artifact stays vetoed and its custody state is never touched, so it is never activated or restored |
| DeletionRuns.RequestInBetween | src/wiki_spike/applications/encrypted_lifecycle_pipeline.py:846-874 | so a request between the checks and the commit leaves a vetoed artifact active |
| DeletionRuns.RequestBeforeRelease | src/wiki_spike/applications/encrypted_lifecycle_pipeline.py:1978-1990 | so does one between the checks and the commit of a restoration, however far the deletion has got |
| DeletionRuns.RunKeeps | src/wiki_spike/applications/encrypted_lifecycle_pipeline.py:2001-2043 | whatever a deletion claims by its phase stays true in every history that resumes it with its own artifact and blob |
| DeletionRuns.ShreddedForever | src/wiki_spike/infrastructure/keystore.py:400-455 | after key destruction neither store ever returns the key again |
| DeletionRuns.EveryHistorySettles | src/wiki_spike/applications/encrypted_lifecycle_pipeline.py:1992-2043 | forget, die anywhere, let any calls follow: the next resume that does not die settles the deletion |
| DeletionRuns.ResumeMustNameItsDeletion | src/wiki_spike/applications/encrypted_lifecycle_pipeline.py:1992-2043 | the program compares neither the artifact nor the blob it is given with the deletion's: what the deletion claims stays true exactly if each is the right one or can do no harm |
| DeletionRuns.WrongKeysAreDestroyed | src/wiki_spike/applications/encrypted_lifecycle_pipeline.py:2019-2031 | given another artifact in custody it destroys that one's keys, and vetoes nothing that was not vetoed |
| DeletionInterleaving.CallsAreSchedules | src/wiki_spike/applications/encrypted_lifecycle_pipeline.py:1740-1760 | a history of calls is a schedule in which none overlaps another |
| DeletionInterleaving.ScheduleLasts | src/wiki_spike/applications/encrypted_lifecycle_pipeline.py:1740-1770 | however calls overlap, rows stay with their artifacts, tombstones stay, destroyed keys stay destroyed and the log only grows |
| DeletionInterleaving.DestroyedForever | src/wiki_spike/infrastructure/keystore.py:400-455 | once both copies of a key are destroyed neither store returns it after any schedule |
| DeletionInterleaving.VetoHoldsInSchedules | src/wiki_spike/applications/encrypted_lifecycle_pipeline.py:1761-1770 | however calls overlap, a vetoed artifact's custody changes only by a transaction that was under way at the request |
| DeletionInterleaving.ActivationUnderWay | src/wiki_spike/applications/encrypted_lifecycle_pipeline.py:846-874 | the transaction that ends an activation does not look at the veto: one that passed its checks commits, whatever overlaps, exactly unless another activation has |
| DeletionInterleaving.ActivationFromStart | src/wiki_spike/applications/encrypted_lifecycle_pipeline.py:822-874 | so a call that may activate when it starts commits, whatever request or call overlaps, exactly unless another activation has |
| DeletionInterleaving.RestorationUnderWay | src/wiki_spike/applications/encrypted_lifecycle_pipeline.py:1978-1990 | the transaction that ends a restoration looks only for the artifact: it commits whatever overlaps, also on a vetoed, active or shredded one, lifts no veto and brings no key back |
| DeletionInterleaving.RestorationFromStart | src/wiki_spike/applications/encrypted_lifecycle_pipeline.py:1946-1990 | so a call that may restore when it starts restores, whatever overlaps before its decision and before its transaction |
| DeletionInterleaving.ForwardExactly | src/wiki_spike/infrastructure/lifecycle_db.py:960-964 | the row is overwritten unseen: a schedule is forward at every turn exactly when no process sets a phase that is behind the row's |
| DeletionInterleaving.OneDriverIsForward | src/wiki_spike/applications/encrypted_lifecycle_pipeline.py:2012-2042 | phases only advance as long as no two processes drive one deletion at a time, whatever else overlaps |
| DeletionInterleaving.SlowDriveGoesBack | src/wiki_spike/applications/encrypted_lifecycle_pipeline.py:2012-2042 | a first process that is slow and not dead takes a deletion that another has completed back to its checkpoint; what it claims is still true |
| DeletionInterleaving.SlowDriveIsReached | src/wiki_spike/applications/encrypted_lifecycle_pipeline.py:1826-1850 | four effects of a forget lead there from any workspace with the artifact in custody |
| DeletionInterleaving.SchedulesKeep | src/wiki_spike/applications/encrypted_lifecycle_pipeline.py:2001-2043 | however calls overlap, what a deletion claims by its phase is true as long as the calls about it name its artifact and blob |
| DeletionInterleaving.EveryScheduleSettles | src/wiki_spike/applications/encrypted_lifecycle_pipeline.py:1992-2043 | after any such schedule a resume that runs alone and does not die settles the deletion |
| LifecyclePipeline.Pipeline.RegisterArtifactArk | src/wiki_spike/applications/encrypted_lifecycle_pipeline.py:1730-1738 | one custodian after the other, create only |
| LifecyclePipeline.Pipeline.Remember | src/wiki_spike/applications/encrypted_lifecycle_pipeline.py:231-298 | blob, transaction, custodians; success means both hold the key |
| LifecyclePipeline.Pipeline.IsObjectVetoed | src/wiki_spike/applications/encrypted_lifecycle_pipeline.py:1761-1770 | true exactly when the artifact has a deletion row in any phase |
| LifecyclePipeline.Pipeline.EnterPhase | src/wiki_spike/applications/encrypted_lifecycle_pipeline.py:1844-1889 | one phase with what must happen before it, dying anywhere |
| LifecyclePipeline.Pipeline.Forget | src/wiki_spike/applications/encrypted_lifecycle_pipeline.py:1812-1889 | is the forget script cut where the process dies; a vetoed artifact is refused unchanged |
| LifecyclePipeline.Pipeline.ResumeDeletion | src/wiki_spike/applications/encrypted_lifecycle_pipeline.py:1992-2043 | the loop over the remaining phases is the resume script cut where the process dies |
| LifecyclePipeline.Pipeline.ActivateArtifact | src/wiki_spike/applications/encrypted_lifecycle_pipeline.py:810-874 | activates exactly when all checks pass; a vetoed artifact is refused unchanged |
| LifecyclePipeline.Pipeline.Restore | src/wiki_spike/applications/encrypted_lifecycle_pipeline.py:1918-1990 | restores exactly when not vetoed, recovered, serving and known; a vetoed artifact is refused unchanged |
| Bundle.BuildBundle | scripts/build_encrypted_lifecycle_bundle.py:73-94 | succeeds exactly on valid fields, the kind's paths in any order and a file for each |
| Bundle.ImportBundle | scripts/import_encrypted_lifecycle_bundle.py:82-113 | accepts exactly the importable archives, that agree with the expected receipt if one is given, and returns their identity |
| Bundle.BuiltIsImportable | scripts/import_encrypted_lifecycle_bundle.py:82-113 | what the builder makes is accepted exactly when every payload is a canonical document, which the builder does not check |
| Bundle.ImportableIsBuilt | scripts/build_encrypted_lifecycle_bundle.py:73-94 | whatever the importer accepts is, file by file, what the builder makes of the envelope's fields and the payloads |
| TokenBucket.RateLimiter.TryAcquire | src/wiki_spike/runtime.py:80-93 | refuses what can never fit and leaves the bucket alone, else grants exactly when the refilled bucket holds enough; the bucket stays between empty and full |
| TokenBucket.RateLimiter.Acquire | src/wiki_spike/runtime.py:95-105 | after one sleep it succeeds exactly when the clock has advanced by the computed wait |
| TokenBucket.WaitIsExact | src/wiki_spike/runtime.py:98-105 | the computed wait is just enough |
| TokenBucket.NothingFromNothing | src/wiki_spike/runtime.py:80-93 | what is granted and what is left came from the bucket or flowed in, whatever else was asked for and refused |
| TokenBucket.SteadyWindowBound | src/wiki_spike/runtime.py:80-93 | with a clock that never goes back no window is granted more than the capacity and what flows in during it |
| TokenBucket.WindowBound | src/wiki_spike/runtime.py:80-93 | with any clock the bound holds for the distance the clock moves forwards |
| TokenBucket.JumpingBackGrantsTwice | src/wiki_spike/runtime.py:80-84 | a clock that jumps back and returns grants the capacity twice in no time |
| Escaping.SanitizeIsOnePass | src/wiki_spike/assembler.py:33-36 | the three replacements and the backslash pass are one map on characters |
| Escaping.SanitizeConcat | src/wiki_spike/assembler.py:33-36 | escaping a text is escaping its parts |
| Escaping.SanitizeRoundTrip | src/wiki_spike/assembler.py:33-36 | every text can be read back |
| Escaping.SanitizeIsInert | src/wiki_spike/assembler.py:33-36 | no angle bracket is left, and a significant character only behind a backslash that is not itself escaped |
| Escaping.AmpersandMustComeFirst | src/wiki_spike/assembler.py:35 | replaced last, the ampersand would spoil exactly the texts that hold an angle bracket |
| Extraction.ExtractProposals | src/wiki_spike/extraction.py:71-124 | the loop keeps exactly the proposals that are well formed, bound to the source and entailed |
| Extraction.SurvivingAreSupported | src/wiki_spike/verify.py:24-30 | whatever the model answers, every claim passes the independent check and no hedged span becomes more certain |
| Extraction.CountOfOne | src/wiki_spike/extraction.py:80-88 | a count of one means that every occurrence overlaps the first |
| Extraction.CountMissesOverlaps | src/wiki_spike/extraction.py:80-88 | it does not mean that the quote occurs once, as the comment there says: "aa" in "aaa" |
| Extraction.ExtractLines | src/wiki_spike/claims.py:67-121 | the loop with its running offset states one claim per claim line and revokes one claim id per revoking line |
| Extraction.RevokedExactly | src/wiki_spike/claims.py:77-79 | a claim id is revoked exactly when a line says so |
| Extraction.StatedAreSupported | src/wiki_spike/verify.py:24-30 | every such claim passes the check on the whole text |

## Left out

- Hash, cipher and signature internals, key derivation, canonical JSON text and tar containers: documents and hashes are modelled by their contents.
- Wire-level checks of single fields (regular expressions, number formats, UTC strings, secure-file checks, provenance tuples): they are parameters or not part of the model.
- The lease functions, evidence and floor tables, event chain digests, cost tracking, retry policy, golden evaluation: bookkeeping with no theorem beyond its body.
- PublicationSafety.ReachableInv: `prepare` verifies the parent's artifact before it builds on it; a verification that fails ends the attempt, which is the step `Crash`, and one that succeeds is no step. In `Publication` the parent's contents are taken to be what was built, and `Generation` says exactly when they verify.
- Git or SQLite errors in the middle of one transaction: a step is atomic.
- All publishers sign with one key; the release manifest's `previous` link is part of a release's identity.
- Mirror.MirrorIsFaithful: one worker at a time; two workers may push an older release after a newer one.
- DeletionRuns.VetoIsForever: about calls that begin after the request and follow one another; overlapping ones are the subject of `VetoHoldsInSchedules`, those under way at the request of `ActivationUnderWay` and `RestorationUnderWay`.
- DeletionRuns.RunIsForward: about calls that follow one another; for overlapping ones it is false, see `ForwardExactly` and `SlowDriveGoesBack`.
- A call reads everything it decides on when it starts. In the program the look for the tombstone follows the look at the phase; as tombstoning twice is tombstoning once, nothing depends on that. An activation looks at the veto first and reads the blob later: in the program a blob that is stored in between lets a call activate that has already ended here.
- LifecyclePipeline.Pipeline.ActivateArtifact: on a workspace without a serve gate the program first bootstraps the floor; here the gate is a parameter.
- Correction and evidence operations, which register artifacts without keys: by the custody condition their deletions are held before key destruction.
- Snapshot.RenderPages: a page's path is its subject, so collisions of the shortened subject hash and the slug are not modelled; the lines of a page are a map, since they are written in the order of the claim ids.
- Snapshot.RenderOfNorm: a line of a page is a record of subject, sign, predicate and object, while the program joins them to one string with spaces; the "only if" uses that the record's parts can be told apart. Unicode normalization keeps spaces, which an arbitrary normalizer need not do.
- A claim's scope and locators are one string each, modality is dropped from the snapshot's records.
- The canary's probe itself, its report's UTC strings and the lane fields of the join; the pieces of the binding besides the attempt number are one number.
- Canary.StateDirectory.Discover: the loader is given the files in the order in which they were saved; its contract is about the bag of files.
- TokenBucket.RateLimiter.constructor: a limiter made with a rate or capacity that is not positive raises in the program; here both are required to be positive.
- Extraction.ExtractLines: `splitlines` and `strip` are given by what they guarantee: the pieces make up the text, and a stripped line is part of its line. Reading the fields of a line is abstract.
- Non-numeric offsets and scopes in a model's answer raise in the program outside of its error handling; proposals here have whole numbers.
- The Layer P decision and the language patterns behind a span's modality are parameters.
- LifecyclePipeline.Pipeline.Forget: the refusals for missing key stores and for a waiting time out of range, the report it returns, and the derivation of the command id, which is a parameter.
- AcceptedClaims.Decisions: the decisions are listed in any order of the claims, on which the root does not depend; state, policy and rationale, the same for every decision, are not repeated in each.
- ControlPlane.ControlPlane.Activate: the artifact digests that read models are registered with and compared by are not recorded; they follow from the generation's contents.
- ControlPlane.ControlPlane.Query: runs in one state and returns the hits as a set; for statements that run among other steps see the theorems about `SlowQuery`.
- Search.HitsAreAccepted: about a query in one state; `SlowHitsAreAccepted` is the general one.
- CanaryChain.LoadCheckpoint: the checks of the wire format and the comparison with a requested binding, beyond those of duration and interval.
- CanaryReport.ValidateCanaryPayload: UTC strings, lane fields and provenance.
- Bundle.BuildBundle: the checks of single fields are one predicate, the same for builder and importer.
- Bundle.ImportBundle: the wire-level checks of manifest entries; the source run's address, which is copied from the expected receipt.
- File modes, commit messages and the ancestry of commits, which the verifier does not look at either.
- Canary.StateDirectory.Begin: a process that dies while it loads its files counts as killed, also when a file before would have been refused.
