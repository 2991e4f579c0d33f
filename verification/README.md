# Control-plane model in Dafny

A model of the decision-making core of the development control plane, with proofs about it: the task scheduler and
its work-item adapter, execution authority and external effects, verification gates, and the agent-runtime streams.
`dafny verify dfyconfig.toml` checks everything.

| files | what they model |
|---|---|
| `Text`, `Paths`, `Patterns`, `Ownership` | white space as Go trims it, repository-relative paths, change patterns over path components, ownership entries |
| `Graphs`, `Scheduler`, `Admission`, `Waves`, `WaveDepth`, `FailureSpread` | manifest validation by depth-first search, the greedy batch, waves and how many there are, the spread of failures |
| `WorkItems`, `WorkScheduler`, `WorkProtocol` | leases and claims, the adapter, and the closed loop of the two |
| `ByteStrings`, `Grants`, `DigestCollisions`, `Effects`, `Authority` | canonical grants and their digest, delegation, epochs and effect replay, single-use approvals |
| `Gates`, `Verifier`, `VerifiedItems` | required gates, a verification run against a workspace that commands may change, and its write seen from the loop of scheduling and claiming |
| `AgentProtocol`, `OmpTurn`, `OmpProvider`, `Recorder` | OMP turns from frames to stored status |
| `Approvals`, `CodexApprovals`, `OverlappingApprovals`, `CodexClient` | delivery of approval decisions, the Codex request store, calls that overlap, and the stdio client |

Code that changes state is modelled by classes and methods proved against specification functions or predicates;
protocols that interleave are step systems over values, with theorems about every run.  Where a helper takes an oracle
(`nat -> bool`, `nat -> WriteOutcome`, `seq<Command> -> Reply`), it stands for the outside world: each call may go
either way, and the theorems hold for every such function.

## What turned out different from what one might expect

- The deadlock error of PlanWaves is reachable: `Validate` keys tasks by their trimmed id while everything after it
  uses the id as spelled. `Waves.PlanWaves` gives the exact condition, `Waves.PaddedExample` an input; with ids that
  are their own trim (`Waves.TrimmedIdsAreClosed`) it cannot happen. For the same reason the search for cycles can
  accept a cyclic table, for instance a task that depends on its own trimmed id
  (`Waves.PaddedSelfDependencyIsAccepted`) or two that depend on each other (`Waves.PaddedCycleIsAccepted`). Every
  cycle of an accepted manifest runs only through tasks whose ids are spelled with white space at an edge, and an
  accepted manifest is cyclic exactly when it has such a cycle (`Scheduler.HiddenCyclesExactly`); the verdict is right
  whenever every dependency is spelled as a task id (`Scheduler.CycleVerdictIsExact`).
- `OwnershipConflict` is not symmetric when one side is empty and the other holds a malformed entry
  (`Ownership.ConflictSymmetry` is exact, `Ownership.AsymmetryExample` an input). Validated tasks always have
  ownership, so decisions are not affected.
- Entries such as `src/**/` mean different things to the scheduler and to the change rules
  (`Ownership.StarBeforeSlashIsNotCovered`); `Ownership.Covers` is the exact condition for agreement.
- The manifest digest closes each grant with byte 0xFF but does not reserve that byte, so two different valid grant
  sets can share a digest (`Grants.DigestCollision`). `DigestCollisions.DigestSharedExactly` says for which manifests
  another one exists: those where some 0xFF between two grants can be read as the fence instead, with the grants still
  valid and in increasing order.
- A gate timeout of 9223372037 seconds or more can come out negative or zero, because the product in nanoseconds wraps
  in 64 bits (`Verifier.TimeoutOverflows`); `Verifier.TimeoutBoundedExactly` says when it does not.
- The write at the end of a verification makes its item active whatever state it was in, without looking at the budget
  or at ownership. It is a move of the loop of scheduling and claiming exactly when the item was active
  (`VerifiedItems.WriteIsMoveExactly`); in the run of `VerifiedItems.LandedItemBecomesActive` it breaks the budget.
- A settled OMP turn need not end with a terminal event: a result of unknown status followed by the settling of the
  session closes the stream mute (`OmpTurn.UnknownResultEndsMute`). `OmpTurn.TerminalEventExactly` says exactly when
  the terminal event is sent.
- OMP turns exclude each other by handle, not by client: a handle that is not registered leads to the client of its
  thread, so one client can serve any number of turns at once (`OmpProvider.TurnsOnOneClient`).
- Two approval calls that overlap can both dispatch. A provider that takes responses more than once then accepts both
  decisions (`OverlappingApprovals.OverlapAcceptsTwice`); the Codex store takes only one, but the call that fails puts
  the approved item back to pending (`OverlappingApprovals.OverlapForgetsDecision`).
- A second approval response is reported as success even if it contradicts the first
  (`Approvals.ApproveThenDeny`); `Approvals.ApprovalManager.RespondApproval` says that this happens exactly when the
  item already showed the opposite decision.
- A stored Codex request can be lost unanswered, by a request that arrives for the same item
  (`CodexApprovals.ArrivalLosesRequest`) or by an older one that is put back after a failed answer
  (`CodexApprovals.PutBackLosesRequest`). `CodexApprovals.NoneLostExactly`: none is lost in a run exactly when no request
  is stored for an item that already holds one, or under a blank item.

## Model

| member | source | states |
|---|---|---|
| Scheduler.Validate | packages/scheduler/scheduler.go:51-129 | accepts exactly the manifests for which none of the errors is justified, an error names a fault the manifest has, and acceptance yields a topological order of all tasks |
| Scheduler.CheckTasks | packages/scheduler/scheduler.go:65-90 | passes exactly when every task is well formed and the trimmed ids are distinct, and returns the table keyed by trimmed id |
| Scheduler.CheckTask | packages/scheduler/scheduler.go:75-88 | the resource, capacity and ownership rules of one task, with the error that applies |
| Scheduler.CheckOwnership | packages/scheduler/scheduler.go:84-88 | passes exactly when every ownership entry normalises |
| Scheduler.AcceptedUnlessJustified | packages/scheduler/scheduler.go:51-129 | the conditions for acceptance hold exactly when nothing that any error says is true of the manifest |
| Scheduler.CycleFinder.Visit | packages/scheduler/scheduler.go:103-122 | terminates because the ids neither visiting nor visited shrink; failure exhibits a walk that closes on itself, success puts the id and all below it in topological order |
| Scheduler.CycleFinder.Enter | packages/scheduler/scheduler.go:107-113 | marking an id as visiting keeps the path and uses up an unseen id |
| Scheduler.CycleFinder.Leave | packages/scheduler/scheduler.go:119-120 | marking an id as visited keeps the finished ids in topological order |
| Scheduler.CheckDependencies | packages/scheduler/scheduler.go:92-101 | passes exactly when every dependency is the trimmed id of some task and not the depending task's own id as spelled; an error names the offending task and dependency |
| Scheduler.SearchCycles | packages/scheduler/scheduler.go:103-127 | fails exactly when some task reaches a cycle, and otherwise puts every task after what it depends on |
| Scheduler.CycleVerdictIsExact | packages/scheduler/scheduler.go:92-128 | when every dependency is spelled as a task id the search's verdict is exactly whether the dependency table has a cycle |
| Scheduler.AcceptedCyclesAreHidden | packages/scheduler/scheduler.go:123-127 | no node of a cycle of an accepted manifest is spelled as a task id; each is only the trim of one |
| Scheduler.HiddenCyclesExactly | packages/scheduler/scheduler.go:92-128 | an accepted manifest has a cycle exactly when it has one through keys that no task is spelled as |
| Graphs.RotatedCycle | packages/scheduler/scheduler.go:105-127 | a cycle can be walked from any of its nodes back to it |
| Graphs.CycleReachableIffCyclic | packages/scheduler/scheduler.go:105-127 | a closing walk from some task exists exactly when some cycle exists, if every dependency is a task |
| Graphs.TopologicalHasNoLasso | packages/scheduler/scheduler.go:123-128 | a topological order rules out every closing walk from its ids |
| Scheduler.GraphOfKeys | packages/scheduler/scheduler.go:65-90 | the table holds exactly the trimmed ids, each with its task's dependencies |
| Admission.Next | packages/scheduler/scheduler.go:150-213 | succeeds exactly on accepted manifests, and its loops with running totals and early exit compute the greedy decision |
| Admission.CountRunning | packages/scheduler/scheduler.go:161-171 | collects the running tasks and the total they use |
| Admission.FindSkipped | packages/scheduler/scheduler.go:173-180 | marks exactly the pending tasks with a failed or skipped dependency |
| Admission.Admit | packages/scheduler/scheduler.go:182-207 | the pass with running totals, skip tests and early break chooses exactly the greedy batch |
| Admission.FitsBeside | packages/scheduler/scheduler.go:196-202 | true exactly when the task fits the capacity beside those selected and conflicts with none |
| Admission.ConflictsWithAny | packages/scheduler/scheduler.go:293-300 | true exactly when the task conflicts with one of the others |
| Admission.AnyDependencyFailed | packages/scheduler/scheduler.go:274-282 | true exactly when some dependency failed or was skipped |
| Admission.AllDependenciesSucceeded | packages/scheduler/scheduler.go:284-291 | true exactly when every dependency succeeded |
| Admission.LimitStopsAdmission | packages/scheduler/scheduler.go:193-195 | once the parallel limit is reached nothing later is admitted, so leaving the loop loses nothing |
| Admission.DecisionIsSafe | packages/scheduler/scheduler.go:150-213 | from any state: a non-empty batch fits CPU, memory and parallelism with what runs; its tasks are eligible, distinct, not skipped, and free of conflict with running tasks and each other |
| Admission.AdmittedExactly | packages/scheduler/scheduler.go:182-207 | a task is admitted exactly when it is eligible and has room next to running tasks and those admitted before it |
| Admission.DecisionIsMaximal | packages/scheduler/scheduler.go:182-207 | no eligible task left out could be added to the final batch |
| Admission.UnlistedIsPending | packages/scheduler/scheduler.go:267-272 | a task that the state does not list, or lists without a status, is decided on as pending |
| Ownership.OwnershipConflict | packages/scheduler/scheduler.go:131-148 | the nested loops with early return compute the conflict test, including its treatment of malformed entries |
| Ownership.ConflictIsSharedPath | packages/scheduler/scheduler.go:131-148 | on entries that normalise, a conflict is exactly a path owned by both sides |
| Ownership.ConflictSymmetry | packages/scheduler/scheduler.go:131-148 | symmetric exactly unless one side is empty and the other malformed |
| Ownership.AsymmetryExample | packages/scheduler/scheduler.go:132-141 | an empty entry against no entries conflicts one way round and not the other |
| Ownership.SharedMatchForcesConflict | packages/repoprotocol/protocol.go:307-364 | a changed path matched by an entry of each side forces a conflict, for entries whose pattern lies in their owned tree |
| Ownership.CoversExactly | packages/scheduler/scheduler.go:251-265 | that condition holds exactly when every path the entry matches lies in the tree it owns |
| Ownership.NormalFormCovers | packages/repoprotocol/protocol.go:333-350 | entries in normal form satisfy it and own the tree of their base |
| Ownership.StarBeforeSlashIsNotCovered | packages/scheduler/scheduler.go:254-256 | `src/**/` is a literal to the scheduler and a wildcard to the change rules, and a clash goes unnoticed |
| Paths.RelativeIsClean | packages/repoprotocol/protocol.go:352-364 | an accepted path is clean: plain components, no leading slash, inside the repository |
| Paths.CleanPathShape | packages/repoprotocol/protocol.go:352-364 | a clean path is accepted and unchanged |
| Paths.RelativeExactly | packages/repoprotocol/protocol.go:352-364 | accepted are exactly the paths that do not start at the root, never climb above their start, and end below it |
| Paths.ParentCancels | packages/repoprotocol/protocol.go:352-364 | a component followed by a parent step cancels, and empty and dot components drop out, wherever they stand |
| Paths.SpellingIsIndifferent | packages/repoprotocol/protocol.go:333-358 | backslashes for slashes and white space around a path or pattern make no difference |
| Patterns.MatchesExactly | packages/repoprotocol/protocol.go:307-331 | for all spellings: a pattern matches a path exactly when both normalise and its components reach those of the path: with a final `**` as a prefix, with a final `*` as all but the last, otherwise all of them |
| Patterns.PlainPatternMatches | packages/repoprotocol/protocol.go:307-331 | for a plain base: `/**` matches the base and everything below it, `/*` its children, the base alone only itself |
| Patterns.CleanIsNormal | packages/repoprotocol/protocol.go:352-364 | a clean path without white space at an edge is its own normal form |
| Text.TrimSpaceIdempotent | packages/scheduler/scheduler.go:68 | trimming twice is trimming once |
| Text.TrimSpaceExactly | packages/scheduler/scheduler.go:68 | trimming drops white space at the edges, all of it and nothing else |
| Waves.PlanWaves | packages/scheduler/scheduler.go:215-249 | succeeds exactly when the manifest is accepted and every dependency is spelled as a task id, reports deadlock exactly when it is accepted and one is not; the waves list each task once, dependencies lie in earlier waves, there are at most as many waves as tasks, each may run together and is the scheduler's decision once those before it are done |
| Waves.MarkSkipped | packages/scheduler/scheduler.go:231-234 | marks exactly the skipped ids and counts them off |
| Waves.MarkSucceeded | packages/scheduler/scheduler.go:243-246 | marks a wave as succeeded and counts it off |
| Waves.NeverDeadlocked | packages/scheduler/scheduler.go:235-240 | while a task of such a manifest is unfinished the next decision starts something |
| Waves.TrimmedIdsAreClosed | packages/scheduler/scheduler.go:68-89 | ids that are their own trim make every accepted manifest one without deadlock |
| Waves.PaddedIdsAreOpen | packages/scheduler/scheduler.go:155-165 | any id with white space at an edge can be depended on by its trim, accepted, and never met |
| Waves.PaddedExample | packages/scheduler/scheduler.go:239 | a two-task manifest that validates and deadlocks |
| Waves.PaddedCycleIsAccepted | packages/scheduler/scheduler.go:123-127 | two tasks with padded ids that depend on each other are accepted |
| Waves.PaddedSelfDependencyIsAccepted | packages/scheduler/scheduler.go:92-101 | whatever id has white space at an edge, a task that depends on its own trim is accepted and is a cycle |
| WaveDepth.WavesCoverChains | packages/scheduler/scheduler.go:215-249 | a finished plan has at least as many waves as any chain of dependencies has tasks |
| WaveDepth.RoomyWave | packages/scheduler/scheduler.go:182-207 | when all tasks together fit and none clash, each wave holds exactly the tasks not yet done whose dependencies are done |
| WaveDepth.WaveIsDepth | packages/scheduler/scheduler.go:215-249 | then each task is in the wave numbered by the longest chain of dependencies from it |
| WaveDepth.WavesAreLongestChain | packages/scheduler/scheduler.go:215-249 | and the number of waves is the length of the longest chain |
| FailureSpread.StableAfterOneRoundPerTask | packages/scheduler/scheduler.go:173-180 | marking skipped tasks round by round stabilises within one round per task |
| FailureSpread.FailureSpreadsExactly | packages/scheduler/scheduler.go:231-234 | exactly the pending tasks that reach a failed or skipped one through pending tasks end up skipped |
| WorkItems.Validate | packages/repoprotocol/protocol.go:233-272 | accepts exactly the well-formed work items |
| WorkItems.WorkRecord.Claim | packages/repoprotocol/claim.go:27-50 | succeeds exactly for a named holder, a positive lease and a claimable item, then writes exactly the trimmed holder and the lease; otherwise changes nothing |
| WorkScheduler.NextWork | packages/scheduler/work_adapter.go:23-88 | succeeds exactly on acceptable items and returns the scheduler's decision for the encoded manifest, which `WorkProtocol.DecisionOverStates` describes by the states of the items |
| WorkScheduler.StateAtLookup | packages/scheduler/work_adapter.go:62-84 | the state map gives each item the status of its state and lease |
| WorkScheduler.StatusMeans | packages/scheduler/work_adapter.go:62-84 | running means under way or claimed under a live lease, pending means ready or under a lapsed lease, succeeded means landed, and failed or skipped means given up |
| WorkScheduler.AdapterIsCostOnly | packages/scheduler/work_adapter.go:34-60 | the batch is the greedy one over cost and ownership alone: memory and the parallel limit never exclude an item |
| WorkScheduler.SlotIsFree | packages/scheduler/work_adapter.go:34-42 | by counting distinct ids a slot is free for every eligible item |
| WorkScheduler.StartableIsEligible | packages/scheduler/work_adapter.go:62-84 | eligible means ready or with a lapsed lease, and every dependency landed |
| WorkProtocol.DecisionOverStates | packages/scheduler/work_adapter.go:16-88 | by the states of the items: what occupies and what is ready together fit the budget, nothing ready clashes with either, only waiting items with landed dependencies are ready, and exactly the waiting items with a dependency given up are skipped |
| WorkProtocol.RunKeepsInvariant | packages/scheduler/work_adapter.go:16-23 | in every state of every run of ticks, moves and claims: the cost of items under way or under a live lease is within budget, they are free of conflict, and their dependencies have landed |
| WorkProtocol.QuietSystemIsFine | packages/scheduler/work_adapter.go:16-23 | a system with nothing active satisfies that invariant |
| WorkProtocol.FirstClaimSucceeds | packages/repoprotocol/claim.go:27-50 | of the claims made for a ready item at one instant exactly the first succeeds and leaves exactly its lease; every other finds that lease held |
| WorkProtocol.LeaseIsLive | packages/repoprotocol/claim.go:10-14 | a lease granted is live exactly until its time is up, and while it is live no other claim is granted |
| WorkProtocol.ClaimsTouchOnlyTheirItems | packages/repoprotocol/claim.go:45-49 | claims change state, holder and lease of their items and nothing else |
| WorkProtocol.ClaimedOnlyWhenStartable | packages/scheduler/work_adapter.go:62-84 | nothing is claimed before its dependencies landed or while its lease is live |
| WorkProtocol.ReclaimNeedsLapsedLease | packages/repoprotocol/claim.go:10-25 | an item claimed twice in a run was still claimed and its recorded lease had lapsed |
| ByteStrings.LessIsTotal | packages/execution/execution.go:119-121 | byte order is total and strict |
| ByteStrings.LessIsLexicographic | packages/execution/execution.go:119-121 | the first difference decides and a proper prefix comes first |
| ByteStrings.JoinIsInjective | packages/execution/execution.go:81-87 | parts without NUL can be read back from their join |
| ByteStrings.DecimalIsInjective | packages/execution/execution.go:86 | decimal text determines the number |
| ByteStrings.DecimalIsValue | packages/execution/execution.go:86 | the digits read from the left give back the number, without a leading zero |
| Grants.CanonicalIsInjective | packages/execution/execution.go:98-107 | valid grants with one canonical text are equal |
| Grants.ValidateManifest | packages/execution/execution.go:136-143 | passes exactly on valid grants and otherwise names the first invalid one |
| Grants.Sink | packages/execution/execution.go:119-121 | moves one grant into place by swaps, keeping the rest |
| Grants.SortByCanonical | packages/execution/execution.go:119-121 | leaves the same grants in canonical order |
| Grants.Compact | packages/execution/execution.go:126-132 | the in-place pass reads each grant before overwriting it and leaves a strictly increasing list of the same set |
| Grants.NewManifest | packages/execution/execution.go:113-134 | succeeds exactly on valid grants with the canonical form of their set, and otherwise names an invalid one |
| Grants.CanonicalFormIsUnique | packages/execution/execution.go:113-134 | a grant set has one canonical form, whatever order and repetition it came in |
| Grants.Allows | packages/execution/execution.go:145-158 | answers membership, and fails when any grant involved is invalid |
| Grants.Delegate | packages/execution/execution.go:160-178 | succeeds exactly for valid requests contained in valid holdings, returning exactly the requested set; an escalation error names a grant not held |
| Grants.ChainNeverGrows | packages/execution/execution.go:160-178 | along any chain of delegations no grant is gained |
| Grants.DigestOf | packages/execution/execution.go:180-192 | digests the canonical form, grant by grant |
| Grants.BodyCollision | packages/execution/execution.go:187-190 | different lists of valid grants are encoded alike only where a 0xFF in a revision of one fits into an operation of the other |
| Grants.DigestIdentifiesGrants | packages/execution/execution.go:180-192 | equal digests mean equal grant sets unless 0xFF is in a revision of one and an operation of the other |
| DigestCollisions.BodyExactly | packages/execution/execution.go:187-190 | two lists of valid grants are encoded alike exactly when the first operations, the resources, the bytes between a resource and the next one's operation end, and the last revisions agree |
| DigestCollisions.DigestSharedExactly | packages/execution/execution.go:180-192 | a valid manifest shares its digest with a different grant set exactly when some other choice of fence bytes in its canonical form yields valid grants in increasing order |
| Grants.DigestCollision | packages/execution/execution.go:187-190 | two different valid grant sets with one digest |
| Effects.OperationIDIdentifies | packages/execution/execution.go:70-90 | operation ids are equal exactly for equal run, activation, kind and ordinal, whatever the epoch |
| Effects.NewEffectIntent | packages/execution/execution.go:204-224 | succeeds exactly on valid input and yields a valid intent for that activation, ordinal, grant and input, under the id of that ordinal |
| Effects.NewEffectReceipt | packages/execution/execution.go:283-296 | succeeds exactly for a valid intent and provider and yields a valid receipt for it, with that provider, reference and output |
| Effects.AuthorizeAgainst | packages/execution/execution.go:260-274 | passes exactly for a valid intent against the very activation it was made for; stale means the same activation at another epoch, mismatch another run or activation |
| Effects.AdvanceEpoch | packages/execution/execution.go:50-59 | moves a valid activation on by one epoch, and fails exactly at the last one |
| Effects.RecoverEffect | packages/execution/execution.go:312-326 | executes only without a receipt and replays only a valid receipt for this very effect |
| Effects.MergeReceipt | packages/execution/execution.go:328-339 | two valid receipts merge exactly when they are the same, and conflict otherwise |
| Effects.SameEffectSameID | packages/execution/execution.go:226-245 | valid intents share an id exactly when they are for the same run, activation and ordinal |
| Effects.TakeoverKeepsTheEffect | packages/execution/execution.go:50-59 | the next owner prepares the effect under the same id, and each owner's intent is stale against the other's epoch |
| Effects.StaleIntentStaysFenced | packages/execution/execution.go:50-59 | after the epoch advances an intent authorised before is never authorised again in any run |
| Effects.PassesOnlyUnderItsKey | packages/execution/execution.go:260-274 | in every run an intent passes against the activation stored under a key exactly when the key is its own run and activation and the epoch its own |
| Effects.RecordedEffectReplays | packages/execution/execution.go:312-339 | recovery executes an effect exactly until a receipt is recorded; that receipt never changes and every later recovery of the effect, from any epoch, replays it |
| Authority.ApprovalTable.CompareAndSwap | apps/api/internal/agentrunner/runner_authority.go:124-140 | updates the row exactly when metadata and response are still as expected |
| Authority.ApprovalTable.Consume | apps/api/internal/agentrunner/runner_authority.go:74-143 | grants exactly when some candidate is usable (unconsumed, exactly the requested valid grant under its digest, its row approved and as loaded) and none before it is usable or broken, and then marks that row consumed; fails exactly when a broken one comes first, and otherwise answers no; nothing else changes |
| Authority.TryOneExactly | apps/api/internal/agentrunner/runner_authority.go:74-143 | the same for one candidate in the interleaved protocol |
| Authority.ConsiderExactly | apps/api/internal/agentrunner/runner_authority.go:77-108 | a candidate is attempted exactly when it offers the grant, rejected exactly when it is broken, with the error that applies |
| Authority.OneGrantDigest | apps/api/internal/agentrunner/runner_authority.go:95-105 | the digest of a one-grant manifest is determined by the grant |
| Authority.GrantUsesFreshRow | apps/api/internal/agentrunner/runner_authority.go:124-140 | a granted attempt used a row that was unconsumed at that step, with the requested grant and matching digest |
| Authority.GrantedWasInForce | apps/api/internal/agentrunner/runner_authority.go:43-52 | in every run whoever is granted a row found it approved, for its own run and operation and not expired, when it loaded its candidates |
| Authority.RunKeepsInvariant | apps/api/internal/agentrunner/runner_authority.go:30-143 | under any interleaving of consumers, lost replies and edits, no two consumers are granted one row |
| Authority.TrueReturnsAreCovered | apps/api/internal/agentrunner/runner_authority.go:23-29 | true returns for a run and grant never exceed the rows ever approved for them |
| Gates.ValidateConfig | packages/repoprotocol/protocol.go:128-176 | accepts exactly the valid configurations |
| Gates.ValidateRule | packages/repoprotocol/protocol.go:157-174 | accepts exactly the rules with known level, patterns that normalise and known gates |
| Gates.CheckRule | packages/repoprotocol/protocol.go:296-305 | true exactly when the components of some pattern of the rule reach those of some changed path |
| Gates.RequiredGatesForPaths | packages/repoprotocol/protocol.go:187-203 | lists, once each, exactly the gates of the rules one of whose patterns reaches a changed path, component by component |
| Gates.MorePathsMoreGates | packages/repoprotocol/protocol.go:187-203 | more changed paths never drop a required gate |
| Gates.GateList.AppendUnique | packages/verifier/verifier.go:160-170 | adds the trimmed gate unless blank or already there |
| Gates.ResolveGates | packages/verifier/verifier.go:157-193 | succeeds exactly when every required gate is known, splitting them into those to run and the reviews |
| Gates.UnknownGateIsTheItems | packages/repoprotocol/protocol.go:169-185 | with a valid configuration only the work item can name an unknown gate |
| Verifier.ValidateHead | packages/repoprotocol/protocol.go:205-231 | accepts exactly non-empty evidence for that head with every gate passed |
| Verifier.EvidenceIsForOneHead | packages/repoprotocol/protocol.go:205-231 | evidence is accepted for at most one head, up to white space |
| Verifier.TimeoutBoundedExactly | packages/verifier/verifier.go:236-245 | the timeout is positive and at most thirty minutes exactly when the product in nanoseconds, taken in 64 bits, is positive or the default applies |
| Verifier.TimeoutBeforeOverflow | packages/verifier/verifier.go:236-245 | up to 9223372036 seconds the timeout is what the profile says, the default or thirty minutes |
| Verifier.TimeoutOverflows | packages/verifier/verifier.go:240-244 | one second more yields a negative timeout, and some values yield zero |
| Verifier.Verifier.AssertCleanHead | packages/verifier/verifier.go:195-234 | passes exactly when the head is the candidate and then nothing is uncommitted |
| Verifier.Verifier.RunGate | packages/verifier/verifier.go:102-123 | the exit of one gate, and head and tree right after it |
| Verifier.Verifier.RunGates | packages/verifier/verifier.go:101-135 | all pass exactly when each gate exited 0 with candidate head and clean tree right after it; a failure is reported exactly for the first gate that failed undisturbed |
| Verifier.Plan.FirstBadGateDecides | packages/verifier/verifier.go:101-135 | the first gate that does not exit 0 at a clean candidate head settles the outcome |
| Verifier.EvidenceHeads | packages/repoprotocol/protocol.go:205-231 | the evidence of a verified run is valid for its head, that of a failed gate for none |
| Verifier.Verifier.RunPlan | packages/verifier/verifier.go:84-155 | the verdict and everything written follow from what was observed and which writes went through: passed evidence then the released item, failed evidence and no item, or nothing |
| Verifier.Verifier.RecordVerified | packages/verifier/verifier.go:137-154 | after a run that passed: evidence if there is any and then the released item, up to the first write that fails, and success exactly when none does |
| Verifier.Verifier.RecordFailure | packages/verifier/verifier.go:128-134 | after a failed gate: the evidence up to it and no item, with the failure reported exactly when the evidence is stored |
| Verifier.VerdictIsExact | packages/verifier/verifier.go:129-154 | success is claimed exactly for verified runs whose writes were stored, a gate failure likewise, and the item is written only after a verified run |
| Verifier.ReviewsDecideTheNextState | packages/verifier/verifier.go:143-154 | a successful verification writes the item, released, as ready to land exactly when no required gate is a review, and as in review otherwise |
| Verifier.Verifier.Verify | packages/verifier/verifier.go:52-155 | an inadmissible request touches neither workspace nor store; an admissible one is resolved and ends as its plan does; a verdict on gates is only reached for a valid item and configuration |
| Verifier.RequiredGatesAreSettled | packages/verifier/verifier.go:79-155 | after a verified run every required review is pending, and every other required gate's command was run with its timeout and answered 0, after which the head was the candidate and nothing was uncommitted |
| Verifier.BundleFor | packages/verifier/verifier.go:92-100 | evidence names the item, its base and the trimmed candidate head |
| Verifier.Plan.PassedEvidence | packages/verifier/verifier.go:108-117 | one entry for each gate in order, with the command that was run for it |
| Verifier.Plan.FailedEvidence | packages/verifier/verifier.go:108-121 | the entry of a failed gate, with the command that was run for it |
| VerifiedItems.WriteIsMoveExactly | packages/verifier/verifier.go:143-152 | the write of the released item is a move of the loop exactly when the item is active at that instant |
| VerifiedItems.WriteKeepsInvariantExactly | packages/verifier/verifier.go:143-152 | it keeps the loop's invariant exactly when the item was active, or fits the budget, clashes with no active item and leaves every active item's dependencies landed |
| VerifiedItems.CostOfChange | packages/verifier/verifier.go:143-152 | writing one item changes the active cost by what that item contributes before and after |
| VerifiedItems.LandedItemBecomesActive | packages/verifier/verifier.go:143-152 | a run from a quiet start in which verifying a landed item once more puts two active items on a budget of one |
| OmpTurn.MapFrameShape | packages/agent-runtime/omp/provider.go:377-471 | a mapped frame keeps its number and is an item event, or the final event of this turn's own result |
| OmpTurn.MapFrameTells | packages/agent-runtime/omp/provider.go:377-471 | exactly the message and tool frames that name an item give an item event; it says running at a start, failed at a tool end in error and completed at any other end, with the frame's id, name and payload; a final event says what the result says |
| OmpTurn.StreamTurn | packages/agent-runtime/omp/provider.go:293-375 | for every sequence of inputs and failed deliveries: how the stream ends, and event for event what is sent: the start, one event for each item frame read, in order and saying what the frame says, and the event of the result that ended it |
| OmpTurn.StreamFrames | packages/agent-runtime/omp/provider.go:336-374 | the loop over frames, cancellations and closings: what is sent after the start event and how the stream ends |
| OmpTurn.StreamIsShaped | packages/agent-runtime/omp/provider.go:293-375 | events are numbered 1, 2, 3, ...; at most one is terminal and it is last; it appears only without an agent or once the session settled with or after this turn's result, whose status it reports |
| OmpTurn.EndsExactlyWhenSettled | packages/agent-runtime/omp/provider.go:349-372 | a stream ends with this turn's result exactly when one settles the turn and all before is delivered: as terminal if its status is known, mute if not |
| OmpTurn.TerminalEventExactly | packages/agent-runtime/omp/provider.go:323-372 | the terminal event is sent exactly for a delivered turn without an agent or a settled result of known status that is delivered |
| OmpTurn.UnknownResultEndsMute | packages/agent-runtime/omp/provider.go:354-359 | a result of unknown status and then a settled session: the stream ends after its start event |
| OmpProvider.Provider.RegisterClient | packages/agent-runtime/omp/provider.go:513-520 | a client is found under its session directory and thread id, others stay |
| OmpProvider.Provider.Lookup | packages/agent-runtime/omp/provider.go:522-531 | a registered handle leads to its own client, and only one that is not registered to the thread's |
| OmpProvider.Provider.MarkActive | packages/agent-runtime/omp/provider.go:533-541 | succeeds exactly when the handle was free, as one step of the interleaved attempts |
| OmpProvider.Provider.ClearActive | packages/agent-runtime/omp/provider.go:543-547 | frees the handle and no other, as one step of the interleaved attempts |
| OmpProvider.Provider.RunTurn | packages/agent-runtime/omp/provider.go:200-258 | succeeds exactly when every step does; any failure leaves no mark, no live attempt and no subscription |
| OmpProvider.Provider.StartPrompt | packages/agent-runtime/omp/provider.go:228-257 | succeeds exactly when the prompt starts under an id that is not blank; a failure gives subscription and handle back |
| OmpProvider.Provider.StreamEnds | packages/agent-runtime/omp/provider.go:303-305 | the end of a stream frees its handle and returns its subscription |
| OmpProvider.TurnsAreExclusive | packages/agent-runtime/omp/provider.go:533-547 | under every interleaving no handle has two live turns and none stays marked without one |
| OmpProvider.OneClientExactly | packages/agent-runtime/omp/provider.go:522-541 | two live turns share a client exactly when their handles differ and both lead to it |
| OmpProvider.TurnsOnOneClient | packages/agent-runtime/omp/provider.go:200-258 | a client registered once serves a live turn for every one of any number of distinct handles |
| Recorder.PersistEvent | packages/agent-runtime/manager.go:218-308 | succeeds exactly when the event can be recorded and its writes are stored; turns and items then hold its records, after a failure at most them, the item before the turn |
| Recorder.PersistTurnEvent | packages/agent-runtime/manager.go:224-246 | a turn event passes exactly when it can be recorded and its write is stored, and then the turn shows it |
| Recorder.PersistItemEvent | packages/agent-runtime/manager.go:248-276 | the same for items; a status change that comes with one must be an allowed transition |
| Recorder.CurrentIsOfLastTurnEvent | packages/agent-runtime/manager.go:224-304 | the turn on record is that of the last turn event |
| Recorder.StatusIsTheLastGiven | packages/agent-runtime/manager.go:224-304 | its status is the one given last |
| Recorder.ItemsMoveAlongEdges | packages/agent-runtime/manager.go:261-275 | a status that comes with an item is recorded only along an edge of the transition table |
| Recorder.StartsRunning | packages/agent-runtime/manager.go:224-246 | a turn started without a status is running, under the provider's turn id if there is one, and a turn event that leaves a final status finishes it |
| AgentProtocol.TransitionsByTarget | packages/agent-runtime/protocol.go:426-458 | the transition table read by target: from where each status can be reached |
| Recorder.RecordRun | packages/agent-runtime/manager.go:172-216 | exposed events are a prefix of handled ones, these of persisted ones, at most one apart; turns and items stored are those of the persisted events and at most one more; a run stops early only for an event that cannot be recorded, a failed write, the sink or a cancellation, and otherwise exposes everything |
| Recorder.OmpTurnRunsThenEnds | packages/agent-runtime/protocol.go:426-458 | any recorded part of an OMP-shaped stream stores one turn, running first, then at most one final status along an allowed transition |
| Recorder.OmpTurnIsStoredSoundly | packages/agent-runtime/manager.go:224-304 | the same from frames to storage, however the stream ended |
| Recorder.OmpItemsAreStored | packages/agent-runtime/manager.go:248-258 | from frames to stored items: one for each item frame whose event was sent, in order, on this thread and turn, saying what the frame says |
| Recorder.OmpTurnIsRecordable | packages/agent-runtime/manager.go:218-308 | the recorder takes every event of an OMP stream |
| Approvals.ApprovalManager.RespondApproval | packages/agent-runtime/approval_manager.go:11-93 | dispatches only from a pending item of a paused turn and otherwise changes nothing; a dispatched success has the item decided, the turn running and the decision accepted; any success means the item shows this decision, exactly unless it showed the opposite one before |
| Approvals.ApproveThenDeny | packages/agent-runtime/approval_manager.go:40-42 | approving and then denying an item succeeds both times, with only the first accepted |
| Approvals.ApprovalManager.Deliver | packages/agent-runtime/approval_manager.go:59-92 | whatever write or provider fails, item, turn and acceptance end in a possible combination; success means accepted, decided and resumed |
| Approvals.ApprovalManager.RecordDecision | packages/agent-runtime/approval_manager.go:73-92 | after acceptance: the item's final status, then the resumed turn, up to the first write that fails |
| Approvals.AtMostOneAccepted | packages/agent-runtime/approval_manager.go:40-92 | over any sequence of calls at most one response is accepted and a decided item shows that decision |
| Approvals.NeverRedispatched | packages/agent-runtime/approval_manager.go:40-45 | an item that has left pending, also one left running, is never dispatched again |
| Approvals.DispatchedBelongTogether | packages/agent-runtime/approval_manager.go:24-58 | in every run a dispatch is of a decision on a pending approval of a paused turn, with item, turn and thread belonging together, and nothing is accepted without one |
| OverlappingApprovals.AcceptedAtMostRequested | packages/agent-runtime/codex/approval.go:113-141 | however calls overlap, with the Codex store no more responses are accepted for an item than requests arrived for it |
| OverlappingApprovals.RunKeepsBacked | packages/agent-runtime/approval_manager.go:59-82 | in every state of every run of overlapping calls each acceptance is one answered request |
| OverlappingApprovals.OverlapAcceptsTwice | packages/agent-runtime/approval_manager.go:40-72 | a run in which two overlapping calls dispatch and a provider without single use accepts both decisions |
| OverlappingApprovals.OverlapForgetsDecision | packages/agent-runtime/approval_manager.go:66-70 | a run in which the Codex store refuses the second call, and that call returns the approved item to pending |
| CodexApprovals.RequestStore.Store | packages/agent-runtime/codex/approval.go:38-43 | keeps the request under the item unless either is empty |
| CodexApprovals.RequestStore.LoadAndDelete | packages/agent-runtime/codex/approval.go:45-52 | returns and removes the request of the item |
| CodexApprovals.RequestStore.Respond | packages/agent-runtime/codex/approval.go:113-141 | answers exactly a stored request with a supported decision whose sending succeeds, and otherwise leaves the store as it was |
| CodexApprovals.AnsweredAtMostOnce | packages/agent-runtime/codex/approval.go:113-141 | under every interleaving each stored request is in at most one place and answered successfully at most once |
| CodexApprovals.StepLosesExactly | packages/agent-runtime/codex/approval.go:38-52 | a step loses a request exactly when it stores over it or the request arrives under a blank item |
| CodexApprovals.NoneLostExactly | packages/agent-runtime/codex/approval.go:113-141 | in any run no request is lost exactly when none is stored for an item that holds one or under a blank item |
| CodexApprovals.PutBackLosesRequest | packages/agent-runtime/codex/approval.go:131-139 | a four-step run in which a put-back loses the request that arrived meanwhile |
| CodexApprovals.ArrivalLosesRequest | packages/agent-runtime/codex/provider.go:317-319 | a two-step run in which a second arrival loses the first request |
| CodexClient.EveryActionIsSafe | packages/agent-runtime/codex/client.go:287-411 | in no interleaving is a channel closed twice or sent on after its close, and no reply blocks its sender |
| CodexClient.AtMostItsOwnReply | packages/agent-runtime/codex/client.go:152-198 | a call receives at most one response, its own or word that the transport closed (JSON-RPC 2.0, section 5) |
| CodexClient.NoCallIsForgotten | packages/agent-runtime/codex/client.go:152-198 | in every state of every run a waiting call is still listed for its reply, or its response is with the reader or in its channel |
| CodexClient.SubscribersComeAndGo | packages/agent-runtime/codex/client.go:211-271 | a new subscriber gets a channel of its own, registered while the transport is open and closed once it is not; cancelling and draining close exactly the channels concerned |
| CodexClient.PendingCallsAreTold | packages/agent-runtime/codex/client.go:304-311 | every call pending when the replies are drained holds word, ever after, that the transport has closed |
| CodexClient.ReceivedWasRead | packages/agent-runtime/codex/client.go:330-354 | a reply received carries a payload that was read for that call while it was pending |
| CodexClient.ReadIsSent | packages/agent-runtime/codex/client.go:344-353 | what is read for a pending call is what the reader's next send puts into its channel |
| CodexClient.ReceiveGetsTheResponse | packages/agent-runtime/codex/client.go:179-197 | a call that receives gets the one response its channel holds |
| CodexClient.EverySubscriberHears | packages/agent-runtime/codex/client.go:389-411 | a broadcast that ends while the transport is open has been sent to every subscriber registered when it began |
| CodexClient.ClosedChannelHoldsReply | packages/agent-runtime/codex/client.go:179-197 | a waiting call never reads a closed channel that holds no response |
| CodexClient.NoneRegisteredAfterDrain | packages/agent-runtime/codex/client.go:211-271 | once Close has drained a topic nobody is registered for it, then or ever after |
| CodexClient.StepKeepsInvariant | packages/agent-runtime/codex/client.go:287-354 | every locked section and channel operation keeps the invariant of calls, channels and subscribers |

## Left out

- CPU is a real number and cost an unbounded integer: rounding of float64 totals is not modelled.
- Instants and durations are integers with 0 as the zero time; time stamps that are only stored (created, updated,
  occurred, responded) and the order of the approval query by them are omitted.
- `path.Clean` is written out from its documented rules; strings are sequences of code points in the scheduler and
  bytes in the execution package, and the decoding between the two is not modelled.
- SHA-256 is a free constructor: that different inputs have different digests is taken for granted.
- JSON and YAML decoding, database SQL, process execution, command output in evidence and log text: parsed records and
  oracles stand in for them.
- `sort.Slice` is an insertion sort on the array; its result is the only one possible for valid grants.
- MergeIntent: it only compares for equality, and intents of different epochs conflict because the epoch is compared.
- The order in which gates are run: the gate lists are described as sets without repeats.
- Authority.TrueReturnsAreCovered: assumes, as the code does, that nobody else writes the metadata of an approval row,
  and that rows are not deleted.
- Approvals.AtMostOneAccepted: calls for one item do not overlap, and a provider error means not accepted; what
  overlapping calls can do is in `OverlappingApprovals`, where writes to the item succeed and the turn is left out.
- CodexApprovals.AnsweredAtMostOnce: each request id arrives once; a write that reaches the server although an error is
  returned counts as unanswered.
- OmpProvider.TurnsAreExclusive: exclusion is per handle, as in the code; `OmpProvider.OneClientExactly` says when turns
  share a client.
- CodexClient.EveryActionIsSafe: that a broadcast to a full subscriber channel makes progress is not claimed; id counters
  are unbounded.
- Turn-level events may move a stored turn against the transition table; only changes that come with items are checked by
  the recorder, so no claim is made for providers other than OMP.
- The interleaved protocols (approval consumers, turn starts, the Codex store and client) are modelled on values, one locked
  section or channel operation a step: aliasing of channels and the Go memory model are not captured.
- Steering, interrupting, compaction, session directories, model references and message roles of the OMP provider.
- Policies, budgets, readiness, detection, the web front end, HTTP handlers, networking and audit.
