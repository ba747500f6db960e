# Semantic saga coordinator: model and proofs

A saga coordinator runs external actions on behalf of many callers, keeps every intended effect in a
fenced journal before it is attempted, and compensates in reverse order when something goes wrong.
This project models the coordinator as it runs: its stores, its leases, its workflow-DAG engine, its
recovery, its audit journal, its action registry and its risk budgets. It proves what every reachable
state and every whole run of that system keep.

## How the model is built

* **Stores.** `AbstractStore` is one lease-and-journal machine: a saga is a row (status, workflow nodes,
  step journal) and a lease (fence counter, holder). `MemoryStore.SagaStore` (dictionaries) and
  `SqliteStore.SqliteSagaStore` (tables and transactions) are classes whose methods are proved to perform
  exactly its transitions; `StepTable` holds what their step tables have in common.
  `FencedProtocol` is the protocol of many workers over one saga.
* **Coordinator.** `Programs` gives each operation as the sequence of store writes and external calls it
  makes after reading the row. `CoordinatorClass.Coordinator` is the imperative coordinator (node table updated in
  place, loops over waves, attempts and steps); each method is proved to leave exactly that sequence, and so
  (`Perform`) to keep the invariant wherever it is cut short.
  `Interleaving` lets any number of workers run operations one event at a time, so that a crash, a lost
  lease or a stale write may happen between any two events. `Ledger` is the invariant; `PlanSafety`,
  `RollbackSafety` and `WaveSafety` prove that every cut of every operation keeps it; `Guarantees`,
  `CompletedNodes` and `Authority` hold the theorems about whole runs, `Heartbeats` the lease guard and its
  beat interval, `Scenarios` reachable states where guarantees end. `Decisions`, `RunResults`, `RunEnds`,
  `RollbackResults` and `Aborts` say what one undisturbed call achieves, `Crashes` what becomes of one that
  is cut after a forward call.
* **Around it.** `Engine` (readiness), `Backoff`, `Audit`, `Registry`, `Policy`, `Governance`.

The rollback that follows a failed step or wave (coordinator.py:262-265, 645-646) is a `RollBack` operation
under a lease of its own, as it is in the code. Nodes are named by insertion position and steps by journal position (sequence number minus one). Actions,
input validation, contract resolution, thread scheduling and rule matching are an oracle: every theorem
holds for every oracle unless a hypothesis says otherwise. Time is a non-decreasing real passed in.

## Where the code does not do what one would expect

* **Empty compensation errors.** `if last_error:` takes an exception without a message for success
  (coordinator.py:739), so a pass can report ROLLED_BACK over steps it never compensated.
  So it does when `compensation_retries` is below one and no attempt is made (coordinator.py:711-715).
  `RollbackResults.EmptyErrorCounterexample` shows it; `RollbackResults.RolledBackIffAllUndone` gives the exact
  condition. Whole-run theorems that need it carry the hypothesis `AllSound`: no repair ends that way.
* **A crash that recovery does not see.** `run_ready_steps` records the results of a wave in the step
  journal before it saves the nodes (coordinator.py:601-630), and `_is_pending` only looks for EXECUTING
  *steps* (store.py:35-38). A crash in between leaves an ACTIVE saga with an EXECUTING node that no sweep
  ever claims. `Scenarios.SomeCrashIsNeverRecovered` reaches such a state;
  `RollbackResults.SweepClosesIffPending` gives the exact condition.
* **Risk units.** When a contract of a wave no longer resolves, the call raises after earlier members of the
  same wave were journaled but before their step ids are saved (coordinator.py:537-581). Those steps are
  counted on top of their nodes from then on. `Governance.RunConservesRiskIff` gives the exact condition:
  the units are conserved if and only if no wave reached has a member that does not resolve after a valid,
  step-less member of positive weight; `Governance.RunChargesExcess` gives the amount, and
  `Governance.AbortedWaveOverspends` a run that exceeds its budget.
* **External calls of a superseded worker** are not fenced: the lease check is a local flag
  (coordinator.py:76-80). Theorems about the external effects of a step assume that only the current lease
  holder made calls for that very step (it is not in `strays`); theorems about the journal do not.
  `Scenarios.LateCallEscapesRollback` shows that the assumption is needed, and
  `Heartbeats.NeverStraysIffKeepsUp` says when it holds: a beat interval of `max(0.05, lease_seconds / 3)`
  (coordinator.py:55) plus the worst lateness has to fit into the lease. With `lease_seconds` of 0.05 or
  less, which the constructor accepts (coordinator.py:101-102), it never does. A claim that waits for its
  turn in a sweep is not renewed meanwhile (coordinator.py:804-809); that wait is part of the lateness.
* **A committed saga with compensated steps.** A rollback that is cut before it saves the nodes, escalated by
  recovery (coordinator.py:819-836) and force-retried leaves COMPLETED nodes on steps it has already
  compensated; their dependents run, and the saga commits. `Scenarios.CommitsOverCompensatedStep` reaches
  both states. `CompletedNodes.CommittedSteps` gives the exact condition: the step of a node is not COMPLETED
  if and only if the saga was once ROLLING_BACK with that node COMPLETED and its step already marked.
* **Audit sequence numbers** are not covered by the hash: the head commits to everything else.
* **Sweep limits.** The in-memory store applies the sweep limit before it looks at leases (store.py:141),
  SQLite after (store.py:375-382). So in memory a held saga can hide a claimable one behind it
  (`MemoryStore.HeldSagaHidesClaimable`); `MemoryStore.SweepTakesAllIff` gives the exact condition.
* A duplicate saga or step id, which SQLite refuses, overwrites its predecessor in memory (store.py:52-56,
  72-79): the fence restarts while the old lease and the old steps stay.
* **Persisted contracts.** `from_snapshot` reads nulls, unknown keys and values of other types that it can
  convert, and drops or rewrites them (registry.py:93-111): `Registry.SnapshotUndoesFromSnapshotIff`.
* **Classes without source.** When the source of a runtime class cannot be found, only its name is digested
  (registry.py:167-170), so another class of that name may replace it: `Registry.SourcelessClassIsReplaced`.
* SQLite takes an empty status filter for no filter (store.py:301), and an unfenced update of a missing saga for success.
* A REJECTED node can be approved directly, not only retried (coordinator.py:389).

## Model

| member | source | states |
|---|---|---|
| Engine.DependencyStatus | src/semantic_saga_mcp/engine.py:79-95 | the loop over the dependency targets classifies a node as ready, blocked or waiting: a missing target blocks, all COMPLETED is ready, any stopped one blocks |
| Engine.RefreshMeaning | src/semantic_saga_mcp/coordinator.py:350-366 | a refresh changes only nodes that wait on dependencies or are blocked, only their status, and to READY, WAITING_APPROVAL, BLOCKED or WAITING_DEPENDENCY exactly as their refreshed dependencies and their approval call for |
| Engine.SolutionUnique | src/semantic_saga_mcp/coordinator.py:350-366 | the readiness equations of an acyclic plan have at most one solution |
| Engine.RefreshIsFixpoint | src/semantic_saga_mcp/coordinator.py:350-366 | one refresh in insertion order reaches that solution, and refreshing again changes nothing |
| Engine.AnyOrderConverges | src/semantic_saga_mcp/coordinator.py:350-366 | in whatever order each pass visits the nodes, as many passes as nodes reach the same result |
| Engine.BlockedIffPath | src/semantic_saga_mcp/coordinator.py:356-358 | a refreshable node ends BLOCKED if and only if a dependency path through refreshable nodes reaches a FAILED or REJECTED one |
| CoordinatorClass.RefreshNodes | src/semantic_saga_mcp/coordinator.py:350-366 | the in-place pass computes exactly that refresh |
| FencedProtocol.FencedIsolation | src/semantic_saga_mcp/store.py:63-70 | in every interleaving of acquire, renew, expiry, release, read, write and crash, an accepted write comes from a worker whose view of the row (last read plus own writes) is the stored row, and the row is earlier sessions' writes followed by its own |
| FencedProtocol.AcceptedInTokenOrder | src/semantic_saga_mcp/store.py:63-98 | accepted writes are ordered by fencing token and replaying them gives the stored row |
| FencedProtocol.LeaseExclusive | src/semantic_saga_mcp/store.py:109-136 | tokens count the grants and no instant lies inside the validity of two grants |
| FencedProtocol.SupersededIsPowerless | src/semantic_saga_mcp/store.py:123-136 | once a later lease was granted, its predecessors can never again renew, release or write |
| AbstractStore.ClaimsExclude | src/semantic_saga_mcp/store.py:109-146 | whatever calls anybody makes, until a claim runs out or its holder releases it no sweep can take the claimed saga, and the lease stays the claimant's under its token |
| AbstractStore.LeaseLifecycle | src/semantic_saga_mcp/store.py:109-136 | from a grant on: nobody else gets the lease before its end, then anybody under the next token; only the holder renews it, in time, or ends it; writes pass under its token and no other |
| AbstractStore.AcquireMeaning | src/semantic_saga_mcp/store.py:109-121 | a lease is granted exactly to the saga's own session when nobody holds an unexpired one, and otherwise nothing changes |
| AbstractStore.WriteReadsBack | src/semantic_saga_mcp/store.py:63-98 | an accepted write stores the fields given and keeps all others; a stale token changes nothing |
| AbstractStore.ListingIsUnique | src/semantic_saga_mcp/store.py:85-92 | the ordered, complete listing of wanted steps is unique |
| StepTable.ListingPositions | src/semantic_saga_mcp/store.py:85-92 | read as journal positions, what a store lists is that unique listing |
| StepTable.StepInserted | src/semantic_saga_mcp/store.py:72-79 | a step stored under a fresh id and the next number goes to the end of its saga's journal, every other journal is unchanged, so sequences are exactly 1..n in creation order |
| StepTable.StepReplaced | src/semantic_saga_mcp/store.py:94-98 | an updated step keeps its saga and its place |
| MemoryStore.SagaStore.constructor | src/semantic_saga_mcp/store.py:44-50 | a new store is empty |
| MemoryStore.SagaStore.CreateSaga | src/semantic_saga_mcp/store.py:52-56 | a fresh id adds a saga with an empty journal, fence 0 and no lease, last in order, and nothing else; a duplicate one restarts sequence and fence and keeps steps, lease and place |
| MemoryStore.SagaStore.GetSaga | src/semantic_saga_mcp/store.py:58-61 | returns the stored row only to its own session |
| MemoryStore.SagaStore.UpdateSaga | src/semantic_saga_mcp/store.py:67-70 | performs the abstract fenced write; a stale token changes nothing |
| MemoryStore.SagaStore.CreateStep | src/semantic_saga_mcp/store.py:72-79 | performs the abstract fenced append and gives the step the next sequence number; a duplicate step id replaces the older row |
| MemoryStore.SagaStore.UpdateStep | src/semantic_saga_mcp/store.py:94-98 | performs the abstract fenced update at the step's place; an unknown id changes nothing |
| MemoryStore.SagaStore.AcquireSagaLease | src/semantic_saga_mcp/store.py:109-121 | performs the abstract acquisition: only for the session, only when free, under the next token |
| MemoryStore.SagaStore.RenewSagaLease | src/semantic_saga_mcp/store.py:123-130 | performs the abstract renewal: only owner, token and an unexpired lease |
| MemoryStore.SagaStore.ReleaseSagaLease | src/semantic_saga_mcp/store.py:132-136 | performs the abstract release: only owner and token, the fence stays |
| MemoryStore.SagaStore.ListSteps | src/semantic_saga_mcp/store.py:85-92 | lists exactly the wanted steps of the saga in sequence order, forwards or backwards |
| MemoryStore.SagaStore.PendingRollbacks | src/semantic_saga_mcp/store.py:100-107 | lists, once and in insertion order, exactly the sagas that are FAILED, ROLLING_BACK or ROLLBACK_FAILED, or ACTIVE with an EXECUTING step |
| MemoryStore.SagaStore.ClaimPendingRollbacks | src/semantic_saga_mcp/store.py:138-146 | claims, one after the other under their next tokens, exactly the free ones among the first pending sagas in insertion order |
| MemoryStore.SweepTakesAllIff | src/semantic_saga_mcp/store.py:138-146 | a sweep takes every claimable saga if and only if no pending saga beyond its limit is free |
| MemoryStore.TakenAwait | src/semantic_saga_mcp/store.py:138-146 | whatever a sweep takes is FAILED, ROLLING_BACK or ROLLBACK_FAILED, or ACTIVE with an EXECUTING step |
| MemoryStore.HeldSagaHidesClaimable | src/semantic_saga_mcp/store.py:141-141 | with a limit of one, a held pending saga in front of a claimable one makes the sweep take nothing |
| SqliteStore.SqliteSagaStore.CreateSaga | src/semantic_saga_mcp/store.py:235-244 | refines the same creation; a duplicate id changes nothing |
| SqliteStore.SqliteSagaStore.UpdateSaga | src/semantic_saga_mcp/store.py:256-265 | refines the same fenced write, except that an unfenced update of a missing row succeeds |
| SqliteStore.SqliteSagaStore.CreateStep | src/semantic_saga_mcp/store.py:267-294 | refines the same append; when the insert fails the sequence number is given back and nothing changes |
| SqliteStore.SqliteSagaStore.UpdateStep | src/semantic_saga_mcp/store.py:308-320 | refines the same update in place |
| SqliteStore.SqliteSagaStore.ListSteps | src/semantic_saga_mcp/store.py:299-306 | refines the same listing, except that an empty filter filters nothing |
| SqliteStore.SqliteSagaStore.AcquireSagaLease | src/semantic_saga_mcp/store.py:331-350 | refines the same acquisition |
| SqliteStore.SqliteSagaStore.RenewSagaLease | src/semantic_saga_mcp/store.py:352-361 | refines the same renewal |
| SqliteStore.SqliteSagaStore.ReleaseSagaLease | src/semantic_saga_mcp/store.py:363-367 | refines the same release |
| SqliteStore.SqliteSagaStore.FreePending | src/semantic_saga_mcp/store.py:375-382 | selects distinct sagas with a free lease that are FAILED, ROLLING_BACK or ROLLBACK_FAILED, or ACTIVE with an EXECUTING step, by time of update; one is left out only when the limit is reached, and was then updated no earlier than any selected one |
| SqliteStore.SqliteSagaStore.ClaimPendingRollbacks | src/semantic_saga_mcp/store.py:369-394 | refines the same sequential claim, over exactly such a selection |
| Backoff.BaseGrowsToMaximum | src/semantic_saga_mcp/engine.py:53-60 | for an accepted policy the delay before jitter never shrinks and never exceeds the maximum |
| Backoff.BaseFollowsPolicy | src/semantic_saga_mcp/engine.py:53-60 | the first delay is the initial one, each later one the multiple of the one before, both capped at the maximum |
| Backoff.JitterSpreads | src/semantic_saga_mcp/engine.py:61-65 | the hash fraction spreads a delay evenly from base times one minus jitter to base times one plus jitter |
| Backoff.DelayWithinJitter | src/semantic_saga_mcp/engine.py:61-65 | each delay lies between base times one minus jitter and base times one plus jitter |
| Backoff.TotalSleepBounded | src/semantic_saga_mcp/coordinator.py:181-197 | a loop of k attempts sleeps at most (k-1) times maximum times one plus jitter |
| CoordinatorClass.Coordinator.InvokeForward | src/semantic_saga_mcp/coordinator.py:168-197 | calls the action up to its first success or the last attempt, always for the same step, sleeping exactly the delays between attempts |
| CoordinatorClass.Coordinator.Execute | src/semantic_saga_mcp/coordinator.py:199-258 | on an ACTIVE saga appends one step that ends COMPLETED exactly when some allowed attempt succeeds; a failure makes it FAILED and the saga RECOVERY_REQUIRED or FAILED as the contract says |
| CoordinatorClass.Coordinator.PlanStep | src/semantic_saga_mcp/coordinator.py:296-348 | succeeds exactly on an ACTIVE saga with a resolvable contract, known dependencies and a fresh non-blank key; then appends one node as asked for, gated by the explicit word of the caller if there is one and by the policy otherwise, and refreshes the plan |
| CoordinatorClass.Coordinator.ApproveStep | src/semantic_saga_mcp/coordinator.py:378-419 | on a gated node that waits for approval or was rejected: an approval makes the saga ACTIVE and the node READY or wait for its dependencies, a rejection makes the saga RECOVERY_REQUIRED and the node REJECTED, and nothing else changes |
| CoordinatorClass.Coordinator.RetryStep | src/semantic_saga_mcp/coordinator.py:429-458 | reopens a FAILED, REJECTED or BLOCKED node, one of uncertain outcome only by force: it keeps its step, is certain again, and waits for an approval it lacks or has the status its dependencies call for |
| CoordinatorClass.Coordinator.PrepareWave | src/semantic_saga_mcp/coordinator.py:537-580 | journals each member of a wave, in order, until one does not resolve |
| CoordinatorClass.Coordinator.CallWave | src/semantic_saga_mcp/coordinator.py:585-598 | makes every forward attempt of every member, up to its first success or its last attempt, in an arbitrary order across members |
| CoordinatorClass.Coordinator.RecordWave | src/semantic_saga_mcp/coordinator.py:600-627 | records every result on its node and its step |
| CoordinatorClass.Coordinator.RunReadySteps | src/semantic_saga_mcp/coordinator.py:508-647 | raises exactly when out of bounds, not ACTIVE, or a wave reached has a member that does not resolve; otherwise ends ACTIVE, FAILED or RECOVERY_REQUIRED as the contracts of the failed members say |
| CoordinatorClass.Coordinator.Commit | src/semantic_saga_mcp/coordinator.py:649-669 | commits exactly an ACTIVE saga all of whose nodes are COMPLETED |
| CoordinatorClass.Coordinator.CompensateStep | src/semantic_saga_mcp/coordinator.py:694-748 | the attempts, their recording, and whether the step counts as failed |
| CoordinatorClass.Coordinator.Rollback | src/semantic_saga_mcp/coordinator.py:674-777 | refuses terminal sagas; otherwise every step, every node and the saga end as the repairs went |
| CoordinatorClass.Coordinator.Resume | src/semantic_saga_mcp/coordinator.py:804-843 | escalates a saga with an EXECUTING node that must pause, as a whole, and rolls back any other |
| CoordinatorClass.Coordinator.Perform | src/semantic_saga_mcp/coordinator.py:45-88 | whatever operation a worker performs, its writes and calls are those of the program, and the invariant holds wherever it is cut short |
| Interleaving.ProgramGoodAtEveryCut | src/semantic_saga_mcp/coordinator.py:45-88 | the same for programs: any prefix of any operation keeps the invariant, whatever the history |
| Programs.TriesMeaning | src/semantic_saga_mcp/coordinator.py:180-197 | the attempt loop succeeds if and only if some allowed attempt does, within the allowed number and with at least one when any is allowed |
| Decisions.TriesAreExact | src/semantic_saga_mcp/coordinator.py:180-197 | all attempts made but the last were raised, and the last succeeded or was the last allowed |
| Decisions.PlanMeaning | src/semantic_saga_mcp/coordinator.py:306-345 | the node a request adds: its key, contract and first-occurrence dependencies, its gate, its approval and the status its dependencies call for; the other nodes are refreshed, steps and saga status stay |
| Decisions.ApproveMeaning | src/semantic_saga_mcp/coordinator.py:381-416 | the saga status, the approval and the status of the node after each decision |
| Decisions.RetryMeaning | src/semantic_saga_mcp/coordinator.py:432-453 | who may retry what, and the saga, the node and the others afterwards |
| Decisions.ExecuteMeaning | src/semantic_saga_mcp/coordinator.py:203-258 | the step and the saga status after an unplanned step, by its attempts and its contract |
| Decisions.ExecuteCalls | src/semantic_saga_mcp/coordinator.py:214-238 | the step is journaled first, then called as often as the attempt loop says, and nothing else is called |
| Programs.Listed | src/semantic_saga_mcp/coordinator.py:687-691 | the steps a rollback lists: all but the compensated ones, newest first |
| Programs.ListedAtOnce | src/semantic_saga_mcp/coordinator.py:682-691 | a rollback that lists its steps right after writing ROLLING_BACK lists those of the row it read; one that lists them later is a move of its own in the interleavings |
| Programs.ReadyInOrder | src/semantic_saga_mcp/coordinator.py:531-531 | the nodes a run chooses from come in insertion order |
| PlanSafety.PlanSafe | src/semantic_saga_mcp/coordinator.py:296-348 | planning keeps the invariant at every cut |
| PlanSafety.ApproveSafe | src/semantic_saga_mcp/coordinator.py:378-419 | approving and rejecting keep it at every cut |
| PlanSafety.RetrySafe | src/semantic_saga_mcp/coordinator.py:429-458 | retrying keeps it at every cut |
| PlanSafety.CommitSafe | src/semantic_saga_mcp/coordinator.py:649-669 | committing keeps it |
| WaveSafety.SavePrepared | src/semantic_saga_mcp/coordinator.py:555-581 | saving the prepared wave is the write-ahead point: every node about to run is linked to a journaled EXECUTING step |
| WaveSafety.RunSafe | src/semantic_saga_mcp/coordinator.py:528-641 | a whole run keeps the invariant at every cut |
| WaveSafety.ExecuteSafe | src/semantic_saga_mcp/coordinator.py:203-258 | an unplanned step keeps it at every cut |
| RollbackSafety.RollbackSafe | src/semantic_saga_mcp/coordinator.py:676-777 | a rollback pass keeps it at every cut |
| RollbackSafety.RecoverSafe | src/semantic_saga_mcp/coordinator.py:804-843 | a recovery pass keeps it at every cut |
| Interleaving.NextKeeps | src/semantic_saga_mcp/coordinator.py:45-88 | every move of any worker, stale ones included, keeps the invariant and never rewrites history |
| Interleaving.AlwaysInv | src/semantic_saga_mcp/coordinator.py:158-166 | the invariant holds in every reachable world |
| Guarantees.TerminalIsForever | src/semantic_saga_mcp/coordinator.py:649-777 | COMMITTED and ROLLED_BACK are never left, by any operation, stale worker or recovery pass |
| Guarantees.TerminalMeansDone | src/semantic_saga_mcp/coordinator.py:649-777 | a reachable COMMITTED saga has only COMPLETED nodes; a reachable ROLLED_BACK one, no repair having slipped, has only COMPENSATED steps, every node that ran COMPENSATED, and nothing in flight |
| Guarantees.OneStepPerNode | src/semantic_saga_mcp/coordinator.py:547-590 | every forward call ever made for a node, across waves, retries, crashes and takeovers, carries the same step |
| Guarantees.StepsAreUnshared | src/semantic_saga_mcp/coordinator.py:556-577 | two nodes never run under the same step |
| Guarantees.InvokedIsCovered | src/semantic_saga_mcp/coordinator.py:214-258 | at every point of every run, a step invoked after its last successful compensation, and for which no superseded worker made a call, is journaled with a status rollback picks up |
| Guarantees.RolledBackUndidEveryCall | src/semantic_saga_mcp/coordinator.py:687-774 | in a reachable ROLLED_BACK saga the last external call of every invoked step is a successful compensation, unless a superseded worker made a call for that step |
| Guarantees.DependenciesHold | src/semantic_saga_mcp/coordinator.py:350-366 | outside rollback every READY, EXECUTING or COMPLETED node has all its dependencies COMPLETED; while unwinding that holds or nothing is in flight |
| Guarantees.ApprovalIsRespected | src/semantic_saga_mcp/coordinator.py:387-413 | in every run a node that requires approval is READY, EXECUTING or COMPLETED only while its decision is APPROVED |
| Guarantees.PlansStayWellFormed | src/semantic_saga_mcp/coordinator.py:306-345 | in every run the graph stays acyclic, keys unique, links unshared, and what was planned is never rewritten |
| CompletedNodes.CompletedWasCalled | src/semantic_saga_mcp/coordinator.py:585-630 | in every run a COMPLETED node was called under its own step |
| Authority.UncertaintyNeedsForce | src/semantic_saga_mcp/coordinator.py:440-449 | in every run an uncertain outcome is cleared only by a session that read the row for a forced retry of that node while it was uncertain |
| Authority.ApprovedByDecision | src/semantic_saga_mcp/coordinator.py:387-395 | in every run a decision is APPROVED only if a session read the row to approve that node |
| Authority.NodesWerePlanned | src/semantic_saga_mcp/coordinator.py:306-341 | every node of every reachable saga was planned by a request at its place, and keeps its key, contract, dependencies and gate |
| Authority.RequestedApprovalHolds | src/semantic_saga_mcp/coordinator.py:318-331 | a node whose request asked for approval, or left it to a policy that does, is READY, EXECUTING or COMPLETED only after a session read the row to approve it |
| CompletedNodes.CompletedStepIff | src/semantic_saga_mcp/coordinator.py:600-777 | in every run the step of a COMPLETED node is COMPLETED if and only if the saga was never ROLLING_BACK with that node COMPLETED and its step already marked |
| CompletedNodes.CommittedSteps | src/semantic_saga_mcp/coordinator.py:600-777 | in a reachable COMMITTED saga the step of a node is not COMPLETED if and only if the saga was once ROLLING_BACK with that node COMPLETED and its step already marked |
| CompletedNodes.DependencySteps | src/semantic_saga_mcp/coordinator.py:350-366 | outside rollback a node under way has COMPLETED dependencies, and their steps are COMPLETED too under exactly that condition |
| RunResults.BoundedRun | src/semantic_saga_mcp/coordinator.py:528-641 | a run starts at most max_steps nodes, each at most once, and calls actions only for nodes it started |
| RunEnds.RunVerdict | src/semantic_saga_mcp/coordinator.py:508-647 | a run ends ACTIVE, FAILED if and only if some started node ended FAILED whose contract says rollback, or RECOVERY_REQUIRED if and only if some ended FAILED and none of those says so; out of bounds nothing happens |
| RunEnds.ChosenAreFirst | src/semantic_saga_mcp/coordinator.py:529-536 | a wave takes the first READY nodes, as many as max_parallel, the budget and the plan allow |
| RunEnds.WaveRecords | src/semantic_saga_mcp/coordinator.py:541-627 | in an executed wave a valid member and its step end COMPLETED exactly when some allowed attempt succeeds, else FAILED; a member of invalid input ends FAILED without a new step |
| Aborts.RunRaisesIff | src/semantic_saga_mcp/coordinator.py:537-545 | an allowed run raises if and only if it reaches a wave with a member whose contract does not resolve |
| RunResults.WaveCallsMembers | src/semantic_saga_mcp/coordinator.py:168-197 | an executed wave calls each member up to its first success, at most its policy's attempts and at least once if it succeeds, and no other node |
| Aborts.AbortsIffUnresolvable | src/semantic_saga_mcp/coordinator.py:537-580 | preparing a wave raises if and only if the contract of some member does not resolve |
| Aborts.PrepareJournals | src/semantic_saga_mcp/coordinator.py:537-580 | the steps it has journaled by then are exactly those of the valid, step-less members before the first such one |
| RunResults.NothingReadyLeft | src/semantic_saga_mcp/coordinator.py:529-535 | a run that ends ACTIVE with budget left and nothing refused leaves no READY node |
| RunResults.DagProgress | src/semantic_saga_mcp/coordinator.py:528-669 | a healthy plan whose actions succeed is completed by one call with enough budget, whatever the parallelism, and then commits |
| RollbackResults.ReverseCompensation | src/semantic_saga_mcp/coordinator.py:687-738 | one pass calls compensation only for listed steps, newest first, stops at a success, and stays within each step's attempts |
| RollbackResults.PassVerdict | src/semantic_saga_mcp/coordinator.py:693-774 | the status and recorded attempts of every step, the status of every node and the verdict, by the outcome of the repairs: a node is COMPENSATED when its step is, COMPENSATION_FAILED when its step failed, and otherwise as it was |
| RollbackResults.RolledBackIffAllUndone | src/semantic_saga_mcp/coordinator.py:739-749 | a pass reports ROLLED_BACK exactly when all steps end COMPENSATED, if and only if some listed repair fails outright or none of them slips (ends on an empty error, or makes no attempt at all) |
| RollbackResults.EmptyErrorCounterexample | src/semantic_saga_mcp/coordinator.py:739-749 | an empty error message makes a pass report ROLLED_BACK over an uncompensated step |
| RollbackResults.RecoveryCloses | src/semantic_saga_mcp/coordinator.py:804-841 | recovery of a pending saga escalates exactly when an EXECUTING node must pause or has no provable policy, then calls nothing and makes every EXECUTING node FAILED and uncertain; otherwise it is a rollback pass; and exactly when it leaves nothing in flight |
| RollbackResults.SweepClosesIffPending | src/semantic_saga_mcp/store.py:35-38 | a sweep leaves no node EXECUTING if and only if there was none, or the saga was FAILED, ROLLING_BACK or ROLLBACK_FAILED, or ACTIVE with an EXECUTING step |
| Crashes.CrashIsRecovered | src/semantic_saga_mcp/coordinator.py:555-600 | an operation cut after a forward call and before anything more is written leaves an ACTIVE saga with that step EXECUTING, which a sweep claims and closes |
| Scenarios.SoloReaches | src/semantic_saga_mcp/coordinator.py:45-88 | every cut of every operation is a reachable state |
| Scenarios.SomeCrashIsNeverRecovered | src/semantic_saga_mcp/coordinator.py:600-630 | a crash between recording a result and saving the node leaves a saga no sweep changes |
| Scenarios.LateCallEscapesRollback | src/semantic_saga_mcp/coordinator.py:76-80 | a worker that wakes up after its lease ran out can leave a ROLLED_BACK saga whose last external call is a forward call |
| Scenarios.CommitsOverCompensatedStep | src/semantic_saga_mcp/coordinator.py:687-836 | a run of plan, cut run, cut rollback, recovery, forced retry, run and commit reaches a READY node over a compensated dependency, and then a COMMITTED saga with that COMPENSATED step |
| Heartbeats.LeaseGuard.Enter | src/semantic_saga_mcp/coordinator.py:45-58 | takes over a claimed token or acquires one; on success the lease is the worker's for a full period |
| Heartbeats.LeaseGuard.Beat | src/semantic_saga_mcp/coordinator.py:60-74 | after a heartbeat the lease is the worker's for another full period, or the guard knows that it is lost and nothing changed |
| Heartbeats.LeaseGuard.Exit | src/semantic_saga_mcp/coordinator.py:82-88 | releases exactly a lease that is not known to be lost |
| Heartbeats.TimelyRun | src/semantic_saga_mcp/coordinator.py:45-88 | while time never reaches the end of a working holder's lease, only the current holder has anything left to do and no superseded worker ever makes a call |
| Heartbeats.TimelyRollbackUndoesEverything | src/semantic_saga_mcp/coordinator.py:45-88 | in such runs every ROLLED_BACK saga has undone every call ever made for it |
| Heartbeats.KeepsUpIff | src/semantic_saga_mcp/coordinator.py:55-55 | the beat interval and a lateness fit into the lease if and only if the lateness stays below two thirds of it, or for leases up to 0.15 seconds below what the floor of 0.05 leaves; for 0.05 and less never |
| Heartbeats.NeverStraysIffKeepsUp | src/semantic_saga_mcp/coordinator.py:45-74 | in all runs with heartbeats at most that late no superseded worker makes a call, if and only if interval and lateness fit into the lease |
| Audit.InterleavedAppendsVerify | src/semantic_saga_mcp/audit.py:209-223 | after any interleaving of appends every saga's chain verifies, holds exactly its events in order, and its head commits to all of them |
| Audit.HeadCommits | src/semantic_saga_mcp/audit.py:16-18 | two verifying chains with the same head are the same history |
| Audit.TamperingDetectedIff | src/semantic_saga_mcp/audit.py:282-307 | rows pass the check against a remembered head if and only if they are the original ones up to sequence numbers |
| Audit.TruncationVerifies | src/semantic_saga_mcp/audit.py:282-307 | a cut-off tail still verifies, always under another head |
| Audit.StoreAuditJournal.LastHash | src/semantic_saga_mcp/audit.py:210-214 | the backward scan finds the head of the saga's chain |
| Audit.StoreAuditJournal.Append | src/semantic_saga_mcp/audit.py:209-223 | refuses exactly an event with unknown fields or without saga, type or time, and then changes nothing; otherwise appends one row with the fields given, linked to the head of its saga, under the next number |
| Audit.StoreAuditJournal.VerifyRows | src/semantic_saga_mcp/audit.py:282-307 | on arbitrary rows: valid if and only if chained, and otherwise the first broken row |
| Audit.StoreAuditJournal.Verify | src/semantic_saga_mcp/audit.py:282-307 | an untouched journal verifies with the exact count and head |
| Registry.FromSnapshotUndoesSnapshot | src/semantic_saga_mcp/registry.py:67-111 | reading back a persisted contract gives the contract again, apart from its active flag |
| Registry.SnapshotUndoesFromSnapshotIff | src/semantic_saga_mcp/registry.py:93-111 | a readable snapshot comes back unchanged if and only if it holds both defaulted keys, no unknown key, and under each key the type it is written with (no null, nothing converted) |
| Registry.VersionsAreImmutable | src/semantic_saga_mcp/registry.py:146-207 | over any sequence of registrations, refused ones included, a registered version keeps its hash and its templates, or a class with the same name and source digest, and an active pointer never moves |
| Registry.RegistrationMeaning | src/semantic_saga_mcp/registry.py:151-161 | a version of another digest is refused and changes nothing; any other is stored, and an active one becomes what the action resolves to unless another version is active |
| Registry.ValidityMeaning | src/semantic_saga_mcp/registry.py:49-66 | which contracts are refused, and what a runtime contract is completed to |
| Registry.SourceIsKept | src/semantic_saga_mcp/registry.py:163-171 | where the source of a runtime class is found before and after, it is the same source under the same name |
| Registry.SourcelessClassIsReplaced | src/semantic_saga_mcp/registry.py:163-202 | where it is not found, any class of that name replaces the registered one |
| Registry.RuntimeReplacedIff | src/semantic_saga_mcp/registry.py:146-202 | registering a class for an existing version replaces its entry if and only if the digests agree, that is, the rest of the contract is the same and the class has the same name and, as far as sources are found, the same source; otherwise nothing changes |
| Registry.RecoveryUsesJournaledContract | src/semantic_saga_mcp/registry.py:237-265 | a step with its digest intact is recovered under exactly the contract and policy it was journaled with, and its templates or a class with that source digest, or not at all |
| Registry.RecoverableIff | src/semantic_saga_mcp/registry.py:237-265 | an untouched step is recoverable if and only if its contract is HTTP or the very same runtime version is registered |
| Registry.RecoveredIff | src/semantic_saga_mcp/registry.py:237-265 | a step with full metadata is recovered if and only if its snapshot has the stored digest, reads back, names the step's action and version, and is HTTP or registered with that digest |
| Registry.RegisteredStaysRecoverable | src/semantic_saga_mcp/registry.py:146-265 | a contract registered when its step was journaled stays recoverable whatever is registered later |
| Registry.LegacyRecoversUnderActiveIff | src/semantic_saga_mcp/registry.py:242-248 | a step without full metadata is recovered only with the legacy switch, under whatever is active now |
| Registry.ActionRegistry.RegisterDefinition | src/semantic_saga_mcp/registry.py:146-161 | registers an HTTP version; a conflicting one is refused, a second active one is refused but stays stored |
| Registry.ActionRegistry.RegisterRuntime | src/semantic_saga_mcp/registry.py:173-207 | the same for a runtime class under its source digest, filling in a missing or empty semantic description and input schema |
| Registry.ActionRegistry.ResolveForStep | src/semantic_saga_mcp/registry.py:237-265 | succeeds only with the journaled contract, and its templates or a class with its source digest |
| Policy.JsonPolicyEngine.BudgetDecision | src/semantic_saga_mcp/policy.py:249-269 | denies if and only if some budget is exceeded, naming one |
| Policy.JsonPolicyEngine.Decide | src/semantic_saga_mcp/policy.py:271-312 | an exceeded budget denies whatever the rules say; otherwise the first matching rule decides, then the threshold, then the default |
| Policy.EffectiveMeaning | src/semantic_saga_mcp/policy.py:195-209 | a tenant's own budgets, threshold and default win key by key over the wildcard's, and those over the fallback |
| Policy.OwnRulesFirst | src/semantic_saga_mcp/policy.py:195-209 | a matching rule of the tenant's own beats every wildcard rule; otherwise the first matching wildcard rule decides |
| Policy.ThresholdMeaning | src/semantic_saga_mcp/policy.py:295-298 | a threshold is reached by its own risk and those above it, an unlisted risk counting as unknown |
| Policy.LowerMeaning | src/semantic_saga_mcp/policy.py:205-205 | letters are lowered one by one and nothing else changes |
| Policy.KeyNames | src/semantic_saga_mcp/policy.py:252-257 | each exceeded budget is reported under its own name |
| Governance.Usage | src/semantic_saga_mcp/governance.py:82-99 | counts steps and nodes, and charges every node once and every step without a node once |
| Governance.RiskWeightMeaning | src/semantic_saga_mcp/governance.py:75-80 | a listed risk weighs what is listed, another what unknown weighs, and three where nothing usable is listed |
| Governance.AdmittedMeaning | src/semantic_saga_mcp/governance.py:216-360 | which governed calls reach the coordinator, and as what: budgets and rules of each operation |
| Governance.RunConservesRiskIff | src/semantic_saga_mcp/coordinator.py:528-581 | a run conserves the risk units if and only if no wave it reaches has a member that does not resolve after a valid, step-less member of positive weight |
| Governance.RunChargesExcess | src/semantic_saga_mcp/governance.py:82-99 | what it adds otherwise is the weight of the valid, step-less members before the first unresolvable one |
| Governance.BudgetsHold | src/semantic_saga_mcp/governance.py:216-257 | in every sequential governed run, whatever the rules say, planned nodes stay within budget and risk units exceed theirs by no more than its waves charged on top |
| Governance.WithinBudgetUnlessOvercharged | src/semantic_saga_mcp/governance.py:216-299 | both budgets hold in every governed run in which no wave reached has an unresolvable member after a valid, step-less one of positive weight |
| Governance.ResolvedRunsStayWithinBudget | src/semantic_saga_mcp/governance.py:216-299 | in particular as long as every contract resolves |
| Governance.AbortedWaveOverspends | src/semantic_saga_mcp/coordinator.py:537-581 | with a contract that does not resolve, a run within budget ends above it |

## Left out

- The PostgreSQL store, SQL and JSON text, schema migration and JSON Schema: abstract rows, predicates and oracles stand for them.
- Payloads: inputs, results, error texts, timestamps, node attempt counters and checkpoints carry no property here.
- Heartbeat threads and the thread pool: the guard's beat is a method, renewals are free moves of the protocol, and the calls of a wave's members come in an arbitrary order; sleeping between the attempts of a member has no effect there.
- Malformed persisted engine state (`engine_state` raising), step metadata columns of the wrong type, and request templates that `HttpRequest` refuses.
- Session ids in `Interleaving`: one saga with one session; the stores model the session check.
- SHA-256 and canonical JSON: digests are symbolic, so collisions do not exist.
- Rule matching and role checks of the policy engine, the OPA adapter and policy document validation: rules are an oracle.
- Policy.RiskName: lower-casing covers ASCII letters only.
- MemoryStore.SagaStore.CreateSaga: after a duplicate id, which version-4 UUIDs do not produce, the new dictionaries are stated, but the store's invariant is not promised any more. The same goes for MemoryStore.SagaStore.CreateStep.
- SqliteStore.SqliteSagaStore.FreePending: times of update are ranks; which of two equal ones comes first is left open.
- Audit.StoreAuditJournal.Append: the in-memory backend; the SQL backends additionally reject a duplicate event id.
- Backoff.DelayWithinJitter: real arithmetic, no floating-point rounding.
- Governance.BudgetsHold: sequential and crash-free; the step budget and the parallelism budget are checked per call only and bound no run.
- Protocol adapters, servers, command line, token verification, telemetry and HTTP sending.
