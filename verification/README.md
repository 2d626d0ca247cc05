# Link42: model and proofs

Link42 is a controller that manages WireGuard and GRE links on many nodes, and an
agent on each node that carries the work out. This project models its three
hardest parts in Dafny and proves what they promise, for every input, every run or
every reachable state:

1. **The controller/agent protocol** (`Tasks`, `ChainWalk`, `Protocol`,
   `ProtocolSafety`, `Completion`, `HandoutOrder`, `Rejections`, `RenamePlan`, `RenameRefresh`, `Plans`,
   `PollSpec`, `Controller`, `PlanRuns`, `Keys`, `Enqueue`, `EnqueueSteps`, `EnqueueRace`, `EnqueueEdits`,
   `EnqueueRuns`, `LookingGlass`, `Identity`, `AgentClient`, `ResultBudget`). A state machine of 20 kinds
   of events over a table of agent tasks, polls, agents and a network that loses poll
   responses and loses, delays and repeats reports. The controller's handlers are methods of
   a class whose fields they update; polls, reports, sweeps, cancellations and confirmations
   are proved to be runs of the protocol's events, so the theorems about runs hold of them.
   What a poll does to the table and what it hands out is also specified row by row, over the
   columns of the table.
   Two machines run around the protocol: confirmations of change plans, and enqueueing
   requests, each with its statements as separate steps between any other events. Looking
   Glass queries and configuration identities sit on top.
2. **The wg-quick pipeline** (`Text`, `Numbers`, `Lists`, `Endpoint`, `WgQuick`, `PeerOrder`,
   `WgFields`, `WgRoundTrip`, `WgReading`, `WgWarnings`, `WgLaws`, `WgCustom`, `WgLayout`, `Secrets`,
   `SecretSources`, `Uci`, `UciDeploy`, `UciOptions`, `UciExact`, `UciNetwork`). A renderer and a parser
   that undo each other, what the parser makes of any text at all, the inheritance of secrets from
   deployed text, and the compilation of a parsed configuration into commands on an indexed
   section store with staging, commit and rollback.
3. **Transactional file editing on the node** (`Bird`, `Udp2raw`, `ManagedBlock`,
   `SnippetFiles`, `Mimic`). Multi-file apply with rollback, a flat text file that
   acts as a map, and a managed block that never loses the user's own text.

`dafny verify dfyconfig.toml` checks everything.

## How the model reads the code

- A handler is one atomic step, except where the code defends against interleaving: a poll
  finds a row ready and claims it in two steps, and hands out the row as it is after the
  claim; enqueueing looks up, writes, inserts and recovers in separate steps, of which the
  insert is decided by the unique index, the write of an endpoint request is conditional and
  that of an interface request is not; a confirmation reads the plan and then updates it
  conditionally; and a report is written by a compare-and-set. A conditional UPDATE is an
  atomic compare-and-set on a map.
- The clock, the network, random backup names and tokens, command results, address
  parsing, path resolution and digests are parameters. Where a command or write may
  fail, the answer is a parameter too, and the contracts say what holds for each answer;
  a failed write of an existing BIRD file leaves arbitrary content behind.
- Histories (what was handed out, executed and applied; which incarnation a row is)
  are part of the protocol's state so that properties can speak about whole runs. No
  modelled handler reads them.
- Integers are unbounded, as in the original; decimal text is converted by an explicit
  function that accepts signs, surrounding spaces and single underscores.

## What turned out not to hold as hoped

- A row can be handed out before its own dependency: the payload is read again after the
  claim, so a refresh between the check and the claim is handed out unchecked
  (`HandoutOrder.RefreshInWindow`). The row follows its own dependency exactly when no
  refresh in that window leaves it with an unmet one (`HandoutOrder.OwnDependencyIff`), and
  runs without such refreshes keep the order throughout (`HandoutOrder.HappensBefore`).
- A rename plan survives a refresh of its pending rows exactly when the new payload still
  depends on the predecessor, or lets the row never be handed out because it cannot be
  delivered or waits for itself (`RenameRefresh.RenameInOrderIff`). Any other payload, such as
  one without a dependency, lets the row overtake its pending predecessor in some run
  (`RenameRefresh.HarmfulRefreshOvertakes`). The continue flag plays no part: an apply and a
  delete do not obey it.
- Enqueueing never leaves two pending rows under one key, but an edit can be lost or refused.
  An endpoint edit raises exactly when its insert is refused and no pending row is left at the
  recovery, and is lost exactly when its insert is refused and the row found is taken away
  before the refresh, whose row count is not looked at (`EnqueueEdits.EndpointEditIff`, with the
  runs `EnqueueRuns.EditRaises` and `EnqueueRuns.EditLost`). Both need another request's row that
  came under the key after the lookup (`EnqueueRace.LossNeedsRivals`).
- An interface edit writes its payload into the row it has found without looking at the row's
  status again. Its payload ends in that row still pending exactly when the row was pending at
  the lookup and was not claimed, rejected, cancelled or expired before the write
  (`EnqueueEdits.InterfaceEditIff`). Otherwise nothing is queued: either the agent has been given
  the old payload and the running row holds the new one (`EnqueueRuns.InterfaceEditTooLate`), or
  the recovery has found an older running row first and drops the payload, even if a younger
  one is pending (`EnqueueRuns.InterfaceEditMissed`).
- Hence the payload of a row that has left pending can change. Rows keep it, and terminal rows
  stay as they are, over a run exactly when every such write finds its row pending or leaves
  its payload as it is (`ProtocolSafety.RunEvolvesIff`); statuses and results proceed as promised
  in every run (`ProtocolSafety.RunProceeds`), and at-most-once handout, execution and application
  do not depend on it (`EnqueueRace.StillAtMostOnce`).
- A poll writes a rejection without looking at the status again. Rejections of rows that are
  still pending or running are events of the protocol; one that meets a row closed in between
  changes a terminal row (`Rejections.LateRejection`). Rows proceed exactly when no rejection
  does that (`Rejections.ProceedsIffInTime`), and runs in which none does are runs of the
  protocol, with all its theorems (`Rejections.InTimeRunsAreRuns`).
- A host name that contains a colon or is itself in brackets does not survive the
  endpoint splitter; every address literal and every other name does
  (`Endpoint.EndpointRoundTrip`, an equivalence).
- Custom lines are written in front of the fields of their section. As long as they begin no
  section, every field of the record is read back and wins over them (`WgCustom.CustomRoundTrip`);
  behind one that does, the fields are read as part of that section (`WgCustom.HeaderTakesFields`).
- Secrets inherited from deployed text give back the same text exactly when the
  preshared keys of the enabled peers are determined by their public keys
  (`Secrets.StableIffRecoverable`). Distinct public keys are enough, provided that every peer
  with a preshared key has one (`Secrets.DistinctKeysRecoverable`).
- Removing an udp2raw instance can trim another instance's arguments: exactly when they
  stand on the last line that is not blank and end with a space
  (`Udp2raw.RemoveKeepsOthersIff`, `Udp2raw.RemovalCanTrim`). Upserted arguments read back
  unchanged exactly when they are one trimmed, non-empty line.
- Deletions on OpenWrt are allowed to fail, and a deployment that succeeds can leave old
  sections or old addresses behind (`UciExact.StalePeerStays`, `UciExact.StaleAddressesStay`).
  When the listing names each old peer section once, the result is exact if and only if every
  deletion of an old peer section works, and so does that of the interface section, unless
  there is none or it is rebuilt identically at the end (`UciExact.ExactIff`). A failed `ifup` is
  rolled back only if the network file existed before and can be written again.
- That a closed Looking Glass query stays closed rests on the total deadline and on the
  retention period not being shorter; the queue deadline plays no part in it.
- Without distinct resolved paths the BIRD rollback restores the wrong content
  (`Bird.DuplicateLosesOriginal`).

## Model

| member | source | states |
|---|---|---|
| `Tasks.MovesEvolve` | apps/api/link42_api/main.py:1832-1916 | one write to the table never removes a row, never changes a terminal row, and changes no payload of a row that has left pending |
| `Tasks.StatusChangeLowersMeasure` | apps/api/link42_api/main.py:1832-1916 | twice the pending plus the running rows strictly decreases with every status change and is not raised by any other write |
| `ProtocolSafety.FinitelyManyTransitions` | apps/api/link42_api/main.py:1832-1916 | every run of the protocol without inserts changes statuses at most twice the pending plus the running rows it starts with |
| `Tasks.DependencyId` | apps/api/link42_api/main.py:1919-1930 | a row depends on an id iff its payload is an object whose value is that positive integer |
| `Tasks.CycleHasNoRoot` | apps/api/link42_api/main.py:1967-1978 | a row on a dependency cycle never reaches a row without dependency, however long the walk |
| `Tasks.DependencyMetIsStable` | apps/api/link42_api/main.py:2005-2019 | a dependency that permits a handout keeps permitting it whatever happens to the table |
| `ChainWalk.WalkChain` | apps/api/link42_api/main.py:1949-2004 | the bounded walk is clear if and only if a root is reached within 64 dependencies, all existing and on the same node; each reported fault is really on the chain |
| `ChainWalk.CheckReadiness` | apps/api/link42_api/main.py:1933-2035 | the readiness check with its loop computes the verdict that the protocol and the progress theorem use |
| `ChainWalk.RootIffUnbroken` | apps/api/link42_api/main.py:1949-2004 | reaching a root within a bound is the same as having no missing, foreign or too distant row on the chain |
| `ChainWalk.BrokenChainRejects` | apps/api/link42_api/main.py:1949-2004 | a cycle, a missing link, a cross-node link or a longer chain makes the row rejected, never left waiting |
| `ChainWalk.VerdictMeans` | apps/api/link42_api/main.py:2005-2035 | a poll may hand out a row iff its payload is an object of at most two mebibytes and it has no dependency, or an unbroken chain of at most 64 whose first succeeded, or failed and the row is one of the four kinds that clean up and says so; it waits iff the chain is unbroken and the first is unfinished |
| `ProtocolSafety.EventMovesTable` | apps/api/link42_api/main.py:1936-1947 | every event of the protocol writes at most one row, by an insert of a pending row, by a legal move, or by overwriting its payload |
| `ProtocolSafety.RunProceeds` | apps/api/link42_api/main.py:7357-7394 | over every run no row is removed or becomes pending again, and terminal rows keep status and result |
| `ProtocolSafety.RunEvolvesIff` | apps/api/link42_api/main.py:4050-4057 | over a run terminal rows and the payloads of rows that left pending never change iff every unconditional write finds its row pending or leaves its payload |
| `ProtocolSafety.StepKeepsInv` | apps/api/link42_api/main.py:7299-7313 | each of the 20 kinds of events keeps the invariant that ties rows, polls, responses, agents, reports and history together |
| `ProtocolSafety.AtMostOnce` | apps/api/link42_api/main.py:7299-7313 | in every run with lost responses, lost or repeated reports, expiry and restarts, a row is handed out at most once, executed at most once, and its result applied at most once |
| `ProtocolSafety.SuccessWasExecuted` | apps/api/link42_api/main.py:7375-7394 | a row recorded as succeeded was handed to its own node, executed there, and its local outcome was success |
| `ProtocolSafety.CheckedHappensBefore` | apps/api/link42_api/main.py:2005-2035 | the dependency that the check saw was handed out earlier and has succeeded, in every run |
| `HandoutOrder.OwnDependencyIff` | apps/api/link42_api/main.py:7271-7338 | whatever happens between a check and its claim, the row is handed out with its current payload, and after its own dependency iff no refresh in between left it with an unmet one |
| `HandoutOrder.HappensBefore` | apps/api/link42_api/main.py:2005-2035 | in every run in which no write gives a selected row an unmet dependency, a row without the continue flag is handed out only after the dependency it is handed out with was handed out earlier and succeeded; in a clean run that is still the row's dependency |
| `HandoutOrder.RefreshInWindow` | apps/api/link42_api/main.py:3536-3543 | a run in which a row runs while the dependency in its payload is still pending |
| `ProtocolSafety.AgentBufferBounded` | apps/agent/link42_agent/main.py:498-503 | an agent holds at most five queued and unacknowledged tasks together, polls only when it holds none, and every report it holds or sent repeats its one execution |
| `ProtocolSafety.PendingKeysUnique` | apps/api/link42_api/models.py:392-400 | in every reachable state of the protocol at most one pending row carries a deduplication key |
| `Completion.TaskCompletes` | apps/api/link42_api/main.py:7299-7394 | from every state in which a row is pending and ready and its agent idle, some run hands it out, executes it once, records the outcome with its side effects once and leaves the agent idle |
| `Rejections.ProceedsIffInTime` | apps/api/link42_api/main.py:1936-1947 | with deciding on a rejection and writing it as two steps, rows proceed iff the write finds its row still open or changes nothing |
| `Rejections.InTimeRunsAreRuns` | apps/api/link42_api/main.py:1936-1947 | runs whose rejections are all written in time stay within the reachable states of the protocol |
| `Rejections.LateRejection` | apps/api/link42_api/main.py:1936-1947 | a run in which a row cancelled after the decision becomes failed |
| `RenamePlan.RenameInOrder` | apps/api/link42_api/main.py:6790-6827 | in every continuation of a queued stop, delete, apply plan whose refreshes keep the rows in place, delete is handed out only after stop and apply only after delete, each having succeeded |
| `RenamePlan.FailedStopEndsRename` | apps/api/link42_api/main.py:2020-2034 | once the stop has failed or was cancelled, delete and apply are never handed out in any such continuation |
| `RenameRefresh.HarmfulRefreshOvertakes` | apps/api/link42_api/main.py:4050-4057 | every payload that does not keep the place lets the row be handed out, in some run from a queued plan, while its predecessor is pending |
| `RenameRefresh.RenameInOrderIff` | apps/api/link42_api/main.py:4050-4057 | the order survives refreshes with a payload in all continuations iff that payload depends on the predecessor or lets the row never be handed out |
| `RenamePlan.ConfirmQueuesRename` | apps/api/link42_api/main.py:6790-6827 | the three inserts of a confirmed rename establish what the two theorems start from |
| `Plans.AggregateAgrees` | apps/api/link42_api/main.py:2185-2200 | recomputing a plan gives failed iff some row failed or was cancelled, succeeded iff all succeeded, else confirmed |
| `Plans.AgreementKeepsFinal` | apps/api/link42_api/main.py:2185-2200 | a plan that agrees with its rows never leaves failed or succeeded as the rows evolve |
| `Plans.StatusTask` | apps/api/link42_api/models.py:338-348 | the row shown is one of the most urgent status among the plan's rows, the last one if all succeeded, and there is one iff there are rows |
| `Plans.StatusTaskAgrees` | apps/api/link42_api/models.py:338-355 | the status of the row shown and the aggregated plan status always tell the same story, in all three cases |
| `Controller.ScanPending` | apps/api/link42_api/main.py:7261-7268 | the scan lists the first fifty pending rows of the node, control before query, then by priority, then by id |
| `PollSpec.ScanIsWindow` | apps/api/link42_api/main.py:7261-7268 | a row is in such a list iff it is pending on the node and fewer than fifty pending rows come before it |
| `PollSpec.ServedIsPoll` | apps/api/link42_api/main.py:7269-7313 | what the loop does row by row is the whole effect of a poll: exactly the rows up to the fifth handed out, among the first fifty, are claimed, rejected with their reason, or left; all other rows are untouched |
| `PollSpec.DueRowsAreHanded` | apps/api/link42_api/main.py:7269-7313 | a supported row among the first fifty that is ready in the swept table is handed out, unless five rows that come before it are |
| `Controller.SweepsAreSwept` | apps/api/link42_api/main.py:1832-1916 | the two sweeps that open a poll fail exactly the node's rows that have run for more than two hours or are pending past their deadline, with their error codes |
| `Controller.NoDependencyDeadlock` | apps/api/link42_api/main.py:1933-2035 | on a node where nothing runs, some pending row can be handed out or rejected now, whatever the dependency graph |
| `Controller.Controller.UpdatePlans` | apps/api/link42_api/main.py:2185-2200 | recomputing the affected plans brings every plan into agreement with its rows |
| `Controller.Controller.CloseRows` | apps/api/link42_api/main.py:1849-1874 | exactly the selected rows still in the expected status are closed, every plan agrees with its rows afterwards, and final plans stay |
| `Controller.Controller.ExpireStaleRunning` | apps/api/link42_api/main.py:1832-1875 | the rows of the node, or of all nodes, that have been running for more than 7200 seconds fail, and no other row changes |
| `Controller.Controller.ExpireOverduePending` | apps/api/link42_api/main.py:1878-1916 | the pending rows past their deadline fail with the code of their queue, and no other row changes |
| `Controller.Controller.ConsiderRow` | apps/api/link42_api/main.py:7271-7313 | what a poll does with one row: skip, reject, or claim; and which plan it recomputes at once or leaves for the end |
| `Controller.Controller.Poll` | apps/api/link42_api/main.py:7253-7320 | which rows are handed out, in which order, and what becomes of every row, in terms of the swept table; with fewer than five handouts every supported ready row of the first fifty is among them, with five every such row left out comes after all of them by queue, priority and id; the handler is a legal run of protocol events; if 1 to 50 supported rows are pending and none runs, some row changes status; plans stay in agreement |
| `Controller.Controller.CancelPending` | apps/api/link42_api/main.py:3618-3649 | exactly the superseded pending rows are cancelled and their plans recomputed |
| `Controller.Controller.TaskResult` | apps/api/link42_api/main.py:7342-7394 | the answer and the table for every case of a report, equal to the protocol's compare-and-set; side effects happen iff the row was running and the result valid |
| `Controller.Controller.ClaimPlan` | apps/api/link42_api/main.py:6873-6892 | a plan still draft at the conditional update is confirmed and its rows created; any other is left alone; agreement and final plans are kept |
| `Controller.Controller.ConfirmPlan` | apps/api/link42_api/main.py:6840-6902 | the reply and the state for every case of a confirmation with nothing in between |
| `Controller.CancellationIsRun` | apps/api/link42_api/main.py:3618-3649 | a cancellation is a run of protocol events |
| `PlanRuns.PlansAlwaysAgree` | apps/api/link42_api/main.py:2185-2200 | in every run of protocol events, drafts, cancelled drafts and confirmations, every plan agrees with its rows: failed iff some failed or was cancelled, succeeded iff all did, else confirmed |
| `PlanRuns.FinalPlansStay` | apps/api/link42_api/main.py:2185-2200 | failed, succeeded and cancelled plans stay so in every continuation, and no plan becomes a draft again |
| `PlanRuns.ConfirmedOnce` | apps/api/link42_api/main.py:6845-6883 | however many confirmations have seen the draft and whatever comes before their updates, at most one creates rows, exactly one once another was refused and the plan not cancelled, and the rows of the plan are exactly those |
| `PlanRuns.RaceHasOneWinner` | apps/api/link42_api/main.py:6873-6883 | of two confirmations that have both seen the draft the first to update creates the rows, and the other, after anything in between, is refused and changes nothing |
| `Controller.Controller.CreateTasks` | apps/api/link42_api/main.py:6776-6836 | one row, or stop, delete and apply each depending on the one before |
| `Controller.PlanRowsAreNew` | apps/api/link42_api/main.py:6776-6836 | the rows of a confirmed plan are new, pending, in the control queue with priority 100, and belong to the plan and its node |
| `Keys.EndpointKeyInjective` | apps/api/link42_api/main.py:3561 | a deduplication key names one endpoint and one kind |
| `Keys.OnePendingPerEndpoint` | apps/api/link42_api/models.py:388-400 | keys in place mean at most one pending row of a kind for an endpoint |
| `Keys.EventKeepsKeys` | apps/api/link42_api/main.py:3509-3586 | every protocol event keeps keys in place, endpoint rows being inserted with their key and refreshed for the same endpoint |
| `Keys.SettlingKeepsKeys` | apps/api/link42_api/main.py:1832-1916 | the handlers that only claim and close rows, as the contracts of polls, reports, sweeps and cancellations say, keep keys in place |
| `Enqueue.ConfirmKeepsKeys` | apps/api/link42_api/main.py:6776-6836 | confirming a plan keeps keys in place |
| `Enqueue.CreateEndpointTask` | apps/api/link42_api/main.py:3509-3586 | with nothing in between: the pending row is reused or refreshed, else the newest running one is returned, else one new row is inserted behind the newest running row |
| `Enqueue.EnqueuedIsOnlyPending` | apps/api/link42_api/main.py:3509-3586 | after a refreshing, queueing enqueue the row is the endpoint's only pending row of its kind and carries the given payload, and no other row changed |
| `Enqueue.EnqueueApplyAndStart` | apps/api/link42_api/main.py:3589-3615 | with nothing in between: exactly one pending apply and one pending start, both with the current configuration, start after that apply, apply after the newest running apply, start or stop |
| `EnqueueRace.AtMostOnePending` | apps/api/link42_api/main.py:3563-3586 | with every lookup, refresh, insert and recovery a step of its own between any other events, at most one pending row carries a key and at most one of a kind serves an endpoint |
| `EnqueueRace.FinishedMeans` | apps/api/link42_api/main.py:3526-3586 | what a finished request guarantees in each outcome: a pending row that carries its payload and is the only one of its endpoint and kind, a row reused or still running as asked, or a miss |
| `EnqueueRace.RaisesIff` | apps/api/link42_api/main.py:3566-3574 | the recovery raises iff no pending row serves the endpoint any more |
| `EnqueueRace.MissesIff` | apps/api/link42_api/main.py:3575-3582 | the payload is lost iff the row found has left pending before the unchecked refresh |
| `EnqueueRace.InterfaceMissesIff` | apps/api/link42_api/main.py:4072-4084 | the recovery of an interface request raises, is going to write, or drops its payload iff there is no row, the oldest is pending, or the oldest is running |
| `EnqueueRace.LossNeedsRivals` | apps/api/link42_api/main.py:3563-3586 | raising and losing need another request's row that came under the key after the lookup and was claimed or closed since |
| `EnqueueRace.StillAtMostOnce` | apps/api/link42_api/main.py:4050-4083 | with all requests and their unconditional writes in between, rows are still handed out, executed and applied at most once |
| `EnqueueEdits.InterfaceEditIff` | apps/api/link42_api/main.py:4050-4083 | over a whole interface edit that found a row: its payload ends in that row pending iff the row was pending at the lookup and was not claimed, rejected, cancelled or expired before the write; else nothing is queued |
| `EnqueueEdits.EndpointEditIff` | apps/api/link42_api/main.py:3563-3586 | over a whole endpoint edit from its insert on: it raises iff refused and no pending row is left at the recovery, and is lost iff refused and the row found is taken away before the refresh |
| `EnqueueRuns.EditLost` | apps/api/link42_api/main.py:3575-3582 | a run in which an edit ends in a row running with another payload and nothing queued |
| `EnqueueRuns.EditRaises` | apps/api/link42_api/main.py:3566-3574 | a run in which an edit raises and nothing is pending |
| `EnqueueRuns.InterfaceEditTooLate` | apps/api/link42_api/main.py:4050-4055 | a run in which an interface edit succeeds, the agent was handed the old payload, the running row holds the new one, and nothing is pending |
| `EnqueueRuns.InterfaceEditMissed` | apps/api/link42_api/main.py:4077-4084 | a run in which an interface edit is dropped for an older running row while a younger one is pending with another payload |
| `EnqueueRuns.AloneIsAtomic` | apps/api/link42_api/main.py:3509-3586 | a request left alone neither misses nor raises and does exactly what the atomic version does |
| `EnqueueRuns.StartFollowsApply` | apps/api/link42_api/main.py:3603-3613 | with anything in between, an enqueued start is the only pending one and depends on the row returned for the apply, which is the only pending apply or has left pending |
| `LookingGlass.RefreshActiveIff` | apps/api/link42_api/main.py:985-1038 | a refresh shows a query as active iff its row is unfinished and neither deadline has passed |
| `LookingGlass.RefreshShows` | apps/api/link42_api/main.py:985-1038 | when a refresh shows a query as queued, running, answered, refused or withdrawn, in terms of the row, its result and both deadlines |
| `LookingGlass.QueryTimes` | apps/api/link42_api/main.py:1346-1381 | in every run an answer is due within 60 seconds and kept for 600, a row can be fetched for 30, and an answer is reused for 5 |
| `LookingGlass.StepKeepsInactive` | apps/api/link42_api/main.py:985-1038 | no step makes an inactive query active |
| `LookingGlass.QueryNeverReopens` | apps/api/link42_api/main.py:985-1038 | over every run with a monotone clock a query that has left queued and running never returns |
| `LookingGlass.AdmissionHolds` | apps/api/link42_api/main.py:1306-1449 | at most one active query for each key, node and fingerprint, and at most twenty pending or running query rows on a node |
| `Identity.TargetsOwnIncarnation` | apps/api/link42_api/task_identity.py:9-28 | over every run of create, delete, re-create, enqueue and report, a row with an identity targets a configuration iff it was made for that same incarnation on that node |
| `Identity.LateReportIsHarmless` | apps/api/link42_api/main.py:7514-7573 | a report changes runtime status, deployed text or previous name only in the incarnation its row was made for |
| `Identity.ReportWritesExactly` | apps/api/link42_api/main.py:7514-7573 | in every reachable state, for a row with an identity: the target holds the reported fields afterwards if it is on the row's node and of the incarnation the row was made for; otherwise, and everywhere else, the fields stay |
| `Identity.ReportWrittenIffNotDeleted` | apps/api/link42_api/main.py:7514-7573 | from its enqueue on, whatever happens in between, a report is written to its configuration if and only if that was not deleted, even if another has taken its id |
| `Identity.ReportWithoutIdentityHitsSuccessor` | apps/api/link42_api/task_identity.py:20-28 | without an identity a late report does change a re-created configuration |
| `AgentClient.Client.SendReport` | apps/agent/link42_agent/client.py:155-165 | a report stays held iff there was no connection or the code was outside 400-499 or 401, 403, 408 or 429; no other report is touched |
| `AgentClient.Client.ReportTask` | apps/agent/link42_agent/client.py:148-153 | the report is stored before it is sent and stays held iff there was no connection or such a code |
| `AgentClient.Client.RetryReports` | apps/agent/link42_agent/client.py:167-174 | every held report is sent again, unchanged, once; nothing else is sent or stored |
| `AgentClient.Client.ExecuteBatch` | apps/agent/link42_agent/main.py:508-545 | each row of a batch is executed once and reported with its own outcome whatever becomes of the reports |
| `AgentClient.Client.RunOnce` | apps/agent/link42_agent/main.py:498-545 | the agent polls iff nothing is held back after retransmission, and never holds more than five reports |
| `ResultBudget.Check` | apps/api/link42_api/main.py:2072-2105 | the threaded budget accepts a subtree iff its node count, height and local limits fit, and is lowered by exactly its node count |
| `ResultBudget.ValidateResult` | apps/api/link42_api/main.py:2072-2105 | a result is accepted iff it has at most 10000 nodes, height at most 16, and every node meets its limits |
| `Endpoint.AgentSplitEndpoint` | apps/agent/link42_agent/service_manager.py:469-487 | the agent's splitter agrees with the controller's on every text |
| `Endpoint.BracketedRoundTrip` | apps/api/link42_api/wireguard_service.py:162-167 | a bracketed literal with a port, as in section 3.2.2 of RFC 3986, splits into literal and port |
| `Endpoint.PlainRoundTripIff` | apps/api/link42_api/wireguard_service.py:168-181 | a host rendered without brackets splits back iff it has no colon and is not in brackets |
| `Endpoint.EndpointRoundTrip` | packages/link42_wireguard/renderer.py:48-58 | a rendered endpoint splits into the canonical host and the port iff it is an address literal or a name without colon and brackets |
| `WgQuick.RenderWgQuick` | packages/link42_wireguard/renderer.py:8-45 | the loop that grows the lines computes the rendering function the theorems are about |
| `WgQuick.ParseWgQuick` | packages/link42_wireguard/parser.py:66-103 | the loop over the lines computes the parsing function, of which `WgReading.ParseReads` says what it gives for every text |
| `WgReading.ParseReads` | packages/link42_wireguard/parser.py:66-217 | for every text: a single field is the last value assigned to its key, in any case, in the sections it belongs to; a list field is all items of all such values in order; hooks are all such values; unknown keys are kept under their spelling; there is one peer for each peer header |
| `WgWarnings.ParseWarns` | packages/link42_wireguard/parser.py:84-102 | for every text: one warning with its line number for each unknown section, malformed line, key outside a section, unknown field and invalid integer, in order, kept with the interface or the peer, and no others |
| `WgLaws.ClassifyMeans` | packages/link42_wireguard/parser.py:72-93 | which lines are comments, headers, malformed or assignments, and that the first equals sign parts key and value, both trimmed |
| `WgLaws.SplitCsvMeans` | packages/link42_wireguard/parser.py:139-141 | for every text a list is the trimmed pieces between the commas without the empty ones, in order |
| `WgLaws.CommentsChangeNothing` | packages/link42_wireguard/parser.py:72-74 | taking out all lines that are blank or begin with '#' or ';' changes no field, for every text |
| `WgLaws.CaseChangesNothing` | packages/link42_wireguard/parser.py:91-94 | texts that differ in the case of their keys set the same fields |
| `WgLaws.AssignmentLine` | packages/link42_wireguard/parser.py:91-93 | an assignment written with any spaces, and with further equals signs in its value, is read as key and value |
| `WgLaws.UnknownSectionChangesNothing` | packages/link42_wireguard/parser.py:76-87 | a section of unknown name, wherever it stands, can be taken out without any field changing |
| `Text.SplitLinesMeans` | packages/link42_wireguard/parser.py:72 | every break, of which a carriage return and line feed together are one, ends the line before it |
| `Numbers.ParseIntMeans` | packages/link42_wireguard/parser.py:144-150 | a value is an integer iff, spaces and one sign aside, it is digits with single underscores between them |
| `Numbers.UnderscoresIgnored` | packages/link42_wireguard/parser.py:144-150 | underscores do not change the number |
| `Numbers.DigitsReadBack` | packages/link42_wireguard/parser.py:144-150 | digits without leading zero are the decimal text of the number they are read as |
| `PeerOrder.SortSorts` | packages/link42_wireguard/renderer.py:25-31 | the rendered peers are in order of name and public key, and are a permutation of the given ones |
| `PeerOrder.ByNameThenKey` | packages/link42_wireguard/renderer.py:25-31 | peers are rendered in dictionary order of name, then of public key, a missing one counting as empty, and in the given order where both are the same |
| `PeerOrder.SortedUnique` | packages/link42_wireguard/renderer.py:25-31 | peers that are told apart by name and public key have one order only |
| `PeerOrder.StableText` | packages/link42_wireguard/renderer.py:25-45 | the text is the same for every permutation of such peers |
| `WgFields.ClassifyAssign` | packages/link42_wireguard/parser.py:72-93 | a rendered line is read as the assignment it was rendered from |
| `WgFields.SplitJoinedCsv` | packages/link42_wireguard/parser.py:139-141 | splitting a rendered list gives back its items |
| `WgFields.YieldsInterface` | packages/link42_wireguard/parser.py:153-187 | the assignments of an interface, on whatever lines, give back all its fields |
| `WgFields.YieldsPeer` | packages/link42_wireguard/parser.py:190-217 | the assignments of a peer, on whatever lines, give back all its fields |
| `WgRoundTrip.RenderedLines` | packages/link42_wireguard/renderer.py:8-45 | the parser sees exactly the lines that were rendered, custom lines included, in spite of joining, trimming and splitting |
| `WgRoundTrip.ReadPeer` | packages/link42_wireguard/parser.py:76-100 | the lines of a peer add exactly that peer to whatever was read before |
| `WgRoundTrip.RoundTrip` | packages/link42_wireguard/renderer.py:8-97 | parsing a rendered configuration gives back every rendered field, peers in sorted order, no warnings and no unknown fields |
| `WgCustom.CustomRoundTrip` | packages/link42_wireguard/renderer.py:8-97 | with any custom lines that begin no section: each single field of the record is read back and wins over them, list fields and hooks are read back behind theirs, unknown fields are theirs, for the interface and for each peer |
| `WgCustom.HeaderTakesFields` | packages/link42_wireguard/renderer.py:12-23 | behind a custom line that begins a peer section the private key, addresses and port of every interface are read as that peer's |
| `WgCustom.CustomWritten` | packages/link42_wireguard/renderer.py:90-97 | custom lines are written with all their assignments in order |
| `WgLayout.InterfaceInOrder` | packages/link42_wireguard/renderer.py:12-23 | the fields of an interface are written in one fixed order |
| `WgLayout.PeerInOrder` | packages/link42_wireguard/renderer.py:36-43 | the fields of a peer are written in one fixed order |
| `WgLayout.RenderEnds` | packages/link42_wireguard/renderer.py:11-45 | the text begins with the interface header and ends with one line break behind visible text |
| `WgRoundTrip.EndpointsRoundTrip` | apps/api/link42_api/wireguard_service.py:157-181 | an endpoint is read back iff the peer has a host and a port other than zero, and splits into canonical host and that port iff the host is an address or a plain name |
| `Secrets.SortCommutes` | packages/link42_wireguard/renderer.py:25-31 | the order of peers does not depend on their secrets |
| `Secrets.FoundKeyIsSecret` | apps/api/link42_api/wireguard_service.py:67-81 | the deployed text still tells every preshared key that its public key determines |
| `Secrets.SameTextSamePeers` | packages/link42_wireguard/renderer.py:8-45 | configurations with the same text have the same rendered peers |
| `Secrets.StableWithoutSecrets` | apps/api/link42_api/wireguard_service.py:17-81 | re-rendering a deployed record with any subset of its secrets missing gives the identical text |
| `Secrets.StableIffRecoverable` | apps/api/link42_api/wireguard_service.py:17-81 | this holds for all such subsets iff the preshared keys are determined by the public keys |
| `Secrets.DistinctKeysRecoverable` | apps/api/link42_api/wireguard_service.py:67-81 | distinct public keys determine the preshared keys, if each peer that has one has a public key |
| `SecretSources.PrivateKeySource` | apps/api/link42_api/wireguard_service.py:17-39 | whatever was deployed, the rendered private key is the record's own if it has one, else the deployed one, else none |
| `SecretSources.PresharedKeySource` | apps/api/link42_api/wireguard_service.py:42-81 | whatever was deployed, the rendered preshared key of each enabled peer is its own if it has one, else that of the last deployed peer with its public key that has one, else none |
| `SecretSources.OwnSecretsWin` | apps/api/link42_api/wireguard_service.py:17-81 | for every renderable record and any deployed text: own secrets are read back, exactly the enabled peers are rendered, and nothing but missing secrets comes from the deployed text |
| `SecretSources.ParsedSecretsPlain` | apps/api/link42_api/wireguard_service.py:67-81 | secrets found in any text whatsoever can be rendered again |
| `Uci.DescendingDeletes` | apps/agent/link42_agent/service_manager.py:420-428 | deleting by descending index removes every section of the type although indices shift; repeated, stale and negative indices do no harm |
| `Uci.DeletesKeepOthers` | apps/agent/link42_agent/service_manager.py:420-428 | whatever is listed and whichever deletions fail, sections of other types keep content and order |
| `Uci.AscendingSkips` | apps/agent/link42_agent/service_manager.py:504 | in ascending order a section would survive |
| `Uci.HeaderIsListed` | apps/agent/link42_agent/service_manager.py:490-503 | the header line of a peer section is recognised with its index |
| `Uci.ListingCovers` | apps/agent/link42_agent/service_manager.py:490-504 | a listing that announces every peer section gives all indices in descending order |
| `Uci.OtherInterfacesNotListed` | apps/agent/link42_agent/service_manager.py:493-497 | lines of another interface are not listed, even if one name begins with the other |
| `UciDeploy.ScriptBuilds` | apps/agent/link42_agent/service_manager.py:355-386 | the commands append exactly the interface section and the ordered peer sections of the parsed configuration |
| `UciDeploy.ClearedExactly` | apps/agent/link42_agent/service_manager.py:420-428 | the deletions remove exactly the interface's own sections |
| `UciDeploy.TranslationIsExact` | apps/agent/link42_agent/service_manager.py:326-388 | with a complete listing and working deletions what is committed is the untouched rest and the parsed configuration, whatever the interface had before |
| `UciOptions.DeploymentDescribed` | apps/agent/link42_agent/service_manager.py:355-386 | each option of the interface section and of every peer section, its presence and its value, in terms of the parsed fields: routes are "0" iff the table is "off" in any case and "1" otherwise, the endpoint port is absent iff missing or zero |
| `UciOptions.InstalledPeers` | apps/agent/link42_agent/service_manager.py:366-386 | whatever was there before and whichever deletions fail, the configuration ends with a section for each peer with exactly these options |
| `UciOptions.InstalledExactly` | apps/agent/link42_agent/service_manager.py:326-388 | with a complete listing and working deletions it is the untouched rest and then the interface and its peers with exactly these options |
| `UciExact.DeletedExceptFailed` | apps/agent/link42_agent/service_manager.py:420-428 | descending deletion of each section once leaves exactly the sections whose own deletion failed |
| `UciExact.OverwrittenIff` | apps/agent/link42_agent/service_manager.py:355-365 | setting the new options over an old interface section gives the same section as building it anew iff the old options are covered and hold no addresses |
| `UciExact.ExactIff` | apps/agent/link42_agent/service_manager.py:326-388 | what is committed is exact iff every deletion of an old peer section works, and that of the interface section too unless there is none or it is rebuilt identically in place |
| `UciExact.InOrderListing` | apps/agent/link42_agent/service_manager.py:490-504 | a listing text with the header lines of the peer sections in order, between unrelated lines, names each section once, as the equivalence asks |
| `UciExact.StalePeerStays` | apps/agent/link42_agent/service_manager.py:426 | a peer section whose deletion fails stays beside the new deployment |
| `UciExact.StaleAddressesStay` | apps/agent/link42_agent/service_manager.py:427 | an interface section whose deletion fails keeps its old addresses in front of the new ones |
| `UciDeploy.DeploymentsAreSeparate` | apps/agent/link42_agent/service_manager.py:326-428 | a deployment replaces the interface's earlier one and keeps those of other interfaces |
| `UciNetwork.Network.DeleteExisting` | apps/agent/link42_agent/service_manager.py:420-428 | the loop of deletions computes the cleared configuration |
| `UciNetwork.Network.Install` | apps/agent/link42_agent/service_manager.py:335-391 | all commands and the commit work and the new configuration is committed, or nothing is committed and, if the revert works, nothing stays staged |
| `UciNetwork.Network.ApplyConfig` | apps/agent/link42_agent/service_manager.py:326-411 | the outcome for every combination of answers; refused iff a key is missing or the file is a link or too large; when it is applied, the committed configuration ends with the peers option by option, and is the untouched rest and the deployment if everything old was deleted; any failed set, add or commit leaves the committed configuration, and a failed restart restores it iff the file existed and can be written |
| `UciNetwork.Network.DeleteConfig` | apps/agent/link42_agent/service_manager.py:413-418 | a failed commit leaves the committed configuration but the deletions staged |
| `Bird.Validate` | apps/agent/link42_agent/plugins/bird.py:388-415 | a request is accepted iff it is not empty, its paths resolve apart and every item is acceptable; the changes are the items' |
| `Bird.InFlightGrows` | apps/agent/link42_agent/plugins/bird.py:425-430 | backing up and then overwriting a file, completely or torn, keeps every original reachable |
| `Bird.RestoreUndoes` | apps/agent/link42_agent/plugins/bird.py:432-434 | from any such state writing the backups back gives every file its original content |
| `Bird.DuplicateLosesOriginal` | apps/agent/link42_agent/plugins/bird.py:395-398 | with one file listed twice the rollback would leave the first new content |
| `Bird.Node.WriteBack` | apps/agent/link42_agent/plugins/bird.py:472-476 | the restore loop computes the restored files, and keeps every original reachable even when it fails |
| `Bird.Node.WriteAll` | apps/agent/link42_agent/plugins/bird.py:423-430 | stops at the first failure with every original reachable, or has written every file |
| `Bird.Node.Apply` | apps/agent/link42_agent/plugins/bird.py:422-476 | applied iff every step works; then every file has its new content, else every file has its original content if the restore writes succeed; no other file changes |
| `Bird.Node.ApplyResources` | apps/agent/link42_agent/plugins/bird.py:385-476 | the same for the whole request, which changes nothing when it is invalid or a dry run |
| `Udp2raw.LookupUpserted` | apps/agent/link42_agent/middleware.py:1195-1205 | after an upsert of one line of arguments the instance has them trimmed and every other instance is unchanged, in any file |
| `Udp2raw.UpsertReadsBackIff` | apps/agent/link42_agent/middleware.py:1195-1205 | the arguments read back as given iff they are one trimmed, non-empty line |
| `Udp2raw.ExistsAfter` | apps/agent/link42_agent/middleware.py:1263-1273 | exactly the upserted or removed instance appears or disappears |
| `Udp2raw.LookupRemoved` | apps/agent/link42_agent/middleware.py:1208-1222 | after a removal the instance has no arguments and others keep theirs, trimmed if they stood on the last line |
| `Udp2raw.RemoveKeepsOthersIff` | apps/agent/link42_agent/middleware.py:1208-1222 | another instance is unchanged iff its arguments do not end with a space on the last line that is not blank |
| `Udp2raw.RemovalCanTrim` | apps/agent/link42_agent/middleware.py:1220 | the family of files in which a removal changes another instance |
| `Udp2raw.FileRefinesMap` | apps/agent/link42_agent/middleware.py:1086-1096 | over any sequence of edits the file answers as a map would, whatever comments and blank lines it holds |
| `Udp2raw.InstanceFile.Upsert` | apps/agent/link42_agent/middleware.py:1195-1205 | the new text is the specified one |
| `Udp2raw.InstanceFile.Remove` | apps/agent/link42_agent/middleware.py:1208-1222 | the new text is the specified one, and the file is deleted when no line is left |
| `Udp2raw.InstanceFile.Contains` | apps/agent/link42_agent/middleware.py:1263-1273 | the scan finds an instance iff some line is about it |
| `Udp2raw.InstanceFile.Arguments` | apps/agent/link42_agent/middleware.py:1086-1096 | the scan finds the arguments on the first line that has any for the instance |
| `ManagedBlock.SearchBehindBreak` | apps/agent/link42_agent/middleware.py:1397-1404 | a marker on one line cannot reach over a line break |
| `ManagedBlock.UserTextKept` | apps/agent/link42_agent/middleware.py:1397-1404 | removing the block gives back the user's text in front of it, whatever the body without end marker |
| `SnippetFiles.ReadAfterPut` | apps/agent/link42_agent/middleware.py:1371-1379 | the directory in path order acts as a map when a file is written |
| `SnippetFiles.ReadAfterDrop` | apps/agent/link42_agent/middleware.py:543 | and when a file is deleted |
| `SnippetFiles.PutUndone` | apps/agent/link42_agent/middleware.py:493-498 | putting the old file back undoes a write, in contents and order |
| `SnippetFiles.DropUndone` | apps/agent/link42_agent/middleware.py:554-559 | putting the old file back undoes a deletion |
| `Mimic.RenderIsForm` | apps/agent/link42_agent/middleware.py:1368-1394 | the rendered configuration is the user's part and a block with the snippets in path order, and depends on the old text through the user's part alone |
| `Mimic.StepKeeps` | apps/agent/link42_agent/middleware.py:458-573 | every apply and delete, failed at any point and restored or not, keeps the user's text |
| `Mimic.FailedStepUndone` | apps/agent/link42_agent/middleware.py:493-502 | a failed operation whose files can be put back changes nothing |
| `Mimic.UserTextPreserved` | apps/agent/link42_agent/middleware.py:458-573 | over any run from a text without begin marker the text outside the block is the trimmed original |
| `Mimic.BlockIsCurrent` | apps/agent/link42_agent/middleware.py:1368-1394 | once an operation has succeeded, the configuration is always the user's text and a block with exactly the current snippets in path order |
| `Mimic.BuiltSnippetIsGood` | apps/agent/link42_agent/middleware.py:1328-1354 | the snippets that the builder writes from checked values hold no end marker |
| `Mimic.MimicMarkersOk` | apps/agent/link42_agent/middleware.py:43-44 | the two markers written to the file are such that the theorems about blocks apply to it |
| `Mimic.Interface.Run` | apps/agent/link42_agent/middleware.py:458-573 | an apply or delete with its rollback is the step the theorems are about |

## Left out

- UciDeploy.TranslationIsExact: states one direction for any complete listing; the equivalence, for a listing that names each section once, is `UciExact.ExactIff`. Named sections of the peer type are not modelled, because how the tool indexes them is not known.
- PlanRuns: plans that are created as succeeded without any rows are not modelled.
- Controller.Controller.TaskResult: the effects of a result on configurations are one flag; what they may write is in `Identity`.
- Udp2raw.FileRefinesMap: starts from a file in which no arguments end with a space; the exact condition for one removal is `RemoveKeepsOthersIff`.
- Mimic.UserTextPreserved: snippets hold no end marker, which is proved for those the builder writes.
- WgRoundTrip.RoundTrip: values are trimmed and on one line, list items have no commas, and there are no custom lines; with custom lines it is `WgCustom.CustomRoundTrip`, in which they begin no section. Strings given in place of lists are not modelled.
- SecretSources.OwnSecretsWin: values are as in the round trip, without custom lines.
- PollSpec.ServedIsPoll: of the texts of rejections only the three kinds of reasons are told apart.
- Controller.Controller.ConfirmPlan: whether a plan's content, node and interface admit it is a parameter; the refusals for it happen before anything changes.
- Identity.TargetsOwnIncarnation: tokens are fresh numbers; their random source is not modelled.
- WgQuick.ParseWgQuick: case folding and decimal digits are those of ASCII.
- Removing rows: deletion of a node and database migration, which remove rows, are not events of the protocol.
- Isolation of database transactions below one handler, other than the splits named above, is not modelled; in particular two reports of different rows of one plan are taken one after the other.
- HTTP, authentication, sessions, encryption of stored payloads, logging, schema checks and the web front end are not modelled.
- The order in which results of different rows reach one configuration's runtime status is not claimed; only the identity guard is.
- Applying a single BIRD file (apps/agent/link42_agent/plugins/bird.py:314-382) is the one-file case of the same rollback.
- wg-quick fields that OpenWrt does not take (DNS, hooks, unknown fields) are dropped by the translation, as in the code.
- The systemd, OpenRC and direct back ends, package installation, downloads and upgrades are not modelled.
