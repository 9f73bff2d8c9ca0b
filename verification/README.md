# Flock OS: verified core

A Dafny model of the domain layer of Flock OS, with proofs. The repository keeps its rules in pure
services over gateway ports with in-memory adapters; the model follows those services and adapters.

- **Trees, permissions, approvals.** `Trees`, `Adjacency` and `NestedSet` model the two worklist walks
  over arbitrary adjacency maps and the nested-set form; `Permissions` models the list hook (its SQL
  fragment as a small predicate tree with an evaluator), the row guard and the approval guard;
  `Approvals` and `ApprovalAuthority` model chain resolution and its agreement with the guard.
- **Attendance write path.** `Reporting` is the bulk gateway and service; `AttendanceQueue` the queue as a
  step relation over (queue, rows, counters, dead letters), `QueueWorker` the worker code that takes
  those steps, `BulkRequests` what accepted requests come to in the store; `LeaderReporting` the chunked
  leader report on top. `AttendanceSources` puts bulk requests, leader reports and engagement sessions
  over one store.
- **Live engagement.** `Engagement` is the session service and gateway; `EngagementInvariants` views the
  state session by session, shows that every operation is one small change of one view, and proves the
  run invariants from that; `EngagementLaws` says who is credited or suspected and what tickets and replays
  do; `Throttling` says when the per-device throttle is a sliding window.
- **Shards and rooms.** `ShiftRegister` and `Crc32` relate the table-driven checksum to the bit-serial
  one; `Utf8` and `Utf8RoundTrip` the hand-written encoder to RFC 3629; `Rooms` prints and parses rooms.
- **Auth cache, histogram, RESP reader.** `AuthCache`, `Telemetry` and `Resp`, each with a module of laws
  that compares the running form with a simple reading of its history or its bytes; `RespWire` is the
  reply grammar over the bytes.

Where the original updates state in place the model has a class whose methods are proved against a
specification function (`Submit`, `Participate`, `Parse`, ...); the laws are proved about those functions,
over every input or every run. Clocks, chance and the outcome of a database attempt are parameters. A JSON
or dictionary value is a datatype; bytes are `bv8`, except that the RESP modules write a byte as the
character of the same code. Times, bounds and quantiles are real numbers.

## Where the code and its documentation disagree

The model follows the code.

- `flock_os/leader_reporting.py:414-416` says repeated members of one submission collapse to one row.
  They do so only across chunks of 500 (`RepeatsCollapseOnlyAcrossChunks`).
- `flock_os/approvals.py:80-83` calls Rejected and Withdrawn terminal; the transition table lets both go
  back to Draft (`TerminalStatusesThatMove`).
- `flock_os/permissions.py:305-373` and the row guard differ for users without a linked member and for
  rows without a group; `HookAgreesWithGuard` gives the exact condition.
- `flock_os/engagement.py:890-891` says a session is persisted in draft and idempotently; the code upserts
  whatever it is given (`CreateKeepsGoodIff`). The run results assume creations that keep stage and scope,
  in particular ids created once, in draft or scheduled.
- `flock_os/engagement.py:959-967` calls a retried finalize an idempotent no-op. As the status is written
  before the submit, that includes a finalize whose submit raised, which is never made good
  (`ClosedIsAnnouncedIff`).
- `flock_os/engagement.py:103-104` promises at most five calls a second per device. Times come from the caller;
  the throttle is exact for a call no earlier than the ones before it, and only then (`RightIffLatest`).
- `load/lib/shards.js:31-40` promises bytes identical to the platform encoder; that holds for well-formed
  strings (`FallbackRoundTripsIff`).
- `scripts/ops/redis-pubsub-exporter.py:62-70` wants protocol drift to be loud; a bulk length below -1 is
  read silently, and differently for different chunks (`NegativeLengthDependsOnChunks`).
- `scripts/ops/redis-pubsub-exporter.py:137-142` declares argument lengths in characters
  (`CommandReadsBackIff`).

Verify with `dafny verify dfyconfig.toml`.

## Model

| member | source | states |
|---|---|---|
| `Trees.AncestorsOf` | flock_os/flock_os/trees.py:87-103 | the loop over `chain` and `seen` computes the walk up, for any parent map |
| `Trees.AncestorsSucceed` | flock_os/flock_os/trees.py:87-103 | a returned chain is every parent in order up to a node without one, no node twice, and nothing lies above it; a dangling parent is listed and ends the walk |
| `Trees.AncestorsRaiseIffCycle` | flock_os/flock_os/trees.py:87-103 | it raises if and only if the walk up comes back to a node, and names such a node |
| `Trees.RootIsTopmost` | flock_os/flock_os/trees.py:111-114 | the root is on the way up, has no parent, and is the only such node there |
| `Trees.DescendantsOf` | flock_os/flock_os/trees.py:117-136 | the frontier loop computes the breadth-first walk down, for any child map |
| `Trees.DescendantsAreLevels` | flock_os/flock_os/trees.py:117-136 | success lists levels 1, 2, ... in order without a repeat, down to the first empty level |
| `Trees.DescendantsRaiseIffRepeat` | flock_os/flock_os/trees.py:117-136 | it raises if and only if some node is reached twice, cyclic map or not |
| `Trees.DescendantsAreReachable` | flock_os/flock_os/trees.py:117-136 | what is returned is exactly what lies one or more child steps below |
| `Trees.LeavesCoverSubtree` | flock_os/flock_os/trees.py:159-165 | every node of a subtree stands at or above one of its childless nodes, so leaves are never missing |
| `Adjacency.BuildAdjacency` | flock_os/traversal.py:266-286 | the loop builds the parent, child and row views of the rows |
| `Adjacency.AdjacencyIsConsistent` | flock_os/traversal.py:266-286 | rows with distinct names give views that hold the same parent links |
| `Adjacency.DescendantsRaiseIffOnCycle` | flock_os/flock_os/trees.py:117-136 | on consistent views walking down raises if and only if the node is its own ancestor |
| `Adjacency.DownIffUp` | flock_os/flock_os/trees.py:144-151 | d is found below n if and only if n is found above d |
| `NestedSet.NestedOrDisjoint` | flock_os/traversal.py:208-221 | in a valid numbering any two intervals are nested along the tree or disjoint |
| `NestedSet.ContainsIffAncestor` | flock_os/permissions.py:481-485 | interval containment holds if and only if the leading group is the row's group or in `ancestors_of` it |
| `NestedSet.FetchIsSubtree` | flock_os/traversal.py:208-221 | the range fetch returns exactly the subtree that walking down the fetched rows lists |
| `Permissions.FragmentIsValidSql` | flock_os/permissions.py:305-373 | for every scoped table the fragment names only columns the table has; no other table gets one |
| `Permissions.FragmentMeaning` | flock_os/permissions.py:305-373 | what the fragment of a linked member selects: null-group rows, led subtrees, own rows, joined groups |
| `Permissions.HookAgreesWithGuard` | flock_os/permissions.py:836-861 | list hook and row guard admit the same rows if and only if the user is an org admin, branch admin or auditor, or is linked and the row has a group or names nobody else, or is not linked and the row has neither group nor member |
| `Permissions.LinkedUserSeesLedJoinedAndOwn` | flock_os/permissions.py:456-491 | a linked user with none of those three roles is listed a row, and passes the guard on it, if and only if they lead its group or one above it, belong to its group, or are its member; the list adds rows without a group, the guard rows with neither anchor |
| `Permissions.BypassSeesEveryRow` | flock_os/permissions.py:68 | an org admin, branch admin or auditor is listed every row and passes the guard on every row |
| `Permissions.UnlinkedUserIsListedEverything` | flock_os/permissions.py:329-330 | a user without a linked member and without those roles is listed everything and guarded from every row with an anchor |
| `Permissions.HookAndGuardCanDiffer` | flock_os/permissions.py:329-330 | a concrete user without a linked member lists a row the guard refuses |
| `Permissions.LeaderStepDeciders` | flock_os/permissions.py:512-568 | a leader step is decided exactly by the user or linked member it names, to whom the branch is open, leading at or above the group; the last is waived without a group and for org admins, branch admins and auditors |
| `Permissions.AdminStepDeciders` | flock_os/permissions.py:539-568 | the branch-admin step is decided exactly by whoever it names and by branch admins, to whom the branch is open |
| `Approvals.WalkNode` | flock_os/approvals.py:375-397 | the inner loop appends one step per leader of a node not seen before |
| `Approvals.WalkLeaders` | flock_os/approvals.py:375-397 | the walk over all nodes yields one step per first visit |
| `Approvals.FirstVisitsMeaning` | flock_os/approvals.py:380-385 | first visits are exactly the positions where a named leader has not been met before |
| `Approvals.LeaderStepsAreFirstVisits` | flock_os/approvals.py:375-397 | every named leader has exactly one step, nearest first, with the group and level of the first meeting, skipped exactly for the requester without self-approval |
| `Approvals.CapLeaders` | flock_os/approvals.py:416-432 | the budget loop keeps the capped steps |
| `Approvals.KeptPositionsMeaning` | flock_os/approvals.py:416-432 | a leader step is kept if and only if it is skipped or fewer pending ones than the cap precede it; order is kept |
| `Approvals.CapKeepsFirstPending` | flock_os/approvals.py:416-432 | exactly min(cap, pending) leaders stay pending |
| `Approvals.ResolveApprovalChain` | flock_os/approvals.py:346-441 | the whole resolution equals its specification, errors included |
| `Approvals.ChainShape` | flock_os/approvals.py:400-441 | idx equals position; the admin step is there exactly when policy, branch and lookup give one, last and pending; the rest are the walk's steps in order less the capped ones, skipped ones never |
| `Approvals.RaisesIffNoApprover` | flock_os/approvals.py:434-441 | resolution raises exactly when an argument is missing or nobody is left to decide |
| `Approvals.IsChainComplete` | flock_os/approvals.py:465-467 | a chain is complete if and only if none of its steps is pending |
| `Approvals.ApprovalShrinks` | flock_os/flock_os/doctype/flock_event_approval/flock_event_approval.py:434-492 | one approval decides the first pending step only and moves the current index past it |
| `Approvals.ApproveAllVisitsEachPendingOnce` | flock_os/approvals.py:453-485 | deciding at `current_step_index` again and again visits each pending step once, in order, and ends complete |
| `Approvals.DecisionsAreFinal` | flock_os/approvals.py:132-161 | over any legal history an approved or cancelled request never changes |
| `Approvals.MovesOfARequest` | flock_os/approvals.py:132-161 | the moves between request statuses, each named, and no others |
| `Approvals.TerminalStatusesThatMove` | flock_os/approvals.py:81-83 | of the statuses called terminal exactly Rejected and Withdrawn can still move |
| `ApprovalAuthority.ChainNamesLeadersAtOrAbove` | flock_os/flock_os/doctype/flock_event_approval/flock_event_approval.py:131-155 | without a cap the chain has a step for exactly the members who lead the group or one above |
| `ApprovalAuthority.LeaderStepsNameLeaders` | flock_os/approvals.py:346-441 | under any policy a leader step names someone who leads at or above the group |
| `ApprovalAuthority.DecidersAreApprovers` | flock_os/permissions.py:512-568 | every leader step the chain produces is decided exactly by the user linked to its member, if the branch is unset or permitted to them or they are org admin or auditor |
| `ApprovalAuthority.AdminStepIsForBranchAdmins` | flock_os/permissions.py:545-557 | the admin step of every resolved chain is decided exactly by its named user or linked member and by branch admins, each with a permission for the branch or as org admin or auditor |
| `ApprovalAuthority.AdminStepCanBeDecided` | flock_os/flock_os/doctype/flock_event_approval/flock_event_approval.py:167-189 | whoever the admin lookup names can decide the admin step |
| `Reporting.InMemoryBulkAttendanceGateway.FilterUnseen` | flock_os/reporting.py:319-330 | a key is unseen if and only if neither it nor its unique key is stored |
| `Reporting.InMemoryBulkAttendanceGateway.BulkInsert` | flock_os/reporting.py:332-337 | all rows and both key sets grow by exactly the items |
| `Reporting.InMemoryBulkAttendanceGateway.SeedAggregate` | flock_os/reporting.py:339-343 | missing counters become 0, others stay |
| `Reporting.InMemoryBulkAttendanceGateway.Aggregate` | flock_os/reporting.py:348-351 | the counter of one event of the branch, zero when there is none |
| `Reporting.InMemoryBulkAttendanceGateway.AggregateBranch` | flock_os/reporting.py:348-351 | the branch total is the sum of the branch's counters |
| `Reporting.BulkAttendanceService.SubmitBatch` | flock_os/reporting.py:372-468 | new store, receipt and published events of one submit, accepted or refused |
| `ReportingInvariants.SubmitIsAllOrNothing` | flock_os/reporting.py:384-409 | accepted if and only if every item is in scope; a refusal changes nothing, names every item and publishes how many are out of scope; inserted + deduplicated is the batch size |
| `ReportingInvariants.SubmitRecords` | flock_os/reporting.py:319-337 | an accepted batch records an attendee at an event only if no row did before, and then as often as the batch names them, under whatever request ids |
| `ReportingInvariants.OneEventPerGathering` | flock_os/reporting.py:436-468 | an accepted batch publishes one event per gathering with something new, with the batch id |
| `ReportingInvariants.RecordedCountsRows` | flock_os/reporting.py:436-468 | after a submit each counter is the number of rows and moved by exactly the published count |
| `ReportingInvariants.EveryRunBalances` | flock_os/reporting.py:372-468 | over every sequence of submits: counter = stored rows = sum of published counts, for every branch and event |
| `ReportingInvariants.ReplayInsertsNothing` | flock_os/reporting.py:319-330 | an accepted batch submitted again, after anything, inserts, publishes and changes nothing |
| `ReportingInvariants.DistinctAfterSubmit` | flock_os/reporting.py:437-440 | attendees stay distinct if and only if they were and the new items of the batch are |
| `ReportingInvariants.RepeatInOneBatchIsStoredTwice` | flock_os/reporting.py:437-440 | two equal items in one batch are both inserted and counted |
| `ReportingInvariants.DistinctBatchesNeverDoubleCount` | flock_os/reporting.py:372-468 | with distinct attendees per batch nobody is ever stored twice |
| `ReportingInvariants.BranchTotalCountsRows` | flock_os/reporting.py:348-351 | the branch total is the number of rows of the branch |
| `AttendanceQueue.AcceptedBatchesAreInScope` | flock_os/attendance.py:58-114 | a call enqueues if and only if the caller has exactly one branch, the call is complete and at most 500 long; then the batch is in that branch's scope and its items are attendances of the entries' attendees at the event |
| `AttendanceQueue.EveryRunIsSafe` | flock_os/attendance.py:117-180 | in every interleaving each accepted batch is queued, fully stored or dead-lettered, and counters equal rows |
| `AttendanceQueue.DrainedMeansSettled` | flock_os/attendance.py:117-180 | with an empty queue every accepted batch is stored or dead-lettered |
| `AttendanceQueue.NeverCountedTwice` | flock_os/attendance.py:186-236 | redeliveries, crashes and retries never store an attendee of duplicate-free batches twice |
| `BulkRequests.PersistedRequestIsStored` | flock_os/attendance.py:271-293 | a persisted request has a row at its event for every entry, under the entry's attendee |
| `BulkRequests.NobodyIsStoredTwice` | flock_os/attendance.py:117-236 | in every interleaving no attendee has two rows at an event, whatever request ids the entries carry, if no single request names somebody twice |
| `BulkRequests.TwoRequestsLeaveOneRow` | flock_os/attendance.py:271-293 | two accepted requests for one event naming the same attendee leave exactly one row once either is persisted |
| `BulkRequests.DrainedRequestIsStored` | flock_os/attendance.py:117-180 | with an empty queue each entry of an accepted request has exactly one row, or the request is dead-lettered |
| `BulkRequests.StoredWereNamed` | flock_os/attendance.py:58-114 | whoever is stored at an event was named for it by an accepted request |
| `AttendanceQueue.WorkersFinish` | flock_os/attendance.py:317-349 | worker steps on what is queued are bounded by a weight, and one is possible while a job is queued |
| `AttendanceQueue.EveryRunBalancesCopies` | flock_os/attendance.py:117-236 | in every run each enqueued or redelivered copy of a batch is queued, dead-lettered or had an attempt return, and every re-enqueue shows in a copy's attempt number |
| `AttendanceQueue.FailingBatchIsDeadLettered` | flock_os/attendance.py:317-349 | a batch none of whose attempts returns is dead-lettered once the workers are done, every copy of it, after exactly five re-enqueues per line of copies; redeliveries and crashes included |
| `AttendanceQueue.FailingBatchIsQueuedOrDead` | flock_os/attendance.py:317-349 | until then such a batch is queued or dead-lettered, whatever is stored |
| `AttendanceQueue.DeadAfterExactlyMaxRetries` | flock_os/attendance.py:317-349 | without redelivery a batch is dead-lettered only after exactly five re-enqueues, and its attempt number counts them until then |
| `AttendanceQueue.BackoffDoublesToCap` | flock_os/reporting.py:484-489 | delays double until the cap and never exceed it |
| `QueueWorker.JobRunIsRun` | flock_os/attendance.py:117-180 | one job run is a run of the protocol |
| `QueueWorker.Worker.AttemptInPlace` | flock_os/attendance.py:207-236 | the ten-attempt loop: transient errors are tried again, anything else ends it; a returned outcome is that of the submit that left the store as it is |
| `QueueWorker.Worker.SubmitWithInPlaceRetry` | flock_os/attendance.py:186-236 | loop and give-up together do to queue, store and dead letters what the protocol steps do |
| `QueueWorker.Worker.DeadletterOrRetryPayload` | flock_os/attendance.py:317-349 | the attempt number is raised in place and the payload re-enqueued with the backoff delay, or dead-lettered |
| `QueueWorker.Worker.ProcessBulkBatch` | flock_os/attendance.py:117-180 | the whole job equals a run of the protocol and acknowledges exactly a returned submit; a payload marked dead-lettered is logged and dropped |
| `LeaderReporting.LeaderReportingService.ClassifyAttendees` | flock_os/leader_reporting.py:336-353 | the attendee loop counts and projects, or stops at the first bad attendee |
| `LeaderReporting.LeaderReportingService.RecordInChunks` | flock_os/leader_reporting.py:445-468 | the chunk loop submits slices of 500 under numbered batch ids and adds up their receipts |
| `LeaderReporting.LeaderReportingService.Report` | flock_os/leader_reporting.py:326-398 | state and receipt of one report |
| `LeaderReportingInvariants.ReportSucceedsIff` | flock_os/leader_reporting.py:403-430 | a report succeeds if and only if it is complete, the gathering is Held and every attendee is known |
| `LeaderReportingInvariants.ReportFailsWith` | flock_os/leader_reporting.py:326-430 | a complete report is refused for a missing, terminal or not held gathering, exactly then, and otherwise names its first attendee who is no member or has an invalid status |
| `LeaderReportingInvariants.ReportOnlyOnceFromHeld` | flock_os/leader_reporting.py:418-430 | any error leaves all state unchanged; after success every later report of the gathering is refused, whatever was reported in between |
| `LeaderReportingInvariants.ClassifyCounts` | flock_os/leader_reporting.py:336-353 | members and visitors are the numbers of present attendees without and with a visitor status, first timers of all with the flag; one item per present attendee, about them |
| `LeaderReportingInvariants.ReportCounts` | flock_os/leader_reporting.py:359-398 | receipt, roll-up and published event carry those counts, and the gathering is Reported |
| `LeaderReportingInvariants.ReportRecords` | flock_os/leader_reporting.py:432-468 | a report records every present attendee not recorded at the gathering before, once if no member is named twice, and changes nobody else's rows |
| `LeaderReportingInvariants.ReceiptAccountsForEveryone` | flock_os/leader_reporting.py:326-398 | inserted + deduplicated = members + visitors, the store grew by inserted rows, and the batch ids number the slices of up to 500 |
| `LeaderReportingInvariants.ChunkedReportIsOneSubmit` | flock_os/leader_reporting.py:445-468 | without a repeated member, chunked recording leaves the same rows, keys and counters as one unchunked submit |
| `LeaderReportingInvariants.RepeatsCollapseOnlyAcrossChunks` | flock_os/leader_reporting.py:414-416 | nobody is stored twice if and only if no chunk repeats an attendee not stored before it |
| `LeaderReportingInvariants.RepeatedMemberIsStoredTwice` | flock_os/leader_reporting.py:414-416 | one member named twice in a short report is stored twice |
| `Engagement.NormalizeScore` | flock_os/engagement.py:374-388 | a score is kept exactly for games, unchanged within [0, 100] and clamped to it otherwise |
| `Engagement.InMemoryEngagementGateway.SetSessionStatus` | flock_os/engagement.py:792-820 | the status moves and each window end is stamped once |
| `Engagement.InMemoryEngagementGateway.RecordParticipation` | flock_os/engagement.py:822-833 | log, nonce index, attendee set and address index after one row, or none of them on a repeated nonce |
| `Engagement.InMemoryEngagementGateway.ThrottleAllows` | flock_os/engagement.py:844-851 | the bucket keeps the last second and takes the call while below the limit |
| `Engagement.InMemoryEngagementGateway.InWindowAttendees` | flock_os/engagement.py:1122-1137 | the loop collects the credited rows |
| `Engagement.EngagementService.OpenIt` | flock_os/engagement.py:896-914 | open: transition guard, stamp, one opened event |
| `Engagement.EngagementService.Close` | flock_os/engagement.py:916-949 | close: transition guard, stamp, scheduled finalize, preview |
| `Engagement.EngagementService.Finalize` | flock_os/engagement.py:951-987 | finalize: idempotent on closed; else the status is written, the projection submitted, and the count emitted unless the submit raises |
| `Engagement.EngagementService.TakePart` | flock_os/engagement.py:1009-1110 | the checks in order, the throttle, the record and the receipt |
| `Engagement.EngagementService.BulkParticipate` | flock_os/engagement.py:1112-1119 | a flush is the requests one by one until one raises |
| `EngagementInvariants.CreditsAreFirstInWindow` | flock_os/engagement.py:1122-1137 | the credited rows are exactly the earliest in-window rows of their attendees |
| `EngagementInvariants.EveryRunIsGood` | flock_os/engagement.py:865-1187 | in every reachable state: attendee index = credited keys in order, no repeated (key, nonce), rows carry the session's scope, opened and closed emitted at most once and closed with the headcount, and everyone an announced closing counts is in the store |
| `EngagementInvariants.ClosedIsAnnouncedIff` | flock_os/engagement.py:966-987 | a closed session is announced, and so stored, if and only if the finalize that closed it did not raise |
| `EngagementInvariants.RaisedFinalizeIsNeverRepaired` | flock_os/engagement.py:966-972 | after a finalize that raises, no later finalize stores or announces anything, whatever happens in between |
| `EngagementInvariants.ActionIsChange` | flock_os/engagement.py:865-1187 | each operation is, for each session on its own, one lifecycle or log change or none |
| `EngagementInvariants.CreateKeepsGoodIff` | flock_os/engagement.py:890-894 | the upsert keeps the invariant if and only if the session stays unopened, opened or announced as it was, with its scope |
| `EngagementLaws.RecreatedSessionOpensTwice` | flock_os/engagement.py:890-894 | creating a closed session anew lets it be opened and announced again |
| `EngagementLaws.MovesAreSteps` | flock_os/engagement.py:338-349 | a session moves one step along its life, or between draft and scheduled, and no other way |
| `EngagementLaws.CreateSucceedsIff` | flock_os/engagement.py:890-894 | a session can be created if and only if its kind is one of the nine; it is then stored under its id, and no other session changes |
| `EngagementLaws.OperationsSucceedIff` | flock_os/engagement.py:896-972 | opening succeeds exactly from draft or scheduled, closing from open, finalizing from closing or closed; a refusal changes nothing |
| `EngagementLaws.EverySessionCanBeClosed` | flock_os/engagement.py:896-987 | every session in draft or scheduled can be opened, closed and finalized, which leaves it closed with exactly its opening and its closing, with its headcount, announced |
| `EngagementLaws.ClosingIsScheduled` | flock_os/engagement.py:940-949 | closing schedules the finalize after the grace period and previews the headcount with nothing recorded |
| `EngagementLaws.AcceptedRequestIsLogged` | flock_os/engagement.py:1076-1103 | an accepted request adds one row, saying what the request said, of whom, when, and whether it was in the window |
| `EngagementLaws.ParticipantIsStored` | flock_os/engagement.py:1009-1178 | whoever takes part in time is in the store once the closing is announced: a member under their id, a visitor under their key |
| `EngagementInvariants.ClosedSessionIsFrozen` | flock_os/engagement.py:1026-1033 | once closed, log, headcount and events never change |
| `EngagementInvariants.PreviewIsALowerBound` | flock_os/engagement.py:1139-1155 | the closed count is at least the previewed one, whatever happens in between |
| `EngagementInvariants.FinalizeTwiceIsOnce` | flock_os/engagement.py:951-968 | a second finalize changes and emits nothing and reports the same count |
| `EngagementInvariants.FinalizeAccountsForEveryone` | flock_os/engagement.py:1157-1178 | the projected batch is in scope, is accepted, and has one item per credited key in order, the attendance of its member, or visitor, at the gathering; inserted + deduplicated = attendee count |
| `EngagementInvariants.FinalizeRecords` | flock_os/engagement.py:1257-1289 | closing records every credited member or visitor no row records at the gathering yet, and nobody else; the others are the deduplicated ones |
| `AttendanceSources.NobodyIsRecordedTwice` | flock_os/engagement.py:1269-1277 | in every run mixing bulk requests, leader reports and engagement sessions no attendee has two rows at a gathering, if no single request, report or closing names somebody twice |
| `AttendanceSources.RecordedMemberIsDeduplicated` | flock_os/engagement.py:1269-1277 | a member recorded at the gathering by any source keeps their one row when a session there closes |
| `EngagementInvariants.WindowIsStampedOnce` | flock_os/engagement.py:800-808 | opening stamps the start of the window with its time, closing its end, each unless set; nothing else moves a stamp or the status |
| `EngagementLaws.ParticipateCreditsIff` | flock_os/engagement.py:571-587 | an attendee is added exactly by an accepted request timed within [open_at, close_at + grace]; nobody is removed |
| `Throttling.ThrottleIsCall` | flock_os/engagement.py:844-851 | a throttle check is one call on its own key's bucket and leaves every other key alone |
| `Throttling.AllowedIffBelowLimit` | flock_os/engagement.py:844-851 | a call no earlier than the earlier ones, in whatever order those came, is allowed if and only if fewer than the limit were accepted in the second up to it |
| `Throttling.RateIsBounded` | flock_os/engagement.py:844-851 | and no more than the limit are accepted in that second |
| `Throttling.RightIffLatest` | flock_os/engagement.py:844-851 | the decision at a time is right after every history with a given latest time if and only if it is no earlier than that time |
| `Throttling.LaterTimeExceedsTheLimit` | flock_os/engagement.py:844-851 | for every limit of two or more and every later time there is a history after which an earlier-timed call goes over the limit |
| `Throttling.ThreePassALimitOfTwo` | flock_os/engagement.py:844-851 | calls at 0, 0, 2 and 0 seconds all pass a limit of two |
| `Throttling.LimitOneIsNeverExceeded` | flock_os/engagement.py:844-851 | a limit of one is never exceeded, in any order |
| `Throttling.ThrottledIffLimitReached` | flock_os/engagement.py:1046-1055 | in every run an admitted request no earlier than its device's earlier ones is throttled if and only if the limit was already reached in the second up to it |
| `EngagementLaws.SuspectMeansFastOrCrowded` | flock_os/engagement.py:597-612 | after any run: flagged if and only if under 100 ms or the address already has eight distinct attendees logged |
| `EngagementLaws.JoinedDeviceIsAdmitted` | flock_os/engagement.py:1023-1044 | with its ticket a joined device is admitted if and only if the session is live and the ticket unexpired |
| `EngagementLaws.KeyIsPerMember` | flock_os/engagement.py:355-371 | a joined member gets one attendee key per session whatever the device, a visitor one per device |
| `EngagementLaws.RefusedBeforeWriting` | flock_os/engagement.py:1023-1044 | each reason a request is turned away for, exactly when, and that nothing is written then |
| `EngagementLaws.AcceptedIffNonceIsNew` | flock_os/engagement.py:1098-1110 | an admitted request that is not throttled is accepted if and only if the attendee has no row with its nonce, and is answered as a duplicate otherwise |
| `EngagementLaws.ReplayedParticipationIsRefused` | flock_os/engagement.py:822-827 | an accepted participation is never accepted again, whatever happens in between, and resending it changes only the throttle |
| `Crc32.TableEntry` | load/lib/shards.js:21-26 | the inner loop is eight register shifts |
| `Crc32.BuildTable` | load/lib/shards.js:19-29 | entry n is the register n after eight shifts |
| `Crc32.ByByteIsEightShifts` | load/lib/shards.js:75 | one table step is eight single-bit shifts of the register with the byte added in |
| `Crc32.RegisterIsSerial` | load/lib/shards.js:71-78 | for every byte sequence the table register equals the bit-at-a-time register (section 8 of RFC 1952) |
| `Crc32.Crc` | load/lib/shards.js:71-78 | the table loop returns the bit-serial CRC-32 of the bytes |
| `Crc32.OneByteChangesTheCrc` | load/lib/shards.js:71-78 | messages that differ in one byte have different checksums |
| `Crc32.GoldenValueOfA` | load/lib/shards.test.mjs:21 | the reference gives the pinned checksum of "a" |
| `Utf8.Utf8Fallback` | load/lib/shards.js:41-64 | the index loop emits what its unit-by-unit specification says |
| `Utf8RoundTrip.DecodeEncode` | load/lib/shards.js:37-40 | a strict decoder after section 4 of RFC 3629 inverts the encoding of scalar values |
| `Utf8RoundTrip.EncodeDecode` | load/lib/shards.js:37-40 | the decoder accepts only encodings of scalar values |
| `Utf8RoundTrip.FallbackEncodes` | load/lib/shards.js:41-64 | on well-formed UTF-16 the output is the UTF-8 encoding of the string's code points |
| `Utf8RoundTrip.FallbackRoundTripsIff` | load/lib/shards.js:41-64 | the output decodes to the string's code points if and only if its surrogates are paired |
| `Utf8RoundTrip.FallbackIsValidIff` | load/lib/shards.js:50-60 | the output is valid UTF-8 if and only if the loop meets no stray surrogate |
| `Utf8RoundTrip.FallbackIsInjective` | load/lib/shards.js:41-64 | distinct well-formed strings encode differently |
| `Utf8RoundTrip.UnpairedSurrogateCollides` | load/lib/shards.js:50-53 | a high surrogate before "A" gives the bytes of a proper pair |
| `Utf8RoundTrip.PointsOfUnits` | flock_os/realtime.py:91-99 | a text's UTF-16 units are well-formed and give its code points back |
| `Utf8RoundTrip.ShardFor` | load/lib/shards.js:81-83 | the shard lies in [0, N) and equals Python's `shard_for` of the same text, for N > 0 |
| `Rooms.RoomNameRoundTripsIff` | flock_os/realtime.py:525-543 | parsing inverts both channel printers if and only if the event id is non-empty and newline-free |
| `Rooms.RoomsAreDistinct` | flock_os/realtime.py:78-88 | distinct (event, segment) pairs never share a room, for any ids |
| `Rooms.ParsedIdIsOneLine` | flock_os/realtime.py:503-508 | a parsed event id is non-empty and on one line |
| `Rooms.ChannelNames` | flock_os/realtime.py:66-88 | the two channel names as texts |
| `Rooms.ParsedIffNamed` | flock_os/realtime.py:525-543 | a name is parsed if and only if it is the prefix, a non-empty id on one line, and a broadcast or numbered shard segment |
| `Rooms.NegativeShardIsRefused` | flock_os/realtime.py:525-543 | a negative shard index prints to a room that is not parsed |
| `AuthCache.Cache.Get` | realtime/middlewares/flock_auth_cache.js:67-80 | entries, result and hit counter of a lookup |
| `AuthCache.Cache.Set` | realtime/middlewares/flock_auth_cache.js:82-92 | entries and counters of a store; the eviction loop keeps the newest |
| `AuthCache.Cache.Arrive` | realtime/middlewares/flock_auth_cache.js:125-141 | a hit replays the cached identity and counts as a hit, anything else counts as a miss |
| `AuthCache.Cache.Answer` | realtime/middlewares/flock_auth_cache.js:143-155 | a resolved identity is stored under its own sid or authorization |
| `AuthCacheLaws.SizeAndOrder` | realtime/middlewares/flock_auth_cache.js:58-101 | over every run: at most `max` entries, in order of last use |
| `AuthCacheLaws.HitIsCurrent` | realtime/middlewares/flock_auth_cache.js:67-80 | a hit replays the identity last stored for that key less than one TTL ago |
| `AuthCacheLaws.ReplayIsOwnIdentity` | realtime/middlewares/flock_auth_cache.js:119-156 | in every run of the middleware a replayed identity was resolved for a user under exactly the key presented, less than one TTL ago |
| `AuthCacheLaws.AnswerIsReplayed` | realtime/middlewares/flock_auth_cache.js:143-155 | an identity resolved for a user is replayed to the next connection with its sid, or authorization without one, within one TTL |
| `AuthCacheLaws.OtherAnswersStoreNothing` | realtime/middlewares/flock_auth_cache.js:143-146 | an answer that failed, or without user or key, leaves the cache as it was |
| `AuthCacheLaws.RecentKeyIsHit` | realtime/middlewares/flock_auth_cache.js:82-92 | an unexpired key is hit while fewer than `max` distinct other keys were used since its last use |
| `Telemetry.CheckedBuckets` | flock_os/telemetry.py:151-160 | exactly the non-empty, non-decreasing lists pass; +Inf is added where it is missing and nothing else changes |
| `Telemetry.NewHistogram` | flock_os/telemetry.py:151-160 | bad bucket lists are refused, good ones give an empty valid histogram |
| `Telemetry.LatencyHistogram.Observe` | flock_os/telemetry.py:162-173 | every cumulative count stays the number of non-negative observations at or under its bound |
| `Telemetry.LatencyHistogram.Reset` | flock_os/telemetry.py:190-194 | all observations are forgotten |
| `Telemetry.LatencyHistogram.TakeSnapshot` | flock_os/telemetry.py:175-188 | the snapshot is a function of the observations |
| `Telemetry.QuantileFromCumulative` | flock_os/telemetry.py:105-133 | the loop computes the interpolated estimate for any lists |
| `TelemetryLaws.RankIsTaken` | flock_os/telemetry.py:105-133 | every rank up to n is some observation's |
| `TelemetryLaws.QuantileSharesTheRanksBucket` | flock_os/telemetry.py:105-133 | the estimate lies in the finite bucket of the ceil(q n)-th smallest observation, or is the last finite edge |
| `TelemetryLaws.EstimateIsProportional` | flock_os/telemetry.py:121-130 | in a finite bucket the estimate divides the bucket as the rank divides the observations in it |
| `TelemetryLaws.EqualStepsOfRank` | flock_os/telemetry.py:121-130 | equal steps of rank in a bucket give equal steps of the estimate, up to the bound at the bucket's own count |
| `TelemetryLaws.QuantilesAreOrdered` | flock_os/telemetry.py:105-133 | a larger quantile never has a smaller estimate |
| `TelemetryLaws.SnapshotIsOrdered` | flock_os/telemetry.py:175-188 | p50 <= p95 <= p99, absent exactly without observations, and the last bucket counts all |
| `TelemetryLaws.SnapshotAnswers` | flock_os/telemetry.py:175-188 | a snapshot counts the observations up to each bound and in all, and answers for the quantiles 0.5, 0.95 and 0.99 |
| `Resp.Reader.ReadLine` | scripts/ops/redis-pubsub-exporter.py:73-82 | the line up to the first CRLF of buffer plus stream, or closed; nothing behind it is consumed and nothing more received |
| `Resp.Reader.ReadN` | scripts/ops/redis-pubsub-exporter.py:85-94 | exactly n bytes and two more are consumed, or closed; negative n slices the buffer from its end |
| `Resp.Reader.ParseReply` | scripts/ops/redis-pubsub-exporter.py:97-122 | reply, error and position are those the bytes determine; a "-" line fails with the text after it; a bulk length below -1 slices what is buffered behind its line |
| `Resp.EncodeCmd` | scripts/ops/redis-pubsub-exporter.py:137-142 | the loop builds the command text and encodes it |
| `Resp.Issue` | scripts/ops/redis-pubsub-exporter.py:145-148 | one command sent, one reply read |
| `RespLaws.PyIntOfShown` | scripts/ops/redis-pubsub-exporter.py:106-119 | `int` reads back every printed integer |
| `RespLaws.ReplyRoundTripsIff` | scripts/ops/redis-pubsub-exporter.py:97-122 | any nested reply is read back, and reading stops at the byte after it, if and only if no simple string in it holds a CRLF |
| `RespLaws.ParsedIsClean` | scripts/ops/redis-pubsub-exporter.py:97-122 | the parser never yields a simple string with a CRLF |
| `RespWire.ReadIffOnWire` | scripts/ops/redis-pubsub-exporter.py:97-122 | over every byte stream, a reply is read, up to where it ends, if and only if the stream starts with it as the grammar writes it |
| `RespWire.FirstByteTellsReply` | scripts/ops/redis-pubsub-exporter.py:102-121 | a reply is a simple string only behind "+", an integer behind ":", a bulk string behind "$", an array behind "*", nil behind "$" or "*" |
| `RespWire.ErrorLineFails` | scripts/ops/redis-pubsub-exporter.py:106-107 | a first line starting with "-" fails with exactly the text after it, whatever follows |
| `RespWire.ErrorElementFailsArray` | scripts/ops/redis-pubsub-exporter.py:116-121 | an error line among the elements of an array, behind any replies, fails the whole array |
| `RespWire.DriftIsLoud` | scripts/ops/redis-pubsub-exporter.py:100-122 | no line, an empty line, an unknown first byte and a length that is none are each refused by name |
| `RespWire.RefusedLogin` | scripts/ops/redis-pubsub-exporter.py:127-131 | an error reply raises with its text on every chunking |
| `RespLaws.BufferMattersIff` | scripts/ops/redis-pubsub-exporter.py:85-94 | behind a bulk length n below -1 the result is independent of what was received if and only if at most -n - 2 bytes follow (2 for n = -2) |
| `RespLaws.NegativeLengthDependsOnChunks` | scripts/ops/redis-pubsub-exporter.py:85-94 | the same bytes received at once and in two pieces are read as "a" and as "" |
| `RespCommands.CommandReadsBackIff` | scripts/ops/redis-pubsub-exporter.py:137-142 | a command is read back as its arguments if and only if all are ASCII |
| `RespCommands.AccentedArgumentIsCut` | scripts/ops/redis-pubsub-exporter.py:137-142 | a one-letter accented argument is declared too short |

## Left out

- Frappe adapters, whitelisted transports, portal pages, hooks and controllers: I/O over a framework. The
  gateway contracts are modelled by the in-memory adapters; in particular `filter_unseen` and inserts follow
  `flock_os/reporting.py:319-337`, and MariaDB isolation and upserts are not part of this model.
- AttendanceQueue.EveryRunIsSafe: published events are left out of the protocol state, because emission is best
  effort after the commit; the row and counter effects of a failed attempt are the three commit points of `submit`.
- AttendanceQueue.DeadAfterExactlyMaxRetries: states runs without redelivery; `FailingBatchIsDeadLettered` and `EveryRunBalancesCopies` cover the rest, where each delivered copy counts its own retries.
- QueueWorker.Worker.ProcessBulkBatch: the payload is a batch built once; logging, sleeps and jitter are left out.
- HMAC-SHA256, SHA-256 and Redis are uninterpreted functions or adapters; `zlib.crc32` is taken to be the bit-serial CRC-32 and `TextEncoder` and `str.encode` RFC 3629.
- Error message texts, log lines and the order in which Python iterates over sets.
- Permissions.FragmentMeaning: SQL text, quoting and `escape` are left out; the fragment is a predicate tree. The order of the led ranges is not modelled.
- ApprovalAuthority.DecidersAreApprovers: states leader steps; `AdminStepIsForBranchAdmins` states the branch-admin step. Groups without leaders are dropped from the chain as in the adapter, so depth counts groups that have one.
- AttendanceSources.NobodyIsRecordedTwice: the sources share the in-memory store, which identifies an attendance by event and attendee; the MariaDB indexes on (branch, gathering, member) and (session, attendee key) are left out.
- Auto-approval by capacity, registration gates and notifications around approvals: single conditions over fields.
- Engagement.EngagementService.TakePart: feedback values are JSON text; the six-decimal text of ticket times is left inside the uninterpreted HMAC.
- Engagement.EngagementService.Finalize: the service factory yields one bulk service for all organizations; session config, geofence and facilitator are left out, and a raising submit has published nothing.
- The engagement catalog, accessibility profile, templates, review queue and console context: static data and projections.
- Rooms.RoomNameRoundTripsIff: `\d` is read as ASCII digits; `shards_for` and the routing handlers are comprehensions over these names and are left out.
- AuthCache.Cache.Arrive: the key is a parameter; the cookie pattern of `cacheKey` and the environment overrides are left out, and `originalAuth` is the caller of `Answer`.
- Telemetry.QuantileFromCumulative: floating-point rounding is left out, and bounds are finite reals or +Inf.
- Resp.Reader.ParseReply: inside an array, a bulk length below -1 with more bytes behind it than `Harmless` leaves the outcome open. Decoding simple strings to text, Python's recursion and digit limits and the 4096-byte receive size are left out.
- `registrations.py`, `gatherings.py`, `scheduling.py`, `notifications.py`, `portal.py`: mostly single-branch rules; the gathering statuses are used where the leader report needs them.
- Seeders, profilers, load scripts, process control, Prometheus text and migrations.
