# Verification of the BigTop control plane

BigTop is a small cluster manager for microVMs. One server keeps jobs, tasks,
nodes and snapshot records in memory, places pending tasks on nodes, hands out
addresses from a /16, and journals its mutations to a file. This project models
that server as a state machine and proves what it keeps across runs, scheduler
passes, crashes, restarts and compaction. Three smaller parts are modelled next
to it: the audit that watches snapshot records, the frame protocol over which
guests push logs, and the quoting of the guest command line.

`dafny verify dfyconfig.toml` checks the whole project.

## How it is built

- Every API mutation, scheduler piece and replayed operation is a function on
  `DurableState` values (`Durable.dfy`, `Scheduling.dfy`, `Ipam.dfy`). The
  classes of `Server.dfy` and `Ipam.dfy` update fields in place with the loops of
  the source; each method is proved to end in the state its function gives and
  to append exactly the operations its function lists. A hash table is visited
  through `Ordering.AnyOrder`, which delivers the elements in an unknown order,
  so every loop over a table is proved for all orders. `Serving.dfy` ties the
  object and its directory to the system of `Recovery.dfy`: every call, pass, start
  and clean stop of the object is a step of the system.
- `Runs.dfy` makes one event of every API call, every heartbeat and every
  indivisible piece of a pass, proves a simulation step for each, and folds them
  into runs. `Recovery.dfy` adds the data directory: a history is any sequence
  of events, crashes between groups of operations, crashes inside a group, clean
  restarts and crashes during compaction.
- `Soundness.dfy` holds what no crash can break: ids match keys, the allocator is
  well formed, no node is overcommitted, and the recorded `used` covers the
  demand. `Invariants.dfy` adds that tasks and addresses agree, which a crash
  inside a group ends for its task, and a harmful crash during compaction for the
  tasks whose addresses the replay moves. `Survival.dfy` states
  what holds after any history, `TornGroups.dfy` which tasks a crash tears from
  their addresses and what puts them right, `Networks.dfy` when two records come to
  carry one address, `Heartbeats.dfy` and `Shares.dfy` what a start cannot know.
- `MovedAddress.dfy`, `SharedAddress.dfy`, `SharedAfterCompaction.dfy` and
  `GivenBack.dfy` are histories from the first start (`Scenes.dfy`) in which
  something a reader may expect does not hold.
- `Erased` is the state without what the journal does not carry: the last
  heartbeat, the underlay address and the recomputed `used` of each node. All
  statements about replay are equalities of erased states
  (`Lasting.ErasedIff` says what such an equality means).
- `Preference.dfy`, `Liveness.dfy`, `Discovered.dfy` and `Lasting.dfy` say what the
  functions above amount to without using them: in plain arithmetic which node is
  picked, in nanoseconds whose tasks are requeued, what a placed task is told, and
  which parts of a record last over any history.

## Main results

- Replaying the journal of any run gives the live state, every replayed
  allocation returns the recorded address, and after any history of harmless
  crashes a start gives back the live state (`Runs.RunRefines`,
  `Runs.RunReturnsRecorded`, `Recovery.HistorySafe`). A compaction crash is
  harmless exactly when every allocation that is not given back returns its
  recorded address (`Recovery.CompactionCrashIff`).
- The replay of a start gives every allocation that is not given back its recorded
  address after any such history, and all allocations if no crash hit a
  compaction since the last clean restart (`Recovery.HistoryReturnsRecorded`);
  `GivenBack.GivenBackReplaysElsewhere` is a history in which one that was given
  back replays to another address.
- After any history, harmful crashes included, a start gives back every job, task,
  snapshot record and node, no node is overcommitted and the allocator's table
  gives no address to two tasks (`Survival.RecordsSurvive`). The addresses come
  back too as long as no placement gave one back without journaling it
  (`Survival.AddressesSurvive`); one event keeps them exactly then
  (`Survival.ServeHoldsLiveIff`).
- The records are another matter. After harmless crashes no two unfinished tasks use
  the same address (`Networks.HarmlessHistoryDistinct`). Two tasks on one node can
  after a torn report (`SharedAddress.TwoTasksOneAddress`) and after a crash during
  compaction (`SharedAfterCompaction.TwoTasksOneAddress`). One step makes it so
  exactly when it places a task on an address that the record of another
  unfinished task carries (`Networks.NextDistinctIff`). At any moment of any
  history one of the two was torn from its address by a crash and not put right
  since (`Networks.OnlyTornTasksShare`).
- At any moment of any history only tasks that a crash has torn from their addresses
  disagree with the allocator (`TornGroups.OnlyTornTasksDisagree`). While the
  directory replays to the live state, a plain crash or a restart tears none, a
  crash inside an event its task at most, and a crash during compaction exactly
  those whose held address the second replay changed
  (`TornGroups.CrashTearsNothing`, `TornGroups.TearTearsOne`,
  `TornGroups.CompactionTears`); harmless crashes tear none
  (`TornGroups.HarmlessTearsNothing`).
- A process that dies after any byte of what it is writing starts again in the
  state before or after the event, unless the cut separates the two operations
  of one group (`CrashPoints.CrashDuringEvent`). Then the task of that group
  disagrees with the allocator, until its terminal report, a requeue or a placement
  where its address belongs. A retried
  report or requeue has the effect of the first; a retried placement restores
  agreement and is replayed exactly when the node it picks owns the /24 of the
  held address (`TornGroups.TornPlacementRetried`).
- Whatever is served, reports the environment should not send included, and
  however the journal is cut, the allocator stays well formed
  (`Survival.IpamSurvivesAnything`).
- A crash between the snapshot rename and the journal truncation never changes
  jobs, tasks, snapshot records or nodes (`Compaction.SecondReplayKeepsRecords`).
  Where the journal led to the live state, addresses included, it changes no /24
  either (`Compaction.SecondReplayMovesOnlyAddresses`), and it leaves the addresses
  alone under the exact condition above
  (`CompactionExact.CompactionCrashHarmlessIff`), for which a condition on the
  journal and its final state is enough
  (`CompactionExact.SafeReallocationsAreHarmless`).
- At any moment between two calls the bytes in the journal file are enough to start
  again in the state of the running object (`Serving.ServeEvent`,
  `Serving.ServePass`, `Serving.DiskRecoversServer`, `Serving.StartAfterCrash`).
- Every start, after whichever crash, counts as a heartbeat of every node, so a pass
  less than eleven seconds later requeues nothing, however long the server was down
  (`Liveness.StartHears`, `Liveness.StartRequeuesNothing`). Over any history a pass
  requeues exactly the assigned and running tasks of nodes from which neither a
  heartbeat, a registration nor a start came in the last eleven seconds
  (`Liveness.HistoryRequeuesTheSilent`).
- Over any history, every kind of crash included, a task stays what was submitted, a
  node what was registered, and a finished task and a final snapshot record stay as
  they are to the last field (`Lasting.TaskLastsForever`, `Lasting.SubmissionLasts`,
  `Lasting.RegistrationLasts`, `Lasting.SnapshotLastsForever`). Nothing the server
  knows was made up by a replay (`Lasting.NothingFromNowhere`).
- The node picked can take the task and beats every other node that can, and such a
  node is picked (`Preference.PickedIff`). A task placed there is told, for every
  service it discovers and no other, the sorted addresses of the tasks that run under
  that name, and its replay writes the same record (`Discovered.PlacementTells`,
  `Discovered.ListedIff`, `Discovered.ToldIff`).
- No node is overcommitted through node death, requeue, revival and late
  reports; a pass from any sound state leaves no task on a dead node, and
  whatever it leaves pending is blocked (`Passes.TickSettles`,
  `Passes.TickAchieves`). It looks at the preferred node only, so a task can wait
  beside a node that could take it (`Exhaustion.WaitsBesideAFreeNode`), a node
  without a /24 is out for good once all are given out
  (`Exhaustion.ShutOutForGood`), and a task that a late report set running on no
  node stays there until it is reported again (`Stranded.TickLeavesStranded`).

## Where the code and its documentation differ

The model follows the code.

- The design notes of BigTop, its README (line 253) and the comment at
  `crates/bigtop-server/src/journal.rs:42-44` say that the journal stores whole
  records and no deltas. `SetTaskState`, `TaskAssigned`, `TaskRequeued`,
  `IpamAllocate` and `IpamRelease` are deltas.
- The comment at `crates/bigtop-server/src/journal.rs:321-327` says that a second
  replay converges to the snapshot. Jobs, tasks, records and nodes do; an address
  can move. `MovedAddress.SecondReplayMovesAddress` is one pass and one report
  after which it does, `MovedAddress.CompactionMovesAddress` the history from the
  first start.
- The assertion at `crates/bigtop-server/src/journal.rs:433-436` expects a replayed
  allocation to return the recorded address. After a compaction crash it fails even
  in harmless histories (`GivenBack.GivenBackReplaysElsewhere`).
- The comment at `crates/bigtop-server/src/scheduler.rs:132-134` lets a task wait when
  the address space is exhausted. It also waits when only the /24 of the preferred
  node is (`Exhaustion.WaitsBesideAFreeNode`).
- The same notes and the comment at `crates/bigtop-server/src/journal.rs:14-16` say
  that a corrupt final line is truncated. A final line that
  ends in a newline and does not decode is an error
  (`crates/bigtop-server/src/journal.rs:282-296`); only unterminated bytes are
  dropped. `JournalFile.LoadsIff` says which files load, and
  `JournalFile.TerminatedTornLine` gives files that end in a corrupt line and do
  not.
- `crates/bigtop-server/src/journal.rs:3-8` promises the exact in-memory state. A
  heartbeat, including the underlay address it carries, is not journaled
  (`crates/bigtop-server/src/state.rs:234-249`). `Heartbeats.HeartbeatIsLost` is a
  run of two events after which a start knows no underlay address;
  `Heartbeats.UnderlaySurvivesIff` and `Shares.UsedSurvivesIffNothingGivenUp` say
  exactly when the address and the recorded `used` survive.
- `crates/bigtop-agent/src/vsock.rs:194-195` says that completion fires on the first
  completion frame or on close. It also fires when a malformed frame ends the
  connection, and it does not fire when the log receiver went away first.

## Assumptions

- Appends to the journal succeed, and an append is on disk when it returns.
- Generated ids are new, and ids of one job are distinct where a count is stated.
- The configured /16 is the same across restarts, and nothing runs while the
  shutdown hook compacts.
- A report of `Pending` does not hit a task that sits on a node. Agents report
  `Running`, `Succeeded` and `Failed` only.
  `Invariants.ReportKeepsInvariantIff` shows that this is the exact condition.
- The encoding of an operation holds no newline byte (section 7 of RFC 8259), is
  not empty, and none of its strict prefixes decodes.

## Model

| member | source | states |
|---|---|---|
| `Runs.StepRefines` | crates/bigtop-server/src/journal.rs:352-444 | one event keeps the invariant, and replaying its operations on the state before gives the state after |
| `Runs.StepKeepsSound` | crates/bigtop-server/src/state.rs:133-513 | one event keeps a state sound whether or not tasks and addresses agree |
| `Runs.StepReplaysIff` | crates/bigtop-server/src/scheduler.rs:122-198 | from any sound state an event is replayed faithfully exactly when it is not a placement that gives an address back unjournaled |
| `Runs.RunRefines` | crates/bigtop-server/src/journal.rs:352-444 | folding the journal of any finite run from any state with the invariant gives the live jobs, tasks, snapshots, addresses and erased nodes |
| `Runs.RunConcat` | crates/bigtop-server/src/journal.rs:352-359 | runs compose: state and journal of a run are those of its parts in sequence |
| `Runs.RunReturnsRecorded` | crates/bigtop-server/src/journal.rs:427-439 | in the journal of any run every allocation, when replayed, returns the address recorded with it |
| `Runs.TickIsRun` | crates/bigtop-server/src/scheduler.rs:32-37 | from any sound state a whole pass is a run of requeues, one recount and placements, so it keeps the invariant and every pass cut short does too |
| `Runs.RequeueAllEffect` | crates/bigtop-server/src/scheduler.rs:66-83 | requeueing sends exactly the listed tasks back to pending and touches no node and no other task |
| `Runs.PlaceTouchesOneTask` | crates/bigtop-server/src/scheduler.rs:156-170 | placing one task changes no other task and of a node only `used`, which does not shrink |
| `Durable.ApplyOneRespectsErasure` | crates/bigtop-server/src/journal.rs:361-444 | one replayed operation depends neither on the moment of the replay nor on anything the journal does not carry |
| `Durable.ApplyAllRespectsErasure` | crates/bigtop-server/src/journal.rs:352-359 | the same for a whole journal |
| `Replay.CreateJobReplays` | crates/bigtop-server/src/state.rs:133-178 | the operation journaled for a job replays to the effect of submitting it |
| `Replay.RegisterReplays` | crates/bigtop-server/src/state.rs:205-226 | the same for a node registration |
| `Replay.HeartbeatReplays` | crates/bigtop-server/src/state.rs:234-249 | a heartbeat changes nothing but what erasure removes: the time of the heartbeat and the underlay address, which a replay does miss |
| `Replay.ReportReplays` | crates/bigtop-server/src/state.rs:293-338 | the same for a task report, with and without a released address, accepted or refused |
| `Replay.RequestSnapshotReplays` | crates/bigtop-server/src/state.rs:356-398 | the same for a snapshot request |
| `Replay.ReportSnapshotReplays` | crates/bigtop-server/src/state.rs:457-513 | the same for a snapshot report |
| `Replay.RequeueReplays` | crates/bigtop-server/src/scheduler.rs:66-83 | the same for a requeued task |
| `Replay.PlaceReplaysIff` | crates/bigtop-server/src/scheduler.rs:122-198 | placing a task is replayed faithfully exactly when the task does not hold an address while its chosen node owns no /24, which is when an address is given back unjournaled |
| `Heartbeats.UnderlaySurvivesIff` | crates/bigtop-server/src/state.rs:234-249 | after any run a start knows a node under the underlay address it registered with, which is the live one exactly when no heartbeat of the run brought one or the last one brought that same address |
| `Heartbeats.UsedSurvivesIff` | crates/bigtop-server/src/journal.rs:352-359 | after any run a start gives back the recorded `used` of a node exactly when it was the recount |
| `Shares.UsedIsDemandAndGivenUp` | crates/bigtop-server/src/scheduler.rs:90-109 | conservation: over any run the recorded `used` of a node below the top of the 64 bit range is the demand of the tasks on it and what reports and requeues gave up there since the last recount |
| `Shares.UsedSurvivesIffNothingGivenUp` | crates/bigtop-server/src/journal.rs:352-359 | so a start gives it back exactly when nothing was given up there since |
| `Heartbeats.HeartbeatIsLost` | crates/bigtop-server/src/journal.rs:3-8 | a node that registers without an underlay address and reports one is known without it after a start |
| `Invariants.PlaceOneCases` | crates/bigtop-server/src/scheduler.rs:122-198 | for a pending task that holds no address, as every one does in a state with the invariant, both branches that give an address back without journaling it are dead, and a failed allocation leaves the whole state as it was |
| `Invariants.CreateJobKeepsInvariant` | crates/bigtop-server/src/state.rs:133-178 | submitting a job with new ids keeps the invariant |
| `Invariants.RegisterKeepsInvariant` | crates/bigtop-server/src/state.rs:205-226 | registering a node under a new id keeps the invariant |
| `Invariants.HeartbeatKeepsInvariant` | crates/bigtop-server/src/state.rs:234-249 | a heartbeat keeps the invariant |
| `Invariants.ReportKeepsInvariantIff` | crates/bigtop-server/src/state.rs:293-338 | a report keeps the invariant exactly when it does not return a task that sits on a node to pending |
| `Invariants.RequeueKeepsInvariant` | crates/bigtop-server/src/scheduler.rs:66-83 | requeueing keeps the invariant: the task gives back its address and its share of the node |
| `Soundness.CommitKeepsAccounting` | crates/bigtop-server/src/scheduler.rs:156-170 | placing a task that fits keeps every node within its total and `used` equal to the recount if it was |
| `Invariants.PlaceKeepsInvariant` | crates/bigtop-server/src/scheduler.rs:122-198 | placing a pending task keeps the invariant: its network is the address it holds, in the /24 of its node, with that gateway |
| `Invariants.GuestNetwork` | crates/bigtop-server/src/scheduler.rs:140-150 | in a state with the invariant the network of an unfinished task is a host from 2 to 254 of its node's /24, with host 1 as the gateway and the mask 255.255.255.0 |
| `Ipam.FirstFree` | crates/bigtop-server/src/ipam.rs:77 | the search returns the least free number of the range, or nothing exactly when all are taken |
| `Ipam.SubnetOctetKeeps` | crates/bigtop-server/src/ipam.rs:131-140 | giving a node a third octet keeps the allocator well formed and every octet given before, and takes the lowest that is free |
| `Ipam.AllocateKeeps` | crates/bigtop-server/src/ipam.rs:63-81 | allocation keeps addresses and octets unshared, keeps all that was given out, returns a task the address it holds, and a new address is in the /24 of the node and held by nobody else |
| `Ipam.FailedAllocateChangesNothing` | crates/bigtop-server/src/ipam.rs:63-81 | a failing allocation leaves the allocator as it was although the octet may be inserted first |
| `Ipam.ReleaseKeeps` | crates/bigtop-server/src/ipam.rs:85-87 | release takes the address of that task and keeps every other address and every octet, and the allocator well formed; the result tells whether there was one |
| `Ipam.AllocateSucceedsIff` | crates/bigtop-server/src/ipam.rs:63-81 | for a task that holds nothing allocation succeeds exactly when the node owns a /24 with fewer than 253 holders or owns none while fewer than 256 are owned, and gives the lowest free host from 2 to 254 |
| `Ipam.ExhaustionPersists` | crates/bigtop-server/src/ipam.rs:60-81 | a node without an address to give stays that way as long as nothing is released |
| `Exhaustion.ShutOutForGood` | crates/bigtop-server/src/ipam.rs:131-140 | once all octets are given out, a node without one is given no address over any run, releases included |
| `Ipam.HeldWithinCapacity` | crates/bigtop-server/src/ipam.rs:126-128 | at most 256 times 253 addresses are ever held |
| `Ipam.Allocator.OctetFor` | crates/bigtop-server/src/ipam.rs:131-140 | the allocator updated in place gives the octet and the state of the specification |
| `Ipam.Allocator.Allocate` | crates/bigtop-server/src/ipam.rs:63-81 | the same for the address |
| `Ipam.Allocator.Release` | crates/bigtop-server/src/ipam.rs:85-87 | the same for a release; the result tells whether the task held an address |
| `Accounting.DemandSplit` | crates/bigtop-server/src/scheduler.rs:94-103 | the demand on a node does not depend on the order in which tasks are counted |
| `Accounting.DemandIsSum` | crates/bigtop-server/src/scheduler.rs:90-109 | it is the sum of the CPU, and of the memory, the assigned and running tasks on it ask for |
| `Accounting.SaturatedPlus` | crates/bigtop-core/src/types.rs:40-45 | adding with saturation is the saturated true sum |
| `Accounting.TrueDemandFits` | crates/bigtop-core/src/types.rs:33-36 | below the top of the 64 bit range a node that is not overcommitted by the saturating sum is not overcommitted by the true sum |
| `Placement.ProductFitsU128` | crates/bigtop-server/src/scheduler.rs:255-269 | the cross products of two loads fit 128 bits |
| `Placement.RatiosTransitive` | crates/bigtop-server/src/scheduler.rs:255-269 | comparing ratios by cross products is transitive |
| `Placement.LoadTransitive` | crates/bigtop-server/src/scheduler.rs:255-269 | the load order, nodes without capacity last, is transitive |
| `Placement.BeforeIsStrictTotalOrder` | crates/bigtop-server/src/scheduler.rs:246-249 | with the id as tie break it is a strict total order on nodes with different ids |
| `Placement.ChoiceUnique` | crates/bigtop-server/src/scheduler.rs:235-251 | at most one node is a least eligible one, so the choice does not depend on the order of the node table |
| `Placement.ChoiceExists` | crates/bigtop-server/src/scheduler.rs:235-251 | there is a choice: a least eligible alive node, or none exactly when no node is eligible |
| `Preference.PickedIff` | crates/bigtop-server/src/scheduler.rs:233-269 | a node is picked exactly when it can take the task (heard less than eleven seconds ago, room for its CPU and memory, the pinned one if one is pinned) and beats every other node that can: capacity before none, then the smaller share of CPU in use by cross products, then of memory, then the smaller id |
| `Preference.NoneIffNobody` | crates/bigtop-server/src/scheduler.rs:233-251 | none is picked exactly when no node can take the task |
| `Preference.PickedIsLeastLoaded` | crates/bigtop-server/src/scheduler.rs:253-269 | so the node picked has at most the share of CPU in use of any other that can take the task, on equal shares at most its share of memory, and no node without capacity is picked beside one with capacity |
| `Ordering.LessIff` | crates/bigtop-server/src/scheduler.rs:249 | the order of ids and texts is the dictionary order: smaller at the first difference, or a proper prefix |
| `Server.StateInner.ChooseNode` | crates/bigtop-server/src/scheduler.rs:235-251 | visiting the nodes in any order ends at the one choice, which `Preference.PickedIff` describes in plain arithmetic |
| `Passes.TickAchieves` | crates/bigtop-server/src/scheduler.rs:32-37 | after a pass no task sits on a dead node, `used` is the recount, a pending task without networking fits no eligible alive node, and a networked one fits none or an alive node it may use has no address to give |
| `Passes.TickSettles` | crates/bigtop-server/src/scheduler.rs:32-37 | the same from any sound state, torn groups included, without the clause on networked tasks: sound, no task on a dead node, `used` the recount, a task without networking left pending only if it fits no eligible alive node |
| `Passes.TickFixpointIff` | crates/bigtop-server/src/scheduler.rs:32-37 | a second pass at the same moment changes and journals nothing exactly when each networked task left pending has no eligible node or its chosen node has no address |
| `Passes.PlaceIdle` | crates/bigtop-server/src/scheduler.rs:122-139 | a pending task is left waiting exactly when no node is eligible or it asks for networking and the preferred node has no address for it |
| `Liveness.PassRequeuesTheSilent` | crates/bigtop-server/src/scheduler.rs:44-85 | from any state a pass requeues exactly the tasks that are assigned to or run on a known node whose last heartbeat lies at least 11 000 000 000 ns back |
| `Liveness.StartHears` | crates/bigtop-server/src/journal.rs:152-170 | after every start, crashes of any kind included, the last heartbeat of a node is the moment its snapshot was restored, or the moment the journal that registers it was replayed |
| `Liveness.StartRequeuesNothing` | crates/bigtop-server/src/journal.rs:149-151 | a pass less than eleven seconds after both requeues nothing |
| `Liveness.HeartbeatIsHeardAt` | crates/bigtop-server/src/state.rs:228-249 | at any moment of any history the recorded heartbeat of a node is the time of the last one it sent, of its registration or of the last start, whichever came last |
| `Liveness.HistoryRequeuesTheSilent` | crates/bigtop-core/src/types.rs:235-241 | so over any history a pass requeues exactly the assigned and running tasks of nodes that were not heard in that sense for eleven seconds |
| `Exhaustion.WaitsBesideAFreeNode` | crates/bigtop-server/src/scheduler.rs:122-139 | a run from the first start that ends in a state in which a task waits although an eligible node can open a /24 of its own |
| `Stranded.StepStrandsIff` | crates/bigtop-server/src/state.rs:293-338 | a task comes to run on no node exactly by a report of `Assigned` or `Running` about a pending task |
| `Stranded.LateReportStrands` | crates/bigtop-server/src/state.rs:293-338 | a task requeued from a silent node and then reported running by it is one |
| `Stranded.TickLeavesStranded` | crates/bigtop-server/src/scheduler.rs:32-37 | a pass leaves such a task as it is |
| `Stranded.NextLeavesStranded` | crates/bigtop-server/src/scheduler.rs:44-85 | so does every event that is no report about it, and every crash |
| `Compaction.RunLedTo` | crates/bigtop-server/src/journal.rs:321-327 | every operation of a live journal belongs to the history of the state it led to: created tasks exist, terminal reports stand, snapshot records have moved on |
| `Compaction.SecondReplayKeepsRecords` | crates/bigtop-server/src/journal.rs:321-337 | replaying a journal on the state it led to changes no job, task, snapshot record or node, even where tasks and addresses disagree |
| `Compaction.SecondReplayMovesOnlyAddresses` | crates/bigtop-server/src/journal.rs:321-337 | where a live journal led to a state, replaying it on that state changes no /24 either, so at most who holds which address |
| `Compaction.SecondReplayIsIdentity` | crates/bigtop-server/src/journal.rs:321-337 | and no address, if no task was given an address after being released one |
| `CompactionExact.SecondReplayIsIdentityIff` | crates/bigtop-server/src/journal.rs:427-437 | a second replay changes nothing exactly when every allocation that is never given back returns the address recorded for it |
| `CompactionExact.CompactionCrashHarmlessIff` | crates/bigtop-server/src/journal.rs:321-337 | the same for the journal of any run |
| `CompactionExact.SafeReallocationsAreHarmless` | crates/bigtop-server/src/journal.rs:321-337 | in particular if each task that is placed again finds the lower hosts of its /24 held by tasks that keep or already have their last address, and its own host given to nobody else on the way; this is not necessary: a host that another task takes and gives back on the way need not spoil it |
| `CompactionExact.NoReallocationIsSafe` | crates/bigtop-server/src/journal.rs:321-337 | a journal in which no task is placed again after it was released an address meets this |
| `MovedAddress.SecondReplayMovesAddress` | crates/bigtop-server/src/journal.rs:321-327 | one whole pass and one report whose journal, replayed on the state it led to, gives a task another address than its record says |
| `MovedAddress.CompactionMovesAddress` | crates/bigtop-server/src/journal.rs:321-327 | a history from the first start that ends so: everything before the compaction crash is harmless, and the start after it does not give back the live state |
| `CrashPoints.CrashDuringEvent` | crates/bigtop-server/src/journal.rs:191-198 | a crash after any byte of an event's operations: the load succeeds, the start finds the state before or after the event, and only a cut between the two operations of a group breaks the agreement of tasks and addresses |
| `CrashPoints.CutIsTear` | crates/bigtop-server/src/journal.rs:191-198 | a crash after any byte is one of the torn groups of a history, and the repaired file holds that journal |
| `Survival.IpamSurvivesAnything` | crates/bigtop-server/src/ipam.rs:63-87 | whatever is served, repeated ids and reports that return a placed task to pending included, and wherever crashes hit, the allocator gives no address to two tasks and no /24 to two nodes, and the capacity bound stands |
| `Survival.EffectIsStep` | crates/bigtop-server/src/state.rs:133-513 | on events the environment may send, what happens there is what happens in runs and histories |
| `Survival.NextBacked` | crates/bigtop-server/src/lib.rs:115-145 | every event and every crash, harmful or not, leaves a directory that replays to the records of the live state, and these are the expected ones |
| `Survival.RecordsSurvive` | crates/bigtop-server/src/journal.rs:352-359 | after any history, with any torn groups and compaction crashes, a start gives back all jobs, tasks, snapshot records and nodes, no node is overcommitted, `used` covers the demand and the allocator gives no address to two tasks |
| `Lasting.ErasedIff` | crates/bigtop-server/src/journal.rs:352-359 | equal erased states are equal jobs, tasks, snapshot records and addresses, and the same nodes up to heartbeat, underlay address and `used` |
| `Lasting.StepChangesTask` | crates/bigtop-server/src/state.rs:293-338 | only a report about an unfinished task, its requeue and its placement change a task record, each in the fields named and no other |
| `Lasting.TaskLastsForever` | crates/bigtop-server/src/state.rs:293-338 | over any history, every kind of crash included, a task keeps its ids, its name and, but for what it is told about services, its spec; a finished one never changes again |
| `Lasting.RegistrationLasts` | crates/bigtop-server/src/state.rs:205-226 | after any later history a registered node is known under its id with the name, address and resources it registered with |
| `Lasting.StepChangesSnapshot` | crates/bigtop-server/src/state.rs:457-513 | only a report for its task that moves it on changes a snapshot record: state, node, error and each path that is given |
| `Lasting.SnapshotLastsForever` | crates/bigtop-server/src/state.rs:457-513 | over any history a snapshot record keeps its id, task and time, and a final one never changes again |
| `Lasting.RequestThenReport` | crates/bigtop-server/src/state.rs:340-513 | an observer of a requested and then reported record sees the state and the error of the report, and of each path the one reported, else the one requested |
| `Lasting.NothingFromNowhere` | crates/bigtop-server/src/journal.rs:361-444 | whatever job, task, node or snapshot record is known at any moment of any history, an event of that history made it |
| `Survival.ServeHoldsLiveIff` | crates/bigtop-server/src/scheduler.rs:122-198 | where the directory replays to the live state, addresses included, an event keeps that exactly when it gives no address back unjournaled |
| `Survival.AddressesSurvive` | crates/bigtop-server/src/journal.rs:427-442 | after any history without such a release a start gives back the addresses as well, whatever the crashes |
| `TornGroups.AgreesIffKept` | crates/bigtop-server/src/journal.rs:427-442 | a task that agrees with the allocator agrees after its addresses were replayed exactly when it holds the same and its node has the gateway it had: then no crash has torn it |
| `TornGroups.OnlyTornTasksDisagree` | crates/bigtop-server/src/scheduler.rs:172-193 | at any moment of any history, whatever its crashes, the tasks that disagree with the allocator are among those a crash has torn from their addresses and neither their terminal report, a requeue nor a placement where the address belongs has put right since |
| `TornGroups.CrashTearsNothing` | crates/bigtop-server/src/lib.rs:115-145 | while the directory replays to the live state, a plain crash and a clean restart tear no task |
| `TornGroups.TearTearsOne` | crates/bigtop-server/src/scheduler.rs:172-193 | a crash inside an event tears its task at most, and none if it separates no group and the event gives no address back unjournaled |
| `TornGroups.CompactionTears` | crates/bigtop-server/src/journal.rs:321-337 | a crash during compaction tears exactly the tasks whose held address the second replay changed |
| `TornGroups.CompactionTearsNothingIff` | crates/bigtop-server/src/journal.rs:321-337 | in a consistent system none exactly when every allocation that is never given back returns its recorded address |
| `TornGroups.HarmlessTearsNothing` | crates/bigtop-server/src/lib.rs:115-145 | a history of harmless crashes tears no task |
| `TornGroups.TornReportRetried` | crates/bigtop-server/src/state.rs:293-338 | a terminal report torn after the release has the effect of the first when it is sent again |
| `TornGroups.TornRequeueRetried` | crates/bigtop-server/src/scheduler.rs:66-83 | a requeue torn after the release has the effect of the first when the next pass repeats it |
| `TornGroups.TornPlacementRetried` | crates/bigtop-server/src/scheduler.rs:122-198 | after a placement torn after the allocation the retry restores agreement exactly when the node picked owns the /24 of the held address or owns none, is replayed exactly when the node picked, if any, owns one, and both exactly in the first case |
| `Networks.StepDistinctIff` | crates/bigtop-server/src/scheduler.rs:122-198 | where no two unfinished tasks use one address, an event changes that exactly when it places a task on an address that another unfinished task uses |
| `Networks.VictimHoldsNothing` | crates/bigtop-server/src/ipam.rs:63-81 | and the other task disagrees with the allocator |
| `Networks.NextDistinctIff` | crates/bigtop-server/src/journal.rs:352-359 | over any action of a history, every kind of crash included, two records come to share an address exactly by such a placement |
| `Networks.HistoryDistinct` | crates/bigtop-server/src/journal.rs:352-359 | so after any history without one no two unfinished tasks use the same address |
| `Networks.HarmlessHistoryDistinct` | crates/bigtop-server/src/lib.rs:115-145 | after harmless crashes none does |
| `Networks.OnlyTornTasksShare` | crates/bigtop-server/src/scheduler.rs:172-193 | at any moment of any history, of two unfinished tasks that share an address a crash has torn one from its address and nothing has put it right since |
| `SharedAddress.TwoTasksOneAddress` | crates/bigtop-server/src/state.rs:315-337 | a history from the first start with one torn report after which two unfinished tasks on one node carry the same network |
| `SharedAfterCompaction.TwoTasksOneAddress` | crates/bigtop-server/src/journal.rs:321-337 | a history from the first start without torn groups, with one crash during compaction, that ends the same way |
| `Recovery.InvariantSurvivesRestart` | crates/bigtop-server/src/journal.rs:352-359 | the recount at the end of a replay restores the invariant from durable facts alone |
| `Recovery.NextConsistent` | crates/bigtop-server/src/lib.rs:115-145 | every event, crash, restart, harmless compaction crash and group torn at its end leaves a directory that replays to the expected live state, every allocation that is not given back to its recorded address |
| `Recovery.HistoryConsistent` | crates/bigtop-server/src/lib.rs:115-145 | so does any history of them |
| `Recovery.HistorySafe` | crates/bigtop-server/src/lib.rs:115-145 | after any history of harmless crashes a start gives back the live state and replays every allocation that is not given back to its recorded address, no node is overcommitted, tasks and addresses agree, and the capacity bound stands |
| `Recovery.HistoryReturnsRecorded` | crates/bigtop-server/src/journal.rs:427-437 | if moreover no crash hit a compaction since the last clean restart, a start replays every allocation to its recorded address |
| `GivenBack.GivenBackReplaysElsewhere` | crates/bigtop-server/src/journal.rs:427-437 | a history of harmless crashes, one of them at a compaction, whose next start replays an allocation that was given back to another address |
| `Recovery.CompactionCrashIff` | crates/bigtop-server/src/journal.rs:321-337 | at any moment a compaction crash gives back the live state exactly when every allocation that is never given back returns its recorded address |
| `Recovery.AnyReplayKeepsIpam` | crates/bigtop-server/src/journal.rs:427-442 | replaying any operations, cut anywhere, keeps the allocator well formed |
| `Recovery.TornGroupDisagrees` | crates/bigtop-server/src/scheduler.rs:172-193 | an event journals at most two operations, and a crash between the two always leaves tasks and addresses in disagreement |
| `JournalFile.LoadIsStable` | crates/bigtop-server/src/journal.rs:248-300 | for every byte string that loads, the repaired file is empty or ends in a newline and loads again to the same operations unchanged |
| `JournalFile.LoadsIff` | crates/bigtop-server/src/journal.rs:248-300 | a file loads exactly when every line that ends in a newline is empty or decodes |
| `JournalFile.ReadLineByLine` | crates/bigtop-server/src/journal.rs:248-300 | read line by line an empty line says nothing and any other is one more operation or the error; bytes after the last newline are one more operation or are cut off |
| `JournalFile.FirstBadLine` | crates/bigtop-server/src/journal.rs:282-296 | otherwise the error names the first bad line, counted among the non-empty ones |
| `JournalFile.TerminatedTornLine` | crates/bigtop-server/src/journal.rs:282-296 | a torn last line is dropped, and the same bytes with a newline behind them are an error |
| `JournalFile.AppendAfterLoad` | crates/bigtop-server/src/journal.rs:248-300 | appending to the repaired file and loading gives the operations of the load and the appended ones |
| `JournalFile.TornLine` | crates/bigtop-server/src/journal.rs:261-281 | a torn last line is dropped, except that a complete operation without its newline is kept and terminated |
| `JournalFile.CrashAtAnyByte` | crates/bigtop-server/src/journal.rs:191-198 | after a cut at any byte the load succeeds and returns the acknowledged operations and a prefix of those in flight |
| `Jobs.CopiesCounted` | crates/bigtop-server/src/state.rs:133-178 | the expansion holds each task spec as often as the job asks for it |
| `Jobs.CreateJobExpands` | crates/bigtop-server/src/state.rs:133-178 | a valid job adds its record and one pending task per requested copy under its own id, on no node, and leaves everything else alone; an invalid one adds nothing |
| `Jobs.ValidIff` | crates/bigtop-server/src/state.rs:95-126 | a spec is valid exactly when its name and every name and command in it hold a character that is not white space, it has a task, and none is wanted zero times |
| `Lasting.SubmissionLasts` | crates/bigtop-server/src/state.rs:133-178 | after any later history the job is there under its name and time, and each task under its id with its job, its name and, but for what it is told about services, its spec |
| `ServiceView.EndpointsListed` | crates/bigtop-server/src/state.rs:258-278 | visiting distinct tasks lists each one that serves the name once, in visiting order; `Discovered.ListedIff` says which tasks these are |
| `Discovered.ListedIff` | crates/bigtop-server/src/state.rs:251-285 | the view lists task and address under a name exactly when the task is in the state `Running`, offers a service of that name and has a network with that address; entries come by name |
| `Discovered.ToldIff` | crates/bigtop-server/src/scheduler.rs:209-230 | the list a task is told holds the text of an address exactly when some running task offers that service under that address |
| `Discovered.PlacementTells` | crates/bigtop-server/src/scheduler.rs:153-170 | a placement either changes no record or assigns the task to the node picked, networked as it asked, and tells it for exactly the services it discovers the sorted permutation of the addresses the view shows; a task that discovers nothing keeps its spec, every other environment entry and every other task stays, and replaying the placement writes the same record |
| `Discovered.ReplayTells` | crates/bigtop-server/src/journal.rs:379-402 | a replayed placement writes node, network and services as recorded and touches nothing else |
| `Discovered.PlacementTakes` | crates/bigtop-server/src/scheduler.rs:166 | a placement adds what the task asks for to `used` of the node picked, up to the top of the 64 bit range, and touches no other node |
| `ServiceView.ViewsAgree` | crates/bigtop-server/src/scheduler.rs:205-231 | the list a task is told is the sorted permutation of the addresses the view shows for that service |
| `ServiceView.ViewEntries` | crates/bigtop-server/src/state.rs:258-285 | a service is listed exactly when it has endpoints, and exactly otherwise its injected list is empty |
| `ServiceView.NoAddressTwice` | crates/bigtop-server/src/state.rs:258-285 | where no two unfinished tasks use one address, none occurs twice across all services of the view |
| `ServiceView.IpTextInjective` | crates/bigtop-server/src/scheduler.rs:219-222 | different addresses have different texts |
| `ServiceView.IpTextReads` | crates/bigtop-server/src/scheduler.rs:222 | that text is the four octets in decimal without leading zeros, joined by dots |
| `ServiceView.NoTextTwice` | crates/bigtop-server/src/scheduler.rs:224-229 | where no two unfinished tasks use one address, no task is told the same address twice for a service |
| `Discovery.SortedIpsFromAnyOrder` | crates/bigtop-server/src/scheduler.rs:205-231 | the injected list does not depend on the order of the task table |
| `Server.JournalWriter.Append` | crates/bigtop-server/src/journal.rs:191-198 | the file grows by exactly the encoding and a newline byte, 10 |
| `Server.StateInner.CreateJob` | crates/bigtop-server/src/state.rs:133-178 | result, state and journaled operations of submitting a job |
| `Server.StateInner.RegisterNode` | crates/bigtop-server/src/state.rs:205-226 | the same for a registration |
| `Server.StateInner.Heartbeat` | crates/bigtop-server/src/state.rs:234-249 | the same for a heartbeat, which journals nothing |
| `Server.StateInner.SetTaskState` | crates/bigtop-server/src/state.rs:293-338 | the same for a task report, including not found and conflict |
| `Server.StateInner.RequestSnapshot` | crates/bigtop-server/src/state.rs:356-398 | the same for a snapshot request and its refusals |
| `Server.StateInner.ReportSnapshotResult` | crates/bigtop-server/src/state.rs:457-513 | the same for a snapshot report and its refusals |
| `Server.StateInner.RequeueDeadNodes` | crates/bigtop-server/src/scheduler.rs:44-85 | the tasks requeued are exactly the orphans of the pass, in some order; `Liveness.PassRequeuesTheSilent` says in nanoseconds which tasks these are |
| `Server.StateInner.RecountUsed` | crates/bigtop-server/src/scheduler.rs:90-109 | counting the tasks in any order records the saturated true demand of every node |
| `Server.StateInner.ServicesEnvFor` | crates/bigtop-server/src/scheduler.rs:205-231 | collecting addresses in any order gives the specified lists; `Discovered.ToldIff` says what is in them |
| `Server.StateInner.ServiceEndpoints` | crates/bigtop-server/src/state.rs:258-285 | collecting endpoints in any order gives the specified view; `Discovered.ListedIff` says what is in it |
| `Server.StateInner.PlacePending` | crates/bigtop-server/src/scheduler.rs:116-200 | the pending tasks are placed one after the other in the order of their ids, each as `Discovered.PlacementTells` and `Discovered.PlacementTakes` describe |
| `Server.StateInner.RunTick` | crates/bigtop-server/src/scheduler.rs:32-37 | the state and the journal of a whole pass |
| `Server.StateInner.Restore` | crates/bigtop-server/src/journal.rs:152-170 | the state is the snapshot with every node heard from just now, which is what `Liveness.StartHears` rests on |
| `Server.StateInner.ApplyOps` | crates/bigtop-server/src/journal.rs:352-359 | replay folds the operations, recounts, journals nothing and leaves the handle attached |
| `Server.LoadJournalOps` | crates/bigtop-server/src/journal.rs:248-300 | reading and repairing the file gives the specified operations or the number of the first corrupt line, and the specified file |
| `Server.Compact` | crates/bigtop-server/src/journal.rs:328-346 | the snapshot is replaced and an existing journal emptied; a missing journal is an error after the rename |
| `Server.LoadPersistentState` | crates/bigtop-server/src/lib.rs:115-145 | a start ends in the recovered state, on the allocator it was given, with the journal attached to the repaired file, or fails on a corrupt line; `Liveness.StartHears` and `Recovery.HistorySafe` say what that state is |
| `Serving.Perform` | crates/bigtop-server/src/lib.rs:249-262 | each call of the object does what its event does to the state, appends its operations and leaves the snapshot file alone |
| `Serving.ServeEvent` | crates/bigtop-server/src/lib.rs:249-262 | a call on an object in step with a consistent system leaves it in step with the system after the event, which is consistent |
| `Serving.ServePass` | crates/bigtop-server/src/scheduler.rs:32-37 | so does a whole pass |
| `Serving.ServedConsistent` | crates/bigtop-server/src/lib.rs:249-262 | and any run of events leaves a consistent system |
| `Serving.DiskRecoversServer` | crates/bigtop-server/src/lib.rs:132-143 | at any moment between two calls of such an object the bytes of the journal file, loaded on the snapshot, give back its state |
| `Serving.StartAfterCrash` | crates/bigtop-server/src/lib.rs:115-145 | a start on the directory a dead process left gives an object in step with the system after the crash |
| `Serving.StopAndStart` | crates/bigtop-server/src/journal.rs:328-346 | a clean stop compacts, and the next start gives an object in step with the restarted system |
| `Serving.DieCompactingAndStart` | crates/bigtop-server/src/journal.rs:328-346 | a stop that dies between rename and truncation, and the next start, give an object in step with the system after the compaction crash |
| `Shadow.Judge` | crates/bigtop-server/src/harvest_shadow.rs:208-225 | missing if an observation is missing, agreement if the last one is terminal and every step is legal, stuck otherwise |
| `Shadow.VerdictIff` | crates/bigtop-server/src/harvest_shadow.rs:208-225 | missing exactly if an observation found no record, agreement exactly if the last one is final and some lifetime of accepted reports, sampled in order, shows just these states |
| `Shadow.AuditGoesOnWhile` | crates/bigtop-server/src/harvest_shadow.rs:234-257 | the audit polls on exactly while the record is requested or in progress and polls are left |
| `Shadow.SnapshotShadow` | crates/bigtop-server/src/harvest_shadow.rs:234-257 | the audit stops at the first terminal or missing observation, after one more than the maximum of polls at the latest, and judges what it saw |
| `Shadow.LegalIsClosure` | crates/bigtop-server/src/harvest_shadow.rs:185-194 | the table of legal steps is the reflexive and transitive closure of the reports the server accepts |
| `Shadow.LegalIffSampled` | crates/bigtop-server/src/harvest_shadow.rs:208-225 | a sequence of states passes exactly when some lifetime of a record, sampled in order, can show it |
| `Shadow.RecordMovesLegally` | crates/bigtop-server/src/state.rs:477-492 | over any history, every kind of crash included, a snapshot record stays and moves legally |
| `Shadow.AuditIsFair` | crates/bigtop-server/src/harvest_shadow.rs:208-257 | watching a record over any history, every kind of crash included, the verdict is agreement exactly if the record is terminal at the last observation the audit may make, otherwise stuck, never missing |
| `Vsock.FrameRoundTripIff` | crates/bigtop-agent/src/vsock.rs:84-135 | a frame followed by anything decodes to itself exactly when its payload is at most 1 MiB, and is refused for its length otherwise |
| `Vsock.WireFormat` | crates/bigtop-agent/src/vsock.rs:81-94 | a frame is its length in four bytes, most significant first, one byte for the stream, 0 to 3, and its payload; the limit is 1048576 bytes |
| `Vsock.RefusedFor` | crates/bigtop-agent/src/vsock.rs:104-135 | exactly which bytes are refused, and with which of the four errors |
| `Vsock.DecodedIsEncoded` | crates/bigtop-agent/src/vsock.rs:104-135 | only its own encoding decodes to a frame |
| `Vsock.StreamRoundTrip` | crates/bigtop-agent/src/vsock.rs:84-135 | concatenated encodings decode to their frames and a clean end |
| `Vsock.CleanStreamIsEncoded` | crates/bigtop-agent/src/vsock.rs:104-135 | a stream that ends cleanly is the encoding of the frames it decodes to |
| `Vsock.StreamCut` | crates/bigtop-agent/src/vsock.rs:104-158 | any cut delivers the frames that were complete, and ends cleanly exactly between two frames; else with a truncated header or frame |
| `Vsock.StreamStopsAtError` | crates/bigtop-agent/src/vsock.rs:104-135 | frames in front of the first error are delivered, and nothing after it |
| `Vsock.ReadFullOrEof` | crates/bigtop-agent/src/vsock.rs:139-158 | however reads are split the buffer is filled, or the stream ended cleanly before it, or inside it |
| `Vsock.Decode` | crates/bigtop-agent/src/vsock.rs:104-135 | however reads are split the outcome and the bytes consumed are those of the specification |
| `VsockHub.Hub.SubscribeCompletion` | crates/bigtop-agent/src/vsock.rs:196-206 | a new subscriber waits for one task and no subscriber waits or was signalled twice |
| `VsockHub.Hub.NotifyCompletion` | crates/bigtop-agent/src/vsock.rs:214-221 | all subscribers of the task are signalled once and forgotten |
| `VsockHub.Hub.HandleConnection` | crates/bigtop-agent/src/vsock.rs:231-272 | a connection without a handshake of a registered task has no effect; otherwise its lines arrive in order up to the point where the receiver is gone, and completion is signalled exactly if none was refused |
| `VsockHub.CutForwardsPrefix` | crates/bigtop-agent/src/vsock.rs:231-272 | a guest whose connection is lost after any number of bytes has forwarded a prefix of its lines |
| `VsockHub.ForwardedConcat` | crates/bigtop-agent/src/vsock.rs:231-272 | frames forward their lines in order, up to the first completion |
| `VsockHub.LinesReadBack` | crates/bigtop-agent/src/vsock.rs:231-272 | lines written with a newline, or with a carriage return and a newline, are forwarded as they were, an unterminated last one included |
| `Shell.ShellJoin` | crates/bigtop-agent/src/firecracker.rs:684-696 | the line holds the assignments in key order, the command and the arguments, whatever order the environment is delivered in |
| `Shell.QuoteSplits` | crates/bigtop-agent/src/firecracker.rs:699-701 | quoting puts a word between single quotes and replaces each single quote in it by an end of quotes, an escaped quote and a new start |
| `Shell.ScanQuoted` | crates/bigtop-agent/src/firecracker.rs:699-701 | a shell reads a quoted string back as itself, every character quoted, wherever it stands |
| `Shell.LineRoundTripIff` | crates/bigtop-agent/src/firecracker.rs:684-701 | splitting the line as sections 2.2.1 and 2.2.2 of XCU, POSIX.1-2017, describe gives back the assignments in key order, the command and the arguments, exactly when every environment name is a valid name |

## Left out

- HTTP routes, authentication, metrics, the status page and the CLI: input, output and formatting.
- Firecracker requests, process spawning, tap devices, the jailer and boot arguments other than the shell line.
- The overlay reconciler: a set difference around external commands.
- The workflow engine behind the audit, its verdict table and its mirror; samples are taken to be in order and to show the served record.
- The poll and supervise loops of the agent and its snapshot claims.
- JSON, base64, hashing and UTF-8: a codec with the stated properties, a function for lossy decoding, a map in place of the JSON text of discovered services.
- The lock file, temporary files and the clock: `fsync` is an acknowledged append, the snapshot file is replaced atomically, `now` is an input.
- Log tails and `push_logs`, the VM part of a task spec, the snapshot policy and the snapshot type, `restore_task_spec`: carried along unchanged or easy.
- Failing appends: the state in memory is then ahead of the file, and nothing is claimed about it.
- Error messages: an error is its kind; for a corrupt journal line also its number.
- `debug_assert` in the replay of an allocation: as in a release build, a mismatch is not an error.
- Recovery.HistorySafe: agreement of tasks and addresses is not promised after a crash inside a group of operations (`Recovery.TornGroupDisagrees` shows that it cannot be) nor after a compaction crash without the exact condition of `Recovery.CompactionCrashIff`; `Survival.RecordsSurvive`, `TornGroups.OnlyTornTasksDisagree` and `Networks.OnlyTornTasksShare` say what is.
- TornGroups.OnlyTornTasksDisagree: which tasks a start moves is characterised while the directory replays to the live state; after a placement that gave an address back unjournaled it is whatever the replay changes.
- Passes.TickSettles: nothing on networked tasks left pending, as a task torn at its placement may lose its address in the pass and wait for the next one.
- VsockHub.Hub.HandleConnection: one connection at a time; registration and other connections do not interleave with it, and the receiver of a channel goes away after a fixed number of lines.
- Shell.LineRoundTripIff: characters with another meaning to a shell make the splitter give up when they stand unquoted, which only an invalid environment name can cause.
