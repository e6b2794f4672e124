/** A crash between the rename of a new snapshot and the truncation of the
    journal makes the next boot replay the journal on top of the state the
    journal led to. This module shows what such a second replay changes. */
module Compaction {
  import opened Types
  import opened Ipam
  import opened Durable
  import opened Placement
  import opened Accounting
  import opened Scheduling
  import opened Soundness
  import opened Invariants
  import opened Runs

  // ---------------------------------------------------------------------
  // How a journal relates to the state it led to
  // ---------------------------------------------------------------------

  function WithoutServices(spec: TaskSpec): TaskSpec {
    spec.(env := spec.env - {SERVICES_KEY})
  }

  /** The specs differ in the injected service addresses at most, and not at
      all when nothing is discovered. */
  predicate SpecKept(a: TaskSpec, z: TaskSpec) {
    WithoutServices(a) == WithoutServices(z) && (z.discover == [] ==> a == z)
  }

  predicate TasksKept(x: DurableState, z: DurableState) {
    forall t | t in x.tasks :: t in z.tasks && SpecKept(x.tasks[t].spec, z.tasks[t].spec)
  }

  /** Operation `op`, first applied in state `x`, belongs to the history of the
      later state `z`. */
  predicate OpFits(x: DurableState, op: JournalOp, z: DurableState) {
    match op
    case CreateJob(jobId, name, createdAt, tasks) =>
      && jobId in z.jobs && z.jobs[jobId] == JobRecord(name, createdAt)
      && (forall i | 0 <= i < |tasks| :: tasks[i].id !in x.tasks && tasks[i].id in z.tasks)
    case SetTaskState(t, state, exitCode) =>
      && t in x.tasks && !x.tasks[t].state.IsTerminal() && t in z.tasks
      && (state.IsTerminal() ==> z.tasks[t].state.IsTerminal() && z.tasks[t].exitCode == exitCode)
    case TaskAssigned(t, _, _, services) =>
      t in x.tasks && t in z.tasks && (services.None? ==> z.tasks[t].spec.discover == [])
    case TaskRequeued(t) => t in x.tasks && t in z.tasks
    case RegisterNode(node) => node.id in z.nodes && EraseNode(z.nodes[node.id]) == EraseNode(node)
    case RequestSnapshot(record) => record.id in z.snapshots
    case ReportSnapshot(_, id, report) =>
      id in z.snapshots && !AcceptsReport(z.snapshots[id].state, report.state)
    case IpamAllocate(_, _, _) => true
    case IpamRelease(_) => true
  }

  /** Every operation of the journal belongs to the history of `z`. */
  ghost predicate Fits(origin: DurableState, ops: seq<JournalOp>, z: DurableState) {
    forall i | 0 <= i < |ops| ::
      OpFits(ApplyAll(origin, ops[..i], 0), ops[i], z) && TasksKept(ApplyAll(origin, ops[..i], 0), z)
  }

  /** Allocations that `z` no longer holds were released later on, releases of
      what `z` holds were followed by another allocation, and the /24s of all
      allocations are still owned. */
  ghost predicate HeldFits(ops: seq<JournalOp>, z: DurableState) {
    && (forall i | 0 <= i < |ops| && ops[i].IpamAllocate? && ops[i].taskId !in z.ipam.held ::
          ReleasedAfter(ops, i, ops[i].taskId))
    && (forall i | 0 <= i < |ops| && ops[i].IpamRelease? && ops[i].taskId in z.ipam.held ::
          AllocatedAfter(ops, i, ops[i].taskId))
    && (forall i | 0 <= i < |ops| && ops[i].IpamAllocate? :: ops[i].nodeId in z.ipam.subnets)
  }

  ghost predicate ReleasedAfter(ops: seq<JournalOp>, i: int, t: TaskId) {
    exists j :: i < j < |ops| && 0 <= j && ops[j] == IpamRelease(t)
  }

  ghost predicate AllocatedAfter(ops: seq<JournalOp>, i: int, t: TaskId) {
    exists j :: i < j < |ops| && 0 <= j && ops[j].IpamAllocate? && ops[j].taskId == t
  }

  /** No task is allocated an address after it was released one. */
  ghost predicate NoReallocation(ops: seq<JournalOp>) {
    forall i | 0 <= i < |ops| && ops[i].IpamRelease? :: !AllocatedAfter(ops, i, ops[i].taskId)
  }

  /** The journal `ops`, started in `origin`, led to the records of `z`. */
  ghost predicate RecordsLedTo(origin: DurableState, ops: seq<JournalOp>, z: DurableState) {
    RecordsReplay(origin, ops, z) && Fits(origin, ops, z)
  }

  /** The journal `ops`, started in `origin`, led to `z`. */
  ghost predicate LedTo(origin: DurableState, ops: seq<JournalOp>, z: DurableState) {
    Replays(origin, ops, z) && Fits(origin, ops, z) && HeldFits(ops, z)
  }

  lemma LedToNothing(z: DurableState)
    ensures LedTo(z, [], z)
  {
    ApplyNone(z, 0);
  }

  // ---------------------------------------------------------------------
  // The second replay: tasks
  // ---------------------------------------------------------------------

  /** What a journal prefix did to one task. */
  datatype Touched = Touched(created: bool, placed: bool, requeued: bool, reported: bool) {
    predicate Untouched() {
      !created && !placed && !requeued && !reported
    }
  }

  function HistoryOf(ops: seq<JournalOp>, t: TaskId): Touched {
    if ops == [] then Touched(false, false, false, false)
    else Extended(HistoryOf(ops[..|ops| - 1], t), ops[|ops| - 1], t)
  }

  function Extended(h: Touched, op: JournalOp, t: TaskId): Touched {
    match op
    case CreateJob(_, _, _, tasks) =>
      h.(created := h.created || exists i :: 0 <= i < |tasks| && tasks[i].id == t)
    case TaskAssigned(u, _, _, _) => h.(placed := h.placed || u == t)
    case TaskRequeued(u) => h.(requeued := h.requeued || u == t)
    case SetTaskState(u, _, _) => h.(reported := h.reported || u == t)
    case _ => h
  }

  /** Task `y` of the second replay against task `x` of the first replay at the
      same point and task `z` of the final state. */
  predicate TaskRelated(h: Touched, x: Task, y: Task, z: Task) {
    if h.created then y == x
    else
      && y.id == z.id && y.jobId == z.jobId && y.name == z.name && y.exitCode == z.exitCode
      && y.spec == (if h.placed then x.spec else z.spec)
      && (if h.placed || h.requeued
          then y.state == x.state && y.assignedNode == x.assignedNode && y.network == x.network
          else
            && y.assignedNode == z.assignedNode && y.network == z.network
            && y.state == if h.reported && !z.state.IsTerminal() then x.state else z.state)
  }

  predicate RelatedAt(h: Touched, x: DurableState, y: DurableState, z: DurableState, t: TaskId) {
    && (t in y.tasks <==> t in z.tasks)
    && (!h.Untouched() ==> t in x.tasks)
    && (t in z.tasks ==>
          if h.Untouched() then y.tasks[t] == z.tasks[t]
          else t in x.tasks && TaskRelated(h, x.tasks[t], y.tasks[t], z.tasks[t]))
  }

  lemma InjectedSpecsMeet(a: TaskSpec, b: TaskSpec, m: map<string, seq<string>>)
    requires WithoutServices(a) == WithoutServices(b)
    ensures a.(env := a.env[SERVICES_KEY := Services(m)]) == b.(env := b.env[SERVICES_KEY := Services(m)])
  {
    assert a.env[SERVICES_KEY := Services(m)] == (a.env - {SERVICES_KEY})[SERVICES_KEY := Services(m)];
    assert b.env[SERVICES_KEY := Services(m)] == (b.env - {SERVICES_KEY})[SERVICES_KEY := Services(m)];
    assert a == WithoutServices(a).(env := a.env);
    assert b == WithoutServices(b).(env := b.env);
  }

  /** Placing a task brings the two replays together. */
  lemma PlacedTogether(h: Touched, x: Task, y: Task, z: Task, n: NodeId, network: Option<NetworkAssignment>,
                       services: Option<map<string, seq<string>>>)
    requires if h.Untouched() then y == z else TaskRelated(h, x, y, z)
    requires SpecKept(x.spec, z.spec) && (services.None? ==> z.spec.discover == [])
    ensures TaskRelated(h.(placed := true), PlacedOn(x, n, network, services), PlacedOn(y, n, network, services), z)
  {
    if services.Some? && !h.created {
      InjectedSpecsMeet(x.spec, y.spec, services.value);
    }
  }

  lemma RelatedCreate(h: Touched, x: DurableState, y: DurableState, z: DurableState, op: JournalOp, t: TaskId)
    requires op.CreateJob? && RelatedAt(h, x, y, z, t) && OpFits(x, op, z)
    ensures RelatedAt(Extended(h, op, t), ApplyOne(x, op, 0), ApplyOne(y, op, 0), z, t)
  {
    InsertTasksLookup(x.tasks, op.tasks, t);
    InsertTasksLookup(y.tasks, op.tasks, t);
    if exists i :: 0 <= i < |op.tasks| && op.tasks[i].id == t {
      SameInsertion(x.tasks, y.tasks, op.tasks, t);
    }
  }

  lemma RelatedReport(h: Touched, x: DurableState, y: DurableState, z: DurableState, op: JournalOp, t: TaskId)
    requires op.SetTaskState? && RelatedAt(h, x, y, z, t) && OpFits(x, op, z)
    ensures RelatedAt(Extended(h, op, t), ApplyOne(x, op, 0), ApplyOne(y, op, 0), z, t)
  {
  }

  lemma RelatedPlacement(h: Touched, x: DurableState, y: DurableState, z: DurableState, op: JournalOp, t: TaskId)
    requires op.TaskAssigned? && RelatedAt(h, x, y, z, t) && OpFits(x, op, z) && TasksKept(x, z)
    ensures RelatedAt(Extended(h, op, t), ApplyOne(x, op, 0), ApplyOne(y, op, 0), z, t)
  {
    hide SpecKept, PlacedOn, TaskRelated;
    if op.taskId == t {
      PlacedTogether(h, x.tasks[t], y.tasks[t], z.tasks[t], op.nodeId, op.network, op.services);
    }
  }

  lemma RelatedRequeue(h: Touched, x: DurableState, y: DurableState, z: DurableState, op: JournalOp, t: TaskId)
    requires op.TaskRequeued? && RelatedAt(h, x, y, z, t) && OpFits(x, op, z)
    ensures RelatedAt(Extended(h, op, t), ApplyOne(x, op, 0), ApplyOne(y, op, 0), z, t)
  {
  }

  /** The other operations do not touch tasks. */
  lemma RelatedOtherwise(h: Touched, x: DurableState, y: DurableState, z: DurableState, op: JournalOp, t: TaskId)
    requires !op.CreateJob? && !op.SetTaskState? && !op.TaskAssigned? && !op.TaskRequeued?
    requires RelatedAt(h, x, y, z, t)
    ensures RelatedAt(Extended(h, op, t), ApplyOne(x, op, 0), ApplyOne(y, op, 0), z, t)
  {
    assert ApplyOne(x, op, 0).tasks == x.tasks;
    assert ApplyOne(y, op, 0).tasks == y.tasks;
  }

  lemma RelatedStep(h: Touched, x: DurableState, y: DurableState, z: DurableState, op: JournalOp, t: TaskId)
    requires RelatedAt(h, x, y, z, t) && OpFits(x, op, z) && TasksKept(x, z)
    ensures RelatedAt(Extended(h, op, t), ApplyOne(x, op, 0), ApplyOne(y, op, 0), z, t)
  {
    hide *;
    match op
    case CreateJob(_, _, _, _) => RelatedCreate(h, x, y, z, op, t);
    case SetTaskState(_, _, _) => RelatedReport(h, x, y, z, op, t);
    case TaskAssigned(_, _, _, _) => RelatedPlacement(h, x, y, z, op, t);
    case TaskRequeued(_) => RelatedRequeue(h, x, y, z, op, t);
    case _ => RelatedOtherwise(h, x, y, z, op, t);
  }

  lemma {:induction false} SameInsertion(m: map<TaskId, Task>, m': map<TaskId, Task>, added: seq<Task>, t: TaskId)
    requires exists i :: 0 <= i < |added| && added[i].id == t
    ensures t in InsertTasks(m, added) && t in InsertTasks(m', added)
    ensures InsertTasks(m, added)[t] == InsertTasks(m', added)[t]
  {
    var front, last := added[..|added| - 1], added[|added| - 1];
    if t != last.id {
      var i :| 0 <= i < |added| && added[i].id == t;
      assert front[i] == added[i];
      SameInsertion(m, m', front, t);
    }
  }

  // ---------------------------------------------------------------------
  // The second replay: everything else
  // ---------------------------------------------------------------------

  function SnapshotSeen(ops: seq<JournalOp>, id: SnapshotId): bool {
    ops != [] && (SnapshotSeen(ops[..|ops| - 1], id) || Requests(ops[|ops| - 1], id))
  }

  predicate Requests(op: JournalOp, id: SnapshotId) {
    op.RequestSnapshot? && op.record.id == id
  }

  predicate SnapshotRelated(seen: bool, x: DurableState, y: DurableState, z: DurableState, id: SnapshotId) {
    && (id in y.snapshots <==> id in z.snapshots)
    && (id in z.snapshots ==>
          if seen then id in x.snapshots && y.snapshots[id] == x.snapshots[id]
          else y.snapshots[id] == z.snapshots[id])
  }

  lemma SnapshotStep(seen: bool, x: DurableState, y: DurableState, z: DurableState, op: JournalOp, id: SnapshotId)
    requires SnapshotRelated(seen, x, y, z, id) && OpFits(x, op, z)
    ensures SnapshotRelated(seen || Requests(op, id), ApplyOne(x, op, 0), ApplyOne(y, op, 0), z, id)
  {
    hide ApplyOne, OpFits;
    if op.ReportSnapshot? {
      SnapshotReportStep(seen, x, y, z, op, id);
    } else if op.RequestSnapshot? {
      SnapshotRequestStep(seen, x, y, z, op, id);
    } else {
      SnapshotsUntouched(x, op);
      SnapshotsUntouched(y, op);
    }
  }

  lemma SnapshotReportStep(seen: bool, x: DurableState, y: DurableState, z: DurableState, op: JournalOp, id: SnapshotId)
    requires op.ReportSnapshot? && SnapshotRelated(seen, x, y, z, id) && OpFits(x, op, z)
    ensures SnapshotRelated(seen, ApplyOne(x, op, 0), ApplyOne(y, op, 0), z, id)
  {
  }

  lemma SnapshotRequestStep(seen: bool, x: DurableState, y: DurableState, z: DurableState, op: JournalOp,
                            id: SnapshotId)
    requires op.RequestSnapshot? && SnapshotRelated(seen, x, y, z, id) && OpFits(x, op, z)
    ensures SnapshotRelated(seen || Requests(op, id), ApplyOne(x, op, 0), ApplyOne(y, op, 0), z, id)
  {
  }

  lemma SnapshotsUntouched(s: DurableState, op: JournalOp)
    requires !op.RequestSnapshot? && !op.ReportSnapshot?
    ensures ApplyOne(s, op, 0).snapshots == s.snapshots
  {
  }

  /** Jobs and nodes are simply written again. */
  ghost predicate RestRelated(y: DurableState, z: DurableState) {
    && y.jobs == z.jobs
    && y.nodes.Keys == z.nodes.Keys
    && (forall n | n in z.nodes :: EraseNode(y.nodes[n]) == EraseNode(z.nodes[n]))
  }

  lemma RestStep(x: DurableState, y: DurableState, z: DurableState, op: JournalOp)
    requires RestRelated(y, z) && OpFits(x, op, z)
    ensures RestRelated(ApplyOne(y, op, 0), z)
  {
    if op.CreateJob? {
      assert z.jobs[op.jobId := JobRecord(op.name, op.createdAt)] == z.jobs;
    }
  }

  /** The state of the second replay after the first `i` operations. */
  lemma {:induction false} SecondReplay(origin: DurableState, ops: seq<JournalOp>, z: DurableState, i: nat)
    requires Fits(origin, ops, z) && i <= |ops|
    ensures var x, y := ApplyAll(origin, ops[..i], 0), ApplyAll(z, ops[..i], 0);
            && (forall t :: RelatedAt(HistoryOf(ops[..i], t), x, y, z, t))
            && (forall id :: SnapshotRelated(SnapshotSeen(ops[..i], id), x, y, z, id))
            && RestRelated(y, z)
  {
    hide ApplyOne, OpFits, TasksKept, RelatedAt, SnapshotRelated, RestRelated, Extended;
    if i == 0 {
      assert ops[..0] == [];
      SecondReplayStarts(origin, z);
    } else {
      SecondReplay(origin, ops, z, i - 1);
      var front, op := ops[..i - 1], ops[i - 1];
      assert ops[..i][..|ops[..i]| - 1] == front && ops[..i][|ops[..i]| - 1] == op;
      var x, y := ApplyAll(origin, front, 0), ApplyAll(z, front, 0);
      assert OpFits(x, op, z) && TasksKept(x, z);
      forall t ensures RelatedAt(HistoryOf(ops[..i], t), ApplyOne(x, op, 0), ApplyOne(y, op, 0), z, t) {
        RelatedStep(HistoryOf(front, t), x, y, z, op, t);
      }
      forall id ensures SnapshotRelated(SnapshotSeen(ops[..i], id), ApplyOne(x, op, 0), ApplyOne(y, op, 0), z, id) {
        SnapshotStep(SnapshotSeen(front, id), x, y, z, op, id);
      }
      RestStep(x, y, z, op);
    }
  }

  lemma SecondReplayStarts(origin: DurableState, z: DurableState)
    ensures forall t :: RelatedAt(HistoryOf([], t), origin, z, z, t)
    ensures forall id :: SnapshotRelated(SnapshotSeen([], id), origin, z, z, id)
    ensures RestRelated(z, z)
  {
  }

  /** Replaying a journal on top of a state whose records it led to changes no
      job, no task, no snapshot record and no node. */
  lemma SecondReplayKeepsRecords(origin: DurableState, ops: seq<JournalOp>, z: DurableState)
    requires RecordsLedTo(origin, ops, z)
    ensures RecordsReplay(z, ops, z)
    ensures var y := ApplyAll(z, ops, 0); y.jobs == z.jobs && y.tasks == z.tasks && y.snapshots == z.snapshots
  {
    hide ApplyAll, ApplyOne, Fits, HistoryOf, SnapshotSeen;
    var x, y := ApplyAll(origin, ops, 0), ApplyAll(z, ops, 0);
    SameRecordsParts(x, z);
    SecondReplay(origin, ops, z, |ops|);
    assert ops[..|ops|] == ops;
    forall t ensures t in y.tasks <==> t in z.tasks
             ensures t in z.tasks ==> y.tasks[t] == z.tasks[t]
    {
      assert RelatedAt(HistoryOf(ops, t), x, y, z, t);
    }
    forall id ensures id in y.snapshots <==> id in z.snapshots
              ensures id in z.snapshots ==> y.snapshots[id] == z.snapshots[id]
    {
      assert SnapshotRelated(SnapshotSeen(ops, id), x, y, z, id);
    }
    SameRecords(y, z);
  }

  lemma LedToRecords(origin: DurableState, ops: seq<JournalOp>, z: DurableState)
    requires LedTo(origin, ops, z)
    ensures RecordsLedTo(origin, ops, z)
  {
    ReplayGivesRecords(origin, ops, z);
  }

  /** A replay that allocates only on nodes that own a /24 gives out no /24. */
  lemma {:induction false} SecondReplayKeepsOctets(ops: seq<JournalOp>, z: DurableState, i: nat)
    requires i <= |ops| && forall j | 0 <= j < |ops| && ops[j].IpamAllocate? :: ops[j].nodeId in z.ipam.subnets
    ensures var y := ApplyAll(z, ops[..i], 0); y.ipam == z.ipam.(held := y.ipam.held)
  {
    if i == 0 {
      assert ops[..0] == [];
      ApplyNone(z, 0);
    } else {
      SecondReplayKeepsOctets(ops, z, i - 1);
      assert ops[..i][..i - 1] == ops[..i - 1];
      OctetsUntouched(ApplyAll(z, ops[..i - 1], 0), ops[i - 1]);
    }
  }

  lemma OctetsUntouched(y: DurableState, op: JournalOp)
    requires op.IpamAllocate? ==> op.nodeId in y.ipam.subnets
    ensures var y' := ApplyOne(y, op, 0); y'.ipam == y.ipam.(held := y'.ipam.held)
  {
  }

  /** Where a live journal led to `z`, a second replay can move addresses and
      nothing else. */
  lemma SecondReplayMovesOnlyAddresses(origin: DurableState, ops: seq<JournalOp>, z: DurableState)
    requires LedTo(origin, ops, z)
    ensures RecordsReplay(z, ops, z)
    ensures var y := ApplyAll(z, ops, 0);
            && y.jobs == z.jobs && y.tasks == z.tasks && y.snapshots == z.snapshots
            && y.ipam == z.ipam.(held := y.ipam.held)
  {
    hide ApplyAll, ApplyOne, Fits, RecordsLedTo, RecordsReplay;
    LedToRecords(origin, ops, z);
    SecondReplayKeepsRecords(origin, ops, z);
    SecondReplayKeepsOctets(ops, z, |ops|);
    assert ops[..|ops|] == ops;
  }

  // ---------------------------------------------------------------------
  // The second replay: addresses
  // ---------------------------------------------------------------------

  /** After `i` operations the second replay holds every address of the final
      state, and whatever it holds on top is still to be released. */
  ghost predicate HeldRelated(ops: seq<JournalOp>, i: nat, y: DurableState, z: DurableState) {
    && (forall t | t in z.ipam.held :: t in y.ipam.held && y.ipam.held[t] == z.ipam.held[t])
    && (forall t | t in y.ipam.held && t !in z.ipam.held :: ReleasedAfter(ops, i - 1, t))
  }

  /** How one operation changes the addresses held. */
  lemma HeldEffect(y: DurableState, op: JournalOp, t: TaskId)
    ensures var y' := ApplyOne(y, op, 0);
            && (t in y.ipam.held && t in y'.ipam.held ==> y'.ipam.held[t] == y.ipam.held[t])
            && (t !in y.ipam.held && t in y'.ipam.held ==> op.IpamAllocate? && op.taskId == t)
            && (t in y.ipam.held && t !in y'.ipam.held ==>
                  || op == IpamRelease(t)
                  || (op.SetTaskState? && op.taskId == t && op.state.IsTerminal()))
            && (op == IpamRelease(t) ==> t !in y'.ipam.held)
  {
  }

  lemma HeldStep(ops: seq<JournalOp>, i: nat, x: DurableState, y: DurableState, z: DurableState)
    requires i < |ops| && HeldRelated(ops, i, y, z) && OpFits(x, ops[i], z)
    requires HeldFits(ops, z) && NoReallocation(ops) && Agreement(z)
    ensures HeldRelated(ops, i + 1, ApplyOne(y, ops[i], 0), z)
  {
    hide ApplyOne;
    var y' := ApplyOne(y, ops[i], 0);
    forall t | t in z.ipam.held ensures t in y'.ipam.held && y'.ipam.held[t] == z.ipam.held[t] {
      HeldEffect(y, ops[i], t);
      assert TaskAgrees(t, z.tasks[t], z.nodes.Keys, z.ipam);
    }
    forall t | t in y'.ipam.held && t !in z.ipam.held ensures ReleasedAfter(ops, i, t) {
      HeldEffect(y, ops[i], t);
      if t in y.ipam.held {
        var j :| i - 1 < j < |ops| && 0 <= j && ops[j] == IpamRelease(t);
        assert j != i;
      }
    }
  }

  lemma {:induction false} SecondReplayHeld(origin: DurableState, ops: seq<JournalOp>, z: DurableState, i: nat)
    requires Fits(origin, ops, z) && HeldFits(ops, z) && NoReallocation(ops) && Agreement(z) && i <= |ops|
    ensures HeldRelated(ops, i, ApplyAll(z, ops[..i], 0), z)
  {
    hide ApplyOne, OpFits, HeldFits, Agreement, HeldRelated, NoReallocation;
    if i == 0 {
      assert ops[..0] == [];
      HeldStarts(ops, z);
    } else {
      SecondReplayHeld(origin, ops, z, i - 1);
      assert ops[..i][..|ops[..i]| - 1] == ops[..i - 1] && ops[..i][|ops[..i]| - 1] == ops[i - 1];
      HeldStep(ops, i - 1, ApplyAll(origin, ops[..i - 1], 0), ApplyAll(z, ops[..i - 1], 0), z);
    }
  }

  lemma HeldStarts(ops: seq<JournalOp>, z: DurableState)
    ensures HeldRelated(ops, 0, z, z)
  {
  }

  /** When no task was given an address after it was released one, the second
      replay changes nothing at all: the crash between the rename and the
      truncation is harmless. */
  lemma SecondReplayIsIdentity(origin: DurableState, ops: seq<JournalOp>, z: DurableState)
    requires LedTo(origin, ops, z) && NoReallocation(ops) && Agreement(z)
    ensures Replays(z, ops, z)
  {
    hide ApplyAll, ApplyOne, Fits, NoReallocation, Agreement;
    SecondReplayMovesOnlyAddresses(origin, ops, z);
    SecondReplayHeld(origin, ops, z, |ops|);
    assert ops[..|ops|] == ops;
    var y := ApplyAll(z, ops, 0);
    assert HeldRelated(ops, |ops|, y, z);
    assert y.ipam.held == z.ipam.held;
    RecordsAndAddresses(y, z);
  }

  lemma RecordsAndAddresses(y: DurableState, z: DurableState)
    requires y.Records() == z.Records() && y.ipam == z.ipam
    ensures y.Erased() == z.Erased()
  {
    SameRecordsParts(y, z);
    SameErased(y, z);
  }

  // ---------------------------------------------------------------------
  // Every live run produces such a journal
  // ---------------------------------------------------------------------

  /** What later states keep of earlier ones. */
  ghost predicate Evolves(z: DurableState, z': DurableState) {
    && TasksKept(z, z')
    && (forall t | t in z.tasks && z.tasks[t].state.IsTerminal() ::
          z'.tasks[t].state.IsTerminal() && z'.tasks[t].exitCode == z.tasks[t].exitCode)
    && (forall j | j in z.jobs :: j in z'.jobs && z'.jobs[j] == z.jobs[j])
    && (forall n | n in z.nodes :: n in z'.nodes && EraseNode(z'.nodes[n]) == EraseNode(z.nodes[n]))
    && (forall id | id in z.snapshots :: id in z'.snapshots && (z'.snapshots[id].state == z.snapshots[id].state
          || AcceptsReport(z.snapshots[id].state, z'.snapshots[id].state)))
  }

  lemma OpStillFits(x: DurableState, op: JournalOp, z: DurableState, z': DurableState)
    requires OpFits(x, op, z) && TasksKept(x, z) && Evolves(z, z')
    ensures OpFits(x, op, z') && TasksKept(x, z')
  {
  }

  lemma SpecKeptReflexive(a: TaskSpec)
    ensures SpecKept(a, a)
  {
  }

  lemma InjectionKeepsSpec(task: Task, n: NodeId, network: Option<NetworkAssignment>,
                           services: Option<map<string, seq<string>>>)
    requires services.None? <==> task.spec.discover == []
    ensures SpecKept(task.spec, PlacedOn(task, n, network, services).spec)
  {
    if services.Some? {
      var env := task.spec.env;
      assert env[SERVICES_KEY := Services(services.value)] - {SERVICES_KEY} == env - {SERVICES_KEY};
    }
  }

  /** Changing one task that is not terminal, and nothing else that lasts. */
  lemma OneTaskEvolves(s: DurableState, s': DurableState, t: TaskId)
    requires t in s.tasks && !s.tasks[t].state.IsTerminal()
    requires t in s'.tasks && s'.tasks == s.tasks[t := s'.tasks[t]] && SpecKept(s.tasks[t].spec, s'.tasks[t].spec)
    requires s'.jobs == s.jobs && s'.snapshots == s.snapshots
    requires forall n | n in s.nodes :: n in s'.nodes && EraseNode(s'.nodes[n]) == EraseNode(s.nodes[n])
    ensures Evolves(s, s')
  {
  }

  lemma CommitEvolves(s: DurableState, ipam': IpamState, t: TaskId, n: NodeId, network: Option<NetworkAssignment>)
    requires t in s.tasks && s.tasks[t].state.Pending? && n in s.nodes && s.nodes[n].id == n
    ensures Evolves(s, Commit(s.(ipam := ipam'), t, n, network).0)
  {
    hide Evolves, Commit, SpecKept, Discovery.ServicesFor;
    CommitShape(s.(ipam := ipam'), t, n, network);
    Discovery.ServicesNoneIff(s.tasks, s.tasks[t]);
    InjectionKeepsSpec(s.tasks[t], n, network, Discovery.ServicesFor(s.tasks, s.tasks[t]));
    OneTaskEvolves(s, Commit(s.(ipam := ipam'), t, n, network).0, t);
  }

  lemma PlaceEvolves(s: DurableState, t: TaskId, now: DateTime)
    requires KeysMatch(s) && t in s.tasks && s.tasks[t].state.Pending?
    ensures Evolves(s, PlaceOne(s, t, now).0)
  {
    hide PlaceOne, Evolves, Commit, IpamState.WellFormed;
    var ipam', n, network := PlaceShape(s, t, now);
    if PlaceOne(s, t, now) == (s.(ipam := ipam'), []) {
      SameTasksEvolve(s, s.(ipam := ipam'));
    } else {
      CommitEvolves(s, ipam', t, n, network);
    }
  }

  lemma CreateEvolves(s: DurableState, spec: JobSpec, now: DateTime, jobId: JobId, ids: seq<TaskId>)
    requires Allowed(s, JobSubmitted(spec, now, jobId, ids))
    ensures Evolves(s, s.CreateJob(spec, now, jobId, ids).state)
  {
    if IsValidSpec(spec) {
      var s' := s.CreateJob(spec, now, jobId, ids).state;
      var created := NewTasks(Copies(spec.tasks), jobId, ids);
      assert forall i | 0 <= i < |created| :: created[i].id == ids[i];
      forall t | t in s.tasks ensures t in s'.tasks && s'.tasks[t] == s.tasks[t] {
        InsertTasksLookup(s.tasks, created, t);
      }
    }
  }

  lemma StepEvolves(s: DurableState, e: Event)
    requires KeysMatch(s) && Allowed(s, e)
    ensures Evolves(s, Step(s, e).0)
  {
    match e
    case JobSubmitted(spec, now, jobId, ids) => CreateEvolves(s, spec, now, jobId, ids);
    case TaskPlaced(t, now) => PlaceEvolves(s, t, now);
    case TaskReported(t, state, exitCode) => ReportEvolves(s, t, state, exitCode);
    case OrphanRequeued(t, now) => OneTaskEvolves(s, RequeueOne(s, t).0, t);
    case _ => OtherEvolves(s, e);
  }

  lemma ReportEvolves(s: DurableState, t: TaskId, state: TaskState, exitCode: Option<int>)
    ensures Evolves(s, s.SetTaskState(t, state, exitCode).state)
  {
    if t in s.tasks && !s.tasks[t].state.IsTerminal() {
      OneTaskEvolves(s, s.SetTaskState(t, state, exitCode).state, t);
    }
  }

  lemma SameTasksEvolve(s: DurableState, s': DurableState)
    requires s'.tasks == s.tasks && s'.jobs == s.jobs
    requires forall n | n in s.nodes :: n in s'.nodes && EraseNode(s'.nodes[n]) == EraseNode(s.nodes[n])
    requires forall id | id in s.snapshots :: id in s'.snapshots && (s'.snapshots[id].state == s.snapshots[id].state
               || AcceptsReport(s.snapshots[id].state, s'.snapshots[id].state))
    ensures Evolves(s, s')
  {
  }

  lemma OtherEvolves(s: DurableState, e: Event)
    requires Allowed(s, e)
    requires e.NodeRegistered? || e.NodeHeard? || e.SnapshotRequested? || e.SnapshotReported? || e.UsedRecounted?
    ensures Evolves(s, Step(s, e).0)
  {
    hide Evolves, Recounted;
    match e
    case SnapshotRequested(t, mem, path, now, id) =>
      SameTasksEvolve(s, s.RequestSnapshot(t, mem, path, now, id).state);
    case SnapshotReported(t, id, report) => SnapshotReportEvolves(s, t, id, report);
    case UsedRecounted => RecountEvolves(s);
    case NodeRegistered(name, addr, total, underlay, now, id) =>
      SameTasksEvolve(s, s.RegisterNode(name, addr, total, underlay, now, id).state);
    case NodeHeard(n, underlay, now) => SameTasksEvolve(s, s.Heartbeat(n, underlay, now).state);
  }

  lemma SnapshotReportEvolves(s: DurableState, t: TaskId, id: SnapshotId, report: SnapshotReport)
    ensures Evolves(s, s.ReportSnapshotResult(t, id, report).state)
  {
    hide Evolves;
    SameTasksEvolve(s, s.ReportSnapshotResult(t, id, report).state);
  }

  lemma RecountEvolves(s: DurableState)
    ensures Evolves(s, Recounted(s))
  {
    hide Evolves, DemandOn;
    SameTasksEvolve(s, Recounted(s));
  }

  /** The operations of one event belong to the history of the state it leads
      to. */
  ghost predicate NewOpsFit(s: DurableState, more: seq<JournalOp>, s': DurableState) {
    forall j | 0 <= j < |more| ::
      OpFits(ApplyAll(s, more[..j], 0), more[j], s') && TasksKept(ApplyAll(s, more[..j], 0), s')
  }

  lemma OneOpFits(s: DurableState, op: JournalOp, s': DurableState)
    requires OpFits(s, op, s') && TasksKept(s, s')
    ensures NewOpsFit(s, [op], s')
  {
    assert [op][..0] == [];
  }

  lemma TwoOpsFit(s: DurableState, a: JournalOp, b: JournalOp, s': DurableState)
    requires OpFits(s, a, s') && TasksKept(s, s') && (a.IpamAllocate? || a.IpamRelease?)
    requires OpFits(s, b, s')
    ensures NewOpsFit(s, [a, b], s')
  {
    assert [a, b][..0] == [] && [a, b][..1] == [a];
    ApplySingle(s, a, 0);
    assert ApplyOne(s, a, 0).tasks == s.tasks;
  }

  lemma ReportOpFits(s: DurableState, t: TaskId, state: TaskState, exitCode: Option<int>)
    requires t in s.tasks && !s.tasks[t].state.IsTerminal()
    ensures var s' := s.SetTaskState(t, state, exitCode).state;
            OpFits(s, SetTaskState(t, state, exitCode), s') && TasksKept(s, s')
  {
    SpecKeptReflexive(s.tasks[t].spec);
  }

  lemma ReportFits(s: DurableState, t: TaskId, state: TaskState, exitCode: Option<int>)
    ensures var out := s.SetTaskState(t, state, exitCode); NewOpsFit(s, out.ops, out.state)
  {
    hide NewOpsFit, TasksKept;
    var out := s.SetTaskState(t, state, exitCode);
    var report := SetTaskState(t, state, exitCode);
    if t !in s.tasks || s.tasks[t].state.IsTerminal() {
      NothingFitsInto(s, out.state);
    } else {
      ReportOpFits(s, t, state, exitCode);
      if out.ops == [report] {
        OneOpFits(s, report, out.state);
      } else {
        assert out.ops == [IpamRelease(t), report];
        TwoOpsFit(s, IpamRelease(t), report, out.state);
      }
    }
  }

  lemma RequeueFits(s: DurableState, t: TaskId)
    requires t in s.tasks && !s.tasks[t].state.IsTerminal()
    ensures var (s', ops) := RequeueOne(s, t); NewOpsFit(s, ops, s')
  {
    var (s', ops) := RequeueOne(s, t);
    OneTaskEvolves(s, s', t);
    if ops == [TaskRequeued(t)] {
      OneOpFits(s, TaskRequeued(t), s');
    } else {
      TwoOpsFit(s, IpamRelease(t), TaskRequeued(t), s');
    }
  }

  lemma CommitFits(s: DurableState, ipam': IpamState, t: TaskId, n: NodeId, network: Option<NetworkAssignment>)
    requires t in s.tasks && s.tasks[t].state.Pending? && n in s.nodes && s.nodes[n].id == n
    ensures var (s', ops) := Commit(s.(ipam := ipam'), t, n, network); NewOpsFit(s, ops, s')
  {
    hide NewOpsFit, Commit, Discovery.ServicesFor;
    CommitShape(s.(ipam := ipam'), t, n, network);
    var (s', ops) := Commit(s.(ipam := ipam'), t, n, network);
    CommitEvolves(s, ipam', t, n, network);
    var services := Discovery.ServicesFor(s.tasks, s.tasks[t]);
    Discovery.ServicesNoneIff(s.tasks, s.tasks[t]);
    var placement := TaskAssigned(t, n, network, services);
    InjectionKeepsSpec(s.tasks[t], n, network, services);
    if network.None? {
      OneOpFits(s, placement, s');
    } else {
      TwoOpsFit(s, IpamAllocate(n, t, network.value.ip), placement, s');
    }
  }

  lemma PlaceFits(s: DurableState, t: TaskId, now: DateTime)
    requires KeysMatch(s) && t in s.tasks && s.tasks[t].state.Pending?
    ensures var (s', ops) := PlaceOne(s, t, now); NewOpsFit(s, ops, s')
  {
    hide PlaceOne, NewOpsFit, Commit, IpamState.WellFormed;
    var ipam', n, network := PlaceShape(s, t, now);
    if PlaceOne(s, t, now) == (s.(ipam := ipam'), []) {
      NothingFitsInto(s, s.(ipam := ipam'));
    } else {
      CommitFits(s, ipam', t, n, network);
    }
  }

  lemma CreateFits(s: DurableState, spec: JobSpec, now: DateTime, jobId: JobId, ids: seq<TaskId>)
    requires Allowed(s, JobSubmitted(spec, now, jobId, ids))
    ensures var out := s.CreateJob(spec, now, jobId, ids); NewOpsFit(s, out.ops, out.state)
  {
    if IsValidSpec(spec) {
      var out := s.CreateJob(spec, now, jobId, ids);
      CreateEvolves(s, spec, now, jobId, ids);
      var created := NewTasks(Copies(spec.tasks), jobId, ids);
      forall i | 0 <= i < |created| ensures created[i].id !in s.tasks && created[i].id in out.state.tasks {
        assert created[i].id == ids[i];
        InsertTasksLookup(s.tasks, created, created[i].id);
      }
      OneOpFits(s, out.ops[0], out.state);
    }
  }

  lemma SnapshotRequestFits(s: DurableState, t: TaskId, mem: Option<string>, path: Option<string>,
                            now: DateTime, id: SnapshotId)
    ensures var out := s.RequestSnapshot(t, mem, path, now, id); NewOpsFit(s, out.ops, out.state)
  {
    var out := s.RequestSnapshot(t, mem, path, now, id);
    if out.ops != [] {
      OneOpFits(s, out.ops[0], out.state);
    }
  }

  lemma SnapshotReportFits(s: DurableState, t: TaskId, id: SnapshotId, report: SnapshotReport)
    ensures var out := s.ReportSnapshotResult(t, id, report); NewOpsFit(s, out.ops, out.state)
  {
    var out := s.ReportSnapshotResult(t, id, report);
    if out.ops != [] {
      OneOpFits(s, out.ops[0], out.state);
    }
  }

  lemma RegisterFits(s: DurableState, name: string, addr: string, total: Resources,
                     underlayIp: Option<Ip>, now: DateTime, id: NodeId)
    ensures var out := s.RegisterNode(name, addr, total, underlayIp, now, id); NewOpsFit(s, out.ops, out.state)
  {
    var out := s.RegisterNode(name, addr, total, underlayIp, now, id);
    OneOpFits(s, out.ops[0], out.state);
  }

  lemma StepFits(s: DurableState, e: Event)
    requires KeysMatch(s) && Allowed(s, e)
    ensures NewOpsFit(s, Step(s, e).1, Step(s, e).0)
  {
    hide NewOpsFit;
    match e
    case JobSubmitted(spec, now, jobId, ids) => CreateFits(s, spec, now, jobId, ids);
    case NodeRegistered(name, addr, total, underlay, now, id) => RegisterFits(s, name, addr, total, underlay, now, id);
    case TaskReported(t, state, exitCode) => ReportFits(s, t, state, exitCode);
    case SnapshotRequested(t, mem, path, now, id) => SnapshotRequestFits(s, t, mem, path, now, id);
    case SnapshotReported(t, id, report) => SnapshotReportFits(s, t, id, report);
    case OrphanRequeued(t, now) => RequeueFits(s, t);
    case TaskPlaced(t, now) => PlaceFits(s, t, now);
    case NodeHeard(n, underlay, now) => NothingFitsInto(s, Step(s, e).0);
    case UsedRecounted => NothingFitsInto(s, Step(s, e).0);
  }

  lemma NothingFitsInto(s: DurableState, s': DurableState)
    ensures NewOpsFit(s, [], s')
  {
  }

  /** Addresses come and go only through the operations an event journals. */
  ghost predicate HeldJournaled(s: DurableState, more: seq<JournalOp>, s': DurableState) {
    && (forall t | t in s.ipam.held && t !in s'.ipam.held :: IpamRelease(t) in more)
    && (forall t | t !in s.ipam.held && t in s'.ipam.held ::
          exists j :: 0 <= j < |more| && more[j].IpamAllocate? && more[j].taskId == t)
    && (forall j | 0 <= j < |more| && more[j].IpamAllocate? :: more[j].taskId in s'.ipam.held)
    && (forall j | 0 <= j < |more| && more[j].IpamRelease? :: more[j].taskId !in s'.ipam.held)
    && (forall j | 0 <= j < |more| && more[j].IpamAllocate? :: more[j].nodeId in s'.ipam.subnets)
    && (forall n | n in s.ipam.subnets :: n in s'.ipam.subnets)
  }

  lemma StepHeldJournaled(s: DurableState, e: Event)
    requires Invariant(s) && Allowed(s, e)
    ensures HeldJournaled(s, Step(s, e).1, Step(s, e).0)
  {
    hide HeldJournaled;
    match e
    case TaskPlaced(t, now) => PlaceHeldJournaled(s, t, now);
    case TaskReported(t, state, exitCode) => ReportHeldJournaled(s, t, state, exitCode);
    case OrphanRequeued(t, now) => RequeueHeldJournaled(s, t);
    case _ => OtherHeldJournaled(s, e);
  }

  lemma ReportHeldJournaled(s: DurableState, t: TaskId, state: TaskState, exitCode: Option<int>)
    ensures var out := s.SetTaskState(t, state, exitCode); HeldJournaled(s, out.ops, out.state)
  {
    var out := s.SetTaskState(t, state, exitCode);
    if out.state.ipam.held != s.ipam.held {
      assert out.ops[0] == IpamRelease(t);
    }
  }

  lemma RequeueHeldJournaled(s: DurableState, t: TaskId)
    ensures var (s', ops) := RequeueOne(s, t); HeldJournaled(s, ops, s')
  {
    if t in s.ipam.held {
      assert RequeueOne(s, t).1[0] == IpamRelease(t);
    }
  }

  lemma OtherHeldJournaled(s: DurableState, e: Event)
    requires Allowed(s, e) && !e.TaskPlaced? && !e.TaskReported? && !e.OrphanRequeued?
    ensures HeldJournaled(s, Step(s, e).1, Step(s, e).0)
  {
  }

  lemma PlaceHeldJournaled(s: DurableState, t: TaskId, now: DateTime)
    requires Invariant(s) && t in s.tasks && s.tasks[t].state.Pending?
    ensures var (s', ops) := PlaceOne(s, t, now); HeldJournaled(s, ops, s')
  {
    hide PlaceOne, Commit, HeldJournaled;
    NothingHeldJournaled(s);
    InvariantParts(s);
    PendingHoldsNothing(s, t);
    PlaceOneCases(s, t, now);
    var pick := PickNode(s.nodes, s.tasks[t], now);
    if pick.Some? {
      AllocateKeeps(s.ipam, pick.value, t);
      var (ip, ipam') := s.ipam.Allocate(pick.value, t);
      if !s.tasks[t].spec.networkEnabled {
        assert s.(ipam := s.ipam) == s;
        CommitHeldJournaled(s, s.ipam, t, pick.value, None);
      } else if ip.Some? {
        CommitHeldJournaled(s, ipam', t, pick.value,
                            Some(NetworkAssignment(ip.value, ipam'.GatewayFor(pick.value).value, NETMASK)));
      }
    }
  }

  lemma NothingHeldJournaled(s: DurableState)
    ensures HeldJournaled(s, [], s)
  {
  }

  lemma CommitHeldJournaled(s: DurableState, ipam': IpamState, t: TaskId, n: NodeId,
                            network: Option<NetworkAssignment>)
    requires t in s.tasks && n in s.nodes
    requires ipam'.held == if network.Some? then s.ipam.held[t := network.value.ip] else s.ipam.held
    requires network.Some? ==> n in ipam'.subnets
    requires forall m | m in s.ipam.subnets :: m in ipam'.subnets
    ensures var (s', ops) := Commit(s.(ipam := ipam'), t, n, network); HeldJournaled(s, ops, s')
  {
    if network.Some? {
      assert Commit(s.(ipam := ipam'), t, n, network).1[0] == IpamAllocate(n, t, network.value.ip);
    }
  }

  lemma HeldStillFits(ops: seq<JournalOp>, more: seq<JournalOp>, z: DurableState, z': DurableState)
    requires HeldFits(ops, z) && HeldJournaled(z, more, z')
    ensures HeldFits(ops + more, z')
  {
    var all := ops + more;
    forall i | 0 <= i < |all| && all[i].IpamAllocate? && all[i].taskId !in z'.ipam.held
      ensures ReleasedAfter(all, i, all[i].taskId)
    {
      assert i < |ops|;
      var t := all[i].taskId;
      if t in z.ipam.held {
        var j :| 0 <= j < |more| && more[j] == IpamRelease(t);
        assert all[|ops| + j] == IpamRelease(t);
      } else {
        var j :| i < j < |ops| && 0 <= j && ops[j] == IpamRelease(t);
        assert all[j] == IpamRelease(t);
      }
    }
    forall i | 0 <= i < |all| && all[i].IpamRelease? && all[i].taskId in z'.ipam.held
      ensures AllocatedAfter(all, i, all[i].taskId)
    {
      assert i < |ops|;
      var t := all[i].taskId;
      if t in z.ipam.held {
        var j :| i < j < |ops| && 0 <= j && ops[j].IpamAllocate? && ops[j].taskId == t;
        assert all[j] == ops[j];
      } else {
        var j :| 0 <= j < |more| && more[j].IpamAllocate? && more[j].taskId == t;
        assert all[|ops| + j] == more[j];
      }
    }
    forall i | 0 <= i < |all| && all[i].IpamAllocate? ensures all[i].nodeId in z'.ipam.subnets {
      assert all[i] == if i < |ops| then ops[i] else more[i - |ops|];
    }
  }

  lemma StillFits(origin: DurableState, ops: seq<JournalOp>, z: DurableState,
                  more: seq<JournalOp>, z': DurableState)
    requires RecordsReplay(origin, ops, z) && Fits(origin, ops, z) && Evolves(z, z') && NewOpsFit(z, more, z')
    ensures Fits(origin, ops + more, z')
  {
    hide OpFits, TasksKept, Evolves, ApplyAll;
    var all := ops + more;
    forall i | 0 <= i < |all|
      ensures OpFits(ApplyAll(origin, all[..i], 0), all[i], z') && TasksKept(ApplyAll(origin, all[..i], 0), z')
    {
      if i < |ops| {
        assert all[..i] == ops[..i];
        OpStillFits(ApplyAll(origin, ops[..i], 0), ops[i], z, z');
      } else {
        var j := i - |ops|;
        assert all[..i] == ops + more[..j];
        SameTasksAfter(origin, ops, z, more[..j]);
        OnlyTasksMatter(ApplyAll(origin, all[..i], 0), ApplyAll(z, more[..j], 0), more[j], z');
      }
    }
  }

  lemma SameTasksAfter(origin: DurableState, ops: seq<JournalOp>, z: DurableState, more: seq<JournalOp>)
    requires RecordsReplay(origin, ops, z)
    ensures ApplyAll(origin, ops + more, 0).tasks == ApplyAll(z, more, 0).tasks
  {
    ApplyConcat(origin, ops, more, 0);
    ApplyAllRespectsRecords(ApplyAll(origin, ops, 0), z, more, 0, 0);
    SameRecordsParts(ApplyAll(origin, ops + more, 0), ApplyAll(z, more, 0));
  }

  lemma OnlyTasksMatter(x: DurableState, x': DurableState, op: JournalOp, z: DurableState)
    requires x.tasks == x'.tasks && OpFits(x', op, z) && TasksKept(x', z)
    ensures OpFits(x, op, z) && TasksKept(x, z)
  {
  }

  /** Every event extends the journal to one that leads to the new state. */
  lemma LedToStep(origin: DurableState, ops: seq<JournalOp>, z: DurableState, e: Event)
    requires LedTo(origin, ops, z) && Invariant(z) && Allowed(z, e)
    ensures LedTo(origin, ops + Step(z, e).1, Step(z, e).0)
  {
    hide Step, Allowed, Invariant, Fits, HeldFits;
    InvariantParts(z);
    LedToRecords(origin, ops, z);
    StepRefines(z, e);
    ReplaysConcat(origin, ops, z, Step(z, e).1, Step(z, e).0);
    StepEvolves(z, e);
    StepFits(z, e);
    StillFits(origin, ops, z, Step(z, e).1, Step(z, e).0);
    StepHeldJournaled(z, e);
    HeldStillFits(ops, Step(z, e).1, z, Step(z, e).0);
  }

  /** Any live run produces a journal that led to its final state. */
  lemma {:induction false} RunLedTo(s: DurableState, events: seq<Event>)
    requires Invariant(s) && ValidRun(s, events)
    ensures LedTo(s, Run(s, events).1, Run(s, events).0)
    decreases |events|
  {
    hide Step, Allowed, LedTo, Invariant;
    if events == [] {
      LedToNothing(s);
    } else {
      var front := events[..|events| - 1];
      RunLedTo(s, front);
      RunRefines(s, front);
      LedToStep(s, Run(s, front).1, Run(s, front).0, events[|events| - 1]);
    }
  }

  /** A restart changes only what the journal does not carry. */
  lemma LedToErased(origin: DurableState, ops: seq<JournalOp>, z: DurableState, z': DurableState)
    requires LedTo(origin, ops, z) && z.Erased() == z'.Erased()
    ensures LedTo(origin, ops, z')
  {
    hide Fits;
    LedToRecords(origin, ops, z);
    RecordsLedToSame(origin, ops, z, z');
    SameErasedParts(z', z);
  }

  lemma RecordsLedToSame(origin: DurableState, ops: seq<JournalOp>, z: DurableState, z': DurableState)
    requires RecordsLedTo(origin, ops, z) && z.Records() == z'.Records()
    ensures RecordsLedTo(origin, ops, z')
  {
    SameRecordsParts(z', z);
    forall i | 0 <= i < |ops|
      ensures OpFits(ApplyAll(origin, ops[..i], 0), ops[i], z') && TasksKept(ApplyAll(origin, ops[..i], 0), z')
    {
      FitsSame(ApplyAll(origin, ops[..i], 0), ops[i], z, z');
    }
  }

  lemma FitsSame(x: DurableState, op: JournalOp, z: DurableState, z': DurableState)
    requires OpFits(x, op, z) && TasksKept(x, z)
    requires z' == z.(nodes := z'.nodes, ipam := z'.ipam) && z'.nodes.Keys == z.nodes.Keys
    requires forall n | n in z'.nodes :: EraseNode(z'.nodes[n]) == EraseNode(z.nodes[n])
    ensures OpFits(x, op, z') && TasksKept(x, z')
  {
  }
}
