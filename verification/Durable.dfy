/** The durable state of the server, the mutations the API performs on it, and
    the replay of journaled operations. Every mutation is a function from a
    state to its result, the next state and the operations it journals. */
module Durable {
  import opened Types
  import opened Ipam

  datatype Outcome<+R> = Outcome(result: Result<R, Error>, state: DurableState, ops: seq<JournalOp>)

  datatype DurableState = DurableState(
    jobs: map<JobId, JobRecord>,
    tasks: map<TaskId, Task>,
    nodes: map<NodeId, NodeInfo>,
    snapshots: map<SnapshotId, SnapshotRecord>,
    ipam: IpamState)
  {
    /** Submit a job: one pending task per requested copy. `ids` are the generated task ids,
        one for each task of the expansion. */
    function CreateJob(spec: JobSpec, now: DateTime, jobId: JobId, ids: seq<TaskId>): Outcome<JobId>
      requires IsValidSpec(spec) ==> |ids| == |Copies(spec.tasks)|
    {
      if !IsValidSpec(spec) then Outcome(Err(InvalidJobSpec), this, []) else
        var created := NewTasks(Copies(spec.tasks), jobId, ids);
        Outcome(
          Ok(jobId),
          this.(tasks := InsertTasks(tasks, created), jobs := jobs[jobId := JobRecord(spec.name, now)]),
          [JournalOp.CreateJob(jobId, spec.name, now, created)])
    }

    function RegisterNode(name: string, addr: string, total: Resources, underlayIp: Option<Ip>,
                          now: DateTime, id: NodeId): Outcome<NodeId> {
      var node := NodeInfo(id, name, addr, underlayIp, total, NO_RESOURCES, now);
      Outcome(Ok(id), this.(nodes := nodes[id := node]), [JournalOp.RegisterNode(node)])
    }

    /** A heartbeat is not journaled. */
    function Heartbeat(n: NodeId, underlayIp: Option<Ip>, now: DateTime): Outcome<()> {
      if n !in nodes then Outcome(Err(NotFound), this, []) else
        var node := nodes[n].(
          lastHeartbeat := now,
          underlayIp := if underlayIp.Some? then underlayIp else nodes[n].underlayIp);
        Outcome(Ok(()), this.(nodes := nodes[n := node]), [])
    }

    function SetTaskState(t: TaskId, state: TaskState, exitCode: Option<int>): Outcome<()> {
      if t !in tasks then Outcome(Err(NotFound), this, [])
      else if tasks[t].state.IsTerminal() then Outcome(Err(Conflict), this, [])
      else
        var task := tasks[t].(
          state := state,
          exitCode := if state.IsTerminal() then exitCode else tasks[t].exitCode);
        var (released, ipam') := if state.IsTerminal() then ipam.Release(t) else (false, ipam);
        Outcome(
          Ok(()),
          this.(tasks := tasks[t := task], ipam := ipam'),
          (if released then [IpamRelease(t)] else []) + [JournalOp.SetTaskState(t, state, exitCode)])
    }

    function RequestSnapshot(t: TaskId, memFilePath: Option<string>, snapshotPath: Option<string>,
                             now: DateTime, id: SnapshotId): Outcome<SnapshotRecord> {
      if t !in tasks then Outcome(Err(NotFound), this, [])
      else if !tasks[t].state.Running? then Outcome(Err(Conflict), this, [])
      else if tasks[t].assignedNode.None? then Outcome(Err(Conflict), this, [])
      else
        var record := SnapshotRecord(id, t, tasks[t].assignedNode.value,
                                     OrEmpty(memFilePath), OrEmpty(snapshotPath), Requested, None, now);
        Outcome(Ok(record), this.(snapshots := snapshots[id := record]), [JournalOp.RequestSnapshot(record)])
    }

    function ReportSnapshotResult(t: TaskId, id: SnapshotId, report: SnapshotReport): Outcome<SnapshotRecord> {
      if report.state.Requested? then Outcome(Err(Conflict), this, [])
      else if id !in snapshots then Outcome(Err(NotFound), this, [])
      else if snapshots[id].taskId != t then Outcome(Err(NotFound), this, [])
      else if !AcceptsReport(snapshots[id].state, report.state) then Outcome(Err(Conflict), this, [])
      else
        var record := snapshots[id].(
          state := report.state,
          nodeId := report.nodeId,
          error := report.error,
          memFilePath := if report.memFilePath.Some? then report.memFilePath.value else snapshots[id].memFilePath,
          snapshotPath := if report.snapshotPath.Some? then report.snapshotPath.value else snapshots[id].snapshotPath);
        Outcome(Ok(record), this.(snapshots := snapshots[id := record]), [ReportSnapshot(t, id, report)])
    }

    /** The state without what the journal does not carry: heartbeats, underlay
        addresses and the recomputed resource accounting. */
    function Erased(): DurableState {
      this.(nodes := map n | n in nodes :: EraseNode(nodes[n]))
    }

    /** What `Erased` keeps, without the addresses: jobs, tasks, snapshot records
        and nodes. */
    function Records(): DurableState {
      Erased().(ipam := NO_ADDRESSES)
    }
  }

  const NO_ADDRESSES := IpamState(0, 0, map[], map[])

  /** The state of a server that never ran. */
  function EmptyState(ipam: IpamState): DurableState {
    DurableState(map[], map[], map[], map[], ipam)
  }

  function EraseNode(node: NodeInfo): NodeInfo {
    node.(underlayIp := None, used := NO_RESOURCES, lastHeartbeat := 0)
  }

  function OrEmpty(s: Option<string>): string {
    if s.Some? then s.value else ""
  }

  /** The reports the snapshot machine accepts. */
  predicate AcceptsReport(from: SnapshotState, to: SnapshotState) {
    || (from.Requested? && (to.InProgress? || to.Done? || to.SnapFailed?))
    || (from.InProgress? && (to.Done? || to.SnapFailed?))
  }

  // ---------------------------------------------------------------------
  // Job specs
  // ---------------------------------------------------------------------

  predicate IsValidSpec(spec: JobSpec) {
    && !IsBlank(spec.name)
    && spec.tasks != []
    && (forall i | 0 <= i < |spec.tasks| ::
          !IsBlank(spec.tasks[i].name) && !IsBlank(spec.tasks[i].command) && spec.tasks[i].count != 0)
  }

  /** Empty once leading and trailing white space is gone. */
  predicate IsBlank(s: string) {
    forall i | 0 <= i < |s| :: IsWhiteSpace(s[i])
  }

  /** The Unicode property White_Space. */
  predicate IsWhiteSpace(c: char) {
    || '\t' <= c <= '\r' || c == ' ' || c == '\U{85}' || c == '\U{a0}' || c == '\U{1680}'
    || '\U{2000}' <= c <= '\U{200a}' || c == '\U{2028}' || c == '\U{2029}' || c == '\U{202f}'
    || c == '\U{205f}' || c == '\U{3000}'
  }

  /** Each task spec `count` times over, its own count set to one. */
  function Copies(specs: seq<TaskSpec>): seq<TaskSpec> {
    if specs == [] then [] else
      var last := specs[|specs| - 1];
      Copies(specs[..|specs| - 1]) + Repeated(last.(count := 1), last.count)
  }

  function Repeated(spec: TaskSpec, n: nat): seq<TaskSpec> {
    seq(n, _ => spec)
  }

  lemma CopiesExtend(specs: seq<TaskSpec>, i: nat)
    requires i < |specs|
    ensures Copies(specs[..i + 1]) == Copies(specs[..i]) + Repeated(specs[i].(count := 1), specs[i].count)
    ensures Copies(specs[..i + 1]) <= Copies(specs)
  {
    assert specs[..i + 1][..i] == specs[..i];
    CopiesPrefix(specs, i + 1);
  }

  lemma {:induction false} CopiesPrefix(specs: seq<TaskSpec>, i: nat)
    requires i <= |specs|
    ensures Copies(specs[..i]) <= Copies(specs)
    decreases |specs|
  {
    if i == |specs| {
      assert specs[..i] == specs;
    } else {
      assert specs[..|specs| - 1][..i] == specs[..i];
      CopiesPrefix(specs[..|specs| - 1], i);
    }
  }

  function NewTask(spec: TaskSpec, jobId: JobId, id: TaskId): Task {
    Task(id, jobId, spec.name, spec, Pending, None, None, None)
  }

  function NewTasks(specs: seq<TaskSpec>, jobId: JobId, ids: seq<TaskId>): seq<Task>
    requires |specs| == |ids|
  {
    seq(|specs|, i requires 0 <= i < |specs| => NewTask(specs[i], jobId, ids[i]))
  }

  function InsertTasks(tasks: map<TaskId, Task>, added: seq<Task>): map<TaskId, Task> {
    if added == [] then tasks else
      var last := added[|added| - 1];
      InsertTasks(tasks, added[..|added| - 1])[last.id := last]
  }

  lemma NoTasksYet(tasks: map<TaskId, Task>, jobId: JobId)
    ensures Copies([]) == [] && NewTasks([], jobId, []) == [] && InsertTasks(tasks, []) == tasks
  {
  }

  lemma NewTasksExtend(specs: seq<TaskSpec>, spec: TaskSpec, jobId: JobId, ids: seq<TaskId>)
    requires |specs| < |ids|
    ensures NewTasks(specs + [spec], jobId, ids[..|specs| + 1])
            == NewTasks(specs, jobId, ids[..|specs|]) + [NewTask(spec, jobId, ids[|specs|])]
  {
  }

  lemma InsertTasksExtend(tasks: map<TaskId, Task>, added: seq<Task>, task: Task)
    ensures InsertTasks(tasks, added + [task]) == InsertTasks(tasks, added)[task.id := task]
  {
    assert (added + [task])[..|added|] == added;
  }

  // ---------------------------------------------------------------------
  // Placement and requeueing of one task record
  // ---------------------------------------------------------------------

  function PlacedOn(task: Task, n: NodeId, network: Option<NetworkAssignment>,
                    services: Option<map<string, seq<string>>>): Task {
    task.(
      state := Assigned,
      assignedNode := Some(n),
      network := network,
      spec := task.spec.(env := if services.Some?
                                then task.spec.env[SERVICES_KEY := Services(services.value)]
                                else task.spec.env))
  }

  function BackToPending(task: Task): Task {
    task.(state := Pending, assignedNode := None, network := None)
  }

  // ---------------------------------------------------------------------
  // Replay
  // ---------------------------------------------------------------------

  /** One journaled operation applied to a state being rebuilt. */
  function ApplyOne(s: DurableState, op: JournalOp, now: DateTime): DurableState {
    match op
    case CreateJob(jobId, name, createdAt, tasks) =>
      s.(jobs := s.jobs[jobId := JobRecord(name, createdAt)], tasks := InsertTasks(s.tasks, tasks))
    case SetTaskState(t, state, exitCode) =>
      s.SetTaskState(t, state, exitCode).state
    case TaskAssigned(t, n, network, services) =>
      if t in s.tasks then s.(tasks := s.tasks[t := PlacedOn(s.tasks[t], n, network, services)]) else s
    case TaskRequeued(t) =>
      if t in s.tasks then s.(tasks := s.tasks[t := BackToPending(s.tasks[t])]) else s
    case RegisterNode(node) =>
      s.(nodes := s.nodes[node.id := node.(lastHeartbeat := now)])
    case RequestSnapshot(record) =>
      s.(snapshots := s.snapshots[record.id := record])
    case ReportSnapshot(t, id, report) =>
      s.ReportSnapshotResult(t, id, report).state
    case IpamAllocate(n, t, _) =>
      s.(ipam := s.ipam.Allocate(n, t).1)
    case IpamRelease(t) =>
      s.(ipam := s.ipam.Release(t).1)
  }

  function ApplyAll(s: DurableState, ops: seq<JournalOp>, now: DateTime): DurableState {
    if ops == [] then s
    else ApplyOne(ApplyAll(s, ops[..|ops| - 1], now), ops[|ops| - 1], now)
  }

  /** Replaying `ops` on `before` gives `after`, up to what `Erased` drops. */
  ghost predicate Replays(before: DurableState, ops: seq<JournalOp>, after: DurableState) {
    ApplyAll(before, ops, 0).Erased() == after.Erased()
  }

  lemma {:induction false} ApplyConcat(s: DurableState, a: seq<JournalOp>, b: seq<JournalOp>, now: DateTime)
    ensures ApplyAll(s, a + b, now) == ApplyAll(ApplyAll(s, a, now), b, now)
    decreases |b|
  {
    if b == [] {
      assert a + b == a;
    } else {
      var front, last := b[..|b| - 1], b[|b| - 1];
      assert (a + b)[..|a + b| - 1] == a + front;
      assert (a + b)[|a + b| - 1] == last;
      ApplyConcat(s, a, front, now);
    }
  }

  lemma ApplyNone(s: DurableState, now: DateTime)
    ensures ApplyAll(s, [], now) == s
  {
  }

  lemma ApplySingle(s: DurableState, op: JournalOp, now: DateTime)
    ensures ApplyAll(s, [op], now) == ApplyOne(s, op, now)
  {
    assert [op][..0] == [];
    ApplyNone(s, now);
  }

  lemma ApplyPair(s: DurableState, a: JournalOp, b: JournalOp, now: DateTime)
    ensures ApplyAll(s, [a, b], now) == ApplyOne(ApplyOne(s, a, now), b, now)
  {
    assert [a, b][..1] == [a];
    ApplySingle(s, a, now);
  }

  /** Only a registration reads or writes the nodes. */
  lemma OnlyRegistrationTouchesNodes(s: DurableState, m: map<NodeId, NodeInfo>, op: JournalOp,
                                     now: DateTime, later: DateTime)
    requires !op.RegisterNode?
    ensures ApplyOne(s.(nodes := m), op, now) == ApplyOne(s, op, later).(nodes := m)
    ensures ApplyOne(s, op, later).nodes == s.nodes
  {
    hide InsertTasks, PlacedOn, BackToPending, IpamState.Allocate, IpamState.Release,
         DurableState.SetTaskState, DurableState.ReportSnapshotResult;
    match op
    case SetTaskState(t, state, exitCode) => TaskReportIgnoresNodes(s, m, t, state, exitCode);
    case ReportSnapshot(t, id, report) => SnapshotReportIgnoresNodes(s, m, t, id, report);
    case _ =>
  }

  lemma TaskReportIgnoresNodes(s: DurableState, m: map<NodeId, NodeInfo>, t: TaskId, state: TaskState,
                               exitCode: Option<int>)
    ensures var r := s.SetTaskState(t, state, exitCode).state;
            r.nodes == s.nodes && s.(nodes := m).SetTaskState(t, state, exitCode).state == r.(nodes := m)
  {
    hide IpamState.Release;
  }

  lemma SnapshotReportIgnoresNodes(s: DurableState, m: map<NodeId, NodeInfo>, t: TaskId, id: SnapshotId,
                                   report: SnapshotReport)
    ensures var r := s.ReportSnapshotResult(t, id, report).state;
            r.nodes == s.nodes && s.(nodes := m).ReportSnapshotResult(t, id, report).state == r.(nodes := m)
  {
  }

  lemma SameErasedParts(r: DurableState, s: DurableState)
    requires r.Erased() == s.Erased()
    ensures r == s.(nodes := r.nodes)
    ensures r.nodes.Keys == s.nodes.Keys
    ensures forall n | n in r.nodes :: EraseNode(r.nodes[n]) == EraseNode(s.nodes[n])
  {
    assert r.Erased().nodes.Keys == r.nodes.Keys;
    assert s.Erased().nodes.Keys == s.nodes.Keys;
    forall n | n in r.nodes ensures EraseNode(r.nodes[n]) == EraseNode(s.nodes[n]) {
      assert r.Erased().nodes[n] == s.Erased().nodes[n];
    }
  }

  lemma SameErased(r: DurableState, s: DurableState)
    requires r == s.(nodes := r.nodes)
    requires r.nodes.Keys == s.nodes.Keys
    requires forall n | n in r.nodes :: EraseNode(r.nodes[n]) == EraseNode(s.nodes[n])
    ensures r.Erased() == s.Erased()
  {
    assert r.Erased().nodes == s.Erased().nodes;
  }

  /** One operation acts on the erased state alone: neither the moment of the
      replay nor anything the journal does not carry can influence it. */
  lemma ApplyOneRespectsErasure(r: DurableState, s: DurableState, op: JournalOp, now: DateTime, later: DateTime)
    requires r.Erased() == s.Erased()
    ensures ApplyOne(r, op, now).Erased() == ApplyOne(s, op, later).Erased()
  {
    SameErasedParts(r, s);
    var r', s' := ApplyOne(r, op, now), ApplyOne(s, op, later);
    if !op.RegisterNode? {
      OnlyRegistrationTouchesNodes(s, r.nodes, op, now, later);
    }
    SameErased(r', s');
  }

  lemma {:induction false} ApplyAllRespectsErasure(r: DurableState, s: DurableState, ops: seq<JournalOp>,
                                                   now: DateTime, later: DateTime)
    requires r.Erased() == s.Erased()
    ensures ApplyAll(r, ops, now).Erased() == ApplyAll(s, ops, later).Erased()
    decreases |ops|
  {
    if ops != [] {
      var front := ops[..|ops| - 1];
      ApplyAllRespectsErasure(r, s, front, now, later);
      ApplyOneRespectsErasure(ApplyAll(r, front, now), ApplyAll(s, front, later), ops[|ops| - 1], now, later);
    }
  }

  /** Replays compose. */
  lemma ReplaysConcat(a: DurableState, ops1: seq<JournalOp>, b: DurableState,
                      ops2: seq<JournalOp>, c: DurableState)
    requires Replays(a, ops1, b) && Replays(b, ops2, c)
    ensures Replays(a, ops1 + ops2, c)
  {
    ApplyConcat(a, ops1, ops2, 0);
    ApplyAllRespectsErasure(ApplyAll(a, ops1, 0), b, ops2, 0, 0);
  }

  // ---------------------------------------------------------------------
  // Replay of the records alone
  // ---------------------------------------------------------------------

  /** Replaying `ops` on `before` gives the records of `after`. */
  ghost predicate RecordsReplay(before: DurableState, ops: seq<JournalOp>, after: DurableState) {
    ApplyAll(before, ops, 0).Records() == after.Records()
  }

  lemma SameRecordsParts(r: DurableState, s: DurableState)
    requires r.Records() == s.Records()
    ensures r == s.(nodes := r.nodes, ipam := r.ipam)
    ensures r.nodes.Keys == s.nodes.Keys
    ensures forall n | n in r.nodes :: EraseNode(r.nodes[n]) == EraseNode(s.nodes[n])
  {
    var r' := r.(ipam := s.ipam);
    assert r'.Erased() == r.Records().(ipam := s.ipam);
    assert s.Erased() == s.Records().(ipam := s.ipam);
    SameErasedParts(r', s);
  }

  lemma SameRecords(r: DurableState, s: DurableState)
    requires r == s.(nodes := r.nodes, ipam := r.ipam)
    requires r.nodes.Keys == s.nodes.Keys
    requires forall n | n in r.nodes :: EraseNode(r.nodes[n]) == EraseNode(s.nodes[n])
    ensures r.Records() == s.Records()
  {
    SameErased(r.(ipam := s.ipam), s);
    assert r.Records() == r.(ipam := s.ipam).Records();
  }

  /** The addresses have no say in what an operation does to the records. */
  lemma AddressesDoNotMatter(s: DurableState, ipam: IpamState, op: JournalOp, now: DateTime)
    ensures ApplyOne(s.(ipam := ipam), op, now).Records() == ApplyOne(s, op, now).Records()
  {
    hide ApplyOne, DurableState.Records;
    AddressesApart(s, ipam, op, now);
    RecordsIgnoreAddresses(ApplyOne(s, op, now), ApplyOne(s.(ipam := ipam), op, now).ipam);
  }

  lemma AddressesApart(s: DurableState, ipam: IpamState, op: JournalOp, now: DateTime)
    ensures var r := ApplyOne(s.(ipam := ipam), op, now); r == ApplyOne(s, op, now).(ipam := r.ipam)
  {
    hide InsertTasks, PlacedOn, BackToPending, IpamState.Allocate, IpamState.Release,
         DurableState.SetTaskState, DurableState.ReportSnapshotResult;
    match op
    case SetTaskState(t, state, exitCode) => TaskReportApart(s, ipam, t, state, exitCode);
    case ReportSnapshot(t, id, report) => SnapshotReportApart(s, ipam, t, id, report);
    case _ =>
  }

  lemma TaskReportApart(s: DurableState, ipam: IpamState, t: TaskId, state: TaskState, exitCode: Option<int>)
    ensures var r := s.(ipam := ipam).SetTaskState(t, state, exitCode).state;
            r == s.SetTaskState(t, state, exitCode).state.(ipam := r.ipam)
  {
    hide IpamState.Release;
  }

  lemma SnapshotReportApart(s: DurableState, ipam: IpamState, t: TaskId, id: SnapshotId, report: SnapshotReport)
    ensures var r := s.(ipam := ipam).ReportSnapshotResult(t, id, report).state;
            r == s.ReportSnapshotResult(t, id, report).state.(ipam := r.ipam)
  {
  }

  lemma RecordsIgnoreAddresses(s: DurableState, ipam: IpamState)
    ensures s.(ipam := ipam).Records() == s.Records()
  {
  }

  lemma ApplyOneRespectsRecords(r: DurableState, s: DurableState, op: JournalOp, now: DateTime, later: DateTime)
    requires r.Records() == s.Records()
    ensures ApplyOne(r, op, now).Records() == ApplyOne(s, op, later).Records()
  {
    hide ApplyOne;
    SameRecordsParts(r, s);
    AddressesDoNotMatter(r, s.ipam, op, now);
    SameErased(r.(ipam := s.ipam), s);
    ApplyOneRespectsErasure(r.(ipam := s.ipam), s, op, now, later);
  }

  lemma {:induction false} ApplyAllRespectsRecords(r: DurableState, s: DurableState, ops: seq<JournalOp>,
                                                   now: DateTime, later: DateTime)
    requires r.Records() == s.Records()
    ensures ApplyAll(r, ops, now).Records() == ApplyAll(s, ops, later).Records()
    decreases |ops|
  {
    hide ApplyOne, DurableState.Records;
    if ops != [] {
      var front := ops[..|ops| - 1];
      ApplyAllRespectsRecords(r, s, front, now, later);
      ApplyOneRespectsRecords(ApplyAll(r, front, now), ApplyAll(s, front, later), ops[|ops| - 1], now, later);
    }
  }

  lemma RecordsReplayConcat(a: DurableState, ops1: seq<JournalOp>, b: DurableState,
                            ops2: seq<JournalOp>, c: DurableState)
    requires RecordsReplay(a, ops1, b) && RecordsReplay(b, ops2, c)
    ensures RecordsReplay(a, ops1 + ops2, c)
  {
    hide ApplyAll, DurableState.Records;
    ApplyConcat(a, ops1, ops2, 0);
    ApplyAllRespectsRecords(ApplyAll(a, ops1, 0), b, ops2, 0, 0);
  }

  lemma ReplayGivesRecords(before: DurableState, ops: seq<JournalOp>, after: DurableState)
    requires Replays(before, ops, after)
    ensures RecordsReplay(before, ops, after)
  {
  }
}
