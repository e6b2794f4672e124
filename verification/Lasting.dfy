/** What lasts: the parts of a record no later event, crash or restart changes, and
    the events that change the others. */
module Lasting {
  import opened Types
  import opened Ordering
  import opened Ipam
  import opened Durable
  import opened Placement
  import opened Scheduling
  import opened Soundness
  import opened Runs
  import opened Recovery
  import opened Survival
  import opened Shadow
  import Discovered
  import Jobs

  // ---------------------------------------------------------------------
  // What erasure keeps
  // ---------------------------------------------------------------------

  /** The same node, up to heartbeat, underlay address and `used`. */
  predicate SameNode(a: NodeInfo, b: NodeInfo) {
    a.id == b.id && a.name == b.name && a.addr == b.addr && a.total == b.total
  }

  ghost predicate SameNodes(a: map<NodeId, NodeInfo>, b: map<NodeId, NodeInfo>) {
    && (forall n :: n in a <==> n in b)
    && (forall n | n in a && n in b :: SameNode(a[n], b[n]))
  }

  /** Equal records are equal jobs, tasks, snapshot records and nodes. */
  lemma RecordsIff(r: DurableState, s: DurableState)
    ensures r.Records() == s.Records() <==>
              r.jobs == s.jobs && r.tasks == s.tasks && r.snapshots == s.snapshots && SameNodes(r.nodes, s.nodes)
  {
    if r.Records() == s.Records() {
      SameRecordsParts(r, s);
      assert forall n | n in r.nodes && n in s.nodes :: EraseNode(r.nodes[n]) == EraseNode(s.nodes[n]);
    }
    if r.jobs == s.jobs && r.tasks == s.tasks && r.snapshots == s.snapshots && SameNodes(r.nodes, s.nodes) {
      assert r.nodes.Keys == s.nodes.Keys;
      SameRecords(r, s);
    }
  }

  /** Equal erased states are equal records with equal addresses. */
  lemma ErasedIff(r: DurableState, s: DurableState)
    ensures r.Erased() == s.Erased() <==>
              && r.jobs == s.jobs && r.tasks == s.tasks && r.snapshots == s.snapshots && SameNodes(r.nodes, s.nodes)
              && r.ipam == s.ipam
  {
    if r.Erased() == s.Erased() {
      SameErasedParts(r, s);
      assert forall n | n in r.nodes && n in s.nodes :: EraseNode(r.nodes[n]) == EraseNode(s.nodes[n]);
    }
    if r.jobs == s.jobs && r.tasks == s.tasks && r.snapshots == s.snapshots && SameNodes(r.nodes, s.nodes)
       && r.ipam == s.ipam {
      assert r.nodes.Keys == s.nodes.Keys;
      SameErased(r, s);
    }
  }

  // ---------------------------------------------------------------------
  // Tasks
  // ---------------------------------------------------------------------

  predicate Finished(state: TaskState) {
    state == Succeeded || state == Failed
  }

  /** The same spec, up to what the task is told about services. */
  ghost predicate SameSpec(a: TaskSpec, b: TaskSpec) {
    && b == a.(env := b.env)
    && (forall k | k != "BIGTOP_SERVICES" :: k in a.env <==> k in b.env)
    && (forall k | k != "BIGTOP_SERVICES" && k in a.env :: b.env[k] == a.env[k])
  }

  /** What event `e` makes of the record of task `t`: a report sets the state of an
      unfinished task, and the exit code if it finishes it; a requeue takes an assigned
      or running task off its node; a placement assigns a pending one; nothing else
      touches it. */
  ghost predicate ChangesTask(e: Event, t: TaskId, task: Task, task': Task) {
    match e
    case TaskReported(u, state, exitCode) =>
      if u != t || Finished(task.state) then task' == task
      else task' == task.(state := state, exitCode := if Finished(state) then exitCode else task.exitCode)
    case OrphanRequeued(u, _) =>
      if u != t then task' == task
      else
        && (task.state == Assigned || task.state == Running)
        && task' == task.(state := Pending, assignedNode := None, network := None)
    case TaskPlaced(u, _) =>
      || task' == task
      || (&& u == t && task.state == Pending && task'.assignedNode.Some? && SameSpec(task.spec, task'.spec)
          && task' == task.(state := Assigned, assignedNode := task'.assignedNode, network := task'.network,
                            spec := task'.spec))
    case _ => task' == task
  }

  lemma StepChangesTask(s: DurableState, e: Event, t: TaskId)
    requires KeysMatch(s) && Allowed(s, e) && t in s.tasks
    ensures t in Step(s, e).0.tasks && ChangesTask(e, t, s.tasks[t], Step(s, e).0.tasks[t])
  {
    hide PlaceOne, Copies, InsertTasks, IsValidSpec, Accounting.RecountOf, IpamState.Release;
    match e
    case JobSubmitted(spec, now, jobId, ids) =>
      if IsValidSpec(spec) {
        CreatedTasks(s, spec, now, jobId, ids, t);
      }
    case TaskPlaced(u, now) => PlacementChangesTask(s, u, now, t);
    case _ =>
  }

  lemma PlacementChangesTask(s: DurableState, u: TaskId, now: DateTime, t: TaskId)
    requires KeysMatch(s) && u in s.tasks && s.tasks[u].state.Pending? && t in s.tasks
    ensures var s' := PlaceOne(s, u, now).0;
            t in s'.tasks && ChangesTask(TaskPlaced(u, now), t, s.tasks[t], s'.tasks[t])
  {
    hide PlaceOne, Discovered.TellsServices, ApplyOne, Discovered.OnNode;
    Discovered.PlacementTells(s, u, now, now);
  }

  /** What lasts of a task: its ids, its name and its spec up to what it is told about
      services. Once it finished nothing of it changes any more. */
  ghost predicate TaskLasts(task: Task, task': Task) {
    && task'.id == task.id && task'.jobId == task.jobId && task'.name == task.name
    && SameSpec(task.spec, task'.spec)
    && (Finished(task.state) ==> task' == task)
  }

  lemma ChangedTaskLasts(e: Event, t: TaskId, task: Task, task': Task)
    requires ChangesTask(e, t, task, task')
    ensures TaskLasts(task, task')
  {
  }

  lemma TaskLastsTwice(a: Task, b: Task, c: Task)
    requires TaskLasts(a, b) && TaskLasts(b, c)
    ensures TaskLasts(a, c)
  {
  }

  lemma SameTaskLasts(task: Task)
    ensures TaskLasts(task, task)
  {
  }

  /** Every kind of crash included. */
  lemma NextTaskLasts(base: IpamState, sys: System, a: Action, t: TaskId)
    requires Backed(base, sys) && Happens(sys, a) && t in sys.live.tasks
    ensures var s' := Next(base, sys, a).live; t in s'.tasks && TaskLasts(sys.live.tasks[t], s'.tasks[t])
  {
    hide Backed, Step, Allowed, Next, TaskLasts, ChangesTask;
    NextBacked(base, sys, a);
    RecordsIff(Next(base, sys, a).live, Expected(sys, a));
    SameTaskLasts(sys.live.tasks[t]);
    if a.Serve? || a.Tear? {
      BackedIsSound(base, sys);
      SoundParts(sys.live);
      AllowedWhenItHappens(sys, a);
      StepChangesTask(sys.live, a.event, t);
      ChangedTaskLasts(a.event, t, sys.live.tasks[t], Step(sys.live, a.event).0.tasks[t]);
    }
  }

  /** Over any history, every kind of crash included, a task stays what was submitted,
      and a finished one stays as it finished. */
  lemma {:induction false} TaskLastsForever(base: IpamState, actions: seq<Action>, k: nat, l: nat, t: TaskId)
    requires base.held == map[] && base.subnets == map[] && History(base, actions)
    requires k <= l <= |actions| && t in After(base, actions[..k]).live.tasks
    ensures t in After(base, actions[..l]).live.tasks
    ensures TaskLasts(After(base, actions[..k]).live.tasks[t], After(base, actions[..l]).live.tasks[t])
    decreases l - k
  {
    hide Backed, Happens, Next, TaskLasts;
    var task := After(base, actions[..k]).live.tasks[t];
    SameTaskLasts(task);
    if k < l {
      TaskLastsForever(base, actions, k, l - 1, t);
      PrefixValid(base, actions, l);
      assert actions[..l][..l - 1] == actions[..l - 1];
      HistoryBacked(base, actions[..l - 1]);
      var sys := After(base, actions[..l - 1]);
      NextTaskLasts(base, sys, actions[l - 1], t);
      TaskLastsTwice(task, sys.live.tasks[t], After(base, actions[..l]).live.tasks[t]);
    }
  }

  lemma StepKeepsJob(s: DurableState, e: Event, j: JobId)
    requires Allowed(s, e) && j in s.jobs
    ensures j in Step(s, e).0.jobs && Step(s, e).0.jobs[j] == s.jobs[j]
  {
    hide PlaceOne, Copies, InsertTasks, IsValidSpec, Accounting.RecountOf;
    if e.TaskPlaced? {
      PlacementKeepsJobs(s, e.t, e.now);
    }
  }

  lemma PlacementKeepsJobs(s: DurableState, t: TaskId, now: DateTime)
    ensures PlaceOne(s, t, now).0.jobs == s.jobs && PlaceOne(s, t, now).0.snapshots == s.snapshots
  {
    hide PickNode, Discovery.ServicesFor, PlacedOn, IpamState.Allocate, IpamState.Release;
  }

  lemma {:induction false} JobLasts(base: IpamState, actions: seq<Action>, k: nat, l: nat, j: JobId)
    requires base.held == map[] && base.subnets == map[] && History(base, actions)
    requires k <= l <= |actions| && j in After(base, actions[..k]).live.jobs
    ensures j in After(base, actions[..l]).live.jobs
    ensures After(base, actions[..l]).live.jobs[j] == After(base, actions[..k]).live.jobs[j]
    decreases l - k
  {
    hide Backed, Happens, Next, Step, Allowed, DurableState.Records;
    if k < l {
      JobLasts(base, actions, k, l - 1, j);
      PrefixValid(base, actions, l);
      assert actions[..l][..l - 1] == actions[..l - 1];
      HistoryBacked(base, actions[..l - 1]);
      var sys, a := After(base, actions[..l - 1]), actions[l - 1];
      NextBacked(base, sys, a);
      RecordsIff(Next(base, sys, a).live, Expected(sys, a));
      if a.Serve? || a.Tear? {
        AllowedWhenItHappens(sys, a);
        StepKeepsJob(sys.live, a.event, j);
      }
    }
  }

  lemma SubmissionServed(base: IpamState, actions: seq<Action>, k: nat, spec: JobSpec, now: DateTime, jobId: JobId,
                         ids: seq<TaskId>, i: nat)
    requires k < |actions| && actions[k] == Serve(JobSubmitted(spec, now, jobId, ids))
    requires Happens(After(base, actions[..k]), actions[k]) && IsValidSpec(spec) && Distinct(ids) && i < |ids|
    ensures |ids| == |Copies(spec.tasks)|
    ensures var (s, copy) := (After(base, actions[..k + 1]).live, Copies(spec.tasks)[i]);
            && jobId in s.jobs && s.jobs[jobId] == JobRecord(spec.name, now)
            && ids[i] in s.tasks
            && s.tasks[ids[i]] == Task(ids[i], jobId, copy.name, copy, Pending, None, None, None)
  {
    hide IsValidSpec, Copies, DurableState.CreateJob;
    assert actions[..k + 1][..k] == actions[..k];
    Jobs.CopiesSize(spec.tasks);
    Jobs.CreateJobExpands(After(base, actions[..k]).live, spec, now, jobId, ids);
  }

  /** A submission that was served is there at any later moment of the history: the
      record of the job, and under every id a task with the name and, up to what it is
      told about services, the spec of its copy. */
  lemma SubmissionLasts(base: IpamState, actions: seq<Action>, k: nat, l: nat, spec: JobSpec, now: DateTime,
                        jobId: JobId, ids: seq<TaskId>, i: nat)
    requires base.held == map[] && base.subnets == map[] && History(base, actions) && k < l <= |actions|
    requires actions[k] == Serve(JobSubmitted(spec, now, jobId, ids)) && IsValidSpec(spec)
    requires Distinct(ids) && i < |ids|
    ensures |ids| == |Copies(spec.tasks)|
    ensures var s := After(base, actions[..l]).live;
            && jobId in s.jobs && s.jobs[jobId] == JobRecord(spec.name, now)
            && ids[i] in s.tasks
            && var (task, copy) := (s.tasks[ids[i]], Copies(spec.tasks)[i]);
               task.id == ids[i] && task.jobId == jobId && task.name == copy.name && SameSpec(copy, task.spec)
  {
    hide IsValidSpec, Copies, History, SameSpec, Happens, After;
    PrefixValid(base, actions, k + 1);
    SubmissionServed(base, actions, k, spec, now, jobId, ids, i);
    JobLasts(base, actions, k + 1, l, jobId);
    TaskLastsForever(base, actions, k + 1, l, ids[i]);
  }

  // ---------------------------------------------------------------------
  // Nodes
  // ---------------------------------------------------------------------

  lemma StepKeepsNode(s: DurableState, e: Event, n: NodeId)
    requires KeysMatch(s) && Allowed(s, e) && n in s.nodes
    ensures n in Step(s, e).0.nodes && SameNode(s.nodes[n], Step(s, e).0.nodes[n])
  {
    hide PlaceOne, Copies, InsertTasks, IsValidSpec, Accounting.RecountOf, IpamState.Release, BackToPending,
         DurableState.SetTaskState, DurableState.ReportSnapshotResult;
    match e
    case TaskReported(t, state, exitCode) => TaskReportIgnoresNodes(s, s.nodes, t, state, exitCode);
    case SnapshotReported(t, id, report) => SnapshotReportIgnoresNodes(s, s.nodes, t, id, report);
    case TaskPlaced(t, now) => PlaceTouchesOneTask(s, t, now);
    case _ =>
  }

  lemma {:induction false} NodeLasts(base: IpamState, actions: seq<Action>, k: nat, l: nat, n: NodeId)
    requires base.held == map[] && base.subnets == map[] && History(base, actions)
    requires k <= l <= |actions| && n in After(base, actions[..k]).live.nodes
    ensures n in After(base, actions[..l]).live.nodes
    ensures SameNode(After(base, actions[..k]).live.nodes[n], After(base, actions[..l]).live.nodes[n])
    decreases l - k
  {
    hide Backed, Happens, Next, Step, Allowed, DurableState.Records;
    if k < l {
      NodeLasts(base, actions, k, l - 1, n);
      PrefixValid(base, actions, l);
      assert actions[..l][..l - 1] == actions[..l - 1];
      HistoryBacked(base, actions[..l - 1]);
      var sys, a := After(base, actions[..l - 1]), actions[l - 1];
      NextBacked(base, sys, a);
      RecordsIff(Next(base, sys, a).live, Expected(sys, a));
      if a.Serve? || a.Tear? {
        AllowedWhenItHappens(sys, a);
        BackedIsSound(base, sys);
        SoundParts(sys.live);
        StepKeepsNode(sys.live, a.event, n);
      }
    }
  }

  /** A node that registered is known at any later moment of the history under the id
      it was given, with the name, the address and the resources it registered with. */
  lemma RegistrationLasts(base: IpamState, actions: seq<Action>, k: nat, l: nat, name: string, addr: string,
                          total: Resources, underlay: Option<Ip>, now: DateTime, id: NodeId)
    requires base.held == map[] && base.subnets == map[] && History(base, actions) && k < l <= |actions|
    requires actions[k] == Serve(NodeRegistered(name, addr, total, underlay, now, id))
    ensures var nodes := After(base, actions[..l]).live.nodes;
            && id in nodes && nodes[id].id == id && nodes[id].name == name && nodes[id].addr == addr
            && nodes[id].total == total
    ensures var nodes := After(base, actions[..k + 1]).live.nodes;
            && id in nodes && nodes[id].underlayIp == underlay && nodes[id].used == Resources(0, 0)
            && nodes[id].lastHeartbeat == now
  {
    hide History, Copies, InsertTasks, IsValidSpec, PlaceOne, Accounting.RecountOf, Recover;
    PrefixValid(base, actions, k + 1);
    assert actions[..k + 1][..k] == actions[..k];
    NodeLasts(base, actions, k + 1, l, id);
  }

  // ---------------------------------------------------------------------
  // Snapshot records
  // ---------------------------------------------------------------------

  predicate Final(state: SnapshotState) {
    state == Done || state == SnapFailed
  }

  /** A report that moves an unfinished record on: out of `Requested` to any other
      state, out of `InProgress` to a final one. */
  predicate MovesOn(from: SnapshotState, to: SnapshotState) {
    && !Final(from) && to != Requested
    && (from == InProgress ==> Final(to))
  }

  function Given(path: Option<string>, before: string): string {
    if path.Some? then path.value else before
  }

  /** What event `e` makes of snapshot record `id`: a report for the task of the record
      that moves it on sets state, node and error, and each path it names; nothing else
      touches it. */
  predicate ChangesSnapshot(e: Event, id: SnapshotId, before: SnapshotRecord, after: SnapshotRecord) {
    if e.SnapshotReported? && e.snapshotId == id && e.t == before.taskId && MovesOn(before.state, e.report.state) then
      && after.id == before.id && after.taskId == before.taskId && after.createdAt == before.createdAt
      && after.state == e.report.state && after.nodeId == e.report.nodeId && after.error == e.report.error
      && after.memFilePath == Given(e.report.memFilePath, before.memFilePath)
      && after.snapshotPath == Given(e.report.snapshotPath, before.snapshotPath)
    else after == before
  }

  lemma StepChangesSnapshot(s: DurableState, e: Event, id: SnapshotId)
    requires Allowed(s, e) && id in s.snapshots
    ensures id in Step(s, e).0.snapshots && ChangesSnapshot(e, id, s.snapshots[id], Step(s, e).0.snapshots[id])
  {
    hide PlaceOne, Copies, InsertTasks, IsValidSpec, Accounting.RecountOf;
    if e.TaskPlaced? {
      PlacementKeepsJobs(s, e.t, e.now);
    }
  }

  /** What lasts of a snapshot record: its id, its task and its time. Once it is final
      nothing of it changes any more. */
  predicate SnapshotLasts(before: SnapshotRecord, after: SnapshotRecord) {
    && after.id == before.id && after.taskId == before.taskId && after.createdAt == before.createdAt
    && (Final(before.state) ==> after == before)
  }

  lemma {:induction false} SnapshotLastsForever(base: IpamState, actions: seq<Action>, k: nat, l: nat, id: SnapshotId)
    requires base.held == map[] && base.subnets == map[] && History(base, actions)
    requires k <= l <= |actions| && id in After(base, actions[..k]).live.snapshots
    ensures id in After(base, actions[..l]).live.snapshots
    ensures SnapshotLasts(After(base, actions[..k]).live.snapshots[id], After(base, actions[..l]).live.snapshots[id])
    decreases l - k
  {
    hide Backed, Happens, Next, Step, Allowed, DurableState.Records;
    if k < l {
      SnapshotLastsForever(base, actions, k, l - 1, id);
      PrefixValid(base, actions, l);
      assert actions[..l][..l - 1] == actions[..l - 1];
      HistoryBacked(base, actions[..l - 1]);
      var sys, a := After(base, actions[..l - 1]), actions[l - 1];
      NextBacked(base, sys, a);
      RecordsIff(Next(base, sys, a).live, Expected(sys, a));
      if a.Serve? || a.Tear? {
        AllowedWhenItHappens(sys, a);
        StepChangesSnapshot(sys.live, a.event, id);
      }
    }
  }

  /** A snapshot is requested exactly of a running task that sits on a node; the record
      names the task and that node and waits in `Requested`. */
  lemma RequestAnswered(s: DurableState, t: TaskId, mem: Option<string>, path: Option<string>, now: DateTime,
                        id: SnapshotId)
    ensures var out := s.RequestSnapshot(t, mem, path, now, id);
            if t in s.tasks && s.tasks[t].state == Running && s.tasks[t].assignedNode.Some? then
              && out.result.Ok? && id in out.state.snapshots && out.result.value == out.state.snapshots[id]
              && out.state.snapshots - {id} == s.snapshots - {id} && out.state == s.(snapshots := out.state.snapshots)
              && var r := out.result.value;
                 && r.id == id && r.taskId == t && s.tasks[t].assignedNode == Some(r.nodeId)
                 && r.state == Requested && r.error == None && r.createdAt == now
            else out.state == s && out.ops == [] && out.result == Err(if t in s.tasks then Conflict else NotFound)
  {
  }

  /** A snapshot report succeeds exactly if the record is one of that task and the
      report moves it on. An unknown record, or one of another task, is not found, unless
      the report goes back to `Requested`, which is a conflict whatever it is about. */
  lemma SnapshotReportAnswered(s: DurableState, t: TaskId, id: SnapshotId, report: SnapshotReport)
    ensures var out := s.ReportSnapshotResult(t, id, report);
            var known := id in s.snapshots && s.snapshots[id].taskId == t;
            && (out.result.Ok? <==> known && MovesOn(s.snapshots[id].state, report.state))
            && (out.result == Err(NotFound) <==> !known && report.state != Requested)
            && (out.result.Err? ==> out.state == s && out.ops == [] && out.result.error != InvalidJobSpec)
  {
  }

  /** The path an observer is shown: an empty one is none. */
  function Shown(path: Option<string>): Option<string> {
    if path == Some("") then None else path
  }

  /** A request followed by a report: the observer sees the state and the error of the
      report, and of each path the one reported, or else the one requested. */
  lemma RequestThenReport(s: DurableState, t: TaskId, mem: Option<string>, path: Option<string>, now: DateTime,
                          id: SnapshotId, report: SnapshotReport, later: DateTime)
    requires t in s.tasks && s.tasks[t].state == Running && s.tasks[t].assignedNode.Some?
    requires report.state != Requested
    ensures var s1 := s.RequestSnapshot(t, mem, path, now, id).state;
            var out := s1.ReportSnapshotResult(t, id, report);
            && out.result.Ok? && out.result.value.nodeId == report.nodeId
            && Observe(s1, id, later) == Observation(Some(Requested), None, Shown(mem), Shown(path), later)
            && Observe(out.state, id, later)
               == Observation(Some(report.state), report.error,
                              if report.memFilePath.Some? then Shown(report.memFilePath) else Shown(mem),
                              if report.snapshotPath.Some? then Shown(report.snapshotPath) else Shown(path), later)
  {
  }

  // ---------------------------------------------------------------------
  // Answers to reports and heartbeats
  // ---------------------------------------------------------------------

  /** A task report is refused exactly if the task is unknown or finished, and then
      changes nothing. A report that finishes a task takes its address, and no other
      does. */
  lemma TaskReportAnswered(s: DurableState, t: TaskId, state: TaskState, exitCode: Option<int>)
    ensures var out := s.SetTaskState(t, state, exitCode);
            if t in s.tasks && !Finished(s.tasks[t].state) then
              && out.result == Ok(()) && t in out.state.tasks
              && ChangesTask(TaskReported(t, state, exitCode), t, s.tasks[t], out.state.tasks[t])
              && out.state == s.(tasks := s.tasks[t := out.state.tasks[t]], ipam := out.state.ipam)
              && out.state.ipam == s.ipam.(held := if Finished(state) then s.ipam.held - {t} else s.ipam.held)
            else out.state == s && out.ops == [] && out.result == Err(if t in s.tasks then Conflict else NotFound)
  {
  }

  /** A registration always succeeds and adds one node. */
  lemma RegistrationAnswered(s: DurableState, name: string, addr: string, total: Resources, underlay: Option<Ip>,
                             now: DateTime, id: NodeId)
    ensures var out := s.RegisterNode(name, addr, total, underlay, now, id);
            && out.result == Ok(id) && id in out.state.nodes
            && out.state == s.(nodes := s.nodes[id := out.state.nodes[id]])
            && out.ops == [JournalOp.RegisterNode(out.state.nodes[id])]
            && var node := out.state.nodes[id];
               && node.id == id && node.name == name && node.addr == addr && node.underlayIp == underlay
               && node.total == total && node.used == Resources(0, 0) && node.lastHeartbeat == now
  {
  }

  /** A heartbeat of a known node is heard now, brings the underlay address if it has
      one, and changes nothing else; one of an unknown node is refused. */
  lemma HeartbeatAnswered(s: DurableState, n: NodeId, underlay: Option<Ip>, now: DateTime)
    ensures var out := s.Heartbeat(n, underlay, now);
            && out.ops == []
            && (n !in s.nodes ==> out.result == Err(NotFound) && out.state == s)
            && (n in s.nodes ==>
                  && out.result == Ok(()) && n in out.state.nodes && SameNode(s.nodes[n], out.state.nodes[n])
                  && out.state.nodes[n].used == s.nodes[n].used && out.state.nodes[n].lastHeartbeat == now
                  && (underlay.Some? ==> out.state.nodes[n].underlayIp == underlay)
                  && (underlay.None? ==> out.state.nodes[n].underlayIp == s.nodes[n].underlayIp)
                  && out.state == s.(nodes := s.nodes[n := out.state.nodes[n]]))
  {
  }

  // ---------------------------------------------------------------------
  // Nothing comes from nowhere
  // ---------------------------------------------------------------------

  /** The events that make a job, a task, a node or a snapshot record. */
  predicate MakesJob(e: Event, j: JobId) {
    e.JobSubmitted? && e.jobId == j
  }

  predicate MakesTask(e: Event, t: TaskId) {
    e.JobSubmitted? && t in e.ids
  }

  predicate MakesNode(e: Event, n: NodeId) {
    e.NodeRegistered? && e.nodeId == n
  }

  predicate MakesSnapshot(e: Event, id: SnapshotId) {
    e.SnapshotRequested? && e.snapshotId == id
  }

  lemma StepMakes(s: DurableState, e: Event, x: string)
    requires KeysMatch(s) && Allowed(s, e)
    ensures x in Step(s, e).0.jobs ==> x in s.jobs || MakesJob(e, x)
    ensures x in Step(s, e).0.tasks ==> x in s.tasks || MakesTask(e, x)
    ensures x in Step(s, e).0.nodes ==> x in s.nodes || MakesNode(e, x)
    ensures x in Step(s, e).0.snapshots ==> x in s.snapshots || MakesSnapshot(e, x)
  {
    hide PlaceOne, Copies, InsertTasks, IsValidSpec, Accounting.RecountOf, IpamState.Release, BackToPending;
    match e
    case JobSubmitted(spec, now, jobId, ids) =>
      if IsValidSpec(spec) {
        InsertTasksLookup(s.tasks, NewTasks(Copies(spec.tasks), jobId, ids), x);
      }
    case TaskPlaced(t, now) =>
      PlacementKeepsJobs(s, t, now);
      PlaceTouchesOneTask(s, t, now);
    case _ =>
  }

  /** Event `made` of the history was served, or was being served when a crash hit. */
  ghost predicate Occurred(actions: seq<Action>, made: Event -> bool) {
    exists k :: 0 <= k < |actions| && (actions[k].Serve? || actions[k].Tear?) && made(actions[k].event)
  }

  lemma OccurredBefore(actions: seq<Action>, made: Event -> bool)
    requires actions != []
    ensures Occurred(actions[..|actions| - 1], made) ==> Occurred(actions, made)
    ensures (actions[|actions| - 1].Serve? || actions[|actions| - 1].Tear?) && made(actions[|actions| - 1].event)
            ==> Occurred(actions, made)
  {
    var front := actions[..|actions| - 1];
    assert forall k | 0 <= k < |front| :: front[k] == actions[k];
  }

  /** Whatever the server knows at any moment of any history it was told in that history:
      crashes and replays make up no job, task, node or snapshot record. */
  lemma {:induction false} NothingFromNowhere(base: IpamState, actions: seq<Action>, x: string)
    requires base.held == map[] && base.subnets == map[] && History(base, actions)
    ensures var s := After(base, actions).live;
            && (x in s.jobs ==> Occurred(actions, e => MakesJob(e, x)))
            && (x in s.tasks ==> Occurred(actions, e => MakesTask(e, x)))
            && (x in s.nodes ==> Occurred(actions, e => MakesNode(e, x)))
            && (x in s.snapshots ==> Occurred(actions, e => MakesSnapshot(e, x)))
  {
    hide Backed, Happens, Next, Step, Allowed, DurableState.Records, Occurred, MakesJob, MakesTask, MakesNode,
         MakesSnapshot;
    if actions != [] {
      var front, a := actions[..|actions| - 1], actions[|actions| - 1];
      var sys := After(base, front);
      NothingFromNowhere(base, front, x);
      HistoryBacked(base, front);
      NextBacked(base, sys, a);
      RecordsIff(Next(base, sys, a).live, Expected(sys, a));
      if a.Serve? || a.Tear? {
        AllowedWhenItHappens(sys, a);
        BackedIsSound(base, sys);
        SoundParts(sys.live);
        StepMakes(sys.live, a.event, x);
      }
      OccurredBefore(actions, e => MakesJob(e, x));
      OccurredBefore(actions, e => MakesTask(e, x));
      OccurredBefore(actions, e => MakesNode(e, x));
      OccurredBefore(actions, e => MakesSnapshot(e, x));
    }
  }
}
