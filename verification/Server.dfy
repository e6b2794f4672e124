/** The server state the API and the scheduler update in place, with the
    journal attached to it. Each method is tied to the function on durable
    states it carries out and to the operations it appends. */
module Server {
  import opened Types
  import opened Ordering
  import opened Ipam
  import opened Durable
  import opened Placement
  import opened Accounting
  import opened Discovery
  import opened ServiceView
  import opened Scheduling
  import opened JournalFile
  import opened Recovery

  /** The data directory: the compacted snapshot and the journal file. The
      snapshot file is replaced atomically, so it is kept as a value. */
  class DataDir {
    var snapshot: Option<DurableState>
    var journal: Option<seq<Byte>>

    constructor ()
      ensures snapshot == None && journal == None
    {
      snapshot, journal := None, None;
    }
  }

  /** Append-only writer on the journal of a directory. */
  class JournalWriter {
    const dir: DataDir
    const codec: Codec
    /** The file as the writer found it. */
    ghost const found: seq<Byte>
    var opsWritten: nat
    /** The operations written through this handle. */
    ghost var log: seq<JournalOp>

    ghost predicate Valid()
      reads this, dir
    {
      && opsWritten == |log|
      && dir.journal == Some(found + codec.Serialize(log))
    }

    /** Open the journal for appending, creating it if it is missing. */
    constructor Open(dir: DataDir, codec: Codec)
      modifies dir`journal
      ensures Valid() && this.dir == dir && this.codec == codec && log == []
      ensures found == if old(dir.journal).Some? then old(dir.journal).value else []
    {
      this.dir, this.codec := dir, codec;
      found := if dir.journal.Some? then dir.journal.value else [];
      opsWritten, log := 0, [];
      new;
      if dir.journal.None? {
        dir.journal := Some([]);
      }
      assert found + codec.Serialize(log) == found;
    }

    /** Append one operation; it is on disk when the call returns. */
    method Append(op: JournalOp)
      requires Valid()
      modifies this, dir`journal
      ensures Valid() && log == old(log) + [op]
      ensures old(dir.journal).Some? && dir.journal == Some(old(dir.journal).value + codec.encode(op) + [10])
    {
      SerializeExtend(codec, log, op);
      assert found + codec.Serialize(log + [op]) == found + codec.Serialize(log) + codec.Line(op);
      dir.journal := Some(dir.journal.value + codec.encode(op) + [NEWLINE]);
      opsWritten := opsWritten + 1;
      log := log + [op];
      assert dir.journal.value == found + codec.Serialize(log);
    }
  }

  class StateInner {
    var jobs: map<JobId, JobRecord>
    var tasks: map<TaskId, Task>
    var nodes: map<NodeId, NodeInfo>
    var snapshots: map<SnapshotId, SnapshotRecord>
    const ipam: Allocator
    /** Null without a data directory. */
    var journal: JournalWriter?

    constructor (ipam: Allocator)
      ensures Valid() && journal == null && this.ipam == ipam
      ensures View() == EmptyState(ipam.State())
    {
      this.ipam := ipam;
      jobs, tasks, nodes, snapshots := map[], map[], map[], map[];
      journal := null;
    }

    ghost predicate Valid()
      reads this`journal, Journals()
    {
      journal != null ==> journal.Valid()
    }

    /** The journal and the directory behind it. */
    ghost function Journals(): set<object>
      reads this`journal
    {
      if journal == null then {} else {journal, journal.dir}
    }

    /** `DurableState::capture`. */
    function View(): DurableState
      reads this, ipam
    {
      DurableState(jobs, tasks, nodes, snapshots, ipam.State())
    }

    /** The compacted snapshot in the directory behind the journal. */
    ghost function SnapshotFile(): Option<DurableState>
      reads this`journal, Journals()
    {
      if journal == null then None else journal.dir.snapshot
    }

    /** The operations journaled so far through the attached handle. */
    ghost function Log(): seq<JournalOp>
      reads this`journal, Journals()
    {
      if journal == null then [] else journal.log
    }

    /** Journal one operation; without a data directory nothing happens. */
    method Record(op: JournalOp)
      requires Valid()
      modifies Journals()
      ensures Valid() && journal == old(journal) && SnapshotFile() == old(SnapshotFile()) && View() == old(View())
      ensures journal != null ==> Log() == old(Log()) + [op]
    {
      if journal != null {
        journal.Append(op);
      }
    }

    /** Give back the address of a task, if it holds one, and journal that. */
    method ReleaseAddress(id: TaskId)
      requires Valid()
      modifies ipam, Journals()
      ensures Valid() && journal == old(journal) && SnapshotFile() == old(SnapshotFile())
      ensures View() == old(View()).(ipam := old(ipam.State()).Release(id).1)
      ensures journal != null ==>
                Log() == old(Log()) + if old(ipam.State()).Release(id).0 then [IpamRelease(id)] else []
    {
      var released := ipam.Release(id);
      if released {
        Record(IpamRelease(id));
      }
    }

    // -------------------------------------------------------------------
    // API mutations
    // -------------------------------------------------------------------

    /** `ids` are the task ids `generate` delivers, one per expanded task. */
    method CreateJob(spec: JobSpec, now: DateTime, jobId: JobId, ids: seq<TaskId>) returns (r: Result<JobId, Error>)
      requires Valid()
      requires IsValidSpec(spec) ==> |ids| == |Copies(spec.tasks)|
      modifies this, Journals()
      ensures Valid() && journal == old(journal) && SnapshotFile() == old(SnapshotFile())
      ensures var out := old(View()).CreateJob(spec, now, jobId, ids);
              r == out.result && View() == out.state && (journal != null ==> Log() == old(Log()) + out.ops)
    {
      if !IsValidSpec(spec) {
        return Err(InvalidJobSpec);
      }
      hide Valid, Copies, NewTasks, InsertTasks;
      var created := ExpandSpec(spec, jobId, ids);
      jobs := jobs[jobId := JobRecord(spec.name, now)];
      Record(JournalOp.CreateJob(jobId, spec.name, now, created));
      return Ok(jobId);
    }

    /** The outer loop of `CreateJob`. */
    method ExpandSpec(spec: JobSpec, jobId: JobId, ids: seq<TaskId>) returns (created: seq<Task>)
      requires |ids| == |Copies(spec.tasks)|
      modifies this`tasks
      ensures created == NewTasks(Copies(spec.tasks), jobId, ids) && tasks == InsertTasks(old(tasks), created)
    {
      hide Copies, NewTasks, InsertTasks;
      NoTasksYet(tasks, jobId);
      assert spec.tasks[..0] == [] && ids[..0] == [];
      created := [];
      ghost var all := Copies(spec.tasks);
      var i := 0;
      while i < |spec.tasks|
        invariant 0 <= i <= |spec.tasks|
        invariant Copies(spec.tasks[..i]) <= all && |created| == |Copies(spec.tasks[..i])|
        invariant created == NewTasks(Copies(spec.tasks[..i]), jobId, ids[..|created|])
        invariant tasks == InsertTasks(old(tasks), created)
      {
        CopiesExtend(spec.tasks, i);
        created := InsertCopies(spec.tasks[i], jobId, ids, created, Copies(spec.tasks[..i]), old(tasks));
        i := i + 1;
      }
      assert spec.tasks[..|spec.tasks|] == spec.tasks && ids[..|ids|] == ids;
    }

    /** The inner loop of `CreateJob`: `spec.count` tasks for one task spec. */
    method InsertCopies(spec: TaskSpec, jobId: JobId, ids: seq<TaskId>, created: seq<Task>,
                        ghost done: seq<TaskSpec>, ghost before: map<TaskId, Task>) returns (r: seq<Task>)
      requires |created| == |done| && |created| + spec.count <= |ids|
      requires created == NewTasks(done, jobId, ids[..|created|])
      requires tasks == InsertTasks(before, created)
      modifies this`tasks
      ensures var all := done + Repeated(spec.(count := 1), spec.count);
              |r| == |all| && r == NewTasks(all, jobId, ids[..|all|])
      ensures tasks == InsertTasks(before, r)
    {
      hide NewTasks, InsertTasks;
      r := created;
      var one := spec.(count := 1);
      ghost var all := done;
      var j := 0;
      while j < spec.count
        invariant 0 <= j <= spec.count
        invariant all == done + Repeated(one, j) && |r| == |all|
        invariant r == NewTasks(all, jobId, ids[..|r|])
        invariant tasks == InsertTasks(before, r)
      {
        var task := Task(ids[|r|], jobId, one.name, one, Pending, None, None, None);
        NewTasksExtend(all, one, jobId, ids);
        InsertTasksExtend(before, r, task);
        tasks := tasks[task.id := task];
        r := r + [task];
        all := all + [one];
        j := j + 1;
      }
    }

    method RegisterNode(name: string, addr: string, total: Resources, underlayIp: Option<Ip>, now: DateTime, id: NodeId)
      returns (r: Result<NodeId, Error>)
      requires Valid()
      modifies this, Journals()
      ensures Valid() && journal == old(journal) && SnapshotFile() == old(SnapshotFile())
      ensures var out := old(View()).RegisterNode(name, addr, total, underlayIp, now, id);
              r == out.result && View() == out.state && (journal != null ==> Log() == old(Log()) + out.ops)
    {
      var node := NodeInfo(id, name, addr, underlayIp, total, NO_RESOURCES, now);
      nodes := nodes[id := node];
      Record(JournalOp.RegisterNode(node));
      return Ok(id);
    }

    method Heartbeat(id: NodeId, underlayIp: Option<Ip>, now: DateTime) returns (r: Result<(), Error>)
      requires Valid()
      modifies this`nodes
      ensures Valid() && journal == old(journal) && Log() == old(Log())
      ensures var out := old(View()).Heartbeat(id, underlayIp, now); r == out.result && View() == out.state
    {
      if id !in nodes {
        return Err(NotFound);
      }
      nodes := nodes[id := nodes[id].(lastHeartbeat := now)];
      if underlayIp.Some? {
        nodes := nodes[id := nodes[id].(underlayIp := underlayIp)];
      }
      return Ok(());
    }

    method SetTaskState(id: TaskId, state: TaskState, exitCode: Option<int>) returns (r: Result<(), Error>)
      requires Valid()
      modifies this, ipam, Journals()
      ensures Valid() && journal == old(journal) && SnapshotFile() == old(SnapshotFile())
      ensures var out := old(View()).SetTaskState(id, state, exitCode);
              r == out.result && View() == out.state && (journal != null ==> Log() == old(Log()) + out.ops)
    {
      hide Valid;
      var terminal := state.IsTerminal();
      if id !in tasks {
        return Err(NotFound);
      }
      if tasks[id].state.IsTerminal() {
        return Err(Conflict);
      }
      tasks := tasks[id := tasks[id].(state := state)];
      if terminal {
        tasks := tasks[id := tasks[id].(exitCode := exitCode)];
      }
      if terminal {
        ReleaseAddress(id);
      }
      Record(JournalOp.SetTaskState(id, state, exitCode));
      return Ok(());
    }

    method RequestSnapshot(t: TaskId, memFilePath: Option<string>, snapshotPath: Option<string>, now: DateTime,
                           id: SnapshotId) returns (r: Result<SnapshotRecord, Error>)
      requires Valid()
      modifies this, Journals()
      ensures Valid() && journal == old(journal) && SnapshotFile() == old(SnapshotFile())
      ensures var out := old(View()).RequestSnapshot(t, memFilePath, snapshotPath, now, id);
              r == out.result && View() == out.state && (journal != null ==> Log() == old(Log()) + out.ops)
    {
      if t !in tasks {
        return Err(NotFound);
      }
      var task := tasks[t];
      if !task.state.Running? {
        return Err(Conflict);
      }
      if task.assignedNode.None? {
        return Err(Conflict);
      }
      var record := SnapshotRecord(id, t, task.assignedNode.value, OrEmpty(memFilePath), OrEmpty(snapshotPath),
                                   Requested, None, now);
      snapshots := snapshots[id := record];
      Record(JournalOp.RequestSnapshot(record));
      return Ok(record);
    }

    method ReportSnapshotResult(t: TaskId, id: SnapshotId, report: SnapshotReport)
      returns (r: Result<SnapshotRecord, Error>)
      requires Valid()
      modifies this, Journals()
      ensures Valid() && journal == old(journal) && SnapshotFile() == old(SnapshotFile())
      ensures var out := old(View()).ReportSnapshotResult(t, id, report);
              r == out.result && View() == out.state && (journal != null ==> Log() == old(Log()) + out.ops)
    {
      if report.state.Requested? {
        return Err(Conflict);
      }
      if id !in snapshots {
        return Err(NotFound);
      }
      var record := snapshots[id];
      if record.taskId != t {
        return Err(NotFound);
      }
      if !AcceptsReport(record.state, report.state) {
        return Err(Conflict);
      }
      record := record.(state := report.state, nodeId := report.nodeId, error := report.error);
      if report.memFilePath.Some? {
        record := record.(memFilePath := report.memFilePath.value);
      }
      if report.snapshotPath.Some? {
        record := record.(snapshotPath := report.snapshotPath.value);
      }
      snapshots := snapshots[id := record];
      Record(ReportSnapshot(t, id, report));
      return Ok(record);
    }

    // -------------------------------------------------------------------
    // The scheduler pass
    // -------------------------------------------------------------------

    /** Requeue the tasks that dead nodes leave behind. `order`
        is the order in which the task map delivered them. */
    method RequeueDeadNodes(now: DateTime) returns (ghost order: seq<TaskId>)
      requires Valid()
      modifies this, ipam, Journals()
      ensures Valid() && journal == old(journal) && SnapshotFile() == old(SnapshotFile())
      ensures Enumerates(order, Orphans(old(View()), now))
      ensures var (after, ops) := RequeueAll(old(View()), order);
              View() == after && (journal != null ==> Log() == old(Log()) + ops)
    {
      var dead := set n | n in nodes && !nodes[n].IsAlive(now);
      if dead == {} {
        order := [];
        assert forall t | t in Orphans(View(), now) :: tasks[t].assignedNode.value in dead;
        return;
      }
      var orphans := AnyOrder(set t | t in tasks && tasks[t].state.HoldsResources()
                                      && tasks[t].assignedNode.Some? && tasks[t].assignedNode.value in dead);
      order := orphans;
      assert Enumerates(order, Orphans(View(), now)) by {
        assert Orphans(View(), now) == set t | t in tasks && tasks[t].state.HoldsResources()
                                       && tasks[t].assignedNode.Some? && tasks[t].assignedNode.value in dead;
      }
      RequeueEach(orphans);
    }

    /** The requeue loop. */
    method RequeueEach(orphans: seq<TaskId>)
      requires Valid()
      modifies this, ipam, Journals()
      ensures Valid() && journal == old(journal) && SnapshotFile() == old(SnapshotFile())
      ensures var (after, ops) := RequeueAll(old(View()), orphans);
              View() == after && (journal != null ==> Log() == old(Log()) + ops)
    {
      hide RequeueOne, RequeueAll, Valid;
      var i := 0;
      assert orphans[..0] == [];
      NothingToDo(View(), 0);
      while i < |orphans|
        invariant 0 <= i <= |orphans|
        invariant Valid() && journal == old(journal) && SnapshotFile() == old(SnapshotFile())
        invariant View() == RequeueAll(old(View()), orphans[..i]).0
        invariant journal != null ==> Log() == old(Log()) + RequeueAll(old(View()), orphans[..i]).1
      {
        RequeueAllStep(old(View()), orphans, i);
        RequeueTask(orphans[i]);
        i := i + 1;
      }
      assert orphans[..|orphans|] == orphans;
    }

    /** The body of the requeue loop for one orphan. */
    method RequeueTask(id: TaskId)
      requires Valid()
      modifies this, ipam, Journals()
      ensures Valid() && journal == old(journal) && SnapshotFile() == old(SnapshotFile())
      ensures var (after, ops) := RequeueOne(old(View()), id);
              View() == after && (journal != null ==> Log() == old(Log()) + ops)
    {
      hide Valid;
      if id in tasks {
        tasks := tasks[id := tasks[id].(state := Pending, assignedNode := None, network := None)];
      }
      ReleaseAddress(id);
      Record(TaskRequeued(id));
    }

    /** Recompute `used` from the tasks that hold resources, visiting them in
        any order. */
    method RecountUsed()
      modifies this`nodes
      ensures View() == Recounted(old(View()))
    {
      hide RecountOf;
      nodes := map n | n in nodes :: nodes[n].(used := NO_RESOURCES);
      var held := SumHeld();
      var order := AnyOrder(held.Keys);
      var i := 0;
      while i < |order|
        invariant 0 <= i <= |order|
        invariant nodes.Keys == old(nodes).Keys
        invariant forall n | n in nodes ::
          nodes[n] == old(nodes)[n].(used := if n in order[..i] then held[n] else NO_RESOURCES)
      {
        var n := order[i];
        assert order[..i + 1] == order[..i] + [n];
        assert n in order;
        if n in nodes {
          nodes := nodes[n := nodes[n].(used := held[n])];
        }
        i := i + 1;
      }
      assert order[..|order|] == order;
      assert forall n | n in nodes :: nodes[n] == old(nodes)[n].(used := HeldAt(held, n));
      assert nodes == Recounted(old(View())).nodes;
    }

    /** The sums of the recount: what the tasks hold on each node. */
    method SumHeld() returns (held: map<NodeId, Resources>)
      ensures forall n :: HeldAt(held, n) == RecountOf(tasks, n)
    {
      hide DemandFrom, DemandOf, HoldMore, HeldAt, Demand.Saturated;
      held := map[];
      ghost var counted: set<TaskId> := {};
      forall n ensures HeldAt(held, n) == DemandFrom(tasks, counted, n).Saturated() {
        NothingHeld(tasks, n);
      }
      var order := AnyOrder(tasks.Keys);
      var i := 0;
      while i < |order|
        invariant 0 <= i <= |order|
        invariant forall t :: t in counted <==> t in order[..i]
        invariant forall n :: HeldAt(held, n) == DemandFrom(tasks, counted, n).Saturated()
      {
        var t := order[i];
        ghost var before := counted;
        counted := counted + {t};
        assert t in order && t !in order[..i];
        assert order[..i + 1] == order[..i] + [t];
        assert counted - {t} == before;
        forall n ensures HeldAt(HoldMore(tasks[t], held), n) == DemandFrom(tasks, counted, n).Saturated() {
          DemandSplit(tasks, counted, t, n);
          HoldMoreAddsUp(tasks[t], held, n, DemandFrom(tasks, before, n));
        }
        held := HoldMore(tasks[t], held);
        i := i + 1;
      }
      assert order[..|order|] == order;
      assert counted == tasks.Keys;
    }

    static lemma NothingHeld(tasks: map<TaskId, Task>, n: NodeId)
      ensures HeldAt(map[], n) == DemandFrom(tasks, {}, n).Saturated()
    {
    }

    /** Add one task to the sums. */
    static function HoldMore(task: Task, held: map<NodeId, Resources>): map<NodeId, Resources> {
      if task.state.HoldsResources() && task.assignedNode.Some? then
        var n := task.assignedNode.value;
        held[n := HeldAt(held, n).SaturatingAdd(task.spec.resources)]
      else held
    }

    static function HeldAt(held: map<NodeId, Resources>, n: NodeId): Resources {
      if n in held then held[n] else NO_RESOURCES
    }

    /** A saturating sum stays the saturated true sum. */
    static lemma HoldMoreAddsUp(task: Task, held: map<NodeId, Resources>, n: NodeId, d: Demand)
      requires HeldAt(held, n) == d.Saturated()
      ensures HeldAt(HoldMore(task, held), n) == d.Plus(DemandOf(task, n)).Saturated()
    {
      hide Demand.Saturated, Resources.SaturatingAdd;
      if task.state.HoldsResources() && task.assignedNode == Some(n) {
        SaturatedPlus(d, task, n);
      } else {
        assert d.Plus(NO_DEMAND) == d;
      }
    }

    /** `PickNode` by one pass over the nodes, in any order: keep the best seen so
        far. */
    method ChooseNode(task: Task, now: DateTime) returns (r: Option<NodeId>)
      ensures r == PickNode(nodes, task, now)
    {
      hide Before, IsEligible;
      var order := AnyOrder(nodes.Keys);
      var best: Option<NodeId> := None;
      var i := 0;
      while i < |order|
        invariant 0 <= i <= |order|
        invariant best.None? ==> forall k | k in order[..i] :: !IsEligible(nodes[k], task, now)
        invariant best.Some? ==> best.value in nodes && IsEligible(nodes[best.value], task, now)
        invariant best.Some? ==> forall k | k in order[..i] && IsEligible(nodes[k], task, now) ::
                                   !Before(nodes[k], nodes[best.value])
      {
        var k := order[i];
        assert order[..i + 1] == order[..i] + [k];
        assert k in order;
        BeforeIsStrictTotalOrder(nodes[k], nodes[k], nodes[k]);
        if IsEligible(nodes[k], task, now) {
          if best.None? {
            best := Some(k);
          } else if Before(nodes[k], nodes[best.value]) {
            BeforeIsStrictTotalOrder(nodes[k], nodes[best.value], nodes[k]);
            forall j | j in order[..i] && IsEligible(nodes[j], task, now) ensures !Before(nodes[j], nodes[k]) {
              LeastStays(nodes[j], nodes[best.value], nodes[k]);
            }
            best := Some(k);
          }
        }
        i := i + 1;
      }
      assert order[..|order|] == order;
      r := if best.Some? then Some(nodes[best.value].id) else None;
      assert best.Some? ==> IsLeast(nodes, task, now, best.value);
      ChoiceUnique(nodes, task, now, r, PickNode(nodes, task, now));
    }

    /** The services a task discovers, visiting the tasks in any order. */
    method ServicesEnvFor(task: Task) returns (r: Option<map<string, seq<string>>>)
      ensures r == ServicesFor(tasks, task)
    {
      hide TextsOf, SortedIps, Sort, ServicesFor;
      ServicesNoneIff(tasks, task);
      if task.spec.discover == [] {
        return None;
      }
      var byName, order := AddressesByService();
      var services: map<string, seq<string>> := map[];
      var i := 0;
      while i < |task.spec.discover|
        invariant 0 <= i <= |task.spec.discover|
        invariant forall name :: name in services <==> name in task.spec.discover[..i]
        invariant forall name | name in services :: services[name] == SortedIps(tasks, name)
      {
        var name := task.spec.discover[i];
        assert task.spec.discover[..i + 1] == task.spec.discover[..i] + [name];
        SortedIpsFromAnyOrder(tasks, order, name);
        var ips := if name in byName then byName[name] else [];
        services := services[name := Sort(Self, ips)];
        i := i + 1;
      }
      assert task.spec.discover[..i] == task.spec.discover;
      ServicesComplete(tasks, task, services);
      return Some(services);
    }

    /** The addresses of the running tasks of each service, in the order the
        task map delivers the tasks. */
    method AddressesByService() returns (byName: map<string, seq<string>>, ghost order: seq<TaskId>)
      ensures Enumerates(order, tasks.Keys)
      ensures forall name :: (if name in byName then byName[name] else []) == TextsOf(tasks, order, name)
    {
      hide TextsOf, IpText, TextAt, AddText, Serves;
      byName := map[];
      var visited := AnyOrder(tasks.Keys);
      order := visited;
      var k := 0;
      assert order[..0] == [];
      NoTextsYet(tasks);
      while k < |visited|
        invariant 0 <= k <= |visited|
        invariant ListsTexts(byName, tasks, order[..k])
      {
        assert order[k] in order;
        TextsExtend(byName, tasks, order, k);
        byName := AddText(byName, tasks[visited[k]]);
        k := k + 1;
      }
      assert order[..|order|] == order;
    }

    /** `byName` holds the texts of the tasks visited so far. */
    static ghost predicate ListsTexts(byName: map<string, seq<string>>, tasks: map<TaskId, Task>, order: seq<TaskId>) {
      forall name :: (if name in byName then byName[name] else []) == TextsOf(tasks, order, name)
    }

    /** The address of a serving task goes behind those of its service. */
    static function AddText(byName: map<string, seq<string>>, task: Task): map<string, seq<string>> {
      if task.spec.serviceName.Some? && task.network.Some? && task.state.Running? then
        var name := task.spec.serviceName.value;
        byName[name := (if name in byName then byName[name] else []) + [IpText(task.network.value.ip)]]
      else byName
    }

    static lemma NoTextsYet(tasks: map<TaskId, Task>)
      ensures ListsTexts(map[], tasks, [])
    {
      hide TextsOf;
      forall name ensures TextsOf(tasks, [], name) == [] {
        TextsNone(tasks, name);
      }
    }

    static lemma TextsExtend(byName: map<string, seq<string>>, tasks: map<TaskId, Task>, order: seq<TaskId>, k: nat)
      requires k < |order| && order[k] in tasks && ListsTexts(byName, tasks, order[..k])
      ensures ListsTexts(AddText(byName, tasks[order[k]]), tasks, order[..k + 1])
    {
      hide TextsOf, IpText;
      var byName' := AddText(byName, tasks[order[k]]);
      forall name ensures (if name in byName' then byName'[name] else []) == TextsOf(tasks, order[..k + 1], name) {
        TextsStep(tasks, order, k, name);
      }
    }

    /** The service view: services by name, endpoints by task id, whatever order
        the task map delivers the tasks in. */
    method ServiceEndpoints() returns (out: seq<ServiceInfo>)
      requires IdsMatch(tasks)
      ensures out == ServiceList(tasks)
    {
      hide EndpointsOf, EndpointsIn, ServiceNames, ServiceList, Sort;
      var byName, order := EndpointsByService();
      var names := AnyOrder(byName.Keys);
      out := [];
      var i := 0;
      while i < |names|
        invariant 0 <= i <= |names| && |out| == i
        invariant forall k | 0 <= k < i :: out[k] == ServiceInfo(names[k], EndpointsOf(tasks, names[k]))
      {
        var name := names[i];
        assert name in names;
        EndpointsSort(tasks, order, name);
        out := out + [ServiceInfo(name, Sort(TaskIdOf, byName[name]))];
        i := i + 1;
      }
      forall name ensures name in byName <==> name in ServiceNames(tasks) {
        NamesFromAnyOrder(tasks, order, name);
      }
      ListInAnyOrder(tasks, names, out);
      out := Sort(NameOf, out);
    }

    /** The endpoints of each service, in the order the task map delivers the
        tasks. */
    method EndpointsByService() returns (byName: map<string, seq<ServiceEndpoint>>, ghost order: seq<TaskId>)
      ensures Enumerates(order, tasks.Keys)
      ensures forall name | name in byName :: byName[name] == EndpointsIn(tasks, order, name)
      ensures forall name :: name in byName <==> EndpointsIn(tasks, order, name) != []
    {
      hide EndpointsIn;
      forall name ensures EndpointsIn(tasks, [], name) == [] {
        EndpointsNone(tasks, name);
      }
      byName := map[];
      var visited := AnyOrder(tasks.Keys);
      order := visited;
      var k := 0;
      assert order[..0] == [];
      while k < |visited|
        invariant 0 <= k <= |visited|
        invariant forall name | name in byName :: byName[name] == EndpointsIn(tasks, order[..k], name)
        invariant forall name :: name in byName <==> EndpointsIn(tasks, order[..k], name) != []
      {
        forall name ensures EndpointsIn(tasks, order[..k + 1], name)
                            == EndpointsIn(tasks, order[..k], name) + EndpointAt(tasks, order[k], name) {
          EndpointsStep(tasks, order, k, name);
        }
        assert order[k] in order;
        var task := tasks[visited[k]];
        if task.spec.serviceName.Some? && task.network.Some? && task.state.Running? {
          var name := task.spec.serviceName.value;
          byName := byName[name := (if name in byName then byName[name] else [])
                                   + [ServiceEndpoint(task.id, task.network.value.ip)]];
        }
        k := k + 1;
      }
      assert order[..|order|] == order;
    }

    /** The body of the placement loop for one pending task. */
    method PlaceTask(t: TaskId, now: DateTime)
      requires Valid()
      modifies this, ipam, Journals()
      ensures Valid() && journal == old(journal) && SnapshotFile() == old(SnapshotFile())
      ensures var (after, ops) := PlaceOne(old(View()), t, now);
              View() == after && (journal != null ==> Log() == old(Log()) + ops)
    {
      hide Commit, IsChoice, Valid, Before;
      if t !in tasks {
        return;
      }
      var task := tasks[t];
      var pick := ChooseNode(task, now);
      if pick.None? {
        return;
      }
      var n := pick.value;
      var network: Option<NetworkAssignment> := None;
      if task.spec.networkEnabled {
        var ip := ipam.Allocate(n, t);
        if ip.None? {
          return;
        }
        var gateway := ipam.State().GatewayFor(n);
        if gateway.None? {
          var _ := ipam.Release(t);
          return;
        }
        network := Some(NetworkAssignment(ip.value, gateway.value, NETMASK));
      }
      CommitPlacement(t, n, network);
    }

    /** Record the placement of `t` on `n` with the network allocated for it. */
    method CommitPlacement(t: TaskId, n: NodeId, network: Option<NetworkAssignment>)
      requires Valid() && t in tasks
      modifies this, ipam, Journals()
      ensures Valid() && journal == old(journal) && SnapshotFile() == old(SnapshotFile())
      ensures var (after, ops) := Commit(old(View()), t, n, network);
              View() == after && (journal != null ==> Log() == old(Log()) + ops)
    {
      hide ServicesFor;
      var services := ServicesEnvFor(tasks[t]);
      if n in nodes {
        MarkPlaced(t, n, network, services);
        RecordPlacement(t, n, network, services);
      } else if network.Some? {
        var _ := ipam.Release(t);
      }
    }

    /** Assign the task and charge its resources to the node. */
    method MarkPlaced(t: TaskId, n: NodeId, network: Option<NetworkAssignment>,
                      services: Option<map<string, seq<string>>>)
      requires t in tasks && n in nodes
      modifies this`tasks, this`nodes
      ensures tasks == old(tasks)[t := PlacedOn(old(tasks)[t], old(nodes)[n].id, network, services)]
      ensures nodes == old(nodes)[n := old(nodes)[n].(
                used := old(nodes)[n].used.SaturatingAdd(old(tasks)[t].spec.resources))]
    {
      tasks := tasks[t := tasks[t].(state := Assigned, assignedNode := Some(nodes[n].id), network := network)];
      if services.Some? {
        var env := tasks[t].spec.env[SERVICES_KEY := Services(services.value)];
        tasks := tasks[t := tasks[t].(spec := tasks[t].spec.(env := env))];
      }
      nodes := nodes[n := nodes[n].(used := nodes[n].used.SaturatingAdd(tasks[t].spec.resources))];
    }

    /** Journal a placement: the address first, then the task. */
    method RecordPlacement(t: TaskId, n: NodeId, network: Option<NetworkAssignment>,
                           services: Option<map<string, seq<string>>>)
      requires Valid()
      modifies Journals()
      ensures Valid() && journal == old(journal) && SnapshotFile() == old(SnapshotFile()) && View() == old(View())
      ensures journal != null ==>
                Log() == old(Log()) + ((if network.Some? then [IpamAllocate(n, t, network.value.ip)] else [])
                                       + [TaskAssigned(t, n, network, services)])
    {
      if network.Some? {
        Record(IpamAllocate(n, t, network.value.ip));
      }
      Record(TaskAssigned(t, n, network, services));
    }

    method PlacePending(now: DateTime)
      requires Valid()
      modifies this, ipam, Journals()
      ensures Valid() && journal == old(journal) && SnapshotFile() == old(SnapshotFile())
      ensures var (after, ops) := PlaceAll(old(View()), Listing(PendingIds(old(View()))), now);
              View() == after && (journal != null ==> Log() == old(Log()) + ops)
    {
      var pending := AnyOrder(set t | t in tasks && tasks[t].state.Pending?);
      assert Enumerates(pending, PendingIds(View()));
      SortIsListing(pending, PendingIds(View()));
      PlaceEach(Sort(Self, pending), now);
    }

    /** The placement loop. */
    method PlaceEach(pending: seq<TaskId>, now: DateTime)
      requires Valid()
      modifies this, ipam, Journals()
      ensures Valid() && journal == old(journal) && SnapshotFile() == old(SnapshotFile())
      ensures var (after, ops) := PlaceAll(old(View()), pending, now);
              View() == after && (journal != null ==> Log() == old(Log()) + ops)
    {
      hide PlaceOne, PlaceAll, Valid;
      var i := 0;
      assert pending[..0] == [];
      NothingToDo(View(), now);
      while i < |pending|
        invariant 0 <= i <= |pending|
        invariant Valid() && journal == old(journal) && SnapshotFile() == old(SnapshotFile())
        invariant View() == PlaceAll(old(View()), pending[..i], now).0
        invariant journal != null ==> Log() == old(Log()) + PlaceAll(old(View()), pending[..i], now).1
      {
        PlaceAllStep(old(View()), pending, i, now);
        PlaceTask(pending[i], now);
        i := i + 1;
      }
      assert pending[..|pending|] == pending;
    }

    /** One scheduling pass. */
    method RunTick(now: DateTime) returns (ghost order: seq<TaskId>)
      requires Valid()
      modifies this, ipam, Journals()
      ensures Valid() && journal == old(journal) && SnapshotFile() == old(SnapshotFile())
      ensures Enumerates(order, Orphans(old(View()), now))
      ensures var (after, ops) := Tick(old(View()), now, order);
              View() == after && (journal != null ==> Log() == old(Log()) + ops)
    {
      hide RequeueAll, PlaceAll, Recounted, Orphans, PendingIds, Valid, Listing;
      order := RequeueDeadNodes(now);
      ghost var (s1, ops1) := RequeueAll(old(View()), order);
      RecountUsed();
      assert View() == Recounted(s1);
      PlacePending(now);
      ghost var (s3, ops3) := PlaceAll(Recounted(s1), Listing(PendingIds(Recounted(s1))), now);
      assert old(Log()) + ops1 + ops3 == old(Log()) + (ops1 + ops3);
    }

    // -------------------------------------------------------------------
    // Replay
    // -------------------------------------------------------------------

    /** Take over a snapshot; every node counts as heard from at `now`. */
    method Restore(durable: DurableState, now: DateTime)
      modifies this`jobs, this`tasks, this`nodes, this`snapshots, ipam
      ensures View() == Restored(durable, now)
    {
      jobs, tasks, snapshots := durable.jobs, durable.tasks, durable.snapshots;
      ipam.CloneFrom(durable.ipam);
      RestoreNodes(durable, now);
    }

    method RestoreNodes(durable: DurableState, now: DateTime)
      modifies this`nodes
      ensures nodes == Restored(durable, now).nodes
    {
      nodes := map[];
      var order := AnyOrder(durable.nodes.Keys);
      var i := 0;
      while i < |order|
        invariant 0 <= i <= |order|
        invariant forall n :: n in nodes <==> n in order[..i]
        invariant forall n | n in nodes :: n in durable.nodes && nodes[n] == durable.nodes[n].(lastHeartbeat := now)
      {
        assert order[..i + 1] == order[..i] + [order[i]];
        assert order[i] in order;
        nodes := nodes[order[i] := durable.nodes[order[i]].(lastHeartbeat := now)];
        i := i + 1;
      }
      assert order[..|order|] == order;
      assert nodes == Restored(durable, now).nodes;
    }

    /** Insert replayed tasks one after the other. */
    method InsertEach(added: seq<Task>)
      modifies this`tasks
      ensures tasks == InsertTasks(old(tasks), added)
    {
      var i := 0;
      assert added[..0] == [];
      while i < |added|
        invariant 0 <= i <= |added|
        invariant tasks == InsertTasks(old(tasks), added[..i])
      {
        assert added[..i + 1][..i] == added[..i];
        tasks := tasks[added[i].id := added[i]];
        i := i + 1;
      }
      assert added[..|added|] == added;
    }

    /** Apply one journaled operation, the journal being parked. */
    method ReplayOne(op: JournalOp, now: DateTime)
      requires journal == null
      modifies this, ipam
      ensures journal == null && View() == ApplyOne(old(View()), op, now)
    {
      hide InsertTasks;
      match op
      case CreateJob(jobId, name, createdAt, added) =>
        jobs := jobs[jobId := JobRecord(name, createdAt)];
        InsertEach(added);
      case SetTaskState(t, state, exitCode) =>
        var _ := this.SetTaskState(t, state, exitCode);
      case TaskAssigned(t, n, network, services) =>
        if t in tasks {
          tasks := tasks[t := tasks[t].(state := Assigned, assignedNode := Some(n), network := network)];
          if services.Some? {
            var env := tasks[t].spec.env[SERVICES_KEY := Services(services.value)];
            tasks := tasks[t := tasks[t].(spec := tasks[t].spec.(env := env))];
          }
        }
      case TaskRequeued(t) =>
        if t in tasks {
          tasks := tasks[t := tasks[t].(state := Pending, assignedNode := None, network := None)];
        }
      case RegisterNode(node) =>
        nodes := nodes[node.id := node.(lastHeartbeat := now)];
      case RequestSnapshot(record) =>
        snapshots := snapshots[record.id := record];
      case ReportSnapshot(t, id, report) =>
        var _ := this.ReportSnapshotResult(t, id, report);
      case IpamAllocate(n, t, _) =>
        var _ := ipam.Allocate(n, t);
      case IpamRelease(t) =>
        var _ := ipam.Release(t);
    }

    /** Apply replayed operations. The journal handle is parked so they are not
        journaled again; `used` is recomputed at the end. */
    method ApplyOps(ops: seq<JournalOp>, now: DateTime)
      modifies this, ipam
      ensures journal == old(journal) && View() == Recounted(ApplyAll(old(View()), ops, now))
    {
      var parked := journal;
      journal := null;
      var i := 0;
      assert ops[..0] == [];
      while i < |ops|
        invariant 0 <= i <= |ops|
        invariant journal == null && View() == ApplyAll(old(View()), ops[..i], now)
      {
        assert ops[..i + 1][..i] == ops[..i];
        ReplayOne(ops[i], now);
        i := i + 1;
      }
      assert ops[..|ops|] == ops;
      RecountUsed();
      journal := parked;
    }
  }

  // ---------------------------------------------------------------------
  // The data directory
  // ---------------------------------------------------------------------

  /** Read all operations from the journal, repairing its torn tail in place.
      `Err` carries the number of the first corrupt line. */
  method LoadJournalOps(dir: DataDir, codec: Codec) returns (r: Result<seq<JournalOp>, nat>)
    modifies dir`journal
    ensures old(dir.journal).None? ==> r == Ok([]) && dir.journal == None
    ensures old(dir.journal).Some? ==>
              var (loaded, repaired) := Load(codec, old(dir.journal).value);
              r == loaded && dir.journal == Some(repaired)
  {
    if dir.journal.None? {
      return Ok([]);
    }
    hide Split, DecodeLines;
    var bytes := dir.journal.value;
    var end := AfterLastNewline(bytes);
    var complete, tail := bytes[..end], bytes[end..];
    TailFound(bytes, end);
    var tailOp: Option<JournalOp> := None;
    if tail != [] {
      tailOp := codec.decode(tail);
      if tailOp.Some? {
        dir.journal := Some(bytes + [NEWLINE]);
      } else {
        dir.journal := Some(complete);
      }
    }
    var ops := DecodeComplete(codec, complete);
    if ops.Err? {
      return Err(ops.error);
    }
    return Ok(if tailOp.Some? then ops.value + [tailOp.value] else ops.value);
  }

  /** The number of bytes up to and including the last newline. */
  method AfterLastNewline(bytes: seq<Byte>) returns (end: nat)
    ensures end <= |bytes| && NEWLINE !in bytes[end..]
    ensures 0 < end ==> bytes[end - 1] == NEWLINE
  {
    end := |bytes|;
    while 0 < end && bytes[end - 1] != NEWLINE
      invariant end <= |bytes|
      invariant NEWLINE !in bytes[end..]
    {
      end := end - 1;
      assert bytes[end..] == [bytes[end]] + bytes[end + 1..];
    }
  }

  /** Decode the non-empty lines, stopping at the first corrupt one. */
  method DecodeComplete(codec: Codec, complete: seq<Byte>) returns (r: Result<seq<JournalOp>, nat>)
    ensures r == DecodeLines(codec, Split(complete).0)
  {
    hide Split, DecodeLines;
    var ops: seq<JournalOp> := [];
    var line: seq<Byte> := [];
    var i := 0;
    assert complete[..0] == [];
    NothingSplits(codec);
    while i < |complete|
      invariant 0 <= i <= |complete|
      invariant line == Split(complete[..i]).1
      invariant DecodeLines(codec, Split(complete[..i]).0) == Ok(ops)
    {
      SplitStep(complete, i);
      if complete[i] != NEWLINE {
        line := line + [complete[i]];
      } else {
        DecodeStep(codec, Split(complete[..i]).0, line);
        if line != [] {
          match codec.decode(line)
          case Some(op) =>
            ops := ops + [op];
          case None =>
            CorruptLineStops(codec, complete, i + 1, |ops| + 1);
            return Err(|ops| + 1);
        }
        line := [];
      }
      i := i + 1;
    }
    assert complete[..|complete|] == complete;
    return Ok(ops);
  }

  lemma TailFound(bytes: seq<Byte>, end: nat)
    requires end <= |bytes| && NEWLINE !in bytes[end..] && (end == 0 || bytes[end - 1] == NEWLINE)
    ensures Split(bytes).1 == bytes[end..] && Complete(bytes) == bytes[..end]
    ensures Split(bytes[..end]) == (Split(bytes).0, [])
  {
    hide Split, Terminated;
    var complete, tail := bytes[..end], bytes[end..];
    assert bytes == complete + tail;
    assert Terminated(complete) by { CutIsTerminated(bytes, end); }
    SplitShape(complete);
    SplitConcat(complete, tail);
    SplitPlain(tail);
    assert Split(complete).0 + [] == Split(complete).0;
  }

  lemma CutIsTerminated(bytes: seq<Byte>, end: nat)
    requires end <= |bytes| && (end == 0 || bytes[end - 1] == NEWLINE)
    ensures Terminated(bytes[..end])
  {
  }

  /** A corrupt line decides the result, whatever follows it. */
  lemma {:induction false} CorruptLineStops(codec: Codec, bytes: seq<Byte>, i: nat, n: nat)
    requires i <= |bytes| && DecodeLines(codec, Split(bytes[..i]).0) == Err(n)
    ensures DecodeLines(codec, Split(bytes).0) == Err(n)
    decreases |bytes| - i
  {
    if i == |bytes| {
      assert bytes[..i] == bytes;
    } else {
      assert bytes[..i + 1][..i] == bytes[..i];
      var (lines, line) := Split(bytes[..i]);
      assert (lines + [line])[..|lines|] == lines;
      CorruptLineStops(codec, bytes, i + 1, n);
    }
  }

  /** Replace the snapshot, then truncate the journal. */
  method Compact(dir: DataDir, state: DurableState) returns (r: Result<(), Error>)
    modifies dir
    ensures dir.snapshot == Some(state)
    ensures old(dir.journal).Some? ==> r.Ok? && dir.journal == Some([])
    ensures old(dir.journal).None? ==> r == Err(NotFound) && dir.journal == None
  {
    dir.snapshot := Some(state);
    if dir.journal.None? {
      return Err(NotFound);
    }
    dir.journal := Some([]);
    return Ok(());
  }

  /** Start on a data directory: restore the snapshot, replay the journal,
      attach the journal. */
  method LoadPersistentState(dir: DataDir, codec: Codec, network: Allocator, restored: DateTime, replayed: DateTime)
    returns (r: Result<StateInner, nat>)
    modifies dir`journal, network
    ensures dir.snapshot == old(dir.snapshot)
    ensures var bytes := if old(dir.journal).Some? then old(dir.journal).value else [];
            var (loaded, repaired) := Load(codec, bytes);
            match r
            case Err(n) => loaded == Err(n)
            case Ok(inner) =>
              && loaded.Ok?
              && fresh(inner) && inner.Valid() && inner.ipam == network
              && inner.View() == Recover(old(network.State()), old(dir.snapshot), loaded.value, restored, replayed)
              && inner.journal != null && fresh(inner.journal) && inner.journal.dir == dir
              && inner.journal.codec == codec && inner.journal.found == repaired && inner.Log() == []
  {
    var inner := new StateInner(network);
    if dir.snapshot.Some? {
      inner.Restore(dir.snapshot.value, restored);
    }
    var loaded := LoadJournalOps(dir, codec);
    if loaded.Err? {
      return Err(loaded.error);
    }
    inner.ApplyOps(loaded.value, replayed);
    var journal := new JournalWriter.Open(dir, codec);
    inner.journal := journal;
    return Ok(inner);
  }
}
