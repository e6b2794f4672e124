/** The scenery of the runs shown as examples: two nodes, tasks that ask for
    networking and nothing else, and a run from the first start that leaves one
    such task running. */
module Scenes {
  import opened Types
  import opened Ipam
  import opened Durable
  import opened Placement
  import opened Accounting
  import opened Discovery
  import opened Scheduling
  import opened Runs
  import opened Recovery

  const LATE := 60 * NANOS_PER_SECOND
  const ROOM := Resources(4000, 4096)
  const BASE := IpamState(172, 28, map[], map[])

  function Networked(name: string, affinity: Option<NodeId>): TaskSpec {
    TaskSpec(name, "run", [], map[], NO_RESOURCES, 1, affinity, true, None, [])
  }

  function Address(z: Byte, host: Byte): Ip {
    Ip(172, 28, z, host)
  }

  function NetworkAt(z: Byte, host: Byte): NetworkAssignment {
    NetworkAssignment(Address(z, host), Address(z, 1), NETMASK)
  }

  /** Task `t` of the job of the same name. */
  function Waiting(t: TaskId, affinity: Option<NodeId>): Task {
    Task(t, t, t, Networked(t, affinity), Pending, None, None, None)
  }

  /** The same on node `n`, with host `host` of the /24 with third octet `z`. */
  function On(task: Task, n: NodeId, z: Byte, host: Byte, state: TaskState, exitCode: Option<int>): Task {
    task.(state := state, assignedNode := Some(n), exitCode := exitCode, network := Some(NetworkAt(z, host)))
  }

  function Node(n: NodeId, heard: DateTime): NodeInfo {
    NodeInfo(n, n, n, None, ROOM, NO_RESOURCES, heard)
  }

  // ---------------------------------------------------------------------
  // Events
  // ---------------------------------------------------------------------

  function Registered(n: NodeId): Event {
    NodeRegistered(n, n, ROOM, None, 0, n)
  }

  function Submitted(t: TaskId, affinity: Option<NodeId>): Event {
    JobSubmitted(JobSpec(t, [Networked(t, affinity)]), 0, t, [t])
  }

  /** A submitted job of one task. */
  lemma SubmitsTask(s: DurableState, t: TaskId, affinity: Option<NodeId>)
    requires t !in s.jobs && t !in s.tasks && !IsBlank(t)
    ensures Allowed(s, Submitted(t, affinity))
    ensures Step(s, Submitted(t, affinity))
            == (s.(tasks := s.tasks[t := Waiting(t, affinity)], jobs := s.jobs[t := JobRecord(t, 0)]),
                [JournalOp.CreateJob(t, t, 0, [Waiting(t, affinity)])])
  {
    var spec := Networked(t, affinity);
    assert spec.(count := 1) == spec;
    assert [spec][..0] == [];
    assert Copies([spec]) == [spec];
    assert !IsBlank(spec.command) by { assert !IsWhiteSpace(spec.command[0]); }
    assert NewTasks([spec], t, [t]) == [Waiting(t, affinity)];
    assert [Waiting(t, affinity)][..0] == [];
    assert InsertTasks(s.tasks, [Waiting(t, affinity)]) == s.tasks[t := Waiting(t, affinity)];
  }

  /** The one eligible node is chosen. */
  lemma PickOnly(nodes: map<NodeId, NodeInfo>, task: Task, now: DateTime, n: NodeId)
    requires n in nodes && nodes[n].id == n && IsEligible(nodes[n], task, now)
    requires forall k | k in nodes && k != n :: !IsEligible(nodes[k], task, now)
    ensures PickNode(nodes, task, now) == Some(n)
  {
    hide Before, IsEligible;
    BeforeIsStrictTotalOrder(nodes[n], nodes[n], nodes[n]);
    assert IsLeast(nodes, task, now, n);
    assert IsChoice(nodes, task, now, Some(n));
    ChoiceUnique(nodes, task, now, Some(n), PickNode(nodes, task, now));
  }

  /** Task `task` placed on node `n` with host `host`, the allocator being `ipam`
      afterwards. */
  function Placing(s: DurableState, t: TaskId, n: NodeId, z: Byte, host: Byte, ipam: IpamState): DurableState
    requires t in s.tasks
  {
    s.(tasks := s.tasks[t := On(s.tasks[t], n, z, host, Assigned, s.tasks[t].exitCode)], ipam := ipam)
  }

  function PlacementOps(t: TaskId, n: NodeId, z: Byte, host: Byte): seq<JournalOp> {
    [IpamAllocate(n, t, Address(z, host)), TaskAssigned(t, n, Some(NetworkAt(z, host)), None)]
  }

  /** Placing a task that waits on the node that is chosen for it. */
  lemma PlacesTask(s: DurableState, t: TaskId, n: NodeId, z: Byte, host: Byte, ipam: IpamState, now: DateTime)
    requires t in s.tasks && s.tasks[t].state.Pending? && s.tasks[t].spec.networkEnabled
    requires s.tasks[t].spec.discover == [] && s.tasks[t].spec.resources == NO_RESOURCES
    requires n in s.nodes && s.nodes[n].id == n && PickNode(s.nodes, s.tasks[t], now) == Some(n)
    requires s.ipam.Allocate(n, t) == (Some(Address(z, host)), ipam) && ipam.GatewayFor(n) == Some(Address(z, 1))
    ensures Allowed(s, TaskPlaced(t, now))
    ensures Step(s, TaskPlaced(t, now)) == (Placing(s, t, n, z, host, ipam), PlacementOps(t, n, z, host))
  {
    hide IpamState.Allocate, PickNode, IpamState.GatewayFor;
    var s1 := s.(ipam := ipam);
    var (s', ops) := Commit(s1, t, n, Some(NetworkAt(z, host)));
    assert PlaceOne(s, t, now) == Commit(s1, t, n, Some(NetworkAt(z, host)));
    assert s.nodes[n].used.SaturatingAdd(NO_RESOURCES) == s.nodes[n].used;
    assert s'.nodes == s.nodes;
    assert ServicesFor(s1.tasks, s1.tasks[t]) == None;
    assert PlacedOn(s.tasks[t], n, Some(NetworkAt(z, host)), None)
           == On(s.tasks[t], n, z, host, Assigned, s.tasks[t].exitCode);
    assert s'.tasks == Placing(s, t, n, z, host, ipam).tasks;
    assert ops == PlacementOps(t, n, z, host);
  }

  /** The first host of a node that owns no /24 yet, or of one whose /24 is
      empty. */
  lemma FirstAddress(s: IpamState, n: NodeId, t: TaskId, z: Byte)
    requires s.base0 == 172 && s.base1 == 28 && t !in s.held
    requires s.SubnetOctet(n) == (Some(z), s.(subnets := s.subnets[n := z]))
    requires forall u | u in s.held :: s.held[u].c != z
    ensures s.Allocate(n, t)
            == (Some(Address(z, 2)),
                s.(subnets := s.subnets[n := z], held := s.held[t := Address(z, 2)]))
  {
    var next := s.(subnets := s.subnets[n := z]);
    assert next.Holders(z) == {};
    assert next.UsedHosts(z) == {};
  }

  lemma FirstOctet(s: IpamState, n: NodeId)
    requires s.subnets == map[]
    ensures s.SubnetOctet(n) == (Some(0), s.(subnets := s.subnets[n := 0]))
  {
  }

  lemma SecondOctet(s: IpamState, m: NodeId, n: NodeId)
    requires s.subnets == map[m := 0] && n != m
    ensures s.SubnetOctet(n) == (Some(1), s.(subnets := s.subnets[n := 1]))
  {
    assert m in s.subnets && s.subnets[m] == 0;
    assert s.subnets.Values == {0};
    assert FirstFree(0, 255, {0}) == FirstFree(1, 255, {0});
  }

  lemma OwnOctet(s: IpamState, n: NodeId)
    requires n in s.subnets
    ensures s.SubnetOctet(n) == (Some(s.subnets[n]), s.(subnets := s.subnets[n := s.subnets[n]]))
  {
    assert s.subnets[n := s.subnets[n]] == s.subnets;
  }

  /** Nothing is demanded of a node if no task asks for resources. */
  lemma NothingIsDemanded(tasks: map<TaskId, Task>, n: NodeId)
    requires forall t | t in tasks :: tasks[t].spec.resources == NO_RESOURCES
    ensures RecountOf(tasks, n) == NO_RESOURCES
  {
    forall t | t in tasks.Keys ensures DemandAt(tasks, t, n) == NO_DEMAND {}
    DemandZero(tasks, tasks.Keys, n);
  }

  // ---------------------------------------------------------------------
  // Serving a run
  // ---------------------------------------------------------------------

  function ServeAll(events: seq<Event>): seq<Action> {
    seq(|events|, i requires 0 <= i < |events| => Serve(events[i]))
  }

  lemma AfterExtend(base: IpamState, actions: seq<Action>, a: Action)
    ensures After(base, actions + [a]) == Next(base, After(base, actions), a)
    ensures History(base, actions + [a]) <==> History(base, actions) && Happens(After(base, actions), a)
    ensures HarmlessHistory(base, actions + [a]) <==>
              HarmlessHistory(base, actions) && Harmless(After(base, actions), a)
  {
    hide Next, Happens, Harmless;
    assert (actions + [a])[..|actions|] == actions;
  }

  lemma StartHistory()
    ensures History(BASE, []) && HarmlessHistory(BASE, []) && After(BASE, []) == Start(BASE)
  {
  }

  /** A run served after a history of harmless crashes. */
  lemma {:induction false} ServesRun(base: IpamState, actions: seq<Action>, events: seq<Event>)
    requires History(base, actions) && HarmlessHistory(base, actions) && ValidRun(After(base, actions).live, events)
    ensures History(base, actions + ServeAll(events)) && HarmlessHistory(base, actions + ServeAll(events))
    ensures var sys, (live, ops) := After(base, actions), Run(After(base, actions).live, events);
            After(base, actions + ServeAll(events)) == sys.(live := live, journal := sys.journal + ops)
    decreases |events|
  {
    hide Step, Allowed, History, HarmlessHistory, After;
    if events == [] {
      assert actions + ServeAll(events) == actions;
      assert After(base, actions).journal + [] == After(base, actions).journal;
    } else {
      var front, last := events[..|events| - 1], events[|events| - 1];
      ServesRun(base, actions, front);
      assert actions + ServeAll(events) == actions + ServeAll(front) + [Serve(last)];
      AfterExtend(base, actions + ServeAll(front), Serve(last));
      ConcatAssociative(After(base, actions).journal, Run(After(base, actions).live, front).1,
                        Step(Run(After(base, actions).live, front).0, last).1);
    }
  }

  // ---------------------------------------------------------------------
  // The opening: one task runs on one node
  // ---------------------------------------------------------------------

  function Opening(): seq<Event> {
    [Registered("m")] + [Submitted("t", None)] + [TaskPlaced("t", 0)] + [TaskReported("t", Running, None)]
  }

  function T(): Task {
    On(Waiting("t", None), "m", 0, 2, Running, None)
  }

  function OneNode(): map<NodeId, NodeInfo> {
    map["m" := Node("m", 0)]
  }

  function Opened(): DurableState {
    DurableState(map["t" := JobRecord("t", 0)], map["t" := T()], OneNode(), map[],
                 IpamState(172, 28, map["m" := 0], map["t" := Address(0, 2)]))
  }

  function OpeningOps(): seq<JournalOp> {
    [RegisterNode(Node("m", 0))] + [JournalOp.CreateJob("t", "t", 0, [Waiting("t", None)])]
    + PlacementOps("t", "m", 0, 2) + [SetTaskState("t", Running, None)]
  }

  /** The states on the way. */
  function Submitting(): DurableState {
    DurableState(map["t" := JobRecord("t", 0)], map["t" := Waiting("t", None)], OneNode(), map[], BASE)
  }

  lemma OpeningPlaces()
    ensures Allowed(Submitting(), TaskPlaced("t", 0))
    ensures Step(Submitting(), TaskPlaced("t", 0))
            == (Opened().(tasks := map["t" := T().(state := Assigned)]), PlacementOps("t", "m", 0, 2))
  {
    hide PickNode, IpamState.Allocate, IpamState.SubnetOctet;
    var s := Submitting();
    PickOnly(s.nodes, s.tasks["t"], 0, "m");
    FirstOctet(BASE, "m");
    FirstAddress(BASE, "m", "t", 0);
    PlacesTask(s, "t", "m", 0, 2, Opened().ipam, 0);
    assert s.tasks["t" := T().(state := Assigned)] == map["t" := T().(state := Assigned)];
  }

  lemma OpeningRuns()
    ensures ValidRun(EmptyState(BASE), Opening())
    ensures Run(EmptyState(BASE), Opening()) == (Opened(), OpeningOps())
  {
    hide Step, Allowed, Run, ValidRun;
    var s := EmptyState(BASE);
    OpeningRegisters();
    RunSingle(s, Registered("m"));
    SubmitsTask(s.(nodes := OneNode()), "t", None);
    RunExtend(s, [Registered("m")], Submitted("t", None));
    OpeningPlaces();
    RunExtend(s, [Registered("m")] + [Submitted("t", None)], TaskPlaced("t", 0));
    OpeningReports();
    RunExtend(s, [Registered("m")] + [Submitted("t", None)] + [TaskPlaced("t", 0)], TaskReported("t", Running, None));
  }

  lemma OpeningRegisters()
    ensures Allowed(EmptyState(BASE), Registered("m"))
    ensures Step(EmptyState(BASE), Registered("m"))
            == (EmptyState(BASE).(nodes := OneNode()), [RegisterNode(Node("m", 0))])
    ensures !IsBlank("t")
  {
    assert !IsWhiteSpace("t"[0]);
  }

  lemma OpeningReports()
    ensures Allowed(Opened().(tasks := map["t" := T().(state := Assigned)]), TaskReported("t", Running, None))
    ensures Step(Opened().(tasks := map["t" := T().(state := Assigned)]), TaskReported("t", Running, None))
            == (Opened(), [SetTaskState("t", Running, None)])
  {
    var out := Opened().(tasks := map["t" := T().(state := Assigned)]).SetTaskState("t", Running, None);
    assert out.state.tasks == Opened().tasks;
    assert out.ops == [SetTaskState("t", Running, None)];
  }
}
