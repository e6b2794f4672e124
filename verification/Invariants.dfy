/** What events keep and harmless crashes give back: tasks, addresses and nodes
    agree, and no node is overcommitted. */
module Invariants {
  import opened Types
  import opened Ipam
  import opened Durable
  import opened Placement
  import opened Accounting
  import opened Scheduling
  import opened Soundness

  /** The network of a task is the address it holds, inside the /24 of its
      node, with the gateway of that /24. */
  predicate NetworkMatches(network: NetworkAssignment, n: NodeId, ip: Ip, ipam: IpamState) {
    && n in ipam.subnets
    && network.ip == ip
    && ipam.InSubnet(ip, ipam.subnets[n])
    && ipam.GatewayFor(n) == Some(network.gateway)
    && network.netmask == NETMASK
  }

  /** Task `t` agrees with the nodes and with the allocator: it holds an address
      exactly when it has a network and is not terminal. */
  predicate TaskAgrees(t: TaskId, task: Task, nodeIds: set<NodeId>, ipam: IpamState) {
    && (task.assignedNode.Some? ==> task.assignedNode.value in nodeIds)
    && (task.state.Pending? ==> task.assignedNode.None?)
    && (t in ipam.held <==> !task.state.IsTerminal() && task.network.Some?)
    && (t in ipam.held ==>
          && task.assignedNode.Some?
          && NetworkMatches(task.network.value, task.assignedNode.value, ipam.held[t], ipam))
    && (!task.state.IsTerminal() && task.assignedNode.Some? ==> task.network.Some? == task.spec.networkEnabled)
    && (!task.state.IsTerminal() ==> task.exitCode.None?)
  }

  ghost predicate Agreement(s: DurableState) {
    && (forall t | t in s.ipam.held :: t in s.tasks)
    && (forall t | t in s.tasks :: TaskAgrees(t, s.tasks[t], s.nodes.Keys, s.ipam))
  }

  ghost predicate Invariant(s: DurableState) {
    Sound(s) && Agreement(s)
  }

  lemma InvariantParts(s: DurableState)
    requires Invariant(s)
    ensures Sound(s) && KeysMatch(s) && s.ipam.WellFormed() && Agreement(s)
  {
  }

  /** What a guest is told of its network: its own host of the /24 of its node, host 1
      as the gateway, and the mask of a /24. */
  lemma GuestNetwork(s: DurableState, t: TaskId)
    requires Invariant(s) && t in s.tasks && !s.tasks[t].state.IsTerminal() && s.tasks[t].network.Some?
    ensures s.tasks[t].assignedNode.Some? && s.tasks[t].assignedNode.value in s.ipam.subnets
    ensures var (w, z) := (s.tasks[t].network.value, s.ipam.subnets[s.tasks[t].assignedNode.value]);
            && w.ip == Ip(s.ipam.base0, s.ipam.base1, z, w.ip.d) && 2 <= w.ip.d <= 254
            && w.gateway == Ip(s.ipam.base0, s.ipam.base1, z, 1) && w.netmask == Ip(255, 255, 255, 0)
            && t in s.ipam.held && s.ipam.held[t] == w.ip
  {
    assert TaskAgrees(t, s.tasks[t], s.nodes.Keys, s.ipam);
    assert s.ipam.ValidAddress(s.ipam.held[t]);
  }

  /** An unfinished task that uses address `ip`. */
  predicate Uses(task: Task, ip: Ip) {
    !task.state.IsTerminal() && task.network.Some? && task.network.value.ip == ip
  }

  predicate Share(a: Task, b: Task) {
    a.network.Some? && Uses(a, a.network.value.ip) && Uses(b, a.network.value.ip)
  }

  /** No two unfinished tasks use the same address. */
  ghost predicate NetworksDistinct(s: DurableState) {
    forall t, u | t in s.tasks && u in s.tasks && Share(s.tasks[t], s.tasks[u]) :: t == u
  }

  lemma EmptyInvariant(ipam: IpamState)
    requires ipam.held == map[] && ipam.subnets == map[]
    ensures Invariant(EmptyState(ipam))
  {
  }

  // ---------------------------------------------------------------------
  // Framing
  // ---------------------------------------------------------------------

  /** `ipam'` kept every octet of `ipam` and gives `t` the same address. */
  predicate SameFor(t: TaskId, ipam: IpamState, ipam': IpamState) {
    && ipam'.base0 == ipam.base0 && ipam'.base1 == ipam.base1
    && (forall n | n in ipam.subnets :: n in ipam'.subnets && ipam'.subnets[n] == ipam.subnets[n])
    && (t in ipam'.held <==> t in ipam.held)
    && (t in ipam.held ==> ipam'.held[t] == ipam.held[t])
  }

  lemma AgreesFramed(t: TaskId, task: Task, nodeIds: set<NodeId>, nodeIds': set<NodeId>,
                     ipam: IpamState, ipam': IpamState)
    requires TaskAgrees(t, task, nodeIds, ipam)
    requires nodeIds <= nodeIds' && SameFor(t, ipam, ipam')
    ensures TaskAgrees(t, task, nodeIds', ipam')
  {
  }

  /** Replacing one task by one that agrees, without touching what the other
      tasks hold, keeps the agreement. */
  lemma AgreementKept(s: DurableState, s': DurableState, t: TaskId)
    requires Agreement(s) && t in s.tasks && t in s'.tasks
    requires s'.tasks == s.tasks[t := s'.tasks[t]] && s'.nodes.Keys == s.nodes.Keys
    requires forall u | u != t :: SameFor(u, s.ipam, s'.ipam)
    requires TaskAgrees(t, s'.tasks[t], s'.nodes.Keys, s'.ipam)
    ensures Agreement(s')
  {
    hide TaskAgrees;
    forall u | u in s'.tasks ensures TaskAgrees(u, s'.tasks[u], s'.nodes.Keys, s'.ipam) {
      if u != t {
        AgreesFramed(u, s.tasks[u], s.nodes.Keys, s'.nodes.Keys, s.ipam, s'.ipam);
      }
    }
    forall u | u in s'.ipam.held ensures u in s'.tasks {
      assert u != t ==> SameFor(u, s.ipam, s'.ipam);
    }
  }

  // ---------------------------------------------------------------------
  // Task reports
  // ---------------------------------------------------------------------

  lemma ReportKeepsInvariant(s: DurableState, t: TaskId, state: TaskState, exitCode: Option<int>)
    requires Invariant(s) && ReportAllowed(s, t, state)
    ensures Invariant(s.SetTaskState(t, state, exitCode).state)
  {
    hide Sound, IpamState.WellFormed, NetworkMatches;
    ReportKeepsSound(s, t, state, exitCode);
    if t in s.tasks && !s.tasks[t].state.IsTerminal() {
      assert TaskAgrees(t, s.tasks[t], s.nodes.Keys, s.ipam);
      AgreementKept(s, s.SetTaskState(t, state, exitCode).state, t);
    }
  }

  /** A report keeps the invariant exactly when it is allowed: the one report
      that breaks it moves a task back to `Pending` while it sits on a node. */
  lemma ReportKeepsInvariantIff(s: DurableState, t: TaskId, state: TaskState, exitCode: Option<int>)
    requires Invariant(s)
    ensures Invariant(s.SetTaskState(t, state, exitCode).state) <==> ReportAllowed(s, t, state)
  {
    if ReportAllowed(s, t, state) {
      ReportKeepsInvariant(s, t, state, exitCode);
    } else {
      var s' := s.SetTaskState(t, state, exitCode).state;
      assert t in s'.tasks && !TaskAgrees(t, s'.tasks[t], s'.nodes.Keys, s'.ipam);
    }
  }

  // ---------------------------------------------------------------------
  // Jobs, nodes and snapshots
  // ---------------------------------------------------------------------

  lemma CreateJobKeepsInvariant(s: DurableState, spec: JobSpec, now: DateTime, jobId: JobId, ids: seq<TaskId>)
    requires Invariant(s)
    requires IsValidSpec(spec) ==> |ids| == |Copies(spec.tasks)|
    requires forall i | 0 <= i < |ids| :: ids[i] !in s.tasks
    ensures Invariant(s.CreateJob(spec, now, jobId, ids).state)
  {
    hide Sound, Copies, InsertTasks, IsValidSpec, NetworkMatches;
    CreateJobKeepsSound(s, spec, now, jobId, ids);
    if IsValidSpec(spec) {
      forall t ensures t in s.tasks ==> t in s.CreateJob(spec, now, jobId, ids).state.tasks {
        CreatedTasks(s, spec, now, jobId, ids, t);
      }
      var s' := s.CreateJob(spec, now, jobId, ids).state;
      forall t | t in s'.tasks ensures TaskAgrees(t, s'.tasks[t], s'.nodes.Keys, s'.ipam) {
        CreatedTasks(s, spec, now, jobId, ids, t);
      }
    }
  }

  lemma RegisterKeepsInvariant(s: DurableState, name: string, addr: string, total: Resources,
                               underlayIp: Option<Ip>, now: DateTime, id: NodeId)
    requires Invariant(s) && id !in s.nodes
    ensures Invariant(s.RegisterNode(name, addr, total, underlayIp, now, id).state)
  {
    hide Sound, TaskAgrees;
    RegisterKeepsSound(s, name, addr, total, underlayIp, now, id);
    var s' := s.RegisterNode(name, addr, total, underlayIp, now, id).state;
    forall t | t in s'.tasks ensures TaskAgrees(t, s'.tasks[t], s'.nodes.Keys, s'.ipam) {
      AgreesFramed(t, s.tasks[t], s.nodes.Keys, s'.nodes.Keys, s.ipam, s'.ipam);
    }
  }

  lemma HeartbeatKeepsInvariant(s: DurableState, n: NodeId, underlayIp: Option<Ip>, now: DateTime)
    requires Invariant(s)
    ensures Invariant(s.Heartbeat(n, underlayIp, now).state)
  {
    hide Sound, TaskAgrees;
    HeartbeatKeepsSound(s, n, underlayIp, now);
    assert s.Heartbeat(n, underlayIp, now).state.nodes.Keys == s.nodes.Keys;
  }

  lemma SnapshotsKeepInvariant(s: DurableState, s': DurableState)
    requires Invariant(s) && s' == s.(snapshots := s'.snapshots)
    ensures Invariant(s')
  {
    hide Sound;
    SnapshotsKeepSound(s, s');
  }

  lemma RecountKeepsInvariant(s: DurableState)
    requires Invariant(s)
    ensures Invariant(Recounted(s)) && UsedExact(Recounted(s))
  {
    hide Sound, TaskAgrees, UsedExact, RecountOf;
    RecountKeepsSound(s);
    assert Recounted(s).nodes.Keys == s.nodes.Keys;
  }

  // ---------------------------------------------------------------------
  // Requeueing and placing one task
  // ---------------------------------------------------------------------

  lemma RequeueKeepsInvariant(s: DurableState, t: TaskId)
    requires Invariant(s)
    requires t in s.tasks && s.tasks[t].state.HoldsResources() && s.tasks[t].assignedNode.Some?
    ensures Invariant(RequeueOne(s, t).0)
  {
    hide Sound, IpamState.WellFormed, NetworkMatches;
    RequeueKeepsSound(s, t);
    assert TaskAgrees(t, s.tasks[t], s.nodes.Keys, s.ipam);
    AgreementKept(s, RequeueOne(s, t).0, t);
  }

  /** In a state with the invariant a pending task holds no address. */
  lemma PendingHoldsNothing(s: DurableState, t: TaskId)
    requires Agreement(s) && t in s.tasks && s.tasks[t].state.Pending?
    ensures t !in s.ipam.held
  {
    assert TaskAgrees(t, s.tasks[t], s.nodes.Keys, s.ipam);
  }

  /** What placing a pending task that holds no address comes down to: both
      branches that give an address back without journaling it are dead, and a
      failed allocation leaves the whole state as it was. */
  lemma PlaceOneCases(s: DurableState, t: TaskId, now: DateTime)
    requires KeysMatch(s) && s.ipam.WellFormed()
    requires t in s.tasks && s.tasks[t].state.Pending? && t !in s.ipam.held
    ensures match PickNode(s.nodes, s.tasks[t], now)
            case None => PlaceOne(s, t, now) == (s, [])
            case Some(n) =>
              && n in s.nodes && s.nodes[n].id == n && IsEligible(s.nodes[n], s.tasks[t], now)
              && if !s.tasks[t].spec.networkEnabled then PlaceOne(s, t, now) == Commit(s, t, n, None)
                 else
                   var (ip, ipam') := s.ipam.Allocate(n, t);
                   if ip.None? then PlaceOne(s, t, now) == (s, []) else
                     && ipam'.GatewayFor(n).Some?
                     && PlaceOne(s, t, now) == Commit(s.(ipam := ipam'), t, n,
                          Some(NetworkAssignment(ip.value, ipam'.GatewayFor(n).value, NETMASK)))
  {
    hide Commit, IsEligible;
    var pick := PickNode(s.nodes, s.tasks[t], now);
    if pick.Some? {
      var n := pick.value;
      AllocateKeeps(s.ipam, n, t);
      if s.ipam.Allocate(n, t).0.None? {
        FailedAllocateChangesNothing(s.ipam, n, t);
        assert s.(ipam := s.ipam) == s;
      }
    }
  }

  lemma PlaceKeepsInvariant(s: DurableState, t: TaskId, now: DateTime)
    requires Invariant(s) && t in s.tasks && s.tasks[t].state.Pending?
    ensures Invariant(PlaceOne(s, t, now).0)
    ensures UsedExact(s) ==> UsedExact(PlaceOne(s, t, now).0)
  {
    hide Sound, PlaceOne, Commit, UsedExact;
    InvariantParts(s);
    PlaceKeepsSound(s, t, now);
    InvariantParts(s);
    PendingHoldsNothing(s, t);
    PlaceOneCases(s, t, now);
    var pick := PickNode(s.nodes, s.tasks[t], now);
    if pick.Some? {
      var n := pick.value;
      var (ip, ipam') := s.ipam.Allocate(n, t);
      AllocateKeeps(s.ipam, n, t);
      if !s.tasks[t].spec.networkEnabled {
        assert s.(ipam := s.ipam) == s;
        CommitKeepsAgreement(s, s.ipam, t, n, None);
      } else if ip.Some? {
        var network := NetworkAssignment(ip.value, ipam'.GatewayFor(n).value, NETMASK);
        CommitKeepsAgreement(s, ipam', t, n, Some(network));
      }
    }
  }

  lemma CommitKeepsAgreement(s: DurableState, ipam': IpamState, t: TaskId, n: NodeId,
                             network: Option<NetworkAssignment>)
    requires Agreement(s) && KeysMatch(s)
    requires t in s.tasks && s.tasks[t].state.Pending? && n in s.nodes
    requires network.Some? == s.tasks[t].spec.networkEnabled
    requires network.None? ==> ipam' == s.ipam
    requires network.Some? ==> ipam'.held == s.ipam.held[t := network.value.ip]
                               && NetworkMatches(network.value, n, network.value.ip, ipam')
    requires forall u | u != t :: SameFor(u, s.ipam, ipam')
    ensures var s' := Commit(s.(ipam := ipam'), t, n, network).0; Agreement(s') && KeysMatch(s')
  {
    var s' := Commit(s.(ipam := ipam'), t, n, network).0;
    assert s'.nodes.Keys == s.nodes.Keys;
    assert TaskAgrees(t, s.tasks[t], s.nodes.Keys, s.ipam);
    forall u | u in s'.tasks ensures TaskAgrees(u, s'.tasks[u], s'.nodes.Keys, s'.ipam) {
      if u != t {
        AgreesFramed(u, s.tasks[u], s.nodes.Keys, s'.nodes.Keys, s.ipam, s'.ipam);
      }
    }
  }
}
