/** One simulation lemma per mutation: replaying the operations a mutation
    journals on the state before it gives the state after it. */
module Replay {
  import opened Types
  import opened Ipam
  import opened Durable
  import opened Placement
  import opened Accounting
  import opened Discovery
  import opened Scheduling
  import opened Soundness

  lemma CreateJobReplays(s: DurableState, spec: JobSpec, now: DateTime, jobId: JobId, ids: seq<TaskId>)
    requires IsValidSpec(spec) ==> |ids| == |Copies(spec.tasks)|
    ensures var out := s.CreateJob(spec, now, jobId, ids); Replays(s, out.ops, out.state)
  {
    var out := s.CreateJob(spec, now, jobId, ids);
    if IsValidSpec(spec) {
      ApplySingle(s, out.ops[0], 0);
    }
  }

  lemma RegisterReplays(s: DurableState, name: string, addr: string, total: Resources,
                        underlayIp: Option<Ip>, now: DateTime, id: NodeId)
    ensures var out := s.RegisterNode(name, addr, total, underlayIp, now, id); Replays(s, out.ops, out.state)
  {
    var out := s.RegisterNode(name, addr, total, underlayIp, now, id);
    ApplySingle(s, out.ops[0], 0);
    SameErased(ApplyOne(s, out.ops[0], 0), out.state);
  }

  lemma HeartbeatReplays(s: DurableState, n: NodeId, underlayIp: Option<Ip>, now: DateTime)
    ensures var out := s.Heartbeat(n, underlayIp, now); Replays(s, out.ops, out.state)
  {
    SameErased(s, s.Heartbeat(n, underlayIp, now).state);
  }

  lemma ReportReplays(s: DurableState, t: TaskId, state: TaskState, exitCode: Option<int>)
    ensures var out := s.SetTaskState(t, state, exitCode); Replays(s, out.ops, out.state)
  {
    var out := s.SetTaskState(t, state, exitCode);
    var report := SetTaskState(t, state, exitCode);
    if out.ops == [report] {
      ApplySingle(s, report, 0);
    } else if out.ops == [IpamRelease(t), report] {
      ApplyPair(s, IpamRelease(t), report, 0);
    }
  }

  lemma RequestSnapshotReplays(s: DurableState, t: TaskId, mem: Option<string>, path: Option<string>,
                               now: DateTime, id: SnapshotId)
    ensures var out := s.RequestSnapshot(t, mem, path, now, id); Replays(s, out.ops, out.state)
  {
    var out := s.RequestSnapshot(t, mem, path, now, id);
    if out.ops != [] {
      ApplySingle(s, out.ops[0], 0);
    }
  }

  lemma ReportSnapshotReplays(s: DurableState, t: TaskId, id: SnapshotId, report: SnapshotReport)
    ensures var out := s.ReportSnapshotResult(t, id, report); Replays(s, out.ops, out.state)
  {
    var out := s.ReportSnapshotResult(t, id, report);
    if out.ops != [] {
      ApplySingle(s, out.ops[0], 0);
    }
  }

  lemma RecountReplays(s: DurableState)
    ensures Replays(s, [], Recounted(s))
  {
    RecountErasesNothing(s);
  }

  lemma RequeueReplays(s: DurableState, t: TaskId)
    ensures var (s', ops) := RequeueOne(s, t); Replays(s, ops, s')
  {
    var (s', ops) := RequeueOne(s, t);
    if ops == [TaskRequeued(t)] {
      ApplySingle(s, TaskRequeued(t), 0);
    } else {
      ApplyPair(s, IpamRelease(t), TaskRequeued(t), 0);
    }
  }

  lemma CommitReplays(s: DurableState, ipam': IpamState, t: TaskId, n: NodeId, network: Option<NetworkAssignment>)
    requires t in s.tasks && n in s.nodes && s.nodes[n].id == n
    requires network.None? ==> ipam' == s.ipam
    requires network.Some? ==> ipam' == s.ipam.Allocate(n, t).1
    ensures var (s', ops) := Commit(s.(ipam := ipam'), t, n, network); Replays(s, ops, s')
  {
    hide Commit, ServicesFor;
    CommitShape(s.(ipam := ipam'), t, n, network);
    var (s', ops) := Commit(s.(ipam := ipam'), t, n, network);
    var assignment := TaskAssigned(t, n, network, ServicesFor(s.tasks, s.tasks[t]));
    if network.None? {
      ApplySingle(s, assignment, 0);
      SameErased(ApplyOne(s, assignment, 0), s');
    } else {
      var allocate := IpamAllocate(n, t, network.value.ip);
      ApplyPair(s, allocate, assignment, 0);
      SameErased(ApplyOne(ApplyOne(s, allocate, 0), assignment, 0), s');
    }
  }

  /** The scheduler gives back an address without journaling it: the task still
      holds one from before and its new node owns no /24. */
  ghost predicate LosesAddress(s: DurableState, t: TaskId, now: DateTime)
    requires t in s.tasks
  {
    && s.tasks[t].spec.networkEnabled
    && t in s.ipam.held
    && PickNode(s.nodes, s.tasks[t], now).Some?
    && PickNode(s.nodes, s.tasks[t], now).value !in s.ipam.subnets
  }

  /** Placing a task is replayed faithfully exactly when it does not lose an
      address on the way. */
  lemma PlaceReplaysIff(s: DurableState, t: TaskId, now: DateTime)
    requires KeysMatch(s) && s.ipam.WellFormed() && t in s.tasks
    ensures var (s', ops) := PlaceOne(s, t, now);
            Replays(s, ops, s') <==> !LosesAddress(s, t, now)
  {
    var task := s.tasks[t];
    var (s', ops) := PlaceOne(s, t, now);
    ApplyNone(s, 0);
    match PickNode(s.nodes, task, now)
    case None =>
    case Some(n) =>
      assert n in s.nodes && s.nodes[n].id == n;
      if !task.spec.networkEnabled {
        CommitReplays(s, s.ipam, t, n, None);
        assert s.(ipam := s.ipam) == s;
      } else {
        AllocateKeeps(s.ipam, n, t);
        var (ip, ipam') := s.ipam.Allocate(n, t);
        if ip.None? {
          FailedAllocateChangesNothing(s.ipam, n, t);
          assert s' == s;
        } else if ipam'.GatewayFor(n).None? {
          assert t in s.ipam.held && t !in s'.ipam.held;
          assert s.Erased().ipam != s'.Erased().ipam;
        } else {
          CommitReplays(s, ipam', t, n, Some(NetworkAssignment(ip.value, ipam'.GatewayFor(n).value, NETMASK)));
        }
      }
  }

  /** The records of a placement are replayed faithfully even if an address is
      lost. */
  lemma PlaceReplaysRecords(s: DurableState, t: TaskId, now: DateTime)
    requires KeysMatch(s) && t in s.tasks
    ensures var (s', ops) := PlaceOne(s, t, now); RecordsReplay(s, ops, s')
  {
    hide PlaceOne, Commit, ServicesFor, IpamState.WellFormed, ApplyAll;
    var ipam', n, network := PlaceShape(s, t, now);
    if PlaceOne(s, t, now) == (s.(ipam := ipam'), []) {
      ApplyNone(s, 0);
      SameRecords(s, s.(ipam := ipam'));
    } else {
      CommitShape(s.(ipam := ipam'), t, n, network);
      var (s', ops) := Commit(s.(ipam := ipam'), t, n, network);
      var assignment := TaskAssigned(t, n, network, ServicesFor(s.tasks, s.tasks[t]));
      if network.None? {
        ApplySingle(s, assignment, 0);
        SameRecords(ApplyOne(s, assignment, 0), s');
      } else {
        var allocate := IpamAllocate(n, t, network.value.ip);
        ApplyPair(s, allocate, assignment, 0);
        SameRecords(ApplyOne(ApplyOne(s, allocate, 0), assignment, 0), s');
      }
    }
  }
}
