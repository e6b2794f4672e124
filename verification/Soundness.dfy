/** What holds after any crash, wherever it hits: ids, nodes, the allocator and
    the accounting. The agreement of tasks and addresses is not part of it. */
module Soundness {
  import opened Types
  import opened Ipam
  import opened Durable
  import opened Placement
  import opened Accounting
  import opened Scheduling

  /** Tasks sit on registered nodes, and a pending task on none. */
  predicate NodesKnown(s: DurableState) {
    forall t | t in s.tasks ::
      && (s.tasks[t].assignedNode.Some? ==> s.tasks[t].assignedNode.value in s.nodes)
      && (s.tasks[t].state.Pending? ==> s.tasks[t].assignedNode.None?)
  }

  ghost predicate Sound(s: DurableState) {
    && KeysMatch(s)
    && s.ipam.WellFormed()
    && NodesKnown(s)
    && NoOvercommit(s)
    && UsedCovers(s)
  }

  // ---------------------------------------------------------------------
  // Accounting
  // ---------------------------------------------------------------------

  lemma WithinTransitive(a: Resources, b: Resources, c: Resources)
    requires a.Within(b) && b.Within(c)
    ensures a.Within(c)
  {
  }

  /** A task that demands the same as before or nothing does not raise the
      recount of any node. */
  lemma RecountShrinks(tasks: map<TaskId, Task>, t: TaskId, task: Task, n: NodeId)
    requires t in tasks
    requires DemandOf(task, n) == DemandOf(tasks[t], n) || DemandOf(task, n) == NO_DEMAND
    ensures RecountOf(tasks[t := task], n).Within(RecountOf(tasks, n))
  {
    hide DemandFrom, DemandOn, DemandOf, Demand.Saturated, Demand.Plus;
    DemandUpdate(tasks, t, task, n);
    LessIsWithin(DemandFrom(tasks, tasks.Keys - {t}, n), DemandOf(task, n), DemandOf(tasks[t], n));
  }

  lemma LessIsWithin(rest: Demand, a: Demand, b: Demand)
    requires a == b || a == NO_DEMAND
    ensures rest.Plus(a).Saturated().Within(rest.Plus(b).Saturated())
  {
  }

  /** Replacing one task by one that demands no more keeps the accounting. */
  lemma AccountingKept(s: DurableState, s': DurableState, t: TaskId, task: Task)
    requires NoOvercommit(s) && UsedCovers(s)
    requires t in s.tasks && s'.tasks == s.tasks[t := task] && s'.nodes == s.nodes
    requires forall n :: DemandOf(task, n) == DemandOf(s.tasks[t], n) || DemandOf(task, n) == NO_DEMAND
    ensures NoOvercommit(s') && UsedCovers(s')
  {
    forall n | n in s'.nodes
      ensures RecountOf(s'.tasks, n).Within(s'.nodes[n].total) && RecountOf(s'.tasks, n).Within(s'.nodes[n].used)
    {
      RecountShrinks(s.tasks, t, task, n);
      WithinTransitive(RecountOf(s'.tasks, n), RecountOf(s.tasks, n), s.nodes[n].total);
      WithinTransitive(RecountOf(s'.tasks, n), RecountOf(s.tasks, n), s.nodes[n].used);
    }
  }

  /** Committing a task to an eligible node keeps the accounting: the recorded
      `used` covers the demand and the task fits on top of it. */
  lemma CommitKeepsAccounting(s: DurableState, t: TaskId, n: NodeId, network: Option<NetworkAssignment>)
    requires NoOvercommit(s) && UsedCovers(s)
    requires t in s.tasks && s.tasks[t].state.Pending? && n in s.nodes && s.nodes[n].id == n
    requires s.tasks[t].spec.resources.FitsIn(s.nodes[n].total, s.nodes[n].used)
    ensures NoOvercommit(Commit(s, t, n, network).0) && UsedCovers(Commit(s, t, n, network).0)
    ensures UsedExact(s) ==> UsedExact(Commit(s, t, n, network).0)
  {
    hide RecountOf, DemandOn, Resources.Within, Resources.SaturatingAdd, Resources.FitsIn, Discovery.ServicesFor;
    var s' := Commit(s, t, n, network).0;
    var added := s.tasks[t].spec.resources;
    forall m | m in s'.nodes
      ensures RecountOf(s'.tasks, m).Within(s'.nodes[m].total) && RecountOf(s'.tasks, m).Within(s'.nodes[m].used)
      ensures UsedExact(s) ==> s'.nodes[m].used == RecountOf(s'.tasks, m)
    {
      assert s'.tasks == s.tasks[t := s'.tasks[t]];
      RecountAdds(s.tasks, t, s'.tasks[t], m);
      if m == n {
        AddWithin(RecountOf(s.tasks, n), s.nodes[n].used, added, s.nodes[n].total);
      }
    }
  }

  /** Placing a pending task adds its resources to the recount of its node and
      to no other. */
  lemma RecountAdds(tasks: map<TaskId, Task>, t: TaskId, task: Task, n: NodeId)
    requires t in tasks && tasks[t].state.Pending? && task.state.Assigned?
    ensures RecountOf(tasks[t := task], n) ==
            if task.assignedNode == Some(n) then RecountOf(tasks, n).SaturatingAdd(task.spec.resources)
            else RecountOf(tasks, n)
  {
    hide DemandOn, DemandFrom, Demand.Saturated, Resources.SaturatingAdd;
    DemandUpdate(tasks, t, task, n);
    var others := DemandFrom(tasks, tasks.Keys - {t}, n);
    assert others.Plus(NO_DEMAND) == others;
    if task.assignedNode == Some(n) {
      SaturatedPlus(others, task, n);
    }
  }

  lemma AddWithin(counted: Resources, used: Resources, added: Resources, total: Resources)
    requires counted.Within(used) && added.FitsIn(total, used)
    ensures counted.SaturatingAdd(added).Within(total) && counted.SaturatingAdd(added).Within(used.SaturatingAdd(added))
  {
  }

  /** No task demands anything of a node that is not registered. */
  lemma UnknownNodeUnused(s: DurableState, n: NodeId)
    requires NodesKnown(s) && n !in s.nodes
    ensures RecountOf(s.tasks, n) == NO_RESOURCES
  {
    forall t | t in s.tasks.Keys ensures DemandAt(s.tasks, t, n) == NO_DEMAND {}
    DemandZero(s.tasks, s.tasks.Keys, n);
  }

  // ---------------------------------------------------------------------
  // Jobs, nodes and snapshots
  // ---------------------------------------------------------------------

  lemma {:induction false} InsertTasksLookup(tasks: map<TaskId, Task>, added: seq<Task>, t: TaskId)
    ensures var m := InsertTasks(tasks, added);
            && (t in m <==> t in tasks || exists i :: 0 <= i < |added| && added[i].id == t)
            && (t in m ==>
                  || (t in tasks && m[t] == tasks[t] && forall i | 0 <= i < |added| :: added[i].id != t)
                  || (exists i :: 0 <= i < |added| && added[i].id == t && m[t] == added[i]))
  {
    if added != [] {
      var front, last := added[..|added| - 1], added[|added| - 1];
      InsertTasksLookup(tasks, front, t);
      var m := InsertTasks(tasks, front);
      assert forall i | 0 <= i < |front| :: front[i] == added[i];
      if t == last.id {
        assert added[|added| - 1].id == t;
      } else if t in m && !(t in tasks && m[t] == tasks[t] && forall i | 0 <= i < |front| :: front[i].id != t) {
        var i :| 0 <= i < |front| && front[i].id == t && m[t] == front[i];
        assert added[i].id == t;
      }
    }
  }

  /** What a submission adds. */
  lemma CreatedTasks(s: DurableState, spec: JobSpec, now: DateTime, jobId: JobId, ids: seq<TaskId>, t: TaskId)
    requires IsValidSpec(spec) && |ids| == |Copies(spec.tasks)|
    requires forall i | 0 <= i < |ids| :: ids[i] !in s.tasks
    ensures var s' := s.CreateJob(spec, now, jobId, ids).state;
            && (t in s.tasks ==> t in s'.tasks && s'.tasks[t] == s.tasks[t])
            && (t in s'.tasks && t !in s.tasks ==>
                  && s'.tasks[t].id == t && s'.tasks[t].state.Pending? && s'.tasks[t].assignedNode.None?
                  && s'.tasks[t].network.None? && s'.tasks[t].exitCode.None?)
  {
    hide Copies, InsertTasks;
    var s' := s.CreateJob(spec, now, jobId, ids).state;
    var created := NewTasks(Copies(spec.tasks), jobId, ids);
    InsertTasksLookup(s.tasks, created, t);
    if t in s'.tasks && exists i :: 0 <= i < |created| && created[i].id == t {
      var i :| 0 <= i < |created| && created[i].id == t;
      assert created[i].id == ids[i];
    }
  }

  lemma CreateJobKeepsSound(s: DurableState, spec: JobSpec, now: DateTime, jobId: JobId, ids: seq<TaskId>)
    requires Sound(s)
    requires IsValidSpec(spec) ==> |ids| == |Copies(spec.tasks)|
    requires forall i | 0 <= i < |ids| :: ids[i] !in s.tasks
    ensures Sound(s.CreateJob(spec, now, jobId, ids).state)
  {
    hide Copies, InsertTasks, IsValidSpec, RecountOf;
    if IsValidSpec(spec) {
      var s' := s.CreateJob(spec, now, jobId, ids).state;
      forall t ensures t in s.tasks ==> t in s'.tasks && s'.tasks[t] == s.tasks[t]
               ensures t in s'.tasks && t !in s.tasks ==>
                         s'.tasks[t].id == t && s'.tasks[t].state.Pending? && s'.tasks[t].assignedNode.None?
      {
        CreatedTasks(s, spec, now, jobId, ids, t);
      }
      forall n | n in s'.nodes ensures RecountOf(s'.tasks, n) == RecountOf(s.tasks, n) {
        SameRecount(s.tasks, s'.tasks, n);
      }
    }
  }

  lemma SameRecount(tasks: map<TaskId, Task>, tasks': map<TaskId, Task>, n: NodeId)
    requires forall t | t in tasks :: t in tasks' && tasks'[t] == tasks[t]
    requires forall t | t in tasks' && t !in tasks :: tasks'[t].state.Pending?
    ensures RecountOf(tasks', n) == RecountOf(tasks, n)
  {
    DemandUnchanged(tasks, tasks', n);
  }

  lemma RegisterKeepsSound(s: DurableState, name: string, addr: string, total: Resources,
                           underlayIp: Option<Ip>, now: DateTime, id: NodeId)
    requires Sound(s) && id !in s.nodes
    ensures Sound(s.RegisterNode(name, addr, total, underlayIp, now, id).state)
  {
    hide RecountOf, IpamState.WellFormed;
    UnknownNodeUnused(s, id);
  }

  lemma HeartbeatKeepsSound(s: DurableState, n: NodeId, underlayIp: Option<Ip>, now: DateTime)
    requires Sound(s)
    ensures Sound(s.Heartbeat(n, underlayIp, now).state)
  {
    hide RecountOf, IpamState.WellFormed;
    assert s.Heartbeat(n, underlayIp, now).state.nodes.Keys == s.nodes.Keys;
  }

  lemma SnapshotsKeepSound(s: DurableState, s': DurableState)
    requires Sound(s) && s' == s.(snapshots := s'.snapshots)
    ensures Sound(s')
  {
    hide RecountOf, IpamState.WellFormed;
  }

  lemma RecountKeepsSound(s: DurableState)
    requires Sound(s)
    ensures Sound(Recounted(s)) && UsedExact(Recounted(s))
  {
    hide RecountOf, IpamState.WellFormed;
    assert Recounted(s).nodes.Keys == s.nodes.Keys;
  }

  // ---------------------------------------------------------------------
  // Reports, requeueing, placing
  // ---------------------------------------------------------------------

  /** A report may return a task to `Pending` only while the task sits on no
      node. Agents report `Running`, `Succeeded` and `Failed` only. */
  predicate ReportAllowed(s: DurableState, t: TaskId, state: TaskState) {
    state.Pending? && t in s.tasks && !s.tasks[t].state.IsTerminal() ==> s.tasks[t].assignedNode.None?
  }

  lemma ReportKeepsSound(s: DurableState, t: TaskId, state: TaskState, exitCode: Option<int>)
    requires Sound(s) && ReportAllowed(s, t, state)
    ensures Sound(s.SetTaskState(t, state, exitCode).state)
  {
    hide RecountOf, IpamState.WellFormed;
    if t in s.tasks && !s.tasks[t].state.IsTerminal() {
      var s' := s.SetTaskState(t, state, exitCode).state;
      ReleaseKeeps(s.ipam, t);
      AccountingKept(s, s', t, s'.tasks[t]);
    }
  }

  lemma RequeueKeepsSound(s: DurableState, t: TaskId)
    requires Sound(s) && t in s.tasks
    ensures Sound(RequeueOne(s, t).0)
  {
    hide RecountOf, IpamState.WellFormed;
    var s' := RequeueOne(s, t).0;
    ReleaseKeeps(s.ipam, t);
    AccountingKept(s, s', t, s'.tasks[t]);
  }

  /** Whatever the allocator holds, placing a task changes the allocator alone
      and journals nothing, or commits the task to an eligible node. */
  lemma PlaceShape(s: DurableState, t: TaskId, now: DateTime)
    returns (ipam': IpamState, n: NodeId, network: Option<NetworkAssignment>)
    requires KeysMatch(s) && t in s.tasks
    ensures s.ipam.WellFormed() ==> ipam'.WellFormed() && TouchesOnly(s.ipam, ipam', t)
    ensures || PlaceOne(s, t, now) == (s.(ipam := ipam'), [])
            || (&& n in s.nodes && s.nodes[n].id == n && IsEligible(s.nodes[n], s.tasks[t], now)
                && PlaceOne(s, t, now) == Commit(s.(ipam := ipam'), t, n, network))
  {
    hide IpamState.Allocate, IpamState.WellFormed, Commit, IsEligible;
    ipam', n, network := s.ipam, "", None;
    var pick := PickNode(s.nodes, s.tasks[t], now);
    if pick.Some? {
      n := pick.value;
      if s.tasks[t].spec.networkEnabled {
        var (ip, next) := s.ipam.Allocate(n, t);
        ipam' := next;
        if s.ipam.WellFormed() {
          CallsAreLocal(s.ipam, n, t);
        }
        if ip.Some? && next.GatewayFor(n).None? {
          ipam' := next.Release(t).1;
        } else if ip.Some? {
          network := Some(NetworkAssignment(ip.value, next.GatewayFor(n).value, NETMASK));
        }
      } else {
        assert s.(ipam := s.ipam) == s;
      }
    }
  }

  lemma CommitKeepsSound(s: DurableState, t: TaskId, n: NodeId, network: Option<NetworkAssignment>)
    requires Sound(s) && t in s.tasks && s.tasks[t].state.Pending? && n in s.nodes && s.nodes[n].id == n
    requires s.tasks[t].spec.resources.FitsIn(s.nodes[n].total, s.nodes[n].used)
    ensures Sound(Commit(s, t, n, network).0)
    ensures UsedExact(s) ==> UsedExact(Commit(s, t, n, network).0)
  {
    hide RecountOf, IpamState.WellFormed, NoOvercommit, UsedCovers, UsedExact, Discovery.ServicesFor;
    CommitKeepsAccounting(s, t, n, network);
    assert Commit(s, t, n, network).0.nodes.Keys == s.nodes.Keys;
  }

  lemma PlaceKeepsSound(s: DurableState, t: TaskId, now: DateTime)
    requires Sound(s) && t in s.tasks && s.tasks[t].state.Pending?
    ensures Sound(PlaceOne(s, t, now).0)
    ensures UsedExact(s) ==> UsedExact(PlaceOne(s, t, now).0)
  {
    hide PlaceOne, Commit, IpamState.WellFormed, RecountOf;
    var ipam', n, network := PlaceShape(s, t, now);
    var s1 := s.(ipam := ipam');
    assert Sound(s1);
    if PlaceOne(s, t, now) != (s1, []) {
      CommitKeepsSound(s1, t, n, network);
    }
  }
}
