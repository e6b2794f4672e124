/** What the recorded `used` of a node counts: the demand of the tasks on it and the
    shares given up since the last recount. A start forgets the latter. */
module Shares {
  import opened Types
  import opened Ipam
  import opened Durable
  import opened Accounting
  import opened Scheduling
  import opened Soundness
  import opened Invariants
  import opened Runs
  import opened Compaction

  /** What a task on node `n` gives up in an event: its share, if it is requeued or
      reported as no longer running. */
  ghost function GaveUp(s: DurableState, e: Event, n: NodeId): Demand {
    match e
    case TaskReported(t, state, _) =>
      if t in s.tasks && !s.tasks[t].state.IsTerminal() && !state.HoldsResources() then DemandAt(s.tasks, t, n)
      else NO_DEMAND
    case OrphanRequeued(t, _) => DemandAt(s.tasks, t, n)
    case _ => NO_DEMAND
  }

  /** What was given up on node `n` since the last recount of the run. */
  ghost function GivenUp(s: DurableState, events: seq<Event>, n: NodeId): Demand {
    if events == [] then NO_DEMAND else
      var front, last := events[..|events| - 1], events[|events| - 1];
      if last.UsedRecounted? then NO_DEMAND else GivenUp(s, front, n).Plus(GaveUp(Run(s, front).0, last, n))
  }

  /** The recorded `used` of `n` is the demand on it and `more`. */
  ghost predicate Counts(s: DurableState, n: NodeId, more: Demand) {
    if n in s.nodes then
      && s.nodes[n].used.cpuMillis == DemandOn(s.tasks, n).cpu + more.cpu
      && s.nodes[n].used.memMb == DemandOn(s.tasks, n).mem + more.mem
      && s.nodes[n].used.Within(s.nodes[n].total)
    else more == NO_DEMAND
  }

  /** The totals of `n` lie below the top of the 64 bit range, so sums that fit it
      do not saturate. */
  predicate BelowTop(s: DurableState, n: NodeId) {
    n in s.nodes ==> s.nodes[n].total.cpuMillis < U64_MAX && s.nodes[n].total.memMb < U64_MAX
  }

  // ---------------------------------------------------------------------
  // One event
  // ---------------------------------------------------------------------

  lemma RecountCounts(s: DurableState, n: NodeId)
    requires NoOvercommit(s) && BelowTop(s, n) && n in s.nodes
    ensures Counts(Recounted(s), n, NO_DEMAND)
  {
    hide DemandOn;
    TrueDemandFits(s, n);
    assert RecountOf(s.tasks, n).Within(s.nodes[n].total);
  }

  /** A task that changes in one place. */
  lemma ShareChanges(s: DurableState, s': DurableState, t: TaskId, n: NodeId, more: Demand, gone: Demand)
    requires Counts(s, n, more) && n in s.nodes && t in s.tasks && t in s'.tasks
    requires s'.tasks == s.tasks[t := s'.tasks[t]]
    requires n in s'.nodes && s'.nodes[n] == s.nodes[n]
    requires DemandOf(s'.tasks[t], n).Plus(gone) == DemandOf(s.tasks[t], n)
    ensures Counts(s', n, more.Plus(gone))
  {
    hide DemandFrom, DemandOn, DemandOf;
    DemandUpdate(s.tasks, t, s'.tasks[t], n);
  }

  lemma SameShares(s: DurableState, s': DurableState, n: NodeId, more: Demand)
    requires Counts(s, n, more) && n in s.nodes && n in s'.nodes
    requires s'.tasks == s.tasks && s'.nodes[n].used == s.nodes[n].used && s'.nodes[n].total == s.nodes[n].total
    ensures Counts(s', n, more) && more.Plus(NO_DEMAND) == more
  {
  }

  lemma CreateShares(s: DurableState, spec: JobSpec, now: DateTime, jobId: JobId, ids: seq<TaskId>, n: NodeId)
    requires Allowed(s, JobSubmitted(spec, now, jobId, ids))
    ensures var s' := s.CreateJob(spec, now, jobId, ids).state;
            s'.nodes == s.nodes && DemandOn(s'.tasks, n) == DemandOn(s.tasks, n)
  {
    hide Copies, InsertTasks, IsValidSpec, DemandFrom;
    if IsValidSpec(spec) {
      var s' := s.CreateJob(spec, now, jobId, ids).state;
      forall t ensures t in s.tasks ==> t in s'.tasks && s'.tasks[t] == s.tasks[t] {
        CreatedTasks(s, spec, now, jobId, ids, t);
      }
      forall t | t in s'.tasks ensures DemandAt(s.tasks, t, n) == DemandAt(s'.tasks, t, n) {
        CreatedTasks(s, spec, now, jobId, ids, t);
      }
      DemandUnchanged(s.tasks, s'.tasks, n);
    }
  }

  /** A placement adds what it places to its node and to no other. */
  lemma CommitShares(s: DurableState, t: TaskId, m: NodeId, network: Option<NetworkAssignment>, n: NodeId, more: Demand)
    requires Counts(s, n, more) && BelowTop(s, n) && n in s.nodes
    requires t in s.tasks && s.tasks[t].state.Pending? && m in s.nodes && s.nodes[m].id == m
    requires s.tasks[t].spec.resources.FitsIn(s.nodes[m].total, s.nodes[m].used)
    ensures Counts(Commit(s, t, m, network).0, n, more)
  {
    hide DemandFrom, DemandOn, Discovery.ServicesFor;
    var s' := Commit(s, t, m, network).0;
    DemandUpdate(s.tasks, t, s'.tasks[t], n);
  }

  lemma PlaceShares(s: DurableState, t: TaskId, now: DateTime, n: NodeId, more: Demand)
    requires KeysMatch(s) && Counts(s, n, more) && BelowTop(s, n) && n in s.nodes
    requires t in s.tasks && s.tasks[t].state.Pending?
    ensures Counts(PlaceOne(s, t, now).0, n, more)
  {
    hide PlaceOne, Commit, DemandOn;
    var ipam', m, network := PlaceShape(s, t, now);
    if PlaceOne(s, t, now) != (s.(ipam := ipam'), []) {
      CommitShares(s.(ipam := ipam'), t, m, network, n, more);
    }
  }

  /** What a report takes from the demand of a task. */
  lemma ReportGives(s: DurableState, t: TaskId, state: TaskState, exitCode: Option<int>, n: NodeId)
    requires NodesKnown(s) && t in s.tasks && !s.tasks[t].state.IsTerminal()
    ensures var task' := s.SetTaskState(t, state, exitCode).state.tasks[t];
            DemandOf(task', n).Plus(GaveUp(s, TaskReported(t, state, exitCode), n)) == DemandOf(s.tasks[t], n)
  {
    hide IpamState.Release, Demand.Plus;
    PlusNothing(DemandOf(s.tasks[t], n));
    if state.HoldsResources() && s.tasks[t].state.Pending? {
      assert s.tasks[t].assignedNode.None?;
    }
  }

  lemma PlusNothing(d: Demand)
    ensures d.Plus(NO_DEMAND) == d && NO_DEMAND.Plus(d) == d
  {
  }

  lemma ReportShares(s: DurableState, t: TaskId, state: TaskState, exitCode: Option<int>, n: NodeId, more: Demand)
    requires NodesKnown(s) && Counts(s, n, more) && n in s.nodes
    ensures Counts(s.SetTaskState(t, state, exitCode).state, n,
                   more.Plus(GaveUp(s, TaskReported(t, state, exitCode), n)))
  {
    hide DemandOf, DemandOn, Counts, NodesKnown, IpamState.Release;
    var s' := s.SetTaskState(t, state, exitCode).state;
    if t in s.tasks && !s.tasks[t].state.IsTerminal() {
      ReportGives(s, t, state, exitCode, n);
      ShareChanges(s, s', t, n, more, GaveUp(s, TaskReported(t, state, exitCode), n));
    } else {
      SameShares(s, s', n, more);
    }
  }

  lemma RequeueShares(s: DurableState, t: TaskId, now: DateTime, n: NodeId, more: Demand)
    requires Counts(s, n, more) && n in s.nodes && t in s.tasks
    ensures Counts(RequeueOne(s, t).0, n, more.Plus(GaveUp(s, OrphanRequeued(t, now), n)))
  {
    hide DemandFrom, DemandOn, Counts, IpamState.Release, Demand.Plus;
    PlusNothing(DemandOf(s.tasks[t], n));
    ShareChanges(s, RequeueOne(s, t).0, t, n, more, DemandOf(s.tasks[t], n));
  }

  lemma CountsKnown(s: DurableState, s': DurableState, n: NodeId, more: Demand)
    requires Counts(s, n, more) && n in s.nodes && n in s'.nodes
    requires DemandOn(s'.tasks, n) == DemandOn(s.tasks, n)
    requires s'.nodes[n].used == s.nodes[n].used && s'.nodes[n].total == s.nodes[n].total
    ensures Counts(s', n, more) && more.Plus(NO_DEMAND) == more
  {
    hide DemandOn;
  }

  /** One event on a known node. */
  lemma StepShares(s: DurableState, e: Event, n: NodeId, more: Demand)
    requires Sound(s) && Allowed(s, e) && Counts(s, n, more) && BelowTop(s, n) && n in s.nodes
    ensures Counts(Step(s, e).0, n, if e.UsedRecounted? then NO_DEMAND else more.Plus(GaveUp(s, e, n)))
  {
    hide PlaceOne, RequeueOne, Recounted, Counts, BelowTop, DemandOn, IpamState.WellFormed, NoOvercommit, UsedCovers,
         DurableState.SetTaskState, DemandAt;
    match e
    case JobSubmitted(spec, now, jobId, ids) =>
      CreateShares(s, spec, now, jobId, ids, n);
      CountsKnown(s, Step(s, e).0, n, more);
    case TaskReported(t, state, exitCode) => ReportShares(s, t, state, exitCode, n, more);
    case OrphanRequeued(t, now) => RequeueShares(s, t, now, n, more);
    case UsedRecounted => RecountCounts(s, n);
    case TaskPlaced(t, now) =>
      PlaceShares(s, t, now, n, more);
      assert more.Plus(NO_DEMAND) == more;
    case _ => CountsKnown(s, Step(s, e).0, n, more);
  }

  /** One event where the node is not known yet. */
  lemma StepBefore(s: DurableState, e: Event, n: NodeId)
    requires Sound(s) && Allowed(s, e) && n !in s.nodes
    ensures GaveUp(s, e, n) == NO_DEMAND && Counts(Step(s, e).0, n, NO_DEMAND)
  {
    hide PlaceOne, RecountOf, DemandOn, IpamState.WellFormed, NoOvercommit, UsedCovers, IpamState.Release, Copies,
         InsertTasks, IsValidSpec;
    NoDemandElsewhere(s, n);
    if e.TaskPlaced? {
      PlaceTouchesOneTask(s, e.t, e.now);
    }
  }

  lemma NoDemandElsewhere(s: DurableState, n: NodeId)
    requires NodesKnown(s) && n !in s.nodes
    ensures DemandOn(s.tasks, n) == NO_DEMAND && forall t :: DemandAt(s.tasks, t, n) == NO_DEMAND
  {
    forall t ensures DemandAt(s.tasks, t, n) == NO_DEMAND {}
    DemandZero(s.tasks, s.tasks.Keys, n);
  }

  // ---------------------------------------------------------------------
  // Whole runs
  // ---------------------------------------------------------------------

  /** Totals never change. */
  lemma StepKeepsTop(s: DurableState, e: Event, n: NodeId)
    requires Sound(s) && Allowed(s, e) && n in s.nodes
    ensures BelowTop(Step(s, e).0, n) <==> BelowTop(s, n)
    ensures n in Step(s, e).0.nodes
  {
    hide Step, Allowed, TasksKept;
    StepEvolves(s, e);
    assert EraseNode(Step(s, e).0.nodes[n]) == EraseNode(s.nodes[n]);
  }

  /** Conservation: over any run from a state in which it was exact, the recorded
      `used` of a node is the demand on it and what was given up on it since the
      last recount. */
  lemma {:induction false} UsedIsDemandAndGivenUp(s: DurableState, events: seq<Event>, n: NodeId)
    requires Sound(s) && ValidRun(s, events) && Counts(s, n, NO_DEMAND) && BelowTop(Run(s, events).0, n)
    ensures Counts(Run(s, events).0, n, GivenUp(s, events, n))
    decreases |events|
  {
    hide Sound, Step, Allowed, Counts, BelowTop, GaveUp, Demand.Plus;
    if events != [] {
      var front, last := events[..|events| - 1], events[|events| - 1];
      var s1 := Run(s, front).0;
      RunKeepsSound(s, front);
      if n in s1.nodes {
        StepKeepsTop(s1, last, n);
        UsedIsDemandAndGivenUp(s, front, n);
        StepShares(s1, last, n, GivenUp(s, front, n));
      } else {
        NotKnownIsBelow(s1, n);
        UsedIsDemandAndGivenUp(s, front, n);
        StepBefore(s1, last, n);
        NotKnownCounts(s1, n, GivenUp(s, front, n));
      }
    }
  }

  lemma NotKnownIsBelow(s: DurableState, n: NodeId)
    requires n !in s.nodes
    ensures BelowTop(s, n)
  {
  }

  lemma NotKnownCounts(s: DurableState, n: NodeId, more: Demand)
    requires n !in s.nodes && Counts(s, n, more)
    ensures more == NO_DEMAND && more.Plus(NO_DEMAND) == NO_DEMAND
  {
    hide DemandOn, DemandFrom, Demand.Plus;
    PlusNothing(more);
  }

  /** The `used` of a node survives a start exactly when no task gave up a share of it
      by a report or a requeue since the last recount. */
  lemma UsedSurvivesIffNothingGivenUp(s: DurableState, events: seq<Event>, now: DateTime, n: NodeId)
    requires Invariant(s) && ValidRun(s, events) && Counts(s, n, NO_DEMAND)
    requires n in Run(s, events).0.nodes && BelowTop(Run(s, events).0, n)
    ensures var r := Recounted(ApplyAll(s, Run(s, events).1, now));
            n in r.nodes
            && (r.nodes[n].used == Run(s, events).0.nodes[n].used <==> GivenUp(s, events, n) == NO_DEMAND)
  {
    hide Invariant, ApplyAll, Run, RecountOf, GivenUp, Counts, BelowTop;
    var (live, ops) := Run(s, events);
    InvariantParts(s);
    RunRefines(s, events);
    ApplyAllRespectsErasure(s, s, ops, now, 0);
    SameErasedParts(ApplyAll(s, ops, now), live);
    InvariantParts(live);
    UsedIsDemandAndGivenUp(s, events, n);
    ExactIffNothing(live, n, GivenUp(s, events, n));
  }

  lemma ExactIffNothing(s: DurableState, n: NodeId, more: Demand)
    requires Sound(s) && n in s.nodes && BelowTop(s, n) && Counts(s, n, more)
    ensures s.nodes[n].used == RecountOf(s.tasks, n) <==> more == NO_DEMAND
  {
    hide DemandOn, IpamState.WellFormed, UsedCovers;
    TrueDemandFits(s, n);
  }
}
