/** Tasks that run on no node. A late report makes one, and nothing the server does
    on its own touches it again. */
module Stranded {
  import opened Types
  import opened Ordering
  import opened Ipam
  import opened Durable
  import opened Scheduling
  import opened Accounting
  import opened Soundness
  import opened Runs
  import opened Recovery
  import opened Survival

  /** Assigned or running according to its record, on no node. */
  predicate OnNoNode(s: DurableState, t: TaskId) {
    t in s.tasks && s.tasks[t].state.HoldsResources() && s.tasks[t].assignedNode.None?
  }

  predicate Reports(e: Event, t: TaskId) {
    e.TaskReported? && e.t == t
  }

  /** A task comes to run on no node exactly by a report that says so of a task that
      is pending. */
  lemma StepStrandsIff(s: DurableState, e: Event, t: TaskId)
    requires Sound(s) && Allowed(s, e) && !OnNoNode(s, t)
    ensures OnNoNode(Step(s, e).0, t)
            <==> Reports(e, t) && e.state.HoldsResources() && t in s.tasks && s.tasks[t].state.Pending?
  {
    hide PlaceOne, Recounted, IpamState.WellFormed, NoOvercommit, UsedCovers, IpamState.Release;
    match e
    case JobSubmitted(spec, now, jobId, ids) => CreateStrandsNone(s, spec, now, jobId, ids, t);
    case TaskPlaced(u, now) => PlaceStrandsNone(s, u, now, t);
    case UsedRecounted => RecountTouchesNodesOnly(s);
    case _ =>
  }

  lemma CreateStrandsNone(s: DurableState, spec: JobSpec, now: DateTime, jobId: JobId, ids: seq<TaskId>, t: TaskId)
    requires Allowed(s, JobSubmitted(spec, now, jobId, ids))
    ensures var s' := s.CreateJob(spec, now, jobId, ids).state;
            (OnNoNode(s', t) <==> OnNoNode(s, t)) && (t in s.tasks ==> t in s'.tasks && s'.tasks[t] == s.tasks[t])
  {
    hide Copies, InsertTasks, IsValidSpec;
    if IsValidSpec(spec) {
      CreatedTasks(s, spec, now, jobId, ids, t);
    }
  }

  lemma PlaceStrandsNone(s: DurableState, u: TaskId, now: DateTime, t: TaskId)
    requires KeysMatch(s) && u in s.tasks && s.tasks[u].state.Pending?
    ensures OnNoNode(PlaceOne(s, u, now).0, t) ==> OnNoNode(s, t)
    ensures OnNoNode(s, t) ==> t in PlaceOne(s, u, now).0.tasks && PlaceOne(s, u, now).0.tasks[t] == s.tasks[t]
  {
    hide PlaceOne, Commit, IpamState.WellFormed, Discovery.ServicesFor;
    PlaceTouchesOneTask(s, u, now);
    var ipam', n, network := PlaceShape(s, u, now);
    if PlaceOne(s, u, now) != (s.(ipam := ipam'), []) {
      CommitShape(s.(ipam := ipam'), u, n, network);
    }
  }

  /** Only a report about the task itself changes it. */
  lemma StepLeavesStranded(s: DurableState, e: Event, t: TaskId)
    requires Sound(s) && Allowed(s, e) && OnNoNode(s, t) && !Reports(e, t)
    ensures var s' := Step(s, e).0; t in s'.tasks && s'.tasks[t] == s.tasks[t]
  {
    hide PlaceOne, Recounted, IpamState.WellFormed, NoOvercommit, UsedCovers, IpamState.Release;
    match e
    case JobSubmitted(spec, now, jobId, ids) => CreateStrandsNone(s, spec, now, jobId, ids, t);
    case TaskPlaced(u, now) => PlaceStrandsNone(s, u, now, t);
    case UsedRecounted => RecountTouchesNodesOnly(s);
    case _ =>
  }

  lemma {:induction false} RunLeavesStranded(s: DurableState, events: seq<Event>, t: TaskId)
    requires Sound(s) && ValidRun(s, events) && OnNoNode(s, t)
    requires forall i | 0 <= i < |events| :: !Reports(events[i], t)
    ensures var s' := Run(s, events).0; t in s'.tasks && s'.tasks[t] == s.tasks[t]
    decreases |events|
  {
    hide Sound, Step, Allowed, Reports;
    if events != [] {
      var front := events[..|events| - 1];
      assert forall i | 0 <= i < |front| :: front[i] == events[i];
      RunLeavesStranded(s, front, t);
      RunKeepsSound(s, front);
      StepLeavesStranded(Run(s, front).0, events[|events| - 1], t);
    }
  }

  /** Every pass leaves such a task as it is: it is no orphan, as it sits on no dead
      node, and it does not pend. */
  lemma TickLeavesStranded(s: DurableState, now: DateTime, orphans: seq<TaskId>, t: TaskId)
    requires Sound(s) && OnNoNode(s, t) && Enumerates(orphans, Orphans(s, now))
    ensures var s' := Tick(s, now, orphans).0; t in s'.tasks && s'.tasks[t] == s.tasks[t]
  {
    hide Sound, Tick, Run, ValidRun, RequeueAll, Recounted, Listing, OnNoNode, Enumerates, Orphans;
    TickIsRun(s, now, orphans);
    var pending := Listing(PendingIds(Recounted(RequeueAll(s, orphans).0)));
    var events := TickEvents(orphans, pending, now);
    forall i | 0 <= i < |events| ensures !Reports(events[i], t) {
      PassReportsNothing(orphans, pending, now, i);
    }
    RunLeavesStranded(s, events, t);
  }

  lemma PassReportsNothing(orphans: seq<TaskId>, pending: seq<TaskId>, now: DateTime, i: nat)
    requires i < |TickEvents(orphans, pending, now)|
    ensures !TickEvents(orphans, pending, now)[i].TaskReported?
  {
  }

  /** So does every crash and every start: only a report about the task ends it. */
  lemma NextLeavesStranded(base: IpamState, sys: System, a: Action, t: TaskId)
    requires Backed(base, sys) && Happens(sys, a) && OnNoNode(sys.live, t)
    requires a.Serve? || a.Tear? ==> !Reports(a.event, t)
    ensures var s' := Next(base, sys, a).live; t in s'.tasks && s'.tasks[t] == sys.live.tasks[t]
  {
    hide Backed, Step, Allowed, Next, Sound, OnNoNode, Reports;
    BackedIsSound(base, sys);
    NextBacked(base, sys, a);
    SameRecordsParts(Next(base, sys, a).live, Expected(sys, a));
    OnNoNodeIsKnown(sys.live, t);
    if a.Serve? || a.Tear? {
      AllowedWhenItHappens(sys, a);
      StepLeavesStranded(sys.live, a.event, t);
    }
  }

  lemma OnNoNodeIsKnown(s: DurableState, t: TaskId)
    requires OnNoNode(s, t)
    ensures t in s.tasks
  {
  }

  /** The way it comes about: a task is requeued from a node that is silent, and the
      node then reports it as running. */
  lemma LateReportStrands(s: DurableState, t: TaskId, now: DateTime)
    requires IsOrphan(s, t, now)
    ensures var events := [OrphanRequeued(t, now)] + [TaskReported(t, Running, None)];
            ValidRun(s, events) && OnNoNode(Run(s, events).0, t)
  {
    hide Run, ValidRun, IpamState.Release;
    RunSingle(s, OrphanRequeued(t, now));
    RunExtend(s, [OrphanRequeued(t, now)], TaskReported(t, Running, None));
  }
}
