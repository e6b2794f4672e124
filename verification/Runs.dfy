/** Runs of the control plane. An event is one API call, one heartbeat or one
    indivisible piece of a scheduler pass; it emits one group of journal
    operations. A run is any finite sequence of events. */
module Runs {
  import opened Types
  import opened Ordering
  import opened Ipam
  import opened Durable
  import opened Placement
  import opened Accounting
  import opened Scheduling
  import opened Soundness
  import opened Invariants
  import opened Replay

  datatype Event =
    | JobSubmitted(spec: JobSpec, now: DateTime, jobId: JobId, ids: seq<TaskId>)
    | NodeRegistered(name: string, addr: string, total: Resources, underlay: Option<Ip>, now: DateTime, nodeId: NodeId)
    | NodeHeard(nodeId: NodeId, underlay: Option<Ip>, now: DateTime)
    | TaskReported(t: TaskId, state: TaskState, exitCode: Option<int>)
    | SnapshotRequested(t: TaskId, mem: Option<string>, path: Option<string>, now: DateTime, snapshotId: SnapshotId)
    | SnapshotReported(t: TaskId, snapshotId: SnapshotId, report: SnapshotReport)
    | OrphanRequeued(t: TaskId, now: DateTime)
    | UsedRecounted
    | TaskPlaced(t: TaskId, now: DateTime)

  /** What the environment owes the server: generated ids are new, and a report
      of `Pending` never hits a task that sits on a node. The scheduler only
      requeues orphans and only places pending tasks. */
  predicate Allowed(s: DurableState, e: Event) {
    match e
    case JobSubmitted(spec, _, jobId, ids) =>
      && jobId !in s.jobs
      && (IsValidSpec(spec) ==> |ids| == |Copies(spec.tasks)|)
      && (forall i | 0 <= i < |ids| :: ids[i] !in s.tasks)
    case NodeRegistered(_, _, _, _, _, id) => id !in s.nodes
    case NodeHeard(_, _, _) => true
    case TaskReported(t, state, _) => ReportAllowed(s, t, state)
    case SnapshotRequested(_, _, _, _, id) => id !in s.snapshots
    case SnapshotReported(_, _, _) => true
    case OrphanRequeued(t, now) => IsOrphan(s, t, now)
    case UsedRecounted => true
    case TaskPlaced(t, _) => t in s.tasks && s.tasks[t].state.Pending?
  }

  /** The state after an event and the operations it journals. An event that
      is not allowed does not happen. */
  ghost function Step(s: DurableState, e: Event): (DurableState, seq<JournalOp>) {
    if !Allowed(s, e) then (s, []) else
    match e
    case JobSubmitted(spec, now, jobId, ids) =>
      var out := s.CreateJob(spec, now, jobId, ids); (out.state, out.ops)
    case NodeRegistered(name, addr, total, underlay, now, id) =>
      var out := s.RegisterNode(name, addr, total, underlay, now, id); (out.state, out.ops)
    case NodeHeard(n, underlay, now) =>
      var out := s.Heartbeat(n, underlay, now); (out.state, out.ops)
    case TaskReported(t, state, exitCode) =>
      var out := s.SetTaskState(t, state, exitCode); (out.state, out.ops)
    case SnapshotRequested(t, mem, path, now, id) =>
      var out := s.RequestSnapshot(t, mem, path, now, id); (out.state, out.ops)
    case SnapshotReported(t, id, report) =>
      var out := s.ReportSnapshotResult(t, id, report); (out.state, out.ops)
    case OrphanRequeued(t, now) => RequeueOne(s, t)
    case UsedRecounted => (Recounted(s), [])
    case TaskPlaced(t, now) => PlaceOne(s, t, now)
  }

  // ---------------------------------------------------------------------
  // Steps from any sound state
  // ---------------------------------------------------------------------

  lemma StepKeepsSound(s: DurableState, e: Event)
    requires Sound(s) && Allowed(s, e)
    ensures Sound(Step(s, e).0)
  {
    hide Sound, PlaceOne, RequeueOne, Recounted;
    match e
    case JobSubmitted(spec, now, jobId, ids) => CreateJobKeepsSound(s, spec, now, jobId, ids);
    case NodeRegistered(name, addr, total, underlay, now, id) =>
      RegisterKeepsSound(s, name, addr, total, underlay, now, id);
    case NodeHeard(n, underlay, now) => HeartbeatKeepsSound(s, n, underlay, now);
    case TaskReported(t, state, exitCode) => ReportKeepsSound(s, t, state, exitCode);
    case SnapshotRequested(t, mem, path, now, id) =>
      SnapshotsKeepSound(s, s.RequestSnapshot(t, mem, path, now, id).state);
    case SnapshotReported(t, id, report) => SnapshotsKeepSound(s, s.ReportSnapshotResult(t, id, report).state);
    case OrphanRequeued(t, now) => RequeueKeepsSound(s, t);
    case UsedRecounted => RecountKeepsSound(s);
    case TaskPlaced(t, now) => PlaceKeepsSound(s, t, now);
  }

  /** Every event but a placement is replayed faithfully from any state. */
  lemma StepReplays(s: DurableState, e: Event)
    requires Allowed(s, e) && !e.TaskPlaced?
    ensures Replays(s, Step(s, e).1, Step(s, e).0)
  {
    hide Replays, RequeueOne, Recounted;
    match e
    case JobSubmitted(spec, now, jobId, ids) => CreateJobReplays(s, spec, now, jobId, ids);
    case NodeRegistered(name, addr, total, underlay, now, id) =>
      RegisterReplays(s, name, addr, total, underlay, now, id);
    case NodeHeard(n, underlay, now) => HeartbeatReplays(s, n, underlay, now);
    case TaskReported(t, state, exitCode) => ReportReplays(s, t, state, exitCode);
    case SnapshotRequested(t, mem, path, now, id) => RequestSnapshotReplays(s, t, mem, path, now, id);
    case SnapshotReported(t, id, report) => ReportSnapshotReplays(s, t, id, report);
    case OrphanRequeued(t, now) => RequeueReplays(s, t);
    case UsedRecounted => RecountReplays(s);
  }

  /** The placement of a task that still holds an address on a node without a
      /24. */
  ghost predicate GivesBackUnjournaled(s: DurableState, e: Event) {
    e.TaskPlaced? && e.t in s.tasks && LosesAddress(s, e.t, e.now)
  }

  /** Whatever the addresses look like, an event is replayed faithfully exactly
      when it gives no address back unjournaled. */
  lemma StepReplaysIff(s: DurableState, e: Event)
    requires Sound(s) && Allowed(s, e)
    ensures Replays(s, Step(s, e).1, Step(s, e).0) <==> !GivesBackUnjournaled(s, e)
  {
    hide Replays, LosesAddress, PlaceOne;
    if e.TaskPlaced? {
      PlaceReplaysIff(s, e.t, e.now);
    } else {
      StepReplays(s, e);
    }
  }

  /** The records are replayed faithfully in any case. */
  lemma StepReplaysRecords(s: DurableState, e: Event)
    requires KeysMatch(s) && Allowed(s, e)
    ensures RecordsReplay(s, Step(s, e).1, Step(s, e).0)
  {
    hide Replays, RecordsReplay, PlaceOne;
    if e.TaskPlaced? {
      PlaceReplaysRecords(s, e.t, e.now);
    } else {
      StepReplays(s, e);
      ReplayGivesRecords(s, Step(s, e).1, Step(s, e).0);
    }
  }

  /** A group has at most two operations, and the first of two is about an
      address. */
  lemma GroupShape(s: DurableState, e: Event)
    requires KeysMatch(s) && Allowed(s, e)
    ensures var ops := Step(s, e).1;
            |ops| <= 2 && (|ops| == 2 ==> ops[0].IpamAllocate? || ops[0].IpamRelease?)
  {
    hide PlaceOne, Commit;
    if e.TaskPlaced? {
      var ipam', n, network := PlaceShape(s, e.t, e.now);
      if PlaceOne(s, e.t, e.now) != (s.(ipam := ipam'), []) {
        CommitShape(s.(ipam := ipam'), e.t, n, network);
      }
    }
  }

  /** One event keeps the invariant, and its operations replay to its effect. */
  lemma StepRefines(s: DurableState, e: Event)
    requires Invariant(s) && Allowed(s, e)
    ensures Invariant(Step(s, e).0)
    ensures Replays(s, Step(s, e).1, Step(s, e).0)
  {
    hide Invariant, Sound, Replays, PlaceOne, RequeueOne, Recounted, GivesBackUnjournaled;
    NothingGivenBack(s, e);
    InvariantParts(s);
    StepReplaysIff(s, e);
    match e
    case JobSubmitted(spec, now, jobId, ids) => CreateJobKeepsInvariant(s, spec, now, jobId, ids);
    case NodeRegistered(name, addr, total, underlay, now, id) =>
      RegisterKeepsInvariant(s, name, addr, total, underlay, now, id);
    case NodeHeard(n, underlay, now) => HeartbeatKeepsInvariant(s, n, underlay, now);
    case TaskReported(t, state, exitCode) => ReportKeepsInvariant(s, t, state, exitCode);
    case SnapshotRequested(t, mem, path, now, id) =>
      SnapshotsKeepInvariant(s, s.RequestSnapshot(t, mem, path, now, id).state);
    case SnapshotReported(t, id, report) =>
      SnapshotsKeepInvariant(s, s.ReportSnapshotResult(t, id, report).state);
    case OrphanRequeued(t, now) => RequeueKeepsInvariant(s, t);
    case UsedRecounted => RecountKeepsInvariant(s);
    case TaskPlaced(t, now) => PlaceKeepsInvariant(s, t, now);
  }

  /** In a state with the invariant a pending task holds no address to lose. */
  lemma NothingGivenBack(s: DurableState, e: Event)
    requires Invariant(s) && Allowed(s, e)
    ensures !GivesBackUnjournaled(s, e)
  {
    if e.TaskPlaced? {
      assert TaskAgrees(e.t, s.tasks[e.t], s.nodes.Keys, s.ipam);
    }
  }

  // ---------------------------------------------------------------------
  // Runs
  // ---------------------------------------------------------------------

  /** The state after a run and the journal it emitted. */
  ghost function Run(s: DurableState, events: seq<Event>): (DurableState, seq<JournalOp>) {
    if events == [] then (s, []) else
      var (s1, ops) := Run(s, events[..|events| - 1]);
      var (s2, more) := Step(s1, events[|events| - 1]);
      (s2, ops + more)
  }

  /** Every event of the run is allowed when it happens. */
  ghost predicate ValidRun(s: DurableState, events: seq<Event>) {
    events != [] ==>
      && ValidRun(s, events[..|events| - 1])
      && Allowed(Run(s, events[..|events| - 1]).0, events[|events| - 1])
  }

  /** Recovery refines the live run: from any state that satisfies the
      invariant, folding the emitted journal gives the live state. */
  lemma {:induction false} RunRefines(s: DurableState, events: seq<Event>)
    requires Invariant(s) && ValidRun(s, events)
    ensures Invariant(Run(s, events).0)
    ensures Replays(s, Run(s, events).1, Run(s, events).0)
    decreases |events|
  {
    if events == [] {
      ApplyNone(s, 0);
    } else {
      var front, last := events[..|events| - 1], events[|events| - 1];
      RunRefines(s, front);
      var (s1, ops) := Run(s, front);
      StepRefines(s1, last);
      ReplaysConcat(s, ops, s1, Step(s1, last).1, Step(s1, last).0);
    }
  }

  lemma {:induction false} RunKeepsSound(s: DurableState, events: seq<Event>)
    requires Sound(s) && ValidRun(s, events)
    ensures Sound(Run(s, events).0)
    decreases |events|
  {
    hide Sound, Step, Allowed;
    if events != [] {
      var front := events[..|events| - 1];
      RunKeepsSound(s, front);
      StepKeepsSound(Run(s, front).0, events[|events| - 1]);
    }
  }

  /** Runs compose. */
  lemma {:induction false} RunConcat(s: DurableState, a: seq<Event>, b: seq<Event>)
    requires ValidRun(s, a) && ValidRun(Run(s, a).0, b)
    ensures ValidRun(s, a + b)
    ensures Run(s, a + b).0 == Run(Run(s, a).0, b).0
    ensures Run(s, a + b).1 == Run(s, a).1 + Run(Run(s, a).0, b).1
    decreases |b|
  {
    hide Step, Allowed;
    if b == [] {
      assert a + b == a;
    } else {
      var front, last := b[..|b| - 1], b[|b| - 1];
      assert b == front + [last];
      RunExtend(Run(s, a).0, front, last);
      RunConcat(s, a, front);
      RunExtend(s, a + front, last);
      assert a + b == a + front + [last];
      ConcatAssociative(Run(s, a).1, Run(Run(s, a).0, front).1, Step(Run(s, a + front).0, last).1);
    }
  }

  lemma ConcatAssociative<T>(a: seq<T>, b: seq<T>, c: seq<T>)
    ensures a + (b + c) == a + b + c
  {
  }

  lemma RunStarts(s: DurableState)
    ensures Run(s, []) == (s, []) && ValidRun(s, [])
  {
  }

  lemma RunExtend(s: DurableState, events: seq<Event>, e: Event)
    ensures Run(s, events + [e]).0 == Step(Run(s, events).0, e).0
    ensures Run(s, events + [e]).1 == Run(s, events).1 + Step(Run(s, events).0, e).1
    ensures ValidRun(s, events + [e]) <==> ValidRun(s, events) && Allowed(Run(s, events).0, e)
  {
    assert (events + [e])[..|events + [e]| - 1] == events;
  }

  lemma RunSingle(s: DurableState, e: Event)
    requires Allowed(s, e)
    ensures ValidRun(s, [e])
    ensures Run(s, [e]) == Step(s, e)
  {
    assert [e][..0] == [];
    assert Run(s, []) == (s, []);
    assert [] + Step(s, e).1 == Step(s, e).1;
  }

  // ---------------------------------------------------------------------
  // Recorded addresses
  // ---------------------------------------------------------------------

  /** Replaying `ops` on `s`, every allocation returns the recorded address. */
  ghost predicate ReturnsRecorded(s: DurableState, ops: seq<JournalOp>) {
    forall i | 0 <= i < |ops| && ops[i].IpamAllocate? :: ReturnsRecordedAt(s, ops, i)
  }

  predicate ReturnsRecordedAt(s: DurableState, ops: seq<JournalOp>, i: nat)
    requires i < |ops| && ops[i].IpamAllocate?
  {
    ApplyAll(s, ops[..i], 0).ipam.Allocate(ops[i].nodeId, ops[i].taskId).0 == Some(ops[i].ip)
  }

  lemma PlaceReturnsRecorded(s: DurableState, t: TaskId, now: DateTime)
    requires Invariant(s) && t in s.tasks && s.tasks[t].state.Pending?
    ensures ReturnsRecorded(s, PlaceOne(s, t, now).1)
  {
    InvariantParts(s);
    PendingHoldsNothing(s, t);
    PlaceOneCases(s, t, now);
    var ops := PlaceOne(s, t, now).1;
    ApplyNone(s, 0);
    assert ops[..0] == [];
    forall i | 0 <= i < |ops| && ops[i].IpamAllocate? ensures ReturnsRecordedAt(s, ops, i) {
      assert i == 0;
    }
  }

  lemma StepReturnsRecorded(s: DurableState, e: Event)
    requires Invariant(s) && Allowed(s, e)
    ensures ReturnsRecorded(s, Step(s, e).1)
  {
    hide Invariant, PlaceOne;
    if e.TaskPlaced? {
      PlaceReturnsRecorded(s, e.t, e.now);
    } else {
      assert forall i | 0 <= i < |Step(s, e).1| :: !Step(s, e).1[i].IpamAllocate?;
    }
  }

  /** The journal of a live run never disagrees with its replay about an
      address. */
  lemma {:induction false} RunReturnsRecorded(s: DurableState, events: seq<Event>)
    requires Invariant(s) && ValidRun(s, events)
    ensures ReturnsRecorded(s, Run(s, events).1)
    decreases |events|
  {
    hide Invariant, Step, Allowed, ReturnsRecordedAt;
    if events != [] {
      var front, last := events[..|events| - 1], events[|events| - 1];
      RunReturnsRecorded(s, front);
      RunRefines(s, front);
      var (s1, ops) := Run(s, front);
      var more := Step(s1, last).1;
      StepReturnsRecorded(s1, last);
      RecordedConcat(s, ops, s1, more);
    }
  }

  lemma RecordedConcat(s: DurableState, ops: seq<JournalOp>, s1: DurableState, more: seq<JournalOp>)
    requires Replays(s, ops, s1) && ReturnsRecorded(s, ops) && ReturnsRecorded(s1, more)
    ensures ReturnsRecorded(s, ops + more)
  {
    hide ReturnsRecordedAt, Replays;
    forall i | 0 <= i < |ops + more| && (ops + more)[i].IpamAllocate? ensures ReturnsRecordedAt(s, ops + more, i) {
      if i < |ops| {
        assert ReturnsRecordedAt(s, ops, i);
        RecordedEarlier(s, ops, more, i);
      } else {
        assert ReturnsRecordedAt(s1, more, i - |ops|);
        RecordedLater(s, ops, s1, more, i - |ops|);
      }
    }
  }

  lemma RecordedEarlier(s: DurableState, ops: seq<JournalOp>, more: seq<JournalOp>, i: nat)
    requires i < |ops| && ops[i].IpamAllocate? && ReturnsRecordedAt(s, ops, i)
    ensures ReturnsRecordedAt(s, ops + more, i)
  {
    assert (ops + more)[..i] == ops[..i];
  }

  lemma RecordedLater(s: DurableState, ops: seq<JournalOp>, s1: DurableState, more: seq<JournalOp>, j: nat)
    requires Replays(s, ops, s1) && j < |more| && more[j].IpamAllocate? && ReturnsRecordedAt(s1, more, j)
    ensures ReturnsRecordedAt(s, ops + more, |ops| + j)
  {
    assert (ops + more)[..|ops| + j] == ops + more[..j];
    ApplyConcat(s, ops, more[..j], 0);
    ApplyAllRespectsErasure(ApplyAll(s, ops, 0), s1, more[..j], 0, 0);
  }

  // ---------------------------------------------------------------------
  // A scheduler pass is a run
  // ---------------------------------------------------------------------

  function RequeueEvents(orphans: seq<TaskId>, now: DateTime): seq<Event> {
    seq(|orphans|, i requires 0 <= i < |orphans| => OrphanRequeued(orphans[i], now))
  }

  function PlaceEvents(order: seq<TaskId>, now: DateTime): seq<Event> {
    seq(|order|, i requires 0 <= i < |order| => TaskPlaced(order[i], now))
  }

  lemma RequeueStep(s: DurableState, t: TaskId, now: DateTime)
    requires IsOrphan(s, t, now)
    ensures Allowed(s, OrphanRequeued(t, now)) && Step(s, OrphanRequeued(t, now)) == RequeueOne(s, t)
  {
  }

  lemma PlaceStep(s: DurableState, t: TaskId, now: DateTime)
    requires t in s.tasks && s.tasks[t].state.Pending?
    ensures Allowed(s, TaskPlaced(t, now)) && Step(s, TaskPlaced(t, now)) == PlaceOne(s, t, now)
  {
  }

  lemma RecountStep(s: DurableState)
    ensures Allowed(s, UsedRecounted) && Step(s, UsedRecounted) == (Recounted(s), [])
  {
  }

  /** Requeueing sends exactly the listed tasks back and touches no node. */
  lemma {:induction false} RequeueAllEffect(s: DurableState, orphans: seq<TaskId>)
    requires forall t | t in orphans :: t in s.tasks
    ensures var s' := RequeueAll(s, orphans).0;
            && s'.nodes == s.nodes && s'.tasks.Keys == s.tasks.Keys
            && forall t | t in s.tasks :: s'.tasks[t] == if t in orphans then BackToPending(s.tasks[t]) else s.tasks[t]
  {
    if orphans != [] {
      var front, last := orphans[..|orphans| - 1], orphans[|orphans| - 1];
      assert orphans == front + [last];
      RequeueAllEffect(s, front);
    }
  }

  lemma {:induction false} RequeueIsRun(s: DurableState, orphans: seq<TaskId>, now: DateTime)
    requires Distinct(orphans)
    requires forall t | t in orphans :: IsOrphan(s, t, now)
    ensures ValidRun(s, RequeueEvents(orphans, now))
    ensures Run(s, RequeueEvents(orphans, now)) == RequeueAll(s, orphans)
    decreases |orphans|
  {
    hide Step, Allowed, RequeueOne;
    if orphans != [] {
      var front, last := orphans[..|orphans| - 1], orphans[|orphans| - 1];
      assert orphans == front + [last];
      assert last !in front;
      RequeueIsRun(s, front, now);
      RequeueAllEffect(s, front);
      assert IsOrphan(s, last, now) by { assert last in orphans; }
      assert RequeueAll(s, front).0.tasks[last] == s.tasks[last];
      assert RequeueEvents(orphans, now) == RequeueEvents(front, now) + [OrphanRequeued(last, now)];
      RunExtend(s, RequeueEvents(front, now), OrphanRequeued(last, now));
      RequeueStep(RequeueAll(s, front).0, last, now);
    }
  }

  lemma CommitTouchesOneTask(s: DurableState, t: TaskId, n: NodeId, network: Option<NetworkAssignment>)
    requires t in s.tasks && n in s.nodes
    ensures var s' := Commit(s, t, n, network).0;
            && s'.tasks.Keys == s.tasks.Keys
            && (forall u | u in s.tasks && u != t :: s'.tasks[u] == s.tasks[u])
            && s'.nodes.Keys == s.nodes.Keys
            && (forall m | m in s.nodes :: s'.nodes[m] == s.nodes[m].(used := s'.nodes[m].used)
                                           && s.nodes[m].used.Within(s'.nodes[m].used))
  {
    hide Discovery.ServicesFor;
  }

  /** Placing one task leaves the others, and every node's identity and size,
      alone. */
  lemma PlaceTouchesOneTask(s: DurableState, t: TaskId, now: DateTime)
    requires KeysMatch(s)
    ensures var s' := PlaceOne(s, t, now).0;
            && s'.tasks.Keys == s.tasks.Keys
            && (forall u | u in s.tasks && u != t :: s'.tasks[u] == s.tasks[u])
            && s'.nodes.Keys == s.nodes.Keys
            && (forall n | n in s.nodes :: s'.nodes[n] == s.nodes[n].(used := s'.nodes[n].used)
                                           && s.nodes[n].used.Within(s'.nodes[n].used))
  {
    hide Commit, IpamState.Allocate;
    if t in s.tasks {
      var pick := PickNode(s.nodes, s.tasks[t], now);
      if pick.Some? && pick.value in s.nodes {
        var n := pick.value;
        if !s.tasks[t].spec.networkEnabled {
          CommitTouchesOneTask(s, t, n, None);
        } else {
          var (ip, ipam') := s.ipam.Allocate(n, t);
          if ip.Some? && ipam'.GatewayFor(n).Some? {
            CommitTouchesOneTask(s.(ipam := ipam'), t, n,
                                 Some(NetworkAssignment(ip.value, ipam'.GatewayFor(n).value, NETMASK)));
          }
        }
      }
    }
  }

  lemma {:induction false} PlaceIsRun(s: DurableState, order: seq<TaskId>, now: DateTime)
    requires Sound(s) && Distinct(order)
    requires forall i | 0 <= i < |order| :: order[i] in s.tasks && s.tasks[order[i]].state.Pending?
    ensures ValidRun(s, PlaceEvents(order, now))
    ensures Run(s, PlaceEvents(order, now)) == PlaceAll(s, order, now)
    ensures var s' := PlaceAll(s, order, now).0;
            s'.tasks.Keys == s.tasks.Keys && forall t | t in s.tasks && t !in order :: s'.tasks[t] == s.tasks[t]
    decreases |order|
  {
    hide Step, Allowed, PlaceOne, Run, ValidRun;
    if order == [] {
      RunStarts(s);
    } else {
      var front, last := order[..|order| - 1], order[|order| - 1];
      assert order == front + [last];
      assert forall i | 0 <= i < |front| :: front[i] == order[i];
      PlaceIsRun(s, front, now);
      assert last !in front;
      assert PlaceEvents(order, now) == PlaceEvents(front, now) + [TaskPlaced(last, now)];
      RunExtend(s, PlaceEvents(front, now), TaskPlaced(last, now));
      RunKeepsSound(s, PlaceEvents(front, now));
      PlaceStep(PlaceAll(s, front, now).0, last, now);
      PlaceTouchesOneTask(PlaceAll(s, front, now).0, last, now);
    }
  }

  function TickEvents(orphans: seq<TaskId>, pending: seq<TaskId>, now: DateTime): seq<Event> {
    RequeueEvents(orphans, now) + [UsedRecounted] + PlaceEvents(pending, now)
  }

  /** A whole pass is a run of its pieces, so everything proved of runs holds
      of it and of every pass cut short between two pieces. */
  lemma TickIsRun(s: DurableState, now: DateTime, orphans: seq<TaskId>)
    requires Sound(s) && Enumerates(orphans, Orphans(s, now))
    ensures var pending := Listing(PendingIds(Recounted(RequeueAll(s, orphans).0)));
            var events := TickEvents(orphans, pending, now);
            ValidRun(s, events) && Run(s, events) == Tick(s, now, orphans)
    ensures Invariant(s) ==> Invariant(Tick(s, now, orphans).0)
  {
    hide Step, Allowed, Run, ValidRun, Sound, Invariant, RequeueAll, PlaceAll;
    RequeueIsRun(s, orphans, now);
    var requeues := RequeueEvents(orphans, now);
    RunKeepsSound(s, requeues);
    var s1 := RequeueAll(s, orphans).0;
    RecountStep(s1);
    RunSingle(s1, UsedRecounted);
    RunConcat(s, requeues, [UsedRecounted]);
    RecountKeepsSound(s1);
    var s2 := Recounted(s1);
    var pending := Listing(PendingIds(s2));
    ListingEnumerates(PendingIds(s2));
    assert forall i | 0 <= i < |pending| :: pending[i] in pending;
    PlaceIsRun(s2, pending, now);
    RunConcat(s, requeues + [UsedRecounted], PlaceEvents(pending, now));
    assert Run(s, requeues).1 + [] == Run(s, requeues).1;
    if Invariant(s) {
      RunRefines(s, TickEvents(orphans, pending, now));
    }
  }
}
