/** Who counts as alive, in nanoseconds: what a heartbeat, a registration and a start
    do to the silence of a node, and which tasks a pass requeues for it. */
module Liveness {
  import opened Types
  import opened Ordering
  import opened Ipam
  import opened Durable
  import opened Placement
  import opened Accounting
  import opened Scheduling
  import opened Runs
  import opened Recovery
  import opened Survival

  // ---------------------------------------------------------------------
  // Starts
  // ---------------------------------------------------------------------

  /** The journal registers node `n`. */
  predicate RegisteredIn(ops: seq<JournalOp>, n: NodeId) {
    exists i :: 0 <= i < |ops| && ops[i].RegisterNode? && ops[i].node.id == n
  }

  lemma {:induction false} ReplayHears(s: DurableState, ops: seq<JournalOp>, now: DateTime, n: NodeId)
    ensures n in ApplyAll(s, ops, now).nodes <==> n in s.nodes || RegisteredIn(ops, n)
    ensures RegisteredIn(ops, n) ==> ApplyAll(s, ops, now).nodes[n].lastHeartbeat == now
    ensures n in s.nodes && !RegisteredIn(ops, n) ==> ApplyAll(s, ops, now).nodes[n] == s.nodes[n]
  {
    hide ApplyOne;
    if ops != [] {
      var front, last := ops[..|ops| - 1], ops[|ops| - 1];
      assert ops == front + [last];
      ReplayHears(s, front, now, n);
      OneReplayHears(ApplyAll(s, front, now), last, now, n);
      RegisteredExtend(front, last, n);
    }
  }

  lemma RegisteredExtend(ops: seq<JournalOp>, op: JournalOp, n: NodeId)
    ensures RegisteredIn(ops + [op], n) <==> RegisteredIn(ops, n) || (op.RegisterNode? && op.node.id == n)
  {
    var all := ops + [op];
    assert all[|ops|] == op && forall i | 0 <= i < |ops| :: all[i] == ops[i];
  }

  lemma OneReplayHears(s: DurableState, op: JournalOp, now: DateTime, n: NodeId)
    ensures var s' := ApplyOne(s, op, now);
            if op.RegisterNode? && op.node.id == n then n in s'.nodes && s'.nodes[n].lastHeartbeat == now
            else (n in s'.nodes <==> n in s.nodes) && (n in s.nodes ==> s'.nodes[n] == s.nodes[n])
  {
    hide InsertTasks, IpamState.Allocate, IpamState.Release;
  }

  predicate Starts(a: Action) {
    !a.Serve?
  }

  /** What the start at the end of an action replays. */
  ghost function Replayed(base: IpamState, sys: System, a: Action): seq<JournalOp> {
    Next(base, sys, a).journal
  }

  /** Every start counts as a heartbeat of every node: the nodes of the snapshot are
      heard when it is restored, those the journal registers when it is replayed. */
  lemma StartHears(base: IpamState, sys: System, a: Action, n: NodeId)
    requires Starts(a) && n in Next(base, sys, a).live.nodes
    ensures Next(base, sys, a).live.nodes[n].lastHeartbeat
            == if RegisteredIn(Replayed(base, sys, a), n) then a.replayed else a.restored
  {
    hide Step, ApplyAll, RecountOf;
    var sys' := Next(base, sys, a);
    var start := Loaded(base, sys'.snapshot, a.restored);
    RecoveredAtStart(base, sys, a);
    ReplayHears(start, sys'.journal, a.replayed, n);
  }

  lemma RecoveredAtStart(base: IpamState, sys: System, a: Action)
    requires Starts(a)
    ensures var sys' := Next(base, sys, a);
            sys'.live == Recover(base, sys'.snapshot, sys'.journal, a.restored, a.replayed)
  {
    hide Step, Recover;
  }

  /** The tasks a pass requeues. */
  predicate Requeues(ops: seq<JournalOp>, t: TaskId) {
    exists i :: 0 <= i < |ops| && ops[i] == TaskRequeued(t)
  }

  lemma RequeuesConcat(a: seq<JournalOp>, b: seq<JournalOp>, t: TaskId)
    ensures Requeues(a + b, t) <==> Requeues(a, t) || Requeues(b, t)
  {
    var all := a + b;
    assert forall i | 0 <= i < |a| :: all[i] == a[i];
    assert forall i | 0 <= i < |b| :: all[|a| + i] == b[i];
  }

  lemma {:induction false} RequeueAllJournals(s: DurableState, orphans: seq<TaskId>, t: TaskId)
    ensures Requeues(RequeueAll(s, orphans).1, t) <==> t in orphans
  {
    hide RequeueOne;
    if orphans != [] {
      var front, last := orphans[..|orphans| - 1], orphans[|orphans| - 1];
      assert orphans == front + [last];
      RequeueAllJournals(s, front, t);
      var s1 := RequeueAll(s, front).0;
      RequeueOneJournals(s1, last, t);
      RequeuesConcat(RequeueAll(s, front).1, RequeueOne(s1, last).1, t);
    }
  }

  lemma RequeueOneJournals(s: DurableState, u: TaskId, t: TaskId)
    ensures Requeues(RequeueOne(s, u).1, t) <==> t == u
  {
    var ops := RequeueOne(s, u).1;
    assert ops[|ops| - 1] == TaskRequeued(u);
  }

  lemma {:induction false} PlaceAllJournals(s: DurableState, order: seq<TaskId>, now: DateTime, t: TaskId)
    ensures !Requeues(PlaceAll(s, order, now).1, t)
  {
    hide PlaceOne;
    if order != [] {
      PlaceAllJournals(s, order[..|order| - 1], now, t);
      var s1 := PlaceAll(s, order[..|order| - 1], now).0;
      PlaceOneJournals(s1, order[|order| - 1], now, t);
      RequeuesConcat(PlaceAll(s, order[..|order| - 1], now).1, PlaceOne(s1, order[|order| - 1], now).1, t);
    }
  }

  lemma PlaceOneJournals(s: DurableState, u: TaskId, now: DateTime, t: TaskId)
    ensures !Requeues(PlaceOne(s, u, now).1, t)
  {
    hide Discovery.ServicesFor, IpamState.Allocate, PickNode;
  }

  /** Task `t` sits on a node that has been silent for eleven seconds. */
  predicate OnSilentNode(s: DurableState, t: TaskId, now: DateTime) {
    && t in s.tasks
    && (s.tasks[t].state == Assigned || s.tasks[t].state == Running)
    && s.tasks[t].assignedNode.Some? && s.tasks[t].assignedNode.value in s.nodes
    && now - s.nodes[s.tasks[t].assignedNode.value].lastHeartbeat >= 11_000_000_000
  }

  lemma OrphanIffSilent(s: DurableState, t: TaskId, now: DateTime)
    ensures IsOrphan(s, t, now) <==> OnSilentNode(s, t, now)
  {
  }

  /** A pass requeues exactly the tasks that are assigned to or run on a known node
      whose last heartbeat lies at least eleven seconds back. */
  lemma PassRequeuesTheSilent(s: DurableState, now: DateTime, orphans: seq<TaskId>, t: TaskId)
    requires Enumerates(orphans, Orphans(s, now))
    ensures Requeues(Tick(s, now, orphans).1, t) <==> OnSilentNode(s, t, now)
  {
    hide RequeueAll, PlaceAll, Recounted, Listing, IsOrphan, OnSilentNode, Requeues;
    OrphanIffSilent(s, t, now);
    assert t in orphans <==> t in Orphans(s, now);
    assert IsOrphan(s, t, now) ==> t in s.tasks by { OrphanIsTask(s, t, now); }
    RequeueAllJournals(s, orphans, t);
    var s2 := Recounted(RequeueAll(s, orphans).0);
    PlaceAllJournals(s2, Listing(PendingIds(s2)), now, t);
    RequeuesConcat(RequeueAll(s, orphans).1, PlaceAll(s2, Listing(PendingIds(s2)), now).1, t);
  }

  lemma OrphanIsTask(s: DurableState, t: TaskId, now: DateTime)
    ensures IsOrphan(s, t, now) ==> t in s.tasks
  {
  }

  /** A pass less than eleven seconds after a start requeues nothing, however long the
      server was down. */
  lemma StartRequeuesNothing(base: IpamState, sys: System, a: Action, now: DateTime, orphans: seq<TaskId>, t: TaskId)
    requires Starts(a) && Enumerates(orphans, Orphans(Next(base, sys, a).live, now))
    requires now - a.restored < 11_000_000_000 && now - a.replayed < 11_000_000_000
    ensures !Requeues(Tick(Next(base, sys, a).live, now, orphans).1, t)
  {
    hide Next, Tick, Orphans, Enumerates, RegisteredIn, Requeues;
    var live := Next(base, sys, a).live;
    PassRequeuesTheSilent(live, now, orphans, t);
    if OnSilentNode(live, t, now) {
      StartHears(base, sys, a, live.tasks[t].assignedNode.value);
      assert false;
    }
  }

  // ---------------------------------------------------------------------
  // The last heartbeat over whole histories
  // ---------------------------------------------------------------------

  /** When node `n` was last heard: by a heartbeat, by its registration, or by the
      last start. */
  ghost function HeardAt(base: IpamState, actions: seq<Action>, n: NodeId): DateTime {
    if actions == [] then 0 else
      var front, a := actions[..|actions| - 1], actions[|actions| - 1];
      match a
      case Serve(e) => HeardNow(After(base, front).live, e, n, HeardAt(base, front, n))
      case _ => if RegisteredIn(After(base, actions).journal, n) then a.replayed else a.restored
  }

  function HeardNow(s: DurableState, e: Event, n: NodeId, before: DateTime): DateTime {
    match e
    case NodeHeard(m, _, now) => if m == n then now else before
    case NodeRegistered(_, _, _, _, now, m) => if m == n then now else before
    case _ => before
  }

  lemma StepHears(s: DurableState, e: Event, n: NodeId)
    requires KeysMatch(s) && Allowed(s, e) && n in Step(s, e).0.nodes
    ensures n in s.nodes || (e.NodeRegistered? && e.nodeId == n)
    ensures Step(s, e).0.nodes[n].lastHeartbeat
            == HeardNow(s, e, n, if n in s.nodes then s.nodes[n].lastHeartbeat else 0)
  {
    hide PlaceOne, RecountOf, IpamState.Release, Copies, InsertTasks, IsValidSpec;
    if e.TaskPlaced? {
      PlaceTouchesOneTask(s, e.t, e.now);
    }
  }

  /** At any moment of any history the recorded heartbeat of a node is that time. */
  lemma {:induction false} HeartbeatIsHeardAt(base: IpamState, actions: seq<Action>, n: NodeId)
    requires base.held == map[] && base.subnets == map[] && History(base, actions)
    requires n in After(base, actions).live.nodes
    ensures After(base, actions).live.nodes[n].lastHeartbeat == HeardAt(base, actions, n)
  {
    hide Backed, Step, Allowed, Recover, RegisteredIn;
    if actions != [] {
      var front, a := actions[..|actions| - 1], actions[|actions| - 1];
      var sys := After(base, front);
      if a.Serve? {
        HistoryBacked(base, front);
        BackedIsSound(base, sys);
        SoundParts(sys.live);
        AllowedWhenItHappens(sys, a);
        StepHears(sys.live, a.event, n);
        if n in sys.live.nodes {
          HeartbeatIsHeardAt(base, front, n);
        }
      } else {
        StartHears(base, sys, a, n);
      }
    }
  }

  /** Over whole histories: a pass requeues a task exactly when it sits on a node that
      neither a heartbeat, a registration nor a start was heard of for eleven
      seconds. */
  lemma HistoryRequeuesTheSilent(base: IpamState, actions: seq<Action>, now: DateTime, orphans: seq<TaskId>, t: TaskId)
    requires base.held == map[] && base.subnets == map[] && History(base, actions)
    requires Enumerates(orphans, Orphans(After(base, actions).live, now))
    ensures var s := After(base, actions).live;
            Requeues(Tick(s, now, orphans).1, t) <==>
              && t in s.tasks && (s.tasks[t].state == Assigned || s.tasks[t].state == Running)
              && s.tasks[t].assignedNode.Some? && s.tasks[t].assignedNode.value in s.nodes
              && now - HeardAt(base, actions, s.tasks[t].assignedNode.value) >= 11_000_000_000
  {
    hide After, Tick, Orphans, Enumerates, History, HeardAt, Requeues;
    var s := After(base, actions).live;
    PassRequeuesTheSilent(s, now, orphans, t);
    if t in s.tasks && s.tasks[t].assignedNode.Some? && s.tasks[t].assignedNode.value in s.nodes {
      HeartbeatIsHeardAt(base, actions, s.tasks[t].assignedNode.value);
    }
  }
}
