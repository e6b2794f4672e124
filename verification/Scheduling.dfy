/** One scheduler pass as functions on the durable state: requeue the tasks of
    dead nodes, recount the resources in use, place the pending tasks. */
module Scheduling {
  import opened Types
  import opened Ordering
  import opened Ipam
  import opened Durable
  import opened Placement
  import opened Accounting
  import opened Discovery

  /** Every record carries the key it is stored under. */
  ghost predicate KeysMatch(s: DurableState) {
    && (forall t | t in s.tasks :: s.tasks[t].id == t)
    && (forall n | n in s.nodes :: s.nodes[n].id == n)
  }

  // ---------------------------------------------------------------------
  // Requeueing
  // ---------------------------------------------------------------------

  /** Task `t` sits on a node that stopped heartbeating. */
  predicate IsOrphan(s: DurableState, t: TaskId, now: DateTime) {
    && t in s.tasks
    && s.tasks[t].state.HoldsResources()
    && s.tasks[t].assignedNode.Some?
    && s.tasks[t].assignedNode.value in s.nodes
    && !s.nodes[s.tasks[t].assignedNode.value].IsAlive(now)
  }

  function Orphans(s: DurableState, now: DateTime): set<TaskId> {
    set t | t in s.tasks && IsOrphan(s, t, now)
  }

  function RequeueOne(s: DurableState, t: TaskId): (DurableState, seq<JournalOp>) {
    var tasks' := if t in s.tasks then s.tasks[t := BackToPending(s.tasks[t])] else s.tasks;
    var (released, ipam') := s.ipam.Release(t);
    (s.(tasks := tasks', ipam := ipam'),
     (if released then [IpamRelease(t)] else []) + [TaskRequeued(t)])
  }

  function RequeueAll(s: DurableState, orphans: seq<TaskId>): (DurableState, seq<JournalOp>) {
    if orphans == [] then (s, []) else
      var (s1, ops) := RequeueAll(s, orphans[..|orphans| - 1]);
      var (s2, more) := RequeueOne(s1, orphans[|orphans| - 1]);
      (s2, ops + more)
  }

  lemma RequeueAllStep(s: DurableState, orphans: seq<TaskId>, i: nat)
    requires i < |orphans|
    ensures var (before, ops) := RequeueAll(s, orphans[..i]);
            var (after, more) := RequeueOne(before, orphans[i]);
            RequeueAll(s, orphans[..i + 1]) == (after, ops + more)
  {
    assert orphans[..i + 1][..i] == orphans[..i];
  }

  // ---------------------------------------------------------------------
  // Placing
  // ---------------------------------------------------------------------

  /** Record the placement of `t` on `n`. An address allocated for it goes back
      unjournaled if the task or the node is unknown. */
  ghost function Commit(s: DurableState, t: TaskId, n: NodeId, network: Option<NetworkAssignment>)
    : (DurableState, seq<JournalOp>)
    requires t in s.tasks
  {
    if n in s.nodes then
      var services := ServicesFor(s.tasks, s.tasks[t]);
      var node := s.nodes[n].(used := s.nodes[n].used.SaturatingAdd(s.tasks[t].spec.resources));
      (s.(tasks := s.tasks[t := PlacedOn(s.tasks[t], s.nodes[n].id, network, services)],
          nodes := s.nodes[n := node]),
       (if network.Some? then [IpamAllocate(n, t, network.value.ip)] else [])
       + [TaskAssigned(t, n, network, services)])
    else if network.Some? then (s.(ipam := s.ipam.Release(t).1), [])
    else (s, [])
  }

  /** What a placement on a known node changes and journals. */
  lemma CommitShape(s: DurableState, t: TaskId, n: NodeId, network: Option<NetworkAssignment>)
    requires t in s.tasks && n in s.nodes && s.nodes[n].id == n
    ensures var (s', ops) := Commit(s, t, n, network);
            var services := ServicesFor(s.tasks, s.tasks[t]);
            && s' == s.(tasks := s.tasks[t := PlacedOn(s.tasks[t], n, network, services)], nodes := s'.nodes)
            && s'.nodes.Keys == s.nodes.Keys
            && (forall m | m in s.nodes :: EraseNode(s'.nodes[m]) == EraseNode(s.nodes[m]))
            && ops == if network.Some?
                      then [IpamAllocate(n, t, network.value.ip), TaskAssigned(t, n, network, services)]
                      else [TaskAssigned(t, n, network, services)]
  {
    hide ServicesFor;
  }

  ghost function PlaceOne(s: DurableState, t: TaskId, now: DateTime): (DurableState, seq<JournalOp>) {
    if t !in s.tasks then (s, []) else
      var task := s.tasks[t];
      match PickNode(s.nodes, task, now)
      case None => (s, [])
      case Some(n) =>
        if !task.spec.networkEnabled then Commit(s, t, n, None) else
          var (ip, ipam') := s.ipam.Allocate(n, t);
          if ip.None? then (s.(ipam := ipam'), []) else
            var gateway := ipam'.GatewayFor(n);
            if gateway.None? then (s.(ipam := ipam'.Release(t).1), [])
            else Commit(s.(ipam := ipam'), t, n, Some(NetworkAssignment(ip.value, gateway.value, NETMASK)))
  }

  ghost function PlaceAll(s: DurableState, order: seq<TaskId>, now: DateTime): (DurableState, seq<JournalOp>) {
    if order == [] then (s, []) else
      var (s1, ops) := PlaceAll(s, order[..|order| - 1], now);
      var (s2, more) := PlaceOne(s1, order[|order| - 1], now);
      (s2, ops + more)
  }

  lemma PlaceAllStep(s: DurableState, order: seq<TaskId>, i: nat, now: DateTime)
    requires i < |order|
    ensures var (before, ops) := PlaceAll(s, order[..i], now);
            var (after, more) := PlaceOne(before, order[i], now);
            PlaceAll(s, order[..i + 1], now) == (after, ops + more)
  {
    assert order[..i + 1][..i] == order[..i];
  }

  lemma NothingToDo(s: DurableState, now: DateTime)
    ensures RequeueAll(s, []) == (s, []) && PlaceAll(s, [], now) == (s, [])
  {
  }

  function PendingIds(s: DurableState): set<TaskId> {
    set t | t in s.tasks && s.tasks[t].state.Pending?
  }

  // ---------------------------------------------------------------------
  // One pass
  // ---------------------------------------------------------------------

  /** One pass. `orphans` lists the tasks to requeue in the order the task map
      delivers them. */
  ghost function Tick(s: DurableState, now: DateTime, orphans: seq<TaskId>): (DurableState, seq<JournalOp>) {
    var (s1, ops1) := RequeueAll(s, orphans);
    var s2 := Recounted(s1);
    var (s3, ops3) := PlaceAll(s2, Listing(PendingIds(s2)), now);
    (s3, ops1 + ops3)
  }
}
