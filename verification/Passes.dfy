/** What one scheduler pass achieves. */
module Passes {
  import opened Types
  import opened Ordering
  import opened Ipam
  import opened Durable
  import opened Placement
  import opened Accounting
  import opened Scheduling
  import opened Soundness
  import opened Invariants
  import opened Runs

  /** No task that holds resources sits on a dead node. */
  ghost predicate NoOrphans(s: DurableState, now: DateTime) {
    forall t | t in s.tasks :: !IsOrphan(s, t, now)
  }

  /** Task `t` fits no eligible alive node. */
  ghost predicate FitsNowhere(s: DurableState, t: TaskId, now: DateTime)
    requires t in s.tasks
  {
    forall n | n in s.nodes :: !IsEligible(s.nodes[n], s.tasks[t], now)
  }

  predicate Pends(s: DurableState, t: TaskId) {
    t in s.tasks && s.tasks[t].state.Pending?
  }

  /** An alive node the task may use has no address to give. */
  predicate NodeExhausted(s: DurableState, task: Task, n: NodeId, now: DateTime) {
    && n in s.nodes && s.nodes[n].IsAlive(now)
    && (task.spec.nodeAffinity.None? || task.spec.nodeAffinity == Some(n))
    && OutOfAddresses(s.ipam, n)
  }

  /** Why task `t` may be left waiting: it fits nowhere, or it asks for
      networking and a node it may use has no address. */
  ghost predicate Blocked(s: DurableState, t: TaskId, now: DateTime)
    requires t in s.tasks
  {
    || FitsNowhere(s, t, now)
    || (s.tasks[t].spec.networkEnabled && exists n :: NodeExhausted(s, s.tasks[t], n, now))
  }

  /** What is established from any sound state while the pending tasks are placed
      one by one: the tasks of `tried` have been tried. */
  ghost predicate Settled(s: DurableState, tried: seq<TaskId>, now: DateTime) {
    && Sound(s) && UsedExact(s) && NoOrphans(s, now)
    && (forall t | t in tried && Pends(s, t) && !s.tasks[t].spec.networkEnabled :: FitsNowhere(s, t, now))
  }

  /** The same where tasks and addresses agree. */
  ghost predicate Progress(s: DurableState, tried: seq<TaskId>, now: DateTime) {
    && Settled(s, tried, now) && Invariant(s)
    && (forall t | t in tried && Pends(s, t) :: Blocked(s, t, now))
  }

  /** `used` only grows during placement, so a task that fits nowhere stays
      that way. */
  lemma StillFitsNowhere(s: DurableState, s': DurableState, t: TaskId, now: DateTime)
    requires t in s.tasks && t in s'.tasks && s'.tasks[t] == s.tasks[t] && FitsNowhere(s, t, now)
    requires s'.nodes.Keys == s.nodes.Keys
    requires forall n | n in s.nodes :: s'.nodes[n] == s.nodes[n].(used := s'.nodes[n].used)
                                        && s.nodes[n].used.Within(s'.nodes[n].used)
    ensures FitsNowhere(s', t, now)
  {
    forall n | n in s'.nodes ensures !IsEligible(s'.nodes[n], s'.tasks[t], now) {
      assert !IsEligible(s.nodes[n], s.tasks[t], now);
    }
  }

  /** Placement takes addresses and octets and gives none back. */
  lemma PlaceOnlyTakesAddresses(s: DurableState, t: TaskId, now: DateTime)
    requires Invariant(s) && t in s.tasks && s.tasks[t].state.Pending?
    ensures Extends(s.ipam, PlaceOne(s, t, now).0.ipam)
  {
    hide PlaceOne, Commit, Invariant, IpamState.WellFormed;
    InvariantParts(s);
    PendingHoldsNothing(s, t);
    var ipam', n, network := PlaceShape(s, t, now);
    if PlaceOne(s, t, now) != (s.(ipam := ipam'), []) {
      CommitShape(s.(ipam := ipam'), t, n, network);
    }
  }

  lemma StillBlocked(s: DurableState, t: TaskId, u: TaskId, now: DateTime)
    requires Invariant(s) && t in s.tasks && s.tasks[t].state.Pending?
    requires u in s.tasks && u != t && Blocked(s, u, now)
    ensures var s' := PlaceOne(s, t, now).0; u in s'.tasks && Blocked(s', u, now)
  {
    hide PlaceOne, Invariant, OutOfAddresses, FitsNowhere;
    InvariantParts(s);
    PlaceTouchesOneTask(s, t, now);
    var s' := PlaceOne(s, t, now).0;
    if FitsNowhere(s, u, now) {
      StillFitsNowhere(s, s', u, now);
    } else {
      var n :| NodeExhausted(s, s.tasks[u], n, now);
      PlaceKeepsInvariant(s, t, now);
      InvariantParts(s');
      PlaceOnlyTakesAddresses(s, t, now);
      ExhaustionPersists(s.ipam, s'.ipam, n);
      assert NodeExhausted(s', s'.tasks[u], n, now);
    }
  }

  /** A task is placed on an alive node or left as it was for a reason. */
  lemma PlacedAlive(s: DurableState, t: TaskId, now: DateTime)
    requires Invariant(s) && t in s.tasks && s.tasks[t].state.Pending?
    ensures var s' := PlaceOne(s, t, now).0;
            && t in s'.tasks && !IsOrphan(s', t, now)
            && (Pends(s', t) ==> Blocked(s', t, now))
  {
    InvariantParts(s);
    PendingHoldsNothing(s, t);
    PlaceOneCases(s, t, now);
    var s' := PlaceOne(s, t, now).0;
    var pick := PickNode(s.nodes, s.tasks[t], now);
    if Pends(s', t) && pick.Some? {
      AllocateSucceedsIff(s.ipam, pick.value, t);
      assert NodeExhausted(s', s'.tasks[t], pick.value, now);
    }
  }

  /** From any sound state a task is placed on an alive node or left pending; one
      without networking is left only if it fits nowhere. */
  lemma PlacedOrUnfit(s: DurableState, t: TaskId, now: DateTime)
    requires KeysMatch(s) && t in s.tasks && s.tasks[t].state.Pending?
    ensures var s' := PlaceOne(s, t, now).0;
            && t in s'.tasks && !IsOrphan(s', t, now)
            && (Pends(s', t) && !s'.tasks[t].spec.networkEnabled ==> FitsNowhere(s', t, now))
  {
    hide PlaceOne, IsEligible;
    var ipam', n, network := PlaceShape(s, t, now);
    if PlaceOne(s, t, now) == (s.(ipam := ipam'), []) {
      if !s.tasks[t].spec.networkEnabled {
        UnplacedFitsNowhere(s, t, now);
      }
    } else {
      assert IsEligible(s.nodes[n], s.tasks[t], now);
      CommitIsNoOrphan(s.(ipam := ipam'), t, n, network, now);
    }
  }

  lemma CommitIsNoOrphan(s: DurableState, t: TaskId, n: NodeId, network: Option<NetworkAssignment>, now: DateTime)
    requires t in s.tasks && n in s.nodes && s.nodes[n].id == n && IsEligible(s.nodes[n], s.tasks[t], now)
    ensures var s' := Commit(s, t, n, network).0;
            t in s'.tasks && !IsOrphan(s', t, now) && !s'.tasks[t].state.Pending?
  {
    hide Discovery.ServicesFor;
  }

  lemma UnplacedFitsNowhere(s: DurableState, t: TaskId, now: DateTime)
    requires KeysMatch(s) && t in s.tasks && s.tasks[t].state.Pending?
    requires PlaceOne(s, t, now).1 == [] && !s.tasks[t].spec.networkEnabled
    ensures FitsNowhere(s, t, now)
  {
    var pick := PickNode(s.nodes, s.tasks[t], now);
    if pick.None? {
      assert IsChoice(s.nodes, s.tasks[t], now, None);
    }
  }

  lemma SettledStep(s: DurableState, tried: seq<TaskId>, t: TaskId, now: DateTime)
    requires Settled(s, tried, now) && t in s.tasks && s.tasks[t].state.Pending?
    ensures Settled(PlaceOne(s, t, now).0, tried + [t], now)
  {
    hide PlaceOne, UsedExact, FitsNowhere;
    var s' := PlaceOne(s, t, now).0;
    PlaceKeepsSound(s, t, now);
    PlacedOrUnfit(s, t, now);
    PlaceTouchesOneTask(s, t, now);
    forall u | u in s'.tasks ensures !IsOrphan(s', u, now) {
      if u != t {
        assert !IsOrphan(s, u, now);
      }
    }
    forall u | u in tried + [t] && Pends(s', u) && !s'.tasks[u].spec.networkEnabled ensures FitsNowhere(s', u, now) {
      if u != t {
        StillFitsNowhere(s, s', u, now);
      }
    }
  }

  lemma ProgressStep(s: DurableState, tried: seq<TaskId>, t: TaskId, now: DateTime)
    requires Progress(s, tried, now) && t in s.tasks && s.tasks[t].state.Pending?
    ensures Progress(PlaceOne(s, t, now).0, tried + [t], now)
  {
    hide PlaceOne, Invariant, Blocked, Settled;
    var s' := PlaceOne(s, t, now).0;
    SettledStep(s, tried, t, now);
    PlaceKeepsInvariant(s, t, now);
    PlacedAlive(s, t, now);
    InvariantParts(s);
    PlaceTouchesOneTask(s, t, now);
    forall u | u in tried + [t] && Pends(s', u) ensures Blocked(s', u, now) {
      if u != t {
        StillBlocked(s, t, u, now);
      }
    }
  }

  lemma {:induction false} ProgressAll(s: DurableState, order: seq<TaskId>, now: DateTime)
    requires Settled(s, [], now) && Distinct(order)
    requires forall t | t in order :: t in s.tasks && s.tasks[t].state.Pending?
    ensures var s' := PlaceAll(s, order, now).0;
            && Settled(s', order, now)
            && (Invariant(s) ==> Progress(s', order, now))
            && s'.tasks.Keys == s.tasks.Keys
            && (forall t | t in s.tasks && t !in order :: s'.tasks[t] == s.tasks[t])
            && PendingIds(s') <= PendingIds(s)
    decreases |order|
  {
    hide Settled, Progress, PlaceOne, Invariant;
    if order == [] {
      ProgressStarts(s, now);
    } else {
      var front, last := order[..|order| - 1], order[|order| - 1];
      assert order == front + [last];
      assert last !in front;
      ProgressAll(s, front, now);
      var s1 := PlaceAll(s, front, now).0;
      assert s1.tasks[last] == s.tasks[last] by { assert last in order; }
      SettledStep(s1, front, last, now);
      if Invariant(s) {
        ProgressStep(s1, front, last, now);
      }
      SettledKeys(s1, front, now);
      PlaceTouchesOneTask(s1, last, now);
      assert last in PendingIds(s);
    }
  }

  lemma ProgressStarts(s: DurableState, now: DateTime)
    ensures Invariant(s) && Settled(s, [], now) ==> Progress(s, [], now)
  {
  }

  lemma SettledKeys(s: DurableState, tried: seq<TaskId>, now: DateTime)
    requires Settled(s, tried, now)
    ensures KeysMatch(s)
  {
  }

  lemma RequeueLeavesNoOrphans(s: DurableState, now: DateTime, orphans: seq<TaskId>)
    requires Enumerates(orphans, Orphans(s, now))
    ensures NoOrphans(RequeueAll(s, orphans).0, now)
  {
    RequeueAllEffect(s, orphans);
    var s' := RequeueAll(s, orphans).0;
    forall t | t in s'.tasks ensures !IsOrphan(s', t, now) {
      if t !in orphans {
        assert t !in Orphans(s, now);
      }
    }
  }

  /** The state in which a pass starts to place, and the tasks it tries. */
  lemma ReadyToPlace(s: DurableState, now: DateTime, orphans: seq<TaskId>)
    requires Sound(s) && Enumerates(orphans, Orphans(s, now))
    ensures var s2 := Recounted(RequeueAll(s, orphans).0);
            && Settled(s2, [], now)
            && (Invariant(s) ==> Invariant(s2))
            && Enumerates(Listing(PendingIds(s2)), PendingIds(s2))
  {
    hide Sound, Invariant, UsedExact, RequeueAll, RecountOf, Run, ValidRun;
    RequeueLeavesNoOrphans(s, now, orphans);
    RequeueIsRun(s, orphans, now);
    RunKeepsSound(s, RequeueEvents(orphans, now));
    var s1 := RequeueAll(s, orphans).0;
    RecountKeepsSound(s1);
    if Invariant(s) {
      RunRefines(s, RequeueEvents(orphans, now));
      RecountKeepsInvariant(s1);
    }
    var s2 := Recounted(s1);
    forall t | t in s2.tasks ensures !IsOrphan(s2, t, now) {
      assert !IsOrphan(s1, t, now);
    }
    ListingEnumerates(PendingIds(s2));
  }

  /** A pass from any sound state, one that a crash inside a group left behind
      included: afterwards no task sits on a dead node, every node's `used` is
      the recount, no node is overcommitted, and a task without networking is
      left pending only if it fits no eligible alive node. */
  lemma TickSettles(s: DurableState, now: DateTime, orphans: seq<TaskId>)
    requires Sound(s) && Enumerates(orphans, Orphans(s, now))
    ensures var s' := Tick(s, now, orphans).0;
            && Sound(s')
            && NoOrphans(s', now)
            && UsedExact(s')
            && (forall t | Pends(s', t) && !s'.tasks[t].spec.networkEnabled :: FitsNowhere(s', t, now))
  {
    hide Sound, UsedExact, FitsNowhere, NoOrphans, PlaceAll, RequeueAll, Recounted;
    ReadyToPlace(s, now, orphans);
    var s2 := Recounted(RequeueAll(s, orphans).0);
    var pending := Listing(PendingIds(s2));
    ProgressAll(s2, pending, now);
    var s3 := PlaceAll(s2, pending, now).0;
    forall t | Pends(s3, t) ensures t in pending {
      assert t in PendingIds(s3);
    }
  }

  /** Where tasks and addresses agree, whatever is still pending is blocked in the
      state the pass leaves behind. */
  lemma TickAchieves(s: DurableState, now: DateTime, orphans: seq<TaskId>)
    requires Invariant(s) && Enumerates(orphans, Orphans(s, now))
    ensures var s' := Tick(s, now, orphans).0;
            && NoOrphans(s', now)
            && UsedExact(s')
            && (forall t | Pends(s', t) :: Blocked(s', t, now))
            && (forall t | Pends(s', t) && !s'.tasks[t].spec.networkEnabled :: FitsNowhere(s', t, now))
  {
    hide Sound, Agreement, UsedExact, FitsNowhere, NoOrphans, Blocked, PlaceAll, RequeueAll, Recounted;
    TickSettles(s, now, orphans);
    ReadyToPlace(s, now, orphans);
    var s2 := Recounted(RequeueAll(s, orphans).0);
    var pending := Listing(PendingIds(s2));
    ProgressAll(s2, pending, now);
    var s3 := PlaceAll(s2, pending, now).0;
    forall t | Pends(s3, t) ensures Blocked(s3, t, now) {
      assert t in PendingIds(s3);
    }
  }

  /** Trying to place `t` in `s` comes to nothing: no node is eligible, or the
      chosen one has no address for it. */
  ghost predicate Idle(s: DurableState, t: TaskId, now: DateTime)
    requires t in s.tasks
  {
    match PickNode(s.nodes, s.tasks[t], now)
    case None => true
    case Some(n) => s.tasks[t].spec.networkEnabled && OutOfAddresses(s.ipam, n)
  }

  lemma PlaceIdle(s: DurableState, t: TaskId, now: DateTime)
    requires Invariant(s) && t in s.tasks && s.tasks[t].state.Pending?
    ensures if Idle(s, t, now) then PlaceOne(s, t, now) == (s, []) else PlaceOne(s, t, now).1 != []
  {
    InvariantParts(s);
    PendingHoldsNothing(s, t);
    PlaceOneCases(s, t, now);
    var pick := PickNode(s.nodes, s.tasks[t], now);
    if pick.Some? {
      AllocateSucceedsIff(s.ipam, pick.value, t);
    }
  }

  lemma {:induction false} PlaceAllIdle(s: DurableState, order: seq<TaskId>, now: DateTime)
    requires Invariant(s) && forall t | t in order :: t in s.tasks && s.tasks[t].state.Pending?
    ensures if forall t | t in order :: Idle(s, t, now) then PlaceAll(s, order, now) == (s, [])
            else PlaceAll(s, order, now).1 != []
  {
    hide PlaceOne, Idle, Invariant;
    if order != [] {
      var front, last := order[..|order| - 1], order[|order| - 1];
      assert order == front + [last];
      PlaceAllIdle(s, front, now);
      PlaceIdle(s, last, now);
      if forall t | t in front :: Idle(s, t, now) {
        assert PlaceAll(s, order, now).1 == [] + PlaceOne(s, last, now).1;
      }
    }
  }

  lemma NowhereIsIdle(s: DurableState, t: TaskId, now: DateTime)
    requires t in s.tasks && FitsNowhere(s, t, now)
    ensures Idle(s, t, now)
  {
    assert IsChoice(s.nodes, s.tasks[t], now, None);
    ChoiceUnique(s.nodes, s.tasks[t], now, None, PickNode(s.nodes, s.tasks[t], now));
  }

  lemma ExactRecountChangesNothing(s: DurableState)
    requires UsedExact(s)
    ensures Recounted(s) == s
  {
    assert Recounted(s).nodes == s.nodes;
  }

  /** Without orphans and with an exact `used` a pass is its placements. */
  lemma TickOfSettled(s: DurableState, now: DateTime, orphans: seq<TaskId>)
    requires NoOrphans(s, now) && UsedExact(s) && Enumerates(orphans, Orphans(s, now))
    ensures Tick(s, now, orphans) == PlaceAll(s, Listing(PendingIds(s)), now)
  {
    hide UsedExact, PlaceAll, Recounted, Listing;
    HeadIsElement(orphans);
    assert Orphans(s, now) == {};
    assert RequeueAll(s, orphans) == (s, []);
    ExactRecountChangesNothing(s);
    assert [] + PlaceAll(s, Listing(PendingIds(s)), now).1 == PlaceAll(s, Listing(PendingIds(s)), now).1;
  }

  /** Where tasks without networking fit nowhere, placing does nothing exactly when
      the networked ones are idle. */
  lemma PlacingIsIdleIff(s: DurableState, now: DateTime)
    requires Invariant(s)
    requires forall t | Pends(s, t) && !s.tasks[t].spec.networkEnabled :: FitsNowhere(s, t, now)
    ensures PlaceAll(s, Listing(PendingIds(s)), now) == (s, []) <==>
              forall t | Pends(s, t) && s.tasks[t].spec.networkEnabled :: Idle(s, t, now)
  {
    hide Invariant, FitsNowhere, Idle, PlaceAll, Listing;
    var pending := Listing(PendingIds(s));
    ListingEnumerates(PendingIds(s));
    forall t ensures t in pending <==> Pends(s, t) {
      assert t in PendingIds(s) <==> Pends(s, t);
    }
    forall t | Pends(s, t) && !s.tasks[t].spec.networkEnabled ensures Idle(s, t, now) {
      NowhereIsIdle(s, t, now);
    }
    PlaceAllIdle(s, pending, now);
  }

  /** A second pass at the same moment changes and journals nothing exactly when
      every networked task left pending is idle. In particular it does nothing
      if no task left pending asks for networking. */
  lemma TickFixpointIff(s: DurableState, now: DateTime, orphans: seq<TaskId>, orphans': seq<TaskId>)
    requires Invariant(s) && Enumerates(orphans, Orphans(s, now))
    requires Enumerates(orphans', Orphans(Tick(s, now, orphans).0, now))
    ensures var s' := Tick(s, now, orphans).0;
            Tick(s', now, orphans') == (s', []) <==>
              forall t | Pends(s', t) && s'.tasks[t].spec.networkEnabled :: Idle(s', t, now)
  {
    hide Invariant, UsedExact, NoOrphans, FitsNowhere, Blocked, Idle, PlaceAll, Tick, Listing, Orphans, Enumerates;
    InvariantParts(s);
    TickAchieves(s, now, orphans);
    TickIsRun(s, now, orphans);
    var s' := Tick(s, now, orphans).0;
    TickOfSettled(s', now, orphans');
    PlacingIsIdleIff(s', now);
  }
}
