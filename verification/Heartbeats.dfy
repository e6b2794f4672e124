/** What a crash loses of the nodes: heartbeats are not journaled, so an underlay
    address that came with one may be gone, and `used` is recomputed. */
module Heartbeats {
  import opened Types
  import opened Ipam
  import opened Durable
  import opened Accounting
  import opened Scheduling
  import opened Soundness
  import opened Invariants
  import opened Runs

  /** The underlay address a heartbeat brings a known node. */
  function HeardNow(s: DurableState, e: Event, n: NodeId): Option<Ip> {
    if e.NodeHeard? && e.nodeId == n && n in s.nodes then e.underlay else None
  }

  /** The last underlay address a heartbeat of the run brought node `n`. */
  ghost function Heard(s: DurableState, events: seq<Event>, n: NodeId): Option<Ip> {
    if events == [] then None else
      var front, last := events[..|events| - 1], events[|events| - 1];
      var now := HeardNow(Run(s, front).0, last, n);
      if now.Some? then now else Heard(s, front, n)
  }

  /** The underlay address node `n` registered with in the run, or the one the
      replay starts with. */
  function RegisteredWith(a: DurableState, events: seq<Event>, n: NodeId): Option<Ip> {
    if events == [] then (if n in a.nodes then a.nodes[n].underlayIp else None) else
      var last := events[|events| - 1];
      if last.NodeRegistered? && last.nodeId == n then last.underlay
      else RegisteredWith(a, events[..|events| - 1], n)
  }

  /** The same nodes with the same underlay addresses. */
  predicate SameUnderlay(a: DurableState, s: DurableState) {
    && a.nodes.Keys == s.nodes.Keys
    && (forall n | n in s.nodes :: a.nodes[n].underlayIp == s.nodes[n].underlayIp)
  }

  // ---------------------------------------------------------------------
  // One event
  // ---------------------------------------------------------------------

  lemma {:induction false} NoRegistration(s: DurableState, ops: seq<JournalOp>, now: DateTime)
    requires forall i | 0 <= i < |ops| :: !ops[i].RegisterNode?
    ensures ApplyAll(s, ops, now).nodes == s.nodes
  {
    if ops != [] {
      var front := ops[..|ops| - 1];
      assert forall i | 0 <= i < |front| :: front[i] == ops[i];
      NoRegistration(s, front, now);
      OnlyRegistrationTouchesNodes(ApplyAll(s, front, now), map[], ops[|ops| - 1], now, now);
    }
  }

  /** Only a registration journals nodes. */
  lemma StepRegistersNothing(s: DurableState, e: Event)
    requires KeysMatch(s) && Allowed(s, e) && !e.NodeRegistered?
    ensures forall i | 0 <= i < |Step(s, e).1| :: !Step(s, e).1[i].RegisterNode?
  {
    hide PlaceOne, Commit, IpamState.WellFormed;
    if e.TaskPlaced? {
      var ipam', n, network := PlaceShape(s, e.t, e.now);
      if PlaceOne(s, e.t, e.now) != (s.(ipam := ipam'), []) {
        CommitShape(s.(ipam := ipam'), e.t, n, network);
      }
    }
  }

  /** Only a heartbeat changes the underlay address of a known node. */
  lemma StepUnderlay(s: DurableState, e: Event, n: NodeId)
    requires KeysMatch(s) && Allowed(s, e) && n in s.nodes
    ensures var s' := Step(s, e).0;
            && n in s'.nodes
            && s'.nodes[n].underlayIp == if HeardNow(s, e, n).Some? then HeardNow(s, e, n) else s.nodes[n].underlayIp
  {
    hide PlaceOne, RecountOf;
    if e.TaskPlaced? {
      PlaceTouchesOneTask(s, e.t, e.now);
    }
  }

  lemma StepKeepsNodes(s: DurableState, e: Event)
    requires KeysMatch(s) && Allowed(s, e) && !e.NodeRegistered?
    ensures Step(s, e).0.nodes.Keys == s.nodes.Keys
  {
    hide PlaceOne, RecountOf;
    if e.TaskPlaced? {
      PlaceTouchesOneTask(s, e.t, e.now);
    }
  }

  // ---------------------------------------------------------------------
  // Whole runs
  // ---------------------------------------------------------------------

  /** The live underlay address of a node is the last one heard in the run, or
      the one it registered with, which is what the replay gives. `a` is where
      the replay starts. */
  lemma {:induction false} LiveUnderlay(a: DurableState, s: DurableState, events: seq<Event>, now: DateTime, n: NodeId)
    requires Sound(s) && ValidRun(s, events) && SameUnderlay(a, s)
    ensures ApplyAll(a, Run(s, events).1, now).nodes.Keys == Run(s, events).0.nodes.Keys
    ensures Heard(s, events, n).Some? ==> n in Run(s, events).0.nodes
    ensures n in Run(s, events).0.nodes ==>
              Run(s, events).0.nodes[n].underlayIp ==
                if Heard(s, events, n).Some? then Heard(s, events, n) else RegisteredWith(a, events, n)
    ensures n in Run(s, events).0.nodes ==>
              ApplyAll(a, Run(s, events).1, now).nodes[n].underlayIp == RegisteredWith(a, events, n)
    decreases |events|
  {
    hide Sound, Step, Allowed, ApplyOne;
    if events != [] {
      var front, last := events[..|events| - 1], events[|events| - 1];
      var (s1, ops) := Run(s, front);
      LiveUnderlay(a, s, front, now, n);
      RunKeepsSound(s, front);
      SoundKeys(s1);
      ApplyConcat(a, ops, Step(s1, last).1, now);
      var x := ApplyAll(a, ops, now);
      if last.NodeRegistered? {
        RegistrationUnderlay(x, s1, last, now);
      } else {
        StepRegistersNothing(s1, last);
        NoRegistration(x, Step(s1, last).1, now);
        StepKeepsNodes(s1, last);
      }
      if n in s1.nodes {
        StepUnderlay(s1, last, n);
      }
    }
  }

  lemma SoundKeys(s: DurableState)
    requires Sound(s)
    ensures KeysMatch(s)
  {
  }

  lemma RegistrationUnderlay(x: DurableState, s: DurableState, e: Event, now: DateTime)
    requires e.NodeRegistered? && Allowed(s, e) && x.nodes.Keys == s.nodes.Keys
    ensures var (s', ops) := Step(s, e); var x' := ApplyAll(x, ops, now);
            && x'.nodes.Keys == s'.nodes.Keys == s.nodes.Keys + {e.nodeId}
            && x'.nodes[e.nodeId].underlayIp == s'.nodes[e.nodeId].underlayIp == e.underlay
            && (forall n | n in s.nodes :: x'.nodes[n] == x.nodes[n])
  {
    ApplySingle(x, Step(s, e).1[0], now);
  }

  /** A start knows a node under the underlay address it registered with, which is
      the live one exactly when no heartbeat of the run brought one, or the last
      one brought that same address. */
  lemma UnderlaySurvivesIff(a: DurableState, s: DurableState, events: seq<Event>, now: DateTime, n: NodeId)
    requires Sound(s) && ValidRun(s, events) && SameUnderlay(a, s)
    requires n in Run(s, events).0.nodes
    ensures var replayed := ApplyAll(a, Run(s, events).1, now).nodes;
            n in replayed && replayed[n].underlayIp == RegisteredWith(a, events, n)
    ensures Run(s, events).0.nodes[n].underlayIp == RegisteredWith(a, events, n)
            <==> Heard(s, events, n).None? || Heard(s, events, n) == RegisteredWith(a, events, n)
  {
    hide Sound, ApplyAll, Run, Heard, RegisteredWith;
    LiveUnderlay(a, s, events, now, n);
  }

  /** The `used` of a node survives a start exactly when it was the recount. */
  lemma UsedSurvivesIff(s: DurableState, events: seq<Event>, now: DateTime, n: NodeId)
    requires Invariant(s) && ValidRun(s, events) && n in Run(s, events).0.nodes
    ensures var live := Run(s, events).0;
            var r := Recounted(ApplyAll(s, Run(s, events).1, now));
            n in r.nodes && (r.nodes[n].used == live.nodes[n].used <==> live.nodes[n].used == RecountOf(live.tasks, n))
  {
    hide Invariant, ApplyAll, Run, RecountOf;
    var (live, ops) := Run(s, events);
    RunRefines(s, events);
    ApplyAllRespectsErasure(s, s, ops, now, 0);
    SameErasedParts(ApplyAll(s, ops, now), live);
  }

  /** A node registers without an underlay address and reports one with its first
      heartbeat; a start on the journal of that run does not know it. */
  lemma HeartbeatIsLost(ip: Ip)
    ensures var s := EmptyState(NO_ADDRESSES);
            var events := [NodeRegistered("n", "n", NO_RESOURCES, None, 0, "n"), NodeHeard("n", Some(ip), 1)];
            && Invariant(s) && ValidRun(s, events)
            && var (live, ops) := Run(s, events);
            && "n" in live.nodes && live.nodes["n"].underlayIp == Some(ip)
            && "n" in ApplyAll(s, ops, 0).nodes && ApplyAll(s, ops, 0).nodes["n"].underlayIp == None
  {
    var s := EmptyState(NO_ADDRESSES);
    var e, f := NodeRegistered("n", "n", NO_RESOURCES, None, 0, "n"), NodeHeard("n", Some(ip), 1);
    EmptyInvariant(NO_ADDRESSES);
    RunSingle(s, e);
    RunExtend(s, [e], f);
    assert [e] + [f] == [e, f];
    var (live, ops) := Run(s, [e, f]);
    assert ops == [RegisterNode(NodeInfo("n", "n", "n", None, NO_RESOURCES, NO_RESOURCES, 0))];
    ApplySingle(s, ops[0], 0);
  }
}
