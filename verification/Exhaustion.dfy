/** What running out of addresses does to placement: a node without one is passed
    over for good or keeps a task waiting although another node could take it. */
module Exhaustion {
  import opened Types
  import opened Collections
  import opened Ipam
  import opened Durable
  import opened Placement
  import opened Accounting
  import opened Scheduling
  import opened Soundness
  import opened Invariants
  import opened Runs
  import opened Passes
  import opened Recovery
  import opened Scenes

  // ---------------------------------------------------------------------
  // For good
  // ---------------------------------------------------------------------

  /** Octets given out stay given out. */
  ghost predicate OctetsKept(s: IpamState, s': IpamState) {
    forall m | m in s.subnets :: m in s'.subnets && s'.subnets[m] == s.subnets[m]
  }

  /** All octets are given out, none of them to `n`. */
  predicate ShutOut(s: IpamState, n: NodeId) {
    |s.subnets| >= 256 && n !in s.subnets
  }

  lemma StepKeepsOctets(s: DurableState, e: Event)
    requires Sound(s) && Allowed(s, e)
    ensures OctetsKept(s.ipam, Step(s, e).0.ipam)
  {
    hide PlaceOne, Commit, RecountOf, IpamState.WellFormed, NoOvercommit, UsedCovers;
    if e.TaskPlaced? {
      var ipam', n, network := PlaceShape(s, e.t, e.now);
      if PlaceOne(s, e.t, e.now) != (s.(ipam := ipam'), []) {
        CommitShape(s.(ipam := ipam'), e.t, n, network);
      }
    }
  }

  /** A node that is shut out is given no address, not even for a task that holds
      one. */
  lemma StepAllocatesElsewhere(s: DurableState, e: Event, n: NodeId)
    requires Sound(s) && Allowed(s, e) && ShutOut(s.ipam, n)
    ensures forall i | 0 <= i < |Step(s, e).1| && Step(s, e).1[i].IpamAllocate? :: Step(s, e).1[i].nodeId != n
  {
    hide Commit, RecountOf, NoOvercommit, UsedCovers, ShutOut, IpamState.WellFormed;
    if e.TaskPlaced? && PickNode(s.nodes, s.tasks[e.t], e.now).Some? {
      PlaceAllocatesElsewhere(s, e.t, e.now, n);
    }
  }

  lemma PlaceAllocatesElsewhere(s: DurableState, t: TaskId, now: DateTime, n: NodeId)
    requires KeysMatch(s) && s.ipam.WellFormed() && t in s.tasks && ShutOut(s.ipam, n)
    requires PickNode(s.nodes, s.tasks[t], now).Some?
    ensures var ops := PlaceOne(s, t, now).1;
            forall i | 0 <= i < |ops| && ops[i].IpamAllocate? :: ops[i].nodeId != n
  {
    hide Commit, IpamState.Allocate, IpamState.WellFormed, IsEligible;
    var m := PickNode(s.nodes, s.tasks[t], now).value;
    if s.tasks[t].spec.networkEnabled {
      var (ip, ipam') := s.ipam.Allocate(m, t);
      if ip.Some? && ipam'.GatewayFor(m).Some? {
        NoGatewayThere(s.ipam, n, t);
        CommitShape(s.(ipam := ipam'), t, m, Some(NetworkAssignment(ip.value, ipam'.GatewayFor(m).value, NETMASK)));
      }
    } else {
      CommitShape(s, t, m, None);
    }
  }

  lemma NoGatewayThere(s: IpamState, n: NodeId, t: TaskId)
    requires s.WellFormed() && ShutOut(s, n)
    ensures s.Allocate(n, t).1.GatewayFor(n).None?
  {
    OctetsSize(s);
  }

  lemma {:induction false} RunKeepsOctets(s: DurableState, events: seq<Event>)
    requires Sound(s) && ValidRun(s, events)
    ensures OctetsKept(s.ipam, Run(s, events).0.ipam)
    decreases |events|
  {
    hide Sound, Step, Allowed;
    if events != [] {
      var front := events[..|events| - 1];
      RunKeepsOctets(s, front);
      RunKeepsSound(s, front);
      StepKeepsOctets(Run(s, front).0, events[|events| - 1]);
    }
  }

  lemma StaysShutOut(s: IpamState, s': IpamState, n: NodeId)
    requires s'.WellFormed() && OctetsKept(s, s') && ShutOut(s, n)
    ensures ShutOut(s', n) && s'.subnets.Keys == s.subnets.Keys && OutOfAddresses(s', n)
  {
    hide IpamState.WellFormed;
    OctetsSize(s');
    SubsetSize(s.subnets.Keys, s'.subnets.Keys);
  }

  lemma SoundAllocator(s: DurableState)
    requires Sound(s)
    ensures s.ipam.WellFormed()
  {
  }

  /** Octets are never freed. Once all are given out, a node without one is out of
      addresses for good: over any run, releases included, it is given none. */
  lemma {:induction false} ShutOutForGood(s: DurableState, events: seq<Event>, n: NodeId)
    requires Sound(s) && ValidRun(s, events) && ShutOut(s.ipam, n)
    ensures var (s', ops) := Run(s, events);
            && ShutOut(s'.ipam, n) && OutOfAddresses(s'.ipam, n)
            && (forall i | 0 <= i < |ops| && ops[i].IpamAllocate? :: ops[i].nodeId != n)
    decreases |events|
  {
    hide Sound, Step, Allowed, ShutOut, OctetsKept, OutOfAddresses, IpamState.WellFormed;
    RunKeepsOctets(s, events);
    RunKeepsSound(s, events);
    SoundAllocator(Run(s, events).0);
    StaysShutOut(s.ipam, Run(s, events).0.ipam, n);
    if events != [] {
      var front := events[..|events| - 1];
      ShutOutForGood(s, front, n);
      RunKeepsSound(s, front);
      StepAllocatesElsewhere(Run(s, front).0, events[|events| - 1], n);
    }
  }

  // ---------------------------------------------------------------------
  // Waiting beside a free node
  // ---------------------------------------------------------------------

  /** The guest that gets host `i`. */
  function Name(i: nat): TaskId {
    seq(i, _ => 'x')
  }

  /** The guests with the hosts below `k`. */
  function Names(k: nat): set<TaskId> {
    set i | FIRST_HOST <= i < k :: Name(i)
  }

  function Guest(t: TaskId): Task
    requires |t| < 256
  {
    On(Waiting(t, None), "a", 0, |t|, Assigned, None)
  }

  lemma NamesAre(k: nat, t: TaskId)
    ensures t in Names(k) <==> FIRST_HOST <= |t| < k && t == Name(|t|)
  {
    if FIRST_HOST <= |t| < k && t == Name(|t|) {
      assert Name(|t|) in Names(k);
    }
  }

  lemma NamesGrow(k: nat)
    requires FIRST_HOST <= k
    ensures Names(k + 1) == Names(k) + {Name(k)} && Name(k) !in Names(k)
  {
    forall t ensures t in Names(k + 1) <==> t in Names(k) || t == Name(k) {
      NamesAre(k, t);
      NamesAre(k + 1, t);
    }
    NamesAre(k, Name(k));
  }

  function CrowdIpam(k: nat): IpamState
    requires k < 256
  {
    IpamState(172, 28, if k == FIRST_HOST then map[] else map["a" := 0], map t | t in Names(k) :: Address(0, |t|))
  }

  /** Node "a" with the guests that have the hosts below `k`. */
  function Crowd(k: nat): DurableState
    requires k < 256
  {
    DurableState(
      map t | t in Names(k) :: JobRecord(t, 0),
      map t | t in Names(k) :: Guest(t),
      map["a" := Node("a", 0)],
      map[],
      CrowdIpam(k))
  }

  /** One job after the other is submitted and placed. */
  function CrowdEvents(k: nat): seq<Event> {
    if k <= FIRST_HOST then [Registered("a")]
    else CrowdEvents(k - 1) + [Submitted(Name(k - 1), None)] + [TaskPlaced(Name(k - 1), 0)]
  }

  lemma HostsTaken(k: nat)
    requires FIRST_HOST < k < 256
    ensures forall h :: h in CrowdIpam(k).UsedHosts(0) <==> FIRST_HOST <= h < k
  {
    var s := CrowdIpam(k);
    forall h ensures h in s.UsedHosts(0) <==> FIRST_HOST <= h < k {
      if FIRST_HOST <= h < k {
        NamesAre(k, Name(h));
        assert Name(h) in s.Holders(0) && s.held[Name(h)].d == h;
      }
      if h in s.UsedHosts(0) {
        var t :| t in s.Holders(0) && s.held[t].d == h;
        NamesAre(k, t);
      }
    }
  }

  lemma LeastAbove(lo: int, hi: int, k: int, taken: set<int>)
    requires lo <= k <= hi && k !in taken && forall h | lo <= h < k :: h in taken
    ensures FirstFree(lo, hi, taken) == Some(k)
  {
    var r := FirstFree(lo, hi, taken);
    assert r.Some?;
    assert !(k < r.value) && !(r.value < k);
  }

  /** The next guest gets the next host. */
  lemma NextHost(k: nat)
    requires FIRST_HOST <= k <= LAST_HOST
    ensures CrowdIpam(k).Allocate("a", Name(k)) == (Some(Address(0, k)), CrowdIpam(k + 1))
  {
    var s := CrowdIpam(k);
    NamesGrow(k);
    assert s.held[Name(k) := Address(0, k)] == CrowdIpam(k + 1).held;
    if k == FIRST_HOST {
      FirstOctet(s, "a");
      assert Names(k) == {};
      FirstAddress(s, "a", Name(k), 0);
    } else {
      HostsTaken(k);
      assert s.SubnetOctet("a") == (Some(0), s);
      LeastAbove(FIRST_HOST, LAST_HOST, k, s.UsedHosts(0));
    }
  }

  function CrowdWaits(k: nat): DurableState
    requires k < 256
  {
    Crowd(k).(jobs := Crowd(k).jobs[Name(k) := JobRecord(Name(k), 0)],
              tasks := Crowd(k).tasks[Name(k) := Waiting(Name(k), None)])
  }

  lemma GuestIsSubmitted(k: nat)
    requires FIRST_HOST <= k <= LAST_HOST
    ensures Allowed(Crowd(k), Submitted(Name(k), None)) && Step(Crowd(k), Submitted(Name(k), None)).0 == CrowdWaits(k)
  {
    hide Step, CrowdIpam, Names;
    var t := Name(k);
    NamesGrow(k);
    assert !IsBlank(t) by { assert t[0] == 'x' && !IsWhiteSpace(t[0]); }
    SubmitsTask(Crowd(k), t, None);
  }

  lemma CrowdGrows(k: nat)
    requires FIRST_HOST <= k <= LAST_HOST
    ensures CrowdWaits(k).jobs == Crowd(k + 1).jobs
    ensures CrowdWaits(k).tasks[Name(k) := Guest(Name(k))] == Crowd(k + 1).tasks
  {
    hide CrowdIpam, Names, Guest, Waiting;
    NamesGrow(k);
  }

  lemma GuestIsPlaced(k: nat)
    requires FIRST_HOST <= k <= LAST_HOST
    ensures Allowed(CrowdWaits(k), TaskPlaced(Name(k), 0))
    ensures Step(CrowdWaits(k), TaskPlaced(Name(k), 0)).0 == Crowd(k + 1)
  {
    hide PickNode, IpamState.Allocate, IpamState.GatewayFor, Step, CrowdIpam, Names;
    var t, s := Name(k), CrowdWaits(k);
    PickOnly(s.nodes, s.tasks[t], 0, "a");
    NextHost(k);
    CrowdGateway(k + 1);
    PlacesTask(s, t, "a", 0, k, CrowdIpam(k + 1), 0);
    CrowdGrows(k);
  }

  lemma CrowdGateway(k: nat)
    requires FIRST_HOST < k < 256
    ensures CrowdIpam(k).GatewayFor("a") == Some(Address(0, 1))
  {
  }

  lemma CrowdStarts()
    ensures Allowed(EmptyState(BASE), Registered("a")) && Step(EmptyState(BASE), Registered("a")).0 == Crowd(FIRST_HOST)
  {
    assert Names(FIRST_HOST) == {};
    var s := Step(EmptyState(BASE), Registered("a")).0;
    assert s.jobs == Crowd(FIRST_HOST).jobs && s.tasks == Crowd(FIRST_HOST).tasks;
    assert s.ipam.held == Crowd(FIRST_HOST).ipam.held;
  }

  lemma {:induction false} CrowdRuns(k: nat)
    requires FIRST_HOST <= k < 256
    ensures ValidRun(EmptyState(BASE), CrowdEvents(k)) && Run(EmptyState(BASE), CrowdEvents(k)).0 == Crowd(k)
  {
    hide Step, Allowed, Run, ValidRun, Crowd, CrowdWaits;
    if k == FIRST_HOST {
      CrowdStarts();
      RunSingle(EmptyState(BASE), Registered("a"));
    } else {
      CrowdRuns(k - 1);
      GuestIsSubmitted(k - 1);
      GuestIsPlaced(k - 1);
      RunExtend(EmptyState(BASE), CrowdEvents(k - 1), Submitted(Name(k - 1), None));
      RunExtend(EmptyState(BASE), CrowdEvents(k - 1) + [Submitted(Name(k - 1), None)], TaskPlaced(Name(k - 1), 0));
    }
  }

  // ---------------------------------------------------------------------
  // A second node
  // ---------------------------------------------------------------------

  const FULL := LAST_HOST + 1

  /** Every address of node "a" is held, node "b" has none given out, and "w" waits. */
  function Story(): seq<Event> {
    CrowdEvents(FULL) + [Registered("b")] + [Submitted("w", None)]
  }

  function WithB(): DurableState {
    Crowd(FULL).(nodes := map["a" := Node("a", 0), "b" := Node("b", 0)])
  }

  function Crowded(): DurableState {
    WithB().(jobs := WithB().jobs["w" := JobRecord("w", 0)], tasks := WithB().tasks["w" := Waiting("w", None)])
  }

  lemma BRegisters()
    ensures Allowed(Crowd(FULL), Registered("b")) && Step(Crowd(FULL), Registered("b")).0 == WithB()
  {
    hide CrowdIpam, Names;
    assert Crowd(FULL).nodes["b" := Node("b", 0)] == WithB().nodes;
  }

  lemma WIsSubmitted()
    ensures Allowed(WithB(), Submitted("w", None)) && Step(WithB(), Submitted("w", None)).0 == Crowded()
  {
    hide CrowdIpam, Names, Step;
    NamesAre(FULL, "w");
    assert !IsBlank("w") by { assert !IsWhiteSpace("w"[0]); }
    SubmitsTask(WithB(), "w", None);
  }

  lemma StoryRuns()
    ensures ValidRun(EmptyState(BASE), Story()) && Run(EmptyState(BASE), Story()).0 == Crowded()
  {
    hide Step, Allowed, Run, ValidRun, Crowd, WithB, Crowded, CrowdEvents;
    CrowdRuns(FULL);
    BRegisters();
    RunExtend(EmptyState(BASE), CrowdEvents(FULL), Registered("b"));
    WIsSubmitted();
    RunExtend(EmptyState(BASE), CrowdEvents(FULL) + [Registered("b")], Submitted("w", None));
  }

  lemma CrowdedAddresses()
    ensures OutOfAddresses(Crowded().ipam, "a") && !OutOfAddresses(Crowded().ipam, "b")
  {
    var s := Crowded().ipam;
    NamesCounted();
    forall t | t in s.held ensures s.InSubnet(s.held[t], 0) {
      NamesAre(FULL, t);
    }
    assert s.Holders(0) == Names(FULL);
    assert s.subnets.Keys == {"a"};
  }

  lemma NamesCounted()
    ensures |Names(FULL)| == HOSTS_PER_SUBNET
  {
    var sizes := map t | t in Names(FULL) :: |t|;
    forall t, u | t in sizes && u in sizes && sizes[t] == sizes[u] ensures t == u {
      NamesAre(FULL, t);
      NamesAre(FULL, u);
    }
    InjectiveSize(sizes);
    assert sizes.Keys == Names(FULL);
    var hosts := Range(FIRST_HOST, FULL);
    RangeSize(FIRST_HOST, FULL);
    assert sizes.Values == hosts by {
      forall i | i in hosts ensures i in sizes.Values {
        NamesAre(FULL, Name(i));
        assert Name(i) in sizes && sizes[Name(i)] == i;
      }
      forall i | i in sizes.Values ensures i in hosts {
        var t :| t in sizes && sizes[t] == i;
        NamesAre(FULL, t);
      }
    }
  }

  /** Two idle nodes tie, so the smaller id goes first. */
  lemma AGoesFirst()
    ensures Before(Node("a", 0), Node("b", 0)) && !Before(Node("b", 0), Node("a", 0))
    ensures !Before(Node("a", 0), Node("a", 0))
  {
    hide CompareLoad;
    EqualLoads(Node("a", 0), Node("b", 0));
    EqualLoads(Node("b", 0), Node("a", 0));
    EqualLoads(Node("a", 0), Node("a", 0));
    Ordering.LessTotal("a", "b");
    assert Ordering.Less("a", "b");
    Ordering.LessIrreflexive("a");
  }

  lemma EqualLoads(a: NodeInfo, b: NodeInfo)
    requires a.total == b.total && a.used == b.used
    ensures CompareLoad(a, b).EQ?
  {
  }

  lemma BothEligible()
    ensures IsEligible(Node("a", 0), Waiting("w", None), 0) && IsEligible(Node("b", 0), Waiting("w", None), 0)
  {
  }

  lemma AIsPicked()
    ensures PickNode(Crowded().nodes, Waiting("w", None), 0) == Some("a")
  {
    hide Before, IsEligible, Names, CrowdIpam;
    var nodes, w := Crowded().nodes, Waiting("w", None);
    AGoesFirst();
    BothEligible();
    assert IsLeast(nodes, w, 0, "a");
    assert IsChoice(nodes, w, 0, Some("a"));
    ChoiceUnique(nodes, w, 0, Some("a"), PickNode(nodes, w, 0));
  }

  /** Placement looks at the preferred node only: in a state the server reaches from
      its first start "w" waits although "b" is eligible and can open a /24 of its
      own. `Passes.PlaceIdle` gives the exact condition, which is on the preferred
      node alone. */
  lemma WaitsBesideAFreeNode()
    ensures History(BASE, ServeAll(Story())) && After(BASE, ServeAll(Story())).live == Crowded()
    ensures Invariant(Crowded())
    ensures PlaceOne(Crowded(), "w", 0) == (Crowded(), [])
    ensures IsEligible(Crowded().nodes["b"], Crowded().tasks["w"], 0) && !OutOfAddresses(Crowded().ipam, "b")
  {
    hide PlaceOne, PickNode, Invariant, IsEligible, OutOfAddresses, Crowd, Story, Run, ValidRun, History,
         HarmlessHistory, After;
    StoryRuns();
    StartHistory();
    ServesRun(BASE, [], Story());
    assert [] + ServeAll(Story()) == ServeAll(Story());
    EmptyInvariant(BASE);
    RunRefines(EmptyState(BASE), Story());
    CrowdedAddresses();
    AIsPicked();
    BothEligible();
    PlaceIdle(Crowded(), "w", 0);
  }
}
