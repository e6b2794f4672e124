/** Two guests on one node with the same address: a crash tears the terminal
    report of one task apart after its release, and the next pass gives the
    address of the task, which still runs in its record, to another. */
module SharedAddress {
  import opened Types
  import opened Ipam
  import opened Durable
  import opened Placement
  import opened Accounting
  import opened Invariants
  import opened Runs
  import opened Recovery
  import opened Survival
  import opened CrashPoints
  import opened Scenes

  /** "t" runs and "v" waits. */
  function Calm(): seq<Event> {
    Opening() + [Submitted("v", None)]
  }

  function CalmState(): DurableState {
    Opened().(jobs := map["t" := JobRecord("t", 0), "v" := JobRecord("v", 0)],
              tasks := map["t" := T(), "v" := Waiting("v", None)])
  }

  function Report(): Event {
    TaskReported("t", Succeeded, Some(0))
  }

  /** The address of "t" is free, its record still runs. */
  function Torn(): DurableState {
    CalmState().(ipam := IpamState(172, 28, map["m" := 0], map[]))
  }

  function Story(): seq<Action> {
    ServeAll(Calm()) + [Tear(Report(), 1, 0, 0)] + [Serve(NodeHeard("m", None, LATE))] + [Serve(TaskPlaced("v", LATE))]
  }

  lemma CalmRuns()
    ensures ValidRun(EmptyState(BASE), Calm()) && Run(EmptyState(BASE), Calm()).0 == CalmState()
  {
    hide Step, Allowed, Run, ValidRun;
    OpeningRuns();
    assert !IsBlank("v") by { assert !IsWhiteSpace("v"[0]); }
    SubmitsTask(Opened(), "v", None);
    RunExtend(EmptyState(BASE), Opening(), Submitted("v", None));
    assert Opened().tasks["v" := Waiting("v", None)] == CalmState().tasks;
    assert Opened().jobs["v" := JobRecord("v", 0)] == CalmState().jobs;
  }

  lemma ReportReleasesFirst()
    ensures Allowed(CalmState(), Report())
    ensures Step(CalmState(), Report()).1 == [IpamRelease("t"), SetTaskState("t", Succeeded, Some(0))]
    ensures ApplyOne(CalmState(), IpamRelease("t"), 0) == Torn()
  {
    assert CalmState().ipam.held - {"t"} == map[];
  }

  /** What the start after the torn report finds. */
  lemma TornStart(sys: System)
    requires Consistent(BASE, sys) && sys.live == CalmState()
    ensures Happens(sys, Tear(Report(), 1, 0, 0))
    ensures var r := Next(BASE, sys, Tear(Report(), 1, 0, 0)).live; r.Erased() == Torn().Erased() && UsedExact(r)
  {
    hide Recover, Step, Allowed, Consistent, UsedExact, RecountOf;
    ReportReleasesFirst();
    var release := [IpamRelease("t")];
    assert Kept(Step(sys.live, Report()).1, 1) == release;
    ApplySingle(sys.live, IpamRelease("t"), 0);
    RecoverPrefix(BASE, sys, release, Torn(), 0, 0);
    RecoverCounts(BASE, sys.snapshot, sys.journal + release, 0, 0);
  }

  lemma RecoverCounts(base: IpamState, snapshot: Option<DurableState>, journal: seq<JournalOp>,
                      restored: DateTime, replayed: DateTime)
    ensures UsedExact(Recover(base, snapshot, journal, restored, replayed))
  {
    hide RecountOf, ApplyAll;
  }

  /** A heartbeat brings the node back. */
  lemma NodeIsBack(s: DurableState)
    requires s.Erased() == Torn().Erased() && UsedExact(s)
    ensures Allowed(s, NodeHeard("m", None, LATE))
    ensures var heard := Step(s, NodeHeard("m", None, LATE)).0;
            && heard.tasks == Torn().tasks && heard.ipam == Torn().ipam
            && heard.nodes.Keys == {"m"} && heard.nodes["m"].id == "m"
            && IsEligible(heard.nodes["m"], Waiting("v", None), LATE)
  {
    hide RecountOf;
    SameErasedParts(s, Torn());
    assert EraseNode(s.nodes["m"]) == EraseNode(Node("m", 0));
    NothingIsDemanded(s.tasks, "m");
  }

  lemma FreeAddress()
    ensures var free := Torn().ipam;
            free.Allocate("m", "v") == (Some(Address(0, 2)), free.(held := map["v" := Address(0, 2)]))
  {
    hide IpamState.Allocate, IpamState.SubnetOctet;
    var free := Torn().ipam;
    OwnOctet(free, "m");
    FirstAddress(free, "m", "v", 0);
    assert free.subnets["m" := 0] == free.subnets;
    assert free.held["v" := Address(0, 2)] == map["v" := Address(0, 2)];
  }

  /** Then the node takes "v", which gets the address. */
  lemma VTakesTheAddress(heard: DurableState)
    requires heard.tasks == Torn().tasks && heard.ipam == Torn().ipam
    requires heard.nodes.Keys == {"m"} && heard.nodes["m"].id == "m"
    requires IsEligible(heard.nodes["m"], Waiting("v", None), LATE)
    ensures Allowed(heard, TaskPlaced("v", LATE))
    ensures Step(heard, TaskPlaced("v", LATE)).0.tasks
            == map["t" := T(), "v" := On(Waiting("v", None), "m", 0, 2, Assigned, None)]
  {
    hide PickNode, IpamState.Allocate, IsEligible, Step;
    PickOnly(heard.nodes, heard.tasks["v"], LATE, "m");
    FreeAddress();
    PlacesTask(heard, "v", "m", 0, 2, heard.ipam.(held := map["v" := Address(0, 2)]), LATE);
    assert heard.tasks["v" := On(Waiting("v", None), "m", 0, 2, Assigned, None)]
           == map["t" := T(), "v" := On(Waiting("v", None), "m", 0, 2, Assigned, None)];
  }

  /** At the end of a history with one torn report two unfinished tasks sit on one
      node with one network, although the allocator is well formed. */
  lemma TwoTasksOneAddress()
    ensures History(BASE, Story())
    ensures var s := After(BASE, Story()).live;
            && s.ipam.WellFormed()
            && s.tasks == map["t" := T(), "v" := On(Waiting("v", None), "m", 0, 2, Assigned, None)]
            && Share(s.tasks["t"], s.tasks["v"]) && !NetworksDistinct(s)
  {
    hide Step, Allowed, Run, ValidRun, History, HarmlessHistory, After, Consistent, Calm, CalmState, Torn, Recover;
    CalmRuns();
    StartHistory();
    ServesRun(BASE, [], Calm());
    assert [] + ServeAll(Calm()) == ServeAll(Calm());
    HistoryConsistent(BASE, ServeAll(Calm()));
    var calm := After(BASE, ServeAll(Calm()));
    TornStart(calm);
    AfterExtend(BASE, ServeAll(Calm()), Tear(Report(), 1, 0, 0));
    var torn := After(BASE, ServeAll(Calm()) + [Tear(Report(), 1, 0, 0)]);
    NodeIsBack(torn.live);
    VTakesTheAddress(Step(torn.live, NodeHeard("m", None, LATE)).0);
    AfterExtend(BASE, ServeAll(Calm()) + [Tear(Report(), 1, 0, 0)], Serve(NodeHeard("m", None, LATE)));
    AfterExtend(BASE, ServeAll(Calm()) + [Tear(Report(), 1, 0, 0)] + [Serve(NodeHeard("m", None, LATE))],
                Serve(TaskPlaced("v", LATE)));
    RecordsSurvive(BASE, Story(), 0, 0);
  }
}
