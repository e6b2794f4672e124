/** An address that was given back need not replay to the recorded one: one task
    finishes, another gets its address, and a crash hits the compaction. Nothing
    is lost, and still the replay disagrees with the journal on the way. */
module GivenBack {
  import opened Types
  import opened Ipam
  import opened Durable
  import opened Placement
  import opened Invariants
  import opened Runs
  import opened Compaction
  import opened CompactionExact
  import opened Recovery
  import opened Scenes

  function Finished(): Event {
    TaskReported("t", Succeeded, Some(0))
  }

  function Story(): seq<Event> {
    Opening() + [Finished()] + [Submitted("v", None)] + [TaskPlaced("v", 0)]
  }

  function V(): Task {
    On(Waiting("v", None), "m", 0, 2, Assigned, None)
  }

  function Free(): IpamState {
    IpamState(172, 28, map["m" := 0], map[])
  }

  /** "t" is done and its address is free. */
  function Done(): DurableState {
    Opened().(tasks := map["t" := T().(state := Succeeded, exitCode := Some(0))], ipam := Free())
  }

  function Submitting(): DurableState {
    Done().(jobs := map["t" := JobRecord("t", 0), "v" := JobRecord("v", 0)],
            tasks := map["t" := Done().tasks["t"], "v" := Waiting("v", None)])
  }

  /** "v" has the address. */
  function End(): DurableState {
    Submitting().(tasks := map["t" := Done().tasks["t"], "v" := V()],
                  ipam := Free().(held := map["v" := Address(0, 2)]))
  }

  function Ops(): seq<JournalOp> {
    OpeningOps() + [IpamRelease("t"), SetTaskState("t", Succeeded, Some(0))]
    + [JournalOp.CreateJob("v", "v", 0, [Waiting("v", None)])] + PlacementOps("v", "m", 0, 2)
  }

  lemma TFinishes()
    ensures Allowed(Opened(), Finished())
    ensures Step(Opened(), Finished()) == (Done(), [IpamRelease("t"), SetTaskState("t", Succeeded, Some(0))])
  {
    var out := Opened().SetTaskState("t", Succeeded, Some(0));
    assert out.state.tasks == Done().tasks;
    assert out.state.ipam.held == map[];
    assert out.ops == [IpamRelease("t"), SetTaskState("t", Succeeded, Some(0))];
  }

  lemma VIsSubmitted()
    ensures Allowed(Done(), Submitted("v", None))
    ensures Step(Done(), Submitted("v", None))
            == (Submitting(), [JournalOp.CreateJob("v", "v", 0, [Waiting("v", None)])])
  {
    assert !IsWhiteSpace("v"[0]);
    SubmitsTask(Done(), "v", None);
    assert Done().tasks["v" := Waiting("v", None)] == Submitting().tasks;
    assert Done().jobs["v" := JobRecord("v", 0)] == Submitting().jobs;
  }

  lemma VIsPlaced()
    ensures Allowed(Submitting(), TaskPlaced("v", 0))
    ensures Step(Submitting(), TaskPlaced("v", 0)) == (End(), PlacementOps("v", "m", 0, 2))
  {
    hide PickNode, IpamState.Allocate, IpamState.SubnetOctet;
    var s := Submitting();
    PickOnly(s.nodes, s.tasks["v"], 0, "m");
    OwnOctet(Free(), "m");
    FirstAddress(Free(), "m", "v", 0);
    assert Free().subnets["m" := 0] == Free().subnets;
    assert Free().(subnets := Free().subnets["m" := 0], held := Free().held["v" := Address(0, 2)]) == End().ipam;
    PlacesTask(s, "v", "m", 0, 2, End().ipam, 0);
    assert s.tasks["v" := V()] == End().tasks;
  }

  lemma StoryRuns()
    ensures ValidRun(EmptyState(BASE), Story()) && Run(EmptyState(BASE), Story()) == (End(), Ops())
  {
    hide Step, Allowed, Run, ValidRun;
    OpeningRuns();
    TFinishes();
    RunExtend(EmptyState(BASE), Opening(), Finished());
    VIsSubmitted();
    RunExtend(EmptyState(BASE), Opening() + [Finished()], Submitted("v", None));
    VIsPlaced();
    RunExtend(EmptyState(BASE), Opening() + [Finished()] + [Submitted("v", None)], TaskPlaced("v", 0));
  }

  lemma OpsListed()
    ensures |Ops()| == 10
    ensures Ops()[2] == IpamAllocate("m", "t", Address(0, 2)) && Ops()[5] == IpamRelease("t")
    ensures Ops()[0].RegisterNode? && Ops()[1].CreateJob?
    ensures forall i | 0 <= i < 10 && Ops()[i].IpamAllocate? :: i == 2 || i == 8
    ensures forall i | 0 <= i < 10 && Ops()[i].IpamRelease? :: i == 5
    ensures Ops()[8] == IpamAllocate("m", "v", Address(0, 2))
  {
  }

  /** Nobody is placed again, so the crash is harmless. */
  lemma CrashIsHarmless(sys: System)
    requires Consistent(BASE, sys) && sys.journal == Ops()
    ensures NoReallocation(sys.journal) && Harmless(sys, CrashCompacting(0, 0))
  {
    hide Ops, Invariant, LedTo, ReturnsRecorded, SettledReturnRecorded, Replays;
    OpsListed();
    assert NoReallocation(sys.journal);
    InvariantParts(sys.live);
    SecondReplayIsIdentity(sys.origin, sys.journal, sys.live);
    SecondReplayIsIdentityIff(sys.origin, sys.journal, sys.live);
  }

  /** The replay on the new snapshot gives "t" another address than the recorded
      one, which "v" holds by now. */
  lemma TReplaysElsewhere(s: DurableState)
    requires s.ipam == End().ipam && s.ipam.WellFormed()
    ensures !ReturnsRecorded(s, Ops())
  {
    hide Ops, IpamState.Allocate, IpamState.WellFormed;
    OpsListed();
    var ops := Ops();
    assert ops[..0] == [];
    ApplyNone(s, 0);
    PrefixStep(s, ops, 0);
    PrefixStep(s, ops, 1);
    assert ApplyAll(s, ops[..2], 0).ipam == s.ipam;
    AllocateKeeps(s.ipam, "m", "t");
    assert "v" in s.ipam.held && s.ipam.held["v"] == Address(0, 2) && "t" !in s.ipam.held;
    assert !ReturnsRecordedAt(s, ops, 2);
  }

  /** A history of harmless crashes whose next start replays an allocation to
      another address than the recorded one: `HistorySafe` cannot promise more
      than it does, and `HistoryReturnsRecorded` needs its condition. */
  lemma GivenBackReplaysElsewhere()
    ensures var actions := ServeAll(Story()) + [CrashCompacting(0, 0)];
            var sys := After(BASE, actions);
            && History(BASE, actions) && HarmlessHistory(BASE, actions)
            && NoReallocation(sys.journal)
            && !ReturnsRecorded(Loaded(BASE, sys.snapshot, 0), sys.journal)
  {
    hide Story, Run, ValidRun, History, HarmlessHistory, After, Consistent, NoReallocation, Ops, End, ReturnsRecorded,
         Harmless;
    StoryRuns();
    StartHistory();
    ServesRun(BASE, [], Story());
    assert [] + ServeAll(Story()) == ServeAll(Story());
    var sys := After(BASE, ServeAll(Story()));
    assert [] + Ops() == Ops();
    HistoryConsistent(BASE, ServeAll(Story()));
    CrashIsHarmless(sys);
    AfterExtend(BASE, ServeAll(Story()), CrashCompacting(0, 0));
    EndIsWellFormed(sys);
    TReplaysElsewhere(Restored(End(), 0));
  }

  lemma EndIsWellFormed(sys: System)
    requires Consistent(BASE, sys)
    ensures sys.live.ipam.WellFormed()
  {
    InvariantParts(sys.live);
  }
}
