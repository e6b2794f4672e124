/** A crash during compaction that recovery does not undo: one pass and one report
    make a journal that moves an address when it is replayed on its own result. */
module MovedAddress {
  import opened Types
  import opened Ordering
  import opened Ipam
  import opened Durable
  import opened Placement
  import opened Accounting
  import opened Scheduling
  import opened Invariants
  import opened Runs
  import opened Compaction
  import opened CompactionExact
  import opened Recovery
  import opened Scenes

  // ---------------------------------------------------------------------
  // The scene
  // ---------------------------------------------------------------------

  /** Two nodes, the second heard last at `heard`, and the tasks "t" and "u". */
  function Scene(heard: DateTime, t: Task, u: Task, held: map<TaskId, Ip>): DurableState {
    DurableState(
      map["t" := JobRecord("t", 0), "u" := JobRecord("u", 0)],
      map["t" := t, "u" := u],
      map["m" := Node("m", 0), "n" := Node("n", heard)],
      map[],
      IpamState(172, 28, map["m" := 0, "n" := 1], held))
  }

  function U(): Task {
    On(Waiting("u", Some("n")), "n", 1, 2, Running, None)
  }

  function FinishedU(): Task {
    On(Waiting("u", Some("n")), "n", 1, 2, Succeeded, Some(0))
  }

  function MovedT(): Task {
    On(Waiting("t", None), "n", 1, 3, Assigned, None)
  }

  /** "t" runs on "m", "u" runs on "n", each with the first host there. */
  function Quiet(heard: DateTime): DurableState {
    Scene(heard, T(), U(), map["t" := Address(0, 2), "u" := Address(1, 2)])
  }

  /** Node "m" has been silent since the beginning, node "n" was just heard. */
  function Before(): DurableState {
    Quiet(LATE)
  }

  function Requeued(): DurableState {
    Scene(LATE, Waiting("t", None), U(), map["u" := Address(1, 2)])
  }

  /** After the pass: "t" got the second host of "n". */
  function Placed(): DurableState {
    Scene(LATE, MovedT(), U(), map["u" := Address(1, 2), "t" := Address(1, 3)])
  }

  function Afterwards(): DurableState {
    Scene(LATE, MovedT(), FinishedU(), map["t" := Address(1, 3)])
  }

  /** One whole pass, then the report of "u". */
  function Story(): seq<Event> {
    TickEvents(["t"], ["t"], LATE) + [TaskReported("u", Succeeded, Some(0))]
  }

  function PlacementOfT(): JournalOp {
    TaskAssigned("t", "n", MovedT().network, None)
  }

  function StoryJournal(): seq<JournalOp> {
    [IpamRelease("t"), TaskRequeued("t"), IpamAllocate("n", "t", Address(1, 3)), PlacementOfT(),
     IpamRelease("u"), SetTaskState("u", Succeeded, Some(0))]
  }

  // ---------------------------------------------------------------------
  // The way there, from the first start
  // ---------------------------------------------------------------------

  function Setup(): seq<Event> {
    Opening() + [Registered("n")] + [Submitted("u", Some("n"))] + [TaskPlaced("u", 0)]
    + [TaskReported("u", Running, None)]
  }

  /** A clean restart, then a heartbeat of "n" alone. */
  function Prelude(): seq<Action> {
    ServeAll(Setup()) + [Restart(0, 0)] + [Serve(NodeHeard("n", None, LATE))]
  }

  function WithN(): DurableState {
    Opened().(nodes := map["m" := Node("m", 0), "n" := Node("n", 0)])
  }

  function UWaits(): DurableState {
    Scene(0, T(), Waiting("u", Some("n")), map[]).(ipam := Opened().ipam)
  }

  function UPlaced(): DurableState {
    Scene(0, T(), U().(state := Assigned), Quiet(0).ipam.held)
  }

  lemma NRegisters()
    ensures Allowed(Opened(), Registered("n")) && Step(Opened(), Registered("n")).0 == WithN()
  {
    assert Opened().nodes["n" := Node("n", 0)] == WithN().nodes;
  }

  lemma UIsSubmitted()
    ensures Allowed(WithN(), Submitted("u", Some("n"))) && Step(WithN(), Submitted("u", Some("n"))).0 == UWaits()
  {
    assert !IsBlank("u") by { assert !IsWhiteSpace("u"[0]); }
    SubmitsTask(WithN(), "u", Some("n"));
    assert WithN().tasks["u" := Waiting("u", Some("n"))] == UWaits().tasks;
    assert WithN().jobs["u" := JobRecord("u", 0)] == UWaits().jobs;
  }

  /** "u" is pinned to "n". */
  lemma UIsPlaced()
    ensures Allowed(UWaits(), TaskPlaced("u", 0)) && Step(UWaits(), TaskPlaced("u", 0)).0 == UPlaced()
  {
    hide PickNode, IpamState.Allocate, IpamState.SubnetOctet;
    var s := UWaits();
    PickOnly(s.nodes, s.tasks["u"], 0, "n");
    SecondOctet(s.ipam, "m", "n");
    FirstAddress(s.ipam, "n", "u", 1);
    assert s.ipam.subnets["n" := 1] == UPlaced().ipam.subnets;
    assert s.ipam.held["u" := Address(1, 2)] == UPlaced().ipam.held;
    PlacesTask(s, "u", "n", 1, 2, UPlaced().ipam, 0);
    assert s.tasks["u" := U().(state := Assigned)] == UPlaced().tasks;
  }

  lemma URuns()
    ensures Allowed(UPlaced(), TaskReported("u", Running, None))
    ensures Step(UPlaced(), TaskReported("u", Running, None)).0 == Quiet(0)
  {
    assert UPlaced().SetTaskState("u", Running, None).state.tasks == Quiet(0).tasks;
  }

  lemma SetupRuns()
    ensures ValidRun(EmptyState(BASE), Setup()) && Run(EmptyState(BASE), Setup()).0 == Quiet(0)
  {
    hide Step, Allowed, Run, ValidRun;
    var s := EmptyState(BASE);
    OpeningRuns();
    NRegisters();
    RunExtend(s, Opening(), Registered("n"));
    UIsSubmitted();
    RunExtend(s, Opening() + [Registered("n")], Submitted("u", Some("n")));
    UIsPlaced();
    RunExtend(s, Opening() + [Registered("n")] + [Submitted("u", Some("n"))], TaskPlaced("u", 0));
    URuns();
    RunExtend(s, Opening() + [Registered("n")] + [Submitted("u", Some("n"))] + [TaskPlaced("u", 0)],
              TaskReported("u", Running, None));
  }

  lemma RestartFindsTheSame(sys: System)
    requires sys.live == Quiet(0)
    ensures Next(BASE, sys, Restart(0, 0)) == System(Quiet(0), Some(Quiet(0)), [], Quiet(0))
  {
    hide Quiet, Recounted, Restored;
    QuietCounted();
    ApplyNone(Restored(Quiet(0), 0), 0);
  }

  lemma QuietCounted()
    ensures Restored(Quiet(0), 0) == Quiet(0) && Recounted(Quiet(0)) == Quiet(0)
  {
    hide RecountOf;
    assert Restored(Quiet(0), 0).nodes == Quiet(0).nodes;
    NothingIsDemanded(Quiet(0).tasks, "m");
    NothingIsDemanded(Quiet(0).tasks, "n");
    assert Recounted(Quiet(0)).nodes == Quiet(0).nodes;
  }

  lemma OnlyNIsHeard()
    ensures Step(Quiet(0), NodeHeard("n", None, LATE)) == (Before(), [])
  {
    assert Quiet(0).nodes["n" := Node("n", LATE)] == Before().nodes;
  }

  /** The server gets there from its first start. */
  lemma PreludeHappens()
    ensures History(BASE, Prelude()) && HarmlessHistory(BASE, Prelude())
    ensures After(BASE, Prelude()) == System(Before(), Some(Quiet(0)), [], Quiet(0))
    ensures Consistent(BASE, After(BASE, Prelude())) && Invariant(Before())
  {
    hide Step, Allowed, Run, ValidRun, History, HarmlessHistory, After, Setup, Quiet, Recover, Replays, LedTo,
         ReturnsRecorded, SettledReturnRecorded, Invariant;
    SetupRuns();
    StartHistory();
    ServesRun(BASE, [], Setup());
    assert [] + ServeAll(Setup()) == ServeAll(Setup());
    AfterExtend(BASE, ServeAll(Setup()), Restart(0, 0));
    RestartFindsTheSame(After(BASE, ServeAll(Setup())));
    OnlyNIsHeard();
    HeardIsAllowed();
    AfterExtend(BASE, ServeAll(Setup()) + [Restart(0, 0)], Serve(NodeHeard("n", None, LATE)));
    HistoryConsistent(BASE, Prelude());
  }

  lemma HeardIsAllowed()
    ensures Allowed(Quiet(0), NodeHeard("n", None, LATE))
  {
  }

  // ---------------------------------------------------------------------
  // The pass
  // ---------------------------------------------------------------------

  lemma OnlyTIsOrphaned()
    ensures Enumerates(["t"], Orphans(Before(), LATE))
  {
    assert IsOrphan(Before(), "t", LATE) && !IsOrphan(Before(), "u", LATE);
    assert Orphans(Before(), LATE) == {"t"};
  }

  lemma RequeueAlone(s: DurableState, t: TaskId)
    ensures RequeueAll(s, [t]) == RequeueOne(s, t)
  {
    hide RequeueOne;
    assert [t][..0] == [] && [t][..1] == [t];
    NothingToDo(s, 0);
    RequeueAllStep(s, [t], 0);
    assert [] + RequeueOne(s, t).1 == RequeueOne(s, t).1;
  }

  lemma TIsRequeued()
    ensures RequeueOne(Before(), "t") == (Requeued(), [IpamRelease("t"), TaskRequeued("t")])
  {
    var s := Before();
    assert s.tasks["t" := Waiting("t", None)] == Requeued().tasks;
    assert s.ipam.held - {"t"} == map["u" := Address(1, 2)];
    assert s.ipam.Release("t") == (true, Requeued().ipam);
    assert RequeueOne(s, "t").1 == [IpamRelease("t"), TaskRequeued("t")];
  }

  lemma PassRequeues()
    ensures RequeueAll(Before(), ["t"]) == (Requeued(), [IpamRelease("t"), TaskRequeued("t")])
  {
    hide RequeueAll, RequeueOne;
    RequeueAlone(Before(), "t");
    TIsRequeued();
  }

  lemma PassRecounts()
    ensures Recounted(Requeued()) == Requeued()
  {
    hide RecountOf;
    var s := Requeued();
    NothingIsDemanded(s.tasks, "m");
    NothingIsDemanded(s.tasks, "n");
    assert Recounted(s).nodes == s.nodes;
  }

  lemma OnlyTPends()
    ensures Listing(PendingIds(Requeued())) == ["t"]
  {
    assert PendingIds(Requeued()) == {"t"};
    var s := Listing({"t"});
    ListingEnumerates({"t"});
    assert |multiset(s)| == |s| && |multiset({"t"})| == 1;
    assert s[0] in s;
    assert s == ["t"];
  }

  /** While "u" holds the first host of "n" the next one is the second; without
      it the first. */
  lemma NextAddress(u: bool)
    ensures var s := Scene(LATE, MovedT(), U(), if u then map["u" := Address(1, 2)] else map[]).ipam;
            var host := if u then 3 else 2;
            s.Allocate("n", "t") == (Some(Address(1, host)), s.(held := s.held["t" := Address(1, host)]))
  {
    var s := Scene(LATE, MovedT(), U(), if u then map["u" := Address(1, 2)] else map[]).ipam;
    assert s.SubnetOctet("n") == (Some(1), s);
    if u {
      assert "u" in s.Holders(1);
      assert s.UsedHosts(1) == {2};
      assert FirstFree(FIRST_HOST, LAST_HOST, {2}) == Some(3);
    } else {
      assert s.UsedHosts(1) == {};
    }
  }

  /** The silent node is out, so "n" is chosen. */
  lemma PassPlaces()
    ensures PlaceOne(Requeued(), "t", LATE) == (Placed(), [IpamAllocate("n", "t", Address(1, 3)), PlacementOfT()])
  {
    hide IpamState.Allocate, PickNode, PlaceOne;
    var s := Requeued();
    PickOnly(s.nodes, s.tasks["t"], LATE, "n");
    NextAddress(true);
    assert s.ipam.held["t" := Address(1, 3)] == Placed().ipam.held;
    PlacesTask(s, "t", "n", 1, 3, Placed().ipam, LATE);
    assert s.tasks["t" := MovedT()] == Placed().tasks;
  }

  lemma OnePass()
    ensures Tick(Before(), LATE, ["t"]) == (Placed(), StoryJournal()[..4])
    ensures ValidRun(Before(), TickEvents(["t"], ["t"], LATE))
    ensures Run(Before(), TickEvents(["t"], ["t"], LATE)) == (Placed(), StoryJournal()[..4])
  {
    hide PlaceOne, RequeueAll, Recounted, Run, ValidRun, Invariant;
    PassRequeues();
    PassRecounts();
    OnlyTPends();
    PassPlaces();
    var s := Requeued();
    NothingToDo(s, LATE);
    PlaceAllStep(s, ["t"], 0, LATE);
    assert ["t"][..0] == [] && ["t"][..1] == ["t"];
    assert [] + PlaceOne(s, "t", LATE).1 == PlaceOne(s, "t", LATE).1;
    assert PlaceAll(s, ["t"], LATE) == PlaceOne(s, "t", LATE);
    assert [IpamRelease("t"), TaskRequeued("t")] + PlaceOne(s, "t", LATE).1 == StoryJournal()[..4];
    assert Tick(Before(), LATE, ["t"]) == (Placed(), StoryJournal()[..4]);
    PreludeHappens();
    InvariantParts(Before());
    OnlyTIsOrphaned();
    TickIsRun(Before(), LATE, ["t"]);
  }

  lemma UReports()
    ensures Allowed(Placed(), TaskReported("u", Succeeded, Some(0)))
    ensures Step(Placed(), TaskReported("u", Succeeded, Some(0))) == (Afterwards(), StoryJournal()[4..])
  {
    var out := Placed().SetTaskState("u", Succeeded, Some(0));
    assert out.state.tasks == Afterwards().tasks;
    assert out.state.ipam.held == Afterwards().ipam.held;
    assert out.ops == [IpamRelease("u"), SetTaskState("u", Succeeded, Some(0))];
  }

  lemma StoryHappens()
    ensures Invariant(Before()) && ValidRun(Before(), Story())
    ensures Run(Before(), Story()) == (Afterwards(), StoryJournal())
  {
    hide Run, ValidRun, Step, Allowed, Invariant, Tick;
    PreludeHappens();
    OnePass();
    UReports();
    RunExtend(Before(), TickEvents(["t"], ["t"], LATE), TaskReported("u", Succeeded, Some(0)));
    assert StoryJournal()[..4] + StoryJournal()[4..] == StoryJournal();
  }

  // ---------------------------------------------------------------------
  // The second replay
  // ---------------------------------------------------------------------

  lemma ReplayReleases()
    ensures ApplyOne(Afterwards(), IpamRelease("t"), 0) == Scene(LATE, MovedT(), FinishedU(), map[])
    ensures ApplyOne(Scene(LATE, MovedT(), FinishedU(), map[]), TaskRequeued("t"), 0)
            == Scene(LATE, Waiting("t", None), FinishedU(), map[])
  {
    assert map["t" := Address(1, 3)] - {"t"} == map[];
    assert Afterwards().tasks["t" := Waiting("t", None)] == Scene(LATE, Waiting("t", None), FinishedU(), map[]).tasks;
  }

  lemma ReplayPlaces()
    ensures ApplyOne(Scene(LATE, Waiting("t", None), FinishedU(), map[]), IpamAllocate("n", "t", Address(1, 3)), 0)
            == Scene(LATE, Waiting("t", None), FinishedU(), map["t" := Address(1, 2)])
    ensures ApplyOne(Scene(LATE, Waiting("t", None), FinishedU(), map["t" := Address(1, 2)]), PlacementOfT(), 0)
            == Scene(LATE, MovedT(), FinishedU(), map["t" := Address(1, 2)])
  {
    hide IpamState.Allocate;
    NextAddress(false);
    assert Scene(LATE, Waiting("t", None), FinishedU(), map[]).tasks["t" := MovedT()] == Afterwards().tasks;
  }

  lemma ReplayReports()
    ensures var z := Scene(LATE, MovedT(), FinishedU(), map["t" := Address(1, 2)]);
            ApplyOne(z, IpamRelease("u"), 0) == z && ApplyOne(z, SetTaskState("u", Succeeded, Some(0)), 0) == z
  {
    assert map["t" := Address(1, 2)] - {"u"} == map["t" := Address(1, 2)];
  }

  /** A second replay of a journal that a live run produced can move an address.
      The run is one whole pass and one report. After a crash between the rename
      of the snapshot and the truncation of the journal the record of "t" still
      says .1.3 and the allocator says .1.2: an allocation did not return its
      recorded address. */
  lemma SecondReplayMovesAddress()
    ensures Invariant(Before()) && ValidRun(Before(), Story())
    ensures Run(Before(), Story()) == (Afterwards(), StoryJournal())
    ensures ApplyAll(Afterwards(), StoryJournal(), 0) == Afterwards().(
              ipam := Afterwards().ipam.(held := map["t" := Address(1, 2)]))
    ensures !Agreement(ApplyAll(Afterwards(), StoryJournal(), 0))
    ensures !SettledReturnRecorded(Afterwards(), StoryJournal())
  {
    hide Run, ValidRun, Invariant, ApplyAll, ApplyOne, SettledReturnRecorded;
    StoryHappens();
    var z, ops := Afterwards(), StoryJournal();
    ApplyNone(z, 0);
    assert ops[..0] == [];
    ReplayReleases();
    ReplayPlaces();
    ReplayReports();
    PrefixStep(z, ops, 0);
    PrefixStep(z, ops, 1);
    PrefixStep(z, ops, 2);
    PrefixStep(z, ops, 3);
    PrefixStep(z, ops, 4);
    PrefixStep(z, ops, 5);
    assert ops[..6] == ops;
    var r := ApplyAll(z, ops, 0);
    assert r == Scene(LATE, MovedT(), FinishedU(), map["t" := Address(1, 2)]);
    assert !TaskAgrees("t", r.tasks["t"], r.nodes.Keys, r.ipam);
    assert !Replays(z, ops, z) by { assert r.Erased().ipam.held["t"] != z.Erased().ipam.held["t"]; }
    CompactionCrashHarmlessIff(Before(), Story());
  }

  /** The same as a history from the first start: everything up to the compaction is
      harmless, and the start after the crash does not give back the live state. */
  lemma CompactionMovesAddress()
    ensures var calm := Prelude() + ServeAll(Story());
            && History(BASE, calm + [CrashCompacting(0, 0)]) && HarmlessHistory(BASE, calm)
            && After(BASE, calm).live == Afterwards()
            && After(BASE, calm + [CrashCompacting(0, 0)]).live.Erased() != Afterwards().Erased()
  {
    hide Run, ValidRun, History, HarmlessHistory, After, Story, Next, Prelude, Consistent, SettledReturnRecorded,
         Afterwards, Before, StoryJournal, DurableState.Erased;
    PreludeHappens();
    SecondReplayMovesAddress();
    ServesRun(BASE, Prelude(), Story());
    var calm := Prelude() + ServeAll(Story());
    assert [] + StoryJournal() == StoryJournal();
    HistoryConsistent(BASE, calm);
    CompactionCrashIff(BASE, After(BASE, calm), 0, 0);
    AfterExtend(BASE, calm, CrashCompacting(0, 0));
  }
}
