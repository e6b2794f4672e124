/** Two guests on one node with the same address and no torn group: a crash during
    compaction moves the address the allocator holds for one task, and the next
    placement gives the address of its record to another. */
module SharedAfterCompaction {
  import opened Types
  import opened Ipam
  import opened Durable
  import opened Placement
  import opened Accounting
  import opened Invariants
  import opened Runs
  import opened CompactionExact
  import opened Recovery
  import opened TornGroups
  import opened Scenes
  import opened MovedAddress

  /** Up to the pass that moves "t" and the report of "u". */
  function Calm(): seq<Action> {
    Prelude() + ServeAll(MovedAddress.Story())
  }

  function Crashed(): seq<Action> {
    Calm() + [CrashCompacting(0, 0)]
  }

  function Story(): seq<Action> {
    Crashed() + [Serve(Submitted("v", Some("n")))] + [Serve(NodeHeard("n", None, LATE))]
    + [Serve(TaskPlaced("v", LATE))]
  }

  /** The allocator after the crash. */
  function MovedIpam(): IpamState {
    Afterwards().ipam.(held := map["t" := Address(1, 2)])
  }

  lemma CalmHappens()
    ensures History(BASE, Calm()) && HarmlessHistory(BASE, Calm())
    ensures After(BASE, Calm()).live == Afterwards() && After(BASE, Calm()).journal == StoryJournal()
  {
    hide Run, ValidRun, History, HarmlessHistory, After, MovedAddress.Story, Prelude, Consistent, Afterwards,
         MovedAddress.Before, StoryJournal;
    PreludeHappens();
    StoryHappens();
    ServesRun(BASE, Prelude(), MovedAddress.Story());
    assert [] + StoryJournal() == StoryJournal();
  }

  /** A state that differs from `Afterwards` in what "t" holds, up to what the journal
      does not carry. */
  ghost predicate IsMoved(r: DurableState) {
    && r.jobs == Afterwards().jobs && r.tasks == Afterwards().tasks && r.ipam == MovedIpam()
    && r.nodes.Keys == {"m", "n"} && UsedExact(r)
    && forall k | k in r.nodes :: EraseNode(r.nodes[k]) == EraseNode(Node(k, 0))
  }

  lemma MovedByErasure(r: DurableState)
    requires r.Erased() == Afterwards().(ipam := MovedIpam()).Erased() && UsedExact(r)
    ensures IsMoved(r)
  {
    hide UsedExact, MovedIpam;
    SameErasedParts(r, Afterwards().(ipam := MovedIpam()));
    assert Afterwards().nodes.Keys == {"m", "n"};
    forall k | k in r.nodes ensures EraseNode(r.nodes[k]) == EraseNode(Node(k, 0)) {
      assert EraseNode(r.nodes[k]) == EraseNode(Afterwards().nodes[k]);
    }
  }

  /** What the start after the crash finds. */
  lemma CrashMovesT()
    ensures History(BASE, Crashed()) && IsMoved(After(BASE, Crashed()).live)
  {
    hide Next, History, HarmlessHistory, After, Calm, StoryJournal, ApplyAll, UsedExact, IsMoved, Afterwards,
         DurableState.Erased, SettledReturnRecorded, Invariant, Agreement, ValidRun, Run;
    CalmHappens();
    AfterExtend(BASE, Calm(), CrashCompacting(0, 0));
    var sys := After(BASE, Calm());
    CompactionErased(BASE, sys, CrashCompacting(0, 0));
    SecondReplayMovesAddress();
    CompactionCounts(sys);
    MovedByErasure(Next(BASE, sys, CrashCompacting(0, 0)).live);
  }

  lemma CompactionCounts(sys: System)
    ensures UsedExact(Next(BASE, sys, CrashCompacting(0, 0)).live)
  {
    hide RecountOf, ApplyAll;
  }

  /** "v" is submitted, pinned to "n", and "n" is heard. */
  function Waits(s: DurableState): DurableState {
    s.(jobs := s.jobs["v" := JobRecord("v", 0)], tasks := s.tasks["v" := Waiting("v", Some("n"))])
  }

  lemma VIsSubmitted(s: DurableState)
    requires IsMoved(s)
    ensures Allowed(s, Submitted("v", Some("n"))) && Step(s, Submitted("v", Some("n"))).0 == Waits(s)
  {
    assert !IsBlank("v") by { assert !IsWhiteSpace("v"[0]); }
    SubmitsTask(s, "v", Some("n"));
  }

  lemma NIsBack(s: DurableState)
    requires IsMoved(s)
    ensures Allowed(Waits(s), NodeHeard("n", None, LATE))
    ensures var heard := Step(Waits(s), NodeHeard("n", None, LATE)).0;
            && heard.tasks == Waits(s).tasks && heard.ipam == s.ipam && heard.nodes.Keys == {"m", "n"}
            && (forall k | k in heard.nodes :: heard.nodes[k].id == k)
            && IsEligible(heard.nodes["n"], Waiting("v", Some("n")), LATE)
  {
    hide RecountOf;
    assert EraseNode(s.nodes["n"]) == EraseNode(Node("n", 0)) && EraseNode(s.nodes["m"]) == EraseNode(Node("m", 0));
    NothingIsDemanded(s.tasks, "n");
  }

  /** With the first host held for "t" the next one is what its record says. */
  lemma NextIsTaken()
    ensures var next := MovedIpam().(held := map["t" := Address(1, 2), "v" := Address(1, 3)]);
            MovedIpam().Allocate("n", "v") == (Some(Address(1, 3)), next)
  {
    var s := MovedIpam();
    assert s.SubnetOctet("n") == (Some(1), s);
    assert "t" in s.Holders(1);
    assert s.UsedHosts(1) == {2};
    assert FirstFree(FIRST_HOST, LAST_HOST, {2}) == Some(3);
    assert s.held["v" := Address(1, 3)] == map["t" := Address(1, 2), "v" := Address(1, 3)];
  }

  lemma VTakesTheAddress(heard: DurableState)
    requires heard.ipam == MovedIpam() && heard.nodes.Keys == {"m", "n"}
    requires "v" in heard.tasks && heard.tasks["v"] == Waiting("v", Some("n"))
    requires forall k | k in heard.nodes :: heard.nodes[k].id == k
    requires IsEligible(heard.nodes["n"], Waiting("v", Some("n")), LATE)
    ensures Allowed(heard, TaskPlaced("v", LATE))
    ensures Step(heard, TaskPlaced("v", LATE)).0.tasks
            == heard.tasks["v" := On(Waiting("v", Some("n")), "n", 1, 3, Assigned, None)]
  {
    hide PickNode, IpamState.Allocate, Step;
    PickOnly(heard.nodes, heard.tasks["v"], LATE, "n");
    NextIsTaken();
    PlacesTask(heard, "v", "n", 1, 3, MovedIpam().(held := map["t" := Address(1, 2), "v" := Address(1, 3)]), LATE);
  }

  /** At the end of a history without torn groups, whose one harmful crash hit a
      compaction, two unfinished tasks sit on one node with one network. */
  lemma TwoTasksOneAddress()
    ensures History(BASE, Story())
    ensures var tasks := After(BASE, Story()).live.tasks;
            && "t" in tasks && "v" in tasks && Share(tasks["t"], tasks["v"])
            && tasks["t"].assignedNode == tasks["v"].assignedNode == Some("n")
            && tasks["t"].network == tasks["v"].network == Some(NetworkAt(1, 3))
            && !NetworksDistinct(After(BASE, Story()).live)
  {
    hide Step, Allowed, History, After, Crashed, UsedExact, MovedIpam;
    CrashMovesT();
    var s := After(BASE, Crashed()).live;
    VIsSubmitted(s);
    AfterExtend(BASE, Crashed(), Serve(Submitted("v", Some("n"))));
    NIsBack(s);
    var a := Crashed() + [Serve(Submitted("v", Some("n")))];
    AfterExtend(BASE, a, Serve(NodeHeard("n", None, LATE)));
    VTakesTheAddress(Step(Waits(s), NodeHeard("n", None, LATE)).0);
    AfterExtend(BASE, a + [Serve(NodeHeard("n", None, LATE))], Serve(TaskPlaced("v", LATE)));
  }
}
