/** The server together with its data directory, over any sequence of events,
    crashes, clean shutdowns and crashes during compaction. */
module Recovery {
  import opened Types
  import opened Ipam
  import opened Durable
  import opened Placement
  import opened Accounting
  import opened Scheduling
  import opened Soundness
  import opened Invariants
  import opened Runs
  import opened Compaction
  import opened CompactionExact

  // ---------------------------------------------------------------------
  // Loading the data directory
  // ---------------------------------------------------------------------

  /** `DurableState::restore`: every node is taken as heard from just now. */
  function Restored(snapshot: DurableState, now: DateTime): DurableState {
    snapshot.(nodes := map n | n in snapshot.nodes :: snapshot.nodes[n].(lastHeartbeat := now))
  }

  /** Where replay starts: the snapshot, or nothing but the configured network. */
  function Loaded(base: IpamState, snapshot: Option<DurableState>, now: DateTime): DurableState {
    match snapshot
    case None => EmptyState(base)
    case Some(s) => Restored(s, now)
  }

  /** The state after a start: load, replay, recount. */
  ghost function Recover(base: IpamState, snapshot: Option<DurableState>, journal: seq<JournalOp>,
                         restored: DateTime, replayed: DateTime): DurableState {
    Recounted(ApplyAll(Loaded(base, snapshot, restored), journal, replayed))
  }

  lemma RestoreErasesNothing(s: DurableState, now: DateTime)
    ensures Restored(s, now).Erased() == s.Erased()
  {
    SameErased(Restored(s, now), s);
  }

  lemma LoadedErased(base: IpamState, snapshot: Option<DurableState>, now: DateTime, later: DateTime)
    ensures Loaded(base, snapshot, now).Erased() == Loaded(base, snapshot, later).Erased()
  {
    if snapshot.Some? {
      RestoreErasesNothing(snapshot.value, now);
      RestoreErasesNothing(snapshot.value, later);
    }
  }

  /** What is sound is durable, except that `used` covers the demand; a recount
      restores that part. */
  lemma SoundSurvivesRestart(s: DurableState, r: DurableState)
    requires Sound(s) && r.Records() == s.Records() && r.ipam.WellFormed()
    ensures Sound(Recounted(r)) && UsedExact(Recounted(r))
    ensures Recounted(r).Records() == s.Records()
  {
    hide RecountOf, IpamState.WellFormed;
    RecountErasesNothing(r);
    SameRecordsParts(r, s);
    var r' := Recounted(r);
    SameRecords(r', s);
    forall n | n in r'.nodes
      ensures r'.nodes[n].total == s.nodes[n].total && r'.nodes[n].id == n && r'.nodes[n].used == RecountOf(r'.tasks, n)
    {
      assert EraseNode(r.nodes[n]) == EraseNode(s.nodes[n]);
    }
  }

  lemma InvariantSurvivesRestart(s: DurableState, r: DurableState)
    requires Invariant(s) && r.Erased() == s.Erased()
    ensures Invariant(Recounted(r)) && UsedExact(Recounted(r))
    ensures Recounted(r).Erased() == s.Erased()
  {
    hide Sound, TaskAgrees, UsedExact, RecountOf;
    RecountErasesNothing(r);
    SameErasedParts(r, s);
    InvariantParts(s);
    SoundSurvivesRestart(s, r);
    assert Recounted(r).nodes.Keys == s.nodes.Keys;
  }

  // ---------------------------------------------------------------------
  // The system
  // ---------------------------------------------------------------------

  /** `origin` is the state the journal file was empty in. */
  datatype System = System(
    live: DurableState,
    snapshot: Option<DurableState>,
    journal: seq<JournalOp>,
    origin: DurableState)

  datatype Action =
    | Serve(event: Event)
    /** The process dies between two op groups and starts again. */
    | Crash(restored: DateTime, replayed: DateTime)
    /** The process dies while it journals an event, when `kept` operations of
        the group are on disk, and starts again. */
    | Tear(event: Event, kept: nat, restored: DateTime, replayed: DateTime)
    /** Clean stop: snapshot, truncate, start again. */
    | Restart(restored: DateTime, replayed: DateTime)
    /** The process dies after the snapshot was renamed and before the journal
        was truncated, and starts again. */
    | CrashCompacting(restored: DateTime, replayed: DateTime)

  /** The first `kept` operations of a group, or all of them. */
  function Kept(ops: seq<JournalOp>, kept: nat): seq<JournalOp> {
    if kept < |ops| then ops[..kept] else ops
  }

  /** What the environment owes the server. */
  predicate Happens(sys: System, a: Action) {
    match a
    case Serve(e) => Allowed(sys.live, e)
    case Tear(e, _, _, _) => Allowed(sys.live, e)
    case _ => true
  }

  lemma AllowedWhenItHappens(sys: System, a: Action)
    requires Happens(sys, a) && (a.Serve? || a.Tear?)
    ensures Allowed(sys.live, a.event)
  {
  }

  /** A crash that loses nothing: it does not separate the operations of a group,
      and a journal replayed on its own result changes nothing. */
  ghost predicate Harmless(sys: System, a: Action) {
    match a
    case Tear(e, kept, _, _) => kept == 0 || kept >= |Step(sys.live, e).1|
    case CrashCompacting(_, _) => SettledReturnRecorded(sys.live, sys.journal)
    case _ => true
  }

  ghost function Next(base: IpamState, sys: System, a: Action): System {
    match a
    case Serve(e) =>
      var (live', ops) := Step(sys.live, e);
      sys.(live := live', journal := sys.journal + ops)
    case Crash(restored, replayed) =>
      sys.(live := Recover(base, sys.snapshot, sys.journal, restored, replayed))
    case Tear(e, kept, restored, replayed) =>
      var journal := sys.journal + Kept(Step(sys.live, e).1, kept);
      sys.(live := Recover(base, sys.snapshot, journal, restored, replayed), journal := journal)
    case Restart(restored, replayed) =>
      System(Recover(base, Some(sys.live), [], restored, replayed), Some(sys.live), [], sys.live)
    case CrashCompacting(restored, replayed) =>
      sys.(live := Recover(base, Some(sys.live), sys.journal, restored, replayed), snapshot := Some(sys.live))
  }

  /** What the live state should be after an action, up to what the journal does
      not carry. */
  ghost function Expected(sys: System, a: Action): DurableState {
    match a
    case Serve(e) => Step(sys.live, e).0
    case Tear(e, kept, _, _) => if kept >= |Step(sys.live, e).1| then Step(sys.live, e).0 else sys.live
    case _ => sys.live
  }

  /** The directory holds the live state: replaying the journal on the snapshot
      gives it, up to what the journal does not carry, and every allocation that
      is never given back returns its recorded address. */
  ghost predicate Consistent(base: IpamState, sys: System) {
    && Invariant(sys.live)
    && LedTo(sys.origin, sys.journal, sys.live)
    && ReturnsRecorded(sys.origin, sys.journal)
    && Replays(Loaded(base, sys.snapshot, 0), sys.journal, sys.live)
    && SettledReturnRecorded(Loaded(base, sys.snapshot, 0), sys.journal)
  }

  ghost function Start(base: IpamState): System {
    System(EmptyState(base), None, [], EmptyState(base))
  }

  lemma StartConsistent(base: IpamState)
    requires base.held == map[] && base.subnets == map[]
    ensures Consistent(base, Start(base))
  {
    EmptyInvariant(base);
    LedToNothing(EmptyState(base));
  }

  /** What a start recovers when the directory holds `live`. */
  lemma RecoverGivesLive(base: IpamState, snapshot: Option<DurableState>, journal: seq<JournalOp>,
                         live: DurableState, restored: DateTime, replayed: DateTime)
    requires Invariant(live) && Replays(Loaded(base, snapshot, 0), journal, live)
    ensures var r := Recover(base, snapshot, journal, restored, replayed);
            r.Erased() == live.Erased() && Invariant(r) && UsedExact(r)
  {
    hide Invariant, Recounted, ApplyAll;
    LoadedErased(base, snapshot, restored, 0);
    ApplyAllRespectsErasure(Loaded(base, snapshot, restored), Loaded(base, snapshot, 0), journal, replayed, 0);
    InvariantSurvivesRestart(live, ApplyAll(Loaded(base, snapshot, restored), journal, replayed));
  }

  lemma ReplaysErased(a: DurableState, ops: seq<JournalOp>, b: DurableState, c: DurableState)
    requires Replays(a, ops, b) && b.Erased() == c.Erased()
    ensures Replays(a, ops, c)
  {
  }

  lemma ReplaysFrom(a: DurableState, a': DurableState, ops: seq<JournalOp>, b: DurableState)
    requires Replays(a, ops, b) && a.Erased() == a'.Erased()
    ensures Replays(a', ops, b)
  {
    ApplyAllRespectsErasure(a, a', ops, 0, 0);
  }

  lemma ServeConsistent(base: IpamState, sys: System, e: Event)
    requires Consistent(base, sys) && Allowed(sys.live, e)
    ensures Consistent(base, Next(base, sys, Serve(e)))
  {
    hide Invariant, LedTo, Replays, ReturnsRecorded, SettledReturnRecorded, Step, Allowed;
    StepRefines(sys.live, e);
    LedToStep(sys.origin, sys.journal, sys.live, e);
    var (live', ops) := Step(sys.live, e);
    ReplaysConcat(Loaded(base, sys.snapshot, 0), sys.journal, sys.live, ops, live');
    StepReturnsRecorded(sys.live, e);
    LedToReplays(sys.origin, sys.journal, sys.live);
    RecordedConcat(sys.origin, sys.journal, sys.live, ops);
    SettledConcat(Loaded(base, sys.snapshot, 0), sys.journal, sys.live, ops);
  }

  lemma LedToReplays(origin: DurableState, ops: seq<JournalOp>, z: DurableState)
    requires LedTo(origin, ops, z)
    ensures Replays(origin, ops, z)
  {
  }

  /** A crash while the directory holds the live state. */
  lemma CrashConsistent(base: IpamState, sys: System, restored: DateTime, replayed: DateTime)
    requires Consistent(base, sys)
    ensures var sys' := Next(base, sys, Crash(restored, replayed));
            Consistent(base, sys') && sys'.live.Erased() == sys.live.Erased() && UsedExact(sys'.live)
  {
    hide Invariant, LedTo, Replays, ReturnsRecorded, SettledReturnRecorded, Recover;
    RecoverGivesLive(base, sys.snapshot, sys.journal, sys.live, restored, replayed);
    var live' := Next(base, sys, Crash(restored, replayed)).live;
    LedToErased(sys.origin, sys.journal, sys.live, live');
    ReplaysErased(Loaded(base, sys.snapshot, 0), sys.journal, sys.live, live');
  }

  /** A crash in an event that leaves all or nothing of its group is a crash
      after or before it. */
  lemma TearIsCrash(base: IpamState, sys: System, a: Action)
    requires a.Tear? && Harmless(sys, a)
    ensures var crash := Crash(a.restored, a.replayed);
            Next(base, sys, a) ==
              if a.kept >= |Step(sys.live, a.event).1| then Next(base, Next(base, sys, Serve(a.event)), crash)
              else Next(base, sys, crash)
  {
    hide Step, Recover;
    assert sys.journal + [] == sys.journal;
  }

  /** Every event, crash and restart leaves a directory that replays to the live
      state, as long as crashes are harmless. */
  lemma NextConsistent(base: IpamState, sys: System, a: Action)
    requires Consistent(base, sys) && Happens(sys, a) && Harmless(sys, a)
    ensures Consistent(base, Next(base, sys, a))
    ensures Next(base, sys, a).live.Erased() == Expected(sys, a).Erased()
    ensures !a.Serve? ==> UsedExact(Next(base, sys, a).live)
  {
    hide Consistent, Step, Allowed, Recover;
    match a
    case Serve(e) => ServeConsistent(base, sys, e);
    case Crash(restored, replayed) => CrashConsistent(base, sys, restored, replayed);
    case Tear(e, kept, restored, replayed) =>
      TearIsCrash(base, sys, a);
      if kept >= |Step(sys.live, e).1| {
        ServeConsistent(base, sys, e);
        CrashConsistent(base, Next(base, sys, Serve(e)), restored, replayed);
      } else {
        CrashConsistent(base, sys, restored, replayed);
      }
    case Restart(restored, replayed) => RestartConsistent(base, sys, restored, replayed);
    case CrashCompacting(restored, replayed) => CompactionCrashConsistent(base, sys, restored, replayed);
  }

  lemma RestartConsistent(base: IpamState, sys: System, restored: DateTime, replayed: DateTime)
    requires Consistent(base, sys)
    ensures var sys' := Next(base, sys, Restart(restored, replayed));
            Consistent(base, sys') && sys'.live.Erased() == sys.live.Erased() && UsedExact(sys'.live)
  {
    hide Invariant, LedTo, Replays, Recover;
    LedToNothing(sys.live);
    SnapshotTaken(base, sys, [], restored, replayed);
    LedToErased(sys.live, [], sys.live, Next(base, sys, Restart(restored, replayed)).live);
  }

  lemma CompactionCrashConsistent(base: IpamState, sys: System, restored: DateTime, replayed: DateTime)
    requires Consistent(base, sys) && SettledReturnRecorded(sys.live, sys.journal)
    ensures var sys' := Next(base, sys, CrashCompacting(restored, replayed));
            Consistent(base, sys') && sys'.live.Erased() == sys.live.Erased() && UsedExact(sys'.live)
  {
    hide Invariant, LedTo, Replays, ReturnsRecorded, SettledReturnRecorded, Recover;
    InvariantParts(sys.live);
    SecondReplayIsIdentityIff(sys.origin, sys.journal, sys.live);
    SnapshotTaken(base, sys, sys.journal, restored, replayed);
    LedToErased(sys.origin, sys.journal, sys.live, Next(base, sys, CrashCompacting(restored, replayed)).live);
  }

  /** A crash during compaction gives back the live state exactly when every
      allocation that is never given back returns its recorded address. */
  lemma CompactionCrashIff(base: IpamState, sys: System, restored: DateTime, replayed: DateTime)
    requires Consistent(base, sys)
    ensures Next(base, sys, CrashCompacting(restored, replayed)).live.Erased() == sys.live.Erased()
            <==> SettledReturnRecorded(sys.live, sys.journal)
  {
    hide Invariant, LedTo, ReturnsRecorded, SettledReturnRecorded, ApplyAll, Recounted;
    InvariantParts(sys.live);
    SecondReplayIsIdentityIff(sys.origin, sys.journal, sys.live);
    var start := Restored(sys.live, restored);
    RestoreErasesNothing(sys.live, restored);
    ApplyAllRespectsErasure(start, sys.live, sys.journal, replayed, 0);
    RecountErasesNothing(ApplyAll(start, sys.journal, replayed));
  }

  /** A start from a fresh snapshot and a journal that adds nothing to it. */
  lemma SnapshotTaken(base: IpamState, sys: System, journal: seq<JournalOp>, restored: DateTime, replayed: DateTime)
    requires Invariant(sys.live)
    requires journal == [] || Replays(sys.live, journal, sys.live)
    ensures var r := Recover(base, Some(sys.live), journal, restored, replayed);
            && r.Erased() == sys.live.Erased() && Invariant(r) && UsedExact(r)
            && Replays(Loaded(base, Some(sys.live), 0), journal, r)
            && (SettledReturnRecorded(sys.live, journal) <==>
                  SettledReturnRecorded(Loaded(base, Some(sys.live), 0), journal))
  {
    hide Invariant, Recover, SettledReturnRecorded;
    ApplyNone(sys.live, 0);
    RestoreErasesNothing(sys.live, 0);
    SettledErased(sys.live, Restored(sys.live, 0), journal);
    ReplaysFrom(sys.live, Restored(sys.live, 0), journal, sys.live);
    RecoverGivesLive(base, Some(sys.live), journal, sys.live, restored, replayed);
  }

  // ---------------------------------------------------------------------
  // Whole histories
  // ---------------------------------------------------------------------

  ghost function After(base: IpamState, actions: seq<Action>): System {
    if actions == [] then Start(base)
    else Next(base, After(base, actions[..|actions| - 1]), actions[|actions| - 1])
  }

  /** Any history: nothing is asked of the crashes. */
  ghost predicate History(base: IpamState, actions: seq<Action>) {
    actions != [] ==>
      && History(base, actions[..|actions| - 1])
      && Happens(After(base, actions[..|actions| - 1]), actions[|actions| - 1])
  }

  /** All crashes of a history are harmless. */
  ghost predicate HarmlessHistory(base: IpamState, actions: seq<Action>) {
    actions != [] ==>
      && HarmlessHistory(base, actions[..|actions| - 1])
      && Harmless(After(base, actions[..|actions| - 1]), actions[|actions| - 1])
  }

  /** After any history of harmless crashes the directory holds the live state,
      so one more crash loses nothing. */
  lemma {:induction false} HistoryConsistent(base: IpamState, actions: seq<Action>)
    requires base.held == map[] && base.subnets == map[]
    requires History(base, actions) && HarmlessHistory(base, actions)
    ensures Consistent(base, After(base, actions))
  {
    hide Consistent, Happens, Harmless, Next;
    if actions == [] {
      StartConsistent(base);
    } else {
      HistoryConsistent(base, actions[..|actions| - 1]);
      NextConsistent(base, After(base, actions[..|actions| - 1]), actions[|actions| - 1]);
    }
  }

  /** What a reader may rely on after any history of harmless crashes: a start
      gives back every durable fact of the live state, and the replay gives every
      allocation that is not given back its recorded address; no node is
      overcommitted; tasks and addresses agree. An allocation that was given back
      may replay to another address, and the replay of a whole journal returns
      the recorded ones from the state the journal was begun in. */
  lemma HistorySafe(base: IpamState, actions: seq<Action>, restored: DateTime, replayed: DateTime)
    requires base.held == map[] && base.subnets == map[]
    requires History(base, actions) && HarmlessHistory(base, actions)
    ensures var sys := After(base, actions);
            && Recover(base, sys.snapshot, sys.journal, restored, replayed).Erased() == sys.live.Erased()
            && SettledReturnRecorded(Loaded(base, sys.snapshot, restored), sys.journal)
            && ReturnsRecorded(sys.origin, sys.journal)
            && NoOvercommit(sys.live) && Agreement(sys.live) && sys.live.ipam.WellFormed()
            && |sys.live.ipam.held| <= CAPACITY
  {
    hide Recover, SettledReturnRecorded, ReturnsRecorded, LedTo, Loaded;
    HistoryConsistent(base, actions);
    var sys := After(base, actions);
    RecoverGivesLive(base, sys.snapshot, sys.journal, sys.live, restored, replayed);
    LoadedErased(base, sys.snapshot, restored, 0);
    SettledErased(Loaded(base, sys.snapshot, restored), Loaded(base, sys.snapshot, 0), sys.journal);
    HeldWithinCapacity(sys.live.ipam);
  }

  /** No crash has hit a compaction since the last clean restart. */
  predicate CleanSince(actions: seq<Action>) {
    actions == [] ||
      var last := actions[|actions| - 1];
      last.Restart? || (!last.CrashCompacting? && CleanSince(actions[..|actions| - 1]))
  }

  /** Then a start reads the state the journal was begun in. */
  lemma {:induction false} StartsFromOrigin(base: IpamState, actions: seq<Action>)
    requires CleanSince(actions)
    ensures var sys := After(base, actions); Loaded(base, sys.snapshot, 0).Erased() == sys.origin.Erased()
  {
    hide Step, Recover;
    if actions != [] {
      var sys := After(base, actions[..|actions| - 1]);
      if actions[|actions| - 1].Restart? {
        RestoreErasesNothing(sys.live, 0);
      } else {
        StartsFromOrigin(base, actions[..|actions| - 1]);
      }
    }
  }

  /** As long as no crash hits a compaction, the replay of a start returns the
      recorded address for every allocation, given back or not. */
  lemma HistoryReturnsRecorded(base: IpamState, actions: seq<Action>, restored: DateTime)
    requires base.held == map[] && base.subnets == map[]
    requires History(base, actions) && HarmlessHistory(base, actions) && CleanSince(actions)
    ensures var sys := After(base, actions); ReturnsRecorded(Loaded(base, sys.snapshot, restored), sys.journal)
  {
    hide ReturnsRecorded, Loaded, After, CleanSince, History, HarmlessHistory, Invariant, LedTo;
    HistoryConsistent(base, actions);
    StartsFromOrigin(base, actions);
    var sys := After(base, actions);
    LoadedErased(base, sys.snapshot, restored, 0);
    SettledErased(Loaded(base, sys.snapshot, restored), sys.origin, sys.journal);
  }

  // ---------------------------------------------------------------------
  // Cuts inside an op group
  // ---------------------------------------------------------------------

  /** Whatever prefix of whatever journal is replayed, the allocator stays well
      formed. */
  lemma {:induction false} AnyReplayKeepsIpam(s: DurableState, ops: seq<JournalOp>, now: DateTime)
    requires s.ipam.WellFormed()
    ensures ApplyAll(s, ops, now).ipam.WellFormed()
  {
    hide IpamState.WellFormed, ApplyOne;
    if ops != [] {
      AnyReplayKeepsIpam(s, ops[..|ops| - 1], now);
      OneKeepsWellFormed(ApplyAll(s, ops[..|ops| - 1], now), ops[|ops| - 1], now);
    }
  }

  /** A group has at most two operations, and a crash between the two leaves
      tasks and addresses in disagreement: op groups are the only safe cuts. */
  lemma TornGroupDisagrees(s: DurableState, e: Event)
    requires Invariant(s) && Allowed(s, e)
    ensures |Step(s, e).1| <= 2
    ensures |Step(s, e).1| == 2 ==> !Agreement(ApplyOne(s, Step(s, e).1[0], 0))
  {
    hide Invariant, Agreement, ApplyOne, PlaceOne;
    match e
    case TaskReported(t, state, exitCode) => TornRelease(s, t);
    case OrphanRequeued(t, _) => TornRelease(s, t);
    case TaskPlaced(t, now) => TornPlacement(s, t, now);
    case _ =>
  }

  lemma TornRelease(s: DurableState, t: TaskId)
    requires Invariant(s)
    ensures t in s.ipam.held ==> !Agreement(ApplyOne(s, IpamRelease(t), 0))
  {
    if t in s.ipam.held {
      var s' := ApplyOne(s, IpamRelease(t), 0);
      assert TaskAgrees(t, s.tasks[t], s.nodes.Keys, s.ipam);
      assert !TaskAgrees(t, s'.tasks[t], s'.nodes.Keys, s'.ipam);
    }
  }

  lemma TornPlacement(s: DurableState, t: TaskId, now: DateTime)
    requires Invariant(s) && t in s.tasks && s.tasks[t].state.Pending?
    ensures var ops := PlaceOne(s, t, now).1;
            |ops| <= 2 && (|ops| == 2 ==> !Agreement(ApplyOne(s, ops[0], 0)))
  {
    hide Invariant, PlaceOne, Commit, IsEligible;
    InvariantParts(s);
    PendingHoldsNothing(s, t);
    PlaceOneCases(s, t, now);
    var pick := PickNode(s.nodes, s.tasks[t], now);
    if pick.Some? {
      var (ip, ipam') := s.ipam.Allocate(pick.value, t);
      if !s.tasks[t].spec.networkEnabled {
        CommitShape(s, t, pick.value, None);
      } else if ip.Some? {
        AllocateKeeps(s.ipam, pick.value, t);
        CommitShape(s.(ipam := ipam'), t, pick.value,
                    Some(NetworkAssignment(ip.value, ipam'.GatewayFor(pick.value).value, NETMASK)));
        TornAllocation(s, t, pick.value, ip.value);
      }
    }
  }

  /** A pending task that holds an address has no network. */
  lemma TornAllocation(s: DurableState, t: TaskId, n: NodeId, ip: Ip)
    requires Agreement(s) && t in s.tasks && s.tasks[t].state.Pending? && t in s.ipam.Allocate(n, t).1.held
    ensures !Agreement(ApplyOne(s, IpamAllocate(n, t, ip), 0))
  {
    assert TaskAgrees(t, s.tasks[t], s.nodes.Keys, s.ipam);
    var torn := ApplyOne(s, IpamAllocate(n, t, ip), 0);
    assert !TaskAgrees(t, torn.tasks[t], torn.nodes.Keys, torn.ipam);
  }
}
