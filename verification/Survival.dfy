/** What survives any crash: one that separates the operations of a group, one
    that replays a journal on its own result, any number of them in any order. */
module Survival {
  import opened Types
  import opened Ipam
  import opened Durable
  import opened Placement
  import opened Accounting
  import opened Scheduling
  import opened Soundness
  import opened Runs
  import opened Compaction
  import opened Recovery

  // ---------------------------------------------------------------------
  // The allocator
  // ---------------------------------------------------------------------

  lemma RecountTouchesNodesOnly(s: DurableState)
    ensures Recounted(s) == s.(nodes := Recounted(s).nodes)
  {
  }

  lemma RecoverKeepsIpam(base: IpamState, snapshot: Option<DurableState>, journal: seq<JournalOp>,
                         restored: DateTime, replayed: DateTime)
    requires base.WellFormed() && (snapshot.Some? ==> snapshot.value.ipam.WellFormed())
    ensures Recover(base, snapshot, journal, restored, replayed).ipam.WellFormed()
  {
    hide IpamState.WellFormed, Recounted, ApplyAll;
    var start := Loaded(base, snapshot, restored);
    AnyReplayKeepsIpam(start, journal, replayed);
    RecountTouchesNodesOnly(ApplyAll(start, journal, replayed));
  }

  // ---------------------------------------------------------------------
  // One action
  // ---------------------------------------------------------------------

  /** The directory holds the records of the live state, and the live state is
      sound. Nothing is said about the addresses of the live state, except that
      the allocator gives none to two tasks. */
  ghost predicate Backed(base: IpamState, sys: System) {
    && base.WellFormed()
    && (sys.snapshot.Some? ==> sys.snapshot.value.ipam.WellFormed())
    && Sound(sys.live)
    && RecordsLedTo(sys.origin, sys.journal, sys.live)
    && RecordsReplay(Loaded(base, sys.snapshot, 0), sys.journal, sys.live)
  }

  lemma SoundParts(s: DurableState)
    requires Sound(s)
    ensures KeysMatch(s) && s.ipam.WellFormed() && NodesKnown(s) && NoOvercommit(s) && UsedCovers(s)
  {
  }

  lemma StartBacked(base: IpamState)
    requires base.held == map[] && base.subnets == map[]
    ensures Backed(base, Start(base))
  {
    LedToNothing(EmptyState(base));
    LedToRecords(EmptyState(base), [], EmptyState(base));
  }

  /** What a start recovers when the directory holds the records of `live`. */
  lemma RecoverGivesRecords(base: IpamState, snapshot: Option<DurableState>, journal: seq<JournalOp>,
                            live: DurableState, restored: DateTime, replayed: DateTime)
    requires base.WellFormed() && (snapshot.Some? ==> snapshot.value.ipam.WellFormed())
    requires Sound(live) && RecordsReplay(Loaded(base, snapshot, 0), journal, live)
    ensures var r := Recover(base, snapshot, journal, restored, replayed);
            r.Records() == live.Records() && Sound(r) && UsedExact(r)
  {
    hide Sound, Recounted, ApplyAll, IpamState.WellFormed, UsedExact, DurableState.Records;
    var start := Loaded(base, snapshot, restored);
    LoadedRecords(base, snapshot, restored, 0);
    ApplyAllRespectsRecords(start, Loaded(base, snapshot, 0), journal, replayed, 0);
    AnyReplayKeepsIpam(start, journal, replayed);
    SoundSurvivesRestart(live, ApplyAll(start, journal, replayed));
  }

  lemma LoadedRecords(base: IpamState, snapshot: Option<DurableState>, now: DateTime, later: DateTime)
    ensures Loaded(base, snapshot, now).Records() == Loaded(base, snapshot, later).Records()
  {
    LoadedErased(base, snapshot, now, later);
  }

  lemma RecordsReplaySame(a: DurableState, ops: seq<JournalOp>, b: DurableState, c: DurableState)
    requires RecordsReplay(a, ops, b) && b.Records() == c.Records()
    ensures RecordsReplay(a, ops, c)
  {
  }

  /** Every event extends the journal to one that leads to the new records. */
  lemma RecordsLedToStep(origin: DurableState, ops: seq<JournalOp>, z: DurableState, e: Event)
    requires RecordsLedTo(origin, ops, z) && KeysMatch(z) && Allowed(z, e)
    ensures RecordsLedTo(origin, ops + Step(z, e).1, Step(z, e).0)
  {
    hide Step, Allowed, RecordsReplay, Fits, Evolves;
    StepReplaysRecords(z, e);
    RecordsReplayConcat(origin, ops, z, Step(z, e).1, Step(z, e).0);
    StepEvolves(z, e);
    StepFits(z, e);
    StillFits(origin, ops, z, Step(z, e).1, Step(z, e).0);
  }

  lemma ServeBacked(base: IpamState, sys: System, e: Event)
    requires Backed(base, sys) && Allowed(sys.live, e)
    ensures Backed(base, Next(base, sys, Serve(e)))
  {
    hide Sound, RecordsLedTo, RecordsReplay, Step, Allowed, IpamState.WellFormed;
    SoundParts(sys.live);
    StepKeepsSound(sys.live, e);
    RecordsLedToStep(sys.origin, sys.journal, sys.live, e);
    StepReplaysRecords(sys.live, e);
    RecordsReplayConcat(Loaded(base, sys.snapshot, 0), sys.journal, sys.live, Step(sys.live, e).1, Step(sys.live, e).0);
  }

  lemma CrashBacked(base: IpamState, sys: System, restored: DateTime, replayed: DateTime)
    requires Backed(base, sys)
    ensures var sys' := Next(base, sys, Crash(restored, replayed));
            Backed(base, sys') && sys'.live.Records() == sys.live.Records() && UsedExact(sys'.live)
  {
    hide Sound, RecordsLedTo, RecordsReplay, Recover, IpamState.WellFormed, UsedExact;
    RecoverGivesRecords(base, sys.snapshot, sys.journal, sys.live, restored, replayed);
    var live' := Next(base, sys, Crash(restored, replayed)).live;
    RecordsLedToSame(sys.origin, sys.journal, sys.live, live');
    RecordsReplaySame(Loaded(base, sys.snapshot, 0), sys.journal, sys.live, live');
  }

  lemma AddressOpKeepsRecords(s: DurableState, op: JournalOp)
    requires op.IpamAllocate? || op.IpamRelease?
    ensures ApplyOne(s, op, 0).Records() == s.Records()
  {
    SameRecords(ApplyOne(s, op, 0), s);
  }

  /** A journal that ends in one more operation on addresses leads to the same
      records. */
  lemma TornJournalBacked(base: IpamState, sys: System, op: JournalOp)
    requires Backed(base, sys) && (op.IpamAllocate? || op.IpamRelease?)
    ensures Backed(base, sys.(journal := sys.journal + [op]))
  {
    hide Sound, RecordsReplay, IpamState.WellFormed, ApplyOne, Fits, TasksKept;
    ApplySingle(sys.live, op, 0);
    AddressOpKeepsRecords(sys.live, op);
    assert RecordsReplay(sys.live, [op], sys.live) by { RecordsReplayIs(sys.live, [op], sys.live); }
    RecordsReplayConcat(sys.origin, sys.journal, sys.live, [op], sys.live);
    RecordsReplayConcat(Loaded(base, sys.snapshot, 0), sys.journal, sys.live, [op], sys.live);
    SameTasksEvolve(sys.live, sys.live);
    TasksKeptReflexive(sys.live);
    OneOpFits(sys.live, op, sys.live);
    StillFits(sys.origin, sys.journal, sys.live, [op], sys.live);
  }

  lemma RecordsReplayIs(a: DurableState, ops: seq<JournalOp>, b: DurableState)
    requires ApplyAll(a, ops, 0).Records() == b.Records()
    ensures RecordsReplay(a, ops, b)
  {
  }

  lemma TasksKeptReflexive(s: DurableState)
    ensures TasksKept(s, s)
  {
  }

  /** A crash inside a group is a crash of a system whose journal ends in one
      operation on addresses. */
  lemma TearBacked(base: IpamState, sys: System, a: Action)
    requires Backed(base, sys) && a.Tear? && Allowed(sys.live, a.event)
    ensures var sys' := Next(base, sys, a);
            Backed(base, sys') && sys'.live.Records() == Expected(sys, a).Records() && UsedExact(sys'.live)
  {
    hide Backed, Step, Allowed, Recover, UsedExact;
    var ops := Step(sys.live, a.event).1;
    var crash := Crash(a.restored, a.replayed);
    if a.kept == 0 || a.kept >= |ops| {
      TearIsCrash(base, sys, a);
      if a.kept >= |ops| {
        ServeBacked(base, sys, a.event);
        CrashBacked(base, Next(base, sys, Serve(a.event)), a.restored, a.replayed);
      } else {
        CrashBacked(base, sys, a.restored, a.replayed);
      }
    } else {
      BackedIsSound(base, sys);
      SoundParts(sys.live);
      GroupShape(sys.live, a.event);
      assert Kept(ops, a.kept) == [ops[0]];
      TornJournalBacked(base, sys, ops[0]);
      CrashBacked(base, sys.(journal := sys.journal + [ops[0]]), a.restored, a.replayed);
    }
  }

  lemma BackedIsSound(base: IpamState, sys: System)
    requires Backed(base, sys)
    ensures Sound(sys.live)
  {
  }

  /** A snapshot of the live state beside a journal that adds no record to it. */
  lemma SnapshotBacked(base: IpamState, sys: System, journal: seq<JournalOp>, origin: DurableState,
                       restored: DateTime, replayed: DateTime)
    requires base.WellFormed() && Sound(sys.live) && RecordsReplay(sys.live, journal, sys.live)
    requires RecordsLedTo(origin, journal, sys.live)
    ensures var live' := Recover(base, Some(sys.live), journal, restored, replayed);
            && Backed(base, System(live', Some(sys.live), journal, origin))
            && live'.Records() == sys.live.Records() && UsedExact(live')
  {
    hide Sound, RecordsLedTo, Recover, IpamState.WellFormed, UsedExact, ApplyAll;
    SoundParts(sys.live);
    RestoreErasesNothing(sys.live, 0);
    ApplyAllRespectsRecords(sys.live, Restored(sys.live, 0), journal, 0, 0);
    RecoverGivesRecords(base, Some(sys.live), journal, sys.live, restored, replayed);
    var live' := Recover(base, Some(sys.live), journal, restored, replayed);
    RecordsLedToSame(origin, journal, sys.live, live');
  }

  /** Whatever happens next, the directory holds the records of the live state,
      and the live state is the expected one up to addresses. */
  lemma NextBacked(base: IpamState, sys: System, a: Action)
    requires Backed(base, sys) && Happens(sys, a)
    ensures Backed(base, Next(base, sys, a))
    ensures Next(base, sys, a).live.Records() == Expected(sys, a).Records()
    ensures !a.Serve? ==> UsedExact(Next(base, sys, a).live)
  {
    hide Sound, RecordsLedTo, RecordsReplay, Step, Allowed, Recover, UsedExact, IpamState.WellFormed;
    match a
    case Serve(e) => ServeBacked(base, sys, e);
    case Crash(restored, replayed) => CrashBacked(base, sys, restored, replayed);
    case Tear(_, _, _, _) => TearBacked(base, sys, a);
    case Restart(restored, replayed) =>
      LedToNothing(sys.live);
      LedToRecords(sys.live, [], sys.live);
      NothingLedTo(sys.live);
      SnapshotBacked(base, sys, [], sys.live, restored, replayed);
    case CrashCompacting(restored, replayed) =>
      SecondReplayKeepsRecords(sys.origin, sys.journal, sys.live);
      SnapshotBacked(base, sys, sys.journal, sys.origin, restored, replayed);
  }

  lemma NothingLedTo(s: DurableState)
    ensures RecordsReplay(s, [], s)
  {
    ApplyNone(s, 0);
  }

  // ---------------------------------------------------------------------
  // Any history
  // ---------------------------------------------------------------------

  lemma {:induction false} HistoryBacked(base: IpamState, actions: seq<Action>)
    requires base.held == map[] && base.subnets == map[] && History(base, actions)
    ensures Backed(base, After(base, actions))
  {
    hide Backed, Happens, Next;
    if actions == [] {
      StartBacked(base);
    } else {
      HistoryBacked(base, actions[..|actions| - 1]);
      NextBacked(base, After(base, actions[..|actions| - 1]), actions[|actions| - 1]);
    }
  }

  /** Whatever crashes and wherever: a start gives back every job, task, snapshot
      record and node of the live state, no node is overcommitted, `used` covers
      the demand, the allocator gives no address to two tasks and no /24 to two
      nodes, and the bound on held addresses stands. The networks the records
      carry are not the allocator's: see `Networks`. */
  lemma RecordsSurvive(base: IpamState, actions: seq<Action>, restored: DateTime, replayed: DateTime)
    requires base.held == map[] && base.subnets == map[] && History(base, actions)
    ensures var sys := After(base, actions);
            && Recover(base, sys.snapshot, sys.journal, restored, replayed).Records() == sys.live.Records()
            && NoOvercommit(sys.live) && UsedCovers(sys.live) && sys.live.ipam.WellFormed()
            && |sys.live.ipam.held| <= CAPACITY
  {
    hide Recover, RecordsLedTo, RecordsReplay;
    HistoryBacked(base, actions);
    var sys := After(base, actions);
    RecoverGivesRecords(base, sys.snapshot, sys.journal, sys.live, restored, replayed);
    HeldWithinCapacity(sys.live.ipam);
  }

  // ---------------------------------------------------------------------
  // Addresses after any crash
  // ---------------------------------------------------------------------

  /** The directory replays to the live state, addresses included. */
  ghost predicate HoldsLive(base: IpamState, sys: System) {
    Replays(Loaded(base, sys.snapshot, 0), sys.journal, sys.live)
  }

  /** Serving an event keeps the directory in step exactly when no placement
      gives an address back unjournaled. */
  lemma ServeHoldsLiveIff(base: IpamState, sys: System, e: Event)
    requires HoldsLive(base, sys) && Sound(sys.live) && Allowed(sys.live, e)
    ensures HoldsLive(base, Next(base, sys, Serve(e))) <==> !GivesBackUnjournaled(sys.live, e)
  {
    hide Sound, Step, Allowed, ApplyAll, GivesBackUnjournaled;
    var start := Loaded(base, sys.snapshot, 0);
    var (live', ops) := Step(sys.live, e);
    StepReplaysIff(sys.live, e);
    ApplyConcat(start, sys.journal, ops, 0);
    ApplyAllRespectsErasure(ApplyAll(start, sys.journal, 0), sys.live, ops, 0, 0);
  }

  /** What a start recovers is what the directory replays to. */
  lemma RecoveredIsHeld(base: IpamState, snapshot: Option<DurableState>, journal: seq<JournalOp>,
                        restored: DateTime, replayed: DateTime)
    ensures Replays(Loaded(base, snapshot, 0), journal, Recover(base, snapshot, journal, restored, replayed))
  {
    hide ApplyAll, Recounted;
    LoadedErased(base, snapshot, restored, 0);
    ApplyAllRespectsErasure(Loaded(base, snapshot, restored), Loaded(base, snapshot, 0), journal, replayed, 0);
    RecountErasesNothing(ApplyAll(Loaded(base, snapshot, restored), journal, replayed));
  }

  lemma NextHoldsLive(base: IpamState, sys: System, a: Action)
    requires HoldsLive(base, sys) && Sound(sys.live) && Happens(sys, a)
    ensures HoldsLive(base, Next(base, sys, a)) <==> !(a.Serve? && GivesBackUnjournaled(sys.live, a.event))
  {
    hide Sound, Allowed, Step, Recover, Replays, GivesBackUnjournaled;
    match a
    case Serve(e) => ServeHoldsLiveIff(base, sys, e);
    case Crash(restored, replayed) => RecoveredIsHeld(base, sys.snapshot, sys.journal, restored, replayed);
    case Tear(e, kept, restored, replayed) =>
      RecoveredIsHeld(base, sys.snapshot, Next(base, sys, a).journal, restored, replayed);
    case Restart(restored, replayed) => RecoveredIsHeld(base, Some(sys.live), [], restored, replayed);
    case CrashCompacting(restored, replayed) =>
      RecoveredIsHeld(base, Some(sys.live), sys.journal, restored, replayed);
  }

  /** No placement of the history gives an address back unjournaled. */
  ghost predicate NoUnjournaledRelease(base: IpamState, actions: seq<Action>) {
    actions != [] ==>
      && NoUnjournaledRelease(base, actions[..|actions| - 1])
      && !(actions[|actions| - 1].Serve?
           && GivesBackUnjournaled(After(base, actions[..|actions| - 1]).live, actions[|actions| - 1].event))
  }

  lemma {:induction false} HistoryHoldsLive(base: IpamState, actions: seq<Action>)
    requires base.held == map[] && base.subnets == map[]
    requires History(base, actions) && NoUnjournaledRelease(base, actions)
    ensures HoldsLive(base, After(base, actions))
  {
    hide HoldsLive, Happens, Next, GivesBackUnjournaled, Backed;
    if actions == [] {
      StartHoldsLive(base);
    } else {
      var sys := After(base, actions[..|actions| - 1]);
      HistoryHoldsLive(base, actions[..|actions| - 1]);
      HistoryBacked(base, actions[..|actions| - 1]);
      BackedIsSound(base, sys);
      NextHoldsLive(base, sys, actions[|actions| - 1]);
    }
  }

  lemma StartHoldsLive(base: IpamState)
    ensures HoldsLive(base, Start(base))
  {
    ApplyNone(EmptyState(base), 0);
  }

  /** After any crashes, harmless or not, a start gives back the addresses too,
      as long as no placement has given one back unjournaled. */
  lemma AddressesSurvive(base: IpamState, actions: seq<Action>, restored: DateTime, replayed: DateTime)
    requires base.held == map[] && base.subnets == map[]
    requires History(base, actions) && NoUnjournaledRelease(base, actions)
    ensures var sys := After(base, actions);
            Recover(base, sys.snapshot, sys.journal, restored, replayed).Erased() == sys.live.Erased()
  {
    hide Recover, ApplyAll;
    HistoryHoldsLive(base, actions);
    var sys := After(base, actions);
    RecoveredIsHeld(base, sys.snapshot, sys.journal, restored, replayed);
  }

  // ---------------------------------------------------------------------
  // Nothing assumed at all
  // ---------------------------------------------------------------------

  /** What an event does, whether or not the environment keeps its side: ids may
      repeat, and a report may return a placed task to pending. */
  ghost function Effect(s: DurableState, e: Event): (DurableState, seq<JournalOp>) {
    match e
    case JobSubmitted(spec, now, jobId, ids) =>
      if IsValidSpec(spec) && |ids| != |Copies(spec.tasks)| then (s, []) else
        var out := s.CreateJob(spec, now, jobId, ids); (out.state, out.ops)
    case NodeRegistered(name, addr, total, underlay, now, id) =>
      var out := s.RegisterNode(name, addr, total, underlay, now, id); (out.state, out.ops)
    case NodeHeard(n, underlay, now) =>
      var out := s.Heartbeat(n, underlay, now); (out.state, out.ops)
    case TaskReported(t, state, exitCode) =>
      var out := s.SetTaskState(t, state, exitCode); (out.state, out.ops)
    case SnapshotRequested(t, mem, path, now, id) =>
      var out := s.RequestSnapshot(t, mem, path, now, id); (out.state, out.ops)
    case SnapshotReported(t, id, report) =>
      var out := s.ReportSnapshotResult(t, id, report); (out.state, out.ops)
    case OrphanRequeued(t, now) => RequeueOne(s, t)
    case UsedRecounted => (Recounted(s), [])
    case TaskPlaced(t, now) => PlaceOne(s, t, now)
  }

  lemma EffectIsStep(s: DurableState, e: Event)
    requires Allowed(s, e)
    ensures Effect(s, e) == Step(s, e)
  {
  }

  /** What can happen to a server, with no assumption on events or crashes: `Torn`
      keeps any prefix of the journal, and `TornCompaction` leaves a new snapshot
      beside the whole journal. */
  datatype Mishap =
    | Served(event: Event)
    | Stopped(restored: DateTime, replayed: DateTime)
    | Torn(kept: nat, restored: DateTime, replayed: DateTime)
    | TornCompaction(restored: DateTime, replayed: DateTime)

  ghost function Suffer(base: IpamState, sys: System, m: Mishap): System {
    match m
    case Served(e) =>
      var (live', ops) := Effect(sys.live, e);
      sys.(live := live', journal := sys.journal + ops)
    case Stopped(restored, replayed) => Next(base, sys, Restart(restored, replayed))
    case Torn(kept, restored, replayed) =>
      var journal := Kept(sys.journal, kept);
      sys.(live := Recover(base, sys.snapshot, journal, restored, replayed), journal := journal)
    case TornCompaction(restored, replayed) => Next(base, sys, CrashCompacting(restored, replayed))
  }

  ghost function SufferAll(base: IpamState, mishaps: seq<Mishap>): System {
    if mishaps == [] then Start(base)
    else Suffer(base, SufferAll(base, mishaps[..|mishaps| - 1]), mishaps[|mishaps| - 1])
  }

  lemma PlaceKeepsIpam(s: DurableState, t: TaskId, now: DateTime)
    requires s.ipam.WellFormed()
    ensures PlaceOne(s, t, now).0.ipam.WellFormed()
  {
    hide IpamState.WellFormed, IpamState.Allocate, TouchesOnly, Commit, PickNode;
    if t in s.tasks && PickNode(s.nodes, s.tasks[t], now).Some? {
      var n := PickNode(s.nodes, s.tasks[t], now).value;
      CallsAreLocal(s.ipam, n, t);
      var (ip, ipam') := s.ipam.Allocate(n, t);
      if !s.tasks[t].spec.networkEnabled {
        CommitKeepsIpam(s, t, n, None);
      } else if ip.Some? && ipam'.GatewayFor(n).Some? {
        CommitKeepsIpam(s.(ipam := ipam'), t, n,
                        Some(NetworkAssignment(ip.value, ipam'.GatewayFor(n).value, NETMASK)));
      }
    }
  }

  lemma CommitKeepsIpam(s: DurableState, t: TaskId, n: NodeId, network: Option<NetworkAssignment>)
    requires s.ipam.WellFormed() && t in s.tasks
    ensures Commit(s, t, n, network).0.ipam.WellFormed()
  {
    hide IpamState.WellFormed, Discovery.ServicesFor;
    ReleaseKeeps(s.ipam, t);
  }

  lemma EffectKeepsIpam(s: DurableState, e: Event)
    requires s.ipam.WellFormed()
    ensures Effect(s, e).0.ipam.WellFormed()
  {
    hide IpamState.WellFormed, PlaceOne, Recounted, InsertTasks;
    match e
    case TaskReported(t, _, _) => ReleaseKeeps(s.ipam, t);
    case OrphanRequeued(t, _) => ReleaseKeeps(s.ipam, t);
    case TaskPlaced(t, now) => PlaceKeepsIpam(s, t, now);
    case UsedRecounted => RecountTouchesNodesOnly(s);
    case _ =>
  }

  lemma SufferKeepsIpam(base: IpamState, sys: System, m: Mishap)
    requires base.WellFormed() && sys.live.ipam.WellFormed()
    requires sys.snapshot.Some? ==> sys.snapshot.value.ipam.WellFormed()
    ensures var sys' := Suffer(base, sys, m);
            && sys'.live.ipam.WellFormed()
            && (sys'.snapshot.Some? ==> sys'.snapshot.value.ipam.WellFormed())
  {
    hide IpamState.WellFormed, Recover, Effect;
    match m
    case Served(e) => EffectKeepsIpam(sys.live, e);
    case Stopped(restored, replayed) => RecoverKeepsIpam(base, Some(sys.live), [], restored, replayed);
    case Torn(kept, restored, replayed) =>
      RecoverKeepsIpam(base, sys.snapshot, Kept(sys.journal, kept), restored, replayed);
    case TornCompaction(restored, replayed) =>
      RecoverKeepsIpam(base, Some(sys.live), sys.journal, restored, replayed);
  }

  /** Whatever is served and wherever crashes hit, no two tasks ever hold the same
      address, no two nodes the same /24, and the bound on held addresses
      stands. */
  lemma {:induction false} IpamSurvivesAnything(base: IpamState, mishaps: seq<Mishap>)
    requires base.held == map[] && base.subnets == map[]
    ensures var sys := SufferAll(base, mishaps);
            && sys.live.ipam.WellFormed() && |sys.live.ipam.held| <= CAPACITY
            && (sys.snapshot.Some? ==> sys.snapshot.value.ipam.WellFormed())
  {
    assert base.WellFormed();
    if mishaps != [] {
      hide IpamState.WellFormed, Suffer;
      var front := mishaps[..|mishaps| - 1];
      IpamSurvivesAnything(base, front);
      SufferKeepsIpam(base, SufferAll(base, front), mishaps[|mishaps| - 1]);
    }
    HeldWithinCapacity(SufferAll(base, mishaps).live.ipam);
  }
}
