/** The server object and the system it runs: every call keeps the object and
    its data directory in step with the system, so what is proved of histories
    holds of the object and of the bytes on disk. */
module Serving {
  import opened Types
  import opened Ordering
  import opened Ipam
  import opened Durable
  import opened Accounting
  import opened Scheduling
  import opened Invariants
  import opened Compaction
  import opened Runs
  import opened JournalFile
  import opened Recovery
  import opened Server

  // ---------------------------------------------------------------------
  // The object and the system
  // ---------------------------------------------------------------------

  /** The object and its directory are the system `sys`; `before` is what the
      journal held when it was opened. */
  ghost predicate IsSystem(inner: StateInner, sys: System, before: seq<JournalOp>)
    reads inner, inner.ipam, inner.Journals()
  {
    && inner.journal != null && inner.Valid() && inner.journal.codec.Valid()
    && Holds(inner.journal.codec, inner.journal.found, before)
    && sys.live == inner.View()
    && sys.journal == before + inner.Log()
    && sys.snapshot == inner.journal.dir.snapshot
  }

  /** The system after a run of events. */
  ghost function Served(sys: System, events: seq<Event>): System {
    var (live, ops) := Run(sys.live, events);
    sys.(live := live, journal := sys.journal + ops)
  }

  lemma {:induction false} ServedConsistent(base: IpamState, sys: System, events: seq<Event>)
    requires Consistent(base, sys) && ValidRun(sys.live, events)
    ensures Consistent(base, Served(sys, events))
    decreases |events|
  {
    hide Consistent, Step, Allowed;
    if events == [] {
      assert sys.journal + [] == sys.journal;
    } else {
      var front, last := events[..|events| - 1], events[|events| - 1];
      ServedConsistent(base, sys, front);
      ServeConsistent(base, Served(sys, front), last);
      assert Served(sys, events) == Next(base, Served(sys, front), Serve(last));
    }
  }

  /** What the file holds is what it held when the handle was opened and
      everything journaled through the handle since. */
  lemma FileHoldsLog(inner: StateInner, sys: System, before: seq<JournalOp>)
    requires IsSystem(inner, sys, before)
    ensures inner.journal.dir.journal.Some?
    ensures Holds(inner.journal.codec, inner.journal.dir.journal.value, sys.journal)
  {
    SerializeHolds(inner.journal.codec, inner.journal.found, before, inner.Log());
  }

  /** The bytes on disk at any moment between two calls are enough to start
      again in the state of the running server. */
  lemma DiskRecoversServer(inner: StateInner, base: IpamState, sys: System, before: seq<JournalOp>,
                           restored: DateTime, replayed: DateTime)
    requires Consistent(base, sys) && IsSystem(inner, sys, before)
    ensures var dir := inner.journal.dir;
            && dir.journal.Some?
            && var (loaded, file) := Load(inner.journal.codec, dir.journal.value);
            && loaded.Ok? && file == dir.journal.value
            && Recover(base, dir.snapshot, loaded.value, restored, replayed).Erased() == inner.View().Erased()
            && Invariant(Recover(base, dir.snapshot, loaded.value, restored, replayed))
  {
    hide Invariant, Recover, Replays, Load, LedTo, ReturnsRecorded;
    FileHoldsLog(inner, sys, before);
    RecoverGivesLive(base, sys.snapshot, sys.journal, sys.live, restored, replayed);
  }

  /** A start gives an object that runs the recovered system. */
  lemma StartRuns(inner: StateInner, base: IpamState, sys: System, bytes: seq<Byte>, restored: DateTime,
                  replayed: DateTime)
    requires inner.journal != null && inner.Valid() && inner.journal.codec.Valid() && inner.Log() == []
    requires Load(inner.journal.codec, bytes) == (Ok(sys.journal), inner.journal.found)
    requires inner.View() == Recover(base, sys.snapshot, sys.journal, restored, replayed)
    requires inner.journal.dir.snapshot == sys.snapshot
    ensures IsSystem(inner, Next(base, sys, Crash(restored, replayed)), sys.journal)
  {
    hide Recover, Load, Split;
    LoadIsStable(inner.journal.codec, bytes);
    assert sys.journal + [] == sys.journal;
  }

  // ---------------------------------------------------------------------
  // Calls
  // ---------------------------------------------------------------------

  /** Carry out one event on the object: an API call, a heartbeat or one piece of
      a pass. */
  method Perform(inner: StateInner, e: Event)
    requires inner.Valid() && Allowed(inner.View(), e)
    modifies inner, inner.ipam, inner.Journals()
    ensures inner.Valid() && inner.journal == old(inner.journal) && inner.SnapshotFile() == old(inner.SnapshotFile())
    ensures var (after, ops) := Step(old(inner.View()), e);
            inner.View() == after && (inner.journal != null ==> inner.Log() == old(inner.Log()) + ops)
  {
    hide RequeueOne, PlaceOne, Recounted, StateInner.Valid;
    match e
    case JobSubmitted(spec, now, jobId, ids) =>
      var _ := inner.CreateJob(spec, now, jobId, ids);
    case NodeRegistered(name, addr, total, underlay, now, id) =>
      var _ := inner.RegisterNode(name, addr, total, underlay, now, id);
    case NodeHeard(n, underlay, now) =>
      var _ := inner.Heartbeat(n, underlay, now);
    case TaskReported(t, state, exitCode) =>
      var _ := inner.SetTaskState(t, state, exitCode);
    case SnapshotRequested(t, mem, path, now, id) =>
      var _ := inner.RequestSnapshot(t, mem, path, now, id);
    case SnapshotReported(t, id, report) =>
      var _ := inner.ReportSnapshotResult(t, id, report);
    case OrphanRequeued(t, now) =>
      inner.RequeueTask(t);
    case UsedRecounted =>
      inner.RecountUsed();
    case TaskPlaced(t, now) =>
      inner.PlaceTask(t, now);
  }

  /** One call on a server in step with a consistent system. */
  method ServeEvent(inner: StateInner, ghost base: IpamState, ghost sys: System, ghost before: seq<JournalOp>, e: Event)
    requires IsSystem(inner, sys, before) && Consistent(base, sys) && Allowed(sys.live, e)
    modifies inner, inner.ipam, inner.Journals()
    ensures inner.journal == old(inner.journal)
    ensures IsSystem(inner, Next(base, sys, Serve(e)), before) && Consistent(base, Next(base, sys, Serve(e)))
  {
    hide Step, Allowed, Consistent, Holds, Codec.Valid;
    Perform(inner, e);
    ghost var ops := Step(sys.live, e).1;
    assert before + old(inner.Log()) + ops == before + (old(inner.Log()) + ops);
    ServeConsistent(base, sys, e);
  }

  /** One pass on a server in step with a consistent system. */
  method ServePass(inner: StateInner, ghost base: IpamState, ghost sys: System, ghost before: seq<JournalOp>,
                   now: DateTime)
    returns (ghost events: seq<Event>)
    requires IsSystem(inner, sys, before) && Consistent(base, sys)
    modifies inner, inner.ipam, inner.Journals()
    ensures ValidRun(sys.live, events) && inner.journal == old(inner.journal)
    ensures IsSystem(inner, Served(sys, events), before) && Consistent(base, Served(sys, events))
  {
    hide Tick, Run, ValidRun, Consistent, Holds, Codec.Valid, PassEvents, Orphans, Enumerates, StateInner.Valid;
    var order := inner.RunTick(now);
    events := PassEvents(sys.live, now, order);
    PassServes(base, sys, now, order);
    ghost var more := Run(sys.live, events).1;
    assert before + old(inner.Log()) + more == before + (old(inner.Log()) + more);
  }

  /** The events of a whole pass. */
  ghost function PassEvents(s: DurableState, now: DateTime, order: seq<TaskId>): seq<Event> {
    TickEvents(order, Listing(PendingIds(Recounted(RequeueAll(s, order).0))), now)
  }

  lemma PassServes(base: IpamState, sys: System, now: DateTime, order: seq<TaskId>)
    requires Consistent(base, sys) && Enumerates(order, Orphans(sys.live, now))
    ensures ValidRun(sys.live, PassEvents(sys.live, now, order))
    ensures Run(sys.live, PassEvents(sys.live, now, order)) == Tick(sys.live, now, order)
    ensures Consistent(base, Served(sys, PassEvents(sys.live, now, order)))
  {
    hide Invariant, Run, ValidRun, Tick, TickEvents, Listing, RequeueAll;
    InvariantParts(sys.live);
    TickIsRun(sys.live, now, order);
    ServedConsistent(base, sys, PassEvents(sys.live, now, order));
  }

  // ---------------------------------------------------------------------
  // Stops, crashes and starts
  // ---------------------------------------------------------------------

  /** A start on the directory a dead process left behind gives a server in step
      with the system after the crash. */
  method StartAfterCrash(dir: DataDir, codec: Codec, network: Allocator, ghost sys: System,
                         restored: DateTime, replayed: DateTime)
    returns (r: Result<StateInner, nat>)
    requires codec.Valid() && dir.snapshot == sys.snapshot
    requires dir.journal.Some? && Load(codec, dir.journal.value).0 == Ok(sys.journal)
    modifies dir`journal, network
    ensures r.Ok? && fresh(r.value) && r.value.ipam == network
    ensures IsSystem(r.value, Next(old(network.State()), sys, Crash(restored, replayed)), sys.journal)
    ensures r.value.journal.dir == dir
  {
    hide Recover, Load, Codec.Valid;
    r := LoadPersistentState(dir, codec, network, restored, replayed);
    StartRuns(r.value, old(network.State()), sys, old(dir.journal.value), restored, replayed);
  }

  /** A clean stop and the next start: the hook compacts the live state, and the
      new server runs the restarted system. */
  method StopAndStart(inner: StateInner, network: Allocator, ghost base: IpamState, ghost sys: System,
                      ghost before: seq<JournalOp>, restored: DateTime, replayed: DateTime)
    returns (r: Result<StateInner, nat>)
    requires IsSystem(inner, sys, before) && network.State() == base && network != inner.ipam
    modifies inner.journal.dir, network
    ensures r.Ok? && fresh(r.value)
    ensures IsSystem(r.value, Next(base, sys, Restart(restored, replayed)), [])
  {
    hide Recover, Codec.Valid;
    var dir, codec := inner.journal.dir, inner.journal.codec;
    var _ := Compact(dir, inner.View());
    EmptyFileHolds(codec);
    r := StartAfterCrash(dir, codec, network, System(sys.live, Some(sys.live), [], sys.live), restored, replayed);
  }

  lemma EmptyFileHolds(codec: Codec)
    ensures Load(codec, []) == (Ok([]), [])
  {
  }

  /** A process that dies after the rename of the snapshot leaves the directory a
      plain crash would leave with that snapshot. */
  lemma CompactionCrashIsCrash(base: IpamState, sys: System, restored: DateTime, replayed: DateTime)
    ensures Next(base, sys, CrashCompacting(restored, replayed))
            == Next(base, sys.(snapshot := Some(sys.live)), Crash(restored, replayed))
  {
  }

  /** The hook dies between the rename and the truncation, and the next start replays
      the whole journal on the new snapshot. */
  method DieCompactingAndStart(inner: StateInner, network: Allocator, ghost base: IpamState, ghost sys: System,
                               ghost before: seq<JournalOp>, restored: DateTime, replayed: DateTime)
    returns (r: Result<StateInner, nat>)
    requires IsSystem(inner, sys, before) && network.State() == base && network != inner.ipam
    modifies inner.journal.dir, network
    ensures r.Ok? && fresh(r.value)
    ensures IsSystem(r.value, Next(base, sys, CrashCompacting(restored, replayed)), sys.journal)
  {
    hide Recover, Codec.Valid, Holds, Load;
    var dir, codec := inner.journal.dir, inner.journal.codec;
    FileHoldsLog(inner, sys, before);
    HeldFileLoads(codec, dir.journal.value, sys.journal);
    dir.snapshot := Some(inner.View());
    CompactionCrashIsCrash(base, sys, restored, replayed);
    r := StartAfterCrash(dir, codec, network, sys.(snapshot := Some(sys.live)), restored, replayed);
  }

  lemma HeldFileLoads(codec: Codec, file: seq<Byte>, ops: seq<JournalOp>)
    requires Holds(codec, file, ops)
    ensures Load(codec, file).0 == Ok(ops)
  {
  }
}
