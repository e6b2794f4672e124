/** Exactly when a crash between the rename of a snapshot and the truncation of
    the journal is harmless. */
module CompactionExact {
  import opened Types
  import opened Ipam
  import opened Durable
  import opened Invariants
  import opened Runs
  import opened Compaction

  /** From operation `i` on, the journal neither gives `t` an address nor takes
      one from it. */
  ghost predicate Settled(ops: seq<JournalOp>, i: int, t: TaskId) {
    !AllocatedAfter(ops, i - 1, t) && !ReleasedAfter(ops, i - 1, t)
  }

  /** Replayed on `z`, every allocation that is never given back returns the
      address the journal recorded for it. */
  ghost predicate SettledReturnRecorded(z: DurableState, ops: seq<JournalOp>) {
    forall i | 0 <= i < |ops| && ops[i].IpamAllocate? && Settled(ops, i + 1, ops[i].taskId) ::
      ReturnsRecordedAt(z, ops, i)
  }

  /** What is settled once more is journaled was settled before. */
  lemma SettledInPrefix(ops: seq<JournalOp>, more: seq<JournalOp>, i: int, t: TaskId)
    requires Settled(ops + more, i, t)
    ensures Settled(ops, i, t)
  {
    forall j | i - 1 < j < |ops| && 0 <= j
      ensures !(ops[j].IpamAllocate? && ops[j].taskId == t) && ops[j] != IpamRelease(t)
    {
      assert (ops + more)[j] == ops[j];
    }
  }

  lemma SettledConcat(s: DurableState, ops: seq<JournalOp>, s1: DurableState, more: seq<JournalOp>)
    requires Replays(s, ops, s1) && SettledReturnRecorded(s, ops) && ReturnsRecorded(s1, more)
    ensures SettledReturnRecorded(s, ops + more)
  {
    hide ReturnsRecordedAt, Replays, Settled;
    var all := ops + more;
    forall i | 0 <= i < |all| && all[i].IpamAllocate? && Settled(all, i + 1, all[i].taskId)
      ensures ReturnsRecordedAt(s, all, i)
    {
      if i < |ops| {
        SettledInPrefix(ops, more, i + 1, ops[i].taskId);
        RecordedEarlier(s, ops, more, i);
      } else {
        RecordedLater(s, ops, s1, more, i - |ops|);
      }
    }
  }

  /** What the journal does not carry has no say in the addresses a replay
      gives. */
  lemma RecordedErased(s: DurableState, s': DurableState, ops: seq<JournalOp>, i: nat)
    requires s.Erased() == s'.Erased() && i < |ops| && ops[i].IpamAllocate?
    ensures ReturnsRecordedAt(s, ops, i) <==> ReturnsRecordedAt(s', ops, i)
  {
    hide ApplyAll, IpamState.Allocate;
    ApplyAllRespectsErasure(s, s', ops[..i], 0, 0);
    SameErasedParts(ApplyAll(s, ops[..i], 0), ApplyAll(s', ops[..i], 0));
  }

  lemma SettledErased(s: DurableState, s': DurableState, ops: seq<JournalOp>)
    requires s.Erased() == s'.Erased()
    ensures SettledReturnRecorded(s, ops) <==> SettledReturnRecorded(s', ops)
    ensures ReturnsRecorded(s, ops) <==> ReturnsRecorded(s', ops)
  {
    hide ReturnsRecordedAt, Settled;
    forall i | 0 <= i < |ops| && ops[i].IpamAllocate?
      ensures ReturnsRecordedAt(s, ops, i) <==> ReturnsRecordedAt(s', ops, i)
    {
      RecordedErased(s, s', ops, i);
    }
  }

  ghost predicate OpsFit(origin: DurableState, ops: seq<JournalOp>, z: DurableState) {
    Fits(origin, ops, z) && HeldFits(ops, z) && Agreement(z)
  }

  /** No operation that fits a state in which `t` holds an address makes `t`
      terminal. */
  lemma NotFinished(origin: DurableState, ops: seq<JournalOp>, z: DurableState, i: nat, t: TaskId)
    requires OpsFit(origin, ops, z) && i < |ops| && t in z.ipam.held
    ensures !(ops[i].SetTaskState? && ops[i].taskId == t && ops[i].state.IsTerminal())
  {
    hide TasksKept;
    assert TaskAgrees(t, z.tasks[t], z.nodes.Keys, z.ipam);
    assert OpFits(ApplyAll(origin, ops[..i], 0), ops[i], z);
  }

  lemma PrefixStep(s: DurableState, ops: seq<JournalOp>, i: nat)
    requires i < |ops|
    ensures ApplyAll(s, ops[..i + 1], 0) == ApplyOne(ApplyAll(s, ops[..i], 0), ops[i], 0)
  {
    assert ops[..i + 1][..i] == ops[..i];
  }

  /** Once settled a task keeps what it holds, whatever state the journal is
      replayed on. */
  lemma {:induction false} SettledKeeps(s: DurableState, origin: DurableState, ops: seq<JournalOp>, z: DurableState,
                                        i: nat, j: nat, t: TaskId)
    requires OpsFit(origin, ops, z) && t in z.ipam.held && i <= j <= |ops| && Settled(ops, i, t)
    ensures var a, b := ApplyAll(s, ops[..i], 0).ipam.held, ApplyAll(s, ops[..j], 0).ipam.held;
            (t in a <==> t in b) && (t in a ==> a[t] == b[t])
    decreases j - i
  {
    hide OpsFit, ApplyAll, ApplyOne;
    if i < j {
      SettledKeeps(s, origin, ops, z, i, j - 1, t);
      PrefixStep(s, ops, j - 1);
      NotFinished(origin, ops, z, j - 1, t);
      HeldEffect(ApplyAll(s, ops[..j - 1], 0), ops[j - 1], t);
      assert ops[j - 1].IpamAllocate? && ops[j - 1].taskId == t ==> AllocatedAfter(ops, i - 1, t);
      assert ops[j - 1] == IpamRelease(t) ==> ReleasedAfter(ops, i - 1, t);
    }
  }

  lemma AllocateEffect(y: DurableState, op: JournalOp)
    requires op.IpamAllocate?
    ensures var ip := y.ipam.Allocate(op.nodeId, op.taskId).0;
            var held := ApplyOne(y, op, 0).ipam.held;
            (ip.Some? <==> op.taskId in held) && (ip.Some? ==> held[op.taskId] == ip.value)
  {
  }

  lemma SettledIsHeld(ops: seq<JournalOp>, z: DurableState, i: nat)
    requires HeldFits(ops, z) && i < |ops| && ops[i].IpamAllocate? && Settled(ops, i + 1, ops[i].taskId)
    ensures ops[i].taskId in z.ipam.held
  {
  }

  /** Replayed on `s`, a settled allocation decides what the task holds in the
      end. */
  lemma SettledDecides(s: DurableState, origin: DurableState, ops: seq<JournalOp>, z: DurableState, i: nat)
    requires OpsFit(origin, ops, z) && i < |ops| && ops[i].IpamAllocate? && Settled(ops, i + 1, ops[i].taskId)
    ensures var t, end := ops[i].taskId, ApplyAll(s, ops, 0).ipam.held;
            var ip := ApplyAll(s, ops[..i], 0).ipam.Allocate(ops[i].nodeId, t).0;
            (ip.Some? <==> t in end) && (ip.Some? ==> end[t] == ip.value)
  {
    hide ApplyAll, ApplyOne, IpamState.Allocate, Fits;
    SettledIsHeld(ops, z, i);
    PrefixStep(s, ops, i);
    AllocateEffect(ApplyAll(s, ops[..i], 0), ops[i]);
    SettledKeeps(s, origin, ops, z, i + 1, |ops|, ops[i].taskId);
    assert ops[..|ops|] == ops;
  }

  /** A settled allocation recorded the address the task ended up with. */
  lemma SettledRecord(origin: DurableState, ops: seq<JournalOp>, z: DurableState, i: nat)
    requires OpsFit(origin, ops, z) && Replays(origin, ops, z) && ReturnsRecorded(origin, ops)
    requires i < |ops| && ops[i].IpamAllocate? && Settled(ops, i + 1, ops[i].taskId)
    ensures ops[i].taskId in z.ipam.held && z.ipam.held[ops[i].taskId] == ops[i].ip
  {
    hide OpsFit, ApplyAll, IpamState.Allocate, Settled;
    assert ReturnsRecordedAt(origin, ops, i);
    SettledDecides(origin, origin, ops, z, i);
    SameErasedParts(ApplyAll(origin, ops, 0), z);
  }

  /** After `i` operations: what is settled is as in the final state, and what
      the final state does not hold is still to be released. */
  ghost predicate OnTrack(ops: seq<JournalOp>, i: nat, y: DurableState, z: DurableState) {
    && (forall t | t in z.ipam.held && Settled(ops, i, t) :: t in y.ipam.held && y.ipam.held[t] == z.ipam.held[t])
    && (forall t | t in y.ipam.held && t !in z.ipam.held :: ReleasedAfter(ops, i - 1, t))
  }

  lemma SettledEarlier(ops: seq<JournalOp>, i: nat, t: TaskId)
    requires i < |ops| && Settled(ops, i + 1, t)
    requires !(ops[i].IpamAllocate? && ops[i].taskId == t) && ops[i] != IpamRelease(t)
    ensures Settled(ops, i, t)
  {
    forall j | i - 1 < j < |ops| ensures !(ops[j].IpamAllocate? && ops[j].taskId == t) && ops[j] != IpamRelease(t) {
      assert j != i ==> i < j;
    }
  }

  lemma OnTrackStep(origin: DurableState, ops: seq<JournalOp>, z: DurableState, i: nat)
    requires OpsFit(origin, ops, z) && Replays(origin, ops, z) && ReturnsRecorded(origin, ops)
    requires SettledReturnRecorded(z, ops)
    requires i < |ops| && OnTrack(ops, i, ApplyAll(z, ops[..i], 0), z)
    ensures OnTrack(ops, i + 1, ApplyAll(z, ops[..i + 1], 0), z)
  {
    hide ApplyAll, ApplyOne, Fits, Replays, ReturnsRecorded, IpamState.Allocate, Agreement;
    var y, y' := ApplyAll(z, ops[..i], 0), ApplyAll(z, ops[..i + 1], 0);
    PrefixStep(z, ops, i);
    forall t | t in z.ipam.held && Settled(ops, i + 1, t)
      ensures t in y'.ipam.held && y'.ipam.held[t] == z.ipam.held[t]
    {
      HeldEffect(y, ops[i], t);
      NotFinished(origin, ops, z, i, t);
      if ops[i].IpamAllocate? && ops[i].taskId == t {
        SettledRecord(origin, ops, z, i);
        AllocateEffect(y, ops[i]);
        assert ReturnsRecordedAt(z, ops, i);
      } else {
        assert ops[i] == IpamRelease(t) ==> AllocatedAfter(ops, i, t);
        SettledEarlier(ops, i, t);
      }
    }
    forall t | t in y'.ipam.held && t !in z.ipam.held ensures ReleasedAfter(ops, i, t) {
      HeldEffect(y, ops[i], t);
      if t in y.ipam.held {
        var j :| i - 1 < j < |ops| && 0 <= j && ops[j] == IpamRelease(t);
        assert j != i;
      }
    }
  }

  lemma {:induction false} AllOnTrack(origin: DurableState, ops: seq<JournalOp>, z: DurableState, i: nat)
    requires OpsFit(origin, ops, z) && Replays(origin, ops, z) && ReturnsRecorded(origin, ops)
    requires SettledReturnRecorded(z, ops) && i <= |ops|
    ensures OnTrack(ops, i, ApplyAll(z, ops[..i], 0), z)
  {
    hide OpsFit, Replays, ReturnsRecorded, SettledReturnRecorded;
    if i == 0 {
      assert ops[..0] == [];
    } else {
      AllOnTrack(origin, ops, z, i - 1);
      OnTrackStep(origin, ops, z, i - 1);
    }
  }

  /** The second replay changes nothing exactly when every allocation that is
      never given back returns the address recorded for it: the debug assertion
      of the replay, for those operations, decides whether the crash is
      harmless. */
  lemma SecondReplayIsIdentityIff(origin: DurableState, ops: seq<JournalOp>, z: DurableState)
    requires LedTo(origin, ops, z) && Agreement(z) && ReturnsRecorded(origin, ops)
    ensures Replays(z, ops, z) <==> SettledReturnRecorded(z, ops)
  {
    hide ApplyAll, Fits, Agreement, ReturnsRecorded, IpamState.Allocate, Settled;
    var y := ApplyAll(z, ops, 0);
    assert ops[..|ops|] == ops;
    if SettledReturnRecorded(z, ops) {
      SecondReplayMovesOnlyAddresses(origin, ops, z);
      AllOnTrack(origin, ops, z, |ops|);
      AllSettledAtEnd(ops);
      assert y.ipam.held == z.ipam.held;
      RecordsAndAddresses(y, z);
    }
    if Replays(z, ops, z) {
      SameErasedParts(y, z);
      forall i | 0 <= i < |ops| && ops[i].IpamAllocate? && Settled(ops, i + 1, ops[i].taskId)
        ensures ReturnsRecordedAt(z, ops, i)
      {
        SettledRecord(origin, ops, z, i);
        SettledDecides(z, origin, ops, z, i);
      }
    }
  }

  lemma AllSettledAtEnd(ops: seq<JournalOp>)
    ensures forall t :: Settled(ops, |ops|, t) && !ReleasedAfter(ops, |ops| - 1, t)
  {
  }

  /** For the journal of any live run: a crash between the rename and the
      truncation is harmless exactly when every allocation that is never given
      back returns its recorded address. */
  lemma CompactionCrashHarmlessIff(s: DurableState, events: seq<Event>)
    requires Invariant(s) && ValidRun(s, events)
    ensures var (z, ops) := Run(s, events);
            Replays(z, ops, z) <==> SettledReturnRecorded(z, ops)
  {
    hide Invariant, Run, ValidRun, Replays, LedTo, SettledReturnRecorded, ReturnsRecorded;
    var (z, ops) := Run(s, events);
    RunRefines(s, events);
    RunLedTo(s, events);
    RunReturnsRecorded(s, events);
    InvariantParts(z);
    SecondReplayIsIdentityIff(s, ops, z);
  }

  // ---------------------------------------------------------------------
  // A condition read off the journal
  // ---------------------------------------------------------------------

  ghost predicate ReleasedBefore(ops: seq<JournalOp>, i: int, t: TaskId) {
    exists j :: 0 <= j < i && j < |ops| && ops[j] == IpamRelease(t)
  }

  /** The journal gives `u` its last address before operation `i`. */
  ghost predicate SettledBefore(ops: seq<JournalOp>, i: int, u: TaskId) {
    exists k :: 0 <= k < i && k < |ops| && SettlesAt(ops, k, u)
  }

  ghost predicate SettlesAt(ops: seq<JournalOp>, k: nat, u: TaskId)
    requires k < |ops|
  {
    ops[k].IpamAllocate? && ops[k].taskId == u && Settled(ops, k + 1, u)
  }

  /** Before operation `i` task `u` has the address it ends with: nothing was taken
      from it yet, or it was given its last address already. */
  ghost predicate Firm(ops: seq<JournalOp>, z: DurableState, i: int, u: TaskId) {
    u in z.ipam.held && (!ReleasedBefore(ops, i, u) || SettledBefore(ops, i, u))
  }

  /** Another host of the same /24. */
  function Sibling(ip: Ip, h: Byte): Ip {
    Ip(ip.a, ip.b, ip.c, h)
  }

  ghost predicate FirmlyHeld(ops: seq<JournalOp>, z: DurableState, i: int, ip: Ip) {
    exists u :: u in z.ipam.held && z.ipam.held[u] == ip && Firm(ops, z, i, u)
  }

  /** Before operation `i` every lower host of the address it records is firmly
      held. */
  ghost predicate LowerHostsFirm(ops: seq<JournalOp>, z: DurableState, i: nat)
    requires i < |ops| && ops[i].IpamAllocate?
  {
    forall h: Byte | FIRST_HOST <= h < ops[i].ip.d :: FirmlyHeld(ops, z, i, Sibling(ops[i].ip, h))
  }

  ghost predicate IsTaken(s: IpamState, ip: Ip) {
    exists u :: u in s.held && s.held[u] == ip
  }

  /** Operation `k` allocates for another task on the node of operation `i`. */
  predicate Intrudes(ops: seq<JournalOp>, k: nat, i: nat)
    requires k < |ops| && i < |ops| && ops[i].IpamAllocate?
  {
    ops[k].IpamAllocate? && ops[k].nodeId == ops[i].nodeId && ops[k].taskId != ops[i].taskId
  }

  /** While the address of operation `i` may be free, others get on that node what
      they end with. */
  ghost predicate NoIntruder(ops: seq<JournalOp>, z: DurableState, i: nat)
    requires i < |ops| && ops[i].IpamAllocate?
  {
    forall k | 0 <= k < i && ReleasedBefore(ops, k, ops[i].taskId) && Intrudes(ops, k, i) ::
      Firm(ops, z, k + 1, ops[k].taskId)
  }

  /** The task of operation `i` was released an address at `j` and given none
      since. */
  ghost predicate GoneFrom(ops: seq<JournalOp>, j: nat, i: nat) {
    && j < i < |ops| && ops[i].IpamAllocate? && ops[j] == IpamRelease(ops[i].taskId)
    && (forall k | j < k < i && ops[k].IpamAllocate? :: ops[k].taskId != ops[i].taskId)
  }

  /** Every allocation that is never given back is the first of its task, or finds
      the lower hosts firmly held and its own host free. */
  ghost predicate SafeReallocations(ops: seq<JournalOp>, z: DurableState) {
    forall i | 0 <= i < |ops| && ops[i].IpamAllocate? && Settled(ops, i + 1, ops[i].taskId) ::
      || !ReleasedBefore(ops, i, ops[i].taskId)
      || (LowerHostsFirm(ops, z, i) && NoIntruder(ops, z, i) && exists j: nat :: GoneFrom(ops, j, i))
  }

  /** A journal without reallocation is a special case. */
  lemma NoReallocationIsSafe(ops: seq<JournalOp>, z: DurableState)
    requires NoReallocation(ops)
    ensures SafeReallocations(ops, z)
  {
    forall i | 0 <= i < |ops| && ops[i].IpamAllocate? ensures !ReleasedBefore(ops, i, ops[i].taskId) {
      forall j | 0 <= j < i ensures ops[j] != IpamRelease(ops[i].taskId) {
        assert AllocatedAfter(ops, j, ops[i].taskId);
      }
    }
  }

  /** What is not released keeps its address through the second replay. */
  lemma {:induction false} NotReleasedKeeps(origin: DurableState, ops: seq<JournalOp>, z: DurableState, i: nat,
                                            t: TaskId)
    requires OpsFit(origin, ops, z) && t in z.ipam.held && i <= |ops|
    requires forall k | 0 <= k < i :: ops[k] != IpamRelease(t)
    ensures var held := ApplyAll(z, ops[..i], 0).ipam.held; t in held && held[t] == z.ipam.held[t]
  {
    hide OpsFit, ApplyAll, ApplyOne;
    if i == 0 {
      assert ops[..0] == [];
      ApplyNone(z, 0);
    } else {
      NotReleasedKeeps(origin, ops, z, i - 1, t);
      PrefixStep(z, ops, i - 1);
      NotFinished(origin, ops, z, i - 1, t);
      HeldEffect(ApplyAll(z, ops[..i - 1], 0), ops[i - 1], t);
    }
  }

  /** The settled allocations before operation `i` return what they recorded. */
  ghost predicate RecordedUpTo(ops: seq<JournalOp>, z: DurableState, i: nat) {
    forall k | 0 <= k < i && k < |ops| && ops[k].IpamAllocate? && Settled(ops, k + 1, ops[k].taskId) ::
      ReturnsRecordedAt(z, ops, k)
  }

  ghost predicate JournalFits(origin: DurableState, ops: seq<JournalOp>, z: DurableState) {
    OpsFit(origin, ops, z) && Replays(origin, ops, z) && ReturnsRecorded(origin, ops) && z.ipam.WellFormed()
  }

  /** What is firmly held is held in the second replay. */
  lemma FirmHolds(origin: DurableState, ops: seq<JournalOp>, z: DurableState, i: nat, u: TaskId)
    requires JournalFits(origin, ops, z) && RecordedUpTo(ops, z, i) && i <= |ops| && Firm(ops, z, i, u)
    ensures var held := ApplyAll(z, ops[..i], 0).ipam.held; u in held && held[u] == z.ipam.held[u]
  {
    hide OpsFit, ApplyAll, ApplyOne, Replays, ReturnsRecorded, IpamState.WellFormed, IpamState.Allocate, Settled;
    if !ReleasedBefore(ops, i, u) {
      NotReleasedKeeps(origin, ops, z, i, u);
    } else {
      var k :| 0 <= k < i && k < |ops| && SettlesAt(ops, k, u);
      SettledRecord(origin, ops, z, k);
      assert ReturnsRecordedAt(z, ops, k);
      PrefixStep(z, ops, k);
      AllocateEffect(ApplyAll(z, ops[..k], 0), ops[k]);
      SettledKeeps(z, origin, ops, z, k + 1, i, u);
    }
  }

  ghost predicate OthersAvoid(y: IpamState, t: TaskId, ip: Ip) {
    forall w | w in y.held && w != t :: y.held[w] != ip
  }

  /** Once released the address `t` ends with is given to nobody else. */
  lemma {:induction false} StaysFree(origin: DurableState, ops: seq<JournalOp>, z: DurableState, i: nat, k: nat, ip: Ip)
    requires JournalFits(origin, ops, z) && RecordedUpTo(ops, z, i) && k <= i < |ops| && ops[i].IpamAllocate?
    requires NoIntruder(ops, z, i) && ReleasedBefore(ops, k, ops[i].taskId)
    requires ops[i].taskId in z.ipam.held && z.ipam.held[ops[i].taskId] == ip
    requires ops[i].nodeId in z.ipam.subnets && z.ipam.subnets[ops[i].nodeId] == ip.c
    ensures OthersAvoid(ApplyAll(z, ops[..k], 0).ipam, ops[i].taskId, ip)
    decreases k
  {
    hide OpsFit, ApplyAll, ApplyOne, IpamState.WellFormed, Replays, ReturnsRecorded, RecordedUpTo, NoIntruder, Firm;
    var t, y := ops[i].taskId, ApplyAll(z, ops[..k - 1], 0);
    PrefixStep(z, ops, k - 1);
    ReplayIsWellFormed(origin, ops, z, k - 1);
    if ReleasedBefore(ops, k - 1, t) {
      StaysFree(origin, ops, z, i, k - 1, ip);
      StepAvoids(origin, ops, z, i, k - 1, ip);
    } else {
      assert ops[k - 1] == IpamRelease(t);
      NotReleasedKeeps(origin, ops, z, k - 1, t);
      forall w | w in ApplyAll(z, ops[..k], 0).ipam.held && w != t ensures ApplyAll(z, ops[..k], 0).ipam.held[w] != ip {
        HeldEffect(y, ops[k - 1], w);
        HeldOnce(y.ipam, t, w);
      }
    }
  }

  lemma StepAvoids(origin: DurableState, ops: seq<JournalOp>, z: DurableState, i: nat, k: nat, ip: Ip)
    requires JournalFits(origin, ops, z) && RecordedUpTo(ops, z, i) && k < i < |ops| && ops[i].IpamAllocate?
    requires NoIntruder(ops, z, i) && ReleasedBefore(ops, k, ops[i].taskId)
    requires ops[i].taskId in z.ipam.held && z.ipam.held[ops[i].taskId] == ip
    requires ops[i].nodeId in z.ipam.subnets && z.ipam.subnets[ops[i].nodeId] == ip.c
    requires OthersAvoid(ApplyAll(z, ops[..k], 0).ipam, ops[i].taskId, ip)
    ensures OthersAvoid(ApplyAll(z, ops[..k + 1], 0).ipam, ops[i].taskId, ip)
  {
    hide OpsFit, ApplyAll, ApplyOne, IpamState.WellFormed, Replays, ReturnsRecorded, RecordedUpTo, Firm, Settled;
    var t, y, y' := ops[i].taskId, ApplyAll(z, ops[..k], 0), ApplyAll(z, ops[..k + 1], 0);
    PrefixStep(z, ops, k);
    ReplayIsWellFormed(origin, ops, z, k);
    forall w | w in y'.ipam.held && w != t ensures y'.ipam.held[w] != ip {
      HeldEffect(y, ops[k], w);
      if w !in y.ipam.held {
        if ops[k].nodeId == ops[i].nodeId {
          assert Intrudes(ops, k, i);
          RecordedUpToLess(ops, z, i, k + 1);
          FirmHolds(origin, ops, z, k + 1, w);
          FirmIsHeld(ops, z, k + 1, w);
          HeldOnce(z.ipam, t, w);
        } else {
          OctetsApart(z.ipam, ops[k].nodeId, ops[i].nodeId, origin, ops, z, k);
          AllocatedInSubnet(y, ops[k]);
        }
      }
    }
  }

  lemma RecordedUpToLess(ops: seq<JournalOp>, z: DurableState, i: nat, k: nat)
    requires RecordedUpTo(ops, z, i) && k <= i
    ensures RecordedUpTo(ops, z, k)
  {
  }

  lemma FirmIsHeld(ops: seq<JournalOp>, z: DurableState, i: int, u: TaskId)
    requires Firm(ops, z, i, u)
    ensures u in z.ipam.held
  {
  }

  lemma HeldOnce(s: IpamState, t: TaskId, w: TaskId)
    requires s.WellFormed() && t in s.held && w in s.held && w != t
    ensures s.held[w] != s.held[t]
  {
  }

  lemma OctetsApart(s: IpamState, m: NodeId, n: NodeId, origin: DurableState, ops: seq<JournalOp>, z: DurableState,
                    k: nat)
    requires s == z.ipam && s.WellFormed() && OpsFit(origin, ops, z) && k < |ops| && ops[k].IpamAllocate?
    requires m == ops[k].nodeId && n in s.subnets && m != n
    ensures m in s.subnets && s.subnets[m] != s.subnets[n]
  {
  }

  lemma AllocatedInSubnet(y: DurableState, op: JournalOp)
    requires op.IpamAllocate? && y.ipam.WellFormed() && op.nodeId in y.ipam.subnets && op.taskId !in y.ipam.held
    ensures var held := ApplyOne(y, op, 0).ipam.held;
            op.taskId in held ==> held[op.taskId].c == y.ipam.subnets[op.nodeId]
  {
  }

  lemma {:induction false} ReplayIsWellFormed(origin: DurableState, ops: seq<JournalOp>, z: DurableState, k: nat)
    requires OpsFit(origin, ops, z) && z.ipam.WellFormed() && k <= |ops|
    ensures var y := ApplyAll(z, ops[..k], 0).ipam; y.WellFormed() && y == z.ipam.(held := y.held)
  {
    hide OpsFit, ApplyAll, ApplyOne, IpamState.WellFormed;
    if k == 0 {
      assert ops[..0] == [];
      ApplyNone(z, 0);
    } else {
      ReplayIsWellFormed(origin, ops, z, k - 1);
      PrefixStep(z, ops, k - 1);
      OctetOwned(origin, ops, z, k - 1);
      OctetsUntouched(ApplyAll(z, ops[..k - 1], 0), ops[k - 1]);
      OneKeepsWellFormed(ApplyAll(z, ops[..k - 1], 0), ops[k - 1], 0);
    }
  }

  lemma OctetOwned(origin: DurableState, ops: seq<JournalOp>, z: DurableState, k: nat)
    requires OpsFit(origin, ops, z) && k < |ops|
    ensures ops[k].IpamAllocate? ==> ops[k].nodeId in z.ipam.subnets
  {
  }

  lemma OneKeepsWellFormed(y: DurableState, op: JournalOp, now: DateTime)
    requires y.ipam.WellFormed()
    ensures ApplyOne(y, op, now).ipam.WellFormed()
  {
    hide IpamState.WellFormed, InsertTasks;
    match op
    case IpamAllocate(n, t, _) => AllocateKeeps(y.ipam, n, t);
    case IpamRelease(t) => ReleaseKeeps(y.ipam, t);
    case SetTaskState(t, _, _) => ReleaseKeeps(y.ipam, t);
    case _ =>
  }

  /** With the lower hosts taken and its own host free a node gives that host. */
  lemma LowestIsGiven(s: IpamState, n: NodeId, t: TaskId, ip: Ip)
    requires n in s.subnets && t !in s.held && s.InSubnet(ip, s.subnets[n]) && FIRST_HOST <= ip.d <= LAST_HOST
    requires forall w | w in s.held :: s.held[w] != ip
    requires forall h: Byte | FIRST_HOST <= h < ip.d :: IsTaken(s, Sibling(ip, h))
    ensures s.Allocate(n, t).0 == Some(ip)
  {
    var z := s.subnets[n];
    var taken := s.UsedHosts(z);
    forall h: Byte | FIRST_HOST <= h < ip.d ensures h in taken {
      assert IsTaken(s, Sibling(ip, h));
      var u :| u in s.held && s.held[u] == Sibling(ip, h);
      assert u in s.Holders(z);
    }
    assert forall w | w in s.Holders(z) :: s.held[w] == Sibling(ip, s.held[w].d);
    assert ip.d !in taken;
    var first := FirstFree(FIRST_HOST, LAST_HOST, taken);
    assert first == Some(ip.d);
  }

  /** A reallocation that finds its host free and the lower ones taken. */
  lemma SafeReturns(origin: DurableState, ops: seq<JournalOp>, z: DurableState, j: nat, i: nat)
    requires JournalFits(origin, ops, z) && origin.ipam.WellFormed() && RecordedUpTo(ops, z, i)
    requires GoneFrom(ops, j, i) && Settled(ops, i + 1, ops[i].taskId)
    requires LowerHostsFirm(ops, z, i) && NoIntruder(ops, z, i)
    ensures ReturnsRecordedAt(z, ops, i)
  {
    hide OpsFit, ApplyAll, ApplyOne, IpamState.Allocate, Settled, ReturnsRecorded, Replays, RecordedUpTo, NoIntruder,
         Firm;
    var t, n, ip, y := ops[i].taskId, ops[i].nodeId, ops[i].ip, ApplyAll(z, ops[..i], 0);
    SettledRecord(origin, ops, z, i);
    OwnSubnet(origin, ops, z, j, i);
    assert ReleasedBefore(ops, i, t);
    StaysFree(origin, ops, z, i, i, ip);
    ReplayIsWellFormed(origin, ops, z, i);
    GoneSince(z, ops, j, i, i);
    forall h: Byte | FIRST_HOST <= h < ip.d ensures IsTaken(y.ipam, Sibling(ip, h)) {
      assert FirmlyHeld(ops, z, i, Sibling(ip, h));
      var u :| u in z.ipam.held && z.ipam.held[u] == Sibling(ip, h) && Firm(ops, z, i, u);
      FirmHolds(origin, ops, z, i, u);
    }
    assert z.ipam.ValidAddress(z.ipam.held[t]);
    LowestIsGiven(y.ipam, n, t, ip);
  }

  /** Octets stay given out, whatever is replayed. */
  lemma {:induction false} OctetsPersist(s: DurableState, ops: seq<JournalOp>, i: nat, k: nat)
    requires s.ipam.WellFormed() && i <= k <= |ops|
    ensures var a, b := ApplyAll(s, ops[..i], 0).ipam, ApplyAll(s, ops[..k], 0).ipam;
            && a.WellFormed() && b.WellFormed()
            && a.base0 == b.base0 && a.base1 == b.base1
            && (forall n | n in a.subnets :: n in b.subnets && b.subnets[n] == a.subnets[n])
    decreases k
  {
    hide ApplyAll, ApplyOne, IpamState.WellFormed;
    if k == 0 {
      assert ops[..0] == [];
      ApplyNone(s, 0);
    } else {
      OctetsPersist(s, ops, if i < k then i else k - 1, k - 1);
      PrefixStep(s, ops, k - 1);
      OneKeepsWellFormed(ApplyAll(s, ops[..k - 1], 0), ops[k - 1], 0);
      OctetsKept(ApplyAll(s, ops[..k - 1], 0), ops[k - 1]);
    }
  }

  lemma OctetsKept(y: DurableState, op: JournalOp)
    requires y.ipam.WellFormed()
    ensures var a, b := y.ipam, ApplyOne(y, op, 0).ipam;
            && a.base0 == b.base0 && a.base1 == b.base1
            && (forall n | n in a.subnets :: n in b.subnets && b.subnets[n] == a.subnets[n])
  {
    hide IpamState.WellFormed, IpamState.Allocate, InsertTasks;
    if op.IpamAllocate? {
      AllocateKeeps(y.ipam, op.nodeId, op.taskId);
    }
  }

  /** An allocation for a task that held nothing recorded an address in the /24
      of its node. */
  lemma OwnSubnet(origin: DurableState, ops: seq<JournalOp>, z: DurableState, j: nat, i: nat)
    requires Replays(origin, ops, z) && ReturnsRecorded(origin, ops) && origin.ipam.WellFormed()
    requires GoneFrom(ops, j, i)
    ensures ops[i].nodeId in z.ipam.subnets && z.ipam.InSubnet(ops[i].ip, z.ipam.subnets[ops[i].nodeId])
  {
    hide ApplyAll, IpamState.Allocate, IpamState.WellFormed;
    var x := ApplyAll(origin, ops[..i], 0);
    GoneSince(origin, ops, j, i, i);
    OctetsPersist(origin, ops, i, |ops|);
    OctetsPersist(origin, ops, i + 1, |ops|);
    PrefixStep(origin, ops, i);
    assert ReturnsRecordedAt(origin, ops, i);
    AllocateKeeps(x.ipam, ops[i].nodeId, ops[i].taskId);
    assert ops[..|ops|] == ops;
    SameErasedParts(ApplyAll(origin, ops, 0), z);
  }

  /** Between its release and its next allocation a task holds nothing. */
  lemma {:induction false} GoneSince(z: DurableState, ops: seq<JournalOp>, j: nat, i: nat, k: nat)
    requires GoneFrom(ops, j, i) && j < k <= i
    ensures ops[i].taskId !in ApplyAll(z, ops[..k], 0).ipam.held
    decreases k - j
  {
    hide ApplyAll, ApplyOne;
    PrefixStep(z, ops, k - 1);
    HeldEffect(ApplyAll(z, ops[..k - 1], 0), ops[k - 1], ops[i].taskId);
    if k > j + 1 {
      GoneSince(z, ops, j, i, k - 1);
    }
  }

  /** Every settled allocation returns its recorded address, one after the
      other. */
  lemma {:induction false} SafeUpTo(origin: DurableState, ops: seq<JournalOp>, z: DurableState, i: nat)
    requires JournalFits(origin, ops, z) && origin.ipam.WellFormed() && SafeReallocations(ops, z) && i <= |ops|
    ensures RecordedUpTo(ops, z, i)
  {
    hide JournalFits, ApplyAll, IpamState.Allocate, IpamState.WellFormed, LowerHostsFirm, NoIntruder, Settled, GoneFrom;
    if i > 0 {
      SafeUpTo(origin, ops, z, i - 1);
      if ops[i - 1].IpamAllocate? && Settled(ops, i, ops[i - 1].taskId) {
        if !ReleasedBefore(ops, i - 1, ops[i - 1].taskId) {
          FirstReturns(origin, ops, z, i - 1);
        } else {
          var j: nat :| GoneFrom(ops, j, i - 1);
          SafeReturns(origin, ops, z, j, i - 1);
        }
      }
    }
  }

  lemma FirstReturns(origin: DurableState, ops: seq<JournalOp>, z: DurableState, i: nat)
    requires JournalFits(origin, ops, z) && i < |ops| && ops[i].IpamAllocate? && Settled(ops, i + 1, ops[i].taskId)
    requires !ReleasedBefore(ops, i, ops[i].taskId)
    ensures ReturnsRecordedAt(z, ops, i)
  {
    hide OpsFit, ApplyAll, IpamState.Allocate, IpamState.WellFormed, Replays, ReturnsRecorded, Settled;
    SettledRecord(origin, ops, z, i);
    NotReleasedKeeps(origin, ops, z, i, ops[i].taskId);
    HolderGetsItsAddress(ApplyAll(z, ops[..i], 0).ipam, ops[i].nodeId, ops[i].taskId);
  }

  /** Read off the journal and the state it led to: reallocations that find their
      host free and the lower ones firmly held make a compaction crash harmless,
      however often the task was moved and whatever was allocated in between. */
  lemma SafeReallocationsAreHarmless(s: DurableState, events: seq<Event>)
    requires Invariant(s) && ValidRun(s, events)
    ensures var (z, ops) := Run(s, events);
            SafeReallocations(ops, z) ==> SettledReturnRecorded(z, ops) && Replays(z, ops, z)
  {
    hide Invariant, Run, ValidRun, Replays, Fits, ReturnsRecorded, SafeReallocations, Settled;
    var (z, ops) := Run(s, events);
    RunRefines(s, events);
    RunLedTo(s, events);
    RunReturnsRecorded(s, events);
    InvariantParts(s);
    InvariantParts(z);
    CompactionCrashHarmlessIff(s, events);
    if SafeReallocations(ops, z) {
      SafeUpTo(s, ops, z, |ops|);
    }
  }

  lemma HolderGetsItsAddress(s: IpamState, n: NodeId, t: TaskId)
    requires t in s.held
    ensures s.Allocate(n, t).0 == Some(s.held[t])
  {
  }
}
