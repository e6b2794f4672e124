/** Crashes at the level of bytes. */
module CrashPoints {
  import opened Types
  import opened Ipam
  import opened Durable
  import opened Accounting
  import opened Invariants
  import opened Runs
  import opened Compaction
  import opened Recovery
  import opened JournalFile

  // ---------------------------------------------------------------------
  // A crash at any byte while an event is journaled
  // ---------------------------------------------------------------------

  lemma AgreementErased(r: DurableState, s: DurableState)
    requires r.Erased() == s.Erased() && Agreement(r)
    ensures Agreement(s)
  {
    SameErasedParts(r, s);
  }

  lemma RecoverPrefix(base: IpamState, sys: System, ops: seq<JournalOp>, after: DurableState,
                      restored: DateTime, replayed: DateTime)
    requires Consistent(base, sys) && Replays(sys.live, ops, after)
    ensures Recover(base, sys.snapshot, sys.journal + ops, restored, replayed).Erased() == after.Erased()
  {
    hide Recounted, Invariant, LedTo;
    var start := Loaded(base, sys.snapshot, restored);
    ReplaysConcat(Loaded(base, sys.snapshot, 0), sys.journal, sys.live, ops, after);
    LoadedErased(base, sys.snapshot, restored, 0);
    ApplyAllRespectsErasure(start, Loaded(base, sys.snapshot, 0), sys.journal + ops, replayed, 0);
    RecountErasesNothing(ApplyAll(start, sys.journal + ops, replayed));
  }

  /** The file holds the journal of a consistent system and the process dies
      after `cut` bytes of what event `e` journals. The next start succeeds. It
      finds the state before the event or the state after it, unless the cut
      separates the two operations of the group: then tasks and addresses
      disagree, while the allocator is still well formed. */
  lemma CrashDuringEvent(base: IpamState, sys: System, codec: Codec, file: seq<Byte>, e: Event, cut: nat,
                         restored: DateTime, replayed: DateTime)
    requires Consistent(base, sys) && codec.Valid() && Holds(codec, file, sys.journal) && Allowed(sys.live, e)
    requires cut <= |codec.Serialize(Step(sys.live, e).1)|
    ensures var (after, ops) := Step(sys.live, e);
            var k := Landed(codec, ops, cut);
            k <= |ops| &&
            var r := Recover(base, sys.snapshot, sys.journal + ops[..k], restored, replayed);
            && Load(codec, file + codec.Serialize(ops)[..cut]).0 == Ok(sys.journal + ops[..k])
            && (k == 0 ==> r.Erased() == sys.live.Erased())
            && (k == |ops| ==> r.Erased() == after.Erased())
            && (0 < k < |ops| ==> !Agreement(r))
            && r.ipam.WellFormed()
  {
    hide Recover, Step, Allowed, Load, Holds, LedTo, Agreement;
    var (after, ops) := Step(sys.live, e);
    CrashAtAnyByte(codec, file, sys.journal, ops, cut);
    var k := Landed(codec, ops, cut);
    var landed := ApplyAll(sys.live, ops[..k], 0);
    RecoverPrefix(base, sys, ops[..k], landed, restored, replayed);
    var r := Recover(base, sys.snapshot, sys.journal + ops[..k], restored, replayed);
    AnyReplayKeepsIpam(sys.live, ops[..k], 0);
    SameErasedParts(r, landed);
    StepRefines(sys.live, e);
    assert ops[..|ops|] == ops;
    if 0 < k < |ops| {
      TornGroupDisagrees(sys.live, e);
      assert ops[..k] == [ops[0]];
      ApplySingle(sys.live, ops[0], 0);
      if Agreement(r) {
        AgreementErased(r, landed);
        assert false;
      }
    }
  }

  /** Whatever byte the crash hits, the start finds the system a torn group leaves
      behind: what holds after any `Tear` holds after any cut. */
  lemma CutIsTear(base: IpamState, sys: System, codec: Codec, file: seq<Byte>, e: Event, cut: nat,
                  restored: DateTime, replayed: DateTime)
    requires codec.Valid() && Holds(codec, file, sys.journal)
    requires cut <= |codec.Serialize(Step(sys.live, e).1)|
    ensures var ops := Step(sys.live, e).1;
            var sys' := Next(base, sys, Tear(e, Landed(codec, ops, cut), restored, replayed));
            var (loaded, repaired) := Load(codec, file + codec.Serialize(ops)[..cut]);
            && loaded == Ok(sys'.journal) && Holds(codec, repaired, sys'.journal)
            && sys'.live == Recover(base, sys.snapshot, sys'.journal, restored, replayed)
  {
    hide Recover, Step, Load, Codec.Valid;
    var ops := Step(sys.live, e).1;
    CrashAtAnyByte(codec, file, sys.journal, ops, cut);
    var k := Landed(codec, ops, cut);
    assert ops[..k] == Kept(ops, k);
    SerializeHolds(codec, file, sys.journal, ops[..k]);
  }
}
