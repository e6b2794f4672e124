/** The snapshot audit: an observer samples one snapshot record and judges
    whether it went through legal transitions to a terminal state in time. */
module Shadow {
  import opened Types
  import opened Ipam
  import opened Durable
  import opened Soundness
  import opened Runs
  import opened Compaction
  import opened Recovery
  import opened Survival

  datatype Observation = Observation(
    state: Option<SnapshotState>,
    error: Option<string>,
    memFilePath: Option<string>,
    snapshotPath: Option<string>,
    observedAt: DateTime)
  {
    predicate IsOpen() {
      state.Some? && !state.value.IsTerminal()
    }
  }

  datatype Verdict = Agree | Stuck | Missing

  datatype ShadowOutput = ShadowOutput(verdict: Verdict, observations: seq<Observation>)

  predicate IsLegalTransition(from: SnapshotState, to: SnapshotState) {
    match from
    case Requested => true
    case InProgress => !to.Requested?
    case Done => to.Done?
    case SnapFailed => to.SnapFailed?
  }

  // ---------------------------------------------------------------------
  // The audit
  // ---------------------------------------------------------------------

  /** Every observed step is one the observer holds to be legal. */
  predicate AllLegal(states: seq<SnapshotState>) {
    forall i | 0 < i < |states| :: IsLegalTransition(states[i - 1], states[i])
  }

  predicate AnyMissing(observations: seq<Observation>) {
    exists i | 0 <= i < |observations| :: observations[i].state.None?
  }

  function StatesOf(observations: seq<Observation>): seq<SnapshotState>
    requires !AnyMissing(observations)
  {
    seq(|observations|, i requires 0 <= i < |observations| => observations[i].state.value)
  }

  function JudgeOf(observations: seq<Observation>): Verdict {
    if AnyMissing(observations) then Missing else
      var states := StatesOf(observations);
      if states != [] && states[|states| - 1].IsTerminal() && AllLegal(states) then Agree else Stuck
  }

  method Judge(observations: seq<Observation>) returns (verdict: Verdict)
    ensures verdict == JudgeOf(observations)
  {
    var states: seq<SnapshotState> := [];
    var k := 0;
    while k < |observations|
      invariant 0 <= k <= |observations|
      invariant forall i | 0 <= i < k :: observations[i].state.Some?
      invariant |states| == k && forall i | 0 <= i < k :: states[i] == observations[i].state.value
    {
      if observations[k].state.None? {
        return Missing;
      }
      states := states + [observations[k].state.value];
      k := k + 1;
    }
    assert states == StatesOf(observations);
    var legal := true;
    var i := 1;
    while i < |states|
      invariant 1 <= i
      invariant legal <==> forall j | 0 < j < i && j < |states| :: IsLegalTransition(states[j - 1], states[j])
    {
      if !IsLegalTransition(states[i - 1], states[i]) {
        legal := false;
        break;
      }
      i := i + 1;
    }
    verdict := if states != [] && states[|states| - 1].IsTerminal() && legal then Agree else Stuck;
  }

  /** The audit of `sample`: it stops at the first observation that is terminal
      or missing, after `maxPolls + 1` observations at the latest, and judges
      what it saw. */
  ghost predicate IsAudit(sample: nat -> Observation, maxPolls: nat, output: ShadowOutput) {
    var n := |output.observations|;
    && 1 <= n <= maxPolls + 1
    && (forall i | 0 <= i < n :: output.observations[i] == sample(i))
    && (forall i | 0 <= i < n - 1 :: sample(i).IsOpen())
    && (n <= maxPolls ==> !sample(n - 1).IsOpen())
    && output.verdict == JudgeOf(output.observations)
  }

  /** Observe, wait, observe again. `sample(i)` is what the i-th observation
      returns. */
  method SnapshotShadow(sample: nat -> Observation, maxPolls: nat) returns (output: ShadowOutput)
    ensures IsAudit(sample, maxPolls, output)
  {
    var observation := sample(0);
    var observations := [observation];
    var polls := 0;
    while observation.IsOpen() && polls < maxPolls
      invariant polls <= maxPolls && |observations| == polls + 1
      invariant observation == sample(polls)
      invariant forall i | 0 <= i <= polls :: observations[i] == sample(i)
      invariant forall i | 0 <= i < polls :: sample(i).IsOpen()
    {
      observation := sample(polls + 1);
      observations := observations + [observation];
      polls := polls + 1;
    }
    var verdict := Judge(observations);
    output := ShadowOutput(verdict, observations);
  }

  /** The audit goes on while the record is requested or in progress and it has polls
      left, and stops at the first observation where either ends. */
  lemma AuditGoesOnWhile(sample: nat -> Observation, maxPolls: nat, output: ShadowOutput, i: nat)
    requires IsAudit(sample, maxPolls, output)
    ensures var n := |output.observations|;
            && (i < n ==> output.observations[i] == sample(i))
            && (i + 1 < n ==> sample(i).state in {Some(Requested), Some(InProgress)})
            && (i + 1 == n ==> sample(i).state !in {Some(Requested), Some(InProgress)} || n == maxPolls + 1)
            && 1 <= n <= maxPolls + 1
  {
  }

  // ---------------------------------------------------------------------
  // What the observer holds to be legal
  // ---------------------------------------------------------------------

  /** States a record goes through, one accepted report after the other. */
  predicate IsPath(path: seq<SnapshotState>) {
    path != [] && forall i | 0 < i < |path| :: AcceptsReport(path[i - 1], path[i])
  }

  lemma {:induction false} PathIsLegal(path: seq<SnapshotState>)
    requires IsPath(path)
    ensures IsLegalTransition(path[0], path[|path| - 1])
  {
    if |path| > 1 {
      PathIsLegal(path[..|path| - 1]);
      assert AcceptsReport(path[|path| - 2], path[|path| - 1]);
    }
  }

  /** A legal transition as the reports that make it. */
  function PathFor(from: SnapshotState, to: SnapshotState): (path: seq<SnapshotState>)
    requires IsLegalTransition(from, to)
    ensures IsPath(path) && path[0] == from && path[|path| - 1] == to
  {
    if from == to then [from] else [from, to]
  }

  /** The observer's table is the reflexive and transitive closure of the
      reports the server accepts: missing a report in between is no alarm, and
      nothing else is excused. */
  lemma LegalIsClosure(from: SnapshotState, to: SnapshotState)
    ensures IsLegalTransition(from, to) <==>
              exists path :: IsPath(path) && path[0] == from && path[|path| - 1] == to
  {
    if IsLegalTransition(from, to) {
      var path := PathFor(from, to);
      assert IsPath(path);
    }
    forall path | IsPath(path) && path[0] == from && path[|path| - 1] == to ensures IsLegalTransition(from, to) {
      PathIsLegal(path);
    }
  }

  /** `states` are samples of `path`, taken in order at the positions `at`. */
  predicate Samples(path: seq<SnapshotState>, at: seq<nat>, states: seq<SnapshotState>) {
    && |at| == |states|
    && (forall i | 0 <= i < |at| :: at[i] < |path| && path[at[i]] == states[i])
    && (forall i, j | 0 <= i <= j < |at| :: at[i] <= at[j])
  }

  lemma SampledIsLegal(path: seq<SnapshotState>, at: seq<nat>, states: seq<SnapshotState>)
    requires IsPath(path) && Samples(path, at, states)
    ensures AllLegal(states)
  {
    forall i | 0 < i < |states| ensures IsLegalTransition(states[i - 1], states[i]) {
      PathIsLegal(path[at[i - 1]..at[i] + 1]);
    }
  }

  lemma {:induction false} LegalIsSampled(states: seq<SnapshotState>) returns (path: seq<SnapshotState>, at: seq<nat>)
    requires states != [] && AllLegal(states)
    ensures IsPath(path) && Samples(path, at, states) && path[|path| - 1] == states[|states| - 1]
  {
    if |states| == 1 {
      path, at := states, [0];
    } else {
      var front, last := states[..|states| - 1], states[|states| - 1];
      path, at := LegalIsSampled(front);
      var more := PathFor(front[|front| - 1], last);
      path := path + more[1..];
      at := at + [|path| - 1];
    }
  }

  /** A sequence of samples passes exactly when some lifetime of a real record
      can produce it: the audit raises no false alarm and misses no illegal
      step. */
  lemma LegalIffSampled(states: seq<SnapshotState>)
    requires states != []
    ensures AllLegal(states) <==> exists path, at :: IsPath(path) && Samples(path, at, states)
  {
    if AllLegal(states) {
      var path, at := LegalIsSampled(states);
    }
    forall path, at | IsPath(path) && Samples(path, at, states) ensures AllLegal(states) {
      SampledIsLegal(path, at, states);
    }
  }

  /** The verdict in full: missing if an observation found no record; agreement if the
      last one found it final and some lifetime of a record, sampled in order, shows
      just these states; stuck in all other cases. */
  lemma VerdictIff(observations: seq<Observation>)
    ensures JudgeOf(observations) == Missing <==>
              exists i :: 0 <= i < |observations| && observations[i].state == None
    ensures JudgeOf(observations) == Agree <==>
              && observations != []
              && observations[|observations| - 1].state in {Some(Done), Some(SnapFailed)}
              && exists path, at :: IsPath(path) && Shows(path, at, observations)
  {
    hide Samples, AllLegal;
    if !AnyMissing(observations) && observations != [] {
      LegalIffSampled(StatesOf(observations));
      forall path, at ensures Shows(path, at, observations) <==> Samples(path, at, StatesOf(observations)) {
        ShowsIffSamples(path, at, observations);
      }
    }
    forall path, at | Shows(path, at, observations) ensures !AnyMissing(observations) {
    }
  }

  /** `observations` found, in order, the states of `path` at the positions `at`. */
  predicate Shows(path: seq<SnapshotState>, at: seq<nat>, observations: seq<Observation>) {
    && |at| == |observations|
    && (forall i | 0 <= i < |at| :: at[i] < |path| && observations[i].state == Some(path[at[i]]))
    && (forall i, j | 0 <= i <= j < |at| :: at[i] <= at[j])
  }

  lemma ShowsIffSamples(path: seq<SnapshotState>, at: seq<nat>, observations: seq<Observation>)
    requires !AnyMissing(observations)
    ensures Shows(path, at, observations) <==> Samples(path, at, StatesOf(observations))
  {
  }

  // ---------------------------------------------------------------------
  // The audit of a live server
  // ---------------------------------------------------------------------

  /** What the server shows of snapshot `id`. */
  function Observe(s: DurableState, id: SnapshotId, now: DateTime): Observation {
    if id !in s.snapshots then Observation(None, None, None, None, now) else
      var record := s.snapshots[id];
      Observation(Some(record.state), record.error, NonEmpty(record.memFilePath), NonEmpty(record.snapshotPath), now)
  }

  function NonEmpty(s: string): Option<string> {
    if s == "" then None else Some(s)
  }

  /** Whatever the server does next, crashes and restarts included, the record
      stays and moves legally. */
  lemma RecordStepsLegally(base: IpamState, sys: System, a: Action, id: SnapshotId)
    requires Backed(base, sys) && Happens(sys, a) && id in sys.live.snapshots
    ensures var s' := Next(base, sys, a).live;
            id in s'.snapshots && IsLegalTransition(sys.live.snapshots[id].state, s'.snapshots[id].state)
  {
    hide Sound, Evolves, Step, Allowed, Recover, RecordsLedTo, RecordsReplay, IpamState.WellFormed;
    NextBacked(base, sys, a);
    SameRecordsParts(Next(base, sys, a).live, Expected(sys, a));
    if a.Serve? || a.Tear? {
      SoundParts(sys.live);
      StepEvolves(sys.live, a.event);
      EvolvesLegally(sys.live, Step(sys.live, a.event).0, id);
    }
  }

  lemma EvolvesLegally(s: DurableState, s': DurableState, id: SnapshotId)
    requires Evolves(s, s') && id in s.snapshots
    ensures id in s'.snapshots && IsLegalTransition(s.snapshots[id].state, s'.snapshots[id].state)
  {
  }

  lemma {:induction false} RecordMovesLegally(base: IpamState, actions: seq<Action>, k: nat, l: nat, id: SnapshotId)
    requires base.held == map[] && base.subnets == map[] && History(base, actions)
    requires k <= l <= |actions| && id in After(base, actions[..k]).live.snapshots
    ensures id in After(base, actions[..l]).live.snapshots
    ensures IsLegalTransition(After(base, actions[..k]).live.snapshots[id].state,
                              After(base, actions[..l]).live.snapshots[id].state)
    decreases l - k
  {
    hide Backed, Happens, Next;
    if k < l {
      RecordMovesLegally(base, actions, k, l - 1, id);
      PrefixValid(base, actions, l);
      assert actions[..l][..l - 1] == actions[..l - 1];
      HistoryBacked(base, actions[..l - 1]);
      RecordStepsLegally(base, After(base, actions[..l - 1]), actions[l - 1], id);
    }
  }

  lemma {:induction false} PrefixValid(base: IpamState, actions: seq<Action>, l: nat)
    requires History(base, actions) && l <= |actions|
    ensures History(base, actions[..l])
    ensures 0 < l ==> History(base, actions[..l - 1]) && Happens(After(base, actions[..l - 1]), actions[l - 1])
    decreases |actions|
  {
    hide Happens, After;
    if l == |actions| {
      assert actions[..l] == actions;
    } else {
      assert actions[..|actions| - 1][..l] == actions[..l];
      assert 0 < l ==> actions[..|actions| - 1][..l - 1] == actions[..l - 1];
      PrefixValid(base, actions[..|actions| - 1], l);
    }
  }

  /** `sample(i)` shows snapshot `id` after the first `at(i)` actions of the
      history, and the observations are taken in order. */
  ghost predicate ObservesHistory(base: IpamState, actions: seq<Action>, id: SnapshotId,
                                  at: nat -> nat, sample: nat -> Observation, maxPolls: nat) {
    && (forall i | 0 <= i <= maxPolls :: at(i) <= |actions|)
    && (forall i, j | 0 <= i <= j <= maxPolls :: at(i) <= at(j))
    && id in After(base, actions[..at(0)]).live.snapshots
    && (forall i | 0 <= i <= maxPolls ::
          sample(i) == Observe(After(base, actions[..at(i)]).live, id, sample(i).observedAt))
  }

  lemma HistorySamples(base: IpamState, actions: seq<Action>, id: SnapshotId, at: nat -> nat,
                       sample: nat -> Observation, maxPolls: nat, i: nat, j: nat)
    requires base.held == map[] && base.subnets == map[] && History(base, actions)
    requires ObservesHistory(base, actions, id, at, sample, maxPolls) && i <= j <= maxPolls
    ensures sample(i).state.Some? && sample(j).state.Some?
    ensures IsLegalTransition(sample(i).state.value, sample(j).state.value)
  {
    hide After, History;
    RecordMovesLegally(base, actions, at(0), at(i), id);
    RecordMovesLegally(base, actions, at(i), at(j), id);
  }

  /** No false alarm: when the audit watches a real record over any history of
      requests, passes, crashes and restarts, its verdict is `Agree` exactly if
      the record is terminal by the time of the last observation it may make,
      and `Stuck` otherwise. `Missing` never happens. */
  lemma AuditIsFair(base: IpamState, actions: seq<Action>, id: SnapshotId, at: nat -> nat,
                    sample: nat -> Observation, maxPolls: nat, output: ShadowOutput)
    requires base.held == map[] && base.subnets == map[] && History(base, actions)
    requires ObservesHistory(base, actions, id, at, sample, maxPolls)
    requires IsAudit(sample, maxPolls, output)
    ensures sample(maxPolls).state.Some?
    ensures output.verdict == if sample(maxPolls).state.value.IsTerminal() then Agree else Stuck
  {
    hide ObservesHistory, History;
    var n := |output.observations|;
    forall i | 0 <= i < n ensures output.observations[i].state.Some? {
      HistorySamples(base, actions, id, at, sample, maxPolls, i, i);
    }
    var states := StatesOf(output.observations);
    forall i | 0 < i < |states| ensures IsLegalTransition(states[i - 1], states[i]) {
      HistorySamples(base, actions, id, at, sample, maxPolls, i - 1, i);
    }
    HistorySamples(base, actions, id, at, sample, maxPolls, n - 1, maxPolls);
  }
}
