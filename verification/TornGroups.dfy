/** What becomes of tasks that a crash tore from their addresses, because it cut
    through their group of operations or because the start after it moved the
    address: which tasks disagree with the allocator, for how long, and what puts
    them right. */
module TornGroups {
  import opened Types
  import opened Ipam
  import opened Durable
  import opened Placement
  import opened Accounting
  import opened Scheduling
  import opened Soundness
  import opened Invariants
  import opened Replay
  import opened Runs
  import opened Compaction
  import opened CompactionExact
  import opened Recovery
  import opened Survival

  /** Tasks and addresses agree, except that nothing is said about what the tasks
      `torn` hold. */
  ghost predicate AgreesUpTo(s: DurableState, torn: set<TaskId>) {
    && (forall t | t in s.ipam.held :: t in s.tasks)
    && (forall t | t in s.tasks && t !in torn :: TaskAgrees(t, s.tasks[t], s.nodes.Keys, s.ipam))
    && (forall t | t in torn :: t in s.tasks)
    && (forall t | t in s.tasks :: NoExitYet(s.tasks[t]))
  }

  predicate NoExitYet(task: Task) {
    !task.state.IsTerminal() ==> task.exitCode.None?
  }

  lemma UpToNothing(s: DurableState)
    ensures AgreesUpTo(s, {}) <==> Agreement(s)
  {
  }

  /** The task a group is about, if it can have two operations. */
  function TaskOf(e: Event): Option<TaskId> {
    match e
    case TaskReported(t, _, _) => Some(t)
    case OrphanRequeued(t, _) => Some(t)
    case TaskPlaced(t, _) => Some(t)
    case _ => None
  }

  /** Placing `t` again puts it back on the node whose /24 holds its address. */
  ghost predicate ReturnsHome(s: DurableState, t: TaskId, now: DateTime)
    requires t in s.tasks
  {
    && t in s.ipam.held && s.tasks[t].spec.networkEnabled
    && var pick := PickNode(s.nodes, s.tasks[t], now);
    && pick.Some? && pick.value in s.ipam.subnets
    && s.ipam.InSubnet(s.ipam.held[t], s.ipam.subnets[pick.value])
  }

  /** The event makes task `t` agree again: its terminal report, a requeue, or a
      placement where its address belongs. */
  ghost predicate Heals(s: DurableState, e: Event, t: TaskId) {
    match e
    case TaskReported(u, state, _) =>
      u == t && state.IsTerminal() && t in s.tasks && !s.tasks[t].state.IsTerminal()
    case OrphanRequeued(u, _) => u == t
    case TaskPlaced(u, now) => u == t && t in s.tasks && ReturnsHome(s, t, now)
    case _ => false
  }

  // ---------------------------------------------------------------------
  // One event
  // ---------------------------------------------------------------------

  /** An event that touches task `t` alone. */
  lemma OthersAgree(s: DurableState, s': DurableState, t: TaskId, torn: set<TaskId>, torn': set<TaskId>)
    requires AgreesUpTo(s, torn) && t in s.tasks && torn' <= torn + {t} && torn <= torn' + {t}
    requires s'.tasks.Keys == s.tasks.Keys && s'.nodes.Keys == s.nodes.Keys
    requires forall u | u in s.tasks && u != t :: s'.tasks[u] == s.tasks[u]
    requires forall u | u != t :: SameFor(u, s.ipam, s'.ipam)
    requires NoExitYet(s'.tasks[t])
    requires t !in torn' ==> TaskAgrees(t, s'.tasks[t], s'.nodes.Keys, s'.ipam)
    ensures AgreesUpTo(s', torn')
  {
    hide TaskAgrees;
    forall u | u in s'.tasks && u !in torn' ensures TaskAgrees(u, s'.tasks[u], s'.nodes.Keys, s'.ipam) {
      if u != t {
        AgreesFramed(u, s.tasks[u], s.nodes.Keys, s'.nodes.Keys, s.ipam, s'.ipam);
      }
    }
    forall u | u in s'.ipam.held ensures u in s'.tasks {
      assert u != t ==> SameFor(u, s.ipam, s'.ipam);
    }
  }

  lemma ReportUpTo(s: DurableState, torn: set<TaskId>, t: TaskId, state: TaskState, exitCode: Option<int>)
    requires Sound(s) && AgreesUpTo(s, torn) && ReportAllowed(s, t, state)
    ensures var healed := state.IsTerminal() && t in s.tasks && !s.tasks[t].state.IsTerminal();
            AgreesUpTo(s.SetTaskState(t, state, exitCode).state, if healed then torn - {t} else torn)
  {
    hide NetworkMatches, IpamState.WellFormed, NoOvercommit, UsedCovers;
    if t in s.tasks && !s.tasks[t].state.IsTerminal() {
      assert t !in torn ==> TaskAgrees(t, s.tasks[t], s.nodes.Keys, s.ipam);
      if state.IsTerminal() {
        FinishUpTo(s, torn, t, state, exitCode);
      } else {
        OthersAgree(s, s.SetTaskState(t, state, exitCode).state, t, torn, torn);
      }
    }
  }

  lemma FinishUpTo(s: DurableState, torn: set<TaskId>, t: TaskId, state: TaskState, exitCode: Option<int>)
    requires s.ipam.WellFormed() && NodesKnown(s) && AgreesUpTo(s, torn)
    requires t in s.tasks && !s.tasks[t].state.IsTerminal() && state.IsTerminal()
    ensures AgreesUpTo(s.SetTaskState(t, state, exitCode).state, torn - {t})
  {
    hide NetworkMatches, IpamState.WellFormed;
    ReleaseKeeps(s.ipam, t);
    OthersAgree(s, s.SetTaskState(t, state, exitCode).state, t, torn, torn - {t});
  }

  lemma RequeueUpTo(s: DurableState, torn: set<TaskId>, t: TaskId)
    requires Sound(s) && AgreesUpTo(s, torn) && t in s.tasks && !s.tasks[t].state.IsTerminal()
    ensures AgreesUpTo(RequeueOne(s, t).0, torn - {t})
  {
    hide NetworkMatches, IpamState.WellFormed, NoOvercommit, UsedCovers;
    assert t !in torn ==> TaskAgrees(t, s.tasks[t], s.nodes.Keys, s.ipam);
    ReleaseKeeps(s.ipam, t);
    OthersAgree(s, RequeueOne(s, t).0, t, torn, torn - {t});
  }

  /** Whatever a task holds, placing it leaves what the others hold alone. */
  lemma PlaceFramesOthers(s: DurableState, t: TaskId, now: DateTime)
    requires KeysMatch(s) && s.ipam.WellFormed() && t in s.tasks
    ensures forall u | u != t :: SameFor(u, s.ipam, PlaceOne(s, t, now).0.ipam)
  {
    hide IpamState.WellFormed, PlaceOne, Commit;
    var ipam', n, network := PlaceShape(s, t, now);
    if PlaceOne(s, t, now) != (s.(ipam := ipam'), []) {
      CommitShape(s.(ipam := ipam'), t, n, network);
    }
  }

  /** Placing a task that still holds an address. */
  lemma PlaceHolder(s: DurableState, t: TaskId, now: DateTime)
    requires KeysMatch(s) && t in s.tasks && s.tasks[t].spec.networkEnabled && t in s.ipam.held
    ensures match PickNode(s.nodes, s.tasks[t], now)
            case None => PlaceOne(s, t, now) == (s, [])
            case Some(n) =>
              && n in s.nodes && s.nodes[n].id == n
              && PlaceOne(s, t, now) ==
                 if n in s.ipam.subnets
                 then Commit(s, t, n, Some(NetworkAssignment(s.ipam.held[t], s.ipam.GatewayFor(n).value, NETMASK)))
                 else (s.(ipam := s.ipam.Release(t).1), [])
  {
    hide Commit;
    assert s.(ipam := s.ipam) == s;
  }

  lemma PlaceUpTo(s: DurableState, torn: set<TaskId>, t: TaskId, now: DateTime)
    requires Sound(s) && AgreesUpTo(s, torn) && t in s.tasks && s.tasks[t].state.Pending?
    ensures AgreesUpTo(PlaceOne(s, t, now).0, if ReturnsHome(s, t, now) then torn - {t} else torn)
  {
    hide TaskAgrees, IpamState.WellFormed, PlaceOne, Sound;
    SoundParts(s);
    PlaceFramesOthers(s, t, now);
    PlaceTouchesOneTask(s, t, now);
    var torn' := if ReturnsHome(s, t, now) then torn - {t} else torn;
    var s' := PlaceOne(s, t, now).0;
    PlaceKeepsExit(s, t, now);
    if t !in torn' && t in torn {
      HomeAgrees(s, t, now);
    } else if t !in torn' {
      assert TaskAgrees(t, s.tasks[t], s.nodes.Keys, s.ipam);
      PlaceAgrees(s, t, now);
    }
    OthersAgree(s, s', t, torn, torn');
  }

  lemma PlaceKeepsExit(s: DurableState, t: TaskId, now: DateTime)
    requires KeysMatch(s) && t in s.tasks && s.tasks[t].state.Pending? && NoExitYet(s.tasks[t])
    ensures var s' := PlaceOne(s, t, now).0; t in s'.tasks && NoExitYet(s'.tasks[t])
  {
    hide PlaceOne, Commit, IpamState.WellFormed, Discovery.ServicesFor;
    var ipam', n, network := PlaceShape(s, t, now);
    if PlaceOne(s, t, now) != (s.(ipam := ipam'), []) {
      CommitShape(s.(ipam := ipam'), t, n, network);
    }
  }

  lemma HomeAgrees(s: DurableState, t: TaskId, now: DateTime)
    requires KeysMatch(s) && t in s.tasks && s.tasks[t].state.Pending? && s.tasks[t].exitCode.None?
    requires ReturnsHome(s, t, now)
    ensures var s' := PlaceOne(s, t, now).0;
            t in s'.tasks && TaskAgrees(t, s'.tasks[t], s'.nodes.Keys, s'.ipam)
  {
    hide PlaceOne, Commit, Discovery.ServicesFor;
    PlaceHolder(s, t, now);
    var n := PickNode(s.nodes, s.tasks[t], now).value;
    CommitShape(s, t, n, Some(NetworkAssignment(s.ipam.held[t], s.ipam.GatewayFor(n).value, NETMASK)));
  }

  /** A task that agreed before it was placed agrees afterwards. */
  lemma PlaceAgrees(s: DurableState, t: TaskId, now: DateTime)
    requires Sound(s) && t in s.tasks && s.tasks[t].state.Pending? && TaskAgrees(t, s.tasks[t], s.nodes.Keys, s.ipam)
    ensures var s' := PlaceOne(s, t, now).0;
            t in s'.tasks && TaskAgrees(t, s'.tasks[t], s'.nodes.Keys, s'.ipam)
  {
    hide PlaceOne, Commit, IpamState.Allocate, IpamState.WellFormed, IsEligible, NoOvercommit, UsedCovers,
         Discovery.ServicesFor;
    PlaceOneCases(s, t, now);
    var pick := PickNode(s.nodes, s.tasks[t], now);
    if pick.Some? {
      AllocateKeeps(s.ipam, pick.value, t);
      var (ip, ipam') := s.ipam.Allocate(pick.value, t);
      if !s.tasks[t].spec.networkEnabled {
        CommitShape(s, t, pick.value, None);
      } else if ip.Some? {
        CommitShape(s.(ipam := ipam'), t, pick.value,
                    Some(NetworkAssignment(ip.value, ipam'.GatewayFor(pick.value).value, NETMASK)));
      }
    }
  }

  lemma CreateUpTo(s: DurableState, torn: set<TaskId>, spec: JobSpec, now: DateTime, jobId: JobId, ids: seq<TaskId>)
    requires AgreesUpTo(s, torn) && Allowed(s, JobSubmitted(spec, now, jobId, ids))
    ensures AgreesUpTo(s.CreateJob(spec, now, jobId, ids).state, torn)
  {
    hide Copies, InsertTasks, IsValidSpec, NetworkMatches;
    if IsValidSpec(spec) {
      var s' := s.CreateJob(spec, now, jobId, ids).state;
      forall t ensures t in s.tasks ==> t in s'.tasks && s'.tasks[t] == s.tasks[t] {
        CreatedTasks(s, spec, now, jobId, ids, t);
      }
      forall t | t in s'.tasks && t !in torn ensures TaskAgrees(t, s'.tasks[t], s'.nodes.Keys, s'.ipam) {
        CreatedTasks(s, spec, now, jobId, ids, t);
      }
    }
  }

  /** The same tasks and addresses, and no node less. */
  lemma SameUpTo(s: DurableState, s': DurableState, torn: set<TaskId>)
    requires AgreesUpTo(s, torn) && s'.tasks == s.tasks && s'.ipam == s.ipam && s.nodes.Keys <= s'.nodes.Keys
    ensures AgreesUpTo(s', torn)
  {
    hide TaskAgrees;
    forall t | t in s'.tasks && t !in torn ensures TaskAgrees(t, s'.tasks[t], s'.nodes.Keys, s'.ipam) {
      AgreesFramed(t, s.tasks[t], s.nodes.Keys, s'.nodes.Keys, s.ipam, s'.ipam);
    }
  }

  /** An event never makes another task disagree, and puts the task right that it
      heals. */
  lemma StepUpTo(s: DurableState, torn: set<TaskId>, e: Event)
    requires Sound(s) && AgreesUpTo(s, torn) && Allowed(s, e)
    ensures AgreesUpTo(Step(s, e).0, set t | t in torn && !Heals(s, e, t))
  {
    hide Sound, AgreesUpTo, PlaceOne, RequeueOne, Recounted, ReturnsHome;
    var torn' := set t | t in torn && !Heals(s, e, t);
    match e
    case JobSubmitted(spec, now, jobId, ids) =>
      assert torn' == torn;
      CreateUpTo(s, torn, spec, now, jobId, ids);
    case TaskReported(t, state, exitCode) =>
      assert torn' == if state.IsTerminal() && t in s.tasks && !s.tasks[t].state.IsTerminal() then torn - {t} else torn;
      ReportUpTo(s, torn, t, state, exitCode);
    case OrphanRequeued(t, now) =>
      assert torn' == torn - {t};
      RequeueUpTo(s, torn, t);
    case TaskPlaced(t, now) =>
      assert torn' == if ReturnsHome(s, t, now) then torn - {t} else torn;
      PlaceUpTo(s, torn, t, now);
    case UsedRecounted =>
      assert torn' == torn;
      assert Recounted(s).nodes.Keys == s.nodes.Keys by { RecountKeepsNodes(s); }
      RecountTouchesNodesOnly(s);
      SameUpTo(s, Recounted(s), torn);
    case _ =>
      assert torn' == torn;
      SameUpTo(s, Step(s, e).0, torn);
  }

  lemma RecountKeepsNodes(s: DurableState)
    ensures Recounted(s).nodes.Keys == s.nodes.Keys
  {
  }

  // ---------------------------------------------------------------------
  // What a start moves
  // ---------------------------------------------------------------------

  /** From `ipam` to `ipam'` task `t` holds the same, and its node has the gateway it
      had. */
  predicate KeepsAddress(t: TaskId, task: Task, ipam: IpamState, ipam': IpamState) {
    && (t in ipam.held <==> t in ipam'.held)
    && (t in ipam.held ==>
          && ipam'.held[t] == ipam.held[t]
          && (task.assignedNode.Some? ==> KeepsGateway(task.assignedNode.value, ipam, ipam')))
  }

  predicate KeepsGateway(n: NodeId, ipam: IpamState, ipam': IpamState) {
    ipam.GatewayFor(n).Some? ==> ipam'.GatewayFor(n) == ipam.GatewayFor(n)
  }

  /** A task that agrees goes on to agree exactly when its address is kept. */
  lemma AgreesIffKept(t: TaskId, task: Task, nodeIds: set<NodeId>, ipam: IpamState, ipam': IpamState)
    requires TaskAgrees(t, task, nodeIds, ipam)
    ensures TaskAgrees(t, task, nodeIds, ipam') <==> KeepsAddress(t, task, ipam, ipam')
  {
  }

  /** The tasks whose address is not kept. */
  function Moved(s: DurableState, s': DurableState): set<TaskId> {
    set t | t in s.tasks && !KeepsAddress(t, s.tasks[t], s.ipam, s'.ipam)
  }

  /** A start finds the records as they should be, and the tasks that disagree are
      those that did and those it moved. */
  lemma RecordsUpTo(s: DurableState, s': DurableState, torn: set<TaskId>)
    requires AgreesUpTo(s, torn) && s.Records() == s'.Records()
    requires forall t | t in s'.ipam.held :: t in s'.tasks
    ensures AgreesUpTo(s', torn + Moved(s, s'))
  {
    hide TaskAgrees, KeepsAddress, DurableState.Records;
    SameRecordsParts(s', s);
    forall t | t in s'.tasks && t !in torn + Moved(s, s') ensures TaskAgrees(t, s'.tasks[t], s'.nodes.Keys, s'.ipam) {
      AgreesIffKept(t, s.tasks[t], s.nodes.Keys, s.ipam, s'.ipam);
    }
  }

  // ---------------------------------------------------------------------
  // Every holder is a task
  // ---------------------------------------------------------------------

  predicate AllocatesFor(ops: seq<JournalOp>, tasks: set<TaskId>) {
    forall i | 0 <= i < |ops| && ops[i].IpamAllocate? :: ops[i].taskId in tasks
  }

  /** The directory knows no holder that is not a task. */
  ghost predicate HoldersKnown(sys: System) {
    && sys.live.ipam.held.Keys <= sys.live.tasks.Keys
    && (sys.snapshot.Some? ==> sys.snapshot.value.ipam.held.Keys <= sys.live.tasks.Keys)
    && AllocatesFor(sys.journal, sys.live.tasks.Keys)
  }

  lemma StepHolders(s: DurableState, e: Event)
    requires Sound(s) && Allowed(s, e) && s.ipam.held.Keys <= s.tasks.Keys
    ensures var (s', ops) := Step(s, e);
            s.tasks.Keys <= s'.tasks.Keys && s'.ipam.held.Keys <= s.tasks.Keys && AllocatesFor(ops, s.tasks.Keys)
  {
    hide PlaceOne, Recounted, IpamState.WellFormed, NoOvercommit, UsedCovers, NodesKnown, KeysMatch, Copies,
         InsertTasks, IsValidSpec;
    match e
    case JobSubmitted(spec, now, jobId, ids) => CreateHolders(s, spec, now, jobId, ids);
    case TaskPlaced(t, now) => PlaceHolders(s, t, now);
    case UsedRecounted => RecountTouchesNodesOnly(s);
    case _ =>
  }

  lemma CreateHolders(s: DurableState, spec: JobSpec, now: DateTime, jobId: JobId, ids: seq<TaskId>)
    requires Allowed(s, JobSubmitted(spec, now, jobId, ids))
    ensures var out := s.CreateJob(spec, now, jobId, ids);
            s.tasks.Keys <= out.state.tasks.Keys && out.state.ipam == s.ipam && AllocatesFor(out.ops, s.tasks.Keys)
  {
    hide Copies, InsertTasks, IsValidSpec;
    if IsValidSpec(spec) {
      forall t | t in s.tasks ensures t in s.CreateJob(spec, now, jobId, ids).state.tasks {
        CreatedTasks(s, spec, now, jobId, ids, t);
      }
    }
  }

  lemma PlaceHolders(s: DurableState, t: TaskId, now: DateTime)
    requires KeysMatch(s) && s.ipam.WellFormed() && t in s.tasks && s.ipam.held.Keys <= s.tasks.Keys
    ensures var (s', ops) := PlaceOne(s, t, now);
            s'.tasks.Keys == s.tasks.Keys && s'.ipam.held.Keys <= s.tasks.Keys && AllocatesFor(ops, s.tasks.Keys)
  {
    hide PlaceOne, Commit, KeysMatch, IpamState.WellFormed;
    PlaceTouchesOneTask(s, t, now);
    var ipam', n, network := PlaceShape(s, t, now);
    if PlaceOne(s, t, now) != (s.(ipam := ipam'), []) {
      CommitShape(s.(ipam := ipam'), t, n, network);
    }
  }

  /** A replay gives addresses to those the journal allocates for. */
  lemma {:induction false} ReplayHolders(s: DurableState, ops: seq<JournalOp>, now: DateTime, tasks: set<TaskId>)
    requires s.ipam.held.Keys <= tasks && AllocatesFor(ops, tasks)
    ensures ApplyAll(s, ops, now).ipam.held.Keys <= tasks
  {
    hide ApplyOne;
    if ops != [] {
      var front, last := ops[..|ops| - 1], ops[|ops| - 1];
      assert forall i | 0 <= i < |front| :: front[i] == ops[i];
      ReplayHolders(s, front, now, tasks);
      OneReplayHolders(ApplyAll(s, front, now), last, now, tasks);
    }
  }

  lemma OneReplayHolders(s: DurableState, op: JournalOp, now: DateTime, tasks: set<TaskId>)
    requires s.ipam.held.Keys <= tasks && (op.IpamAllocate? ==> op.taskId in tasks)
    ensures ApplyOne(s, op, now).ipam.held.Keys <= tasks
  {
    hide InsertTasks;
  }

  lemma RecoverHolders(base: IpamState, snapshot: Option<DurableState>, journal: seq<JournalOp>, restored: DateTime,
                       replayed: DateTime, tasks: set<TaskId>)
    requires base.held == map[] && (snapshot.Some? ==> snapshot.value.ipam.held.Keys <= tasks)
    requires AllocatesFor(journal, tasks)
    ensures Recover(base, snapshot, journal, restored, replayed).ipam.held.Keys <= tasks
  {
    hide ApplyAll, Recounted;
    var start := Loaded(base, snapshot, restored);
    ReplayHolders(start, journal, replayed, tasks);
    RecountTouchesNodesOnly(ApplyAll(start, journal, replayed));
  }

  lemma AllocatesForMore(a: seq<JournalOp>, b: seq<JournalOp>, tasks: set<TaskId>, tasks': set<TaskId>)
    requires AllocatesFor(a, tasks) && AllocatesFor(b, tasks) && tasks <= tasks'
    ensures AllocatesFor(a + b, tasks') && AllocatesFor(a, tasks')
  {
  }

  lemma AllocatesForKept(ops: seq<JournalOp>, kept: nat, tasks: set<TaskId>)
    requires AllocatesFor(ops, tasks)
    ensures AllocatesFor(Kept(ops, kept), tasks) && AllocatesFor([], tasks)
  {
  }

  lemma NextHolders(base: IpamState, sys: System, a: Action)
    requires Backed(base, sys) && Happens(sys, a) && base.held == map[] && HoldersKnown(sys)
    ensures HoldersKnown(Next(base, sys, a))
  {
    hide Backed, Step, Allowed, Recover, Sound, AllocatesFor, DurableState.Records;
    BackedIsSound(base, sys);
    NextBacked(base, sys, a);
    SameRecordsParts(Next(base, sys, a).live, Expected(sys, a));
    if a.Serve? || a.Tear? {
      AllowedWhenItHappens(sys, a);
      StepHolders(sys.live, a.event);
    }
    var tasks, tasks' := sys.live.tasks.Keys, Next(base, sys, a).live.tasks.Keys;
    assert tasks <= tasks';
    match a
    case Serve(e) => AllocatesForMore(sys.journal, Step(sys.live, e).1, tasks, tasks');
    case Crash(restored, replayed) => RecoverHolders(base, sys.snapshot, sys.journal, restored, replayed, tasks);
    case Tear(e, kept, restored, replayed) =>
      var ops := Step(sys.live, e).1;
      AllocatesForKept(ops, kept, tasks);
      AllocatesForMore(sys.journal, Kept(ops, kept), tasks, tasks');
      RecoverHolders(base, sys.snapshot, sys.journal + Kept(ops, kept), restored, replayed, tasks');
    case Restart(restored, replayed) =>
      AllocatesForKept(sys.journal, 0, tasks);
      RecoverHolders(base, Some(sys.live), [], restored, replayed, tasks);
    case CrashCompacting(restored, replayed) =>
      RecoverHolders(base, Some(sys.live), sys.journal, restored, replayed, tasks);
  }

  // ---------------------------------------------------------------------
  // Whole histories
  // ---------------------------------------------------------------------

  /** The event of the action happened with its whole group on disk, if it is not a
      plain crash. */
  ghost predicate Completes(sys: System, a: Action) {
    a.Serve? || (a.Tear? && a.kept >= |Step(sys.live, a.event).1|)
  }

  /** The tasks that crashes have torn from their addresses and nothing has put
      right since. */
  ghost function TornTasks(base: IpamState, actions: seq<Action>): set<TaskId> {
    if actions == [] then {} else
      var front, a := actions[..|actions| - 1], actions[|actions| - 1];
      TornNext(base, After(base, front), TornTasks(base, front), a)
  }

  ghost function TornNext(base: IpamState, sys: System, torn: set<TaskId>, a: Action): set<TaskId> {
    var left := if Completes(sys, a) then set t | t in torn && !Heals(sys.live, a.event, t) else torn;
    if a.Serve? then left else left + Moved(Expected(sys, a), Next(base, sys, a).live)
  }

  lemma NextUpTo(base: IpamState, sys: System, torn: set<TaskId>, a: Action)
    requires Backed(base, sys) && Happens(sys, a) && base.held == map[] && HoldersKnown(sys)
    requires AgreesUpTo(sys.live, torn)
    ensures AgreesUpTo(Next(base, sys, a).live, TornNext(base, sys, torn, a))
  {
    hide Backed, AgreesUpTo, Step, Allowed, Recover, Heals, Sound, Moved, AllocatesFor, DurableState.Records;
    BackedIsSound(base, sys);
    NextBacked(base, sys, a);
    NextHolders(base, sys, a);
    var left := if Completes(sys, a) then set t | t in torn && !Heals(sys.live, a.event, t) else torn;
    if Completes(sys, a) {
      AllowedWhenItHappens(sys, a);
      StepUpTo(sys.live, torn, a.event);
    }
    assert AgreesUpTo(Expected(sys, a), left);
    if !a.Serve? {
      RecordsUpTo(Expected(sys, a), Next(base, sys, a).live, left);
    }
  }

  /** At any moment of any history, whatever its crashes, the tasks that disagree
      with the allocator are among those a crash has torn from their addresses and
      nothing has put right since. */
  lemma {:induction false} OnlyTornTasksDisagree(base: IpamState, actions: seq<Action>)
    requires base.held == map[] && base.subnets == map[] && History(base, actions)
    ensures AgreesUpTo(After(base, actions).live, TornTasks(base, actions))
    ensures HoldersKnown(After(base, actions))
  {
    hide Backed, AgreesUpTo, Happens, Next, TornNext, HoldersKnown;
    if actions == [] {
      StartUpTo(base);
    } else {
      var front, a := actions[..|actions| - 1], actions[|actions| - 1];
      OnlyTornTasksDisagree(base, front);
      HistoryBacked(base, front);
      NextUpTo(base, After(base, front), TornTasks(base, front), a);
      NextHolders(base, After(base, front), a);
    }
  }

  lemma StartUpTo(base: IpamState)
    requires base.held == map[]
    ensures AgreesUpTo(EmptyState(base), {}) && HoldersKnown(Start(base))
  {
  }

  // ---------------------------------------------------------------------
  // Which crashes tear which tasks
  // ---------------------------------------------------------------------

  /** Nothing is moved where nothing durable changes. */
  lemma ErasedMovesNothing(s: DurableState, s': DurableState)
    requires s.Erased() == s'.Erased()
    ensures Moved(s, s') == {}
  {
    SameErasedParts(s', s);
  }

  /** An operation about one task moves no other. */
  lemma TouchMovesOne(s: DurableState, s': DurableState, t: TaskId)
    requires TouchesOnly(s.ipam, s'.ipam, t)
    ensures Moved(s, s') <= {t}
  {
  }

  lemma MovedErased(s: DurableState, r: DurableState, s': DurableState)
    requires r.Erased() == s'.Erased()
    ensures Moved(s, r) == Moved(s, s')
  {
    SameErasedParts(r, s');
  }

  /** While the directory holds the live state, plain crashes and restarts tear
      nothing. */
  lemma CrashTearsNothing(base: IpamState, sys: System, a: Action)
    requires HoldsLive(base, sys) && (a.Crash? || a.Restart?)
    ensures Moved(Expected(sys, a), Next(base, sys, a).live) == {}
  {
    hide Recover, Moved, HoldsLive;
    if a.Crash? {
      HeldIsRecovered(base, sys, a.restored, a.replayed);
    } else {
      NothingReplayed(base, sys, a.restored, a.replayed);
    }
    ErasedMovesNothing(sys.live, Next(base, sys, a).live);
  }

  /** A crash inside an event tears the task of the event at most, and none where it
      separates no group and the event gives no address back unjournaled. */
  lemma TearTearsOne(base: IpamState, sys: System, a: Action)
    requires HoldsLive(base, sys) && Sound(sys.live) && a.Tear? && Allowed(sys.live, a.event)
    ensures var moved := Moved(Expected(sys, a), Next(base, sys, a).live);
            && (forall t | t in moved :: TaskOf(a.event) == Some(t))
            && (Harmless(sys, a) && !GivesBackUnjournaled(sys.live, a.event) ==> moved == {})
  {
    hide HoldsLive, Step, Allowed, Recover, Sound, ApplyOne, Moved, GivesBackUnjournaled;
    var (after, ops) := Step(sys.live, a.event);
    var crash := Crash(a.restored, a.replayed);
    SoundParts(sys.live);
    GroupShape(sys.live, a.event);
    if GivesBackUnjournaled(sys.live, a.event) {
      GivingBackTouchesOne(sys.live, a.event);
      assert sys.journal + [] == sys.journal;
      HeldIsRecovered(base, sys, a.restored, a.replayed);
      MovedErased(after, Next(base, sys, a).live, sys.live);
      TouchMovesOne(after, sys.live, a.event.t);
    } else if a.kept >= |ops| {
      TearIsCrash(base, sys, a);
      ServeHoldsLiveIff(base, sys, a.event);
      HeldIsRecovered(base, Next(base, sys, Serve(a.event)), a.restored, a.replayed);
      ErasedMovesNothing(after, Next(base, sys, a).live);
    } else if a.kept == 0 {
      TearIsCrash(base, sys, a);
      HeldIsRecovered(base, sys, a.restored, a.replayed);
      ErasedMovesNothing(sys.live, Next(base, sys, a).live);
    } else {
      assert Kept(ops, a.kept) == [ops[0]];
      TornIsRecovered(base, sys, ops[0], a.restored, a.replayed);
      MovedErased(sys.live, Next(base, sys, a).live, ApplyOne(sys.live, ops[0], 0));
      FirstOpTouchesOne(sys.live, a.event);
      TouchMovesOne(sys.live, ApplyOne(sys.live, ops[0], 0), TaskOf(a.event).value);
    }
  }

  /** A placement that gives an address back journals nothing. */
  lemma GivingBackTouchesOne(s: DurableState, e: Event)
    requires Sound(s) && Allowed(s, e) && GivesBackUnjournaled(s, e)
    ensures e.TaskPlaced? && Step(s, e).1 == [] && TouchesOnly(Step(s, e).0.ipam, s.ipam, e.t)
  {
    hide IpamState.WellFormed, NoOvercommit, UsedCovers;
    PlaceHolder(s, e.t, e.now);
  }

  /** The first operation of a group of two is about the address of its task. */
  lemma FirstOpTouchesOne(s: DurableState, e: Event)
    requires Sound(s) && Allowed(s, e) && |Step(s, e).1| == 2
    ensures TaskOf(e).Some?
    ensures TouchesOnly(s.ipam, ApplyOne(s, Step(s, e).1[0], 0).ipam, TaskOf(e).value)
  {
    hide Sound, IpamState.WellFormed, IpamState.Allocate, IpamState.Release, PlaceOne, TouchesOnly, ApplyOne, Recounted,
         Copies, IsValidSpec;
    SoundParts(s);
    match e
    case TaskReported(t, _, _) => ReleaseTouchesOne(s, t);
    case OrphanRequeued(t, _) => ReleaseTouchesOne(s, t);
    case TaskPlaced(t, now) => PlacementTouchesOne(s, t, now);
    case _ =>
  }

  lemma ReleaseTouchesOne(s: DurableState, t: TaskId)
    requires s.ipam.WellFormed()
    ensures TouchesOnly(s.ipam, ApplyOne(s, IpamRelease(t), 0).ipam, t)
  {
    hide IpamState.WellFormed;
    ReleaseKeeps(s.ipam, t);
  }

  lemma PlacementTouchesOne(s: DurableState, t: TaskId, now: DateTime)
    requires KeysMatch(s) && s.ipam.WellFormed() && t in s.tasks && |PlaceOne(s, t, now).1| == 2
    ensures TouchesOnly(s.ipam, ApplyOne(s, PlaceOne(s, t, now).1[0], 0).ipam, t)
  {
    hide PlaceOne, Commit, IpamState.WellFormed, IpamState.Allocate, TouchesOnly;
    var ipam', n, network := PlaceShape(s, t, now);
    CommitShape(s.(ipam := ipam'), t, n, network);
    CallsAreLocal(s.ipam, n, t);
  }

  /** The addresses after a crash during compaction. */
  lemma CompactionReplay(base: IpamState, sys: System, a: Action)
    requires a.CrashCompacting?
    ensures Next(base, sys, a).live.ipam == ApplyAll(sys.live, sys.journal, 0).ipam
  {
    hide ApplyAll, Recounted;
    var start := Restored(sys.live, a.restored);
    RecountTouchesNodesOnly(ApplyAll(start, sys.journal, a.replayed));
    RestoreErasesNothing(sys.live, a.restored);
    ApplyAllRespectsErasure(start, sys.live, sys.journal, a.replayed, 0);
    SameErasedParts(ApplyAll(start, sys.journal, a.replayed), ApplyAll(sys.live, sys.journal, 0));
  }

  /** A crash during compaction tears exactly the tasks whose held address the second
      replay changed: no gateway moves. */
  lemma CompactionTears(base: IpamState, sys: System, a: Action, t: TaskId)
    requires Sound(sys.live) && a.CrashCompacting? && t in sys.live.tasks
    ensures var (held, held') := (sys.live.ipam.held, Next(base, sys, a).live.ipam.held);
            t !in Moved(Expected(sys, a), Next(base, sys, a).live)
            <==> (t in held <==> t in held') && (t in held ==> held'[t] == held[t])
  {
    hide Sound, Next, ApplyAll, IpamState.WellFormed;
    SoundParts(sys.live);
    CompactionReplay(base, sys, a);
    OctetsPersist(sys.live, sys.journal, 0, |sys.journal|);
    ApplyNone(sys.live, 0);
    assert sys.journal[..0] == [] && sys.journal[..|sys.journal|] == sys.journal;
  }

  /** In a consistent system it tears none exactly when every allocation that is
      never given back returns its recorded address. */
  lemma CompactionTearsNothingIff(base: IpamState, sys: System, a: Action)
    requires Consistent(base, sys) && base.held == map[] && HoldersKnown(sys) && a.CrashCompacting?
    ensures Moved(Expected(sys, a), Next(base, sys, a).live) == {} <==> SettledReturnRecorded(sys.live, sys.journal)
  {
    hide Invariant, Recover, ApplyAll, LedTo, Replays, ReturnsRecorded, SettledReturnRecorded, AllocatesFor;
    var live' := Next(base, sys, a).live;
    CompactionCrashIff(base, sys, a.restored, a.replayed);
    if SettledReturnRecorded(sys.live, sys.journal) {
      ErasedMovesNothing(sys.live, live');
    } else if Moved(sys.live, live') == {} {
      RecoverHolders(base, Some(sys.live), sys.journal, a.restored, a.replayed, sys.live.tasks.Keys);
      NothingMovedIsHarmless(base, sys, a);
      assert false;
    }
  }

  lemma NothingMovedIsHarmless(base: IpamState, sys: System, a: Action)
    requires Consistent(base, sys) && a.CrashCompacting? && Moved(sys.live, Next(base, sys, a).live) == {}
    requires Next(base, sys, a).live.ipam.held.Keys <= sys.live.tasks.Keys
    ensures Next(base, sys, a).live.Erased() == sys.live.Erased()
  {
    hide Sound, ApplyAll, Next, ReturnsRecorded, SettledReturnRecorded, Replays, LedTo, DurableState.Erased;
    var z, y, live' := sys.live, ApplyAll(sys.live, sys.journal, 0), Next(base, sys, a).live;
    CompactionReplay(base, sys, a);
    SecondReplayMovesOnlyAddresses(sys.origin, sys.journal, z);
    forall t | t in z.tasks ensures KeepsAddress(t, z.tasks[t], z.ipam, live'.ipam) {
      assert t !in Moved(z, live');
    }
    assert y.ipam.held == z.ipam.held;
    RecordsAndAddresses(y, z);
    CompactionErased(base, sys, a);
  }

  lemma CompactionErased(base: IpamState, sys: System, a: Action)
    requires a.CrashCompacting?
    ensures Next(base, sys, a).live.Erased() == ApplyAll(sys.live, sys.journal, 0).Erased()
  {
    hide ApplyAll, Recounted;
    var start := Restored(sys.live, a.restored);
    RecountErasesNothing(ApplyAll(start, sys.journal, a.replayed));
    RestoreErasesNothing(sys.live, a.restored);
    ApplyAllRespectsErasure(start, sys.live, sys.journal, a.replayed, 0);
  }

  /** Harmless crashes tear nothing. */
  lemma {:induction false} HarmlessTearsNothing(base: IpamState, actions: seq<Action>)
    requires base.held == map[] && base.subnets == map[]
    requires History(base, actions) && HarmlessHistory(base, actions)
    ensures TornTasks(base, actions) == {}
  {
    hide Consistent, Happens, Harmless, Next, Moved, Heals, Step, DurableState.Erased;
    if actions != [] {
      var front, a := actions[..|actions| - 1], actions[|actions| - 1];
      HarmlessTearsNothing(base, front);
      HistoryConsistent(base, front);
      NextConsistent(base, After(base, front), a);
      ErasedMovesNothing(Expected(After(base, front), a), Next(base, After(base, front), a).live);
    }
  }

  lemma HeldIsRecovered(base: IpamState, sys: System, restored: DateTime, replayed: DateTime)
    requires HoldsLive(base, sys)
    ensures Next(base, sys, Crash(restored, replayed)).live.Erased() == sys.live.Erased()
  {
    hide Recover, ApplyAll;
    RecoveredIsHeld(base, sys.snapshot, sys.journal, restored, replayed);
  }

  lemma NothingReplayed(base: IpamState, sys: System, restored: DateTime, replayed: DateTime)
    ensures Next(base, sys, Restart(restored, replayed)).live.Erased() == sys.live.Erased()
  {
    hide Recover;
    RecoveredIsHeld(base, Some(sys.live), [], restored, replayed);
    RestoreErasesNothing(sys.live, 0);
    ApplyNone(Restored(sys.live, 0), 0);
  }

  lemma TornIsRecovered(base: IpamState, sys: System, op: JournalOp, restored: DateTime, replayed: DateTime)
    requires HoldsLive(base, sys)
    ensures Recover(base, sys.snapshot, sys.journal + [op], restored, replayed).Erased()
            == ApplyOne(sys.live, op, 0).Erased()
  {
    hide Recover, ApplyAll, ApplyOne;
    var start := Loaded(base, sys.snapshot, 0);
    RecoveredIsHeld(base, sys.snapshot, sys.journal + [op], restored, replayed);
    ApplyConcat(start, sys.journal, [op], 0);
    ApplySingle(ApplyAll(start, sys.journal, 0), op, 0);
    ApplyOneRespectsErasure(ApplyAll(start, sys.journal, 0), sys.live, op, 0, 0);
  }

  // ---------------------------------------------------------------------
  // Retries
  // ---------------------------------------------------------------------

  /** A terminal report torn after the release: sent again it has the effect it
      would have had. */
  lemma TornReportRetried(s: DurableState, t: TaskId, state: TaskState, exitCode: Option<int>)
    requires state.IsTerminal()
    ensures var torn := ApplyOne(s, IpamRelease(t), 0);
            && torn.SetTaskState(t, state, exitCode).state == s.SetTaskState(t, state, exitCode).state.(
                 ipam := s.ipam.Release(t).1)
            && torn.SetTaskState(t, state, exitCode).result == s.SetTaskState(t, state, exitCode).result
            && (t in s.tasks && !s.tasks[t].state.IsTerminal() ==>
                  torn.SetTaskState(t, state, exitCode).state == s.SetTaskState(t, state, exitCode).state)
  {
    assert s.ipam.Release(t).1.Release(t).1 == s.ipam.Release(t).1;
  }

  /** A requeue torn after the release: the next pass requeues the task to the
      same effect. */
  lemma TornRequeueRetried(s: DurableState, t: TaskId)
    ensures RequeueOne(ApplyOne(s, IpamRelease(t), 0), t).0 == RequeueOne(s, t).0
  {
    assert s.ipam.Release(t).1.Release(t).1 == s.ipam.Release(t).1;
  }

  /** A placement torn after the allocation, tried again later: tasks and
      addresses agree again exactly when the node chosen now owns the /24 of the
      held address or owns none; the retry is replayed faithfully exactly when
      the chosen node, if any, owns a /24. Both hold exactly when the task goes
      where its address belongs. */
  lemma TornPlacementRetried(s: DurableState, t: TaskId, now: DateTime)
    requires Sound(s) && AgreesUpTo(s, {t}) && s.tasks[t].state.Pending?
    requires t in s.ipam.held && s.tasks[t].network.None? && s.tasks[t].spec.networkEnabled
    ensures var pick := PickNode(s.nodes, s.tasks[t], now);
            var (s', ops) := PlaceOne(s, t, now);
            && (Agreement(s') <==> pick.Some? && (pick.value !in s.ipam.subnets || ReturnsHome(s, t, now)))
            && (Replays(s, ops, s') <==> !(pick.Some? && pick.value !in s.ipam.subnets))
            && (Agreement(s') && Replays(s, ops, s') <==> ReturnsHome(s, t, now))
  {
    hide Sound, PlaceOne, Commit, Replays, IpamState.WellFormed, NetworkMatches, ReturnsHome;
    SoundParts(s);
    PlaceHolder(s, t, now);
    PlaceReplaysIff(s, t, now);
    PlaceUpTo(s, {t}, t, now);
    var pick := PickNode(s.nodes, s.tasks[t], now);
    var s' := PlaceOne(s, t, now).0;
    if ReturnsHome(s, t, now) {
      assert {t} - {t} == {};
      UpToNothing(s');
      HomeOwnsSubnet(s, t, now);
    } else if pick.Some? && pick.value !in s.ipam.subnets {
      GivenBackAgrees(s, t);
    } else {
      StillDisagrees(s, t, now);
    }
  }

  lemma HomeOwnsSubnet(s: DurableState, t: TaskId, now: DateTime)
    requires t in s.tasks && ReturnsHome(s, t, now)
    ensures var pick := PickNode(s.nodes, s.tasks[t], now); pick.Some? && pick.value in s.ipam.subnets
  {
  }

  lemma GivenBackAgrees(s: DurableState, t: TaskId)
    requires s.ipam.WellFormed() && NodesKnown(s) && AgreesUpTo(s, {t})
    requires s.tasks[t].state.Pending? && s.tasks[t].network.None?
    ensures Agreement(s.(ipam := s.ipam.Release(t).1))
  {
    hide IpamState.WellFormed, NetworkMatches;
    ReleaseKeeps(s.ipam, t);
    OthersAgree(s, s.(ipam := s.ipam.Release(t).1), t, {t}, {});
  }

  lemma StillDisagrees(s: DurableState, t: TaskId, now: DateTime)
    requires KeysMatch(s) && t in s.tasks && s.tasks[t].state.Pending? && s.tasks[t].network.None?
    requires t in s.ipam.held && s.tasks[t].spec.networkEnabled && !ReturnsHome(s, t, now)
    requires PickNode(s.nodes, s.tasks[t], now).Some? ==>
               PickNode(s.nodes, s.tasks[t], now).value in s.ipam.subnets
    ensures !Agreement(PlaceOne(s, t, now).0)
  {
    hide PlaceOne, Commit, Discovery.ServicesFor;
    PlaceHolder(s, t, now);
    var pick := PickNode(s.nodes, s.tasks[t], now);
    var s' := PlaceOne(s, t, now).0;
    if pick.Some? {
      var n := pick.value;
      CommitShape(s, t, n, Some(NetworkAssignment(s.ipam.held[t], s.ipam.GatewayFor(n).value, NETMASK)));
    }
    assert !TaskAgrees(t, s'.tasks[t], s'.nodes.Keys, s'.ipam);
  }
}
