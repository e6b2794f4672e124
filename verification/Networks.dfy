/** Addresses as the guests use them: the networks the task records carry. The
    allocator never gives one address to two tasks, and yet two records can carry
    the same one after a crash has torn a task from its address, inside a group of
    operations or during a compaction. This module says when. */
module Networks {
  import opened Types
  import opened Ipam
  import opened Durable
  import opened Placement
  import opened Scheduling
  import opened Soundness
  import opened Invariants
  import opened Runs
  import opened Recovery
  import opened Survival
  import opened TornGroups

  // ---------------------------------------------------------------------
  // Where tasks and addresses agree
  // ---------------------------------------------------------------------

  /** Two tasks that no crash has torn from their addresses never use the same
      one. */
  lemma AgreeingTasksDiffer(s: DurableState, torn: set<TaskId>, t: TaskId, u: TaskId)
    requires AgreesUpTo(s, torn) && s.ipam.WellFormed()
    requires t in s.tasks && u in s.tasks && t !in torn && u !in torn && Share(s.tasks[t], s.tasks[u])
    ensures t == u
  {
    assert TaskAgrees(t, s.tasks[t], s.nodes.Keys, s.ipam);
    assert TaskAgrees(u, s.tasks[u], s.nodes.Keys, s.ipam);
  }

  lemma AgreementIsDistinct(s: DurableState)
    requires Agreement(s) && s.ipam.WellFormed()
    ensures NetworksDistinct(s)
  {
    hide Share, AgreesUpTo, Agreement, IpamState.WellFormed;
    UpToNothing(s);
    forall t, u | t in s.tasks && u in s.tasks && Share(s.tasks[t], s.tasks[u]) ensures t == u {
      AgreeingTasksDiffer(s, {}, t, u);
    }
  }

  // ---------------------------------------------------------------------
  // The one step that makes two tasks share
  // ---------------------------------------------------------------------

  /** The address placing `w` would give it, if it comes to that. */
  ghost function AddressFor(s: DurableState, w: TaskId, now: DateTime): Option<Ip>
    requires w in s.tasks
  {
    var pick := PickNode(s.nodes, s.tasks[w], now);
    if !s.tasks[w].spec.networkEnabled || pick.None? then None else
      var (ip, ipam') := s.ipam.Allocate(pick.value, w);
      if ip.Some? && ipam'.GatewayFor(pick.value).Some? then ip else None
  }

  /** Placing `w` gives it an address that another unfinished task uses. */
  ghost predicate TakesAnothers(s: DurableState, w: TaskId, now: DateTime)
    requires w in s.tasks
  {
    AddressFor(s, w, now).Some? && UsedByAnother(s, w, AddressFor(s, w, now).value)
  }

  ghost predicate UsedByAnother(s: DurableState, w: TaskId, ip: Ip) {
    exists u :: u in s.tasks && u != w && Uses(s.tasks[u], ip)
  }

  /** The allocator does not know that task as the holder: only a task that
      disagrees with the allocator can lose its address to another. */
  lemma VictimHoldsNothing(s: DurableState, w: TaskId, now: DateTime, u: TaskId)
    requires s.ipam.WellFormed() && w in s.tasks && u in s.tasks && u != w
    requires AddressFor(s, w, now).Some? && Uses(s.tasks[u], AddressFor(s, w, now).value)
    ensures !TaskAgrees(u, s.tasks[u], s.nodes.Keys, s.ipam)
  {
    hide PickNode, IpamState.SubnetOctet;
    AllocateKeeps(s.ipam, PickNode(s.nodes, s.tasks[w], now).value, w);
  }

  /** What placing `w` does to the networks of the records. */
  lemma PlacedNetwork(s: DurableState, w: TaskId, now: DateTime)
    requires KeysMatch(s) && w in s.tasks && s.tasks[w].state.Pending?
    ensures var s' := PlaceOne(s, w, now).0;
            && s'.tasks.Keys == s.tasks.Keys
            && (forall u | u in s.tasks && u != w :: s'.tasks[u] == s.tasks[u])
            && if AddressFor(s, w, now).Some?
               then Uses(s'.tasks[w], AddressFor(s, w, now).value)
               else s'.tasks[w] == s.tasks[w] || s'.tasks[w].network.None?
  {
    hide Commit, IpamState.Allocate, PickNode, IsEligible, Before;
    PlaceTouchesOneTask(s, w, now);
    var pick := PickNode(s.nodes, s.tasks[w], now);
    if pick.Some? {
      PickIsKnown(s, w, now);
      var (ip, ipam') := s.ipam.Allocate(pick.value, w);
      if !s.tasks[w].spec.networkEnabled {
        CommitShape(s, w, pick.value, None);
      } else if AddressFor(s, w, now).Some? {
        CommitShape(s.(ipam := ipam'), w, pick.value,
                    Some(NetworkAssignment(ip.value, ipam'.GatewayFor(pick.value).value, NETMASK)));
      }
    }
  }

  lemma PickIsKnown(s: DurableState, w: TaskId, now: DateTime)
    requires KeysMatch(s) && w in s.tasks && PickNode(s.nodes, s.tasks[w], now).Some?
    ensures var n := PickNode(s.nodes, s.tasks[w], now).value; n in s.nodes && s.nodes[n].id == n
  {
  }

  lemma PlaceDistinctIff(s: DurableState, w: TaskId, now: DateTime)
    requires KeysMatch(s) && NetworksDistinct(s) && w in s.tasks && s.tasks[w].state.Pending?
    ensures NetworksDistinct(PlaceOne(s, w, now).0) <==> !TakesAnothers(s, w, now)
  {
    hide PlaceOne, AddressFor, KeysMatch;
    PlacedNetwork(s, w, now);
    var s' := PlaceOne(s, w, now).0;
    var ip := AddressFor(s, w, now);
    if ip.None? {
      DistinctKept(s, s');
    } else if TakesAnothers(s, w, now) {
      var u :| u in s.tasks && u != w && Uses(s.tasks[u], ip.value);
      assert Share(s'.tasks[w], s'.tasks[u]);
    } else {
      forall t, u | t in s'.tasks && u in s'.tasks && Share(s'.tasks[t], s'.tasks[u]) ensures t == u {
        if t != w && u != w {
          assert Share(s.tasks[t], s.tasks[u]);
        }
      }
    }
  }

  /** Records that use no address they did not use before. */
  lemma DistinctKept(s: DurableState, s': DurableState)
    requires NetworksDistinct(s)
    requires forall t | t in s'.tasks && s'.tasks[t].network.Some? && !s'.tasks[t].state.IsTerminal() ::
               t in s.tasks && !s.tasks[t].state.IsTerminal() && s'.tasks[t].network == s.tasks[t].network
    ensures NetworksDistinct(s')
  {
    forall t, u | t in s'.tasks && u in s'.tasks && Share(s'.tasks[t], s'.tasks[u]) ensures t == u {
      assert Share(s.tasks[t], s.tasks[u]);
    }
  }

  lemma CreateDistinct(s: DurableState, spec: JobSpec, now: DateTime, jobId: JobId, ids: seq<TaskId>)
    requires NetworksDistinct(s) && Allowed(s, JobSubmitted(spec, now, jobId, ids))
    ensures NetworksDistinct(s.CreateJob(spec, now, jobId, ids).state)
  {
    hide Copies, InsertTasks, IsValidSpec, NetworksDistinct;
    var s' := s.CreateJob(spec, now, jobId, ids).state;
    if IsValidSpec(spec) {
      forall t | t in s'.tasks && s'.tasks[t].network.Some? ensures t in s.tasks && s'.tasks[t] == s.tasks[t] {
        CreatedTasks(s, spec, now, jobId, ids, t);
      }
      DistinctKept(s, s');
    }
  }

  /** Two tasks come to share an address in one step exactly when the step places
      a task on an address that another unfinished task uses. */
  lemma StepDistinctIff(s: DurableState, e: Event)
    requires KeysMatch(s) && NetworksDistinct(s) && Allowed(s, e)
    ensures NetworksDistinct(Step(s, e).0) <==> !(e.TaskPlaced? && TakesAnothers(s, e.t, e.now))
  {
    hide NetworksDistinct, PlaceOne, TakesAnothers, KeysMatch, IpamState.Release, Copies, IsValidSpec;
    match e
    case JobSubmitted(spec, now, jobId, ids) => CreateDistinct(s, spec, now, jobId, ids);
    case TaskPlaced(w, now) => PlaceDistinctIff(s, w, now);
    case _ => DistinctKept(s, Step(s, e).0);
  }

  // ---------------------------------------------------------------------
  // Whole histories
  // ---------------------------------------------------------------------

  /** The action serves a placement, or tears it at its end, that takes another
      task's address. */
  ghost predicate Takes(sys: System, a: Action) {
    && Completes(sys, a)
    && a.event.TaskPlaced? && a.event.t in sys.live.tasks && TakesAnothers(sys.live, a.event.t, a.event.now)
  }

  /** No crash makes two tasks share an address, and a served event only in that
      one way. */
  lemma NextDistinctIff(base: IpamState, sys: System, a: Action)
    requires Backed(base, sys) && Happens(sys, a) && NetworksDistinct(sys.live)
    ensures NetworksDistinct(Next(base, sys, a).live) <==> !Takes(sys, a)
  {
    hide Backed, Step, Allowed, Next, NetworksDistinct, TakesAnothers, Sound;
    BackedIsSound(base, sys);
    SoundParts(sys.live);
    NextBacked(base, sys, a);
    SameTasksDistinct(Next(base, sys, a).live, Expected(sys, a));
    if a.Serve? || a.Tear? {
      PlacedIsKnown(sys.live, a.event);
      StepDistinctIff(sys.live, a.event);
    }
  }

  lemma PlacedIsKnown(s: DurableState, e: Event)
    requires Allowed(s, e)
    ensures e.TaskPlaced? ==> e.t in s.tasks
  {
  }

  lemma SameTasksDistinct(r: DurableState, s: DurableState)
    requires r.Records() == s.Records()
    ensures NetworksDistinct(r) <==> NetworksDistinct(s)
  {
    SameRecordsParts(r, s);
  }

  ghost predicate NoneTakes(base: IpamState, actions: seq<Action>) {
    actions != [] ==>
      && NoneTakes(base, actions[..|actions| - 1])
      && !Takes(After(base, actions[..|actions| - 1]), actions[|actions| - 1])
  }

  /** Over any history, whatever its crashes, no two unfinished tasks use the same
      address as long as no placement takes one that is in use. */
  lemma {:induction false} HistoryDistinct(base: IpamState, actions: seq<Action>)
    requires base.held == map[] && base.subnets == map[]
    requires History(base, actions) && NoneTakes(base, actions)
    ensures NetworksDistinct(After(base, actions).live)
  {
    hide Backed, Happens, Next, Takes;
    if actions != [] {
      var front := actions[..|actions| - 1];
      HistoryDistinct(base, front);
      HistoryBacked(base, front);
      NextDistinctIff(base, After(base, front), actions[|actions| - 1]);
    }
  }

  /** After harmless crashes none does. */
  lemma HarmlessHistoryDistinct(base: IpamState, actions: seq<Action>)
    requires base.held == map[] && base.subnets == map[]
    requires History(base, actions) && HarmlessHistory(base, actions)
    ensures NetworksDistinct(After(base, actions).live)
  {
    hide NetworksDistinct, Sound, Agreement;
    HistorySafe(base, actions, 0, 0);
    AgreementIsDistinct(After(base, actions).live);
  }

  /** At any moment of any history, of two unfinished tasks that use the same address
      a crash has torn one from its address and nothing has put it right since. */
  lemma OnlyTornTasksShare(base: IpamState, actions: seq<Action>, t: TaskId, u: TaskId)
    requires base.held == map[] && base.subnets == map[]
    requires History(base, actions)
    requires var tasks := After(base, actions).live.tasks;
             t in tasks && u in tasks && t != u && Share(tasks[t], tasks[u])
    ensures t in TornTasks(base, actions) || u in TornTasks(base, actions)
  {
    hide AgreesUpTo, Sound, Share, HoldersKnown;
    OnlyTornTasksDisagree(base, actions);
    HistoryBacked(base, actions);
    BackedIsSound(base, After(base, actions));
    SoundParts(After(base, actions).live);
    if t !in TornTasks(base, actions) && u !in TornTasks(base, actions) {
      AgreeingTasksDiffer(After(base, actions).live, TornTasks(base, actions), t, u);
    }
  }
}
