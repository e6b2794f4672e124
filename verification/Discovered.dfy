/** What a task learns about services: which tasks an address stands for, and what a
    placement and its replay write into the task that is placed. */
module Discovered {
  import opened Types
  import opened Ordering
  import opened Ipam
  import opened Durable
  import opened Placement
  import opened Scheduling
  import opened Discovery
  import opened ServiceView

  // ---------------------------------------------------------------------
  // Who is listed
  // ---------------------------------------------------------------------

  /** Task `t` runs under service `name` and uses the address `ip`. */
  predicate RunsUnder(tasks: map<TaskId, Task>, t: TaskId, name: string, ip: Ip) {
    && t in tasks && tasks[t].state == Running && tasks[t].spec.serviceName == Some(name)
    && tasks[t].network.Some? && tasks[t].network.value.ip == ip
  }

  lemma EndpointIff(tasks: map<TaskId, Task>, name: string, t: TaskId, ip: Ip)
    requires IdsMatch(tasks)
    ensures ServiceEndpoint(t, ip) in EndpointsOf(tasks, name) <==> RunsUnder(tasks, t, name, ip)
    ensures Distinct(EndpointsOf(tasks, name)) && SortedBy(TaskIdOf, EndpointsOf(tasks, name))
  {
    hide EndpointsIn;
    ListingEnumerates(tasks.Keys);
    EndpointsListed(tasks, Listing(tasks.Keys), name);
  }

  /** The service view lists an endpoint exactly when its task runs under that service
      with that address; assigned tasks are not listed yet, finished ones no longer. */
  lemma ListedIff(tasks: map<TaskId, Task>, name: string, t: TaskId, ip: Ip)
    requires IdsMatch(tasks)
    ensures (exists i :: 0 <= i < |ServiceList(tasks)| && ServiceList(tasks)[i].name == name
                         && ServiceEndpoint(t, ip) in ServiceList(tasks)[i].endpoints)
            <==> RunsUnder(tasks, t, name, ip)
    ensures SortedBy(NameOf, ServiceList(tasks)) && Distinct(ServiceList(tasks))
  {
    hide EndpointsOf, RunsUnder, SortedIps, SortedBy, ServiceNames, Distinct;
    ListingEnumerates(ServiceNames(tasks));
    NamesSorted(Listing(ServiceNames(tasks)), ServiceList(tasks));
    EndpointIff(tasks, name, t, ip);
    ViewEntries(tasks, name);
    if RunsUnder(tasks, t, name, ip) {
      assert EndpointsOf(tasks, name) != [];
    }
  }

  /** The list a task is told has the text of an address exactly when some task runs
      under that service with that address. */
  lemma ToldIff(tasks: map<TaskId, Task>, name: string, ip: Ip)
    requires IdsMatch(tasks)
    ensures IpText(ip) in SortedIps(tasks, name) <==> exists t :: RunsUnder(tasks, t, name, ip)
  {
    hide EndpointsOf, SortedIps, RunsUnder, IpText, SortedBy;
    ViewsAgree(tasks, name);
    var es := EndpointsOf(tasks, name);
    SameMultisetSameElements(SortedIps(tasks, name), TextsIn(es), IpText(ip));
    if IpText(ip) in TextsIn(es) {
      var i :| 0 <= i < |es| && TextsIn(es)[i] == IpText(ip);
      IpTextInjective(es[i].ip, ip);
      assert ServiceEndpoint(es[i].taskId, ip) in es;
      EndpointIff(tasks, name, es[i].taskId, ip);
    }
    if t :| RunsUnder(tasks, t, name, ip) {
      EndpointIff(tasks, name, t, ip);
      var i :| 0 <= i < |es| && es[i] == ServiceEndpoint(t, ip);
      assert TextsIn(es)[i] == IpText(ip);
    }
  }

  // ---------------------------------------------------------------------
  // What a placed task is told
  // ---------------------------------------------------------------------

  /** `told` has an entry for every discovered service and no other: the addresses the
      view shows for it, sorted. */
  ghost predicate TellsServices(tasks: map<TaskId, Task>, discover: seq<string>, told: map<string, seq<string>>) {
    && (forall name :: name in told <==> name in discover)
    && (forall name | name in told ::
          SortedBy(Self, told[name]) && multiset(told[name]) == multiset(TextsIn(EndpointsOf(tasks, name))))
  }

  /** From `env` to `env'` only the services entry changed, which holds `told`. */
  ghost predicate OnlyAdds(env: map<string, EnvValue>, env': map<string, EnvValue>, told: map<string, seq<string>>) {
    && "BIGTOP_SERVICES" in env' && env'["BIGTOP_SERVICES"] == Services(told)
    && (forall k | k != "BIGTOP_SERVICES" :: k in env' <==> k in env)
    && (forall k | k != "BIGTOP_SERVICES" && k in env :: env'[k] == env[k])
  }

  /** A task that discovers nothing keeps its environment, another one is told about
      its services there and nowhere else. */
  ghost predicate Learns(tasks: map<TaskId, Task>, task: Task, task': Task) {
    if task.spec.discover == [] then task'.spec == task.spec
    else
      && task'.spec == task.spec.(env := task'.spec.env)
      && exists told :: TellsServices(tasks, task.spec.discover, told) && OnlyAdds(task.spec.env, task'.spec.env, told)
  }

  /** `task'` is `task` assigned to node `n` with the given network. */
  predicate AssignedTo(task: Task, task': Task, n: NodeId, network: Option<NetworkAssignment>) {
    task' == task.(state := Assigned, assignedNode := Some(n), network := network, spec := task'.spec)
  }

  lemma ToldServices(tasks: map<TaskId, Task>, task: Task)
    ensures ServicesFor(tasks, task).None? <==> task.spec.discover == []
    ensures task.spec.discover != [] ==> TellsServices(tasks, task.spec.discover, ServicesFor(tasks, task).value)
  {
    hide SortedIps, EndpointsOf;
    forall name | name in task.spec.discover
      ensures SortedBy(Self, SortedIps(tasks, name))
      ensures multiset(SortedIps(tasks, name)) == multiset(TextsIn(EndpointsOf(tasks, name)))
    {
      ViewsAgree(tasks, name);
    }
  }

  lemma CommitTells(s: DurableState, t: TaskId, n: NodeId, network: Option<NetworkAssignment>,
                    before: DurableState, later: DateTime)
    requires t in s.tasks && n in s.nodes && s.nodes[n].id == n && before.tasks == s.tasks
    ensures var (s', ops) := Commit(s, t, n, network);
            && s'.ipam == s.ipam && t in s'.tasks && AssignedTo(s.tasks[t], s'.tasks[t], n, network)
            && Learns(s.tasks, s.tasks[t], s'.tasks[t])
            && (forall u | u != t :: u in s'.tasks <==> u in s.tasks)
            && (forall u | u != t && u in s.tasks :: s'.tasks[u] == s.tasks[u])
            && ops != [] && ApplyOne(before, ops[|ops| - 1], later).tasks == s'.tasks
  {
    hide ServicesFor, TellsServices;
    ToldServices(s.tasks, s.tasks[t]);
    CommitShape(s, t, n, network);
  }

  /** A replayed placement writes the recorded node, network and services into the
      record, and nothing else. */
  lemma ReplayTells(s: DurableState, t: TaskId, n: NodeId, network: Option<NetworkAssignment>,
                    services: Option<map<string, seq<string>>>, now: DateTime)
    requires t in s.tasks
    ensures var s' := ApplyOne(s, TaskAssigned(t, n, network, services), now);
            && s' == s.(tasks := s'.tasks) && s'.tasks.Keys == s.tasks.Keys
            && AssignedTo(s.tasks[t], s'.tasks[t], n, network)
            && s'.tasks[t].spec == s.tasks[t].spec.(env := s'.tasks[t].spec.env)
            && (services.None? ==> s'.tasks[t].spec == s.tasks[t].spec)
            && (services.Some? ==> OnlyAdds(s.tasks[t].spec.env, s'.tasks[t].spec.env, services.value))
            && (forall u | u != t && u in s.tasks :: s'.tasks[u] == s.tasks[u])
  {
  }

  /** The network a placement on node `n` gives the task: the address the allocator
      holds for it, the gateway and the mask of the node's /24. */
  predicate OnNode(ipam: IpamState, t: TaskId, n: NodeId, w: NetworkAssignment) {
    && t in ipam.held && w.ip == ipam.held[t]
    && n in ipam.subnets && w.gateway == Ip(ipam.base0, ipam.base1, ipam.subnets[n], 1)
    && w.netmask == Ip(255, 255, 255, 0)
  }

  /** `x` and `y` together, cut off at the top of the 64 bit range. */
  function Together(x: U64, y: U64): U64 {
    if x + y <= 0xFFFF_FFFF_FFFF_FFFF then x + y else 0xFFFF_FFFF_FFFF_FFFF
  }

  /** A placement adds what the task asks for to `used` of the node it goes to, and
      touches no other node, job or snapshot record. */
  lemma PlacementTakes(s: DurableState, t: TaskId, now: DateTime)
    requires KeysMatch(s) && t in s.tasks
    ensures var (s', ops) := PlaceOne(s, t, now);
            var (need, pick) := (s.tasks[t].spec.resources, PickNode(s.nodes, s.tasks[t], now));
            && s'.jobs == s.jobs && s'.snapshots == s.snapshots
            && (ops == [] ==> s'.nodes == s.nodes)
            && (ops != [] ==>
                  && pick.Some? && pick.value in s.nodes
                  && var node := s.nodes[pick.value];
                     s'.nodes == s.nodes[pick.value := node.(used := Resources(
                       Together(node.used.cpuMillis, need.cpuMillis), Together(node.used.memMb, need.memMb)))])
  {
    hide ServicesFor, PlacedOn, IpamState.Allocate, IpamState.Release, PickNode;
  }

  lemma AllocateHolds(s: IpamState, n: NodeId, t: TaskId)
    ensures var (ip, s') := s.Allocate(n, t); ip.Some? ==> t in s'.held && s'.held[t] == ip.value
  {
  }

  /** Either a task is not placed and no record changes, or it is assigned to the node
      picked for it, networked as it asked for, and told about the services it
      discovers; replaying the placement writes the same record. */
  lemma PlacementTells(s: DurableState, t: TaskId, now: DateTime, later: DateTime)
    requires KeysMatch(s) && t in s.tasks
    ensures var (s', ops) := PlaceOne(s, t, now);
            var (task, pick) := (s.tasks[t], PickNode(s.nodes, s.tasks[t], now));
            if ops == [] then s'.tasks == s.tasks else
              && pick.Some? && t in s'.tasks && AssignedTo(task, s'.tasks[t], pick.value, s'.tasks[t].network)
              && Learns(s.tasks, task, s'.tasks[t])
              && (!task.spec.networkEnabled ==> s'.tasks[t].network == None)
              && (task.spec.networkEnabled ==>
                    s'.tasks[t].network.Some? && OnNode(s'.ipam, t, pick.value, s'.tasks[t].network.value))
              && (forall u | u != t :: u in s'.tasks <==> u in s.tasks)
              && (forall u | u != t && u in s.tasks :: s'.tasks[u] == s.tasks[u])
              && ApplyOne(s, ops[|ops| - 1], later).tasks == s'.tasks
  {
    hide Commit, Learns, ApplyOne, IpamState.Allocate;
    var task, pick := s.tasks[t], PickNode(s.nodes, s.tasks[t], now);
    if pick.Some? {
      var n := pick.value;
      if !task.spec.networkEnabled {
        CommitTells(s, t, n, None, s, later);
      } else {
        var (ip, ipam') := s.ipam.Allocate(n, t);
        if ip.Some? && ipam'.GatewayFor(n).Some? {
          var w := NetworkAssignment(ip.value, ipam'.GatewayFor(n).value, NETMASK);
          AllocateHolds(s.ipam, n, t);
          CommitTells(s.(ipam := ipam'), t, n, Some(w), s, later);
        }
      }
    }
  }
}
