/** Resource accounting: what the tasks placed on a node demand, the recount
    the scheduler makes of it, and the no-overcommit property. */
module Accounting {
  import opened Types
  import opened Durable

  /** A sum of resources that cannot saturate. */
  datatype Demand = Demand(cpu: nat, mem: nat) {
    function Plus(other: Demand): Demand {
      Demand(cpu + other.cpu, mem + other.mem)
    }

    /** The sum as saturating 64 bit arithmetic delivers it. */
    function Saturated(): Resources {
      Resources(if cpu > U64_MAX then U64_MAX else cpu, if mem > U64_MAX then U64_MAX else mem)
    }
  }

  const NO_DEMAND := Demand(0, 0)

  /** What one task counts for on node `n`. */
  function DemandOf(task: Task, n: NodeId): Demand {
    if task.state.HoldsResources() && task.assignedNode == Some(n)
    then Demand(task.spec.resources.cpuMillis, task.spec.resources.memMb)
    else NO_DEMAND
  }

  function DemandAt(tasks: map<TaskId, Task>, t: TaskId, n: NodeId): Demand {
    if t in tasks then DemandOf(tasks[t], n) else NO_DEMAND
  }

  /** What the tasks `ids` demand of node `n`. */
  ghost function DemandFrom(tasks: map<TaskId, Task>, ids: set<TaskId>, n: NodeId): Demand {
    if ids == {} then NO_DEMAND else
      var t :| t in ids;
      DemandFrom(tasks, ids - {t}, n).Plus(DemandAt(tasks, t, n))
  }

  ghost function DemandOn(tasks: map<TaskId, Task>, n: NodeId): Demand {
    DemandFrom(tasks, tasks.Keys, n)
  }

  /** The sum does not depend on the order the tasks are visited in. */
  lemma {:induction false} DemandSplit(tasks: map<TaskId, Task>, ids: set<TaskId>, t: TaskId, n: NodeId)
    requires t in ids
    ensures DemandFrom(tasks, ids, n) == DemandFrom(tasks, ids - {t}, n).Plus(DemandAt(tasks, t, n))
    decreases |ids|
  {
    var u := FirstCounted(tasks, ids, n);
    if u != t {
      var rest := ids - {u} - {t};
      assert rest == ids - {t} - {u};
      DemandSplit(tasks, ids - {u}, t, n);
      DemandSplit(tasks, ids - {t}, u, n);
      PlusSwap(DemandFrom(tasks, rest, n), DemandAt(tasks, t, n), DemandAt(tasks, u, n));
    }
  }

  lemma FirstCounted(tasks: map<TaskId, Task>, ids: set<TaskId>, n: NodeId) returns (u: TaskId)
    requires ids != {}
    ensures u in ids
    ensures DemandFrom(tasks, ids, n) == DemandFrom(tasks, ids - {u}, n).Plus(DemandAt(tasks, u, n))
  {
    u :| u in ids && DemandFrom(tasks, ids, n) == DemandFrom(tasks, ids - {u}, n).Plus(DemandAt(tasks, u, n));
  }

  lemma PlusSwap(a: Demand, b: Demand, c: Demand)
    ensures a.Plus(b).Plus(c) == a.Plus(c).Plus(b)
  {
  }

  lemma {:induction false} DemandSame(tasks: map<TaskId, Task>, tasks': map<TaskId, Task>, ids: set<TaskId>, n: NodeId)
    requires forall t | t in ids :: DemandAt(tasks, t, n) == DemandAt(tasks', t, n)
    ensures DemandFrom(tasks, ids, n) == DemandFrom(tasks', ids, n)
    decreases |ids|
  {
    if ids != {} {
      var t :| t in ids;
      DemandSame(tasks, tasks', ids - {t}, n);
      DemandSplit(tasks, ids, t, n);
      DemandSplit(tasks', ids, t, n);
    }
  }

  lemma {:induction false} DemandZero(tasks: map<TaskId, Task>, ids: set<TaskId>, n: NodeId)
    requires forall t | t in ids :: DemandAt(tasks, t, n) == NO_DEMAND
    ensures DemandFrom(tasks, ids, n) == NO_DEMAND
    decreases |ids|
  {
    if ids != {} {
      var t :| t in ids;
      var rest := ids - {t};
      assert forall u | u in rest :: u in ids;
      DemandZero(tasks, rest, n);
      DemandSplit(tasks, ids, t, n);
    }
  }

  /** Tasks that demand nothing may be left out of the sum. */
  lemma {:induction false} DemandExtra(tasks: map<TaskId, Task>, ids: set<TaskId>, extra: set<TaskId>, n: NodeId)
    requires ids !! extra
    requires forall t | t in extra :: DemandAt(tasks, t, n) == NO_DEMAND
    ensures DemandFrom(tasks, ids + extra, n) == DemandFrom(tasks, ids, n)
    decreases |extra|
  {
    if extra == {} {
      assert ids + extra == ids;
    } else {
      var t :| t in extra;
      assert ids + extra - {t} == ids + (extra - {t});
      DemandExtra(tasks, ids, extra - {t}, n);
      DemandSplit(tasks, ids + extra, t, n);
    }
  }

  /** Two task maps in which every task demands the same of `n`. */
  lemma DemandUnchanged(tasks: map<TaskId, Task>, tasks': map<TaskId, Task>, n: NodeId)
    requires tasks.Keys <= tasks'.Keys
    requires forall t | t in tasks' :: DemandAt(tasks, t, n) == DemandAt(tasks', t, n)
    ensures DemandOn(tasks, n) == DemandOn(tasks', n)
  {
    var extra := tasks'.Keys - tasks.Keys;
    DemandSame(tasks, tasks', tasks.Keys, n);
    DemandExtra(tasks', tasks.Keys, extra, n);
    assert tasks.Keys + extra == tasks'.Keys;
  }

  /** Replacing one task changes the demand by the difference of the two. */
  lemma DemandUpdate(tasks: map<TaskId, Task>, t: TaskId, task: Task, n: NodeId)
    requires t in tasks
    ensures DemandOn(tasks[t := task], n) == DemandFrom(tasks, tasks.Keys - {t}, n).Plus(DemandOf(task, n))
    ensures DemandOn(tasks, n) == DemandFrom(tasks, tasks.Keys - {t}, n).Plus(DemandOf(tasks[t], n))
  {
    var tasks' := tasks[t := task];
    assert tasks'.Keys == tasks.Keys;
    DemandSplit(tasks, tasks.Keys, t, n);
    DemandSplit(tasks', tasks.Keys, t, n);
    DemandSame(tasks, tasks', tasks.Keys - {t}, n);
  }

  /** The demand on a node is the sum over the tasks that are assigned to it or run on
      it, of the CPU and of the memory they ask for. */
  lemma DemandIsSum(tasks: map<TaskId, Task>, t: TaskId, n: NodeId)
    ensures DemandOn(map[], n) == Demand(0, 0)
    ensures t in tasks ==>
              var (task, rest) := (tasks[t], DemandOn(tasks - {t}, n));
              var counts := (task.state == Assigned || task.state == Running) && task.assignedNode == Some(n);
              && DemandOn(tasks, n).cpu == rest.cpu + (if counts then task.spec.resources.cpuMillis else 0)
              && DemandOn(tasks, n).mem == rest.mem + (if counts then task.spec.resources.memMb else 0)
  {
    var none: map<TaskId, Task> := map[];
    assert none.Keys == {};
    if t in tasks {
      var rest := tasks - {t};
      assert rest.Keys == tasks.Keys - {t};
      DemandSplit(tasks, tasks.Keys, t, n);
      DemandSame(tasks, rest, rest.Keys, n);
    }
  }

  lemma SaturatedPlus(d: Demand, task: Task, n: NodeId)
    requires task.state.HoldsResources() && task.assignedNode == Some(n)
    ensures d.Plus(DemandOf(task, n)).Saturated() == d.Saturated().SaturatingAdd(task.spec.resources)
  {
  }

  // ---------------------------------------------------------------------
  // The recount
  // ---------------------------------------------------------------------

  /** What `recount_used` records for node `n`. */
  ghost function RecountOf(tasks: map<TaskId, Task>, n: NodeId): Resources {
    DemandOn(tasks, n).Saturated()
  }

  ghost function Recounted(s: DurableState): DurableState {
    s.(nodes := map n | n in s.nodes :: s.nodes[n].(used := RecountOf(s.tasks, n)))
  }

  lemma RecountErasesNothing(s: DurableState)
    ensures Recounted(s).Erased() == s.Erased()
  {
    assert Recounted(s).Erased().nodes == s.Erased().nodes;
  }

  /** The recount is the demand, cut off at the top of the 64 bit range. */
  lemma RecountIs(tasks: map<TaskId, Task>, n: NodeId)
    ensures var (r, d) := (RecountOf(tasks, n), DemandOn(tasks, n));
            && r.cpuMillis == (if d.cpu <= 0xFFFF_FFFF_FFFF_FFFF then d.cpu else 0xFFFF_FFFF_FFFF_FFFF)
            && r.memMb == (if d.mem <= 0xFFFF_FFFF_FFFF_FFFF then d.mem else 0xFFFF_FFFF_FFFF_FFFF)
  {
  }

  /** No node is promised more than it has. */
  ghost predicate NoOvercommit(s: DurableState) {
    forall n | n in s.nodes :: RecountOf(s.tasks, n).Within(s.nodes[n].total)
  }

  /** The recorded `used` never understates the demand. */
  ghost predicate UsedCovers(s: DurableState) {
    forall n | n in s.nodes :: RecountOf(s.tasks, n).Within(s.nodes[n].used)
  }

  /** The recorded `used` is the recount. */
  ghost predicate UsedExact(s: DurableState) {
    forall n | n in s.nodes :: s.nodes[n].used == RecountOf(s.tasks, n)
  }

  /** Below the top of the 64 bit range a saturating sum that fits is a true
      sum that fits. */
  lemma TrueDemandFits(s: DurableState, n: NodeId)
    requires NoOvercommit(s) && n in s.nodes
    ensures s.nodes[n].total.cpuMillis < U64_MAX ==> DemandOn(s.tasks, n).cpu <= s.nodes[n].total.cpuMillis
    ensures s.nodes[n].total.memMb < U64_MAX ==> DemandOn(s.tasks, n).mem <= s.nodes[n].total.memMb
  {
    assert RecountOf(s.tasks, n).Within(s.nodes[n].total);
  }
}
