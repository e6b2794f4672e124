/** The choice of a node in plain arithmetic: which nodes can take a task, and which
    of them gets it. */
module Preference {
  import opened Types
  import opened Ordering
  import opened Placement

  /** `need` fits beside `used` into `total`. Sums stop at the top of the 64 bit range,
      so a total that lies there has room for anything. */
  predicate HasRoom(need: int, used: int, total: int) {
    used + need <= total || total == 0xFFFF_FFFF_FFFF_FFFF
  }

  /** The node was heard less than eleven seconds ago, has room for the CPU and the
      memory of the task, and is the one the task asks for if it asks for one. */
  predicate CanTake(node: NodeInfo, task: Task, now: DateTime) {
    && now - node.lastHeartbeat < 11_000_000_000
    && HasRoom(task.spec.resources.cpuMillis, node.used.cpuMillis, node.total.cpuMillis)
    && HasRoom(task.spec.resources.memMb, node.used.memMb, node.total.memMb)
    && (task.spec.nodeAffinity == None || task.spec.nodeAffinity == Some(node.id))
  }

  lemma EligibleIffCanTake(node: NodeInfo, task: Task, now: DateTime)
    ensures IsEligible(node, task, now) <==> CanTake(node, task, now)
  {
  }

  predicate HasCapacity(node: NodeInfo) {
    node.total.cpuMillis > 0 && node.total.memMb > 0
  }

  /** A node with capacity beats one without. Of two with capacity the one with the
      smaller share of its CPU in use wins, on equal shares the one with the smaller
      share of its memory in use. What is still tied goes to the smaller id. */
  predicate Beats(a: NodeInfo, b: NodeInfo) {
    if HasCapacity(a) && HasCapacity(b) then
      var (acpu, bcpu) := (a.used.cpuMillis * b.total.cpuMillis, b.used.cpuMillis * a.total.cpuMillis);
      var (amem, bmem) := (a.used.memMb * b.total.memMb, b.used.memMb * a.total.memMb);
      acpu < bcpu || (acpu == bcpu && (amem < bmem || (amem == bmem && Less(a.id, b.id))))
    else
      HasCapacity(a) || (!HasCapacity(b) && Less(a.id, b.id))
  }

  lemma BeforeIffBeats(a: NodeInfo, b: NodeInfo)
    ensures Before(a, b) <==> Beats(a, b)
  {
  }

  /** Every node is recorded under its own id. */
  predicate NodeIdsMatch(nodes: map<NodeId, NodeInfo>) {
    forall k | k in nodes :: nodes[k].id == k
  }

  /** The node picked can take the task and beats every other node that can, and a node
      like that is picked. */
  lemma PickedIff(nodes: map<NodeId, NodeInfo>, task: Task, now: DateTime, n: NodeId)
    requires NodeIdsMatch(nodes)
    ensures PickNode(nodes, task, now) == Some(n) <==>
              && n in nodes && CanTake(nodes[n], task, now)
              && forall m | m in nodes && m != n && CanTake(nodes[m], task, now) :: Beats(nodes[n], nodes[m])
  {
    hide IsEligible, CanTake, Beats, Before;
    forall m | m in nodes ensures IsEligible(nodes[m], task, now) <==> CanTake(nodes[m], task, now) {
      EligibleIffCanTake(nodes[m], task, now);
    }
    if n in nodes {
      forall m | m in nodes ensures !Before(nodes[m], nodes[n]) <==> m == n || Beats(nodes[n], nodes[m]) {
        BeforeIffBeats(nodes[n], nodes[m]);
        BeforeIsStrictTotalOrder(nodes[n], nodes[m], nodes[n]);
      }
      PickedIffLeast(nodes, task, now, n);
    }
  }

  lemma PickedIffLeast(nodes: map<NodeId, NodeInfo>, task: Task, now: DateTime, n: NodeId)
    requires NodeIdsMatch(nodes) && n in nodes
    ensures PickNode(nodes, task, now) == Some(n) <==> IsLeast(nodes, task, now, n)
  {
    hide IsLeast, PickNode;
    if IsLeast(nodes, task, now, n) {
      assert IsChoice(nodes, task, now, Some(n));
      ChoiceUnique(nodes, task, now, Some(n), PickNode(nodes, task, now));
    }
  }

  /** No node is picked exactly when none can take the task. */
  lemma NoneIffNobody(nodes: map<NodeId, NodeInfo>, task: Task, now: DateTime)
    ensures PickNode(nodes, task, now) == None <==> forall m | m in nodes :: !CanTake(nodes[m], task, now)
  {
    hide IsEligible, CanTake;
    forall m | m in nodes ensures IsEligible(nodes[m], task, now) <==> CanTake(nodes[m], task, now) {
      EligibleIffCanTake(nodes[m], task, now);
    }
  }

  /** No node that can take the task has a smaller share of its CPU in use than the one
      picked, nor as small a share of its CPU and a smaller share of its memory. */
  lemma PickedIsLeastLoaded(nodes: map<NodeId, NodeInfo>, task: Task, now: DateTime, n: NodeId, m: NodeId)
    requires NodeIdsMatch(nodes) && PickNode(nodes, task, now) == Some(n)
    requires m in nodes && m != n && CanTake(nodes[m], task, now)
    ensures n in nodes
    ensures HasCapacity(nodes[m]) ==>
              var (a, b) := (nodes[n], nodes[m]);
              && HasCapacity(a)
              && a.used.cpuMillis * b.total.cpuMillis <= b.used.cpuMillis * a.total.cpuMillis
              && (a.used.cpuMillis * b.total.cpuMillis == b.used.cpuMillis * a.total.cpuMillis ==>
                    && a.used.memMb * b.total.memMb <= b.used.memMb * a.total.memMb
                    && (a.used.memMb * b.total.memMb == b.used.memMb * a.total.memMb ==> Less(n, m)))
    ensures !HasCapacity(nodes[n]) ==> !HasCapacity(nodes[m]) && Less(n, m)
  {
    hide PickNode;
    PickedIff(nodes, task, now, n);
  }
}
