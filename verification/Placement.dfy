/** Where a task goes: the load order on nodes and the least loaded node that
    fits. */
module Placement {
  import opened Types
  import Ordering

  datatype Comparison = LT | EQ | GT {
    function Flip(): Comparison {
      match this
      case LT => GT
      case EQ => EQ
      case GT => LT
    }

    function Then(other: Comparison): Comparison {
      if EQ? then other else this
    }
  }

  function CompareInts(x: int, y: int): Comparison {
    if x < y then LT else if x == y then EQ else GT
  }

  function CompareStrings(x: string, y: string): Comparison {
    if Ordering.Less(x, y) then LT else if x == y then EQ else GT
  }

  predicate IsUsable(node: NodeInfo) {
    node.total.cpuMillis > 0 && node.total.memMb > 0
  }

  /** Compare `u1/t1` with `u2/t2` by cross multiplication. */
  function CompareRatios(u1: U64, t1: U64, u2: U64, t2: U64): Comparison {
    CompareInts(u1 * t2, u2 * t1)
  }

  /** CPU load first, then memory load; a node without capacity counts as
      fully loaded. */
  function CompareLoad(a: NodeInfo, b: NodeInfo): Comparison {
    match (IsUsable(a), IsUsable(b))
    case (true, false) => LT
    case (false, true) => GT
    case (false, false) => EQ
    case (true, true) =>
      CompareRatios(a.used.cpuMillis, a.total.cpuMillis, b.used.cpuMillis, b.total.cpuMillis).Then(
        CompareRatios(a.used.memMb, a.total.memMb, b.used.memMb, b.total.memMb))
  }

  /** Load order with the id as tie break. */
  function CompareNodes(a: NodeInfo, b: NodeInfo): Comparison {
    CompareLoad(a, b).Then(CompareStrings(a.id, b.id))
  }

  // ---------------------------------------------------------------------
  // The order is total
  // ---------------------------------------------------------------------

  const U128_MAX := 0xFFFF_FFFF_FFFF_FFFF_FFFF_FFFF_FFFF_FFFF

  /** The cross products fit into 128 bits. */
  lemma ProductFitsU128(x: U64, y: U64)
    ensures 0 <= x * y <= U128_MAX
  {
    assert x * y <= U64_MAX * y;
    assert U64_MAX * y <= U64_MAX * U64_MAX;
  }

  /** A chain of ratio comparisons has the direction of its links; it is strict
      as soon as one link is. */
  lemma RatiosTransitive(u1: U64, t1: U64, u2: U64, t2: U64, u3: U64, t3: U64)
    requires t1 > 0 && t2 > 0 && t3 > 0
    requires !CompareRatios(u1, t1, u2, t2).GT? && !CompareRatios(u2, t2, u3, t3).GT?
    ensures !CompareRatios(u1, t1, u3, t3).GT?
    ensures CompareRatios(u1, t1, u3, t3).EQ? <==>
            CompareRatios(u1, t1, u2, t2).EQ? && CompareRatios(u2, t2, u3, t3).EQ?
  {
    var d12, d23, d13 := u2 * t1 - u1 * t2, u3 * t2 - u2 * t3, u3 * t1 - u1 * t3;
    calc {
      t2 * d13;
      t2 * (u3 * t1) - t2 * (u1 * t3);
      { assert t2 * (u3 * t1) == t1 * (u3 * t2); assert t2 * (u1 * t3) == t3 * (u1 * t2); }
      t1 * (u3 * t2) - t3 * (u1 * t2);
      { assert t1 * (u2 * t3) == t3 * (u2 * t1); }
      t1 * (u3 * t2) - t1 * (u2 * t3) + t3 * (u2 * t1) - t3 * (u1 * t2);
      t1 * d23 + t3 * d12;
    }
    SignOfCombination(t2, d13, t1, d23, t3, d12);
  }

  lemma SignOfCombination(k: int, d: int, m: int, x: int, n: int, y: int)
    requires k > 0 && m > 0 && n > 0 && x >= 0 && y >= 0
    requires k * d == m * x + n * y
    ensures d >= 0
    ensures d == 0 <==> x == 0 && y == 0
  {
    assert m * x >= 0 && n * y >= 0;
    assert x > 0 ==> m * x > 0;
    assert y > 0 ==> n * y > 0;
  }

  lemma LoadAntisymmetric(a: NodeInfo, b: NodeInfo)
    ensures CompareLoad(a, b) == CompareLoad(b, a).Flip()
  {
  }

  /** The load order is a total preorder: chains keep their direction, and the
      ends tie exactly when every link does. */
  lemma LoadTransitive(a: NodeInfo, b: NodeInfo, c: NodeInfo)
    requires !CompareLoad(a, b).GT? && !CompareLoad(b, c).GT?
    ensures !CompareLoad(a, c).GT?
    ensures CompareLoad(a, c).EQ? <==> CompareLoad(a, b).EQ? && CompareLoad(b, c).EQ?
  {
    if IsUsable(a) && IsUsable(b) && IsUsable(c) {
      RatiosTransitive(a.used.cpuMillis, a.total.cpuMillis, b.used.cpuMillis, b.total.cpuMillis,
                       c.used.cpuMillis, c.total.cpuMillis);
      if CompareRatios(a.used.cpuMillis, a.total.cpuMillis, c.used.cpuMillis, c.total.cpuMillis).EQ? {
        RatiosTransitive(a.used.memMb, a.total.memMb, b.used.memMb, b.total.memMb, c.used.memMb, c.total.memMb);
      }
    }
  }

  /** `a` is preferred to `b`. */
  predicate Before(a: NodeInfo, b: NodeInfo) {
    CompareNodes(a, b).LT?
  }

  lemma NodesAntisymmetric(a: NodeInfo, b: NodeInfo)
    ensures CompareNodes(a, b) == CompareNodes(b, a).Flip()
  {
    LoadAntisymmetric(a, b);
    Ordering.LessTotal(a.id, b.id);
  }

  /** With the id as tie break two nodes tie exactly when the ids agree and the
      loads tie, and chains keep their direction. */
  lemma NodesTransitive(a: NodeInfo, b: NodeInfo, c: NodeInfo)
    requires !CompareNodes(a, b).GT? && !CompareNodes(b, c).GT?
    ensures !CompareNodes(a, c).GT?
    ensures CompareNodes(a, c).EQ? <==> CompareNodes(a, b).EQ? && CompareNodes(b, c).EQ?
  {
    LoadTransitive(a, b, c);
    if CompareLoad(a, c).EQ? {
      Ordering.LessTotal(a.id, b.id);
      Ordering.LessTotal(b.id, c.id);
      Ordering.LessTotal(a.id, c.id);
      if Ordering.Less(a.id, b.id) && Ordering.Less(b.id, c.id) {
        Ordering.LessTransitive(a.id, b.id, c.id);
      }
    }
  }

  /** Nodes with different ids never tie: the preference is a strict total
      order on them. */
  lemma BeforeIsStrictTotalOrder(a: NodeInfo, b: NodeInfo, c: NodeInfo)
    ensures !Before(a, a)
    ensures Before(a, b) ==> !Before(b, a)
    ensures a.id != b.id ==> Before(a, b) || Before(b, a)
    ensures Before(a, b) && Before(b, c) ==> Before(a, c)
  {
    NodesAntisymmetric(a, a);
    NodesAntisymmetric(a, b);
    if Before(a, b) && Before(b, c) {
      NodesTransitive(a, b, c);
    }
  }

  // ---------------------------------------------------------------------
  // The choice of a node
  // ---------------------------------------------------------------------

  /** Alive, with room for the task, and the pinned node if one is pinned. */
  predicate IsEligible(node: NodeInfo, task: Task, now: DateTime) {
    && node.IsAlive(now)
    && task.spec.resources.FitsIn(node.total, node.used)
    && (task.spec.nodeAffinity.Some? ==> task.spec.nodeAffinity.value == node.id)
  }

  /** `r` names an eligible node that no eligible node precedes, or is `None`
      because no node is eligible. */
  ghost predicate IsChoice(nodes: map<NodeId, NodeInfo>, task: Task, now: DateTime, r: Option<NodeId>) {
    match r
    case None => forall k | k in nodes :: !IsEligible(nodes[k], task, now)
    case Some(n) => exists k :: k in nodes && nodes[k].id == n && IsLeast(nodes, task, now, k)
  }

  ghost predicate IsLeast(nodes: map<NodeId, NodeInfo>, task: Task, now: DateTime, k: NodeId)
    requires k in nodes
  {
    && IsEligible(nodes[k], task, now)
    && forall j | j in nodes && IsEligible(nodes[j], task, now) :: !Before(nodes[j], nodes[k])
  }

  /** There is only one choice, whatever order the nodes are visited in. */
  lemma ChoiceUnique(nodes: map<NodeId, NodeInfo>, task: Task, now: DateTime, r: Option<NodeId>, r': Option<NodeId>)
    requires IsChoice(nodes, task, now, r) && IsChoice(nodes, task, now, r')
    ensures r == r'
  {
    if r.Some? && r'.Some? {
      var k :| k in nodes && nodes[k].id == r.value && IsLeast(nodes, task, now, k);
      var k' :| k' in nodes && nodes[k'].id == r'.value && IsLeast(nodes, task, now, k');
      BeforeIsStrictTotalOrder(nodes[k], nodes[k'], nodes[k]);
    }
  }

  lemma {:induction false} ChoiceExists(nodes: map<NodeId, NodeInfo>, task: Task, now: DateTime)
    ensures exists r :: IsChoice(nodes, task, now, r)
  {
    var candidates := set k | k in nodes && IsEligible(nodes[k], task, now);
    if candidates == {} {
      forall k | k in nodes ensures !IsEligible(nodes[k], task, now) {
        assert k !in candidates;
      }
      assert IsChoice(nodes, task, now, None);
    } else {
      var k := LeastOf(nodes, candidates);
      forall j | j in nodes && IsEligible(nodes[j], task, now) ensures !Before(nodes[j], nodes[k]) {
        assert j in candidates;
      }
      assert IsLeast(nodes, task, now, k);
      assert IsChoice(nodes, task, now, Some(nodes[k].id));
    }
  }

  lemma {:induction false} LeastOf(nodes: map<NodeId, NodeInfo>, candidates: set<NodeId>) returns (k: NodeId)
    requires candidates != {} && candidates <= nodes.Keys
    ensures k in candidates
    ensures forall j | j in candidates :: !Before(nodes[j], nodes[k])
    decreases |candidates|
  {
    k :| k in candidates;
    BeforeIsStrictTotalOrder(nodes[k], nodes[k], nodes[k]);
    if candidates != {k} {
      var rest := candidates - {k};
      assert rest != {};
      var m := LeastOf(nodes, rest);
      if Before(nodes[m], nodes[k]) {
        BeforeIsStrictTotalOrder(nodes[m], nodes[k], nodes[m]);
        k := m;
      } else {
        forall j | j in rest ensures !Before(nodes[j], nodes[k]) {
          LeastStays(nodes[j], nodes[m], nodes[k]);
        }
      }
    }
  }

  /** If `j` does not precede `m` and `m` does not precede `k`, then `j` does
      not precede `k`. */
  lemma LeastStays(j: NodeInfo, m: NodeInfo, k: NodeInfo)
    requires !Before(j, m) && !Before(m, k)
    ensures !Before(j, k)
  {
    NodesAntisymmetric(j, m);
    NodesAntisymmetric(m, k);
    NodesAntisymmetric(j, k);
    NodesTransitive(k, m, j);
  }

  /** The choice, described by what it is: no order of visiting the nodes is
      involved. */
  ghost function PickNode(nodes: map<NodeId, NodeInfo>, task: Task, now: DateTime): (r: Option<NodeId>)
    ensures IsChoice(nodes, task, now, r)
  {
    ChoiceExists(nodes, task, now);
    var r :| IsChoice(nodes, task, now, r);
    r
  }
}
