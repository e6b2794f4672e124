/** The address allocator: one /16, a /24 of it per node, one host per task. */
module Ipam {
  import opened Types
  import opened Collections

  const FIRST_HOST := 2
  const LAST_HOST := 254
  const HOSTS_PER_SUBNET := LAST_HOST - FIRST_HOST + 1
  const CAPACITY := 256 * HOSTS_PER_SUBNET
  const NETMASK := Ip(255, 255, 255, 0)

  /** The allocator as a value: what `DurableState` stores and what replay
      rebuilds. */
  datatype IpamState = IpamState(
    base0: Byte,
    base1: Byte,
    subnets: map<NodeId, Byte>,
    held: map<TaskId, Ip>)
  {
    /** The addresses of the /24 with third octet `z`. */
    predicate InSubnet(ip: Ip, z: Byte) {
      ip.a == base0 && ip.b == base1 && ip.c == z
    }

    /** The tasks that hold an address of the /24 with third octet `z`. */
    function Holders(z: Byte): set<TaskId> {
      set t | t in held && InSubnet(held[t], z)
    }

    /** The host octets in use in the /24 with third octet `z`. */
    function UsedHosts(z: Byte): set<int> {
      set t | t in Holders(z) :: held[t].d
    }

    /** Third octets are not shared, addresses are not shared, and every
        address is a host of a /24 that some node owns. */
    ghost predicate WellFormed() {
      && (forall m, n | m in subnets && n in subnets && subnets[m] == subnets[n] :: m == n)
      && (forall t | t in held :: ValidAddress(held[t]))
      && (forall t, u | t in held && u in held && held[t] == held[u] :: t == u)
    }

    ghost predicate ValidAddress(ip: Ip) {
      && ip.a == base0 && ip.b == base1
      && (exists n :: n in subnets && subnets[n] == ip.c)
      && FIRST_HOST <= ip.d <= LAST_HOST
    }

    function GatewayFor(n: NodeId): Option<Ip> {
      if n in subnets then Some(Ip(base0, base1, subnets[n], 1)) else None
    }

    /** The third octet of `n` and the allocator after asking for it. */
    function SubnetOctet(n: NodeId): (Option<Byte>, IpamState) {
      if n in subnets then (Some(subnets[n]), this) else
        match FirstFree(0, 255, subnets.Values)
        case None => (None, this)
        case Some(z) => (Some(z), this.(subnets := subnets[n := z]))
    }

    /** The address `t` gets on the /24 of `n`, and the allocator afterwards. */
    function Allocate(n: NodeId, t: TaskId): (Option<Ip>, IpamState) {
      if t in held then (Some(held[t]), this) else
        match SubnetOctet(n)
        case (None, next) => (None, next)
        case (Some(z), next) =>
          match FirstFree(FIRST_HOST, LAST_HOST, next.UsedHosts(z))
          case None => (None, next)
          case Some(h) =>
            var ip := Ip(base0, base1, z, h);
            (Some(ip), next.(held := next.held[t := ip]))
    }

    /** Whether `t` held an address, and the allocator without it. */
    function Release(t: TaskId): (bool, IpamState) {
      (t in held, this.(held := held - {t}))
    }
  }

  /** The least element of `lo..hi`, both ends included, that is not taken. */
  function FirstFree(lo: int, hi: int, taken: set<int>): (r: Option<int>)
    ensures r.None? ==> forall x | lo <= x <= hi :: x in taken
    ensures r.Some? ==> lo <= r.value <= hi && r.value !in taken
    ensures r.Some? ==> forall x | lo <= x < r.value :: x in taken
    decreases hi - lo
  {
    if lo > hi then None else if lo !in taken then Some(lo) else FirstFree(lo + 1, hi, taken)
  }

  /** From `s` to `s'` nothing changed but what `t` holds and octets given out. */
  ghost predicate TouchesOnly(s: IpamState, s': IpamState, t: TaskId) {
    && s'.base0 == s.base0 && s'.base1 == s.base1
    && (forall n | n in s.subnets :: n in s'.subnets && s'.subnets[n] == s.subnets[n])
    && (forall u | u != t :: u in s'.held <==> u in s.held)
    && (forall u | u != t && u in s.held :: s'.held[u] == s.held[u])
  }

  lemma TouchesTwice(a: IpamState, b: IpamState, c: IpamState, t: TaskId)
    requires TouchesOnly(a, b, t) && TouchesOnly(b, c, t)
    ensures TouchesOnly(a, c, t)
  {
  }

  /** A call about task `t` keeps the allocator well formed and touches only what
      `t` holds. */
  lemma CallsAreLocal(s: IpamState, n: NodeId, t: TaskId)
    requires s.WellFormed()
    ensures s.Allocate(n, t).1.WellFormed() && TouchesOnly(s, s.Allocate(n, t).1, t)
    ensures s.Release(t).1.WellFormed() && TouchesOnly(s, s.Release(t).1, t)
    ensures var gone := s.Allocate(n, t).1.Release(t).1; gone.WellFormed() && TouchesOnly(s, gone, t)
  {
    hide IpamState.WellFormed, IpamState.Allocate, IpamState.Release, TouchesOnly;
    AllocateIsLocal(s, n, t);
    ReleaseIsLocal(s, t);
    ReleaseIsLocal(s.Allocate(n, t).1, t);
    TouchesTwice(s, s.Allocate(n, t).1, s.Allocate(n, t).1.Release(t).1, t);
  }

  lemma AllocateIsLocal(s: IpamState, n: NodeId, t: TaskId)
    requires s.WellFormed()
    ensures s.Allocate(n, t).1.WellFormed() && TouchesOnly(s, s.Allocate(n, t).1, t)
  {
    hide IpamState.WellFormed, IpamState.Allocate;
    AllocateKeeps(s, n, t);
  }

  lemma ReleaseIsLocal(s: IpamState, t: TaskId)
    requires s.WellFormed()
    ensures s.Release(t).1.WellFormed() && TouchesOnly(s, s.Release(t).1, t)
  {
    hide IpamState.WellFormed;
    ReleaseKeeps(s, t);
  }

  // ---------------------------------------------------------------------
  // What every call keeps
  // ---------------------------------------------------------------------

  /** A node seen for the first time starts with an empty /24. */
  lemma NewSubnetIsEmpty(s: IpamState, n: NodeId)
    requires s.WellFormed() && n !in s.subnets && s.SubnetOctet(n).0.Some?
    ensures s.SubnetOctet(n).1.Holders(s.SubnetOctet(n).0.value) == {}
  {
  }

  lemma SubnetOctetKeeps(s: IpamState, n: NodeId)
    requires s.WellFormed()
    ensures var (z, s') := s.SubnetOctet(n);
            && s'.WellFormed() && s'.held == s.held
            && (z.Some? ==> n in s'.subnets && s'.subnets[n] == z.value)
            && (z.None? ==> s' == s)
            && (forall m | m in s.subnets :: m in s'.subnets && s'.subnets[m] == s.subnets[m])
            && (n !in s.subnets && z.Some? ==> forall y | 0 <= y < z.value as int :: y in s.subnets.Values)
  {
    var (z, s') := s.SubnetOctet(n);
    forall t | t in s'.held ensures s'.ValidAddress(s'.held[t]) {
      var m :| m in s.subnets && s.subnets[m] == s.held[t].c;
      assert m in s'.subnets && s'.subnets[m] == s.held[t].c;
    }
  }

  /** `allocate` keeps the allocator well formed, keeps every address and every
      octet that was already given out, and returns the address it records. */
  lemma AllocateKeeps(s: IpamState, n: NodeId, t: TaskId)
    requires s.WellFormed()
    ensures var (ip, s') := s.Allocate(n, t);
            && s'.WellFormed()
            && s'.base0 == s.base0 && s'.base1 == s.base1
            && (forall m | m in s.subnets :: m in s'.subnets && s'.subnets[m] == s.subnets[m])
            && (forall m | m in s'.subnets :: m in s.subnets || m == n)
            && s'.held == (if ip.Some? then s.held[t := ip.value] else s.held)
            && (t in s.held ==> ip == Some(s.held[t]) && s' == s)
            && (ip.Some? && t !in s.held ==>
                  n in s'.subnets && s'.InSubnet(ip.value, s'.subnets[n])
                  && forall u | u in s.held :: s.held[u] != ip.value)
  {
    if t !in s.held {
      SubnetOctetKeeps(s, n);
      var (z, s1) := s.SubnetOctet(n);
      if z.Some? {
        var h := FirstFree(FIRST_HOST, LAST_HOST, s1.UsedHosts(z.value));
        if h.Some? {
          forall u | u in s1.held
            ensures s1.held[u] != Ip(s1.base0, s1.base1, z.value, h.value)
          {
            if s1.InSubnet(s1.held[u], z.value) {
              assert u in s1.Holders(z.value);
            }
          }
        }
      }
    } else {
      assert s.held == s.held[t := s.held[t]];
    }
  }

  /** A failing `allocate` leaves the allocator as it was: a /24 that the call
      itself opened is empty, so the host search in it cannot fail. */
  lemma FailedAllocateChangesNothing(s: IpamState, n: NodeId, t: TaskId)
    requires s.WellFormed() && s.Allocate(n, t).0.None?
    ensures s.Allocate(n, t).1 == s
  {
    if n !in s.subnets && s.SubnetOctet(n).0.Some? {
      NewSubnetIsEmpty(s, n);
      assert FIRST_HOST !in s.SubnetOctet(n).1.UsedHosts(s.SubnetOctet(n).0.value);
    }
  }

  /** `release` takes the address of one task, keeps every other address and
      every octet, and tells whether there was one to take. */
  lemma ReleaseKeeps(s: IpamState, t: TaskId)
    requires s.WellFormed()
    ensures var (released, s') := s.Release(t);
            && s'.WellFormed()
            && s'.subnets == s.subnets && s'.base0 == s.base0 && s'.base1 == s.base1
            && t !in s'.held && (released <==> t in s.held)
            && (forall u | u in s.held && u != t :: u in s'.held && s'.held[u] == s.held[u])
            && (forall u | u in s'.held :: u in s.held)
  {
    var s' := s.Release(t).1;
    forall u | u in s'.held ensures s'.ValidAddress(s'.held[u]) {
      assert s.ValidAddress(s.held[u]);
    }
  }

  // ---------------------------------------------------------------------
  // When an address is available, and how many there can be
  // ---------------------------------------------------------------------

  lemma HoldersSize(s: IpamState, z: Byte)
    requires s.WellFormed()
    ensures |s.UsedHosts(z)| == |s.Holders(z)|
    ensures s.UsedHosts(z) <= Range(FIRST_HOST, LAST_HOST + 1)
  {
    var hosts := map t | t in s.Holders(z) :: s.held[t].d as int;
    forall t, u | t in hosts && u in hosts && hosts[t] == hosts[u] ensures t == u {
      assert s.held[t] == s.held[u];
    }
    InjectiveSize(hosts);
    assert hosts.Keys == s.Holders(z);
    assert hosts.Values == s.UsedHosts(z) by {
      forall h | h in s.UsedHosts(z) ensures h in hosts.Values {
        var t :| t in s.Holders(z) && s.held[t].d == h;
        assert hosts[t] == h;
      }
    }
  }

  lemma FreeIffNotAllTaken(lo: int, hi: int, taken: set<int>)
    requires lo <= hi + 1 && taken <= Range(lo, hi + 1)
    ensures FirstFree(lo, hi, taken).Some? <==> |taken| < hi + 1 - lo
  {
    var all := Range(lo, hi + 1);
    RangeSize(lo, hi + 1);
    SubsetSize(taken, all);
    var x := FirstFree(lo, hi, taken);
    if x.Some? {
      assert x.value in all && x.value !in taken;
    } else {
      assert forall y | y in all :: y in taken;
      assert all == taken;
    }
  }

  lemma FreeHostIffNotFull(s: IpamState, z: Byte)
    requires s.WellFormed()
    ensures FirstFree(FIRST_HOST, LAST_HOST, s.UsedHosts(z)).Some? <==> |s.Holders(z)| < HOSTS_PER_SUBNET
  {
    HoldersSize(s, z);
    FreeIffNotAllTaken(FIRST_HOST, LAST_HOST, s.UsedHosts(z));
  }

  /** The nodes that own a /24 are as many as the third octets in use. */
  lemma OctetsSize(s: IpamState)
    requires s.WellFormed()
    ensures |s.subnets.Values| == |s.subnets.Keys|
    ensures FirstFree(0, 255, s.subnets.Values).Some? <==> |s.subnets| < 256
    ensures |s.subnets| <= 256
  {
    var octets: map<NodeId, int> := map n | n in s.subnets :: s.subnets[n] as int;
    InjectiveSize(octets);
    assert octets.Keys == s.subnets.Keys;
    var values: set<int> := s.subnets.Values;
    assert octets.Values == values by {
      forall z | z in values ensures z in octets.Values {
        var n :| n in s.subnets && s.subnets[n] == z;
        assert octets[n] == z;
      }
      forall z | z in octets.Values ensures z in values {
        var n :| n in octets && octets[n] == z;
        assert s.subnets[n] == z;
      }
    }
    assert values <= Range(0, 256);
    FreeIffNotAllTaken(0, 255, values);
    RangeSize(0, 256);
    SubsetSize(values, Range(0, 256));
  }

  /** A task that holds no address cannot get one on node `n`. */
  predicate OutOfAddresses(s: IpamState, n: NodeId) {
    if n in s.subnets then |s.Holders(s.subnets[n])| >= HOSTS_PER_SUBNET else |s.subnets| >= 256
  }

  /** `s'` kept every octet and every address of `s`. */
  predicate Extends(s: IpamState, s': IpamState) {
    && s'.base0 == s.base0 && s'.base1 == s.base1
    && (forall n | n in s.subnets :: n in s'.subnets && s'.subnets[n] == s.subnets[n])
    && (forall u | u in s.held :: u in s'.held && s'.held[u] == s.held[u])
  }

  /** As long as nothing is released a node without an address to give stays
      that way. */
  lemma ExhaustionPersists(s: IpamState, s': IpamState, n: NodeId)
    requires s'.WellFormed() && Extends(s, s') && OutOfAddresses(s, n)
    ensures OutOfAddresses(s', n)
  {
    hide IpamState.WellFormed;
    if n in s.subnets {
      SubsetSize(s.Holders(s.subnets[n]), s'.Holders(s.subnets[n]));
    } else {
      OctetsSize(s');
      SubsetSize(s.subnets.Keys, s'.subnets.Keys);
    }
  }

  /** For a task that holds nothing, `allocate` succeeds exactly when the node
      owns a /24 with fewer than 253 holders or owns none while fewer than 256
      are owned; the address is then the lowest host from 2 to 254 nobody holds. */
  lemma AllocateSucceedsIff(s: IpamState, n: NodeId, t: TaskId)
    requires s.WellFormed() && t !in s.held
    ensures s.Allocate(n, t).0.Some? <==> !OutOfAddresses(s, n)
    ensures OutOfAddresses(s, n) <==> if n in s.subnets then |s.Holders(s.subnets[n])| >= 253 else |s.subnets| >= 256
    ensures var (ip, s') := s.Allocate(n, t);
            ip.Some? ==>
              && n in s'.subnets && ip.value == Ip(s.base0, s.base1, s'.subnets[n], ip.value.d)
              && 2 <= ip.value.d <= 254
              && (forall u | u in s.held :: s.held[u] != ip.value)
              && (forall h | 2 <= h < ip.value.d ::
                    exists u :: u in s.held && s.held[u] == Ip(s.base0, s.base1, s'.subnets[n], h))
  {
    OctetsSize(s);
    SubnetOctetKeeps(s, n);
    var (z, s1) := s.SubnetOctet(n);
    if z.Some? {
      FreeHostIffNotFull(s1, z.value);
      if n !in s.subnets {
        NewSubnetIsEmpty(s, n);
      }
      var (ip, s') := s.Allocate(n, t);
      if ip.Some? {
        AllocateKeeps(s, n, t);
        forall h | FIRST_HOST <= h < ip.value.d
          ensures exists u :: u in s.held && s.held[u] == Ip(s.base0, s.base1, s'.subnets[n], h)
        {
          assert h in s1.UsedHosts(z.value);
          var u :| u in s1.Holders(z.value) && s1.held[u].d == h;
          assert s.held[u] == Ip(s.base0, s.base1, s'.subnets[n], h);
        }
      }
    }
  }

  /** The position of an address among all hosts of the /16. */
  function HostNumber(ip: Ip): int {
    HOSTS_PER_SUBNET * ip.c + (ip.d - FIRST_HOST)
  }

  lemma HostNumberUnique(s: IpamState, x: Ip, y: Ip)
    requires s.ValidAddress(x) && s.ValidAddress(y)
    ensures 0 <= HostNumber(x) < CAPACITY
    ensures HostNumber(x) == HostNumber(y) ==> x == y
  {
  }

  /** At most `CAPACITY` addresses are ever held. */
  lemma HeldWithinCapacity(s: IpamState)
    requires s.WellFormed()
    ensures |s.held| <= CAPACITY && CAPACITY == 256 * 253
  {
    var code := map t | t in s.held :: HostNumber(s.held[t]);
    forall t, u | t in code && u in code && code[t] == code[u] ensures t == u {
      HostNumberUnique(s, s.held[t], s.held[u]);
    }
    InjectiveSize(code);
    assert code.Keys == s.held.Keys;
    forall v | v in code.Values ensures v in Range(0, CAPACITY) {
      var t :| t in code && code[t] == v;
      HostNumberUnique(s, s.held[t], s.held[t]);
    }
    RangeSize(0, CAPACITY);
    SubsetSize(code.Values, Range(0, CAPACITY));
  }

  // ---------------------------------------------------------------------
  // The allocator the server updates in place
  // ---------------------------------------------------------------------

  class Allocator {
    var base0: Byte
    var base1: Byte
    var subnets: map<NodeId, Byte>
    var held: map<TaskId, Ip>

    constructor (base0: Byte, base1: Byte)
      ensures State() == IpamState(base0, base1, map[], map[])
    {
      this.base0, this.base1 := base0, base1;
      subnets, held := map[], map[];
    }

    function State(): IpamState
      reads this
    {
      IpamState(base0, base1, subnets, held)
    }

    /** `clone_from`: take over a stored allocator. */
    method CloneFrom(s: IpamState)
      modifies this
      ensures State() == s
    {
      base0, base1, subnets, held := s.base0, s.base1, s.subnets, s.held;
    }

    /** `SubnetOctet` in place: search the octets upwards for one not taken. */
    method OctetFor(n: NodeId) returns (r: Option<Byte>)
      modifies this
      ensures (r, State()) == old(State()).SubnetOctet(n)
    {
      if n in subnets {
        return Some(subnets[n]);
      }
      var taken := subnets.Values;
      var z: int := 0;
      while z <= 255 && z in taken
        invariant 0 <= z <= 256
        invariant FirstFree(0, 255, taken) == FirstFree(z, 255, taken)
      {
        z := z + 1;
      }
      if z > 255 {
        return None;
      }
      subnets := subnets[n := z];
      return Some(z);
    }

    /** Assign an address to `t` on the /24 of `n`. */
    method Allocate(n: NodeId, t: TaskId) returns (r: Option<Ip>)
      modifies this
      ensures (r, State()) == old(State()).Allocate(n, t)
    {
      if t in held {
        return Some(held[t]);
      }
      var subnet := OctetFor(n);
      if subnet.None? {
        return None;
      }
      var used := set u | u in held
                       && held[u].a == base0 && held[u].b == base1
                       && held[u].c == subnet.value :: held[u].d as int;
      assert used == State().UsedHosts(subnet.value);
      var h := FIRST_HOST;
      while h <= LAST_HOST && h in used
        invariant FIRST_HOST <= h <= LAST_HOST + 1
        invariant FirstFree(FIRST_HOST, LAST_HOST, used) == FirstFree(h, LAST_HOST, used)
      {
        h := h + 1;
      }
      if h > LAST_HOST {
        return None;
      }
      var ip := Ip(base0, base1, subnet.value, h);
      held := held[t := ip];
      return Some(ip);
    }

    method Release(t: TaskId) returns (found: bool)
      modifies this
      ensures (found, State()) == old(State()).Release(t)
    {
      found := t in held;
      held := held - {t};
    }
  }
}
