/** The service view of the API, and its agreement with the address lists the
    scheduler injects. */
module ServiceView {
  import opened Types
  import opened Ordering
  import opened Durable
  import opened Discovery
  import opened Invariants

  datatype ServiceEndpoint = ServiceEndpoint(taskId: TaskId, ip: Ip)

  datatype ServiceInfo = ServiceInfo(name: string, endpoints: seq<ServiceEndpoint>)

  function TaskIdOf(e: ServiceEndpoint): string {
    e.taskId
  }

  function NameOf(info: ServiceInfo): string {
    info.name
  }

  function ServiceNames(tasks: map<TaskId, Task>): set<string> {
    set t | t in tasks && tasks[t].spec.serviceName.Some? && Serves(tasks[t], tasks[t].spec.serviceName.value)
      :: tasks[t].spec.serviceName.value
  }

  /** The endpoint task `t` contributes to service `name`. */
  function EndpointAt(tasks: map<TaskId, Task>, t: TaskId, name: string): seq<ServiceEndpoint> {
    if t in tasks && Serves(tasks[t], name) then [ServiceEndpoint(tasks[t].id, tasks[t].network.value.ip)] else []
  }

  /** The endpoints of a service in the order its tasks are visited. */
  function EndpointsIn(tasks: map<TaskId, Task>, order: seq<TaskId>, name: string): seq<ServiceEndpoint> {
    if order == [] then [] else
      EndpointsIn(tasks, order[..|order| - 1], name) + EndpointAt(tasks, order[|order| - 1], name)
  }

  lemma EndpointsNone(tasks: map<TaskId, Task>, name: string)
    ensures EndpointsIn(tasks, [], name) == []
  {
  }

  lemma EndpointsStep(tasks: map<TaskId, Task>, order: seq<TaskId>, k: nat, name: string)
    requires k < |order|
    ensures EndpointsIn(tasks, order[..k + 1], name)
            == EndpointsIn(tasks, order[..k], name) + EndpointAt(tasks, order[k], name)
  {
    assert order[..k + 1][..k] == order[..k];
  }

  /** The endpoints of a service by increasing task id. */
  ghost function EndpointsOf(tasks: map<TaskId, Task>, name: string): seq<ServiceEndpoint> {
    EndpointsIn(tasks, Listing(tasks.Keys), name)
  }

  /** The view: services by name, endpoints by task id. */
  ghost function ServiceList(tasks: map<TaskId, Task>): seq<ServiceInfo> {
    var names := Listing(ServiceNames(tasks));
    seq(|names|, i requires 0 <= i < |names| => ServiceInfo(names[i], EndpointsOf(tasks, names[i])))
  }

  function TextsIn(endpoints: seq<ServiceEndpoint>): seq<string> {
    seq(|endpoints|, i requires 0 <= i < |endpoints| => IpText(endpoints[i].ip))
  }

  // ---------------------------------------------------------------------
  // The endpoint lists
  // ---------------------------------------------------------------------

  predicate IdsMatch(tasks: map<TaskId, Task>) {
    forall t | t in tasks :: tasks[t].id == t
  }

  /** Visiting distinct tasks lists each serving one once, in visiting order. */
  lemma {:induction false} EndpointsListed(tasks: map<TaskId, Task>, order: seq<TaskId>, name: string)
    requires IdsMatch(tasks) && Distinct(order)
    ensures forall e :: e in EndpointsIn(tasks, order, name) <==>
              e.taskId in order && e.taskId in tasks && Serves(tasks[e.taskId], name)
              && e.ip == tasks[e.taskId].network.value.ip
    ensures Distinct(EndpointsIn(tasks, order, name))
    ensures SortedBy(Self, order) ==> SortedBy(TaskIdOf, EndpointsIn(tasks, order, name))
  {
    hide Less;
    if order != [] {
      var front, last := order[..|order| - 1], order[|order| - 1];
      assert order == front + [last];
      assert Distinct(front) && last !in front;
      EndpointsListed(tasks, front, name);
      var es := EndpointsIn(tasks, front, name);
      assert EndpointsIn(tasks, order, name) == es + EndpointAt(tasks, last, name);
      if SortedBy(Self, order) {
        assert SortedBy(Self, front);
        forall e | e in es ensures !Less(last, e.taskId) {
          var i :| 0 <= i < |front| && front[i] == e.taskId;
          assert Self(order[i]) == e.taskId;
        }
      }
    }
  }

  lemma SortOfDistinct<T(!new)>(key: T -> string, a: seq<T>, b: seq<T>)
    requires Distinct(a) && Distinct(b) && SortedBy(key, b) && KeyDetermines(key, b)
    requires forall x :: x in a <==> x in b
    ensures Sort(key, a) == b
  {
    DistinctMultiset(a);
    DistinctMultiset(b);
    assert (set x | x in a) == (set x | x in b);
    SortSorted(key, a);
    SortedUnique(key, b, Sort(key, a));
  }

  /** Whatever order the tasks are visited in, sorting by task id gives the
      same list. */
  lemma EndpointsSort(tasks: map<TaskId, Task>, order: seq<TaskId>, name: string)
    requires IdsMatch(tasks) && Enumerates(order, tasks.Keys)
    ensures Sort(TaskIdOf, EndpointsIn(tasks, order, name)) == EndpointsOf(tasks, name)
  {
    hide EndpointsIn;
    ListingEnumerates(tasks.Keys);
    EndpointsListed(tasks, order, name);
    EndpointsListed(tasks, Listing(tasks.Keys), name);
    SortOfDistinct(TaskIdOf, EndpointsIn(tasks, order, name), EndpointsOf(tasks, name));
  }

  // ---------------------------------------------------------------------
  // The two views agree
  // ---------------------------------------------------------------------

  lemma {:induction false} TextsFollowEndpoints(tasks: map<TaskId, Task>, order: seq<TaskId>, name: string)
    ensures TextsOf(tasks, order, name) == TextsIn(EndpointsIn(tasks, order, name))
  {
    hide IpText;
    if order != [] {
      TextsFollowEndpoints(tasks, order[..|order| - 1], name);
    }
  }

  /** The list a task is told is the sorted permutation of the addresses the
      view shows for that service. */
  lemma ViewsAgree(tasks: map<TaskId, Task>, name: string)
    ensures multiset(SortedIps(tasks, name)) == multiset(TextsIn(EndpointsOf(tasks, name)))
    ensures SortedBy(Self, SortedIps(tasks, name))
  {
    TextsFollowEndpoints(tasks, Listing(tasks.Keys), name);
    SortSorted(Self, TextsOf(tasks, Listing(tasks.Keys), name));
  }

  lemma ServedName(tasks: map<TaskId, Task>, name: string)
    ensures name in ServiceNames(tasks) <==> exists t :: t in tasks && Serves(tasks[t], name)
  {
    if t :| t in tasks && Serves(tasks[t], name) {
      assert tasks[t].spec.serviceName.value == name;
    }
  }

  lemma NameHasEndpoints(tasks: map<TaskId, Task>, name: string)
    requires IdsMatch(tasks)
    ensures name in ServiceNames(tasks) <==> EndpointsOf(tasks, name) != []
  {
    hide EndpointsIn, ServiceNames;
    ServedName(tasks, name);
    ListingEnumerates(tasks.Keys);
    EndpointsListed(tasks, Listing(tasks.Keys), name);
    var es := EndpointsOf(tasks, name);
    HeadIsElement(es);
    if t :| t in tasks && Serves(tasks[t], name) {
      assert ServiceEndpoint(t, tasks[t].network.value.ip) in es;
    }
  }

  lemma InjectedEmptyIff(tasks: map<TaskId, Task>, name: string)
    ensures SortedIps(tasks, name) == [] <==> EndpointsOf(tasks, name) == []
  {
    hide EndpointsOf, SortedIps, IpText;
    ViewsAgree(tasks, name);
    SameMultisetSameElements(SortedIps(tasks, name), TextsIn(EndpointsOf(tasks, name)), "");
  }

  /** A service has an entry in the view exactly when it has endpoints, and
      exactly then its injected list is not empty. */
  lemma ViewEntries(tasks: map<TaskId, Task>, name: string)
    requires IdsMatch(tasks)
    ensures EndpointsOf(tasks, name) != [] <==>
              exists i :: 0 <= i < |ServiceList(tasks)| && ServiceList(tasks)[i].name == name
    ensures forall i | 0 <= i < |ServiceList(tasks)| ::
              ServiceList(tasks)[i].endpoints == EndpointsOf(tasks, ServiceList(tasks)[i].name)
    ensures SortedIps(tasks, name) == [] <==> EndpointsOf(tasks, name) == []
  {
    hide EndpointsOf, SortedIps, ServiceNames;
    NameHasEndpoints(tasks, name);
    InjectedEmptyIff(tasks, name);
    ListingEnumerates(ServiceNames(tasks));
    var names := Listing(ServiceNames(tasks));
    assert forall i | 0 <= i < |names| :: ServiceList(tasks)[i].name == names[i];
    assert name in names <==> exists i :: 0 <= i < |names| && names[i] == name;
  }

  /** The services with an endpoint, whatever order the tasks are visited in. */
  lemma NamesFromAnyOrder(tasks: map<TaskId, Task>, order: seq<TaskId>, name: string)
    requires IdsMatch(tasks) && Enumerates(order, tasks.Keys)
    ensures EndpointsIn(tasks, order, name) != [] <==> name in ServiceNames(tasks)
  {
    hide EndpointsOf, EndpointsIn, ServiceNames;
    EndpointsSort(tasks, order, name);
    NameHasEndpoints(tasks, name);
    SameMultisetSize(EndpointsIn(tasks, order, name), EndpointsOf(tasks, name));
  }

  lemma SameMultisetSize(a: seq<ServiceEndpoint>, b: seq<ServiceEndpoint>)
    requires Sort(TaskIdOf, a) == b
    ensures |a| == |b|
  {
    assert |multiset(Sort(TaskIdOf, a))| == |Sort(TaskIdOf, a)| && |multiset(a)| == |a|;
  }

  /** Entries made for the service names in any order sort to the list. */
  lemma ListEntry(tasks: map<TaskId, Task>, names: seq<string>, out: seq<ServiceInfo>, x: ServiceInfo)
    requires |out| == |names|
    requires forall k | 0 <= k < |names| :: out[k] == ServiceInfo(names[k], EndpointsOf(tasks, names[k]))
    ensures x in out <==> x.name in names && x.endpoints == EndpointsOf(tasks, x.name)
  {
    hide EndpointsOf;
    if x in out {
      var k :| 0 <= k < |out| && out[k] == x;
      assert names[k] in names;
    }
    if x.name in names && x.endpoints == EndpointsOf(tasks, x.name) {
      var k :| 0 <= k < |names| && names[k] == x.name;
      assert out[k] == x;
    }
  }

  lemma ListInAnyOrder(tasks: map<TaskId, Task>, names: seq<string>, out: seq<ServiceInfo>)
    requires Enumerates(names, ServiceNames(tasks)) && |out| == |names|
    requires forall k | 0 <= k < |names| :: out[k] == ServiceInfo(names[k], EndpointsOf(tasks, names[k]))
    ensures Sort(NameOf, out) == ServiceList(tasks)
  {
    hide EndpointsOf, ServiceNames, Less, Listing, SortedBy, KeyDetermines, Sort;
    ListingEnumerates(ServiceNames(tasks));
    SameEntries(tasks, names, out, Listing(ServiceNames(tasks)), ServiceList(tasks));
    NamesSorted(Listing(ServiceNames(tasks)), ServiceList(tasks));
    DistinctEntries(names, out);
    SortOfDistinct(NameOf, out, ServiceList(tasks));
  }

  lemma SameEntries(tasks: map<TaskId, Task>, names: seq<string>, out: seq<ServiceInfo>,
                    names': seq<string>, out': seq<ServiceInfo>)
    requires |out| == |names| && |out'| == |names'| && forall name :: name in names <==> name in names'
    requires forall k | 0 <= k < |names| :: out[k] == ServiceInfo(names[k], EndpointsOf(tasks, names[k]))
    requires forall k | 0 <= k < |names'| :: out'[k] == ServiceInfo(names'[k], EndpointsOf(tasks, names'[k]))
    ensures forall x :: x in out <==> x in out'
  {
    hide EndpointsOf;
    forall x ensures x in out <==> x in out' {
      ListEntry(tasks, names, out, x);
      ListEntry(tasks, names', out', x);
    }
  }

  lemma DistinctEntries(names: seq<string>, out: seq<ServiceInfo>)
    requires |out| == |names| && Distinct(names) && forall k | 0 <= k < |names| :: out[k].name == names[k]
    ensures Distinct(out)
  {
  }

  lemma NamesSorted(names: seq<string>, out: seq<ServiceInfo>)
    requires |out| == |names| && forall k | 0 <= k < |names| :: out[k].name == names[k]
    requires SortedBy(Self, names) && Distinct(names)
    ensures SortedBy(NameOf, out) && Distinct(out) && KeyDetermines(NameOf, out)
  {
    forall i, j | 0 <= i < j < |out| ensures !Less(NameOf(out[j]), NameOf(out[i])) && out[i] != out[j] {
      assert !Less(Self(names[j]), Self(names[i]));
      assert names[i] != names[j];
    }
    forall x, y | x in out && y in out && NameOf(x) == NameOf(y) ensures x == y {
      var i :| 0 <= i < |out| && out[i] == x;
      var j :| 0 <= j < |out| && out[j] == y;
      assert names[i] == names[j];
    }
  }

  // ---------------------------------------------------------------------
  // No address twice
  // ---------------------------------------------------------------------

  /** Where no two unfinished tasks use the same address, none occurs twice in the
      view, whether under one service or under two. */
  lemma NoAddressTwice(s: DurableState, i: nat, j: nat, k: nat, l: nat)
    requires IdsMatch(s.tasks) && NetworksDistinct(s)
    requires i < |ServiceList(s.tasks)| && j < |ServiceList(s.tasks)|
    requires k < |ServiceList(s.tasks)[i].endpoints| && l < |ServiceList(s.tasks)[j].endpoints|
    requires ServiceList(s.tasks)[i].endpoints[k].ip == ServiceList(s.tasks)[j].endpoints[l].ip
    ensures i == j && k == l
  {
    hide EndpointsOf, NetworksDistinct, ServiceNames, ServiceList, Listing, IdsMatch;
    var names := Listing(ServiceNames(s.tasks));
    ListingEnumerates(ServiceNames(s.tasks));
    ListedAt(s.tasks, i);
    ListedAt(s.tasks, j);
    EndpointServes(s.tasks, names[i], k);
    EndpointServes(s.tasks, names[j], l);
    SameAddressSameTask(s, names[i], names[j], EndpointsOf(s.tasks, names[i])[k], EndpointsOf(s.tasks, names[j])[l]);
  }

  lemma ListedAt(tasks: map<TaskId, Task>, i: nat)
    requires i < |ServiceList(tasks)|
    ensures var names := Listing(ServiceNames(tasks));
            i < |names| && ServiceList(tasks)[i] == ServiceInfo(names[i], EndpointsOf(tasks, names[i]))
  {
  }

  lemma EndpointServes(tasks: map<TaskId, Task>, name: string, k: nat)
    requires IdsMatch(tasks) && k < |EndpointsOf(tasks, name)|
    ensures var e := EndpointsOf(tasks, name)[k];
            e.taskId in tasks && Serves(tasks[e.taskId], name) && e.ip == tasks[e.taskId].network.value.ip
    ensures Distinct(EndpointsOf(tasks, name))
  {
    hide EndpointsIn;
    ListingEnumerates(tasks.Keys);
    EndpointsListed(tasks, Listing(tasks.Keys), name);
    assert EndpointsOf(tasks, name)[k] in EndpointsOf(tasks, name);
  }

  lemma SameAddressSameTask(s: DurableState, name: string, name': string, a: ServiceEndpoint, b: ServiceEndpoint)
    requires NetworksDistinct(s) && a.ip == b.ip
    requires a.taskId in s.tasks && Serves(s.tasks[a.taskId], name) && a.ip == s.tasks[a.taskId].network.value.ip
    requires b.taskId in s.tasks && Serves(s.tasks[b.taskId], name') && b.ip == s.tasks[b.taskId].network.value.ip
    ensures a.taskId == b.taskId && name == name'
  {
    assert Share(s.tasks[a.taskId], s.tasks[b.taskId]);
  }

  // ---------------------------------------------------------------------
  // Address texts
  // ---------------------------------------------------------------------

  lemma {:induction false} DecimalDigits(n: nat)
    ensures DecimalText(n) != "" && '.' !in DecimalText(n)
    ensures n >= 10 ==> |DecimalText(n)| >= 2
  {
    if n >= 10 {
      DecimalDigits(n / 10);
    }
  }

  lemma {:induction false} DecimalInjective(m: nat, n: nat)
    requires DecimalText(m) == DecimalText(n)
    ensures m == n
  {
    DecimalDigits(m);
    DecimalDigits(n);
    if m >= 10 {
      var a, b := DecimalText(m / 10), DecimalText(n / 10);
      assert (a + [DigitChar(m % 10)])[..|a|] == a;
      assert (b + [DigitChar(n % 10)])[..|b|] == b;
      assert DecimalText(m)[|a|] == DigitChar(m % 10);
      assert DecimalText(n)[|b|] == DigitChar(n % 10);
      DecimalInjective(m / 10, n / 10);
    }
  }

  /** `s` is a number in decimal digits without a leading zero. */
  predicate IsDecimal(s: string) {
    && s != "" && (s[0] == '0' ==> |s| == 1)
    && forall i | 0 <= i < |s| :: '0' <= s[i] <= '9'
  }

  /** The number a sequence of digits stands for. */
  function DecimalValue(s: string): int {
    if s == "" then 0 else 10 * DecimalValue(s[..|s| - 1]) + (s[|s| - 1] as int - '0' as int)
  }

  lemma {:induction false} DecimalReads(n: nat)
    ensures IsDecimal(DecimalText(n)) && DecimalValue(DecimalText(n)) == n
    ensures n > 0 ==> DecimalText(n)[0] != '0'
  {
    DigitValue(n % 10);
    var last := [DigitChar(n % 10)];
    if n >= 10 {
      var front := DecimalText(n / 10);
      DecimalReads(n / 10);
      assert (front + last)[..|front|] == front;
    } else {
      assert last[..0] == "" && DecimalValue("") == 0;
    }
  }

  lemma DigitValue(d: nat)
    requires d < 10
    ensures '0' <= DigitChar(d) <= '9' && DigitChar(d) as int - '0' as int == d
  {
  }

  /** The text of an address is its four octets in decimal, joined by dots. */
  lemma IpTextReads(ip: Ip) returns (a: string, b: string, c: string, d: string)
    ensures IpText(ip) == a + "." + b + "." + c + "." + d
    ensures IsDecimal(a) && IsDecimal(b) && IsDecimal(c) && IsDecimal(d)
    ensures [DecimalValue(a), DecimalValue(b), DecimalValue(c), DecimalValue(d)]
            == [ip.a as int, ip.b as int, ip.c as int, ip.d as int]
  {
    hide DecimalText, DecimalValue, IsDecimal;
    a, b, c, d := DecimalText(ip.a), DecimalText(ip.b), DecimalText(ip.c), DecimalText(ip.d);
    DecimalReads(ip.a);
    DecimalReads(ip.b);
    DecimalReads(ip.c);
    DecimalReads(ip.d);
  }

  function FirstDot(s: string): nat {
    if s == "" || s[0] == '.' then 0 else 1 + FirstDot(s[1..])
  }

  lemma {:induction false} FirstDotAt(x: string, u: string)
    requires '.' !in x
    ensures FirstDot(x + "." + u) == |x|
  {
    if x != "" {
      assert x == [x[0]] + x[1..];
      assert x[0] in x;
      assert (x + "." + u)[1..] == x[1..] + "." + u;
      FirstDotAt(x[1..], u);
    }
  }

  lemma DotSplits(x: string, u: string, y: string, v: string)
    requires '.' !in x && '.' !in y && x + "." + u == y + "." + v
    ensures x == y && u == v
  {
    FirstDotAt(x, u);
    FirstDotAt(y, v);
    var s := x + "." + u;
    assert s[..|x|] == x && s[..|y|] == y;
    assert s[|x| + 1..] == u && s[|y| + 1..] == v;
  }

  /** Different addresses have different texts. */
  lemma IpTextInjective(p: Ip, q: Ip)
    requires IpText(p) == IpText(q)
    ensures p == q
  {
    hide DecimalText;
    var d := (n: nat) => DecimalText(n);
    DecimalDigits(p.a); DecimalDigits(p.b); DecimalDigits(p.c);
    DecimalDigits(q.a); DecimalDigits(q.b); DecimalDigits(q.c);
    var p2, q2 := d(p.c) + "." + d(p.d), d(q.c) + "." + d(q.d);
    var p1, q1 := d(p.b) + "." + p2, d(q.b) + "." + q2;
    assert IpText(p) == d(p.a) + "." + p1;
    assert IpText(q) == d(q.a) + "." + q1;
    DotSplits(d(p.a), p1, d(q.a), q1);
    DotSplits(d(p.b), p2, d(q.b), q2);
    DotSplits(d(p.c), d(p.d), d(q.c), d(q.d));
    DecimalInjective(p.a, q.a);
    DecimalInjective(p.b, q.b);
    DecimalInjective(p.c, q.c);
    DecimalInjective(p.d, q.d);
  }

  lemma PermutedDistinct<T>(a: seq<T>, b: seq<T>)
    requires Distinct(a) && multiset(a) == multiset(b)
    ensures Distinct(b)
  {
    DistinctMultiset(a);
    forall i, j | 0 <= i < j < |b| ensures b[i] != b[j] {
      RepeatCountsTwice(b, i, j);
    }
  }

  /** Nor is a task told the same address twice for a service. */
  lemma NoTextTwice(s: DurableState, name: string)
    requires IdsMatch(s.tasks) && NetworksDistinct(s)
    ensures Distinct(SortedIps(s.tasks, name))
  {
    hide IpText, EndpointsIn, SortedIps, NetworksDistinct;
    ListingEnumerates(s.tasks.Keys);
    EndpointsListed(s.tasks, Listing(s.tasks.Keys), name);
    var es := EndpointsOf(s.tasks, name);
    var texts := TextsIn(es);
    forall i, j | 0 <= i < j < |texts| ensures texts[i] != texts[j] {
      assert es[i] in es && es[j] in es && es[i] != es[j];
      if texts[i] == texts[j] {
        IpTextInjective(es[i].ip, es[j].ip);
        SameAddressSameTask(s, name, name, es[i], es[j]);
      }
    }
    ViewsAgree(s.tasks, name);
    PermutedDistinct(texts, SortedIps(s.tasks, name));
  }
}
