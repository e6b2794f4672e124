/** Service discovery: the endpoints of a service and the address lists the
    scheduler injects into a task that discovers it. */
module Discovery {
  import opened Types
  import opened Ordering

  /** A task registers its address under its service name while it runs. */
  predicate Serves(task: Task, name: string) {
    task.state.Running? && task.spec.serviceName == Some(name) && task.network.Some?
  }

  function DecimalText(n: nat): string {
    if n < 10 then [DigitChar(n)] else DecimalText(n / 10) + [DigitChar(n % 10)]
  }

  function DigitChar(d: nat): char
    requires d < 10
  {
    "0123456789"[d]
  }

  /** Dotted decimal notation. */
  function IpText(ip: Ip): string {
    DecimalText(ip.a) + "." + DecimalText(ip.b) + "." + DecimalText(ip.c) + "." + DecimalText(ip.d)
  }

  /** The address texts of a service, in the order its tasks are visited. */
  function TextsOf(tasks: map<TaskId, Task>, order: seq<TaskId>, name: string): seq<string> {
    if order == [] then [] else
      var t := order[|order| - 1];
      TextsOf(tasks, order[..|order| - 1], name) + TextAt(tasks, t, name)
  }

  function TextAt(tasks: map<TaskId, Task>, t: TaskId, name: string): seq<string> {
    if t in tasks && Serves(tasks[t], name) then [IpText(tasks[t].network.value.ip)] else []
  }

  /** The sorted address list of a service. */
  ghost function SortedIps(tasks: map<TaskId, Task>, name: string): seq<string> {
    Sort(Self, TextsOf(tasks, Listing(tasks.Keys), name))
  }

  /** What a task is told about the services it discovers. */
  ghost function ServicesFor(tasks: map<TaskId, Task>, task: Task): Option<map<string, seq<string>>> {
    if task.spec.discover == [] then None
    else Some(map name | name in task.spec.discover :: SortedIps(tasks, name))
  }

  lemma ServicesNoneIff(tasks: map<TaskId, Task>, task: Task)
    ensures ServicesFor(tasks, task).None? <==> task.spec.discover == []
  {
  }

  lemma ServicesComplete(tasks: map<TaskId, Task>, task: Task, services: map<string, seq<string>>)
    requires task.spec.discover != []
    requires forall name :: name in services <==> name in task.spec.discover
    requires forall name | name in services :: services[name] == SortedIps(tasks, name)
    ensures ServicesFor(tasks, task) == Some(services)
  {
    hide SortedIps;
    assert services == map name | name in task.spec.discover :: SortedIps(tasks, name);
  }

  lemma TextsNone(tasks: map<TaskId, Task>, name: string)
    ensures TextsOf(tasks, [], name) == []
  {
  }

  lemma TextsStep(tasks: map<TaskId, Task>, order: seq<TaskId>, k: nat, name: string)
    requires k < |order|
    ensures TextsOf(tasks, order[..k + 1], name) == TextsOf(tasks, order[..k], name) + TextAt(tasks, order[k], name)
  {
    assert order[..k + 1][..k] == order[..k];
  }

  // ---------------------------------------------------------------------
  // Independence of the order the tasks are visited in
  // ---------------------------------------------------------------------

  lemma {:induction false} TextsConcat(tasks: map<TaskId, Task>, a: seq<TaskId>, b: seq<TaskId>, name: string)
    ensures TextsOf(tasks, a + b, name) == TextsOf(tasks, a, name) + TextsOf(tasks, b, name)
    decreases |b|
  {
    if b == [] {
      assert a + b == a;
    } else {
      assert (a + b)[..|a + b| - 1] == a + b[..|b| - 1];
      TextsConcat(tasks, a, b[..|b| - 1], name);
    }
  }

  /** Moving one task to the end keeps the collected texts. */
  lemma TextsMoved(tasks: map<TaskId, Task>, left: seq<TaskId>, t: TaskId, right: seq<TaskId>, name: string)
    ensures multiset(TextsOf(tasks, left + [t] + right, name))
         == multiset(TextsOf(tasks, left + right, name)) + multiset(TextAt(tasks, t, name))
  {
    TextsConcat(tasks, left, right, name);
    TextsConcat(tasks, left + [t], right, name);
    assert (left + [t])[..|left + [t]| - 1] == left;
  }

  lemma {:induction false} TextsPermuted(tasks: map<TaskId, Task>, a: seq<TaskId>, b: seq<TaskId>, name: string)
    requires multiset(a) == multiset(b)
    ensures multiset(TextsOf(tasks, a, name)) == multiset(TextsOf(tasks, b, name))
    decreases |a|
  {
    if a == [] {
      assert |multiset(b)| == |b|;
      assert b == [];
    } else {
      var t, front := a[|a| - 1], a[..|a| - 1];
      DropLast(a);
      SameMultisetSameElements(a, b, t);
      var i :| 0 <= i < |b| && b[i] == t;
      var left, right := b[..i], b[i + 1..];
      assert b == left + [t] + right;
      assert multiset(left + right) == multiset(front) by {
        assert multiset(b) == multiset(left) + multiset{t} + multiset(right);
      }
      TextsPermuted(tasks, front, left + right, name);
      TextsMoved(tasks, left, t, right, name);
    }
  }

  /** Any order of visiting the tasks leads to the same list. */
  lemma SortedIpsFromAnyOrder(tasks: map<TaskId, Task>, order: seq<TaskId>, name: string)
    requires Enumerates(order, tasks.Keys)
    ensures Sort(Self, TextsOf(tasks, order, name)) == SortedIps(tasks, name)
  {
    ListingEnumerates(tasks.Keys);
    EnumerationsArePermutations(order, Listing(tasks.Keys), tasks.Keys);
    TextsPermuted(tasks, order, Listing(tasks.Keys), name);
    SortOrderIndependent(Self, TextsOf(tasks, order, name), TextsOf(tasks, Listing(tasks.Keys), name));
  }
}
