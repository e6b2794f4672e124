/** What submitting a job adds: every task spec as many times as it asks for,
    and nothing else. */
module Jobs {
  import opened Types
  import opened Ordering
  import opened Durable
  import opened Soundness

  function TotalCount(specs: seq<TaskSpec>): nat {
    if specs == [] then 0 else TotalCount(specs[..|specs| - 1]) + specs[|specs| - 1].count
  }

  /** How often the specs ask for a task that runs `single`. */
  function CountOf(specs: seq<TaskSpec>, single: TaskSpec): nat {
    if specs == [] then 0 else
      var last := specs[|specs| - 1];
      CountOf(specs[..|specs| - 1], single) + if last.(count := 1) == single then last.count else 0
  }

  lemma {:induction false} RepeatedCount(x: TaskSpec, n: nat, y: TaskSpec)
    ensures multiset(Repeated(x, n))[y] == if x == y then n else 0
  {
    if n > 0 {
      RepeatedCount(x, n - 1, y);
      assert Repeated(x, n) == Repeated(x, n - 1) + [x];
    }
  }

  lemma {:induction false} CopiesCounted(specs: seq<TaskSpec>, single: TaskSpec)
    ensures multiset(Copies(specs))[single] == CountOf(specs, single)
  {
    if specs != [] {
      var last := specs[|specs| - 1];
      CopiesCounted(specs[..|specs| - 1], single);
      RepeatedCount(last.(count := 1), last.count, single);
      assert Copies(specs) == Copies(specs[..|specs| - 1]) + Repeated(last.(count := 1), last.count);
    }
  }

  lemma InsertedKey(tasks: map<TaskId, Task>, added: seq<Task>, ids: seq<TaskId>, t: TaskId)
    requires |ids| == |added| && forall i | 0 <= i < |ids| :: added[i].id == ids[i] && ids[i] !in tasks
    ensures t in InsertTasks(tasks, added) <==> t in tasks || t in ids
    ensures t in tasks ==> InsertTasks(tasks, added)[t] == tasks[t]
  {
    hide InsertTasks;
    InsertTasksLookup(tasks, added, t);
    if t in ids {
      var i :| 0 <= i < |ids| && ids[i] == t;
      assert added[i].id == t;
    }
  }

  /** Tasks inserted under ids of their own. */
  lemma Inserted(tasks: map<TaskId, Task>, added: seq<Task>, ids: seq<TaskId>)
    requires |ids| == |added| && forall i | 0 <= i < |ids| :: added[i].id == ids[i] && ids[i] !in tasks
    requires Distinct(ids)
    ensures var m := InsertTasks(tasks, added);
            && m.Keys == tasks.Keys + (set t | t in ids)
            && (forall t | t in tasks :: m[t] == tasks[t])
            && (forall i | 0 <= i < |ids| :: m[ids[i]] == added[i])
            && |m| == |tasks| + |ids|
  {
    hide InsertTasks;
    var m := InsertTasks(tasks, added);
    forall t ensures t in m <==> t in tasks || t in ids
             ensures t in tasks ==> m[t] == tasks[t]
    {
      InsertedKey(tasks, added, ids, t);
    }
    forall i | 0 <= i < |ids| ensures m[ids[i]] == added[i] {
      InsertTasksLookup(tasks, added, ids[i]);
      assert added[i].id == ids[i];
    }
    assert m.Keys == tasks.Keys + (set t | t in ids);
    DistinctSize(ids);
    assert |m| == |m.Keys| && |tasks| == |tasks.Keys|;
  }

  /** The 25 characters with the Unicode property White_Space. */
  const WHITE_SPACE :=
    "\t\n\U{b}\U{c}\r \U{85}\U{a0}\U{1680}\U{2000}\U{2001}\U{2002}\U{2003}\U{2004}\U{2005}"
    + "\U{2006}\U{2007}\U{2008}\U{2009}\U{200a}\U{2028}\U{2029}\U{202f}\U{205f}\U{3000}"

  lemma WhiteSpaceIff(c: char)
    ensures IsWhiteSpace(c) <==> c in WHITE_SPACE
  {
  }

  predicate HasText(s: string) {
    exists i :: 0 <= i < |s| && s[i] !in WHITE_SPACE
  }

  /** A spec is valid exactly when its name, and the name and the command of every
      task, have text, and there is a task and every one is wanted at least once. */
  lemma ValidIff(spec: JobSpec)
    ensures IsValidSpec(spec) <==>
              && HasText(spec.name) && |spec.tasks| >= 1
              && forall task | task in spec.tasks :: HasText(task.name) && HasText(task.command) && task.count >= 1
  {
    hide IsBlank, HasText;
    BlankIff(spec.name);
    forall task | task in spec.tasks
      ensures HasText(task.name) == !IsBlank(task.name) && HasText(task.command) == !IsBlank(task.command)
    {
      BlankIff(task.name);
      BlankIff(task.command);
    }
    assert forall i | 0 <= i < |spec.tasks| :: spec.tasks[i] in spec.tasks;
  }

  lemma BlankIff(s: string)
    ensures HasText(s) <==> !IsBlank(s)
  {
    hide IsWhiteSpace;
    forall i | 0 <= i < |s| ensures IsWhiteSpace(s[i]) <==> s[i] in WHITE_SPACE {
      WhiteSpaceIff(s[i]);
    }
  }

  /** A valid job adds its record and one pending task per requested copy under its own
      id, on no node, and leaves everything else alone; an invalid one adds nothing. */
  lemma CreateJobExpands(s: DurableState, spec: JobSpec, now: DateTime, jobId: JobId, ids: seq<TaskId>)
    requires IsValidSpec(spec) ==> |ids| == TotalCount(spec.tasks)
    requires Distinct(ids) && forall i | 0 <= i < |ids| :: ids[i] !in s.tasks
    ensures IsValidSpec(spec) ==> |ids| == |Copies(spec.tasks)|
    ensures var out := s.CreateJob(spec, now, jobId, ids);
            if !IsValidSpec(spec) then out.result == Err(InvalidJobSpec) && out.state == s && out.ops == [] else
              && out.result == Ok(jobId)
              && out.state == s.(tasks := out.state.tasks, jobs := s.jobs[jobId := JobRecord(spec.name, now)])
              && out.state.tasks.Keys == s.tasks.Keys + (set t | t in ids)
              && (forall t | t in s.tasks :: out.state.tasks[t] == s.tasks[t])
              && (forall i | 0 <= i < |ids| ::
                    var copy := Copies(spec.tasks)[i];
                    out.state.tasks[ids[i]] == Task(ids[i], jobId, copy.name, copy, Pending, None, None, None))
              && |out.state.tasks| == |s.tasks| + TotalCount(spec.tasks)
    ensures forall single :: multiset(Copies(spec.tasks))[single] == CountOf(spec.tasks, single)
  {
    hide Copies, InsertTasks, CountOf, TotalCount, IsValidSpec, NewTask, NewTasks;
    forall single ensures multiset(Copies(spec.tasks))[single] == CountOf(spec.tasks, single) {
      CopiesCounted(spec.tasks, single);
    }
    CopiesSize(spec.tasks);
    if IsValidSpec(spec) {
      var created := NewTasks(Copies(spec.tasks), jobId, ids);
      NewTasksAre(Copies(spec.tasks), jobId, ids);
      Inserted(s.tasks, created, ids);
    }
  }

  lemma NewTasksAre(copies: seq<TaskSpec>, jobId: JobId, ids: seq<TaskId>)
    requires |copies| == |ids|
    ensures |NewTasks(copies, jobId, ids)| == |ids|
    ensures forall i | 0 <= i < |ids| ::
              NewTasks(copies, jobId, ids)[i]
              == Task(ids[i], jobId, copies[i].name, copies[i], Pending, None, None, None)
  {
  }

  lemma {:induction false} CopiesSize(specs: seq<TaskSpec>)
    ensures |Copies(specs)| == TotalCount(specs)
  {
    if specs != [] {
      CopiesSize(specs[..|specs| - 1]);
    }
  }

  lemma DistinctSize<T>(s: seq<T>)
    requires Distinct(s)
    ensures |set x | x in s| == |s|
  {
    DistinctMultiset(s);
    assert |multiset(s)| == |s|;
    assert |multiset(set x | x in s)| == |set x | x in s|;
  }
}
