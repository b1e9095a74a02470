/** The tasks of the scheduler and the table of pids together. */
module Processes {
  import opened Scheduler
  import K = Kernel
  import T = PidTable

  const INITIAL_CAPACITY: nat := 64

  // ---------- Which tasks there are ----------

  lemma RescheduleTasks(s: State)
    requires s.ready != [] ==> s.ready[0] in s.status
    ensures Reschedule(s).status.Keys == s.status.Keys
  {}

  lemma {:induction false} CheckTasks(s: State, now: nat)
    requires forall t | t in s.sleeping :: t in s.status
    ensures CheckSleepers(s, now).status.Keys == s.status.Keys
    decreases |s.sleeping|
  {
    if s.sleeping != [] && WakeOf(s.wake, s.sleeping[0]) <= now {
      var s' := MakeReady(s.(sleeping := s.sleeping[1..]), s.sleeping[0]);
      assert s'.status.Keys == s.status.Keys;
      CheckTasks(s', now);
    }
  }

  lemma BuriedTasks(s: State, t: Task)
    requires t in s.status
    ensures Buried(s, t).status.Keys == s.status.Keys
      && (forall x | x in Buried(s, t).ready :: x in s.ready || x in s.status)
  {}

  ghost function TasksAfter(s: State, e: Step): set<Task> {
    match e
    case DoCreate(t) => s.status.Keys + {t}
    case DoReap => s.status.Keys - Elements(s.dead)
    case _ => s.status.Keys
  }

  /** Tasks appear when they are created and vanish when they are reaped, and in no other step. */
  lemma StepTasks(s: State, e: Step)
    requires Inv(s) && Enabled(s, e)
    ensures Apply(s, e).status.Keys == TasksAfter(s, e)
  {
    match e
    case DoYield => RescheduleTasks(s);
    case DoSleep(until, _) => RescheduleTasks(Asleep(s, until));
    case DoCheck(now) => CheckTasks(s, now);
    case DoTick(_) => RescheduleTasks(s);
    case DoExit =>
      BuriedTasks(s, s.current);
      RescheduleTasks(Buried(s, s.current));
    case DoKill(t) =>
      if Killable(s, t) {
        if t == s.current {
          BuriedTasks(s, t);
          RescheduleTasks(Buried(s, t));
        } else {
          BuriedTasks(Dequeue(s, t), t);
        }
      }
    case DoReap => ReapKeeps(s);
    case DoCreate(_) =>
    case DoCreateSemaphore(_, _) =>
    case DoAcquire(q) => RescheduleTasks(Queued(s, q));
    case DoRelease(q) => assert SemaphoreOk(s, q);
  }

  // ---------- The table ----------

  /** Every task is in the table under its own pid, and nothing else is. */
  ghost predicate Registered(tasks: set<Task>, pids: map<Task, nat>, live: map<nat, Task>) {
    && pids.Keys == tasks
    && (forall t | t in pids :: pids[t] in live && live[pids[t]] == t)
    && (forall p | p in live :: live[p] in pids && pids[live[p]] == p)
  }

  /** The pids of the tasks are the occupied slots, the tasks in the slots are all tasks, and no two share a pid. */
  lemma OneToOne(tasks: set<Task>, pids: map<Task, nat>, live: map<nat, Task>)
    requires Registered(tasks, pids, live)
    ensures live.Keys == pids.Values && live.Values == tasks
    ensures forall t, u | t in tasks && u in tasks && pids[t] == pids[u] :: t == u
  {
    forall p | p in live ensures p in pids.Values { assert live[p] in pids; }
    forall t | t in tasks ensures t in live.Values { assert pids[t] in live; }
  }

  lemma NewlyRegistered(tasks: set<Task>, pids: map<Task, nat>, live: map<nat, Task>, t: Task, pid: nat)
    requires Registered(tasks, pids, live) && t !in tasks && pid !in live
    ensures Registered(tasks + {t}, pids[t := pid], live[pid := t])
  {}

  lemma Unregistered(tasks: set<Task>, pids: map<Task, nat>, live: map<nat, Task>, t: Task)
    requires Registered(tasks, pids, live) && t in tasks
    ensures pids[t] in live && Registered(tasks - {t}, pids - {t}, live - {pids[t]})
  {}

  class Processes {
    const kernel: K.Kernel
    const table: T.Table
    var pids: map<Task, nat>

    ghost predicate Valid()
      reads this, kernel, table, table.slots
    {
      kernel.Quiet() && table.Valid() && Registered(kernel.view.status.Keys, pids, table.Live())
    }

    /** The boot task has pid 0; the shell and the reaper are the first to ask for one. */
    constructor (t0: Task, sh: Task, rp: Task)
      requires t0 != NOBODY && sh != NOBODY && rp != NOBODY && t0 != sh && t0 != rp && sh != rp
      ensures Valid() && pids == map[t0 := 0, sh := 1, rp := 2] && kernel.view.current == t0
      ensures fresh(kernel) && fresh(table) && fresh(table.slots)
    {
      kernel := new K.Kernel(t0, sh, rp);
      var t, numbers := NewTable(t0, sh, rp);
      table, pids := t, numbers;
    }

    static method NewTable(t0: Task, sh: Task, rp: Task) returns (t: T.Table, pids: map<Task, nat>)
      requires t0 != NOBODY && sh != NOBODY && rp != NOBODY && t0 != sh && t0 != rp && sh != rp
      ensures fresh(t) && fresh(t.slots) && t.Valid() && Registered({t0, sh, rp}, pids, t.Live())
      ensures pids == map[t0 := 0, sh := 1, rp := 2]
    {
      t := new T.Table(INITIAL_CAPACITY);
      var ok := t.Set(0, t0, false);
      ghost var live := t.Live();
      pids := map[t0 := 0];
      assert Registered({t0}, pids, live);
      var ok1, pid1 := t.Register(sh, false, false);
      NewlyRegistered({t0}, pids, live, sh, pid1);
      pids := pids[sh := pid1];
      live := t.Live();
      var ok2, pid2 := t.Register(rp, false, false);
      assert {t0} + {sh} + {rp} == {t0, sh, rp};
      NewlyRegistered({t0} + {sh}, pids, live, rp, pid2);
      pids := pids[rp := pid2];
    }

    /** A new task is in the table before it can run; without memory for the table there is no task. */
    method Create(t: Task, growth: bool, node: bool) returns (ok: bool)
      requires Valid() && Enabled(kernel.view, DoCreate(t))
      modifies this, kernel, table, table.slots
      ensures Valid() && (table.slots == old(table.slots) || fresh(table.slots))
      ensures kernel.view == if ok then Apply(old(kernel.view), DoCreate(t)) else old(kernel.view)
      ensures growth ==> ok
      ensures if ok then t in pids && pids == old(pids)[t := pids[t]] else pids == old(pids)
    {
      ghost var v := kernel.view;
      StepTasks(v, DoCreate(t));
      var pid;
      ok, pid := table.Register(t, growth, node);
      if !ok { return; }
      NewlyRegistered(v.status.Keys, pids, old(table.Live()), t, pid);
      pids := pids[t := pid];
      kernel.CreateTask(t);
    }

    /** Any number may be given as a pid: it is refused, or names the one task with that pid. */
    method KillByPid(pid: nat) returns (rc: int)
      requires Valid()
      modifies kernel
      ensures Valid()
      ensures if pid in table.Live() then
          && kernel.view == Apply(old(kernel.view), DoKill(table.Live()[pid]))
          && rc == (if Killable(old(kernel.view), table.Live()[pid]) then 0 else -1)
        else kernel.view == old(kernel.view) && rc == -1
    {
      var t := table.Get(pid);
      StepTasks(kernel.view, DoKill(t));
      rc := kernel.KillTask(t);
    }

    /** The reaper takes the dead tasks out of the table and gives their pids back. */
    method Reap(node: Task -> bool)
      requires Valid() && Enabled(kernel.view, DoReap)
      modifies this, kernel, table, table.slots
      ensures Valid() && kernel.view == Apply(old(kernel.view), DoReap) && table.slots == old(table.slots)
      ensures pids == old(pids) - Elements(old(kernel.view).dead)
    {
      ghost var v := kernel.view;
      StepTasks(v, DoReap);
      var dead := kernel.ReapAllTasks();
      Forget(dead, node, v);
    }

    /** Takes tasks that were on the dead list out of the table. */
    method Forget(dead: seq<Task>, node: Task -> bool, ghost v: State)
      requires Inv(v) && dead == v.dead && table.Valid() && Registered(v.status.Keys, pids, table.Live())
      modifies `pids, table, table.slots
      ensures table.Valid() && table.slots == old(table.slots) && pids == old(pids) - Elements(dead)
      ensures Registered(v.status.Keys - Elements(dead), pids, table.Live())
    {
      for i := 0 to |dead|
        invariant table.Valid() && table.slots == old(table.slots)
        invariant pids == old(pids) - Elements(dead[..i])
        invariant Registered(v.status.Keys - Elements(dead[..i]), pids, table.Live())
      {
        var t := dead[i];
        NextDead(v, i);
        Unregistered(pids.Keys, pids, table.Live(), t);
        table.Unregister(pids[t], node(t));
        pids := pids - {t};
      }
      assert dead[..|dead|] == dead;
    }
  }

  lemma NextDead(v: State, i: nat)
    requires Inv(v) && i < |v.dead|
    ensures v.dead[i] in v.status && v.dead[i] !in Elements(v.dead[..i])
    ensures Elements(v.dead[..i + 1]) == Elements(v.dead[..i]) + {v.dead[i]}
  {
    assert v.dead[i] in v.dead;
    assert v.dead[..i + 1] == v.dead[..i] + [v.dead[i]];
  }
}
