/**
  The scheduler as a step system over values: what every outermost locked section of the
  kernel does to the task states and queues, and what every run of such steps keeps.
 */
module Scheduler {
  import opened Lists

  /** A task control block's address; zero is the null pointer. */
  type Task = int
  type Sem = int

  const NOBODY: Task := 0
  const TIME_SLICE: nat := 50_000_000

  datatype Status = Ready | Running | Waiting(sem: Sem) | Paused | Sleeping | Dead

  /** `held` records which grants were not released yet; the kernel itself only keeps `count`. */
  datatype Semaphore = Semaphore(max: int, count: int, waiting: seq<Task>, held: multiset<Task>)

  datatype State = State(
    status: map<Task, Status>, wake: map<Task, nat>, current: Task,
    ready: seq<Task>, sleeping: seq<Task>, dead: seq<Task>, sems: map<Sem, Semaphore>,
    slice: nat, boot: Task, shell: Task, reaper: Task)

  // ---------- Queues as sequences ----------

  function Without(l: seq<Task>, t: Task): (r: seq<Task>)
  {
    if l == [] then [] else if l[0] == t then l[1..] else [l[0]] + Without(l[1..], t)
  }

  function WakeOf(wake: map<Task, nat>, t: Task): nat {
    if t in wake then wake[t] else 0
  }

  /** Inserts behind every sleeper that wakes no later. */
  function InsertByWake(wake: map<Task, nat>, l: seq<Task>, t: Task, w: nat): seq<Task>
  {
    if l == [] || w < WakeOf(wake, l[0]) then [t] + l
    else [l[0]] + InsertByWake(wake, l[1..], t, w)
  }

  // ---------- Steps ----------

  function MakeReady(s: State, t: Task): State {
    s.(status := s.status[t := Ready], ready := s.ready + [t])
  }

  /** Switches to the head of the ready queue; a running task goes to its end. */
  function Reschedule(s: State): State {
    if s.ready == [] then s
    else
      var next := s.ready[0];
      var popped := s.(ready := s.ready[1..]);
      var left :=
        if s.current in s.status && s.status[s.current] == Running then MakeReady(popped, s.current) else popped;
      left.(status := left.status[next := Running], current := next, slice := TIME_SLICE)
  }

  /** The current task goes onto the sleep list. */
  function Asleep(s: State, until: nat): State {
    s.(status := s.status[s.current := Sleeping], wake := s.wake[s.current := until],
       sleeping := InsertByWake(s.wake[s.current := until], s.sleeping, s.current, until))
  }

  function Sleep(s: State, until: nat, now: nat): State {
    if until <= now then s else Reschedule(Asleep(s, until))
  }

  /** The timer's check: everyone whose time has come becomes ready, in order. */
  function CheckSleepers(s: State, now: nat): State
    decreases |s.sleeping|
  {
    if s.sleeping == [] || WakeOf(s.wake, s.sleeping[0]) > now then s
    else CheckSleepers(MakeReady(s.(sleeping := s.sleeping[1..]), s.sleeping[0]), now)
  }

  /** The timer's time slice accounting. */
  function SliceTick(s: State, ns: nat): State {
    if s.slice <= ns then
      if s.ready != [] then Reschedule(s) else s.(slice := TIME_SLICE)
    else s.(slice := s.slice - ns)
  }

  function WakeReaper(s: State): State {
    if s.reaper in s.status && s.status[s.reaper] == Paused then MakeReady(s, s.reaper) else s
  }

  /** `t`, on no queue any more, goes onto the dead list, and the reaper is told. */
  function Buried(s: State, t: Task): State {
    WakeReaper(s.(status := s.status[t := Dead], dead := [t] + s.dead))
  }

  function Terminate(s: State): State {
    Reschedule(Buried(s, s.current))
  }

  predicate Killable(s: State, t: Task) {
    t in s.status && t != s.boot && t != s.reaper && t != s.shell && s.status[t] != Dead
  }

  /** Takes a task that is not current off whatever queue its status says it is on. */
  function Dequeue(s: State, t: Task): State
    requires t in s.status
  {
    match s.status[t]
    case Ready => s.(ready := Without(s.ready, t))
    case Sleeping => s.(sleeping := Without(s.sleeping, t))
    case Waiting(q) =>
      if q in s.sems then s.(sems := s.sems[q := s.sems[q].(waiting := Without(s.sems[q].waiting, t))]) else s
    case _ => s
  }

  function Kill(s: State, t: Task): State {
    if !Killable(s, t) then s
    else if t == s.current then Terminate(s)
    else Buried(Dequeue(s, t), t)
  }

  function Elements(l: seq<Task>): set<Task> {
    set t | t in l
  }

  /** Everyone on the dead list is freed and the current task, the reaper, parks. */
  function Cleared(s: State): State {
    var gone := Elements(s.dead);
    s.(status := (s.status - gone)[s.current := Paused], wake := s.wake - gone, dead := [])
  }

  function Reap(s: State): State {
    Reschedule(Cleared(s))
  }

  function Create(s: State, t: Task): State {
    MakeReady(s, t)
  }

  function CreateSemaphore(s: State, q: Sem, max: int): State {
    s.(sems := s.sems[q := Semaphore(max, 0, [], multiset{})])
  }

  /** The current task goes to the end of the semaphore's queue. */
  function Queued(s: State, q: Sem): State
    requires q in s.sems
  {
    s.(status := s.status[s.current := Waiting(q)],
       sems := s.sems[q := s.sems[q].(waiting := s.sems[q].waiting + [s.current])])
  }

  function Acquire(s: State, q: Sem): State
    requires q in s.sems
  {
    var m := s.sems[q];
    if m.count < m.max then s.(sems := s.sems[q := m.(count := m.count + 1, held := m.held + multiset{s.current})])
    else Reschedule(Queued(s, q))
  }

  /** A release hands the grant to the first waiter, or gives it back. */
  function Release(s: State, q: Sem): State
    requires q in s.sems
  {
    var m := s.sems[q];
    var held := m.held - multiset{s.current};
    if m.waiting != [] then
      MakeReady(s.(sems := s.sems[q := m.(waiting := m.waiting[1..], held := held + multiset{m.waiting[0]})]),
        m.waiting[0])
    else s.(sems := s.sems[q := m.(count := m.count - 1, held := held)])
  }

  datatype Step =
    | DoYield
    | DoSleep(until: nat, now: nat)
    | DoCheck(now: nat)
    | DoTick(ns: nat)
    | DoExit
    | DoKill(t: Task)
    | DoReap
    | DoCreate(t: Task)
    | DoCreateSemaphore(q: Sem, max: int)
    | DoAcquire(q: Sem)
    | DoRelease(q: Sem)

  /** The boot task only yields, the reaper only reaps, and only holders release. */
  ghost predicate Enabled(s: State, e: Step) {
    match e
    case DoSleep(_, _) => s.current != s.boot && s.current != s.reaper
    case DoExit => s.current != s.boot && s.current != s.reaper
    case DoReap => s.current == s.reaper
    case DoCreate(t) => t != NOBODY && t !in s.status
    case DoCreateSemaphore(q, _) => q !in s.sems
    case DoAcquire(q) => q in s.sems && s.current != s.boot && s.current != s.reaper
    case DoRelease(q) => q in s.sems && s.current in s.sems[q].held
    case _ => true
  }

  function Apply(s: State, e: Step): State {
    match e
    case DoYield => Reschedule(s)
    case DoSleep(until, now) => Sleep(s, until, now)
    case DoCheck(now) => CheckSleepers(s, now)
    case DoTick(ns) => SliceTick(s, ns)
    case DoExit => Terminate(s)
    case DoKill(t) => Kill(s, t)
    case DoReap => Reap(s)
    case DoCreate(t) => Create(s, t)
    case DoCreateSemaphore(q, max) => CreateSemaphore(s, q, max)
    case DoAcquire(q) => if q in s.sems then Acquire(s, q) else s
    case DoRelease(q) => if q in s.sems then Release(s, q) else s
  }

  // ---------- Invariant ----------

  /** The queue holds exactly the tasks of one status, each once. */
  ghost predicate QueueOf(status: map<Task, Status>, l: seq<Task>, st: Status) {
    Distinct(l) && forall t :: t in l <==> t in status && status[t] == st
  }

  ghost predicate Sorted(wake: map<Task, nat>, l: seq<Task>) {
    forall i, j | 0 <= i < j < |l| :: WakeOf(wake, l[i]) <= WakeOf(wake, l[j])
  }

  ghost predicate SemaphoreOk(s: State, q: Sem)
    requires q in s.sems
  {
    var m := s.sems[q];
    && QueueOf(s.status, m.waiting, Waiting(q))
    && m.count == |m.held| && (m.count <= m.max || m.count == 0)
    && (m.waiting != [] ==> m.count >= m.max)
  }

  /** Every queue holds exactly the tasks of its status. */
  ghost predicate Queues(s: State) {
    && QueueOf(s.status, s.ready, Ready) && QueueOf(s.status, s.sleeping, Sleeping) && QueueOf(s.status, s.dead, Dead)
    && Sorted(s.wake, s.sleeping)
    && (forall q {:trigger SemaphoreOk(s, q)} | q in s.sems :: SemaphoreOk(s, q))
    && (forall t | t in s.status && s.status[t].Waiting? :: s.status[t].sem in s.sems)
    && NOBODY !in s.status
  }

  /** Every task is in the one place its status names; within a section the current task may have left already. */
  ghost predicate Placed(s: State) {
    && Queues(s)
    && s.current in s.status && s.status[s.current] != Ready
    && (forall t | t in s.status && s.status[t] == Running :: t == s.current)
  }

  ghost predicate EldersOk(s: State) {
    && s.boot in s.status && s.reaper in s.status && s.boot != s.reaper
    && (s.status[s.boot] == Ready || s.status[s.boot] == Running)
    && (s.status[s.reaper] == Ready || s.status[s.reaper] == Running || s.status[s.reaper] == Paused)
    && (s.dead != [] ==> s.status[s.reaper] != Paused)
  }

  /** What holds between any two steps. */
  ghost predicate Inv(s: State) {
    Placed(s) && EldersOk(s) && s.status[s.current] == Running && s.slice <= TIME_SLICE
  }

  // ---------- Queue lemmas ----------

  lemma {:induction false} WithoutMembers(l: seq<Task>, t: Task)
    requires Distinct(l)
    ensures Distinct(Without(l, t))
    ensures forall x :: x in Without(l, t) <==> x in l && x != t
  {
    if l != [] {
      Dropped(l);
      WithoutMembers(l[1..], t);
      if l[0] != t { Prepended(Without(l[1..], t), l[0]); }
    }
  }

  lemma {:induction false} InsertMembers(wake: map<Task, nat>, l: seq<Task>, t: Task, w: nat)
    requires Distinct(l) && t !in l
    ensures Distinct(InsertByWake(wake, l, t, w))
    ensures forall x :: x in InsertByWake(wake, l, t, w) <==> x in l || x == t
  {
    if l != [] && WakeOf(wake, l[0]) <= w {
      Dropped(l);
      InsertMembers(wake, l[1..], t, w);
      Prepended(InsertByWake(wake, l[1..], t, w), l[0]);
    } else {
      Prepended(l, t);
    }
  }

  lemma {:induction false} InsertSorted(wake: map<Task, nat>, l: seq<Task>, t: Task, w: nat)
    requires Sorted(wake, l) && WakeOf(wake, t) == w
    ensures Sorted(wake, InsertByWake(wake, l, t, w))
    ensures forall x | x in InsertByWake(wake, l, t, w) :: x in l || x == t
  {
    if l != [] && WakeOf(wake, l[0]) <= w {
      InsertSorted(wake, l[1..], t, w);
      var r := InsertByWake(wake, l[1..], t, w);
      forall j | 0 <= j < |r| ensures WakeOf(wake, l[0]) <= WakeOf(wake, r[j]) {
        assert r[j] in r;
        if r[j] in l[1..] { var k :| 0 <= k < |l[1..]| && l[1..][k] == r[j]; assert l[k + 1] == r[j]; }
      }
    }
  }

  lemma {:induction false} WithoutSorted(wake: map<Task, nat>, l: seq<Task>, t: Task)
    requires Sorted(wake, l)
    ensures Sorted(wake, Without(l, t))
    ensures forall x | x in Without(l, t) :: x in l
  {
    if l != [] && l[0] != t {
      WithoutSorted(wake, l[1..], t);
      var r := Without(l[1..], t);
      forall j | 0 <= j < |r| ensures WakeOf(wake, l[0]) <= WakeOf(wake, r[j]) {
        assert r[j] in r;
        var k :| 0 <= k < |l[1..]| && l[1..][k] == r[j];
        assert l[k + 1] == r[j];
      }
    }
  }

  /** A queue that a task neither joins nor leaves. */
  lemma QueueStays(status: map<Task, Status>, l: seq<Task>, st: Status, t: Task, st': Status)
    requires QueueOf(status, l, st) && t !in l && st' != st
    ensures QueueOf(status[t := st'], l, st)
  {}

  lemma QueueGains(status: map<Task, Status>, l: seq<Task>, st: Status, t: Task, l': seq<Task>)
    requires QueueOf(status, l, st) && t !in l && Distinct(l')
    requires forall x :: x in l' <==> x in l || x == t
    ensures QueueOf(status[t := st], l', st)
  {}

  lemma QueueLoses(status: map<Task, Status>, l: seq<Task>, st: Status, t: Task, st': Status, l': seq<Task>)
    requires QueueOf(status, l, st) && st' != st && Distinct(l')
    requires forall x :: x in l' <==> x in l && x != t
    ensures QueueOf(status[t := st'], l', st)
  {}

  lemma Appended(l: seq<Task>, t: Task)
    requires Distinct(l) && t !in l
    ensures Distinct(l + [t]) && forall x :: x in l + [t] <==> x in l || x == t
  {}

  lemma Dropped(l: seq<Task>)
    requires Distinct(l) && l != []
    ensures Distinct(l[1..]) && forall x :: x in l[1..] <==> x in l && x != l[0]
  {
    assert l == [l[0]] + l[1..];
  }

  lemma Prepended(l: seq<Task>, t: Task)
    requires Distinct(l) && t !in l
    ensures Distinct([t] + l) && forall x :: x in [t] + l <==> x in l || x == t
  {}

  /** Semaphores do not notice a status change between statuses other than waiting. */
  lemma SemaphoresStay(s: State, t: Task, st: Status, s': State)
    requires Queues(s) && !st.Waiting? && (t in s.status ==> !s.status[t].Waiting?)
    requires s'.status == s.status[t := st] && s'.sems == s.sems
    ensures forall q {:trigger SemaphoreOk(s', q)} | q in s'.sems :: SemaphoreOk(s', q)
    ensures forall x | x in s'.status && s'.status[x].Waiting? :: s'.status[x].sem in s'.sems
  {
    forall q {:trigger SemaphoreOk(s', q)} | q in s'.sems ensures SemaphoreOk(s', q) {
      assert SemaphoreOk(s, q);
      QueueStays(s.status, s.sems[q].waiting, Waiting(q), t, st);
    }
  }

  /** A task that is on no queue becomes ready. */
  lemma MakeReadyKeeps(s: State, t: Task)
    requires Queues(s) && t != NOBODY
    requires t in s.status ==> s.status[t] == Running || s.status[t] == Paused
    ensures Queues(MakeReady(s, t))
  {
    Appended(s.ready, t);
    QueueGains(s.status, s.ready, Ready, t, s.ready + [t]);
    QueueStays(s.status, s.sleeping, Sleeping, t, Ready);
    QueueStays(s.status, s.dead, Dead, t, Ready);
    SemaphoresStay(s, t, Ready, MakeReady(s, t));
  }

  /** The head of the ready queue leaves it to run. */
  lemma HeadRuns(s: State, s': State)
    requires Queues(s) && s.ready != []
    requires s' == s.(ready := s.ready[1..], status := s.status[s.ready[0] := Running], current := s.ready[0],
      slice := TIME_SLICE)
    ensures Queues(s')
  {
    var t := s.ready[0];
    Dropped(s.ready);
    QueueLoses(s.status, s.ready, Ready, t, Running, s.ready[1..]);
    QueueStays(s.status, s.sleeping, Sleeping, t, Running);
    QueueStays(s.status, s.dead, Dead, t, Running);
    SemaphoresStay(s, t, Running, s');
  }

  lemma RescheduleQueues(s: State)
    requires Placed(s)
    ensures Queues(Reschedule(s))
  {
    if s.ready != [] {
      if s.status[s.current] == Running {
        MakeReadyKeeps(s, s.current);
        assert (s.ready + [s.current])[1..] == s.ready[1..] + [s.current];
        HeadRuns(MakeReady(s, s.current), Reschedule(s));
      } else {
        HeadRuns(s, Reschedule(s));
      }
    }
  }

  /** The head of the ready queue is ready, and not the current task. */
  lemma HeadIsReady(s: State)
    requires Placed(s) && s.ready != []
    ensures s.ready[0] in s.status && s.status[s.ready[0]] == Ready && s.ready[0] != s.current
  {
    assert s.ready[0] in s.ready;
  }

  lemma RescheduleKeeps(s: State)
    requires Placed(s) && EldersOk(s) && (s.ready != [] || s.status[s.current] == Running) && s.slice <= TIME_SLICE
    ensures Inv(Reschedule(s))
  {
    RescheduleQueues(s);
    if s.ready != [] {
      HeadIsReady(s);
      var s' := Reschedule(s);
      assert s'.status ==
        (if s.status[s.current] == Running then s.status[s.current := Ready] else s.status)[s.ready[0] := Running];
      assert forall t | t in s'.status && s'.status[t] == Running :: t == s'.current;
      assert EldersOk(s');
    }
  }

  /** The boot task never blocks, so whenever the current task cannot go on, someone else is ready. */
  lemma NeverIdle(s: State)
    requires Placed(s) && EldersOk(s) && s.status[s.current] != Running
    ensures s.ready != []
  {
    assert s.boot in s.ready;
  }

  /** A state inside a section from which switching leads back to the invariant. */
  ghost predicate Switchable(s: State) {
    Placed(s) && EldersOk(s) && s.slice <= TIME_SLICE
  }

  lemma SwitchKeeps(s: State)
    requires Switchable(s)
    ensures (s.ready != [] || s.status[s.current] == Running) && Inv(Reschedule(s))
  {
    if s.status[s.current] != Running { NeverIdle(s); }
    RescheduleKeeps(s);
  }

  lemma AsleepIsPlaced(s: State, until: nat)
    requires Inv(s) && s.current != s.boot && s.current != s.reaper
    ensures Switchable(Asleep(s, until))
  {
    var c, s' := s.current, Asleep(s, until);
    InsertMembers(s'.wake, s.sleeping, c, until);
    QueueStays(s.status, s.ready, Ready, c, Sleeping);
    QueueGains(s.status, s.sleeping, Sleeping, c, s'.sleeping);
    QueueStays(s.status, s.dead, Dead, c, Sleeping);
    SemaphoresStay(s, c, Sleeping, s');
    assert Sorted(s'.wake, s.sleeping) by {
      assert forall i | 0 <= i < |s.sleeping| :: s.sleeping[i] in s.sleeping;
    }
    InsertSorted(s'.wake, s.sleeping, c, until);
  }

  function WokenFirst(s: State): State
    requires s.sleeping != []
  {
    MakeReady(s.(sleeping := s.sleeping[1..]), s.sleeping[0])
  }

  lemma WakeFirstKeeps(s: State)
    requires Inv(s) && s.sleeping != []
    ensures Inv(WokenFirst(s))
  {
    var t := s.sleeping[0];
    assert t in s.sleeping;
    Dropped(s.sleeping);
    Appended(s.ready, t);
    QueueGains(s.status, s.ready, Ready, t, s.ready + [t]);
    QueueLoses(s.status, s.sleeping, Sleeping, t, Ready, s.sleeping[1..]);
    QueueStays(s.status, s.dead, Dead, t, Ready);
    SemaphoresStay(s, t, Ready, WokenFirst(s));
  }

  /** After the timer's check nobody overdue sleeps, nobody was woken early, and the others were not touched. */
  lemma {:induction false} CheckKeeps(s: State, now: nat)
    requires Inv(s)
    ensures Inv(CheckSleepers(s, now))
    ensures var s' := CheckSleepers(s, now);
      && (forall t | t in s'.sleeping :: t in s.sleeping && WakeOf(s.wake, t) > now)
      && (forall t | t in s.sleeping && t !in s'.sleeping :: WakeOf(s.wake, t) <= now && t in s'.ready)
      && s'.current == s.current && s.ready <= s'.ready
    decreases |s.sleeping|
  {
    if s.sleeping != [] && WakeOf(s.wake, s.sleeping[0]) <= now {
      WakeFirstKeeps(s);
      CheckKeeps(WokenFirst(s), now);
      assert s.sleeping == [s.sleeping[0]] + s.sleeping[1..];
      assert s.sleeping[0] in WokenFirst(s).ready;
    } else if s.sleeping != [] {
      forall t | t in s.sleeping ensures WakeOf(s.wake, t) > now {
        var i :| 0 <= i < |s.sleeping| && s.sleeping[i] == t;
      }
    }
  }

  /** Waking the reaper when someone died restores what is promised about it. */
  lemma WakeReaperKeeps(s: State)
    requires Placed(s) && s.current != s.reaper
    requires s.boot in s.status && s.reaper in s.status && s.boot != s.reaper
    requires s.status[s.boot] == Ready || s.status[s.boot] == Running
    requires s.status[s.reaper] == Ready || s.status[s.reaper] == Paused
    ensures Placed(WakeReaper(s)) && EldersOk(WakeReaper(s))
    ensures WakeReaper(s).status[s.current] == s.status[s.current] && s.ready <= WakeReaper(s).ready
  {
    if s.status[s.reaper] == Paused { MakeReadyKeeps(s, s.reaper); }
  }

  lemma BuriedIsPlaced(s: State)
    requires Inv(s) && s.current != s.boot && s.current != s.reaper
    ensures Switchable(Buried(s, s.current))
  {
    var c := s.current;
    var s' := s.(status := s.status[c := Dead], dead := [c] + s.dead);
    Prepended(s.dead, c);
    QueueStays(s.status, s.ready, Ready, c, Dead);
    QueueStays(s.status, s.sleeping, Sleeping, c, Dead);
    QueueGains(s.status, s.dead, Dead, c, [c] + s.dead);
    SemaphoresStay(s, c, Dead, s');
    WakeReaperKeeps(s');
  }

  /** Taking a task off its queue to kill it. */
  lemma KilledQueues(s: State, t: Task)
    requires Inv(s) && Killable(s, t) && t != s.current
    ensures var d := Dequeue(s, t); Queues(d.(status := d.status[t := Dead], dead := [t] + d.dead))
  {
    var d := Dequeue(s, t);
    var s' := d.(status := d.status[t := Dead], dead := [t] + d.dead);
    WithoutMembers(s.ready, t);
    WithoutMembers(s.sleeping, t);
    WithoutSorted(s.wake, s.sleeping, t);
    QueueLoses(s.status, s.ready, Ready, t, Dead, Without(s.ready, t));
    QueueLoses(s.status, s.sleeping, Sleeping, t, Dead, Without(s.sleeping, t));
    if s.status[t] != Ready { QueueStays(s.status, s.ready, Ready, t, Dead); }
    if s.status[t] != Sleeping { QueueStays(s.status, s.sleeping, Sleeping, t, Dead); }
    Prepended(s.dead, t);
    QueueGains(s.status, s.dead, Dead, t, [t] + s.dead);
    forall q {:trigger SemaphoreOk(s', q)} | q in s'.sems ensures SemaphoreOk(s', q) {
      assert SemaphoreOk(s, q);
      WithoutMembers(s.sems[q].waiting, t);
      if s.status[t] == Waiting(q) {
        QueueLoses(s.status, s.sems[q].waiting, Waiting(q), t, Dead, Without(s.sems[q].waiting, t));
      } else {
        QueueStays(s.status, s.sems[q].waiting, Waiting(q), t, Dead);
      }
    }
  }

  lemma KillKeeps(s: State, t: Task)
    requires Inv(s)
    ensures Inv(Kill(s, t))
  {
    if Killable(s, t) {
      if t == s.current {
        BuriedIsPlaced(s);
        SwitchKeeps(Buried(s, t));
      } else {
        KilledQueues(s, t);
        var d := Dequeue(s, t);
        var s' := d.(status := d.status[t := Dead], dead := [t] + d.dead);
        if s.current == s.reaper { assert WakeReaper(s') == s'; } else { WakeReaperKeeps(s'); }
      }
    }
  }

  lemma ClearedIsPlaced(s: State)
    requires Inv(s) && s.current == s.reaper
    ensures Switchable(Cleared(s))
  {
    var s' := Cleared(s);
    assert forall t | t in s.status :: t in Elements(s.dead) <==> s.status[t] == Dead;
    assert Queues(s') by {
      assert QueueOf(s'.status, s'.ready, Ready) && QueueOf(s'.status, s'.sleeping, Sleeping)
        && QueueOf(s'.status, s'.dead, Dead);
      assert forall i | 0 <= i < |s.sleeping| :: s.sleeping[i] in s.sleeping;
      forall q {:trigger SemaphoreOk(s', q)} | q in s'.sems ensures SemaphoreOk(s', q) {
        assert SemaphoreOk(s, q);
      }
    }
  }

  /** Reaping frees exactly the dead: no freed task is current or on a queue, everyone else keeps their place. */
  lemma ReapKeeps(s: State)
    requires Inv(s) && s.current == s.reaper
    ensures Inv(Reap(s)) && Reap(s).dead == []
    ensures Reap(s).status.Keys == s.status.Keys - Elements(s.dead)
  {
    ClearedIsPlaced(s);
    SwitchKeeps(Cleared(s));
    HeadIsReady(Cleared(s));
  }

  lemma QueuedIsPlaced(s: State, q: Sem)
    requires Inv(s) && q in s.sems && s.current != s.boot && s.current != s.reaper && s.sems[q].count >= s.sems[q].max
    ensures Switchable(Queued(s, q))
  {
    var m, c, s' := s.sems[q], s.current, Queued(s, q);
    assert SemaphoreOk(s, q);
    QueueStays(s.status, s.ready, Ready, c, Waiting(q));
    QueueStays(s.status, s.sleeping, Sleeping, c, Waiting(q));
    QueueStays(s.status, s.dead, Dead, c, Waiting(q));
    Appended(m.waiting, c);
    QueueGains(s.status, m.waiting, Waiting(q), c, m.waiting + [c]);
    forall p {:trigger SemaphoreOk(s', p)} | p in s'.sems ensures SemaphoreOk(s', p) {
      assert SemaphoreOk(s, p);
      if p != q { QueueStays(s.status, s.sems[p].waiting, Waiting(p), c, Waiting(q)); }
    }
  }

  lemma AcquireKeeps(s: State, q: Sem)
    requires Inv(s) && q in s.sems && s.current != s.boot && s.current != s.reaper
    ensures Inv(Acquire(s, q))
  {
    assert SemaphoreOk(s, q);
    if s.sems[q].count < s.sems[q].max {
      var s' := Acquire(s, q);
      forall p {:trigger SemaphoreOk(s', p)} | p in s'.sems ensures SemaphoreOk(s', p) { assert SemaphoreOk(s, p); }
    } else {
      QueuedIsPlaced(s, q);
      SwitchKeeps(Queued(s, q));
    }
  }

  lemma ReleaseKeeps(s: State, q: Sem)
    requires Inv(s) && q in s.sems && s.current in s.sems[q].held
    ensures Inv(Release(s, q))
  {
    var m, s' := s.sems[q], Release(s, q);
    assert SemaphoreOk(s, q);
    if m.waiting != [] {
      var t := m.waiting[0];
      assert t in m.waiting;
      Dropped(m.waiting);
      Appended(s.ready, t);
      QueueGains(s.status, s.ready, Ready, t, s.ready + [t]);
      QueueStays(s.status, s.sleeping, Sleeping, t, Ready);
      QueueStays(s.status, s.dead, Dead, t, Ready);
      QueueLoses(s.status, m.waiting, Waiting(q), t, Ready, m.waiting[1..]);
      forall p {:trigger SemaphoreOk(s', p)} | p in s'.sems ensures SemaphoreOk(s', p) {
        assert SemaphoreOk(s, p);
        if p != q { QueueStays(s.status, s.sems[p].waiting, Waiting(p), t, Ready); }
      }
    } else {
      forall p {:trigger SemaphoreOk(s', p)} | p in s'.sems ensures SemaphoreOk(s', p) { assert SemaphoreOk(s, p); }
    }
  }

  lemma CreateSemaphoreKeeps(s: State, q: Sem, max: int)
    requires Inv(s) && q !in s.sems
    ensures Inv(CreateSemaphore(s, q, max))
  {
    var s' := CreateSemaphore(s, q, max);
    forall p {:trigger SemaphoreOk(s', p)} | p in s'.sems ensures SemaphoreOk(s', p) {
      if p != q { assert SemaphoreOk(s, p); }
    }
  }

  /** Every step keeps the invariant. */
  lemma StepKeeps(s: State, e: Step)
    requires Inv(s) && Enabled(s, e)
    ensures Inv(Apply(s, e))
  {
    match e
    case DoYield => RescheduleKeeps(s);
    case DoSleep(until, now) =>
      AsleepIsPlaced(s, until);
      SwitchKeeps(Asleep(s, until));
    case DoCheck(now) => CheckKeeps(s, now);
    case DoTick(ns) => if s.slice <= ns && s.ready != [] { RescheduleKeeps(s); } else { SliceOnly(s, Apply(s, e)); }
    case DoExit =>
      BuriedIsPlaced(s);
      SwitchKeeps(Buried(s, s.current));
    case DoKill(t) => KillKeeps(s, t);
    case DoReap => ReapKeeps(s);
    case DoCreate(t) => MakeReadyKeeps(s, t);
    case DoCreateSemaphore(q, max) => CreateSemaphoreKeeps(s, q, max);
    case DoAcquire(q) => AcquireKeeps(s, q);
    case DoRelease(q) => ReleaseKeeps(s, q);
  }

  lemma SliceOnly(s: State, s': State)
    requires Inv(s) && s' == s.(slice := s'.slice) && s'.slice <= TIME_SLICE
    ensures Inv(s')
  {
    forall q {:trigger SemaphoreOk(s', q)} | q in s'.sems ensures SemaphoreOk(s', q) { assert SemaphoreOk(s, q); }
  }

  // ---------- Runs ----------

  /** `states` are the states that `steps` lead through. */
  ghost predicate Run(states: seq<State>, steps: seq<Step>) {
    && |states| == |steps| + 1
    && forall i | 0 <= i < |steps| :: Enabled(states[i], steps[i]) && states[i + 1] == Apply(states[i], steps[i])
  }

  lemma RunTail(states: seq<State>, steps: seq<Step>)
    requires Run(states, steps) && |steps| > 0
    ensures Run(states[1..], steps[1..])
  {}

  /** In every reachable state every task is in the one place its status names. */
  lemma {:induction false} RunKeeps(states: seq<State>, steps: seq<Step>)
    requires Run(states, steps) && Inv(states[0])
    ensures forall i | 0 <= i < |states| :: Inv(states[i])
  {
    if |steps| > 0 {
      StepKeeps(states[0], steps[0]);
      RunTail(states, steps);
      RunKeeps(states[1..], steps[1..]);
      forall i | 0 < i < |states| ensures Inv(states[i]) { assert states[i] == states[1..][i - 1]; }
    }
  }

  // ---------- Round robin ----------

  function IndexOf(l: seq<Task>, t: Task): (k: nat)
    requires t in l
    ensures k < |l| && l[k] == t && forall i | 0 <= i < k :: l[i] != t
  {
    if l[0] == t then 0 else 1 + IndexOf(l[1..], t)
  }

  lemma IndexBefore(l: seq<Task>, t: Task, k: nat)
    requires k < |l| && l[k] == t
    ensures IndexOf(l, t) <= k
  {}

  lemma IndexAppended(l: seq<Task>, m: seq<Task>, t: Task)
    requires t in l
    ensures t in l + m && IndexOf(l + m, t) <= IndexOf(l, t)
  {
    assert (l + m)[IndexOf(l, t)] == t;
    IndexBefore(l + m, t, IndexOf(l, t));
  }

  lemma IndexPopped(l: seq<Task>, t: Task)
    requires t in l && l[0] != t
    ensures t in l[1..] && IndexOf(l[1..], t) == IndexOf(l, t) - 1
  {}

  lemma {:induction false} IndexWithout(l: seq<Task>, x: Task, t: Task)
    requires t in l && x != t
    ensures t in Without(l, x) && IndexOf(Without(l, x), t) <= IndexOf(l, t)
  {
    if l[0] == t {
      assert Without(l, x)[0] == t;
      IndexBefore(Without(l, x), t, 0);
    } else if l[0] == x {
      IndexPopped(l, t);
    } else {
      IndexWithout(l[1..], x, t);
      assert Without(l, x)[1..] == Without(l[1..], x);
    }
  }

  /** Progress of a ready task: it runs, or it moved up in the queue by at least `d`. */
  ghost predicate MovedUp(l: seq<Task>, t: Task, d: nat, s': State)
    requires t in l
  {
    s'.current == t || (t in s'.ready && IndexOf(s'.ready, t) + d <= IndexOf(l, t))
  }

  lemma RescheduleMoves(s: State, l: seq<Task>, t: Task)
    requires t in l && t in s.ready && IndexOf(s.ready, t) <= IndexOf(l, t)
    ensures MovedUp(l, t, 1, Reschedule(s)) && Reschedule(s).slice == TIME_SLICE
  {
    if s.ready[0] != t {
      IndexPopped(s.ready, t);
      IndexAppended(s.ready[1..], [s.current], t);
      assert s.ready[1..] + [] == s.ready[1..];
    }
  }

  lemma {:induction false} CheckMoves(s: State, now: nat, t: Task)
    requires t in s.ready
    ensures var s' := CheckSleepers(s, now);
      s'.current == s.current && s'.slice == s.slice && t in s'.ready && IndexOf(s'.ready, t) <= IndexOf(s.ready, t)
    decreases |s.sleeping|
  {
    if s.sleeping != [] && WakeOf(s.wake, s.sleeping[0]) <= now {
      IndexAppended(s.ready, [s.sleeping[0]], t);
      CheckMoves(WokenFirst(s), now, t);
    }
  }

  /** One step never sets a ready task back, and every switch moves it up by one. */
  lemma StepMoves(s: State, e: Step, t: Task)
    requires Inv(s) && Enabled(s, e) && t in s.ready && (e == DoKill(t) ==> !Killable(s, t))
    ensures var s' := Apply(s, e);
      if s'.current == s.current && !(e.DoTick? && s.slice <= e.ns)
      then t in s'.ready && IndexOf(s'.ready, t) <= IndexOf(s.ready, t)
           && (s'.slice == if e.DoTick? then s.slice - e.ns else s.slice)
      else MovedUp(s.ready, t, 1, s') && s'.slice == TIME_SLICE
  {
    StepKeeps(s, e);
    HeadIsReady(s);
    match e
    case DoYield => RescheduleMoves(s, s.ready, t);
    case DoSleep(until, now) =>
      if until > now { LeaveMoves(s, Apply(s, e), t); }
    case DoCheck(now) => CheckMoves(s, now, t);
    case DoTick(ns) => if s.slice <= ns { RescheduleMoves(s, s.ready, t); }
    case DoExit => ReaperMoves(s, t);
    case DoKill(x) =>
      if Killable(s, x) {
        if x == s.current { ReaperMoves(s, t); } else { KillMoves(s, x, t); }
      }
    case DoReap => LeaveMoves(s, Apply(s, e), t);
    case DoCreate(x) => IndexAppended(s.ready, [x], t);
    case DoCreateSemaphore(q, max) =>
    case DoAcquire(q) => if s.sems[q].count >= s.sems[q].max { LeaveMoves(s, Apply(s, e), t); }
    case DoRelease(q) => if s.sems[q].waiting != [] { IndexAppended(s.ready, [s.sems[q].waiting[0]], t); }
  }

  /** The current task left its place and the head of the unchanged ready queue runs. */
  lemma LeaveMoves(s: State, s': State, t: Task)
    requires t in s.ready && s'.slice == TIME_SLICE
    requires s'.ready == s.ready[1..] && s'.current == s.ready[0]
    ensures MovedUp(s.ready, t, 1, s')
  {
    if s.ready[0] != t { IndexPopped(s.ready, t); }
  }

  lemma ReaperMoves(s: State, t: Task)
    requires t in s.ready
    ensures MovedUp(s.ready, t, 1, Terminate(s)) && Terminate(s).slice == TIME_SLICE
  {
    var s' := WakeReaper(s.(status := s.status[s.current := Dead], dead := [s.current] + s.dead));
    IndexAppended(s.ready, [s.reaper], t);
    RescheduleMoves(s', s.ready, t);
  }

  lemma KillMoves(s: State, x: Task, t: Task)
    requires t in s.ready && Killable(s, x) && x != s.current && x != t
    ensures var s' := Kill(s, x);
      && t in s'.ready && IndexOf(s'.ready, t) <= IndexOf(s.ready, t) && s'.slice == s.slice && s'.current == s.current
  {
    var l := Dequeue(s, x).ready;
    assert t in l && IndexOf(l, t) <= IndexOf(s.ready, t) by {
      assert l == s.ready || l == Without(s.ready, x);
      IndexWithout(s.ready, x, t);
    }
    IndexAppended(l, [s.reaper], t);
    KilledReady(s, x);
  }

  lemma KilledReady(s: State, x: Task)
    requires Killable(s, x) && x != s.current
    ensures var s', l := Kill(s, x), Dequeue(s, x).ready;
      && (s'.ready == l || s'.ready == l + [s.reaper]) && s'.slice == s.slice && s'.current == s.current
  {}

  /** The number of context switches in a run. */
  function Switches(states: seq<State>): nat {
    if |states| < 2 then 0
    else (if states[1].current != states[0].current then 1 else 0) + Switches(states[1..])
  }

  /** Nobody kills `t` during the run. */
  ghost predicate Spared(states: seq<State>, steps: seq<Step>, t: Task)
    requires Run(states, steps)
  {
    forall i | 0 <= i < |steps| && steps[i] == DoKill(t) :: !Killable(states[i], t)
  }

  ghost predicate Runs(states: seq<State>, t: Task) {
    exists i :: 0 <= i < |states| && states[i].current == t
  }

  lemma RunsLater(states: seq<State>, t: Task)
    requires |states| > 0 && Runs(states[1..], t)
    ensures Runs(states, t)
  {
    var i :| 0 <= i < |states[1..]| && states[1..][i].current == t;
    assert states[i + 1].current == t;
  }

  lemma SparedTail(states: seq<State>, steps: seq<Step>, t: Task)
    requires Run(states, steps) && |steps| > 0 && Spared(states, steps, t)
    ensures Run(states[1..], steps[1..]) && Spared(states[1..], steps[1..], t)
  {}

  /** A task at index `k` of the ready queue runs within `k + 1` switches, whatever else is pushed meanwhile. */
  lemma {:induction false} RoundRobin(states: seq<State>, steps: seq<Step>, t: Task)
    requires Run(states, steps) && Inv(states[0]) && Spared(states, steps, t) && t in states[0].ready
    requires Switches(states) > IndexOf(states[0].ready, t)
    ensures Runs(states, t)
  {
    var s, s' := states[0], states[1];
    StepKeeps(s, steps[0]);
    StepMoves(s, steps[0], t);
    SparedTail(states, steps, t);
    if s'.current == t {
      assert states[1].current == t;
    } else {
      RoundRobin(states[1..], steps[1..], t);
      RunsLater(states, t);
    }
  }

  /** How many timer ticks use up `slice` nanoseconds; even an empty slice lasts until the next tick. */
  function TicksIn(slice: nat, ns: nat): (n: nat)
    requires ns > 0
    ensures n > 0
    decreases slice
  {
    if slice <= ns then 1 else 1 + TicksIn(slice - ns, ns)
  }

  /** That number is the quotient rounded up. */
  lemma {:induction false} TicksInIsCeiling(slice: nat, ns: nat)
    requires ns > 0 && slice > 0
    ensures (TicksIn(slice, ns) - 1) * ns < slice <= TicksIn(slice, ns) * ns
    decreases slice
  {
    if slice > ns {
      TicksInIsCeiling(slice - ns, ns);
      var n := TicksIn(slice - ns, ns);
      assert (n + 1) * ns == n * ns + ns && (n + 1 - 1) * ns == (n - 1) * ns + ns;
    }
  }

  function Ticks(steps: seq<Step>): nat {
    if steps == [] then 0 else (if steps[0].DoTick? then 1 else 0) + Ticks(steps[1..])
  }

  /** An upper bound on the ticks that pass before `t` runs. */
  function TicksBound(s: State, t: Task, ns: nat): nat
    requires ns > 0 && t in s.ready
  {
    TicksIn(s.slice, ns) + IndexOf(s.ready, t) * TicksIn(TIME_SLICE, ns)
  }

  lemma NotLater(k: nat, k': nat, full: nat)
    requires k' <= k
    ensures k' * full <= k * full && (k' < k ==> full + k' * full <= k * full)
  {
    if k' < k { assert (k' + 1) * full <= k * full; }
  }

  lemma StepLowersBound(s: State, e: Step, t: Task, ns: nat)
    requires Inv(s) && Enabled(s, e) && t in s.ready && (e == DoKill(t) ==> !Killable(s, t))
    requires ns > 0 && (e.DoTick? ==> e.ns == ns)
    ensures var s' := Apply(s, e);
      s'.current == t ||
      (t in s'.ready && TicksBound(s', t, ns) + (if e.DoTick? then 1 else 0) <= TicksBound(s, t, ns))
  {
    var s' := Apply(s, e);
    StepMoves(s, e, t);
    if s'.current != t {
      var k, k', full := IndexOf(s.ready, t), IndexOf(s'.ready, t), TicksIn(TIME_SLICE, ns);
      NotLater(k, k', full);
    }
  }

  ghost predicate TicksOf(steps: seq<Step>, ns: nat) {
    forall i | 0 <= i < |steps| && steps[i].DoTick? :: steps[i].ns == ns
  }

  /** A ready task runs within as many ticks as the rest of the slice and one full slice per task before it take. */
  lemma {:induction false} BoundedWait(states: seq<State>, steps: seq<Step>, t: Task, ns: nat)
    requires Run(states, steps) && Inv(states[0]) && Spared(states, steps, t) && t in states[0].ready
    requires ns > 0 && TicksOf(steps, ns)
    requires Ticks(steps) >= TicksBound(states[0], t, ns)
    ensures Runs(states, t)
  {
    var s, s' := states[0], states[1];
    StepKeeps(s, steps[0]);
    StepLowersBound(s, steps[0], t, ns);
    SparedTail(states, steps, t);
    if s'.current == t {
      assert states[1].current == t;
    } else {
      assert TicksOf(steps[1..], ns);
      BoundedWait(states[1..], steps[1..], t, ns);
      RunsLater(states, t);
    }
  }

  /** At index `k` that is at most `k + 1` full slices. */
  lemma BoundInSlices(s: State, t: Task, ns: nat)
    requires ns > 0 && t in s.ready && s.slice <= TIME_SLICE
    ensures TicksBound(s, t, ns) <= (IndexOf(s.ready, t) + 1) * TicksIn(TIME_SLICE, ns)
  {
    var k, full := IndexOf(s.ready, t), TicksIn(TIME_SLICE, ns);
    assert (k + 1) * full == k * full + full;
    TicksMonotone(s.slice, TIME_SLICE, ns);
  }

  lemma {:induction false} TicksMonotone(a: nat, b: nat, ns: nat)
    requires ns > 0 && a <= b
    ensures TicksIn(a, ns) <= TicksIn(b, ns)
    decreases b
  {
    if a > ns { TicksMonotone(a - ns, b - ns, ns); }
  }

  // ---------- Reaping ----------

  /**
    No lost wake-up: while anyone is dead the reaper runs or is ready, so it runs within its index plus one
    switches.
   */
  lemma ReaperComes(states: seq<State>, steps: seq<Step>)
    requires Run(states, steps) && Inv(states[0]) && states[0].dead != []
    ensures states[0].current == states[0].reaper || states[0].reaper in states[0].ready
    ensures states[0].reaper in states[0].ready && Switches(states) > IndexOf(states[0].ready, states[0].reaper) ==>
      Runs(states, states[0].reaper)
  {
    var r := states[0].reaper;
    if r in states[0].ready && Switches(states) > IndexOf(states[0].ready, r) {
      RunFixed(states, steps);
      RoundRobin(states, steps, r);
    }
  }

  lemma {:induction false} RunFixed(states: seq<State>, steps: seq<Step>)
    requires Run(states, steps)
    ensures forall i | 0 <= i < |states| :: states[i].reaper == states[0].reaper && states[i].boot == states[0].boot
  {
    if |steps| > 0 {
      StepFixed(states[0], steps[0]);
      RunTail(states, steps);
      RunFixed(states[1..], steps[1..]);
      forall i | 0 < i < |states| ensures states[i].reaper == states[0].reaper && states[i].boot == states[0].boot {
        assert states[i] == states[1..][i - 1];
      }
    }
  }

  lemma StepFixed(s: State, e: Step)
    ensures Apply(s, e).reaper == s.reaper && Apply(s, e).boot == s.boot
  {
    if e.DoCheck? { CheckFixed(s, e.now); }
  }

  lemma {:induction false} CheckFixed(s: State, now: nat)
    ensures var s' := CheckSleepers(s, now);
      && s'.reaper == s.reaper && s'.boot == s.boot && s'.dead == s.dead && s'.sems == s.sems && s'.wake == s.wake
      && (forall t | t in s.status && t !in s.sleeping :: t in s'.status && s'.status[t] == s.status[t])
    decreases |s.sleeping|
  {
    if s.sleeping != [] && WakeOf(s.wake, s.sleeping[0]) <= now { CheckFixed(WokenFirst(s), now); }
  }

  lemma DeadAfter(s: State, e: Step, t: Task)
    requires t in s.dead && !e.DoReap?
    ensures t in Apply(s, e).dead
  {
    if e.DoCheck? { CheckFixed(s, e.now); }
  }

  /** A dead task stays dead and listed until a round of the reaper frees it. */
  lemma DeadUntilReaped(s: State, e: Step, t: Task)
    requires Inv(s) && Enabled(s, e) && t in s.dead
    ensures var s' := Apply(s, e);
      if e.DoReap? then t !in s'.status && t !in s'.ready && t !in s'.sleeping && s'.current != t
      else t in s'.dead && t in s'.status && s'.status[t] == Dead
  {
    StepKeeps(s, e);
    if e.DoReap? {
      ReapKeeps(s);
    } else {
      DeadAfter(s, e, t);
    }
  }

  // ---------- Sleeping ----------

  /** A switch touches neither the sleepers nor the dead nor any semaphore. */
  lemma SwitchSame(s: State)
    ensures var s' := Reschedule(s);
      && s'.sleeping == s.sleeping && s'.dead == s.dead && s'.sems == s.sems && s'.wake == s.wake
      && s'.boot == s.boot && s'.reaper == s.reaper && s'.shell == s.shell
  {}

  lemma SleepersAfter(s: State, e: Step)
    requires !e.DoCheck?
    ensures var l := Apply(s, e).sleeping;
      || l == s.sleeping
      || (e.DoSleep? && l == InsertByWake(s.wake[s.current := e.until], s.sleeping, s.current, e.until))
      || (e.DoKill? && l == Without(s.sleeping, e.t))
  {
    match e
    case DoSleep(until, now) => SwitchSame(Asleep(s, until));
    case DoExit => SwitchSame(Buried(s, s.current));
    case DoReap => SwitchSame(Cleared(s));
    case DoKill(t) => if t == s.current { SwitchSame(Buried(s, t)); }
    case DoAcquire(q) => if q in s.sems { SwitchSame(Queued(s, q)); }
    case _ => SwitchSame(s);
  }

  /** A sleeper leaves the list only when its time has come or it is killed. */
  lemma NeverWokenEarly(s: State, e: Step, t: Task)
    requires Inv(s) && Enabled(s, e) && t in s.sleeping && t !in Apply(s, e).sleeping
    ensures (e.DoCheck? && WakeOf(s.wake, t) <= e.now) || e == DoKill(t)
  {
    if e.DoCheck? {
      CheckKeeps(s, e.now);
    } else {
      SleepersAfter(s, e);
      if e.DoSleep? { InsertMembers(s.wake[s.current := e.until], s.sleeping, s.current, e.until); }
      if e.DoKill? && e.t != t { WithoutKeeps(s.sleeping, e.t, t); }
    }
  }

  /** A new sleeper goes behind all that wake no later, so equal times keep their order of arrival. */
  lemma {:induction false} InsertPlace(wake: map<Task, nat>, l: seq<Task>, t: Task, w: nat) returns (k: nat)
    requires Sorted(wake, l)
    ensures k <= |l| && InsertByWake(wake, l, t, w) == l[..k] + [t] + l[k..]
    ensures (forall i | 0 <= i < k :: WakeOf(wake, l[i]) <= w) && forall i | k <= i < |l| :: WakeOf(wake, l[i]) > w
  {
    if l == [] || w < WakeOf(wake, l[0]) {
      k := 0;
      assert l[..0] + [t] + l[0..] == [t] + l;
    } else {
      var j := InsertPlace(wake, l[1..], t, w);
      k := j + 1;
      assert l[..k] == [l[0]] + l[1..][..j] && l[k..] == l[1..][j..];
    }
  }

  // ---------- Semaphores ----------

  /** The holders of a semaphore are never more than it admits; a mutex has at most one. */
  lemma HoldersBounded(states: seq<State>, steps: seq<Step>, i: nat, q: Sem)
    requires Run(states, steps) && Inv(states[0]) && i < |states| && q in states[i].sems
    ensures var m := states[i].sems[q];
      && m.count == |m.held| && (m.max >= 0 ==> m.count <= m.max) && (m.max == 1 ==> |m.held| <= 1)
      && (m.waiting != [] && m.max >= 0 ==> m.count == m.max)
  {
    RunKeeps(states, steps);
    assert SemaphoreOk(states[i], q);
  }

  ghost predicate Before(l: seq<Task>, a: Task, b: Task) {
    exists i, j :: 0 <= i < j < |l| && l[i] == a && l[j] == b
  }

  lemma {:induction false} BeforeWithout(l: seq<Task>, a: Task, b: Task, x: Task)
    requires Before(l, a, b) && x != a && x != b
    ensures Before(Without(l, x), a, b)
  {
    var i, j :| 0 <= i < j < |l| && l[i] == a && l[j] == b;
    if i > 0 {
      assert l[1..][i - 1] == a && l[1..][j - 1] == b;
      if l[0] != x {
        BeforeWithout(l[1..], a, b, x);
        var i', j' :| 0 <= i' < j' < |Without(l[1..], x)| && Without(l[1..], x)[i'] == a && Without(l[1..], x)[j'] == b;
        assert Without(l, x)[i' + 1] == a && Without(l, x)[j' + 1] == b;
      }
    } else {
      assert l[1..][j - 1] == b && b in l[1..];
      WithoutKeeps(l[1..], x, b);
      var j' :| 0 <= j' < |Without(l[1..], x)| && Without(l[1..], x)[j'] == b;
      assert Without(l, x)[0] == a && Without(l, x)[j' + 1] == b;
    }
  }

  lemma {:induction false} WithoutKeeps(l: seq<Task>, x: Task, t: Task)
    requires t in l && t != x
    ensures t in Without(l, x)
  {
    if l[0] != x && l[0] != t { WithoutKeeps(l[1..], x, t); }
  }

  function WaitersOf(s: State, q: Sem): seq<Task> {
    if q in s.sems then s.sems[q].waiting else []
  }

  lemma WaitersAfter(s: State, e: Step, q: Sem)
    requires Enabled(s, e) && q in s.sems
    ensures var l, l' := s.sems[q].waiting, WaitersOf(Apply(s, e), q);
      || l' == l
      || (e == DoAcquire(q) && l' == l + [s.current])
      || (e == DoRelease(q) && l != [] && l' == l[1..]
          && l[0] in Apply(s, e).sems[q].held && l[0] in Apply(s, e).ready)
      || (e.DoKill? && l' == Without(l, e.t))
  {
    match e
    case DoCheck(now) => CheckFixed(s, now);
    case DoSleep(until, now) => SwitchSame(Asleep(s, until));
    case DoExit => SwitchSame(Buried(s, s.current));
    case DoReap => SwitchSame(Cleared(s));
    case DoKill(t) => if t == s.current { SwitchSame(Buried(s, t)); }
    case DoAcquire(p) => SwitchSame(Queued(s, p));
    case _ => SwitchSame(s);
  }

  /** While the earlier of two waiters waits, the later one waits behind it, unless it is killed. */
  lemma FirstComeFirstServed(s: State, e: Step, q: Sem, a: Task, b: Task)
    requires Inv(s) && Enabled(s, e) && e != DoKill(b) && Before(WaitersOf(s, q), a, b)
    ensures a in WaitersOf(Apply(s, e), q) ==> Before(WaitersOf(Apply(s, e), q), a, b)
  {
    var l, l' := WaitersOf(s, q), WaitersOf(Apply(s, e), q);
    assert SemaphoreOk(s, q);
    assert Distinct(l);
    WaitersAfter(s, e, q);
    if a in l' { OrderKept(l, l', a, b, if e.DoKill? then e.t else NOBODY, s.current); }
  }

  lemma OrderKept(l: seq<Task>, l': seq<Task>, a: Task, b: Task, x: Task, c: Task)
    requires Before(l, a, b) && Distinct(l) && a in l'
    requires l' == l || l' == l + [c] || l' == l[1..] || (x != b && l' == Without(l, x))
    ensures Before(l', a, b)
  {
    var i, j :| 0 <= i < j < |l| && l[i] == a && l[j] == b;
    if l' == l[1..] {
      Dropped(l);
      assert l'[i - 1] == a && l'[j - 1] == b;
    } else if l' == l || l' == l + [c] {
      assert l'[i] == a && l'[j] == b;
    } else {
      WithoutMembers(l, x);
      BeforeWithout(l, a, b, x);
    }
  }

  /** The same over runs: as long as the earlier waiter waits, the later one is not served. */
  lemma {:induction false} ServedInOrder(states: seq<State>, steps: seq<Step>, q: Sem, a: Task, b: Task)
    requires Run(states, steps) && Inv(states[0]) && Before(WaitersOf(states[0], q), a, b)
    requires forall i | 0 <= i < |steps| :: steps[i] != DoKill(b)
    requires forall i | 0 <= i < |states| :: a in WaitersOf(states[i], q)
    ensures forall i | 0 <= i < |states| :: Before(WaitersOf(states[i], q), a, b)
  {
    if |steps| > 0 {
      StepKeeps(states[0], steps[0]);
      FirstComeFirstServed(states[0], steps[0], q, a, b);
      RunTail(states, steps);
      ServedInOrder(states[1..], steps[1..], q, a, b);
      forall i | 0 < i < |states|
        ensures Before(WaitersOf(states[i], q), a, b) { assert states[i] == states[1..][i - 1]; }
    }
  }

  /** A waiter leaves the queue only with the semaphore in hand, or killed. */
  lemma LeavesGranted(s: State, e: Step, q: Sem, t: Task)
    requires Enabled(s, e) && e != DoKill(t)
    requires t in WaitersOf(s, q) && t !in WaitersOf(Apply(s, e), q)
    ensures e == DoRelease(q) && q in Apply(s, e).sems && t in Apply(s, e).sems[q].held && t in Apply(s, e).ready
  {
    var l := WaitersOf(s, q);
    WaitersAfter(s, e, q);
    if e.DoKill? { WithoutKeeps(l, e.t, t); }
    assert l == [l[0]] + l[1..];
  }
}
