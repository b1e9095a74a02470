/**
  What every step of the scheduler does, said task by task and queue by queue. The steps are the only ones that do it,
  and over runs that settles when a task runs again.
 */
module Effects {
  import opened Lists
  import opened Scheduler

  // ---------- What can happen to a queue ----------

  ghost predicate LosesAt(l: seq<Task>, l': seq<Task>, k: nat) { k < |l| && l' == l[..k] + l[k + 1..] }

  /** The queue loses `t` and keeps its order. */
  ghost predicate Loses(l: seq<Task>, l': seq<Task>, t: Task) {
    exists k: nat {:trigger LosesAt(l, l', k)} :: LosesAt(l, l', k) && l[k] == t
  }

  ghost predicate GainsAt(wake: map<Task, nat>, l: seq<Task>, l': seq<Task>, t: Task, w: nat, k: nat) {
    && k <= |l| && l' == l[..k] + [t] + l[k..]
    && (forall i | 0 <= i < k :: WakeOf(wake, l[i]) <= w) && (forall i | k <= i < |l| :: WakeOf(wake, l[i]) > w)
  }

  /** The sleepers gain `t`, behind all that wake no later and before all that wake later. */
  ghost predicate Gains(wake: map<Task, nat>, l: seq<Task>, l': seq<Task>, t: Task, w: nat) {
    exists k: nat {:trigger GainsAt(wake, l, l', t, w, k)} :: GainsAt(wake, l, l', t, w, k)
  }

  /** The first `k` sleepers, and no others, are due. */
  ghost predicate Due(wake: map<Task, nat>, l: seq<Task>, now: nat, k: nat) {
    && k <= |l|
    && (forall i | 0 <= i < k :: WakeOf(wake, l[i]) <= now) && (forall i | k <= i < |l| :: WakeOf(wake, l[i]) > now)
  }

  // ---------- What can happen to the tasks ----------

  /** The tasks are the same, and those not in `who` have the status they had. */
  ghost predicate OthersKeep(s: State, s': State, who: set<Task>) {
    s'.status.Keys == s.status.Keys && forall t | t in s.status && t !in who :: s'.status[t] == s.status[t]
  }

  /** The first of `queue` runs, with a full slice, and the rest wait. */
  ghost predicate FirstRuns(queue: seq<Task>, s': State) {
    && queue != [] && s'.current == queue[0] && s'.ready == queue[1..] && s'.slice == TIME_SLICE
    && queue[0] in s'.status && s'.status[queue[0]] == Running
  }

  /** The current task goes to the end of the ready queue, and its first task runs. */
  ghost predicate TurnEnds(s: State, s': State) {
    && FirstRuns(s.ready + [s.current], s') && s.current in s'.status && s'.status[s.current] == Ready
    && OthersKeep(s, s', {s.current, s'.current})
    && s'.sleeping == s.sleeping && s'.wake == s.wake && s'.dead == s.dead && s'.sems == s.sems
  }

  /** The reaper, if it is parked and has to be told. */
  ghost function Parked(s: State): seq<Task> {
    if s.reaper in s.status && s.status[s.reaper] == Paused then [s.reaper] else []
  }

  /** The current task dies: it is the first of the dead, a parked reaper is made ready, and someone else runs. */
  ghost predicate Dies(s: State, s': State) {
    && s'.dead == [s.current] + s.dead && s.current in s'.status && s'.status[s.current] == Dead
    && FirstRuns(s.ready + Parked(s), s')
    && (Parked(s) != [] && s.reaper != s'.current ==> s.reaper in s'.status && s'.status[s.reaper] == Ready)
    && OthersKeep(s, s', {s.current, s'.current} + Elements(Parked(s)))
    && s'.sleeping == s.sleeping && s'.wake == s.wake && s'.sems == s.sems
  }

  /** Who cannot be killed. */
  ghost predicate Protected(s: State, t: Task) {
    t !in s.status || t == s.boot || t == s.shell || t == s.reaper || s.status[t] == Dead
  }

  /** A semaphore when `t`, which has status `st`, is taken off its queue. */
  ghost predicate SemLoses(m: Semaphore, m': Semaphore, q: Sem, st: Status, t: Task) {
    && m'.max == m.max && m'.count == m.count && m'.held == m.held
    && if st == Waiting(q) then Loses(m.waiting, m'.waiting, t) else m'.waiting == m.waiting
  }

  /** Another task dies: it leaves the one queue that it was on, and the current task runs on. */
  ghost predicate IsKilled(s: State, s': State, t: Task, ready: seq<Task>)
    requires t in s.status
  {
    && s'.dead == [t] + s.dead && t in s'.status && s'.status[t] == Dead
    && (if s.status[t] == Ready then Loses(s.ready, ready, t) else ready == s.ready) && s'.ready == ready + Parked(s)
    && (Parked(s) != [] ==> s.reaper in s'.status && s'.status[s.reaper] == Ready)
    && (if s.status[t] == Sleeping then Loses(s.sleeping, s'.sleeping, t) else s'.sleeping == s.sleeping)
    && s'.sems.Keys == s.sems.Keys
    && (forall q {:trigger s'.sems[q]} | q in s.sems :: SemLoses(s.sems[q], s'.sems[q], q, s.status[t], t))
    && OthersKeep(s, s', {t} + Elements(Parked(s)))
    && s'.current == s.current && s'.slice == s.slice && s'.wake == s.wake
  }

  /** The due sleepers become ready in their order, and nothing else happens. */
  ghost predicate Wakes(s: State, s': State, now: nat, k: nat) {
    && Due(s.wake, s.sleeping, now, k)
    && s'.sleeping == s.sleeping[k..] && s'.ready == s.ready + s.sleeping[..k]
    && (forall t | t in s.sleeping[..k] :: t in s'.status && s'.status[t] == Ready)
    && OthersKeep(s, s', Elements(s.sleeping[..k]))
    && s'.current == s.current && s'.slice == s.slice && s'.wake == s.wake && s'.dead == s.dead && s'.sems == s.sems
  }

  /** The dead are gone without a trace, the reaper is parked, and someone else runs. */
  ghost predicate Buries(s: State, s': State) {
    && s'.dead == [] && s'.status.Keys == s.status.Keys - Elements(s.dead)
    && FirstRuns(s.ready, s') && s.current in s'.status && s'.status[s.current] == Paused
    && (forall t | t in s'.status && t != s.current && t != s'.current :: s'.status[t] == s.status[t])
    && s'.wake.Keys == s.wake.Keys - Elements(s.dead) && (forall t | t in s'.wake :: s'.wake[t] == s.wake[t])
    && s'.sleeping == s.sleeping && s'.sems == s.sems
  }

  /** Only semaphore `q` changed, and it is `m` now. */
  ghost predicate OnlySem(s: State, s': State, q: Sem, m: Semaphore) {
    && s'.sems.Keys == s.sems.Keys && q in s.sems && s'.sems[q] == m
    && forall p | p in s.sems && p != q :: s'.sems[p] == s.sems[p]
  }

  /** Everything is as it was, except for the semaphores. */
  ghost predicate SameButSems(s: State, s': State) { s' == s.(sems := s'.sems) }

  /** The current task has the semaphore now, or is the last of its waiters. */
  ghost predicate Acquires(s: State, s': State, q: Sem)
    requires q in s.sems
  {
    var m, c := s.sems[q], s.current;
    if m.count < m.max then
      SameButSems(s, s') && OnlySem(s, s', q, Semaphore(m.max, m.count + 1, m.waiting, m.held + multiset{c}))
    else
      && OnlySem(s, s', q, Semaphore(m.max, m.count, m.waiting + [c], m.held))
      && FirstRuns(s.ready, s') && c in s'.status && s'.status[c] == Waiting(q)
      && OthersKeep(s, s', {c, s'.current})
      && s'.sleeping == s.sleeping && s'.wake == s.wake && s'.dead == s.dead
  }

  /** The current task has one hold less; the first waiter has it instead, and is ready. */
  ghost predicate Releases(s: State, s': State, q: Sem)
    requires q in s.sems
  {
    var m, held := s.sems[q], s.sems[q].held - multiset{s.current};
    if m.waiting == [] then
      SameButSems(s, s') && OnlySem(s, s', q, Semaphore(m.max, m.count - 1, [], held))
    else
      var w := m.waiting[0];
      && OnlySem(s, s', q, Semaphore(m.max, m.count, m.waiting[1..], held + multiset{w}))
      && s'.ready == s.ready + [w] && w in s'.status && s'.status[w] == Ready && OthersKeep(s, s', {w})
      && s'.current == s.current && s'.slice == s.slice && s'.sleeping == s.sleeping && s'.wake == s.wake
      && s'.dead == s.dead
  }

  /** The current task sleeps until `until`. */
  ghost predicate FallsAsleep(s: State, s': State, until: nat) {
    && s.current in s'.status && s'.status[s.current] == Sleeping && s'.wake == s.wake[s.current := until]
    && Gains(s.wake, s.sleeping, s'.sleeping, s.current, until)
    && FirstRuns(s.ready, s') && OthersKeep(s, s', {s.current, s'.current})
    && s'.dead == s.dead && s'.sems == s.sems
  }

  ghost predicate SameElders(s: State, s': State) {
    s'.boot == s.boot && s'.shell == s.shell && s'.reaper == s.reaper
  }

  /** What a step has to do. */
  ghost predicate Effect(s: State, e: Step, s': State) {
    && SameElders(s, s')
    && match e
       case DoYield => if s.ready == [] then s' == s else TurnEnds(s, s')
       case DoSleep(until, now) => if until <= now then s' == s else FallsAsleep(s, s', until)
       case DoCheck(now) => exists k: nat {:trigger Wakes(s, s', now, k)} :: Wakes(s, s', now, k)
       case DoTick(ns) =>
         if ns < s.slice then s' == s.(slice := s.slice - ns)
         else if s.ready == [] then s' == s.(slice := TIME_SLICE)
         else TurnEnds(s, s')
       case DoExit => Dies(s, s')
       case DoKill(t) =>
         if Protected(s, t) then s' == s
         else if t == s.current then Dies(s, s')
         else exists ready {:trigger IsKilled(s, s', t, ready)} :: IsKilled(s, s', t, ready)
       case DoReap => Buries(s, s')
       case DoCreate(t) => s' == s.(status := s'.status, ready := s.ready + [t]) && s'.status == s.status[t := Ready]
       case DoCreateSemaphore(q, max) => s' == s.(sems := s.sems[q := Semaphore(max, 0, [], multiset{})])
       case DoAcquire(q) => q in s.sems && Acquires(s, s', q)
       case DoRelease(q) => q in s.sems && Releases(s, s', q)
  }

  // ---------- The steps do it ----------

  lemma {:induction false} WithoutAt(l: seq<Task>, t: Task) returns (k: nat)
    requires t in l
    ensures LosesAt(l, Without(l, t), k) && l[k] == t
  {
    if l[0] == t {
      k := 0;
      assert l[..0] + l[1..] == l[1..];
    } else {
      var j := WithoutAt(l[1..], t);
      k := j + 1;
      assert l[..k] == [l[0]] + l[1..][..j] && l[k + 1..] == l[1..][j + 1..];
    }
  }

  lemma YieldEffect(s: State)
    requires Inv(s) && s.ready != []
    ensures TurnEnds(s, Reschedule(s))
  {
    HeadIsReady(s);
    assert (s.ready + [s.current])[1..] == s.ready[1..] + [s.current];
  }

  /** A switch away from a task that has left already. */
  lemma SwitchEffect(s: State)
    requires Switchable(s) && s.status[s.current] != Running
    ensures FirstRuns(s.ready, Reschedule(s)) && OthersKeep(s, Reschedule(s), {s.ready[0]})
    ensures s.ready[0] != s.current
  {
    SwitchKeeps(s);
    HeadIsReady(s);
  }

  /** The place among the sleepers does not depend on what was recorded for the new one before. */
  lemma AsleepGains(wake: map<Task, nat>, l: seq<Task>, t: Task, until: nat)
    requires Sorted(wake, l) && t !in l
    ensures Gains(wake, l, InsertByWake(wake[t := until], l, t, until), t, until)
  {
    var wake' := wake[t := until];
    forall i | 0 <= i < |l| ensures WakeOf(wake', l[i]) == WakeOf(wake, l[i]) { assert l[i] in l; }
    var k := InsertPlace(wake', l, t, until);
    assert GainsAt(wake, l, InsertByWake(wake', l, t, until), t, until, k);
  }

  lemma SleepEffect(s: State, until: nat)
    requires Inv(s) && s.current != s.boot && s.current != s.reaper
    ensures FallsAsleep(s, Reschedule(Asleep(s, until)), until)
  {
    AsleepIsPlaced(s, until);
    SwitchEffect(Asleep(s, until));
    AsleepGains(s.wake, s.sleeping, s.current, until);
  }

  lemma DieEffect(s: State)
    requires Inv(s) && s.current != s.boot && s.current != s.reaper
    ensures Dies(s, Reschedule(Buried(s, s.current))) && SameElders(s, Reschedule(Buried(s, s.current)))
  {
    BuriedIsPlaced(s);
    SwitchEffect(Buried(s, s.current));
  }

  lemma {:induction false} CheckEffect(s: State, now: nat) returns (k: nat)
    requires Inv(s)
    ensures Wakes(s, CheckSleepers(s, now), now, k)
    ensures SameElders(s, CheckSleepers(s, now))
    decreases |s.sleeping|
  {
    if s.sleeping == [] || WakeOf(s.wake, s.sleeping[0]) > now {
      k := 0;
      assert s.ready + s.sleeping[..0] == s.ready && s.sleeping[0..] == s.sleeping;
    } else {
      WakeFirstKeeps(s);
      var j := CheckEffect(WokenFirst(s), now);
      k := j + 1;
      OneMoreWakes(s, CheckSleepers(s, now), now, j);
    }
  }

  lemma OneMoreDue(wake: map<Task, nat>, l: seq<Task>, now: nat, j: nat)
    requires l != [] && WakeOf(wake, l[0]) <= now && Due(wake, l[1..], now, j)
    ensures Due(wake, l, now, j + 1) && l[..j + 1] == [l[0]] + l[1..][..j] && l[j + 1..] == l[1..][j..]
  {
    forall i | j + 1 <= i < |l| ensures WakeOf(wake, l[i]) > now { assert l[i] == l[1..][i - 1]; }
    forall i | 0 < i <= j ensures WakeOf(wake, l[i]) <= now { assert l[i] == l[1..][i - 1]; }
  }

  lemma OneMoreWakes(s: State, s': State, now: nat, j: nat)
    requires Inv(s) && s.sleeping != [] && WakeOf(s.wake, s.sleeping[0]) <= now && Wakes(WokenFirst(s), s', now, j)
    ensures Wakes(s, s', now, j + 1)
  {
    var t, l := s.sleeping[0], s.sleeping[1..];
    assert t in s.sleeping;
    OneMoreDue(s.wake, s.sleeping, now, j);
    assert s.ready + [t] + l[..j] == s.ready + ([t] + l[..j]);
    Dropped(s.sleeping);
    WokenStatuses(s, s', t, l[..j]);
  }

  lemma WokenStatuses(s: State, s': State, t: Task, l: seq<Task>)
    requires t in s.status && t !in l && OthersKeep(s.(status := s.status[t := Ready]), s', Elements(l))
    requires forall x | x in l :: x in s'.status && s'.status[x] == Ready
    ensures OthersKeep(s, s', Elements([t] + l)) && forall x | x in [t] + l :: x in s'.status && s'.status[x] == Ready
  {
    forall x | x in s.status && x !in Elements([t] + l) ensures s'.status[x] == s.status[x] { assert x !in l; }
  }

  /** Taking a task off its queue, with nothing else changed. */
  lemma DequeueEffect(s: State, t: Task)
    requires Queues(s) && t in s.status
    ensures var d := Dequeue(s, t);
      && (if s.status[t] == Ready then Loses(s.ready, d.ready, t) else d.ready == s.ready)
      && (if s.status[t] == Sleeping then Loses(s.sleeping, d.sleeping, t) else d.sleeping == s.sleeping)
      && d.sems.Keys == s.sems.Keys
      && (forall q {:trigger d.sems[q]} | q in s.sems :: SemLoses(s.sems[q], d.sems[q], q, s.status[t], t))
      && d == s.(ready := d.ready, sleeping := d.sleeping, sems := d.sems)
  {
    match s.status[t]
    case Ready => var k := WithoutAt(s.ready, t);
    case Sleeping => var k := WithoutAt(s.sleeping, t);
    case Waiting(q) =>
      assert SemaphoreOk(s, q);
      var k := WithoutAt(s.sems[q].waiting, t);
    case _ =>
  }

  lemma BuryEffect(d: State, t: Task)
    requires t in d.status && d.reaper in d.status && t != d.reaper
    ensures var s' := Buried(d, t);
      && s'.dead == [t] + d.dead && t in s'.status && s'.status[t] == Dead && s'.ready == d.ready + Parked(d)
      && (Parked(d) != [] ==> s'.status[d.reaper] == Ready)
      && OthersKeep(d, s', {t} + Elements(Parked(d)))
      && s' == d.(status := s'.status, dead := s'.dead, ready := s'.ready)
  {}

  lemma KillEffect(s: State, t: Task)
    requires Inv(s) && !Protected(s, t) && t != s.current
    ensures IsKilled(s, Kill(s, t), t, Dequeue(s, t).ready) && SameElders(s, Kill(s, t))
  {
    DequeueEffect(s, t);
    BuryEffect(Dequeue(s, t), t);
  }

  lemma ReapEffect(s: State)
    requires Inv(s) && s.current == s.reaper
    ensures Buries(s, Reap(s)) && SameElders(s, Reap(s))
  {
    ClearedIsPlaced(s);
    SwitchEffect(Cleared(s));
  }

  lemma AcquireEffect(s: State, q: Sem)
    requires Inv(s) && q in s.sems && s.current != s.boot && s.current != s.reaper
    ensures Acquires(s, Acquire(s, q), q)
  {
    if s.sems[q].count >= s.sems[q].max {
      QueuedIsPlaced(s, q);
      SwitchEffect(Queued(s, q));
    }
  }

  lemma ReleaseEffect(s: State, q: Sem)
    requires Inv(s) && q in s.sems && s.current in s.sems[q].held
    ensures Releases(s, Release(s, q), q)
  {
    assert SemaphoreOk(s, q);
    if s.sems[q].waiting != [] { assert s.sems[q].waiting[0] in s.sems[q].waiting; }
  }

  /** Every step does what it has to do. */
  lemma StepEffect(s: State, e: Step)
    requires Inv(s) && Enabled(s, e)
    ensures Effect(s, e, Apply(s, e))
  {
    if e.DoKill? || e.DoExit? || e.DoReap? { EndEffect(s, e); } else { OtherEffect(s, e); }
  }

  lemma EndEffect(s: State, e: Step)
    requires Inv(s) && Enabled(s, e) && (e.DoKill? || e.DoExit? || e.DoReap?)
    ensures Effect(s, e, Apply(s, e))
  {
    match e
    case DoExit => DieEffect(s);
    case DoReap => ReapEffect(s);
    case DoKill(t) => KillsEffect(s, t);
  }

  lemma KillsEffect(s: State, t: Task)
    requires Inv(s)
    ensures Effect(s, DoKill(t), Kill(s, t))
  {
    if !Protected(s, t) {
      if t == s.current { DieEffect(s); } else { KillEffect(s, t); }
    }
  }

  lemma OtherEffect(s: State, e: Step)
    requires Inv(s) && Enabled(s, e) && !e.DoKill? && !e.DoExit? && !e.DoReap?
    ensures Effect(s, e, Apply(s, e))
  {
    match e
    case DoYield => if s.ready != [] { YieldEffect(s); }
    case DoSleep(until, now) => if until > now { SleepEffect(s, until); }
    case DoCheck(now) => var k := CheckEffect(s, now);
    case DoTick(ns) => if s.slice <= ns && s.ready != [] { YieldEffect(s); }
    case DoCreate(_) =>
    case DoCreateSemaphore(_, _) =>
    case DoAcquire(q) => AcquireEffect(s, q);
    case DoRelease(q) => ReleaseEffect(s, q);
  }

  // ---------- Nothing else does it ----------

  lemma SameLoss(l: seq<Task>, a: seq<Task>, b: seq<Task>, t: Task)
    requires Distinct(l) && Loses(l, a, t) && Loses(l, b, t)
    ensures a == b
  {
    var i: nat :| LosesAt(l, a, i) && l[i] == t;
    var j: nat :| LosesAt(l, b, j) && l[j] == t;
    assert i == j;
  }

  lemma SameDue(wake: map<Task, nat>, l: seq<Task>, now: nat, i: nat, j: nat)
    requires Due(wake, l, now, i) && Due(wake, l, now, j)
    ensures i == j
  {
    var atI, atJ := if i < |l| then WakeOf(wake, l[i]) else 0, if j < |l| then WakeOf(wake, l[j]) else 0;
  }

  lemma SameGain(wake: map<Task, nat>, l: seq<Task>, a: seq<Task>, b: seq<Task>, t: Task, w: nat)
    requires Gains(wake, l, a, t, w) && Gains(wake, l, b, t, w)
    ensures a == b
  {
    var i: nat :| GainsAt(wake, l, a, t, w, i);
    var j: nat :| GainsAt(wake, l, b, t, w, j);
    SameDue(wake, l, w, i, j);
  }

  lemma SameStatus(s: State, a: State, b: State, who: set<Task>)
    requires OthersKeep(s, a, who) && OthersKeep(s, b, who)
    requires forall t | t in who && t in s.status :: a.status[t] == b.status[t]
    ensures a.status == b.status
  {
    forall t | t in a.status ensures a.status[t] == b.status[t] {}
  }

  lemma SameTurn(s: State, a: State, b: State)
    requires TurnEnds(s, a) && TurnEnds(s, b) && SameElders(s, a) && SameElders(s, b)
    ensures a == b
  {
    SameStatus(s, a, b, {s.current, a.current});
  }

  lemma SameDeath(s: State, a: State, b: State)
    requires Dies(s, a) && Dies(s, b) && SameElders(s, a) && SameElders(s, b)
    ensures a == b
  {
    SameStatus(s, a, b, {s.current, a.current} + Elements(Parked(s)));
  }

  lemma SameSleep(s: State, a: State, b: State, until: nat)
    requires FallsAsleep(s, a, until) && FallsAsleep(s, b, until) && SameElders(s, a) && SameElders(s, b)
    ensures a == b
  {
    SameGain(s.wake, s.sleeping, a.sleeping, b.sleeping, s.current, until);
    SameStatus(s, a, b, {s.current, a.current});
  }

  lemma SameWaking(s: State, a: State, b: State, now: nat, i: nat, j: nat)
    requires Wakes(s, a, now, i) && Wakes(s, b, now, j) && SameElders(s, a) && SameElders(s, b)
    ensures a == b
  {
    SameDue(s.wake, s.sleeping, now, i, j);
    SameStatus(s, a, b, Elements(s.sleeping[..i]));
  }

  lemma SameKillSems(s: State, a: State, b: State, t: Task, l: seq<Task>, l': seq<Task>)
    requires Queues(s) && t in s.status && IsKilled(s, a, t, l) && IsKilled(s, b, t, l')
    ensures a.sems == b.sems
  {
    forall q | q in s.sems ensures a.sems[q] == b.sems[q] {
      assert SemaphoreOk(s, q);
      assert SemLoses(s.sems[q], a.sems[q], q, s.status[t], t) && SemLoses(s.sems[q], b.sems[q], q, s.status[t], t);
      if s.status[t] == Waiting(q) { SameLoss(s.sems[q].waiting, a.sems[q].waiting, b.sems[q].waiting, t); }
    }
  }

  lemma SameKill(s: State, a: State, b: State, t: Task, l: seq<Task>, l': seq<Task>)
    requires Queues(s) && t in s.status && IsKilled(s, a, t, l) && IsKilled(s, b, t, l')
    requires SameElders(s, a) && SameElders(s, b)
    ensures a == b
  {
    SameKillSems(s, a, b, t, l, l');
    if s.status[t] == Ready { SameLoss(s.ready, l, l', t); }
    if s.status[t] == Sleeping { SameLoss(s.sleeping, a.sleeping, b.sleeping, t); }
    SameStatus(s, a, b, {t} + Elements(Parked(s)));
  }

  lemma SameBurial(s: State, a: State, b: State)
    requires Buries(s, a) && Buries(s, b) && SameElders(s, a) && SameElders(s, b)
    ensures a == b
  {
    forall t | t in a.status ensures a.status[t] == b.status[t] {}
    assert a.status == b.status;
    forall t | t in a.wake ensures a.wake[t] == b.wake[t] {}
    assert a.wake == b.wake;
  }

  lemma SameSems(s: State, a: State, b: State, q: Sem, m: Semaphore)
    requires OnlySem(s, a, q, m) && OnlySem(s, b, q, m)
    ensures a.sems == b.sems
  {
    forall p | p in s.sems ensures a.sems[p] == b.sems[p] {}
  }

  lemma SameAcquire(s: State, a: State, b: State, q: Sem)
    requires q in s.sems && Acquires(s, a, q) && Acquires(s, b, q) && SameElders(s, a) && SameElders(s, b)
    ensures a == b
  {
    SameSems(s, a, b, q, a.sems[q]);
    if s.sems[q].count >= s.sems[q].max { SameStatus(s, a, b, {s.current, a.current}); }
  }

  lemma SameRelease(s: State, a: State, b: State, q: Sem)
    requires q in s.sems && Releases(s, a, q) && Releases(s, b, q) && SameElders(s, a) && SameElders(s, b)
    ensures a == b
  {
    SameSems(s, a, b, q, a.sems[q]);
    if s.sems[q].waiting != [] { SameStatus(s, a, b, {s.sems[q].waiting[0]}); }
  }

  /** What a step has to do leaves no choice. */
  lemma OneOutcome(s: State, e: Step, a: State, b: State)
    requires Queues(s) && Effect(s, e, a) && Effect(s, e, b)
    ensures a == b
  {
    match e
    case DoYield => if s.ready != [] { SameTurn(s, a, b); }
    case DoSleep(until, now) => if until > now { SameSleep(s, a, b, until); }
    case DoCheck(now) =>
      var i: nat :| Wakes(s, a, now, i);
      var j: nat :| Wakes(s, b, now, j);
      SameWaking(s, a, b, now, i, j);
    case DoTick(ns) => if s.slice <= ns && s.ready != [] { SameTurn(s, a, b); }
    case DoExit => SameDeath(s, a, b);
    case DoKill(t) =>
      if !Protected(s, t) {
        if t == s.current {
          SameDeath(s, a, b);
        } else {
          var l :| IsKilled(s, a, t, l);
          var l' :| IsKilled(s, b, t, l');
          SameKill(s, a, b, t, l, l');
        }
      }
    case DoReap => SameBurial(s, a, b);
    case DoCreate(_) =>
    case DoCreateSemaphore(_, _) =>
    case DoAcquire(q) => SameAcquire(s, a, b, q);
    case DoRelease(q) => SameRelease(s, a, b, q);
  }

  /** The steps are exactly those that have the effects described here. */
  lemma StepIsEffect(s: State, e: Step, s': State)
    requires Inv(s) && Enabled(s, e)
    ensures Effect(s, e, s') <==> s' == Apply(s, e)
  {
    StepEffect(s, e);
    if Effect(s, e, s') { OneOutcome(s, e, s', Apply(s, e)); }
  }

  // ---------- Exit and kill ----------

  /** A task that exits is dead and the first of the dead, does not run on, and the reaper knows. */
  lemma ExitDies(s: State)
    requires Inv(s) && Enabled(s, DoExit)
    ensures var s', c := Apply(s, DoExit), s.current;
      && s'.dead == [c] + s.dead && s'.status[c] == Dead && s'.current != c && c !in s'.ready
      && (s.status[s.reaper] == Paused ==> s.reaper in s'.ready || s'.current == s.reaper)
      && (forall t | t in s.status && t != c && t != s.reaper && t != s'.current :: s'.status[t] == s.status[t])
  {
    DieEffect(s);
    BuriedIsPlaced(s);
    SwitchKeeps(Buried(s, s.current));
    DeadIsOut(s, Terminate(s));
  }

  lemma DeadIsOut(s: State, s': State)
    requires Dies(s, s') && Inv(s') && s.reaper in s.status
    ensures s'.current != s.current && s.current !in s'.ready
    ensures s.status[s.reaper] == Paused ==> s.reaper in s'.ready || s'.current == s.reaper
    ensures forall t | t in s.status && t != s.current && t != s.reaper && t != s'.current ::
      t in s'.status && s'.status[t] == s.status[t]
  {
    if s.status[s.reaper] == Paused { ReaperTold(s, s'); }
  }

  lemma ReaperTold(s: State, s': State)
    requires Dies(s, s') && s.reaper in s.status && s.status[s.reaper] == Paused
    ensures s.reaper in s'.ready || s'.current == s.reaper
  {
    var queue := s.ready + Parked(s);
    assert queue[|s.ready|] == s.reaper;
    if |s.ready| > 0 { assert queue[1..][|s.ready| - 1] == s.reaper; }
  }

  /** A task that kills itself has exited; the protected, the dead and the unknown are spared. */
  lemma KillSelf(s: State, t: Task)
    requires Inv(s)
    ensures Protected(s, t) ==> Apply(s, DoKill(t)) == s
    ensures t == s.current && !Protected(s, t) ==> Apply(s, DoKill(t)) == Apply(s, DoExit)
  {
    StepEffect(s, DoKill(t));
    if t == s.current && !Protected(s, t) {
      StepEffect(s, DoExit);
      OneOutcome(s, DoExit, Apply(s, DoKill(t)), Apply(s, DoExit));
    }
  }

  /** Dead, on no queue but that of the dead, with everyone else where they were and every hold as it was. */
  ghost predicate IsOut(s: State, s': State, t: Task)
    requires s.reaper in s.status
  {
    && s'.dead == [t] + s.dead && t in s'.status && s'.status[t] == Dead && s'.current == s.current
    && t !in s'.ready && t !in s'.sleeping && (forall q | q in s'.sems :: t !in s'.sems[q].waiting)
    && (s.status[s.reaper] == Paused ==> s.reaper in s'.ready)
    && (forall x | x in s.status && x != t && x != s.reaper :: x in s'.status && s'.status[x] == s.status[x])
    && (forall q | q in s.sems :: q in s'.sems && s'.sems[q].held == s.sems[q].held)
  }

  /** A task that is killed is out, whatever it was doing. */
  lemma KilledIsDead(s: State, t: Task)
    requires Inv(s) && !Protected(s, t) && t != s.current
    ensures IsOut(s, Apply(s, DoKill(t)), t)
  {
    KillEffect(s, t);
    KillKeeps(s, t);
    KilledIsOut(s, Kill(s, t), t, Dequeue(s, t).ready);
  }

  lemma KilledIsOut(s: State, s': State, t: Task, ready: seq<Task>)
    requires t in s.status && s.reaper in s.status && IsKilled(s, s', t, ready) && Queues(s')
    ensures IsOut(s, s', t)
  {
    forall q | q in s'.sems ensures t !in s'.sems[q].waiting { assert SemaphoreOk(s', q); }
    forall q | q in s.sems ensures q in s'.sems && s'.sems[q].held == s.sems[q].held {
      assert SemLoses(s.sems[q], s'.sems[q], q, s.status[t], t);
    }
    if s.status[s.reaper] == Paused { assert s'.ready[|ready|] == s.reaper; }
  }

  /** A task that is dead, or gone, never runs again, unless a new task is made in its place. */
  lemma {:induction false} NeverRunsAgain(states: seq<State>, steps: seq<Step>, t: Task)
    requires Run(states, steps) && Inv(states[0]) && (t in states[0].status ==> states[0].status[t] == Dead)
    requires forall i | 0 <= i < |steps| :: steps[i] != DoCreate(t)
    ensures forall i | 0 <= i < |states| :: states[i].current != t && t !in states[i].ready
  {
    if |steps| > 0 {
      StepKeeps(states[0], steps[0]);
      StaysGone(states[0], steps[0], t);
      RunTail(states, steps);
      NeverRunsAgain(states[1..], steps[1..], t);
      forall i | 0 < i < |states| ensures states[i].current != t && t !in states[i].ready {
        assert states[i] == states[1..][i - 1];
      }
    }
  }

  lemma StaysGone(s: State, e: Step, t: Task)
    requires Inv(s) && Enabled(s, e) && e != DoCreate(t) && (t in s.status ==> s.status[t] == Dead)
    ensures t in Apply(s, e).status ==> Apply(s, e).status[t] == Dead
  {
    if t in s.dead { DeadUntilReaped(s, e, t); } else { StepEffect(s, e); }
  }

  /** A task that exits never runs again. */
  lemma ExitIsFinal(states: seq<State>, steps: seq<Step>, i: nat)
    requires Run(states, steps) && Inv(states[0]) && |steps| > 0 && 0 < i < |states|
    requires steps[0] == DoExit || (steps[0] == DoKill(states[0].current) && !Protected(states[0], states[0].current))
    requires forall j | 0 <= j < |steps| :: steps[j] != DoCreate(states[0].current)
    ensures states[i].current != states[0].current && states[0].current !in states[i].ready
  {
    var s := states[0];
    StepKeeps(s, steps[0]);
    KillSelf(s, s.current);
    ExitDies(s);
    RunTail(states, steps);
    NeverRunsAgain(states[1..], steps[1..], s.current);
    assert states[i] == states[1..][i - 1];
  }

  // ---------- Sleep ----------

  /** A task that sleeps is on the list with its time, in front of all that wake later, and does not run on. */
  lemma SleepSleeps(s: State, until: nat, now: nat)
    requires Inv(s) && Enabled(s, DoSleep(until, now))
    ensures var s', c := Apply(s, DoSleep(until, now)), s.current;
      if until <= now then s' == s
      else
        && s'.status[c] == Sleeping && c in s'.sleeping && WakeOf(s'.wake, c) == until && s'.current != c
        && Loses(s'.sleeping, s.sleeping, c)
        && (forall t | t in s.sleeping :: WakeOf(s'.wake, t) == WakeOf(s.wake, t))
  {
    StepEffect(s, DoSleep(until, now));
    StepKeeps(s, DoSleep(until, now));
    if until > now { GainThenLoss(s.wake, s.sleeping, Apply(s, DoSleep(until, now)).sleeping, s.current, until); }
  }

  lemma GainThenLoss(wake: map<Task, nat>, l: seq<Task>, l': seq<Task>, t: Task, w: nat)
    requires Gains(wake, l, l', t, w)
    ensures t in l' && Loses(l', l, t)
  {
    var k: nat :| GainsAt(wake, l, l', t, w, k);
    assert l'[k] == t && l == l'[..k] + l'[k + 1..];
    assert LosesAt(l', l, k);
  }

  /** Nothing but the task itself changes the time at which it wakes. */
  lemma WakeTimeKept(s: State, e: Step, t: Task)
    requires Inv(s) && Enabled(s, e) && t in s.sleeping
    ensures WakeOf(Apply(s, e).wake, t) == WakeOf(s.wake, t)
  {
    StepEffect(s, e);
  }

  /** A sleeper does not run, and keeps its time, as long as no check comes at or after that time. */
  lemma {:induction false} AsleepUntil(states: seq<State>, steps: seq<Step>, t: Task)
    requires Run(states, steps) && Inv(states[0]) && t in states[0].sleeping
    requires forall i | 0 <= i < |steps| :: steps[i] != DoKill(t)
    requires forall i | 0 <= i < |steps| && steps[i].DoCheck? :: steps[i].now < WakeOf(states[0].wake, t)
    ensures forall i | 0 <= i < |states| :: t in states[i].sleeping && states[i].current != t
  {
    if |steps| > 0 {
      StepKeeps(states[0], steps[0]);
      WakeTimeKept(states[0], steps[0], t);
      if t !in states[1].sleeping { NeverWokenEarly(states[0], steps[0], t); }
      RunTail(states, steps);
      AsleepUntil(states[1..], steps[1..], t);
      forall i | 0 < i < |states| ensures t in states[i].sleeping && states[i].current != t {
        assert states[i] == states[1..][i - 1];
      }
    }
  }

  /** A task that goes to sleep does not run before the timer checks at or after its time. */
  lemma SleepsLongEnough(states: seq<State>, steps: seq<Step>, i: nat)
    requires Run(states, steps) && Inv(states[0]) && |steps| > 0 && 0 < i < |states|
    requires steps[0].DoSleep? && steps[0].until > steps[0].now
    requires forall j | 0 < j < |steps| :: steps[j] != DoKill(states[0].current)
    requires forall j | 0 < j < |steps| && steps[j].DoCheck? :: steps[j].now < steps[0].until
    ensures states[i].current != states[0].current
  {
    var s := states[0];
    StepKeeps(s, steps[0]);
    SleepSleeps(s, steps[0].until, steps[0].now);
    RunTail(states, steps);
    AsleepUntil(states[1..], steps[1..], s.current);
    assert states[i] == states[1..][i - 1];
  }

  /** The first check at or after its time makes a sleeper ready, and it runs in its turn. */
  lemma WakesInTime(states: seq<State>, steps: seq<Step>, t: Task)
    requires Run(states, steps) && Inv(states[0]) && Spared(states, steps, t) && t in states[0].sleeping
    requires |steps| > 0 && steps[0].DoCheck? && WakeOf(states[0].wake, t) <= steps[0].now
    ensures t in states[1].ready
    ensures Switches(states[1..]) > IndexOf(states[1].ready, t) ==> Runs(states, t)
  {
    StepKeeps(states[0], steps[0]);
    CheckKeeps(states[0], steps[0].now);
    SparedTail(states, steps, t);
    if Switches(states[1..]) > IndexOf(states[1].ready, t) {
      RoundRobin(states[1..], steps[1..], t);
      RunsLater(states, t);
    }
  }

  // ---------- Semaphores ----------

  /** A free semaphore goes to the current task, which runs on; otherwise it waits, behind all that wait already. */
  lemma AcquireHolds(s: State, q: Sem)
    requires Inv(s) && Enabled(s, DoAcquire(q))
    ensures var s', c, m := Apply(s, DoAcquire(q)), s.current, s.sems[q];
      && q in s'.sems && s'.sems[q].max == m.max
      && if m.count < m.max then
           && s'.sems[q].held == m.held + multiset{c} && s'.sems[q].count == m.count + 1
           && s'.sems[q].waiting == m.waiting
           && s'.current == c && s'.status == s.status && s'.ready == s.ready
         else
           && s'.sems[q].held == m.held && s'.sems[q].count == m.count && s'.sems[q].waiting == m.waiting + [c]
           && s'.status[c] == Waiting(q) && s'.current != c && c !in s'.ready
  {
    StepEffect(s, DoAcquire(q));
    StepKeeps(s, DoAcquire(q));
  }

  /** A release ends one hold; the first waiter holds the semaphore then and is ready, or a place is free. */
  lemma ReleaseEnds(s: State, q: Sem)
    requires Inv(s) && Enabled(s, DoRelease(q))
    ensures var s', c, m := Apply(s, DoRelease(q)), s.current, s.sems[q];
      && q in s'.sems && s'.sems[q].max == m.max && s'.current == c && s'.status[c] == s.status[c]
      && if m.waiting == [] then
           && s'.sems[q].held == m.held - multiset{c} && s'.sems[q].count == m.count - 1 && s'.sems[q].waiting == []
           && s'.status == s.status && s'.ready == s.ready
         else
           var w := m.waiting[0];
           && s'.sems[q].held == m.held - multiset{c} + multiset{w} && s'.sems[q].count == m.count
           && s'.sems[q].waiting == m.waiting[1..] && s'.status[w] == Ready && s'.ready == s.ready + [w]
  {
    StepEffect(s, DoRelease(q));
    assert SemaphoreOk(s, q);
    if s.sems[q].waiting != [] { assert s.sems[q].waiting[0] in s.sems[q].waiting; }
  }
}
