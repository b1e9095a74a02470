/**
  The kernel's scheduler as it runs: five kinds of intrusive lists over one `next` field,
  head and tail pointers, nested locks and postponed switches, updated in place.
 */
module Kernel {
  import opened Scheduler
  import opened Lists

  /** The lists a task control block can be linked into. */
  datatype List = ReadyList | SleepList | DeadList | WaitList(q: Sem)

  /** `l` is the list that starts at `first` and follows `next` to the null pointer. */
  ghost predicate Chain(next: map<Task, Task>, first: Task, l: seq<Task>) {
    && first == (if l == [] then NOBODY else l[0])
    && (l != [] ==> LinkAt(next, l, 0) && LinkAt(next, l, |l| - 1))
    && (forall t | t in l :: t in next)
    && forall i {:trigger LinkAt(next, l, i)} | 0 <= i < |l| :: LinkAt(next, l, i)
  }

  ghost predicate LinkAt(next: map<Task, Task>, l: seq<Task>, i: nat)
    requires i < |l|
  {
    l[i] != NOBODY && l[i] in next && next[l[i]] == if i + 1 < |l| then l[i + 1] else NOBODY
  }

  function LastOf(l: seq<Task>): Task {
    if l == [] then NOBODY else l[|l| - 1]
  }

  function ListOf(v: State, k: List): seq<Task> {
    match k
    case ReadyList => v.ready
    case SleepList => v.sleeping
    case DeadList => v.dead
    case WaitList(q) => WaitersOf(v, q)
  }

  ghost predicate On(v: State, k: List, t: Task) {
    t in ListOf(v, k)
  }

  ghost predicate Once(v: State, k: List) {
    Distinct(ListOf(v, k))
  }

  /** No task is linked twice, in one list or in two. */
  ghost predicate Separate(v: State) {
    && (forall k {:trigger Once(v, k)} :: Once(v, k))
    && (forall j, k, t {:trigger On(v, j, t), On(v, k, t)} :: On(v, j, t) && On(v, k, t) ==> j == k)
  }

  ghost predicate Unlinked(v: State, t: Task) {
    forall k {:trigger On(v, k, t)} :: !On(v, k, t)
  }

  /** Queues that agree with the statuses are separate. */
  lemma QueuesAreSeparate(v: State)
    requires Queues(v)
    ensures Separate(v)
  {
    forall k {:trigger Once(v, k)} ensures Once(v, k) { StatusOnList(v, k); }
    forall j, k, t {:trigger On(v, j, t), On(v, k, t)} | On(v, j, t) && On(v, k, t) ensures j == k {
      StatusOnList(v, j);
      StatusOnList(v, k);
    }
  }

  /** A task that runs, is parked or does not exist is on no list. */
  lemma IsUnlinked(v: State, t: Task)
    requires Queues(v) && (t in v.status ==> v.status[t] == Running || v.status[t] == Paused)
    ensures Unlinked(v, t)
  {
    forall k {:trigger On(v, k, t)} ensures !On(v, k, t) { StatusOnList(v, k); }
  }

  function StatusOf(k: List): Status {
    match k
    case ReadyList => Ready
    case SleepList => Sleeping
    case DeadList => Dead
    case WaitList(q) => Waiting(q)
  }

  lemma StatusOnList(v: State, k: List)
    requires Queues(v)
    ensures Distinct(ListOf(v, k))
    ensures forall t | t in ListOf(v, k) :: t in v.status && v.status[t] == StatusOf(k) && t != NOBODY
  {
    if k.WaitList? && k.q in v.sems { assert SemaphoreOk(v, k.q); }
  }

  /** `v'` differs from `v` in list `k` only. */
  ghost predicate OnlyList(v: State, k: List, v': State) {
    forall j {:trigger Same(v, j, v')} | j != k :: Same(v, j, v')
  }

  ghost predicate Same(v: State, k: List, v': State) {
    ListOf(v', k) == ListOf(v, k)
  }

  lemma ListGains(v: State, k: List, t: Task, v': State)
    requires Separate(v) && Unlinked(v, t) && OnlyList(v, k, v') && Distinct(ListOf(v', k))
    requires forall x :: x in ListOf(v', k) <==> x in ListOf(v, k) || x == t
    ensures Separate(v')
  {
    forall j {:trigger Once(v', j)} ensures Once(v', j) { assert Once(v, j) && (j != k ==> Same(v, j, v')); }
    forall i, j, x {:trigger On(v', i, x), On(v', j, x)} | On(v', i, x) && On(v', j, x) ensures i == j {
      assert (i != k ==> Same(v, i, v')) && (j != k ==> Same(v, j, v'));
      assert x != t ==> On(v, i, x) && On(v, j, x);
      assert !On(v, i, t) && !On(v, j, t);
    }
  }

  lemma ListLoses(v: State, k: List, t: Task, v': State)
    requires Separate(v) && OnlyList(v, k, v') && Distinct(ListOf(v', k)) && On(v, k, t)
    requires forall x :: x in ListOf(v', k) <==> x in ListOf(v, k) && x != t
    ensures Separate(v') && Unlinked(v', t)
  {
    forall j {:trigger Once(v', j)} ensures Once(v', j) { assert Once(v, j) && (j != k ==> Same(v, j, v')); }
    forall i, j, x {:trigger On(v', i, x), On(v', j, x)} | On(v', i, x) && On(v', j, x) ensures i == j {
      assert (i != k ==> Same(v, i, v')) && (j != k ==> Same(v, j, v'));
      assert On(v, i, x) && On(v, j, x);
    }
    forall j {:trigger On(v', j, t)} ensures !On(v', j, t) {
      assert j != k ==> Same(v, j, v') && !On(v, j, t);
    }
  }

  lemma ChainFrame(next: map<Task, Task>, next': map<Task, Task>, first: Task, l: seq<Task>)
    requires Chain(next, first, l) && forall t | t in l :: t in next' && next'[t] == next[t]
    ensures Chain(next', first, l)
  {
    forall i {:trigger LinkAt(next', l, i)} | 0 <= i < |l| ensures LinkAt(next', l, i) { assert LinkAt(next, l, i); }
  }

  /** Taking out the task at position `k`. */
  lemma {:induction false} WithoutAt(l: seq<Task>, k: nat)
    requires k < |l| && Distinct(l)
    ensures Without(l, l[k]) == l[..k] + l[k + 1..]
  {
    if k > 0 {
      var m := l[1..];
      assert m[k - 1] == l[k] && l[0] != l[k];
      WithoutAt(m, k - 1);
      assert l[..k] == [l[0]] + m[..k - 1];
      assert l[k + 1..] == m[k..];
    }
  }

  /** Where the walk along the sleep list stops is where the task belongs. */
  lemma {:induction false} InsertAt(wake: map<Task, nat>, l: seq<Task>, t: Task, w: nat, k: nat)
    requires k <= |l| && (forall i | 0 <= i < k :: WakeOf(wake, l[i]) <= w) && (k < |l| ==> WakeOf(wake, l[k]) > w)
    ensures InsertByWake(wake, l, t, w) == l[..k] + [t] + l[k..]
  {
    if k > 0 {
      InsertAt(wake, l[1..], t, w, k - 1);
      assert l[..k] == [l[0]] + l[1..][..k - 1] && l[1..][k - 1..] == l[k..];
    } else {
      assert l[..0] + [t] + l[0..] == [t] + l;
    }
  }

  lemma ChainCut(next: map<Task, Task>, first: Task, l: seq<Task>, i: nat, next': map<Task, Task>)
    requires Chain(next, first, l) && Distinct(l) && i + 1 < |l| && LinkAt(next, l, i + 1)
    requires next' == next[l[i] := next[l[i + 1]]][l[i + 1] := NOBODY]
    ensures Chain(next', first, l[..i + 1] + l[i + 2..])
  {
    var m := l[..i + 1] + l[i + 2..];
    assert LinkAt(next, l, i) && LinkAt(next, l, i + 1);
    forall j {:trigger LinkAt(next', m, j)} | 0 <= j < |m| ensures LinkAt(next', m, j) {
      assert LinkAt(next, l, if j <= i then j else j + 1);
    }
  }

  lemma ChainInsert(next: map<Task, Task>, first: Task, l: seq<Task>, i: nat, t: Task, next': map<Task, Task>)
    requires Chain(next, first, l) && Distinct(l) && i < |l| && LinkAt(next, l, i) && t !in l && t != NOBODY
    requires next' == next[t := next[l[i]]][l[i] := t]
    ensures Chain(next', first, l[..i + 1] + [t] + l[i + 1..])
  {
    var m := l[..i + 1] + [t] + l[i + 1..];
    assert LinkAt(next, l, i);
    forall j {:trigger LinkAt(next', m, j)} | 0 <= j < |m| ensures LinkAt(next', m, j) {
      if j != i + 1 { assert LinkAt(next, l, if j <= i then j else j - 1); }
    }
  }

  /** What a semaphore's record holds. */
  datatype SemRecord = SemRecord(max: int, count: int, first: Task, last: Task)

  /** All link fields and list heads and tails. */
  datatype Pointers = Pointers(
    next: map<Task, Task>, firstReady: Task, lastReady: Task, firstSleeping: Task, lastSleeping: Task,
    terminated: Task, sems: map<Sem, SemRecord>)

  function Head(p: Pointers, k: List): Task {
    match k
    case ReadyList => p.firstReady
    case SleepList => p.firstSleeping
    case DeadList => p.terminated
    case WaitList(q) => if q in p.sems then p.sems[q].first else NOBODY
  }

  /** The tail pointer points to the last task; the dead list has none. */
  ghost predicate TailOk(p: Pointers, k: List, l: seq<Task>) {
    match k
    case ReadyList => p.lastReady == LastOf(l)
    case SleepList => p.lastSleeping == LastOf(l)
    case DeadList => true
    case WaitList(q) => q in p.sems ==> p.sems[q].last == LastOf(l)
  }

  ghost predicate ListOk(p: Pointers, v: State, k: List) {
    Chain(p.next, Head(p, k), ListOf(v, k)) && TailOk(p, k, ListOf(v, k))
  }

  ghost predicate SemOk(p: Pointers, v: State, q: Sem) {
    q in p.sems && q in v.sems ==> p.sems[q].max == v.sems[q].max && p.sems[q].count == v.sems[q].count
  }

  /** The pointers form the lists of `v`. */
  ghost predicate Linked(p: Pointers, v: State) {
    && p.sems.Keys == v.sems.Keys && (forall q {:trigger SemOk(p, v, q)} :: SemOk(p, v, q))
    && (forall k {:trigger ListOk(p, v, k)} :: ListOk(p, v, k))
    && Separate(v)
  }

  /** Everything but list `k0` has the same head and tail pointers. */
  ghost predicate SameEnds(p: Pointers, k0: List, p': Pointers) {
    && (k0 != ReadyList ==> p'.firstReady == p.firstReady && p'.lastReady == p.lastReady)
    && (k0 != SleepList ==> p'.firstSleeping == p.firstSleeping && p'.lastSleeping == p.lastSleeping)
    && (k0 != DeadList ==> p'.terminated == p.terminated)
    && p'.sems.Keys == p.sems.Keys
    && (forall q | q in p.sems && k0 != WaitList(q) ::
      p'.sems[q].first == p.sems[q].first && p'.sems[q].last == p.sems[q].last)
  }

  /** No link changed outside of list `l` and `t`. */
  ghost predicate Untouched(n: map<Task, Task>, l: seq<Task>, t: Task, n': map<Task, Task>) {
    forall x | x in n && x !in l && x != t :: x in n' && n'[x] == n[x]
  }

  /** Relinking within list `k0`, and of the unlinked task `t`, leaves the other lists alone. */
  lemma OtherList(p: Pointers, v: State, k0: List, t: Task, p': Pointers, v': State, k: List)
    requires Linked(p, v) && OnlyList(v, k0, v') && SameEnds(p, k0, p') && k != k0
    requires Unlinked(v, t) || On(v, k0, t)
    requires Untouched(p.next, ListOf(v, k0), t, p'.next)
    ensures ListOk(p', v', k)
  {
    assert ListOk(p, v, k) && Same(v, k, v');
    var l := ListOf(v, k);
    forall x | x in l ensures x in p'.next && p'.next[x] == p.next[x] {
      assert On(v, k, x) && !On(v, k0, x) && !On(v, k, t);
    }
    ChainFrame(p.next, p'.next, Head(p, k), l);
  }

  lemma Relinked(p: Pointers, v: State, k0: List, t: Task, p': Pointers, v': State)
    requires Linked(p, v) && OnlyList(v, k0, v') && SameEnds(p, k0, p') && v'.sems.Keys == v.sems.Keys
    requires Unlinked(v, t) || On(v, k0, t)
    requires Untouched(p.next, ListOf(v, k0), t, p'.next)
    requires ListOk(p', v', k0) && Separate(v') && forall q {:trigger SemOk(p', v', q)} :: SemOk(p', v', q)
    ensures Linked(p', v')
  {
    forall k {:trigger ListOk(p', v', k)} ensures ListOk(p', v', k) {
      if k != k0 { OtherList(p, v, k0, t, p', v', k); }
    }
  }

  /** `p'` and `v'` are `p` and `v` after list `k` was relinked, with `t` joining or leaving it. */
  ghost predicate Changed(p: Pointers, v: State, k: List, t: Task, p': Pointers, v': State) {
    && Linked(p, v) && OnlyList(v, k, v') && SameEnds(p, k, p') && SameSems(p, v, p', v')
    && Untouched(p.next, ListOf(v, k), t, p'.next) && ListOk(p', v', k)
  }

  lemma Joins(p: Pointers, v: State, k: List, t: Task, p': Pointers, v': State)
    requires Changed(p, v, k, t, p', v') && Unlinked(v, t)
    requires Distinct(ListOf(v', k)) && forall x :: x in ListOf(v', k) <==> x in ListOf(v, k) || x == t
    ensures Linked(p', v')
  {
    ListGains(v, k, t, v');
    SemsStayOk(p, v, p', v');
    Relinked(p, v, k, t, p', v');
  }

  lemma Leaves(p: Pointers, v: State, k: List, t: Task, p': Pointers, v': State)
    requires Changed(p, v, k, t, p', v') && On(v, k, t)
    requires Distinct(ListOf(v', k)) && forall x :: x in ListOf(v', k) <==> x in ListOf(v, k) && x != t
    ensures Linked(p', v') && Unlinked(v', t)
  {
    ListLoses(v, k, t, v');
    SemsStayOk(p, v, p', v');
    Relinked(p, v, k, t, p', v');
  }

  lemma JoinsAtEnd(p: Pointers, v: State, k: List, t: Task, p': Pointers, v': State)
    requires Changed(p, v, k, t, p', v') && Unlinked(v, t) && ListOf(v', k) == ListOf(v, k) + [t]
    ensures Linked(p', v')
  {
    assert Once(v, k) && !On(v, k, t);
    Appended(ListOf(v, k), t);
    Joins(p, v, k, t, p', v');
  }

  lemma JoinsInFront(p: Pointers, v: State, k: List, t: Task, p': Pointers, v': State)
    requires Changed(p, v, k, t, p', v') && Unlinked(v, t) && ListOf(v', k) == [t] + ListOf(v, k)
    ensures Linked(p', v')
  {
    assert Once(v, k) && !On(v, k, t);
    Prepended(ListOf(v, k), t);
    Joins(p, v, k, t, p', v');
  }

  lemma JoinsByWake(p: Pointers, v: State, t: Task, wake: map<Task, nat>, w: nat, p': Pointers, v': State)
    requires Changed(p, v, SleepList, t, p', v') && Unlinked(v, t)
      && v'.sleeping == InsertByWake(wake, v.sleeping, t, w)
    ensures Linked(p', v')
  {
    assert Once(v, SleepList) && !On(v, SleepList, t);
    InsertMembers(wake, v.sleeping, t, w);
    Joins(p, v, SleepList, t, p', v');
  }

  lemma LeavesFront(p: Pointers, v: State, k: List, t: Task, p': Pointers, v': State)
    requires ListOf(v, k) != [] && t == ListOf(v, k)[0] && ListOf(v', k) == ListOf(v, k)[1..]
    requires Changed(p, v, k, t, p', v')
    ensures Linked(p', v') && Unlinked(v', t)
  {
    assert Once(v, k) && On(v, k, t);
    Dropped(ListOf(v, k));
    Leaves(p, v, k, t, p', v');
  }

  lemma LeavesMiddle(p: Pointers, v: State, k: List, t: Task, p': Pointers, v': State)
    requires Changed(p, v, k, t, p', v') && t in ListOf(v, k) && ListOf(v', k) == Without(ListOf(v, k), t)
    ensures Linked(p', v') && Unlinked(v', t)
  {
    assert Once(v, k) && On(v, k, t);
    WithoutMembers(ListOf(v, k), t);
    Leaves(p, v, k, t, p', v');
  }

  ghost predicate SameSems(p: Pointers, v: State, p': Pointers, v': State) {
    && p'.sems.Keys == p.sems.Keys && v'.sems.Keys == v.sems.Keys
    && (forall q | q in p.sems :: p'.sems[q].max == p.sems[q].max && p'.sems[q].count == p.sems[q].count)
    && (forall q | q in v.sems :: v'.sems[q].max == v.sems[q].max && v'.sems[q].count == v.sems[q].count)
  }

  lemma SemsStayOk(p: Pointers, v: State, p': Pointers, v': State)
    requires Linked(p, v) && SameSems(p, v, p', v')
    ensures forall q {:trigger SemOk(p', v', q)} :: SemOk(p', v', q)
  {
    forall q {:trigger SemOk(p', v', q)} ensures SemOk(p', v', q) { assert SemOk(p, v, q); }
  }

  /** List shapes do not depend on statuses, times or the current task. */
  lemma SameLinks(p: Pointers, v: State, v': State)
    requires Linked(p, v) && v'.ready == v.ready && v'.sleeping == v.sleeping && v'.dead == v.dead
    requires v'.sems.Keys == v.sems.Keys
    requires forall q | q in v.sems ::
      v'.sems[q].waiting == v.sems[q].waiting && v'.sems[q].max == v.sems[q].max && v'.sems[q].count == v.sems[q].count
    ensures Linked(p, v')
  {
    forall k ensures ListOf(v', k) == ListOf(v, k) {}
    forall q {:trigger SemOk(p, v', q)} ensures SemOk(p, v', q) { assert SemOk(p, v, q); }
    forall k {:trigger ListOk(p, v', k)} ensures ListOk(p, v', k) { assert ListOk(p, v, k); }
    forall k {:trigger Once(v', k)} ensures Once(v', k) { assert Once(v, k); }
    forall i, j, t {:trigger On(v', i, t), On(v', j, t)} | On(v', i, t) && On(v', j, t) ensures i == j {
      assert On(v, i, t) && On(v, j, t);
    }
  }

  // ---------- List surgery ----------

  /** Links `t` behind the last task of a list. */
  method Append(next: map<Task, Task>, first: Task, last: Task, t: Task, ghost l: seq<Task>)
    returns (next': map<Task, Task>, first': Task, last': Task)
    requires Chain(next, first, l) && last == LastOf(l) && t !in l && t != NOBODY && Distinct(l)
    ensures Chain(next', first', l + [t]) && last' == t
    ensures Untouched(next, l, t, next')
  {
    next' := next[t := NOBODY];
    if last != NOBODY {
      next' := next'[last := t];
      first' := first;
    } else {
      first' := t;
    }
    last' := t;
    forall i {:trigger LinkAt(next', l + [t], i)} | 0 <= i < |l + [t]| ensures LinkAt(next', l + [t], i) {
      if i < |l| { assert LinkAt(next, l, i); }
    }
  }

  /** Unlinks the first task of a list. */
  method Pop(next: map<Task, Task>, first: Task, last: Task, ghost l: seq<Task>)
    returns (t: Task, next': map<Task, Task>, first': Task, last': Task)
    requires Chain(next, first, l) && last == LastOf(l) && Distinct(l) && l != []
    ensures t == l[0] && t != NOBODY && Chain(next', first', l[1..]) && last' == LastOf(l[1..])
    ensures Untouched(next, l, t, next')
  {
    t := first;
    assert LinkAt(next, l, 0) && (|l| > 1 ==> LinkAt(next, l, 1));
    first' := next[t];
    last' := if first' == NOBODY then NOBODY else last;
    next' := next[t := NOBODY];
    forall i {:trigger LinkAt(next', l[1..], i)} | 0 <= i < |l[1..]| ensures LinkAt(next', l[1..], i) {
      assert LinkAt(next, l, i + 1);
    }
  }

  /** Unlinks `t` from anywhere in a list; nothing changes when it is not there. */
  method Remove(next: map<Task, Task>, first: Task, last: Task, t: Task, ghost l: seq<Task>)
    returns (next': map<Task, Task>, first': Task, last': Task)
    requires Chain(next, first, l) && last == LastOf(l) && Distinct(l) && t != NOBODY
    ensures t in l ==>
      && Chain(next', first', Without(l, t)) && last' == LastOf(Without(l, t))
      && Untouched(next, l, t, next')
    ensures t !in l ==> next' == next && first' == first && last' == last
  {
    next', first', last' := next, first, last;
    if t == first {
      WithoutAt(l, 0);
      var p;
      p, next', first', last' := Pop(next, first, last, l);
      assert l[..0] + l[1..] == l[1..];
      return;
    }
    var tracker := first;
    ghost var i := 0;
    while tracker != NOBODY && next[tracker] != t
      invariant i <= |l| && tracker == (if i < |l| then l[i] else NOBODY) && t !in l[..i]
        && (i < |l| ==> t != l[i] && l[i] != NOBODY)
      decreases |l| - i
    {
      assert LinkAt(next, l, i);
      i := i + 1;
      tracker := next[tracker];
      if i < |l| { assert LinkAt(next, l, i); }
    }
    if tracker != NOBODY {
      assert LinkAt(next, l, i) && LinkAt(next, l, i + 1);
      WithoutAt(l, i + 1);
      ChainCut(next, first, l, i, next[tracker := next[t]][t := NOBODY]);
      next' := next[tracker := next[t]];
      last' := if t == last then tracker else last;
      next' := next'[t := NOBODY];
    } else {
      assert l[..i] == l;
    }
  }

  lemma Somebody(next: map<Task, Task>, first: Task, l: seq<Task>, t: Task)
    requires Chain(next, first, l) && t in l
    ensures t != NOBODY
  {
    var i :| 0 <= i < |l| && l[i] == t;
    assert LinkAt(next, l, i);
  }

  /** Links `t` into the sleep list, behind every task that wakes no later. */
  method InsertSleeper(next: map<Task, Task>, first: Task, last: Task, t: Task, wake: map<Task, nat>,
      ghost l: seq<Task>)
    returns (next': map<Task, Task>, first': Task, last': Task)
    requires Chain(next, first, l) && last == LastOf(l) && t !in l && t != NOBODY && Distinct(l)
    requires t in wake
    ensures Chain(next', first', InsertByWake(wake, l, t, wake[t]))
      && last' == LastOf(InsertByWake(wake, l, t, wake[t]))
    ensures Untouched(next, l, t, next')
  {
    next' := next[t := NOBODY];
    ChainFrame(next, next', first, l);
    if first == NOBODY || wake[t] < WakeOf(wake, first) {
      ghost var n := next';
      next' := next'[t := first];
      first' := t;
      last' := if last == NOBODY then t else last;
      InsertAt(wake, l, t, wake[t], 0);
      assert l[..0] + [t] + l[0..] == [t] + l;
      PrependedChain(n, first, l, t);
      return;
    }
    var tracker := first;
    ghost var i := 0;
    assert LinkAt(next', l, 0);
    while next'[tracker] != NOBODY && WakeOf(wake, next'[tracker]) <= wake[t]
      invariant i < |l| && tracker == l[i] && LinkAt(next', l, i)
      invariant forall j | 0 <= j <= i :: WakeOf(wake, l[j]) <= wake[t]
      decreases |l| - i
    {
      tracker := next'[tracker];
      i := i + 1;
      assert LinkAt(next', l, i);
    }
    assert i + 1 < |l| ==> LinkAt(next', l, i + 1);
    InsertAt(wake, l, t, wake[t], i + 1);
    ChainInsert(next', first, l, i, t, next'[t := next'[tracker]][tracker := t]);
    next' := next'[t := next'[tracker]];
    next' := next'[tracker := t];
    first' := first;
    last' := if next'[t] == NOBODY then t else last;
  }

  lemma PrependedChain(next: map<Task, Task>, first: Task, l: seq<Task>, t: Task)
    requires Chain(next, first, l) && t != NOBODY && t !in l
    ensures Chain(next[t := first], t, [t] + l)
  {
    forall i {:trigger LinkAt(next[t := first], [t] + l, i)} | 0 <= i < |[t] + l|
      ensures LinkAt(next[t := first], [t] + l, i) {
      if i > 0 { assert LinkAt(next, l, i - 1); }
    }
  }

  // ---------- Queues ----------

  method ReadyPush(p: Pointers, t: Task, ghost v: State) returns (p': Pointers)
    requires Linked(p, v) && Unlinked(v, t) && t != NOBODY
    ensures Linked(p', v.(ready := v.ready + [t]))
  {
    assert ListOk(p, v, ReadyList) && Once(v, ReadyList) && !On(v, ReadyList, t);
    var next, first, last := Append(p.next, p.firstReady, p.lastReady, t, v.ready);
    p' := p.(next := next, firstReady := first, lastReady := last);
    JoinsAtEnd(p, v, ReadyList, t, p', v.(ready := v.ready + [t]));
  }

  method ReadyPop(p: Pointers, ghost v: State) returns (t: Task, p': Pointers)
    requires Linked(p, v)
    ensures v.ready == [] ==> t == NOBODY && p' == p
    ensures v.ready != [] ==>
      var v' := v.(ready := v.ready[1..]);
      t == v.ready[0] && t != NOBODY && Unlinked(v', t) && Linked(p', v')
  {
    assert ListOk(p, v, ReadyList) && Once(v, ReadyList);
    if p.firstReady == NOBODY { return NOBODY, p; }
    var next, first, last;
    t, next, first, last := Pop(p.next, p.firstReady, p.lastReady, v.ready);
    p' := p.(next := next, firstReady := first, lastReady := last);
    LeavesFront(p, v, ReadyList, t, p', v.(ready := v.ready[1..]));
  }

  method ReadyRemove(p: Pointers, t: Task, ghost v: State) returns (p': Pointers)
    requires Linked(p, v) && t in v.ready
    ensures var v' := v.(ready := Without(v.ready, t)); Linked(p', v') && Unlinked(v', t)
  {
    assert ListOk(p, v, ReadyList) && Once(v, ReadyList);
    Somebody(p.next, p.firstReady, v.ready, t);
    var next, first, last := Remove(p.next, p.firstReady, p.lastReady, t, v.ready);
    p' := p.(next := next, firstReady := first, lastReady := last);
    LeavesMiddle(p, v, ReadyList, t, p', v.(ready := Without(v.ready, t)));
  }

  method SleepPush(p: Pointers, t: Task, wake: map<Task, nat>, ghost v: State) returns (p': Pointers)
    requires Linked(p, v) && Unlinked(v, t) && t != NOBODY && t in wake
    ensures Linked(p', v.(sleeping := InsertByWake(wake, v.sleeping, t, wake[t])))
  {
    assert ListOk(p, v, SleepList) && Once(v, SleepList) && !On(v, SleepList, t);
    var next, first, last := InsertSleeper(p.next, p.firstSleeping, p.lastSleeping, t, wake, v.sleeping);
    p' := p.(next := next, firstSleeping := first, lastSleeping := last);
    JoinsByWake(p, v, t, wake, wake[t], p', v.(sleeping := InsertByWake(wake, v.sleeping, t, wake[t])));
  }

  method SleepPop(p: Pointers, ghost v: State) returns (t: Task, p': Pointers)
    requires Linked(p, v) && v.sleeping != []
    ensures var v' := v.(sleeping := v.sleeping[1..]);
      t == v.sleeping[0] && t != NOBODY && Unlinked(v', t) && Linked(p', v')
  {
    assert ListOk(p, v, SleepList) && Once(v, SleepList);
    var next, first, last;
    t, next, first, last := Pop(p.next, p.firstSleeping, p.lastSleeping, v.sleeping);
    p' := p.(next := next, firstSleeping := first, lastSleeping := last);
    LeavesFront(p, v, SleepList, t, p', v.(sleeping := v.sleeping[1..]));
  }

  method SleepRemove(p: Pointers, t: Task, ghost v: State) returns (p': Pointers)
    requires Linked(p, v) && t in v.sleeping
    ensures var v' := v.(sleeping := Without(v.sleeping, t)); Linked(p', v') && Unlinked(v', t)
  {
    assert ListOk(p, v, SleepList) && Once(v, SleepList);
    Somebody(p.next, p.firstSleeping, v.sleeping, t);
    var next, first, last := Remove(p.next, p.firstSleeping, p.lastSleeping, t, v.sleeping);
    p' := p.(next := next, firstSleeping := first, lastSleeping := last);
    LeavesMiddle(p, v, SleepList, t, p', v.(sleeping := Without(v.sleeping, t)));
  }

  /** `v` with the queue of semaphore `q` replaced. */
  function WithWaiting(v: State, q: Sem, l: seq<Task>): State
    requires q in v.sems
  {
    v.(sems := v.sems[q := v.sems[q].(waiting := l)])
  }

  method SemPush(p: Pointers, q: Sem, t: Task, ghost v: State) returns (p': Pointers)
    requires Linked(p, v) && Unlinked(v, t) && t != NOBODY && q in p.sems
    ensures q in v.sems && Linked(p', WithWaiting(v, q, v.sems[q].waiting + [t]))
  {
    assert ListOk(p, v, WaitList(q)) && Once(v, WaitList(q)) && !On(v, WaitList(q), t);
    var next, first, last := Append(p.next, p.sems[q].first, p.sems[q].last, t, v.sems[q].waiting);
    p' := p.(next := next, sems := p.sems[q := p.sems[q].(first := first, last := last)]);
    JoinsAtEnd(p, v, WaitList(q), t, p', WithWaiting(v, q, v.sems[q].waiting + [t]));
  }

  method SemPop(p: Pointers, q: Sem, ghost v: State) returns (t: Task, p': Pointers)
    requires Linked(p, v) && q in p.sems && q in v.sems && v.sems[q].waiting != []
    ensures var v' := WithWaiting(v, q, v.sems[q].waiting[1..]);
      t == v.sems[q].waiting[0] && t != NOBODY && Unlinked(v', t) && Linked(p', v')
  {
    assert ListOk(p, v, WaitList(q)) && Once(v, WaitList(q));
    var next, first, last;
    t, next, first, last := Pop(p.next, p.sems[q].first, p.sems[q].last, v.sems[q].waiting);
    p' := p.(next := next, sems := p.sems[q := p.sems[q].(first := first, last := last)]);
    LeavesFront(p, v, WaitList(q), t, p', WithWaiting(v, q, v.sems[q].waiting[1..]));
  }

  method SemRemove(p: Pointers, q: Sem, t: Task, ghost v: State) returns (p': Pointers)
    requires Linked(p, v) && q in p.sems && q in v.sems && t in v.sems[q].waiting
    ensures var v' := WithWaiting(v, q, Without(v.sems[q].waiting, t)); Linked(p', v') && Unlinked(v', t)
  {
    assert ListOk(p, v, WaitList(q)) && Once(v, WaitList(q));
    Somebody(p.next, p.sems[q].first, v.sems[q].waiting, t);
    var next, first, last := Remove(p.next, p.sems[q].first, p.sems[q].last, t, v.sems[q].waiting);
    p' := p.(next := next, sems := p.sems[q := p.sems[q].(first := first, last := last)]);
    LeavesMiddle(p, v, WaitList(q), t, p', WithWaiting(v, q, Without(v.sems[q].waiting, t)));
  }

  /** Links `t` in front of the dead list. */
  method DeadPush(p: Pointers, t: Task, ghost v: State) returns (p': Pointers)
    requires Linked(p, v) && Unlinked(v, t) && t != NOBODY
    ensures Linked(p', v.(dead := [t] + v.dead))
  {
    assert ListOk(p, v, DeadList) && !On(v, DeadList, t);
    p' := p.(next := p.next[t := p.terminated]);
    p' := p'.(terminated := t);
    PrependedChain(p.next, p.terminated, v.dead, t);
    JoinsInFront(p, v, DeadList, t, p', v.(dead := [t] + v.dead));
  }

  /** Unlinks the first dead task and forgets its control block. */
  method DeadPop(p: Pointers, ghost v: State) returns (t: Task, p': Pointers)
    requires Linked(p, v) && v.dead != []
    ensures var v' := v.(dead := v.dead[1..]);
      t == v.dead[0] && t != NOBODY && Unlinked(v', t) && Linked(p', v')
  {
    assert ListOk(p, v, DeadList) && Once(v, DeadList);
    t := p.terminated;
    assert LinkAt(p.next, v.dead, 0);
    p' := p.(terminated := p.next[t]);
    p' := p'.(next := p'.next - {t});
    ghost var v' := v.(dead := v.dead[1..]);
    ghost var l := v'.dead;
    Dropped(v.dead);
    forall i {:trigger LinkAt(p'.next, l, i)} | 0 <= i < |l| ensures LinkAt(p'.next, l, i) {
      assert LinkAt(p.next, v.dead, i + 1);
      assert l[i] in l;
    }
    LeavesFront(p, v, DeadList, t, p', v');
  }

  // ---------- The kernel ----------

  /** The current task is in another state, and has not been replaced yet. */
  ghost function Blocked(v: State, st: Status): State { v.(status := v.status[v.current := st]) }

  class Kernel {
    /** Link fields, list heads and tails. */
    var ptr: Pointers
    var status: map<Task, Status>
    var wake: map<Task, nat>
    var current: Task
    var slice: nat
    var irqDisable: nat
    var postpone: nat
    var postponed: bool
    const boot: Task
    const shell: Task
    const reaper: Task
    /** The state the fields stand for. */
    ghost var view: State

    ghost predicate Represents()
      reads this
    {
      && view.status == status && view.wake == wake && view.current == current && view.slice == slice
      && view.boot == boot && view.shell == shell && view.reaper == reaper
      && Linked(ptr, view)
    }

    /** Between sections: no lock is held, no switch is pending, and everyone is in place. */
    ghost predicate Quiet()
      reads this
    {
      Represents() && irqDisable == 0 && postpone == 0 && !postponed && Inv(view)
    }

    /** In a section that postpones switches. */
    ghost predicate Locked()
      reads this
    {
      Represents() && irqDisable == 1 && postpone == 1
    }

    /** The state in which set-up leaves the kernel: the boot task runs, the shell and the reaper are ready. */
    constructor (t0: Task, sh: Task, rp: Task)
      requires t0 != NOBODY && sh != NOBODY && rp != NOBODY && t0 != sh && t0 != rp && sh != rp
      ensures Quiet() && boot == t0 && shell == sh && reaper == rp && view.current == t0 && view.ready == [sh, rp]
      ensures view.status.Keys == {t0, sh, rp}
    {
      boot, shell, reaper := t0, sh, rp;
      ptr := Pointers(map[t0 := NOBODY, sh := rp, rp := NOBODY], sh, rp, NOBODY, NOBODY, NOBODY, map[]);
      status := map[t0 := Running, sh := Ready, rp := Ready];
      wake := map[];
      current, slice, irqDisable, postpone, postponed := t0, 0, 0, 0, false;
      view := Started(t0, sh, rp);
      new;
      StartedIsPlaced(t0, sh, rp);
    }

    method LockSchedule()
      modifies `irqDisable
      ensures irqDisable == old(irqDisable) + 1
    {
      irqDisable := irqDisable + 1;
    }

    method UnlockSchedule()
      requires irqDisable > 0
      modifies `irqDisable
      ensures irqDisable == old(irqDisable) - 1
    {
      irqDisable := irqDisable - 1;
    }

    method LockStuff()
      modifies `irqDisable, `postpone
      ensures irqDisable == old(irqDisable) + 1 && postpone == old(postpone) + 1
    {
      irqDisable := irqDisable + 1;
      postpone := postpone + 1;
    }

    method SetStatus(t: Task, st: Status)
      requires Represents()
      modifies `status, `view
      ensures Represents() && view == old(view).(status := old(view).status[t := st])
    {
      status := status[t := st];
      view := view.(status := status);
      SameLinks(ptr, old(view), view);
    }

    /** Makes `t` ready, at the end of the ready queue. */
    method UnblockTask(t: Task)
      requires Represents() && Unlinked(view, t) && t != NOBODY
      modifies `status, `ptr, `view, `irqDisable
      ensures Represents() && view == MakeReady(old(view), t) && irqDisable == old(irqDisable)
    {
      LockSchedule();
      PushReady(t);
      UnlockSchedule();
    }

    /** A task on no queue goes to the end of the ready queue. */
    method PushReady(t: Task)
      requires Represents() && Unlinked(view, t) && t != NOBODY
      modifies `status, `ptr, `view
      ensures Represents() && view == MakeReady(old(view), t)
    {
      SetStatus(t, Ready);
      UnlinkedStays(old(view), view, t);
      ptr := ReadyPush(ptr, t, view);
      view := view.(ready := view.ready + [t]);
    }

    /** Switches to `t`, which is on no list; a switch that has to be postponed only leaves a note. */
    method SwitchToTask(t: Task)
      requires Represents() && current in status && Unlinked(view, t) && t != NOBODY && t != current
      requires status[current] == Running ==> Unlinked(view, current) && current != NOBODY
      requires postpone == 0 ==> irqDisable == 1
      modifies `status, `ptr, `view, `current, `slice, `postponed
      ensures Represents()
      ensures old(postpone) != 0 ==> view == old(view) && postponed
      ensures old(postpone) == 0 ==>
        var left := if old(status[current]) == Running then MakeReady(old(view), old(current)) else old(view);
        view == left.(status := left.status[t := Running], current := t, slice := TIME_SLICE)
          && postponed == old(postponed)
    {
      if postpone != 0 {
        postponed := true;
        return;
      }
      var prev := current;
      if status[prev] == Running {
        SetStatus(prev, Ready);
        UnlinkedStays(old(view), view, prev);
        ptr := ReadyPush(ptr, prev, view);
        view := view.(ready := view.ready + [prev]);
      }
      SetStatus(t, Running);
      ghost var v := view;
      slice := TIME_SLICE;
      current := t;
      view := view.(current := t, slice := TIME_SLICE);
      SameLinks(ptr, v, view);
    }

    /** Runs the head of the ready queue, unless switches are postponed. */
    method Schedule()
      requires Represents() && (postpone == 0 ==> Switchable(view) && irqDisable == 1)
      modifies `status, `ptr, `view, `current, `slice, `postponed
      ensures Represents()
      ensures if old(postpone) != 0 then view == old(view) && postponed
              else view == Reschedule(old(view)) && postponed == old(postponed)
    {
      if postpone != 0 {
        postponed := true;
        return;
      }
      SwitchKeeps(view);
      FirstReady(ptr, view);
      if ptr.firstReady != NOBODY {
        ghost var v := view;
        HeadIsReady(v);
        var t;
        t, ptr := ReadyPop(ptr, v);
        view := v.(ready := v.ready[1..]);
        if status[current] == Running {
          IsUnlinked(v, current);
          UnlinkedPopped(v, view, current);
        }
        SwitchToTask(t);
        return;
      }
      // The boot task is ready or running, so the current task runs on and the idle loop is never entered.
      assert status[current] == Running;
    }

    method UnlockStuff()
      requires Represents() && irqDisable > 0 && postpone > 0
        && (postpone == 1 && postponed ==> Switchable(view) && irqDisable == 1)
      modifies this
      ensures Represents() && irqDisable == old(irqDisable) - 1 && postpone == old(postpone) - 1
      ensures if old(postpone) == 1 && old(postponed) then view == Reschedule(old(view)) && !postponed
              else view == old(view) && postponed == old(postponed)
    {
      postpone := postpone - 1;
      if postpone == 0 {
        if postponed {
          postponed := false;
          Schedule();
        }
      }
      irqDisable := irqDisable - 1;
    }

    /** Gives the current task a status it cannot run in and asks for a switch. */
    method BlockTask(st: Status)
      requires Represents() && (postpone == 0 ==> Switchable(Blocked(view, st)) && irqDisable == 0)
      modifies this
      ensures Represents() && postpone == old(postpone) && irqDisable == old(irqDisable)
      ensures if old(postpone) > 0 then view == Blocked(old(view), st) && postponed && current == old(current)
              else view == Reschedule(Blocked(old(view), st)) && postponed == old(postponed)
    {
      LockSchedule();
      SetStatus(current, st);
      Schedule();
      UnlockSchedule();
    }

    method Yield()
      requires Quiet()
      modifies this
      ensures Quiet() && view == Apply(old(view), DoYield)
    {
      LockSchedule();
      SwitchKeeps(view);
      Schedule();
      UnlockSchedule();
    }

    method NanoSleepUntil(until: nat, now: nat)
      requires Quiet() && Enabled(view, DoSleep(until, now))
      modifies this
      ensures Quiet() && view == Apply(old(view), DoSleep(until, now))
    {
      ghost var v := view;
      LockStuff();
      if until <= now {
        UnlockStuff();
        return;
      }
      wake := wake[current := until];
      view := view.(wake := wake);
      SameLinks(ptr, v, view);
      IsUnlinked(v, current);
      UnlinkedStays(v, view, current);
      ptr := SleepPush(ptr, current, wake, view);
      view := view.(sleeping := InsertByWake(wake, view.sleeping, current, until));
      BlockTask(Sleeping);
      assert view == Asleep(v, until);
      AsleepIsPlaced(v, until);
      SwitchKeeps(view);
      UnlockStuff();
    }

    /** The first sleeper becomes ready. */
    method WakeFirst()
      requires Represents() && view.sleeping != []
      modifies `status, `ptr, `view, `irqDisable
      ensures Represents() && view == WokenFirst(old(view)) && irqDisable == old(irqDisable)
    {
      var t;
      t, ptr := SleepPop(ptr, view);
      view := view.(sleeping := view.sleeping[1..]);
      UnblockTask(t);
    }

    /** The timer's check of the sleep list. */
    method CheckSleepingTasks(now: nat)
      requires Quiet()
      modifies this
      ensures Quiet() && view == Apply(old(view), DoCheck(now))
    {
      ghost var v := view;
      LockStuff();
      FirstSleeper(ptr, view);
      while ptr.firstSleeping != NOBODY && WakeOf(wake, ptr.firstSleeping) <= now
        invariant Represents() && irqDisable == 1 && postpone == 1 && !postponed && Inv(view)
        invariant if view.sleeping == [] then ptr.firstSleeping == NOBODY
                  else ptr.firstSleeping == view.sleeping[0] != NOBODY
        invariant CheckSleepers(view, now) == CheckSleepers(v, now)
        decreases |view.sleeping|
      {
        WakeFirstKeeps(view);
        WakeFirst();
        FirstSleeper(ptr, view);
      }
      UnlockStuff();
    }

    /** The timer's accounting of the time slice. */
    method TimeSliceTick(ns: nat)
      requires Quiet()
      modifies this
      ensures Quiet() && view == Apply(old(view), DoTick(ns))
    {
      ghost var v := view;
      LockStuff();
      FirstReady(ptr, view);
      StepKeeps(v, DoTick(ns));
      if slice <= ns {
        if ptr.firstReady != NOBODY {
          Schedule();
        } else {
          slice := TIME_SLICE;
          view := view.(slice := slice);
          SameLinks(ptr, v, view);
        }
      } else {
        slice := slice - ns;
        view := view.(slice := slice);
        SameLinks(ptr, v, view);
      }
      UnlockStuff();
    }

    /** The reaper is only woken when it is parked. */
    method WakeTheReaper()
      requires Represents() && reaper in status && reaper != NOBODY
      requires status[reaper] == Paused ==> Unlinked(view, reaper)
      modifies `status, `ptr, `view, `irqDisable
      ensures Represents() && view == WakeReaper(old(view)) && irqDisable == old(irqDisable)
    {
      if status[reaper] == Paused {
        UnblockTask(reaper);
      }
    }

    method TerminateTask()
      requires Quiet() && Enabled(view, DoExit)
      modifies this
      ensures Quiet() && view == Apply(old(view), DoExit)
    {
      ghost var v := view;
      BuriedIsPlaced(v);
      SwitchKeeps(Buried(v, v.current));
      LockStuff();
      BuryCurrent();
      UnlockStuff();
    }

    /** The current task joins the dead, and the reaper is woken; the switch is postponed. */
    method BuryCurrent()
      requires Locked() && Inv(view) && Enabled(view, DoExit)
      modifies this
      ensures Locked() && postponed && view == Buried(old(view), old(view.current))
    {
      ghost var v := view;
      LockSchedule();
      IsUnlinked(v, current);
      ptr := DeadPush(ptr, current, view);
      view := view.(dead := [current] + view.dead);
      UnlockSchedule();
      BlockTask(Dead);
      if status[reaper] == Paused {
        IsUnlinked(v, reaper);
        UnlinkedBuried(v, view, reaper, current);
      }
      WakeTheReaper();
    }

    /** Unlinks `t` from the list its status says it is on. */
    method TakeOff(t: Task)
      requires Represents() && Queues(view) && t in status && status[t] != Running && status[t] != Dead
      modifies `ptr, `view
      ensures Represents() && view == Dequeue(old(view), t) && Unlinked(view, t)
    {
      match status[t] {
        case Ready =>
          ptr := ReadyRemove(ptr, t, view);
          view := view.(ready := Without(view.ready, t));
        case Sleeping =>
          ptr := SleepRemove(ptr, t, view);
          view := view.(sleeping := Without(view.sleeping, t));
        case Waiting(q) =>
          assert SemaphoreOk(view, q);
          ptr := SemRemove(ptr, q, t, view);
          view := WithWaiting(view, q, Without(view.sems[q].waiting, t));
        case _ =>
          IsUnlinked(view, t);
      }
    }

    /** Links the dead task `t` into the dead list and wakes the reaper if it is parked. */
    method Bury(t: Task)
      requires Represents() && Unlinked(view, t) && t != NOBODY && t != reaper && t in status && status[t] == Dead
      requires reaper in status && reaper != NOBODY && (status[reaper] == Paused ==> Unlinked(view, reaper))
      modifies `status, `ptr, `view, `irqDisable
      ensures Represents() && view == Buried(old(view), t) && irqDisable == old(irqDisable)
    {
      ghost var v := view;
      ptr := DeadPush(ptr, t, view);
      view := view.(dead := [t] + view.dead);
      if status[reaper] == Paused { UnlinkedBuried(v, view, reaper, t); }
      WakeTheReaper();
      assert v.status[t := Dead] == v.status;
    }

    /** The section that takes another task out of its place. */
    method KillOther(t: Task)
      requires Locked() && !postponed && Inv(view) && Killable(view, t) && t != current
      modifies this
      ensures Represents() && view == Kill(old(view), t)
      ensures irqDisable == 1 && postpone == 1 && !postponed
    {
      ghost var v := view;
      TakeOff(t);
      if status[reaper] == Paused {
        IsUnlinked(v, reaper);
        UnlinkedKilled(v, reaper, t);
      }
      SetStatus(t, Dead);
      UnlinkedStays(Dequeue(v, t), view, t);
      if status[reaper] == Paused { UnlinkedStays(Dequeue(v, t), view, reaper); }
      Bury(t);
    }

    /** Kills any task that is not an elder, from whatever state it is in. */
    method KillTask(t: Task) returns (rc: int)
      requires Quiet() && (t != NOBODY ==> t in status)
      modifies this
      ensures Quiet() && view == Apply(old(view), DoKill(t))
      ensures rc == if Killable(old(view), t) then 0 else -1
    {
      if t == NOBODY { return -1; }
      if t == boot || t == reaper || t == shell { return -1; }
      if t == current {
        TerminateTask();
        return 0;
      }
      rc := KillNotRunning(t);
    }

    /** Kills a task that is not the current one, unless it is dead. */
    method KillNotRunning(t: Task) returns (rc: int)
      requires Quiet() && t in status && t != NOBODY && t != current && t != boot && t != reaper && t != shell
      modifies this
      ensures Quiet() && view == Kill(old(view), t) && rc == if Killable(old(view), t) then 0 else -1
    {
      KillKeeps(view, t);
      LockStuff();
      if status[t] == Dead {
        UnlockStuff();
        return -1;
      }
      KillOther(t);
      UnlockStuff();
      rc := 0;
    }

    /** Frees the first task of the dead list. */
    method ReapFirst() returns (t: Task)
      requires Represents() && view.dead != []
      modifies `status, `wake, `ptr, `view
      ensures Represents() && view == Freed(old(view)) && t == old(view).dead[0]
    {
      ghost var v := view;
      t, ptr := DeadPop(ptr, view);
      view := view.(dead := view.dead[1..]);
      ghost var u := view;
      status := status - {t};
      wake := wake - {t};
      view := view.(status := status, wake := wake);
      SameLinks(ptr, u, view);
    }

    /** One round of the reaper: it empties the dead list, then parks. */
    method ReapAllTasks() returns (reaped: seq<Task>)
      requires Quiet() && Enabled(view, DoReap)
      modifies this
      ensures Quiet() && view == Apply(old(view), DoReap) && reaped == old(view).dead
    {
      ghost var v := view;
      LockStuff();
      reaped := EmptyDead();
      BlockTask(Paused);
      AllFreedIsCleared(v);
      ClearedIsPlaced(v);
      SwitchKeeps(view);
      UnlockStuff();
    }

    /** Frees the tasks on the dead list, the first one first. */
    method EmptyDead() returns (reaped: seq<Task>)
      requires Represents()
      modifies `status, `wake, `ptr, `view
      ensures Represents() && view == AllFreed(old(view)) && reaped == old(view).dead
    {
      ghost var v := view;
      reaped := [];
      FirstDead(ptr, view);
      while ptr.terminated != NOBODY
        invariant Represents() && (ptr.terminated == NOBODY <==> view.dead == [])
        invariant AllFreed(view) == AllFreed(v) && reaped + view.dead == v.dead
        decreases |view.dead|
      {
        var t := ReapFirst();
        reaped := reaped + [t];
        FirstDead(ptr, view);
      }
    }

    /** Registers a new task and makes it ready. */
    method CreateTask(t: Task)
      requires Quiet() && Enabled(view, DoCreate(t))
      modifies this
      ensures Quiet() && view == Apply(old(view), DoCreate(t))
    {
      ghost var v := view;
      StepKeeps(v, DoCreate(t));
      IsUnlinked(v, t);
      LockSchedule();
      PushReady(t);
      UnlockSchedule();
    }

    method CreateSemaphore(q: Sem, max: int)
      requires Quiet() && Enabled(view, DoCreateSemaphore(q, max))
      modifies this
      ensures Quiet() && view == Apply(old(view), DoCreateSemaphore(q, max))
    {
      ghost var p, v := ptr, view;
      StepKeeps(v, DoCreateSemaphore(q, max));
      ptr := ptr.(sems := ptr.sems[q := SemRecord(max, 0, NOBODY, NOBODY)]);
      view := Apply(v, DoCreateSemaphore(q, max));
      NewSemaphore(p, v, q, max);
    }

    method AcquireSemaphore(q: Sem)
      requires Quiet() && Enabled(view, DoAcquire(q))
      modifies this
      ensures Quiet() && view == Apply(old(view), DoAcquire(q))
    {
      ghost var p, v := ptr, view;
      assert SemOk(p, v, q);
      LockStuff();
      if ptr.sems[q].count < ptr.sems[q].max {
        AcquireKeeps(v, q);
        ptr := ptr.(sems := ptr.sems[q := ptr.sems[q].(count := ptr.sems[q].count + 1)]);
        view := Acquire(v, q);
        Counted(p, v, q, 1, view);
      } else {
        IsUnlinked(v, current);
        ptr := SemPush(ptr, q, current, view);
        view := WithWaiting(view, q, view.sems[q].waiting + [current]);
        BlockTask(Waiting(q));
        assert view == Queued(v, q);
        QueuedIsPlaced(v, q);
        SwitchKeeps(view);
      }
      UnlockStuff();
    }

    /** Hands the grant to the first waiter and makes it ready. */
    method HandOver(q: Sem)
      requires Represents() && q in ptr.sems && q in view.sems && view.sems[q].waiting != []
      modifies `status, `ptr, `view, `irqDisable
      ensures Represents() && view == Release(old(view), q) && irqDisable == old(irqDisable)
    {
      ghost var v, m := view, view.sems[q];
      var t;
      t, ptr := SemPop(ptr, q, view);
      ghost var u := WithWaiting(v, q, m.waiting[1..]);
      view := v.(sems := v.sems[q := m.(waiting := m.waiting[1..], held := m.held - multiset{current} + multiset{t})]);
      SameLinks(ptr, u, view);
      UnlinkedRecorded(u, view, t);
      UnblockTask(t);
    }

    method ReleaseSemaphore(q: Sem)
      requires Quiet() && Enabled(view, DoRelease(q))
      modifies this
      ensures Quiet() && view == Apply(old(view), DoRelease(q))
    {
      ghost var v := view;
      assert SemOk(ptr, v, q) && ListOk(ptr, v, WaitList(q));
      ReleaseKeeps(v, q);
      LockStuff();
      if ptr.sems[q].first != NOBODY {
        HandOver(q);
      } else {
        CountDown(q);
      }
      UnlockStuff();
    }

    /** With nobody waiting there is one holder less. */
    method CountDown(q: Sem)
      requires Represents() && q in ptr.sems && q in view.sems && view.sems[q].waiting == []
      modifies `ptr, `view
      ensures Represents() && view == Release(old(view), q)
    {
      ghost var p, v := ptr, view;
      assert SemOk(p, v, q);
      ptr := ptr.(sems := ptr.sems[q := ptr.sems[q].(count := ptr.sems[q].count - 1)]);
      view := Release(v, q);
      Counted(p, v, q, -1, view);
    }
  }

  function Started(boot: Task, shell: Task, reaper: Task): State {
    State(map[boot := Running, shell := Ready, reaper := Ready], map[], boot, [shell, reaper], [], [], map[],
          0, boot, shell, reaper)
  }

  lemma StartedIsPlaced(boot: Task, shell: Task, reaper: Task)
    requires boot != NOBODY && shell != NOBODY && reaper != NOBODY
    requires boot != shell && boot != reaper && shell != reaper
    ensures Inv(Started(boot, shell, reaper))
    ensures Linked(Pointers(map[boot := NOBODY, shell := reaper, reaper := NOBODY], shell, reaper, NOBODY, NOBODY,
      NOBODY, map[]),
                   Started(boot, shell, reaper))
  {
    var v := Started(boot, shell, reaper);
    var p := Pointers(map[boot := NOBODY, shell := reaper, reaper := NOBODY], shell, reaper, NOBODY, NOBODY, NOBODY,
      map[]);
    QueuesAreSeparate(v);
    forall k {:trigger ListOk(p, v, k)} ensures ListOk(p, v, k) {
      if k == ReadyList { assert LinkAt(p.next, v.ready, 0) && LinkAt(p.next, v.ready, 1); }
    }
  }

  /** The first dead task is freed. */
  function Freed(v: State): State
    requires v.dead != []
  {
    v.(status := v.status - {v.dead[0]}, wake := v.wake - {v.dead[0]}, dead := v.dead[1..])
  }

  function AllFreed(v: State): State
    decreases |v.dead|
  {
    if v.dead == [] then v else AllFreed(Freed(v))
  }

  lemma {:induction false} AllFreedIsAll(v: State)
    ensures AllFreed(v) == v.(status := v.status - Elements(v.dead), wake := v.wake - Elements(v.dead), dead := [])
    decreases |v.dead|
  {
    if v.dead != [] {
      AllFreedIsAll(Freed(v));
      assert Elements(v.dead) == Elements(v.dead[1..]) + {v.dead[0]} by {
        assert v.dead == [v.dead[0]] + v.dead[1..];
      }
      assert v.status - Elements(v.dead) == (v.status - {v.dead[0]}) - Elements(v.dead[1..]);
      assert v.wake - Elements(v.dead) == (v.wake - {v.dead[0]}) - Elements(v.dead[1..]);
    } else {
      assert v.status - {} == v.status && v.wake - {} == v.wake;
    }
  }

  lemma AllFreedIsCleared(v: State)
    ensures var w := AllFreed(v); w.(status := w.status[v.current := Paused]) == Cleared(v)
  {
    AllFreedIsAll(v);
  }

  lemma FirstDead(p: Pointers, v: State)
    requires Linked(p, v)
    ensures p.terminated == NOBODY <==> v.dead == []
  {
    assert ListOk(p, v, DeadList);
  }

  lemma NewSemaphore(p: Pointers, v: State, q: Sem, max: int)
    requires Linked(p, v) && q !in v.sems
    ensures Linked(p.(sems := p.sems[q := SemRecord(max, 0, NOBODY, NOBODY)]), Scheduler.CreateSemaphore(v, q, max))
  {
    var p', v' := p.(sems := p.sems[q := SemRecord(max, 0, NOBODY, NOBODY)]), Scheduler.CreateSemaphore(v, q, max);
    forall r {:trigger SemOk(p', v', r)} ensures SemOk(p', v', r) { assert SemOk(p, v, r); }
    forall k {:trigger ListOk(p', v', k)} ensures ListOk(p', v', k) { assert ListOk(p, v, k); }
    forall k {:trigger Once(v', k)} ensures Once(v', k) { assert Once(v, k); }
    forall i, j, t {:trigger On(v', i, t), On(v', j, t)} | On(v', i, t) && On(v', j, t) ensures i == j {
      assert On(v, i, t) && On(v, j, t);
    }
  }

  /** Only the count of one semaphore changed. */
  lemma Counted(p: Pointers, v: State, q: Sem, d: int, v': State)
    requires Linked(p, v) && q in v.sems && v'.ready == v.ready && v'.sleeping == v.sleeping && v'.dead == v.dead
    requires q in v'.sems && v'.sems == v.sems[q := v.sems[q].(count := v.sems[q].count + d, held := v'.sems[q].held)]
    ensures q in p.sems && Linked(p.(sems := p.sems[q := p.sems[q].(count := p.sems[q].count + d)]), v')
  {
    var p' := p.(sems := p.sems[q := p.sems[q].(count := p.sems[q].count + d)]);
    forall r {:trigger SemOk(p', v', r)} ensures SemOk(p', v', r) { assert SemOk(p, v, r) && SemOk(p, v, q); }
    forall k {:trigger ListOk(p', v', k)} ensures ListOk(p', v', k) { assert ListOk(p, v, k); }
    forall k {:trigger Once(v', k)} ensures Once(v', k) { assert Once(v, k); }
    forall i, j, t {:trigger On(v', i, t), On(v', j, t)} | On(v', i, t) && On(v', j, t) ensures i == j {
      assert On(v, i, t) && On(v, j, t);
    }
  }

  lemma UnlinkedRecorded(v: State, v': State, t: Task)
    requires Unlinked(v, t) && v'.ready == v.ready && v'.sleeping == v.sleeping && v'.dead == v.dead
    requires v'.sems.Keys == v.sems.Keys && forall q | q in v.sems :: v'.sems[q].waiting == v.sems[q].waiting
    ensures Unlinked(v', t)
  {
    forall k {:trigger On(v', k, t)} ensures !On(v', k, t) { assert !On(v, k, t); }
  }

  lemma FirstSleeper(p: Pointers, v: State)
    requires Linked(p, v)
    ensures p.firstSleeping == if v.sleeping == [] then NOBODY else v.sleeping[0]
    ensures p.firstSleeping == NOBODY <==> v.sleeping == []
  {
    assert ListOk(p, v, SleepList);
  }

  lemma UnlinkedBuried(v: State, v': State, t: Task, x: Task)
    requires Unlinked(v, t) && x != t && v'.dead == [x] + v.dead
    requires v'.ready == v.ready && v'.sleeping == v.sleeping && v'.sems == v.sems
    ensures Unlinked(v', t)
  {
    forall k {:trigger On(v', k, t)} ensures !On(v', k, t) { assert !On(v, k, t); }
  }

  lemma UnlinkedKilled(v: State, t: Task, x: Task)
    requires Unlinked(v, t) && x in v.status && Separate(v)
    ensures Unlinked(Dequeue(v, x), t)
  {
    forall k {:trigger On(Dequeue(v, x), k, t)} ensures !On(Dequeue(v, x), k, t) {
      assert !On(v, k, t) && Once(v, k);
      WithoutMembers(ListOf(v, k), x);
    }
  }

  lemma FirstReady(p: Pointers, v: State)
    requires Linked(p, v)
    ensures p.firstReady == NOBODY <==> v.ready == []
  {
    assert ListOk(p, v, ReadyList);
  }

  /** Being on no list does not depend on statuses or times. */
  lemma UnlinkedStays(v: State, v': State, t: Task)
    requires Unlinked(v, t) && v'.ready == v.ready && v'.sleeping == v.sleeping && v'.dead == v.dead
      && v'.sems == v.sems
    ensures Unlinked(v', t)
  {
    forall k {:trigger On(v', k, t)} ensures !On(v', k, t) { assert !On(v, k, t); }
  }

  lemma UnlinkedPopped(v: State, v': State, t: Task)
    requires Unlinked(v, t) && v.ready != [] && v' == v.(ready := v.ready[1..])
    ensures Unlinked(v', t)
  {
    forall k {:trigger On(v', k, t)} ensures !On(v', k, t) { assert !On(v, k, t); }
  }
}
