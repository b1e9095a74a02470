/**
  Process identifiers: a free list of released pids, a counter for fresh ones, and a table
  from pid to task that is reallocated when a pid does not fit.
 */
module PidTable {
  import opened Scheduler
  import opened Lists

  /** The live tasks of a table: its occupied slots. */
  ghost function Occupied(slots: seq<Task>): map<nat, Task> {
    map i: nat | i < |slots| && slots[i] != NOBODY :: slots[i]
  }

  /** Pids in use and pids on the free list are disjoint, and both are below the counter. */
  ghost predicate PidsOk(slots: seq<Task>, free: seq<nat>, next: nat) {
    && Distinct(free)
    && (forall p | p in free :: p < next && p !in Occupied(slots))
    && (forall p | p in Occupied(slots) :: p < next)
  }

  /** `pid` is neither free nor live: it is safe to hand out or to release. */
  ghost predicate Taken(slots: seq<Task>, free: seq<nat>, next: nat, pid: nat) {
    pid < next && pid !in free && pid !in Occupied(slots)
  }

  class Table {
    var slots: array<Task>
    var free: seq<nat>
    var nextGreatest: nat

    ghost predicate Valid()
      reads this, slots
    {
      slots.Length > 0 && PidsOk(slots[..], free, nextGreatest)
    }

    ghost function Live(): map<nat, Task>
      reads this, slots
    {
      Occupied(slots[..])
    }

    constructor (capacity: nat)
      ensures Valid() && Live() == map[] && free == [] && nextGreatest == 1 && fresh(slots)
      ensures slots.Length == if capacity == 0 then 4 else capacity
    {
      var n := if capacity == 0 then 4 else capacity;
      var a := new Task[n];
      for i := 0 to n
        invariant forall j | 0 <= j < i :: a[j] == NOBODY
      {
        a[i] := NOBODY;
      }
      slots := a;
      free := [];
      nextGreatest := 1;
    }

    /** Moves the table to an array of at least `least` slots; fails without memory. */
    method Grow(least: nat, memory: bool) returns (ok: bool)
      requires slots.Length > 0
      modifies `slots
      ensures ok == memory
      ensures ok ==> fresh(slots) && slots.Length >= least && slots.Length >= 2 * old(slots).Length
      ensures !ok ==> slots == old(slots)
      ensures Live() == old(Live())
    {
      var from := slots;
      var newCap := from.Length * 2;
      if newCap < least { newCap := least; }
      if !memory { return false; }
      var to := new Task[newCap];
      var i := 0;
      while i < from.Length
        invariant i <= from.Length <= to.Length && forall j | 0 <= j < i :: to[j] == from[j]
      {
        to[i] := from[i];
        i := i + 1;
      }
      while i < newCap
        invariant from.Length <= i <= newCap
        invariant forall j | 0 <= j < from.Length :: to[j] == from[j]
        invariant forall j | from.Length <= j < i :: to[j] == NOBODY
      {
        to[i] := NOBODY;
        i := i + 1;
      }
      slots := to;
      return true;
    }

    method Set(pid: nat, t: Task, memory: bool) returns (ok: bool)
      requires slots.Length > 0 && t != NOBODY
      modifies `slots, slots
      ensures slots.Length >= old(slots.Length) && (slots == old(slots) || fresh(slots))
      ensures ok <==> pid !in old(Live()) && (pid < old(slots.Length) || memory)
      ensures Live() == if ok then old(Live())[pid := t] else old(Live())
    {
      if pid >= slots.Length {
        var grown := Grow(pid + 1, memory);
        if !grown { return false; }
      }
      if slots[pid] != NOBODY { return false; }
      slots[pid] := t;
      return true;
    }

    method Get(pid: nat) returns (t: Task)
      ensures t == if pid in Live() then Live()[pid] else NOBODY
    {
      t := NOBODY;
      if pid < slots.Length { t := slots[pid]; }
    }

    method Remove(pid: nat) returns (ok: bool)
      modifies slots
      ensures Live() == old(Live()) - {pid}
      ensures ok <==> pid < slots.Length
    {
      ok := false;
      if pid < slots.Length {
        slots[pid] := NOBODY;
        ok := true;
      }
    }

    /** Hands out a pid: a released one if there is one, else a fresh one. */
    method Alloc() returns (pid: nat)
      requires Valid()
      modifies `free, `nextGreatest
      ensures Valid() && Taken(slots[..], free, nextGreatest, pid)
      ensures if old(free) != [] then pid == old(free)[0] && free == old(free)[1..] && nextGreatest == old(nextGreatest)
              else pid == old(nextGreatest) && free == [] && nextGreatest == pid + 1
    {
      if free != [] {
        pid := free[0];
        assert pid in free;
        assert forall p | p in free[1..] :: p in free;
        free := free[1..];
      } else {
        pid := nextGreatest;
        nextGreatest := nextGreatest + 1;
      }
    }

    /** Puts a pid on the free list; without memory for the list node it is lost for good. */
    method Release(pid: nat, memory: bool)
      requires Valid() && Taken(slots[..], free, nextGreatest, pid)
      modifies `free
      ensures Valid() && free == if memory then [pid] + old(free) else old(free)
    {
      if !memory { return; }
      free := [pid] + free;
    }

    /**
      Registers a new task under a pid of its own. The slot is never found occupied:
      the only way to fail is that the table has to grow and there is no memory.
     */
    method Register(t: Task, growth: bool, node: bool) returns (ok: bool, pid: nat)
      requires Valid() && t != NOBODY
      modifies this, slots
      ensures Valid() && (slots == old(slots) || fresh(slots)) && slots.Length >= old(slots.Length)
      ensures pid !in old(Live()) && (ok <==> pid < old(slots.Length) || growth)
      ensures Live() == if ok then old(Live())[pid := t] else old(Live())
      ensures old(free) == [] ==> pid == old(nextGreatest) && nextGreatest == pid + 1 && (ok ==> free == [])
    {
      pid := Alloc();
      ok := Set(pid, t, growth);
      if !ok {
        Release(pid, node);
      }
    }

    /** Forgets a reaped task and releases its pid. */
    method Unregister(pid: nat, node: bool)
      requires Valid() && pid in Live()
      modifies this, slots
      ensures Valid() && slots == old(slots) && Live() == old(Live()) - {pid}
    {
      var ok := Remove(pid);
      Release(pid, node);
    }
  }
}
