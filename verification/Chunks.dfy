/**
  The heap as a row of chunks with boundary tags. A chunk's header has its size, whether it is in use, and whether
  the chunk before it is; a free chunk's size is repeated in the word after it. The row ends in the top chunk.
 */
module Chunks {

  type Addr = int

  const MIN_CHUNK_SIZE := 32
  const ALIGNMENT := 16

  datatype Head = Head(size: nat, pinuse: bool, cinuse: bool)

  /**
    `head` and `foot` are the words in memory, by chunk address; `chunks` are the addresses where chunks start, the
    top chunk left out, and `prev` leads from every chunk after the first to the one before it.
   */
  datatype Arena = Arena(
    head: map<Addr, Head>, foot: map<Addr, nat>, chunks: set<Addr>, prev: map<Addr, Addr>, base: Addr, top: Addr,
      topsize: nat)
  {
    function Size(p: Addr): nat { if p in head then head[p].size else 0 }

    function Next(p: Addr): Addr { p + Size(p) }

    ghost predicate Border(p: Addr) { p in chunks || p == top }

    ghost predicate InUse(p: Addr) { p in chunks && p in head && head[p].cinuse }

    ghost predicate IsFree(p: Addr) { p in chunks && p in head && !head[p].cinuse }

    /** A chunk's size, its neighbour's view of it, and, when it is free, its foot and busy neighbours. */
    ghost predicate ChunkOk(p: Addr) {
      p in chunks ==>
        && p in head && Size(p) >= MIN_CHUNK_SIZE && Size(p) % ALIGNMENT == 0 && base <= p && Next(p) <= top
        && var n := Next(p);
        && Border(n) && n in head && n in prev && prev[n] == p && head[n].pinuse == head[p].cinuse
        && (!head[p].cinuse ==> head[p].pinuse && n != top && head[n].cinuse && n in foot && foot[n] == Size(p))
    }

    ghost predicate BorderOk(p: Addr) {
      Border(p) ==>
        && p in head && p % ALIGNMENT == 0 && base <= p <= top
        && (p == base ==> head[p].pinuse)
        && (p != base ==> p in prev && prev[p] in chunks && Next(prev[p]) == p)
    }

    ghost predicate Apart(p: Addr, q: Addr) { p in chunks && q in chunks && p < q ==> Next(p) <= q }

    ghost predicate Ok() {
      && top in head && head[top] == Head(topsize, true, false)
      && (forall p {:trigger ChunkOk(p)} :: ChunkOk(p))
      && (forall p {:trigger BorderOk(p)} :: BorderOk(p))
      && (forall p, q {:trigger Apart(p, q)} :: Apart(p, q))
    }

    ghost function Stat(p: Addr): Status {
      if p !in chunks || p !in head then Nothing
      else if head[p].cinuse then Used(head[p].size)
      else Vacant(head[p].size)
    }

    /** The chunks in use, with their sizes. */
    ghost function Live(): map<Addr, nat> { map p | p in chunks && InUse(p) :: Size(p) }
  }

  /** What starts at an address. */
  datatype Status = Nothing | Used(size: nat) | Vacant(size: nat)

  /** Between two arenas only the addresses in `m` changed their status. */
  ghost predicate Changes(a: Arena, b: Arena, m: map<Addr, Status>) {
    b.base == a.base && forall p {:trigger b.Stat(p)} :: b.Stat(p) == if p in m then m[p] else a.Stat(p)
  }

  lemma ChangesTwice(a: Arena, b: Arena, c: Arena, m: map<Addr, Status>, m': map<Addr, Status>)
    requires Changes(a, b, m) && Changes(b, c, m')
    ensures Changes(a, c, m + m')
  {
    forall p ensures c.Stat(p) == if p in m + m' then (m + m')[p] else a.Stat(p) { assert b.Stat(p) == b.Stat(p); }
  }

  // ---------- Single steps ----------

  /** A free chunk is put to use. */
  ghost function Occupied(a: Arena, p: Addr): Arena
    requires p in a.head && a.Next(p) in a.head
  {
    var n := a.Next(p);
    a.(head := a.head[p := Head(a.Size(p), true, true)][n := a.head[n].(pinuse := true)])
  }

  lemma OccupiedOk(a: Arena, p: Addr)
    requires a.Ok() && a.IsFree(p)
    ensures a.Next(p) in a.head && Occupied(a, p).Ok() && Changes(a, Occupied(a, p), map[p := Used(a.Size(p))])
    ensures Occupied(a, p).InUse(a.Next(p)) && Occupied(a, p).Next(p) == a.Next(p)
  {
    assert a.ChunkOk(p) && a.ChunkOk(a.Next(p));
    var b := Occupied(a, p);
    forall x ensures b.ChunkOk(x) { assert a.ChunkOk(x) && a.BorderOk(a.Next(x)); }
    forall x ensures b.BorderOk(x) { assert a.BorderOk(x); }
    forall x, y ensures b.Apart(x, y) { assert a.Apart(x, y); }
  }

  /** A chunk in use is cut in two, both in use. */
  ghost function Split(a: Arena, p: Addr, nb: nat): Arena
    requires p in a.head && nb <= a.Size(p)
  {
    var r, n := p + nb, a.Next(p);
    a.(head := a.head[p := a.head[p].(size := nb)][r := Head(a.Size(p) - nb, true, true)],
       chunks := a.chunks + {r}, prev := a.prev[r := p][n := r])
  }

  lemma SplitOk(a: Arena, p: Addr, nb: nat)
    requires a.Ok() && a.InUse(p) && MIN_CHUNK_SIZE <= nb && nb % ALIGNMENT == 0 && nb + MIN_CHUNK_SIZE <= a.Size(p)
    ensures p + nb !in a.chunks && Split(a, p, nb).Ok()
  {
    assert a.ChunkOk(p) && a.BorderOk(p) && a.BorderOk(a.Next(p));
    var b, r := Split(a, p, nb), p + nb;
    assert a.Apart(p, r) && a.BorderOk(r);
    assert forall x {:trigger b.Size(x)} :: 
      b.Size(x) == if x == p then nb else if x == r then a.Size(p) - nb else a.Size(x);
    forall x ensures b.ChunkOk(x) { SplitChunk(a, p, nb, x); }
    forall x ensures b.BorderOk(x) { SplitBorder(a, p, nb, x); }
    forall x, y ensures b.Apart(x, y) { assert a.Apart(x, y) && a.Apart(p, y) && a.Apart(x, p) && a.Apart(p, x); }
  }

  lemma SplitChunk(a: Arena, p: Addr, nb: nat, x: Addr)
    requires a.Ok() && a.InUse(p) && MIN_CHUNK_SIZE <= nb && nb % ALIGNMENT == 0 && nb + MIN_CHUNK_SIZE <= a.Size(p)
    requires p + nb !in a.chunks && p + nb != a.top
    ensures Split(a, p, nb).ChunkOk(x)
  {
    assert a.ChunkOk(p) && a.BorderOk(a.Next(p)) && a.ChunkOk(x) && a.Apart(x, p) && a.Apart(p, x);
    if x in a.chunks { assert a.BorderOk(a.Next(x)); }
  }

  lemma SplitBorder(a: Arena, p: Addr, nb: nat, x: Addr)
    requires a.Ok() && a.InUse(p) && MIN_CHUNK_SIZE <= nb && nb % ALIGNMENT == 0 && nb + MIN_CHUNK_SIZE <= a.Size(p)
    requires p + nb !in a.chunks && p + nb != a.top
    ensures Split(a, p, nb).BorderOk(x)
  {
    assert a.ChunkOk(p) && a.BorderOk(p) && a.BorderOk(x);
  }

  lemma SplitChanges(a: Arena, p: Addr, nb: nat)
    requires a.InUse(p) && 0 < nb <= a.Size(p)
    ensures Changes(a, Split(a, p, nb), map[p := Used(nb), p + nb := Used(a.Size(p) - nb)])
  {}

  /** Two neighbours in use become one. */
  ghost function Joined(a: Arena, p: Addr): Arena
    requires p in a.head && a.Next(p) in a.head
  {
    var n := a.Next(p);
    a.(head := a.head[p := a.head[p].(size := a.Size(p) + a.Size(n))], chunks := a.chunks - {n},
       prev := a.prev[n + a.Size(n) := p])
  }

  lemma JoinedOk(a: Arena, p: Addr)
    requires a.Ok() && a.InUse(p) && a.InUse(a.Next(p))
    ensures Joined(a, p).Ok()
    ensures Changes(a, Joined(a, p), map[p := Used(a.Size(p) + a.Size(a.Next(p))), a.Next(p) := Nothing])
  {
    var n := a.Next(p);
    assert a.ChunkOk(p) && a.ChunkOk(n) && a.BorderOk(p) && a.BorderOk(n) && a.BorderOk(a.Next(n));
    var b := Joined(a, p);
    forall x ensures b.ChunkOk(x) { assert a.ChunkOk(x) && a.Apart(p, x) && a.Apart(n, x); }
    forall x ensures b.BorderOk(x) { assert a.BorderOk(x); }
    forall x, y ensures b.Apart(x, y) { assert a.Apart(x, y) && a.Apart(n, y) && a.Apart(x, n); }
  }

  /** A chunk in use between chunks in use becomes free. */
  ghost function Vacated(a: Arena, p: Addr): Arena
    requires p in a.head && a.Next(p) in a.head
  {
    var n := a.Next(p);
    a.(head := a.head[p := a.head[p].(cinuse := false)][n := a.head[n].(pinuse := false)],
      foot := a.foot[n := a.Size(p)])
  }

  lemma VacatedOk(a: Arena, p: Addr)
    requires a.Ok() && a.InUse(p) && a.head[p].pinuse && a.InUse(a.Next(p))
    ensures Vacated(a, p).Ok() && Changes(a, Vacated(a, p), map[p := Vacant(a.Size(p))])
  {
    var n := a.Next(p);
    assert a.ChunkOk(p) && a.ChunkOk(n) && a.BorderOk(n) && a.BorderOk(p);
    var b := Vacated(a, p);
    forall x ensures b.ChunkOk(x) { assert a.ChunkOk(x) && a.BorderOk(a.Next(x)); }
    forall x ensures b.BorderOk(x) { assert a.BorderOk(x); }
    forall x, y ensures b.Apart(x, y) { assert a.Apart(x, y); }
  }

  /** The front of the top chunk is put to use. */
  ghost function TopTaken(a: Arena, nb: nat): Arena
    requires nb <= a.topsize
  {
    var p, r := a.top, a.top + nb;
    Arena(a.head[r := Head(a.topsize - nb, true, false)][p := Head(nb, true, true)], a.foot, a.chunks + {p},
      a.prev[r := p],
          a.base, r, a.topsize - nb)
  }

  lemma TopTakenOk(a: Arena, nb: nat)
    requires a.Ok() && MIN_CHUNK_SIZE <= nb <= a.topsize && nb % ALIGNMENT == 0
    ensures a.top !in a.chunks && TopTaken(a, nb).Ok() && Changes(a, TopTaken(a, nb), map[a.top := Used(nb)])
  {
    assert a.BorderOk(a.top) && a.ChunkOk(a.top);
    var b := TopTaken(a, nb);
    assert forall x | x in a.chunks ::
      x != a.top + nb by { forall x | x in a.chunks ensures x != a.top + nb { assert a.ChunkOk(x); } }
    forall x ensures b.ChunkOk(x) { assert a.ChunkOk(x) && a.BorderOk(x); }
    forall x ensures b.BorderOk(x) { assert a.BorderOk(x) && a.ChunkOk(x); }
    forall x, y ensures b.Apart(x, y) { assert a.Apart(x, y) && a.ChunkOk(x) && a.ChunkOk(y); }
  }

  /** The last chunk, in use, falls to the top chunk. */
  ghost function TopJoined(a: Arena, p: Addr): Arena
    requires p in a.head
  {
    Arena(a.head[p := Head(a.Size(p) + a.topsize, true, false)], a.foot, a.chunks - {p}, a.prev, a.base, p,
      a.Size(p) + a.topsize)
  }

  lemma TopJoinedOk(a: Arena, p: Addr)
    requires a.Ok() && a.InUse(p) && a.head[p].pinuse && a.Next(p) == a.top
    ensures TopJoined(a, p).Ok() && Changes(a, TopJoined(a, p), map[p := Nothing])
  {
    assert a.ChunkOk(p) && a.BorderOk(p) && a.BorderOk(a.top);
    var b := TopJoined(a, p);
    forall x ensures b.ChunkOk(x) { assert a.ChunkOk(x) && a.BorderOk(x) && a.Apart(x, p) && a.Apart(p, x); }
    forall x ensures b.BorderOk(x) { assert a.BorderOk(x) && a.ChunkOk(x) && a.Apart(p, x); }
    forall x, y ensures b.Apart(x, y) { assert a.Apart(x, y); }
  }

  /** The top chunk grows or shrinks at its end. */
  ghost function TopResized(a: Arena, size: nat): Arena {
    a.(head := a.head[a.top := Head(size, true, false)], topsize := size)
  }

  lemma TopResizedOk(a: Arena, size: nat)
    requires a.Ok()
    ensures TopResized(a, size).Ok() && Changes(a, TopResized(a, size), map[])
  {
    var b := TopResized(a, size);
    assert a.BorderOk(a.top) && a.ChunkOk(a.top);
    forall x ensures b.ChunkOk(x) { assert a.ChunkOk(x) && a.BorderOk(x); }
    forall x ensures b.BorderOk(x) {
      assert a.BorderOk(x);
      if a.Border(x) && x != b.base { assert a.ChunkOk(a.prev[x]); }
    }
    forall x, y ensures b.Apart(x, y) { assert a.Apart(x, y) && a.ChunkOk(x) && a.ChunkOk(y); }
  }

  // ---------- Serving a request from a free chunk ----------

  /** The front of a free chunk is put to use and the rest stays free. */
  ghost function Carved(a: Arena, p: Addr, nb: nat): Arena
    requires p in a.head && nb <= a.Size(p)
  {
    var r, n := p + nb, a.Next(p);
    a.(head := a.head[p := Head(nb, true, true)][r := Head(a.Size(p) - nb, true, false)],
       foot := a.foot[n := a.Size(p) - nb], chunks := a.chunks + {r}, prev := a.prev[r := p][n := r])
  }

  lemma CarvedOk(a: Arena, p: Addr, nb: nat)
    requires a.Ok() && a.IsFree(p) && MIN_CHUNK_SIZE <= nb && nb % ALIGNMENT == 0 && nb + MIN_CHUNK_SIZE <= a.Size(p)
    ensures p + nb !in a.chunks && Carved(a, p, nb).Ok()
    ensures Changes(a, Carved(a, p, nb), map[p := Used(nb), p + nb := Vacant(a.Size(p) - nb)])
  {
    var s, r, n := a.Size(p), p + nb, a.Next(p);
    assert a.ChunkOk(p);
    OccupiedOk(a, p);
    var b := Occupied(a, p);
    SplitOk(b, p, nb);
    SplitChanges(b, p, nb);
    var c := Split(b, p, nb);
    VacatedOk(c, r);
    var d := Vacated(c, r);
    assert d.head == Carved(a, p, nb).head;
    assert d == Carved(a, p, nb);
  }

  // ---------- Giving a chunk back ----------

  /** Only the words that count are compared: the headers of chunks and of the top chunk. */
  ghost predicate Agree(a: Arena, b: Arena) {
    && b == a.(head := b.head)
    && forall p {:trigger a.Border(p)} :: a.Border(p) && p in a.head ==> p in b.head && b.head[p] == a.head[p]
  }

  lemma AgreeOk(a: Arena, b: Arena)
    requires a.Ok() && Agree(a, b)
    ensures b.Ok() && Changes(a, b, map[])
  {
    assert a.Border(a.top);
    forall x ensures b.ChunkOk(x) {
      assert a.ChunkOk(x) && a.BorderOk(x);
      if x in a.chunks { assert a.Border(x) && a.Border(a.Next(x)) && a.BorderOk(a.Next(x)); }
    }
    forall x ensures b.BorderOk(x) {
      assert a.BorderOk(x);
      if a.Border(x) && x != a.base { assert a.Border(a.prev[x]) && a.BorderOk(a.prev[x]); }
    }
    forall x, y ensures b.Apart(x, y) {
      assert a.Apart(x, y);
      if x in a.chunks { assert a.Border(x) && a.ChunkOk(x); }
    }
    forall x ensures b.Stat(x) == a.Stat(x) { if x in a.chunks { assert a.Border(x) && a.BorderOk(x); } }
  }

  /** A chunk in use takes over the free chunk before it. */
  ghost function TookBack(a: Arena, q: Addr): Arena
    requires q in a.head && a.Next(q) in a.head && a.Size(q) > 0
  {
    Joined(Occupied(a, q), q)
  }

  lemma TookBackOk(a: Arena, p: Addr)
    requires a.Ok() && a.InUse(p) && !a.head[p].pinuse
    ensures p in a.foot
    ensures var q := p - a.foot[p];
      && a.IsFree(q) && a.Size(q) == a.foot[p] && a.Next(q) == p && a.Size(q) > 0 && a.base <= q < p
      && TookBack(a, q).Ok() && TookBack(a, q).InUse(q) && TookBack(a, q).head[q].pinuse
      && TookBack(a, q).Next(q) == a.Next(p)
      && Changes(a, TookBack(a, q), map[q := Used(a.Size(q) + a.Size(p)), p := Nothing])
  {
    assert a.BorderOk(p);
    var q := a.prev[p];
    assert a.ChunkOk(q) && a.ChunkOk(p) && a.BorderOk(q);
    OccupiedOk(a, q);
    var b := Occupied(a, q);
    JoinedOk(b, q);
    ChangesTwice(a, b, Joined(b, q), map[q := Used(a.Size(q))], map[q := Used(a.Size(q) + a.Size(p)), p := Nothing]);
    assert map[q := Used(a.Size(q))] + map[q := Used(a.Size(q) + a.Size(p)), p := Nothing] ==
      map[q := Used(a.Size(q) + a.Size(p)), p := Nothing];
  }

  /** A chunk in use takes over the free chunk after it. */
  ghost function TookNext(a: Arena, p: Addr): Arena
    requires p in a.head && a.Next(p) in a.head && a.Next(a.Next(p)) in a.head && a.Size(p) > 0 && a.Size(a.Next(p)) > 0
  {
    Joined(Occupied(a, a.Next(p)), p)
  }

  lemma TookNextOk(a: Arena, p: Addr)
    requires a.Ok() && a.InUse(p) && a.IsFree(a.Next(p))
    ensures var n := a.Next(p);
      && a.Next(n) in a.head && a.Size(p) > 0 && a.Size(n) > 0 && n != a.top
      && TookNext(a, p).Ok() && TookNext(a, p).InUse(p) && TookNext(a, p).head[p].pinuse == a.head[p].pinuse
      && TookNext(a, p).Next(p) == a.Next(n) && TookNext(a, p).InUse(a.Next(n))
      && Changes(a, TookNext(a, p), map[p := Used(a.Size(p) + a.Size(n)), n := Nothing])
  {
    var n := a.Next(p);
    assert a.ChunkOk(p) && a.ChunkOk(n) && a.BorderOk(n);
    OccupiedOk(a, n);
    var b := Occupied(a, n);
    JoinedOk(b, p);
    ChangesTwice(a, b, Joined(b, p), map[n := Used(a.Size(n))], map[p := Used(a.Size(p) + a.Size(n)), n := Nothing]);
    assert map[n := Used(a.Size(n))] + map[p := Used(a.Size(p) + a.Size(n)), n := Nothing] ==
      map[p := Used(a.Size(p) + a.Size(n)), n := Nothing];
  }

  /** Where the free chunk starts and ends that a chunk given back becomes part of. */
  ghost function Lo(a: Arena, p: Addr): Addr {
    if p in a.head && !a.head[p].pinuse && p in a.foot then p - a.foot[p] else p
  }

  ghost function Hi(a: Arena, p: Addr): Addr {
    if a.IsFree(a.Next(p)) then a.Next(a.Next(p)) else a.Next(p)
  }

  ghost function FreeMap(a: Arena, p: Addr): map<Addr, Status> {
    map[a.Next(p) := if a.IsFree(a.Next(p)) then Nothing else a.Stat(a.Next(p)), p := Nothing]
      [Lo(a, p) := Vacant(if Hi(a, p) >= Lo(a, p) then Hi(a, p) - Lo(a, p) else 0)]
  }

  lemma GatherBack(a: Arena, p: Addr) returns (b: Arena)
    requires a.Ok() && a.InUse(p)
    ensures var lo := Lo(a, p);
      && b.Ok() && b.InUse(lo) && b.head[lo].pinuse && b.Next(lo) == a.Next(p) && lo <= p
      && b == Arena(b.head, a.foot, b.chunks, b.prev, a.base, a.top, a.topsize)
      && (lo != p ==> a.IsFree(lo) && a.Next(lo) == p && a.Size(lo) == p - lo && a.base <= lo)
      && (forall x {:trigger b.Border(x)} :: b.Border(x) && x != lo ==>
        a.Border(x) && x in b.head && x in a.head && b.head[x] == a.head[x])
      && Changes(a, b, map[p := Nothing][lo := Used(a.Next(p) - lo)])
  {
    if a.head[p].pinuse {
      b := a;
    } else {
      TookBackOk(a, p);
      b := TookBack(a, p - a.foot[p]);
    }
    forall x | b.Border(x) && x != Lo(a, p)
      ensures a.Border(x) && x in b.head && x in a.head && b.head[x] == a.head[x] {
      assert a.BorderOk(x);
    }
    assert a.ChunkOk(p);
  }

  /** After the backward step the chunk after it is as it was. */
  lemma NextAfterBack(a: Arena, b: Arena, p: Addr)
    requires a.Ok() && a.InUse(p) && a.Next(p) != a.top && b.Ok() && b.top == a.top
    requires Changes(a, b, map[p := Nothing][Lo(a, p) := Used(a.Next(p) - Lo(a, p))]) && Lo(a, p) <= p
    ensures b.Stat(a.Next(p)) == a.Stat(a.Next(p)) && a.Next(p) in a.chunks && a.Next(p) in b.chunks
    ensures a.IsFree(a.Next(p)) <==> b.IsFree(a.Next(p))
  {
    var n := a.Next(p);
    assert a.ChunkOk(p) && a.ChunkOk(n);
    assert b.Stat(n) == a.Stat(n);
  }

  lemma Freed(a: Arena, p: Addr) returns (c: Arena)
    requires a.Ok() && a.InUse(p) && a.Next(p) != a.top
    ensures var lo, hi := Lo(a, p), Hi(a, p);
      && lo <= p < hi && c.Ok() && Changes(a, c, FreeMap(a, p))
      && c == Arena(c.head, a.foot[hi := hi - lo], c.chunks, c.prev, a.base, a.top, a.topsize)
      && c.Border(lo) && c.Border(hi) && lo in c.head && hi in c.head && hi in a.head
      && c.head[lo] == Head(hi - lo, true, false) && c.head[hi] == a.head[hi].(pinuse := false)
      && (forall x {:trigger c.Border(x)} :: c.Border(x) && x != lo && x != hi ==>
        a.Border(x) && x in c.head && x in a.head && c.head[x] == a.head[x])
    ensures Lo(a, p) != p ==> a.IsFree(Lo(a, p)) && a.Size(Lo(a, p)) == p - Lo(a, p)
  {
    var lo, hi, n := Lo(a, p), Hi(a, p), a.Next(p);
    var b := GatherBack(a, p);
    var m := map[p := Nothing][lo := Used(n - lo)];
    NextAfterBack(a, b, p);
    assert a.ChunkOk(p) && a.ChunkOk(n);
    var g := b;
    if b.IsFree(n) {
      TookNextOk(b, lo);
      g := TookNext(b, lo);
      assert b.ChunkOk(n) && b.Size(n) == a.Size(n);
      ChangesTwice(a, b, g, m, map[lo := Used(hi - lo), n := Nothing]);
    }
    assert g.ChunkOk(lo);
    VacatedOk(g, lo);
    c := Vacated(g, lo);
    assert c.ChunkOk(lo);
    assert b.Border(hi) by { assert b.ChunkOk(n) && b.ChunkOk(lo); }
    forall x | c.Border(x) && x != lo && x != hi
      ensures a.Border(x) && x in c.head && x in a.head && c.head[x] == a.head[x] {
      assert b.Border(x);
    }
    FreedChanges(a, g, c, p);
  }

  lemma FreedChanges(a: Arena, g: Arena, c: Arena, p: Addr)
    requires Changes(g, c, map[Lo(a, p) := Vacant(Hi(a, p) - Lo(a, p))]) && Lo(a, p) <= p < a.Next(p) <= Hi(a, p)
    requires
      if a.IsFree(a.Next(p)) then
        Changes(a, g, map[p := Nothing][Lo(a, p) := Used(a.Next(p) - Lo(a, p))] +
                      map[Lo(a, p) := Used(Hi(a, p) - Lo(a, p)), a.Next(p) := Nothing])
      else Changes(a, g, map[p := Nothing][Lo(a, p) := Used(a.Next(p) - Lo(a, p))])
    ensures Changes(a, c, FreeMap(a, p))
  {
    forall x ensures c.Stat(x) == if x in FreeMap(a, p) then FreeMap(a, p)[x] else a.Stat(x) {
      assert g.Stat(x) == g.Stat(x);
    }
  }

  /** A chunk before the top chunk falls to it, with the free chunk before it. */
  lemma FreedToTop(a: Arena, p: Addr) returns (c: Arena)
    requires a.Ok() && a.InUse(p) && a.Next(p) == a.top
    ensures var lo := Lo(a, p);
      && a.base <= lo <= p < a.top && c.Ok() && Changes(a, c, map[p := Nothing, lo := Nothing])
      && c == Arena(c.head, a.foot, c.chunks, c.prev, a.base, lo, a.topsize + (a.top - lo))
      && lo in c.head && c.head[lo] == Head(c.topsize, true, false) && lo % ALIGNMENT == 0
      && (forall x {:trigger c.Border(x)} :: c.Border(x) && x != lo ==>
        a.Border(x) && x in c.head && x in a.head && c.head[x] == a.head[x])
    ensures Lo(a, p) != p ==> a.IsFree(Lo(a, p)) && a.Size(Lo(a, p)) == p - Lo(a, p)
  {
    var lo := Lo(a, p);
    var b := GatherBack(a, p);
    assert a.ChunkOk(p) && b.ChunkOk(lo);
    TopJoinedOk(b, lo);
    c := TopJoined(b, lo);
    assert c.BorderOk(lo) && b.BorderOk(lo);
    ChangesTwice(a, b, c, map[p := Nothing][lo := Used(a.Next(p) - lo)], map[lo := Nothing]);
    assert map[p := Nothing][lo := Used(a.Next(p) - lo)] + map[lo := Nothing] == map[p := Nothing, lo := Nothing];
    forall x | c.Border(x) && x != lo ensures a.Border(x) && x in c.head && x in a.head && c.head[x] == a.head[x] {
      assert b.Border(x);
    }
  }

  // ---------- What the caller sees ----------

  /** The bytes that the owner of a chunk in use may write: up to the header of the next chunk. */
  ghost predicate InBlock(a: Arena, p: Addr, x: Addr) { p + 16 <= x < p + a.Size(p) + 8 }

  /** Blocks in use do not overlap, and no block covers the header of any chunk, the top chunk's included. */
  lemma BlocksApart(a: Arena, p: Addr, q: Addr, x: Addr)
    requires a.Ok() && a.InUse(p) && InBlock(a, p, x)
    ensures a.InUse(q) && q != p ==> !InBlock(a, q, x)
    ensures a.Border(q) ==> !(q + 8 <= x < q + 16)
    ensures a.base + 16 <= x < a.top + 8
  {
    assert a.ChunkOk(p) && a.ChunkOk(q) && a.BorderOk(q) && a.Apart(p, q) && a.Apart(q, p);
  }

  /** Every byte below the top chunk belongs to a chunk. */
  lemma {:induction false} NoGaps(a: Arena, x: Addr, border: Addr) returns (p: Addr)
    requires a.Ok() && a.Border(border) && a.base <= x < border
    ensures p in a.chunks && p <= x < a.Next(p)
    decreases border - a.base
  {
    assert a.BorderOk(border);
    p := a.prev[border];
    assert a.ChunkOk(p);
    if x < p { p := NoGaps(a, x, p); }
  }
}
