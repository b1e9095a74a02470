/** Where the free chunks are kept: in a small bin, in a tree bin, or as the designated victim. */
module Places {
  import opened Chunks
  import S = SmallBins
  import T = TreeBins

  /** The contents of the bins, and the chunk that is preferred for the next small request. */
  datatype Places = Places(small: map<Addr, nat>, large: map<Addr, nat>, dv: Addr, dvsize: nat) {

    ghost predicate IsDv(x: Addr) { dvsize > 0 && x == dv }

    ghost predicate Nowhere(x: Addr) { !IsDv(x) && x !in small && x !in large }

    /** A free chunk is in exactly one place, with its size; nothing else is in any. */
    ghost predicate Placed(st: Status, x: Addr) {
      match st
      case Vacant(s) =>
        if IsDv(x) then dvsize == s && x !in small && x !in large
        else if x in small then small[x] == s && S.SmallSize(s) && x !in large
        else x in large && large[x] == s && T.LargeSize(s)
      case _ => Nowhere(x)
    }
  }

  ghost predicate PlacedBut(a: Arena, b: Places, e: set<Addr>, x: Addr) {
    if x in e then b.Nowhere(x) else b.Placed(a.Stat(x), x)
  }

  /** All free chunks are in their places, except those in `e`, which are in none. */
  ghost predicate AllBut(a: Arena, b: Places, e: set<Addr>) {
    forall x {:trigger PlacedBut(a, b, e, x)} :: PlacedBut(a, b, e, x)
  }

  lemma TakeSmall(a: Arena, b: Places, e: set<Addr>, p: Addr)
    requires AllBut(a, b, e) && p in b.small
    ensures AllBut(a, b.(small := b.small - {p}), e + {p})
  {
    var b', e' := b.(small := b.small - {p}), e + {p};
    forall x ensures PlacedBut(a, b', e', x) { assert PlacedBut(a, b, e, x); }
  }

  lemma TakeLarge(a: Arena, b: Places, e: set<Addr>, p: Addr)
    requires AllBut(a, b, e) && p in b.large
    ensures AllBut(a, b.(large := b.large - {p}), e + {p})
  {
    var b', e' := b.(large := b.large - {p}), e + {p};
    forall x ensures PlacedBut(a, b', e', x) { assert PlacedBut(a, b, e, x); }
  }

  lemma TakeDv(a: Arena, b: Places, e: set<Addr>, dv: Addr)
    requires AllBut(a, b, e) && b.dvsize > 0
    ensures AllBut(a, b.(dv := dv, dvsize := 0), e + {b.dv})
  {
    var b', e' := b.(dv := dv, dvsize := 0), e + {b.dv};
    forall x ensures PlacedBut(a, b', e', x) { assert PlacedBut(a, b, e, x); }
  }

  lemma PutSmall(a: Arena, b: Places, e: set<Addr>, p: Addr, s: nat)
    requires AllBut(a, b, e) && p in e && a.Stat(p) == Vacant(s) && S.SmallSize(s)
    ensures AllBut(a, b.(small := b.small[p := s]), e - {p})
  {
    var b', e' := b.(small := b.small[p := s]), e - {p};
    forall x ensures PlacedBut(a, b', e', x) { assert PlacedBut(a, b, e, x); }
  }

  lemma PutLarge(a: Arena, b: Places, e: set<Addr>, p: Addr, s: nat)
    requires AllBut(a, b, e) && p in e && a.Stat(p) == Vacant(s) && T.LargeSize(s)
    ensures AllBut(a, b.(large := b.large[p := s]), e - {p})
  {
    var b', e' := b.(large := b.large[p := s]), e - {p};
    forall x ensures PlacedBut(a, b', e', x) { assert PlacedBut(a, b, e, x); }
  }

  lemma PutDv(a: Arena, b: Places, e: set<Addr>, p: Addr, s: nat)
    requires AllBut(a, b, e) && p in e && a.Stat(p) == Vacant(s) && s > 0 && b.dvsize == 0
    ensures AllBut(a, b.(dv := p, dvsize := s), e - {p})
  {
    var b', e' := b.(dv := p, dvsize := s), e - {p};
    forall x ensures PlacedBut(a, b', e', x) { assert PlacedBut(a, b, e, x); }
  }

  /** A new victim; the old one, if there was one, goes to a small bin. */
  lemma VictimReplaced(a: Arena, b: Places, p: Addr, s: nat)
    requires AllBut(a, b, {p}) && a.Stat(p) == Vacant(s) && s > 0 && (b.dvsize > 0 ==> S.SmallSize(b.dvsize))
    ensures AllBut(a, Places(if b.dvsize > 0 then b.small[b.dv := b.dvsize] else b.small, b.large, p, s), {})
    ensures b.dvsize > 0 ==> b.dv !in b.small && a.Stat(b.dv) == Vacant(b.dvsize)
  {
    assert PlacedBut(a, b, {p}, b.dv);
    var b', e := Places(if b.dvsize > 0 then b.small[b.dv := b.dvsize] else b.small, b.large, p, s), {};
    forall x ensures PlacedBut(a, b', e, x) { assert PlacedBut(a, b, {p}, x); }
  }

  lemma VictimGone(a: Arena, b: Places, dv: Addr)
    requires AllBut(a, b, {}) && b.dvsize == 0
    ensures AllBut(a, b.(dv := dv), {})
  {
    var b', e := b.(dv := dv), {};
    forall x ensures PlacedBut(a, b', e, x) { assert PlacedBut(a, b, {}, x); }
  }

  /** A free victim is a chunk of its size. */
  lemma VictimIsFree(a: Arena, b: Places, e: set<Addr>)
    requires AllBut(a, b, e) && b.dvsize > 0
    ensures a.Stat(b.dv) == Vacant(b.dvsize)
  {
    assert PlacedBut(a, b, e, b.dv);
  }

  /** The row of chunks changes at addresses that are in no place. */
  lemma ChunksChange(a: Arena, a': Arena, b: Places, m: map<Addr, Status>, e: set<Addr>, e': set<Addr>)
    requires AllBut(a, b, e) && Changes(a, a', m)
    requires forall x {:trigger x in m} :: x in m ==> x in e || !a.Stat(x).Vacant?
    requires forall x {:trigger x in m} :: x in m && m[x].Vacant? ==> x in e'
    requires forall x {:trigger x in e} :: x in e ==> x in m || x in e'
    requires forall x {:trigger x in e'} :: x in e' ==> x in e || x in m
    ensures AllBut(a', b, e')
  {
    forall x ensures PlacedBut(a', b, e', x) { assert PlacedBut(a, b, e, x) && a'.Stat(x) == a'.Stat(x); }
  }

  /** One block more: `p` was not in use and has at least `nb` bytes now, with less waste than a chunk would take. */
  ghost predicate Allocates(a: Arena, a': Arena, p: Addr, nb: nat) {
    && !a.Stat(p).Used? && a'.Stat(p).Used? && nb <= a'.Stat(p).size < nb + MIN_CHUNK_SIZE
    && Same(a, a', p)
  }

  /** The block comes from a free chunk that is large enough. */
  ghost predicate Carves(a: Arena, a': Arena, p: Addr, nb: nat) {
    Allocates(a, a', p, nb) && a.Stat(p).Vacant? && nb <= a.Stat(p).size
  }

  /** The blocks in use are the same but for the one at `p`. */
  ghost predicate Same(a: Arena, a': Arena, p: Addr) {
    a'.base == a.base && forall x {:trigger StaysUsed(a, a', x)} :: x == p || StaysUsed(a, a', x)
  }

  ghost predicate StaysUsed(a: Arena, a': Arena, x: Addr) {
    a.Stat(x).Used? || a'.Stat(x).Used? ==> a'.Stat(x) == a.Stat(x)
  }

  lemma ChangesKeep(a: Arena, a': Arena, m: map<Addr, Status>, p: Addr)
    requires Changes(a, a', m)
    requires forall x {:trigger x in m} :: x in m && x != p ==> !m[x].Used? && !a.Stat(x).Used?
    ensures Same(a, a', p)
  {
    forall x ensures x == p || StaysUsed(a, a', x) { assert a'.Stat(x) == a'.Stat(x); }
  }

  /** No free chunk could have served the request. */
  ghost predicate NoneFits(a: Arena, nb: nat) {
    forall x {:trigger a.Stat(x)} :: a.Stat(x).Vacant? ==> a.Stat(x).size < nb
  }

  lemma NoneFitsFrom(a: Arena, b: Places, nb: nat)
    requires AllBut(a, b, {}) && (forall x {:trigger x in b.small} :: x in b.small ==> b.small[x] < nb)
    requires (forall x {:trigger x in b.large} :: x in b.large ==> b.large[x] < nb) && b.dvsize < nb
    ensures NoneFits(a, nb)
  {
    forall x ensures a.Stat(x).Vacant? ==> a.Stat(x).size < nb { assert PlacedBut(a, b, {}, x); }
  }

  /**
    A request of `nb` bytes is cut from a smallest free chunk that fits, and from the top chunk only when none does.
    The designated victim is also taken for a small request when no chunk has exactly its size.
   */
  ghost predicate Prefers(a: Arena, b: Places, p: Addr, nb: nat) {
    if a.Stat(p).Vacant? then
      && nb <= a.Stat(p).size
      && forall x {:trigger a.Stat(x)} :: a.Stat(x).Vacant? && nb <= a.Stat(x).size ==>
           a.Stat(p).size <= a.Stat(x).size || (b.IsDv(p) && nb < S.SMALL_LIMIT && a.Stat(x).size != nb)
    else NoneFits(a, nb)
  }

  // ---------- Where chunks go ----------

  /** The places without `p`. */
  ghost function Left(b: Places, p: Addr): Places {
    Places(b.small - {p}, b.large - {p}, if b.IsDv(p) then 0 else b.dv, if b.IsDv(p) then 0 else b.dvsize)
  }

  /** The places with `p` in the bin of its size. */
  ghost function Binned(b: Places, p: Addr, s: nat): Places {
    if s < S.SMALL_LIMIT then b.(small := b.small[p := s]) else b.(large := b.large[p := s])
  }

  /** The places with `p` as the designated victim, and the old one in a small bin. */
  ghost function Promoted(b: Places, p: Addr, s: nat): Places {
    Places(if b.dvsize > 0 then b.small[b.dv := b.dvsize] else b.small, b.large, p, s)
  }

  /**
    The places after `nb` bytes were cut from `p`. A remainder that can be a chunk becomes the designated victim, except
    that the remainder of a tree chunk cut for a large request goes to its bin. The top chunk is in no place.
   */
  ghost function AfterServing(a: Arena, b: Places, p: Addr, nb: nat): Places {
    if !a.Stat(p).Vacant? then b
    else if a.Stat(p).size < nb + MIN_CHUNK_SIZE then Left(b, p)
    else if nb >= S.SMALL_LIMIT && !b.IsDv(p) then Binned(Left(b, p), p + nb, a.Stat(p).size - nb)
    else Promoted(Left(b, p), p + nb, a.Stat(p).size - nb)
  }

  /**
    The places after the chunk `p` was given back. What it became is the designated victim if that was a neighbour,
    and in the bin of its size otherwise, unless it is part of the top chunk.
   */
  ghost function AfterFreeing(a: Arena, b: Places, p: Addr): Places {
    var lo, hi, next := Lo(a, p), Hi(a, p), a.Next(p);
    if next == a.top then Left(b, lo)
    else
      var rest := Left(Left(b, lo), next);
      if b.IsDv(lo) || b.IsDv(next) then rest.(dv := lo, dvsize := hi - lo) else Binned(rest, lo, hi - lo)
  }

  /** New memory is used when nothing fits, and concerns no place. */
  lemma FromNowhere(a: Arena, b: Places, p: Addr, nb: nat)
    requires a.Stat(p) == Nothing && NoneFits(a, nb)
    ensures Prefers(a, b, p, nb) && AfterServing(a, b, p, nb) == b
  {}

  /** Least among what fits. */
  ghost predicate LeastOf(sizes: map<Addr, nat>, z: nat, nb: nat) {
    forall x {:trigger x in sizes} :: x in sizes && nb <= sizes[x] ==> z <= sizes[x]
  }

  lemma PrefersLeast(a: Arena, b: Places, p: Addr, z: nat, nb: nat)
    requires AllBut(a, b, {}) && a.Stat(p) == Vacant(z) && nb <= z && (nb <= b.dvsize ==> z <= b.dvsize)
    requires LeastOf(b.small, z, nb) && LeastOf(b.large, z, nb)
    ensures Prefers(a, b, p, nb)
  {
    forall x | a.Stat(x).Vacant? && nb <= a.Stat(x).size ensures z <= a.Stat(x).size { assert PlacedBut(a, b, {}, x); }
  }

  lemma PrefersVictim(a: Arena, b: Places, nb: nat)
    requires AllBut(a, b, {}) && 0 < nb <= b.dvsize
    requires if nb < S.SMALL_LIMIT then forall x {:trigger x in b.small} :: x in b.small ==> b.small[x] != nb
             else LeastOf(b.small, b.dvsize, nb) && LeastOf(b.large, b.dvsize, nb)
    ensures Prefers(a, b, b.dv, nb)
  {
    VictimIsFree(a, b, {});
    forall x | a.Stat(x).Vacant? && nb <= a.Stat(x).size
      ensures b.dvsize <= a.Stat(x).size || (nb < S.SMALL_LIMIT && a.Stat(x).size != nb)
    {
      assert PlacedBut(a, b, {}, x);
    }
  }

  /** The free neighbours of a chunk that is given back. */
  ghost function FreeNeighbours(a: Arena, p: Addr): set<Addr> {
    (if Lo(a, p) != p then {Lo(a, p)} else {}) + (if a.IsFree(a.Next(p)) then {a.Next(p)} else {})
  }

  /** With its free neighbours out of their places, the chunk can be made free; it is in no place yet. */
  lemma FreedPlaces(a: Arena, c: Arena, b: Places, p: Addr)
    requires a.InUse(p) && a.Next(p) in a.chunks && Changes(a, c, FreeMap(a, p)) && AllBut(a, b, FreeNeighbours(a, p))
    ensures AllBut(c, b, {Lo(a, p)})
  {
    var e := FreeNeighbours(a, p);
    forall x ensures PlacedBut(c, b, {Lo(a, p)}, x) { assert PlacedBut(a, b, e, x) && c.Stat(x) == c.Stat(x); }
  }

  lemma FreedToTopPlaces(a: Arena, c: Arena, b: Places, p: Addr)
    requires a.InUse(p) && Changes(a, c, map[p := Nothing, Lo(a, p) := Nothing])
    requires AllBut(a, b, if Lo(a, p) != p then {Lo(a, p)} else {})
    ensures AllBut(c, b, {})
  {
    var e, e' := if Lo(a, p) != p then {Lo(a, p)} else {}, {};
    forall x ensures PlacedBut(c, b, e', x) { assert PlacedBut(a, b, e, x) && c.Stat(x) == c.Stat(x); }
  }

  /** A chunk that is in no bin leaves the bins as they are. */
  lemma LeftNothing(b: Places, p: Addr)
    requires p !in b.small && p !in b.large
    ensures Left(b, p) == if b.IsDv(p) then b.(dv := 0, dvsize := 0) else b
  {
    assert b.small - {p} == b.small && b.large - {p} == b.large;
  }

  /** The places once the free chunk before has left its bin; the designated victim stays where it is. */
  ghost function WithoutBack(a: Arena, b: Places, p: Addr): Places {
    if Lo(a, p) != p && !b.IsDv(Lo(a, p)) then Left(b, Lo(a, p)) else b
  }

  /** What is left to do then, case by case. */
  ghost function Ending(a: Arena, j: Places, p: Addr): Places {
    var lo, size, next := Lo(a, p), Hi(a, p) - Lo(a, p), a.Next(p);
    if next == a.top then (if j.IsDv(lo) then j.(dv := 0, dvsize := 0) else j)
    else if j.IsDv(next) then j.(dv := lo, dvsize := size)
    else
      var k := if a.IsFree(next) then Left(j, next) else j;
      if j.IsDv(lo) then k.(dvsize := size) else Binned(k, lo, size)
  }

  lemma EndingAfter(a: Arena, j: Places, p: Addr, psize: nat)
    requires Lo(a, p) + psize == a.Next(p) && a.IsFree(a.Next(p)) && a.Next(p) != a.top
    ensures var lo, size, next := Lo(a, p), psize + a.Size(a.Next(p)), a.Next(p);
      Ending(a, j, p) ==
        if j.IsDv(next) then j.(dv := lo, dvsize := size)
        else if j.IsDv(lo) then Left(j, next).(dvsize := size) else Binned(Left(j, next), lo, size)
  {}

  lemma FreeingEnds(a: Arena, b: Places, p: Addr)
    requires AllBut(a, b, {}) && a.InUse(p) && (Lo(a, p) != p ==> a.IsFree(Lo(a, p)))
    ensures AfterFreeing(a, b, p) == Ending(a, WithoutBack(a, b, p), p)
  {
    var lo, next := Lo(a, p), a.Next(p);
    assert PlacedBut(a, b, {}, p) && PlacedBut(a, b, {}, lo) && PlacedBut(a, b, {}, next);
    if lo == p || b.IsDv(lo) { LeftNothing(b, lo); }
    if b.IsDv(next) || !a.IsFree(next) { LeftNothing(Left(b, lo), next); }
  }

  /** One block less, and no other block changed. */
  ghost predicate Frees(a: Arena, a': Arena, p: Addr) { a.Stat(p).Used? && !a'.Stat(p).Used? && Same(a, a', p) }

  lemma FreedFrees(a: Arena, c: Arena, p: Addr)
    requires a.InUse(p) && (Lo(a, p) != p ==> a.IsFree(Lo(a, p)))
    requires Changes(a, c, FreeMap(a, p)) || Changes(a, c, map[p := Nothing, Lo(a, p) := Nothing])
    ensures Frees(a, c, p)
  {
    assert c.Stat(p) == c.Stat(p);
    forall x ensures x == p || StaysUsed(a, c, x) { assert c.Stat(x) == c.Stat(x); }
  }

  /** A block allocated and given back: the blocks in use are what they were. */
  lemma AllocateThenFree(a: Arena, b: Arena, c: Arena, p: Addr, nb: nat)
    requires Allocates(a, b, p, nb) && Frees(b, c, p)
    ensures forall x {:trigger StaysUsed(a, c, x)} :: StaysUsed(a, c, x)
  {
    forall x ensures StaysUsed(a, c, x) {
      if x != p { assert StaysUsed(a, b, x) && StaysUsed(b, c, x); }
    }
  }
}
