/**
  The kernel's allocator: a request is cut from a free chunk or from the top, a chunk given back joins its free
  neighbours.
 */
module Malloc {
  import opened Chunks
  import opened Places
  import B = BinMap
  import S = SmallBins
  import T = TreeBins
  import H = Heap
  import V = Vmm
  import Z = SizeBits
  import opened PageTables

  const TOP_FOOT_SIZE: nat := 80
  const SYS_ALLOC_PADDING: nat := 96
  const GRANULARITY: nat := 4096
  const MIN_REQUEST: nat := 23
  const MAX_SMALL_REQUEST: nat := 232
  const MAX_REQUEST: nat := 0xFFFF_FFFF_FFFF_FF80
  const HALF_MAX: nat := 0x7FFF_FFFF_FFFF_FFFF

  function PadRequest(bytes: nat): nat { (bytes + 23) / 16 * 16 }

  /** The chunk size for a request: room for the request and a header, aligned. */
  function Padded(bytes: nat): (nb: nat)
    ensures nb >= MIN_CHUNK_SIZE && nb % ALIGNMENT == 0 && bytes + 8 <= nb
    ensures nb < bytes + 24 || nb == MIN_CHUNK_SIZE
  {
    if bytes < MIN_REQUEST then MIN_CHUNK_SIZE else PadRequest(bytes)
  }

  lemma ChunkBounds(a: Arena, p: Addr)
    requires a.Ok() && a.base > 0 && p in a.chunks
    ensures p > 0 && MIN_CHUNK_SIZE <= a.Size(p) <= a.top - a.base && a.Size(p) % ALIGNMENT == 0 && p in a.head
  {
    assert a.ChunkOk(p);
  }

  lemma ChunkIsSomewhere(a: Arena, p: Addr)
    requires a.Ok() && a.base > 0 && a.Stat(p) != Nothing
    ensures p > 0
  {
    ChunkBounds(a, p);
  }

  /** A free chunk put to use as a whole. */
  lemma WholeServes(a: Arena, b: Places, p: Addr, nb: nat)
    requires a.Ok() && AllBut(a, b, {p}) && a.Stat(p).Vacant? && nb <= a.Stat(p).size < nb + MIN_CHUNK_SIZE
    ensures a.IsFree(p) && a.Next(p) in a.head && Occupied(a, p).Ok()
    ensures AllBut(Occupied(a, p), b, {}) && Allocates(a, Occupied(a, p), p, nb)
  {
    OccupiedOk(a, p);
    var m := map[p := Used(a.Size(p))];
    ChunksChange(a, Occupied(a, p), b, m, {p}, {});
    ChangesKeep(a, Occupied(a, p), m, p);
    assert Occupied(a, p).Stat(p) == m[p];
  }

  /** The front of a free chunk put to use. */
  lemma FrontServes(a: Arena, b: Places, p: Addr, nb: nat)
    requires a.Ok() && AllBut(a, b, {p}) && a.Stat(p).Vacant?
    requires MIN_CHUNK_SIZE <= nb && nb % ALIGNMENT == 0 && nb + MIN_CHUNK_SIZE <= a.Stat(p).size
    ensures a.IsFree(p) && Carved(a, p, nb).Ok() && AllBut(Carved(a, p, nb), b, {p + nb})
    ensures Carved(a, p, nb).Stat(p + nb) == Vacant(a.Stat(p).size - nb) && Allocates(a, Carved(a, p, nb), p, nb)
  {
    CarvedOk(a, p, nb);
    var m, c := map[p := Used(nb), p + nb := Vacant(a.Size(p) - nb)], Carved(a, p, nb);
    ChunksChange(a, c, b, m, {p}, {p + nb});
    ChangesKeep(a, c, m, p);
    assert c.Stat(p) == m[p] && c.Stat(p + nb) == m[p + nb];
  }

  lemma TopServes(a: Arena, b: Places, nb: nat)
    requires a.Ok() && AllBut(a, b, {}) && MIN_CHUNK_SIZE <= nb <= a.topsize && nb % ALIGNMENT == 0
    ensures TopTaken(a, nb).Ok() && AllBut(TopTaken(a, nb), b, {}) && Allocates(a, TopTaken(a, nb), a.top, nb)
  {
    TopTakenOk(a, nb);
    var m, c := map[a.top := Used(nb)], TopTaken(a, nb);
    ChunksChange(a, c, b, m, {}, {});
    ChangesKeep(a, c, m, a.top);
    assert c.Stat(a.top) == m[a.top];
  }

  /** Among those of at least `nb` bytes, `v` is a smallest. */
  ghost predicate IsLeast(sizes: map<Addr, nat>, v: Addr, nb: nat)
    requires v in sizes
  {
    nb <= sizes[v] && forall x {:trigger x in sizes} :: x in sizes && nb <= sizes[x] ==> sizes[v] <= sizes[x]
  }

  /** What a small request is served from: a bin of its size, a bin of larger chunks, the trees, or something else. */
  /** What a bin or the trees give for a small request is a smallest chunk that fits. */
  lemma PrefersSource(a: Arena, b: Places, p: Addr, nb: nat, source: Source)
    requires a.Ok() && a.base > 0 && AllBut(a, b, {}) && a.Stat(p).Vacant? && nb <= a.Stat(p).size
    requires MIN_CHUNK_SIZE <= nb <= 240 && nb % ALIGNMENT == 0 && !source.Elsewhere?
    requires source.ExactBin? ==> a.Stat(p).size == 8 * source.i <= nb + 8
    requires source.LargerBin? ==> a.Stat(p).size == 8 * source.i < S.SMALL_LIMIT && LeastOf(b.small, 8 * source.i, nb)
    requires source.SmallestTree? ==> LeastOf(b.small, S.SMALL_LIMIT, nb) && p in b.large && IsLeast(b.large, p, 0)
    requires !source.ExactBin? ==> b.dvsize < nb
    ensures Prefers(a, b, p, nb)
  {
    ChunkBounds(a, p);
    assert PlacedBut(a, b, {}, p);
    forall x | x in b.large ensures b.large[x] >= S.SMALL_LIMIT { assert PlacedBut(a, b, {}, x); }
    forall x | x in b.small ensures b.small[x] < S.SMALL_LIMIT { assert PlacedBut(a, b, {}, x); }
    PrefersLeast(a, b, p, a.Stat(p).size, nb);
  }

  datatype Source = ExactBin(i: nat) | LargerBin(i: nat) | SmallestTree | Elsewhere

  /** The bit tricks on the map of small bins: the bin `idx` or the next, else the first above that is not empty. */
  method PickBin(smallmap: B.Word, idx: nat) returns (source: Source)
    requires idx + 1 < B.BINS
    ensures !source.SmallestTree?
    ensures source.ExactBin? ==> idx <= source.i <= idx + 1 && B.Marked(smallmap, source.i)
    ensures source.LargerBin? ==> idx < source.i < B.BINS && B.Marked(smallmap, source.i)
    ensures source.LargerBin? ==> forall j: nat | idx <= j < source.i :: !B.Marked(smallmap, j)
    ensures source.Elsewhere? ==> forall j: nat | idx <= j < B.BINS :: !B.Marked(smallmap, j)
  {
    var smallbits := B.Down(smallmap, idx);
    B.MarkedIsBit(smallmap, idx);
    B.MarkedIsBit(smallmap, idx + 1);
    B.FirstAbove(smallmap, idx);
    if smallbits[0] || smallbits[1] {
      return ExactBin(if smallbits[0] then idx else idx + 1);
    }
    if smallbits != B.EMPTY {
      var leftbits := B.And(B.Up(smallbits, idx), B.LeftBits(B.BitOf(idx)));
      return LargerBin(B.Position(B.LeastBit(leftbits)));
    }
    return Elsewhere;
  }

  /** The headers written agree with those of the arena that the steps lead to. */
  lemma SameHeads(a: Arena, c: Arena, d: Arena, p: Addr)
    requires var lo, hi := Lo(a, p), Hi(a, p);
      && lo < hi && hi in a.head && lo in c.head && hi in c.head
      && c.head[lo] == Head(hi - lo, true, false) && c.head[hi] == a.head[hi].(pinuse := false)
      && (forall x {:trigger c.Border(x)} :: c.Border(x) && x != lo && x != hi ==>
        x in c.head && x in a.head && c.head[x] == a.head[x])
      && d == c.(head := d.head)
      && (d.head == a.head[hi := a.head[hi].(pinuse := false)][lo := Head(hi - lo, true, false)] ||
          (d.head == a.head[lo := Head(hi - lo, true, false)] && !a.head[hi].pinuse))
    ensures Agree(c, d)
  {}

  // ---------- Asking for more memory ----------

  /** Rounds up to whole units, modulo the word size. */
  function Align(x: nat): nat { (x + GRANULARITY - 1) % Z.WORD / GRANULARITY * GRANULARITY }

  /** What is asked for when nothing can be used that is there. */
  function FullSize(nb: nat): nat { Align((nb + SYS_ALLOC_PADDING) % Z.WORD) }

  /** What is asked for when the top chunk can be extended. */
  function ExtraSize(nb: nat, top: Addr, topsize: nat): nat {
    if top == 0 || nb < topsize then FullSize(nb) else Align(nb - topsize + SYS_ALLOC_PADDING)
  }

  /** Moving the break up by one of these amounts takes it past the end of the address space. */
  ghost predicate Wraps(brk: nat, nb: nat, full: nat, extra: nat, contiguous: bool) {
    && full > nb
    && ((contiguous && extra < HALF_MAX && brk + extra >= Z.WORD) || (full < HALF_MAX && brk + full >= Z.WORD))
  }

  /** With the padding rounded up the size does not fit a word, so that the system is not asked. */
  predicate NoRoundingUp(nb: nat) { nb + SYS_ALLOC_PADDING + GRANULARITY > Z.WORD }

  /** Where the break has to be for a chunk of `nb` bytes at `from`, its padding and the foot of the top chunk. */
  function NewBreak(from: nat, nb: nat): nat { H.PageUp(from + nb + SYS_ALLOC_PADDING) }

  /** It is the only multiple of a unit in the unit from there on. */
  lemma LeastBreak(from: nat, nb: nat, b: nat)
    requires b % GRANULARITY == 0 && from + nb + SYS_ALLOC_PADDING <= b < from + nb + SYS_ALLOC_PADDING + GRANULARITY
    ensures b == NewBreak(from, nb)
  {}

  lemma BreakWithin(from: nat, nb: nat)
    ensures NewBreak(from, nb) <= H.BASE + H.SIZE <==> from + nb + SYS_ALLOC_PADDING <= H.BASE + H.SIZE
  {}

  lemma BreakIsEnough(from: nat, nb: nat)
    ensures from + nb + SYS_ALLOC_PADDING <= NewBreak(from, nb) < from + nb + SYS_ALLOC_PADDING + GRANULARITY
  {}

  /** The amounts are the least whole units that hold the request, its padding and the foot of the top chunk. */
  ghost predicate Sized(nb: nat, topsize: nat, full: nat, extra: nat) {
    full > nb ==>
      && full % GRANULARITY == 0 && extra % GRANULARITY == 0 && nb + SYS_ALLOC_PADDING <= full
      && nb + SYS_ALLOC_PADDING <= topsize + extra < nb + SYS_ALLOC_PADDING + GRANULARITY
      && extra <= full < extra + topsize + GRANULARITY && full < nb + SYS_ALLOC_PADDING + GRANULARITY
  }

  lemma Multiples(x: nat, y: nat)
    requires x % GRANULARITY == 0 && y % GRANULARITY == 0
    ensures (x + y) % GRANULARITY == 0
  {}

  lemma TooLarge()
    ensures FullSize(Z.WORD - 1) <= Z.WORD - 1
  {}

  lemma Sizes(nb: nat, top: Addr, topsize: nat)
    requires topsize <= nb < Z.WORD && (top == 0 ==> topsize == 0)
    ensures Sized(nb, topsize, FullSize(nb), ExtraSize(nb, top, topsize))
  {
    if FullSize(nb) > nb {
      assert nb + SYS_ALLOC_PADDING < Z.WORD;
      assert nb + SYS_ALLOC_PADDING + GRANULARITY - 1 < Z.WORD;
    }
  }

  lemma FullSizeBounds(nb: nat)
    requires nb + SYS_ALLOC_PADDING + GRANULARITY <= Z.WORD
    ensures FullSize(nb) % GRANULARITY == 0
      && nb + SYS_ALLOC_PADDING <= FullSize(nb) < nb + SYS_ALLOC_PADDING + GRANULARITY
  {}

  /** Near the end of the word the amount asked for is rounded to nothing, and nothing is asked for. */
  lemma RoundedToNothing(nb: nat)
    requires nb < Z.WORD < nb + SYS_ALLOC_PADDING + GRANULARITY
    ensures FullSize(nb) <= nb
  {}

  lemma RoundingUp(nb: nat)
    requires nb < Z.WORD
    ensures FullSize(nb) <= nb <==> NoRoundingUp(nb)
  {
    if NoRoundingUp(nb) { RoundedToNothing(nb); } else { FullSizeBounds(nb); }
  }

  /** A multiple of the unit reaches `k` units exactly when what was rounded up is above `k - 1` of them. */
  lemma Reaching(x: nat, y: nat, k: nat)
    requires x % GRANULARITY == 0 && y <= x < y + GRANULARITY && k > 0
    ensures x >= k * GRANULARITY <==> y > (k - 1) * GRANULARITY
  {
    assert x == x / GRANULARITY * GRANULARITY;
  }

  /**
    On the empty heap the requests that take the break past the end of the address space are exactly those from
    0x6FFF_FFFF_EF99 bytes up to half the address space.
   */
  lemma FirstWrap(bytes: nat, contiguous: bool)
    requires bytes < Z.WORD
    ensures var nb := Malloc.ChunkSize(bytes);
      Wraps(H.BASE, nb, FullSize(nb), ExtraSize(nb, 0, 0), contiguous) <==>
      0x6FFF_FFFF_EF99 <= bytes <= 0x7FFF_FFFF_FFFF_EF98
  {
    var nb := Malloc.ChunkSize(bytes);
    if nb + SYS_ALLOC_PADDING + GRANULARITY <= Z.WORD {
      FullSizeBounds(nb);
      Reaching(FullSize(nb), nb + SYS_ALLOC_PADDING, 0x7_0000_0000);
      Reaching(FullSize(nb), nb + SYS_ALLOC_PADDING, 0x8_0000_0000_0000);
    } else {
      RoundedToNothing(nb);
    }
  }

  lemma BreakBySizes(brk: nat, nb: nat, top: Addr, topsize: nat)
    requires brk % GRANULARITY == 0 && topsize <= brk && topsize <= nb < Z.WORD && nb < FullSize(nb)
    requires top == 0 ==> topsize == 0
    ensures brk + FullSize(nb) == NewBreak(brk, nb)
    ensures brk + ExtraSize(nb, top, topsize) == NewBreak(brk - topsize, nb)
  {
    Sizes(nb, top, topsize);
    Multiples(brk, FullSize(nb));
    Multiples(brk, ExtraSize(nb, top, topsize));
    LeastBreak(brk, nb, brk + FullSize(nb));
    LeastBreak(brk - topsize, nb, brk + ExtraSize(nb, top, topsize));
  }

  /** A row that has only a top chunk. */
  lemma OnlyTop(a: Arena)
    requires a.chunks == {} && a.top == a.base && a.base % ALIGNMENT == 0 && a.top in a.head
      && a.head[a.top] == Head(a.topsize, true, false)
    ensures a.Ok()
  {}

  lemma ChangesPlaces(a: Arena, a': Arena, b: Places)
    requires AllBut(a, b, {}) && Changes(a, a', map[])
    ensures AllBut(a', b, {})
  {
    ChunksChange(a, a', b, map[], {}, {});
  }

  /** Blocks that come from memory just added. */
  lemma AllocatesLater(a: Arena, b: Arena, c: Arena, p: Addr, nb: nat)
    requires Changes(a, b, map[]) && Allocates(b, c, p, nb)
    ensures Allocates(a, c, p, nb)
  {
    assert b.Stat(p) == a.Stat(p);
    forall x ensures x == p || StaysUsed(a, c, x) { if x != p { assert StaysUsed(b, c, x) && b.Stat(x) == a.Stat(x); } }
  }

  lemma SmallDoesNotWrap(brk: nat, nb: nat, top: Addr, topsize: nat, contiguous: bool)
    requires nb <= H.SIZE && topsize <= nb && brk <= H.BASE + H.SIZE && (top == 0 ==> topsize == 0)
    ensures !Wraps(brk, nb, FullSize(nb), ExtraSize(nb, top, topsize), contiguous)
  {
    assert FullSize(nb) <= nb + 2 * GRANULARITY;
    Sizes(nb, top, topsize);
  }

  lemma BlockIsAligned(a: Arena, p: Addr)
    requires a.Ok() && a.Stat(p) != Nothing
    ensures (p + 16) % ALIGNMENT == 0
  {
    assert a.BorderOk(p);
  }

  lemma IndexOf(nb: nat)
    requires nb % ALIGNMENT == 0 && MIN_CHUNK_SIZE <= nb <= 240
    ensures 8 * S.SmallIndex(nb) == nb && 4 <= S.SmallIndex(nb) <= 30
  {}

  lemma Sixteens(m: nat)
    ensures 16 * m % 16 == 0
  {}

  lemma UnitsAligned(topsize: nat, tsize: nat)
    requires topsize % ALIGNMENT == 0 && tsize % GRANULARITY == 0 && tsize >= TOP_FOOT_SIZE
    ensures (topsize + tsize) % ALIGNMENT == 0 && (tsize - TOP_FOOT_SIZE) % ALIGNMENT == 0
  {
    var k, m := tsize / GRANULARITY, topsize / ALIGNMENT;
    assert tsize == 16 * (256 * k) && topsize == 16 * m;
    Sixteens(m + 256 * k);
    Sixteens(256 * k - 5);
  }

  /** Trimming rounds down to whole units and keeps at least one byte more than it has to. */
  lemma Extra(topsize: nat, keep: nat, segsize: nat, extra: int)
    requires topsize > keep && extra == ((topsize - keep + GRANULARITY - 1) / GRANULARITY - 1) * GRANULARITY
    requires topsize % ALIGNMENT == 0 && segsize % GRANULARITY == 0 && topsize <= segsize
    ensures 0 <= extra < topsize - keep <= extra + GRANULARITY && (extra == 0 <==> topsize <= keep + GRANULARITY)
    ensures (topsize - extra) % ALIGNMENT == 0 && (segsize - extra) % GRANULARITY == 0
  {
    var units := (topsize - keep + GRANULARITY - 1) / GRANULARITY;
    var m := topsize / ALIGNMENT;
    assert topsize == 16 * m && extra == 16 * (256 * (units - 1));
    Sixteens(m - 256 * (units - 1));
  }

  /** The whole units of the top chunk beyond what has to be kept. */
  method WholeUnits(topsize: nat, keep: nat, segsize: nat) returns (extra: nat)
    requires topsize > keep && topsize % ALIGNMENT == 0 && segsize % GRANULARITY == 0 && topsize <= segsize
    ensures extra < topsize - keep <= extra + GRANULARITY && (extra == 0 <==> topsize <= keep + GRANULARITY)
    ensures (topsize - extra) % ALIGNMENT == 0 && (segsize - extra) % GRANULARITY == 0
  {
    Extra(topsize, keep, segsize, ((topsize - keep + GRANULARITY - 1) / GRANULARITY - 1) * GRANULARITY);
    extra := ((topsize - keep + GRANULARITY - 1) / GRANULARITY - 1) * GRANULARITY;
  }

  /** The system's answer to a request for `size` bytes: it gives them exactly if it can. */
  ghost predicate Replies(h: H.Stage, h': H.Stage, size: nat, ok: bool) {
    if size < HALF_MAX then H.Raises(h, h', h.brk + size, ok) else h' == h && !ok
  }

  ghost predicate Answers(h: H.Stage, h': H.Stage, size: nat, tsize: Option<nat>) {
    (tsize.Some? ==> tsize.value == size) && Replies(h, h', size, tsize.Some?)
  }

  /** A chunk of `nb` bytes can be had: from something that is there, or because the system has the memory. */
  ghost predicate CanServe(h: H.Stage, fits: bool, nb: nat, asize: nat, size: nat) {
    fits || (nb < asize && size < HALF_MAX && h.Reaches(h.brk + size))
  }

  /** Nothing that is there serves the chunk, and asking the system leaves a page of the heap without a frame. */
  ghost predicate LeavesHole(h: H.Stage, fits: bool, nb: nat, asize: nat, size: nat) {
    !fits && nb < asize && size < HALF_MAX && !h.Covers(h.brk + size)
  }

  ghost predicate Outcome(h: H.Stage, h': H.Stage, fits: bool, nb: nat, asize: nat, size: nat, ok: bool) {
    && (ok <==> CanServe(h, fits, nb, asize, size))
    && (h'.Whole() <==> h.Whole() && !LeavesHole(h, fits, nb, asize, size))
  }

  lemma NotAsked(h: H.Stage, fits: bool, nb: nat, asize: nat, size: nat)
    requires fits || asize <= nb
    ensures Outcome(h, h, fits, nb, asize, size, fits)
  {}

  lemma WasAsked(h: H.Stage, h': H.Stage, nb: nat, asize: nat, size: nat, ok: bool)
    requires asize > nb && Replies(h, h', size, ok)
    ensures Outcome(h, h', false, nb, asize, size, ok)
  {}

  /** The same by the break that is needed: half the address space is far past the limit. */
  lemma ServedPlainly(h: H.Stage, fits: bool, nb: nat, asize: nat, size: nat, b: nat)
    requires if nb < asize then h.brk + size == b else b > H.BASE + H.SIZE
    requires h.brk >= H.BASE
    ensures fits || h.Reaches(b) <==> CanServe(h, fits, nb, asize, size)
    ensures !fits && !h.Covers(b) <==> LeavesHole(h, fits, nb, asize, size)
  {}

  /** The first request found nothing left, or was not made. */
  ghost predicate Unanswered(h: H.Stage, h': H.Stage, contiguous: bool, extra: nat) {
    if contiguous && extra < HALF_MAX then H.Raises(h, h', h.brk + extra, false) && h'.Exhausted(h.brk + extra)
    else h' == h
  }

  /** The answer to both requests is the answer to the first, or to the only one. */
  lemma AnswersAgain(h: H.Stage, h': H.Stage, h'': H.Stage, contiguous: bool, extra: nat, asize: nat,
      tsize: Option<nat>)
    requires extra <= asize && Answers(h', h'', asize, tsize) && Unanswered(h, h', contiguous, extra)
    ensures Answers(h, h'', if contiguous then extra else asize, tsize) && (contiguous ==> tsize.None?)
  {
    if contiguous && extra < HALF_MAX { RepliesAgain(h, h', h'', extra, asize, tsize.Some?); }
  }

  lemma RepliesAgain(h: H.Stage, h': H.Stage, h'': H.Stage, extra: nat, asize: nat, ok: bool)
    requires extra <= asize && extra < HALF_MAX && h'.Exhausted(h.brk + extra)
    requires H.Raises(h, h', h.brk + extra, false) && Replies(h', h'', asize, ok)
    ensures !ok && Replies(h, h'', extra, false)
  {
    if asize < HALF_MAX { H.RaisesTwice(h, h', h'', h.brk + extra, h.brk + asize, ok); }
  }

  /** Every page that is left has the frame it had, and none of them is left out that was not. */
  ghost predicate Trimmed(h: H.Stage, h': H.Stage) {
    h'.end <= h.end && H.SamePages(h.space, h'.space, H.PageOf(h'.end)) && (h.Whole() ==> h'.Whole())
  }

  class Malloc {
    const heap: H.Heap
    const small: S.SmallBins
    const tree: T.TreeBins
    var head: map<Addr, Head>
    var foot: map<Addr, nat>
    var top: Addr
    var topsize: nat
    var dv: Addr
    var dvsize: nat
    var segsize: nat
    var contiguous: bool
    ghost var chunks: set<Addr>
    ghost var prev: map<Addr, Addr>

    ghost function View(): Arena
      reads `head, `foot, `top, `topsize, `chunks, `prev
    {
      Arena(head, foot, chunks, prev, H.BASE, top, topsize)
    }

    ghost function Bins(): Places
      reads `dv, `dvsize, small, tree
    {
      Places(small.View().Contents(), tree.View().Contents(), dv, dvsize)
    }

    /** The bins are in order and hold all free chunks except those in `e`. */
    ghost predicate Stored(e: set<Addr>)
      reads `head, `foot, `top, `topsize, `dv, `dvsize, `chunks, `prev, small, tree
    {
      small.Valid() && tree.Valid() && AllBut(View(), Bins(), e) && (dvsize == 0 ==> dv == 0)
    }

    /** The row of chunks is in order and fills the segment up to the foot of the top chunk. */
    ghost predicate Row()
      reads `head, `foot, `top, `topsize, `segsize, `chunks, `prev
    {
      && top > 0 && View().Ok() && topsize % ALIGNMENT == 0
      && top + topsize + TOP_FOOT_SIZE == H.BASE + segsize
    }

    /** The bins hold all free chunks, and there is a row of chunks unless there is no memory yet. */
    ghost predicate Tidy()
      reads `head, `foot, `top, `topsize, `dv, `dvsize, `segsize, `chunks, `prev, small, tree
    {
      Stored({}) && if top == 0 then chunks == {} && topsize == 0 && dvsize == 0 && segsize == 0 else Row()
    }

    ghost predicate Ready()
      reads `head, `foot, `top, `topsize, `dv, `dvsize, `segsize, `chunks, `prev, small, tree
    {
      Tidy() && segsize <= H.SIZE
    }

    /** The segment ends at the break. */
    ghost predicate Core()
      reads `segsize, heap, heap.vmm, heap.vmm.pmm, heap.vmm.pmm.bmap
    {
      heap.Valid() && heap.brk == H.BASE + segsize && segsize % GRANULARITY == 0
    }

    ghost predicate Valid()
      reads this, small, tree, heap, heap.vmm, heap.vmm.pmm, heap.vmm.pmm.bmap
    {
      Core() && Tidy()
    }

    /** An allocator without memory on an empty heap. */
    constructor (heap: H.Heap)
      requires heap.Valid() && heap.brk == H.BASE
      ensures Valid() && this.heap == heap && View().Live() == map[]
    {
      var s := new S.SmallBins();
      var t := new T.TreeBins();
      this.heap, small, tree := heap, s, t;
      head, foot, top, topsize, dv, dvsize, segsize, contiguous := map[], map[], 0, 0, 0, 0, 0, true;
      chunks, prev := {}, map[];
    }

    /** Takes a free chunk out of its bin. */
    method UnlinkChunk(p: Addr, s: nat, ghost e: set<Addr>)
      requires Row() && Stored(e) && p !in e && p != dv && View().Stat(p) == Vacant(s)
      modifies small, tree
      ensures Stored(e + {p})
      ensures Bins() == Left(old(Bins()), p)
    {
      ghost var a, b := View(), Bins();
      assert PlacedBut(a, b, e, p);
      if s < S.SMALL_LIMIT {
        TakeSmall(a, b, e, p);
        small.UnlinkSmall(p, s);
      } else {
        TakeLarge(a, b, e, p);
        T.ContentsAre(tree.View(), p);
        tree.UnlinkLarge(p);
      }
      assert Bins() == b.(small := Bins().small, large := Bins().large);
    }

    /** Puts a free chunk into the bin of its size. */
    method InsertChunk(p: Addr, s: nat, ghost e: set<Addr>)
      requires Row() && segsize <= H.SIZE && Stored(e) && p in e && View().Stat(p) == Vacant(s)
      modifies small, tree
      ensures Stored(e - {p})
      ensures Bins() == Binned(old(Bins()), p, s)
    {
      ghost var a, b := View(), Bins();
      assert PlacedBut(a, b, e, p);
      ChunkBounds(a, p);
      if s < S.SMALL_LIMIT {
        PutSmall(a, b, e, p, s);
        small.InsertSmall(p, s);
      } else {
        PutLarge(a, b, e, p, s);
        T.ContentsAre(tree.View(), p);
        tree.InsertLarge(p, s);
      }
    }

    /** Marks a free chunk, which is in no bin, as in use. */
    method UseWhole(p: Addr, ghost nb: nat)
      requires Row() && Stored({p}) && View().Stat(p).Vacant? && nb <= View().Stat(p).size < nb + MIN_CHUNK_SIZE
      modifies `head
      ensures Row() && Stored({}) && Carves(old(View()), View(), p, nb)
    {
      ghost var a := View();
      WholeServes(a, Bins(), p, nb);
      var n := p + head[p].size;
      head := head[p := Head(head[p].size, true, true)];
      head := head[n := head[n].(pinuse := true)];
      assert View() == Occupied(a, p);
    }

    /** Cuts a free chunk, which is in no bin, in two; the front is in use then, the rest is free and in no bin. */
    method UseFront(p: Addr, nb: nat, rsize: nat)
      requires Row() && Stored({p}) && View().Stat(p) == Vacant(nb + rsize)
      requires MIN_CHUNK_SIZE <= nb && nb % ALIGNMENT == 0 && MIN_CHUNK_SIZE <= rsize
      modifies `head, `foot, `chunks, `prev
      ensures Row() && Stored({p + nb}) && View().Stat(p + nb) == Vacant(rsize) && Carves(old(View()), View(), p, nb)
    {
      ghost var a := View();
      FrontServes(a, Bins(), p, nb);
      ghost var c := Carved(a, p, nb);
      var r := p + nb;
      head := head[p := Head(nb, true, true)];
      head := head[r := Head(rsize, true, false)];
      foot := foot[r + rsize := rsize];
      chunks, prev := c.chunks, c.prev;
      assert View() == c;
    }

    /** Makes a free chunk the designated victim; the old one, which has to be small, goes to its bin. */
    method ReplaceDv(p: Addr, s: nat)
      requires Row() && Stored({p}) && View().Stat(p) == Vacant(s) && dvsize < S.SMALL_LIMIT
      modifies `dv, `dvsize, small
      ensures Stored({})
      ensures Bins() == Promoted(old(Bins()), p, s)
    {
      ghost var a, b := View(), Bins();
      ChunkBounds(a, p);
      if dvsize != 0 {
        VictimIsFree(a, b, {p});
        ChunkBounds(a, dv);
      }
      VictimReplaced(a, b, p, s);
      if dvsize != 0 {
        small.InsertSmall(dv, dvsize);
      }
      dvsize, dv := s, p;
    }

    /** The designated victim leaves its place. */
    method TakeVictim() returns (p: Addr, size: nat)
      requires Row() && Stored({}) && dvsize > 0
      modifies `dv, `dvsize
      ensures p == old(dv) && size == old(dvsize) && View().Stat(p) == Vacant(size)
      ensures Stored({p}) && Bins() == Left(old(Bins()), p) && dvsize == 0 && old(Bins()).IsDv(p)
    {
      p, size := dv, dvsize;
      ghost var a, b := View(), Bins();
      assert PlacedBut(a, b, {}, p);
      TakeDv(a, b, {}, 0);
      assert {} + {p} == {p};
      dv, dvsize := 0, 0;
      assert b.small - {p} == b.small && b.large - {p} == b.large;
    }

    /** Serves a request from the designated victim. */
    method FromDv(nb: nat) returns (p: Addr)
      requires Row() && Stored({}) && MIN_CHUNK_SIZE <= nb <= dvsize && nb % ALIGNMENT == 0
      modifies `head, `foot, `chunks, `prev, `dv, `dvsize
      ensures Row() && Stored({}) && Carves(old(View()), View(), p, nb) && p == old(dv)
      ensures Bins() == AfterServing(old(View()), old(Bins()), p, nb)
    {
      var size;
      p, size := TakeVictim();
      if size - nb >= MIN_CHUNK_SIZE {
        UseFront(p, nb, size - nb);
        PutDv(View(), Bins(), {p + nb}, p + nb, size - nb);
        assert {p + nb} - {p + nb} == {};
        dv, dvsize := p + nb, size - nb;
      } else {
        UseWhole(p, nb);
      }
    }

    /** Serves a request from the top chunk. */
    method FromTop(nb: nat) returns (p: Addr)
      requires Row() && Stored({}) && MIN_CHUNK_SIZE <= nb < topsize && nb % ALIGNMENT == 0
      modifies `head, `top, `topsize, `chunks, `prev
      ensures Row() && Stored({}) && Allocates(old(View()), View(), p, nb) && p == old(top)
      ensures old(View()).Stat(p) == Nothing
    {
      ghost var a := View();
      assert a.ChunkOk(a.top);
      TopServes(a, Bins(), nb);
      topsize := topsize - nb;
      p := top;
      top := p + nb;
      head := head[top := Head(topsize, true, false)];
      head := head[p := Head(nb, true, true)];
      chunks := chunks + {p};
      prev := prev[top := p];
      assert View() == TopTaken(a, nb);
    }

    /** Takes the first chunk of a small bin. */
    method TakeFirst(i: nat) returns (p: Addr)
      requires Row() && Stored({}) && i < S.NSMALLBINS && B.Marked(small.smallmap, i)
      modifies small
      ensures Stored({p}) && View().Stat(p) == Vacant(8 * i)
      ensures Bins() == Left(old(Bins()), p)
    {
      ghost var a, b := View(), Bins();
      p := small.UnlinkFirstSmall(i);
      TakeSmall(a, b, {}, p);
      assert PlacedBut(a, b, {}, p);
      assert {} + {p} == {p};
    }

    /** Serves a request from a small bin whose chunks leave no remainder. */
    method FromSmallExact(i: nat, nb: nat) returns (p: Addr)
      requires Row() && Stored({}) && i < S.NSMALLBINS && B.Marked(small.smallmap, i)
        && nb <= 8 * i < nb + MIN_CHUNK_SIZE
      modifies `head, small
      ensures Row() && Stored({}) && Carves(old(View()), View(), p, nb) && old(View()).Stat(p) == Vacant(8 * i)
      ensures Bins() == AfterServing(old(View()), old(Bins()), p, nb)
    {
      p := TakeFirst(i);
      UseWhole(p, nb);
    }

    /** Serves a small request from a small bin with larger chunks; the remainder becomes the designated victim. */
    method FromSmallBin(i: nat, nb: nat) returns (p: Addr)
      requires Row() && Stored({}) && i < S.NSMALLBINS && B.Marked(small.smallmap, i)
      requires MIN_CHUNK_SIZE <= nb <= 8 * i && nb % ALIGNMENT == 0 && dvsize < S.SMALL_LIMIT
      modifies `head, `foot, `chunks, `prev, `dv, `dvsize, small
      ensures Row() && Stored({}) && Carves(old(View()), View(), p, nb) && old(View()).Stat(p) == Vacant(8 * i)
      ensures Bins() == AfterServing(old(View()), old(Bins()), p, nb)
    {
      p := TakeFirst(i);
      UseWithVictim(p, nb, 8 * i - nb);
    }

    /** Puts the front of a chunk to use; a remainder that can be a chunk becomes the designated victim. */
    method UseWithVictim(p: Addr, nb: nat, rsize: nat)
      requires Row() && Stored({p}) && View().Stat(p) == Vacant(nb + rsize) && dvsize < S.SMALL_LIMIT
      requires MIN_CHUNK_SIZE <= nb && nb % ALIGNMENT == 0
      modifies `head, `foot, `chunks, `prev, `dv, `dvsize, small
      ensures Row() && Stored({}) && Carves(old(View()), View(), p, nb)
      ensures Bins() == if rsize < MIN_CHUNK_SIZE then old(Bins()) else Promoted(old(Bins()), p + nb, rsize)
    {
      if rsize < MIN_CHUNK_SIZE {
        UseWhole(p, nb);
      } else {
        UseFront(p, nb, rsize);
        ghost var a := View();
        ReplaceDv(p + nb, rsize);
        assert View() == a;
      }
    }

    /** Puts the front of a chunk to use; a remainder that can be a chunk goes to its bin. */
    method UseWithBin(p: Addr, nb: nat, rsize: nat)
      requires Row() && segsize <= H.SIZE && Stored({p}) && View().Stat(p) == Vacant(nb + rsize)
      requires MIN_CHUNK_SIZE <= nb && nb % ALIGNMENT == 0
      modifies `head, `foot, `chunks, `prev, small, tree
      ensures Row() && Stored({}) && Carves(old(View()), View(), p, nb)
      ensures Bins() == if rsize < MIN_CHUNK_SIZE then old(Bins()) else Binned(old(Bins()), p + nb, rsize)
    {
      if rsize < MIN_CHUNK_SIZE {
        UseWhole(p, nb);
      } else {
        UseFront(p, nb, rsize);
        InsertChunk(p + nb, rsize, {p + nb});
        assert {p + nb} - {p + nb} == {};
      }
    }

    /** Takes a chunk out of the tree bins. */
    method TakeFromTree(v: Addr)
      requires Row() && Stored({}) && v in Bins().large
      modifies tree
      ensures Stored({v}) && View().Stat(v) == Vacant(old(Bins().large[v]))
      ensures Bins() == Left(old(Bins()), v)
    {
      ghost var a, b := View(), Bins();
      TakeLarge(a, b, {}, v);
      assert PlacedBut(a, b, {}, v);
      T.ContentsAre(tree.View(), v);
      tree.UnlinkLarge(v);
      assert {} + {v} == {v};
    }

    /** The smallest chunk of the tree bins. */
    method SmallestInTree(nb: nat) returns (v: Addr, rsize: nat)
      requires Row() && Stored({}) && tree.treemap != B.EMPTY && nb < S.SMALL_LIMIT
      ensures v in Bins().large && Bins().large[v] == nb + rsize && IsLeast(Bins().large, v, 0)
    {
      v, rsize := tree.FindSmallest(nb);
      T.BestFitContents(tree.View(), nb, v);
      forall x | x in Bins().large
        ensures Bins().large[v] <= Bins().large[x] { assert PlacedBut(View(), Bins(), {}, x); }
    }

    /** Serves a small request from the smallest chunk of the tree bins. */
    method TmallocSmall(nb: nat) returns (p: Addr)
      requires Row() && Stored({}) && tree.treemap != B.EMPTY && dvsize < S.SMALL_LIMIT
      requires MIN_CHUNK_SIZE <= nb < S.SMALL_LIMIT && nb % ALIGNMENT == 0
      modifies `head, `foot, `chunks, `prev, `dv, `dvsize, small, tree
      ensures Row() && Stored({}) && Carves(old(View()), View(), p, nb)
      ensures p in old(Bins()).large && IsLeast(old(Bins()).large, p, 0)
      ensures Bins() == AfterServing(old(View()), old(Bins()), p, nb)
    {
      var v, rsize := SmallestInTree(nb);
      TakeFromTree(v);
      UseWithVictim(v, nb, rsize);
      p := v;
    }

    /** The best fitting chunk of the tree bins, if it fits better than the designated victim. */
    method BestInTree(nb: nat) returns (v: Addr, rsize: nat)
      requires Row() && segsize <= H.SIZE && Stored({}) && S.SMALL_LIMIT <= nb < Z.WORD
      ensures v != 0 ==> v in Bins().large && Bins().large[v] == nb + rsize && IsLeast(Bins().large, v, nb)
      ensures v != 0 && dvsize >= nb ==> Bins().large[v] < dvsize
      ensures v == 0 ==> forall x {:trigger x in Bins().large} :: x in Bins().large && nb <= Bins().large[x] ==>
        nb <= dvsize <= Bins().large[x]
    {
      v, rsize := tree.FindLarge(nb);
      T.BestFitContents(tree.View(), nb, v);
      if dvsize > 0 {
        VictimIsFree(View(), Bins(), {});
        ChunkBounds(View(), dv);
      }
      if v == T.NULL || rsize >= T.Minus(dvsize, nb) {
        v := 0;
      }
    }

    /**
      Serves a large request from the best fitting chunk of the tree bins, unless there is none or the designated
      victim fits at least as well.
     */
    method TmallocLarge(nb: nat) returns (p: Addr)
      requires Row() && segsize <= H.SIZE && Stored({}) && S.SMALL_LIMIT <= nb < Z.WORD && nb % ALIGNMENT == 0
      modifies `head, `foot, `chunks, `prev, small, tree
      ensures Row() && Stored({})
      ensures p != 0 ==>
        && Carves(old(View()), View(), p, nb)
        && p in old(Bins()).large && IsLeast(old(Bins()).large, p, nb)
      ensures p != 0 && dvsize >= nb ==> old(Bins()).large[p] < dvsize
      ensures p == 0 ==> View() == old(View()) && Bins() == old(Bins())
      ensures p == 0 ==> forall x {:trigger x in Bins().large} :: x in Bins().large && nb <= Bins().large[x] ==>
        nb <= dvsize <= Bins().large[x]
      ensures p != 0 ==> Bins() == AfterServing(old(View()), old(Bins()), p, nb)
    {
      var v, rsize := BestInTree(nb);
      if v != 0 { CutFromTree(v, nb, rsize); }
      p := v;
    }

    /** Cuts a tree chunk for a large request. */
    method CutFromTree(v: Addr, nb: nat, rsize: nat)
      requires Row() && segsize <= H.SIZE && Stored({}) && v in Bins().large && Bins().large[v] == nb + rsize
      requires S.SMALL_LIMIT <= nb && nb % ALIGNMENT == 0
      modifies `head, `foot, `chunks, `prev, small, tree
      ensures Row() && Stored({}) && Carves(old(View()), View(), v, nb)
      ensures Bins() == AfterServing(old(View()), old(Bins()), v, nb)
    {
      assert PlacedBut(View(), Bins(), {}, v);
      TakeFromTree(v);
      UseWithBin(v, nb, rsize);
    }

    /** Where something is held there is memory. */
    lemma HeldMeansRow(i: nat)
      requires Ready() && i < S.NSMALLBINS && (B.Marked(small.smallmap, i) || tree.treemap != B.EMPTY)
      ensures Row()
    {
      if B.Marked(small.smallmap, i) {
        S.MarkedHolds(small.View(), i);
        var x :| x in Bins().small;
        assert PlacedBut(View(), Bins(), {}, x);
      } else {
        T.SomethingHeld(tree.View());
        var x :| x in Bins().large;
        assert PlacedBut(View(), Bins(), {}, x);
      }
    }

    /** With no marked bin from `idx` on and no tree chunk, the bins have nothing of that size. */
    lemma NothingAbove(idx: nat)
      requires Ready() && idx < S.NSMALLBINS && tree.treemap == B.EMPTY
      requires forall j: nat | idx <= j < S.NSMALLBINS :: !B.Marked(small.smallmap, j)
      ensures forall x {:trigger x in Bins().small} :: x in Bins().small ==> Bins().small[x] < 8 * idx
      ensures Bins().large == map[]
    {
      T.NothingHeld(tree.View());
      forall x | x in Bins().small ensures Bins().small[x] < 8 * idx { S.HeldMarked(small.View(), x); }
    }

    /** With no marked bin from the request's on up to `i`, the small chunks that fit are of bin `i` or above. */
    lemma NoneMarkedBelow(nb: nat, i: nat)
      requires Ready() && MIN_CHUNK_SIZE <= nb <= 240 && nb % ALIGNMENT == 0 && S.SmallIndex(nb) < i <= S.NSMALLBINS
      requires forall j: nat | S.SmallIndex(nb) <= j < i :: !B.Marked(small.smallmap, j)
      ensures LeastOf(Bins().small, 8 * i, nb)
      ensures forall x {:trigger x in Bins().small} :: x in Bins().small ==> Bins().small[x] != nb
    {
      IndexOf(nb);
      forall x | x in Bins().small && nb <= Bins().small[x] ensures Bins().small[x] >= 8 * i {
        S.HeldMarked(small.View(), x);
      }
    }

    /** A large request that the trees do not serve goes to the victim, or to nothing that is there. */
    lemma NoneFitsLarge(nb: nat)
      requires Ready() && nb >= S.SMALL_LIMIT
      requires forall x {:trigger x in Bins().large} :: x in Bins().large && nb <= Bins().large[x] ==>
        nb <= dvsize <= Bins().large[x]
      ensures if nb > dvsize then NoneFits(View(), nb) else Prefers(View(), Bins(), dv, nb)
    {
      SmallIsSmall(nb);
      if nb > dvsize { NoneFitsFrom(View(), Bins(), nb); } else { PrefersVictim(View(), Bins(), nb); }
    }

    lemma SmallIsSmall(nb: nat)
      requires Ready() && nb >= S.SMALL_LIMIT
      ensures forall x {:trigger x in Bins().small} :: x in Bins().small ==> Bins().small[x] < nb
    {
      forall x | x in Bins().small ensures Bins().small[x] < nb { S.HeldMarked(small.View(), x); }
    }

    /** No chunk is larger than the heap. */
    lemma NothingThatLarge()
      requires Ready()
      ensures NoneFits(View(), H.SIZE + 1) && dvsize <= H.SIZE && topsize <= H.SIZE
    {
      if top != 0 {
        assert View().BorderOk(top);
        forall x ensures View().Stat(x).Vacant? ==> View().Stat(x).size < H.SIZE + 1 {
          if x in chunks { ChunkBounds(View(), x); }
        }
        assert PlacedBut(View(), Bins(), {}, dv);
      }
    }

    /** Where a small request is to be served from. */
    method ChooseSmall(nb: nat) returns (source: Source)
      requires Ready() && MIN_CHUNK_SIZE <= nb <= 240 && nb % ALIGNMENT == 0
      ensures !source.Elsewhere? ==> Row()
      ensures source.ExactBin? ==>
        source.i < S.NSMALLBINS && B.Marked(small.smallmap, source.i) && nb <= 8 * source.i <= nb + 8
      ensures source.LargerBin? ==>
        && source.i < S.NSMALLBINS && B.Marked(small.smallmap, source.i) && nb <= 8 * source.i && dvsize < nb
        && LeastOf(Bins().small, 8 * source.i, nb)
      ensures source.SmallestTree? ==>
        tree.treemap != B.EMPTY && dvsize < nb && LeastOf(Bins().small, S.SMALL_LIMIT, nb)
      ensures source.Elsewhere? && dvsize < nb ==> NoneFits(View(), nb)
      ensures source.Elsewhere? && dvsize >= nb ==> Prefers(View(), Bins(), dv, nb)
    {
      var idx := S.SmallIndex(nb);
      IndexOf(nb);
      source := PickBin(small.smallmap, idx);
      if source.ExactBin? {
        HeldMeansRow(source.i);
        return;
      }
      NoneMarkedBelow(nb, if source.LargerBin? then source.i else S.NSMALLBINS);
      if nb <= dvsize {
        PrefersVictim(View(), Bins(), nb);
        return Elsewhere;
      }
      if source.LargerBin? {
        HeldMeansRow(source.i);
        return;
      }
      if tree.treemap != B.EMPTY {
        HeldMeansRow(0);
        return SmallestTree;
      }
      NothingAbove(idx);
      NoneFitsFrom(View(), Bins(), nb);
    }

    /** Tries the bins for a small request. Nothing is done when the designated victim or the top is to be used. */
    method MallocSmall(nb: nat) returns (p: Addr)
      requires Ready() && MIN_CHUNK_SIZE <= nb <= 240 && nb % ALIGNMENT == 0
      modifies `head, `foot, `chunks, `prev, `dv, `dvsize, small, tree
      ensures Ready()
      ensures p != 0 ==> Row() && Carves(old(View()), View(), p, nb) && Prefers(old(View()), old(Bins()), p, nb)
      ensures p == 0 ==> View() == old(View()) && Bins() == old(Bins())
      ensures p == 0 ==> if nb > dvsize then NoneFits(View(), nb) else Prefers(View(), Bins(), dv, nb)
      ensures p != 0 ==> Bins() == AfterServing(old(View()), old(Bins()), p, nb)
    {
      var source := ChooseSmall(nb);
      ghost var a, b := View(), Bins();
      match source {
        case ExactBin(i) => p := FromSmallExact(i, nb);
        case LargerBin(i) => p := FromSmallBin(i, nb);
        case SmallestTree => p := TmallocSmall(nb);
        case Elsewhere => return 0;
      }
      PrefersSource(a, b, p, nb, source);
      ChunkIsSomewhere(View(), p);
    }

    // ---------- Giving memory back ----------

    /** Writes header and foot of the free chunk from `lo` on that the chunk `p` has become part of. */
    method SetFree(ghost p: Addr, lo: Addr, psize: nat, next: Addr, nextInUse: bool)
      requires Row() && View().InUse(p) && next == View().Next(p) != top
      requires lo == Lo(View(), p) && lo + psize == Hi(View(), p) && (nextInUse <==> !View().IsFree(next))
      modifies `head, `foot, `chunks, `prev
      ensures Row() && Changes(old(View()), View(), FreeMap(old(View()), p))
      ensures Lo(old(View()), p) != p ==> old(View()).IsFree(Lo(old(View()), p))
    {
      ghost var a := View();
      ghost var c := Freed(a, p);
      assert a.ChunkOk(p) && a.ChunkOk(next);
      if nextInUse {
        head := head[next := head[next].(pinuse := false)];
      }
      head := head[lo := Head(psize, true, false)];
      foot := foot[lo + psize := psize];
      chunks, prev := c.chunks, c.prev;
      SameHeads(a, c, View(), p);
      AgreeOk(c, View());
      ChangesTwice(a, c, View(), FreeMap(a, p), map[]);
      assert FreeMap(a, p) + map[] == FreeMap(a, p);
    }

    /** Writes the header of the top chunk when it takes over the chunk `p` before it. */
    method SetTop(ghost p: Addr, lo: Addr, psize: nat)
      requires Row() && View().InUse(p) && View().Next(p) == top && lo == Lo(View(), p) && lo + psize == top
      modifies `head, `top, `topsize, `chunks, `prev
      ensures Row() && Changes(old(View()), View(), map[p := Nothing, lo := Nothing])
      ensures lo != p ==> old(View()).IsFree(lo)
    {
      ghost var a := View();
      ghost var c := FreedToTop(a, p);
      topsize := topsize + psize;
      top := lo;
      head := head[lo := Head(topsize, true, false)];
      chunks, prev := c.chunks, c.prev;
      assert a.BorderOk(a.top);
      AgreeOk(c, View());
      ChangesTwice(a, c, View(), map[p := Nothing, lo := Nothing], map[]);
      assert map[p := Nothing, lo := Nothing] + map[] == map[p := Nothing, lo := Nothing];
    }

    /** The free chunk before the one given back leaves its bin, unless it is the designated victim. */
    method JoinBack(p: Addr) returns (lo: Addr)
      requires Row() && Stored({}) && View().InUse(p) && !head[p].pinuse
      modifies small, tree
      ensures lo == Lo(View(), p) < p && View().Stat(lo) == Vacant(p - lo) && lo > 0
      ensures lo != dv ==> Stored({lo})
      ensures lo == dv ==> Stored({}) && dvsize == p - lo
      ensures Bins() == WithoutBack(View(), old(Bins()), p)
    {
      TookBackOk(View(), p);
      var prevsize := foot[p];
      lo := p - prevsize;
      ChunkBounds(View(), lo);
      if lo != dv {
        UnlinkChunk(lo, prevsize, {});
        assert {} + {lo} == {lo};
      } else {
        assert PlacedBut(View(), Bins(), {}, lo);
      }
    }

    /** The chunk `p0` is to be given back as part of the chunk from `p` on; what is before it has left its bin. */
    ghost predicate Joining(p0: Addr, p: Addr)
      reads this, small, tree
    {
      && Row() && View().InUse(p0) && p == Lo(View(), p0)
      && Stored(if p != p0 && p != dv then {p} else {})
      && (p != p0 ==> View().Stat(p) == Vacant(p0 - p))
      && (p == dv ==> p != p0 && dvsize == p0 - p)
    }

    /** The places without the victim that takes part in the merge. */
    lemma WithoutVictim(p0: Addr, p: Addr)
      requires Joining(p0, p) && p == dv
      ensures AllBut(View(), Bins().(dvsize := 0), {p})
    {
      TakeDv(View(), Bins(), {}, dv);
      assert {} + {dv} == {dv};
    }

    /** The victim before the chunk grows over it. */
    method GrowVictim(p0: Addr, p: Addr, psize: nat, next: Addr)
      requires Joining(p0, p) && p == dv && next == View().Next(p0) && p + psize == next && next in head
        && head[next].cinuse
      modifies `head, `foot, `dvsize, `chunks, `prev
      ensures Row() && Stored({}) && Frees(old(View()), View(), p0)
      ensures Bins() == old(Bins()).(dvsize := psize)
    {
      ghost var a, b := View(), Bins().(dvsize := 0);
      WithoutVictim(p0, p);
      assert a.ChunkOk(p0);
      dvsize := psize;
      SetFree(p0, p, psize, next, true);
      assert {p} == FreeNeighbours(a, p0);
      FreedPlaces(a, View(), b, p0);
      FreedFrees(a, View(), p0);
      assert View().Stat(p) == Vacant(psize);
      PutDv(View(), b, {p}, p, psize);
      assert {p} - {p} == {};
    }

    /** The top chunk takes the chunk over. */
    method MergeTop(p0: Addr, p: Addr, psize: nat)
      requires Joining(p0, p) && View().Next(p0) == top && p + psize == top
      modifies `head, `top, `topsize, `dv, `dvsize, `chunks, `prev
      ensures Row() && Stored({}) && Frees(old(View()), View(), p0)
      ensures Bins() == if p == old(dv) then old(Bins()).(dv := 0, dvsize := 0) else old(Bins())
    {
      ghost var a, b := View(), if p == dv then Bins().(dvsize := 0) else Bins();
      if p == dv { WithoutVictim(p0, p); }
      SetTop(p0, p, psize);
      FreedToTopPlaces(a, View(), b, p0);
      FreedFrees(a, View(), p0);
      if p == dv {
        VictimGone(View(), b, 0);
        dv, dvsize := 0, 0;
      }
    }

    /** The chunk grows over the victim after it and becomes the victim. */
    method MergeVictim(p0: Addr, p: Addr, psize: nat, next: Addr)
      requires Joining(p0, p) && next == View().Next(p0) == p + psize && next == dv && next in chunks
        && View().IsFree(next)
      modifies `head, `foot, `dv, `dvsize, `chunks, `prev
      ensures Row() && Stored({}) && Frees(old(View()), View(), p0)
      ensures Bins() == old(Bins()).(dv := p, dvsize := psize + old(View()).Size(next))
    {
      ghost var a, b, e := View(), Bins(), if p != p0 then {p} else {};
      ChunkBounds(a, next);
      assert a.ChunkOk(next) && PlacedBut(a, b, e, next);
      TakeDv(a, b, e, dv);
      b := b.(dvsize := 0);
      assert e + {dv} == FreeNeighbours(a, p0);
      var dsize := dvsize + psize;
      dvsize := dsize;
      dv := p;
      SetFree(p0, p, dsize, next, false);
      FreedPlaces(a, View(), b, p0);
      FreedFrees(a, View(), p0);
      assert View().Stat(p) == Vacant(dsize);
      PutDv(View(), b, {p}, p, dsize);
      assert {p} - {p} == {};
    }

    /** The chunk takes over a free chunk after it that is in a bin. */
    method MergeNext(p0: Addr, p: Addr, psize: nat, next: Addr)
      requires segsize <= H.SIZE && Joining(p0, p) && next == View().Next(p0) == p + psize && next != dv
        && next in chunks && View().IsFree(next)
      modifies `head, `foot, `dvsize, `chunks, `prev, small, tree
      ensures Row() && Stored({}) && Frees(old(View()), View(), p0)
      ensures var b, size := Left(old(Bins()), next), psize + old(View()).Size(next);
        Bins() == if p == old(dv) then b.(dvsize := size) else Binned(b, p, size)
    {
      var nsize := head[next].size;
      ghost var a, e := View(), if p != p0 && p != dv then {p} else {};
      assert a.ChunkOk(p0) && a.ChunkOk(next);
      if p == dv { assert p != next; }
      UnlinkChunk(next, nsize, e);
      if p == dv {
        assert e + {next} == {next};
        WidenVictim(p0, psize + nsize, next);
      } else {
        assert e + {next} == FreeNeighbours(a, p0);
        WidenBinned(p0, p, psize + nsize, next);
      }
    }

    /** The victim before the chunk grows over it and over the free chunk after it, which has left its bin. */
    method WidenVictim(p0: Addr, size: nat, next: Addr)
      requires Row() && View().InUse(p0) && dv == Lo(View(), p0) != p0 && dvsize == p0 - dv
      requires next == View().Next(p0) != top && View().IsFree(next) && Stored({next}) && dv + size == Hi(View(), p0)
      modifies `head, `foot, `dvsize, `chunks, `prev
      ensures Row() && Stored({}) && Frees(old(View()), View(), p0) && Bins() == old(Bins()).(dvsize := size)
    {
      ghost var a, b := View(), Bins().(dvsize := 0);
      TakeDv(a, Bins(), {next}, dv);
      assert {next} + {dv} == FreeNeighbours(a, p0);
      SetFree(p0, dv, size, next, false);
      FreedPlaces(a, View(), b, p0);
      FreedFrees(a, View(), p0);
      assert View().Stat(dv) == Vacant(size);
      dvsize := size;
      PutDv(View(), b, {dv}, dv, size);
      assert {dv} - {dv} == {};
    }

    /** The free chunk that the chunk and its neighbours have become goes to its bin. */
    method WidenBinned(p0: Addr, p: Addr, size: nat, next: Addr)
      requires Row() && segsize <= H.SIZE && View().InUse(p0) && p == Lo(View(), p0)
      requires next == View().Next(p0) != top && View().IsFree(next) && p + size == Hi(View(), p0)
      requires Stored(FreeNeighbours(View(), p0))
      modifies `head, `foot, `chunks, `prev, small, tree
      ensures Row() && Stored({}) && Frees(old(View()), View(), p0) && Bins() == Binned(old(Bins()), p, size)
    {
      ghost var a := View();
      SetFree(p0, p, size, next, false);
      FreedPlaces(a, View(), Bins(), p0);
      FreedFrees(a, View(), p0);
      assert View().Stat(p) == Vacant(size);
      InsertChunk(p, size, {p});
      assert {p} - {p} == {};
    }

    /** The chunk after it is in use. */
    method FreeAlone(p0: Addr, p: Addr, psize: nat, next: Addr)
      requires segsize <= H.SIZE && Joining(p0, p) && p != dv && next == View().Next(p0) == p + psize && next in head
        && head[next].cinuse
      modifies `head, `foot, `chunks, `prev, small, tree
      ensures Row() && Stored({}) && Frees(old(View()), View(), p0)
      ensures Bins() == Binned(old(Bins()), p, psize)
    {
      ghost var a, e := View(), if p != p0 then {p} else {};
      assert a.ChunkOk(p0);
      SetFree(p0, p, psize, next, true);
      assert e == FreeNeighbours(a, p0);
      FreedPlaces(a, View(), Bins(), p0);
      FreedFrees(a, View(), p0);
      assert View().Stat(p) == Vacant(psize);
      InsertChunk(p, psize, {p});
      assert {p} - {p} == {};
    }

    /**
      Gives a block back. Its chunk joins the free chunks before and after it, and the top chunk, and goes to a bin
      unless it became part of the top chunk or of the designated victim.
     */
    method Free(mem: Addr)
      requires Ready() && (mem != 0 ==> View().Stat(mem - 16).Used?)
      modifies `head, `foot, `top, `topsize, `dv, `dvsize, `chunks, `prev, small, tree
      ensures Ready() && (mem == 0 ==> View() == old(View()) && Bins() == old(Bins()))
      ensures mem != 0 ==> Row() && Frees(old(View()), View(), mem - 16)
      ensures mem != 0 ==> Bins() == AfterFreeing(old(View()), old(Bins()), mem - 16)
    {
      if mem == 0 { return; }
      var p0 := mem - 16;
      var psize := head[p0].size;
      ghost var a, b := View(), Bins();
      assert a.ChunkOk(p0);
      ChunkBounds(a, p0);
      assert PlacedBut(a, b, {}, p0);
      var p, next := p0, p0 + psize;
      if !head[p0].pinuse {
        p := JoinBack(p0);
        psize := psize + (p0 - p);
      } else {
        assert Lo(a, p0) == p0;
      }
      FreeingEnds(a, b, p0);
      Settle(p0, p, psize, next);
    }

    /** The chunk, with the free chunk before it, joins what comes after it or goes to a bin. */
    method Settle(p0: Addr, p: Addr, psize: nat, next: Addr)
      requires segsize <= H.SIZE && Joining(p0, p) && next == View().Next(p0) == p + psize
      modifies `head, `foot, `top, `topsize, `dv, `dvsize, `chunks, `prev, small, tree
      ensures Row() && Stored({}) && Frees(old(View()), View(), p0)
      ensures Bins() == Ending(old(View()), old(Bins()), p0)
    {
      assert View().ChunkOk(p0);
      assert PlacedBut(View(), Bins(), if p != p0 && p != dv then {p} else {}, next);
      if p == dv && head[next].pinuse && head[next].cinuse {
        GrowVictim(p0, p, psize, next);
      } else if !head[next].cinuse {
        MergeAfter(p0, p, psize, next);
      } else {
        FreeAlone(p0, p, psize, next);
      }
    }

    /** The chunk joins the top chunk, the victim or the free chunk after it. */
    method MergeAfter(p0: Addr, p: Addr, psize: nat, next: Addr)
      requires segsize <= H.SIZE && Joining(p0, p) && next == View().Next(p0) == p + psize
      requires next in head && !head[next].cinuse
      modifies `head, `foot, `top, `topsize, `dv, `dvsize, `chunks, `prev, small, tree
      ensures Row() && Stored({}) && Frees(old(View()), View(), p0)
      ensures Bins() == Ending(old(View()), old(Bins()), p0)
    {
      assert View().ChunkOk(p0);
      if next == top {
        MergeTop(p0, p, psize);
      } else {
        assert PlacedBut(View(), Bins(), if p != p0 && p != dv then {p} else {}, next);
        EndingAfter(View(), Bins(), p0, psize);
        ghost var end := Ending(View(), Bins(), p0);
        if next == dv {
          MergeVictim(p0, p, psize, next);
        } else {
          MergeNext(p0, p, psize, next);
        }
        assert Bins() == end;
      }
    }

    // ---------- More memory ----------

    /** Moves the break up; it moves past the end of the address space if asked to. */
    method MoreCore(size: nat) returns (br: Option<nat>)
      requires heap.Valid() && 0 < size < HALF_MAX
      modifies heap, heap.vmm`mem, heap.vmm`role, heap.vmm.pmm, heap.vmm.pmm.bmap
      ensures heap.Valid() <==> old(heap.brk) + size < Z.WORD
      ensures heap.Valid() ==> H.Raises(old(heap.Now()), heap.Now(), old(heap.brk) + size, br.Some?)
      ensures !heap.Valid() ==> br.Some? && heap.brk < H.BASE
      ensures br.Some? ==> br.value == old(heap.brk)
      ensures br.None? ==> heap.Now().Exhausted(old(heap.brk) + size)
      ensures H.Keeps(old(heap.Now()), heap.Now())
    {
      br := heap.Sbrk(size);
    }

    /** The first request, for what is missing, unless one has been refused before. */
    method AskFirst(extra: nat) returns (br: Option<nat>)
      requires heap.Valid() && extra > 0
      modifies `contiguous, heap, heap.vmm`mem, heap.vmm`role, heap.vmm.pmm, heap.vmm.pmm.bmap
      ensures heap.Valid() <==> !(old(contiguous) && extra < HALF_MAX && old(heap.brk) + extra >= Z.WORD)
      ensures !heap.Valid() ==> br.Some?
      ensures br.None? ==> heap.brk == old(heap.brk) && Unanswered(old(heap.Now()), heap.Now(), old(contiguous), extra)
      ensures br.Some? ==> br.value == old(heap.brk) && old(contiguous)
      ensures br.Some? && heap.Valid() ==> Answers(old(heap.Now()), heap.Now(), extra, Some(extra))
      ensures H.Keeps(old(heap.Now()), heap.Now())
      ensures contiguous == (old(contiguous) && br.Some?)
    {
      H.SameAtFirst(heap.vmm.View(), H.PageOf(heap.mappedEnd));
      br := None;
      if contiguous {
        if extra < HALF_MAX {
          br := MoreCore(extra);
          if br.Some? { return; }
        }
        contiguous := false;
      }
    }

    /** The second request, for the whole amount. */
    method AskAgain(nb: nat, asize: nat) returns (tsize: Option<nat>)
      requires heap.Valid() && asize % GRANULARITY == 0 && nb + SYS_ALLOC_PADDING <= asize
      modifies heap, heap.vmm`mem, heap.vmm`role, heap.vmm.pmm, heap.vmm.pmm.bmap
      ensures heap.Valid() <==> !(asize < HALF_MAX && old(heap.brk) + asize >= Z.WORD)
      ensures tsize.Some? ==> tsize.value == asize && heap.Valid()
      ensures asize >= HALF_MAX ==> tsize.None? && heap.Now() == old(heap.Now())
      ensures asize < HALF_MAX && heap.Valid() ==>
        H.Raises(old(heap.Now()), heap.Now(), old(heap.brk) + asize, tsize.Some?)
      ensures asize < HALF_MAX && heap.Valid() && tsize.None? ==> heap.Now().Exhausted(old(heap.brk) + asize)
      ensures H.Keeps(old(heap.Now()), heap.Now())
    {
      H.SameAtFirst(heap.vmm.View(), H.PageOf(heap.mappedEnd));
      if asize < HALF_MAX {
        var br := MoreCore(asize);
        var end := heap.brk;
        if br.Some? && br.value < end && end - br.value > nb + TOP_FOOT_SIZE { return Some(end - br.value); }
      }
      return None;
    }

    /** Asks for memory right after the segment: first for what is missing, then once more for the whole. */
    method AskCore(nb: nat, asize: nat, extra: nat) returns (tsize: Option<nat>)
      requires heap.Valid() && heap.brk == H.BASE + segsize && topsize <= segsize
      requires topsize <= nb < asize && Sized(nb, topsize, asize, extra)
      modifies `contiguous, heap, heap.vmm`mem, heap.vmm`role, heap.vmm.pmm, heap.vmm.pmm.bmap
      ensures heap.Valid() <==> !old(Wraps(heap.brk, nb, asize, extra, contiguous))
      ensures tsize.Some? ==> tsize.value % GRANULARITY == 0 && nb + SYS_ALLOC_PADDING <= topsize + tsize.value
      ensures heap.Valid() ==> Answers(old(heap.Now()), heap.Now(), if old(contiguous) then extra else asize, tsize)
      ensures asize < HALF_MAX && heap.Valid() && tsize.None? ==> heap.Now().Exhausted(old(heap.brk) + asize)
      ensures H.Keeps(old(heap.Now()), heap.Now())
      ensures contiguous == (old(contiguous) && tsize.Some?)
    {
      ghost var h := heap.Now();
      var br := AskFirst(extra);
      if br == Some(H.BASE + segsize) { return Some(extra); }
      tsize := AskAfter(h, old(contiguous), nb, asize, extra);
    }

    /** The second request after a first one that was refused or not made. */
    method AskAfter(ghost h: H.Stage, ghost first: bool, nb: nat, asize: nat, extra: nat) returns (tsize: Option<nat>)
      requires heap.Valid() && Unanswered(h, heap.Now(), first, extra) && H.Keeps(h, heap.Now())
      requires asize % GRANULARITY == 0 && nb + SYS_ALLOC_PADDING <= asize && extra <= asize
      modifies heap, heap.vmm`mem, heap.vmm`role, heap.vmm.pmm, heap.vmm.pmm.bmap
      ensures heap.Valid() <==> !(asize < HALF_MAX && h.brk + asize >= Z.WORD)
      ensures heap.Valid() ==> Answers(h, heap.Now(), if first then extra else asize, tsize)
      ensures tsize.Some? ==> heap.Valid() && tsize.value == asize
      ensures asize < HALF_MAX && heap.Valid() && tsize.None? ==> heap.Now().Exhausted(h.brk + asize)
      ensures H.Keeps(h, heap.Now())
      ensures first ==> tsize.None?
    {
      ghost var h' := heap.Now();
      tsize := AskAgain(nb, asize);
      if heap.Valid() { AnswersAgain(h, h', heap.Now(), first, extra, asize, tsize); }
      H.KeepsTwice(h, h', heap.Now());
    }

    /** Adds memory at the end of the segment to the top chunk, or makes the first top chunk of it. */
    method AddMemory(tsize: nat)
      requires Stored({}) && tsize >= SYS_ALLOC_PADDING && tsize % GRANULARITY == 0
      requires if top == 0 then chunks == {} && topsize == 0 && segsize == 0 else Row()
      modifies `head, `top, `topsize, `segsize, `chunks, `prev
      ensures Row() && Stored({}) && Changes(old(View()), View(), map[])
      ensures segsize == old(segsize) + tsize
        && topsize == (if old(top) == 0 then tsize - TOP_FOOT_SIZE else old(topsize) + tsize)
    {
      ghost var a := View();
      UnitsAligned(topsize, tsize);
      if top == 0 {
        segsize := tsize;
        top, topsize := H.BASE, tsize - TOP_FOOT_SIZE;
        head := head[top := Head(topsize, true, false)];
        OnlyTop(View());
      } else {
        segsize := segsize + tsize;
        topsize := topsize + tsize;
        head := head[top := Head(topsize, true, false)];
        TopResizedOk(a, topsize);
        assert View() == TopResized(a, topsize);
      }
      ChangesPlaces(a, View(), Bins());
    }

    /** Gets memory for a request, if there is any, and adds it to the top chunk. */
    method GetMemory(nb: nat, asize: nat, extra: nat) returns (ok: bool)
      requires Core() && Tidy() && topsize <= nb < asize && Sized(nb, topsize, asize, extra)
      modifies `head, `top, `topsize, `segsize, `contiguous, `chunks, `prev
      modifies heap, heap.vmm`mem, heap.vmm`role, heap.vmm.pmm, heap.vmm.pmm.bmap
      ensures heap.Valid() <==> !old(Wraps(heap.brk, nb, asize, extra, contiguous))
      ensures heap.Valid() ==> heap.brk == H.BASE + segsize
      ensures heap.Valid() ==> Replies(old(heap.Now()), heap.Now(), if old(contiguous) then extra else asize, ok)
      ensures segsize % GRANULARITY == 0 && H.Keeps(old(heap.Now()), heap.Now())
      ensures ok ==> Row() && Stored({}) && Changes(old(View()), View(), map[]) && nb < topsize
      ensures !ok ==> View() == old(View()) && segsize == old(segsize) && (heap.Valid() ==> Refused(nb, asize))
      ensures contiguous == (old(contiguous) && ok)
    {
      var tsize := AskMore(nb, asize, extra);
      if tsize.None? { return false; }
      Multiples(segsize, tsize.value);
      TakeIn(tsize.value);
      return true;
    }

    /** Asks for memory, which is no concern of the chunks above. */
    method AskMore(nb: nat, asize: nat, extra: nat) returns (tsize: Option<nat>)
      requires Core() && Tidy() && topsize <= nb < asize && Sized(nb, topsize, asize, extra)
      modifies `contiguous, heap, heap.vmm`mem, heap.vmm`role, heap.vmm.pmm, heap.vmm.pmm.bmap
      ensures heap.Valid() <==> !old(Wraps(heap.brk, nb, asize, extra, contiguous))
      ensures tsize.Some? ==> tsize.value % GRANULARITY == 0 && nb + SYS_ALLOC_PADDING <= topsize + tsize.value
      ensures heap.Valid() ==> Answers(old(heap.Now()), heap.Now(), if old(contiguous) then extra else asize, tsize)
      ensures heap.Valid() ==> heap.brk == H.BASE + segsize + (if tsize.Some? then tsize.value else 0)
      ensures heap.Valid() && tsize.None? ==> Refused(nb, asize)
      ensures H.Keeps(old(heap.Now()), heap.Now())
      ensures Tidy() && topsize <= segsize
      ensures contiguous == (old(contiguous) && tsize.Some?)
    {
      TopInSegment();
      tsize := AskCore(nb, asize, extra);
    }

    /** Adds memory to the top chunk, which is no concern of the heap below. */
    method TakeIn(tsize: nat)
      requires Stored({}) && tsize >= SYS_ALLOC_PADDING && tsize % GRANULARITY == 0
      requires if top == 0 then chunks == {} && topsize == 0 && segsize == 0 else Row()
      modifies `head, `top, `topsize, `segsize, `chunks, `prev
      ensures Row() && Stored({}) && Changes(old(View()), View(), map[])
      ensures segsize == old(segsize) + tsize
      ensures topsize == (if old(top) == 0 then tsize - TOP_FOOT_SIZE else old(topsize) + tsize)
      ensures heap.Valid() == old(heap.Valid()) && heap.Now() == old(heap.Now()) && heap.brk == old(heap.brk)
    {
      AddMemory(tsize);
    }

    lemma TopInSegment()
      requires Tidy()
      ensures topsize <= segsize && (top == 0 ==> topsize == 0)
    {
      if top != 0 { assert View().BorderOk(top); }
    }

    /** Serves a request with memory from the system. */
    method SysAlloc(nb: nat, asize: nat, extra: nat) returns (p: Addr)
      requires Core() && Tidy() && topsize <= nb && Sized(nb, topsize, asize, extra)
      requires asize > nb ==> nb % ALIGNMENT == 0 && nb >= MIN_CHUNK_SIZE
      modifies `head, `top, `topsize, `segsize, `contiguous, `chunks, `prev
      modifies heap, heap.vmm`mem, heap.vmm`role, heap.vmm.pmm, heap.vmm.pmm.bmap
      ensures Tidy() && (heap.Valid() <==> !old(Wraps(heap.brk, nb, asize, extra, contiguous)))
      ensures segsize % GRANULARITY == 0 && (heap.Valid() ==> heap.brk == H.BASE + segsize)
      ensures heap.Valid() ==>
        Outcome(old(heap.Now()), heap.Now(), false, nb, asize, old(Asked(asize, extra)), p != 0)
      ensures p != 0 ==> asize > nb
      ensures H.Keeps(old(heap.Now()), heap.Now())
      ensures p >= 0 && (p != 0 ==> Row() && Allocates(old(View()), View(), p, nb))
      ensures p == 0 ==> View() == old(View()) && (heap.Valid() ==> Refused(nb, asize))
      ensures contiguous == (old(contiguous) && (p != 0 || asize <= nb))
      ensures p != 0 ==> old(View()).Stat(p) == Nothing
    {
      p := 0;
      ghost var h, size := heap.Now(), Asked(asize, extra);
      H.SameAtFirst(h.space, H.PageOf(h.end));
      if asize <= nb {
        NotAsked(h, false, nb, asize, size);
        return;
      }
      ghost var a := View();
      var ok := GetMemory(nb, asize, extra);
      if heap.Valid() { WasAsked(h, heap.Now(), nb, asize, size, ok); }
      if ok { p := FromNewTop(a, nb); }
    }

    /** Serves a request from the top chunk that has just been extended. */
    method FromNewTop(ghost a: Arena, nb: nat) returns (p: Addr)
      requires Row() && Stored({}) && Changes(a, View(), map[]) && MIN_CHUNK_SIZE <= nb < topsize && nb % ALIGNMENT == 0
      modifies `head, `top, `topsize, `chunks, `prev
      ensures Row() && Stored({}) && p > 0 && Allocates(a, View(), p, nb)
      ensures a.Stat(p) == Nothing
      ensures heap.Valid() == old(heap.Valid()) && heap.Now() == old(heap.Now()) && heap.brk == old(heap.brk)
    {
      ghost var b := View();
      p := FromTop(nb);
      AllocatesLater(a, b, View(), p, nb);
      ChunkIsSomewhere(View(), p);
    }

    /** The system has no memory for a chunk of `nb` bytes, for which `full` bytes would be needed. */
    ghost predicate Refused(nb: nat, full: nat)
      reads heap, heap.vmm, heap.vmm.pmm
    {
      full <= nb || full >= HALF_MAX || heap.brk + full > H.BASE + H.SIZE || heap.vmm.pmm.free == {}
    }

    /** The chunk size asked for; requests near the size of the address space become one that cannot be served. */
    static function ChunkSize(bytes: nat): (nb: nat)
      ensures bytes < MAX_REQUEST ==> nb % ALIGNMENT == 0 && nb >= MIN_CHUNK_SIZE && bytes + 8 <= nb
      ensures bytes < MAX_REQUEST ==> nb < bytes + 24 || nb == MIN_CHUNK_SIZE
      ensures bytes >= MAX_REQUEST ==> nb >= Z.WORD - 1
    {
      Sixteens((bytes + 23) / 16);
      if bytes <= MAX_SMALL_REQUEST then Padded(bytes)
      else if bytes >= MAX_REQUEST then Z.WORD - 1
      else PadRequest(bytes)
    }

    /** Tries the bins. */
    method FromBins(bytes: nat) returns (p: Addr)
      requires Ready() && bytes < Z.WORD
      modifies `head, `foot, `chunks, `prev, `dv, `dvsize, small, tree
      ensures Ready()
      ensures p != 0 ==>
        && Row() && Carves(old(View()), View(), p, ChunkSize(bytes))
        && Prefers(old(View()), old(Bins()), p, ChunkSize(bytes))
      ensures p == 0 ==> View() == old(View()) && Bins() == old(Bins())
      ensures p == 0 ==> var nb := ChunkSize(bytes);
        if nb > dvsize then NoneFits(View(), nb) else Prefers(View(), Bins(), dv, nb)
      ensures p != 0 ==> Bins() == AfterServing(old(View()), old(Bins()), p, ChunkSize(bytes))
    {
      p := 0;
      if bytes <= MAX_SMALL_REQUEST {
        p := MallocSmall(Padded(bytes));
      } else if bytes >= MAX_REQUEST {
        NothingThatLarge();
      } else {
        Sixteens((bytes + 23) / 16);
        p := MallocLarge(PadRequest(bytes));
      }
    }

    /** Tries the trees for a large request. */
    method MallocLarge(nb: nat) returns (p: Addr)
      requires Ready() && S.SMALL_LIMIT <= nb < Z.WORD && nb % ALIGNMENT == 0
      modifies `head, `foot, `chunks, `prev, small, tree
      ensures Ready()
      ensures p != 0 ==> Row() && Carves(old(View()), View(), p, nb) && Prefers(old(View()), old(Bins()), p, nb)
      ensures p == 0 ==> View() == old(View()) && Bins() == old(Bins())
      ensures p == 0 ==> if nb > dvsize then NoneFits(View(), nb) else Prefers(View(), Bins(), dv, nb)
      ensures p != 0 ==> Bins() == AfterServing(old(View()), old(Bins()), p, nb)
    {
      p := 0;
      ghost var a, b := View(), Bins();
      SmallIsSmall(nb);
      if tree.treemap != B.EMPTY {
        HeldMeansRow(0);
        p := TmallocLarge(nb);
      } else {
        T.NothingHeld(tree.View());
      }
      if p == 0 {
        NoneFitsLarge(nb);
      } else {
        assert PlacedBut(a, b, {}, p);
        PrefersLeast(a, b, p, b.large[p], nb);
      }
    }

    /** A free chunk, or the top chunk, can serve a chunk of `nb` bytes. */
    ghost predicate Fits(nb: nat)
      reads `head, `foot, `top, `topsize, `chunks, `prev
    {
      !NoneFits(View(), nb) || nb < topsize
    }

    /** Serves a request from what is there, without the system. */
    method Serve(bytes: nat) returns (p: Addr)
      requires Ready() && bytes < Z.WORD
      modifies `head, `foot, `top, `topsize, `dv, `dvsize, `chunks, `prev, small, tree
      ensures Ready() && p >= 0 && (p != 0 <==> old(Fits(ChunkSize(bytes))))
      ensures p != 0 ==> Row() && Allocates(old(View()), View(), p, ChunkSize(bytes)) && ChunkSize(bytes) <= H.SIZE
      ensures p != 0 ==> Prefers(old(View()), old(Bins()), p, ChunkSize(bytes))
      ensures p == 0 ==> View() == old(View()) && Bins() == old(Bins()) && segsize == old(segsize)
      ensures p != 0 ==> Bins() == AfterServing(old(View()), old(Bins()), p, ChunkSize(bytes))
    {
      var nb := ChunkSize(bytes);
      NothingThatLarge();
      p := FromBins(bytes);
      if p == 0 {
        if nb <= dvsize {
          VictimIsFree(View(), Bins(), {});
          p := FromDv(nb);
        } else if nb < topsize {
          p := FromTop(nb);
        } else {
          return;
        }
      }
      ChunkBounds(View(), p);
      assert View().BorderOk(top);
    }

    static lemma SizesFor(bytes: nat, brk: nat, top: Addr, topsize: nat, contiguous: bool)
      requires bytes < Z.WORD && brk <= H.BASE + H.SIZE && (top == 0 ==> topsize == 0)
      ensures var nb := ChunkSize(bytes);
        && (topsize <= nb ==> Sized(nb, topsize, FullSize(nb), ExtraSize(nb, top, topsize)))
        && (FullSize(nb) > nb || nb <= H.SIZE ==> nb % ALIGNMENT == 0 && nb >= MIN_CHUNK_SIZE && bytes + 8 <= nb)
        && (nb <= H.SIZE && topsize <= nb ==> !Wraps(brk, nb, FullSize(nb), ExtraSize(nb, top, topsize), contiguous))
    {
      var nb := ChunkSize(bytes);
      if bytes >= MAX_REQUEST { TooLarge(); } else { RequestSize(bytes); }
      if topsize <= nb {
        Sizes(nb, top, topsize);
        if nb <= H.SIZE { SmallDoesNotWrap(brk, nb, top, topsize, contiguous); }
      }
    }

    static lemma RequestSize(bytes: nat)
      requires bytes < MAX_REQUEST
      ensures var nb := ChunkSize(bytes); nb % ALIGNMENT == 0 && nb >= MIN_CHUNK_SIZE && bytes + 8 <= nb < Z.WORD - 1
    {
      if bytes > MAX_SMALL_REQUEST { Sixteens((bytes + 23) / 16); }
    }

    /** How much the system is asked for; after a refusal always the whole amount. */
    ghost function Asked(asize: nat, extra: nat): nat
      reads `contiguous
    {
      if contiguous then extra else asize
    }

    /** Where new memory counts from: the top chunk, which is extended, or the break. */
    ghost function Bottom(): nat
      reads `top, `contiguous, heap
    {
      if contiguous && top > 0 then top + TOP_FOOT_SIZE else heap.brk
    }

    /** The break for a chunk of `nb` bytes after `from` lies past the end of the address space. */
    ghost predicate PastEnd(from: nat, nb: nat)
      reads heap
    {
      NewBreak(from, nb) >= Z.WORD && NewBreak(from, nb) - heap.brk < HALF_MAX
    }

    /** Asking the system for this much moves the break past the end of the address space. */
    ghost predicate Overreaches(bytes: nat)
      reads `top, `topsize, `contiguous, heap
    {
      var nb := ChunkSize(bytes);
      && topsize <= nb && !NoRoundingUp(nb)
      && (PastEnd(Bottom(), nb) || PastEnd(heap.brk, nb))
    }

    /** Something that is there serves the request, or there is a frame for the last page that it needs. */
    ghost predicate Servable(bytes: nat)
      reads `head, `foot, `top, `topsize, `chunks, `prev, `contiguous, heap, heap.vmm, heap.vmm.pmm
    {
      var nb := ChunkSize(bytes);
      Fits(nb) || heap.Now().Reaches(NewBreak(Bottom(), nb))
    }

    /** Nothing that is there serves the request, and the frames run out between a page that it needs and its tables. */
    ghost predicate Tears(bytes: nat)
      reads `head, `foot, `top, `topsize, `chunks, `prev, `contiguous, heap, heap.vmm, heap.vmm.pmm
    {
      var nb := ChunkSize(bytes);
      !Fits(nb) && !heap.Now().Covers(NewBreak(Bottom(), nb))
    }

    /** What is asked for moves the break exactly to where it has to be. */
    lemma BreakAskedFor(nb: nat)
      requires Core() && Tidy() && topsize <= nb < FullSize(nb) && nb < Z.WORD
      ensures heap.brk + FullSize(nb) == NewBreak(heap.brk, nb)
      ensures contiguous ==> heap.brk + ExtraSize(nb, top, topsize) == NewBreak(Bottom(), nb)
    {
      TopInSegment();
      BottomIsBelow();
      BreakBySizes(heap.brk, nb, top, topsize);
    }

    lemma BottomIsBelow()
      requires Core() && Tidy()
      ensures heap.brk % GRANULARITY == 0 && (contiguous ==> Bottom() == heap.brk - topsize)
    {
      Multiples(H.BASE, segsize);
    }

    /** The outcome of a request, without the amounts that are asked for. */
    lemma AskedPlainly(bytes: nat)
      requires Core() && Tidy() && bytes < Z.WORD
      ensures var nb := ChunkSize(bytes);
        var full, extra := FullSize(nb), ExtraSize(nb, top, topsize);
        && (Overreaches(bytes) <==> topsize <= nb && Wraps(heap.brk, nb, full, extra, contiguous))
        && (full <= nb <==> NoRoundingUp(nb))
        && (Servable(bytes) <==> CanServe(heap.Now(), Fits(nb), nb, full, Asked(full, extra)))
        && (Tears(bytes) <==> LeavesHole(heap.Now(), Fits(nb), nb, full, Asked(full, extra)))
    {
      var nb := ChunkSize(bytes);
      if topsize <= nb {
        BreaksAskedFor(nb);
        ServedPlainly(heap.Now(), Fits(nb), nb, FullSize(nb), Asked(FullSize(nb), ExtraSize(nb, top, topsize)),
          NewBreak(Bottom(), nb));
      } else {
        RoundingUp(nb);
      }
    }

    /**
      With frames for the whole heap a request succeeds exactly when something that is there fits, or its chunk with
      the padding fits between the top chunk and the limit; and the heap stays whole.
     */
    lemma RoomMeansServed(bytes: nat)
      requires Valid() && bytes < Z.WORD && |heap.vmm.pmm.free| >= H.PLENTY
      ensures var nb := ChunkSize(bytes);
        Servable(bytes) <==> Fits(nb) || Bottom() + nb + SYS_ALLOC_PADDING <= H.BASE + H.SIZE
      ensures !Tears(bytes)
    {
      var nb := ChunkSize(bytes);
      TopInSegment();
      BottomIsBelow();
      BreakIsEnough(Bottom(), nb);
      BreakWithin(Bottom(), nb);
      H.PlentyIsEnough(heap.Now(), NewBreak(Bottom(), nb));
    }

    lemma BreaksAskedFor(nb: nat)
      requires Core() && Tidy() && topsize <= nb < Z.WORD
      ensures nb < FullSize(nb) <==> !NoRoundingUp(nb)
      ensures nb < FullSize(nb) ==>
        && heap.brk + FullSize(nb) == NewBreak(heap.brk, nb)
        && heap.brk + Asked(FullSize(nb), ExtraSize(nb, top, topsize)) == NewBreak(Bottom(), nb)
      ensures nb >= FullSize(nb) ==> NewBreak(Bottom(), nb) > H.BASE + H.SIZE
    {
      if nb + SYS_ALLOC_PADDING + GRANULARITY <= Z.WORD {
        FullSizeBounds(nb);
        BreakAskedFor(nb);
      } else {
        RoundedToNothing(nb);
        TopInSegment();
        BreakIsEnough(Bottom(), nb);
      }
    }

    /**
      Allocates a block: aligned, at least as large as asked for, and apart from all others. It succeeds exactly when
      something that is there serves the request or the system has the memory. The allocator stays in order exactly
      when the request does not make the break wrap, and the heap stays whole exactly when no page is left out.
     */
    method Malloc(bytes: nat) returns (mem: Addr)
      requires Valid() && bytes < Z.WORD
      modifies this, small, tree, heap, heap.vmm`mem, heap.vmm`role, heap.vmm.pmm, heap.vmm.pmm.bmap
      ensures Valid() <==> !old(Overreaches(bytes))
      ensures Valid() ==> (mem != 0 <==> old(Servable(bytes)))
      ensures Valid() ==> (heap.Now().Whole() <==> old(heap.Now().Whole() && !Tears(bytes)))
      ensures H.Keeps(old(heap.Now()), heap.Now())
      ensures contiguous == (old(contiguous) && (mem != 0 || NoRoundingUp(ChunkSize(bytes))))
      ensures mem != 0 ==> mem % ALIGNMENT == 0 && bytes + 8 <= ChunkSize(bytes)
      ensures mem != 0 ==> ChunkSize(bytes) < bytes + 24 || ChunkSize(bytes) == MIN_CHUNK_SIZE
      ensures mem != 0 ==> Allocates(old(View()), View(), mem - 16, ChunkSize(bytes))
      ensures mem != 0 ==> Prefers(old(View()), old(Bins()), mem - 16, ChunkSize(bytes))
      ensures mem == 0 ==> View() == old(View())
      ensures mem != 0 ==> Bins() == AfterServing(old(View()), old(Bins()), mem - 16, ChunkSize(bytes))
      ensures mem == 0 ==> Bins() == old(Bins())
    {
      var p := TakeChunk(bytes);
      if p == 0 { return 0; }
      mem := p + 16;
      assert mem - 16 == p;
    }

    /** The chunk of the block. */
    method TakeChunk(bytes: nat) returns (p: Addr)
      requires Valid() && bytes < Z.WORD
      modifies this, small, tree, heap, heap.vmm`mem, heap.vmm`role, heap.vmm.pmm, heap.vmm.pmm.bmap
      ensures Valid() <==> !old(Overreaches(bytes))
      ensures Valid() ==> (p != 0 <==> old(Servable(bytes)))
      ensures Valid() ==> (heap.Now().Whole() <==> old(heap.Now().Whole() && !Tears(bytes)))
      ensures H.Keeps(old(heap.Now()), heap.Now())
      ensures contiguous == (old(contiguous) && (p != 0 || NoRoundingUp(ChunkSize(bytes))))
      ensures p >= 0 && (p != 0 ==> (p + 16) % ALIGNMENT == 0 && bytes < MAX_REQUEST)
      ensures p != 0 ==> Allocates(old(View()), View(), p, ChunkSize(bytes))
      ensures p != 0 ==> Prefers(old(View()), old(Bins()), p, ChunkSize(bytes))
      ensures p == 0 ==> View() == old(View())
      ensures p != 0 ==> Bins() == AfterServing(old(View()), old(Bins()), p, ChunkSize(bytes))
      ensures p == 0 ==> Bins() == old(Bins())
    {
      var nb := ChunkSize(bytes);
      AskedPlainly(bytes);
      ghost var over, servable := Overreaches(bytes), Servable(bytes);
      SizesFor(bytes, heap.brk, top, topsize, contiguous);
      p := Obtain(bytes, nb, FullSize(nb), ExtraSize(nb, top, topsize));
      assert heap.Valid() <==> !over;
      assert heap.Valid() ==> (p != 0 <==> servable);
    }

    /** Gets a chunk of `nb` bytes from what is there, or else from the system. */
    method Obtain(bytes: nat, nb: nat, asize: nat, extra: nat) returns (p: Addr)
      requires Core() && Tidy() && bytes < Z.WORD && nb == ChunkSize(bytes)
      requires topsize <= nb ==> Sized(nb, topsize, asize, extra)
      requires asize > nb || nb <= H.SIZE ==> nb % ALIGNMENT == 0 && nb >= MIN_CHUNK_SIZE
      requires nb <= H.SIZE && topsize <= nb ==> !Wraps(heap.brk, nb, asize, extra, contiguous)
      modifies this, small, tree, heap, heap.vmm`mem, heap.vmm`role, heap.vmm.pmm, heap.vmm.pmm.bmap
      ensures Tidy() && (heap.Valid() <==> !(old(topsize) <= nb && old(Wraps(heap.brk, nb, asize, extra, contiguous))))
      ensures segsize % GRANULARITY == 0 && (heap.Valid() ==> heap.brk == H.BASE + segsize)
      ensures heap.Valid() ==>
        Outcome(old(heap.Now()), heap.Now(), old(Fits(nb)), nb, asize, old(Asked(asize, extra)), p != 0)
      ensures H.Keeps(old(heap.Now()), heap.Now())
      ensures p >= 0 && (p != 0 ==>
        Allocates(old(View()), View(), p, nb) && (p + 16) % ALIGNMENT == 0 && (nb <= H.SIZE || asize > nb))
      ensures p == 0 ==> View() == old(View())
      ensures p != 0 ==> Prefers(old(View()), old(Bins()), p, nb)
      ensures contiguous == (old(contiguous) && (p != 0 || asize <= nb))
      ensures p != 0 ==> Bins() == AfterServing(old(View()), old(Bins()), p, nb)
      ensures p == 0 ==> Bins() == old(Bins())
    {
      ghost var h, size := heap.Now(), Asked(asize, extra);
      H.SameAtFirst(h.space, H.PageOf(h.end));
      p := Serve(bytes);
      if p == 0 {
        ghost var a, b := View(), Bins();
        p := SysAlloc(nb, asize, extra);
        if p == 0 { return; }
        FromNowhere(a, b, p, nb);
      } else {
        NotAsked(h, true, nb, asize, size);
      }
      BlockIsAligned(View(), p);
    }

    /**
      In a whole heap every byte of every block lies in a page with a frame of its own, which the kernel can write
      whatever address space is in use.
     */
    lemma BlocksBacked(p: Addr, x: Addr, r: Frame)
      requires Valid() && heap.Now().Whole() && View().InUse(p) && InBlock(View(), p, x)
      ensures x >= 0 && H.Backed(heap.vmm.View(), H.PageOf(x)) && V.PathTo(x) == H.HeapPath(H.PageOf(x))
      ensures heap.vmm.View().IsRoot(r) && 288 !in heap.vmm.guarded ==> MayWrite(heap.vmm.mem, r, 4, V.PathTo(x))
    {
      BlockBelowBreak(p, x);
      H.PathOfByte(x);
      if heap.vmm.View().IsRoot(r) && 288 !in heap.vmm.guarded { H.BackedIsWritable(heap.vmm.View(), H.PageOf(x), r); }
    }

    /** Every byte of every block lies below the break, in a page below the end of the heap's pages. */
    lemma BlockBelowBreak(p: Addr, x: Addr)
      requires Valid() && View().InUse(p) && InBlock(View(), p, x)
      ensures H.BASE <= x < heap.brk && H.PageOf(x) < H.PageOf(heap.mappedEnd)
    {
      BlocksApart(View(), p, p, x);
      H.PageBelow(x, heap.mappedEnd);
    }

    /** Moves the break down. */
    method LessCore(size: nat)
      requires heap.Valid() && size < HALF_MAX && H.BASE + size <= heap.brk
      modifies heap, heap.vmm`mem, heap.vmm`role, heap.vmm.pmm, heap.vmm.pmm.bmap
      ensures heap.Valid() && heap.brk == old(heap.brk) - size && Trimmed(old(heap.Now()), heap.Now())
      ensures size > 0 ==> H.GivesBack(old(heap.Now()), heap.Now())
    {
      var br := heap.Sbrk(0 - size);
    }

    /**
      Gives whole units at the end of the top chunk back to the system, keeping more than `pad` bytes of it and at
      most a unit more. No block is touched, and every page of the heap that is left keeps its frame.
     */
    method SysTrim(pad: nat) returns (released: bool)
      requires Valid()
      modifies `head, `topsize, `segsize, heap, heap.vmm`mem, heap.vmm`role, heap.vmm.pmm, heap.vmm.pmm.bmap
      ensures Valid() && Changes(old(View()), View(), map[])
      ensures released <==> pad < MAX_REQUEST && old(topsize) > pad + TOP_FOOT_SIZE + GRANULARITY
      ensures released ==> pad + TOP_FOOT_SIZE < topsize <= pad + TOP_FOOT_SIZE + GRANULARITY
      ensures !released ==> View() == old(View()) && heap.brk == old(heap.brk)
      ensures Trimmed(old(heap.Now()), heap.Now())
      ensures released ==> H.GivesBack(old(heap.Now()), heap.Now())
    {
      H.SameAtFirst(heap.vmm.View(), H.PageOf(heap.mappedEnd));
      if pad >= MAX_REQUEST || top == 0 || topsize <= pad + TOP_FOOT_SIZE { return false; }
      TopInSegment();
      var extra := WholeUnits(topsize, pad + TOP_FOOT_SIZE, segsize);
      released := ReleaseUnits(extra);
    }

    /** Gives `extra` bytes at the end of the top chunk back to the system. */
    method ReleaseUnits(extra: nat) returns (released: bool)
      requires Valid() && top != 0 && extra <= topsize && extra <= segsize && extra < HALF_MAX
      requires (topsize - extra) % ALIGNMENT == 0 && (segsize - extra) % GRANULARITY == 0
      modifies `head, `topsize, `segsize, heap, heap.vmm`mem, heap.vmm`role, heap.vmm.pmm, heap.vmm.pmm.bmap
      ensures Valid() && Changes(old(View()), View(), map[]) && topsize == old(topsize) - extra
      ensures released <==> extra > 0
      ensures !released ==> View() == old(View()) && heap.brk == old(heap.brk)
      ensures Trimmed(old(heap.Now()), heap.Now())
      ensures released ==> H.GivesBack(old(heap.Now()), heap.Now())
    {
      var size := LowerBreak(extra);
      released := size > 0;
      if released { CutTop(size); }
    }

    /** Gives memory back to the system; how much is seen from where the break is then. */
    method LowerBreak(extra: nat) returns (size: nat)
      requires Core() && Tidy() && extra < HALF_MAX && H.BASE + extra <= heap.brk
      modifies heap, heap.vmm`mem, heap.vmm`role, heap.vmm.pmm, heap.vmm.pmm.bmap
      ensures heap.Valid() && Tidy() && size == extra && heap.brk == old(heap.brk) - size
      ensures Trimmed(old(heap.Now()), heap.Now()) && (size > 0 ==> H.GivesBack(old(heap.Now()), heap.Now()))
    {
      var oldBrk := heap.brk;
      LessCore(extra);
      var newBrk := heap.brk;
      return if newBrk < oldBrk then oldBrk - newBrk else 0;
    }

    /** Takes memory off the end of the top chunk. */
    method CutTop(size: nat)
      requires Row() && Stored({}) && size <= topsize && size <= segsize && (topsize - size) % ALIGNMENT == 0
      modifies `head, `topsize, `segsize
      ensures Row() && Stored({}) && Changes(old(View()), View(), map[])
      ensures topsize == old(topsize) - size && segsize == old(segsize) - size
      ensures heap.Valid() == old(heap.Valid()) && heap.Now() == old(heap.Now()) && heap.brk == old(heap.brk)
    {
      ghost var a := View();
      segsize := segsize - size;
      topsize := topsize - size;
      head := head[top := Head(topsize, true, false)];
      TopResizedOk(a, topsize);
      assert View() == TopResized(a, topsize);
      ChangesPlaces(a, View(), Bins());
    }
  }
}
