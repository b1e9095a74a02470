/** The physical memory manager: one bit per page frame, set when the frame is taken. */
module Pmm {

  type Frame = nat

  const PAGE_SIZE: nat := 4096

  /** A byte of the bitmap as its eight bits, the least significant first. */
  type Byte = b: seq<bool> | |b| == 8 witness [true, true, true, true, true, true, true, true]

  const FULL: Byte := [true, true, true, true, true, true, true, true]

  /** A frame is free when its bit is clear. */
  ghost predicate BitOk(bytes: seq<Byte>, free: set<Frame>, f: Frame) {
    f in free <==> f < 8 * |bytes| && !bytes[f / 8][f % 8]
  }

  ghost predicate Shows(bytes: seq<Byte>, free: set<Frame>) {
    forall f: Frame {:trigger BitOk(bytes, free, f)} :: BitOk(bytes, free, f)
  }

  lemma Bounded(bytes: seq<Byte>, free: set<Frame>)
    requires Shows(bytes, free)
    ensures forall f | f in free :: f < 8 * |bytes|
  {
    forall f | f in free ensures f < 8 * |bytes| { assert BitOk(bytes, free, f); }
  }

  lemma BitOfFrame(i: nat, bit: nat)
    requires bit < 8
    ensures (8 * i + bit) / 8 == i && (8 * i + bit) % 8 == bit
  {}

  lemma PageAddress(f: Frame)
    ensures f * PAGE_SIZE % PAGE_SIZE == 0 && f * PAGE_SIZE / PAGE_SIZE == f
  {}

  /** Writing one bit changes the answer for one frame. */
  lemma BitWritten(bytes: seq<Byte>, free: set<Frame>, f: Frame, taken: bool)
    requires f < 8 * |bytes| && Shows(bytes, free)
    ensures Shows(bytes[f / 8 := bytes[f / 8][f % 8 := taken]], if taken then free - {f} else free + {f})
  {
    var bytes' := bytes[f / 8 := bytes[f / 8][f % 8 := taken]];
    var free' := if taken then free - {f} else free + {f};
    forall g: Frame ensures BitOk(bytes', free', g) {
      assert BitOk(bytes, free, g);
      if g / 8 == f / 8 && g != f { assert g % 8 != f % 8; }
    }
  }

  // ---------- Set-up from the memory map ----------

  datatype Kind = Usable | Reclaimable | KernelImage | Other

  datatype Region = Region(base: nat, length: nat, kind: Kind) {
    function End(): nat { base + length }

    function FirstPage(): nat { (base + PAGE_SIZE - 1) / PAGE_SIZE }

    function LastPage(): nat { End() / PAGE_SIZE }

    /** `f` is a whole page inside a usable region. */
    ghost predicate Holds(f: Frame) {
      kind == Usable && FirstPage() <= f < LastPage()
    }
  }

  /** What can be handed out: the whole pages of the first `n` regions. */
  ghost predicate Available(regions: seq<Region>, n: nat, f: Frame)
    requires n <= |regions|
  {
    exists i :: 0 <= i < n && regions[i].Holds(f)
  }

  /** The end of the highest usable or reclaimable region. */
  function Highest(regions: seq<Region>): nat
    requires regions != []
  {
    var r := regions[|regions| - 1];
    var below := if |regions| == 1 then regions[0].base else Highest(regions[..|regions| - 1]);
    if (r.kind == Usable || r.kind == Reclaimable) && r.End() > below then r.End() else below
  }

  /** The first usable region that can hold the bitmap, or the number of regions. */
  function FirstFit(regions: seq<Region>, bytes: nat): (k: nat)
    ensures k <= |regions|
    ensures k < |regions| ==> regions[k].kind == Usable && regions[k].length >= bytes
    ensures forall j | 0 <= j < k :: !(regions[j].kind == Usable && regions[j].length >= bytes)
  {
    if regions == [] then 0
    else if regions[0].kind == Usable && regions[0].length >= bytes then 0
    else 1 + FirstFit(regions[1..], bytes)
  }

  /** The memory map after the bitmap took the start of region `k`. */
  function Carved(regions: seq<Region>, k: nat, bytes: nat): seq<Region>
    requires k < |regions| && regions[k].length >= bytes
  {
    regions[k := regions[k].(base := regions[k].base + bytes, length := regions[k].length - bytes)]
  }

  ghost predicate NoneBelow(free: set<Frame>, n: nat) {
    forall f | f in free :: f >= n
  }

  /** Bits seen set up to a position rule out free frames below it. */
  lemma ScannedBits(bytes: seq<Byte>, free: set<Frame>, i: nat, bit: nat)
    requires i < |bytes| && bit <= 8 && (forall j | 0 <= j < bit :: bytes[i][j])
    requires Shows(bytes, free) && NoneBelow(free, 8 * i)
    ensures NoneBelow(free, 8 * i + bit)
  {
    forall f | f in free ensures f >= 8 * i + bit {
      assert BitOk(bytes, free, f);
    }
  }

  /** Regions do not share bytes. */
  ghost predicate Disjoint(regions: seq<Region>) {
    forall i, j | 0 <= i < j < |regions| :: regions[i].End() <= regions[j].base || regions[j].End() <= regions[i].base
  }

  /** The pages of a usable region are exactly those that lie inside it as a whole. */
  lemma PageInside(r: Region, f: Frame)
    ensures r.Holds(f) <==> r.kind == Usable && r.base <= f * PAGE_SIZE && (f + 1) * PAGE_SIZE <= r.End()
  {}

  /** In disjoint regions a page belongs to one region only. */
  lemma OneRegion(regions: seq<Region>, i: nat, j: nat, f: Frame)
    requires Disjoint(regions) && i < |regions| && j < |regions| && regions[i].Holds(f) && regions[j].Holds(f)
    ensures i == j
  {
    PageInside(regions[i], f);
    PageInside(regions[j], f);
  }

  /** Carving the bitmap out keeps the regions disjoint, and no page that is left overlaps the bitmap. */
  lemma CarvedRegions(regions: seq<Region>, k: nat, bytes: nat)
    requires Disjoint(regions) && k < |regions| && regions[k].length >= bytes
    ensures Disjoint(Carved(regions, k, bytes))
    ensures forall f: Frame | Available(Carved(regions, k, bytes), |regions|, f) ::
      (f + 1) * PAGE_SIZE <= regions[k].base || regions[k].base + bytes <= f * PAGE_SIZE
  {
    var c := Carved(regions, k, bytes);
    forall f: Frame | Available(c, |regions|, f)
      ensures (f + 1) * PAGE_SIZE <= regions[k].base || regions[k].base + bytes <= f * PAGE_SIZE
    {
      var i :| 0 <= i < |c| && c[i].Holds(f);
      PageInside(c[i], f);
    }
  }

  lemma {:induction false} BelowHighest(regions: seq<Region>, i: nat)
    requires i < |regions| && regions[i].kind == Usable
    ensures regions[i].End() <= Highest(regions)
  {
    var n := |regions| - 1;
    if i < n {
      assert regions[..n][i] == regions[i];
      BelowHighest(regions[..n], i);
    }
  }

  /** Every whole page of the usable regions has a bit in a bitmap of this many bytes: a test of each region's end. */
  predicate Covers(bytes: nat, regions: seq<Region>) {
    forall i | 0 <= i < |regions| ::
      regions[i].kind == Usable && regions[i].FirstPage() < regions[i].LastPage() ==> regions[i].LastPage() <= 8 * bytes
  }

  lemma CoversPages(bytes: nat, regions: seq<Region>)
    ensures Covers(bytes, regions) <==> forall f: Frame | Available(regions, |regions|, f) :: f < 8 * bytes
  {
    forall i | 0 <= i < |regions| && regions[i].kind == Usable && regions[i].FirstPage() < regions[i].LastPage()
      ensures Available(regions, |regions|, regions[i].LastPage() - 1)
    {
      assert regions[i].Holds(regions[i].LastPage() - 1);
    }
  }

  /** The highest address is the least that is above every usable and reclaimable region, and above the first base. */
  lemma {:induction false} HighestIsLeast(regions: seq<Region>, x: nat)
    requires regions != []
    ensures Highest(regions) <= x <==>
      && regions[0].base <= x
      && forall i | 0 <= i < |regions| && (regions[i].kind == Usable || regions[i].kind == Reclaimable) ::
           regions[i].End() <= x
  {
    var n := |regions| - 1;
    if n > 0 {
      HighestIsLeast(regions[..n], x);
      assert forall i | 0 <= i < n :: regions[..n][i] == regions[i];
    } else {
      assert regions == [regions[0]];
    }
  }

  /** The bitmap takes the pages that it touches in region `k`, and nothing else. */
  lemma CarvedPages(regions: seq<Region>, k: nat, bytes: nat, f: Frame)
    requires k < |regions| && regions[k].length >= bytes
    ensures Available(Carved(regions, k, bytes), |regions|, f) <==>
      exists i :: 0 <= i < |regions| && regions[i].Holds(f) && (i == k ==> regions[k].base + bytes <= f * PAGE_SIZE)
  {
    var c := Carved(regions, k, bytes);
    PageInside(regions[k], f);
    PageInside(c[k], f);
    forall i | 0 <= i < |regions| && i != k ensures c[i] == regions[i] {}
    if i :| 0 <= i < |regions| && regions[i].Holds(f) && (i == k ==> regions[k].base + bytes <= f * PAGE_SIZE) {
      assert c[i].Holds(f);
    }
  }

  /**
    The number of bitmap bytes is rounded down. The bitmap has a bit for every page that can be handed out exactly
    when no usable region with a whole page ends among the last frames, which do not fill a byte.
   */
  lemma BitmapCovers(regions: seq<Region>, k: nat)
    requires k < |regions| && regions[k].kind == Usable
    requires regions[k].length >= Highest(regions) / PAGE_SIZE / 8
    ensures var frames := Highest(regions) / PAGE_SIZE;
      var carved := Carved(regions, k, frames / 8);
      && (forall f: Frame | Available(carved, |regions|, f) :: f < frames)
      && ((forall f: Frame | Available(carved, |regions|, f) :: f < 8 * (frames / 8)) <==>
          (forall i | 0 <= i < |regions| && carved[i].kind == Usable && carved[i].FirstPage() < carved[i].LastPage() ::
             carved[i].LastPage() <= frames / 8 * 8))
  {
    var frames := Highest(regions) / PAGE_SIZE;
    var carved := Carved(regions, k, frames / 8);
    forall f: Frame | Available(carved, |regions|, f) ensures f < frames {
      var i :| 0 <= i < |carved| && carved[i].Holds(f);
      BelowHighest(regions, i);
      PageInside(carved[i], f);
    }
    CoversPages(frames / 8, carved);
  }

  /** A kernel page and seven usable ones after it: nine frames, and the last has no bit in the one byte. */
  lemma PageWithoutBit()
    ensures var regions := [Region(0x1000, 0x1000, KernelImage), Region(0x2000, 7 * PAGE_SIZE, Usable)];
      var bytes := Highest(regions) / PAGE_SIZE / 8;
      && bytes == 1 && FirstFit(regions, bytes) == 1
      && Available(Carved(regions, 1, bytes), 2, 8) && !Covers(bytes, Carved(regions, 1, bytes))
  {
    var regions := [Region(0x1000, 0x1000, KernelImage), Region(0x2000, 7 * PAGE_SIZE, Usable)];
    assert regions[..1] == [regions[0]] && regions[1..] == [regions[1]];
    assert Highest(regions[..1]) == 0x1000;
    assert Carved(regions, 1, 1)[1].Holds(8);
  }

  /** No page belongs to two of the first `n` regions. */
  ghost predicate NoneTwice(regions: seq<Region>, n: nat)
    requires n <= |regions|
  {
    forall i, j, f: Frame | 0 <= i < j < n && regions[i].Holds(f) :: !regions[j].Holds(f)
  }

  ghost predicate NoneHeld(r: Region, free: set<Frame>) {
    forall f | f in free :: !r.Holds(f)
  }

  ghost predicate FreeUpTo(regions: seq<Region>, n: nat, free: set<Frame>)
    requires n <= |regions|
  {
    forall f: Frame :: f in free <==> Available(regions, n, f)
  }

  lemma FreeMore(regions: seq<Region>, n: nat, free: set<Frame>)
    requires n < |regions| && FreeUpTo(regions, n, free)
    ensures forall f: Frame :: Available(regions, n + 1, f) <==> f in free || regions[n].Holds(f)
    ensures NoneTwice(regions, n + 1) <==> NoneTwice(regions, n) && NoneHeld(regions[n], free)
  {
    if NoneTwice(regions, n + 1) {
      forall f | f in free ensures !regions[n].Holds(f) {
        var i :| 0 <= i < n && regions[i].Holds(f);
      }
    }
  }

  lemma ApartNoneTwice(regions: seq<Region>)
    requires Disjoint(regions)
    ensures NoneTwice(regions, |regions|)
  {
    forall i, j, f: Frame | 0 <= i < j < |regions| && regions[i].Holds(f) ensures !regions[j].Holds(f) {
      if regions[j].Holds(f) { OneRegion(regions, i, j, f); }
    }
  }

  /** The lowest clear bit of a byte that is not full. */
  method FirstClear(b: Byte) returns (bit: nat)
    requires b != FULL
    ensures bit < 8 && !b[bit] && forall j | 0 <= j < bit :: b[j]
  {
    bit := 0;
    while bit < 8 && b[bit]
      invariant bit <= 8 && forall j | 0 <= j < bit :: b[j]
    {
      bit := bit + 1;
    }
    assert bit == 8 ==> b == FULL;
  }

  ghost predicate Between(first: Frame, f: Frame, last: Frame) {
    first <= f < last
  }

  /** The frames from `first` up to `last`. */
  ghost function Run(first: Frame, last: Frame): set<Frame> {
    set f: Frame | f < last && Between(first, f, last)
  }

  lemma RunGrows(first: Frame, f: Frame, last: Frame)
    requires first <= f < last
    ensures Run(first, f + 1) == Run(first, f) + {f} && f in Run(first, last) && f !in Run(first, f)
  {
    assert Between(first, f, last) && Between(first, f, f + 1);
    forall g | g in Run(first, f) ensures g in Run(first, f + 1) { assert Between(first, g, f + 1); }
    forall g | g in Run(first, f + 1) && g != f ensures g in Run(first, f) { assert Between(first, g, f); }
  }

  class Pmm {
    const bmap: array<Byte>
    var freeFrames: int
    ghost var free: set<Frame>

    /** The counter agrees with the bitmap, and frame 0, whose address means failure, is never free. */
    ghost predicate Valid()
      reads this, bmap
    {
      Shows(bmap[..], free) && Excess() == 0 && 0 !in free
    }

    /** How much the counter exceeds the number of clear bits. */
    ghost function Excess(): int
      reads this
    {
      freeFrames - |free|
    }

    /**
      Reads the memory map: the bitmap goes to the start of the first usable region that can hold it,
      every frame is marked taken, and then the whole pages of what is left usable are freed. The state is good
      exactly when no page is in two usable regions and page 0 is in none.
     */
    constructor (regions: seq<Region>)
      requires regions != []
      requires var bytes := Highest(regions) / PAGE_SIZE / 8;
        var k := FirstFit(regions, bytes);
        && k < |regions|
        && Covers(bytes, Carved(regions, k, bytes))
      ensures fresh(bmap)
      ensures var bytes := Highest(regions) / PAGE_SIZE / 8;
        var k := FirstFit(regions, bytes);
        var carved := Carved(regions, k, bytes);
        && bmap.Length == bytes && Shows(bmap[..], free)
        && (forall f: Frame :: f in free <==> Available(carved, |regions|, f))
        && (Valid() <==> NoneTwice(carved, |regions|) && !Available(carved, |regions|, 0))
        && (Disjoint(regions) ==> NoneTwice(carved, |regions|) && forall f | f in free ::
              (f + 1) * PAGE_SIZE <= regions[k].base || regions[k].base + bytes <= f * PAGE_SIZE)
    {
      var bytes := Highest(regions) / PAGE_SIZE / 8;
      var k := FirstFit(regions, bytes);
      var map' := Carved(regions, k, bytes);
      bmap := new Byte[bytes](_ => FULL);
      freeFrames := 0;
      free := {};
      new;
      CoversPages(bytes, map');
      forall f: Frame ensures BitOk(bmap[..], {}, f) {}
      for i := 0 to |map'|
        invariant Shows(bmap[..], free) && FreeUpTo(map', i, free)
        invariant Excess() >= 0 && (Excess() == 0 <==> NoneTwice(map', i))
      {
        FreeMore(map', i, free);
        FreeRegion(map'[i]);
      }
      if Disjoint(regions) {
        CarvedRegions(regions, k, bytes);
        ApartNoneTwice(map');
      }
    }

    /** Frees the whole pages of a usable region. */
    method FreeRegion(r: Region)
      requires Covers(bmap.Length, [r]) && Shows(bmap[..], free)
      modifies this, bmap
      ensures Shows(bmap[..], free) && (forall f: Frame :: f in free <==> f in old(free) || r.Holds(f))
      ensures Excess() >= old(Excess()) && (Excess() == old(Excess()) <==> NoneHeld(r, old(free)))
    {
      if r.kind == Usable {
        var first, last := r.FirstPage(), r.LastPage();
        if first < last {
          assert [r][0] == r;
          forall f: Frame ensures f in Run(first, last) <==> r.Holds(f) {
            assert Between(first, f, last) <==> r.Holds(f);
          }
          FreeRun(first, last);
        }
      }
    }

    /** Frees a run of frames; the counter is one too high for every frame that was free already. */
    method FreeRun(first: Frame, last: Frame)
      requires first <= last <= 8 * bmap.Length && Shows(bmap[..], free)
      modifies this, bmap
      ensures Shows(bmap[..], free) && free == old(free) + Run(first, last)
      ensures Excess() >= old(Excess()) && (Excess() == old(Excess()) <==> Run(first, last) !! old(free))
    {
      var f := first;
      while f < last
        invariant first <= f <= last && Shows(bmap[..], free) && free == old(free) + Run(first, f)
        invariant Excess() >= old(Excess()) && (Excess() == old(Excess()) <==> Run(first, f) !! old(free))
      {
        PageAddress(f);
        RunGrows(first, f, last);
        FreeFrame(f * PAGE_SIZE);
        f := f + 1;
      }
    }

    /** Takes the lowest free frame; address 0 means that there is none. */
    method Alloc() returns (addr: nat)
      requires Valid()
      modifies this, bmap
      ensures Valid()
      ensures old(free) == {} ==> addr == 0 && free == {}
      ensures old(free) != {} ==>
        && addr % PAGE_SIZE == 0
        && var f := addr / PAGE_SIZE;
        && f != 0 && f in old(free) && NoneBelow(old(free), f) && free == old(free) - {f}
    {
      var i := FirstNotFull();
      if i < bmap.Length {
        var bit := FirstClear(bmap[i]);
        var f := 8 * i + bit;
        BitOfFrame(i, bit);
        ScannedBits(bmap[..], free, i, bit);
        PageAddress(f);
        assert BitOk(bmap[..], free, f);
        addr := f * PAGE_SIZE;
        TakeFrame(addr);
      } else {
        Bounded(bmap[..], free);
        addr := 0;
      }
    }

    /** Skips the full bytes of the bitmap. */
    method FirstNotFull() returns (i: nat)
      requires Valid()
      ensures i <= bmap.Length && (i < bmap.Length ==> bmap[i] != FULL)
      ensures NoneBelow(free, 8 * i)
    {
      i := 0;
      while i < bmap.Length && bmap[i] == FULL
        invariant i <= bmap.Length && NoneBelow(free, 8 * i)
      {
        ScannedBits(bmap[..], free, i, 8);
        i := i + 1;
      }
    }

    /** Marks a frame as taken. */
    method TakeFrame(addr: nat)
      requires addr % PAGE_SIZE == 0 && addr / PAGE_SIZE in free && Valid()
      modifies this, bmap
      ensures Valid() && free == old(free) - {addr / PAGE_SIZE}
    {
      var f := addr / PAGE_SIZE;
      assert BitOk(bmap[..], free, f);
      BitWritten(bmap[..], free, f, true);
      bmap[f / 8] := bmap[f / 8][f % 8 := true];
      freeFrames := freeFrames - 1;
      free := free - {f};
      assert bmap[..] == old(bmap[..])[f / 8 := old(bmap[..])[f / 8][f % 8 := true]];
    }

    /** Gives a frame back. The counter stays right exactly when the frame was taken. */
    method FreeFrame(addr: nat)
      requires addr % PAGE_SIZE == 0 && addr / PAGE_SIZE < 8 * bmap.Length && Shows(bmap[..], free)
      modifies this, bmap
      ensures Shows(bmap[..], free) && free == old(free) + {addr / PAGE_SIZE}
      ensures Excess() == old(Excess()) + if addr / PAGE_SIZE in old(free) then 1 else 0
    {
      var f := addr / PAGE_SIZE;
      BitWritten(bmap[..], free, f, false);
      bmap[f / 8] := bmap[f / 8][f % 8 := false];
      freeFrames := freeFrames + 1;
      free := free + {f};
      assert bmap[..] == old(bmap[..])[f / 8 := old(bmap[..])[f / 8][f % 8 := false]];
      if f in old(free) { assert free == old(free); }
    }
  }
}
