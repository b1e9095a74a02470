/** From the memory map to the first page of the heap, on a machine with little memory. */
module Startup {
  import opened PageTables
  import P = Pmm
  import V = Vmm
  import H = Heap

  lemma FirstPageCost(s: Space)
    requires Missing(s.mem, s.kernel, 4, Path(288, 0, 0, 0)) == 2
    ensures IsPath(H.HeapPath(0)) && H.Cost(s, 0, 1) == 3
  {
    H.CostNext(s, 0, 0);
    assert H.Cost(s, 0, 0) == 0;
  }

  lemma NothingYet(s: Space, mem: map<Frame, Content>, boot: Frame)
    requires V.TakesOver(mem, boot, s.mem, s.kernel) && !Space(mem, map[], boot, {}).At(boot, 288).present
    requires boot in mem && mem[boot].Table? && |mem[boot].entries| == 512
    ensures H.PagesOk(s, 0)
  {
    forall n: nat ensures H.PageOk(s, 0, n) {
      if n < H.PAGES {
        H.PathOfHeapPage(n);
        assert Walk(mem, boot, 4, H.HeapPath(n)) == None;
      }
    }
  }

  /** What a first step of the break does, in terms of the frames that are left. */
  lemma FirstStep(h: H.Stage, h': H.Stage, ok: bool)
    requires H.Raises(h, h', H.BASE + 8, ok) && h.end == H.BASE && (ok ==> h'.end == H.BASE + P.PAGE_SIZE)
    requires Missing(h.space.mem, h.space.kernel, 4, Path(288, 0, 0, 0)) == 2
    ensures ok <==> h.free != {}
    ensures h'.Whole() <==> |h.free| == 0 || |h.free| >= 3
    ensures ok ==> (H.Backed(h'.space, 0) <==> |h.free| >= 3)
  {
    FirstPageCost(h.space);
  }

  // ---------- A machine with `n` frames to hand out ----------

  /** The kernel, a page for the bitmap with `n` pages after it, and memory that stays with the boot loader. */
  function MemoryMap(n: nat): seq<P.Region> {
    [P.Region(0x1000, 0x1000, P.KernelImage),
     P.Region(0x2000, (n + 1) * P.PAGE_SIZE, P.Usable),
     P.Region((n + 3) * P.PAGE_SIZE, 8 * P.PAGE_SIZE, P.Reclaimable)]
  }

  lemma HighestOf(n: nat)
    ensures P.Highest(MemoryMap(n)) == (n + 11) * P.PAGE_SIZE
  {
    var m := MemoryMap(n);
    assert m[..2] == [m[0], m[1]] && m[..2][..1] == [m[0]];
    assert P.Highest(m[..2][..1]) == 0x1000;
    assert P.Highest(m[..2]) == (n + 3) * P.PAGE_SIZE;
  }

  lemma FitOf(n: nat, bytes: nat)
    requires bytes <= P.PAGE_SIZE
    ensures P.FirstFit(MemoryMap(n), bytes) == 1
  {
    var m := MemoryMap(n);
    assert m[1..] == [m[1], m[2]];
  }

  lemma PagesOf(n: nat, bytes: nat)
    requires 0 < bytes <= P.PAGE_SIZE && n + 3 <= 8 * bytes
    ensures var c := P.Carved(MemoryMap(n), 1, bytes);
      P.Covers(bytes, c) && P.NoneTwice(c, 3) && forall f: Frame :: P.Available(c, 3, f) <==> 3 <= f < n + 3
  {
    var c := P.Carved(MemoryMap(n), 1, bytes);
    assert c[1].FirstPage() == 3 && c[1].LastPage() == n + 3;
    forall f: Frame ensures P.Available(c, 3, f) <==> 3 <= f < n + 3 {
      if 3 <= f < n + 3 { assert c[1].Holds(f); }
    }
  }

  lemma {:induction false} SizeOf(free: set<Frame>, n: nat)
    requires forall f: Frame :: f in free <==> 3 <= f < n + 3
    ensures |free| == n
  {
    if n > 0 { SizeOf(free - {n + 2}, n - 1); }
  }

  lemma {:induction false} EmptyFrom(entries: seq<Entry>, i: nat)
    requires i <= |entries| && forall j | 0 <= j < |entries| :: !entries[j].present
    ensures V.Empty(entries, i) == |entries| - i
    decreases |entries| - i
  {
    if i < |entries| { EmptyFrom(entries, i + 1); }
  }

  /** The boot loader left a top table without entries. */
  lemma BootTable(mem: map<Frame, Content>, role: map<Frame, Role>)
    requires mem == map[1 := BlankTable()] && role == map[1 := Root]
    ensures BootOk(mem, role, 1, {}) && V.EmptySlots(mem, 1) == 256
  {
    EmptyFrom(mem[1].entries, 256);
  }

  method NewPmm(n: nat) returns (pmm: P.Pmm)
    requires 0 < n <= 0x7000
    ensures fresh(pmm) && fresh(pmm.bmap) && pmm.Valid() && |pmm.free| == n && 1 !in pmm.free
  {
    HighestOf(n);
    var bytes := (n + 11) / 8;
    FitOf(n, bytes);
    PagesOf(n, bytes);
    pmm := new P.Pmm(MemoryMap(n));
    SizeOf(pmm.free, n);
  }

  method NewVmm(n: nat) returns (vmm: V.Vmm)
    requires 257 <= n <= 0x7000
    ensures fresh(vmm) && fresh(vmm.pmm) && fresh(vmm.pmm.bmap) && vmm.Valid() && |vmm.pmm.free| == n - 257
    ensures vmm.guarded == {}
    ensures H.PagesOk(vmm.View(), 0) && Missing(vmm.mem, vmm.kernel, 4, Path(288, 0, 0, 0)) == 2
  {
    var pmm := NewPmm(n);
    var mem := map[1 := BlankTable()];
    ghost var role := map[1 := Root];
    BootTable(mem, role);
    vmm := new V.Vmm(pmm, mem, 1, role, {});
    NothingYet(vmm.View(), mem, 1);
  }

  /** The first byte can be written exactly when its page is there. */
  lemma FirstByte(s: Space, m: nat)
    requires s.Ok() && s.guarded == {} && H.PagesOk(s, m)
    ensures MayWrite(s.mem, s.kernel, 4, V.PathTo(H.BASE)) <==> H.Backed(s, 0)
  {
    H.PathOfHeapPage(0);
    assert H.PageOk(s, m, 0);
    PageDecides(s, s.kernel, H.HeapPath(0), Shared);
  }

  lemma NotBacked(s: Space, m: nat)
    requires H.PagesOk(s, m) && !H.Backed(s, 0)
    ensures H.Unmapped(s, 0)
  {
    assert H.PageOk(s, m, 0);
  }

  /**
    The first word of the heap on a machine with `n` frames. Start-up takes 257 of them. With one or two left the
    break moves and yet its page is missing; the page is there exactly when three are left, for it and its tables.
   */
  method FirstWord(n: nat) returns (heap: H.Heap, r: Option<nat>)
    requires 257 <= n <= 0x7000
    ensures heap.Valid() && (r.Some? <==> n >= 258)
    ensures r.Some? ==> r.value == H.BASE && heap.brk == H.BASE + 8
    ensures r.Some? ==> if n >= 260 then H.Backed(heap.vmm.View(), 0) else H.Unmapped(heap.vmm.View(), 0)
    ensures r.Some? ==> (MayWrite(heap.vmm.mem, heap.vmm.kernel, 4, V.PathTo(H.BASE)) <==> n >= 260)
  {
    var vmm := NewVmm(n);
    heap := new H.Heap(vmm);
    ghost var h := heap.Now();
    r := heap.Sbrk(8);
    FirstStep(h, heap.Now(), r.Some?);
    if n < 260 && r.Some? { NotBacked(vmm.View(), H.PageOf(heap.mappedEnd)); }
    FirstByte(vmm.View(), H.PageOf(heap.mappedEnd));
  }
}
