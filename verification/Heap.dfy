/** The kernel heap's memory: a break that moves inside a reserved range, with pages mapped below it. */
module Heap {
  import P = Pmm
  import V = Vmm
  import opened PageTables

  const BASE: nat := 0xFFFF_9000_0000_0000
  const SIZE: nat := 0x400_0000
  const PAGES: nat := 0x4000

  function PageUp(x: nat): nat { (x + P.PAGE_SIZE - 1) / P.PAGE_SIZE * P.PAGE_SIZE }

  function AddressOf(n: nat): nat { BASE + n * P.PAGE_SIZE }

  /** Where page `n` of the heap is found. */
  function HeapPath(n: nat): Path { Path(288, 0, n / 512, n % 512) }

  function Index(q: Path): int { if q.a == 288 && q.b == 0 then q.c * 512 + q.d else -1 }

  /** The number of the heap's first page. */
  const FIRST: nat := 0xF_FFF9_0000_0000

  lemma PathOfHeapPage(n: nat)
    requires n < PAGES
    ensures V.PathTo(AddressOf(n)) == HeapPath(n) && IsPath(HeapPath(n)) && Index(HeapPath(n)) == n
  {
    V.Halves(AddressOf(n));
    P.PageAddress(BASE / P.PAGE_SIZE + n);
    assert AddressOf(n) / 0x1000 == BASE / P.PAGE_SIZE + n;
  }

  /** Every byte of the heap is in the page that its number says. */
  lemma PathOfByte(x: nat)
    requires BASE <= x < BASE + SIZE
    ensures PageOf(x) < PAGES && V.PathTo(x) == HeapPath(PageOf(x))
  {
    var n := PageOf(x);
    PathOfHeapPage(n);
    V.Halves(x);
    V.Halves(AddressOf(n));
    assert x / 0x1000 == AddressOf(n) / 0x1000;
  }

  lemma NumberOfHeapPage(n: nat)
    requires n < PAGES
    ensures V.PagePath(FIRST + n) == HeapPath(n) && IsPath(HeapPath(n))
  {
    PathOfHeapPage(n);
    assert (FIRST + n) * P.PAGE_SIZE == AddressOf(n);
  }

  // ---------- What is mapped ----------

  /** The kernel may write the page, and user code may not touch it. */
  ghost predicate KernelPage(hit: Hit) {
    hit.level == 1 && hit.entry.write && !hit.entry.user && !hit.entry.nx
  }

  /** Page `n` is a page for the kernel, mapped to a frame that serves no other purpose. */
  ghost predicate Backed(s: Space, n: nat) {
    n < PAGES && IsPath(HeapPath(n)) &&
    var w := Walk(s.mem, s.kernel, 4, HeapPath(n));
    w.Some? && KernelPage(w.value) && w.value.entry.frame in s.role
      && V.IsPageAt(s.role[w.value.entry.frame], s.kernel, HeapPath(n))
  }

  ghost predicate Unmapped(s: Space, n: nat) {
    n < PAGES && IsPath(HeapPath(n)) && Walk(s.mem, s.kernel, 4, HeapPath(n)) == None
  }

  /** A page that is backed can be written, in every address space. */
  lemma BackedIsWritable(s: Space, n: nat, r: Frame)
    requires s.Ok() && Backed(s, n) && s.IsRoot(r) && 288 !in s.guarded
    ensures MayWrite(s.mem, r, 4, HeapPath(n))
  {
    SameKernelHalf(s, r, HeapPath(n));
    PageDecides(s, r, HeapPath(n), Half(r, 288));
  }

  /** The frame behind a page. */
  ghost function FrameOf(s: Space, n: nat): Frame
    requires Backed(s, n)
  {
    Walk(s.mem, s.kernel, 4, HeapPath(n)).value.entry.frame
  }

  ghost predicate PageOk(s: Space, m: nat, n: nat) {
    n < PAGES ==> Unmapped(s, n) || (n < m && Backed(s, n))
  }

  /** Nothing is mapped from page `m` on. */
  ghost predicate PagesOk(s: Space, m: nat) { forall n: nat {:trigger PageOk(s, m, n)} :: PageOk(s, m, n) }

  ghost predicate Elsewhere(s: Space, s': Space, lo: nat, hi: nat, r: Frame, q: Path) {
    s.IsRoot(r) ==>
      s'.IsRoot(r) && (IsPath(q) && !(lo <= Index(q) < hi) ==> Walk(s'.mem, r, 4, q) == Walk(s.mem, r, 4, q))
  }

  /** Outside the heap pages from `lo` up to `hi` every address space is as it was; pages backed stay backed. */
  ghost predicate Only(s: Space, s': Space, lo: nat, hi: nat) {
    && s'.kernel == s.kernel
    && (forall r, q {:trigger Elsewhere(s, s', lo, hi, r, q)} :: Elsewhere(s, s', lo, hi, r, q))
    && (forall n: nat {:trigger Kept(s, s', lo, hi, n)} :: Kept(s, s', lo, hi, n))
  }

  ghost predicate Kept(s: Space, s': Space, lo: nat, hi: nat, n: nat) {
    !(lo <= n < hi) && Backed(s, n) ==> Backed(s', n) && FrameOf(s', n) == FrameOf(s, n)
  }

  lemma OnlyTwice(s: Space, s': Space, s'': Space, lo: nat, hi: nat, lo': nat, hi': nat, lo'': nat, hi'': nat)
    requires Only(s, s', lo, hi) && Only(s', s'', lo', hi') && lo'' <= lo && lo'' <= lo' && hi <= hi'' && hi' <= hi''
    ensures Only(s, s'', lo'', hi'')
  {
    forall r, q ensures Elsewhere(s, s'', lo'', hi'', r, q) {
      assert Elsewhere(s, s', lo, hi, r, q) && Elsewhere(s', s'', lo', hi', r, q);
    }
    forall n: nat ensures Kept(s, s'', lo'', hi'', n) {
      assert Kept(s, s', lo, hi, n) && Kept(s', s'', lo', hi', n);
    }
  }

  lemma OnlySame(s: Space, lo: nat, hi: nat)
    ensures Only(s, s, lo, hi)
  {}

  // ---------- One page more ----------

  lemma PageMapped(s: Space, s': Space, n: nat, f: Frame, e: Entry)
    requires s.Ok() && n < PAGES && PagesOk(s, n) && f !in s.role && e.frame == f && KernelPage(Hit(1, e))
    requires var held := s.(role := s.role[f := Held]);
      V.Retranslates(held, s', s.kernel, HeapPath(n), Some(Hit(1, e)))
        && V.Settles(held, s', s.kernel, HeapPath(n), Some(f))
    ensures Only(s, s', n, n + 1) && PagesOk(s', n + 1) && Backed(s', n)
  {
    var held, last := s.(role := s.role[f := Held]), n + 1;
    var q := HeapPath(n);
    PathOfHeapPage(n);
    forall r, q' ensures Elsewhere(s, s', n, last, r, q') {
      if s.IsRoot(r) { assert held.IsRoot(r) && r in s'.role; }
      if s.IsRoot(r) && IsPath(q') && Index(q') != n { assert q' != q; }
    }
    assert f in s'.role && held.IsRoot(s.kernel);
    forall k: nat ensures Kept(s, s', n, last, k) {
      if Backed(s, k) && k != n { PathOfHeapPage(k); assert held.IsRoot(s.kernel) && FrameOf(s, k) in s'.role; }
    }
    forall k: nat ensures PageOk(s', last, k) {
      assert PageOk(s, n, k) && Kept(s, s', n, last, k) && Elsewhere(s, s', n, last, s.kernel, HeapPath(k));
      if k < PAGES { PathOfHeapPage(k); }
    }
  }

  lemma PageNotMapped(s: Space, s': Space, n: nat, f: Frame)
    requires s.Ok() && n < PAGES && PagesOk(s, n) && f !in s.role
    requires V.Extends(s.(role := s.role[f := Held]), s', Shared)
    ensures Only(s, s', n, n + 1) && PagesOk(s', n + 1) && Unmapped(s', n)
  {
    var held, last := s.(role := s.role[f := Held]), n + 1;
    PathOfHeapPage(n);
    forall r, q' ensures Elsewhere(s, s', n, last, r, q') {
      if s.IsRoot(r) { assert held.IsRoot(r) && r in s'.role; }
    }
    assert held.IsRoot(s.kernel) && Walk(s'.mem, s.kernel, 4, HeapPath(n)) == Walk(s.mem, s.kernel, 4, HeapPath(n));
    assert PageOk(s, n, n);
    forall k: nat ensures Kept(s, s', n, last, k) {
      if Backed(s, k) && k != n { PathOfHeapPage(k); assert held.IsRoot(s.kernel) && FrameOf(s, k) in s'.role; }
    }
    forall k: nat ensures PageOk(s', last, k) {
      assert PageOk(s, n, k) && Kept(s, s', n, last, k) && Elsewhere(s, s', n, last, s.kernel, HeapPath(k));
      if k < PAGES { PathOfHeapPage(k); }
    }
  }

  // ---------- One page less ----------

  /** The state once the frame of page `n` has been given back, with the page still mapped. */
  ghost function Emptied(s: Space, n: nat): Space {
    if Backed(s, n) then s.(role := s.role - {FrameOf(s, n)}) else s
  }

  lemma PageUnmapped(s: Space, s': Space, n: nat)
    requires s.Ok() && n < PAGES && PagesOk(s, n + 1)
    requires V.Retranslates(Emptied(s, n), s', s.kernel, HeapPath(n), None)
      && V.Settles(Emptied(s, n), s', s.kernel, HeapPath(n), None)
    ensures Only(s, s', n, n + 1) && PagesOk(s', n)
  {
    var between, m := Emptied(s, n), n + 1;
    PathOfHeapPage(n);
    forall r, q' ensures Elsewhere(s, s', n, m, r, q') {
      if s.IsRoot(r) { assert between.IsRoot(r) && r in s'.role; }
    }
    assert between.IsRoot(s.kernel);
    forall k: nat ensures Kept(s, s', n, m, k) {
      if Backed(s, k) && k != n { PathOfHeapPage(k); assert FrameOf(s, k) in between.role && FrameOf(s, k) in s'.role; }
    }
    forall k: nat ensures PageOk(s', n, k) {
      assert PageOk(s, m, k) && Kept(s, s', n, m, k) && Elsewhere(s, s', n, m, s.kernel, HeapPath(k));
      if k < PAGES { PathOfHeapPage(k); }
    }
  }

  lemma FrameIsOwned(s: Space, b: V.Book, n: nat)
    requires V.Sound(s, b) && Backed(s, n)
    ensures FrameOf(s, n) > 0 && s.role[FrameOf(s, n)].owner == Shared
  {
    PathOfHeapPage(n);
    assert V.FrameOk(s.role, s.kernel, b, FrameOf(s, n));
  }

  /** The frames behind the pages from `lo` up to `hi`. */
  ghost function FramesOf(s: Space, lo: nat, hi: nat): set<Frame>
    decreases hi - lo
  {
    if lo >= hi then {} else FramesOf(s, lo + 1, hi) + Frames(s, lo)
  }

  /** The frame behind a page, if there is one. */
  ghost function Frames(s: Space, n: nat): set<Frame> { if Backed(s, n) then {FrameOf(s, n)} else {} }

  /** A page outside the changed range is backed as before. */
  lemma SameBacking(s: Space, s': Space, lo: nat, hi: nat, m: nat, n: nat)
    requires s.Ok() && PagesOk(s, m) && Only(s, s', lo, hi) && n < PAGES && !(lo <= n < hi)
    ensures Frames(s', n) == Frames(s, n)
  {
    PathOfHeapPage(n);
    assert PageOk(s, m, n) && Kept(s, s', lo, hi, n) && Elsewhere(s, s', lo, hi, s.kernel, HeapPath(n));
  }

  /** All pages are backed, except that the last one may be missing when no frame was left. */
  ghost predicate Filled(s: Space, lo: nat, hi: nat, free: set<Frame>) {
    forall n: nat {:trigger Backed(s, n)} :: lo <= n < hi ==>
      Backed(s, n) || (n == hi - 1 && Unmapped(s, n) && free == {})
  }

  lemma OneMoreFilled(s: Space, s': Space, lo: nat, n: nat, free: set<Frame>, free': set<Frame>)
    requires lo <= n < PAGES && Filled(s, lo, n, free) && free != {} && Only(s, s', n, n + 1)
    requires Backed(s', n) || (Unmapped(s', n) && free' == {})
    ensures Filled(s', lo, n + 1, free')
  {
    forall k: nat | lo <= k < n ensures Backed(s', k) { assert Backed(s, k) && Kept(s, s', n, n + 1, k); }
  }

  /** The pages below `m` have the frames they had, or none as before. */
  ghost predicate SamePages(s: Space, s': Space, m: nat) {
    forall n: nat {:trigger Frames(s', n)} {:trigger Backed(s', n)} :: n < m ==> Frames(s', n) == Frames(s, n)
  }

  lemma SameAtFirst(s: Space, m: nat)
    ensures SamePages(s, s, m)
  {}

  lemma SameTwice(s: Space, s': Space, s'': Space, m: nat, m': nat)
    requires SamePages(s, s', m) && SamePages(s', s'', m') && m <= m'
    ensures SamePages(s, s'', m)
  {
    forall n: nat | n < m ensures Frames(s'', n) == Frames(s, n) { assert Frames(s', n) == Frames(s, n); }
  }

  lemma LowerPages(s: Space, s': Space, lo: nat, hi: nat, m: nat)
    requires s.Ok() && PagesOk(s, m) && Only(s, s', lo, hi) && lo <= PAGES
    ensures SamePages(s, s', lo)
  {
    forall n: nat | n < lo ensures Frames(s', n) == Frames(s, n) { SameBacking(s, s', lo, hi, m, n); }
  }

  /** Two pages never share a frame, and the frame of a page is not free. */
  lemma FramesDistinct(s: Space, b: V.Book, m: nat, n: nat)
    requires V.Sound(s, b) && Backed(s, m) && Backed(s, n)
    ensures FrameOf(s, m) == FrameOf(s, n) <==> m == n
    ensures FrameOf(s, m) !in b.free && 0 < FrameOf(s, m) < b.limit
  {
    PathOfHeapPage(m);
    PathOfHeapPage(n);
    assert V.FrameOk(s.role, s.kernel, b, FrameOf(s, m));
  }

  /** A heap that grew is whole exactly when it was and no new page was left out. */
  lemma WholeAfter(s: Space, s': Space, m: nat, m': nat, free: set<Frame>)
    requires SamePages(s, s', m) && m <= m' && Filled(s', m, m', free)
    ensures AllBacked(s', 0, m') <==> AllBacked(s, 0, m) && AllBacked(s', m, m')
    ensures AllBacked(s, 0, m) ==> Filled(s', 0, m', free)
  {
    forall n: nat | n < m ensures Backed(s', n) <==> Backed(s, n) { assert Frames(s', n) == Frames(s, n); }
  }

  // ---------- How many frames it takes ----------

  /** The frames that mapping the pages from `from` up to `to` takes, tables included. */
  ghost function Cost(s: Space, from: nat, to: int): nat {
    if to <= from then 0 else V.Need(s, s.kernel, FIRST + from, to - from)
  }

  ghost predicate AllBacked(s: Space, from: nat, to: nat) {
    forall n: nat {:trigger Backed(s, n)} :: from <= n < to ==> Backed(s, n)
  }

  /** No page is left out: the frames are enough, or they run out right after a page. */
  ghost predicate Suffices(s: Space, from: nat, to: nat, frames: nat) {
    Cost(s, from, to) <= frames || exists k: nat {:trigger Cost(s, from, k)} ::
      from <= k < to && Cost(s, from, k) == frames
  }

  lemma NoFrames(s: Space, from: nat, to: nat)
    ensures Suffices(s, from, to, 0)
  {
    assert Cost(s, from, from) == 0;
  }

  /** The account on the way up: all pages are backed and paid for, or the last one lacked a frame for a table. */
  ghost predicate Paid(s0: Space, s: Space, from: nat, n: nat, frames: nat, free: set<Frame>)
    requires from <= n
  {
    if AllBacked(s, from, n) then V.Built(s0, s, s0.kernel, FIRST + from, n - from)
      && |free| + Cost(s0, from, n) == frames
    else n > from && free == {} && Cost(s0, from, n - 1) < frames < Cost(s0, from, n)
  }

  lemma CostGrows(s: Space, from: nat, m: nat, n: nat)
    requires from <= m < n
    ensures Cost(s, from, m) < Cost(s, from, n)
  {
    V.NeedGrows(s, s.kernel, FIRST + from, m - from, n - from);
  }

  lemma CostNext(s: Space, from: nat, n: nat)
    requires from <= n < PAGES
    ensures IsPath(HeapPath(n))
    ensures Cost(s, from, n + 1) == Cost(s, from, n) + 1 + V.Short(s, s.kernel, FIRST + from, n - from, HeapPath(n))
  {
    NumberOfHeapPage(n);
    var k := n - from;
    assert FIRST + from + (k + 1) - 1 == FIRST + n;
    assert V.Need(s, s.kernel, FIRST + from, k + 1) ==
      V.Need(s, s.kernel, FIRST + from, k) + 1 + V.Short(s, s.kernel, FIRST + from, k, V.PagePath(FIRST + n));
  }

  lemma MoreBacked(s: Space, s': Space, from: nat, n: nat)
    requires AllBacked(s, from, n) && Only(s, s', n, n + 1)
    ensures AllBacked(s', from, n + 1) <==> from > n || Backed(s', n)
  {
    forall k: nat | from <= k < n ensures Backed(s', k) { assert Backed(s, k) && Kept(s, s', n, n + 1, k); }
  }

  lemma {:induction false} ShortAfter(s: Space, from: nat, k: nat, n: nat)
    requires from + k <= n < PAGES && k > 0
    ensures IsPath(HeapPath(n))
    ensures V.Short(s, s.kernel, FIRST + from, k, HeapPath(n)) ==
      if n / 512 == (from + k - 1) / 512 then 0 else Least(Missing(s.mem, s.kernel, 4, HeapPath(n)), 1)
    decreases k
  {
    NumberOfHeapPage(n);
    NumberOfHeapPage(from + k - 1);
    assert FIRST + from + k - 1 == FIRST + (from + k - 1);
    if k > 1 { ShortAfter(s, from, k - 1, n); }
  }

  /** After its first page a run takes a frame for every page, and one more where a new table has to be begun. */
  lemma CostOfPage(s: Space, from: nat, n: nat)
    requires from <= n < PAGES
    ensures IsPath(HeapPath(n))
    ensures var missing := Missing(s.mem, s.kernel, 4, HeapPath(n));
      Cost(s, from, n + 1) == Cost(s, from, n) + 1 +
        (if n == from then missing else if n % 512 == 0 then Least(missing, 1) else 0)
  {
    CostNext(s, from, n);
    if n > from { ShortAfter(s, from, n - from, n); }
  }

  lemma Tables(n: nat)
    requires n > 0
    ensures n / 512 == (n - 1) / 512 + if n % 512 == 0 then 1 else 0
  {}

  /** A frame for every page, one for every table of 512 pages that begins on the way, and three at the start. */
  lemma {:induction false} CostAtMost(s: Space, from: nat, n: nat)
    requires from < n <= PAGES
    ensures Cost(s, from, n) <= n - from + 3 + (n - 1) / 512 - from / 512
  {
    CostOfPage(s, from, n - 1);
    if n - 1 == from {
      MissingAtMost(s.mem, s.kernel, 4, HeapPath(from));
      assert Cost(s, from, from) == 0;
    } else {
      CostAtMost(s, from, n - 1);
      Tables(n - 1);
    }
  }

  /** Frames for the whole heap, tables included. */
  const PLENTY: nat := PAGES + 35

  lemma PlentyIsEnough(h: Stage, newBrk: nat)
    requires BASE <= h.end <= BASE + SIZE && |h.free| >= PLENTY && newBrk >= BASE
    ensures h.Reaches(newBrk) <==> newBrk <= BASE + SIZE
    ensures h.Covers(newBrk)
  {
    if newBrk <= BASE + SIZE {
      Rounded(newBrk);
      var from, to := PageOf(h.end), h.Reach(newBrk);
      if from < to { CostAtMost(h.space, from, to); }
      if from + 1 < to { CostAtMost(h.space, from, to - 1); }
    }
  }

  lemma PaidNext(s0: Space, s: Space, s': Space, from: nat, n: nat, missing: nat, frames: nat, free: set<Frame>,
      free': set<Frame>)
    requires from <= n < PAGES && s.kernel == s0.kernel && Only(s, s', n, n + 1)
    requires Paid(s0, s, from, n, frames, free) && free != {} && IsPath(HeapPath(n))
    requires missing == Missing(s.mem, s.kernel, 4, HeapPath(n))
    requires if Backed(s', n) then |free'| == |free| - 1 - missing && V.Paves(s, s', s.kernel, HeapPath(n), 1)
             else |free| <= missing && free' == {}
    ensures Paid(s0, s', from, n + 1, frames, free')
  {
    var first, k := FIRST + from, n - from;
    assert Cost(s0, from, n + 1) == Cost(s0, from, n) + 1 + missing by { CostNext(s0, from, n); }
    MoreBacked(s, s', from, n);
    if Backed(s', n) {
      assert V.PagePath(first + k) == HeapPath(n) by { NumberOfHeapPage(n); }
      V.BuiltNext(s0, s, s', s0.kernel, first, k);
      assert V.Built(s0, s', s0.kernel, FIRST + from, n + 1 - from);
    }
  }

  /** When the frames or the pages have come to an end, the count before tells what was left out. */
  lemma PaidAll(s0: Space, s: Space, from: nat, n: nat, to: nat, frames: nat, free: set<Frame>)
    requires from <= n <= to && Paid(s0, s, from, n, frames, free) && (n == to || free == {})
    ensures AllBacked(s, from, n) <==> Suffices(s0, from, to, frames)
    ensures n == to <==> to == from || frames > Cost(s0, from, to - 1)
  {
    if n < to - 1 { CostGrows(s0, from, n, to - 1); }
    if AllBacked(s, from, n) {
      if n == to && from < to { CostGrows(s0, from, to - 1, to); }
    } else {
      LeftOut(s0, from, n, to, frames);
    }
  }

  /** Frames that end between two pages do not suffice. */
  lemma LeftOut(s: Space, from: nat, n: nat, to: nat, frames: nat)
    requires from < n <= to && Cost(s, from, n - 1) < frames < Cost(s, from, n)
    ensures !Suffices(s, from, to, frames)
  {
    if n < to { CostGrows(s, from, n, to); }
    forall k: nat | from <= k < to ensures Cost(s, from, k) != frames {
      if k < n - 1 { CostGrows(s, from, k, n - 1); }
      if k > n { CostGrows(s, from, n, k); }
    }
  }

  /** One page less on the way down. */
  lemma OneLess(s0: Space, s: Space, s': Space, n: nat, from: nat, free: set<Frame>, now: set<Frame>)
    requires s0.Ok() && PagesOk(s0, from) && 0 < n <= from <= PAGES && Only(s0, s, n, from) && Only(s, s', n - 1, n)
    requires now == free + FramesOf(s0, n, from) + Frames(s, n - 1)
    ensures Only(s0, s', n - 1, from) && now == free + FramesOf(s0, n - 1, from)
  {
    SameBacking(s0, s, n, from, from, n - 1);
    OnlyTwice(s0, s, s', n, from, n - 1, n, n - 1, from);
  }

  function PageOf(a: nat): nat { if a < BASE then 0 else (a - BASE) / P.PAGE_SIZE }

  lemma Rounded(x: nat)
    requires BASE <= x <= BASE + SIZE
    ensures x <= PageUp(x) < x + P.PAGE_SIZE && PageUp(x) % P.PAGE_SIZE == 0 && PageUp(x) <= BASE + SIZE
    ensures AddressOf(PageOf(PageUp(x))) == PageUp(x) && PageOf(PageUp(x)) <= PAGES
  {}

  lemma BelowBase(x: nat)
    requires x < BASE
    ensures PageUp(x) <= BASE
  {}

  lemma WrapAround(x: nat)
    requires x < 2 * V.WORD
    ensures x % V.WORD == if x < V.WORD then x else x - V.WORD
  {}

  lemma PageUpGrows(x: nat, y: nat)
    requires x <= y
    ensures PageUp(x) <= PageUp(y)
  {}

  lemma PageOfGrows(x: nat, y: nat)
    requires x <= y
    ensures PageOf(x) <= PageOf(y)
  {}

  lemma PageBelow(x: nat, end: nat)
    requires BASE <= x < end && end % P.PAGE_SIZE == 0
    ensures PageOf(x) < PageOf(end)
  {}

  lemma PageOfAddress(n: nat)
    ensures PageOf(AddressOf(n)) == n && AddressOf(n) % P.PAGE_SIZE == 0
  {
    P.PageAddress(n);
    P.PageAddress(FIRST + n);
  }

  lemma Aligned(x: nat)
    requires BASE <= x <= BASE + SIZE && x % P.PAGE_SIZE == 0
    ensures AddressOf(PageOf(x)) == x && PageOf(x) <= PAGES
  {}

  // ---------- What the caller of sbrk sees ----------

  /** The page tables, the break, the end of the heap's pages, and the free frames. */
  datatype Stage = Stage(space: Space, brk: nat, end: nat, free: set<Frame>) {
    /** Every page of the heap has a frame. */
    ghost predicate Whole() { AllBacked(space, 0, PageOf(end)) }

    /** The end of the pages once the break has gone up to `newBrk`. */
    ghost function Reach(newBrk: nat): nat { if PageUp(newBrk) > end then PageOf(PageUp(newBrk)) else PageOf(end) }

    /** There are frames for all pages, and tables, that the break at `newBrk` needs, or they run out between pages. */
    ghost predicate Covers(newBrk: nat) {
      newBrk > BASE + SIZE || Suffices(space, PageOf(end), Reach(newBrk), |free|)
    }

    /** There is a frame for the last page that the break at `newBrk` needs. */
    ghost predicate Reaches(newBrk: nat) {
      newBrk <= BASE + SIZE && (PageUp(newBrk) <= end || |free| > Cost(space, PageOf(end), Reach(newBrk) - 1))
    }

    /** A break at `newBrk` is past the limit, or there is no frame for the page before it. */
    ghost predicate Exhausted(newBrk: nat) { newBrk > BASE + SIZE || (free == {} && end < PageUp(newBrk)) }
  }

  /** The pages there were are as they were, and perhaps there are more. */
  ghost predicate Keeps(h: Stage, h': Stage) { h.end <= h'.end && SamePages(h.space, h'.space, PageOf(h.end)) }

  /** Whole pages above the break go, and exactly their frames are free again. */
  ghost predicate GivesBack(h: Stage, h': Stage) {
    && h'.end == (if h.end > PageUp(h'.brk) then PageUp(h'.brk) else h.end)
    && h'.free == h.free + FramesOf(h.space, PageOf(h'.end), PageOf(h.end))
  }

  /** Asking for a break at `newBrk` moves it exactly if it can, and leaves out no page exactly if it need not. */
  ghost predicate Raises(h: Stage, h': Stage, newBrk: nat, moved: bool) {
    && h'.brk == (if moved then newBrk else h.brk)
    && (moved <==> h.Reaches(newBrk))
    && (h'.Whole() <==> h.Whole() && h.Covers(newBrk))
    && Keeps(h, h')
  }

  lemma KeepsTwice(h: Stage, h': Stage, h'': Stage)
    requires Keeps(h, h') && Keeps(h', h'')
    ensures Keeps(h, h'')
  {
    PageOfGrows(h.end, h'.end);
    SameTwice(h.space, h'.space, h''.space, PageOf(h.end), PageOf(h'.end));
  }

  /** Where there is nothing left, asking for more is in vain and leaves out no page. */
  lemma StaysExhausted(h: Stage, newBrk: nat, larger: nat)
    requires h.Exhausted(newBrk) && newBrk <= larger
    ensures !h.Reaches(larger) && h.Covers(larger)
  {
    PageUpGrows(newBrk, larger);
    if larger <= BASE + SIZE { NoFrames(h.space, PageOf(h.end), h.Reach(larger)); }
  }

  /** A second, larger request after one that found nothing left changes what the first one did in no way that shows. */
  lemma RaisesTwice(h: Stage, h': Stage, h'': Stage, newBrk: nat, larger: nat, moved: bool)
    requires Raises(h, h', newBrk, false) && h'.Exhausted(newBrk) && newBrk <= larger && Raises(h', h'', larger, moved)
    ensures !moved && Raises(h, h'', newBrk, false)
  {
    StaysExhausted(h', newBrk, larger);
    KeepsTwice(h, h', h'');
  }

  class Heap {
    const vmm: V.Vmm
    var brk: nat
    var mappedEnd: nat

    ghost predicate Valid()
      reads this, vmm, vmm.pmm, vmm.pmm.bmap
    {
      && vmm.Valid() && BASE <= brk <= mappedEnd <= BASE + SIZE && mappedEnd % P.PAGE_SIZE == 0
      && PagesOk(vmm.View(), PageOf(mappedEnd))
    }

    /** An empty heap in a range where nothing is mapped. */
    constructor (vmm: V.Vmm)
      requires vmm.Valid() && PagesOk(vmm.View(), 0)
      ensures Valid() && Now().Whole() && this.vmm == vmm && brk == mappedEnd == BASE
    {
      this.vmm, brk, mappedEnd := vmm, BASE, BASE;
    }

    /**
      Maps page `n`. Without a frame for it nothing happens; when only a table cannot be had the page is left out,
      and its frame is held for nothing.
     */
    method MapHeapPage(n: nat) returns (ok: bool)
      requires vmm.Valid() && n < PAGES && PagesOk(vmm.View(), n)
      modifies vmm`mem, vmm`role, vmm.pmm, vmm.pmm.bmap
      ensures vmm.Valid() && (ok <==> old(vmm.pmm.free) != {})
      ensures !ok ==> vmm.View() == old(vmm.View()) && vmm.pmm.free == {}
      ensures ok ==> Only(old(vmm.View()), vmm.View(), n, n + 1) && PagesOk(vmm.View(), n + 1)
      ensures ok ==> (Backed(vmm.View(), n) || (Unmapped(vmm.View(), n) && vmm.pmm.free == {}))
      ensures ok && IsPath(HeapPath(n)) ==>
        && (Backed(vmm.View(), n) <==> |old(vmm.pmm.free)| > Missing(old(vmm.mem), vmm.kernel, 4, HeapPath(n)))
        && (Backed(vmm.View(), n) ==>
              && |vmm.pmm.free| == |old(vmm.pmm.free)| - 1 - Missing(old(vmm.mem), vmm.kernel, 4, HeapPath(n))
              && V.Paves(old(vmm.View()), vmm.View(), vmm.kernel, HeapPath(n), 1))
    {
      ghost var s := vmm.View();
      var f := vmm.Take();
      if f.None? { return false; }
      PathOfHeapPage(n);
      assert PageOk(s, n, n);
      ghost var held := vmm.View();
      var mapped := vmm.MapPage(vmm.kernel, AddressOf(n), f.value, V.Flags(true, false, false));
      if mapped {
        PageMapped(s, vmm.View(), n, f.value, Entry(f.value, true, true, false, false, false));
      } else {
        PageNotMapped(s, vmm.View(), n, f.value);
      }
      return true;
    }

    /** Gives the frame of page `n` back, if the page has one, and unmaps it. */
    method UnmapHeapPage(n: nat)
      requires vmm.Valid() && n < PAGES && PagesOk(vmm.View(), n + 1)
      modifies vmm`mem, vmm`role, vmm.pmm, vmm.pmm.bmap
      ensures vmm.Valid() && Only(old(vmm.View()), vmm.View(), n, n + 1) && PagesOk(vmm.View(), n)
      ensures vmm.pmm.free == old(vmm.pmm.free) + Frames(old(vmm.View()), n)
    {
      ghost var s := vmm.View();
      PathOfHeapPage(n);
      assert PageOk(s, n + 1, n);
      var phys := vmm.GetPhys(vmm.kernel, AddressOf(n));
      if Backed(s, n) { FrameIsOwned(s, vmm.Books(), n); }
      if phys != 0 {
        vmm.Disown(phys / P.PAGE_SIZE);
        vmm.Drop(phys / P.PAGE_SIZE);
      }
      assert vmm.View() == Emptied(s, n);
      vmm.UnmapPage(vmm.kernel, AddressOf(n));
      PageUnmapped(s, vmm.View(), n);
    }

    /** Maps page after page until page `to`, or until there is no frame. */
    method MapUpTo(from: nat, to: nat) returns (reached: nat)
      requires vmm.Valid() && from <= to <= PAGES && PagesOk(vmm.View(), from)
      modifies vmm`mem, vmm`role, vmm.pmm, vmm.pmm.bmap
      ensures vmm.Valid() && from <= reached <= to && PagesOk(vmm.View(), reached)
        && Only(old(vmm.View()), vmm.View(), from, reached)
      ensures reached < to ==> vmm.pmm.free == {}
      ensures Filled(vmm.View(), from, reached, vmm.pmm.free)
      ensures AllBacked(vmm.View(), from, reached) <==> Suffices(old(vmm.View()), from, to, |old(vmm.pmm.free)|)
      ensures reached == to <==> from == to || |old(vmm.pmm.free)| > Cost(old(vmm.View()), from, to - 1)
    {
      reached := from;
      ghost var s0, s, frames := vmm.View(), vmm.View(), |vmm.pmm.free|;
      OnlySame(s0, from, from);
      while reached < to
        invariant vmm.Valid() && from <= reached <= to && s == vmm.View() && PagesOk(s, reached)
          && Only(s0, s, from, reached)
        invariant Filled(s, from, reached, vmm.pmm.free) && Paid(s0, s, from, reached, frames, vmm.pmm.free)
      {
        ghost var free := vmm.pmm.free;
        var ok := MapHeapPage(reached);
        if !ok { break; }
        ghost var s' := vmm.View();
        PathOfHeapPage(reached);
        OnlyTwice(s0, s, s', from, reached, reached, reached + 1, from, reached + 1);
        OneMoreFilled(s, s', from, reached, free, vmm.pmm.free);
        PaidNext(s0, s, s', from, reached, Missing(s.mem, s.kernel, 4, HeapPath(reached)), frames, free, vmm.pmm.free);
        s := s';
        reached := reached + 1;
      }
      PaidAll(s0, s, from, reached, to, frames, vmm.pmm.free);
    }

    /** Unmaps page after page from the end down to page `to`. */
    method UnmapDownTo(from: nat, to: nat)
      requires vmm.Valid() && to <= from <= PAGES && PagesOk(vmm.View(), from)
      modifies vmm`mem, vmm`role, vmm.pmm, vmm.pmm.bmap
      ensures vmm.Valid() && PagesOk(vmm.View(), to) && Only(old(vmm.View()), vmm.View(), to, from)
      ensures vmm.pmm.free == old(vmm.pmm.free) + FramesOf(old(vmm.View()), to, from)
    {
      ghost var s0, s, free := vmm.View(), vmm.View(), vmm.pmm.free;
      OnlySame(s0, from, from);
      var n := from;
      while n > to
        invariant vmm.Valid() && to <= n <= from && s == vmm.View() && PagesOk(s, n) && Only(s0, s, n, from)
        invariant vmm.pmm.free == free + FramesOf(s0, n, from)
      {
        UnmapHeapPage(n - 1);
        OneLess(s0, s, vmm.View(), n, from, free, vmm.pmm.free);
        n, s := n - 1, vmm.View();
      }
    }

    ghost function Now(): Stage
      reads this, vmm, vmm.pmm
    {
      Stage(vmm.View(), brk, mappedEnd, vmm.pmm.free)
    }

    /** Maps pages up to `needTop`, or as long as there are frames. */
    method MapTo(needTop: nat) returns (ok: bool)
      requires Valid() && mappedEnd < needTop <= BASE + SIZE && needTop % P.PAGE_SIZE == 0
      modifies `mappedEnd, vmm`mem, vmm`role, vmm.pmm, vmm.pmm.bmap
      ensures Valid() && old(mappedEnd) <= mappedEnd <= needTop && (ok <==> mappedEnd == needTop)
      ensures !ok ==> vmm.pmm.free == {}
      ensures var s, from, to := old(vmm.View()), PageOf(old(mappedEnd)), PageOf(needTop);
        && Only(s, vmm.View(), from, PageOf(mappedEnd)) && Filled(vmm.View(), from, PageOf(mappedEnd), vmm.pmm.free)
        && (AllBacked(vmm.View(), from, PageOf(mappedEnd)) <==> Suffices(s, from, to, |old(vmm.pmm.free)|))
        && (ok <==> |old(vmm.pmm.free)| > Cost(s, from, to - 1))
    {
      Aligned(mappedEnd);
      Aligned(needTop);
      var reached := MapUpTo(PageOf(mappedEnd), PageOf(needTop));
      PageOfAddress(reached);
      mappedEnd := AddressOf(reached);
      ok := reached == PageOf(needTop);
    }

    /**
      Moves the break up. The new break is taken modulo the word size: past the end of the address space it wraps,
      the limit does not notice, and the break is then below the heap.
     */
    method Grow(increment: nat) returns (r: Option<nat>)
      requires Valid() && 0 < increment < 0x8000_0000_0000_0000
      modifies `brk, `mappedEnd, vmm`mem, vmm`role, vmm.pmm, vmm.pmm.bmap
      ensures old(brk) + increment < V.WORD ==> Valid() && old(mappedEnd) <= mappedEnd
      ensures old(brk) + increment >= V.WORD ==>
        r == Some(old(brk)) && brk == old(brk) + increment - V.WORD < BASE && mappedEnd == old(mappedEnd)
      ensures vmm.Valid() && Only(old(vmm.View()), vmm.View(), PageOf(old(mappedEnd)), PageOf(mappedEnd))
      ensures r.None? ==> brk == old(brk)
      ensures r.None? ==> Now().Exhausted(old(brk) + increment)
      ensures BASE + SIZE < old(brk) + increment < V.WORD ==> r.None? && mappedEnd == old(mappedEnd)
      ensures r.Some? && old(brk) + increment < V.WORD ==>
        && r.value == old(brk) && brk == old(brk) + increment
        && mappedEnd == (if old(mappedEnd) < PageUp(brk) then PageUp(brk) else old(mappedEnd))
      ensures Filled(vmm.View(), PageOf(old(mappedEnd)), PageOf(mappedEnd), vmm.pmm.free)
      ensures old(brk) + increment < V.WORD ==>
        && (AllBacked(vmm.View(), PageOf(old(mappedEnd)), PageOf(mappedEnd)) <==>
          old(Now()).Covers(old(brk) + increment))
        && (r.Some? <==> old(Now()).Reaches(old(brk) + increment))
    {
      var newBrk := (brk + increment) % V.WORD;
      WrapAround(brk + increment);
      OnlySame(vmm.View(), PageOf(mappedEnd), PageOf(mappedEnd));
      if newBrk > BASE + SIZE { return None; }
      r := MoveUp(newBrk);
    }

    /** Moves the break to a place below the limit, with pages up to it. */
    method MoveUp(newBrk: nat) returns (r: Option<nat>)
      requires Valid() && newBrk <= BASE + SIZE && (newBrk < BASE || brk < newBrk)
      modifies `brk, `mappedEnd, vmm`mem, vmm`role, vmm.pmm, vmm.pmm.bmap
      ensures vmm.Valid() && Only(old(vmm.View()), vmm.View(), PageOf(old(mappedEnd)), PageOf(mappedEnd))
      ensures newBrk < BASE ==> r == Some(old(brk)) && brk == newBrk && mappedEnd == old(mappedEnd)
      ensures newBrk >= BASE ==> Valid() && old(mappedEnd) <= mappedEnd
      ensures newBrk >= BASE ==>
        && (AllBacked(vmm.View(), PageOf(old(mappedEnd)), PageOf(mappedEnd)) <==> old(Now()).Covers(newBrk))
        && (r.Some? <==> old(Now()).Reaches(newBrk))
      ensures r.None? ==> brk == old(brk) && vmm.pmm.free == {} && mappedEnd < PageUp(newBrk)
      ensures r.Some? ==> r.value == old(brk) && brk == newBrk
      ensures r.Some? && newBrk >= BASE ==>
        mappedEnd == (if old(mappedEnd) < PageUp(brk) then PageUp(brk) else old(mappedEnd))
      ensures Filled(vmm.View(), PageOf(old(mappedEnd)), PageOf(mappedEnd), vmm.pmm.free)
    {
      var oldBrk, needTop := brk, PageUp(newBrk);
      OnlySame(vmm.View(), PageOf(mappedEnd), PageOf(mappedEnd));
      if newBrk < BASE { BelowBase(newBrk); } else { Rounded(newBrk); }
      if mappedEnd < needTop {
        var ok := MapTo(needTop);
        if !ok { return None; }
      }
      brk := newBrk;
      return Some(oldBrk);
    }

    /** Moves the break down, not below the start, and gives back the pages above it. */
    method Shrink(decrement: nat) returns (r: nat)
      requires Valid()
      modifies `brk, `mappedEnd, vmm`mem, vmm`role, vmm.pmm, vmm.pmm.bmap
      ensures Valid() && r == old(brk)
      ensures brk == (if decrement > old(brk) - BASE then BASE else old(brk) - decrement)
      ensures mappedEnd == (if old(mappedEnd) > PageUp(brk) then PageUp(brk) else old(mappedEnd))
      ensures Only(old(vmm.View()), vmm.View(), PageOf(mappedEnd), PageOf(old(mappedEnd)))
      ensures vmm.pmm.free == old(vmm.pmm.free) + FramesOf(old(vmm.View()), PageOf(mappedEnd), PageOf(old(mappedEnd)))
    {
      r := brk;
      var newBrk := if decrement > brk - BASE then BASE else brk - decrement;
      var keepTop := PageUp(newBrk);
      OnlySame(vmm.View(), PageOf(mappedEnd), PageOf(mappedEnd));
      Rounded(newBrk);
      if mappedEnd > keepTop {
        Aligned(mappedEnd);
        UnmapDownTo(PageOf(mappedEnd), PageOf(keepTop));
        mappedEnd := keepTop;
      }
      brk := newBrk;
    }

    /**
      Moves the break up or down and returns where it was; nothing is returned when it cannot be moved. The heap stays
      in order exactly when the break does not wrap, and whole exactly when the frames cover the new pages.
     */
    method Sbrk(increment: int) returns (r: Option<nat>)
      requires Valid() && -0x8000_0000_0000_0000 <= increment < 0x8000_0000_0000_0000
      modifies `brk, `mappedEnd, vmm`mem, vmm`role, vmm.pmm, vmm.pmm.bmap
      ensures Valid() <==> old(brk) + increment < V.WORD
      ensures old(brk) + increment >= V.WORD ==> r.Some? && brk < BASE
      ensures r.Some? ==> r.value == old(brk)
      ensures r.None? ==> brk == old(brk) && increment > 0
      ensures r.None? ==> Now().Exhausted(old(brk) + increment)
      ensures r.Some? && increment <= 0 ==> brk == (if old(brk) + increment < BASE then BASE else old(brk) + increment)
      ensures r.Some? && increment > 0 && old(brk) + increment < V.WORD ==>
        && brk == old(brk) + increment <= BASE + SIZE
        && mappedEnd == (if old(mappedEnd) < PageUp(brk) then PageUp(brk) else old(mappedEnd))
      ensures increment > 0 && old(brk) + increment < V.WORD ==>
        Raises(old(Now()), Now(), old(brk) + increment, r.Some?)
      ensures increment > 0 ==> Keeps(old(Now()), Now())
      ensures old(Now()).Whole() && old(brk) + increment < V.WORD ==>
        Filled(vmm.View(), 0, PageOf(mappedEnd), vmm.pmm.free)
      ensures increment <= 0 ==> mappedEnd <= old(mappedEnd) && (old(Now()).Whole() ==> Now().Whole())
      ensures increment < 0 ==> GivesBack(old(Now()), Now())
      ensures SamePages(old(vmm.View()), vmm.View(),
        PageOf(if mappedEnd < old(mappedEnd) then mappedEnd else old(mappedEnd)))
    {
      ghost var s, m := vmm.View(), PageOf(mappedEnd);
      if increment == 0 {
        OnlySame(s, m, m);
        return Some(brk);
      }
      if increment > 0 {
        r := Grow(increment);
        LowerPages(s, vmm.View(), m, PageOf(mappedEnd), m);
        WholeAfter(s, vmm.View(), m, PageOf(mappedEnd), vmm.pmm.free);
      } else {
        var oldBrk := Shrink(-increment);
        r := Some(oldBrk);
        LowerPages(s, vmm.View(), PageOf(mappedEnd), m, m);
      }
    }
  }
}
