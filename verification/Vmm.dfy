/** The virtual memory manager: page tables changed in place over the frame allocator. */
module Vmm {
  import P = Pmm
  import opened PageTables

  const WORD: nat := 0x1_0000_0000_0000_0000
  const USER_SPACE_END: nat := 0x0000_8000_0000_0000

  // ---------- Addresses ----------

  /** The slots that an address selects; address bits above 48 play no part. */
  function PathTo(v: nat): (q: Path)
    ensures IsPath(q)
  {
    Path(v / 0x80_0000_0000 % 512, v / 0x4000_0000 % 512, v / 0x20_0000 % 512, v / 0x1000 % 512)
  }

  /** The number of the page that a path selects. */
  function PageNumber(q: Path): int {
    ((q.a * 512 + q.b) * 512 + q.c) * 512 + q.d
  }

  lemma Halves(v: nat)
    ensures v / 0x20_0000 == v / 0x1000 / 512 && v / 0x4000_0000 == v / 0x1000 / 512 / 512
    ensures v / 0x80_0000_0000 == v / 0x1000 / 512 / 512 / 512
  {}

  /** The slots are the page number in base 512. */
  lemma SlotsOfPage(v: nat)
    requires v < USER_SPACE_END
    ensures PageNumber(PathTo(v)) == v / 0x1000 && PathTo(v).a < 256
  {
    Halves(v);
    Digits(v / 0x1000);
  }

  lemma Digits(n: nat)
    ensures n == ((n / 512 / 512 / 512 * 512 + n / 512 / 512 % 512) * 512 + n / 512 % 512) * 512 + n % 512
  {}

  /** In the lower half the path of an address tells its page. */
  lemma SamePath(v: nat, w: nat)
    requires v < USER_SPACE_END && w < USER_SPACE_END
    ensures PathTo(v) == PathTo(w) <==> v / 0x1000 == w / 0x1000
  {
    SlotsOfPage(v);
    SlotsOfPage(w);
    Halves(v);
    Halves(w);
  }

  /** The physical address behind a hit: large pages keep more address bits. */
  function Physical(hit: Hit, v: nat): nat {
    hit.entry.frame * 0x1000 +
    v % (if hit.level == 3 then 0x4000_0000 else if hit.level == 2 then 0x20_0000 else 0x1000)
  }

  /** How many bytes an entry of a level maps. */
  function SpanOf(level: nat): nat { if level == 3 then 0x4000_0000 else if level == 2 then 0x20_0000 else 0x1000 }

  lemma Digit(x: nat)
    ensures x == x / 512 * 512 + x % 512
  {}

  lemma Quarters(v: nat)
    ensures v / 0x1_0000_0000_0000 == v / 0x80_0000_0000 / 512 && v / 0x80_0000_0000 == v / 0x4000_0000 / 512
    ensures v / 0x4000_0000 == v / 0x20_0000 / 512 && v / 0x20_0000 == v / 0x1000 / 512
  {}

  /** Every slot is the next digit of the address. */
  lemma NextDigits(v: nat)
    ensures v / 0x80_0000_0000 == v / 0x1_0000_0000_0000 * 512 + PathTo(v).a
    ensures v / 0x4000_0000 == v / 0x80_0000_0000 * 512 + PathTo(v).b
    ensures v / 0x20_0000 == v / 0x4000_0000 * 512 + PathTo(v).c
    ensures v / 0x1000 == v / 0x20_0000 * 512 + PathTo(v).d
  {
    Quarters(v);
    Digit(v / 0x80_0000_0000);
    Digit(v / 0x4000_0000);
    Digit(v / 0x20_0000);
    Digit(v / 0x1000);
  }

  /** Addresses whose slots agree down to a level are in the same span. */
  lemma SameSpan(v: nat, w: nat, level: nat)
    requires 1 <= level <= 3 && Cut(PathTo(v), level - 1) == Cut(PathTo(w), level - 1)
    requires v / 0x1_0000_0000_0000 == w / 0x1_0000_0000_0000
    ensures v / SpanOf(level) == w / SpanOf(level)
  {
    NextDigits(v);
    NextDigits(w);
  }

  lemma Offsets(v: nat, w: nat, span: nat)
    requires span > 0 && v / span == w / span
    ensures v % span - w % span == v - w
  {}

  /** A page or large page is one piece of memory: its first byte is that of its frame, and the others follow. */
  lemma InOnePiece(hit: Hit, v: nat, w: nat)
    requires 1 <= hit.level <= 3 && Cut(PathTo(v), hit.level - 1) == Cut(PathTo(w), hit.level - 1)
    requires v / 0x1_0000_0000_0000 == w / 0x1_0000_0000_0000
    ensures Physical(hit, v) - Physical(hit, w) == v - w
    ensures w % SpanOf(hit.level) == 0 ==> Physical(hit, w) == hit.entry.frame * 0x1000
  {
    SameSpan(v, w, hit.level);
    Offsets(v, w, SpanOf(hit.level));
  }

  datatype Flags = Flags(write: bool, user: bool, nx: bool)

  // ---------- Changes that no walk notices ----------

  /** New, empty tables of `o` appeared; nothing else is different for anybody. */
  ghost predicate Extends(s: Space, s': Space, o: Owner) {
    && s'.kernel == s.kernel && SameWalks(s, s')
    && (forall f {:trigger f in s'.role} :: f in s.role ==> f in s'.role && s'.role[f] == s.role[f])
    && (forall f {:trigger f in s'.role} :: f in s'.role && f !in s.role ==>
          s'.role[f].Node? && s'.role[f].level > 0 && s'.role[f].owner == o)
    && (forall f {:trigger f in s'.mem} :: f in s.mem && f in s.role && !s.IsTable(f) ==>
      f in s'.mem && s'.mem[f] == s.mem[f])
  }

  lemma ExtendsTwice(s: Space, s': Space, s'': Space, o: Owner)
    requires Extends(s, s', o) && Extends(s', s'', o)
    ensures Extends(s, s'', o)
  {
    forall r, q | s.IsRoot(r) && IsPath(q) ensures Walk(s''.mem, r, 4, q) == Walk(s.mem, r, 4, q) {
      assert r in s'.role;
      assert Walk(s'.mem, r, 4, q) == Walk(s.mem, r, 4, q);
    }
    forall f | f in s.role ensures f in s''.role && s''.role[f] == s.role[f] { assert f in s'.role; }
    forall f | f in s.mem && f in s.role && !s.IsTable(f) ensures f in s''.mem && s''.mem[f] == s.mem[f] {
      assert f in s'.mem && f in s'.role;
    }
  }

  // ---------- Frames in use and free frames ----------

  /** Frames that came from the frame allocator: all but the top and shared tables of the kernel. */
  ghost predicate Managed(role: map<Frame, Role>, kernel: Frame, f: Frame) {
    f in role && match role[f]
      case Root => f != kernel
      case Node(o, level, _, _) => o.Of? || level == 0
      case Held => true
  }

  /** The books of the frame allocator: the free frames, the size of the bitmap, and all frames there are. */
  datatype Book = Book(free: set<Frame>, limit: nat, all: set<Frame>) {
    ghost function Take(f: Frame): Book { this.(free := free - {f}) }

    ghost function Give(frames: set<Frame>): Book { this.(free := free + frames) }
  }

  /** Every frame is either free or in use, never both; those that may be given back have a bit in the bitmap. */
  ghost predicate FrameOk(role: map<Frame, Role>, kernel: Frame, b: Book, f: Frame) {
    && (f in b.all <==> f in b.free || f in role)
    && !(f in b.free && f in role)
    && (f in b.free || Managed(role, kernel, f) ==> 0 < f < b.limit)
  }

  ghost predicate Tracked(role: map<Frame, Role>, kernel: Frame, b: Book) {
    forall f: Frame {:trigger FrameOk(role, kernel, b, f)} :: FrameOk(role, kernel, b, f)
  }

  ghost predicate Sound(s: Space, b: Book) { s.Ok() && Tracked(s.role, s.kernel, b) }

  lemma GrownTracked(s: Space, b: Book, t: Frame, i: int, f: Frame, user: bool)
    requires Tracked(s.role, s.kernel, b) && s.Readable(t) && IsSlot(i) && s.IsTable(t) && s.Level(t) > 1 && f in b.free
    ensures t != f && f !in s.role && Tracked(Grown(s, t, i, f, user).role, s.kernel, b.Take(f))
  {
    assert FrameOk(s.role, s.kernel, b, t) && FrameOk(s.role, s.kernel, b, f);
    var role, b' := Grown(s, t, i, f, user).role, b.Take(f);
    forall g: Frame ensures FrameOk(role, s.kernel, b', g) { assert FrameOk(s.role, s.kernel, b, g); }
  }

  lemma GrownExtends(s: Space, t: Frame, i: int, f: Frame, user: bool)
    requires s.Ok() && s.IsTable(t) && s.Readable(t) && s.Level(t) > 1 && IsSlot(i) && !s.At(t, i).present
    requires f !in s.role && t != f && (user ==> UserAbove(s, t))
    ensures var s' := Grown(s, t, i, f, user);
      s'.Ok() && Extends(s, s', s.OwnerAt(t, i)) && s'.At(t, i) == Entry(f, true, true, user, false, false)
  {
    GrownOk(s, t, i, f, user);
    GrownWalks(s, t, i, f, user);
  }

  lemma OpenedExtends(s: Space, t: Frame, i: int, o: Owner)
    requires s.Ok() && s.IsTable(t) && s.Readable(t) && s.Level(t) > 1 && IsSlot(i) && s.OwnerAt(t, i).Of?
    requires s.At(t, i).present && UserAbove(s, t)
    ensures Opened(s, t, i).Ok() && Extends(s, Opened(s, t, i), o)
    ensures Opened(s, t, i).At(t, i) == s.At(t, i).(user := true)
  {
    OpenedOk(s, t, i);
    OpenedWalks(s, t, i);
  }

  /** One address space translates as before. */
  ghost predicate SameFrom(s: Space, s': Space, r: Frame) {
    forall q {:trigger Walk(s'.mem, r, 4, q)} :: IsPath(q) ==> Walk(s'.mem, r, 4, q) == Walk(s.mem, r, 4, q)
  }

  /** Before any other address space exists: the first `i` slots of the kernel's top table are settled. */
  ghost predicate Starting(s: Space, b: Book, i: int) {
    && s.Shape() && Tracked(s.role, s.kernel, b)
    && (forall f {:trigger f in s.role} :: f in s.role && f != s.kernel ==>
      s.role[f].Node? && s.role[f].owner == Shared && s.role[f].level > 0)
    && forall j {:trigger s.At(s.kernel, j)} :: 256 <= j < i ==> s.At(s.kernel, j).present
  }

  lemma GrownStarting(s: Space, b: Book, i: int, f: Frame)
    requires Starting(s, b, i) && f in b.free && 256 <= i < 512 && s.Readable(s.kernel) && !s.At(s.kernel, i).present
    ensures s.kernel != f && Starting(Grown(s, s.kernel, i, f, false), b.Take(f), i + 1)
  {
    GrownTracked(s, b, s.kernel, i, f, false);
    GrownShape(s, s.kernel, i, f, false);
    GrownAt(s, s.kernel, i, f, false);
  }

  /** How many of the slots from `i` on are empty. */
  ghost function Empty(entries: seq<Entry>, i: nat): nat
    decreases |entries| - i
  {
    if i >= |entries| then 0 else (if entries[i].present then 0 else 1) + Empty(entries, i + 1)
  }

  /** The upper slots of the loader's top table that lead nowhere. */
  ghost function EmptySlots(mem: map<Frame, Content>, boot: Frame): nat {
    if boot in mem && mem[boot].Table? then Empty(mem[boot].entries, 256) else 0
  }

  /** An upper slot of the kernel's top table is as it was; once settled, it has a blank table if it was empty. */
  ghost predicate SlotSettled(s: Space, was: seq<Entry>, i: int, j: int)
    requires |was| == 512
  {
    256 <= j < 512 ==>
      var e := s.At(s.kernel, j);
      if j >= i || was[j].present then e == was[j]
      else e.present && e.frame in s.mem && s.mem[e.frame] == BlankTable()
  }

  ghost predicate SettledUpTo(s: Space, was: seq<Entry>, i: int)
    requires |was| == 512
  {
    forall j {:trigger SlotSettled(s, was, i, j)} :: SlotSettled(s, was, i, j)
  }

  lemma SkippedSlot(s: Space, was: seq<Entry>, i: int)
    requires |was| == 512 && SettledUpTo(s, was, i) && 256 <= i < 512 && was[i].present
    ensures SettledUpTo(s, was, i + 1)
  {
    var n := i + 1;
    forall j ensures SlotSettled(s, was, n, j) { assert SlotSettled(s, was, i, j); }
  }

  lemma GrownSettled(s: Space, b: Book, was: seq<Entry>, i: int, f: Frame)
    requires Starting(s, b, i) && f in b.free && 256 <= i < 512 && s.Readable(s.kernel)
    requires |was| == 512 && SettledUpTo(s, was, i) && !was[i].present
    ensures s.kernel != f && SettledUpTo(Grown(s, s.kernel, i, f, false), was, i + 1)
  {
    assert FrameOk(s.role, s.kernel, b, f);
    var s' := Grown(s, s.kernel, i, f, false);
    GrownAt(s, s.kernel, i, f, false);
    var n := i + 1;
    forall j ensures SlotSettled(s', was, n, j) {
      assert SlotSettled(s, was, i, j) && s.EntryOk(s.kernel, j);
    }
  }

  /** On the way through an upper slot that the loader left empty two tables are missing. */
  ghost predicate BlankBelow(s: Space, mem: map<Frame, Content>, boot: Frame) {
    forall q {:trigger Missing(s.mem, s.kernel, 4, q)} ::
      IsPath(q) && q.a >= 256 && !Space(mem, map[], boot, {}).At(boot, q.a).present ==>
        Missing(s.mem, s.kernel, 4, q) == 2
  }

  lemma AllBlankBelow(s: Space, mem: map<Frame, Content>, boot: Frame)
    requires boot in mem && mem[boot].Table? && |mem[boot].entries| == 512 && SettledUpTo(s, mem[boot].entries, 512)
    requires s.Ok()
    ensures BlankBelow(s, mem, boot)
  {
    assert s.TableOk(s.kernel);
    forall q | IsPath(q) && q.a >= 256 && !mem[boot].entries[q.a].present ensures Missing(s.mem, s.kernel, 4, q) == 2 {
      assert SlotSettled(s, mem[boot].entries, 512, q.a);
    }
  }

  /** The new top table translates the upper half as the old one does, and nothing else. */
  ghost predicate TakesOver(mem: map<Frame, Content>, boot: Frame, mem': map<Frame, Content>, k: Frame) {
    forall q {:trigger Walk(mem', k, 4, q)} ::
      IsPath(q) ==> Walk(mem', k, 4, q) == if q.a >= 256 then Walk(mem, boot, 4, q) else None
  }

  lemma BootStart(mem: map<Frame, Content>, role: map<Frame, Role>, boot: Frame, guarded: set<int>, free: set<Frame>,
      limit: nat, k: Frame, c: Content)
    requires BootOk(mem, role, boot, guarded) && FreshRoot(Space(mem, role, boot, guarded), c) && k in free
    requires (forall f :: f in role ==> f !in free) && forall f :: f in free ==> 0 < f < limit
    ensures Starting(Space(mem[k := c], Moved(role, boot, k), k, guarded),
      Book(free - {k}, limit, free + role.Keys - {boot}), 256)
    ensures TakesOver(mem, boot, mem[k := c], k)
  {
    MovedShape(mem, role, boot, guarded, k, c);
    var b, role' := Book(free - {k}, limit, free + role.Keys - {boot}), Moved(role, boot, k);
    forall f: Frame ensures FrameOk(role', k, b, f) {}
    forall q | IsPath(q) ensures Walk(mem[k := c], k, 4, q) == if q.a >= 256 then Walk(mem, boot, 4, q) else None {
      MovedWalk(mem, role, boot, guarded, k, c, q);
    }
  }

  /** Once all upper slots are settled, the kernel's address space is in order. */
  lemma Started(s: Space, b: Book)
    requires Starting(s, b, 512)
    ensures Sound(s, b)
  {
    forall r, i ensures s.RootOk(r, i) {
      if s.IsRoot(r) && 256 <= i < 512 { assert r == s.kernel; assert s.At(s.kernel, i).present; }
    }
  }

  // ---------- Mapping and unmapping ----------

  /** There is no large page on the way; with one, mapping and unmapping a small page panics. */
  ghost predicate NoLargePage(s: Space, ctx: Frame, q: Path)
    requires IsPath(q)
  {
    var w := Walk(s.mem, ctx, 4, q);
    w.Some? ==> w.value.level == 1
  }

  /** The way down from `ctx` along `q` has come to table `t`. */
  ghost predicate OnTheWay(s: Space, ctx: Frame, q: Path, t: Frame) {
    s.IsRoot(ctx) && s.Follows(t, q, Half(ctx, q.a)) && (t == ctx || s.role[t].Node?)
  }

  lemma MayDescend(s: Space, ctx: Frame, q: Path, t: Frame)
    requires s.Ok() && IsPath(q) && OnTheWay(s, ctx, q, t) && s.Level(t) > 1 && NoLargePage(s, ctx, q)
    ensures s.Readable(t) && s.OwnerAt(t, Slot(q, s.Level(t))) == Half(ctx, q.a)
    ensures s.At(t, Slot(q, s.Level(t))).present ==> !s.At(t, Slot(q, s.Level(t))).huge
  {
    assert s.TableOk(t) && s.EntryOk(t, Slot(q, s.Level(t)));
    if t != ctx { ComesBy(s, t, ctx, q); }
  }

  lemma Descended(s: Space, ctx: Frame, q: Path, t: Frame, user: bool)
    requires s.Ok() && IsPath(q) && OnTheWay(s, ctx, q, t) && s.Level(t) > 1
    requires var e := s.At(t, Slot(q, s.Level(t))); e.present && !e.huge && (user ==> e.user && q.a < 256)
    ensures var f := s.At(t, Slot(q, s.Level(t))).frame;
      OnTheWay(s, ctx, q, f) && s.Level(f) == s.Level(t) - 1 && (user ==> UserAbove(s, f))
  {
    s.StepDown(t, q, Half(ctx, q.a));
    assert s.EntryOk(t, Slot(q, s.Level(t)));
  }

  /** Opening an entry for user code leaves the tables below it alone. */
  lemma MissingBelow(s: Space, s': Space, ctx: Frame, q: Path, t: Frame)
    requires s.Ok() && IsPath(q) && OnTheWay(s, ctx, q, t) && s.Level(t) > 1 && s.Readable(t)
    requires var e := s.At(t, Slot(q, s.Level(t))); e.present && !e.huge
    requires s' == s || s' == Opened(s, t, Slot(q, s.Level(t)))
    ensures Missing(s'.mem, s.At(t, Slot(q, s.Level(t))).frame, s.Level(t) - 1, q) == Missing(s.mem, t, s.Level(t), q)
  {
    var o, f := Half(ctx, q.a), s.At(t, Slot(q, s.Level(t))).frame;
    s.StepDown(t, q, o);
    assert s.EntryOk(t, Slot(q, s.Level(t)));
    assert SameTables(s, s', q, o, s.Level(f)) by {
      forall x | s.Follows(x, q, o) && 1 < s.Level(x) <= s.Level(f)
        ensures s'.Readable(x) && LeadsAlike(s.At(x, Slot(q, s.Level(x))), s'.At(x, Slot(q, s.Level(x))))
      {
        assert s.TableOk(x);
      }
    }
    MissingKept(s, s', f, q, o);
  }

  // ---------- How many tables are missing, and how that changes ----------

  /**
    Once the tables on the way to `q` are in place down to `level`, a page misses no more tables than lie below the
    point where its way parts from that to `q`, and no fewer than before where it parts earlier.
   */
  ghost predicate Paves(s: Space, s': Space, ctx: Frame, q: Path, level: nat) {
    forall q' {:trigger Missing(s'.mem, ctx, 4, q')} :: IsPath(q') ==>
      Missing(s'.mem, ctx, 4, q') == Least(Missing(s.mem, ctx, 4, q'), Fork(q, q', level))
  }

  ghost predicate SameMissing(s: Space, s': Space, ctx: Frame) {
    forall q {:trigger Missing(s'.mem, ctx, 4, q)} :: IsPath(q) ==>
      Missing(s'.mem, ctx, 4, q) == Missing(s.mem, ctx, 4, q)
  }

  /** Above the lowest tables every entry leads where it led. */
  ghost predicate TablesStay(s: Space, s': Space) {
    forall x, i {:trigger s'.At(x, i)} :: s.IsTable(x) && s.Level(x) > 1 && IsSlot(i) ==>
      s'.Readable(x) && LeadsAlike(s.At(x, i), s'.At(x, i))
  }

  lemma StayMissing(s: Space, s': Space, ctx: Frame)
    requires s.Ok() && s.IsRoot(ctx) && TablesStay(s, s')
    ensures SameMissing(s, s', ctx)
  {
    forall q | IsPath(q) ensures Missing(s'.mem, ctx, 4, q) == Missing(s.mem, ctx, 4, q) {
      var o := Half(ctx, q.a);
      assert s.Follows(ctx, q, o);
      assert SameTables(s, s', q, o, 4) by {
        forall x | s.Follows(x, q, o) && 1 < s.Level(x) <= 4
          ensures s'.Readable(x) && LeadsAlike(s.At(x, Slot(q, s.Level(x))), s'.At(x, Slot(q, s.Level(x))))
        {
          assert s'.At(x, Slot(q, s.Level(x))) == s'.At(x, Slot(q, s.Level(x)));
        }
      }
      MissingKept(s, s', ctx, q, o);
    }
  }

  /** A page whose way comes by a place of `level` at which there is a table misses only tables below it. */
  lemma MissingBelowPlace(s: Space, ctx: Frame, q: Path, t: Frame, q': Path, level: nat)
    requires s.Ok() && IsPath(q) && IsPath(q') && OnTheWay(s, ctx, q, t) && s.Level(t) <= level <= 3
    requires Cut(q, level) == Cut(q', level)
    ensures Missing(s.mem, ctx, 4, q') <= level - 1
  {
    assert s.NodeOk(t);
    var a := Ancestor(s, t, level);
    NoneMissingAbove(s, a, ctx, q');
    MissingAtMost(s.mem, a, level, q');
  }

  lemma MissingToFork(s: Space, ctx: Frame, q: Path, t: Frame, q': Path)
    requires s.Ok() && IsPath(q) && IsPath(q') && OnTheWay(s, ctx, q, t)
    ensures Missing(s.mem, ctx, 4, q') <= Fork(q, q', s.Level(t))
  {
    var level := Fork(q, q', s.Level(t)) + 1;
    if level < 4 { MissingBelowPlace(s, ctx, q, t, q', level); } else { MissingAtMost(s.mem, ctx, 4, q'); }
  }

  /** A new table shortens the way of exactly the pages below it, by one. */
  lemma GrownMissing(s: Space, ctx: Frame, q: Path, t: Frame, f: Frame, user: bool, q': Path)
    requires s.Ok() && IsPath(q) && IsPath(q') && OnTheWay(s, ctx, q, t) && s.Level(t) > 1 && s.Readable(t)
    requires !s.At(t, Slot(q, s.Level(t))).present && f !in s.role && t != f && (user ==> UserAbove(s, t))
    ensures var s' := Grown(s, t, Slot(q, s.Level(t)), f, user);
      Missing(s'.mem, ctx, 4, q') == Least(Missing(s.mem, ctx, 4, q'), Fork(q, q', s.Level(t) - 1))
  {
    var L, i := s.Level(t), Slot(q, s.Level(t));
    var s' := Grown(s, t, i, f, user);
    var o := Half(ctx, q'.a);
    MissingToFork(s, ctx, q, t, q');
    if Cut(q, L - 1) == Cut(q', L - 1) {
      GrownOk(s, t, i, f, user);
      GrownAt(s, t, i, f, user);
      assert s.NodeOk(t);
      if t != ctx { NoneMissingAbove(s, t, ctx, q'); }
      assert Missing(s.mem, ctx, 4, q') == L - 1;
      NoneMissingAbove(s', f, ctx, q');
    } else {
      assert s.Follows(ctx, q', o);
      assert SameTables(s, s', q', o, 4) by {
        forall x | s.Follows(x, q', o) && 1 < s.Level(x) <= 4
          ensures s'.Readable(x) && LeadsAlike(s.At(x, Slot(q', s.Level(x))), s'.At(x, Slot(q', s.Level(x))))
        {
          assert s.TableOk(x);
        }
      }
      MissingKept(s, s', ctx, q', o);
    }
  }

  /** One level down: the table there was, or was made. */
  lemma DescentPaves(s: Space, s': Space, ctx: Frame, q: Path, t: Frame, next: Frame, user: bool)
    requires s.Ok() && s'.Ok() && IsPath(q) && OnTheWay(s, ctx, q, t) && s.Level(t) > 1 && s.Readable(t)
    requires OnTheWay(s', ctx, q, next) && s'.Level(next) == s.Level(t) - 1 && (user ==> UserAbove(s, t))
    requires var i := Slot(q, s.Level(t));
      if s.At(t, i).present then s' == s || s' == Opened(s, t, i)
      else next !in s.role && t != next && s' == Grown(s, t, i, next, user)
    ensures Paves(s, s', ctx, q, s.Level(t) - 1)
  {
    if s.At(t, Slot(q, s.Level(t))).present {
      forall x, i | s.IsTable(x) && IsSlot(i)
        ensures s'.Readable(x) && LeadsAlike(s.At(x, i), s'.At(x, i)) { assert s.TableOk(x); }
      StayMissing(s, s', ctx);
      forall q' | IsPath(q') ensures Missing(s'.mem, ctx, 4, q') <= Fork(q, q', s.Level(t) - 1) {
        MissingToFork(s', ctx, q, next, q');
      }
    } else {
      forall q' | IsPath(q')
        ensures Missing(s'.mem, ctx, 4, q') == Least(Missing(s.mem, ctx, 4, q'), Fork(q, q', s.Level(t) - 1))
      {
        GrownMissing(s, ctx, q, t, next, user, q');
      }
    }
  }

  lemma PavesOn(s: Space, s': Space, s'': Space, ctx: Frame, q: Path, level: nat, level': nat)
    requires Paves(s, s', ctx, q, level) && Paves(s', s'', ctx, q, level') && level' <= level
    ensures Paves(s, s'', ctx, q, level')
  {
    forall q' | IsPath(q')
      ensures Missing(s''.mem, ctx, 4, q') == Least(Missing(s.mem, ctx, 4, q'), Fork(q, q', level'))
    {
      assert Missing(s'.mem, ctx, 4, q') == Least(Missing(s.mem, ctx, 4, q'), Fork(q, q', level));
    }
  }

  lemma PavesThenStays(s: Space, s': Space, s'': Space, ctx: Frame, q: Path, level: nat)
    requires Paves(s, s', ctx, q, level) && SameMissing(s', s'', ctx)
    ensures Paves(s, s'', ctx, q, level)
  {
    forall q' | IsPath(q')
      ensures Missing(s''.mem, ctx, 4, q') == Least(Missing(s.mem, ctx, 4, q'), Fork(q, q', level))
    {
      assert Missing(s'.mem, ctx, 4, q') == Least(Missing(s.mem, ctx, 4, q'), Fork(q, q', level));
    }
  }

  lemma LeafedMissing(s: Space, t: Frame, i: int, e: Entry, ctx: Frame)
    requires s.Ok() && s.IsRoot(ctx) && s.IsTable(t) && s.Level(t) == 1 && s.Readable(t) && IsSlot(i)
    ensures SameMissing(s, Leafed(s, t, i, e), ctx)
  {
    var s' := Leafed(s, t, i, e);
    forall x, j | s.IsTable(x) && s.Level(x) > 1 && IsSlot(j)
      ensures s'.Readable(x) && LeadsAlike(s.At(x, j), s'.At(x, j)) {
      assert s.TableOk(x);
    }
    StayMissing(s, s', ctx);
  }

  // ---------- The frames that a run of pages takes ----------

  /** The way to page number `n`. */
  function PagePath(n: nat): (q: Path)
    ensures IsPath(q)
  {
    PathTo(n * P.PAGE_SIZE)
  }

  /** How many tables page `q` still misses once `n` pages from number `first` on have been mapped. */
  ghost function Short(s: Space, r: Frame, first: nat, n: nat, q: Path): nat
    requires IsPath(q)
    decreases n, r
  {
    if n == 0 then Missing(s.mem, r, 4, q) else Least(Short(s, r, first, n - 1, q), Fork(PagePath(first + n - 1), q, 1))
  }

  /** How many frames mapping `n` pages takes: one for every page and one for every table that is missing by then. */
  ghost function Need(s: Space, r: Frame, first: nat, n: nat): nat
    decreases n, r
  {
    if n == 0 then 0 else Need(s, r, first, n - 1) + 1 + Short(s, r, first, n - 1, PagePath(first + n - 1))
  }

  lemma {:induction false} NeedGrows(s: Space, r: Frame, first: nat, m: nat, n: nat)
    requires m < n
    ensures Need(s, r, first, m) + (n - m) <= Need(s, r, first, n)
    decreases n
  {
    if m < n - 1 { NeedGrows(s, r, first, m, n - 1); }
  }

  /** What is missing after `n` pages is what was said to be. */
  ghost predicate Built(s0: Space, s: Space, r: Frame, first: nat, n: nat) {
    forall q {:trigger Missing(s.mem, r, 4, q)} :: IsPath(q) ==> Missing(s.mem, r, 4, q) == Short(s0, r, first, n, q)
  }

  lemma BuiltNext(s0: Space, s: Space, s': Space, r: Frame, first: nat, n: nat)
    requires Built(s0, s, r, first, n) && Paves(s, s', r, PagePath(first + n), 1)
    ensures Built(s0, s', r, first, n + 1)
  {
    forall q | IsPath(q) ensures Missing(s'.mem, r, 4, q) == Short(s0, r, first, n + 1, q) {
      assert Missing(s.mem, r, 4, q) == Short(s0, r, first, n, q);
    }
  }

  lemma StaysThenPaves(s: Space, s': Space, s'': Space, ctx: Frame, q: Path, level: nat)
    requires SameMissing(s, s', ctx) && Paves(s', s'', ctx, q, level)
    ensures Paves(s, s'', ctx, q, level)
  {
    forall q' | IsPath(q')
      ensures Missing(s''.mem, ctx, 4, q') == Least(Missing(s.mem, ctx, 4, q'), Fork(q, q', level))
    {
      assert Missing(s'.mem, ctx, 4, q') == Missing(s.mem, ctx, 4, q');
    }
  }

  lemma FilledMissing(s: Space, f: Frame, bytes: seq<nat>, ctx: Frame)
    requires s.Ok() && s.IsRoot(ctx) && f !in s.role
    ensures SameMissing(s, Filled(s, f, bytes), ctx)
  {
    var s' := Filled(s, f, bytes);
    forall x, j | s.IsTable(x) && s.Level(x) > 1 && IsSlot(j)
      ensures s'.Readable(x) && LeadsAlike(s.At(x, j), s'.At(x, j)) {
      assert s.TableOk(x);
    }
    StayMissing(s, s', ctx);
  }

  /** Making tables elsewhere on the way keeps one's place. */
  lemma StillOnTheWay(s: Space, s': Space, ctx: Frame, q: Path, t: Frame, o: Owner)
    requires IsPath(q) && OnTheWay(s, ctx, q, t) && NoLargePage(s, ctx, q) && Extends(s, s', o)
    ensures OnTheWay(s', ctx, q, t) && s'.Level(t) == s.Level(t) && NoLargePage(s', ctx, q)
  {
    assert ctx in s'.role && t in s'.role;
    assert Walk(s'.mem, ctx, 4, q) == Walk(s.mem, ctx, 4, q);
  }

  /** The page `q` of `ctx` is now translated to `w`, and no other translation changed. */
  ghost predicate Retranslates(s: Space, s': Space, ctx: Frame, q: Path, w: Option<Hit>) {
    forall r, q' {:trigger Walk(s'.mem, r, 4, q')} :: s.IsRoot(r) && IsPath(q') ==>
      Walk(s'.mem, r, 4, q') == if q' == q && Half(r, q'.a) == Half(ctx, q.a) then w else Walk(s.mem, r, 4, q')
  }

  ghost predicate IsPageAt(x: Role, ctx: Frame, q: Path) {
    x.Node? && x.level == 0 && x.owner == Half(ctx, q.a) && x.path == q
  }

  /** The page `q` of `ctx` gave up its frame and took `frame`; bytes in memory and other uses of frames stay. */
  ghost predicate Settles(s: Space, s': Space, ctx: Frame, q: Path, frame: Option<Frame>) {
    && s'.kernel == s.kernel
    && (forall f {:trigger f in s'.role} :: f in s.role ==>
          && f in s'.role
          && (if frame == Some(f) && (s.role[f] == Held || IsPageAt(s.role[f], ctx, q)) then
                IsPageAt(s'.role[f], ctx, q)
              else s'.role[f] == (if IsPageAt(s.role[f], ctx, q) then Held else s.role[f])))
    && (forall f {:trigger f in s'.role} :: f in s'.role && f !in s.role ==>
          s'.role[f].Node? && s'.role[f].level > 0 && s'.role[f].owner == Half(ctx, q.a))
    && (forall f {:trigger f in s'.mem} :: f in s.mem && f in s.role && !s.IsTable(f) ==>
      f in s'.mem && s'.mem[f] == s.mem[f])
  }

  /** Whoever maps a page in the lower half brings a frame of bytes that nobody else has. */
  ghost predicate Claim(s: Space, ctx: Frame, q: Path, frame: Frame) {
    q.a < 256 ==>
      && frame in s.role && (s.role[frame] == Held || IsPageAt(s.role[frame], ctx, q))
      && frame in s.mem && s.mem[frame].Bytes? && |s.mem[frame].bytes| == P.PAGE_SIZE
  }

  lemma LeafedRetranslates(s: Space, ctx: Frame, q: Path, t: Frame, e: Entry)
    requires s.Ok() && IsPath(q) && OnTheWay(s, ctx, q, t) && s.Level(t) == 1 && s.Readable(t)
    requires Mappable(s, t, q.d, e)
    ensures Retranslates(s, Leafed(s, t, q.d, e), ctx, q, if e.present then Some(Hit(1, e)) else None)
  {
    assert s.NodeOk(t);
    var s' := Leafed(s, t, q.d, e);
    forall r, q' | s.IsRoot(r) && IsPath(q')
      ensures Walk(s'.mem, r, 4, q') ==
        if q' == q && Half(r, q'.a) == Half(ctx, q.a) then (if e.present then Some(Hit(1, e)) else None)
        else Walk(s.mem, r, 4, q')
    {
      if q' == q && Half(r, q'.a) == Half(ctx, q.a) { WalkToPage(s, t, q.d, e, r, q'); }
        else { OtherWalks(s, t, q.d, e, r, q'); }
    }
  }

  /** At the lowest table, the frame that holds the page is the one the entry names. */
  lemma PageOfEntry(s: Space, ctx: Frame, q: Path, t: Frame, f: Frame)
    requires s.Ok() && IsPath(q) && OnTheWay(s, ctx, q, t) && s.Level(t) == 1 && s.Readable(t)
    requires f in s.role && IsPageAt(s.role[f], ctx, q)
    ensures s.role[f] == LeafRole(s, t, q.d) && s.At(t, q.d).present && s.At(t, q.d).frame == f
  {
    assert s.NodeOk(f) && s.NodeOk(t);
    OneFrame(s, s.role[f].up, t);
  }

  lemma LeafedSettles(s: Space, ctx: Frame, q: Path, t: Frame, e: Entry)
    requires s.Ok() && IsPath(q) && OnTheWay(s, ctx, q, t) && s.Level(t) == 1 && s.Readable(t)
    ensures Settles(s, Leafed(s, t, q.d, e), ctx, q, if e.present then Some(e.frame) else None)
  {
    assert s.NodeOk(t);
    var s' := Leafed(s, t, q.d, e);
    forall f | f in s.role && IsPageAt(s.role[f], ctx, q)
      ensures s.role[f] == LeafRole(s, t, q.d) && s.At(t, q.d).present && s.At(t, q.d).frame == f
    {
      PageOfEntry(s, ctx, q, t, f);
    }
  }

  lemma ClaimMappable(s: Space, ctx: Frame, q: Path, t: Frame, e: Entry)
    requires s.Ok() && IsPath(q) && OnTheWay(s, ctx, q, t) && s.Level(t) == 1 && s.Readable(t)
    requires e.present ==> Claim(s, ctx, q, e.frame) && (e.user ==> UserAbove(s, t))
    ensures Mappable(s, t, q.d, e)
  {
    assert s.NodeOk(t);
    if e.present && q.a < 256 && s.role[e.frame] != Held { PageOfEntry(s, ctx, q, t, e.frame); }
  }

  lemma LeafedTracked(s: Space, b: Book, t: Frame, i: int, e: Entry)
    requires Tracked(s.role, s.kernel, b) && s.Readable(t) && IsSlot(i)
    ensures Tracked(Leafed(s, t, i, e).role, s.kernel, b)
  {
    var role := Leafed(s, t, i, e).role;
    forall g: Frame ensures FrameOk(role, s.kernel, b, g) { assert FrameOk(s.role, s.kernel, b, g); }
  }

  lemma ThenRetranslates(s: Space, s': Space, s'': Space, o: Owner, ctx: Frame, q: Path, w: Option<Hit>)
    requires Extends(s, s', o) && Retranslates(s', s'', ctx, q, w)
    ensures Retranslates(s, s'', ctx, q, w)
  {
    forall r, q' | s.IsRoot(r) && IsPath(q')
      ensures Walk(s''.mem, r, 4, q') == if q' == q && Half(r, q'.a) == Half(ctx, q.a) then w else Walk(s.mem, r, 4, q')
    {
      assert r in s'.role;
      assert Walk(s'.mem, r, 4, q') == Walk(s.mem, r, 4, q');
    }
  }

  lemma ThenSettles(s: Space, s': Space, s'': Space, ctx: Frame, q: Path, frame: Option<Frame>)
    requires Extends(s, s', Half(ctx, q.a)) && Settles(s', s'', ctx, q, frame)
    ensures Settles(s, s'', ctx, q, frame)
  {
    forall f | f in s.role ensures f in s'.role {}
    forall f | f in s.mem && f in s.role && !s.IsTable(f) ensures f in s''.mem && s''.mem[f] == s.mem[f] {
      assert f in s'.mem && f in s'.role;
    }
  }

  lemma ThenClaim(s: Space, s': Space, o: Owner, ctx: Frame, q: Path, frame: Frame)
    requires Extends(s, s', o) && Claim(s, ctx, q, frame)
    ensures Claim(s', ctx, q, frame)
  {
    if q.a < 256 { assert frame in s'.role && frame in s'.mem; }
  }

  // ---------- Access from user code ----------

  /** User code may read, or write, the byte at `a`. */
  ghost predicate Accessible(s: Space, ctx: Frame, a: nat, write: bool) {
    var w := Walk(s.mem, ctx, 4, PathTo(a));
    w.Some? && w.value.level == 1 && w.value.entry.user && (write ==> w.value.entry.write)
  }

  /** On the way to a user page every entry lets user code through. */
  lemma {:induction false} UserAllTheWay(s: Space, q: Path, t: Frame, o: Owner)
    requires s.Ok() && IsPath(q) && s.Follows(t, q, o) && o.Of?
    requires var w := Walk(s.mem, t, s.Level(t), q); w.Some? && w.value.level == 1 && w.value.entry.user
    ensures s.At(t, Slot(q, s.Level(t))).user
    decreases s.Level(t)
  {
    var e := s.At(t, Slot(q, s.Level(t)));
    assert s.TableOk(t) && s.EntryOk(t, Slot(q, s.Level(t)));
    if s.Level(t) > 1 {
      s.StepDown(t, q, o);
      UserAllTheWay(s, q, e.frame, o);
      assert s.UserOk(e.frame, Slot(q, s.Level(e.frame))) && s.NodeOk(e.frame);
      assert s.TableOk(e.frame);
    }
  }

  ghost predicate PageAccessible(s: Space, ctx: Frame, n: nat, write: bool) {
    Accessible(s, ctx, n * P.PAGE_SIZE, write)
  }

  ghost predicate RangeAccessible(s: Space, ctx: Frame, v: nat, len: nat, write: bool) {
    forall a: nat | v <= a < v + len :: Accessible(s, ctx, a, write)
  }

  lemma PathOfPage(a: nat)
    ensures PathTo(a / P.PAGE_SIZE * P.PAGE_SIZE) == PathTo(a)
  {
    Halves(a);
    Halves(a / P.PAGE_SIZE * P.PAGE_SIZE);
  }

  /** A byte is as accessible as its page. */
  lemma SamePage(s: Space, ctx: Frame, a: nat, write: bool)
    ensures Accessible(s, ctx, a, write) <==> PageAccessible(s, ctx, a / P.PAGE_SIZE, write)
  {
    PathOfPage(a);
  }

  /** A range is accessible when the pages it touches are. */
  lemma PagesCover(s: Space, ctx: Frame, v: nat, len: nat, write: bool, end: nat)
    requires forall n: nat | v / P.PAGE_SIZE <= n < end :: PageAccessible(s, ctx, n, write)
    requires v + len <= end * P.PAGE_SIZE
    ensures RangeAccessible(s, ctx, v, len, write)
  {
    forall a: nat | v <= a < v + len ensures Accessible(s, ctx, a, write) {
      SamePage(s, ctx, a, write);
      assert v / P.PAGE_SIZE <= a / P.PAGE_SIZE < end;
    }
  }

  /** A page that the range touches and that is not accessible spoils the range. */
  lemma PageMissing(s: Space, ctx: Frame, v: nat, len: nat, write: bool, n: nat)
    requires v / P.PAGE_SIZE <= n && n * P.PAGE_SIZE < v + len && len > 0 && !PageAccessible(s, ctx, n, write)
    ensures !RangeAccessible(s, ctx, v, len, write)
  {
    var a := if n * P.PAGE_SIZE < v then v else n * P.PAGE_SIZE;
    assert a / P.PAGE_SIZE == n;
    SamePage(s, ctx, a, write);
  }

  lemma PageSpan(v: nat, len: nat)
    requires len > 0
    ensures var end := (v + len + P.PAGE_SIZE - 1) / P.PAGE_SIZE;
      v / P.PAGE_SIZE < end && v + len <= end * P.PAGE_SIZE < v + len + P.PAGE_SIZE
  {}

  // ---------- Pages that are not there ----------

  /** Where the walk finds nothing, no frame serves the page, and there is nothing to unmap. */
  lemma NothingThere(s: Space, ctx: Frame, q: Path)
    requires s.Ok() && s.IsRoot(ctx) && IsPath(q) && Walk(s.mem, ctx, 4, q) == None
    ensures Retranslates(s, s, ctx, q, None) && Settles(s, s, ctx, q, None)
  {
    forall r | s.IsRoot(r) && Half(r, q.a) == Half(ctx, q.a) ensures Walk(s.mem, r, 4, q) == None {
      if q.a >= 256 { SameKernelHalf(s, r, q); SameKernelHalf(s, ctx, q); }
    }
    forall f | f in s.role ensures !IsPageAt(s.role[f], ctx, q) {
      if IsPageAt(s.role[f], ctx, q) {
        assert s.NodeOk(f) && s.TableOk(s.role[f].up);
        ComesBy(s, s.role[f].up, ctx, q);
      }
    }
  }

  // ---------- Address spaces come and go ----------

  /** A new address space: empty below, the kernel's above; everything else is as before. */
  ghost predicate Creates(s: Space, s': Space, r: Frame) {
    && r !in s.role && s'.role == s.role[r := Root] && s'.kernel == s.kernel && SameWalks(s, s')
    && (forall q {:trigger Walk(s'.mem, r, 4, q)} :: IsPath(q) && q.a < 256 ==> Walk(s'.mem, r, 4, q) == None)
    && (forall f {:trigger f in s'.mem} :: f in s.mem && f in s.role ==> f in s'.mem && s'.mem[f] == s.mem[f])
  }

  lemma CreatedSound(s: Space, b: Book, f: Frame, c: Content)
    requires Sound(s, b) && f in b.free && FreshRoot(s, c)
    ensures Sound(Created(s, f, c), b.Take(f)) && Creates(s, Created(s, f, c), f)
  {
    assert FrameOk(s.role, s.kernel, b, f);
    CreatedOk(s, f, c);
    CreatedWalks(s, f, c);
    var role, b' := Created(s, f, c).role, b.Take(f);
    forall g: Frame ensures FrameOk(role, s.kernel, b', g) { assert FrameOk(s.role, s.kernel, b, g); }
  }

  lemma DestroyedSound(s: Space, b: Book, r: Frame)
    requires Sound(s, b) && s.IsRoot(r) && r != s.kernel
    ensures Sound(Destroyed(s, r), b.Give(OwnedBy(s, r)))
  {
    DestroyedOk(s, r);
    var role, b' := Destroyed(s, r).role, b.Give(OwnedBy(s, r));
    forall g: Frame ensures FrameOk(role, s.kernel, b', g) { assert FrameOk(s.role, s.kernel, b, g); }
  }

  /** Frames that can be given back: none is free, and each has its bit. */
  ghost predicate Returnable(frames: set<Frame>, free: set<Frame>, limit: nat) {
    frames !! free && forall f :: f in frames ==> 0 < f < limit
  }

  lemma BehindNone(s: Space, o: Owner, level: nat, p: Path)
    requires s.Ok() && 1 <= level <= 4
    ensures Behind(s, o, level, p, 0) == {}
  {
    forall f | f in Below(s, o, level, p) && s.role[f].level < level ensures Slot(s.role[f].path, level) >= 0 {
      var a := Ancestor(s, f, level - 1);
      assert s.NodeOk(a);
    }
  }

  /** The frames behind slot `i`. */
  ghost function Inner(s: Space, t: Frame, i: int): set<Frame> {
    if s.Level(t) == 0 then {} else Below(s, s.OwnerAt(t, i), s.Level(t) - 1, Child(s.PathOf(t), s.Level(t), i))
  }

  lemma SlotFacts(s: Space, t: Frame, i: nat)
    requires s.Ok() && s.IsTable(t) && i < (if s.role[t].Root? then 256 else 512)
      && (s.role[t].Node? ==> s.role[t].owner.Of?)
    ensures s.Readable(t) && (!s.At(t, i).present ==> Inner(s, t, i) == {})
    ensures s.At(t, i).present ==>
      var f := s.At(t, i).frame;
      && f in s.role && s.role[f].Node? && s.role[f].owner.Of? && s.role[f].level == s.Level(t) - 1
      && Inner(s, t, i) == Below(s, s.role[f].owner, s.role[f].level, s.role[f].path)
      && (if s.Level(t) == 1 then Inner(s, t, i) == {f} else s.IsTable(f) && !s.At(t, i).huge)
  {
    assert s.TableOk(t) && s.NodeOk(t);
    BehindSlot(s, t, s.OwnerAt(t, i), i);
    if s.At(t, i).present && s.Level(t) == 1 { BelowPage(s, s.At(t, i).frame); }
  }

  /** One slot after the other: what is behind the next slot can still be given back. */
  lemma NextSlot(s: Space, t: Frame, o: Owner, i: nat, n: nat, free: set<Frame>, limit: nat)
    requires s.Ok() && Heads(s, t, o) && o.Of? && n == (if s.role[t].Root? then 256 else 512) && i < n
    requires Returnable(Behind(s, o, s.Level(t), s.PathOf(t), n), free, limit)
    ensures Returnable(Inner(s, t, i), free + Behind(s, o, s.Level(t), s.PathOf(t), i), limit)
    ensures free + Behind(s, o, s.Level(t), s.PathOf(t), i + 1) ==
      free + Behind(s, o, s.Level(t), s.PathOf(t), i) + Inner(s, t, i)
  {
    BehindSlot(s, t, o, i);
    assert s.NodeOk(t);
    assert s.OwnerAt(t, i) == o;
    forall f | f in Inner(s, t, i) ensures f in Behind(s, o, s.Level(t), s.PathOf(t), n) {
      assert f in Behind(s, o, s.Level(t), s.PathOf(t), i + 1);
    }
  }

  lemma OwnedReturnable(s: Space, b: Book, r: Frame)
    requires Sound(s, b) && s.IsRoot(r) && r != s.kernel
    ensures Returnable(Behind(s, Of(r), 4, TOP, 256), b.free, b.limit) && 0 < r < b.limit && r !in b.free
    ensures OwnedBy(s, r) == Behind(s, Of(r), 4, TOP, 256) + {r} && r !in Behind(s, Of(r), 4, TOP, 256)
  {
    OwnedIsBehind(s, r);
    forall f | f in OwnedBy(s, r) ensures 0 < f < b.limit && f !in b.free { assert FrameOk(s.role, s.kernel, b, f); }
  }

  // ---------- Memory for user code ----------

  ghost predicate InRegion(q: Path, first: nat, last: nat) { first <= PageNumber(q) < last }

  /** At most the pages from `first` up to `last` of `ctx` changed; frames they had are held, new ones are its own. */
  ghost predicate RegionStep(s: Space, s': Space, ctx: Frame, first: nat, last: nat) {
    && s'.kernel == s.kernel
    && (forall r, q {:trigger WalkStays(s, s', ctx, first, last, r, q)} :: WalkStays(s, s', ctx, first, last, r, q))
    && (forall f {:trigger RoleStays(s, s', ctx, first, last, f)} :: RoleStays(s, s', ctx, first, last, f))
    && (forall f {:trigger BytesStay(s, s', f)} :: BytesStay(s, s', f))
  }

  ghost predicate WalkStays(s: Space, s': Space, ctx: Frame, first: nat, last: nat, r: Frame, q: Path) {
    s.IsRoot(r) && IsPath(q) && !(r == ctx && InRegion(q, first, last)) ==>
      Walk(s'.mem, r, 4, q) == Walk(s.mem, r, 4, q)
  }

  ghost predicate RoleStays(s: Space, s': Space, ctx: Frame, first: nat, last: nat, f: Frame) {
    if f in s.role then
      f in s'.role && (s'.role[f] == s.role[f] || (RegionPage(s.role[f], ctx, first, last) && s'.role[f] == Held))
    else
      f in s'.role ==>
        RegionPage(s'.role[f], ctx, first, last)
          || (s'.role[f].Node? && s'.role[f].owner == Of(ctx) && s'.role[f].level > 0)
  }

  ghost predicate BytesStay(s: Space, s': Space, f: Frame) {
    f in s.mem && f in s.role && !s.IsTable(f) ==> f in s'.mem && s'.mem[f] == s.mem[f]
  }

  ghost predicate RegionPage(x: Role, ctx: Frame, first: nat, last: nat) {
    x.Node? && x.level == 0 && x.owner == Of(ctx) && IsPath(x.path) && InRegion(x.path, first, last)
  }

  lemma RegionGrows(s: Space, s': Space, s'': Space, ctx: Frame, first: nat, k: nat)
    requires first <= k && RegionStep(s, s', ctx, first, k) && RegionStep(s', s'', ctx, k, k + 1)
    ensures RegionStep(s, s'', ctx, first, k + 1)
  {
    var last := k + 1;
    forall r, q ensures WalkStays(s, s'', ctx, first, last, r, q) {
      assert WalkStays(s, s', ctx, first, k, r, q) && WalkStays(s', s'', ctx, k, k + 1, r, q)
        && RoleStays(s, s', ctx, first, k, r);
    }
    forall f ensures RoleStays(s, s'', ctx, first, last, f) {
      assert RoleStays(s, s', ctx, first, k, f) && RoleStays(s', s'', ctx, k, k + 1, f);
    }
    forall f ensures BytesStay(s, s'', f) {
      assert BytesStay(s, s', f) && BytesStay(s', s'', f) && RoleStays(s, s', ctx, first, k, f);
    }
  }

  /** Page `n` of `ctx` is open to user code with these rights and holds these bytes. */
  ghost predicate PageHolds(s: Space, ctx: Frame, n: nat, flags: Flags, bytes: seq<nat>) {
    var w := Walk(s.mem, ctx, 4, PathTo(n * P.PAGE_SIZE));
    && w.Some? && w.value.level == 1
    && var e := w.value.entry;
    && e == Entry(e.frame, true, flags.write, true, false, flags.nx)
    && e.frame in s.role && IsPageAt(s.role[e.frame], ctx, PathTo(n * P.PAGE_SIZE))
    && e.frame in s.mem && s.mem[e.frame] == Bytes(bytes)
  }

  lemma PageStays(s: Space, s': Space, ctx: Frame, n: nat, flags: Flags, bytes: seq<nat>, first: nat, last: nat)
    requires PageHolds(s, ctx, n, flags, bytes) && RegionStep(s, s', ctx, first, last) && s.IsRoot(ctx)
    requires n * P.PAGE_SIZE < USER_SPACE_END && !(first <= n < last)
    ensures PageHolds(s', ctx, n, flags, bytes)
  {
    var q := PathTo(n * P.PAGE_SIZE);
    SlotsOfPage(n * P.PAGE_SIZE);
    P.PageAddress(n);
    var f := Walk(s.mem, ctx, 4, q).value.entry.frame;
    assert WalkStays(s, s', ctx, first, last, ctx, q) && RoleStays(s, s', ctx, first, last, f) && BytesStay(s, s', f);
  }

  /** The initial bytes of page `i`: the image, then zeros. */
  function PageImage(init: Option<seq<nat>>, i: nat): (bytes: seq<nat>)
    ensures |bytes| == P.PAGE_SIZE
  {
    seq(P.PAGE_SIZE, k requires 0 <= k < P.PAGE_SIZE =>
      if init.Some? && i * P.PAGE_SIZE + k < |init.value| then init.value[i * P.PAGE_SIZE + k] else 0)
  }

  /** What user code finds at an address. */
  ghost function ByteAt(s: Space, ctx: Frame, a: nat): Option<nat> {
    var w := Walk(s.mem, ctx, 4, PathTo(a));
    if w.Some? && w.value.level == 1 && w.value.entry.frame in s.mem && s.mem[w.value.entry.frame].Bytes?
      && |s.mem[w.value.entry.frame].bytes| == P.PAGE_SIZE
    then Some(s.mem[w.value.entry.frame].bytes[a % P.PAGE_SIZE]) else None
  }

  /** Reading page after page gives the image followed by zeros. */
  lemma ReadBack(s: Space, ctx: Frame, v: nat, pages: nat, flags: Flags, init: Option<seq<nat>>, a: nat)
    requires v % P.PAGE_SIZE == 0 && v <= a < v + pages * P.PAGE_SIZE
    requires PagesHold(s, ctx, v / P.PAGE_SIZE, pages, flags, init)
    ensures ByteAt(s, ctx, a) == Some(if init.Some? && a - v < |init.value| then init.value[a - v] else 0)
  {
    PageAndOffset(v, a);
    PathOfPage(a);
    var i := a / P.PAGE_SIZE - v / P.PAGE_SIZE;
    assert i < pages;
    assert PageHolds(s, ctx, v / P.PAGE_SIZE + i, flags, PageImage(init, i));
  }

  lemma PageAndOffset(v: nat, a: nat)
    requires v % P.PAGE_SIZE == 0 && v <= a
    ensures a / P.PAGE_SIZE >= v / P.PAGE_SIZE
    ensures a - v == (a / P.PAGE_SIZE - v / P.PAGE_SIZE) * P.PAGE_SIZE + a % P.PAGE_SIZE
  {}

  /** There are no large pages in the lower half. */
  lemma {:induction false} SmallPages(s: Space, t: Frame, q: Path, o: Owner)
    requires s.Ok() && IsPath(q) && s.Follows(t, q, o) && o.Of?
    ensures var w := Walk(s.mem, t, s.Level(t), q); w.Some? ==> w.value.level == 1
    decreases s.Level(t)
  {
    var e := s.At(t, Slot(q, s.Level(t)));
    assert s.TableOk(t) && s.EntryOk(t, Slot(q, s.Level(t)));
    if s.Level(t) > 1 && e.present {
      s.StepDown(t, q, o);
      SmallPages(s, e.frame, q, o);
    }
  }

  /** A frame taken and held, as it is. */
  lemma TakenSound(s: Space, b: Book, f: Frame)
    requires Sound(s, b) && f in b.free
    ensures f !in s.role && Sound(s.(role := s.role[f := Held]), b.Take(f))
  {
    assert FrameOk(s.role, s.kernel, b, f);
    var s', b' := s.(role := s.role[f := Held]), b.Take(f);
    forall x ensures s'.TableOk(x) { assert s.TableOk(x); }
    forall x, j ensures s'.RootOk(x, j) { assert s.RootOk(x, j); }
    forall x ensures s'.NodeOk(x) { assert s.NodeOk(x); }
    forall x, j ensures s'.EntryOk(x, j) { assert s.EntryOk(x, j); }
    forall x, j ensures s'.UserOk(x, j) { assert s.UserOk(x, j) && s.NodeOk(x); }
    forall g: Frame ensures FrameOk(s'.role, s.kernel, b', g) { assert FrameOk(s.role, s.kernel, b, g); }
  }

  /** A page of the shared half can be disowned while it is still mapped. */
  lemma DisownedSound(s: Space, b: Book, f: Frame)
    requires Sound(s, b) && f in s.role && s.role[f].Node? && s.role[f].level == 0 && s.role[f].owner == Shared
    ensures Sound(s.(role := s.role[f := Held]), b)
  {
    var s' := s.(role := s.role[f := Held]);
    forall x ensures s'.TableOk(x) { assert s.TableOk(x); }
    forall x, j ensures s'.RootOk(x, j) { assert s.RootOk(x, j); }
    forall x ensures s'.NodeOk(x) { assert s.NodeOk(x); }
    forall x, j ensures s'.EntryOk(x, j) { assert s.EntryOk(x, j); }
    forall x, j ensures s'.UserOk(x, j) { assert s.UserOk(x, j) && s.NodeOk(x); }
    forall g: Frame ensures FrameOk(s'.role, s.kernel, b, g) { assert FrameOk(s.role, s.kernel, b, g); }
  }

  /** A free frame filled with bytes and held. */
  ghost function Filled(s: Space, f: Frame, bytes: seq<nat>): Space {
    Space(s.mem[f := Bytes(bytes)], s.role[f := Held], s.kernel, s.guarded)
  }

  lemma FilledSound(s: Space, b: Book, f: Frame, bytes: seq<nat>)
    requires Sound(s, b) && f in b.free
    ensures f !in s.role && Sound(Filled(s, f, bytes), b.Take(f)) && SameWalks(s, Filled(s, f, bytes))
  {
    assert FrameOk(s.role, s.kernel, b, f);
    var s', b' := Filled(s, f, bytes), b.Take(f);
    forall x ensures s'.TableOk(x) { assert s.TableOk(x); }
    forall x, j ensures s'.RootOk(x, j) { assert s.RootOk(x, j); }
    forall x ensures s'.NodeOk(x) { assert s.NodeOk(x); }
    forall x, j ensures s'.EntryOk(x, j) { assert s.EntryOk(x, j); }
    forall x, j ensures s'.UserOk(x, j) { assert s.UserOk(x, j) && s.NodeOk(x); }
    forall g: Frame ensures FrameOk(s'.role, s.kernel, b', g) { assert FrameOk(s.role, s.kernel, b, g); }
    forall q, o | IsPath(q) ensures StepsKept(s, s', q, o) {
      forall x | s.Follows(x, q, o)
        ensures s'.Readable(x) && StepKept(s, s', x, Slot(q, s.Level(x))) { assert s.TableOk(x); }
    }
    AllWalksKept(s, s');
  }

  ghost function Dropped(s: Space, f: Frame): Space { s.(role := s.role - {f}) }

  lemma DroppedSound(s: Space, b: Book, f: Frame)
    requires Sound(s, b) && f in s.role && s.role[f] == Held
    ensures 0 < f < b.limit && f !in b.free && Sound(Dropped(s, f), b.Give({f}))
  {
    assert FrameOk(s.role, s.kernel, b, f);
    var s', b' := Dropped(s, f), b.Give({f});
    forall x ensures s'.TableOk(x) { assert s.TableOk(x); }
    forall x, j ensures s'.RootOk(x, j) { assert s.RootOk(x, j); }
    forall x ensures s'.NodeOk(x) { assert s.NodeOk(x); }
    forall x, j ensures s'.EntryOk(x, j) { assert s.EntryOk(x, j); }
    forall x, j ensures s'.UserOk(x, j) { assert s.UserOk(x, j) && s.NodeOk(x); }
    forall g: Frame ensures FrameOk(s'.role, s.kernel, b', g) { assert FrameOk(s.role, s.kernel, b, g); }
  }

  /** Filling a frame and mapping it at the page of `q`: only that page changed. */
  lemma PageSettled(s: Space, s'': Space, ctx: Frame, n: nat, q: Path, f: Frame, w: Option<Hit>, bytes: seq<nat>)
    requires s.IsRoot(ctx) && f !in s.role && SameWalks(s, Filled(s, f, bytes))
    requires IsPath(q) && q.a < 256 && PageNumber(q) == n
    requires Retranslates(Filled(s, f, bytes), s'', ctx, q, w) && Settles(Filled(s, f, bytes), s'', ctx, q, Some(f))
    ensures RegionStep(s, s'', ctx, n, n + 1)
  {
    var s', last := Filled(s, f, bytes), n + 1;
    forall r, q' ensures WalkStays(s, s'', ctx, n, last, r, q') {
      if s.IsRoot(r) && IsPath(q') { assert s'.IsRoot(r) && Walk(s'.mem, r, 4, q') == Walk(s.mem, r, 4, q'); }
    }
    forall g ensures RoleStays(s, s'', ctx, n, last, g) { assert g in s'.role || g !in s''.role || g in s''.role; }
    forall g ensures BytesStay(s, s'', g) { assert g in s'.mem ==> g in s'.mem; }
  }

  /** Filling a frame, mapping it at page `n`: only that page changed, and it holds the bytes. */
  lemma PageAllocated(s: Space, s'': Space, ctx: Frame, n: nat, f: Frame, flags: Flags, bytes: seq<nat>)
    requires s.IsRoot(ctx) && f !in s.role && n * P.PAGE_SIZE < USER_SPACE_END && SameWalks(s, Filled(s, f, bytes))
    requires var q := PathTo(n * P.PAGE_SIZE);
      && Retranslates(Filled(s, f, bytes), s'', ctx, q,
        Some(Hit(1, Entry(f, true, flags.write, true, false, flags.nx))))
      && Settles(Filled(s, f, bytes), s'', ctx, q, Some(f))
    ensures RegionStep(s, s'', ctx, n, n + 1) && PageHolds(s'', ctx, n, flags, bytes)
  {
    var q, s' := PathTo(n * P.PAGE_SIZE), Filled(s, f, bytes);
    SlotsOfPage(n * P.PAGE_SIZE);
    P.PageAddress(n);
    PageSettled(s, s'', ctx, n, q, f, Some(Hit(1, Entry(f, true, flags.write, true, false, flags.nx))), bytes);
    assert f in s'.role && f in s'.mem && s'.IsRoot(ctx);
    assert f in s''.role && f in s''.mem;
  }

  /** The frame filled in vain and given back: only empty tables are left of the attempt. */
  lemma PageNotAllocated(s: Space, s'': Space, ctx: Frame, n: nat, f: Frame, bytes: seq<nat>)
    requires s.IsRoot(ctx) && f !in s.role && SameWalks(s, Filled(s, f, bytes))
      && Extends(Filled(s, f, bytes), s'', Of(ctx))
    ensures RegionStep(s, Dropped(s'', f), ctx, n, n + 1) && f in s''.role && s''.role[f] == Held
  {
    var s' := Filled(s, f, bytes);
    assert f in s'.role && f in s''.role;
    var d, last := Dropped(s'', f), n + 1;
    forall r, q ensures WalkStays(s, d, ctx, n, last, r, q) {
      if s.IsRoot(r) && IsPath(q) { assert s'.IsRoot(r) && Walk(s'.mem, r, 4, q) == Walk(s.mem, r, 4, q); }
    }
    forall g ensures RoleStays(s, d, ctx, n, last, g) { assert g in s'.role || g !in s'.role; }
    forall g ensures BytesStay(s, d, g) { assert g in s'.mem ==> g in s'.mem; }
  }

  /** A request that user allocation tries to serve. */
  ghost predicate GoodRequest(v: nat, len: nat, initLen: nat) {
    v % P.PAGE_SIZE == 0 && (len == 0 || (v < USER_SPACE_END && len <= USER_SPACE_END - v && initLen <= len))
  }

  function FirstPage(v: nat): nat { v / P.PAGE_SIZE }

  function LastPage(v: nat, len: nat): nat { (v + len + P.PAGE_SIZE - 1) / P.PAGE_SIZE }

  /** The frames that a request takes. */
  ghost function PagesNeed(s: Space, ctx: Frame, v: nat, len: nat): nat {
    if len == 0 || LastPage(v, len) < FirstPage(v) then 0
    else Need(s, ctx, FirstPage(v), LastPage(v, len) - FirstPage(v))
  }

  lemma PageCount(v: nat, len: nat)
    requires v % P.PAGE_SIZE == 0 && len > 0 && v + len <= USER_SPACE_END
    ensures FirstPage(v) + (len + P.PAGE_SIZE - 1) / P.PAGE_SIZE == LastPage(v, len)
    ensures FirstPage(v) < LastPage(v, len) && LastPage(v, len) * P.PAGE_SIZE <= USER_SPACE_END
  {}

  lemma RegionWidens(s: Space, s': Space, ctx: Frame, first: nat, last: nat, first': nat, last': nat)
    requires RegionStep(s, s', ctx, first, last) && first' <= first && last <= last'
    ensures RegionStep(s, s', ctx, first', last')
  {
    forall r, q ensures WalkStays(s, s', ctx, first', last', r, q) { assert WalkStays(s, s', ctx, first, last, r, q); }
    forall f ensures RoleStays(s, s', ctx, first', last', f) { assert RoleStays(s, s', ctx, first, last, f); }
  }

  lemma RegionSame(s: Space, ctx: Frame, first: nat, last: nat)
    ensures RegionStep(s, s, ctx, first, last)
  {}

  ghost predicate PagesHold(s: Space, ctx: Frame, first: nat, n: nat, flags: Flags, init: Option<seq<nat>>) {
    forall i: nat {:trigger PageImage(init, i)} :: i < n ==> PageHolds(s, ctx, first + i, flags, PageImage(init, i))
  }

  /** One more page: the pages before it keep their bytes. */
  lemma NextPage(s0: Space, s: Space, s': Space, ctx: Frame, first: nat, n: nat, flags: Flags, init: Option<seq<nat>>)
    requires RegionStep(s0, s, ctx, first, first + n) && RegionStep(s, s', ctx, first + n, first + n + 1)
    requires s.IsRoot(ctx) && PagesHold(s, ctx, first, n, flags, init) && (first + n) * P.PAGE_SIZE <= USER_SPACE_END
    ensures RegionStep(s0, s', ctx, first, first + n + 1) && s'.IsRoot(ctx)
    ensures PageHolds(s', ctx, first + n, flags, PageImage(init, n)) ==> PagesHold(s', ctx, first, n + 1, flags, init)
  {
    RegionGrows(s0, s, s', ctx, first, first + n);
    assert RoleStays(s, s', ctx, first + n, first + n + 1, ctx);
    forall i: nat | i < n ensures PageHolds(s', ctx, first + i, flags, PageImage(init, i)) {
      PageStays(s, s', ctx, first + i, flags, PageImage(init, i), first + n, first + n + 1);
    }
  }

  // ---------- The life of an address space ----------

  datatype Request = Request(v: nat, len: nat, flags: Flags, init: Option<seq<nat>>, initLen: nat) {
    ghost predicate Wants(q: Path) { InRegion(q, FirstPage(v), LastPage(v, len)) }

    ghost predicate Words() { v < WORD && len < WORD && (init.Some? ==> |init.value| == initLen) }
  }

  /** No two requests touch the same page. */
  ghost predicate Apart(requests: seq<Request>) {
    forall i, j, q {:trigger requests[i].Wants(q), requests[j].Wants(q)} ::
      0 <= i < j < |requests| ==> !(requests[i].Wants(q) && requests[j].Wants(q))
  }

  ghost predicate Wanted(requests: seq<Request>, n: nat, q: Path)
    requires n <= |requests|
  {
    exists i :: 0 <= i < n && requests[i].Wants(q)
  }

  lemma WantedOnce(requests: seq<Request>, n: nat, q: Path)
    requires n < |requests| && Apart(requests) && requests[n].Wants(q)
    ensures !Wanted(requests, n, q)
  {}

  /** Since `s0` only the new address space `r` has grown, by pages of the first `n` requests. */
  ghost predicate Life(s0: Space, s: Space, r: Frame, requests: seq<Request>, n: nat)
    requires n <= |requests|
  {
    && s.IsRoot(r) && s.kernel == s0.kernel && SameWalks(s0, s)
    && forall f {:trigger LifeOk(s0, s, r, requests, n, f)} :: LifeOk(s0, s, r, requests, n, f)
  }

  ghost predicate LifeOk(s0: Space, s: Space, r: Frame, requests: seq<Request>, n: nat, f: Frame)
    requires n <= |requests|
  {
    if f in s0.role then f in s.role && s.role[f] == s0.role[f]
    else f in s.role && f != r ==>
      s.role[f].Node? && s.role[f].owner == Of(r) && (s.role[f].level == 0 ==> Wanted(requests, n, s.role[f].path))
  }

  /** Nothing belongs to an address space that is not there. */
  lemma NoOrphans(s: Space, r: Frame, f: Frame)
    requires s.Ok() && r !in s.role && f in s.role && s.role[f].Node?
    ensures s.role[f].owner != Of(r)
  {
    assert s.NodeOk(f);
    var a := Ancestor(s, f, 3);
    assert s.NodeOk(a);
  }

  lemma LifeBegins(s0: Space, s: Space, r: Frame, requests: seq<Request>)
    requires Creates(s0, s, r)
    ensures Life(s0, s, r, requests, 0)
  {}

  lemma LifeGoesOn(s0: Space, s: Space, s': Space, r: Frame, requests: seq<Request>, n: nat)
    requires s0.Ok() && r !in s0.role && n < |requests| && Apart(requests) && Life(s0, s, r, requests, n)
    requires RegionStep(s, s', r, FirstPage(requests[n].v), LastPage(requests[n].v, requests[n].len))
    ensures Life(s0, s', r, requests, n + 1)
  {
    var first, last, m := FirstPage(requests[n].v), LastPage(requests[n].v, requests[n].len), n + 1;
    assert RoleStays(s, s', r, first, last, r);
    forall t, q | s0.IsRoot(t) && IsPath(q) ensures Walk(s'.mem, t, 4, q) == Walk(s0.mem, t, 4, q) {
      assert LifeOk(s0, s, r, requests, n, t) && WalkStays(s, s', r, first, last, t, q);
      assert Walk(s.mem, t, 4, q) == Walk(s0.mem, t, 4, q);
    }
    forall f ensures LifeOk(s0, s', r, requests, m, f) {
      assert LifeOk(s0, s, r, requests, n, f) && RoleStays(s, s', r, first, last, f);
      if f in s0.role && s0.role[f].Node? { NoOrphans(s0, r, f); }
      if f in s.role && s.role[f].Node?
        && requests[n].Wants(s.role[f].path) { WantedOnce(requests, n, s.role[f].path); }
      if f in s'.role && s'.role[f].Node? && s'.role[f].level == 0 && requests[n].Wants(s'.role[f].path) {
        assert Wanted(requests, m, s'.role[f].path);
      }
    }
  }

  lemma LifeEnds(s0: Space, s: Space, r: Frame, requests: seq<Request>, n: nat)
    requires s0.Ok() && r !in s0.role && n <= |requests| && Life(s0, s, r, requests, n)
    ensures Destroyed(s, r).role == s0.role
  {
    forall f ensures f in Destroyed(s, r).role <==> f in s0.role {
      assert LifeOk(s0, s, r, requests, n, f);
      if f in s0.role && s0.role[f].Node? { NoOrphans(s0, r, f); }
    }
    forall f | f in s0.role ensures s.role[f] == s0.role[f] { assert LifeOk(s0, s, r, requests, n, f); }
  }

  /** With the same frames in use, the same frames are free. */
  lemma SameFree(role: map<Frame, Role>, kernel: Frame, b: Book, b': Book)
    requires Tracked(role, kernel, b) && Tracked(role, kernel, b') && b.all == b'.all
    ensures b.free == b'.free
  {
    forall f ensures f in b.free <==>
      f in b'.free { assert FrameOk(role, kernel, b, f) && FrameOk(role, kernel, b', f); }
  }

  /** The first `n` pages of a region are mapped and filled, nothing else changed, and no table was made in vain. */
  ghost predicate Served(s0: Space, s: Space, ctx: Frame, first: nat, n: nat, flags: Flags, init: Option<seq<nat>>) {
    && s.IsRoot(ctx) && RegionStep(s0, s, ctx, first, first + n) && PagesHold(s, ctx, first, n, flags, init)
    && Built(s0, s, ctx, first, n)
    && Need(s0, ctx, first, n + 1) == Need(s0, ctx, first, n) + 1 + Missing(s.mem, ctx, 4, PagePath(first + n))
  }

  lemma ServedNext(s0: Space, s: Space, s': Space, ctx: Frame, first: nat, n: nat, flags: Flags, init: Option<seq<nat>>)
    requires Served(s0, s, ctx, first, n, flags, init) && (first + n + 1) * P.PAGE_SIZE <= USER_SPACE_END
    requires RegionStep(s, s', ctx, first + n, first + n + 1)
      && PageHolds(s', ctx, first + n, flags, PageImage(init, n))
    requires Paves(s, s', ctx, PagePath(first + n), 1)
    ensures Served(s0, s', ctx, first, n + 1, flags, init)
  {
    NextPage(s0, s, s', ctx, first, n, flags, init);
    BuiltNext(s0, s, s', ctx, first, n);
    var q := PagePath(first + n + 1);
    assert Missing(s'.mem, ctx, 4, q) == Short(s0, ctx, first, n + 1, q);
  }

  lemma RegionPartly(s0: Space, s: Space, s': Space, ctx: Frame, first: nat, k: nat, last: nat)
    requires first <= k < last && RegionStep(s0, s, ctx, first, k) && RegionStep(s, s', ctx, k, k + 1)
    ensures RegionStep(s0, s', ctx, first, last)
  {
    RegionGrows(s0, s, s', ctx, first, k);
    RegionWidens(s0, s', ctx, first, k + 1, first, last);
  }

  lemma NeedMore(s0: Space, ctx: Frame, first: nat, n: nat, pages: nat)
    requires n < pages
    ensures Need(s0, ctx, first, n + 1) <= Need(s0, ctx, first, pages)
  {
    if n + 1 < pages { NeedGrows(s0, ctx, first, n + 1, pages); }
  }

  class Vmm {
    const pmm: P.Pmm
    const kernel: Frame
    var mem: map<Frame, Content>
    ghost var role: map<Frame, Role>
    ghost const all: set<Frame>
    ghost const guarded: set<int>

    ghost function View(): Space
      reads this
    {
      Space(mem, role, kernel, guarded)
    }

    ghost predicate Valid()
      reads this, pmm, pmm.bmap
    {
      pmm.Valid() && Sound(View(), Books())
    }

    ghost function Books(): Book
      reads this, pmm, pmm.bmap
    {
      Book(pmm.free, 8 * pmm.bmap.Length, all)
    }

    /**
      Takes over from the boot loader: the kernel's own top table shares the loader's upper half, with a new table
      in every upper slot that was empty.
     */
    constructor (pmm: P.Pmm, mem: map<Frame, Content>, boot: Frame, ghost role: map<Frame, Role>,
        ghost guarded: set<int>)
      requires pmm.Valid() && BootOk(mem, role, boot, guarded) && forall f :: f in role ==> f !in pmm.free
      requires |pmm.free| > EmptySlots(mem, boot)
      modifies pmm, pmm.bmap
      ensures Valid() && this.pmm == pmm && this.guarded == guarded
      ensures all == old(pmm.free) + role.Keys - {boot}
      ensures TakesOver(mem, boot, this.mem, kernel)
      ensures |pmm.free| == |old(pmm.free)| - 1 - EmptySlots(mem, boot)
      ensures BlankBelow(View(), mem, boot)
    {
      P.Bounded(pmm.bmap[..], pmm.free);
      var phys := pmm.Alloc();
      var k := phys / P.PAGE_SIZE;
      assert Space(mem, role, boot, guarded).TableOk(boot);
      var c := CopyUpperHalf(mem, boot);
      BootStart(mem, role, boot, guarded, old(pmm.free), 8 * pmm.bmap.Length, k, c);
      ghost var moved := Moved(role, boot, k);
      this.pmm, kernel, all, this.guarded := pmm, k, old(pmm.free) + role.Keys - {boot}, guarded;
      this.mem, this.role := mem[k := c], moved;
      new;
      ghost var s := View();
      Populate(mem[boot].entries);
      assert TakesOver(mem, boot, this.mem, k) by { assert SameFrom(s, View(), k); }
      AllBlankBelow(View(), mem, boot);
    }

    static method CopyUpperHalf(mem: map<Frame, Content>, from: Frame) returns (c: Content)
      requires from in mem && mem[from].Table? && |mem[from].entries| == 512
      ensures c.Table? && |c.entries| == 512
      ensures forall i | 0 <= i < 512 :: c.entries[i] == if i < 256 then ABSENT else mem[from].entries[i]
    {
      c := BlankTable();
      for i := 256 to 512
        invariant c.Table? && |c.entries| == 512
        invariant forall j | 0 <= j < 512 :: c.entries[j] == if j < 256 || j >= i then ABSENT else mem[from].entries[j]
      {
        c := Table(c.entries[i := mem[from].entries[i]]);
      }
    }

    method Populate(ghost was: seq<Entry>)
      requires pmm.Valid() && Starting(View(), Books(), 256)
      requires |was| == 512 && SettledUpTo(View(), was, 256) && |pmm.free| >= Empty(was, 256)
      modifies `mem, `role, pmm, pmm.bmap
      ensures Valid() && SameFrom(old(View()), View(), kernel)
      ensures SettledUpTo(View(), was, 512) && |pmm.free| == |old(pmm.free)| - Empty(was, 256)
    {
      ghost var s0 := View();
      for i := 256 to 512
        invariant pmm.Valid() && Starting(View(), Books(), i) && SettledUpTo(View(), was, i)
        invariant |pmm.free| - Empty(was, i) == |old(pmm.free)| - Empty(was, 256)
        invariant SameFrom(s0, View(), kernel)
      {
        PopulateSlot(i, was);
      }
      Started(View(), Books());
    }

    method PopulateSlot(i: int, ghost was: seq<Entry>)
      requires pmm.Valid() && Starting(View(), Books(), i) && 256 <= i < 512
      requires |was| == 512 && SettledUpTo(View(), was, i) && (!was[i].present ==> pmm.free != {})
      modifies `mem, `role, pmm, pmm.bmap
      ensures pmm.Valid() && Starting(View(), Books(), i + 1) && SettledUpTo(View(), was, i + 1)
      ensures |pmm.free| == |old(pmm.free)| - (if was[i].present then 0 else 1)
      ensures SameFrom(old(View()), View(), kernel)
    {
      ghost var s, b := View(), Books();
      assert s.TableOk(kernel) && SlotSettled(s, was, i, i);
      if mem[kernel].entries[i].present {
        SkippedSlot(s, was, i);
        return;
      }
      var phys := pmm.Alloc();
      var f := phys / P.PAGE_SIZE;
      GrownTracked(s, b, kernel, i, f, false);
      GrownStarting(s, b, i, f);
      GrownSettled(s, b, was, i, f);
      GrownWalks(s, kernel, i, f, false);
      mem := mem[f := BlankTable()];
      mem := Written(mem, kernel, i, Entry(f, true, true, false, false, false));
      role := role[f := Node(Shared, 3, Child(TOP, 4, i), kernel)];
      assert View() == Grown(s, kernel, i, f, false);
    }

    /** The table behind an entry, made if it is not there yet; none when there is no frame for it. */
    method GetOrAllocTable(t: Frame, i: int, user: bool) returns (next: Option<Frame>)
      requires Valid() && View().IsTable(t) && View().Level(t) > 1 && IsSlot(i)
      requires View().At(t, i).present ==> !View().At(t, i).huge
      requires user ==> View().OwnerAt(t, i).Of? && UserAbove(View(), t)
      modifies `mem, `role, pmm, pmm.bmap
      ensures Valid() && Extends(old(View()), View(), old(View().OwnerAt(t, i)))
      ensures next.None? <==> old(pmm.free) == {} && !old(View()).At(t, i).present
      ensures next.None? ==> pmm.free == {}
      ensures old(View()).At(t, i).present ==>
        pmm.free == old(pmm.free)
          && (View() == old(View()) || (old(View()).Readable(t) && View() == Opened(old(View()), t, i)))
      ensures !old(View()).At(t, i).present && next.Some? ==>
        && |pmm.free| == |old(pmm.free)| - 1
        && old(View()).Readable(t) && next.value != t && next.value !in old(role)
          && View() == Grown(old(View()), t, i, next.value, user)
      ensures next.Some? ==>
        var e := View().At(t, i); e.present && !e.huge && e.frame == next.value && (user ==> e.user)
    {
      ghost var s, b := View(), Books();
      ghost var o := s.OwnerAt(t, i);
      assert s.TableOk(t) && s.EntryOk(t, i);
      var e := mem[t].entries[i];
      if e.present {
        if user && !e.user {
          OpenedExtends(s, t, i, o);
          mem := Written(mem, t, i, e.(user := true));
          assert View() == Opened(s, t, i);
        }
        return Some(e.frame);
      }
      var phys := pmm.Alloc();
      if phys == 0 {
        return None;
      }
      var f := phys / P.PAGE_SIZE;
      GrownTracked(s, b, t, i, f, user);
      GrownExtends(s, t, i, f, user);
      mem := mem[f := BlankTable()];
      mem := Written(mem, t, i, Entry(f, true, true, user, false, false));
      role := role[f := Node(o, s.Level(t) - 1, Child(s.PathOf(t), s.Level(t), i), t)];
      assert View() == Grown(s, t, i, f, user);
      return Some(f);
    }

    /** One level down on the way to a page. */
    method Descend(ctx: Frame, ghost q: Path, t: Frame, i: int, user: bool) returns (next: Option<Frame>)
      requires Valid() && IsPath(q) && OnTheWay(View(), ctx, q, t) && View().Level(t) > 1 && NoLargePage(View(), ctx, q)
      requires i == Slot(q, View().Level(t)) && (user ==> q.a < 256 && UserAbove(View(), t))
      modifies `mem, `role, pmm, pmm.bmap
      ensures Valid() && Extends(old(View()), View(), Half(ctx, q.a))
      ensures next.None? ==> pmm.free == {} && |old(pmm.free)| < Missing(old(mem), t, old(View()).Level(t), q)
      ensures next.Some? ==>
        |pmm.free| - Missing(mem, next.value, View().Level(next.value), q) ==
        |old(pmm.free)| - Missing(old(mem), t, old(View()).Level(t), q)
      ensures next.Some? ==>
        && OnTheWay(View(), ctx, q, next.value) && View().Level(next.value) == old(View()).Level(t) - 1
        && NoLargePage(View(), ctx, q) && (user ==> UserAbove(View(), next.value))
      ensures next.Some? ==> Paves(old(View()), View(), ctx, q, old(View()).Level(t) - 1)
    {
      ghost var s := View();
      MayDescend(s, ctx, q, t);
      next := GetOrAllocTable(t, i, user);
      StillOnTheWay(s, View(), ctx, q, t, Half(ctx, q.a));
      if next.Some? {
        Descended(View(), ctx, q, t, user);
        if s.At(t, i).present { MissingBelow(s, View(), ctx, q, t); }
        DescentPaves(s, View(), ctx, q, t, next.value, user);
      }
    }

    /** Two levels down on the way to a page. */
    method MakeHalfWay(ctx: Frame, q: Path, user: bool) returns (pd: Option<Frame>)
      requires Valid() && View().IsRoot(ctx) && IsPath(q) && NoLargePage(View(), ctx, q) && (user ==> q.a < 256)
      modifies `mem, `role, pmm, pmm.bmap
      ensures Valid() && Extends(old(View()), View(), Half(ctx, q.a))
      ensures pd.None? ==> pmm.free == {} && |old(pmm.free)| < Missing(old(mem), ctx, 4, q)
      ensures pd.Some? ==>
        && |pmm.free| - Missing(mem, pd.value, 2, q) == |old(pmm.free)| - Missing(old(mem), ctx, 4, q)
        && OnTheWay(View(), ctx, q, pd.value) && View().Level(pd.value) == 2
        && NoLargePage(View(), ctx, q) && (user ==> UserAbove(View(), pd.value))
        && Paves(old(View()), View(), ctx, q, 2)
    {
      ghost var s := View();
      var pdpt := Descend(ctx, q, ctx, q.a, user);
      if pdpt.None? { return None; }
      ghost var s1 := View();
      pd := Descend(ctx, q, pdpt.value, q.b, user);
      ExtendsTwice(s, s1, View(), Half(ctx, q.a));
      if pd.Some? { PavesOn(s, s1, View(), ctx, q, 3, 2); }
    }

    /** The lowest table on the way to a page, with the tables above it. */
    method MakeWay(ctx: Frame, q: Path, user: bool) returns (pt: Option<Frame>)
      requires Valid() && View().IsRoot(ctx) && IsPath(q) && NoLargePage(View(), ctx, q) && (user ==> q.a < 256)
      modifies `mem, `role, pmm, pmm.bmap
      ensures Valid() && Extends(old(View()), View(), Half(ctx, q.a))
      ensures pt.Some? <==> |old(pmm.free)| >= Missing(old(mem), ctx, 4, q)
      ensures pt.None? ==> pmm.free == {}
      ensures pt.Some? ==> |pmm.free| == |old(pmm.free)| - Missing(old(mem), ctx, 4, q)
      ensures pt.Some? ==>
        && OnTheWay(View(), ctx, q, pt.value) && View().Level(pt.value) == 1 && (user ==> UserAbove(View(), pt.value))
        && Paves(old(View()), View(), ctx, q, 1)
    {
      ghost var s := View();
      var pd := MakeHalfWay(ctx, q, user);
      if pd.None? { return None; }
      ghost var s2 := View();
      pt := Descend(ctx, q, pd.value, q.c, user);
      ExtendsTwice(s, s2, View(), Half(ctx, q.a));
      if pt.Some? { PavesOn(s, s2, View(), ctx, q, 2, 1); }
    }

    /** Writes the entry for a page in the lowest table. */
    method WriteLeaf(ctx: Frame, q: Path, pt: Frame, e: Entry)
      requires Valid() && IsPath(q) && OnTheWay(View(), ctx, q, pt) && View().Level(pt) == 1
      requires e.present ==> Claim(View(), ctx, q, e.frame) && (e.user ==> UserAbove(View(), pt))
      modifies `mem, `role
      ensures Valid()
      ensures Retranslates(old(View()), View(), ctx, q, if e.present then Some(Hit(1, e)) else None)
      ensures Settles(old(View()), View(), ctx, q, if e.present then Some(e.frame) else None)
      ensures SameMissing(old(View()), View(), ctx)
    {
      ghost var s := View();
      assert s.TableOk(pt);
      ClaimMappable(s, ctx, q, pt, e);
      LeafedOk(s, pt, q.d, e);
      LeafedTracked(s, Books(), pt, q.d, e);
      LeafedRetranslates(s, ctx, q, pt, e);
      LeafedSettles(s, ctx, q, pt, e);
      LeafedMissing(s, pt, q.d, e, ctx);
      mem := Written(mem, pt, q.d, e);
      role := Placed(s, pt, q.d, e);
      assert View() == Leafed(s, pt, q.d, e);
    }

    /**
      Maps a page. It fails for a user page outside the lower half, or when there is no frame left for a table; then
      every translation is as before.
     */
    method MapPage(ctx: Frame, v: nat, frame: Frame, flags: Flags) returns (ok: bool)
      requires Valid() && View().IsRoot(ctx) && NoLargePage(View(), ctx, PathTo(v))
        && Claim(View(), ctx, PathTo(v), frame)
      modifies `mem, `role, pmm, pmm.bmap
      ensures Valid()
      ensures !ok ==> Extends(old(View()), View(), Half(ctx, PathTo(v).a))
      ensures ok <==> !(flags.user && v >= USER_SPACE_END) && |old(pmm.free)| >= Missing(old(mem), ctx, 4, PathTo(v))
      ensures ok ==> |pmm.free| == |old(pmm.free)| - Missing(old(mem), ctx, 4, PathTo(v))
      ensures !ok ==> (flags.user && v >= USER_SPACE_END) || pmm.free == {}
      ensures flags.user && v >= USER_SPACE_END ==> !ok && View() == old(View()) && pmm.free == old(pmm.free)
      ensures ok ==> Retranslates(old(View()), View(), ctx, PathTo(v),
                                  Some(Hit(1, Entry(frame, true, flags.write, flags.user, false, flags.nx))))
      ensures ok ==> Settles(old(View()), View(), ctx, PathTo(v), Some(frame))
      ensures ok ==> Paves(old(View()), View(), ctx, PathTo(v), 1)
    {
      if flags.user && v >= USER_SPACE_END { return false; }
      var q := PathTo(v);
      ghost var s, o := View(), Half(ctx, q.a);
      if flags.user { SlotsOfPage(v); }
      var pt := MakeWay(ctx, q, flags.user);
      if pt.None? { return false; }
      ghost var s' := View();
      ThenClaim(s, s', o, ctx, q, frame);
      var e := Entry(frame, true, flags.write, flags.user, false, flags.nx);
      WriteLeaf(ctx, q, pt.value, e);
      ThenRetranslates(s, s', View(), o, ctx, q, Some(Hit(1, e)));
      ThenSettles(s, s', View(), ctx, q, Some(frame));
      PavesThenStays(s, s', View(), ctx, q, 1);
      return true;
    }

    /** The physical address behind a virtual one, 0 if there is none. */
    method GetPhys(ctx: Frame, v: nat) returns (phys: nat)
      requires Valid() && View().IsRoot(ctx)
      ensures var w := Walk(mem, ctx, 4, PathTo(v)); phys == if w.None? then 0 else Physical(w.value, v)
    {
      var q := PathTo(v);
      ghost var s, o := View(), Half(ctx, q.a);
      assert s.Follows(ctx, q, o) && s.TableOk(ctx) && s.EntryOk(ctx, q.a);
      var e := mem[ctx].entries[q.a];
      if !e.present { return 0; }
      s.StepDown(ctx, q, o);
      assert s.TableOk(e.frame) && s.EntryOk(e.frame, q.b);
      var pdpt := e.frame;
      e := mem[pdpt].entries[q.b];
      if !e.present { return 0; }
      if e.huge { return e.frame * 0x1000 + v % 0x4000_0000; }
      s.StepDown(pdpt, q, o);
      assert s.TableOk(e.frame) && s.EntryOk(e.frame, q.c);
      var pd := e.frame;
      e := mem[pd].entries[q.c];
      if !e.present { return 0; }
      if e.huge { return e.frame * 0x1000 + v % 0x20_0000; }
      s.StepDown(pd, q, o);
      assert s.TableOk(e.frame);
      e := mem[e.frame].entries[q.d];
      if !e.present { return 0; }
      return e.frame * 0x1000 + v % 0x1000;
    }

    /** Unmaps a page; its frame is then nobody's. */
    method UnmapPage(ctx: Frame, v: nat)
      requires Valid() && View().IsRoot(ctx) && NoLargePage(View(), ctx, PathTo(v))
      modifies `mem, `role
      ensures Valid()
      ensures Retranslates(old(View()), View(), ctx, PathTo(v), None)
      ensures Settles(old(View()), View(), ctx, PathTo(v), None)
    {
      var q := PathTo(v);
      ghost var s, o := View(), Half(ctx, q.a);
      var pt := FindWay(ctx, q);
      if pt.None? {
        NothingThere(s, ctx, q);
        return;
      }
      assert s.TableOk(pt.value);
      if !mem[pt.value].entries[q.d].present {
        ComesBy(s, pt.value, ctx, q);
        NothingThere(s, ctx, q);
        return;
      }
      WriteLeaf(ctx, q, pt.value, ABSENT);
    }

    /** The lowest table on the way to a page, if the page has one. */
    method FindWay(ctx: Frame, q: Path) returns (pt: Option<Frame>)
      requires Valid() && View().IsRoot(ctx) && IsPath(q) && NoLargePage(View(), ctx, q)
      ensures pt.None? ==> Walk(mem, ctx, 4, q) == None
      ensures pt.Some? ==> OnTheWay(View(), ctx, q, pt.value) && View().Level(pt.value) == 1
    {
      ghost var s := View();
      MayDescend(s, ctx, q, ctx);
      var e := mem[ctx].entries[q.a];
      if !e.present { return None; }
      Descended(s, ctx, q, ctx, false);
      MayDescend(s, ctx, q, e.frame);
      var pdpt := e.frame;
      e := mem[pdpt].entries[q.b];
      if !e.present { return None; }
      Descended(s, ctx, q, pdpt, false);
      MayDescend(s, ctx, q, e.frame);
      var pd := e.frame;
      e := mem[pd].entries[q.c];
      if !e.present { return None; }
      Descended(s, ctx, q, pd, false);
      return Some(e.frame);
    }

    /** Whether user code may reach the page of `v`, and whether it may write there, looking at every level. */
    method WalkUser(ctx: Frame, v: nat) returns (ok: bool, writable: bool)
      requires Valid() && View().IsRoot(ctx) && v < USER_SPACE_END
      ensures ok <==> Accessible(View(), ctx, v, false)
      ensures ok ==> (writable <==> Accessible(View(), ctx, v, true))
    {
      var q := PathTo(v);
      SlotsOfPage(v);
      ghost var s, o := View(), Half(ctx, q.a);
      var t, w := ctx, true;
      assert s.Follows(ctx, q, o);
      var level := 4;
      while true
        invariant 1 <= level <= 4 && w && s.Follows(t, q, o) && s.Level(t) == level
        invariant Walk(mem, t, level, q) == Walk(mem, ctx, 4, q)
        decreases level
      {
        assert s.TableOk(t) && s.EntryOk(t, Slot(q, level));
        var e := mem[t].entries[Slot(q, level)];
        if !e.present || !e.user {
          if Accessible(s, ctx, v, false) { UserAllTheWay(s, q, t, o); }
          return false, false;
        }
        if !e.write { w := false; }
        if level == 1 { return true, w; }
        if e.huge { return false, false; }
        s.StepDown(t, q, o);
        t, level := e.frame, level - 1;
      }
    }

    /** Whether user code may read, or write, every byte of a range. */
    method UserRangeOk(ctx: Option<Frame>, v: nat, len: nat, needWrite: bool) returns (ok: bool)
      requires Valid() && (ctx.Some? ==> View().IsRoot(ctx.value)) && v < WORD && len < WORD
      ensures ok <==>
        && ctx.Some?
        && (len == 0 || v + len <= USER_SPACE_END)
        && RangeAccessible(View(), ctx.value, v, len, needWrite)
    {
      if ctx.None? { return false; }
      if len == 0 { return true; }
      if v >= USER_SPACE_END || len > USER_SPACE_END - v { return false; }
      PageSpan(v, len);
      var first, end := v / P.PAGE_SIZE, (v + len + P.PAGE_SIZE - 1) / P.PAGE_SIZE;
      var n := FirstBarred(ctx.value, first, end, needWrite);
      if n < end {
        PageMissing(View(), ctx.value, v, len, needWrite, n);
        return false;
      }
      PagesCover(View(), ctx.value, v, len, needWrite, end);
      return true;
    }

    /** The first page of a run that user code may not read, or write. */
    method FirstBarred(ctx: Frame, first: nat, end: nat, needWrite: bool) returns (n: nat)
      requires Valid() && View().IsRoot(ctx) && first <= end && end * P.PAGE_SIZE <= USER_SPACE_END
      ensures first <= n <= end && (n < end ==> !PageAccessible(View(), ctx, n, needWrite))
      ensures forall m: nat | first <= m < n :: PageAccessible(View(), ctx, m, needWrite)
    {
      ghost var s := View();
      n := first;
      while n < end
        invariant first <= n <= end && forall m: nat | first <= m < n :: PageAccessible(s, ctx, m, needWrite)
      {
        var reachable, writable := WalkUser(ctx, n * P.PAGE_SIZE);
        if !reachable || (needWrite && !writable) { return; }
        assert PageAccessible(s, ctx, n, needWrite);
        n := n + 1;
      }
    }

    /** A new address space, unless there is no memory for its record or no frame for its top table. */
    method CreateContext(hasMemory: bool) returns (ctx: Option<Frame>)
      requires Valid()
      modifies `mem, `role, pmm, pmm.bmap
      ensures Valid()
      ensures ctx.None? <==> !hasMemory || old(pmm.free) == {}
      ensures ctx.None? ==> View() == old(View()) && pmm.free == old(pmm.free)
      ensures ctx.Some? ==> Creates(old(View()), View(), ctx.value)
    {
      if !hasMemory { return None; }
      ghost var s, b := View(), Books();
      var phys := pmm.Alloc();
      if phys == 0 { return None; }
      var f := phys / P.PAGE_SIZE;
      assert s.TableOk(kernel);
      var c := CopyUpperHalf(mem, kernel);
      CreatedSound(s, b, f, c);
      mem := mem[f := c];
      role := role[f := Root];
      assert View() == Created(s, f, c);
      return Some(f);
    }

    /** Gives back a frame that is in use. */
    method GiveBack(f: Frame)
      requires pmm.Valid() && f !in pmm.free && 0 < f < 8 * pmm.bmap.Length
      modifies pmm, pmm.bmap
      ensures pmm.Valid() && pmm.free == old(pmm.free) + {f}
    {
      P.PageAddress(f);
      pmm.FreeFrame(f * P.PAGE_SIZE);
    }

    /** Gives back a table and everything below it, each frame once. */
    method FreeTable(ghost s: Space, t: Frame, level: nat)
      requires pmm.Valid() && s.mem == mem && s.Ok()
      requires s.IsTable(t) && s.role[t].Node? && s.role[t].owner.Of? && s.role[t].level == level
      requires Returnable(Below(s, s.role[t].owner, level, s.role[t].path), pmm.free, 8 * pmm.bmap.Length)
      modifies pmm, pmm.bmap
      ensures pmm.Valid() && pmm.free == old(pmm.free) + Below(s, s.role[t].owner, level, s.role[t].path)
      decreases level, 2
    {
      BelowTable(s, t);
      FreeSlots(s, t, s.role[t].owner, level, 512);
      GiveBack(t);
    }

    /** Gives back what hangs behind the slots of a table. */
    method FreeSlots(ghost s: Space, t: Frame, ghost o: Owner, level: nat, n: nat)
      requires pmm.Valid() && s.mem == mem && s.Ok()
      requires Heads(s, t, o) && o.Of? && s.Level(t) == level && n == (if s.role[t].Root? then 256 else 512)
      requires Returnable(Behind(s, o, level, s.PathOf(t), n), pmm.free, 8 * pmm.bmap.Length)
      modifies pmm, pmm.bmap
      ensures pmm.Valid() && pmm.free == old(pmm.free) + Behind(s, o, level, s.PathOf(t), n)
      decreases level, 1
    {
      ghost var free, limit := pmm.free, 8 * pmm.bmap.Length;
      BehindNone(s, o, level, s.PathOf(t));
      for i := 0 to n
        invariant pmm.Valid() && pmm.free == free + Behind(s, o, level, s.PathOf(t), i)
      {
        NextSlot(s, t, o, i, n, free, limit);
        FreeSlot(s, t, level, i);
      }
    }

    /** Gives back what hangs behind one slot of a table. */
    method FreeSlot(ghost s: Space, t: Frame, level: nat, i: nat)
      requires pmm.Valid() && s.mem == mem && s.Ok() && s.IsTable(t) && s.Level(t) == level
      requires i < (if s.role[t].Root? then 256 else 512) && (s.role[t].Node? ==> s.role[t].owner.Of?)
      requires Returnable(Inner(s, t, i), pmm.free, 8 * pmm.bmap.Length)
      modifies pmm, pmm.bmap
      ensures pmm.Valid() && pmm.free == old(pmm.free) + Inner(s, t, i)
      decreases level, 0
    {
      SlotFacts(s, t, i);
      var e := mem[t].entries[i];
      if e.present {
        if level == 1 {
          GiveBack(e.frame);
        } else if !e.huge {
          FreeTable(s, e.frame, level - 1);
        }
      }
    }

    /** Takes an address space down: its top table, its tables and its pages become free, and nothing else changes. */
    method DestroyContext(ctx: Option<Frame>)
      requires Valid() && (ctx.Some? ==> View().IsRoot(ctx.value))
      modifies `role, pmm, pmm.bmap
      ensures Valid()
      ensures ctx.None? || ctx.value == kernel ==> View() == old(View()) && pmm.free == old(pmm.free)
      ensures ctx.Some? && ctx.value != kernel ==>
        && View() == Destroyed(old(View()), ctx.value)
        && pmm.free == old(pmm.free) + OwnedBy(old(View()), ctx.value)
    {
      if ctx.None? || ctx.value == kernel { return; }
      ghost var s, b := View(), Books();
      DestroyedSound(s, b, ctx.value);
      FreeSpace(s, ctx.value);
      role := role - OwnedBy(s, ctx.value);
      assert View() == Destroyed(s, ctx.value);
    }

    /** Gives back all frames of an address space. */
    method FreeSpace(ghost s: Space, r: Frame)
      requires pmm.Valid() && s.mem == mem && Sound(s, Books()) && s.IsRoot(r) && r != s.kernel
      modifies pmm, pmm.bmap
      ensures pmm.Valid() && pmm.free == old(pmm.free) + OwnedBy(s, r)
    {
      OwnedReturnable(s, Books(), r);
      FreeSlots(s, r, Of(r), 4, 256);
      GiveBack(r);
    }

    /** The bytes for page `i` of a user region: zeroed, then overwritten by what is left of the image. */
    static method FillPage(init: Option<seq<nat>>, i: nat) returns (bytes: seq<nat>)
      ensures bytes == PageImage(init, i)
    {
      bytes := seq(P.PAGE_SIZE, _ => 0);
      var off := i * P.PAGE_SIZE;
      if init.Some? && off < |init.value| {
        var n := |init.value| - off;
        if n > P.PAGE_SIZE { n := P.PAGE_SIZE; }
        bytes := init.value[off..off + n] + bytes[n..];
      }
    }

    /** Takes a frame and fills it. */
    method TakeFilled(bytes: seq<nat>) returns (f: Option<Frame>)
      requires Valid()
      modifies `mem, `role, pmm, pmm.bmap
      ensures Valid()
      ensures f.None? ==> View() == old(View()) && pmm.free == {} && old(pmm.free) == {}
      ensures f.Some? ==>
        && f.value in old(pmm.free) && f.value !in old(role) && pmm.free == old(pmm.free) - {f.value}
        && View() == Filled(old(View()), f.value, bytes) && SameWalks(old(View()), View())
    {
      ghost var s, b := View(), Books();
      var phys := pmm.Alloc();
      if phys == 0 { return None; }
      var n := phys / P.PAGE_SIZE;
      FilledSound(s, b, n, bytes);
      mem := mem[n := Bytes(bytes)];
      role := role[n := Held];
      assert View() == Filled(s, n, bytes);
      return Some(n);
    }

    /** Takes a frame as it is. */
    method Take() returns (f: Option<Frame>)
      requires Valid()
      modifies `role, pmm, pmm.bmap
      ensures Valid()
      ensures f.None? <==> old(pmm.free) == {}
      ensures f.None? ==> View() == old(View()) && pmm.free == {}
      ensures f.Some? ==> f.value in old(pmm.free) && f.value !in old(role) && role == old(role)[f.value := Held]
      ensures f.Some? ==> pmm.free == old(pmm.free) - {f.value}
    {
      ghost var s, b := View(), Books();
      var phys := pmm.Alloc();
      if phys == 0 { return None; }
      TakenSound(s, b, phys / P.PAGE_SIZE);
      role := role[phys / P.PAGE_SIZE := Held];
      assert View() == s.(role := role);
      return Some(phys / P.PAGE_SIZE);
    }

    /** Whoever mapped a page of the shared half takes its frame back, before unmapping it. */
    ghost method Disown(f: Frame)
      requires Valid() && f in role && role[f].Node? && role[f].level == 0 && role[f].owner == Shared
      modifies `role
      ensures Valid() && role == old(role)[f := Held]
    {
      ghost var s := View();
      DisownedSound(s, Books(), f);
      role := role[f := Held];
      assert View() == s.(role := role);
    }

    /** Gives back a frame that is held. */
    method Drop(f: Frame)
      requires Valid() && f in role && role[f] == Held
      modifies `role, pmm, pmm.bmap
      ensures Valid()
      ensures View() == Dropped(old(View()), f) && pmm.free == old(pmm.free) + {f}
    {
      ghost var s := View();
      DroppedSound(s, Books(), f);
      GiveBack(f);
      role := role - {f};
      assert View() == Dropped(s, f);
    }

    /** Maps a new frame with the given bytes at page `n`, for user code. */
    method AllocPage(ctx: Frame, n: nat, bytes: seq<nat>, flags: Flags) returns (ok: bool)
      requires Valid() && View().IsRoot(ctx) && n * P.PAGE_SIZE < USER_SPACE_END && |bytes| == P.PAGE_SIZE
      modifies `mem, `role, pmm, pmm.bmap
      ensures Valid()
      ensures RegionStep(old(View()), View(), ctx, n, n + 1)
      ensures ok ==> PageHolds(View(), ctx, n, flags, bytes)
      ensures ok <==> |old(pmm.free)| > Missing(old(mem), ctx, 4, PagePath(n))
      ensures ok ==> |pmm.free| == |old(pmm.free)| - 1 - Missing(old(mem), ctx, 4, PagePath(n))
      ensures ok ==> Paves(old(View()), View(), ctx, PagePath(n), 1)
      ensures !ok ==> |pmm.free| <= 1
    {
      ghost var s := View();
      var f := TakeFilled(bytes);
      if f.None? {
        RegionSame(s, ctx, n, n + 1);
        return false;
      }
      var v := n * P.PAGE_SIZE;
      SlotsOfPage(v);
      ghost var filled := View();
      SmallPages(filled, ctx, PathTo(v), Of(ctx));
      FilledMissing(s, f.value, bytes, ctx);
      assert Missing(filled.mem, ctx, 4, PathTo(v)) == Missing(s.mem, ctx, 4, PathTo(v));
      ok := MapPage(ctx, v, f.value, flags.(user := true));
      if ok {
        PageAllocated(s, View(), ctx, n, f.value, flags, bytes);
        StaysThenPaves(s, filled, View(), ctx, PathTo(v), 1);
      } else {
        PageNotAllocated(s, View(), ctx, n, f.value, bytes);
        Drop(f.value);
      }
    }

    /** Page after page of a user region. */
    method AllocPages(ctx: Frame, first: nat, pages: nat, flags: Flags, init: Option<seq<nat>>) returns (ok: bool)
      requires Valid() && View().IsRoot(ctx) && (first + pages) * P.PAGE_SIZE <= USER_SPACE_END
      modifies `mem, `role, pmm, pmm.bmap
      ensures Valid() && RegionStep(old(View()), View(), ctx, first, first + pages)
      ensures ok <==> |old(pmm.free)| >= Need(old(View()), ctx, first, pages)
      ensures ok ==> |pmm.free| == |old(pmm.free)| - Need(old(View()), ctx, first, pages)
      ensures !ok ==> |pmm.free| <= 1
      ensures ok ==> PagesHold(View(), ctx, first, pages, flags, init)
    {
      ghost var s0 := View();
      RegionSame(s0, ctx, first, first);
      for i := 0 to pages
        invariant Valid() && Served(s0, View(), ctx, first, i, flags, init)
        invariant |pmm.free| == |old(pmm.free)| - Need(s0, ctx, first, i)
      {
        ok := ServePage(s0, ctx, first, i, pages, flags, init);
        if !ok {
          NeedMore(s0, ctx, first, i, pages);
          return;
        }
      }
      ok := true;
    }

    /** The next page of a region. */
    method ServePage(ghost s0: Space, ctx: Frame, first: nat, i: nat, pages: nat, flags: Flags,
        init: Option<seq<nat>>) returns (ok: bool)
      requires Valid() && i < pages && (first + pages) * P.PAGE_SIZE <= USER_SPACE_END
      requires Served(s0, View(), ctx, first, i, flags, init)
      modifies `mem, `role, pmm, pmm.bmap
      ensures Valid()
      ensures ok <==> |old(pmm.free)| + Need(s0, ctx, first, i) >= Need(s0, ctx, first, i + 1)
      ensures ok ==> Served(s0, View(), ctx, first, i + 1, flags, init)
      ensures ok ==> |pmm.free| + Need(s0, ctx, first, i + 1) == |old(pmm.free)| + Need(s0, ctx, first, i)
      ensures !ok ==> |pmm.free| <= 1 && RegionStep(s0, View(), ctx, first, first + pages)
    {
      ghost var s := View();
      var bytes := FillPage(init, i);
      ok := AllocPage(ctx, first + i, bytes, flags);
      if ok {
        ServedNext(s0, s, View(), ctx, first, i, flags, init);
      } else {
        RegionPartly(s0, s, View(), ctx, first, first + i, first + pages);
      }
    }

    /**
      Memory for user code: zeroed frames with an image at the start. A bad request changes nothing; without
      enough frames the pages mapped so far stay.
     */
    method UserAlloc(ctx: Frame, v: nat, len: nat, flags: Flags, init: Option<seq<nat>>, initLen: nat)
        returns (ok: bool)
      requires Valid() && View().IsRoot(ctx) && v < WORD && len < WORD && (init.Some? ==> |init.value| == initLen)
      modifies `mem, `role, pmm, pmm.bmap
      ensures Valid()
      ensures RegionStep(old(View()), View(), ctx, FirstPage(v), LastPage(v, len))
      ensures ok <==> GoodRequest(v, len, initLen) && |old(pmm.free)| >= PagesNeed(old(View()), ctx, v, len)
      ensures ok ==> |pmm.free| == |old(pmm.free)| - PagesNeed(old(View()), ctx, v, len)
      ensures !ok ==> !GoodRequest(v, len, initLen) || |pmm.free| <= 1
      ensures !GoodRequest(v, len, initLen) || len == 0 ==> View() == old(View()) && pmm.free == old(pmm.free)
      ensures ok && len > 0 ==> PagesHold(View(), ctx, FirstPage(v), LastPage(v, len) - FirstPage(v), flags, init)
    {
      RegionSame(View(), ctx, FirstPage(v), LastPage(v, len));
      if v % P.PAGE_SIZE != 0 { return false; }
      if len == 0 { return true; }
      if v >= USER_SPACE_END || len > USER_SPACE_END - v { return false; }
      if initLen > len { return false; }
      var pages := (len + P.PAGE_SIZE - 1) / P.PAGE_SIZE;
      PageCount(v, len);
      ok := AllocPages(ctx, FirstPage(v), pages, flags, init);
    }

    /**
      The life of an address space: it is created, asked for memory any number of times, each time with or without
      success, and destroyed. The bitmap is then as it was, and so is every translation of everybody else.
     */
    method Lifetime(hasMemory: bool, requests: seq<Request>)
      requires Valid() && Apart(requests) && forall i | 0 <= i < |requests| :: requests[i].Words()
      modifies `mem, `role, pmm, pmm.bmap
      ensures Valid() && role == old(role) && pmm.free == old(pmm.free) && SameWalks(old(View()), View())
    {
      ghost var s0, b0, s := View(), Books(), View();
      var ctx := CreateContext(hasMemory);
      if ctx.None? { return; }
      var r := ctx.value;
      s := View();
      LifeBegins(s0, s, r, requests);
      for i := 0 to |requests|
        invariant Valid() && s == View() && Life(s0, s, r, requests, i)
      {
        var x := requests[i];
        var served := UserAlloc(r, x.v, x.len, x.flags, x.init, x.initLen);
        LifeGoesOn(s0, s, View(), r, requests, i);
        s := View();
      }
      LifeEnds(s0, s, r, requests, |requests|);
      DestroyContext(ctx);
      SameFree(role, kernel, b0, Books());
    }
  }
}
