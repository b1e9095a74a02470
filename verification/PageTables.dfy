/**
  Four-level page tables as values: what a walk finds, and the bookkeeping that says which frame is which table
  of which address space. Levels count down from 4, the top table, to 1; level 0 is a mapped page.
 */
module PageTables {
  import P = Pmm

  type Frame = P.Frame

  datatype Entry = Entry(frame: Frame, present: bool, write: bool, user: bool, huge: bool, nx: bool)

  const ABSENT: Entry := Entry(0, false, false, false, false, false)

  /** A frame of memory is read either as a table or as bytes. */
  datatype Content = Table(entries: seq<Entry>) | Bytes(bytes: seq<nat>)

  function BlankTable(): Content { Table(seq(512, _ => ABSENT)) }

  /** The slots on the way down from the top table; -1 below the level a table is at. */
  datatype Path = Path(a: int, b: int, c: int, d: int)

  const TOP: Path := Path(-1, -1, -1, -1)

  function Slot(q: Path, level: nat): int {
    if level == 4 then q.a else if level == 3 then q.b else if level == 2 then q.c else q.d
  }

  /** The part of a path that leads to a table at `level`. */
  function Cut(q: Path, level: nat): Path {
    Path(if level <= 3 then q.a else -1, if level <= 2 then q.b else -1,
         if level <= 1 then q.c else -1, if level == 0 then q.d else -1)
  }

  function Child(q: Path, level: nat, i: int): Path {
    if level == 4 then q.(a := i) else if level == 3 then q.(b := i) else if level == 2 then q.(c := i) else q.(d := i)
  }

  predicate IsSlot(i: int) { 0 <= i < 512 }

  predicate IsPath(q: Path) { IsSlot(q.a) && IsSlot(q.b) && IsSlot(q.c) && IsSlot(q.d) }

  datatype Option<T> = None | Some(value: T)

  /** Where a walk ends: the level of the table and the entry that maps the page. */
  datatype Hit = Hit(level: nat, entry: Entry)

  /** The hardware walk. */
  function Walk(mem: map<Frame, Content>, t: Frame, level: nat, q: Path): Option<Hit>
    requires IsPath(q)
    decreases level
  {
    if t !in mem || !mem[t].Table? || |mem[t].entries| != 512 then None
    else
      var e := mem[t].entries[Slot(q, level)];
      if !e.present then None
      else if level <= 1 || (e.huge && level < 4) then Some(Hit(level, e))
      else Walk(mem, e.frame, level - 1, q)
  }

  /** Whose a table is: the upper half belongs to every address space. */
  datatype Owner = Shared | Of(root: Frame)

  /** What a frame in use is used for. */
  datatype Role =
    | Root
    | Node(owner: Owner, level: nat, path: Path, up: Frame)
    | Held

  function Half(r: Frame, i: int): Owner { if i >= 256 then Shared else Of(r) }

  /**
    Memory as tables and bytes, what every frame is used for, the kernel's top table, and the upper slots below which
    the boot loader may have left tables that forbid writing.
   */
  datatype Space = Space(mem: map<Frame, Content>, role: map<Frame, Role>, kernel: Frame, guarded: set<int>) {

    ghost predicate IsRoot(r: Frame) { r in role && role[r].Root? }

    ghost predicate IsTable(t: Frame) { t in role && (role[t].Root? || (role[t].Node? && 1 <= role[t].level <= 3)) }

    ghost function Level(t: Frame): nat { if t in role && role[t].Node? then role[t].level else 4 }

    ghost function PathOf(t: Frame): Path { if t in role && role[t].Node? then role[t].path else TOP }

    ghost function OwnerAt(t: Frame, i: int): Owner {
      if t in role && role[t].Node? then role[t].owner else Half(t, i)
    }

    ghost function UpAt(t: Frame, i: int): Frame { if IsRoot(t) && i >= 256 then kernel else t }

    ghost predicate Readable(t: Frame) { t in mem && mem[t].Table? && |mem[t].entries| == 512 }

    function At(t: Frame, i: int): Entry {
      if t in mem && mem[t].Table? && 0 <= i < |mem[t].entries| then mem[t].entries[i] else ABSENT
    }

    // ---------- Invariants ----------

    /** An entry of a table leads to the table or page that its place demands. */
    ghost predicate EntryOk(t: Frame, i: int) {
      IsTable(t) && IsSlot(i) && At(t, i).present ==>
        var e, o, n := At(t, i), OwnerAt(t, i), Level(t);
        if n == 1 then o.Of? ==> e.frame in role && role[e.frame] == Node(o, 0, Child(PathOf(t), 1, i), t)
        else if e.huge then
          o == Shared && n < 4 && e.frame % (if n == 2 then 512 else 262144) == 0
        else
          && e.frame in role && role[e.frame] == Node(o, n - 1, Child(PathOf(t), n, i), UpAt(t, i))
          && (e.write || (o == Shared && Child(PathOf(t), n, i).a in guarded))
    }

    /** A table or page hangs where its role says. */
    ghost predicate NodeOk(f: Frame) {
      f in role && role[f].Node? ==>
        var n := role[f];
        var i := Slot(n.path, n.level + 1);
        && n.level <= 3 && IsSlot(i) && n.path == Cut(n.path, n.level)
        && IsTable(n.up) && Level(n.up) == n.level + 1 && PathOf(n.up) == Cut(n.path, n.level + 1)
        && OwnerAt(n.up, i) == n.owner && UpAt(n.up, i) == n.up
        && At(n.up, i).present && At(n.up, i).frame == f && (n.level > 0 ==> !At(n.up, i).huge)
        && (n.level == 0 && n.owner.Of? ==> f in mem && mem[f].Bytes? && |mem[f].bytes| == P.PAGE_SIZE)
    }

    ghost predicate TableOk(t: Frame) { IsTable(t) ==> Readable(t) }

    /** The upper half is the kernel's and complete. */
    ghost predicate RootOk(r: Frame, i: int) {
      IsRoot(r) && 256 <= i < 512 ==> At(r, i) == At(kernel, i) && At(r, i).present
    }

    /** Above a user entry of the lower half there are only user entries. */
    ghost predicate UserOk(t: Frame, i: int) {
      && IsTable(t) && role[t].Node? && role[t].owner.Of? && IsSlot(i) && At(t, i).present && At(t, i).user ==>
        At(role[t].up, Slot(role[t].path, role[t].level + 1)).user
    }

    ghost predicate Ok() {
      Shape() && forall r, i {:trigger RootOk(r, i)} :: RootOk(r, i)
    }

    ghost predicate Shape() {
      && IsRoot(kernel)
      && (forall t {:trigger TableOk(t)} :: TableOk(t))
      && (forall f {:trigger NodeOk(f)} :: NodeOk(f))
      && (forall t, i {:trigger EntryOk(t, i)} :: EntryOk(t, i))
      && (forall t, i {:trigger UserOk(t, i)} :: UserOk(t, i))
    }

    // ---------- Walking down ----------

    /** Table `t` lies on the path `q` in the half that belongs to `o`. */
    ghost predicate Follows(t: Frame, q: Path, o: Owner) {
      IsTable(t) && PathOf(t) == Cut(q, Level(t)) && OwnerAt(t, q.a) == o
    }

    lemma StepDown(t: Frame, q: Path, o: Owner)
      requires Shape() && IsPath(q) && Follows(t, q, o) && Level(t) > 1
      requires At(t, Slot(q, Level(t))).present && !At(t, Slot(q, Level(t))).huge
      ensures var c := At(t, Slot(q, Level(t))).frame;
        Follows(c, q, o) && Level(c) == Level(t) - 1 && role[c].Node?
    {
      assert EntryOk(t, Slot(q, Level(t)));
    }
  }

  // ---------- When a change keeps all walks ----------

  /** A table with nothing in it. */
  ghost predicate Blank(mem: map<Frame, Content>, t: Frame) { t in mem && mem[t] == BlankTable() }

  /** An entry changed in a way that no walk can notice. */
  ghost predicate StepKept(s: Space, s': Space, t: Frame, i: int) {
    var e, e' := s.At(t, i), s'.At(t, i);
    || e == e'
    || (s.Level(t) > 1 && !e.present && e'.present && !e'.huge && Blank(s'.mem, e'.frame))
    || (s.Level(t) > 1 && e.present && e'.present && e'.frame == e.frame && !e.huge && !e'.huge)
  }

  ghost predicate StepsKept(s: Space, s': Space, q: Path, o: Owner)
    requires IsPath(q)
  {
    forall t {:trigger s.Follows(t, q, o)} :: s.Follows(t, q, o) ==>
      s'.Readable(t) && StepKept(s, s', t, Slot(q, s.Level(t)))
  }

  lemma {:induction false} WalkKept(s: Space, s': Space, t: Frame, q: Path, o: Owner)
    requires IsPath(q) && s.Shape() && s.Follows(t, q, o) && StepsKept(s, s', q, o)
    ensures Walk(s'.mem, t, s.Level(t), q) == Walk(s.mem, t, s.Level(t), q)
    decreases s.Level(t)
  {
    var i := Slot(q, s.Level(t));
    assert s.TableOk(t) && s.EntryOk(t, i);
    if s.Level(t) > 1 && s.At(t, i).present && !s.At(t, i).huge {
      s.StepDown(t, q, o);
      WalkKept(s, s', s.At(t, i).frame, q, o);
    }
  }

  /** No translation changed in any address space. */
  ghost predicate SameWalks(s: Space, s': Space) {
    forall r, q {:trigger Walk(s'.mem, r, 4, q)} ::
      s.IsRoot(r) && IsPath(q) ==> Walk(s'.mem, r, 4, q) == Walk(s.mem, r, 4, q)
  }

  lemma AllWalksKept(s: Space, s': Space)
    requires s.Shape()
    requires forall q, o | IsPath(q) :: StepsKept(s, s', q, o)
    ensures SameWalks(s, s')
  {
    forall r, q | s.IsRoot(r) && IsPath(q) ensures Walk(s'.mem, r, 4, q) == Walk(s.mem, r, 4, q) {
      assert s.Follows(r, q, Half(r, q.a));
      WalkKept(s, s', r, q, Half(r, q.a));
    }
  }

  /** What the hardware lets the kernel write: every entry on the way has to allow it. */
  function MayWrite(mem: map<Frame, Content>, t: Frame, level: nat, q: Path): bool
    requires IsPath(q)
    decreases level
  {
    t in mem && mem[t].Table? && |mem[t].entries| == 512 &&
    var e := mem[t].entries[Slot(q, level)];
    e.present && e.write && (level <= 1 || (e.huge && level < 4) || MayWrite(mem, e.frame, level - 1, q))
  }

  /** Tables do not stand in the way of a write, those of the boot loader apart: the entry of the page decides. */
  lemma {:induction false} PageDecides(s: Space, t: Frame, q: Path, o: Owner)
    requires s.Shape() && IsPath(q) && s.Follows(t, q, o) && (o == Shared ==> q.a !in s.guarded)
    ensures var w := Walk(s.mem, t, s.Level(t), q);
      MayWrite(s.mem, t, s.Level(t), q) <==> w.Some? && w.value.entry.write
    decreases s.Level(t)
  {
    var e := s.At(t, Slot(q, s.Level(t)));
    assert s.TableOk(t) && s.EntryOk(t, Slot(q, s.Level(t)));
    if s.Level(t) > 1 && e.present && !e.huge {
      s.StepDown(t, q, o);
      PageDecides(s, e.frame, q, o);
    }
  }

  /** All address spaces translate the upper half alike. */
  lemma SameKernelHalf(s: Space, r: Frame, q: Path)
    requires s.Ok() && s.IsRoot(r) && IsPath(q) && q.a >= 256
    ensures Walk(s.mem, r, 4, q) == Walk(s.mem, s.kernel, 4, q)
  {
    assert s.RootOk(r, q.a) && s.TableOk(r) && s.TableOk(s.kernel);
    assert s.At(r, q.a) == s.At(s.kernel, q.a);
  }

  // ---------- Writing entries ----------

  /** The entry that leads to table `t` lets user code through. */
  ghost predicate UserAbove(s: Space, t: Frame) {
    t in s.role && (s.role[t].Node? ==> s.At(s.role[t].up, Slot(s.role[t].path, s.role[t].level + 1)).user)
  }

  function Written(mem: map<Frame, Content>, t: Frame, i: int, e: Entry): map<Frame, Content>
    requires t in mem && mem[t].Table? && 0 <= i < |mem[t].entries|
  {
    mem[t := Table(mem[t].entries[i := e])]
  }

  /** Among the tables, one entry changed. */
  ghost predicate Wrote(s: Space, s': Space, t: Frame, i: int, e: Entry) {
    && s'.kernel == s.kernel && s'.guarded == s.guarded
    && (forall x, j {:trigger s'.At(x, j)} :: s.IsTable(x) ==>
      s'.At(x, j) == if x == t && j == i then e else s.At(x, j))
  }

  /** A new, empty table `f` behind an entry that was absent. */
  ghost function Grown(s: Space, t: Frame, i: int, f: Frame, user: bool): Space
    requires s.Readable(t) && IsSlot(i) && s.Level(t) > 1 && t != f
  {
    Space(Written(s.mem[f := BlankTable()], t, i, Entry(f, true, true, user, false, false)),
          s.role[f := Node(s.OwnerAt(t, i), s.Level(t) - 1, Child(s.PathOf(t), s.Level(t), i), t)], s.kernel,
          s.guarded)
  }

  lemma GrownAt(s: Space, t: Frame, i: int, f: Frame, user: bool)
    requires s.Shape() && s.IsTable(t) && s.Readable(t) && s.Level(t) > 1 && IsSlot(i) && f !in s.role && t != f
    ensures Wrote(s, Grown(s, t, i, f, user), t, i, Entry(f, true, true, user, false, false))
    ensures forall j :: Grown(s, t, i, f, user).At(f, j) == ABSENT
  {
  }

  lemma GrownNode(s: Space, s': Space, t: Frame, i: int, f: Frame, x: Frame)
    requires s.NodeOk(x) && s.NodeOk(t) && s.IsTable(t) && s.Level(t) > 1 && IsSlot(i) && !s.At(t, i).present
    requires f !in s.role
      && s'.role == s.role[f := Node(s.OwnerAt(t, i), s.Level(t) - 1, Child(s.PathOf(t), s.Level(t), i), t)]
    requires s.UpAt(t, i) == t
    requires Wrote(s, s', t, i, s'.At(t, i)) && s'.At(t, i).present && s'.At(t, i).frame == f && !s'.At(t, i).huge
    requires x in s.role && x in s.mem && !s.IsTable(x) ==> x in s'.mem && s'.mem[x] == s.mem[x]
    ensures s'.NodeOk(x)
  {
  }

  lemma GrownEntry(s: Space, s': Space, t: Frame, i: int, f: Frame, x: Frame, j: int)
    requires s.EntryOk(x, j) && s.NodeOk(t) && s.IsTable(t) && s.Level(t) > 1 && IsSlot(i) && !s.At(t, i).present
    requires f !in s.role
      && s'.role == s.role[f := Node(s.OwnerAt(t, i), s.Level(t) - 1, Child(s.PathOf(t), s.Level(t), i), t)]
    requires s.UpAt(t, i) == t
    requires Wrote(s, s', t, i, s'.At(t, i)) && s'.At(t, i).frame == f && !s'.At(t, i).huge && s'.At(t, i).write
    requires !s'.At(f, j).present
    ensures s'.EntryOk(x, j)
  {
  }

  lemma GrownShape(s: Space, t: Frame, i: int, f: Frame, user: bool)
    requires s.Shape() && s.IsTable(t) && s.Readable(t) && s.Level(t) > 1 && IsSlot(i) && !s.At(t, i).present
    requires s.UpAt(t, i) == t && f !in s.role && t != f && (user ==> UserAbove(s, t))
    ensures Grown(s, t, i, f, user).Shape()
  {
    var s' := Grown(s, t, i, f, user);
    GrownAt(s, t, i, f, user);
    assert s.NodeOk(t);
    forall x ensures s'.TableOk(x) { assert s.TableOk(x); }
    forall x ensures s'.NodeOk(x) { GrownNode(s, s', t, i, f, x); }
    forall x, j ensures s'.EntryOk(x, j) { GrownEntry(s, s', t, i, f, x, j); }
    forall x, j ensures s'.UserOk(x, j) { assert s.UserOk(x, j) && s.NodeOk(x); }
  }

  lemma GrownOk(s: Space, t: Frame, i: int, f: Frame, user: bool)
    requires s.Ok() && s.IsTable(t) && s.Readable(t) && s.Level(t) > 1 && IsSlot(i) && !s.At(t, i).present
    requires f !in s.role && t != f && (user ==> UserAbove(s, t))
    ensures Grown(s, t, i, f, user).Ok()
  {
    var s' := Grown(s, t, i, f, user);
    assert s.RootOk(t, i) && s.RootOk(s.kernel, i);
    GrownShape(s, t, i, f, user);
    GrownAt(s, t, i, f, user);
    forall x, j ensures s'.RootOk(x, j) { assert s.RootOk(x, j); }
  }

  lemma GrownWalks(s: Space, t: Frame, i: int, f: Frame, user: bool)
    requires s.Shape() && s.IsTable(t) && s.Readable(t) && s.Level(t) > 1 && IsSlot(i) && !s.At(t, i).present
    requires f !in s.role && t != f
    ensures SameWalks(s, Grown(s, t, i, f, user))
  {
    var s' := Grown(s, t, i, f, user);
    forall q, o | IsPath(q) ensures StepsKept(s, s', q, o) {
      forall x | s.Follows(x, q, o) ensures s'.Readable(x) && StepKept(s, s', x, Slot(q, s.Level(x))) {
        assert s.TableOk(x);
      }
    }
    AllWalksKept(s, s');
  }

  /** The user bit of an entry of the lower half switched on. */
  ghost function Opened(s: Space, t: Frame, i: int): Space
    requires s.Readable(t) && IsSlot(i)
  {
    s.(mem := Written(s.mem, t, i, s.At(t, i).(user := true)))
  }

  lemma OpenedOk(s: Space, t: Frame, i: int)
    requires s.Ok() && s.IsTable(t) && s.Readable(t) && s.Level(t) > 1 && IsSlot(i) && s.OwnerAt(t, i).Of?
    requires s.At(t, i).present && UserAbove(s, t)
    ensures Opened(s, t, i).Ok()
  {
    var s' := Opened(s, t, i);
    assert Wrote(s, s', t, i, s.At(t, i).(user := true));
    assert s.NodeOk(t);
    forall x ensures s'.TableOk(x) { assert s.TableOk(x); }
    forall x, j ensures s'.RootOk(x, j) { assert s.RootOk(x, j); }
    forall x ensures s'.NodeOk(x) { OpenedNode(s, s', t, i, x); }
    forall x, j ensures s'.EntryOk(x, j) { OpenedEntry(s, s', t, i, x, j); }
    forall x, j ensures s'.UserOk(x, j) { assert s.UserOk(x, j) && s.NodeOk(x); }
  }

  lemma OpenedNode(s: Space, s': Space, t: Frame, i: int, x: Frame)
    requires s.NodeOk(x) && s'.role == s.role && Wrote(s, s', t, i, s.At(t, i).(user := true))
    requires x in s.role && x in s.mem && !s.IsTable(x) ==> x in s'.mem && s'.mem[x] == s.mem[x]
    ensures s'.NodeOk(x)
  {}

  lemma OpenedEntry(s: Space, s': Space, t: Frame, i: int, x: Frame, j: int)
    requires s.EntryOk(x, j) && s'.role == s.role && Wrote(s, s', t, i, s.At(t, i).(user := true))
    ensures s'.EntryOk(x, j)
  {}

  lemma OpenedWalks(s: Space, t: Frame, i: int)
    requires s.Ok() && s.IsTable(t) && s.Readable(t) && s.Level(t) > 1 && IsSlot(i) && s.OwnerAt(t, i).Of?
    requires s.At(t, i).present
    ensures SameWalks(s, Opened(s, t, i))
  {
    var s' := Opened(s, t, i);
    assert s.EntryOk(t, i);
    forall q, o | IsPath(q) ensures StepsKept(s, s', q, o) {
      forall x | s.Follows(x, q, o) ensures s'.Readable(x) && StepKept(s, s', x, Slot(q, s.Level(x))) {
        assert s.TableOk(x);
      }
    }
    AllWalksKept(s, s');
  }

  /** A walk comes by every table that lies on its path. */
  lemma {:induction false} ComesBy(s: Space, x: Frame, r: Frame, q: Path)
    requires s.Ok() && s.IsRoot(r) && IsPath(q) && s.Follows(x, q, Half(r, q.a)) && s.role[x].Node?
    ensures Walk(s.mem, r, 4, q) == Walk(s.mem, x, s.Level(x), q)
    decreases 4 - s.Level(x)
  {
    var u := s.role[x].up;
    assert s.NodeOk(x) && s.TableOk(u) && s.TableOk(r);
    if s.role[u].Node? {
      ComesBy(s, u, r, q);
    } else {
      assert s.RootOk(r, q.a);
    }
  }

  // ---------- Mapping and unmapping a page ----------

  ghost function LeafRole(s: Space, t: Frame, i: int): Role { Node(s.OwnerAt(t, i), 0, Child(s.PathOf(t), 1, i), t) }

  /** The roles once the page that was mapped by the entry is nobody's. */
  ghost function Released(s: Space, t: Frame, i: int): map<Frame, Role> {
    var e := s.At(t, i);
    if e.present && e.frame in s.role && s.role[e.frame] == LeafRole(s, t, i) then s.role[e.frame := Held] else s.role
  }

  /** The roles once the entry `e` is in place. */
  ghost function Placed(s: Space, t: Frame, i: int, e: Entry): map<Frame, Role> {
    var role := Released(s, t, i);
    if e.present && e.frame in role && role[e.frame] == Held then role[e.frame := LeafRole(s, t, i)] else role
  }

  /** An entry of a lowest table written. */
  ghost function Leafed(s: Space, t: Frame, i: int, e: Entry): Space
    requires s.Readable(t) && IsSlot(i)
  {
    Space(Written(s.mem, t, i, e), Placed(s, t, i, e), s.kernel, s.guarded)
  }

  /** A page of the lower half has to be a frame of bytes that nobody else has. */
  ghost predicate Mappable(s: Space, t: Frame, i: int, e: Entry) {
    e.present && s.OwnerAt(t, i).Of? ==>
      && e.frame in s.role && Released(s, t, i)[e.frame] == Held
      && e.frame in s.mem && s.mem[e.frame].Bytes? && |s.mem[e.frame].bytes| == P.PAGE_SIZE
      && (e.user ==> UserAbove(s, t))
  }

  lemma LeafedNode(s: Space, s': Space, t: Frame, i: int, e: Entry, x: Frame)
    requires s.NodeOk(x) && s.NodeOk(t) && s.IsTable(t) && s.Level(t) == 1 && IsSlot(i)
    requires s'.role == Placed(s, t, i, e) && Wrote(s, s', t, i, e) && Mappable(s, t, i, e)
    requires x in s.role && x in s.mem && !s.IsTable(x) ==> x in s'.mem && s'.mem[x] == s.mem[x]
    ensures s'.NodeOk(x)
  {
    if x in s.role && s.role[x].Node? {
      var u := s.role[x].up;
      assert s.IsTable(u) && s'.IsTable(u) && s'.role[u] == s.role[u];
    }
    assert s'.IsTable(t) && s'.role[t] == s.role[t];
  }

  lemma LeafedEntry(s: Space, s': Space, t: Frame, i: int, e: Entry, x: Frame, j: int)
    requires s.EntryOk(x, j) && s.NodeOk(t) && s.IsTable(t) && s.Level(t) == 1 && IsSlot(i)
    requires s'.role == Placed(s, t, i, e) && Wrote(s, s', t, i, e) && Mappable(s, t, i, e)
    ensures s'.EntryOk(x, j)
  {}

  lemma LeafedUser(s: Space, s': Space, t: Frame, i: int, e: Entry, x: Frame, j: int)
    requires s.UserOk(x, j) && s.NodeOk(x) && s.NodeOk(t) && s.IsTable(t) && s.Level(t) == 1 && IsSlot(i)
    requires s'.role == Placed(s, t, i, e) && Wrote(s, s', t, i, e) && Mappable(s, t, i, e)
    ensures s'.UserOk(x, j)
  {}

  lemma LeafedOk(s: Space, t: Frame, i: int, e: Entry)
    requires s.Ok() && s.IsTable(t) && s.Readable(t) && s.Level(t) == 1 && IsSlot(i) && Mappable(s, t, i, e)
    ensures Leafed(s, t, i, e).Ok()
  {
    var s' := Leafed(s, t, i, e);
    assert Wrote(s, s', t, i, e);
    assert s.NodeOk(t);
    forall x ensures s'.TableOk(x) { assert s.TableOk(x); }
    forall x, j ensures s'.RootOk(x, j) { assert s.RootOk(x, j); }
    forall x ensures s'.NodeOk(x) { LeafedNode(s, s', t, i, e, x); }
    forall x, j ensures s'.EntryOk(x, j) { LeafedEntry(s, s', t, i, e, x, j); }
    forall x, j ensures s'.UserOk(x, j) { LeafedUser(s, s', t, i, e, x, j); }
  }

  /** Walks to other pages, or in other address spaces, stay as they were. */
  lemma OtherWalks(s: Space, t: Frame, i: int, e: Entry, r: Frame, q: Path)
    requires s.Ok() && s.IsTable(t) && s.Readable(t) && s.Level(t) == 1 && IsSlot(i)
    requires s.IsRoot(r) && IsPath(q) && !(q == Child(s.PathOf(t), 1, i) && Half(r, q.a) == s.OwnerAt(t, i))
    ensures Walk(Leafed(s, t, i, e).mem, r, 4, q) == Walk(s.mem, r, 4, q)
  {
    var s' := Leafed(s, t, i, e);
    var o := Half(r, q.a);
    forall x | s.Follows(x, q, o) ensures s'.Readable(x) && StepKept(s, s', x, Slot(q, s.Level(x))) {
      assert s.TableOk(x);
    }
    WalkKept(s, s', r, q, o);
  }

  /** The walk to the page now ends at the new entry. */
  lemma WalkToPage(s: Space, t: Frame, i: int, e: Entry, r: Frame, q: Path)
    requires s.Ok() && s.IsTable(t) && s.Readable(t) && s.Level(t) == 1 && IsSlot(i) && Mappable(s, t, i, e)
    requires s.IsRoot(r) && IsPath(q) && q == Child(s.PathOf(t), 1, i) && Half(r, q.a) == s.OwnerAt(t, i)
    ensures Walk(Leafed(s, t, i, e).mem, r, 4, q) == if e.present then Some(Hit(1, e)) else None
  {
    var s' := Leafed(s, t, i, e);
    LeafedOk(s, t, i, e);
    assert s.NodeOk(t);
    ComesBy(s', t, r, q);
  }

  // ---------- New address spaces ----------

  /** A top table with an empty lower half and the kernel's upper half. */
  ghost predicate FreshRoot(s: Space, c: Content) {
    && c.Table? && |c.entries| == 512
    && forall i {:trigger c.entries[i]} :: 0 <= i < 512 ==>
      c.entries[i] == if i < 256 then ABSENT else s.At(s.kernel, i)
  }

  ghost function Created(s: Space, f: Frame, c: Content): Space {
    Space(s.mem[f := c], s.role[f := Root], s.kernel, s.guarded)
  }

  lemma CreatedNode(s: Space, f: Frame, c: Content, x: Frame)
    requires s.NodeOk(x) && f !in s.role && s.IsRoot(s.kernel)
    ensures Created(s, f, c).NodeOk(x)
  {}

  lemma CreatedEntry(s: Space, f: Frame, c: Content, x: Frame, j: int)
    requires s.EntryOk(x, j) && s.EntryOk(s.kernel, j) && f !in s.role && s.IsRoot(s.kernel) && FreshRoot(s, c)
    ensures Created(s, f, c).EntryOk(x, j)
  {}

  lemma CreatedOk(s: Space, f: Frame, c: Content)
    requires s.Ok() && f !in s.role && FreshRoot(s, c)
    ensures Created(s, f, c).Ok()
  {
    var s' := Created(s, f, c);
    forall x ensures s'.TableOk(x) { assert s.TableOk(x); }
    forall x, j ensures s'.RootOk(x, j) { assert s.RootOk(x, j) && s.RootOk(s.kernel, j); }
    forall x ensures s'.NodeOk(x) { CreatedNode(s, f, c, x); }
    forall x, j ensures s'.EntryOk(x, j) { CreatedEntry(s, f, c, x, j); }
    forall x, j ensures s'.UserOk(x, j) { assert s.UserOk(x, j) && s.NodeOk(x); }
  }

  lemma CreatedWalks(s: Space, f: Frame, c: Content)
    requires s.Ok() && f !in s.role && FreshRoot(s, c)
    ensures SameWalks(s, Created(s, f, c))
    ensures forall q | IsPath(q) && q.a < 256 :: Walk(Created(s, f, c).mem, f, 4, q) == None
  {
    var s' := Created(s, f, c);
    forall q, o | IsPath(q) ensures StepsKept(s, s', q, o) {
      forall x | s.Follows(x, q, o) ensures s'.Readable(x) && StepKept(s, s', x, Slot(q, s.Level(x))) {
        assert s.TableOk(x);
      }
    }
    AllWalksKept(s, s');
  }

  // ---------- Taking an address space down ----------

  ghost predicate Owned(s: Space, r: Frame, f: Frame) {
    f in s.role && (f == r || (s.role[f].Node? && s.role[f].owner == Of(r)))
  }

  ghost function OwnedBy(s: Space, r: Frame): set<Frame> { set f | f in s.role && Owned(s, r, f) }

  ghost function Destroyed(s: Space, r: Frame): Space { s.(role := s.role - OwnedBy(s, r)) }

  lemma DestroyedOk(s: Space, r: Frame)
    requires s.Ok() && s.IsRoot(r) && r != s.kernel
    ensures Destroyed(s, r).Ok()
  {
    var s' := Destroyed(s, r);
    forall x ensures s'.TableOk(x) { assert s.TableOk(x); }
    forall x, j ensures s'.RootOk(x, j) { assert s.RootOk(x, j); }
    forall x ensures s'.NodeOk(x) { assert s.NodeOk(x); }
    forall x, j ensures s'.EntryOk(x, j) { assert s.EntryOk(x, j); }
    forall x, j ensures s'.UserOk(x, j) { assert s.UserOk(x, j) && s.NodeOk(x); }
  }

  /** The frames at and below the place `p` of level `level`. */
  ghost function Below(s: Space, o: Owner, level: nat, p: Path): set<Frame> {
    set f | f in s.role && s.role[f].Node? && s.role[f].owner == o && s.role[f].level <= level
      && Cut(s.role[f].path, level) == p
  }

  /** Those strictly below, behind the first `k` slots. */
  ghost function Behind(s: Space, o: Owner, level: nat, p: Path, k: nat): set<Frame> {
    set f | f in Below(s, o, level, p) && s.role[f].level < level && Slot(s.role[f].path, level) < k
  }

  /** Every place holds one frame at most. */
  lemma {:induction false} OneFrame(s: Space, f: Frame, g: Frame)
    requires s.Ok() && f in s.role && g in s.role && s.role[f].Node? && s.role[g].Node?
    requires s.role[f].owner == s.role[g].owner && s.role[f].level == s.role[g].level
      && s.role[f].path == s.role[g].path
    ensures f == g
    decreases 4 - s.role[f].level
  {
    assert s.NodeOk(f) && s.NodeOk(g);
    var u, w := s.role[f].up, s.role[g].up;
    if s.role[u].Node? {
      OneFrame(s, u, w);
    }
  }

  /** Above a frame there is a table at every higher place. */
  lemma {:induction false} Ancestor(s: Space, f: Frame, level: nat) returns (a: Frame)
    requires s.Ok() && f in s.role && s.role[f].Node? && s.role[f].level <= level <= 3
    ensures a in s.role && s.role[a].Node? && s.role[a].owner == s.role[f].owner
    ensures s.role[a].level == level && s.role[a].path == Cut(s.role[f].path, level)
    decreases level - s.role[f].level
  {
    assert s.NodeOk(f);
    if s.role[f].level == level {
      a := f;
    } else {
      a := Ancestor(s, s.role[f].up, level);
    }
  }

  /** The table `t` is the one at its place: a top table, or a lower one. */
  ghost predicate Heads(s: Space, t: Frame, o: Owner) {
    s.IsTable(t) && (if s.role[t].Root? then o == Of(t) else s.role[t].owner == o)
  }

  /** What hangs behind one slot: nothing if the entry is absent. */
  lemma BehindSlot(s: Space, t: Frame, o: Owner, i: nat)
    requires s.Ok() && Heads(s, t, o) && o.Of? && i < (if s.role[t].Root? then 256 else 512)
    ensures var level, p := s.Level(t), s.PathOf(t);
      var inner := Below(s, o, level - 1, Child(p, level, i));
      && Behind(s, o, level, p, i + 1) == Behind(s, o, level, p, i) + inner
      && Behind(s, o, level, p, i) !! inner
      && (!s.At(t, i).present ==> inner == {})
      && (s.At(t, i).present ==> !s.At(t, i).huge || level == 1)
      && (s.At(t, i).present ==>
        s.At(t, i).frame in s.role && s.role[s.At(t, i).frame] == Node(o, level - 1, Child(p, level, i), t))
  {
    var level, p := s.Level(t), s.PathOf(t);
    var inner := Below(s, o, level - 1, Child(p, level, i));
    assert s.EntryOk(t, i) && s.NodeOk(t);
    assert Behind(s, o, level, p, i + 1) == Behind(s, o, level, p, i) + inner;
    forall f | f in inner ensures s.At(t, i).present {
      var a := Ancestor(s, f, level - 1);
      assert s.NodeOk(a);
      if s.role[t].Node? { OneFrame(s, s.role[a].up, t); }
    }
  }

  /** Below a table: the table itself and what hangs behind its slots. */
  lemma BelowTable(s: Space, t: Frame)
    requires s.Ok() && s.IsTable(t) && s.role[t].Node?
    ensures var n := s.role[t];
      Below(s, n.owner, n.level, n.path) == Behind(s, n.owner, n.level, n.path, 512) + {t}
      && t !in Behind(s, n.owner, n.level, n.path, 512)
  {
    var n := s.role[t];
    assert s.NodeOk(t);
    forall f | f in Below(s, n.owner, n.level, n.path) ensures f == t || f in Behind(s, n.owner, n.level, n.path, 512) {
      assert s.NodeOk(f);
      if s.role[f].level == n.level {
        OneFrame(s, f, t);
      } else {
        var a := Ancestor(s, f, n.level - 1);
        assert s.NodeOk(a);
      }
    }
  }

  /** A page is all there is at its place. */
  lemma BelowPage(s: Space, f: Frame)
    requires s.Ok() && f in s.role && s.role[f].Node? && s.role[f].level == 0
    ensures Below(s, s.role[f].owner, 0, s.role[f].path) == {f}
  {
    var n := s.role[f];
    assert s.NodeOk(f);
    forall g | g in Below(s, n.owner, 0, n.path) ensures g == f {
      assert s.NodeOk(g);
      OneFrame(s, g, f);
    }
  }

  /** An address space is its top table and what hangs behind the lower half. */
  lemma OwnedIsBehind(s: Space, r: Frame)
    requires s.Ok() && s.IsRoot(r)
    ensures OwnedBy(s, r) == Behind(s, Of(r), 4, TOP, 256) + {r} && r !in Behind(s, Of(r), 4, TOP, 256)
  {
    forall f | f in OwnedBy(s, r) && f != r ensures f in Behind(s, Of(r), 4, TOP, 256) {
      assert s.NodeOk(f);
      var a := Ancestor(s, f, 3);
      assert s.NodeOk(a);
    }
  }

  // ---------- The kernel's own address space ----------

  /** The tables that the boot loader left: the upper half of `boot` is a tree of shared tables. */
  ghost predicate BootOk(mem: map<Frame, Content>, role: map<Frame, Role>, boot: Frame, guarded: set<int>) {
    var s := Space(mem, role, boot, guarded);
    && s.IsRoot(boot)
    && (forall f {:trigger f in role} :: f in role && f != boot ==>
      role[f].Node? && role[f].owner == Shared && role[f].level > 0)
    && (forall t {:trigger s.TableOk(t)} :: s.TableOk(t))
    && (forall f {:trigger s.NodeOk(f)} :: s.NodeOk(f))
    && (forall t, i {:trigger s.EntryOk(t, i)} :: t != boot || i >= 256 ==> s.EntryOk(t, i))
  }

  /** The roles when `k` takes the place of `boot`. */
  ghost function Moved(role: map<Frame, Role>, boot: Frame, k: Frame): map<Frame, Role> {
    map f | f in role + map[k := Root] && f != boot ::
      if f == k then Root else if role[f].Node? && role[f].up == boot then role[f].(up := k) else role[f]
  }

  lemma MovedNode(mem: map<Frame, Content>, role: map<Frame, Role>, boot: Frame, guarded: set<int>, k: Frame,
      c: Content, x: Frame)
    requires BootOk(mem, role, boot, guarded) && k !in role && FreshRoot(Space(mem, role, boot, guarded), c)
    ensures Space(mem[k := c], Moved(role, boot, k), k, guarded).NodeOk(x)
  {
    assert Space(mem, role, boot, guarded).NodeOk(x);
  }

  lemma MovedEntry(mem: map<Frame, Content>, role: map<Frame, Role>, boot: Frame, guarded: set<int>, k: Frame,
      c: Content, x: Frame, j: int)
    requires BootOk(mem, role, boot, guarded) && k !in role && FreshRoot(Space(mem, role, boot, guarded), c)
    ensures Space(mem[k := c], Moved(role, boot, k), k, guarded).EntryOk(x, j)
  {
    var s := Space(mem, role, boot, guarded);
    if x != boot { assert s.EntryOk(x, j); }
    if j >= 256 { assert s.EntryOk(boot, j); }
  }

  lemma MovedShape(mem: map<Frame, Content>, role: map<Frame, Role>, boot: Frame, guarded: set<int>, k: Frame,
      c: Content)
    requires BootOk(mem, role, boot, guarded) && k !in role && FreshRoot(Space(mem, role, boot, guarded), c)
    ensures Space(mem[k := c], Moved(role, boot, k), k, guarded).Shape()
  {
    var s, s' := Space(mem, role, boot, guarded), Space(mem[k := c], Moved(role, boot, k), k, guarded);
    forall x ensures s'.TableOk(x) { assert s.TableOk(x); }
    forall x ensures s'.NodeOk(x) { MovedNode(mem, role, boot, guarded, k, c, x); }
    forall x, j ensures s'.EntryOk(x, j) { MovedEntry(mem, role, boot, guarded, k, c, x, j); }
    forall x, j ensures s'.UserOk(x, j) {}
  }

  /** Walks through the boot loader's tables do not notice a frame outside them. */
  lemma {:induction false} WalkOutside(mem: map<Frame, Content>, role: map<Frame, Role>, boot: Frame,
      guarded: set<int>, k: Frame, c: Content, t: Frame, q: Path)
    requires BootOk(mem, role, boot, guarded) && k !in role && IsPath(q) && q.a >= 256
    requires Space(mem, role, boot, guarded).Follows(t, q, Shared)
    ensures Walk(mem[k := c], t, Space(mem, role, boot, guarded).Level(t), q) ==
      Walk(mem, t, Space(mem, role, boot, guarded).Level(t), q)
    decreases Space(mem, role, boot, guarded).Level(t)
  {
    var s := Space(mem, role, boot, guarded);
    var e := s.At(t, Slot(q, s.Level(t)));
    assert s.TableOk(t) && s.EntryOk(t, Slot(q, s.Level(t)));
    if s.Level(t) > 1 && e.present && !e.huge {
      WalkOutside(mem, role, boot, guarded, k, c, e.frame, q);
    }
  }

  lemma MovedWalk(mem: map<Frame, Content>, role: map<Frame, Role>, boot: Frame, guarded: set<int>, k: Frame,
      c: Content, q: Path)
    requires BootOk(mem, role, boot, guarded) && k !in role && FreshRoot(Space(mem, role, boot, guarded), c)
      && IsPath(q)
    ensures Walk(mem[k := c], k, 4, q) == if q.a >= 256 then Walk(mem, boot, 4, q) else None
  {
    var s := Space(mem, role, boot, guarded);
    assert s.TableOk(boot);
    if q.a >= 256 {
      assert s.EntryOk(boot, q.a);
      WalkOutside(mem, role, boot, guarded, k, c, boot, q);
    }
  }

  // ---------- Tables still to be made ----------

  /** How many tables are missing on the way down from `t`. */
  ghost function Missing(mem: map<Frame, Content>, t: Frame, level: nat, q: Path): nat
    requires IsPath(q)
    decreases level, t
  {
    if level <= 1 then 0
    else if t !in mem || !mem[t].Table? || |mem[t].entries| != 512 then level - 1
    else
      var e := mem[t].entries[Slot(q, level)];
      if !e.present then level - 1 else if e.huge && level < 4 then 0 else Missing(mem, e.frame, level - 1, q)
  }

  /** No entry above the lowest tables changed on the way along `q`, from `level` on. */
  ghost predicate SameTables(s: Space, s': Space, q: Path, o: Owner, level: nat) {
    forall x {:trigger s.Follows(x, q, o)} :: s.Follows(x, q, o) && 1 < s.Level(x) <= level ==>
      s'.Readable(x) && LeadsAlike(s.At(x, Slot(q, s.Level(x))), s'.At(x, Slot(q, s.Level(x))))
  }

  ghost predicate LeadsAlike(e: Entry, e': Entry) {
    e'.present == e.present && e'.huge == e.huge && e'.frame == e.frame
  }

  lemma {:induction false} MissingKept(s: Space, s': Space, t: Frame, q: Path, o: Owner)
    requires IsPath(q) && s.Shape() && s.Follows(t, q, o)
    requires SameTables(s, s', q, o, s.Level(t))
    ensures Missing(s'.mem, t, s.Level(t), q) == Missing(s.mem, t, s.Level(t), q)
    decreases s.Level(t)
  {
    var i := Slot(q, s.Level(t));
    assert s.TableOk(t) && s.EntryOk(t, i);
    if s.Level(t) > 1 && s.At(t, i).present && !s.At(t, i).huge {
      s.StepDown(t, q, o);
      MissingKept(s, s', s.At(t, i).frame, q, o);
    }
  }

  lemma {:induction false} MissingAtMost(mem: map<Frame, Content>, t: Frame, level: nat, q: Path)
    requires IsPath(q) && level > 0
    ensures Missing(mem, t, level, q) <= level - 1
    decreases level
  {
    if level > 1 && t in mem && mem[t].Table? && |mem[t].entries| == 512 {
      MissingAtMost(mem, mem[t].entries[Slot(q, level)].frame, level - 1, q);
    }
  }

  /** As a walk comes by every table on its path, no table above it is missing. */
  lemma {:induction false} NoneMissingAbove(s: Space, x: Frame, r: Frame, q: Path)
    requires s.Ok() && s.IsRoot(r) && IsPath(q) && s.Follows(x, q, Half(r, q.a)) && s.role[x].Node?
    ensures Missing(s.mem, r, 4, q) == Missing(s.mem, x, s.Level(x), q)
    decreases 4 - s.Level(x)
  {
    var u := s.role[x].up;
    assert s.NodeOk(x) && s.TableOk(u) && s.TableOk(r);
    if s.role[u].Node? {
      NoneMissingAbove(s, u, r, q);
    } else {
      assert s.RootOk(r, q.a);
    }
  }

  function Least(a: nat, b: nat): nat { if a < b then a else b }

  /** With the tables on the way to `q` in place down to `level`, at most so many are missing on the way to `q'`. */
  function Fork(q: Path, q': Path, level: nat): nat {
    if level <= 1 && Cut(q, 1) == Cut(q', 1) then 0
    else if level <= 2 && Cut(q, 2) == Cut(q', 2) then 1
    else if level <= 3 && Cut(q, 3) == Cut(q', 3) then 2
    else 3
  }
}
