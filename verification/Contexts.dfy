/** Whole runs of the address-space calls, with any number of address spaces side by side. */
module Contexts {
  import opened PageTables
  import V = Vmm

  /** A call as its caller makes it. */
  datatype Call =
    | Create(hasMemory: bool)
    | Map(ctx: Frame, v: nat, frame: Frame, flags: V.Flags)
    | Unmap(ctx: Frame, v: nat)
    | Destroy(last: Option<Frame>)

  /** What a call did. */
  datatype Event =
    | Appeared(r: Frame)
    | Translated(ctx: Frame, q: Path, w: Option<Hit>)
    | Gone(r: Frame)
    | Nothing

  /** What the calls demand of their callers. */
  ghost predicate Allowed(s: Space, call: Call) {
    match call
    case Create(_) => true
    case Map(ctx, v, frame, _) =>
      s.IsRoot(ctx) && V.NoLargePage(s, ctx, V.PathTo(v)) && V.Claim(s, ctx, V.PathTo(v), frame)
    case Unmap(ctx, v) => s.IsRoot(ctx) && V.NoLargePage(s, ctx, V.PathTo(v))
    case Destroy(last) => last.Some? ==> s.IsRoot(last.value)
  }

  ghost predicate SameRoots(s: Space, s': Space) {
    forall r {:trigger s'.IsRoot(r)} :: s'.IsRoot(r) <==> s.IsRoot(r)
  }

  lemma RootsAfterExtending(s: Space, s': Space, o: Owner)
    requires V.Extends(s, s', o)
    ensures SameRoots(s, s')
  {
    forall r ensures s'.IsRoot(r) <==> s.IsRoot(r) { assert r in s'.role || r !in s'.role; }
  }

  lemma RootsAfterSettling(s: Space, s': Space, ctx: Frame, q: Path, frame: Option<Frame>)
    requires V.Settles(s, s', ctx, q, frame)
    ensures SameRoots(s, s')
  {
    forall r ensures s'.IsRoot(r) <==> s.IsRoot(r) { assert r in s'.role || r !in s'.role; }
  }

  ghost predicate Step(s: Space, s': Space, event: Event) {
    && s.Ok() && s'.Ok() && s'.kernel == s.kernel
    && match event
       case Appeared(r) => V.Creates(s, s', r)
       case Translated(ctx, q, w) =>
         s.IsRoot(ctx) && IsPath(q) && V.Retranslates(s, s', ctx, q, w) && SameRoots(s, s')
       case Gone(r) => s.IsRoot(r) && r != s.kernel && s' == Destroyed(s, r)
       case Nothing => SameWalks(s, s') && SameRoots(s, s')
  }

  /** Every call is such a step, whether it succeeds or fails. */
  method Do(vmm: V.Vmm, call: Call) returns (ghost event: Event)
    requires vmm.Valid() && Allowed(vmm.View(), call)
    modifies vmm`mem, vmm`role, vmm.pmm, vmm.pmm.bmap
    ensures vmm.Valid() && Step(old(vmm.View()), vmm.View(), event)
  {
    ghost var s := vmm.View();
    match call
    case Create(hasMemory) =>
      var ctx := vmm.CreateContext(hasMemory);
      event := if ctx.Some? then Appeared(ctx.value) else Nothing;
    case Map(ctx, v, frame, flags) =>
      var ok := vmm.MapPage(ctx, v, frame, flags);
      if ok {
        var e := Entry(frame, true, flags.write, flags.user, false, flags.nx);
        event := Translated(ctx, V.PathTo(v), Some(Hit(1, e)));
        RootsAfterSettling(s, vmm.View(), ctx, V.PathTo(v), Some(frame));
      } else {
        event := Nothing;
        RootsAfterExtending(s, vmm.View(), Half(ctx, V.PathTo(v).a));
      }
    case Unmap(ctx, v) =>
      vmm.UnmapPage(ctx, v);
      event := Translated(ctx, V.PathTo(v), None);
      RootsAfterSettling(s, vmm.View(), ctx, V.PathTo(v), None);
    case Destroy(ctx) =>
      vmm.DestroyContext(ctx);
      event := if ctx.Some? && ctx.value != vmm.kernel then Gone(ctx.value) else Nothing;
  }

  ghost predicate Run(spaces: seq<Space>, events: seq<Event>) {
    && |spaces| == |events| + 1 && spaces[0].Ok()
    && forall i {:trigger events[i]} :: 0 <= i < |events| ==> Step(spaces[i], spaces[i + 1], events[i])
  }

  /** What anybody last did to a page of the upper half. */
  ghost function Shared(first: Space, events: seq<Event>, q: Path): Option<Hit>
    requires IsPath(q)
  {
    if events == [] then Walk(first.mem, first.kernel, 4, q)
    else
      var event := events[|events| - 1];
      if event.Translated? && event.q == q then event.w else Shared(first, events[..|events| - 1], q)
  }

  /** What was last done to a page of the lower half of `r`, since `r` appeared. */
  ghost function Private(first: Space, events: seq<Event>, r: Frame, q: Path): Option<Hit>
    requires IsPath(q)
  {
    if events == [] then Walk(first.mem, r, 4, q)
    else
      var event := events[|events| - 1];
      if event == Appeared(r) then None
      else if event.Translated? && event.ctx == r && event.q == q then event.w
      else Private(first, events[..|events| - 1], r, q)
  }

  lemma Shorter(spaces: seq<Space>, events: seq<Event>, n: nat)
    requires Run(spaces, events) && n <= |events|
    ensures Run(spaces[..n + 1], events[..n])
  {
    forall i | 0 <= i < n ensures Step(spaces[..n + 1][i], spaces[..n + 1][i + 1], events[..n][i]) {
      assert events[i] == events[..n][i];
    }
  }

  /**
    After any run, what an address space translates follows from the run alone. The upper half is the same for all
    that live, and shows the last change by anybody. The lower half shows the last change to that address space.
   */
  lemma {:induction false} History(spaces: seq<Space>, events: seq<Event>, r: Frame, q: Path)
    requires Run(spaces, events) && IsPath(q) && spaces[|events|].IsRoot(r)
    ensures Walk(spaces[|events|].mem, r, 4, q) ==
      if q.a >= 256 then Shared(spaces[0], events, q) else Private(spaces[0], events, r, q)
  {
    var n := |events| - 1;
    var s := spaces[|events|];
    if n < 0 {
      if q.a >= 256 { SameKernelHalf(s, r, q); }
    } else {
      var before, event := spaces[n], events[n];
      assert Step(before, s, event);
      Shorter(spaces, events, n);
      var x := if q.a >= 256 then before.kernel else r;
      if q.a >= 256 { SameKernelHalf(s, r, q); }
      if before.IsRoot(x) { History(spaces[..n + 1], events[..n], x, q); }
    }
  }

  /** At every moment of a run all address spaces that live translate the upper half alike. */
  lemma AlwaysAlike(spaces: seq<Space>, events: seq<Event>, n: nat, r: Frame, r': Frame, q: Path)
    requires Run(spaces, events) && n <= |events| && IsPath(q) && q.a >= 256
    requires spaces[n].IsRoot(r) && spaces[n].IsRoot(r')
    ensures Walk(spaces[n].mem, r, 4, q) == Walk(spaces[n].mem, r', 4, q) == Shared(spaces[0], events[..n], q)
  {
    Shorter(spaces, events, n);
    History(spaces[..n + 1], events[..n], r, q);
    History(spaces[..n + 1], events[..n], r', q);
  }
}
