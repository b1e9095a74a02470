/**
  The small bins: for every small size a circular doubly linked list of free chunks that runs through the bin's
  header. A bin that becomes empty keeps its old links; only its bit in the bin map says that it is empty.
 */
module SmallBins {
  import BinMap
  import opened Lists

  /** A chunk address, or the header of a bin. */
  type Ptr = int

  const NSMALLBINS := 32
  const SMALL_LIMIT := 256

  function Header(i: nat): Ptr { -1 - i }

  function SmallIndex(s: nat): nat { s / 8 }

  predicate SmallSize(s: nat) { 16 <= s < SMALL_LIMIT && s % 8 == 0 }

  // ---------- One ring ----------

  ghost function After(h: Ptr, l: seq<Ptr>, k: nat): Ptr
    requires k < |l|
  {
    if k + 1 < |l| then l[k + 1] else h
  }

  ghost function Before(h: Ptr, l: seq<Ptr>, k: nat): Ptr
    requires k < |l|
  {
    if k > 0 then l[k - 1] else h
  }

  ghost predicate LinkOk(fd: map<Ptr, Ptr>, bk: map<Ptr, Ptr>, h: Ptr, l: seq<Ptr>, k: nat) {
    k < |l| ==> l[k] > 0 && l[k] in fd && l[k] in bk && fd[l[k]] == After(h, l, k) && bk[l[k]] == Before(h, l, k)
  }

  /** The list `l` is strung between the two ends of header `h`. */
  ghost predicate Ring(fd: map<Ptr, Ptr>, bk: map<Ptr, Ptr>, h: Ptr, l: seq<Ptr>) {
    && h in fd && h in bk
    && (l != [] ==> fd[h] == l[0] && bk[h] == l[|l| - 1])
    && forall k: nat {:trigger LinkOk(fd, bk, h, l, k)} :: LinkOk(fd, bk, h, l, k)
  }

  lemma RingInsert(fd: map<Ptr, Ptr>, bk: map<Ptr, Ptr>, h: Ptr, l: seq<Ptr>, p: Ptr)
    requires Ring(fd, bk, h, l) && Distinct(l) && p > 0 > h && p !in l
    ensures var f := if l == [] then h else fd[h];
      Ring(fd[h := p][p := f], bk[f := p][p := h], h, [p] + l)
  {
    var f, l' := if l == [] then h else fd[h], [p] + l;
    var fd', bk' := fd[h := p][p := f], bk[f := p][p := h];
    if l != [] { assert LinkOk(fd, bk, h, l, 0) && LinkOk(fd, bk, h, l, |l| - 1); }
    forall k: nat ensures LinkOk(fd', bk', h, l', k) {
      if 0 < k < |l'| { assert LinkOk(fd, bk, h, l, k - 1) && l'[k] == l[k - 1]; }
    }
  }

  /** The neighbours of a node are the same only if the node is alone. */
  lemma Neighbours(fd: map<Ptr, Ptr>, bk: map<Ptr, Ptr>, h: Ptr, l: seq<Ptr>, k: nat)
    requires Ring(fd, bk, h, l) && Distinct(l) && h < 0 && k < |l|
    ensures l[k] in fd && l[k] in bk && (fd[l[k]] == bk[l[k]] <==> |l| == 1)
    ensures fd[l[k]] in fd && fd[l[k]] in bk && bk[l[k]] in fd && bk[l[k]] in bk
    ensures fd[l[k]] != l[k] && bk[l[k]] != l[k]
    ensures bk[fd[l[k]]] == l[k] && fd[bk[l[k]]] == l[k]
  {
    assert LinkOk(fd, bk, h, l, k);
    if k > 0 { assert LinkOk(fd, bk, h, l, k - 1); }
    if k + 1 < |l| { assert LinkOk(fd, bk, h, l, k + 1); }
  }

  lemma RingRemove(fd: map<Ptr, Ptr>, bk: map<Ptr, Ptr>, h: Ptr, l: seq<Ptr>, k: nat)
    requires Ring(fd, bk, h, l) && Distinct(l) && h < 0 && k < |l| && |l| > 1
    ensures var p := l[k];
      && p in fd && p in bk
      && var f, b := fd[p], bk[p];
      Ring(fd[b := f], bk[f := b], h, l[..k] + l[k + 1..])
  {
    var p, l' := l[k], l[..k] + l[k + 1..];
    assert LinkOk(fd, bk, h, l, k);
    var f, b := fd[p], bk[p];
    var fd', bk' := fd[b := f], bk[f := b];
    if k > 0 { assert LinkOk(fd, bk, h, l, k - 1); }
    if k + 1 < |l| { assert LinkOk(fd, bk, h, l, k + 1); }
    assert l'[0] == (if k == 0 then l[1] else l[0]) && l'[|l'| - 1] == (if k == |l| - 1 then l[k - 1] else l[|l| - 1]);
    forall j: nat ensures LinkOk(fd', bk', h, l', j) {
      if j < |l'| {
        var i := if j < k then j else j + 1;
        assert l'[j] == l[i] && LinkOk(fd, bk, h, l, i);
      }
    }
  }

  lemma DistinctRemove(l: seq<Ptr>, k: nat)
    requires Distinct(l) && k < |l|
    ensures Distinct(l[..k] + l[k + 1..]) && l[k] !in l[..k] + l[k + 1..]
    ensures forall x :: x in l[..k] + l[k + 1..] <==> x in l && x != l[k]
  {
    var l' := l[..k] + l[k + 1..];
    forall x | x in l && x != l[k] ensures x in l' {
      var j :| 0 <= j < |l| && l[j] == x;
      assert l'[if j < k then j else j - 1] == x;
    }
  }

  /** Writes elsewhere do not disturb a ring. */
  lemma RingKept(fd: map<Ptr, Ptr>, bk: map<Ptr, Ptr>, fd': map<Ptr, Ptr>, bk': map<Ptr, Ptr>, h: Ptr, l: seq<Ptr>)
    requires Ring(fd, bk, h, l) && h in fd' && h in bk' && fd'[h] == fd[h] && bk'[h] == bk[h]
    requires forall x | x in l && x in fd && x in bk :: x in fd' && x in bk' && fd'[x] == fd[x] && bk'[x] == bk[x]
    ensures Ring(fd', bk', h, l)
  {
    forall k: nat ensures LinkOk(fd', bk', h, l, k) {
      assert LinkOk(fd, bk, h, l, k);
      if k < |l| { assert l[k] in l; }
    }
  }

  // ---------- All bins ----------

  datatype Shelf = Shelf(fd: map<Ptr, Ptr>, bk: map<Ptr, Ptr>, smallmap: BinMap.Word, bins: seq<seq<Ptr>>,
    at: map<Ptr, nat>) {

    ghost predicate BinOk(i: nat) {
      i < NSMALLBINS && |bins| == NSMALLBINS ==>
        && Ring(fd, bk, Header(i), bins[i]) && Distinct(bins[i])
        && (BinMap.Marked(smallmap, i) <==> bins[i] != [])
        && (bins[i] != [] ==> i >= 2)
    }

    ghost predicate NodeOk(i: nat, x: Ptr) {
      i < NSMALLBINS && |bins| == NSMALLBINS ==> (x in bins[i] <==> x in at && at[x] == i)
    }

    ghost predicate Ok() {
      && |bins| == NSMALLBINS
      && (forall x {:trigger x in at} :: x in at ==> 2 <= at[x] < NSMALLBINS)
      && (forall i: nat {:trigger BinOk(i)} :: BinOk(i))
      && (forall i: nat, x {:trigger NodeOk(i, x)} :: NodeOk(i, x))
    }

    /** The chunks held in the bins, with their sizes. */
    ghost function Contents(): map<Ptr, nat> { map x | x in at :: 8 * at[x] }
  }

  /** A marked bin holds a chunk. */
  lemma MarkedHolds(s: Shelf, i: nat)
    requires s.Ok() && i < NSMALLBINS && BinMap.Marked(s.smallmap, i)
    ensures exists x :: x in s.Contents()
  {
    assert s.BinOk(i) && s.NodeOk(i, s.bins[i][0]) && s.bins[i][0] in s.bins[i];
    assert s.bins[i][0] in s.Contents();
  }

  /** A chunk held has its bin marked. */
  lemma HeldMarked(s: Shelf, x: Ptr)
    requires s.Ok() && x in s.Contents()
    ensures s.Contents()[x] == 8 * s.at[x] && s.at[x] < NSMALLBINS && BinMap.Marked(s.smallmap, s.at[x])
  {
    assert s.NodeOk(s.at[x], x) && s.BinOk(s.at[x]);
  }

  /** Putting a chunk in front of a bin. */
  ghost function Inserted(s: Shelf, i: nat, p: Ptr): Shelf
    requires |s.bins| == NSMALLBINS && i < NSMALLBINS && Header(i) in s.fd
  {
    var h := Header(i);
    var f := if BinMap.Marked(s.smallmap, i) then s.fd[h] else h;
    Shelf(s.fd[h := p][p := f], s.bk[f := p][p := h],
          if BinMap.Marked(s.smallmap, i) then s.smallmap else BinMap.Mark(s.smallmap, i),
          s.bins[i := [p] + s.bins[i]], s.at[p := i])
  }

  lemma InsertedOk(s: Shelf, i: nat, p: Ptr)
    requires s.Ok() && 2 <= i < NSMALLBINS && p > 0 && p !in s.at
    ensures Header(i) in s.fd && Inserted(s, i, p).Ok() && Inserted(s, i, p).Contents() == s.Contents()[p := 8 * i]
  {
    assert s.BinOk(i) && s.NodeOk(i, p);
    var s' := Inserted(s, i, p);
    RingInsert(s.fd, s.bk, Header(i), s.bins[i], p);
    forall j: nat ensures s'.BinOk(j) {
      assert s.BinOk(j) && s.NodeOk(j, p);
      if j < NSMALLBINS {
        BinMap.MarkAndClear(s.smallmap, i, j);
        if j != i { InsertApart(s, i, p, j); }
      }
    }
    forall j: nat, x ensures s'.NodeOk(j, x) { assert s.NodeOk(j, x) && s.NodeOk(i, x); }
  }

  lemma InsertApart(s: Shelf, i: nat, p: Ptr, j: nat)
    requires s.Ok() && i < NSMALLBINS && j < NSMALLBINS && i != j && p > 0 && p !in s.at && Header(i) in s.fd
    ensures var s' := Inserted(s, i, p); Ring(s'.fd, s'.bk, Header(j), s.bins[j])
  {
    assert s.BinOk(i) && s.BinOk(j);
    var s' := Inserted(s, i, p);
    if s.bins[i] != [] { assert LinkOk(s.fd, s.bk, Header(i), s.bins[i], 0) && s.bins[i][0] in s.bins[i]; }
    forall x | x in s.bins[j] && x in s.fd && x in s.bk
      ensures x in s'.fd && x in s'.bk && s'.fd[x] == s.fd[x] && s'.bk[x] == s.bk[x] {
      var k :| 0 <= k < |s.bins[j]| && s.bins[j][k] == x;
      assert LinkOk(s.fd, s.bk, Header(j), s.bins[j], k) && s.NodeOk(j, x) && s.NodeOk(i, x);
    }
    RingKept(s.fd, s.bk, s'.fd, s'.bk, Header(j), s.bins[j]);
  }

  /** Taking the `k`-th chunk out of a bin: a lone chunk only clears the bin's bit. */
  ghost function Removed(s: Shelf, i: nat, k: nat): Shelf
    requires |s.bins| == NSMALLBINS && i < NSMALLBINS && k < |s.bins[i]| && s.bins[i][k] in s.fd && s.bins[i][k] in s.bk
  {
    var p, l' := s.bins[i][k], s.bins[i][..k] + s.bins[i][k + 1..];
    var f, b := s.fd[p], s.bk[p];
    if f == b then Shelf(s.fd, s.bk, BinMap.Clear(s.smallmap, i), s.bins[i := l'], s.at - {p})
    else Shelf(s.fd[b := f], s.bk[f := b], s.smallmap, s.bins[i := l'], s.at - {p})
  }

  lemma RemovedOk(s: Shelf, i: nat, k: nat)
    requires s.Ok() && i < NSMALLBINS && k < |s.bins[i]|
    ensures s.bins[i][k] in s.fd && s.bins[i][k] in s.bk && Removed(s, i, k).Ok()
    ensures Removed(s, i, k).Contents() == s.Contents() - {s.bins[i][k]}
  {
    var l, p := s.bins[i], s.bins[i][k];
    assert s.BinOk(i) && s.NodeOk(i, p) && p in l;
    Neighbours(s.fd, s.bk, Header(i), l, k);
    DistinctRemove(l, k);
    var s' := Removed(s, i, k);
    if |l| > 1 { RingRemove(s.fd, s.bk, Header(i), l, k); }
    forall j: nat ensures s'.BinOk(j) {
      assert s.BinOk(j);
      if j < NSMALLBINS {
        BinMap.MarkAndClear(s.smallmap, i, j);
        if j != i { RemoveApart(s, i, k, j); }
      }
    }
    forall j: nat, x ensures s'.NodeOk(j, x) { assert s.NodeOk(j, x) && s.NodeOk(i, x); }
  }

  lemma RemoveApart(s: Shelf, i: nat, k: nat, j: nat)
    requires s.Ok() && i < NSMALLBINS && j < NSMALLBINS && i != j && k < |s.bins[i]|
    requires s.bins[i][k] in s.fd && s.bins[i][k] in s.bk
    ensures var s' := Removed(s, i, k); Ring(s'.fd, s'.bk, Header(j), s.bins[j])
  {
    var l, p := s.bins[i], s.bins[i][k];
    assert s.BinOk(i) && s.BinOk(j);
    var s' := Removed(s, i, k);
    assert LinkOk(s.fd, s.bk, Header(i), l, k);
    if k > 0 { assert LinkOk(s.fd, s.bk, Header(i), l, k - 1) && l[k - 1] in l; }
    if k + 1 < |l| { assert LinkOk(s.fd, s.bk, Header(i), l, k + 1) && l[k + 1] in l; }
    forall x | x in s.bins[j] && x in s.fd && x in s.bk
      ensures x in s'.fd && x in s'.bk && s'.fd[x] == s.fd[x] && s'.bk[x] == s.bk[x] {
      var n :| 0 <= n < |s.bins[j]| && s.bins[j][n] == x;
      assert LinkOk(s.fd, s.bk, Header(j), s.bins[j], n) && s.NodeOk(j, x) && s.NodeOk(i, x);
    }
    RingKept(s.fd, s.bk, s'.fd, s'.bk, Header(j), s.bins[j]);
  }

  class SmallBins {
    var fd: map<Ptr, Ptr>
    var bk: map<Ptr, Ptr>
    var smallmap: BinMap.Word
    ghost var bins: seq<seq<Ptr>>
    ghost var at: map<Ptr, nat>

    ghost function View(): Shelf
      reads this
    {
      Shelf(fd, bk, smallmap, bins, at)
    }

    ghost predicate Valid()
      reads this
    {
      View().Ok()
    }

    /** Empty bins: every header is linked to itself. */
    constructor ()
      ensures Valid() && View().Contents() == map[]
    {
      var links := map[];
      for i := 0 to NSMALLBINS
        invariant forall j: nat | j < i :: Header(j) in links
      {
        links := links[Header(i) := Header(i)];
      }
      fd, bk, smallmap := links, links, BinMap.EMPTY;
      bins, at := seq(NSMALLBINS, _ => []), map[];
      new;
      forall i: nat ensures View().BinOk(i) {
        if i < NSMALLBINS { BinMap.MarkedIsBit(BinMap.EMPTY, i); }
      }
    }

    /** Links a free chunk into the bin of its size, at the front. */
    method InsertSmall(p: Ptr, s: nat)
      requires Valid() && SmallSize(s) && p > 0 && p !in at
      modifies this
      ensures Valid() && View().Contents() == old(View().Contents())[p := s]
    {
      var i := SmallIndex(s);
      ghost var v := View();
      InsertedOk(v, i, p);
      assert v.BinOk(i);
      var b := Header(i);
      var f := b;
      if !BinMap.Marked(smallmap, i) {
        smallmap := BinMap.Mark(smallmap, i);
      } else {
        f := fd[b];
      }
      fd := fd[b := p];
      bk := bk[f := p];
      fd := fd[p := f];
      bk := bk[p := b];
      bins := bins[i := [p] + bins[i]];
      at := at[p := i];
      assert View() == Inserted(v, i, p);
    }

    /** Unlinks a chunk from the bin of its size. */
    method UnlinkSmall(p: Ptr, s: nat)
      requires Valid() && p in at && s == 8 * at[p]
      modifies this
      ensures Valid() && View().Contents() == old(View().Contents()) - {p}
    {
      var i := SmallIndex(s);
      ghost var v := View();
      assert v.NodeOk(i, p);
      ghost var k :| 0 <= k < |bins[i]| && bins[i][k] == p;
      RemovedOk(v, i, k);
      var f, b := fd[p], bk[p];
      if b == f {
        smallmap := BinMap.Clear(smallmap, i);
      } else {
        assert v.BinOk(i);
        Neighbours(fd, bk, Header(i), bins[i], k);
        bk := bk[f := b];
        fd := fd[b := f];
      }
      bins := bins[i := bins[i][..k] + bins[i][k + 1..]];
      at := at - {p};
      assert View() == Removed(v, i, k);
    }

    /** Unlinks the first chunk of a bin that is not empty. */
    method UnlinkFirstSmall(i: nat) returns (p: Ptr)
      requires Valid() && i < NSMALLBINS && BinMap.Marked(smallmap, i)
      modifies this
      ensures Valid() && p in old(at) && old(at[p]) == i && View().Contents() == old(View().Contents()) - {p}
    {
      ghost var v := View();
      assert v.BinOk(i);
      var b := Header(i);
      p := fd[b];
      assert v.NodeOk(i, p) && p in bins[i];
      RemovedOk(v, i, 0);
      Neighbours(fd, bk, b, bins[i], 0);
      assert LinkOk(fd, bk, b, bins[i], 0);
      var f := fd[p];
      if b == f {
        smallmap := BinMap.Clear(smallmap, i);
      } else {
        bk := bk[f := b];
        fd := fd[b := f];
      }
      bins := bins[i := bins[i][..0] + bins[i][0 + 1..]];
      at := at - {p};
      assert View() == Removed(v, i, 0);
    }
  }
}
