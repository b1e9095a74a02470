/**
  The tree bins: one bitwise trie of free chunks per size range. Nodes are addressed by
  pointers and updated in place; chunks of one size hang off one node as a circular list.
 */
module TreeBins {
  import opened SizeBits
  import BinMap

  /** A chunk address; zero is the null pointer. */
  type Ptr = int

  const NULL: Ptr := 0

  /** What a chunk's parent field holds: nothing, the address of a bin's slot, or a tree node. */
  datatype Up = NoParent | Slot(bin: nat) | Node(node: Ptr)

  datatype TreeChunk = TreeChunk(size: nat, fd: Ptr, bk: Ptr, left: Ptr, right: Ptr, parent: Up, index: nat) {
    function Child(right?: bool): Ptr {
      if right? then right else left
    }

    function WithChild(right?: bool, p: Ptr): TreeChunk {
      if right? then this.(right := p) else this.(left := p)
    }
  }

  predicate LargeSize(s: nat) {
    MIN_LARGE <= s < INDEX_LIMIT
  }

  /**
    The bins with their shape made explicit: `path` gives every tree node the branches from
    its bin's root down to it, `chain` the circular list of the chunks of its size.
   */
  datatype Forest = Forest(
    mem: map<Ptr, TreeChunk>, roots: seq<Ptr>, treemap: BinMap.Word,
    path: map<Ptr, seq<bool>>, chain: map<Ptr, seq<Ptr>>)
  {
    function Size(p: Ptr): nat
      requires p in mem
    {
      mem[p].size
    }

    ghost predicate NodeOk(p: Ptr)
      requires p in path
    {
      p in mem && p in chain && LargeSize(Size(p)) && mem[p].index < NTREEBINS && |path[p]| <= 64
    }

    ghost predicate NodesOk() {
      NULL !in path && path.Keys <= mem.Keys && forall p {:trigger NodeOk(p)} | p in path :: NodeOk(p)
    }

    /** A node is in the bin of its size, on the branch its size prescribes. */
    ghost predicate KeyOk(p: Ptr)
      requires p in path && p in mem && LargeSize(Size(p)) && mem[p].index < NTREEBINS
    {
      mem[p].index == TreeIndex(Size(p)) && path[p] <= Path(Size(p), mem[p].index)
    }

    ghost predicate KeysOk()
      requires NodesOk()
    {
      forall p {:trigger KeyOk(p)} | p in path :: NodeOk(p) && KeyOk(p)
    }

    ghost predicate ParentOk(p: Ptr)
      requires NodesOk() && |roots| == NTREEBINS && p in path
    {
      var c, q := mem[p], path[p];
      NodeOk(p) &&
      if q == [] then c.parent == Slot(c.index) && roots[c.index] == p
      else
        && c.parent.Node? && c.parent.node in path
        && path[c.parent.node] == q[..|q| - 1]
        && mem[c.parent.node].index == c.index
        && mem[c.parent.node].Child(q[|q| - 1]) == p
    }

    ghost predicate ChildOk(p: Ptr, b: bool)
      requires NodesOk() && p in path
    {
      var k := mem[p].Child(b);
      k != NULL ==>
        && k in path && path[k] == path[p] + [b]
        && mem[k].parent == Node(p) && mem[k].index == mem[p].index
    }

    ghost predicate LinksOk()
      requires NodesOk() && |roots| == NTREEBINS
    {
      && (forall p {:trigger ParentOk(p)} | p in path :: ParentOk(p))
      && (forall p, b {:trigger ChildOk(p, b)} | p in path :: ChildOk(p, b))
    }

    ghost predicate RootOk(i: nat)
      requires NodesOk() && |roots| == NTREEBINS && i < NTREEBINS
    {
      && (roots[i] != NULL ==> roots[i] in path && path[roots[i]] == [] && mem[roots[i]].index == i)
      && (BinMap.Marked(treemap, i) <==> roots[i] != NULL)
    }

    /** Tree links agree in both directions, and every node lies on the branch its size prescribes. */
    ghost predicate TreesOk() {
      && |roots| == NTREEBINS
      && path.Keys == chain.Keys
      && NodesOk() && KeysOk() && LinksOk()
      && (forall i {:trigger RootOk(i)} | 0 <= i < NTREEBINS :: RootOk(i))
      && (forall p, q {:trigger Apart(p, q)} | p in path && q in path :: Apart(p, q))
    }

    /** Tree sizes are unique. */
    ghost predicate Apart(p: Ptr, q: Ptr)
      requires p in mem && q in mem
    {
      Size(p) == Size(q) ==> p == q
    }

    /** The chunk after position `k` of the circular list of node `p`. */
    function After(p: Ptr, k: nat): Ptr
      requires p in chain && k < |chain[p]|
    {
      if k + 1 == |chain[p]| then chain[p][0] else chain[p][k + 1]
    }

    ghost predicate LinkOk(p: Ptr, k: nat)
      requires p in chain && p in mem && k < |chain[p]|
    {
      var x, y := chain[p][k], After(p, k);
      && x != NULL && x in mem && y in mem
      && mem[x].fd == y && mem[y].bk == x
      && mem[x].size == mem[p].size && mem[x].index == mem[p].index
      && (k > 0 ==> mem[x].parent == NoParent && mem[x].left == NULL && mem[x].right == NULL)
    }

    ghost predicate ChainOk(p: Ptr)
      requires p in chain && p in mem
    {
      && |chain[p]| > 0 && chain[p][0] == p
      && (forall k {:trigger LinkOk(p, k)} | 0 <= k < |chain[p]| :: LinkOk(p, k))
      && (forall j, k | 0 <= j < k < |chain[p]| :: chain[p][j] != chain[p][k])
    }

    ghost predicate Ok() {
      TreesOk() && forall p {:trigger ChainOk(p)} | p in chain :: ChainOk(p)
    }

    ghost predicate Holds(x: Ptr) {
      exists p :: p in chain && x in chain[p]
    }

    /** The chunks held in the bins, with their sizes. */
    ghost function Contents(): map<Ptr, nat> {
      map x | x in mem && Holds(x) :: mem[x].size
    }
  }

  // ---------- Shape of a trie ----------

  /** `q` lies in the subtree of `t`. */
  ghost predicate Below(f: Forest, t: Ptr, q: Ptr)
    requires f.NodesOk()
  {
    t in f.path && q in f.path && f.mem[t].index == f.mem[q].index && f.path[t] <= f.path[q]
  }

  /** A place in a bin is taken by at most one node. */
  lemma {:induction false} OneNodePerPlace(f: Forest, p: Ptr, q: Ptr)
    requires f.TreesOk() && p in f.path && q in f.path
    requires f.mem[p].index == f.mem[q].index && f.path[p] == f.path[q]
    ensures p == q
    decreases |f.path[p]|
  {
    assert f.ParentOk(p) && f.ParentOk(q);
    if f.path[p] != [] {
      OneNodePerPlace(f, f.mem[p].parent.node, f.mem[q].parent.node);
    }
  }

  /** Every prefix of a node's path is the path of a node: its ancestor at that depth. */
  lemma {:induction false} Ancestor(f: Forest, q: Ptr, n: nat) returns (a: Ptr)
    requires f.TreesOk() && q in f.path && n <= |f.path[q]|
    ensures Below(f, a, q) && f.path[a] == f.path[q][..n]
    decreases |f.path[q]|
  {
    assert f.ParentOk(q);
    if n == |f.path[q]| {
      a := q;
    } else {
      a := Ancestor(f, f.mem[q].parent.node, n);
    }
  }

  /** A node strictly below `t` is below the child of `t` on its side. */
  lemma BelowChild(f: Forest, t: Ptr, q: Ptr)
    requires f.TreesOk() && Below(f, t, q) && t != q
    ensures |f.path[t]| < |f.path[q]|
    ensures var k := f.mem[t].Child(f.path[q][|f.path[t]|]); k != NULL && Below(f, k, q)
  {
    if f.path[t] == f.path[q] { OneNodePerPlace(f, t, q); }
    var n := |f.path[t]|;
    var a := Ancestor(f, q, n + 1);
    assert f.ParentOk(a);
    assert f.path[a][..n] == f.path[t];
    OneNodePerPlace(f, f.mem[a].parent.node, t);
  }

  /** In one bin, the first branch on which two paths part orders their sizes. */
  lemma BranchOrder(f: Forest, p: Ptr, q: Ptr, d: nat)
    requires f.TreesOk() && p in f.path && q in f.path && f.mem[p].index == f.mem[q].index
    requires d < |f.path[p]| && d < |f.path[q]| && f.path[p][..d] == f.path[q][..d]
    requires !f.path[p][d] && f.path[q][d]
    ensures f.Size(p) < f.Size(q)
  {
    SizeOnPath(f, p, d);
    SizeOnPath(f, q, d);
    PathOrder(f.Size(p), f.Size(q), f.mem[p].index, d);
  }

  lemma SizeOnPath(f: Forest, p: Ptr, d: nat)
    requires f.TreesOk() && p in f.path && d < |f.path[p]|
    ensures f.NodeOk(p) && d < 64 && InBin(f.Size(p), f.mem[p].index)
    ensures Path(f.Size(p), f.mem[p].index)[..d] == f.path[p][..d]
    ensures Path(f.Size(p), f.mem[p].index)[d] == f.path[p][d]
  {
    assert f.NodeOk(p) && f.KeyOk(p);
    TreeIndexBounds(f.Size(p));
  }

  /** Bins order nodes as sizes do. */
  lemma BinsOrderNodes(f: Forest, p: Ptr, q: Ptr)
    requires f.TreesOk() && p in f.path && q in f.path && f.mem[p].index < f.mem[q].index
    ensures f.Size(p) < f.Size(q)
  {
    assert f.NodeOk(p) && f.KeyOk(p) && f.NodeOk(q) && f.KeyOk(q);
    LowerBinSmallerSize(f.Size(p), f.Size(q));
  }

  lemma BinsOrderRequest(f: Forest, q: Ptr, nb: nat)
    requires f.TreesOk() && q in f.path && LargeSize(nb)
    ensures f.mem[q].index < TreeIndex(nb) ==> f.Size(q) < nb
    ensures TreeIndex(nb) < f.mem[q].index ==> nb < f.Size(q)
  {
    assert f.NodeOk(q) && f.KeyOk(q);
    if f.mem[q].index < TreeIndex(nb) { LowerBinSmallerSize(f.Size(q), nb); }
    if TreeIndex(nb) < f.mem[q].index { LowerBinSmallerSize(nb, f.Size(q)); }
  }

  // ---------- Best fit ----------

  /** Unsigned 64-bit subtraction. */
  function Minus(a: nat, b: nat): nat
    requires a < WORD && b < WORD
  {
    if a >= b then a - b else WORD + a - b
  }

  /** The candidate so far: none, or a node of size `nb + rsize`. */
  ghost predicate Candidate(f: Forest, nb: nat, v: Ptr, rsize: nat)
    requires f.NodesOk()
  {
    if v == NULL then rsize == WORD - nb else v in f.path && f.NodeOk(v) && f.Size(v) == nb + rsize
  }

  /** Searching the subtree of `t` cannot miss a better fit at `q`. */
  ghost predicate Waiting(f: Forest, t: Ptr, q: Ptr)
    requires f.NodesOk() && q in f.path
  {
    t in f.path && (Below(f, t, q) || f.Size(t) < f.Size(q))
  }

  /** `q` is no better than the candidate, or the subtree of `t` or of `r` still has to be searched for it. */
  ghost predicate Covered(f: Forest, nb: nat, rsize: nat, t: Ptr, r: Ptr, q: Ptr)
    requires f.NodesOk() && q in f.path
  {
    rsize <= f.Size(q) - nb || Below(f, t, q) || Waiting(f, r, q)
  }

  /** `r` is null, or the right child not taken where the path of `nb` went left, above depth `d`. */
  ghost predicate Untaken(f: Forest, nb: nat, idx: nat, d: nat, r: Ptr)
    requires f.NodesOk() && nb < WORD && idx < NTREEBINS
  {
    r != NULL ==>
      && r in f.path && f.NodeOk(r) && f.mem[r].index == idx && 0 < |f.path[r]| <= d
      && var e := |f.path[r]| - 1;
      && f.path[r][e] && !Path(nb, idx)[e] && f.path[r][..e] == Path(nb, idx)[..e]
  }

  /** Everything in an untaken right subtree is larger than the request. */
  lemma UntakenIsLarger(f: Forest, nb: nat, idx: nat, d: nat, r: Ptr, q: Ptr)
    requires f.TreesOk() && LargeSize(nb) && InBin(nb, idx)
    requires r != NULL && Untaken(f, nb, idx, d, r) && Below(f, r, q)
    ensures nb < f.Size(q)
  {
    var e := |f.path[r]| - 1;
    SizeOnPath(f, q, e);
    assert f.path[q][..e] == f.path[r][..e];
    PathOrder(nb, f.Size(q), idx, e);
  }

  /** A deeper untaken right subtree holds only smaller sizes. */
  lemma DeeperIsSmaller(f: Forest, nb: nat, idx: nat, d: nat, r: Ptr, r': Ptr, q: Ptr)
    requires f.TreesOk() && nb < WORD && idx < NTREEBINS
    requires r != NULL && Untaken(f, nb, idx, d, r) && Below(f, r, q)
    requires r' != NULL && Untaken(f, nb, idx, d + 1, r') && |f.path[r']| == d + 1
    ensures f.Size(r') < f.Size(q)
  {
    var e := |f.path[r]| - 1;
    assert f.path[q][..e] == f.path[r][..e];
    var p := Path(nb, idx);
    assert d < |p|;
    assert f.path[r'][..e] == f.path[r'][..d][..e] == p[..d][..e] == p[..e];
    assert f.path[r'][e] == f.path[r'][..d][e] == p[..d][e];
    BranchOrder(f, r', q, e);
  }

  /** The walk for `nb` stands at `t`, and `b` is the next branch of `nb`. */
  ghost predicate OnPath(f: Forest, nb: nat, idx: nat, t: Ptr, b: bool)
    requires f.NodesOk() && nb < WORD && idx < NTREEBINS
  {
    && t in f.path && f.mem[t].index == idx && f.path[t] <= Path(nb, idx)
    && (|f.path[t]| < 64 ==> b == Path(nb, idx)[|f.path[t]|])
  }

  /** The deepest untaken right subtree after leaving `t` towards `t'`. */
  function NextUntaken(f: Forest, t: Ptr, t': Ptr, r: Ptr): Ptr
    requires t in f.mem
  {
    if f.mem[t].right != NULL && f.mem[t].right != t' then f.mem[t].right else r
  }

  lemma UntakenStep(f: Forest, nb: nat, idx: nat, t: Ptr, r: Ptr, b: bool)
    requires f.TreesOk() && nb < WORD && idx < NTREEBINS && OnPath(f, nb, idx, t, b)
    requires Untaken(f, nb, idx, |f.path[t]|, r)
    ensures var r' := NextUntaken(f, t, f.mem[t].Child(b), r);
      && Untaken(f, nb, idx, |f.path[t]| + 1, r')
      && (r' != r ==> r' != NULL && |f.path[r']| == |f.path[t]| + 1)
  {
    var r' := NextUntaken(f, t, f.mem[t].Child(b), r);
    if r' != r {
      assert f.ChildOk(t, true) && f.NodeOk(r');
      var d, p := |f.path[t]|, f.path[r'];
      assert p == f.path[t] + [true];
      assert d < 64 by { assert |p| <= |Path(f.Size(r'), f.mem[r'].index)|; }
      assert !b && !Path(nb, idx)[d];
      assert p[..d] == f.path[t] == Path(nb, idx)[..d];
    }
  }

  lemma DescendBelow(f: Forest, nb: nat, idx: nat, t: Ptr, r: Ptr, b: bool, q: Ptr)
    requires f.TreesOk() && LargeSize(nb) && InBin(nb, idx) && OnPath(f, nb, idx, t, b)
    requires Below(f, t, q) && q != t && nb <= f.Size(q)
    ensures var t' := f.mem[t].Child(b);
      Below(f, t', q) || Below(f, NextUntaken(f, t, t', r), q)
  {
    var d := |f.path[t]|;
    BelowChild(f, t, q);
    SizeOnPath(f, q, d);
    if f.path[q][d] != b {
      if b {
        assert Path(f.Size(q), idx)[..d] == f.path[q][..d] == f.path[t] == Path(nb, idx)[..d];
        PathOrder(f.Size(q), nb, idx, d);
        assert false;
      }
      assert f.ChildOk(t, true) && f.ChildOk(t, false);
      assert f.path[f.mem[t].right] == f.path[t] + [true];
      if f.mem[t].left != NULL { assert f.path[f.mem[t].left][d] == false; }
    }
  }

  /** One step down the path of `nb`: the taken child and the deepest untaken right subtree cover what `t` covered. */
  lemma DescendStep(f: Forest, nb: nat, idx: nat, rsize: nat, t: Ptr, r: Ptr, b: bool, q: Ptr)
    requires f.TreesOk() && LargeSize(nb) && InBin(nb, idx) && OnPath(f, nb, idx, t, b)
    requires Untaken(f, nb, idx, |f.path[t]|, r)
    requires q in f.path && f.mem[q].index == idx && nb <= f.Size(q)
    requires nb <= f.Size(t) ==> rsize <= f.Size(t) - nb
    requires Covered(f, nb, rsize, t, r, q)
    ensures var t' := f.mem[t].Child(b); Covered(f, nb, rsize, t', NextUntaken(f, t, t', r), q)
  {
    if Below(f, t, q) && q != t {
      DescendBelow(f, nb, idx, t, r, b, q);
    } else if q != t && Waiting(f, r, q) {
      var r' := NextUntaken(f, t, f.mem[t].Child(b), r);
      UntakenStep(f, nb, idx, t, r, b);
      if r' != r && r != NULL {
        if Below(f, r, q) { DeeperIsSmaller(f, nb, idx, |f.path[t]|, r, r', q); }
        DeeperIsSmaller(f, nb, idx, |f.path[t]|, r, r', r);
      }
    }
  }

  /** One step of the leftmost walk: the leftmost child covers what `t` covered. */
  lemma LeftmostStep(f: Forest, nb: nat, rsize: nat, t: Ptr, t': Ptr, q: Ptr)
    requires f.TreesOk() && t in f.path && q in f.path && nb <= f.Size(q)
    requires nb <= f.Size(t) && rsize <= f.Size(t) - nb
    requires t' == if f.mem[t].left != NULL then f.mem[t].left else f.mem[t].right
    requires rsize <= f.Size(q) - nb || Waiting(f, t, q)
    ensures rsize <= f.Size(q) - nb || Waiting(f, t', q)
  {
    assert f.ChildOk(t, true) && f.ChildOk(t, false);
    if Below(f, t, q) && q != t {
      BelowChild(f, t, q);
      var d := |f.path[t]|;
      if f.path[q][d] && t' == f.mem[t].left {
        assert f.path[q][..d] == f.path[t] == f.path[t'][..d];
        BranchOrder(f, t', q, d);
      }
    }
  }

  /** No node of bin `idx` that fits is lost while `t` and `r` are still to be searched. */
  ghost predicate BinCovered(f: Forest, nb: nat, idx: nat, rsize: nat, t: Ptr, r: Ptr)
    requires f.NodesOk()
  {
    forall q | q in f.path && f.mem[q].index == idx && nb <= f.Size(q) :: Covered(f, nb, rsize, t, r, q)
  }

  /** The state of the walk at node `t`, with `key` holding the branches still to come. */
  ghost predicate Walking(f: Forest, nb: nat, idx: nat, t: Ptr, r: Ptr, key: nat)
    requires f.NodesOk() && nb < WORD && idx < NTREEBINS
  {
    && t in f.path && f.mem[t].index == idx && f.path[t] <= Path(nb, idx)
    && key < WORD && Bits(key, 64 - |f.path[t]|) == Path(nb, idx)[|f.path[t]|..]
    && Untaken(f, nb, idx, |f.path[t]|, r)
  }

  lemma WalkStarts(f: Forest, nb: nat, idx: nat)
    requires f.TreesOk() && nb < WORD && idx < NTREEBINS && f.roots[idx] != NULL
    ensures Walking(f, nb, idx, f.roots[idx], NULL, Key(nb, idx))
    ensures BinCovered(f, nb, idx, WORD - nb, f.roots[idx], NULL)
  {
    assert f.RootOk(idx);
  }

  lemma EmptyBinCovered(f: Forest, nb: nat, idx: nat)
    requires f.TreesOk() && nb < WORD && idx < NTREEBINS && f.roots[idx] == NULL
    ensures BinCovered(f, nb, idx, WORD - nb, NULL, NULL)
  {
    forall q | q in f.path && f.mem[q].index == idx && nb <= f.Size(q)
      ensures Covered(f, nb, WORD - nb, NULL, NULL, q)
    {
      var a := Ancestor(f, q, 0);
      assert f.ParentOk(a);
    }
  }

  lemma WalkContinues(f: Forest, nb: nat, idx: nat, t: Ptr, r: Ptr, key: nat)
    requires f.TreesOk() && nb < WORD && idx < NTREEBINS && Walking(f, nb, idx, t, r, key)
    ensures OnPath(f, nb, idx, t, TopBit(key))
    ensures var t' := f.mem[t].Child(TopBit(key));
      && Untaken(f, nb, idx, |f.path[t]| + 1, NextUntaken(f, t, t', r))
      && (t' != NULL ==>
            && t' in f.path && |f.path[t]| < |f.path[t']| <= 64
            && Walking(f, nb, idx, t', NextUntaken(f, t, t', r), Shl(key)))
  {
    var d, b, p := |f.path[t]|, TopBit(key), Path(nb, idx);
    assert d < 64 ==> p[d] == p[d..][0];
    UntakenStep(f, nb, idx, t, r, b);
    assert f.ChildOk(t, b);
    var t' := f.mem[t].Child(b);
    if t' != NULL {
      assert f.NodeOk(t') && d + 1 <= 64;
      assert f.path[t'] == p[..d + 1];
      assert p[d + 1..] == p[d..][1..] == Bits(Shl(key), 64 - (d + 1));
    }
  }

  lemma WalkCovers(f: Forest, nb: nat, idx: nat, rsize: nat, t: Ptr, r: Ptr, key: nat)
    requires f.TreesOk() && nb < WORD && idx == TreeIndex(nb) < NTREEBINS && Walking(f, nb, idx, t, r, key)
    requires MIN_LARGE <= nb && (nb <= f.Size(t) ==> rsize <= f.Size(t) - nb)
    requires BinCovered(f, nb, idx, rsize, t, r)
    ensures var t' := f.mem[t].Child(TopBit(key));
      BinCovered(f, nb, idx, rsize, t', NextUntaken(f, t, t', r))
  {
    var t' := f.mem[t].Child(TopBit(key));
    WalkContinues(f, nb, idx, t, r, key);
    forall q | q in f.path && f.mem[q].index == idx && nb <= f.Size(q)
      ensures Covered(f, nb, rsize, t', NextUntaken(f, t, t', r), q)
    {
      assert f.NodeOk(q);
      TreeIndexBounds(nb);
      DescendStep(f, nb, idx, rsize, t, r, TopBit(key), q);
    }
  }

  /** Only fits are left below `t`. */
  ghost predicate AllFit(f: Forest, nb: nat, t: Ptr)
    requires f.NodesOk()
  {
    forall q | Below(f, t, q) :: nb <= f.Size(q)
  }

  lemma UntakenFits(f: Forest, nb: nat, idx: nat, d: nat, r: Ptr)
    requires f.TreesOk() && LargeSize(nb) && idx == TreeIndex(nb) < NTREEBINS
    requires Untaken(f, nb, idx, d, r)
    ensures AllFit(f, nb, r)
  {
    TreeIndexBounds(nb);
    forall q | Below(f, r, q) ensures nb <= f.Size(q) {
      assert f.NodeOk(r);
      UntakenIsLarger(f, nb, idx, d, r, q);
    }
  }

  /** No fitting node of any bin is lost while the subtree of `t` is still to be searched. */
  ghost predicate AllCovered(f: Forest, nb: nat, rsize: nat, t: Ptr)
    requires f.NodesOk()
  {
    forall q | q in f.path && nb <= f.Size(q) :: rsize <= f.Size(q) - nb || Waiting(f, t, q)
  }

  /** The bit trick finds the first non-empty bin above `idx`. */
  lemma NextMarkedBin(f: Forest, idx: nat, leftbits: BinMap.Word)
    requires f.TreesOk() && idx < NTREEBINS
    requires leftbits == BinMap.And(BinMap.LeftBits(BinMap.BitOf(idx)), f.treemap)
    ensures leftbits == BinMap.EMPTY ==> forall j | idx < j < NTREEBINS :: f.roots[j] == NULL
    ensures leftbits != BinMap.EMPTY ==>
      && true in BinMap.LeastBit(leftbits)
      && var i := BinMap.Position(BinMap.LeastBit(leftbits));
      && idx < i < NTREEBINS && f.roots[i] != NULL && forall j | idx < j < i :: f.roots[j] == NULL
  {
    forall j | 0 <= j < NTREEBINS
      ensures BinMap.Marked(leftbits, j) <==> idx < j && f.roots[j] != NULL
    {
      assert f.RootOk(j);
      BinMap.MarkedAbove(f.treemap, idx, j);
    }
    BinMap.FirstMarked(leftbits);
  }

  /** Once the request's own bin yields something, no other bin can yield better. */
  lemma OtherBinsAreCovered(f: Forest, nb: nat, idx: nat, v: Ptr, rsize: nat, t: Ptr)
    requires f.TreesOk() && MIN_LARGE <= nb < WORD && idx == TreeIndex(nb) < NTREEBINS
    requires Candidate(f, nb, v, rsize) && BinCovered(f, nb, idx, rsize, NULL, t)
    requires t != NULL ==> t in f.path && f.mem[t].index == idx
    requires (v != NULL && f.mem[v].index == idx) || t != NULL
    ensures AllCovered(f, nb, rsize, t)
  {
    forall q | q in f.path && nb <= f.Size(q)
      ensures rsize <= f.Size(q) - nb || Waiting(f, t, q)
    {
      assert f.NodeOk(q);
      if f.mem[q].index == idx {
        assert Covered(f, nb, rsize, NULL, t, q);
      } else {
        BinsOrderRequest(f, q, nb);
        BinsOrderNodes(f, if t != NULL then t else v, q);
      }
    }
  }

  /** With nothing in the request's own bin, the first marked bin above covers everything. */
  lemma NextBinCovers(f: Forest, nb: nat, idx: nat, i: nat)
    requires f.TreesOk() && MIN_LARGE <= nb < WORD && idx == TreeIndex(nb) < NTREEBINS
    requires BinCovered(f, nb, idx, WORD - nb, NULL, NULL)
    requires idx < i <= NTREEBINS && (i < NTREEBINS ==> f.roots[i] != NULL)
    requires forall j | idx < j < i :: f.roots[j] == NULL
    ensures var t := if i < NTREEBINS then f.roots[i] else NULL;
      AllCovered(f, nb, WORD - nb, t) && (LargeSize(nb) ==> AllFit(f, nb, t))
  {
    var t := if i < NTREEBINS then f.roots[i] else NULL;
    if i < NTREEBINS { assert f.RootOk(i); }
    forall q | q in f.path && nb <= f.Size(q)
      ensures Waiting(f, t, q)
    {
      assert f.NodeOk(q);
      var j := f.mem[q].index;
      BinsOrderRequest(f, q, nb);
      assert j != idx;
      var a := Ancestor(f, q, 0);
      assert f.ParentOk(a) && f.roots[j] == a;
      assert i <= j;
      if i < j { BinsOrderNodes(f, t, q); }
    }
    if LargeSize(nb) {
      forall q | Below(f, t, q) ensures nb <= f.Size(q) {
        BinsOrderRequest(f, q, nb);
      }
    }
  }

  function LeftmostChild(c: TreeChunk): Ptr {
    if c.left != NULL then c.left else c.right
  }

  lemma LeftmostIsDeeper(f: Forest, t: Ptr)
    requires f.TreesOk() && t in f.path
    ensures var t' := LeftmostChild(f.mem[t]);
      t' != NULL ==> t' in f.path && Below(f, t, t') && |f.path[t]| < |f.path[t']| <= 64
  {
    assert f.ChildOk(t, true) && f.ChildOk(t, false);
    var t' := LeftmostChild(f.mem[t]);
    if t' != NULL { assert f.NodeOk(t'); }
  }

  lemma LeftmostCovers(f: Forest, nb: nat, rsize: nat, t: Ptr)
    requires f.TreesOk() && MIN_LARGE <= nb && t in f.path && AllCovered(f, nb, rsize, t)
    requires LargeSize(nb) ==> rsize == 0 || (AllFit(f, nb, t) && nb + rsize <= f.Size(t))
    ensures AllCovered(f, nb, rsize, LeftmostChild(f.mem[t]))
    ensures LargeSize(nb) ==> rsize == 0 || AllFit(f, nb, LeftmostChild(f.mem[t]))
  {
    var t' := LeftmostChild(f.mem[t]);
    LeftmostIsDeeper(f, t);
    forall q | q in f.path && nb <= f.Size(q)
      ensures rsize <= f.Size(q) - nb || Waiting(f, t', q)
    {
      assert f.NodeOk(q);
      if rsize > 0 { LeftmostStep(f, nb, rsize, t, t', q); }
    }
    forall q | Below(f, t', q) && LargeSize(nb) && rsize > 0 ensures nb <= f.Size(q) {
      assert Below(f, t, q);
    }
  }

  /** The step of the walk: what to search after the node `t`, once `t` itself is compared. */
  lemma WalkOn(f: Forest, nb: nat, idx: nat, rsize: nat, rsize': nat, t: Ptr, r: Ptr, key: nat, t': Ptr, r': Ptr)
    requires f.TreesOk() && MIN_LARGE <= nb < WORD && idx == TreeIndex(nb) < NTREEBINS
    requires Walking(f, nb, idx, t, r, key) && BinCovered(f, nb, idx, rsize, t, r)
    requires rsize' <= rsize && (nb <= f.Size(t) ==> rsize' <= f.Size(t) - nb)
    requires t' == f.mem[t].Child(TopBit(key)) && r' == NextUntaken(f, t, t', r)
    ensures r' != NULL ==> r' in f.path && f.mem[r'].index == idx
    ensures t' != NULL ==>
      && Walking(f, nb, idx, t', r', Shl(key)) && |f.path[t]| < |f.path[t']| <= 64
      && BinCovered(f, nb, idx, rsize', t', r')
    ensures t' == NULL ==> BinCovered(f, nb, idx, rsize', NULL, r') && (LargeSize(nb) ==> AllFit(f, nb, r'))
  {
    WalkContinues(f, nb, idx, t, r, key);
    forall q | q in f.path && f.mem[q].index == idx && nb <= f.Size(q)
      ensures Covered(f, nb, rsize', t, r, q)
    {
      assert Covered(f, nb, rsize, t, r, q);
    }
    WalkCovers(f, nb, idx, rsize', t, r, key);
    if LargeSize(nb) { UntakenFits(f, nb, idx, |f.path[t]| + 1, r'); }
  }

  /** The first marked bin covers everything when every chunk fits. */
  lemma SmallestBinCovers(f: Forest)
    requires f.TreesOk() && f.treemap != BinMap.EMPTY
    ensures true in BinMap.LeastBit(f.treemap)
    ensures var i := BinMap.Position(BinMap.LeastBit(f.treemap));
      && i < NTREEBINS && f.roots[i] != NULL && f.roots[i] in f.path
      && forall q | q in f.path :: Waiting(f, f.roots[i], q)
  {
    BinMap.FirstMarked(f.treemap);
    var i := BinMap.Position(BinMap.LeastBit(f.treemap));
    assert f.RootOk(i);
    var t := f.roots[i];
    forall q | q in f.path
      ensures Waiting(f, t, q)
    {
      var j := f.mem[q].index;
      assert f.NodeOk(q) && f.NodeOk(t);
      var a := Ancestor(f, q, 0);
      assert f.ParentOk(a) && f.RootOk(j);
      if i < j { BinsOrderNodes(f, t, q); }
    }
  }

  lemma SmallestIsBelow(f: Forest, nb: nat, rsize: nat, t: Ptr)
    requires f.TreesOk() && nb < MIN_LARGE && t in f.path && nb + rsize <= f.Size(t)
    requires AllCovered(f, nb, rsize, t)
    ensures AllCovered(f, nb, rsize, LeftmostChild(f.mem[t]))
  {
    forall q | q in f.path && nb <= f.Size(q)
      ensures rsize <= f.Size(q) - nb || Waiting(f, LeftmostChild(f.mem[t]), q)
    {
      LeftmostStep(f, nb, rsize, t, LeftmostChild(f.mem[t]), q);
    }
  }

  /** `v` is a smallest held chunk that can serve `nb`, or null when no held chunk can. */
  ghost predicate BestFit(f: Forest, nb: nat, v: Ptr)
    requires f.Ok()
  {
    && (v != NULL ==> v in f.path && f.Holds(v) && nb <= f.Size(v))
    && forall x | f.Holds(x) && x in f.mem && nb <= f.Size(x) :: v != NULL && f.Size(v) <= f.Size(x)
  }

  /** What holds for the tree nodes holds for all held chunks. */
  lemma BestNodeIsBestFit(f: Forest, nb: nat, v: Ptr, rsize: nat)
    requires f.Ok() && nb < WORD && Candidate(f, nb, v, rsize)
    requires forall q | q in f.path && nb <= f.Size(q) :: rsize <= f.Size(q) - nb
    ensures BestFit(f, nb, v)
  {
    if v != NULL {
      assert f.ChainOk(v);
      assert v in f.chain[v];
    }
    forall x | f.Holds(x) && x in f.mem && nb <= f.Size(x)
      ensures v != NULL && f.Size(v) <= f.Size(x)
    {
      var p :| p in f.chain && x in f.chain[p];
      assert f.ChainOk(p);
      var k :| 0 <= k < |f.chain[p]| && f.chain[p][k] == x;
      assert f.LinkOk(p, k) && f.NodeOk(p);
    }
  }

  // ---------- Insertion ----------

  lemma HeldNodes(f: Forest, p: Ptr, k: nat)
    requires f.Ok() && p in f.path && k < |f.chain[p]|
    ensures f.Holds(f.chain[p][k]) && f.Holds(p) && f.chain[p][k] in f.mem
    ensures f.NodeOk(p) && f.ChainOk(p) && f.LinkOk(p, k)
    ensures f.chain[p][k] in f.path ==> k == 0
  {
    assert f.ChainOk(p) && f.NodeOk(p) && f.LinkOk(p, k);
    assert f.chain[p][k] in f.chain[p] && p in f.chain[p];
    var x := f.chain[p][k];
    if x in f.path { assert f.Apart(x, p); }
  }

  lemma ContentsAre(f: Forest, x: Ptr)
    requires f.Ok()
    ensures x in f.Contents() <==> f.Holds(x)
    ensures f.Holds(x) ==> x in f.mem && f.Contents()[x] == f.Size(x)
  {
    if f.Holds(x) {
      var p :| p in f.chain && x in f.chain[p];
      var k :| 0 <= k < |f.chain[p]| && f.chain[p][k] == x;
      HeldNodes(f, p, k);
    }
  }

  /** The tree fields of a chunk, leaving out its list links. */
  ghost predicate SameTree(a: TreeChunk, b: TreeChunk) {
    a.size == b.size && a.left == b.left && a.right == b.right && a.parent == b.parent && a.index == b.index
  }

  ghost predicate SameLinks(a: TreeChunk, b: TreeChunk) {
    a.size == b.size && a.fd == b.fd && a.bk == b.bk && a.index == b.index
  }

  /** Keys stay right when sizes stay and nodes move up their own branch at most. */
  lemma KeysFrame(f: Forest, f': Forest)
    requires f.NodesOk() && f.KeysOk() && f'.NodesOk() && f'.path.Keys <= f.path.Keys
    requires forall p | p in f'.path ::
      f'.Size(p) == f.Size(p) && f'.mem[p].index == f.mem[p].index && f'.path[p] <= f.path[p]
    ensures f'.KeysOk()
  {
    forall p | p in f'.path ensures f'.NodeOk(p) && f'.KeyOk(p) { assert f.NodeOk(p) && f.KeyOk(p) && f'.NodeOk(p); }
  }

  /** The trees stay as they are when no tree field changes. */
  lemma TreeFrame(f: Forest, f': Forest)
    requires f.TreesOk()
    requires f'.roots == f.roots && f'.treemap == f.treemap && f'.path == f.path && f'.chain.Keys == f.chain.Keys
    requires f.path.Keys <= f'.mem.Keys && forall p | p in f.path :: SameTree(f.mem[p], f'.mem[p])
    ensures f'.TreesOk()
  {
    forall p | p in f.path ensures f'.NodeOk(p) { assert f.NodeOk(p); }
    KeysFrame(f, f');
    forall p | p in f.path ensures f'.ParentOk(p) { assert f.ParentOk(p); }
    forall p, b | p in f.path ensures f'.ChildOk(p, b) { assert f.ChildOk(p, b); }
    forall i | 0 <= i < NTREEBINS ensures f'.RootOk(i) { assert f.RootOk(i); }
    forall p, q | p in f.path && q in f.path ensures f'.Apart(p, q) { assert f.Apart(p, q); }
  }

  /** A chain stays as it is when no list link of its members changes. */
  lemma ChainFrame(f: Forest, f': Forest, p: Ptr)
    requires p in f.chain && p in f.mem && f.ChainOk(p)
    requires p in f'.chain && f'.chain[p] == f.chain[p]
    requires forall x | x in f.chain[p] :: x in f.mem && x in f'.mem && SameLinks(f.mem[x], f'.mem[x])
    requires forall x | x in f.chain[p] && x != p :: f'.mem[x] == f.mem[x]
    ensures p in f'.mem && f'.ChainOk(p)
  {
    assert p in f.chain[p];
    forall k | 0 <= k < |f.chain[p]| ensures f'.LinkOk(p, k) {
      assert f.LinkOk(p, k);
      assert f.After(p, k) in f.chain[p];
    }
  }

  /** A chain member is in memory, and is held by no other chain. */
  lemma ChainMember(f: Forest, p: Ptr, x: Ptr)
    requires f.Ok() && p in f.chain && x in f.chain[p]
    ensures f.ChainOk(p) && f.NodeOk(p) && x in f.mem && f.Size(x) == f.Size(p) && f.Holds(x) && p in f.chain[p]
    ensures x in f.path ==> x == p
    ensures forall q | q in f.chain && x in f.chain[q] :: q == p
  {
    var k :| 0 <= k < |f.chain[p]| && f.chain[p][k] == x;
    assert f.ChainOk(p);
    HeldNodes(f, p, k);
    forall q | q in f.chain && x in f.chain[q] ensures q == p {
      assert f.ChainOk(q);
      var j :| 0 <= j < |f.chain[q]| && f.chain[q][j] == x;
      HeldNodes(f, q, j);
      assert f.Apart(p, q);
    }
  }

  /** The bins do not depend on memory they do not hold. */
  lemma WriteElsewhere(f: Forest, x: Ptr, c: TreeChunk, f': Forest)
    requires f.Ok() && !f.Holds(x) && f' == f.(mem := f.mem[x := c])
    ensures f'.Ok() && f'.Contents() == f.Contents()
  {
    assert forall y :: f'.Holds(y) <==> f.Holds(y);
    forall p, y | p in f.chain && y in f.chain[p] ensures y != x && y in f.mem { ChainMember(f, p, y); }
    forall p | p in f.path ensures p != x { assert f.ChainOk(p); assert p in f.chain[p]; }
    TreeFrame(f, f');
    forall p | p in f.chain ensures f'.ChainOk(p) {
      assert f.ChainOk(p);
      ChainFrame(f, f', p);
    }
  }

  lemma NodesAreHeld(f: Forest)
    requires f.Ok()
    ensures forall p | p in f.path :: f.Holds(p)
  {
    forall p | p in f.path ensures f.Holds(p) {
      assert f.ChainOk(p);
      assert p in f.chain[p];
    }
  }

  /** `x` can become a tree node: it is not held, and no node has its size. */
  ghost predicate CanPlant(f: Forest, x: Ptr, s: nat)
    requires f.NodesOk()
  {
    && x != NULL && !f.Holds(x) && LargeSize(s) && TreeIndex(s) < NTREEBINS
    && forall q | q in f.path :: f.Size(q) != s
  }

  function Fresh(s: nat, x: Ptr, up: Up): TreeChunk {
    TreeChunk(s, x, x, NULL, NULL, up, TreeIndex(s))
  }

  /** A new node is its own chain, and the other chains do not notice it. */
  lemma PlantChains(f: Forest, x: Ptr, f': Forest)
    requires f.Ok() && x != NULL && !f.Holds(x)
    requires x in f'.mem && f'.mem[x].fd == x && f'.mem[x].bk == x
    requires f'.chain == f.chain[x := [x]] && f.mem.Keys <= f'.mem.Keys
    requires forall y | y in f.mem && y != x :: SameLinks(f.mem[y], f'.mem[y])
    requires forall y | y in f.mem && y != x && y !in f.path :: f'.mem[y] == f.mem[y]
    ensures forall p | p in f'.chain :: p in f'.mem && f'.ChainOk(p)
    ensures forall y :: f'.Holds(y) <==> y == x || f.Holds(y)
  {
    NodesAreHeld(f);
    forall p | p in f'.chain ensures p in f'.mem && f'.ChainOk(p) {
      if p == x {
        assert f'.LinkOk(x, 0);
      } else {
        assert f.ChainOk(p);
        forall y | y in f.chain[p] ensures y in f.mem && y != x && (y in f.path ==> y == p) { ChainMember(f, p, y); }
        ChainFrame(f, f', p);
      }
    }
    PlantedHolds(f, x, f');
  }

  lemma PlantedHolds(f: Forest, x: Ptr, f': Forest)
    requires x !in f.chain && f'.chain == f.chain[x := [x]]
    ensures forall y :: f'.Holds(y) <==> y == x || f.Holds(y)
  {
    forall y ensures f'.Holds(y) <==> y == x || f.Holds(y) {
      if f.Holds(y) {
        var p :| p in f.chain && y in f.chain[p];
        assert p in f'.chain && y in f'.chain[p];
      }
      assert x in f'.chain[x];
    }
  }

  /** Planting `x` at its place keeps all keys right. */
  lemma PlantKeys(f: Forest, x: Ptr, s: nat, up: Up, path: seq<bool>, f': Forest)
    requires f.Ok() && CanPlant(f, x, s) && path <= Path(s, TreeIndex(s))
    requires f'.path == f.path[x := path] && f'.chain.Keys == f.chain.Keys + {x}
    requires f'.mem.Keys == f.mem.Keys + {x} && f'.mem[x] == Fresh(s, x, up)
    requires forall p | p in f.path && p != x :: f'.Size(p) == f.Size(p) && f'.mem[p].index == f.mem[p].index
    ensures x !in f.path && f'.NodesOk() && f'.KeysOk()
    ensures forall p, q | p in f'.path && q in f'.path :: f'.Apart(p, q)
  {
    NodesAreHeld(f);
    forall p | p in f'.path ensures f'.NodeOk(p) && f'.KeyOk(p) { if p != x { assert f.NodeOk(p) && f.KeyOk(p); } }
    forall p, q | p in f'.path && q in f'.path ensures f'.Apart(p, q) {
      if p != x && q != x { assert f.Apart(p, q); }
    }
  }

  /** `f'` is `f` with `x` planted as child `b` of `t`. */
  ghost predicate Grown(f: Forest, x: Ptr, c: TreeChunk, t: Ptr, b: bool, f': Forest) {
    && f.TreesOk() && t in f.path && f.mem[t].index == c.index && f.mem[t].Child(b) == NULL
    && x != NULL && x !in f.path && c.parent == Node(t) && c.left == NULL && c.right == NULL
    && f' == f.(mem := f.mem[t := f.mem[t].WithChild(b, x)][x := c],
                path := f.path[x := f.path[t] + [b]], chain := f.chain[x := [x]])
  }

  lemma GrownParents(f: Forest, x: Ptr, c: TreeChunk, t: Ptr, b: bool, f': Forest)
    requires Grown(f, x, c, t, b, f') && f'.NodesOk()
    ensures forall p {:trigger f'.ParentOk(p)} | p in f'.path :: f'.ParentOk(p)
  {
    assert f'.path[x][..|f'.path[x]| - 1] == f.path[t];
    forall p {:trigger f'.ParentOk(p)} | p in f'.path ensures f'.ParentOk(p) {
      assert f'.NodeOk(p);
      if p != x { assert f.ParentOk(p); }
    }
  }

  lemma GrownChildren(f: Forest, x: Ptr, c: TreeChunk, t: Ptr, b: bool, f': Forest)
    requires Grown(f, x, c, t, b, f') && f'.NodesOk()
    ensures forall p, d {:trigger f'.ChildOk(p, d)} | p in f'.path :: f'.ChildOk(p, d)
  {
    forall p, d {:trigger f'.ChildOk(p, d)} | p in f'.path ensures f'.ChildOk(p, d) {
      if p != x { assert f.ChildOk(p, d); }
    }
  }

  lemma GrownRoots(f: Forest, x: Ptr, c: TreeChunk, t: Ptr, b: bool, f': Forest)
    requires Grown(f, x, c, t, b, f') && f'.NodesOk()
    ensures forall i {:trigger f'.RootOk(i)} | 0 <= i < NTREEBINS :: f'.RootOk(i)
  {
    forall i {:trigger f'.RootOk(i)} | 0 <= i < NTREEBINS ensures f'.RootOk(i) { assert f.RootOk(i); }
  }

  lemma PlantLeaf(f: Forest, x: Ptr, s: nat, t: Ptr, b: bool, f': Forest)
    requires f.Ok() && CanPlant(f, x, s) && x !in f.path
    requires Grown(f, x, Fresh(s, x, Node(t)), t, b, f') && f.path[t] + [b] <= Path(s, TreeIndex(s))
    ensures f'.TreesOk()
  {
    PlantKeys(f, x, s, Node(t), f.path[t] + [b], f');
    GrownParents(f, x, Fresh(s, x, Node(t)), t, b, f');
    GrownChildren(f, x, Fresh(s, x, Node(t)), t, b, f');
    GrownRoots(f, x, Fresh(s, x, Node(t)), t, b, f');
  }

  lemma PlantRoot(f: Forest, x: Ptr, s: nat, i: nat, f': Forest)
    requires f.Ok() && CanPlant(f, x, s) && i == TreeIndex(s) && f.roots[i] == NULL
    requires f' == f.(mem := f.mem[x := Fresh(s, x, Slot(i))], roots := f.roots[i := x],
                      treemap := BinMap.Mark(f.treemap, i),
                      path := f.path[x := []], chain := f.chain[x := [x]])
    ensures f'.TreesOk()
  {
    PlantKeys(f, x, s, Slot(i), [], f');
    forall p | p in f'.path ensures f'.ParentOk(p) {
      assert f'.NodeOk(p);
      if p != x { assert f.ParentOk(p) && f.NodeOk(p); }
    }
    forall p, c | p in f'.path ensures f'.ChildOk(p, c) {
      if p != x { assert f.ChildOk(p, c) && f.NodeOk(p); }
    }
    forall j | 0 <= j < NTREEBINS ensures f'.RootOk(j) {
      assert f.RootOk(j);
      BinMap.MarkAndClear(f.treemap, i, j);
    }
  }

  /** Other chains do not notice writes to the list links of one chain or of chunks not held. */
  lemma OtherChains(f: Forest, p: Ptr, x: Ptr, f': Forest, q: Ptr)
    requires f.Ok() && p in f.chain && (!f.Holds(x) || x in f.chain[p])
    requires q in f.chain && q != p && q in f'.chain && f'.chain[q] == f.chain[q]
    requires f.mem.Keys <= f'.mem.Keys
    requires forall y | y in f.mem && y !in f.chain[p] && y != x :: SameLinks(f'.mem[y], f.mem[y])
    requires forall y | y in f.mem && y !in f.chain[p] && y != x && y !in f.path :: f'.mem[y] == f.mem[y]
    ensures q in f'.mem && f'.ChainOk(q)
  {
    assert f.ChainOk(q);
    forall y | y in f.chain[q]
      ensures y in f.mem && y !in f.chain[p] && y != x && (y in f.path ==> y == q)
    {
      ChainMember(f, q, y);
    }
    ChainFrame(f, f', q);
  }

  /** `f'` is `f` with `x` linked into the chain of `t`, right after `t`. */
  ghost predicate Joined(f: Forest, x: Ptr, s: nat, t: Ptr, f': Forest) {
    && f.Ok() && x != NULL && !f.Holds(x) && t in f.path && f.ChainOk(t) && f.Size(t) == s
    && var n := f.mem[t].fd;
    && n in f.mem && n != x && t != x
    && var m := f.mem[n := f.mem[n].(bk := x)];
    && var m' := m[t := m[t].(fd := x)];
    && f' == f.(mem := m'[x := TreeChunk(s, n, t, NULL, NULL, NoParent, f.mem[t].index)],
                chain := f.chain[t := [t, x] + f.chain[t][1..]])
  }

  lemma JoinedChain(f: Forest, x: Ptr, s: nat, t: Ptr, f': Forest)
    requires Joined(f, x, s, t, f')
    ensures f'.ChainOk(t)
  {
    var c, c' := f.chain[t], f'.chain[t];
    assert f.ChainOk(t);
    forall y | y in c ensures y in f.mem && y != x { ChainMember(f, t, y); }
    forall k | 0 <= k < |c'| ensures f'.LinkOk(t, k) {
      assert f.LinkOk(t, 0);
      assert f.LinkOk(t, |c| - 1);
      if k >= 2 {
        assert c'[k] == c[k - 1];
        assert f.LinkOk(t, k - 1);
      }
    }
  }

  lemma JoinedMemory(f: Forest, x: Ptr, s: nat, t: Ptr, f': Forest)
    requires Joined(f, x, s, t, f')
    ensures f'.mem.Keys == f.mem.Keys + {x} && f'.mem[x].size == s
    ensures forall y | y in f.mem && y != x :: SameTree(f.mem[y], f'.mem[y])
    ensures forall y | y in f.mem && y !in f.chain[t] && y != x :: f'.mem[y] == f.mem[y]
  {
    assert f.LinkOk(t, 0);
    assert f.mem[t].fd in f.chain[t] && t in f.chain[t];
  }

  lemma JoinedChains(f: Forest, x: Ptr, s: nat, t: Ptr, f': Forest, p: Ptr)
    requires Joined(f, x, s, t, f') && p in f'.chain
    ensures p in f'.mem && f'.ChainOk(p)
  {
    if p == t {
      JoinedChain(f, x, s, t, f');
    } else {
      JoinedMemory(f, x, s, t, f');
      OtherChains(f, t, x, f', p);
    }
  }

  lemma JoinedTrees(f: Forest, x: Ptr, s: nat, t: Ptr, f': Forest)
    requires Joined(f, x, s, t, f')
    ensures f'.TreesOk()
  {
    NodesAreHeld(f);
    JoinedMemory(f, x, s, t, f');
    TreeFrame(f, f');
  }

  lemma JoinChain(f: Forest, x: Ptr, s: nat, t: Ptr, f': Forest)
    requires Joined(f, x, s, t, f')
    ensures f'.Ok()
    ensures forall y :: f'.Holds(y) <==> y == x || f.Holds(y)
  {
    JoinedTrees(f, x, s, t, f');
    forall p {:trigger f'.ChainOk(p)} | p in f'.chain ensures f'.ChainOk(p) { JoinedChains(f, x, s, t, f', p); }
    JoinedHolds(f, x, t, f');
  }

  lemma JoinedHolds(f: Forest, x: Ptr, t: Ptr, f': Forest)
    requires t in f.chain && |f.chain[t]| > 0 && f.chain[t][0] == t
    requires f'.chain == f.chain[t := [t, x] + f.chain[t][1..]]
    ensures forall y :: f'.Holds(y) <==> y == x || f.Holds(y)
  {
    assert forall y :: y in f'.chain[t] <==> y == x || y in f.chain[t] by {
      assert f.chain[t] == [t] + f.chain[t][1..];
    }
    forall y ensures f'.Holds(y) <==> y == x || f.Holds(y) {
      if f.Holds(y) {
        var p :| p in f.chain && y in f.chain[p];
        assert p in f'.chain && y in f'.chain[p];
      }
      assert x in f'.chain[t];
    }
  }

  /** Equal holdings and sizes mean equal contents. */
  lemma InsertedContents(f: Forest, x: Ptr, s: nat, f': Forest)
    requires f.Ok() && f'.Ok() && x in f'.mem && f'.Size(x) == s
    requires forall y :: f'.Holds(y) <==> y == x || f.Holds(y)
    requires f.mem.Keys <= f'.mem.Keys && forall y | y in f.mem && y != x :: f'.Size(y) == f.Size(y)
    ensures f'.Contents() == f.Contents()[x := s]
  {
    forall y ensures y in f'.Contents() <==> y in f.Contents()[x := s] {
      ContentsAre(f, y);
      ContentsAre(f', y);
    }
    forall y | y in f'.Contents() ensures f'.Contents()[y] == f.Contents()[x := s][y] {
      ContentsAre(f, y);
      ContentsAre(f', y);
    }
  }

  /** Above the walk's node no node has size `s`. */
  ghost predicate NotAbove(f: Forest, s: nat, t: Ptr)
    requires f.NodesOk()
  {
    forall q | Below(f, q, t) && q != t :: f.Size(q) != s
  }

  lemma NotAboveRoot(f: Forest, s: nat, i: nat)
    requires f.TreesOk() && i < NTREEBINS && f.roots[i] != NULL
    ensures f.roots[i] in f.path && NotAbove(f, s, f.roots[i])
  {
    assert f.RootOk(i);
    forall q | Below(f, q, f.roots[i]) ensures q == f.roots[i] { OneNodePerPlace(f, q, f.roots[i]); }
  }

  lemma NotAboveStep(f: Forest, s: nat, t: Ptr, b: bool)
    requires f.TreesOk() && t in f.path && f.mem[t].Child(b) != NULL
    requires NotAbove(f, s, t) && f.Size(t) != s
    ensures f.mem[t].Child(b) in f.path && NotAbove(f, s, f.mem[t].Child(b))
  {
    var t' := f.mem[t].Child(b);
    assert f.ChildOk(t, b);
    forall q | Below(f, q, t') && q != t' ensures f.Size(q) != s {
      if |f.path[q]| == |f.path[t']| { OneNodePerPlace(f, q, t'); assert false; }
      assert f.path[q] == f.path[t'][..|f.path[q]|] == f.path[t][..|f.path[q]|];
      assert Below(f, q, t);
    }
  }

  /** Where the branch of `s` ends without meeting `s`, no node has that size, and there is a bit left to branch on. */
  lemma SizeIsNew(f: Forest, s: nat, idx: nat, t: Ptr, b: bool)
    requires f.TreesOk() && LargeSize(s) && idx == TreeIndex(s) < NTREEBINS
    requires OnPath(f, s, idx, t, b) && f.mem[t].Child(b) == NULL
    requires NotAbove(f, s, t) && f.Size(t) != s
    ensures forall q | q in f.path :: f.Size(q) != s
    ensures f.path[t] + [b] <= Path(s, idx)
  {
    var p := Path(s, idx);
    assert f.NodeOk(t) && f.KeyOk(t);
    if |f.path[t]| == 64 {
      assert f.path[t] == p && f.path[t] == Path(f.Size(t), idx);
      TreeIndexBounds(s);
      TreeIndexBounds(f.Size(t));
      PathInjective(s, f.Size(t), idx);
      assert false;
    }
    forall q | q in f.path ensures f.Size(q) != s {
      assert f.NodeOk(q) && f.KeyOk(q);
      if f.Size(q) == s && q != t {
        var n, m := |f.path[q]|, |f.path[t]|;
        assert f.path[q] == p[..n] && f.path[t] == p[..m];
        if n > m {
          assert f.path[t] == f.path[q][..m];
          BelowChild(f, t, q);
        }
        assert false;
      }
    }
  }

  lemma RootInserted(f: Forest, x: Ptr, s: nat, i: nat, f': Forest)
    requires f.Ok() && x != NULL && !f.Holds(x) && LargeSize(s) && i == TreeIndex(s) < NTREEBINS
    requires !BinMap.Marked(f.treemap, i)
    requires f' == f.(mem := f.mem[x := Fresh(s, x, Slot(i))], roots := f.roots[i := x],
                      treemap := BinMap.Mark(f.treemap, i),
                      path := f.path[x := []], chain := f.chain[x := [x]])
    ensures f'.Ok() && f'.Contents() == f.Contents()[x := s]
  {
    assert f.RootOk(i);
    forall q | q in f.path ensures f.Size(q) != s {
      assert f.NodeOk(q) && f.KeyOk(q);
      var a := Ancestor(f, q, 0);
      assert f.ParentOk(a);
    }
    NodesAreHeld(f);
    PlantRoot(f, x, s, i, f');
    PlantChains(f, x, f');
    InsertedContents(f, x, s, f');
  }

  lemma LeafTrees(f: Forest, x: Ptr, s: nat, t: Ptr, b: bool, f': Forest)
    requires f.Ok() && x != NULL && !f.Holds(x) && LargeSize(s) && TreeIndex(s) < NTREEBINS
    requires OnPath(f, s, TreeIndex(s), t, b) && f.mem[t].Child(b) == NULL
    requires NotAbove(f, s, t) && f.Size(t) != s
    requires f' == f.(mem := f.mem[t := f.mem[t].WithChild(b, x)][x := Fresh(s, x, Node(t))],
                      path := f.path[x := f.path[t] + [b]], chain := f.chain[x := [x]])
    ensures f'.TreesOk()
  {
    NodesAreHeld(f);
    SizeIsNew(f, s, TreeIndex(s), t, b);
    PlantLeaf(f, x, s, t, b, f');
  }

  lemma LeafMemory(m: map<Ptr, TreeChunk>, t: Ptr, b: bool, x: Ptr, c: TreeChunk, m': map<Ptr, TreeChunk>)
    requires t in m && m' == m[t := m[t].WithChild(b, x)][x := c]
    ensures m'.Keys == m.Keys + {x}
    ensures forall y | y in m && y != x :: SameLinks(m[y], m'[y])
    ensures forall y | y in m && y != x && y != t :: m'[y] == m[y]
  {}

  lemma LeafInserted(f: Forest, x: Ptr, c: TreeChunk, t: Ptr, b: bool, f': Forest)
    requires f.Ok() && x != NULL && !f.Holds(x) && t in f.path && c.fd == x && c.bk == x
    requires f'.TreesOk()
    requires f' == f.(mem := f.mem[t := f.mem[t].WithChild(b, x)][x := c],
                      path := f.path[x := f.path[t] + [b]], chain := f.chain[x := [x]])
    ensures f'.Ok() && f'.Contents() == f.Contents()[x := c.size]
  {
    LeafMemory(f.mem, t, b, x, c, f'.mem);
    PlantChains(f, x, f');
    InsertedContents(f, x, c.size, f');
  }

  lemma ChainInserted(f: Forest, x: Ptr, s: nat, t: Ptr, f': Forest)
    requires Joined(f, x, s, t, f')
    ensures f'.Ok() && f'.Contents() == f.Contents()[x := s]
  {
    JoinChain(f, x, s, t, f');
    JoinedMemory(f, x, s, t, f');
    InsertedContents(f, x, s, f');
  }

  // ---------- Removal ----------

  function Ren(p: Ptr, x: Ptr, r: Ptr): Ptr {
    if p == x then r else p
  }

  function RenUp(u: Up, x: Ptr, r: Ptr): Up {
    if u == Node(x) then Node(r) else u
  }

  /** The tree fields of `c` after every pointer to `x` became a pointer to `r`. */
  ghost predicate RenamedChunk(c: TreeChunk, x: Ptr, r: Ptr, c': TreeChunk) {
    && c'.left == Ren(c.left, x, r) && c'.right == Ren(c.right, x, r)
    && c'.parent == RenUp(c.parent, x, r) && c'.index == c.index
  }

  /** `r`, which is no node of `f`, takes the place of node `x` in `f'`, and nothing else moves. */
  ghost predicate Replaced(f: Forest, x: Ptr, r: Ptr, f': Forest)
    requires f.NodesOk()
  {
    && x in f.path && r !in f.path && r != NULL && r in f'.mem && f.path.Keys <= f'.mem.Keys
    && f'.path == (f.path - {x})[r := f.path[x]] && f'.chain.Keys == f'.path.Keys
    && (forall p {:trigger f.path[p]} | p in f.path && p != x ::
          RenamedChunk(f.mem[p], x, r, f'.mem[p]) && f'.Size(p) == f.Size(p))
    && RenamedChunk(f.mem[x], x, r, f'.mem[r])
    && |f'.roots| == |f.roots| && f'.treemap == f.treemap
    && forall i | 0 <= i < |f.roots| :: f'.roots[i] == Ren(f.roots[i], x, r)
  }

  /** The size of `r` belongs at the place of `x`, and no other node has it. */
  ghost predicate MayReplace(f: Forest, x: Ptr, s: nat)
    requires f.NodesOk() && x in f.path
  {
    && f.NodeOk(x) && LargeSize(s) && f.mem[x].index == TreeIndex(s)
    && f.path[x] <= Path(s, f.mem[x].index)
    && forall p | p in f.path && p != x :: f.Size(p) != s
  }

  lemma ReplacedKeys(f: Forest, x: Ptr, r: Ptr, f': Forest)
    requires f.TreesOk() && Replaced(f, x, r, f') && MayReplace(f, x, f'.Size(r))
    ensures f'.NodesOk() && f'.KeysOk()
    ensures forall p, q {:trigger f'.Apart(p, q)} | p in f'.path && q in f'.path :: f'.Apart(p, q)
  {
    forall p {:trigger f'.NodeOk(p)} | p in f'.path ensures f'.NodeOk(p) && f'.KeyOk(p) {
      if p != r { assert f.NodeOk(p) && f.KeyOk(p) && f.path[p] == f'.path[p]; }
    }
    forall p, q {:trigger f'.Apart(p, q)} | p in f'.path && q in f'.path ensures f'.Apart(p, q) {
      if p != r && q != r { assert f.Apart(p, q) && f.path[p] == f'.path[p] && f.path[q] == f'.path[q]; }
      if p != r { assert f.path[p] == f'.path[p]; }
      if q != r { assert f.path[q] == f'.path[q]; }
    }
  }

  lemma ReplacedParents(f: Forest, x: Ptr, r: Ptr, f': Forest, p: Ptr)
    requires f.TreesOk() && Replaced(f, x, r, f') && f'.NodesOk() && p in f.path
    ensures Ren(p, x, r) in f'.path && f'.ParentOk(Ren(p, x, r))
  {
    assert f.ParentOk(p) && f'.NodeOk(Ren(p, x, r)) && f.NodeOk(p);
    assert f'.path[Ren(p, x, r)] == f.path[p];
    if f.path[p] != [] {
      var q := f.mem[p].parent.node;
      assert f'.path[Ren(q, x, r)] == f.path[q];
    }
  }

  lemma ReplacedChildren(f: Forest, x: Ptr, r: Ptr, f': Forest, p: Ptr, b: bool)
    requires f.TreesOk() && Replaced(f, x, r, f') && f'.NodesOk() && p in f.path
    ensures Ren(p, x, r) in f'.path && f'.ChildOk(Ren(p, x, r), b)
  {
    assert f.ChildOk(p, b);
    assert f'.path[Ren(p, x, r)] == f.path[p];
    var k := f.mem[p].Child(b);
    if k != NULL { assert f'.path[Ren(k, x, r)] == f.path[k]; }
  }

  /** A node may be replaced by any chunk whose size belongs at its place. */
  lemma ReplaceNode(f: Forest, x: Ptr, r: Ptr, f': Forest)
    requires f.TreesOk() && Replaced(f, x, r, f') && MayReplace(f, x, f'.Size(r))
    ensures f'.TreesOk()
  {
    ReplacedKeys(f, x, r, f');
    forall p {:trigger f'.ParentOk(p)} | p in f'.path ensures f'.ParentOk(p) {
      ReplacedParents(f, x, r, f', if p == r then x else p);
    }
    forall p, b {:trigger f'.ChildOk(p, b)} | p in f'.path ensures f'.ChildOk(p, b) {
      ReplacedChildren(f, x, r, f', if p == r then x else p, b);
    }
    forall i {:trigger f'.RootOk(i)} | 0 <= i < NTREEBINS ensures f'.RootOk(i) {
      assert f.RootOk(i);
      if f.roots[i] != NULL { assert f'.path[Ren(f.roots[i], x, r)] == f.path[f.roots[i]]; }
    }
  }

  /** `f'` is `f` without the leaf `x`, whose slot in its parent, or in its bin, is null again. */
  ghost predicate Pruned(f: Forest, x: Ptr, f': Forest)
    requires f.NodesOk()
  {
    && x in f.path && f.mem[x].left == NULL && f.mem[x].right == NULL
    && f'.path == f.path - {x} && f'.chain.Keys == f'.path.Keys
    && match f.mem[x].parent {
      case Node(q) => q in f.mem && f'.roots == f.roots && f'.treemap == f.treemap
        && f'.mem == f.mem[q := if f.mem[q].left == x then f.mem[q].(left := NULL) else f.mem[q].(right := NULL)]
      case Slot(i) => i < |f.roots| == NTREEBINS && f'.mem == f.mem && f'.roots == f.roots[i := NULL]
        && f'.treemap == BinMap.Clear(f.treemap, i)
      case NoParent => false
    }
  }

  /** The left child of a node is not its right child. */
  lemma SidesDiffer(f: Forest, p: Ptr)
    requires f.TreesOk() && p in f.path
    ensures f.mem[p].left == f.mem[p].right ==> f.mem[p].left == NULL
  {
    assert f.ChildOk(p, true) && f.ChildOk(p, false);
    assert f.path[p] + [true] != f.path[p] + [false] by {
      assert (f.path[p] + [true])[|f.path[p]|];
    }
  }

  lemma PrunedKeys(f: Forest, x: Ptr, f': Forest)
    requires f.TreesOk() && Pruned(f, x, f')
    ensures f'.NodesOk() && f'.KeysOk()
    ensures forall p, q {:trigger f'.Apart(p, q)} | p in f'.path && q in f'.path :: f'.Apart(p, q)
  {
    forall p {:trigger f'.NodeOk(p)} | p in f'.path ensures f'.NodeOk(p) { assert f.NodeOk(p); }
    KeysFrame(f, f');
    forall p, q {:trigger f'.Apart(p, q)} | p in f'.path && q in f'.path
      ensures f'.Apart(p, q) { assert f.Apart(p, q); }
  }

  lemma PrunedLinks(f: Forest, x: Ptr, f': Forest, p: Ptr, b: bool)
    requires f.TreesOk() && Pruned(f, x, f') && f'.NodesOk() && p in f'.path
    ensures f'.ParentOk(p) && f'.ChildOk(p, b)
  {
    assert f.ParentOk(p) && f.ParentOk(x) && f.ChildOk(p, b) && f'.NodeOk(p);
    var c := f.mem[p];
    if c.parent.Node? { SidesDiffer(f, c.parent.node); }
    assert c.parent != Node(x);
    if c.Child(b) == x { SidesDiffer(f, p); }
  }

  lemma PruneLeaf(f: Forest, x: Ptr, f': Forest)
    requires f.TreesOk() && Pruned(f, x, f')
    ensures f'.TreesOk()
  {
    PrunedKeys(f, x, f');
    forall p {:trigger f'.ParentOk(p)} | p in f'.path ensures f'.ParentOk(p) { PrunedLinks(f, x, f', p, true); }
    forall p, b {:trigger f'.ChildOk(p, b)} | p in f'.path ensures f'.ChildOk(p, b) { PrunedLinks(f, x, f', p, b); }
    forall i {:trigger f'.RootOk(i)} | 0 <= i < NTREEBINS ensures f'.RootOk(i) {
      assert f.RootOk(i) && f.ParentOk(x);
      if f.mem[x].parent.Slot? { BinMap.MarkAndClear(f.treemap, f.mem[x].parent.bin, i); }
    }
  }

  /** Removing a node of its own size only: the other chains and holdings stay. */
  lemma ChainDropped(f: Forest, x: Ptr, f': Forest)
    requires f.Ok() && x in f.chain && |f.chain[x]| == 1 && f'.chain == f.chain - {x}
    requires f'.mem.Keys == f.mem.Keys && forall y | y in f.mem :: SameLinks(f.mem[y], f'.mem[y])
    requires forall y | y in f.mem && y !in f.path :: f'.mem[y] == f.mem[y]
    ensures forall p {:trigger f'.ChainOk(p)} | p in f'.chain :: p in f'.mem && f'.ChainOk(p)
    ensures forall y :: f'.Holds(y) <==> y != x && f.Holds(y)
  {
    assert f.ChainOk(x);
    assert f.chain[x] == [x];
    forall p {:trigger f'.ChainOk(p)} | p in f'.chain ensures p in f'.mem && f'.ChainOk(p) {
      assert f.ChainOk(p);
      forall y | y in f.chain[p] ensures y in f.mem && (y in f.path ==> y == p) { ChainMember(f, p, y); }
      ChainFrame(f, f', p);
    }
    forall y ensures f'.Holds(y) <==> y != x && f.Holds(y) {
      if f.Holds(y) {
        var p :| p in f.chain && y in f.chain[p];
        ChainMember(f, p, y);
        if y != x { assert p in f'.chain && y in f'.chain[p]; }
      }
    }
  }

  lemma RemovedContents(f: Forest, x: Ptr, f': Forest)
    requires f.Ok() && f'.Ok() && f'.mem.Keys == f.mem.Keys
    requires forall y :: f'.Holds(y) <==> y != x && f.Holds(y)
    requires forall y | y in f.mem && y != x :: f'.Size(y) == f.Size(y)
    ensures f'.Contents() == f.Contents() - {x}
  {
    forall y ensures y in f'.Contents() <==> y in f.Contents() - {x} {
      ContentsAre(f, y);
      ContentsAre(f', y);
    }
    forall y | y in f'.Contents() ensures f'.Contents()[y] == (f.Contents() - {x})[y] {
      ContentsAre(f, y);
      ContentsAre(f', y);
    }
  }

  /** Memory after the parent of `x`, if it is a node, points to `r` instead. */
  function Rehung(m: map<Ptr, TreeChunk>, x: Ptr, r: Ptr): map<Ptr, TreeChunk>
    requires x in m && (m[x].parent.Node? ==> m[x].parent.node in m)
  {
    match m[x].parent
    case Node(q) => m[q := if m[q].left == x then m[q].(left := r) else m[q].(right := r)]
    case _ => m
  }

  /** Memory after `r` took over the parent and the children of `x`. */
  function Adopted(m: map<Ptr, TreeChunk>, x: Ptr, r: Ptr): map<Ptr, TreeChunk>
    requires x in m && r in m && (m[x].left == NULL || m[x].left in m) && (m[x].right == NULL || m[x].right in m)
  {
    var m1 := m[r := m[r].(parent := m[x].parent)];
    var c0 := m1[x].left;
    var m2 := if c0 == NULL then m1 else
      var n := m1[r := m1[r].(left := c0)];
      n[c0 := n[c0].(parent := Node(r))];
    var c1 := m2[x].right;
    if c1 == NULL || c1 !in m2 then m2 else
      var n := m2[r := m2[r].(right := c1)];
      n[c1 := n[c1].(parent := Node(r))]
  }

  lemma RehungChunks(m: map<Ptr, TreeChunk>, x: Ptr, r: Ptr)
    requires x in m && r in m && x != r && m[x].parent != Node(r) && m[x].parent != Node(x)
    requires m[x].parent.Node? ==> m[x].parent.node in m
    ensures var m' := Rehung(m, x, r);
      && m'.Keys == m.Keys && m'[x] == m[x] && m'[r] == m[r]
      && forall y | y in m ::
           && SameLinks(m[y], m'[y]) && m'[y].parent == m[y].parent
           && (Node(y) != m[x].parent ==> m'[y] == m[y])
  {}

  lemma AdoptedChunks(m: map<Ptr, TreeChunk>, x: Ptr, r: Ptr)
    requires x in m && r in m && x != r && m[r].left == NULL && m[r].right == NULL
    requires m[x].left == NULL || (m[x].left in m && m[x].left != r && m[x].left != x)
    requires m[x].right == NULL || (m[x].right in m && m[x].right != r && m[x].right != x)
    requires m[x].left == m[x].right ==> m[x].left == NULL
    ensures var m' := Adopted(m, x, r);
      && m'.Keys == m.Keys
      && m'[r] == m[r].(parent := m[x].parent, left := m[x].left, right := m[x].right)
      && forall y | y in m && y != r ::
           m'[y] == if y != NULL && (y == m[x].left || y == m[x].right) then m[y].(parent := Node(r)) else m[y]
  {}

  /** Around a node: its parent and children are other nodes, and point back. */
  lemma Surroundings(f: Forest, x: Ptr)
    requires f.TreesOk() && x in f.path
    ensures f.ParentOk(x) && f.NodeOk(x) && f.ChildOk(x, true) && f.ChildOk(x, false)
    ensures f.mem[x].parent != NoParent && f.mem[x].parent != Node(x)
    ensures f.mem[x].left != x && f.mem[x].right != x
    ensures f.mem[x].left == f.mem[x].right ==> f.mem[x].left == NULL
    ensures x == f.roots[f.mem[x].index] <==> f.mem[x].parent.Slot?
  {
    assert f.ParentOk(x) && f.ChildOk(x, true) && f.ChildOk(x, false) && f.RootOk(f.mem[x].index);
    SidesDiffer(f, x);
  }

  /** The record of node `p` once `r` hangs in the place of `x`. */
  function RehungChunk(c: TreeChunk, p: Ptr, x: TreeChunk, xa: Ptr, r: Ptr): TreeChunk {
    var d := if x.parent != Node(p) then c else if c.left == xa then c.(left := r) else c.(right := r);
    if p != NULL && (p == x.left || p == x.right) then d.(parent := Node(r)) else d
  }

  lemma RelinkedChunk(f: Forest, x: Ptr, r: Ptr, p: Ptr)
    requires f.TreesOk() && x in f.path && p in f.path && p != x
    ensures RenamedChunk(f.mem[p], x, r, RehungChunk(f.mem[p], p, f.mem[x], x, r))
  {
    Surroundings(f, x);
    Surroundings(f, p);
  }

  lemma RelinkedMemory(m: map<Ptr, TreeChunk>, x: Ptr, r: Ptr)
    requires x in m && r in m && x != r && m[r].left == NULL && m[r].right == NULL
    requires m[x].parent != Node(r) && m[x].parent != Node(x)
    requires m[x].parent.Node? ==> m[x].parent.node in m
    requires m[x].left == NULL || (m[x].left in m && m[x].left != r && m[x].left != x)
    requires m[x].right == NULL || (m[x].right in m && m[x].right != r && m[x].right != x)
    requires m[x].left == m[x].right ==> m[x].left == NULL
    ensures var m1 := Rehung(m, x, r);
      && m1.Keys == m.Keys && m1[x] == m[x]
      && var m' := Adopted(m1, x, r);
      && m'.Keys == m.Keys
      && m'[r] == m[r].(parent := m[x].parent, left := m[x].left, right := m[x].right)
      && (forall y | y in m && y != r :: m'[y] == RehungChunk(m[y], y, m[x], x, r))
  {
    RehungChunks(m, x, r);
    AdoptedChunks(Rehung(m, x, r), x, r);
  }

  lemma RelinkReplaces(f: Forest, x: Ptr, r: Ptr, f': Forest)
    requires f.TreesOk() && x in f.path && r !in f.path && r in f.mem && r != NULL
    requires f.mem[r].index == f.mem[x].index
    requires f'.mem.Keys == f.mem.Keys && f'.treemap == f.treemap
    requires f'.mem[r] == f.mem[r].(parent := f.mem[x].parent, left := f.mem[x].left, right := f.mem[x].right)
    requires forall y | y in f.mem && y != r :: f'.mem[y] == RehungChunk(f.mem[y], y, f.mem[x], x, r)
    requires f.mem[x].index < |f.roots|
    requires f'.roots == if x == f.roots[f.mem[x].index] then f.roots[f.mem[x].index := r] else f.roots
    requires f'.path == (f.path - {x})[r := f.path[x]] && f'.chain.Keys == f'.path.Keys
    ensures Replaced(f, x, r, f')
  {
    Surroundings(f, x);
    forall p {:trigger f.path[p]} | p in f.path && p != x
      ensures RenamedChunk(f.mem[p], x, r, f'.mem[p]) && f'.Size(p) == f.Size(p)
    {
      RelinkedChunk(f, x, r, p);
    }
    forall i | 0 <= i < |f.roots| ensures f'.roots[i] == Ren(f.roots[i], x, r) {
      assert f.RootOk(i);
    }
  }

  /** Only the list head's tree fields and those of the nodes around it change. */
  lemma RelinkFrame(f: Forest, x: Ptr, r: Ptr, m': map<Ptr, TreeChunk>)
    requires f.TreesOk() && x in f.path && r in f.mem && m'.Keys == f.mem.Keys
    requires m'[r] == f.mem[r].(parent := f.mem[x].parent, left := f.mem[x].left, right := f.mem[x].right)
    requires forall y | y in f.mem && y != r :: m'[y] == RehungChunk(f.mem[y], y, f.mem[x], x, r)
    ensures forall y | y in f.mem :: SameLinks(f.mem[y], m'[y])
    ensures forall y | y in f.mem && y !in f.path && y != r :: m'[y] == f.mem[y]
  {
    Surroundings(f, x);
  }

  /** The state in which `r` can take the place of `x`. */
  ghost predicate Replaceable(f: Forest, x: Ptr, r: Ptr) {
    && f.TreesOk() && x in f.path
    && (if r == NULL then f.mem[x].left == NULL && f.mem[x].right == NULL else
        && r !in f.path && r in f.mem && f.mem[r].left == NULL && f.mem[r].right == NULL
        && f.mem[r].index == f.mem[x].index && MayReplace(f, x, f.mem[r].size))
  }

  /** List links stay, and only nodes and `r` are written. */
  ghost predicate TreeWrites(f: Forest, r: Ptr, m': map<Ptr, TreeChunk>) {
    && m'.Keys == f.mem.Keys
    && (forall y | y in f.mem :: SameLinks(f.mem[y], m'[y]))
    && (forall y | y in f.mem && y !in f.path && y != r :: m'[y] == f.mem[y])
  }

  lemma ReplaceDone(f: Forest, x: Ptr, r: Ptr, c: seq<Ptr>, f': Forest)
    requires Replaceable(f, x, r) && r != NULL && f.ParentOk(x) && f.ChildOk(x, true) && f.ChildOk(x, false)
    requires Rehung(f.mem, x, r).Keys == f.mem.Keys && Rehung(f.mem, x, r)[x] == f.mem[x]
    requires f' == f.(mem := Adopted(Rehung(f.mem, x, r), x, r),
                      roots := if x == f.roots[f.mem[x].index] then f.roots[f.mem[x].index := r] else f.roots,
                      path := (f.path - {x})[r := f.path[x]], chain := (f.chain - {x})[r := c])
    ensures f'.TreesOk() && TreeWrites(f, r, f'.mem)
  {
    Surroundings(f, x);
    RelinkedMemory(f.mem, x, r);
    RelinkFrame(f, x, r, f'.mem);
    RelinkReplaces(f, x, r, f');
    ReplaceNode(f, x, r, f');
  }

  lemma PruneDone(f: Forest, x: Ptr, f': Forest)
    requires Replaceable(f, x, NULL) && Pruned(f, x, f')
    ensures f'.TreesOk() && TreeWrites(f, x, f'.mem)
  {
    PruneLeaf(f, x, f');
    assert f.ParentOk(x);
  }

  /** A leaf below `x`, taken off the tree, may take the place of `x`. */
  lemma LeafMayReplace(f: Forest, x: Ptr, r: Ptr, g: Forest)
    requires f.TreesOk() && Below(f, x, r) && r != x && Pruned(f, r, g) && g.TreesOk()
    ensures Replaceable(g, x, r) && TreeWrites(f, x, g.mem)
  {
    assert f.NodeOk(r) && f.KeyOk(r) && f.NodeOk(x) && g.NodeOk(x);
    assert f.ParentOk(r);
    forall p | p in g.path && p != x ensures g.Size(p) != g.Size(r) { assert f.Apart(p, r); }
  }

  /** Memory after `x` left its circular list. */
  function Spliced(m: map<Ptr, TreeChunk>, x: Ptr): map<Ptr, TreeChunk>
    requires x in m && m[x].fd in m && m[x].bk in m
  {
    var n, r := m[x].fd, m[x].bk;
    var m1 := m[n := m[n].(bk := r)];
    m1[r := m1[r].(fd := n)]
  }

  lemma SplicedMemory(m: map<Ptr, TreeChunk>, x: Ptr)
    requires x in m && m[x].fd in m && m[x].bk in m && m[x].fd != x && m[x].bk != x
    ensures var m' := Spliced(m, x);
      && m'.Keys == m.Keys && m'[x] == m[x]
      && (forall y | y in m :: SameTree(m[y], m'[y]))
      && (forall y | y in m && y != m[x].bk :: m'[y].fd == m[y].fd)
      && (forall y | y in m && y != m[x].fd :: m'[y].bk == m[y].bk)
      && m'[m[x].bk].fd == m[x].fd && m'[m[x].fd].bk == m[x].bk
  {}

  /** The neighbours of a chunk in its circular list. */
  lemma Neighbours(f: Forest, p: Ptr, k: nat)
    requires f.Ok() && p in f.chain && k < |f.chain[p]|
    ensures var c, x := f.chain[p], f.chain[p][k];
      && x in f.mem && f.mem[x].fd in c && f.mem[x].bk in c
      && f.mem[x].fd == (if k + 1 == |c| then c[0] else c[k + 1])
      && f.mem[x].bk == (if k == 0 then c[|c| - 1] else c[k - 1])
      && (|c| > 1 ==> f.mem[x].fd != x && f.mem[x].bk != x)
      && (|c| == 1 ==> f.mem[x].bk == x)
  {
    assert f.ChainOk(p) && f.LinkOk(p, k);
    var j := if k == 0 then |f.chain[p]| - 1 else k - 1;
    assert f.LinkOk(p, j) && f.After(p, j) == f.chain[p][k];
  }

  /** The circular list that is left, starting at its new head. */
  function Remaining(c: seq<Ptr>, k: nat): seq<Ptr>
    requires k < |c| && |c| > 1
  {
    if k == 0 then [c[|c| - 1]] + c[1..|c| - 1] else c[..k] + c[k + 1..]
  }

  lemma RemainingMembers(c: seq<Ptr>, k: nat)
    requires k < |c| && |c| > 1
    requires forall i, j | 0 <= i < j < |c| :: c[i] != c[j]
    ensures var d := Remaining(c, k);
      && |d| == |c| - 1
      && (forall y :: y in d <==> y in c && y != c[k])
      && (forall i, j | 0 <= i < j < |d| :: d[i] != d[j])
  {
    var d := Remaining(c, k);
    forall y ensures y in d <==> y in c && y != c[k] {
      if y in c && y != c[k] {
        var j :| 0 <= j < |c| && c[j] == y;
        if k == 0 {
          assert d[if j == |c| - 1 then 0 else j] == y;
        } else {
          assert d[if j < k then j else j - 1] == y;
        }
      }
    }
  }

  /** Position `j` of the circular list `d` is linked to the next one, both ways. */
  ghost predicate Linked(m: map<Ptr, TreeChunk>, d: seq<Ptr>, j: nat)
    requires j < |d|
  {
    var x, y := d[j], if j + 1 == |d| then d[0] else d[j + 1];
    x in m && y in m && m[x].fd == y && m[y].bk == x
  }

  lemma ChainLinked(f: Forest, p: Ptr, k: nat)
    requires f.Ok() && p in f.chain && k < |f.chain[p]|
    ensures Linked(f.mem, f.chain[p], k) && f.ChainOk(p) && f.LinkOk(p, k)
  {
    assert f.ChainOk(p) && f.LinkOk(p, k);
  }

  /** `m'` is `m` after member `k` of the circular list `c` left it, but for tree fields. */
  ghost predicate Leaves(m: map<Ptr, TreeChunk>, c: seq<Ptr>, k: nat, m': map<Ptr, TreeChunk>) {
    && k < |c| && |c| > 1 && (forall i | 0 <= i < |c| :: Linked(m, c, i))
    && (forall i, l | 0 <= i < l < |c| :: c[i] != c[l])
    && c[k] in m && m[c[k]].fd in m && m[c[k]].bk in m && m'.Keys == m.Keys
    && (forall y | y in m :: SameLinks(Spliced(m, c[k])[y], m'[y]))
  }

  /** The links that change when a member leaves are those of its two neighbours. */
  lemma LeavesLinks(m: map<Ptr, TreeChunk>, c: seq<Ptr>, k: nat, m': map<Ptr, TreeChunk>, i: nat)
    requires Leaves(m, c, k, m') && i < |c| && i != k
    ensures var n := |c|;
      var before, after := if k == 0 then n - 1 else k - 1, if k + 1 == n then 0 else k + 1;
      && c[i] in m'
      && m'[c[i]].fd == (if i == before then c[after] else m[c[i]].fd)
      && m'[c[i]].bk == (if i == after then c[before] else m[c[i]].bk)
  {
    var n := |c|;
    assert Linked(m, c, k) && Linked(m, c, if k == 0 then n - 1 else k - 1) && Linked(m, c, i);
    SplicedMemory(m, c[k]);
  }

  /** A list stays linked when one member leaves it. */
  lemma RemainingLinked(m: map<Ptr, TreeChunk>, c: seq<Ptr>, k: nat, m': map<Ptr, TreeChunk>, j: nat)
    requires Leaves(m, c, k, m') && j < |c| - 1
    ensures Linked(m', Remaining(c, k), j)
  {
    var n, d := |c|, Remaining(c, k);
    if k == 0 {
      var i := if j == 0 then n - 1 else j;
      var l := if i == n - 1 then 1 else i + 1;
      assert d[j] == c[i];
      LeavesLinks(m, c, k, m', i);
      LeavesLinks(m, c, k, m', l);
      assert Linked(m, c, i);
    } else {
      var i := if j < k then j else j + 1;
      var l := if i + 1 == n then 0 else if i + 1 != k then i + 1 else if k + 1 == n then 0 else k + 1;
      assert d[j] == c[i];
      LeavesLinks(m, c, k, m', i);
      LeavesLinks(m, c, k, m', l);
      assert Linked(m, c, i);
    }
  }

  /** `f'` is `f` after member `k` left the chain of `p`, which now hangs off `h`. */
  ghost predicate MemberLeft(f: Forest, p: Ptr, k: nat, h: Ptr, f': Forest) {
    && f.Ok() && p in f.chain && Leaves(f.mem, f.chain[p], k, f'.mem)
    && (forall y | y in f.mem && y !in f.path && y != h :: f'.mem[y] == Spliced(f.mem, f.chain[p][k])[y])
    && h == Remaining(f.chain[p], k)[0]
    && f'.chain == (f.chain - {p})[h := Remaining(f.chain[p], k)]
  }

  /** Every member but the head still has no place in the tree. */
  lemma MemberAfterLeaving(f: Forest, p: Ptr, k: nat, h: Ptr, f': Forest, y: Ptr)
    requires MemberLeft(f, p, k, h, f') && y in Remaining(f.chain[p], k)
    ensures y in f'.mem && y != NULL && f'.mem[y].size == f.Size(p) && f'.mem[y].index == f.mem[p].index
    ensures y != h ==> f'.mem[y].parent == NoParent && f'.mem[y].left == NULL && f'.mem[y].right == NULL
  {
    var c, x := f.chain[p], f.chain[p][k];
    assert f.ChainOk(p);
    RemainingMembers(c, k);
    var i :| 0 <= i < |c| && c[i] == y;
    HeldNodes(f, p, i);
    Neighbours(f, p, k);
    SplicedMemory(f.mem, x);
  }

  lemma ChainAfterLeaving(f: Forest, p: Ptr, k: nat, h: Ptr, f': Forest)
    requires MemberLeft(f, p, k, h, f')
    ensures h in f'.mem && f'.ChainOk(h)
  {
    var d := Remaining(f.chain[p], k);
    RemainingMembers(f.chain[p], k);
    MemberAfterLeaving(f, p, k, h, f', h);
    forall j {:trigger f'.LinkOk(h, j)} | 0 <= j < |d| ensures f'.LinkOk(h, j) {
      RemainingLinked(f.mem, f.chain[p], k, f'.mem, j);
      MemberAfterLeaving(f, p, k, h, f', d[j]);
    }
  }

  lemma ChainsAfterLeaving(f: Forest, p: Ptr, k: nat, h: Ptr, f': Forest, q: Ptr)
    requires MemberLeft(f, p, k, h, f') && q in f'.chain
    ensures q in f'.mem && f'.ChainOk(q)
  {
    if q == h {
      ChainAfterLeaving(f, p, k, h, f');
    } else {
      var c := f.chain[p];
      assert Linked(f.mem, c, k);
      Neighbours(f, p, k);
      SplicedMemory(f.mem, c[k]);
      RemainingMembers(c, k) by { assert f.ChainOk(p); }
      assert h in Remaining(c, k);
      OtherChains(f, p, c[k], f', q);
    }
  }

  lemma HoldsAfterLeaving(f: Forest, p: Ptr, k: nat, h: Ptr, f': Forest)
    requires MemberLeft(f, p, k, h, f')
    ensures forall y :: f'.Holds(y) <==> y != f.chain[p][k] && f.Holds(y)
  {
    var c, d, x := f.chain[p], Remaining(f.chain[p], k), f.chain[p][k];
    assert f.ChainOk(p);
    RemainingMembers(c, k);
    forall y ensures f'.Holds(y) <==> y != x && f.Holds(y) {
      if f.Holds(y) && y != x {
        var q :| q in f.chain && y in f.chain[q];
        if q == p { assert y in f'.chain[h]; } else { assert q in f'.chain; HeadIsElsewhere(f, p, k, q); }
      }
      if f'.Holds(y) {
        var q :| q in f'.chain && y in f'.chain[q];
        if q == h { assert y in c; } else { assert y in f.chain[q]; if y == x { ChainMember(f, p, x); } }
      }
    }
  }

  lemma HeadIsElsewhere(f: Forest, p: Ptr, k: nat, q: Ptr)
    requires f.Ok() && p in f.chain && q in f.chain && q != p && k < |f.chain[p]| && |f.chain[p]| > 1
    ensures q != Remaining(f.chain[p], k)[0]
  {
    assert f.ChainOk(p);
    RemainingMembers(f.chain[p], k);
    var h := Remaining(f.chain[p], k)[0];
    assert h in Remaining(f.chain[p], k);
    ChainMember(f, p, h);
  }

  lemma MemberRemoved(f: Forest, p: Ptr, k: nat, h: Ptr, f': Forest)
    requires MemberLeft(f, p, k, h, f') && f'.TreesOk()
    ensures f'.Ok() && f'.Contents() == f.Contents() - {f.chain[p][k]}
  {
    forall q {:trigger f'.ChainOk(q)} | q in f'.chain ensures f'.ChainOk(q) { ChainsAfterLeaving(f, p, k, h, f', q); }
    HoldsAfterLeaving(f, p, k, h, f');
    SplicedMemory(f.mem, f.chain[p][k]) by { Neighbours(f, p, k); }
    RemovedContents(f, f.chain[p][k], f');
  }

  /** The chunk behind a list head in its list may take its place in the tree. */
  lemma MateMayReplace(f: Forest, x: Ptr, g: Forest)
    requires f.Ok() && x in f.path && |f.chain[x]| > 1
    requires x in f.mem && f.mem[x].fd in f.mem && f.mem[x].bk in f.mem && g == f.(mem := Spliced(f.mem, x))
    ensures Replaceable(g, x, f.mem[x].bk)
  {
    var c := f.chain[x];
    var r := f.mem[x].bk;
    assert f.ChainOk(x);
    Neighbours(f, x, 0);
    SplicedMemory(f.mem, x);
    TreeFrame(f, g);
    HeldNodes(f, x, |c| - 1);
    assert g.NodeOk(x) && g.KeyOk(x);
    forall p | p in g.path && p != x ensures g.Size(p) != g.Size(r) { assert f.Apart(p, x); }
  }

  /** The head of a list left it, and the chunk behind it took its place. */
  lemma HeadRemoved(f: Forest, x: Ptr, g: Forest, f': Forest)
    requires f.Ok() && x in f.path && |f.chain[x]| > 1
    requires x in f.mem && f.mem[x].fd in f.mem && f.mem[x].bk in f.mem && g == f.(mem := Spliced(f.mem, x))
    requires TreeWrites(g, f.mem[x].bk, f'.mem) && f'.TreesOk()
    requires f'.chain == (f.chain - {x})[f.mem[x].bk := Remaining(f.chain[x], 0)]
    ensures f'.Ok() && f'.Contents() == f.Contents() - {x}
  {
    assert f.ChainOk(x);
    Neighbours(f, x, 0);
    SplicedMemory(f.mem, x);
    forall i | 0 <= i < |f.chain[x]| ensures Linked(f.mem, f.chain[x], i) { ChainLinked(f, x, i); }
    MemberRemoved(f, x, 0, f.mem[x].bk, f');
  }

  /** A chunk that is not a list head left its list. */
  lemma MateRemoved(f: Forest, p: Ptr, k: nat, f': Forest)
    requires f.Ok() && p in f.chain && 0 < k < |f.chain[p]|
    requires var x := f.chain[p][k];
      && x in f.mem && f.mem[x].fd in f.mem && f.mem[x].bk in f.mem
      && f' == f.(mem := Spliced(f.mem, x), chain := (f.chain - {p})[p := Remaining(f.chain[p], k)])
    ensures f'.Ok() && f'.Contents() == f.Contents() - {f.chain[p][k]}
  {
    assert f.ChainOk(p);
    Neighbours(f, p, k);
    SplicedMemory(f.mem, f.chain[p][k]);
    TreeFrame(f, f');
    forall i | 0 <= i < |f.chain[p]| ensures Linked(f.mem, f.chain[p], i) { ChainLinked(f, p, i); }
    MemberRemoved(f, p, k, p, f');
  }

  /** The only chunk of its size left the tree. */
  lemma LoneRemoved(f: Forest, x: Ptr, f': Forest)
    requires f.Ok() && x in f.path && |f.chain[x]| == 1
    requires TreeWrites(f, x, f'.mem) && f'.TreesOk() && f'.chain == f.chain - {x}
    ensures f'.Ok() && f'.Contents() == f.Contents() - {x}
  {
    ChainDropped(f, x, f');
    RemovedContents(f, x, f');
  }

  /** Detaching a leaf and putting it, or nothing, in the place of a lone node removes the node. */
  lemma LoneUnlinked(f: Forest, g: Forest, f': Forest, x: Ptr, r: Ptr)
    requires f.Ok() && x in f.path && |f.chain[x]| == 1 && TreeWrites(f, x, g.mem)
    requires if r == NULL then g == f else r in f.path && r != x && g.path == f.path - {r} && g.chain == f.chain - {r}
    requires Replaceable(g, x, r) && f'.TreesOk() && TreeWrites(g, if r == NULL then x else r, f'.mem)
    requires f'.chain == if r == NULL then g.chain - {x} else (g.chain - {x})[r := f.chain[r]]
    ensures f'.Ok() && f'.Contents() == f.Contents() - {x}
  {
    assert f'.chain == f.chain - {x};
    LoneRemoved(f, x, f');
  }

  lemma EmptyOk(f: Forest)
    requires f.mem == map[] && |f.roots| == NTREEBINS && (forall i | 0 <= i < NTREEBINS :: f.roots[i] == NULL)
    requires f.treemap == BinMap.EMPTY && f.path == map[] && f.chain == map[]
    ensures f.Ok() && f.Contents() == map[]
  {
    forall i: nat | i < NTREEBINS ensures !BinMap.Marked(f.treemap, i) { BinMap.MarkedIsBit(f.treemap, i); }
  }

  /** An empty bin map means that nothing is held. */
  lemma NothingHeld(f: Forest)
    requires f.Ok() && f.treemap == BinMap.EMPTY
    ensures f.Contents() == map[]
  {
    forall x ensures x !in f.Contents() {
      ContentsAre(f, x);
      if f.Holds(x) {
        var p :| p in f.chain && x in f.chain[p];
        var a := Ancestor(f, p, 0);
        assert f.NodeOk(a) && f.ParentOk(a) && f.RootOk(f.mem[a].index);
        BinMap.MarkedIsBit(f.treemap, f.mem[a].index);
      }
    }
  }

  /** A bin map that is not empty means that something is held. */
  lemma SomethingHeld(f: Forest)
    requires f.Ok() && f.treemap != BinMap.EMPTY
    ensures exists x :: x in f.Contents()
  {
    SmallestBinCovers(f);
    var p := f.roots[BinMap.Position(BinMap.LeastBit(f.treemap))];
    assert f.ChainOk(p);
    HeldNodes(f, p, 0);
    ContentsAre(f, p);
  }

  /** The best fit, said of the contents. */
  lemma BestFitContents(f: Forest, nb: nat, v: Ptr)
    requires f.Ok() && BestFit(f, nb, v)
    ensures v != NULL ==> v in f.mem && v in f.Contents() && f.Contents()[v] == f.Size(v) && nb <= f.Size(v)
    ensures forall x {:trigger x in f.Contents()} :: x in f.Contents() && nb <= f.Contents()[x] ==>
      v != NULL && f.Size(v) <= f.Contents()[x]
  {
    if v != NULL { ContentsAre(f, v); }
    forall x | x in f.Contents() && nb <= f.Contents()[x]
      ensures v != NULL && f.Size(v) <= f.Contents()[x] { ContentsAre(f, x); }
  }

  class TreeBins {
    var mem: map<Ptr, TreeChunk>
    var roots: seq<Ptr>
    var treemap: BinMap.Word
    ghost var path: map<Ptr, seq<bool>>
    ghost var chain: map<Ptr, seq<Ptr>>

    ghost function View(): Forest
      reads this
    {
      Forest(mem, roots, treemap, path, chain)
    }

    ghost predicate Valid()
      reads this
    {
      View().Ok()
    }

    /** Empty bins. */
    constructor ()
      ensures Valid() && View().Contents() == map[]
    {
      mem, roots, treemap := map[], seq(NTREEBINS, _ => NULL), BinMap.EMPTY;
      path, chain := map[], map[];
      new;
      EmptyOk(View());
    }

    /**
      Walks down the trie of bin `idx` along the bits of `nb`, keeping the best node met and the
      deepest right subtree not taken. The result `t` is where a smaller fit may still hide.
     */
    method WalkDown(nb: nat, idx: nat) returns (t: Ptr, v: Ptr, rsize: nat)
      requires Valid() && MIN_LARGE <= nb < WORD && idx == TreeIndex(nb) < NTREEBINS
      requires roots[idx] != NULL
      ensures Candidate(View(), nb, v, rsize) && (v != NULL ==> mem[v].index == idx)
      ensures t != NULL ==> t in path && mem[t].index == idx
      ensures BinCovered(View(), nb, idx, rsize, NULL, t)
      ensures LargeSize(nb) ==> rsize == 0 || AllFit(View(), nb, t)
    {
      t := roots[idx];
      v := NULL;
      rsize := WORD - nb;
      var key := Key(nb, idx);
      var rst := NULL;
      WalkStarts(View(), nb, idx);
      while true
        invariant Walking(View(), nb, idx, t, rst, key) && |path[t]| <= 64
        invariant Candidate(View(), nb, v, rsize) && (v != NULL ==> mem[v].index == idx)
        invariant BinCovered(View(), nb, idx, rsize, t, rst)
        decreases 64 - |path[t]|
      {
        assert View().NodeOk(t);
        ghost var t0, rst0, rsize0 := t, rst, rsize;
        var trem := Minus(mem[t].size, nb);
        if trem < rsize {
          v := t;
          rsize := trem;
          if rsize == 0 { break; }
        }
        var rt := mem[t].right;
        t := mem[t].Child(TopBit(key));
        if rt != NULL && rt != t { rst := rt; }
        WalkOn(View(), nb, idx, rsize0, rsize, t0, rst0, key, t, rst);
        if t == NULL {
          t := rst;
          break;
        }
        key := Shl(key);
      }
    }

    /** The part of the search that picks a subtree: in the request's own bin, or the next marked bin. */
    method PickSubtree(nb: nat) returns (t: Ptr, v: Ptr, rsize: nat)
      requires Valid() && MIN_LARGE <= nb < WORD
      ensures Candidate(View(), nb, v, rsize)
      ensures t != NULL ==> t in path && View().NodeOk(t)
      ensures AllCovered(View(), nb, rsize, t)
      ensures LargeSize(nb) ==> rsize == 0 || AllFit(View(), nb, t)
    {
      ghost var f := View();
      var idx := TreeIndex(nb);
      TreeIndexBelow(nb);
      t, v, rsize := NULL, NULL, WORD - nb;
      if roots[idx] != NULL {
        t, v, rsize := WalkDown(nb, idx);
      } else {
        EmptyBinCovered(f, nb, idx);
      }
      if t == NULL && v == NULL {
        var leftbits := BinMap.And(BinMap.LeftBits(BinMap.BitOf(idx)), treemap);
        NextMarkedBin(f, idx, leftbits);
        if leftbits != BinMap.EMPTY {
          var i := BinMap.Position(BinMap.LeastBit(leftbits));
          t := roots[i];
          assert f.RootOk(i);
          NextBinCovers(f, nb, idx, i);
        } else {
          NextBinCovers(f, nb, idx, NTREEBINS);
        }
      } else {
        OtherBinsAreCovered(f, nb, idx, v, rsize, t);
      }
    }

    /** The search of a large request: the best fit, before it is compared with the designated victim. */
    method FindLarge(nb: nat) returns (v: Ptr, rsize: nat)
      requires Valid() && MIN_LARGE <= nb < WORD
      ensures BestFit(View(), nb, v)
      ensures Candidate(View(), nb, v, rsize)
    {
      ghost var f := View();
      var t;
      t, v, rsize := PickSubtree(nb);
      while t != NULL
        invariant t != NULL ==> t in path && f.NodeOk(t)
        invariant Candidate(f, nb, v, rsize)
        invariant AllCovered(f, nb, rsize, t)
        invariant LargeSize(nb) ==> rsize == 0 || AllFit(f, nb, t)
        decreases if t == NULL then 0 else 65 - |path[t]|
      {
        assert Below(f, t, t);
        var trem := Minus(mem[t].size, nb);
        if trem < rsize {
          rsize, v := trem, t;
        }
        LeftmostIsDeeper(f, t);
        LeftmostCovers(f, nb, rsize, t);
        t := LeftmostChild(mem[t]);
        assert t != NULL ==> f.NodeOk(t);
      }
      BestNodeIsBestFit(f, nb, v, rsize);
    }

    /** The search of a small request in the trees: the smallest chunk of all. */
    method FindSmallest(nb: nat) returns (v: Ptr, rsize: nat)
      requires Valid() && nb < MIN_LARGE
      requires treemap != BinMap.EMPTY
      ensures BestFit(View(), nb, v) && v != NULL && rsize == mem[v].size - nb
      ensures v in path
    {
      ghost var f := View();
      SmallestBinCovers(f);
      var i := BinMap.Position(BinMap.LeastBit(treemap));
      v := roots[i];
      assert f.NodeOk(v);
      rsize := mem[v].size - nb;
      LeftmostIsDeeper(f, v);
      var t := LeftmostChild(mem[v]);
      SmallestIsBelow(f, nb, rsize, v);
      while t != NULL
        invariant t != NULL ==> t in path && f.NodeOk(t)
        invariant v in path && f.NodeOk(v) && rsize == mem[v].size - nb
        invariant AllCovered(f, nb, rsize, t)
        decreases if t == NULL then 0 else 65 - |path[t]|
      {
        var trem := mem[t].size - nb;
        if trem < rsize {
          rsize, v := trem, t;
        }
        LeftmostIsDeeper(f, t);
        SmallestIsBelow(f, nb, rsize, t);
        t := LeftmostChild(mem[t]);
        assert t != NULL ==> f.NodeOk(t);
      }
      BestNodeIsBestFit(f, nb, v, rsize);
    }

    /** Links `x` below the last node on its branch, or into the chain of the node of its size. */
    method LinkIntoTree(x: Ptr, s: nat, i: nat)
      requires Valid() && LargeSize(s) && x != NULL && !View().Holds(x) && i == TreeIndex(s) < NTREEBINS
      requires x in mem && mem[x].size == s && mem[x].left == NULL && mem[x].right == NULL && mem[x].index == i
      requires roots[i] != NULL
      modifies this
      ensures Valid()
      ensures View().Contents() == old(View().Contents())[x := s]
    {
      ghost var f := View();
      var t := roots[i];
      var key := Key(s, i);
      WalkStarts(f, s, i);
      NotAboveRoot(f, s, i);
      while true
        invariant View() == f && Walking(f, s, i, t, NULL, key) && NotAbove(f, s, t)
        decreases 64 - |path[t]|
      {
        assert f.NodeOk(t);
        if mem[t].size != s {
          var b := TopBit(key);
          WalkContinues(f, s, i, t, NULL, key);
          if mem[t].Child(b) != NULL {
            NotAboveStep(f, s, t, b);
            t := mem[t].Child(b);
            key := Shl(key);
          } else {
            mem := mem[t := mem[t].WithChild(b, x)];
            mem := mem[x := mem[x].(parent := Node(t), fd := x, bk := x)];
            path := path[x := path[t] + [b]];
            chain := chain[x := [x]];
            LeafTrees(f, x, s, t, b, View());
            LeafInserted(f, x, mem[x], t, b, View());
            break;
          }
        } else {
          assert f.ChainOk(t) && f.LinkOk(t, 0);
          var n := mem[t].fd;
          mem := mem[n := mem[n].(bk := x)];
          mem := mem[t := mem[t].(fd := x)];
          mem := mem[x := mem[x].(fd := n, bk := t, parent := NoParent)];
          chain := chain[t := [t, x] + chain[t][1..]];
          ChainInserted(f, x, s, t, View());
          break;
        }
      }
    }

    /** Puts the free chunk `x` of size `s` into its bin. */
    method InsertLarge(x: Ptr, s: nat)
      requires Valid() && LargeSize(s) && x != NULL && !View().Holds(x)
      modifies this
      ensures Valid()
      ensures View().Contents() == old(View().Contents())[x := s]
    {
      ghost var f0 := View();
      var i := TreeIndex(s);
      TreeIndexBelow(s);
      mem := mem[x := TreeChunk(s, NULL, NULL, NULL, NULL, NoParent, i)];
      ghost var f := View();
      WriteElsewhere(f0, x, mem[x], f);
      assert !f.Holds(x);
      assert f.RootOk(i);
      if !BinMap.Marked(treemap, i) {
        treemap := BinMap.Mark(treemap, i);
        roots := roots[i := x];
        mem := mem[x := mem[x].(parent := Slot(i), fd := x, bk := x)];
        path := path[x := []];
        chain := chain[x := [x]];
        RootInserted(f, x, s, i, View());
      } else {
        LinkIntoTree(x, s, i);
      }
    }

    /** What pointed to `x` from above, its bin or its parent, points to `r`. */
    method Rehang(x: Ptr, r: Ptr)
      requires x in mem && mem[x].index < |roots| == NTREEBINS
      requires x == roots[mem[x].index] <==> mem[x].parent.Slot?
      requires mem[x].parent.Slot? || (mem[x].parent.Node? && mem[x].parent.node in mem)
      modifies `mem, `roots, `treemap
      ensures mem == Rehung(old(mem), x, r)
      ensures var i := old(mem[x].index);
        if x == old(roots)[i] then
          && roots == old(roots)[i := r]
          && treemap == if r == NULL then BinMap.Clear(old(treemap), i) else old(treemap)
        else roots == old(roots) && treemap == old(treemap)
    {
      var xp, i := mem[x].parent, mem[x].index;
      if x == roots[i] {
        roots := roots[i := r];
        if r == NULL { treemap := BinMap.Clear(treemap, i); }
      } else {
        var q := xp.node;
        mem := mem[q := if mem[q].left == x then mem[q].(left := r) else mem[q].(right := r)];
      }
    }

    /** `r` takes over the parent and the children of `x`. */
    method Adopt(x: Ptr, r: Ptr)
      requires x in mem && r in mem && x != r
      requires mem[x].left == NULL || (mem[x].left in mem && mem[x].left != x)
      requires mem[x].right == NULL || (mem[x].right in mem && mem[x].right != x)
      modifies `mem
      ensures mem == Adopted(old(mem), x, r)
    {
      mem := mem[r := mem[r].(parent := mem[x].parent)];
      var c0 := mem[x].left;
      if c0 != NULL {
        mem := mem[r := mem[r].(left := c0)];
        mem := mem[c0 := mem[c0].(parent := Node(r))];
      }
      var c1 := mem[x].right;
      if c1 != NULL {
        mem := mem[r := mem[r].(right := c1)];
        mem := mem[c1 := mem[c1].(parent := Node(r))];
      }
    }

    /**
      Closes the gap that `x` leaves in its tree: `r`, or nothing when `r` is null, takes its place.
      The list `c` of chunks of the size of `r` comes along.
     */
    method Relink(x: Ptr, r: Ptr, ghost c: seq<Ptr>)
      requires Replaceable(View(), x, r)
      modifies this
      ensures View().TreesOk()
      ensures path == if r == NULL then old(path) - {x} else (old(path) - {x})[r := old(path[x])]
      ensures chain == if r == NULL then old(chain) - {x} else (old(chain) - {x})[r := c]
      ensures TreeWrites(old(View()), if r == NULL then x else r, mem)
    {
      ghost var f := View();
      Surroundings(f, x);
      if r != NULL { RelinkedMemory(mem, x, r); }
      Rehang(x, r);
      if r != NULL {
        Adopt(x, r);
        path := (path - {x})[r := path[x]];
        chain := (chain - {x})[r := c];
        ReplaceDone(f, x, r, c, View());
      } else {
        path := path - {x};
        chain := chain - {x};
        PruneDone(f, x, View());
      }
    }

    /** Takes the rightmost leaf below `x` off the tree; null when `x` is itself a leaf. */
    method DetachLeaf(x: Ptr) returns (r: Ptr)
      requires Valid() && x in path
      modifies this
      ensures Replaceable(View(), x, r) && TreeWrites(old(View()), x, mem)
      ensures r == NULL ==> View() == old(View())
      ensures r != NULL ==> r in old(path) && r != x && path == old(path) - {r} && chain == old(chain) - {r}
    {
      ghost var f := View();
      Surroundings(f, x);
      var q, b := x, true;
      r := mem[x].right;
      if r == NULL {
        b := false;
        r := mem[x].left;
      }
      if r != NULL {
        while mem[r].right != NULL || mem[r].left != NULL
          invariant View() == f && Below(f, x, r) && r != x
          invariant q in path && mem[r].parent == Node(q) && mem[q].Child(b) == r
          decreases 64 - |path[r]|
        {
          Surroundings(f, r);
          q := r;
          if mem[q].right != NULL {
            b, r := true, mem[q].right;
          } else {
            b, r := false, mem[q].left;
          }
          assert f.NodeOk(r) && |f.path[q]| < |f.path[r]|;
        }
        SidesDiffer(f, q);
        mem := mem[q := mem[q].WithChild(b, NULL)];
        path := path - {r};
        chain := chain - {r};
        PruneLeaf(f, r, View());
        LeafMayReplace(f, x, r, View());
      }
    }

    /** Takes `x`, member `k` of the circular list of `p`, out of that list and, if it heads it, out of the tree. */
    method UnlinkFromList(x: Ptr, ghost p: Ptr, ghost k: nat)
      requires Valid() && p in chain && k < |chain[p]| && |chain[p]| > 1 && chain[p][k] == x && x in mem
      requires mem[x].parent == NoParent <==> k > 0
      modifies this
      ensures Valid()
      ensures View().Contents() == old(View().Contents()) - {x}
    {
      ghost var f := View();
      Neighbours(f, p, k);
      ChainLinked(f, p, k);
      ChainLinked(f, p, if k == 0 then |chain[p]| - 1 else k - 1);
      var n, r := mem[x].fd, mem[x].bk;
      assert n in mem && r in mem && mem[n].bk == x && mem[r].fd == x;
      mem := mem[n := mem[n].(bk := r)];
      mem := mem[r := mem[r].(fd := n)];
      ghost var g := View();
      if mem[x].parent != NoParent {
        MateMayReplace(f, x, g);
        Relink(x, r, Remaining(f.chain[x], 0));
        HeadRemoved(f, x, g, View());
      } else {
        chain := (chain - {p})[p := Remaining(chain[p], k)];
        MateRemoved(f, p, k, View());
      }
    }

    /** Takes `x`, the only chunk of its size, out of the tree. */
    method UnlinkFromTree(x: Ptr)
      requires Valid() && x in path && |chain[x]| == 1
      modifies this
      ensures Valid()
      ensures View().Contents() == old(View().Contents()) - {x}
    {
      ghost var f := View();
      var r := DetachLeaf(x);
      ghost var g := View();
      Relink(x, r, if r == NULL then [] else f.chain[r]);
      LoneUnlinked(f, g, View(), x, r);
    }

    /** Takes the chunk `x` out of its bin. */
    method UnlinkLarge(x: Ptr)
      requires Valid() && View().Holds(x)
      modifies this
      ensures Valid()
      ensures View().Contents() == old(View().Contents()) - {x}
    {
      ghost var f := View();
      ghost var p :| p in chain && x in chain[p];
      ghost var k :| 0 <= k < |chain[p]| && chain[p][k] == x;
      HeldNodes(f, p, k);
      Neighbours(f, p, k);
      assert f.ParentOk(p);
      if mem[x].bk != x {
        UnlinkFromList(x, p, k);
      } else {
        UnlinkFromTree(x);
      }
    }
  }
}
