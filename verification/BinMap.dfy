/**
  The 32-bit bin maps of the allocator: bit `i` is set exactly when bin `i` is not empty.
  A machine word is a sequence of bits, the least significant bit first, and the word
  operations are the machine's own, two's complement included.
 */
module BinMap {

  const BINS := 32

  function Zeros(n: nat): (w: seq<bool>)
    ensures |w| == n && forall i | 0 <= i < n :: !w[i]
  {
    if n == 0 then [] else [false] + Zeros(n - 1)
  }

  const EMPTY := Zeros(BINS)

  type Word = w: seq<bool> | |w| == BINS witness EMPTY

  function And(a: Word, b: Word): Word {
    seq(BINS, i requires 0 <= i < BINS => a[i] && b[i])
  }

  function Or(a: Word, b: Word): Word {
    seq(BINS, i requires 0 <= i < BINS => a[i] || b[i])
  }

  function Not(a: Word): Word {
    seq(BINS, i requires 0 <= i < BINS => !a[i])
  }

  /** Adds one, carrying upwards; the carry out of the last bit is lost. */
  function Increment(a: seq<bool>): (r: seq<bool>)
    ensures |r| == |a|
  {
    if a == [] then [] else if a[0] then [false] + Increment(a[1..]) else [true] + a[1..]
  }

  function Negate(a: Word): Word {
    Increment(Not(a))
  }

  function ShiftLeft(a: Word): Word {
    [false] + a[..BINS - 1]
  }

  /** The bit that stands for bin `i`. */
  function BitOf(i: nat): Word
    requires i < BINS
  {
    EMPTY[i := true]
  }

  predicate Marked(m: Word, i: nat)
    requires i < BINS
  {
    And(m, BitOf(i)) != EMPTY
  }

  function Mark(m: Word, i: nat): Word
    requires i < BINS
  {
    Or(m, BitOf(i))
  }

  function Clear(m: Word, i: nat): Word
    requires i < BINS
  {
    And(m, Not(BitOf(i)))
  }

  /** Isolates the least set bit. */
  function LeastBit(m: Word): Word {
    And(m, Negate(m))
  }

  /** All bits to the left of the least bit of `b`. */
  function LeftBits(b: Word): Word {
    Or(ShiftLeft(b), Negate(ShiftLeft(b)))
  }

  /** Counts trailing zeros. */
  function Position(b: seq<bool>): (i: nat)
    requires true in b
    ensures i < |b| && b[i] && forall j | 0 <= j < i :: !b[j]
  {
    if b[0] then 0 else 1 + Position(b[1..])
  }

  lemma MarkedIsBit(m: Word, i: nat)
    requires i < BINS
    ensures Marked(m, i) <==> m[i]
  {
    var w := And(m, BitOf(i));
    assert w[i] == m[i];
    assert forall j | 0 <= j < BINS && j != i :: !w[j];
    if !m[i] { assert w == EMPTY; }
  }

  /** Marking or clearing one bin changes the answer for that bin and for no other. */
  lemma MarkAndClear(m: Word, i: nat, j: nat)
    requires i < BINS && j < BINS
    ensures Marked(Mark(m, i), j) <==> j == i || Marked(m, j)
    ensures Marked(Clear(m, i), j) <==> j != i && Marked(m, j)
  {
    MarkedIsBit(m, j);
    MarkedIsBit(Mark(m, i), j);
    MarkedIsBit(Clear(m, i), j);
  }

  /** Adding one flips a bit exactly when every lower bit is set. */
  lemma {:induction false} IncrementBit(a: seq<bool>, i: nat)
    requires i < |a|
    ensures Increment(a)[i] == (a[i] != forall j | 0 <= j < i :: a[j])
  {
    if i > 0 && a[0] {
      IncrementBit(a[1..], i - 1);
      assert (forall j | 0 <= j < i :: a[j]) <==> forall j | 0 <= j < i - 1 :: a[1..][j] by {
        assert forall j | 0 < j < i :: a[j] == a[1..][j - 1];
      }
    }
  }

  lemma NegateBit(a: Word, i: nat)
    requires i < BINS
    ensures Negate(a)[i] == (a[i] <==> forall j | 0 <= j < i :: !a[j])
  {
    IncrementBit(Not(a), i);
    assert forall j | 0 <= j < i :: Not(a)[j] == !a[j];
  }

  /** `LeastBit` holds the first set bit and nothing else. */
  lemma LeastBitIsFirst(m: Word, i: nat)
    requires i < BINS
    ensures LeastBit(m)[i] <==> m[i] && forall j | 0 <= j < i :: !m[j]
  {
    NegateBit(m, i);
  }

  /** The bit trick finds the first marked bin, and a map is zero exactly when no bin is marked. */
  lemma FirstMarked(m: Word)
    ensures m == EMPTY <==> forall j | 0 <= j < BINS :: !Marked(m, j)
    ensures m != EMPTY ==>
      && true in LeastBit(m)
      && var i := Position(LeastBit(m));
      && Marked(m, i)
      && forall j | 0 <= j < i :: !Marked(m, j)
  {
    forall j | 0 <= j < BINS ensures Marked(m, j) <==> m[j] { MarkedIsBit(m, j); }
    if m != EMPTY {
      assert exists j :: 0 <= j < BINS && m[j];
      var i := Position(m);
      LeastBitIsFirst(m, i);
      assert LeastBit(m)[i];
      LeastBitIsFirst(m, Position(LeastBit(m)));
    }
  }

  /** `LeftBits` of one bin's bit selects exactly the marked bins above it. */
  lemma MarkedAbove(m: Word, i: nat, j: nat)
    requires i < BINS && j < BINS
    ensures Marked(And(LeftBits(BitOf(i)), m), j) <==> i < j && Marked(m, j)
  {
    MarkedIsBit(m, j);
    MarkedIsBit(And(LeftBits(BitOf(i)), m), j);
    var s := ShiftLeft(BitOf(i));
    NegateBit(s, j);
    assert forall k | 0 <= k < BINS :: s[k] <==> k == i + 1;
    if i < j { assert s[i + 1]; }
  }

  /** The word shifted to the right by `n`. */
  function Down(a: Word, n: nat): Word
    requires n <= BINS
  {
    a[n..] + Zeros(n)
  }

  /** The word shifted to the left by `n`. */
  function Up(a: Word, n: nat): Word
    requires n <= BINS
  {
    Zeros(n) + a[..BINS - n]
  }

  /** Shifting down and up again only loses bins that the mask leaves out anyway. */
  lemma ShiftedAbove(m: Word, i: nat, j: nat)
    requires i < BINS && j < BINS
    ensures Marked(And(Up(Down(m, i), i), LeftBits(BitOf(i))), j) <==> i < j && Marked(m, j)
  {
    MarkedAbove(m, i, j);
    MarkedIsBit(And(LeftBits(BitOf(i)), m), j);
    MarkedIsBit(And(Up(Down(m, i), i), LeftBits(BitOf(i))), j);
    MarkedIsBit(m, j);
    if i < j { assert Up(Down(m, i), i)[j] == Down(m, i)[j - i] == m[j]; }
  }

  /** Where the first marked bin above an unmarked one is, and when there is none. */
  lemma FirstAbove(m: Word, i: nat)
    requires i < BINS
    ensures Down(m, i) == EMPTY <==> forall j | i <= j < BINS :: !Marked(m, j)
    ensures Down(m, i) != EMPTY && !Marked(m, i) ==>
      var left := And(Up(Down(m, i), i), LeftBits(BitOf(i)));
      && true in LeastBit(left)
      && var k := Position(LeastBit(left));
      i < k < BINS && Marked(m, k) && forall j | i <= j < k :: !Marked(m, j)
  {
    forall j | i <= j < BINS ensures Marked(m, j) <==> Down(m, i)[j - i] { MarkedIsBit(m, j); }
    if Down(m, i) == EMPTY {
      forall j | i <= j < BINS ensures !Marked(m, j) { assert EMPTY[j - i] == false; }
    } else {
      var n :| 0 <= n < BINS && Down(m, i)[n];
      assert Marked(m, i + n);
      var left := And(Up(Down(m, i), i), LeftBits(BitOf(i)));
      forall j | 0 <= j < BINS ensures Marked(left, j) <==> i < j && Marked(m, j) { ShiftedAbove(m, i, j); }
      FirstMarked(left);
    }
  }
}
