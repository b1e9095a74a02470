/**
  Chunk sizes as 64-bit keys: which tree bin a size belongs to, and the bits by which
  the trie of that bin branches.
 */
module SizeBits {

  const WORD: nat := 0x1_0000_0000_0000_0000
  const SIGN: nat := 0x8000_0000_0000_0000
  const NTREEBINS: nat := 32
  const MIN_LARGE: nat := 256
  /** The bin computation reads `size >> 8` as a 32-bit number, so it is only right below this. */
  const INDEX_LIMIT: nat := 0x100_0000_0000

  function Pow2(n: nat): (r: nat)
    ensures r > 0
  {
    if n == 0 then 1 else 2 * Pow2(n - 1)
  }

  function ShiftRight(s: nat, n: nat): (q: nat) {
    if n == 0 then s else ShiftRight(s / 2, n - 1)
  }

  /** The position of the highest set bit (31 less the count of leading zeros of a 32-bit word). */
  function HighBit(x: nat): (k: nat)
    requires x > 0
  {
    if x == 1 then 0 else 1 + HighBit(x / 2)
  }

  /** The tree bin of a size, with the 32-bit truncation of `size >> 8`. */
  function TreeIndex(s: nat): (i: nat)
  {
    var x := (s / 256) % 0x1_0000_0000;
    if x == 0 then 0
    else if x > 0xFFFF then NTREEBINS - 1
    else
      var k := HighBit(x);
      2 * k + ShiftRight(s, k + 7) % 2
  }

  /** The smallest size of bin `i`. */
  function MinSize(i: nat): (s: nat) {
    Pow2(i / 2 + 8) + if i % 2 == 1 then Pow2(i / 2 + 7) else 0
  }

  lemma {:induction false} Pow2Add(a: nat, b: nat)
    ensures Pow2(a + b) == Pow2(a) * Pow2(b)
  {
    if a > 0 {
      Pow2Add(a - 1, b);
      assert a + b - 1 == (a - 1) + b;
    }
  }

  lemma DoubledProduct(q: nat, p: nat)
    ensures q * (2 * p) == 2 * (q * p)
  {}

  lemma {:induction false} ShiftRightBounds(s: nat, n: nat)
    ensures ShiftRight(s, n) * Pow2(n) <= s < ShiftRight(s, n) * Pow2(n) + Pow2(n)
  {
    if n > 0 {
      ShiftRightBounds(s / 2, n - 1);
      DoubledProduct(ShiftRight(s / 2, n - 1), Pow2(n - 1));
    }
  }

  lemma {:induction false} HighBitBounds(x: nat)
    requires x > 0
    ensures Pow2(HighBit(x)) <= x < 2 * Pow2(HighBit(x))
  {
    if x > 1 { HighBitBounds(x / 2); }
  }

  lemma Pow2Values()
    ensures Pow2(8) == 0x100 && Pow2(16) == 0x1_0000 && Pow2(22) == 0x40_0000 && Pow2(23) == 0x80_0000
  {
    assert Pow2(4) == 16;
    Pow2Add(4, 4);
    Pow2Add(8, 8);
    Pow2Add(16, 4);
    assert Pow2(22) == 4 * Pow2(20);
  }

  lemma {:induction false} HighBitBelow(x: nat, n: nat)
    requires 0 < x < Pow2(n)
    ensures HighBit(x) < n
  {
    if x > 1 { HighBitBelow(x / 2, n - 1); }
  }

  lemma QuotientIsTwoOrThree(s: nat, q: nat, h: nat)
    requires 2 * h <= s < 4 * h && q * h <= s < q * h + h
    ensures q == if s < 3 * h then 2 else 3
  {}

  lemma Pow2Plus7(k: nat)
    ensures Pow2(k + 7) == 128 * Pow2(k)
  {
    assert Pow2(k + 2) == 4 * Pow2(k);
    assert Pow2(k + 4) == 4 * Pow2(k + 2);
    assert Pow2(k + 6) == 4 * Pow2(k + 4);
  }

  lemma HalfOfSize(s: nat, k: nat)
    requires 2 * Pow2(k + 7) <= s < 4 * Pow2(k + 7)
    ensures ShiftRight(s, k + 7) == if s < 3 * Pow2(k + 7) then 2 else 3
  {
    ShiftRightBounds(s, k + 7);
    QuotientIsTwoOrThree(s, ShiftRight(s, k + 7), Pow2(k + 7));
  }

  lemma HeightOfSize(s: nat, k: nat)
    requires MIN_LARGE <= s < 0x100_0000 && k == HighBit(s / 256)
    ensures k < 16 && 2 * Pow2(k + 7) <= s < 4 * Pow2(k + 7)
  {
    assert k < 16 by {
      Pow2Values();
      HighBitBelow(s / 256, 16);
    }
    HighBitBounds(s / 256);
    Pow2Plus7(k);
  }

  /** Two bins per power of two: the index in terms of the high bit and the half it falls in. */
  lemma TreeIndexByHalves(s: nat, k: nat)
    requires MIN_LARGE <= s < 0x100_0000 && k == HighBit(s / 256)
    ensures k < 16 && 2 * Pow2(k + 7) <= s < 4 * Pow2(k + 7)
    ensures TreeIndex(s) == 2 * k + if s < 3 * Pow2(k + 7) then 0 else 1
  {
    HeightOfSize(s, k);
    HalfOfSize(s, k);
    assert (s / 256) % 0x1_0000_0000 == s / 256;
  }

  lemma MinSizeByHalves(k: nat)
    ensures MinSize(2 * k) == 2 * Pow2(k + 7)
    ensures MinSize(2 * k + 1) == 3 * Pow2(k + 7)
    ensures MinSize(2 * k + 2) == 4 * Pow2(k + 7)
  {
    assert (2 * k) / 2 == k && (2 * k + 1) / 2 == k && (2 * k + 2) / 2 == k + 1;
    assert Pow2(k + 9) == 4 * Pow2(k + 7);
  }

  /** Truncated or not, the index is a bin. */
  lemma TreeIndexBelow(s: nat)
    ensures TreeIndex(s) < NTREEBINS
  {
    var x := (s / 256) % 0x1_0000_0000;
    if 0 < x <= 0xFFFF {
      Pow2Values();
      HighBitBelow(x, 16);
    }
  }

  lemma TopBin(s: nat)
    requires 0x100_0000 <= s < INDEX_LIMIT
    ensures TreeIndex(s) == NTREEBINS - 1
  {
    assert (s / 256) % 0x1_0000_0000 == s / 256;
  }

  lemma TopBinStarts()
    ensures MinSize(NTREEBINS - 1) == 0xC0_0000
  {
    Pow2Values();
  }

  ghost predicate InBin(s: nat, i: nat) {
    i < NTREEBINS && MinSize(i) <= s && (i < NTREEBINS - 1 ==> s < MinSize(i + 1))
  }

  lemma HalvesAreBins(s: nat, k: nat)
    requires k < 16 && 2 * Pow2(k + 7) <= s < 4 * Pow2(k + 7)
    ensures InBin(s, 2 * k + if s < 3 * Pow2(k + 7) then 0 else 1)
  {
    MinSizeByHalves(k);
  }

  /** A size lies in its bin's interval. */
  lemma TreeIndexBounds(s: nat)
    requires MIN_LARGE <= s < INDEX_LIMIT
    ensures InBin(s, TreeIndex(s))
  {
    if s < 0x100_0000 {
      TreeIndexByHalves(s, HighBit(s / 256));
      HalvesAreBins(s, HighBit(s / 256));
    } else {
      TopBin(s);
      TopBinStarts();
    }
  }

  lemma {:induction false} MinSizeIncreases(i: nat, j: nat)
    requires i < j
    ensures MinSize(i) < MinSize(j)
  {
    assert MinSize(j - 1) < MinSize(j) by {
      if j % 2 == 0 { assert (j - 1) / 2 + 1 == j / 2; } else { assert (j - 1) / 2 == j / 2; }
    }
    if i < j - 1 { MinSizeIncreases(i, j - 1); }
  }

  /** Bins are ordered as sizes are: every size of a lower bin is below every size of a higher one. */
  lemma LowerBinSmallerSize(s: nat, t: nat)
    requires MIN_LARGE <= s < INDEX_LIMIT && MIN_LARGE <= t < INDEX_LIMIT
    requires TreeIndex(s) < TreeIndex(t)
    ensures s < t
  {
    TreeIndexBounds(s);
    TreeIndexBounds(t);
    if TreeIndex(s) + 1 < TreeIndex(t) { MinSizeIncreases(TreeIndex(s) + 1, TreeIndex(t)); }
  }

  lemma HalfStep(q: nat, r: nat, p: nat)
    ensures (q * (2 * p) + r) / 2 == q * p + r / 2
  {
    DoubledProduct(q, p);
  }

  lemma {:induction false} HighBitIs(x: nat, n: nat)
    requires Pow2(n) <= x < 2 * Pow2(n)
    ensures HighBit(x) == n
  {
    if n > 0 { HighBitIs(x / 2, n - 1); }
  }

  /** High bits do not disturb the low part of a shift. */
  lemma {:induction false} ShiftRightAdds(q: nat, r: nat, n: nat, m: nat)
    ensures ShiftRight(q * Pow2(n + m) + r, n) == q * Pow2(m) + ShiftRight(r, n)
    decreases n, q
  {
    if n > 0 {
      assert Pow2(n + m) == 2 * Pow2(n - 1 + m);
      HalfStep(q, r, Pow2(n - 1 + m));
      ShiftRightAdds(q, r / 2, n - 1, m);
    }
  }

  lemma EvenPlus(x: nat, y: nat)
    ensures (2 * x + y) % 2 == y % 2
  {}

  lemma SameLowBit(q: nat, r: nat)
    ensures ShiftRight(q * INDEX_LIMIT + r, 22) % 2 == ShiftRight(r, 22) % 2
  {
    Pow2Of40();
    ShiftRightAdds(q, r, 22, 18);
    DoubledProduct(q, Pow2(17));
    EvenPlus(q * Pow2(17), ShiftRight(r, 22));
  }

  /** Bit 22 of a size whose bits 23 to 39 are one and zeros, whatever lies above. */
  lemma BitBelowTop(s: nat)
    requires 0x80_0000 <= s % INDEX_LIMIT < 0x100_0000
    ensures ShiftRight(s, 22) % 2 == 1 <==> s % INDEX_LIMIT >= 0xC0_0000
  {
    Pow2Values();
    SameLowBit(s / INDEX_LIMIT, s % INDEX_LIMIT);
    HalfOfSize(s % INDEX_LIMIT, 15);
  }

  lemma Pow2Of40()
    ensures Pow2(40) == INDEX_LIMIT
  {
    Pow2Values();
    Pow2Add(22, 18);
    Pow2Add(16, 2);
  }

  /** The truncated quotient selects the last bin exactly from this remainder on. */
  lemma LastBin(s: nat)
    ensures TreeIndex(s) == NTREEBINS - 1 <==> s % INDEX_LIMIT >= 0xC0_0000
  {
    var r := s % INDEX_LIMIT;
    var x := (s / 256) % 0x1_0000_0000;
    assert x == r / 256;
    if 0x8000 <= x <= 0xFFFF {
      Pow2Values();
      HighBitIs(x, 15);
      BitBelowTop(s);
    } else if 0 < x < 0x8000 {
      Pow2Values();
      HighBitBelow(x, 15);
    }
  }

  /**
    * A size gets the bin that it belongs to exactly when the 32-bit quotient loses nothing, or still selects the
    * last bin.
    */
  lemma RightBin(s: nat)
    requires s >= MIN_LARGE
    ensures InBin(s, TreeIndex(s)) <==> s < INDEX_LIMIT || s % INDEX_LIMIT >= 0xC0_0000
  {
    if s < INDEX_LIMIT {
      TreeIndexBounds(s);
    } else {
      LastBin(s);
      TreeIndexBelow(s);
      TopBinStarts();
      if TreeIndex(s) < NTREEBINS - 2 { MinSizeIncreases(TreeIndex(s) + 1, NTREEBINS - 1); }
    }
  }

  /** A size that is put into the first bin and belongs to the last one, and a larger one that is put right. */
  lemma WrongBin()
    ensures TreeIndex(INDEX_LIMIT) == 0 && !InBin(INDEX_LIMIT, 0)
    ensures TreeIndex(INDEX_LIMIT + 0x100_0000) == NTREEBINS - 1 && InBin(INDEX_LIMIT + 0x100_0000, NTREEBINS - 1)
  {
    RightBin(INDEX_LIMIT);
    RightBin(INDEX_LIMIT + 0x100_0000);
    LastBin(INDEX_LIMIT + 0x100_0000);
  }

  // ---------- Keys ----------

  predicate TopBit(k: nat) {
    k >= SIGN
  }

  /** One step of a 64-bit left shift: the sign bit falls off. */
  function Shl(k: nat): (r: nat)
    requires k < WORD
    ensures r < WORD
  {
    2 * k - if TopBit(k) then WORD else 0
  }

  function ShiftLeft(s: nat, n: nat): (r: nat)
    requires s < WORD
    ensures r < WORD
    decreases n
  {
    if n == 0 then s else ShiftLeft(Shl(s), n - 1)
  }

  /** The shift that puts the first branching bit of bin `i` into the sign position. */
  function KeyShift(i: nat): nat
    requires i < NTREEBINS
  {
    if i == NTREEBINS - 1 then 0 else 63 - (i / 2 + 6)
  }

  function Key(s: nat, i: nat): (k: nat)
    requires i < NTREEBINS && s < WORD
    ensures k < WORD
  {
    ShiftLeft(s, KeyShift(i))
  }

  /** The first `n` bits of a key, the sign bit first. */
  function Bits(k: nat, n: nat): (b: seq<bool>)
    requires k < WORD
    ensures |b| == n
    decreases n, k
  {
    if n == 0 then [] else [TopBit(k)] + Bits(Shl(k), n - 1)
  }

  /** A shift multiplies, less whole words: `c` counts the bits that fell off. */
  lemma {:induction false} ShiftLeftIsProduct(s: nat, n: nat) returns (c: nat)
    requires s < WORD
    ensures ShiftLeft(s, n) == s * Pow2(n) - c * WORD
    decreases n
  {
    if n == 0 {
      c := 0;
    } else {
      var d := ShiftLeftIsProduct(Shl(s), n - 1);
      var p := Pow2(n - 1);
      DoubledProduct(s, p);
      ShlTimes(s, p, d);
      c := d + if TopBit(s) then p else 0;
    }
  }

  lemma ShlTimes(s: nat, p: nat, d: nat)
    requires s < WORD
    ensures Shl(s) * p - d * WORD == 2 * (s * p) - (d + if TopBit(s) then p else 0) * WORD
  {
    if TopBit(s) {
      assert (2 * s - WORD) * p == 2 * (s * p) - p * WORD;
    } else {
      assert (2 * s) * p == 2 * (s * p);
    }
  }

  lemma SameRemainder(a: int, b: int, c: int, d: int)
    requires a + c * WORD == b + d * WORD && 0 <= a < WORD && 0 <= b < WORD
    ensures a == b
  {}

  lemma Pow2Of64()
    ensures Pow2(64) == WORD
  {
    Pow2Values();
    Pow2Add(16, 16);
    Pow2Add(32, 32);
  }

  lemma ScaledRemainder(s: nat, c: nat, h: nat, p: nat, r: nat)
    requires s == c * h + r && r < h && h * p == WORD
    ensures s * p == c * WORD + r * p && r * p < WORD
  {
    assert (c * h) * p == c * (h * p);
  }

  lemma PowersMeet(k: nat)
    requires k <= 57
    ensures Pow2(k + 7) * Pow2(57 - k) == WORD
  {
    Pow2Add(k + 7, 57 - k);
    Pow2Of64();
  }

  lemma SizeInBin(s: nat, i: nat)
    requires InBin(s, i) && i < NTREEBINS - 1
    ensures s - MinSize(i) < Pow2(i / 2 + 7)
    ensures s == (2 + i % 2) * Pow2(i / 2 + 7) + (s - MinSize(i))
  {
    MinSizeByHalves(i / 2);
    if i % 2 == 0 { assert i == 2 * (i / 2); } else { assert i == 2 * (i / 2) + 1; }
  }

  lemma ShiftedRemainder(s: nat, n: nat, c: nat, h: nat, r: nat)
    requires s < WORD && s == c * h + r && r < h && h * Pow2(n) == WORD
    ensures ShiftLeft(s, n) == r * Pow2(n)
  {
    ScaledRemainder(s, c, h, Pow2(n), r);
    var d := ShiftLeftIsProduct(s, n);
    SameRemainder(ShiftLeft(s, n), r * Pow2(n), d, c);
  }

  /** Within a bin a key is the distance from the bin's least size, scaled to 64 bits. */
  lemma KeyInBin(s: nat, i: nat)
    requires InBin(s, i) && s < WORD && i < NTREEBINS - 1
    ensures Key(s, i) == (s - MinSize(i)) * Pow2(KeyShift(i))
  {
    PowersMeet(i / 2);
    SizeInBin(s, i);
    ShiftedRemainder(s, KeyShift(i), 2 + i % 2, Pow2(i / 2 + 7), s - MinSize(i));
  }

  /** Within a bin the order of keys is the order of sizes. */
  lemma KeyOrder(s: nat, t: nat, i: nat)
    requires InBin(s, i) && InBin(t, i) && s < t < WORD
    ensures Key(s, i) < Key(t, i)
  {
    if i < NTREEBINS - 1 {
      KeyInBin(s, i);
      KeyInBin(t, i);
      ProductIncreases(s - MinSize(i), t - MinSize(i), Pow2(KeyShift(i)));
    }
  }

  lemma ProductIncreases(a: nat, b: nat, p: nat)
    requires a < b && p > 0
    ensures a * p < b * p
  {}

  /** The first bit in which two keys differ decides their order. */
  lemma {:induction false} BitsOrder(j: nat, k: nat, n: nat, d: nat)
    requires j < WORD && k < WORD && d < n
    requires Bits(j, n)[..d] == Bits(k, n)[..d] && !Bits(j, n)[d] && Bits(k, n)[d]
    ensures j < k
    decreases n
  {
    if d > 0 {
      assert TopBit(j) == Bits(j, n)[..d][0] == Bits(k, n)[..d][0] == TopBit(k);
      assert Bits(Shl(j), n - 1)[..d - 1] == Bits(j, n)[..d][1..] == Bits(k, n)[..d][1..] ==
        Bits(Shl(k), n - 1)[..d - 1];
      BitsOrder(Shl(j), Shl(k), n - 1, d - 1);
    }
  }

  lemma DoubledDifference(a: int, b: int, p: nat)
    requires a == 2 * b
    ensures b * (2 * p) == a * p
  {}

  lemma {:induction false} EqualBits(j: nat, k: nat, n: nat)
    requires j < WORD && k < WORD && Bits(j, n) == Bits(k, n)
    ensures -(WORD as int) < (j - k) * Pow2(n) < WORD
    decreases n
  {
    if n > 0 {
      assert TopBit(j) == Bits(j, n)[0] == Bits(k, n)[0] == TopBit(k);
      assert Bits(Shl(j), n - 1) == Bits(j, n)[1..] == Bits(k, n)[1..] == Bits(Shl(k), n - 1);
      EqualBits(Shl(j), Shl(k), n - 1);
      DoubledDifference(Shl(j) - Shl(k), j - k, Pow2(n - 1));
    }
  }

  lemma EqualKeys(j: nat, k: nat, n: nat)
    requires j < WORD && k < WORD && n == 64 && Bits(j, n) == Bits(k, n)
    ensures j == k
  {
    EqualBits(j, k, n);
    Pow2Of64();
  }

  lemma BinOrder(s: nat, t: nat, i: nat)
    requires InBin(s, i) && InBin(t, i) && s < WORD && t < WORD && Key(s, i) < Key(t, i)
    ensures s < t
  {
    if t < s { KeyOrder(t, s, i); }
  }

  lemma BinInjective(s: nat, t: nat, i: nat)
    requires InBin(s, i) && InBin(t, i) && s < WORD && t < WORD && Key(s, i) == Key(t, i)
    ensures s == t
  {
    if t < s { KeyOrder(t, s, i); } else if s < t { KeyOrder(s, t, i); }
  }

  /** The 64 branching bits of a size, in the order the trie of bin `i` uses them. */
  function Path(s: nat, i: nat): (b: seq<bool>)
    requires s < WORD && i < NTREEBINS
    ensures |b| == 64
  {
    Bits(Key(s, i), 64)
  }

  /** In one bin, the first differing branch decides which size is smaller. */
  lemma PathOrder(s: nat, t: nat, i: nat, d: nat)
    requires InBin(s, i) && InBin(t, i) && s < WORD && t < WORD && d < 64
    requires Path(s, i)[..d] == Path(t, i)[..d] && !Path(s, i)[d] && Path(t, i)[d]
    ensures s < t
  {
    BitsOrder(Key(s, i), Key(t, i), 64, d);
    BinOrder(s, t, i);
  }

  /** In one bin, a size is determined by its branching bits. */
  lemma PathInjective(s: nat, t: nat, i: nat)
    requires InBin(s, i) && InBin(t, i) && s < WORD && t < WORD
    requires Path(s, i) == Path(t, i)
    ensures s == t
  {
    EqualKeys(Key(s, i), Key(t, i), 64);
    BinInjective(s, t, i);
  }
}
