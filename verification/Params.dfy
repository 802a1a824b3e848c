/** Sizes both parties derive from the set sizes. */
module Params {
  import opened Arith

  /** get_stash_size. */
  function StashSize(neles: nat): nat {
    if neles >= 0x100_0000 then 2
    else if neles >= 0x10_0000 then 3
    else if neles >= 0x1_0000 then 4
    else if neles >= 0x1000 then 6
    else 12
  }

  /** get_codeword_size, in bytes. */
  function CodewordSize(neles: nat): nat {
    if neles >= 0x10_0000 then 56
    else if neles >= 0x1_0000 then 55
    else if neles >= 0x1000 then 54
    else 53
  }

  /** The integer part of the binary logarithm of a positive 64-bit product. */
  function Log2Floor(v: nat): nat {
    if v < 2 then 0 else 1 + Log2Floor(v / 2)
  }

  /** get_mask_size, in bytes, at the default statistical parameter 40. */
  function MaskSize(neles: nat, others: nat): nat {
    (40 + Log2Floor(neles * others) + 7) / 8
  }

  lemma {:induction false} Log2FloorBound(v: nat, n: nat)
    requires v < Pow2(n) && n > 0
    ensures Log2Floor(v) < n
  {
    if v >= 2 { Log2FloorBound(v / 2, n - 1); }
  }

  /** For set sizes whose product is a 64-bit number, a mask is at least 5 bytes and fits the 16 bytes of a block. */
  lemma MaskSizeRange(neles: nat, others: nat)
    requires neles * others < 0x1_0000_0000_0000_0000
    ensures 5 <= MaskSize(neles, others) <= 13
  {
    Pow2Of64();
    Log2FloorBound(neles * others, 64);
  }

  lemma {:induction false} Log2FloorIs(v: nat)
    requires v > 0
    ensures Pow2(Log2Floor(v)) <= v < 2 * Pow2(Log2Floor(v))
  {
    if v >= 2 { Log2FloorIs(v / 2); }
  }

  /** A mask has the fewest whole bytes for 40 bits beyond the integer part of the logarithm of the number of pairs. */
  lemma MaskSizeLeast(neles: nat, others: nat)
    requires neles * others > 0
    ensures exists log: nat :: Pow2(log) <= neles * others < 2 * Pow2(log)
                          && 40 + log <= 8 * MaskSize(neles, others) < 40 + log + 8
  {
    Log2FloorIs(neles * others);
  }

  lemma Thresholds()
    ensures Pow2(12) == 0x1000 && Pow2(16) == 0x1_0000 && Pow2(20) == 0x10_0000 && Pow2(24) == 0x100_0000
  {
    assert Pow2(4) == 0x10;
    assert Pow2(8) == 0x100 by { Pow2Add(4, 4); }
    assert Pow2(12) == 0x1000 by { Pow2Add(8, 4); }
    assert Pow2(16) == 0x1_0000 by { Pow2Add(8, 8); }
    assert Pow2(20) == 0x10_0000 by { Pow2Add(16, 4); }
    Pow2Add(12, 12);
  }

  /** Codewords grow by one byte, and stashes shrink, at 2^12, 2^16 and 2^20 items; stashes once more at 2^24. */
  lemma SizesByThreshold(neles: nat)
    ensures var cw := CodewordSize(neles);
      && 53 <= cw <= 56 && (cw >= 54 <==> neles >= Pow2(12))
      && (cw >= 55 <==> neles >= Pow2(16)) && (cw >= 56 <==> neles >= Pow2(20))
    ensures var max := StashSize(neles);
      && max in {2, 3, 4, 6, 12} && (max >= 12 <==> neles < Pow2(12)) && (max >= 6 <==> neles < Pow2(16))
      && (max >= 4 <==> neles < Pow2(20)) && (max >= 3 <==> neles < Pow2(24))
  {
    Thresholds();
  }
}
