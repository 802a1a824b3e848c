/** The values the two parties of the set intersection compute: codewords, corrections, masks. */
module Oprf {
  import opened Arith
  import opened Bits
  import opened Cuckoo
  import opened Encodings

  /** Rows laid end to end in a message. */
  function FlatRows(rows: seq<Row>): (m: seq<bool>)
    ensures |m| == 512 * |rows|
  {
    if rows == [] then [] else Flat(rows[0]) + FlatRows(rows[1..])
  }

  function UnflatRows(m: seq<bool>): (rows: seq<Row>)
    requires |m| % 512 == 0
    ensures |rows| == |m| / 512
    decreases |m|
  {
    if m == [] then [] else [Unflat(m[..512])] + UnflatRows(m[512..])
  }

  lemma {:induction false} UnflatFlatRows(rows: seq<Row>)
    ensures UnflatRows(FlatRows(rows)) == rows
  {
    if rows != [] {
      var m := FlatRows(rows);
      assert m[..512] == Flat(rows[0]) && m[512..] == FlatRows(rows[1..]);
      UnflatFlat(rows[0]);
      UnflatFlatRows(rows[1..]);
    }
  }

  /** Masks of `size` bytes laid end to end in a message. */
  function FlatMasks(masks: seq<seq<bool>>, size: nat): (m: seq<bool>)
    requires forall i | 0 <= i < |masks| :: |masks[i]| == 8 * size
    ensures |m| == 8 * size * |masks|
  {
    if masks == [] then [] else masks[0] + FlatMasks(masks[1..], size)
  }

  /** The i-th mask of a message. */
  function MaskAt(m: seq<bool>, size: nat, n: nat, i: nat): (mask: seq<bool>)
    requires i < n && |m| == 8 * size * n
    ensures |mask| == 8 * size
  {
    MaskBounds(size, n, i);
    m[8 * size * i..8 * size * i + 8 * size]
  }

  lemma MaskBounds(size: nat, n: nat, i: nat)
    requires i < n
    ensures 0 <= 8 * size * i && 8 * size * i + 8 * size <= 8 * size * n
  {
    MulLe(i + 1, n, 8 * size);
    MulNonneg(8 * size, i);
  }

  lemma {:induction false} MaskAtFlat(masks: seq<seq<bool>>, size: nat, i: nat)
    requires i < |masks| && forall k | 0 <= k < |masks| :: |masks[k]| == 8 * size
    ensures MaskAt(FlatMasks(masks, size), size, |masks|, i) == masks[i]
  {
    var w, m := 8 * size, FlatMasks(masks, size);
    MaskBounds(size, |masks|, i);
    if i == 0 {
      assert m[0..w] == masks[0];
    } else {
      MaskAtFlat(masks[1..], size, i - 1);
      MaskBounds(size, |masks| - 1, i - 1);
      assert w * i == w + w * (i - 1);
      assert m[w * i..w * i + w] == FlatMasks(masks[1..], size)[w * (i - 1)..w * (i - 1) + w];
    }
  }

  /** The pseudo-random code of item i: its four hash blocks. */
  function Code(hashs: Hashes, n: nat, i: nat): Row
    requires HashTable(hashs, n) && i < n
  {
    [hashs[0][i], hashs[1][i], hashs[2][i], hashs[3][i]]
  }

  /** What the receiver sends for an item in a bin with OPRF rows t0, t1. */
  function Correction(code: Row, t0: Row, t1: Row): Row { XorRow(XorRow(code, t0), t1) }

  /** The sender's OPRF value for a code: its row, corrected under its choice bits s. */
  function Eval(q: Row, correction: Row, code: Row, s: Row): Row { XorRow(q, AndRow(XorRow(correction, code), s)) }

  /** On the receiver's own code, the sender's value collapses to the receiver's row t0. */
  lemma EvalCollapses(t0: Row, t1: Row, q: Row, s: Row, code: Row)
    requires q == XorRow(t0, AndRow(XorRow(t0, t1), s))
    ensures Eval(q, Correction(code, t0, t1), code, s) == t0
  {
    forall b | 0 <= b < 4
      ensures Eval(q, Correction(code, t0, t1), code, s)[b] == t0[b]
    {
      BlockCollapses(t0[b], t1[b], s[b], code[b]);
    }
  }

  lemma BlockCollapses(t0: Block, t1: Block, s: Block, c: Block)
    ensures var q := Xor(t0, And(Xor(t0, t1), s));
            Xor(q, And(Xor(Xor(Xor(c, t0), t1), c), s)) == t0
  {}

  /** On the code c of the receiver and c' of the sender, the value differs from t0 in the bits where the codes differ and
      the choice bit is set, and in no others. */
  lemma EvalOnOther(t0: Row, t1: Row, q: Row, s: Row, c: Row, c': Row, b: nat, k: nat)
    requires q == XorRow(t0, AndRow(XorRow(t0, t1), s)) && b < 4 && k < 128
    ensures Eval(q, Correction(c, t0, t1), c', s)[b][k] == (t0[b][k] != (c[b][k] != c'[b][k] && s[b][k]))
  {
    assert q[b][k] == (t0[b][k] != (t0[b][k] != t1[b][k] && s[b][k]));
    assert Correction(c, t0, t1)[b][k] == ((c[b][k] != t0[b][k]) != t1[b][k]);
  }

  /** What is hashed for a bin item: the 64-bit number of the hash function and cw bytes of the OPRF value. */
  function BinInput(cw: nat, h: nat, value: Row): (a: seq<bool>)
    requires cw <= 64
    ensures |a| == 64 + 8 * cw
  {
    Binary(h, 64) + RowPrefix(value, cw)
  }

  lemma BinInputIs(cw: nat, h: nat, value: Row, b: nat, k: nat)
    requires cw <= 64 && h < 0x1_0000_0000_0000_0000
    ensures Value(BinInput(cw, h, value)[..64]) == h
    ensures b < 4 && k < 128 && 128 * b + k < 8 * cw ==> BinInput(cw, h, value)[64 + 128 * b + k] == value[b][k]
  {
    Pow2Of64();
    SmallBinaryValue(h, 64);
    assert BinInput(cw, h, value)[..64] == Binary(h, 64);
    if b < 4 && k < 128 && 128 * b + k < 8 * cw { RowPrefixAt(value, cw, b, k); }
  }

  /** Two bin items have the same hash input exactly when their hash functions and the first cw bytes of their values are. */
  lemma BinInputSame(cw: nat, g: nat, v: Row, h: nat, w: Row)
    requires cw <= 64 && g < 3 && h < 3
    ensures BinInput(cw, g, v) == BinInput(cw, h, w) <==> g == h && SameBytes(v, w, cw)
  {
    BinInputIs(cw, g, v, 0, 0);
    BinInputIs(cw, h, w, 0, 0);
    RowPrefixSame(v, w, cw);
    assert BinInput(cw, g, v)[64..] == RowPrefix(v, cw) && BinInput(cw, h, w)[64..] == RowPrefix(w, cw);
  }

  /** The mask of a bin item: a prefix of the hash of its hash index and OPRF value. */
  function BinMask(sha: Hash, cw: nat, ms: nat, h: nat, value: Row): (m: seq<bool>)
    requires cw <= 64 && ms <= 16
    ensures |m| == 8 * ms
  {
    sha(BinInput(cw, h, value))[..8 * ms]
  }

  /** The mask of a stash item: a prefix of the hash of its OPRF value alone. */
  function StashMask(sha: Hash, cw: nat, ms: nat, value: Row): (m: seq<bool>)
    requires cw <= 64 && ms <= 16
    ensures |m| == 8 * ms
  {
    sha(RowPrefix(value, cw))[..8 * ms]
  }

  /** Two bin masks are digest prefixes of two strings that are equal only for one hash function and values that agree in
      the bytes hashed: equal masks beyond that are a clash of the hash. */
  lemma BinMaskClash(sha: Hash, cw: nat, ms: nat, g: nat, v: Row, h: nat, w: Row) returns (a: seq<bool>, b: seq<bool>)
    requires cw <= 64 && ms <= 16 && g < 3 && h < 3
    ensures BinMask(sha, cw, ms, g, v) == sha(a)[..8 * ms] && BinMask(sha, cw, ms, h, w) == sha(b)[..8 * ms]
    ensures a == b <==> g == h && SameBytes(v, w, cw)
  {
    a, b := BinInput(cw, g, v), BinInput(cw, h, w);
    BinInputSame(cw, g, v, h, w);
  }

  lemma StashMaskClash(sha: Hash, cw: nat, ms: nat, v: Row, w: Row) returns (a: seq<bool>, b: seq<bool>)
    requires cw <= 64 && ms <= 16
    ensures StashMask(sha, cw, ms, v) == sha(a)[..8 * ms] && StashMask(sha, cw, ms, w) == sha(b)[..8 * ms]
    ensures a == b <==> SameBytes(v, w, cw)
  {
    a, b := RowPrefix(v, cw), RowPrefix(w, cw);
    RowPrefixSame(v, w, cw);
  }

  /** The first eight bytes of a mask copied into a cleared block: the key of the receiver's index. */
  function Key(mask: seq<bool>): (k: seq<bool>)
    requires |mask| <= 128
    ensures |k| == 64
  {
    Padded(mask)[..64]
  }

  /** Two masks have one key exactly when they agree in their first eight bytes, or in all of them when they are shorter. */
  lemma KeySame(a: seq<bool>, b: seq<bool>)
    requires |a| == |b| <= 128
    ensures var len := if |a| < 64 then |a| else 64; Key(a) == Key(b) <==> a[..len] == b[..len]
  {
    var len := if |a| < 64 then |a| else 64;
    assert Key(a)[..len] == a[..len] && Key(b)[..len] == b[..len] && Key(a)[len..] == Key(b)[len..];
    assert Key(a) == Key(a)[..len] + Key(a)[len..] && Key(b) == Key(b)[..len] + Key(b)[len..];
  }

  /** Bit k of mask i stands at offset 8 size i + k of a mask message. */
  lemma MaskBit(masks: seq<seq<bool>>, size: nat, i: nat, k: nat)
    requires i < |masks| && k < 8 * size && forall m | 0 <= m < |masks| :: |masks[m]| == 8 * size
    ensures 0 <= 8 * size * i + k < |FlatMasks(masks, size)| && FlatMasks(masks, size)[8 * size * i + k] == masks[i][k]
  {
    MaskAtFlat(masks, size, i);
    MaskBounds(size, |masks|, i);
    assert MaskAt(FlatMasks(masks, size), size, |masks|, i)[k] == masks[i][k];
  }

  /** Bit k of block b of row i stands at offset 512 i + 128 b + k of a message of rows. */
  lemma {:induction false} RowBit(rows: seq<Row>, i: nat, b: nat, k: nat)
    requires i < |rows| && b < 4 && k < 128
    ensures FlatRows(rows)[512 * i + 128 * b + k] == rows[i][b][k]
  {
    if i == 0 {
      FlatAt(rows[0], b, k);
    } else {
      RowBit(rows[1..], i - 1, b, k);
      assert FlatRows(rows)[512 * i + 128 * b + k] == FlatRows(rows[1..])[512 * (i - 1) + 128 * b + k];
    }
  }
}
