/** Memory seen as bits: 128-bit blocks, four-block rows, and the byte views the code takes of them. */
module Bits {

  /** A 128-bit register value; bit i is bit i % 8 of byte i / 8. */
  type Block = b: seq<bool> | |b| == 128 witness seq(128, _ => false)

  /** The four-register row the sources call blockBop. */
  type Row = r: seq<Block> | |r| == 4 witness seq(4, _ => seq(128, _ => false))

  function ZeroBlock(): Block { seq(128, _ => false) }

  /** Two blocks side by side: a pair of seeds, or of OT messages. */
  datatype BlockPair = Pair(m0: Block, m1: Block) {
    function At(b: bool): Block { if b then m1 else m0 }
  }

  /** Two rows side by side: the OPRF rows of one OT. */
  datatype RowPair = RowPair(t0: Row, t1: Row)

  function Xor(a: seq<bool>, b: seq<bool>): (c: seq<bool>)
    requires |a| == |b|
    ensures |c| == |a|
  {
    seq(|a|, i requires 0 <= i < |a| => a[i] != b[i])
  }

  function And(a: seq<bool>, b: seq<bool>): (c: seq<bool>)
    requires |a| == |b|
    ensures |c| == |a|
  {
    seq(|a|, i requires 0 <= i < |a| => a[i] && b[i])
  }

  function XorRow(a: Row, b: Row): Row {
    [Xor(a[0], b[0]), Xor(a[1], b[1]), Xor(a[2], b[2]), Xor(a[3], b[3])]
  }

  function AndRow(a: Row, b: Row): Row {
    [And(a[0], b[0]), And(a[1], b[1]), And(a[2], b[2]), And(a[3], b[3])]
  }

  /** The bits of consecutive blocks, in memory order. */
  function Flat(bs: seq<Block>): (f: seq<bool>)
    ensures |f| == 128 * |bs|
  {
    if bs == [] then [] else bs[0] + Flat(bs[1..])
  }

  lemma {:induction false} FlatAt(bs: seq<Block>, i: nat, k: nat)
    requires i < |bs| && k < 128
    ensures Flat(bs)[128 * i + k] == bs[i][k]
  {
    if i > 0 {
      FlatAt(bs[1..], i - 1, k);
      assert Flat(bs)[128 * i + k] == Flat(bs[1..])[128 * (i - 1) + k];
    }
  }

  /** A bit string read as consecutive blocks. */
  function Unflat(s: seq<bool>): (bs: seq<Block>)
    requires |s| % 128 == 0
    ensures |bs| == |s| / 128
    decreases |s|
  {
    if s == [] then [] else [s[..128]] + Unflat(s[128..])
  }

  lemma {:induction false} UnflatFlat(bs: seq<Block>)
    ensures Unflat(Flat(bs)) == bs
  {
    if bs != [] {
      assert Flat(bs)[..128] == bs[0] && Flat(bs)[128..] == Flat(bs[1..]);
      UnflatFlat(bs[1..]);
    }
  }

  lemma {:induction false} UnflatAt(s: seq<bool>, i: nat, k: nat)
    requires |s| % 128 == 0 && 128 * i + k < |s| && k < 128
    ensures Unflat(s)[i][k] == s[128 * i + k]
    decreases i
  {
    if i > 0 {
      UnflatAt(s[128..], i - 1, k);
    }
  }

  /** The low `n` bytes of a row, as SHA-1 is fed them. */
  function RowPrefix(r: Row, n: nat): (p: seq<bool>)
    requires n <= 64
    ensures |p| == 8 * n
  {
    Flat(r)[..8 * n]
  }

  /** The binary digits of a number, least significant first. */
  function Binary(n: nat, len: nat): (b: seq<bool>)
    ensures |b| == len
  {
    if len == 0 then [] else [n % 2 == 1] + Binary(n / 2, len - 1)
  }

  /** What a cleared buffer holds after its first bytes are overwritten. */
  function Padded(s: seq<bool>): (b: Block)
    requires |s| <= 128
  {
    s + seq(128 - |s|, _ => false)
  }

  lemma XorCancel(a: seq<bool>, b: seq<bool>)
    requires |a| == |b|
    ensures Xor(Xor(a, b), b) == a && Xor(b, Xor(b, a)) == a
  {}

  /** A hash of bit strings with SHA-1's 160-bit result. */
  type Digest = d: seq<bool> | |d| == 160 witness seq(160, _ => false)
  type Hash = seq<bool> -> Digest

  /** The first 16 bytes of a digest, read as a block. */
  function DigestBlock(d: Digest): Block { d[..128] }

  /** The number a bit string stands for, least significant bit first. */
  function Value(b: seq<bool>): nat {
    if b == [] then 0 else (if b[0] then 1 else 0) + 2 * Value(b[1..])
  }

  /** The first eight bytes of a block, read as a 64-bit word. */
  function Word64(b: Block): nat { Value(b[..64]) }
}
