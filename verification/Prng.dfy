/** The AES counter-mode generator: one keystream per seed, however requests fall on buffer refills. */
module Prng {
  import opened Arith
  import opened Bits
  import Encodings

  const TWO64: nat := 0x1_0000_0000_0000_0000
  const BUFFER_BLOCKS: nat := 64
  const BUFFER_BYTES: nat := 1024

  /** A block cipher: key and plaintext block to ciphertext block. */
  type Cipher = (Block, Block) -> Block

  /** Block n of the keystream; the counter is a 64-bit word and wraps. */
  function KeyBlock(aes: Cipher, seed: Block, n: nat): Block {
    aes(seed, Binary(n % TWO64, 128))
  }

  /** The plaintext of block n is the block of value n modulo 2^64. */
  lemma KeyBlockPlain(aes: Cipher, seed: Block, n: nat) returns (p: Block)
    ensures Value(p) == n % TWO64 && KeyBlock(aes, seed, n) == aes(seed, p)
  {
    p := Binary(n % TWO64, 128);
    Pow2Of64();
    Pow2Add(64, 64);
    MulLe(1, Pow2(64), Pow2(64));
    Encodings.SmallBinaryValue(n % TWO64, 128);
  }

  /** Under a cipher that maps different plaintexts to different blocks, the keystream repeats no block of its period, and
      its period is 2^64 blocks. */
  lemma KeyBlocksDiffer(aes: Cipher, seed: Block, m: nat, n: nat)
    requires forall p, q :: aes(seed, p) == aes(seed, q) ==> p == q
    ensures KeyBlock(aes, seed, m) == KeyBlock(aes, seed, n) <==> m % TWO64 == n % TWO64
  {
    var p := KeyBlockPlain(aes, seed, m);
    var q := KeyBlockPlain(aes, seed, n);
  }

  lemma WrapSucc(n: nat)
    ensures (n % TWO64 + 1) % TWO64 == (n + 1) % TWO64
  {}

  /** Bits [from, from + len) of the keystream. */
  function KeyBits(aes: Cipher, seed: Block, from: nat, len: nat): (k: seq<bool>)
    ensures |k| == len
  {
    seq(len, i requires 0 <= i < len => KeyBlock(aes, seed, (from + i) / 128)[(from + i) % 128])
  }

  lemma KeyBitsSplit(aes: Cipher, seed: Block, from: nat, a: nat, b: nat)
    ensures KeyBits(aes, seed, from, a) + KeyBits(aes, seed, from + a, b) == KeyBits(aes, seed, from, a + b)
  {}

  lemma KeyBitsBlock(aes: Cipher, seed: Block, n: nat)
    ensures KeyBits(aes, seed, 128 * n, 128) == KeyBlock(aes, seed, n)
  {
    forall i | 0 <= i < 128 ensures KeyBits(aes, seed, 128 * n, 128)[i] == KeyBlock(aes, seed, n)[i] {
      assert (128 * n + i) / 128 == n && (128 * n + i) % 128 == i;
    }
  }

  /** Blocks [n, n + len) of the keystream, which is what one refill puts into the buffer. */
  function KeyBlocks(aes: Cipher, seed: Block, n: nat, len: nat): (k: seq<Block>)
    ensures |k| == len
  {
    seq<Block>(len, i requires 0 <= i < len => KeyBlock(aes, seed, n + i))
  }

  /** Any byte range of a refilled buffer is the keystream at the matching offset. */
  lemma BufferSlice(aes: Cipher, seed: Block, n: nat, len: nat, lo: nat, hi: nat)
    requires lo <= hi <= 128 * len
    ensures Flat(KeyBlocks(aes, seed, n, len))[lo..hi] == KeyBits(aes, seed, 128 * n + lo, hi - lo)
  {
    var ks := KeyBlocks(aes, seed, n, len);
    forall i | 0 <= i < hi - lo
      ensures Flat(ks)[lo..hi][i] == KeyBits(aes, seed, 128 * n + lo, hi - lo)[i]
    {
      var p := lo + i;
      FlatAt(ks, p / 128, p % 128);
      assert (128 * n + lo + i) / 128 == n + p / 128 && (128 * n + lo + i) % 128 == p % 128;
    }
  }

  class Prng {
    const aes: Cipher
    var mSeed: Block
    var mBuffer: seq<Block>
    var mIndexArray: seq<Block>
    var mBytesIdx: nat
    var mBlockIdx: nat
    var mBufferByteCapacity: nat
    ghost var refills: nat  // refills since the first one after the seed was set

    /** Bytes of the keystream handed out since the seed was set. */
    ghost function Pos(): nat
      reads this
    {
      BUFFER_BYTES * refills + mBytesIdx
    }

    /** The state between calls once a seed is set: the buffer is the part of the keystream that holds Pos(). */
    ghost predicate Valid()
      reads this
    {
      && |mBuffer| == |mIndexArray| == BUFFER_BLOCKS && mBufferByteCapacity == BUFFER_BYTES
      && mBytesIdx < BUFFER_BYTES
      && mBlockIdx == (BUFFER_BLOCKS * refills + BUFFER_BLOCKS) % TWO64
      && mBuffer == KeyBlocks(aes, mSeed, BUFFER_BLOCKS * refills, BUFFER_BLOCKS)
    }

    /** Running on `seed`, with exactly n blocks drawn. */
    ghost predicate At(seed: Block, n: nat)
      reads this
    {
      Valid() && mSeed == seed && Pos() == 16 * n
    }

    /** What SetSeed needs: either no buffer yet, or the one an earlier seed set up. */
    ghost predicate Seedable()
      reads this
    {
      && |mBuffer| == |mIndexArray|
      && (|mBuffer| == 0 || (|mBuffer| == BUFFER_BLOCKS && mBufferByteCapacity == BUFFER_BYTES))
    }

    /** The default constructor: no buffer yet, both indices zero. */
    constructor (aes: Cipher)
      ensures this.aes == aes && Seedable()
    {
      this.aes := aes;
      mSeed, mBuffer, mIndexArray := ZeroBlock(), [], [];
      mBytesIdx, mBlockIdx, mBufferByteCapacity := 0, 0, 0;
      refills := 0;
    }

    /** The counter loop of refillBuffer. */
    method NextIndices(ghost n: nat)
      requires |mIndexArray| == |mBuffer| && mBlockIdx == n % TWO64
      modifies this`mIndexArray, this`mBlockIdx
      ensures |mIndexArray| == |mBuffer| && mBlockIdx == (n + |mBuffer|) % TWO64
      ensures forall k | 0 <= k < |mBuffer| :: mIndexArray[k] == Binary((n + k) % TWO64, 128)
    {
      for i := 0 to |mBuffer|
        invariant |mIndexArray| == |mBuffer| && mBlockIdx == (n + i) % TWO64
        invariant forall k | 0 <= k < i :: mIndexArray[k] == Binary((n + k) % TWO64, 128)
      {
        mIndexArray := mIndexArray[i := Binary(mBlockIdx, 128)];
        WrapSucc(n + i);
        mBlockIdx := (mBlockIdx + 1) % TWO64;
      }
    }

    /** refillBuffer: the next 64 counter values, encrypted. */
    method RefillBuffer(ghost n: nat)
      requires |mBuffer| == |mIndexArray| == BUFFER_BLOCKS && mBlockIdx == n % TWO64
      modifies this`mBuffer, this`mIndexArray, this`mBytesIdx, this`mBlockIdx
      ensures mBuffer == KeyBlocks(aes, mSeed, n, BUFFER_BLOCKS) && |mIndexArray| == BUFFER_BLOCKS
      ensures mBytesIdx == 0 && mBlockIdx == (n + BUFFER_BLOCKS) % TWO64
    {
      NextIndices(n);
      var key, plain := mSeed, mIndexArray;
      mBuffer := seq<Block>(|mBuffer|, i requires 0 <= i < |plain| => aes(key, plain[i]));
      assert forall i | 0 <= i < BUFFER_BLOCKS :: mBuffer[i] == KeyBlock(aes, mSeed, n + i);
      mBytesIdx := 0;
    }

    /** SetSeed restarts the keystream of the new seed, whatever state the generator was in. */
    method SetSeed(seed: Block)
      requires Seedable()
      modifies this
      ensures Valid() && mSeed == seed && Pos() == 0
    {
      mSeed := seed;
      mBlockIdx := 0;
      if |mBuffer| == 0 {
        mBuffer := seq(BUFFER_BLOCKS, _ => ZeroBlock());
        mIndexArray := seq(BUFFER_BLOCKS, _ => ZeroBlock());
        mBufferByteCapacity := BUFFER_BYTES;
      }
      RefillBuffer(0);
      refills := 0;
    }

    /** The loop body of get_u8s: copy to the end of the request or of the buffer, and refill at its end. */
    method CopyStep(rest: nat) returns (bits: seq<bool>, step: nat)
      requires Valid() && rest > 0
      modifies this
      ensures Valid() && mSeed == old(mSeed)
      ensures 0 < step <= rest && Pos() == old(Pos()) + step
      ensures bits == KeyBits(aes, mSeed, 8 * old(Pos()), 8 * step)
    {
      step := if rest < mBufferByteCapacity - mBytesIdx then rest else mBufferByteCapacity - mBytesIdx;
      BufferSlice(aes, mSeed, BUFFER_BLOCKS * refills, BUFFER_BLOCKS, 8 * mBytesIdx, 8 * (mBytesIdx + step));
      bits := Flat(mBuffer)[8 * mBytesIdx..8 * (mBytesIdx + step)];
      mBytesIdx := mBytesIdx + step;
      if mBytesIdx == mBufferByteCapacity {
        RefillBuffer(BUFFER_BLOCKS * refills + BUFFER_BLOCKS);
        refills := refills + 1;
      }
    }

    /** get_u8s: the next `length` bytes of the keystream, as bits. */
    method GetU8s(length: nat) returns (dest: seq<bool>)
      requires Valid()
      modifies this
      ensures Valid() && mSeed == old(mSeed)
      ensures dest == KeyBits(aes, mSeed, 8 * old(Pos()), 8 * length)
      ensures Pos() == old(Pos()) + length
    {
      dest := [];
      var rest := length;
      while rest > 0
        invariant Valid() && mSeed == old(mSeed)
        invariant 0 <= rest <= length && Pos() == old(Pos()) + (length - rest)
        invariant dest == KeyBits(aes, mSeed, 8 * old(Pos()), 8 * (length - rest))
      {
        var bits, step := CopyStep(rest);
        KeyBitsSplit(aes, mSeed, 8 * old(Pos()), 8 * (length - rest), 8 * step);
        dest := dest + bits;
        rest := rest - step;
      }
    }

    /** get_block: on a block boundary, the next block of the keystream. */
    method GetBlock() returns (b: Block)
      requires Valid()
      modifies this
      ensures Valid() && mSeed == old(mSeed) && Pos() == old(Pos()) + 16
      ensures b == KeyBits(aes, mSeed, 8 * old(Pos()), 128)
      ensures old(Pos()) % 16 == 0 ==> b == KeyBlock(aes, mSeed, old(Pos()) / 16)
    {
      b := GetU8s(16);
      if old(Pos()) % 16 == 0 {
        KeyBitsBlock(aes, mSeed, old(Pos()) / 16);
      }
    }
  }

  /** An array of generators, drawn from in index order, one block each per round: the sources' mGens. */
  class GenBank {
    const aes: Cipher
    const gens: seq<Prng>
    ghost const Repr: set<object>
    ghost var seeds: seq<Block>
    ghost var round: nat  // blocks every generator has handed out
    ghost var next: nat   // generators that are already one block further

    ghost predicate Shape() {
      && (forall i, j | 0 <= i < j < |gens| :: gens[i] != gens[j])
      && (forall i | 0 <= i < |gens| :: gens[i] in Repr && gens[i].aes == aes && gens[i] as object != this)
      && this in Repr
    }

    /** Not seeded yet, or about to be seeded again. */
    ghost predicate Seedable()
      reads this, Repr
    {
      Shape() && forall i | 0 <= i < |gens| :: gens[i].Seedable()
    }

    ghost predicate Valid()
      reads this, Repr
    {
      && Shape() && |gens| == |seeds| && (next < |gens| || next == 0)
      && forall i | 0 <= i < |gens| ::
           gens[i].At(seeds[i], if i < next then round + 1 else round)
    }

    constructor (aes: Cipher, n: nat)
      ensures Seedable() && fresh(Repr) && this.aes == aes && |gens| == n
    {
      this.aes := aes;
      var gs: seq<Prng> := [];
      ghost var objs: set<object> := {};
      for i := 0 to n
        invariant |gs| == i && fresh(objs)
        invariant forall k | 0 <= k < i :: gs[k] in objs && gs[k].aes == aes && gs[k].Seedable()
        invariant forall j, k | 0 <= j < k < i :: gs[j] != gs[k]
      {
        var g := new Prng(aes);
        gs, objs := gs + [g], objs + {g};
      }
      gens := gs;
      Repr := {this} + objs;
      seeds, round, next := [], 0, 0;
    }

    /** SetSeed on every generator. */
    method SetSeeds(s: seq<Block>)
      requires Seedable() && |s| == |gens|
      modifies Repr
      ensures Valid() && seeds == s && round == next == 0
    {
      for i := 0 to |gens|
        invariant forall k | i <= k < |gens| :: gens[k].Seedable()
        invariant forall k | 0 <= k < i :: gens[k].At(s[k], 0)
      {
        gens[i].SetSeed(s[i]);
      }
      seeds, round, next := s, 0, 0;
    }

    /** get_block on the generator whose turn it is. */
    method GetBlock(i: nat) returns (b: Block)
      requires Valid() && i == next < |gens|
      modifies Repr
      ensures Valid() && seeds == old(seeds)
      ensures if i + 1 < |gens| then round == old(round) && next == i + 1 else round == old(round) + 1 && next == 0
      ensures b == KeyBlock(aes, seeds[i], old(round))
    {
      b := gens[i].GetBlock();
      if i + 1 < |gens| {
        next := i + 1;
      } else {
        round, next := round + 1, 0;
      }
    }
  }
}
