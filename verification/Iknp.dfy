/** IKNP extension of 128 base OTs to 512, as the sources run it in four blocks of 128. */
module Iknp {
  import opened Bits
  import opened Prng
  import opened Transpose
  import opened Channels

  const BASE_OT_COUNT: nat := 128

  /** 128 block pairs: the receiver's base seeds, or the sender's messages of one block. */
  type Pairs = p: seq<BlockPair> | |p| == 128 witness seq(128, _ => Pair(ZeroBlock(), ZeroBlock()))

  function Seeds0(base: Pairs): Square { seq<Block>(128, i requires 0 <= i < 128 => base[i].m0) }
  function Seeds1(base: Pairs): Square { seq<Block>(128, i requires 0 <= i < 128 => base[i].m1) }

  /** Column i of t0 in block n, before the transpose. */
  function T0(aes: Cipher, base: Pairs, n: nat): Square {
    seq<Block>(128, i requires 0 <= i < 128 => KeyBlock(aes, base[i].m0, n))
  }

  /** The columns sent to the peer in block n for the choice block x. */
  function U(aes: Cipher, base: Pairs, x: Block, n: nat): Square {
    seq<Block>(128, i requires 0 <= i < 128 => UColumn(aes, base[i], x, n))
  }

  function UColumn(aes: Cipher, seeds: BlockPair, x: Block, n: nat): Block {
    Xor(KeyBlock(aes, seeds.m1, n), Xor(KeyBlock(aes, seeds.m0, n), x))
  }

  /** The columns the sender builds in block n from its seeds, its base choices and the columns received. */
  function Q(aes: Cipher, seeds: Square, delta: Block, u: Square, n: nat): Square {
    seq<Block>(128, i requires 0 <= i < 128 => QColumn(aes, seeds[i], delta[i], u[i], n))
  }

  function QColumn(aes: Cipher, seed: Block, choice: bool, u: Block, n: nat): Block {
    if choice then Xor(KeyBlock(aes, seed, n), u) else KeyBlock(aes, seed, n)
  }

  /** The first 16 bytes of the hash of a row. */
  function HashRow(sha: Hash, row: Block): Block { DigestBlock(sha(row)) }

  function HashPair(sha: Hash, row: Block, delta: Block): BlockPair {
    Pair(HashRow(sha, row), HashRow(sha, Xor(row, delta)))
  }

  /** The receiver's messages of block n. */
  function RecvMessages(sha: Hash, aes: Cipher, base: Pairs, n: nat): Square {
    seq<Block>(128, r requires 0 <= r < 128 => HashRow(sha, Transposed(T0(aes, base, n))[r]))
  }

  /** The sender's message pairs of block n. */
  function SendMessages(sha: Hash, aes: Cipher, seeds: Square, delta: Block, u: Square, n: nat): Pairs {
    var q := Transposed(Q(aes, seeds, delta, u, n));
    seq<BlockPair>(128, r requires 0 <= r < 128 => HashPair(sha, q[r], delta))
  }

  /** What the base OTs deliver: the sender holds the seed its choice bit selects. */
  ghost predicate BaseOts(base: Pairs, seeds: Square, delta: Block) {
    forall i | 0 <= i < 128 :: seeds[i] == base[i].At(delta[i])
  }

  /** Row r of q is row r of t0, plus delta when choice bit r is set. */
  lemma RowCorrelation(aes: Cipher, base: Pairs, seeds: Square, delta: Block, x: Block, n: nat, r: nat)
    requires BaseOts(base, seeds, delta) && r < 128
    ensures var q, t0 := Transposed(Q(aes, seeds, delta, U(aes, base, x, n), n)), Transposed(T0(aes, base, n));
            q[r] == if x[r] then Xor(t0[r], delta) else t0[r]
  {
    var cols := Q(aes, seeds, delta, U(aes, base, x, n), n);
    var t0 := T0(aes, base, n);
    forall c | 0 <= c < 128
      ensures cols[c][r] == (t0[c][r] != (delta[c] && x[r]))
    {
      if delta[c] {
        assert cols[c] == Xor(KeyBlock(aes, base[c].m1, n), U(aes, base, x, n)[c]);
      }
    }
  }

  /** The extension is correct: the receiver gets the message its choice bit selects, in every block and row. */
  lemma ExtensionCorrect(sha: Hash, aes: Cipher, base: Pairs, seeds: Square, delta: Block, x: Block, n: nat, r: nat)
    requires BaseOts(base, seeds, delta) && r < 128
    ensures var pair := SendMessages(sha, aes, seeds, delta, U(aes, base, x, n), n)[r];
            RecvMessages(sha, aes, base, n)[r] == pair.At(x[r])
  {
    RowCorrelation(aes, base, seeds, delta, x, n, r);
    XorCancel(Transposed(T0(aes, base, n))[r], delta);
  }

  class IknpReceiver {
    const aes: Cipher
    const sha: Hash
    const gens0: GenBank  // mGens[..][0]
    const gens1: GenBank  // mGens[..][1]
    var mHasBase: bool
    ghost var base: Pairs

    ghost predicate Built() {
      && gens0.aes == gens1.aes == aes && |gens0.gens| == |gens1.gens| == BASE_OT_COUNT
      && gens0.Repr !! gens1.Repr && this !in gens0.Repr + gens1.Repr
    }

    /** Base OTs are set; both arrays stand at the same block. */
    ghost predicate Ready()
      reads this, gens0, gens0.Repr, gens1, gens1.Repr
    {
      && Built() && mHasBase && gens0.Valid() && gens1.Valid()
      && gens0.seeds == Seeds0(base) && gens1.seeds == Seeds1(base)
      && gens0.round == gens1.round && gens0.next == gens1.next == 0
    }

    constructor (aes: Cipher, sha: Hash)
      ensures Built() && gens0.Seedable() && gens1.Seedable() && !mHasBase && this.aes == aes && this.sha == sha
      ensures fresh(gens0.Repr) && fresh(gens1.Repr)
    {
      this.aes, this.sha, mHasBase := aes, sha, false;
      gens0 := new GenBank(aes, BASE_OT_COUNT);
      gens1 := new GenBank(aes, BASE_OT_COUNT);
    }

    /** setBaseOts; false stands for the exception. */
    method SetBaseOts(baseOts: seq<BlockPair>) returns (ok: bool)
      requires Built() && gens0.Seedable() && gens1.Seedable()
      modifies this, gens0.Repr, gens1.Repr
      ensures ok == (|baseOts| == BASE_OT_COUNT)
      ensures ok ==> Ready() && base == baseOts && gens0.round == 0
    {
      if |baseOts| != BASE_OT_COUNT {
        return false;
      }
      base := baseOts;
      gens0.SetSeeds(Seeds0(baseOts));
      gens1.SetSeeds(Seeds1(baseOts));
      mHasBase := true;
      ok := true;
    }

    /** In block n, the first i generators of each array have drawn their column. */
    ghost predicate Drawn(n: nat, i: nat)
      reads this, gens0, gens0.Repr, gens1, gens1.Repr
    {
      && Built() && mHasBase && gens0.Valid() && gens1.Valid()
      && gens0.seeds == Seeds0(base) && gens1.seeds == Seeds1(base)
      && gens0.round == gens1.round == (if i < BASE_OT_COUNT then n else n + 1)
      && gens0.next == gens1.next == (if i < BASE_OT_COUNT then i else 0)
    }

    /** One pass of the column loop of Extend. */
    method Column(i: nat, x: Block, ghost n: nat) returns (t0i: Block, ui: Block)
      requires i < BASE_OT_COUNT && Drawn(n, i)
      modifies gens0.Repr, gens1.Repr
      ensures Drawn(n, i + 1)
      ensures t0i == KeyBlock(aes, base[i].m0, n) && ui == UColumn(aes, base[i], x, n)
    {
      t0i := gens0.GetBlock(i);
      var t1i := gens1.GetBlock(i);
      ui := Xor(t1i, Xor(t0i, x));
    }

    /** The column loop of Extend: fill t0 and the buffer for the peer. */
    method Columns(x: Block, t0: array<Block>) returns (u: seq<Block>)
      requires Ready() && t0.Length == 128 && t0 as object !in gens0.Repr + gens1.Repr
      modifies gens0.Repr, gens1.Repr, t0
      ensures Ready() && gens0.round == old(gens0.round) + 1
      ensures t0[..] == T0(aes, base, old(gens0.round)) && u == U(aes, base, x, old(gens0.round))
    {
      ghost var n := gens0.round;
      u := [];
      for i := 0 to BASE_OT_COUNT
        invariant Drawn(n, i)
        invariant |u| == i && forall k | 0 <= k < i ::
          t0[k] == KeyBlock(aes, base[k].m0, n) && u[k] == UColumn(aes, base[k], x, n)
      {
        var t0i, ui := Column(i, x, n);
        t0[i] := t0i;
        u := u + [ui];
      }
    }

    /** One block of Extend: send the columns, transpose t0 in place, hash its rows. */
    method ExtendBlock(x: Block, chl: Channel) returns (messages: seq<Block>)
      requires Ready() && chl as object !in gens0.Repr + gens1.Repr
      modifies gens0.Repr, gens1.Repr, chl`sent
      ensures Ready() && gens0.round == old(gens0.round) + 1
      ensures chl.sent == old(chl.sent) + [Flat(U(aes, base, x, old(gens0.round)))]
      ensures messages == RecvMessages(sha, aes, base, old(gens0.round))
    {
      ghost var n := gens0.round;
      var t0 := new Block[128](_ => ZeroBlock());
      var u := Columns(x, t0);
      chl.AsyncSend(Flat(u));
      SseTranspose128(t0);
      messages := [];
      for r := 0 to BASE_OT_COUNT
        invariant |messages| == r && forall k | 0 <= k < r :: messages[k] == HashRow(sha, t0[k])
      {
        messages := messages + [HashRow(sha, t0[r])];
      }
    }

    /** Extend over a vector of `size` choices, kept in the bits of whole bytes and resized to 512; no messages stand for
        the early return or the exception. */
    method Extend(size: nat, choices: seq<bool>, chl: Channel) returns (messages: seq<seq<Block>>)
      requires mHasBase ==> Ready()
      requires |choices| == 8 * ((size + 7) / 8)
      requires chl as object !in gens0.Repr + gens1.Repr
      modifies gens0.Repr, gens1.Repr, chl`sent
      ensures size == 0 || !mHasBase ==> messages == [] && chl.sent == old(chl.sent)
      ensures size > 0 && mHasBase ==>
        && Ready() && gens0.round == old(gens0.round) + 4
        && chl.sent == old(chl.sent) + SentColumns(aes, base, Unflat(ResizedBits(choices)), old(gens0.round), 4)
        && messages == RecvBlocks(sha, aes, base, old(gens0.round), 4)
    {
      messages := [];
      if size == 0 || !mHasBase {
        return;
      }
      var choiceBlocks := Unflat(ResizedBits(choices));
      ghost var n := gens0.round;
      for b := 0 to 4
        invariant Ready() && gens0.round == n + b
        invariant chl.sent == old(chl.sent) + SentColumns(aes, base, choiceBlocks, n, b)
        invariant messages == RecvBlocks(sha, aes, base, n, b)
      {
        var ms := ExtendBlock(choiceBlocks[b], chl);
        messages := messages + [ms];
      }
    }
  }

  /** The memory of a bit vector resized to 512 bits: cut, or continued by the cleared memory behind it. */
  function ResizedBits(bits: seq<bool>): (r: seq<bool>)
    ensures |r| == 512 && forall i | 0 <= i < 512 :: r[i] == (i < |bits| && bits[i])
  {
    if |bits| >= 512 then bits[..512] else bits + seq(512 - |bits|, _ => false)
  }

  /** The buffers the receiver sends for its first k choice blocks. */
  function SentColumns(aes: Cipher, base: Pairs, x: seq<Block>, n: nat, k: nat): (us: seq<Message>)
    requires k <= |x|
    ensures |us| == k
  {
    seq(k, b requires 0 <= b < k => Flat(U(aes, base, x[b], n + b)))
  }

  /** The receiver's messages of its first k blocks. */
  function RecvBlocks(sha: Hash, aes: Cipher, base: Pairs, n: nat, k: nat): (ms: seq<Square>)
    ensures |ms| == k
  {
    seq<Square>(k, b requires 0 <= b < k => RecvMessages(sha, aes, base, n + b))
  }

  /** The sender's message pairs of its first k blocks, from the buffers it received. */
  function SendBlocks(sha: Hash, aes: Cipher, seeds: Square, delta: Block, us: seq<Message>, n: nat, k: nat): (ms: seq<Pairs>)
    requires k <= |us| && forall b | 0 <= b < k :: |us[b]| == 128 * 128
    ensures |ms| == k
  {
    seq<Pairs>(k, b requires 0 <= b < k => SendMessages(sha, aes, seeds, delta, Unflat(us[b]), n + b))
  }

  /** The whole extension: for any seeds, base choices and 512 choice bits, the receiver's message (b, r) is the
      sender's message (b, r) at choice bit 128 b + r. */
  lemma FourBlocksCorrect(sha: Hash, aes: Cipher, base: Pairs, seeds: Square, delta: Block, choices: seq<bool>, n: nat,
                          b: nat, r: nat)
    requires BaseOts(base, seeds, delta) && |choices| == 512 && b < 4 && r < 128
    ensures var us := SentColumns(aes, base, Unflat(choices), n, 4);
            RecvBlocks(sha, aes, base, n, 4)[b][r]
            == SendBlocks(sha, aes, seeds, delta, us, n, 4)[b][r].At(choices[128 * b + r])
  {
    var x := Unflat(choices);
    var us := SentColumns(aes, base, x, n, 4);
    UnflatFlat(U(aes, base, x[b], n + b));
    ExtensionCorrect(sha, aes, base, seeds, delta, x[b], n + b, r);
    UnflatAt(choices, b, r);
  }

  /** Bit (c, r) of the buffer sent for block b: both seeds' column bits and the choice bit of the row, added. */
  lemma SentBit(aes: Cipher, base: Pairs, choices: seq<bool>, n: nat, b: nat, c: nat, r: nat)
    requires |choices| == 512 && b < 4 && c < 128 && r < 128
    ensures SentColumns(aes, base, Unflat(choices), n, 4)[b][128 * c + r]
            <==> (KeyBlock(aes, base[c].m0, n + b)[r] != KeyBlock(aes, base[c].m1, n + b)[r]) != choices[128 * b + r]
  {
    FlatAt(U(aes, base, Unflat(choices)[b], n + b), c, r);
    UnflatAt(choices, b, r);
  }

  /** What the receiver's message (b, r) is made of: the hash of the bits its first seeds' columns have in row r. */
  lemma ReceivedMessage(sha: Hash, aes: Cipher, base: Pairs, n: nat, b: nat, r: nat) returns (row: Block)
    requires b < 4 && r < 128
    ensures forall c | 0 <= c < 128 :: row[c] == KeyBlock(aes, base[c].m0, n + b)[r]
    ensures RecvBlocks(sha, aes, base, n, 4)[b][r] == sha(row)[..128]
  {
    row := Transposed(T0(aes, base, n + b))[r];
    assert RecvBlocks(sha, aes, base, n, 4)[b] == RecvMessages(sha, aes, base, n + b);
    assert RecvMessages(sha, aes, base, n + b)[r] == HashRow(sha, row);
  }

  /** What the sender's pair (b, r) is made of: the bits its seeds' columns have in row r, plus those of the columns received
      where its base choice is set; hashed as they are, and with the base choices added. */
  lemma SentPair(sha: Hash, aes: Cipher, seeds: Square, delta: Block, us: seq<Message>, n: nat, b: nat, r: nat)
    returns (row: Block, other: Block)
    requires |us| >= 4 && (forall k | 0 <= k < 4 :: |us[k]| == 128 * 128) && b < 4 && r < 128
    ensures forall c | 0 <= c < 128 :: row[c] == (KeyBlock(aes, seeds[c], n + b)[r] != (delta[c] && us[b][128 * c + r]))
    ensures forall c | 0 <= c < 128 :: other[c] == (row[c] != delta[c])
    ensures var pair := SendBlocks(sha, aes, seeds, delta, us, n, 4)[b][r];
      pair.At(false) == sha(row)[..128] && pair.At(true) == sha(other)[..128]
  {
    var u := Unflat(us[b]);
    row := Transposed(Q(aes, seeds, delta, u, n + b))[r];
    other := Xor(row, delta);
    forall c | 0 <= c < 128
      ensures row[c] == (KeyBlock(aes, seeds[c], n + b)[r] != (delta[c] && us[b][128 * c + r]))
    {
      UnflatAt(us[b], c, r);
    }
    assert SendBlocks(sha, aes, seeds, delta, us, n, 4)[b] == SendMessages(sha, aes, seeds, delta, u, n + b);
  }

  class IknpSender {
    const aes: Cipher
    const sha: Hash
    const gens: GenBank  // mGens
    var mBaseChoiceBits: seq<bool>

    ghost predicate Built() {
      gens.aes == aes && |gens.gens| == BASE_OT_COUNT && this !in gens.Repr
    }

    ghost predicate Ready(seeds: seq<Block>)
      reads this, gens, gens.Repr
    {
      Built() && |mBaseChoiceBits| == BASE_OT_COUNT && gens.Valid() && gens.seeds == seeds && gens.next == 0
    }

    constructor (aes: Cipher, sha: Hash)
      ensures Built() && gens.Seedable() && mBaseChoiceBits == [] && this.aes == aes && this.sha == sha
      ensures fresh(gens.Repr)
    {
      this.aes, this.sha, mBaseChoiceBits := aes, sha, [];
      gens := new GenBank(aes, BASE_OT_COUNT);
    }

    /** setBaseOts; false stands for the exception. */
    method SetBaseOts(baseRecvOts: seq<Block>, choices: seq<bool>) returns (ok: bool)
      requires Built() && gens.Seedable()
      modifies this, gens.Repr
      ensures ok == (|baseRecvOts| == BASE_OT_COUNT && |choices| == BASE_OT_COUNT)
      ensures ok ==> Ready(baseRecvOts) && mBaseChoiceBits == choices && gens.round == 0
    {
      if |baseRecvOts| != BASE_OT_COUNT || |choices| != BASE_OT_COUNT {
        return false;
      }
      mBaseChoiceBits := choices;
      gens.SetSeeds(baseRecvOts);
      ok := true;
    }

    /** The column loop of Extend: q gets each generator's block, xored with the column received where delta is set. */
    method Columns(u: seq<Block>, q: array<Block>, ghost seeds: seq<Block>)
      requires Ready(seeds) && |u| == 128 && q.Length == 128 && q as object !in gens.Repr
      modifies gens.Repr, q
      ensures Ready(seeds) && gens.round == old(gens.round) + 1
      ensures q[..] == Q(aes, seeds, mBaseChoiceBits, u, old(gens.round))
    {
      ghost var n := gens.round;
      for i := 0 to BASE_OT_COUNT
        invariant gens.Valid() && gens.seeds == seeds
        invariant gens.round == (if i < BASE_OT_COUNT then n else n + 1) && gens.next == (if i < BASE_OT_COUNT then i else 0)
        invariant forall k | 0 <= k < i :: q[k] == QColumn(aes, seeds[k], mBaseChoiceBits[k], u[k], n)
      {
        q[i] := gens.GetBlock(i);
        if mBaseChoiceBits[i] {
          q[i] := Xor(q[i], u[i]);
        }
      }
    }
  
    /** One block of Extend: receive the columns, build and transpose q in place, hash its rows with and without delta. */
    method ExtendBlock(chl: Channel, ghost seeds: seq<Block>) returns (messages: seq<BlockPair>)
      requires Ready(seeds) && chl as object !in gens.Repr
      requires chl.inbox != [] && |chl.inbox[0]| == 128 * 128
      modifies gens.Repr, chl`inbox
      ensures Ready(seeds) && gens.round == old(gens.round) + 1
      ensures chl.inbox == old(chl.inbox)[1..]
      ensures messages == SendMessages(sha, aes, seeds, mBaseChoiceBits, Unflat(old(chl.inbox)[0]), old(gens.round))
    {
      var buff := chl.Recv();
      var u := Unflat(buff);
      var q := new Block[128](_ => ZeroBlock());
      Columns(u, q, seeds);
      SseTranspose128(q);
      messages := [];
      for r := 0 to BASE_OT_COUNT
        invariant |messages| == r && forall k | 0 <= k < r :: messages[k] == HashPair(sha, q[k], mBaseChoiceBits)
      {
        messages := messages + [HashPair(sha, q[r], mBaseChoiceBits)];
      }
    }

    /** Extend; no messages stand for the exception. */
    method Extend(chl: Channel, ghost seeds: seq<Block>) returns (messages: seq<seq<BlockPair>>)
      requires |mBaseChoiceBits| == BASE_OT_COUNT ==> Ready(seeds)
      requires chl as object !in gens.Repr
      requires |chl.inbox| >= 4 && forall b | 0 <= b < 4 :: |chl.inbox[b]| == 128 * 128
      modifies gens.Repr, chl`inbox
      ensures |mBaseChoiceBits| != BASE_OT_COUNT ==> messages == [] && chl.inbox == old(chl.inbox)
      ensures |mBaseChoiceBits| == BASE_OT_COUNT ==>
        && Ready(seeds) && gens.round == old(gens.round) + 4 && chl.inbox == old(chl.inbox)[4..]
        && messages == SendBlocks(sha, aes, seeds, mBaseChoiceBits, old(chl.inbox), old(gens.round), 4)
    {
      messages := [];
      if |mBaseChoiceBits| != BASE_OT_COUNT {
        return;
      }
      ghost var us := chl.inbox;
      ghost var n := gens.round;
      for b := 0 to 4
        invariant Ready(seeds) && gens.round == n + b && chl.inbox == us[b..]
        invariant messages == SendBlocks(sha, aes, seeds, mBaseChoiceBits, us, n, b)
      {
        var ms := ExtendBlock(chl, seeds);
        messages := messages + [ms];
      }
    }
  }
}
