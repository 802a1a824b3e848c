/** The extension that yields the OPRF rows: 512 columns of seeds stretched to any number of rows. */
module Ssot {
  import opened Bits
  import opened Prng
  import opened Transpose

  const SSOT_COUNT: nat := 512

  /** 512 seeds, four blocks of 128. */
  type Seeds = s: seq<Block> | |s| == 512 witness seq(512, _ => ZeroBlock())

  /** Columns 128 b .. 128 b + 127 of block n, before the transpose. */
  function Columns(aes: Cipher, seeds: Seeds, b: nat, n: nat): Square
    requires b < 4
  {
    var part: Square := seeds[128 * b..128 * b + 128];
    seq<Block>(128, c requires 0 <= c < 128 => KeyBlock(aes, part[c], n))
  }

  /** Row i of the matrix the seeds stretch to. */
  function SeedRow(aes: Cipher, seeds: Seeds, i: nat): Row {
    seq<Block>(4, b requires 0 <= b < 4 => Transposed(Columns(aes, seeds, b, i / 128))[i % 128])
  }

  /** Column c of block b of row i is bit i of the keystream of seed 128 b + c. */
  lemma SeedRowAt(aes: Cipher, seeds: Seeds, i: nat, b: nat, c: nat)
    requires b < 4 && c < 128
    ensures SeedRow(aes, seeds, i)[b][c] == KeyBits(aes, seeds[128 * b + c], i, 1)[0]
  {}

  /** What the base OTs deliver: `chosen` holds, per column, the seed its choice bit selects. */
  ghost predicate BaseSeeds(seeds0: Seeds, seeds1: Seeds, chosen: Seeds, s: seq<bool>)
    requires |s| == 512
  {
    forall j | 0 <= j < 512 :: chosen[j] == if s[j] then seeds1[j] else seeds0[j]
  }

  /** Every row is correlated: q = t0 ^ ((t0 ^ t1) & s). */
  lemma RowsCorrelated(aes: Cipher, seeds0: Seeds, seeds1: Seeds, chosen: Seeds, s: seq<bool>, i: nat)
    requires |s| == 512 && BaseSeeds(seeds0, seeds1, chosen, s)
    ensures var t0, t1 := SeedRow(aes, seeds0, i), SeedRow(aes, seeds1, i);
            SeedRow(aes, chosen, i) == XorRow(t0, AndRow(XorRow(t0, t1), Unflat(s)))
  {
    forall b | 0 <= b < 4
      ensures var t0, t1 := SeedRow(aes, seeds0, i)[b], SeedRow(aes, seeds1, i)[b];
              SeedRow(aes, chosen, i)[b] == Xor(t0, And(Xor(t0, t1), Unflat(s)[b]))
    {
      RowBlockCorrelated(aes, seeds0, seeds1, chosen, s, i, b);
    }
  }

  lemma RowBlockCorrelated(aes: Cipher, seeds0: Seeds, seeds1: Seeds, chosen: Seeds, s: seq<bool>, i: nat, b: nat)
    requires |s| == 512 && BaseSeeds(seeds0, seeds1, chosen, s) && b < 4
    ensures var t0, t1 := SeedRow(aes, seeds0, i)[b], SeedRow(aes, seeds1, i)[b];
            SeedRow(aes, chosen, i)[b] == Xor(t0, And(Xor(t0, t1), Unflat(s)[b]))
  {
    var n, r := i / 128, i % 128;
    forall c | 0 <= c < 128
      ensures Columns(aes, chosen, b, n)[c] == if Unflat(s)[b][c] then Columns(aes, seeds1, b, n)[c] else Columns(aes, seeds0, b, n)[c]
    {
      UnflatAt(s, b, c);
    }
  }

  /** One block of 128 columns drawn from the generators and transposed in place. */
  method NextRows(gens: GenBank, b: nat, t: array<Block>, ghost seeds: Seeds, ghost n: nat)
    requires gens.Valid() && |gens.gens| == 512 && gens.seeds == seeds && b < 4
    requires gens.round == n && gens.next == 128 * b
    requires t.Length == 128 && t as object !in gens.Repr
    modifies gens.Repr, t
    ensures gens.Valid() && gens.seeds == seeds
    ensures if b < 3 then gens.round == n && gens.next == 128 * (b + 1) else gens.round == n + 1 && gens.next == 0
    ensures t[..] == Transposed(Columns(gens.aes, seeds, b, n))
  {
    for c := 0 to 128
      invariant gens.Valid() && gens.seeds == seeds
      invariant if 128 * b + c < 512 then gens.round == n && gens.next == 128 * b + c else gens.round == n + 1 && gens.next == 0
      invariant forall k | 0 <= k < c :: t[k] == KeyBlock(gens.aes, seeds[128 * b + k], n)
    {
      t[c] := gens.GetBlock(128 * b + c);
    }
    assert t[..] == Columns(gens.aes, seeds, b, n);
    SseTranspose128(t);
  }

  /** The four transposed column blocks of one block of rows. */
  method NextSquares(gens: GenBank, ghost seeds: Seeds, ghost n: nat) returns (squares: seq<Square>)
    requires gens.Valid() && |gens.gens| == 512 && gens.seeds == seeds && gens.round == n && gens.next == 0
    modifies gens.Repr
    ensures gens.Valid() && gens.seeds == seeds && gens.round == n + 1 && gens.next == 0
    ensures |squares| == 4 && forall b | 0 <= b < 4 :: squares[b] == Transposed(Columns(gens.aes, seeds, b, n))
  {
    squares := [];
    for b := 0 to 4
      invariant gens.Valid() && gens.seeds == seeds
      invariant if b < 4 then gens.round == n && gens.next == 128 * b else gens.round == n + 1 && gens.next == 0
      invariant |squares| == b && forall k | 0 <= k < b :: squares[k] == Transposed(Columns(gens.aes, seeds, k, n))
    {
      var t := new Block[128](_ => ZeroBlock());
      NextRows(gens, b, t, seeds, n);
      squares := squares + [t[..]];
    }
  }

  function RowOf(squares: seq<Square>, r: nat): Row
    requires |squares| == 4 && r < 128
  {
    [squares[0][r], squares[1][r], squares[2][r], squares[3][r]]
  }

  lemma RowOfSquares(aes: Cipher, seeds: Seeds, squares: seq<Square>, n: nat, r: nat)
    requires |squares| == 4 && r < 128
    requires forall b | 0 <= b < 4 :: squares[b] == Transposed(Columns(aes, seeds, b, n))
    ensures RowOf(squares, r) == SeedRow(aes, seeds, 128 * n + r)
  {
    assert (128 * n + r) / 128 == n && (128 * n + r) % 128 == r;
  }

  class SsotSender {
    const aes: Cipher
    const gens: GenBank  // mGens, four blocks of 128 laid end to end
    var mBaseChoiceBits: seq<bool>

    ghost predicate Built() {
      gens.aes == aes && |gens.gens| == SSOT_COUNT && this !in gens.Repr
    }

    ghost predicate Ready(seeds: Seeds)
      reads this, gens, gens.Repr
    {
      && Built() && |mBaseChoiceBits| == SSOT_COUNT
      && gens.Valid() && gens.seeds == seeds && gens.round == gens.next == 0
    }

    constructor (aes: Cipher)
      ensures Built() && gens.Seedable() && mBaseChoiceBits == [] && this.aes == aes && fresh(gens.Repr)
    {
      this.aes, mBaseChoiceBits := aes, [];
      gens := new GenBank(aes, SSOT_COUNT);
    }

    /** setBaseSSOts; false stands for the exception. */
    method SetBaseSsots(baseRecvOts: Seeds, choices: seq<bool>) returns (ok: bool)
      requires Built() && gens.Seedable()
      modifies this, gens.Repr
      ensures ok == (|choices| == SSOT_COUNT)
      ensures ok ==> Ready(baseRecvOts) && mBaseChoiceBits == choices
    {
      if |choices| != SSOT_COUNT {
        return false;
      }
      mBaseChoiceBits := choices;
      gens.SetSeeds(baseRecvOts);
      ok := true;
    }

    /** Extend: the first inputSize rows of recvMsg are the rows of the chosen seeds, the last block possibly partial. */
    method Extend(inputSize: nat, recvMsg: array<Row>, ghost seeds: Seeds)
      requires Ready(seeds) && inputSize <= recvMsg.Length && recvMsg as object !in gens.Repr
      modifies gens.Repr, recvMsg
      ensures forall i | 0 <= i < inputSize :: recvMsg[i] == SeedRow(aes, seeds, i)
      ensures forall i | inputSize <= i < recvMsg.Length :: recvMsg[i] == old(recvMsg[i])
    {
      var numBlocks := (inputSize + 127) / 128;
      var doneIdx := 0;
      for n := 0 to numBlocks
        invariant gens.Valid() && gens.seeds == seeds && gens.round == n && gens.next == 0
        invariant doneIdx == if 128 * n < inputSize then 128 * n else inputSize
        invariant forall i | 0 <= i < doneIdx :: recvMsg[i] == SeedRow(aes, seeds, i)
        invariant forall i | doneIdx <= i < recvMsg.Length :: recvMsg[i] == old(recvMsg[i])
      {
        var q := NextSquares(gens, seeds, n);
        var stopIdx := if 128 < inputSize - doneIdx then 128 else inputSize - doneIdx;
        for r := 0 to stopIdx
          modifies recvMsg
          invariant doneIdx == 128 * n + r
          invariant forall i | 0 <= i < doneIdx :: recvMsg[i] == SeedRow(aes, seeds, i)
          invariant forall i | doneIdx <= i < recvMsg.Length :: recvMsg[i] == old(recvMsg[i])
        {
          RowOfSquares(aes, seeds, q, n, r);
          recvMsg[doneIdx] := RowOf(q, r);
          doneIdx := doneIdx + 1;
        }
      }
    }
  }

  class SsotReceiver {
    const aes: Cipher
    const gens0: GenBank  // mGens[..][..][0]
    const gens1: GenBank  // mGens[..][..][1]
    var mHasBase: bool

    ghost predicate Built() {
      && gens0.aes == gens1.aes == aes && |gens0.gens| == |gens1.gens| == SSOT_COUNT
      && gens0.Repr !! gens1.Repr && this !in gens0.Repr + gens1.Repr
    }

    ghost predicate Ready(seeds0: Seeds, seeds1: Seeds)
      reads this, gens0, gens0.Repr, gens1, gens1.Repr
    {
      && Built() && mHasBase && gens0.Valid() && gens1.Valid()
      && gens0.seeds == seeds0 && gens1.seeds == seeds1
      && gens0.round == gens1.round == gens0.next == gens1.next == 0
    }

    constructor (aes: Cipher)
      ensures Built() && gens0.Seedable() && gens1.Seedable() && !mHasBase && this.aes == aes
      ensures fresh(gens0.Repr) && fresh(gens1.Repr)
    {
      this.aes, mHasBase := aes, false;
      gens0 := new GenBank(aes, SSOT_COUNT);
      gens1 := new GenBank(aes, SSOT_COUNT);
    }

    method SetBaseSsots(seeds0: Seeds, seeds1: Seeds)
      requires Built() && gens0.Seedable() && gens1.Seedable()
      modifies this, gens0.Repr, gens1.Repr
      ensures Ready(seeds0, seeds1)
    {
      gens0.SetSeeds(seeds0);
      gens1.SetSeeds(seeds1);
      mHasBase := true;
    }

    /** The row loop of Extend: stopIdx rows of block n go out from doneIdx on. */
    method WriteRows(sendMsg: array<RowPair>, t0: seq<Square>, t1: seq<Square>, doneIdx: nat, stopIdx: nat,
                     ghost seeds0: Seeds, ghost seeds1: Seeds, ghost n: nat)
      requires |t0| == |t1| == 4 && stopIdx <= 128 && doneIdx + stopIdx <= sendMsg.Length
      requires stopIdx > 0 ==> doneIdx == 128 * n
      requires forall b | 0 <= b < 4 :: t0[b] == Transposed(Columns(aes, seeds0, b, n))
      requires forall b | 0 <= b < 4 :: t1[b] == Transposed(Columns(aes, seeds1, b, n))
      modifies sendMsg
      ensures forall i | doneIdx <= i < doneIdx + stopIdx ::
        sendMsg[i] == RowPair(SeedRow(aes, seeds0, i), SeedRow(aes, seeds1, i))
      ensures forall i | 0 <= i < sendMsg.Length && !(doneIdx <= i < doneIdx + stopIdx) :: sendMsg[i] == old(sendMsg[i])
    {
      for r := 0 to stopIdx
        invariant forall i | doneIdx <= i < doneIdx + r ::
          sendMsg[i] == RowPair(SeedRow(aes, seeds0, i), SeedRow(aes, seeds1, i))
        invariant forall i | 0 <= i < sendMsg.Length && !(doneIdx <= i < doneIdx + r) :: sendMsg[i] == old(sendMsg[i])
      {
        RowOfSquares(aes, seeds0, t0, n, r);
        RowOfSquares(aes, seeds1, t1, n, r);
        sendMsg[doneIdx + r] := RowPair(RowOf(t0, r), RowOf(t1, r));
      }
    }

    /** Extend: both rows of every OT up to inputSize; false stands for the exception. */
    method Extend(inputSize: nat, sendMsg: array<RowPair>, ghost seeds0: Seeds, ghost seeds1: Seeds) returns (ok: bool)
      requires mHasBase ==> Ready(seeds0, seeds1)
      requires inputSize <= sendMsg.Length && sendMsg as object !in gens0.Repr + gens1.Repr
      modifies gens0.Repr, gens1.Repr, sendMsg
      ensures ok == old(mHasBase)
      ensures ok ==> forall i | 0 <= i < inputSize ::
        sendMsg[i] == RowPair(SeedRow(aes, seeds0, i), SeedRow(aes, seeds1, i))
      ensures forall i | 0 <= i < sendMsg.Length && (!ok || inputSize <= i) :: sendMsg[i] == old(sendMsg[i])
    {
      if !mHasBase {
        return false;
      }
      var numBlocks := (inputSize + 127) / 128;
      var doneIdx := 0;
      for n := 0 to numBlocks
        invariant gens0.Valid() && gens0.seeds == seeds0 && gens0.round == n && gens0.next == 0
        invariant gens1.Valid() && gens1.seeds == seeds1 && gens1.round == n && gens1.next == 0
        invariant doneIdx == if 128 * n < inputSize then 128 * n else inputSize
        invariant forall i | 0 <= i < doneIdx :: sendMsg[i] == RowPair(SeedRow(aes, seeds0, i), SeedRow(aes, seeds1, i))
        invariant forall i | doneIdx <= i < sendMsg.Length :: sendMsg[i] == old(sendMsg[i])
      {
        var t0 := NextSquares(gens0, seeds0, n);
        var t1 := NextSquares(gens1, seeds1, n);
        var stopIdx := if 128 < inputSize - doneIdx then 128 else inputSize - doneIdx;
        WriteRows(sendMsg, t0, t1, doneIdx, stopIdx, seeds0, seeds1, n);
        doneIdx := doneIdx + stopIdx;
      }
      ok := true;
    }
  }
}
