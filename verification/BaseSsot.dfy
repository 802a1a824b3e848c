/** The 512 base OTs of the SSOT extension: Naor-Pinkas OTs stretched by IKNP, with the roles swapped in between. */
module BaseSsot {
  import opened Bits
  import opened Channels
  import opened Prng
  import opened Transpose
  import Iknp
  import NaorPinkas
  import NaorPinkasThreads
  import Ssot

  /** Four blocks of message pairs as two rows of 512 seeds, and four blocks of chosen messages as one. */
  function First(pairs: seq<Iknp.Pairs>): Ssot.Seeds
    requires |pairs| == 4
  {
    seq<Block>(512, j requires 0 <= j < 512 => pairs[j / 128][j % 128].m0)
  }

  function Second(pairs: seq<Iknp.Pairs>): Ssot.Seeds
    requires |pairs| == 4
  {
    seq<Block>(512, j requires 0 <= j < 512 => pairs[j / 128][j % 128].m1)
  }

  function Chosen(outputs: seq<Square>): Ssot.Seeds
    requires |outputs| == 4
  {
    seq<Block>(512, j requires 0 <= j < 512 => outputs[j / 128][j % 128])
  }

  /** What the OTRole::Sender side ends with, from the 128 base OT messages it received and the columns it was sent. */
  function SenderInputs(sha: Hash, aes: Cipher, seeds: Square, delta: Block, us: seq<Message>): (pairs: seq<Iknp.Pairs>)
    requires |us| == 4 && forall b | 0 <= b < 4 :: |us[b]| == 128 * 128
    ensures |pairs| == 4
  {
    Iknp.SendBlocks(sha, aes, seeds, delta, us, 0, 4)
  }

  /** What the OTRole::Receiver side ends with, from the 128 base OT pairs it sent. */
  function ReceiverOutputs(sha: Hash, aes: Cipher, base: Iknp.Pairs): (outputs: seq<Square>)
    ensures |outputs| == 4
  {
    Iknp.RecvBlocks(sha, aes, base, 0, 4)
  }

  /** Exec_SSOT: when the 128 base OTs are right, so are the 512 made from them. */
  lemma ExecCorrect(sha: Hash, aes: Cipher, base: Iknp.Pairs, seeds: Square, delta: Block, choices: seq<bool>)
    requires Iknp.BaseOts(base, seeds, delta) && |choices| == 512
    ensures var us := Iknp.SentColumns(aes, base, Unflat(choices), 0, 4);
            var pairs := SenderInputs(sha, aes, seeds, delta, us);
            Ssot.BaseSeeds(First(pairs), Second(pairs), Chosen(ReceiverOutputs(sha, aes, base)), choices)
  {
    hide Iknp.U, Iknp.SendMessages, Iknp.RecvMessages, Flat, Unflat;
    var us := Iknp.SentColumns(aes, base, Unflat(choices), 0, 4);
    var pairs, outputs := SenderInputs(sha, aes, seeds, delta, us), ReceiverOutputs(sha, aes, base);
    forall j | 0 <= j < 512
      ensures Chosen(outputs)[j] == if choices[j] then Second(pairs)[j] else First(pairs)[j]
    {
      Iknp.FourBlocksCorrect(sha, aes, base, seeds, delta, choices, 0, j / 128, j % 128);
    }
  }

  /** What the seeds are: the sender of the 512 OTs ends with the digests of row r of block b, without and with its base
      choices added; the receiver with that of its own row r of block b. */
  lemma SeedsAre(sha: Hash, aes: Cipher, base: Iknp.Pairs, seeds: Square, delta: Block, us: seq<Message>, b: nat, r: nat)
    returns (row: Block, other: Block, own: Block)
    requires |us| == 4 && (forall k | 0 <= k < 4 :: |us[k]| == 128 * 128) && b < 4 && r < 128
    ensures forall c | 0 <= c < 128 :: row[c] == (KeyBlock(aes, seeds[c], b)[r] != (delta[c] && us[b][128 * c + r]))
    ensures forall c | 0 <= c < 128 :: other[c] == (row[c] != delta[c]) && own[c] == KeyBlock(aes, base[c].m0, b)[r]
    ensures var pairs := SenderInputs(sha, aes, seeds, delta, us); var j := 128 * b + r;
      First(pairs)[j] == sha(row)[..128] && Second(pairs)[j] == sha(other)[..128]
    ensures Chosen(ReceiverOutputs(sha, aes, base))[128 * b + r] == sha(own)[..128]
  {
    hide Iknp.SendMessages, Iknp.RecvMessages;
    row, other := Iknp.SentPair(sha, aes, seeds, delta, us, 0, b, r);
    own := Iknp.ReceivedMessage(sha, aes, base, 0, b, r);
    assert (128 * b + r) / 128 == b && (128 * b + r) % 128 == r;
  }

  /** The 128 base OTs that any finished schedule of the Naor-Pinkas threads leaves. */
  lemma BaseFromThreads<E(!new)>(x: NaorPinkas.Secrets<E>, T: nat, S: nat, states: seq<NaorPinkasThreads.State>,
                                 acts: seq<NaorPinkasThreads.Action>, k: nat)
    returns (base: Iknp.Pairs, seeds: Square, delta: Block)
    requires x.Valid() && |x.choices| == 128 && T > 0 && S > 0
    requires NaorPinkasThreads.Run(NaorPinkasThreads.JobOf(x, T, S), states, acts) && k <= |acts|
    requires NaorPinkasThreads.Finished(NaorPinkasThreads.JobOf(x, T, S), states[k])
    ensures |states[k].rMsgs| == |states[k].m0| == |states[k].m1| == 128
    ensures seeds == states[k].rMsgs && delta == x.choices && Iknp.BaseOts(base, seeds, delta)
    ensures forall i | 0 <= i < 128 :: base[i] == Pair(states[k].m0[i], states[k].m1[i])
  {
    hide NaorPinkas.Group.Valid, NaorPinkasThreads.Finished;
    var s := states[k];
    NaorPinkasThreads.BaseOtsCorrect(x, T, S, states, acts, k, 0);
    base := seq<BlockPair>(128, i requires 0 <= i < 128 && |s.m0| == |s.m1| == 128 => Pair(s.m0[i], s.m1[i]));
    seeds, delta := s.rMsgs, x.choices;
    forall i | 0 <= i < 128 ensures seeds[i] == base[i].At(delta[i]) {
      NaorPinkasThreads.BaseOtsCorrect(x, T, S, states, acts, k, i);
    }
  }

  /** The message of check for OT j: both of the sender's values. */
  function CheckMessage(seeds0: Ssot.Seeds, seeds1: Ssot.Seeds, j: nat): (m: Message)
    requires j < 512
    ensures |m| == 256
  {
    var first: seq<bool>, second: seq<bool> := seeds0[j], seeds1[j];
    first + second
  }

  function CheckMessages(seeds0: Ssot.Seeds, seeds1: Ssot.Seeds, n: nat): (ms: seq<Message>)
    requires n <= 512
    ensures |ms| == n
  {
    seq(n, j requires 0 <= j < n => CheckMessage(seeds0, seeds1, j))
  }

  /** check on the sending side: false stands for the exception on the first pair of equal values. */
  method CheckSender(seeds0: Ssot.Seeds, seeds1: Ssot.Seeds, chl: Channel) returns (ok: bool)
    modifies chl`sent
    ensures ok <==> forall j | 0 <= j < 512 :: seeds0[j] != seeds1[j]
    ensures ok ==> chl.sent == old(chl.sent) + CheckMessages(seeds0, seeds1, 512)
    ensures !ok ==> exists j :: 0 <= j < 512 && seeds0[j] == seeds1[j] && (forall i | 0 <= i < j :: seeds0[i] != seeds1[i])
                                && chl.sent == old(chl.sent) + CheckMessages(seeds0, seeds1, j)
  {
    for j := 0 to 512
      invariant forall i | 0 <= i < j :: seeds0[i] != seeds1[i]
      invariant chl.sent == old(chl.sent) + CheckMessages(seeds0, seeds1, j)
    {
      if seeds0[j] == seeds1[j] {
        return false;
      }
      var first: seq<bool>, second: seq<bool> := seeds0[j], seeds1[j];
      chl.AsyncSend(first + second);
      assert CheckMessages(seeds0, seeds1, j + 1) == CheckMessages(seeds0, seeds1, j) + [CheckMessage(seeds0, seeds1, j)];
    }
    ok := true;
  }

  /** check on the receiving side: false stands for the exception on a value that is not the chosen one. */
  method CheckReceiver(chosen: Ssot.Seeds, choices: seq<bool>, chl: Channel) returns (ok: bool)
    requires |choices| == 512 && |chl.inbox| >= 512 && forall j | 0 <= j < 512 :: |chl.inbox[j]| == 256
    modifies chl`inbox
    ensures ok <==> forall j | 0 <= j < 512 ::
      chosen[j] == if choices[j] then old(chl.inbox)[j][128..] else old(chl.inbox)[j][..128]
    ensures ok ==> chl.inbox == old(chl.inbox)[512..]
  {
    ghost var ms := chl.inbox;
    for j := 0 to 512
      invariant chl.inbox == ms[j..]
      invariant forall i | 0 <= i < j :: chosen[i] == if choices[i] then ms[i][128..] else ms[i][..128]
    {
      var os := chl.Recv();
      var tmp := os[..128];
      if choices[j] {
        tmp := os[128..];
      }
      if tmp != chosen[j] {
        return false;
      }
    }
    ok := true;
  }

  /** On right OTs the receiving side's check passes. */
  lemma CheckPasses(seeds0: Ssot.Seeds, seeds1: Ssot.Seeds, chosen: Ssot.Seeds, choices: seq<bool>, j: nat)
    requires |choices| == 512 && Ssot.BaseSeeds(seeds0, seeds1, chosen, choices) && j < 512
    ensures chosen[j] == if choices[j] then CheckMessages(seeds0, seeds1, 512)[j][128..] else CheckMessages(seeds0, seeds1, 512)[j][..128]
  {
    var m := CheckMessages(seeds0, seeds1, 512)[j];
    assert m[..128] == seeds0[j] && m[128..] == seeds1[j];
  }
}
