/** The two honest parties of a session: what each sends, as a function of what it has received. */
module Parties {
  import opened Bits
  import opened Channels
  import opened Oprf
  import opened Params
  import opened Prng
  import opened Transpose
  import BaseSsot
  import Cuckoo
  import Iknp
  import ItemHash
  import NaorPinkas
  import Psi
  import R = PsiReceiver
  import S = PsiSender
  import SimpleHash
  import Ssot

  function Clear(n: nat): (m: Message)
    ensures |m| == n
  {
    seq(n, _ => false)
  }

  /** Everything both parties start from: the secrets of the base OTs, `fe` bytes a point, the items, the hashing seeds,
      the sizes of the hashers, the sender's 512 choice bits, and what is drawn for empty slots and permutations. */
  datatype Parties<!E(!new)> = Parties(secrets: NaorPinkas.Secrets<E>, fe: nat, aes: Cipher, y: seq<Block>, x: seq<Block>,
                                       recvSeed: Block, sendSeed: Block, binCount: nat, maxBinSize: nat, limit: nat, numStash: nat,
                                       choice: seq<bool>, dummies: seq<Row>, perms: seq<seq<nat>>, stashPerms: seq<seq<nat>>)
  {
    ghost predicate Valid() {
      && secrets.Valid() && |secrets.choices| == |secrets.ks| == 128 && fe > 0
      && (forall e: E :: |secrets.g.toBytes(e)| == 8 * fe)
      && |y| < Cuckoo.EMPTY && 0 < |x| < Cuckoo.EMPTY && |x| * |y| < 0x1_0000_0000_0000_0000
      && binCount > 0 && numStash > 0 && |choice| == 512 && |dummies| == binCount + numStash
      && |perms| == 3 && (forall h | 0 <= h < 3 :: SimpleHash.IsPermutation(perms[h], |x|))
      && |stashPerms| == numStash && (forall k | 0 <= k < numStash :: SimpleHash.IsPermutation(stashPerms[k], |x|))
      && NoBinOverflow()
    }

    /** The sender's items fit the rows of its simple hasher. */
    ghost predicate NoBinOverflow()
      requires |x| < Cuckoo.EMPTY && binCount > 0
    {
      SimpleHash.NoOverflow(Cuckoo.AddrsOf(ItemHash.ItemHashes(aes, x), |x|, binCount), |x|, binCount, maxBinSize, 3 * |x|)
    }

    function Ms(): nat { MaskSize(|x|, |y|) }

    /** The receiver's base OTs: the two points it was sent, its key buffer, and the messages it keeps. */
    function PointAt(got: seq<Message>, u: nat): E
      requires u < 2
    {
      if |got| >= 2 && |got[1]| == 8 * fe * 2 then secrets.g.fromBytes(MaskAt(got[1], fe, 2, u)) else secrets.g.one
    }

    /** A point as it is sent. */
    ghost function Bytes(e: E): (b: seq<bool>)
      requires Valid()
      ensures |b| == 8 * fe
    {
      secrets.g.toBytes(e)
    }

    ghost function Keys(c: E): (keys: seq<seq<bool>>)
      requires Valid()
      ensures |keys| == 128 && forall i | 0 <= i < 128 :: |keys[i]| == 8 * fe
    {
      seq<seq<bool>>(128, i requires 0 <= i < 128 && Valid() => Bytes(secrets.KeyFor(c, i)))
    }

    ghost function Kept(c: E): Square
      requires Valid()
    {
      seq<Block>(128, i requires 0 <= i < 128 && Valid() => secrets.MessageFrom(c, i))
    }

    /** The receiver's 512 pairs of seeds, from the columns it was sent. */
    function Columns(got: seq<Message>): (us: seq<Message>)
      ensures |us| == 4 && forall b | 0 <= b < 4 :: |us[b]| == 128 * 128
    {
      if |got| >= 6 && (forall b | 2 <= b < 6 :: |got[b]| == 128 * 128) then got[2..6] else seq(4, _ => Clear(128 * 128))
    }

    ghost function Pairs(got: seq<Message>): (p: seq<Iknp.Pairs>)
      requires Valid()
      ensures |p| == 4
    {
      BaseSsot.SenderInputs(secrets.sha, aes, Kept(PointAt(got, 0)), secrets.choices, Columns(got))
    }

    ghost function RecvView(got: seq<Message>): (r: R.View)
      requires Valid()
      ensures r.Valid() && |r.bins| == binCount && |r.stash| == numStash && r.ms == Ms() && r.senderSize == |x|
    {
      var p := Pairs(got);
      R.ViewOf(aes, secrets.sha, y, |x|, binCount, limit, numStash,
               Psi.OtsOf(aes, BaseSsot.First(p), BaseSsot.Second(p), binCount + numStash), dummies)
    }

    /** The receiver's k-th message: hashing seed, key buffer, check, corrections. */
    ghost function RecvPut(k: nat, got: seq<Message>): Message
      requires Valid()
    {
      if k == 0 then recvSeed
      else if k == 1 then FlatMasks(Keys(PointAt(got, 1)), fe)
      else if k < 514 then BaseSsot.CheckMessage(BaseSsot.First(Pairs(got)), BaseSsot.Second(Pairs(got)), k - 2)
      else if k - 514 < |RecvView(got).Sent()| then RecvView(got).Sent()[k - 514]
      else []
    }

    /** The receiver's checks of the buffer sizes pass, and what it then records. */
    ghost predicate BuffersFit(got: seq<Message>)
      requires Valid()
    {
      |got| >= 6 && RecvView(got).SizesFit(got[6..])
    }

    ghost function Result(got: seq<Message>): seq<nat>
      requires Valid() && BuffersFit(got)
    {
      RecvView(got).Found(got[6..])
    }

    /** The sender's two points. */
    ghost function Points(): (m: Message)
      requires Valid()
      ensures |m| == 16 * fe
    {
      FlatMasks([Bytes(secrets.C0()), Bytes(secrets.c1)], fe)
    }

    /** The sender's base OT pairs, from the key buffer it was sent. */
    function KeyAt(got: seq<Message>, i: nat): seq<bool>
      requires i < 128
    {
      if |got| >= 2 && |got[1]| == 8 * fe * 128 then MaskAt(got[1], fe, 128, i) else []
    }

    function Base(got: seq<Message>): Iknp.Pairs {
      seq<BlockPair>(128, i requires 0 <= i < 128 => secrets.Pair(i, KeyAt(got, i)))
    }

    function Chosen(got: seq<Message>): Ssot.Seeds {
      BaseSsot.Chosen(BaseSsot.ReceiverOutputs(secrets.sha, aes, Base(got)))
    }

    ghost function SendView(got: seq<Message>): (s: S.View)
      requires Valid()
      ensures s.Valid() && s.binCount == binCount && s.stashPerms == stashPerms && s.ms == Ms() && s.n == |x|
    {
      S.ViewOf(aes, secrets.sha, x, |y|, binCount, Psi.RowsOf(aes, Chosen(got), binCount + numStash), choice, perms, stashPerms)
    }

    /** The corrections among what the sender has received. */
    function Corrections(got: seq<Message>): seq<Message> { if |got| >= 514 then got[514..] else [] }

    /** The sender's k-th message: hashing seed, points, columns, bucket buffers, stash buffers. */
    ghost function SendPut(k: nat, got: seq<Message>): Message
      requires Valid()
    {
      var s, corr := SendView(got), Corrections(got);
      if k == 0 then sendSeed
      else if k == 1 then Points()
      else if k < 6 then Iknp.SentColumns(aes, Base(got), Unflat(choice), 0, 4)[k - 2]
      else if k < 9 then s.BucketMessages(S.CorrRows(corr, 0, binCount), 3)[k - 6]
      else if k - 9 < numStash && s.SizesFit(corr) then s.StashMessages(s.StashRows(corr), numStash)[k - 9]
      else Clear(8 * Ms() * |x|)
    }

    /** The sender's half of the check passes on the messages it has received. */
    ghost predicate CheckPasses(got: seq<Message>) {
      && |got| >= 514 && |choice| == 512
      && forall j | 0 <= j < 512 :: |got[2 + j]| == 256
           && Chosen(got)[j] == if choice[j] then got[2 + j][128..] else got[2 + j][..128]
    }

    /** The base OT pairs two honest parties end up with, the columns of the extension, and the whole run they make. */
    ghost function TrueBase(): Iknp.Pairs
      requires Valid()
    {
      seq<BlockPair>(128, i requires 0 <= i < 128 && Valid() => secrets.Pair(i, Bytes(secrets.PK0(i))))
    }

    ghost function TrueColumns(): (us: seq<Message>)
      requires Valid()
      ensures |us| == 4 && forall b | 0 <= b < 4 :: |us[b]| == 128 * 128
    {
      Iknp.SentColumns(aes, TrueBase(), Unflat(choice), 0, 4)
    }

    ghost function TruePairs(): (p: seq<Iknp.Pairs>)
      requires Valid()
      ensures |p| == 4
    {
      BaseSsot.SenderInputs(secrets.sha, aes, Kept(secrets.C0()), secrets.choices, TrueColumns())
    }

    ghost function Run(): Psi.Run
      requires Valid()
    {
      RunOn(BaseSsot.First(TruePairs()), BaseSsot.Second(TruePairs()),
            BaseSsot.Chosen(BaseSsot.ReceiverOutputs(secrets.sha, aes, TrueBase())))
    }

    /** The run on these 512 OTs. */
    function RunOn(seeds0: Ssot.Seeds, seeds1: Ssot.Seeds, chosen: Ssot.Seeds): (run: Psi.Run)
      ensures run.y == y && run.x == x
    {
      Psi.Run(aes, secrets.sha, y, x, binCount, limit, numStash, seeds0, seeds1, chosen, choice, dummies, perms, stashPerms)
    }

    /** No OT of the run has two equal values, on which the check of its sending side throws. */
    ghost predicate PairsDiffer()
      requires Valid()
    {
      forall j | 0 <= j < 512 :: BaseSsot.First(TruePairs())[j] != BaseSsot.Second(TruePairs())[j]
    }

    /** The base OTs are right, hence so are the 512 OTs of the run. */
    lemma RunIsValid()
      requires Valid()
      ensures Run().Valid()
    {
      hide NaorPinkas.Group.Valid;
      forall i | 0 <= i < 128 ensures Kept(secrets.C0())[i] == TrueBase()[i].At(secrets.choices[i]) {
        secrets.KeysAgree(i);
      }
      BaseSsot.ExecCorrect(secrets.sha, aes, TrueBase(), Kept(secrets.C0()), secrets.choices, choice);
    }

    /** The messages of the run: key buffer, check, and the online phase. */
    ghost function KeyBuffer(): (m: Message)
      requires Valid()
    {
      FlatMasks(Keys(secrets.c1), fe)
    }

    ghost function Check(): (ms: seq<Message>)
      requires Valid()
      ensures |ms| == 512
    {
      hide TruePairs;
      BaseSsot.CheckMessages(BaseSsot.First(TruePairs()), BaseSsot.Second(TruePairs()), 512)
    }

    ghost function Asked(): (ms: seq<Message>)
      requires Valid()
      ensures |ms| == S.BatchCount(0, binCount) + 1
    {
      RunIsValid();
      Psi.Asked(Run())
    }

    ghost function Answered(): (ms: seq<Message>)
      requires Valid()
      ensures |ms| == 3 + numStash
    {
      RunIsValid();
      Psi.Answered(Run())
    }

    /** Once the points have arrived, the receiver reads them back; once the columns have, it holds the pairs of the run. */
    lemma ReadsPoints(got: seq<Message>)
      requires Valid() && |got| >= 2 && got[1] == Points()
      ensures PointAt(got, 0) == secrets.C0() && PointAt(got, 1) == secrets.c1
    {
      hide FlatMasks, MaskAt, NaorPinkas.Group.Valid;
      var points := [Bytes(secrets.C0()), Bytes(secrets.c1)];
      assert |got[1]| == 8 * fe * 2;
      MaskAtFlat(points, fe, 0);
      MaskAtFlat(points, fe, 1);
      NaorPinkas.OneLaws(secrets.g, secrets.C0());
      NaorPinkas.OneLaws(secrets.g, secrets.c1);
    }

    lemma ReadsPairs(got: seq<Message>)
      requires Valid() && |got| >= 6 && got[1] == Points() && got[2..6] == TrueColumns()
      ensures Run().Valid() && Pairs(got) == TruePairs() && RecvView(got) == Run().Receiver()
    {
      hide BaseSsot.SenderInputs, NaorPinkas.Group.Valid;
      RunIsValid();
      ReadsPoints(got);
      forall b | 2 <= b < 6 ensures |got[b]| == 128 * 128 { assert got[b] == got[2..6][b - 2]; }
    }

    /** Once the key buffer has arrived, the sender holds the base OT pairs of the run. */
    lemma ReadsKeys(got: seq<Message>)
      requires Valid() && |got| >= 2 && got[1] == KeyBuffer()
      ensures Run().Valid() && Base(got) == TrueBase() && SendView(got) == Run().Sender()
    {
      hide BaseSsot.Chosen, BaseSsot.ReceiverOutputs, NaorPinkas.Group.Valid, FlatMasks;
      RunIsValid();
      forall i | 0 <= i < 128 ensures Base(got)[i] == TrueBase()[i] {
        MaskAtFlat(Keys(secrets.c1), fe, i);
      }
    }

    /** What the run records, and the conditions under which it is the intersection. */
    ghost function Recorded(): seq<nat>
      requires Valid()
    {
      RunIsValid();
      Psi.Outcome(Run())
    }

    ghost predicate NoMishap()
      requires Valid()
    {
      RunIsValid();
      Psi.NoMishap(Run())
    }

    lemma RecordedExact()
      requires Valid() && NoMishap()
      ensures Psi.IsIntersection(Recorded(), y, x)
    {
      hide Valid, Run, Psi.Run.Valid, Psi.Outcome, Psi.NoMishap, Psi.IsIntersection;
      RunIsValid();
      Psi.IntersectionExact(Run());
      SameItems();
    }

    lemma SameItems()
      requires Valid()
      ensures Run().y == y && Run().x == x
    {
      hide Valid, RunOn, BaseSsot.First, BaseSsot.Second, BaseSsot.Chosen, TruePairs, TrueBase;
    }
  }
}
