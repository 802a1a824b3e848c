/** The receiver of the set intersection: corrections out, masks in, matches recorded. */
module PsiReceiver {
  import opened Bits
  import opened Cuckoo
  import opened Channels
  import opened ItemHash
  import opened MaskIndex
  import opened Oprf
  import opened Params
  import opened Prng

  /** Everything the online phase of the receiver depends on: sizes, item hashes, the cuckoo table, the OPRF rows,
      and the rows it sends for empty slots. */
  datatype View = View(sha: Hash, n: nat, senderSize: nat, cw: nat, ms: nat, hashs: Hashes,
                       bins: seq<Bin>, stash: seq<Bin>, ots: seq<RowPair>, dummies: seq<Row>)
  {
    ghost predicate Valid() {
      && HashTable(hashs, n) && cw <= 64 && ms <= 16
      && AllKnown(n, bins) && AllKnown(n, stash)
      && |ots| == |dummies| == |bins| + |stash|
    }

    /** The row sent for bin b. */
    function BinRow(b: nat): Row
      requires Valid() && b < |bins|
    {
      if bins[b].IsEmpty() then dummies[b] else Correction(Code(hashs, n, bins[b].mIdx), ots[b].t0, ots[b].t1)
    }

    /** The row sent for stash slot s. */
    function StashRow(s: nat): Row
      requires Valid() && s < |stash|
    {
      var o := |bins| + s;
      if stash[s].IsEmpty() then dummies[o] else Correction(Code(hashs, n, stash[s].mIdx), ots[o].t0, ots[o].t1)
    }

    /** The receiver's own mask for occupied bin b. */
    function OwnMask(b: nat): (m: seq<bool>)
      requires Valid() && b < |bins|
      ensures |m| == 8 * ms
    {
      BinMask(sha, cw, ms, bins[b].mHashIdx, ots[b].t0)
    }

    function OwnStashMask(s: nat): (m: seq<bool>)
      requires Valid() && s < |stash|
      ensures |m| == 8 * ms
    {
      StashMask(sha, cw, ms, ots[|bins| + s].t0)
    }

    /** The index of hash function h after the first k bins. */
    function LocalIndex(h: nat, k: nat): Index
      requires Valid() && k <= |bins|
    {
      if k == 0 then map[]
      else if bins[k - 1].IsEmpty() || bins[k - 1].mHashIdx != h then LocalIndex(h, k - 1)
      else Emplace(LocalIndex(h, k - 1), OwnMask(k - 1), bins[k - 1].mIdx)
    }

    /** The rows of bins [from, to). */
    function BinRows(from: nat, to: nat): (r: seq<Row>)
      requires Valid() && from <= to <= |bins|
      ensures |r| == to - from
    {
      seq<Row>(to - from, i requires 0 <= i < to - from => BinRow(from + i))
    }

    /** The correction messages, STEP_SIZE bins each, for the bins from `from` on. */
    function Batches(from: nat): seq<Message>
      requires Valid() && from <= |bins|
      decreases |bins| - from
    {
      if from == |bins| then []
      else
        var to := if STEP_SIZE < |bins| - from then from + STEP_SIZE else |bins|;
        [FlatRows(BinRows(from, to))] + Batches(to)
    }

    function StashMessage(): Message
      requires Valid()
    {
      FlatRows(seq<Row>(|stash|, s requires 0 <= s < |stash| => StashRow(s)))
    }

    /** The items the first i masks of a buffer match, in buffer order. */
    function BufferMatches(index: Index, buff: Message, i: nat): seq<nat>
      requires Valid() && i <= senderSize && |buff| == 8 * ms * senderSize
    {
      if i == 0 then [] else BufferMatches(index, buff, i - 1) + Match(index, MaskAt(buff, ms, senderSize, i - 1))
    }

    /** The same for stash slot s, whose mask is compared directly. */
    function SlotMatches(s: nat, buff: Message, i: nat): seq<nat>
      requires Valid() && s < |stash| && i <= senderSize && |buff| == 8 * ms * senderSize
    {
      if i == 0 then []
      else SlotMatches(s, buff, i - 1) + if MaskAt(buff, ms, senderSize, i - 1) == OwnStashMask(s) then [stash[s].mIdx] else []
    }

    /** Matches in the first h bucket buffers. */
    function BucketMatches(buffs: seq<Message>, h: nat): seq<nat>
      requires Valid() && h <= |buffs| && forall k | 0 <= k < h :: |buffs[k]| == 8 * ms * senderSize
    {
      if h == 0 then []
      else BucketMatches(buffs, h - 1) + BufferMatches(LocalIndex(h - 1, |bins|), buffs[h - 1], senderSize)
    }

    /** Matches in the first s stash buffers; buffers of empty slots are ignored. */
    function StashMatches(buffs: seq<Message>, s: nat): seq<nat>
      requires Valid() && s <= |stash| && s <= |buffs|
      requires forall k | 0 <= k < s && !stash[k].IsEmpty() :: |buffs[k]| == 8 * ms * senderSize
    {
      if s == 0 then []
      else StashMatches(buffs, s - 1) + if stash[s - 1].IsEmpty() then [] else SlotMatches(s - 1, buffs[s - 1], senderSize)
    }

    /** The peer's messages have the sizes the receiver checks: three bucket buffers, then one buffer per stash slot. */
    ghost predicate SizesFit(inbox: seq<Message>) {
      && |inbox| >= 3 + |stash|
      && (forall h | 0 <= h < 3 :: |inbox[h]| == 8 * ms * senderSize)
      && forall s | 0 <= s < |stash| && !stash[s].IsEmpty() :: |inbox[3..][s]| == 8 * ms * senderSize
    }

    /** What the receiver adds to its intersection when those messages arrive. */
    function Found(inbox: seq<Message>): seq<nat>
      requires Valid() && SizesFit(inbox)
    {
      BucketMatches(inbox, 3) + StashMatches(inbox[3..], |stash|)
    }

    /** What the receiver sends. */
    function Sent(): seq<Message>
      requires Valid()
    {
      Batches(0) + [StashMessage()]
    }

    /** Matches are recorded in buffer order: those of the first i masks come first, and then those of the next ones. */
    lemma {:induction false} MatchesInOrder(index: Index, buff: Message, i: nat, j: nat)
      requires Valid() && i < j <= senderSize && |buff| == 8 * ms * senderSize
      ensures BufferMatches(index, buff, i) + Match(index, MaskAt(buff, ms, senderSize, i)) <= BufferMatches(index, buff, j)
      decreases j
    {
      if i < j - 1 { MatchesInOrder(index, buff, i, j - 1); }
    }

    lemma {:induction false} LocalIndexKeyed(h: nat, k: nat)
      requires Valid() && k <= |bins|
      ensures KeyedByMask(LocalIndex(h, k), ms)
    {
      if k > 0 {
        LocalIndexKeyed(h, k - 1);
        if !bins[k - 1].IsEmpty() && bins[k - 1].mHashIdx == h {
          EmplaceKeepsKeys(LocalIndex(h, k - 1), OwnMask(k - 1), bins[k - 1].mIdx, ms);
        }
      }
    }
  }

  /** What the online phase works on, from the items and what init left: the table insertItems builds, its stash resized. */
  function ViewOf(aes: Cipher, sha: Hash, inputs: seq<Block>, senderSize: nat, binCount: nat, limit: nat, numStash: nat,
                  ots: seq<RowPair>, dummies: seq<Row>): (v: View)
    requires |inputs| < EMPTY && binCount > 0 && senderSize * |inputs| < 0x1_0000_0000_0000_0000
    requires |ots| == |dummies| == binCount + numStash
    ensures v.Valid() && |v.bins| == binCount && |v.stash| == numStash
  {
    var n, hashs := |inputs|, ItemHashes(aes, inputs);
    var t := Built(AddrsOf(hashs, n, binCount), n, limit, binCount);
    ResizedKnown(n, t.stash, numStash);
    MaskSizeRange(senderSize, n);
    View(sha, n, senderSize, CodewordSize(if senderSize > n then senderSize else n), MaskSize(senderSize, n), hashs,
         t.bins, Resized(t.stash, numStash), ots, dummies)
  }

  lemma ResizedKnown(n: nat, stash: seq<Bin>, max: nat)
    requires forall s | 0 <= s < |stash| :: Known(n, stash[s])
    ensures AllKnown(n, Resized(stash, max))
  {}

  /** The three indices after the first k bins. */
  function LocalIndices(v: View, k: nat): (ix: seq<Index>)
    requires v.Valid() && k <= |v.bins|
    ensures |ix| == 3
  {
    [v.LocalIndex(0, k), v.LocalIndex(1, k), v.LocalIndex(2, k)]
  }

  /** The body of the bin loop: the row for the peer, and the bin's mask into the index of its hash function. */
  method BinStep(v: View, b: nat, localMasks: seq<Index>) returns (row: Row, updated: seq<Index>)
    requires v.Valid() && b < |v.bins| && localMasks == LocalIndices(v, b)
    ensures row == v.BinRow(b) && updated == LocalIndices(v, b + 1)
  {
    updated := localMasks;
    var item := v.bins[b];
    if item.IsEmpty() {
      row := v.dummies[b];
    } else {
      var codeWord := Code(v.hashs, v.n, item.mIdx);
      row := XorRow(XorRow(codeWord, v.ots[b].t0), v.ots[b].t1);
      var hashBuff := v.sha(Binary(item.mHashIdx, 64) + RowPrefix(v.ots[b].t0, v.cw));
      var mask := hashBuff[..8 * v.ms];
      var index := localMasks[item.mHashIdx];
      if Key(mask) !in index {
        updated := localMasks[item.mHashIdx := index[Key(mask) := Entry(Padded(mask), item.mIdx)]];
      }
    }
  }

  /** One batch of the pipelined bin loop. */
  method BuildBatch(v: View, stepIdx: nat, stepEnd: nat, masks: seq<Index>) returns (buff: seq<Row>, localMasks: seq<Index>)
    requires v.Valid() && stepIdx <= stepEnd <= |v.bins| && masks == LocalIndices(v, stepIdx)
    ensures buff == v.BinRows(stepIdx, stepEnd) && localMasks == LocalIndices(v, stepEnd)
  {
    buff, localMasks := [], masks;
    for b := stepIdx to stepEnd
      invariant localMasks == LocalIndices(v, b)
      invariant |buff| == b - stepIdx && forall i | 0 <= i < b - stepIdx :: buff[i] == v.BinRow(stepIdx + i)
    {
      var row;
      row, localMasks := BinStep(v, b, localMasks);
      buff := buff + [row];
    }
  }

  /** The pipelined bin loop: one message of corrections per batch. */
  method SendCorrections(v: View, chl: Channel) returns (localMasks: seq<Index>)
    requires v.Valid()
    modifies chl`sent
    ensures chl.sent == old(chl.sent) + v.Batches(0)
    ensures localMasks == LocalIndices(v, |v.bins|)
  {
    localMasks := [map[], map[], map[]];
    assert localMasks == LocalIndices(v, 0);
    var stepIdx := 0;
    ghost var out: seq<Message> := [];
    while stepIdx < |v.bins|
      invariant stepIdx <= |v.bins| && localMasks == LocalIndices(v, stepIdx)
      invariant out + v.Batches(stepIdx) == v.Batches(0) && chl.sent == old(chl.sent) + out
    {
      var stepEnd := if STEP_SIZE < |v.bins| - stepIdx then stepIdx + STEP_SIZE else |v.bins|;
      var buff;
      buff, localMasks := BuildBatch(v, stepIdx, stepEnd, localMasks);
      chl.AsyncSend(FlatRows(buff));
      BatchOut(out, FlatRows(buff), v.Batches(stepEnd), v.Batches(stepIdx));
      out := out + [FlatRows(buff)];
      stepIdx := stepEnd;
    }
    assert v.Batches(|v.bins|) == [] && out + [] == out;
  }

  lemma BatchOut(out: seq<Message>, m: Message, rest: seq<Message>, all: seq<Message>)
    requires all == [m] + rest
    ensures (out + [m]) + rest == out + all
  {}

  /** The stash loop: the rows for the peer and the slots' own masks. */
  method SendStash(v: View, chl: Channel) returns (masks: seq<seq<bool>>)
    requires v.Valid()
    modifies chl`sent
    ensures chl.sent == old(chl.sent) + [v.StashMessage()]
    ensures |masks| == |v.stash| && forall s | 0 <= s < |v.stash| && !v.stash[s].IsEmpty() :: masks[s] == v.OwnStashMask(s)
  {
    masks := [];
    var rows: seq<Row> := [];
    for s := 0 to |v.stash|
      invariant |masks| == |rows| == s
      invariant forall k | 0 <= k < s :: rows[k] == v.StashRow(k)
      invariant forall k | 0 <= k < s && !v.stash[k].IsEmpty() :: masks[k] == v.OwnStashMask(k)
    {
      var item, o := v.stash[s], |v.bins| + s;
      if item.IsEmpty() {
        rows, masks := rows + [v.dummies[o]], masks + [[]];
      } else {
        rows := rows + [XorRow(XorRow(Code(v.hashs, v.n, item.mIdx), v.ots[o].t0), v.ots[o].t1)];
        masks := masks + [v.sha(RowPrefix(v.ots[o].t0, v.cw))[..8 * v.ms]];
      }
    }
    assert rows == seq<Row>(|v.stash|, s requires 0 <= s < |v.stash| => v.StashRow(s));
    chl.AsyncSend(FlatRows(rows));
  }

  /** One bucket buffer: every mask in it is looked up in the index of its hash function. */
  method SearchBuffer(v: View, index: Index, buff: Message) returns (found: seq<nat>)
    requires v.Valid() && KeyedByMask(index, v.ms) && |buff| == 8 * v.ms * v.senderSize
    ensures found == v.BufferMatches(index, buff, v.senderSize)
  {
    found := [];
    for i := 0 to v.senderSize
      invariant found == v.BufferMatches(index, buff, i)
    {
      var hit := FindMatch(index, MaskAt(buff, v.ms, v.senderSize, i), v.ms);
      found := found + hit;
    }
  }

  method SearchSlot(v: View, s: nat, own: seq<bool>, buff: Message) returns (found: seq<nat>)
    requires v.Valid() && s < |v.stash| && own == v.OwnStashMask(s) && |buff| == 8 * v.ms * v.senderSize
    ensures found == v.SlotMatches(s, buff, v.senderSize)
  {
    found := [];
    for i := 0 to v.senderSize
      invariant found == v.SlotMatches(s, buff, i)
    {
      if MaskAt(buff, v.ms, v.senderSize, i) == own {
        found := found + [v.stash[s].mIdx];
      }
    }
  }

  lemma Regroup(a: seq<nat>, b: seq<nat>, c: seq<nat>)
    ensures (a + b) + c == a + (b + c)
  {}

  class PsiReceiver {
    var mRecverSize: nat
    var mSenderSize: nat
    var mNumStash: nat
    var mBins: CuckooHasher
    var mSSOtMessages: array<RowPair>
    var mIntersection: seq<nat>

    /** After init: the hasher is empty and there is an OT for every bin and stash slot. */
    ghost predicate Ready()
      reads this, mBins, mBins.mBins, mSSOtMessages
    {
      && mBins.mBinCount == mBins.mBins.Length > 0 && mBins.mStash == []
      && mBins.mBins[..] == FreeBins(mBins.mBinCount)
      && mBins.mMaxStashSize == mNumStash && mSSOtMessages.Length == mBins.mBinCount + mNumStash
    }

    constructor (mBins: CuckooHasher, ots: array<RowPair>, senderSize: nat, recverSize: nat, numStash: nat)
      ensures this.mBins == mBins && mSSOtMessages == ots && mSenderSize == senderSize && mRecverSize == recverSize
      ensures mNumStash == numStash && mIntersection == []
    {
      this.mBins, mSSOtMessages := mBins, ots;
      mSenderSize, mRecverSize, mNumStash := senderSize, recverSize, numStash;
      mIntersection := [];
    }

    /** The three bucket buffers; false stands for the exception on a wrong size. */
    method ReceiveBuckets(v: View, localMasks: seq<Index>, chl: Channel) returns (ok: bool)
      requires v.Valid() && localMasks == LocalIndices(v, |v.bins|) && |chl.inbox| >= 3
      modifies this`mIntersection, chl`inbox
      ensures ok <==> forall h | 0 <= h < 3 :: |old(chl.inbox)[h]| == 8 * v.ms * v.senderSize
      ensures ok ==> chl.inbox == old(chl.inbox)[3..]
      ensures ok ==> mIntersection == old(mIntersection) + v.BucketMatches(old(chl.inbox), 3)
    {
      ghost var buffs := chl.inbox;
      for h := 0 to 3
        invariant chl.inbox == buffs[h..] && forall k | 0 <= k < h :: |buffs[k]| == 8 * v.ms * v.senderSize
        invariant mIntersection == old(mIntersection) + v.BucketMatches(buffs, h)
      {
        var recvBuff := chl.Recv();
        if |recvBuff| != 8 * v.ms * v.senderSize {
          return false;
        }
        v.LocalIndexKeyed(h, |v.bins|);
        var found := SearchBuffer(v, localMasks[h], recvBuff);
        mIntersection := mIntersection + found;
      }
      ok := true;
    }
  
    /** The stash buffers; a wrong size matters only for an occupied slot. */
    method ReceiveStash(v: View, masks: seq<seq<bool>>, chl: Channel) returns (ok: bool)
      requires v.Valid() && |masks| == |v.stash| <= |chl.inbox|
      requires forall s | 0 <= s < |v.stash| && !v.stash[s].IsEmpty() :: masks[s] == v.OwnStashMask(s)
      modifies this`mIntersection, chl`inbox
      ensures ok <==> forall s | 0 <= s < |v.stash| && !v.stash[s].IsEmpty() :: |old(chl.inbox)[s]| == 8 * v.ms * v.senderSize
      ensures ok ==> chl.inbox == old(chl.inbox)[|v.stash|..]
      ensures ok ==> mIntersection == old(mIntersection) + v.StashMatches(old(chl.inbox), |v.stash|)
    {
      hide View.SlotMatches, View.OwnStashMask, HashTable, AllKnown;
      ghost var buffs := chl.inbox;
      for s := 0 to |v.stash|
        invariant chl.inbox == buffs[s..]
        invariant forall k | 0 <= k < s && !v.stash[k].IsEmpty() :: |buffs[k]| == 8 * v.ms * v.senderSize
        invariant mIntersection == old(mIntersection) + v.StashMatches(buffs, s)
      {
        var recvBuff := chl.Recv();
        if !v.stash[s].IsEmpty() {
          if |recvBuff| != 8 * v.ms * v.senderSize {
            return false;
          }
          var found := SearchSlot(v, s, masks[s], recvBuff);
          mIntersection := mIntersection + found;
        }
      }
      ok := true;
    }

    /** The hashing part of sendInput. */
    method Prepare(inputs: seq<Block>, aes: Cipher, sha: Hash, dummies: seq<Row>) returns (v: View)
      requires Ready() && |inputs| == mRecverSize < EMPTY && mSenderSize * mRecverSize < 0x1_0000_0000_0000_0000
      requires |dummies| == mSSOtMessages.Length
      modifies mBins, mBins.mBins
      ensures v == ViewOf(aes, sha, inputs, mSenderSize, old(mBins.mBinCount), old(mBins.mCuckooSize), mNumStash,
                          mSSOtMessages[..], dummies)
      ensures mSSOtMessages[..] == old(mSSOtMessages[..])
    {
      var hashs := HashItems(aes, inputs);
      mBins.InsertItems(hashs, |inputs|, AddrsOf(hashs, |inputs|, mBins.mBinCount));
      var larger := if mSenderSize > mRecverSize then mSenderSize else mRecverSize;
      v := View(sha, mRecverSize, mSenderSize, CodewordSize(larger), MaskSize(mSenderSize, mRecverSize), hashs,
                mBins.mBins[..], mBins.mStash, mSSOtMessages[..], dummies);
    }

    /** The message part of sendInput; false stands for the exception on a wrong size. */
    method Online(v: View, chl: Channel) returns (ok: bool)
      requires v.Valid() && |chl.inbox| >= 3 + |v.stash|
      modifies this`mIntersection, chl
      ensures ok <==> v.SizesFit(old(chl.inbox))
      ensures ok ==> chl.sent == old(chl.sent) + v.Sent() && chl.inbox == old(chl.inbox)[3 + |v.stash|..]
      ensures ok ==> mIntersection == old(mIntersection) + v.Found(old(chl.inbox))
    {
      ghost var inbox, before := chl.inbox, mIntersection;
      var localMasks := SendCorrections(v, chl);
      ok := ReceiveBuckets(v, localMasks, chl);
      if !ok {
        return;
      }
      var masks := SendStash(v, chl);
      ok := ReceiveStash(v, masks, chl);
      if ok {
        Regroup(before, v.BucketMatches(inbox, 3), v.StashMatches(inbox[3..], |v.stash|));
      }
    }

    /** sendInput, from hashing the items to the last stash buffer. The inbox holds what the peer will have sent. */
    method SendInput(inputs: seq<Block>, aes: Cipher, sha: Hash, dummies: seq<Row>, chl: Channel) returns (ok: bool)
      requires Ready() && |inputs| < EMPTY && mSenderSize * mRecverSize < 0x1_0000_0000_0000_0000
      requires |dummies| == mSSOtMessages.Length && |chl.inbox| >= 3 + mNumStash
      modifies this`mIntersection, mBins, mBins.mBins, chl
      ensures |inputs| != mRecverSize ==> !ok && chl.sent == old(chl.sent) && mIntersection == old(mIntersection)
      ensures |inputs| == mRecverSize ==>
        var v := ViewOf(aes, sha, inputs, mSenderSize, old(mBins.mBinCount), old(mBins.mCuckooSize), mNumStash,
                        old(mSSOtMessages[..]), dummies);
        && (ok <==> v.SizesFit(old(chl.inbox)))
        && (ok ==> chl.sent == old(chl.sent) + v.Sent() && chl.inbox == old(chl.inbox)[3 + mNumStash..]
                   && mIntersection == old(mIntersection) + v.Found(old(chl.inbox)))
    {
      if |inputs| != mRecverSize {
        return false;
      }
      var v := Prepare(inputs, aes, sha, dummies);
      ok := Online(v, chl);
    }
  }
}
