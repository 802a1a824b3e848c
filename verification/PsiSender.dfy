/** The sender of the set intersection: corrections in, permuted mask buffers out. */
module PsiSender {
  import opened Bits
  import opened Cuckoo
  import opened Channels
  import opened ItemHash
  import opened Oprf
  import opened Params
  import opened Prng
  import opened SimpleHash

  /** Values written one after the other at the slots a permutation lists, over a cleared buffer. */
  function Scatter(perm: seq<nat>, values: seq<seq<bool>>, clear: seq<seq<bool>>, r: nat): (slots: seq<seq<bool>>)
    requires r <= |perm| && r <= |values|
    ensures |slots| == |clear|
  {
    if r == 0 then clear
    else
      var before := Scatter(perm, values, clear, r - 1);
      if perm[r - 1] < |clear| then before[perm[r - 1] := values[r - 1]] else before
  }

  lemma {:induction false} ScatterPrefix(perm: seq<nat>, a: seq<seq<bool>>, b: seq<seq<bool>>, clear: seq<seq<bool>>, r: nat)
    requires r <= |perm| && r <= |a| && r <= |b| && a[..r] == b[..r]
    ensures Scatter(perm, a, clear, r) == Scatter(perm, b, clear, r)
  {
    if r > 0 {
      assert a[..r - 1] == a[..r][..r - 1] && b[..r - 1] == b[..r][..r - 1];
      assert a[r - 1] == a[..r][r - 1] && b[r - 1] == b[..r][r - 1];
      ScatterPrefix(perm, a, b, clear, r - 1);
    }
  }

  /** With a permutation every slot is written exactly once, and holds its value at the end. */
  lemma {:induction false} ScatterFills(perm: seq<nat>, values: seq<seq<bool>>, clear: seq<seq<bool>>, r: nat, p: nat)
    requires IsPermutation(perm, |clear|) && |values| == |perm| && p < r <= |perm|
    ensures Scatter(perm, values, clear, r)[perm[p]] == values[p]
  {
    if p < r - 1 {
      ScatterFills(perm, values, clear, r - 1, p);
      assert perm[p] != perm[r - 1];
    }
  }

  lemma {:induction false} ScatterWidth(perm: seq<nat>, values: seq<seq<bool>>, clear: seq<seq<bool>>, r: nat, w: nat)
    requires r <= |perm| && r <= |values|
    requires forall i | 0 <= i < |clear| :: |clear[i]| == w
    requires forall i | 0 <= i < r :: |values[i]| == w
    ensures forall i | 0 <= i < |clear| :: |Scatter(perm, values, clear, r)[i]| == w
  {
    if r > 0 { ScatterWidth(perm, values, clear, r - 1, w); }
  }

  function Cleared(n: nat, w: nat): (c: seq<seq<bool>>)
    ensures |c| == n && forall i | 0 <= i < n :: |c[i]| == w
  {
    seq(n, _ => seq(w, _ => false))
  }

  /** The size, in bins, of the batch that starts at bin `from`. */
  function BatchEnd(from: nat, binCount: nat): (to: nat)
    requires from <= binCount
    ensures from <= to <= binCount && (from < binCount ==> from < to)
  {
    if STEP_SIZE < binCount - from then from + STEP_SIZE else binCount
  }

  /** The messages at the front of the inbox are correction batches of the sizes the sender checks. */
  ghost predicate BatchSizes(inbox: seq<Message>, from: nat, binCount: nat)
    requires from <= binCount
    decreases binCount - from
  {
    from == binCount ||
    (inbox != [] && |inbox[0]| == 512 * (BatchEnd(from, binCount) - from)
     && BatchSizes(inbox[1..], BatchEnd(from, binCount), binCount))
  }

  /** How many batches the bins from `from` on take. */
  function BatchCount(from: nat, binCount: nat): nat
    requires from <= binCount
    decreases binCount - from
  {
    if from == binCount then 0 else 1 + BatchCount(BatchEnd(from, binCount), binCount)
  }

  function ZeroRow(): Row { [ZeroBlock(), ZeroBlock(), ZeroBlock(), ZeroBlock()] }

  /** The correction rows of the bins from `from` on, read out of the batches (cleared from a wrong-sized one on). */
  function CorrRows(inbox: seq<Message>, from: nat, binCount: nat): (rows: seq<Row>)
    requires from <= binCount
    ensures |rows| == binCount - from
    decreases binCount - from
  {
    if from == binCount then []
    else if inbox != [] && |inbox[0]| == 512 * (BatchEnd(from, binCount) - from) then
      UnflatRows(inbox[0]) + CorrRows(inbox[1..], BatchEnd(from, binCount), binCount)
    else seq<Row>(binCount - from, _ => ZeroRow())
  }

  /** Everything the online phase of the sender depends on besides the messages it receives. */
  datatype View = View(sha: Hash, n: nat, binCount: nat, cw: nat, ms: nat, hashs: Hashes, addrs: Addrs,
                       q: seq<Row>, s: Row, perms: seq<seq<nat>>, stashPerms: seq<seq<nat>>)
  {
    ghost predicate Valid() {
      && HashTable(hashs, n) && AddrTable(addrs, n, binCount) && cw <= 64 && ms <= 16
      && |q| == binCount + |stashPerms|
      && |perms| == 3 && (forall h | 0 <= h < 3 :: IsPermutation(perms[h], n))
      && (forall k | 0 <= k < |stashPerms| :: IsPermutation(stashPerms[k], n))
    }

    /** The OPRF value of item i under hash function h, from the correction of its bin. */
    function ItemValue(corr: seq<Row>, i: nat, h: nat): Row
      requires Valid() && |corr| == binCount && i < n && h < 3
    {
      Eval(q[addrs[h][i]], corr[addrs[h][i]], Code(hashs, n, i), s)
    }

    /** The mask of item i under hash function h. */
    function ItemMask(corr: seq<Row>, i: nat, h: nat): (m: seq<bool>)
      requires Valid() && |corr| == binCount && i < n && h < 3
      ensures |m| == 8 * ms
    {
      BinMask(sha, cw, ms, h, ItemValue(corr, i, h))
    }

    /** The masks of a list of items under hash function h. */
    function ItemMasks(corr: seq<Row>, items: seq<nat>, h: nat): (ms': seq<seq<bool>>)
      requires Valid() && |corr| == binCount && h < 3 && forall p | 0 <= p < |items| :: items[p] < n
      ensures |ms'| == |items| && forall p | 0 <= p < |items| :: ms'[p] == ItemMask(corr, items[p], h)
    {
      seq(|items|, p requires 0 <= p < |items| => ItemMask(corr, items[p], h))
    }

    /** The items met under hash function h, bin after bin. */
    function Order(h: nat): (o: seq<nat>)
      requires Valid() && h < 3
      ensures IsPermutation(o, n)
    {
      SelectedIsPermutation(addrs, n, binCount, h);
      Selected(AllBins(addrs, n, binCount, binCount), h)
    }

    /** The slots of mask buffer h once all bins are done. */
    function Slots(corr: seq<Row>, h: nat): (slots: seq<seq<bool>>)
      requires Valid() && |corr| == binCount && h < 3
      ensures |slots| == n && forall i | 0 <= i < n :: |slots[i]| == 8 * ms
    {
      ScatterWidth(perms[h], ItemMasks(corr, Order(h), h), Cleared(n, 8 * ms), n, 8 * ms);
      Scatter(perms[h], ItemMasks(corr, Order(h), h), Cleared(n, 8 * ms), n)
    }

    function StashValue(corr: seq<Row>, i: nat, k: nat): Row
      requires Valid() && |corr| == |stashPerms| && i < n && k < |stashPerms|
    {
      Eval(q[binCount + k], corr[k], Code(hashs, n, i), s)
    }

    /** The mask of item i against stash slot k. */
    function StashItemMask(corr: seq<Row>, i: nat, k: nat): (m: seq<bool>)
      requires Valid() && |corr| == |stashPerms| && i < n && k < |stashPerms|
      ensures |m| == 8 * ms
    {
      StashMask(sha, cw, ms, StashValue(corr, i, k))
    }

    function StashItemMasks(corr: seq<Row>, k: nat): (ms': seq<seq<bool>>)
      requires Valid() && |corr| == |stashPerms| && k < |stashPerms|
      ensures |ms'| == n && forall i | 0 <= i < n :: ms'[i] == StashItemMask(corr, i, k)
    {
      seq(n, i requires 0 <= i < n => StashItemMask(corr, i, k))
    }

    function StashSlots(corr: seq<Row>, k: nat): (slots: seq<seq<bool>>)
      requires Valid() && |corr| == |stashPerms| && k < |stashPerms|
      ensures |slots| == n && forall i | 0 <= i < n :: |slots[i]| == 8 * ms
    {
      ScatterWidth(stashPerms[k], StashItemMasks(corr, k), Cleared(n, 8 * ms), n, 8 * ms);
      Scatter(stashPerms[k], StashItemMasks(corr, k), Cleared(n, 8 * ms), n)
    }

    /** The peer's messages have the sizes the sender checks: the correction batches, then the stash corrections. */
    ghost predicate SizesFit(inbox: seq<Message>) {
      var k := BatchCount(0, binCount);
      BatchSizes(inbox, 0, binCount) && |inbox| > k && |inbox[k]| / 512 == |stashPerms|
    }

    /** The correction rows of the stash slots, from the message after the batches. */
    function StashRows(inbox: seq<Message>): (rows: seq<Row>)
      requires SizesFit(inbox)
      ensures |rows| == |stashPerms|
    {
      UnflatRows(inbox[BatchCount(0, binCount)][..512 * |stashPerms|])
    }

    /** The mask buffers of the first h hash functions. */
    function BucketMessages(corr: seq<Row>, h: nat): (out: seq<Message>)
      requires Valid() && |corr| == binCount && h <= 3
      ensures |out| == h && forall k | 0 <= k < h :: out[k] == FlatMasks(Slots(corr, k), ms)
    {
      seq(h, k requires 0 <= k < h => FlatMasks(Slots(corr, k), ms))
    }

    /** The mask buffers of the first k stash slots. */
    function StashMessages(corr: seq<Row>, k: nat): (out: seq<Message>)
      requires Valid() && |corr| == |stashPerms| && k <= |stashPerms|
      ensures |out| == k && forall j | 0 <= j < k :: out[j] == FlatMasks(StashSlots(corr, j), ms)
    {
      seq(k, j requires 0 <= j < k => FlatMasks(StashSlots(corr, j), ms))
    }

    /** What the sender sends once those messages have arrived. */
    function Sent(inbox: seq<Message>): (out: seq<Message>)
      requires Valid() && SizesFit(inbox)
      ensures |out| == 3 + |stashPerms|
    {
      BucketMessages(CorrRows(inbox, 0, binCount), 3) + StashMessages(StashRows(inbox), |stashPerms|)
    }

    /** Every item has a slot of buffer h holding its mask: the one the permutation of the buffer gives the item's turn. */
    lemma EveryItemHasSlot(corr: seq<Row>, h: nat, i: nat) returns (r: nat)
      requires Valid() && |corr| == binCount && h < 3 && i < n
      ensures r < n && Order(h)[r] == i && perms[h][r] < n && Slots(corr, h)[perms[h][r]] == ItemMask(corr, i, h)
    {
      var o := Order(h);
      assert i in o;
      r :| 0 <= r < n && o[r] == i;
      ScatterFills(perms[h], ItemMasks(corr, o, h), Cleared(n, 8 * ms), n, r);
    }

    /** Every slot of buffer h holds the mask of one item, and different slots of different items. */
    lemma EverySlotHasItem(corr: seq<Row>, h: nat) returns (item: seq<nat>)
      requires Valid() && |corr| == binCount && h < 3
      ensures IsPermutation(item, n) && forall p | 0 <= p < n :: Slots(corr, h)[p] == ItemMask(corr, item[p], h)
    {
      var o, perm := Order(h), perms[h];
      var inv := Inverse(perm, n);
      item := seq(n, p requires 0 <= p < n => o[inv[p]]);
      forall p | 0 <= p < n ensures Slots(corr, h)[p] == ItemMask(corr, item[p], h) {
        ScatterFills(perm, ItemMasks(corr, o, h), Cleared(n, 8 * ms), n, inv[p]);
      }
      Composed(o, inv, item, n);
    }

    lemma EveryStashSlotHasItem(corr: seq<Row>, k: nat) returns (item: seq<nat>)
      requires Valid() && |corr| == |stashPerms| && k < |stashPerms|
      ensures IsPermutation(item, n) && forall p | 0 <= p < n :: StashSlots(corr, k)[p] == StashItemMask(corr, item[p], k)
      ensures forall p | 0 <= p < n :: stashPerms[k][item[p]] == p
    {
      item := Inverse(stashPerms[k], n);
      forall p | 0 <= p < n ensures StashSlots(corr, k)[p] == StashItemMask(corr, item[p], k) {
        ScatterFills(stashPerms[k], StashItemMasks(corr, k), Cleared(n, 8 * ms), n, item[p]);
      }
    }
  }

  /** The inverse of a permutation is one. */
  lemma Inverse(perm: seq<nat>, n: nat) returns (inv: seq<nat>)
    requires IsPermutation(perm, n)
    ensures IsPermutation(inv, n) && forall p | 0 <= p < n :: perm[inv[p]] == p
  {
    inv := [];
    for p := 0 to n
      invariant |inv| == p && forall k | 0 <= k < p :: inv[k] < n && perm[inv[k]] == k
    {
      assert p in perm;
      var r :| 0 <= r < n && perm[r] == p;
      inv := inv + [r];
    }
    forall r | 0 <= r < n ensures r in inv {
      assert perm[inv[perm[r]]] == perm[r];
      assert inv[perm[r]] == r;
    }
    forall p, q | 0 <= p < q < n ensures inv[p] != inv[q] {
      assert perm[inv[p]] == p && perm[inv[q]] == q;
    }
  }

  lemma Composed(a: seq<nat>, b: seq<nat>, c: seq<nat>, n: nat)
    requires IsPermutation(a, n) && IsPermutation(b, n)
    requires |c| == n && forall p | 0 <= p < n :: c[p] == a[b[p]]
    ensures IsPermutation(c, n)
  {
    forall i | 0 <= i < n ensures i in c {
      assert i in a;
      var r :| 0 <= r < n && a[r] == i;
      assert r in b;
      var p :| 0 <= p < n && b[p] == r;
      assert c[p] == i;
    }
    forall p, q | 0 <= p < q < n ensures c[p] != c[q] {
      assert b[p] != b[q];
      if b[p] < b[q] { assert a[b[p]] != a[b[q]]; } else { assert a[b[q]] != a[b[p]]; }
    }
  }

  /** The three mask buffers and the counters of slots used, after the bins' items listed in `met`. */
  datatype Progress = Progress(slots: seq<seq<seq<bool>>>, done: seq<nat>)

  ghost predicate Reached(v: View, corr: seq<Row>, met: seq<Item>, pr: Progress)
    requires v.Valid() && |corr| == v.binCount && KnownItems(met, v.n)
  {
    && |pr.slots| == |pr.done| == 3
    && forall h | 0 <= h < 3 :: ReachedOne(v, corr, met, h, pr.slots[h], pr.done[h])
  }

  ghost predicate KnownItems(met: seq<Item>, n: nat) {
    forall p | 0 <= p < |met| :: met[p].mIdx < n && met[p].mHashIdx < 3
  }

  /** Buffer h holds, at the permuted slots, the masks of the items met under h. */
  ghost predicate ReachedOne(v: View, corr: seq<Row>, met: seq<Item>, h: nat, slots: seq<seq<bool>>, done: nat)
    requires v.Valid() && |corr| == v.binCount && KnownItems(met, v.n) && h < 3
  {
    SelectedItems(met, h, v.n);
    var o := Selected(met, h);
    done == |o| <= v.n && slots == Scatter(v.perms[h], v.ItemMasks(corr, o, h), Cleared(v.n, 8 * v.ms), done)
  }

  /** One more item under h fills the next permuted slot. */
  lemma ReachedNext(v: View, corr: seq<Row>, met: seq<Item>, x: Item, h: nat, slots: seq<seq<bool>>, done: nat)
    requires v.Valid() && |corr| == v.binCount && KnownItems(met, v.n) && h < 3
    requires x.mIdx < v.n && x.mHashIdx < 3 && ReachedOne(v, corr, met, h, slots, done)
    requires x.mHashIdx == h ==> done < v.n
    ensures KnownItems(met + [x], v.n)
    ensures x.mHashIdx != h ==> ReachedOne(v, corr, met + [x], h, slots, done)
    ensures x.mHashIdx == h ==>
              && v.perms[h][done] < |slots|
              && ReachedOne(v, corr, met + [x], h, slots[v.perms[h][done] := v.ItemMask(corr, x.mIdx, h)], done + 1)
  {
    SelectedItems(met, h, v.n);
    SelectedItems(met + [x], h, v.n);
    SelectedConcat(met, [x], h);
    assert Selected([x], h) == (if x.mHashIdx == h then [x.mIdx] else []) + Selected([], h);
    var o, o' := Selected(met, h), Selected(met + [x], h);
    if x.mHashIdx == h {
      assert o' == o + [x.mIdx];
      var a, b := v.ItemMasks(corr, o, h), v.ItemMasks(corr, o', h);
      assert a[..done] == b[..done];
      ScatterPrefix(v.perms[h], a, b, Cleared(v.n, 8 * v.ms), done);
    } else {
      assert o' == o;
    }
  }

  /** All three buffers after one more item. */
  function Stored(v: View, x: Item, mask: seq<bool>, pr: Progress): Progress
    requires v.Valid() && x.mHashIdx < 3 && |pr.slots| == |pr.done| == 3
    requires pr.done[x.mHashIdx] < v.n && v.perms[x.mHashIdx][pr.done[x.mHashIdx]] < |pr.slots[x.mHashIdx]|
  {
    var h := x.mHashIdx;
    Progress(pr.slots[h := pr.slots[h][v.perms[h][pr.done[h]] := mask]], pr.done[h := pr.done[h] + 1])
  }

  lemma ReachedStep(v: View, corr: seq<Row>, met: seq<Item>, x: Item, pr: Progress)
    requires v.Valid() && |corr| == v.binCount && KnownItems(met, v.n) && Reached(v, corr, met, pr)
    requires x.mIdx < v.n && x.mHashIdx < 3 && pr.done[x.mHashIdx] < v.n
    ensures KnownItems(met + [x], v.n)
    ensures v.perms[x.mHashIdx][pr.done[x.mHashIdx]] < |pr.slots[x.mHashIdx]|
    ensures Reached(v, corr, met + [x], Stored(v, x, v.ItemMask(corr, x.mIdx, x.mHashIdx), pr))
  {
    ReachedNext(v, corr, met, x, x.mHashIdx, pr.slots[x.mHashIdx], pr.done[x.mHashIdx]);
    var pr' := Stored(v, x, v.ItemMask(corr, x.mIdx, x.mHashIdx), pr);
    forall h | 0 <= h < 3 ensures ReachedOne(v, corr, met + [x], h, pr'.slots[h], pr'.done[h]) {
      ReachedNext(v, corr, met, x, h, pr.slots[h], pr.done[h]);
    }
  }

  /** The OPRF evaluation and hashing of one item. */
  method EvalMask(v: View, ghost corr: seq<Row>, b: nat, row: Row, x: Item) returns (mask: seq<bool>)
    requires v.Valid() && |corr| == v.binCount && b < v.binCount && row == corr[b]
    requires x.mIdx < v.n && x.mHashIdx < 3 && v.addrs[x.mHashIdx][x.mIdx] == b
    ensures mask == v.ItemMask(corr, x.mIdx, x.mHashIdx)
  {
    var codeWord := Code(v.hashs, v.n, x.mIdx);
    var sum := XorRow(v.q[b], AndRow(XorRow(row, codeWord), v.s));
    var hashBuff := v.sha(Binary(x.mHashIdx, 64) + RowPrefix(sum, v.cw));
    mask := hashBuff[..8 * v.ms];
  }

  /** Room for one more: a prefix of all items has met fewer than n under the hash function of the next one. */
  lemma RoomLeft(v: View, met: seq<Item>, x: Item, rest: seq<Item>)
    requires v.Valid() && x.mHashIdx < 3 && met + [x] + rest == AllBins(v.addrs, v.n, v.binCount, v.binCount)
    ensures |Selected(met, x.mHashIdx)| < v.n
  {
    var h := x.mHashIdx;
    SelectedConcat(met, [x] + rest, h);
    assert met + ([x] + rest) == met + [x] + rest;
    assert ([x] + rest)[0] == x;
    assert |Selected(AllBins(v.addrs, v.n, v.binCount, v.binCount), h)| == |v.Order(h)| == v.n;
  }

  /** One bin: every item in it is evaluated against the bin's correction row. */
  method StoreBin(v: View, ghost corr: seq<Row>, b: nat, row: Row, items: seq<Item>, pr: Progress, ghost rest: seq<Item>)
    returns (pr': Progress)
    requires v.Valid() && |corr| == v.binCount && b < v.binCount && row == corr[b]
    requires items == BinList(v.addrs, v.n, v.binCount, b, 3 * v.n)
    requires AllBins(v.addrs, v.n, v.binCount, b + 1) + rest == AllBins(v.addrs, v.n, v.binCount, v.binCount)
    requires KnownItems(AllBins(v.addrs, v.n, v.binCount, b), v.n)
    requires Reached(v, corr, AllBins(v.addrs, v.n, v.binCount, b), pr)
    ensures KnownItems(AllBins(v.addrs, v.n, v.binCount, b + 1), v.n)
    ensures Reached(v, corr, AllBins(v.addrs, v.n, v.binCount, b + 1), pr')
  {
    ghost var before := AllBins(v.addrs, v.n, v.binCount, b);
    pr' := pr;
    assert before + items[..0] == before;
    for i := 0 to |items|
      invariant KnownItems(before + items[..i], v.n) && Reached(v, corr, before + items[..i], pr')
    {
      var x := items[i];
      BinListItems(v.addrs, v.n, v.binCount, b, 3 * v.n, i);
      ghost var met := before + items[..i];
      assert met + [x] == before + items[..i + 1];
      assert met + [x] + (items[i + 1..] + rest) == before + items + rest;
      RoomLeft(v, met, x, items[i + 1..] + rest);
      var mask := EvalMask(v, corr, b, row, x);
      ReachedStep(v, corr, met, x, pr');
      var h := x.mHashIdx;
      var slot := v.perms[h][pr'.done[h]];
      pr' := Progress(pr'.slots[h := pr'.slots[h][slot := mask]], pr'.done[h := pr'.done[h] + 1]);
    }
    assert before + items[..|items|] == before + items;
  }

  /** The stash loop: one permuted buffer of masks for slot k. */
  method StashBuffer(v: View, corr: seq<Row>, k: nat) returns (slots: seq<seq<bool>>)
    requires v.Valid() && |corr| == |v.stashPerms| && k < |v.stashPerms|
    ensures slots == v.StashSlots(corr, k)
  {
    slots := Cleared(v.n, 8 * v.ms);
    for i := 0 to v.n
      invariant slots == Scatter(v.stashPerms[k], v.StashItemMasks(corr, k), Cleared(v.n, 8 * v.ms), i)
    {
      var codeWord := XorRow(v.q[v.binCount + k], AndRow(XorRow(corr[k], Code(v.hashs, v.n, i)), v.s));
      var hashBuff := v.sha(RowPrefix(codeWord, v.cw));
      slots := slots[v.stashPerms[k][i] := hashBuff[..8 * v.ms]];
    }
  }

  class PsiSender {
    var mSenderSize: nat
    var mRecverSize: nat
    var mNumStash: nat
    var mBins: SimpleHasher
    var mPsiRecvSSOtMessages: array<Row>
    var mSSOtChoice: seq<bool>

    constructor (mBins: SimpleHasher, q: array<Row>, choice: seq<bool>, senderSize: nat, recverSize: nat, numStash: nat)
      ensures this.mBins == mBins && mPsiRecvSSOtMessages == q && mSSOtChoice == choice
      ensures mSenderSize == senderSize && mRecverSize == recverSize && mNumStash == numStash
    {
      this.mBins, mPsiRecvSSOtMessages, mSSOtChoice := mBins, q, choice;
      mSenderSize, mRecverSize, mNumStash := senderSize, recverSize, numStash;
    }

    /** The items of bin b, read off the hasher's matrix row. */
    method ReadBin(b: nat, ghost lists: seq<seq<Item>>) returns (items: seq<Item>)
      requires mBins.Filled(lists) && b < mBins.mBinCount
      ensures items == lists[b]
    {
      items := [];
      for i := 0 to mBins.mBinSizes[b]
        invariant items == lists[b][..i]
      {
        items := items + [mBins.mBins[b, i]];
      }
    }

    /** All bins of one batch. */
    method StoreBatch(v: View, ghost corr: seq<Row>, stepIdx: nat, stepEnd: nat, rows: seq<Row>, pr: Progress)
      returns (pr': Progress)
      requires v.Valid() && |corr| == v.binCount == mBins.mBinCount && stepIdx <= stepEnd <= v.binCount
      requires mBins.Filled(BinLists(v.addrs, v.n, v.binCount, 3 * v.n))
      requires |rows| == stepEnd - stepIdx && forall j | 0 <= j < |rows| :: rows[j] == corr[stepIdx + j]
      requires KnownItems(AllBins(v.addrs, v.n, v.binCount, stepIdx), v.n)
      requires Reached(v, corr, AllBins(v.addrs, v.n, v.binCount, stepIdx), pr)
      ensures KnownItems(AllBins(v.addrs, v.n, v.binCount, stepEnd), v.n)
      ensures Reached(v, corr, AllBins(v.addrs, v.n, v.binCount, stepEnd), pr')
    {
      pr' := pr;
      for b := stepIdx to stepEnd
        invariant KnownItems(AllBins(v.addrs, v.n, v.binCount, b), v.n)
        invariant Reached(v, corr, AllBins(v.addrs, v.n, v.binCount, b), pr')
      {
        var items := ReadBin(b, BinLists(v.addrs, v.n, v.binCount, 3 * v.n));
        ghost var rest := AllBinsRest(v.addrs, v.n, v.binCount, b + 1, v.binCount);
        pr' := StoreBin(v, corr, b, rows[b - stepIdx], items, pr', rest);
      }
    }

    /** Receive one batch of corrections and store the masks of its bins; false stands for the exception. */
    method NextBatch(v: View, chl: Channel, stepIdx: nat, pr: Progress, ghost start: seq<Message>)
      returns (ok: bool, pr': Progress)
      requires v.Valid() && v.binCount == mBins.mBinCount && stepIdx < v.binCount
      requires mBins.Filled(BinLists(v.addrs, v.n, v.binCount, 3 * v.n))
      requires MidBatches(v, start, chl.inbox, stepIdx, pr)
      modifies chl`inbox
      ensures ok ==> MidBatches(v, start, chl.inbox, BatchEnd(stepIdx, v.binCount), pr')
      ensures !ok ==> !BatchSizes(start, 0, v.binCount)
    {
      var stepEnd := BatchEnd(stepIdx, v.binCount);
      var buff := chl.Recv();
      if |buff| != 512 * (stepEnd - stepIdx) {
        return false, pr;
      }
      var rows := UnflatRows(buff);
      pr' := StoreBatch(v, CorrRows(start, 0, v.binCount), stepIdx, stepEnd, rows, pr);
      ok := true;
    }

    /** The pipelined bin loop: receive each batch of corrections and fill the three buffers. */
    method Buckets(v: View, chl: Channel) returns (ok: bool, pr: Progress)
      requires v.Valid() && v.binCount == mBins.mBinCount
      requires mBins.Filled(BinLists(v.addrs, v.n, v.binCount, 3 * v.n))
      requires |chl.inbox| >= BatchCount(0, v.binCount)
      modifies chl`inbox
      ensures ok <==> BatchSizes(old(chl.inbox), 0, v.binCount)
      ensures ok ==> chl.inbox == old(chl.inbox)[BatchCount(0, v.binCount)..]
      ensures ok ==> |pr.slots| == 3 && forall h | 0 <= h < 3 :: pr.slots[h] == v.Slots(CorrRows(old(chl.inbox), 0, v.binCount), h)
    {
      var clear := Cleared(v.n, 8 * v.ms);
      pr := Progress([clear, clear, clear], [0, 0, 0]);
      ghost var start := chl.inbox;
      ok := true;
      var stepIdx := 0;
      while stepIdx < v.binCount
        invariant stepIdx <= v.binCount && ok && MidBatches(v, start, chl.inbox, stepIdx, pr)
      {
        ok, pr := NextBatch(v, chl, stepIdx, pr, start);
        if !ok {
          return;
        }
        stepIdx := BatchEnd(stepIdx, v.binCount);
      }
    }
  
    /** The stash part of sendInput: receive the slots' corrections, answer each slot with a buffer of masks. */
    method Stash(v: View, chl: Channel) returns (ok: bool)
      requires v.Valid() && |v.stashPerms| == mNumStash && chl.inbox != []
      modifies chl
      ensures ok <==> |old(chl.inbox)[0]| / 512 == mNumStash
      ensures chl.inbox == old(chl.inbox)[1..]
      ensures ok ==>
        chl.sent == old(chl.sent) + v.StashMessages(UnflatRows(old(chl.inbox)[0][..512 * mNumStash]), mNumStash)
      ensures !ok ==> chl.sent == old(chl.sent)
    {
      var buff := chl.Recv();
      if |buff| / 512 != mNumStash {
        return false;
      }
      var rows := UnflatRows(buff[..512 * mNumStash]);
      for k := 0 to mNumStash
        invariant chl.inbox == old(chl.inbox)[1..]
        invariant chl.sent == old(chl.sent) + v.StashMessages(rows, k)
      {
        var slots := StashBuffer(v, rows, k);
        chl.AsyncSend(FlatMasks(slots, v.ms));
        assert v.StashMessages(rows, k + 1) == v.StashMessages(rows, k) + [FlatMasks(slots, v.ms)];
      }
      ok := true;
    }

    /** The three filled mask buffers go out. */
    method SendSlots(v: View, slots: seq<seq<seq<bool>>>, chl: Channel, ghost corr: seq<Row>)
      requires v.Valid() && |corr| == v.binCount
      requires |slots| == 3 && forall h | 0 <= h < 3 :: slots[h] == v.Slots(corr, h)
      modifies chl`sent
      ensures chl.sent == old(chl.sent) + v.BucketMessages(corr, 3)
    {
      for h := 0 to 3
        invariant chl.sent == old(chl.sent) + v.BucketMessages(corr, h)
      {
        chl.AsyncSend(FlatMasks(slots[h], v.ms));
        assert v.BucketMessages(corr, h + 1) == v.BucketMessages(corr, h) + [FlatMasks(slots[h], v.ms)];
      }
    }

    /** The bucket part of sendInput: all batches in, the three mask buffers out. */
    method SendBuckets(v: View, chl: Channel) returns (ok: bool)
      requires v.Valid() && v.binCount == mBins.mBinCount
      requires mBins.Filled(BinLists(v.addrs, v.n, v.binCount, 3 * v.n))
      requires |chl.inbox| >= BatchCount(0, v.binCount)
      modifies chl
      ensures ok <==> BatchSizes(old(chl.inbox), 0, v.binCount)
      ensures ok ==> chl.inbox == old(chl.inbox)[BatchCount(0, v.binCount)..]
      ensures ok ==> chl.sent == old(chl.sent) + v.BucketMessages(CorrRows(old(chl.inbox), 0, v.binCount), 3)
    {
      ghost var corr := CorrRows(chl.inbox, 0, v.binCount);
      var pr;
      ok, pr := Buckets(v, chl);
      if !ok {
        return;
      }
      SendSlots(v, pr.slots, chl, corr);
    }

    /** The message part of sendInput; false stands for the exception on a wrong size. */
    method Online(v: View, chl: Channel) returns (ok: bool)
      requires v.Valid() && v.binCount == mBins.mBinCount && |v.stashPerms| == mNumStash
      requires mBins.Filled(BinLists(v.addrs, v.n, v.binCount, 3 * v.n))
      requires |chl.inbox| > BatchCount(0, v.binCount)
      modifies chl
      ensures ok <==> v.SizesFit(old(chl.inbox))
      ensures ok ==> chl.sent == old(chl.sent) + v.Sent(old(chl.inbox))
      ensures ok ==> chl.inbox == old(chl.inbox)[BatchCount(0, v.binCount) + 1..]
    {
      ok := SendBuckets(v, chl);
      if !ok {
        return;
      }
      ok := Stash(v, chl);
    }

    /** sendInput; false also stands for the exception on a wrong number of items or an overflowing bin. The three
        permutations and those of the stash slots are what std::shuffle drew. */
    method SendInput(inputs: seq<Block>, aes: Cipher, sha: Hash, perms: seq<seq<nat>>, stashPerms: seq<seq<nat>>, chl: Channel)
      returns (ok: bool)
      requires |inputs| < EMPTY && mSenderSize * mRecverSize < 0x1_0000_0000_0000_0000
      requires mBins.mBinCount > 0 && mPsiRecvSSOtMessages.Length == mBins.mBinCount + mNumStash
      requires mBins.Filled(seq(mBins.mBinCount, _ => [])) && |mSSOtChoice| == 512
      requires |perms| == 3 && forall h | 0 <= h < 3 :: IsPermutation(perms[h], mSenderSize)
      requires |stashPerms| == mNumStash && forall k | 0 <= k < mNumStash :: IsPermutation(stashPerms[k], mSenderSize)
      requires |chl.inbox| > BatchCount(0, mBins.mBinCount)
      modifies mBins.mBins, mBins.mBinSizes, chl
      ensures |inputs| != mSenderSize ==> !ok && chl.sent == old(chl.sent)
      ensures |inputs| == mSenderSize ==>
        var v := ViewOf(aes, sha, inputs, mRecverSize, mBins.mBinCount, old(mPsiRecvSSOtMessages[..]), mSSOtChoice, perms, stashPerms);
        && (ok <==> NoOverflow(v.addrs, v.n, v.binCount, mBins.mMaxBinSize, 3 * v.n) && v.SizesFit(old(chl.inbox)))
        && (ok ==> chl.sent == old(chl.sent) + v.Sent(old(chl.inbox)))
        && (ok ==> chl.inbox == old(chl.inbox)[BatchCount(0, v.binCount) + 1..])
    {
      if |inputs| != mSenderSize {
        return false;
      }
      MaskSizeRange(mSenderSize, mRecverSize);
      ghost var addrs := AddrsOf(ItemHashes(aes, inputs), |inputs|, mBins.mBinCount);
      var hashs := HashItems(aes, inputs);
      EmptyLists(addrs, |inputs|, mBins.mBinCount);
      var q := mPsiRecvSSOtMessages[..];
      var cnt;
      ok, cnt := mBins.InsertItems(hashs, |inputs|, addrs);
      if !ok {
        return;
      }
      ghost var v := ViewOf(aes, sha, inputs, mRecverSize, mBins.mBinCount, q, mSSOtChoice, perms, stashPerms);
      var larger := if mSenderSize > mRecverSize then mSenderSize else mRecverSize;
      ok := Online(View(sha, mSenderSize, mBins.mBinCount, CodewordSize(larger), MaskSize(mSenderSize, mRecverSize), hashs,
                        AddrsOf(hashs, |inputs|, mBins.mBinCount), q, Unflat(mSSOtChoice), perms, stashPerms), chl);
    }
  }

  lemma EmptyLists(addrs: Addrs, n: nat, binCount: nat)
    requires AddrTable(addrs, n, binCount)
    ensures BinLists(addrs, n, binCount, 0) == seq(binCount, _ => [])
  {}

  /** What the sender's online phase works on, from the items and what init left. */
  function ViewOf(aes: Cipher, sha: Hash, inputs: seq<Block>, recverSize: nat, binCount: nat, q: seq<Row>,
                  choice: seq<bool>, perms: seq<seq<nat>>, stashPerms: seq<seq<nat>>): (v: View)
    requires |inputs| < EMPTY && binCount > 0 && |inputs| * recverSize < 0x1_0000_0000_0000_0000
    requires |q| == binCount + |stashPerms| && |choice| == 512
    requires |perms| == 3 && forall h | 0 <= h < 3 :: IsPermutation(perms[h], |inputs|)
    requires forall k | 0 <= k < |stashPerms| :: IsPermutation(stashPerms[k], |inputs|)
    ensures v.Valid()
  {
    var n, hashs := |inputs|, ItemHashes(aes, inputs);
    MaskSizeRange(n, recverSize);
    View(sha, n, binCount, CodewordSize(if n > recverSize then n else recverSize), MaskSize(n, recverSize), hashs,
         AddrsOf(hashs, n, binCount), q, Unflat(choice), perms, stashPerms)
  }

  /** Between batches: `now` is what is left of `start`, and the bins before stepIdx are stored. */
  ghost predicate MidBatches(v: View, start: seq<Message>, now: seq<Message>, stepIdx: nat, pr: Progress)
    requires v.Valid() && stepIdx <= v.binCount
  {
    var total, left := BatchCount(0, v.binCount), BatchCount(stepIdx, v.binCount);
    var corr, met := CorrRows(start, 0, v.binCount), AllBins(v.addrs, v.n, v.binCount, stepIdx);
    && left <= total <= |start| && now == start[total - left..]
    && CorrRows(now, stepIdx, v.binCount) == corr[stepIdx..]
    && (BatchSizes(start, 0, v.binCount) <==> BatchSizes(now, stepIdx, v.binCount))
    && KnownItems(met, v.n) && Reached(v, corr, met, pr)
  }

  /** What follows the first b bins. */
  lemma AllBinsRest(addrs: Addrs, n: nat, binCount: nat, b: nat, m: nat) returns (rest: seq<Item>)
    requires AddrTable(addrs, n, binCount) && b <= m
    ensures AllBins(addrs, n, binCount, b) + rest == AllBins(addrs, n, binCount, m)
    decreases m - b
  {
    if b == m {
      rest := [];
    } else {
      rest := AllBinsRest(addrs, n, binCount, b, m - 1);
      rest := rest + BinList(addrs, n, binCount, m - 1, 3 * n);
    }
  }
}
