/** Both parties together: what the receiver records is the intersection. */
module Psi {
  import opened Bits
  import opened Cuckoo
  import opened Channels
  import opened ItemHash
  import opened MaskIndex
  import opened Oprf
  import opened Params
  import opened Prng
  import R = PsiReceiver
  import S = PsiSender
  import SimpleHash
  import Ssot

  /** The two online phases run against each other: the same functions and sizes, correlated OPRF rows, and equal
      items that hash alike. The receiver's items are y, the sender's x. */
  ghost predicate Linked(r: R.View, s: S.View, y: seq<Block>, x: seq<Block>) {
    && r.Valid() && s.Valid() && |y| == r.n && |x| == s.n
    && r.sha == s.sha && r.senderSize == s.n && r.cw == s.cw && r.ms == s.ms
    && |r.bins| == s.binCount && |r.stash| == |s.stashPerms|
    && (forall o | 0 <= o < |r.ots| :: Correlated(r.ots[o], s.q[o], s.s))
    && (forall i, j | 0 <= i < |x| && 0 <= j < |y| && x[i] == y[j] :: Code(s.hashs, s.n, i) == Code(r.hashs, r.n, j))
    && (forall b, i | 0 <= b < |r.bins| && !r.bins[b].IsEmpty() && 0 <= i < |x| && x[i] == y[r.bins[b].mIdx] ::
          s.addrs[r.bins[b].mHashIdx][i] == b)
  }

  /** The relation the SSOT extension gives between the parties' rows. */
  ghost predicate Correlated(t: RowPair, q: Row, s: Row) {
    q == XorRow(t.t0, AndRow(XorRow(t.t0, t.t1), s))
  }

  /** The receiver's corrections for its bins and stash slots. */
  function BinCorr(r: R.View): (rows: seq<Row>)
    requires r.Valid()
    ensures |rows| == |r.bins|
  {
    r.BinRows(0, |r.bins|)
  }

  function StashCorr(r: R.View): (rows: seq<Row>)
    requires r.Valid()
    ensures |rows| == |r.stash|
  {
    seq<Row>(|r.stash|, k requires 0 <= k < |r.stash| => r.StashRow(k))
  }

  /** The batches read back: the sender's row for a bin is the row the receiver made for it. */
  lemma {:induction false} BatchesReadBack(r: R.View, from: nat, rest: seq<Message>)
    requires r.Valid() && from <= |r.bins|
    ensures |r.Batches(from)| == S.BatchCount(from, |r.bins|)
    ensures S.BatchSizes(r.Batches(from) + rest, from, |r.bins|)
    ensures S.CorrRows(r.Batches(from) + rest, from, |r.bins|) == r.BinRows(from, |r.bins|)
    decreases |r.bins| - from
  {
    if from < |r.bins| {
      var to := S.BatchEnd(from, |r.bins|);
      var head := FlatRows(r.BinRows(from, to));
      BatchesReadBack(r, to, rest);
      UnflatFlatRows(r.BinRows(from, to));
      assert (r.Batches(from) + rest)[0] == head && (r.Batches(from) + rest)[1..] == r.Batches(to) + rest;
      assert r.BinRows(from, |r.bins|) == r.BinRows(from, to) + r.BinRows(to, |r.bins|);
    }
  }

  /** Everything the receiver sends has the size the sender checks, and reads back as its corrections. */
  lemma SentReadsBack(r: R.View, s: S.View)
    requires r.Valid() && s.Valid() && |r.bins| == s.binCount && |r.stash| == |s.stashPerms|
    ensures s.SizesFit(r.Sent()) && |r.Sent()| == S.BatchCount(0, s.binCount) + 1
    ensures S.CorrRows(r.Sent(), 0, s.binCount) == BinCorr(r)
    ensures s.StashRows(r.Sent()) == StashCorr(r)
  {
    BatchesReadBack(r, 0, [r.StashMessage()]);
    UnflatFlatRows(StashCorr(r));
    var m := r.StashMessage();
    assert m[..512 * |s.stashPerms|] == m;
  }

  /** These are the three bucket buffers the sender makes from the receiver's corrections. */
  ghost predicate BucketAnswer(r: R.View, s: S.View, out: seq<Message>)
    requires r.Valid() && s.Valid() && |r.bins| == s.binCount
  {
    && |out| >= 3
    && forall h | 0 <= h < 3 :: |out[h]| == 8 * r.ms * r.senderSize && out[h] == FlatMasks(s.Slots(BinCorr(r), h), s.ms)
  }

  /** These are the buffers for the stash slots. */
  ghost predicate StashAnswer(r: R.View, s: S.View, out: seq<Message>)
    requires r.Valid() && s.Valid() && |r.stash| == |s.stashPerms|
  {
    && |out| == |r.stash|
    && forall k | 0 <= k < |out| ::
         |out[k]| == 8 * r.ms * r.senderSize && out[k] == FlatMasks(s.StashSlots(StashCorr(r), k), s.ms)
  }

  /** Everything the sender answers has the size the receiver checks. */
  lemma AnswerFits(r: R.View, s: S.View, y: seq<Block>, x: seq<Block>)
    requires Linked(r, s, y, x)
    ensures s.SizesFit(r.Sent())
    ensures var out := s.Sent(r.Sent());
            && r.SizesFit(out) && |out| == 3 + |r.stash|
            && BucketAnswer(r, s, out) && StashAnswer(r, s, out[3..])
  {
    SentReadsBack(r, s);
    var out := s.Sent(r.Sent());
    var a, b := s.BucketMessages(BinCorr(r), 3), s.StashMessages(StashCorr(r), |s.stashPerms|);
    assert out[3..] == b;
    assert forall h | 0 <= h < 3 :: out[h] == a[h];
  }

  /** On a common item, the sender's mask under the bin's hash function is the receiver's own mask for the bin. */
  lemma CommonItemMask(r: R.View, s: S.View, y: seq<Block>, x: seq<Block>, b: nat, i: nat)
    requires Linked(r, s, y, x) && b < |r.bins| && !r.bins[b].IsEmpty() && i < |x| && x[i] == y[r.bins[b].mIdx]
    ensures s.ItemMask(BinCorr(r), i, r.bins[b].mHashIdx) == r.OwnMask(b)
  {
    assert BinCorr(r)[b] == r.BinRow(b);
    EvalCollapses(r.ots[b].t0, r.ots[b].t1, s.q[b], s.s, Code(r.hashs, r.n, r.bins[b].mIdx));
  }

  lemma CommonStashMask(r: R.View, s: S.View, y: seq<Block>, x: seq<Block>, k: nat, i: nat)
    requires Linked(r, s, y, x) && k < |r.stash| && !r.stash[k].IsEmpty() && i < |x| && x[i] == y[r.stash[k].mIdx]
    ensures s.StashItemMask(StashCorr(r), i, k) == r.OwnStashMask(k)
  {
    var o := |r.bins| + k;
    assert StashCorr(r)[k] == r.StashRow(k);
    assert Correlated(r.ots[o], s.q[o], s.s);
    EvalCollapses(r.ots[o].t0, r.ots[o].t1, s.q[o], s.s, Code(r.hashs, r.n, r.stash[k].mIdx));
  }

  /** No two bins of one hash function have masks with the same first eight bytes. */
  ghost predicate DistinctKeys(r: R.View)
    requires r.Valid()
  {
    forall a, b | 0 <= a < b < |r.bins| && !r.bins[a].IsEmpty() && !r.bins[b].IsEmpty()
                  && r.bins[a].mHashIdx == r.bins[b].mHashIdx ::
      Key(r.OwnMask(a)) != Key(r.OwnMask(b))
  }

  /** The masks of two different items, one of each party, are never compared and found equal. */
  ghost predicate NoFalseMatch(r: R.View, s: S.View, y: seq<Block>, x: seq<Block>)
    requires Linked(r, s, y, x)
  {
    && (forall b, i | 0 <= b < |r.bins| && !r.bins[b].IsEmpty() && 0 <= i < |x|
                      && s.ItemMask(BinCorr(r), i, r.bins[b].mHashIdx) == r.OwnMask(b) ::
          x[i] == y[r.bins[b].mIdx])
    && (forall k, i | 0 <= k < |r.stash| && !r.stash[k].IsEmpty() && 0 <= i < |x|
                      && s.StashItemMask(StashCorr(r), i, k) == r.OwnStashMask(k) ::
          x[i] == y[r.stash[k].mIdx])
  }

  /** With distinct keys, every bin seen so far is found under its own key. */
  lemma {:induction false} IndexHolds(r: R.View, h: nat, k: nat, b: nat)
    requires r.Valid() && DistinctKeys(r) && b < k <= |r.bins| && !r.bins[b].IsEmpty() && r.bins[b].mHashIdx == h
    ensures var key := Key(r.OwnMask(b));
            key in r.LocalIndex(h, k) && r.LocalIndex(h, k)[key] == Entry(Padded(r.OwnMask(b)), r.bins[b].mIdx)
  {
    if b < k - 1 {
      IndexHolds(r, h, k - 1, b);
    } else if Key(r.OwnMask(b)) in r.LocalIndex(h, b) {
      var a := IndexEntry(r, h, b, Key(r.OwnMask(b)));
      assert false;
    }
  }

  /** Every entry comes from a bin. */
  lemma {:induction false} IndexEntry(r: R.View, h: nat, k: nat, key: seq<bool>) returns (b: nat)
    requires r.Valid() && k <= |r.bins| && key in r.LocalIndex(h, k)
    ensures b < k && !r.bins[b].IsEmpty() && r.bins[b].mHashIdx == h && Key(r.OwnMask(b)) == key
    ensures r.LocalIndex(h, k)[key] == Entry(Padded(r.OwnMask(b)), r.bins[b].mIdx)
  {
    if key in r.LocalIndex(h, k - 1) {
      b := IndexEntry(r, h, k - 1, key);
    } else {
      b := k - 1;
    }
  }

  /** Item j of the receiver sits in a bin under hash function h. */
  ghost predicate Located(bins: seq<Bin>, j: nat, h: nat) {
    exists b :: 0 <= b < |bins| && bins[b] == Bin(j, h)
  }

  /** Looking up the sender's mask of item i finds receiver item j exactly when they are the same item and j sits in a
      bin under that hash function. */
  lemma LookupExact(r: R.View, s: S.View, y: seq<Block>, x: seq<Block>, h: nat, i: nat, j: nat)
    requires Linked(r, s, y, x) && DistinctKeys(r) && NoFalseMatch(r, s, y, x) && h < 3 && i < |x| && j < |y|
    ensures var m := Match(r.LocalIndex(h, |r.bins|), s.ItemMask(BinCorr(r), i, h));
            (j in m <==> Located(r.bins, j, h) && x[i] == y[j]) && |m| <= 1
  {
    var mask, index := s.ItemMask(BinCorr(r), i, h), r.LocalIndex(h, |r.bins|);
    if j in Match(index, mask) {
      var b := IndexEntry(r, h, |r.bins|, Key(mask));
      assert r.OwnMask(b) == Padded(r.OwnMask(b))[..|mask|];
      assert r.bins[b] == Bin(j, h);
    }
    if Located(r.bins, j, h) && x[i] == y[j] {
      var b :| 0 <= b < |r.bins| && r.bins[b] == Bin(j, h);
      CommonItemMask(r, s, y, x, b, i);
      IndexHolds(r, h, |r.bins|, b);
      assert Padded(mask)[..|mask|] == mask;
    }
  }

  function CountOf(s: seq<nat>, j: nat): nat { SimpleHash.CountOf(s, j) }

  ghost predicate Distinct(items: seq<Block>) {
    forall i, k | 0 <= i < k < |items| :: items[i] != items[k]
  }

  /** `times` when the receiver's item j is one of the sender's, else 0. */
  ghost function IfCommon(y: seq<Block>, x: seq<Block>, j: nat, times: nat): nat
    requires j < |y|
  {
    if y[j] in x then times else 0
  }

  /** A buffer in which at most one mask, the one at slot p, matches item j gives j at most once. */
  lemma {:induction false} CountHits(r: R.View, index: Index, buff: Message, i: nat, j: nat, p: int)
    requires r.Valid() && i <= r.senderSize && |buff| == 8 * r.ms * r.senderSize
    requires forall k | 0 <= k < i :: j in Match(index, MaskAt(buff, r.ms, r.senderSize, k)) <==> k == p
    ensures CountOf(r.BufferMatches(index, buff, i), j) == if 0 <= p < i then 1 else 0
  {
    if i > 0 {
      CountHits(r, index, buff, i - 1, j, p);
      var m := Match(index, MaskAt(buff, r.ms, r.senderSize, i - 1));
      SimpleHash.CountConcat(r.BufferMatches(index, buff, i - 1), m, j);
      assert m == [] || m == [m[0]];
    }
  }

  lemma {:induction false} CountSlotHits(r: R.View, s: nat, buff: Message, i: nat, j: nat, p: int)
    requires r.Valid() && s < |r.stash| && i <= r.senderSize && |buff| == 8 * r.ms * r.senderSize
    requires forall k | 0 <= k < i :: r.stash[s].mIdx == j && MaskAt(buff, r.ms, r.senderSize, k) == r.OwnStashMask(s) <==> k == p
    ensures CountOf(r.SlotMatches(s, buff, i), j) == if 0 <= p < i then 1 else 0
  {
    if i > 0 {
      CountSlotHits(r, s, buff, i - 1, j, p);
      var m := if MaskAt(buff, r.ms, r.senderSize, i - 1) == r.OwnStashMask(s) then [r.stash[s].mIdx] else [];
      SimpleHash.CountConcat(r.SlotMatches(s, buff, i - 1), m, j);
    }
  }

  /** Where the sender's copy of item j is among permuted items; -1 when it has none. */
  lemma FindSlot(x: seq<Block>, item: seq<nat>, v: Block) returns (p: int)
    requires SimpleHash.IsPermutation(item, |x|) && Distinct(x)
    ensures forall k | 0 <= k < |x| :: x[item[k]] == v <==> k == p
    ensures 0 <= p < |x| <==> v in x
  {
    if v in x {
      var i :| 0 <= i < |x| && x[i] == v;
      assert i in item;
      p :| 0 <= p < |x| && item[p] == i;
      forall k | 0 <= k < |x| && k != p ensures x[item[k]] != v {
        assert item[k] != i;
      }
    } else {
      p := -1;
    }
  }

  /** Buffer h adds item j once when it is common and located under h, and not at all otherwise. */
  lemma BucketCount(r: R.View, s: S.View, y: seq<Block>, x: seq<Block>, h: nat, j: nat)
    requires Linked(r, s, y, x) && DistinctKeys(r) && NoFalseMatch(r, s, y, x) && Distinct(x) && h < 3 && j < |y|
    ensures CountOf(r.BufferMatches(r.LocalIndex(h, |r.bins|), FlatMasks(s.Slots(BinCorr(r), h), s.ms), s.n), j)
            == IfCommon(y, x, j, if Located(r.bins, j, h) then 1 else 0)
  {
    var index, slots := r.LocalIndex(h, |r.bins|), s.Slots(BinCorr(r), h);
    var item := s.EverySlotHasItem(BinCorr(r), h);
    var p := FindSlot(x, item, y[j]);
    var q := if Located(r.bins, j, h) then p else -1;
    forall k | 0 <= k < s.n
      ensures j in Match(index, MaskAt(FlatMasks(slots, s.ms), s.ms, s.n, k)) <==> k == q
    {
      MaskAtFlat(slots, s.ms, k);
      LookupExact(r, s, y, x, h, item[k], j);
    }
    CountHits(r, index, FlatMasks(slots, s.ms), s.n, j, q);
  }

  lemma StashCount(r: R.View, s: S.View, y: seq<Block>, x: seq<Block>, t: nat, j: nat)
    requires Linked(r, s, y, x) && NoFalseMatch(r, s, y, x) && Distinct(x) && t < |r.stash| && !r.stash[t].IsEmpty() && j < |y|
    ensures CountOf(r.SlotMatches(t, FlatMasks(s.StashSlots(StashCorr(r), t), s.ms), s.n), j)
            == IfCommon(y, x, j, if r.stash[t].mIdx == j then 1 else 0)
  {
    var slots := s.StashSlots(StashCorr(r), t);
    var item := s.EveryStashSlotHasItem(StashCorr(r), t);
    var p := FindSlot(x, item, y[j]);
    var q := if r.stash[t].mIdx == j then p else -1;
    forall k | 0 <= k < s.n
      ensures r.stash[t].mIdx == j && MaskAt(FlatMasks(slots, s.ms), s.ms, s.n, k) == r.OwnStashMask(t) <==> k == q
    {
      MaskAtFlat(slots, s.ms, k);
      if r.stash[t].mIdx == j && x[item[k]] == y[j] { CommonStashMask(r, s, y, x, t, item[k]); }
    }
    CountSlotHits(r, t, FlatMasks(slots, s.ms), s.n, j, q);
  }

  /** In how many of the first h hash functions item j is located. */
  ghost function Places(bins: seq<Bin>, j: nat, h: nat): nat {
    if h == 0 then 0 else Places(bins, j, h - 1) + if Located(bins, j, h - 1) then 1 else 0
  }

  lemma {:induction false} BucketsCount(r: R.View, s: S.View, y: seq<Block>, x: seq<Block>, out: seq<Message>, h: nat, j: nat)
    requires Linked(r, s, y, x) && DistinctKeys(r) && NoFalseMatch(r, s, y, x) && Distinct(x) && h <= 3 && j < |y|
    requires BucketAnswer(r, s, out)
    ensures CountOf(r.BucketMatches(out, h), j) == IfCommon(y, x, j, Places(r.bins, j, h))
  {
    if h > 0 {
      BucketsCount(r, s, y, x, out, h - 1, j);
      BucketCount(r, s, y, x, h - 1, j);
      SimpleHash.CountConcat(r.BucketMatches(out, h - 1),
                             r.BufferMatches(r.LocalIndex(h - 1, |r.bins|), out[h - 1], r.senderSize), j);
    }
  }

  lemma {:induction false} StashesCount(r: R.View, s: S.View, y: seq<Block>, x: seq<Block>, out: seq<Message>, t: nat, j: nat)
    requires Linked(r, s, y, x) && NoFalseMatch(r, s, y, x) && Distinct(x) && t <= |r.stash| && j < |y|
    requires StashAnswer(r, s, out)
    ensures CountOf(r.StashMatches(out, t), j) == IfCommon(y, x, j, Count(r.stash[..t], j))
  {
    if t > 0 {
      hide NoFalseMatch, Distinct, FlatMasks, S.View.StashSlots, R.View.SlotMatches, MaskAt, CountOf;
      StashesCount(r, s, y, x, out, t - 1, j);
      NextStashCount(r, t - 1, j);
      var m := if r.stash[t - 1].IsEmpty() then [] else r.SlotMatches(t - 1, out[t - 1], r.senderSize);
      SimpleHash.CountConcat(r.StashMatches(out, t - 1), m, j);
      if !r.stash[t - 1].IsEmpty() { StashCount(r, s, y, x, t - 1, j); }
    }
  }

  lemma NextStashCount(r: R.View, t: nat, j: nat)
    requires t < |r.stash|
    ensures Count(r.stash[..t + 1], j) == Count(r.stash[..t], j) + Holds(r.stash[t], j)
  {
    assert r.stash[..t + 1] == r.stash[..t] + [r.stash[t]];
    Cuckoo.CountConcat(r.stash[..t], [r.stash[t]], j);
    assert Count([r.stash[t]], j) == Holds(r.stash[t], j);
  }

  /** Bins that hold an item at most once hold it under at most one hash function. */
  lemma {:induction false} CountedBin(bins: seq<Bin>, j: nat, b: nat)
    requires b < |bins| && Holds(bins[b], j) == 1
    ensures Count(bins, j) >= 1 && Count(bins[b := Bin(EMPTY, 0)], j) == Count(bins, j) - 1
  {
    CountUpdate(bins, b, Bin(EMPTY, 0), j);
  }

  lemma {:induction false} SomeBin(bins: seq<Bin>, j: nat) returns (b: nat)
    requires Count(bins, j) >= 1
    ensures b < |bins| && Holds(bins[b], j) == 1
  {
    if Holds(bins[0], j) == 1 {
      b := 0;
    } else {
      b := SomeBin(bins[1..], j);
      b := b + 1;
    }
  }

  lemma PlacesIsCount(n: nat, bins: seq<Bin>, j: nat)
    requires AllKnown(n, bins) && j < n < EMPTY && Count(bins, j) <= 1
    ensures Places(bins, j, 3) == Count(bins, j)
  {
    assert Places(bins, j, 2) == Places(bins, j, 1) + if Located(bins, j, 1) then 1 else 0;
    if Count(bins, j) == 1 {
      var b := SomeBin(bins, j);
      var h := bins[b].mHashIdx;
      assert bins[b] == Bin(j, h);
      forall g | 0 <= g < 3 && g != h ensures !Located(bins, j, g) {
        if Located(bins, j, g) {
          var a :| 0 <= a < |bins| && bins[a] == Bin(j, g);
          CountedBin(bins, j, a);
          CountedBin(bins[a := Bin(EMPTY, 0)], j, b);
        }
      }
    } else {
      forall g | 0 <= g < 3 ensures !Located(bins, j, g) {
        if Located(bins, j, g) {
          var a :| 0 <= a < |bins| && bins[a] == Bin(j, g);
          CountedBin(bins, j, a);
        }
      }
    }
  }

  lemma AnswerCount(r: R.View, s: S.View, y: seq<Block>, x: seq<Block>, out: seq<Message>, j: nat)
    requires Linked(r, s, y, x) && DistinctKeys(r) && NoFalseMatch(r, s, y, x) && Distinct(x) && j < |y|
    requires r.SizesFit(out) && BucketAnswer(r, s, out) && StashAnswer(r, s, out[3..]) && Count(r.bins, j) <= 1
    ensures CountOf(r.Found(out), j) == IfCommon(y, x, j, Stored(Table(r.bins, r.stash), j))
  {
    hide NoFalseMatch, DistinctKeys, Distinct, BucketAnswer, StashAnswer, Places;
    BucketsCount(r, s, y, x, out, 3, j);
    StashesCount(r, s, y, x, out[3..], |r.stash|, j);
    assert r.stash[..|r.stash|] == r.stash;
    PlacesIsCount(r.n, r.bins, j);
    SimpleHash.CountConcat(r.BucketMatches(out, 3), r.StashMatches(out[3..], |r.stash|), j);
  }

  /** The receiver records item j once for each of its places in the table, when the sender has it too. */
  lemma FoundCount(r: R.View, s: S.View, y: seq<Block>, x: seq<Block>, j: nat)
    requires Linked(r, s, y, x) && DistinctKeys(r) && NoFalseMatch(r, s, y, x) && Distinct(x) && j < |y|
    requires Count(r.bins, j) <= 1
    ensures s.SizesFit(r.Sent()) && r.SizesFit(s.Sent(r.Sent()))
    ensures CountOf(r.Found(s.Sent(r.Sent())), j) == IfCommon(y, x, j, Stored(Table(r.bins, r.stash), j))
  {
    AnswerFits(r, s, y, x);
    AnswerCount(r, s, y, x, s.Sent(r.Sent()), j);
  }

  /** What the receiver records are its own items. */
  lemma {:induction false} BufferKnown(r: R.View, h: nat, buff: Message, i: nat)
    requires r.Valid() && i <= r.senderSize && |buff| == 8 * r.ms * r.senderSize
    ensures forall p | 0 <= p < |r.BufferMatches(r.LocalIndex(h, |r.bins|), buff, i)| ::
              r.BufferMatches(r.LocalIndex(h, |r.bins|), buff, i)[p] < r.n
  {
    if i > 0 {
      BufferKnown(r, h, buff, i - 1);
      var index, mask := r.LocalIndex(h, |r.bins|), MaskAt(buff, r.ms, r.senderSize, i - 1);
      if Key(mask) in index {
        var b := IndexEntry(r, h, |r.bins|, Key(mask));
      }
    }
  }

  lemma {:induction false} SlotKnown(r: R.View, t: nat, buff: Message, i: nat)
    requires r.Valid() && t < |r.stash| && !r.stash[t].IsEmpty() && i <= r.senderSize && |buff| == 8 * r.ms * r.senderSize
    ensures forall p | 0 <= p < |r.SlotMatches(t, buff, i)| :: r.SlotMatches(t, buff, i)[p] < r.n
  {
    if i > 0 { SlotKnown(r, t, buff, i - 1); }
  }

  lemma {:induction false} BucketsKnown(r: R.View, out: seq<Message>, h: nat)
    requires r.Valid() && h <= |out| && forall k | 0 <= k < h :: |out[k]| == 8 * r.ms * r.senderSize
    ensures forall p | 0 <= p < |r.BucketMatches(out, h)| :: r.BucketMatches(out, h)[p] < r.n
  {
    if h > 0 {
      BucketsKnown(r, out, h - 1);
      BufferKnown(r, h - 1, out[h - 1], r.senderSize);
    }
  }

  lemma {:induction false} StashesKnown(r: R.View, out: seq<Message>, t: nat)
    requires r.Valid() && t <= |r.stash| && t <= |out|
    requires forall k | 0 <= k < t && !r.stash[k].IsEmpty() :: |out[k]| == 8 * r.ms * r.senderSize
    ensures forall p | 0 <= p < |r.StashMatches(out, t)| :: r.StashMatches(out, t)[p] < r.n
  {
    if t > 0 {
      StashesKnown(r, out, t - 1);
      if !r.stash[t - 1].IsEmpty() { SlotKnown(r, t - 1, out[t - 1], r.senderSize); }
    }
  }

  /** Item j was pushed out of the stash by the final resize. */
  ghost predicate Dropped(stash: seq<Bin>, max: nat, j: nat) {
    exists s :: max <= s < |stash| && Holds(stash[s], j) == 1
  }

  lemma DroppedCount(t: Table, max: nat, n: nat, j: nat)
    requires HoldsEachOnce(t, n) && j < n
    ensures Stored(t.(stash := Resized(t.stash, max)), j) == if Dropped(t.stash, max, j) then 0 else 1
  {
    assert Stored(t, j) == 1;
    if |t.stash| <= max {
      ResizeKeeps(t.stash, max, j);
    } else {
      var kept, cut := t.stash[..max], t.stash[max..];
      assert t.stash == kept + cut;
      Cuckoo.CountConcat(kept, cut, j);
      if Count(cut, j) >= 1 {
        var s := SomeBin(cut, j);
        assert Holds(t.stash[max + s], j) == 1;
      } else if Dropped(t.stash, max, j) {
        var s :| max <= s < |t.stash| && Holds(t.stash[s], j) == 1;
        assert Holds(cut[s - max], j) == 1;
        CountedBin(cut, j, s - max);
      }
    }
  }

  /** What the SSOT extension leaves with the receiver, and with the sender. */
  function OtsOf(aes: Cipher, seeds0: Ssot.Seeds, seeds1: Ssot.Seeds, n: nat): (t: seq<RowPair>)
    ensures |t| == n
  {
    seq(n, i requires 0 <= i < n => RowPair(Ssot.SeedRow(aes, seeds0, i), Ssot.SeedRow(aes, seeds1, i)))
  }

  function RowsOf(aes: Cipher, chosen: Ssot.Seeds, n: nat): (q: seq<Row>)
    ensures |q| == n
  {
    seq<Row>(n, i requires 0 <= i < n => Ssot.SeedRow(aes, chosen, i))
  }

  /** All that two honest parties put into a session: their items and base OTs, the shared functions and hasher sizes,
      and what each draws at random. */
  datatype Run = Run(aes: Cipher, sha: Hash, y: seq<Block>, x: seq<Block>, binCount: nat, limit: nat, numStash: nat,
                     seeds0: Ssot.Seeds, seeds1: Ssot.Seeds, chosen: Ssot.Seeds, choice: seq<bool>,
                     dummies: seq<Row>, perms: seq<seq<nat>>, stashPerms: seq<seq<nat>>)
  {
    ghost predicate Valid() {
      && |y| < EMPTY && |x| < EMPTY && |x| * |y| < 0x1_0000_0000_0000_0000 && binCount > 0
      && |choice| == 512 && Ssot.BaseSeeds(seeds0, seeds1, chosen, choice)
      && |dummies| == binCount + numStash
      && |perms| == 3 && (forall h | 0 <= h < 3 :: SimpleHash.IsPermutation(perms[h], |x|))
      && |stashPerms| == numStash && (forall k | 0 <= k < numStash :: SimpleHash.IsPermutation(stashPerms[k], |x|))
    }

    function Ots(): (t: seq<RowPair>)
      ensures |t| == binCount + numStash
    {
      OtsOf(aes, seeds0, seeds1, binCount + numStash)
    }

    function Rows(): (q: seq<Row>)
      ensures |q| == binCount + numStash
    {
      RowsOf(aes, chosen, binCount + numStash)
    }

    function Receiver(): (r: R.View)
      requires Valid()
    {
      R.ViewOf(aes, sha, y, |x|, binCount, limit, numStash, Ots(), dummies)
    }

    function Sender(): (s: S.View)
      requires Valid()
    {
      S.ViewOf(aes, sha, x, |y|, binCount, Rows(), choice, perms, stashPerms)
    }

    /** The receiver's cuckoo table before its stash is resized. */
    function Built(): (t: Table)
      requires Valid()
      ensures Placed(AddrsOf(ItemHashes(aes, y), |y|, binCount), |y|, t) && |t.bins| == binCount
    {
      Cuckoo.Built(AddrsOf(ItemHashes(aes, y), |y|, binCount), |y|, limit, binCount)
    }

    /** The parties' rows are correlated, OT by OT. */
    lemma RowsAreCorrelated(o: nat)
      requires Valid() && o < binCount + numStash
      ensures Correlated(Ots()[o], Rows()[o], Unflat(choice))
    {
      Ssot.RowsCorrelated(aes, seeds0, seeds1, chosen, choice, o);
    }

    /** Equal items fall into the same bin under the hash function that placed one of them. */
    lemma SameBin(b: nat, i: nat)
      requires Valid() && b < binCount && !Built().bins[b].IsEmpty() && i < |x| && x[i] == y[Built().bins[b].mIdx]
      ensures AddrsOf(ItemHashes(aes, x), |x|, binCount)[Built().bins[b].mHashIdx][i] == b
    {
      var e := Built().bins[b];
      SameItemSameHashes(aes, x, y, i, e.mIdx, e.mHashIdx);
    }

    lemma SameCode(i: nat, j: nat)
      requires Valid() && i < |x| && j < |y| && x[i] == y[j]
      ensures Code(ItemHashes(aes, x), |x|, i) == Code(ItemHashes(aes, y), |y|, j)
    {
      forall k | 0 <= k < 4 ensures ItemHashes(aes, x)[k][i] == ItemHashes(aes, y)[k][j] {
        SameItemSameHashes(aes, x, y, i, j, k);
      }
    }

    /** Both parties derive the same sizes, whichever set is larger. */
    lemma SameSizes()
      requires Valid()
      ensures MaskSize(|x|, |y|) == MaskSize(|y|, |x|)
    {
      assert |x| * |y| == |y| * |x|;
    }

    lemma PartiesLinked()
      requires Valid()
      ensures Linked(Receiver(), Sender(), y, x)
      ensures Receiver().bins == Built().bins && Receiver().stash == Resized(Built().stash, numStash)
    {
      SameSizes();
      var r, s := Receiver(), Sender();
      forall o | 0 <= o < |r.ots| ensures Correlated(r.ots[o], s.q[o], s.s) { RowsAreCorrelated(o); }
      forall i, j | 0 <= i < |x| && 0 <= j < |y| && x[i] == y[j]
        ensures Code(s.hashs, s.n, i) == Code(r.hashs, r.n, j)
      {
        SameCode(i, j);
      }
      forall b, i | 0 <= b < |r.bins| && !r.bins[b].IsEmpty() && 0 <= i < |x| && x[i] == y[r.bins[b].mIdx]
        ensures s.addrs[r.bins[b].mHashIdx][i] == b
      {
        SameBin(b, i);
      }
    }

    /** No two masks clash where they would be confused. */
    ghost predicate NoClash()
      requires Valid() && Linked(Receiver(), Sender(), y, x)
    {
      DistinctKeys(Receiver()) && NoFalseMatch(Receiver(), Sender(), y, x)
    }

    /** What the receiver records when the messages it sends are answered by the sender. */
    ghost function Recorded(): seq<nat>
      requires Valid() && Sender().SizesFit(Receiver().Sent())
      requires Receiver().SizesFit(Sender().Sent(Receiver().Sent()))
    {
      Receiver().Found(Sender().Sent(Receiver().Sent()))
    }
  }

  /** Every message both parties exchange has the size its receiver checks. */
  lemma SizesAgree(run: Run)
    requires run.Valid()
    ensures Linked(run.Receiver(), run.Sender(), run.y, run.x)
    ensures run.Sender().SizesFit(run.Receiver().Sent())
    ensures run.Receiver().SizesFit(run.Sender().Sent(run.Receiver().Sent()))
  {
    run.PartiesLinked();
    AnswerFits(run.Receiver(), run.Sender(), run.y, run.x);
  }

  /** What the receiver sends online, and what it is answered. */
  ghost function Asked(run: Run): (out: seq<Message>)
    requires run.Valid()
    ensures |out| == S.BatchCount(0, run.binCount) + 1
  {
    SentReadsBack(run.Receiver(), run.Sender());
    run.Receiver().Sent()
  }

  ghost function Answered(run: Run): (out: seq<Message>)
    requires run.Valid()
    ensures |out| == 3 + run.numStash
  {
    SizesAgree(run);
    run.Sender().Sent(Asked(run))
  }

  /** Set intersection: item j is recorded exactly once when the sender has it and the stash kept it, else never; and
      nothing but the receiver's own indices is recorded. */
  lemma RecordsIntersection(run: Run, j: nat)
    requires run.Valid() && Distinct(run.x)
    requires Linked(run.Receiver(), run.Sender(), run.y, run.x) && run.NoClash()
    requires run.Sender().SizesFit(run.Receiver().Sent())
    requires run.Receiver().SizesFit(run.Sender().Sent(run.Receiver().Sent()))
    ensures CountOf(run.Recorded(), j)
            == if j < |run.y| && run.y[j] in run.x && !Dropped(run.Built().stash, run.numStash, j) then 1 else 0
  {
    var r, t := run.Receiver(), run.Built();
    run.PartiesLinked();
    BuiltHoldsEachOnce(AddrsOf(ItemHashes(run.aes, run.y), |run.y|, run.binCount), |run.y|, run.limit, run.binCount, 0);
    if j < |run.y| {
      assert Stored(t, j) == 1;
      DroppedCount(t, run.numStash, |run.y|, j);
      FoundCount(r, run.Sender(), run.y, run.x, j);
    } else {
      RecordsOwnIndices(run);
      SimpleHash.CountedIsMember(run.Recorded(), j);
    }
  }

  lemma RecordsOwnIndices(run: Run)
    requires run.Valid()
    requires run.Sender().SizesFit(run.Receiver().Sent())
    requires run.Receiver().SizesFit(run.Sender().Sent(run.Receiver().Sent()))
    ensures forall p | 0 <= p < |run.Recorded()| :: run.Recorded()[p] < |run.y|
  {
    var r, out := run.Receiver(), run.Sender().Sent(run.Receiver().Sent());
    BucketsKnown(r, out, 3);
    StashesKnown(r, out[3..], |r.stash|);
  }

  /** The receiver's indices of the common items, each once. */
  ghost predicate IsIntersection(found: seq<nat>, y: seq<Block>, x: seq<Block>) {
    && (forall j: nat :: j in found <==> j < |y| && y[j] in x)
    && (forall a, b | 0 <= a < b < |found| :: found[a] != found[b])
  }

  /** The sender's items are distinct, the receiver's stash fits, and no masks clash where they would be confused. */
  ghost predicate NoMishap(run: Run)
    requires run.Valid()
  {
    run.PartiesLinked();
    Distinct(run.x) && |run.Built().stash| <= run.numStash && run.NoClash()
  }

  /** What the receiver has recorded at the end. */
  ghost function Outcome(run: Run): seq<nat>
    requires run.Valid()
  {
    SizesAgree(run);
    run.Recorded()
  }

  /** With no mishap that is exactly the intersection. */
  lemma IntersectionExact(run: Run)
    requires run.Valid() && NoMishap(run)
    ensures IsIntersection(Outcome(run), run.y, run.x)
  {
    SizesAgree(run);
    forall j: nat
      ensures CountOf(run.Recorded(), j) == if j < |run.y| && run.y[j] in run.x then 1 else 0
    {
      RecordsIntersection(run, j);
    }
    CountedExactly(run.Recorded(), run.y, run.x);
  }

  lemma CountedExactly(found: seq<nat>, y: seq<Block>, x: seq<Block>)
    requires forall j: nat :: CountOf(found, j) == if j < |y| && y[j] in x then 1 else 0
    ensures IsIntersection(found, y, x)
  {
    forall j: nat ensures j in found <==> j < |y| && y[j] in x {
      assert CountOf(found, j) == SimpleHash.CountOf(found, j);
      SimpleHash.CountedIsMember(found, j);
    }
    forall p, q | 0 <= p < q < |found| ensures found[p] != found[q] {
      if found[p] == found[q] {
        assert CountOf(found, found[p]) <= 1;
        SimpleHash.CountedOnce(found, p, q);
      }
    }
  }

  /** Block k of an item's code is the item encrypted under the key of value k + 2^64 k. */
  lemma CodeIs(aes: Cipher, items: seq<Block>, i: nat, k: nat) returns (key: Block)
    requires i < |items| < EMPTY && k < 4
    ensures Value(key) == k + TWO64 * k && Code(ItemHashes(aes, items), |items|, i)[k] == aes(key, items[i])
  {
    key := ItemHashIs(aes, items, k, i);
  }

  /** Bit (e, k) of the row the sender reads for bin b: of an item's code and both OPRF rows, added; or of the dummy. */
  lemma RowSent(r: R.View, s: S.View, b: nat, e: nat, k: nat)
    requires r.Valid() && s.Valid() && |r.bins| == s.binCount && |r.stash| == |s.stashPerms|
    requires b < |r.bins| && e < 4 && k < 128
    ensures s.SizesFit(r.Sent())
    ensures S.CorrRows(r.Sent(), 0, s.binCount)[b][e][k] ==
      if r.bins[b].IsEmpty() then r.dummies[b][e][k]
      else (Code(r.hashs, r.n, r.bins[b].mIdx)[e][k] != r.ots[b].t0[e][k]) != r.ots[b].t1[e][k]
  {
    SentReadsBack(r, s);
    assert BinCorr(r)[b] == r.BinRow(b);
  }

  lemma StashRowSent(r: R.View, s: S.View, t: nat, e: nat, k: nat)
    requires r.Valid() && s.Valid() && |r.bins| == s.binCount && |r.stash| == |s.stashPerms|
    requires t < |r.stash| && e < 4 && k < 128
    ensures s.SizesFit(r.Sent())
    ensures s.StashRows(r.Sent())[t][e][k] ==
      if r.stash[t].IsEmpty() then r.dummies[|r.bins| + t][e][k]
      else (Code(r.hashs, r.n, r.stash[t].mIdx)[e][k] != r.ots[|r.bins| + t].t0[e][k]) != r.ots[|r.bins| + t].t1[e][k]
  {
    SentReadsBack(r, s);
    assert StashCorr(r)[t] == r.StashRow(t);
  }

  /** Both parties hash as many bytes as the larger set asks for, and compare masks of the size both sets ask for. */
  lemma SizesUsed(run: Run)
    requires run.Valid()
    ensures run.Receiver().cw == run.Sender().cw
            == if |run.x| >= |run.y| then CodewordSize(|run.x|) else CodewordSize(|run.y|)
    ensures CodewordSize(|run.x|) <= run.Receiver().cw && CodewordSize(|run.y|) <= run.Receiver().cw
    ensures run.Receiver().ms == run.Sender().ms == MaskSize(|run.x|, |run.y|)
  {
    run.SameSizes();
  }

  /** With clashing keys, too, an index holds for each key the first bin that has it, and no other. */
  lemma {:induction false} FirstBinKept(r: R.View, h: nat, k: nat, key: seq<bool>) returns (b: nat)
    requires r.Valid() && k <= |r.bins|
    ensures b <= k
    ensures forall a | 0 <= a < b :: r.bins[a].IsEmpty() || r.bins[a].mHashIdx != h || Key(r.OwnMask(a)) != key
    ensures key in r.LocalIndex(h, k) <==> b < k
    ensures b < k ==> !r.bins[b].IsEmpty() && r.bins[b].mHashIdx == h && Key(r.OwnMask(b)) == key
                      && r.LocalIndex(h, k)[key] == Entry(Padded(r.OwnMask(b)), r.bins[b].mIdx)
  {
    b := 0;
    if k > 0 {
      b := FirstBinKept(r, h, k - 1, key);
      if b == k - 1 && (r.bins[b].IsEmpty() || r.bins[b].mHashIdx != h || Key(r.OwnMask(b)) != key) { b := k; }
    }
  }

  /** How the bins are cut into batches: 4096 each, and what is left in the last. */
  lemma {:induction false} BatchAt(r: R.View, from: nat, m: nat)
    requires r.Valid() && from <= |r.bins|
    ensures |r.Batches(from)| == (|r.bins| - from + 4095) / 4096
    ensures m < |r.Batches(from)| ==>
      |r.Batches(from)[m]| == 512 * if from + 4096 * (m + 1) <= |r.bins| then 4096 else |r.bins| - from - 4096 * m
    decreases |r.bins| - from
  {
    if from < |r.bins| {
      var to := if 4096 < |r.bins| - from then from + 4096 else |r.bins|;
      BatchAt(r, to, if m > 0 then m - 1 else 0);
      assert r.Batches(from) == [FlatRows(r.BinRows(from, to))] + r.Batches(to);
    }
  }
}
