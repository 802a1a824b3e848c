/** When the intersection is exact, said of the hash and the OPRF values alone. */
module MaskClash {
  import opened Bits
  import opened Cuckoo
  import opened Encodings
  import opened Oprf
  import opened Psi
  import R = PsiReceiver
  import S = PsiSender

  /** A bit string that one of the parties hashes: the receiver for an occupied bin or stash slot, the sender for an item
      under a hash function or against a stash slot. */
  ghost predicate Hashed(r: R.View, s: S.View, a: seq<bool>)
    requires r.Valid() && s.Valid() && |r.bins| == s.binCount && |r.stash| == |s.stashPerms|
  {
    || (exists b :: 0 <= b < |r.bins| && !r.bins[b].IsEmpty() && a == BinInput(r.cw, r.bins[b].mHashIdx, r.ots[b].t0))
    || (exists i, h :: 0 <= i < s.n && 0 <= h < 3 && a == BinInput(s.cw, h, s.ItemValue(BinCorr(r), i, h)))
    || (exists k :: 0 <= k < |r.stash| && !r.stash[k].IsEmpty() && a == RowPrefix(r.ots[|r.bins| + k].t0, r.cw))
    || (exists i, k :: 0 <= i < s.n && 0 <= k < |s.stashPerms| && a == RowPrefix(s.StashValue(StashCorr(r), i, k), s.cw))
  }

  /** No two different strings hashed have digests with the same first bits. */
  ghost predicate DigestsApart(r: R.View, s: S.View, bits: nat)
    requires r.Valid() && s.Valid() && |r.bins| == s.binCount && |r.stash| == |s.stashPerms| && bits <= 128
  {
    forall a, b | Hashed(r, s, a) && Hashed(r, s, b) && r.sha(a)[..bits] == r.sha(b)[..bits] :: a == b
  }

  /** The sender's value of an item differs, in the bytes hashed, from the row of any bin or slot of another item. */
  ghost predicate ValuesApart(r: R.View, s: S.View, y: seq<Block>, x: seq<Block>)
    requires Linked(r, s, y, x)
  {
    && (forall b, i | 0 <= b < |r.bins| && !r.bins[b].IsEmpty() && 0 <= i < |x| && x[i] != y[r.bins[b].mIdx] ::
          !SameBytes(s.ItemValue(BinCorr(r), i, r.bins[b].mHashIdx), r.ots[b].t0, r.cw))
    && (forall k, i | 0 <= k < |r.stash| && !r.stash[k].IsEmpty() && 0 <= i < |x| && x[i] != y[r.stash[k].mIdx] ::
          !SameBytes(s.StashValue(StashCorr(r), i, k), r.ots[|r.bins| + k].t0, r.cw))
  }

  /** The receiver's rows of different bins under one hash function differ in those bytes. */
  ghost predicate RowsApart(r: R.View)
    requires r.Valid()
  {
    forall a, b | 0 <= a < b < |r.bins| && !r.bins[a].IsEmpty() && !r.bins[b].IsEmpty()
                  && r.bins[a].mHashIdx == r.bins[b].mHashIdx ::
      !SameBytes(r.ots[a].t0, r.ots[b].t0, r.cw)
  }

  /** Equal masks are the prefixes of equal digests, so of equal inputs, so of equal values. */
  lemma NoFalseMatchFrom(r: R.View, s: S.View, y: seq<Block>, x: seq<Block>)
    requires Linked(r, s, y, x) && DigestsApart(r, s, 8 * r.ms) && ValuesApart(r, s, y, x)
    ensures NoFalseMatch(r, s, y, x)
  {
    hide Linked, Correlated;
    LinkedSizes(r, s, y, x);
    forall b, i | 0 <= b < |r.bins| && !r.bins[b].IsEmpty() && 0 <= i < |x|
                  && s.ItemMask(BinCorr(r), i, r.bins[b].mHashIdx) == r.OwnMask(b)
      ensures x[i] == y[r.bins[b].mIdx]
    {
      var h, v := r.bins[b].mHashIdx, s.ItemValue(BinCorr(r), i, r.bins[b].mHashIdx);
      assert Hashed(r, s, BinInput(r.cw, h, r.ots[b].t0)) && Hashed(r, s, BinInput(s.cw, h, v));
      BinInputSame(r.cw, h, v, h, r.ots[b].t0);
    }
    forall k, i | 0 <= k < |r.stash| && !r.stash[k].IsEmpty() && 0 <= i < |x|
                  && s.StashItemMask(StashCorr(r), i, k) == r.OwnStashMask(k)
      ensures x[i] == y[r.stash[k].mIdx]
    {
      var t0, v := r.ots[|r.bins| + k].t0, s.StashValue(StashCorr(r), i, k);
      assert Hashed(r, s, RowPrefix(t0, r.cw)) && Hashed(r, s, RowPrefix(v, s.cw));
      RowPrefixSame(v, t0, r.cw);
    }
  }

  lemma LinkedSizes(r: R.View, s: S.View, y: seq<Block>, x: seq<Block>)
    requires Linked(r, s, y, x)
    ensures r.Valid() && s.Valid() && |y| == r.n && |x| == s.n && |r.bins| == s.binCount && |r.stash| == |s.stashPerms|
    ensures r.sha == s.sha && r.cw == s.cw && r.ms == s.ms
  {}

  /** The bits of a mask that its key shows. */
  function KeyBits(ms: nat): nat { if ms < 8 then 8 * ms else 64 }

  lemma DistinctKeysFrom(r: R.View, s: S.View)
    requires r.Valid() && s.Valid() && |r.bins| == s.binCount && |r.stash| == |s.stashPerms|
    requires DigestsApart(r, s, KeyBits(r.ms)) && RowsApart(r)
    ensures DistinctKeys(r)
  {
    forall a, b | 0 <= a < b < |r.bins| && !r.bins[a].IsEmpty() && !r.bins[b].IsEmpty()
                  && r.bins[a].mHashIdx == r.bins[b].mHashIdx
      ensures Key(r.OwnMask(a)) != Key(r.OwnMask(b))
    {
      var h, v, w := r.bins[a].mHashIdx, r.ots[a].t0, r.ots[b].t0;
      var p, q := BinInput(r.cw, h, v), BinInput(r.cw, h, w);
      assert Hashed(r, s, p) && Hashed(r, s, q);
      BinInputSame(r.cw, h, v, h, w);
      KeySame(r.OwnMask(a), r.OwnMask(b));
      assert r.OwnMask(a)[..KeyBits(r.ms)] == r.sha(p)[..KeyBits(r.ms)];
      assert r.OwnMask(b)[..KeyBits(r.ms)] == r.sha(q)[..KeyBits(r.ms)];
    }
  }

  /** Digests that differ in fewer bits differ in more. */
  lemma ApartInMore(r: R.View, s: S.View, few: nat, more: nat)
    requires r.Valid() && s.Valid() && |r.bins| == s.binCount && |r.stash| == |s.stashPerms| && few <= more <= 128
    requires DigestsApart(r, s, few)
    ensures DigestsApart(r, s, more)
  {
    hide Hashed;
    forall a, b | Hashed(r, s, a) && Hashed(r, s, b) && r.sha(a)[..more] == r.sha(b)[..more] ensures a == b {
      assert r.sha(a)[..few] == r.sha(a)[..more][..few] && r.sha(b)[..few] == r.sha(b)[..more][..few];
    }
  }

  /** What an exact intersection rests on: distinct sender items, a stash that fits, OPRF values and rows that differ in the
      bytes hashed, and a hash without collision in its first eight bytes (or a whole mask) on the strings of the run. */
  ghost predicate Apart(run: Run)
    requires run.Valid()
  {
    run.PartiesLinked();
    var r, s := run.Receiver(), run.Sender();
    && Distinct(run.x) && |run.Built().stash| <= run.numStash
    && ValuesApart(r, s, run.y, run.x) && RowsApart(r) && DigestsApart(r, s, KeyBits(r.ms))
  }

  /** Then nothing else can go wrong. */
  lemma NoMishapFrom(run: Run)
    requires run.Valid() && Apart(run)
    ensures NoMishap(run)
  {
    run.PartiesLinked();
    var r, s := run.Receiver(), run.Sender();
    ApartInMore(r, s, KeyBits(r.ms), 8 * r.ms);
    NoFalseMatchFrom(r, s, run.y, run.x);
    DistinctKeysFrom(r, s);
  }

  lemma IntersectionFromDigests(run: Run)
    requires run.Valid() && Apart(run)
    ensures IsIntersection(Psi.Outcome(run), run.y, run.x)
  {
    NoMishapFrom(run);
    IntersectionExact(run);
  }

  /** In its own bin an item's value differs from the row of the receiver's item exactly when, within the bytes hashed, the
      codes differ in a bit that the sender's choices select. */
  lemma OwnBinValue(r: R.View, s: S.View, y: seq<Block>, x: seq<Block>, b: nat, i: nat)
    requires Linked(r, s, y, x) && b < |r.bins| && !r.bins[b].IsEmpty() && i < |x| && s.addrs[r.bins[b].mHashIdx][i] == b
    ensures SameBytes(s.ItemValue(BinCorr(r), i, r.bins[b].mHashIdx), r.ots[b].t0, r.cw) <==>
      forall e, k | 0 <= e < 4 && 0 <= k < 128 && 128 * e + k < 8 * r.cw && s.s[e][k] ::
        Code(r.hashs, r.n, r.bins[b].mIdx)[e][k] == Code(s.hashs, s.n, i)[e][k]
  {
    var c, c' := Code(r.hashs, r.n, r.bins[b].mIdx), Code(s.hashs, s.n, i);
    var v, t0 := s.ItemValue(BinCorr(r), i, r.bins[b].mHashIdx), r.ots[b].t0;
    assert BinCorr(r)[b] == r.BinRow(b) && Correlated(r.ots[b], s.q[b], s.s);
    forall e, k | 0 <= e < 4 && 0 <= k < 128
      ensures v[e][k] == (t0[e][k] != (c[e][k] != c'[e][k] && s.s[e][k]))
    {
      EvalOnOther(t0, r.ots[b].t1, s.q[b], s.s, c, c', e, k);
    }
  }
}
