/** Cuckoo hashing with three hash functions, bounded eviction chains and a stash. */
module Cuckoo {
  import opened Bits
  import opened Params
  import Encodings

  const EMPTY: nat := 0xFFFF_FFFF_FFFF_FFFF

  /** A slot: an item index and the hash function that put it there; EMPTY marks a free slot. */
  datatype Bin = Bin(mIdx: nat, mHashIdx: nat) {
    predicate IsEmpty() { mIdx == EMPTY }
  }

  /** Hash values of the items: hashs[h][i] is the block of item i under hash function h. */
  type Hashes = seq<seq<Block>>

  /** Bin addresses of n items: entry (h, i) is the hash value of item i under function h, reduced to the bin count. */
  type Addrs = seq<seq<nat>>

  ghost predicate AddrTable(addrs: Addrs, n: nat, binCount: nat) {
    |addrs| == 3 && n < EMPTY && forall h | 0 <= h < 3 :: |addrs[h]| == n && forall i | 0 <= i < n :: addrs[h][i] < binCount
  }

  ghost predicate HashTable(hashs: Hashes, n: nat) {
    |hashs| == 4 && n < EMPTY && forall h | 0 <= h < 4 :: |hashs[h]| == n
  }

  /** The address the sources compute: the low 64 bits of the hash block, modulo the bin count. */
  function Addr(hash: Block, binCount: nat): (a: nat)
    requires binCount > 0
    ensures a < binCount
  {
    Word64(hash) % binCount
  }

  /** The address of a block of value v is v mod 2^64, mod the bin count. */
  lemma AddrValue(hash: Block, binCount: nat)
    requires binCount > 0
    ensures Addr(hash, binCount) == Value(hash) % 0x1_0000_0000_0000_0000 % binCount
  {
    Encodings.Word64Value(hash);
  }

  function AddrsOf(hashs: Hashes, n: nat, binCount: nat): (addrs: Addrs)
    requires HashTable(hashs, n) && binCount > 0
    ensures AddrTable(addrs, n, binCount)
  {
    seq(3, h requires 0 <= h < 3 => seq(n, i requires 0 <= i < n => Addr(hashs[h][i], binCount)))
  }

  /** A known item under one of the three hash functions. */
  ghost predicate Known(n: nat, b: Bin) {
    b.mHashIdx < 3 && b.mIdx < n
  }

  datatype Table = Table(bins: seq<Bin>, stash: seq<Bin>)

  ghost predicate AllKnown(n: nat, bins: seq<Bin>) {
    forall b | 0 <= b < |bins| && !bins[b].IsEmpty() :: Known(n, bins[b])
  }

  /** What an insertion chain leaves, and how many evictions it took. */
  datatype Outcome = Outcome(table: Table, evictions: nat)

  /** Where an insertion chain ends: in a free bin, by evicting into the next hash function, or in the stash. */
  function Insert(addrs: Addrs, n: nat, limit: nat, t: Table, i: nat, h: nat, tries: nat): (r: Outcome)
    requires AddrTable(addrs, n, |t.bins|) && AllKnown(n, t.bins) && Known(n, Bin(i, h))
    decreases if tries < limit then limit - tries else 0
  {
    var bin := t.bins[addrs[h][i]];
    if bin.IsEmpty() then
      Outcome(Write(t, addrs[h][i], i, h), 0)
    else if tries < limit then
      var r := Insert(addrs, n, limit, Write(t, addrs[h][i], i, h), bin.mIdx, (bin.mHashIdx + 1) % 3, tries + 1);
      Outcome(r.table, r.evictions + 1)
    else
      Outcome(t.(stash := t.stash + [Bin(i, h)]), 0)
  }

  /** Item i placed in bin a under hash function h. */
  function Write(t: Table, a: nat, i: nat, h: nat): Table
    requires a < |t.bins|
  {
    t.(bins := t.bins[a := Bin(i, h)])
  }

  /** 1 when the slot holds item x. */
  function Holds(b: Bin, x: nat): nat { if !b.IsEmpty() && b.mIdx == x then 1 else 0 }

  /** How many slots hold item x. */
  function Count(bins: seq<Bin>, x: nat): nat {
    if bins == [] then 0 else Holds(bins[0], x) + Count(bins[1..], x)
  }

  lemma {:induction false} CountConcat(a: seq<Bin>, b: seq<Bin>, x: nat)
    ensures Count(a + b, x) == Count(a, x) + Count(b, x)
  {
    if a == [] {
      assert a + b == b;
    } else {
      assert (a + b)[1..] == a[1..] + b;
      CountConcat(a[1..], b, x);
    }
  }

  lemma CountUpdate(bins: seq<Bin>, a: nat, b: Bin, x: nat)
    requires a < |bins|
    ensures Count(bins[a := b], x) + Holds(bins[a], x) == Count(bins, x) + Holds(b, x)
  {
    assert bins == bins[..a] + ([bins[a]] + bins[a + 1..]);
    assert bins[a := b] == bins[..a] + ([b] + bins[a + 1..]);
    CountConcat(bins[..a], [bins[a]] + bins[a + 1..], x);
    CountConcat(bins[..a], [b] + bins[a + 1..], x);
  }

  /** How often item x is stored, in bins and stash together. */
  function Stored(t: Table, x: nat): nat { Count(t.bins, x) + Count(t.stash, x) }

  /** An insertion chain adds one occurrence of its item and changes no other count: nothing is lost or duplicated. */
  lemma {:induction false} InsertConserves(addrs: Addrs, n: nat, limit: nat, t: Table, i: nat, h: nat, tries: nat, x: nat)
    requires AddrTable(addrs, n, |t.bins|) && AllKnown(n, t.bins) && Known(n, Bin(i, h))
    ensures Stored(Insert(addrs, n, limit, t, i, h, tries).table, x) == Stored(t, x) + if x == i then 1 else 0
    decreases if tries < limit then limit - tries else 0
  {
    var a := addrs[h][i];
    var bin := t.bins[a];
    if bin.IsEmpty() || tries < limit {
      CountUpdate(t.bins, a, Bin(i, h), x);
      if !bin.IsEmpty() {
        InsertConserves(addrs, n, limit, Write(t, a, i, h), bin.mIdx, (bin.mHashIdx + 1) % 3, tries + 1, x);
      }
    } else {
      CountConcat(t.stash, [Bin(i, h)], x);
    }
  }

  /** An insertion chain evicts at most limit - tries times. */
  lemma {:induction false} InsertBounded(addrs: Addrs, n: nat, limit: nat, t: Table, i: nat, h: nat, tries: nat)
    requires AddrTable(addrs, n, |t.bins|) && AllKnown(n, t.bins) && Known(n, Bin(i, h)) && tries <= limit
    ensures Insert(addrs, n, limit, t, i, h, tries).evictions <= limit - tries
    decreases limit - tries
  {
    var a := addrs[h][i];
    var bin := t.bins[a];
    if !bin.IsEmpty() && tries < limit {
      InsertBounded(addrs, n, limit, Write(t, a, i, h), bin.mIdx, (bin.mHashIdx + 1) % 3, tries + 1);
    }
  }

  /** Each occupied bin holds a known item that hashes there under its recorded function; the stash holds known items. */
  ghost predicate Placed(addrs: Addrs, n: nat, t: Table) {
    && AddrTable(addrs, n, |t.bins|)
    && AllKnown(n, t.bins)
    && (forall b | 0 <= b < |t.bins| && !t.bins[b].IsEmpty() :: addrs[t.bins[b].mHashIdx][t.bins[b].mIdx] == b)
    && (forall s | 0 <= s < |t.stash| :: Known(n, t.stash[s]))
  }

  lemma {:induction false} InsertPlaces(addrs: Addrs, n: nat, limit: nat, t: Table, i: nat, h: nat, tries: nat)
    requires Placed(addrs, n, t) && Known(n, Bin(i, h))
    ensures var r := Insert(addrs, n, limit, t, i, h, tries).table; Placed(addrs, n, r) && |r.bins| == |t.bins|
    decreases if tries < limit then limit - tries else 0
  {
    var a := addrs[h][i];
    var bin := t.bins[a];
    if !bin.IsEmpty() && tries < limit {
      InsertPlaces(addrs, n, limit, Write(t, a, i, h), bin.mIdx, (bin.mHashIdx + 1) % 3, tries + 1);
    }
  }

  /** One eviction: item j, met under hash function g, moves to the bin of its next hash function when that is free, and
      the stash stays as it was. */
  lemma OneEviction(addrs: Addrs, n: nat, limit: nat, t: Table, i: nat, h: nat, tries: nat, j: nat, g: nat)
    requires Placed(addrs, n, t) && Known(n, Bin(i, h)) && tries < limit && g < 3 && j < n
    requires t.bins[addrs[h][i]] == Bin(j, g) && t.bins[addrs[(g + 1) % 3][j]].IsEmpty()
    ensures var r := Insert(addrs, n, limit, t, i, h, tries);
      && r.evictions == 1 && r.table.stash == t.stash
      && r.table.bins == t.bins[addrs[h][i] := Bin(i, h)][addrs[(g + 1) % 3][j] := Bin(j, (g + 1) % 3)]
  {
    var next := Write(t, addrs[h][i], i, h);
    assert Insert(addrs, n, limit, next, j, (g + 1) % 3, tries + 1)
        == Outcome(Write(next, addrs[(g + 1) % 3][j], j, (g + 1) % 3), 0);
  }

  /** An item goes to the stash only after as many evictions as the limit leaves, and then it is the only one. */
  lemma {:induction false} StashLast(addrs: Addrs, n: nat, limit: nat, t: Table, i: nat, h: nat, tries: nat)
    requires AddrTable(addrs, n, |t.bins|) && AllKnown(n, t.bins) && Known(n, Bin(i, h)) && tries <= limit
    ensures var r := Insert(addrs, n, limit, t, i, h, tries);
      r.table.stash == t.stash
      || (r.evictions == limit - tries && |r.table.stash| == |t.stash| + 1 && r.table.stash[..|t.stash|] == t.stash)
    decreases limit - tries
  {
    var bin := t.bins[addrs[h][i]];
    if !bin.IsEmpty() && tries < limit {
      StashLast(addrs, n, limit, Write(t, addrs[h][i], i, h), bin.mIdx, (bin.mHashIdx + 1) % 3, tries + 1);
    }
  }

  function HashOf(b: Bin): nat { if b.IsEmpty() then 0 else b.mHashIdx }

  /** The hash function numbers of the stored items, added up. */
  function HashSum(bins: seq<Bin>): nat {
    if bins == [] then 0 else HashOf(bins[0]) + HashSum(bins[1..])
  }

  lemma {:induction false} HashSumConcat(a: seq<Bin>, b: seq<Bin>)
    ensures HashSum(a + b) == HashSum(a) + HashSum(b)
  {
    if a == [] {
      assert a + b == b;
    } else {
      assert (a + b)[1..] == a[1..] + b;
      HashSumConcat(a[1..], b);
    }
  }

  lemma HashSumOne(b: Bin)
    ensures HashSum([b]) == HashOf(b)
  {}

  lemma HashSumUpdate(bins: seq<Bin>, a: nat, b: Bin)
    requires a < |bins|
    ensures HashSum(bins[a := b]) + HashOf(bins[a]) == HashSum(bins) + HashOf(b)
  {
    assert bins == bins[..a] + ([bins[a]] + bins[a + 1..]);
    assert bins[a := b] == bins[..a] + ([b] + bins[a + 1..]);
    HashSumConcat(bins[..a], [bins[a]] + bins[a + 1..]);
    HashSumConcat(bins[..a], [b] + bins[a + 1..]);
    HashSumConcat([bins[a]], bins[a + 1..]);
    HashSumConcat([b], bins[a + 1..]);
  }

  /** Over the whole table. */
  function TotalHash(t: Table): nat { HashSum(t.bins) + HashSum(t.stash) }

  lemma WriteHash(t: Table, a: nat, i: nat, h: nat)
    requires a < |t.bins| && i < EMPTY
    ensures TotalHash(Write(t, a, i, h)) == TotalHash(t) + h - HashOf(t.bins[a])
  {
    HashSumUpdate(t.bins, a, Bin(i, h));
  }

  lemma NextHash(total: int, g: nat, e: nat)
    requires g < 3
    ensures (total - g + (g + 1) % 3 + e) % 3 == (total + e + 1) % 3
  {}

  /** Every eviction of a chain takes one item on to its next hash function, 2 back to 0. */
  lemma {:induction false} EvictionsAdvance(addrs: Addrs, n: nat, limit: nat, t: Table, i: nat, h: nat, tries: nat)
    requires AddrTable(addrs, n, |t.bins|) && AllKnown(n, t.bins) && Known(n, Bin(i, h))
    ensures var r := Insert(addrs, n, limit, t, i, h, tries); TotalHash(r.table) % 3 == (TotalHash(t) + h + r.evictions) % 3
    decreases if tries < limit then limit - tries else 0
  {
    hide HashSum;
    var a := addrs[h][i];
    var bin := t.bins[a];
    if bin.IsEmpty() || tries < limit {
      WriteHash(t, a, i, h);
      if !bin.IsEmpty() {
        hide TotalHash;
        var next, g := Write(t, a, i, h), (bin.mHashIdx + 1) % 3;
        EvictionsAdvance(addrs, n, limit, next, bin.mIdx, g, tries + 1);
        NextHash(TotalHash(t) + h, bin.mHashIdx, Insert(addrs, n, limit, next, bin.mIdx, g, tries + 1).evictions);
      }
    } else {
      HashSumConcat(t.stash, [Bin(i, h)]);
      HashSumOne(Bin(i, h));
    }
  }

  /** Item k goes in, starting with hash function 0. */
  function InsertFirst(addrs: Addrs, n: nat, limit: nat, t: Table, k: nat): (r: Table)
    requires Placed(addrs, n, t) && k < n
    ensures Placed(addrs, n, r) && |r.bins| == |t.bins|
  {
    InsertPlaces(addrs, n, limit, t, k, 0, 0);
    Insert(addrs, n, limit, t, k, 0, 0).table
  }

  /** The table after items 0 .. k - 1 have gone in, in order. */
  function InsertAll(addrs: Addrs, n: nat, limit: nat, t: Table, k: nat): (r: Table)
    requires Placed(addrs, n, t) && k <= n
    ensures Placed(addrs, n, r) && |r.bins| == |t.bins|
  {
    if k == 0 then t else InsertFirst(addrs, n, limit, InsertAll(addrs, n, limit, t, k - 1), k - 1)
  }

  lemma {:induction false} InsertAllConserves(addrs: Addrs, n: nat, limit: nat, t: Table, k: nat, x: nat)
    requires Placed(addrs, n, t) && k <= n
    ensures Stored(InsertAll(addrs, n, limit, t, k), x) == Stored(t, x) + if x < k then 1 else 0
  {
    if k > 0 {
      var before := InsertAll(addrs, n, limit, t, k - 1);
      InsertAllConserves(addrs, n, limit, t, k - 1, x);
      InsertConserves(addrs, n, limit, before, k - 1, 0, 0, x);
    }
  }

  function FreeBins(n: nat): (bins: seq<Bin>) { seq(n, _ => Bin(EMPTY, 0)) }

  lemma {:induction false} FreeBinsHoldNothing(n: nat, x: nat)
    ensures Count(FreeBins(n), x) == 0
  {
    if n > 0 {
      assert FreeBins(n)[1..] == FreeBins(n - 1);
      FreeBinsHoldNothing(n - 1, x);
    }
  }

  /** What vector::resize leaves of the stash. */
  function Resized(stash: seq<Bin>, max: nat): (r: seq<Bin>)
    ensures |r| == max
  {
    if |stash| >= max then stash[..max] else stash + FreeBins(max - |stash|)
  }

  /** When the stash fits, the final resize keeps every count. */
  lemma ResizeKeeps(stash: seq<Bin>, max: nat, x: nat)
    requires |stash| <= max
    ensures Count(Resized(stash, max), x) == Count(stash, x)
  {
    if |stash| == max {
      assert stash[..max] == stash;
    } else {
      FreeBinsHoldNothing(max - |stash|, x);
      CountConcat(stash, FreeBins(max - |stash|), x);
    }
  }

  /** When it does not, the item of the first cut slot loses an occurrence. */
  lemma ResizeDrops(stash: seq<Bin>, max: nat)
    requires |stash| > max && !stash[max].IsEmpty()
    ensures Count(Resized(stash, max), stash[max].mIdx) < Count(stash, stash[max].mIdx)
  {
    var x := stash[max].mIdx;
    assert stash == stash[..max] + stash[max..];
    CountConcat(stash[..max], stash[max..], x);
  }

  /** The table a hasher holds after insertItems on n items, before the stash is resized. */
  function Built(addrs: Addrs, n: nat, limit: nat, binCount: nat): (r: Table)
    requires AddrTable(addrs, n, binCount)
    ensures Placed(addrs, n, r) && |r.bins| == binCount
  {
    InsertAll(addrs, n, limit, Table(FreeBins(binCount), []), n)
  }

  /** Every index below n is stored exactly once and nothing else is. */
  ghost predicate HoldsEachOnce(t: Table, n: nat) {
    forall x: nat :: Stored(t, x) == if x < n then 1 else 0
  }

  /** insertItems stores each of the n indices exactly once before the resize, and after it exactly when the stash fits. */
  lemma BuiltHoldsEachOnce(addrs: Addrs, n: nat, limit: nat, binCount: nat, max: nat)
    requires AddrTable(addrs, n, binCount)
    ensures var t := Built(addrs, n, limit, binCount);
            HoldsEachOnce(t, n) && (HoldsEachOnce(t.(stash := Resized(t.stash, max)), n) <==> |t.stash| <= max)
  {
    var t := Built(addrs, n, limit, binCount);
    forall x: nat ensures Stored(t, x) == if x < n then 1 else 0 {
      var start := Table(FreeBins(binCount), []);
      InsertAllConserves(addrs, n, limit, start, n, x);
      FreeBinsHoldNothing(binCount, x);
      assert Stored(start, x) == 0;
    }
    var r := t.(stash := Resized(t.stash, max));
    if |t.stash| <= max {
      forall x: nat ensures Stored(r, x) == if x < n then 1 else 0 {
        ResizeKeeps(t.stash, max, x);
        assert Stored(r, x) == Stored(t, x);
      }
    } else {
      ResizeDrops(t.stash, max);
      assert Stored(r, t.stash[max].mIdx) < Stored(t, t.stash[max].mIdx);
    }
  }

  /** All items hash to one and the same bin. */
  ghost predicate Collide(addrs: Addrs, a: nat) {
    forall h, i | 0 <= h < |addrs| && 0 <= i < |addrs[h]| :: addrs[h][i] == a
  }

  /** An occupied bin that every eviction leads back to sends one item to the stash. */
  lemma {:induction false} CollidingInsert(addrs: Addrs, n: nat, limit: nat, t: Table, a: nat, i: nat, h: nat, tries: nat)
    requires Placed(addrs, n, t) && Known(n, Bin(i, h)) && Collide(addrs, a) && a < |t.bins| && !t.bins[a].IsEmpty()
    ensures var r := Insert(addrs, n, limit, t, i, h, tries).table;
      |r.stash| == |t.stash| + 1 && |r.bins| == |t.bins| && !r.bins[a].IsEmpty()
    decreases if tries < limit then limit - tries else 0
  {
    var bin := t.bins[a];
    if tries < limit {
      CollidingInsert(addrs, n, limit, Write(t, a, i, h), a, bin.mIdx, (bin.mHashIdx + 1) % 3, tries + 1);
    }
  }

  /** When all items collide, all but one end in the stash. */
  lemma {:induction false} CollidingItems(addrs: Addrs, n: nat, limit: nat, binCount: nat, a: nat, k: nat)
    requires AddrTable(addrs, n, binCount) && Collide(addrs, a) && a < binCount && 0 < k <= n
    ensures var r := InsertAll(addrs, n, limit, Table(FreeBins(binCount), []), k);
      |r.stash| == k - 1 && !r.bins[a].IsEmpty()
  {
    var start := Table(FreeBins(binCount), []);
    if k > 1 {
      CollidingItems(addrs, n, limit, binCount, a, k - 1);
      CollidingInsert(addrs, n, limit, InsertAll(addrs, n, limit, start, k - 1), a, k - 1, 0, 0);
    } else {
      assert InsertAll(addrs, n, limit, start, 0) == start;
    }
  }

  /** Fifteen colliding items, in the 18 bins and with the stash the sources give so many, overfill the stash: the resize
      loses some of them. */
  lemma OverfullStash(addrs: Addrs)
    requires AddrTable(addrs, 15, 18) && Collide(addrs, 0)
    ensures var t := Built(addrs, 15, 15, 18); |t.stash| == 14 > StashSize(15)
    ensures var t := Built(addrs, 15, 15, 18); !HoldsEachOnce(t.(stash := Resized(t.stash, StashSize(15))), 15)
  {
    CollidingItems(addrs, 15, 15, 18, 0, 15);
    BuiltHoldsEachOnce(addrs, 15, 15, 18, StashSize(15));
  }

  /** Item k stays under hash function 0 when that bin is free. */
  lemma FreeFirst(addrs: Addrs, n: nat, limit: nat, t: Table, k: nat)
    requires Placed(addrs, n, t) && k < n && t.bins[addrs[0][k]].IsEmpty()
    ensures InsertFirst(addrs, n, limit, t, k) == Table(t.bins[addrs[0][k] := Bin(k, 0)], t.stash)
  {}

  /** Two items that share their first bin both find a bin: the first one moves to its second. */
  lemma TwoItems()
    ensures var addrs: Addrs := [[0, 0], [1, 1], [0, 0]];
      AddrTable(addrs, 2, 2) && Built(addrs, 2, 2, 2) == Table([Bin(1, 0), Bin(0, 1)], [])
  {
    var addrs: Addrs := [[0, 0], [1, 1], [0, 0]];
    var start := Table(FreeBins(2), []);
    assert InsertAll(addrs, 2, 2, start, 0) == start;
    FreeFirst(addrs, 2, 2, start, 0);
    var one := InsertAll(addrs, 2, 2, start, 1);
    assert one.bins == [Bin(0, 0), Bin(EMPTY, 0)] && one.stash == [];
    OneEviction(addrs, 2, 2, one, 1, 0, 0, 0, 0);
    assert InsertAll(addrs, 2, 2, start, 2) == InsertFirst(addrs, 2, 2, one, 1);
  }

  class CuckooHasher {
    var mBinCount: nat
    var mCuckooSize: nat
    var mMaxStashSize: nat
    var mTotalTries: nat
    var mBins: array<Bin>
    var mStash: seq<Bin>

    ghost function View(): Table
      reads this, mBins
    {
      Table(mBins[..], mStash)
    }

    /** The hash blocks of n items reduce to these addresses. */
    ghost predicate Reduces(hashs: Hashes, n: nat, addrs: Addrs)
      reads this, mBins
    {
      && HashTable(hashs, n) && mBinCount == mBins.Length > 0 && AddrTable(addrs, n, mBinCount)
      && forall h, i | 0 <= h < 3 && 0 <= i < n :: addrs[h][i] == Addr(hashs[h][i], mBinCount)
    }

    /** init, for the bin count and stash size the shared parameters give. */
    constructor (cuckooSize: nat, binCount: nat, maxStashSize: nat)
      ensures mBinCount == binCount == mBins.Length && mCuckooSize == cuckooSize && mMaxStashSize == maxStashSize
      ensures View() == Table(FreeBins(binCount), []) && mTotalTries == 0 && fresh(mBins)
    {
      mBinCount, mCuckooSize, mMaxStashSize, mTotalTries := binCount, cuckooSize, maxStashSize, 0;
      mBins := new Bin[binCount](_ => Bin(EMPTY, 0));
      mStash := [];
    }

    /** insertItem, recursive through evictions. */
    method InsertItem(i: nat, hashs: Hashes, h: nat, numTries: nat, ghost n: nat, ghost addrs: Addrs)
      requires Reduces(hashs, n, addrs) && AllKnown(n, mBins[..]) && Known(n, Bin(i, h))
      modifies mBins, this`mStash, this`mTotalTries
      ensures mTotalTries > old(mTotalTries)
      ensures Outcome(View(), mTotalTries - old(mTotalTries) - 1)
              == Insert(addrs, n, mCuckooSize, old(View()), i, h, numTries)
      decreases if numTries < mCuckooSize then mCuckooSize - numTries else 0
    {
      mTotalTries := mTotalTries + 1;
      var addr := Addr(hashs[h][i], mBinCount);
      if mBins[addr].IsEmpty() {
        mBins[addr] := Bin(i, h);
      } else if numTries < mCuckooSize {
        var evictIdx, idxHash := mBins[addr].mIdx, mBins[addr].mHashIdx;
        mBins[addr] := Bin(i, h);
        assert View() == Write(old(View()), addr, i, h);
        InsertItem(evictIdx, hashs, (idxHash + 1) % 3, numTries + 1, n, addrs);
      } else {
        mStash := mStash + [Bin(i, h)];
      }
    }

    /** insertItems: every item in order, then the stash is cut or padded to its maximum. */
    method InsertItems(hashs: Hashes, ghost n: nat, ghost addrs: Addrs)
      requires Reduces(hashs, n, addrs) && Placed(addrs, n, View())
      modifies mBins, this`mStash, this`mTotalTries
      ensures var t := InsertAll(addrs, n, mCuckooSize, old(View()), n);
              mBins[..] == t.bins && mStash == Resized(t.stash, mMaxStashSize)
    {
      hide Insert;
      for i := 0 to |hashs[0]|
        invariant View() == InsertAll(addrs, n, mCuckooSize, old(View()), i)
      {
        InsertItem(i, hashs, 0, 0, n, addrs);
      }
      mStash := Resized(mStash, mMaxStashSize);
    }
  }
}
