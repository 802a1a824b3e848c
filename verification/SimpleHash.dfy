/** Simple hashing: every item goes into one bin per hash function. */
module SimpleHash {
  import opened Arith
  import opened Bits
  import opened Cuckoo

  datatype Item = Item(mIdx: nat, mHashIdx: nat)

  /** The k-th placement: item k / 3 under hash function k % 3. */
  function Placement(k: nat): Item { Item(k / 3, k % 3) }

  /** The bin of the k-th placement. */
  function PlaceAddr(addrs: Addrs, n: nat, binCount: nat, k: nat): (a: nat)
    requires AddrTable(addrs, n, binCount) && k < 3 * n
    ensures a < binCount
  {
    addrs[k % 3][k / 3]
  }

  /** What bin b holds after the first k placements, in order. */
  function BinList(addrs: Addrs, n: nat, binCount: nat, b: nat, k: nat): (l: seq<Item>)
    requires AddrTable(addrs, n, binCount) && k <= 3 * n
  {
    if k == 0 then []
    else
      BinList(addrs, n, binCount, b, k - 1) +
      (if PlaceAddr(addrs, n, binCount, k - 1) == b then [Placement(k - 1)] else [])
  }

  /** Bins never get shorter. */
  lemma {:induction false} BinListGrows(addrs: Addrs, n: nat, binCount: nat, b: nat, k: nat, m: nat)
    requires AddrTable(addrs, n, binCount) && k <= m <= 3 * n
    ensures BinList(addrs, n, binCount, b, k) <= BinList(addrs, n, binCount, b, m)
    decreases m - k
  {
    if k < m { BinListGrows(addrs, n, binCount, b, k, m - 1); }
  }

  function Same(x: Item, y: Item): nat { if x == y then 1 else 0 }

  /** How often a placement occurs in a list. */
  function Occurs(l: seq<Item>, x: Item): nat {
    if l == [] then 0 else Same(l[0], x) + Occurs(l[1..], x)
  }

  lemma {:induction false} OccursConcat(a: seq<Item>, b: seq<Item>, x: Item)
    ensures Occurs(a + b, x) == Occurs(a, x) + Occurs(b, x)
  {
    if a == [] {
      assert a + b == b;
    } else {
      assert (a + b)[1..] == a[1..] + b;
      OccursConcat(a[1..], b, x);
    }
  }

  /** Item i under hash function j is in the bin its hash names, once, and in no other. */
  lemma {:induction false} PlacedOnce(addrs: Addrs, n: nat, binCount: nat, b: nat, k: nat, i: nat, j: nat)
    requires AddrTable(addrs, n, binCount) && k <= 3 * n && i < n && j < 3
    ensures Occurs(BinList(addrs, n, binCount, b, k), Item(i, j)) == if 3 * i + j < k && addrs[j][i] == b then 1 else 0
  {
    if k > 0 {
      PlacedOnce(addrs, n, binCount, b, k - 1, i, j);
      OccursConcat(BinList(addrs, n, binCount, b, k - 1), [Placement(k - 1)], Item(i, j));
      assert Occurs([Placement(k - 1)], Item(i, j)) == Same(Placement(k - 1), Item(i, j));
      assert BinList(addrs, n, binCount, b, k - 1) + [] == BinList(addrs, n, binCount, b, k - 1);
    }
  }

  /** The first b bins, one after the other. */
  function AllBins(addrs: Addrs, n: nat, binCount: nat, b: nat): (l: seq<Item>)
    requires AddrTable(addrs, n, binCount)
  {
    if b == 0 then [] else AllBins(addrs, n, binCount, b - 1) + BinList(addrs, n, binCount, b - 1, 3 * n)
  }

  /** Over all bins, each pair of an item and a hash function occurs exactly once. */
  lemma {:induction false} AllPlacedOnce(addrs: Addrs, n: nat, binCount: nat, b: nat, i: nat, j: nat)
    requires AddrTable(addrs, n, binCount) && i < n && j < 3
    ensures Occurs(AllBins(addrs, n, binCount, b), Item(i, j)) == if addrs[j][i] < b then 1 else 0
  {
    if b > 0 {
      AllPlacedOnce(addrs, n, binCount, b - 1, i, j);
      OccursConcat(AllBins(addrs, n, binCount, b - 1), BinList(addrs, n, binCount, b - 1, 3 * n), Item(i, j));
      PlacedOnce(addrs, n, binCount, b - 1, 3 * n, i, j);
    }
  }

  /** Combined length of the first b bins after k placements. */
  function Total(addrs: Addrs, n: nat, binCount: nat, b: nat, k: nat): nat
    requires AddrTable(addrs, n, binCount) && k <= 3 * n
  {
    if b == 0 then 0 else Total(addrs, n, binCount, b - 1, k) + |BinList(addrs, n, binCount, b - 1, k)|
  }

  lemma {:induction false} TotalStep(addrs: Addrs, n: nat, binCount: nat, b: nat, k: nat)
    requires AddrTable(addrs, n, binCount) && k < 3 * n
    ensures Total(addrs, n, binCount, b, k + 1) == Total(addrs, n, binCount, b, k) + if PlaceAddr(addrs, n, binCount, k) < b then 1 else 0
  {
    if b > 0 { TotalStep(addrs, n, binCount, b - 1, k); }
  }

  lemma {:induction false} NothingPlaced(addrs: Addrs, n: nat, binCount: nat, b: nat)
    requires AddrTable(addrs, n, binCount)
    ensures Total(addrs, n, binCount, b, 0) == 0
  {
    if b > 0 { NothingPlaced(addrs, n, binCount, b - 1); }
  }

  /** The bin sizes sum to the number of placements. */
  lemma {:induction false} SizesSum(addrs: Addrs, n: nat, binCount: nat, k: nat)
    requires AddrTable(addrs, n, binCount) && k <= 3 * n
    ensures Total(addrs, n, binCount, binCount, k) == k
  {
    if k == 0 {
      NothingPlaced(addrs, n, binCount, binCount);
    } else {
      SizesSum(addrs, n, binCount, k - 1);
      TotalStep(addrs, n, binCount, binCount, k - 1);
    }
  }

  /** No bin ever outgrows its row of the matrix. */
  ghost predicate NoOverflow(addrs: Addrs, n: nat, binCount: nat, max: nat, k: nat)
    requires AddrTable(addrs, n, binCount) && k <= 3 * n
  {
    forall b | 0 <= b < binCount :: |BinList(addrs, n, binCount, b, k)| <= max
  }

  class SimpleHasher {
    var mBinCount: nat
    var mMaxBinSize: nat
    var mBins: array2<Item>     // mBinCount rows of mMaxBinSize items
    var mBinSizes: array<nat>

    ghost predicate Shape()
      reads this
    {
      && mBinCount > 0
      && mBins.Length0 == mBinSizes.Length == mBinCount && mBins.Length1 == mMaxBinSize
    }

    /** Bin b holds exactly lists[b]. */
    ghost predicate Filled(lists: seq<seq<Item>>)
      reads this, mBins, mBinSizes
    {
      && Shape() && |lists| == mBinCount
      && (forall b | 0 <= b < mBinCount :: mBinSizes[b] == |lists[b]| <= mMaxBinSize)
      && (forall b, p | 0 <= b < mBinCount && 0 <= p < |lists[b]| :: mBins[b, p] == lists[b][p])
    }

    /** init, for the bin count and bin size the shared parameters give. */
    constructor (binCount: nat, maxBinSize: nat)
      ensures mBinCount == binCount && mMaxBinSize == maxBinSize
      ensures mBins.Length0 == mBinSizes.Length == binCount && mBins.Length1 == maxBinSize
      ensures forall b | 0 <= b < binCount :: mBinSizes[b] == 0
      ensures fresh(mBins) && fresh(mBinSizes)
    {
      mBinCount, mMaxBinSize := binCount, maxBinSize;
      mBins := new Item[binCount, maxBinSize]((_, _) => Item(0, 0));
      mBinSizes := new nat[binCount](_ => 0);
    }

    /** The inner loop body of insertItems: false when the row has no column left, where the matrix throws. */
    method Place(i: nat, j: nat, hash: Block, ghost lists: seq<seq<Item>>) returns (ok: bool)
      requires Filled(lists)
      modifies mBins, mBinSizes
      ensures var a := Addr(hash, mBinCount);
              && ok == (|lists[a]| < mMaxBinSize)
              && (ok ==> Filled(lists[a := lists[a] + [Item(i, j)]]))
    {
      var xrHashVal := Addr(hash, mBinCount);
      SmallMod(xrHashVal, mBinCount);
      var addr := xrHashVal % mBinCount;
      var bb := mBinSizes[addr];
      mBinSizes[addr] := bb + 1;
      if bb >= mMaxBinSize {
        return false;
      }
      mBins[addr, bb] := Item(i, j);
      ok := true;
    }
  
    /** One pass of the inner loop, against the lists the addresses prescribe. */
    method PlaceNext(i: nat, j: nat, hash: Block, ghost n: nat, ghost addrs: Addrs) returns (ok: bool)
      requires AddrTable(addrs, n, mBinCount) && mBinCount > 0
      requires i < n && j < 3 && addrs[j][i] == Addr(hash, mBinCount)
      requires Filled(BinLists(addrs, n, mBinCount, 3 * i + j))
      modifies mBins, mBinSizes
      ensures ok ==> Filled(BinLists(addrs, n, mBinCount, 3 * i + j + 1))
      ensures !ok ==> !NoOverflow(addrs, n, mBinCount, mMaxBinSize, 3 * n)
    {
      NextLists(addrs, n, mBinCount, i, j);
      ok := Place(i, j, hash, BinLists(addrs, n, mBinCount, 3 * i + j));
      if !ok {
        OverflowIsFinal(addrs, n, mBinCount, mMaxBinSize, i, j);
      }
    }

    lemma FilledFits(n: nat, addrs: Addrs)
      requires AddrTable(addrs, n, mBinCount) && Filled(BinLists(addrs, n, mBinCount, 3 * n))
      ensures NoOverflow(addrs, n, mBinCount, mMaxBinSize, 3 * n)
    {
      var ls := BinLists(addrs, n, mBinCount, 3 * n);
      assert forall b | 0 <= b < mBinCount :: ls[b] == BinList(addrs, n, mBinCount, b, 3 * n);
    }

    /** The addresses are the ones the hash blocks of n items give. */
    ghost predicate Reduces(hashs: Hashes, n: nat, addrs: Addrs)
      reads this
    {
      && HashTable(hashs, n) && AddrTable(addrs, n, mBinCount) && mBinCount > 0
      && forall h, i | 0 <= h < 3 && 0 <= i < n :: addrs[h][i] == Addr(hashs[h][i], mBinCount)
    }

    /** The inner loop: item i goes into three bins. */
    method PlaceItem(i: nat, hashs: Hashes, ghost n: nat, ghost addrs: Addrs) returns (ok: bool)
      requires Reduces(hashs, n, addrs) && i < n && Filled(BinLists(addrs, n, mBinCount, 3 * i))
      modifies mBins, mBinSizes
      ensures ok ==> Filled(BinLists(addrs, n, mBinCount, 3 * i + 3))
      ensures !ok ==> !NoOverflow(addrs, n, mBinCount, mMaxBinSize, 3 * n)
    {
      ok := true;
      for j := 0 to 3
        invariant ok && Filled(BinLists(addrs, n, mBinCount, 3 * i + j))
      {
        ok := PlaceNext(i, j, hashs[j][i], n, addrs);
        if !ok {
          return;
        }
      }
    }

    /** insertItems: all placements in order; false when some bin overflows its row. */
    method InsertItems(hashs: Hashes, ghost n: nat, ghost addrs: Addrs) returns (ok: bool, cnt: nat)
      requires Reduces(hashs, n, addrs) && Filled(BinLists(addrs, n, mBinCount, 0))
      modifies mBins, mBinSizes
      ensures ok <==> NoOverflow(addrs, n, mBinCount, mMaxBinSize, 3 * n)
      ensures ok ==> cnt == 3 * n && Filled(BinLists(addrs, n, mBinCount, 3 * n))
    {
      cnt := 0;
      ok := true;
      for i := 0 to |hashs[0]|
        invariant ok && cnt == 3 * i && Filled(BinLists(addrs, n, mBinCount, 3 * i))
      {
        ok := PlaceItem(i, hashs, n, addrs);
        if !ok {
          return;
        }
        cnt := cnt + 3;
      }
      FilledFits(n, addrs);
    }
  }

  /** All bins after k placements. */
  function BinLists(addrs: Addrs, n: nat, binCount: nat, k: nat): (ls: seq<seq<Item>>)
    requires AddrTable(addrs, n, binCount) && k <= 3 * n
    ensures |ls| == binCount
  {
    seq(binCount, b requires 0 <= b < binCount => BinList(addrs, n, binCount, b, k))
  }

  /** One placement appends to the bin its hash names. */
  lemma NextLists(addrs: Addrs, n: nat, binCount: nat, i: nat, j: nat)
    requires AddrTable(addrs, n, binCount) && i < n && j < 3
    ensures var ls, a := BinLists(addrs, n, binCount, 3 * i + j), addrs[j][i];
            BinLists(addrs, n, binCount, 3 * i + j + 1) == ls[a := ls[a] + [Item(i, j)]]
  {
    var k := 3 * i + j;
    assert k / 3 == i && k % 3 == j;
    assert PlaceAddr(addrs, n, binCount, k) == addrs[j][i] && Placement(k) == Item(i, j);
    var ls, next, a := BinLists(addrs, n, binCount, k), BinLists(addrs, n, binCount, k + 1), addrs[j][i];
    forall b | 0 <= b < binCount
      ensures next[b] == ls[a := ls[a] + [Item(i, j)]][b]
    {
      assert next[b] == BinList(addrs, n, binCount, b, k + 1);
      assert ls[b] == BinList(addrs, n, binCount, b, k);
    }
  }

  /** Once a full bin is hit again, the final lists overflow. */
  lemma OverflowIsFinal(addrs: Addrs, n: nat, binCount: nat, max: nat, i: nat, j: nat)
    requires AddrTable(addrs, n, binCount) && i < n && j < 3
    requires |BinLists(addrs, n, binCount, 3 * i + j)[addrs[j][i]]| >= max
    ensures !NoOverflow(addrs, n, binCount, max, 3 * n)
  {
    var a := addrs[j][i];
    NextLists(addrs, n, binCount, i, j);
    assert |BinLists(addrs, n, binCount, 3 * i + j + 1)[a]| > max;
    BinListGrows(addrs, n, binCount, a, 3 * i + j + 1, 3 * n);
  }

  lemma SmallMod(a: nat, m: nat)
    requires a < m
    ensures a % m == a
  {
    DivUnique(a, m, 0);
  }

  /** The items a list holds under hash function j, in list order. */
  function Selected(l: seq<Item>, j: nat): (s: seq<nat>) {
    if l == [] then []
    else (if l[0].mHashIdx == j then [l[0].mIdx] else []) + Selected(l[1..], j)
  }

  function CountOf(s: seq<nat>, i: nat): nat {
    if s == [] then 0 else (if s[0] == i then 1 else 0) + CountOf(s[1..], i)
  }

  lemma {:induction false} SelectedConcat(a: seq<Item>, b: seq<Item>, j: nat)
    ensures Selected(a + b, j) == Selected(a, j) + Selected(b, j)
  {
    if a == [] {
      assert a + b == b;
    } else {
      assert (a + b)[0] == a[0] && (a + b)[1..] == a[1..] + b;
      SelectedConcat(a[1..], b, j);
      var head := if a[0].mHashIdx == j then [a[0].mIdx] else [];
      assert Selected(a + b, j) == head + (Selected(a[1..], j) + Selected(b, j));
    }
  }

  lemma {:induction false} CountConcat(a: seq<nat>, b: seq<nat>, i: nat)
    ensures CountOf(a + b, i) == CountOf(a, i) + CountOf(b, i)
  {
    if a == [] {
      assert a + b == b;
    } else {
      assert (a + b)[1..] == a[1..] + b;
      CountConcat(a[1..], b, i);
    }
  }

  lemma {:induction false} SelectedCounts(l: seq<Item>, j: nat, i: nat)
    ensures CountOf(Selected(l, j), i) == Occurs(l, Item(i, j))
  {
    if l != [] {
      SelectedCounts(l[1..], j, i);
      var head := if l[0].mHashIdx == j then [l[0].mIdx] else [];
      CountConcat(head, Selected(l[1..], j), i);
      assert CountOf(head, i) == Same(l[0], Item(i, j));
    }
  }

  /** Occurrences of the numbers below n, added up. */
  function CountBelow(s: seq<nat>, n: nat): nat {
    if n == 0 then 0 else CountBelow(s, n - 1) + CountOf(s, n - 1)
  }

  lemma {:induction false} CountBelowConcat(x: nat, s: seq<nat>, n: nat)
    ensures CountBelow([x] + s, n) == CountBelow(s, n) + if x < n then 1 else 0
  {
    if n > 0 {
      CountBelowConcat(x, s, n - 1);
      assert ([x] + s)[1..] == s;
    }
  }

  lemma {:induction false} LengthIsCount(s: seq<nat>, n: nat)
    requires forall p | 0 <= p < |s| :: s[p] < n
    ensures |s| == CountBelow(s, n)
  {
    if s == [] {
      EmptyCount(n);
    } else {
      LengthIsCount(s[1..], n);
      CountBelowConcat(s[0], s[1..], n);
      assert s == [s[0]] + s[1..];
    }
  }

  lemma {:induction false} EmptyCount(n: nat)
    ensures CountBelow([], n) == 0
  {
    if n > 0 { EmptyCount(n - 1); }
  }

  lemma {:induction false} OnesCount(s: seq<nat>, n: nat)
    requires forall i | 0 <= i < n :: CountOf(s, i) == 1
    ensures CountBelow(s, n) == n
  {
    if n > 0 { OnesCount(s, n - 1); }
  }

  lemma {:induction false} CountedIsMember(s: seq<nat>, i: nat)
    ensures CountOf(s, i) > 0 <==> i in s
  {
    if s != [] { CountedIsMember(s[1..], i); }
  }

  /** A number counted once sits at one position only. */
  lemma {:induction false} CountedOnce(s: seq<nat>, p: nat, q: nat)
    requires p < q < |s| && s[p] == s[q]
    ensures CountOf(s, s[p]) >= 2
  {
    if p == 0 {
      assert s[1..][q - 1] == s[p];
      CountedIsMember(s[1..], s[p]);
    } else {
      CountedOnce(s[1..], p - 1, q - 1);
    }
  }

  /** A list of each number below n, exactly once. */
  ghost predicate IsPermutation(s: seq<nat>, n: nat) {
    && |s| == n
    && (forall p | 0 <= p < n :: s[p] < n)
    && (forall p, q | 0 <= p < q < n :: s[p] != s[q])
    && (forall i | 0 <= i < n :: i in s)
  }

  lemma OnceEachIsPermutation(s: seq<nat>, n: nat)
    requires forall p | 0 <= p < |s| :: s[p] < n
    requires forall i | 0 <= i < n :: CountOf(s, i) == 1
    ensures IsPermutation(s, n)
  {
    LengthIsCount(s, n);
    OnesCount(s, n);
    forall p, q | 0 <= p < q < n ensures s[p] != s[q] {
      if s[p] == s[q] { CountedOnce(s, p, q); }
    }
    forall i | 0 <= i < n ensures i in s { CountedIsMember(s, i); }
  }

  lemma {:induction false} BinListItems(addrs: Addrs, n: nat, binCount: nat, b: nat, k: nat, p: nat)
    requires AddrTable(addrs, n, binCount) && k <= 3 * n && p < |BinList(addrs, n, binCount, b, k)|
    ensures var x := BinList(addrs, n, binCount, b, k)[p]; x.mIdx < n && x.mHashIdx < 3 && addrs[x.mHashIdx][x.mIdx] == b
  {
    if p < |BinList(addrs, n, binCount, b, k - 1)| {
      BinListItems(addrs, n, binCount, b, k - 1, p);
    }
  }

  lemma {:induction false} AllBinsItems(addrs: Addrs, n: nat, binCount: nat, b: nat, p: nat)
    requires AddrTable(addrs, n, binCount) && p < |AllBins(addrs, n, binCount, b)|
    ensures var x := AllBins(addrs, n, binCount, b)[p]; x.mIdx < n && x.mHashIdx < 3
  {
    var before := AllBins(addrs, n, binCount, b - 1);
    if p < |before| {
      AllBinsItems(addrs, n, binCount, b - 1, p);
    } else {
      BinListItems(addrs, n, binCount, b - 1, 3 * n, p - |before|);
    }
  }

  lemma {:induction false} SelectedItems(l: seq<Item>, j: nat, n: nat)
    requires forall p | 0 <= p < |l| :: l[p].mIdx < n
    ensures forall p | 0 <= p < |Selected(l, j)| :: Selected(l, j)[p] < n
  {
    if l != [] { SelectedItems(l[1..], j, n); }
  }

  /** Walking all bins, the items met under hash function j are a permutation of all n items. */
  lemma SelectedIsPermutation(addrs: Addrs, n: nat, binCount: nat, j: nat)
    requires AddrTable(addrs, n, binCount) && j < 3
    ensures IsPermutation(Selected(AllBins(addrs, n, binCount, binCount), j), n)
  {
    var l := AllBins(addrs, n, binCount, binCount);
    forall p | 0 <= p < |l| ensures l[p].mIdx < n { AllBinsItems(addrs, n, binCount, binCount, p); }
    SelectedItems(l, j, n);
    forall i | 0 <= i < n ensures CountOf(Selected(l, j), i) == 1 {
      SelectedCounts(l, j, i);
      AllPlacedOnce(addrs, n, binCount, binCount, i, j);
    }
    OnceEachIsPermutation(Selected(l, j), n);
  }
}
