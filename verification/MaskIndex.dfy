/** The receiver's index of its own masks, keyed by their first eight bytes. */
module MaskIndex {
  import opened Bits
  import opened Oprf

  /** A local mask, padded to a block, and the item it belongs to. */
  datatype Entry = Entry(mask: Block, idx: nat)

  type Index = map<seq<bool>, Entry>

  /** Every entry sits under its own mask's first eight bytes. */
  ghost predicate KeyedByMask(index: Index, ms: nat)
    requires ms <= 16
  {
    forall k | k in index :: index[k].mask == Padded(index[k].mask[..8 * ms]) && k == index[k].mask[..64]
  }

  /** emplace: a second mask with the same key is dropped. */
  function Emplace(index: Index, mask: seq<bool>, idx: nat): (r: Index)
    requires |mask| <= 128
  {
    if Key(mask) in index then index else index[Key(mask) := Entry(Padded(mask), idx)]
  }

  lemma EmplaceKeepsKeys(index: Index, mask: seq<bool>, idx: nat, ms: nat)
    requires ms <= 16 && |mask| == 8 * ms && KeyedByMask(index, ms)
    ensures KeyedByMask(Emplace(index, mask, idx), ms)
  {
    assert Padded(mask)[..8 * ms] == mask;
  }

  /** The item, if any, whose whole mask is m. */
  function Match(index: Index, m: seq<bool>): (r: seq<nat>)
    requires |m| <= 128
  {
    if Key(m) in index && index[Key(m)].mask[..|m|] == m then [index[Key(m)].idx] else []
  }

  /** An entry whose mask starts with m can only be found under m's key. */
  lemma FullScanAgrees(index: Index, m: seq<bool>, ms: nat, k: seq<bool>)
    requires ms <= 16 && |m| == 8 * ms && KeyedByMask(index, ms) && k in index
    ensures index[k].mask[..8 * ms] == m ==> k == Key(m)
  {}

  /** The two branches of the receiver's search: by 64-bit prefix when masks are that long, else by scanning all entries.
      The scan meets the entries in any order. */
  method FindMatch(index: Index, m: seq<bool>, ms: nat) returns (r: seq<nat>)
    requires ms <= 16 && |m| == 8 * ms && KeyedByMask(index, ms)
    ensures r == Match(index, m)
  {
    r := [];
    if ms >= 8 {
      var msk := m[..64];
      assert msk == Key(m);
      if msk in index && index[msk].mask[..8 * ms] == m {
        r := [index[msk].idx];
      }
    } else {
      var rest := index.Keys;
      while rest != {}
        invariant rest <= index.Keys
        invariant r == if Key(m) in index && Key(m) !in rest then Match(index, m) else []
        decreases |rest|
      {
        var k :| k in rest;
        FullScanAgrees(index, m, ms, k);
        if index[k].mask[..8 * ms] == m {
          r := r + [index[k].idx];
        }
        rest := rest - {k};
      }
    }
  }
}
