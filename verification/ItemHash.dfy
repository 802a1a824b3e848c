/** The fixed-key AES hashes of a party's items. */
module ItemHash {
  import opened Arith
  import opened Bits
  import opened Cuckoo
  import opened Prng
  import Encodings

  const STEP_SIZE: nat := 4096

  /** The key of hash function k: the number k in both 64-bit halves. */
  function HashKey(k: nat): Block { Binary(k, 64) + Binary(k, 64) }

  /** As a number the key of function k is k + 2^64 k; so the keys of different functions differ. */
  lemma HashKeyValue(k: nat)
    requires k < TWO64
    ensures Value(HashKey(k)) == k + TWO64 * k
  {
    Pow2Of64();
    Encodings.SmallBinaryValue(k, 64);
    Encodings.ValueConcat(Binary(k, 64), Binary(k, 64));
  }

  /** All four hash blocks of every item. */
  function ItemHashes(aes: Cipher, inputs: seq<Block>): (h: Hashes)
    ensures |h| == 4 && forall k | 0 <= k < 4 :: |h[k]| == |inputs|
  {
    [KeyedHashes(aes, inputs, 0), KeyedHashes(aes, inputs, 1), KeyedHashes(aes, inputs, 2), KeyedHashes(aes, inputs, 3)]
  }

  function KeyedHashes(aes: Cipher, inputs: seq<Block>, k: nat): (h: seq<Block>)
    ensures |h| == |inputs|
  {
    seq<Block>(|inputs|, i requires 0 <= i < |inputs| => aes(HashKey(k), inputs[i]))
  }

  /** Hash block k of item i is the item encrypted under the key of value k + 2^64 k. */
  lemma ItemHashIs(aes: Cipher, inputs: seq<Block>, k: nat, i: nat) returns (key: Block)
    requires k < 4 && i < |inputs|
    ensures Value(key) == k + TWO64 * k && ItemHashes(aes, inputs)[k][i] == aes(key, inputs[i])
  {
    key := HashKey(k);
    HashKeyValue(k);
  }

  /** Equal items have equal hashes, whoever owns them. */
  lemma SameItemSameHashes(aes: Cipher, a: seq<Block>, b: seq<Block>, i: nat, j: nat, k: nat)
    requires i < |a| && j < |b| && a[i] == b[j] && k < 4
    ensures ItemHashes(aes, a)[k][i] == ItemHashes(aes, b)[k][j]
  {}

  /** The batched hashing loop of both parties. */
  method HashItems(aes: Cipher, inputs: seq<Block>) returns (hashs: Hashes)
    ensures hashs == ItemHashes(aes, inputs)
  {
    var h0, h1, h2, h3: seq<Block> := [], [], [], [];
    var i := 0;
    while i < |inputs|
      invariant 0 <= i
      invariant var done := if i < |inputs| then i else |inputs|;
        && h0 == KeyedHashes(aes, inputs, 0)[..done] && h1 == KeyedHashes(aes, inputs, 1)[..done]
        && h2 == KeyedHashes(aes, inputs, 2)[..done] && h3 == KeyedHashes(aes, inputs, 3)[..done]
    {
      var step := if STEP_SIZE < |inputs| - i then STEP_SIZE else |inputs| - i;
      var part := inputs[i..i + step];
      h0 := h0 + KeyedHashes(aes, part, 0);
      h1 := h1 + KeyedHashes(aes, part, 1);
      h2 := h2 + KeyedHashes(aes, part, 2);
      h3 := h3 + KeyedHashes(aes, part, 3);
      i := i + STEP_SIZE;
    }
    assert forall k | 0 <= k < 4 :: KeyedHashes(aes, inputs, k)[..|inputs|] == KeyedHashes(aes, inputs, k);
    hashs := [h0, h1, h2, h3];
  }
}
