/** What the byte views of Bits mean: numbers as bit strings, words of blocks, prefixes of rows. */
module Encodings {
  import opened Arith
  import opened Bits

  lemma HalfThenDivide(n: nat, d: nat)
    requires d > 0
    ensures n / 2 / d == n / (2 * d)
  {
    var q := n / (2 * d);
    assert n == (2 * d) * q + n % (2 * d);
    assert (2 * d) * q == 2 * (d * q);
    DivUnique(n / 2, d, q);
  }

  /** Bit i of a number is its bit of weight 2^i. */
  lemma {:induction false} BinaryAt(n: nat, len: nat, i: nat)
    requires i < len
    ensures Binary(n, len)[i] <==> n / Pow2(i) % 2 == 1
  {
    if i > 0 {
      BinaryAt(n / 2, len - 1, i - 1);
      HalfThenDivide(n, Pow2(i - 1));
    }
  }

  /** The digits of a number stand for it, up to their count. */
  lemma {:induction false} BinaryValue(n: nat, len: nat)
    ensures Value(Binary(n, len)) == n % Pow2(len)
  {
    if len > 0 {
      var p := Pow2(len - 1);
      BinaryValue(n / 2, len - 1);
      assert Binary(n, len)[1..] == Binary(n / 2, len - 1);
      assert n / 2 == p * (n / 2 / p) + n / 2 % p;
      assert (2 * p) * (n / 2 / p) == 2 * (p * (n / 2 / p));
      DivUnique(n, 2 * p, n / 2 / p);
    }
  }

  /** A number below 2^len keeps its value. */
  lemma SmallBinaryValue(n: nat, len: nat)
    requires n < Pow2(len)
    ensures Value(Binary(n, len)) == n
  {
    BinaryValue(n, len);
    DivUnique(n, Pow2(len), 0);
  }

  /** Every bit string is the digits of its value. */
  lemma {:induction false} ValueBinary(b: seq<bool>)
    ensures Value(b) < Pow2(|b|) && Binary(Value(b), |b|) == b
  {
    if b != [] { ValueBinary(b[1..]); }
  }

  lemma {:induction false} ValueConcat(a: seq<bool>, b: seq<bool>)
    ensures Value(a + b) == Value(a) + Pow2(|a|) * Value(b)
  {
    if a == [] {
      assert a + b == b;
    } else {
      ValueConcat(a[1..], b);
      assert (a + b)[1..] == a[1..] + b;
      assert Pow2(|a|) * Value(b) == 2 * (Pow2(|a| - 1) * Value(b));
    }
  }

  /** The word read from a block is the block's value modulo 2^64. */
  lemma Word64Value(b: Block)
    ensures Word64(b) == Value(b) % 0x1_0000_0000_0000_0000
  {
    Pow2Of64();
    ValueConcat(b[..64], b[64..]);
    ValueBinary(b[..64]);
    assert b == b[..64] + b[64..];
    DivUnique(Value(b), Pow2(64), Value(b[64..]));
  }

  /** SHA-1 is fed the bits of the row itself, block after block. */
  lemma RowPrefixAt(r: Row, n: nat, b: nat, k: nat)
    requires n <= 64 && b < 4 && k < 128 && 128 * b + k < 8 * n
    ensures RowPrefix(r, n)[128 * b + k] == r[b][k]
  {
    FlatAt(r, b, k);
  }

  /** The bits of two rows agree in their first n bytes. */
  ghost predicate SameBytes(v: Row, w: Row, n: nat) {
    forall b, k | 0 <= b < 4 && 0 <= k < 128 && 128 * b + k < 8 * n :: v[b][k] == w[b][k]
  }

  lemma RowPrefixSame(v: Row, w: Row, n: nat)
    requires n <= 64
    ensures RowPrefix(v, n) == RowPrefix(w, n) <==> SameBytes(v, w, n)
  {
    forall b, k | 0 <= b < 4 && 0 <= k < 128 && 128 * b + k < 8 * n
      ensures RowPrefix(v, n)[128 * b + k] == v[b][k] && RowPrefix(w, n)[128 * b + k] == w[b][k]
    {
      RowPrefixAt(v, n, b, k);
      RowPrefixAt(w, n, b, k);
    }
    if SameBytes(v, w, n) {
      forall i | 0 <= i < 8 * n ensures RowPrefix(v, n)[i] == RowPrefix(w, n)[i] {
        assert i == 128 * (i / 128) + i % 128;
        assert v[i / 128][i % 128] == w[i / 128][i % 128];
      }
    } else {
      var b, k :| 0 <= b < 4 && 0 <= k < 128 && 128 * b + k < 8 * n && v[b][k] != w[b][k];
      assert RowPrefix(v, n)[128 * b + k] != RowPrefix(w, n)[128 * b + k];
    }
  }
}
