/** The Naor-Pinkas base OTs: why the keys agree, and the receiver's and sender's threads. */
module NaorPinkas {
  import opened Arith
  import opened Bits
  import Encodings

  /** An abelian group whose elements can be written to bytes and read back. */
  datatype Group<!E(!new)> = Group(mul: (E, E) -> E, inv: E -> E, one: E, generator: E, toBytes: E -> seq<bool>, fromBytes: seq<bool> -> E)
  {
    ghost predicate Valid() {
      && (forall a, b :: mul(a, b) == mul(b, a))
      && (forall a, b, c :: mul(mul(a, b), c) == mul(a, mul(b, c)))
      && (forall a :: mul(a, one) == a && mul(a, inv(a)) == one)
      && (forall a :: fromBytes(toBytes(a)) == a)
    }

    function Div(a: E, b: E): E { mul(a, inv(b)) }

    function Pow(a: E, k: nat): E { if k == 0 then one else mul(a, Pow(a, k - 1)) }
  }

  lemma MulComm<E(!new)>(g: Group<E>, a: E, b: E)
    requires g.Valid()
    ensures g.mul(a, b) == g.mul(b, a)
  {}

  lemma MulAssoc<E(!new)>(g: Group<E>, a: E, b: E, c: E)
    requires g.Valid()
    ensures g.mul(g.mul(a, b), c) == g.mul(a, g.mul(b, c))
  {}

  lemma OneLaws<E(!new)>(g: Group<E>, a: E)
    requires g.Valid()
    ensures g.mul(a, g.one) == a && g.mul(g.one, a) == a && g.mul(a, g.inv(a)) == g.one && g.fromBytes(g.toBytes(a)) == a
  {
    MulComm(g, a, g.one);
  }

  lemma Interchange<E(!new)>(g: Group<E>, a: E, b: E, c: E, d: E)
    requires g.Valid()
    ensures g.mul(g.mul(a, b), g.mul(c, d)) == g.mul(g.mul(a, c), g.mul(b, d))
  {
    hide Group.Valid;
    MulAssoc(g, a, b, g.mul(c, d));
    MulAssoc(g, b, c, d);
    MulComm(g, b, c);
    MulAssoc(g, c, b, d);
    MulAssoc(g, a, c, g.mul(b, d));
  }

  lemma {:induction false} PowProduct<E(!new)>(g: Group<E>, a: E, b: E, k: nat)
    requires g.Valid()
    ensures g.Pow(g.mul(a, b), k) == g.mul(g.Pow(a, k), g.Pow(b, k))
  {
    hide Group.Valid;
    if k == 0 {
      OneLaws(g, g.one);
    } else {
      PowProduct(g, a, b, k - 1);
      Interchange(g, a, b, g.Pow(a, k - 1), g.Pow(b, k - 1));
    }
  }

  lemma {:induction false} PowAdd<E(!new)>(g: Group<E>, a: E, j: nat, k: nat)
    requires g.Valid()
    ensures g.Pow(a, j + k) == g.mul(g.Pow(a, j), g.Pow(a, k))
  {
    hide Group.Valid;
    if j == 0 {
      OneLaws(g, g.Pow(a, k));
    } else {
      PowAdd(g, a, j - 1, k);
      MulAssoc(g, a, g.Pow(a, j - 1), g.Pow(a, k));
    }
  }

  /** The first powers, from which PowAdd gives the others. */
  lemma FirstPowers<E(!new)>(g: Group<E>, a: E)
    requires g.Valid()
    ensures g.Pow(a, 0) == g.one && g.Pow(a, 1) == a
  {
    assert g.Pow(a, 1) == g.mul(a, g.Pow(a, 0));
  }

  /** Powers commute: (a^j)^k = (a^k)^j. */
  lemma {:induction false} PowSwap<E(!new)>(g: Group<E>, a: E, j: nat, k: nat)
    requires g.Valid()
    ensures g.Pow(g.Pow(a, j), k) == g.Pow(g.Pow(a, k), j)
  {
    hide Group.Valid;
    if j == 0 {
      OnePow(g, k);
    } else {
      PowSwap(g, a, j - 1, k);
      PowProduct(g, a, g.Pow(a, j - 1), k);
    }
  }

  lemma {:induction false} OnePow<E(!new)>(g: Group<E>, k: nat)
    requires g.Valid()
    ensures g.Pow(g.one, k) == g.one
  {
    hide Group.Valid;
    if k > 0 {
      OnePow(g, k - 1);
      OneLaws(g, g.one);
    }
  }

  /** Dividing c^k by (c / x)^k leaves x^k. */
  lemma QuotientPower<E(!new)>(g: Group<E>, c: E, x: E, k: nat)
    requires g.Valid()
    ensures g.Div(g.Pow(c, k), g.Pow(g.Div(c, x), k)) == g.Pow(x, k)
  {
    hide Group.Valid;
    var q := g.Div(c, x);
    MulAssoc(g, c, g.inv(x), x);
    MulComm(g, g.inv(x), x);
    OneLaws(g, x);
    OneLaws(g, c);
    assert g.mul(q, x) == c;
    PowProduct(g, q, x, k);
    var p, r := g.Pow(q, k), g.Pow(x, k);
    MulComm(g, p, r);
    MulAssoc(g, r, p, g.inv(p));
    OneLaws(g, p);
    OneLaws(g, r);
  }

  /** The values both parties start from: the sender's secret and its second point, the receiver's exponents and choices. */
  datatype Secrets<!E(!new)> = Secrets(g: Group<E>, sha: Hash, alpha: nat, c1: E, ks: seq<nat>, choices: seq<bool>)
  {
    ghost predicate Valid() { g.Valid() && |ks| == |choices| }

    function C0(): E { g.Pow(g.generator, alpha) }

    /** What the receiver puts in its buffer for message i, from the second point it was sent. */
    function KeyFor(c: E, i: nat): E
      requires i < |ks| == |choices|
    {
      var sigma := g.Pow(g.generator, ks[i]);
      if choices[i] then g.Div(c, sigma) else sigma
    }

    function PK0(i: nat): E
      requires i < |ks| == |choices|
    {
      KeyFor(c1, i)
    }

    /** The receiver's message i, from the first point it was sent. */
    function MessageFrom(c: E, i: nat): Block
      requires i < |ks|
    {
      DigestBlock(sha(Binary(i, 64) + g.toBytes(g.Pow(c, ks[i]))))
    }

    function Own(i: nat): Block
      requires i < |ks|
    {
      MessageFrom(C0(), i)
    }

    /** The sender's two messages i, from the bytes received for it. */
    function Pair(i: nat, bytes: seq<bool>): BlockPair {
      var pk0a := g.Pow(g.fromBytes(bytes), alpha);
      BlockPair.Pair(DigestBlock(sha(Binary(i, 64) + g.toBytes(pk0a))),
                     DigestBlock(sha(Binary(i, 64) + g.toBytes(g.Div(g.Pow(c1, alpha), pk0a)))))
    }

    /** The receiver's message i is the digest of its number and the bytes of a power of the sender's first point. */
    lemma OwnIs(i: nat) returns (input: seq<bool>)
      requires i < |ks| && i < 0x1_0000_0000_0000_0000
      ensures |input| >= 64 && Value(input[..64]) == i && input[64..] == g.toBytes(g.Pow(g.Pow(g.generator, alpha), ks[i]))
      ensures Own(i) == sha(input)[..128]
    {
      input := Binary(i, 64) + g.toBytes(g.Pow(C0(), ks[i]));
      Pow2Of64();
      Encodings.SmallBinaryValue(i, 64);
    }

    /** The sender's values for a key it was sent are the digests of the number and the bytes of k = key^alpha and of
        c1^alpha / k; so of different strings when these points have different bytes. */
    lemma PairIs(i: nat, bytes: seq<bool>) returns (a: seq<bool>, b: seq<bool>, k: E, l: E)
      requires i < 0x1_0000_0000_0000_0000
      ensures k == g.Pow(g.fromBytes(bytes), alpha) && l == g.Div(g.Pow(c1, alpha), k)
      ensures |a| >= 64 && Value(a[..64]) == i && a[64..] == g.toBytes(k)
      ensures |b| >= 64 && Value(b[..64]) == i && b[64..] == g.toBytes(l)
      ensures (a == b <==> g.toBytes(k) == g.toBytes(l)) && Pair(i, bytes).m0 == sha(a)[..128] && Pair(i, bytes).m1 == sha(b)[..128]
    {
      k := g.Pow(g.fromBytes(bytes), alpha);
      l := g.Div(g.Pow(c1, alpha), k);
      a, b := Binary(i, 64) + g.toBytes(k), Binary(i, 64) + g.toBytes(l);
      Pow2Of64();
      Encodings.SmallBinaryValue(i, 64);
      assert a[..64] == b[..64] == Binary(i, 64) && a[64..] == g.toBytes(k) && b[64..] == g.toBytes(l);
    }

    /** And different points have different bytes. */
    lemma BytesDiffer(k: E, l: E)
      requires Valid()
      ensures g.toBytes(k) == g.toBytes(l) <==> k == l
    {
      hide Group.Valid;
      OneLaws(g, k);
      OneLaws(g, l);
    }

    /** The receiver's message is the sender's at the choice bit. */
    lemma KeysAgree(i: nat)
      requires Valid() && i < |ks|
      ensures Own(i) == Pair(i, g.toBytes(PK0(i))).At(choices[i])
    {
      hide Group.Valid;
      OneLaws(g, PK0(i));
      var sigma := g.Pow(g.generator, ks[i]);
      PowSwap(g, g.generator, alpha, ks[i]);
      QuotientPower(g, c1, sigma, alpha);
    }
  }
}
