/** Arithmetic on residues modulo p, kept either plainly or in Montgomery form. */
module Modp {
  import opened Arith
  import opened Limbs
  import opened Modular
  import opened Montgomery

  /** Division by 2 modulo an odd p. */
  function Half(v: nat, p: nat): (h: nat)
    requires p % 2 == 1 && v < p
    ensures h < p && Cong(2 * h, v, p)
  {
    CongFrom(v + p, v, 1, p);
    if v % 2 == 0 then v / 2 else (v + p) / 2
  }

  /** Division by 2^n modulo an odd p. */
  function Halved(v: nat, n: nat, p: nat): (h: nat)
    requires p % 2 == 1 && v < p
    ensures h < p
  {
    if n == 0 then v else Half(Halved(v, n - 1, p), p)
  }

  lemma MoveTwo(q: int, h: int)
    ensures q * (2 * h) == (2 * q) * h
  {}

  lemma {:induction false} HalvedTimes(v: nat, n: nat, p: nat)
    requires p % 2 == 1 && v < p
    ensures Cong(Pow(2, n) * Halved(v, n, p), v, p)
  {
    if n > 0 {
      HalvedTimes(v, n - 1, p);
      var h := Halved(v, n, p);
      var q := Pow(2, n - 1);
      CongMul(q, q, 2 * h, Halved(v, n - 1, p), p);
      MoveTwo(q, h);
    }
  }

  /** A factor 2 can be cancelled modulo an odd p. */
  lemma CancelTwo(m: int, p: nat)
    requires p % 2 == 1 && Divides(p, 2 * m)
    ensures Divides(p, m)
  {
    var k := 2 * m / p;
    assert 2 * m == p * k;
    assert k % 2 == 0 by {
      if k % 2 == 1 {
        assert p * k == (2 * (p / 2) + 1) * (2 * (k / 2) + 1);
        OddProduct(p / 2, k / 2);
      }
    }
    assert p * k == 2 * (p * (k / 2)) by { assert k == 2 * (k / 2); }
    DividesBy(p, m, k / 2);
  }

  lemma OddProduct(a: int, b: int)
    ensures (2 * a + 1) * (2 * b + 1) == 2 * (2 * (a * b) + a + b) + 1
  {
    assert (2 * a + 1) * (2 * b + 1) == (2 * a) * (2 * b) + 2 * a + 2 * b + 1;
    assert (2 * a) * (2 * b) == 4 * (a * b);
  }

  lemma {:induction false} CancelPow(n: nat, m: int, p: nat)
    requires p % 2 == 1 && Divides(p, Pow(2, n) * m)
    ensures Divides(p, m)
  {
    if n > 0 {
      assert Pow(2, n) * m == Pow(2, n - 1) * (2 * m);
      CancelPow(n - 1, 2 * m, p);
      CancelTwo(m, p);
    }
  }

  /** A limb holds 64 bits. */
  lemma LimbBits()
    ensures Pow(2, 64) == B
  {
    assert Pow(2, 8) == 0x100;
    PowAdd(2, 8, 8);
    PowAdd(2, 16, 16);
    PowAdd(2, 32, 32);
  }

  lemma {:induction false} BPowBits(t: nat)
    ensures BPow(t) == Pow(2, 64 * t)
  {
    if t > 0 {
      BPowBits(t - 1);
      LimbBits();
      PowAdd(2, 64, 64 * (t - 1));
    }
  }

  lemma Commute(a: int, b: int)
    ensures a * b == b * a
  {}

  lemma Distribute(a: int, b: int, r: int)
    ensures (a + b) * r == a * r + b * r && (a - b) * r == a * r - b * r
  {}

  /** How residues modulo p are kept: t limbs, plain or in Montgomery form. */
  datatype Rep = Rep(p: nat, t: nat, montgomery: bool) {
    ghost predicate Valid() { p % 2 == 1 && p > 1 && t > 0 }

    /** What a residue is multiplied by when it is stored. */
    function Radix(): (r: nat)
      ensures r > 0
    {
      if montgomery then BPow(t) else 1
    }

    /** The residue a stored number stands for. */
    function Meaning(v: nat): (w: nat)
      requires Valid() && v < p
      ensures w < p
    {
      if montgomery then Halved(v, 64 * t, p) else v
    }

    lemma MeaningTimes(v: nat)
      requires Valid() && v < p
      ensures Cong(Meaning(v) * Radix(), v, p)
    {
      if montgomery {
        BPowBits(t);
        HalvedTimes(v, 64 * t, p);
        Commute(BPow(t), Meaning(v));
      }
    }

    /** Modulo p the radix can be cancelled. */
    lemma CancelRadix(a: int, b: int)
      requires Valid() && Cong(a * Radix(), b * Radix(), p)
      ensures Cong(a, b, p)
    {
      if montgomery {
        var r := Radix();
        assert a * r - b * r == r * (a - b);
        CongSub(a * r, b * r, b * r, b * r, p);
        SmallMod(0, p);
        BPowBits(t);
        CancelPow(64 * t, a - b, p);
        CongAdd(a - b, 0, b, b, p);
      }
    }

    /** A number standing for w modulo p stands for w reduced. */
    lemma MeaningIs(v: nat, w: int)
      requires Valid() && v < p && Cong(w * Radix(), v, p)
      ensures Meaning(v) == w % p
    {
      MeaningTimes(v);
      CancelRadix(Meaning(v), w);
      SmallMod(Meaning(v), p);
    }

    /** Stored as a number congruent to v, w is what v stands for. */
    ghost predicate Stands(w: int, v: int)
      requires Valid()
    {
      Cong(w * Radix(), v, p)
    }

    lemma MeaningStands(v: nat)
      requires Valid() && v < p
      ensures Stands(Meaning(v), v)
    {
      MeaningTimes(v);
    }

    lemma StandsIs(w: int, x: int, v: nat)
      requires Valid() && v < p && Stands(w, x) && Cong(v, x, p)
      ensures Meaning(v) == w % p
    {
      assert Cong(w * Radix(), v, p);
      MeaningIs(v, w);
    }

    lemma StandsLinear(a: int, x: int, b: int, y: int)
      requires Valid() && Stands(a, x) && Stands(b, y)
      ensures Stands(a + b, x + y) && Stands(a - b, x - y)
    {
      hide Radix, Cong;
      var r := Radix();
      CongAdd(a * r, x, b * r, y, p);
      CongSub(a * r, x, b * r, y, p);
      Distribute(a, b, r);
    }

    lemma StandsTimes(a: int, x: int, b: int, y: int, z: int)
      requires Valid() && Stands(a, x) && Stands(b, y) && Cong(z * Radix(), x * y, p)
      ensures Stands(a * b, z)
    {
      var r := Radix();
      CongMul(a * r, x, b * r, y, p);
      Interleave(a, r, b, r);
      var c := a * b;
      assert c * (r * r) == (c * r) * r;
      CancelRadix(c * r, z);
    }

    lemma SumMeaning(x: nat, y: nat, z: nat)
      requires Valid() && x < p && y < p && z < p && Cong(z, x + y, p)
      ensures Meaning(z) == (Meaning(x) + Meaning(y)) % p
    {
      hide Stands, Meaning, Cong;
      MeaningStands(x);
      MeaningStands(y);
      StandsLinear(Meaning(x), x, Meaning(y), y);
      StandsIs(Meaning(x) + Meaning(y), x + y, z);
    }

    lemma DifferenceMeaning(x: nat, y: nat, z: nat)
      requires Valid() && x < p && y < p && z < p && Cong(z, x - y, p)
      ensures Meaning(z) == (Meaning(x) - Meaning(y)) % p
    {
      hide Stands, Meaning, Cong;
      MeaningStands(x);
      MeaningStands(y);
      StandsLinear(Meaning(x), x, Meaning(y), y);
      StandsIs(Meaning(x) - Meaning(y), x - y, z);
    }

    lemma ProductMeaning(x: nat, y: nat, z: nat)
      requires Valid() && x < p && y < p && z < p && Cong(z * Radix(), x * y, p)
      ensures Meaning(z) == Meaning(x) * Meaning(y) % p
    {
      hide Stands, Meaning;
      MeaningStands(x);
      MeaningStands(y);
      StandsTimes(Meaning(x), x, Meaning(y), y, z);
      StandsIs(Meaning(x) * Meaning(y), z, z);
    }
  }

  /** The representation a ZpData stands for. */
  ghost function RepOf(zp: ZpData): (r: Rep)
    reads zp
    requires zp.Modulus()
    ensures r.Valid()
  {
    Rep(zp.pr, zp.t, zp.montgomery)
  }

  /** A stored residue: the buffer's t limbs are below p and the limb above is clear. */
  ghost predicate Stored(x: array<Limb>, zp: ZpData)
    reads x, zp
  {
    zp.Modulus() && x.Length == MAX_MOD_SZ && x[zp.t] == 0 && Num(x[..zp.t]) < zp.pr
  }

  /** The residue x stands for. */
  ghost function Residue(x: array<Limb>, zp: ZpData): (w: nat)
    reads x, zp
    requires Stored(x, zp)
    ensures w < zp.pr
  {
    RepOf(zp).Meaning(Num(x[..zp.t]))
  }

  /** Taking away p once, when the sum reached it. */
  lemma SumReduced(sum: nat, z: nat, p: nat)
    requires p > 0 && sum < 2 * p && z == (if sum >= p then sum - p else sum)
    ensures z < p && Cong(z, sum, p)
  {
    CongFrom(sum, z, if sum >= p then 1 else 0, p);
  }

  /** Add; ans may be x or y. */
  method Add(ans: array<Limb>, x: array<Limb>, y: array<Limb>, zp: ZpData)
    requires zp.Valid() && Stored(x, zp) && Stored(y, zp) && ans.Length == MAX_MOD_SZ && ans[zp.t] == 0
    modifies ans
    ensures Stored(ans, zp) && Residue(ans, zp) == old(Residue(x, zp) + Residue(y, zp)) % zp.pr
  {
    hide Rep.Meaning, Num, Cong;
    ghost var a, b := Num(x[..zp.t]), Num(y[..zp.t]);
    AddReduced(ans, x[..zp.t], y[..zp.t], zp);
    RepOf(zp).SumMeaning(a, b, Num(ans[..zp.t]));
  }

  /** The limb work of Add: one addition and at most one subtraction of p. */
  method AddReduced(ans: array<Limb>, x: seq<Limb>, y: seq<Limb>, zp: ZpData)
    requires zp.Modulus() && |x| == |y| == zp.t && Num(x) < zp.pr && Num(y) < zp.pr && ans.Length == MAX_MOD_SZ
    modifies ans
    ensures ans[zp.t..] == old(ans[zp.t..]) && Num(ans[..zp.t]) < zp.pr && Cong(Num(ans[..zp.t]), Num(x) + Num(y), zp.pr)
  {
    var carry := AddN(ans, x, y);
    ghost var low := Num(ans[..zp.t]);
    var c := Cmp(ans[..zp.t], zp.prA[..zp.t]);
    if carry != 0 || c >= 0 {
      var borrow := SubN(ans, ans[..zp.t], zp.prA[..zp.t]);
      zp.SubtractOnce(Num(ans[..zp.t]), low, carry, borrow, ans[..zp.t]);
    }
    SumReduced(Num(x) + Num(y), Num(ans[..zp.t]), zp.pr);
  }

  /** Adding p back when the difference borrowed. */
  lemma DifferenceReduced(x: nat, y: nat, z: nat, d: nat, p: nat, b: nat, carry: nat, borrow: nat)
    requires x < p && y < p && p < b && d + y == x + b * borrow && borrow <= 1 && d < b
    requires if borrow == 0 then z == d else z + b * carry == d + p && z < b
    ensures z < p && Cong(z, x - y, p)
  {
    if borrow == 1 {
      assert d == x - y + b;
      SameDigit(x - y + p, z, b, 1, carry);
      CongFrom(x - y + p, x - y, 1, p);
    }
  }

  /** Sub; ans may be x or y. */
  method Sub(ans: array<Limb>, x: array<Limb>, y: array<Limb>, zp: ZpData)
    requires zp.Valid() && Stored(x, zp) && Stored(y, zp) && ans.Length == MAX_MOD_SZ && ans[zp.t] == 0
    modifies ans
    ensures Stored(ans, zp) && Residue(ans, zp) == (old(Residue(x, zp)) - old(Residue(y, zp))) % zp.pr
  {
    hide Rep.Meaning, Num, Cong;
    ghost var a, b := Num(x[..zp.t]), Num(y[..zp.t]);
    SubReduced(ans, x[..zp.t], y[..zp.t], zp);
    RepOf(zp).DifferenceMeaning(a, b, Num(ans[..zp.t]));
  }

  /** The limb work of Sub: one subtraction and at most one addition of p. */
  method SubReduced(ans: array<Limb>, x: seq<Limb>, y: seq<Limb>, zp: ZpData)
    requires zp.Modulus() && |x| == |y| == zp.t && Num(x) < zp.pr && Num(y) < zp.pr && ans.Length == MAX_MOD_SZ
    modifies ans
    ensures ans[zp.t..] == old(ans[zp.t..]) && Num(ans[..zp.t]) < zp.pr && Cong(Num(ans[..zp.t]), Num(x) - Num(y), zp.pr)
  {
    NumBound(zp.prA[..zp.t]);
    var borrow := SubN(ans, x, y);
    ghost var d := Num(ans[..zp.t]);
    NumBound(ans[..zp.t]);
    var carry := 0;
    if borrow != 0 {
      carry := AddN(ans, ans[..zp.t], zp.prA[..zp.t]);
      NumBound(ans[..zp.t]);
    }
    DifferenceReduced(Num(x), Num(y), Num(ans[..zp.t]), d, zp.pr, BPow(zp.t), carry, borrow);
  }

  /** isZero. */
  method IsZero(x: array<Limb>, zp: ZpData) returns (zero: bool)
    requires Stored(x, zp)
    ensures zero <==> Num(x[..zp.t]) == 0
  {
    ZeroNum(x[..zp.t]);
    for i := 0 to zp.t
      invariant forall k | 0 <= k < i :: x[k] == 0
    {
      if x[i] != 0 {
        assert x[..zp.t][i] != 0;
        return false;
      }
    }
    zero := true;
  }

  /** Negate; ans may be x. */
  method Negate(ans: array<Limb>, x: array<Limb>, zp: ZpData)
    requires zp.Valid() && Stored(x, zp) && ans.Length == MAX_MOD_SZ && ans[zp.t] == 0
    modifies ans
    ensures Stored(ans, zp) && Residue(ans, zp) == (0 - old(Residue(x, zp))) % zp.pr
  {
    hide Rep.Meaning, Num, Cong;
    ghost var a: int := Num(x[..zp.t]);
    var zero := IsZero(x, zp);
    if zero {
      CopyI(ans, x[..]);
      assert ans[..] == old(x[..]) && ans[..zp.t] == old(x[..zp.t]);
      CongFrom(0, 0 - a, 0, zp.pr);
    } else {
      NegateLimbs(ans, x[..zp.t], zp);
    }
    ZeroMeaning(RepOf(zp));
    RepOf(zp).DifferenceMeaning(0, a, Num(ans[..zp.t]));
  }

  /** The limb work of Negate. */
  method NegateLimbs(ans: array<Limb>, x: seq<Limb>, zp: ZpData)
    requires zp.Modulus() && |x| == zp.t && 0 < Num(x) < zp.pr && ans.Length == MAX_MOD_SZ
    modifies ans
    ensures ans[zp.t..] == old(ans[zp.t..]) && Num(ans[..zp.t]) < zp.pr && Cong(Num(ans[..zp.t]), 0 - Num(x), zp.pr)
  {
    ghost var a: int := Num(x);
    var borrow := SubN(ans, zp.prA[..zp.t], x);
    NumBound(ans[..zp.t]);
    if borrow >= 1 { MulLe(1, borrow, BPow(zp.t)); }
    CongFrom(zp.pr - a, 0 - a, 1, zp.pr);
  }

  lemma ZeroMeaning(r: Rep)
    requires r.Valid()
    ensures r.Meaning(0) == 0
  {
    r.MeaningIs(0, 0);
    SmallMod(0, r.p);
  }

  /** mpn_mul_n followed by mpn_tdiv_qr: the remainder of the product, in t limbs. */
  function ProductRow(x: seq<Limb>, y: seq<Limb>, p: nat, t: nat): (r: seq<Limb>)
    requires p > 0
    ensures |r| == t
  {
    Digits(MulReduce(Num(x), Num(y), p), t)
  }

  method PlainMul(ans: array<Limb>, x: seq<Limb>, y: seq<Limb>, zp: ZpData)
    requires zp.Modulus() && |x| == |y| == zp.t && ans.Length == MAX_MOD_SZ
    modifies ans
    ensures ans[zp.t..] == old(ans[zp.t..]) && Num(ans[..zp.t]) < zp.pr && Cong(Num(ans[..zp.t]) * 1, Num(x) * Num(y), zp.pr)
  {
    CopyI(ans, ProductRow(x, y, zp.pr, zp.t));
    NumBound(zp.prA[..zp.t]);
    DigitsNum(MulReduce(Num(x), Num(y), zp.pr), zp.t);
    ModCong(Num(x) * Num(y), zp.pr);
  }

  /** Mul in either representation; ans may be x or y. */
  method Mul(ans: array<Limb>, x: array<Limb>, y: array<Limb>, zp: ZpData)
    requires zp.Valid() && Stored(x, zp) && Stored(y, zp) && ans.Length == MAX_MOD_SZ && ans[zp.t] == 0
    modifies ans
    ensures Stored(ans, zp) && Residue(ans, zp) == old(Residue(x, zp) * Residue(y, zp)) % zp.pr
  {
    ghost var a, b := Num(x[..zp.t]), Num(y[..zp.t]);
    if zp.montgomery {
      var ok := zp.MontMult(ans, x, y);
    } else {
      PlainMul(ans, x[..zp.t], y[..zp.t], zp);
    }
    RepOf(zp).ProductMeaning(a, b, Num(ans[..zp.t]));
  }

  /** assignOne. */
  method AssignOne(x: array<Limb>, zp: ZpData)
    requires zp.Valid() && x.Length == MAX_MOD_SZ
    modifies x
    ensures Stored(x, zp) && Residue(x, zp) == 1
  {
    if zp.montgomery {
      CopyI(x, zp.R[..zp.t + 1]);
      assert x[..zp.t] == zp.R[..zp.t];
      ModCong(BPow(zp.t), zp.pr);
    } else {
      CopyI(x, Zeros(zp.t + 1));
      x[0] := 1;
      OneNum(x[..zp.t]);
    }
    SmallMod(1, zp.pr);
    RepOf(zp).MeaningIs(Num(x[..zp.t]), 1);
  }

  lemma OneNum(s: seq<Limb>)
    requires s != [] && s[0] == 1 && forall k | 1 <= k < |s| :: s[k] == 0
    ensures Num(s) == 1
  {
    ZeroNum(s[1..]);
  }

  /** to_bigint. */
  method ToBigint(x: array<Limb>, zp: ZpData) returns (ans: nat)
    requires zp.Valid() && Stored(x, zp)
    ensures ans == Residue(x, zp)
  {
    var a := new Limb[MAX_MOD_SZ](_ => 0);
    if zp.montgomery {
      var one := new Limb[MAX_MOD_SZ](_ => 0);
      one[0] := 1;
      OneNum(one[..zp.t]);
      var ok := zp.MontMult(a, x, one);
      SmallMod(Num(a[..zp.t]), zp.pr);
      RepOf(zp).MeaningIs(Num(x[..zp.t]), Num(a[..zp.t]));
    } else {
      CopyI(a, x[..zp.t + 1]);
      assert a[..zp.t] == x[..zp.t];
    }
    ans := Num(a[..zp.t]);
  }

  /** to_modp of any integer. */
  method ToModp(ans: array<Limb>, x: int, zp: ZpData)
    requires zp.Valid() && ans.Length == MAX_MOD_SZ
    modifies ans
    ensures Stored(ans, zp) && Residue(ans, zp) == x % zp.pr
  {
    hide Num, BPow, Rep.Meaning;
    var xx := Rem(x, zp.pr);
    if xx < 0 {
      xx := xx + zp.pr;
    }
    RemReduced(x, zp.pr);
    SmallNumber(ans, xx, zp);
    if zp.montgomery {
      TimesR2(ans, xx, zp);
    }
    RepOf(zp).MeaningIs(Num(ans[..zp.t]), xx);
    SmallMod(xx, zp.pr);
  }

  lemma RemReduced(x: int, p: nat)
    requires p > 0
    ensures (if Rem(x, p) < 0 then Rem(x, p) + p else Rem(x, p)) == x % p
  {
    if x < 0 {
      ModCong(-x, p);
      CongSub(0, 0, -x % p, -x, p);
      CongFrom(-(-x % p) + p, -(-x % p), 1, p);
      if -x % p == 0 { SmallMod(0, p); } else { SmallMod(-(-x % p) + p, p); }
    }
  }

  /** zero the buffer, then copy the limbs of a reduced number. */
  method SmallNumber(ans: array<Limb>, v: nat, zp: ZpData)
    requires zp.Modulus() && ans.Length == MAX_MOD_SZ && v < zp.pr
    modifies ans
    ensures Stored(ans, zp) && Num(ans[..zp.t]) == v
  {
    NumBound(zp.prA[..zp.t]);
    LimbsOfFits(v, zp.t);
    LimbsOfNum(v);
    var l := LimbsOf(v);
    CopyI(ans, Zeros(zp.t + 1));
    CopyI(ans, l);
    FilledNum(l, zp.t);
    assert ans[..zp.t] == Filled(l)[..zp.t];
  }

  /** The constant R2 as an operand. */
  method R2Buffer(zp: ZpData) returns (r2: array<Limb>)
    requires zp.Valid() && zp.montgomery
    ensures fresh(r2) && r2.Length == MAX_MOD_SZ && r2[zp.t] == 0 && Num(r2[..zp.t]) == zp.RPower(2)
  {
    r2 := new Limb[MAX_MOD_SZ](i requires 0 <= i < MAX_MOD_SZ && |zp.R2| == MAX_MOD_SZ reads zp => zp.R2[i]);
    assert r2[..zp.t] == zp.R2[..zp.t];
  }

  /** The Montgomery multiplication of to_modp. */
  method TimesR2(ans: array<Limb>, ghost v: nat, zp: ZpData)
    requires zp.Valid() && zp.montgomery && Stored(ans, zp) && Num(ans[..zp.t]) == v
    modifies ans
    ensures Stored(ans, zp) && Cong(v * BPow(zp.t), Num(ans[..zp.t]), zp.pr)
  {
    var r2 := R2Buffer(zp);
    var ok := zp.MontMult(ans, ans, r2);
    RadixProduct(BPow(zp.t), v, zp.RPower(2), Num(ans[..zp.t]), zp);
  }

  /** Montgomery multiplication by R^2 multiplies by R. */
  lemma RadixProduct(r: nat, v: nat, r2: nat, z: nat, zp: ZpData)
    requires zp.Modulus() && zp.montgomery && r == BPow(zp.t) && r2 == zp.RPower(2) && z < zp.pr
    requires Cong(z * r, v * r2, zp.pr)
    ensures Cong(v * r, z, zp.pr)
  {
    var p, q := zp.pr, zp.RPower(1);
    ModCong(r, p);
    CongMul(q, r, q, r, p);
    ModCong(q * q, p);
    CongMul(v, v, r2, r * r, p);
    assert v * (r * r) == (v * r) * r;
    RepOf(zp).CancelRadix(v * r, z);
  }

  /** Square-and-multiply: one step of the loop keeps accumulator times base to the exponent. */
  lemma PowerStep(a: nat, b: nat, e: nat, p: nat)
    requires p > 0 && e > 0
    ensures var a' := if e % 2 == 1 then a * b % p else a; Cong(a' * Pow(b * b % p, e / 2), a * Pow(b, e), p)
  {
    var k := e / 2;
    assert Pow(b, 2) == b * b by { assert Pow(b, 1) == b * Pow(b, 0); }
    PowMul(b, 2, k);
    ModCong(b * b, p);
    PowCong(b * b % p, b * b, k, p);
    var q := Pow(b, 2 * k);
    if e % 2 == 1 {
      ModCong(a * b, p);
      CongMul(a * b % p, a * b, Pow(b * b % p, k), q, p);
      assert (a * b) * q == a * (b * q);
    } else {
      CongMul(a, a, Pow(b * b % p, k), q, p);
    }
  }

  /** What Power's loop keeps: ans times t to the remaining exponent. */
  ghost predicate Powering(ans: array<Limb>, t: array<Limb>, e: nat, target: int, zp: ZpData)
    reads ans, t, zp
  {
    zp.Valid() && Stored(ans, zp) && Stored(t, zp) && Cong(Residue(ans, zp) * Pow(Residue(t, zp), e), target, zp.pr)
  }

  /** The loop body of Power. */
  method PowerPass(ans: array<Limb>, t: array<Limb>, e: nat, ghost target: int, zp: ZpData)
    requires Powering(ans, t, e, target, zp) && e > 0 && ans != t
    modifies ans, t
    ensures Powering(ans, t, e / 2, target, zp)
  {
    ghost var a, b := Residue(ans, zp), Residue(t, zp);
    if e % 2 == 1 {
      Mul(ans, ans, t, zp);
    }
    Mul(t, t, t, zp);
    PowerStep(a, b, e, zp.pr);
  }

  /** Power, for exponents of either kind; false stands for the exception on a negative one. ans may be x. */
  method Power(ans: array<Limb>, x: array<Limb>, exp: int, zp: ZpData) returns (ok: bool)
    requires zp.Valid() && Stored(x, zp) && ans.Length == MAX_MOD_SZ
    modifies ans
    ensures ok <==> exp >= 0
    ensures ok ==> Stored(ans, zp) && Residue(ans, zp) == Pow(old(Residue(x, zp)), exp) % zp.pr
  {
    if exp == 1 {
      CopyBuffer(ans, x, zp);
      OneTimes(Residue(ans, zp), zp.pr);
      return true;
    }
    if exp == 0 {
      AssignOne(ans, zp);
      SmallMod(1, zp.pr);
      return true;
    }
    if exp < 0 {
      return false;
    }
    PowerLoop(ans, x, exp, zp);
    ok := true;
  }

  lemma OneTimes(r: nat, p: nat)
    requires r < p
    ensures Pow(r, 1) % p == r
  {
    assert Pow(r, 1) == r * Pow(r, 0);
    SmallMod(r, p);
  }

  /** Assignment of one modp to another. */
  method CopyBuffer(ans: array<Limb>, x: array<Limb>, zp: ZpData)
    requires zp.Valid() && Stored(x, zp) && ans.Length == MAX_MOD_SZ
    modifies ans
    ensures Stored(ans, zp) && Residue(ans, zp) == old(Residue(x, zp))
  {
    CopyI(ans, x[..]);
    assert ans[..] == old(x[..]);
    assert ans[..zp.t] == old(x[..])[..zp.t];
  }

  method PowerLoop(ans: array<Limb>, x: array<Limb>, exp: nat, zp: ZpData)
    requires zp.Valid() && Stored(x, zp) && ans.Length == MAX_MOD_SZ
    modifies ans
    ensures Stored(ans, zp) && Residue(ans, zp) == Pow(old(Residue(x, zp)), exp) % zp.pr
  {
    hide Rep.Meaning, Num, Cong, Pow, Powering;
    var t := new Limb[MAX_MOD_SZ](_ => 0);
    ghost var target := Pow(Residue(x, zp), exp);
    CopyBuffer(t, x, zp);
    AssignOne(ans, zp);
    PoweringStarts(ans, t, exp, zp);
    var e := exp;
    while e != 0
      invariant Powering(ans, t, e, target, zp)
      decreases e
    {
      PowerPass(ans, t, e, target, zp);
      e := e / 2;
    }
    PoweringEnds(ans, t, target, zp);
  }

  lemma PoweringStarts(ans: array<Limb>, t: array<Limb>, e: nat, zp: ZpData)
    requires zp.Valid() && Stored(ans, zp) && Stored(t, zp) && Residue(ans, zp) == 1
    ensures Powering(ans, t, e, Pow(Residue(t, zp), e), zp)
  {
    hide Rep.Meaning, Num, Pow;
  }

  lemma PoweringEnds(ans: array<Limb>, t: array<Limb>, target: int, zp: ZpData)
    requires Powering(ans, t, 0, target, zp)
    ensures Stored(ans, zp) && Residue(ans, zp) == target % zp.pr
  {
    hide Rep.Meaning, Num;
    SmallMod(Residue(ans, zp), zp.pr);
  }

  /** The limb to_modp computes for a machine integer when the modulus has one limb. */
  function OneLimbValue(p: Limb, x: int): (v: Limb)
    requires p > 0
    ensures v < p
  {
    if x >= 0 then x % p else (p + x) % B % p
  }

  /** Modulo 3 it turns -4 into 0, not into 2. */
  lemma WrappedInput()
    ensures OneLimbValue(3, -4) == 0 && -4 % 3 == 2
  {
    DivUnique(-1, B, -1);
    DivUnique(B - 1, 3, 0x5555_5555_5555_5555);
  }

  /** to_modp of a machine integer. With one limb a negative x is added to p in 64 bits, which is right only down to -p;
      below that the sum wraps. */
  method ToModpInt(ans: array<Limb>, x: int, zp: ZpData)
    requires zp.Valid() && zp.prA[zp.t - 1] != 0 && ans.Length == MAX_MOD_SZ && -0x8000_0000 <= x < 0x8000_0000
    modifies ans
    ensures Stored(ans, zp) && (Residue(ans, zp) == x % zp.pr <==> zp.t > 1 || x + zp.pr >= 0)
  {
    if x < 0 && zp.t > 1 {
      LargeModulus(zp);
      ToModp(ans, zp.pr + x, zp);
      CongFrom(zp.pr + x, x, 1, zp.pr);
      return;
    }
    var v := if zp.t > 1 then x else OneLimbValue(zp.prA[0], x);
    OneLimb(zp, x, v);
    ToModp(ans, v, zp);
    SmallMod(v, zp.pr);
  }

  lemma LargeModulus(zp: ZpData)
    requires zp.Modulus() && zp.prA[zp.t - 1] != 0 && zp.t > 1
    ensures zp.pr >= B
  {
    var t := zp.t;
    assert zp.prA[..t] == zp.prA[..t - 1] + [zp.prA[t - 1]];
    NumPush(zp.prA[..t - 1], zp.prA[t - 1]);
    MulLe(1, zp.prA[t - 1], BPow(t - 1));
    assert BPow(t - 1) == B * BPow(t - 2);
    MulLe(1, BPow(t - 2), B);
  }

  /** The limb stored before the Montgomery step, in the cases where it is a single limb or x itself. */
  lemma OneLimb(zp: ZpData, x: int, v: nat)
    requires zp.Modulus() && zp.prA[zp.t - 1] != 0 && -0x8000_0000 <= x < 0x8000_0000 && (x >= 0 || zp.t == 1)
    requires v == if zp.t > 1 then x else OneLimbValue(zp.prA[0], x)
    ensures v < zp.pr && (v == x % zp.pr <==> zp.t > 1 || x + zp.pr >= 0)
  {
    var p := zp.pr;
    if zp.t > 1 {
      LargeModulus(zp);
      SmallMod(x, p);
    } else {
      assert zp.prA[..1] == [zp.prA[0]] && Num(zp.prA[..1][1..]) == 0;
      assert p == zp.prA[0];
      CongFrom(p + x, x, 1, p);
      if x + p >= 0 {
        if x < 0 { SmallMod(p + x, B); }
      } else {
        WrappedSum(p, x);
      }
    }
  }

  /** Below -p the 64-bit sum is off by 2^64, which p does not divide. */
  lemma WrappedSum(p: Limb, x: int)
    requires p % 2 == 1 && p > 1 && x + B >= 0 && x + p < 0
    ensures (p + x) % B % p != x % p
  {
    DivUnique(p + x, B, -1);
    assert (p + x) % B == p + x + B;
    CongFrom(p + x + B, x + B, 1, p);
    if Cong(x + B, x, p) {
      CongSub(x + B, x, x, x, p);
      SmallMod(0, p);
      LimbBits();
      CancelPow(64, 1, p);
      SmallMod(1, p);
    }
  }
}
