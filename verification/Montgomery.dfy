/** Montgomery multiplication of numbers of t limbs. */
module Montgomery {
  import opened Arith
  import opened Limbs
  import opened Modular

  const MAX_MOD_SZ: nat := 16

  /** The low limb decides the remainder modulo the limb base. */
  lemma LowLimb(s: seq<Limb>)
    requires s != []
    ensures Cong(Num(s), s[0], B)
  {
    CongFrom(Num(s), s[0], Num(s[1..]), B);
  }

  /** The multiple u of p is chosen so that the low limb of the sum vanishes. */
  lemma LowLimbCancels(w: nat, v: int, u: int, pi: int, p0: int)
    requires w > 0 && Cong(pi * p0, -1, w) && u == v * pi % w
    ensures Cong(v + u * p0, 0, w)
  {
    ModCong(v * pi, w);
    CongMul(u, v * pi, p0, p0, w);
    CongMul(v, v, pi * p0, -1, w);
    assert v * pi * p0 == v * (pi * p0);
    CongAdd(v, v, u * p0, -v, w);
  }

  /** The sum of one pass is below w (y + p), so the next partial sum is below y + p again. */
  lemma PassBound(w: nat, v: nat, xi: nat, y: nat, u: nat, p: nat)
    requires xi < w && u < w && v < y + p
    ensures 0 <= v + xi * y + u * p < w * (y + p)
  {
    MulLe(xi, w - 1, y);
    MulLe(u, w - 1, p);
    MulNonneg(xi, y);
    MulNonneg(u, p);
    assert w * (y + p) == (w - 1) * y + (w - 1) * p + y + p;
  }

  /** The running equation after one more pass. */
  lemma PassEquation(w: nat, b: nat, v: nat, v': nat, xs: nat, xi: nat, y: nat, us: nat, u: nat, p: nat)
    requires b * v == xs * y + us * p && w * v' == v + xi * y + u * p
    ensures (w * b) * v' == (xs + b * xi) * y + (us + b * u) * p
  {
    assert (w * b) * v' == b * (w * v');
    var m, n := xi * y, u * p;
    assert b * (v + m + n) == b * v + b * m + b * n;
    assert b * (xi * y) == (b * xi) * y && b * (u * p) == (b * u) * p;
    assert (xs + b * xi) * y == xs * y + (b * xi) * y;
    assert (us + b * u) * p == us * p + (b * u) * p;
  }

  /** In the row `s` of t + 2 limbs with a vanishing low limb, the rest is the sum divided by the base. */
  lemma DropLow(s: seq<Limb>)
    requires s != [] && Cong(Num(s), 0, B)
    ensures Num(s) == B * Num(s[1..])
  {
    LowLimb(s);
    SmallMod(s[0], B);
    SmallMod(0, B);
  }

  /** The two carries of a pass add up to at most 1, and the row with their sum on top is the whole sum. */
  lemma CarriesFit(t: nat, low: seq<Limb>, mid: seq<Limb>, y: seq<Limb>, p: seq<Limb>, c1: Limb, c2: Limb, v: nat, xi: Limb, u: Limb)
    requires |low| == |mid| == t + 1 && |y| == |p| == t && v < Num(y) + Num(p)
    requires Num(mid) + BPow(t + 1) * c1 == v + xi * Num(y)
    requires Num(low) + BPow(t + 1) * c2 == Num(mid) + u * Num(p)
    ensures c1 + c2 <= 1 && Num(low + [c1 + c2]) == v + xi * Num(y) + u * Num(p)
  {
    PassBound(B, v, xi, Num(y), u, Num(p));
    NumBound(y);
    NumBound(p);
    assert BPow(t + 1) * (c1 + c2) == BPow(t + 1) * c1 + BPow(t + 1) * c2;
    if c1 + c2 >= 2 { MulLe(2, c1 + c2, BPow(t + 1)); }
    NumPush(low, c1 + c2);
  }

  /** With the chosen u the whole sum of a pass is divisible by the base. */
  lemma LowSum(a: seq<Limb>, y: seq<Limb>, p: seq<Limb>, xi: Limb, u: Limb, pi: Limb, sum: int)
    requires a != [] && y != [] && p != [] && Cong(pi * p[0], -1, B) && u == (a[0] + xi * y[0]) * pi % B
    requires sum == Num(a) + xi * Num(y) + u * Num(p)
    ensures Cong(sum, 0, B)
  {
    LowLimb(a);
    LowLimb(y);
    LowLimb(p);
    CongMul(xi, xi, Num(y), y[0], B);
    CongMul(u, u, Num(p), p[0], B);
    CongAdd(Num(a), a[0], xi * Num(y), xi * y[0], B);
    CongAdd(Num(a) + xi * Num(y), a[0] + xi * y[0], u * Num(p), u * p[0], B);
    LowLimbCancels(B, a[0] + xi * y[0], u, pi, p[0]);
  }

  /** A fixed-size buffer cleared and then filled from the bottom. */
  function Filled(s: seq<Limb>): (b: seq<Limb>)
    requires |s| <= MAX_MOD_SZ
    ensures |b| == MAX_MOD_SZ && b[..|s|] == s && forall k | |s| <= k < MAX_MOD_SZ :: b[k] == 0
  {
    s + Zeros(MAX_MOD_SZ - |s|)
  }

  lemma TimesZero(a: int, b: int)
    requires b == 0
    ensures a * b == 0
  {}

  lemma FilledNum(s: seq<Limb>, t: nat)
    requires |s| <= t <= MAX_MOD_SZ
    ensures Num(Filled(s)[..t]) == Num(s)
  {
    var zeros := Zeros(t - |s|);
    assert Filled(s)[..t] == s + zeros;
    NumConcat(s, zeros);
    NumZeros(t - |s|);
    TimesZero(BPow(|s|), Num(zeros));
  }

  /** Copying `size` limbs of v copies all of it, and clear memory behind it. */
  predicate CopiesWhole(v: nat, size: nat, stale: seq<Limb>) {
    |LimbsOf(v)| <= size <= |stale| && forall k | 0 <= k < size - |LimbsOf(v)| :: stale[k] == 0
  }

  function MulReduce(a: nat, b: nat, p: nat): (r: nat)
    requires p > 0
    ensures r == a * b % p < p
  {
    MulNonneg(a, b);
    a * b % p
  }

  /** The low limb of 2^(64 t) minus the inverse of p is minus the inverse of p's low limb. */
  lemma NegatedInverse(t: nat, inv: int, p: int, p0: Limb, pi: Limb)
    requires t > 0 && inv <= BPow(t) && Cong(inv * p, 1, BPow(t)) && Cong(p, p0, B) && pi == (BPow(t) - inv) % B
    ensures Cong(pi * p0, -1, B)
  {
    assert BPow(t) == B * BPow(t - 1);
    InverseOfLow(BPow(t - 1), inv, p);
    MinusInverse(BPow(t - 1), inv, pi);
    CongMul(pi, -inv, p0, p, B);
    assert -inv * p == -(inv * p);
    CongSub(0, 0, inv * p, 1, B);
  }

  lemma InverseOfLow(b: nat, inv: int, p: int)
    requires b > 0 && Cong(inv * p, 1, B * b)
    ensures Cong(inv * p, 1, B)
  {
    var k := CongGap(inv * p, 1, B * b);
    assert (B * b) * k == B * (b * k);
    CongFrom(inv * p, 1, b * k, B);
  }

  lemma MinusInverse(b: nat, inv: int, pi: int)
    requires pi == (B * b - inv) % B
    ensures Cong(pi, -inv, B)
  {
    ModCong(B * b - inv, B);
    CongFrom(B * b - inv, -inv, b, B);
  }

  /** A modulus whose R fits one limb while R^2 mod p needs two: init cuts R^2. */
  lemma TruncatedConstant()
    ensures var p: nat := 0x1_0000_0000_0000_0000 * 0x1_0000_0000_0000_0000 - 0x2_0000_0001;
            p % 2 == 1 && |LimbsOf(p)| == 2
            && |LimbsOf(BPow(2) % p)| == 1 && |LimbsOf((BPow(2) % p) * (BPow(2) % p) % p)| == 2
  {
    var p: nat := 0x1_0000_0000_0000_0000 * 0x1_0000_0000_0000_0000 - 0x2_0000_0001;
    DivUnique(BPow(2), p, 1);
    var r := BPow(2) % p;
    assert r == 0x2_0000_0001;
    SmallMod(r * r, p);
    assert LimbsOf(r / B) == [];
    assert LimbsOf(p / B) == [p / B % B] + LimbsOf(p / B / B);
    assert LimbsOf(r * r / B) == [r * r / B % B] + LimbsOf(r * r / B / B);
  }

  class ZpData {
    var montgomery: bool
    var pr: nat
    var t: nat
    var prA: seq<Limb>
    var pi: Limb
    var R: seq<Limb>
    var R2: seq<Limb>
    var R3: seq<Limb>

    /** The modulus, in t limbs of a buffer with room to spare. */
    ghost predicate Modulus()
      reads this
    {
      && 1 <= t < MAX_MOD_SZ && |prA| == MAX_MOD_SZ && prA[t] == 0
      && Num(prA[..t]) == pr && pr % 2 == 1 && pr > 1
    }

    /** pi is minus the inverse of the low limb of p. */
    ghost predicate Factor()
      reads this
      requires Modulus()
    {
      Cong(pi * prA[0], -1, B)
    }

    /** R^k modulo p for R = 2^(64 t), as init computes it. */
    ghost function RPower(k: nat): (r: nat)
      reads this
      requires pr > 0
      ensures r < pr
    {
      if k == 0 then 1 % pr else if k == 1 then BPow(t) % pr else MulReduce(RPower(k - 1), BPow(t) % pr, pr)
    }

    /** The Montgomery constants: R = 2^(64 t), its square and its cube, reduced modulo p. */
    ghost predicate Constants()
      reads this
      requires Modulus()
    {
      && |R| == |R2| == |R3| == MAX_MOD_SZ && R[t] == R2[t] == 0
      && Num(R[..t]) == RPower(1) && Num(R2[..t]) == RPower(2) && Num(R3[..t]) == RPower(3)
    }

    /** Ready for arithmetic in the chosen representation. */
    ghost predicate Valid()
      reads this
    {
      Modulus() && (montgomery ==> Factor() && Constants())
    }

    constructor ()
    {
      t := 1;
    }

    /** init, but for the constants: false stands for the exception on a modulus with too many limbs. `inv` is what
        mpz_invert yields, the inverse of p modulo 2^(64 t). */
    method InitModulus(p: nat, mont: bool, inv: nat) returns (ok: bool)
      requires p > 1 && p % 2 == 1 && inv <= BPow(|LimbsOf(p)|) && Cong(inv * p, 1, BPow(|LimbsOf(p)|))
      modifies this
      ensures ok <==> |LimbsOf(p)| < MAX_MOD_SZ
      ensures ok ==> Modulus() && pr == p && montgomery == mont && t == |LimbsOf(p)| && (mont ==> Factor())
    {
      pr, montgomery := p, mont;
      t := |LimbsOf(p)|;
      if t >= MAX_MOD_SZ {
        return false;
      }
      LimbsOfNum(p);
      var pp := BPow(t) - inv;
      pi := pp % B;
      prA := Filled(LimbsOf(p));
      assert prA[..t] == LimbsOf(p);
      LowLimb(prA[..t]);
      NegatedInverse(t, inv, p, prA[0], pi);
      ok := true;
    }

    /** The constants of init: R2 and R3 are copied with the limb count of R, so they are right exactly when they have
        no more limbs than R and the memory behind them is clear. */
    method InitConstants(stale2: seq<Limb>, stale3: seq<Limb>)
      requires Modulus() && Factor() && t == |LimbsOf(pr)| && |stale2| >= t && |stale3| >= t
      modifies `R, `R2, `R3
      ensures Constants() <==> CopiesWhole(RPower(2), |LimbsOf(RPower(1))|, stale2)
                               && CopiesWhole(RPower(3), |LimbsOf(RPower(1))|, stale3)
    {
      var r := BPow(t) % pr;
      NumBound(prA[..t]);
      LimbsOfFits(r, t);
      var size := |LimbsOf(r)|;
      var r2 := MulReduce(r, r, pr);
      var r3 := MulReduce(r2, r, pr);
      R := Filled(LimbsOf(r));
      R2 := Filled(CopyOf(r2, size, stale2));
      R3 := Filled(CopyOf(r3, size, stale3));
      LimbsOfNum(r);
      FilledNum(LimbsOf(r), t);
      FilledNum(CopyOf(r2, size, stale2), t);
      FilledNum(CopyOf(r3, size, stale3), t);
      CopyExact(r2, size, stale2);
      CopyExact(r3, size, stale3);
    }

    /** The two additions of a pass, ans[i..] += x_i y + u p; their carries come back. */
    method AddBoth(ans: array<Limb>, i: nat, xi: Limb, y: seq<Limb>, u: Limb) returns (c1: Limb, c2: Limb, ghost mid: seq<Limb>)
      requires Modulus() && |y| == t + 1 && i < t && ans.Length == 2 * MAX_MOD_SZ
      modifies ans
      ensures |mid| == t + 1 && Num(mid) + BPow(t + 1) * c1 == old(Num(ans[i..i + t + 1])) + xi * Num(y)
      ensures Num(ans[i..i + t + 1]) + BPow(t + 1) * c2 == Num(mid) + u * Num(prA[..t + 1])
      ensures ans[t + i + 1] == c1
    {
      c1 := AddMul1(ans, i, y, xi);
      mid := ans[i..i + t + 1];
      ans[t + i + 1] := c1;
      assert ans[i..i + t + 1] == mid;
      c2 := AddMul1(ans, i, prA[..t + 1], u);
      assert ans[i + t + 1..][0] == c1;
    }

    /** One addition step of a pass: the carries go into limb t + i + 1. */
    method AddTwice(ans: array<Limb>, i: nat, xi: Limb, y: seq<Limb>, u: Limb, ghost v: nat)
      requires Modulus() && |y| == t + 1 && y[t] == 0 && i < t && ans.Length == 2 * MAX_MOD_SZ
      requires v == Num(ans[i..i + t + 1]) < Num(y[..t]) + pr
      modifies ans
      ensures Num(ans[i..i + t + 2]) == v + xi * Num(y[..t]) + u * pr
    {
      hide Num, BPow;
      TopZero(y, t);
      TopZero(prA[..t + 1], t);
      assert prA[..t + 1][..t] == prA[..t];
      ghost var mid;
      var c1, c2;
      c1, c2, mid := AddBoth(ans, i, xi, y, u);
      ghost var low := ans[i..i + t + 1];
      CarriesFit(t, low, mid, y[..t], prA[..t], c1, c2, v, xi, u);
      SmallMod(ans[t + i + 1] + c2, B);
      ans[t + i + 1] := (ans[t + i + 1] + c2) % B;
      assert ans[i..i + t + 2] == low + [c1 + c2];
    }

    /** One pass; afterwards limb i is zero and the limbs above it hold the next partial sum. */
    method Pass(ans: array<Limb>, i: nat, xi: Limb, y: seq<Limb>, ghost v: nat) returns (ghost u: Limb)
      requires Modulus() && Factor() && |y| == t + 1 && y[t] == 0 && i < t && ans.Length == 2 * MAX_MOD_SZ
      requires v == Num(ans[i..i + t + 1]) < Num(y[..t]) + pr
      modifies ans
      ensures B * Num(ans[i + 1..i + t + 2]) == v + xi * Num(y[..t]) + u * pr
    {
      var uu := (ans[i] + xi * y[0]) * pi % B;
      u := uu;
      LowSum(ans[i..i + t + 1], y[..t], prA[..t], xi, u, pi, v + xi * Num(y[..t]) + u * pr);
      AddTwice(ans, i, xi, y, uu, v);
      DropLow(ans[i..i + t + 2]);
      assert ans[i..i + t + 2][1..] == ans[i + 1..i + t + 2];
    }

    /** After i passes the limbs i .. i + t of ans hold a partial sum below y + p. */
    ghost predicate Passed(ans: array<Limb>, i: nat, xs: seq<Limb>, y: seq<Limb>, us: nat)
      reads this, ans
    {
      && Modulus() && i <= t && ans.Length == 2 * MAX_MOD_SZ && |xs| == i && |y| == t + 1 && y[t] == 0
      && BPow(i) * Num(ans[i..i + t + 1]) == Num(xs) * Num(y[..t]) + us * pr
      && Num(ans[i..i + t + 1]) < Num(y[..t]) + pr
    }

    /** The row after one more pass. */
    lemma NextPassed(i: nat, xs: seq<Limb>, xi: Limb, yn: nat, us: nat, u: Limb, v: nat, v': nat)
      requires pr > 0 && BPow(i) * v == Num(xs) * yn + us * pr && v < yn + pr && |xs| == i
      requires B * v' == v + xi * yn + u * pr
      ensures 0 <= us + BPow(i) * u && BPow(i + 1) * v' == Num(xs + [xi]) * yn + (us + BPow(i) * u) * pr && v' < yn + pr
    {
      NumPush(xs, xi);
      PassEquation(B, BPow(i), v, v', Num(xs), xi, yn, us, u, pr);
      PassBound(B, v, xi, yn, u, pr);
      MulNonneg(BPow(i), u);
    }

    /** The loop body of Mont_Mult. */
    method NextPass(ans: array<Limb>, i: nat, ghost xs: seq<Limb>, xi: Limb, y: seq<Limb>, ghost us: nat) returns (ghost us': nat)
      requires Passed(ans, i, xs, y, us) && i < t && Factor()
      modifies ans
      ensures Passed(ans, i + 1, xs + [xi], y, us')
    {
      ghost var v := Num(ans[i..i + t + 1]);
      ghost var u := Pass(ans, i, xi, y, v);
      ghost var v' := Num(ans[i + 1..i + 1 + t + 1]);
      NextPassed(i, xs, xi, Num(y[..t]), us, u, v, v');
      us' := us + BPow(i) * u;
    }

    /** ans[0 .. t + 1] = x_0 y, whatever the buffer held. */
    method FirstMul(ans: array<Limb>, x0: Limb, y: seq<Limb>)
      requires |y| == t && t < ans.Length
      modifies ans
      ensures Num(ans[0..t + 1]) == x0 * Num(y)
    {
      ghost var n := t;
      ans[t] := Mul1(ans, y, x0);
      FirstProduct(ans[..n], ans[n], x0 * Num(y));
      assert ans[..n] + [ans[n]] == ans[0..n + 1];
    }

    /** The first pass works on an uncleared buffer: it multiplies instead of adding. */
    method FirstPass(ans: array<Limb>, x0: Limb, y: seq<Limb>) returns (ghost us: nat)
      requires Modulus() && Factor() && |y| == t + 1 && y[t] == 0 && ans.Length == 2 * MAX_MOD_SZ
      modifies ans
      ensures Passed(ans, 1, [x0], y, us)
    {
      var u := x0 * y[0] * pi % B;
      FirstSum(x0, y, u);
      FirstMul(ans, x0, y[..t]);
      us := u;
      ghost var top := FirstAdd(ans, u, x0 * Num(y[..t]));
      FirstRow(top, x0, Num(y[..t]), u);
    }

    method FirstAdd(ans: array<Limb>, u: Limb, ghost product: nat) returns (ghost row: seq<Limb>)
      requires Modulus() && ans.Length == 2 * MAX_MOD_SZ && Num(ans[0..t + 1]) == product
      modifies ans
      ensures row == ans[0..t + 2] && |row| == t + 2 && Num(row) == product + u * pr && row[1..] == ans[1..1 + t + 1]
    {
      hide Num, BPow;
      TopZero(prA[..t + 1], t);
      assert prA[..t + 1][..t] == prA[..t];
      var c := AddMul1(ans, 0, prA[..t + 1], u);
      ghost var low := ans[0..t + 1];
      ans[t + 1] := c;
      row := ans[0..t + 2];
      FirstProduct(low, c, product + u * pr);
      assert row == low + [c];
    }

    lemma FirstProduct(low: seq<Limb>, c: Limb, product: nat)
      requires Num(low) + BPow(|low|) * c == product
      ensures Num(low + [c]) == product
    {
      NumPush(low, c);
    }

    lemma FirstSum(x0: Limb, y: seq<Limb>, u: Limb)
      requires Modulus() && Factor() && |y| == t + 1 && u == x0 * y[0] * pi % B
      ensures Cong(x0 * Num(y[..t]) + u * pr, 0, B)
    {
      LowSum([0], y[..t], prA[..t], x0, u, pi, Num([0]) + x0 * Num(y[..t]) + u * pr);
    }

    lemma FirstRow(row: seq<Limb>, x0: Limb, yn: nat, u: Limb)
      requires Modulus() && |row| == t + 2 && Num(row) == x0 * yn + u * pr && Cong(x0 * yn + u * pr, 0, B)
      ensures var v := Num(row[1..]); BPow(1) * v == Num([x0]) * yn + u * pr && v < yn + pr
    {
      DropLow(row);
      assert Num([]) == 0;
      NextPassed(0, [], x0, yn, 0, u, 0, Num(row[1..]));
      assert [] + [x0] == [x0];
    }

    /** The final conditional subtraction, of t limbs and the one above them. */
    method Reduce(z: array<Limb>, row: seq<Limb>, top: Limb)
      requires Modulus() && |row| == t && z.Length > t && Num(row) + BPow(t) * top < 2 * pr
      modifies z
      ensures Num(z[..t]) < pr && z[t..] == old(z[t..])
      ensures Num(z[..t]) == Num(row) + BPow(t) * top || Num(z[..t]) + pr == Num(row) + BPow(t) * top
    {
      TopZero(prA[..t + 1], t);
      assert prA[..t + 1][..t] == prA[..t];
      NumPush(row, top);
      var c := Cmp(row + [top], prA[..t + 1]);
      if c >= 0 {
        var borrow := SubN(z, row, prA[..t]);
        SubtractOnce(Num(z[..t]), Num(row), top, borrow, z[..t]);
      } else {
        NoTop(Num(row), top);
        CopyI(z, row);
      }
    }

    /** Below p the top limb is zero. */
    lemma NoTop(low: nat, top: Limb)
      requires Modulus() && low + BPow(t) * top < pr
      ensures top == 0
    {
      NumBound(prA[..t]);
      if top >= 1 { MulLe(1, top, BPow(t)); }
    }

    /** The borrow of the subtraction cancels the top limb. */
    lemma SubtractOnce(d: nat, low: nat, top: Limb, borrow: Limb, z: seq<Limb>)
      requires Modulus() && |z| == t && d == Num(z) && borrow <= 1 && d + pr == low + BPow(t) * borrow
      requires pr <= low + BPow(t) * top < 2 * pr
      ensures d < pr && d + pr == low + BPow(t) * top
    {
      NumBound(prA[..t]);
      NumBound(z);
      SameDigit(d, low + BPow(t) * top - pr, BPow(t), top, borrow);
    }

    /** Mont_Mult: false stands for the abort on an operand with a limb too many. z may be x or y. */
    method MontMult(z: array<Limb>, x: array<Limb>, y: array<Limb>) returns (ok: bool)
      requires Modulus() && Factor() && z.Length > t && x.Length > t && y.Length > t && Num(y[..t]) < pr
      modifies z
      ensures ok <==> old(x[t]) == 0 && old(y[t]) == 0
      ensures z[t..] == old(z[t..]) && (!ok ==> z[..] == old(z[..]))
      ensures ok ==> Num(z[..t]) < pr && Cong(Num(z[..t]) * BPow(t), old(Num(x[..t])) * old(Num(y[..t])), pr)
    {
      if x[t] != 0 || y[t] != 0 {
        return false;
      }
      assert y[..t + 1][..t] == y[..t];
      MultiplyInto(z, x[..t], y[..t + 1]);
      ok := true;
    }

    /** The local buffer of Mont_Mult: all passes, then the result goes to z. */
    method MultiplyInto(z: array<Limb>, x: seq<Limb>, y: seq<Limb>)
      requires Modulus() && Factor() && z.Length > t && |x| == t && |y| == t + 1 && y[t] == 0 && Num(y[..t]) < pr
      modifies z
      ensures z[t..] == old(z[t..])
      ensures Num(z[..t]) < pr && Cong(Num(z[..t]) * BPow(t), Num(x) * Num(y[..t]), pr)
    {
      var ans := new Limb[2 * MAX_MOD_SZ](_ => 0);
      ghost var us := PartialSums(ans, x, y);
      ghost var row := ans[t..t + t];
      NumPush(row, ans[t + t]);
      assert ans[t..t + t + 1] == row + [ans[t + t]];
      Reduce(z, ans[t..t + t], ans[t + t]);
      Represents(Num(z[..t]), Num(ans[t..t + t + 1]), Num(x) * Num(y[..t]), us);
    }

    lemma Represents(z: nat, v: nat, product: int, us: nat)
      requires pr > 0 && (z == v || z + pr == v) && BPow(t) * v == product + us * pr
      ensures Cong(z * BPow(t), product, pr)
    {
      CongFrom(v, z, if z == v then 0 else 1, pr);
      CongMul(v, z, BPow(t), BPow(t), pr);
      CongFrom(v * BPow(t), product, us, pr);
    }

    /** All passes of Mont_Mult. */
    method PartialSums(ans: array<Limb>, x: seq<Limb>, y: seq<Limb>) returns (ghost us: nat)
      requires Modulus() && Factor() && |x| == t && |y| == t + 1 && y[t] == 0 && ans.Length == 2 * MAX_MOD_SZ
      modifies ans
      ensures Passed(ans, t, x, y, us)
    {
      us := FirstPass(ans, x[0], y);
      assert [x[0]] == x[..1];
      for i := 1 to t
        invariant Passed(ans, i, x[..i], y, us)
      {
        us := NextPass(ans, i, x[..i], x[i], y, us);
        assert x[..i] + [x[i]] == x[..i + 1];
      }
      assert x[..t] == x;
    }
  }

  /** Two numbers below b that differ by a multiple of b are equal. */
  lemma SameDigit(d: int, v: int, b: int, m: int, n: int)
    requires 0 <= d < b && 0 <= v < b && v - d == b * m - b * n
    ensures m == n
  {
    assert b * (m - n) == b * m - b * n && b * (n - m) == b * n - b * m;
    if m > n {
      MulLe(1, m - n, b);
    } else if m < n {
      MulLe(1, n - m, b);
    }
  }

  lemma TopZero(s: seq<Limb>, t: nat)
    requires |s| == t + 1 && s[t] == 0
    ensures Num(s) == Num(s[..t])
  {
    assert s == s[..t] + [s[t]];
    NumPush(s[..t], s[t]);
  }
}
