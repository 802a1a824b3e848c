/** Congruences, powers and the facts about primes that modular square roots rest on. */
module Modular {
  import opened Arith

  /** a and b leave the same remainder modulo p. */
  ghost predicate Cong(a: int, b: int, p: nat)
    requires p > 0
  {
    a % p == b % p
  }

  lemma CongFrom(a: int, b: int, k: int, p: nat)
    requires p > 0 && a == b + p * k
    ensures Cong(a, b, p)
  {
    DivShift(b, p, k);
  }

  lemma CongGap(a: int, b: int, p: nat) returns (k: int)
    requires p > 0 && Cong(a, b, p)
    ensures a == b + p * k
  {
    k := a / p - b / p;
    assert a == p * (a / p) + a % p && b == p * (b / p) + b % p;
    assert p * (a / p - b / p) == p * (a / p) - p * (b / p);
  }

  lemma ModCong(a: int, p: nat)
    requires p > 0
    ensures Cong(a % p, a, p) && 0 <= a % p < p
  {
    DivUnique(a % p, p, 0);
  }

  lemma SmallMod(a: int, p: nat)
    requires 0 <= a < p
    ensures a % p == a
  {
    DivUnique(a, p, 0);
  }

  lemma CongAdd(a: int, b: int, c: int, d: int, p: nat)
    requires p > 0 && Cong(a, b, p) && Cong(c, d, p)
    ensures Cong(a + c, b + d, p)
  {
    var k := CongGap(a, b, p);
    var m := CongGap(c, d, p);
    assert p * (k + m) == p * k + p * m;
    CongFrom(a + c, b + d, k + m, p);
  }

  lemma CongSub(a: int, b: int, c: int, d: int, p: nat)
    requires p > 0 && Cong(a, b, p) && Cong(c, d, p)
    ensures Cong(a - c, b - d, p)
  {
    var k := CongGap(a, b, p);
    var m := CongGap(c, d, p);
    assert p * (k - m) == p * k - p * m;
    CongFrom(a - c, b - d, k - m, p);
  }

  lemma MulGap(b: int, d: int, k: int, m: int, p: int)
    ensures (b + p * k) * (d + p * m) == b * d + p * (b * m + k * d + p * (k * m))
  {
    assert (b + p * k) * (d + p * m) == b * d + b * (p * m) + (p * k) * d + (p * k) * (p * m);
    assert b * (p * m) == p * (b * m) && (p * k) * d == p * (k * d) && (p * k) * (p * m) == p * (p * (k * m));
  }

  lemma CongMul(a: int, b: int, c: int, d: int, p: nat)
    requires p > 0 && Cong(a, b, p) && Cong(c, d, p)
    ensures Cong(a * c, b * d, p)
  {
    var k := CongGap(a, b, p);
    var m := CongGap(c, d, p);
    MulGap(b, d, k, m, p);
    CongFrom(a * c, b * d, b * m + k * d + p * (k * m), p);
  }

  /** The remainder of C++ division, which takes the sign of the dividend. */
  function Rem(x: int, p: nat): int
    requires p > 0
  {
    if x >= 0 then x % p else -(-x % p)
  }

  function Pow(x: int, e: nat): int { if e == 0 then 1 else x * Pow(x, e - 1) }

  lemma {:induction false} PowAdd(x: int, a: nat, b: nat)
    ensures Pow(x, a + b) == Pow(x, a) * Pow(x, b)
  {
    if a > 0 {
      PowAdd(x, a - 1, b);
      assert x * (Pow(x, a - 1) * Pow(x, b)) == (x * Pow(x, a - 1)) * Pow(x, b);
    }
  }

  lemma {:induction false} PowMul(x: int, a: nat, b: nat)
    ensures a * b >= 0 && Pow(Pow(x, a), b) == Pow(x, a * b)
  {
    MulNonneg(a, b);
    if b > 0 {
      PowMul(x, a, b - 1);
      assert a * b == a + a * (b - 1);
      PowAdd(x, a, a * (b - 1));
    }
  }

  lemma Interleave(x: int, y: int, a: int, b: int)
    ensures (x * y) * (a * b) == (x * a) * (y * b)
  {
    var c := a * b;
    assert (x * y) * c == x * (y * c);
    assert y * (a * b) == a * (y * b);
    var d := y * b;
    assert x * (a * d) == (x * a) * d;
  }

  lemma {:induction false} PowProduct(x: int, y: int, e: nat)
    ensures Pow(x * y, e) == Pow(x, e) * Pow(y, e)
  {
    if e > 0 {
      PowProduct(x, y, e - 1);
      Interleave(x, y, Pow(x, e - 1), Pow(y, e - 1));
    }
  }

  lemma {:induction false} PowCong(x: int, y: int, e: nat, p: nat)
    requires p > 0 && Cong(x, y, p)
    ensures Cong(Pow(x, e), Pow(y, e), p)
  {
    if e > 0 {
      PowCong(x, y, e - 1, p);
      CongMul(x, y, Pow(x, e - 1), Pow(y, e - 1), p);
    }
  }

  /** No number between 1 and p divides p. */
  ghost predicate Prime(p: nat) {
    p > 1 && forall d: nat :: 1 < d < p ==> p % d != 0
  }

  ghost predicate Divides(p: nat, a: int)
    requires p > 0
  {
    a % p == 0
  }

  lemma DividesBy(p: nat, a: int, k: int)
    requires p > 0 && a == p * k
    ensures Divides(p, a)
  {
    CongFrom(a, 0, k, p);
    SmallMod(0, p);
  }

  /** A prime that divides r * b with 0 < r < p divides b: the remainders of p descend to 1. */
  lemma {:induction false} EuclidDescent(p: nat, r: nat, b: int)
    requires Prime(p) && 0 < r < p && Divides(p, r * b)
    ensures Divides(p, b)
    decreases r
  {
    if r > 1 {
      var s, k, m := p % r, p / r, (r * b) / p;
      assert p == r * k + s && r * b == p * m;
      assert s * b == (p - r * k) * b;
      assert (p - r * k) * b == p * b - k * (r * b);
      assert p * b - k * (p * m) == p * (b - k * m);
      DividesBy(p, s * b, b - k * m);
      EuclidDescent(p, s, b);
    }
  }

  /** Euclid's lemma. */
  lemma Euclid(p: nat, a: int, b: int)
    requires Prime(p) && Divides(p, a * b)
    ensures Divides(p, a) || Divides(p, b)
  {
    if !Divides(p, a) {
      ModCong(a, p);
      CongMul(a % p, a, b, b, p);
      EuclidDescent(p, a % p, b);
    }
  }

  /** Modulo a prime, 1 has only the square roots 1 and -1. */
  lemma RootsOfOne(p: nat, t: nat)
    requires Prime(p) && t < p && Cong(t * t, 1, p)
    ensures t == 1 || t == p - 1
  {
    var k := CongGap(t * t, 1, p);
    assert (t - 1) * (t + 1) == t * t - 1;
    DividesBy(p, (t - 1) * (t + 1), k);
    Euclid(p, t - 1, t + 1);
    if Divides(p, t - 1) {
      if t > 1 { SmallMod(t - 1, p); }
      if t == 0 { DivUnique(-1, p, -1); }
    } else if t + 1 < p {
      SmallMod(t + 1, p);
    }
  }

  /** Binomial coefficients by Pascal's rule. */
  function Choose(n: nat, k: nat): nat {
    if k == 0 then 1 else if n == 0 then 0 else Choose(n - 1, k - 1) + Choose(n - 1, k)
  }

  lemma {:induction false} ChooseBeyond(n: nat, k: nat)
    requires k > n
    ensures Choose(n, k) == 0
  {
    if n > 0 {
      ChooseBeyond(n - 1, k - 1);
      ChooseBeyond(n - 1, k);
    }
  }

  lemma {:induction false} ChooseAll(n: nat)
    ensures Choose(n, n) == 1
  {
    if n > 0 {
      ChooseAll(n - 1);
      ChooseBeyond(n - 1, n);
    }
  }

  lemma AbsorbStep(n: int, k: int, a: int, b: int, c: int, d: int)
    requires a == c + d && k * b == (n - 1) * d && (k - 1) * a == (n - 1) * c
    ensures k * (a + b) == n * a
  {
    assert k * (a + b) == (k - 1) * a + a + k * b;
    assert (n - 1) * (c + d) == (n - 1) * c + (n - 1) * d;
  }

  lemma {:induction false} Absorb(n: nat, k: nat)
    requires n > 0 && k > 0
    ensures k * Choose(n, k) == n * Choose(n - 1, k - 1)
  {
    if n == 1 {
      if k > 1 {
        ChooseBeyond(1, k);
        ChooseBeyond(0, k - 1);
      }
    } else {
      Absorb(n - 1, k);
      var a, b := Choose(n - 1, k - 1), Choose(n - 1, k);
      if k > 1 {
        Absorb(n - 1, k - 1);
        AbsorbStep(n, k, a, b, Choose(n - 2, k - 2), Choose(n - 2, k - 1));
      } else {
        assert a == 1 && Choose(n - 2, 0) == 1;
      }
    }
  }

  /** The first m + 1 terms of the expansion of (w + 1)^n. */
  function Expansion(n: nat, m: nat, w: int): int {
    Choose(n, m) * Pow(w, m) + if m == 0 then 0 else Expansion(n, m - 1, w)
  }

  lemma {:induction false} ExpansionStep(n: nat, m: nat, w: int)
    requires m > 0
    ensures Expansion(n + 1, m, w) == Expansion(n, m, w) + w * Expansion(n, m - 1, w)
  {
    var a, b, q := Choose(n, m - 1), Choose(n, m), Pow(w, m - 1);
    assert (a + b) * (w * q) == b * (w * q) + w * (a * q);
    if m > 1 {
      ExpansionStep(n, m - 1, w);
      assert w * (a * q + Expansion(n, m - 2, w)) == w * (a * q) + w * Expansion(n, m - 2, w);
    } else {
      assert Expansion(n + 1, 0, w) == 1 && Expansion(n, 0, w) == 1;
    }
  }

  /** The binomial theorem for (w + 1)^n. */
  lemma {:induction false} Binomial(n: nat, w: int)
    ensures Expansion(n, n, w) == Pow(w + 1, n)
  {
    if n > 0 {
      Binomial(n - 1, w);
      ExpansionStep(n - 1, n, w);
      ChooseBeyond(n - 1, n);
      assert Expansion(n - 1, n, w) == Expansion(n - 1, n - 1, w);
      var e := Expansion(n - 1, n - 1, w);
      assert e + w * e == (w + 1) * e;
    }
  }

  /** Modulo a prime p, all inner terms of the expansion of (w + 1)^p vanish. */
  lemma {:induction false} InnerTermsVanish(p: nat, m: nat, w: int)
    requires Prime(p) && m < p
    ensures Cong(Expansion(p, m, w), 1, p)
  {
    if m > 0 {
      InnerTermsVanish(p, m - 1, w);
      Absorb(p, m);
      DividesBy(p, m * Choose(p, m), Choose(p - 1, m - 1));
      EuclidDescent(p, m, Choose(p, m));
      SmallMod(0, p);
      CongMul(Choose(p, m), 0, Pow(w, m), Pow(w, m), p);
      CongAdd(Choose(p, m) * Pow(w, m), 0, Expansion(p, m - 1, w), 1, p);
    }
  }

  lemma {:induction false} PowPrime(p: nat, w: nat)
    requires Prime(p)
    ensures Cong(Pow(w, p), w, p)
  {
    if w == 0 {
      assert Pow(0, p) == 0 * Pow(0, p - 1);
    } else {
      PowPrime(p, w - 1);
      Binomial(p, w - 1);
      InnerTermsVanish(p, p - 1, w - 1);
      ChooseAll(p);
      CongAdd(Pow(w - 1, p), w - 1, Expansion(p, p - 1, w - 1), 1, p);
    }
  }

  /** Fermat's little theorem. */
  lemma Fermat(p: nat, w: int)
    requires Prime(p) && !Divides(p, w)
    ensures Cong(Pow(w, p - 1), 1, p)
  {
    var v := w % p;
    ModCong(w, p);
    PowCong(w, v, p - 1, p);
    PowPrime(p, v);
    var k := CongGap(Pow(v, p), v, p);
    assert v * (Pow(v, p - 1) - 1) == Pow(v, p) - v;
    DividesBy(p, v * (Pow(v, p - 1) - 1), k);
    EuclidDescent(p, v, Pow(v, p - 1) - 1);
    SmallMod(0, p);
    CongAdd(Pow(v, p - 1) - 1, 0, 1, 1, p);
  }
}
