/** Square roots modulo a prime: one power when p is 3 modulo 4, else Shanks' algorithm. */
module SquareRoot {
  import opened Arith
  import opened Modular

  /** a has a square root modulo p. */
  ghost predicate Residue(a: int, p: nat)
    requires p > 0
  {
    exists w :: Root(w, a, p)
  }

  ghost predicate Root(w: int, a: int, p: nat)
    requires p > 0
  {
    Cong(w * w, a, p)
  }

  /** mpz_powm. */
  function PowM(x: int, e: nat, p: nat): (r: nat)
    requires p > 0
    ensures r < p
  {
    Pow(x, e) % p
  }

  /** mpz_legendre, by Euler's criterion. */
  function Legendre(n: int, p: nat): int
    requires p > 0
  {
    var c := PowM(n, (p - 1) / 2, p);
    if c == p - 1 then -1 else if c == 0 then 0 else 1
  }

  /** A number with a square root, not divisible by p, has Legendre symbol 1. */
  lemma ResidueSymbol(a: int, p: nat)
    requires Prime(p) && p % 2 == 1 && Residue(a, p) && !Divides(p, a)
    ensures Legendre(a, p) == 1 && Cong(Pow(a, (p - 1) / 2), 1, p)
  {
    var w :| Root(w, a, p);
    if Divides(p, w) {
      SmallMod(0, p);
      CongMul(w, 0, w, 0, p);
      assert false;
    }
    Fermat(p, w);
    PowCong(w * w, a, (p - 1) / 2, p);
    PowProduct(w, w, (p - 1) / 2);
    PowAdd(w, (p - 1) / 2, (p - 1) / 2);
    SmallMod(1, p);
  }

  /** b^(2^m) modulo p, by m squarings. */
  function Squared(b: int, m: nat, p: nat): (r: nat)
    requires p > 0
    ensures r < p
  {
    if m == 0 then b % p else Squared(b, m - 1, p) * Squared(b, m - 1, p) % p
  }

  lemma {:induction false} SquaredCong(b: int, c: int, m: nat, p: nat)
    requires p > 0 && Cong(b, c, p)
    ensures Squared(b, m, p) == Squared(c, m, p)
  {
    if m > 0 { SquaredCong(b, c, m - 1, p); }
  }

  lemma {:induction false} SquaredTwice(b: int, i: nat, j: nat, p: nat)
    requires p > 0
    ensures Squared(Squared(b, i, p), j, p) == Squared(b, i + j, p)
  {
    if j == 0 {
      SmallMod(Squared(b, i, p), p);
    } else {
      SquaredTwice(b, i, j - 1, p);
    }
  }

  lemma {:induction false} SquaredProduct(b: int, c: int, m: nat, p: nat)
    requires p > 0
    ensures Cong(Squared(b * c, m, p), Squared(b, m, p) * Squared(c, m, p), p)
  {
    if m == 0 {
      ModCong(b, p);
      ModCong(c, p);
      ModCong(b * c, p);
      CongMul(b % p, b, c % p, c, p);
    } else {
      SquaredProduct(b, c, m - 1, p);
      var s, t, u := Squared(b, m - 1, p), Squared(c, m - 1, p), Squared(b * c, m - 1, p);
      CongMul(u, s * t, u, s * t, p);
      Interleave(s, t, s, t);
      ModCong(s * s, p);
      ModCong(t * t, p);
      ModCong(u * u, p);
      CongMul(s * s % p, s * s, t * t % p, t * t, p);
    }
  }

  lemma {:induction false} SquaredPower(x: int, q: nat, m: nat, p: nat)
    requires p > 0
    ensures q * Pow(2, m) >= 0 && Squared(Pow(x, q), m, p) == Pow(x, q * Pow(2, m)) % p
  {
    PowOfTwo(m);
    MulNonneg(q, Pow(2, m));
    if m > 0 {
      SquaredPower(x, q, m - 1, p);
      PowOfTwo(m - 1);
      var h := q * Pow(2, m - 1);
      assert q * Pow(2, m) == h + h;
      PowAdd(x, h, h);
      ModCong(Pow(x, h), p);
      CongMul(Pow(x, h) % p, Pow(x, h), Pow(x, h) % p, Pow(x, h), p);
    }
  }

  lemma {:induction false} PowOfTwo(m: nat)
    ensures Pow(2, m) > 0
  {
    if m > 0 { PowOfTwo(m - 1); }
  }

  /** What Shanks' loop keeps: x^2 is a b, y has order 2^r and b an order that divides 2^(r-1). */
  ghost predicate Shanks(a: int, p: nat, x: nat, y: nat, b: nat, r: nat) {
    && p > 0 && x < p && y < p && b < p && r >= 1
    && Cong(x * x, a * b, p) && Squared(y, r - 1, p) == p - 1 && Squared(b, r - 1, p) == 1
  }

  /** One pass: m is the order exponent of b, t is y^(2^(r-m-1)). */
  lemma ShanksKeeps(a: int, p: nat, x: nat, y: nat, b: nat, r: nat, m: nat, t: nat)
    requires Prime(p) && p % 2 == 1 && Shanks(a, p, x, y, b, r) && 1 <= m < r
    requires Squared(b, m, p) == 1 && Squared(b, m - 1, p) != 1 && t == Squared(y, r - m - 1, p)
    ensures Shanks(a, p, x * t % p, t * t % p, b * (t * t % p) % p, m)
  {
    NewOrder(p, y, r, m, t);
    NewRoot(a, p, x, b, t);
    var s, y' := Squared(b, m - 1, p), t * t % p;
    SmallMod(1, p);
    RootsOfOne(p, s);
    SquaredProduct(b, y', m - 1, p);
    MinusOneSquared(p);
    ModCong(b * y', p);
    SquaredCong(b * y' % p, b * y', m - 1, p);
    SmallMod(Squared(b * y', m - 1, p), p);
  }

  lemma MinusOneSquared(p: nat)
    requires p > 1
    ensures Cong((p - 1) * (p - 1), 1, p) && 1 % p == 1
  {
    assert (p - 1) * (p - 1) == 1 + p * (p - 2);
    CongFrom((p - 1) * (p - 1), 1, p - 2, p);
    SmallMod(1, p);
  }

  lemma NewOrder(p: nat, y: nat, r: nat, m: nat, t: nat)
    requires p > 0 && 1 <= m < r && Squared(y, r - 1, p) == p - 1 && t == Squared(y, r - m - 1, p)
    ensures Squared(t * t % p, m - 1, p) == p - 1
  {
    assert t * t % p == Squared(y, r - m, p);
    SquaredTwice(y, r - m, m - 1, p);
  }

  lemma NewRoot(a: int, p: nat, x: nat, b: nat, t: nat)
    requires p > 0 && Cong(x * x, a * b, p)
    ensures Cong((x * t % p) * (x * t % p), a * (b * (t * t % p) % p), p)
  {
    var y' := t * t % p;
    ModCong(x * t, p);
    CongMul(x * t % p, x * t, x * t % p, x * t, p);
    Interleave(x, t, x, t);
    CongMul(x * x, a * b, t * t, t * t, p);
    ModCong(t * t, p);
    CongMul(b, b, y', t * t, p);
    ModCong(b * y', p);
    CongMul(a, a, b * y' % p, b * (t * t), p);
    Reassociate(a, b, t * t);
  }

  lemma Reassociate(a: int, b: int, c: int)
    ensures (a * b) * c == a * (b * c)
  {}

  /** The variables of the while loop, signed as the code's big integers are. */
  datatype Vars = Vars(x: int, y: int, b: int, r: int)

  /** v squared k times, each time reduced by the C++ remainder. */
  function Repeated(v: int, k: nat, p: nat): int
    requires p > 0
  {
    if k == 0 then v else Rem(Repeated(v, k - 1, p) * Repeated(v, k - 1, p), p)
  }

  /** What the inner loop looks for: the first m from 1 on with b^(2^m) = 1. */
  ghost predicate FirstOrder(b: int, m: nat, p: nat)
    requires p > 0
  {
    m >= 1 && Repeated(b, m, p) == 1 && forall k: nat :: 1 <= k < m ==> Repeated(b, k, p) != 1
  }

  /** The rest of a pass, once m is found. */
  function AfterPass(p: nat, v: Vars, m: nat): Vars
    requires p > 0
  {
    var t := Repeated(v.y, if v.r - m - 1 > 0 then v.r - m - 1 else 0, p);
    var y := Rem(t * t, p);
    Vars(Rem(v.x * t, p), y, Rem(v.b * y, p), m)
  }

  /** One pass of the while loop; there is none when b is 1, and none when no m is ever found. */
  ghost predicate OnePass(p: nat, v: Vars, w: Vars)
    requires p > 0
  {
    v.b != 1 && exists m: nat :: FirstOrder(v.b, m, p) && w == AfterPass(p, v, m)
  }

  /** The while loop gets from v to w in k passes. */
  ghost predicate Passes(p: nat, k: nat, v: Vars, w: Vars)
    requires p > 0
  {
    if k == 0 then v == w else exists u :: Passes(p, k - 1, v, u) && OnePass(p, u, w)
  }

  lemma SquareNonneg(v: int)
    ensures v * v >= 0
  {
    if v >= 0 { MulNonneg(v, v); } else { MulNonneg(0 - v, 0 - v); }
  }

  /** Squares are not negative, so from the first squaring on the remainders are the usual ones. */
  lemma {:induction false} RepeatedIs(v: int, k: nat, p: nat)
    requires p > 0 && (0 <= v < p || k > 0)
    ensures Repeated(v, k, p) == Squared(v, k, p)
  {
    if k == 0 {
      SmallMod(v, p);
    } else if k == 1 {
      SquareNonneg(v);
      ModCong(v, p);
      CongMul(v % p, v, v % p, v, p);
      assert Repeated(v, 1, p) == Rem(Repeated(v, 0, p) * Repeated(v, 0, p), p);
      assert Squared(v, 1, p) == Squared(v, 0, p) * Squared(v, 0, p) % p;
    } else {
      RepeatedIs(v, k - 1, p);
      SquareNonneg(Repeated(v, k - 1, p));
    }
  }

  /** The inner while loop: the smallest m >= 1 with b^(2^m) = 1. */
  method OrderExponent(b: nat, p: nat, ghost r: nat) returns (m: nat)
    requires Prime(p) && b < p && b != 1 && r >= 1 && Squared(b, r - 1, p) == 1
    ensures 1 <= m < r && FirstOrder(b, m, p)
  {
    SmallMod(b, p);
    RepeatedIs(b, 1, p);
    m := 1;
    var temp := MulMod(b, b, p);
    while temp != 1
      invariant 1 <= m < r && temp == Squared(b, m, p) == Repeated(b, m, p)
      invariant forall k: nat :: 1 <= k < m ==> Repeated(b, k, p) != 1
      decreases r - m
    {
      RepeatedIs(b, m + 1, p);
      temp := MulMod(temp, temp, p);
      m := m + 1;
    }
  }

  /** The for loop: k squarings of y. */
  method SquareTimes(y: nat, k: nat, p: nat) returns (t: nat)
    requires 0 < p && y < p
    ensures t == Squared(y, k, p)
  {
    t := y;
    SmallMod(y, p);
    for i := 0 to k
      invariant t == Squared(y, i, p)
    {
      t := t * t % p;
    }
  }

  /** The product of two reduced numbers is not negative, so its C++ remainder is the usual one. */
  function MulMod(u: nat, v: nat, p: nat): (r: nat)
    requires p > 0
    ensures r == u * v % p < p
  {
    MulNonneg(u, v);
    Rem(u * v, p)
  }

  /** Before its order exponent m, b^(2^(m-1)) is not 1. */
  lemma BeforeOrder(b: nat, m: nat, p: nat)
    requires p > 0 && b < p && b != 1 && FirstOrder(b, m, p)
    ensures Squared(b, m, p) == 1 && Squared(b, m - 1, p) != 1
  {
    RepeatedIs(b, m, p);
    RepeatedIs(b, m - 1, p);
  }

  /** One pass of the while loop. */
  method ShanksPass(a: nat, p: nat, x: nat, y: nat, b: nat, r: nat) returns (x': nat, y': nat, b': nat, r': nat)
    requires Prime(p) && p % 2 == 1 && Shanks(a, p, x, y, b, r) && b != 1
    ensures Shanks(a, p, x', y', b', r') && r' < r
    ensures OnePass(p, Vars(x, y, b, r), Vars(x', y', b', r'))
  {
    var m := OrderExponent(b, p, r);
    var t := SquareTimes(y, r - m - 1, p);
    BeforeOrder(b, m, p);
    RepeatedIs(y, r - m - 1, p);
    ShanksKeeps(a, p, x, y, b, r, m, t);
    assert AfterPass(p, Vars(x, y, b, r), m) == Vars(MulMod(x, t, p), MulMod(t, t, p), MulMod(b, MulMod(t, t, p), p), m);
    y' := MulMod(t, t, p);
    r' := m;
    x' := MulMod(x, t, p);
    b' := MulMod(b, y', p);
  }

  /** The while loop of Shanks' algorithm. */
  method ShanksLoop(a: nat, p: nat, x0: nat, y0: nat, b0: nat, r0: nat) returns (x: nat)
    requires Prime(p) && p % 2 == 1 && Shanks(a, p, x0, y0, b0, r0)
    ensures x < p && Root(x, a, p)
    ensures exists k, w :: Passes(p, k, Vars(x0, y0, b0, r0), w) && w.b == 1 && w.x == x
  {
    x := x0;
    var y, b, r := y0, b0, r0;
    ghost var k := 0;
    while b != 1
      invariant Shanks(a, p, x, y, b, r) && Passes(p, k, Vars(x0, y0, b0, r0), Vars(x, y, b, r))
      decreases r
    {
      x, y, b, r := ShanksPass(a, p, x, y, b, r);
      k := k + 1;
    }
    assert a * b == a;
  }

  /** The parameter-halving loop: p - 1 = 2^e q with q odd. */
  method SplitEven(p: nat) returns (q: nat, e: nat)
    requires p > 1 && p % 2 == 1
    ensures q % 2 == 1 && e >= 1 && q * Pow(2, e) == p - 1
  {
    q, e := p - 1, 0;
    while q % 2 == 0
      invariant q > 0 && q * Pow(2, e) == p - 1 && (e == 0 ==> q == p - 1)
      decreases q
    {
      assert (q / 2) * (2 * Pow(2, e)) == q * Pow(2, e) by { assert q == 2 * (q / 2); }
      e, q := e + 1, q / 2;
    }
  }

  lemma {:induction false} TwoDivides(m: nat, q: nat)
    requires m > 0
    ensures q * Pow(2, m) == 2 * (q * Pow(2, m - 1))
  {
  }

  /** The values Shanks' loop starts from satisfy its invariant. */
  lemma ShanksStarts(a: nat, p: nat, n: nat, q: nat, e: nat)
    requires Prime(p) && p % 2 == 1 && q % 2 == 1 && e >= 1 && q * Pow(2, e) == p - 1
    requires Legendre(a, p) == 1 && PowM(a, (p - 1) / 2, p) == 1 && Legendre(n, p) == -1
    ensures var x0 := PowM(a, (q - 1) / 2, p);
            Shanks(a, p, a * x0 % p, PowM(n, q, p), a * x0 * x0 % p, e)
  {
    TwoDivides(e, q);
    assert q * Pow(2, e - 1) == (p - 1) / 2;
    var c, x0 := Pow(a, (q - 1) / 2), PowM(a, (q - 1) / 2, p);
    StartValues(a, p, c, x0);
    PowAdd(a, (q - 1) / 2, (q - 1) / 2);
    assert Pow(a, q) == a * (c * c);
    SquaredPower(a, q, e - 1, p);
    SquaredPower(n, q, e - 1, p);
    ModCong(Pow(n, q), p);
    SquaredCong(PowM(n, q, p), Pow(n, q), e - 1, p);
    SquaredCong(a * x0 * x0 % p, Pow(a, q), e - 1, p);
  }

  lemma StartValues(a: nat, p: nat, c: int, x0: nat)
    requires p > 0 && x0 == c % p
    ensures var x, b := a * x0 % p, a * x0 * x0 % p;
            0 <= x < p && 0 <= b < p && Cong(x * x, a * b, p) && Cong(b, a * (c * c), p)
  {
    var z := a * x0;
    ModCong(z, p);
    ModCong(z * x0, p);
    CongMul(z % p, z, z % p, z, p);
    CongMul(a, a, z * x0 % p, z * x0, p);
    Interleave(a, x0, a, x0);
    Reassociate(a, x0, x0);
    Reassociate(a, a, x0 * x0);
    ModCong(c, p);
    CongMul(x0, c, x0, c, p);
    CongMul(a, a, x0 * x0, c * c, p);
  }

  /** The search for a non-residue among the generator's values. */
  method FindNonResidue(p: nat, gen: nat -> nat, ghost hit: nat) returns (n: nat)
    requires p > 0 && Legendre(gen(hit), p) == -1
    ensures Legendre(n, p) == -1
  {
    var i, leg := 0, 1;
    n := 0;
    while leg != -1
      invariant leg == -1 ==> Legendre(n, p) == -1
      invariant leg != -1 ==> i <= hit
      decreases hit - i, leg != -1
    {
      n := gen(i);
      leg := Legendre(n, p);
      i := i + 1;
    }
  }

  /** When p is 3 modulo 4, a^((p+1)/4) is a square root of a exactly when a has one. */
  lemma OnePower(a: int, p: nat)
    requires Prime(p) && p % 4 == 3
    ensures var r := PowM(a, (p + 1) / 4, p); Root(r, a, p) <==> Residue(a, p)
  {
    var k, r := (p + 1) / 4, PowM(a, (p + 1) / 4, p);
    if Residue(a, p) {
      ModCong(Pow(a, k), p);
      CongMul(r, Pow(a, k), r, Pow(a, k), p);
      PowAdd(a, k, k);
      assert Pow(a, 2 * k) == a * Pow(a, (p - 1) / 2);
      if Divides(p, a) {
        SmallMod(0, p);
        CongMul(a, 0, Pow(a, (p - 1) / 2), Pow(a, (p - 1) / 2), p);
      } else {
        ResidueSymbol(a, p);
        CongMul(a, a, Pow(a, (p - 1) / 2), 1, p);
      }
    }
  }

  /** The branch of Shanks' algorithm. */
  method ShanksRoot(a: nat, p: nat, gen: nat -> nat, ghost hit: nat) returns (ans: nat)
    requires Prime(p) && p % 2 == 1 && Legendre(gen(hit), p) == -1 && PowM(a, (p - 1) / 2, p) == 1
    ensures ans < p && Root(ans, a, p)
  {
    SymbolOne(a, p);
    hide PowM, Rem, Legendre, Prime, Shanks, Pow, Root;
    var n := FindNonResidue(p, gen, hit);
    var q, e := SplitEven(p);
    var y := PowM(n, q, p);
    var x := PowM(a, (q - 1) / 2, p);
    ShanksStarts(a, p, n, q, e);
    StartProducts(a, x, p);
    ans := ShanksLoop(a, p, Rem(a * x, p), y, Rem(a * x * x, p), e);
  }

  lemma SymbolOne(a: nat, p: nat)
    requires p > 2 && PowM(a, (p - 1) / 2, p) == 1
    ensures Legendre(a, p) == 1
  {}

  lemma StartProducts(a: nat, x: nat, p: nat)
    requires p > 0
    ensures Rem(a * x, p) == a * x % p && Rem(a * x * x, p) == a * x * x % p
  {
    MulNonneg(a, x);
    MulNonneg(a * x, x);
  }

  /** sqrRootMod, on the inputs where it returns: a root of a whenever a has one. */
  method SqrRootMod(a: int, p: nat, gen: nat -> nat, ghost hit: nat) returns (ans: nat)
    requires Prime(p) && p % 2 == 1 && Legendre(gen(hit), p) == -1
    requires a == 0 || p % 4 == 3 || (a > 0 && PowM(a, (p - 1) / 2, p) == 1)
    ensures ans < p && (Root(ans, a, p) <==> Residue(a, p))
    ensures p % 4 == 1 ==> Root(ans, a, p)
  {
    if a == 0 {
      return 0;
    }
    if p / 2 % 2 == 1 {
      ans := PowM(a, (p + 1) / 4, p);
      OnePower(a, p);
    } else {
      ans := ShanksRoot(a, p, gen, hit);
    }
  }
}
