/** Exactly when Shanks' algorithm, as sqrRootMod runs it, comes to an end. */
module ShanksEnd {
  import opened Arith
  import opened Modular
  import opened SquareRoot

  /** The variables before the while loop, for the non-residue n and p - 1 = 2^e q. */
  function Start(a: int, p: nat, n: nat, q: nat, e: nat): Vars
    requires p > 0 && q > 0
  {
    var x := PowM(a, (q - 1) / 2, p);
    Vars(Rem(a * x, p), PowM(n, q, p), Rem(a * x * x, p), e)
  }

  /** What the code has found by then. */
  ghost predicate Prepared(p: nat, n: nat, q: nat, e: nat) {
    Prime(p) && p % 2 == 1 && q % 2 == 1 && e >= 1 && q * Pow(2, e) == p - 1 && Legendre(n, p) == -1
  }

  /** The while loop ends: some number of passes leads to b = 1. */
  ghost predicate Ends(a: int, p: nat, n: nat, q: nat, e: nat)
    requires p > 0 && q > 0
  {
    exists k, w :: Passes(p, k, Start(a, p, n, q, e), w) && w.b == 1
  }

  /** Euler's criterion modulo a prime has three outcomes. */
  lemma EulerCases(a: int, p: nat)
    requires Prime(p) && p % 2 == 1
    ensures var c := PowM(a, (p - 1) / 2, p); (c == 0 <==> Divides(p, a)) && (c == 0 || c == 1 || c == p - 1)
  {
    var h, c := (p - 1) / 2, PowM(a, (p - 1) / 2, p);
    if Divides(p, a) {
      SmallMod(0, p);
      CongMul(a, 0, Pow(a, h - 1), Pow(a, h - 1), p);
    } else {
      if c == 0 { PowerDivides(p, a, h); }
      Fermat(p, a);
      PowAdd(a, h, h);
      ModCong(Pow(a, h), p);
      CongMul(c, Pow(a, h), c, Pow(a, h), p);
      RootsOfOne(p, c);
    }
  }

  lemma {:induction false} PowerDivides(p: nat, a: int, k: nat)
    requires Prime(p) && Divides(p, Pow(a, k))
    ensures Divides(p, a)
  {
    if k == 0 {
      SmallMod(1, p);
    } else {
      Euclid(p, a, Pow(a, k - 1));
      if Divides(p, Pow(a, k - 1)) { PowerDivides(p, a, k - 1); }
    }
  }

  /** The invariant of the loop, on signed variables. */
  ghost predicate Kept(a: int, p: nat, v: Vars) {
    v.x >= 0 && v.y >= 0 && v.b >= 0 && v.r >= 0 && Shanks(a, p, v.x, v.y, v.b, v.r)
  }

  /** The inner loop ends when b has the order the invariant promises. */
  lemma FirstOrderExists(b: nat, p: nat, r: nat) returns (m: nat)
    requires p > 1 && b < p && b != 1 && r >= 1 && Squared(b, r - 1, p) == 1
    ensures 1 <= m < r && FirstOrder(b, m, p)
  {
    SmallMod(b, p);
    m := 1;
    while Repeated(b, m, p) != 1
      invariant 1 <= m < r && forall k: nat :: 1 <= k < m ==> Repeated(b, k, p) != 1
      decreases r - m
    {
      if m == r - 1 { RepeatedIs(b, m, p); }
      m := m + 1;
    }
  }

  /** While the invariant holds and b is not 1 there is a pass, which keeps it and lowers r. */
  lemma GoodPass(a: int, p: nat, v: Vars) returns (w: Vars)
    requires Prime(p) && p % 2 == 1 && Kept(a, p, v) && v.b != 1
    ensures OnePass(p, v, w) && Kept(a, p, w) && w.r < v.r
  {
    var m := FirstOrderExists(v.b, p, v.r);
    var t := Squared(v.y, v.r - m - 1, p);
    BeforeOrder(v.b, m, p);
    RepeatedIs(v.y, v.r - m - 1, p);
    ShanksKeeps(a, p, v.x, v.y, v.b, v.r, m, t);
    w := AfterPass(p, v, m);
    assert w == Vars(MulMod(v.x, t, p), MulMod(t, t, p), MulMod(v.b, MulMod(t, t, p), p), m);
  }

  /** From the invariant the loop ends, and with a root. */
  lemma GoodRun(a: int, p: nat, v: Vars) returns (k: nat, w: Vars)
    requires Prime(p) && p % 2 == 1 && Kept(a, p, v)
    ensures Passes(p, k, v, w) && w.b == 1 && Kept(a, p, w)
  {
    hide OnePass, Kept, Prime;
    k, w := 0, v;
    while w.b != 1
      invariant Passes(p, k, v, w) && Kept(a, p, w)
      decreases w.r
    {
      var u := GoodPass(a, p, w);
      assert u.r >= 0 by { KeptPositive(a, p, u); }
      k, w := k + 1, u;
    }
  }

  lemma KeptPositive(a: int, p: nat, v: Vars)
    requires Kept(a, p, v)
    ensures v.r >= 0
  {}

  /** b never gets above 0: so it is for a negative a, and for a multiple of p. */
  ghost predicate NeverPositive(v: Vars) { v.b <= 0 && v.y >= 0 }

  lemma ProductSign(a: int, x: nat)
    requires a <= 0
    ensures a * x <= 0
  {
    MulNonneg(0 - a, x);
    assert (0 - a) * x == 0 - a * x;
  }

  lemma RemSign(v: int, p: nat)
    requires p > 0 && v <= 0
    ensures Rem(v, p) <= 0
  {
    if v == 0 { SmallMod(0, p); }
  }

  lemma NeverPositiveKept(p: nat, v: Vars, w: Vars)
    requires p > 0 && NeverPositive(v) && OnePass(p, v, w)
    ensures NeverPositive(w)
  {
    var m: nat :| FirstOrder(v.b, m, p) && w == AfterPass(p, v, m);
    var t := Repeated(v.y, if v.r - m - 1 > 0 then v.r - m - 1 else 0, p);
    SquareNonneg(t);
    ProductSign(v.b, w.y);
    RemSign(v.b * w.y, p);
  }

  /** b has exactly the order 2^r, and y an order that divides it: so it is for a positive non-residue. */
  ghost predicate Stuck(p: nat, v: Vars) {
    && p > 2 && v.r >= 1 && 0 <= v.y < p && 0 <= v.b < p
    && Squared(v.b, v.r - 1, p) == p - 1 && Squared(v.y, v.r, p) == 1
  }

  lemma {:induction false} StaysOne(b: int, i: nat, k: nat, p: nat)
    requires p > 1 && Squared(b, i, p) == 1
    ensures Squared(b, i + k, p) == 1
  {
    if k > 0 {
      StaysOne(b, i, k - 1, p);
      SmallMod(1, p);
    }
  }

  lemma StuckIsNotOne(p: nat, v: Vars)
    requires Stuck(p, v)
    ensures v.b != 1
  {
    if v.b == 1 {
      SmallMod(1, p);
      StaysOne(1, 0, v.r - 1, p);
    }
  }

  /** The only m a stuck state admits is r itself. */
  lemma StuckOrder(p: nat, v: Vars, m: nat)
    requires Stuck(p, v) && FirstOrder(v.b, m, p)
    ensures m == v.r
  {
    RepeatedIs(v.b, m, p);
    if m <= v.r - 1 { StaysOne(v.b, m, v.r - 1 - m, p); }
    MinusOneSquared(p);
    assert Squared(v.b, v.r, p) == 1;
    RepeatedIs(v.b, v.r, p);
  }

  lemma StuckKept(p: nat, v: Vars, w: Vars)
    requires Stuck(p, v) && OnePass(p, v, w)
    ensures Stuck(p, w)
  {
    var m: nat :| FirstOrder(v.b, m, p) && w == AfterPass(p, v, m);
    StuckOrder(p, v, m);
    SmallMod(v.y, p);
    var y := MulMod(v.y, v.y, p);
    assert Repeated(v.y, 0, p) == v.y && y == Squared(v.y, 1, p);
    assert w.y == y && w.r == v.r && w.b == MulMod(v.b, y, p);
    StuckValues(p, v.y, v.b, v.r, y, w.b);
  }

  lemma StuckValues(p: nat, y: nat, b: nat, r: nat, y': nat, b': nat)
    requires p > 2 && r >= 1 && Squared(b, r - 1, p) == p - 1 && Squared(y, r, p) == 1
    requires y' == Squared(y, 1, p) && b' == MulMod(b, y', p)
    ensures Squared(b', r - 1, p) == p - 1 && Squared(y', r, p) == 1
  {
    hide Squared;
    SquaredTwice(y, 1, r - 1, p);
    SquaredTwice(y, 1, r, p);
    StaysOne(y, r, 1, p);
    SquaredProduct(b, y', r - 1, p);
    ModCong(b * y', p);
    SquaredCong(b', b * y', r - 1, p);
    SmallMod(Squared(b * y', r - 1, p), p);
    SmallMod(p - 1, p);
  }

  /** States that no pass leads out of, and in which b is not 1. */
  ghost predicate Endless(p: nat, v: Vars) { NeverPositive(v) || Stuck(p, v) }

  lemma {:induction false} EndlessKept(p: nat, k: nat, v: Vars, w: Vars)
    requires p > 0 && Endless(p, v) && Passes(p, k, v, w)
    ensures Endless(p, w) && w.b != 1
  {
    hide OnePass, Stuck;
    if k > 0 {
      var u :| Passes(p, k - 1, v, u) && OnePass(p, u, w);
      EndlessKept(p, k - 1, v, u);
      if NeverPositive(u) { NeverPositiveKept(p, u, w); } else { StuckKept(p, u, w); }
    }
    if Stuck(p, w) { StuckIsNotOne(p, w); }
  }

  /** The start values on a positive residue, a positive non-residue, a positive multiple of p, and a negative a. */
  lemma ResidueStarts(a: int, p: nat, n: nat, q: nat, e: nat)
    requires Prepared(p, n, q, e) && a > 0 && PowM(a, (p - 1) / 2, p) == 1
    ensures Kept(a, p, Start(a, p, n, q, e))
  {
    SymbolOne(a, p);
    ShanksStarts(a, p, n, q, e);
    StartProducts(a, PowM(a, (q - 1) / 2, p), p);
  }

  lemma NonResidueStarts(a: int, p: nat, n: nat, q: nat, e: nat)
    requires Prepared(p, n, q, e) && a > 0 && PowM(a, (p - 1) / 2, p) == p - 1
    ensures Stuck(p, Start(a, p, n, q, e))
  {
    TwoDivides(e, q);
    assert q * Pow(2, e - 1) == (p - 1) / 2;
    var c, x := Pow(a, (q - 1) / 2), PowM(a, (q - 1) / 2, p);
    StartValues(a, p, c, x);
    StartProducts(a, x, p);
    PowAdd(a, (q - 1) / 2, (q - 1) / 2);
    assert Pow(a, q) == a * (c * c);
    SquaredPower(a, q, e - 1, p);
    SquaredPower(n, q, e - 1, p);
    ModCong(Pow(n, q), p);
    SquaredCong(PowM(n, q, p), Pow(n, q), e - 1, p);
    SquaredCong(a * x * x % p, Pow(a, q), e - 1, p);
    MinusOneSquared(p);
  }

  lemma MultipleStarts(a: int, p: nat, n: nat, q: nat, e: nat)
    requires Prepared(p, n, q, e) && a > 0 && Divides(p, a)
    ensures Start(a, p, n, q, e).b == 0
  {
    var x := PowM(a, (q - 1) / 2, p);
    SmallMod(0, p);
    CongMul(a, 0, x, x, p);
    CongMul(a * x, 0, x, x, p);
    StartProducts(a, x, p);
  }

  lemma NegativeStarts(a: int, p: nat, n: nat, q: nat, e: nat)
    requires Prepared(p, n, q, e) && a < 0
    ensures NeverPositive(Start(a, p, n, q, e))
  {
    var x := PowM(a, (q - 1) / 2, p);
    ProductSign(a, x);
    ProductSign(a * x, x);
    RemSign(a * x * x, p);
  }

  /** A multiple of p already makes the inner loop run for ever: there is not even a first pass. */
  lemma MultipleHasNoPass(a: int, p: nat, n: nat, q: nat, e: nat, w: Vars)
    requires Prepared(p, n, q, e) && a > 0 && Divides(p, a)
    ensures !OnePass(p, Start(a, p, n, q, e), w)
  {
    MultipleStarts(a, p, n, q, e);
    forall m: nat ensures !FirstOrder(0, m, p) { ZeroStaysZero(m, p); }
  }

  lemma {:induction false} ZeroStaysZero(m: nat, p: nat)
    requires p > 0
    ensures Repeated(0, m, p) == 0
  {
    SmallMod(0, p);
    if m > 0 { ZeroStaysZero(m - 1, p); }
  }

  /** Shanks' loop ends if and only if a is positive and passes Euler's criterion. */
  lemma EndsExactly(a: int, p: nat, n: nat, q: nat, e: nat)
    requires Prepared(p, n, q, e) && a != 0
    ensures Ends(a, p, n, q, e) <==> a > 0 && PowM(a, (p - 1) / 2, p) == 1
  {
    hide PowM, Legendre, Kept, Stuck, Start, Rem;
    var v := Start(a, p, n, q, e);
    if a > 0 && PowM(a, (p - 1) / 2, p) == 1 {
      ResidueStarts(a, p, n, q, e);
      var k, w := GoodRun(a, p, v);
    } else {
      EndlessStarts(a, p, n, q, e);
      forall k, w | Passes(p, k, v, w) ensures w.b != 1 { EndlessKept(p, k, v, w); }
    }
  }

  lemma EndlessStarts(a: int, p: nat, n: nat, q: nat, e: nat)
    requires Prepared(p, n, q, e) && a != 0 && !(a > 0 && PowM(a, (p - 1) / 2, p) == 1)
    ensures Endless(p, Start(a, p, n, q, e))
  {
    if a < 0 {
      NegativeStarts(a, p, n, q, e);
    } else {
      EulerCases(a, p);
      if Divides(p, a) { MultipleStarts(a, p, n, q, e); } else { NonResidueStarts(a, p, n, q, e); }
    }
  }

  /** sqrRootMod as a whole returns: at once for 0, with one power when p is 3 modulo 4, else when the loop ends. */
  ghost predicate Returns(a: int, p: nat, n: nat, q: nat, e: nat)
    requires p > 0 && q > 0
  {
    a == 0 || p % 4 == 3 || Ends(a, p, n, q, e)
  }

  lemma ReturnsExactly(a: int, p: nat, n: nat, q: nat, e: nat)
    requires Prepared(p, n, q, e)
    ensures Returns(a, p, n, q, e) <==> a == 0 || p % 4 == 3 || (a > 0 && PowM(a, (p - 1) / 2, p) == 1)
  {
    if a != 0 { EndsExactly(a, p, n, q, e); }
  }

  /** On a number that has a square root, it returns if and only if a is 0, p is 3 modulo 4, or a is positive and no
      multiple of p. */
  lemma ResidueReturns(a: int, p: nat, n: nat, q: nat, e: nat)
    requires Prepared(p, n, q, e) && Residue(a, p)
    ensures Returns(a, p, n, q, e) <==> a == 0 || p % 4 == 3 || (a > 0 && !Divides(p, a))
  {
    EulerCases(a, p);
    if a != 0 { EndsExactly(a, p, n, q, e); }
    if !Divides(p, a) {
      ResidueSymbol(a, p);
      SmallMod(1, p);
    }
  }

  /** Modulo 5 the non-residue 2, the residue -1 and the multiple 5 each keep it running for ever; the last two have
      square roots. */
  lemma EndlessInputs(n: nat)
    requires Legendre(n, 5) == -1
    ensures Prepared(5, n, 1, 2) && !Returns(2, 5, n, 1, 2) && !Returns(-1, 5, n, 1, 2) && !Returns(5, 5, n, 1, 2)
    ensures Residue(-1, 5) && Residue(5, 5) && Legendre(2, 5) == -1
  {
    assert Pow(2, 2) == 2 * Pow(2, 1) == 4;
    assert PowM(2, 2, 5) == 4;
    assert Pow(5, 2) == 5 * Pow(5, 1) == 25;
    EndsExactly(2, 5, n, 1, 2);
    EndsExactly(-1, 5, n, 1, 2);
    EndsExactly(5, 5, n, 1, 2);
    assert Root(2, -1, 5) && Root(0, 5, 5);
  }
}
