/** Multiplication, division and remainder facts the solver needs spelled out. */
module Arith {

  lemma MulNonneg(a: int, b: int)
    requires a >= 0 && b >= 0
    ensures a * b >= 0
  {}

  lemma MulLe(a: int, b: int, c: int)
    requires a <= b && c >= 0
    ensures c * a <= c * b
  {
    MulNonneg(b - a, c);
    assert c * (b - a) == c * b - c * a;
  }

  /** Quotient and remainder are determined by the division equation. */
  lemma DivUnique(c: int, w: int, q: int)
    requires w > 0 && w * q <= c < w * q + w
    ensures c / w == q && c % w == c - w * q
  {
    var d, m := c / w, c % w;
    assert c == w * d + m && 0 <= m < w;
    if d < q {
      assert w * (q - 1) == w * q - w;
      MulLe(d, q - 1, w);
    } else if d > q {
      assert w * (q + 1) == w * q + w;
      MulLe(q + 1, d, w);
    }
  }

  lemma DivShift(c: int, w: int, n: int)
    requires w > 0
    ensures (c + w * n) / w == c / w + n && (c + w * n) % w == c % w
  {
    var q := c / w;
    assert w * (q + n) == w * q + w * n;
    DivUnique(c + w * n, w, q + n);
  }

  /** Division keeps the order of the dividends. */
  lemma DivMono(a: int, b: int, w: int)
    requires a <= b && w > 0
    ensures a / w <= b / w
  {
    var p, q := a / w, b / w;
    assert a == w * p + a % w && b == w * q + b % w;
    assert w * (q + 1) == w * q + w;
    if p > q { MulLe(q + 1, p, w); }
  }

  function Pow2(n: nat): (p: nat)
    ensures p > 0
  {
    if n == 0 then 1 else 2 * Pow2(n - 1)
  }

  lemma {:induction false} Pow2Add(a: nat, b: nat)
    ensures Pow2(a + b) == Pow2(a) * Pow2(b)
  {
    if a > 0 { Pow2Add(a - 1, b); }
  }

  lemma Pow2Of64()
    ensures Pow2(64) == 0x1_0000_0000_0000_0000
  {
    assert Pow2(8) == 0x100;
    assert Pow2(16) == 0x1_0000 by { Pow2Add(8, 8); }
    assert Pow2(32) == 0x1_0000_0000 by { Pow2Add(16, 16); }
    Pow2Add(32, 32);
  }
}
