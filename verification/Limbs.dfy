/** Numbers as little-endian rows of 64-bit limbs, and the mpn routines the modular arithmetic calls. */
module Limbs {
  import opened Arith
  import opened Modular

  const B: nat := 0x1_0000_0000_0000_0000

  type Limb = n: nat | n < B

  /** The number a row of limbs stands for. */
  function Num(s: seq<Limb>): nat {
    if s == [] then 0 else s[0] + B * Num(s[1..])
  }

  function BPow(n: nat): (p: nat)
    ensures p > 0
  {
    if n == 0 then 1 else B * BPow(n - 1)
  }

  lemma {:induction false} NumBound(s: seq<Limb>)
    ensures Num(s) < BPow(|s|)
  {
    if s != [] { NumBound(s[1..]); }
  }

  lemma {:induction false} NumConcat(a: seq<Limb>, b: seq<Limb>)
    ensures Num(a + b) == Num(a) + BPow(|a|) * Num(b)
  {
    if a == [] {
      assert a + b == b;
    } else {
      NumConcat(a[1..], b);
      assert (a + b)[1..] == a[1..] + b;
      assert B * (BPow(|a| - 1) * Num(b)) == BPow(|a|) * Num(b);
    }
  }

  lemma NumPush(s: seq<Limb>, d: Limb)
    ensures Num(s + [d]) == Num(s) + BPow(|s|) * d
  {
    NumConcat(s, [d]);
    assert Num([d]) == d;
  }

  function Zeros(n: nat): (s: seq<Limb>)
    ensures |s| == n && forall k | 0 <= k < n :: s[k] == 0
  {
    seq<Limb>(n, _ => 0)
  }

  lemma {:induction false} NumZeros(n: nat)
    ensures Num(Zeros(n)) == 0
  {
    if n > 0 {
      NumZeros(n - 1);
      assert Zeros(n)[1..] == Zeros(n - 1);
    }
  }

  /** A product of two limbs plus two limbs fits two limbs. */
  lemma TwoLimbs(a: Limb, b: Limb, c: Limb, d: Limb)
    ensures 0 <= a + b * c + d < B * B
  {
    MulLe(c, B - 1, b);
    MulNonneg(b, c);
  }

  lemma SplitTerm(p: int, w: int, c: int, d: int)
    ensures p * d + (w * p) * c == p * (w * c + d)
  {
    assert p * (w * c + d) == p * (w * c) + p * d;
    assert p * (w * c) == (w * p) * c;
  }

  /** The column equation on the numbers themselves, with w for the limb base. */
  lemma ColumnEquation(w: int, p: int, ns: int, no: int, ny: int, a: int, u: int, y: int, c: int, d: int, c': int,
                       p': int, ns': int, no': int, ny': int)
    requires a + u * y + c == w * c' + d && ns + p * c == no + u * ny
    requires p' == w * p && ns' == ns + p * d && no' == no + p * a && ny' == ny + p * y
    ensures ns' + p' * c' == no' + u * ny'
  {
    SplitTerm(p, w, c', d);
    var v := u * y;
    assert p * (a + v + c) == p * a + p * v + p * c;
    assert p * (u * y) == u * (p * y);
    assert u * (ny + p * y) == u * ny + u * (p * y);
  }

  /** One column of multiply-and-add keeps the running equation. */
  lemma MulColumn(s: seq<Limb>, olds: seq<Limb>, ys: seq<Limb>, a: Limb, u: Limb, y: Limb, c: Limb, d: Limb, c': nat)
    requires |s| == |olds| == |ys| && a + u * y + c == B * c' + d
    requires Num(s) + BPow(|s|) * c == Num(olds) + u * Num(ys)
    ensures Num(s + [d]) + BPow(|s| + 1) * c' == Num(olds + [a]) + u * Num(ys + [y])
  {
    NumPush(s, d);
    NumPush(olds, a);
    NumPush(ys, y);
    ColumnEquation(B, BPow(|s|), Num(s), Num(olds), Num(ys), a, u, y, c, d, c',
                   BPow(|s| + 1), Num(s + [d]), Num(olds + [a]), Num(ys + [y]));
  }

  /** A column sum as low limb and carry. */
  function Column(term: nat): (r: (Limb, Limb))
    requires term < B * B
    ensures term == B * r.1 + r.0
  {
    (term % B, term / B)
  }

  /** mpn_addmul_1: add u times y to the limbs of rp from `off` on; the carry comes back. */
  method AddMul1(rp: array<Limb>, off: nat, y: seq<Limb>, u: Limb) returns (carry: Limb)
    requires off + |y| <= rp.Length
    modifies rp
    ensures rp[..off] == old(rp[..off]) && rp[off + |y|..] == old(rp[off + |y|..])
    ensures Num(rp[off..off + |y|]) + BPow(|y|) * carry == old(Num(rp[off..off + |y|])) + u * Num(y)
  {
    carry := 0;
    ghost var before := rp[..];
    for i := 0 to |y|
      invariant forall k | 0 <= k < rp.Length && !(off <= k < off + i) :: rp[k] == before[k]
      invariant Num(rp[off..off + i]) + BPow(i) * carry == Num(before[off..off + i]) + u * Num(y[..i])
    {
      ghost var s := rp[off..off + i];
      var a, c := rp[off + i], carry;
      TwoLimbs(a, u, y[i], c);
      var term := a + u * y[i] + c;
      var col := Column(term);
      rp[off + i], carry := col.0, col.1;
      MulColumn(s, before[off..off + i], y[..i], a, u, y[i], c, col.0, col.1);
      assert rp[off..off + i + 1] == s + [col.0];
      assert before[off..off + i + 1] == before[off..off + i] + [a];
      assert y[..i + 1] == y[..i] + [y[i]];
    }
    assert y[..|y|] == y;
  }

  /** mpn_mul_1 into the limbs of rp from 0 on. */
  method Mul1(rp: array<Limb>, y: seq<Limb>, u: Limb) returns (carry: Limb)
    requires |y| <= rp.Length
    modifies rp
    ensures Num(rp[..|y|]) + BPow(|y|) * carry == u * Num(y)
  {
    carry := 0;
    ghost var none := Zeros(|y|);
    for i := 0 to |y|
      invariant Num(rp[..i]) + BPow(i) * carry == Num(none[..i]) + u * Num(y[..i])
    {
      ghost var s, c := rp[..i], carry;
      TwoLimbs(0, u, y[i], carry);
      var col := Column(u * y[i] + carry);
      rp[i], carry := col.0, col.1;
      MulColumn(s, none[..i], y[..i], 0, u, y[i], c, col.0, col.1);
      assert rp[..i + 1] == s + [col.0] && none[..i + 1] == none[..i] + [0] && y[..i + 1] == y[..i] + [y[i]];
    }
    NumZeros(|y|);
    assert y[..|y|] == y && none[..|y|] == none;
  }

  lemma AddColumn(s: seq<Limb>, xs: seq<Limb>, ys: seq<Limb>, x: Limb, y: Limb, c: nat, d: Limb, c': nat)
    requires |s| == |xs| == |ys| && x + y + c == B * c' + d
    requires Num(s) + BPow(|s|) * c == Num(xs) + Num(ys)
    ensures Num(s + [d]) + BPow(|s| + 1) * c' == Num(xs + [x]) + Num(ys + [y])
  {
    NumPush(s, d);
    NumPush(xs, x);
    NumPush(ys, y);
    ColumnEquation(B, BPow(|s|), Num(s), Num(xs), Num(ys), x, 1, y, c, d, c',
                   BPow(|s| + 1), Num(s + [d]), Num(xs + [x]), Num(ys + [y]));
  }

  /** mpn_add_n; the operands may be limbs of ans itself. */
  method AddN(ans: array<Limb>, x: seq<Limb>, y: seq<Limb>) returns (carry: Limb)
    requires |x| == |y| <= ans.Length
    modifies ans
    ensures carry <= 1 && ans[|x|..] == old(ans[|x|..])
    ensures Num(ans[..|x|]) + BPow(|x|) * carry == Num(x) + Num(y)
  {
    carry := 0;
    for i := 0 to |x|
      invariant carry <= 1 && ans[|x|..] == old(ans[|x|..])
      invariant Num(ans[..i]) + BPow(i) * carry == Num(x[..i]) + Num(y[..i])
    {
      ghost var s, c := ans[..i], carry;
      var sum := x[i] + y[i] + carry;
      var d := if sum < B then sum else sum - B;
      carry := if sum < B then 0 else 1;
      ans[i] := d;
      AddColumn(s, x[..i], y[..i], x[i], y[i], c, d, carry);
      assert ans[..i + 1] == s + [d] && x[..i + 1] == x[..i] + [x[i]] && y[..i + 1] == y[..i] + [y[i]];
    }
    assert x[..|x|] == x && y[..|y|] == y;
  }

  /** mpn_sub_n; the operands may be limbs of ans itself. */
  method SubN(ans: array<Limb>, x: seq<Limb>, y: seq<Limb>) returns (borrow: Limb)
    requires |x| == |y| <= ans.Length
    modifies ans
    ensures borrow <= 1 && ans[|x|..] == old(ans[|x|..])
    ensures Num(ans[..|x|]) + Num(y) == Num(x) + BPow(|x|) * borrow
  {
    borrow := 0;
    for i := 0 to |x|
      invariant borrow <= 1 && ans[|x|..] == old(ans[|x|..])
      invariant Num(x[..i]) + BPow(i) * borrow == Num(ans[..i]) + Num(y[..i])
    {
      ghost var s, c := ans[..i], borrow;
      var diff := x[i] - y[i] - borrow;
      var d := if diff >= 0 then diff else diff + B;
      borrow := if diff >= 0 then 0 else 1;
      ans[i] := d;
      SubColumn(x[..i], s, y[..i], d, y[i], x[i], c, borrow);
      assert ans[..i + 1] == s + [d] && x[..i + 1] == x[..i] + [x[i]] && y[..i + 1] == y[..i] + [y[i]];
    }
    assert x[..|x|] == x && y[..|y|] == y;
  }

  /** mpn_copyi. */
  method CopyI(rp: array<Limb>, x: seq<Limb>)
    requires |x| <= rp.Length
    modifies rp
    ensures rp[..|x|] == x && rp[|x|..] == old(rp[|x|..])
    ensures forall k | 0 <= k < rp.Length :: rp[k] == if k < |x| then x[k] else old(rp[k])
  {
    for i := 0 to |x|
      invariant forall k | 0 <= k < rp.Length :: rp[k] == if k < i then x[k] else old(rp[k])
    {
      rp[i] := x[i];
    }
  }

  lemma SubColumn(xs: seq<Limb>, s: seq<Limb>, ys: seq<Limb>, d: Limb, y: Limb, x: Limb, c: nat, c': nat)
    requires |s| == |xs| == |ys| && d + y + c == B * c' + x
    requires Num(xs) + BPow(|s|) * c == Num(s) + Num(ys)
    ensures Num(xs + [x]) + BPow(|s| + 1) * c' == Num(s + [d]) + Num(ys + [y])
  {
    AddColumn(xs, s, ys, d, y, c, x, c');
  }

  /** mpn_cmp: the sign of the difference, found from the top limb down. */
  method Cmp(x: seq<Limb>, y: seq<Limb>) returns (r: int)
    requires |x| == |y|
    ensures r < 0 <==> Num(x) < Num(y)
    ensures r > 0 <==> Num(x) > Num(y)
  {
    var i := |x|;
    while i > 0
      invariant 0 <= i <= |x| && x[i..] == y[i..]
    {
      i := i - 1;
      if x[i] != y[i] {
        TopLimbDecides(x, y, i);
        return if x[i] < y[i] then -1 else 1;
      }
    }
    assert x == x[0..] && y == y[0..];
    r := 0;
  }

  lemma TopLimbDecides(x: seq<Limb>, y: seq<Limb>, i: nat)
    requires i < |x| == |y| && x[i + 1..] == y[i + 1..]
    ensures x[i] < y[i] ==> Num(x) < Num(y)
    ensures x[i] > y[i] ==> Num(x) > Num(y)
  {
    NumSplit(x, i);
    NumSplit(y, i);
    NumBound(x[..i]);
    NumBound(y[..i]);
    if x[i] < y[i] { HigherDigitWins(BPow(i), Num(x[..i]), Num(y[..i]), x[i], y[i]); }
    if x[i] > y[i] { HigherDigitWins(BPow(i), Num(y[..i]), Num(x[..i]), y[i], x[i]); }
  }

  lemma HigherDigitWins(p: nat, a: nat, b: nat, m: nat, n: nat)
    requires a < p && m < n
    ensures a + p * m < b + p * n
  {
    MulLe(m + 1, n, p);
    assert p * (m + 1) == p * m + p;
  }

  lemma NumSplit(x: seq<Limb>, i: nat)
    requires i < |x|
    ensures Num(x) == Num(x[..i]) + BPow(i) * x[i] + BPow(i + 1) * Num(x[i + 1..])
  {
    assert x == x[..i + 1] + x[i + 1..] && x[..i + 1] == x[..i] + [x[i]];
    NumConcat(x[..i + 1], x[i + 1..]);
    NumPush(x[..i], x[i]);
  }

  /** A number of n limbs, the high ones possibly zero. */
  function Digits(v: nat, n: nat): (s: seq<Limb>)
    ensures |s| == n
  {
    if n == 0 then [] else [v % B] + Digits(v / B, n - 1)
  }

  lemma {:induction false} DigitsNum(v: nat, n: nat)
    requires v < BPow(n)
    ensures Num(Digits(v, n)) == v
  {
    if n > 0 {
      assert v == B * (v / B) + v % B;
      assert v / B < BPow(n - 1);
      DigitsNum(v / B, n - 1);
    }
  }

  /** The limbs an mpz integer keeps: no zero limb on top. */
  function LimbsOf(v: nat): (s: seq<Limb>)
  {
    if v == 0 then [] else [v % B] + LimbsOf(v / B)
  }

  lemma {:induction false} LimbsOfNum(v: nat)
    ensures Num(LimbsOf(v)) == v
    ensures v > 0 ==> LimbsOf(v)[|LimbsOf(v)| - 1] != 0
  {
    if v > 0 {
      assert v == B * (v / B) + v % B;
      LimbsOfNum(v / B);
      assert LimbsOf(v)[1..] == LimbsOf(v / B);
      if v / B == 0 { SmallMod(v, B); }
    }
  }

  /** A smaller number has no more limbs. */
  lemma {:induction false} LimbsOfFits(v: nat, n: nat)
    requires v < BPow(n)
    ensures |LimbsOf(v)| <= n
  {
    if v > 0 {
      assert v == B * (v / B) + v % B;
      assert v / B < BPow(n - 1);
      LimbsOfFits(v / B, n - 1);
    }
  }

  /** A row of zeros followed by nothing is worth nothing, and only such a row is. */
  lemma {:induction false} ZeroNum(s: seq<Limb>)
    ensures Num(s) == 0 <==> forall k | 0 <= k < |s| :: s[k] == 0
  {
    if s != [] {
      ZeroNum(s[1..]);
      assert forall k | 1 <= k < |s| :: s[k] == s[1..][k - 1];
    }
  }

  /** mpn_copyi of `size` limbs from an mpz that may hold fewer or more: more are cut, missing ones are whatever memory
      lies behind the number. */
  function CopyOf(v: nat, size: nat, stale: seq<Limb>): (s: seq<Limb>)
    requires |stale| >= size
    ensures |s| == size
  {
    (LimbsOf(v) + stale)[..size]
  }

  /** Limbs on top add nothing only when they are zero. */
  lemma HighPart(l: seq<Limb>, high: seq<Limb>)
    ensures Num(l + high) == Num(l) <==> Num(high) == 0
  {
    NumConcat(l, high);
    if Num(high) > 0 { MulLe(1, Num(high), BPow(|l|)); }
  }

  /** Such a copy is right exactly when no limb is cut and the memory behind the number is clear. */
  lemma CopyExact(v: nat, size: nat, stale: seq<Limb>)
    requires |stale| >= size
    ensures Num(CopyOf(v, size, stale)) == v <==>
              |LimbsOf(v)| <= size && forall k | 0 <= k < size - |LimbsOf(v)| :: stale[k] == 0
  {
    hide Num, BPow;
    var l := LimbsOf(v);
    LimbsOfNum(v);
    if |l| <= size {
      var rest := stale[..size - |l|];
      assert CopyOf(v, size, stale) == l + rest;
      HighPart(l, rest);
      ZeroNum(rest);
    } else {
      assert CopyOf(v, size, stale) == l[..size];
      assert l == l[..size] + l[size..];
      HighPart(l[..size], l[size..]);
      ZeroNum(l[size..]);
      assert l[size..][|l| - size - 1] != 0;
    }
  }
}
