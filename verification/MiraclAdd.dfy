/** MIRACL's signed addition and subtraction of big numbers, in place and with any aliasing of the operands. */
module MiraclAdd {
  import opened Arith

  const WORD: nat := 0x1_0000_0000_0000_0000

  type Word = n: nat | n < WORD

  const MR_ERR_OVERFLOW: nat := 3
  const MR_ERR_NEG_RESULT: nat := 5

  /** The number a row of digits stands for, lowest digit first. */
  function Val(s: seq<Word>, r: nat): nat {
    if s == [] then 0 else s[0] + r * Val(s[1..], r)
  }

  function RPow(r: nat, n: nat): nat {
    if n == 0 then 1 else r * RPow(r, n - 1)
  }

  lemma Rotate(a: int, b: int, c: int)
    ensures a * (b * c) == (a * b) * c
  {}

  lemma {:induction false} ValConcat(a: seq<Word>, b: seq<Word>, r: nat)
    ensures Val(a + b, r) == Val(a, r) + RPow(r, |a|) * Val(b, r)
  {
    if a == [] {
      assert a + b == b;
    } else {
      ValConcat(a[1..], b, r);
      assert (a + b)[1..] == a[1..] + b;
      var p, v := RPow(r, |a| - 1), Val(b, r);
      assert r * (Val(a[1..], r) + p * v) == r * Val(a[1..], r) + r * (p * v);
      Rotate(r, p, v);
    }
  }

  lemma ValPush(s: seq<Word>, d: Word, r: nat)
    ensures Val(s + [d], r) == Val(s, r) + RPow(r, |s|) * d
  {
    ValConcat(s, [d], r);
    assert Val([d], r) == d + r * Val([], r);
  }

  lemma {:induction false} RPowPositive(r: nat, n: nat)
    requires r > 0
    ensures RPow(r, n) > 0
  {
    if n > 0 { RPowPositive(r, n - 1); }
  }

  /** Digits below the radix. */
  ghost predicate Digits(s: seq<Word>, r: nat) {
    forall k | 0 <= k < |s| :: s[k] < r
  }

  lemma NextDigit(v: nat, p: nat, r: nat, d: nat)
    requires v < p && d < r
    ensures d + r * v < r * p
  {
    MulLe(v + 1, p, r);
    assert r * (v + 1) == r * v + r;
  }

  lemma {:induction false} ValBound(s: seq<Word>, r: nat)
    requires Digits(s, r) && r > 0
    ensures Val(s, r) < RPow(r, |s|)
  {
    if s != [] {
      ValBound(s[1..], r);
      NextDigit(Val(s[1..], r), RPow(r, |s| - 1), r, s[0]);
    }
  }

  /** Leading zeros add nothing. */
  lemma {:induction false} ValZeros(s: seq<Word>, n: nat, r: nat)
    requires n <= |s| && forall k | n <= k < |s| :: s[k] == 0
    ensures Val(s, r) == Val(s[..n], r)
    decreases |s|
  {
    if n == |s| {
      assert s[..n] == s;
    } else {
      var m := |s| - 1;
      assert s == s[..m] + [s[m]];
      ValPush(s[..m], s[m], r);
      ValZeros(s[..m], n, r);
      assert s[..m][..n] == s[..n];
    }
  }

  /** One column of a sum keeps the running equation. */
  lemma SumColumn(z: seq<Word>, x: seq<Word>, y: seq<Word>, a: Word, b: Word, c: nat, d: Word, c': nat, r: nat)
    requires |z| == |x| == |y| && a + b + c == r * c' + d
    requires Val(z, r) + RPow(r, |z|) * c == Val(x, r) + Val(y, r)
    ensures Val(z + [d], r) + RPow(r, |z| + 1) * c' == Val(x + [a], r) + Val(y + [b], r)
  {
    ValPush(z, d, r);
    ValPush(x, a, r);
    ValPush(y, b, r);
    ColumnEquation(RPow(r, |z|), RPow(r, |z| + 1), r, a, b, c, d, c');
  }

  lemma ColumnEquation(p: int, q: int, r: int, a: int, b: int, c: int, d: int, c': int)
    requires a + b + c == r * c' + d && q == r * p
    ensures p * d + q * c' == p * a + p * b + p * c
  {
    var m := r * c';
    assert p * (m + d) == p * m + p * d;
    assert p * (a + b + c) == p * a + p * b + p * c;
    Rotate(p, r, c');
    assert p * r == r * p;
  }

  function Plus(a: int, b: int): int { a + b }

  /** Above the last column touched every digit is already the sum. */
  lemma {:induction false} SumTail(z: seq<Word>, x: seq<Word>, y: seq<Word>, i: nat, r: nat)
    requires |z| == |x| == |y| && i <= |z| && Val(z[..i], r) == Val(x[..i], r) + Val(y[..i], r)
    requires forall k | i <= k < |z| :: z[k] == Plus(x[k], y[k])
    ensures Val(z, r) == Val(x, r) + Val(y, r)
    decreases |z|
  {
    if i == |z| {
      assert z[..i] == z && x[..i] == x && y[..i] == y;
    } else {
      var m := |z| - 1;
      assert z[..m][..i] == z[..i] && x[..m][..i] == x[..i] && y[..m][..i] == y[..i];
      SumTail(z[..m], x[..m], y[..m], i, r);
      assert z == z[..m] + [z[m]] && x == x[..m] + [x[m]] && y == y[..m] + [y[m]];
      SumColumn(z[..m], x[..m], y[..m], x[m], y[m], 0, z[m], 0, r);
    }
  }

  /** The library's settings: base 0 stands for full-width words, and nib is the most words a number may take when
      checking is on. */
  class Miracl {
    const base: nat
    const nib: nat
    const check: bool
    var ERNUM: nat

    constructor (base: nat, nib: nat, check: bool)
      ensures this.base == base && this.nib == nib && this.check == check && ERNUM == 0
    {
      this.base, this.nib, this.check, ERNUM := base, nib, check, 0;
    }

    /** A small base leaves room for one sum of two digits and a carry in a word. */
    ghost predicate Valid() { nib > 0 && (base == 0 || (2 <= base && 2 * base <= WORD)) }

    function Radix(): (r: nat) {
      if base == 0 then WORD else base
    }

    /** One column of an addition. Full-width code sees the carry by comparing the wrapped sum with a digit, and keeps the
        old carry when they are equal. */
    method AddColumn(a: Word, b: Word, carry: Word) returns (d: Word, carry': Word)
      requires Valid() && a < Radix() && b < Radix() && carry <= 1
      ensures d < Radix() && carry' <= 1 && a + b + carry == Radix() * carry' + d
    {
      if base == 0 {
        var psum := (a + b + carry) % WORD;
        WrapSum(a + b + carry);
        carry' := carry;
        if psum > a {
          carry' := 0;
        } else if psum < a {
          carry' := 1;
        }
        d := psum;
      } else {
        var psum := a + b + carry;
        carry' := 0;
        if psum >= base {
          carry' := 1;
          psum := psum - base;
        }
        d := psum;
      }
    }

    /** One column of a subtraction, with the borrow recovered the same way. */
    method SubColumn(a: Word, b: Word, borrow: Word) returns (d: Word, borrow': Word)
      requires Valid() && a < Radix() && b < Radix() && borrow <= 1
      ensures d < Radix() && borrow' <= 1 && d + b + borrow == Radix() * borrow' + a
    {
      if base == 0 {
        var pdiff := (a - b - borrow) % WORD;
        WrapDifference(a - b - borrow);
        borrow' := borrow;
        if pdiff < a {
          borrow' := 0;
        } else if pdiff > a {
          borrow' := 1;
        }
        d := pdiff;
      } else {
        var pdiff := b + borrow;
        borrow' := 0;
        if a >= pdiff {
          d := a - pdiff;
        } else {
          d := base + a - pdiff;
          borrow' := 1;
        }
      }
    }
  }

  lemma WrapSum(s: nat)
    requires s < 2 * WORD
    ensures s % WORD == if s < WORD then s else s - WORD
  {
    DivUnique(s, WORD, if s < WORD then 0 else 1);
  }

  lemma WrapDifference(s: int)
    requires s + WORD >= 0 && s < WORD
    ensures s % WORD == if s >= 0 then s else s + WORD
  {
    DivUnique(s, WORD, if s >= 0 then 0 else -1);
  }

  /** A big number: a sign and the words of its magnitude, of which `len` are in use. */
  class Big {
    const w: array<Word>
    var len: nat
    var neg: bool

    constructor (words: nat)
      ensures w.Length == words && len == 0 && !neg && fresh(w) && forall k | 0 <= k < words :: w[k] == 0
    {
      w := new Word[words](_ => 0);
      len, neg := 0, false;
    }

    /** Words above len are zero, the top word is not, and zero is not negative. */
    ghost predicate Valid(m: Miracl)
      reads this, w
    {
      && len < w.Length && (m.check ==> len <= m.nib < w.Length)
      && (forall k | len <= k < w.Length :: w[k] == 0)
      && Digits(w[..], m.Radix())
      && (len > 0 ==> w[len - 1] != 0) && (neg ==> len > 0)
    }

    ghost function Mag(m: Miracl): nat
      reads this, w
    {
      Val(w[..], m.Radix())
    }

    /** The number, with its sign. */
    ghost function Value(m: Miracl): int
      reads this, w
    {
      if neg then 0 - Mag(m) else Mag(m)
    }
  }

  /** The operands of one call: valid numbers of the same capacity, the same object or disjoint. */
  ghost predicate Operands(m: Miracl, x: Big, y: Big, z: Big)
    reads x, x.w, y, y.w, z, z.w
  {
    && m.Valid() && x.Valid(m) && y.Valid(m) && z.Valid(m)
    && x.w.Length == y.w.Length == z.w.Length
    && (!m.check ==> x.len + 1 < x.w.Length && y.len + 1 < x.w.Length)
    && (x == z || x.w != z.w) && (y == z || y.w != z.w) && (x == y || x.w != y.w)
  }

  /** copy. */
  method Copy(m: Miracl, x: Big, y: Big)
    requires m.Valid() && x.Valid(m) && y.Valid(m) && x.w.Length == y.w.Length && (x == y || x.w != y.w)
    modifies y, y.w
    ensures y.Valid(m) && y.w[..] == old(x.w[..]) && y.len == old(x.len) && y.neg == old(x.neg)
  {
    if x == y {
      return;
    }
    for i := x.len to if y.len > x.len then y.len else x.len
      modifies y.w
      invariant forall k | x.len <= k < i :: y.w[k] == 0
      invariant forall k | y.len <= k < y.w.Length :: y.w[k] == 0
    {
      y.w[i] := 0;
    }
    for i := 0 to x.len
      modifies y.w
      invariant forall k | 0 <= k < i :: y.w[k] == x.w[k]
      invariant forall k | x.len <= k < y.w.Length :: y.w[k] == 0
    {
      y.w[i] := x.w[i];
    }
    y.len, y.neg := x.len, x.neg;
    assert y.w[..] == x.w[..];
  }

  /** Part way through an addition: the first i columns are summed, the others still hold the operands, and where only
      one operand is left its digits are in place already. */
  ghost predicate Summed(m: Miracl, gx: array<Word>, gy: array<Word>, gz: array<Word>, xs: seq<Word>, ys: seq<Word>,
                         la: nat, i: nat, carry: Word)
    reads gx, gy, gz
  {
    && gx.Length == gy.Length == gz.Length == |xs| == |ys| && i <= |xs| && carry <= 1
    && Digits(xs, m.Radix()) && Digits(ys, m.Radix()) && Digits(gz[..i], m.Radix())
    && (forall k | i <= k < |xs| :: gx[k] == xs[k] && gy[k] == ys[k])
    && (forall k | i <= k < |xs| && la <= k :: gz[k] == Plus(xs[k], ys[k]))
    && (forall k | la <= k < |xs| :: xs[k] == 0 || ys[k] == 0)
    && Val(gz[..i], m.Radix()) + RPow(m.Radix(), i) * carry == Val(xs[..i], m.Radix()) + Val(ys[..i], m.Radix())
  }

  method AddStep(m: Miracl, gx: array<Word>, gy: array<Word>, gz: array<Word>, ghost xs: seq<Word>, ghost ys: seq<Word>,
                 ghost la: nat, i: nat, carry: Word) returns (carry': Word)
    requires m.Valid() && Summed(m, gx, gy, gz, xs, ys, la, i, carry) && i < |xs|
    modifies gz
    ensures Summed(m, gx, gy, gz, xs, ys, la, i + 1, carry')
  {
    ghost var row := gz[..i];
    var d;
    d, carry' := m.AddColumn(gx[i], gy[i], carry);
    gz[i] := d;
    SumColumn(row, xs[..i], ys[..i], xs[i], ys[i], carry, d, carry', m.Radix());
    assert gz[..i + 1] == row + [d] && xs[..i + 1] == xs[..i] + [xs[i]] && ys[..i + 1] == ys[..i] + [ys[i]];
  }

  /** The column loops of mr_padd: to the length of the shorter operand, then on while there is a carry. */
  method AddColumns(m: Miracl, gx: array<Word>, gy: array<Word>, gz: array<Word>, ghost xs: seq<Word>, ghost ys: seq<Word>,
                    la: nat, lz: nat) returns (i: nat, carry: Word)
    requires m.Valid() && Summed(m, gx, gy, gz, xs, ys, la, 0, 0) && la <= lz <= |xs|
    modifies gz
    ensures la <= i <= lz && (carry == 0 || i == lz) && Summed(m, gx, gy, gz, xs, ys, la, i, carry)
  {
    hide Summed;
    carry, i := 0, 0;
    while i < la
      invariant i <= la && Summed(m, gx, gy, gz, xs, ys, la, i, carry)
    {
      carry := AddStep(m, gx, gy, gz, xs, ys, la, i, carry);
      i := i + 1;
    }
    while i < lz && carry > 0
      invariant la <= i <= lz && Summed(m, gx, gy, gz, xs, ys, la, i, carry)
    {
      carry := AddStep(m, gx, gy, gz, xs, ys, la, i, carry);
      i := i + 1;
    }
  }

  /** The choice of lengths in mr_padd, and the copy of the longer operand when it is not the result's own. */
  method PrepareSum(m: Miracl, x: Big, y: Big, z: Big) returns (la: nat, lz: nat)
    requires Operands(m, x, y, z)
    modifies z, z.w
    ensures lz == (if old(y.len) > old(x.len) then old(y.len) else old(x.len)) && la <= lz
    ensures x != z ==> x.w[..] == old(x.w[..])
    ensures Summed(m, x.w, y.w, z.w, old(x.w[..]), old(y.w[..]), la, 0, 0)
  {
    var lx, ly := x.len, y.len;
    if ly > lx {
      lz, la := ly, lx;
      if x != z {
        Copy(m, y, z);
      } else {
        la := ly;
      }
    } else {
      lz, la := lx, ly;
      if y != z {
        Copy(m, x, z);
      } else {
        la := lx;
      }
    }
    assert Val(z.w[..0], m.Radix()) == 0;
  }

  /** A number with a digit other than zero at position n - 1 is at least r^(n-1). */
  lemma TopDigitBound(s: seq<Word>, n: nat, r: nat)
    requires 0 < n <= |s| && s[n - 1] != 0 && r > 0
    ensures Val(s, r) >= RPow(r, n - 1)
  {
    assert s == s[..n - 1] + s[n - 1..];
    ValConcat(s[..n - 1], s[n - 1..], r);
    RPowPositive(r, n - 1);
    MulNonneg(r, Val(s[n - 1..][1..], r));
    MulLe(1, Val(s[n - 1..], r), RPow(r, n - 1));
  }

  /** A number of at least r^(n-1) without digits from n on has its top digit at n - 1. */
  lemma TopDigit(s: seq<Word>, n: nat, r: nat)
    requires 0 < n <= |s| && Digits(s, r) && r > 0 && Val(s, r) >= RPow(r, n - 1)
    requires forall k | n <= k < |s| :: s[k] == 0
    ensures s[n - 1] != 0
  {
    if s[n - 1] == 0 {
      ValZeros(s, n - 1, r);
      ValBound(s[..n - 1], r);
    }
  }

  /** The end of mr_padd on the words: a carry left over goes into the word above. */
  method StoreCarry(m: Miracl, gx: array<Word>, gy: array<Word>, gz: array<Word>, ghost xs: seq<Word>, ghost ys: seq<Word>,
                    ghost la: nat, i: nat, carry: Word, ghost lz: nat)
    requires m.Valid() && Summed(m, gx, gy, gz, xs, ys, la, i, carry) && la <= i <= lz < |xs| && (carry == 0 || i == lz)
    requires forall k | lz <= k < |xs| :: xs[k] == 0 && ys[k] == 0
    modifies gz
    ensures Val(gz[..], m.Radix()) == Val(xs, m.Radix()) + Val(ys, m.Radix()) && Digits(gz[..], m.Radix())
    ensures gz[lz] == carry && forall k | lz < k < |xs| :: gz[k] == 0
  {
    if carry > 0 {
      ghost var row := gz[..i];
      gz[i] := carry;
      CarryPushed(m, row, xs, ys, i, carry);
      assert gz[..i + 1] == row + [carry];
      TailDone(m, gz[..], xs, ys, i + 1);
    } else {
      TailDone(m, gz[..], xs, ys, i);
    }
  }

  lemma CarryPushed(m: Miracl, z: seq<Word>, xs: seq<Word>, ys: seq<Word>, i: nat, carry: Word)
    requires m.Valid() && |z| == i < |xs| == |ys| && carry <= 1 && xs[i] == ys[i] == 0 && Digits(z, m.Radix())
    requires Val(z, m.Radix()) + RPow(m.Radix(), i) * carry == Val(xs[..i], m.Radix()) + Val(ys[..i], m.Radix())
    ensures Digits(z + [carry], m.Radix())
    ensures Val(z + [carry], m.Radix()) == Val(xs[..i + 1], m.Radix()) + Val(ys[..i + 1], m.Radix())
  {
    SumColumn(z, xs[..i], ys[..i], 0, 0, carry, carry, 0, m.Radix());
    assert xs[..i + 1] == xs[..i] + [0] && ys[..i + 1] == ys[..i] + [0];
  }

  lemma TailDone(m: Miracl, z: seq<Word>, xs: seq<Word>, ys: seq<Word>, i: nat)
    requires m.Valid() && |z| == |xs| == |ys| && i <= |z| && Digits(z[..i], m.Radix()) && Digits(xs, m.Radix()) && Digits(ys, m.Radix())
    requires Val(z[..i], m.Radix()) == Val(xs[..i], m.Radix()) + Val(ys[..i], m.Radix())
    requires forall k | i <= k < |z| :: z[k] == Plus(xs[k], ys[k]) && (xs[k] == 0 || ys[k] == 0)
    ensures Val(z, m.Radix()) == Val(xs, m.Radix()) + Val(ys, m.Radix()) && Digits(z, m.Radix())
  {
    SumTail(z, xs, ys, i, m.Radix());
    forall k | 0 <= k < |z| ensures z[k] < m.Radix() {
      if k < i { assert z[k] == z[..i][k]; }
    }
  }

  /** A carry out of column n means the sum needs more than n digits. */
  lemma CarryMeans(m: Miracl, z: seq<Word>, xs: seq<Word>, ys: seq<Word>, n: nat, carry: Word)
    requires m.Valid() && |z| == n <= |xs| == |ys| && carry <= 1 && Digits(z, m.Radix())
    requires Val(z, m.Radix()) + RPow(m.Radix(), n) * carry == Val(xs[..n], m.Radix()) + Val(ys[..n], m.Radix())
    requires forall k | n <= k < |xs| :: xs[k] == 0 && ys[k] == 0
    ensures carry == 1 <==> Val(xs, m.Radix()) + Val(ys, m.Radix()) >= RPow(m.Radix(), n)
  {
    ValBound(z, m.Radix());
    ValZeros(xs, n, m.Radix());
    ValZeros(ys, n, m.Radix());
    CarryIff(Val(z, m.Radix()), RPow(m.Radix(), n), carry, Val(xs, m.Radix()) + Val(ys, m.Radix()));
  }

  lemma CarryIff(v: nat, p: nat, c: nat, sum: nat)
    requires v < p && c <= 1 && v + p * c == sum
    ensures c == 1 <==> sum >= p
  {
    assert c == 0 || p * c == p;
  }

  /** Two numbers of n digits have a sum of at most n + 1. */
  lemma SumFits(m: Miracl, xs: seq<Word>, ys: seq<Word>, n: nat)
    requires m.Valid() && n <= |xs| == |ys| && Digits(xs, m.Radix()) && Digits(ys, m.Radix()) && n < m.nib
    requires forall k | n <= k < |xs| :: xs[k] == 0 && ys[k] == 0
    ensures Val(xs, m.Radix()) + Val(ys, m.Radix()) < RPow(m.Radix(), m.nib)
  {
    var r := m.Radix();
    ValZeros(xs, n, r);
    ValZeros(ys, n, r);
    ValBound(xs[..n], r);
    ValBound(ys[..n], r);
    RPowPositive(r, n);
    MulLe(2, r, RPow(r, n));
    assert RPow(r, n + 1) == r * RPow(r, n);
    RPowGrows(r, n + 1, m.nib);
  }

  lemma {:induction false} RPowGrows(r: nat, a: nat, b: nat)
    requires r > 0 && a <= b
    ensures RPow(r, a) <= RPow(r, b)
    decreases b
  {
    if a < b {
      RPowGrows(r, a, b - 1);
      RPowPositive(r, b - 1);
      MulLe(1, r, RPow(r, b - 1));
    }
  }

  /** The whole row of a number, its magnitude and its length. */
  ghost predicate Row(m: Miracl, s: seq<Word>, len: nat) {
    && len <= |s| && Digits(s, m.Radix()) && (forall k | len <= k < |s| :: s[k] == 0) && (len > 0 ==> s[len - 1] != 0)
  }

  /** The overflow test of mr_padd fires exactly when the sum does not fit nib digits. */
  lemma OverflowExact(m: Miracl, z: seq<Word>, xs: seq<Word>, ys: seq<Word>, i: nat, carry: Word, lz: nat)
    requires m.Valid() && |z| == i <= lz <= |xs| == |ys| && carry <= 1 && (carry == 0 || i == lz)
    requires Digits(z, m.Radix()) && Digits(xs, m.Radix()) && Digits(ys, m.Radix()) && (m.check ==> lz <= m.nib)
    requires Val(z, m.Radix()) + RPow(m.Radix(), i) * carry == Val(xs[..i], m.Radix()) + Val(ys[..i], m.Radix())
    requires carry == 0 ==> forall k | i <= k < |xs| :: xs[k] == 0 || ys[k] == 0
    requires forall k | lz <= k < |xs| :: xs[k] == 0 && ys[k] == 0
    ensures m.check ==> (carry == 1 && i >= m.nib <==> TooLarge(m, xs, ys))
  {
    if m.check {
      if lz < m.nib {
        SumFits(m, xs, ys, lz);
      } else if carry == 1 {
        CarryMeans(m, z, xs, ys, lz, carry);
      } else {
        NoCarryFits(m, z, xs, ys, i, lz);
      }
    }
  }

  /** The sum does not fit nib digits. */
  ghost predicate TooLarge(m: Miracl, xs: seq<Word>, ys: seq<Word>) {
    Val(xs, m.Radix()) + Val(ys, m.Radix()) >= RPow(m.Radix(), m.nib)
  }

  /** Without a carry the sum has the digits already there, so it fits. */
  lemma NoCarryFits(m: Miracl, z: seq<Word>, xs: seq<Word>, ys: seq<Word>, i: nat, lz: nat)
    requires m.Valid() && |z| == i <= lz <= |xs| == |ys|
    requires Digits(z, m.Radix()) && Digits(xs, m.Radix()) && Digits(ys, m.Radix())
    requires Val(z, m.Radix()) == Val(xs[..i], m.Radix()) + Val(ys[..i], m.Radix())
    requires forall k | i <= k < |xs| :: xs[k] == 0 || ys[k] == 0
    requires forall k | lz <= k < |xs| :: xs[k] == 0 && ys[k] == 0
    ensures Val(xs, m.Radix()) + Val(ys, m.Radix()) < RPow(m.Radix(), lz)
  {
    var full := Extended(z, xs, ys);
    TailDone(m, full, xs, ys, i);
    ValZeros(full, lz, m.Radix());
    ValBound(full[..lz], m.Radix());
  }

  /** z continued by the digits of whichever operand goes on. */
  function Extended(z: seq<Word>, xs: seq<Word>, ys: seq<Word>): (s: seq<Word>)
    requires |z| <= |xs| == |ys| && forall k | |z| <= k < |xs| :: xs[k] == 0 || ys[k] == 0
    ensures |s| == |xs| && s[..|z|] == z && forall k | |z| <= k < |s| :: s[k] == Plus(xs[k], ys[k])
  {
    z + seq<Word>(|xs| - |z|, k requires 0 <= k < |xs| - |z| => if xs[|z| + k] == 0 then ys[|z| + k] else xs[|z| + k])
  }

  /** The length of a sum of rows of lengths lx and ly, with `top` in the word above both: the code trims one zero. */
  lemma SumRow(m: Miracl, z: seq<Word>, xs: seq<Word>, ys: seq<Word>, lx: nat, ly: nat, lz: nat, len: nat)
    requires m.Valid() && Row(m, xs, lx) && Row(m, ys, ly) && |z| == |xs| == |ys| && lz < |z| && Digits(z, m.Radix())
    requires lz == (if ly > lx then ly else lx) && Val(z, m.Radix()) == Val(xs, m.Radix()) + Val(ys, m.Radix())
    requires (forall k | lz < k < |z| :: z[k] == 0) && (len == lz + 1 || (len == lz && z[lz] == 0)) && len > 0
    ensures Row(m, z, if z[len - 1] == 0 then len - 1 else len)
  {
    if z[lz] == 0 && lz > 0 {
      if ly > lx { TopDigitBound(ys, lz, m.Radix()); } else { TopDigitBound(xs, lz, m.Radix()); }
      TopDigit(z, lz, m.Radix());
    }
  }

  /** The part of mr_padd that works on words: all columns and the carry left over; true stands for the overflow error. */
  method PaddWords(m: Miracl, gx: array<Word>, gy: array<Word>, gz: array<Word>, ghost xs: seq<Word>, ghost ys: seq<Word>,
                   la: nat, lz: nat) returns (overflow: bool)
    requires m.Valid() && Summed(m, gx, gy, gz, xs, ys, la, 0, 0) && la <= lz < |xs| && (m.check ==> lz <= m.nib)
    requires forall k | lz <= k < |xs| :: xs[k] == 0 && ys[k] == 0
    modifies gz
    ensures overflow <==> m.check && TooLarge(m, xs, ys)
    ensures !overflow ==> Val(gz[..], m.Radix()) == Val(xs, m.Radix()) + Val(ys, m.Radix()) && Digits(gz[..], m.Radix())
    ensures !overflow ==> (m.check && lz == m.nib ==> gz[lz] == 0) && forall k | lz < k < |xs| :: gz[k] == 0
  {
    var i, carry := AddColumns(m, gx, gy, gz, xs, ys, la, lz);
    OverflowExact(m, gz[..i], xs, ys, i, carry, lz);
    if carry > 0 && m.check && i >= m.nib {
      return true;
    }
    StoreCarry(m, gx, gy, gz, xs, ys, la, i, carry, lz);
    overflow := false;
  }

  /** mr_padd once the lengths are chosen. */
  method PaddRest(m: Miracl, gx: array<Word>, gy: array<Word>, z: Big, ghost xs: seq<Word>, ghost ys: seq<Word>,
                  ghost lx: nat, ghost ly: nat, la: nat, lz: nat)
    requires m.Valid() && Row(m, xs, lx) && Row(m, ys, ly) && Summed(m, gx, gy, z.w, xs, ys, la, 0, 0)
    requires lz == (if ly > lx then ly else lx) && la <= lz < |xs| && (m.check ==> lz <= m.nib)
    requires z.len == (if lz < m.nib || !m.check then lz + 1 else lz)
    modifies m, z`len, z.w
    ensures m.check && TooLarge(m, xs, ys) ==> m.ERNUM == MR_ERR_OVERFLOW
    ensures !(m.check && TooLarge(m, xs, ys)) ==>
      m.ERNUM == old(m.ERNUM) && Row(m, z.w[..], z.len) && z.Mag(m) == Val(xs, m.Radix()) + Val(ys, m.Radix())
  {
    var overflow := PaddWords(m, gx, gy, z.w, xs, ys, la, lz);
    if overflow {
      m.ERNUM := MR_ERR_OVERFLOW;
      return;
    }
    TrimTop(m, z, xs, ys, lx, ly, lz);
  }

  /** mr_padd: the sum of two magnitudes, or the overflow error exactly when checking is on and nib words do not hold it. */
  method Padd(m: Miracl, x: Big, y: Big, z: Big)
    requires Operands(m, x, y, z) && !x.neg && !y.neg
    modifies m, z, z.w
    ensures x != z ==> x.w[..] == old(x.w[..])
    ensures y != z ==> y.w[..] == old(y.w[..])
    ensures m.check && TooLarge(m, old(x.w[..]), old(y.w[..])) ==> m.ERNUM == MR_ERR_OVERFLOW
    ensures !(m.check && TooLarge(m, old(x.w[..]), old(y.w[..]))) ==>
      m.ERNUM == old(m.ERNUM) && Row(m, z.w[..], z.len) && !z.neg && z.Mag(m) == old(x.Mag(m)) + old(y.Mag(m))
  {
    ghost var xs, ys, lx, ly := x.w[..], y.w[..], x.len, y.len;
    var la, lz := PrepareSum(m, x, y, z);
    z.len, z.neg := lz, false;
    if lz < m.nib || !m.check {
      z.len := z.len + 1;
    }
    PaddRest(m, x.w, y.w, z, xs, ys, lx, ly, la, lz);
  }

  /** The last line of mr_padd. */
  method TrimTop(m: Miracl, z: Big, ghost xs: seq<Word>, ghost ys: seq<Word>, ghost lx: nat, ghost ly: nat, ghost lz: nat)
    requires m.Valid() && Row(m, xs, lx) && Row(m, ys, ly) && z.w.Length == |xs| == |ys| && lz < z.w.Length
    requires lz == (if ly > lx then ly else lx) && Digits(z.w[..], m.Radix())
    requires Val(z.w[..], m.Radix()) == Val(xs, m.Radix()) + Val(ys, m.Radix())
    requires (forall k | lz < k < z.w.Length :: z.w[k] == 0) && (z.len == lz + 1 || (z.len == lz && z.w[lz] == 0)) && z.len > 0
    modifies z`len
    ensures Row(m, z.w[..], z.len)
  {
    SumRow(m, z.w[..], xs, ys, lx, ly, lz, z.len);
    if z.w[z.len - 1] == 0 {
      z.len := z.len - 1;
    }
  }

  /** Part way through a subtraction: the first i columns are done, and above the subtrahend's digits z holds x's. */
  ghost predicate Reduced(m: Miracl, gx: array<Word>, gy: array<Word>, gz: array<Word>, xs: seq<Word>, ys: seq<Word>,
                          la: nat, i: nat, borrow: Word)
    reads gx, gy, gz
  {
    && gx.Length == gy.Length == gz.Length == |xs| == |ys| && i <= |xs| && borrow <= 1
    && Digits(xs, m.Radix()) && Digits(ys, m.Radix()) && Digits(gz[..i], m.Radix())
    && (forall k | i <= k < |xs| :: gx[k] == xs[k] && gy[k] == ys[k])
    && (forall k | i <= k < |xs| && la <= k :: gz[k] == xs[k] && ys[k] == 0)
    && Val(xs[..i], m.Radix()) + RPow(m.Radix(), i) * borrow == Val(gz[..i], m.Radix()) + Val(ys[..i], m.Radix())
  }

  method SubStep(m: Miracl, gx: array<Word>, gy: array<Word>, gz: array<Word>, ghost xs: seq<Word>, ghost ys: seq<Word>,
                 ghost la: nat, i: nat, borrow: Word) returns (borrow': Word)
    requires m.Valid() && Reduced(m, gx, gy, gz, xs, ys, la, i, borrow) && i < |xs|
    modifies gz
    ensures Reduced(m, gx, gy, gz, xs, ys, la, i + 1, borrow')
  {
    ghost var row := gz[..i];
    var d;
    d, borrow' := m.SubColumn(gx[i], gy[i], borrow);
    gz[i] := d;
    SumColumn(xs[..i], row, ys[..i], d, ys[i], borrow, xs[i], borrow', m.Radix());
    assert gz[..i + 1] == row + [d] && xs[..i + 1] == xs[..i] + [xs[i]] && ys[..i + 1] == ys[..i] + [ys[i]];
  }

  /** The column loop of mr_psub; false stands for the error of running past x. */
  method SubColumns(m: Miracl, gx: array<Word>, gy: array<Word>, gz: array<Word>, ghost xs: seq<Word>, ghost ys: seq<Word>,
                    la: nat, lx: nat) returns (ok: bool, ghost i': nat)
    requires m.Valid() && Reduced(m, gx, gy, gz, xs, ys, la, 0, 0) && la <= lx < |xs|
    modifies gz
    ensures ok ==> la <= i' && Reduced(m, gx, gy, gz, xs, ys, la, i', 0)
    ensures !ok ==> i' == lx + 1 && Reduced(m, gx, gy, gz, xs, ys, la, i', 1)
  {
    var borrow, i := 0, 0;
    while i < la || borrow > 0
      invariant i <= lx + 1 && Reduced(m, gx, gy, gz, xs, ys, la, i, borrow)
      decreases lx + 1 - i
    {
      if i > lx {
        return false, i;
      }
      borrow := SubStep(m, gx, gy, gz, xs, ys, la, i, borrow);
      i := i + 1;
    }
    i' := i;
    ok := true;
  }

  /** A finished subtraction is the difference; one that ran past x had x below y. */
  lemma DifferenceDone(m: Miracl, z: seq<Word>, xs: seq<Word>, ys: seq<Word>, i: nat)
    requires m.Valid() && |z| == |xs| == |ys| && i <= |z| && Digits(z[..i], m.Radix()) && Digits(xs, m.Radix())
    requires Val(xs[..i], m.Radix()) == Val(z[..i], m.Radix()) + Val(ys[..i], m.Radix())
    requires forall k | i <= k < |z| :: z[k] == xs[k] && ys[k] == 0
    ensures Val(xs, m.Radix()) == Val(z, m.Radix()) + Val(ys, m.Radix()) && Digits(z, m.Radix())
  {
    SumTail(xs, z, ys, i, m.Radix());
    forall k | 0 <= k < |z| ensures z[k] < m.Radix() {
      if k < i { assert z[k] == z[..i][k]; }
    }
  }

  lemma RanPast(m: Miracl, z: seq<Word>, xs: seq<Word>, ys: seq<Word>, i: nat)
    requires m.Valid() && |z| == i <= |xs| == |ys| && Digits(z, m.Radix())
    requires Val(xs[..i], m.Radix()) + RPow(m.Radix(), i) * 1 == Val(z, m.Radix()) + Val(ys[..i], m.Radix())
    requires forall k | i <= k < |xs| :: xs[k] == 0 && ys[k] == 0
    ensures Val(xs, m.Radix()) < Val(ys, m.Radix())
  {
    ValBound(z, m.Radix());
    ValZeros(xs, i, m.Radix());
    ValZeros(ys, i, m.Radix());
  }

  /** A number below r^n has no digit from n on. */
  lemma HighZeros(s: seq<Word>, n: nat, r: nat)
    requires r > 0 && n <= |s| && Val(s, r) < RPow(r, n)
    ensures forall k | n <= k < |s| :: s[k] == 0
  {
    forall k | n <= k < |s| ensures s[k] == 0 {
      RPowGrows(r, n, k);
      if s[k] != 0 { TopDigitBound(s, k + 1, r); }
    }
  }

  /** The longer of two rows is the larger number. */
  lemma LongerIsLarger(m: Miracl, a: seq<Word>, b: seq<Word>, la: nat, lb: nat)
    requires m.Valid() && Row(m, a, la) && Row(m, b, lb) && la < lb && |a| == |b|
    ensures Val(a, m.Radix()) < Val(b, m.Radix())
  {
    var r := m.Radix();
    ValZeros(a, la, r);
    ValBound(a[..la], r);
    RPowGrows(r, la, lb - 1);
    TopDigitBound(b, lb, r);
  }

  /** mr_lzero. */
  method LeadingZeros(m: Miracl, z: Big)
    requires z.len <= z.w.Length && Digits(z.w[..], m.Radix()) && forall k | z.len <= k < z.w.Length :: z.w[k] == 0
    modifies z`len, z`neg
    ensures Row(m, z.w[..], z.len) && z.neg == (old(z.neg) && z.len > 0)
  {
    var n := z.len;
    while n > 0 && z.w[n - 1] == 0
      invariant 0 <= n <= z.w.Length && forall k | n <= k < z.w.Length :: z.w[k] == 0
    {
      n := n - 1;
    }
    z.len := n;
    z.neg := z.neg && n > 0;
  }

  /** mr_psub once the lengths are known to fit. */
  method PsubRest(m: Miracl, gx: array<Word>, gy: array<Word>, z: Big, ghost xs: seq<Word>, ghost ys: seq<Word>, la: nat, lx: nat)
    requires m.Valid() && Row(m, xs, lx) && Reduced(m, gx, gy, z.w, xs, ys, la, 0, 0) && la <= lx < |xs|
    requires (forall k | lx <= k < |ys| :: ys[k] == 0) && z.len == lx && !z.neg
    modifies m, z`len, z`neg, z.w
    ensures Val(xs, m.Radix()) < Val(ys, m.Radix()) ==> m.ERNUM == MR_ERR_NEG_RESULT
    ensures Val(xs, m.Radix()) >= Val(ys, m.Radix()) ==>
      m.ERNUM == old(m.ERNUM) && Row(m, z.w[..], z.len) && !z.neg && z.Mag(m) == Val(xs, m.Radix()) - Val(ys, m.Radix())
  {
    var ok;
    ghost var i;
    ok, i := SubColumns(m, gx, gy, z.w, xs, ys, la, lx);
    if !ok {
      RanPast(m, z.w[..i], xs, ys, i);
      m.ERNUM := MR_ERR_NEG_RESULT;
      return;
    }
    DifferenceDone(m, z.w[..], xs, ys, i);
    ValZeros(xs, lx, m.Radix());
    ValBound(xs[..lx], m.Radix());
    HighZeros(z.w[..], lx, m.Radix());
    LeadingZeros(m, z);
  }

  /** mr_psub: the difference of two magnitudes, or the error exactly when it would be negative. */
  method Psub(m: Miracl, x: Big, y: Big, z: Big)
    requires Operands(m, x, y, z) && !x.neg && !y.neg
    modifies m, z, z.w
    ensures x != z ==> x.w[..] == old(x.w[..])
    ensures y != z ==> y.w[..] == old(y.w[..])
    ensures old(x.Mag(m)) < old(y.Mag(m)) ==> m.ERNUM == MR_ERR_NEG_RESULT
    ensures old(x.Mag(m)) >= old(y.Mag(m)) ==>
      m.ERNUM == old(m.ERNUM) && Row(m, z.w[..], z.len) && !z.neg && z.Mag(m) == old(x.Mag(m)) - old(y.Mag(m))
  {
    ghost var xs, ys := x.w[..], y.w[..];
    var lx, ly := x.len, y.len;
    if ly > lx {
      LongerIsLarger(m, xs, ys, lx, ly);
      m.ERNUM := MR_ERR_NEG_RESULT;
      return;
    }
    if y != z {
      Copy(m, x, z);
    } else {
      ly := lx;
    }
    z.len, z.neg := lx, false;
    assert Val(z.w[..0], m.Radix()) == 0;
    PsubRest(m, x.w, y.w, z, xs, ys, ly, lx);
  }

  /** mr_compare on magnitudes. */
  method Compare(m: Miracl, x: Big, y: Big) returns (r: int)
    requires m.Valid() && x.Valid(m) && y.Valid(m) && x.w.Length == y.w.Length && !x.neg && !y.neg
    ensures r == if x.Mag(m) > y.Mag(m) then 1 else if x.Mag(m) < y.Mag(m) then -1 else 0
  {
    if x == y {
      return 0;
    }
    if x.len > y.len {
      LongerIsLarger(m, y.w[..], x.w[..], y.len, x.len);
      return 1;
    }
    if x.len < y.len {
      LongerIsLarger(m, x.w[..], y.w[..], x.len, y.len);
      return -1;
    }
    var n := x.len;
    while n > 0
      invariant 0 <= n <= x.w.Length && x.w[n..] == y.w[n..]
    {
      n := n - 1;
      if x.w[n] != y.w[n] {
        HigherDigit(m, x.w[..], y.w[..], n);
        return if x.w[n] > y.w[n] then 1 else -1;
      }
    }
    assert x.w[..] == x.w[0..] && y.w[..] == y.w[0..];
    r := 0;
  }

  lemma HigherDigit(m: Miracl, a: seq<Word>, b: seq<Word>, n: nat)
    requires m.Valid() && |a| == |b| && n < |a| && Digits(a, m.Radix()) && Digits(b, m.Radix()) && a[n + 1..] == b[n + 1..]
    ensures a[n] > b[n] ==> Val(a, m.Radix()) > Val(b, m.Radix())
    ensures a[n] < b[n] ==> Val(a, m.Radix()) < Val(b, m.Radix())
  {
    var r := m.Radix();
    Split(a, n, r);
    Split(b, n, r);
    ValBound(a[..n], r);
    ValBound(b[..n], r);
    if a[n] > b[n] {
      LeadingDigit(RPow(r, n), Val(b[..n], r), Val(a[..n], r), b[n], a[n]);
    } else if a[n] < b[n] {
      LeadingDigit(RPow(r, n), Val(a[..n], r), Val(b[..n], r), a[n], b[n]);
    }
  }

  lemma Split(s: seq<Word>, n: nat, r: nat)
    requires n < |s|
    ensures Val(s, r) == Val(s[..n], r) + RPow(r, n) * s[n] + RPow(r, n + 1) * Val(s[n + 1..], r)
  {
    assert s == s[..n + 1] + s[n + 1..] && s[..n + 1] == s[..n] + [s[n]];
    ValConcat(s[..n + 1], s[n + 1..], r);
    ValPush(s[..n], s[n], r);
  }

  lemma LeadingDigit(p: nat, a: nat, b: nat, u: nat, v: nat)
    requires a < p && u < v
    ensures a + p * u < b + p * v
  {
    MulLe(u + 1, v, p);
    assert p * (u + 1) == p * u + p;
  }

  /** mr_select on magnitudes: the sign case jf decides between a sum and a difference of the larger and the smaller; the
      sign of the result comes back. */
  method Combine(m: Miracl, x: Big, y: Big, z: Big, jf: nat) returns (minus: bool)
    requires Operands(m, x, y, z) && !x.neg && !y.neg && jf < 4
    modifies m, z, z.w
    ensures x != z ==> x.w[..] == old(x.w[..])
    ensures y != z ==> y.w[..] == old(y.w[..])
    ensures var a, b := old(x.Mag(m)), old(y.Mag(m));
      if SumOverflows(m, jf, a, b) then m.ERNUM == MR_ERR_OVERFLOW
      else m.ERNUM == old(m.ERNUM) && Row(m, z.w[..], z.len) && !z.neg
           && Signed(z.Mag(m), minus) == Total(jf, a, b) && (minus && jf != 0 ==> z.Mag(m) > 0)
  {
    var xgty := Compare(m, x, y);
    if jf == 0 || jf == 3 {
      if xgty >= 0 {
        Padd(m, x, y, z);
      } else {
        Padd(m, y, x, z);
      }
      minus := jf == 0;
    } else if jf == 1 {
      if xgty <= 0 {
        Psub(m, y, x, z);
        minus := false;
      } else {
        Psub(m, x, y, z);
        minus := true;
      }
    } else {
      if xgty >= 0 {
        Psub(m, x, y, z);
        minus := false;
      } else {
        Psub(m, y, x, z);
        minus := true;
      }
    }
  }

  /** The value of a signed sum of magnitudes a and b in sign case jf. */
  function Total(jf: int, a: int, b: int): int {
    if jf == 0 then 0 - a - b else if jf == 1 then b - a else if jf == 2 then a - b else a + b
  }

  /** The magnitudes combined, and the sign of the result put on it. */
  method CombineSigned(m: Miracl, x: Big, y: Big, z: Big, jf: nat, ghost overflow: bool, ghost total: int)
    requires Operands(m, x, y, z) && !x.neg && !y.neg && jf < 4 && (jf == 0 ==> x.Mag(m) + y.Mag(m) > 0)
    requires overflow == SumOverflows(m, jf, x.Mag(m), y.Mag(m)) && total == Total(jf, x.Mag(m), y.Mag(m))
    modifies m, z, z.w
    ensures x != z ==> x.w[..] == old(x.w[..])
    ensures y != z ==> y.w[..] == old(y.w[..])
    ensures Outcome(m, z, old(m.ERNUM), overflow, total)
  {
    var minus := Combine(m, x, y, z, jf);
    if minus {
      z.neg := !z.neg;
    }
    ZeroLength(m, z.w[..], z.len);
  }

  lemma ZeroLength(m: Miracl, s: seq<Word>, len: nat)
    ensures Row(m, s, len) && Val(s, m.Radix()) > 0 ==> len > 0
  {
    if Row(m, s, len) && len == 0 { ValZeros(s, 0, m.Radix()); }
  }

  ghost predicate SumOverflows(m: Miracl, jf: int, a: nat, b: nat) {
    (jf == 0 || jf == 3) && m.check && a + b >= RPow(m.Radix(), m.nib)
  }

  /** How a call ends: with the overflow error, or with z a proper number of the given value and no new error. */
  ghost predicate Outcome(m: Miracl, z: Big, ernum: nat, overflow: bool, value: int)
    reads m, z, z.w
  {
    if overflow then m.ERNUM == MR_ERR_OVERFLOW
    else m.ERNUM == ernum && Row(m, z.w[..], z.len) && z.Value(m) == value && (z.neg ==> z.len > 0)
  }

  /** The magnitude of a valid number fits nib words when checking is on, and a negative number is not zero. */
  lemma ValidRange(m: Miracl, x: Big)
    requires m.Valid() && x.Valid(m)
    ensures m.check ==> x.Mag(m) < RPow(m.Radix(), m.nib)
    ensures x.neg ==> x.Mag(m) > 0
  {
    var r := m.Radix();
    if m.check {
      ValZeros(x.w[..], m.nib, r);
      ValBound(x.w[..m.nib], r);
      assert x.w[..][..m.nib] == x.w[..m.nib];
    }
    if x.neg {
      TopDigitBound(x.w[..], x.len, r);
      RPowPositive(r, x.len - 1);
    }
  }

  /** What the sign case amounts to. */
  lemma SignCase(m: Miracl, a: nat, b: nat, xneg: bool, yneg: bool, d: int, jf: int)
    requires (d == 1 || d == -1) && (xneg ==> a > 0) && (yneg ==> b > 0)
    requires m.check ==> a < RPow(m.Radix(), m.nib) && b < RPow(m.Radix(), m.nib)
    requires jf == (if xneg then 0 else 2) + (if (d == 1) == yneg then 0 else 1)
    ensures SumOverflows(m, jf, a, b) <==> Overflows(m, Signed(a, xneg), d * Signed(b, yneg))
    ensures Signed(a, xneg) + d * Signed(b, yneg)
            == Total(jf, a, b)
    ensures xneg ==> a + b > 0
  {
    assert d * Signed(b, yneg) == if d == 1 then Signed(b, yneg) else 0 - Signed(b, yneg);
  }

  function Signed(a: nat, neg: bool): int { if neg then 0 - a else a }

  /** mr_select up to the signs of the operands, which it takes off. */
  method SelectUnsigned(m: Miracl, x: Big, d: int, y: Big, z: Big, ghost overflow: bool, ghost total: int)
    requires Operands(m, x, y, z) && (d == 1 || d == -1) && total == x.Value(m) + d * y.Value(m)
    requires overflow == Overflows(m, x.Value(m), d * y.Value(m))
    modifies m, x`neg, y`neg, z, z.w
    ensures x != z ==> x.w[..] == old(x.w[..]) && !x.neg
    ensures y != z ==> y.w[..] == old(y.w[..]) && !y.neg
    ensures Outcome(m, z, old(m.ERNUM), overflow, total)
  {
    SelectCase(m, x, y, d);
    ghost var a, b := x.Mag(m), y.Mag(m);
    var jf := TakeSigns(m, x, d, y, z);
    assert x.Mag(m) == a && y.Mag(m) == b;
    CombineSigned(m, x, y, z, jf, overflow, total);
  }

  /** The sign case of mr_select. */
  function JF(xneg: bool, yneg: bool, d: int): int {
    var sx := if xneg then -1 else 1;
    var sy := if yneg then -1 else 1;
    (1 + sx) + (1 + d * sy) / 2
  }

  lemma SelectCase(m: Miracl, x: Big, y: Big, d: int)
    requires m.Valid() && x.Valid(m) && y.Valid(m) && (d == 1 || d == -1)
    ensures var jf := JF(x.neg, y.neg, d);
      && 0 <= jf < 4 && (jf == 0 ==> x.Mag(m) + y.Mag(m) > 0)
      && SumOverflows(m, jf, x.Mag(m), y.Mag(m)) == Overflows(m, x.Value(m), d * y.Value(m))
      && Total(jf, x.Mag(m), y.Mag(m)) == x.Value(m) + d * y.Value(m)
  {
    ValidRange(m, x);
    ValidRange(m, y);
    SignCase(m, x.Mag(m), y.Mag(m), x.neg, y.neg, d, JF(x.neg, y.neg, d));
  }

  /** The sign case, and the operands made positive. */
  method TakeSigns(m: Miracl, x: Big, d: int, y: Big, z: Big) returns (jf: int)
    requires Operands(m, x, y, z)
    modifies x`neg, y`neg
    ensures Operands(m, x, y, z) && !x.neg && !y.neg && jf == JF(old(x.neg), old(y.neg), d)
  {
    var sx := if x.neg then -1 else 1;
    var sy := if y.neg then -1 else 1;
    x.neg, y.neg := false, false;
    jf := (1 + sx) + (1 + d * sy) / 2;
  }

  /** mr_select: z = x + d y; the signs of operands that are not z are put back. */
  method Select(m: Miracl, x: Big, d: int, y: Big, z: Big)
    requires Operands(m, x, y, z) && (d == 1 || d == -1)
    modifies m, x`neg, y`neg, z, z.w
    ensures x != z ==> x.w[..] == old(x.w[..]) && x.neg == old(x.neg)
    ensures y != z ==> y.w[..] == old(y.w[..]) && y.neg == old(y.neg)
    ensures var a, b := old(x.Value(m)), d * old(y.Value(m)); Outcome(m, z, old(m.ERNUM), Overflows(m, a, b), a + b)
  {
    var sx, sy := x.neg, y.neg;
    SelectUnsigned(m, x, d, y, z, Overflows(m, x.Value(m), d * y.Value(m)), x.Value(m) + d * y.Value(m));
    if x != z && sx {
      x.neg := !x.neg;
    }
    if y != z && y != x && sy {
      y.neg := !y.neg;
    }
  }

  /** Numbers of one sign whose magnitudes add up to more than nib words hold. */
  ghost predicate Overflows(m: Miracl, a: int, b: int) {
    m.check && ((a >= 0 && b >= 0 && a + b >= RPow(m.Radix(), m.nib)) || (a <= 0 && b <= 0 && 0 - a - b >= RPow(m.Radix(), m.nib)))
  }

  /** add: nothing happens once an error is pending; otherwise z = x + y, or the overflow error. */
  method Add(m: Miracl, x: Big, y: Big, z: Big)
    requires Operands(m, x, y, z)
    modifies m, x`neg, y`neg, z, z.w
    ensures old(m.ERNUM) != 0 ==> m.ERNUM == old(m.ERNUM) && z.w[..] == old(z.w[..]) && z.len == old(z.len) && z.neg == old(z.neg)
    ensures x != z ==> x.w[..] == old(x.w[..]) && x.neg == old(x.neg)
    ensures y != z ==> y.w[..] == old(y.w[..]) && y.neg == old(y.neg)
    ensures var a, b := old(x.Value(m)), old(y.Value(m)); old(m.ERNUM) == 0 ==> Outcome(m, z, 0, Overflows(m, a, b), a + b)
  {
    if m.ERNUM != 0 {
      return;
    }
    Select(m, x, 1, y, z);
  }

  /** subtract. */
  method Subtract(m: Miracl, x: Big, y: Big, z: Big)
    requires Operands(m, x, y, z)
    modifies m, x`neg, y`neg, z, z.w
    ensures old(m.ERNUM) != 0 ==> m.ERNUM == old(m.ERNUM) && z.w[..] == old(z.w[..]) && z.len == old(z.len) && z.neg == old(z.neg)
    ensures x != z ==> x.w[..] == old(x.w[..]) && x.neg == old(x.neg)
    ensures y != z ==> y.w[..] == old(y.w[..]) && y.neg == old(y.neg)
    ensures var a, b := old(x.Value(m)), old(y.Value(m)); old(m.ERNUM) == 0 ==> Outcome(m, z, 0, Overflows(m, a, 0 - b), a - b)
  {
    if m.ERNUM != 0 {
      return;
    }
    Select(m, x, -1, y, z);
  }

  /** Comparing the wrapped sum with a digit is a right carry only because an equal sum keeps the old one: the column
      WORD - 1 with a carry coming in sums to its other digit and must carry out. */
  lemma KeepOnEqual(a: Word)
    ensures (a + (WORD - 1) + 1) % WORD == a && (a + 0 + 0) % WORD == a
  {
    WrapSum(a + (WORD - 1) + 1);
    WrapSum(a);
  }
}
