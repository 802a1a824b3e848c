/** The Eklundh bit transpose: seven rounds, each exchanging one bit of the row index with one of the column index. */
module Eklundh {
  import opened Bits
  import opened Arith
  import opened Transpose

  type Word = w: seq<bool> | |w| == 64 witness seq(64, _ => false)

  function Not(a: Word): Word { seq(64, i requires 0 <= i < 64 => !a[i]) }

  /** A 64-bit shift toward the high bits. */
  function Shl(a: Word, n: nat): Word { seq(64, i requires 0 <= i < 64 => if i < n then false else a[i - n]) }

  /** A 64-bit shift toward the low bits. */
  function Shr(a: Word, n: nat): Word { seq(64, i requires 0 <= i < 64 => if i + n < 64 then a[i + n] else false) }

  /** Bit b of a hexadecimal digit, for the four digits the masks are written with. */
  predicate DigitBit(d: char, b: nat) {
    d == 'F' || (d == '3' && b < 2) || (d == '5' && b % 2 == 0)
  }

  /** A 64-bit constant from its sixteen digits 0, 3, 5, F, most significant first. */
  function Hex(s: string): Word
    requires |s| == 16
  {
    seq(64, k requires 0 <= k < 64 => DigitBit(s[15 - k / 4], k % 4))
  }

  /** TRANSPOSE_MASKS128: per round, the mask of the high words and the mask of the low words. */
  const TRANSPOSE_MASKS: seq<(string, string)> := [
    ("0000000000000000", "FFFFFFFFFFFFFFFF"),
    ("00000000FFFFFFFF", "00000000FFFFFFFF"),
    ("0000FFFF0000FFFF", "0000FFFF0000FFFF"),
    ("00FF00FF00FF00FF", "00FF00FF00FF00FF"),
    ("0F0F0F0F0F0F0F0F", "0F0F0F0F0F0F0F0F"),
    ("3333333333333333", "3333333333333333"),
    ("5555555555555555", "5555555555555555")]

  /** The exchange distance of round i. */
  function Width(i: nat): nat
    requires i < 7
  {
    [64, 32, 16, 8, 4, 2, 1][i]
  }

  ghost predicate IsWidth(w: nat) { w in {64, 32, 16, 8, 4, 2, 1} }

  /** Whether index c has the bit of value w set. */
  predicate Odd(c: int, w: nat)
    requires w > 0
  {
    (c / w) % 2 == 1
  }

  lemma Halves(w: nat) returns (n: nat)
    requires IsWidth(w) && w < 64
    ensures w * (2 * n) == 64 && n >= 1
  {
    n := if w == 32 then 1 else if w == 16 then 2 else if w == 8 then 4 else if w == 4 then 8
         else if w == 2 then 16 else 32;
  }

  lemma OddShift(c: int, w: nat)
    requires w > 0
    ensures Odd(c + w, w) == !Odd(c, w)
  {
    assert w * 1 == w;
    DivShift(c, w, 1);
  }

  lemma OddFar(c: int, w: nat)
    requires IsWidth(w) && w < 64
    ensures Odd(c + 64, w) == Odd(c, w)
  {
    var n := Halves(w);
    DivShift(c, w, 2 * n);
  }

  lemma EvenStart(c: int, w: nat)
    requires 0 <= c < w
    ensures !Odd(c, w)
  {
    DivUnique(c, w, 0);
  }

  lemma OddEnd(c: int, w: nat)
    requires IsWidth(w) && 128 - w <= c < 128
    ensures Odd(c, w)
  {
    if w < 64 {
      var n := Halves(w);
      assert w * (4 * n - 1) == 2 * (w * (2 * n)) - w;
      DivUnique(c, w, 4 * n - 1);
    }
  }

  function LowMask(i: nat): Word requires i < 7 { Hex(TRANSPOSE_MASKS[i].1) }
  function HighMask(i: nat): Word requires i < 7 { Hex(TRANSPOSE_MASKS[i].0) }

  ghost predicate Striped(m: Word, w: nat)
    requires w > 0
  {
    forall k | 0 <= k < 64 :: m[k] == !Odd(k, w)
  }

  /** The digits of a mask whose stripes are u whole hexadecimal digits wide. */
  ghost predicate DigitStripes(s: string, u: nat)
    requires u > 0
  {
    |s| == 16 && forall q | 0 <= q < 16 :: s[15 - q] == if Odd(q, u) then '0' else 'F'
  }

  lemma OddDigit(k: nat, u: nat)
    requires u > 0
    ensures Odd(k, 4 * u) == Odd(k / 4, u)
  {
    var q := k / 4;
    var d := q / u;
    assert 4 * u * d == 4 * (u * d);
    assert q == u * d + q % u;
    DivUnique(k, 4 * u, d);
  }

  lemma DigitStripesAreStripes(s: string, u: nat)
    requires u > 0 && DigitStripes(s, u)
    ensures Striped(Hex(s), 4 * u)
  {
    forall k | 0 <= k < 64 ensures Hex(s)[k] == !Odd(k, 4 * u) {
      OddDigit(k, u);
      assert s[15 - k / 4] == if Odd(k / 4, u) then '0' else 'F';
    }
  }

  lemma Stripe32()
    ensures Striped(Hex("00000000FFFFFFFF"), 32)
  {
    forall q | 0 <= q < 16 ensures "00000000FFFFFFFF"[15 - q] == if Odd(q, 8) then '0' else 'F' {
      if q < 4 {} else if q < 8 {} else if q < 12 {} else {}
    }
    DigitStripesAreStripes("00000000FFFFFFFF", 8);
  }

  lemma Stripe16()
    ensures Striped(Hex("0000FFFF0000FFFF"), 16)
  {
    forall q | 0 <= q < 16 ensures "0000FFFF0000FFFF"[15 - q] == if Odd(q, 4) then '0' else 'F' {
      if q < 4 {} else if q < 8 {} else if q < 12 {} else {}
    }
    DigitStripesAreStripes("0000FFFF0000FFFF", 4);
  }

  lemma Stripe8()
    ensures Striped(Hex("00FF00FF00FF00FF"), 8)
  {
    forall q | 0 <= q < 16 ensures "00FF00FF00FF00FF"[15 - q] == if Odd(q, 2) then '0' else 'F' {
      if q < 4 {} else if q < 8 {} else if q < 12 {} else {}
    }
    DigitStripesAreStripes("00FF00FF00FF00FF", 2);
  }

  lemma Stripe4()
    ensures Striped(Hex("0F0F0F0F0F0F0F0F"), 4)
  {
    forall q | 0 <= q < 16 ensures "0F0F0F0F0F0F0F0F"[15 - q] == if Odd(q, 1) then '0' else 'F' {
      if q < 4 {} else if q < 8 {} else if q < 12 {} else {}
    }
    DigitStripesAreStripes("0F0F0F0F0F0F0F0F", 1);
  }

  lemma Stripe2()
    ensures Striped(Hex("3333333333333333"), 2)
  {
    assert forall j | 0 <= j < 16 :: "3333333333333333"[j] == '3';
  }

  lemma Stripe1()
    ensures Striped(Hex("5555555555555555"), 1)
  {
    assert forall j | 0 <= j < 16 :: "5555555555555555"[j] == '5';
  }

  /** From round 1 on, a mask keeps the columns whose bit Width(i) is clear. */
  lemma MaskIsStripe(i: nat)
    requires 1 <= i < 7
    ensures LowMask(i) == HighMask(i) && Striped(LowMask(i), Width(i))
  {
    Stripe32(); Stripe16(); Stripe8(); Stripe4(); Stripe2(); Stripe1();
  }

  lemma FirstMasks()
    ensures forall k | 0 <= k < 64 :: LowMask(0)[k] && !HighMask(0)[k]
  {
    assert LowMask(0) == Hex("FFFFFFFFFFFFFFFF") && HighMask(0) == Hex("0000000000000000");
  }

  function Low(b: Block): Word { b[..64] }
  function High(b: Block): Word { b[64..] }

  function KeptLow(t1: Word, tt1: Word, m: Word, w: nat): Word {
    Xor(And(t1, m), Shl(And(tt1, m), w))
  }

  function KeptHigh(t2: Word, tt1: Word, tt2: Word, m1: Word, m2: Word, w: nat): Word
    requires w < 64
  {
    Xor(Xor(And(t2, m2), Shl(And(tt2, m2), w)), Shr(And(tt1, m1), 64 - w))
  }

  function MovedLow(t1: Word, t2: Word, tt1: Word, m1: Word, m2: Word, w: nat): Word
    requires w < 64
  {
    Xor(Xor(And(tt1, Not(m1)), Shr(And(t1, Not(m1)), w)), Shl(And(t2, Not(m2)), 64 - w))
  }

  function MovedHigh(t2: Word, tt2: Word, m: Word, w: nat): Word {
    Xor(And(tt2, Not(m)), Shr(And(t2, Not(m)), w))
  }

  /** Rounds with width below 64: the code's assignments to d1, d2, dd1 and dd2 on a pair of rows. */
  function StepNarrow(top: Block, bot: Block, w: nat, mask1: Word, mask2: Word): (r: (Block, Block))
    requires w < 64
  {
    var t1, t2, tt1, tt2 := Low(top), High(top), Low(bot), High(bot);
    (KeptLow(t1, tt1, mask1, w) + KeptHigh(t2, tt1, tt2, mask1, mask2, w),
     MovedLow(t1, t2, tt1, mask1, mask2, w) + MovedHigh(t2, tt2, mask2, w))
  }

  /** The first round, where a 64-bit shift would be undefined. */
  function StepWide(top: Block, bot: Block, w: nat, mask1: Word, mask2: Word): (r: (Block, Block))
    requires w == 64
  {
    var t2, dd1 := High(top), Low(bot);
    (And(Low(top), mask1) + Xor(And(t2, mask2), Shr(And(dd1, mask1), 64 - w)),
     Xor(And(dd1, Not(mask1)), Shl(And(t2, Not(mask2)), 64 - w)) + And(High(bot), Not(mask2)))
  }

  /** What one round does to a pair of rows w apart: the off-diagonal column groups change places. */
  ghost predicate Exchanged(top: Block, bot: Block, w: nat, r: (Block, Block))
    requires w > 0
  {
    && (forall c | 0 <= c < 128 && !Odd(c, w) :: r.0[c] == top[c] && c + w < 128 && r.1[c] == top[c + w])
    && (forall c | 0 <= c < 128 && Odd(c, w) :: r.1[c] == bot[c] && c - w >= 0 && r.0[c] == bot[c - w])
  }

  function Step(top: Block, bot: Block, i: nat): (Block, Block)
    requires i < 7
  {
    var w := Width(i);
    if w < 64 then StepNarrow(top, bot, w, LowMask(i), HighMask(i))
    else StepWide(top, bot, w, LowMask(i), HighMask(i))
  }

  lemma StepWideExchanges(top: Block, bot: Block, m1: Word, m2: Word)
    requires forall k | 0 <= k < 64 :: m1[k] && !m2[k]
    ensures Exchanged(top, bot, 64, StepWide(top, bot, 64, m1, m2))
  {
    forall c | 0 <= c < 128 ensures Odd(c, 64) <==> c >= 64 {}
  }

  /** What the solver needs to know of a stripe mask of width w. */
  ghost predicate Alternates(m: Word, w: nat)
    requires 0 < w < 64
  {
    && (forall k | 0 <= k < w :: m[k])
    && (forall k | w <= k < 64 :: m[k] == !m[k - w])
    && (forall k | 64 - w <= k < 64 :: !m[k])
  }

  lemma StripesAlternate(m: Word, w: nat)
    requires IsWidth(w) && w < 64 && Striped(m, w)
    ensures Alternates(m, w)
  {
    forall k | 0 <= k < w ensures m[k] { EvenStart(k, w); }
    forall k | w <= k < 64 ensures m[k] == !m[k - w] { OddShift(k - w, w); }
    forall k | 64 - w <= k < 64 ensures !m[k] { OddEnd(k + 64, w); OddFar(k, w); }
  }

  /** The kept words of a row: its own bits where the mask is set, bits from w below in the other row elsewhere. */
  lemma KeptWord(t: Word, tt: Word, lower: Word, m: Word, w: nat, k: nat)
    requires 0 < w < 64 && Alternates(m, w) && k < 64
    ensures KeptLow(t, tt, m, w)[k] == if m[k] then t[k] else tt[k - w]
    ensures KeptHigh(t, lower, tt, m, m, w)[k] == if m[k] then t[k] else tt[k - w]
  {
    assert k < w ==> m[k] && !m[k + (64 - w)];
    assert Shl(And(tt, m), w)[k] == (k >= w && tt[k - w] && m[k - w]);
    assert !Shr(And(lower, m), 64 - w)[k];
  }

  /** The moved words of a row: bits from w above in the other row where the mask is set, its own elsewhere. */
  lemma MovedWord(t: Word, tt: Word, upper: Word, m: Word, w: nat, k: nat)
    requires 0 < w < 64 && Alternates(m, w) && k < 64
    ensures m[k] ==> k + w < 64
    ensures MovedHigh(t, tt, m, w)[k] == if m[k] then t[k + w] else tt[k]
    ensures MovedLow(t, upper, tt, m, m, w)[k] == if m[k] then t[k + w] else tt[k]
  {
    if k >= 64 - w { assert m[k - (64 - w)]; }
    if k + w < 64 { assert m[k + w] == !m[k]; }
    assert Shr(And(t, Not(m)), w)[k] == (k + w < 64 && t[k + w] && !m[k + w]);
    assert !Shl(And(upper, Not(m)), 64 - w)[k];
  }

  /** `kept` has t's bits under the mask and tt's, from w below, elsewhere. */
  ghost predicate Keeps(kept: Word, t: Word, tt: Word, m: Word, w: nat)
    requires 0 < w < 64 && Alternates(m, w)
  {
    forall k | 0 <= k < 64 :: kept[k] == if m[k] then t[k] else tt[k - w]
  }

  /** `moved` has t's bits from w above under the mask and tt's own elsewhere. */
  ghost predicate Moves(moved: Word, t: Word, tt: Word, m: Word, w: nat)
    requires 0 < w < 64 && Alternates(m, w)
  {
    forall k | 0 <= k < 64 :: (m[k] ==> k + w < 64) && moved[k] == if m[k] then t[k + w] else tt[k]
  }

  lemma KeptWords(t: Word, tt: Word, lower: Word, m: Word, w: nat)
    requires 0 < w < 64 && Alternates(m, w)
    ensures Keeps(KeptLow(t, tt, m, w), t, tt, m, w)
    ensures Keeps(KeptHigh(t, lower, tt, m, m, w), t, tt, m, w)
  {
    forall k | 0 <= k < 64
      ensures KeptLow(t, tt, m, w)[k] == if m[k] then t[k] else tt[k - w]
      ensures KeptHigh(t, lower, tt, m, m, w)[k] == if m[k] then t[k] else tt[k - w]
    {
      KeptWord(t, tt, lower, m, w, k);
    }
  }

  lemma MovedWords(t: Word, tt: Word, upper: Word, m: Word, w: nat)
    requires 0 < w < 64 && Alternates(m, w)
    ensures Moves(MovedHigh(t, tt, m, w), t, tt, m, w)
    ensures Moves(MovedLow(t, upper, tt, m, m, w), t, tt, m, w)
  {
    forall k | 0 <= k < 64
      ensures m[k] ==> k + w < 64
      ensures MovedHigh(t, tt, m, w)[k] == if m[k] then t[k + w] else tt[k]
      ensures MovedLow(t, upper, tt, m, m, w)[k] == if m[k] then t[k + w] else tt[k]
    {
      MovedWord(t, tt, upper, m, w, k);
    }
  }

  lemma JoinedWords(top: Block, bot: Block, w: nat, m: Word, a: Word, b: Word, c: Word, d: Word)
    requires IsWidth(w) && w < 64 && Striped(m, w) && Alternates(m, w)
    requires Keeps(a, Low(top), Low(bot), m, w) && Keeps(b, High(top), High(bot), m, w)
    requires Moves(c, Low(top), Low(bot), m, w) && Moves(d, High(top), High(bot), m, w)
    ensures Exchanged(top, bot, w, (a + b, c + d))
  {
    hide Keeps, Moves, Alternates, Striped, Odd, Low, High;
    var r := (a + b, c + d);
    forall k | 0 <= k < 128 && !Odd(k, w) ensures r.0[k] == top[k] && k + w < 128 && r.1[k] == top[k + w] {
      if k < 64 { JoinedLow(top, bot, w, m, a, c, k); } else { JoinedHigh(top, bot, w, m, b, d, k - 64); }
    }
    forall k | 0 <= k < 128 && Odd(k, w) ensures r.1[k] == bot[k] && k - w >= 0 && r.0[k] == bot[k - w] {
      if k < 64 { JoinedLow(top, bot, w, m, a, c, k); } else { JoinedHigh(top, bot, w, m, b, d, k - 64); }
    }
  }

  lemma JoinedLow(top: Block, bot: Block, w: nat, m: Word, a: Word, c: Word, k: nat)
    requires IsWidth(w) && w < 64 && Striped(m, w) && Alternates(m, w) && k < 64
    requires Keeps(a, Low(top), Low(bot), m, w) && Moves(c, Low(top), Low(bot), m, w)
    ensures if !Odd(k, w) then a[k] == top[k] && k + w < 64 && c[k] == top[k + w]
            else c[k] == bot[k] && k - w >= 0 && a[k] == bot[k - w]
  {}

  lemma JoinedHigh(top: Block, bot: Block, w: nat, m: Word, b: Word, d: Word, k: nat)
    requires IsWidth(w) && w < 64 && Striped(m, w) && Alternates(m, w) && k < 64
    requires Keeps(b, High(top), High(bot), m, w) && Moves(d, High(top), High(bot), m, w)
    ensures if !Odd(k + 64, w) then b[k] == top[k + 64] && k + w < 64 && d[k] == top[k + 64 + w]
            else d[k] == bot[k + 64] && k - w >= 0 && b[k] == bot[k + 64 - w]
  {
    OddFar(k, w);
  }

  lemma StepNarrowExchanges(top: Block, bot: Block, w: nat, m: Word)
    requires IsWidth(w) && w < 64 && Striped(m, w)
    ensures Exchanged(top, bot, w, StepNarrow(top, bot, w, m, m))
  {
    StripesAlternate(m, w);
    var t1, t2, tt1, tt2 := Low(top), High(top), Low(bot), High(bot);
    KeptWords(t1, tt1, tt1, m, w);
    KeptWords(t2, tt2, tt1, m, w);
    MovedWords(t1, tt1, t2, m, w);
    MovedWords(t2, tt2, t2, m, w);
    JoinedWords(top, bot, w, m, KeptLow(t1, tt1, m, w), KeptHigh(t2, tt1, tt2, m, m, w),
                MovedLow(t1, t2, tt1, m, m, w), MovedHigh(t2, tt2, m, w));
  }

  lemma StepExchanges(top: Block, bot: Block, i: nat)
    requires i < 7
    ensures IsWidth(Width(i)) && Exchanged(top, bot, Width(i), Step(top, bot, i))
  {
    if i == 0 {
      FirstMasks();
      StepWideExchanges(top, bot, LowMask(0), HighMask(0));
    } else {
      MaskIsStripe(i);
      StepNarrowExchanges(top, bot, Width(i), LowMask(i));
    }
  }

  /** Row r after round i. */
  function RoundRow(m: Square, i: nat, r: nat): Block
    requires i < 7 && r < 128
  {
    var w := Width(i);
    if !Odd(r, w) then (if r + w < 128 then Step(m[r], m[r + w], i).0 else m[r])
    else if r >= w then Step(m[r - w], m[r], i).1 else m[r]
  }

  lemma OddMod(c: nat, w: nat)
    requires w > 0
    ensures c % (2 * w) == c % w + if Odd(c, w) then w else 0
    ensures c / (2 * w) == c / w / 2
  {
    var q := c / w;
    assert 2 * w * (q / 2) == w * (2 * (q / 2));
    assert q == 2 * (q / 2) + q % 2;
    assert w * q == w * (2 * (q / 2)) + w * (q % 2);
    assert c == w * q + c % w;
    DivUnique(c, 2 * w, q / 2);
  }

  /** The number of the row pair that r belongs to in a round of width w. */
  function Pair(r: nat, w: nat): int
    requires w > 0
  {
    w * (r / (2 * w)) + r % w
  }

  lemma RowOfPair(w: nat, j: nat, k: nat, r: nat, odd: bool)
    requires w > 0 && k < w && r == k + (if odd then w else 0) + 2 * w * j
    ensures Odd(r, w) == odd && r / (2 * w) == j && r % w == k && Pair(r, w) == w * j + k
  {
    var o := if odd then 1 else 0;
    assert w * (2 * j + o) == 2 * w * j + w * o;
    DivUnique(r, w, 2 * j + o);
    OddMod(r, w);
  }

  lemma PairOfRow(w: nat, j: nat, k: nat, r: nat)
    requires w > 0 && k < w && Pair(r, w) == w * j + k
    ensures r == k + (if Odd(r, w) then w else 0) + 2 * w * j
  {
    var a, b := r / (2 * w), r % w;
    DivUnique(w * a + b, w, a);
    DivUnique(w * a + b, w, j);
    OddMod(r, w);
    assert r == 2 * w * a + r % (2 * w);
  }

  /** The rows of the pairs numbered below n have reached their goal. */
  ghost predicate PairsDone(now: Square, was: Square, goal: Square, w: nat, n: int)
    requires w > 0
  {
    forall r | 0 <= r < 128 :: now[r] == if Pair(r, w) < n then goal[r] else was[r]
  }

  lemma NoPairDone(m: Square, goal: Square, w: nat)
    requires w > 0
    ensures PairsDone(m, m, goal, w, w * 0)
  {
    forall r | 0 <= r < 128 ensures Pair(r, w) >= 0 { MulNonneg(w, r / (2 * w)); }
  }

  lemma PairStepped(now: Square, was: Square, goal: Square, w: nat, j: nat, k: nat)
    requires k < w && k + w + 2 * w * j < 128
    requires PairsDone(now, was, goal, w, w * j + k)
    ensures now[k + 2 * w * j] == was[k + 2 * w * j] && now[k + w + 2 * w * j] == was[k + w + 2 * w * j]
    ensures PairsDone(now[k + 2 * w * j := goal[k + 2 * w * j]][k + w + 2 * w * j := goal[k + w + 2 * w * j]],
                      was, goal, w, w * j + (k + 1))
  {
    hide Pair, PairsDone, Odd;
    MulNonneg(2 * w, j);
    var n := w * j + k;
    var i1, i2 := k + 2 * w * j, k + w + 2 * w * j;
    RowOfPair(w, j, k, i1, false);
    RowOfPair(w, j, k, i2, true);
    forall r | 0 <= r < 128 && r != i1 && r != i2 ensures Pair(r, w) != n {
      if Pair(r, w) == n { PairOfRow(w, j, k, r); }
    }
    NextPairDone(now, was, goal, w, n, i1, i2);
  }

  lemma NextPairDone(now: Square, was: Square, goal: Square, w: nat, n: nat, i1: nat, i2: nat)
    requires w > 0 && PairsDone(now, was, goal, w, n) && i1 < i2 < 128 && Pair(i1, w) == n == Pair(i2, w)
    requires forall r | 0 <= r < 128 && r != i1 && r != i2 :: Pair(r, w) != n
    ensures now[i1] == was[i1] && now[i2] == was[i2]
    ensures PairsDone(now[i1 := goal[i1]][i2 := goal[i2]], was, goal, w, n + 1)
  {
    hide Pair;
  }

  /** The matrix after round i. */
  function Rounded(m: Square, i: nat): Square
    requires i < 7
  {
    seq(128, r requires 0 <= r < 128 => RoundRow(m, i, r))
  }

  lemma RoundedPair(m: Square, i: nat, j: nat, k: nat)
    requires i < 7 && k < Width(i) && k + Width(i) + 2 * Width(i) * j < 128
    ensures var i1, i2 := k + 2 * Width(i) * j, k + Width(i) + 2 * Width(i) * j;
            (Rounded(m, i)[i1], Rounded(m, i)[i2]) == Step(m[i1], m[i2], i)
  {
    RowOfPair(Width(i), j, k, k + 2 * Width(i) * j, false);
    RowOfPair(Width(i), j, k, k + Width(i) + 2 * Width(i) * j, true);
  }

  lemma LastPair(i: nat, n: nat, r: nat)
    requires i < 7 && 2 * Width(i) * n == 128 && r < 128
    ensures Pair(r, Width(i)) < Width(i) * n
  {
    var w := Width(i);
    var a := r / (2 * w);
    assert r == 2 * w * a + r % (2 * w);
    if a >= n { MulLe(n, a, 2 * w); }
    MulLe(a, n - 1, w);
    assert w * (n - 1) == w * n - w;
  }

  /** The body of the inner loop: one pair of rows goes through round i. */
  method StepPair(m: array<Block>, i: nat, width: nat, i1: nat, i2: nat)
    requires m.Length == 128 && i < 7 && width == Width(i) && i1 < i2 < 128
    modifies m
    ensures m[..] == old(m[..])[i1 := Step(old(m[i1]), old(m[i2]), i).0][i2 := Step(old(m[i1]), old(m[i2]), i).1]
  {
    var r := if width < 64 then StepNarrow(m[i1], m[i2], width, LowMask(i), HighMask(i))
             else StepWide(m[i1], m[i2], width, LowMask(i), HighMask(i));
    m[i1], m[i2] := r.0, r.1;
  }

  /** The pair reached at (j, k) goes through round i; the pairs before it already have. */
  method AdvancePair(m: array<Block>, i: nat, width: nat, j: nat, k: nat, ghost was: Square, ghost goal: Square)
    requires m.Length == 128 && i < 7 && width == Width(i) && k < width && k + width + 2 * width * j < 128
    requires goal == Rounded(was, i) && PairsDone(m[..], was, goal, width, width * j + k)
    modifies m
    ensures PairsDone(m[..], was, goal, width, width * j + (k + 1))
  {
    MulNonneg(2 * width, j);
    PairStepped(m[..], was, goal, width, j, k);
    RoundedPair(was, i, j, k);
    StepPair(m, i, width, k + 2 * width * j, k + width + 2 * width * j);
  }

  lemma PairRoom(j: nat, nswaps: nat, width: nat)
    requires j < nswaps && 2 * width * nswaps == 128
    ensures 2 * width * j + 2 * width <= 128
  {
    MulLe(j + 1, nswaps, 2 * width);
    assert 2 * width * (j + 1) == 2 * width * j + 2 * width;
  }

  /** One round of eklundh_transpose128. */
  method Round(m: array<Block>, i: nat, width: nat, nswaps: nat, ghost goal: Square)
    requires m.Length == 128 && i < 7 && width == Width(i) && 2 * width * nswaps == 128
    requires goal == Rounded(m[..], i)
    modifies m
    ensures m[..] == goal
  {
    ghost var was: Square := m[..];
    NoPairDone(was, goal, width);
    for j := 0 to nswaps
      invariant PairsDone(m[..], was, goal, width, width * j)
    {
      PairRoom(j, nswaps, width);
      for k := 0 to width
        invariant PairsDone(m[..], was, goal, width, width * j + k)
      {
        AdvancePair(m, i, width, j, k, was, goal);
      }
      assert width * (j + 1) == width * j + width;
    }
    forall r | 0 <= r < 128 ensures m[r] == goal[r] { LastPair(i, nswaps, r); }
  }

  /** The index whose high part, above w, is taken from hi and whose low part from lo. */
  function Mix(hi: int, lo: int, w: nat): int
    requires w > 0
  {
    hi - hi % w + lo % w
  }

  /** Rows and columns have exchanged the parts of their indices from w up. */
  ghost predicate Swapped(now: Square, was: Square, w: nat)
    requires w > 0
  {
    forall r, c | 0 <= r < 128 && 0 <= c < 128 ::
      0 <= Mix(c, r, w) < 128 && 0 <= Mix(r, c, w) < 128 && now[r][c] == was[Mix(c, r, w)][Mix(r, c, w)]
  }

  /** One more index bit: where an entry of the next round came from, in both coordinates. */
  lemma MixHalved(r: nat, c: nat, w: nat)
    requires w > 0
    ensures Odd(r, w) == Odd(c, w) ==> Mix(c, r, 2 * w) == Mix(c, r, w)
    ensures !Odd(r, w) && Odd(c, w) ==> Mix(c - w, r + w, 2 * w) == Mix(c, r, w) && Mix(r + w, c - w, 2 * w) == Mix(r, c, w)
  {
    OddMod(r, w);
    OddMod(c, w);
    if !Odd(r, w) && Odd(c, w) {
      OddShift(r, w);
      OddMod(r + w, w);
      assert w * 1 == w;
      DivShift(r, w, 1);
      if c < w { EvenStart(c, w); }
      OddShift(c - w, w);
      OddMod(c - w, w);
      DivShift(c, w, -1);
    }
  }

  /** The entry (r, c) after a round, by the bits of value w in its indices. */
  lemma RoundedBit(m: Square, i: nat, r: nat, c: nat)
    requires i < 7 && r < 128 && c < 128
    ensures var w := Width(i);
            && (Odd(r, w) == Odd(c, w) ==> Rounded(m, i)[r][c] == m[r][c])
            && (!Odd(r, w) && Odd(c, w) ==> r + w < 128 && c >= w && Rounded(m, i)[r][c] == m[r + w][c - w])
            && (Odd(r, w) && !Odd(c, w) ==> r >= w && c + w < 128 && Rounded(m, i)[r][c] == m[r - w][c + w])
  {
    var w := Width(i);
    if Odd(r, w) {
      if r < w { EvenStart(r, w); }
      StepExchanges(m[r - w], m[r], i);
    } else {
      if r >= 128 - w { OddEnd(r, w); }
      StepExchanges(m[r], m[r + w], i);
    }
    assert Rounded(m, i)[r] == RoundRow(m, i, r);
  }

  lemma RoundSwaps(m: Square, was: Square, i: nat)
    requires i < 7 && Swapped(m, was, 2 * Width(i))
    ensures Swapped(Rounded(m, i), was, Width(i))
  {
    var w := Width(i);
    forall r, c | 0 <= r < 128 && 0 <= c < 128
      ensures 0 <= Mix(c, r, w) < 128 && 0 <= Mix(r, c, w) < 128
      ensures Rounded(m, i)[r][c] == was[Mix(c, r, w)][Mix(r, c, w)]
    {
      RoundedBit(m, i, r, c);
      MixHalved(r, c, w);
      MixHalved(c, r, w);
    }
  }

  lemma SwappedAtStart(m: Square)
    ensures Swapped(m, m, 128)
  {}

  lemma SwappedAtEnd(now: Square, was: Square)
    requires Swapped(now, was, 1)
    ensures now == Transposed(was)
  {
    forall r | 0 <= r < 128 ensures now[r] == Transposed(was)[r] {
      forall c | 0 <= c < 128 ensures now[r][c] == Transposed(was)[r][c] {
        assert Mix(c, r, 1) == c && Mix(r, c, 1) == r;
      }
    }
  }

  /** eklundh_transpose128: the matrix is transposed in place. */
  method EklundhTranspose128(m: array<Block>)
    requires m.Length == 128
    modifies m
    ensures m[..] == Transposed(old(m[..]))
  {
    ghost var was: Square := m[..];
    SwappedAtStart(was);
    var width, nswaps := 64, 1;
    for i := 0 to 7
      invariant width == (if i < 7 then Width(i) else 0) && (i < 7 ==> 2 * width * nswaps == 128)
      invariant Swapped(m[..], was, if i == 7 then 1 else 2 * width)
    {
      RoundSwaps(m[..], was, i);
      Round(m, i, width, nswaps, Rounded(m[..], i));
      HalveWidth(i, nswaps);
      nswaps := nswaps * 2;
      width := width / 2;
    }
    SwappedAtEnd(m[..], was);
  }

  lemma HalveWidth(i: nat, nswaps: nat)
    requires i < 7 && 2 * Width(i) * nswaps == 128
    ensures Width(i) / 2 == (if i < 6 then Width(i + 1) else 0)
    ensures i < 6 ==> Width(i) == 2 * Width(i + 1) && 2 * Width(i + 1) * (nswaps * 2) == 128
    ensures i == 6 ==> Width(i) == 1
  {}

  /** The two transposes in the sources leave the same matrix, whatever they start from. */
  method TransposesAgree(a: array<Block>, b: array<Block>)
    requires a.Length == 128 && b.Length == 128 && a != b && a[..] == b[..]
    modifies a, b
    ensures a[..] == b[..] == Transposed(old(a[..]))
  {
    SseTranspose128(a);
    EklundhTranspose128(b);
  }
}
