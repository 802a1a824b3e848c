/** The search for the bin size of simple hashing: galloping up, then halving. */
module BinSize {
  import opened Arith

  /** The security that bin size b gives reaches the parameter. */
  ghost predicate Passes(prob: nat -> real, stat: nat, b: nat) { prob(b) >= stat as real }

  /** What the search may rely on: larger bins overflow less, and bins as large as all the balls never do. */
  ghost predicate Monotone(prob: nat -> real, stat: nat, numBalls: nat) {
    && (forall b: nat :: b >= numBalls ==> Passes(prob, stat, b))
    && forall a: nat, b: nat | a <= b && Passes(prob, stat, a) :: Passes(prob, stat, b)
  }

  /** The least size above `from` that passes is in (low, high]. */
  ghost predicate Within(prob: nat -> real, stat: nat, from: nat, low: int, high: nat) {
    from <= low < high && Passes(prob, stat, high) && (low == from || !Passes(prob, stat, low))
  }

  /** After each look at B: while galloping it has not passed; else the answer is a step below or a step above. */
  ghost predicate Searching(prob: nat -> real, stat: nat, from: nat, B: nat, step: nat, j: nat, doubling: bool, passed: bool) {
    && step == Pow2(j) && passed == Passes(prob, stat, B)
    && if doubling && !passed then B > from
       else if passed then Within(prob, stat, from, B - step, B)
       else Within(prob, stat, from, B, B + step)
  }

  /** What the loop goes by. */
  datatype Look = Look(B: nat, step: nat, doubling: bool, prob: real)

  function Max(a: nat, b: nat): nat { if a > b then a else b }

  /** The loop body; the step is not 0, so the exception is never thrown. */
  function Advance(prob: nat -> real, stat: nat, s: Look): Look
    requires s.step > 0 && (s.prob >= stat as real ==> s.B >= Max(1, s.step / 2))
  {
    if s.prob < stat as real then
      var step := Max(1, if s.doubling then s.step * 2 else s.step / 2);
      Look(s.B + step, step, s.doubling, prob(s.B + step))
    else
      var step := Max(1, s.step / 2);
      Look(s.B - step, step, false, prob(s.B - step))
  }

  lemma PassKeeps(prob: nat -> real, stat: nat, from: nat, s: Look, j: nat) returns (j': nat)
    requires Searching(prob, stat, from, s.B, s.step, j, s.doubling, true) && s.prob == prob(s.B) && s.step > 1
    ensures s.B >= Max(1, s.step / 2)
    ensures var t := Advance(prob, stat, s);
            && !t.doubling && t.step == s.step / 2
            && Searching(prob, stat, from, t.B, t.step, j', t.doubling, Passes(prob, stat, t.B))
  {
    j' := j - 1;
    assert s.step == 2 * Pow2(j');
  }

  lemma FailKeeps(prob: nat -> real, stat: nat, from: nat, s: Look, j: nat) returns (j': nat)
    requires Searching(prob, stat, from, s.B, s.step, j, s.doubling, false) && s.prob == prob(s.B)
    ensures var t := Advance(prob, stat, s);
            && t.doubling == s.doubling && t.B > s.B && t.step > 0
            && Searching(prob, stat, from, t.B, t.step, j', t.doubling, Passes(prob, stat, t.B))
            && (!s.doubling ==> t.step == Max(1, s.step / 2) && (s.step == 1 ==> Passes(prob, stat, t.B)))
  {
    if s.doubling {
      j' := j + 1;
    } else if j > 0 {
      j' := j - 1;
      assert s.step == 2 * Pow2(j');
    } else {
      j' := 0;
    }
  }

  /** get_bin_size: it ends, and returns the least passing size above the average load and above 1. */
  method GetBinSize(prob: nat -> real, numBins: nat, numBalls: nat, stat: nat) returns (B: nat)
    requires numBins > 0 && stat > 0 && Monotone(prob, stat, numBalls)
    ensures var from := Max(1, numBalls / numBins);
      B > from && Passes(prob, stat, B) && forall b | from < b < B :: !Passes(prob, stat, b)
  {
    var from := Max(1, numBalls / numBins);
    var s := Look(from, 1, true, 0.0);
    ghost var j := 0;
    while s.prob < stat as real || s.step > 1
      invariant s.B > from || s == Look(from, 1, true, 0.0)
      invariant s.B > from ==> s.prob == prob(s.B)
      invariant s.B > from ==> Searching(prob, stat, from, s.B, s.step, j, s.doubling, Passes(prob, stat, s.B))
      decreases s.doubling, if s.doubling then Max(numBalls, from) + 1 - s.B else if s.step > 1 then s.step else if s.prob < stat as real then 1 else 0
    {
      if s.B == from {
        j := 1;
        assert Pow2(1) == 2 * Pow2(0);
      } else if s.prob < stat as real {
        j := FailKeeps(prob, stat, from, s, j);
      } else {
        j := PassKeeps(prob, stat, from, s, j);
      }
      s := Advance(prob, stat, s);
    }
    B := s.B;
  }
}
