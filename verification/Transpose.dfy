/** The SSE bit transpose of a 128 x 128 matrix, in place, through 16 x 16 sub-squares. */
module Transpose {
  import opened Bits

  /** 128 rows of 128 bits. */
  type Square = m: seq<Block> | |m| == 128 witness seq(128, _ => seq(128, _ => false))

  /** The mathematical transpose: row r of the result is column r of the argument. */
  function Transposed(m: Square): (t: Square) {
    seq(128, r requires 0 <= r < 128 => seq(128, c requires 0 <= c < 128 => m[c][r]))
  }

  /** `now` is `was` with the 16 x 16 squares listed in `done` transposed. */
  ghost predicate TransposedIn(now: Square, was: Square, done: set<(int, int)>) {
    forall r, c | 0 <= r < 128 && 0 <= c < 128 ::
      now[r][c] == if (r / 16, c / 16) in done then was[c][r] else was[r][c]
  }

  lemma AllSquaresDone(now: Square, was: Square, done: set<(int, int)>)
    requires TransposedIn(now, was, done)
    requires forall x, y | 0 <= x < 8 && 0 <= y < 8 :: (x, y) in done
    ensures now == Transposed(was)
  {
    forall r | 0 <= r < 128 ensures now[r] == Transposed(was)[r] {
      forall c | 0 <= c < 128 ensures now[r][c] == Transposed(was)[r][c] {
        assert (r / 16, c / 16) in done;
      }
    }
  }

  /** Overwrite the 16-bit lane y of a row. */
  function SetLane(row: Block, y: nat, v: seq<bool>): (r: Block)
    requires y < 8 && |v| == 16
    ensures forall c | 0 <= c < 128 :: r[c] == if c / 16 == y then v[c - 16 * y] else row[c]
  {
    row[..16 * y] + v + row[16 * y + 16..]
  }

  /** The sign bit of each of the 16 bytes of a register. */
  function Movemask(b: Block): (v: seq<bool>)
    ensures |v| == 16
  {
    seq(16, l requires 0 <= l < 16 => b[8 * l + 7])
  }

  /** Shift each 64-bit half left by one bit. */
  function ShiftLanesLeft(b: Block): (r: Block) {
    seq(128, i requires 0 <= i < 128 => if i % 64 == 0 then false else b[i - 1])
  }

  method SetByte(b: Block, l: nat, src: Block, s: nat) returns (r: Block)
    requires l < 16 && s < 16
    ensures forall k | 0 <= k < 128 :: r[k] == if k / 8 == l then src[8 * s + k % 8] else b[k]
  {
    r := b[..8 * l] + src[8 * s..8 * s + 8] + b[8 * l + 8..];
  }

  /** Two registers hold the square at (x, y), one byte column each. */
  ghost predicate Loaded(m: Square, out0: Block, out1: Block, x: nat, y: nat)
    requires x < 8 && y < 8
  {
    && (forall i | 0 <= i < 128 :: out0[i] == m[16 * x + i / 8][16 * y + i % 8])
    && (forall i | 0 <= i < 128 :: out1[i] == m[16 * x + i / 8][16 * y + 8 + i % 8])
  }

  /** sse_loadSubSquare: two registers holding the byte columns 2y and 2y+1 of rows 16x .. 16x+15. */
  method LoadSubSquare(m: array<Block>, x: nat, y: nat) returns (out0: Block, out1: Block)
    requires m.Length == 128 && x < 8 && y < 8
    ensures Loaded(m[..], out0, out1, x, y)
  {
    out0, out1 := ZeroBlock(), ZeroBlock();
    for l := 0 to 16
      invariant forall i | 0 <= i < 8 * l :: out0[i] == m[16 * x + i / 8][16 * y + i % 8]
      invariant forall i | 0 <= i < 8 * l :: out1[i] == m[16 * x + i / 8][16 * y + 8 + i % 8]
    {
      out0 := SetByte(out0, l, m[16 * x + l], 2 * y);
      out1 := SetByte(out1, l, m[16 * x + l], 2 * y + 1);
    }
  }

  /** After j one-bit shifts every byte has its bit 7 - j in its sign position. */
  ghost predicate Shifted(b: Block, was: Block, j: nat) {
    forall i | 0 <= i < 128 && j <= i % 8 :: b[i] == was[i - j]
  }

  /** Column k of a register read as 16 bytes. */
  function ByteColumn(b: Block, k: nat): (v: seq<bool>)
    requires k < 8
    ensures |v| == 16
  {
    seq(16, l requires 0 <= l < 16 => b[8 * l + k])
  }

  lemma MovemaskShifted(b: Block, was: Block, j: nat)
    requires j < 8 && Shifted(b, was, j)
    ensures Movemask(b) == ByteColumn(was, 7 - j)
    ensures Shifted(ShiftLanesLeft(b), was, j + 1)
  {}

  /** Row r after sse_transposeSubSquare has written it. */
  function WrittenRow(row: Block, in0: Block, in1: Block, r: nat, y: nat): Block
    requires y < 8
  {
    SetLane(row, y, ByteColumn(if r % 16 < 8 then in0 else in1, r % 8))
  }

  /** The two rows of band x that step j writes. */
  lemma PairRows(x: nat, j: nat, r: nat)
    requires x < 8 && j < 8 && r < 128
    ensures r / 16 == x && r % 8 == 7 - j <==> r == 16 * x + 7 - j || r == 16 * x + 15 - j
    ensures r == 16 * x + 7 - j ==> r % 16 == 7 - j
    ensures r == 16 * x + 15 - j ==> r % 16 == 15 - j
  {}

  /** One step of sse_transposeSubSquare: two rows receive a 16-bit lane each. */
  method WriteLanes(m: array<Block>, x: nat, y: nat, j: nat, v0: seq<bool>, v1: seq<bool>)
    requires m.Length == 128 && x < 8 && y < 8 && j < 8 && |v0| == |v1| == 16
    modifies m
    ensures forall r | 0 <= r < 128 ::
      m[r] == if r / 16 == x && r % 8 == 7 - j then SetLane(old(m[r]), y, if r % 16 < 8 then v0 else v1)
              else old(m[r])
  {
    forall r | 0 <= r < 128 { PairRows(x, j, r); }
    m[16 * x + 7 - j] := SetLane(m[16 * x + 7 - j], y, v0);
    m[16 * x + 15 - j] := SetLane(m[16 * x + 15 - j], y, v1);
  }

  /** sse_transposeSubSquare: write the transpose of the loaded square at rows 16x .. and lane y. */
  method TransposeSubSquare(m: array<Block>, in0: Block, in1: Block, x: nat, y: nat)
    requires m.Length == 128 && x < 8 && y < 8
    modifies m
    ensures forall r | 0 <= r < 128 ::
      m[r] == if r / 16 == x then WrittenRow(old(m[r]), in0, in1, r, y) else old(m[r])
  {
    var a, b := in0, in1;
    for j := 0 to 8
      invariant Shifted(a, in0, j) && Shifted(b, in1, j)
      invariant forall r | 0 <= r < 128 ::
        m[r] == if r / 16 == x && 8 - j <= r % 8 then WrittenRow(old(m[r]), in0, in1, r, y) else old(m[r])
    {
      MovemaskShifted(a, in0, j);
      MovemaskShifted(b, in1, j);
      WriteLanes(m, x, y, j, Movemask(a), Movemask(b));
      a, b := ShiftLanesLeft(a), ShiftLanesLeft(b);
    }
  }

  lemma WrittenBit(row: Block, m: Square, in0: Block, in1: Block, x: nat, y: nat, r: nat, c: nat)
    requires x < 8 && y < 8 && r / 16 == x && c < 128
    requires Loaded(m, in0, in1, y, x)
    ensures WrittenRow(row, in0, in1, r, y)[c] == if c / 16 == y then m[c][r] else row[c]
  {
    if c / 16 == y {
      var l, k := c - 16 * y, r % 8;
      var reg := if r % 16 < 8 then in0 else in1;
      assert WrittenRow(row, in0, in1, r, y)[c] == ByteColumn(reg, k)[l] == reg[8 * l + k];
      ByteIndex(l, k);
    }
  }

  lemma ByteIndex(l: nat, k: nat)
    requires k < 8
    ensures (8 * l + k) / 8 == l && (8 * l + k) % 8 == k
  {}

  /** Writing the square loaded from (y, x) at (x, y) transposes one more square. */
  lemma SquareWritten(now: Square, after: Square, was: Square, done: set<(int, int)>,
                      in0: Block, in1: Block, x: nat, y: nat)
    requires x < 8 && y < 8
    requires TransposedIn(now, was, done) && Loaded(was, in0, in1, y, x)
    requires forall r | 0 <= r < 128 ::
      after[r] == if r / 16 == x then WrittenRow(now[r], in0, in1, r, y) else now[r]
    ensures TransposedIn(after, was, done + {(x, y)})
  {
    forall r, c | 0 <= r < 128 && 0 <= c < 128
      ensures after[r][c] == if (r / 16, c / 16) in done + {(x, y)} then was[c][r] else was[r][c]
    {
      if r / 16 == x {
        WrittenBit(now[r], was, in0, in1, x, y, r, c);
      }
    }
  }

  /** A square that is still untouched loads its original contents. */
  lemma LoadedUntouched(now: Square, was: Square, done: set<(int, int)>, in0: Block, in1: Block, x: nat, y: nat)
    requires x < 8 && y < 8 && (x, y) !in done
    requires TransposedIn(now, was, done) && Loaded(now, in0, in1, x, y)
    ensures Loaded(was, in0, in1, x, y)
  {
    forall i | 0 <= i < 128
      ensures in0[i] == was[16 * x + i / 8][16 * y + i % 8] && in1[i] == was[16 * x + i / 8][16 * y + 8 + i % 8]
    {
      var r, c := 16 * x + i / 8, 16 * y + i % 8;
      assert r / 16 == x && c / 16 == y && (c + 8) / 16 == y;
      assert now[r][c] == was[r][c] && now[r][c + 8] == was[r][c + 8];
    }
  }

  /** sse_transpose128: the matrix is transposed in place. */
  method SseTranspose128(m: array<Block>)
    requires m.Length == 128
    modifies m
    ensures m[..] == Transposed(old(m[..]))
  {
    ghost var was: Square := m[..];
    ghost var done: set<(int, int)> := {};
    for j := 0 to 8
      invariant TransposedIn(m[..], was, done)
      invariant forall x, y | 0 <= x < 8 && 0 <= y < 8 :: (x, y) in done <==> x < j && y < j
    {
      var in0, in1 := LoadSubSquare(m, j, j);
      LoadedUntouched(m[..], was, done, in0, in1, j, j);
      ghost var now: Square := m[..];
      TransposeSubSquare(m, in0, in1, j, j);
      SquareWritten(now, m[..], was, done, in0, in1, j, j);
      done := done + {(j, j)};
      for k := 0 to j
        invariant TransposedIn(m[..], was, done)
        invariant forall x, y | 0 <= x < 8 && 0 <= y < 8 ::
          (x, y) in done <==> (x < j && y < j) || (x == j && (y < k || y == j)) || (y == j && x < k)
      {
        done := TransposePair(m, was, done, j, k);
      }
    }
    AllSquaresDone(m[..], was, done);
  }

  /** The inner step of sse_transpose128: two mirror-image squares change places. */
  method TransposePair(m: array<Block>, ghost was: Square, ghost done: set<(int, int)>, j: nat, k: nat)
    returns (ghost done': set<(int, int)>)
    requires m.Length == 128 && k < j < 8
    requires TransposedIn(m[..], was, done) && (j, k) !in done && (k, j) !in done
    modifies m
    ensures done' == done + {(j, k), (k, j)} && TransposedIn(m[..], was, done')
  {
    var a0, a1 := LoadSubSquare(m, k, j);
    var b0, b1 := LoadSubSquare(m, j, k);
    LoadedUntouched(m[..], was, done, a0, a1, k, j);
    LoadedUntouched(m[..], was, done, b0, b1, j, k);
    ghost var now: Square := m[..];
    TransposeSubSquare(m, a0, a1, j, k);
    SquareWritten(now, m[..], was, done, a0, a1, j, k);
    now := m[..];
    TransposeSubSquare(m, b0, b1, k, j);
    SquareWritten(now, m[..], was, done + {(j, k)}, b0, b1, k, j);
    done' := done + {(j, k), (k, j)};
    assert done' == done + {(j, k)} + {(k, j)};
  }
}
