/** What the feedback modes do to a whole stream, byte by byte (NIST SP 800-38A), and the register's bytes they return. */
module Feedback {
  import opened AesSbox
  import opened Aes
  import opened AesModes

  /** A later buffer of a stream is an earlier one of the stream that starts after the first. */
  lemma {:induction false} LaterBuffer(k: Keys, mode: int, f: seq<Byte>, buffs: seq<seq<Byte>>, i: nat)
    requires k.Valid() && |f| == 16 && Fits(mode, buffs) && 0 < i < |buffs|
    ensures |EncAll(k, mode, f, buffs).buffs| == |buffs|
    ensures var s := EncStep(k, mode, f, buffs[0]);
      && Fits(mode, buffs[1..]) && |EncAll(k, mode, s.f, buffs[1..]).buffs| == |buffs| - 1
      && EncAll(k, mode, f, buffs).buffs[i] == EncAll(k, mode, s.f, buffs[1..]).buffs[i - 1]
  {
    hide EncStep, Reversed;
    var s := EncStep(k, mode, f, buffs[0]);
    SameCount(k, mode, f, buffs);
    SameCount(k, mode, s.f, buffs[1..]);
  }

  lemma {:induction false} SameCount(k: Keys, mode: int, f: seq<Byte>, buffs: seq<seq<Byte>>)
    requires k.Valid() && |f| == 16 && Fits(mode, buffs)
    ensures |EncAll(k, mode, f, buffs).buffs| == |buffs|
    decreases |buffs|
  {
    hide EncStep, Reversed;
    if buffs != [] { SameCount(k, mode, EncStep(k, mode, f, buffs[0]).f, buffs[1..]); }
  }

  /** The register before call i. */
  function RegisterAt(k: Keys, mode: int, f: seq<Byte>, buffs: seq<seq<Byte>>, i: nat): (g: seq<Byte>)
    requires k.Valid() && |f| == 16 && Fits(mode, buffs) && i <= |buffs|
    ensures |g| == 16
  {
    if i == 0 then f else EncStep(k, mode, RegisterAt(k, mode, f, buffs, i - 1), buffs[i - 1]).f
  }

  /** Call i of a stream is a call under that register. */
  lemma {:induction false} CallAt(k: Keys, mode: int, f: seq<Byte>, buffs: seq<seq<Byte>>, i: nat)
    requires k.Valid() && |f| == 16 && Fits(mode, buffs) && i < |buffs|
    ensures var e := EncAll(k, mode, f, buffs);
      |e.buffs| == |buffs| && e.buffs[i] == EncStep(k, mode, RegisterAt(k, mode, f, buffs, i), buffs[i]).buff
    decreases i
  {
    hide EncStep, Reversed;
    SameCount(k, mode, f, buffs);
    if i > 0 {
      var s := EncStep(k, mode, f, buffs[0]);
      LaterBuffer(k, mode, f, buffs, i);
      CallAt(k, mode, s.f, buffs[1..], i - 1);
      RegisterShift(k, mode, f, buffs, i);
    }
  }

  lemma {:induction false} RegisterShift(k: Keys, mode: int, f: seq<Byte>, buffs: seq<seq<Byte>>, i: nat)
    requires k.Valid() && |f| == 16 && Fits(mode, buffs) && 0 < i <= |buffs|
    ensures RegisterAt(k, mode, EncStep(k, mode, f, buffs[0]).f, buffs[1..], i - 1) == RegisterAt(k, mode, f, buffs, i)
    decreases i
  {
    hide EncStep, Reversed;
    if i > 1 {
      RegisterShift(k, mode, f, buffs, i - 1);
    } else {
      assert RegisterAt(k, mode, f, buffs, 0) == f;
    }
  }

  /** The bytes after the ones a call works on stay as they are. */
  lemma RestKept(k: Keys, mode: int, f: seq<Byte>, buff: seq<Byte>)
    requires k.Valid() && |f| == 16 && |buff| >= Bytes(mode)
    ensures EncStep(k, mode, f, buff).buff[Bytes(mode)..] == buff[Bytes(mode)..]
  {
    hide Keys.Enc, XorBytes, FellOff, Reversed;
  }

  /** CBC (section 6.2): each block is the cipher of the plaintext added to the block before, the first to the vector. */
  lemma CbcChain(k: Keys, f: seq<Byte>, buffs: seq<seq<Byte>>, i: nat) returns (x: seq<Byte>)
    requires k.Valid() && |f| == 16 && Fits(MR_CBC, buffs) && i < |buffs|
    ensures |x| == 16 && |EncAll(k, MR_CBC, f, buffs).buffs| == |buffs| && |EncAll(k, MR_CBC, f, buffs).buffs[i]| == |buffs[i]|
    ensures EncAll(k, MR_CBC, f, buffs).buffs[i][..16] == k.Enc(x)
    ensures forall j | 0 <= j < 16 ::
      x[j] == Add(buffs[i][j], if i == 0 then f[j] else EncAll(k, MR_CBC, f, buffs).buffs[i - 1][j])
  {
    hide Keys.Enc, Add, Reversed;
    var g := RegisterAt(k, MR_CBC, f, buffs, i);
    CallAt(k, MR_CBC, f, buffs, i);
    x := XorBytes(buffs[i][..16], g);
    if i > 0 {
      CallAt(k, MR_CBC, f, buffs, i - 1);
      var s := EncStep(k, MR_CBC, RegisterAt(k, MR_CBC, f, buffs, i - 1), buffs[i - 1]);
      assert s.buff[..16] == s.f == g;
    }
  }

  /** The cipher applied i + 1 times to the vector. */
  function OutputBlock(k: Keys, f: seq<Byte>, i: nat): (o: seq<Byte>)
    requires k.Valid() && |f| == 16
    ensures |o| == 16
  {
    k.Enc(if i == 0 then f else OutputBlock(k, f, i - 1))
  }

  lemma {:induction false} OfbRegister(k: Keys, mode: int, f: seq<Byte>, buffs: seq<seq<Byte>>, i: nat)
    requires k.Valid() && |f| == 16 && IsOfb(mode) && Fits(mode, buffs) && i < |buffs|
    ensures k.Enc(RegisterAt(k, mode, f, buffs, i)) == OutputBlock(k, f, i)
  {
    hide Keys.Enc, XorBytes, Reversed;
    if i > 0 { OfbRegister(k, mode, f, buffs, i - 1); }
  }

  /** OFB (section 6.4): the text is added to the output blocks, which depend on the vector alone. */
  lemma OfbChain(k: Keys, mode: int, f: seq<Byte>, buffs: seq<seq<Byte>>, i: nat, j: nat)
    requires k.Valid() && |f| == 16 && IsOfb(mode) && Fits(mode, buffs) && i < |buffs| && j < Bytes(mode)
    ensures |EncAll(k, mode, f, buffs).buffs| == |buffs| && |EncAll(k, mode, f, buffs).buffs[i]| == |buffs[i]|
    ensures EncAll(k, mode, f, buffs).buffs[i][j] == Add(buffs[i][j], OutputBlock(k, f, i)[j])
  {
    hide Keys.Enc, Add, Reversed, OutputBlock;
    CallAt(k, mode, f, buffs, i);
    OfbRegister(k, mode, f, buffs, i);
    OfbByte(k, mode, RegisterAt(k, mode, f, buffs, i), buffs[i], j);
  }

  lemma OfbByte(k: Keys, mode: int, f: seq<Byte>, buff: seq<Byte>, j: nat)
    requires k.Valid() && |f| == 16 && IsOfb(mode) && |buff| >= Bytes(mode) && j < Bytes(mode)
    ensures EncStep(k, mode, f, buff).buff[j] == Add(buff[j], k.Enc(f)[j])
  {
    hide Keys.Enc, Add, Reversed;
  }

  /** The vector followed by the first n bytes of each of the first i buffers. */
  function Shifted(f: seq<Byte>, buffs: seq<seq<Byte>>, n: nat, i: nat): (g: seq<Byte>)
    requires i <= |buffs| && forall m | 0 <= m < i :: |buffs[m]| >= n
    ensures |g| >= |f|
  {
    if i == 0 then f else Shifted(f, buffs, n, i - 1) + buffs[i - 1][..n]
  }

  function LastBytes(g: seq<Byte>): (b: seq<Byte>)
    requires |g| >= 16
    ensures |b| == 16
  {
    g[|g| - 16..]
  }

  lemma {:induction false} CfbRegister(k: Keys, mode: int, f: seq<Byte>, buffs: seq<seq<Byte>>, i: nat)
    requires k.Valid() && |f| == 16 && IsCfb(mode) && Fits(mode, buffs) && i <= |buffs|
    ensures var e := EncAll(k, mode, f, buffs).buffs;
      |e| == |buffs| && RegisterAt(k, mode, f, buffs, i) == LastBytes(Shifted(f, e, Bytes(mode), i))
  {
    hide EncStep, Reversed, LastBytes;
    var e, n := EncAll(k, mode, f, buffs).buffs, Bytes(mode);
    SameCount(k, mode, f, buffs);
    if i > 0 {
      CfbRegister(k, mode, f, buffs, i - 1);
      CallAt(k, mode, f, buffs, i - 1);
      CfbShift(k, mode, RegisterAt(k, mode, f, buffs, i - 1), buffs[i - 1]);
      LastAppended(Shifted(f, e, n, i - 1), e[i - 1][..n]);
    } else {
      LastOfVector(f);
    }
  }

  lemma LastOfVector(f: seq<Byte>)
    requires |f| == 16
    ensures LastBytes(f) == f
  {}

  lemma LastAppended(g: seq<Byte>, c: seq<Byte>)
    requires |g| >= 16 && |c| <= 16
    ensures LastBytes(g + c) == LastBytes(g)[|c|..] + c
  {}

  lemma CfbShift(k: Keys, mode: int, f: seq<Byte>, buff: seq<Byte>)
    requires k.Valid() && |f| == 16 && IsCfb(mode) && |buff| >= Bytes(mode)
    ensures var s, n := EncStep(k, mode, f, buff), Bytes(mode); s.f == f[n..] + s.buff[..n]
  {
    hide Keys.Enc, XorBytes, FellOff, Reversed;
  }

  /** CFB (section 6.3): the text is added to the cipher of the last 16 bytes of the vector and the ciphertext so far. */
  lemma CfbChain(k: Keys, mode: int, f: seq<Byte>, buffs: seq<seq<Byte>>, i: nat, j: nat)
    requires k.Valid() && |f| == 16 && IsCfb(mode) && Fits(mode, buffs) && i < |buffs| && j < Bytes(mode)
    ensures var e := EncAll(k, mode, f, buffs).buffs;
      && |e| == |buffs| && |e[i]| == |buffs[i]|
      && e[i][j] == Add(buffs[i][j], k.Enc(LastBytes(Shifted(f, e, Bytes(mode), i)))[j])
  {
    hide Keys.Enc, Add, FellOff, Reversed, Shifted, LastBytes;
    CfbRegister(k, mode, f, buffs, i);
    CallAt(k, mode, f, buffs, i);
    CfbByte(k, mode, RegisterAt(k, mode, f, buffs, i), buffs[i], j);
  }

  lemma CfbByte(k: Keys, mode: int, f: seq<Byte>, buff: seq<Byte>, j: nat)
    requires k.Valid() && |f| == 16 && IsCfb(mode) && |buff| >= Bytes(mode) && j < Bytes(mode)
    ensures EncStep(k, mode, f, buff).buff[j] == Add(buff[j], k.Enc(f)[j])
  {
    hide Keys.Enc, Add, FellOff, Reversed;
  }

  /** PCFB: as CFB, but the bytes that enter the register have the last ones of the cipher block added once more. */
  lemma PcfbStep(k: Keys, mode: int, f: seq<Byte>, buff: seq<Byte>, j: nat)
    requires k.Valid() && |f| == 16 && IsPcfb(mode) && |buff| >= Bytes(mode)
    ensures var s, n := EncStep(k, mode, f, buff), Bytes(mode);
      && (j < n ==> s.buff[j] == Add(buff[j], k.Enc(f)[j]) && s.f[16 - n + j] == Add(s.buff[j], k.Enc(f)[16 - n + j]))
      && (j < 16 - n ==> s.f[j] == f[n + j])
  {
    hide Keys.Enc, Add, FellOff, Reversed;
  }

  /** A byte shifted in at the end of a word. */
  function Appended(out: bv32, c: Byte): bv32 { (out << 8) | (c as bv32) }

  /** The value returned, after a byte below 128: what the bytes before it give, shifted, with it at the end. */
  lemma FellOffPlain(f: seq<Byte>, n: nat)
    requires 0 < n <= |f| && f[n - 1] & 0x80 == 0
    ensures FellOff(f, n) == Appended(FellOff(f, n - 1), f[n - 1])
  {
    hide ShiftIn, Appended;
    ShiftInPlain(FellOff(f, n - 1), f[n - 1]);
  }

  lemma ShiftInPlain(out: bv32, c: Byte)
    requires c & 0x80 == 0
    ensures ShiftIn(out, c) == Appended(out, c)
  {
    assert Widened(c) == c as bv32;
    hide Widened;
  }

  /** After a larger one, which is negative as a char: that number alone, all bits above it set and the others lost. */
  lemma FellOffNegative(f: seq<Byte>, n: nat)
    requires 0 < n <= |f| && f[n - 1] & 0x80 != 0
    ensures FellOff(f, n) == 0xFFFF_FF00 | (f[n - 1] as bv32)
  {
    hide ShiftIn;
    ShiftInNegative(FellOff(f, n - 1), f[n - 1]);
  }

  lemma ShiftInNegative(out: bv32, c: Byte)
    requires c & 0x80 != 0
    ensures ShiftIn(out, c) == 0xFFFF_FF00 | (c as bv32)
  {}

  /** The modes and how many bytes a call works on: ECB and CBC 16, CFB and PCFB 1, 2 or 4, OFB 1, 2, 4, 8 or 16. */
  lemma ModeSizes(mode: int)
    ensures Bytes(mode) > 0 <==> mode in {0, 1, 2, 3, 5, 10, 11, 13, 14, 15, 17, 21, 29}
    ensures IsCfb(mode) <==> Bytes(mode) in {1, 2, 4} && mode == Bytes(mode) + 1
    ensures IsPcfb(mode) <==> Bytes(mode) in {1, 2, 4} && mode == Bytes(mode) + 9
    ensures IsOfb(mode) <==> Bytes(mode) in {1, 2, 4, 8, 16} && mode == Bytes(mode) + 13
    ensures mode == 0 || mode == 1 ==> Bytes(mode) == 16
  {}
}
