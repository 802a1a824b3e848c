/** The AES context: key expansion, single blocks in place, and the modes of operation. */
module AesModes {
  import opened Aes
  import opened AesSbox
  import opened Arith

  const MR_ECB := 0
  const MR_CBC := 1
  const MR_CFB1 := 2
  const MR_PCFB1 := 10
  const MR_OFB1 := 14

  predicate IsCfb(mode: int) { mode == 2 || mode == 3 || mode == 5 }
  predicate IsPcfb(mode: int) { mode == 10 || mode == 11 || mode == 13 }
  predicate IsOfb(mode: int) { mode == 14 || mode == 15 || mode == 17 || mode == 21 || mode == 29 }

  /** How many bytes of the buffer one call works on. */
  function Bytes(mode: int): (n: nat)
    ensures n <= 16
  {
    if mode == MR_ECB || mode == MR_CBC then 16
    else if IsCfb(mode) then mode - MR_CFB1 + 1
    else if IsPcfb(mode) then mode - MR_PCFB1 + 1
    else if IsOfb(mode) then mode - MR_OFB1 + 1
    else 0
  }

  function PackWord(b: seq<Byte>): Word
    requires |b| == 4
  {
    Word(b[0], b[1], b[2], b[3])
  }

  function UnpackWord(w: Word): (b: seq<Byte>)
    ensures |b| == 4
  {
    [w.b0, w.b1, w.b2, w.b3]
  }

  /** Sixteen bytes as four words, and back. */
  function Pack(b: seq<Byte>): State
    requires |b| == 16
  {
    State(PackWord(b[0..4]), PackWord(b[4..8]), PackWord(b[8..12]), PackWord(b[12..16]))
  }

  function Unpack(s: State): (b: seq<Byte>)
    ensures |b| == 16
  {
    UnpackWord(s.w0) + UnpackWord(s.w1) + UnpackWord(s.w2) + UnpackWord(s.w3)
  }

  lemma PackUnpackWord(w: Word, b: seq<Byte>)
    requires |b| == 4
    ensures PackWord(UnpackWord(w)) == w && UnpackWord(PackWord(b)) == b
  {}

  lemma FourParts(a: seq<Byte>, b: seq<Byte>, c: seq<Byte>, d: seq<Byte>, s: seq<Byte>)
    requires |a| == |b| == |c| == |d| == 4 && s == a + b + c + d
    ensures s[0..4] == a && s[4..8] == b && s[8..12] == c && s[12..16] == d
  {}

  lemma PackUnpack(s: State)
    ensures Pack(Unpack(s)) == s
  {
    hide UnpackWord, PackWord;
    FourParts(UnpackWord(s.w0), UnpackWord(s.w1), UnpackWord(s.w2), UnpackWord(s.w3), Unpack(s));
    PackUnpackWord(s.w0, [0, 0, 0, 0]);
    PackUnpackWord(s.w1, [0, 0, 0, 0]);
    PackUnpackWord(s.w2, [0, 0, 0, 0]);
    PackUnpackWord(s.w3, [0, 0, 0, 0]);
  }

  lemma UnpackPack(b: seq<Byte>)
    requires |b| == 16
    ensures Unpack(Pack(b)) == b
  {
    hide UnpackWord, PackWord;
    var w := Word(0, 0, 0, 0);
    PackUnpackWord(w, b[0..4]);
    PackUnpackWord(w, b[4..8]);
    PackUnpackWord(w, b[8..12]);
    PackUnpackWord(w, b[12..16]);
    assert b == b[0..4] + b[4..8] + b[8..12] + b[12..16];
  }

  /** The two key schedules and the round count. */
  datatype Keys = Keys(fkey: seq<Word>, rkey: seq<Word>, nr: nat) {
    ghost predicate Valid() { Reversed(fkey, rkey, nr) }

    function Enc(b: seq<Byte>): (c: seq<Byte>)
      requires |b| == 16 && nr > 0 && 4 * nr + 4 <= |fkey|
      ensures |c| == 16
    {
      Unpack(EncryptState(fkey, nr, Pack(b)))
    }

    function Dec(c: seq<Byte>): (b: seq<Byte>)
      requires |c| == 16 && nr > 0 && 4 * nr + 4 <= |rkey|
      ensures |b| == 16
    {
      Unpack(DecryptState(rkey, nr, Pack(c)))
    }

    lemma DecEnc(b: seq<Byte>)
      requires |b| == 16 && Valid()
      ensures Dec(Enc(b)) == b
    {
      hide EncryptState, DecryptState, Pack, Unpack;
      PackUnpack(EncryptState(fkey, nr, Pack(b)));
      UnpackPack(b);
      DecryptEncrypt(fkey, rkey, nr, Pack(b));
    }
  }

  function XorBytes(a: seq<Byte>, b: seq<Byte>): (c: seq<Byte>)
    requires |a| == |b|
    ensures |c| == |a|
  {
    seq(|a|, i requires 0 <= i < |a| => Add(a[i], b[i]))
  }

  lemma XorTwice(a: seq<Byte>, b: seq<Byte>)
    requires |a| == |b|
    ensures XorBytes(XorBytes(a, b), b) == a
  {
    hide Add;
    Laws();
  }

  /** The register bytes shifted out, as the call returns them: chars, so sign-extended. */
  function FellOff(f: seq<Byte>, n: nat): bv32
    requires n <= |f|
  {
    if n == 0 then 0 else ShiftIn(FellOff(f, n - 1), f[n - 1])
  }

  function ShiftIn(out: bv32, c: Byte): bv32 { (out << 8) | Widened(c) }

  /** A char widened to an int. */
  function Widened(c: Byte): bv32 { if c & 0x80 != 0 then 0xFFFF_FF00 | (c as bv32) else c as bv32 }

  /** What a call leaves in the register and the buffer, and returns. */
  datatype Step = Step(f: seq<Byte>, buff: seq<Byte>, out: bv32)

  /** aes_encrypt on one buffer. */
  function EncStep(k: Keys, mode: int, f: seq<Byte>, buff: seq<Byte>): (s: Step)
    requires k.Valid() && |f| == 16 && |buff| >= Bytes(mode)
    ensures |s.f| == 16 && |s.buff| == |buff|
  {
    var n := Bytes(mode);
    var head, rest := buff[..n], buff[n..];
    if mode == MR_ECB then Step(f, k.Enc(head) + rest, 0)
    else if mode == MR_CBC then
      var c := k.Enc(XorBytes(head, f));
      Step(c, c + rest, 0)
    else if IsCfb(mode) then
      var c := XorBytes(head, k.Enc(f)[..n]);
      Step(f[n..] + c, c + rest, FellOff(f, n))
    else if IsPcfb(mode) then
      var st := k.Enc(f);
      var c := XorBytes(head, st[..n]);
      Step(f[n..] + XorBytes(c, st[16 - n..]), c + rest, FellOff(f, n))
    else if IsOfb(mode) then
      var st := k.Enc(f);
      Step(st, XorBytes(head, st[..n]) + rest, 0)
    else Step(f, buff, 0)
  }

  /** aes_decrypt on one buffer. */
  function DecStep(k: Keys, mode: int, f: seq<Byte>, buff: seq<Byte>): (s: Step)
    requires k.Valid() && |f| == 16 && |buff| >= Bytes(mode)
    ensures |s.f| == 16 && |s.buff| == |buff|
  {
    var n := Bytes(mode);
    var head, rest := buff[..n], buff[n..];
    if mode == MR_ECB then Step(f, k.Dec(head) + rest, 0)
    else if mode == MR_CBC then Step(head, XorBytes(k.Dec(head), f) + rest, 0)
    else if IsCfb(mode) then Step(f[n..] + head, XorBytes(head, k.Enc(f)[..n]) + rest, FellOff(f, n))
    else if IsPcfb(mode) then
      var st := k.Enc(f);
      Step(f[n..] + XorBytes(head, st[16 - n..]), XorBytes(head, st[..n]) + rest, FellOff(f, n))
    else if IsOfb(mode) then
      var st := k.Enc(f);
      Step(st, XorBytes(head, st[..n]) + rest, 0)
    else Step(f, buff, 0)
  }

  lemma Rejoin(buff: seq<Byte>, n: nat, c: seq<Byte>)
    requires n <= |buff| && |c| == n
    ensures (c + buff[n..])[..n] == c && (c + buff[n..])[n..] == buff[n..] && buff[..n] + buff[n..] == buff
  {}

  /** In every mode decryption gives the buffer back and leaves the same register as encryption. */
  lemma StepUndone(k: Keys, mode: int, f: seq<Byte>, buff: seq<Byte>)
    requires k.Valid() && |f| == 16 && |buff| >= Bytes(mode)
    ensures var e := EncStep(k, mode, f, buff); DecStep(k, mode, f, e.buff) == Step(e.f, buff, e.out)
  {
    hide Keys.Enc, Keys.Dec, XorBytes, FellOff;
    var n := Bytes(mode);
    var head := buff[..n];
    if mode == MR_ECB {
      k.DecEnc(head);
      Rejoin(buff, n, k.Enc(head));
    } else if mode == MR_CBC {
      var x := XorBytes(head, f);
      k.DecEnc(x);
      XorTwice(head, f);
      Rejoin(buff, n, k.Enc(x));
    } else if IsCfb(mode) || IsPcfb(mode) || IsOfb(mode) {
      var st := k.Enc(f)[..n];
      XorTwice(head, st);
      Rejoin(buff, n, XorBytes(head, st));
    }
  }

  ghost predicate Fits(mode: int, buffs: seq<seq<Byte>>) {
    forall i | 0 <= i < |buffs| :: |buffs[i]| >= Bytes(mode)
  }

  /** The register at the end of a sequence of calls, and what they make of the buffers. */
  datatype Run = Run(f: seq<Byte>, buffs: seq<seq<Byte>>)

  function EncAll(k: Keys, mode: int, f: seq<Byte>, buffs: seq<seq<Byte>>): (r: Run)
    requires k.Valid() && |f| == 16 && Fits(mode, buffs)
    ensures |r.f| == 16 && Fits(mode, r.buffs)
    decreases |buffs|
  {
    if buffs == [] then Run(f, [])
    else
      var s := EncStep(k, mode, f, buffs[0]);
      var rest := EncAll(k, mode, s.f, buffs[1..]);
      Run(rest.f, [s.buff] + rest.buffs)
  }

  function DecAll(k: Keys, mode: int, f: seq<Byte>, buffs: seq<seq<Byte>>): (r: Run)
    requires k.Valid() && |f| == 16 && Fits(mode, buffs)
    decreases |buffs|
  {
    if buffs == [] then Run(f, [])
    else
      var s := DecStep(k, mode, f, buffs[0]);
      var rest := DecAll(k, mode, s.f, buffs[1..]);
      Run(rest.f, [s.buff] + rest.buffs)
  }

  /** Decryption undoes encryption over any sequence of buffers, and both registers end equal. */
  lemma {:induction false} StreamUndone(k: Keys, mode: int, f: seq<Byte>, buffs: seq<seq<Byte>>)
    requires k.Valid() && |f| == 16 && Fits(mode, buffs)
    ensures var e := EncAll(k, mode, f, buffs); DecAll(k, mode, f, e.buffs) == Run(e.f, buffs)
    decreases |buffs|
  {
    hide EncStep, DecStep, Reversed;
    if buffs != [] {
      var s := EncStep(k, mode, f, buffs[0]);
      var rest := EncAll(k, mode, s.f, buffs[1..]);
      StepUndone(k, mode, f, buffs[0]);
      StreamUndone(k, mode, s.f, buffs[1..]);
      assert ([s.buff] + rest.buffs)[1..] == rest.buffs;
      assert [buffs[0]] + buffs[1..] == buffs;
    }
  }

  /** The round constants. */
  const RCO: seq<Byte> := [1, 2, 4, 8, 16, 32, 64, 128, 27, 54, 108, 216, 171, 77, 154, 47]

  function SubByte(w: Word): Word { Word(FbSub(w.b0), FbSub(w.b1), FbSub(w.b2), FbSub(w.b3)) }

  function Rco(k: nat): Word { Low(if k < |RCO| then RCO[k] else 0) }

  /** Word i of the expanded key (section 5.2 of FIPS 197), for a key of nk words. */
  function KeyWord(ck: seq<Word>, nk: nat, i: nat): Word
    requires |ck| == nk && nk > 0
  {
    if i < nk then ck[i]
    else
      NextQuotient(i, nk);
      var before, last := KeyWord(ck, nk, i - nk), KeyWord(ck, nk, i - 1);
      if i % nk == 0 then before.Xor(SubByte(last.Rotl24())).Xor(Rco(i / nk - 1))
      else if nk > 6 && i % nk == 4 then before.Xor(SubByte(last))
      else before.Xor(last)
  }

  lemma NextQuotient(i: nat, w: nat)
    requires i >= w > 0
    ensures i / w >= 1
  {
    var q := i / w;
    assert i == w * q + i % w;
    if q < 1 { MulLe(q, 0, w); }
  }

  /** Word i of block k of the expanded key. */
  lemma BlockWord(ck: seq<Word>, nk: nat, k: nat, i: nat, p: nat)
    requires |ck| == nk && i < nk && k > 0 && p == nk * k + i
    ensures p >= nk
    ensures var before, last := KeyWord(ck, nk, p - nk), KeyWord(ck, nk, p - 1);
            KeyWord(ck, nk, p) ==
              if i == 0 then before.Xor(SubByte(last.Rotl24())).Xor(Rco(k - 1))
              else if nk > 6 && i == 4 then before.Xor(SubByte(last))
              else before.Xor(last)
  {
    MulLe(1, k, nk);
    DivUnique(p, nk, k);
  }

  /** The words of a key. */
  function CipherKey(key: seq<Byte>, nk: nat): (ck: seq<Word>)
    requires |key| >= 4 * nk
    ensures |ck| == nk
  {
    seq(nk, i requires 0 <= i < nk => PackWord(key[4 * i..4 * i + 4]))
  }

  /** The initial vector, which may be missing. */
  datatype Vector = NoIv | Iv(bytes: seq<Byte>)

  class AesContext {
    var Nk: nat
    var Nr: nat
    var mode: int
    const fkey: array<Word>
    const rkey: array<Word>
    const f: array<Byte>

    constructor ()
      ensures fkey.Length == rkey.Length == 60 && f.Length == 16 && fresh(fkey) && fresh(rkey) && fresh(f)
    {
      Nk, Nr, mode := 0, 0, 0;
      fkey := new Word[60](_ => Word(0, 0, 0, 0));
      rkey := new Word[60](_ => Word(0, 0, 0, 0));
      f := new Byte[16](_ => 0);
    }

    ghost function View(): Keys
      reads this, fkey, rkey
    {
      Keys(fkey[..], rkey[..], Nr)
    }

    /** The schedules are set up. */
    ghost predicate Valid()
      reads this, fkey, rkey
    {
      f.Length == 16 && fkey != rkey && View().Valid()
    }

    /** A buffer is no key schedule. */
    ghost predicate Apart(buff: array<Byte>) {
      buff as object != fkey as object && buff as object != rkey as object
    }

    /** aes_reset. */
    method Reset(mode: int, iv: Vector)
      requires f.Length == 16 && (iv.Iv? ==> |iv.bytes| == 16)
      modifies this`mode, f
      ensures this.mode == mode && forall k | 0 <= k < 16 :: f[k] == if mode != MR_ECB && iv.Iv? then iv.bytes[k] else 0
    {
      this.mode := mode;
      for i := 0 to 16
        modifies f
        invariant forall k | 0 <= k < i :: f[k] == 0
      {
        f[i] := 0;
      }
      if mode != MR_ECB && iv.Iv? {
        for i := 0 to 16
          modifies f
          invariant forall k | 0 <= k < i :: f[k] == iv.bytes[k]
        {
          f[i] := iv.bytes[i];
        }
      }
    }

    /** aes_ecb_encrypt, on the first 16 bytes of the buffer in place. */
    method EcbEncrypt(buff: array<Byte>)
      requires Valid() && buff.Length >= 16 && Apart(buff)
      modifies buff
      ensures View() == old(View()) && buff[..] == old(View().Enc(buff[..16])) + old(buff[16..])
    {
      hide EncRound, EncLast, Pack, Unpack, State.Xor;
      ghost var keys, p := fkey[..], Pack(buff[..16]);
      var x := Pack(buff[..16]).Xor(KeyAt(fkey[..], 0));
      for i := 1 to Nr
        invariant x == EncAfter(keys, p, i - 1)
      {
        x := EncRound(KeyAt(fkey[..], i), x);
      }
      var y := EncLast(KeyAt(fkey[..], Nr), x);
      assert y == EncryptState(keys, Nr, p);
      assert View().Enc(buff[..16]) == Unpack(y);
      Store(buff, Unpack(y));
    }

    /** aes_ecb_decrypt. */
    method EcbDecrypt(buff: array<Byte>)
      requires Valid() && buff.Length >= 16 && Apart(buff)
      modifies buff
      ensures View() == old(View()) && buff[..] == old(View().Dec(buff[..16])) + old(buff[16..])
    {
      hide DecRound, DecLast, Pack, Unpack, State.Xor;
      ghost var keys, c := rkey[..], Pack(buff[..16]);
      var x := Pack(buff[..16]).Xor(KeyAt(rkey[..], 0));
      for i := 1 to Nr
        invariant x == DecAfter(keys, c, i - 1)
      {
        x := DecRound(KeyAt(rkey[..], i), x);
      }
      var y := DecLast(KeyAt(rkey[..], Nr), x);
      Store(buff, Unpack(y));
    }

    /** a->f[j-n] = a->f[j], leaving the last n bytes to be filled with c. */
    method Shift(n: nat, c: seq<Byte>)
      requires f.Length == 16 && n == |c| <= 16
      modifies f
      ensures f[..] == old(f[..])[n..] + c
    {
      ghost var before := f[..];
      for j := n to 16
        invariant forall k | 0 <= k < j - n :: f[k] == before[k + n]
        invariant forall k | j - n <= k < 16 :: f[k] == before[k]
      {
        f[j - n] := f[j];
      }
      for j := 0 to n
        invariant forall k | 0 <= k < 16 - n :: f[k] == before[k + n]
        invariant forall k | 0 <= k < j :: f[16 - n + k] == c[k]
      {
        f[16 - n + j] := c[j];
      }
    }

    /** A copy of the register encrypted. */
    method Keystream() returns (st: array<Byte>)
      requires Valid() && Apart(f)
      ensures fresh(st) && st[..] == View().Enc(f[..])
    {
      st := new Byte[16](i requires 0 <= i < 16 && f.Length == 16 reads f => f[i]);
      assert st[..] == f[..] && st[..16] == st[..] && st[16..] == [];
      EcbEncrypt(st);
    }

    /** The first n bytes of the buffer, added to the first n of st, in place. */
    method Mask(buff: array<Byte>, st: seq<Byte>, n: nat)
      requires n <= buff.Length && n <= |st|
      modifies buff
      ensures buff[..] == XorBytes(old(buff[..n]), st[..n]) + old(buff[n..])
    {
      ghost var before := buff[..];
      for j := 0 to n
        invariant forall k | 0 <= k < j :: buff[k] == Add(before[k], st[k])
        invariant forall k | j <= k < buff.Length :: buff[k] == before[k]
      {
        buff[j] := Add(buff[j], st[j]);
      }
    }

    /** The buffer of a mode call: no part of the context. */
    ghost predicate Ready(buff: array<Byte>, mode: int)
      reads this, fkey, rkey
    {
      Valid() && Apart(f) && Apart(buff) && buff != f && buff.Length >= Bytes(mode)
    }

    method TakeFellOff(n: nat) returns (out: bv32)
      requires n <= f.Length
      ensures out == FellOff(f[..], n)
    {
      hide ShiftIn;
      out := 0;
      for j := 0 to n
        invariant out == FellOff(f[..], j)
      {
        out := ShiftIn(out, f[j]);
      }
    }

    method EncryptCbc(buff: array<Byte>)
      requires mode == MR_CBC && Ready(buff, mode)
      modifies f, buff
      ensures View() == old(View())
      ensures Step(f[..], buff[..], 0) == old(EncStep(View(), mode, f[..], buff[..]))
    {
      hide Keys.Enc, XorBytes;
      ghost var rest := buff[16..];
      assert f[..16] == f[..];
      Mask(buff, f[..], 16);
      assert buff[..16] == old(XorBytes(buff[..16], f[..])) && buff[16..] == rest;
      EcbEncrypt(buff);
      Store(f, buff[..16]);
      assert f[16..] == [];
    }

    method EncryptCfb(buff: array<Byte>) returns (out: bv32)
      requires IsCfb(mode) && Ready(buff, mode)
      modifies f, buff
      ensures View() == old(View())
      ensures Step(f[..], buff[..], out) == old(EncStep(View(), mode, f[..], buff[..]))
    {
      hide Keys.Enc, XorBytes, FellOff;
      var bytes := mode - MR_CFB1 + 1;
      out := TakeFellOff(bytes);
      var st := Keystream();
      Mask(buff, st[..], bytes);
      Shift(bytes, buff[..bytes]);
    }

    method EncryptPcfb(buff: array<Byte>) returns (out: bv32)
      requires IsPcfb(mode) && Ready(buff, mode)
      modifies f, buff
      ensures View() == old(View())
      ensures Step(f[..], buff[..], out) == old(EncStep(View(), mode, f[..], buff[..]))
    {
      hide Keys.Enc, XorBytes, FellOff;
      var bytes := mode - MR_PCFB1 + 1;
      out := TakeFellOff(bytes);
      var st := Keystream();
      Mask(buff, st[..], bytes);
      Shift(bytes, XorBytes(buff[..bytes], st[16 - bytes..]));
    }

    /** OFB is its own inverse: both directions run this. */
    method RunOfb(buff: array<Byte>)
      requires IsOfb(mode) && Ready(buff, mode)
      modifies f, buff
      ensures View() == old(View())
      ensures Step(f[..], buff[..], 0) == old(EncStep(View(), mode, f[..], buff[..])) == old(DecStep(View(), mode, f[..], buff[..]))
    {
      hide Keys.Enc, XorBytes;
      var bytes := mode - MR_OFB1 + 1;
      ghost var before := f[..];
      assert f[..16] == before && f[16..] == [];
      EcbEncrypt(f);
      assert f[..] == View().Enc(before);
      Mask(buff, f[..], bytes);
    }

    /** aes_encrypt. */
    method Encrypt(buff: array<Byte>) returns (out: bv32)
      requires Ready(buff, mode)
      modifies f, buff
      ensures View() == old(View())
      ensures Step(f[..], buff[..], out) == old(EncStep(View(), mode, f[..], buff[..]))
    {
      hide Keys.Enc, XorBytes, FellOff;
      out := 0;
      if mode == MR_ECB {
        EcbEncrypt(buff);
      } else if mode == MR_CBC {
        EncryptCbc(buff);
      } else if IsCfb(mode) {
        out := EncryptCfb(buff);
      } else if IsOfb(mode) {
        RunOfb(buff);
      } else if IsPcfb(mode) {
        out := EncryptPcfb(buff);
      }
    }

    method DecryptCbc(buff: array<Byte>)
      requires mode == MR_CBC && Ready(buff, mode)
      modifies f, buff
      ensures View() == old(View())
      ensures Step(f[..], buff[..], 0) == old(DecStep(View(), mode, f[..], buff[..]))
    {
      hide Keys.Enc, Keys.Dec, XorBytes;
      var st := f[..];
      ghost var rest := buff[16..];
      Store(f, buff[..16]);
      assert f[16..] == [];
      EcbDecrypt(buff);
      assert buff[16..] == rest && st[..16] == st;
      Mask(buff, st, 16);
    }

    method DecryptCfb(buff: array<Byte>) returns (out: bv32)
      requires IsCfb(mode) && Ready(buff, mode)
      modifies f, buff
      ensures View() == old(View())
      ensures Step(f[..], buff[..], out) == old(DecStep(View(), mode, f[..], buff[..]))
    {
      hide Keys.Enc, XorBytes, FellOff;
      var bytes := mode - MR_CFB1 + 1;
      out := TakeFellOff(bytes);
      var st := Keystream();
      Shift(bytes, buff[..bytes]);
      Mask(buff, st[..], bytes);
    }

    method DecryptPcfb(buff: array<Byte>) returns (out: bv32)
      requires IsPcfb(mode) && Ready(buff, mode)
      modifies f, buff
      ensures View() == old(View())
      ensures Step(f[..], buff[..], out) == old(DecStep(View(), mode, f[..], buff[..]))
    {
      hide Keys.Enc, XorBytes, FellOff;
      var bytes := mode - MR_PCFB1 + 1;
      out := TakeFellOff(bytes);
      var st := Keystream();
      Shift(bytes, XorBytes(buff[..bytes], st[16 - bytes..]));
      Mask(buff, st[..], bytes);
    }

    /** aes_decrypt. */
    method Decrypt(buff: array<Byte>) returns (out: bv32)
      requires Ready(buff, mode)
      modifies f, buff
      ensures View() == old(View())
      ensures Step(f[..], buff[..], out) == old(DecStep(View(), mode, f[..], buff[..]))
    {
      hide Keys.Enc, Keys.Dec, XorBytes, FellOff;
      out := 0;
      if mode == MR_ECB {
        EcbDecrypt(buff);
      } else if mode == MR_CBC {
        DecryptCbc(buff);
      } else if IsCfb(mode) {
        out := DecryptCfb(buff);
      } else if IsOfb(mode) {
        RunOfb(buff);
      } else if IsPcfb(mode) {
        out := DecryptPcfb(buff);
      }
    }

    /** The first n words of the encryption schedule are there. */
    ghost predicate Expanded(ck: seq<Word>, nk: nat, n: nat)
      reads fkey
    {
      |ck| == nk && nk > 0 && n <= fkey.Length && forall i | 0 <= i < n :: fkey[i] == KeyWord(ck, nk, i)
    }

    /** One of the inner loops of the expansion: words from .. to - 1 of block k, as far as the schedule goes. */
    method PlainWords(ck: seq<Word>, nk: nat, k: nat, j: nat, from: nat, to: nat, n: nat)
      requires Expanded(ck, nk, if j + from < n then j + from else n) && j == nk * k && k > 0 && 1 <= from <= to <= nk
      requires n <= fkey.Length && (nk <= 6 || to <= 4 || from >= 5)
      modifies fkey
      ensures Expanded(ck, nk, if j + to < n then j + to else n)
    {
      hide SubByte;
      var i := from;
      while i < to && i + j < n
        invariant from <= i <= to && Expanded(ck, nk, if j + i < n then j + i else n)
      {
        BlockWord(ck, nk, k, i, i + j);
        fkey[i + j] := fkey[i + j - nk].Xor(fkey[i + j - 1]);
        i := i + 1;
      }
    }

    /** The first word of block k. */
    method FirstWord(ck: seq<Word>, nk: nat, k: nat, j: nat)
      requires Expanded(ck, nk, j) && j == nk * k && k > 0 && j < fkey.Length
      modifies fkey
      ensures Expanded(ck, nk, j + 1)
    {
      hide SubByte, Rco;
      BlockWord(ck, nk, k, 0, j);
      fkey[j] := fkey[j - nk].Xor(SubByte(fkey[j - 1].Rotl24())).Xor(Rco(k - 1));
    }

    /** The extra substitution in the middle of a block of a 256-bit key. */
    method MiddleWord(ck: seq<Word>, nk: nat, k: nat, j: nat, n: nat)
      requires Expanded(ck, nk, if j + 4 < n then j + 4 else n) && j == nk * k && k > 0 && nk == 8 && n <= fkey.Length
      modifies fkey
      ensures Expanded(ck, nk, if j + 5 < n then j + 5 else n)
    {
      hide SubByte, KeyWord;
      if j + 4 < n {
        BlockWord(ck, nk, k, 4, j + 4);
        fkey[j + 4] := fkey[j + 4 - nk].Xor(SubByte(fkey[j + 3]));
      }
    }

    /** The body of the expansion loop: block k of the schedule. */
    method Block(ck: seq<Word>, nk: nat, k: nat, j: nat, n: nat)
      requires Expanded(ck, nk, j) && j == nk * k && k > 0 && j < n <= fkey.Length && (nk == 4 || nk == 6 || nk == 8)
      modifies fkey
      ensures Expanded(ck, nk, if j + nk < n then j + nk else n)
    {
      hide KeyWord;
      FirstWord(ck, nk, k, j);
      if nk <= 6 {
        PlainWords(ck, nk, k, j, 1, nk, n);
      } else {
        PlainWords(ck, nk, k, j, 1, 4, n);
        MiddleWord(ck, nk, k, j, n);
        PlainWords(ck, nk, k, j, 5, nk, n);
      }
    }

    /** The encryption key expansion. */
    method ExpandKey(ck: seq<Word>, nk: nat, n: nat)
      requires |ck| == nk && (nk == 4 || nk == 6 || nk == 8) && nk <= n <= fkey.Length
      modifies fkey
      ensures Expanded(ck, nk, n)
    {
      for i := 0 to nk
        invariant forall k | 0 <= k < i :: fkey[k] == ck[k]
      {
        fkey[i] := ck[i];
      }
      var j, k := nk, 1;
      while j < n
        invariant j == nk * k && k > 0 && Expanded(ck, nk, if j < n then j else n)
        decreases n - j
      {
        Block(ck, nk, k, j, n);
        assert nk * (k + 1) == nk * k + nk;
        j, k := j + nk, k + 1;
      }
    }

    /** Round key q of encryption becomes round key p of decryption, mixed or as it is. */
    method PutKey(p: nat, q: nat, mixed: bool)
      requires fkey != rkey && 4 * p + 4 <= rkey.Length && 4 * q + 4 <= fkey.Length
      modifies rkey
      ensures KeyAt(rkey[..], p) == if mixed then InvMixColumns(KeyAt(fkey[..], q)) else KeyAt(fkey[..], q)
      ensures forall r: nat | r != p && 4 * r + 4 <= rkey.Length :: KeyAt(rkey[..], r) == old(KeyAt(rkey[..], r))
    {
      hide InvMixCol;
      for j := 0 to 4
        invariant forall w | 0 <= w < rkey.Length ::
          rkey[w] == if 4 * p <= w < 4 * p + j then (if mixed then InvMixCol(fkey[4 * q + w - 4 * p]) else fkey[4 * q + w - 4 * p])
                     else old(rkey[w])
      {
        rkey[4 * p + j] := if mixed then InvMixCol(fkey[4 * q + j]) else fkey[4 * q + j];
      }
    }

    /** The decryption schedule: the encryption schedule in reverse, inversely mixed but for its ends. */
    method ReverseKey(nr: nat)
      requires fkey != rkey && 0 < nr && 4 * nr + 4 <= fkey.Length == rkey.Length
      modifies rkey
      ensures Reversed(fkey[..], rkey[..], nr)
    {
      hide InvMixColumns;
      PutKey(nr, 0, false);
      for i := 1 to nr
        invariant KeyAt(rkey[..], nr) == KeyAt(fkey[..], 0)
        invariant forall j | nr - i < j < nr :: KeyAt(rkey[..], j) == InvMixColumns(KeyAt(fkey[..], nr - j))
      {
        PutKey(nr - i, i, true);
      }
      PutKey(0, nr, false);
    }

    /** aes_init, for a key of `bytes` bytes; false on an unsupported key length. */
    method Init(mode: int, bytes: nat, key: seq<Byte>, iv: Vector) returns (ok: bool)
      requires fkey.Length == rkey.Length == 60 && f.Length == 16 && fkey != rkey && |key| >= bytes
      requires iv.Iv? ==> |iv.bytes| == 16
      modifies this, fkey, rkey, f
      ensures ok <==> bytes / 4 == 4 || bytes / 4 == 6 || bytes / 4 == 8
      ensures ok ==> Valid() && this.mode == mode && Nk == bytes / 4 && Nr == 6 + Nk
      ensures ok ==> Expanded(CipherKey(key, Nk), Nk, 4 * Nr + 4)
      ensures ok ==> forall k | 0 <= k < 16 :: f[k] == if mode != MR_ECB && iv.Iv? then iv.bytes[k] else 0
    {
      hide KeyWord, KeyAt, InvMixColumns;
      var nk := bytes / 4;
      if nk != 4 && nk != 6 && nk != 8 {
        return false;
      }
      Nk, Nr := nk, 6 + nk;
      Reset(mode, iv);
      ExpandKey(CipherKey(key, nk), nk, 4 * Nr + 4);
      ReverseKey(Nr);
      ok := true;
    }
  }

  /** The bytes of a result over the front of a buffer. */
  method Store(buff: array<Byte>, b: seq<Byte>)
    requires |b| <= buff.Length
    modifies buff
    ensures buff[..] == b + old(buff[|b|..])
  {
    ghost var before := buff[..];
    for j := 0 to |b|
      invariant buff[..j] == b[..j] && forall k | j <= k < buff.Length :: buff[k] == before[k]
    {
      buff[j] := b[j];
    }
  }
}
