/** The cipher and the key expansion byte by byte, as FIPS 197 writes them. */
module Fips197 {
  import opened AesSbox
  import opened Aes
  import opened AesModes

  /** Byte r of a word: row r of a column. */
  function Row(w: Word, r: nat): Byte { if r == 0 then w.b0 else if r == 1 then w.b1 else if r == 2 then w.b2 else w.b3 }

  /** A column of the state. */
  function ColumnOf(s: State, c: nat): Word { if c == 0 then s.w0 else if c == 1 then s.w1 else if c == 2 then s.w2 else s.w3 }

  /** The byte in row r and column c of the state (section 3.4). */
  function At(s: State, r: nat, c: nat): Byte { Row(ColumnOf(s, c), r) }

  /** The buffer fills the state column by column. */
  lemma PackAt(b: seq<Byte>, r: nat, c: nat)
    requires |b| == 16 && r < 4 && c < 4
    ensures At(Pack(b), r, c) == b[4 * c + r]
  {
    PackWordRow(b[4 * c..4 * c + 4], r);
    assert ColumnOf(Pack(b), c) == PackWord(b[4 * c..4 * c + 4]);
  }

  lemma PackWordRow(b: seq<Byte>, r: nat)
    requires |b| == 4 && r < 4
    ensures Row(PackWord(b), r) == b[r]
  {}

  lemma UnpackAt(s: State, r: nat, c: nat)
    requires r < 4 && c < 4
    ensures Unpack(s)[4 * c + r] == At(s, r, c)
  {
    hide Pack;
    PackUnpack(s);
    PackAt(Unpack(s), r, c);
  }

  /** SubBytes and ShiftRows (sections 5.1.1 and 5.1.2): row r is substituted and moves r columns to the left. */
  function SubShifted(s: State, r: nat, c: nat): Byte { FbSub(At(s, r % 4, (c + r) % 4)) }

  /** MixColumns of that (section 5.1.3): the product with the matrix of 2, 3, 1 and 1. */
  function Mixed(s: State, r: nat, c: nat): Byte {
    Add(Add(Bmul(2, SubShifted(s, r, c)), Bmul(3, SubShifted(s, r + 1, c))),
        Add(SubShifted(s, r + 2, c), SubShifted(s, r + 3, c)))
  }

  lemma XorRow(v: Word, w: Word, r: nat)
    ensures Row(v.Xor(w), r) == Add(Row(v, r), Row(w, r))
  {
    hide Add;
  }

  lemma XorAt(k: State, s: State, r: nat, c: nat)
    ensures At(k.Xor(s), r, c) == Add(At(k, r, c), At(s, r, c))
  {
    hide Add;
  }

  lemma SubShiftAt(s: State, r: nat, c: nat)
    requires r < 4 && c < 4
    ensures At(SubShift(s), r, c) == SubShifted(s, r, c)
  {
    hide FbSub;
  }

  lemma Bmul2And3(a: Byte)
    ensures Bmul(2, a) == Xtime(a) && Bmul(3, a) == Add(a, Xtime(a))
  {}

  lemma MixRow(w: Word, r: nat)
    requires r < 4
    ensures Row(MixCol(w), r) == Add(Add(Bmul(2, Row(w, r)), Bmul(3, Row(w, (r + 1) % 4))), Add(Row(w, (r + 2) % 4), Row(w, (r + 3) % 4)))
  {
    hide Add, Bmul, Xtime;
    Bmul2And3(Row(w, r));
    Bmul2And3(Row(w, (r + 1) % 4));
  }

  lemma MixAt(s: State, r: nat, c: nat)
    requires r < 4 && c < 4
    ensures At(MixColumns(SubShift(s)), r, c) == Mixed(s, r, c)
  {
    hide Add, Bmul, FbSub, MixCol, SubShift;
    MixRow(ColumnOf(SubShift(s), c), r);
    SubShiftAt(s, r, c);
    SubShiftAt(s, (r + 1) % 4, c);
    SubShiftAt(s, (r + 2) % 4, c);
    SubShiftAt(s, (r + 3) % 4, c);
    Wrapped(s, r, c);
  }

  lemma Wrapped(s: State, r: nat, c: nat)
    requires r < 4 && c < 4
    ensures SubShifted(s, (r + 1) % 4, c) == SubShifted(s, r + 1, c)
    ensures SubShifted(s, (r + 2) % 4, c) == SubShifted(s, r + 2, c)
    ensures SubShifted(s, (r + 3) % 4, c) == SubShifted(s, r + 3, c)
  {
    hide FbSub, At;
    assert (c + (r + 1) % 4) % 4 == (c + (r + 1)) % 4;
    assert (c + (r + 2) % 4) % 4 == (c + (r + 2)) % 4;
    assert (c + (r + 3) % 4) % 4 == (c + (r + 3)) % 4;
  }

  lemma RoundAt(k: State, s: State, r: nat, c: nat)
    requires r < 4 && c < 4
    ensures At(EncRound(k, s), r, c) == Add(At(k, r, c), Mixed(s, r, c))
  {
    hide Add, EncRound, MixColumns, SubShift, Mixed, At;
    EncRoundIs(k, s);
    XorAt(k, MixColumns(SubShift(s)), r, c);
    MixAt(s, r, c);
  }

  /** The cipher (section 5.1): the key added, nr - 1 full rounds, and one without mixing. */
  lemma CipherIs(fkey: seq<Word>, nr: nat, p: State) returns (states: seq<State>)
    requires nr > 0 && 4 * nr + 4 <= |fkey|
    ensures |states| == nr
    ensures forall r: nat, c: nat | r < 4 && c < 4 :: At(states[0], r, c) == Add(At(p, r, c), Row(fkey[c], r))
    ensures forall i, r: nat, c: nat | 0 < i < nr && r < 4 && c < 4 ::
      At(states[i], r, c) == Add(Row(fkey[4 * i + c], r), Mixed(states[i - 1], r, c))
    ensures forall r: nat, c: nat | r < 4 && c < 4 ::
      At(EncryptState(fkey, nr, p), r, c) == Add(Row(fkey[4 * nr + c], r), SubShifted(states[nr - 1], r, c))
  {
    hide Add, EncRound, EncLast, Mixed, SubShifted, At, Row, State.Xor;
    states := seq(nr, i requires 0 <= i < nr => EncAfter(fkey, p, i));
    forall r: nat, c: nat | r < 4 && c < 4
      ensures At(states[0], r, c) == Add(At(p, r, c), Row(fkey[c], r))
      ensures At(EncryptState(fkey, nr, p), r, c) == Add(Row(fkey[4 * nr + c], r), SubShifted(states[nr - 1], r, c))
    {
      XorAt(p, KeyAt(fkey, 0), r, c);
      KeyByte(fkey, 0, r, c);
      EncLastIs(KeyAt(fkey, nr), states[nr - 1]);
      XorAt(KeyAt(fkey, nr), SubShift(states[nr - 1]), r, c);
      KeyByte(fkey, nr, r, c);
      SubShiftAt(states[nr - 1], r, c);
    }
    forall i, r: nat, c: nat | 0 < i < nr && r < 4 && c < 4
      ensures At(states[i], r, c) == Add(Row(fkey[4 * i + c], r), Mixed(states[i - 1], r, c))
    {
      RoundAt(KeyAt(fkey, i), states[i - 1], r, c);
      KeyByte(fkey, i, r, c);
    }
  }

  lemma KeyByte(fkey: seq<Word>, i: nat, r: nat, c: nat)
    requires 4 * i + 4 <= |fkey| && r < 4 && c < 4
    ensures At(KeyAt(fkey, i), r, c) == Row(fkey[4 * i + c], r)
  {}

  /** x^(k - 1) in the field: the round constant k (section 5.2). */
  function RoundConstant(k: nat): Byte { if k <= 1 then 1 else Xtime(RoundConstant(k - 1)) }

  lemma FirstConstants()
    ensures RoundConstant(1) == 1 && RoundConstant(2) == 2 && RoundConstant(3) == 4 && RoundConstant(4) == 8
    ensures RoundConstant(5) == 16 && RoundConstant(6) == 32 && RoundConstant(7) == 64 && RoundConstant(8) == 128
  {
    assert RoundConstant(1) == 1;
    assert RoundConstant(2) == Xtime(1) == 2;
    assert RoundConstant(3) == Xtime(2) == 4;
    assert RoundConstant(4) == Xtime(4) == 8;
    assert RoundConstant(5) == Xtime(8) == 16;
    assert RoundConstant(6) == Xtime(16) == 32;
    assert RoundConstant(7) == Xtime(32) == 64;
    assert RoundConstant(8) == Xtime(64) == 128;
  }

  lemma LaterConstants()
    ensures RoundConstant(9) == 27 && RoundConstant(10) == 54 && RoundConstant(11) == 108 && RoundConstant(12) == 216
    ensures RoundConstant(13) == 171 && RoundConstant(14) == 77 && RoundConstant(15) == 154 && RoundConstant(16) == 47
  {
    FirstConstants();
    assert RoundConstant(9) == Xtime(128) == 27;
    assert RoundConstant(10) == Xtime(27) == 54;
    assert RoundConstant(11) == Xtime(54) == 108;
    assert RoundConstant(12) == Xtime(108) == 216;
    assert RoundConstant(13) == Xtime(216) == 171;
    assert RoundConstant(14) == Xtime(171) == 77;
    assert RoundConstant(15) == Xtime(77) == 154;
    assert RoundConstant(16) == Xtime(154) == 47;
  }

  lemma RcoIs(k: nat)
    requires 1 <= k <= 16
    ensures Rco(k - 1) == Word(RoundConstant(k), 0, 0, 0)
  {
    hide RoundConstant;
    FirstConstants();
    LaterConstants();
  }

  /** What is added to byte r of the word nk places back to make word p. */
  function Addend(last: Word, nk: nat, p: nat, r: nat): Byte
    requires nk > 0
  {
    if p % nk == 0 then Add(FbSub(Row(last, (r + 1) % 4)), if r == 0 then RoundConstant(p / nk) else 0)
    else if nk > 6 && p % nk == 4 then FbSub(Row(last, r))
    else Row(last, r)
  }

  /** The key expansion (section 5.2), byte by byte, for every word and for keys of 4, 6 and 8 words. */
  lemma ScheduleByte(ck: seq<Word>, nk: nat, p: nat, r: nat)
    requires |ck| == nk && nk > 0 && nk <= p && 1 <= p / nk <= 16 && r < 4
    ensures Row(KeyWord(ck, nk, p), r) == Add(Row(KeyWord(ck, nk, p - nk), r), Addend(KeyWord(ck, nk, p - 1), nk, p, r))
  {
    hide Add, FbSub, RoundConstant, Rco, Row, SubByte;
    var before, last := KeyWord(ck, nk, p - nk), KeyWord(ck, nk, p - 1);
    RcoIs(p / nk);
    BlockWord(ck, nk, p / nk, p % nk, p);
    SumOfThree(before, last, RoundConstant(p / nk), r);
    XorRow(before, last, r);
    XorRow(before, SubByte(last), r);
    SubRow(last, r);
  }

  lemma SumOfThree(before: Word, last: Word, c: Byte, r: nat)
    requires r < 4
    ensures Row(before.Xor(SubByte(last.Rotl24())).Xor(Word(c, 0, 0, 0)), r)
         == Add(Row(before, r), Add(FbSub(Row(last, (r + 1) % 4)), if r == 0 then c else 0))
  {
    hide Add, FbSub, Row;
    var s := SubByte(last.Rotl24());
    XorRow(before, s, r);
    XorRow(before.Xor(s), Word(c, 0, 0, 0), r);
    SubRow(last, r);
    LowRow(c, r);
    AddAssoc(Row(before, r), Row(s, r), if r == 0 then c else 0);
  }

  lemma SubRow(w: Word, r: nat)
    requires r < 4
    ensures Row(SubByte(w.Rotl24()), r) == FbSub(Row(w, (r + 1) % 4)) && Row(SubByte(w), r) == FbSub(Row(w, r))
  {
    hide FbSub;
  }

  lemma LowRow(c: Byte, r: nat)
    requires r < 4
    ensures Row(Word(c, 0, 0, 0), r) == if r == 0 then c else 0
  {}

  /** The first words are the key's bytes. */
  lemma KeyBytes(key: seq<Byte>, nk: nat, i: nat, r: nat)
    requires |key| >= 4 * nk && i < nk && r < 4
    ensures Row(KeyWord(CipherKey(key, nk), nk, i), r) == key[4 * i + r]
  {}

  /** The first word derived in appendix A.1: a0fafe17 from the key 2b7e1516 28aed2a6 abf71588 09cf4f3c. */
  lemma AppendixA1()
    ensures var key: seq<Byte> := [0x2b, 0x7e, 0x15, 0x16, 0x28, 0xae, 0xd2, 0xa6, 0xab, 0xf7, 0x15, 0x88, 0x09, 0xcf, 0x4f, 0x3c];
      KeyWord(CipherKey(key, 4), 4, 4) == Word(0xa0, 0xfa, 0xfe, 0x17)
  {
    var key: seq<Byte> := [0x2b, 0x7e, 0x15, 0x16, 0x28, 0xae, 0xd2, 0xa6, 0xab, 0xf7, 0x15, 0x88, 0x09, 0xcf, 0x4f, 0x3c];
    var ck := CipherKey(key, 4);
    assert KeyWord(ck, 4, 0) == Word(0x2b, 0x7e, 0x15, 0x16) && KeyWord(ck, 4, 3) == Word(0x09, 0xcf, 0x4f, 0x3c);
    BlockWord(ck, 4, 1, 0, 4);
    assert SubByte(Word(0xcf, 0x4f, 0x3c, 0x09)) == Word(0x8a, 0x84, 0xeb, 0x01);
  }
}
