/** The AES core: the cipher, the equivalent inverse cipher and the key schedules of both. */
module Aes {
  import opened AesSbox

  /** Addition in GF(2^8), which is exclusive or. */
  function Add(a: Byte, b: Byte): Byte { a ^ b }

  /** A 32-bit word as its bytes, lowest first: what pack makes of four bytes and unpack takes apart. */
  datatype Word = Word(b0: Byte, b1: Byte, b2: Byte, b3: Byte) {
    function Xor(w: Word): Word { Word(Add(b0, w.b0), Add(b1, w.b1), Add(b2, w.b2), Add(b3, w.b3)) }
    function Rotl8(): Word { Word(b3, b0, b1, b2) }
    function Rotl16(): Word { Word(b2, b3, b0, b1) }
    function Rotl24(): Word { Word(b1, b2, b3, b0) }
  }

  /** The four words the rounds work on. */
  datatype State = State(w0: Word, w1: Word, w2: Word, w3: Word) {
    function Xor(s: State): State { State(w0.Xor(s.w0), w1.Xor(s.w1), w2.Xor(s.w2), w3.Xor(s.w3)) }
  }

  function Shl(a: Byte): Byte { a << 1 }

  /** Multiplication by 2 in GF(2^8). */
  function Xtime(a: Byte): Byte {
    if a & 0x80 != 0 then Add(Shl(a), 0x1B) else Shl(a)
  }

  /** v taken when the bit is set. */
  function Term(bit: bool, v: Byte): Byte { if bit then v else 0 }

  /** Multiplication in GF(2^8), which bmul looks up in a table of logarithms. */
  function Bmul(x: Byte, y: Byte): Byte {
    var y1 := Xtime(y);
    var y2 := Xtime(y1);
    var y3 := Xtime(y2);
    var y4 := Xtime(y3);
    var y5 := Xtime(y4);
    var y6 := Xtime(y5);
    var y7 := Xtime(y6);
    Add(Term(x & 1 != 0, y), Add(Term(x & 2 != 0, y1), Add(Term(x & 4 != 0, y2), Add(Term(x & 8 != 0, y3),
      Add(Term(x & 16 != 0, y4), Add(Term(x & 32 != 0, y5), Add(Term(x & 64 != 0, y6), Term(x & 128 != 0, y7))))))))
  }

  /** product: the dot product of two words. */
  function Product(x: Word, y: Word): Byte {
    Add(Add(Add(Bmul(x.b0, y.b0), Bmul(x.b1, y.b1)), Bmul(x.b2, y.b2)), Bmul(x.b3, y.b3))
  }

  /** InCo, the inverse coefficients. */
  const InCo: Word := Word(0xB, 0xD, 0x9, 0xE)

  function InvMixCol(x: Word): Word {
    var m := InCo;
    var m2 := m.Rotl24();
    var m1 := m2.Rotl24();
    var m0 := m1.Rotl24();
    Word(Product(m0, x), Product(m1, x), Product(m2, x), Product(m, x))
  }

  /** A byte times the first column of the mixing matrix. */
  function Column(s: Byte): Word { Word(Xtime(s), s, s, Add(s, Xtime(s))) }

  /** An entry of ftable: the column of a substituted byte. */
  function Ftable(b: Byte): Word { Column(FbSub(b)) }

  /** An entry of rtable: a back-substituted byte times the first column of the inverse matrix. */
  function Rtable(b: Byte): Word {
    var s := RbSub(b);
    Word(Bmul(0xE, s), Bmul(0x9, s), Bmul(0xD, s), Bmul(0xB, s))
  }

  /** One column of an encryption round, as the four table look-ups give it. */
  function EncColumn(k: Word, a: Word, b: Word, c: Word, d: Word): Word {
    k.Xor(Ftable(a.b0)).Xor(Ftable(b.b1).Rotl8()).Xor(Ftable(c.b2).Rotl16()).Xor(Ftable(d.b3).Rotl24())
  }

  function EncRound(k: State, x: State): State {
    State(EncColumn(k.w0, x.w0, x.w1, x.w2, x.w3), EncColumn(k.w1, x.w1, x.w2, x.w3, x.w0),
          EncColumn(k.w2, x.w2, x.w3, x.w0, x.w1), EncColumn(k.w3, x.w3, x.w0, x.w1, x.w2))
  }

  /** A byte widened to a word. */
  function Low(b: Byte): Word { Word(b, 0, 0, 0) }

  function EncLastColumn(k: Word, a: Word, b: Word, c: Word, d: Word): Word {
    k.Xor(Low(FbSub(a.b0))).Xor(Low(FbSub(b.b1)).Rotl8()).Xor(Low(FbSub(c.b2)).Rotl16()).Xor(Low(FbSub(d.b3)).Rotl24())
  }

  function EncLast(k: State, x: State): State {
    State(EncLastColumn(k.w0, x.w0, x.w1, x.w2, x.w3), EncLastColumn(k.w1, x.w1, x.w2, x.w3, x.w0),
          EncLastColumn(k.w2, x.w2, x.w3, x.w0, x.w1), EncLastColumn(k.w3, x.w3, x.w0, x.w1, x.w2))
  }

  function DecColumn(k: Word, a: Word, b: Word, c: Word, d: Word): Word {
    k.Xor(Rtable(a.b0)).Xor(Rtable(b.b1).Rotl8()).Xor(Rtable(c.b2).Rotl16()).Xor(Rtable(d.b3).Rotl24())
  }

  function DecRound(k: State, x: State): State {
    State(DecColumn(k.w0, x.w0, x.w3, x.w2, x.w1), DecColumn(k.w1, x.w1, x.w0, x.w3, x.w2),
          DecColumn(k.w2, x.w2, x.w1, x.w0, x.w3), DecColumn(k.w3, x.w3, x.w2, x.w1, x.w0))
  }

  function DecLastColumn(k: Word, a: Word, b: Word, c: Word, d: Word): Word {
    k.Xor(Low(RbSub(a.b0))).Xor(Low(RbSub(b.b1)).Rotl8()).Xor(Low(RbSub(c.b2)).Rotl16()).Xor(Low(RbSub(d.b3)).Rotl24())
  }

  function DecLast(k: State, x: State): State {
    State(DecLastColumn(k.w0, x.w0, x.w3, x.w2, x.w1), DecLastColumn(k.w1, x.w1, x.w0, x.w3, x.w2),
          DecLastColumn(k.w2, x.w2, x.w1, x.w0, x.w3), DecLastColumn(k.w3, x.w3, x.w2, x.w1, x.w0))
  }

  /** SubBytes and ShiftRows (sections 5.1.1 and 5.1.2 of FIPS 197). */
  function SubShift(x: State): State {
    State(SubColumn(x.w0, x.w1, x.w2, x.w3), SubColumn(x.w1, x.w2, x.w3, x.w0),
          SubColumn(x.w2, x.w3, x.w0, x.w1), SubColumn(x.w3, x.w0, x.w1, x.w2))
  }

  function SubColumn(a: Word, b: Word, c: Word, d: Word): Word {
    Word(FbSub(a.b0), FbSub(b.b1), FbSub(c.b2), FbSub(d.b3))
  }

  function InvSubShift(x: State): State {
    State(InvSubColumn(x.w0, x.w3, x.w2, x.w1), InvSubColumn(x.w1, x.w0, x.w3, x.w2),
          InvSubColumn(x.w2, x.w1, x.w0, x.w3), InvSubColumn(x.w3, x.w2, x.w1, x.w0))
  }

  function InvSubColumn(a: Word, b: Word, c: Word, d: Word): Word {
    Word(RbSub(a.b0), RbSub(b.b1), RbSub(c.b2), RbSub(d.b3))
  }

  /** MixColumns on one column (section 5.1.3 of FIPS 197). */
  function MixCol(w: Word): Word {
    Word(MixByte(w.b0, w.b1, w.b2, w.b3), MixByte(w.b1, w.b2, w.b3, w.b0),
         MixByte(w.b2, w.b3, w.b0, w.b1), MixByte(w.b3, w.b0, w.b1, w.b2))
  }

  /** One byte of it: 2 a + 3 b + c + d. */
  function MixByte(a: Byte, b: Byte, c: Byte, d: Byte): Byte { Add(Add(Xtime(a), Add(b, Xtime(b))), Add(c, d)) }

  function MixColumns(x: State): State { State(MixCol(x.w0), MixCol(x.w1), MixCol(x.w2), MixCol(x.w3)) }

  function InvMixColumns(x: State): State { State(InvMixCol(x.w0), InvMixCol(x.w1), InvMixCol(x.w2), InvMixCol(x.w3)) }

  lemma InverseOfSubShift(x: State)
    ensures InvSubShift(SubShift(x)) == x
  {
    InverseOfSubColumn(x.w0);
    InverseOfSubColumn(x.w1);
    InverseOfSubColumn(x.w2);
    InverseOfSubColumn(x.w3);
  }

  lemma InverseOfSubColumn(w: Word)
    ensures Word(RbSub(FbSub(w.b0)), RbSub(FbSub(w.b1)), RbSub(FbSub(w.b2)), RbSub(FbSub(w.b3))) == w
  {
    SubInverse(w.b0);
    SubInverse(w.b1);
    SubInverse(w.b2);
    SubInverse(w.b3);
  }

  lemma AddComm(a: Byte, b: Byte)
    ensures Add(a, b) == Add(b, a)
  {}

  lemma AddAssoc(a: Byte, b: Byte, c: Byte)
    ensures Add(Add(a, b), c) == Add(a, Add(b, c))
  {}

  lemma AddSelf(a: Byte)
    ensures Add(a, a) == 0 && Add(a, 0) == a
  {}

  /** The laws of addition, for sums of a few terms. */
  lemma Laws()
    ensures forall x: Byte, y: Byte :: Add(x, y) == Add(y, x)
    ensures forall x: Byte, y: Byte, z: Byte :: Add(Add(x, y), z) == Add(x, Add(y, z))
    ensures forall x: Byte, y: Byte :: Add(x, Add(x, y)) == y
    ensures forall x: Byte :: Add(x, x) == 0 && Add(x, 0) == x
  {
    hide Add;
    forall x: Byte, y: Byte ensures Add(x, y) == Add(y, x) { AddComm(x, y); }
    forall x: Byte, y: Byte, z: Byte ensures Add(Add(x, y), z) == Add(x, Add(y, z)) { AddAssoc(x, y, z); }
    forall x: Byte ensures Add(x, x) == 0 && Add(x, 0) == x { AddSelf(x); }
    forall x: Byte, y: Byte ensures Add(x, Add(x, y)) == y {
      AddAssoc(x, x, y);
      AddSelf(x);
      AddComm(0, y);
      AddSelf(y);
    }
  }

  lemma ShlAdd(a: Byte, b: Byte)
    ensures Shl(Add(a, b)) == Add(Shl(a), Shl(b))
  {}

  lemma TopAdd(a: Byte, b: Byte)
    ensures Add(a, b) & 0x80 != 0 <==> (a & 0x80 != 0) != (b & 0x80 != 0)
  {}

  /** Doubling is linear: the shift is, and the reduction cancels when both top bits are set. */
  lemma XtimeLinear(a: Byte, b: Byte)
    ensures Xtime(Add(a, b)) == Add(Xtime(a), Xtime(b))
  {
    hide Add, Shl;
    TopAdd(a, b);
    ShlAdd(a, b);
    Laws();
  }

  lemma Regroup(a: Byte, b: Byte, c: Byte, d: Byte)
    ensures Add(Add(a, b), Add(c, d)) == Add(Add(a, c), Add(b, d))
  {
    hide Add;
    Laws();
  }

  lemma Rotate(p: Byte, q: Byte, r: Byte, s: Byte)
    ensures Add(Add(Add(p, q), r), s) == Add(Add(Add(q, r), s), p) && Add(Add(Add(p, q), r), s) == Add(Add(p, q), Add(r, s))
  {
    hide Add;
    Laws();
  }

  function Mul4(y: Byte): Byte { Xtime(Xtime(y)) }
  function Mul8(y: Byte): Byte { Xtime(Mul4(y)) }
  function Mul9(y: Byte): Byte { Add(Mul8(y), y) }
  function Mul11(y: Byte): Byte { Add(Mul9(y), Xtime(y)) }
  function Mul13(y: Byte): Byte { Add(Mul9(y), Mul4(y)) }
  function Mul14(y: Byte): Byte { Add(Add(Mul8(y), Mul4(y)), Xtime(y)) }

  lemma Bmul9(y: Byte)
    ensures Bmul(0x9, y) == Mul9(y)
  {}

  lemma Bmul11(y: Byte)
    ensures Bmul(0xB, y) == Mul11(y)
  {}

  lemma Bmul13(y: Byte)
    ensures Bmul(0xD, y) == Mul13(y)
  {}

  lemma Bmul14(y: Byte)
    ensures Bmul(0xE, y) == Mul14(y)
  {}

  lemma Mul8Linear(a: Byte, b: Byte)
    ensures Mul4(Add(a, b)) == Add(Mul4(a), Mul4(b)) && Mul8(Add(a, b)) == Add(Mul8(a), Mul8(b))
  {
    hide Add, Xtime;
    XtimeLinear(a, b);
    XtimeLinear(Xtime(a), Xtime(b));
    XtimeLinear(Mul4(a), Mul4(b));
  }

  lemma Mul9Linear(a: Byte, b: Byte)
    ensures Mul9(Add(a, b)) == Add(Mul9(a), Mul9(b))
  {
    hide Add, Mul8;
    Mul8Linear(a, b);
    Regroup(Mul8(a), Mul8(b), a, b);
  }

  lemma Mul11Linear(a: Byte, b: Byte)
    ensures Mul11(Add(a, b)) == Add(Mul11(a), Mul11(b))
  {
    hide Add, Mul9, Xtime;
    Mul9Linear(a, b);
    XtimeLinear(a, b);
    Regroup(Mul9(a), Mul9(b), Xtime(a), Xtime(b));
  }

  lemma Mul13Linear(a: Byte, b: Byte)
    ensures Mul13(Add(a, b)) == Add(Mul13(a), Mul13(b))
  {
    hide Add, Mul9, Mul4;
    Mul9Linear(a, b);
    Mul8Linear(a, b);
    Regroup(Mul9(a), Mul9(b), Mul4(a), Mul4(b));
  }

  lemma Mul14Linear(a: Byte, b: Byte)
    ensures Mul14(Add(a, b)) == Add(Mul14(a), Mul14(b))
  {
    hide Add, Mul8, Mul4, Xtime;
    Mul8Linear(a, b);
    XtimeLinear(a, b);
    Regroup(Mul8(a), Mul8(b), Mul4(a), Mul4(b));
    Regroup(Add(Mul8(a), Mul4(a)), Add(Mul8(b), Mul4(b)), Xtime(a), Xtime(b));
  }

  /** The row of the inverse mixing matrix that yields byte 0. */
  function Dot(a: Byte, b: Byte, c: Byte, d: Byte): Byte { Add(Add(Add(Mul14(a), Mul11(b)), Mul13(c)), Mul9(d)) }

  /** The inverse mixing of a column, row by row. */
  function UnmixCol(w: Word): Word {
    Word(Dot(w.b0, w.b1, w.b2, w.b3), Dot(w.b1, w.b2, w.b3, w.b0), Dot(w.b2, w.b3, w.b0, w.b1), Dot(w.b3, w.b0, w.b1, w.b2))
  }

  lemma DotLinear(a: Byte, b: Byte, c: Byte, d: Byte, e: Byte, f: Byte, g: Byte, h: Byte)
    ensures Dot(Add(a, e), Add(b, f), Add(c, g), Add(d, h)) == Add(Dot(a, b, c, d), Dot(e, f, g, h))
  {
    hide Add, Mul9, Mul11, Mul13, Mul14;
    Mul14Linear(a, e);
    Mul11Linear(b, f);
    Mul13Linear(c, g);
    Mul9Linear(d, h);
    Regroup(Mul14(a), Mul14(e), Mul11(b), Mul11(f));
    Regroup(Add(Mul14(a), Mul11(b)), Add(Mul14(e), Mul11(f)), Mul13(c), Mul13(g));
    Regroup(Add(Add(Mul14(a), Mul11(b)), Mul13(c)), Add(Add(Mul14(e), Mul11(f)), Mul13(g)), Mul9(d), Mul9(h));
  }

  /** Inverse mixing is linear. */
  lemma UnmixLinear(v: Word, w: Word)
    ensures UnmixCol(v.Xor(w)) == UnmixCol(v).Xor(UnmixCol(w))
  {
    hide Add, Dot;
    DotLinear(v.b0, v.b1, v.b2, v.b3, w.b0, w.b1, w.b2, w.b3);
    DotLinear(v.b1, v.b2, v.b3, v.b0, w.b1, w.b2, w.b3, w.b0);
    DotLinear(v.b2, v.b3, v.b0, v.b1, w.b2, w.b3, w.b0, w.b1);
    DotLinear(v.b3, v.b0, v.b1, v.b2, w.b3, w.b0, w.b1, w.b2);
  }

  /** x cancels out of (x + y) + (x + z). */
  lemma Meet(x: Byte, y: Byte, z: Byte)
    ensures Add(Add(x, y), Add(x, z)) == Add(y, z)
  {
    hide Add;
    Laws();
  }

  /** The products of the matrix columns with one mixed byte, where p1 to p4 stand for its first four doublings. */
  lemma CancelOwn(a: Byte, p1: Byte, p2: Byte, p3: Byte, p4: Byte)
    ensures var m9, n9 := Add(p3, a), Add(p4, p1);
            Add(Add(Add(Add(Add(p4, p3), p2), Add(m9, p1)), Add(m9, p2)), Add(m9, n9)) == a
  {
    hide Add;
    var m9, n9, n14 := Add(p3, a), Add(p4, p1), Add(Add(p4, p3), p2);
    AddAssoc(n14, Add(m9, p1), Add(m9, p2));
    Meet(m9, p1, p2);
    assert Add(n14, Add(p1, p2)) == Add(p3, n9) by { Laws(); }
    assert Add(m9, n9) == Add(p3, Add(a, n9)) by { AddAssoc(p3, a, n9); }
    Meet(p3, n9, Add(a, n9));
    assert Add(n9, Add(a, n9)) == a by { Laws(); }
  }

  lemma CancelSecond(a: Byte, p1: Byte, p2: Byte, p3: Byte, p4: Byte)
    ensures var m9, n9 := Add(p3, a), Add(p4, p1);
            Add(Add(Add(Add(Add(Add(p3, p2), p1), Add(Add(p4, p3), p2)), Add(n9, p2)), Add(m9, p2)), m9) == 0
  {
    hide Add;
    var m9, n9 := Add(p3, a), Add(p4, p1);
    assert Add(Add(Add(p3, p2), p1), Add(Add(p4, p3), p2)) == n9 by { Laws(); }
    assert Add(Add(Add(n9, Add(n9, p2)), Add(m9, p2)), m9) == 0 by { Laws(); }
  }

  lemma CancelThird(a: Byte, p1: Byte, p2: Byte, p3: Byte, p4: Byte)
    ensures var m9, n9 := Add(p3, a), Add(p4, p1);
            Add(Add(Add(Add(Add(p3, p2), p1), Add(Add(m9, p1), Add(n9, p2))), Add(n9, p3)), m9) == 0
  {
    hide Add;
    var m9, n9 := Add(p3, a), Add(p4, p1);
    Regroup(m9, p1, n9, p2);
    AddComm(p1, p2);
    AddAssoc(p3, p2, p1);
    AddComm(p3, Add(p1, p2));
    AddComm(Add(m9, n9), Add(p1, p2));
    Meet(Add(p1, p2), p3, Add(m9, n9));
    assert Add(Add(Add(p3, Add(m9, n9)), Add(n9, p3)), m9) == 0 by { Laws(); }
  }

  lemma CancelLast(a: Byte, p1: Byte, p2: Byte, p3: Byte, p4: Byte)
    ensures var m9, n9 := Add(p3, a), Add(p4, p1);
            Add(Add(Add(Add(Add(p3, p2), p1), Add(m9, p1)), Add(Add(m9, p2), Add(n9, p3))), n9) == 0
  {
    hide Add;
    var m9, n9 := Add(p3, a), Add(p4, p1);
    assert Add(Add(Add(p3, p2), p1), Add(m9, p1)) == Add(Add(p3, p2), m9) by { Laws(); }
    assert Add(Add(p3, p2), m9) == Add(Add(m9, p2), p3) by { Laws(); }
    Meet(Add(m9, p2), p3, Add(n9, p3));
    assert Add(p3, Add(n9, p3)) == n9 by { Laws(); }
    AddSelf(n9);
  }

  lemma ColumnIdentity(a: Byte)
    ensures Dot(Xtime(a), a, a, Add(a, Xtime(a))) == a && Dot(Add(a, Xtime(a)), Xtime(a), a, a) == 0
    ensures Dot(a, Add(a, Xtime(a)), Xtime(a), a) == 0 && Dot(a, a, Add(a, Xtime(a)), Xtime(a)) == 0
  {
    hide Add, Xtime;
    var x := Xtime(a);
    Mul9Linear(a, x);
    Mul11Linear(a, x);
    Mul13Linear(a, x);
    Mul14Linear(a, x);
    CancelOwn(a, x, Mul4(a), Mul8(a), Mul8(x));
    CancelSecond(a, x, Mul4(a), Mul8(a), Mul8(x));
    CancelThird(a, x, Mul4(a), Mul8(a), Mul8(x));
    CancelLast(a, x, Mul4(a), Mul8(a), Mul8(x));
  }

  lemma AddZero(a: Byte)
    ensures Add(a, 0) == a && Add(0, a) == a
  {}

  /** A row of the inverse matrix picks its own byte out of a mixed column. */
  lemma RowRestores(a: Byte, b: Byte, c: Byte, d: Byte)
    ensures Dot(MixByte(a, b, c, d), MixByte(b, c, d, a), MixByte(c, d, a, b), MixByte(d, a, b, c)) == a
  {
    hide Add, Xtime, Dot;
    var x, y, z, t := Xtime(a), Xtime(b), Xtime(c), Xtime(d);
    var b3, c3, d3, a3 := Add(b, y), Add(c, z), Add(d, t), Add(a, x);
    Arrange(x, b3, c, d, y, c3, a, z, d3, b, t, a3);
    DotLinear(x, a, a, a3, b3, y, b, b);
    DotLinear(c, c3, z, c, d, d, d3, t);
    DotLinear(Add(x, b3), Add(a, y), Add(a, b), Add(a3, b), Add(c, d), Add(c3, d), Add(z, d3), Add(c, t));
    ColumnIdentity(a);
    ColumnIdentity(b);
    ColumnIdentity(c);
    ColumnIdentity(d);
    AddZero(a);
    AddZero(0);
  }

  /** The four bytes of a mixed column, each as what a and b give plus what c and d give. */
  lemma Arrange(x: Byte, b3: Byte, c: Byte, d: Byte, y: Byte, c3: Byte, a: Byte, z: Byte, d3: Byte, b: Byte, t: Byte, a3: Byte)
    ensures Add(Add(y, c3), Add(d, a)) == Add(Add(a, y), Add(c3, d))
    ensures Add(Add(z, d3), Add(a, b)) == Add(Add(a, b), Add(z, d3))
    ensures Add(Add(t, a3), Add(b, c)) == Add(Add(a3, b), Add(c, t))
  {}

  /** Inverse mixing undoes mixing. */
  lemma UnmixMix(w: Word)
    ensures UnmixCol(MixCol(w)) == w
  {
    hide Add, Dot, MixByte;
    RowRestores(w.b0, w.b1, w.b2, w.b3);
    RowRestores(w.b1, w.b2, w.b3, w.b0);
    RowRestores(w.b2, w.b3, w.b0, w.b1);
    RowRestores(w.b3, w.b0, w.b1, w.b2);
  }

  lemma RotateSum(p: Byte, q: Byte, r: Byte, s: Byte)
    ensures Add(Add(Add(p, q), r), s) == Add(Add(Add(q, r), s), p) == Add(Add(Add(r, s), p), q) == Add(Add(Add(s, p), q), r)
  {
    hide Add;
    Rotate(p, q, r, s);
    Rotate(q, r, s, p);
    Rotate(r, s, p, q);
  }

  /** The dot products of InvMixCol are the rows of the inverse matrix. */
  lemma InvMixColIs(w: Word)
    ensures InvMixCol(w) == UnmixCol(w)
  {
    hide Add, Bmul, Mul9, Mul11, Mul13, Mul14;
    forall y | y in [w.b0, w.b1, w.b2, w.b3]
      ensures Bmul(0x9, y) == Mul9(y) && Bmul(0xB, y) == Mul11(y) && Bmul(0xD, y) == Mul13(y) && Bmul(0xE, y) == Mul14(y)
    {
      Bmul9(y);
      Bmul11(y);
      Bmul13(y);
      Bmul14(y);
    }
    RotateSum(Mul14(w.b1), Mul11(w.b2), Mul13(w.b3), Mul9(w.b0));
    RotateSum(Mul14(w.b2), Mul11(w.b3), Mul13(w.b0), Mul9(w.b1));
    RotateSum(Mul14(w.b3), Mul11(w.b0), Mul13(w.b1), Mul9(w.b2));
  }

  lemma InvMixLinear(v: Word, w: Word)
    ensures InvMixCol(v.Xor(w)) == InvMixCol(v).Xor(InvMixCol(w))
  {
    hide UnmixCol, InvMixCol, Word.Xor;
    InvMixColIs(v);
    InvMixColIs(w);
    InvMixColIs(v.Xor(w));
    UnmixLinear(v, w);
  }

  lemma InvMixMix(w: Word)
    ensures InvMixCol(MixCol(w)) == w
  {
    hide UnmixCol, InvMixCol, MixCol;
    InvMixColIs(MixCol(w));
    UnmixMix(w);
  }

  lemma KeyFirst(k: Byte, p: Byte, q: Byte, r: Byte, s: Byte)
    ensures Add(Add(Add(Add(k, p), q), r), s) == Add(k, Add(Add(Add(p, q), r), s))
  {
    hide Add;
    Laws();
  }

  /** The sum of a key byte and four others, in any rotation of the four. */
  lemma FiveSum(k: Byte, p: Byte, q: Byte, r: Byte, s: Byte)
    ensures var sum := Add(Add(Add(Add(k, p), q), r), s);
            && sum == Add(k, Add(Add(Add(p, q), r), s)) && sum == Add(k, Add(Add(Add(q, r), s), p))
            && sum == Add(k, Add(Add(Add(r, s), p), q)) && sum == Add(k, Add(Add(Add(s, p), q), r))
            && sum == Add(k, Add(Add(p, q), Add(r, s))) && sum == Add(k, Add(Add(q, r), Add(s, p)))
            && sum == Add(k, Add(Add(r, s), Add(p, q))) && sum == Add(k, Add(Add(s, p), Add(q, r)))
  {
    hide Add;
    KeyFirst(k, p, q, r, s);
    Rotate(p, q, r, s);
    Rotate(q, r, s, p);
    Rotate(r, s, p, q);
    Rotate(s, p, q, r);
  }

  /** The table look-ups of a round column are substitution and mixing. */
  lemma EncColumnIs(k: Word, a: Word, b: Word, c: Word, d: Word)
    ensures EncColumn(k, a, b, c, d) == k.Xor(MixCol(SubColumn(a, b, c, d)))
  {
    hide Add, Xtime, FbSub;
    var s, t, u, v := FbSub(a.b0), FbSub(b.b1), FbSub(c.b2), FbSub(d.b3);
    FiveSum(k.b0, Xtime(s), Add(t, Xtime(t)), u, v);
    FiveSum(k.b1, s, Xtime(t), Add(u, Xtime(u)), v);
    FiveSum(k.b2, s, t, Xtime(u), Add(v, Xtime(v)));
    FiveSum(k.b3, Add(s, Xtime(s)), t, u, Xtime(v));
  }

  /** An entry of rtable, with the multiplications written out. */
  lemma RtableIs(y: Byte)
    ensures Rtable(y) == Word(Mul14(RbSub(y)), Mul9(RbSub(y)), Mul13(RbSub(y)), Mul11(RbSub(y)))
  {
    hide Bmul, RbSub, Mul9, Mul11, Mul13, Mul14;
    Bmul9(RbSub(y));
    Bmul11(RbSub(y));
    Bmul13(RbSub(y));
    Bmul14(RbSub(y));
  }

  lemma DecColumnIs(k: Word, a: Word, b: Word, c: Word, d: Word)
    ensures DecColumn(k, a, b, c, d) == k.Xor(InvMixCol(InvSubColumn(a, b, c, d)))
  {
    hide Add, Rtable, RbSub, InvMixCol, Mul9, Mul11, Mul13, Mul14;
    RtableIs(a.b0);
    RtableIs(b.b1);
    RtableIs(c.b2);
    RtableIs(d.b3);
    var s, t, u, v := RbSub(a.b0), RbSub(b.b1), RbSub(c.b2), RbSub(d.b3);
    InvMixColIs(InvSubColumn(a, b, c, d));
    FiveSum(k.b0, Mul14(s), Mul11(t), Mul13(u), Mul9(v));
    FiveSum(k.b1, Mul9(s), Mul14(t), Mul11(u), Mul13(v));
    FiveSum(k.b2, Mul13(s), Mul9(t), Mul14(u), Mul11(v));
    FiveSum(k.b3, Mul11(s), Mul13(t), Mul9(u), Mul14(v));
  }

  /** An encryption round is SubBytes, ShiftRows, MixColumns and AddRoundKey. */
  lemma EncRoundIs(k: State, x: State)
    ensures EncRound(k, x) == k.Xor(MixColumns(SubShift(x)))
  {
    hide EncColumn, MixCol, SubColumn, Word.Xor;
    EncColumnIs(k.w0, x.w0, x.w1, x.w2, x.w3);
    EncColumnIs(k.w1, x.w1, x.w2, x.w3, x.w0);
    EncColumnIs(k.w2, x.w2, x.w3, x.w0, x.w1);
    EncColumnIs(k.w3, x.w3, x.w0, x.w1, x.w2);
  }

  lemma DecRoundIs(k: State, x: State)
    ensures DecRound(k, x) == k.Xor(InvMixColumns(InvSubShift(x)))
  {
    hide DecColumn, InvMixCol, InvSubColumn, Word.Xor;
    DecColumnIs(k.w0, x.w0, x.w3, x.w2, x.w1);
    DecColumnIs(k.w1, x.w1, x.w0, x.w3, x.w2);
    DecColumnIs(k.w2, x.w2, x.w1, x.w0, x.w3);
    DecColumnIs(k.w3, x.w3, x.w2, x.w1, x.w0);
  }

  lemma EncLastColumnIs(k: Word, a: Word, b: Word, c: Word, d: Word)
    ensures EncLastColumn(k, a, b, c, d) == k.Xor(SubColumn(a, b, c, d))
  {
    hide Add, FbSub;
    Laws();
  }

  lemma DecLastColumnIs(k: Word, a: Word, b: Word, c: Word, d: Word)
    ensures DecLastColumn(k, a, b, c, d) == k.Xor(InvSubColumn(a, b, c, d))
  {
    hide Add, RbSub;
    Laws();
  }

  lemma EncLastIs(k: State, x: State)
    ensures EncLast(k, x) == k.Xor(SubShift(x))
  {
    hide EncLastColumn, SubColumn, Word.Xor;
    EncLastColumnIs(k.w0, x.w0, x.w1, x.w2, x.w3);
    EncLastColumnIs(k.w1, x.w1, x.w2, x.w3, x.w0);
    EncLastColumnIs(k.w2, x.w2, x.w3, x.w0, x.w1);
    EncLastColumnIs(k.w3, x.w3, x.w0, x.w1, x.w2);
  }

  lemma DecLastIs(k: State, x: State)
    ensures DecLast(k, x) == k.Xor(InvSubShift(x))
  {
    hide DecLastColumn, InvSubColumn, Word.Xor;
    DecLastColumnIs(k.w0, x.w0, x.w3, x.w2, x.w1);
    DecLastColumnIs(k.w1, x.w1, x.w0, x.w3, x.w2);
    DecLastColumnIs(k.w2, x.w2, x.w1, x.w0, x.w3);
    DecLastColumnIs(k.w3, x.w3, x.w2, x.w1, x.w0);
  }

  lemma WordCancel(k: Word, s: Word)
    ensures k.Xor(k.Xor(s)) == s && k.Xor(s) == s.Xor(k)
  {}

  lemma StateCancel(k: State, s: State)
    ensures k.Xor(k.Xor(s)) == s && k.Xor(s) == s.Xor(k)
  {
    hide Word.Xor;
    WordCancel(k.w0, s.w0);
    WordCancel(k.w1, s.w1);
    WordCancel(k.w2, s.w2);
    WordCancel(k.w3, s.w3);
  }

  lemma InvMixColumnsLinear(k: State, s: State)
    ensures InvMixColumns(k.Xor(s)) == InvMixColumns(k).Xor(InvMixColumns(s))
  {
    hide InvMixCol, Word.Xor;
    InvMixLinear(k.w0, s.w0);
    InvMixLinear(k.w1, s.w1);
    InvMixLinear(k.w2, s.w2);
    InvMixLinear(k.w3, s.w3);
  }

  lemma InvMixColumnsMix(s: State)
    ensures InvMixColumns(MixColumns(s)) == s
  {
    hide InvMixCol, MixCol;
    InvMixMix(s.w0);
    InvMixMix(s.w1);
    InvMixMix(s.w2);
    InvMixMix(s.w3);
  }

  /** The round key i of a schedule. */
  function KeyAt(keys: seq<Word>, i: nat): State
    requires 4 * i + 4 <= |keys|
  {
    State(keys[4 * i], keys[4 * i + 1], keys[4 * i + 2], keys[4 * i + 3])
  }

  /** The state after i full rounds of encryption. */
  function EncAfter(fkey: seq<Word>, p: State, i: nat): State
    requires 4 * i + 4 <= |fkey|
  {
    if i == 0 then p.Xor(KeyAt(fkey, 0)) else EncRound(KeyAt(fkey, i), EncAfter(fkey, p, i - 1))
  }

  function EncryptState(fkey: seq<Word>, nr: nat, p: State): State
    requires nr > 0 && 4 * nr + 4 <= |fkey|
  {
    EncLast(KeyAt(fkey, nr), EncAfter(fkey, p, nr - 1))
  }

  function DecAfter(rkey: seq<Word>, c: State, i: nat): State
    requires 4 * i + 4 <= |rkey|
  {
    if i == 0 then c.Xor(KeyAt(rkey, 0)) else DecRound(KeyAt(rkey, i), DecAfter(rkey, c, i - 1))
  }

  function DecryptState(rkey: seq<Word>, nr: nat, c: State): State
    requires nr > 0 && 4 * nr + 4 <= |rkey|
  {
    DecLast(KeyAt(rkey, nr), DecAfter(rkey, c, nr - 1))
  }

  /** The decryption schedule: the encryption schedule backwards, inversely mixed but for its ends. */
  ghost predicate Reversed(fkey: seq<Word>, rkey: seq<Word>, nr: nat) {
    && nr > 0 && 4 * nr + 4 <= |fkey| && 4 * nr + 4 <= |rkey|
    && KeyAt(rkey, 0) == KeyAt(fkey, nr) && KeyAt(rkey, nr) == KeyAt(fkey, 0)
    && forall j | 0 < j < nr :: KeyAt(rkey, j) == InvMixColumns(KeyAt(fkey, nr - j))
  }

  /** One round back: from the substituted state of round i to that of round i - 1. */
  lemma RoundBack(k: State, s: State)
    ensures DecRound(InvMixColumns(k), SubShift(EncRound(k, s))) == SubShift(s)
  {
    hide EncRound, DecRound, InvMixColumns, MixColumns, SubShift, InvSubShift, State.Xor;
    var e := EncRound(k, s);
    var m := MixColumns(SubShift(s));
    EncRoundIs(k, s);
    DecRoundIs(InvMixColumns(k), SubShift(e));
    InverseOfSubShift(e);
    InvMixColumnsLinear(k, m);
    StateCancel(InvMixColumns(k), InvMixColumns(m));
    InvMixColumnsMix(SubShift(s));
  }

  /** After i rounds decryption stands where encryption stood, substituted, nr - 1 - i rounds in. */
  lemma {:induction false} DecAfterIs(fkey: seq<Word>, rkey: seq<Word>, nr: nat, p: State, i: nat)
    requires Reversed(fkey, rkey, nr) && i < nr
    ensures DecAfter(rkey, EncryptState(fkey, nr, p), i) == SubShift(EncAfter(fkey, p, nr - 1 - i))
  {
    hide EncRound, DecRound, EncLast, InvMixColumns, SubShift, State.Xor;
    if i == 0 {
      EncLastIs(KeyAt(fkey, nr), EncAfter(fkey, p, nr - 1));
      StateCancel(KeyAt(fkey, nr), SubShift(EncAfter(fkey, p, nr - 1)));
      StateCancel(KeyAt(fkey, nr), EncryptState(fkey, nr, p));
    } else {
      DecAfterIs(fkey, rkey, nr, p, i - 1);
      RoundBack(KeyAt(fkey, nr - i), EncAfter(fkey, p, nr - 1 - i));
    }
  }

  /** Decryption under the reversed schedule undoes encryption, for any number of rounds and any round keys. */
  lemma DecryptEncrypt(fkey: seq<Word>, rkey: seq<Word>, nr: nat, p: State)
    requires Reversed(fkey, rkey, nr)
    ensures DecryptState(rkey, nr, EncryptState(fkey, nr, p)) == p
  {
    hide DecLast, EncLast, SubShift, InvSubShift, State.Xor, InvMixColumns, DecRound, EncRound;
    DecAfterIs(fkey, rkey, nr, p, nr - 1);
    var s := p.Xor(KeyAt(fkey, 0));
    DecLastIs(KeyAt(rkey, nr), SubShift(s));
    InverseOfSubShift(s);
    StateCancel(KeyAt(fkey, 0), p);
  }
}
