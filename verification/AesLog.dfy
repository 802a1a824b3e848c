/** The multiplication of the AES sources, by tables of logarithms and powers of 3. */
module AesLog {
  import opened AesSbox
  import opened Aes

  /** One of sixteen values, by a number below 16. */
  function Nth(i: nat, v0: Byte, v1: Byte, v2: Byte, v3: Byte, v4: Byte, v5: Byte, v6: Byte, v7: Byte,
               v8: Byte, v9: Byte, va: Byte, vb: Byte, vc: Byte, vd: Byte, ve: Byte, vf: Byte): Byte
  {
    if i < 8 then
      if i < 4 then (if i < 2 then (if i == 0 then v0 else v1) else (if i == 2 then v2 else v3))
      else (if i < 6 then (if i == 4 then v4 else v5) else (if i == 6 then v6 else v7))
    else
      if i < 12 then (if i < 10 then (if i == 8 then v8 else v9) else (if i == 10 then va else vb))
      else (if i < 14 then (if i == 12 then vc else vd) else (if i == 14 then ve else vf))
  }

  /** ptab: the powers of 3, up to the 255th. */
  function PTab(i: nat): Byte {
    if i < 16 then Nth(i, 1, 3, 5, 15, 17, 51, 85, 255, 26, 46, 114, 150, 161, 248, 19, 53)
    else if i < 32 then Nth(i - 16, 95, 225, 56, 72, 216, 115, 149, 164, 247, 2, 6, 10, 30, 34, 102, 170)
    else if i < 48 then Nth(i - 32, 229, 52, 92, 228, 55, 89, 235, 38, 106, 190, 217, 112, 144, 171, 230, 49)
    else if i < 64 then Nth(i - 48, 83, 245, 4, 12, 20, 60, 68, 204, 79, 209, 104, 184, 211, 110, 178, 205)
    else if i < 80 then Nth(i - 64, 76, 212, 103, 169, 224, 59, 77, 215, 98, 166, 241, 8, 24, 40, 120, 136)
    else if i < 96 then Nth(i - 80, 131, 158, 185, 208, 107, 189, 220, 127, 129, 152, 179, 206, 73, 219, 118, 154)
    else if i < 112 then Nth(i - 96, 181, 196, 87, 249, 16, 48, 80, 240, 11, 29, 39, 105, 187, 214, 97, 163)
    else if i < 128 then Nth(i - 112, 254, 25, 43, 125, 135, 146, 173, 236, 47, 113, 147, 174, 233, 32, 96, 160)
    else if i < 144 then Nth(i - 128, 251, 22, 58, 78, 210, 109, 183, 194, 93, 231, 50, 86, 250, 21, 63, 65)
    else if i < 160 then Nth(i - 144, 195, 94, 226, 61, 71, 201, 64, 192, 91, 237, 44, 116, 156, 191, 218, 117)
    else if i < 176 then Nth(i - 160, 159, 186, 213, 100, 172, 239, 42, 126, 130, 157, 188, 223, 122, 142, 137, 128)
    else if i < 192 then Nth(i - 176, 155, 182, 193, 88, 232, 35, 101, 175, 234, 37, 111, 177, 200, 67, 197, 84)
    else if i < 208 then Nth(i - 192, 252, 31, 33, 99, 165, 244, 7, 9, 27, 45, 119, 153, 176, 203, 70, 202)
    else if i < 224 then Nth(i - 208, 69, 207, 74, 222, 121, 139, 134, 145, 168, 227, 62, 66, 198, 81, 243, 14)
    else if i < 240 then Nth(i - 224, 18, 54, 90, 238, 41, 123, 141, 140, 143, 138, 133, 148, 167, 242, 13, 23)
    else Nth(i - 240, 57, 75, 221, 124, 132, 151, 162, 253, 28, 36, 108, 180, 199, 82, 246, 1)
  }

  /** One of sixteen numbers, by the low four bits. */
  function PickNat(i: Byte, v0: nat, v1: nat, v2: nat, v3: nat, v4: nat, v5: nat, v6: nat, v7: nat,
                   v8: nat, v9: nat, va: nat, vb: nat, vc: nat, vd: nat, ve: nat, vf: nat): nat
  {
    if i & 8 == 0 then
      if i & 4 == 0 then
        if i & 2 == 0 then (if i & 1 == 0 then v0 else v1) else (if i & 1 == 0 then v2 else v3)
      else
        if i & 2 == 0 then (if i & 1 == 0 then v4 else v5) else (if i & 1 == 0 then v6 else v7)
    else
      if i & 4 == 0 then
        if i & 2 == 0 then (if i & 1 == 0 then v8 else v9) else (if i & 1 == 0 then va else vb)
      else
        if i & 2 == 0 then (if i & 1 == 0 then vc else vd) else (if i & 1 == 0 then ve else vf)
  }

  /** A row of ltab. */
  function LRow(r: Byte, x: Byte): nat {
    if r == 0 then PickNat(x, 0, 255, 25, 1, 50, 2, 26, 198, 75, 199, 27, 104, 51, 238, 223, 3)
    else if r == 1 then PickNat(x, 100, 4, 224, 14, 52, 141, 129, 239, 76, 113, 8, 200, 248, 105, 28, 193)
    else if r == 2 then PickNat(x, 125, 194, 29, 181, 249, 185, 39, 106, 77, 228, 166, 114, 154, 201, 9, 120)
    else if r == 3 then PickNat(x, 101, 47, 138, 5, 33, 15, 225, 36, 18, 240, 130, 69, 53, 147, 218, 142)
    else if r == 4 then PickNat(x, 150, 143, 219, 189, 54, 208, 206, 148, 19, 92, 210, 241, 64, 70, 131, 56)
    else if r == 5 then PickNat(x, 102, 221, 253, 48, 191, 6, 139, 98, 179, 37, 226, 152, 34, 136, 145, 16)
    else if r == 6 then PickNat(x, 126, 110, 72, 195, 163, 182, 30, 66, 58, 107, 40, 84, 250, 133, 61, 186)
    else if r == 7 then PickNat(x, 43, 121, 10, 21, 155, 159, 94, 202, 78, 212, 172, 229, 243, 115, 167, 87)
    else if r == 8 then PickNat(x, 175, 88, 168, 80, 244, 234, 214, 116, 79, 174, 233, 213, 231, 230, 173, 232)
    else if r == 9 then PickNat(x, 44, 215, 117, 122, 235, 22, 11, 245, 89, 203, 95, 176, 156, 169, 81, 160)
    else if r == 10 then PickNat(x, 127, 12, 246, 111, 23, 196, 73, 236, 216, 67, 31, 45, 164, 118, 123, 183)
    else if r == 11 then PickNat(x, 204, 187, 62, 90, 251, 96, 177, 134, 59, 82, 161, 108, 170, 85, 41, 157)
    else if r == 12 then PickNat(x, 151, 178, 135, 144, 97, 190, 220, 252, 188, 149, 207, 205, 55, 63, 91, 209)
    else if r == 13 then PickNat(x, 83, 57, 132, 60, 65, 162, 109, 71, 20, 42, 158, 93, 86, 242, 211, 171)
    else if r == 14 then PickNat(x, 68, 17, 146, 217, 35, 32, 46, 137, 180, 124, 184, 38, 119, 153, 227, 165)
    else PickNat(x, 103, 74, 237, 222, 197, 49, 254, 24, 13, 99, 140, 128, 192, 247, 112, 7)
  }

  /** ltab: the logarithms to the base 3. */
  function LTab(x: Byte): nat { LRow(x >> 4, x) }

  /** Multiplication by 3. */
  function Mul3(a: Byte): Byte { Add(a, Xtime(a)) }

  /** Values of which each is three times the one before. */
  lemma NthTriples(i: nat, v0: Byte, v1: Byte, v2: Byte, v3: Byte, v4: Byte, v5: Byte, v6: Byte, v7: Byte,
                   v8: Byte, v9: Byte, va: Byte, vb: Byte, vc: Byte, vd: Byte, ve: Byte, vf: Byte)
    requires i < 15
    requires v1 == Mul3(v0) && v2 == Mul3(v1) && v3 == Mul3(v2) && v4 == Mul3(v3) && v5 == Mul3(v4) && v6 == Mul3(v5)
        && v7 == Mul3(v6) && v8 == Mul3(v7)
    requires v9 == Mul3(v8) && va == Mul3(v9) && vb == Mul3(va) && vc == Mul3(vb) && vd == Mul3(vc) && ve == Mul3(vd)
        && vf == Mul3(ve)
    ensures Nth(i + 1, v0, v1, v2, v3, v4, v5, v6, v7, v8, v9, va, vb, vc, vd, ve, vf) == Mul3(Nth(i, v0, v1, v2, v3,
        v4, v5, v6, v7, v8, v9, va, vb, vc, vd, ve, vf))
  {
    hide Mul3;
  }

  lemma TripleRow0(i: nat)
    requires i < 16
    ensures PTab(i + 1) == Mul3(PTab(i))
  {
    if i < 15 {
      NthTriples(i, 1, 3, 5, 15, 17, 51, 85, 255, 26, 46, 114, 150, 161, 248, 19, 53);
    } else {
      assert Mul3(53) == 95 && PTab(16) == 95;
    }
  }

  lemma TripleRow1(i: nat)
    requires 16 <= i < 32
    ensures PTab(i + 1) == Mul3(PTab(i))
  {
    if i < 31 {
      NthTriples(i - 16, 95, 225, 56, 72, 216, 115, 149, 164, 247, 2, 6, 10, 30, 34, 102, 170);
    } else {
      assert Mul3(170) == 229 && PTab(32) == 229;
    }
  }

  lemma TripleRow2(i: nat)
    requires 32 <= i < 48
    ensures PTab(i + 1) == Mul3(PTab(i))
  {
    if i < 47 {
      NthTriples(i - 32, 229, 52, 92, 228, 55, 89, 235, 38, 106, 190, 217, 112, 144, 171, 230, 49);
    } else {
      assert Mul3(49) == 83 && PTab(48) == 83;
    }
  }

  lemma TripleRow3(i: nat)
    requires 48 <= i < 64
    ensures PTab(i + 1) == Mul3(PTab(i))
  {
    if i < 63 {
      NthTriples(i - 48, 83, 245, 4, 12, 20, 60, 68, 204, 79, 209, 104, 184, 211, 110, 178, 205);
    } else {
      assert Mul3(205) == 76 && PTab(64) == 76;
    }
  }

  lemma TripleRow4(i: nat)
    requires 64 <= i < 80
    ensures PTab(i + 1) == Mul3(PTab(i))
  {
    if i < 79 {
      NthTriples(i - 64, 76, 212, 103, 169, 224, 59, 77, 215, 98, 166, 241, 8, 24, 40, 120, 136);
    } else {
      assert Mul3(136) == 131 && PTab(80) == 131;
    }
  }

  lemma TripleRow5(i: nat)
    requires 80 <= i < 96
    ensures PTab(i + 1) == Mul3(PTab(i))
  {
    if i < 95 {
      NthTriples(i - 80, 131, 158, 185, 208, 107, 189, 220, 127, 129, 152, 179, 206, 73, 219, 118, 154);
    } else {
      assert Mul3(154) == 181 && PTab(96) == 181;
    }
  }

  lemma TripleRow6(i: nat)
    requires 96 <= i < 112
    ensures PTab(i + 1) == Mul3(PTab(i))
  {
    if i < 111 {
      NthTriples(i - 96, 181, 196, 87, 249, 16, 48, 80, 240, 11, 29, 39, 105, 187, 214, 97, 163);
    } else {
      assert Mul3(163) == 254 && PTab(112) == 254;
    }
  }

  lemma TripleRow7(i: nat)
    requires 112 <= i < 128
    ensures PTab(i + 1) == Mul3(PTab(i))
  {
    if i < 127 {
      NthTriples(i - 112, 254, 25, 43, 125, 135, 146, 173, 236, 47, 113, 147, 174, 233, 32, 96, 160);
    } else {
      assert Mul3(160) == 251 && PTab(128) == 251;
    }
  }

  lemma TripleRow8(i: nat)
    requires 128 <= i < 144
    ensures PTab(i + 1) == Mul3(PTab(i))
  {
    if i < 143 {
      NthTriples(i - 128, 251, 22, 58, 78, 210, 109, 183, 194, 93, 231, 50, 86, 250, 21, 63, 65);
    } else {
      assert Mul3(65) == 195 && PTab(144) == 195;
    }
  }

  lemma TripleRow9(i: nat)
    requires 144 <= i < 160
    ensures PTab(i + 1) == Mul3(PTab(i))
  {
    if i < 159 {
      NthTriples(i - 144, 195, 94, 226, 61, 71, 201, 64, 192, 91, 237, 44, 116, 156, 191, 218, 117);
    } else {
      assert Mul3(117) == 159 && PTab(160) == 159;
    }
  }

  lemma TripleRow10(i: nat)
    requires 160 <= i < 176
    ensures PTab(i + 1) == Mul3(PTab(i))
  {
    if i < 175 {
      NthTriples(i - 160, 159, 186, 213, 100, 172, 239, 42, 126, 130, 157, 188, 223, 122, 142, 137, 128);
    } else {
      assert Mul3(128) == 155 && PTab(176) == 155;
    }
  }

  lemma TripleRow11(i: nat)
    requires 176 <= i < 192
    ensures PTab(i + 1) == Mul3(PTab(i))
  {
    if i < 191 {
      NthTriples(i - 176, 155, 182, 193, 88, 232, 35, 101, 175, 234, 37, 111, 177, 200, 67, 197, 84);
    } else {
      assert Mul3(84) == 252 && PTab(192) == 252;
    }
  }

  lemma TripleRow12(i: nat)
    requires 192 <= i < 208
    ensures PTab(i + 1) == Mul3(PTab(i))
  {
    if i < 207 {
      NthTriples(i - 192, 252, 31, 33, 99, 165, 244, 7, 9, 27, 45, 119, 153, 176, 203, 70, 202);
    } else {
      assert Mul3(202) == 69 && PTab(208) == 69;
    }
  }

  lemma TripleRow13(i: nat)
    requires 208 <= i < 224
    ensures PTab(i + 1) == Mul3(PTab(i))
  {
    if i < 223 {
      NthTriples(i - 208, 69, 207, 74, 222, 121, 139, 134, 145, 168, 227, 62, 66, 198, 81, 243, 14);
    } else {
      assert Mul3(14) == 18 && PTab(224) == 18;
    }
  }

  lemma TripleRow14(i: nat)
    requires 224 <= i < 240
    ensures PTab(i + 1) == Mul3(PTab(i))
  {
    if i < 239 {
      NthTriples(i - 224, 18, 54, 90, 238, 41, 123, 141, 140, 143, 138, 133, 148, 167, 242, 13, 23);
    } else {
      assert Mul3(23) == 57 && PTab(240) == 57;
    }
  }

  lemma TripleRow15(i: nat)
    requires 240 <= i < 255
    ensures PTab(i + 1) == Mul3(PTab(i))
  {
    if i < 255 { NthTriples(i - 240, 57, 75, 221, 124, 132, 151, 162, 253, 28, 36, 108, 180, 199, 82, 246, 1); }
  }

  /** Logarithms of the sixteen bytes with high bits r: the one picked is that of x. */
  lemma PickLogs(x: Byte, r: Byte, l0: nat, l1: nat, l2: nat, l3: nat, l4: nat, l5: nat, l6: nat, l7: nat,
                 l8: nat, l9: nat, la: nat, lb: nat, lc: nat, ld: nat, le: nat, lf: nat)
    requires r < 16 && x >> 4 == r && x != 0 && (r == 0 || (l0 < 256 && PTab(l0) == r << 4))
    requires l1 < 256 && l2 < 256 && l3 < 256 && l4 < 256 && l5 < 256 && l6 < 256 && l7 < 256 && l8 < 256 && l9 < 256
        && la < 256 && lb < 256 && lc < 256 && ld < 256 && le < 256 && lf < 256
    requires PTab(l1) == (r << 4) | 1 && PTab(l2) == (r << 4) | 2 && PTab(l3) == (r << 4) | 3
        && PTab(l4) == (r << 4) | 4 && PTab(l5) == (r << 4) | 5
    requires PTab(l6) == (r << 4) | 6 && PTab(l7) == (r << 4) | 7 && PTab(l8) == (r << 4) | 8
        && PTab(l9) == (r << 4) | 9 && PTab(la) == (r << 4) | 10
    requires PTab(lb) == (r << 4) | 11 && PTab(lc) == (r << 4) | 12 && PTab(ld) == (r << 4) | 13
        && PTab(le) == (r << 4) | 14 && PTab(lf) == (r << 4) | 15
    ensures var l := PickNat(x, l0, l1, l2, l3, l4, l5, l6, l7, l8, l9, la, lb, lc, ld, le, lf); l < 256 && PTab(l) == x
  {
    hide PTab;
  }

  lemma Logs0Low()
    ensures PTab(255) == 1 && PTab(25) == 2 && PTab(1) == 3 && PTab(50) == 4 && PTab(2) == 5 && PTab(26) == 6
        && PTab(198) == 7
  {}

  lemma Logs0High()
    ensures PTab(75) == 8 && PTab(199) == 9 && PTab(27) == 10 && PTab(104) == 11 && PTab(51) == 12 && PTab(238) == 13
        && PTab(223) == 14 && PTab(3) == 15
  {}

  lemma LogRow0(x: Byte)
    requires x >> 4 == 0 && x != 0
    ensures LTab(x) < 256 && PTab(LTab(x)) == x
  {
    hide PTab, PickNat;
    Logs0Low();
    Logs0High();
    PickLogs(x, 0, 0, 255, 25, 1, 50, 2, 26, 198, 75, 199, 27, 104, 51, 238, 223, 3);
  }

  lemma Logs1Low()
    ensures PTab(100) == 16 && PTab(4) == 17 && PTab(224) == 18 && PTab(14) == 19 && PTab(52) == 20 && PTab(141) == 21
        && PTab(129) == 22 && PTab(239) == 23
  {}

  lemma Logs1High()
    ensures PTab(76) == 24 && PTab(113) == 25 && PTab(8) == 26 && PTab(200) == 27 && PTab(248) == 28
        && PTab(105) == 29 && PTab(28) == 30 && PTab(193) == 31
  {}

  lemma LogRow1(x: Byte)
    requires x >> 4 == 1 && x != 0
    ensures LTab(x) < 256 && PTab(LTab(x)) == x
  {
    hide PTab, PickNat;
    Logs1Low();
    Logs1High();
    PickLogs(x, 1, 100, 4, 224, 14, 52, 141, 129, 239, 76, 113, 8, 200, 248, 105, 28, 193);
  }

  lemma Logs2Low()
    ensures PTab(125) == 32 && PTab(194) == 33 && PTab(29) == 34 && PTab(181) == 35 && PTab(249) == 36
        && PTab(185) == 37 && PTab(39) == 38 && PTab(106) == 39
  {}

  lemma Logs2High()
    ensures PTab(77) == 40 && PTab(228) == 41 && PTab(166) == 42 && PTab(114) == 43 && PTab(154) == 44
        && PTab(201) == 45 && PTab(9) == 46 && PTab(120) == 47
  {}

  lemma LogRow2(x: Byte)
    requires x >> 4 == 2 && x != 0
    ensures LTab(x) < 256 && PTab(LTab(x)) == x
  {
    hide PTab, PickNat;
    Logs2Low();
    Logs2High();
    PickLogs(x, 2, 125, 194, 29, 181, 249, 185, 39, 106, 77, 228, 166, 114, 154, 201, 9, 120);
  }

  lemma Logs3Low()
    ensures PTab(101) == 48 && PTab(47) == 49 && PTab(138) == 50 && PTab(5) == 51 && PTab(33) == 52 && PTab(15) == 53
        && PTab(225) == 54 && PTab(36) == 55
  {}

  lemma Logs3High()
    ensures PTab(18) == 56 && PTab(240) == 57 && PTab(130) == 58 && PTab(69) == 59 && PTab(53) == 60
        && PTab(147) == 61 && PTab(218) == 62 && PTab(142) == 63
  {}

  lemma LogRow3(x: Byte)
    requires x >> 4 == 3 && x != 0
    ensures LTab(x) < 256 && PTab(LTab(x)) == x
  {
    hide PTab, PickNat;
    Logs3Low();
    Logs3High();
    PickLogs(x, 3, 101, 47, 138, 5, 33, 15, 225, 36, 18, 240, 130, 69, 53, 147, 218, 142);
  }

  lemma Logs4Low()
    ensures PTab(150) == 64 && PTab(143) == 65 && PTab(219) == 66 && PTab(189) == 67 && PTab(54) == 68
        && PTab(208) == 69 && PTab(206) == 70 && PTab(148) == 71
  {}

  lemma Logs4High()
    ensures PTab(19) == 72 && PTab(92) == 73 && PTab(210) == 74 && PTab(241) == 75 && PTab(64) == 76 && PTab(70) == 77
        && PTab(131) == 78 && PTab(56) == 79
  {}

  lemma LogRow4(x: Byte)
    requires x >> 4 == 4 && x != 0
    ensures LTab(x) < 256 && PTab(LTab(x)) == x
  {
    hide PTab, PickNat;
    Logs4Low();
    Logs4High();
    PickLogs(x, 4, 150, 143, 219, 189, 54, 208, 206, 148, 19, 92, 210, 241, 64, 70, 131, 56);
  }

  lemma Logs5Low()
    ensures PTab(102) == 80 && PTab(221) == 81 && PTab(253) == 82 && PTab(48) == 83 && PTab(191) == 84
        && PTab(6) == 85 && PTab(139) == 86 && PTab(98) == 87
  {}

  lemma Logs5High()
    ensures PTab(179) == 88 && PTab(37) == 89 && PTab(226) == 90 && PTab(152) == 91 && PTab(34) == 92
        && PTab(136) == 93 && PTab(145) == 94 && PTab(16) == 95
  {}

  lemma LogRow5(x: Byte)
    requires x >> 4 == 5 && x != 0
    ensures LTab(x) < 256 && PTab(LTab(x)) == x
  {
    hide PTab, PickNat;
    Logs5Low();
    Logs5High();
    PickLogs(x, 5, 102, 221, 253, 48, 191, 6, 139, 98, 179, 37, 226, 152, 34, 136, 145, 16);
  }

  lemma Logs6Low()
    ensures PTab(126) == 96 && PTab(110) == 97 && PTab(72) == 98 && PTab(195) == 99 && PTab(163) == 100
        && PTab(182) == 101 && PTab(30) == 102 && PTab(66) == 103
  {}

  lemma Logs6High()
    ensures PTab(58) == 104 && PTab(107) == 105 && PTab(40) == 106 && PTab(84) == 107 && PTab(250) == 108
        && PTab(133) == 109 && PTab(61) == 110 && PTab(186) == 111
  {}

  lemma LogRow6(x: Byte)
    requires x >> 4 == 6 && x != 0
    ensures LTab(x) < 256 && PTab(LTab(x)) == x
  {
    hide PTab, PickNat;
    Logs6Low();
    Logs6High();
    PickLogs(x, 6, 126, 110, 72, 195, 163, 182, 30, 66, 58, 107, 40, 84, 250, 133, 61, 186);
  }

  lemma Logs7Low()
    ensures PTab(43) == 112 && PTab(121) == 113 && PTab(10) == 114 && PTab(21) == 115 && PTab(155) == 116
        && PTab(159) == 117 && PTab(94) == 118 && PTab(202) == 119
  {}

  lemma Logs7High()
    ensures PTab(78) == 120 && PTab(212) == 121 && PTab(172) == 122 && PTab(229) == 123 && PTab(243) == 124
        && PTab(115) == 125 && PTab(167) == 126 && PTab(87) == 127
  {}

  lemma LogRow7(x: Byte)
    requires x >> 4 == 7 && x != 0
    ensures LTab(x) < 256 && PTab(LTab(x)) == x
  {
    hide PTab, PickNat;
    Logs7Low();
    Logs7High();
    PickLogs(x, 7, 43, 121, 10, 21, 155, 159, 94, 202, 78, 212, 172, 229, 243, 115, 167, 87);
  }

  lemma Logs8Low()
    ensures PTab(175) == 128 && PTab(88) == 129 && PTab(168) == 130 && PTab(80) == 131 && PTab(244) == 132
        && PTab(234) == 133 && PTab(214) == 134 && PTab(116) == 135
  {}

  lemma Logs8High()
    ensures PTab(79) == 136 && PTab(174) == 137 && PTab(233) == 138 && PTab(213) == 139 && PTab(231) == 140
        && PTab(230) == 141 && PTab(173) == 142 && PTab(232) == 143
  {}

  lemma LogRow8(x: Byte)
    requires x >> 4 == 8 && x != 0
    ensures LTab(x) < 256 && PTab(LTab(x)) == x
  {
    hide PTab, PickNat;
    Logs8Low();
    Logs8High();
    PickLogs(x, 8, 175, 88, 168, 80, 244, 234, 214, 116, 79, 174, 233, 213, 231, 230, 173, 232);
  }

  lemma Logs9Low()
    ensures PTab(44) == 144 && PTab(215) == 145 && PTab(117) == 146 && PTab(122) == 147 && PTab(235) == 148
        && PTab(22) == 149 && PTab(11) == 150 && PTab(245) == 151
  {}

  lemma Logs9High()
    ensures PTab(89) == 152 && PTab(203) == 153 && PTab(95) == 154 && PTab(176) == 155 && PTab(156) == 156
        && PTab(169) == 157 && PTab(81) == 158 && PTab(160) == 159
  {}

  lemma LogRow9(x: Byte)
    requires x >> 4 == 9 && x != 0
    ensures LTab(x) < 256 && PTab(LTab(x)) == x
  {
    hide PTab, PickNat;
    Logs9Low();
    Logs9High();
    PickLogs(x, 9, 44, 215, 117, 122, 235, 22, 11, 245, 89, 203, 95, 176, 156, 169, 81, 160);
  }

  lemma Logs10Low()
    ensures PTab(127) == 160 && PTab(12) == 161 && PTab(246) == 162 && PTab(111) == 163 && PTab(23) == 164
        && PTab(196) == 165 && PTab(73) == 166 && PTab(236) == 167
  {}

  lemma Logs10High()
    ensures PTab(216) == 168 && PTab(67) == 169 && PTab(31) == 170 && PTab(45) == 171 && PTab(164) == 172
        && PTab(118) == 173 && PTab(123) == 174 && PTab(183) == 175
  {}

  lemma LogRow10(x: Byte)
    requires x >> 4 == 10 && x != 0
    ensures LTab(x) < 256 && PTab(LTab(x)) == x
  {
    hide PTab, PickNat;
    Logs10Low();
    Logs10High();
    PickLogs(x, 10, 127, 12, 246, 111, 23, 196, 73, 236, 216, 67, 31, 45, 164, 118, 123, 183);
  }

  lemma Logs11Low()
    ensures PTab(204) == 176 && PTab(187) == 177 && PTab(62) == 178 && PTab(90) == 179 && PTab(251) == 180
        && PTab(96) == 181 && PTab(177) == 182 && PTab(134) == 183
  {}

  lemma Logs11High()
    ensures PTab(59) == 184 && PTab(82) == 185 && PTab(161) == 186 && PTab(108) == 187 && PTab(170) == 188
        && PTab(85) == 189 && PTab(41) == 190 && PTab(157) == 191
  {}

  lemma LogRow11(x: Byte)
    requires x >> 4 == 11 && x != 0
    ensures LTab(x) < 256 && PTab(LTab(x)) == x
  {
    hide PTab, PickNat;
    Logs11Low();
    Logs11High();
    PickLogs(x, 11, 204, 187, 62, 90, 251, 96, 177, 134, 59, 82, 161, 108, 170, 85, 41, 157);
  }

  lemma Logs12Low()
    ensures PTab(151) == 192 && PTab(178) == 193 && PTab(135) == 194 && PTab(144) == 195 && PTab(97) == 196
        && PTab(190) == 197 && PTab(220) == 198 && PTab(252) == 199
  {}

  lemma Logs12High()
    ensures PTab(188) == 200 && PTab(149) == 201 && PTab(207) == 202 && PTab(205) == 203 && PTab(55) == 204
        && PTab(63) == 205 && PTab(91) == 206 && PTab(209) == 207
  {}

  lemma LogRow12(x: Byte)
    requires x >> 4 == 12 && x != 0
    ensures LTab(x) < 256 && PTab(LTab(x)) == x
  {
    hide PTab, PickNat;
    Logs12Low();
    Logs12High();
    PickLogs(x, 12, 151, 178, 135, 144, 97, 190, 220, 252, 188, 149, 207, 205, 55, 63, 91, 209);
  }

  lemma Logs13Low()
    ensures PTab(83) == 208 && PTab(57) == 209 && PTab(132) == 210 && PTab(60) == 211 && PTab(65) == 212
        && PTab(162) == 213 && PTab(109) == 214 && PTab(71) == 215
  {}

  lemma Logs13High()
    ensures PTab(20) == 216 && PTab(42) == 217 && PTab(158) == 218 && PTab(93) == 219 && PTab(86) == 220
        && PTab(242) == 221 && PTab(211) == 222 && PTab(171) == 223
  {}

  lemma LogRow13(x: Byte)
    requires x >> 4 == 13 && x != 0
    ensures LTab(x) < 256 && PTab(LTab(x)) == x
  {
    hide PTab, PickNat;
    Logs13Low();
    Logs13High();
    PickLogs(x, 13, 83, 57, 132, 60, 65, 162, 109, 71, 20, 42, 158, 93, 86, 242, 211, 171);
  }

  lemma Logs14Low()
    ensures PTab(68) == 224 && PTab(17) == 225 && PTab(146) == 226 && PTab(217) == 227 && PTab(35) == 228
        && PTab(32) == 229 && PTab(46) == 230 && PTab(137) == 231
  {}

  lemma Logs14High()
    ensures PTab(180) == 232 && PTab(124) == 233 && PTab(184) == 234 && PTab(38) == 235 && PTab(119) == 236
        && PTab(153) == 237 && PTab(227) == 238 && PTab(165) == 239
  {}

  lemma LogRow14(x: Byte)
    requires x >> 4 == 14 && x != 0
    ensures LTab(x) < 256 && PTab(LTab(x)) == x
  {
    hide PTab, PickNat;
    Logs14Low();
    Logs14High();
    PickLogs(x, 14, 68, 17, 146, 217, 35, 32, 46, 137, 180, 124, 184, 38, 119, 153, 227, 165);
  }

  lemma Logs15Low()
    ensures PTab(103) == 240 && PTab(74) == 241 && PTab(237) == 242 && PTab(222) == 243 && PTab(197) == 244
        && PTab(49) == 245 && PTab(254) == 246 && PTab(24) == 247
  {}

  lemma Logs15High()
    ensures PTab(13) == 248 && PTab(99) == 249 && PTab(140) == 250 && PTab(128) == 251 && PTab(192) == 252
        && PTab(247) == 253 && PTab(112) == 254 && PTab(7) == 255
  {}

  lemma LogRow15(x: Byte)
    requires x >> 4 == 15 && x != 0
    ensures LTab(x) < 256 && PTab(LTab(x)) == x
  {
    hide PTab, PickNat;
    Logs15Low();
    Logs15High();
    PickLogs(x, 15, 103, 74, 237, 222, 197, 49, 254, 24, 13, 99, 140, 128, 192, 247, 112, 7);
  }

  /** ptab undoes ltab. */
  lemma PowerOfLog(x: Byte)
    requires x != 0
    ensures LTab(x) < 256 && PTab(LTab(x)) == x
  {
    hide PTab, LTab;
    var r := x >> 4;
    if r == 0 { LogRow0(x); }
    else if r == 1 { LogRow1(x); }
    else if r == 2 { LogRow2(x); }
    else if r == 3 { LogRow3(x); }
    else if r == 4 { LogRow4(x); }
    else if r == 5 { LogRow5(x); }
    else if r == 6 { LogRow6(x); }
    else if r == 7 { LogRow7(x); }
    else if r == 8 { LogRow8(x); }
    else if r == 9 { LogRow9(x); }
    else if r == 10 { LogRow10(x); }
    else if r == 11 { LogRow11(x); }
    else if r == 12 { LogRow12(x); }
    else if r == 13 { LogRow13(x); }
    else if r == 14 { LogRow14(x); }
    else { LogRow15(x); }
  }

  /** Each entry of ptab is three times the one before. */
  lemma NextPower(i: nat)
    requires i < 255
    ensures PTab(i + 1) == Mul3(PTab(i))
  {
    hide PTab, Mul3;
    if i < 16 { TripleRow0(i); }
    else if i < 32 { TripleRow1(i); }
    else if i < 48 { TripleRow2(i); }
    else if i < 64 { TripleRow3(i); }
    else if i < 80 { TripleRow4(i); }
    else if i < 96 { TripleRow5(i); }
    else if i < 112 { TripleRow6(i); }
    else if i < 128 { TripleRow7(i); }
    else if i < 144 { TripleRow8(i); }
    else if i < 160 { TripleRow9(i); }
    else if i < 176 { TripleRow10(i); }
    else if i < 192 { TripleRow11(i); }
    else if i < 208 { TripleRow12(i); }
    else if i < 224 { TripleRow13(i); }
    else if i < 240 { TripleRow14(i); }
    else { TripleRow15(i); }
  }

  /** The bits of a byte, the lowest first. */
  datatype Bits = End | Bit(on: bool, rest: Bits)

  function BitsOf(x: Byte): Bits {
    Bit(x & 1 != 0, Bit(x & 2 != 0, Bit(x & 4 != 0, Bit(x & 8 != 0,
      Bit(x & 16 != 0, Bit(x & 32 != 0, Bit(x & 64 != 0, Bit(x & 128 != 0, End))))))))
  }

  /** The sum of y, 2 y, 4 y and so on, over the bits that are set. */
  function Combine(bits: Bits, y: Byte): Byte {
    if bits == End then 0 else Add(Term(bits.on, y), Combine(bits.rest, Xtime(y)))
  }

  lemma CombineFour(b0: bool, b1: bool, b2: bool, b3: bool, rest: Bits, y: Byte)
    ensures var y1 := Xtime(y); var y2 := Xtime(y1); var y3 := Xtime(y2);
      Combine(Bit(b0, Bit(b1, Bit(b2, Bit(b3, rest)))), y) ==
        Add(Term(b0, y), Add(Term(b1, y1), Add(Term(b2, y2), Add(Term(b3, y3), Combine(rest, Xtime(y3))))))
  {
    hide Add, Xtime, Term;
    var y1 := Xtime(y);
    var y2 := Xtime(y1);
    var y3 := Xtime(y2);
    assert Combine(Bit(b3, rest), y3) == Add(Term(b3, y3), Combine(rest, Xtime(y3)));
    assert Combine(Bit(b2, Bit(b3, rest)), y2) == Add(Term(b2, y2), Combine(Bit(b3, rest), y3));
    assert Combine(Bit(b1, Bit(b2, Bit(b3, rest))), y1) == Add(Term(b1, y1), Combine(Bit(b2, Bit(b3, rest)), y2));
  }

  lemma CombineEnd(v: Byte, y: Byte)
    ensures Add(v, Combine(End, y)) == v
  {
    AddSelf(v);
  }

  lemma BmulCombines(x: Byte, y: Byte)
    ensures Bmul(x, y) == Combine(BitsOf(x), y)
  {
    hide Add, Xtime, Term, Combine;
    var y4 := Xtime(Xtime(Xtime(Xtime(y))));
    var y7 := Xtime(Xtime(Xtime(y4)));
    var upper := Bit(x & 16 != 0, Bit(x & 32 != 0, Bit(x & 64 != 0, Bit(x & 128 != 0, End))));
    CombineFour(x & 1 != 0, x & 2 != 0, x & 4 != 0, x & 8 != 0, upper, y);
    CombineFour(x & 16 != 0, x & 32 != 0, x & 64 != 0, x & 128 != 0, End, y4);
    CombineEnd(Term(x & 128 != 0, y7), Xtime(y7));
  }

  lemma TripleTerm(bit: bool, v: Byte)
    ensures Term(bit, Mul3(v)) == Add(Term(bit, v), Term(bit, Xtime(v)))
  {
    AddSelf(0);
  }

  /** Multiplication by 3 can be taken out of such a sum, and so can doubling. */
  lemma {:induction false} CombineTriple(bits: Bits, y: Byte)
    ensures Combine(bits, Xtime(y)) == Xtime(Combine(bits, y))
    ensures Combine(bits, Mul3(y)) == Mul3(Combine(bits, y))
  {
    hide Add, Xtime;
    var z := Xtime(y);
    if bits == End {
      XtimeZero();
      AddSelf(0);
    } else {
      var c := Combine(bits.rest, z);
      CombineTriple(bits.rest, z);
      XtimeTerm(bits.on, y);
      XtimeLinear(Term(bits.on, y), c);
      XtimeLinear(y, z);
      TripleTerm(bits.on, y);
      Regroup(Term(bits.on, y), Term(bits.on, z), c, Xtime(c));
    }
  }

  lemma XtimeZero()
    ensures Xtime(0) == 0
  {}

  lemma XtimeTerm(bit: bool, v: Byte)
    ensures Xtime(Term(bit, v)) == Term(bit, Xtime(v))
  {
    XtimeZero();
  }

  lemma TimesThree(x: Byte, y: Byte)
    ensures Bmul(x, Mul3(y)) == Mul3(Bmul(x, y))
  {
    hide Bmul, Mul3, Combine, BitsOf;
    BmulCombines(x, y);
    BmulCombines(x, Mul3(y));
    CombineTriple(BitsOf(x), y);
  }

  lemma TimesOne(x: Byte)
    ensures Bmul(x, 1) == x
  {}

  /** Powers of 3 are multiplied by adding exponents, which count modulo 255. */
  lemma {:induction false} PowersMultiply(i: nat, k: nat)
    requires i < 256 && k < 256
    ensures Bmul(PTab(i), PTab(k)) == PTab((i + k) % 255)
  {
    hide Bmul, Mul3, PTab;
    FirstAndLast();
    if k == 0 {
      TimesOne(PTab(i));
    } else {
      PowersMultiply(i, k - 1);
      NextPower(k - 1);
      TimesThree(PTab(i), PTab(k - 1));
      var n := (i + k - 1) % 255;
      NextPower(n);
      assert (i + k) % 255 == if n == 254 then 0 else n + 1;
    }
  }

  lemma FirstAndLast()
    ensures PTab(0) == 1 && PTab(255) == 1
  {}

  /** bmul, by the tables. */
  function TableMul(x: Byte, y: Byte): Byte {
    if x != 0 && y != 0 then PTab((LTab(x) + LTab(y)) % 255) else 0
  }

  lemma TimesZero(x: Byte)
    ensures Bmul(x, 0) == 0 && Bmul(0, x) == 0
  {}

  /** The tables multiply in GF(2^8). */
  lemma TableMulIsBmul(x: Byte, y: Byte)
    ensures TableMul(x, y) == Bmul(x, y)
  {
    hide Bmul, PTab, LTab;
    if x != 0 && y != 0 {
      PowerOfLog(x);
      PowerOfLog(y);
      PowersMultiply(LTab(x), LTab(y));
    } else {
      TimesZero(x);
      TimesZero(y);
    }
  }
}
