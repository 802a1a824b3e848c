/** Where the AES byte substitution comes from: inversion in GF(2^8) and an affine map (section 5.1.1 of FIPS 197). */
module AesAffine {
  import opened AesSbox
  import opened Aes

  /** The inverse of a byte, 0 for 0. */
  function Inverse(x: Byte): Byte {
    Pick(x >> 4,
         Pick(x, 0, 1, 141, 246, 203, 82, 123, 209, 232, 79, 41, 192, 176, 225, 229, 199),
         Pick(x, 116, 180, 170, 75, 153, 43, 96, 95, 88, 63, 253, 204, 255, 64, 238, 178),
         Pick(x, 58, 110, 90, 241, 85, 77, 168, 201, 193, 10, 152, 21, 48, 68, 162, 194),
         Pick(x, 44, 69, 146, 108, 243, 57, 102, 66, 242, 53, 32, 111, 119, 187, 89, 25),
         Pick(x, 29, 254, 55, 103, 45, 49, 245, 105, 167, 100, 171, 19, 84, 37, 233, 9),
         Pick(x, 237, 92, 5, 202, 76, 36, 135, 191, 24, 62, 34, 240, 81, 236, 97, 23),
         Pick(x, 22, 94, 175, 211, 73, 166, 54, 67, 244, 71, 145, 223, 51, 147, 33, 59),
         Pick(x, 121, 183, 151, 133, 16, 181, 186, 60, 182, 112, 208, 6, 161, 250, 129, 130),
         Pick(x, 131, 126, 127, 128, 150, 115, 190, 86, 155, 158, 149, 217, 247, 2, 185, 164),
         Pick(x, 222, 106, 50, 109, 216, 138, 132, 114, 42, 20, 159, 136, 249, 220, 137, 154),
         Pick(x, 251, 124, 46, 195, 143, 184, 101, 72, 38, 200, 18, 74, 206, 231, 210, 98),
         Pick(x, 12, 224, 31, 239, 17, 117, 120, 113, 165, 142, 118, 61, 189, 188, 134, 87),
         Pick(x, 11, 40, 47, 163, 218, 212, 228, 15, 169, 39, 83, 4, 27, 252, 172, 230),
         Pick(x, 122, 7, 174, 99, 197, 219, 226, 234, 148, 139, 196, 213, 157, 248, 144, 107),
         Pick(x, 177, 13, 214, 235, 198, 14, 207, 173, 8, 78, 215, 227, 93, 80, 30, 179),
         Pick(x, 91, 35, 56, 52, 104, 70, 3, 140, 221, 156, 125, 160, 205, 26, 65, 28))
  }

  function Rotated(y: Byte, n: nat): Byte
    requires n < 8
  {
    (y << n) | (y >> (8 - n))
  }

  /** The affine map: a byte, its rotations by 1, 2, 3 and 4, and 63 in hexadecimal, added. */
  function Affine(y: Byte): Byte {
    y ^ Rotated(y, 1) ^ Rotated(y, 2) ^ Rotated(y, 3) ^ Rotated(y, 4) ^ 0x63
  }

  lemma Inverse0(x: Byte)
    requires x >> 5 == 0 && x != 0
    ensures Bmul(x, Inverse(x)) == 1
  {}

  lemma Affine0(x: Byte)
    requires x >> 5 == 0
    ensures FbSub(x) == Affine(Inverse(x))
  {}

  lemma Inverse1(x: Byte)
    requires x >> 5 == 1 && x != 0
    ensures Bmul(x, Inverse(x)) == 1
  {}

  lemma Affine1(x: Byte)
    requires x >> 5 == 1
    ensures FbSub(x) == Affine(Inverse(x))
  {}

  lemma Inverse2(x: Byte)
    requires x >> 5 == 2 && x != 0
    ensures Bmul(x, Inverse(x)) == 1
  {}

  lemma Affine2(x: Byte)
    requires x >> 5 == 2
    ensures FbSub(x) == Affine(Inverse(x))
  {}

  lemma Inverse3(x: Byte)
    requires x >> 5 == 3 && x != 0
    ensures Bmul(x, Inverse(x)) == 1
  {}

  lemma Affine3(x: Byte)
    requires x >> 5 == 3
    ensures FbSub(x) == Affine(Inverse(x))
  {}

  lemma Inverse4(x: Byte)
    requires x >> 5 == 4 && x != 0
    ensures Bmul(x, Inverse(x)) == 1
  {}

  lemma Affine4(x: Byte)
    requires x >> 5 == 4
    ensures FbSub(x) == Affine(Inverse(x))
  {}

  lemma Inverse5(x: Byte)
    requires x >> 5 == 5 && x != 0
    ensures Bmul(x, Inverse(x)) == 1
  {}

  lemma Affine5(x: Byte)
    requires x >> 5 == 5
    ensures FbSub(x) == Affine(Inverse(x))
  {}

  lemma Inverse6(x: Byte)
    requires x >> 5 == 6 && x != 0
    ensures Bmul(x, Inverse(x)) == 1
  {}

  lemma Affine6(x: Byte)
    requires x >> 5 == 6
    ensures FbSub(x) == Affine(Inverse(x))
  {}

  lemma Inverse7(x: Byte)
    requires x >> 5 == 7 && x != 0
    ensures Bmul(x, Inverse(x)) == 1
  {}

  lemma Affine7(x: Byte)
    requires x >> 5 == 7
    ensures FbSub(x) == Affine(Inverse(x))
  {}

  /** fbsub is the affine image of the inverse. */
  lemma SubIsAffine(x: Byte)
    ensures x != 0 ==> Bmul(x, Inverse(x)) == 1
    ensures FbSub(x) == Affine(Inverse(x)) && Inverse(0) == 0
  {
    hide Affine, Bmul, FbSub, Inverse;
    InverseOfZero();
    if x >> 5 == 0 { Affine0(x); if x != 0 { Inverse0(x); } }
    else if x >> 5 == 1 { Affine1(x); if x != 0 { Inverse1(x); } }
    else if x >> 5 == 2 { Affine2(x); if x != 0 { Inverse2(x); } }
    else if x >> 5 == 3 { Affine3(x); if x != 0 { Inverse3(x); } }
    else if x >> 5 == 4 { Affine4(x); if x != 0 { Inverse4(x); } }
    else if x >> 5 == 5 { Affine5(x); if x != 0 { Inverse5(x); } }
    else if x >> 5 == 6 { Affine6(x); if x != 0 { Inverse6(x); } }
    else { Affine7(x); Inverse7(x); }
  }

  lemma InverseOfZero()
    ensures Inverse(0) == 0
  {}
}
