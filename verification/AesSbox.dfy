/** The AES byte substitution and its inverse, by table rows. */
module AesSbox {

  type Byte = bv8

  /** One of sixteen values, by the low four bits. */
  function Pick(i: Byte, v0: Byte, v1: Byte, v2: Byte, v3: Byte, v4: Byte, v5: Byte, v6: Byte, v7: Byte,
                v8: Byte, v9: Byte, va: Byte, vb: Byte, vc: Byte, vd: Byte, ve: Byte, vf: Byte): Byte
  {
    if i & 8 == 0 then
      if i & 4 == 0 then
        if i & 2 == 0 then (if i & 1 == 0 then v0 else v1) else (if i & 1 == 0 then v2 else v3)
      else
        if i & 2 == 0 then (if i & 1 == 0 then v4 else v5) else (if i & 1 == 0 then v6 else v7)
    else
      if i & 4 == 0 then
        if i & 2 == 0 then (if i & 1 == 0 then v8 else v9) else (if i & 1 == 0 then va else vb)
      else
        if i & 2 == 0 then (if i & 1 == 0 then vc else vd) else (if i & 1 == 0 then ve else vf)
  }

  /** fbsub. */
  function FbSub(x: Byte): Byte {
    Pick(x >> 4,
         Pick(x, 99, 124, 119, 123, 242, 107, 111, 197, 48, 1, 103, 43, 254, 215, 171, 118),
         Pick(x, 202, 130, 201, 125, 250, 89, 71, 240, 173, 212, 162, 175, 156, 164, 114, 192),
         Pick(x, 183, 253, 147, 38, 54, 63, 247, 204, 52, 165, 229, 241, 113, 216, 49, 21),
         Pick(x, 4, 199, 35, 195, 24, 150, 5, 154, 7, 18, 128, 226, 235, 39, 178, 117),
         Pick(x, 9, 131, 44, 26, 27, 110, 90, 160, 82, 59, 214, 179, 41, 227, 47, 132),
         Pick(x, 83, 209, 0, 237, 32, 252, 177, 91, 106, 203, 190, 57, 74, 76, 88, 207),
         Pick(x, 208, 239, 170, 251, 67, 77, 51, 133, 69, 249, 2, 127, 80, 60, 159, 168),
         Pick(x, 81, 163, 64, 143, 146, 157, 56, 245, 188, 182, 218, 33, 16, 255, 243, 210),
         Pick(x, 205, 12, 19, 236, 95, 151, 68, 23, 196, 167, 126, 61, 100, 93, 25, 115),
         Pick(x, 96, 129, 79, 220, 34, 42, 144, 136, 70, 238, 184, 20, 222, 94, 11, 219),
         Pick(x, 224, 50, 58, 10, 73, 6, 36, 92, 194, 211, 172, 98, 145, 149, 228, 121),
         Pick(x, 231, 200, 55, 109, 141, 213, 78, 169, 108, 86, 244, 234, 101, 122, 174, 8),
         Pick(x, 186, 120, 37, 46, 28, 166, 180, 198, 232, 221, 116, 31, 75, 189, 139, 138),
         Pick(x, 112, 62, 181, 102, 72, 3, 246, 14, 97, 53, 87, 185, 134, 193, 29, 158),
         Pick(x, 225, 248, 152, 17, 105, 217, 142, 148, 155, 30, 135, 233, 206, 85, 40, 223),
         Pick(x, 140, 161, 137, 13, 191, 230, 66, 104, 65, 153, 45, 15, 176, 84, 187, 22))
  }

  /** rbsub. */
  function RbSub(x: Byte): Byte {
    Pick(x >> 4,
         Pick(x, 82, 9, 106, 213, 48, 54, 165, 56, 191, 64, 163, 158, 129, 243, 215, 251),
         Pick(x, 124, 227, 57, 130, 155, 47, 255, 135, 52, 142, 67, 68, 196, 222, 233, 203),
         Pick(x, 84, 123, 148, 50, 166, 194, 35, 61, 238, 76, 149, 11, 66, 250, 195, 78),
         Pick(x, 8, 46, 161, 102, 40, 217, 36, 178, 118, 91, 162, 73, 109, 139, 209, 37),
         Pick(x, 114, 248, 246, 100, 134, 104, 152, 22, 212, 164, 92, 204, 93, 101, 182, 146),
         Pick(x, 108, 112, 72, 80, 253, 237, 185, 218, 94, 21, 70, 87, 167, 141, 157, 132),
         Pick(x, 144, 216, 171, 0, 140, 188, 211, 10, 247, 228, 88, 5, 184, 179, 69, 6),
         Pick(x, 208, 44, 30, 143, 202, 63, 15, 2, 193, 175, 189, 3, 1, 19, 138, 107),
         Pick(x, 58, 145, 17, 65, 79, 103, 220, 234, 151, 242, 207, 206, 240, 180, 230, 115),
         Pick(x, 150, 172, 116, 34, 231, 173, 53, 133, 226, 249, 55, 232, 28, 117, 223, 110),
         Pick(x, 71, 241, 26, 113, 29, 41, 197, 137, 111, 183, 98, 14, 170, 24, 190, 27),
         Pick(x, 252, 86, 62, 75, 198, 210, 121, 32, 154, 219, 192, 254, 120, 205, 90, 244),
         Pick(x, 31, 221, 168, 51, 136, 7, 199, 49, 177, 18, 16, 89, 39, 128, 236, 95),
         Pick(x, 96, 81, 127, 169, 25, 181, 74, 13, 45, 229, 122, 159, 147, 201, 156, 239),
         Pick(x, 160, 224, 59, 77, 174, 42, 245, 176, 200, 235, 187, 60, 131, 83, 153, 97),
         Pick(x, 23, 43, 4, 126, 186, 119, 214, 38, 225, 105, 20, 99, 85, 33, 12, 125))
  }

  lemma SubInverse0(x: Byte)
    requires x >> 5 == 0
    ensures RbSub(FbSub(x)) == x
  {}

  lemma SubInverse1(x: Byte)
    requires x >> 5 == 1
    ensures RbSub(FbSub(x)) == x
  {}

  lemma SubInverse2(x: Byte)
    requires x >> 5 == 2
    ensures RbSub(FbSub(x)) == x
  {}

  lemma SubInverse3(x: Byte)
    requires x >> 5 == 3
    ensures RbSub(FbSub(x)) == x
  {}

  lemma SubInverse4(x: Byte)
    requires x >> 5 == 4
    ensures RbSub(FbSub(x)) == x
  {}

  lemma SubInverse5(x: Byte)
    requires x >> 5 == 5
    ensures RbSub(FbSub(x)) == x
  {}

  lemma SubInverse6(x: Byte)
    requires x >> 5 == 6
    ensures RbSub(FbSub(x)) == x
  {}

  lemma SubInverse7(x: Byte)
    requires x >> 5 == 7
    ensures RbSub(FbSub(x)) == x
  {}

  /** rbsub undoes fbsub. */
  lemma SubInverse(x: Byte)
    ensures RbSub(FbSub(x)) == x
  {
    if x >> 5 == 0 { SubInverse0(x); }
    else if x >> 5 == 1 { SubInverse1(x); }
    else if x >> 5 == 2 { SubInverse2(x); }
    else if x >> 5 == 3 { SubInverse3(x); }
    else if x >> 5 == 4 { SubInverse4(x); }
    else if x >> 5 == 5 { SubInverse5(x); }
    else if x >> 5 == 6 { SubInverse6(x); }
    else { SubInverse7(x); }
  }
}
