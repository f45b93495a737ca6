/** The AES substitution box (section 5.1.1 of FIPS-197) and its inverse
  * (section 5.3.2 of FIPS-197), as lookups indexed by the high and the low
  * nibble of a byte, and the proof that the two tables are mutually inverse.
  */
module SBoxTables {
  /** Entry n (0 <= n < 16) of a row of sixteen bytes. */
  function Pick16(n: bv8, v0: bv8, v1: bv8, v2: bv8, v3: bv8, v4: bv8, v5: bv8, v6: bv8, v7: bv8,
                  v8: bv8, v9: bv8, va: bv8, vb: bv8, vc: bv8, vd: bv8, ve: bv8, vf: bv8): bv8
  {
    if n & 0x8 == 0 then
      if n & 0x4 == 0 then
        if n & 0x2 == 0 then (if n & 0x1 == 0 then v0 else v1) else (if n & 0x1 == 0 then v2 else v3)
      else
        if n & 0x2 == 0 then (if n & 0x1 == 0 then v4 else v5) else (if n & 0x1 == 0 then v6 else v7)
    else
      if n & 0x4 == 0 then
        if n & 0x2 == 0 then (if n & 0x1 == 0 then v8 else v9) else (if n & 0x1 == 0 then va else vb)
      else
        if n & 0x2 == 0 then (if n & 0x1 == 0 then vc else vd) else (if n & 0x1 == 0 then ve else vf)
  }

  /** The forward table: row x >> 4, column x & 0x0f. */
  function SubByte(x: bv8): bv8
  {
    var c := x & 0x0f;
    Pick16(x >> 4,
      Pick16(c, 0x63, 0x7c, 0x77, 0x7b, 0xf2, 0x6b, 0x6f, 0xc5, 0x30, 0x01, 0x67, 0x2b, 0xfe, 0xd7, 0xab, 0x76),
      Pick16(c, 0xca, 0x82, 0xc9, 0x7d, 0xfa, 0x59, 0x47, 0xf0, 0xad, 0xd4, 0xa2, 0xaf, 0x9c, 0xa4, 0x72, 0xc0),
      Pick16(c, 0xb7, 0xfd, 0x93, 0x26, 0x36, 0x3f, 0xf7, 0xcc, 0x34, 0xa5, 0xe5, 0xf1, 0x71, 0xd8, 0x31, 0x15),
      Pick16(c, 0x04, 0xc7, 0x23, 0xc3, 0x18, 0x96, 0x05, 0x9a, 0x07, 0x12, 0x80, 0xe2, 0xeb, 0x27, 0xb2, 0x75),
      Pick16(c, 0x09, 0x83, 0x2c, 0x1a, 0x1b, 0x6e, 0x5a, 0xa0, 0x52, 0x3b, 0xd6, 0xb3, 0x29, 0xe3, 0x2f, 0x84),
      Pick16(c, 0x53, 0xd1, 0x00, 0xed, 0x20, 0xfc, 0xb1, 0x5b, 0x6a, 0xcb, 0xbe, 0x39, 0x4a, 0x4c, 0x58, 0xcf),
      Pick16(c, 0xd0, 0xef, 0xaa, 0xfb, 0x43, 0x4d, 0x33, 0x85, 0x45, 0xf9, 0x02, 0x7f, 0x50, 0x3c, 0x9f, 0xa8),
      Pick16(c, 0x51, 0xa3, 0x40, 0x8f, 0x92, 0x9d, 0x38, 0xf5, 0xbc, 0xb6, 0xda, 0x21, 0x10, 0xff, 0xf3, 0xd2),
      Pick16(c, 0xcd, 0x0c, 0x13, 0xec, 0x5f, 0x97, 0x44, 0x17, 0xc4, 0xa7, 0x7e, 0x3d, 0x64, 0x5d, 0x19, 0x73),
      Pick16(c, 0x60, 0x81, 0x4f, 0xdc, 0x22, 0x2a, 0x90, 0x88, 0x46, 0xee, 0xb8, 0x14, 0xde, 0x5e, 0x0b, 0xdb),
      Pick16(c, 0xe0, 0x32, 0x3a, 0x0a, 0x49, 0x06, 0x24, 0x5c, 0xc2, 0xd3, 0xac, 0x62, 0x91, 0x95, 0xe4, 0x79),
      Pick16(c, 0xe7, 0xc8, 0x37, 0x6d, 0x8d, 0xd5, 0x4e, 0xa9, 0x6c, 0x56, 0xf4, 0xea, 0x65, 0x7a, 0xae, 0x08),
      Pick16(c, 0xba, 0x78, 0x25, 0x2e, 0x1c, 0xa6, 0xb4, 0xc6, 0xe8, 0xdd, 0x74, 0x1f, 0x4b, 0xbd, 0x8b, 0x8a),
      Pick16(c, 0x70, 0x3e, 0xb5, 0x66, 0x48, 0x03, 0xf6, 0x0e, 0x61, 0x35, 0x57, 0xb9, 0x86, 0xc1, 0x1d, 0x9e),
      Pick16(c, 0xe1, 0xf8, 0x98, 0x11, 0x69, 0xd9, 0x8e, 0x94, 0x9b, 0x1e, 0x87, 0xe9, 0xce, 0x55, 0x28, 0xdf),
      Pick16(c, 0x8c, 0xa1, 0x89, 0x0d, 0xbf, 0xe6, 0x42, 0x68, 0x41, 0x99, 0x2d, 0x0f, 0xb0, 0x54, 0xbb, 0x16))
  }

  /** The inverse table. */
  function InvSubByte(x: bv8): bv8
  {
    var c := x & 0x0f;
    Pick16(x >> 4,
      Pick16(c, 0x52, 0x09, 0x6a, 0xd5, 0x30, 0x36, 0xa5, 0x38, 0xbf, 0x40, 0xa3, 0x9e, 0x81, 0xf3, 0xd7, 0xfb),
      Pick16(c, 0x7c, 0xe3, 0x39, 0x82, 0x9b, 0x2f, 0xff, 0x87, 0x34, 0x8e, 0x43, 0x44, 0xc4, 0xde, 0xe9, 0xcb),
      Pick16(c, 0x54, 0x7b, 0x94, 0x32, 0xa6, 0xc2, 0x23, 0x3d, 0xee, 0x4c, 0x95, 0x0b, 0x42, 0xfa, 0xc3, 0x4e),
      Pick16(c, 0x08, 0x2e, 0xa1, 0x66, 0x28, 0xd9, 0x24, 0xb2, 0x76, 0x5b, 0xa2, 0x49, 0x6d, 0x8b, 0xd1, 0x25),
      Pick16(c, 0x72, 0xf8, 0xf6, 0x64, 0x86, 0x68, 0x98, 0x16, 0xd4, 0xa4, 0x5c, 0xcc, 0x5d, 0x65, 0xb6, 0x92),
      Pick16(c, 0x6c, 0x70, 0x48, 0x50, 0xfd, 0xed, 0xb9, 0xda, 0x5e, 0x15, 0x46, 0x57, 0xa7, 0x8d, 0x9d, 0x84),
      Pick16(c, 0x90, 0xd8, 0xab, 0x00, 0x8c, 0xbc, 0xd3, 0x0a, 0xf7, 0xe4, 0x58, 0x05, 0xb8, 0xb3, 0x45, 0x06),
      Pick16(c, 0xd0, 0x2c, 0x1e, 0x8f, 0xca, 0x3f, 0x0f, 0x02, 0xc1, 0xaf, 0xbd, 0x03, 0x01, 0x13, 0x8a, 0x6b),
      Pick16(c, 0x3a, 0x91, 0x11, 0x41, 0x4f, 0x67, 0xdc, 0xea, 0x97, 0xf2, 0xcf, 0xce, 0xf0, 0xb4, 0xe6, 0x73),
      Pick16(c, 0x96, 0xac, 0x74, 0x22, 0xe7, 0xad, 0x35, 0x85, 0xe2, 0xf9, 0x37, 0xe8, 0x1c, 0x75, 0xdf, 0x6e),
      Pick16(c, 0x47, 0xf1, 0x1a, 0x71, 0x1d, 0x29, 0xc5, 0x89, 0x6f, 0xb7, 0x62, 0x0e, 0xaa, 0x18, 0xbe, 0x1b),
      Pick16(c, 0xfc, 0x56, 0x3e, 0x4b, 0xc6, 0xd2, 0x79, 0x20, 0x9a, 0xdb, 0xc0, 0xfe, 0x78, 0xcd, 0x5a, 0xf4),
      Pick16(c, 0x1f, 0xdd, 0xa8, 0x33, 0x88, 0x07, 0xc7, 0x31, 0xb1, 0x12, 0x10, 0x59, 0x27, 0x80, 0xec, 0x5f),
      Pick16(c, 0x60, 0x51, 0x7f, 0xa9, 0x19, 0xb5, 0x4a, 0x0d, 0x2d, 0xe5, 0x7a, 0x9f, 0x93, 0xc9, 0x9c, 0xef),
      Pick16(c, 0xa0, 0xe0, 0x3b, 0x4d, 0xae, 0x2a, 0xf5, 0xb0, 0xc8, 0xeb, 0xbb, 0x3c, 0x83, 0x53, 0x99, 0x61),
      Pick16(c, 0x17, 0x2b, 0x04, 0x7e, 0xba, 0x77, 0xd6, 0x26, 0xe1, 0x69, 0x14, 0x63, 0x55, 0x21, 0x0c, 0x7d))
  }

  // The inverse property, checked on one block of eight bytes at a time.
  lemma InvSubByteBlock0(x: bv8)
    requires x >> 3 == 0
    ensures InvSubByte(SubByte(x)) == x
  {}

  lemma SubByteBlock0(x: bv8)
    requires x >> 3 == 0
    ensures SubByte(InvSubByte(x)) == x
  {}

  lemma InvSubByteBlock1(x: bv8)
    requires x >> 3 == 1
    ensures InvSubByte(SubByte(x)) == x
  {}

  lemma SubByteBlock1(x: bv8)
    requires x >> 3 == 1
    ensures SubByte(InvSubByte(x)) == x
  {}

  lemma InvSubByteBlock2(x: bv8)
    requires x >> 3 == 2
    ensures InvSubByte(SubByte(x)) == x
  {}

  lemma SubByteBlock2(x: bv8)
    requires x >> 3 == 2
    ensures SubByte(InvSubByte(x)) == x
  {}

  lemma InvSubByteBlock3(x: bv8)
    requires x >> 3 == 3
    ensures InvSubByte(SubByte(x)) == x
  {}

  lemma SubByteBlock3(x: bv8)
    requires x >> 3 == 3
    ensures SubByte(InvSubByte(x)) == x
  {}

  lemma InvSubByteBlock4(x: bv8)
    requires x >> 3 == 4
    ensures InvSubByte(SubByte(x)) == x
  {}

  lemma SubByteBlock4(x: bv8)
    requires x >> 3 == 4
    ensures SubByte(InvSubByte(x)) == x
  {}

  lemma InvSubByteBlock5(x: bv8)
    requires x >> 3 == 5
    ensures InvSubByte(SubByte(x)) == x
  {}

  lemma SubByteBlock5(x: bv8)
    requires x >> 3 == 5
    ensures SubByte(InvSubByte(x)) == x
  {}

  lemma InvSubByteBlock6(x: bv8)
    requires x >> 3 == 6
    ensures InvSubByte(SubByte(x)) == x
  {}

  lemma SubByteBlock6(x: bv8)
    requires x >> 3 == 6
    ensures SubByte(InvSubByte(x)) == x
  {}

  lemma InvSubByteBlock7(x: bv8)
    requires x >> 3 == 7
    ensures InvSubByte(SubByte(x)) == x
  {}

  lemma SubByteBlock7(x: bv8)
    requires x >> 3 == 7
    ensures SubByte(InvSubByte(x)) == x
  {}

  lemma InvSubByteBlock8(x: bv8)
    requires x >> 3 == 8
    ensures InvSubByte(SubByte(x)) == x
  {}

  lemma SubByteBlock8(x: bv8)
    requires x >> 3 == 8
    ensures SubByte(InvSubByte(x)) == x
  {}

  lemma InvSubByteBlock9(x: bv8)
    requires x >> 3 == 9
    ensures InvSubByte(SubByte(x)) == x
  {}

  lemma SubByteBlock9(x: bv8)
    requires x >> 3 == 9
    ensures SubByte(InvSubByte(x)) == x
  {}

  lemma InvSubByteBlock10(x: bv8)
    requires x >> 3 == 10
    ensures InvSubByte(SubByte(x)) == x
  {}

  lemma SubByteBlock10(x: bv8)
    requires x >> 3 == 10
    ensures SubByte(InvSubByte(x)) == x
  {}

  lemma InvSubByteBlock11(x: bv8)
    requires x >> 3 == 11
    ensures InvSubByte(SubByte(x)) == x
  {}

  lemma SubByteBlock11(x: bv8)
    requires x >> 3 == 11
    ensures SubByte(InvSubByte(x)) == x
  {}

  lemma InvSubByteBlock12(x: bv8)
    requires x >> 3 == 12
    ensures InvSubByte(SubByte(x)) == x
  {}

  lemma SubByteBlock12(x: bv8)
    requires x >> 3 == 12
    ensures SubByte(InvSubByte(x)) == x
  {}

  lemma InvSubByteBlock13(x: bv8)
    requires x >> 3 == 13
    ensures InvSubByte(SubByte(x)) == x
  {}

  lemma SubByteBlock13(x: bv8)
    requires x >> 3 == 13
    ensures SubByte(InvSubByte(x)) == x
  {}

  lemma InvSubByteBlock14(x: bv8)
    requires x >> 3 == 14
    ensures InvSubByte(SubByte(x)) == x
  {}

  lemma SubByteBlock14(x: bv8)
    requires x >> 3 == 14
    ensures SubByte(InvSubByte(x)) == x
  {}

  lemma InvSubByteBlock15(x: bv8)
    requires x >> 3 == 15
    ensures InvSubByte(SubByte(x)) == x
  {}

  lemma SubByteBlock15(x: bv8)
    requires x >> 3 == 15
    ensures SubByte(InvSubByte(x)) == x
  {}

  lemma InvSubByteBlock16(x: bv8)
    requires x >> 3 == 16
    ensures InvSubByte(SubByte(x)) == x
  {}

  lemma SubByteBlock16(x: bv8)
    requires x >> 3 == 16
    ensures SubByte(InvSubByte(x)) == x
  {}

  lemma InvSubByteBlock17(x: bv8)
    requires x >> 3 == 17
    ensures InvSubByte(SubByte(x)) == x
  {}

  lemma SubByteBlock17(x: bv8)
    requires x >> 3 == 17
    ensures SubByte(InvSubByte(x)) == x
  {}

  lemma InvSubByteBlock18(x: bv8)
    requires x >> 3 == 18
    ensures InvSubByte(SubByte(x)) == x
  {}

  lemma SubByteBlock18(x: bv8)
    requires x >> 3 == 18
    ensures SubByte(InvSubByte(x)) == x
  {}

  lemma InvSubByteBlock19(x: bv8)
    requires x >> 3 == 19
    ensures InvSubByte(SubByte(x)) == x
  {}

  lemma SubByteBlock19(x: bv8)
    requires x >> 3 == 19
    ensures SubByte(InvSubByte(x)) == x
  {}

  lemma InvSubByteBlock20(x: bv8)
    requires x >> 3 == 20
    ensures InvSubByte(SubByte(x)) == x
  {}

  lemma SubByteBlock20(x: bv8)
    requires x >> 3 == 20
    ensures SubByte(InvSubByte(x)) == x
  {}

  lemma InvSubByteBlock21(x: bv8)
    requires x >> 3 == 21
    ensures InvSubByte(SubByte(x)) == x
  {}

  lemma SubByteBlock21(x: bv8)
    requires x >> 3 == 21
    ensures SubByte(InvSubByte(x)) == x
  {}

  lemma InvSubByteBlock22(x: bv8)
    requires x >> 3 == 22
    ensures InvSubByte(SubByte(x)) == x
  {}

  lemma SubByteBlock22(x: bv8)
    requires x >> 3 == 22
    ensures SubByte(InvSubByte(x)) == x
  {}

  lemma InvSubByteBlock23(x: bv8)
    requires x >> 3 == 23
    ensures InvSubByte(SubByte(x)) == x
  {}

  lemma SubByteBlock23(x: bv8)
    requires x >> 3 == 23
    ensures SubByte(InvSubByte(x)) == x
  {}

  lemma InvSubByteBlock24(x: bv8)
    requires x >> 3 == 24
    ensures InvSubByte(SubByte(x)) == x
  {}

  lemma SubByteBlock24(x: bv8)
    requires x >> 3 == 24
    ensures SubByte(InvSubByte(x)) == x
  {}

  lemma InvSubByteBlock25(x: bv8)
    requires x >> 3 == 25
    ensures InvSubByte(SubByte(x)) == x
  {}

  lemma SubByteBlock25(x: bv8)
    requires x >> 3 == 25
    ensures SubByte(InvSubByte(x)) == x
  {}

  lemma InvSubByteBlock26(x: bv8)
    requires x >> 3 == 26
    ensures InvSubByte(SubByte(x)) == x
  {}

  lemma SubByteBlock26(x: bv8)
    requires x >> 3 == 26
    ensures SubByte(InvSubByte(x)) == x
  {}

  lemma InvSubByteBlock27(x: bv8)
    requires x >> 3 == 27
    ensures InvSubByte(SubByte(x)) == x
  {}

  lemma SubByteBlock27(x: bv8)
    requires x >> 3 == 27
    ensures SubByte(InvSubByte(x)) == x
  {}

  lemma InvSubByteBlock28(x: bv8)
    requires x >> 3 == 28
    ensures InvSubByte(SubByte(x)) == x
  {}

  lemma SubByteBlock28(x: bv8)
    requires x >> 3 == 28
    ensures SubByte(InvSubByte(x)) == x
  {}

  lemma InvSubByteBlock29(x: bv8)
    requires x >> 3 == 29
    ensures InvSubByte(SubByte(x)) == x
  {}

  lemma SubByteBlock29(x: bv8)
    requires x >> 3 == 29
    ensures SubByte(InvSubByte(x)) == x
  {}

  lemma InvSubByteBlock30(x: bv8)
    requires x >> 3 == 30
    ensures InvSubByte(SubByte(x)) == x
  {}

  lemma SubByteBlock30(x: bv8)
    requires x >> 3 == 30
    ensures SubByte(InvSubByte(x)) == x
  {}

  lemma InvSubByteBlock31(x: bv8)
    requires x >> 3 == 31
    ensures InvSubByte(SubByte(x)) == x
  {}

  lemma SubByteBlock31(x: bv8)
    requires x >> 3 == 31
    ensures SubByte(InvSubByte(x)) == x
  {}

  /** InvSubByte undoes SubByte on every byte. */
  lemma InvSubByteOfSubByte(x: bv8)
    ensures InvSubByte(SubByte(x)) == x
  {
    var k := x >> 3;
    if k == 0 { InvSubByteBlock0(x); }
    else if k == 1 { InvSubByteBlock1(x); }
    else if k == 2 { InvSubByteBlock2(x); }
    else if k == 3 { InvSubByteBlock3(x); }
    else if k == 4 { InvSubByteBlock4(x); }
    else if k == 5 { InvSubByteBlock5(x); }
    else if k == 6 { InvSubByteBlock6(x); }
    else if k == 7 { InvSubByteBlock7(x); }
    else if k == 8 { InvSubByteBlock8(x); }
    else if k == 9 { InvSubByteBlock9(x); }
    else if k == 10 { InvSubByteBlock10(x); }
    else if k == 11 { InvSubByteBlock11(x); }
    else if k == 12 { InvSubByteBlock12(x); }
    else if k == 13 { InvSubByteBlock13(x); }
    else if k == 14 { InvSubByteBlock14(x); }
    else if k == 15 { InvSubByteBlock15(x); }
    else if k == 16 { InvSubByteBlock16(x); }
    else if k == 17 { InvSubByteBlock17(x); }
    else if k == 18 { InvSubByteBlock18(x); }
    else if k == 19 { InvSubByteBlock19(x); }
    else if k == 20 { InvSubByteBlock20(x); }
    else if k == 21 { InvSubByteBlock21(x); }
    else if k == 22 { InvSubByteBlock22(x); }
    else if k == 23 { InvSubByteBlock23(x); }
    else if k == 24 { InvSubByteBlock24(x); }
    else if k == 25 { InvSubByteBlock25(x); }
    else if k == 26 { InvSubByteBlock26(x); }
    else if k == 27 { InvSubByteBlock27(x); }
    else if k == 28 { InvSubByteBlock28(x); }
    else if k == 29 { InvSubByteBlock29(x); }
    else if k == 30 { InvSubByteBlock30(x); }
    else { InvSubByteBlock31(x); }
  }

  /** SubByte undoes InvSubByte on every byte. */
  lemma SubByteOfInvSubByte(x: bv8)
    ensures SubByte(InvSubByte(x)) == x
  {
    var k := x >> 3;
    if k == 0 { SubByteBlock0(x); }
    else if k == 1 { SubByteBlock1(x); }
    else if k == 2 { SubByteBlock2(x); }
    else if k == 3 { SubByteBlock3(x); }
    else if k == 4 { SubByteBlock4(x); }
    else if k == 5 { SubByteBlock5(x); }
    else if k == 6 { SubByteBlock6(x); }
    else if k == 7 { SubByteBlock7(x); }
    else if k == 8 { SubByteBlock8(x); }
    else if k == 9 { SubByteBlock9(x); }
    else if k == 10 { SubByteBlock10(x); }
    else if k == 11 { SubByteBlock11(x); }
    else if k == 12 { SubByteBlock12(x); }
    else if k == 13 { SubByteBlock13(x); }
    else if k == 14 { SubByteBlock14(x); }
    else if k == 15 { SubByteBlock15(x); }
    else if k == 16 { SubByteBlock16(x); }
    else if k == 17 { SubByteBlock17(x); }
    else if k == 18 { SubByteBlock18(x); }
    else if k == 19 { SubByteBlock19(x); }
    else if k == 20 { SubByteBlock20(x); }
    else if k == 21 { SubByteBlock21(x); }
    else if k == 22 { SubByteBlock22(x); }
    else if k == 23 { SubByteBlock23(x); }
    else if k == 24 { SubByteBlock24(x); }
    else if k == 25 { SubByteBlock25(x); }
    else if k == 26 { SubByteBlock26(x); }
    else if k == 27 { SubByteBlock27(x); }
    else if k == 28 { SubByteBlock28(x); }
    else if k == 29 { SubByteBlock29(x); }
    else if k == 30 { SubByteBlock30(x); }
    else { SubByteBlock31(x); }
  }
}
