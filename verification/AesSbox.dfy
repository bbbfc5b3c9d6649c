/** The S-box is what FIPS 197 section 5.1.1 says: the inverse in GF(2^8), transformed. */
module AesSbox {
  import opened AesTables
  import opened AesField

  /** All of x or nothing. */
  function Part(x: bv8, bit: bv8): bv8 {
    if bit != 0 then x else 0
  }

  /** The product in GF(2^8): the doublings of x that b selects (section 4.2.1). */
  function Times(x: bv8, b: bv8): bv8 {
    var x1 := Xtime(x);
    var x2 := Xtime(x1);
    var x3 := Xtime(x2);
    var x4 := Xtime(x3);
    var x5 := Xtime(x4);
    var x6 := Xtime(x5);
    var x7 := Xtime(x6);
    Part(x, b & 1) ^ Part(x1, b & 2) ^ Part(x2, b & 4) ^ Part(x3, b & 8)
    ^ Part(x4, b & 16) ^ Part(x5, b & 32) ^ Part(x6, b & 64) ^ Part(x7, b & 128)
  }

  /** The affine transformation: each bit of the result is a sum of five bits, plus a constant. */
  function Affine(b: bv8): bv8 {
    b ^ ((b << 1) | (b >> 7)) ^ ((b << 2) | (b >> 6)) ^ ((b << 3) | (b >> 5)) ^ ((b << 4) | (b >> 4)) ^ 0x63
  }

  /** Entry s belongs to x: it is the transformed inverse b of x. */
  predicate Entry(x: bv8, s: bv8, b: bv8) {
    s == Affine(b) && Times(x, b) == 1
  }

  /** The S-box takes the inverse in the field, with zero for zero, and transforms it. */
  lemma SubByteIsInverse(x: bv8)
    ensures x == 0 ==> SubByte(x) == Affine(0)
    ensures x != 0 ==> exists b :: Entry(x, SubByte(x), b)
  {
    hide Entry, SubByte, Affine;
    ZeroEntry();
    if x != 0 {
      InverseIn(x);
    }
  }

  lemma ZeroEntry()
    ensures SubByte(0) == Affine(0)
  {
  }

  lemma InverseIn(x: bv8)
    requires x != 0
    ensures exists b :: Entry(x, SubByte(x), b)
  {
    hide Entry, SubByte;
    var row := x >> 4;
    if row == 0 {
      Inverse0(x);
    } else if row == 1 {
      Inverse1(x);
    } else if row == 2 {
      Inverse2(x);
    } else if row == 3 {
      Inverse3(x);
    } else if row == 4 {
      Inverse4(x);
    } else if row == 5 {
      Inverse5(x);
    } else if row == 6 {
      Inverse6(x);
    } else if row == 7 {
      Inverse7(x);
    } else if row == 8 {
      Inverse8(x);
    } else if row == 9 {
      Inverse9(x);
    } else if row == 10 {
      InverseA(x);
    } else if row == 11 {
      InverseB(x);
    } else if row == 12 {
      InverseC(x);
    } else if row == 13 {
      InverseD(x);
    } else if row == 14 {
      InverseE(x);
    } else if row == 15 {
      InverseF(x);
    } else {
      RowBelow(x);
    }
  }

  lemma RowBelow(x: bv8)
    ensures x >> 4 < 16
  {
  }

  lemma PickIs(n: bv8, v0: bv8, v1: bv8, v2: bv8, v3: bv8, v4: bv8, v5: bv8, v6: bv8, v7: bv8,
               v8: bv8, v9: bv8, v10: bv8, v11: bv8, v12: bv8, v13: bv8, v14: bv8, v15: bv8)
    ensures n == 0 ==> Pick(n, v0, v1, v2, v3, v4, v5, v6, v7, v8, v9, v10, v11, v12, v13, v14, v15) == v0
    ensures n == 1 ==> Pick(n, v0, v1, v2, v3, v4, v5, v6, v7, v8, v9, v10, v11, v12, v13, v14, v15) == v1
    ensures n == 2 ==> Pick(n, v0, v1, v2, v3, v4, v5, v6, v7, v8, v9, v10, v11, v12, v13, v14, v15) == v2
    ensures n == 3 ==> Pick(n, v0, v1, v2, v3, v4, v5, v6, v7, v8, v9, v10, v11, v12, v13, v14, v15) == v3
    ensures n == 4 ==> Pick(n, v0, v1, v2, v3, v4, v5, v6, v7, v8, v9, v10, v11, v12, v13, v14, v15) == v4
    ensures n == 5 ==> Pick(n, v0, v1, v2, v3, v4, v5, v6, v7, v8, v9, v10, v11, v12, v13, v14, v15) == v5
    ensures n == 6 ==> Pick(n, v0, v1, v2, v3, v4, v5, v6, v7, v8, v9, v10, v11, v12, v13, v14, v15) == v6
    ensures n == 7 ==> Pick(n, v0, v1, v2, v3, v4, v5, v6, v7, v8, v9, v10, v11, v12, v13, v14, v15) == v7
    ensures n == 8 ==> Pick(n, v0, v1, v2, v3, v4, v5, v6, v7, v8, v9, v10, v11, v12, v13, v14, v15) == v8
    ensures n == 9 ==> Pick(n, v0, v1, v2, v3, v4, v5, v6, v7, v8, v9, v10, v11, v12, v13, v14, v15) == v9
    ensures n == 10 ==> Pick(n, v0, v1, v2, v3, v4, v5, v6, v7, v8, v9, v10, v11, v12, v13, v14, v15) == v10
    ensures n == 11 ==> Pick(n, v0, v1, v2, v3, v4, v5, v6, v7, v8, v9, v10, v11, v12, v13, v14, v15) == v11
    ensures n == 12 ==> Pick(n, v0, v1, v2, v3, v4, v5, v6, v7, v8, v9, v10, v11, v12, v13, v14, v15) == v12
    ensures n == 13 ==> Pick(n, v0, v1, v2, v3, v4, v5, v6, v7, v8, v9, v10, v11, v12, v13, v14, v15) == v13
    ensures n == 14 ==> Pick(n, v0, v1, v2, v3, v4, v5, v6, v7, v8, v9, v10, v11, v12, v13, v14, v15) == v14
    ensures n == 15 ==> Pick(n, v0, v1, v2, v3, v4, v5, v6, v7, v8, v9, v10, v11, v12, v13, v14, v15) == v15
  {
  }

  /** The row in which a byte is looked up. */
  lemma RowIs(x: bv8)
    ensures x >> 4 == 0 ==> SubByte(x) == Row0(x)
    ensures x >> 4 == 1 ==> SubByte(x) == Row1(x)
    ensures x >> 4 == 2 ==> SubByte(x) == Row2(x)
    ensures x >> 4 == 3 ==> SubByte(x) == Row3(x)
    ensures x >> 4 == 4 ==> SubByte(x) == Row4(x)
    ensures x >> 4 == 5 ==> SubByte(x) == Row5(x)
    ensures x >> 4 == 6 ==> SubByte(x) == Row6(x)
    ensures x >> 4 == 7 ==> SubByte(x) == Row7(x)
    ensures x >> 4 == 8 ==> SubByte(x) == Row8(x)
    ensures x >> 4 == 9 ==> SubByte(x) == Row9(x)
    ensures x >> 4 == 10 ==> SubByte(x) == RowA(x)
    ensures x >> 4 == 11 ==> SubByte(x) == RowB(x)
    ensures x >> 4 == 12 ==> SubByte(x) == RowC(x)
    ensures x >> 4 == 13 ==> SubByte(x) == RowD(x)
    ensures x >> 4 == 14 ==> SubByte(x) == RowE(x)
    ensures x >> 4 == 15 ==> SubByte(x) == RowF(x)
  {
    hide Pick, Row0, Row1, Row2, Row3, Row4, Row5, Row6, Row7, Row8, Row9, RowA, RowB, RowC, RowD, RowE, RowF;
    PickIs(x >> 4, Row0(x), Row1(x), Row2(x), Row3(x), Row4(x), Row5(x), Row6(x), Row7(x),
           Row8(x), Row9(x), RowA(x), RowB(x), RowC(x), RowD(x), RowE(x), RowF(x));
  }

  // ---------------------------------------------------------------- the sixteen rows

  lemma Entries0()
    ensures Entry(0x01, Row0(0x01), 0x01) && Entry(0x02, Row0(0x02), 0x8d) && Entry(0x03, Row0(0x03), 0xf6)
    ensures Entry(0x04, Row0(0x04), 0xcb) && Entry(0x05, Row0(0x05), 0x52) && Entry(0x06, Row0(0x06), 0x7b)
    ensures Entry(0x07, Row0(0x07), 0xd1) && Entry(0x08, Row0(0x08), 0xe8) && Entry(0x09, Row0(0x09), 0x4f)
    ensures Entry(0x0a, Row0(0x0a), 0x29) && Entry(0x0b, Row0(0x0b), 0xc0) && Entry(0x0c, Row0(0x0c), 0xb0)
    ensures Entry(0x0d, Row0(0x0d), 0xe1) && Entry(0x0e, Row0(0x0e), 0xe5) && Entry(0x0f, Row0(0x0f), 0xc7)
  {
    hide Entry, Row0;
    FirstEntries0();
    LastEntries0();
  }

  lemma FirstEntries0()
    ensures Entry(0x01, Row0(0x01), 0x01) && Entry(0x02, Row0(0x02), 0x8d) && Entry(0x03, Row0(0x03), 0xf6)
    ensures Entry(0x04, Row0(0x04), 0xcb) && Entry(0x05, Row0(0x05), 0x52) && Entry(0x06, Row0(0x06), 0x7b)
  {
    hide Entry, Row0;
    EntryOf1();
    EntryOf2();
    EntryOf3();
    EntriesOf4To6();
  }

  lemma EntryOf1()
    ensures Entry(0x01, Row0(0x01), 0x01)
  {
  }

  lemma EntryOf2()
    ensures Entry(0x02, Row0(0x02), 0x8d)
  {
  }

  lemma EntryOf3()
    ensures Entry(0x03, Row0(0x03), 0xf6)
  {
  }

  lemma EntriesOf4To6()
    ensures Entry(0x04, Row0(0x04), 0xcb) && Entry(0x05, Row0(0x05), 0x52) && Entry(0x06, Row0(0x06), 0x7b)
  {
  }

  lemma LastEntries0()
    ensures Entry(0x07, Row0(0x07), 0xd1) && Entry(0x08, Row0(0x08), 0xe8) && Entry(0x09, Row0(0x09), 0x4f)
    ensures Entry(0x0a, Row0(0x0a), 0x29) && Entry(0x0b, Row0(0x0b), 0xc0) && Entry(0x0c, Row0(0x0c), 0xb0)
    ensures Entry(0x0d, Row0(0x0d), 0xe1) && Entry(0x0e, Row0(0x0e), 0xe5) && Entry(0x0f, Row0(0x0f), 0xc7)
  {
  }

  lemma Inverse0(x: bv8)
    requires x >> 4 == 0 && x != 0
    ensures exists b :: Entry(x, SubByte(x), b)
  {
    hide Entry, Row0, SubByte;
    Entries0();
    RowIs(x);
  }

  lemma Entries1()
    ensures Entry(0x10, Row1(0x10), 0x74) && Entry(0x11, Row1(0x11), 0xb4) && Entry(0x12, Row1(0x12), 0xaa)
    ensures Entry(0x13, Row1(0x13), 0x4b) && Entry(0x14, Row1(0x14), 0x99) && Entry(0x15, Row1(0x15), 0x2b)
    ensures Entry(0x16, Row1(0x16), 0x60) && Entry(0x17, Row1(0x17), 0x5f) && Entry(0x18, Row1(0x18), 0x58)
    ensures Entry(0x19, Row1(0x19), 0x3f) && Entry(0x1a, Row1(0x1a), 0xfd) && Entry(0x1b, Row1(0x1b), 0xcc)
    ensures Entry(0x1c, Row1(0x1c), 0xff) && Entry(0x1d, Row1(0x1d), 0x40) && Entry(0x1e, Row1(0x1e), 0xee)
    ensures Entry(0x1f, Row1(0x1f), 0xb2)
  {
  }

  lemma Inverse1(x: bv8)
    requires x >> 4 == 1
    ensures exists b :: Entry(x, SubByte(x), b)
  {
    hide Entry, Row1, SubByte;
    Entries1();
    RowIs(x);
  }

  lemma Entries2()
    ensures Entry(0x20, Row2(0x20), 0x3a) && Entry(0x21, Row2(0x21), 0x6e) && Entry(0x22, Row2(0x22), 0x5a)
    ensures Entry(0x23, Row2(0x23), 0xf1) && Entry(0x24, Row2(0x24), 0x55) && Entry(0x25, Row2(0x25), 0x4d)
    ensures Entry(0x26, Row2(0x26), 0xa8) && Entry(0x27, Row2(0x27), 0xc9) && Entry(0x28, Row2(0x28), 0xc1)
    ensures Entry(0x29, Row2(0x29), 0x0a) && Entry(0x2a, Row2(0x2a), 0x98) && Entry(0x2b, Row2(0x2b), 0x15)
    ensures Entry(0x2c, Row2(0x2c), 0x30) && Entry(0x2d, Row2(0x2d), 0x44) && Entry(0x2e, Row2(0x2e), 0xa2)
    ensures Entry(0x2f, Row2(0x2f), 0xc2)
  {
  }

  lemma Inverse2(x: bv8)
    requires x >> 4 == 2
    ensures exists b :: Entry(x, SubByte(x), b)
  {
    hide Entry, Row2, SubByte;
    Entries2();
    RowIs(x);
  }

  lemma Entries3()
    ensures Entry(0x30, Row3(0x30), 0x2c) && Entry(0x31, Row3(0x31), 0x45) && Entry(0x32, Row3(0x32), 0x92)
    ensures Entry(0x33, Row3(0x33), 0x6c) && Entry(0x34, Row3(0x34), 0xf3) && Entry(0x35, Row3(0x35), 0x39)
    ensures Entry(0x36, Row3(0x36), 0x66) && Entry(0x37, Row3(0x37), 0x42) && Entry(0x38, Row3(0x38), 0xf2)
    ensures Entry(0x39, Row3(0x39), 0x35) && Entry(0x3a, Row3(0x3a), 0x20) && Entry(0x3b, Row3(0x3b), 0x6f)
    ensures Entry(0x3c, Row3(0x3c), 0x77) && Entry(0x3d, Row3(0x3d), 0xbb) && Entry(0x3e, Row3(0x3e), 0x59)
    ensures Entry(0x3f, Row3(0x3f), 0x19)
  {
  }

  lemma Inverse3(x: bv8)
    requires x >> 4 == 3
    ensures exists b :: Entry(x, SubByte(x), b)
  {
    hide Entry, Row3, SubByte;
    Entries3();
    RowIs(x);
  }

  lemma Entries4()
    ensures Entry(0x40, Row4(0x40), 0x1d) && Entry(0x41, Row4(0x41), 0xfe) && Entry(0x42, Row4(0x42), 0x37)
    ensures Entry(0x43, Row4(0x43), 0x67) && Entry(0x44, Row4(0x44), 0x2d) && Entry(0x45, Row4(0x45), 0x31)
    ensures Entry(0x46, Row4(0x46), 0xf5) && Entry(0x47, Row4(0x47), 0x69) && Entry(0x48, Row4(0x48), 0xa7)
    ensures Entry(0x49, Row4(0x49), 0x64) && Entry(0x4a, Row4(0x4a), 0xab) && Entry(0x4b, Row4(0x4b), 0x13)
    ensures Entry(0x4c, Row4(0x4c), 0x54) && Entry(0x4d, Row4(0x4d), 0x25) && Entry(0x4e, Row4(0x4e), 0xe9)
    ensures Entry(0x4f, Row4(0x4f), 0x09)
  {
  }

  lemma Inverse4(x: bv8)
    requires x >> 4 == 4
    ensures exists b :: Entry(x, SubByte(x), b)
  {
    hide Entry, Row4, SubByte;
    Entries4();
    RowIs(x);
  }

  lemma Entries5()
    ensures Entry(0x50, Row5(0x50), 0xed) && Entry(0x51, Row5(0x51), 0x5c) && Entry(0x52, Row5(0x52), 0x05)
    ensures Entry(0x53, Row5(0x53), 0xca) && Entry(0x54, Row5(0x54), 0x4c) && Entry(0x55, Row5(0x55), 0x24)
    ensures Entry(0x56, Row5(0x56), 0x87) && Entry(0x57, Row5(0x57), 0xbf) && Entry(0x58, Row5(0x58), 0x18)
    ensures Entry(0x59, Row5(0x59), 0x3e) && Entry(0x5a, Row5(0x5a), 0x22) && Entry(0x5b, Row5(0x5b), 0xf0)
    ensures Entry(0x5c, Row5(0x5c), 0x51) && Entry(0x5d, Row5(0x5d), 0xec) && Entry(0x5e, Row5(0x5e), 0x61)
    ensures Entry(0x5f, Row5(0x5f), 0x17)
  {
  }

  lemma Inverse5(x: bv8)
    requires x >> 4 == 5
    ensures exists b :: Entry(x, SubByte(x), b)
  {
    hide Entry, Row5, SubByte;
    Entries5();
    RowIs(x);
  }

  lemma Entries6()
    ensures Entry(0x60, Row6(0x60), 0x16) && Entry(0x61, Row6(0x61), 0x5e) && Entry(0x62, Row6(0x62), 0xaf)
    ensures Entry(0x63, Row6(0x63), 0xd3) && Entry(0x64, Row6(0x64), 0x49) && Entry(0x65, Row6(0x65), 0xa6)
    ensures Entry(0x66, Row6(0x66), 0x36) && Entry(0x67, Row6(0x67), 0x43) && Entry(0x68, Row6(0x68), 0xf4)
    ensures Entry(0x69, Row6(0x69), 0x47) && Entry(0x6a, Row6(0x6a), 0x91) && Entry(0x6b, Row6(0x6b), 0xdf)
    ensures Entry(0x6c, Row6(0x6c), 0x33) && Entry(0x6d, Row6(0x6d), 0x93) && Entry(0x6e, Row6(0x6e), 0x21)
    ensures Entry(0x6f, Row6(0x6f), 0x3b)
  {
  }

  lemma Inverse6(x: bv8)
    requires x >> 4 == 6
    ensures exists b :: Entry(x, SubByte(x), b)
  {
    hide Entry, Row6, SubByte;
    Entries6();
    RowIs(x);
  }

  lemma Entries7()
    ensures Entry(0x70, Row7(0x70), 0x79) && Entry(0x71, Row7(0x71), 0xb7) && Entry(0x72, Row7(0x72), 0x97)
    ensures Entry(0x73, Row7(0x73), 0x85) && Entry(0x74, Row7(0x74), 0x10) && Entry(0x75, Row7(0x75), 0xb5)
    ensures Entry(0x76, Row7(0x76), 0xba) && Entry(0x77, Row7(0x77), 0x3c) && Entry(0x78, Row7(0x78), 0xb6)
    ensures Entry(0x79, Row7(0x79), 0x70) && Entry(0x7a, Row7(0x7a), 0xd0) && Entry(0x7b, Row7(0x7b), 0x06)
    ensures Entry(0x7c, Row7(0x7c), 0xa1) && Entry(0x7d, Row7(0x7d), 0xfa) && Entry(0x7e, Row7(0x7e), 0x81)
    ensures Entry(0x7f, Row7(0x7f), 0x82)
  {
  }

  lemma Inverse7(x: bv8)
    requires x >> 4 == 7
    ensures exists b :: Entry(x, SubByte(x), b)
  {
    hide Entry, Row7, SubByte;
    Entries7();
    RowIs(x);
  }

  lemma Entries8()
    ensures Entry(0x80, Row8(0x80), 0x83) && Entry(0x81, Row8(0x81), 0x7e) && Entry(0x82, Row8(0x82), 0x7f)
    ensures Entry(0x83, Row8(0x83), 0x80) && Entry(0x84, Row8(0x84), 0x96) && Entry(0x85, Row8(0x85), 0x73)
    ensures Entry(0x86, Row8(0x86), 0xbe) && Entry(0x87, Row8(0x87), 0x56) && Entry(0x88, Row8(0x88), 0x9b)
    ensures Entry(0x89, Row8(0x89), 0x9e) && Entry(0x8a, Row8(0x8a), 0x95) && Entry(0x8b, Row8(0x8b), 0xd9)
    ensures Entry(0x8c, Row8(0x8c), 0xf7) && Entry(0x8d, Row8(0x8d), 0x02) && Entry(0x8e, Row8(0x8e), 0xb9)
    ensures Entry(0x8f, Row8(0x8f), 0xa4)
  {
  }

  lemma Inverse8(x: bv8)
    requires x >> 4 == 8
    ensures exists b :: Entry(x, SubByte(x), b)
  {
    hide Entry, Row8, SubByte;
    Entries8();
    RowIs(x);
  }

  lemma Entries9()
    ensures Entry(0x90, Row9(0x90), 0xde) && Entry(0x91, Row9(0x91), 0x6a) && Entry(0x92, Row9(0x92), 0x32)
    ensures Entry(0x93, Row9(0x93), 0x6d) && Entry(0x94, Row9(0x94), 0xd8) && Entry(0x95, Row9(0x95), 0x8a)
    ensures Entry(0x96, Row9(0x96), 0x84) && Entry(0x97, Row9(0x97), 0x72) && Entry(0x98, Row9(0x98), 0x2a)
    ensures Entry(0x99, Row9(0x99), 0x14) && Entry(0x9a, Row9(0x9a), 0x9f) && Entry(0x9b, Row9(0x9b), 0x88)
    ensures Entry(0x9c, Row9(0x9c), 0xf9) && Entry(0x9d, Row9(0x9d), 0xdc) && Entry(0x9e, Row9(0x9e), 0x89)
    ensures Entry(0x9f, Row9(0x9f), 0x9a)
  {
  }

  lemma Inverse9(x: bv8)
    requires x >> 4 == 9
    ensures exists b :: Entry(x, SubByte(x), b)
  {
    hide Entry, Row9, SubByte;
    Entries9();
    RowIs(x);
  }

  lemma EntriesA()
    ensures Entry(0xa0, RowA(0xa0), 0xfb) && Entry(0xa1, RowA(0xa1), 0x7c) && Entry(0xa2, RowA(0xa2), 0x2e)
    ensures Entry(0xa3, RowA(0xa3), 0xc3) && Entry(0xa4, RowA(0xa4), 0x8f) && Entry(0xa5, RowA(0xa5), 0xb8)
    ensures Entry(0xa6, RowA(0xa6), 0x65) && Entry(0xa7, RowA(0xa7), 0x48) && Entry(0xa8, RowA(0xa8), 0x26)
    ensures Entry(0xa9, RowA(0xa9), 0xc8) && Entry(0xaa, RowA(0xaa), 0x12) && Entry(0xab, RowA(0xab), 0x4a)
    ensures Entry(0xac, RowA(0xac), 0xce) && Entry(0xad, RowA(0xad), 0xe7) && Entry(0xae, RowA(0xae), 0xd2)
    ensures Entry(0xaf, RowA(0xaf), 0x62)
  {
  }

  lemma InverseA(x: bv8)
    requires x >> 4 == 10
    ensures exists b :: Entry(x, SubByte(x), b)
  {
    hide Entry, RowA, SubByte;
    EntriesA();
    RowIs(x);
  }

  lemma EntriesB()
    ensures Entry(0xb0, RowB(0xb0), 0x0c) && Entry(0xb1, RowB(0xb1), 0xe0) && Entry(0xb2, RowB(0xb2), 0x1f)
    ensures Entry(0xb3, RowB(0xb3), 0xef) && Entry(0xb4, RowB(0xb4), 0x11) && Entry(0xb5, RowB(0xb5), 0x75)
    ensures Entry(0xb6, RowB(0xb6), 0x78) && Entry(0xb7, RowB(0xb7), 0x71) && Entry(0xb8, RowB(0xb8), 0xa5)
    ensures Entry(0xb9, RowB(0xb9), 0x8e) && Entry(0xba, RowB(0xba), 0x76) && Entry(0xbb, RowB(0xbb), 0x3d)
    ensures Entry(0xbc, RowB(0xbc), 0xbd) && Entry(0xbd, RowB(0xbd), 0xbc) && Entry(0xbe, RowB(0xbe), 0x86)
    ensures Entry(0xbf, RowB(0xbf), 0x57)
  {
  }

  lemma InverseB(x: bv8)
    requires x >> 4 == 11
    ensures exists b :: Entry(x, SubByte(x), b)
  {
    hide Entry, RowB, SubByte;
    EntriesB();
    RowIs(x);
  }

  lemma EntriesC()
    ensures Entry(0xc0, RowC(0xc0), 0x0b) && Entry(0xc1, RowC(0xc1), 0x28) && Entry(0xc2, RowC(0xc2), 0x2f)
    ensures Entry(0xc3, RowC(0xc3), 0xa3) && Entry(0xc4, RowC(0xc4), 0xda) && Entry(0xc5, RowC(0xc5), 0xd4)
    ensures Entry(0xc6, RowC(0xc6), 0xe4) && Entry(0xc7, RowC(0xc7), 0x0f) && Entry(0xc8, RowC(0xc8), 0xa9)
    ensures Entry(0xc9, RowC(0xc9), 0x27) && Entry(0xca, RowC(0xca), 0x53) && Entry(0xcb, RowC(0xcb), 0x04)
    ensures Entry(0xcc, RowC(0xcc), 0x1b) && Entry(0xcd, RowC(0xcd), 0xfc) && Entry(0xce, RowC(0xce), 0xac)
    ensures Entry(0xcf, RowC(0xcf), 0xe6)
  {
  }

  lemma InverseC(x: bv8)
    requires x >> 4 == 12
    ensures exists b :: Entry(x, SubByte(x), b)
  {
    hide Entry, RowC, SubByte;
    EntriesC();
    RowIs(x);
  }

  lemma EntriesD()
    ensures Entry(0xd0, RowD(0xd0), 0x7a) && Entry(0xd1, RowD(0xd1), 0x07) && Entry(0xd2, RowD(0xd2), 0xae)
    ensures Entry(0xd3, RowD(0xd3), 0x63) && Entry(0xd4, RowD(0xd4), 0xc5) && Entry(0xd5, RowD(0xd5), 0xdb)
    ensures Entry(0xd6, RowD(0xd6), 0xe2) && Entry(0xd7, RowD(0xd7), 0xea) && Entry(0xd8, RowD(0xd8), 0x94)
    ensures Entry(0xd9, RowD(0xd9), 0x8b) && Entry(0xda, RowD(0xda), 0xc4) && Entry(0xdb, RowD(0xdb), 0xd5)
    ensures Entry(0xdc, RowD(0xdc), 0x9d) && Entry(0xdd, RowD(0xdd), 0xf8) && Entry(0xde, RowD(0xde), 0x90)
    ensures Entry(0xdf, RowD(0xdf), 0x6b)
  {
  }

  lemma InverseD(x: bv8)
    requires x >> 4 == 13
    ensures exists b :: Entry(x, SubByte(x), b)
  {
    hide Entry, RowD, SubByte;
    EntriesD();
    RowIs(x);
  }

  lemma EntriesE()
    ensures Entry(0xe0, RowE(0xe0), 0xb1) && Entry(0xe1, RowE(0xe1), 0x0d) && Entry(0xe2, RowE(0xe2), 0xd6)
    ensures Entry(0xe3, RowE(0xe3), 0xeb) && Entry(0xe4, RowE(0xe4), 0xc6) && Entry(0xe5, RowE(0xe5), 0x0e)
    ensures Entry(0xe6, RowE(0xe6), 0xcf) && Entry(0xe7, RowE(0xe7), 0xad) && Entry(0xe8, RowE(0xe8), 0x08)
    ensures Entry(0xe9, RowE(0xe9), 0x4e) && Entry(0xea, RowE(0xea), 0xd7) && Entry(0xeb, RowE(0xeb), 0xe3)
    ensures Entry(0xec, RowE(0xec), 0x5d) && Entry(0xed, RowE(0xed), 0x50) && Entry(0xee, RowE(0xee), 0x1e)
    ensures Entry(0xef, RowE(0xef), 0xb3)
  {
  }

  lemma InverseE(x: bv8)
    requires x >> 4 == 14
    ensures exists b :: Entry(x, SubByte(x), b)
  {
    hide Entry, RowE, SubByte;
    EntriesE();
    RowIs(x);
  }

  lemma EntriesF()
    ensures Entry(0xf0, RowF(0xf0), 0x5b) && Entry(0xf1, RowF(0xf1), 0x23) && Entry(0xf2, RowF(0xf2), 0x38)
    ensures Entry(0xf3, RowF(0xf3), 0x34) && Entry(0xf4, RowF(0xf4), 0x68) && Entry(0xf5, RowF(0xf5), 0x46)
    ensures Entry(0xf6, RowF(0xf6), 0x03) && Entry(0xf7, RowF(0xf7), 0x8c) && Entry(0xf8, RowF(0xf8), 0xdd)
    ensures Entry(0xf9, RowF(0xf9), 0x9c) && Entry(0xfa, RowF(0xfa), 0x7d) && Entry(0xfb, RowF(0xfb), 0xa0)
    ensures Entry(0xfc, RowF(0xfc), 0xcd) && Entry(0xfd, RowF(0xfd), 0x1a) && Entry(0xfe, RowF(0xfe), 0x41)
    ensures Entry(0xff, RowF(0xff), 0x1c)
  {
  }

  lemma InverseF(x: bv8)
    requires x >> 4 == 15
    ensures exists b :: Entry(x, SubByte(x), b)
  {
    hide Entry, RowF, SubByte;
    EntriesF();
    RowIs(x);
  }
}
