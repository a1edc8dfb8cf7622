/** The S-box written out (figure 7 of FIPS 197). */
module AesBox {
  import opened Octets
  import opened Gf256
  import opened AesRounds

  /** What undoes the affine part is the inverse. */
  predicate Boxed(x: Octet, y: Octet) {
    var z := AffineInverse(y);
    if x == 0 then z == 0 else Product(x, z) == 1
  }

  lemma SubIs(x: Octet, y: Octet)
    requires Boxed(x, y)
    ensures Sub(x) == y
  {
    hide Product, Affine, AffineInverse;
    AffineRoundTrip(y);
    if x != 0 {
      InverseUnique(x, AffineInverse(y), FieldInverse(x));
    }
  }

  lemma Row0()
    ensures Sub(0x00) == 0x63 && Sub(0x01) == 0x7C && Sub(0x02) == 0x77 && Sub(0x03) == 0x7B
    ensures Sub(0x04) == 0xF2 && Sub(0x05) == 0x6B && Sub(0x06) == 0x6F && Sub(0x07) == 0xC5
    ensures Sub(0x08) == 0x30 && Sub(0x09) == 0x01 && Sub(0x0A) == 0x67 && Sub(0x0B) == 0x2B
    ensures Sub(0x0C) == 0xFE && Sub(0x0D) == 0xD7 && Sub(0x0E) == 0xAB && Sub(0x0F) == 0x76
  {
    hide Sub, Boxed;
    Row0Boxed();
    SubIs(0x00, 0x63); SubIs(0x01, 0x7C); SubIs(0x02, 0x77); SubIs(0x03, 0x7B);
    SubIs(0x04, 0xF2); SubIs(0x05, 0x6B); SubIs(0x06, 0x6F); SubIs(0x07, 0xC5);
    SubIs(0x08, 0x30); SubIs(0x09, 0x01); SubIs(0x0A, 0x67); SubIs(0x0B, 0x2B);
    SubIs(0x0C, 0xFE); SubIs(0x0D, 0xD7); SubIs(0x0E, 0xAB); SubIs(0x0F, 0x76);
  }

  lemma Row0Boxed()
    ensures Boxed(0x00, 0x63) && Boxed(0x01, 0x7C) && Boxed(0x02, 0x77) && Boxed(0x03, 0x7B)
    ensures Boxed(0x04, 0xF2) && Boxed(0x05, 0x6B) && Boxed(0x06, 0x6F) && Boxed(0x07, 0xC5)
    ensures Boxed(0x08, 0x30) && Boxed(0x09, 0x01) && Boxed(0x0A, 0x67) && Boxed(0x0B, 0x2B)
    ensures Boxed(0x0C, 0xFE) && Boxed(0x0D, 0xD7) && Boxed(0x0E, 0xAB) && Boxed(0x0F, 0x76)
  {}

  lemma Row1()
    ensures Sub(0x10) == 0xCA && Sub(0x11) == 0x82 && Sub(0x12) == 0xC9 && Sub(0x13) == 0x7D
    ensures Sub(0x14) == 0xFA && Sub(0x15) == 0x59 && Sub(0x16) == 0x47 && Sub(0x17) == 0xF0
    ensures Sub(0x18) == 0xAD && Sub(0x19) == 0xD4 && Sub(0x1A) == 0xA2 && Sub(0x1B) == 0xAF
    ensures Sub(0x1C) == 0x9C && Sub(0x1D) == 0xA4 && Sub(0x1E) == 0x72 && Sub(0x1F) == 0xC0
  {
    hide Sub, Boxed;
    Row1Boxed();
    SubIs(0x10, 0xCA); SubIs(0x11, 0x82); SubIs(0x12, 0xC9); SubIs(0x13, 0x7D);
    SubIs(0x14, 0xFA); SubIs(0x15, 0x59); SubIs(0x16, 0x47); SubIs(0x17, 0xF0);
    SubIs(0x18, 0xAD); SubIs(0x19, 0xD4); SubIs(0x1A, 0xA2); SubIs(0x1B, 0xAF);
    SubIs(0x1C, 0x9C); SubIs(0x1D, 0xA4); SubIs(0x1E, 0x72); SubIs(0x1F, 0xC0);
  }

  lemma Row1Boxed()
    ensures Boxed(0x10, 0xCA) && Boxed(0x11, 0x82) && Boxed(0x12, 0xC9) && Boxed(0x13, 0x7D)
    ensures Boxed(0x14, 0xFA) && Boxed(0x15, 0x59) && Boxed(0x16, 0x47) && Boxed(0x17, 0xF0)
    ensures Boxed(0x18, 0xAD) && Boxed(0x19, 0xD4) && Boxed(0x1A, 0xA2) && Boxed(0x1B, 0xAF)
    ensures Boxed(0x1C, 0x9C) && Boxed(0x1D, 0xA4) && Boxed(0x1E, 0x72) && Boxed(0x1F, 0xC0)
  {}

  lemma Row2()
    ensures Sub(0x20) == 0xB7 && Sub(0x21) == 0xFD && Sub(0x22) == 0x93 && Sub(0x23) == 0x26
    ensures Sub(0x24) == 0x36 && Sub(0x25) == 0x3F && Sub(0x26) == 0xF7 && Sub(0x27) == 0xCC
    ensures Sub(0x28) == 0x34 && Sub(0x29) == 0xA5 && Sub(0x2A) == 0xE5 && Sub(0x2B) == 0xF1
    ensures Sub(0x2C) == 0x71 && Sub(0x2D) == 0xD8 && Sub(0x2E) == 0x31 && Sub(0x2F) == 0x15
  {
    hide Sub, Boxed;
    Row2Boxed();
    SubIs(0x20, 0xB7); SubIs(0x21, 0xFD); SubIs(0x22, 0x93); SubIs(0x23, 0x26);
    SubIs(0x24, 0x36); SubIs(0x25, 0x3F); SubIs(0x26, 0xF7); SubIs(0x27, 0xCC);
    SubIs(0x28, 0x34); SubIs(0x29, 0xA5); SubIs(0x2A, 0xE5); SubIs(0x2B, 0xF1);
    SubIs(0x2C, 0x71); SubIs(0x2D, 0xD8); SubIs(0x2E, 0x31); SubIs(0x2F, 0x15);
  }

  lemma Row2Boxed()
    ensures Boxed(0x20, 0xB7) && Boxed(0x21, 0xFD) && Boxed(0x22, 0x93) && Boxed(0x23, 0x26)
    ensures Boxed(0x24, 0x36) && Boxed(0x25, 0x3F) && Boxed(0x26, 0xF7) && Boxed(0x27, 0xCC)
    ensures Boxed(0x28, 0x34) && Boxed(0x29, 0xA5) && Boxed(0x2A, 0xE5) && Boxed(0x2B, 0xF1)
    ensures Boxed(0x2C, 0x71) && Boxed(0x2D, 0xD8) && Boxed(0x2E, 0x31) && Boxed(0x2F, 0x15)
  {}

  lemma Row3()
    ensures Sub(0x30) == 0x04 && Sub(0x31) == 0xC7 && Sub(0x32) == 0x23 && Sub(0x33) == 0xC3
    ensures Sub(0x34) == 0x18 && Sub(0x35) == 0x96 && Sub(0x36) == 0x05 && Sub(0x37) == 0x9A
    ensures Sub(0x38) == 0x07 && Sub(0x39) == 0x12 && Sub(0x3A) == 0x80 && Sub(0x3B) == 0xE2
    ensures Sub(0x3C) == 0xEB && Sub(0x3D) == 0x27 && Sub(0x3E) == 0xB2 && Sub(0x3F) == 0x75
  {
    hide Sub, Boxed;
    Row3Boxed();
    SubIs(0x30, 0x04); SubIs(0x31, 0xC7); SubIs(0x32, 0x23); SubIs(0x33, 0xC3);
    SubIs(0x34, 0x18); SubIs(0x35, 0x96); SubIs(0x36, 0x05); SubIs(0x37, 0x9A);
    SubIs(0x38, 0x07); SubIs(0x39, 0x12); SubIs(0x3A, 0x80); SubIs(0x3B, 0xE2);
    SubIs(0x3C, 0xEB); SubIs(0x3D, 0x27); SubIs(0x3E, 0xB2); SubIs(0x3F, 0x75);
  }

  lemma Row3Boxed()
    ensures Boxed(0x30, 0x04) && Boxed(0x31, 0xC7) && Boxed(0x32, 0x23) && Boxed(0x33, 0xC3)
    ensures Boxed(0x34, 0x18) && Boxed(0x35, 0x96) && Boxed(0x36, 0x05) && Boxed(0x37, 0x9A)
    ensures Boxed(0x38, 0x07) && Boxed(0x39, 0x12) && Boxed(0x3A, 0x80) && Boxed(0x3B, 0xE2)
    ensures Boxed(0x3C, 0xEB) && Boxed(0x3D, 0x27) && Boxed(0x3E, 0xB2) && Boxed(0x3F, 0x75)
  {}

  lemma Row4()
    ensures Sub(0x40) == 0x09 && Sub(0x41) == 0x83 && Sub(0x42) == 0x2C && Sub(0x43) == 0x1A
    ensures Sub(0x44) == 0x1B && Sub(0x45) == 0x6E && Sub(0x46) == 0x5A && Sub(0x47) == 0xA0
    ensures Sub(0x48) == 0x52 && Sub(0x49) == 0x3B && Sub(0x4A) == 0xD6 && Sub(0x4B) == 0xB3
    ensures Sub(0x4C) == 0x29 && Sub(0x4D) == 0xE3 && Sub(0x4E) == 0x2F && Sub(0x4F) == 0x84
  {
    hide Sub, Boxed;
    Row4Boxed();
    SubIs(0x40, 0x09); SubIs(0x41, 0x83); SubIs(0x42, 0x2C); SubIs(0x43, 0x1A);
    SubIs(0x44, 0x1B); SubIs(0x45, 0x6E); SubIs(0x46, 0x5A); SubIs(0x47, 0xA0);
    SubIs(0x48, 0x52); SubIs(0x49, 0x3B); SubIs(0x4A, 0xD6); SubIs(0x4B, 0xB3);
    SubIs(0x4C, 0x29); SubIs(0x4D, 0xE3); SubIs(0x4E, 0x2F); SubIs(0x4F, 0x84);
  }

  lemma Row4Boxed()
    ensures Boxed(0x40, 0x09) && Boxed(0x41, 0x83) && Boxed(0x42, 0x2C) && Boxed(0x43, 0x1A)
    ensures Boxed(0x44, 0x1B) && Boxed(0x45, 0x6E) && Boxed(0x46, 0x5A) && Boxed(0x47, 0xA0)
    ensures Boxed(0x48, 0x52) && Boxed(0x49, 0x3B) && Boxed(0x4A, 0xD6) && Boxed(0x4B, 0xB3)
    ensures Boxed(0x4C, 0x29) && Boxed(0x4D, 0xE3) && Boxed(0x4E, 0x2F) && Boxed(0x4F, 0x84)
  {}

  lemma Row5()
    ensures Sub(0x50) == 0x53 && Sub(0x51) == 0xD1 && Sub(0x52) == 0x00 && Sub(0x53) == 0xED
    ensures Sub(0x54) == 0x20 && Sub(0x55) == 0xFC && Sub(0x56) == 0xB1 && Sub(0x57) == 0x5B
    ensures Sub(0x58) == 0x6A && Sub(0x59) == 0xCB && Sub(0x5A) == 0xBE && Sub(0x5B) == 0x39
    ensures Sub(0x5C) == 0x4A && Sub(0x5D) == 0x4C && Sub(0x5E) == 0x58 && Sub(0x5F) == 0xCF
  {
    hide Sub, Boxed;
    Row5Boxed();
    SubIs(0x50, 0x53); SubIs(0x51, 0xD1); SubIs(0x52, 0x00); SubIs(0x53, 0xED);
    SubIs(0x54, 0x20); SubIs(0x55, 0xFC); SubIs(0x56, 0xB1); SubIs(0x57, 0x5B);
    SubIs(0x58, 0x6A); SubIs(0x59, 0xCB); SubIs(0x5A, 0xBE); SubIs(0x5B, 0x39);
    SubIs(0x5C, 0x4A); SubIs(0x5D, 0x4C); SubIs(0x5E, 0x58); SubIs(0x5F, 0xCF);
  }

  lemma Row5Boxed()
    ensures Boxed(0x50, 0x53) && Boxed(0x51, 0xD1) && Boxed(0x52, 0x00) && Boxed(0x53, 0xED)
    ensures Boxed(0x54, 0x20) && Boxed(0x55, 0xFC) && Boxed(0x56, 0xB1) && Boxed(0x57, 0x5B)
    ensures Boxed(0x58, 0x6A) && Boxed(0x59, 0xCB) && Boxed(0x5A, 0xBE) && Boxed(0x5B, 0x39)
    ensures Boxed(0x5C, 0x4A) && Boxed(0x5D, 0x4C) && Boxed(0x5E, 0x58) && Boxed(0x5F, 0xCF)
  {}

  lemma Row6()
    ensures Sub(0x60) == 0xD0 && Sub(0x61) == 0xEF && Sub(0x62) == 0xAA && Sub(0x63) == 0xFB
    ensures Sub(0x64) == 0x43 && Sub(0x65) == 0x4D && Sub(0x66) == 0x33 && Sub(0x67) == 0x85
    ensures Sub(0x68) == 0x45 && Sub(0x69) == 0xF9 && Sub(0x6A) == 0x02 && Sub(0x6B) == 0x7F
    ensures Sub(0x6C) == 0x50 && Sub(0x6D) == 0x3C && Sub(0x6E) == 0x9F && Sub(0x6F) == 0xA8
  {
    hide Sub, Boxed;
    Row6Boxed();
    SubIs(0x60, 0xD0); SubIs(0x61, 0xEF); SubIs(0x62, 0xAA); SubIs(0x63, 0xFB);
    SubIs(0x64, 0x43); SubIs(0x65, 0x4D); SubIs(0x66, 0x33); SubIs(0x67, 0x85);
    SubIs(0x68, 0x45); SubIs(0x69, 0xF9); SubIs(0x6A, 0x02); SubIs(0x6B, 0x7F);
    SubIs(0x6C, 0x50); SubIs(0x6D, 0x3C); SubIs(0x6E, 0x9F); SubIs(0x6F, 0xA8);
  }

  lemma Row6Boxed()
    ensures Boxed(0x60, 0xD0) && Boxed(0x61, 0xEF) && Boxed(0x62, 0xAA) && Boxed(0x63, 0xFB)
    ensures Boxed(0x64, 0x43) && Boxed(0x65, 0x4D) && Boxed(0x66, 0x33) && Boxed(0x67, 0x85)
    ensures Boxed(0x68, 0x45) && Boxed(0x69, 0xF9) && Boxed(0x6A, 0x02) && Boxed(0x6B, 0x7F)
    ensures Boxed(0x6C, 0x50) && Boxed(0x6D, 0x3C) && Boxed(0x6E, 0x9F) && Boxed(0x6F, 0xA8)
  {}

  lemma Row7()
    ensures Sub(0x70) == 0x51 && Sub(0x71) == 0xA3 && Sub(0x72) == 0x40 && Sub(0x73) == 0x8F
    ensures Sub(0x74) == 0x92 && Sub(0x75) == 0x9D && Sub(0x76) == 0x38 && Sub(0x77) == 0xF5
    ensures Sub(0x78) == 0xBC && Sub(0x79) == 0xB6 && Sub(0x7A) == 0xDA && Sub(0x7B) == 0x21
    ensures Sub(0x7C) == 0x10 && Sub(0x7D) == 0xFF && Sub(0x7E) == 0xF3 && Sub(0x7F) == 0xD2
  {
    hide Sub, Boxed;
    Row7Boxed();
    SubIs(0x70, 0x51); SubIs(0x71, 0xA3); SubIs(0x72, 0x40); SubIs(0x73, 0x8F);
    SubIs(0x74, 0x92); SubIs(0x75, 0x9D); SubIs(0x76, 0x38); SubIs(0x77, 0xF5);
    SubIs(0x78, 0xBC); SubIs(0x79, 0xB6); SubIs(0x7A, 0xDA); SubIs(0x7B, 0x21);
    SubIs(0x7C, 0x10); SubIs(0x7D, 0xFF); SubIs(0x7E, 0xF3); SubIs(0x7F, 0xD2);
  }

  lemma Row7Boxed()
    ensures Boxed(0x70, 0x51) && Boxed(0x71, 0xA3) && Boxed(0x72, 0x40) && Boxed(0x73, 0x8F)
    ensures Boxed(0x74, 0x92) && Boxed(0x75, 0x9D) && Boxed(0x76, 0x38) && Boxed(0x77, 0xF5)
    ensures Boxed(0x78, 0xBC) && Boxed(0x79, 0xB6) && Boxed(0x7A, 0xDA) && Boxed(0x7B, 0x21)
    ensures Boxed(0x7C, 0x10) && Boxed(0x7D, 0xFF) && Boxed(0x7E, 0xF3) && Boxed(0x7F, 0xD2)
  {}

  lemma Row8()
    ensures Sub(0x80) == 0xCD && Sub(0x81) == 0x0C && Sub(0x82) == 0x13 && Sub(0x83) == 0xEC
    ensures Sub(0x84) == 0x5F && Sub(0x85) == 0x97 && Sub(0x86) == 0x44 && Sub(0x87) == 0x17
    ensures Sub(0x88) == 0xC4 && Sub(0x89) == 0xA7 && Sub(0x8A) == 0x7E && Sub(0x8B) == 0x3D
    ensures Sub(0x8C) == 0x64 && Sub(0x8D) == 0x5D && Sub(0x8E) == 0x19 && Sub(0x8F) == 0x73
  {
    hide Sub, Boxed;
    Row8Boxed();
    SubIs(0x80, 0xCD); SubIs(0x81, 0x0C); SubIs(0x82, 0x13); SubIs(0x83, 0xEC);
    SubIs(0x84, 0x5F); SubIs(0x85, 0x97); SubIs(0x86, 0x44); SubIs(0x87, 0x17);
    SubIs(0x88, 0xC4); SubIs(0x89, 0xA7); SubIs(0x8A, 0x7E); SubIs(0x8B, 0x3D);
    SubIs(0x8C, 0x64); SubIs(0x8D, 0x5D); SubIs(0x8E, 0x19); SubIs(0x8F, 0x73);
  }

  lemma Row8Boxed()
    ensures Boxed(0x80, 0xCD) && Boxed(0x81, 0x0C) && Boxed(0x82, 0x13) && Boxed(0x83, 0xEC)
    ensures Boxed(0x84, 0x5F) && Boxed(0x85, 0x97) && Boxed(0x86, 0x44) && Boxed(0x87, 0x17)
    ensures Boxed(0x88, 0xC4) && Boxed(0x89, 0xA7) && Boxed(0x8A, 0x7E) && Boxed(0x8B, 0x3D)
    ensures Boxed(0x8C, 0x64) && Boxed(0x8D, 0x5D) && Boxed(0x8E, 0x19) && Boxed(0x8F, 0x73)
  {}

  lemma Row9()
    ensures Sub(0x90) == 0x60 && Sub(0x91) == 0x81 && Sub(0x92) == 0x4F && Sub(0x93) == 0xDC
    ensures Sub(0x94) == 0x22 && Sub(0x95) == 0x2A && Sub(0x96) == 0x90 && Sub(0x97) == 0x88
    ensures Sub(0x98) == 0x46 && Sub(0x99) == 0xEE && Sub(0x9A) == 0xB8 && Sub(0x9B) == 0x14
    ensures Sub(0x9C) == 0xDE && Sub(0x9D) == 0x5E && Sub(0x9E) == 0x0B && Sub(0x9F) == 0xDB
  {
    hide Sub, Boxed;
    Row9Boxed();
    SubIs(0x90, 0x60); SubIs(0x91, 0x81); SubIs(0x92, 0x4F); SubIs(0x93, 0xDC);
    SubIs(0x94, 0x22); SubIs(0x95, 0x2A); SubIs(0x96, 0x90); SubIs(0x97, 0x88);
    SubIs(0x98, 0x46); SubIs(0x99, 0xEE); SubIs(0x9A, 0xB8); SubIs(0x9B, 0x14);
    SubIs(0x9C, 0xDE); SubIs(0x9D, 0x5E); SubIs(0x9E, 0x0B); SubIs(0x9F, 0xDB);
  }

  lemma Row9Boxed()
    ensures Boxed(0x90, 0x60) && Boxed(0x91, 0x81) && Boxed(0x92, 0x4F) && Boxed(0x93, 0xDC)
    ensures Boxed(0x94, 0x22) && Boxed(0x95, 0x2A) && Boxed(0x96, 0x90) && Boxed(0x97, 0x88)
    ensures Boxed(0x98, 0x46) && Boxed(0x99, 0xEE) && Boxed(0x9A, 0xB8) && Boxed(0x9B, 0x14)
    ensures Boxed(0x9C, 0xDE) && Boxed(0x9D, 0x5E) && Boxed(0x9E, 0x0B) && Boxed(0x9F, 0xDB)
  {}

  lemma RowA()
    ensures Sub(0xA0) == 0xE0 && Sub(0xA1) == 0x32 && Sub(0xA2) == 0x3A && Sub(0xA3) == 0x0A
    ensures Sub(0xA4) == 0x49 && Sub(0xA5) == 0x06 && Sub(0xA6) == 0x24 && Sub(0xA7) == 0x5C
    ensures Sub(0xA8) == 0xC2 && Sub(0xA9) == 0xD3 && Sub(0xAA) == 0xAC && Sub(0xAB) == 0x62
    ensures Sub(0xAC) == 0x91 && Sub(0xAD) == 0x95 && Sub(0xAE) == 0xE4 && Sub(0xAF) == 0x79
  {
    hide Sub, Boxed;
    RowABoxed();
    SubIs(0xA0, 0xE0); SubIs(0xA1, 0x32); SubIs(0xA2, 0x3A); SubIs(0xA3, 0x0A);
    SubIs(0xA4, 0x49); SubIs(0xA5, 0x06); SubIs(0xA6, 0x24); SubIs(0xA7, 0x5C);
    SubIs(0xA8, 0xC2); SubIs(0xA9, 0xD3); SubIs(0xAA, 0xAC); SubIs(0xAB, 0x62);
    SubIs(0xAC, 0x91); SubIs(0xAD, 0x95); SubIs(0xAE, 0xE4); SubIs(0xAF, 0x79);
  }

  lemma RowABoxed()
    ensures Boxed(0xA0, 0xE0) && Boxed(0xA1, 0x32) && Boxed(0xA2, 0x3A) && Boxed(0xA3, 0x0A)
    ensures Boxed(0xA4, 0x49) && Boxed(0xA5, 0x06) && Boxed(0xA6, 0x24) && Boxed(0xA7, 0x5C)
    ensures Boxed(0xA8, 0xC2) && Boxed(0xA9, 0xD3) && Boxed(0xAA, 0xAC) && Boxed(0xAB, 0x62)
    ensures Boxed(0xAC, 0x91) && Boxed(0xAD, 0x95) && Boxed(0xAE, 0xE4) && Boxed(0xAF, 0x79)
  {}

  lemma RowB()
    ensures Sub(0xB0) == 0xE7 && Sub(0xB1) == 0xC8 && Sub(0xB2) == 0x37 && Sub(0xB3) == 0x6D
    ensures Sub(0xB4) == 0x8D && Sub(0xB5) == 0xD5 && Sub(0xB6) == 0x4E && Sub(0xB7) == 0xA9
    ensures Sub(0xB8) == 0x6C && Sub(0xB9) == 0x56 && Sub(0xBA) == 0xF4 && Sub(0xBB) == 0xEA
    ensures Sub(0xBC) == 0x65 && Sub(0xBD) == 0x7A && Sub(0xBE) == 0xAE && Sub(0xBF) == 0x08
  {
    hide Sub, Boxed;
    RowBBoxed();
    SubIs(0xB0, 0xE7); SubIs(0xB1, 0xC8); SubIs(0xB2, 0x37); SubIs(0xB3, 0x6D);
    SubIs(0xB4, 0x8D); SubIs(0xB5, 0xD5); SubIs(0xB6, 0x4E); SubIs(0xB7, 0xA9);
    SubIs(0xB8, 0x6C); SubIs(0xB9, 0x56); SubIs(0xBA, 0xF4); SubIs(0xBB, 0xEA);
    SubIs(0xBC, 0x65); SubIs(0xBD, 0x7A); SubIs(0xBE, 0xAE); SubIs(0xBF, 0x08);
  }

  lemma RowBBoxed()
    ensures Boxed(0xB0, 0xE7) && Boxed(0xB1, 0xC8) && Boxed(0xB2, 0x37) && Boxed(0xB3, 0x6D)
    ensures Boxed(0xB4, 0x8D) && Boxed(0xB5, 0xD5) && Boxed(0xB6, 0x4E) && Boxed(0xB7, 0xA9)
    ensures Boxed(0xB8, 0x6C) && Boxed(0xB9, 0x56) && Boxed(0xBA, 0xF4) && Boxed(0xBB, 0xEA)
    ensures Boxed(0xBC, 0x65) && Boxed(0xBD, 0x7A) && Boxed(0xBE, 0xAE) && Boxed(0xBF, 0x08)
  {}

  lemma RowC()
    ensures Sub(0xC0) == 0xBA && Sub(0xC1) == 0x78 && Sub(0xC2) == 0x25 && Sub(0xC3) == 0x2E
    ensures Sub(0xC4) == 0x1C && Sub(0xC5) == 0xA6 && Sub(0xC6) == 0xB4 && Sub(0xC7) == 0xC6
    ensures Sub(0xC8) == 0xE8 && Sub(0xC9) == 0xDD && Sub(0xCA) == 0x74 && Sub(0xCB) == 0x1F
    ensures Sub(0xCC) == 0x4B && Sub(0xCD) == 0xBD && Sub(0xCE) == 0x8B && Sub(0xCF) == 0x8A
  {
    hide Sub, Boxed;
    RowCBoxed();
    SubIs(0xC0, 0xBA); SubIs(0xC1, 0x78); SubIs(0xC2, 0x25); SubIs(0xC3, 0x2E);
    SubIs(0xC4, 0x1C); SubIs(0xC5, 0xA6); SubIs(0xC6, 0xB4); SubIs(0xC7, 0xC6);
    SubIs(0xC8, 0xE8); SubIs(0xC9, 0xDD); SubIs(0xCA, 0x74); SubIs(0xCB, 0x1F);
    SubIs(0xCC, 0x4B); SubIs(0xCD, 0xBD); SubIs(0xCE, 0x8B); SubIs(0xCF, 0x8A);
  }

  lemma RowCBoxed()
    ensures Boxed(0xC0, 0xBA) && Boxed(0xC1, 0x78) && Boxed(0xC2, 0x25) && Boxed(0xC3, 0x2E)
    ensures Boxed(0xC4, 0x1C) && Boxed(0xC5, 0xA6) && Boxed(0xC6, 0xB4) && Boxed(0xC7, 0xC6)
    ensures Boxed(0xC8, 0xE8) && Boxed(0xC9, 0xDD) && Boxed(0xCA, 0x74) && Boxed(0xCB, 0x1F)
    ensures Boxed(0xCC, 0x4B) && Boxed(0xCD, 0xBD) && Boxed(0xCE, 0x8B) && Boxed(0xCF, 0x8A)
  {}

  lemma RowD()
    ensures Sub(0xD0) == 0x70 && Sub(0xD1) == 0x3E && Sub(0xD2) == 0xB5 && Sub(0xD3) == 0x66
    ensures Sub(0xD4) == 0x48 && Sub(0xD5) == 0x03 && Sub(0xD6) == 0xF6 && Sub(0xD7) == 0x0E
    ensures Sub(0xD8) == 0x61 && Sub(0xD9) == 0x35 && Sub(0xDA) == 0x57 && Sub(0xDB) == 0xB9
    ensures Sub(0xDC) == 0x86 && Sub(0xDD) == 0xC1 && Sub(0xDE) == 0x1D && Sub(0xDF) == 0x9E
  {
    hide Sub, Boxed;
    RowDBoxed();
    SubIs(0xD0, 0x70); SubIs(0xD1, 0x3E); SubIs(0xD2, 0xB5); SubIs(0xD3, 0x66);
    SubIs(0xD4, 0x48); SubIs(0xD5, 0x03); SubIs(0xD6, 0xF6); SubIs(0xD7, 0x0E);
    SubIs(0xD8, 0x61); SubIs(0xD9, 0x35); SubIs(0xDA, 0x57); SubIs(0xDB, 0xB9);
    SubIs(0xDC, 0x86); SubIs(0xDD, 0xC1); SubIs(0xDE, 0x1D); SubIs(0xDF, 0x9E);
  }

  lemma RowDBoxed()
    ensures Boxed(0xD0, 0x70) && Boxed(0xD1, 0x3E) && Boxed(0xD2, 0xB5) && Boxed(0xD3, 0x66)
    ensures Boxed(0xD4, 0x48) && Boxed(0xD5, 0x03) && Boxed(0xD6, 0xF6) && Boxed(0xD7, 0x0E)
    ensures Boxed(0xD8, 0x61) && Boxed(0xD9, 0x35) && Boxed(0xDA, 0x57) && Boxed(0xDB, 0xB9)
    ensures Boxed(0xDC, 0x86) && Boxed(0xDD, 0xC1) && Boxed(0xDE, 0x1D) && Boxed(0xDF, 0x9E)
  {}

  lemma RowE()
    ensures Sub(0xE0) == 0xE1 && Sub(0xE1) == 0xF8 && Sub(0xE2) == 0x98 && Sub(0xE3) == 0x11
    ensures Sub(0xE4) == 0x69 && Sub(0xE5) == 0xD9 && Sub(0xE6) == 0x8E && Sub(0xE7) == 0x94
    ensures Sub(0xE8) == 0x9B && Sub(0xE9) == 0x1E && Sub(0xEA) == 0x87 && Sub(0xEB) == 0xE9
    ensures Sub(0xEC) == 0xCE && Sub(0xED) == 0x55 && Sub(0xEE) == 0x28 && Sub(0xEF) == 0xDF
  {
    hide Sub, Boxed;
    RowEBoxed();
    SubIs(0xE0, 0xE1); SubIs(0xE1, 0xF8); SubIs(0xE2, 0x98); SubIs(0xE3, 0x11);
    SubIs(0xE4, 0x69); SubIs(0xE5, 0xD9); SubIs(0xE6, 0x8E); SubIs(0xE7, 0x94);
    SubIs(0xE8, 0x9B); SubIs(0xE9, 0x1E); SubIs(0xEA, 0x87); SubIs(0xEB, 0xE9);
    SubIs(0xEC, 0xCE); SubIs(0xED, 0x55); SubIs(0xEE, 0x28); SubIs(0xEF, 0xDF);
  }

  lemma RowEBoxed()
    ensures Boxed(0xE0, 0xE1) && Boxed(0xE1, 0xF8) && Boxed(0xE2, 0x98) && Boxed(0xE3, 0x11)
    ensures Boxed(0xE4, 0x69) && Boxed(0xE5, 0xD9) && Boxed(0xE6, 0x8E) && Boxed(0xE7, 0x94)
    ensures Boxed(0xE8, 0x9B) && Boxed(0xE9, 0x1E) && Boxed(0xEA, 0x87) && Boxed(0xEB, 0xE9)
    ensures Boxed(0xEC, 0xCE) && Boxed(0xED, 0x55) && Boxed(0xEE, 0x28) && Boxed(0xEF, 0xDF)
  {}

  lemma RowF()
    ensures Sub(0xF0) == 0x8C && Sub(0xF1) == 0xA1 && Sub(0xF2) == 0x89 && Sub(0xF3) == 0x0D
    ensures Sub(0xF4) == 0xBF && Sub(0xF5) == 0xE6 && Sub(0xF6) == 0x42 && Sub(0xF7) == 0x68
    ensures Sub(0xF8) == 0x41 && Sub(0xF9) == 0x99 && Sub(0xFA) == 0x2D && Sub(0xFB) == 0x0F
    ensures Sub(0xFC) == 0xB0 && Sub(0xFD) == 0x54 && Sub(0xFE) == 0xBB && Sub(0xFF) == 0x16
  {
    hide Sub, Boxed;
    RowFBoxed();
    SubIs(0xF0, 0x8C); SubIs(0xF1, 0xA1); SubIs(0xF2, 0x89); SubIs(0xF3, 0x0D);
    SubIs(0xF4, 0xBF); SubIs(0xF5, 0xE6); SubIs(0xF6, 0x42); SubIs(0xF7, 0x68);
    SubIs(0xF8, 0x41); SubIs(0xF9, 0x99); SubIs(0xFA, 0x2D); SubIs(0xFB, 0x0F);
    SubIs(0xFC, 0xB0); SubIs(0xFD, 0x54); SubIs(0xFE, 0xBB); SubIs(0xFF, 0x16);
  }

  lemma RowFBoxed()
    ensures Boxed(0xF0, 0x8C) && Boxed(0xF1, 0xA1) && Boxed(0xF2, 0x89) && Boxed(0xF3, 0x0D)
    ensures Boxed(0xF4, 0xBF) && Boxed(0xF5, 0xE6) && Boxed(0xF6, 0x42) && Boxed(0xF7, 0x68)
    ensures Boxed(0xF8, 0x41) && Boxed(0xF9, 0x99) && Boxed(0xFA, 0x2D) && Boxed(0xFB, 0x0F)
    ensures Boxed(0xFC, 0xB0) && Boxed(0xFD, 0x54) && Boxed(0xFE, 0xBB) && Boxed(0xFF, 0x16)
  {}
}
