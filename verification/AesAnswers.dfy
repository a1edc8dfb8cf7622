/** The examples of appendix C of FIPS 197: the schedule of each key, and every state on the way from
    the block to the stated ciphertext. */
module AesAnswers {
  import opened Octets
  import opened Gf256
  import opened AesRounds
  import opened AesCipher
  import opened AesBox
  import opened AesTables
  import opened Aes

  lemma Table()

    ensures Sub(0x00) == 0x63 && Sub(0x01) == 0x7C && Sub(0x02) == 0x77 && Sub(0x03) == 0x7B && Sub(0x04) == 0xF2 && Sub(0x05) == 0x6B && Sub(0x06) == 0x6F && Sub(0x07) == 0xC5
    ensures Sub(0x08) == 0x30 && Sub(0x09) == 0x01 && Sub(0x0A) == 0x67 && Sub(0x0B) == 0x2B && Sub(0x0C) == 0xFE && Sub(0x0D) == 0xD7 && Sub(0x0E) == 0xAB && Sub(0x0F) == 0x76
    ensures Sub(0x10) == 0xCA && Sub(0x11) == 0x82 && Sub(0x12) == 0xC9 && Sub(0x13) == 0x7D && Sub(0x14) == 0xFA && Sub(0x15) == 0x59 && Sub(0x16) == 0x47 && Sub(0x17) == 0xF0
    ensures Sub(0x18) == 0xAD && Sub(0x19) == 0xD4 && Sub(0x1A) == 0xA2 && Sub(0x1B) == 0xAF && Sub(0x1C) == 0x9C && Sub(0x1D) == 0xA4 && Sub(0x1E) == 0x72 && Sub(0x1F) == 0xC0
    ensures Sub(0x20) == 0xB7 && Sub(0x21) == 0xFD && Sub(0x22) == 0x93 && Sub(0x23) == 0x26 && Sub(0x24) == 0x36 && Sub(0x25) == 0x3F && Sub(0x26) == 0xF7 && Sub(0x27) == 0xCC
    ensures Sub(0x28) == 0x34 && Sub(0x29) == 0xA5 && Sub(0x2A) == 0xE5 && Sub(0x2B) == 0xF1 && Sub(0x2C) == 0x71 && Sub(0x2D) == 0xD8 && Sub(0x2E) == 0x31 && Sub(0x2F) == 0x15
    ensures Sub(0x30) == 0x04 && Sub(0x31) == 0xC7 && Sub(0x32) == 0x23 && Sub(0x33) == 0xC3 && Sub(0x34) == 0x18 && Sub(0x35) == 0x96 && Sub(0x36) == 0x05 && Sub(0x37) == 0x9A
    ensures Sub(0x38) == 0x07 && Sub(0x39) == 0x12 && Sub(0x3A) == 0x80 && Sub(0x3B) == 0xE2 && Sub(0x3C) == 0xEB && Sub(0x3D) == 0x27 && Sub(0x3E) == 0xB2 && Sub(0x3F) == 0x75
    ensures Sub(0x40) == 0x09 && Sub(0x41) == 0x83 && Sub(0x42) == 0x2C && Sub(0x43) == 0x1A && Sub(0x44) == 0x1B && Sub(0x45) == 0x6E && Sub(0x46) == 0x5A && Sub(0x47) == 0xA0
    ensures Sub(0x48) == 0x52 && Sub(0x49) == 0x3B && Sub(0x4A) == 0xD6 && Sub(0x4B) == 0xB3 && Sub(0x4C) == 0x29 && Sub(0x4D) == 0xE3 && Sub(0x4E) == 0x2F && Sub(0x4F) == 0x84
    ensures Sub(0x50) == 0x53 && Sub(0x51) == 0xD1 && Sub(0x52) == 0x00 && Sub(0x53) == 0xED && Sub(0x54) == 0x20 && Sub(0x55) == 0xFC && Sub(0x56) == 0xB1 && Sub(0x57) == 0x5B
    ensures Sub(0x58) == 0x6A && Sub(0x59) == 0xCB && Sub(0x5A) == 0xBE && Sub(0x5B) == 0x39 && Sub(0x5C) == 0x4A && Sub(0x5D) == 0x4C && Sub(0x5E) == 0x58 && Sub(0x5F) == 0xCF
    ensures Sub(0x60) == 0xD0 && Sub(0x61) == 0xEF && Sub(0x62) == 0xAA && Sub(0x63) == 0xFB && Sub(0x64) == 0x43 && Sub(0x65) == 0x4D && Sub(0x66) == 0x33 && Sub(0x67) == 0x85
    ensures Sub(0x68) == 0x45 && Sub(0x69) == 0xF9 && Sub(0x6A) == 0x02 && Sub(0x6B) == 0x7F && Sub(0x6C) == 0x50 && Sub(0x6D) == 0x3C && Sub(0x6E) == 0x9F && Sub(0x6F) == 0xA8
    ensures Sub(0x70) == 0x51 && Sub(0x71) == 0xA3 && Sub(0x72) == 0x40 && Sub(0x73) == 0x8F && Sub(0x74) == 0x92 && Sub(0x75) == 0x9D && Sub(0x76) == 0x38 && Sub(0x77) == 0xF5
    ensures Sub(0x78) == 0xBC && Sub(0x79) == 0xB6 && Sub(0x7A) == 0xDA && Sub(0x7B) == 0x21 && Sub(0x7C) == 0x10 && Sub(0x7D) == 0xFF && Sub(0x7E) == 0xF3 && Sub(0x7F) == 0xD2
    ensures Sub(0x80) == 0xCD && Sub(0x81) == 0x0C && Sub(0x82) == 0x13 && Sub(0x83) == 0xEC && Sub(0x84) == 0x5F && Sub(0x85) == 0x97 && Sub(0x86) == 0x44 && Sub(0x87) == 0x17
    ensures Sub(0x88) == 0xC4 && Sub(0x89) == 0xA7 && Sub(0x8A) == 0x7E && Sub(0x8B) == 0x3D && Sub(0x8C) == 0x64 && Sub(0x8D) == 0x5D && Sub(0x8E) == 0x19 && Sub(0x8F) == 0x73
    ensures Sub(0x90) == 0x60 && Sub(0x91) == 0x81 && Sub(0x92) == 0x4F && Sub(0x93) == 0xDC && Sub(0x94) == 0x22 && Sub(0x95) == 0x2A && Sub(0x96) == 0x90 && Sub(0x97) == 0x88
    ensures Sub(0x98) == 0x46 && Sub(0x99) == 0xEE && Sub(0x9A) == 0xB8 && Sub(0x9B) == 0x14 && Sub(0x9C) == 0xDE && Sub(0x9D) == 0x5E && Sub(0x9E) == 0x0B && Sub(0x9F) == 0xDB
    ensures Sub(0xA0) == 0xE0 && Sub(0xA1) == 0x32 && Sub(0xA2) == 0x3A && Sub(0xA3) == 0x0A && Sub(0xA4) == 0x49 && Sub(0xA5) == 0x06 && Sub(0xA6) == 0x24 && Sub(0xA7) == 0x5C
    ensures Sub(0xA8) == 0xC2 && Sub(0xA9) == 0xD3 && Sub(0xAA) == 0xAC && Sub(0xAB) == 0x62 && Sub(0xAC) == 0x91 && Sub(0xAD) == 0x95 && Sub(0xAE) == 0xE4 && Sub(0xAF) == 0x79
    ensures Sub(0xB0) == 0xE7 && Sub(0xB1) == 0xC8 && Sub(0xB2) == 0x37 && Sub(0xB3) == 0x6D && Sub(0xB4) == 0x8D && Sub(0xB5) == 0xD5 && Sub(0xB6) == 0x4E && Sub(0xB7) == 0xA9
    ensures Sub(0xB8) == 0x6C && Sub(0xB9) == 0x56 && Sub(0xBA) == 0xF4 && Sub(0xBB) == 0xEA && Sub(0xBC) == 0x65 && Sub(0xBD) == 0x7A && Sub(0xBE) == 0xAE && Sub(0xBF) == 0x08
    ensures Sub(0xC0) == 0xBA && Sub(0xC1) == 0x78 && Sub(0xC2) == 0x25 && Sub(0xC3) == 0x2E && Sub(0xC4) == 0x1C && Sub(0xC5) == 0xA6 && Sub(0xC6) == 0xB4 && Sub(0xC7) == 0xC6
    ensures Sub(0xC8) == 0xE8 && Sub(0xC9) == 0xDD && Sub(0xCA) == 0x74 && Sub(0xCB) == 0x1F && Sub(0xCC) == 0x4B && Sub(0xCD) == 0xBD && Sub(0xCE) == 0x8B && Sub(0xCF) == 0x8A
    ensures Sub(0xD0) == 0x70 && Sub(0xD1) == 0x3E && Sub(0xD2) == 0xB5 && Sub(0xD3) == 0x66 && Sub(0xD4) == 0x48 && Sub(0xD5) == 0x03 && Sub(0xD6) == 0xF6 && Sub(0xD7) == 0x0E
    ensures Sub(0xD8) == 0x61 && Sub(0xD9) == 0x35 && Sub(0xDA) == 0x57 && Sub(0xDB) == 0xB9 && Sub(0xDC) == 0x86 && Sub(0xDD) == 0xC1 && Sub(0xDE) == 0x1D && Sub(0xDF) == 0x9E
    ensures Sub(0xE0) == 0xE1 && Sub(0xE1) == 0xF8 && Sub(0xE2) == 0x98 && Sub(0xE3) == 0x11 && Sub(0xE4) == 0x69 && Sub(0xE5) == 0xD9 && Sub(0xE6) == 0x8E && Sub(0xE7) == 0x94
    ensures Sub(0xE8) == 0x9B && Sub(0xE9) == 0x1E && Sub(0xEA) == 0x87 && Sub(0xEB) == 0xE9 && Sub(0xEC) == 0xCE && Sub(0xED) == 0x55 && Sub(0xEE) == 0x28 && Sub(0xEF) == 0xDF
    ensures Sub(0xF0) == 0x8C && Sub(0xF1) == 0xA1 && Sub(0xF2) == 0x89 && Sub(0xF3) == 0x0D && Sub(0xF4) == 0xBF && Sub(0xF5) == 0xE6 && Sub(0xF6) == 0x42 && Sub(0xF7) == 0x68
    ensures Sub(0xF8) == 0x41 && Sub(0xF9) == 0x99 && Sub(0xFA) == 0x2D && Sub(0xFB) == 0x0F && Sub(0xFC) == 0xB0 && Sub(0xFD) == 0x54 && Sub(0xFE) == 0xBB && Sub(0xFF) == 0x16
  {
    hide Sub;
    Row0(); Row1(); Row2(); Row3(); Row4(); Row5(); Row6(); Row7();
    Row8(); Row9(); RowA(); RowB(); RowC(); RowD(); RowE(); RowF();
  }

  // ----- key schedules -----

  /** Word j of the group r that follows the group p with round constant c. */
  ghost predicate NextWord(p: seq<Col>, c: Octet, r: seq<Col>, j: nat)
    requires j < |r| <= |p|
  {
    var t := p[|p| - 1];
    r[j] == AddCol(p[j],
                   if j == 0 then AddCol(Col(Sub(t.b), Sub(t.c), Sub(t.d), Sub(t.a)), Col(c, 0, 0, 0))
                   else if |p| == 8 && j == 4 then SubCol(r[3])
                   else r[j - 1])
  }

  ghost predicate NextGroup(p: seq<Col>, c: Octet, r: seq<Col>)
    requires |r| <= |p| <= 8
  {
    (|r| > 0 ==> NextWord(p, c, r, 0)) && (|r| > 1 ==> NextWord(p, c, r, 1)) && (|r| > 2 ==> NextWord(p, c, r, 2))
    && (|r| > 3 ==> NextWord(p, c, r, 3)) && (|r| > 4 ==> NextWord(p, c, r, 4)) && (|r| > 5 ==> NextWord(p, c, r, 5))
    && (|r| > 6 ==> NextWord(p, c, r, 6)) && (|r| > 7 ==> NextWord(p, c, r, 7))
  }

  // The round keys of the 128-bit key 00 01 02 .., and the groups of 4 words in them.

  const R128_0 := State(Col(0x00, 0x01, 0x02, 0x03), Col(0x04, 0x05, 0x06, 0x07), Col(0x08, 0x09, 0x0A, 0x0B), Col(0x0C, 0x0D, 0x0E, 0x0F))
  const R128_1 := State(Col(0xD6, 0xAA, 0x74, 0xFD), Col(0xD2, 0xAF, 0x72, 0xFA), Col(0xDA, 0xA6, 0x78, 0xF1), Col(0xD6, 0xAB, 0x76, 0xFE))
  const R128_2 := State(Col(0xB6, 0x92, 0xCF, 0x0B), Col(0x64, 0x3D, 0xBD, 0xF1), Col(0xBE, 0x9B, 0xC5, 0x00), Col(0x68, 0x30, 0xB3, 0xFE))
  const R128_3 := State(Col(0xB6, 0xFF, 0x74, 0x4E), Col(0xD2, 0xC2, 0xC9, 0xBF), Col(0x6C, 0x59, 0x0C, 0xBF), Col(0x04, 0x69, 0xBF, 0x41))
  const R128_4 := State(Col(0x47, 0xF7, 0xF7, 0xBC), Col(0x95, 0x35, 0x3E, 0x03), Col(0xF9, 0x6C, 0x32, 0xBC), Col(0xFD, 0x05, 0x8D, 0xFD))
  const R128_5 := State(Col(0x3C, 0xAA, 0xA3, 0xE8), Col(0xA9, 0x9F, 0x9D, 0xEB), Col(0x50, 0xF3, 0xAF, 0x57), Col(0xAD, 0xF6, 0x22, 0xAA))
  const R128_6 := State(Col(0x5E, 0x39, 0x0F, 0x7D), Col(0xF7, 0xA6, 0x92, 0x96), Col(0xA7, 0x55, 0x3D, 0xC1), Col(0x0A, 0xA3, 0x1F, 0x6B))
  const R128_7 := State(Col(0x14, 0xF9, 0x70, 0x1A), Col(0xE3, 0x5F, 0xE2, 0x8C), Col(0x44, 0x0A, 0xDF, 0x4D), Col(0x4E, 0xA9, 0xC0, 0x26))
  const R128_8 := State(Col(0x47, 0x43, 0x87, 0x35), Col(0xA4, 0x1C, 0x65, 0xB9), Col(0xE0, 0x16, 0xBA, 0xF4), Col(0xAE, 0xBF, 0x7A, 0xD2))
  const R128_9 := State(Col(0x54, 0x99, 0x32, 0xD1), Col(0xF0, 0x85, 0x57, 0x68), Col(0x10, 0x93, 0xED, 0x9C), Col(0xBE, 0x2C, 0x97, 0x4E))
  const R128_10 := State(Col(0x13, 0x11, 0x1D, 0x7F), Col(0xE3, 0x94, 0x4A, 0x17), Col(0xF3, 0x07, 0xA7, 0x8B), Col(0x4D, 0x2B, 0x30, 0xC5))

  const K128_0 := [R128_0.c0, R128_0.c1, R128_0.c2, R128_0.c3]
  const K128_1 := [R128_1.c0, R128_1.c1, R128_1.c2, R128_1.c3]
  const K128_2 := [R128_2.c0, R128_2.c1, R128_2.c2, R128_2.c3]
  const K128_3 := [R128_3.c0, R128_3.c1, R128_3.c2, R128_3.c3]
  const K128_4 := [R128_4.c0, R128_4.c1, R128_4.c2, R128_4.c3]
  const K128_5 := [R128_5.c0, R128_5.c1, R128_5.c2, R128_5.c3]
  const K128_6 := [R128_6.c0, R128_6.c1, R128_6.c2, R128_6.c3]
  const K128_7 := [R128_7.c0, R128_7.c1, R128_7.c2, R128_7.c3]
  const K128_8 := [R128_8.c0, R128_8.c1, R128_8.c2, R128_8.c3]
  const K128_9 := [R128_9.c0, R128_9.c1, R128_9.c2, R128_9.c3]
  const K128_10 := [R128_10.c0, R128_10.c1, R128_10.c2, R128_10.c3]

  lemma Next128_1()
    ensures |K128_0| == 4 && |K128_1| == 4 && |K128_2| == 4 && |K128_3| == 4
    ensures NextGroup(K128_0, 0x01, K128_1) && NextGroup(K128_1, 0x02, K128_2) && NextGroup(K128_2, 0x04, K128_3)
  {
    hide Sub;
    Table();
  }

  lemma Next128_4()
    ensures |K128_3| == 4 && |K128_4| == 4 && |K128_5| == 4 && |K128_6| == 4
    ensures NextGroup(K128_3, 0x08, K128_4) && NextGroup(K128_4, 0x10, K128_5) && NextGroup(K128_5, 0x20, K128_6)
  {
    hide Sub;
    Table();
  }

  lemma Next128_7()
    ensures |K128_6| == 4 && |K128_7| == 4 && |K128_8| == 4 && |K128_9| == 4
    ensures NextGroup(K128_6, 0x40, K128_7) && NextGroup(K128_7, 0x80, K128_8) && NextGroup(K128_8, 0x1B, K128_9)
  {
    hide Sub;
    Table();
  }

  lemma Next128_10()
    ensures |K128_9| == 4 && |K128_10| == 4
    ensures NextGroup(K128_9, 0x36, K128_10)
  {
    hide Sub;
    Table();
  }

  // The round keys of the 192-bit key 00 01 02 .., and the groups of 6 words in them.

  const R192_0 := State(Col(0x00, 0x01, 0x02, 0x03), Col(0x04, 0x05, 0x06, 0x07), Col(0x08, 0x09, 0x0A, 0x0B), Col(0x0C, 0x0D, 0x0E, 0x0F))
  const R192_1 := State(Col(0x10, 0x11, 0x12, 0x13), Col(0x14, 0x15, 0x16, 0x17), Col(0x58, 0x46, 0xF2, 0xF9), Col(0x5C, 0x43, 0xF4, 0xFE))
  const R192_2 := State(Col(0x54, 0x4A, 0xFE, 0xF5), Col(0x58, 0x47, 0xF0, 0xFA), Col(0x48, 0x56, 0xE2, 0xE9), Col(0x5C, 0x43, 0xF4, 0xFE))
  const R192_3 := State(Col(0x40, 0xF9, 0x49, 0xB3), Col(0x1C, 0xBA, 0xBD, 0x4D), Col(0x48, 0xF0, 0x43, 0xB8), Col(0x10, 0xB7, 0xB3, 0x42))
  const R192_4 := State(Col(0x58, 0xE1, 0x51, 0xAB), Col(0x04, 0xA2, 0xA5, 0x55), Col(0x7E, 0xFF, 0xB5, 0x41), Col(0x62, 0x45, 0x08, 0x0C))
  const R192_5 := State(Col(0x2A, 0xB5, 0x4B, 0xB4), Col(0x3A, 0x02, 0xF8, 0xF6), Col(0x62, 0xE3, 0xA9, 0x5D), Col(0x66, 0x41, 0x0C, 0x08))
  const R192_6 := State(Col(0xF5, 0x01, 0x85, 0x72), Col(0x97, 0x44, 0x8D, 0x7E), Col(0xBD, 0xF1, 0xC6, 0xCA), Col(0x87, 0xF3, 0x3E, 0x3C))
  const R192_7 := State(Col(0xE5, 0x10, 0x97, 0x61), Col(0x83, 0x51, 0x9B, 0x69), Col(0x34, 0x15, 0x7C, 0x9E), Col(0xA3, 0x51, 0xF1, 0xE0))
  const R192_8 := State(Col(0x1E, 0xA0, 0x37, 0x2A), Col(0x99, 0x53, 0x09, 0x16), Col(0x7C, 0x43, 0x9E, 0x77), Col(0xFF, 0x12, 0x05, 0x1E))
  const R192_9 := State(Col(0xDD, 0x7E, 0x0E, 0x88), Col(0x7E, 0x2F, 0xFF, 0x68), Col(0x60, 0x8F, 0xC8, 0x42), Col(0xF9, 0xDC, 0xC1, 0x54))
  const R192_10 := State(Col(0x85, 0x9F, 0x5F, 0x23), Col(0x7A, 0x8D, 0x5A, 0x3D), Col(0xC0, 0xC0, 0x29, 0x52), Col(0xBE, 0xEF, 0xD6, 0x3A))
  const R192_11 := State(Col(0xDE, 0x60, 0x1E, 0x78), Col(0x27, 0xBC, 0xDF, 0x2C), Col(0xA2, 0x23, 0x80, 0x0F), Col(0xD8, 0xAE, 0xDA, 0x32))
  const R192_12 := State(Col(0xA4, 0x97, 0x0A, 0x33), Col(0x1A, 0x78, 0xDC, 0x09), Col(0xC4, 0x18, 0xC2, 0x71), Col(0xE3, 0xA4, 0x1D, 0x5D))

  const K192_0 := [R192_0.c0, R192_0.c1, R192_0.c2, R192_0.c3, R192_1.c0, R192_1.c1]
  const K192_1 := [R192_1.c2, R192_1.c3, R192_2.c0, R192_2.c1, R192_2.c2, R192_2.c3]
  const K192_2 := [R192_3.c0, R192_3.c1, R192_3.c2, R192_3.c3, R192_4.c0, R192_4.c1]
  const K192_3 := [R192_4.c2, R192_4.c3, R192_5.c0, R192_5.c1, R192_5.c2, R192_5.c3]
  const K192_4 := [R192_6.c0, R192_6.c1, R192_6.c2, R192_6.c3, R192_7.c0, R192_7.c1]
  const K192_5 := [R192_7.c2, R192_7.c3, R192_8.c0, R192_8.c1, R192_8.c2, R192_8.c3]
  const K192_6 := [R192_9.c0, R192_9.c1, R192_9.c2, R192_9.c3, R192_10.c0, R192_10.c1]
  const K192_7 := [R192_10.c2, R192_10.c3, R192_11.c0, R192_11.c1, R192_11.c2, R192_11.c3]
  const K192_8 := [R192_12.c0, R192_12.c1, R192_12.c2, R192_12.c3]

  lemma Next192_1()
    ensures |K192_0| == 6 && |K192_1| == 6 && |K192_2| == 6 && |K192_3| == 6
    ensures NextGroup(K192_0, 0x01, K192_1) && NextGroup(K192_1, 0x02, K192_2) && NextGroup(K192_2, 0x04, K192_3)
  {
    hide Sub;
    Table();
  }

  lemma Next192_4()
    ensures |K192_3| == 6 && |K192_4| == 6 && |K192_5| == 6 && |K192_6| == 6
    ensures NextGroup(K192_3, 0x08, K192_4) && NextGroup(K192_4, 0x10, K192_5) && NextGroup(K192_5, 0x20, K192_6)
  {
    hide Sub;
    Table();
  }

  lemma Next192_7()
    ensures |K192_6| == 6 && |K192_7| == 6 && |K192_8| == 4
    ensures NextGroup(K192_6, 0x40, K192_7) && NextGroup(K192_7, 0x80, K192_8)
  {
    hide Sub;
    Table();
  }

  // The round keys of the 256-bit key 00 01 02 .., and the groups of 8 words in them.

  const R256_0 := State(Col(0x00, 0x01, 0x02, 0x03), Col(0x04, 0x05, 0x06, 0x07), Col(0x08, 0x09, 0x0A, 0x0B), Col(0x0C, 0x0D, 0x0E, 0x0F))
  const R256_1 := State(Col(0x10, 0x11, 0x12, 0x13), Col(0x14, 0x15, 0x16, 0x17), Col(0x18, 0x19, 0x1A, 0x1B), Col(0x1C, 0x1D, 0x1E, 0x1F))
  const R256_2 := State(Col(0xA5, 0x73, 0xC2, 0x9F), Col(0xA1, 0x76, 0xC4, 0x98), Col(0xA9, 0x7F, 0xCE, 0x93), Col(0xA5, 0x72, 0xC0, 0x9C))
  const R256_3 := State(Col(0x16, 0x51, 0xA8, 0xCD), Col(0x02, 0x44, 0xBE, 0xDA), Col(0x1A, 0x5D, 0xA4, 0xC1), Col(0x06, 0x40, 0xBA, 0xDE))
  const R256_4 := State(Col(0xAE, 0x87, 0xDF, 0xF0), Col(0x0F, 0xF1, 0x1B, 0x68), Col(0xA6, 0x8E, 0xD5, 0xFB), Col(0x03, 0xFC, 0x15, 0x67))
  const R256_5 := State(Col(0x6D, 0xE1, 0xF1, 0x48), Col(0x6F, 0xA5, 0x4F, 0x92), Col(0x75, 0xF8, 0xEB, 0x53), Col(0x73, 0xB8, 0x51, 0x8D))
  const R256_6 := State(Col(0xC6, 0x56, 0x82, 0x7F), Col(0xC9, 0xA7, 0x99, 0x17), Col(0x6F, 0x29, 0x4C, 0xEC), Col(0x6C, 0xD5, 0x59, 0x8B))
  const R256_7 := State(Col(0x3D, 0xE2, 0x3A, 0x75), Col(0x52, 0x47, 0x75, 0xE7), Col(0x27, 0xBF, 0x9E, 0xB4), Col(0x54, 0x07, 0xCF, 0x39))
  const R256_8 := State(Col(0x0B, 0xDC, 0x90, 0x5F), Col(0xC2, 0x7B, 0x09, 0x48), Col(0xAD, 0x52, 0x45, 0xA4), Col(0xC1, 0x87, 0x1C, 0x2F))
  const R256_9 := State(Col(0x45, 0xF5, 0xA6, 0x60), Col(0x17, 0xB2, 0xD3, 0x87), Col(0x30, 0x0D, 0x4D, 0x33), Col(0x64, 0x0A, 0x82, 0x0A))
  const R256_10 := State(Col(0x7C, 0xCF, 0xF7, 0x1C), Col(0xBE, 0xB4, 0xFE, 0x54), Col(0x13, 0xE6, 0xBB, 0xF0), Col(0xD2, 0x61, 0xA7, 0xDF))
  const R256_11 := State(Col(0xF0, 0x1A, 0xFA, 0xFE), Col(0xE7, 0xA8, 0x29, 0x79), Col(0xD7, 0xA5, 0x64, 0x4A), Col(0xB3, 0xAF, 0xE6, 0x40))
  const R256_12 := State(Col(0x25, 0x41, 0xFE, 0x71), Col(0x9B, 0xF5, 0x00, 0x25), Col(0x88, 0x13, 0xBB, 0xD5), Col(0x5A, 0x72, 0x1C, 0x0A))
  const R256_13 := State(Col(0x4E, 0x5A, 0x66, 0x99), Col(0xA9, 0xF2, 0x4F, 0xE0), Col(0x7E, 0x57, 0x2B, 0xAA), Col(0xCD, 0xF8, 0xCD, 0xEA))
  const R256_14 := State(Col(0x24, 0xFC, 0x79, 0xCC), Col(0xBF, 0x09, 0x79, 0xE9), Col(0x37, 0x1A, 0xC2, 0x3C), Col(0x6D, 0x68, 0xDE, 0x36))

  const K256_0 := [R256_0.c0, R256_0.c1, R256_0.c2, R256_0.c3, R256_1.c0, R256_1.c1, R256_1.c2, R256_1.c3]
  const K256_1 := [R256_2.c0, R256_2.c1, R256_2.c2, R256_2.c3, R256_3.c0, R256_3.c1, R256_3.c2, R256_3.c3]
  const K256_2 := [R256_4.c0, R256_4.c1, R256_4.c2, R256_4.c3, R256_5.c0, R256_5.c1, R256_5.c2, R256_5.c3]
  const K256_3 := [R256_6.c0, R256_6.c1, R256_6.c2, R256_6.c3, R256_7.c0, R256_7.c1, R256_7.c2, R256_7.c3]
  const K256_4 := [R256_8.c0, R256_8.c1, R256_8.c2, R256_8.c3, R256_9.c0, R256_9.c1, R256_9.c2, R256_9.c3]
  const K256_5 := [R256_10.c0, R256_10.c1, R256_10.c2, R256_10.c3, R256_11.c0, R256_11.c1, R256_11.c2, R256_11.c3]
  const K256_6 := [R256_12.c0, R256_12.c1, R256_12.c2, R256_12.c3, R256_13.c0, R256_13.c1, R256_13.c2, R256_13.c3]
  const K256_7 := [R256_14.c0, R256_14.c1, R256_14.c2, R256_14.c3]

  lemma Next256_1()
    ensures |K256_0| == 8 && |K256_1| == 8 && |K256_2| == 8 && |K256_3| == 8
    ensures NextGroup(K256_0, 0x01, K256_1) && NextGroup(K256_1, 0x02, K256_2) && NextGroup(K256_2, 0x04, K256_3)
  {
    hide Sub;
    Table();
  }

  lemma Next256_4()
    ensures |K256_3| == 8 && |K256_4| == 8 && |K256_5| == 8 && |K256_6| == 8
    ensures NextGroup(K256_3, 0x08, K256_4) && NextGroup(K256_4, 0x10, K256_5) && NextGroup(K256_5, 0x20, K256_6)
  {
    hide Sub;
    Table();
  }

  lemma Next256_7()
    ensures |K256_6| == 8 && |K256_7| == 4
    ensures NextGroup(K256_6, 0x40, K256_7)
  {
    hide Sub;
    Table();
  }

  ghost predicate Holds(ek: seq<bv32>, i: nat, p: seq<Col>) {
    i + |p| <= |ek| && forall j :: 0 <= j < |p| ==> Column(ek[i + j]) == p[j]
  }

  /** The expansion goes from group to group as listed. */
  lemma NextHolds(ek: seq<bv32>, nk: nat, g: nat, n: nat, p: seq<Col>, c: Octet, r: seq<Col>)
    requires 0 < nk <= 8 && |p| == nk && |r| <= nk && nk * (g + 1) + |r| <= n && Expanded(ek, nk, n)
    requires Holds(ek, nk * g, p) && NextGroup(p, c, r) && Doubled(g) == c && (nk == 8 || nk <= 6)
    ensures Holds(ek, nk * (g + 1), r)
  {
    hide NextGroup, Expanded, Doubled, Column;
    var i := nk * (g + 1);
    ExpandedSize(ek, nk, n);
    for j := 0 to |r|
      invariant Holds(ek, i, r[..j])
    {
      WordHolds(ek, nk, g, n, p, c, r, j);
      HoldsMore(ek, i, r[..j], r[j]);
      assert r[..j + 1] == r[..j] + [r[j]];
    }
    assert r[..|r|] == r;
  }

  lemma HoldsMore(ek: seq<bv32>, i: nat, p: seq<Col>, x: Col)
    requires Holds(ek, i, p) && i + |p| < |ek| && Column(ek[i + |p|]) == x
    ensures Holds(ek, i, p + [x])
  {
    hide Column;
  }

  lemma HoldsAt(ek: seq<bv32>, i: nat, p: seq<Col>, j: nat)
    requires Holds(ek, i, p) && j < |p|
    ensures i + j < |ek| && Column(ek[i + j]) == p[j]
  {}

  lemma WordHolds(ek: seq<bv32>, nk: nat, g: nat, n: nat, p: seq<Col>, c: Octet, r: seq<Col>, j: nat)
    requires 0 < nk <= 8 && |p| == nk && j < |r| <= nk && nk * (g + 1) + |r| <= n && Expanded(ek, nk, n) && (nk == 8 || nk <= 6)
    requires Holds(ek, nk * g, p) && Holds(ek, nk * (g + 1), r[..j]) && NextGroup(p, c, r) && Doubled(g) == c
    ensures nk * (g + 1) + j < |ek| && Column(ek[nk * (g + 1) + j]) == r[j]
  {
    hide Column, AddCol, Sub, Expanded, NextGroup, Holds, Doubled;
    var i := nk * (g + 1);
    assert i == nk * g + nk;
    FollowsAt(ek, nk, n, i + j);
    GroupIndex(g, nk, j);
    NextWordOf(p, c, r, j);
    HoldsAt(ek, nk * g, p, j);
    if j > 0 {
      HoldsAt(ek, i, r[..j], j - 1);
    } else {
      HoldsAt(ek, nk * g, p, nk - 1);
    }
  }

  lemma ExpandedSize(ek: seq<bv32>, nk: nat, n: nat)
    requires nk > 0 && Expanded(ek, nk, n)
    ensures n <= |ek|
  {}

  lemma FollowsAt(ek: seq<bv32>, nk: nat, n: nat, i: nat)
    requires 0 < nk <= i < n && Expanded(ek, nk, n)
    ensures i < |ek| && Follows(ek, nk, i)
  {}

  lemma NextWordOf(p: seq<Col>, c: Octet, r: seq<Col>, j: nat)
    requires j < |r| <= |p| <= 8 && NextGroup(p, c, r)
    ensures NextWord(p, c, r, j)
  {
    hide NextWord;
  }

  lemma Constants()
    ensures Doubled(0) == 0x01 && Doubled(1) == 0x02 && Doubled(2) == 0x04 && Doubled(3) == 0x08 && Doubled(4) == 0x10
    ensures Doubled(5) == 0x20 && Doubled(6) == 0x40 && Doubled(7) == 0x80 && Doubled(8) == 0x1B && Doubled(9) == 0x36
  {
    hide Xtime;
    Powers();
  }

  lemma Powers()
    ensures Xtime(0x01) == 0x02 && Xtime(0x02) == 0x04 && Xtime(0x04) == 0x08 && Xtime(0x08) == 0x10 && Xtime(0x10) == 0x20
    ensures Xtime(0x20) == 0x40 && Xtime(0x40) == 0x80 && Xtime(0x80) == 0x1B && Xtime(0x1B) == 0x36
  {}

  ghost predicate KeyGroup(p: seq<Col>, key: seq<Octet>) {
    4 * |p| <= |key| && forall j :: 0 <= j < |p| ==> p[j] == Col(key[4 * j], key[4 * j + 1], key[4 * j + 2], key[4 * j + 3])
  }

  lemma FirstHolds(ek: seq<bv32>, key: seq<Octet>, keybits: nat, p: seq<Col>)
    requires IsSchedule(ek, key, keybits) && |p| == keybits / 32 && KeyGroup(p, key)
    ensures Holds(ek, 0, p) && Expanded(ek, keybits / 32, 4 * (Rounds(keybits) + 1))
  {
    hide Column, Expanded;
  }

  /** The whole schedule of the 128-bit key. */
  lemma Schedule128(ek: seq<bv32>, key: seq<Octet>)
    requires IsSchedule(ek, key, 128) && KeyGroup(K128_0, key)
    ensures Holds(ek, 0, K128_0) && Holds(ek, 4, K128_1) && Holds(ek, 8, K128_2) && Holds(ek, 12, K128_3)
    ensures Holds(ek, 16, K128_4) && Holds(ek, 20, K128_5) && Holds(ek, 24, K128_6) && Holds(ek, 28, K128_7)
    ensures Holds(ek, 32, K128_8) && Holds(ek, 36, K128_9) && Holds(ek, 40, K128_10)
  {
    hide Holds, Expanded, NextGroup, Doubled, K128_0, K128_1, K128_2, K128_3, K128_4, K128_5, K128_6, K128_7, K128_8, K128_9, K128_10;
    Constants();
    Next128_1();
    FirstHolds(ek, key, 128, K128_0);
    NextHolds(ek, 4, 0, 44, K128_0, 0x01, K128_1);
    NextHolds(ek, 4, 1, 44, K128_1, 0x02, K128_2);
    NextHolds(ek, 4, 2, 44, K128_2, 0x04, K128_3);
    Next128_4();
    NextHolds(ek, 4, 3, 44, K128_3, 0x08, K128_4);
    NextHolds(ek, 4, 4, 44, K128_4, 0x10, K128_5);
    NextHolds(ek, 4, 5, 44, K128_5, 0x20, K128_6);
    Next128_7();
    NextHolds(ek, 4, 6, 44, K128_6, 0x40, K128_7);
    NextHolds(ek, 4, 7, 44, K128_7, 0x80, K128_8);
    NextHolds(ek, 4, 8, 44, K128_8, 0x1B, K128_9);
    Next128_10();
    NextHolds(ek, 4, 9, 44, K128_9, 0x36, K128_10);
  }

  /** The whole schedule of the 192-bit key. */
  lemma Schedule192(ek: seq<bv32>, key: seq<Octet>)
    requires IsSchedule(ek, key, 192) && KeyGroup(K192_0, key)
    ensures Holds(ek, 0, K192_0) && Holds(ek, 6, K192_1) && Holds(ek, 12, K192_2) && Holds(ek, 18, K192_3)
    ensures Holds(ek, 24, K192_4) && Holds(ek, 30, K192_5) && Holds(ek, 36, K192_6) && Holds(ek, 42, K192_7)
    ensures Holds(ek, 48, K192_8)
  {
    hide Holds, Expanded, NextGroup, Doubled, K192_0, K192_1, K192_2, K192_3, K192_4, K192_5, K192_6, K192_7, K192_8;
    Constants();
    Next192_1();
    FirstHolds(ek, key, 192, K192_0);
    NextHolds(ek, 6, 0, 52, K192_0, 0x01, K192_1);
    NextHolds(ek, 6, 1, 52, K192_1, 0x02, K192_2);
    NextHolds(ek, 6, 2, 52, K192_2, 0x04, K192_3);
    Next192_4();
    NextHolds(ek, 6, 3, 52, K192_3, 0x08, K192_4);
    NextHolds(ek, 6, 4, 52, K192_4, 0x10, K192_5);
    NextHolds(ek, 6, 5, 52, K192_5, 0x20, K192_6);
    Next192_7();
    NextHolds(ek, 6, 6, 52, K192_6, 0x40, K192_7);
    NextHolds(ek, 6, 7, 52, K192_7, 0x80, K192_8);
  }

  /** The whole schedule of the 256-bit key. */
  lemma Schedule256(ek: seq<bv32>, key: seq<Octet>)
    requires IsSchedule(ek, key, 256) && KeyGroup(K256_0, key)
    ensures Holds(ek, 0, K256_0) && Holds(ek, 8, K256_1) && Holds(ek, 16, K256_2) && Holds(ek, 24, K256_3)
    ensures Holds(ek, 32, K256_4) && Holds(ek, 40, K256_5) && Holds(ek, 48, K256_6) && Holds(ek, 56, K256_7)
  {
    hide Holds, Expanded, NextGroup, Doubled, K256_0, K256_1, K256_2, K256_3, K256_4, K256_5, K256_6, K256_7;
    Constants();
    Next256_1();
    FirstHolds(ek, key, 256, K256_0);
    NextHolds(ek, 8, 0, 60, K256_0, 0x01, K256_1);
    NextHolds(ek, 8, 1, 60, K256_1, 0x02, K256_2);
    NextHolds(ek, 8, 2, 60, K256_2, 0x04, K256_3);
    Next256_4();
    NextHolds(ek, 8, 3, 60, K256_3, 0x08, K256_4);
    NextHolds(ek, 8, 4, 60, K256_4, 0x10, K256_5);
    NextHolds(ek, 8, 5, 60, K256_5, 0x20, K256_6);
    Next256_7();
    NextHolds(ek, 8, 6, 60, K256_6, 0x40, K256_7);
  }

  // ----- the cipher -----

  lemma RowIs(ek: seq<bv32>, nr: nat, r: nat, s: State)
    requires r <= nr && 4 * nr + 4 <= |ek|
    requires Column(ek[4 * r]) == s.c0 && Column(ek[4 * r + 1]) == s.c1 && Column(ek[4 * r + 2]) == s.c2 && Column(ek[4 * r + 3]) == s.c3
    ensures RoundKeys(ek, nr)[r] == s
  {
    hide Column;
  }

  lemma OneRow(ek: seq<bv32>, nr: nat, r: nat, s: State)
    requires r <= nr && 4 * nr + 4 <= |ek| && Holds(ek, 4 * r, [s.c0, s.c1, s.c2, s.c3])
    ensures RoundKeys(ek, nr)[r] == s
  {
    hide Holds, Column, RoundKeys;
    var p := [s.c0, s.c1, s.c2, s.c3];
    HoldsAt(ek, 4 * r, p, 0); HoldsAt(ek, 4 * r, p, 1); HoldsAt(ek, 4 * r, p, 2); HoldsAt(ek, 4 * r, p, 3);
    RowIs(ek, nr, r, s);
  }

  lemma HoldsPart(ek: seq<bv32>, i: nat, p: seq<Col>, j: nat, q: seq<Col>)
    requires Holds(ek, i, p) && j + |q| <= |p| && p[j..j + |q|] == q
    ensures Holds(ek, i + j, q)
  {
    hide Column;
    forall k | 0 <= k < |q| ensures Column(ek[i + j + k]) == q[k] {
      assert Column(ek[i + (j + k)]) == p[j + k];
    }
  }

  lemma TwoRows(ek: seq<bv32>, nr: nat, r: nat, s: State, t: State)
    requires r + 1 <= nr && 4 * nr + 4 <= |ek| && Holds(ek, 4 * r, [s.c0, s.c1, s.c2, s.c3, t.c0, t.c1, t.c2, t.c3])
    ensures RoundKeys(ek, nr)[r] == s && RoundKeys(ek, nr)[r + 1] == t
  {
    hide Holds, Column, RoundKeys;
    var p := [s.c0, s.c1, s.c2, s.c3, t.c0, t.c1, t.c2, t.c3];
    HoldsPart(ek, 4 * r, p, 0, [s.c0, s.c1, s.c2, s.c3]);
    HoldsPart(ek, 4 * r, p, 4, [t.c0, t.c1, t.c2, t.c3]);
    OneRow(ek, nr, r, s);
    OneRow(ek, nr, r + 1, t);
  }

  lemma ThreeRows(ek: seq<bv32>, nr: nat, r: nat, s: State, t: State, u: State)
    requires r + 2 <= nr && 4 * nr + 4 <= |ek|
    requires Holds(ek, 4 * r, [s.c0, s.c1, s.c2, s.c3, t.c0, t.c1]) && Holds(ek, 4 * r + 6, [t.c2, t.c3, u.c0, u.c1, u.c2, u.c3])
    ensures RoundKeys(ek, nr)[r] == s && RoundKeys(ek, nr)[r + 1] == t && RoundKeys(ek, nr)[r + 2] == u
  {
    hide Holds, Column, RoundKeys;
    var p, q := [s.c0, s.c1, s.c2, s.c3, t.c0, t.c1], [t.c2, t.c3, u.c0, u.c1, u.c2, u.c3];
    HoldsPart(ek, 4 * r, p, 0, [s.c0, s.c1, s.c2, s.c3]);
    HoldsAt(ek, 4 * r, p, 4); HoldsAt(ek, 4 * r, p, 5);
    HoldsAt(ek, 4 * r + 6, q, 0); HoldsAt(ek, 4 * r + 6, q, 1);
    HoldsPart(ek, 4 * r + 6, q, 2, [u.c0, u.c1, u.c2, u.c3]);
    OneRow(ek, nr, r, s);
    RowIs(ek, nr, r + 1, t);
    OneRow(ek, nr, r + 2, u);
  }

  ghost function Round(s: State, k: State): State {
    AddKey(MixColumns(Confuse(s)), k)
  }

  const PLAIN := State(Col(0x00, 0x11, 0x22, 0x33), Col(0x44, 0x55, 0x66, 0x77), Col(0x88, 0x99, 0xAA, 0xBB), Col(0xCC, 0xDD, 0xEE, 0xFF))

  const BLOCK: Block :=
    [0x00, 0x11, 0x22, 0x33, 0x44, 0x55, 0x66, 0x77, 0x88, 0x99, 0xAA, 0xBB, 0xCC, 0xDD, 0xEE, 0xFF]

  lemma LoadBlock()
    ensures Load(BLOCK) == PLAIN
  {}

  // The states under the 128-bit key.

  const S128_0 := State(Col(0x00, 0x10, 0x20, 0x30), Col(0x40, 0x50, 0x60, 0x70), Col(0x80, 0x90, 0xA0, 0xB0), Col(0xC0, 0xD0, 0xE0, 0xF0))
  const S128_1 := State(Col(0x89, 0xD8, 0x10, 0xE8), Col(0x85, 0x5A, 0xCE, 0x68), Col(0x2D, 0x18, 0x43, 0xD8), Col(0xCB, 0x12, 0x8F, 0xE4))
  const S128_2 := State(Col(0x49, 0x15, 0x59, 0x8F), Col(0x55, 0xE5, 0xD7, 0xA0), Col(0xDA, 0xCA, 0x94, 0xFA), Col(0x1F, 0x0A, 0x63, 0xF7))
  const S128_3 := State(Col(0xFA, 0x63, 0x6A, 0x28), Col(0x25, 0xB3, 0x39, 0xC9), Col(0x40, 0x66, 0x8A, 0x31), Col(0x57, 0x24, 0x4D, 0x17))
  const S128_4 := State(Col(0x24, 0x72, 0x40, 0x23), Col(0x69, 0x66, 0xB3, 0xFA), Col(0x6E, 0xD2, 0x75, 0x32), Col(0x88, 0x42, 0x5B, 0x6C))
  const S128_5 := State(Col(0xC8, 0x16, 0x77, 0xBC), Col(0x9B, 0x7A, 0xC9, 0x3B), Col(0x25, 0x02, 0x79, 0x92), Col(0xB0, 0x26, 0x19, 0x96))
  const S128_6 := State(Col(0xC6, 0x2F, 0xE1, 0x09), Col(0xF7, 0x5E, 0xED, 0xC3), Col(0xCC, 0x79, 0x39, 0x5D), Col(0x84, 0xF9, 0xCF, 0x5D))
  const S128_7 := State(Col(0xD1, 0x87, 0x6C, 0x0F), Col(0x79, 0xC4, 0x30, 0x0A), Col(0xB4, 0x55, 0x94, 0xAD), Col(0xD6, 0x6F, 0xF4, 0x1F))
  const S128_8 := State(Col(0xFD, 0xE3, 0xBA, 0xD2), Col(0x05, 0xE5, 0xD0, 0xD7), Col(0x35, 0x47, 0x96, 0x4E), Col(0xF1, 0xFE, 0x37, 0xF1))
  const S128_9 := State(Col(0xBD, 0x6E, 0x7C, 0x3D), Col(0xF2, 0xB5, 0x77, 0x9E), Col(0x0B, 0x61, 0x21, 0x6E), Col(0x8B, 0x10, 0xB6, 0x89))
  const S128_10 := State(Col(0x69, 0xC4, 0xE0, 0xD8), Col(0x6A, 0x7B, 0x04, 0x30), Col(0xD8, 0xCD, 0xB7, 0x80), Col(0x70, 0xB4, 0xC5, 0x5A))

  lemma Rounds128_0()
    ensures AddKey(PLAIN, R128_0) == S128_0
    ensures Round(S128_0, R128_1) == S128_1
    ensures Round(S128_1, R128_2) == S128_2
    ensures Round(S128_2, R128_3) == S128_3
  {
    hide Sub;
    Table();
  }

  lemma Rounds128_4()
    ensures Round(S128_3, R128_4) == S128_4
    ensures Round(S128_4, R128_5) == S128_5
    ensures Round(S128_5, R128_6) == S128_6
    ensures Round(S128_6, R128_7) == S128_7
  {
    hide Sub;
    Table();
  }

  lemma Rounds128_8()
    ensures Round(S128_7, R128_8) == S128_8
    ensures Round(S128_8, R128_9) == S128_9
    ensures AddKey(Confuse(S128_9), R128_10) == S128_10
  {
    hide Sub;
    Table();
  }

  lemma Trace128(ks: seq<State>)
    requires |ks| == 11
    requires ks[0] == R128_0 && ks[1] == R128_1 && ks[2] == R128_2 && ks[3] == R128_3 && ks[4] == R128_4 && ks[5] == R128_5
    requires ks[6] == R128_6 && ks[7] == R128_7 && ks[8] == R128_8 && ks[9] == R128_9 && ks[10] == R128_10
    ensures Cipher(ks, PLAIN) == S128_10
  {
    hide AddKey, MixColumns, Confuse, PLAIN, R128_0, R128_1, R128_2, R128_3, R128_4, R128_5, R128_6, R128_7, R128_8, R128_9, R128_10, S128_0, S128_1, S128_2, S128_3, S128_4, S128_5, S128_6, S128_7, S128_8, S128_9, S128_10;
    Rounds128_0();
    assert Forward(ks, 0, PLAIN) == S128_0;
    assert Forward(ks, 1, PLAIN) == S128_1;
    assert Forward(ks, 2, PLAIN) == S128_2;
    assert Forward(ks, 3, PLAIN) == S128_3;
    Rounds128_4();
    assert Forward(ks, 4, PLAIN) == S128_4;
    assert Forward(ks, 5, PLAIN) == S128_5;
    assert Forward(ks, 6, PLAIN) == S128_6;
    assert Forward(ks, 7, PLAIN) == S128_7;
    Rounds128_8();
    assert Forward(ks, 8, PLAIN) == S128_8;
    assert Forward(ks, 9, PLAIN) == S128_9;
  }

  lemma RoundKeys128(ek: seq<bv32>)
    requires |ek| >= 44
    requires Holds(ek, 0, K128_0) && Holds(ek, 4, K128_1) && Holds(ek, 8, K128_2) && Holds(ek, 12, K128_3)
    requires Holds(ek, 16, K128_4) && Holds(ek, 20, K128_5) && Holds(ek, 24, K128_6) && Holds(ek, 28, K128_7)
    requires Holds(ek, 32, K128_8) && Holds(ek, 36, K128_9) && Holds(ek, 40, K128_10)
    ensures RoundKeys(ek, 10)[0] == R128_0 && RoundKeys(ek, 10)[1] == R128_1 && RoundKeys(ek, 10)[2] == R128_2
    ensures RoundKeys(ek, 10)[3] == R128_3 && RoundKeys(ek, 10)[4] == R128_4 && RoundKeys(ek, 10)[5] == R128_5
    ensures RoundKeys(ek, 10)[6] == R128_6 && RoundKeys(ek, 10)[7] == R128_7 && RoundKeys(ek, 10)[8] == R128_8
    ensures RoundKeys(ek, 10)[9] == R128_9 && RoundKeys(ek, 10)[10] == R128_10
  {
    hide RoundKeys, Holds, Column, R128_0, R128_1, R128_2, R128_3, R128_4, R128_5, R128_6, R128_7, R128_8, R128_9, R128_10;
    OneRow(ek, 10, 0, R128_0); OneRow(ek, 10, 1, R128_1); OneRow(ek, 10, 2, R128_2); OneRow(ek, 10, 3, R128_3);
    OneRow(ek, 10, 4, R128_4); OneRow(ek, 10, 5, R128_5); OneRow(ek, 10, 6, R128_6); OneRow(ek, 10, 7, R128_7);
    OneRow(ek, 10, 8, R128_8); OneRow(ek, 10, 9, R128_9); OneRow(ek, 10, 10, R128_10);
  }

  const CIPHERTEXT_128: Block :=
    [0x69, 0xC4, 0xE0, 0xD8, 0x6A, 0x7B, 0x04, 0x30, 0xD8, 0xCD, 0xB7, 0x80, 0x70, 0xB4, 0xC5, 0x5A]

  lemma Unload128()
    ensures Unload(S128_10) == CIPHERTEXT_128
  {}

  /** The example of appendix C.1. */
  lemma Example128(ek: seq<bv32>, key: seq<Octet>)
    requires IsSchedule(ek, key, 128) && KeyGroup(K128_0, key)
    ensures |ek| >= 44 && Unload(Cipher(RoundKeys(ek, 10), Load(BLOCK))) == CIPHERTEXT_128
  {
    hide Holds, Cipher, PLAIN, IsSchedule, Load, Unload, BLOCK, CIPHERTEXT_128, S128_10, R128_0, R128_1, R128_2, R128_3, R128_4, R128_5, R128_6, R128_7, R128_8, R128_9, R128_10, K128_0, K128_1, K128_2, K128_3, K128_4, K128_5, K128_6, K128_7, K128_8, K128_9, K128_10;
    ScheduleSize(ek, key, 128);
    Schedule128(ek, key);
    RoundKeys128(ek);
    Trace128(RoundKeys(ek, 10));
    LoadBlock();
    Unload128();
  }

  // The states under the 192-bit key.

  const S192_0 := State(Col(0x00, 0x10, 0x20, 0x30), Col(0x40, 0x50, 0x60, 0x70), Col(0x80, 0x90, 0xA0, 0xB0), Col(0xC0, 0xD0, 0xE0, 0xF0))
  const S192_1 := State(Col(0x4F, 0x63, 0x76, 0x06), Col(0x43, 0xE0, 0xAA, 0x85), Col(0xAF, 0xF8, 0xC9, 0xD0), Col(0x41, 0xFA, 0x0D, 0xE4))
  const S192_2 := State(Col(0xCB, 0x02, 0x81, 0x8C), Col(0x17, 0xD2, 0xAF, 0x9C), Col(0x62, 0xAA, 0x64, 0x42), Col(0x8B, 0xB2, 0x5F, 0xD7))
  const S192_3 := State(Col(0xF7, 0x5C, 0x77, 0x78), Col(0xA3, 0x27, 0xC8, 0xED), Col(0x8C, 0xFE, 0xBF, 0xC1), Col(0xA6, 0xC3, 0x7F, 0x53))
  const S192_4 := State(Col(0x22, 0xFF, 0xC9, 0x16), Col(0xA8, 0x14, 0x74, 0x41), Col(0x64, 0x96, 0xF1, 0x9C), Col(0x64, 0xAE, 0x25, 0x32))
  const S192_5 := State(Col(0x80, 0x12, 0x1E, 0x07), Col(0x76, 0xFD, 0x1D, 0x8A), Col(0x8D, 0x8C, 0x31, 0xBC), Col(0x96, 0x5D, 0x1F, 0xEE))
  const S192_6 := State(Col(0x67, 0x1E, 0xF1, 0xFD), Col(0x4E, 0x2A, 0x1E, 0x03), Col(0xDF, 0xDC, 0xB1, 0xEF), Col(0x3D, 0x78, 0x9B, 0x30))
  const S192_7 := State(Col(0x0C, 0x03, 0x70, 0xD0), Col(0x0C, 0x01, 0xE6, 0x22), Col(0x16, 0x6B, 0x8A, 0xCC), Col(0xD6, 0xDB, 0x3A, 0x2C))
  const S192_8 := State(Col(0x72, 0x55, 0xDA, 0xD3), Col(0x0F, 0xB8, 0x03, 0x10), Col(0xE0, 0x0D, 0x6C, 0x6B), Col(0x40, 0xD0, 0x52, 0x7C))
  const S192_9 := State(Col(0xA9, 0x06, 0xB2, 0x54), Col(0x96, 0x8A, 0xF4, 0xE9), Col(0xB4, 0xBD, 0xB2, 0xD2), Col(0xF0, 0xC4, 0x43, 0x36))
  const S192_10 := State(Col(0x88, 0xEC, 0x93, 0x0E), Col(0xF5, 0xE7, 0xE4, 0xB6), Col(0xCC, 0x32, 0xF4, 0xC9), Col(0x06, 0xD2, 0x94, 0x14))
  const S192_11 := State(Col(0xAF, 0xB7, 0x3E, 0xEB), Col(0x1C, 0xD1, 0xB8, 0x51), Col(0x62, 0x28, 0x0F, 0x27), Col(0xFB, 0x20, 0xD5, 0x85))
  const S192_12 := State(Col(0xDD, 0xA9, 0x7C, 0xA4), Col(0x86, 0x4C, 0xDF, 0xE0), Col(0x6E, 0xAF, 0x70, 0xA0), Col(0xEC, 0x0D, 0x71, 0x91))

  lemma Rounds192_0()
    ensures AddKey(PLAIN, R192_0) == S192_0
    ensures Round(S192_0, R192_1) == S192_1
    ensures Round(S192_1, R192_2) == S192_2
    ensures Round(S192_2, R192_3) == S192_3
  {
    hide Sub;
    Table();
  }

  lemma Rounds192_4()
    ensures Round(S192_3, R192_4) == S192_4
    ensures Round(S192_4, R192_5) == S192_5
    ensures Round(S192_5, R192_6) == S192_6
    ensures Round(S192_6, R192_7) == S192_7
  {
    hide Sub;
    Table();
  }

  lemma Rounds192_8()
    ensures Round(S192_7, R192_8) == S192_8
    ensures Round(S192_8, R192_9) == S192_9
    ensures Round(S192_9, R192_10) == S192_10
    ensures Round(S192_10, R192_11) == S192_11
  {
    hide Sub;
    Table();
  }

  lemma Rounds192_12()
    ensures AddKey(Confuse(S192_11), R192_12) == S192_12
  {
    hide Sub;
    Table();
  }

  lemma Trace192(ks: seq<State>)
    requires |ks| == 13
    requires ks[0] == R192_0 && ks[1] == R192_1 && ks[2] == R192_2 && ks[3] == R192_3 && ks[4] == R192_4 && ks[5] == R192_5
    requires ks[6] == R192_6 && ks[7] == R192_7 && ks[8] == R192_8 && ks[9] == R192_9 && ks[10] == R192_10 && ks[11] == R192_11
    requires ks[12] == R192_12
    ensures Cipher(ks, PLAIN) == S192_12
  {
    hide AddKey, MixColumns, Confuse, PLAIN, R192_0, R192_1, R192_2, R192_3, R192_4, R192_5, R192_6, R192_7, R192_8, R192_9, R192_10, R192_11, R192_12, S192_0, S192_1, S192_2, S192_3, S192_4, S192_5, S192_6, S192_7, S192_8, S192_9, S192_10, S192_11, S192_12;
    Rounds192_0();
    assert Forward(ks, 0, PLAIN) == S192_0;
    assert Forward(ks, 1, PLAIN) == S192_1;
    assert Forward(ks, 2, PLAIN) == S192_2;
    assert Forward(ks, 3, PLAIN) == S192_3;
    Rounds192_4();
    assert Forward(ks, 4, PLAIN) == S192_4;
    assert Forward(ks, 5, PLAIN) == S192_5;
    assert Forward(ks, 6, PLAIN) == S192_6;
    assert Forward(ks, 7, PLAIN) == S192_7;
    Rounds192_8();
    assert Forward(ks, 8, PLAIN) == S192_8;
    assert Forward(ks, 9, PLAIN) == S192_9;
    assert Forward(ks, 10, PLAIN) == S192_10;
    assert Forward(ks, 11, PLAIN) == S192_11;
    Rounds192_12();
  }

  lemma RoundKeys192(ek: seq<bv32>)
    requires |ek| >= 52
    requires Holds(ek, 0, K192_0) && Holds(ek, 6, K192_1) && Holds(ek, 12, K192_2) && Holds(ek, 18, K192_3)
    requires Holds(ek, 24, K192_4) && Holds(ek, 30, K192_5) && Holds(ek, 36, K192_6) && Holds(ek, 42, K192_7)
    requires Holds(ek, 48, K192_8)
    ensures RoundKeys(ek, 12)[0] == R192_0 && RoundKeys(ek, 12)[1] == R192_1 && RoundKeys(ek, 12)[2] == R192_2
    ensures RoundKeys(ek, 12)[3] == R192_3 && RoundKeys(ek, 12)[4] == R192_4 && RoundKeys(ek, 12)[5] == R192_5
    ensures RoundKeys(ek, 12)[6] == R192_6 && RoundKeys(ek, 12)[7] == R192_7 && RoundKeys(ek, 12)[8] == R192_8
    ensures RoundKeys(ek, 12)[9] == R192_9 && RoundKeys(ek, 12)[10] == R192_10 && RoundKeys(ek, 12)[11] == R192_11
    ensures RoundKeys(ek, 12)[12] == R192_12
  {
    hide RoundKeys, Holds, Column, R192_0, R192_1, R192_2, R192_3, R192_4, R192_5, R192_6, R192_7, R192_8, R192_9, R192_10, R192_11, R192_12;
    ThreeRows(ek, 12, 0, R192_0, R192_1, R192_2);
    ThreeRows(ek, 12, 3, R192_3, R192_4, R192_5);
    ThreeRows(ek, 12, 6, R192_6, R192_7, R192_8);
    ThreeRows(ek, 12, 9, R192_9, R192_10, R192_11);
    OneRow(ek, 12, 12, R192_12);
  }

  const CIPHERTEXT_192: Block :=
    [0xDD, 0xA9, 0x7C, 0xA4, 0x86, 0x4C, 0xDF, 0xE0, 0x6E, 0xAF, 0x70, 0xA0, 0xEC, 0x0D, 0x71, 0x91]

  lemma Unload192()
    ensures Unload(S192_12) == CIPHERTEXT_192
  {}

  /** The example of appendix C.2. */
  lemma Example192(ek: seq<bv32>, key: seq<Octet>)
    requires IsSchedule(ek, key, 192) && KeyGroup(K192_0, key)
    ensures |ek| >= 52 && Unload(Cipher(RoundKeys(ek, 12), Load(BLOCK))) == CIPHERTEXT_192
  {
    hide Holds, Cipher, PLAIN, IsSchedule, Load, Unload, BLOCK, CIPHERTEXT_192, S192_12, R192_0, R192_1, R192_2, R192_3, R192_4, R192_5, R192_6, R192_7, R192_8, R192_9, R192_10, R192_11, R192_12, K192_0, K192_1, K192_2, K192_3, K192_4, K192_5, K192_6, K192_7, K192_8;
    ScheduleSize(ek, key, 192);
    Schedule192(ek, key);
    RoundKeys192(ek);
    Trace192(RoundKeys(ek, 12));
    LoadBlock();
    Unload192();
  }

  // The states under the 256-bit key.

  const S256_0 := State(Col(0x00, 0x10, 0x20, 0x30), Col(0x40, 0x50, 0x60, 0x70), Col(0x80, 0x90, 0xA0, 0xB0), Col(0xC0, 0xD0, 0xE0, 0xF0))
  const S256_1 := State(Col(0x4F, 0x63, 0x76, 0x06), Col(0x43, 0xE0, 0xAA, 0x85), Col(0xEF, 0xA7, 0x21, 0x32), Col(0x01, 0xA4, 0xE7, 0x05))
  const S256_2 := State(Col(0x18, 0x59, 0xFB, 0xC2), Col(0x8A, 0x1C, 0x00, 0xA0), Col(0x78, 0xED, 0x8A, 0xAD), Col(0xC4, 0x2F, 0x61, 0x09))
  const S256_3 := State(Col(0x97, 0x5C, 0x66, 0xC1), Col(0xCB, 0x9F, 0x3F, 0xA8), Col(0xA9, 0x3A, 0x28, 0xDF), Col(0x8E, 0xE1, 0x0F, 0x63))
  const S256_4 := State(Col(0x1C, 0x05, 0xF2, 0x71), Col(0xA4, 0x17, 0xE0, 0x4F), Col(0xF9, 0x21, 0xC5, 0xC1), Col(0x04, 0x70, 0x15, 0x54))
  const S256_5 := State(Col(0xC3, 0x57, 0xAA, 0xE1), Col(0x1B, 0x45, 0xB7, 0xB0), Col(0xA2, 0xC7, 0xBD, 0x28), Col(0xA8, 0xDC, 0x99, 0xFA))
  const S256_6 := State(Col(0x7F, 0x07, 0x41, 0x43), Col(0xCB, 0x4E, 0x24, 0x3E), Col(0xC1, 0x0C, 0x81, 0x5D), Col(0x83, 0x75, 0xD5, 0x4C))
  const S256_7 := State(Col(0xD6, 0x53, 0xA4, 0x69), Col(0x6C, 0xA0, 0xBC, 0x0F), Col(0x5A, 0xCA, 0xAB, 0x5D), Col(0xB9, 0x6C, 0x5E, 0x7D))
  const S256_8 := State(Col(0x5A, 0xA8, 0x58, 0x39), Col(0x5F, 0xD2, 0x8D, 0x7D), Col(0x05, 0xE1, 0xA3, 0x88), Col(0x68, 0xF3, 0xB9, 0xC5))
  const S256_9 := State(Col(0x4A, 0x82, 0x48, 0x51), Col(0xC5, 0x7E, 0x7E, 0x47), Col(0x64, 0x3D, 0xE5, 0x0C), Col(0x2A, 0xF3, 0xE8, 0xC9))
  const S256_10 := State(Col(0xC1, 0x49, 0x07, 0xF6), Col(0xCA, 0x3B, 0x3A, 0xA0), Col(0x70, 0xE9, 0xAA, 0x31), Col(0x3B, 0x52, 0xB5, 0xEC))
  const S256_11 := State(Col(0x5F, 0x9C, 0x6A, 0xBF), Col(0xBA, 0xC6, 0x34, 0xAA), Col(0x50, 0x40, 0x9F, 0xA7), Col(0x66, 0x67, 0x76, 0x53))
  const S256_12 := State(Col(0x51, 0x66, 0x04, 0x95), Col(0x43, 0x53, 0x95, 0x03), Col(0x14, 0xFB, 0x86, 0xE4), Col(0x01, 0x92, 0x25, 0x21))
  const S256_13 := State(Col(0x62, 0x7B, 0xCE, 0xB9), Col(0x99, 0x9D, 0x5A, 0xAA), Col(0xC9, 0x45, 0xEC, 0xF4), Col(0x23, 0xF5, 0x6D, 0xA5))
  const S256_14 := State(Col(0x8E, 0xA2, 0xB7, 0xCA), Col(0x51, 0x67, 0x45, 0xBF), Col(0xEA, 0xFC, 0x49, 0x90), Col(0x4B, 0x49, 0x60, 0x89))

  lemma Rounds256_0()
    ensures AddKey(PLAIN, R256_0) == S256_0
    ensures Round(S256_0, R256_1) == S256_1
    ensures Round(S256_1, R256_2) == S256_2
    ensures Round(S256_2, R256_3) == S256_3
  {
    hide Sub;
    Table();
  }

  lemma Rounds256_4()
    ensures Round(S256_3, R256_4) == S256_4
    ensures Round(S256_4, R256_5) == S256_5
    ensures Round(S256_5, R256_6) == S256_6
    ensures Round(S256_6, R256_7) == S256_7
  {
    hide Sub;
    Table();
  }

  lemma Rounds256_8()
    ensures Round(S256_7, R256_8) == S256_8
    ensures Round(S256_8, R256_9) == S256_9
    ensures Round(S256_9, R256_10) == S256_10
    ensures Round(S256_10, R256_11) == S256_11
  {
    hide Sub;
    Table();
  }

  lemma Rounds256_12()
    ensures Round(S256_11, R256_12) == S256_12
    ensures Round(S256_12, R256_13) == S256_13
    ensures AddKey(Confuse(S256_13), R256_14) == S256_14
  {
    hide Sub;
    Table();
  }

  lemma Trace256(ks: seq<State>)
    requires |ks| == 15
    requires ks[0] == R256_0 && ks[1] == R256_1 && ks[2] == R256_2 && ks[3] == R256_3 && ks[4] == R256_4 && ks[5] == R256_5
    requires ks[6] == R256_6 && ks[7] == R256_7 && ks[8] == R256_8 && ks[9] == R256_9 && ks[10] == R256_10 && ks[11] == R256_11
    requires ks[12] == R256_12 && ks[13] == R256_13 && ks[14] == R256_14
    ensures Cipher(ks, PLAIN) == S256_14
  {
    hide AddKey, MixColumns, Confuse, PLAIN, R256_0, R256_1, R256_2, R256_3, R256_4, R256_5, R256_6, R256_7, R256_8, R256_9, R256_10, R256_11, R256_12, R256_13, R256_14, S256_0, S256_1, S256_2, S256_3, S256_4, S256_5, S256_6, S256_7, S256_8, S256_9, S256_10, S256_11, S256_12, S256_13, S256_14;
    Rounds256_0();
    assert Forward(ks, 0, PLAIN) == S256_0;
    assert Forward(ks, 1, PLAIN) == S256_1;
    assert Forward(ks, 2, PLAIN) == S256_2;
    assert Forward(ks, 3, PLAIN) == S256_3;
    Rounds256_4();
    assert Forward(ks, 4, PLAIN) == S256_4;
    assert Forward(ks, 5, PLAIN) == S256_5;
    assert Forward(ks, 6, PLAIN) == S256_6;
    assert Forward(ks, 7, PLAIN) == S256_7;
    Rounds256_8();
    assert Forward(ks, 8, PLAIN) == S256_8;
    assert Forward(ks, 9, PLAIN) == S256_9;
    assert Forward(ks, 10, PLAIN) == S256_10;
    assert Forward(ks, 11, PLAIN) == S256_11;
    Rounds256_12();
    assert Forward(ks, 12, PLAIN) == S256_12;
    assert Forward(ks, 13, PLAIN) == S256_13;
  }

  lemma RoundKeys256(ek: seq<bv32>)
    requires |ek| >= 60
    requires Holds(ek, 0, K256_0) && Holds(ek, 8, K256_1) && Holds(ek, 16, K256_2) && Holds(ek, 24, K256_3)
    requires Holds(ek, 32, K256_4) && Holds(ek, 40, K256_5) && Holds(ek, 48, K256_6) && Holds(ek, 56, K256_7)
    ensures RoundKeys(ek, 14)[0] == R256_0 && RoundKeys(ek, 14)[1] == R256_1 && RoundKeys(ek, 14)[2] == R256_2
    ensures RoundKeys(ek, 14)[3] == R256_3 && RoundKeys(ek, 14)[4] == R256_4 && RoundKeys(ek, 14)[5] == R256_5
    ensures RoundKeys(ek, 14)[6] == R256_6 && RoundKeys(ek, 14)[7] == R256_7 && RoundKeys(ek, 14)[8] == R256_8
    ensures RoundKeys(ek, 14)[9] == R256_9 && RoundKeys(ek, 14)[10] == R256_10 && RoundKeys(ek, 14)[11] == R256_11
    ensures RoundKeys(ek, 14)[12] == R256_12 && RoundKeys(ek, 14)[13] == R256_13 && RoundKeys(ek, 14)[14] == R256_14
  {
    hide RoundKeys, Holds, Column, R256_0, R256_1, R256_2, R256_3, R256_4, R256_5, R256_6, R256_7, R256_8, R256_9, R256_10, R256_11, R256_12, R256_13, R256_14;
    TwoRows(ek, 14, 0, R256_0, R256_1);
    TwoRows(ek, 14, 2, R256_2, R256_3);
    TwoRows(ek, 14, 4, R256_4, R256_5);
    TwoRows(ek, 14, 6, R256_6, R256_7);
    TwoRows(ek, 14, 8, R256_8, R256_9);
    TwoRows(ek, 14, 10, R256_10, R256_11);
    TwoRows(ek, 14, 12, R256_12, R256_13);
    OneRow(ek, 14, 14, R256_14);
  }

  const CIPHERTEXT_256: Block :=
    [0x8E, 0xA2, 0xB7, 0xCA, 0x51, 0x67, 0x45, 0xBF, 0xEA, 0xFC, 0x49, 0x90, 0x4B, 0x49, 0x60, 0x89]

  lemma Unload256()
    ensures Unload(S256_14) == CIPHERTEXT_256
  {}

  /** The example of appendix C.3. */
  lemma Example256(ek: seq<bv32>, key: seq<Octet>)
    requires IsSchedule(ek, key, 256) && KeyGroup(K256_0, key)
    ensures |ek| >= 60 && Unload(Cipher(RoundKeys(ek, 14), Load(BLOCK))) == CIPHERTEXT_256
  {
    hide Holds, Cipher, PLAIN, IsSchedule, Load, Unload, BLOCK, CIPHERTEXT_256, S256_14, R256_0, R256_1, R256_2, R256_3, R256_4, R256_5, R256_6, R256_7, R256_8, R256_9, R256_10, R256_11, R256_12, R256_13, R256_14, K256_0, K256_1, K256_2, K256_3, K256_4, K256_5, K256_6, K256_7;
    ScheduleSize(ek, key, 256);
    Schedule256(ek, key);
    RoundKeys256(ek);
    Trace256(RoundKeys(ek, 14));
    LoadBlock();
    Unload256();
  }

  lemma ScheduleSize(ek: seq<bv32>, key: seq<Octet>, keybits: nat)
    requires IsSchedule(ek, key, keybits)
    ensures |ek| == BUFFER
  {}
}
