/** Examples of the standards, for every cipher that has the values needed: a data unit of 17 octets under
    XTS (vector 15 of IEEE Std 1619-2007), the first example of CCM (appendix C.1 of SP 800-38C), 40 octets
    under CMAC (RFC 4493). */
module ModeAnswers {
  import opened Octets
  import opened BlockPadding
  import Xts
  import Cmac
  import Ccm
  import CtrMode

  function Sum(a: Octet, b: Octet): Octet {
    a ^ b
  }

  lemma XorAt(s: seq<Octet>, t: seq<Octet>, i: nat)
    requires i < |s| <= |t|
    ensures Xor(s, t)[i] == Sum(s[i], t[i])
  {}

  lemma XorFour(a: Octet, b: Octet, c: Octet, d: Octet, e: Octet, f: Octet, g: Octet, h: Octet)
    ensures Xor([a, b, c, d], [e, f, g, h]) == [Sum(a, e), Sum(b, f), Sum(c, g), Sum(d, h)]
  {
    hide Sum, Xor;
    var s, t := [a, b, c, d], [e, f, g, h];
    XorAt(s, t, 0);
    XorAt(s, t, 1);
    XorAt(s, t, 2);
    XorAt(s, t, 3);
  }

  lemma XorParts(s: seq<Octet>, s': seq<Octet>, t: seq<Octet>, t': seq<Octet>)
    requires |s| == |t| && |s'| == |t'|
    ensures Xor(s + s', t + t') == Xor(s, t) + Xor(s', t')
  {}

  lemma XorQuarters(a: seq<Octet>, b: seq<Octet>, c: seq<Octet>, d: seq<Octet>, e: seq<Octet>, f: seq<Octet>, g: seq<Octet>, h: seq<Octet>)
    requires |a| == |e| && |b| == |f| && |c| == |g| && |d| == |h|
    ensures Xor(a + b + c + d, e + f + g + h) == Xor(a, e) + Xor(b, f) + Xor(c, g) + Xor(d, h)
  {
    hide Xor;
    XorParts(a, b, e, f);
    XorParts(a + b, c, e + f, g);
    XorParts(a + b + c, d, e + f + g, h);
  }

  // ----- XTS -----

  const T0: Block := [0x77, 0x5D, 0x1B, 0xE2, 0x0E, 0x07, 0x01, 0x5E, 0xD7, 0x58, 0x54, 0x59, 0x14, 0x4A, 0x09, 0xE1]
  const T1: Block := [0x69, 0xBA, 0x36, 0xC4, 0x1D, 0x0E, 0x02, 0xBC, 0xAE, 0xB1, 0xA8, 0xB2, 0x28, 0x94, 0x12, 0xC2]
  const M0: Block := [0x77, 0x5C, 0x19, 0xE1, 0x0A, 0x02, 0x07, 0x59, 0xDF, 0x51, 0x5E, 0x52, 0x18, 0x47, 0x07, 0xEE]
  const E0: Block := [0x9A, 0xE2, 0x86, 0x4E, 0xEA, 0x5A, 0x6E, 0x34, 0xA4, 0x5E, 0xB2, 0x12, 0xF1, 0x97, 0x8B, 0xAA]
  const CC: Block := [0xED, 0xBF, 0x9D, 0xAC, 0xE4, 0x5D, 0x6F, 0x6A, 0x73, 0x06, 0xE6, 0x4B, 0xE5, 0xDD, 0x82, 0x4B]
  const M1: Block := [0x79, 0x05, 0xAB, 0x68, 0xF9, 0x53, 0x6D, 0xD6, 0xDD, 0xB7, 0x4E, 0xF9, 0xCD, 0x49, 0x90, 0x89]
  const E1: Block := [0x05, 0xAC, 0x13, 0x1F, 0x5B, 0x7F, 0x50, 0x91, 0x93, 0xC4, 0x31, 0xD2, 0x35, 0x73, 0xD8, 0xCB]
  const C1: Block := [0x6C, 0x16, 0x25, 0xDB, 0x46, 0x71, 0x52, 0x2D, 0x3D, 0x75, 0x99, 0x60, 0x1D, 0xE7, 0xCA, 0x09]
  const HEAD: Block := [0x00, 0x01, 0x02, 0x03, 0x04, 0x05, 0x06, 0x07, 0x08, 0x09, 0x0A, 0x0B, 0x0C, 0x0D, 0x0E, 0x0F]
  const TAIL: Block := [0x10, 0xBF, 0x9D, 0xAC, 0xE4, 0x5D, 0x6F, 0x6A, 0x73, 0x06, 0xE6, 0x4B, 0xE5, 0xDD, 0x82, 0x4B]

  lemma HeadMask()
    ensures Xor(HEAD, T0) == M0
  {
    hide Xor, Sum;
    HeadMaskOctets();
    XorFour(0x00, 0x01, 0x02, 0x03, 0x77, 0x5D, 0x1B, 0xE2);
    XorFour(0x04, 0x05, 0x06, 0x07, 0x0E, 0x07, 0x01, 0x5E);
    XorFour(0x08, 0x09, 0x0A, 0x0B, 0xD7, 0x58, 0x54, 0x59);
    XorFour(0x0C, 0x0D, 0x0E, 0x0F, 0x14, 0x4A, 0x09, 0xE1);
    XorQuarters([0x00, 0x01, 0x02, 0x03], [0x04, 0x05, 0x06, 0x07], [0x08, 0x09, 0x0A, 0x0B], [0x0C, 0x0D, 0x0E, 0x0F],
                [0x77, 0x5D, 0x1B, 0xE2], [0x0E, 0x07, 0x01, 0x5E], [0xD7, 0x58, 0x54, 0x59], [0x14, 0x4A, 0x09, 0xE1]);
    assert [0x00, 0x01, 0x02, 0x03] + [0x04, 0x05, 0x06, 0x07] + [0x08, 0x09, 0x0A, 0x0B] + [0x0C, 0x0D, 0x0E, 0x0F] == HEAD;
    assert [0x77, 0x5D, 0x1B, 0xE2] + [0x0E, 0x07, 0x01, 0x5E] + [0xD7, 0x58, 0x54, 0x59] + [0x14, 0x4A, 0x09, 0xE1] == T0;
    assert [0x77, 0x5C, 0x19, 0xE1] + [0x0A, 0x02, 0x07, 0x59] + [0xDF, 0x51, 0x5E, 0x52] + [0x18, 0x47, 0x07, 0xEE] == M0;
  }

  lemma HeadMaskOctets()
    ensures Sum(0x00, 0x77) == 0x77 && Sum(0x01, 0x5D) == 0x5C && Sum(0x02, 0x1B) == 0x19 && Sum(0x03, 0xE2) == 0xE1
    ensures Sum(0x04, 0x0E) == 0x0A && Sum(0x05, 0x07) == 0x02 && Sum(0x06, 0x01) == 0x07 && Sum(0x07, 0x5E) == 0x59
    ensures Sum(0x08, 0xD7) == 0xDF && Sum(0x09, 0x58) == 0x51 && Sum(0x0A, 0x54) == 0x5E && Sum(0x0B, 0x59) == 0x52
    ensures Sum(0x0C, 0x14) == 0x18 && Sum(0x0D, 0x4A) == 0x47 && Sum(0x0E, 0x09) == 0x07 && Sum(0x0F, 0xE1) == 0xEE
  {}

  lemma HeadUnmask()
    ensures Xor(E0, T0) == CC
  {
    hide Xor, Sum;
    HeadUnmaskOctets();
    XorFour(0x9A, 0xE2, 0x86, 0x4E, 0x77, 0x5D, 0x1B, 0xE2);
    XorFour(0xEA, 0x5A, 0x6E, 0x34, 0x0E, 0x07, 0x01, 0x5E);
    XorFour(0xA4, 0x5E, 0xB2, 0x12, 0xD7, 0x58, 0x54, 0x59);
    XorFour(0xF1, 0x97, 0x8B, 0xAA, 0x14, 0x4A, 0x09, 0xE1);
    XorQuarters([0x9A, 0xE2, 0x86, 0x4E], [0xEA, 0x5A, 0x6E, 0x34], [0xA4, 0x5E, 0xB2, 0x12], [0xF1, 0x97, 0x8B, 0xAA],
                [0x77, 0x5D, 0x1B, 0xE2], [0x0E, 0x07, 0x01, 0x5E], [0xD7, 0x58, 0x54, 0x59], [0x14, 0x4A, 0x09, 0xE1]);
    assert [0x9A, 0xE2, 0x86, 0x4E] + [0xEA, 0x5A, 0x6E, 0x34] + [0xA4, 0x5E, 0xB2, 0x12] + [0xF1, 0x97, 0x8B, 0xAA] == E0;
    assert [0x77, 0x5D, 0x1B, 0xE2] + [0x0E, 0x07, 0x01, 0x5E] + [0xD7, 0x58, 0x54, 0x59] + [0x14, 0x4A, 0x09, 0xE1] == T0;
    assert [0xED, 0xBF, 0x9D, 0xAC] + [0xE4, 0x5D, 0x6F, 0x6A] + [0x73, 0x06, 0xE6, 0x4B] + [0xE5, 0xDD, 0x82, 0x4B] == CC;
  }

  lemma HeadUnmaskOctets()
    ensures Sum(0x9A, 0x77) == 0xED && Sum(0xE2, 0x5D) == 0xBF && Sum(0x86, 0x1B) == 0x9D && Sum(0x4E, 0xE2) == 0xAC
    ensures Sum(0xEA, 0x0E) == 0xE4 && Sum(0x5A, 0x07) == 0x5D && Sum(0x6E, 0x01) == 0x6F && Sum(0x34, 0x5E) == 0x6A
    ensures Sum(0xA4, 0xD7) == 0x73 && Sum(0x5E, 0x58) == 0x06 && Sum(0xB2, 0x54) == 0xE6 && Sum(0x12, 0x59) == 0x4B
    ensures Sum(0xF1, 0x14) == 0xE5 && Sum(0x97, 0x4A) == 0xDD && Sum(0x8B, 0x09) == 0x82 && Sum(0xAA, 0xE1) == 0x4B
  {}

  lemma TailMask()
    ensures Xor(TAIL, T1) == M1
  {
    hide Xor, Sum;
    TailMaskOctets();
    XorFour(0x10, 0xBF, 0x9D, 0xAC, 0x69, 0xBA, 0x36, 0xC4);
    XorFour(0xE4, 0x5D, 0x6F, 0x6A, 0x1D, 0x0E, 0x02, 0xBC);
    XorFour(0x73, 0x06, 0xE6, 0x4B, 0xAE, 0xB1, 0xA8, 0xB2);
    XorFour(0xE5, 0xDD, 0x82, 0x4B, 0x28, 0x94, 0x12, 0xC2);
    XorQuarters([0x10, 0xBF, 0x9D, 0xAC], [0xE4, 0x5D, 0x6F, 0x6A], [0x73, 0x06, 0xE6, 0x4B], [0xE5, 0xDD, 0x82, 0x4B],
                [0x69, 0xBA, 0x36, 0xC4], [0x1D, 0x0E, 0x02, 0xBC], [0xAE, 0xB1, 0xA8, 0xB2], [0x28, 0x94, 0x12, 0xC2]);
    assert [0x10, 0xBF, 0x9D, 0xAC] + [0xE4, 0x5D, 0x6F, 0x6A] + [0x73, 0x06, 0xE6, 0x4B] + [0xE5, 0xDD, 0x82, 0x4B] == TAIL;
    assert [0x69, 0xBA, 0x36, 0xC4] + [0x1D, 0x0E, 0x02, 0xBC] + [0xAE, 0xB1, 0xA8, 0xB2] + [0x28, 0x94, 0x12, 0xC2] == T1;
    assert [0x79, 0x05, 0xAB, 0x68] + [0xF9, 0x53, 0x6D, 0xD6] + [0xDD, 0xB7, 0x4E, 0xF9] + [0xCD, 0x49, 0x90, 0x89] == M1;
  }

  lemma TailMaskOctets()
    ensures Sum(0x10, 0x69) == 0x79 && Sum(0xBF, 0xBA) == 0x05 && Sum(0x9D, 0x36) == 0xAB && Sum(0xAC, 0xC4) == 0x68
    ensures Sum(0xE4, 0x1D) == 0xF9 && Sum(0x5D, 0x0E) == 0x53 && Sum(0x6F, 0x02) == 0x6D && Sum(0x6A, 0xBC) == 0xD6
    ensures Sum(0x73, 0xAE) == 0xDD && Sum(0x06, 0xB1) == 0xB7 && Sum(0xE6, 0xA8) == 0x4E && Sum(0x4B, 0xB2) == 0xF9
    ensures Sum(0xE5, 0x28) == 0xCD && Sum(0xDD, 0x94) == 0x49 && Sum(0x82, 0x12) == 0x90 && Sum(0x4B, 0xC2) == 0x89
  {}

  lemma TailUnmask()
    ensures Xor(E1, T1) == C1
  {
    hide Xor, Sum;
    TailUnmaskOctets();
    XorFour(0x05, 0xAC, 0x13, 0x1F, 0x69, 0xBA, 0x36, 0xC4);
    XorFour(0x5B, 0x7F, 0x50, 0x91, 0x1D, 0x0E, 0x02, 0xBC);
    XorFour(0x93, 0xC4, 0x31, 0xD2, 0xAE, 0xB1, 0xA8, 0xB2);
    XorFour(0x35, 0x73, 0xD8, 0xCB, 0x28, 0x94, 0x12, 0xC2);
    XorQuarters([0x05, 0xAC, 0x13, 0x1F], [0x5B, 0x7F, 0x50, 0x91], [0x93, 0xC4, 0x31, 0xD2], [0x35, 0x73, 0xD8, 0xCB],
                [0x69, 0xBA, 0x36, 0xC4], [0x1D, 0x0E, 0x02, 0xBC], [0xAE, 0xB1, 0xA8, 0xB2], [0x28, 0x94, 0x12, 0xC2]);
    assert [0x05, 0xAC, 0x13, 0x1F] + [0x5B, 0x7F, 0x50, 0x91] + [0x93, 0xC4, 0x31, 0xD2] + [0x35, 0x73, 0xD8, 0xCB] == E1;
    assert [0x69, 0xBA, 0x36, 0xC4] + [0x1D, 0x0E, 0x02, 0xBC] + [0xAE, 0xB1, 0xA8, 0xB2] + [0x28, 0x94, 0x12, 0xC2] == T1;
    assert [0x6C, 0x16, 0x25, 0xDB] + [0x46, 0x71, 0x52, 0x2D] + [0x3D, 0x75, 0x99, 0x60] + [0x1D, 0xE7, 0xCA, 0x09] == C1;
  }

  lemma TailUnmaskOctets()
    ensures Sum(0x05, 0x69) == 0x6C && Sum(0xAC, 0xBA) == 0x16 && Sum(0x13, 0x36) == 0x25 && Sum(0x1F, 0xC4) == 0xDB
    ensures Sum(0x5B, 0x1D) == 0x46 && Sum(0x7F, 0x0E) == 0x71 && Sum(0x50, 0x02) == 0x52 && Sum(0x91, 0xBC) == 0x2D
    ensures Sum(0x93, 0xAE) == 0x3D && Sum(0xC4, 0xB1) == 0x75 && Sum(0x31, 0xA8) == 0x99 && Sum(0xD2, 0xB2) == 0x60
    ensures Sum(0x35, 0x28) == 0x1D && Sum(0x73, 0x94) == 0xE7 && Sum(0xD8, 0x12) == 0xCA && Sum(0xCB, 0xC2) == 0x09
  {}

  lemma NextTweak()
    ensures Xts.Tweak(T0, 0) == T0 && Xts.Tweak(T0, 1) == T1
  {
    assert Xts.DoubleBlock(T0) == T1;
  }

  /** The tweak T0 is that of the data unit in the vector, M0 and M1 are what its key is applied to. */
  lemma XtsExample(c: BlockCipher)
    requires c.encrypt(M0) == E0 && c.encrypt(M1) == E1
    ensures Xts.Xts(c, Encrypt, T0, HEAD + [0x10])
            == [0x6C, 0x16, 0x25, 0xDB, 0x46, 0x71, 0x52, 0x2D, 0x3D, 0x75, 0x99, 0x60, 0x1D, 0xE7, 0xCA, 0x09, 0xED]
  {
    hide Xor, Xts.Tweak;
    NextTweak();
    HeadMask();
    HeadUnmask();
    TailMask();
    TailUnmask();
    var s := HEAD + [0x10];
    assert Xts.BlockAt(s, 0) == HEAD && s[16..] == [0x10];
    assert [0x10] + CC[1..] == TAIL;
    assert Xts.Masked(c.encrypt, T0, HEAD) == CC && Xts.Masked(c.encrypt, T1, TAIL) == C1;
  }

  // ----- CCM -----

  const IV: seq<Octet> := [0x10, 0x11, 0x12, 0x13, 0x14, 0x15, 0x16]
  const ADD: seq<Octet> := [0x00, 0x01, 0x02, 0x03, 0x04, 0x05, 0x06, 0x07]
  const PLAIN: seq<Octet> := [0x20, 0x21, 0x22, 0x23]
  const B0: Block := [0x4F, 0x10, 0x11, 0x12, 0x13, 0x14, 0x15, 0x16, 0x00, 0x00, 0x00, 0x00, 0x00, 0x00, 0x00, 0x04]
  const B1: Block := [0x00, 0x08, 0x00, 0x01, 0x02, 0x03, 0x04, 0x05, 0x06, 0x07, 0x00, 0x00, 0x00, 0x00, 0x00, 0x00]
  const B2: Block := [0x20, 0x21, 0x22, 0x23, 0x00, 0x00, 0x00, 0x00, 0x00, 0x00, 0x00, 0x00, 0x00, 0x00, 0x00, 0x00]
  const Y0: Block := [0x2A, 0xD2, 0x39, 0xBB, 0x22, 0x9B, 0x8F, 0xB4, 0x6E, 0x30, 0x8F, 0x5B, 0xC7, 0x40, 0x9B, 0x88]
  const X1: Block := [0x2A, 0xDA, 0x39, 0xBA, 0x20, 0x98, 0x8B, 0xB1, 0x68, 0x37, 0x8F, 0x5B, 0xC7, 0x40, 0x9B, 0x88]
  const Y1: Block := [0x2E, 0x3B, 0x95, 0x53, 0x0A, 0xD7, 0xC9, 0x02, 0x68, 0xCA, 0xF2, 0xC5, 0x97, 0xC4, 0x92, 0x92]
  const X2: Block := [0x0E, 0x1A, 0xB7, 0x70, 0x0A, 0xD7, 0xC9, 0x02, 0x68, 0xCA, 0xF2, 0xC5, 0x97, 0xC4, 0x92, 0x92]
  const Y2: Block := [0x60, 0x84, 0x34, 0x1B, 0x32, 0x04, 0x2B, 0xF0, 0x00, 0xB4, 0xB7, 0x99, 0x55, 0x53, 0xA3, 0xC5]
  const K0: Block := [0x07, 0x10, 0x11, 0x12, 0x13, 0x14, 0x15, 0x16, 0x00, 0x00, 0x00, 0x00, 0x00, 0x00, 0x00, 0x00]
  const S0: Block := [0x2D, 0x28, 0x11, 0x46, 0x10, 0x67, 0x6C, 0x26, 0x32, 0xBA, 0xD7, 0x48, 0x55, 0x9A, 0x67, 0x9A]
  const K1: Block := [0x07, 0x10, 0x11, 0x12, 0x13, 0x14, 0x15, 0x16, 0x00, 0x00, 0x00, 0x00, 0x00, 0x00, 0x00, 0x01]
  const S1: Block := [0x51, 0x43, 0x23, 0x78, 0xE4, 0x74, 0xB3, 0x39, 0x71, 0x31, 0x84, 0x84, 0x10, 0x3C, 0xDD, 0xFB]

  lemma SecondBlock()
    ensures Xor(B1, Y0) == X1
  {
    hide Xor, Sum;
    SecondBlockOctets();
    XorFour(0x00, 0x08, 0x00, 0x01, 0x2A, 0xD2, 0x39, 0xBB);
    XorFour(0x02, 0x03, 0x04, 0x05, 0x22, 0x9B, 0x8F, 0xB4);
    XorFour(0x06, 0x07, 0x00, 0x00, 0x6E, 0x30, 0x8F, 0x5B);
    XorFour(0x00, 0x00, 0x00, 0x00, 0xC7, 0x40, 0x9B, 0x88);
    XorQuarters([0x00, 0x08, 0x00, 0x01], [0x02, 0x03, 0x04, 0x05], [0x06, 0x07, 0x00, 0x00], [0x00, 0x00, 0x00, 0x00],
                [0x2A, 0xD2, 0x39, 0xBB], [0x22, 0x9B, 0x8F, 0xB4], [0x6E, 0x30, 0x8F, 0x5B], [0xC7, 0x40, 0x9B, 0x88]);
    assert [0x00, 0x08, 0x00, 0x01] + [0x02, 0x03, 0x04, 0x05] + [0x06, 0x07, 0x00, 0x00] + [0x00, 0x00, 0x00, 0x00] == B1;
    assert [0x2A, 0xD2, 0x39, 0xBB] + [0x22, 0x9B, 0x8F, 0xB4] + [0x6E, 0x30, 0x8F, 0x5B] + [0xC7, 0x40, 0x9B, 0x88] == Y0;
    assert [0x2A, 0xDA, 0x39, 0xBA] + [0x20, 0x98, 0x8B, 0xB1] + [0x68, 0x37, 0x8F, 0x5B] + [0xC7, 0x40, 0x9B, 0x88] == X1;
  }

  lemma SecondBlockOctets()
    ensures Sum(0x00, 0x2A) == 0x2A && Sum(0x08, 0xD2) == 0xDA && Sum(0x00, 0x39) == 0x39 && Sum(0x01, 0xBB) == 0xBA
    ensures Sum(0x02, 0x22) == 0x20 && Sum(0x03, 0x9B) == 0x98 && Sum(0x04, 0x8F) == 0x8B && Sum(0x05, 0xB4) == 0xB1
    ensures Sum(0x06, 0x6E) == 0x68 && Sum(0x07, 0x30) == 0x37 && Sum(0x00, 0x8F) == 0x8F && Sum(0x00, 0x5B) == 0x5B
    ensures Sum(0x00, 0xC7) == 0xC7 && Sum(0x00, 0x40) == 0x40 && Sum(0x00, 0x9B) == 0x9B && Sum(0x00, 0x88) == 0x88
  {}

  lemma ThirdBlock()
    ensures Xor(B2, Y1) == X2
  {
    hide Xor, Sum;
    ThirdBlockOctets();
    XorFour(0x20, 0x21, 0x22, 0x23, 0x2E, 0x3B, 0x95, 0x53);
    XorFour(0x00, 0x00, 0x00, 0x00, 0x0A, 0xD7, 0xC9, 0x02);
    XorFour(0x00, 0x00, 0x00, 0x00, 0x68, 0xCA, 0xF2, 0xC5);
    XorFour(0x00, 0x00, 0x00, 0x00, 0x97, 0xC4, 0x92, 0x92);
    XorQuarters([0x20, 0x21, 0x22, 0x23], [0x00, 0x00, 0x00, 0x00], [0x00, 0x00, 0x00, 0x00], [0x00, 0x00, 0x00, 0x00],
                [0x2E, 0x3B, 0x95, 0x53], [0x0A, 0xD7, 0xC9, 0x02], [0x68, 0xCA, 0xF2, 0xC5], [0x97, 0xC4, 0x92, 0x92]);
    assert [0x20, 0x21, 0x22, 0x23] + [0x00, 0x00, 0x00, 0x00] + [0x00, 0x00, 0x00, 0x00] + [0x00, 0x00, 0x00, 0x00] == B2;
    assert [0x2E, 0x3B, 0x95, 0x53] + [0x0A, 0xD7, 0xC9, 0x02] + [0x68, 0xCA, 0xF2, 0xC5] + [0x97, 0xC4, 0x92, 0x92] == Y1;
    assert [0x0E, 0x1A, 0xB7, 0x70] + [0x0A, 0xD7, 0xC9, 0x02] + [0x68, 0xCA, 0xF2, 0xC5] + [0x97, 0xC4, 0x92, 0x92] == X2;
  }

  lemma ThirdBlockOctets()
    ensures Sum(0x20, 0x2E) == 0x0E && Sum(0x21, 0x3B) == 0x1A && Sum(0x22, 0x95) == 0xB7 && Sum(0x23, 0x53) == 0x70
    ensures Sum(0x00, 0x0A) == 0x0A && Sum(0x00, 0xD7) == 0xD7 && Sum(0x00, 0xC9) == 0xC9 && Sum(0x00, 0x02) == 0x02
    ensures Sum(0x00, 0x68) == 0x68 && Sum(0x00, 0xCA) == 0xCA && Sum(0x00, 0xF2) == 0xF2 && Sum(0x00, 0xC5) == 0xC5
    ensures Sum(0x00, 0x97) == 0x97 && Sum(0x00, 0xC4) == 0xC4 && Sum(0x00, 0x92) == 0x92 && Sum(0x00, 0x92) == 0x92
  {}

  lemma Outputs()
    ensures Xor(Y2, S0)[..4] == [0x4D, 0xAC, 0x25, 0x5D] && forall k :: 0 <= k < 4 ==> PLAIN[k] ^ S1[k] == [0x71, 0x62, 0x01, 0x5B][k]
  {}

  lemma Numbers()
    ensures Narrow(0) == 0x00 && Narrow(1) == 0x01 && Narrow(4) == 0x04 && Narrow(7) == 0x07 && Narrow(8) == 0x08
  {
    assert Narrow(2) == 2 && Narrow(3) == 3 && Narrow(5) == 5 && Narrow(6) == 6;
  }

  lemma {:induction false} SmallOct(n: nat, q: nat)
    requires n < 256 && q > 0
    ensures Ccm.Oct(n, q) == Fill(0, q - 1) + [Narrow(n)]
  {
    hide Narrow;
    Numbers();
    if q > 1 {
      SmallOct(0, q - 1);
    }
  }

  lemma FirstFlags()
    ensures Ccm.Flags(4, 8, 8) == 0x4F
  {
    hide Ccm.Flags, Wide;
    Ccm.FlagsStandard(4, 8, 8);
    Seventy9();
    WideInjective(Ccm.Flags(4, 8, 8), 0x4F);
  }

  lemma Seventy9()
    ensures Wide(0x4F) == 79
  {}

  lemma Formatted()
    ensures Ccm.FirstBlock(4, 8, IV, 4) == B0 && Ccm.Additional(ADD) == B1 && Ccm.Padded(PLAIN) == B2
    ensures Ccm.CounterBlock(IV, 0) == K0 && Ccm.CounterBlock(IV, 1) == K1
  {
    hide Narrow, Ccm.Flags, Ccm.Oct, Ccm.Padded;
    Numbers();
    FirstFlags();
    SmallOct(4, 8);
    SmallOct(0, 8);
    SmallOct(1, 8);
    SmallOct(8, 2);
    Ccm.AdditionalIs(ADD);
    Ccm.PaddedShort(Ccm.Oct(8, 2) + ADD);
    Ccm.PaddedShort(PLAIN);
  }

  lemma Chained(c: BlockCipher)
    requires c.encrypt(B0) == Y0 && c.encrypt(X1) == Y1 && c.encrypt(X2) == Y2
    ensures Cmac.Mac(c, B0 + B1 + B2) == Y2
  {
    hide Cmac.Mac, Xor;
    Cmac.MacNothing(c);
    Cmac.MacNext(c, [], B0);
    Cmac.ZeroMask(B0);
    Cmac.MacNext(c, B0, B1);
    Cmac.MacNext(c, B0 + B1, B2);
    SecondBlock();
    ThirdBlock();
    assert [] + B0 == B0;
  }

  lemma CcmExample(c: BlockCipher)
    requires c.encrypt(B0) == Y0 && c.encrypt(X1) == Y1 && c.encrypt(X2) == Y2 && c.encrypt(K0) == S0 && c.encrypt(K1) == S1
    ensures Ccm.Accepted(4, 7, 8, 4)
    ensures Ccm.Seal(c, 4, IV, ADD, PLAIN) == Ccm.Sealed([0x71, 0x62, 0x01, 0x5B], [0x4D, 0xAC, 0x25, 0x5D])
  {
    hide Cmac.Mac, Xor, CtrMode.Size, Ccm.FirstBlock, Ccm.Additional, Ccm.Padded, Ccm.CounterBlock;
    Room(8);
    Formatted();
    Chained(c);
    Outputs();
    assert Ccm.Preamble(4, IV, ADD, 4) == B0 + B1;
    forall k | 0 <= k < 4 ensures Ccm.Crypt(c, IV, PLAIN)[k] == PLAIN[k] ^ S1[k] {
      Ccm.KeyOctetIn(c, IV, 0, k);
    }
  }

  lemma {:induction false} Room(n: nat)
    requires n > 0
    ensures CtrMode.Size(n) >= 256
  {
    if n > 1 {
      Room(n - 1);
    }
  }

  // ----- CMAC -----

  const L0: Block := [0x7D, 0xF7, 0x6B, 0x0C, 0x1A, 0xB8, 0x99, 0xB3, 0x3E, 0x42, 0xF0, 0x47, 0xB9, 0x1B, 0x54, 0x6F]
  const KEY2: Block := [0xF7, 0xDD, 0xAC, 0x30, 0x6A, 0xE2, 0x66, 0xCC, 0xF9, 0x0B, 0xC1, 0x1E, 0xE4, 0x6D, 0x51, 0x3B]
  const D1: Block := [0x6B, 0xC1, 0xBE, 0xE2, 0x2E, 0x40, 0x9F, 0x96, 0xE9, 0x3D, 0x7E, 0x11, 0x73, 0x93, 0x17, 0x2A]
  const D2: Block := [0xAE, 0x2D, 0x8A, 0x57, 0x1E, 0x03, 0xAC, 0x9C, 0x9E, 0xB7, 0x6F, 0xAC, 0x45, 0xAF, 0x8E, 0x51]
  const D3: Block := [0x30, 0xC8, 0x1C, 0x46, 0xA3, 0x5C, 0xE4, 0x11, 0x80, 0x00, 0x00, 0x00, 0x00, 0x00, 0x00, 0x00]
  const F3: Block := [0xC7, 0x15, 0xB0, 0x76, 0xC9, 0xBE, 0x82, 0xDD, 0x79, 0x0B, 0xC1, 0x1E, 0xE4, 0x6D, 0x51, 0x3B]
  const H1: Block := [0x3A, 0xD7, 0x7B, 0xB4, 0x0D, 0x7A, 0x36, 0x60, 0xA8, 0x9E, 0xCA, 0xF3, 0x24, 0x66, 0xEF, 0x97]
  const G2: Block := [0x94, 0xFA, 0xF1, 0xE3, 0x13, 0x79, 0x9A, 0xFC, 0x36, 0x29, 0xA5, 0x5F, 0x61, 0xC9, 0x61, 0xC6]
  const H2: Block := [0xB1, 0x48, 0xC1, 0x7F, 0x30, 0x9E, 0xE6, 0x92, 0x28, 0x7A, 0xE5, 0x7C, 0xF1, 0x2A, 0xDD, 0x49]
  const G3: Block := [0x76, 0x5D, 0x71, 0x09, 0xF9, 0x20, 0x64, 0x4F, 0x51, 0x71, 0x24, 0x62, 0x15, 0x47, 0x8C, 0x72]
  const TAG: Block := [0xDF, 0xA6, 0x67, 0x47, 0xDE, 0x9A, 0xE6, 0x30, 0x30, 0xCA, 0x32, 0x61, 0x14, 0x97, 0xC8, 0x27]
  const REST: seq<Octet> := [0x30, 0xC8, 0x1C, 0x46, 0xA3, 0x5C, 0xE4, 0x11]

  lemma CmacSecond()
    ensures Xor(D2, H1) == G2
  {
    hide Xor, Sum;
    CmacSecondOctets();
    XorFour(0xAE, 0x2D, 0x8A, 0x57, 0x3A, 0xD7, 0x7B, 0xB4);
    XorFour(0x1E, 0x03, 0xAC, 0x9C, 0x0D, 0x7A, 0x36, 0x60);
    XorFour(0x9E, 0xB7, 0x6F, 0xAC, 0xA8, 0x9E, 0xCA, 0xF3);
    XorFour(0x45, 0xAF, 0x8E, 0x51, 0x24, 0x66, 0xEF, 0x97);
    XorQuarters([0xAE, 0x2D, 0x8A, 0x57], [0x1E, 0x03, 0xAC, 0x9C], [0x9E, 0xB7, 0x6F, 0xAC], [0x45, 0xAF, 0x8E, 0x51],
                [0x3A, 0xD7, 0x7B, 0xB4], [0x0D, 0x7A, 0x36, 0x60], [0xA8, 0x9E, 0xCA, 0xF3], [0x24, 0x66, 0xEF, 0x97]);
    assert [0xAE, 0x2D, 0x8A, 0x57] + [0x1E, 0x03, 0xAC, 0x9C] + [0x9E, 0xB7, 0x6F, 0xAC] + [0x45, 0xAF, 0x8E, 0x51] == D2;
    assert [0x3A, 0xD7, 0x7B, 0xB4] + [0x0D, 0x7A, 0x36, 0x60] + [0xA8, 0x9E, 0xCA, 0xF3] + [0x24, 0x66, 0xEF, 0x97] == H1;
    assert [0x94, 0xFA, 0xF1, 0xE3] + [0x13, 0x79, 0x9A, 0xFC] + [0x36, 0x29, 0xA5, 0x5F] + [0x61, 0xC9, 0x61, 0xC6] == G2;
  }

  lemma CmacSecondOctets()
    ensures Sum(0xAE, 0x3A) == 0x94 && Sum(0x2D, 0xD7) == 0xFA && Sum(0x8A, 0x7B) == 0xF1 && Sum(0x57, 0xB4) == 0xE3
    ensures Sum(0x1E, 0x0D) == 0x13 && Sum(0x03, 0x7A) == 0x79 && Sum(0xAC, 0x36) == 0x9A && Sum(0x9C, 0x60) == 0xFC
    ensures Sum(0x9E, 0xA8) == 0x36 && Sum(0xB7, 0x9E) == 0x29 && Sum(0x6F, 0xCA) == 0xA5 && Sum(0xAC, 0xF3) == 0x5F
    ensures Sum(0x45, 0x24) == 0x61 && Sum(0xAF, 0x66) == 0xC9 && Sum(0x8E, 0xEF) == 0x61 && Sum(0x51, 0x97) == 0xC6
  {}

  lemma CmacLast()
    ensures Xor(D3, KEY2) == F3
  {
    hide Xor, Sum;
    CmacLastOctets();
    XorFour(0x30, 0xC8, 0x1C, 0x46, 0xF7, 0xDD, 0xAC, 0x30);
    XorFour(0xA3, 0x5C, 0xE4, 0x11, 0x6A, 0xE2, 0x66, 0xCC);
    XorFour(0x80, 0x00, 0x00, 0x00, 0xF9, 0x0B, 0xC1, 0x1E);
    XorFour(0x00, 0x00, 0x00, 0x00, 0xE4, 0x6D, 0x51, 0x3B);
    XorQuarters([0x30, 0xC8, 0x1C, 0x46], [0xA3, 0x5C, 0xE4, 0x11], [0x80, 0x00, 0x00, 0x00], [0x00, 0x00, 0x00, 0x00],
                [0xF7, 0xDD, 0xAC, 0x30], [0x6A, 0xE2, 0x66, 0xCC], [0xF9, 0x0B, 0xC1, 0x1E], [0xE4, 0x6D, 0x51, 0x3B]);
    assert [0x30, 0xC8, 0x1C, 0x46] + [0xA3, 0x5C, 0xE4, 0x11] + [0x80, 0x00, 0x00, 0x00] + [0x00, 0x00, 0x00, 0x00] == D3;
    assert [0xF7, 0xDD, 0xAC, 0x30] + [0x6A, 0xE2, 0x66, 0xCC] + [0xF9, 0x0B, 0xC1, 0x1E] + [0xE4, 0x6D, 0x51, 0x3B] == KEY2;
    assert [0xC7, 0x15, 0xB0, 0x76] + [0xC9, 0xBE, 0x82, 0xDD] + [0x79, 0x0B, 0xC1, 0x1E] + [0xE4, 0x6D, 0x51, 0x3B] == F3;
  }

  lemma CmacLastOctets()
    ensures Sum(0x30, 0xF7) == 0xC7 && Sum(0xC8, 0xDD) == 0x15 && Sum(0x1C, 0xAC) == 0xB0 && Sum(0x46, 0x30) == 0x76
    ensures Sum(0xA3, 0x6A) == 0xC9 && Sum(0x5C, 0xE2) == 0xBE && Sum(0xE4, 0x66) == 0x82 && Sum(0x11, 0xCC) == 0xDD
    ensures Sum(0x80, 0xF9) == 0x79 && Sum(0x00, 0x0B) == 0x0B && Sum(0x00, 0xC1) == 0xC1 && Sum(0x00, 0x1E) == 0x1E
    ensures Sum(0x00, 0xE4) == 0xE4 && Sum(0x00, 0x6D) == 0x6D && Sum(0x00, 0x51) == 0x51 && Sum(0x00, 0x3B) == 0x3B
  {}

  lemma CmacThird()
    ensures Xor(F3, H2) == G3
  {
    hide Xor, Sum;
    CmacThirdOctets();
    XorFour(0xC7, 0x15, 0xB0, 0x76, 0xB1, 0x48, 0xC1, 0x7F);
    XorFour(0xC9, 0xBE, 0x82, 0xDD, 0x30, 0x9E, 0xE6, 0x92);
    XorFour(0x79, 0x0B, 0xC1, 0x1E, 0x28, 0x7A, 0xE5, 0x7C);
    XorFour(0xE4, 0x6D, 0x51, 0x3B, 0xF1, 0x2A, 0xDD, 0x49);
    XorQuarters([0xC7, 0x15, 0xB0, 0x76], [0xC9, 0xBE, 0x82, 0xDD], [0x79, 0x0B, 0xC1, 0x1E], [0xE4, 0x6D, 0x51, 0x3B],
                [0xB1, 0x48, 0xC1, 0x7F], [0x30, 0x9E, 0xE6, 0x92], [0x28, 0x7A, 0xE5, 0x7C], [0xF1, 0x2A, 0xDD, 0x49]);
    assert [0xC7, 0x15, 0xB0, 0x76] + [0xC9, 0xBE, 0x82, 0xDD] + [0x79, 0x0B, 0xC1, 0x1E] + [0xE4, 0x6D, 0x51, 0x3B] == F3;
    assert [0xB1, 0x48, 0xC1, 0x7F] + [0x30, 0x9E, 0xE6, 0x92] + [0x28, 0x7A, 0xE5, 0x7C] + [0xF1, 0x2A, 0xDD, 0x49] == H2;
    assert [0x76, 0x5D, 0x71, 0x09] + [0xF9, 0x20, 0x64, 0x4F] + [0x51, 0x71, 0x24, 0x62] + [0x15, 0x47, 0x8C, 0x72] == G3;
  }

  lemma CmacThirdOctets()
    ensures Sum(0xC7, 0xB1) == 0x76 && Sum(0x15, 0x48) == 0x5D && Sum(0xB0, 0xC1) == 0x71 && Sum(0x76, 0x7F) == 0x09
    ensures Sum(0xC9, 0x30) == 0xF9 && Sum(0xBE, 0x9E) == 0x20 && Sum(0x82, 0xE6) == 0x64 && Sum(0xDD, 0x92) == 0x4F
    ensures Sum(0x79, 0x28) == 0x51 && Sum(0x0B, 0x7A) == 0x71 && Sum(0xC1, 0xE5) == 0x24 && Sum(0x1E, 0x7C) == 0x62
    ensures Sum(0xE4, 0xF1) == 0x15 && Sum(0x6D, 0x2A) == 0x47 && Sum(0x51, 0xDD) == 0x8C && Sum(0x3B, 0x49) == 0x72
  {}

  /** The third example of section 4 of RFC 4493: 40 octets, so the last block is completed. */
  lemma CmacExample(c: BlockCipher)
    requires c.encrypt(Cmac.ZERO) == L0 && c.encrypt(D1) == H1 && c.encrypt(G2) == H2 && c.encrypt(G3) == TAG
    ensures Cmac.Cmac(c, D1 + D2 + REST) == TAG
  {
    hide Cmac.Mac, Xor, Cmac.Subkey1, Cmac.Subkey2, Pad;
    Cmac.SubkeyExample(c);
    Cmac.MacNothing(c);
    Cmac.MacNext(c, [], D1);
    Cmac.ZeroMask(D1);
    Cmac.MacNext(c, D1, D2);
    CmacSecond();
    CmacLast();
    CmacThird();
    EightPadded();
    var s := D1 + D2 + REST;
    assert [] + D1 == D1;
    assert s[..32] == D1 + D2 && s[32..] == REST;
  }

  lemma EightPadded()
    ensures REST + Pad(OneAndZeros, 8) == D3
  {}
}
