/** The examples of RFC 7539: the quarter round of section 2.1.1 and the block of section 2.3.2, with
    every double round on the way. */
module ChaChaAnswers {
  import opened Octets
  import opened ChaCha20

  lemma QuarterExample()
    ensures Quarter(0x11111111, 0x01020304, 0x9B8D6F43, 0x01234567) == (0xEA2A92F4, 0xCB1CF8CE, 0x4581472E, 0x5881C4BB)
  {}

  function Columns(s: Words): Words {
    QuarterAt(QuarterAt(QuarterAt(QuarterAt(s, 0, 4, 8, 12), 1, 5, 9, 13), 2, 6, 10, 14), 3, 7, 11, 15)
  }

  function Diagonals(s: Words): Words {
    QuarterAt(QuarterAt(QuarterAt(QuarterAt(s, 0, 5, 10, 15), 1, 6, 11, 12), 2, 7, 8, 13), 3, 4, 9, 14)
  }

  lemma DoubleRoundIs(s: Words)
    ensures DoubleRound(s) == Diagonals(Columns(s))
  {
    hide QuarterAt;
  }

  /** The key 00 01 .. 1F, the nonce 00 00 00 09 00 00 00 4A 00 00 00 00, the counter 1. */
  const S0: Words :=
    [0x61707865, 0x3320646E, 0x79622D32, 0x6B206574, 0x03020100, 0x07060504, 0x0B0A0908, 0x0F0E0D0C,
     0x13121110, 0x17161514, 0x1B1A1918, 0x1F1E1D1C, 0x00000001, 0x09000000, 0x4A000000, 0x00000000]

  // The state after each half and each whole double round.

  const H1: Words :=
    [0xABBAA25C, 0x1EFA51EA, 0x7354FBDF, 0x83D2DC69, 0x3A465196, 0x1C7E64F6, 0xB12FB628, 0xF05B6976,
     0x6B3CA454, 0x08EB14B1, 0xBF8A9AC9, 0xE444DF3B, 0xDEC62ED2, 0x8862CC77, 0x6E35B345, 0x52A647F1]
  const S1: Words :=
    [0xCD52E917, 0x85AB03B4, 0xB3457395, 0xF96DE7DD, 0xC4B7CD22, 0x5C2E187A, 0xC95EB461, 0x316C801A,
     0x7BF7D740, 0x7EDDD644, 0xF1A1BDF5, 0x761246CA, 0x6B0D58A3, 0x6798471A, 0xD737F167, 0xF173888D]
  const H2: Words :=
    [0xE3E1111B, 0xA6291491, 0x5A82B80C, 0x4500FD45, 0xD65B5B5B, 0xF56AF099, 0x4CCC8103, 0xC94D29E2,
     0xE67AEC54, 0xF7A52D82, 0xDB470914, 0xDFB40F1D, 0x7BE81C0D, 0x1D92D0FD, 0x13139F8C, 0x7A26ECAA]
  const S2: Words :=
    [0xCF1A7584, 0x048927EC, 0x54051FDA, 0xC244FF28, 0x901D2F40, 0x7974B81C, 0x378DCFB4, 0xCD47FD0E,
     0x2DAFB216, 0x27C89CD6, 0xCD3C9AA0, 0x79FC89C7, 0x10AEF18D, 0x16218765, 0x68F76705, 0x04D6EE22]
  const H3: Words :=
    [0xA22695F2, 0xA908CF6C, 0xE6AE05B2, 0xFE0FF04B, 0x1ECE4458, 0xE82B726F, 0x5A21AB90, 0x87698C64,
     0xF2D36DA6, 0xF4DAB980, 0x7BAF5573, 0xA78C270D, 0x6FDA6BF7, 0x65A4B0CE, 0x25E6D76E, 0x1B7B11EC]
  const S3: Words :=
    [0x03A14032, 0x66B15927, 0x9D6B6B42, 0xB84C4109, 0xA7143AE0, 0xA09B33DD, 0xA5DAAF88, 0x2FD91A73,
     0xC90C6B18, 0x5A202413, 0xC20E01B6, 0x72CD6B74, 0xBA35D777, 0xB360F1BF, 0x8178315B, 0x2CD11B1A]
  const H4: Words :=
    [0xFECD0838, 0x160AB468, 0x9A0DDF4E, 0xBAC7154A, 0xCEDF6624, 0xB11DE6C4, 0xBD7810EF, 0xD22B5643,
     0x1D8A33EA, 0x87DC1CA9, 0x89BD34A5, 0x5505EF62, 0xA818B852, 0xB100446A, 0x9C1D70B1, 0xA1D1BEFA]
  const S4: Words :=
    [0x9A2D3589, 0x0B23FC4E, 0x40AF3B6B, 0xCEEA8144, 0x0A1BFFC6, 0x5E5993F7, 0x9904C2E7, 0x0D334718,
     0xE46C6354, 0xC9503229, 0x04FEF5AA, 0xF8933F72, 0x2687D476, 0x54E65231, 0x3594FFC5, 0x2B3BB2CA]
  const H5: Words :=
    [0x85E7824A, 0x4940CD9E, 0xFBE7684B, 0x7335D03D, 0x1C133EA1, 0xBBA40B0F, 0x9413992A, 0xA4AB2040,
     0xA3A66A86, 0xC0B4754F, 0x771B4ECB, 0x165151A1, 0xDE008464, 0x34F0058B, 0x70846CFA, 0xA3271B09]
  const S5: Words :=
    [0xC53318C5, 0xCA325D96, 0x7E7D11CB, 0x3404E2CA, 0x26D7CF73, 0x6088D379, 0xC0F0E9BD, 0xE310CDB9,
     0xAE2CA8DB, 0x42F67C72, 0x71669ACA, 0x975C171D, 0x9E5EC228, 0x7D85A9F3, 0x201D0756, 0x63FA6953]
  const H6: Words :=
    [0x9950B826, 0xCAC7CCC6, 0x84A67673, 0xDB3109A6, 0x2121065A, 0xC12BDADB, 0xCAE3ACD1, 0x594616CB,
     0x19078DE2, 0x178ECC02, 0xE6ADBDB2, 0x52A9D50E, 0x40CA72B3, 0x3B9BF852, 0x78690378, 0xE17D4902]
  const S6: Words :=
    [0x04A3131A, 0x66176309, 0x0415BAB1, 0x61B880A2, 0x36CC86C7, 0xBF8A4465, 0xF77DD720, 0xFC0BDC90,
     0x07D13ACA, 0xEB0BE9AF, 0x61599491, 0x918512DC, 0x33B6686D, 0x795CC671, 0xC0049972, 0xA0A81BDE]
  const H7: Words :=
    [0x57C5E6DA, 0x35CE46A8, 0x0C041BB9, 0xFA91DF79, 0x8E85D82F, 0xB4819D06, 0xB63BE200, 0xACD221E4,
     0x434B4749, 0x1D459C00, 0x111CFE2C, 0x55942604, 0x49EE03A6, 0xD11A5554, 0xA7202E04, 0x7D2215BC]
  const S7: Words :=
    [0x9B70F51F, 0x7EA8AC11, 0x21E54DA9, 0xCA393B2F, 0x93B08686, 0x6A4C50AE, 0x19212A5A, 0x9B032958,
     0xD839165E, 0x4C06E28A, 0xD3FDE99E, 0x26ACC13D, 0xA609F555, 0x2C246549, 0x95151853, 0x2C847A0D]
  const H8: Words :=
    [0xC0B18AEE, 0x087445BA, 0x36E52AD9, 0xA777426A, 0xDEB54E9C, 0x802C883B, 0x06E86889, 0x3C002680,
     0xA82D65D4, 0x687F11EB, 0xE9D36207, 0x4242DDAE, 0x4103C64E, 0x82816A91, 0xB584CA56, 0xFD0BD2B9]
  const S8: Words :=
    [0xCA5C85DD, 0x93A4F90E, 0xD9F0DF58, 0x26DD82DD, 0x982563F8, 0x712AA9FF, 0x279A61E8, 0x970F72BD,
     0x1C25931A, 0x5180BB10, 0x779C27E7, 0x54077E08, 0xA9B751FB, 0x382F3CE2, 0x8DB1757D, 0xCC38080B]
  const H9: Words :=
    [0x765C6E9C, 0x5AB09B11, 0x3EE7DA04, 0x37C31203, 0x9046ECAA, 0x7B88D882, 0xB9B577DD, 0x156DE7ED,
     0x46FA091E, 0x5117E9B5, 0x862FF22B, 0xA3FCC7A6, 0x72A5AACE, 0x5FA7F1C5, 0xDA563E0A, 0x5263D7CA]
  const S9: Words :=
    [0xB6B87DE6, 0x9A016148, 0x93859815, 0x4915E6CC, 0xDC33C122, 0x98E18FA3, 0x5FFBE8FC, 0xF7154B8B,
     0x28C1FCB3, 0xC4B38F9D, 0x83E2F5D7, 0x7D24B98B, 0x21078B22, 0xB193E7A3, 0xB2F49389, 0x6CDE6026]
  const H10: Words :=
    [0x8A07FF15, 0x0CADC51C, 0x017C8DA9, 0x4AFBE5DF, 0x913768FE, 0x442A0C0C, 0x598FE3BB, 0x47D18828,
     0x0A39AEDC, 0xC1428029, 0x7B48135F, 0x5A5F1098, 0x2D4CFE3E, 0xE5466D1B, 0xE4CCDC13, 0x8AC92A18]
  const S10: Words :=
    [0x837778AB, 0xE238D763, 0xA67AE21E, 0x5950BB2F, 0xC4F2D0C7, 0xFC62BB2F, 0x8FA018FC, 0x3F5EC7B7,
     0x335271C2, 0xF29489F3, 0xEABDA8FC, 0x82E46EBD, 0xD19C12B4, 0xB04E16DE, 0x9E83D0CB, 0x4E3C50A2]

  lemma Quarters1()
    ensures Quarter(0x61707865, 0x03020100, 0x13121110, 0x00000001) == (0xABBAA25C, 0x3A465196, 0x6B3CA454, 0xDEC62ED2)
    ensures Quarter(0x3320646E, 0x07060504, 0x17161514, 0x09000000) == (0x1EFA51EA, 0x1C7E64F6, 0x08EB14B1, 0x8862CC77)
    ensures Quarter(0x79622D32, 0x0B0A0908, 0x1B1A1918, 0x4A000000) == (0x7354FBDF, 0xB12FB628, 0xBF8A9AC9, 0x6E35B345)
    ensures Quarter(0x6B206574, 0x0F0E0D0C, 0x1F1E1D1C, 0x00000000) == (0x83D2DC69, 0xF05B6976, 0xE444DF3B, 0x52A647F1)
    ensures Quarter(0xABBAA25C, 0x1C7E64F6, 0xBF8A9AC9, 0x52A647F1) == (0xCD52E917, 0x5C2E187A, 0xF1A1BDF5, 0xF173888D)
    ensures Quarter(0x1EFA51EA, 0xB12FB628, 0xE444DF3B, 0xDEC62ED2) == (0x85AB03B4, 0xC95EB461, 0x761246CA, 0x6B0D58A3)
    ensures Quarter(0x7354FBDF, 0xF05B6976, 0x6B3CA454, 0x8862CC77) == (0xB3457395, 0x316C801A, 0x7BF7D740, 0x6798471A)
    ensures Quarter(0x83D2DC69, 0x3A465196, 0x08EB14B1, 0x6E35B345) == (0xF96DE7DD, 0xC4B7CD22, 0x7EDDD644, 0xD737F167)
  {}

  lemma Columns1()
    ensures Columns(S0) == H1
  {
    hide Quarter;
    Quarters1();
  }

  lemma Diagonals1()
    ensures Diagonals(H1) == S1
  {
    hide Quarter;
    Quarters1();
  }

  lemma Quarters2()
    ensures Quarter(0xCD52E917, 0xC4B7CD22, 0x7BF7D740, 0x6B0D58A3) == (0xE3E1111B, 0xD65B5B5B, 0xE67AEC54, 0x7BE81C0D)
    ensures Quarter(0x85AB03B4, 0x5C2E187A, 0x7EDDD644, 0x6798471A) == (0xA6291491, 0xF56AF099, 0xF7A52D82, 0x1D92D0FD)
    ensures Quarter(0xB3457395, 0xC95EB461, 0xF1A1BDF5, 0xD737F167) == (0x5A82B80C, 0x4CCC8103, 0xDB470914, 0x13139F8C)
    ensures Quarter(0xF96DE7DD, 0x316C801A, 0x761246CA, 0xF173888D) == (0x4500FD45, 0xC94D29E2, 0xDFB40F1D, 0x7A26ECAA)
    ensures Quarter(0xE3E1111B, 0xF56AF099, 0xDB470914, 0x7A26ECAA) == (0xCF1A7584, 0x7974B81C, 0xCD3C9AA0, 0x04D6EE22)
    ensures Quarter(0xA6291491, 0x4CCC8103, 0xDFB40F1D, 0x7BE81C0D) == (0x048927EC, 0x378DCFB4, 0x79FC89C7, 0x10AEF18D)
    ensures Quarter(0x5A82B80C, 0xC94D29E2, 0xE67AEC54, 0x1D92D0FD) == (0x54051FDA, 0xCD47FD0E, 0x2DAFB216, 0x16218765)
    ensures Quarter(0x4500FD45, 0xD65B5B5B, 0xF7A52D82, 0x13139F8C) == (0xC244FF28, 0x901D2F40, 0x27C89CD6, 0x68F76705)
  {}

  lemma Columns2()
    ensures Columns(S1) == H2
  {
    hide Quarter;
    Quarters2();
  }

  lemma Diagonals2()
    ensures Diagonals(H2) == S2
  {
    hide Quarter;
    Quarters2();
  }

  lemma Quarters3()
    ensures Quarter(0xCF1A7584, 0x901D2F40, 0x2DAFB216, 0x10AEF18D) == (0xA22695F2, 0x1ECE4458, 0xF2D36DA6, 0x6FDA6BF7)
    ensures Quarter(0x048927EC, 0x7974B81C, 0x27C89CD6, 0x16218765) == (0xA908CF6C, 0xE82B726F, 0xF4DAB980, 0x65A4B0CE)
    ensures Quarter(0x54051FDA, 0x378DCFB4, 0xCD3C9AA0, 0x68F76705) == (0xE6AE05B2, 0x5A21AB90, 0x7BAF5573, 0x25E6D76E)
    ensures Quarter(0xC244FF28, 0xCD47FD0E, 0x79FC89C7, 0x04D6EE22) == (0xFE0FF04B, 0x87698C64, 0xA78C270D, 0x1B7B11EC)
    ensures Quarter(0xA22695F2, 0xE82B726F, 0x7BAF5573, 0x1B7B11EC) == (0x03A14032, 0xA09B33DD, 0xC20E01B6, 0x2CD11B1A)
    ensures Quarter(0xA908CF6C, 0x5A21AB90, 0xA78C270D, 0x6FDA6BF7) == (0x66B15927, 0xA5DAAF88, 0x72CD6B74, 0xBA35D777)
    ensures Quarter(0xE6AE05B2, 0x87698C64, 0xF2D36DA6, 0x65A4B0CE) == (0x9D6B6B42, 0x2FD91A73, 0xC90C6B18, 0xB360F1BF)
    ensures Quarter(0xFE0FF04B, 0x1ECE4458, 0xF4DAB980, 0x25E6D76E) == (0xB84C4109, 0xA7143AE0, 0x5A202413, 0x8178315B)
  {}

  lemma Columns3()
    ensures Columns(S2) == H3
  {
    hide Quarter;
    Quarters3();
  }

  lemma Diagonals3()
    ensures Diagonals(H3) == S3
  {
    hide Quarter;
    Quarters3();
  }

  lemma Quarters4()
    ensures Quarter(0x03A14032, 0xA7143AE0, 0xC90C6B18, 0xBA35D777) == (0xFECD0838, 0xCEDF6624, 0x1D8A33EA, 0xA818B852)
    ensures Quarter(0x66B15927, 0xA09B33DD, 0x5A202413, 0xB360F1BF) == (0x160AB468, 0xB11DE6C4, 0x87DC1CA9, 0xB100446A)
    ensures Quarter(0x9D6B6B42, 0xA5DAAF88, 0xC20E01B6, 0x8178315B) == (0x9A0DDF4E, 0xBD7810EF, 0x89BD34A5, 0x9C1D70B1)
    ensures Quarter(0xB84C4109, 0x2FD91A73, 0x72CD6B74, 0x2CD11B1A) == (0xBAC7154A, 0xD22B5643, 0x5505EF62, 0xA1D1BEFA)
    ensures Quarter(0xFECD0838, 0xB11DE6C4, 0x89BD34A5, 0xA1D1BEFA) == (0x9A2D3589, 0x5E5993F7, 0x04FEF5AA, 0x2B3BB2CA)
    ensures Quarter(0x160AB468, 0xBD7810EF, 0x5505EF62, 0xA818B852) == (0x0B23FC4E, 0x9904C2E7, 0xF8933F72, 0x2687D476)
    ensures Quarter(0x9A0DDF4E, 0xD22B5643, 0x1D8A33EA, 0xB100446A) == (0x40AF3B6B, 0x0D334718, 0xE46C6354, 0x54E65231)
    ensures Quarter(0xBAC7154A, 0xCEDF6624, 0x87DC1CA9, 0x9C1D70B1) == (0xCEEA8144, 0x0A1BFFC6, 0xC9503229, 0x3594FFC5)
  {}

  lemma Columns4()
    ensures Columns(S3) == H4
  {
    hide Quarter;
    Quarters4();
  }

  lemma Diagonals4()
    ensures Diagonals(H4) == S4
  {
    hide Quarter;
    Quarters4();
  }

  lemma Quarters5()
    ensures Quarter(0x9A2D3589, 0x0A1BFFC6, 0xE46C6354, 0x2687D476) == (0x85E7824A, 0x1C133EA1, 0xA3A66A86, 0xDE008464)
    ensures Quarter(0x0B23FC4E, 0x5E5993F7, 0xC9503229, 0x54E65231) == (0x4940CD9E, 0xBBA40B0F, 0xC0B4754F, 0x34F0058B)
    ensures Quarter(0x40AF3B6B, 0x9904C2E7, 0x04FEF5AA, 0x3594FFC5) == (0xFBE7684B, 0x9413992A, 0x771B4ECB, 0x70846CFA)
    ensures Quarter(0xCEEA8144, 0x0D334718, 0xF8933F72, 0x2B3BB2CA) == (0x7335D03D, 0xA4AB2040, 0x165151A1, 0xA3271B09)
    ensures Quarter(0x85E7824A, 0xBBA40B0F, 0x771B4ECB, 0xA3271B09) == (0xC53318C5, 0x6088D379, 0x71669ACA, 0x63FA6953)
    ensures Quarter(0x4940CD9E, 0x9413992A, 0x165151A1, 0xDE008464) == (0xCA325D96, 0xC0F0E9BD, 0x975C171D, 0x9E5EC228)
    ensures Quarter(0xFBE7684B, 0xA4AB2040, 0xA3A66A86, 0x34F0058B) == (0x7E7D11CB, 0xE310CDB9, 0xAE2CA8DB, 0x7D85A9F3)
    ensures Quarter(0x7335D03D, 0x1C133EA1, 0xC0B4754F, 0x70846CFA) == (0x3404E2CA, 0x26D7CF73, 0x42F67C72, 0x201D0756)
  {}

  lemma Columns5()
    ensures Columns(S4) == H5
  {
    hide Quarter;
    Quarters5();
  }

  lemma Diagonals5()
    ensures Diagonals(H5) == S5
  {
    hide Quarter;
    Quarters5();
  }

  lemma Quarters6()
    ensures Quarter(0xC53318C5, 0x26D7CF73, 0xAE2CA8DB, 0x9E5EC228) == (0x9950B826, 0x2121065A, 0x19078DE2, 0x40CA72B3)
    ensures Quarter(0xCA325D96, 0x6088D379, 0x42F67C72, 0x7D85A9F3) == (0xCAC7CCC6, 0xC12BDADB, 0x178ECC02, 0x3B9BF852)
    ensures Quarter(0x7E7D11CB, 0xC0F0E9BD, 0x71669ACA, 0x201D0756) == (0x84A67673, 0xCAE3ACD1, 0xE6ADBDB2, 0x78690378)
    ensures Quarter(0x3404E2CA, 0xE310CDB9, 0x975C171D, 0x63FA6953) == (0xDB3109A6, 0x594616CB, 0x52A9D50E, 0xE17D4902)
    ensures Quarter(0x9950B826, 0xC12BDADB, 0xE6ADBDB2, 0xE17D4902) == (0x04A3131A, 0xBF8A4465, 0x61599491, 0xA0A81BDE)
    ensures Quarter(0xCAC7CCC6, 0xCAE3ACD1, 0x52A9D50E, 0x40CA72B3) == (0x66176309, 0xF77DD720, 0x918512DC, 0x33B6686D)
    ensures Quarter(0x84A67673, 0x594616CB, 0x19078DE2, 0x3B9BF852) == (0x0415BAB1, 0xFC0BDC90, 0x07D13ACA, 0x795CC671)
    ensures Quarter(0xDB3109A6, 0x2121065A, 0x178ECC02, 0x78690378) == (0x61B880A2, 0x36CC86C7, 0xEB0BE9AF, 0xC0049972)
  {}

  lemma Columns6()
    ensures Columns(S5) == H6
  {
    hide Quarter;
    Quarters6();
  }

  lemma Diagonals6()
    ensures Diagonals(H6) == S6
  {
    hide Quarter;
    Quarters6();
  }

  lemma Quarters7()
    ensures Quarter(0x04A3131A, 0x36CC86C7, 0x07D13ACA, 0x33B6686D) == (0x57C5E6DA, 0x8E85D82F, 0x434B4749, 0x49EE03A6)
    ensures Quarter(0x66176309, 0xBF8A4465, 0xEB0BE9AF, 0x795CC671) == (0x35CE46A8, 0xB4819D06, 0x1D459C00, 0xD11A5554)
    ensures Quarter(0x0415BAB1, 0xF77DD720, 0x61599491, 0xC0049972) == (0x0C041BB9, 0xB63BE200, 0x111CFE2C, 0xA7202E04)
    ensures Quarter(0x61B880A2, 0xFC0BDC90, 0x918512DC, 0xA0A81BDE) == (0xFA91DF79, 0xACD221E4, 0x55942604, 0x7D2215BC)
    ensures Quarter(0x57C5E6DA, 0xB4819D06, 0x111CFE2C, 0x7D2215BC) == (0x9B70F51F, 0x6A4C50AE, 0xD3FDE99E, 0x2C847A0D)
    ensures Quarter(0x35CE46A8, 0xB63BE200, 0x55942604, 0x49EE03A6) == (0x7EA8AC11, 0x19212A5A, 0x26ACC13D, 0xA609F555)
    ensures Quarter(0x0C041BB9, 0xACD221E4, 0x434B4749, 0xD11A5554) == (0x21E54DA9, 0x9B032958, 0xD839165E, 0x2C246549)
    ensures Quarter(0xFA91DF79, 0x8E85D82F, 0x1D459C00, 0xA7202E04) == (0xCA393B2F, 0x93B08686, 0x4C06E28A, 0x95151853)
  {}

  lemma Columns7()
    ensures Columns(S6) == H7
  {
    hide Quarter;
    Quarters7();
  }

  lemma Diagonals7()
    ensures Diagonals(H7) == S7
  {
    hide Quarter;
    Quarters7();
  }

  lemma Quarters8()
    ensures Quarter(0x9B70F51F, 0x93B08686, 0xD839165E, 0xA609F555) == (0xC0B18AEE, 0xDEB54E9C, 0xA82D65D4, 0x4103C64E)
    ensures Quarter(0x7EA8AC11, 0x6A4C50AE, 0x4C06E28A, 0x2C246549) == (0x087445BA, 0x802C883B, 0x687F11EB, 0x82816A91)
    ensures Quarter(0x21E54DA9, 0x19212A5A, 0xD3FDE99E, 0x95151853) == (0x36E52AD9, 0x06E86889, 0xE9D36207, 0xB584CA56)
    ensures Quarter(0xCA393B2F, 0x9B032958, 0x26ACC13D, 0x2C847A0D) == (0xA777426A, 0x3C002680, 0x4242DDAE, 0xFD0BD2B9)
    ensures Quarter(0xC0B18AEE, 0x802C883B, 0xE9D36207, 0xFD0BD2B9) == (0xCA5C85DD, 0x712AA9FF, 0x779C27E7, 0xCC38080B)
    ensures Quarter(0x087445BA, 0x06E86889, 0x4242DDAE, 0x4103C64E) == (0x93A4F90E, 0x279A61E8, 0x54077E08, 0xA9B751FB)
    ensures Quarter(0x36E52AD9, 0x3C002680, 0xA82D65D4, 0x82816A91) == (0xD9F0DF58, 0x970F72BD, 0x1C25931A, 0x382F3CE2)
    ensures Quarter(0xA777426A, 0xDEB54E9C, 0x687F11EB, 0xB584CA56) == (0x26DD82DD, 0x982563F8, 0x5180BB10, 0x8DB1757D)
  {}

  lemma Columns8()
    ensures Columns(S7) == H8
  {
    hide Quarter;
    Quarters8();
  }

  lemma Diagonals8()
    ensures Diagonals(H8) == S8
  {
    hide Quarter;
    Quarters8();
  }

  lemma Quarters9()
    ensures Quarter(0xCA5C85DD, 0x982563F8, 0x1C25931A, 0xA9B751FB) == (0x765C6E9C, 0x9046ECAA, 0x46FA091E, 0x72A5AACE)
    ensures Quarter(0x93A4F90E, 0x712AA9FF, 0x5180BB10, 0x382F3CE2) == (0x5AB09B11, 0x7B88D882, 0x5117E9B5, 0x5FA7F1C5)
    ensures Quarter(0xD9F0DF58, 0x279A61E8, 0x779C27E7, 0x8DB1757D) == (0x3EE7DA04, 0xB9B577DD, 0x862FF22B, 0xDA563E0A)
    ensures Quarter(0x26DD82DD, 0x970F72BD, 0x54077E08, 0xCC38080B) == (0x37C31203, 0x156DE7ED, 0xA3FCC7A6, 0x5263D7CA)
    ensures Quarter(0x765C6E9C, 0x7B88D882, 0x862FF22B, 0x5263D7CA) == (0xB6B87DE6, 0x98E18FA3, 0x83E2F5D7, 0x6CDE6026)
    ensures Quarter(0x5AB09B11, 0xB9B577DD, 0xA3FCC7A6, 0x72A5AACE) == (0x9A016148, 0x5FFBE8FC, 0x7D24B98B, 0x21078B22)
    ensures Quarter(0x3EE7DA04, 0x156DE7ED, 0x46FA091E, 0x5FA7F1C5) == (0x93859815, 0xF7154B8B, 0x28C1FCB3, 0xB193E7A3)
    ensures Quarter(0x37C31203, 0x9046ECAA, 0x5117E9B5, 0xDA563E0A) == (0x4915E6CC, 0xDC33C122, 0xC4B38F9D, 0xB2F49389)
  {}

  lemma Columns9()
    ensures Columns(S8) == H9
  {
    hide Quarter;
    Quarters9();
  }

  lemma Diagonals9()
    ensures Diagonals(H9) == S9
  {
    hide Quarter;
    Quarters9();
  }

  lemma Quarters10()
    ensures Quarter(0xB6B87DE6, 0xDC33C122, 0x28C1FCB3, 0x21078B22) == (0x8A07FF15, 0x913768FE, 0x0A39AEDC, 0x2D4CFE3E)
    ensures Quarter(0x9A016148, 0x98E18FA3, 0xC4B38F9D, 0xB193E7A3) == (0x0CADC51C, 0x442A0C0C, 0xC1428029, 0xE5466D1B)
    ensures Quarter(0x93859815, 0x5FFBE8FC, 0x83E2F5D7, 0xB2F49389) == (0x017C8DA9, 0x598FE3BB, 0x7B48135F, 0xE4CCDC13)
    ensures Quarter(0x4915E6CC, 0xF7154B8B, 0x7D24B98B, 0x6CDE6026) == (0x4AFBE5DF, 0x47D18828, 0x5A5F1098, 0x8AC92A18)
    ensures Quarter(0x8A07FF15, 0x442A0C0C, 0x7B48135F, 0x8AC92A18) == (0x837778AB, 0xFC62BB2F, 0xEABDA8FC, 0x4E3C50A2)
    ensures Quarter(0x0CADC51C, 0x598FE3BB, 0x5A5F1098, 0x2D4CFE3E) == (0xE238D763, 0x8FA018FC, 0x82E46EBD, 0xD19C12B4)
    ensures Quarter(0x017C8DA9, 0x47D18828, 0x0A39AEDC, 0xE5466D1B) == (0xA67AE21E, 0x3F5EC7B7, 0x335271C2, 0xB04E16DE)
    ensures Quarter(0x4AFBE5DF, 0x913768FE, 0xC1428029, 0xE4CCDC13) == (0x5950BB2F, 0xC4F2D0C7, 0xF29489F3, 0x9E83D0CB)
  {}

  lemma Columns10()
    ensures Columns(S9) == H10
  {
    hide Quarter;
    Quarters10();
  }

  lemma Diagonals10()
    ensures Diagonals(H10) == S10
  {
    hide Quarter;
    Quarters10();
  }

  /** The state after adding the first one. */
  const LAST: Words :=
    [0xE4E7F110, 0x15593BD1, 0x1FDD0F50, 0xC47120A3, 0xC7F4D1C7, 0x0368C033, 0x9AAA2204, 0x4E6CD4C3,
     0x466482D2, 0x09AA9F07, 0x05D7C214, 0xA2028BD9, 0xD19C12B5, 0xB94E16DE, 0xE883D0CB, 0x4E3C50A2]

  lemma AddFirst()
    ensures Sum(S10, S0) == LAST
  {
    hide Plus;
    Sums();
  }

  lemma Sums()
    ensures Plus(0x837778AB, 0x61707865) == 0xE4E7F110
    ensures Plus(0xE238D763, 0x3320646E) == 0x15593BD1
    ensures Plus(0xA67AE21E, 0x79622D32) == 0x1FDD0F50
    ensures Plus(0x5950BB2F, 0x6B206574) == 0xC47120A3
    ensures Plus(0xC4F2D0C7, 0x03020100) == 0xC7F4D1C7
    ensures Plus(0xFC62BB2F, 0x07060504) == 0x0368C033
    ensures Plus(0x8FA018FC, 0x0B0A0908) == 0x9AAA2204
    ensures Plus(0x3F5EC7B7, 0x0F0E0D0C) == 0x4E6CD4C3
    ensures Plus(0x335271C2, 0x13121110) == 0x466482D2
    ensures Plus(0xF29489F3, 0x17161514) == 0x09AA9F07
    ensures Plus(0xEABDA8FC, 0x1B1A1918) == 0x05D7C214
    ensures Plus(0x82E46EBD, 0x1F1E1D1C) == 0xA2028BD9
    ensures Plus(0xD19C12B4, 0x00000001) == 0xD19C12B5
    ensures Plus(0xB04E16DE, 0x09000000) == 0xB94E16DE
    ensures Plus(0x9E83D0CB, 0x4A000000) == 0xE883D0CB
    ensures Plus(0x4E3C50A2, 0x00000000) == 0x4E3C50A2
  {}

  lemma RoundsNext(s: Words, n: nat, t: Words)
    requires Rounds(s, n) == t
    ensures Rounds(s, n + 1) == DoubleRound(t)
  {
    hide DoubleRound;
  }

  lemma TenRounds()
    ensures Rounds(S0, 10) == S10
  {
    hide DoubleRound, Columns, Diagonals;
    hide S0, S1, S2, S3, S4, S5, S6, S7, S8, S9, S10, H1, H2, H3, H4, H5, H6, H7, H8, H9, H10;
    RoundsNext(S0, 0, S0); DoubleRoundIs(S0); Columns1(); Diagonals1();
    RoundsNext(S0, 1, S1); DoubleRoundIs(S1); Columns2(); Diagonals2();
    RoundsNext(S0, 2, S2); DoubleRoundIs(S2); Columns3(); Diagonals3();
    RoundsNext(S0, 3, S3); DoubleRoundIs(S3); Columns4(); Diagonals4();
    RoundsNext(S0, 4, S4); DoubleRoundIs(S4); Columns5(); Diagonals5();
    RoundsNext(S0, 5, S5); DoubleRoundIs(S5); Columns6(); Diagonals6();
    RoundsNext(S0, 6, S6); DoubleRoundIs(S6); Columns7(); Diagonals7();
    RoundsNext(S0, 7, S7); DoubleRoundIs(S7); Columns8(); Diagonals8();
    RoundsNext(S0, 8, S8); DoubleRoundIs(S8); Columns9(); Diagonals9();
    RoundsNext(S0, 9, S9); DoubleRoundIs(S9); Columns10(); Diagonals10();
  }

  const BLOCK: seq<Octet> :=
    [0x10, 0xF1, 0xE7, 0xE4, 0xD1, 0x3B, 0x59, 0x15, 0x50, 0x0F, 0xDD, 0x1F, 0xA3, 0x20, 0x71, 0xC4]
    + [0xC7, 0xD1, 0xF4, 0xC7, 0x33, 0xC0, 0x68, 0x03, 0x04, 0x22, 0xAA, 0x9A, 0xC3, 0xD4, 0x6C, 0x4E]
    + [0xD2, 0x82, 0x64, 0x46, 0x07, 0x9F, 0xAA, 0x09, 0x14, 0xC2, 0xD7, 0x05, 0xD9, 0x8B, 0x02, 0xA2]
    + [0xB5, 0x12, 0x9C, 0xD1, 0xDE, 0x16, 0x4E, 0xB9, 0xCB, 0xD0, 0x83, 0xE8, 0xA2, 0x50, 0x3C, 0x4E]

  lemma FourWords(a: bv32, b: bv32, c: bv32, d: bv32)
    ensures Serialize([a, b, c, d]) == WordOctets(a) + WordOctets(b) + WordOctets(c) + WordOctets(d)
  {
    hide Serialize, WordOctets;
    SerializeNone();
    SerializeNext([], a);
    SerializeNext([a], b);
    SerializeNext([a, b], c);
    SerializeNext([a, b, c], d);
    assert [] + [a] == [a] && [a] + [b] == [a, b] && [a, b] + [c] == [a, b, c] && [a, b, c] + [d] == [a, b, c, d];
  }

  lemma SerializeNone()
    ensures Serialize([]) == []
  {}

  lemma SerializeNext(s: seq<bv32>, w: bv32)
    ensures Serialize(s + [w]) == Serialize(s) + WordOctets(w)
  {
    assert (s + [w])[..|s|] == s;
  }

  lemma {:induction false} SerializeParts(s: seq<bv32>, t: seq<bv32>)
    ensures Serialize(s + t) == Serialize(s) + Serialize(t)
  {
    hide WordOctets, Serialize;
    if t == [] {
      SerializeNone();
      assert s + t == s;
    } else {
      var k := |t| - 1;
      SerializeParts(s, t[..k]);
      SerializeNext(s + t[..k], t[k]);
      SerializeNext(t[..k], t[k]);
      assert s + t == s + t[..k] + [t[k]] && t == t[..k] + [t[k]];
    }
  }


  lemma Row0()
    ensures Serialize([0xE4E7F110, 0x15593BD1, 0x1FDD0F50, 0xC47120A3])
            == [0x10, 0xF1, 0xE7, 0xE4, 0xD1, 0x3B, 0x59, 0x15, 0x50, 0x0F, 0xDD, 0x1F, 0xA3, 0x20, 0x71, 0xC4]
  {
    hide Serialize;
    FourWords(0xE4E7F110, 0x15593BD1, 0x1FDD0F50, 0xC47120A3);
  }

  lemma Row1()
    ensures Serialize([0xC7F4D1C7, 0x0368C033, 0x9AAA2204, 0x4E6CD4C3])
            == [0xC7, 0xD1, 0xF4, 0xC7, 0x33, 0xC0, 0x68, 0x03, 0x04, 0x22, 0xAA, 0x9A, 0xC3, 0xD4, 0x6C, 0x4E]
  {
    hide Serialize;
    FourWords(0xC7F4D1C7, 0x0368C033, 0x9AAA2204, 0x4E6CD4C3);
  }

  lemma Row2()
    ensures Serialize([0x466482D2, 0x09AA9F07, 0x05D7C214, 0xA2028BD9])
            == [0xD2, 0x82, 0x64, 0x46, 0x07, 0x9F, 0xAA, 0x09, 0x14, 0xC2, 0xD7, 0x05, 0xD9, 0x8B, 0x02, 0xA2]
  {
    hide Serialize;
    FourWords(0x466482D2, 0x09AA9F07, 0x05D7C214, 0xA2028BD9);
  }

  lemma Row3()
    ensures Serialize([0xD19C12B5, 0xB94E16DE, 0xE883D0CB, 0x4E3C50A2])
            == [0xB5, 0x12, 0x9C, 0xD1, 0xDE, 0x16, 0x4E, 0xB9, 0xCB, 0xD0, 0x83, 0xE8, 0xA2, 0x50, 0x3C, 0x4E]
  {
    hide Serialize;
    FourWords(0xD19C12B5, 0xB94E16DE, 0xE883D0CB, 0x4E3C50A2);
  }

  lemma SerializeLast()
    ensures Serialize(LAST) == BLOCK
  {
    hide Serialize;
    Row0();
    Row1();
    Row2();
    Row3();
    var a := [0xE4E7F110, 0x15593BD1, 0x1FDD0F50, 0xC47120A3];
    var b := [0xC7F4D1C7, 0x0368C033, 0x9AAA2204, 0x4E6CD4C3];
    var c := [0x466482D2, 0x09AA9F07, 0x05D7C214, 0xA2028BD9];
    var d := [0xD19C12B5, 0xB94E16DE, 0xE883D0CB, 0x4E3C50A2];
    SerializeParts(a, b);
    SerializeParts(a + b, c);
    SerializeParts(a + b + c, d);
    assert LAST == a + b + c + d;
  }

  /** The key stream block of section 2.3.2. */
  lemma BlockExample()
    ensures KeyBlock(S0) == BLOCK
  {
    hide Rounds, Sum, Serialize, S0, S10, LAST, BLOCK;
    KeyBlockIs(S0);
    TenRounds();
    AddFirst();
    SerializeLast();
  }
}
