/**
 * The numbers of Shabal-256's two prefix blocks: their words, and every word of A and of B in the order in which the
 * steps compute them. What the operations make of the numbers is checked on the numbers alone (Lines, Numbers), and
 * then said of the tables with the operations hidden (Rows, Words).
 */
module PrefixNumbers {
  import opened Words
  import opened Shabal

  // ---- tables ----

  function FirstM(i: int): word {
    if i == 0 then 0x00000100 else if i == 1 then 0x00000101 else if i == 2 then 0x00000102 else if i == 3 then 0x00000103
    else if i == 4 then 0x00000104 else if i == 5 then 0x00000105 else if i == 6 then 0x00000106 else if i == 7 then 0x00000107
    else if i == 8 then 0x00000108 else if i == 9 then 0x00000109 else if i == 10 then 0x0000010A else if i == 11 then 0x0000010B
    else if i == 12 then 0x0000010C else if i == 13 then 0x0000010D else if i == 14 then 0x0000010E else 0x0000010F
  }

  function FirstA0(i: int): word {
    if i == 0 then 0xFFFFFFFF else if i == 1 then 0xFFFFFFFF else if i == 2 then 0x00000000 else if i == 3 then 0x00000000
    else if i == 4 then 0x00000000 else if i == 5 then 0x00000000 else if i == 6 then 0x00000000 else if i == 7 then 0x00000000
    else if i == 8 then 0x00000000 else if i == 9 then 0x00000000 else if i == 10 then 0x00000000 else 0x00000000
  }

  function FirstA1(i: int): word {
    if i == 0 then 0xFDF7FEFD else if i == 1 then 0x05830E49 else if i == 2 then 0xE93BA84D else if i == 3 then 0x68485532
    else if i == 4 then 0x8088FEAE else if i == 5 then 0x64D8954B else if i == 6 then 0xCC08DF9F else if i == 7 then 0xF2497B68
    else if i == 8 then 0x7EC08316 else if i == 9 then 0xF007C07B else if i == 10 then 0xBBB8A77D else 0x6C368247
  }

  function FirstA2(i: int): word {
    if i == 0 then 0xAE3F47E2 else if i == 1 then 0xC68A60D9 else if i == 2 then 0xC63E700C else if i == 3 then 0x04FB82A0
    else if i == 4 then 0xE71B593F else if i == 5 then 0xCEE92B6C else if i == 6 then 0x8C12EDDC else if i == 7 then 0xA21E4A11
    else if i == 8 then 0xA72272C9 else if i == 9 then 0xB2929B0B else if i == 10 then 0x78EE6F01 else 0xC3B82A6F
  }

  function FirstA3(i: int): word {
    if i == 0 then 0xFF750C93 else if i == 1 then 0xE5788A46 else if i == 2 then 0x9BBD7565 else if i == 3 then 0xCC341456
    else if i == 4 then 0xAD7FFC12 else if i == 5 then 0xCE83FA1C else if i == 6 then 0x6511FD37 else if i == 7 then 0xE0E9DCD1
    else if i == 8 then 0x63437189 else if i == 9 then 0x5A4096A5 else if i == 10 then 0xF43EE330 else 0x99D36D67
  }

  function FirstA4(i: int): word {
    if i == 0 then 0x79F023D8 else if i == 1 then 0x708745B8 else if i == 2 then 0xB2D69F0A else if i == 3 then 0xAB24079A
    else if i == 4 then 0x4C77DDAC else if i == 5 then 0xB4B92870 else if i == 6 then 0x88E6ECE2 else if i == 7 then 0x747657E4
    else if i == 8 then 0x3395A2D7 else if i == 9 then 0x5A9826A0 else if i == 10 then 0x0D578B50 else 0x68F97918
  }

  function FirstB0(i: int): word {
    if i == 0 then 0x02000000 else if i == 1 then 0x02020000 else if i == 2 then 0x02040000 else if i == 3 then 0x02060000
    else if i == 4 then 0x02080000 else if i == 5 then 0x020A0000 else if i == 6 then 0x020C0000 else if i == 7 then 0x020E0000
    else if i == 8 then 0x02100000 else if i == 9 then 0x02120000 else if i == 10 then 0x02140000 else if i == 11 then 0x02160000
    else if i == 12 then 0x02180000 else if i == 13 then 0x021A0000 else if i == 14 then 0x021C0000 else 0x021E0000
  }

  function FirstB1(i: int): word {
    if i == 0 then 0x06080102 else if i == 1 then 0xFE78F1B6 else if i == 2 then 0x12CC57B2 else if i == 3 then 0x93BBAACD
    else if i == 4 then 0x7B670151 else if i == 5 then 0x9F336AB4 else if i == 6 then 0x37EF2060 else if i == 7 then 0x09AA8497
    else if i == 8 then 0x851F7CE9 else if i == 9 then 0x0BDC3F84 else if i == 10 then 0x406F5882 else if i == 11 then 0x97E57DB8
    else if i == 12 then 0x55F0B81D else if i == 13 then 0x3D419F26 else if i == 14 then 0x3DF98FF3 else 0xFF387D5F
  }

  function FirstB2(i: int): word {
    if i == 0 then 0x14F4A4C4 else if i == 1 then 0xCDE737FE else if i == 2 then 0x5675BD47 else if i == 3 then 0x7A96E075
    else if i == 4 then 0xAE138F94 else if i == 5 then 0x730BB19D else if i == 6 then 0xE8CFD03E else if i == 7 then 0x2F12DCBE
    else if i == 8 then 0x0AB40ABF else if i == 9 then 0x0D3F0AB1 else if i == 10 then 0xE49C3B9E else if i == 11 then 0x1C0110D8
    else if i == 12 then 0xF96173D7 else if i == 13 then 0x4BFF3BAF else if i == 14 then 0xE11D1D2E else 0xE166D991
  }

  function FirstB3(i: int): word {
    if i == 0 then 0xB555C7FE else if i == 1 then 0x3E7106A7 else if i == 2 then 0xA72A6641 else if i == 3 then 0x93015272
    else if i == 4 then 0xDA28C30E else if i == 5 then 0x696FD97D else if i == 6 then 0x9CB6C088 else if i == 7 then 0x0AFE4119
    else if i == 8 then 0xA6E0372D else if i == 9 then 0x5138C2ED else if i == 10 then 0xBE216420 else if i == 11 then 0xB38B89AB
    else if i == 12 then 0x3EA8BA87 else if i == 13 then 0x3299AE01 else if i == 14 then 0x30924EF2 else 0x55CB35C4
  }

  function FirstA(j: int): word {
    if j < 12 then FirstA0(j) else if j < 24 then FirstA1(j - 12) else if j < 36 then FirstA2(j - 24)
    else if j < 48 then FirstA3(j - 36) else FirstA4(j - 48)
  }

  function FirstB(j: int): word {
    if j < 16 then FirstB0(j) else if j < 32 then FirstB1(j - 16) else if j < 48 then FirstB2(j - 32) else FirstB3(j - 48)
  }

  function FirstC(i: int): word {
    0
  }

  function SecondM(i: int): word {
    if i == 0 then 0x00000110 else if i == 1 then 0x00000111 else if i == 2 then 0x00000112 else if i == 3 then 0x00000113
    else if i == 4 then 0x00000114 else if i == 5 then 0x00000115 else if i == 6 then 0x00000116 else if i == 7 then 0x00000117
    else if i == 8 then 0x00000118 else if i == 9 then 0x00000119 else if i == 10 then 0x0000011A else if i == 11 then 0x0000011B
    else if i == 12 then 0x0000011C else if i == 13 then 0x0000011D else if i == 14 then 0x0000011E else 0x0000011F
  }

  function SecondA1(i: int): word {
    if i == 0 then 0x552736DB else if i == 1 then 0x5A37F06B else if i == 2 then 0xE664BB1D else if i == 3 then 0x9E1CEB60
    else if i == 4 then 0x2B03CF2C else if i == 5 then 0xFED97162 else if i == 6 then 0x7F90F2B4 else if i == 7 then 0x4069B7E1
    else if i == 8 then 0xCCB74C96 else if i == 9 then 0x09778D59 else if i == 10 then 0x6B24AB90 else 0x80A11478
  }

  function SecondA2(i: int): word {
    if i == 0 then 0x7F0490C3 else if i == 1 then 0x946910EC else if i == 2 then 0x827CA63E else if i == 3 then 0x409A1072
    else if i == 4 then 0xF3ED9027 else if i == 5 then 0x290439AE else if i == 6 then 0xAA0C583B else if i == 7 then 0xB9A9271C
    else if i == 8 then 0x10A66C48 else if i == 9 then 0xD8CCDB49 else if i == 10 then 0x02B680C7 else 0xAB645FCF
  }

  function SecondA3(i: int): word {
    if i == 0 then 0xD455C979 else if i == 1 then 0x9F6F4358 else if i == 2 then 0x7F3D0246 else if i == 3 then 0xE8A1F260
    else if i == 4 then 0xBE9C04EA else if i == 5 then 0x15A315D0 else if i == 6 then 0x279AC5A8 else if i == 7 then 0x1C34F0F3
    else if i == 8 then 0xF9BDF4EC else if i == 9 then 0x000B73B4 else if i == 10 then 0x80069A86 else 0x35038111
  }

  function SecondA4(i: int): word {
    if i == 0 then 0xB6A03371 else if i == 1 then 0x17243406 else if i == 2 then 0x531455C7 else if i == 3 then 0x44F0DBD6
    else if i == 4 then 0xEC3CC237 else if i == 5 then 0x851D8290 else if i == 6 then 0xD99C1EB9 else if i == 7 then 0xAED060A3
    else if i == 8 then 0xC3433D0F else if i == 9 then 0x62FD9C1A else if i == 10 then 0x02BB7200 else 0x5FB743B0
  }

  function SecondB0(i: int): word {
    if i == 0 then 0x00200000 else if i == 1 then 0x00200000 else if i == 2 then 0x00200000 else if i == 3 then 0x00200000
    else if i == 4 then 0x00200000 else if i == 5 then 0x00200000 else if i == 6 then 0x00200000 else if i == 7 then 0x00200000
    else if i == 8 then 0x00200000 else if i == 9 then 0x00200000 else if i == 10 then 0x00200000 else if i == 11 then 0x00200000
    else if i == 12 then 0x00200000 else if i == 13 then 0x00200000 else if i == 14 then 0x00200000 else 0x00200000
  }

  function SecondB1(i: int): word {
    if i == 0 then 0xAA98C924 else if i == 1 then 0xA5880F94 else if i == 2 then 0x19DB44E2 else if i == 3 then 0x61A3149F
    else if i == 4 then 0xD4BC30D3 else if i == 5 then 0x01668E9D else if i == 6 then 0x802F0D4B else if i == 7 then 0xBFD6481E
    else if i == 8 then 0x3308B369 else if i == 9 then 0xF6C872A6 else if i == 10 then 0x949B546F else if i == 11 then 0x7F1EEB87
    else if i == 12 then 0x80BB6F3C else if i == 13 then 0x6BD6EF13 else if i == 14 then 0x7DC359C1 else 0xBF25EF8D
  }

  function SecondB2(i: int): word {
    if i == 0 then 0x5923FD91 else if i == 1 then 0x9DEBD978 else if i == 2 then 0x66452E00 else if i == 3 then 0x8510F1DD
    else if i == 4 then 0x4621F210 else if i == 5 then 0x25FE398C else if i == 6 then 0xFD1765AF else if i == 7 then 0x2B37300D
    else if i == 8 then 0x4DBB5054 else if i == 9 then 0x8D0059EA else if i == 10 then 0xA9F45566 else if i == 11 then 0xE963DA91
    else if i == 12 then 0x4015256C else if i == 13 then 0x3DF13409 else if i == 14 then 0x23E389D5 else 0x9D80D017
  }

  function SecondB3(i: int): word {
    if i == 0 then 0xB405F031 else if i == 1 then 0xC4233EBA else if i == 2 then 0xB3733979 else if i == 3 then 0xC0DD9D55
    else if i == 4 then 0xC51C28AE else if i == 5 then 0xA327B8E1 else if i == 6 then 0x56C56167 else if i == 7 then 0xED614433
    else if i == 8 then 0x88B59D60 else if i == 9 then 0x60E2CEBA else if i == 10 then 0x758B4B8B else if i == 11 then 0x83E82A7F
    else if i == 12 then 0xBC968828 else if i == 13 then 0xE6E00BF7 else if i == 14 then 0xBA839E55 else 0x9B491C60
  }

  function SecondA(j: int): word {
    if j < 12 then FirstA4(j) else if j < 24 then SecondA1(j - 12) else if j < 36 then SecondA2(j - 24)
    else if j < 48 then SecondA3(j - 36) else SecondA4(j - 48)
  }

  function SecondB(j: int): word {
    if j < 16 then SecondB0(j) else if j < 32 then SecondB1(j - 16) else if j < 48 then SecondB2(j - 32) else SecondB3(j - 48)
  }

  function SecondC(i: int): word {
    FirstB3(i)
  }

  /** One line of a trace. */
  predicate Line(a0: word, a1: word, b1: word, b2: word, b3: word, c: word, m: word, b0: word, ra: word, rb: word) {
    ra == EltA(a0, a1, b1, b2, b3, c, m) && rb == EltB(b0, ra)
  }

  predicate FirstRow(j: int, c: int, m: int) {
    Line(FirstA(j), FirstA(j + 11), FirstB(j + 13), FirstB(j + 9), FirstB(j + 6), FirstC(c), FirstM(m),
         FirstB(j), FirstA(j + 12), FirstB(j + 16))
  }

  predicate SecondRow(j: int, c: int, m: int) {
    Line(SecondA(j), SecondA(j + 11), SecondB(j + 13), SecondB(j + 9), SecondB(j + 6), SecondC(c), SecondM(m),
         SecondB(j), SecondA(j + 12), SecondB(j + 16))
  }

  lemma FirstLines0()
    ensures Line(0xFFFFFFFF, 0x00000000, 0x021A0000, 0x02120000, 0x020C0000, 0x00000000, 0x00000100, 0x02000000, 0xFDF7FEFD, 0x06080102)
    ensures Line(0xFFFFFFFF, 0xFDF7FEFD, 0x021C0000, 0x02140000, 0x020E0000, 0x00000000, 0x00000101, 0x02020000, 0x05830E49, 0xFE78F1B6)
    ensures Line(0x00000000, 0x05830E49, 0x021E0000, 0x02160000, 0x02100000, 0x00000000, 0x00000102, 0x02040000, 0xE93BA84D, 0x12CC57B2)
    ensures Line(0x00000000, 0xE93BA84D, 0x06080102, 0x02180000, 0x02120000, 0x00000000, 0x00000103, 0x02060000, 0x68485532, 0x93BBAACD)
    ensures Line(0x00000000, 0x68485532, 0xFE78F1B6, 0x021A0000, 0x02140000, 0x00000000, 0x00000104, 0x02080000, 0x8088FEAE, 0x7B670151)
    ensures Line(0x00000000, 0x8088FEAE, 0x12CC57B2, 0x021C0000, 0x02160000, 0x00000000, 0x00000105, 0x020A0000, 0x64D8954B, 0x9F336AB4)
    ensures Line(0x00000000, 0x64D8954B, 0x93BBAACD, 0x021E0000, 0x02180000, 0x00000000, 0x00000106, 0x020C0000, 0xCC08DF9F, 0x37EF2060)
    ensures Line(0x00000000, 0xCC08DF9F, 0x7B670151, 0x06080102, 0x021A0000, 0x00000000, 0x00000107, 0x020E0000, 0xF2497B68, 0x09AA8497)
  {
  }

  lemma FirstRows0()
    ensures FirstRow(0, 8, 0) && FirstRow(1, 7, 1) && FirstRow(2, 6, 2) && FirstRow(3, 5, 3) && FirstRow(4, 4, 4) &&
            FirstRow(5, 3, 5) && FirstRow(6, 2, 6) && FirstRow(7, 1, 7)
  {
    hide Line;
    FirstLines0();
  }

  lemma FirstLines1()
    ensures Line(0x00000000, 0xF2497B68, 0x9F336AB4, 0xFE78F1B6, 0x021C0000, 0x00000000, 0x00000108, 0x02100000, 0x7EC08316, 0x851F7CE9)
    ensures Line(0x00000000, 0x7EC08316, 0x37EF2060, 0x12CC57B2, 0x021E0000, 0x00000000, 0x00000109, 0x02120000, 0xF007C07B, 0x0BDC3F84)
    ensures Line(0x00000000, 0xF007C07B, 0x09AA8497, 0x93BBAACD, 0x06080102, 0x00000000, 0x0000010A, 0x02140000, 0xBBB8A77D, 0x406F5882)
    ensures Line(0x00000000, 0xBBB8A77D, 0x851F7CE9, 0x7B670151, 0xFE78F1B6, 0x00000000, 0x0000010B, 0x02160000, 0x6C368247, 0x97E57DB8)
    ensures Line(0xFDF7FEFD, 0x6C368247, 0x0BDC3F84, 0x9F336AB4, 0x12CC57B2, 0x00000000, 0x0000010C, 0x02180000, 0xAE3F47E2, 0x55F0B81D)
    ensures Line(0x05830E49, 0xAE3F47E2, 0x406F5882, 0x37EF2060, 0x93BBAACD, 0x00000000, 0x0000010D, 0x021A0000, 0xC68A60D9, 0x3D419F26)
    ensures Line(0xE93BA84D, 0xC68A60D9, 0x97E57DB8, 0x09AA8497, 0x7B670151, 0x00000000, 0x0000010E, 0x021C0000, 0xC63E700C, 0x3DF98FF3)
    ensures Line(0x68485532, 0xC63E700C, 0x55F0B81D, 0x851F7CE9, 0x9F336AB4, 0x00000000, 0x0000010F, 0x021E0000, 0x04FB82A0, 0xFF387D5F)
  {
  }

  lemma FirstRows1()
    ensures FirstRow(8, 0, 8) && FirstRow(9, 15, 9) && FirstRow(10, 14, 10) && FirstRow(11, 13, 11) &&
            FirstRow(12, 12, 12) && FirstRow(13, 11, 13) && FirstRow(14, 10, 14) && FirstRow(15, 9, 15)
  {
    hide Line;
    FirstLines1();
  }

  lemma FirstLines2()
    ensures Line(0x8088FEAE, 0x04FB82A0, 0x3D419F26, 0x0BDC3F84, 0x37EF2060, 0x00000000, 0x00000100, 0x06080102, 0xE71B593F, 0x14F4A4C4)
    ensures Line(0x64D8954B, 0xE71B593F, 0x3DF98FF3, 0x406F5882, 0x09AA8497, 0x00000000, 0x00000101, 0xFE78F1B6, 0xCEE92B6C, 0xCDE737FE)
    ensures Line(0xCC08DF9F, 0xCEE92B6C, 0xFF387D5F, 0x97E57DB8, 0x851F7CE9, 0x00000000, 0x00000102, 0x12CC57B2, 0x8C12EDDC, 0x5675BD47)
    ensures Line(0xF2497B68, 0x8C12EDDC, 0x14F4A4C4, 0x55F0B81D, 0x0BDC3F84, 0x00000000, 0x00000103, 0x93BBAACD, 0xA21E4A11, 0x7A96E075)
    ensures Line(0x7EC08316, 0xA21E4A11, 0xCDE737FE, 0x3D419F26, 0x406F5882, 0x00000000, 0x00000104, 0x7B670151, 0xA72272C9, 0xAE138F94)
    ensures Line(0xF007C07B, 0xA72272C9, 0x5675BD47, 0x3DF98FF3, 0x97E57DB8, 0x00000000, 0x00000105, 0x9F336AB4, 0xB2929B0B, 0x730BB19D)
    ensures Line(0xBBB8A77D, 0xB2929B0B, 0x7A96E075, 0xFF387D5F, 0x55F0B81D, 0x00000000, 0x00000106, 0x37EF2060, 0x78EE6F01, 0xE8CFD03E)
    ensures Line(0x6C368247, 0x78EE6F01, 0xAE138F94, 0x14F4A4C4, 0x3D419F26, 0x00000000, 0x00000107, 0x09AA8497, 0xC3B82A6F, 0x2F12DCBE)
  {
  }

  lemma FirstRows2()
    ensures FirstRow(16, 8, 0) && FirstRow(17, 7, 1) && FirstRow(18, 6, 2) && FirstRow(19, 5, 3) &&
            FirstRow(20, 4, 4) && FirstRow(21, 3, 5) && FirstRow(22, 2, 6) && FirstRow(23, 1, 7)
  {
    hide Line;
    FirstLines2();
  }

  lemma FirstLines3()
    ensures Line(0xAE3F47E2, 0xC3B82A6F, 0x730BB19D, 0xCDE737FE, 0x3DF98FF3, 0x00000000, 0x00000108, 0x851F7CE9, 0xFF750C93, 0x0AB40ABF)
    ensures Line(0xC68A60D9, 0xFF750C93, 0xE8CFD03E, 0x5675BD47, 0xFF387D5F, 0x00000000, 0x00000109, 0x0BDC3F84, 0xE5788A46, 0x0D3F0AB1)
    ensures Line(0xC63E700C, 0xE5788A46, 0x2F12DCBE, 0x7A96E075, 0x14F4A4C4, 0x00000000, 0x0000010A, 0x406F5882, 0x9BBD7565, 0xE49C3B9E)
    ensures Line(0x04FB82A0, 0x9BBD7565, 0x0AB40ABF, 0xAE138F94, 0xCDE737FE, 0x00000000, 0x0000010B, 0x97E57DB8, 0xCC341456, 0x1C0110D8)
    ensures Line(0xE71B593F, 0xCC341456, 0x0D3F0AB1, 0x730BB19D, 0x5675BD47, 0x00000000, 0x0000010C, 0x55F0B81D, 0xAD7FFC12, 0xF96173D7)
    ensures Line(0xCEE92B6C, 0xAD7FFC12, 0xE49C3B9E, 0xE8CFD03E, 0x7A96E075, 0x00000000, 0x0000010D, 0x3D419F26, 0xCE83FA1C, 0x4BFF3BAF)
    ensures Line(0x8C12EDDC, 0xCE83FA1C, 0x1C0110D8, 0x2F12DCBE, 0xAE138F94, 0x00000000, 0x0000010E, 0x3DF98FF3, 0x6511FD37, 0xE11D1D2E)
    ensures Line(0xA21E4A11, 0x6511FD37, 0xF96173D7, 0x0AB40ABF, 0x730BB19D, 0x00000000, 0x0000010F, 0xFF387D5F, 0xE0E9DCD1, 0xE166D991)
  {
  }

  lemma FirstRows3()
    ensures FirstRow(24, 0, 8) && FirstRow(25, 15, 9) && FirstRow(26, 14, 10) && FirstRow(27, 13, 11) &&
            FirstRow(28, 12, 12) && FirstRow(29, 11, 13) && FirstRow(30, 10, 14) && FirstRow(31, 9, 15)
  {
    hide Line;
    FirstLines3();
  }

  lemma FirstLines4()
    ensures Line(0xA72272C9, 0xE0E9DCD1, 0x4BFF3BAF, 0x0D3F0AB1, 0xE8CFD03E, 0x00000000, 0x00000100, 0x14F4A4C4, 0x63437189, 0xB555C7FE)
    ensures Line(0xB2929B0B, 0x63437189, 0xE11D1D2E, 0xE49C3B9E, 0x2F12DCBE, 0x00000000, 0x00000101, 0xCDE737FE, 0x5A4096A5, 0x3E7106A7)
    ensures Line(0x78EE6F01, 0x5A4096A5, 0xE166D991, 0x1C0110D8, 0x0AB40ABF, 0x00000000, 0x00000102, 0x5675BD47, 0xF43EE330, 0xA72A6641)
    ensures Line(0xC3B82A6F, 0xF43EE330, 0xB555C7FE, 0xF96173D7, 0x0D3F0AB1, 0x00000000, 0x00000103, 0x7A96E075, 0x99D36D67, 0x93015272)
    ensures Line(0xFF750C93, 0x99D36D67, 0x3E7106A7, 0x4BFF3BAF, 0xE49C3B9E, 0x00000000, 0x00000104, 0xAE138F94, 0x79F023D8, 0xDA28C30E)
    ensures Line(0xE5788A46, 0x79F023D8, 0xA72A6641, 0xE11D1D2E, 0x1C0110D8, 0x00000000, 0x00000105, 0x730BB19D, 0x708745B8, 0x696FD97D)
    ensures Line(0x9BBD7565, 0x708745B8, 0x93015272, 0xE166D991, 0xF96173D7, 0x00000000, 0x00000106, 0xE8CFD03E, 0xB2D69F0A, 0x9CB6C088)
    ensures Line(0xCC341456, 0xB2D69F0A, 0xDA28C30E, 0xB555C7FE, 0x4BFF3BAF, 0x00000000, 0x00000107, 0x2F12DCBE, 0xAB24079A, 0x0AFE4119)
  {
  }

  lemma FirstRows4()
    ensures FirstRow(32, 8, 0) && FirstRow(33, 7, 1) && FirstRow(34, 6, 2) && FirstRow(35, 5, 3) &&
            FirstRow(36, 4, 4) && FirstRow(37, 3, 5) && FirstRow(38, 2, 6) && FirstRow(39, 1, 7)
  {
    hide Line;
    FirstLines4();
  }

  lemma FirstLines5()
    ensures Line(0xAD7FFC12, 0xAB24079A, 0x696FD97D, 0x3E7106A7, 0xE11D1D2E, 0x00000000, 0x00000108, 0x0AB40ABF, 0x4C77DDAC, 0xA6E0372D)
    ensures Line(0xCE83FA1C, 0x4C77DDAC, 0x9CB6C088, 0xA72A6641, 0xE166D991, 0x00000000, 0x00000109, 0x0D3F0AB1, 0xB4B92870, 0x5138C2ED)
    ensures Line(0x6511FD37, 0xB4B92870, 0x0AFE4119, 0x93015272, 0xB555C7FE, 0x00000000, 0x0000010A, 0xE49C3B9E, 0x88E6ECE2, 0xBE216420)
    ensures Line(0xE0E9DCD1, 0x88E6ECE2, 0xA6E0372D, 0xDA28C30E, 0x3E7106A7, 0x00000000, 0x0000010B, 0x1C0110D8, 0x747657E4, 0xB38B89AB)
    ensures Line(0x63437189, 0x747657E4, 0x5138C2ED, 0x696FD97D, 0xA72A6641, 0x00000000, 0x0000010C, 0xF96173D7, 0x3395A2D7, 0x3EA8BA87)
    ensures Line(0x5A4096A5, 0x3395A2D7, 0xBE216420, 0x9CB6C088, 0x93015272, 0x00000000, 0x0000010D, 0x4BFF3BAF, 0x5A9826A0, 0x3299AE01)
    ensures Line(0xF43EE330, 0x5A9826A0, 0xB38B89AB, 0x0AFE4119, 0xDA28C30E, 0x00000000, 0x0000010E, 0xE11D1D2E, 0x0D578B50, 0x30924EF2)
    ensures Line(0x99D36D67, 0x0D578B50, 0x3EA8BA87, 0xA6E0372D, 0x696FD97D, 0x00000000, 0x0000010F, 0xE166D991, 0x68F97918, 0x55CB35C4)
  {
  }

  lemma FirstRows5()
    ensures FirstRow(40, 0, 8) && FirstRow(41, 15, 9) && FirstRow(42, 14, 10) && FirstRow(43, 13, 11) &&
            FirstRow(44, 12, 12) && FirstRow(45, 11, 13) && FirstRow(46, 10, 14) && FirstRow(47, 9, 15)
  {
    hide Line;
    FirstLines5();
  }

  lemma SecondLines0()
    ensures Line(0x79F023D8, 0x68F97918, 0x00200000, 0x00200000, 0x00200000, 0xA6E0372D, 0x00000110, 0x00200000, 0x552736DB, 0xAA98C924)
    ensures Line(0x708745B8, 0x552736DB, 0x00200000, 0x00200000, 0x00200000, 0x0AFE4119, 0x00000111, 0x00200000, 0x5A37F06B, 0xA5880F94)
    ensures Line(0xB2D69F0A, 0x5A37F06B, 0x00200000, 0x00200000, 0x00200000, 0x9CB6C088, 0x00000112, 0x00200000, 0xE664BB1D, 0x19DB44E2)
    ensures Line(0xAB24079A, 0xE664BB1D, 0xAA98C924, 0x00200000, 0x00200000, 0x696FD97D, 0x00000113, 0x00200000, 0x9E1CEB60, 0x61A3149F)
    ensures Line(0x4C77DDAC, 0x9E1CEB60, 0xA5880F94, 0x00200000, 0x00200000, 0xDA28C30E, 0x00000114, 0x00200000, 0x2B03CF2C, 0xD4BC30D3)
    ensures Line(0xB4B92870, 0x2B03CF2C, 0x19DB44E2, 0x00200000, 0x00200000, 0x93015272, 0x00000115, 0x00200000, 0xFED97162, 0x01668E9D)
    ensures Line(0x88E6ECE2, 0xFED97162, 0x61A3149F, 0x00200000, 0x00200000, 0xA72A6641, 0x00000116, 0x00200000, 0x7F90F2B4, 0x802F0D4B)
    ensures Line(0x747657E4, 0x7F90F2B4, 0xD4BC30D3, 0xAA98C924, 0x00200000, 0x3E7106A7, 0x00000117, 0x00200000, 0x4069B7E1, 0xBFD6481E)
  {
  }

  lemma SecondRows0()
    ensures SecondRow(0, 8, 0) && SecondRow(1, 7, 1) && SecondRow(2, 6, 2) && SecondRow(3, 5, 3) &&
            SecondRow(4, 4, 4) && SecondRow(5, 3, 5) && SecondRow(6, 2, 6) && SecondRow(7, 1, 7)
  {
    hide Line;
    SecondLines0();
  }

  lemma SecondLines1()
    ensures Line(0x3395A2D7, 0x4069B7E1, 0x01668E9D, 0xA5880F94, 0x00200000, 0xB555C7FE, 0x00000118, 0x00200000, 0xCCB74C96, 0x3308B369)
    ensures Line(0x5A9826A0, 0xCCB74C96, 0x802F0D4B, 0x19DB44E2, 0x00200000, 0x55CB35C4, 0x00000119, 0x00200000, 0x09778D59, 0xF6C872A6)
    ensures Line(0x0D578B50, 0x09778D59, 0xBFD6481E, 0x61A3149F, 0xAA98C924, 0x30924EF2, 0x0000011A, 0x00200000, 0x6B24AB90, 0x949B546F)
    ensures Line(0x68F97918, 0x6B24AB90, 0x3308B369, 0xD4BC30D3, 0xA5880F94, 0x3299AE01, 0x0000011B, 0x00200000, 0x80A11478, 0x7F1EEB87)
    ensures Line(0x552736DB, 0x80A11478, 0xF6C872A6, 0x01668E9D, 0x19DB44E2, 0x3EA8BA87, 0x0000011C, 0x00200000, 0x7F0490C3, 0x80BB6F3C)
    ensures Line(0x5A37F06B, 0x7F0490C3, 0x949B546F, 0x802F0D4B, 0x61A3149F, 0xB38B89AB, 0x0000011D, 0x00200000, 0x946910EC, 0x6BD6EF13)
    ensures Line(0xE664BB1D, 0x946910EC, 0x7F1EEB87, 0xBFD6481E, 0xD4BC30D3, 0xBE216420, 0x0000011E, 0x00200000, 0x827CA63E, 0x7DC359C1)
    ensures Line(0x9E1CEB60, 0x827CA63E, 0x80BB6F3C, 0x3308B369, 0x01668E9D, 0x5138C2ED, 0x0000011F, 0x00200000, 0x409A1072, 0xBF25EF8D)
  {
  }

  lemma SecondRows1()
    ensures SecondRow(8, 0, 8) && SecondRow(9, 15, 9) && SecondRow(10, 14, 10) && SecondRow(11, 13, 11) &&
            SecondRow(12, 12, 12) && SecondRow(13, 11, 13) && SecondRow(14, 10, 14) && SecondRow(15, 9, 15)
  {
    hide Line;
    SecondLines1();
  }

  lemma SecondLines2()
    ensures Line(0x2B03CF2C, 0x409A1072, 0x6BD6EF13, 0xF6C872A6, 0x802F0D4B, 0xA6E0372D, 0x00000110, 0xAA98C924, 0xF3ED9027, 0x5923FD91)
    ensures Line(0xFED97162, 0xF3ED9027, 0x7DC359C1, 0x949B546F, 0xBFD6481E, 0x0AFE4119, 0x00000111, 0xA5880F94, 0x290439AE, 0x9DEBD978)
    ensures Line(0x7F90F2B4, 0x290439AE, 0xBF25EF8D, 0x7F1EEB87, 0x3308B369, 0x9CB6C088, 0x00000112, 0x19DB44E2, 0xAA0C583B, 0x66452E00)
    ensures Line(0x4069B7E1, 0xAA0C583B, 0x5923FD91, 0x80BB6F3C, 0xF6C872A6, 0x696FD97D, 0x00000113, 0x61A3149F, 0xB9A9271C, 0x8510F1DD)
    ensures Line(0xCCB74C96, 0xB9A9271C, 0x9DEBD978, 0x6BD6EF13, 0x949B546F, 0xDA28C30E, 0x00000114, 0xD4BC30D3, 0x10A66C48, 0x4621F210)
    ensures Line(0x09778D59, 0x10A66C48, 0x66452E00, 0x7DC359C1, 0x7F1EEB87, 0x93015272, 0x00000115, 0x01668E9D, 0xD8CCDB49, 0x25FE398C)
    ensures Line(0x6B24AB90, 0xD8CCDB49, 0x8510F1DD, 0xBF25EF8D, 0x80BB6F3C, 0xA72A6641, 0x00000116, 0x802F0D4B, 0x02B680C7, 0xFD1765AF)
    ensures Line(0x80A11478, 0x02B680C7, 0x4621F210, 0x5923FD91, 0x6BD6EF13, 0x3E7106A7, 0x00000117, 0xBFD6481E, 0xAB645FCF, 0x2B37300D)
  {
  }

  lemma SecondRows2()
    ensures SecondRow(16, 8, 0) && SecondRow(17, 7, 1) && SecondRow(18, 6, 2) && SecondRow(19, 5, 3) &&
            SecondRow(20, 4, 4) && SecondRow(21, 3, 5) && SecondRow(22, 2, 6) && SecondRow(23, 1, 7)
  {
    hide Line;
    SecondLines2();
  }

  lemma SecondLines3()
    ensures Line(0x7F0490C3, 0xAB645FCF, 0x25FE398C, 0x9DEBD978, 0x7DC359C1, 0xB555C7FE, 0x00000118, 0x3308B369, 0xD455C979, 0x4DBB5054)
    ensures Line(0x946910EC, 0xD455C979, 0xFD1765AF, 0x66452E00, 0xBF25EF8D, 0x55CB35C4, 0x00000119, 0xF6C872A6, 0x9F6F4358, 0x8D0059EA)
    ensures Line(0x827CA63E, 0x9F6F4358, 0x2B37300D, 0x8510F1DD, 0x5923FD91, 0x30924EF2, 0x0000011A, 0x949B546F, 0x7F3D0246, 0xA9F45566)
    ensures Line(0x409A1072, 0x7F3D0246, 0x4DBB5054, 0x4621F210, 0x9DEBD978, 0x3299AE01, 0x0000011B, 0x7F1EEB87, 0xE8A1F260, 0xE963DA91)
    ensures Line(0xF3ED9027, 0xE8A1F260, 0x8D0059EA, 0x25FE398C, 0x66452E00, 0x3EA8BA87, 0x0000011C, 0x80BB6F3C, 0xBE9C04EA, 0x4015256C)
    ensures Line(0x290439AE, 0xBE9C04EA, 0xA9F45566, 0xFD1765AF, 0x8510F1DD, 0xB38B89AB, 0x0000011D, 0x6BD6EF13, 0x15A315D0, 0x3DF13409)
    ensures Line(0xAA0C583B, 0x15A315D0, 0xE963DA91, 0x2B37300D, 0x4621F210, 0xBE216420, 0x0000011E, 0x7DC359C1, 0x279AC5A8, 0x23E389D5)
    ensures Line(0xB9A9271C, 0x279AC5A8, 0x4015256C, 0x4DBB5054, 0x25FE398C, 0x5138C2ED, 0x0000011F, 0xBF25EF8D, 0x1C34F0F3, 0x9D80D017)
  {
  }

  lemma SecondRows3()
    ensures SecondRow(24, 0, 8) && SecondRow(25, 15, 9) && SecondRow(26, 14, 10) && SecondRow(27, 13, 11) &&
            SecondRow(28, 12, 12) && SecondRow(29, 11, 13) && SecondRow(30, 10, 14) && SecondRow(31, 9, 15)
  {
    hide Line;
    SecondLines3();
  }

  lemma SecondLines4()
    ensures Line(0x10A66C48, 0x1C34F0F3, 0x3DF13409, 0x8D0059EA, 0xFD1765AF, 0xA6E0372D, 0x00000110, 0x5923FD91, 0xF9BDF4EC, 0xB405F031)
    ensures Line(0xD8CCDB49, 0xF9BDF4EC, 0x23E389D5, 0xA9F45566, 0x2B37300D, 0x0AFE4119, 0x00000111, 0x9DEBD978, 0x000B73B4, 0xC4233EBA)
    ensures Line(0x02B680C7, 0x000B73B4, 0x9D80D017, 0xE963DA91, 0x4DBB5054, 0x9CB6C088, 0x00000112, 0x66452E00, 0x80069A86, 0xB3733979)
    ensures Line(0xAB645FCF, 0x80069A86, 0xB405F031, 0x4015256C, 0x8D0059EA, 0x696FD97D, 0x00000113, 0x8510F1DD, 0x35038111, 0xC0DD9D55)
    ensures Line(0xD455C979, 0x35038111, 0xC4233EBA, 0x3DF13409, 0xA9F45566, 0xDA28C30E, 0x00000114, 0x4621F210, 0xB6A03371, 0xC51C28AE)
    ensures Line(0x9F6F4358, 0xB6A03371, 0xB3733979, 0x23E389D5, 0xE963DA91, 0x93015272, 0x00000115, 0x25FE398C, 0x17243406, 0xA327B8E1)
    ensures Line(0x7F3D0246, 0x17243406, 0xC0DD9D55, 0x9D80D017, 0x4015256C, 0xA72A6641, 0x00000116, 0xFD1765AF, 0x531455C7, 0x56C56167)
    ensures Line(0xE8A1F260, 0x531455C7, 0xC51C28AE, 0xB405F031, 0x3DF13409, 0x3E7106A7, 0x00000117, 0x2B37300D, 0x44F0DBD6, 0xED614433)
  {
  }

  lemma SecondRows4()
    ensures SecondRow(32, 8, 0) && SecondRow(33, 7, 1) && SecondRow(34, 6, 2) && SecondRow(35, 5, 3) &&
            SecondRow(36, 4, 4) && SecondRow(37, 3, 5) && SecondRow(38, 2, 6) && SecondRow(39, 1, 7)
  {
    hide Line;
    SecondLines4();
  }

  lemma SecondLines5()
    ensures Line(0xBE9C04EA, 0x44F0DBD6, 0xA327B8E1, 0xC4233EBA, 0x23E389D5, 0xB555C7FE, 0x00000118, 0x4DBB5054, 0xEC3CC237, 0x88B59D60)
    ensures Line(0x15A315D0, 0xEC3CC237, 0x56C56167, 0xB3733979, 0x9D80D017, 0x55CB35C4, 0x00000119, 0x8D0059EA, 0x851D8290, 0x60E2CEBA)
    ensures Line(0x279AC5A8, 0x851D8290, 0xED614433, 0xC0DD9D55, 0xB405F031, 0x30924EF2, 0x0000011A, 0xA9F45566, 0xD99C1EB9, 0x758B4B8B)
    ensures Line(0x1C34F0F3, 0xD99C1EB9, 0x88B59D60, 0xC51C28AE, 0xC4233EBA, 0x3299AE01, 0x0000011B, 0xE963DA91, 0xAED060A3, 0x83E82A7F)
    ensures Line(0xF9BDF4EC, 0xAED060A3, 0x60E2CEBA, 0xA327B8E1, 0xB3733979, 0x3EA8BA87, 0x0000011C, 0x4015256C, 0xC3433D0F, 0xBC968828)
    ensures Line(0x000B73B4, 0xC3433D0F, 0x758B4B8B, 0x56C56167, 0xC0DD9D55, 0xB38B89AB, 0x0000011D, 0x3DF13409, 0x62FD9C1A, 0xE6E00BF7)
    ensures Line(0x80069A86, 0x62FD9C1A, 0x83E82A7F, 0xED614433, 0xC51C28AE, 0xBE216420, 0x0000011E, 0x23E389D5, 0x02BB7200, 0xBA839E55)
    ensures Line(0x35038111, 0x02BB7200, 0xBC968828, 0x88B59D60, 0xA327B8E1, 0x5138C2ED, 0x0000011F, 0x9D80D017, 0x5FB743B0, 0x9B491C60)
  {
  }

  lemma SecondRows5()
    ensures SecondRow(40, 0, 8) && SecondRow(41, 15, 9) && SecondRow(42, 14, 10) && SecondRow(43, 13, 11) &&
            SecondRow(44, 12, 12) && SecondRow(45, 11, 13) && SecondRow(46, 10, 14) && SecondRow(47, 9, 15)
  {
    hide Line;
    SecondLines5();
  }

  lemma FirstRowAt(j: nat)
    requires j < 48
    ensures FirstRow(j, (56 - j) % 16, j % 16)
  {
    hide FirstRow;
    FirstRows0();
    FirstRows1();
    FirstRows2();
    FirstRows3();
    FirstRows4();
    FirstRows5();
  }

  lemma SecondRowAt(j: nat)
    requires j < 48
    ensures SecondRow(j, (56 - j) % 16, j % 16)
  {
    hide SecondRow;
    SecondRows0();
    SecondRows1();
    SecondRows2();
    SecondRows3();
    SecondRows4();
    SecondRows5();
  }

  // ---- into and out of the permutation ----

  predicate Turned(m: word, r: word) {
    Rot17(m) == r
  }

  predicate FirstStarts(i: int) {
    Turned(FirstM(i), FirstB0(i))
  }

  lemma FirstInNumbers0()
    ensures Turned(0x00000100, 0x02000000) && Turned(0x00000101, 0x02020000) && Turned(0x00000102, 0x02040000) &&
            Turned(0x00000103, 0x02060000) && Turned(0x00000104, 0x02080000) && Turned(0x00000105, 0x020A0000) &&
            Turned(0x00000106, 0x020C0000) && Turned(0x00000107, 0x020E0000)
  {
  }

  lemma FirstInWords0()
    ensures FirstStarts(0) && FirstStarts(1) && FirstStarts(2) && FirstStarts(3) && FirstStarts(4) &&
            FirstStarts(5) && FirstStarts(6) && FirstStarts(7)
  {
    hide Turned;
    FirstInNumbers0();
  }

  lemma FirstInNumbers1()
    ensures Turned(0x00000108, 0x02100000) && Turned(0x00000109, 0x02120000) && Turned(0x0000010A, 0x02140000) &&
            Turned(0x0000010B, 0x02160000) && Turned(0x0000010C, 0x02180000) && Turned(0x0000010D, 0x021A0000) &&
            Turned(0x0000010E, 0x021C0000) && Turned(0x0000010F, 0x021E0000)
  {
  }

  lemma FirstInWords1()
    ensures FirstStarts(8) && FirstStarts(9) && FirstStarts(10) && FirstStarts(11) && FirstStarts(12) &&
            FirstStarts(13) && FirstStarts(14) && FirstStarts(15)
  {
    hide Turned;
    FirstInNumbers1();
  }

  /** B as the first block turns it. */
  lemma FirstInAt(i: nat)
    requires i < 16
    ensures FirstStarts(i)
  {
    hide FirstStarts;
    FirstInWords0();
    FirstInWords1();
  }

  predicate TurnedSum(m: word, n: word, r: word) {
    Rot17(Plus(Minus(0, m), n)) == r
  }

  predicate SecondStarts(i: int) {
    TurnedSum(FirstM(i), SecondM(i), SecondB0(i))
  }

  lemma SecondInNumbers0()
    ensures TurnedSum(0x00000100, 0x00000110, 0x00200000) && TurnedSum(0x00000101, 0x00000111, 0x00200000) &&
            TurnedSum(0x00000102, 0x00000112, 0x00200000) && TurnedSum(0x00000103, 0x00000113, 0x00200000)
  {
  }

  lemma SecondInWords0()
    ensures SecondStarts(0) && SecondStarts(1) && SecondStarts(2) && SecondStarts(3)
  {
    hide TurnedSum;
    SecondInNumbers0();
  }

  lemma SecondInNumbers1()
    ensures TurnedSum(0x00000104, 0x00000114, 0x00200000) && TurnedSum(0x00000105, 0x00000115, 0x00200000) &&
            TurnedSum(0x00000106, 0x00000116, 0x00200000) && TurnedSum(0x00000107, 0x00000117, 0x00200000)
  {
  }

  lemma SecondInWords1()
    ensures SecondStarts(4) && SecondStarts(5) && SecondStarts(6) && SecondStarts(7)
  {
    hide TurnedSum;
    SecondInNumbers1();
  }

  lemma SecondInNumbers2()
    ensures TurnedSum(0x00000108, 0x00000118, 0x00200000) && TurnedSum(0x00000109, 0x00000119, 0x00200000) &&
            TurnedSum(0x0000010A, 0x0000011A, 0x00200000) && TurnedSum(0x0000010B, 0x0000011B, 0x00200000)
  {
  }

  lemma SecondInWords2()
    ensures SecondStarts(8) && SecondStarts(9) && SecondStarts(10) && SecondStarts(11)
  {
    hide TurnedSum;
    SecondInNumbers2();
  }

  lemma SecondInNumbers3()
    ensures TurnedSum(0x0000010C, 0x0000011C, 0x00200000) && TurnedSum(0x0000010D, 0x0000011D, 0x00200000) &&
            TurnedSum(0x0000010E, 0x0000011E, 0x00200000) && TurnedSum(0x0000010F, 0x0000011F, 0x00200000)
  {
  }

  lemma SecondInWords3()
    ensures SecondStarts(12) && SecondStarts(13) && SecondStarts(14) && SecondStarts(15)
  {
    hide TurnedSum;
    SecondInNumbers3();
  }

  /** B as the second block turns it. */
  lemma SecondInAt(i: nat)
    requires i < 16
    ensures SecondStarts(i)
  {
    hide SecondStarts;
    SecondInWords0();
    SecondInWords1();
    SecondInWords2();
    SecondInWords3();
  }

  function InitialA(i: int): word {
    if 0 <= i < 12 then A_INIT_256[i] else 0
  }

  function InitialB(i: int): word {
    if 0 <= i < 16 then B_INIT_256[i] else 0
  }

  function InitialC(i: int): word {
    if 0 <= i < 16 then C_INIT_256[i] else 0
  }

  predicate ThreeSums(a: word, c: word, d: word, e: word, r: word) {
    Plus(Plus(Plus(a, c), d), e) == r
  }

  predicate SumsEnd(i: int, i11: int, i15: int, i3: int) {
    ThreeSums(SecondA4(i), FirstB3(i11), FirstB3(i15), FirstB3(i3), InitialA(i))
  }

  lemma SumsOutNumbers0()
    ensures ThreeSums(0xB6A03371, 0xB38B89AB, 0x55CB35C4, 0x93015272, 0x52F84552) &&
            ThreeSums(0x17243406, 0x3EA8BA87, 0xB555C7FE, 0xDA28C30E, 0xE54B7999) &&
            ThreeSums(0x531455C7, 0x3299AE01, 0x3E7106A7, 0x696FD97D, 0x2D8EE3EC)
  {
  }

  lemma SumsOutWords0()
    ensures SumsEnd(0, 11, 15, 3) && SumsEnd(1, 12, 0, 4) && SumsEnd(2, 13, 1, 5)
  {
    hide ThreeSums;
    SumsOutNumbers0();
  }

  lemma SumsOutNumbers1()
    ensures ThreeSums(0x44F0DBD6, 0x30924EF2, 0xA72A6641, 0x9CB6C088, 0xB9645191) &&
            ThreeSums(0xEC3CC237, 0x55CB35C4, 0x93015272, 0x0AFE4119, 0xE0078B86) &&
            ThreeSums(0x851D8290, 0xB555C7FE, 0xDA28C30E, 0xA6E0372D, 0xBB7C44C9)
  {
  }

  lemma SumsOutWords1()
    ensures SumsEnd(3, 14, 2, 6) && SumsEnd(4, 15, 3, 7) && SumsEnd(5, 0, 4, 8)
  {
    hide ThreeSums;
    SumsOutNumbers1();
  }

  lemma SumsOutNumbers2()
    ensures ThreeSums(0xD99C1EB9, 0x3E7106A7, 0x696FD97D, 0x5138C2ED, 0xD2B5C1CA) &&
            ThreeSums(0xAED060A3, 0xA72A6641, 0x9CB6C088, 0xBE216420, 0xB0D2EB8C) &&
            ThreeSums(0xC3433D0F, 0x93015272, 0x0AFE4119, 0xB38B89AB, 0x14CE5A45)
  {
  }

  lemma SumsOutWords2()
    ensures SumsEnd(6, 1, 5, 9) && SumsEnd(7, 2, 6, 10) && SumsEnd(8, 3, 7, 11)
  {
    hide ThreeSums;
    SumsOutNumbers2();
  }

  lemma SumsOutNumbers3()
    ensures ThreeSums(0x62FD9C1A, 0xDA28C30E, 0xA6E0372D, 0x3EA8BA87, 0x22AF50DC) &&
            ThreeSums(0x02BB7200, 0x696FD97D, 0x5138C2ED, 0x3299AE01, 0xEFFDBC6B) &&
            ThreeSums(0x5FB743B0, 0x9CB6C088, 0xBE216420, 0x30924EF2, 0xEB21B74A)
  {
  }

  lemma SumsOutWords3()
    ensures SumsEnd(9, 4, 8, 12) && SumsEnd(10, 5, 9, 13) && SumsEnd(11, 6, 10, 14)
  {
    hide ThreeSums;
    SumsOutNumbers3();
  }

  /** The additions that close the second permutation lead to the initial A. */
  lemma SumsOutAt(i: nat)
    requires i < 12
    ensures SumsEnd(i, (i + 11) % 16, (i + 15) % 16, (i + 3) % 16)
  {
    hide SumsEnd;
    SumsOutWords0();
    SumsOutWords1();
    SumsOutWords2();
    SumsOutWords3();
  }

  predicate Difference(c: word, m: word, r: word) {
    Minus(c, m) == r
  }

  predicate DifferencesEnd(i: int) {
    Difference(FirstB3(i), SecondM(i), InitialB(i))
  }

  lemma DifferencesOutNumbers0()
    ensures Difference(0xB555C7FE, 0x00000110, 0xB555C6EE) && Difference(0x3E7106A7, 0x00000111, 0x3E710596) &&
            Difference(0xA72A6641, 0x00000112, 0xA72A652F) && Difference(0x93015272, 0x00000113, 0x9301515F)
  {
  }

  lemma DifferencesOutWords0()
    ensures DifferencesEnd(0) && DifferencesEnd(1) && DifferencesEnd(2) && DifferencesEnd(3)
  {
    hide Difference;
    DifferencesOutNumbers0();
  }

  lemma DifferencesOutNumbers1()
    ensures Difference(0xDA28C30E, 0x00000114, 0xDA28C1FA) && Difference(0x696FD97D, 0x00000115, 0x696FD868) &&
            Difference(0x9CB6C088, 0x00000116, 0x9CB6BF72) && Difference(0x0AFE4119, 0x00000117, 0x0AFE4002)
  {
  }

  lemma DifferencesOutWords1()
    ensures DifferencesEnd(4) && DifferencesEnd(5) && DifferencesEnd(6) && DifferencesEnd(7)
  {
    hide Difference;
    DifferencesOutNumbers1();
  }

  lemma DifferencesOutNumbers2()
    ensures Difference(0xA6E0372D, 0x00000118, 0xA6E03615) && Difference(0x5138C2ED, 0x00000119, 0x5138C1D4) &&
            Difference(0xBE216420, 0x0000011A, 0xBE216306) && Difference(0xB38B89AB, 0x0000011B, 0xB38B8890)
  {
  }

  lemma DifferencesOutWords2()
    ensures DifferencesEnd(8) && DifferencesEnd(9) && DifferencesEnd(10) && DifferencesEnd(11)
  {
    hide Difference;
    DifferencesOutNumbers2();
  }

  lemma DifferencesOutNumbers3()
    ensures Difference(0x3EA8BA87, 0x0000011C, 0x3EA8B96B) && Difference(0x3299AE01, 0x0000011D, 0x3299ACE4) &&
            Difference(0x30924EF2, 0x0000011E, 0x30924DD4) && Difference(0x55CB35C4, 0x0000011F, 0x55CB34A5)
  {
  }

  lemma DifferencesOutWords3()
    ensures DifferencesEnd(12) && DifferencesEnd(13) && DifferencesEnd(14) && DifferencesEnd(15)
  {
    hide Difference;
    DifferencesOutNumbers3();
  }

  /** C less the second block is the initial B. */
  lemma DifferencesOutAt(i: nat)
    requires i < 16
    ensures DifferencesEnd(i)
  {
    hide DifferencesEnd;
    DifferencesOutWords0();
    DifferencesOutWords1();
    DifferencesOutWords2();
    DifferencesOutWords3();
  }

  predicate Same(b: word, r: word) {
    b == r
  }

  predicate LastEnd(i: int) {
    Same(SecondB3(i), InitialC(i))
  }

  lemma LastOutNumbers0()
    ensures Same(0xB405F031, 0xB405F031) && Same(0xC4233EBA, 0xC4233EBA) && Same(0xB3733979, 0xB3733979) &&
            Same(0xC0DD9D55, 0xC0DD9D55)
  {
  }

  lemma LastOutWords0()
    ensures LastEnd(0) && LastEnd(1) && LastEnd(2) && LastEnd(3)
  {
    hide Same;
    LastOutNumbers0();
  }

  lemma LastOutNumbers1()
    ensures Same(0xC51C28AE, 0xC51C28AE) && Same(0xA327B8E1, 0xA327B8E1) && Same(0x56C56167, 0x56C56167) &&
            Same(0xED614433, 0xED614433)
  {
  }

  lemma LastOutWords1()
    ensures LastEnd(4) && LastEnd(5) && LastEnd(6) && LastEnd(7)
  {
    hide Same;
    LastOutNumbers1();
  }

  lemma LastOutNumbers2()
    ensures Same(0x88B59D60, 0x88B59D60) && Same(0x60E2CEBA, 0x60E2CEBA) && Same(0x758B4B8B, 0x758B4B8B) &&
            Same(0x83E82A7F, 0x83E82A7F)
  {
  }

  lemma LastOutWords2()
    ensures LastEnd(8) && LastEnd(9) && LastEnd(10) && LastEnd(11)
  {
    hide Same;
    LastOutNumbers2();
  }

  lemma LastOutNumbers3()
    ensures Same(0xBC968828, 0xBC968828) && Same(0xE6E00BF7, 0xE6E00BF7) && Same(0xBA839E55, 0xBA839E55) &&
            Same(0x9B491C60, 0x9B491C60)
  {
  }

  lemma LastOutWords3()
    ensures LastEnd(12) && LastEnd(13) && LastEnd(14) && LastEnd(15)
  {
    hide Same;
    LastOutNumbers3();
  }

  /** The last words of B are the initial C. */
  lemma LastOutAt(i: nat)
    requires i < 16
    ensures LastEnd(i)
  {
    hide LastEnd;
    LastOutWords0();
    LastOutWords1();
    LastOutWords2();
    LastOutWords3();
  }

  predicate OneMore(x: word, y: word) {
    y == x + 1
  }

  predicate CountsOn(i: int) {
    OneMore(FirstM(i), FirstM(i + 1))
  }

  lemma CountsNumbers0()
    ensures OneMore(0x00000100, 0x00000101) && OneMore(0x00000101, 0x00000102) && OneMore(0x00000102, 0x00000103) &&
            OneMore(0x00000103, 0x00000104) && OneMore(0x00000104, 0x00000105)
  {
  }

  lemma CountsWords0()
    ensures CountsOn(0) && CountsOn(1) && CountsOn(2) && CountsOn(3) && CountsOn(4)
  {
    hide OneMore;
    CountsNumbers0();
  }

  lemma CountsNumbers1()
    ensures OneMore(0x00000105, 0x00000106) && OneMore(0x00000106, 0x00000107) && OneMore(0x00000107, 0x00000108) &&
            OneMore(0x00000108, 0x00000109) && OneMore(0x00000109, 0x0000010A)
  {
  }

  lemma CountsWords1()
    ensures CountsOn(5) && CountsOn(6) && CountsOn(7) && CountsOn(8) && CountsOn(9)
  {
    hide OneMore;
    CountsNumbers1();
  }

  lemma CountsNumbers2()
    ensures OneMore(0x0000010A, 0x0000010B) && OneMore(0x0000010B, 0x0000010C) && OneMore(0x0000010C, 0x0000010D) &&
            OneMore(0x0000010D, 0x0000010E) && OneMore(0x0000010E, 0x0000010F)
  {
  }

  lemma CountsWords2()
    ensures CountsOn(10) && CountsOn(11) && CountsOn(12) && CountsOn(13) && CountsOn(14)
  {
    hide OneMore;
    CountsNumbers2();
  }

  /** The words of the first block count on. */
  lemma CountsAt(i: nat)
    requires i < 15
    ensures CountsOn(i)
  {
    hide CountsOn;
    CountsWords0();
    CountsWords1();
    CountsWords2();
  }

  predicate SixteenMore(x: word, y: word) {
    y == x + 16
  }

  predicate CountsFurther(i: int) {
    SixteenMore(FirstM(i), SecondM(i))
  }

  lemma FurtherNumbers0()
    ensures SixteenMore(0x00000100, 0x00000110) && SixteenMore(0x00000101, 0x00000111) &&
            SixteenMore(0x00000102, 0x00000112) && SixteenMore(0x00000103, 0x00000113) &&
            SixteenMore(0x00000104, 0x00000114) && SixteenMore(0x00000105, 0x00000115) &&
            SixteenMore(0x00000106, 0x00000116) && SixteenMore(0x00000107, 0x00000117)
  {
  }

  lemma FurtherWords0()
    ensures CountsFurther(0) && CountsFurther(1) && CountsFurther(2) && CountsFurther(3) && CountsFurther(4) &&
            CountsFurther(5) && CountsFurther(6) && CountsFurther(7)
  {
    hide SixteenMore;
    FurtherNumbers0();
  }

  lemma FurtherNumbers1()
    ensures SixteenMore(0x00000108, 0x00000118) && SixteenMore(0x00000109, 0x00000119) &&
            SixteenMore(0x0000010A, 0x0000011A) && SixteenMore(0x0000010B, 0x0000011B) &&
            SixteenMore(0x0000010C, 0x0000011C) && SixteenMore(0x0000010D, 0x0000011D) &&
            SixteenMore(0x0000010E, 0x0000011E) && SixteenMore(0x0000010F, 0x0000011F)
  {
  }

  lemma FurtherWords1()
    ensures CountsFurther(8) && CountsFurther(9) && CountsFurther(10) && CountsFurther(11) && CountsFurther(12) &&
            CountsFurther(13) && CountsFurther(14) && CountsFurther(15)
  {
    hide SixteenMore;
    FurtherNumbers1();
  }

  /** Those of the second block are higher by 16. */
  lemma FurtherAt(i: nat)
    requires i < 16
    ensures CountsFurther(i)
  {
    hide CountsFurther;
    FurtherWords0();
    FurtherWords1();
  }

  predicate ZeroWord(i: int) {
    Same(FirstA0(i), if i < 2 then 0xFFFF_FFFF else 0)
  }

  lemma ZeroNumbers0()
    ensures Same(0xFFFFFFFF, 0xFFFFFFFF) && Same(0xFFFFFFFF, 0xFFFFFFFF) && Same(0x00000000, 0x00000000) &&
            Same(0x00000000, 0x00000000) && Same(0x00000000, 0x00000000) && Same(0x00000000, 0x00000000)
  {
  }

  lemma ZeroWords0()
    ensures ZeroWord(0) && ZeroWord(1) && ZeroWord(2) && ZeroWord(3) && ZeroWord(4) && ZeroWord(5)
  {
    hide Same;
    ZeroNumbers0();
  }

  lemma ZeroNumbers1()
    ensures Same(0x00000000, 0x00000000) && Same(0x00000000, 0x00000000) && Same(0x00000000, 0x00000000) &&
            Same(0x00000000, 0x00000000) && Same(0x00000000, 0x00000000) && Same(0x00000000, 0x00000000)
  {
  }

  lemma ZeroWords1()
    ensures ZeroWord(6) && ZeroWord(7) && ZeroWord(8) && ZeroWord(9) && ZeroWord(10) && ZeroWord(11)
  {
    hide Same;
    ZeroNumbers1();
  }

  /** Nothing but the counter is in A. */
  lemma ZeroAt(i: nat)
    requires i < 12
    ensures ZeroWord(i)
  {
    hide ZeroWord;
    ZeroWords0();
    ZeroWords1();
  }
}
