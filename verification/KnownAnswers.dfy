/// The published known answers of the two generators: Philox-4x32-10 and
/// Threefry-2x32-20 on the digits of pi.
module KnownAnswers {
  import opened Words32
  import opened XorOfBytes
  import opened RowMajor
  import P = Philox
  import T = Threefry

  // ---- Philox ----

  lemma RoundIs(x: P.Counter, k: P.Key, hi0: Word, lo0: Word, hi1: Word, lo1: Word, y0: Word, y2: Word)
    requires x.x0 * P.M0 == hi0 as int * TWO_32 + lo0 && x.x2 * P.M1 == hi1 as int * TWO_32 + lo1
    requires Xor(Xor(hi1, x.x1), k.k0) == y0 && Xor(Xor(hi0, x.x3), k.k1) == y2
    ensures P.Round(x, k) == P.Counter(y0, lo1, y2, lo0)
  {
    hide Xor;
    P.HiLoAre(x.x0, P.M0, hi0, lo0);
    P.HiLoAre(x.x2, P.M1, hi1, lo1);
  }

  lemma PhiloxRound0()
    ensures P.Round(P.Counter(0x243F_6A88, 0x85A3_08D3, 0x1319_8A2E, 0x0370_7344), P.Key(0xA409_3822, 0x299F_31D0))
         == P.Counter(0x2EFD_7704, 0xAD2D_4BA2, 0x3728_C377, 0xB37E_0218)
  {
    hide Xor;
    XorIsOfBytes(0x0F, 0x57, 0x47, 0xF5, 0x85, 0xA3, 0x08, 0xD3);
    XorIsOfBytes(0x8A, 0xF4, 0x4F, 0x26, 0xA4, 0x09, 0x38, 0x22);
    XorIsOfBytes(0x1D, 0xC7, 0x81, 0xE3, 0x03, 0x70, 0x73, 0x44);
    XorIsOfBytes(0x1E, 0xB7, 0xF2, 0xA7, 0x29, 0x9F, 0x31, 0xD0);
    RoundIs(P.Counter(0x243F_6A88, 0x85A3_08D3, 0x1319_8A2E, 0x0370_7344), P.Key(0xA409_3822, 0x299F_31D0),
            0x1DC7_81E3, 0xB37E_0218, 0x0F57_47F5, 0xAD2D_4BA2, 0x2EFD_7704, 0x3728_C377);
  }

  lemma PhiloxRound1()
    ensures P.Round(P.Counter(0x2EFD_7704, 0xAD2D_4BA2, 0x3728_C377, 0xB37E_0218), P.Key(0x4240_B1DB, 0xE506_E055))
         == P.Counter(0xC320_345A, 0x20F4_F871, 0x70E2_2DDE, 0xDDDB_124C)
  {
    hide Xor;
    XorIsOfBytes(0x2C, 0x4D, 0xCE, 0x23, 0xAD, 0x2D, 0x4B, 0xA2);
    XorIsOfBytes(0x81, 0x60, 0x85, 0x81, 0x42, 0x40, 0xB1, 0xDB);
    XorIsOfBytes(0x26, 0x9A, 0xCF, 0x93, 0xB3, 0x7E, 0x02, 0x18);
    XorIsOfBytes(0x95, 0xE4, 0xCD, 0x8B, 0xE5, 0x06, 0xE0, 0x55);
    RoundIs(P.Counter(0x2EFD_7704, 0xAD2D_4BA2, 0x3728_C377, 0xB37E_0218), P.Key(0x4240_B1DB, 0xE506_E055),
            0x269A_CF93, 0xDDDB_124C, 0x2C4D_CE23, 0x20F4_F871, 0xC320_345A, 0x70E2_2DDE);
  }

  lemma PhiloxRound2()
    ensures P.Round(P.Counter(0xC320_345A, 0x20F4_F871, 0x70E2_2DDE, 0xDDDB_124C), P.Key(0xE078_2B94, 0xA06E_8EDA))
         == P.Counter(0x9A27_DB43, 0x0524_DC72, 0xDDFB_DC94, 0x8E41_DF2E)
  {
    hide Xor;
    XorIsOfBytes(0x5A, 0xAB, 0x08, 0xA6, 0x20, 0xF4, 0xF8, 0x71);
    XorIsOfBytes(0x7A, 0x5F, 0xF0, 0xD7, 0xE0, 0x78, 0x2B, 0x94);
    XorIsOfBytes(0xA0, 0x4E, 0x40, 0x02, 0xDD, 0xDB, 0x12, 0x4C);
    XorIsOfBytes(0x7D, 0x95, 0x52, 0x4E, 0xA0, 0x6E, 0x8E, 0xDA);
    RoundIs(P.Counter(0xC320_345A, 0x20F4_F871, 0x70E2_2DDE, 0xDDDB_124C), P.Key(0xE078_2B94, 0xA06E_8EDA),
            0xA04E_4002, 0x8E41_DF2E, 0x5AAB_08A6, 0x0524_DC72, 0x9A27_DB43, 0xDDFB_DC94);
  }

  lemma PhiloxRound3()
    ensures P.Round(P.Counter(0x9A27_DB43, 0x0524_DC72, 0xDDFB_DC94, 0x8E41_DF2E), P.Key(0x7EAF_A54D, 0x5BD6_3D5F))
         == P.Counter(0xC9C7_529C, 0xD06D_7A4C, 0xAB32_6927, 0x24AC_33B9)
  {
    hide Xor;
    XorIsOfBytes(0xB2, 0x4C, 0x2B, 0xA3, 0x05, 0x24, 0xDC, 0x72);
    XorIsOfBytes(0xB7, 0x68, 0xF7, 0xD1, 0x7E, 0xAF, 0xA5, 0x4D);
    XorIsOfBytes(0x7E, 0xA5, 0x8B, 0x56, 0x8E, 0x41, 0xDF, 0x2E);
    XorIsOfBytes(0xF0, 0xE4, 0x54, 0x78, 0x5B, 0xD6, 0x3D, 0x5F);
    RoundIs(P.Counter(0x9A27_DB43, 0x0524_DC72, 0xDDFB_DC94, 0x8E41_DF2E), P.Key(0x7EAF_A54D, 0x5BD6_3D5F),
            0x7EA5_8B56, 0x24AC_33B9, 0xB24C_2BA3, 0xD06D_7A4C, 0xC9C7_529C, 0xAB32_6927);
  }

  lemma PhiloxRound4()
    ensures P.Round(P.Counter(0xC9C7_529C, 0xD06D_7A4C, 0xAB32_6927, 0x24AC_33B9), P.Key(0x1CE7_1F06, 0x173D_EBE4))
         == P.Counter(0x450B_009C, 0x131E_3741, 0x9654_AAD8, 0xA9FC_AC94)
  {
    hide Xor;
    XorIsOfBytes(0x89, 0x81, 0x65, 0xD6, 0xD0, 0x6D, 0x7A, 0x4C);
    XorIsOfBytes(0x59, 0xEC, 0x1F, 0x9A, 0x1C, 0xE7, 0x1F, 0x06);
    XorIsOfBytes(0xA5, 0xC5, 0x72, 0x85, 0x24, 0xAC, 0x33, 0xB9);
    XorIsOfBytes(0x81, 0x69, 0x41, 0x3C, 0x17, 0x3D, 0xEB, 0xE4);
    RoundIs(P.Counter(0xC9C7_529C, 0xD06D_7A4C, 0xAB32_6927, 0x24AC_33B9), P.Key(0x1CE7_1F06, 0x173D_EBE4),
            0xA5C5_7285, 0xA9FC_AC94, 0x8981_65D6, 0x131E_3741, 0x450B_009C, 0x9654_AAD8);
  }

  lemma PhiloxRound5()
    ensures P.Round(P.Counter(0x450B_009C, 0x131E_3741, 0x9654_AAD8, 0xA9FC_AC94), P.Key(0xBB1E_98BF, 0xD2A5_9A69))
         == P.Counter(0xD0BE_47EE, 0x222F_0768, 0x43E1_D190, 0xE100_1694)
  {
    hide Xor;
    XorIsOfBytes(0x78, 0xBE, 0xE8, 0x10, 0x13, 0x1E, 0x37, 0x41);
    XorIsOfBytes(0x6B, 0xA0, 0xDF, 0x51, 0xBB, 0x1E, 0x98, 0xBF);
    XorIsOfBytes(0x38, 0xB8, 0xE7, 0x6D, 0xA9, 0xFC, 0xAC, 0x94);
    XorIsOfBytes(0x91, 0x44, 0x4B, 0xF9, 0xD2, 0xA5, 0x9A, 0x69);
    RoundIs(P.Counter(0x450B_009C, 0x131E_3741, 0x9654_AAD8, 0xA9FC_AC94), P.Key(0xBB1E_98BF, 0xD2A5_9A69),
            0x38B8_E76D, 0xE100_1694, 0x78BE_E810, 0x222F_0768, 0xD0BE_47EE, 0x43E1_D190);
  }

  lemma PhiloxRound6()
    ensures P.Round(P.Counter(0xD0BE_47EE, 0x222F_0768, 0x43E1_D190, 0xE100_1694), P.Key(0x5956_1278, 0x8E0D_48EE))
         == P.Counter(0x4DFC_CABA, 0x190A_87F0, 0xC473_62BA, 0xB6B5_242A)
  {
    hide Xor;
    XorIsOfBytes(0x36, 0x85, 0xDF, 0xAA, 0x22, 0x2F, 0x07, 0x68);
    XorIsOfBytes(0x14, 0xAA, 0xD8, 0xC2, 0x59, 0x56, 0x12, 0x78);
    XorIsOfBytes(0xAB, 0x7E, 0x3C, 0xC0, 0xE1, 0x00, 0x16, 0x94);
    XorIsOfBytes(0x4A, 0x7E, 0x2A, 0x54, 0x8E, 0x0D, 0x48, 0xEE);
    RoundIs(P.Counter(0xD0BE_47EE, 0x222F_0768, 0x43E1_D190, 0xE100_1694), P.Key(0x5956_1278, 0x8E0D_48EE),
            0xAB7E_3CC0, 0xB6B5_242A, 0x3685_DFAA, 0x190A_87F0, 0x4DFC_CABA, 0xC473_62BA);
  }

  lemma PhiloxRound7()
    ensures P.Round(P.Counter(0x4DFC_CABA, 0x190A_87F0, 0xC473_62BA, 0xB6B5_242A), P.Key(0xF78D_8C31, 0x4974_F773))
         == P.Counter(0x734D_1A7D, 0x3162_FF36, 0xBFD3_C78A, 0x9E5C_404E)
  {
    hide Xor;
    XorIsOfBytes(0x9D, 0xCA, 0x11, 0xBC, 0x19, 0x0A, 0x87, 0xF0);
    XorIsOfBytes(0x84, 0xC0, 0x96, 0x4C, 0xF7, 0x8D, 0x8C, 0x31);
    XorIsOfBytes(0x40, 0x12, 0x14, 0xD3, 0xB6, 0xB5, 0x24, 0x2A);
    XorIsOfBytes(0xF6, 0xA7, 0x30, 0xF9, 0x49, 0x74, 0xF7, 0x73);
    RoundIs(P.Counter(0x4DFC_CABA, 0x190A_87F0, 0xC473_62BA, 0xB6B5_242A), P.Key(0xF78D_8C31, 0x4974_F773),
            0x4012_14D3, 0x9E5C_404E, 0x9DCA_11BC, 0x3162_FF36, 0x734D_1A7D, 0xBFD3_C78A);
  }

  lemma PhiloxRound8()
    ensures P.Round(P.Counter(0x734D_1A7D, 0x3162_FF36, 0xBFD3_C78A, 0x9E5C_404E), P.Key(0x95C5_05EA, 0x04DC_A5F8))
         == P.Counter(0x3EB4_9FBB, 0x7F0B_D1E6, 0xC439_2C8D, 0xA3C1_B987)
  {
    hide Xor;
    XorIsOfBytes(0x9A, 0x13, 0x65, 0x67, 0x31, 0x62, 0xFF, 0x36);
    XorIsOfBytes(0xAB, 0x71, 0x9A, 0x51, 0x95, 0xC5, 0x05, 0xEA);
    XorIsOfBytes(0x5E, 0xB9, 0xC9, 0x3B, 0x9E, 0x5C, 0x40, 0x4E);
    XorIsOfBytes(0xC0, 0xE5, 0x89, 0x75, 0x04, 0xDC, 0xA5, 0xF8);
    RoundIs(P.Counter(0x734D_1A7D, 0x3162_FF36, 0xBFD3_C78A, 0x9E5C_404E), P.Key(0x95C5_05EA, 0x04DC_A5F8),
            0x5EB9_C93B, 0xA3C1_B987, 0x9A13_6567, 0x7F0B_D1E6, 0x3EB4_9FBB, 0xC439_2C8D);
  }

  lemma PhiloxRound9()
    ensures P.Round(P.Counter(0x3EB4_9FBB, 0x7F0B_D1E6, 0xC439_2C8D, 0xA3C1_B987), P.Key(0x33FC_7FA3, 0xC044_547D))
         == P.Counter(0xD16C_FE09, 0x94FD_CCEB, 0x5001_E420, 0x2412_6EA1)
  {
    hide Xor;
    XorIsOfBytes(0x9D, 0x9B, 0x50, 0x4C, 0x7F, 0x0B, 0xD1, 0xE6);
    XorIsOfBytes(0xE2, 0x90, 0x81, 0xAA, 0x33, 0xFC, 0x7F, 0xA3);
    XorIsOfBytes(0x33, 0x84, 0x09, 0xDA, 0xA3, 0xC1, 0xB9, 0x87);
    XorIsOfBytes(0x90, 0x45, 0xB0, 0x5D, 0xC0, 0x44, 0x54, 0x7D);
    RoundIs(P.Counter(0x3EB4_9FBB, 0x7F0B_D1E6, 0xC439_2C8D, 0xA3C1_B987), P.Key(0x33FC_7FA3, 0xC044_547D),
            0x3384_09DA, 0x2412_6EA1, 0x9D9B_504C, 0x94FD_CCEB, 0xD16C_FE09, 0x5001_E420);
  }

  lemma PhiloxKeys()
    ensures P.Bumps(P.Key(0xA409_3822, 0x299F_31D0), 0) == P.Key(0xA409_3822, 0x299F_31D0)
    ensures P.Bumps(P.Key(0xA409_3822, 0x299F_31D0), 1) == P.Key(0x4240_B1DB, 0xE506_E055)
    ensures P.Bumps(P.Key(0xA409_3822, 0x299F_31D0), 2) == P.Key(0xE078_2B94, 0xA06E_8EDA)
    ensures P.Bumps(P.Key(0xA409_3822, 0x299F_31D0), 3) == P.Key(0x7EAF_A54D, 0x5BD6_3D5F)
    ensures P.Bumps(P.Key(0xA409_3822, 0x299F_31D0), 4) == P.Key(0x1CE7_1F06, 0x173D_EBE4)
    ensures P.Bumps(P.Key(0xA409_3822, 0x299F_31D0), 5) == P.Key(0xBB1E_98BF, 0xD2A5_9A69)
    ensures P.Bumps(P.Key(0xA409_3822, 0x299F_31D0), 6) == P.Key(0x5956_1278, 0x8E0D_48EE)
    ensures P.Bumps(P.Key(0xA409_3822, 0x299F_31D0), 7) == P.Key(0xF78D_8C31, 0x4974_F773)
    ensures P.Bumps(P.Key(0xA409_3822, 0x299F_31D0), 8) == P.Key(0x95C5_05EA, 0x04DC_A5F8)
    ensures P.Bumps(P.Key(0xA409_3822, 0x299F_31D0), 9) == P.Key(0x33FC_7FA3, 0xC044_547D)
  {
    P.NextRound(P.Counter(0, 0, 0, 0), P.Key(0xA409_3822, 0x299F_31D0), 0);
    P.NextRound(P.Counter(0, 0, 0, 0), P.Key(0xA409_3822, 0x299F_31D0), 1);
    P.NextRound(P.Counter(0, 0, 0, 0), P.Key(0xA409_3822, 0x299F_31D0), 2);
    P.NextRound(P.Counter(0, 0, 0, 0), P.Key(0xA409_3822, 0x299F_31D0), 3);
    P.NextRound(P.Counter(0, 0, 0, 0), P.Key(0xA409_3822, 0x299F_31D0), 4);
    P.NextRound(P.Counter(0, 0, 0, 0), P.Key(0xA409_3822, 0x299F_31D0), 5);
    P.NextRound(P.Counter(0, 0, 0, 0), P.Key(0xA409_3822, 0x299F_31D0), 6);
    P.NextRound(P.Counter(0, 0, 0, 0), P.Key(0xA409_3822, 0x299F_31D0), 7);
    P.NextRound(P.Counter(0, 0, 0, 0), P.Key(0xA409_3822, 0x299F_31D0), 8);
  }

  lemma PhiloxAnswer()
    ensures P.Philox10(P.Key(0xA409_3822, 0x299F_31D0), P.Counter(0x243F_6A88, 0x85A3_08D3, 0x1319_8A2E, 0x0370_7344))
         == P.Counter(0xD16C_FE09, 0x94FD_CCEB, 0x5001_E420, 0x2412_6EA1)
  {
    hide P.Round, P.Rounds, P.Bumps, P.Bumped;
    var k, x := P.Key(0xA409_3822, 0x299F_31D0), P.Counter(0x243F_6A88, 0x85A3_08D3, 0x1319_8A2E, 0x0370_7344);
    PhiloxKeys();
    P.NextRound(x, k, 0);
    PhiloxRound0();
    P.NextRound(x, k, 1);
    PhiloxRound1();
    P.NextRound(x, k, 2);
    PhiloxRound2();
    P.NextRound(x, k, 3);
    PhiloxRound3();
    P.NextRound(x, k, 4);
    PhiloxRound4();
    P.NextRound(x, k, 5);
    PhiloxRound5();
    P.NextRound(x, k, 6);
    PhiloxRound6();
    P.NextRound(x, k, 7);
    PhiloxRound7();
    P.NextRound(x, k, 8);
    PhiloxRound8();
    P.NextRound(x, k, 9);
    PhiloxRound9();
    P.TenRounds(x, k);
  }

  // ---- Threefry ----

  lemma Powers()
    ensures Pow2(3) == 8 && Pow2(6) == 64 && Pow2(8) == 256 && Pow2(13) == 8192 && Pow2(15) == 32768
    ensures Pow2(16) == 65536 && Pow2(17) == 131072 && Pow2(19) == 524288
    ensures Pow2(24) == 16777216 && Pow2(26) == 67108864
    ensures Pow2(29) == 536870912
  {
    assert Pow2(8) == 256 && Pow2(16) == 65536;
    assert Pow2(24) == 0x100_0000;
  }

  lemma TurnIs(x: Word, r: nat, high: nat, low: nat, q: nat, rest: nat)
    requires 0 < r < 32 && Pow2(32 - r) == high && Pow2(r) == low && x == q * high + rest && rest < high
    ensures RotateLeft(x, r) == rest * low + q
  {
    hide Pow2;
    DivModUnique(x, high, q, rest);
  }

  lemma ThreefryRound0()
    ensures T.Round(T.Pair(0x3758_F4B6, 0x8913_7C17), T.Rotation(0)) == T.Pair(0xC06C_70CD, 0xAFEE_81EF)
  {
    hide Xor, Pow2, RotateLeft;
    Powers();
    TurnIs(0x8913_7C17, 13, 524288, 8192, 4386, 228375);
    XorIsOfBytes(0x6F, 0x82, 0xF1, 0x22, 0xC0, 0x6C, 0x70, 0xCD);
  }

  lemma ThreefryRound1()
    ensures T.Round(T.Pair(0xC06C_70CD, 0xAFEE_81EF), T.Rotation(1)) == T.Pair(0x705A_F2BC, 0x30AD_254B)
  {
    hide Xor, Pow2, RotateLeft;
    Powers();
    TurnIs(0xAFEE_81EF, 15, 131072, 32768, 22519, 33263);
    XorIsOfBytes(0x40, 0xF7, 0xD7, 0xF7, 0x70, 0x5A, 0xF2, 0xBC);
  }

  lemma ThreefryRound2()
    ensures T.Round(T.Pair(0x705A_F2BC, 0x30AD_254B), T.Rotation(2)) == T.Pair(0xA108_1807, 0x8DCA_AC92)
  {
    hide Xor, Pow2, RotateLeft;
    Powers();
    TurnIs(0x30AD_254B, 26, 64, 67108864, 12760213, 11);
    XorIsOfBytes(0x2C, 0xC2, 0xB4, 0x95, 0xA1, 0x08, 0x18, 0x07);
  }

  lemma ThreefryRound3()
    ensures T.Round(T.Pair(0xA108_1807, 0x8DCA_AC92), T.Rotation(3)) == T.Pair(0x2ED2_C499, 0x5C79_E03A)
  {
    hide Xor, Pow2, RotateLeft;
    Powers();
    TurnIs(0x8DCA_AC92, 6, 67108864, 64, 35, 30059666);
    XorIsOfBytes(0x72, 0xAB, 0x24, 0xA3, 0x2E, 0xD2, 0xC4, 0x99);
  }

  lemma ThreefryRound4()
    ensures T.Round(T.Pair(0x3243_37DD, 0x6832_C2EB), T.Rotation(4)) == T.Pair(0x9A75_FAC8, 0x1FA3_2AAD)
  {
    hide Xor, Pow2, RotateLeft;
    Powers();
    TurnIs(0x6832_C2EB, 17, 32768, 131072, 53349, 17131);
    XorIsOfBytes(0x85, 0xD6, 0xD0, 0x65, 0x9A, 0x75, 0xFA, 0xC8);
  }

  lemma ThreefryRound5()
    ensures T.Round(T.Pair(0x9A75_FAC8, 0x1FA3_2AAD), T.Rotation(5)) == T.Pair(0xBA19_2575, 0x19ED_4020)
  {
    hide Xor, Pow2, RotateLeft;
    Powers();
    TurnIs(0x1FA3_2AAD, 29, 8, 536870912, 66348373, 5);
    XorIsOfBytes(0xA3, 0xF4, 0x65, 0x55, 0xBA, 0x19, 0x25, 0x75);
  }

  lemma ThreefryRound6()
    ensures T.Round(T.Pair(0xBA19_2575, 0x19ED_4020), T.Rotation(6)) == T.Pair(0xD406_6595, 0x9426_7C78)
  {
    hide Xor, Pow2, RotateLeft;
    Powers();
    TurnIs(0x19ED_4020, 16, 65536, 65536, 6637, 16416);
    XorIsOfBytes(0x40, 0x20, 0x19, 0xED, 0xD4, 0x06, 0x65, 0x95);
  }

  lemma ThreefryRound7()
    ensures T.Round(T.Pair(0xD406_6595, 0x9426_7C78), T.Rotation(7)) == T.Pair(0x682C_E20D, 0x10B8_C471)
  {
    hide Xor, Pow2, RotateLeft;
    Powers();
    TurnIs(0x9426_7C78, 24, 256, 16777216, 9709180, 120);
    XorIsOfBytes(0x78, 0x94, 0x26, 0x7C, 0x68, 0x2C, 0xE2, 0x0D);
  }

  lemma ThreefryRound8()
    ensures T.Round(T.Pair(0x73E5_C4BD, 0x23D2_4EA1), T.Rotation(8)) == T.Pair(0x97B8_135E, 0xDE6C_3724)
  {
    hide Xor, Pow2, RotateLeft;
    Powers();
    TurnIs(0x23D2_4EA1, 13, 524288, 8192, 1146, 151201);
    XorIsOfBytes(0x49, 0xD4, 0x24, 0x7A, 0x97, 0xB8, 0x13, 0x5E);
  }

  lemma ThreefryRound9()
    ensures T.Round(T.Pair(0x97B8_135E, 0xDE6C_3724), T.Rotation(9)) == T.Pair(0x7624_4A82, 0x6DB6_25B4)
  {
    hide Xor, Pow2, RotateLeft;
    Powers();
    TurnIs(0xDE6C_3724, 15, 131072, 32768, 28470, 14116);
    XorIsOfBytes(0x1B, 0x92, 0x6F, 0x36, 0x76, 0x24, 0x4A, 0x82);
  }

  lemma ThreefryRound10()
    ensures T.Round(T.Pair(0x7624_4A82, 0x6DB6_25B4), T.Rotation(10)) == T.Pair(0xE3DA_7036, 0x326C_A8A0)
  {
    hide Xor, Pow2, RotateLeft;
    Powers();
    TurnIs(0x6DB6_25B4, 26, 64, 67108864, 28760214, 52);
    XorIsOfBytes(0xD1, 0xB6, 0xD8, 0x96, 0xE3, 0xDA, 0x70, 0x36);
  }

  lemma ThreefryRound11()
    ensures T.Round(T.Pair(0xE3DA_7036, 0x326C_A8A0), T.Rotation(11)) == T.Pair(0x1647_18D6, 0x8D6D_30DA)
  {
    hide Xor, Pow2, RotateLeft;
    Powers();
    TurnIs(0x326C_A8A0, 6, 67108864, 64, 12, 40675488);
    XorIsOfBytes(0x9B, 0x2A, 0x28, 0x0C, 0x16, 0x47, 0x18, 0xD6);
  }

  lemma ThreefryRound12()
    ensures T.Round(T.Pair(0x2960_A304, 0x90DD_A421), T.Rotation(12)) == T.Pair(0xBA3E_4725, 0xF27D_669E)
  {
    hide Xor, Pow2, RotateLeft;
    Powers();
    TurnIs(0x90DD_A421, 17, 32768, 131072, 74171, 9249);
    XorIsOfBytes(0x48, 0x43, 0x21, 0xBB, 0xBA, 0x3E, 0x47, 0x25);
  }

  lemma ThreefryRound13()
    ensures T.Round(T.Pair(0xBA3E_4725, 0xF27D_669E), T.Rotation(13)) == T.Pair(0xACBB_ADC3, 0x72F4_0110)
  {
    hide Xor, Pow2, RotateLeft;
    Powers();
    TurnIs(0xF27D_669E, 29, 8, 536870912, 508538067, 6);
    XorIsOfBytes(0xDE, 0x4F, 0xAC, 0xD3, 0xAC, 0xBB, 0xAD, 0xC3);
  }

  lemma ThreefryRound14()
    ensures T.Round(T.Pair(0xACBB_ADC3, 0x72F4_0110), T.Rotation(14)) == T.Pair(0x1FAF_AED3, 0x1EBF_DC27)
  {
    hide Xor, Pow2, RotateLeft;
    Powers();
    TurnIs(0x72F4_0110, 16, 65536, 65536, 29428, 272);
    XorIsOfBytes(0x01, 0x10, 0x72, 0xF4, 0x1F, 0xAF, 0xAE, 0xD3);
  }

  lemma ThreefryRound15()
    ensures T.Round(T.Pair(0x1FAF_AED3, 0x1EBF_DC27), T.Rotation(15)) == T.Pair(0x3E6F_8AFA, 0x1971_3526)
  {
    hide Xor, Pow2, RotateLeft;
    Powers();
    TurnIs(0x1EBF_DC27, 24, 256, 16777216, 2015196, 39);
    XorIsOfBytes(0x27, 0x1E, 0xBF, 0xDC, 0x3E, 0x6F, 0x8A, 0xFA);
  }

  lemma ThreefryRound16()
    ensures T.Round(T.Pair(0x41DF_FE3E, 0x252A_17DA), T.Rotation(16)) == T.Pair(0x670A_1618, 0x25F1_52BD)
  {
    hide Xor, Pow2, RotateLeft;
    Powers();
    TurnIs(0x252A_17DA, 13, 524288, 8192, 1189, 137178);
    XorIsOfBytes(0x42, 0xFB, 0x44, 0xA5, 0x67, 0x0A, 0x16, 0x18);
  }

  lemma ThreefryRound17()
    ensures T.Round(T.Pair(0x670A_1618, 0x25F1_52BD), T.Rotation(17)) == T.Pair(0x8CFB_68D5, 0x25A5_FA2D)
  {
    hide Xor, Pow2, RotateLeft;
    Powers();
    TurnIs(0x25F1_52BD, 15, 131072, 32768, 4856, 86717);
    XorIsOfBytes(0xA9, 0x5E, 0x92, 0xF8, 0x8C, 0xFB, 0x68, 0xD5);
  }

  lemma ThreefryRound18()
    ensures T.Round(T.Pair(0x8CFB_68D5, 0x25A5_FA2D), T.Rotation(18)) == T.Pair(0xB2A1_6302, 0x0637_F4EA)
  {
    hide Xor, Pow2, RotateLeft;
    Powers();
    TurnIs(0x25A5_FA2D, 26, 64, 67108864, 9869288, 45);
    XorIsOfBytes(0xB4, 0x96, 0x97, 0xE8, 0xB2, 0xA1, 0x63, 0x02);
  }

  lemma ThreefryRound19()
    ensures T.Round(T.Pair(0xB2A1_6302, 0x0637_F4EA), T.Rotation(19)) == T.Pair(0xB8D9_57EC, 0x3524_6D6D)
  {
    hide Xor, Pow2, RotateLeft;
    Powers();
    TurnIs(0x0637_F4EA, 6, 67108864, 64, 1, 37221610);
    XorIsOfBytes(0x8D, 0xFD, 0x3A, 0x81, 0xB8, 0xD9, 0x57, 0xEC);
  }

  lemma ThreefryKeys()
    ensures T.ScheduleOf(T.Pair(0x1319_8A2E, 0x0370_7344)) == T.Schedule(0x1319_8A2E, 0x0370_7344, 0x0BB8_E2B0)
  {
    hide Xor;
    XorIsOfBytes(0x13, 0x19, 0x8A, 0x2E, 0x03, 0x70, 0x73, 0x44);
    XorIsOfBytes(0x10, 0x69, 0xF9, 0x6A, 0x1B, 0xD1, 0x1B, 0xDA);
  }

  lemma ThreefryNext(x: T.Pair, ks: T.Schedule, n: nat)
    requires n < 20
    ensures T.Rounds(x, ks, 0) == x
    ensures T.Rounds(x, ks, n + 1) ==
      var y := T.Round(T.Rounds(x, ks, n), T.Rotation(n));
      if (n + 1) % 4 == 0 then T.Injected(y, ks, (n + 1) / 4) else y
  {
    hide T.Round, T.Injected, T.Rotation;
  }

  lemma ThreefryInjection1()
    ensures T.Injected(T.Pair(0x2ED2_C499, 0x5C79_E03A), T.Schedule(0x1319_8A2E, 0x0370_7344, 0x0BB8_E2B0), 1)
         == T.Pair(0x3243_37DD, 0x6832_C2EB)
  {}

  lemma ThreefryRounds4(x: T.Pair)
    requires T.Rounds(x, T.Schedule(0x1319_8A2E, 0x0370_7344, 0x0BB8_E2B0), 0) == T.Pair(0x3758_F4B6, 0x8913_7C17)
    ensures T.Rounds(x, T.Schedule(0x1319_8A2E, 0x0370_7344, 0x0BB8_E2B0), 4)
         == T.Pair(0x3243_37DD, 0x6832_C2EB)
  {
    hide *;
    var ks := T.Schedule(0x1319_8A2E, 0x0370_7344, 0x0BB8_E2B0);
    ThreefryNext(x, ks, 0);
    ThreefryRound0();
    ThreefryNext(x, ks, 1);
    ThreefryRound1();
    ThreefryNext(x, ks, 2);
    ThreefryRound2();
    ThreefryNext(x, ks, 3);
    ThreefryRound3();
    ThreefryInjection1();
  }

  lemma ThreefryInjection2()
    ensures T.Injected(T.Pair(0x682C_E20D, 0x10B8_C471), T.Schedule(0x1319_8A2E, 0x0370_7344, 0x0BB8_E2B0), 2)
         == T.Pair(0x73E5_C4BD, 0x23D2_4EA1)
  {}

  lemma ThreefryRounds8(x: T.Pair)
    requires T.Rounds(x, T.Schedule(0x1319_8A2E, 0x0370_7344, 0x0BB8_E2B0), 4) == T.Pair(0x3243_37DD, 0x6832_C2EB)
    ensures T.Rounds(x, T.Schedule(0x1319_8A2E, 0x0370_7344, 0x0BB8_E2B0), 8)
         == T.Pair(0x73E5_C4BD, 0x23D2_4EA1)
  {
    hide *;
    var ks := T.Schedule(0x1319_8A2E, 0x0370_7344, 0x0BB8_E2B0);
    ThreefryNext(x, ks, 4);
    ThreefryRound4();
    ThreefryNext(x, ks, 5);
    ThreefryRound5();
    ThreefryNext(x, ks, 6);
    ThreefryRound6();
    ThreefryNext(x, ks, 7);
    ThreefryRound7();
    ThreefryInjection2();
  }

  lemma ThreefryInjection3()
    ensures T.Injected(T.Pair(0x1647_18D6, 0x8D6D_30DA), T.Schedule(0x1319_8A2E, 0x0370_7344, 0x0BB8_E2B0), 3)
         == T.Pair(0x2960_A304, 0x90DD_A421)
  {}

  lemma ThreefryRounds12(x: T.Pair)
    requires T.Rounds(x, T.Schedule(0x1319_8A2E, 0x0370_7344, 0x0BB8_E2B0), 8) == T.Pair(0x73E5_C4BD, 0x23D2_4EA1)
    ensures T.Rounds(x, T.Schedule(0x1319_8A2E, 0x0370_7344, 0x0BB8_E2B0), 12)
         == T.Pair(0x2960_A304, 0x90DD_A421)
  {
    hide *;
    var ks := T.Schedule(0x1319_8A2E, 0x0370_7344, 0x0BB8_E2B0);
    ThreefryNext(x, ks, 8);
    ThreefryRound8();
    ThreefryNext(x, ks, 9);
    ThreefryRound9();
    ThreefryNext(x, ks, 10);
    ThreefryRound10();
    ThreefryNext(x, ks, 11);
    ThreefryRound11();
    ThreefryInjection3();
  }

  lemma ThreefryInjection4()
    ensures T.Injected(T.Pair(0x3E6F_8AFA, 0x1971_3526), T.Schedule(0x1319_8A2E, 0x0370_7344, 0x0BB8_E2B0), 4)
         == T.Pair(0x41DF_FE3E, 0x252A_17DA)
  {}

  lemma ThreefryRounds16(x: T.Pair)
    requires T.Rounds(x, T.Schedule(0x1319_8A2E, 0x0370_7344, 0x0BB8_E2B0), 12) == T.Pair(0x2960_A304, 0x90DD_A421)
    ensures T.Rounds(x, T.Schedule(0x1319_8A2E, 0x0370_7344, 0x0BB8_E2B0), 16)
         == T.Pair(0x41DF_FE3E, 0x252A_17DA)
  {
    hide *;
    var ks := T.Schedule(0x1319_8A2E, 0x0370_7344, 0x0BB8_E2B0);
    ThreefryNext(x, ks, 12);
    ThreefryRound12();
    ThreefryNext(x, ks, 13);
    ThreefryRound13();
    ThreefryNext(x, ks, 14);
    ThreefryRound14();
    ThreefryNext(x, ks, 15);
    ThreefryRound15();
    ThreefryInjection4();
  }

  lemma ThreefryInjection5()
    ensures T.Injected(T.Pair(0xB8D9_57EC, 0x3524_6D6D), T.Schedule(0x1319_8A2E, 0x0370_7344, 0x0BB8_E2B0), 5)
         == T.Pair(0xC492_3A9C, 0x483D_F7A0)
  {}

  lemma ThreefryRounds20(x: T.Pair)
    requires T.Rounds(x, T.Schedule(0x1319_8A2E, 0x0370_7344, 0x0BB8_E2B0), 16) == T.Pair(0x41DF_FE3E, 0x252A_17DA)
    ensures T.Rounds(x, T.Schedule(0x1319_8A2E, 0x0370_7344, 0x0BB8_E2B0), 20)
         == T.Pair(0xC492_3A9C, 0x483D_F7A0)
  {
    hide *;
    var ks := T.Schedule(0x1319_8A2E, 0x0370_7344, 0x0BB8_E2B0);
    ThreefryNext(x, ks, 16);
    ThreefryRound16();
    ThreefryNext(x, ks, 17);
    ThreefryRound17();
    ThreefryNext(x, ks, 18);
    ThreefryRound18();
    ThreefryNext(x, ks, 19);
    ThreefryRound19();
    ThreefryInjection5();
  }

  lemma ThreefryInjection0()
    ensures T.Injected(T.Pair(0x243F_6A88, 0x85A3_08D3), T.Schedule(0x1319_8A2E, 0x0370_7344, 0x0BB8_E2B0), 0)
         == T.Pair(0x3758_F4B6, 0x8913_7C17)
  {}

  lemma ThreefryIs(k: T.Pair, counter: T.Pair)
    ensures T.Threefry20(k, counter) == T.Rounds(T.Injected(counter, T.ScheduleOf(k), 0), T.ScheduleOf(k), 20)
  {
    hide T.Rounds, T.Injected, T.ScheduleOf;
  }

  lemma ThreefryAnswer()
    ensures T.Threefry20(T.Pair(0x1319_8A2E, 0x0370_7344), T.Pair(0x243F_6A88, 0x85A3_08D3))
         == T.Pair(0xC492_3A9C, 0x483D_F7A0)
  {
    hide T.Rounds, T.Injected, T.ScheduleOf, T.Threefry20;
    var x := T.Pair(0x3758_F4B6, 0x8913_7C17);
    ThreefryIs(T.Pair(0x1319_8A2E, 0x0370_7344), T.Pair(0x243F_6A88, 0x85A3_08D3));
    ThreefryKeys();
    ThreefryInjection0();
    ThreefryNext(x, T.Schedule(0x1319_8A2E, 0x0370_7344, 0x0BB8_E2B0), 0);
    ThreefryRounds4(x);
    ThreefryRounds8(x);
    ThreefryRounds12(x);
    ThreefryRounds16(x);
    ThreefryRounds20(x);
  }
}
