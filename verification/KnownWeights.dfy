/** Known values of the hash and of the weights, computed digit by digit: the two
    one-letter ids `a` and `c` under the shards 0 and 1. */
module KnownWeights {
  import opened ByteStrings
  import opened Words
  import opened Rendezvous
  import opened ShardMaps
  import opened Weights

  function Differ(p: nat, q: nat): nat { if p == q then 0 else 1 }

  lemma XorHalf(a: nat, b: nat)
    ensures Xor(a, b) == 2 * Xor(a / 2, b / 2) + (a + b) % 2
  {}

  /** One more bit on the right. */
  lemma XorBit(a: nat, b: nat, r: nat, p: nat, q: nat)
    requires Xor(a, b) == r && p < 2 && q < 2
    ensures Xor(2 * a + p, 2 * b + q) == 2 * r + Differ(p, q)
  {
    hide Xor;
    XorHalf(2 * a + p, 2 * b + q);
    assert (2 * a + p) / 2 == a && (2 * b + q) / 2 == b;
  }

  /** One more hexadecimal digit on the right, given bit by bit. */
  lemma XorNibble(a: nat, b: nat, r: nat, p3: nat, p2: nat, p1: nat, p0: nat, q3: nat, q2: nat, q1: nat, q0: nat)
    requires Xor(a, b) == r && p3 < 2 && p2 < 2 && p1 < 2 && p0 < 2 && q3 < 2 && q2 < 2 && q1 < 2 && q0 < 2
    ensures Xor(16 * a + 8 * p3 + 4 * p2 + 2 * p1 + p0, 16 * b + 8 * q3 + 4 * q2 + 2 * q1 + q0)
         == 16 * r + 8 * Differ(p3, q3) + 4 * Differ(p2, q2) + 2 * Differ(p1, q1) + Differ(p0, q0)
  {
    hide Xor, Differ;
    XorBit(a, b, r, p3, q3);
    var a', b', r' := 2 * a + p3, 2 * b + q3, 2 * r + Differ(p3, q3);
    XorBit(a', b', r', p2, q2);
    a', b', r' := 2 * a' + p2, 2 * b' + q2, 2 * r' + Differ(p2, q2);
    XorBit(a', b', r', p1, q1);
    a', b', r' := 2 * a' + p1, 2 * b' + q1, 2 * r' + Differ(p1, q1);
    XorBit(a', b', r', p0, q0);
  }

  lemma XorNothing(a: nat)
    ensures Xor(a, 0) == a
  {}

  /** Shifting right is dividing by a power of two. */
  lemma {:induction false} ShiftDivides(x: nat, k: nat)
    ensures ShiftRight(x, k) == x / Pow2(k)
  {
    if k > 0 {
      ShiftDivides(x / 2, k - 1);
      DivideTwice(x, Pow2(k - 1));
    }
  }

  lemma DivideTwice(x: nat, m: nat)
    requires m > 0
    ensures x / 2 / m == x / (2 * m)
  {
    var q, r := x / (2 * m), x % (2 * m);
    assert x == q * (2 * m) + r;
    assert x / 2 == q * m + r / 2 && r / 2 < m by { assert q * (2 * m) == 2 * (q * m); }
    QuotientIs(x / 2, m, q, r / 2);
  }

  lemma KnownHashes()
    ensures FnvOf([]) == 0xcbf2_9ce4_8422_2325 && FnvOf([97]) == 0xaf63_dc4c_8601_ec8c && FnvOf([99]) == 0xaf63_de4c_8601_eff2
  {
    hide Xor;
    FnvGrows([], 97);
    FnvGrows([], 99);
    assert [] + [97] == [97] && [] + [99] == [99];
    XorNothing(0xcb_f29c_e484_2223);
    XorNibble(0xcb_f29c_e484_2223, 0x0, 0xcb_f29c_e484_2223, 0, 0, 1, 0, 0, 1, 1, 0);
    XorNibble(0xcbf_29ce_4842_2232, 0x6, 0xcbf_29ce_4842_2234, 0, 1, 0, 1, 0, 0, 0, 1);
    XorNothing(0xcb_f29c_e484_2223);
    XorNibble(0xcb_f29c_e484_2223, 0x0, 0xcb_f29c_e484_2223, 0, 0, 1, 0, 0, 1, 1, 0);
    XorNibble(0xcbf_29ce_4842_2232, 0x6, 0xcbf_29ce_4842_2234, 0, 1, 0, 1, 0, 0, 1, 1);
  }

  lemma Powers()
    ensures Pow2(27) == 0x800_0000 && Pow2(30) == 0x4000_0000 && Pow2(31) == 0x8000_0000
  {
    assert Pow2(8) == 0x100;
    Power8(8);
    Power8(16);
    assert Pow2(26) == 4 * Pow2(24);
    assert Pow2(28) == 4 * Pow2(26);
    assert Pow2(30) == 4 * Pow2(28);
  }

  lemma Finalized(x: nat, u: nat, y: nat, v: nat, z: nat, r: nat)
    requires XorShift(x, 30) == u && (u * MIX1) % WORD == y && XorShift(y, 27) == v && (v * MIX2) % WORD == z && XorShift(z, 31) == r
    ensures Finalize(x) == r
  {}

  /** One stage of the finalizer, given what the shift and the exclusive or come to. */
  lemma Stage(x: nat, k: nat, m: nat, shifted: nat, r: nat)
    requires Pow2(k) == m && x / m == shifted && Xor(x, shifted) == r
    ensures XorShift(x, k) == r
  {
    ShiftDivides(x, k);
  }

  lemma MixA01()
    ensures XorShift(0xaf63_dc4c_8601_ec8c, 30) == 0xaf63_dc4e_3b8e_9dbe
  {
    hide Xor, XorShift, Pow2;
    Powers();
    XorNothing(0xaf6_3dc4);
    XorNibble(0xaf6_3dc4, 0x0, 0xaf6_3dc4, 1, 1, 0, 0, 0, 0, 1, 0);
    XorNibble(0xaf63_dc4c, 0x2, 0xaf63_dc4e, 1, 0, 0, 0, 1, 0, 1, 1);
    XorNibble(0xa_f63d_c4c8, 0x2b, 0xa_f63d_c4e3, 0, 1, 1, 0, 1, 1, 0, 1);
    XorNibble(0xaf_63dc_4c86, 0x2bd, 0xaf_63dc_4e3b, 0, 0, 0, 0, 1, 0, 0, 0);
    XorNibble(0xaf6_3dc4_c860, 0x2bd8, 0xaf6_3dc4_e3b8, 0, 0, 0, 1, 1, 1, 1, 1);
    XorNibble(0xaf63_dc4c_8601, 0x2_bd8f, 0xaf63_dc4e_3b8e, 1, 1, 1, 0, 0, 1, 1, 1);
    XorNibble(0xa_f63d_c4c8_601e, 0x2b_d8f7, 0xa_f63d_c4e3_b8e9, 1, 1, 0, 0, 0, 0, 0, 1);
    XorNibble(0xaf_63dc_4c86_01ec, 0x2bd_8f71, 0xaf_63dc_4e3b_8e9d, 1, 0, 0, 0, 0, 0, 1, 1);
    XorNibble(0xaf6_3dc4_c860_1ec8, 0x2bd8_f713, 0xaf6_3dc4_e3b8_e9db, 1, 1, 0, 0, 0, 0, 1, 0);
    Stage(0xaf63_dc4c_8601_ec8c, 30, 0x4000_0000, 0x2_bd8f_7132, 0xaf63_dc4e_3b8e_9dbe);
  }

  lemma MixA02()
    ensures XorShift(0xbc35_affa_e262_f44e, 27) == 0xbc35_afed_64d7_0b12
  {
    hide Xor, XorShift, Pow2;
    Powers();
    XorNothing(0xbc_35af);
    XorNibble(0xbc_35af, 0x0, 0xbc_35af, 1, 1, 1, 1, 0, 0, 0, 1);
    XorNibble(0xbc3_5aff, 0x1, 0xbc3_5afe, 1, 0, 1, 0, 0, 1, 1, 1);
    XorNibble(0xbc35_affa, 0x17, 0xbc35_afed, 1, 1, 1, 0, 1, 0, 0, 0);
    XorNibble(0xb_c35a_ffae, 0x178, 0xb_c35a_fed6, 0, 0, 1, 0, 0, 1, 1, 0);
    XorNibble(0xbc_35af_fae2, 0x1786, 0xbc_35af_ed64, 0, 1, 1, 0, 1, 0, 1, 1);
    XorNibble(0xbc3_5aff_ae26, 0x1_786b, 0xbc3_5afe_d64d, 0, 0, 1, 0, 0, 1, 0, 1);
    XorNibble(0xbc35_affa_e262, 0x17_86b5, 0xbc35_afed_64d7, 1, 1, 1, 1, 1, 1, 1, 1);
    XorNibble(0xb_c35a_ffae_262f, 0x178_6b5f, 0xb_c35a_fed6_4d70, 0, 1, 0, 0, 1, 1, 1, 1);
    XorNibble(0xbc_35af_fae2_62f4, 0x1786_b5ff, 0xbc_35af_ed64_d70b, 0, 1, 0, 0, 0, 1, 0, 1);
    XorNibble(0xbc3_5aff_ae26_2f44, 0x1_786b_5ff5, 0xbc3_5afe_d64d_70b1, 1, 1, 1, 0, 1, 1, 0, 0);
    Stage(0xbc35_affa_e262_f44e, 27, 0x800_0000, 0x17_86b5_ff5c, 0xbc35_afed_64d7_0b12);
  }

  lemma MixA03()
    ensures XorShift(0x2c0_bdbf_4d95_5b86, 31) == 0x2c0_bdbf_4814_20f8
  {
    hide Xor, XorShift, Pow2;
    Powers();
    XorNothing(0x2c0b_dbf4);
    XorNibble(0x2c0b_dbf4, 0x0, 0x2c0b_dbf4, 1, 1, 0, 1, 0, 1, 0, 1);
    XorNibble(0x2_c0bd_bf4d, 0x5, 0x2_c0bd_bf48, 1, 0, 0, 1, 1, 0, 0, 0);
    XorNibble(0x2c_0bdb_f4d9, 0x58, 0x2c_0bdb_f481, 0, 1, 0, 1, 0, 0, 0, 1);
    XorNibble(0x2c0_bdbf_4d95, 0x581, 0x2c0_bdbf_4814, 0, 1, 0, 1, 0, 1, 1, 1);
    XorNibble(0x2c0b_dbf4_d955, 0x5817, 0x2c0b_dbf4_8142, 1, 0, 1, 1, 1, 0, 1, 1);
    XorNibble(0x2_c0bd_bf4d_955b, 0x5_817b, 0x2_c0bd_bf48_1420, 1, 0, 0, 0, 0, 1, 1, 1);
    XorNibble(0x2c_0bdb_f4d9_55b8, 0x58_17b7, 0x2c_0bdb_f481_420f, 0, 1, 1, 0, 1, 1, 1, 0);
    Stage(0x2c0_bdbf_4d95_5b86, 31, 0x8000_0000, 0x581_7b7e, 0x2c0_bdbf_4814_20f8);
  }

  lemma WeightA0()
    ensures HrwScore(0, [97]) == 0x2c0_bdbf_4814_20f8
  {
    hide FnvOf, XorShift, Finalize;
    KnownHashes();
    MixA01();
    MixA02();
    MixA03();
    Finalized(0xaf63_dc4c_8601_ec8c, 0xaf63_dc4e_3b8e_9dbe, 0xbc35_affa_e262_f44e, 0xbc35_afed_64d7_0b12, 0x2c0_bdbf_4d95_5b86, 0x2c0_bdbf_4814_20f8);
  }

  lemma MixA11()
    ensures XorShift(0x4d9b_5606_054c_68a1, 30) == 0x4d9b_5607_3321_30b9
  {
    hide Xor, XorShift, Pow2;
    Powers();
    XorNothing(0x4d9_b560);
    XorNibble(0x4d9_b560, 0x0, 0x4d9_b560, 0, 1, 1, 0, 0, 0, 0, 1);
    XorNibble(0x4d9b_5606, 0x1, 0x4d9b_5607, 0, 0, 0, 0, 0, 0, 1, 1);
    XorNibble(0x4_d9b5_6060, 0x13, 0x4_d9b5_6073, 0, 1, 0, 1, 0, 1, 1, 0);
    XorNibble(0x4d_9b56_0605, 0x136, 0x4d_9b56_0733, 0, 1, 0, 0, 0, 1, 1, 0);
    XorNibble(0x4d9_b560_6054, 0x1366, 0x4d9_b560_7332, 1, 1, 0, 0, 1, 1, 0, 1);
    XorNibble(0x4d9b_5606_054c, 0x1_366d, 0x4d9b_5607_3321, 0, 1, 1, 0, 0, 1, 0, 1);
    XorNibble(0x4_d9b5_6060_54c6, 0x13_66d5, 0x4_d9b5_6073_3213, 1, 0, 0, 0, 1, 0, 0, 0);
    XorNibble(0x4d_9b56_0605_4c68, 0x136_6d58, 0x4d_9b56_0733_2130, 1, 0, 1, 0, 0, 0, 0, 1);
    XorNibble(0x4d9_b560_6054_c68a, 0x1366_d581, 0x4d9_b560_7332_130b, 0, 0, 0, 1, 1, 0, 0, 0);
    Stage(0x4d9b_5606_054c_68a1, 30, 0x4000_0000, 0x1_366d_5818, 0x4d9b_5607_3321_30b9);
  }

  lemma MixA12()
    ensures XorShift(0x3173_d499_4455_b2b1, 27) == 0x3173_d49f_6a2f_2199
  {
    hide Xor, XorShift, Pow2;
    Powers();
    XorNothing(0x317_3d49);
    XorNibble(0x317_3d49, 0x0, 0x317_3d49, 1, 0, 0, 1, 0, 1, 1, 0);
    XorNibble(0x3173_d499, 0x6, 0x3173_d49f, 0, 1, 0, 0, 0, 0, 1, 0);
    XorNibble(0x3_173d_4994, 0x62, 0x3_173d_49f6, 0, 1, 0, 0, 1, 1, 1, 0);
    XorNibble(0x31_73d4_9944, 0x62e, 0x31_73d4_9f6a, 0, 1, 0, 1, 0, 1, 1, 1);
    XorNibble(0x317_3d49_9445, 0x62e7, 0x317_3d49_f6a2, 0, 1, 0, 1, 1, 0, 1, 0);
    XorNibble(0x3173_d499_4455, 0x6_2e7a, 0x3173_d49f_6a2f, 1, 0, 1, 1, 1, 0, 0, 1);
    XorNibble(0x3_173d_4994_455b, 0x62_e7a9, 0x3_173d_49f6_a2f2, 0, 0, 1, 0, 0, 0, 1, 1);
    XorNibble(0x31_73d4_9944_55b2, 0x62e_7a93, 0x31_73d4_9f6a_2f21, 1, 0, 1, 1, 0, 0, 1, 0);
    XorNibble(0x317_3d49_9445_5b2b, 0x62e7_a932, 0x317_3d49_f6a2_f219, 0, 0, 0, 1, 1, 0, 0, 0);
    Stage(0x3173_d499_4455_b2b1, 27, 0x800_0000, 0x6_2e7a_9328, 0x3173_d49f_6a2f_2199);
  }

  lemma MixA13()
    ensures XorShift(0x5f29_c2aa_63c8_0073, 31) == 0x5f29_c2aa_dd9b_8527
  {
    hide Xor, XorShift, Pow2;
    Powers();
    XorNothing(0x5f29_c2aa);
    XorNibble(0x5f29_c2aa, 0x0, 0x5f29_c2aa, 0, 1, 1, 0, 1, 0, 1, 1);
    XorNibble(0x5_f29c_2aa6, 0xb, 0x5_f29c_2aad, 0, 0, 1, 1, 1, 1, 1, 0);
    XorNibble(0x5f_29c2_aa63, 0xbe, 0x5f_29c2_aadd, 1, 1, 0, 0, 0, 1, 0, 1);
    XorNibble(0x5f2_9c2a_a63c, 0xbe5, 0x5f2_9c2a_add9, 1, 0, 0, 0, 0, 0, 1, 1);
    XorNibble(0x5f29_c2aa_63c8, 0xbe53, 0x5f29_c2aa_dd9b, 0, 0, 0, 0, 1, 0, 0, 0);
    XorNibble(0x5_f29c_2aa6_3c80, 0xb_e538, 0x5_f29c_2aad_d9b8, 0, 0, 0, 0, 0, 1, 0, 1);
    XorNibble(0x5f_29c2_aa63_c800, 0xbe_5385, 0x5f_29c2_aadd_9b85, 0, 1, 1, 1, 0, 1, 0, 1);
    XorNibble(0x5f2_9c2a_a63c_8007, 0xbe5_3855, 0x5f2_9c2a_add9_b852, 0, 0, 1, 1, 0, 1, 0, 0);
    Stage(0x5f29_c2aa_63c8_0073, 31, 0x8000_0000, 0xbe53_8554, 0x5f29_c2aa_dd9b_8527);
  }

  lemma WeightA1()
    ensures HrwScore(1, [97]) == 0x5f29_c2aa_dd9b_8527
  {
    hide FnvOf, XorShift, Finalize;
    KnownHashes();
    MixA11();
    MixA12();
    MixA13();
    Finalized(0x4d9b_5606_054c_68a1, 0x4d9b_5607_3321_30b9, 0x3173_d499_4455_b2b1, 0x3173_d49f_6a2f_2199, 0x5f29_c2aa_63c8_0073, 0x5f29_c2aa_dd9b_8527);
  }

  lemma MixC01()
    ensures XorShift(0xaf63_de4c_8601_eff2, 30) == 0xaf63_de4e_3b8e_96c0
  {
    hide Xor, XorShift, Pow2;
    Powers();
    XorNothing(0xaf6_3de4);
    XorNibble(0xaf6_3de4, 0x0, 0xaf6_3de4, 1, 1, 0, 0, 0, 0, 1, 0);
    XorNibble(0xaf63_de4c, 0x2, 0xaf63_de4e, 1, 0, 0, 0, 1, 0, 1, 1);
    XorNibble(0xa_f63d_e4c8, 0x2b, 0xa_f63d_e4e3, 0, 1, 1, 0, 1, 1, 0, 1);
    XorNibble(0xaf_63de_4c86, 0x2bd, 0xaf_63de_4e3b, 0, 0, 0, 0, 1, 0, 0, 0);
    XorNibble(0xaf6_3de4_c860, 0x2bd8, 0xaf6_3de4_e3b8, 0, 0, 0, 1, 1, 1, 1, 1);
    XorNibble(0xaf63_de4c_8601, 0x2_bd8f, 0xaf63_de4e_3b8e, 1, 1, 1, 0, 0, 1, 1, 1);
    XorNibble(0xa_f63d_e4c8_601e, 0x2b_d8f7, 0xa_f63d_e4e3_b8e9, 1, 1, 1, 1, 1, 0, 0, 1);
    XorNibble(0xaf_63de_4c86_01ef, 0x2bd_8f79, 0xaf_63de_4e3b_8e96, 1, 1, 1, 1, 0, 0, 1, 1);
    XorNibble(0xaf6_3de4_c860_1eff, 0x2bd8_f793, 0xaf6_3de4_e3b8_e96c, 0, 0, 1, 0, 0, 0, 1, 0);
    Stage(0xaf63_de4c_8601_eff2, 30, 0x4000_0000, 0x2_bd8f_7932, 0xaf63_de4e_3b8e_96c0);
  }

  lemma MixC02()
    ensures XorShift(0x9abd_b50a_d9e4_b0c0, 27) == 0x9abd_b519_8e52_119b
  {
    hide Xor, XorShift, Pow2;
    Powers();
    XorNothing(0x9a_bdb5);
    XorNibble(0x9a_bdb5, 0x0, 0x9a_bdb5, 0, 0, 0, 0, 0, 0, 0, 1);
    XorNibble(0x9ab_db50, 0x1, 0x9ab_db51, 1, 0, 1, 0, 0, 0, 1, 1);
    XorNibble(0x9abd_b50a, 0x13, 0x9abd_b519, 1, 1, 0, 1, 0, 1, 0, 1);
    XorNibble(0x9_abdb_50ad, 0x135, 0x9_abdb_5198, 1, 0, 0, 1, 0, 1, 1, 1);
    XorNibble(0x9a_bdb5_0ad9, 0x1357, 0x9a_bdb5_198e, 1, 1, 1, 0, 1, 0, 1, 1);
    XorNibble(0x9ab_db50_ad9e, 0x1_357b, 0x9ab_db51_98e5, 0, 1, 0, 0, 0, 1, 1, 0);
    XorNibble(0x9abd_b50a_d9e4, 0x13_57b6, 0x9abd_b519_8e52, 1, 0, 1, 1, 1, 0, 1, 0);
    XorNibble(0x9_abdb_50ad_9e4b, 0x135_7b6a, 0x9_abdb_5198_e521, 0, 0, 0, 0, 0, 0, 0, 1);
    XorNibble(0x9a_bdb5_0ad9_e4b0, 0x1357_b6a1, 0x9a_bdb5_198e_5211, 1, 1, 0, 0, 0, 1, 0, 1);
    XorNibble(0x9ab_db50_ad9e_4b0c, 0x1_357b_6a15, 0x9ab_db51_98e5_2119, 0, 0, 0, 0, 1, 0, 1, 1);
    Stage(0x9abd_b50a_d9e4_b0c0, 27, 0x800_0000, 0x13_57b6_a15b, 0x9abd_b519_8e52_119b);
  }

  lemma MixC03()
    ensures XorShift(0x7b88_5525_f82c_7449, 31) == 0x7b88_5525_0f3c_de02
  {
    hide Xor, XorShift, Pow2;
    Powers();
    XorNothing(0x7b88_5525);
    XorNibble(0x7b88_5525, 0x0, 0x7b88_5525, 1, 1, 1, 1, 1, 1, 1, 1);
    XorNibble(0x7_b885_525f, 0xf, 0x7_b885_5250, 1, 0, 0, 0, 0, 1, 1, 1);
    XorNibble(0x7b_8855_25f8, 0xf7, 0x7b_8855_250f, 0, 0, 1, 0, 0, 0, 0, 1);
    XorNibble(0x7b8_8552_5f82, 0xf71, 0x7b8_8552_50f3, 1, 1, 0, 0, 0, 0, 0, 0);
    XorNibble(0x7b88_5525_f82c, 0xf710, 0x7b88_5525_0f3c, 0, 1, 1, 1, 1, 0, 1, 0);
    XorNibble(0x7_b885_525f_82c7, 0xf_710a, 0x7_b885_5250_f3cd, 0, 1, 0, 0, 1, 0, 1, 0);
    XorNibble(0x7b_8855_25f8_2c74, 0xf7_10aa, 0x7b_8855_250f_3cde, 0, 1, 0, 0, 0, 1, 0, 0);
    XorNibble(0x7b8_8552_5f82_c744, 0xf71_0aa4, 0x7b8_8552_50f3_cde0, 1, 0, 0, 1, 1, 0, 1, 1);
    Stage(0x7b88_5525_f82c_7449, 31, 0x8000_0000, 0xf710_aa4b, 0x7b88_5525_0f3c_de02);
  }

  lemma WeightC0()
    ensures HrwScore(0, [99]) == 0x7b88_5525_0f3c_de02
  {
    hide FnvOf, XorShift, Finalize;
    KnownHashes();
    MixC01();
    MixC02();
    MixC03();
    Finalized(0xaf63_de4c_8601_eff2, 0xaf63_de4e_3b8e_96c0, 0x9abd_b50a_d9e4_b0c0, 0x9abd_b519_8e52_119b, 0x7b88_5525_f82c_7449, 0x7b88_5525_0f3c_de02);
  }

  lemma MixC11()
    ensures XorShift(0x4d9b_5806_054c_6c07, 30) == 0x4d9b_5807_3321_0c1f
  {
    hide Xor, XorShift, Pow2;
    Powers();
    XorNothing(0x4d9_b580);
    XorNibble(0x4d9_b580, 0x0, 0x4d9_b580, 0, 1, 1, 0, 0, 0, 0, 1);
    XorNibble(0x4d9b_5806, 0x1, 0x4d9b_5807, 0, 0, 0, 0, 0, 0, 1, 1);
    XorNibble(0x4_d9b5_8060, 0x13, 0x4_d9b5_8073, 0, 1, 0, 1, 0, 1, 1, 0);
    XorNibble(0x4d_9b58_0605, 0x136, 0x4d_9b58_0733, 0, 1, 0, 0, 0, 1, 1, 0);
    XorNibble(0x4d9_b580_6054, 0x1366, 0x4d9_b580_7332, 1, 1, 0, 0, 1, 1, 0, 1);
    XorNibble(0x4d9b_5806_054c, 0x1_366d, 0x4d9b_5807_3321, 0, 1, 1, 0, 0, 1, 1, 0);
    XorNibble(0x4_d9b5_8060_54c6, 0x13_66d6, 0x4_d9b5_8073_3210, 1, 1, 0, 0, 0, 0, 0, 0);
    XorNibble(0x4d_9b58_0605_4c6c, 0x136_6d60, 0x4d_9b58_0733_210c, 0, 0, 0, 0, 0, 0, 0, 1);
    XorNibble(0x4d9_b580_6054_c6c0, 0x1366_d601, 0x4d9_b580_7332_10c1, 0, 1, 1, 1, 1, 0, 0, 0);
    Stage(0x4d9b_5806_054c_6c07, 30, 0x4000_0000, 0x1_366d_6018, 0x4d9b_5807_3321_0c1f);
  }

  lemma MixC12()
    ensures XorShift(0x7618_f6e5_b255_7d67, 27) == 0x7618_f6eb_714b_a1d1
  {
    hide Xor, XorShift, Pow2;
    Powers();
    XorNothing(0x761_8f6e);
    XorNibble(0x761_8f6e, 0x0, 0x761_8f6e, 0, 1, 0, 1, 1, 1, 1, 0);
    XorNibble(0x7618_f6e5, 0xe, 0x7618_f6eb, 1, 0, 1, 1, 1, 1, 0, 0);
    XorNibble(0x7_618f_6e5b, 0xec, 0x7_618f_6eb7, 0, 0, 1, 0, 0, 0, 1, 1);
    XorNibble(0x76_18f6_e5b2, 0xec3, 0x76_18f6_eb71, 0, 1, 0, 1, 0, 0, 0, 1);
    XorNibble(0x761_8f6e_5b25, 0xec31, 0x761_8f6e_b714, 0, 1, 0, 1, 1, 1, 1, 0);
    XorNibble(0x7618_f6e5_b255, 0xe_c31e, 0x7618_f6eb_714b, 0, 1, 1, 1, 1, 1, 0, 1);
    XorNibble(0x7_618f_6e5b_2557, 0xec_31ed, 0x7_618f_6eb7_14ba, 1, 1, 0, 1, 1, 1, 0, 0);
    XorNibble(0x76_18f6_e5b2_557d, 0xec3_1edc, 0x76_18f6_eb71_4ba1, 0, 1, 1, 0, 1, 0, 1, 1);
    XorNibble(0x761_8f6e_5b25_57d6, 0xec31_edcb, 0x761_8f6e_b714_ba1d, 0, 1, 1, 1, 0, 1, 1, 0);
    Stage(0x7618_f6e5_b255_7d67, 27, 0x800_0000, 0xe_c31e_dcb6, 0x7618_f6eb_714b_a1d1);
  }

  lemma MixC13()
    ensures XorShift(0x6efd_65ce_822d_6bdb, 31) == 0x6efd_65ce_5fd7_a046
  {
    hide Xor, XorShift, Pow2;
    Powers();
    XorNothing(0x6efd_65ce);
    XorNibble(0x6efd_65ce, 0x0, 0x6efd_65ce, 1, 0, 0, 0, 1, 1, 0, 1);
    XorNibble(0x6_efd6_5ce8, 0xd, 0x6_efd6_5ce5, 0, 0, 1, 0, 1, 1, 0, 1);
    XorNibble(0x6e_fd65_ce82, 0xdd, 0x6e_fd65_ce5f, 0, 0, 1, 0, 1, 1, 1, 1);
    XorNibble(0x6ef_d65c_e822, 0xddf, 0x6ef_d65c_e5fd, 1, 1, 0, 1, 1, 0, 1, 0);
    XorNibble(0x6efd_65ce_822d, 0xddfa, 0x6efd_65ce_5fd7, 0, 1, 1, 0, 1, 1, 0, 0);
    XorNibble(0x6_efd6_5ce8_22d6, 0xd_dfac, 0x6_efd6_5ce5_fd7a, 1, 0, 1, 1, 1, 0, 1, 1);
    XorNibble(0x6e_fd65_ce82_2d6b, 0xdd_facb, 0x6e_fd65_ce5f_d7a0, 1, 1, 0, 1, 1, 0, 0, 1);
    XorNibble(0x6ef_d65c_e822_d6bd, 0xddf_acb9, 0x6ef_d65c_e5fd_7a04, 1, 0, 1, 1, 1, 1, 0, 1);
    Stage(0x6efd_65ce_822d_6bdb, 31, 0x8000_0000, 0xddfa_cb9d, 0x6efd_65ce_5fd7_a046);
  }

  lemma WeightC1()
    ensures HrwScore(1, [99]) == 0x6efd_65ce_5fd7_a046
  {
    hide FnvOf, XorShift, Finalize;
    KnownHashes();
    MixC11();
    MixC12();
    MixC13();
    Finalized(0x4d9b_5806_054c_6c07, 0x4d9b_5807_3321_0c1f, 0x7618_f6e5_b255_7d67, 0x7618_f6eb_714b_a1d1, 0x6efd_65ce_822d_6bdb, 0x6efd_65ce_5fd7_a046);
  }

  /** Two ids of one length that two shards split: the weights decide, whatever the
      shards' addresses. */
  lemma TwoShardsSplit(m: Membership)
    requires |m.shards| == 2 && m.shards[0].id == 0 && m.shards[1].id == 1 && m.leaving == []
    ensures ShardFor(m, [97]).id == 1 && ShardFor(m, [99]).id == 0
  {
    hide HrwScore, Best;
    WeightA0();
    WeightA1();
    WeightC0();
    WeightC1();
    WinnerIs(m.shards, [97], [], m.shards[1]);
    WinnerIs(m.shards, [99], [], m.shards[0]);
  }
}
