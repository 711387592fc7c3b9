/** The test vectors of RFC 7914 for the Salsa20/8 core (section 8) and scryptBlockMix (section 9). */
module RfcVectors {
  import opened Words
  import opened Salsa
  import opened BlockMix

  // The blocks B[0] and B[1] of section 9, as little-endian words

  const B_0: Block := [
    0x650b_cef7, 0xa472_2d3d, 0xabf5_8c10, 0xddff_12e9, 0xdb16_7677, 0x0ea7_27bb, 0xaef3_0482, 0xad6f_0f2d,
    0x488f_f689, 0x7be8_d111, 0x40d7_3bcc, 0x29fd_9f0a, 0x8401_4f09, 0xf374_9563, 0x31a1_e59a, 0xd7bc_1752]

  const B_1: Block := [
    0x4491_4989, 0x22bb_1372, 0x4db5_256c, 0xfb70_63a8, 0x8043_98cd, 0xbb66_4637, 0xbfb5_fc8f, 0xb054_c240,
    0x517c_d267, 0xfed5_4ace, 0x0bc9_29d8, 0x1b57_5a50, 0xad1c_4d7f, 0xda3c_526a, 0xbc67_0e77, 0x897e_afea]

  // The sixteen words of the first core run before, between and after its rounds, and of the second one

  const FIRST_0: Block := [
    0x219a_877e, 0x86c9_3e4f, 0xe640_a97c, 0x268f_7141, 0x5b55_eeba, 0xb5c1_618c, 0x1146_f80d, 0x1d3b_cd6d,
    0x19f3_24ee, 0x853d_9bdf, 0x4b1e_1214, 0x32aa_c55a, 0x291d_0276, 0x2948_c709, 0x8dc6_ebed, 0x5ec2_b8b8]

  const FIRST_1: Block := [
    0x0885_7f83, 0xbc4d_ffa4, 0x225a_0768, 0x9030_7809, 0x0091_149f, 0xc3e5_4d59, 0xd113_843e, 0xfb5a_4eb0,
    0x4ecb_1eaa, 0xc072_7641, 0x6585_dfa2, 0x6a7d_f42b, 0xaf74_2b9d, 0x4ee7_5de5, 0xbf43_fb43, 0x55af_2fd9]

  const FIRST_2: Block := [
    0x4826_65b1, 0xe6b6_39e8, 0x5528_d0b6, 0x7163_bf72, 0x9358_0e01, 0x0c50_b5fd, 0xea23_785c, 0xead1_25ec,
    0xf701_a95d, 0xd590_a7ea, 0x209a_edeb, 0x9657_05b9, 0xd6e1_a597, 0x6f4d_bdbc, 0x5329_9386, 0x10a4_2604]

  const FIRST_3: Block := [
    0xb4cf_7248, 0xb8e7_9720, 0x3e13_0cef, 0x0cf6_61a1, 0x175d_aa0e, 0xde3b_d4f1, 0x5dbd_3119, 0xdfde_6fd7,
    0xff1e_d7e2, 0x56e7_5513, 0xd8b8_82ab, 0x0c78_1823, 0x46df_a758, 0x1f5b_9d7a, 0x0c1a_b003, 0x0f4f_975e]

  const FIRST_4: Block := [
    0xe9e6_7835, 0x5a0e_63c0, 0x85bf_1cf2, 0xbce0_3a58, 0x95e0_2c9d, 0x10a3_3116, 0x9102_4ee3, 0xa399_c709,
    0x678d_68da, 0x70e6_9077, 0x3dff_e364, 0xc393_c734, 0xf3fc_17d5, 0x8805_fb7c, 0x4e70_9f83, 0x64b0_ce84]

  const FIRST_5: Block := [
    0xfbef_1227, 0x12c7_89d1, 0x5680_8ce8, 0x9eaa_e64c, 0x64a8_29f3, 0x43db_dd85, 0xd82b_ca5e, 0x14f0_670f,
    0x7ac9_3847, 0x282c_fb42, 0x60e7_59d5, 0xaa38_b147, 0xdfbb_4c3b, 0x285d_4b0d, 0xcf69_bc64, 0x05ea_3220]

  const FIRST_6: Block := [
    0x28f2_a180, 0x5e3b_b01c, 0x0304_0a5c, 0x69e5_ea6b, 0x997f_9f3c, 0x1c65_0ad9, 0x9a28_760a, 0x1c57_78b3,
    0x89e1_8946, 0x5055_ce7c, 0x3fec_3108, 0x2012_3a83, 0x764c_0e51, 0x44dd_a9f5, 0xf861_6b01, 0x5632_c6dc]

  const FIRST_7: Block := [
    0xb0e9_8b83, 0x346a_63e9, 0x3d22_e238, 0x4b65_45d0, 0x0628_77f3, 0x1abe_5aed, 0x22bc_f3e0, 0x2c4e_21f0,
    0xbfd3_6f18, 0x0008_b4c1, 0x678d_4e77, 0x4cea_3475, 0x0aad_76ee, 0x9fa2_9dcd, 0xf232_e26c, 0x0fa7_223d]

  const FIRST_8: Block := [
    0x7aea_9826, 0x1302_ca17, 0xe589_d7bf, 0xdf5f_9ac1, 0x25cb_5c4a, 0xc772_9c16, 0x51d5_83f0, 0x0bf3_9b29,
    0x4e3e_14c6, 0x37a9_2e04, 0x6ca7_59ea, 0x87eb_a846, 0xe7af_226e, 0x332b_ca23, 0xafa0_c137, 0x22cc_a90f]

  const FIRST_SUM: Block := [
    0x9c85_1fa4, 0x99cc_0866, 0xcbca_813b, 0x05ef_0c02, 0x8121_4b04, 0x7d33_fda2, 0x631c_7bfd, 0x292f_6896,
    0x6831_39b4, 0xbce6_c9e3, 0xb7c5_6bfe, 0xba96_6da0, 0x10cc_24e4, 0x5c74_912c, 0x3d67_ad24, 0x818f_61c7]

  const SECOND_0: Block := [
    0xd814_562d, 0xbb77_1b14, 0x867f_a457, 0xfe9f_6faa, 0x0162_d3c9, 0xc655_bb95, 0xdca9_8772, 0x997b_aad6,
    0x394d_ebd3, 0x4233_832d, 0xbc0c_4226, 0xa1c1_37f0, 0xbdd0_699b, 0x8648_c346, 0x8100_a353, 0x08f1_ce2d]

  const SECOND_1: Block := [
    0xd1ad_d72d, 0xa887_14ed, 0x671d_2f78, 0xa71c_617f, 0xf33d_3783, 0xb457_b44e, 0xef7b_6f12, 0x8524_f3b6,
    0x9a56_8a45, 0xa458_d7ed, 0xc625_1844, 0x8b67_9278, 0xc5e9_7829, 0xdb6f_c793, 0xdbe4_6f1f, 0x1049_8c1f]

  const SECOND_2: Block := [
    0x7c1e_bc98, 0xcd9b_42d1, 0xf52e_d246, 0xe5be_9926, 0x9d45_9a4e, 0xad1c_2ec4, 0x250e_87c1, 0x495c_ec04,
    0x1310_a8b2, 0xa237_2efb, 0x9893_cd5b, 0xb59f_8acd, 0xd314_e75f, 0x6789_3a55, 0x1fd2_e84c, 0x9acf_916f]

  const SECOND_3: Block := [
    0x2c76_a3cc, 0x2ff0_85f6, 0xed48_0889, 0xd230_870e, 0x0494_61e9, 0x7925_90ba, 0x28dd_f049, 0x496c_16de,
    0x752d_abb3, 0xf98f_e446, 0x7bdb_95cc, 0x2622_09be, 0x92a7_6867, 0x3faf_2f18, 0xcef8_6612, 0x18be_2f57]

  const SECOND_4: Block := [
    0xafb7_c3f9, 0x7c65_e889, 0x5450_a3d8, 0x03bc_bd18, 0xc62b_1bcc, 0x4667_1c68, 0xf424_a1f7, 0xdd09_7404,
    0x8001_0bad, 0xf809_c632, 0x3ca6_75e7, 0x939f_0084, 0x49ed_dc94, 0x67b8_f9dd, 0x1436_5026, 0x30b3_c0ea]

  const SECOND_5: Block := [
    0xdfe9_d5d3, 0x35f9_0c9a, 0x9c3a_e884, 0x2adc_0a7a, 0x14fb_5d30, 0x2cdd_fc76, 0xe0dc_e048, 0xc29f_bcb3,
    0xe643_5824, 0x9e8b_bed3, 0x1f97_81b8, 0xeb7a_bd2b, 0x9f47_43f3, 0x820e_8e14, 0x71bd_bf3e, 0xd7c9_7883]

  const SECOND_6: Block := [
    0xaad8_4ddb, 0x5709_2a1f, 0x79c5_0ce9, 0xec3d_1063, 0x127e_7056, 0xe880_388f, 0x0c70_3368, 0x5ec0_00c1,
    0x02b6_0010, 0x81ab_2161, 0x9a51_903c, 0xfada_f8f4, 0x5cdc_a357, 0xce39_3a7d, 0xca07_3a5c, 0x04af_1982]

  const SECOND_7: Block := [
    0xf9dd_8462, 0x65dd_a20f, 0x0935_9a63, 0x2934_2b1c, 0xc806_e955, 0xe055_bd9c, 0x9c3e_65eb, 0x9849_3c9a,
    0xbcd8_60f5, 0x451a_767e, 0x9b6b_05ec, 0x562c_20db, 0xb595_f3cc, 0xfb67_2026, 0xaae6_e80f, 0x7178_a057]

  const SECOND_8: Block := [
    0x9db5_96f3, 0xed0a_1d1e, 0xc676_9bae, 0x3e2d_bd6c, 0xfd19_3358, 0x1c09_d1ca, 0xb26d_1d3f, 0x1dfc_8bbf,
    0x46ef_4faa, 0x69b0_dd0e, 0x2989_c76c, 0x1492_15ab, 0x9a51_c0c2, 0x6fa5_1231, 0x70b8_8931, 0x1cf3_2121]

  const SECOND_SUM: Block := [
    0x75c9_ed20, 0xa881_3832, 0x4cf6_4005, 0x3ccd_2d16, 0xfe7c_0721, 0xe25f_8d5f, 0x8f16_a4b1, 0xb778_3695,
    0x803d_3b7d, 0xabe4_603b, 0xe596_0992, 0xb653_4d9b, 0x5822_2a5d, 0xf5ed_d577, 0xf1b9_2c84, 0x25e4_ef4e]

  lemma FirstRound0()
    ensures ColumnRound(FIRST_0) == FIRST_1
  {
    ColumnRoundIs(FIRST_0, FIRST_1);
  }

  lemma FirstRound1()
    ensures RowRound(FIRST_1) == FIRST_2
  {
    RowRoundIs(FIRST_1, FIRST_2);
  }

  lemma FirstRound2()
    ensures ColumnRound(FIRST_2) == FIRST_3
  {
    ColumnRoundIs(FIRST_2, FIRST_3);
  }

  lemma FirstRound3()
    ensures RowRound(FIRST_3) == FIRST_4
  {
    RowRoundIs(FIRST_3, FIRST_4);
  }

  lemma FirstRound4()
    ensures ColumnRound(FIRST_4) == FIRST_5
  {
    ColumnRoundIs(FIRST_4, FIRST_5);
  }

  lemma FirstRound5()
    ensures RowRound(FIRST_5) == FIRST_6
  {
    RowRoundIs(FIRST_5, FIRST_6);
  }

  lemma FirstRound6()
    ensures ColumnRound(FIRST_6) == FIRST_7
  {
    ColumnRoundIs(FIRST_6, FIRST_7);
  }

  lemma FirstRound7()
    ensures RowRound(FIRST_7) == FIRST_8
  {
    RowRoundIs(FIRST_7, FIRST_8);
  }

  /** Section 8: the core on its test block. */
  lemma CoreVector()
    ensures Core8(FIRST_0) == FIRST_SUM
  {
    FirstRound0();
    FirstRound1();
    FirstRound2();
    FirstRound3();
    FirstRound4();
    FirstRound5();
    FirstRound6();
    FirstRound7();
    hide ColumnRound, RowRound;
    assert Rounds(FIRST_0, 0) == FIRST_0;
    assert Rounds(FIRST_0, 1) == FIRST_2;
    assert Rounds(FIRST_0, 2) == FIRST_4;
    assert Rounds(FIRST_0, 3) == FIRST_6;
    assert Rounds(FIRST_0, 4) == FIRST_8;
    hide Rounds;
  }

  lemma SecondRound0()
    ensures ColumnRound(SECOND_0) == SECOND_1
  {
    ColumnRoundIs(SECOND_0, SECOND_1);
  }

  lemma SecondRound1()
    ensures RowRound(SECOND_1) == SECOND_2
  {
    RowRoundIs(SECOND_1, SECOND_2);
  }

  lemma SecondRound2()
    ensures ColumnRound(SECOND_2) == SECOND_3
  {
    ColumnRoundIs(SECOND_2, SECOND_3);
  }

  lemma SecondRound3()
    ensures RowRound(SECOND_3) == SECOND_4
  {
    RowRoundIs(SECOND_3, SECOND_4);
  }

  lemma SecondRound4()
    ensures ColumnRound(SECOND_4) == SECOND_5
  {
    ColumnRoundIs(SECOND_4, SECOND_5);
  }

  lemma SecondRound5()
    ensures RowRound(SECOND_5) == SECOND_6
  {
    RowRoundIs(SECOND_5, SECOND_6);
  }

  lemma SecondRound6()
    ensures ColumnRound(SECOND_6) == SECOND_7
  {
    ColumnRoundIs(SECOND_6, SECOND_7);
  }

  lemma SecondRound7()
    ensures RowRound(SECOND_7) == SECOND_8
  {
    RowRoundIs(SECOND_7, SECOND_8);
  }

  lemma SecondCore()
    ensures Core8(SECOND_0) == SECOND_SUM
  {
    SecondRound0();
    SecondRound1();
    SecondRound2();
    SecondRound3();
    SecondRound4();
    SecondRound5();
    SecondRound6();
    SecondRound7();
    hide ColumnRound, RowRound;
    assert Rounds(SECOND_0, 0) == SECOND_0;
    assert Rounds(SECOND_0, 1) == SECOND_2;
    assert Rounds(SECOND_0, 2) == SECOND_4;
    assert Rounds(SECOND_0, 3) == SECOND_6;
    assert Rounds(SECOND_0, 4) == SECOND_8;
    hide Rounds;
  }

  lemma XorIs(x: Block, y: Block, z: Block)
    requires z[0] == Xor(x[0], y[0]) && z[1] == Xor(x[1], y[1])
    requires z[2] == Xor(x[2], y[2]) && z[3] == Xor(x[3], y[3])
    requires z[4] == Xor(x[4], y[4]) && z[5] == Xor(x[5], y[5])
    requires z[6] == Xor(x[6], y[6]) && z[7] == Xor(x[7], y[7])
    requires z[8] == Xor(x[8], y[8]) && z[9] == Xor(x[9], y[9])
    requires z[10] == Xor(x[10], y[10]) && z[11] == Xor(x[11], y[11])
    requires z[12] == Xor(x[12], y[12]) && z[13] == Xor(x[13], y[13])
    requires z[14] == Xor(x[14], y[14]) && z[15] == Xor(x[15], y[15])
    ensures XorBlock(x, y) == z
  {
    hide Xor;
    forall i: Index ensures XorBlock(x, y)[i] == z[i] {}
  }

  lemma FirstInput()
    ensures XorBlock(B_1, B_0) == FIRST_0
  {
    XorIs(B_1, B_0, FIRST_0);
  }

  lemma SecondInput()
    ensures XorBlock(FIRST_SUM, B_1) == SECOND_0
  {
    XorIs(FIRST_SUM, B_1, SECOND_0);
  }

  /** Section 9: scryptBlockMix with r = 1 on its test blocks. */
  lemma BlockMixVector()
    ensures Mixed([B_0, B_1]) == [FIRST_SUM, SECOND_SUM]
  {
    FirstInput();
    CoreVector();
    SecondInput();
    SecondCore();
    hide Core8, XorBlock, Mixed;
    var (b, ys) := ([B_0, B_1], [FIRST_SUM, SECOND_SUM]);
    assert ys[0] == Core8(XorBlock(b[1], b[0]));
    assert ys[1] == Core8(XorBlock(ys[0], b[1]));
    MixedIsShuffled(b, ys);
    assert Mixed(b)[0] == ys[2 * 0] && Mixed(b)[1 + 0] == ys[2 * 0 + 1];
  }
}
