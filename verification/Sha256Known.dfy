/** The worked example of FIPS 180-4: the digest of "abc", word by word and round by round. */
module Sha256Known {
  import opened Sha256Spec

  const ABC: seq<bv8> := [0x61, 0x62, 0x63]

  /** The one padded block. */
  ghost predicate IsAbc(block: seq<bv8>)
  {
    && |block| == 64 && block[..4] == [0x61, 0x62, 0x63, 0x80] && block[63] == 0x18
    && forall i :: 4 <= i < 63 ==> block[i] == 0
  }

  // ---- The message schedule ----

  lemma NextIs(block: seq<bv8>, t: nat, w2: bv32, w7: bv32, w15: bv32, w16: bv32, w: bv32)
    requires |block| == 64 && t >= 16 && Schedule(block, t - 2) == w2 && Schedule(block, t - 7) == w7
    requires Schedule(block, t - 15) == w15 && Schedule(block, t - 16) == w16 && NextWord(w2, w7, w15, w16) == w
    ensures Schedule(block, t) == w
  {
  }

  lemma FirstWord(block: seq<bv8>)
    requires IsAbc(block)
    ensures BlockWord(block, 0) == 0x6162_6380
  {
    assert block[0] == block[..4][0] && block[1] == block[..4][1] && block[2] == block[..4][2] && block[3] == block[..4][3];
  }

  lemma Words0(block: seq<bv8>)
    requires IsAbc(block)
    ensures Schedule(block, 0) == 0x6162_6380 && Schedule(block, 1) == 0x0000_0000
    ensures Schedule(block, 2) == 0x0000_0000 && Schedule(block, 3) == 0x0000_0000
    ensures Schedule(block, 4) == 0x0000_0000 && Schedule(block, 5) == 0x0000_0000
    ensures Schedule(block, 6) == 0x0000_0000 && Schedule(block, 7) == 0x0000_0000
  {
    FirstWord(block);
  }

  lemma Words8(block: seq<bv8>)
    requires IsAbc(block)
    ensures Schedule(block, 8) == 0x0000_0000 && Schedule(block, 9) == 0x0000_0000
    ensures Schedule(block, 10) == 0x0000_0000 && Schedule(block, 11) == 0x0000_0000
    ensures Schedule(block, 12) == 0x0000_0000 && Schedule(block, 13) == 0x0000_0000
    ensures Schedule(block, 14) == 0x0000_0000 && Schedule(block, 15) == 0x0000_0018
  {
  }

  lemma Words16(block: seq<bv8>)
    requires IsAbc(block)
    ensures Schedule(block, 16) == 0x6162_6380 && Schedule(block, 17) == 0x000f_0000
    ensures Schedule(block, 18) == 0x7da8_6405 && Schedule(block, 19) == 0x6000_03c6
    ensures Schedule(block, 20) == 0x3e9d_7b78 && Schedule(block, 21) == 0x0183_fc00
    ensures Schedule(block, 22) == 0x12dc_bfdb && Schedule(block, 23) == 0xe2e2_c38e
  {
    Words0(block);
    Words8(block);
    NextIs(block, 16, 0x0000_0000, 0x0000_0000, 0x0000_0000, 0x6162_6380, 0x6162_6380);
    NextIs(block, 17, 0x0000_0018, 0x0000_0000, 0x0000_0000, 0x0000_0000, 0x000f_0000);
    NextIs(block, 18, 0x6162_6380, 0x0000_0000, 0x0000_0000, 0x0000_0000, 0x7da8_6405);
    NextIs(block, 19, 0x000f_0000, 0x0000_0000, 0x0000_0000, 0x0000_0000, 0x6000_03c6);
    NextIs(block, 20, 0x7da8_6405, 0x0000_0000, 0x0000_0000, 0x0000_0000, 0x3e9d_7b78);
    NextIs(block, 21, 0x6000_03c6, 0x0000_0000, 0x0000_0000, 0x0000_0000, 0x0183_fc00);
    NextIs(block, 22, 0x3e9d_7b78, 0x0000_0018, 0x0000_0000, 0x0000_0000, 0x12dc_bfdb);
    NextIs(block, 23, 0x0183_fc00, 0x6162_6380, 0x0000_0000, 0x0000_0000, 0xe2e2_c38e);
  }

  lemma Words24(block: seq<bv8>)
    requires IsAbc(block)
    ensures Schedule(block, 24) == 0xc821_5c1a && Schedule(block, 25) == 0xb736_79a2
    ensures Schedule(block, 26) == 0xe5bc_3909 && Schedule(block, 27) == 0x3266_3c5b
    ensures Schedule(block, 28) == 0x9d20_9d67 && Schedule(block, 29) == 0xec87_26cb
    ensures Schedule(block, 30) == 0x7021_38a4 && Schedule(block, 31) == 0xd3b7_973b
  {
    Words8(block);
    Words16(block);
    NextIs(block, 24, 0x12dc_bfdb, 0x000f_0000, 0x0000_0000, 0x0000_0000, 0xc821_5c1a);
    NextIs(block, 25, 0xe2e2_c38e, 0x7da8_6405, 0x0000_0000, 0x0000_0000, 0xb736_79a2);
    NextIs(block, 26, 0xc821_5c1a, 0x6000_03c6, 0x0000_0000, 0x0000_0000, 0xe5bc_3909);
    NextIs(block, 27, 0xb736_79a2, 0x3e9d_7b78, 0x0000_0000, 0x0000_0000, 0x3266_3c5b);
    NextIs(block, 28, 0xe5bc_3909, 0x0183_fc00, 0x0000_0000, 0x0000_0000, 0x9d20_9d67);
    NextIs(block, 29, 0x3266_3c5b, 0x12dc_bfdb, 0x0000_0000, 0x0000_0000, 0xec87_26cb);
    NextIs(block, 30, 0x9d20_9d67, 0xe2e2_c38e, 0x0000_0018, 0x0000_0000, 0x7021_38a4);
    NextIs(block, 31, 0xec87_26cb, 0xc821_5c1a, 0x6162_6380, 0x0000_0018, 0xd3b7_973b);
  }

  lemma Words32(block: seq<bv8>)
    requires IsAbc(block)
    ensures Schedule(block, 32) == 0x93f5_997f && Schedule(block, 33) == 0x3b68_ba73
    ensures Schedule(block, 34) == 0xaff4_ffc1 && Schedule(block, 35) == 0xf10a_5c62
    ensures Schedule(block, 36) == 0x0a8b_3996 && Schedule(block, 37) == 0x72af_830a
    ensures Schedule(block, 38) == 0x9409_e33e && Schedule(block, 39) == 0x2464_1522
  {
    Words16(block);
    Words24(block);
    NextIs(block, 32, 0x7021_38a4, 0xb736_79a2, 0x000f_0000, 0x6162_6380, 0x93f5_997f);
    NextIs(block, 33, 0xd3b7_973b, 0xe5bc_3909, 0x7da8_6405, 0x000f_0000, 0x3b68_ba73);
    NextIs(block, 34, 0x93f5_997f, 0x3266_3c5b, 0x6000_03c6, 0x7da8_6405, 0xaff4_ffc1);
    NextIs(block, 35, 0x3b68_ba73, 0x9d20_9d67, 0x3e9d_7b78, 0x6000_03c6, 0xf10a_5c62);
    NextIs(block, 36, 0xaff4_ffc1, 0xec87_26cb, 0x0183_fc00, 0x3e9d_7b78, 0x0a8b_3996);
    NextIs(block, 37, 0xf10a_5c62, 0x7021_38a4, 0x12dc_bfdb, 0x0183_fc00, 0x72af_830a);
    NextIs(block, 38, 0x0a8b_3996, 0xd3b7_973b, 0xe2e2_c38e, 0x12dc_bfdb, 0x9409_e33e);
    NextIs(block, 39, 0x72af_830a, 0x93f5_997f, 0xc821_5c1a, 0xe2e2_c38e, 0x2464_1522);
  }

  lemma Words40(block: seq<bv8>)
    requires IsAbc(block)
    ensures Schedule(block, 40) == 0x9f47_bf94 && Schedule(block, 41) == 0xf0a6_4f5a
    ensures Schedule(block, 42) == 0x3e24_6a79 && Schedule(block, 43) == 0x2733_3ba3
    ensures Schedule(block, 44) == 0x0c47_63f2 && Schedule(block, 45) == 0x840a_bf27
    ensures Schedule(block, 46) == 0x7a29_0d5d && Schedule(block, 47) == 0x065c_43da
  {
    Words24(block);
    Words32(block);
    NextIs(block, 40, 0x9409_e33e, 0x3b68_ba73, 0xb736_79a2, 0xc821_5c1a, 0x9f47_bf94);
    NextIs(block, 41, 0x2464_1522, 0xaff4_ffc1, 0xe5bc_3909, 0xb736_79a2, 0xf0a6_4f5a);
    NextIs(block, 42, 0x9f47_bf94, 0xf10a_5c62, 0x3266_3c5b, 0xe5bc_3909, 0x3e24_6a79);
    NextIs(block, 43, 0xf0a6_4f5a, 0x0a8b_3996, 0x9d20_9d67, 0x3266_3c5b, 0x2733_3ba3);
    NextIs(block, 44, 0x3e24_6a79, 0x72af_830a, 0xec87_26cb, 0x9d20_9d67, 0x0c47_63f2);
    NextIs(block, 45, 0x2733_3ba3, 0x9409_e33e, 0x7021_38a4, 0xec87_26cb, 0x840a_bf27);
    NextIs(block, 46, 0x0c47_63f2, 0x2464_1522, 0xd3b7_973b, 0x7021_38a4, 0x7a29_0d5d);
    NextIs(block, 47, 0x840a_bf27, 0x9f47_bf94, 0x93f5_997f, 0xd3b7_973b, 0x065c_43da);
  }

  lemma Words48(block: seq<bv8>)
    requires IsAbc(block)
    ensures Schedule(block, 48) == 0xfb3e_89cb && Schedule(block, 49) == 0xcc76_17db
    ensures Schedule(block, 50) == 0xb9e6_6c34 && Schedule(block, 51) == 0xa999_3667
    ensures Schedule(block, 52) == 0x84ba_dedd && Schedule(block, 53) == 0xc214_62bc
    ensures Schedule(block, 54) == 0x1487_472c && Schedule(block, 55) == 0xb20f_7a99
  {
    Words32(block);
    Words40(block);
    NextIs(block, 48, 0x7a29_0d5d, 0xf0a6_4f5a, 0x3b68_ba73, 0x93f5_997f, 0xfb3e_89cb);
    NextIs(block, 49, 0x065c_43da, 0x3e24_6a79, 0xaff4_ffc1, 0x3b68_ba73, 0xcc76_17db);
    NextIs(block, 50, 0xfb3e_89cb, 0x2733_3ba3, 0xf10a_5c62, 0xaff4_ffc1, 0xb9e6_6c34);
    NextIs(block, 51, 0xcc76_17db, 0x0c47_63f2, 0x0a8b_3996, 0xf10a_5c62, 0xa999_3667);
    NextIs(block, 52, 0xb9e6_6c34, 0x840a_bf27, 0x72af_830a, 0x0a8b_3996, 0x84ba_dedd);
    NextIs(block, 53, 0xa999_3667, 0x7a29_0d5d, 0x9409_e33e, 0x72af_830a, 0xc214_62bc);
    NextIs(block, 54, 0x84ba_dedd, 0x065c_43da, 0x2464_1522, 0x9409_e33e, 0x1487_472c);
    NextIs(block, 55, 0xc214_62bc, 0xfb3e_89cb, 0x9f47_bf94, 0x2464_1522, 0xb20f_7a99);
  }

  lemma Words56(block: seq<bv8>)
    requires IsAbc(block)
    ensures Schedule(block, 56) == 0xef57_b9cd && Schedule(block, 57) == 0xebe6_b238
    ensures Schedule(block, 58) == 0x9fe3_095e && Schedule(block, 59) == 0x78bc_8d4b
    ensures Schedule(block, 60) == 0xa43f_cf15 && Schedule(block, 61) == 0x668b_2ff8
    ensures Schedule(block, 62) == 0xeeab_a2cc && Schedule(block, 63) == 0x12b1_edeb
  {
    Words40(block);
    Words48(block);
    NextIs(block, 56, 0x1487_472c, 0xcc76_17db, 0xf0a6_4f5a, 0x9f47_bf94, 0xef57_b9cd);
    NextIs(block, 57, 0xb20f_7a99, 0xb9e6_6c34, 0x3e24_6a79, 0xf0a6_4f5a, 0xebe6_b238);
    NextIs(block, 58, 0xef57_b9cd, 0xa999_3667, 0x2733_3ba3, 0x3e24_6a79, 0x9fe3_095e);
    NextIs(block, 59, 0xebe6_b238, 0x84ba_dedd, 0x0c47_63f2, 0x2733_3ba3, 0x78bc_8d4b);
    NextIs(block, 60, 0x9fe3_095e, 0xc214_62bc, 0x840a_bf27, 0x0c47_63f2, 0xa43f_cf15);
    NextIs(block, 61, 0x78bc_8d4b, 0x1487_472c, 0x7a29_0d5d, 0x840a_bf27, 0x668b_2ff8);
    NextIs(block, 62, 0xa43f_cf15, 0xb20f_7a99, 0x065c_43da, 0x7a29_0d5d, 0xeeab_a2cc);
    NextIs(block, 63, 0x668b_2ff8, 0xef57_b9cd, 0xfb3e_89cb, 0x065c_43da, 0x12b1_edeb);
  }

  // ---- The rounds ----

  /** Round t, with the two variables that are new. */
  lemma Turn(before: seq<bv8>, block: seq<bv8>, t: nat, v: Vars, k: bv32, w: bv32, a: bv32, e: bv32) returns (n: Vars)
    requires |before| % 64 == 0 && |block| == 64 && t < 64
    requires Rounds(before, block, t) == v && K(t) == k && Schedule(block, t) == w
    requires Round(v, k, w) == Vars(a, v.a, v.b, v.c, e, v.e, v.f, v.g)
    ensures n == Vars(a, v.a, v.b, v.c, e, v.e, v.f, v.g) == Rounds(before, block, t + 1)
  {
    n := Vars(a, v.a, v.b, v.c, e, v.e, v.f, v.g);
  }

  lemma Turns0(before: seq<bv8>, block: seq<bv8>)
    requires before == [] && IsAbc(block)
    ensures Rounds(before, block, 16) ==
      Vars(0xb0fa_238e, 0xc064_5fde, 0xd932_eb16, 0x8791_2990, 0x0759_0dcd, 0x0b92_f20c, 0x745a_48de, 0x1e57_8218)
  {
    Words0(block);
    Words8(block);
    var v := Vars(0x6a09_e667, 0xbb67_ae85, 0x3c6e_f372, 0xa54f_f53a, 0x510e_527f, 0x9b05_688c, 0x1f83_d9ab, 0x5be0_cd19);
    v := Turn(before, block, 0, v, 0x428a_2f98, 0x6162_6380, 0x5d6a_ebcd, 0xfa2a_4622);
    v := Turn(before, block, 1, v, 0x7137_4491, 0x0000_0000, 0x5a6a_d9ad, 0x78ce_7989);
    v := Turn(before, block, 2, v, 0xb5c0_fbcf, 0x0000_0000, 0xc8c3_47a7, 0xf929_39eb);
    v := Turn(before, block, 3, v, 0xe9b5_dba5, 0x0000_0000, 0xd550_f666, 0x24e0_0850);
    v := Turn(before, block, 4, v, 0x3956_c25b, 0x0000_0000, 0x0440_9a6a, 0x43ad_a245);
    v := Turn(before, block, 5, v, 0x59f1_11f1, 0x0000_0000, 0x2b42_09f5, 0x7142_60ad);
    v := Turn(before, block, 6, v, 0x923f_82a4, 0x0000_0000, 0xe503_0380, 0x9b27_a401);
    v := Turn(before, block, 7, v, 0xab1c_5ed5, 0x0000_0000, 0x85a0_7b5f, 0x0c65_7a79);
    v := Turn(before, block, 8, v, 0xd807_aa98, 0x0000_0000, 0x8e04_ecb9, 0x32ca_2d8c);
    v := Turn(before, block, 9, v, 0x1283_5b01, 0x0000_0000, 0x8c87_346b, 0x1cc9_2596);
    v := Turn(before, block, 10, v, 0x2431_85be, 0x0000_0000, 0x4798_a3f4, 0x436b_23e8);
    v := Turn(before, block, 11, v, 0x550c_7dc3, 0x0000_0000, 0xf71f_c5a9, 0x816f_d6e9);
    v := Turn(before, block, 12, v, 0x72be_5d74, 0x0000_0000, 0x8791_2990, 0x1e57_8218);
    v := Turn(before, block, 13, v, 0x80de_b1fe, 0x0000_0000, 0xd932_eb16, 0x745a_48de);
    v := Turn(before, block, 14, v, 0x9bdc_06a7, 0x0000_0000, 0xc064_5fde, 0x0b92_f20c);
    v := Turn(before, block, 15, v, 0xc19b_f174, 0x0000_0018, 0xb0fa_238e, 0x0759_0dcd);
  }

  lemma Turns16(before: seq<bv8>, block: seq<bv8>)
    requires before == [] && IsAbc(block)
    ensures Rounds(before, block, 32) ==
      Vars(0x73b3_3bf5, 0xea99_2a22, 0xa006_0b30, 0x3634_82c9, 0xba59_1112, 0x0109_ab3a, 0xade7_9437, 0x6112_a3b7)
  {
    Words16(block);
    Words24(block);
    Turns0(before, block);
    var v := Vars(0xb0fa_238e, 0xc064_5fde, 0xd932_eb16, 0x8791_2990, 0x0759_0dcd, 0x0b92_f20c, 0x745a_48de, 0x1e57_8218);
    v := Turn(before, block, 16, v, 0xe49b_69c1, 0x6162_6380, 0x21da_9a9b, 0x8034_229c);
    v := Turn(before, block, 17, v, 0xefbe_4786, 0x000f_0000, 0xc2fb_d9d1, 0x846e_e454);
    v := Turn(before, block, 18, v, 0x0fc1_9dc6, 0x7da8_6405, 0xfe77_7bbf, 0xcc89_9961);
    v := Turn(before, block, 19, v, 0x240c_a1cc, 0x6000_03c6, 0xe1f2_0c33, 0xb063_8179);
    v := Turn(before, block, 20, v, 0x2de9_2c6f, 0x3e9d_7b78, 0x9dc6_8b63, 0x8ada_8930);
    v := Turn(before, block, 21, v, 0x4a74_84aa, 0x0183_fc00, 0xc260_6d6d, 0xe125_7970);
    v := Turn(before, block, 22, v, 0x5cb0_a9dc, 0x12dc_bfdb, 0xa7a3_623f, 0x49f5_114a);
    v := Turn(before, block, 23, v, 0x76f9_88da, 0xe2e2_c38e, 0xc5d5_3d8d, 0xaa47_c347);
    v := Turn(before, block, 24, v, 0x983e_5152, 0xc821_5c1a, 0x1c2c_2838, 0x2823_ef91);
    v := Turn(before, block, 25, v, 0xa831_c66d, 0xb736_79a2, 0xcde8_037d, 0x1438_3d8e);
    v := Turn(before, block, 26, v, 0xb003_27c8, 0xe5bc_3909, 0xb62e_c4bc, 0xc74c_6516);
    v := Turn(before, block, 27, v, 0xbf59_7fc7, 0x3266_3c5b, 0x77d3_7528, 0xedff_bff8);
    v := Turn(before, block, 28, v, 0xc6e0_0bf3, 0x9d20_9d67, 0x3634_82c9, 0x6112_a3b7);
    v := Turn(before, block, 29, v, 0xd5a7_9147, 0xec87_26cb, 0xa006_0b30, 0xade7_9437);
    v := Turn(before, block, 30, v, 0x06ca_6351, 0x7021_38a4, 0xea99_2a22, 0x0109_ab3a);
    v := Turn(before, block, 31, v, 0x1429_2967, 0xd3b7_973b, 0x73b3_3bf5, 0xba59_1112);
  }

  lemma Turns32(before: seq<bv8>, block: seq<bv8>)
    requires before == [] && IsAbc(block)
    ensures Rounds(before, block, 48) ==
      Vars(0x4172_328d, 0xa14c_14b0, 0x72ab_4b91, 0x2662_8815, 0xfecf_0bc6, 0xd57b_94a9, 0xb775_5da1, 0xa80f_11f0)
  {
    Words32(block);
    Words40(block);
    Turns16(before, block);
    var v := Vars(0x73b3_3bf5, 0xea99_2a22, 0xa006_0b30, 0x3634_82c9, 0xba59_1112, 0x0109_ab3a, 0xade7_9437, 0x6112_a3b7);
    v := Turn(before, block, 32, v, 0x27b7_0a85, 0x93f5_997f, 0x98e1_2507, 0x9cd9_f5f6);
    v := Turn(before, block, 33, v, 0x2e1b_2138, 0x3b68_ba73, 0xfe60_4df5, 0x5924_9dd3);
    v := Turn(before, block, 34, v, 0x4d2c_6dfc, 0xaff4_ffc1, 0xa9a7_738c, 0x085f_3833);
    v := Turn(before, block, 35, v, 0x5338_0d13, 0xf10a_5c62, 0x65a0_cfe4, 0xf4b0_02d6);
    v := Turn(before, block, 36, v, 0x650a_7354, 0x0a8b_3996, 0x41a6_5cb1, 0x0772_a26b);
    v := Turn(before, block, 37, v, 0x766a_0abb, 0x72af_830a, 0x34df_1604, 0xa507_a53d);
    v := Turn(before, block, 38, v, 0x81c2_c92e, 0x9409_e33e, 0x6dc5_7a8a, 0xf078_1bc8);
    v := Turn(before, block, 39, v, 0x9272_2c85, 0x2464_1522, 0x79ea_687a, 0x1efb_c0a0);
    v := Turn(before, block, 40, v, 0xa2bf_e8a1, 0x9f47_bf94, 0xd667_0766, 0x2635_2d63);
    v := Turn(before, block, 41, v, 0xa81a_664b, 0xf0a6_4f5a, 0xdf46_652f, 0x838b_2711);
    v := Turn(before, block, 42, v, 0xc24b_8b70, 0x3e24_6a79, 0x17aa_0dfe, 0xdecd_4715);
    v := Turn(before, block, 43, v, 0xc76c_51a3, 0x2733_3ba3, 0x9d4b_af93, 0xfda2_4c2e);
    v := Turn(before, block, 44, v, 0xd192_e819, 0x0c47_63f2, 0x2662_8815, 0xa80f_11f0);
    v := Turn(before, block, 45, v, 0xd699_0624, 0x840a_bf27, 0x72ab_4b91, 0xb775_5da1);
    v := Turn(before, block, 46, v, 0xf40e_3585, 0x7a29_0d5d, 0xa14c_14b0, 0xd57b_94a9);
    v := Turn(before, block, 47, v, 0x106a_a070, 0x065c_43da, 0x4172_328d, 0xfecf_0bc6);
  }

  lemma Turns48(before: seq<bv8>, block: seq<bv8>)
    requires before == [] && IsAbc(block)
    ensures Rounds(before, block, 64) ==
      Vars(0x506e_3058, 0xd39a_2165, 0x04d2_4d6c, 0xb85e_2ce9, 0x5ef5_0f24, 0xfb12_1210, 0x948d_25b6, 0x961f_4894)
  {
    Words48(block);
    Words56(block);
    Turns32(before, block);
    var v := Vars(0x4172_328d, 0xa14c_14b0, 0x72ab_4b91, 0x2662_8815, 0xfecf_0bc6, 0xd57b_94a9, 0xb775_5da1, 0xa80f_11f0);
    v := Turn(before, block, 48, v, 0x19a4_c116, 0xfb3e_89cb, 0x0575_7ceb, 0xbd71_4038);
    v := Turn(before, block, 49, v, 0x1e37_6c08, 0xcc76_17db, 0xf11b_faa8, 0x6e5c_390c);
    v := Turn(before, block, 50, v, 0x2748_774c, 0xb9e6_6c34, 0x7a05_08a1, 0x52f1_ccf7);
    v := Turn(before, block, 51, v, 0x34b0_bcb5, 0xa999_3667, 0x886e_7a22, 0x4923_1c1e);
    v := Turn(before, block, 52, v, 0x391c_0cb3, 0x84ba_dedd, 0x101f_d28f, 0x529e_7d00);
    v := Turn(before, block, 53, v, 0x4ed8_aa4a, 0xc214_62bc, 0xf570_2fdb, 0x9f47_87c3);
    v := Turn(before, block, 54, v, 0x5b9c_ca4f, 0x1487_472c, 0x3ec4_5cdb, 0xe50e_1b4f);
    v := Turn(before, block, 55, v, 0x682e_6ff3, 0xb20f_7a99, 0x38cc_9913, 0x54cb_266b);
    v := Turn(before, block, 56, v, 0x748f_82ee, 0xef57_b9cd, 0xfcd1_887b, 0x9b5e_906c);
    v := Turn(before, block, 57, v, 0x78a5_636f, 0xebe6_b238, 0xc062_d46f, 0x7e44_008e);
    v := Turn(before, block, 58, v, 0x84c8_7814, 0x9fe3_095e, 0xffb7_0472, 0x6d83_bfc6);
    v := Turn(before, block, 59, v, 0x8cc7_0208, 0x78bc_8d4b, 0xb6ae_8fff, 0xb21b_ad3d);
    v := Turn(before, block, 60, v, 0x90be_fffa, 0xa43f_cf15, 0xb85e_2ce9, 0x961f_4894);
    v := Turn(before, block, 61, v, 0xa450_6ceb, 0x668b_2ff8, 0x04d2_4d6c, 0x948d_25b6);
    v := Turn(before, block, 62, v, 0xbef9_a3f7, 0xeeab_a2cc, 0xd39a_2165, 0xfb12_1210);
    v := Turn(before, block, 63, v, 0xc671_78f2, 0x12b1_edeb, 0x506e_3058, 0x5ef5_0f24);
  }

  // ---- Padding and digest ----

  lemma {:induction false} NoLength(n: nat, k: nat)
    requires n == 0
    ensures forall i :: 0 <= i < k ==> BigEndianBytes(n, k)[i] == 0
    decreases k
  {
    if k > 0 {
      NoLength(n / 256, k - 1);
    }
  }

  lemma PaddedAbc(n: nat)
    requires n == 3
    ensures IsAbc(ABC + Padding(n))
  {
    var bits, k := 8 * n, 8;
    NoLength(bits / 256, k - 1);
    assert BigEndianBytes(bits, k) == BigEndianBytes(bits / 256, k - 1) + [0x18];
    assert ZerosFor(n) == 52;
  }

  /** The hash value, before it is written out as bytes. */
  lemma HashOfAbc(before: seq<bv8>, block: seq<bv8>)
    requires before == [] && IsAbc(block)
    ensures HashBlocks(block) == [0xba78_16bf, 0x8f01_cfea, 0x4141_40de, 0x5dae_2223,
                                  0xb003_61a3, 0x9617_7a9c, 0xb410_ff61, 0xf200_15ad]
  {
    Turns48(before, block);
    assert block[..0] == before && block[0..] == block && HashBlocks(before) == InitialHash();
  }

  /** The bytes of a hash value, word by word. */
  lemma {:induction false} HashBytesAt(h: seq<bv32>, i: nat)
    requires i < |h|
    ensures HashBytes(h)[4 * i..4 * i + 4] == WordBytes(h[i])
    decreases |h|
  {
    var n := |h| - 1;
    if i < n {
      HashBytesAt(h[..n], i);
      assert HashBytes(h)[4 * i..4 * i + 4] == HashBytes(h[..n])[4 * i..4 * i + 4];
    }
  }

  lemma Piece(h: seq<bv32>, i: nat, w: bv32, bytes: seq<bv8>)
    requires i < |h| && h[i] == w && WordBytes(w) == bytes
    ensures HashBytes(h)[4 * i..4 * i + 4] == bytes
  {
    HashBytesAt(h, i);
  }

  /** The digest of the standard's example. */
  lemma DigestOfAbc()
    ensures var d := Sha256(ABC);
      && d[0..4] == [0xba, 0x78, 0x16, 0xbf] && d[4..8] == [0x8f, 0x01, 0xcf, 0xea]
      && d[8..12] == [0x41, 0x41, 0x40, 0xde] && d[12..16] == [0x5d, 0xae, 0x22, 0x23]
      && d[16..20] == [0xb0, 0x03, 0x61, 0xa3] && d[20..24] == [0x96, 0x17, 0x7a, 0x9c]
      && d[24..28] == [0xb4, 0x10, 0xff, 0x61] && d[28..32] == [0xf2, 0x00, 0x15, 0xad]
  {
    var n := 3;
    PaddedAbc(n);
    var block := ABC + Padding(n);
    HashOfAbc([], block);
    var h := HashBlocks(block);
    assert Sha256(ABC) == HashBytes(h);
    Piece(h, 0, 0xba78_16bf, [0xba, 0x78, 0x16, 0xbf]);
    Piece(h, 1, 0x8f01_cfea, [0x8f, 0x01, 0xcf, 0xea]);
    Piece(h, 2, 0x4141_40de, [0x41, 0x41, 0x40, 0xde]);
    Piece(h, 3, 0x5dae_2223, [0x5d, 0xae, 0x22, 0x23]);
    Piece(h, 4, 0xb003_61a3, [0xb0, 0x03, 0x61, 0xa3]);
    Piece(h, 5, 0x9617_7a9c, [0x96, 0x17, 0x7a, 0x9c]);
    Piece(h, 6, 0xb410_ff61, [0xb4, 0x10, 0xff, 0x61]);
    Piece(h, 7, 0xf200_15ad, [0xf2, 0x00, 0x15, 0xad]);
  }
}
