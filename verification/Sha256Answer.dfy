/**
  A known answer of SHA-256: the digest of "abc" is the one published with FIPS 180-2 (appendix B.1). It takes
  every constant, rotation and step of the specification to get there.
 */
module Sha256Answer {
  import opened Sha256

  const ABC: octets := [0x61, 0x62, 0x63]

  // The one block of the padded message.
  predicate IsAbc(b: words)
  {
    |b| == 16 && b[0] == 0x61626380 && (forall i | 1 <= i < 15 :: b[i] == 0) && b[15] == 24
  }

  lemma WStep(b: words, t: nat, w2: bv32, w7: bv32, w15: bv32, w16: bv32)
    requires |b| == 16 && t >= 16
    requires W(b, t - 2) == w2 && W(b, t - 7) == w7 && W(b, t - 15) == w15 && W(b, t - 16) == w16
    ensures W(b, t) == Mix(w2, w7, w15, w16)
  {
    hide Mix;
  }

  lemma RStep(s: Regs, b: words, t: nat, r: Regs, k: bv32, w: bv32)
    requires |b| == 16 && t < 64 && Rounds(s, b, t) == r && Constant(t) == k && W(b, t) == w
    ensures Rounds(s, b, t + 1) == Round(r, k, w)
  {
    hide Round;
  }

  // ---------------------------------------------------------------- the message schedule

  lemma Schedule0(b: words)
    requires IsAbc(b)
    ensures W(b, 0) == 0x61626380 && W(b, 1) == 0x00000000 && W(b, 2) == 0x00000000 && W(b, 3) == 0x00000000
    ensures W(b, 4) == 0x00000000 && W(b, 5) == 0x00000000 && W(b, 6) == 0x00000000 && W(b, 7) == 0x00000000
    ensures W(b, 8) == 0x00000000 && W(b, 9) == 0x00000000 && W(b, 10) == 0x00000000 && W(b, 11) == 0x00000000
    ensures W(b, 12) == 0x00000000 && W(b, 13) == 0x00000000 && W(b, 14) == 0x00000000 && W(b, 15) == 0x00000018
  {
  }

  lemma Schedule16(b: words)
    requires IsAbc(b)
    ensures W(b, 16) == 0x61626380 && W(b, 17) == 0x000f0000 && W(b, 18) == 0x7da86405 && W(b, 19) == 0x600003c6
    ensures W(b, 20) == 0x3e9d7b78 && W(b, 21) == 0x0183fc00 && W(b, 22) == 0x12dcbfdb && W(b, 23) == 0xe2e2c38e
  {
    hide W;
    Schedule0(b);
    WStep(b, 16, 0x00000000, 0x00000000, 0x00000000, 0x61626380);
    WStep(b, 17, 0x00000018, 0x00000000, 0x00000000, 0x00000000);
    WStep(b, 18, 0x61626380, 0x00000000, 0x00000000, 0x00000000);
    WStep(b, 19, 0x000f0000, 0x00000000, 0x00000000, 0x00000000);
    WStep(b, 20, 0x7da86405, 0x00000000, 0x00000000, 0x00000000);
    WStep(b, 21, 0x600003c6, 0x00000000, 0x00000000, 0x00000000);
    WStep(b, 22, 0x3e9d7b78, 0x00000018, 0x00000000, 0x00000000);
    WStep(b, 23, 0x0183fc00, 0x61626380, 0x00000000, 0x00000000);
  }

  lemma Schedule24(b: words)
    requires IsAbc(b)
    ensures W(b, 24) == 0xc8215c1a && W(b, 25) == 0xb73679a2 && W(b, 26) == 0xe5bc3909 && W(b, 27) == 0x32663c5b
    ensures W(b, 28) == 0x9d209d67 && W(b, 29) == 0xec8726cb && W(b, 30) == 0x702138a4 && W(b, 31) == 0xd3b7973b
  {
    hide W;
    Schedule16(b);
    Schedule0(b);
    WStep(b, 24, 0x12dcbfdb, 0x000f0000, 0x00000000, 0x00000000);
    WStep(b, 25, 0xe2e2c38e, 0x7da86405, 0x00000000, 0x00000000);
    WStep(b, 26, 0xc8215c1a, 0x600003c6, 0x00000000, 0x00000000);
    WStep(b, 27, 0xb73679a2, 0x3e9d7b78, 0x00000000, 0x00000000);
    WStep(b, 28, 0xe5bc3909, 0x0183fc00, 0x00000000, 0x00000000);
    WStep(b, 29, 0x32663c5b, 0x12dcbfdb, 0x00000000, 0x00000000);
    WStep(b, 30, 0x9d209d67, 0xe2e2c38e, 0x00000018, 0x00000000);
    WStep(b, 31, 0xec8726cb, 0xc8215c1a, 0x61626380, 0x00000018);
  }

  lemma Schedule32(b: words)
    requires IsAbc(b)
    ensures W(b, 32) == 0x93f5997f && W(b, 33) == 0x3b68ba73 && W(b, 34) == 0xaff4ffc1 && W(b, 35) == 0xf10a5c62
    ensures W(b, 36) == 0x0a8b3996 && W(b, 37) == 0x72af830a && W(b, 38) == 0x9409e33e && W(b, 39) == 0x24641522
  {
    hide W;
    Schedule24(b);
    Schedule16(b);
    WStep(b, 32, 0x702138a4, 0xb73679a2, 0x000f0000, 0x61626380);
    WStep(b, 33, 0xd3b7973b, 0xe5bc3909, 0x7da86405, 0x000f0000);
    WStep(b, 34, 0x93f5997f, 0x32663c5b, 0x600003c6, 0x7da86405);
    WStep(b, 35, 0x3b68ba73, 0x9d209d67, 0x3e9d7b78, 0x600003c6);
    WStep(b, 36, 0xaff4ffc1, 0xec8726cb, 0x0183fc00, 0x3e9d7b78);
    WStep(b, 37, 0xf10a5c62, 0x702138a4, 0x12dcbfdb, 0x0183fc00);
    WStep(b, 38, 0x0a8b3996, 0xd3b7973b, 0xe2e2c38e, 0x12dcbfdb);
    WStep(b, 39, 0x72af830a, 0x93f5997f, 0xc8215c1a, 0xe2e2c38e);
  }

  lemma Schedule40(b: words)
    requires IsAbc(b)
    ensures W(b, 40) == 0x9f47bf94 && W(b, 41) == 0xf0a64f5a && W(b, 42) == 0x3e246a79 && W(b, 43) == 0x27333ba3
    ensures W(b, 44) == 0x0c4763f2 && W(b, 45) == 0x840abf27 && W(b, 46) == 0x7a290d5d && W(b, 47) == 0x065c43da
  {
    hide W;
    Schedule32(b);
    Schedule24(b);
    WStep(b, 40, 0x9409e33e, 0x3b68ba73, 0xb73679a2, 0xc8215c1a);
    WStep(b, 41, 0x24641522, 0xaff4ffc1, 0xe5bc3909, 0xb73679a2);
    WStep(b, 42, 0x9f47bf94, 0xf10a5c62, 0x32663c5b, 0xe5bc3909);
    WStep(b, 43, 0xf0a64f5a, 0x0a8b3996, 0x9d209d67, 0x32663c5b);
    WStep(b, 44, 0x3e246a79, 0x72af830a, 0xec8726cb, 0x9d209d67);
    WStep(b, 45, 0x27333ba3, 0x9409e33e, 0x702138a4, 0xec8726cb);
    WStep(b, 46, 0x0c4763f2, 0x24641522, 0xd3b7973b, 0x702138a4);
    WStep(b, 47, 0x840abf27, 0x9f47bf94, 0x93f5997f, 0xd3b7973b);
  }

  lemma Schedule48(b: words)
    requires IsAbc(b)
    ensures W(b, 48) == 0xfb3e89cb && W(b, 49) == 0xcc7617db && W(b, 50) == 0xb9e66c34 && W(b, 51) == 0xa9993667
    ensures W(b, 52) == 0x84badedd && W(b, 53) == 0xc21462bc && W(b, 54) == 0x1487472c && W(b, 55) == 0xb20f7a99
  {
    hide W;
    Schedule40(b);
    Schedule32(b);
    WStep(b, 48, 0x7a290d5d, 0xf0a64f5a, 0x3b68ba73, 0x93f5997f);
    WStep(b, 49, 0x065c43da, 0x3e246a79, 0xaff4ffc1, 0x3b68ba73);
    WStep(b, 50, 0xfb3e89cb, 0x27333ba3, 0xf10a5c62, 0xaff4ffc1);
    WStep(b, 51, 0xcc7617db, 0x0c4763f2, 0x0a8b3996, 0xf10a5c62);
    WStep(b, 52, 0xb9e66c34, 0x840abf27, 0x72af830a, 0x0a8b3996);
    WStep(b, 53, 0xa9993667, 0x7a290d5d, 0x9409e33e, 0x72af830a);
    WStep(b, 54, 0x84badedd, 0x065c43da, 0x24641522, 0x9409e33e);
    WStep(b, 55, 0xc21462bc, 0xfb3e89cb, 0x9f47bf94, 0x24641522);
  }

  lemma Schedule56(b: words)
    requires IsAbc(b)
    ensures W(b, 56) == 0xef57b9cd && W(b, 57) == 0xebe6b238 && W(b, 58) == 0x9fe3095e && W(b, 59) == 0x78bc8d4b
    ensures W(b, 60) == 0xa43fcf15 && W(b, 61) == 0x668b2ff8 && W(b, 62) == 0xeeaba2cc && W(b, 63) == 0x12b1edeb
  {
    hide W;
    Schedule48(b);
    Schedule40(b);
    WStep(b, 56, 0x1487472c, 0xcc7617db, 0xf0a64f5a, 0x9f47bf94);
    WStep(b, 57, 0xb20f7a99, 0xb9e66c34, 0x3e246a79, 0xf0a64f5a);
    WStep(b, 58, 0xef57b9cd, 0xa9993667, 0x27333ba3, 0x3e246a79);
    WStep(b, 59, 0xebe6b238, 0x84badedd, 0x0c4763f2, 0x27333ba3);
    WStep(b, 60, 0x9fe3095e, 0xc21462bc, 0x840abf27, 0x0c4763f2);
    WStep(b, 61, 0x78bc8d4b, 0x1487472c, 0x7a290d5d, 0x840abf27);
    WStep(b, 62, 0xa43fcf15, 0xb20f7a99, 0x065c43da, 0x7a290d5d);
    WStep(b, 63, 0x668b2ff8, 0xef57b9cd, 0xfb3e89cb, 0x065c43da);
  }

  // ---------------------------------------------------------------- the rounds

  lemma Constants0()
    ensures Constant(0) == 0x428a2f98 && Constant(1) == 0x71374491 && Constant(2) == 0xb5c0fbcf
    ensures Constant(3) == 0xe9b5dba5 && Constant(4) == 0x3956c25b && Constant(5) == 0x59f111f1
    ensures Constant(6) == 0x923f82a4 && Constant(7) == 0xab1c5ed5
  {
  }

  lemma Rounds8(s: Regs, b: words)
    requires IsAbc(b) && s == Load(Initial())
    ensures Rounds(s, b, 8) == Regs(0x85a07b5f, 0xe5030380, 0x2b4209f5, 0x04409a6a,
           0x0c657a79, 0x9b27a401, 0x714260ad, 0x43ada245)
  {
    hide W, Rounds, Constant, Load;
    Schedule0(b);
    Constants0();
    FirstRegs(s, b);
    RStep(s, b, 0, Regs(0x6a09e667, 0xbb67ae85, 0x3c6ef372, 0xa54ff53a,
               0x510e527f, 0x9b05688c, 0x1f83d9ab, 0x5be0cd19), 0x428a2f98, 0x61626380);
    RStep(s, b, 1, Regs(0x5d6aebcd, 0x6a09e667, 0xbb67ae85, 0x3c6ef372,
               0xfa2a4622, 0x510e527f, 0x9b05688c, 0x1f83d9ab), 0x71374491, 0x00000000);
    RStep(s, b, 2, Regs(0x5a6ad9ad, 0x5d6aebcd, 0x6a09e667, 0xbb67ae85,
               0x78ce7989, 0xfa2a4622, 0x510e527f, 0x9b05688c), 0xb5c0fbcf, 0x00000000);
    RStep(s, b, 3, Regs(0xc8c347a7, 0x5a6ad9ad, 0x5d6aebcd, 0x6a09e667,
               0xf92939eb, 0x78ce7989, 0xfa2a4622, 0x510e527f), 0xe9b5dba5, 0x00000000);
    RStep(s, b, 4, Regs(0xd550f666, 0xc8c347a7, 0x5a6ad9ad, 0x5d6aebcd,
               0x24e00850, 0xf92939eb, 0x78ce7989, 0xfa2a4622), 0x3956c25b, 0x00000000);
    RStep(s, b, 5, Regs(0x04409a6a, 0xd550f666, 0xc8c347a7, 0x5a6ad9ad,
               0x43ada245, 0x24e00850, 0xf92939eb, 0x78ce7989), 0x59f111f1, 0x00000000);
    RStep(s, b, 6, Regs(0x2b4209f5, 0x04409a6a, 0xd550f666, 0xc8c347a7,
               0x714260ad, 0x43ada245, 0x24e00850, 0xf92939eb), 0x923f82a4, 0x00000000);
    RStep(s, b, 7, Regs(0xe5030380, 0x2b4209f5, 0x04409a6a, 0xd550f666,
               0x9b27a401, 0x714260ad, 0x43ada245, 0x24e00850), 0xab1c5ed5, 0x00000000);
  }

  lemma Constants8()
    ensures Constant(8) == 0xd807aa98 && Constant(9) == 0x12835b01 && Constant(10) == 0x243185be
    ensures Constant(11) == 0x550c7dc3 && Constant(12) == 0x72be5d74 && Constant(13) == 0x80deb1fe
    ensures Constant(14) == 0x9bdc06a7 && Constant(15) == 0xc19bf174
  {
  }

  lemma Rounds16(s: Regs, b: words)
    requires IsAbc(b) && s == Load(Initial())
    ensures Rounds(s, b, 16) == Regs(0xb0fa238e, 0xc0645fde, 0xd932eb16, 0x87912990,
           0x07590dcd, 0x0b92f20c, 0x745a48de, 0x1e578218)
  {
    hide W, Rounds, Constant, Load;
    Schedule0(b);
    Constants8();
    Rounds8(s, b);
    RStep(s, b, 8, Regs(0x85a07b5f, 0xe5030380, 0x2b4209f5, 0x04409a6a,
               0x0c657a79, 0x9b27a401, 0x714260ad, 0x43ada245), 0xd807aa98, 0x00000000);
    RStep(s, b, 9, Regs(0x8e04ecb9, 0x85a07b5f, 0xe5030380, 0x2b4209f5,
               0x32ca2d8c, 0x0c657a79, 0x9b27a401, 0x714260ad), 0x12835b01, 0x00000000);
    RStep(s, b, 10, Regs(0x8c87346b, 0x8e04ecb9, 0x85a07b5f, 0xe5030380,
               0x1cc92596, 0x32ca2d8c, 0x0c657a79, 0x9b27a401), 0x243185be, 0x00000000);
    RStep(s, b, 11, Regs(0x4798a3f4, 0x8c87346b, 0x8e04ecb9, 0x85a07b5f,
               0x436b23e8, 0x1cc92596, 0x32ca2d8c, 0x0c657a79), 0x550c7dc3, 0x00000000);
    RStep(s, b, 12, Regs(0xf71fc5a9, 0x4798a3f4, 0x8c87346b, 0x8e04ecb9,
               0x816fd6e9, 0x436b23e8, 0x1cc92596, 0x32ca2d8c), 0x72be5d74, 0x00000000);
    RStep(s, b, 13, Regs(0x87912990, 0xf71fc5a9, 0x4798a3f4, 0x8c87346b,
               0x1e578218, 0x816fd6e9, 0x436b23e8, 0x1cc92596), 0x80deb1fe, 0x00000000);
    RStep(s, b, 14, Regs(0xd932eb16, 0x87912990, 0xf71fc5a9, 0x4798a3f4,
               0x745a48de, 0x1e578218, 0x816fd6e9, 0x436b23e8), 0x9bdc06a7, 0x00000000);
    RStep(s, b, 15, Regs(0xc0645fde, 0xd932eb16, 0x87912990, 0xf71fc5a9,
               0x0b92f20c, 0x745a48de, 0x1e578218, 0x816fd6e9), 0xc19bf174, 0x00000018);
  }

  lemma Constants16()
    ensures Constant(16) == 0xe49b69c1 && Constant(17) == 0xefbe4786 && Constant(18) == 0x0fc19dc6
    ensures Constant(19) == 0x240ca1cc && Constant(20) == 0x2de92c6f && Constant(21) == 0x4a7484aa
    ensures Constant(22) == 0x5cb0a9dc && Constant(23) == 0x76f988da
  {
  }

  lemma Rounds24(s: Regs, b: words)
    requires IsAbc(b) && s == Load(Initial())
    ensures Rounds(s, b, 24) == Regs(0xc5d53d8d, 0xa7a3623f, 0xc2606d6d, 0x9dc68b63,
           0xaa47c347, 0x49f5114a, 0xe1257970, 0x8ada8930)
  {
    hide W, Rounds, Constant, Load;
    Schedule16(b);
    Constants16();
    Rounds16(s, b);
    RStep(s, b, 16, Regs(0xb0fa238e, 0xc0645fde, 0xd932eb16, 0x87912990,
               0x07590dcd, 0x0b92f20c, 0x745a48de, 0x1e578218), 0xe49b69c1, 0x61626380);
    RStep(s, b, 17, Regs(0x21da9a9b, 0xb0fa238e, 0xc0645fde, 0xd932eb16,
               0x8034229c, 0x07590dcd, 0x0b92f20c, 0x745a48de), 0xefbe4786, 0x000f0000);
    RStep(s, b, 18, Regs(0xc2fbd9d1, 0x21da9a9b, 0xb0fa238e, 0xc0645fde,
               0x846ee454, 0x8034229c, 0x07590dcd, 0x0b92f20c), 0x0fc19dc6, 0x7da86405);
    RStep(s, b, 19, Regs(0xfe777bbf, 0xc2fbd9d1, 0x21da9a9b, 0xb0fa238e,
               0xcc899961, 0x846ee454, 0x8034229c, 0x07590dcd), 0x240ca1cc, 0x600003c6);
    RStep(s, b, 20, Regs(0xe1f20c33, 0xfe777bbf, 0xc2fbd9d1, 0x21da9a9b,
               0xb0638179, 0xcc899961, 0x846ee454, 0x8034229c), 0x2de92c6f, 0x3e9d7b78);
    RStep(s, b, 21, Regs(0x9dc68b63, 0xe1f20c33, 0xfe777bbf, 0xc2fbd9d1,
               0x8ada8930, 0xb0638179, 0xcc899961, 0x846ee454), 0x4a7484aa, 0x0183fc00);
    RStep(s, b, 22, Regs(0xc2606d6d, 0x9dc68b63, 0xe1f20c33, 0xfe777bbf,
               0xe1257970, 0x8ada8930, 0xb0638179, 0xcc899961), 0x5cb0a9dc, 0x12dcbfdb);
    RStep(s, b, 23, Regs(0xa7a3623f, 0xc2606d6d, 0x9dc68b63, 0xe1f20c33,
               0x49f5114a, 0xe1257970, 0x8ada8930, 0xb0638179), 0x76f988da, 0xe2e2c38e);
  }

  lemma Constants24()
    ensures Constant(24) == 0x983e5152 && Constant(25) == 0xa831c66d && Constant(26) == 0xb00327c8
    ensures Constant(27) == 0xbf597fc7 && Constant(28) == 0xc6e00bf3 && Constant(29) == 0xd5a79147
    ensures Constant(30) == 0x06ca6351 && Constant(31) == 0x14292967
  {
  }

  lemma Rounds32(s: Regs, b: words)
    requires IsAbc(b) && s == Load(Initial())
    ensures Rounds(s, b, 32) == Regs(0x73b33bf5, 0xea992a22, 0xa0060b30, 0x363482c9,
           0xba591112, 0x0109ab3a, 0xade79437, 0x6112a3b7)
  {
    hide W, Rounds, Constant, Load;
    Schedule24(b);
    Constants24();
    Rounds24(s, b);
    RStep(s, b, 24, Regs(0xc5d53d8d, 0xa7a3623f, 0xc2606d6d, 0x9dc68b63,
               0xaa47c347, 0x49f5114a, 0xe1257970, 0x8ada8930), 0x983e5152, 0xc8215c1a);
    RStep(s, b, 25, Regs(0x1c2c2838, 0xc5d53d8d, 0xa7a3623f, 0xc2606d6d,
               0x2823ef91, 0xaa47c347, 0x49f5114a, 0xe1257970), 0xa831c66d, 0xb73679a2);
    RStep(s, b, 26, Regs(0xcde8037d, 0x1c2c2838, 0xc5d53d8d, 0xa7a3623f,
               0x14383d8e, 0x2823ef91, 0xaa47c347, 0x49f5114a), 0xb00327c8, 0xe5bc3909);
    RStep(s, b, 27, Regs(0xb62ec4bc, 0xcde8037d, 0x1c2c2838, 0xc5d53d8d,
               0xc74c6516, 0x14383d8e, 0x2823ef91, 0xaa47c347), 0xbf597fc7, 0x32663c5b);
    RStep(s, b, 28, Regs(0x77d37528, 0xb62ec4bc, 0xcde8037d, 0x1c2c2838,
               0xedffbff8, 0xc74c6516, 0x14383d8e, 0x2823ef91), 0xc6e00bf3, 0x9d209d67);
    RStep(s, b, 29, Regs(0x363482c9, 0x77d37528, 0xb62ec4bc, 0xcde8037d,
               0x6112a3b7, 0xedffbff8, 0xc74c6516, 0x14383d8e), 0xd5a79147, 0xec8726cb);
    RStep(s, b, 30, Regs(0xa0060b30, 0x363482c9, 0x77d37528, 0xb62ec4bc,
               0xade79437, 0x6112a3b7, 0xedffbff8, 0xc74c6516), 0x06ca6351, 0x702138a4);
    RStep(s, b, 31, Regs(0xea992a22, 0xa0060b30, 0x363482c9, 0x77d37528,
               0x0109ab3a, 0xade79437, 0x6112a3b7, 0xedffbff8), 0x14292967, 0xd3b7973b);
  }

  lemma Constants32()
    ensures Constant(32) == 0x27b70a85 && Constant(33) == 0x2e1b2138 && Constant(34) == 0x4d2c6dfc
    ensures Constant(35) == 0x53380d13 && Constant(36) == 0x650a7354 && Constant(37) == 0x766a0abb
    ensures Constant(38) == 0x81c2c92e && Constant(39) == 0x92722c85
  {
  }

  lemma Rounds40(s: Regs, b: words)
    requires IsAbc(b) && s == Load(Initial())
    ensures Rounds(s, b, 40) == Regs(0x79ea687a, 0x6dc57a8a, 0x34df1604, 0x41a65cb1,
           0x1efbc0a0, 0xf0781bc8, 0xa507a53d, 0x0772a26b)
  {
    hide W, Rounds, Constant, Load;
    Schedule32(b);
    Constants32();
    Rounds32(s, b);
    RStep(s, b, 32, Regs(0x73b33bf5, 0xea992a22, 0xa0060b30, 0x363482c9,
               0xba591112, 0x0109ab3a, 0xade79437, 0x6112a3b7), 0x27b70a85, 0x93f5997f);
    RStep(s, b, 33, Regs(0x98e12507, 0x73b33bf5, 0xea992a22, 0xa0060b30,
               0x9cd9f5f6, 0xba591112, 0x0109ab3a, 0xade79437), 0x2e1b2138, 0x3b68ba73);
    RStep(s, b, 34, Regs(0xfe604df5, 0x98e12507, 0x73b33bf5, 0xea992a22,
               0x59249dd3, 0x9cd9f5f6, 0xba591112, 0x0109ab3a), 0x4d2c6dfc, 0xaff4ffc1);
    RStep(s, b, 35, Regs(0xa9a7738c, 0xfe604df5, 0x98e12507, 0x73b33bf5,
               0x085f3833, 0x59249dd3, 0x9cd9f5f6, 0xba591112), 0x53380d13, 0xf10a5c62);
    RStep(s, b, 36, Regs(0x65a0cfe4, 0xa9a7738c, 0xfe604df5, 0x98e12507,
               0xf4b002d6, 0x085f3833, 0x59249dd3, 0x9cd9f5f6), 0x650a7354, 0x0a8b3996);
    RStep(s, b, 37, Regs(0x41a65cb1, 0x65a0cfe4, 0xa9a7738c, 0xfe604df5,
               0x0772a26b, 0xf4b002d6, 0x085f3833, 0x59249dd3), 0x766a0abb, 0x72af830a);
    RStep(s, b, 38, Regs(0x34df1604, 0x41a65cb1, 0x65a0cfe4, 0xa9a7738c,
               0xa507a53d, 0x0772a26b, 0xf4b002d6, 0x085f3833), 0x81c2c92e, 0x9409e33e);
    RStep(s, b, 39, Regs(0x6dc57a8a, 0x34df1604, 0x41a65cb1, 0x65a0cfe4,
               0xf0781bc8, 0xa507a53d, 0x0772a26b, 0xf4b002d6), 0x92722c85, 0x24641522);
  }

  lemma Constants40()
    ensures Constant(40) == 0xa2bfe8a1 && Constant(41) == 0xa81a664b && Constant(42) == 0xc24b8b70
    ensures Constant(43) == 0xc76c51a3 && Constant(44) == 0xd192e819 && Constant(45) == 0xd6990624
    ensures Constant(46) == 0xf40e3585 && Constant(47) == 0x106aa070
  {
  }

  lemma Rounds48(s: Regs, b: words)
    requires IsAbc(b) && s == Load(Initial())
    ensures Rounds(s, b, 48) == Regs(0x4172328d, 0xa14c14b0, 0x72ab4b91, 0x26628815,
           0xfecf0bc6, 0xd57b94a9, 0xb7755da1, 0xa80f11f0)
  {
    hide W, Rounds, Constant, Load;
    Schedule40(b);
    Constants40();
    Rounds40(s, b);
    RStep(s, b, 40, Regs(0x79ea687a, 0x6dc57a8a, 0x34df1604, 0x41a65cb1,
               0x1efbc0a0, 0xf0781bc8, 0xa507a53d, 0x0772a26b), 0xa2bfe8a1, 0x9f47bf94);
    RStep(s, b, 41, Regs(0xd6670766, 0x79ea687a, 0x6dc57a8a, 0x34df1604,
               0x26352d63, 0x1efbc0a0, 0xf0781bc8, 0xa507a53d), 0xa81a664b, 0xf0a64f5a);
    RStep(s, b, 42, Regs(0xdf46652f, 0xd6670766, 0x79ea687a, 0x6dc57a8a,
               0x838b2711, 0x26352d63, 0x1efbc0a0, 0xf0781bc8), 0xc24b8b70, 0x3e246a79);
    RStep(s, b, 43, Regs(0x17aa0dfe, 0xdf46652f, 0xd6670766, 0x79ea687a,
               0xdecd4715, 0x838b2711, 0x26352d63, 0x1efbc0a0), 0xc76c51a3, 0x27333ba3);
    RStep(s, b, 44, Regs(0x9d4baf93, 0x17aa0dfe, 0xdf46652f, 0xd6670766,
               0xfda24c2e, 0xdecd4715, 0x838b2711, 0x26352d63), 0xd192e819, 0x0c4763f2);
    RStep(s, b, 45, Regs(0x26628815, 0x9d4baf93, 0x17aa0dfe, 0xdf46652f,
               0xa80f11f0, 0xfda24c2e, 0xdecd4715, 0x838b2711), 0xd6990624, 0x840abf27);
    RStep(s, b, 46, Regs(0x72ab4b91, 0x26628815, 0x9d4baf93, 0x17aa0dfe,
               0xb7755da1, 0xa80f11f0, 0xfda24c2e, 0xdecd4715), 0xf40e3585, 0x7a290d5d);
    RStep(s, b, 47, Regs(0xa14c14b0, 0x72ab4b91, 0x26628815, 0x9d4baf93,
               0xd57b94a9, 0xb7755da1, 0xa80f11f0, 0xfda24c2e), 0x106aa070, 0x065c43da);
  }

  lemma Constants48()
    ensures Constant(48) == 0x19a4c116 && Constant(49) == 0x1e376c08 && Constant(50) == 0x2748774c
    ensures Constant(51) == 0x34b0bcb5 && Constant(52) == 0x391c0cb3 && Constant(53) == 0x4ed8aa4a
    ensures Constant(54) == 0x5b9cca4f && Constant(55) == 0x682e6ff3
  {
  }

  lemma Rounds56(s: Regs, b: words)
    requires IsAbc(b) && s == Load(Initial())
    ensures Rounds(s, b, 56) == Regs(0x38cc9913, 0x3ec45cdb, 0xf5702fdb, 0x101fd28f,
           0x54cb266b, 0xe50e1b4f, 0x9f4787c3, 0x529e7d00)
  {
    hide W, Rounds, Constant, Load;
    Schedule48(b);
    Constants48();
    Rounds48(s, b);
    RStep(s, b, 48, Regs(0x4172328d, 0xa14c14b0, 0x72ab4b91, 0x26628815,
               0xfecf0bc6, 0xd57b94a9, 0xb7755da1, 0xa80f11f0), 0x19a4c116, 0xfb3e89cb);
    RStep(s, b, 49, Regs(0x05757ceb, 0x4172328d, 0xa14c14b0, 0x72ab4b91,
               0xbd714038, 0xfecf0bc6, 0xd57b94a9, 0xb7755da1), 0x1e376c08, 0xcc7617db);
    RStep(s, b, 50, Regs(0xf11bfaa8, 0x05757ceb, 0x4172328d, 0xa14c14b0,
               0x6e5c390c, 0xbd714038, 0xfecf0bc6, 0xd57b94a9), 0x2748774c, 0xb9e66c34);
    RStep(s, b, 51, Regs(0x7a0508a1, 0xf11bfaa8, 0x05757ceb, 0x4172328d,
               0x52f1ccf7, 0x6e5c390c, 0xbd714038, 0xfecf0bc6), 0x34b0bcb5, 0xa9993667);
    RStep(s, b, 52, Regs(0x886e7a22, 0x7a0508a1, 0xf11bfaa8, 0x05757ceb,
               0x49231c1e, 0x52f1ccf7, 0x6e5c390c, 0xbd714038), 0x391c0cb3, 0x84badedd);
    RStep(s, b, 53, Regs(0x101fd28f, 0x886e7a22, 0x7a0508a1, 0xf11bfaa8,
               0x529e7d00, 0x49231c1e, 0x52f1ccf7, 0x6e5c390c), 0x4ed8aa4a, 0xc21462bc);
    RStep(s, b, 54, Regs(0xf5702fdb, 0x101fd28f, 0x886e7a22, 0x7a0508a1,
               0x9f4787c3, 0x529e7d00, 0x49231c1e, 0x52f1ccf7), 0x5b9cca4f, 0x1487472c);
    RStep(s, b, 55, Regs(0x3ec45cdb, 0xf5702fdb, 0x101fd28f, 0x886e7a22,
               0xe50e1b4f, 0x9f4787c3, 0x529e7d00, 0x49231c1e), 0x682e6ff3, 0xb20f7a99);
  }

  lemma Constants56()
    ensures Constant(56) == 0x748f82ee && Constant(57) == 0x78a5636f && Constant(58) == 0x84c87814
    ensures Constant(59) == 0x8cc70208 && Constant(60) == 0x90befffa && Constant(61) == 0xa4506ceb
    ensures Constant(62) == 0xbef9a3f7 && Constant(63) == 0xc67178f2
  {
  }

  lemma Rounds64(s: Regs, b: words)
    requires IsAbc(b) && s == Load(Initial())
    ensures Rounds(s, b, 64) == Regs(0x506e3058, 0xd39a2165, 0x04d24d6c, 0xb85e2ce9,
           0x5ef50f24, 0xfb121210, 0x948d25b6, 0x961f4894)
  {
    hide W, Rounds, Constant, Load;
    Schedule56(b);
    Constants56();
    Rounds56(s, b);
    RStep(s, b, 56, Regs(0x38cc9913, 0x3ec45cdb, 0xf5702fdb, 0x101fd28f,
               0x54cb266b, 0xe50e1b4f, 0x9f4787c3, 0x529e7d00), 0x748f82ee, 0xef57b9cd);
    RStep(s, b, 57, Regs(0xfcd1887b, 0x38cc9913, 0x3ec45cdb, 0xf5702fdb,
               0x9b5e906c, 0x54cb266b, 0xe50e1b4f, 0x9f4787c3), 0x78a5636f, 0xebe6b238);
    RStep(s, b, 58, Regs(0xc062d46f, 0xfcd1887b, 0x38cc9913, 0x3ec45cdb,
               0x7e44008e, 0x9b5e906c, 0x54cb266b, 0xe50e1b4f), 0x84c87814, 0x9fe3095e);
    RStep(s, b, 59, Regs(0xffb70472, 0xc062d46f, 0xfcd1887b, 0x38cc9913,
               0x6d83bfc6, 0x7e44008e, 0x9b5e906c, 0x54cb266b), 0x8cc70208, 0x78bc8d4b);
    RStep(s, b, 60, Regs(0xb6ae8fff, 0xffb70472, 0xc062d46f, 0xfcd1887b,
               0xb21bad3d, 0x6d83bfc6, 0x7e44008e, 0x9b5e906c), 0x90befffa, 0xa43fcf15);
    RStep(s, b, 61, Regs(0xb85e2ce9, 0xb6ae8fff, 0xffb70472, 0xc062d46f,
               0x961f4894, 0xb21bad3d, 0x6d83bfc6, 0x7e44008e), 0xa4506ceb, 0x668b2ff8);
    RStep(s, b, 62, Regs(0x04d24d6c, 0xb85e2ce9, 0xb6ae8fff, 0xffb70472,
               0x948d25b6, 0x961f4894, 0xb21bad3d, 0x6d83bfc6), 0xbef9a3f7, 0xeeaba2cc);
    RStep(s, b, 63, Regs(0xd39a2165, 0x04d24d6c, 0xb85e2ce9, 0xb6ae8fff,
               0xfb121210, 0x948d25b6, 0x961f4894, 0xb21bad3d), 0xc67178f2, 0x12b1edeb);
  }

  lemma FirstRegs(s: Regs, b: words)
    requires |b| == 16 && s == Load(Initial())
    ensures Rounds(s, b, 0) == Regs(0x6a09e667, 0xbb67ae85, 0x3c6ef372, 0xa54ff53a,
           0x510e527f, 0x9b05688c, 0x1f83d9ab, 0x5be0cd19)
  {
  }

  // ---------------------------------------------------------------- the digest

  function Answer(): words
  {
    [0xba7816bf, 0x8f01cfea, 0x414140de, 0x5dae2223,
     0xb00361a3, 0x96177a9c, 0xb410ff61, 0xf20015ad]
  }

  lemma AbcCompresses(b: words)
    requires IsAbc(b)
    ensures Compress(Initial(), b) == Answer()
  {
    hide Rounds;
    Rounds64(Load(Initial()), b);
  }

  lemma AbcPads()
    ensures |Pad(ABC)| == 64 && IsAbc(Words(Pad(ABC)))
  {
    LengthSpelled();
    AbcPadding();
    hide Padding;
    var p := Pad(ABC);
    forall i | 0 <= i < 16
      ensures Word(p, i) == if i == 0 then 0x61626380 else if i == 15 then 24 else 0
    {
      BlockBytes(p, i);
    }
  }

  lemma AbcPadding()
    ensures Padding(3, 24) == [0x80] + seq(52, _ => 0) + [0, 0, 0, 0, 0, 0, 0, 24]
  {
    hide BigEndian;
    LengthSpelled();
    assert ZeroCount(3) == 52;
  }

  lemma BlockBytes(p: octets, i: nat)
    requires p == ABC + ([0x80] + seq(52, _ => 0) + [0, 0, 0, 0, 0, 0, 0, 24]) && i < 16
    ensures |p| == 64 && Word(p, i) == if i == 0 then 0x61626380 else if i == 15 then 24 else 0
  {
    assert i == 0 ==> p[0] == 0x61 && p[1] == 0x62 && p[2] == 0x63 && p[3] == 0x80;
    assert i == 15 ==> p[60] == 0 && p[61] == 0 && p[62] == 0 && p[63] == 24;
    assert 0 < i < 15 ==> p[4 * i] == 0 && p[4 * i + 1] == 0 && p[4 * i + 2] == 0 && p[4 * i + 3] == 0;
  }

  lemma LengthSpelled()
    ensures BigEndian(24, 8) == [0, 0, 0, 0, 0, 0, 0, 24]
  {
    assert BigEndian(0, 0) == [];
    assert BigEndian(0, 1) == [0];
    assert BigEndian(0, 2) == [0, 0];
    assert BigEndian(0, 3) == [0, 0, 0];
    assert BigEndian(0, 4) == [0, 0, 0, 0];
    assert BigEndian(0, 5) == [0, 0, 0, 0, 0];
    assert BigEndian(0, 6) == [0, 0, 0, 0, 0, 0];
    assert BigEndian(0, 7) == [0, 0, 0, 0, 0, 0, 0];
  }

  lemma AbcHashes()
    ensures Hash(ABC) == Digest(Answer())
  {
    hide Compress, Words, Pad, Digest;
    AbcPads();
    ChainOne(Initial(), Pad(ABC));
    AbcCompresses(Words(Pad(ABC)));
  }

  // The digest of "abc", byte for byte.
  lemma KnownAnswer()
    ensures Hash(ABC) == [
      0xba, 0x78, 0x16, 0xbf, 0x8f, 0x01, 0xcf, 0xea,
      0x41, 0x41, 0x40, 0xde, 0x5d, 0xae, 0x22, 0x23,
      0xb0, 0x03, 0x61, 0xa3, 0x96, 0x17, 0x7a, 0x9c,
      0xb4, 0x10, 0xff, 0x61, 0xf2, 0x00, 0x15, 0xad]
  {
    AbcHashes();
    hide Hash;
  }
}
