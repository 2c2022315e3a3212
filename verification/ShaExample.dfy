/**
 The one-block example of appendix B.1 of FIPS 180-2: the digest of "abc", round by round.
 */
module ShaExample {
  import opened Sha256
  import opened ShaVectors

  // ----- the block, and eight of its words at a time -----

  /** "abc", a one bit, zeros and the length, 24 bits. */
  function Block(): (block: seq<Byte>)
    ensures |block| == 64
  {
    Pad([0x61, 0x62, 0x63])
  }

  /** These are the eight words of the schedule from place 8 * i on. */
  predicate Scheduled(i: nat, w: Eight)
    requires i < 8
  {
    && W(Block(), 8 * i) == Num(w.a)
    && W(Block(), 8 * i + 1) == Num(w.b)
    && W(Block(), 8 * i + 2) == Num(w.c)
    && W(Block(), 8 * i + 3) == Num(w.d)
    && W(Block(), 8 * i + 4) == Num(w.e)
    && W(Block(), 8 * i + 5) == Num(w.f)
    && W(Block(), 8 * i + 6) == Num(w.g)
    && W(Block(), 8 * i + 7) == Num(w.h)
  }

  predicate Constants(i: nat, k: Eight)
    requires i < 8
  {
    && K(8 * i) == Num(k.a)
    && K(8 * i + 1) == Num(k.b)
    && K(8 * i + 2) == Num(k.c)
    && K(8 * i + 3) == Num(k.d)
    && K(8 * i + 4) == Num(k.e)
    && K(8 * i + 5) == Num(k.f)
    && K(8 * i + 6) == Num(k.g)
    && K(8 * i + 7) == Num(k.h)
  }

  function NextWord(w2: bv32, w7: bv32, w15: bv32, w16: bv32): bv32 {
    Plus32(Plus32(Plus32(Sigma1Of(w2), w7), Sigma0Of(w15)), w16)
  }

  lemma NextWordIs(t: nat, w2: bv32, w7: bv32, w15: bv32, w16: bv32, w: bv32)
    requires 16 <= t < 64 && NextWord(w2, w7, w15, w16) == w
    requires W(Block(), t - 2) == Num(w2) && W(Block(), t - 7) == Num(w7)
    requires W(Block(), t - 15) == Num(w15) && W(Block(), t - 16) == Num(w16)
    ensures W(Block(), t) == Num(w)
  {
    hide Num, Add, Sigma0, Sigma1, Sigma0Of, Sigma1Of, Plus32, Block;
    Sigma1Is(w2);
    Sigma0Is(w15);
    AddIs(Sigma1Of(w2), w7);
    AddIs(Plus32(Sigma1Of(w2), w7), Sigma0Of(w15));
    AddIs(Plus32(Plus32(Sigma1Of(w2), w7), Sigma0Of(w15)), w16);
  }

  predicate Reached(t: nat, s: Eight)
    requires t <= 64
  {
    Rounds(InitialHash(), Block(), t) == s.ToState()
  }

  lemma Step(t: nat, s: Eight, k: bv32, w: bv32, r: Eight)
    requires t < 64 && Reached(t, s)
    requires K(t) == Num(k) && W(Block(), t) == Num(w) && RoundOf(s, k, w) == r
    ensures Reached(t + 1, r)
  {
    hide Num, K, W, Round, RoundOf, Block;
    RoundIs(s, k, w);
  }

  // ----- the example -----

  const W0 := Eight(0x61626380, 0x00000000, 0x00000000, 0x00000000, 0x00000000, 0x00000000, 0x00000000, 0x00000000)
  const W8 := Eight(0x00000000, 0x00000000, 0x00000000, 0x00000000, 0x00000000, 0x00000000, 0x00000000, 0x00000018)
  const W16 := Eight(0x61626380, 0x000f0000, 0x7da86405, 0x600003c6, 0x3e9d7b78, 0x0183fc00, 0x12dcbfdb, 0xe2e2c38e)
  const W24 := Eight(0xc8215c1a, 0xb73679a2, 0xe5bc3909, 0x32663c5b, 0x9d209d67, 0xec8726cb, 0x702138a4, 0xd3b7973b)
  const W32 := Eight(0x93f5997f, 0x3b68ba73, 0xaff4ffc1, 0xf10a5c62, 0x0a8b3996, 0x72af830a, 0x9409e33e, 0x24641522)
  const W40 := Eight(0x9f47bf94, 0xf0a64f5a, 0x3e246a79, 0x27333ba3, 0x0c4763f2, 0x840abf27, 0x7a290d5d, 0x065c43da)
  const W48 := Eight(0xfb3e89cb, 0xcc7617db, 0xb9e66c34, 0xa9993667, 0x84badedd, 0xc21462bc, 0x1487472c, 0xb20f7a99)
  const W56 := Eight(0xef57b9cd, 0xebe6b238, 0x9fe3095e, 0x78bc8d4b, 0xa43fcf15, 0x668b2ff8, 0xeeaba2cc, 0x12b1edeb)

  const K0 := Eight(0x428a2f98, 0x71374491, 0xb5c0fbcf, 0xe9b5dba5, 0x3956c25b, 0x59f111f1, 0x923f82a4, 0xab1c5ed5)
  const K8 := Eight(0xd807aa98, 0x12835b01, 0x243185be, 0x550c7dc3, 0x72be5d74, 0x80deb1fe, 0x9bdc06a7, 0xc19bf174)
  const K16 := Eight(0xe49b69c1, 0xefbe4786, 0x0fc19dc6, 0x240ca1cc, 0x2de92c6f, 0x4a7484aa, 0x5cb0a9dc, 0x76f988da)
  const K24 := Eight(0x983e5152, 0xa831c66d, 0xb00327c8, 0xbf597fc7, 0xc6e00bf3, 0xd5a79147, 0x06ca6351, 0x14292967)
  const K32 := Eight(0x27b70a85, 0x2e1b2138, 0x4d2c6dfc, 0x53380d13, 0x650a7354, 0x766a0abb, 0x81c2c92e, 0x92722c85)
  const K40 := Eight(0xa2bfe8a1, 0xa81a664b, 0xc24b8b70, 0xc76c51a3, 0xd192e819, 0xd6990624, 0xf40e3585, 0x106aa070)
  const K48 := Eight(0x19a4c116, 0x1e376c08, 0x2748774c, 0x34b0bcb5, 0x391c0cb3, 0x4ed8aa4a, 0x5b9cca4f, 0x682e6ff3)
  const K56 := Eight(0x748f82ee, 0x78a5636f, 0x84c87814, 0x8cc70208, 0x90befffa, 0xa4506ceb, 0xbef9a3f7, 0xc67178f2)

  const S0 := Eight(0x6a09e667, 0xbb67ae85, 0x3c6ef372, 0xa54ff53a, 0x510e527f, 0x9b05688c, 0x1f83d9ab, 0x5be0cd19)
  const S1 := Eight(0x5d6aebcd, 0x6a09e667, 0xbb67ae85, 0x3c6ef372, 0xfa2a4622, 0x510e527f, 0x9b05688c, 0x1f83d9ab)
  const S2 := Eight(0x5a6ad9ad, 0x5d6aebcd, 0x6a09e667, 0xbb67ae85, 0x78ce7989, 0xfa2a4622, 0x510e527f, 0x9b05688c)
  const S3 := Eight(0xc8c347a7, 0x5a6ad9ad, 0x5d6aebcd, 0x6a09e667, 0xf92939eb, 0x78ce7989, 0xfa2a4622, 0x510e527f)
  const S4 := Eight(0xd550f666, 0xc8c347a7, 0x5a6ad9ad, 0x5d6aebcd, 0x24e00850, 0xf92939eb, 0x78ce7989, 0xfa2a4622)
  const S5 := Eight(0x04409a6a, 0xd550f666, 0xc8c347a7, 0x5a6ad9ad, 0x43ada245, 0x24e00850, 0xf92939eb, 0x78ce7989)
  const S6 := Eight(0x2b4209f5, 0x04409a6a, 0xd550f666, 0xc8c347a7, 0x714260ad, 0x43ada245, 0x24e00850, 0xf92939eb)
  const S7 := Eight(0xe5030380, 0x2b4209f5, 0x04409a6a, 0xd550f666, 0x9b27a401, 0x714260ad, 0x43ada245, 0x24e00850)
  const S8 := Eight(0x85a07b5f, 0xe5030380, 0x2b4209f5, 0x04409a6a, 0x0c657a79, 0x9b27a401, 0x714260ad, 0x43ada245)
  const S9 := Eight(0x8e04ecb9, 0x85a07b5f, 0xe5030380, 0x2b4209f5, 0x32ca2d8c, 0x0c657a79, 0x9b27a401, 0x714260ad)
  const S10 := Eight(0x8c87346b, 0x8e04ecb9, 0x85a07b5f, 0xe5030380, 0x1cc92596, 0x32ca2d8c, 0x0c657a79, 0x9b27a401)
  const S11 := Eight(0x4798a3f4, 0x8c87346b, 0x8e04ecb9, 0x85a07b5f, 0x436b23e8, 0x1cc92596, 0x32ca2d8c, 0x0c657a79)
  const S12 := Eight(0xf71fc5a9, 0x4798a3f4, 0x8c87346b, 0x8e04ecb9, 0x816fd6e9, 0x436b23e8, 0x1cc92596, 0x32ca2d8c)
  const S13 := Eight(0x87912990, 0xf71fc5a9, 0x4798a3f4, 0x8c87346b, 0x1e578218, 0x816fd6e9, 0x436b23e8, 0x1cc92596)
  const S14 := Eight(0xd932eb16, 0x87912990, 0xf71fc5a9, 0x4798a3f4, 0x745a48de, 0x1e578218, 0x816fd6e9, 0x436b23e8)
  const S15 := Eight(0xc0645fde, 0xd932eb16, 0x87912990, 0xf71fc5a9, 0x0b92f20c, 0x745a48de, 0x1e578218, 0x816fd6e9)
  const S16 := Eight(0xb0fa238e, 0xc0645fde, 0xd932eb16, 0x87912990, 0x07590dcd, 0x0b92f20c, 0x745a48de, 0x1e578218)
  const S17 := Eight(0x21da9a9b, 0xb0fa238e, 0xc0645fde, 0xd932eb16, 0x8034229c, 0x07590dcd, 0x0b92f20c, 0x745a48de)
  const S18 := Eight(0xc2fbd9d1, 0x21da9a9b, 0xb0fa238e, 0xc0645fde, 0x846ee454, 0x8034229c, 0x07590dcd, 0x0b92f20c)
  const S19 := Eight(0xfe777bbf, 0xc2fbd9d1, 0x21da9a9b, 0xb0fa238e, 0xcc899961, 0x846ee454, 0x8034229c, 0x07590dcd)
  const S20 := Eight(0xe1f20c33, 0xfe777bbf, 0xc2fbd9d1, 0x21da9a9b, 0xb0638179, 0xcc899961, 0x846ee454, 0x8034229c)
  const S21 := Eight(0x9dc68b63, 0xe1f20c33, 0xfe777bbf, 0xc2fbd9d1, 0x8ada8930, 0xb0638179, 0xcc899961, 0x846ee454)
  const S22 := Eight(0xc2606d6d, 0x9dc68b63, 0xe1f20c33, 0xfe777bbf, 0xe1257970, 0x8ada8930, 0xb0638179, 0xcc899961)
  const S23 := Eight(0xa7a3623f, 0xc2606d6d, 0x9dc68b63, 0xe1f20c33, 0x49f5114a, 0xe1257970, 0x8ada8930, 0xb0638179)
  const S24 := Eight(0xc5d53d8d, 0xa7a3623f, 0xc2606d6d, 0x9dc68b63, 0xaa47c347, 0x49f5114a, 0xe1257970, 0x8ada8930)
  const S25 := Eight(0x1c2c2838, 0xc5d53d8d, 0xa7a3623f, 0xc2606d6d, 0x2823ef91, 0xaa47c347, 0x49f5114a, 0xe1257970)
  const S26 := Eight(0xcde8037d, 0x1c2c2838, 0xc5d53d8d, 0xa7a3623f, 0x14383d8e, 0x2823ef91, 0xaa47c347, 0x49f5114a)
  const S27 := Eight(0xb62ec4bc, 0xcde8037d, 0x1c2c2838, 0xc5d53d8d, 0xc74c6516, 0x14383d8e, 0x2823ef91, 0xaa47c347)
  const S28 := Eight(0x77d37528, 0xb62ec4bc, 0xcde8037d, 0x1c2c2838, 0xedffbff8, 0xc74c6516, 0x14383d8e, 0x2823ef91)
  const S29 := Eight(0x363482c9, 0x77d37528, 0xb62ec4bc, 0xcde8037d, 0x6112a3b7, 0xedffbff8, 0xc74c6516, 0x14383d8e)
  const S30 := Eight(0xa0060b30, 0x363482c9, 0x77d37528, 0xb62ec4bc, 0xade79437, 0x6112a3b7, 0xedffbff8, 0xc74c6516)
  const S31 := Eight(0xea992a22, 0xa0060b30, 0x363482c9, 0x77d37528, 0x0109ab3a, 0xade79437, 0x6112a3b7, 0xedffbff8)
  const S32 := Eight(0x73b33bf5, 0xea992a22, 0xa0060b30, 0x363482c9, 0xba591112, 0x0109ab3a, 0xade79437, 0x6112a3b7)
  const S33 := Eight(0x98e12507, 0x73b33bf5, 0xea992a22, 0xa0060b30, 0x9cd9f5f6, 0xba591112, 0x0109ab3a, 0xade79437)
  const S34 := Eight(0xfe604df5, 0x98e12507, 0x73b33bf5, 0xea992a22, 0x59249dd3, 0x9cd9f5f6, 0xba591112, 0x0109ab3a)
  const S35 := Eight(0xa9a7738c, 0xfe604df5, 0x98e12507, 0x73b33bf5, 0x085f3833, 0x59249dd3, 0x9cd9f5f6, 0xba591112)
  const S36 := Eight(0x65a0cfe4, 0xa9a7738c, 0xfe604df5, 0x98e12507, 0xf4b002d6, 0x085f3833, 0x59249dd3, 0x9cd9f5f6)
  const S37 := Eight(0x41a65cb1, 0x65a0cfe4, 0xa9a7738c, 0xfe604df5, 0x0772a26b, 0xf4b002d6, 0x085f3833, 0x59249dd3)
  const S38 := Eight(0x34df1604, 0x41a65cb1, 0x65a0cfe4, 0xa9a7738c, 0xa507a53d, 0x0772a26b, 0xf4b002d6, 0x085f3833)
  const S39 := Eight(0x6dc57a8a, 0x34df1604, 0x41a65cb1, 0x65a0cfe4, 0xf0781bc8, 0xa507a53d, 0x0772a26b, 0xf4b002d6)
  const S40 := Eight(0x79ea687a, 0x6dc57a8a, 0x34df1604, 0x41a65cb1, 0x1efbc0a0, 0xf0781bc8, 0xa507a53d, 0x0772a26b)
  const S41 := Eight(0xd6670766, 0x79ea687a, 0x6dc57a8a, 0x34df1604, 0x26352d63, 0x1efbc0a0, 0xf0781bc8, 0xa507a53d)
  const S42 := Eight(0xdf46652f, 0xd6670766, 0x79ea687a, 0x6dc57a8a, 0x838b2711, 0x26352d63, 0x1efbc0a0, 0xf0781bc8)
  const S43 := Eight(0x17aa0dfe, 0xdf46652f, 0xd6670766, 0x79ea687a, 0xdecd4715, 0x838b2711, 0x26352d63, 0x1efbc0a0)
  const S44 := Eight(0x9d4baf93, 0x17aa0dfe, 0xdf46652f, 0xd6670766, 0xfda24c2e, 0xdecd4715, 0x838b2711, 0x26352d63)
  const S45 := Eight(0x26628815, 0x9d4baf93, 0x17aa0dfe, 0xdf46652f, 0xa80f11f0, 0xfda24c2e, 0xdecd4715, 0x838b2711)
  const S46 := Eight(0x72ab4b91, 0x26628815, 0x9d4baf93, 0x17aa0dfe, 0xb7755da1, 0xa80f11f0, 0xfda24c2e, 0xdecd4715)
  const S47 := Eight(0xa14c14b0, 0x72ab4b91, 0x26628815, 0x9d4baf93, 0xd57b94a9, 0xb7755da1, 0xa80f11f0, 0xfda24c2e)
  const S48 := Eight(0x4172328d, 0xa14c14b0, 0x72ab4b91, 0x26628815, 0xfecf0bc6, 0xd57b94a9, 0xb7755da1, 0xa80f11f0)
  const S49 := Eight(0x05757ceb, 0x4172328d, 0xa14c14b0, 0x72ab4b91, 0xbd714038, 0xfecf0bc6, 0xd57b94a9, 0xb7755da1)
  const S50 := Eight(0xf11bfaa8, 0x05757ceb, 0x4172328d, 0xa14c14b0, 0x6e5c390c, 0xbd714038, 0xfecf0bc6, 0xd57b94a9)
  const S51 := Eight(0x7a0508a1, 0xf11bfaa8, 0x05757ceb, 0x4172328d, 0x52f1ccf7, 0x6e5c390c, 0xbd714038, 0xfecf0bc6)
  const S52 := Eight(0x886e7a22, 0x7a0508a1, 0xf11bfaa8, 0x05757ceb, 0x49231c1e, 0x52f1ccf7, 0x6e5c390c, 0xbd714038)
  const S53 := Eight(0x101fd28f, 0x886e7a22, 0x7a0508a1, 0xf11bfaa8, 0x529e7d00, 0x49231c1e, 0x52f1ccf7, 0x6e5c390c)
  const S54 := Eight(0xf5702fdb, 0x101fd28f, 0x886e7a22, 0x7a0508a1, 0x9f4787c3, 0x529e7d00, 0x49231c1e, 0x52f1ccf7)
  const S55 := Eight(0x3ec45cdb, 0xf5702fdb, 0x101fd28f, 0x886e7a22, 0xe50e1b4f, 0x9f4787c3, 0x529e7d00, 0x49231c1e)
  const S56 := Eight(0x38cc9913, 0x3ec45cdb, 0xf5702fdb, 0x101fd28f, 0x54cb266b, 0xe50e1b4f, 0x9f4787c3, 0x529e7d00)
  const S57 := Eight(0xfcd1887b, 0x38cc9913, 0x3ec45cdb, 0xf5702fdb, 0x9b5e906c, 0x54cb266b, 0xe50e1b4f, 0x9f4787c3)
  const S58 := Eight(0xc062d46f, 0xfcd1887b, 0x38cc9913, 0x3ec45cdb, 0x7e44008e, 0x9b5e906c, 0x54cb266b, 0xe50e1b4f)
  const S59 := Eight(0xffb70472, 0xc062d46f, 0xfcd1887b, 0x38cc9913, 0x6d83bfc6, 0x7e44008e, 0x9b5e906c, 0x54cb266b)
  const S60 := Eight(0xb6ae8fff, 0xffb70472, 0xc062d46f, 0xfcd1887b, 0xb21bad3d, 0x6d83bfc6, 0x7e44008e, 0x9b5e906c)
  const S61 := Eight(0xb85e2ce9, 0xb6ae8fff, 0xffb70472, 0xc062d46f, 0x961f4894, 0xb21bad3d, 0x6d83bfc6, 0x7e44008e)
  const S62 := Eight(0x04d24d6c, 0xb85e2ce9, 0xb6ae8fff, 0xffb70472, 0x948d25b6, 0x961f4894, 0xb21bad3d, 0x6d83bfc6)
  const S63 := Eight(0xd39a2165, 0x04d24d6c, 0xb85e2ce9, 0xb6ae8fff, 0xfb121210, 0x948d25b6, 0x961f4894, 0xb21bad3d)
  const S64 := Eight(0x506e3058, 0xd39a2165, 0x04d24d6c, 0xb85e2ce9, 0x5ef50f24, 0xfb121210, 0x948d25b6, 0x961f4894)

  lemma Following16()
    ensures NextWord(W8.g, W8.b, W0.b, W0.a) == W16.a
    ensures NextWord(W8.h, W8.c, W0.c, W0.b) == W16.b
    ensures NextWord(W16.a, W8.d, W0.d, W0.c) == W16.c
    ensures NextWord(W16.b, W8.e, W0.e, W0.d) == W16.d
    ensures NextWord(W16.c, W8.f, W0.f, W0.e) == W16.e
    ensures NextWord(W16.d, W8.g, W0.g, W0.f) == W16.f
    ensures NextWord(W16.e, W8.h, W0.h, W0.g) == W16.g
    ensures NextWord(W16.f, W16.a, W8.a, W0.h) == W16.h
  {
    assert Sigma1Of(0x00000000) == 0x00000000;
    assert Sigma1Of(0x00000018) == 0x000f0000;
    assert Sigma1Of(0x61626380) == 0x7da86405;
    assert Sigma1Of(0x000f0000) == 0x600003c6;
    assert Sigma1Of(0x7da86405) == 0x3e9d7b78;
    assert Sigma1Of(0x600003c6) == 0x0183fc00;
    assert Sigma1Of(0x3e9d7b78) == 0x12dcbfc3;
    assert Sigma1Of(0x0183fc00) == 0x8180600e;
    assert Sigma0Of(0x00000000) == 0x00000000;
    assert Sigma0Of(0x00000018) == 0x30060003;
    hide Sigma0Of, Sigma1Of;
  }

  lemma Words16()
    ensures Scheduled(2, W16)
  {
    hide W, Num, NextWord, Block;
    Words0();
    Words8();
    Following16();
    NextWordIs(16, W8.g, W8.b, W0.b, W0.a, W16.a);
    NextWordIs(17, W8.h, W8.c, W0.c, W0.b, W16.b);
    NextWordIs(18, W16.a, W8.d, W0.d, W0.c, W16.c);
    NextWordIs(19, W16.b, W8.e, W0.e, W0.d, W16.d);
    NextWordIs(20, W16.c, W8.f, W0.f, W0.e, W16.e);
    NextWordIs(21, W16.d, W8.g, W0.g, W0.f, W16.f);
    NextWordIs(22, W16.e, W8.h, W0.h, W0.g, W16.g);
    NextWordIs(23, W16.f, W16.a, W8.a, W0.h, W16.h);
  }

  lemma Following24()
    ensures NextWord(W16.g, W16.b, W8.b, W8.a) == W24.a
    ensures NextWord(W16.h, W16.c, W8.c, W8.b) == W24.b
    ensures NextWord(W24.a, W16.d, W8.d, W8.c) == W24.c
    ensures NextWord(W24.b, W16.e, W8.e, W8.d) == W24.d
    ensures NextWord(W24.c, W16.f, W8.f, W8.e) == W24.e
    ensures NextWord(W24.d, W16.g, W8.g, W8.f) == W24.f
    ensures NextWord(W24.e, W16.h, W8.h, W8.g) == W24.g
    ensures NextWord(W24.f, W24.a, W16.a, W8.h) == W24.h
  {
  }

  lemma Words24()
    ensures Scheduled(3, W24)
  {
    hide W, Num, NextWord, Block;
    Words8();
    Words16();
    Following24();
    NextWordIs(24, W16.g, W16.b, W8.b, W8.a, W24.a);
    NextWordIs(25, W16.h, W16.c, W8.c, W8.b, W24.b);
    NextWordIs(26, W24.a, W16.d, W8.d, W8.c, W24.c);
    NextWordIs(27, W24.b, W16.e, W8.e, W8.d, W24.d);
    NextWordIs(28, W24.c, W16.f, W8.f, W8.e, W24.e);
    NextWordIs(29, W24.d, W16.g, W8.g, W8.f, W24.f);
    NextWordIs(30, W24.e, W16.h, W8.h, W8.g, W24.g);
    NextWordIs(31, W24.f, W24.a, W16.a, W8.h, W24.h);
  }

  lemma Following32()
    ensures NextWord(W24.g, W24.b, W16.b, W16.a) == W32.a
    ensures NextWord(W24.h, W24.c, W16.c, W16.b) == W32.b
    ensures NextWord(W32.a, W24.d, W16.d, W16.c) == W32.c
    ensures NextWord(W32.b, W24.e, W16.e, W16.d) == W32.d
    ensures NextWord(W32.c, W24.f, W16.f, W16.e) == W32.e
    ensures NextWord(W32.d, W24.g, W16.g, W16.f) == W32.f
    ensures NextWord(W32.e, W24.h, W16.h, W16.g) == W32.g
    ensures NextWord(W32.f, W32.a, W24.a, W16.h) == W32.h
  {
  }

  lemma Words32()
    ensures Scheduled(4, W32)
  {
    hide W, Num, NextWord, Block;
    Words16();
    Words24();
    Following32();
    NextWordIs(32, W24.g, W24.b, W16.b, W16.a, W32.a);
    NextWordIs(33, W24.h, W24.c, W16.c, W16.b, W32.b);
    NextWordIs(34, W32.a, W24.d, W16.d, W16.c, W32.c);
    NextWordIs(35, W32.b, W24.e, W16.e, W16.d, W32.d);
    NextWordIs(36, W32.c, W24.f, W16.f, W16.e, W32.e);
    NextWordIs(37, W32.d, W24.g, W16.g, W16.f, W32.f);
    NextWordIs(38, W32.e, W24.h, W16.h, W16.g, W32.g);
    NextWordIs(39, W32.f, W32.a, W24.a, W16.h, W32.h);
  }

  lemma Following40()
    ensures NextWord(W32.g, W32.b, W24.b, W24.a) == W40.a
    ensures NextWord(W32.h, W32.c, W24.c, W24.b) == W40.b
    ensures NextWord(W40.a, W32.d, W24.d, W24.c) == W40.c
    ensures NextWord(W40.b, W32.e, W24.e, W24.d) == W40.d
    ensures NextWord(W40.c, W32.f, W24.f, W24.e) == W40.e
    ensures NextWord(W40.d, W32.g, W24.g, W24.f) == W40.f
    ensures NextWord(W40.e, W32.h, W24.h, W24.g) == W40.g
    ensures NextWord(W40.f, W40.a, W32.a, W24.h) == W40.h
  {
  }

  lemma Words40()
    ensures Scheduled(5, W40)
  {
    hide W, Num, NextWord, Block;
    Words24();
    Words32();
    Following40();
    NextWordIs(40, W32.g, W32.b, W24.b, W24.a, W40.a);
    NextWordIs(41, W32.h, W32.c, W24.c, W24.b, W40.b);
    NextWordIs(42, W40.a, W32.d, W24.d, W24.c, W40.c);
    NextWordIs(43, W40.b, W32.e, W24.e, W24.d, W40.d);
    NextWordIs(44, W40.c, W32.f, W24.f, W24.e, W40.e);
    NextWordIs(45, W40.d, W32.g, W24.g, W24.f, W40.f);
    NextWordIs(46, W40.e, W32.h, W24.h, W24.g, W40.g);
    NextWordIs(47, W40.f, W40.a, W32.a, W24.h, W40.h);
  }

  lemma Following48()
    ensures NextWord(W40.g, W40.b, W32.b, W32.a) == W48.a
    ensures NextWord(W40.h, W40.c, W32.c, W32.b) == W48.b
    ensures NextWord(W48.a, W40.d, W32.d, W32.c) == W48.c
    ensures NextWord(W48.b, W40.e, W32.e, W32.d) == W48.d
    ensures NextWord(W48.c, W40.f, W32.f, W32.e) == W48.e
    ensures NextWord(W48.d, W40.g, W32.g, W32.f) == W48.f
    ensures NextWord(W48.e, W40.h, W32.h, W32.g) == W48.g
    ensures NextWord(W48.f, W48.a, W40.a, W32.h) == W48.h
  {
  }

  lemma Words48()
    ensures Scheduled(6, W48)
  {
    hide W, Num, NextWord, Block;
    Words32();
    Words40();
    Following48();
    NextWordIs(48, W40.g, W40.b, W32.b, W32.a, W48.a);
    NextWordIs(49, W40.h, W40.c, W32.c, W32.b, W48.b);
    NextWordIs(50, W48.a, W40.d, W32.d, W32.c, W48.c);
    NextWordIs(51, W48.b, W40.e, W32.e, W32.d, W48.d);
    NextWordIs(52, W48.c, W40.f, W32.f, W32.e, W48.e);
    NextWordIs(53, W48.d, W40.g, W32.g, W32.f, W48.f);
    NextWordIs(54, W48.e, W40.h, W32.h, W32.g, W48.g);
    NextWordIs(55, W48.f, W48.a, W40.a, W32.h, W48.h);
  }

  lemma Following56()
    ensures NextWord(W48.g, W48.b, W40.b, W40.a) == W56.a
    ensures NextWord(W48.h, W48.c, W40.c, W40.b) == W56.b
    ensures NextWord(W56.a, W48.d, W40.d, W40.c) == W56.c
    ensures NextWord(W56.b, W48.e, W40.e, W40.d) == W56.d
    ensures NextWord(W56.c, W48.f, W40.f, W40.e) == W56.e
    ensures NextWord(W56.d, W48.g, W40.g, W40.f) == W56.f
    ensures NextWord(W56.e, W48.h, W40.h, W40.g) == W56.g
    ensures NextWord(W56.f, W56.a, W48.a, W40.h) == W56.h
  {
  }

  lemma Words56()
    ensures Scheduled(7, W56)
  {
    hide W, Num, NextWord, Block;
    Words40();
    Words48();
    Following56();
    NextWordIs(56, W48.g, W48.b, W40.b, W40.a, W56.a);
    NextWordIs(57, W48.h, W48.c, W40.c, W40.b, W56.b);
    NextWordIs(58, W56.a, W48.d, W40.d, W40.c, W56.c);
    NextWordIs(59, W56.b, W48.e, W40.e, W40.d, W56.d);
    NextWordIs(60, W56.c, W48.f, W40.f, W40.e, W56.e);
    NextWordIs(61, W56.d, W48.g, W40.g, W40.f, W56.f);
    NextWordIs(62, W56.e, W48.h, W40.h, W40.g, W56.g);
    NextWordIs(63, W56.f, W56.a, W48.a, W40.h, W56.h);
  }

  lemma Values0()
    ensures Num(K0.a) == 0x428a2f98
    ensures Num(K0.b) == 0x71374491
    ensures Num(K0.c) == 0xb5c0fbcf
    ensures Num(K0.d) == 0xe9b5dba5
    ensures Num(K0.e) == 0x3956c25b
    ensures Num(K0.f) == 0x59f111f1
    ensures Num(K0.g) == 0x923f82a4
    ensures Num(K0.h) == 0xab1c5ed5
  {
    hide Num;
    ValueIs(K0.a);
    ValueIs(K0.b);
    ValueIs(K0.c);
    ValueIs(K0.d);
    ValueIs(K0.e);
    ValueIs(K0.f);
    ValueIs(K0.g);
    ValueIs(K0.h);
  }

  lemma Constants0()
    ensures Constants(0, K0)
  {
    hide Num;
    Values0();
  }

  lemma Values8()
    ensures Num(K8.a) == 0xd807aa98
    ensures Num(K8.b) == 0x12835b01
    ensures Num(K8.c) == 0x243185be
    ensures Num(K8.d) == 0x550c7dc3
    ensures Num(K8.e) == 0x72be5d74
    ensures Num(K8.f) == 0x80deb1fe
    ensures Num(K8.g) == 0x9bdc06a7
    ensures Num(K8.h) == 0xc19bf174
  {
    hide Num;
    ValueIs(K8.a);
    ValueIs(K8.b);
    ValueIs(K8.c);
    ValueIs(K8.d);
    ValueIs(K8.e);
    ValueIs(K8.f);
    ValueIs(K8.g);
    ValueIs(K8.h);
  }

  lemma Constants8()
    ensures Constants(1, K8)
  {
    hide Num;
    Values8();
  }

  lemma Values16()
    ensures Num(K16.a) == 0xe49b69c1
    ensures Num(K16.b) == 0xefbe4786
    ensures Num(K16.c) == 0x0fc19dc6
    ensures Num(K16.d) == 0x240ca1cc
    ensures Num(K16.e) == 0x2de92c6f
    ensures Num(K16.f) == 0x4a7484aa
    ensures Num(K16.g) == 0x5cb0a9dc
    ensures Num(K16.h) == 0x76f988da
  {
    hide Num;
    ValueIs(K16.a);
    ValueIs(K16.b);
    ValueIs(K16.c);
    ValueIs(K16.d);
    ValueIs(K16.e);
    ValueIs(K16.f);
    ValueIs(K16.g);
    ValueIs(K16.h);
  }

  lemma Constants16()
    ensures Constants(2, K16)
  {
    hide Num;
    Values16();
  }

  lemma Values24()
    ensures Num(K24.a) == 0x983e5152
    ensures Num(K24.b) == 0xa831c66d
    ensures Num(K24.c) == 0xb00327c8
    ensures Num(K24.d) == 0xbf597fc7
    ensures Num(K24.e) == 0xc6e00bf3
    ensures Num(K24.f) == 0xd5a79147
    ensures Num(K24.g) == 0x06ca6351
    ensures Num(K24.h) == 0x14292967
  {
    hide Num;
    ValueIs(K24.a);
    ValueIs(K24.b);
    ValueIs(K24.c);
    ValueIs(K24.d);
    ValueIs(K24.e);
    ValueIs(K24.f);
    ValueIs(K24.g);
    ValueIs(K24.h);
  }

  lemma Constants24()
    ensures Constants(3, K24)
  {
    hide Num;
    Values24();
  }

  lemma Values32()
    ensures Num(K32.a) == 0x27b70a85
    ensures Num(K32.b) == 0x2e1b2138
    ensures Num(K32.c) == 0x4d2c6dfc
    ensures Num(K32.d) == 0x53380d13
    ensures Num(K32.e) == 0x650a7354
    ensures Num(K32.f) == 0x766a0abb
    ensures Num(K32.g) == 0x81c2c92e
    ensures Num(K32.h) == 0x92722c85
  {
    hide Num;
    ValueIs(K32.a);
    ValueIs(K32.b);
    ValueIs(K32.c);
    ValueIs(K32.d);
    ValueIs(K32.e);
    ValueIs(K32.f);
    ValueIs(K32.g);
    ValueIs(K32.h);
  }

  lemma Constants32()
    ensures Constants(4, K32)
  {
    hide Num;
    Values32();
  }

  lemma Values40()
    ensures Num(K40.a) == 0xa2bfe8a1
    ensures Num(K40.b) == 0xa81a664b
    ensures Num(K40.c) == 0xc24b8b70
    ensures Num(K40.d) == 0xc76c51a3
    ensures Num(K40.e) == 0xd192e819
    ensures Num(K40.f) == 0xd6990624
    ensures Num(K40.g) == 0xf40e3585
    ensures Num(K40.h) == 0x106aa070
  {
    hide Num;
    ValueIs(K40.a);
    ValueIs(K40.b);
    ValueIs(K40.c);
    ValueIs(K40.d);
    ValueIs(K40.e);
    ValueIs(K40.f);
    ValueIs(K40.g);
    ValueIs(K40.h);
  }

  lemma Constants40()
    ensures Constants(5, K40)
  {
    hide Num;
    Values40();
  }

  lemma Values48()
    ensures Num(K48.a) == 0x19a4c116
    ensures Num(K48.b) == 0x1e376c08
    ensures Num(K48.c) == 0x2748774c
    ensures Num(K48.d) == 0x34b0bcb5
    ensures Num(K48.e) == 0x391c0cb3
    ensures Num(K48.f) == 0x4ed8aa4a
    ensures Num(K48.g) == 0x5b9cca4f
    ensures Num(K48.h) == 0x682e6ff3
  {
    hide Num;
    ValueIs(K48.a);
    ValueIs(K48.b);
    ValueIs(K48.c);
    ValueIs(K48.d);
    ValueIs(K48.e);
    ValueIs(K48.f);
    ValueIs(K48.g);
    ValueIs(K48.h);
  }

  lemma Constants48()
    ensures Constants(6, K48)
  {
    hide Num;
    Values48();
  }

  lemma Values56()
    ensures Num(K56.a) == 0x748f82ee
    ensures Num(K56.b) == 0x78a5636f
    ensures Num(K56.c) == 0x84c87814
    ensures Num(K56.d) == 0x8cc70208
    ensures Num(K56.e) == 0x90befffa
    ensures Num(K56.f) == 0xa4506ceb
    ensures Num(K56.g) == 0xbef9a3f7
    ensures Num(K56.h) == 0xc67178f2
  {
    hide Num;
    ValueIs(K56.a);
    ValueIs(K56.b);
    ValueIs(K56.c);
    ValueIs(K56.d);
    ValueIs(K56.e);
    ValueIs(K56.f);
    ValueIs(K56.g);
    ValueIs(K56.h);
  }

  lemma Constants56()
    ensures Constants(7, K56)
  {
    hide Num;
    Values56();
  }

  lemma Rounds0()
    ensures Reached(8, S8)
  {
    hide W, K, Num, Reached, Block;
    Start();
    Words0();
    Constants0();
    Step(0, S0, K0.a, W0.a, S1);
    Step(1, S1, K0.b, W0.b, S2);
    Step(2, S2, K0.c, W0.c, S3);
    Step(3, S3, K0.d, W0.d, S4);
    Step(4, S4, K0.e, W0.e, S5);
    Step(5, S5, K0.f, W0.f, S6);
    Step(6, S6, K0.g, W0.g, S7);
    Step(7, S7, K0.h, W0.h, S8);
  }

  lemma Rounds8()
    ensures Reached(16, S16)
  {
    hide W, K, Num, Reached, Block;
    Rounds0();
    Words8();
    Constants8();
    Step(8, S8, K8.a, W8.a, S9);
    Step(9, S9, K8.b, W8.b, S10);
    Step(10, S10, K8.c, W8.c, S11);
    Step(11, S11, K8.d, W8.d, S12);
    Step(12, S12, K8.e, W8.e, S13);
    Step(13, S13, K8.f, W8.f, S14);
    Step(14, S14, K8.g, W8.g, S15);
    Step(15, S15, K8.h, W8.h, S16);
  }

  lemma Rounds16()
    ensures Reached(24, S24)
  {
    hide W, K, Num, Reached, Block;
    Rounds8();
    Words16();
    Constants16();
    Step(16, S16, K16.a, W16.a, S17);
    Step(17, S17, K16.b, W16.b, S18);
    Step(18, S18, K16.c, W16.c, S19);
    Step(19, S19, K16.d, W16.d, S20);
    Step(20, S20, K16.e, W16.e, S21);
    Step(21, S21, K16.f, W16.f, S22);
    Step(22, S22, K16.g, W16.g, S23);
    Step(23, S23, K16.h, W16.h, S24);
  }

  lemma Rounds24()
    ensures Reached(32, S32)
  {
    hide W, K, Num, Reached, Block;
    Rounds16();
    Words24();
    Constants24();
    Step(24, S24, K24.a, W24.a, S25);
    Step(25, S25, K24.b, W24.b, S26);
    Step(26, S26, K24.c, W24.c, S27);
    Step(27, S27, K24.d, W24.d, S28);
    Step(28, S28, K24.e, W24.e, S29);
    Step(29, S29, K24.f, W24.f, S30);
    Step(30, S30, K24.g, W24.g, S31);
    Step(31, S31, K24.h, W24.h, S32);
  }

  lemma Rounds32()
    ensures Reached(40, S40)
  {
    hide W, K, Num, Reached, Block;
    Rounds24();
    Words32();
    Constants32();
    Step(32, S32, K32.a, W32.a, S33);
    Step(33, S33, K32.b, W32.b, S34);
    Step(34, S34, K32.c, W32.c, S35);
    Step(35, S35, K32.d, W32.d, S36);
    Step(36, S36, K32.e, W32.e, S37);
    Step(37, S37, K32.f, W32.f, S38);
    Step(38, S38, K32.g, W32.g, S39);
    Step(39, S39, K32.h, W32.h, S40);
  }

  lemma Rounds40()
    ensures Reached(48, S48)
  {
    hide W, K, Num, Reached, Block;
    Rounds32();
    Words40();
    Constants40();
    Step(40, S40, K40.a, W40.a, S41);
    Step(41, S41, K40.b, W40.b, S42);
    Step(42, S42, K40.c, W40.c, S43);
    Step(43, S43, K40.d, W40.d, S44);
    Step(44, S44, K40.e, W40.e, S45);
    Step(45, S45, K40.f, W40.f, S46);
    Step(46, S46, K40.g, W40.g, S47);
    Step(47, S47, K40.h, W40.h, S48);
  }

  lemma Rounds48()
    ensures Reached(56, S56)
  {
    hide W, K, Num, Reached, Block;
    Rounds40();
    Words48();
    Constants48();
    Step(48, S48, K48.a, W48.a, S49);
    Step(49, S49, K48.b, W48.b, S50);
    Step(50, S50, K48.c, W48.c, S51);
    Step(51, S51, K48.d, W48.d, S52);
    Step(52, S52, K48.e, W48.e, S53);
    Step(53, S53, K48.f, W48.f, S54);
    Step(54, S54, K48.g, W48.g, S55);
    Step(55, S55, K48.h, W48.h, S56);
  }

  lemma Rounds56()
    ensures Reached(64, S64)
  {
    hide W, K, Num, Reached, Block;
    Rounds48();
    Words56();
    Constants56();
    Step(56, S56, K56.a, W56.a, S57);
    Step(57, S57, K56.b, W56.b, S58);
    Step(58, S58, K56.c, W56.c, S59);
    Step(59, S59, K56.d, W56.d, S60);
    Step(60, S60, K56.e, W56.e, S61);
    Step(61, S61, K56.f, W56.f, S62);
    Step(62, S62, K56.g, W56.g, S63);
    Step(63, S63, K56.h, W56.h, S64);
  }

  lemma InitialValues()
    ensures Num(S0.a) == 0x6a09e667
    ensures Num(S0.b) == 0xbb67ae85
    ensures Num(S0.c) == 0x3c6ef372
    ensures Num(S0.d) == 0xa54ff53a
    ensures Num(S0.e) == 0x510e527f
    ensures Num(S0.f) == 0x9b05688c
    ensures Num(S0.g) == 0x1f83d9ab
    ensures Num(S0.h) == 0x5be0cd19
  {
    hide Num;
    ValueIs(S0.a);
    ValueIs(S0.b);
    ValueIs(S0.c);
    ValueIs(S0.d);
    ValueIs(S0.e);
    ValueIs(S0.f);
    ValueIs(S0.g);
    ValueIs(S0.h);
  }

  lemma Start()
    ensures Reached(0, S0)
  {
    hide Num, Block;
    FirstState();
  }

  lemma BlockBytes()
    ensures Block() == [0x61, 0x62, 0x63, 0x80] + Zeros(59) + [24]
  {
    hide BigEndian, Zeros;
    LengthBytes();
    var z := Zeros(52) + Zeros(7);
    assert z == Zeros(59);
    assert Block() == [0x61, 0x62, 0x63] + [0x80] + Zeros(52) + (Zeros(7) + [24]);
  }

  lemma LengthBytes()
    ensures BigEndian(24, 8) == Zeros(7) + [24]
  {
    assert BigEndian(24, 8) == BigEndian(0, 7) + [24];
    NoBytes(7);
  }

  lemma {:induction false} NoBytes(n: nat)
    ensures BigEndian(0, n) == Zeros(n)
  {
    if n > 0 { NoBytes(n - 1); }
  }

  lemma BlockWords(t: nat)
    requires t < 16
    ensures W(Block(), t) == if t == 0 then 0x61626380 else if t == 15 then 24 else 0
  {
    BlockBytes();
    hide Block;
    var b := [0x61, 0x62, 0x63, 0x80] + Zeros(59) + [24];
    if 0 < t < 15 {
      assert b[4 * t] == b[4 * t + 1] == b[4 * t + 2] == b[4 * t + 3] == 0;
    }
  }

  lemma SmallValues()
    ensures Num(0x61626380) == 0x61626380 && Num(0) == 0 && Num(0x18) == 24
  {
    hide Num;
    ValueIs(0x61626380);
    ValueIs(0);
    ValueIs(0x18);
  }

  lemma Words0()
    ensures Scheduled(0, W0)
  {
    hide Num, W, Block;
    SmallValues();
    BlockWords(0);
    BlockWords(1);
    BlockWords(2);
    BlockWords(3);
    BlockWords(4);
    BlockWords(5);
    BlockWords(6);
    BlockWords(7);
  }

  lemma Words8()
    ensures Scheduled(1, W8)
  {
    hide Num, W, Block;
    SmallValues();
    BlockWords(8);
    BlockWords(9);
    BlockWords(10);
    BlockWords(11);
    BlockWords(12);
    BlockWords(13);
    BlockWords(14);
    BlockWords(15);
  }

  const SUM := Eight(0xba7816bf, 0x8f01cfea, 0x414140de, 0x5dae2223, 0xb00361a3, 0x96177a9c, 0xb410ff61, 0xf20015ad)

  lemma SumValues()
    ensures Num(SUM.a) == 0xba7816bf
    ensures Num(SUM.b) == 0x8f01cfea
    ensures Num(SUM.c) == 0x414140de
    ensures Num(SUM.d) == 0x5dae2223
    ensures Num(SUM.e) == 0xb00361a3
    ensures Num(SUM.f) == 0x96177a9c
    ensures Num(SUM.g) == 0xb410ff61
    ensures Num(SUM.h) == 0xf20015ad
  {
    hide Num;
    ValueIs(SUM.a);
    ValueIs(SUM.b);
    ValueIs(SUM.c);
    ValueIs(SUM.d);
    ValueIs(SUM.e);
    ValueIs(SUM.f);
    ValueIs(SUM.g);
    ValueIs(SUM.h);
  }

  lemma SumIs()
    ensures AddStates(S64.ToState(), S0.ToState()) == SUM.ToState()
  {
    hide Num, Add;
    AddIs(S64.a, S0.a);
    AddIs(S64.b, S0.b);
    AddIs(S64.c, S0.c);
    AddIs(S64.d, S0.d);
    AddIs(S64.e, S0.e);
    AddIs(S64.f, S0.f);
    AddIs(S64.g, S0.g);
    AddIs(S64.h, S0.h);
  }

  lemma OneBlock(m: seq<Byte>)
    requires BlockCount(|m|) == 1
    ensures Digest(m) == Compress(InitialHash(), Pad(m))
  {
    hide Compress, Pad;
    var p := Pad(m);
    assert p[0..64] == p;
    assert Blocks(InitialHash(), p, 1) == Compress(Blocks(InitialHash(), p, 0), p[0..64]);
  }

  lemma FirstState()
    ensures InitialHash() == S0.ToState()
  {
    hide Num;
    InitialValues();
  }

  /** The example of appendix B.1: "abc". */
  lemma DigestOfAbc()
    ensures Digest([0x61, 0x62, 0x63]) == State(0xba7816bf, 0x8f01cfea, 0x414140de, 0x5dae2223, 0xb00361a3, 0x96177a9c, 0xb410ff61, 0xf20015ad)
  {
    hide Num, Rounds, AddStates, Digest, Pad;
    OneBlock([0x61, 0x62, 0x63]);
    FirstState();
    Rounds56();
    SumIs();
    SumValues();
  }
}
