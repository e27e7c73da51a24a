/**
 The digest of "abc", computed by the functions of the model: the value published with FIPS 180-4. Each round is one
 step from the working variables before it.
 */
module DigestVector {
  import opened Common
  import opened Digest
  import HexDigest

  // ---- Rotations as shifts ----

  lemma Rot2(x: Word)
    ensures Rotr(x, 2) == (x >> 2) | (x << 30)
  {
  }

  lemma Rot6(x: Word)
    ensures Rotr(x, 6) == (x >> 6) | (x << 26)
  {
  }

  lemma Rot7(x: Word)
    ensures Rotr(x, 7) == (x >> 7) | (x << 25)
  {
  }

  lemma Rot11(x: Word)
    ensures Rotr(x, 11) == (x >> 11) | (x << 21)
  {
  }

  lemma Rot13(x: Word)
    ensures Rotr(x, 13) == (x >> 13) | (x << 19)
  {
  }

  lemma Rot17(x: Word)
    ensures Rotr(x, 17) == (x >> 17) | (x << 15)
  {
  }

  lemma Rot18(x: Word)
    ensures Rotr(x, 18) == (x >> 18) | (x << 14)
  {
  }

  lemma Rot19(x: Word)
    ensures Rotr(x, 19) == (x >> 19) | (x << 13)
  {
  }

  lemma Rot22(x: Word)
    ensures Rotr(x, 22) == (x >> 22) | (x << 10)
  {
  }

  lemma Rot25(x: Word)
    ensures Rotr(x, 25) == (x >> 25) | (x << 7)
  {
  }

  lemma BigSigma0Is(x: Word)
    ensures BigSigma0(x) == Xor3((x >> 2) | (x << 30), (x >> 13) | (x << 19), (x >> 22) | (x << 10))
  {
    hide Xor3;
    hide Rotr;
    Rot2(x);
    Rot13(x);
    Rot22(x);
  }

  lemma BigSigma1Is(x: Word)
    ensures BigSigma1(x) == Xor3((x >> 6) | (x << 26), (x >> 11) | (x << 21), (x >> 25) | (x << 7))
  {
    hide Xor3;
    hide Rotr;
    Rot6(x);
    Rot11(x);
    Rot25(x);
  }

  lemma SmallSigma0Is(x: Word)
    ensures SmallSigma0(x) == Xor3((x >> 7) | (x << 25), (x >> 18) | (x << 14), x >> 3)
  {
    hide Xor3;
    hide Rotr;
    Rot7(x);
    Rot18(x);
  }

  lemma SmallSigma1Is(x: Word)
    ensures SmallSigma1(x) == Xor3((x >> 17) | (x << 15), (x >> 19) | (x << 13), x >> 10)
  {
    hide Xor3;
    hide Rotr;
    Rot17(x);
    Rot19(x);
  }

  // ---- One step ----

  const ABC: Bytes := [97, 98, 99]

  /** The one block of the padded message. */
  const BLOCK: Bytes := [97, 98, 99, 0x80] + Zeros(59) + [24]

  /** One word of the schedule from four before it. */
  lemma Next(t: nat, w2: Word, w7: Word, w15: Word, w16: Word, s1: Word, s0: Word, w: Word)
    requires |BLOCK| == BLOCK_BYTES && t >= 16
    requires ScheduleWord(BLOCK, t - 2) == w2 && ScheduleWord(BLOCK, t - 7) == w7
    requires ScheduleWord(BLOCK, t - 15) == w15 && ScheduleWord(BLOCK, t - 16) == w16
    requires s1 == Xor3((w2 >> 17) | (w2 << 15), (w2 >> 19) | (w2 << 13), w2 >> 10)
    requires s0 == Xor3((w15 >> 7) | (w15 << 25), (w15 >> 18) | (w15 << 14), w15 >> 3)
    requires w == Sum4(s1, w7, s0, w16)
    ensures ScheduleWord(BLOCK, t) == w
  {
    SmallSigma1Is(w2);
    SmallSigma0Is(w15);
    hide SmallSigma0;
    hide SmallSigma1;
    hide Xor3;
    hide Sum4;
    hide BlockWord;
  }

  /** One round. */
  lemma Turn(n: nat, v: Working, k: Word, w: Word, s1: Word, ch: Word, t1: Word, s0: Word, mj: Word, a: Word, e: Word)
    requires |BLOCK| == BLOCK_BYTES && n < 64 && ScheduleWord(BLOCK, n) == w && RoundConstant(n) == k
    requires Rounds(Load(INITIAL), BLOCK, n) == v
    requires s1 == Xor3((v.e >> 6) | (v.e << 26), (v.e >> 11) | (v.e << 21), (v.e >> 25) | (v.e << 7))
    requires s0 == Xor3((v.a >> 2) | (v.a << 30), (v.a >> 13) | (v.a << 19), (v.a >> 22) | (v.a << 10))
    requires ch == Ch(v.e, v.f, v.g) && mj == Maj(v.a, v.b, v.c)
    requires t1 == Add(Add(Add(Add(v.h, s1), ch), k), w) && a == Add(t1, Add(s0, mj)) && e == Add(v.d, t1)
    ensures Rounds(Load(INITIAL), BLOCK, n + 1) == Working(a, v.a, v.b, v.c, e, v.e, v.f, v.g)
  {
    BigSigma1Is(v.e);
    BigSigma0Is(v.a);
    hide ScheduleWord;
    hide Load;
    hide BigSigma0;
    hide BigSigma1;
    hide Xor3;
    hide Ch;
    hide Maj;
    hide Add;
    hide RoundConstant;
  }

  // ---- The schedule ----

  /** Eight words of the schedule. */
  ghost predicate Row(t: nat, words: seq<Word>) {
    && |BLOCK| == BLOCK_BYTES && |words| == 8
    && ScheduleWord(BLOCK, t) == words[0] && ScheduleWord(BLOCK, t + 1) == words[1]
    && ScheduleWord(BLOCK, t + 2) == words[2] && ScheduleWord(BLOCK, t + 3) == words[3]
    && ScheduleWord(BLOCK, t + 4) == words[4] && ScheduleWord(BLOCK, t + 5) == words[5]
    && ScheduleWord(BLOCK, t + 6) == words[6] && ScheduleWord(BLOCK, t + 7) == words[7]
  }

  lemma BlockBytes()
    ensures |BLOCK| == BLOCK_BYTES && BLOCK[0] == 97 && BLOCK[1] == 98 && BLOCK[2] == 99 && BLOCK[3] == 0x80 &&
            BLOCK[63] == 24
    ensures forall i :: 4 <= i < 63 ==> BLOCK[i] == 0
  {
  }

  lemma FourBytes(b: Bytes)
    requires |b| == 4
    ensures FromBigEndian(b) ==
            0x1000000 * (b[0] as int) + 0x10000 * (b[1] as int) + 0x100 * (b[2] as int) + b[3] as int
  {
    assert b[..3][..2] == b[..2] && b[..2][..1] == b[..1] && b[..1][..0] == [];
    assert FromBigEndian(b[..1]) == b[0];
    assert FromBigEndian(b[..2]) == 0x100 * (b[0] as int) + b[1] as int;
    assert FromBigEndian(b[..3]) == 0x10000 * (b[0] as int) + 0x100 * (b[1] as int) + b[2] as int;
  }

  lemma FirstWord(t: nat, w: Word)
    requires t < 16 && w as int == if t == 0 then 0x61626380 else if t == 15 then 24 else 0
    ensures |BLOCK| == BLOCK_BYTES && ScheduleWord(BLOCK, t) == w
  {
    BlockBytes();
    FourBytes(BLOCK[4 * t..4 * t + 4]);
    hide FromBigEndian;
  }

  lemma Words0()
    ensures Row(0, [0x61626380, 0x00000000, 0x00000000, 0x00000000, 0x00000000, 0x00000000, 0x00000000, 0x00000000])
  {
    hide ScheduleWord;
    FirstWord(0, 0x61626380);
    FirstWord(1, 0x00000000);
    FirstWord(2, 0x00000000);
    FirstWord(3, 0x00000000);
    FirstWord(4, 0x00000000);
    FirstWord(5, 0x00000000);
    FirstWord(6, 0x00000000);
    FirstWord(7, 0x00000000);
  }

  lemma Words8()
    ensures Row(8, [0x00000000, 0x00000000, 0x00000000, 0x00000000, 0x00000000, 0x00000000, 0x00000000, 0x00000018])
  {
    hide ScheduleWord;
    FirstWord(8, 0x00000000);
    FirstWord(9, 0x00000000);
    FirstWord(10, 0x00000000);
    FirstWord(11, 0x00000000);
    FirstWord(12, 0x00000000);
    FirstWord(13, 0x00000000);
    FirstWord(14, 0x00000000);
    FirstWord(15, 0x00000018);
  }

  lemma Words16()
    requires Row(0, [0x61626380, 0x00000000, 0x00000000, 0x00000000, 0x00000000, 0x00000000, 0x00000000, 0x00000000])
    requires Row(8, [0x00000000, 0x00000000, 0x00000000, 0x00000000, 0x00000000, 0x00000000, 0x00000000, 0x00000018])
    ensures Row(16, [0x61626380, 0x000f0000, 0x7da86405, 0x600003c6, 0x3e9d7b78, 0x0183fc00, 0x12dcbfdb, 0xe2e2c38e])
  {
    hide ScheduleWord;
    Next(16, 0x00000000, 0x00000000, 0x00000000, 0x61626380, 0x00000000, 0x00000000, 0x61626380);
    Next(17, 0x00000018, 0x00000000, 0x00000000, 0x00000000, 0x000f0000, 0x00000000, 0x000f0000);
    Next(18, 0x61626380, 0x00000000, 0x00000000, 0x00000000, 0x7da86405, 0x00000000, 0x7da86405);
    Next(19, 0x000f0000, 0x00000000, 0x00000000, 0x00000000, 0x600003c6, 0x00000000, 0x600003c6);
    Next(20, 0x7da86405, 0x00000000, 0x00000000, 0x00000000, 0x3e9d7b78, 0x00000000, 0x3e9d7b78);
    Next(21, 0x600003c6, 0x00000000, 0x00000000, 0x00000000, 0x0183fc00, 0x00000000, 0x0183fc00);
    Next(22, 0x3e9d7b78, 0x00000018, 0x00000000, 0x00000000, 0x12dcbfc3, 0x00000000, 0x12dcbfdb);
    Next(23, 0x0183fc00, 0x61626380, 0x00000000, 0x00000000, 0x8180600e, 0x00000000, 0xe2e2c38e);
  }

  lemma Words24()
    requires Row(8, [0x00000000, 0x00000000, 0x00000000, 0x00000000, 0x00000000, 0x00000000, 0x00000000, 0x00000018])
    requires Row(16, [0x61626380, 0x000f0000, 0x7da86405, 0x600003c6, 0x3e9d7b78, 0x0183fc00, 0x12dcbfdb, 0xe2e2c38e])
    ensures Row(24, [0xc8215c1a, 0xb73679a2, 0xe5bc3909, 0x32663c5b, 0x9d209d67, 0xec8726cb, 0x702138a4, 0xd3b7973b])
  {
    hide ScheduleWord;
    Next(24, 0x12dcbfdb, 0x000f0000, 0x00000000, 0x00000000, 0xc8125c1a, 0x00000000, 0xc8215c1a);
    Next(25, 0xe2e2c38e, 0x7da86405, 0x00000000, 0x00000000, 0x398e159d, 0x00000000, 0xb73679a2);
    Next(26, 0xc8215c1a, 0x600003c6, 0x00000000, 0x00000000, 0x85bc3543, 0x00000000, 0xe5bc3909);
    Next(27, 0xb73679a2, 0x3e9d7b78, 0x00000000, 0x00000000, 0xf3c8c0e3, 0x00000000, 0x32663c5b);
    Next(28, 0xe5bc3909, 0x0183fc00, 0x00000000, 0x00000000, 0x9b9ca167, 0x00000000, 0x9d209d67);
    Next(29, 0x32663c5b, 0x12dcbfdb, 0x00000000, 0x00000000, 0xd9aa66f0, 0x00000000, 0xec8726cb);
    Next(30, 0x9d209d67, 0xe2e2c38e, 0x00000018, 0x00000000, 0x5d387513, 0x30060003, 0x702138a4);
    Next(31, 0xec8726cb, 0xc8215c1a, 0x61626380, 0x00000018, 0x7787aa1a, 0x940e90ef, 0xd3b7973b);
  }

  lemma Words32()
    requires Row(16, [0x61626380, 0x000f0000, 0x7da86405, 0x600003c6, 0x3e9d7b78, 0x0183fc00, 0x12dcbfdb, 0xe2e2c38e])
    requires Row(24, [0xc8215c1a, 0xb73679a2, 0xe5bc3909, 0x32663c5b, 0x9d209d67, 0xec8726cb, 0x702138a4, 0xd3b7973b])
    ensures Row(32, [0x93f5997f, 0x3b68ba73, 0xaff4ffc1, 0xf10a5c62, 0x0a8b3996, 0x72af830a, 0x9409e33e, 0x24641522])
  {
    hide ScheduleWord;
    Next(32, 0x702138a4, 0xb73679a2, 0x000f0000, 0x61626380, 0xbb5abe5a, 0xc001fe03, 0x93f5997f);
    Next(33, 0xd3b7973b, 0xe5bc3909, 0x7da86405, 0x000f0000, 0x394e7e48, 0x1c4f0322, 0x3b68ba73);
    Next(34, 0x93f5997f, 0x32663c5b, 0x600003c6, 0x7da86405, 0x7fb4c6e2, 0x8031987f, 0xaff4ffc1);
    Next(35, 0x3b68ba73, 0x9d209d67, 0x3e9d7b78, 0x600003c6, 0x4a7920f7, 0xa9709a3e, 0xf10a5c62);
    Next(36, 0xaff4ffc1, 0xec8726cb, 0x0183fc00, 0x3e9d7b78, 0xe0331f3b, 0xff337818, 0x0a8b3996);
    Next(37, 0xf10a5c62, 0x702138a4, 0x12dcbfdb, 0x0183fc00, 0x65816433, 0x9b88ea33, 0x72af830a);
    Next(38, 0x0a8b3996, 0xd3b7973b, 0xe2e2c38e, 0x12dcbfdb, 0xfbfb66da, 0xb17a254e, 0x9409e33e);
    Next(39, 0x72af830a, 0x93f5997f, 0xc8215c1a, 0xe2e2c38e, 0x31f8dce2, 0x7b92db33, 0x24641522);
  }

  lemma Words40()
    requires Row(24, [0xc8215c1a, 0xb73679a2, 0xe5bc3909, 0x32663c5b, 0x9d209d67, 0xec8726cb, 0x702138a4, 0xd3b7973b])
    requires Row(32, [0x93f5997f, 0x3b68ba73, 0xaff4ffc1, 0xf10a5c62, 0x0a8b3996, 0x72af830a, 0x9409e33e, 0x24641522])
    ensures Row(40, [0x9f47bf94, 0xf0a64f5a, 0x3e246a79, 0x27333ba3, 0x0c4763f2, 0x840abf27, 0x7a290d5d, 0x065c43da])
  {
    hide ScheduleWord;
    Next(40, 0x9409e33e, 0x3b68ba73, 0xb73679a2, 0xc8215c1a, 0xcddd9afd, 0xcde00e0a, 0x9f47bf94);
    Next(41, 0x24641522, 0xaff4ffc1, 0xe5bc3909, 0xb73679a2, 0x883c4fbb, 0x013e863c, 0xf0a64f5a);
    Next(42, 0x9f47bf94, 0xf10a5c62, 0x32663c5b, 0xe5bc3909, 0x281f0da4, 0x3f3ec76a, 0x3e246a79);
    Next(43, 0xf0a64f5a, 0x0a8b3996, 0x9d209d67, 0x32663c5b, 0xee7a0fd4, 0xfbc7b5de, 0x27333ba3);
    Next(44, 0x3e246a79, 0x72af830a, 0xec8726cb, 0x9d209d67, 0xb87c31cc, 0x43fb11b5, 0x0c4763f2);
    Next(45, 0x27333ba3, 0x9409e33e, 0x702138a4, 0xec8726cb, 0xfaac3bb1, 0x08cd796d, 0x840abf27);
    Next(46, 0x0c4763f2, 0x24641522, 0xd3b7973b, 0x702138a4, 0x5d845673, 0x881f6924, 0x7a290d5d);
    Next(47, 0x840abf27, 0x9f47bf94, 0x93f5997f, 0xd3b7973b, 0x0856302b, 0x8b06bce0, 0x065c43da);
  }

  lemma Words48()
    requires Row(32, [0x93f5997f, 0x3b68ba73, 0xaff4ffc1, 0xf10a5c62, 0x0a8b3996, 0x72af830a, 0x9409e33e, 0x24641522])
    requires Row(40, [0x9f47bf94, 0xf0a64f5a, 0x3e246a79, 0x27333ba3, 0x0c4763f2, 0x840abf27, 0x7a290d5d, 0x065c43da])
    ensures Row(48, [0xfb3e89cb, 0xcc7617db, 0xb9e66c34, 0xa9993667, 0x84badedd, 0xc21462bc, 0x1487472c, 0xb20f7a99])
  {
    hide ScheduleWord;
    Next(48, 0x7a290d5d, 0xf0a64f5a, 0x3b68ba73, 0x93f5997f, 0xa71b9812, 0xcf8708e0, 0xfb3e89cb);
    Next(49, 0x065c43da, 0x3e246a79, 0xaff4ffc1, 0x3b68ba73, 0xa997d4f5, 0xa9511dfa, 0xcc7617db);
    Next(50, 0xfb3e89cb, 0x27333ba3, 0xf10a5c62, 0xaff4ffc1, 0x95e24d5a, 0x4cdbe376, 0xb9e66c34);
    Next(51, 0xcc7617db, 0x0c4763f2, 0x0a8b3996, 0xf10a5c62, 0xc9258230, 0xe321f3e3, 0xa9993667);
    Next(52, 0xb9e66c34, 0x840abf27, 0x72af830a, 0x0a8b3996, 0xfbb2b254, 0xfa7233cc, 0x84badedd);
    Next(53, 0xa9993667, 0x7a290d5d, 0x9409e33e, 0x72af830a, 0xbdd547b2, 0x17668aa3, 0xc21462bc);
    Next(54, 0x84badedd, 0x065c43da, 0x24641522, 0x9409e33e, 0x34945c7d, 0x458cc397, 0x1487472c);
    Next(55, 0xc21462bc, 0xfb3e89cb, 0x9f47bf94, 0x24641522, 0xbd397c50, 0xd5335f5c, 0xb20f7a99);
  }

  lemma Words56()
    requires Row(40, [0x9f47bf94, 0xf0a64f5a, 0x3e246a79, 0x27333ba3, 0x0c4763f2, 0x840abf27, 0x7a290d5d, 0x065c43da])
    requires Row(48, [0xfb3e89cb, 0xcc7617db, 0xb9e66c34, 0xa9993667, 0x84badedd, 0xc21462bc, 0x1487472c, 0xb20f7a99])
    ensures Row(56, [0xef57b9cd, 0xebe6b238, 0x9fe3095e, 0x78bc8d4b, 0xa43fcf15, 0x668b2ff8, 0xeeaba2cc, 0x12b1edeb])
  {
    hide ScheduleWord;
    Next(56, 0x1487472c, 0xcc7617db, 0xf0a64f5a, 0x9f47bf94, 0x4b76a902, 0x3823395c, 0xef57b9cd);
    Next(57, 0xb20f7a99, 0xb9e66c34, 0x3e246a79, 0xf0a64f5a, 0x52336c98, 0xef268a12, 0xebe6b238);
    Next(58, 0xef57b9cd, 0xa9993667, 0x27333ba3, 0x3e246a79, 0x2be49faf, 0x8c40c8cf, 0x9fe3095e);
    Next(59, 0xebe6b238, 0x84badedd, 0x0c4763f2, 0x27333ba3, 0x8f619123, 0x3d6ce1a8, 0x78bc8d4b);
    Next(60, 0x9fe3095e, 0xc21462bc, 0x840abf27, 0x0c4763f2, 0xe5a364cf, 0xf040a398, 0xa43fcf15);
    Next(61, 0x78bc8d4b, 0x1487472c, 0x7a290d5d, 0x840abf27, 0xd712fc6a, 0xf6e62d3b, 0x668b2ff8);
    Next(62, 0xa43fcf15, 0xb20f7a99, 0x065c43da, 0x7a290d5d, 0x1e41696b, 0xa431b16b, 0xeeaba2cc);
    Next(63, 0x668b2ff8, 0xef57b9cd, 0xfb3e89cb, 0x065c43da, 0xf21a9d5f, 0x2ae352e5, 0x12b1edeb);
  }

  // ---- The rounds ----

  lemma Turns0()
    requires Row(0, [0x61626380, 0x00000000, 0x00000000, 0x00000000, 0x00000000, 0x00000000, 0x00000000, 0x00000000])
    requires Rounds(Load(INITIAL), BLOCK, 0) ==
             Working(0x6a09e667, 0xbb67ae85, 0x3c6ef372, 0xa54ff53a, 0x510e527f, 0x9b05688c, 0x1f83d9ab, 0x5be0cd19)
    ensures Rounds(Load(INITIAL), BLOCK, 4) ==
            Working(0xd550f666, 0xc8c347a7, 0x5a6ad9ad, 0x5d6aebcd, 0x24e00850, 0xf92939eb, 0x78ce7989, 0xfa2a4622)
  {
    hide ScheduleWord;
    hide Rounds;
    hide Load;
    Turn(0, Working(0x6a09e667, 0xbb67ae85, 0x3c6ef372, 0xa54ff53a, 0x510e527f, 0x9b05688c, 0x1f83d9ab, 0x5be0cd19),
         0x428a2f98, 0x61626380, 0x3587272b, 0x1f85c98c, 0x54da50e8, 0xce20b47e, 0x3a6fe667, 0x5d6aebcd, 0xfa2a4622);
    Turn(1, Working(0x5d6aebcd, 0x6a09e667, 0xbb67ae85, 0x3c6ef372, 0xfa2a4622, 0x510e527f, 0x9b05688c, 0x1f83d9ab),
         0x71374491, 0x00000000, 0x5a94fd2d, 0x510f6aae, 0x3c5f8617, 0xa29f64d1, 0x7b6beec5, 0x5a6ad9ad, 0x78ce7989);
    Turn(2, Working(0x5a6ad9ad, 0x5d6aebcd, 0x6a09e667, 0xbb67ae85, 0x78ce7989, 0xfa2a4622, 0x510e527f, 0x9b05688c),
         0xb5c0fbcf, 0x00000000, 0x73f0e495, 0x790a4276, 0x3dc18b66, 0x3096d054, 0x5a6aebed, 0xc8c347a7, 0xf92939eb);
    Turn(3, Working(0xc8c347a7, 0x5a6ad9ad, 0x5d6aebcd, 0x6a09e667, 0xf92939eb, 0x78ce7989, 0xfa2a4622, 0x510e527f),
         0xe9b5dba5, 0x00000000, 0x0607743c, 0x7a0a7f89, 0xbad621e9, 0xc21008d0, 0x586acbad, 0xd550f666, 0x24e00850);
  }

  lemma Turns4()
    requires Row(0, [0x61626380, 0x00000000, 0x00000000, 0x00000000, 0x00000000, 0x00000000, 0x00000000, 0x00000000])
    requires Rounds(Load(INITIAL), BLOCK, 4) ==
             Working(0xd550f666, 0xc8c347a7, 0x5a6ad9ad, 0x5d6aebcd, 0x24e00850, 0xf92939eb, 0x78ce7989, 0xfa2a4622)
    ensures Rounds(Load(INITIAL), BLOCK, 8) ==
            Working(0x85a07b5f, 0xe5030380, 0x2b4209f5, 0x04409a6a, 0x0c657a79, 0x9b27a401, 0x714260ad, 0x43ada245)
  {
    hide ScheduleWord;
    hide Rounds;
    hide Load;
    Turn(4, Working(0xd550f666, 0xc8c347a7, 0x5a6ad9ad, 0x5d6aebcd, 0x24e00850, 0xf92939eb, 0x78ce7989, 0xfa2a4622),
         0x3956c25b, 0x00000000, 0x3a933432, 0x782e79c9, 0xe642b678, 0x45bb0c4b, 0xd842d7a7, 0x04409a6a, 0x43ada245);
    Turn(5, Working(0x04409a6a, 0xd550f666, 0xc8c347a7, 0x5a6ad9ad, 0x43ada245, 0x24e00850, 0xf92939eb, 0x78ce7989),
         0x59f111f1, 0x00000000, 0x8b77e19c, 0xb8a019ea, 0x16d78700, 0x5029ac8f, 0xc440d666, 0x2b4209f5, 0x714260ad);
    Turn(6, Working(0x2b4209f5, 0x04409a6a, 0xd550f666, 0xc8c347a7, 0x714260ad, 0x43ada245, 0x24e00850, 0xf92939eb),
         0x923f82a4, 0x00000000, 0x015b7776, 0x45a02855, 0xd2645c5a, 0x0d5e0cc0, 0x05409a66, 0xe5030380, 0x9b27a401);
    Turn(7, Working(0xe5030380, 0x2b4209f5, 0x04409a6a, 0xd550f666, 0x9b27a401, 0x714260ad, 0x43ada245, 0x24e00850),
         0xab1c5ed5, 0x00000000, 0x158dfaa9, 0x518a2245, 0x37148413, 0x2949eb6c, 0x25420be0, 0x85a07b5f, 0x0c657a79);
  }

  lemma Turns8()
    requires Row(8, [0x00000000, 0x00000000, 0x00000000, 0x00000000, 0x00000000, 0x00000000, 0x00000000, 0x00000018])
    requires Rounds(Load(INITIAL), BLOCK, 8) ==
             Working(0x85a07b5f, 0xe5030380, 0x2b4209f5, 0x04409a6a, 0x0c657a79, 0x9b27a401, 0x714260ad, 0x43ada245)
    ensures Rounds(Load(INITIAL), BLOCK, 12) ==
            Working(0xf71fc5a9, 0x4798a3f4, 0x8c87346b, 0x8e04ecb9, 0x816fd6e9, 0x436b23e8, 0x1cc92596, 0x32ca2d8c)
  {
    hide ScheduleWord;
    hide Rounds;
    hide Load;
    Turn(8, Working(0x85a07b5f, 0xe5030380, 0x2b4209f5, 0x04409a6a, 0x0c657a79, 0x9b27a401, 0x714260ad, 0x43ada245),
         0xd807aa98, 0x00000000, 0x99ad25c0, 0x79272085, 0x2e899322, 0xba794dc2, 0xa5020bd5, 0x8e04ecb9, 0x32ca2d8c);
    Turn(9, Working(0x8e04ecb9, 0x85a07b5f, 0xe5030380, 0x2b4209f5, 0x32ca2d8c, 0x0c657a79, 0x9b27a401, 0x714260ad),
         0x12835b01, 0x00000000, 0xe45bb7ea, 0x8965a809, 0xf1871ba1, 0x15ffad31, 0x85006b99, 0x8c87346b, 0x1cc92596);
    Turn(10, Working(0x8c87346b, 0x8e04ecb9, 0x85a07b5f, 0xe5030380, 0x1cc92596, 0x32ca2d8c, 0x0c657a79, 0x9b27a401),
         0x243185be, 0x00000000, 0x8e2276bc, 0x10ec7fed, 0x5e682068, 0x5cac0711, 0x8c847c7b, 0x4798a3f4, 0x436b23e8);
    Turn(11, Working(0x4798a3f4, 0x8c87346b, 0x8e04ecb9, 0x85a07b5f, 0x436b23e8, 0x1cc92596, 0x32ca2d8c, 0x0c657a79),
         0x550c7dc3, 0x00000000, 0x699435ca, 0x30c92d84, 0xfbcf5b8a, 0x6ccbc526, 0x8e84a4f9, 0xf71fc5a9, 0x816fd6e9);
  }

  lemma Turns12()
    requires Row(8, [0x00000000, 0x00000000, 0x00000000, 0x00000000, 0x00000000, 0x00000000, 0x00000000, 0x00000018])
    requires Rounds(Load(INITIAL), BLOCK, 12) ==
             Working(0xf71fc5a9, 0x4798a3f4, 0x8c87346b, 0x8e04ecb9, 0x816fd6e9, 0x436b23e8, 0x1cc92596, 0x32ca2d8c)
    ensures Rounds(Load(INITIAL), BLOCK, 16) ==
            Working(0xb0fa238e, 0xc0645fde, 0xd932eb16, 0x87912990, 0x07590dcd, 0x0b92f20c, 0x745a48de, 0x1e578218)
  {
    hide ScheduleWord;
    hide Rounds;
    hide Load;
    Turn(12, Working(0xf71fc5a9, 0x4798a3f4, 0x8c87346b, 0x8e04ecb9, 0x816fd6e9, 0x436b23e8, 0x1cc92596, 0x32ca2d8c),
         0x72be5d74, 0x00000000, 0xccdee661, 0x1deb23fe, 0x9052955f, 0x2f9eee48, 0xc79fa5e9, 0x87912990, 0x1e578218);
    Turn(13, Working(0x87912990, 0xf71fc5a9, 0x4798a3f4, 0x8c87346b, 0x1e578218, 0x816fd6e9, 0x436b23e8, 0x1cc92596),
         0x80deb1fe, 0x00000000, 0x08bb98f7, 0x416fa3e8, 0xe7d31473, 0x29c634f3, 0xc799a1b0, 0xd932eb16, 0x745a48de);
    Turn(14, Working(0xd932eb16, 0x87912990, 0xf71fc5a9, 0x4798a3f4, 0x745a48de, 0x1e578218, 0x816fd6e9, 0x436b23e8),
         0x9bdc06a7, 0x00000000, 0x4f3b8d50, 0x95779639, 0xc3fa4e18, 0x25562836, 0xd713e990, 0xc0645fde, 0x0b92f20c);
    Turn(15, Working(0xc0645fde, 0xd932eb16, 0x87912990, 0xf71fc5a9, 0x0b92f20c, 0x745a48de, 0x1e578218, 0x816fd6e9),
         0xc19bf174, 0x00000018, 0xb8d63f93, 0x1457401c, 0x10394824, 0xdf906fd4, 0xc1306b96, 0xb0fa238e, 0x07590dcd);
  }

  lemma Turns16()
    requires Row(16, [0x61626380, 0x000f0000, 0x7da86405, 0x600003c6, 0x3e9d7b78, 0x0183fc00, 0x12dcbfdb, 0xe2e2c38e])
    requires Rounds(Load(INITIAL), BLOCK, 16) ==
             Working(0xb0fa238e, 0xc0645fde, 0xd932eb16, 0x87912990, 0x07590dcd, 0x0b92f20c, 0x745a48de, 0x1e578218)
    ensures Rounds(Load(INITIAL), BLOCK, 20) ==
            Working(0xe1f20c33, 0xfe777bbf, 0xc2fbd9d1, 0x21da9a9b, 0xb0638179, 0xcc899961, 0x846ee454, 0x8034229c)
  {
    hide ScheduleWord;
    hide Rounds;
    hide Load;
    Turn(16, Working(0xb0fa238e, 0xc0645fde, 0xd932eb16, 0x87912990, 0x07590dcd, 0x0b92f20c, 0x745a48de, 0x1e578218),
         0xe49b69c1, 0x61626380, 0x213b6995, 0x7312401e, 0xf8a2f90c, 0x58c535f1, 0xd0726b9e, 0x21da9a9b, 0x8034229c);
    Turn(17, Working(0x21da9a9b, 0xb0fa238e, 0xc0645fde, 0xd932eb16, 0x8034229c, 0x07590dcd, 0x0b92f20c, 0x745a48de),
         0xefbe4786, 0x000f0000, 0x3b81984e, 0x0b92d08c, 0xab3bf93e, 0x76c5c4f5, 0xa0fa1b9e, 0xc2fbd9d1, 0x846ee454);
    Turn(18, Working(0xc2fbd9d1, 0x21da9a9b, 0xb0fa238e, 0xc0645fde, 0x846ee454, 0x8034229c, 0x07590dcd, 0x0b92f20c),
         0x0fc19dc6, 0x7da86405, 0xeff31c0f, 0x8335299d, 0x0c253983, 0x5157a6a1, 0xa0fa9b9b, 0xfe777bbf, 0xcc899961);
    Turn(19, Working(0xfe777bbf, 0xc2fbd9d1, 0x21da9a9b, 0xb0fa238e, 0xcc899961, 0x846ee454, 0x8034229c, 0x07590dcd),
         0x240ca1cc, 0x600003c6, 0xefc707b0, 0x843ca2dc, 0xff695deb, 0xff8cd2ad, 0xe2fbdb9b, 0xe1f20c33, 0xb0638179);
  }

  lemma Turns20()
    requires Row(16, [0x61626380, 0x000f0000, 0x7da86405, 0x600003c6, 0x3e9d7b78, 0x0183fc00, 0x12dcbfdb, 0xe2e2c38e])
    requires Rounds(Load(INITIAL), BLOCK, 20) ==
             Working(0xe1f20c33, 0xfe777bbf, 0xc2fbd9d1, 0x21da9a9b, 0xb0638179, 0xcc899961, 0x846ee454, 0x8034229c)
    ensures Rounds(Load(INITIAL), BLOCK, 24) ==
            Working(0xc5d53d8d, 0xa7a3623f, 0xc2606d6d, 0x9dc68b63, 0xaa47c347, 0x49f5114a, 0xe1257970, 0x8ada8930)
  {
    hide ScheduleWord;
    hide Rounds;
    hide Load;
    Turn(20, Working(0xe1f20c33, 0xfe777bbf, 0xc2fbd9d1, 0x21da9a9b, 0xb0638179, 0xcc899961, 0x846ee454, 0x8034229c),
         0x2de92c6f, 0x3e9d7b78, 0xf8373ead, 0x840de565, 0x68ffee95, 0x51d3431b, 0xe2f359b3, 0x9dc68b63, 0x8ada8930);
    Turn(21, Working(0x9dc68b63, 0xe1f20c33, 0xfe777bbf, 0xc2fbd9d1, 0x8ada8930, 0xb0638179, 0xcc899961, 0x846ee454),
         0x4a7484aa, 0x0183fc00, 0x897ea930, 0xc4439171, 0x1e299f9f, 0xa640c29b, 0xfdf60b33, 0xc2606d6d, 0xe1257970);
    Turn(22, Working(0xc2606d6d, 0x9dc68b63, 0xe1f20c33, 0xfe777bbf, 0xe1257970, 0x8ada8930, 0xb0638179, 0xcc899961),
         0x5cb0a9dc, 0x12dcbfdb, 0x7f24093a, 0x90428939, 0x4b7d958b, 0x9a43bf51, 0xc1e20d63, 0xa7a3623f, 0x49f5114a);
    Turn(23, Working(0xa7a3623f, 0xc2606d6d, 0x9dc68b63, 0xe1f20c33, 0x49f5114a, 0xe1257970, 0x8ada8930, 0xb0638179),
         0x76f988da, 0xe2e2c38e, 0xfae64fc3, 0xc32f9970, 0xc855b714, 0x759d1b0a, 0x87e26b6f, 0xc5d53d8d, 0xaa47c347);
  }

  lemma Turns24()
    requires Row(24, [0xc8215c1a, 0xb73679a2, 0xe5bc3909, 0x32663c5b, 0x9d209d67, 0xec8726cb, 0x702138a4, 0xd3b7973b])
    requires Rounds(Load(INITIAL), BLOCK, 24) ==
             Working(0xc5d53d8d, 0xa7a3623f, 0xc2606d6d, 0x9dc68b63, 0xaa47c347, 0x49f5114a, 0xe1257970, 0x8ada8930)
    ensures Rounds(Load(INITIAL), BLOCK, 28) ==
            Working(0x77d37528, 0xb62ec4bc, 0xcde8037d, 0x1c2c2838, 0xedffbff8, 0xc74c6516, 0x14383d8e, 0x2823ef91)
  {
    hide ScheduleWord;
    hide Rounds;
    hide Load;
    Turn(24, Working(0xc5d53d8d, 0xa7a3623f, 0xc2606d6d, 0x9dc68b63, 0xaa47c347, 0x49f5114a, 0xe1257970, 0x8ada8930),
         0x983e5152, 0xc8215c1a, 0x55bdf420, 0x49653972, 0x8a5d642e, 0xc9ed56dd, 0xc7e16d2d, 0x1c2c2838, 0x2823ef91);
    Turn(25, Working(0x1c2c2838, 0xc5d53d8d, 0xa7a3623f, 0xc2606d6d, 0x2823ef91, 0xaa47c347, 0x49f5114a, 0xe1257970),
         0xa831c66d, 0xb73679a2, 0xa7724357, 0x69d7d34b, 0x51d7d021, 0xf66b0b1f, 0x85a5283d, 0xcde8037d, 0x14383d8e);
    Turn(26, Working(0xcde8037d, 0x1c2c2838, 0xc5d53d8d, 0xa7a3623f, 0x14383d8e, 0x2823ef91, 0xaa47c347, 0x49f5114a),
         0xb00327c8, 0xe5bc3909, 0x958ca0fb, 0xaa67efc1, 0x1fa902d7, 0xc89998a8, 0xcdec293d, 0xb62ec4bc, 0xc74c6516);
    Turn(27, Working(0xb62ec4bc, 0xcde8037d, 0x1c2c2838, 0xc5d53d8d, 0xc74c6516, 0x14383d8e, 0x2823ef91, 0xaa47c347),
         0xbf597fc7, 0x32663c5b, 0x5ff7537b, 0x2c2baf87, 0x282a826b, 0xb37cf281, 0x9c2c003c, 0x77d37528, 0xedffbff8);
  }

  lemma Turns28()
    requires Row(24, [0xc8215c1a, 0xb73679a2, 0xe5bc3909, 0x32663c5b, 0x9d209d67, 0xec8726cb, 0x702138a4, 0xd3b7973b])
    requires Rounds(Load(INITIAL), BLOCK, 28) ==
             Working(0x77d37528, 0xb62ec4bc, 0xcde8037d, 0x1c2c2838, 0xedffbff8, 0xc74c6516, 0x14383d8e, 0x2823ef91)
    ensures Rounds(Load(INITIAL), BLOCK, 32) ==
            Working(0x73b33bf5, 0xea992a22, 0xa0060b30, 0x363482c9, 0xba591112, 0x0109ab3a, 0xade79437, 0x6112a3b7)
  {
    hide ScheduleWord;
    hide Rounds;
    hide Load;
    Turn(28, Working(0x77d37528, 0xb62ec4bc, 0xcde8037d, 0x1c2c2838, 0xedffbff8, 0xc74c6516, 0x14383d8e, 0x2823ef91),
         0xc6e00bf3, 0x9d209d67, 0xe375bd7e, 0xd54c2516, 0x44e67b7f, 0xf963c20e, 0xf7ea453c, 0x363482c9, 0x6112a3b7);
    Turn(29, Working(0x363482c9, 0x77d37528, 0xb62ec4bc, 0xcde8037d, 0x6112a3b7, 0xedffbff8, 0xc74c6516, 0x14383d8e),
         0xd5a79147, 0xec8726cb, 0x2239b36a, 0xe75ee7b0, 0xdfff90ba, 0x89cfb5ce, 0x3636c4a8, 0xa0060b30, 0xade79437);
    Turn(30, Working(0xa0060b30, 0x363482c9, 0x77d37528, 0xb62ec4bc, 0xade79437, 0x6112a3b7, 0xedffbff8, 0xc74c6516),
         0x06ca6351, 0x702138a4, 0xab883974, 0x611aabff, 0x4adae67e, 0x69a8407c, 0x36160328, 0xea992a22, 0x0109ab3a);
    Turn(31, Working(0xea992a22, 0xa0060b30, 0x363482c9, 0x77d37528, 0x0109ab3a, 0xade79437, 0x6112a3b7, 0xedffbff8),
         0x14292967, 0xd3b7973b, 0x0b919a99, 0x611380b7, 0x42859bea, 0x8f1995eb, 0xa2140a20, 0x73b33bf5, 0xba591112);
  }

  lemma Turns32()
    requires Row(32, [0x93f5997f, 0x3b68ba73, 0xaff4ffc1, 0xf10a5c62, 0x0a8b3996, 0x72af830a, 0x9409e33e, 0x24641522])
    requires Rounds(Load(INITIAL), BLOCK, 32) ==
             Working(0x73b33bf5, 0xea992a22, 0xa0060b30, 0x363482c9, 0xba591112, 0x0109ab3a, 0xade79437, 0x6112a3b7)
    ensures Rounds(Load(INITIAL), BLOCK, 36) ==
            Working(0x65a0cfe4, 0xa9a7738c, 0xfe604df5, 0x98e12507, 0xf4b002d6, 0x085f3833, 0x59249dd3, 0x9cd9f5f6)
  {
    hide ScheduleWord;
    hide Rounds;
    hide Load;
    Turn(32, Working(0x73b33bf5, 0xea992a22, 0xa0060b30, 0x363482c9, 0xba591112, 0x0109ab3a, 0xade79437, 0x6112a3b7),
         0x27b70a85, 0x93f5997f, 0x4436a63b, 0x05af8537, 0x66a5732d, 0x4fa886aa, 0xe2932b30, 0x98e12507, 0x9cd9f5f6);
    Turn(33, Working(0x98e12507, 0x73b33bf5, 0xea992a22, 0xa0060b30, 0x9cd9f5f6, 0xba591112, 0x0109ab3a, 0xade79437),
         0x2e1b2138, 0x3b68ba73, 0x085a07a7, 0x99591b1a, 0xb91e92a3, 0x4a90902b, 0xfab12b27, 0xfe604df5, 0x59249dd3);
    Turn(34, Working(0xfe604df5, 0x98e12507, 0x73b33bf5, 0xea992a22, 0x59249dd3, 0x9cd9f5f6, 0xba591112, 0x0109ab3a),
         0x4d2c6dfc, 0xaff4ffc1, 0x65415f48, 0xba5995d2, 0x1dc60e11, 0x91003786, 0xfae12df5, 0xa9a7738c, 0x085f3833);
    Turn(35, Working(0xa9a7738c, 0xfe604df5, 0x98e12507, 0x73b33bf5, 0x085f3833, 0x59249dd3, 0x9cd9f5f6, 0xba591112),
         0x53380d13, 0xf10a5c62, 0xe5dc6e83, 0x9c84ddd7, 0x80fcc6e1, 0x2bc2a37e, 0xb8e16585, 0x65a0cfe4, 0xf4b002d6);
  }

  lemma Turns36()
    requires Row(32, [0x93f5997f, 0x3b68ba73, 0xaff4ffc1, 0xf10a5c62, 0x0a8b3996, 0x72af830a, 0x9409e33e, 0x24641522])
    requires Rounds(Load(INITIAL), BLOCK, 36) ==
             Working(0x65a0cfe4, 0xa9a7738c, 0xfe604df5, 0x98e12507, 0xf4b002d6, 0x085f3833, 0x59249dd3, 0x9cd9f5f6)
    ensures Rounds(Load(INITIAL), BLOCK, 40) ==
            Working(0x79ea687a, 0x6dc57a8a, 0x34df1604, 0x41a65cb1, 0x1efbc0a0, 0xf0781bc8, 0xa507a53d, 0x0772a26b)
  {
    hide ScheduleWord;
    hide Rounds;
    hide Load;
    Turn(36, Working(0x65a0cfe4, 0xa9a7738c, 0xfe604df5, 0x98e12507, 0xf4b002d6, 0x085f3833, 0x59249dd3, 0x9cd9f5f6),
         0x650a7354, 0x0a8b3996, 0x590d3d71, 0x09149d13, 0x6e917d64, 0xe5748f69, 0xeda04fe4, 0x41a65cb1, 0x0772a26b);
    Turn(37, Working(0x41a65cb1, 0x65a0cfe4, 0xa9a7738c, 0xfe604df5, 0x0772a26b, 0xf4b002d6, 0x085f3833, 0x59249dd3),
         0x766a0abb, 0x72af830a, 0x582c115e, 0x0c3d1a52, 0xa6a75748, 0x2c915f18, 0x61a65fa4, 0x34df1604, 0xa507a53d);
    Turn(38, Working(0x34df1604, 0x41a65cb1, 0x65a0cfe4, 0xa9a7738c, 0xa507a53d, 0x0772a26b, 0xf4b002d6, 0x085f3833),
         0x81c2c92e, 0x9409e33e, 0xd2f220b2, 0x55b2a2eb, 0x46d0a83c, 0xc14e73aa, 0x65a65ea4, 0x6dc57a8a, 0xf0781bc8);
    Turn(39, Working(0x6dc57a8a, 0x34df1604, 0x41a65cb1, 0x65a0cfe4, 0xf0781bc8, 0xa507a53d, 0x0772a26b, 0xf4b002d6),
         0x92722c85, 0x24641522, 0x66d20b14, 0xa702a12b, 0xb95af0bc, 0x5ac8193e, 0x65c75e80, 0x79ea687a, 0x1efbc0a0);
  }

  lemma Turns40()
    requires Row(40, [0x9f47bf94, 0xf0a64f5a, 0x3e246a79, 0x27333ba3, 0x0c4763f2, 0x840abf27, 0x7a290d5d, 0x065c43da])
    requires Rounds(Load(INITIAL), BLOCK, 40) ==
             Working(0x79ea687a, 0x6dc57a8a, 0x34df1604, 0x41a65cb1, 0x1efbc0a0, 0xf0781bc8, 0xa507a53d, 0x0772a26b)
    ensures Rounds(Load(INITIAL), BLOCK, 44) ==
            Working(0x9d4baf93, 0x17aa0dfe, 0xdf46652f, 0xd6670766, 0xfda24c2e, 0xdecd4715, 0x838b2711, 0x26352d63)
  {
    hide ScheduleWord;
    hide Rounds;
    hide Load;
    Turn(40, Working(0x79ea687a, 0x6dc57a8a, 0x34df1604, 0x41a65cb1, 0x1efbc0a0, 0xf0781bc8, 0xa507a53d, 0x0772a26b),
         0xa2bfe8a1, 0x9f47bf94, 0xe9986075, 0xb17c259d, 0xe48ed0b2, 0x7408bcaa, 0x7dcf7a0a, 0xd6670766, 0x26352d63);
    Turn(41, Working(0xd6670766, 0x79ea687a, 0x6dc57a8a, 0x34df1604, 0x26352d63, 0x1efbc0a0, 0xf0781bc8, 0xa507a53d),
         0xa81a664b, 0xf0a64f5a, 0x3a6aa383, 0xd67912a8, 0x4eac110d, 0x12b2e9b8, 0x7de76a6a, 0xdf46652f, 0x838b2711);
    Turn(42, Working(0xdf46652f, 0xd6670766, 0x79ea687a, 0x6dc57a8a, 0x838b2711, 0x26352d63, 0x1efbc0a0, 0xf0781bc8),
         0xc24b8b70, 0x3e246a79, 0x61add539, 0x1e71e5a1, 0x7107cc8b, 0xc73bdc05, 0xdf66656e, 0x17aa0dfe, 0xdecd4715);
    Turn(43, Working(0x17aa0dfe, 0xdf46652f, 0xd6670766, 0x79ea687a, 0xdecd4715, 0x838b2711, 0x26352d63, 0x1efbc0a0),
         0xc76c51a3, 0x27333ba3, 0xd363665b, 0xa2b92f73, 0x83b7e3b4, 0x422dc671, 0xd766056e, 0x9d4baf93, 0xfda24c2e);
  }

  lemma Turns44()
    requires Row(40, [0x9f47bf94, 0xf0a64f5a, 0x3e246a79, 0x27333ba3, 0x0c4763f2, 0x840abf27, 0x7a290d5d, 0x065c43da])
    requires Rounds(Load(INITIAL), BLOCK, 44) ==
             Working(0x9d4baf93, 0x17aa0dfe, 0xdf46652f, 0xd6670766, 0xfda24c2e, 0xdecd4715, 0x838b2711, 0x26352d63)
    ensures Rounds(Load(INITIAL), BLOCK, 48) ==
            Working(0x4172328d, 0xa14c14b0, 0x72ab4b91, 0x26628815, 0xfecf0bc6, 0xd57b94a9, 0xb7755da1, 0xa80f11f0)
  {
    hide ScheduleWord;
    hide Rounds;
    hide Load;
    Turn(44, Working(0x9d4baf93, 0x17aa0dfe, 0xdf46652f, 0xd6670766, 0xfda24c2e, 0xdecd4715, 0x838b2711, 0x26352d63),
         0xd192e819, 0x0c4763f2, 0xef0f2a07, 0xde896715, 0xd1a80a8a, 0xb5704fcc, 0x9f4a2dbf, 0x26628815, 0xa80f11f0);
    Turn(45, Working(0x26628815, 0x9d4baf93, 0x17aa0dfe, 0xdf46652f, 0xa80f11f0, 0xfda24c2e, 0xdecd4715, 0x838b2711),
         0xd6990624, 0x840abf27, 0xfb3dc5f1, 0xfec24625, 0xd82ef872, 0x8311c588, 0x176a8d97, 0x72ab4b91, 0xb7755da1);
    Turn(46, Working(0x72ab4b91, 0x26628815, 0x9d4baf93, 0x17aa0dfe, 0xb7755da1, 0xa80f11f0, 0xfda24c2e, 0xdecd4715),
         0xf40e3585, 0x7a290d5d, 0x8845eb06, 0xe88711ae, 0xbdd186ab, 0xad0f0274, 0x366b8b91, 0xa14c14b0, 0xd57b94a9);
    Turn(47, Working(0xa14c14b0, 0x72ab4b91, 0x26628815, 0x9d4baf93, 0xd57b94a9, 0xb7755da1, 0xa80f11f0, 0xfda24c2e),
         0x106aa070, 0x065c43da, 0x8fa515ca, 0xbd7515f1, 0x61835c33, 0xbd84cdc9, 0x226a0891, 0x4172328d, 0xfecf0bc6);
  }

  lemma Turns48()
    requires Row(48, [0xfb3e89cb, 0xcc7617db, 0xb9e66c34, 0xa9993667, 0x84badedd, 0xc21462bc, 0x1487472c, 0xb20f7a99])
    requires Rounds(Load(INITIAL), BLOCK, 48) ==
             Working(0x4172328d, 0xa14c14b0, 0x72ab4b91, 0x26628815, 0xfecf0bc6, 0xd57b94a9, 0xb7755da1, 0xa80f11f0)
    ensures Rounds(Load(INITIAL), BLOCK, 52) ==
            Working(0x886e7a22, 0x7a0508a1, 0xf11bfaa8, 0x05757ceb, 0x49231c1e, 0x52f1ccf7, 0x6e5c390c, 0xbd714038)
  {
    hide ScheduleWord;
    hide Rounds;
    hide Load;
    Turn(48, Working(0x4172328d, 0xa14c14b0, 0x72ab4b91, 0x26628815, 0xfecf0bc6, 0xd57b94a9, 0xb7755da1, 0xa80f11f0),
         0x19a4c116, 0xfb3e89cb, 0x04a106b1, 0xd57b54a1, 0x970eb823, 0x0cfcb237, 0x616a1291, 0x05757ceb, 0xbd714038);
    Turn(49, Working(0x05757ceb, 0x4172328d, 0xa14c14b0, 0x72ab4b91, 0xbd714038, 0xfecf0bc6, 0xd57b94a9, 0xb7755da1),
         0x1e376c08, 0xcc7617db, 0x5d427776, 0xfc4b9481, 0xfbb0ed7b, 0xf3f6d884, 0x017434a9, 0xf11bfaa8, 0x6e5c390c);
    Turn(50, Working(0xf11bfaa8, 0x05757ceb, 0x4172328d, 0xa14c14b0, 0x6e5c390c, 0xbd714038, 0xfecf0bc6, 0xd57b94a9),
         0x2748774c, 0xb9e66c34, 0x3e283d54, 0xbcd302ca, 0xb1a5b847, 0x86ebd5b1, 0x41737aa9, 0x7a0508a1, 0x52f1ccf7);
    Turn(51, Working(0x7a0508a1, 0xf11bfaa8, 0x05757ceb, 0x4172328d, 0x52f1ccf7, 0x6e5c390c, 0xbd714038, 0xfecf0bc6),
         0x34b0bcb5, 0xa9993667, 0x3b47e2a3, 0xef50080c, 0x07b0e991, 0x0fa817e8, 0x711578a9, 0x886e7a22, 0x49231c1e);
  }

  lemma Turns52()
    requires Row(48, [0xfb3e89cb, 0xcc7617db, 0xb9e66c34, 0xa9993667, 0x84badedd, 0xc21462bc, 0x1487472c, 0xb20f7a99])
    requires Rounds(Load(INITIAL), BLOCK, 52) ==
             Working(0x886e7a22, 0x7a0508a1, 0xf11bfaa8, 0x05757ceb, 0x49231c1e, 0x52f1ccf7, 0x6e5c390c, 0xbd714038)
    ensures Rounds(Load(INITIAL), BLOCK, 56) ==
            Working(0x38cc9913, 0x3ec45cdb, 0xf5702fdb, 0x101fd28f, 0x54cb266b, 0xe50e1b4f, 0x9f4787c3, 0x529e7d00)
  {
    hide ScheduleWord;
    hide Rounds;
    hide Load;
    Turn(52, Working(0x886e7a22, 0x7a0508a1, 0xf11bfaa8, 0x05757ceb, 0x49231c1e, 0x52f1ccf7, 0x6e5c390c, 0xbd714038),
         0x391c0cb3, 0x84badedd, 0x6b63a737, 0x667d2d16, 0x4d290015, 0xcae757da, 0xf80f7aa0, 0x101fd28f, 0x529e7d00);
    Turn(53, Working(0x101fd28f, 0x886e7a22, 0x7a0508a1, 0xf11bfaa8, 0x529e7d00, 0x49231c1e, 0x52f1ccf7, 0x6e5c390c),
         0x4ed8aa4a, 0xc21462bc, 0xee7eaa12, 0x40639cf7, 0xae2b8d1b, 0x2f35481d, 0x180f5aa3, 0xf5702fdb, 0x9f4787c3);
    Turn(54, Working(0xf5702fdb, 0x101fd28f, 0x886e7a22, 0x7a0508a1, 0x9f4787c3, 0x529e7d00, 0x49231c1e, 0x52f1ccf7),
         0x5b9cca4f, 0x1487472c, 0x55cd1720, 0x52261d1c, 0x6b0912ae, 0x433ccfa2, 0x907e7a8b, 0x3ec45cdb, 0xe50e1b4f);
    Turn(55, Working(0x3ec45cdb, 0xf5702fdb, 0x101fd28f, 0x886e7a22, 0xe50e1b4f, 0x9f4787c3, 0x529e7d00, 0x49231c1e),
         0x682e6ff3, 0xb20f7a99, 0xd1653e5c, 0x97966743, 0xcc5cac49, 0x381b8def, 0x34545edb, 0x38cc9913, 0x54cb266b);
  }

  lemma Turns56()
    requires Row(56, [0xef57b9cd, 0xebe6b238, 0x9fe3095e, 0x78bc8d4b, 0xa43fcf15, 0x668b2ff8, 0xeeaba2cc, 0x12b1edeb])
    requires Rounds(Load(INITIAL), BLOCK, 56) ==
             Working(0x38cc9913, 0x3ec45cdb, 0xf5702fdb, 0x101fd28f, 0x54cb266b, 0xe50e1b4f, 0x9f4787c3, 0x529e7d00)
    ensures Rounds(Load(INITIAL), BLOCK, 60) ==
            Working(0xb6ae8fff, 0xffb70472, 0xc062d46f, 0xfcd1887b, 0xb21bad3d, 0x6d83bfc6, 0x7e44008e, 0x9b5e906c)
  {
    hide ScheduleWord;
    hide Rounds;
    hide Load;
    Turn(56, Working(0x38cc9913, 0x3ec45cdb, 0xf5702fdb, 0x101fd28f, 0x54cb266b, 0xe50e1b4f, 0x9f4787c3, 0x529e7d00),
         0x748f82ee, 0xef57b9cd, 0x05aa8057, 0xcf0e83cb, 0x8b3ebddd, 0x34ceacc3, 0x3cc41ddb, 0xfcd1887b, 0x9b5e906c);
    Turn(57, Working(0xfcd1887b, 0x38cc9913, 0x3ec45cdb, 0xf5702fdb, 0x9b5e906c, 0x54cb266b, 0xe50e1b4f, 0x9f4787c3),
         0x78a5636f, 0xebe6b238, 0x10b627de, 0x744a0b6b, 0x88d3d0b3, 0xfaca6b61, 0x3cc4985b, 0xc062d46f, 0x7e44008e);
    Turn(58, Working(0xc062d46f, 0xfcd1887b, 0x38cc9913, 0x3ec45cdb, 0x7e44008e, 0x9b5e906c, 0x54cb266b, 0xe50e1b4f),
         0x84c87814, 0x9fe3095e, 0x0a369fbd, 0x1acf266d, 0x2ebf62eb, 0xd837090c, 0xf8c0987b, 0xffb70472, 0x6d83bfc6);
    Turn(59, Working(0xffb70472, 0xc062d46f, 0xfcd1887b, 0x38cc9913, 0x6d83bfc6, 0x7e44008e, 0x9b5e906c, 0x54cb266b),
         0x8cc70208, 0x78bc8d4b, 0x20a45dbe, 0xfe5c00ae, 0x794f142a, 0x406bf75a, 0xfcf3847b, 0xb6ae8fff, 0xb21bad3d);
  }

  lemma Turns60()
    requires Row(56, [0xef57b9cd, 0xebe6b238, 0x9fe3095e, 0x78bc8d4b, 0xa43fcf15, 0x668b2ff8, 0xeeaba2cc, 0x12b1edeb])
    requires Rounds(Load(INITIAL), BLOCK, 60) ==
             Working(0xb6ae8fff, 0xffb70472, 0xc062d46f, 0xfcd1887b, 0xb21bad3d, 0x6d83bfc6, 0x7e44008e, 0x9b5e906c)
    ensures Rounds(Load(INITIAL), BLOCK, 64) ==
            Working(0x506e3058, 0xd39a2165, 0x04d24d6c, 0xb85e2ce9, 0x5ef50f24, 0xfb121210, 0x948d25b6, 0x961f4894)
  {
    hide ScheduleWord;
    hide Rounds;
    hide Load;
    Turn(60, Working(0xb6ae8fff, 0xffb70472, 0xc062d46f, 0xfcd1887b, 0xb21bad3d, 0x6d83bfc6, 0x7e44008e, 0x9b5e906c),
         0x90befffa, 0xa43fcf15, 0x5ca8b318, 0x6c47ad86, 0x994dc019, 0x2869e851, 0xf6a6847f, 0xb85e2ce9, 0x961f4894);
    Turn(61, Working(0xb85e2ce9, 0xb6ae8fff, 0xffb70472, 0xc062d46f, 0x961f4894, 0xb21bad3d, 0x6d83bfc6, 0x7e44008e),
         0xa4506ceb, 0x668b2ff8, 0x4f6ef480, 0xfb9bbf56, 0xd42a5147, 0x71e9ef2a, 0xbebe0cfb, 0x04d24d6c, 0x948d25b6);
    Turn(62, Working(0x04d24d6c, 0xb85e2ce9, 0xb6ae8fff, 0xffb70472, 0x948d25b6, 0x961f4894, 0xb21bad3d, 0x6d83bfc6),
         0xbef9a3f7, 0xeeaba2cc, 0x2a127e78, 0xb61f889d, 0xfb5b0d9e, 0x236105da, 0xb4de0ded, 0xd39a2165, 0xfb121210);
    Turn(63, Working(0xd39a2165, 0x04d24d6c, 0xb85e2ce9, 0xb6ae8fff, 0xfb121210, 0x948d25b6, 0x961f4894, 0xb21bad3d),
         0xc67178f2, 0x12b1edeb, 0x88fa2277, 0x940d4894, 0xa8467f25, 0x174d83c6, 0x90da2d6d, 0x506e3058, 0x5ef50f24);
  }

  lemma AllTurns()
    ensures |BLOCK| == BLOCK_BYTES
    ensures Rounds(Load(INITIAL), BLOCK, 64) ==
            Working(0x506e3058, 0xd39a2165, 0x04d24d6c, 0xb85e2ce9, 0x5ef50f24, 0xfb121210, 0x948d25b6, 0x961f4894)
  {
    BlockBytes();
    assert Rounds(Load(INITIAL), BLOCK, 0) ==
           Working(0x6a09e667, 0xbb67ae85, 0x3c6ef372, 0xa54ff53a, 0x510e527f, 0x9b05688c, 0x1f83d9ab, 0x5be0cd19);
    hide Rounds;
    hide Load;
    hide Row;
    Words0();
    Words8();
    Words16();
    Words24();
    Words32();
    Words40();
    Words48();
    Words56();
    Turns0();
    Turns4();
    Turns8();
    Turns12();
    Turns16();
    Turns20();
    Turns24();
    Turns28();
    Turns32();
    Turns36();
    Turns40();
    Turns44();
    Turns48();
    Turns52();
    Turns56();
    Turns60();
  }

  // ---- The digest ----

  const DIGEST: State :=
      [0xba7816bf, 0x8f01cfea, 0x414140de, 0x5dae2223, 0xb00361a3, 0x96177a9c, 0xb410ff61, 0xf20015ad]

  lemma BlockCompressed()
    ensures |BLOCK| == BLOCK_BYTES && Compress(INITIAL, BLOCK) == DIGEST
  {
    AllTurns();
    hide Rounds;
    var final := Compress(INITIAL, BLOCK);
    assert |final| == 8;
    forall i | 0 <= i < 8 ensures final[i] == DIGEST[i] {
    }
  }

  lemma BlockIsPadded()
    ensures Padded(ABC) == BLOCK
  {
    LengthOfAbc();
    hide BigEndian;
  }

  lemma LengthOfAbc()
    ensures LengthField(3) == [0, 0, 0, 0, 0, 0, 0, 24]
  {
    assert BigEndian(0, 4) == [0, 0, 0, 0];
    assert BigEndian(0, 7) == [0, 0, 0, 0, 0, 0, 0];
  }

  /** "abc" has the published digest. */
  lemma DigestOfAbc()
    ensures Sha256Of(ABC) == Output(DIGEST)
  {
    BlockIsPadded();
    BlockCompressed();
    hide Compress;
    hide Padded;
    hide Output;
    assert BLOCK[..0] == [] && BLOCK[0..] == BLOCK;
    assert Process(INITIAL, []) == INITIAL;
  }

  // ---- The digest as text ----

  lemma {:induction false} HexConcat(a: Bytes, b: Bytes)
    ensures HexDigest.Hex(a + b) == HexDigest.Hex(a) + HexDigest.Hex(b)
  {
    if b == [] {
      assert a + b == a;
    } else {
      var n := |b| - 1;
      assert (a + b)[..|a + b| - 1] == a + b[..n];
      HexConcat(a, b[..n]);
    }
  }

  lemma Hex1(a: Byte)
    ensures HexDigest.Hex([a]) == [HexDigest.HexDigit(a / 16), HexDigest.HexDigit(a % 16)]
  {
    assert [a][..0] == [];
  }

  lemma Hex4(a: Byte, b: Byte, c: Byte, d: Byte)
    ensures HexDigest.Hex([a, b, c, d]) ==
            [HexDigest.HexDigit(a / 16), HexDigest.HexDigit(a % 16), HexDigest.HexDigit(b / 16),
             HexDigest.HexDigit(b % 16),
             HexDigest.HexDigit(c / 16), HexDigest.HexDigit(c % 16), HexDigest.HexDigit(d / 16),
                 HexDigest.HexDigit(d % 16)]
  {
    Hex1(a);
    Hex1(b);
    Hex1(c);
    Hex1(d);
    HexConcat([a], [b]);
    HexConcat([a] + [b], [c]);
    HexConcat([a] + [b] + [c], [d]);
    assert [a, b, c, d] == [a] + [b] + [c] + [d];
    hide HexDigest.Hex;
  }

  lemma Word0Text()
    ensures BigEndian(0xba7816bf, 4) == [186, 120, 22, 191]
    ensures HexDigest.Hex([186, 120, 22, 191]) == [98, 97, 55, 56, 49, 54, 98, 102]
  {
    hide BigEndian;
    hide FromBigEndian;
    hide HexDigest.Hex;
    FourBytes([186, 120, 22, 191]);
    FromBigEndianRoundTrip([186, 120, 22, 191]);
    Hex4(186, 120, 22, 191);
  }

  lemma Word1Text()
    ensures BigEndian(0x8f01cfea, 4) == [143, 1, 207, 234]
    ensures HexDigest.Hex([143, 1, 207, 234]) == [56, 102, 48, 49, 99, 102, 101, 97]
  {
    hide BigEndian;
    hide FromBigEndian;
    hide HexDigest.Hex;
    FourBytes([143, 1, 207, 234]);
    FromBigEndianRoundTrip([143, 1, 207, 234]);
    Hex4(143, 1, 207, 234);
  }

  lemma Word2Text()
    ensures BigEndian(0x414140de, 4) == [65, 65, 64, 222]
    ensures HexDigest.Hex([65, 65, 64, 222]) == [52, 49, 52, 49, 52, 48, 100, 101]
  {
    hide BigEndian;
    hide FromBigEndian;
    hide HexDigest.Hex;
    FourBytes([65, 65, 64, 222]);
    FromBigEndianRoundTrip([65, 65, 64, 222]);
    Hex4(65, 65, 64, 222);
  }

  lemma Word3Text()
    ensures BigEndian(0x5dae2223, 4) == [93, 174, 34, 35]
    ensures HexDigest.Hex([93, 174, 34, 35]) == [53, 100, 97, 101, 50, 50, 50, 51]
  {
    hide BigEndian;
    hide FromBigEndian;
    hide HexDigest.Hex;
    FourBytes([93, 174, 34, 35]);
    FromBigEndianRoundTrip([93, 174, 34, 35]);
    Hex4(93, 174, 34, 35);
  }

  lemma Word4Text()
    ensures BigEndian(0xb00361a3, 4) == [176, 3, 97, 163]
    ensures HexDigest.Hex([176, 3, 97, 163]) == [98, 48, 48, 51, 54, 49, 97, 51]
  {
    hide BigEndian;
    hide FromBigEndian;
    hide HexDigest.Hex;
    FourBytes([176, 3, 97, 163]);
    FromBigEndianRoundTrip([176, 3, 97, 163]);
    Hex4(176, 3, 97, 163);
  }

  lemma Word5Text()
    ensures BigEndian(0x96177a9c, 4) == [150, 23, 122, 156]
    ensures HexDigest.Hex([150, 23, 122, 156]) == [57, 54, 49, 55, 55, 97, 57, 99]
  {
    hide BigEndian;
    hide FromBigEndian;
    hide HexDigest.Hex;
    FourBytes([150, 23, 122, 156]);
    FromBigEndianRoundTrip([150, 23, 122, 156]);
    Hex4(150, 23, 122, 156);
  }

  lemma Word6Text()
    ensures BigEndian(0xb410ff61, 4) == [180, 16, 255, 97]
    ensures HexDigest.Hex([180, 16, 255, 97]) == [98, 52, 49, 48, 102, 102, 54, 49]
  {
    hide BigEndian;
    hide FromBigEndian;
    hide HexDigest.Hex;
    FourBytes([180, 16, 255, 97]);
    FromBigEndianRoundTrip([180, 16, 255, 97]);
    Hex4(180, 16, 255, 97);
  }

  lemma Word7Text()
    ensures BigEndian(0xf20015ad, 4) == [242, 0, 21, 173]
    ensures HexDigest.Hex([242, 0, 21, 173]) == [102, 50, 48, 48, 49, 53, 97, 100]
  {
    hide BigEndian;
    hide FromBigEndian;
    hide HexDigest.Hex;
    FourBytes([242, 0, 21, 173]);
    FromBigEndianRoundTrip([242, 0, 21, 173]);
    Hex4(242, 0, 21, 173);
  }

  lemma FirstFour(parts: seq<Bytes>)
    requires |parts| == 8
    ensures Concat(parts[..4]) == parts[0] + parts[1] + parts[2] + parts[3]
  {
    hide Concat;
    NoParts(parts);
    OnePart(parts, 0);
    assert Concat(parts[..1]) == parts[0];
    OnePart(parts, 1);
    OnePart(parts, 2);
    OnePart(parts, 3);
  }

  lemma OutputIs(parts: seq<Bytes>)
    requires |parts| == 8
    ensures Concat(parts) == parts[0] + parts[1] + parts[2] + parts[3] + parts[4] + parts[5] + parts[6] + parts[7]
  {
    hide Concat;
    FirstFour(parts);
    OnePart(parts, 4);
    OnePart(parts, 5);
    OnePart(parts, 6);
    OnePart(parts, 7);
    assert parts[..8] == parts;
  }

  lemma NoParts(parts: seq<Bytes>)
    ensures Concat(parts[..0]) == []
  {
  }

  lemma OnePart(parts: seq<Bytes>, i: nat)
    requires i < |parts|
    ensures Concat(parts[..i + 1]) == Concat(parts[..i]) + parts[i]
  {
    ConcatNext(parts, i);
  }

  /** `sha256_hex` of "abc" is the published text. */
  lemma TextOfAbc()
    ensures HexDigest.Sha256Hex(ABC) ==
            [98, 97, 55, 56, 49, 54, 98, 102]
            + [56, 102, 48, 49, 99, 102, 101, 97]
            + [52, 49, 52, 49, 52, 48, 100, 101]
            + [53, 100, 97, 101, 50, 50, 50, 51]
            + [98, 48, 48, 51, 54, 49, 97, 51]
            + [57, 54, 49, 55, 55, 97, 57, 99]
            + [98, 52, 49, 48, 102, 102, 54, 49]
            + [102, 50, 48, 48, 49, 53, 97, 100]
  {
    DigestOfAbc();
    Word0Text();
    Word1Text();
    Word2Text();
    Word3Text();
    Word4Text();
    Word5Text();
    Word6Text();
    Word7Text();
    var parts := seq(8, i requires 0 <= i < 8 => BigEndian(DIGEST[i] as int, 4));
    assert Output(DIGEST) == Concat(parts);
    OutputIs(parts);
    hide Output;
    hide Sha256Of;
    hide Concat;
    hide BigEndian;
    HexOfEight([186, 120, 22, 191], [143, 1, 207, 234], [65, 65, 64, 222], [93, 174, 34, 35],
               [176, 3, 97, 163], [150, 23, 122, 156], [180, 16, 255, 97], [242, 0, 21, 173]);
    hide HexDigest.Hex;
  }

  lemma HexOfEight(a: Bytes, b: Bytes, c: Bytes, d: Bytes, e: Bytes, f: Bytes, g: Bytes, h: Bytes)
    ensures HexDigest.Hex(a + b + c + d + e + f + g + h) ==
            HexDigest.Hex(a) + HexDigest.Hex(b) + HexDigest.Hex(c) + HexDigest.Hex(d)
            + HexDigest.Hex(e) + HexDigest.Hex(f) + HexDigest.Hex(g) + HexDigest.Hex(h)
  {
    hide HexDigest.Hex;
    HexConcat(a, b);
    HexConcat(a + b, c);
    HexConcat(a + b + c, d);
    HexConcat(a + b + c + d, e);
    HexConcat(a + b + c + d + e, f);
    HexConcat(a + b + c + d + e + f, g);
    HexConcat(a + b + c + d + e + f + g, h);
  }
}
