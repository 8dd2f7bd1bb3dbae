/** The first example of FIPS 180-4: the digest of "abc", with the message schedule eight words at a time and
    the working variables after every eighth round. */
module Sha512Example {
  import opened Bytes
  import opened Sha512Words
  import opened Sha512Constants
  import opened Sha512

  const MESSAGE: seq<Byte> := [0x61, 0x62, 0x63]

  const D0: seq<Byte> := [0xdd, 0xaf, 0x35, 0xa1, 0x93, 0x61, 0x7a, 0xba]
  const D1: seq<Byte> := [0xcc, 0x41, 0x73, 0x49, 0xae, 0x20, 0x41, 0x31]
  const D2: seq<Byte> := [0x12, 0xe6, 0xfa, 0x4e, 0x89, 0xa9, 0x7e, 0xa2]
  const D3: seq<Byte> := [0x0a, 0x9e, 0xee, 0xe6, 0x4b, 0x55, 0xd3, 0x9a]
  const D4: seq<Byte> := [0x21, 0x92, 0x99, 0x2a, 0x27, 0x4f, 0xc1, 0xa8]
  const D5: seq<Byte> := [0x36, 0xba, 0x3c, 0x23, 0xa3, 0xfe, 0xeb, 0xbd]
  const D6: seq<Byte> := [0x45, 0x4d, 0x44, 0x23, 0x64, 0x3c, 0xe8, 0x0e]
  const D7: seq<Byte> := [0x2a, 0x9a, 0xc9, 0x4f, 0xa5, 0x4c, 0xa4, 0x9f]

  const DIGEST: seq<Byte> := D0 + D1 + D2 + D3 + D4 + D5 + D6 + D7

  // -------------------------------------------------------------------------------------------
  // The message schedule
  // -------------------------------------------------------------------------------------------

  const W0: Eight := [
    0x6162638000000000, 0x0000000000000000, 0x0000000000000000, 0x0000000000000000,
    0x0000000000000000, 0x0000000000000000, 0x0000000000000000, 0x0000000000000000
  ]
  const W1: Eight := [
    0x0000000000000000, 0x0000000000000000, 0x0000000000000000, 0x0000000000000000,
    0x0000000000000000, 0x0000000000000000, 0x0000000000000000, 0x0000000000000018
  ]
  const W2: Eight := [
    0x6162638000000000, 0x00030000000000c0, 0x0a9699a24c700003, 0x00000c0060000603,
    0x549ef62639858996, 0x00c0003300003c00, 0x1497007a8a0e9dbc, 0x62e56500cc0780f0
  ]
  const W3: Eight := [
    0x7760dd475a538797, 0xf1554b711c1c0003, 0xca2993a4345d9ff2, 0x5e0e66b5c783dd32,
    0xe25a625d00494b62, 0x9f44486fb1e4fbd2, 0xb31b8c2b06085f2f, 0x0e987660934142f6
  ]
  const W4: Eight := [
    0xa4af2cfd09fbb924, 0xad289e2e0bd53186, 0x3c74563aa2f9673e, 0x6ccdcd14cc14b53f,
    0xc3f925b337f22bde, 0x5bcc77a75ad95b54, 0x3ec2257adca09a52, 0x28246960001fc5eb
  ]
  const W5: Eight := [
    0x04e33a75ce2be88a, 0x7d5314b3c359e0e7, 0xaef7a285ff251266, 0x0b8472581deea04f,
    0xb174e26eddc7b033, 0x5d63bae58ddd88de, 0x4c044007b744ccbb, 0xe6a9aa4d74dc7d43
  ]
  const W6: Eight := [
    0xebeaf1237248019c, 0x361e80b2d00f3193, 0x2e9839125df3b175, 0x3319629293ad5363,
    0x9cbc5d89ac1b89d5, 0x275e23ffeeca50b7, 0x3b80d680bf69ef58, 0x0d0696933945a125
  ]
  const W7: Eight := [
    0x7533eabcb786ff00, 0xb89826cee6fbf0e5, 0x249b4fbcad623e9f, 0x4aea9df2b02d6f1e,
    0x2cc57475a55e8d8f, 0xb2574ae938d8be89, 0xc1b35a57b16d6aea, 0xcc4918b5949206bb
  ]
  const W8: Eight := [
    0x5099c3add79f90ec, 0x5ea81d78e7660bf1, 0xebee6267405ac2a9, 0xb01f21926108a4ab,
    0x786433dd2fe65556, 0xc54a6eaa24a0552c, 0xb3c8f1530bdbaa9e, 0xbb8abfe56f469338
  ]
  const W9: Eight := [
    0xf63d4265cc1c5a78, 0xbe8355ea73129afb, 0x49e2db8ebdcfbeb5, 0x82269d4a883a3d99,
    0xfdf53df3011f362b, 0x464af5671d71c12e, 0xe449b68198ec611c, 0x92aeeed1a7bcf7d2
  ]

  /** The schedule from word t on begins with the words w. */
  predicate Words(block: Block, t: nat, w: Eight) {
    && Schedule(block, t) == w[0] && Schedule(block, t + 1) == w[1]
    && Schedule(block, t + 2) == w[2] && Schedule(block, t + 3) == w[3]
    && Schedule(block, t + 4) == w[4] && Schedule(block, t + 5) == w[5]
    && Schedule(block, t + 6) == w[6] && Schedule(block, t + 7) == w[7]
  }

  /** A word of the schedule from the four that make it. */
  function Made(a: Word, b: Word, c: Word, d: Word): Word {
    Add(Add(Add(Gamma1(a), b), Gamma0(c)), d)
  }

  /** The next eight words, from the last sixteen. */
  function NextRow(v: Eight, w: Eight): Eight {
    var p, q := Made(w[6], w[1], v[1], v[0]), Made(w[7], w[2], v[2], v[1]);
    var r, s := Made(p, w[3], v[3], v[2]), Made(q, w[4], v[4], v[3]);
    var t, u := Made(r, w[5], v[5], v[4]), Made(s, w[6], v[6], v[5]);
    [p, q, r, s, t, u, Made(t, w[7], v[7], v[6]), Made(u, p, w[0], v[7])]
  }

  lemma WordFollows(block: Block, t: nat)
    ensures Schedule(block, t + 16)
            == Made(Schedule(block, t + 14), Schedule(block, t + 9), Schedule(block, t + 1), Schedule(block, t))
  {
    ScheduleNext(block, t + 16);
  }

  lemma RowFollows(block: Block, t: nat, v: Eight, w: Eight)
    requires Words(block, t, v) && Words(block, t + 8, w)
    ensures Words(block, t + 16, NextRow(v, w))
  {
    hide Schedule, Made;
    WordFollows(block, t);
    WordFollows(block, t + 1);
    WordFollows(block, t + 2);
    WordFollows(block, t + 3);
    WordFollows(block, t + 4);
    WordFollows(block, t + 5);
    WordFollows(block, t + 6);
    WordFollows(block, t + 7);
  }

  lemma Rows2()
    ensures NextRow(W0, W1) == W2
    ensures NextRow(W1, W2) == W3
  {
  }

  lemma Rows4()
    ensures NextRow(W2, W3) == W4
    ensures NextRow(W3, W4) == W5
  {
  }

  lemma Rows6()
    ensures NextRow(W4, W5) == W6
    ensures NextRow(W5, W6) == W7
  {
  }

  lemma Rows8()
    ensures NextRow(W6, W7) == W8
    ensures NextRow(W7, W8) == W9
  {
  }

  // -------------------------------------------------------------------------------------------
  // The rounds
  // -------------------------------------------------------------------------------------------

  const V1: Eight := [
    0x8093d195e0054fa3, 0xc4875b0c7abc076b, 0xaf573b02403e89cd, 0xb680953951604860,
    0x86f67263a0f0ec0a, 0x5a6c781f54dcc00c, 0x96f60209b6dc35ba, 0x745aca4a342ed2e2
  ]
  const V2: Eight := [
    0x0ae07c86b1181c75, 0xfa967eed85a08028, 0x44249631255d2ca0, 0x5e41214388186c14,
    0xa77b7c035dd4c161, 0x874bfe5f6aae9f2f, 0x860acf9effba6f61, 0xcdf3bff2883fc9d9
  ]
  const V3: Eight := [
    0x4f6877b58fe55484, 0x3e2644567b709a78, 0xda34d6673d452dcf, 0x8dc5ae65569d3855,
    0xc66005f87db55233, 0x0ac2b11da8f571c6, 0x8e30ff09ad488753, 0x4bb9e66d1145bfdc
  ]
  const V4: Eight := [
    0xff4d3f1f0d46a736, 0x4c4fbbb75f1873a6, 0x74bf40f869094c63, 0xe62349090f47d30a,
    0x3cd388e119e8162e, 0x73e025d91b9efea3, 0xf0aec2fe1437f085, 0x0fcdf99710f21584
  ]
  const V5: Eight := [
    0x8e01e125b855d225, 0xb3bb8542b3376de5, 0x002bb8e4cd989567, 0x88df85b0bbe77514,
    0x0c710a47ba6a567b, 0xb49596c20feba7de, 0x66adcfa249ac7bbd, 0x8fbfd0162bbf4675
  ]
  const V6: Eight := [
    0x6b69fc1bb482feac, 0xf61e672694de2d67, 0x021fbadbabab5ac6, 0xc47c9d5c7ea8a234,
    0x35264334c03ac8ad, 0xc6bc35740d8daa9a, 0xe95c2a57572d64d9, 0x858d832ae0e8911c
  ]
  const V7: Eight := [
    0x63b460e42748817e, 0xf650857b5babda4d, 0xd63f68037ddf06aa, 0x03df11b32d42e203,
    0xc6b4dd2a9931c509, 0x9ccfb31a86df0f86, 0xa6781efe1aa1ce02, 0x504f94e40591cffa
  ]
  const V8: Eight := [
    0xab44e86276478d85, 0xa81dedbb9f19e643, 0xcfcd928c5424e2b6, 0x3857dfd2fc37d3ba,
    0xcd881ee59ca6bc53, 0x84058865d60a05fa, 0x09aee5bda1644de5, 0xa6af4e9c9f807e51
  ]
  const V9: Eight := [
    0xf15e9664b2803575, 0x7652c579cb60f19c, 0xfb6aaae5d0b6a447, 0x181839d609c79748,
    0x947c3dfafee570ef, 0xaff62c9665ff80fa, 0xe3711cb6564d112d, 0x0ada78ba2d446140
  ]
  const V10: Eight := [
    0x73a54f399fa4b1b2, 0x10d9c4c4295599f6, 0xd67806db8b148677, 0x654ef9abec389ca9,
    0xd08446aa79693ed7, 0x9bb4d39778c07f9e, 0x25c96a7768fb2aa3, 0xceb9fc3691ce8326
  ]

  /** Eight rounds. */
  function AfterEight(v: Eight, k: Eight, w: Eight): Eight {
    var x := Round(Round(v, k[0], w[0]), k[1], w[1]);
    var y := Round(Round(x, k[2], w[2]), k[3], w[3]);
    var z := Round(Round(y, k[4], w[4]), k[5], w[5]);
    Round(Round(z, k[6], w[6]), k[7], w[7])
  }

  lemma After8()
    ensures AfterEight(IV, K0, W0) == V1
  {
  }

  lemma After16()
    ensures AfterEight(V1, K1, W1) == V2
  {
  }

  lemma After24()
    ensures AfterEight(V2, K2, W2) == V3
  {
  }

  lemma After32()
    ensures AfterEight(V3, K3, W3) == V4
  {
  }

  lemma After40()
    ensures AfterEight(V4, K4, W4) == V5
  {
  }

  lemma After48()
    ensures AfterEight(V5, K5, W5) == V6
  {
  }

  lemma After56()
    ensures AfterEight(V6, K6, W6) == V7
  {
  }

  lemma After64()
    ensures AfterEight(V7, K7, W7) == V8
  {
  }

  lemma After72()
    ensures AfterEight(V8, K8, W8) == V9
  {
  }

  lemma After80()
    ensures AfterEight(V9, K9, W9) == V10
  {
  }

  lemma RoundsFollow(v: Eight, block: Block, t: nat, k: Eight, w: Eight)
    requires t + 8 <= |K| == 80 && Words(block, t, w) && K[t..t + 8] == k
    ensures Rounds(v, block, t + 8) == AfterEight(Rounds(v, block, t), k, w)
  {
    hide Schedule, Round, Rounds, K;
    RoundFollows(v, block, t);
    RoundFollows(v, block, t + 1);
    RoundFollows(v, block, t + 2);
    RoundFollows(v, block, t + 3);
    RoundFollows(v, block, t + 4);
    RoundFollows(v, block, t + 5);
    RoundFollows(v, block, t + 6);
    RoundFollows(v, block, t + 7);
    assert k[0] == K[t] && k[1] == K[t + 1] && k[2] == K[t + 2] && k[3] == K[t + 3];
    assert k[4] == K[t + 4] && k[5] == K[t + 5] && k[6] == K[t + 6] && k[7] == K[t + 7];
  }

  // -------------------------------------------------------------------------------------------
  // The digest
  // -------------------------------------------------------------------------------------------

  function MessageBlock(): Block {
    MESSAGE + [0x80] + Zeros(116) + CountBytes(24)
  }

  lemma PaddedMessage()
    ensures Padded(MESSAGE) == MessageBlock()
  {
    hide CountBytes;
    assert Zeros(108) + Zeros(8) == Zeros(116);
  }

  lemma CountWord()
    ensures CountBytes(24) == [0, 0, 0, 0, 0, 0, 0, 24]
  {
  }

  lemma ExtendedBytes()
    ensures Extended(0) == 0 && Extended(24) == 24
    ensures Extended(0x61) == 0x61 && Extended(0x62) == 0x62 && Extended(0x63) == 0x63 && Extended(0x80) == 0x80
  {
  }

  lemma ZeroWord(s: seq<Byte>, i: nat)
    requires i + 8 <= |s| && s[i..i + 8] == Zeros(8)
    ensures WordAt(s, i) == 0
  {
    hide Extended;
    ExtendedBytes();
    var r := s[i..i + 8];
    assert r[0] == r[1] == r[2] == r[3] == r[4] == r[5] == r[6] == r[7] == 0;
  }

  lemma FirstWord()
    ensures Schedule(MessageBlock(), 0) == W0[0] && Schedule(MessageBlock(), 15) == W1[7]
  {
    hide Extended, Schedule, CountBytes;
    var b := MessageBlock();
    CountWord();
    ExtendedBytes();
    ScheduleFirst(b, 0);
    ScheduleFirst(b, 15);
    assert b[..8] == [0x61, 0x62, 0x63, 0x80, 0, 0, 0, 0];
    assert b[120..] == [0, 0, 0, 0, 0, 0, 0, 24];
    assert b[4] == b[5] == b[6] == b[7] == 0;
  }

  lemma MiddleWord(t: nat)
    requires 0 < t < 15
    ensures Schedule(MessageBlock(), t) == 0
  {
    hide Schedule, CountBytes, WordAt;
    var b := MessageBlock();
    ScheduleFirst(b, t);
    ZeroWord(b, 8 * t);
  }

  lemma FirstRows(b: Block)
    requires b == MessageBlock()
    ensures Words(b, 0, W0) && Words(b, 8, W1)
  {
    hide Schedule;
    FirstWord();
    forall t | 0 < t < 15
      ensures Schedule(MessageBlock(), t) == 0
    {
      MiddleWord(t);
    }
  }

  lemma AllRounds(b: Block)
    requires b == MessageBlock()
    ensures Rounds(IV, b, 80) == V10
  {
    hide Words, NextRow, AfterEight, Rounds, K;
    ConstantRows();
    FirstRows(b);
    Rows2();
    Rows4();
    Rows6();
    Rows8();
    NoRounds(IV, b);
    RowFollows(b, 0, W0, W1);
    RowFollows(b, 8, W1, W2);
    RowFollows(b, 16, W2, W3);
    RowFollows(b, 24, W3, W4);
    RowFollows(b, 32, W4, W5);
    RowFollows(b, 40, W5, W6);
    RowFollows(b, 48, W6, W7);
    RowFollows(b, 56, W7, W8);
    After8();
    RoundsFollow(IV, b, 0, K0, W0);
    After16();
    RoundsFollow(IV, b, 8, K1, W1);
    After24();
    RoundsFollow(IV, b, 16, K2, W2);
    After32();
    RoundsFollow(IV, b, 24, K3, W3);
    After40();
    RoundsFollow(IV, b, 32, K4, W4);
    After48();
    RoundsFollow(IV, b, 40, K5, W5);
    After56();
    RoundsFollow(IV, b, 48, K6, W6);
    After64();
    RoundsFollow(IV, b, 56, K7, W7);
    After72();
    RoundsFollow(IV, b, 64, K8, W8);
    After80();
    RoundsFollow(IV, b, 72, K9, W9);
  }

  // The hash value.

  const H: Eight := [
    0xddaf35a193617aba, 0xcc417349ae204131, 0x12e6fa4e89a97ea2, 0x0a9eeee64b55d39a,
    0x2192992a274fc1a8, 0x36ba3c23a3feebbd, 0x454d4423643ce80e, 0x2a9ac94fa54ca49f
  ]

  lemma HashValue()
    ensures AddAll(IV, V10) == H
  {
  }

  lemma OneBlock(block: Block)
    ensures Chained(block) == Compressed(IV, block)
  {
    hide Compressed;
    assert [] + block == block;
    assert Chained([]) == IV;
    ChainedStep([], block);
  }

  lemma HashBytes()
    ensures WordBytes(H[0]) == D0
    ensures WordBytes(H[1]) == D1
    ensures WordBytes(H[2]) == D2
    ensures WordBytes(H[3]) == D3
    ensures WordBytes(H[4]) == D4
    ensures WordBytes(H[5]) == D5
    ensures WordBytes(H[6]) == D6
    ensures WordBytes(H[7]) == D7
  {
  }

  lemma StateOfMessage(b: Block)
    requires b == MessageBlock()
    ensures Chained(b) == H
  {
    hide Rounds, AddAll;
    OneBlock(b);
    AllRounds(b);
    HashValue();
  }

  /** The digest of "abc". */
  lemma DigestOfMessage()
    ensures Digest(MESSAGE) == DIGEST
  {
    hide Chained, Padded, WordBytes, Digest;
    DigestIs(MESSAGE);
    PaddedMessage();
    StateOfMessage(MessageBlock());
    HashBytes();
  }
}
