/** The block function of chacha_private.h against RFC 8439: the shape of a double round, and the examples of
    sections 2.3.2 and A.1 with the states between the rounds. */
module ChachaVectors {
  import opened Chacha

  // ---------------------------------------------------------------- the shape of a double round

  /** The quarter round of every column of the four rows of four words. */
  function Columns(s: State): State {
    var (a, e, i, m) := Quarter(s[0], s[4], s[8], s[12]);
    var (b, f, j, n) := Quarter(s[1], s[5], s[9], s[13]);
    var (c, g, k, o) := Quarter(s[2], s[6], s[10], s[14]);
    var (d, h, l, p) := Quarter(s[3], s[7], s[11], s[15]);
    [a, b, c, d, e, f, g, h, i, j, k, l, m, n, o, p]
  }

  /** Every row turned left, by as many places as there are rows above it; and back. */
  function TurnLeft(s: State): State {
    [s[0], s[1], s[2], s[3], s[5], s[6], s[7], s[4], s[10], s[11], s[8], s[9], s[15], s[12], s[13], s[14]]
  }

  function TurnRight(s: State): State {
    [s[0], s[1], s[2], s[3], s[7], s[4], s[5], s[6], s[10], s[11], s[8], s[9], s[13], s[14], s[15], s[12]]
  }

  /** A double round works on the columns, then on the diagonals, which are the columns of the turned rows. */
  lemma DoubleRoundTurns(s: State)
    ensures DoubleRound(s) == TurnRight(Columns(TurnLeft(Columns(s))))
  {
    hide *;
    TwoHalves(s);
    FirstIsColumns(s);
    SecondIsColumns(Columns(s));
  }

  lemma FirstIsColumns(s: State)
    ensures FirstHalf(s) == Columns(s)
  {
    hide Quarter, FirstHalf;
    ColumnsAre(s);
  }

  lemma SecondIsColumns(s: State)
    ensures SecondHalf(s) == TurnRight(Columns(TurnLeft(s)))
  {
    hide Quarter, SecondHalf, FirstHalf, Columns;
    var t, u := TurnLeft(s), Columns(TurnLeft(s));
    DiagonalsAre(s);
    FirstIsColumns(t);
    ColumnsAre(t);
    var v := SecondHalf(s);
    assert v[..8] == TurnRight(u)[..8];
    assert v[8..] == TurnRight(u)[8..];
    assert v == v[..8] + v[8..];
    assert TurnRight(u) == TurnRight(u)[..8] + TurnRight(u)[8..];
  }

  function FirstHalf(s: State): State {
    var s := QuarterAt(s, 0, 4, 8, 12);
    var s := QuarterAt(s, 1, 5, 9, 13);
    var s := QuarterAt(s, 2, 6, 10, 14);
    QuarterAt(s, 3, 7, 11, 15)
  }

  function SecondHalf(s: State): State {
    var s := QuarterAt(s, 0, 5, 10, 15);
    var s := QuarterAt(s, 1, 6, 11, 12);
    var s := QuarterAt(s, 2, 7, 8, 13);
    QuarterAt(s, 3, 4, 9, 14)
  }

  lemma TwoHalves(s: State)
    ensures DoubleRound(s) == SecondHalf(FirstHalf(s))
  {
    hide QuarterAt;
  }

  lemma At(s: State, a: nat, b: nat, c: nat, d: nat)
    requires a < 4 <= b < 8 <= c < 12 <= d < 16
    ensures var t := QuarterAt(s, a, b, c, d);
            && (t[a], t[b], t[c], t[d]) == Quarter(s[a], s[b], s[c], s[d])
            && forall i :: 0 <= i < 16 && i != a && i != b && i != c && i != d ==> t[i] == s[i]
  {
    hide Quarter;
  }

  lemma ColumnsAre(s: State)
    ensures var t := FirstHalf(s);
            && (t[0], t[4], t[8], t[12]) == Quarter(s[0], s[4], s[8], s[12])
            && (t[1], t[5], t[9], t[13]) == Quarter(s[1], s[5], s[9], s[13])
            && (t[2], t[6], t[10], t[14]) == Quarter(s[2], s[6], s[10], s[14])
            && (t[3], t[7], t[11], t[15]) == Quarter(s[3], s[7], s[11], s[15])
  {
    hide Quarter, QuarterAt;
    var a := QuarterAt(s, 0, 4, 8, 12);
    var b := QuarterAt(a, 1, 5, 9, 13);
    At(s, 0, 4, 8, 12);
    At(a, 1, 5, 9, 13);
    At(b, 2, 6, 10, 14);
    At(QuarterAt(b, 2, 6, 10, 14), 3, 7, 11, 15);
  }

  lemma DiagonalsAre(s: State)
    ensures var t := SecondHalf(s);
            && (t[0], t[5], t[10], t[15]) == Quarter(s[0], s[5], s[10], s[15])
            && (t[1], t[6], t[11], t[12]) == Quarter(s[1], s[6], s[11], s[12])
            && (t[2], t[7], t[8], t[13]) == Quarter(s[2], s[7], s[8], s[13])
            && (t[3], t[4], t[9], t[14]) == Quarter(s[3], s[4], s[9], s[14])
  {
    hide Quarter, QuarterAt;
    var a := QuarterAt(s, 0, 5, 10, 15);
    var b := QuarterAt(a, 1, 6, 11, 12);
    At(s, 0, 5, 10, 15);
    At(a, 1, 6, 11, 12);
    At(b, 2, 7, 8, 13);
    At(QuarterAt(b, 2, 7, 8, 13), 3, 4, 9, 14);
  }

  // ---------------------------------------------------------------- section 2.3.2

  /** A double round whose halves are known. */
  lemma Halves(s: State, m: State, t: State)
    requires Quarter(s[0], s[4], s[8], s[12]) == (m[0], m[4], m[8], m[12])
    requires Quarter(s[1], s[5], s[9], s[13]) == (m[1], m[5], m[9], m[13])
    requires Quarter(s[2], s[6], s[10], s[14]) == (m[2], m[6], m[10], m[14])
    requires Quarter(s[3], s[7], s[11], s[15]) == (m[3], m[7], m[11], m[15])
    requires Quarter(m[0], m[5], m[10], m[15]) == (t[0], t[5], t[10], t[15])
    requires Quarter(m[1], m[6], m[11], m[12]) == (t[1], t[6], t[11], t[12])
    requires Quarter(m[2], m[7], m[8], m[13]) == (t[2], t[7], t[8], t[13])
    requires Quarter(m[3], m[4], m[9], m[14]) == (t[3], t[4], t[9], t[14])
    ensures DoubleRound(s) == t
  {
    hide Quarter, FirstHalf, SecondHalf, DoubleRound;
    TwoHalves(s);
    ColumnsAre(s);
    assert FirstHalf(s) == m;
    DiagonalsAre(m);
    assert SecondHalf(m) == t;
  }

  const S0: State :=
    [0x61707865, 0x3320646e, 0x79622d32, 0x6b206574, 0x03020100, 0x07060504, 0x0b0a0908, 0x0f0e0d0c,
     0x13121110, 0x17161514, 0x1b1a1918, 0x1f1e1d1c, 0x00000001, 0x09000000, 0x4a000000, 0x00000000]
  const M0: State :=
    [0xabbaa25c, 0x1efa51ea, 0x7354fbdf, 0x83d2dc69, 0x3a465196, 0x1c7e64f6, 0xb12fb628, 0xf05b6976,
     0x6b3ca454, 0x08eb14b1, 0xbf8a9ac9, 0xe444df3b, 0xdec62ed2, 0x8862cc77, 0x6e35b345, 0x52a647f1]
  const S1: State :=
    [0xcd52e917, 0x85ab03b4, 0xb3457395, 0xf96de7dd, 0xc4b7cd22, 0x5c2e187a, 0xc95eb461, 0x316c801a,
     0x7bf7d740, 0x7eddd644, 0xf1a1bdf5, 0x761246ca, 0x6b0d58a3, 0x6798471a, 0xd737f167, 0xf173888d]
  const M1: State :=
    [0xe3e1111b, 0xa6291491, 0x5a82b80c, 0x4500fd45, 0xd65b5b5b, 0xf56af099, 0x4ccc8103, 0xc94d29e2,
     0xe67aec54, 0xf7a52d82, 0xdb470914, 0xdfb40f1d, 0x7be81c0d, 0x1d92d0fd, 0x13139f8c, 0x7a26ecaa]
  const S2: State :=
    [0xcf1a7584, 0x048927ec, 0x54051fda, 0xc244ff28, 0x901d2f40, 0x7974b81c, 0x378dcfb4, 0xcd47fd0e,
     0x2dafb216, 0x27c89cd6, 0xcd3c9aa0, 0x79fc89c7, 0x10aef18d, 0x16218765, 0x68f76705, 0x04d6ee22]
  const M2: State :=
    [0xa22695f2, 0xa908cf6c, 0xe6ae05b2, 0xfe0ff04b, 0x1ece4458, 0xe82b726f, 0x5a21ab90, 0x87698c64,
     0xf2d36da6, 0xf4dab980, 0x7baf5573, 0xa78c270d, 0x6fda6bf7, 0x65a4b0ce, 0x25e6d76e, 0x1b7b11ec]
  const S3: State :=
    [0x03a14032, 0x66b15927, 0x9d6b6b42, 0xb84c4109, 0xa7143ae0, 0xa09b33dd, 0xa5daaf88, 0x2fd91a73,
     0xc90c6b18, 0x5a202413, 0xc20e01b6, 0x72cd6b74, 0xba35d777, 0xb360f1bf, 0x8178315b, 0x2cd11b1a]
  const M3: State :=
    [0xfecd0838, 0x160ab468, 0x9a0ddf4e, 0xbac7154a, 0xcedf6624, 0xb11de6c4, 0xbd7810ef, 0xd22b5643,
     0x1d8a33ea, 0x87dc1ca9, 0x89bd34a5, 0x5505ef62, 0xa818b852, 0xb100446a, 0x9c1d70b1, 0xa1d1befa]
  const S4: State :=
    [0x9a2d3589, 0x0b23fc4e, 0x40af3b6b, 0xceea8144, 0x0a1bffc6, 0x5e5993f7, 0x9904c2e7, 0x0d334718,
     0xe46c6354, 0xc9503229, 0x04fef5aa, 0xf8933f72, 0x2687d476, 0x54e65231, 0x3594ffc5, 0x2b3bb2ca]
  const M4: State :=
    [0x85e7824a, 0x4940cd9e, 0xfbe7684b, 0x7335d03d, 0x1c133ea1, 0xbba40b0f, 0x9413992a, 0xa4ab2040,
     0xa3a66a86, 0xc0b4754f, 0x771b4ecb, 0x165151a1, 0xde008464, 0x34f0058b, 0x70846cfa, 0xa3271b09]
  const S5: State :=
    [0xc53318c5, 0xca325d96, 0x7e7d11cb, 0x3404e2ca, 0x26d7cf73, 0x6088d379, 0xc0f0e9bd, 0xe310cdb9,
     0xae2ca8db, 0x42f67c72, 0x71669aca, 0x975c171d, 0x9e5ec228, 0x7d85a9f3, 0x201d0756, 0x63fa6953]
  const M5: State :=
    [0x9950b826, 0xcac7ccc6, 0x84a67673, 0xdb3109a6, 0x2121065a, 0xc12bdadb, 0xcae3acd1, 0x594616cb,
     0x19078de2, 0x178ecc02, 0xe6adbdb2, 0x52a9d50e, 0x40ca72b3, 0x3b9bf852, 0x78690378, 0xe17d4902]
  const S6: State :=
    [0x04a3131a, 0x66176309, 0x0415bab1, 0x61b880a2, 0x36cc86c7, 0xbf8a4465, 0xf77dd720, 0xfc0bdc90,
     0x07d13aca, 0xeb0be9af, 0x61599491, 0x918512dc, 0x33b6686d, 0x795cc671, 0xc0049972, 0xa0a81bde]
  const M6: State :=
    [0x57c5e6da, 0x35ce46a8, 0x0c041bb9, 0xfa91df79, 0x8e85d82f, 0xb4819d06, 0xb63be200, 0xacd221e4,
     0x434b4749, 0x1d459c00, 0x111cfe2c, 0x55942604, 0x49ee03a6, 0xd11a5554, 0xa7202e04, 0x7d2215bc]
  const S7: State :=
    [0x9b70f51f, 0x7ea8ac11, 0x21e54da9, 0xca393b2f, 0x93b08686, 0x6a4c50ae, 0x19212a5a, 0x9b032958,
     0xd839165e, 0x4c06e28a, 0xd3fde99e, 0x26acc13d, 0xa609f555, 0x2c246549, 0x95151853, 0x2c847a0d]
  const M7: State :=
    [0xc0b18aee, 0x087445ba, 0x36e52ad9, 0xa777426a, 0xdeb54e9c, 0x802c883b, 0x06e86889, 0x3c002680,
     0xa82d65d4, 0x687f11eb, 0xe9d36207, 0x4242ddae, 0x4103c64e, 0x82816a91, 0xb584ca56, 0xfd0bd2b9]
  const S8: State :=
    [0xca5c85dd, 0x93a4f90e, 0xd9f0df58, 0x26dd82dd, 0x982563f8, 0x712aa9ff, 0x279a61e8, 0x970f72bd,
     0x1c25931a, 0x5180bb10, 0x779c27e7, 0x54077e08, 0xa9b751fb, 0x382f3ce2, 0x8db1757d, 0xcc38080b]
  const M8: State :=
    [0x765c6e9c, 0x5ab09b11, 0x3ee7da04, 0x37c31203, 0x9046ecaa, 0x7b88d882, 0xb9b577dd, 0x156de7ed,
     0x46fa091e, 0x5117e9b5, 0x862ff22b, 0xa3fcc7a6, 0x72a5aace, 0x5fa7f1c5, 0xda563e0a, 0x5263d7ca]
  const S9: State :=
    [0xb6b87de6, 0x9a016148, 0x93859815, 0x4915e6cc, 0xdc33c122, 0x98e18fa3, 0x5ffbe8fc, 0xf7154b8b,
     0x28c1fcb3, 0xc4b38f9d, 0x83e2f5d7, 0x7d24b98b, 0x21078b22, 0xb193e7a3, 0xb2f49389, 0x6cde6026]
  const M9: State :=
    [0x8a07ff15, 0x0cadc51c, 0x017c8da9, 0x4afbe5df, 0x913768fe, 0x442a0c0c, 0x598fe3bb, 0x47d18828,
     0x0a39aedc, 0xc1428029, 0x7b48135f, 0x5a5f1098, 0x2d4cfe3e, 0xe5466d1b, 0xe4ccdc13, 0x8ac92a18]
  const S10: State :=
    [0x837778ab, 0xe238d763, 0xa67ae21e, 0x5950bb2f, 0xc4f2d0c7, 0xfc62bb2f, 0x8fa018fc, 0x3f5ec7b7,
     0x335271c2, 0xf29489f3, 0xeabda8fc, 0x82e46ebd, 0xd19c12b4, 0xb04e16de, 0x9e83d0cb, 0x4e3c50a2]

  lemma Round1()
    ensures DoubleRound(S0) == S1
  {
    Halves(S0, M0, S1);
  }

  lemma Round2()
    ensures DoubleRound(S1) == S2
  {
    Halves(S1, M1, S2);
  }

  lemma Round3()
    ensures DoubleRound(S2) == S3
  {
    Halves(S2, M2, S3);
  }

  lemma Round4()
    ensures DoubleRound(S3) == S4
  {
    Halves(S3, M3, S4);
  }

  lemma Round5()
    ensures DoubleRound(S4) == S5
  {
    Halves(S4, M4, S5);
  }

  lemma Round6()
    ensures DoubleRound(S5) == S6
  {
    Halves(S5, M5, S6);
  }

  lemma Round7()
    ensures DoubleRound(S6) == S7
  {
    Halves(S6, M6, S7);
  }

  lemma Round8()
    ensures DoubleRound(S7) == S8
  {
    Halves(S7, M7, S8);
  }

  lemma Round9()
    ensures DoubleRound(S8) == S9
  {
    Halves(S8, M8, S9);
  }

  lemma Round10()
    ensures DoubleRound(S9) == S10
  {
    Halves(S9, M9, S10);
  }

  /** The words of the block, as the section lists them. */
  const VECTOR: State :=
    [0xe4e7f110, 0x15593bd1, 0x1fdd0f50, 0xc47120a3, 0xc7f4d1c7, 0x0368c033, 0x9aaa2204, 0x4e6cd4c3,
     0x466482d2, 0x09aa9f07, 0x05d7c214, 0xa2028bd9, 0xd19c12b5, 0xb94e16de, 0xe883d0cb, 0x4e3c50a2]

  lemma {:induction false} TenRounds()
    ensures Rounds(S0, 10) == S10
  {
    hide DoubleRound;
    Round1();
    Round2();
    Round3();
    Round4();
    Round5();
    Round6();
    Round7();
    Round8();
    Round9();
    Round10();
    OneRound(S0, 10);
    OneRound(S1, 9);
    OneRound(S2, 8);
    OneRound(S3, 7);
    OneRound(S4, 6);
    OneRound(S5, 5);
    OneRound(S6, 4);
    OneRound(S7, 3);
    OneRound(S8, 2);
    OneRound(S9, 1);
    NoRounds(S10);
  }

  /** The example of section 2.3.2 of RFC 8439. */
  lemma BlockExample()
    ensures Block(S0) == VECTOR
  {
    hide Rounds, Block;
    TenRounds();
    Added(S0, S10);
    Sums();
  }

  lemma Added(j: State, t: State)
    requires Rounds(j, 10) == t
    ensures Block(j) == seq(16, i requires 0 <= i < 16 => t[i] + j[i])
  {
    hide Rounds;
  }

  lemma Sums()
    ensures seq(16, i requires 0 <= i < 16 => S10[i] + S0[i]) == VECTOR
  {
    var r := seq(16, i requires 0 <= i < 16 => S10[i] + S0[i]);
    assert r[..4] == VECTOR[..4];
    assert r[4..8] == VECTOR[4..8];
    assert r[8..12] == VECTOR[8..12];
    assert r[12..] == VECTOR[12..];
    assert r == r[..4] + r[4..8] + r[8..12] + r[12..];
  }

  lemma WordBytes()
    ensures Nth(VECTOR[0], 0) == 0x10 && Nth(VECTOR[0], 1) == 0xf1 && Nth(VECTOR[0], 2) == 0xe7 && Nth(VECTOR[0], 3) == 0xe4
    ensures Nth(VECTOR[1], 0) == 0xd1 && Nth(VECTOR[1], 1) == 0x3b && Nth(VECTOR[1], 2) == 0x59 && Nth(VECTOR[1], 3) == 0x15
  {
  }

  /** Zero bytes become the key stream, whose first bytes are listed in the section. */
  lemma StreamExample()
    ensures Crypt(S0, [0, 0, 0, 0, 0, 0, 0, 0]) == [0x10, 0xf1, 0xe7, 0xe4, 0xd1, 0x3b, 0x59, 0x15]
  {
    hide Block, Nth, Later;
    BlockExample();
    WordBytes();
    LaterNone(S0);
    var r := Crypt(S0, [0, 0, 0, 0, 0, 0, 0, 0]);
    forall k | 0 <= k < 8 ensures r[k] == Nth(VECTOR[k / 4], k % 4) {
      assert k / 64 == 0 && k % 64 == k;
    }
  }

  /** The constants, and how key bytes make words, as the state of the section shows. */
  lemma SetupExample()
    ensures Words(SIGMA) == S0[..4] && Words(TAU) == [0x61707865, 0x3120646e, 0x79622d36, 0x6b206574]
    ensures Words([0, 1, 2, 3, 4, 5, 6, 7, 8, 9, 10, 11, 12, 13, 14, 15]) == S0[4..8]
  {
    hide Little, Words;
    LittleExample();
    FourWords(SIGMA);
    FourWords(TAU);
    FourWords([0, 1, 2, 3, 4, 5, 6, 7, 8, 9, 10, 11, 12, 13, 14, 15]);
  }

  lemma FourWords(b: seq<Byte>)
    requires |b| == 16
    ensures Words(b) == [Little(b[0], b[1], b[2], b[3]), Little(b[4], b[5], b[6], b[7]),
                         Little(b[8], b[9], b[10], b[11]), Little(b[12], b[13], b[14], b[15])]
  {
    hide Little;
  }

  lemma LittleExample()
    ensures Little(101, 120, 112, 97) == 0x61707865 && Little(110, 100, 32, 51) == 0x3320646e
    ensures Little(110, 100, 32, 49) == 0x3120646e && Little(50, 45, 98, 121) == 0x79622d32
    ensures Little(54, 45, 98, 121) == 0x79622d36 && Little(116, 101, 32, 107) == 0x6b206574
    ensures Little(0, 1, 2, 3) == 0x03020100 && Little(4, 5, 6, 7) == 0x07060504
    ensures Little(8, 9, 10, 11) == 0x0b0a0908 && Little(12, 13, 14, 15) == 0x0f0e0d0c
  {
  }
}
