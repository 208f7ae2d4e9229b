/** Sixty-four steps of MD5 on each block of the messages in the test suite of RFC 1321 (section A.5), a few steps at a
    time with the values of the registers in between. */
module Md5Answers {
  import opened Common
  import opened Words
  import opened Md5

  const START: Regs := Regs(Word(0x67452301), Word(0xefcdab89), Word(0x98badcfe), Word(0x10325476))

  /** Four steps from known registers. */
  lemma Four(r: Regs, x: seq<Word>, i: nat, a: Word, d: Word, c: Word, b: Word)
    requires |x| == 16 && i + 4 <= 64
    requires var s := Rounds(r, x, i);
             && Step(s.a, s.b, s.c, s.d, x[Index(i)], i) == a
             && Step(s.d, a, s.b, s.c, x[Index(i + 1)], i + 1) == d
             && Step(s.c, d, a, s.b, x[Index(i + 2)], i + 2) == c
             && Step(s.b, c, d, a, x[Index(i + 3)], i + 3) == b
    ensures Rounds(r, x, i + 4) == Regs(a, b, c, d)
  {
    var s := Rounds(r, x, i);
    FourSteps(r, x, i, s.a, s.b, s.c, s.d);
  }

  // ----- Word, rotation and constant of each step -----

  lemma Constants0()
    ensures Index(0) == 0 && Index(1) == 1 && Index(2) == 2 && Index(3) == 3 && Index(4) == 4 && Index(5) == 5 &&
            Index(6) == 6 && Index(7) == 7
    ensures Shift(0) == 7 && Shift(1) == 12 && Shift(2) == 17 && Shift(3) == 22 && Shift(4) == 7 && Shift(5) == 12 &&
            Shift(6) == 17 && Shift(7) == 22
    ensures T(0) == Word(0xd76aa478) && T(1) == Word(0xe8c7b756) && T(2) == Word(0x242070db) &&
            T(3) == Word(0xc1bdceee) && T(4) == Word(0xf57c0faf) && T(5) == Word(0x4787c62a) &&
            T(6) == Word(0xa8304613) && T(7) == Word(0xfd469501)
  {
  }

  lemma Constants8()
    ensures Index(8) == 8 && Index(9) == 9 && Index(10) == 10 && Index(11) == 11 && Index(12) == 12 &&
            Index(13) == 13 && Index(14) == 14 && Index(15) == 15
    ensures Shift(8) == 7 && Shift(9) == 12 && Shift(10) == 17 && Shift(11) == 22 && Shift(12) == 7 &&
            Shift(13) == 12 && Shift(14) == 17 && Shift(15) == 22
    ensures T(8) == Word(0x698098d8) && T(9) == Word(0x8b44f7af) && T(10) == Word(0xffff5bb1) &&
            T(11) == Word(0x895cd7be) && T(12) == Word(0x6b901122) && T(13) == Word(0xfd987193) &&
            T(14) == Word(0xa679438e) && T(15) == Word(0x49b40821)
  {
  }

  lemma Constants16()
    ensures Index(16) == 1 && Index(17) == 6 && Index(18) == 11 && Index(19) == 0 && Index(20) == 5 &&
            Index(21) == 10 && Index(22) == 15 && Index(23) == 4
    ensures Shift(16) == 5 && Shift(17) == 9 && Shift(18) == 14 && Shift(19) == 20 && Shift(20) == 5 &&
            Shift(21) == 9 && Shift(22) == 14 && Shift(23) == 20
    ensures T(16) == Word(0xf61e2562) && T(17) == Word(0xc040b340) && T(18) == Word(0x265e5a51) &&
            T(19) == Word(0xe9b6c7aa) && T(20) == Word(0xd62f105d) && T(21) == Word(0x02441453) &&
            T(22) == Word(0xd8a1e681) && T(23) == Word(0xe7d3fbc8)
  {
  }

  lemma Constants24()
    ensures Index(24) == 9 && Index(25) == 14 && Index(26) == 3 && Index(27) == 8 && Index(28) == 13 &&
            Index(29) == 2 && Index(30) == 7 && Index(31) == 12
    ensures Shift(24) == 5 && Shift(25) == 9 && Shift(26) == 14 && Shift(27) == 20 && Shift(28) == 5 &&
            Shift(29) == 9 && Shift(30) == 14 && Shift(31) == 20
    ensures T(24) == Word(0x21e1cde6) && T(25) == Word(0xc33707d6) && T(26) == Word(0xf4d50d87) &&
            T(27) == Word(0x455a14ed) && T(28) == Word(0xa9e3e905) && T(29) == Word(0xfcefa3f8) &&
            T(30) == Word(0x676f02d9) && T(31) == Word(0x8d2a4c8a)
  {
  }

  lemma Constants32()
    ensures Index(32) == 5 && Index(33) == 8 && Index(34) == 11 && Index(35) == 14 && Index(36) == 1 &&
            Index(37) == 4 && Index(38) == 7 && Index(39) == 10
    ensures Shift(32) == 4 && Shift(33) == 11 && Shift(34) == 16 && Shift(35) == 23 && Shift(36) == 4 &&
            Shift(37) == 11 && Shift(38) == 16 && Shift(39) == 23
    ensures T(32) == Word(0xfffa3942) && T(33) == Word(0x8771f681) && T(34) == Word(0x6d9d6122) &&
            T(35) == Word(0xfde5380c) && T(36) == Word(0xa4beea44) && T(37) == Word(0x4bdecfa9) &&
            T(38) == Word(0xf6bb4b60) && T(39) == Word(0xbebfbc70)
  {
  }

  lemma Constants40()
    ensures Index(40) == 13 && Index(41) == 0 && Index(42) == 3 && Index(43) == 6 && Index(44) == 9 &&
            Index(45) == 12 && Index(46) == 15 && Index(47) == 2
    ensures Shift(40) == 4 && Shift(41) == 11 && Shift(42) == 16 && Shift(43) == 23 && Shift(44) == 4 &&
            Shift(45) == 11 && Shift(46) == 16 && Shift(47) == 23
    ensures T(40) == Word(0x289b7ec6) && T(41) == Word(0xeaa127fa) && T(42) == Word(0xd4ef3085) &&
            T(43) == Word(0x04881d05) && T(44) == Word(0xd9d4d039) && T(45) == Word(0xe6db99e5) &&
            T(46) == Word(0x1fa27cf8) && T(47) == Word(0xc4ac5665)
  {
  }

  lemma Constants48()
    ensures Index(48) == 0 && Index(49) == 7 && Index(50) == 14 && Index(51) == 5 && Index(52) == 12 &&
            Index(53) == 3 && Index(54) == 10 && Index(55) == 1
    ensures Shift(48) == 6 && Shift(49) == 10 && Shift(50) == 15 && Shift(51) == 21 && Shift(52) == 6 &&
            Shift(53) == 10 && Shift(54) == 15 && Shift(55) == 21
    ensures T(48) == Word(0xf4292244) && T(49) == Word(0x432aff97) && T(50) == Word(0xab9423a7) &&
            T(51) == Word(0xfc93a039) && T(52) == Word(0x655b59c3) && T(53) == Word(0x8f0ccc92) &&
            T(54) == Word(0xffeff47d) && T(55) == Word(0x85845dd1)
  {
  }

  lemma Constants56()
    ensures Index(56) == 8 && Index(57) == 15 && Index(58) == 6 && Index(59) == 13 && Index(60) == 4 &&
            Index(61) == 11 && Index(62) == 2 && Index(63) == 9
    ensures Shift(56) == 6 && Shift(57) == 10 && Shift(58) == 15 && Shift(59) == 21 && Shift(60) == 6 &&
            Shift(61) == 10 && Shift(62) == 15 && Shift(63) == 21
    ensures T(56) == Word(0x6fa87e4f) && T(57) == Word(0xfe2ce6e0) && T(58) == Word(0xa3014314) &&
            T(59) == Word(0x4e0811a1) && T(60) == Word(0xf7537e82) && T(61) == Word(0xbd3af235) &&
            T(62) == Word(0x2ad7d2bb) && T(63) == Word(0xeb86d391)
  {
  }

  // ----- The block of "" -----

  function EmptyWords(): (x: seq<Word>)
    ensures |x| == 16
    ensures x[0] == Word(0x00000080) && x[1] == Word(0x00000000) && x[2] == Word(0x00000000) &&
            x[3] == Word(0x00000000) && x[4] == Word(0x00000000) && x[5] == Word(0x00000000) &&
            x[6] == Word(0x00000000) && x[7] == Word(0x00000000) && x[8] == Word(0x00000000) &&
            x[9] == Word(0x00000000) && x[10] == Word(0x00000000) && x[11] == Word(0x00000000) &&
            x[12] == Word(0x00000000) && x[13] == Word(0x00000000) && x[14] == Word(0x00000000) &&
            x[15] == Word(0x00000000)
  {
    [Word(0x00000080), Word(0x00000000), Word(0x00000000), Word(0x00000000), Word(0x00000000), Word(0x00000000),
     Word(0x00000000), Word(0x00000000), Word(0x00000000), Word(0x00000000), Word(0x00000000), Word(0x00000000),
     Word(0x00000000), Word(0x00000000), Word(0x00000000), Word(0x00000000)]
  }

  lemma Empty8()
    ensures Rounds(START, EmptyWords(), 8) ==
            Regs(Word(0x32033344), Word(0x9bc13ce9), Word(0xf5b158db), Word(0x2f35d494))
  {
    hide Rounds, Shift, Index, T, EmptyWords;
    RoundsStep(START, EmptyWords(), 0);
    Constants0();
    Four(START, EmptyWords(), 0, Word(0xa5202774), Word(0xf59592dd), Word(0xe7f06b23), Word(0x1b163203));
    Four(START, EmptyWords(), 4, Word(0x32033344), Word(0x2f35d494), Word(0xf5b158db), Word(0x9bc13ce9));
  }

  lemma Empty16()
    ensures Rounds(START, EmptyWords(), 16) ==
            Regs(Word(0xf56c7cf1), Word(0xd6819c6a), Word(0x5aa53f75), Word(0x374943a7))
  {
    hide Rounds, Shift, Index, T, EmptyWords;
    Empty8();
    Constants8();
    Four(START, EmptyWords(), 8, Word(0x3893b991), Word(0xfce4a312), Word(0xe1ef0576), Word(0x70768a29));
    Four(START, EmptyWords(), 12, Word(0xf56c7cf1), Word(0x374943a7), Word(0x5aa53f75), Word(0xd6819c6a));
  }

  lemma Empty24()
    ensures Rounds(START, EmptyWords(), 24) ==
            Regs(Word(0x3d1e3e6c), Word(0xe422531a), Word(0xeb41643e), Word(0x68b7b3e3))
  {
    hide Rounds, Shift, Index, T, EmptyWords;
    Empty16();
    Constants16();
    Four(START, EmptyWords(), 16, Word(0x1c7d7513), Word(0x7bd57a3a), Word(0xc095f13a), Word(0xbd782e17));
    Four(START, EmptyWords(), 20, Word(0x3d1e3e6c), Word(0x68b7b3e3), Word(0xeb41643e), Word(0xe422531a));
  }

  lemma Empty32()
    ensures Rounds(START, EmptyWords(), 32) ==
            Regs(Word(0x13707036), Word(0xa2205f1f), Word(0x1c31c384), Word(0xae7813db))
  {
    hide Rounds, Shift, Index, T, EmptyWords;
    Empty24();
    Constants24();
    Four(START, EmptyWords(), 24, Word(0x306ec122), Word(0xd28c77c2), Word(0xa3c663da), Word(0xa0572807));
    Four(START, EmptyWords(), 28, Word(0x13707036), Word(0xae7813db), Word(0x1c31c384), Word(0xa2205f1f));
  }

  lemma Empty40()
    ensures Rounds(START, EmptyWords(), 40) ==
            Regs(Word(0x5f7a9b2e), Word(0xc5dc8c15), Word(0x91ca4cb7), Word(0xabc34e16))
  {
    hide Rounds, Shift, Index, T, EmptyWords;
    Empty32();
    Constants32();
    Four(START, EmptyWords(), 32, Word(0xdf63eaa1), Word(0xc3689f5b), Word(0x12f3e755), Word(0x004b6669));
    Four(START, EmptyWords(), 36, Word(0x5f7a9b2e), Word(0xabc34e16), Word(0x91ca4cb7), Word(0xc5dc8c15));
  }

  lemma Empty48()
    ensures Rounds(START, EmptyWords(), 48) ==
            Regs(Word(0x3f55edfd), Word(0xca7d2dbd), Word(0x68d84ea2), Word(0x22a31f54))
  {
    hide Rounds, Shift, Index, T, EmptyWords;
    Empty40();
    Constants40();
    Four(START, EmptyWords(), 40, Word(0x4497169d), Word(0x76fd93d4), Word(0xfd95f243), Word(0x0fe32453));
    Four(START, EmptyWords(), 44, Word(0x3f55edfd), Word(0x22a31f54), Word(0x68d84ea2), Word(0xca7d2dbd));
  }

  lemma Empty56()
    ensures Rounds(START, EmptyWords(), 56) ==
            Regs(Word(0x5625a114), Word(0x1e77fa61), Word(0x392ad0d0), Word(0x3450f42b))
  {
    hide Rounds, Shift, Index, T, EmptyWords;
    Empty48();
    Constants48();
    Four(START, EmptyWords(), 48, Word(0x93aa2577), Word(0x1688dc85), Word(0xcd85b8cb), Word(0x561e0689));
    Four(START, EmptyWords(), 52, Word(0x5625a114), Word(0x3450f42b), Word(0x392ad0d0), Word(0x1e77fa61));
  }

  lemma Empty64()
    ensures Rounds(START, EmptyWords(), 64) ==
            Regs(Word(0x7246fad3), Word(0x14e45506), Word(0xff4ea3eb), Word(0x6e10a476))
  {
    hide Rounds, Shift, Index, T, EmptyWords;
    Empty56();
    Constants56();
    Four(START, EmptyWords(), 56, Word(0x474a9c8c), Word(0xdfce00bc), Word(0x36594b14), Word(0x30130182));
    Four(START, EmptyWords(), 60, Word(0x7246fad3), Word(0x6e10a476), Word(0xff4ea3eb), Word(0x14e45506));
  }

  // ----- The block of "a" -----

  function OneWords(): (x: seq<Word>)
    ensures |x| == 16
    ensures x[0] == Word(0x00008061) && x[1] == Word(0x00000000) && x[2] == Word(0x00000000) &&
            x[3] == Word(0x00000000) && x[4] == Word(0x00000000) && x[5] == Word(0x00000000) &&
            x[6] == Word(0x00000000) && x[7] == Word(0x00000000) && x[8] == Word(0x00000000) &&
            x[9] == Word(0x00000000) && x[10] == Word(0x00000000) && x[11] == Word(0x00000000) &&
            x[12] == Word(0x00000000) && x[13] == Word(0x00000000) && x[14] == Word(0x00000008) &&
            x[15] == Word(0x00000000)
  {
    [Word(0x00008061), Word(0x00000000), Word(0x00000000), Word(0x00000000), Word(0x00000000), Word(0x00000000),
     Word(0x00000000), Word(0x00000000), Word(0x00000000), Word(0x00000000), Word(0x00000000), Word(0x00000000),
     Word(0x00000000), Word(0x00000000), Word(0x00000008), Word(0x00000000)]
  }

  lemma One8()
    ensures Rounds(START, OneWords(), 8) ==
            Regs(Word(0x3a9d5bcc), Word(0xa8af6da5), Word(0xd31ddc83), Word(0xe0a07db7))
  {
    hide Rounds, Shift, Index, T, OneWords;
    RoundsStep(START, OneWords(), 0);
    Constants0();
    Four(START, OneWords(), 0, Word(0xa56017f4), Word(0xf2d58361), Word(0xe65857a7), Word(0x607d9686));
    Four(START, OneWords(), 4, Word(0x3a9d5bcc), Word(0xe0a07db7), Word(0xd31ddc83), Word(0xa8af6da5));
  }

  lemma One16()
    ensures Rounds(START, OneWords(), 16) ==
            Regs(Word(0x44244cf8), Word(0xf01e3ce2), Word(0x6360a45f), Word(0xd0fe9b27))
  {
    hide Rounds, Shift, Index, T, OneWords;
    One8();
    Constants8();
    Four(START, OneWords(), 8, Word(0xbe580957), Word(0xf386bea6), Word(0xf5fdd933), Word(0x68493d6a));
    Four(START, OneWords(), 12, Word(0x44244cf8), Word(0xd0fe9b27), Word(0x6360a45f), Word(0xf01e3ce2));
  }

  lemma One24()
    ensures Rounds(START, OneWords(), 24) ==
            Regs(Word(0x8c444930), Word(0x373beab0), Word(0x2dacb8a3), Word(0x7267097a))
  {
    hide Rounds, Shift, Index, T, OneWords;
    One16();
    Constants16();
    Four(START, OneWords(), 16, Word(0x9c341767), Word(0x970ab3a9), Word(0xe39ffd23), Word(0x8d25cc66));
    Four(START, OneWords(), 20, Word(0x8c444930), Word(0x7267097a), Word(0x2dacb8a3), Word(0x373beab0));
  }

  lemma One32()
    ensures Rounds(START, OneWords(), 32) ==
            Regs(Word(0x93842e98), Word(0x3745961f), Word(0x94a2ebee), Word(0xc7043b64))
  {
    hide Rounds, Shift, Index, T, OneWords;
    One24();
    Constants24();
    Four(START, OneWords(), 24, Word(0xf175e3ad), Word(0x9d5df67e), Word(0x87b7f475), Word(0xc8f891b4));
    Four(START, OneWords(), 28, Word(0x93842e98), Word(0xc7043b64), Word(0x94a2ebee), Word(0x3745961f));
  }

  lemma One40()
    ensures Rounds(START, OneWords(), 40) ==
            Regs(Word(0x35a82a7a), Word(0xcf7e60db), Word(0x5abe099c), Word(0x89e0ec97))
  {
    hide Rounds, Shift, Index, T, OneWords;
    One32();
    Constants32();
    Four(START, OneWords(), 32, Word(0xbd607d1e), Word(0xa6f72085), Word(0xbf8b4f98), Word(0xdaf7f308));
    Four(START, OneWords(), 36, Word(0x35a82a7a), Word(0x89e0ec97), Word(0x5abe099c), Word(0xcf7e60db));
  }

  lemma One48()
    ensures Rounds(START, OneWords(), 48) ==
            Regs(Word(0x0ac50e18), Word(0x918f93bb), Word(0x8a4a6356), Word(0x79ca7845))
  {
    hide Rounds, Shift, Index, T, OneWords;
    One40();
    Constants40();
    Four(START, OneWords(), 40, Word(0x75c151e2), Word(0x942e0c86), Word(0x0c0e6ac4), Word(0xcc6f5e9e));
    Four(START, OneWords(), 44, Word(0x0ac50e18), Word(0x79ca7845), Word(0x8a4a6356), Word(0x918f93bb));
  }

  lemma One56()
    ensures Rounds(START, OneWords(), 56) ==
            Regs(Word(0x982c7861), Word(0x893501c0), Word(0x71fc7709), Word(0x6812a362))
  {
    hide Rounds, Shift, Index, T, OneWords;
    One48();
    Constants48();
    Four(START, OneWords(), 48, Word(0xcab8fe42), Word(0x6a4daeee), Word(0x36269c3f), Word(0x1ee405eb));
    Four(START, OneWords(), 52, Word(0x982c7861), Word(0x6812a362), Word(0x71fc7709), Word(0x893501c0));
  }

  lemma One64()
    ensures Rounds(START, OneWords(), 64) ==
            Regs(Word(0x52309e0b), Word(0xb8e94637), Word(0x49dee633), Word(0x50f422f3))
  {
    hide Rounds, Shift, Index, T, OneWords;
    One56();
    Constants56();
    Four(START, OneWords(), 56, Word(0xfebd62fd), Word(0x28936a74), Word(0x53e33526), Word(0xaa4d8ae3));
    Four(START, OneWords(), 60, Word(0x52309e0b), Word(0x50f422f3), Word(0x49dee633), Word(0xb8e94637));
  }

  // ----- The block of "abc" -----

  function AbcWords(): (x: seq<Word>)
    ensures |x| == 16
    ensures x[0] == Word(0x80636261) && x[1] == Word(0x00000000) && x[2] == Word(0x00000000) &&
            x[3] == Word(0x00000000) && x[4] == Word(0x00000000) && x[5] == Word(0x00000000) &&
            x[6] == Word(0x00000000) && x[7] == Word(0x00000000) && x[8] == Word(0x00000000) &&
            x[9] == Word(0x00000000) && x[10] == Word(0x00000000) && x[11] == Word(0x00000000) &&
            x[12] == Word(0x00000000) && x[13] == Word(0x00000000) && x[14] == Word(0x00000018) &&
            x[15] == Word(0x00000000)
  {
    [Word(0x80636261), Word(0x00000000), Word(0x00000000), Word(0x00000000), Word(0x00000000), Word(0x00000000),
     Word(0x00000000), Word(0x00000000), Word(0x00000000), Word(0x00000000), Word(0x00000000), Word(0x00000000),
     Word(0x00000000), Word(0x00000000), Word(0x00000018), Word(0x00000000)]
  }

  lemma Abc8()
    ensures Rounds(START, AbcWords(), 8) ==
            Regs(Word(0xc73741ef), Word(0x928d99f6), Word(0x207dc67b), Word(0x8bac3051))
  {
    hide Rounds, Shift, Index, T, AbcWords;
    RoundsStep(START, AbcWords(), 0);
    Constants0();
    Four(START, AbcWords(), 0, Word(0xd6d117b4), Word(0x344a8432), Word(0x2f6fbd72), Word(0x7ad956f2));
    Four(START, AbcWords(), 4, Word(0xc73741ef), Word(0x8bac3051), Word(0x207dc67b), Word(0x928d99f6));
  }

  lemma Abc16()
    ensures Rounds(START, AbcWords(), 16) ==
            Regs(Word(0xdda9b9a6), Word(0x72aff2e0), Word(0xe396856b), Word(0xa1051895))
  {
    hide Rounds, Shift, Index, T, AbcWords;
    Abc8();
    Constants8();
    Four(START, AbcWords(), 8, Word(0x854b3712), Word(0x74e2f284), Word(0x3020401c), Word(0x5ed49596));
    Four(START, AbcWords(), 12, Word(0xdda9b9a6), Word(0xa1051895), Word(0xe396856b), Word(0x72aff2e0));
  }

  lemma Abc24()
    ensures Rounds(START, AbcWords(), 24) ==
            Regs(Word(0x59a8ffda), Word(0x47092c07), Word(0xabfc7920), Word(0x6d002f1e))
  {
    hide Rounds, Shift, Index, T, AbcWords;
    Abc16();
    Constants16();
    Four(START, AbcWords(), 16, Word(0x3e9e9126), Word(0x4a1d804e), Word(0xe25e1652), Word(0xb5b204e4));
    Four(START, AbcWords(), 20, Word(0x59a8ffda), Word(0x6d002f1e), Word(0xabfc7920), Word(0x47092c07));
  }

  lemma Abc32()
    ensures Rounds(START, AbcWords(), 32) ==
            Regs(Word(0x790a77fb), Word(0x726342d3), Word(0xa62884aa), Word(0x9f47e4f8))
  {
    hide Rounds, Shift, Index, T, AbcWords;
    Abc24();
    Constants24();
    Four(START, AbcWords(), 24, Word(0xb7f268cf), Word(0x09388eff), Word(0xfe1623b1), Word(0x786acb8f));
    Four(START, AbcWords(), 28, Word(0x790a77fb), Word(0x9f47e4f8), Word(0xa62884aa), Word(0x726342d3));
  }

  lemma Abc40()
    ensures Rounds(START, AbcWords(), 40) ==
            Regs(Word(0x21b117b9), Word(0x5a2f5ea5), Word(0x3575227e), Word(0x6e7429d5))
  {
    hide Rounds, Shift, Index, T, AbcWords;
    Abc32();
    Constants32();
    Four(START, AbcWords(), 32, Word(0xb3707ebf), Word(0x60127b2e), Word(0x8d212ff5), Word(0x3b0875c7));
    Four(START, AbcWords(), 36, Word(0x21b117b9), Word(0x6e7429d5), Word(0x3575227e), Word(0x5a2f5ea5));
  }

  lemma Abc48()
    ensures Rounds(START, AbcWords(), 48) ==
            Regs(Word(0x7f2e507b), Word(0x7beb9700), Word(0x8fae6399), Word(0x99d9679d))
  {
    hide Rounds, Shift, Index, T, AbcWords;
    Abc40();
    Constants40();
    Four(START, AbcWords(), 40, Word(0x11de1779), Word(0xfadcaa38), Word(0x31c465ca), Word(0x4c6124f4));
    Four(START, AbcWords(), 44, Word(0x7f2e507b), Word(0x99d9679d), Word(0x8fae6399), Word(0x7beb9700));
  }

  lemma Abc56()
    ensures Rounds(START, AbcWords(), 56) ==
            Regs(Word(0x06cc5e8a), Word(0x3bfa2c27), Word(0x7d632dd0), Word(0x5b0d97aa))
  {
    hide Rounds, Shift, Index, T, AbcWords;
    Abc48();
    Constants48();
    Four(START, AbcWords(), 48, Word(0x7b201df8), Word(0xf4e8e96e), Word(0xb298cefd), Word(0x8bf025c4));
    Four(START, AbcWords(), 52, Word(0x06cc5e8a), Word(0x5b0d97aa), Word(0x7d632dd0), Word(0x3bfa2c27));
  }

  lemma Abc64()
    ensures Rounds(START, AbcWords(), 64) ==
            Regs(Word(0x310ade8f), Word(0xc08226b3), Word(0xe484b9d8), Word(0x624d8cb2))
  {
    hide Rounds, Shift, Index, T, AbcWords;
    Abc56();
    Constants56();
    Four(START, AbcWords(), 56, Word(0x7f81cc35), Word(0x094454ab), Word(0x4f9dbe3f), Word(0x7327d604));
    Four(START, AbcWords(), 60, Word(0x310ade8f), Word(0x624d8cb2), Word(0xe484b9d8), Word(0xc08226b3));
  }

  // ----- The block of "message digest" -----

  function TextWords(): (x: seq<Word>)
    ensures |x| == 16
    ensures x[0] == Word(0x7373656d) && x[1] == Word(0x20656761) && x[2] == Word(0x65676964) &&
            x[3] == Word(0x00807473) && x[4] == Word(0x00000000) && x[5] == Word(0x00000000) &&
            x[6] == Word(0x00000000) && x[7] == Word(0x00000000) && x[8] == Word(0x00000000) &&
            x[9] == Word(0x00000000) && x[10] == Word(0x00000000) && x[11] == Word(0x00000000) &&
            x[12] == Word(0x00000000) && x[13] == Word(0x00000000) && x[14] == Word(0x00000070) &&
            x[15] == Word(0x00000000)
  {
    [Word(0x7373656d), Word(0x20656761), Word(0x65676964), Word(0x00807473), Word(0x00000000), Word(0x00000000),
     Word(0x00000000), Word(0x00000000), Word(0x00000000), Word(0x00000000), Word(0x00000000), Word(0x00000000),
     Word(0x00000000), Word(0x00000000), Word(0x00000070), Word(0x00000000)]
  }

  lemma Text8()
    ensures Rounds(START, TextWords(), 8) ==
            Regs(Word(0xfa62d3a4), Word(0xc63616cd), Word(0xa089a530), Word(0xb88dc1c7))
  {
    hide Rounds, Shift, Index, T, TextWords;
    RoundsStep(START, TextWords(), 0);
    Constants0();
    Four(START, TextWords(), 0, Word(0x5ed29dae), Word(0xe2a2fc32), Word(0x9073e056), Word(0xb9940c11));
    Four(START, TextWords(), 4, Word(0xfa62d3a4), Word(0xb88dc1c7), Word(0xa089a530), Word(0xc63616cd));
  }

  lemma Text16()
    ensures Rounds(START, TextWords(), 16) ==
            Regs(Word(0x27c95b7f), Word(0xb760921a), Word(0x872d34d8), Word(0x034e9992))
  {
    hide Rounds, Shift, Index, T, TextWords;
    Text8();
    Constants8();
    Four(START, TextWords(), 8, Word(0xfcced5db), Word(0x9bb4c658), Word(0x4731c077), Word(0x5ff4a4e8));
    Four(START, TextWords(), 12, Word(0x27c95b7f), Word(0x034e9992), Word(0x872d34d8), Word(0xb760921a));
  }

  lemma Text24()
    ensures Rounds(START, TextWords(), 24) ==
            Regs(Word(0x3d3c3afc), Word(0xe7f48f59), Word(0x99351d3c), Word(0x343bff12))
  {
    hide Rounds, Shift, Index, T, TextWords;
    Text16();
    Constants16();
    Four(START, TextWords(), 16, Word(0x6d3425b2), Word(0x551aefa3), Word(0x62cdb24b), Word(0xf615fbe5));
    Four(START, TextWords(), 20, Word(0x3d3c3afc), Word(0x343bff12), Word(0x99351d3c), Word(0xe7f48f59));
  }

  lemma Text32()
    ensures Rounds(START, TextWords(), 32) ==
            Regs(Word(0xc64f6e00), Word(0x29209d1f), Word(0x99ccfca3), Word(0x4e341514))
  {
    hide Rounds, Shift, Index, T, TextWords;
    Text24();
    Constants24();
    Four(START, TextWords(), 24, Word(0x7247931a), Word(0xe37cf5f6), Word(0x709f1676), Word(0x2460ff57));
    Four(START, TextWords(), 28, Word(0xc64f6e00), Word(0x4e341514), Word(0x99ccfca3), Word(0x29209d1f));
  }

  lemma Text40()
    ensures Rounds(START, TextWords(), 40) ==
            Regs(Word(0x2e678c51), Word(0x1eaad7f9), Word(0x26bbf48d), Word(0xaf1a865c))
  {
    hide Rounds, Shift, Index, T, TextWords;
    Text32();
    Constants32();
    Four(START, TextWords(), 32, Word(0x7b425bcb), Word(0x1d72c0d5), Word(0x8139174f), Word(0x77401eff));
    Four(START, TextWords(), 36, Word(0x2e678c51), Word(0xaf1a865c), Word(0x26bbf48d), Word(0x1eaad7f9));
  }

  lemma Text48()
    ensures Rounds(START, TextWords(), 48) ==
            Regs(Word(0xc5148eb0), Word(0x8f920a7f), Word(0x8ee8cb35), Word(0x9551398b))
  {
    hide Rounds, Shift, Index, T, TextWords;
    Text40();
    Constants40();
    Four(START, TextWords(), 40, Word(0xff95dbf7), Word(0x9ff8129c), Word(0x580f8d8e), Word(0x49bd582a));
    Four(START, TextWords(), 44, Word(0xc5148eb0), Word(0x9551398b), Word(0x8ee8cb35), Word(0x8f920a7f));
  }

  lemma Text56()
    ensures Rounds(START, TextWords(), 56) ==
            Regs(Word(0x7e40a029), Word(0xc004fc5d), Word(0x555e3d90), Word(0x778e9f99))
  {
    hide Rounds, Shift, Index, T, TextWords;
    Text48();
    Constants48();
    Four(START, TextWords(), 48, Word(0x1158f562), Word(0x3a3bd4bf), Word(0x3250a790), Word(0xed9ac5d4));
    Four(START, TextWords(), 52, Word(0x7e40a029), Word(0x778e9f99), Word(0x555e3d90), Word(0xc004fc5d));
  }

  lemma Text64()
    ensures Rounds(START, TextWords(), 64) ==
            Regs(Word(0x162448f8), Word(0x9dc60bf3), Word(0x98747d54), Word(0xc02f9d34))
  {
    hide Rounds, Shift, Index, T, TextWords;
    Text56();
    Constants56();
    Four(START, TextWords(), 56, Word(0x853d163f), Word(0x57ff85d4), Word(0x61367f65), Word(0x671dc236));
    Four(START, TextWords(), 60, Word(0x162448f8), Word(0xc02f9d34), Word(0x98747d54), Word(0x9dc60bf3));
  }

  // ----- The block of "abcdefghijklmnopqrstuvwxyz" -----

  function LettersWords(): (x: seq<Word>)
    ensures |x| == 16
    ensures x[0] == Word(0x64636261) && x[1] == Word(0x68676665) && x[2] == Word(0x6c6b6a69) &&
            x[3] == Word(0x706f6e6d) && x[4] == Word(0x74737271) && x[5] == Word(0x78777675) &&
            x[6] == Word(0x00807a79) && x[7] == Word(0x00000000) && x[8] == Word(0x00000000) &&
            x[9] == Word(0x00000000) && x[10] == Word(0x00000000) && x[11] == Word(0x00000000) &&
            x[12] == Word(0x00000000) && x[13] == Word(0x00000000) && x[14] == Word(0x000000d0) &&
            x[15] == Word(0x00000000)
  {
    [Word(0x64636261), Word(0x68676665), Word(0x6c6b6a69), Word(0x706f6e6d), Word(0x74737271), Word(0x78777675),
     Word(0x00807a79), Word(0x00000000), Word(0x00000000), Word(0x00000000), Word(0x00000000), Word(0x00000000),
     Word(0x00000000), Word(0x00000000), Word(0x000000d0), Word(0x00000000)]
  }

  lemma Letters8()
    ensures Rounds(START, LettersWords(), 8) ==
            Regs(Word(0xfe15f787), Word(0xda9bbb0d), Word(0xb71122fc), Word(0xa811b278))
  {
    hide Rounds, Shift, Index, T, LettersWords;
    RoundsStep(START, LettersWords(), 0);
    Constants0();
    Four(START, LettersWords(), 0, Word(0xd6d117a6), Word(0xaab1aaaa), Word(0x227d8cf1), Word(0x4503b812));
    Four(START, LettersWords(), 4, Word(0xfe15f787), Word(0xa811b278), Word(0xb71122fc), Word(0xda9bbb0d));
  }

  lemma Letters16()
    ensures Rounds(START, LettersWords(), 16) ==
            Regs(Word(0x1754a316), Word(0x608d6b7e), Word(0x00df74d5), Word(0x85567d90))
  {
    hide Rounds, Shift, Index, T, LettersWords;
    Letters8();
    Constants8();
    Four(START, LettersWords(), 8, Word(0xae752899), Word(0x2bbe757f), Word(0x7d4bd80b), Word(0x56cfa5cb));
    Four(START, LettersWords(), 12, Word(0x1754a316), Word(0x85567d90), Word(0x00df74d5), Word(0x608d6b7e));
  }

  lemma Letters24()
    ensures Rounds(START, LettersWords(), 24) ==
            Regs(Word(0x570c43e0), Word(0xc9f162d4), Word(0xc28ab49d), Word(0x977efd2a))
  {
    hide Rounds, Shift, Index, T, LettersWords;
    Letters16();
    Constants16();
    Four(START, LettersWords(), 16, Word(0x2d8071cc), Word(0x5dcee119), Word(0xedfe7e4b), Word(0x4c2145b3));
    Four(START, LettersWords(), 20, Word(0x570c43e0), Word(0x977efd2a), Word(0xc28ab49d), Word(0xc9f162d4));
  }

  lemma Letters32()
    ensures Rounds(START, LettersWords(), 32) ==
            Regs(Word(0xf54d8710), Word(0xaeb35766), Word(0x2e69afc7), Word(0x927b72e2))
  {
    hide Rounds, Shift, Index, T, LettersWords;
    Letters24();
    Constants24();
    Four(START, LettersWords(), 24, Word(0x25bfae3b), Word(0x89980104), Word(0xf8c8365f), Word(0xe6d3b398));
    Four(START, LettersWords(), 28, Word(0xf54d8710), Word(0x927b72e2), Word(0x2e69afc7), Word(0xaeb35766));
  }

  lemma Letters40()
    ensures Rounds(START, LettersWords(), 40) ==
            Regs(Word(0xb9c0c733), Word(0x8d41bf99), Word(0x23a9451b), Word(0xf1e6dc7a))
  {
    hide Rounds, Shift, Index, T, LettersWords;
    Letters32();
    Constants32();
    Four(START, LettersWords(), 32, Word(0xb4bf680e), Word(0x4c8ffa80), Word(0x2361ed0a), Word(0x06a5e211));
    Four(START, LettersWords(), 36, Word(0xb9c0c733), Word(0xf1e6dc7a), Word(0x23a9451b), Word(0x8d41bf99));
  }

  lemma Letters48()
    ensures Rounds(START, LettersWords(), 48) ==
            Regs(Word(0xb5d41f9c), Word(0x71d10367), Word(0x703d54d8), Word(0xa04b4904))
  {
    hide Rounds, Shift, Index, T, LettersWords;
    Letters40();
    Constants40();
    Four(START, LettersWords(), 40, Word(0xa3e88ead), Word(0x02c0b11c), Word(0x66f6468d), Word(0x90a35af5));
    Four(START, LettersWords(), 44, Word(0xb5d41f9c), Word(0xa04b4904), Word(0x703d54d8), Word(0x71d10367));
  }

  lemma Letters56()
    ensures Rounds(START, LettersWords(), 56) ==
            Regs(Word(0xc1e942f1), Word(0x83877d1b), Word(0x23a68048), Word(0xd9bb987c))
  {
    hide Rounds, Shift, Index, T, LettersWords;
    Letters48();
    Constants48();
    Four(START, LettersWords(), 48, Word(0xfc32dd6e), Word(0x65456b34), Word(0xb35602cb), Word(0x33edb197));
    Four(START, LettersWords(), 52, Word(0xc1e942f1), Word(0xd9bb987c), Word(0x23a68048), Word(0x83877d1b));
  }

  lemma Letters64()
    ensures Rounds(START, LettersWords(), 64) ==
            Regs(Word(0x708ed9c2), Word(0x1116e6d8), Word(0xd38f1e7f), Word(0x2baf1354))
  {
    hide Rounds, Shift, Index, T, LettersWords;
    Letters56();
    Constants56();
    Four(START, LettersWords(), 56, Word(0x0077c208), Word(0x847fc2e7), Word(0xa3e2247f), Word(0x5e6bc930));
    Four(START, LettersWords(), 60, Word(0x708ed9c2), Word(0x2baf1354), Word(0xd38f1e7f), Word(0x1116e6d8));
  }

  // ----- The first block of "ABCDEFGHIJKLMNOPQRSTUVWXYZabcdefghijklmnopqrstuvwxyz0123456789" -----

  function MixedAWords(): (x: seq<Word>)
    ensures |x| == 16
    ensures x[0] == Word(0x44434241) && x[1] == Word(0x48474645) && x[2] == Word(0x4c4b4a49) &&
            x[3] == Word(0x504f4e4d) && x[4] == Word(0x54535251) && x[5] == Word(0x58575655) &&
            x[6] == Word(0x62615a59) && x[7] == Word(0x66656463) && x[8] == Word(0x6a696867) &&
            x[9] == Word(0x6e6d6c6b) && x[10] == Word(0x7271706f) && x[11] == Word(0x76757473) &&
            x[12] == Word(0x7a797877) && x[13] == Word(0x33323130) && x[14] == Word(0x37363534) &&
            x[15] == Word(0x00803938)
  {
    [Word(0x44434241), Word(0x48474645), Word(0x4c4b4a49), Word(0x504f4e4d), Word(0x54535251), Word(0x58575655),
     Word(0x62615a59), Word(0x66656463), Word(0x6a696867), Word(0x6e6d6c6b), Word(0x7271706f), Word(0x76757473),
     Word(0x7a797877), Word(0x33323130), Word(0x37363534), Word(0x00803938)]
  }

  lemma MixedA8()
    ensures Rounds(START, MixedAWords(), 8) ==
            Regs(Word(0xf22e6c4e), Word(0xa4799506), Word(0xa95a2fc0), Word(0xb4ac9218))
  {
    hide Rounds, Shift, Index, T, MixedAWords;
    RoundsStep(START, MixedAWords(), 0);
    Constants0();
    Four(START, MixedAWords(), 0, Word(0xc6c10796), Word(0x99a09999), Word(0x11067980), Word(0x27bce07a));
    Four(START, MixedAWords(), 4, Word(0xf22e6c4e), Word(0xb4ac9218), Word(0xa95a2fc0), Word(0xa4799506));
  }

  lemma MixedA16()
    ensures Rounds(START, MixedAWords(), 16) ==
            Regs(Word(0x3cbdcd45), Word(0x5d38e690), Word(0xfa148c8a), Word(0xb8dec763))
  {
    hide Rounds, Shift, Index, T, MixedAWords;
    MixedA8();
    Constants8();
    Four(START, MixedAWords(), 8, Word(0x1eb3e7c1), Word(0xa6e70cfe), Word(0xca27520b), Word(0x8a7612ec));
    Four(START, MixedAWords(), 12, Word(0x3cbdcd45), Word(0xb8dec763), Word(0xfa148c8a), Word(0x5d38e690));
  }

  lemma MixedA24()
    ensures Rounds(START, MixedAWords(), 24) ==
            Regs(Word(0x2d7d8a3f), Word(0x75292030), Word(0x4b534dc3), Word(0xd1210823))
  {
    hide Rounds, Shift, Index, T, MixedAWords;
    MixedA16();
    Constants16();
    Four(START, MixedAWords(), 16, Word(0x04b9d52a), Word(0x783002eb), Word(0xd3ee3ed1), Word(0x47ae7c81));
    Four(START, MixedAWords(), 20, Word(0x2d7d8a3f), Word(0xd1210823), Word(0x4b534dc3), Word(0x75292030));
  }

  lemma MixedA32()
    ensures Rounds(START, MixedAWords(), 32) ==
            Regs(Word(0x9b085fa9), Word(0xdd789ecc), Word(0x5993248f), Word(0x4400a9bd))
  {
    hide Rounds, Shift, Index, T, MixedAWords;
    MixedA24();
    Constants24();
    Four(START, MixedAWords(), 24, Word(0x9d2a6e33), Word(0x0e8d2e44), Word(0xd473b564), Word(0xf2ff6ea0));
    Four(START, MixedAWords(), 28, Word(0x9b085fa9), Word(0x4400a9bd), Word(0x5993248f), Word(0xdd789ecc));
  }

  lemma MixedA40()
    ensures Rounds(START, MixedAWords(), 40) ==
            Regs(Word(0x436b7fe9), Word(0xcf0341ed), Word(0xf404c2f6), Word(0x075800c1))
  {
    hide Rounds, Shift, Index, T, MixedAWords;
    MixedA32();
    Constants32();
    Four(START, MixedAWords(), 32, Word(0x21c8d2b7), Word(0x1d55a18e), Word(0x056ec119), Word(0x1b9504f8));
    Four(START, MixedAWords(), 36, Word(0x436b7fe9), Word(0x075800c1), Word(0xf404c2f6), Word(0xcf0341ed));
  }

  lemma MixedA48()
    ensures Rounds(START, MixedAWords(), 48) ==
            Regs(Word(0x2dbee21d), Word(0xf166f514), Word(0xee46e961), Word(0xe95c3a43))
  {
    hide Rounds, Shift, Index, T, MixedAWords;
    MixedA40();
    Constants40();
    Four(START, MixedAWords(), 40, Word(0x888e7d8a), Word(0xbbdaecd8), Word(0xce620273), Word(0x047b9419));
    Four(START, MixedAWords(), 44, Word(0x2dbee21d), Word(0xe95c3a43), Word(0xee46e961), Word(0xf166f514));
  }

  lemma MixedA56()
    ensures Rounds(START, MixedAWords(), 56) ==
            Regs(Word(0xa691d430), Word(0xefb0e72f), Word(0x3fc23df6), Word(0x528452f2))
  {
    hide Rounds, Shift, Index, T, MixedAWords;
    MixedA48();
    Constants48();
    Four(START, MixedAWords(), 48, Word(0xe47fd4f3), Word(0xfb887751), Word(0xf22aedcc), Word(0x7a13bc5c));
    Four(START, MixedAWords(), 52, Word(0xa691d430), Word(0x528452f2), Word(0x3fc23df6), Word(0xefb0e72f));
  }

  lemma MixedA64()
    ensures Rounds(START, MixedAWords(), 64) ==
            Regs(Word(0x1cb80f0a), Word(0xef2e3a46), Word(0x10f68731), Word(0xea3d3eb4))
  {
    hide Rounds, Shift, Index, T, MixedAWords;
    MixedA56();
    Constants56();
    Four(START, MixedAWords(), 56, Word(0x27145703), Word(0x21a11069), Word(0x374fbe79), Word(0x49d9a5b4));
    Four(START, MixedAWords(), 60, Word(0x1cb80f0a), Word(0xea3d3eb4), Word(0x10f68731), Word(0xef2e3a46));
  }

  // ----- The second block of "ABCDEFGHIJKLMNOPQRSTUVWXYZabcdefghijklmnopqrstuvwxyz0123456789" -----

  function MixedBWords(): (x: seq<Word>)
    ensures |x| == 16
    ensures x[0] == Word(0x00000000) && x[1] == Word(0x00000000) && x[2] == Word(0x00000000) &&
            x[3] == Word(0x00000000) && x[4] == Word(0x00000000) && x[5] == Word(0x00000000) &&
            x[6] == Word(0x00000000) && x[7] == Word(0x00000000) && x[8] == Word(0x00000000) &&
            x[9] == Word(0x00000000) && x[10] == Word(0x00000000) && x[11] == Word(0x00000000) &&
            x[12] == Word(0x00000000) && x[13] == Word(0x00000000) && x[14] == Word(0x000001f0) &&
            x[15] == Word(0x00000000)
  {
    [Word(0x00000000), Word(0x00000000), Word(0x00000000), Word(0x00000000), Word(0x00000000), Word(0x00000000),
     Word(0x00000000), Word(0x00000000), Word(0x00000000), Word(0x00000000), Word(0x00000000), Word(0x00000000),
     Word(0x00000000), Word(0x00000000), Word(0x000001f0), Word(0x00000000)]
  }

  /** The registers between the two blocks. */
  function MixedMiddle(): Regs {
    Regs(Word(0x83fd320b), Word(0xdefbe5cf), Word(0xa9b1642f), Word(0xfa6f932a))
  }

  lemma MixedB8()
    ensures Rounds(MixedMiddle(), MixedBWords(), 8) ==
            Regs(Word(0x75144433), Word(0x99b6b699), Word(0xc783cb60), Word(0xc8875807))
  {
    hide Rounds, Shift, Index, T, MixedBWords;
    RoundsStep(MixedMiddle(), MixedBWords(), 0);
    Constants0();
    Four(MixedMiddle(), MixedBWords(), 0, Word(0xeda23ed1), Word(0x989939cf), Word(0x3c307338), Word(0xddcf0634));
    Four(MixedMiddle(), MixedBWords(), 4, Word(0x75144433), Word(0xc8875807), Word(0xc783cb60), Word(0x99b6b699));
  }

  lemma MixedB16()
    ensures Rounds(MixedMiddle(), MixedBWords(), 16) ==
            Regs(Word(0xa70737da), Word(0xa36f556f), Word(0x96f6586e), Word(0x5473f8a7))
  {
    hide Rounds, Shift, Index, T, MixedBWords;
    MixedB8();
    Constants8();
    Four(MixedMiddle(), MixedBWords(), 8, Word(0xa60a3f69), Word(0xaa6630be), Word(0x64db26e9), Word(0x64cc7c5a));
    Four(MixedMiddle(), MixedBWords(), 12, Word(0xa70737da), Word(0x5473f8a7), Word(0x96f6586e), Word(0xa36f556f));
  }

  lemma MixedB24()
    ensures Rounds(MixedMiddle(), MixedBWords(), 24) ==
            Regs(Word(0xe04f070c), Word(0xdf35cb56), Word(0xc0d22b61), Word(0x2f3cd2a2))
  {
    hide Rounds, Shift, Index, T, MixedBWords;
    MixedB16();
    Constants16();
    Four(MixedMiddle(), MixedBWords(), 16, Word(0xa5050ad3), Word(0x28776046), Word(0x27dcd8b4), Word(0x82b8827c));
    Four(MixedMiddle(), MixedBWords(), 20, Word(0xe04f070c), Word(0x2f3cd2a2), Word(0xc0d22b61), Word(0xdf35cb56));
  }

  lemma MixedB32()
    ensures Rounds(MixedMiddle(), MixedBWords(), 32) ==
            Regs(Word(0x24eba695), Word(0x9c03e2e8), Word(0x10c42a2f), Word(0x4bd0378b))
  {
    hide Rounds, Shift, Index, T, MixedBWords;
    MixedB24();
    Constants24();
    Four(MixedMiddle(), MixedBWords(), 24, Word(0x242dd210), Word(0x576ace33), Word(0x5c295967), Word(0x2291191a));
    Four(MixedMiddle(), MixedBWords(), 28, Word(0x24eba695), Word(0x4bd0378b), Word(0x10c42a2f), Word(0x9c03e2e8));
  }

  lemma MixedB40()
    ensures Rounds(MixedMiddle(), MixedBWords(), 40) ==
            Regs(Word(0xe14e403d), Word(0xfe314121), Word(0x60cc183a), Word(0xe8cfd670))
  {
    hide Rounds, Shift, Index, T, MixedBWords;
    MixedB32();
    Constants32();
    Four(MixedMiddle(), MixedBWords(), 32, Word(0x5be1d526), Word(0x9e414279), Word(0x9f4a1a7e), Word(0xa2448453));
    Four(MixedMiddle(), MixedBWords(), 36, Word(0xe14e403d), Word(0xe8cfd670), Word(0x60cc183a), Word(0xfe314121));
  }

  lemma MixedB48()
    ensures Rounds(MixedMiddle(), MixedBWords(), 48) ==
            Regs(Word(0x54c9eb3a), Word(0x79c0710a), Word(0x2ec86f72), Word(0xd4d9c6ac))
  {
    hide Rounds, Shift, Index, T, MixedBWords;
    MixedB40();
    Constants40();
    Four(MixedMiddle(), MixedBWords(), 40, Word(0xfff62809), Word(0xe37209ac), Word(0x8cb5221c), Word(0x7c7e974c));
    Four(MixedMiddle(), MixedBWords(), 44, Word(0x54c9eb3a), Word(0xd4d9c6ac), Word(0x2ec86f72), Word(0x79c0710a));
  }

  lemma MixedB56()
    ensures Rounds(MixedMiddle(), MixedBWords(), 56) ==
            Regs(Word(0xe126c1aa), Word(0xfb7bcee0), Word(0x6f287ff5), Word(0x96b00fa7))
  {
    hide Rounds, Shift, Index, T, MixedBWords;
    MixedB48();
    Constants48();
    Four(MixedMiddle(), MixedBWords(), 48, Word(0x02095af1), Word(0x13d245fd), Word(0xa8dcfe26), Word(0x2ba98e3f));
    Four(MixedMiddle(), MixedBWords(), 52, Word(0xe126c1aa), Word(0x96b00fa7), Word(0x6f287ff5), Word(0xfb7bcee0));
  }

  lemma MixedB64()
    ensures Rounds(MixedMiddle(), MixedBWords(), 64) ==
            Regs(Word(0x14ae42c6), Word(0x16dd9203), Word(0x826afd76), Word(0xa52dae75))
  {
    hide Rounds, Shift, Index, T, MixedBWords;
    MixedB56();
    Constants56();
    Four(MixedMiddle(), MixedBWords(), 56, Word(0x452c1099), Word(0xca801ba6), Word(0xc197ea8e), Word(0x5ac74608));
    Four(MixedMiddle(), MixedBWords(), 60, Word(0x14ae42c6), Word(0xa52dae75), Word(0x826afd76), Word(0x16dd9203));
  }

  // ----- The first block of "12345678901234567890123456789012345678901234567890123456789012345678901234567890" -----

  function DigitsAWords(): (x: seq<Word>)
    ensures |x| == 16
    ensures x[0] == Word(0x34333231) && x[1] == Word(0x38373635) && x[2] == Word(0x32313039) &&
            x[3] == Word(0x36353433) && x[4] == Word(0x30393837) && x[5] == Word(0x34333231) &&
            x[6] == Word(0x38373635) && x[7] == Word(0x32313039) && x[8] == Word(0x36353433) &&
            x[9] == Word(0x30393837) && x[10] == Word(0x34333231) && x[11] == Word(0x38373635) &&
            x[12] == Word(0x32313039) && x[13] == Word(0x36353433) && x[14] == Word(0x30393837) &&
            x[15] == Word(0x34333231)
  {
    [Word(0x34333231), Word(0x38373635), Word(0x32313039), Word(0x36353433), Word(0x30393837), Word(0x34333231),
     Word(0x38373635), Word(0x32313039), Word(0x36353433), Word(0x30393837), Word(0x34333231), Word(0x38373635),
     Word(0x32313039), Word(0x36353433), Word(0x30393837), Word(0x34333231)]
  }

  lemma DigitsA8()
    ensures Rounds(START, DigitsAWords(), 8) ==
            Regs(Word(0x8c17de9f), Word(0xc57e78c1), Word(0xe99fec1b), Word(0xc0f32d81))
  {
    hide Rounds, Shift, Index, T, DigitsAWords;
    RoundsStep(START, DigitsAWords(), 0);
    Constants0();
    Four(START, DigitsAWords(), 0, Word(0xbeb8ff8e), Word(0x7d989d89), Word(0xf8cdf95d), Word(0x862797b0));
    Four(START, DigitsAWords(), 4, Word(0x8c17de9f), Word(0xc0f32d81), Word(0xe99fec1b), Word(0xc57e78c1));
  }

  lemma DigitsA16()
    ensures Rounds(START, DigitsAWords(), 16) ==
            Regs(Word(0x5157e49e), Word(0xaf506a03), Word(0x27e983a0), Word(0xffac907e))
  {
    hide Rounds, Shift, Index, T, DigitsAWords;
    DigitsA8();
    Constants8();
    Four(START, DigitsAWords(), 8, Word(0x7c0aceb7), Word(0x8869d2d8), Word(0x5186a8ba), Word(0xa5f36f8d));
    Four(START, DigitsAWords(), 12, Word(0x5157e49e), Word(0xffac907e), Word(0x27e983a0), Word(0xaf506a03));
  }

  lemma DigitsA24()
    ensures Rounds(START, DigitsAWords(), 24) ==
            Regs(Word(0x78929ee0), Word(0xad400a91), Word(0xb18aca50), Word(0x375c6c2c))
  {
    hide Rounds, Shift, Index, T, DigitsAWords;
    DigitsA16();
    Constants16();
    Four(START, DigitsAWords(), 16, Word(0x8d18e0e8), Word(0x07de0df2), Word(0xef223167), Word(0x04280170));
    Four(START, DigitsAWords(), 20, Word(0x78929ee0), Word(0x375c6c2c), Word(0xb18aca50), Word(0xad400a91));
  }

  lemma DigitsA32()
    ensures Rounds(START, DigitsAWords(), 32) ==
            Regs(Word(0xf8bcfbb0), Word(0x1bf25662), Word(0x99a0f1b8), Word(0xd760ed39))
  {
    hide Rounds, Shift, Index, T, DigitsAWords;
    DigitsA24();
    Constants24();
    Four(START, DigitsAWords(), 24, Word(0xbb45f43f), Word(0xd61f8a0f), Word(0x98ade6b5), Word(0xb70e35a9));
    Four(START, DigitsAWords(), 28, Word(0xf8bcfbb0), Word(0xd760ed39), Word(0x99a0f1b8), Word(0x1bf25662));
  }

  lemma DigitsA40()
    ensures Rounds(START, DigitsAWords(), 40) ==
            Regs(Word(0x3b32c408), Word(0x1d4d6f72), Word(0x9ef871ad), Word(0x7338d8b7))
  {
    hide Rounds, Shift, Index, T, DigitsAWords;
    DigitsA32();
    Constants32();
    Four(START, DigitsAWords(), 32, Word(0x3dbd76ca), Word(0xfd056171), Word(0xc7ed7c30), Word(0xe0162f49));
    Four(START, DigitsAWords(), 36, Word(0x3b32c408), Word(0x7338d8b7), Word(0x9ef871ad), Word(0x1d4d6f72));
  }

  lemma DigitsA48()
    ensures Rounds(START, DigitsAWords(), 48) ==
            Regs(Word(0x697032ec), Word(0xdb4197da), Word(0xefc2c171), Word(0xfa597bfc))
  {
    hide Rounds, Shift, Index, T, DigitsAWords;
    DigitsA40();
    Constants40();
    Four(START, DigitsAWords(), 40, Word(0xc661460a), Word(0xd2bf04c9), Word(0xd6d5b879), Word(0x89e3c4d7));
    Four(START, DigitsAWords(), 44, Word(0x697032ec), Word(0xfa597bfc), Word(0xefc2c171), Word(0xdb4197da));
  }

  lemma DigitsA56()
    ensures Rounds(START, DigitsAWords(), 56) ==
            Regs(Word(0x633d3f7c), Word(0x7713f5df), Word(0xccaa1524), Word(0x1a4d3beb))
  {
    hide Rounds, Shift, Index, T, DigitsAWords;
    DigitsA48();
    Constants48();
    Four(START, DigitsAWords(), 48, Word(0x57b91aca), Word(0x210c9ebc), Word(0x21efbd88), Word(0xcaa25b01));
    Four(START, DigitsAWords(), 52, Word(0x633d3f7c), Word(0x1a4d3beb), Word(0xccaa1524), Word(0x7713f5df));
  }

  lemma DigitsA64()
    ensures Rounds(START, DigitsAWords(), 64) ==
            Regs(Word(0x614868eb), Word(0xb4d33102), Word(0x5133129b), Word(0xa09f38a7))
  {
    hide Rounds, Shift, Index, T, DigitsAWords;
    DigitsA56();
    Constants56();
    Four(START, DigitsAWords(), 56, Word(0x8448b430), Word(0x71c93463), Word(0x7e294727), Word(0x660a801d));
    Four(START, DigitsAWords(), 60, Word(0x614868eb), Word(0xa09f38a7), Word(0x5133129b), Word(0xb4d33102));
  }

  // ----- The second block of "12345678901234567890123456789012345678901234567890123456789012345678901234567890" -----

  function DigitsBWords(): (x: seq<Word>)
    ensures |x| == 16
    ensures x[0] == Word(0x38373635) && x[1] == Word(0x32313039) && x[2] == Word(0x36353433) &&
            x[3] == Word(0x30393837) && x[4] == Word(0x00000080) && x[5] == Word(0x00000000) &&
            x[6] == Word(0x00000000) && x[7] == Word(0x00000000) && x[8] == Word(0x00000000) &&
            x[9] == Word(0x00000000) && x[10] == Word(0x00000000) && x[11] == Word(0x00000000) &&
            x[12] == Word(0x00000000) && x[13] == Word(0x00000000) && x[14] == Word(0x00000280) &&
            x[15] == Word(0x00000000)
  {
    [Word(0x38373635), Word(0x32313039), Word(0x36353433), Word(0x30393837), Word(0x00000080), Word(0x00000000),
     Word(0x00000000), Word(0x00000000), Word(0x00000000), Word(0x00000000), Word(0x00000000), Word(0x00000000),
     Word(0x00000000), Word(0x00000000), Word(0x00000280), Word(0x00000000)]
  }

  /** The registers between the two blocks. */
  function DigitsMiddle(): Regs {
    Regs(Word(0xc88d8bec), Word(0xa4a0dc8b), Word(0xe9edef99), Word(0xb0d18d1d))
  }

  lemma DigitsB8()
    ensures Rounds(DigitsMiddle(), DigitsBWords(), 8) ==
            Regs(Word(0x3527497e), Word(0x377c7d0a), Word(0x948347ae), Word(0xab92660e))
  {
    hide Rounds, Shift, Index, T, DigitsBWords;
    RoundsStep(DigitsMiddle(), DigitsBWords(), 0);
    Constants0();
    Four(DigitsMiddle(), DigitsBWords(), 0, Word(0x353af7cf), Word(0x3a4f735a), Word(0x63356537), Word(0x45e88f2c));
    Four(DigitsMiddle(), DigitsBWords(), 4, Word(0x3527497e), Word(0xab92660e), Word(0x948347ae), Word(0x377c7d0a));
  }

  lemma DigitsB16()
    ensures Rounds(DigitsMiddle(), DigitsBWords(), 16) ==
            Regs(Word(0xdb4ff71c), Word(0x58b12eab), Word(0x04396a39), Word(0x9b6b4960))
  {
    hide Rounds, Shift, Index, T, DigitsBWords;
    DigitsB8();
    Constants8();
    Four(DigitsMiddle(), DigitsBWords(), 8, Word(0xcc912f27), Word(0x6945a3d5), Word(0xae23894d), Word(0xb9ede40c));
    Four(DigitsMiddle(), DigitsBWords(), 12, Word(0xdb4ff71c), Word(0x9b6b4960), Word(0x04396a39), Word(0x58b12eab));
  }

  lemma DigitsB24()
    ensures Rounds(DigitsMiddle(), DigitsBWords(), 24) ==
            Regs(Word(0x0d6e6d91), Word(0x043cb080), Word(0xd5b7a850), Word(0x17d64195))
  {
    hide Rounds, Shift, Index, T, DigitsBWords;
    DigitsB16();
    Constants16();
    Four(DigitsMiddle(), DigitsBWords(), 16, Word(0x52c00cae), Word(0xaad2a216), Word(0xa476af6f), Word(0x50f8de8c));
    Four(DigitsMiddle(), DigitsBWords(), 20, Word(0x0d6e6d91), Word(0x17d64195), Word(0xd5b7a850), Word(0x043cb080));
  }

  lemma DigitsB32()
    ensures Rounds(DigitsMiddle(), DigitsBWords(), 32) ==
            Regs(Word(0x8761f38e), Word(0x67092c33), Word(0x061bc867), Word(0x7a516116))
  {
    hide Rounds, Shift, Index, T, DigitsBWords;
    DigitsB24();
    Constants24();
    Four(DigitsMiddle(), DigitsBWords(), 24, Word(0x74f9377e), Word(0x01f2addd), Word(0xe775c8ca), Word(0xcb00b96e));
    Four(DigitsMiddle(), DigitsBWords(), 28, Word(0x8761f38e), Word(0x7a516116), Word(0x061bc867), Word(0x67092c33));
  }

  lemma DigitsB40()
    ensures Rounds(DigitsMiddle(), DigitsBWords(), 40) ==
            Regs(Word(0xae26ed7d), Word(0xdbd1bff6), Word(0xff4a94dc), Word(0x71d8ecea))
  {
    hide Rounds, Shift, Index, T, DigitsBWords;
    DigitsB32();
    Constants32();
    Four(DigitsMiddle(), DigitsBWords(), 32, Word(0x91044d5d), Word(0x610954eb), Word(0xc0175fa8), Word(0x2ee1e3fe));
    Four(DigitsMiddle(), DigitsBWords(), 36, Word(0xae26ed7d), Word(0x71d8ecea), Word(0xff4a94dc), Word(0xdbd1bff6));
  }

  lemma DigitsB48()
    ensures Rounds(DigitsMiddle(), DigitsBWords(), 48) ==
            Regs(Word(0x71123afa), Word(0x1df7010a), Word(0xe6a8a386), Word(0xdc9c8ddb))
  {
    hide Rounds, Shift, Index, T, DigitsBWords;
    DigitsB40();
    Constants40();
    Four(DigitsMiddle(), DigitsBWords(), 40, Word(0x9c350028), Word(0x97e5da92), Word(0xfacaaf06), Word(0x56b3692f));
    Four(DigitsMiddle(), DigitsBWords(), 44, Word(0x71123afa), Word(0xdc9c8ddb), Word(0xe6a8a386), Word(0x1df7010a));
  }

  lemma DigitsB56()
    ensures Rounds(DigitsMiddle(), DigitsBWords(), 56) ==
            Regs(Word(0x7a504abd), Word(0x9b31b114), Word(0xa290d6ce), Word(0x211cc65d))
  {
    hide Rounds, Shift, Index, T, DigitsBWords;
    DigitsB48();
    Constants48();
    Four(DigitsMiddle(), DigitsBWords(), 48, Word(0xd29007e7), Word(0x7241a77e), Word(0xd3248109), Word(0xc8797828));
    Four(DigitsMiddle(), DigitsBWords(), 52, Word(0x7a504abd), Word(0x211cc65d), Word(0xa290d6ce), Word(0x9b31b114));
  }

  lemma DigitsB64()
    ensures Rounds(DigitsMiddle(), DigitsBWords(), 64) ==
            Regs(Word(0xda67616b), Word(0xb12906a0), Word(0x44ec5a13), Word(0xc9e47a04))
  {
    hide Rounds, Shift, Index, T, DigitsBWords;
    DigitsB56();
    Constants56();
    Four(DigitsMiddle(), DigitsBWords(), 56, Word(0x723fd22d), Word(0xd21d6a3b), Word(0x3d79cf74), Word(0x4dc4f33d));
    Four(DigitsMiddle(), DigitsBWords(), 60, Word(0xda67616b), Word(0xc9e47a04), Word(0x44ec5a13), Word(0xb12906a0));
  }
}
