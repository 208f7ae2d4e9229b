/** The eighty rounds of SHA-1 on the blocks of the messages in its self-test, a few rounds at a time with the values of
    the registers in between. */
module Sha1Answers {
  import opened Common
  import opened Words
  import opened Sha1

  const START: Regs :=
    Regs(Word(0x67452301), Word(0xefcdab89), Word(0x98badcfe), Word(0x10325476), Word(0xc3d2e1f0))

  /** Four rounds from known registers. */
  lemma Four(r: Regs, b: seq<byte>, t: nat, v1: Word, v2: Word, v3: Word, v4: Word)
    requires |b| == 64
    requires var s := Rounds(r, b, t);
             && Round(s, t, W(b, t)).a == v1
             && Round(Regs(v1, s.a, Rotl(s.b, 30), s.c, s.d), t + 1, W(b, t + 1)).a == v2
             && Round(Regs(v2, v1, Rotl(s.a, 30), Rotl(s.b, 30), s.c), t + 2, W(b, t + 2)).a == v3
             && Round(Regs(v3, v2, Rotl(v1, 30), Rotl(s.a, 30), Rotl(s.b, 30)), t + 3, W(b, t + 3)).a == v4
    ensures Rounds(r, b, t + 4) == Regs(v4, v3, Rotl(v2, 30), Rotl(v1, 30), Rotl(Rounds(r, b, t).a, 30))
  {
    RoundsStep(r, b, t);
    RoundsStep(r, b, t + 1);
    RoundsStep(r, b, t + 2);
    RoundsStep(r, b, t + 3);
  }

  lemma Literals()
    ensures FromBytes(0, 0, 0, 0) == Word(0) && FromBytes(0, 0, 0, 0x18) == Word(0x18)
    ensures FromBytes(0x61, 0x62, 0x63, 0x80) == Word(0x61626380) && FromBytes(0x80, 0, 0, 0) == Word(0x80000000)
  {
  }

  lemma WordIs(b: seq<byte>, t: nat, w: Word)
    requires |b| == 64 && 16 <= t
    requires Rotl(Xor(Xor(Xor(W(b, t - 3), W(b, t - 8)), W(b, t - 14)), W(b, t - 16)), 1) == w
    ensures W(b, t) == w
  {
  }

  // ----- The block of "" -----

  function EmptyByte(i: nat): byte {
    if i == 0 then 0x80 else 0
  }

  function EmptyBlock(): (b: seq<byte>)
    ensures |b| == 64 && forall i :: 0 <= i < 64 ==> b[i] == EmptyByte(i)
  {
    seq(64, i requires 0 <= i < 64 => EmptyByte(i))
  }

  lemma EmptyWords0(b: seq<byte>)
    requires b == EmptyBlock()
    ensures W(b, 0) == Word(0x80000000) && W(b, 1) == Word(0x00000000) && W(b, 2) == Word(0x00000000) &&
            W(b, 3) == Word(0x00000000) && W(b, 4) == Word(0x00000000) && W(b, 5) == Word(0x00000000) &&
            W(b, 6) == Word(0x00000000) && W(b, 7) == Word(0x00000000) && W(b, 8) == Word(0x00000000) &&
            W(b, 9) == Word(0x00000000) && W(b, 10) == Word(0x00000000) && W(b, 11) == Word(0x00000000) &&
            W(b, 12) == Word(0x00000000) && W(b, 13) == Word(0x00000000) && W(b, 14) == Word(0x00000000) &&
            W(b, 15) == Word(0x00000000)
  {
    hide FromBytes, EmptyBlock;
    Literals();
  }

  lemma EmptyWords16(b: seq<byte>)
    requires b == EmptyBlock()
    ensures W(b, 16) == Word(0x00000001) && W(b, 17) == Word(0x00000000) && W(b, 18) == Word(0x00000000) &&
            W(b, 19) == Word(0x00000002) && W(b, 20) == Word(0x00000000) && W(b, 21) == Word(0x00000000) &&
            W(b, 22) == Word(0x00000004) && W(b, 23) == Word(0x00000000)
  {
    hide W, EmptyBlock;
    EmptyWords0(b);
    WordIs(b, 16, Word(0x00000001));
    WordIs(b, 17, Word(0x00000000));
    WordIs(b, 18, Word(0x00000000));
    WordIs(b, 19, Word(0x00000002));
    WordIs(b, 20, Word(0x00000000));
    WordIs(b, 21, Word(0x00000000));
    WordIs(b, 22, Word(0x00000004));
    WordIs(b, 23, Word(0x00000000));
  }

  lemma EmptyWords24(b: seq<byte>)
    requires b == EmptyBlock()
    ensures W(b, 24) == Word(0x00000002) && W(b, 25) == Word(0x00000008) && W(b, 26) == Word(0x00000000) &&
            W(b, 27) == Word(0x00000000) && W(b, 28) == Word(0x00000010) && W(b, 29) == Word(0x00000000) &&
            W(b, 30) == Word(0x0000000a) && W(b, 31) == Word(0x00000020)
  {
    hide W, EmptyBlock;
    EmptyWords0(b);
    EmptyWords16(b);
    WordIs(b, 24, Word(0x00000002));
    WordIs(b, 25, Word(0x00000008));
    WordIs(b, 26, Word(0x00000000));
    WordIs(b, 27, Word(0x00000000));
    WordIs(b, 28, Word(0x00000010));
    WordIs(b, 29, Word(0x00000000));
    WordIs(b, 30, Word(0x0000000a));
    WordIs(b, 31, Word(0x00000020));
  }

  lemma EmptyWords32(b: seq<byte>)
    requires b == EmptyBlock()
    ensures W(b, 32) == Word(0x00000006) && W(b, 33) == Word(0x00000000) && W(b, 34) == Word(0x00000040) &&
            W(b, 35) == Word(0x00000008) && W(b, 36) == Word(0x00000028) && W(b, 37) == Word(0x00000080) &&
            W(b, 38) == Word(0x00000008) && W(b, 39) == Word(0x00000000)
  {
    hide W, EmptyBlock;
    EmptyWords16(b);
    EmptyWords24(b);
    WordIs(b, 32, Word(0x00000006));
    WordIs(b, 33, Word(0x00000000));
    WordIs(b, 34, Word(0x00000040));
    WordIs(b, 35, Word(0x00000008));
    WordIs(b, 36, Word(0x00000028));
    WordIs(b, 37, Word(0x00000080));
    WordIs(b, 38, Word(0x00000008));
    WordIs(b, 39, Word(0x00000000));
  }

  lemma EmptyWords40(b: seq<byte>)
    requires b == EmptyBlock()
    ensures W(b, 40) == Word(0x00000108) && W(b, 41) == Word(0x00000000) && W(b, 42) == Word(0x000000a0) &&
            W(b, 43) == Word(0x00000200) && W(b, 44) == Word(0x00000064) && W(b, 45) == Word(0x00000000) &&
            W(b, 46) == Word(0x00000408) && W(b, 47) == Word(0x00000088)
  {
    hide W, EmptyBlock;
    EmptyWords24(b);
    EmptyWords32(b);
    WordIs(b, 40, Word(0x00000108));
    WordIs(b, 41, Word(0x00000000));
    WordIs(b, 42, Word(0x000000a0));
    WordIs(b, 43, Word(0x00000200));
    WordIs(b, 44, Word(0x00000064));
    WordIs(b, 45, Word(0x00000000));
    WordIs(b, 46, Word(0x00000408));
    WordIs(b, 47, Word(0x00000088));
  }

  lemma EmptyWords48(b: seq<byte>)
    requires b == EmptyBlock()
    ensures W(b, 48) == Word(0x0000029c) && W(b, 49) == Word(0x00000800) && W(b, 50) == Word(0x00000080) &&
            W(b, 51) == Word(0x00000028) && W(b, 52) == Word(0x00001088) && W(b, 53) == Word(0x00000000) &&
            W(b, 54) == Word(0x00000a40) && W(b, 55) == Word(0x00002000)
  {
    hide W, EmptyBlock;
    EmptyWords32(b);
    EmptyWords40(b);
    WordIs(b, 48, Word(0x0000029c));
    WordIs(b, 49, Word(0x00000800));
    WordIs(b, 50, Word(0x00000080));
    WordIs(b, 51, Word(0x00000028));
    WordIs(b, 52, Word(0x00001088));
    WordIs(b, 53, Word(0x00000000));
    WordIs(b, 54, Word(0x00000a40));
    WordIs(b, 55, Word(0x00002000));
  }

  lemma EmptyWords56(b: seq<byte>)
    requires b == EmptyBlock()
    ensures W(b, 56) == Word(0x00000668) && W(b, 57) == Word(0x00000080) && W(b, 58) == Word(0x00004088) &&
            W(b, 59) == Word(0x00000880) && W(b, 60) == Word(0x000028c8) && W(b, 61) == Word(0x00008000) &&
            W(b, 62) == Word(0x000008a8) && W(b, 63) == Word(0x00000080)
  {
    hide W, EmptyBlock;
    EmptyWords40(b);
    EmptyWords48(b);
    WordIs(b, 56, Word(0x00000668));
    WordIs(b, 57, Word(0x00000080));
    WordIs(b, 58, Word(0x00004088));
    WordIs(b, 59, Word(0x00000880));
    WordIs(b, 60, Word(0x000028c8));
    WordIs(b, 61, Word(0x00008000));
    WordIs(b, 62, Word(0x000008a8));
    WordIs(b, 63, Word(0x00000080));
  }

  lemma EmptyWords64(b: seq<byte>)
    requires b == EmptyBlock()
    ensures W(b, 64) == Word(0x000108e8) && W(b, 65) == Word(0x00000000) && W(b, 66) == Word(0x0000a000) &&
            W(b, 67) == Word(0x00020080) && W(b, 68) == Word(0x00006400) && W(b, 69) == Word(0x00000000) &&
            W(b, 70) == Word(0x00040800) && W(b, 71) == Word(0x00008800)
  {
    hide W, EmptyBlock;
    EmptyWords48(b);
    EmptyWords56(b);
    WordIs(b, 64, Word(0x000108e8));
    WordIs(b, 65, Word(0x00000000));
    WordIs(b, 66, Word(0x0000a000));
    WordIs(b, 67, Word(0x00020080));
    WordIs(b, 68, Word(0x00006400));
    WordIs(b, 69, Word(0x00000000));
    WordIs(b, 70, Word(0x00040800));
    WordIs(b, 71, Word(0x00008800));
  }

  lemma EmptyWords72(b: seq<byte>)
    requires b == EmptyBlock()
    ensures W(b, 72) == Word(0x00029c10) && W(b, 73) == Word(0x00080000) && W(b, 74) == Word(0x00008080) &&
            W(b, 75) == Word(0x00002820) && W(b, 76) == Word(0x001088c0) && W(b, 77) == Word(0x00000000) &&
            W(b, 78) == Word(0x000a40c0) && W(b, 79) == Word(0x00200080)
  {
    hide W, EmptyBlock;
    EmptyWords56(b);
    EmptyWords64(b);
    WordIs(b, 72, Word(0x00029c10));
    WordIs(b, 73, Word(0x00080000));
    WordIs(b, 74, Word(0x00008080));
    WordIs(b, 75, Word(0x00002820));
    WordIs(b, 76, Word(0x001088c0));
    WordIs(b, 77, Word(0x00000000));
    WordIs(b, 78, Word(0x000a40c0));
    WordIs(b, 79, Word(0x00200080));
  }

  lemma Empty8()
    ensures Rounds(START, EmptyBlock(), 8) ==
            Regs(Word(0x87074800), Word(0xc09d7f27), Word(0xb912add9), Word(0x9254d597), Word(0x737b3ed7))
  {
    hide W, Rounds, EmptyBlock;
    RoundsStep(START, EmptyBlock(), 0);
    EmptyWords0(EmptyBlock());
    Four(START, EmptyBlock(), 0, Word(0x1fb498b3), Word(0x5d43e370), Word(0x158d2f62), Word(0xcdecfb5d));
    Four(START, EmptyBlock(), 4, Word(0x4953565e), Word(0xe44ab766), Word(0xc09d7f27), Word(0x87074800));
  }

  lemma Empty16()
    ensures Rounds(START, EmptyBlock(), 16) ==
            Regs(Word(0xd8fd6547), Word(0x40182905), Word(0x4544b22e), Word(0xa13017ac), Word(0xab703832))
  {
    hide W, Rounds, EmptyBlock;
    Empty8();
    EmptyWords0(EmptyBlock());
    Four(START, EmptyBlock(), 8, Word(0x41376611), Word(0xcbdbff31), Word(0x40166973), Word(0xadc0e0ca));
    Four(START, EmptyBlock(), 12, Word(0x84c05eb2), Word(0x1512c8b9), Word(0x40182905), Word(0xd8fd6547));
  }

  lemma Empty24()
    ensures Rounds(START, EmptyBlock(), 24) ==
            Regs(Word(0x1e97b73a), Word(0x1c64d028), Word(0x5f6ede1f), Word(0x243ae614), Word(0xb9d63a36))
  {
    hide W, Rounds, EmptyBlock;
    Empty16();
    EmptyWords16(EmptyBlock());
    Four(START, EmptyBlock(), 16, Word(0x06bf9173), Word(0x28a9520e), Word(0x0b3088dd), Word(0xe758e8da));
    Four(START, EmptyBlock(), 20, Word(0x90eb9850), Word(0x7dbb787d), Word(0x1c64d028), Word(0x1e97b73a));
  }

  lemma Empty32()
    ensures Rounds(START, EmptyBlock(), 32) ==
            Regs(Word(0x62ea3d59), Word(0x6a2e466e), Word(0xf29155b2), Word(0xe1d2de1b), Word(0x71ec478b))
  {
    hide W, Rounds, EmptyBlock;
    Empty24();
    EmptyWords24(EmptyBlock());
    Four(START, EmptyBlock(), 24, Word(0x62d7f53f), Word(0x34f3d6d8), Word(0x4f2ed1c1), Word(0xc7b11e2d));
    Four(START, EmptyBlock(), 28, Word(0x874b786f), Word(0xca4556cb), Word(0x6a2e466e), Word(0x62ea3d59));
  }

  lemma Empty40()
    ensures Rounds(START, EmptyBlock(), 40) ==
            Regs(Word(0x9bdbdd71), Word(0x62273351), Word(0xec805e22), Word(0x413c1d9a), Word(0x2aeeae62))
  {
    hide W, Rounds, EmptyBlock;
    Empty32();
    EmptyWords32(EmptyBlock());
    Four(START, EmptyBlock(), 32, Word(0xb77bac25), Word(0x4b1347e2), Word(0x391ef0c4), Word(0xabbab988));
    Four(START, EmptyBlock(), 36, Word(0x04f07669), Word(0xb201788b), Word(0x62273351), Word(0x9bdbdd71));
  }

  lemma Empty48()
    ensures Rounds(START, EmptyBlock(), 48) ==
            Regs(Word(0xe6d39f43), Word(0xa195ba90), Word(0xebf9a56a), Word(0x77878e80), Word(0xbea542ae))
  {
    hide W, Rounds, EmptyBlock;
    Empty40();
    EmptyWords40(EmptyBlock());
    Four(START, EmptyBlock(), 40, Word(0x95aa398b), Word(0x5e28e858), Word(0x95642485), Word(0xfa950aba));
    Four(START, EmptyBlock(), 44, Word(0xde1e3a01), Word(0xafe695ab), Word(0xa195ba90), Word(0xe6d39f43));
  }

  lemma Empty56()
    ensures Rounds(START, EmptyBlock(), 56) ==
            Regs(Word(0xbe4a4bea), Word(0x8590c0e8), Word(0xab95b950), Word(0xd5b39cea), Word(0x38960738))
  {
    hide W, Rounds, EmptyBlock;
    Empty48();
    EmptyWords48(EmptyBlock());
    Four(START, EmptyBlock(), 48, Word(0x0bca9922), Word(0x6ae826ff), Word(0x01ff3253), Word(0xe2581ce0));
    Four(START, EmptyBlock(), 52, Word(0x56ce73ab), Word(0xae56e542), Word(0x8590c0e8), Word(0xbe4a4bea));
  }

  lemma Empty64()
    ensures Rounds(START, EmptyBlock(), 64) ==
            Regs(Word(0xbb0f226f), Word(0xcd98fbb7), Word(0xe16e7489), Word(0xf4df6e4d), Word(0xe6e74a44))
  {
    hide W, Rounds, EmptyBlock;
    Empty56();
    EmptyWords56(EmptyBlock());
    Four(START, EmptyBlock(), 56, Word(0x168ce0bb), Word(0xe1afab22), Word(0x982bcbca), Word(0x9b9d2913));
    Four(START, EmptyBlock(), 60, Word(0xd37db937), Word(0x85b9d227), Word(0xcd98fbb7), Word(0xbb0f226f));
  }

  lemma Empty72()
    ensures Rounds(START, EmptyBlock(), 72) ==
            Regs(Word(0xb47ddf0e), Word(0x3cd517f9), Word(0x140f1eb8), Word(0xe2e80189), Word(0x39e6befc))
  {
    hide W, Rounds, EmptyBlock;
    Empty64();
    EmptyWords64(EmptyBlock());
    Four(START, EmptyBlock(), 64, Word(0xeb59446c), Word(0xd37225cb), Word(0x111341f3), Word(0xe79afbf0));
    Four(START, EmptyBlock(), 68, Word(0x8ba00627), Word(0x503c7ae0), Word(0x3cd517f9), Word(0xb47ddf0e));
  }

  lemma Empty80()
    ensures Rounds(START, EmptyBlock(), 80) ==
            Regs(Word(0x72f480ed), Word(0x6e9d9f84), Word(0x999ae2f1), Word(0x852dc41a), Word(0xec052519))
  {
    hide W, Rounds, EmptyBlock;
    Empty72();
    EmptyWords72(EmptyBlock());
    Four(START, EmptyBlock(), 72, Word(0x5e3a0780), Word(0x63db37b2), Word(0x15e98d17), Word(0xb0149467));
    Four(START, EmptyBlock(), 76, Word(0x14b7106a), Word(0x666b8bc6), Word(0x6e9d9f84), Word(0x72f480ed));
  }

  // ----- The block of "abc" -----

  function AbcByte(i: nat): byte {
    if i == 0 then 0x61 else if i == 1 then 0x62 else if i == 2 then 0x63 else if i == 3 then 0x80
    else if i == 63 then 0x18 else 0
  }

  function AbcBlock(): (b: seq<byte>)
    ensures |b| == 64 && forall i :: 0 <= i < 64 ==> b[i] == AbcByte(i)
  {
    seq(64, i requires 0 <= i < 64 => AbcByte(i))
  }

  lemma AbcWords0(b: seq<byte>)
    requires b == AbcBlock()
    ensures W(b, 0) == Word(0x61626380) && W(b, 1) == Word(0x00000000) && W(b, 2) == Word(0x00000000) &&
            W(b, 3) == Word(0x00000000) && W(b, 4) == Word(0x00000000) && W(b, 5) == Word(0x00000000) &&
            W(b, 6) == Word(0x00000000) && W(b, 7) == Word(0x00000000) && W(b, 8) == Word(0x00000000) &&
            W(b, 9) == Word(0x00000000) && W(b, 10) == Word(0x00000000) && W(b, 11) == Word(0x00000000) &&
            W(b, 12) == Word(0x00000000) && W(b, 13) == Word(0x00000000) && W(b, 14) == Word(0x00000000) &&
            W(b, 15) == Word(0x00000018)
  {
    hide FromBytes, AbcBlock;
    Literals();
  }

  lemma AbcWords16(b: seq<byte>)
    requires b == AbcBlock()
    ensures W(b, 16) == Word(0xc2c4c700) && W(b, 17) == Word(0x00000000) && W(b, 18) == Word(0x00000030) &&
            W(b, 19) == Word(0x85898e01) && W(b, 20) == Word(0x00000000) && W(b, 21) == Word(0x00000060) &&
            W(b, 22) == Word(0x0b131c03) && W(b, 23) == Word(0x00000030)
  {
    hide W, AbcBlock;
    AbcWords0(b);
    WordIs(b, 16, Word(0xc2c4c700));
    WordIs(b, 17, Word(0x00000000));
    WordIs(b, 18, Word(0x00000030));
    WordIs(b, 19, Word(0x85898e01));
    WordIs(b, 20, Word(0x00000000));
    WordIs(b, 21, Word(0x00000060));
    WordIs(b, 22, Word(0x0b131c03));
    WordIs(b, 23, Word(0x00000030));
  }

  lemma AbcWords24(b: seq<byte>)
    requires b == AbcBlock()
    ensures W(b, 24) == Word(0x85898ec1) && W(b, 25) == Word(0x16263806) && W(b, 26) == Word(0x00000000) &&
            W(b, 27) == Word(0x00000180) && W(b, 28) == Word(0x2c4c700c) && W(b, 29) == Word(0x000000f0) &&
            W(b, 30) == Word(0x93afb507) && W(b, 31) == Word(0x5898e048)
  {
    hide W, AbcBlock;
    AbcWords0(b);
    AbcWords16(b);
    WordIs(b, 24, Word(0x85898ec1));
    WordIs(b, 25, Word(0x16263806));
    WordIs(b, 26, Word(0x00000000));
    WordIs(b, 27, Word(0x00000180));
    WordIs(b, 28, Word(0x2c4c700c));
    WordIs(b, 29, Word(0x000000f0));
    WordIs(b, 30, Word(0x93afb507));
    WordIs(b, 31, Word(0x5898e048));
  }

  lemma AbcWords32(b: seq<byte>)
    requires b == AbcBlock()
    ensures W(b, 32) == Word(0x8e9a9202) && W(b, 33) == Word(0x00000600) && W(b, 34) == Word(0xb131c0f0) &&
            W(b, 35) == Word(0x16263bc6) && W(b, 36) == Word(0x4ebed41e) && W(b, 37) == Word(0x626380a1) &&
            W(b, 38) == Word(0x16263806) && W(b, 39) == Word(0x000018c0)
  {
    hide W, AbcBlock;
    AbcWords16(b);
    AbcWords24(b);
    WordIs(b, 32, Word(0x8e9a9202));
    WordIs(b, 33, Word(0x00000600));
    WordIs(b, 34, Word(0xb131c0f0));
    WordIs(b, 35, Word(0x16263bc6));
    WordIs(b, 36, Word(0x4ebed41e));
    WordIs(b, 37, Word(0x626380a1));
    WordIs(b, 38, Word(0x16263806));
    WordIs(b, 39, Word(0x000018c0));
  }

  lemma AbcWords40(b: seq<byte>)
    requires b == AbcBlock()
    ensures W(b, 40) == Word(0xd2e138c4) && W(b, 41) == Word(0x00000f00) && W(b, 42) == Word(0x3afb5079) &&
            W(b, 43) == Word(0x898e04e5) && W(b, 44) == Word(0xe2ba3c2b) && W(b, 45) == Word(0x000060c0) &&
            W(b, 46) == Word(0x053a37cd) && W(b, 47) == Word(0x74458547)
  {
    hide W, AbcBlock;
    AbcWords24(b);
    AbcWords32(b);
    WordIs(b, 40, Word(0xd2e138c4));
    WordIs(b, 41, Word(0x00000f00));
    WordIs(b, 42, Word(0x3afb5079));
    WordIs(b, 43, Word(0x898e04e5));
    WordIs(b, 44, Word(0xe2ba3c2b));
    WordIs(b, 45, Word(0x000060c0));
    WordIs(b, 46, Word(0x053a37cd));
    WordIs(b, 47, Word(0x74458547));
  }

  lemma AbcWords48(b: seq<byte>)
    requires b == AbcBlock()
    ensures W(b, 48) == Word(0xda9415ed) && W(b, 49) == Word(0x26380a16) && W(b, 50) == Word(0x626383a1) &&
            W(b, 51) == Word(0x4ebf54de) && W(b, 52) == Word(0x3835b44b) && W(b, 53) == Word(0x0000f600) &&
            W(b, 54) == Word(0x1e84c7a3) && W(b, 55) == Word(0x98e04d98)
  {
    hide W, AbcBlock;
    AbcWords32(b);
    AbcWords40(b);
    WordIs(b, 48, Word(0xda9415ed));
    WordIs(b, 49, Word(0x26380a16));
    WordIs(b, 50, Word(0x626383a1));
    WordIs(b, 51, Word(0x4ebf54de));
    WordIs(b, 52, Word(0x3835b44b));
    WordIs(b, 53, Word(0x0000f600));
    WordIs(b, 54, Word(0x1e84c7a3));
    WordIs(b, 55, Word(0x98e04d98));
  }

  lemma AbcWords56(b: seq<byte>)
    requires b == AbcBlock()
    ensures W(b, 56) == Word(0x651d16a0) && W(b, 57) == Word(0x62658ca1) && W(b, 58) == Word(0x458544d6) &&
            W(b, 59) == Word(0x44584cb7) && W(b, 60) == Word(0x7ba06619) && W(b, 61) == Word(0x6380aea2) &&
            W(b, 62) == Word(0x0ae55269) && W(b, 63) == Word(0x627b49a1)
  {
    hide W, AbcBlock;
    AbcWords40(b);
    AbcWords48(b);
    WordIs(b, 56, Word(0x651d16a0));
    WordIs(b, 57, Word(0x62658ca1));
    WordIs(b, 58, Word(0x458544d6));
    WordIs(b, 59, Word(0x44584cb7));
    WordIs(b, 60, Word(0x7ba06619));
    WordIs(b, 61, Word(0x6380aea2));
    WordIs(b, 62, Word(0x0ae55269));
    WordIs(b, 63, Word(0x627b49a1));
  }

  lemma AbcWords64(b: seq<byte>)
    requires b == AbcBlock()
    ensures W(b, 64) == Word(0x7cd45c9d) && W(b, 65) == Word(0x000f0000) && W(b, 66) == Word(0xfb50753a) &&
            W(b, 67) == Word(0xec6765e8) && W(b, 68) == Word(0xba3c2be2) && W(b, 69) == Word(0x0060c000) &&
            W(b, 70) == Word(0x3a37cd05) && W(b, 71) == Word(0x458546f4)
  {
    hide W, AbcBlock;
    AbcWords48(b);
    AbcWords56(b);
    WordIs(b, 64, Word(0x7cd45c9d));
    WordIs(b, 65, Word(0x000f0000));
    WordIs(b, 66, Word(0xfb50753a));
    WordIs(b, 67, Word(0xec6765e8));
    WordIs(b, 68, Word(0xba3c2be2));
    WordIs(b, 69, Word(0x0060c000));
    WordIs(b, 70, Word(0x3a37cd05));
    WordIs(b, 71, Word(0x458546f4));
  }

  lemma AbcWords72(b: seq<byte>)
    requires b == AbcBlock()
    ensures W(b, 72) == Word(0xb8599dd6) && W(b, 73) == Word(0x380a1a26) && W(b, 74) == Word(0x01e02203) &&
            W(b, 75) == Word(0xe7cc3456) && W(b, 76) == Word(0xe6e60b69) && W(b, 77) == Word(0x00f60a00) &&
            W(b, 78) == Word(0x5795ef4f) && W(b, 79) == Word(0x822e0879)
  {
    hide W, AbcBlock;
    AbcWords56(b);
    AbcWords64(b);
    WordIs(b, 72, Word(0xb8599dd6));
    WordIs(b, 73, Word(0x380a1a26));
    WordIs(b, 74, Word(0x01e02203));
    WordIs(b, 75, Word(0xe7cc3456));
    WordIs(b, 76, Word(0xe6e60b69));
    WordIs(b, 77, Word(0x00f60a00));
    WordIs(b, 78, Word(0x5795ef4f));
    WordIs(b, 79, Word(0x822e0879));
  }

  lemma Abc8()
    ensures Rounds(START, AbcBlock(), 8) ==
            Regs(Word(0x9e8c07d4), Word(0x993e30c1), Word(0x0ff1f290), Word(0xb3f52677), Word(0xf3763846))
  {
    hide W, Rounds, AbcBlock;
    RoundsStep(START, AbcBlock(), 0);
    AbcWords0(AbcBlock());
    Four(START, AbcBlock(), 0, Word(0x0116fc33), Word(0x8990536d), Word(0xa1390f08), Word(0xcdd8e11b));
    Four(START, AbcBlock(), 4, Word(0xcfd499de), Word(0x3fc7ca40), Word(0x993e30c1), Word(0x9e8c07d4));
  }

  lemma Abc16()
    ensures Rounds(START, AbcBlock(), 16) ==
            Regs(Word(0x20bdd62f), Word(0x196bee77), Word(0x644a3da5), Word(0x1181ed99), Word(0x18c623f9))
  {
    hide W, Rounds, AbcBlock;
    Abc8();
    AbcWords0(AbcBlock());
    Four(START, AbcBlock(), 8, Word(0x4b6ae328), Word(0x8351f929), Word(0xfbda9e89), Word(0x63188fe4));
    Four(START, AbcBlock(), 12, Word(0x4607b664), Word(0x9128f695), Word(0x196bee77), Word(0x20bdd62f));
  }

  lemma Abc24()
    ensures Rounds(START, AbcBlock(), 24) ==
            Regs(Word(0xd541f12d), Word(0x21283486), Word(0x0ce88eff), Word(0x868dec32), Word(0x7f67875f))
  {
    hide W, Rounds, AbcBlock;
    Abc16();
    AbcWords16(AbcBlock());
    Four(START, AbcBlock(), 16, Word(0x4e925823), Word(0x82aa6728), Word(0xdc64901d), Word(0xfd9e1d7d));
    Four(START, AbcBlock(), 20, Word(0x1a37b0ca), Word(0x33a23bfc), Word(0x21283486), Word(0xd541f12d));
  }

  lemma Abc32()
    ensures Rounds(START, AbcBlock(), 32) ==
            Regs(Word(0x3b845d33), Word(0x1267b407), Word(0x717eebd7), Word(0xa0dc2d4b), Word(0xd2aa1365))
  {
    hide W, Rounds, AbcBlock;
    Abc24();
    AbcWords24(AbcBlock());
    Four(START, AbcBlock(), 24, Word(0xc7567dc6), Word(0x48413ba4), Word(0xbe35fbd5), Word(0x4aa84d97));
    Four(START, AbcBlock(), 28, Word(0x8370b52e), Word(0xc5fbaf5d), Word(0x1267b407), Word(0x3b845d33));
  }

  lemma Abc40()
    ensures Rounds(START, AbcBlock(), 40) ==
            Regs(Word(0x32de1cba), Word(0x4c986405), Word(0xf718e5cf), Word(0x03d447f6), Word(0xf72eec32))
  {
    hide W, Rounds, AbcBlock;
    Abc32();
    AbcWords32(AbcBlock());
    Four(START, AbcBlock(), 32, Word(0x046faa0a), Word(0x2c0ebc11), Word(0x21796ad4), Word(0xdcbbb0cb));
    Four(START, AbcBlock(), 36, Word(0x0f511fd8), Word(0xdc63973f), Word(0x4c986405), Word(0x32de1cba));
  }

  lemma Abc48()
    ensures Rounds(START, AbcBlock(), 48) ==
            Regs(Word(0xbead02ca), Word(0xa01b846c), Word(0x8714787c), Word(0x503ca382), Word(0xfb86c6ab))
  {
    hide W, Rounds, AbcBlock;
    Abc40();
    AbcWords40(AbcBlock());
    Four(START, AbcBlock(), 40, Word(0xfc87dedf), Word(0x970a0d5c), Word(0x7f193dc5), Word(0xee1b1aaf));
    Four(START, AbcBlock(), 44, Word(0x40f28e09), Word(0x1c51e1f2), Word(0xa01b846c), Word(0xbead02ca));
  }

  lemma Abc56()
    ensures Rounds(START, AbcBlock(), 56) ==
            Regs(Word(0x5e6456af), Word(0x7b71f76d), Word(0x09fa7c76), Word(0x792410db), Word(0x8e11eb59))
  {
    hide W, Rounds, AbcBlock;
    Abc48();
    AbcWords48(AbcBlock());
    Four(START, AbcBlock(), 48, Word(0xbaf39337), Word(0x120731c5), Word(0x641db2ce), Word(0x3847ad66));
    Four(START, AbcBlock(), 52, Word(0xe490436d), Word(0x27e9f1d8), Word(0x7b71f76d), Word(0x5e6456af));
  }

  lemma Abc64()
    ensures Rounds(START, AbcBlock(), 64) ==
            Regs(Word(0x6b61c9e1), Word(0xb66c020b), Word(0x9523272c), Word(0xf5d5b051), Word(0x8fd4b796))
  {
    hide W, Rounds, AbcBlock;
    Abc56();
    AbcWords56(AbcBlock());
    Four(START, AbcBlock(), 56, Word(0xc846093f), Word(0xd262ff50), Word(0x09d785fd), Word(0x3f52de5a));
    Four(START, AbcBlock(), 60, Word(0xd756c147), Word(0x548c9cb2), Word(0xb66c020b), Word(0x6b61c9e1));
  }

  lemma Abc72()
    ensures Rounds(START, AbcBlock(), 72) ==
            Regs(Word(0x39859de7), Word(0xc199f8c7), Word(0x8fc96230), Word(0x125c24f0), Word(0xde37534a))
  {
    hide W, Rounds, AbcBlock;
    Abc64();
    AbcWords64(AbcBlock());
    Four(START, AbcBlock(), 64, Word(0x19dfa7ac), Word(0x101655f9), Word(0x0c3df2b4), Word(0x78dd4d2b));
    Four(START, AbcBlock(), 68, Word(0x497093c0), Word(0x3f2588c2), Word(0xc199f8c7), Word(0x39859de7));
  }

  lemma Abc80()
    ensures Rounds(START, AbcBlock(), 80) ==
            Regs(Word(0x42541b35), Word(0x5738d5e1), Word(0x21834873), Word(0x681e6df6), Word(0xd8fdf6ad))
  {
    hide W, Rounds, AbcBlock;
    Abc72();
    AbcWords72(AbcBlock());
    Four(START, AbcBlock(), 72, Word(0xedb42de4), Word(0x11793f6f), Word(0x5ee76897), Word(0x63f7dab7));
    Four(START, AbcBlock(), 76, Word(0xa079b7d9), Word(0x860d21cc), Word(0x5738d5e1), Word(0x42541b35));
  }
}
