/** The self-tests of the hash functions, and the test suite of RFC 1321: what the digests of known messages are. */
module SelfTests {
  import opened Common
  import opened Arith
  import opened Words
  import opened Hashing
  import Md5
  import Sha1
  import Md5Answers
  import Sha1Answers

  // ----- Padding in bytes -----

  /** Byte i of a padded message whose length in bits has the bytes hi and lo. */
  function PaddedByte(alg: Algorithm, m: seq<byte>, size: nat, hi: byte, lo: byte, i: nat): byte
    requires 8 <= size
  {
    if i < |m| then m[i]
    else if i == |m| then 0x80
    else if i == (if alg.MD5? then size - 8 else size - 1) then lo
    else if i == (if alg.MD5? then size - 7 else size - 2) then hi
    else 0
  }

  /** The bytes of a length in bits below 2^16: its lowest byte comes first in MD5 and last in SHA-1. */
  predicate LengthIs(alg: Algorithm, m: seq<byte>, hi: byte, lo: byte) {
    Encode(alg, LengthWords(alg, BitLength(m))) ==
      if alg.MD5? then [lo, hi, 0, 0, 0, 0, 0, 0] else [0, 0, 0, 0, 0, 0, hi, lo]
  }

  /** The message, the byte 0x80, zero bytes and the length. */
  lemma PaddedAt(alg: Algorithm, m: seq<byte>, hi: byte, lo: byte, i: nat)
    requires LengthIs(alg, m, hi, lo) && i < |Padded(alg, m)|
    ensures |m| + 8 < |Padded(alg, m)| && Padded(alg, m)[i] == PaddedByte(alg, m, |Padded(alg, m)|, hi, lo, i)
  {
    hide Encode, LengthWords, BitLength, ZeroCount, Zeros;
  }

  lemma LengthAt(alg: Algorithm, m: seq<byte>, b1: bv8, b0: bv8, hi: byte, lo: byte)
    requires 8 * |m| < 0x1_0000 && b1 as int == hi && b0 as int == lo
    requires ToWord(8 * |m|) == Joined(0, 0, b1, b0) && ToWord(0) == Joined(0, 0, 0, 0)
    ensures LengthIs(alg, m, hi, lo)
  {
    hide ByteOf, Joined, ToWord, Encode, EncodeWord;
    DivModUnique(8 * |m|, WRAP64, 0, 8 * |m|);
    DivModUnique(8 * |m|, 0x1_0000_0000, 0, 8 * |m|);
    var low, high := ToWord(8 * |m|), ToWord(0);
    assert LengthWords(alg, BitLength(m)) == if alg.MD5? then [low, high] else [high, low];
    EncodeTwo(alg, low, high);
    EncodeTwo(alg, high, low);
    EncodedAs(alg, low, 0, 0, b1, b0);
    EncodedAs(alg, high, 0, 0, 0, 0);
  }

  lemma EncodeOne(alg: Algorithm, u: Word)
    ensures Encode(alg, [u]) == EncodeWord(alg, u)
  {
    hide EncodeWord;
    assert [u][..0] == [];
  }

  lemma EncodeMore(alg: Algorithm, words: seq<Word>, u: Word)
    ensures Encode(alg, words + [u]) == Encode(alg, words) + EncodeWord(alg, u)
  {
    hide EncodeWord;
    assert (words + [u])[..|words|] == words;
  }

  lemma EncodeTwo(alg: Algorithm, u: Word, v: Word)
    ensures Encode(alg, [u, v]) == EncodeWord(alg, u) + EncodeWord(alg, v)
  {
    hide EncodeWord;
    EncodeOne(alg, u);
    EncodeMore(alg, [u], v);
    assert [u] + [v] == [u, v];
  }

  lemma EncodeFour(alg: Algorithm, u: Word, v: Word, x: Word, y: Word)
    ensures Encode(alg, [u, v, x, y]) ==
            EncodeWord(alg, u) + EncodeWord(alg, v) + EncodeWord(alg, x) + EncodeWord(alg, y)
  {
    hide EncodeWord, Encode;
    EncodeTwo(alg, u, v);
    EncodeMore(alg, [u, v], x);
    EncodeMore(alg, [u, v, x], y);
    assert [u, v] + [x] == [u, v, x] && [u, v, x] + [y] == [u, v, x, y];
  }

  lemma EncodeFive(alg: Algorithm, u: Word, v: Word, x: Word, y: Word, z: Word)
    ensures Encode(alg, [u, v, x, y, z]) ==
            EncodeWord(alg, u) + EncodeWord(alg, v) + EncodeWord(alg, x) + EncodeWord(alg, y) + EncodeWord(alg, z)
  {
    hide EncodeWord, Encode;
    EncodeFour(alg, u, v, x, y);
    EncodeMore(alg, [u, v, x, y], z);
    assert [u, v, x, y] + [z] == [u, v, x, y, z];
  }

  /** The bytes of a word of the digest. */
  lemma EncodedAs(alg: Algorithm, w: Word, b3: bv8, b2: bv8, b1: bv8, b0: bv8)
    requires w == Joined(b3, b2, b1, b0)
    ensures EncodeWord(alg, w) == if alg.MD5? then [b0 as int, b1 as int, b2 as int, b3 as int]
            else [b3 as int, b2 as int, b1 as int, b0 as int]
  {
    hide ByteOf, Joined;
    BytesOf(b3, b2, b1, b0);
  }

  lemma PaddedOnce(alg: Algorithm, m: seq<byte>)
    requires |m| < 56
    ensures |Padded(alg, m)| == 64
  {
    hide Encode, LengthWords, Zeros;
  }

  lemma OneBlock(alg: Algorithm, m: seq<byte>)
    requires |m| < 56
    ensures |Padded(alg, m)| == 64
    ensures Fold(alg, Initial(alg), Padded(alg, m)) == Compress(alg, Initial(alg), Padded(alg, m))
  {
    hide Compress, Initial, Padded;
    PaddedOnce(alg, m);
    var p := Padded(alg, m);
    assert p[..0] == [] && p[0..] == p;
  }

  lemma FoldTwice(alg: Algorithm, s: seq<Word>, p: seq<byte>)
    requires |s| == Size(alg) && |p| == 128
    ensures Fold(alg, s, p) == Compress(alg, Compress(alg, s, p[..64]), p[64..])
  {
    hide Compress;
    var q := p[..64];
    assert q[..0] == [] && q[0..] == q;
    assert Fold(alg, s, q) == Compress(alg, s, q);
    assert p[..|p| - 64] == q && p[|p| - 64..] == p[64..];
  }

  lemma TwoBlocks(alg: Algorithm, m: seq<byte>)
    requires 56 <= |m| < 120
    ensures |Padded(alg, m)| == 128
    ensures var p := Padded(alg, m);
            Fold(alg, Initial(alg), p) == Compress(alg, Compress(alg, Initial(alg), p[..64]), p[64..])
  {
    hide Compress, Initial, Padded, Fold;
    PaddedTwice(alg, m);
    FoldTwice(alg, Initial(alg), Padded(alg, m));
  }

  lemma PaddedTwice(alg: Algorithm, m: seq<byte>)
    requires 56 <= |m| < 120
    ensures |Padded(alg, m)| == 128
  {
    hide Encode, LengthWords, Zeros;
    if |m| < 64 {
      DivModUnique(|m|, 64, 0, |m|);
    } else {
      DivModUnique(|m|, 64, 1, |m| - 64);
    }
  }

  /** The lengths of the messages in bits. */
  lemma Lengths()
    ensures ToWord(0) == Joined(0, 0, 0x00, 0x00)
    ensures ToWord(8) == Joined(0, 0, 0x00, 0x08)
    ensures ToWord(24) == Joined(0, 0, 0x00, 0x18)
    ensures ToWord(112) == Joined(0, 0, 0x00, 0x70)
    ensures ToWord(208) == Joined(0, 0, 0x00, 0xd0)
    ensures ToWord(496) == Joined(0, 0, 0x01, 0xf0)
    ensures ToWord(640) == Joined(0, 0, 0x02, 0x80)
  {
  }

  lemma LengthsAt(alg: Algorithm)
    ensures LengthIs(alg, Empty(), 0x00, 0x00)
    ensures LengthIs(alg, One(), 0x00, 0x08)
    ensures LengthIs(alg, Abc(), 0x00, 0x18)
    ensures LengthIs(alg, Text(), 0x00, 0x70)
    ensures LengthIs(alg, Letters(), 0x00, 0xd0)
    ensures LengthIs(alg, Mixed(), 0x01, 0xf0)
    ensures LengthIs(alg, Digits(), 0x02, 0x80)
  {
    hide Joined, ToWord, LengthIs;
    Lengths();
    LengthAt(alg, Empty(), 0x00, 0x00, 0x00, 0x00);
    LengthAt(alg, One(), 0x00, 0x08, 0x00, 0x08);
    LengthAt(alg, Abc(), 0x00, 0x18, 0x00, 0x18);
    LengthAt(alg, Text(), 0x00, 0x70, 0x00, 0x70);
    LengthAt(alg, Letters(), 0x00, 0xd0, 0x00, 0xd0);
    LengthAt(alg, Mixed(), 0x01, 0xf0, 0x01, 0xf0);
    LengthAt(alg, Digits(), 0x02, 0x80, 0x02, 0x80);
  }

  // ----- The messages -----

  /** "" */
  function Empty(): (m: seq<byte>)
    ensures |m| == 0
  {
    []
  }

  /** "a" */
  function One(): (m: seq<byte>)
    ensures |m| == 1
  {
    [0x61]
  }

  /** "abc" */
  function Abc(): (m: seq<byte>)
    ensures |m| == 3
  {
    [0x61, 0x62, 0x63]
  }

  /** "message digest" */
  function Text(): (m: seq<byte>)
    ensures |m| == 14
  {
    [0x6d, 0x65, 0x73, 0x73, 0x61, 0x67, 0x65, 0x20, 0x64, 0x69, 0x67, 0x65, 0x73, 0x74]
  }

  /** "abcdefghijklmnopqrstuvwxyz" */
  function Letters(): (m: seq<byte>)
    ensures |m| == 26
  {
    seq(26, i requires 0 <= i < 26 => 0x61 + i)
  }

  /** "ABCDEFGHIJKLMNOPQRSTUVWXYZabcdefghijklmnopqrstuvwxyz0123456789" */
  function Mixed(): (m: seq<byte>)
    ensures |m| == 62
  {
    seq(62, i requires 0 <= i < 62 =>
            if i < 26 then 0x41 + i else if i < 52 then 0x61 + (i - 26) else 0x30 + (i - 52))
  }

  /** "12345678901234567890123456789012345678901234567890123456789012345678901234567890" */
  function Digits(): (m: seq<byte>)
    ensures |m| == 80
  {
    seq(80, i requires 0 <= i < 80 => 0x30 + (i + 1) % 10)
  }

  // ----- MD5 of "" -----

  function EmptyByte(i: nat): byte {
    if i == 0 then 0x80 else 0
  }

  lemma PaddedEmpty(i: nat)
    requires i < 64
    ensures |Padded(MD5, Empty())| == 64 && Padded(MD5, Empty())[i] == EmptyByte(i)
  {
    hide LengthIs, Padded;
    LengthsAt(MD5);
    PaddedOnce(MD5, Empty());
    PaddedAt(MD5, Empty(), 0x00, 0x00, i);
  }

  lemma EmptyLiterals()
    ensures FromBytes(0x00, 0x00, 0x00, 0x80) == Word(0x00000080)
    ensures FromBytes(0x00, 0x00, 0x00, 0x00) == Word(0x00000000)
  {
    assert FromBytes(0x00, 0x00, 0x00, 0x80) == Word(0x00000080);
    assert FromBytes(0x00, 0x00, 0x00, 0x00) == Word(0x00000000);
  }

  lemma EmptyDecoded()
    ensures |Padded(MD5, Empty())| == 64 && Md5.Decode(Padded(MD5, Empty())) == Md5Answers.EmptyWords()
  {
    hide Padded, FromBytes, Md5.Decode, Md5Answers.EmptyWords, Empty;
    EmptyLiterals();
    PaddedEmpty(0);
    forall i | 0 <= i < 64
      ensures |Padded(MD5, Empty())| == 64 && Padded(MD5, Empty())[i] == EmptyByte(i)
    {
      PaddedEmpty(i);
    }
  }

  lemma EmptyCompressed()
    ensures |Padded(MD5, Empty())| == 64
    ensures Compress(MD5, Initial(MD5), Padded(MD5, Empty())) ==
            [Word(0xd98c1dd4), Word(0x04b2008f), Word(0x980980e9), Word(0x7e42f8ec)]
  {
    hide Padded, Md5.Rounds, Md5.Decode;
    EmptyDecoded();
    Md5Answers.Empty64();
  }

  lemma EmptyDigestLiterals()
    ensures Word(0xd98c1dd4) == Joined(0xd9, 0x8c, 0x1d, 0xd4)
    ensures Word(0x04b2008f) == Joined(0x04, 0xb2, 0x00, 0x8f)
    ensures Word(0x980980e9) == Joined(0x98, 0x09, 0x80, 0xe9)
    ensures Word(0x7e42f8ec) == Joined(0x7e, 0x42, 0xf8, 0xec)
  {
  }

  lemma EmptyDigest()
    ensures Digest(MD5, Empty()) ==
            [0xd4, 0x1d, 0x8c, 0xd9, 0x8f, 0x00, 0xb2, 0x04, 0xe9, 0x80, 0x09, 0x98, 0xec, 0xf8, 0x42, 0x7e]
  {
    hide Fold, Compress, Encode, EncodeWord, Joined, Padded, Initial, Empty;
    EmptyDigestLiterals();
    OneBlock(MD5, Empty());
    EmptyCompressed();
    EncodeFour(MD5, Word(0xd98c1dd4), Word(0x04b2008f), Word(0x980980e9), Word(0x7e42f8ec));
    EncodedAs(MD5, Word(0xd98c1dd4), 0xd9, 0x8c, 0x1d, 0xd4);
    EncodedAs(MD5, Word(0x04b2008f), 0x04, 0xb2, 0x00, 0x8f);
    EncodedAs(MD5, Word(0x980980e9), 0x98, 0x09, 0x80, 0xe9);
    EncodedAs(MD5, Word(0x7e42f8ec), 0x7e, 0x42, 0xf8, 0xec);
  }

  // ----- MD5 of "a" -----

  function OneByte(i: nat): byte {
    if i == 0 then 0x61 else if i == 1 then 0x80 else if i == 56 then 0x08 else 0
  }

  lemma PaddedOne(i: nat)
    requires i < 64
    ensures |Padded(MD5, One())| == 64 && Padded(MD5, One())[i] == OneByte(i)
  {
    hide LengthIs, Padded;
    LengthsAt(MD5);
    PaddedOnce(MD5, One());
    PaddedAt(MD5, One(), 0x00, 0x08, i);
  }

  lemma OneLiterals()
    ensures FromBytes(0x00, 0x00, 0x80, 0x61) == Word(0x00008061)
    ensures FromBytes(0x00, 0x00, 0x00, 0x00) == Word(0x00000000)
    ensures FromBytes(0x00, 0x00, 0x00, 0x08) == Word(0x00000008)
  {
    assert FromBytes(0x00, 0x00, 0x80, 0x61) == Word(0x00008061);
    assert FromBytes(0x00, 0x00, 0x00, 0x00) == Word(0x00000000);
    assert FromBytes(0x00, 0x00, 0x00, 0x08) == Word(0x00000008);
  }

  lemma OneDecoded()
    ensures |Padded(MD5, One())| == 64 && Md5.Decode(Padded(MD5, One())) == Md5Answers.OneWords()
  {
    hide Padded, FromBytes, Md5.Decode, Md5Answers.OneWords, One;
    OneLiterals();
    PaddedOne(0);
    forall i | 0 <= i < 64
      ensures |Padded(MD5, One())| == 64 && Padded(MD5, One())[i] == OneByte(i)
    {
      PaddedOne(i);
    }
  }

  lemma OneCompressed()
    ensures |Padded(MD5, One())| == 64
    ensures Compress(MD5, Initial(MD5), Padded(MD5, One())) ==
            [Word(0xb975c10c), Word(0xa8b6f1c0), Word(0xe299c331), Word(0x61267769)]
  {
    hide Padded, Md5.Rounds, Md5.Decode;
    OneDecoded();
    Md5Answers.One64();
  }

  lemma OneDigestLiterals()
    ensures Word(0xb975c10c) == Joined(0xb9, 0x75, 0xc1, 0x0c)
    ensures Word(0xa8b6f1c0) == Joined(0xa8, 0xb6, 0xf1, 0xc0)
    ensures Word(0xe299c331) == Joined(0xe2, 0x99, 0xc3, 0x31)
    ensures Word(0x61267769) == Joined(0x61, 0x26, 0x77, 0x69)
  {
  }

  lemma OneDigest()
    ensures Digest(MD5, One()) ==
            [0x0c, 0xc1, 0x75, 0xb9, 0xc0, 0xf1, 0xb6, 0xa8, 0x31, 0xc3, 0x99, 0xe2, 0x69, 0x77, 0x26, 0x61]
  {
    hide Fold, Compress, Encode, EncodeWord, Joined, Padded, Initial, One;
    OneDigestLiterals();
    OneBlock(MD5, One());
    OneCompressed();
    EncodeFour(MD5, Word(0xb975c10c), Word(0xa8b6f1c0), Word(0xe299c331), Word(0x61267769));
    EncodedAs(MD5, Word(0xb975c10c), 0xb9, 0x75, 0xc1, 0x0c);
    EncodedAs(MD5, Word(0xa8b6f1c0), 0xa8, 0xb6, 0xf1, 0xc0);
    EncodedAs(MD5, Word(0xe299c331), 0xe2, 0x99, 0xc3, 0x31);
    EncodedAs(MD5, Word(0x61267769), 0x61, 0x26, 0x77, 0x69);
  }

  // ----- MD5 of "abc" -----

  function AbcByte(i: nat): byte {
    if i == 0 then 0x61 else if i == 1 then 0x62 else if i == 2 then 0x63 else if i == 3 then 0x80 else
    if i == 56 then 0x18 else 0
  }

  lemma PaddedAbc(i: nat)
    requires i < 64
    ensures |Padded(MD5, Abc())| == 64 && Padded(MD5, Abc())[i] == AbcByte(i)
  {
    hide LengthIs, Padded;
    LengthsAt(MD5);
    PaddedOnce(MD5, Abc());
    PaddedAt(MD5, Abc(), 0x00, 0x18, i);
  }

  lemma AbcLiterals()
    ensures FromBytes(0x80, 0x63, 0x62, 0x61) == Word(0x80636261)
    ensures FromBytes(0x00, 0x00, 0x00, 0x00) == Word(0x00000000)
    ensures FromBytes(0x00, 0x00, 0x00, 0x18) == Word(0x00000018)
  {
    assert FromBytes(0x80, 0x63, 0x62, 0x61) == Word(0x80636261);
    assert FromBytes(0x00, 0x00, 0x00, 0x00) == Word(0x00000000);
    assert FromBytes(0x00, 0x00, 0x00, 0x18) == Word(0x00000018);
  }

  lemma AbcDecoded()
    ensures |Padded(MD5, Abc())| == 64 && Md5.Decode(Padded(MD5, Abc())) == Md5Answers.AbcWords()
  {
    hide Padded, FromBytes, Md5.Decode, Md5Answers.AbcWords, Abc;
    AbcLiterals();
    PaddedAbc(0);
    forall i | 0 <= i < 64
      ensures |Padded(MD5, Abc())| == 64 && Padded(MD5, Abc())[i] == AbcByte(i)
    {
      PaddedAbc(i);
    }
  }

  lemma AbcCompressed()
    ensures |Padded(MD5, Abc())| == 64
    ensures Compress(MD5, Initial(MD5), Padded(MD5, Abc())) ==
            [Word(0x98500190), Word(0xb04fd23c), Word(0x7d3f96d6), Word(0x727fe128)]
  {
    hide Padded, Md5.Rounds, Md5.Decode;
    AbcDecoded();
    Md5Answers.Abc64();
  }

  lemma AbcDigestLiterals()
    ensures Word(0x98500190) == Joined(0x98, 0x50, 0x01, 0x90)
    ensures Word(0xb04fd23c) == Joined(0xb0, 0x4f, 0xd2, 0x3c)
    ensures Word(0x7d3f96d6) == Joined(0x7d, 0x3f, 0x96, 0xd6)
    ensures Word(0x727fe128) == Joined(0x72, 0x7f, 0xe1, 0x28)
  {
  }

  lemma AbcDigest()
    ensures Digest(MD5, Abc()) ==
            [0x90, 0x01, 0x50, 0x98, 0x3c, 0xd2, 0x4f, 0xb0, 0xd6, 0x96, 0x3f, 0x7d, 0x28, 0xe1, 0x7f, 0x72]
  {
    hide Fold, Compress, Encode, EncodeWord, Joined, Padded, Initial, Abc;
    AbcDigestLiterals();
    OneBlock(MD5, Abc());
    AbcCompressed();
    EncodeFour(MD5, Word(0x98500190), Word(0xb04fd23c), Word(0x7d3f96d6), Word(0x727fe128));
    EncodedAs(MD5, Word(0x98500190), 0x98, 0x50, 0x01, 0x90);
    EncodedAs(MD5, Word(0xb04fd23c), 0xb0, 0x4f, 0xd2, 0x3c);
    EncodedAs(MD5, Word(0x7d3f96d6), 0x7d, 0x3f, 0x96, 0xd6);
    EncodedAs(MD5, Word(0x727fe128), 0x72, 0x7f, 0xe1, 0x28);
  }

  // ----- MD5 of "message digest" -----

  function TextByte(i: nat): byte {
    if i == 0 then 0x6d else if i == 1 then 0x65 else if i == 2 then 0x73 else if i == 3 then 0x73 else
    if i == 4 then 0x61 else if i == 5 then 0x67 else if i == 6 then 0x65 else if i == 7 then 0x20 else
    if i == 8 then 0x64 else if i == 9 then 0x69 else if i == 10 then 0x67 else if i == 11 then 0x65 else
    if i == 12 then 0x73 else if i == 13 then 0x74 else if i == 14 then 0x80 else if i == 56 then 0x70 else 0
  }

  lemma PaddedText(i: nat)
    requires i < 64
    ensures |Padded(MD5, Text())| == 64 && Padded(MD5, Text())[i] == TextByte(i)
  {
    hide LengthIs, Padded;
    LengthsAt(MD5);
    PaddedOnce(MD5, Text());
    PaddedAt(MD5, Text(), 0x00, 0x70, i);
  }

  lemma TextLiterals()
    ensures FromBytes(0x73, 0x73, 0x65, 0x6d) == Word(0x7373656d)
    ensures FromBytes(0x20, 0x65, 0x67, 0x61) == Word(0x20656761)
    ensures FromBytes(0x65, 0x67, 0x69, 0x64) == Word(0x65676964)
    ensures FromBytes(0x00, 0x80, 0x74, 0x73) == Word(0x00807473)
    ensures FromBytes(0x00, 0x00, 0x00, 0x00) == Word(0x00000000)
  {
    assert FromBytes(0x73, 0x73, 0x65, 0x6d) == Word(0x7373656d);
    assert FromBytes(0x20, 0x65, 0x67, 0x61) == Word(0x20656761);
    assert FromBytes(0x65, 0x67, 0x69, 0x64) == Word(0x65676964);
    assert FromBytes(0x00, 0x80, 0x74, 0x73) == Word(0x00807473);
    assert FromBytes(0x00, 0x00, 0x00, 0x00) == Word(0x00000000);
  }

  lemma TextLiterals1()
    ensures FromBytes(0x00, 0x00, 0x00, 0x70) == Word(0x00000070)
  {
    assert FromBytes(0x00, 0x00, 0x00, 0x70) == Word(0x00000070);
  }

  lemma TextDecoded()
    ensures |Padded(MD5, Text())| == 64 && Md5.Decode(Padded(MD5, Text())) == Md5Answers.TextWords()
  {
    hide Padded, FromBytes, Md5.Decode, Md5Answers.TextWords, Text;
    TextLiterals();
    TextLiterals1();
    PaddedText(0);
    forall i | 0 <= i < 64
      ensures |Padded(MD5, Text())| == 64 && Padded(MD5, Text())[i] == TextByte(i)
    {
      PaddedText(i);
    }
  }

  lemma TextCompressed()
    ensures |Padded(MD5, Text())| == 64
    ensures Compress(MD5, Initial(MD5), Padded(MD5, Text())) ==
            [Word(0x7d696bf9), Word(0x8d93b77c), Word(0x312f5a52), Word(0xd061f1aa)]
  {
    hide Padded, Md5.Rounds, Md5.Decode;
    TextDecoded();
    Md5Answers.Text64();
  }

  lemma TextDigestLiterals()
    ensures Word(0x7d696bf9) == Joined(0x7d, 0x69, 0x6b, 0xf9)
    ensures Word(0x8d93b77c) == Joined(0x8d, 0x93, 0xb7, 0x7c)
    ensures Word(0x312f5a52) == Joined(0x31, 0x2f, 0x5a, 0x52)
    ensures Word(0xd061f1aa) == Joined(0xd0, 0x61, 0xf1, 0xaa)
  {
  }

  lemma TextDigest()
    ensures Digest(MD5, Text()) ==
            [0xf9, 0x6b, 0x69, 0x7d, 0x7c, 0xb7, 0x93, 0x8d, 0x52, 0x5a, 0x2f, 0x31, 0xaa, 0xf1, 0x61, 0xd0]
  {
    hide Fold, Compress, Encode, EncodeWord, Joined, Padded, Initial, Text;
    TextDigestLiterals();
    OneBlock(MD5, Text());
    TextCompressed();
    EncodeFour(MD5, Word(0x7d696bf9), Word(0x8d93b77c), Word(0x312f5a52), Word(0xd061f1aa));
    EncodedAs(MD5, Word(0x7d696bf9), 0x7d, 0x69, 0x6b, 0xf9);
    EncodedAs(MD5, Word(0x8d93b77c), 0x8d, 0x93, 0xb7, 0x7c);
    EncodedAs(MD5, Word(0x312f5a52), 0x31, 0x2f, 0x5a, 0x52);
    EncodedAs(MD5, Word(0xd061f1aa), 0xd0, 0x61, 0xf1, 0xaa);
  }

  // ----- MD5 of "abcdefghijklmnopqrstuvwxyz" -----

  function LettersByte(i: nat): byte {
    if i < 26 then 0x61 + i else if i == 26 then 0x80 else if i == 56 then 0xd0 else 0
  }

  lemma PaddedLetters(i: nat)
    requires i < 64
    ensures |Padded(MD5, Letters())| == 64 && Padded(MD5, Letters())[i] == LettersByte(i)
  {
    hide LengthIs, Padded;
    LengthsAt(MD5);
    PaddedOnce(MD5, Letters());
    PaddedAt(MD5, Letters(), 0x00, 0xd0, i);
  }

  lemma LettersLiterals()
    ensures FromBytes(0x64, 0x63, 0x62, 0x61) == Word(0x64636261)
    ensures FromBytes(0x68, 0x67, 0x66, 0x65) == Word(0x68676665)
    ensures FromBytes(0x6c, 0x6b, 0x6a, 0x69) == Word(0x6c6b6a69)
    ensures FromBytes(0x70, 0x6f, 0x6e, 0x6d) == Word(0x706f6e6d)
    ensures FromBytes(0x74, 0x73, 0x72, 0x71) == Word(0x74737271)
  {
    assert FromBytes(0x64, 0x63, 0x62, 0x61) == Word(0x64636261);
    assert FromBytes(0x68, 0x67, 0x66, 0x65) == Word(0x68676665);
    assert FromBytes(0x6c, 0x6b, 0x6a, 0x69) == Word(0x6c6b6a69);
    assert FromBytes(0x70, 0x6f, 0x6e, 0x6d) == Word(0x706f6e6d);
    assert FromBytes(0x74, 0x73, 0x72, 0x71) == Word(0x74737271);
  }

  lemma LettersLiterals1()
    ensures FromBytes(0x78, 0x77, 0x76, 0x75) == Word(0x78777675)
    ensures FromBytes(0x00, 0x80, 0x7a, 0x79) == Word(0x00807a79)
    ensures FromBytes(0x00, 0x00, 0x00, 0x00) == Word(0x00000000)
    ensures FromBytes(0x00, 0x00, 0x00, 0xd0) == Word(0x000000d0)
  {
    assert FromBytes(0x78, 0x77, 0x76, 0x75) == Word(0x78777675);
    assert FromBytes(0x00, 0x80, 0x7a, 0x79) == Word(0x00807a79);
    assert FromBytes(0x00, 0x00, 0x00, 0x00) == Word(0x00000000);
    assert FromBytes(0x00, 0x00, 0x00, 0xd0) == Word(0x000000d0);
  }

  lemma LettersDecoded()
    ensures |Padded(MD5, Letters())| == 64 && Md5.Decode(Padded(MD5, Letters())) == Md5Answers.LettersWords()
  {
    hide Padded, FromBytes, Md5.Decode, Md5Answers.LettersWords, Letters;
    LettersLiterals();
    LettersLiterals1();
    PaddedLetters(0);
    forall i | 0 <= i < 64
      ensures |Padded(MD5, Letters())| == 64 && Padded(MD5, Letters())[i] == LettersByte(i)
    {
      PaddedLetters(i);
    }
  }

  lemma LettersCompressed()
    ensures |Padded(MD5, Letters())| == 64
    ensures Compress(MD5, Initial(MD5), Padded(MD5, Letters())) ==
            [Word(0xd7d3fcc3), Word(0x00e49261), Word(0x6c49fb7d), Word(0x3be167ca)]
  {
    hide Padded, Md5.Rounds, Md5.Decode;
    LettersDecoded();
    Md5Answers.Letters64();
  }

  lemma LettersDigestLiterals()
    ensures Word(0xd7d3fcc3) == Joined(0xd7, 0xd3, 0xfc, 0xc3)
    ensures Word(0x00e49261) == Joined(0x00, 0xe4, 0x92, 0x61)
    ensures Word(0x6c49fb7d) == Joined(0x6c, 0x49, 0xfb, 0x7d)
    ensures Word(0x3be167ca) == Joined(0x3b, 0xe1, 0x67, 0xca)
  {
  }

  lemma LettersDigest()
    ensures Digest(MD5, Letters()) ==
            [0xc3, 0xfc, 0xd3, 0xd7, 0x61, 0x92, 0xe4, 0x00, 0x7d, 0xfb, 0x49, 0x6c, 0xca, 0x67, 0xe1, 0x3b]
  {
    hide Fold, Compress, Encode, EncodeWord, Joined, Padded, Initial, Letters;
    LettersDigestLiterals();
    OneBlock(MD5, Letters());
    LettersCompressed();
    EncodeFour(MD5, Word(0xd7d3fcc3), Word(0x00e49261), Word(0x6c49fb7d), Word(0x3be167ca));
    EncodedAs(MD5, Word(0xd7d3fcc3), 0xd7, 0xd3, 0xfc, 0xc3);
    EncodedAs(MD5, Word(0x00e49261), 0x00, 0xe4, 0x92, 0x61);
    EncodedAs(MD5, Word(0x6c49fb7d), 0x6c, 0x49, 0xfb, 0x7d);
    EncodedAs(MD5, Word(0x3be167ca), 0x3b, 0xe1, 0x67, 0xca);
  }

  // ----- MD5 of "ABCDEFGHIJKLMNOPQRSTUVWXYZabcdefghijklmnopqrstuvwxyz0123456789" -----

  function MixedByte(i: nat): byte {
    if i < 26 then 0x41 + i else if i < 52 then 0x61 + (i - 26) else if i < 62 then 0x30 + (i - 52) else
    if i == 62 then 0x80 else if i == 120 then 0xf0 else if i == 121 then 0x01 else 0
  }

  lemma PaddedMixed(i: nat)
    requires i < 128
    ensures |Padded(MD5, Mixed())| == 128 && Padded(MD5, Mixed())[i] == MixedByte(i)
  {
    hide LengthIs, Padded;
    LengthsAt(MD5);
    PaddedTwice(MD5, Mixed());
    PaddedAt(MD5, Mixed(), 0x01, 0xf0, i);
  }

  lemma MixedALiterals()
    ensures FromBytes(0x44, 0x43, 0x42, 0x41) == Word(0x44434241)
    ensures FromBytes(0x48, 0x47, 0x46, 0x45) == Word(0x48474645)
    ensures FromBytes(0x4c, 0x4b, 0x4a, 0x49) == Word(0x4c4b4a49)
    ensures FromBytes(0x50, 0x4f, 0x4e, 0x4d) == Word(0x504f4e4d)
    ensures FromBytes(0x54, 0x53, 0x52, 0x51) == Word(0x54535251)
  {
    assert FromBytes(0x44, 0x43, 0x42, 0x41) == Word(0x44434241);
    assert FromBytes(0x48, 0x47, 0x46, 0x45) == Word(0x48474645);
    assert FromBytes(0x4c, 0x4b, 0x4a, 0x49) == Word(0x4c4b4a49);
    assert FromBytes(0x50, 0x4f, 0x4e, 0x4d) == Word(0x504f4e4d);
    assert FromBytes(0x54, 0x53, 0x52, 0x51) == Word(0x54535251);
  }

  lemma MixedALiterals1()
    ensures FromBytes(0x58, 0x57, 0x56, 0x55) == Word(0x58575655)
    ensures FromBytes(0x62, 0x61, 0x5a, 0x59) == Word(0x62615a59)
    ensures FromBytes(0x66, 0x65, 0x64, 0x63) == Word(0x66656463)
    ensures FromBytes(0x6a, 0x69, 0x68, 0x67) == Word(0x6a696867)
    ensures FromBytes(0x6e, 0x6d, 0x6c, 0x6b) == Word(0x6e6d6c6b)
  {
    assert FromBytes(0x58, 0x57, 0x56, 0x55) == Word(0x58575655);
    assert FromBytes(0x62, 0x61, 0x5a, 0x59) == Word(0x62615a59);
    assert FromBytes(0x66, 0x65, 0x64, 0x63) == Word(0x66656463);
    assert FromBytes(0x6a, 0x69, 0x68, 0x67) == Word(0x6a696867);
    assert FromBytes(0x6e, 0x6d, 0x6c, 0x6b) == Word(0x6e6d6c6b);
  }

  lemma MixedALiterals2()
    ensures FromBytes(0x72, 0x71, 0x70, 0x6f) == Word(0x7271706f)
    ensures FromBytes(0x76, 0x75, 0x74, 0x73) == Word(0x76757473)
    ensures FromBytes(0x7a, 0x79, 0x78, 0x77) == Word(0x7a797877)
    ensures FromBytes(0x33, 0x32, 0x31, 0x30) == Word(0x33323130)
    ensures FromBytes(0x37, 0x36, 0x35, 0x34) == Word(0x37363534)
  {
    assert FromBytes(0x72, 0x71, 0x70, 0x6f) == Word(0x7271706f);
    assert FromBytes(0x76, 0x75, 0x74, 0x73) == Word(0x76757473);
    assert FromBytes(0x7a, 0x79, 0x78, 0x77) == Word(0x7a797877);
    assert FromBytes(0x33, 0x32, 0x31, 0x30) == Word(0x33323130);
    assert FromBytes(0x37, 0x36, 0x35, 0x34) == Word(0x37363534);
  }

  lemma MixedALiterals3()
    ensures FromBytes(0x00, 0x80, 0x39, 0x38) == Word(0x00803938)
  {
    assert FromBytes(0x00, 0x80, 0x39, 0x38) == Word(0x00803938);
  }

  lemma MixedADecoded()
    ensures |Padded(MD5, Mixed())| == 128 && Md5.Decode(Padded(MD5, Mixed())[..64]) == Md5Answers.MixedAWords()
  {
    hide Padded, FromBytes, Md5.Decode, Md5Answers.MixedAWords, Mixed;
    MixedALiterals();
    MixedALiterals1();
    MixedALiterals2();
    MixedALiterals3();
    PaddedMixed(0);
    forall i | 0 <= i < 64
      ensures |Padded(MD5, Mixed())| == 128 && Padded(MD5, Mixed())[..64][i] == MixedByte(i)
    {
      PaddedMixed(i);
    }
  }

  lemma MixedACompressed()
    ensures |Padded(MD5, Mixed())| == 128
    ensures Compress(MD5, Initial(MD5), Padded(MD5, Mixed())[..64]) ==
            [Word(0x83fd320b), Word(0xdefbe5cf), Word(0xa9b1642f), Word(0xfa6f932a)]
  {
    hide Padded, Md5.Rounds, Md5.Decode;
    MixedADecoded();
    Md5Answers.MixedA64();
  }

  lemma MixedBLiterals()
    ensures FromBytes(0x00, 0x00, 0x00, 0x00) == Word(0x00000000)
    ensures FromBytes(0x00, 0x00, 0x01, 0xf0) == Word(0x000001f0)
  {
    assert FromBytes(0x00, 0x00, 0x00, 0x00) == Word(0x00000000);
    assert FromBytes(0x00, 0x00, 0x01, 0xf0) == Word(0x000001f0);
  }

  lemma MixedBDecoded()
    ensures |Padded(MD5, Mixed())| == 128 && Md5.Decode(Padded(MD5, Mixed())[64..]) == Md5Answers.MixedBWords()
  {
    hide Padded, FromBytes, Md5.Decode, Md5Answers.MixedBWords, Mixed;
    MixedBLiterals();
    PaddedMixed(0);
    forall i | 0 <= i < 64
      ensures |Padded(MD5, Mixed())| == 128 && Padded(MD5, Mixed())[64..][i] == MixedByte(64 + i)
    {
      PaddedMixed(64 + i);
    }
  }

  lemma MixedBCompressed()
    ensures |Padded(MD5, Mixed())| == 128
    ensures Compress(MD5, [Word(0x83fd320b), Word(0xdefbe5cf), Word(0xa9b1642f), Word(0xfa6f932a)],
                     Padded(MD5, Mixed())[64..]) ==
            [Word(0x98ab74d1), Word(0xf5d977d2), Word(0x2c1c61a5), Word(0x9f9d419f)]
  {
    hide Padded, Md5.Rounds, Md5.Decode;
    MixedBDecoded();
    Md5Answers.MixedB64();
  }

  lemma MixedDigestLiterals()
    ensures Word(0x98ab74d1) == Joined(0x98, 0xab, 0x74, 0xd1)
    ensures Word(0xf5d977d2) == Joined(0xf5, 0xd9, 0x77, 0xd2)
    ensures Word(0x2c1c61a5) == Joined(0x2c, 0x1c, 0x61, 0xa5)
    ensures Word(0x9f9d419f) == Joined(0x9f, 0x9d, 0x41, 0x9f)
  {
  }

  lemma MixedDigest()
    ensures Digest(MD5, Mixed()) ==
            [0xd1, 0x74, 0xab, 0x98, 0xd2, 0x77, 0xd9, 0xf5, 0xa5, 0x61, 0x1c, 0x2c, 0x9f, 0x41, 0x9d, 0x9f]
  {
    hide Fold, Compress, Encode, EncodeWord, Joined, Padded, Initial, Mixed;
    MixedDigestLiterals();
    TwoBlocks(MD5, Mixed());
    MixedACompressed();
    MixedBCompressed();
    EncodeFour(MD5, Word(0x98ab74d1), Word(0xf5d977d2), Word(0x2c1c61a5), Word(0x9f9d419f));
    EncodedAs(MD5, Word(0x98ab74d1), 0x98, 0xab, 0x74, 0xd1);
    EncodedAs(MD5, Word(0xf5d977d2), 0xf5, 0xd9, 0x77, 0xd2);
    EncodedAs(MD5, Word(0x2c1c61a5), 0x2c, 0x1c, 0x61, 0xa5);
    EncodedAs(MD5, Word(0x9f9d419f), 0x9f, 0x9d, 0x41, 0x9f);
  }

  // ----- MD5 of "12345678901234567890123456789012345678901234567890123456789012345678901234567890" -----

  function DigitsByte(i: nat): byte {
    if i < 80 then 0x30 + (i + 1) % 10 else if i == 80 then 0x80 else if i == 120 then 0x80 else
    if i == 121 then 0x02 else 0
  }

  lemma PaddedDigits(i: nat)
    requires i < 128
    ensures |Padded(MD5, Digits())| == 128 && Padded(MD5, Digits())[i] == DigitsByte(i)
  {
    hide LengthIs, Padded;
    LengthsAt(MD5);
    PaddedTwice(MD5, Digits());
    PaddedAt(MD5, Digits(), 0x02, 0x80, i);
  }

  lemma DigitsALiterals()
    ensures FromBytes(0x34, 0x33, 0x32, 0x31) == Word(0x34333231)
    ensures FromBytes(0x38, 0x37, 0x36, 0x35) == Word(0x38373635)
    ensures FromBytes(0x32, 0x31, 0x30, 0x39) == Word(0x32313039)
    ensures FromBytes(0x36, 0x35, 0x34, 0x33) == Word(0x36353433)
    ensures FromBytes(0x30, 0x39, 0x38, 0x37) == Word(0x30393837)
  {
    assert FromBytes(0x34, 0x33, 0x32, 0x31) == Word(0x34333231);
    assert FromBytes(0x38, 0x37, 0x36, 0x35) == Word(0x38373635);
    assert FromBytes(0x32, 0x31, 0x30, 0x39) == Word(0x32313039);
    assert FromBytes(0x36, 0x35, 0x34, 0x33) == Word(0x36353433);
    assert FromBytes(0x30, 0x39, 0x38, 0x37) == Word(0x30393837);
  }

  lemma DigitsADecoded()
    ensures |Padded(MD5, Digits())| == 128 && Md5.Decode(Padded(MD5, Digits())[..64]) == Md5Answers.DigitsAWords()
  {
    hide Padded, FromBytes, Md5.Decode, Md5Answers.DigitsAWords, Digits;
    DigitsALiterals();
    PaddedDigits(0);
    forall i | 0 <= i < 64
      ensures |Padded(MD5, Digits())| == 128 && Padded(MD5, Digits())[..64][i] == DigitsByte(i)
    {
      PaddedDigits(i);
    }
  }

  lemma DigitsACompressed()
    ensures |Padded(MD5, Digits())| == 128
    ensures Compress(MD5, Initial(MD5), Padded(MD5, Digits())[..64]) ==
            [Word(0xc88d8bec), Word(0xa4a0dc8b), Word(0xe9edef99), Word(0xb0d18d1d)]
  {
    hide Padded, Md5.Rounds, Md5.Decode;
    DigitsADecoded();
    Md5Answers.DigitsA64();
  }

  lemma DigitsBLiterals()
    ensures FromBytes(0x38, 0x37, 0x36, 0x35) == Word(0x38373635)
    ensures FromBytes(0x32, 0x31, 0x30, 0x39) == Word(0x32313039)
    ensures FromBytes(0x36, 0x35, 0x34, 0x33) == Word(0x36353433)
    ensures FromBytes(0x30, 0x39, 0x38, 0x37) == Word(0x30393837)
    ensures FromBytes(0x00, 0x00, 0x00, 0x80) == Word(0x00000080)
  {
    assert FromBytes(0x38, 0x37, 0x36, 0x35) == Word(0x38373635);
    assert FromBytes(0x32, 0x31, 0x30, 0x39) == Word(0x32313039);
    assert FromBytes(0x36, 0x35, 0x34, 0x33) == Word(0x36353433);
    assert FromBytes(0x30, 0x39, 0x38, 0x37) == Word(0x30393837);
    assert FromBytes(0x00, 0x00, 0x00, 0x80) == Word(0x00000080);
  }

  lemma DigitsBLiterals1()
    ensures FromBytes(0x00, 0x00, 0x00, 0x00) == Word(0x00000000)
    ensures FromBytes(0x00, 0x00, 0x02, 0x80) == Word(0x00000280)
  {
    assert FromBytes(0x00, 0x00, 0x00, 0x00) == Word(0x00000000);
    assert FromBytes(0x00, 0x00, 0x02, 0x80) == Word(0x00000280);
  }

  lemma DigitsBDecoded()
    ensures |Padded(MD5, Digits())| == 128 && Md5.Decode(Padded(MD5, Digits())[64..]) == Md5Answers.DigitsBWords()
  {
    hide Padded, FromBytes, Md5.Decode, Md5Answers.DigitsBWords, Digits;
    DigitsBLiterals();
    DigitsBLiterals1();
    PaddedDigits(0);
    forall i | 0 <= i < 64
      ensures |Padded(MD5, Digits())| == 128 && Padded(MD5, Digits())[64..][i] == DigitsByte(64 + i)
    {
      PaddedDigits(64 + i);
    }
  }

  lemma DigitsBCompressed()
    ensures |Padded(MD5, Digits())| == 128
    ensures Compress(MD5, [Word(0xc88d8bec), Word(0xa4a0dc8b), Word(0xe9edef99), Word(0xb0d18d1d)],
                     Padded(MD5, Digits())[64..]) ==
            [Word(0xa2f4ed57), Word(0x55c9e32b), Word(0x2eda49ac), Word(0x7ab60721)]
  {
    hide Padded, Md5.Rounds, Md5.Decode;
    DigitsBDecoded();
    Md5Answers.DigitsB64();
  }

  lemma DigitsDigestLiterals()
    ensures Word(0xa2f4ed57) == Joined(0xa2, 0xf4, 0xed, 0x57)
    ensures Word(0x55c9e32b) == Joined(0x55, 0xc9, 0xe3, 0x2b)
    ensures Word(0x2eda49ac) == Joined(0x2e, 0xda, 0x49, 0xac)
    ensures Word(0x7ab60721) == Joined(0x7a, 0xb6, 0x07, 0x21)
  {
  }

  lemma DigitsDigest()
    ensures Digest(MD5, Digits()) ==
            [0x57, 0xed, 0xf4, 0xa2, 0x2b, 0xe3, 0xc9, 0x55, 0xac, 0x49, 0xda, 0x2e, 0x21, 0x07, 0xb6, 0x7a]
  {
    hide Fold, Compress, Encode, EncodeWord, Joined, Padded, Initial, Digits;
    DigitsDigestLiterals();
    TwoBlocks(MD5, Digits());
    DigitsACompressed();
    DigitsBCompressed();
    EncodeFour(MD5, Word(0xa2f4ed57), Word(0x55c9e32b), Word(0x2eda49ac), Word(0x7ab60721));
    EncodedAs(MD5, Word(0xa2f4ed57), 0xa2, 0xf4, 0xed, 0x57);
    EncodedAs(MD5, Word(0x55c9e32b), 0x55, 0xc9, 0xe3, 0x2b);
    EncodedAs(MD5, Word(0x2eda49ac), 0x2e, 0xda, 0x49, 0xac);
    EncodedAs(MD5, Word(0x7ab60721), 0x7a, 0xb6, 0x07, 0x21);
  }

  // ----- SHA-1 of "" -----

  lemma Sha1PaddedEmpty()
    ensures Padded(SHA1, Empty()) == Sha1Answers.EmptyBlock()
  {
    hide LengthIs, Padded, Sha1Answers.EmptyBlock;
    LengthsAt(SHA1);
    PaddedOnce(SHA1, Empty());
    forall i | 0 <= i < 64 ensures Padded(SHA1, Empty())[i] == Sha1Answers.EmptyByte(i) {
      PaddedAt(SHA1, Empty(), 0x00, 0x00, i);
    }
  }

  lemma Sha1EmptyCompressed()
    ensures Compress(SHA1, Initial(SHA1), Sha1Answers.EmptyBlock()) ==
            [Word(0xda39a3ee), Word(0x5e6b4b0d), Word(0x3255bfef), Word(0x95601890), Word(0xafd80709)]
  {
    hide Sha1.Rounds, Sha1Answers.EmptyBlock;
    Sha1Answers.Empty80();
  }

  lemma Sha1EmptyLiterals()
    ensures Word(0xda39a3ee) == Joined(0xda, 0x39, 0xa3, 0xee)
    ensures Word(0x5e6b4b0d) == Joined(0x5e, 0x6b, 0x4b, 0x0d)
    ensures Word(0x3255bfef) == Joined(0x32, 0x55, 0xbf, 0xef)
    ensures Word(0x95601890) == Joined(0x95, 0x60, 0x18, 0x90)
    ensures Word(0xafd80709) == Joined(0xaf, 0xd8, 0x07, 0x09)
  {
  }

  lemma Sha1EmptyDigest()
    ensures Digest(SHA1, Empty()) ==
            [0xda, 0x39, 0xa3, 0xee, 0x5e, 0x6b, 0x4b, 0x0d, 0x32, 0x55, 0xbf, 0xef, 0x95, 0x60, 0x18, 0x90, 0xaf,
             0xd8, 0x07, 0x09]
  {
    hide Fold, Compress, Encode, EncodeWord, Joined, Padded, Initial, Sha1Answers.EmptyBlock, Empty;
    Sha1EmptyLiterals();
    OneBlock(SHA1, Empty());
    Sha1PaddedEmpty();
    Sha1EmptyCompressed();
    EncodeFive(SHA1, Word(0xda39a3ee), Word(0x5e6b4b0d), Word(0x3255bfef), Word(0x95601890), Word(0xafd80709));
    EncodedAs(SHA1, Word(0xda39a3ee), 0xda, 0x39, 0xa3, 0xee);
    EncodedAs(SHA1, Word(0x5e6b4b0d), 0x5e, 0x6b, 0x4b, 0x0d);
    EncodedAs(SHA1, Word(0x3255bfef), 0x32, 0x55, 0xbf, 0xef);
    EncodedAs(SHA1, Word(0x95601890), 0x95, 0x60, 0x18, 0x90);
    EncodedAs(SHA1, Word(0xafd80709), 0xaf, 0xd8, 0x07, 0x09);
  }

  // ----- SHA-1 of "abc" -----

  lemma Sha1PaddedAbc()
    ensures Padded(SHA1, Abc()) == Sha1Answers.AbcBlock()
  {
    hide LengthIs, Padded, Sha1Answers.AbcBlock;
    LengthsAt(SHA1);
    PaddedOnce(SHA1, Abc());
    forall i | 0 <= i < 64 ensures Padded(SHA1, Abc())[i] == Sha1Answers.AbcByte(i) {
      PaddedAt(SHA1, Abc(), 0x00, 0x18, i);
    }
  }

  lemma Sha1AbcCompressed()
    ensures Compress(SHA1, Initial(SHA1), Sha1Answers.AbcBlock()) ==
            [Word(0xa9993e36), Word(0x4706816a), Word(0xba3e2571), Word(0x7850c26c), Word(0x9cd0d89d)]
  {
    hide Sha1.Rounds, Sha1Answers.AbcBlock;
    Sha1Answers.Abc80();
  }

  lemma Sha1AbcLiterals()
    ensures Word(0xa9993e36) == Joined(0xa9, 0x99, 0x3e, 0x36)
    ensures Word(0x4706816a) == Joined(0x47, 0x06, 0x81, 0x6a)
    ensures Word(0xba3e2571) == Joined(0xba, 0x3e, 0x25, 0x71)
    ensures Word(0x7850c26c) == Joined(0x78, 0x50, 0xc2, 0x6c)
    ensures Word(0x9cd0d89d) == Joined(0x9c, 0xd0, 0xd8, 0x9d)
  {
  }

  lemma Sha1AbcDigest()
    ensures Digest(SHA1, Abc()) ==
            [0xa9, 0x99, 0x3e, 0x36, 0x47, 0x06, 0x81, 0x6a, 0xba, 0x3e, 0x25, 0x71, 0x78, 0x50, 0xc2, 0x6c, 0x9c,
             0xd0, 0xd8, 0x9d]
  {
    hide Fold, Compress, Encode, EncodeWord, Joined, Padded, Initial, Sha1Answers.AbcBlock, Abc;
    Sha1AbcLiterals();
    OneBlock(SHA1, Abc());
    Sha1PaddedAbc();
    Sha1AbcCompressed();
    EncodeFive(SHA1, Word(0xa9993e36), Word(0x4706816a), Word(0xba3e2571), Word(0x7850c26c), Word(0x9cd0d89d));
    EncodedAs(SHA1, Word(0xa9993e36), 0xa9, 0x99, 0x3e, 0x36);
    EncodedAs(SHA1, Word(0x4706816a), 0x47, 0x06, 0x81, 0x6a);
    EncodedAs(SHA1, Word(0xba3e2571), 0xba, 0x3e, 0x25, 0x71);
    EncodedAs(SHA1, Word(0x7850c26c), 0x78, 0x50, 0xc2, 0x6c);
    EncodedAs(SHA1, Word(0x9cd0d89d), 0x9c, 0xd0, 0xd8, 0x9d);
  }

  // ----- Hexadecimal form and the self-tests -----

  const ESELFTEST: int := -1

  function HexDigit(n: nat): (c: char)
    requires n < 16
  {
    if n < 10 then '0' + n as char else 'a' + (n - 10) as char
  }

  /** The text consists of the two hexadecimal digits of each byte, the higher one first. */
  predicate InHex(text: string, digest: seq<byte>) {
    && |text| == 2 * |digest|
    && forall i :: 0 <= i < |digest| ==>
         text[2 * i] == HexDigit(digest[i] / 16) && text[2 * i + 1] == HexDigit(digest[i] % 16)
  }

  lemma InHexUnique(text: string, other: string, digest: seq<byte>)
    requires InHex(text, digest) && InHex(other, digest)
    ensures text == other
  {
    forall k | 0 <= k < |text| ensures text[k] == other[k] {
      var i := k / 2;
      assert text[2 * i] == other[2 * i] && text[2 * i + 1] == other[2 * i + 1];
    }
  }

  lemma InHexJoin(text: string, digest: seq<byte>, more: string, bytes: seq<byte>)
    requires InHex(text, digest) && InHex(more, bytes)
    ensures InHex(text + more, digest + bytes)
  {
    hide HexDigit;
    forall i | |digest| <= i < |digest + bytes|
      ensures (text + more)[2 * i] == HexDigit((digest + bytes)[i] / 16)
      ensures (text + more)[2 * i + 1] == HexDigit((digest + bytes)[i] % 16)
    {
      var j := i - |digest|;
      assert more[2 * j] == HexDigit(bytes[j] / 16) && more[2 * j + 1] == HexDigit(bytes[j] % 16);
    }
  }

  /** The text of a digest, as it is compared with the expected one. */
  method ToHex(digest: seq<byte>) returns (text: string)
    ensures InHex(text, digest)
  {
    var out := new char[2 * |digest|];
    for i := 0 to |digest|
      invariant forall j :: 0 <= j < i ==>
        out[2 * j] == HexDigit(digest[j] / 16) && out[2 * j + 1] == HexDigit(digest[j] % 16)
    {
      out[i * 2] := HexDigit(digest[i] / 16);
      out[i * 2 + 1] := HexDigit(digest[i] % 16);
    }
    text := out[..];
  }

  lemma Md5EmptyHex0()
    ensures InHex("d41d8cd9", [0xd4, 0x1d, 0x8c, 0xd9])
    ensures InHex("8f00b204", [0x8f, 0x00, 0xb2, 0x04])
  {
  }

  lemma Md5EmptyHex1()
    ensures InHex("e9800998", [0xe9, 0x80, 0x09, 0x98])
    ensures InHex("ecf8427e", [0xec, 0xf8, 0x42, 0x7e])
  {
  }

  lemma Md5EmptyHex()
    ensures InHex("d41d8cd9" + "8f00b204" + "e9800998" + "ecf8427e",
                  Digest(MD5, Empty()))
  {
    hide InHex, Digest;
    Md5EmptyHex0();
    Md5EmptyHex1();
    var b0: seq<byte> := [0xd4, 0x1d, 0x8c, 0xd9];
    var b1: seq<byte> := [0x8f, 0x00, 0xb2, 0x04];
    var b2: seq<byte> := [0xe9, 0x80, 0x09, 0x98];
    var b3: seq<byte> := [0xec, 0xf8, 0x42, 0x7e];
    InHexJoin("d41d8cd9", b0, "8f00b204", b1);
    InHexJoin("d41d8cd9" + "8f00b204", b0 + b1, "e9800998", b2);
    InHexJoin("d41d8cd9" + "8f00b204" + "e9800998", b0 + b1 + b2, "ecf8427e", b3);
    EmptyDigest();
    assert Digest(MD5, Empty()) == b0 + b1 + b2 + b3;
  }

  lemma Md5AbcHex0()
    ensures InHex("90015098", [0x90, 0x01, 0x50, 0x98])
    ensures InHex("3cd24fb0", [0x3c, 0xd2, 0x4f, 0xb0])
  {
  }

  lemma Md5AbcHex1()
    ensures InHex("d6963f7d", [0xd6, 0x96, 0x3f, 0x7d])
    ensures InHex("28e17f72", [0x28, 0xe1, 0x7f, 0x72])
  {
  }

  lemma Md5AbcHex()
    ensures InHex("90015098" + "3cd24fb0" + "d6963f7d" + "28e17f72",
                  Digest(MD5, Abc()))
  {
    hide InHex, Digest;
    Md5AbcHex0();
    Md5AbcHex1();
    var b0: seq<byte> := [0x90, 0x01, 0x50, 0x98];
    var b1: seq<byte> := [0x3c, 0xd2, 0x4f, 0xb0];
    var b2: seq<byte> := [0xd6, 0x96, 0x3f, 0x7d];
    var b3: seq<byte> := [0x28, 0xe1, 0x7f, 0x72];
    InHexJoin("90015098", b0, "3cd24fb0", b1);
    InHexJoin("90015098" + "3cd24fb0", b0 + b1, "d6963f7d", b2);
    InHexJoin("90015098" + "3cd24fb0" + "d6963f7d", b0 + b1 + b2, "28e17f72", b3);
    AbcDigest();
    assert Digest(MD5, Abc()) == b0 + b1 + b2 + b3;
  }

  lemma Sha1EmptyHex0()
    ensures InHex("da39a3ee", [0xda, 0x39, 0xa3, 0xee])
    ensures InHex("5e6b4b0d", [0x5e, 0x6b, 0x4b, 0x0d])
  {
  }

  lemma Sha1EmptyHex1()
    ensures InHex("3255bfef", [0x32, 0x55, 0xbf, 0xef])
    ensures InHex("95601890", [0x95, 0x60, 0x18, 0x90])
  {
  }

  lemma Sha1EmptyHex2()
    ensures InHex("afd80709", [0xaf, 0xd8, 0x07, 0x09])
  {
  }

  lemma Sha1EmptyHex()
    ensures InHex("da39a3ee" + "5e6b4b0d" + "3255bfef" + "95601890" + "afd80709",
                  Digest(SHA1, Empty()))
  {
    hide InHex, Digest;
    Sha1EmptyHex0();
    Sha1EmptyHex1();
    Sha1EmptyHex2();
    var b0: seq<byte> := [0xda, 0x39, 0xa3, 0xee];
    var b1: seq<byte> := [0x5e, 0x6b, 0x4b, 0x0d];
    var b2: seq<byte> := [0x32, 0x55, 0xbf, 0xef];
    var b3: seq<byte> := [0x95, 0x60, 0x18, 0x90];
    var b4: seq<byte> := [0xaf, 0xd8, 0x07, 0x09];
    InHexJoin("da39a3ee", b0, "5e6b4b0d", b1);
    InHexJoin("da39a3ee" + "5e6b4b0d", b0 + b1, "3255bfef", b2);
    InHexJoin("da39a3ee" + "5e6b4b0d" + "3255bfef", b0 + b1 + b2, "95601890", b3);
    InHexJoin("da39a3ee" + "5e6b4b0d" + "3255bfef" + "95601890", b0 + b1 + b2 + b3, "afd80709", b4);
    Sha1EmptyDigest();
    assert Digest(SHA1, Empty()) == b0 + b1 + b2 + b3 + b4;
  }

  lemma Sha1AbcHex0()
    ensures InHex("a9993e36", [0xa9, 0x99, 0x3e, 0x36])
    ensures InHex("4706816a", [0x47, 0x06, 0x81, 0x6a])
  {
  }

  lemma Sha1AbcHex1()
    ensures InHex("ba3e2571", [0xba, 0x3e, 0x25, 0x71])
    ensures InHex("7850c26c", [0x78, 0x50, 0xc2, 0x6c])
  {
  }

  lemma Sha1AbcHex2()
    ensures InHex("9cd0d89d", [0x9c, 0xd0, 0xd8, 0x9d])
  {
  }

  lemma Sha1AbcHex()
    ensures InHex("a9993e36" + "4706816a" + "ba3e2571" + "7850c26c" + "9cd0d89d",
                  Digest(SHA1, Abc()))
  {
    hide InHex, Digest;
    Sha1AbcHex0();
    Sha1AbcHex1();
    Sha1AbcHex2();
    var b0: seq<byte> := [0xa9, 0x99, 0x3e, 0x36];
    var b1: seq<byte> := [0x47, 0x06, 0x81, 0x6a];
    var b2: seq<byte> := [0xba, 0x3e, 0x25, 0x71];
    var b3: seq<byte> := [0x78, 0x50, 0xc2, 0x6c];
    var b4: seq<byte> := [0x9c, 0xd0, 0xd8, 0x9d];
    InHexJoin("a9993e36", b0, "4706816a", b1);
    InHexJoin("a9993e36" + "4706816a", b0 + b1, "ba3e2571", b2);
    InHexJoin("a9993e36" + "4706816a" + "ba3e2571", b0 + b1 + b2, "7850c26c", b3);
    InHexJoin("a9993e36" + "4706816a" + "ba3e2571" + "7850c26c", b0 + b1 + b2 + b3, "9cd0d89d", b4);
    Sha1AbcDigest();
    assert Digest(SHA1, Abc()) == b0 + b1 + b2 + b3 + b4;
  }

  /** The self-test of MD5 finds the expected digests. */
  method Md5SelfTest() returns (code: int)
    ensures code == 0
  {
    hide InHex, Digest;
    var vectors := [Empty(), Abc()];
    var expected := ["d41d8cd9" + "8f00b204" + "e9800998" + "ecf8427e",
                     "90015098" + "3cd24fb0" + "d6963f7d" + "28e17f72"];
    Md5EmptyHex();
    Md5AbcHex();
    for i := 0 to 2 {
      var digest := Calculate(MD5, vectors[i]);
      var text := ToHex(digest);
      InHexUnique(text, expected[i], digest);
      if text != expected[i] {
        return ESELFTEST;
      }
    }
    return 0;
  }

  /** The self-test of SHA-1 finds the expected digests. */
  method Sha1SelfTest() returns (code: int)
    ensures code == 0
  {
    hide InHex, Digest;
    var vectors := [Empty(), Abc()];
    var expected := ["da39a3ee" + "5e6b4b0d" + "3255bfef" + "95601890" + "afd80709",
                     "a9993e36" + "4706816a" + "ba3e2571" + "7850c26c" + "9cd0d89d"];
    Sha1EmptyHex();
    Sha1AbcHex();
    for i := 0 to 2 {
      var digest := Calculate(SHA1, vectors[i]);
      var text := ToHex(digest);
      InHexUnique(text, expected[i], digest);
      if text != expected[i] {
        return ESELFTEST;
      }
    }
    return 0;
  }
}
