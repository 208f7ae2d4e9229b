/** 32-bit words and bytes, as the hash functions use them. */
module Words {
  import opened Common

  datatype Word = Word(bits: bv32)

  function Add(x: Word, y: Word): Word { Word(x.bits + y.bits) }

  function And(x: Word, y: Word): Word { Word(x.bits & y.bits) }

  function Or(x: Word, y: Word): Word { Word(x.bits | y.bits) }

  function Xor(x: Word, y: Word): Word { Word(x.bits ^ y.bits) }

  function Not(x: Word): Word { Word(!x.bits) }

  function Rotl(x: Word, n: nat): Word
    requires 0 < n < 32
  {
    Word((x.bits << n) | (x.bits >> (32 - n)))
  }

  /** The word with the given bytes, most significant first. */
  function FromBytes(b3: byte, b2: byte, b1: byte, b0: byte): Word {
    Word(((b3 as bv32) << 24) | ((b2 as bv32) << 16) | ((b1 as bv32) << 8) | (b0 as bv32))
  }

  /** Byte k of a word, the least significant one being byte 0. */
  function ByteOf(x: Word, k: nat): byte
    requires k < 4
  {
    Octet(x.bits, k) as int
  }

  function Octet(x: bv32, k: nat): bv8 {
    if k == 0 then (x & 0xff) as bv8
    else if k == 1 then ((x >> 8) & 0xff) as bv8
    else if k == 2 then ((x >> 16) & 0xff) as bv8
    else ((x >> 24) & 0xff) as bv8
  }

  /** The word with the given bytes, most significant first. */
  function Joined(b3: bv8, b2: bv8, b1: bv8, b0: bv8): Word {
    Word(((b3 as bv32) << 24) | ((b2 as bv32) << 16) | ((b1 as bv32) << 8) | (b0 as bv32))
  }

  lemma Octets(b3: bv8, b2: bv8, b1: bv8, b0: bv8)
    ensures var x := Joined(b3, b2, b1, b0).bits;
            Octet(x, 0) == b0 && Octet(x, 1) == b1 && Octet(x, 2) == b2 && Octet(x, 3) == b3
  {
  }

  /** The bytes of a word are those it was made of. */
  lemma BytesOf(b3: bv8, b2: bv8, b1: bv8, b0: bv8)
    ensures var w := Joined(b3, b2, b1, b0);
            && ByteOf(w, 0) == b0 as int && ByteOf(w, 1) == b1 as int
            && ByteOf(w, 2) == b2 as int && ByteOf(w, 3) == b3 as int
  {
    hide Octet, Joined;
    Octets(b3, b2, b1, b0);
  }

  /** Choice and majority can be written with "or" as well as with "exclusive or". */
  lemma ChoiceBits(x: Word, y: Word, z: Word)
    ensures Or(And(x, y), And(Not(x), z)) == Xor(And(x, y), And(Not(x), z))
  {
  }

  lemma MajorityBits(x: Word, y: Word, z: Word)
    ensures Or(Or(And(x, y), And(x, z)), And(y, z)) == Xor(Xor(And(x, y), And(x, z)), And(y, z))
  {
  }

  /** The little-endian word at position a. */
  function ReadWord(m: seq<byte>, a: nat): nat
    requires a + 4 <= |m|
  {
    (m[a] as int) + 0x100 * (m[a + 1] as int) + 0x1_0000 * (m[a + 2] as int) + 0x100_0000 * (m[a + 3] as int)
  }
}
