/** Streaming MD5 and SHA-1: the two context structures work alike and differ in the compression function, the initial
    state and the byte order. */
module Hashing {
  import opened Common
  import opened Arith
  import opened Words
  import Md5
  import Sha1

  const BLOCK: nat := 64
  const WRAP32: nat := 0x1_0000_0000
  const WRAP64: nat := 0x1_0000_0000_0000_0000

  datatype Algorithm = MD5 | SHA1

  function Size(alg: Algorithm): (n: nat) {
    match alg
    case MD5 => 4
    case SHA1 => 5
  }

  function Compress(alg: Algorithm, s: seq<Word>, b: seq<byte>): (s': seq<Word>)
    requires |s| == Size(alg) && |b| == BLOCK
    ensures |s'| == Size(alg)
  {
    match alg
    case MD5 => Md5.Compress(s, b)
    case SHA1 => Sha1.Compress(s, b)
  }

  function Initial(alg: Algorithm): (s: seq<Word>)
    ensures |s| == Size(alg)
  {
    match alg
    case MD5 => [Word(0x67452301), Word(0xefcdab89), Word(0x98badcfe), Word(0x10325476)]
    case SHA1 => [Word(0x67452301), Word(0xEFCDAB89), Word(0x98BADCFE), Word(0x10325476), Word(0xC3D2E1F0)]
  }

  function EncodeWord(alg: Algorithm, w: Word): (b: seq<byte>)
    ensures |b| == 4
  {
    match alg
    case MD5 => [ByteOf(w, 0), ByteOf(w, 1), ByteOf(w, 2), ByteOf(w, 3)]
    case SHA1 => [ByteOf(w, 3), ByteOf(w, 2), ByteOf(w, 1), ByteOf(w, 0)]
  }

  function Encode(alg: Algorithm, words: seq<Word>): (b: seq<byte>)
    ensures |b| == 4 * |words|
  {
    if words == [] then [] else Encode(alg, words[..|words| - 1]) + EncodeWord(alg, words[|words| - 1])
  }

  // ----- The standards: pad, then fold -----

  function Fold(alg: Algorithm, s: seq<Word>, m: seq<byte>): (s': seq<Word>)
    requires |s| == Size(alg) && |m| % BLOCK == 0
    ensures |s'| == Size(alg)
    decreases |m|
  {
    if m == [] then s
    else Compress(alg, Fold(alg, s, m[..|m| - BLOCK]), m[|m| - BLOCK..])
  }

  function Zeros(n: nat): (z: seq<byte>)
    ensures |z| == n && forall i :: 0 <= i < n ==> z[i] == 0
  {
    if n == 0 then [] else Zeros(n - 1) + [0]
  }

  /** The number of zero bytes after the byte 0x80. */
  function ZeroCount(n: nat): nat {
    (119 - n % BLOCK) % BLOCK
  }

  /** It is the least number that leaves eight bytes of the last block for the length. */
  lemma ZeroCountLeast(n: nat, k: nat)
    ensures (n + 1 + ZeroCount(n)) % BLOCK == 56
    ensures (n + 1 + k) % BLOCK == 56 ==> ZeroCount(n) <= k
  {
    var q, r := n / BLOCK, n % BLOCK;
    DivMod(n, BLOCK);
    if r < 56 {
      DivModUnique(119 - r, BLOCK, 1, 55 - r);
      DivModUnique(n + 1 + ZeroCount(n), BLOCK, q, 56);
      if k < ZeroCount(n) {
        DivModUnique(n + 1 + k, BLOCK, q, r + 1 + k);
      }
    } else {
      DivModUnique(119 - r, BLOCK, 0, 119 - r);
      DivModUnique(n + 1 + ZeroCount(n), BLOCK, q + 1, 56);
      if r + 1 + k < BLOCK {
        DivModUnique(n + 1 + k, BLOCK, q, r + 1 + k);
      } else if k < ZeroCount(n) {
        DivModUnique(n + 1 + k, BLOCK, q + 1, r + 1 + k - BLOCK);
      }
    }
  }

  type bits32 = x: int | 0 <= x < 0x1_0000_0000

  function ToWord(x: bits32): Word {
    Word(x as bv32)
  }

  /** The length in bits modulo 2^64, as two words in the order of the standard. */
  function LengthWords(alg: Algorithm, bits: nat): (words: seq<Word>)
    requires bits < WRAP64
    ensures |words| == 2
  {
    var low, high := ToWord(bits % 0x1_0000_0000), ToWord(bits / 0x1_0000_0000);
    match alg
    case MD5 => [low, high]
    case SHA1 => [high, low]
  }

  function BitLength(m: seq<byte>): (bits: nat)
    ensures bits < WRAP64
  {
    8 * |m| % WRAP64
  }

  function Padding(n: nat): (p: seq<byte>)
    ensures |p| == 1 + ZeroCount(n)
  {
    [0x80] + Zeros(ZeroCount(n))
  }

  /** Sections 3.1 and 3.2 of RFC 1321, section 5.1.1 of FIPS 180-4. */
  function Padded(alg: Algorithm, m: seq<byte>): (p: seq<byte>)
    ensures |p| % BLOCK == 0
  {
    ZeroCountLeast(|m|, 0);
    var n := |m| + 1 + ZeroCount(|m|);
    DivMod(n, BLOCK);
    DivModUnique(n + 8, BLOCK, n / BLOCK + 1, 0);
    m + Padding(|m|) + Encode(alg, LengthWords(alg, BitLength(m)))
  }

  function Digest(alg: Algorithm, m: seq<byte>): seq<byte> {
    Encode(alg, Fold(alg, Initial(alg), Padded(alg, m)))
  }

  // ----- Streaming -----

  /** The part of a message that fills whole blocks. */
  function Whole(m: seq<byte>): (w: seq<byte>)
    ensures |w| % BLOCK == 0 && |w| <= |m|
  {
    DivMod(|m|, BLOCK);
    DivModUnique(|m| - |m| % BLOCK, BLOCK, |m| / BLOCK, 0);
    m[..|m| - |m| % BLOCK]
  }

  /** The fill level of the buffer, as computed from the bit count. */
  lemma FillLevel(n: nat)
    ensures 8 * n % WRAP64 / 8 % BLOCK == n % BLOCK
  {
    var m := 0x2000_0000_0000_0000;
    DivMod(n, m);
    DivModUnique(8 * n, WRAP64, n / m, 8 * (n % m));
    DivModUnique(8 * (n % m), 8, n % m, 0);
    var r := n % m;
    DivMod(r, BLOCK);
    DivModUnique(n, BLOCK, n / m * 0x80_0000_0000_0000 + r / BLOCK, r % BLOCK);
  }

  lemma CountAdd(a: nat, b: nat)
    ensures (8 * a % WRAP64 + 8 * b) % WRAP64 == 8 * (a + b) % WRAP64
  {
    DivMod(8 * a, WRAP64);
    var y := 8 * a % WRAP64 + 8 * b;
    DivMod(y, WRAP64);
    DivModUnique(8 * (a + b), WRAP64, 8 * a / WRAP64 + y / WRAP64, y % WRAP64);
  }

  lemma WholeIs(m: seq<byte>, n: nat)
    requires n <= |m| < n + BLOCK && n % BLOCK == 0
    ensures Whole(m) == m[..n] && |m| % BLOCK == |m| - n
  {
    DivMod(n, BLOCK);
    DivModUnique(|m|, BLOCK, n / BLOCK, |m| - n);
  }

  /** The buffered rest of m and the first bytes of the data complete a block of the joint message. */
  lemma JoinBlock(m: seq<byte>, data: seq<byte>, part: nat)
    requires part == BLOCK - |m| % BLOCK <= |data|
    ensures (|m| + part) % BLOCK == 0 && Whole(m) + (m[|Whole(m)|..] + data[..part]) == (m + data)[..|m| + part]
  {
    DivMod(|m|, BLOCK);
    DivModUnique(|m| + part, BLOCK, |m| / BLOCK + 1, 0);
  }

  /** The rest of the joint message when the data does not complete a block. */
  lemma JoinRest(m: seq<byte>, data: seq<byte>)
    requires |m| % BLOCK + |data| < BLOCK
    ensures Whole(m + data) == Whole(m) && |m + data| % BLOCK == |m| % BLOCK + |data|
    ensures (m + data)[|Whole(m)|..] == m[|Whole(m)|..] + data
  {
    WholeIs(m + data, |Whole(m)|);
  }

  /** The rest of the joint message when the data is compressed up to index i. */
  lemma JoinTail(m: seq<byte>, data: seq<byte>, i: nat)
    requires i <= |data| < i + BLOCK && (|m| + i) % BLOCK == 0
    ensures Whole(m + data) == (m + data)[..|m| + i] && |m + data| % BLOCK == |data| - i
    ensures (m + data)[|Whole(m + data)|..] == data[i..]
  {
    WholeIs(m + data, |m| + i);
  }

  /** The index at which the block loop of an update stands after n turns, in 32-bit arithmetic. */
  function Counter(index: nat, n: nat): nat
    requires index < BLOCK
  {
    if n == 0 then BLOCK - index else (Counter(index, n - 1) + BLOCK) % WRAP32
  }

  /** The test of the block loop, in 32-bit arithmetic. */
  predicate Continues(i: nat, len: nat) {
    (i + BLOCK - 1) % WRAP32 < len
  }

  lemma {:induction false} CounterBelow(index: nat, n: nat)
    requires index < BLOCK && (n + 1) * BLOCK - index < WRAP32
    ensures Counter(index, n) == (n + 1) * BLOCK - index
  {
    if n > 0 {
      CounterBelow(index, n - 1);
      DivModUnique((n + 1) * BLOCK - index, WRAP32, 0, (n + 1) * BLOCK - index);
    }
  }

  /** In an update that is too long, the index runs up to 2^32 - index and starts again: the loop never ends. */
  lemma {:induction false} CounterCycles(index: nat, len: nat, n: nat)
    requires index < BLOCK && len < WRAP32 <= index + len
    ensures var i := Counter(index, n);
            BLOCK - index <= i <= WRAP32 - index && (i + index) % BLOCK == 0 && Continues(i, len)
  {
    hide Continues;
    if n > 0 {
      CounterCycles(index, len, n - 1);
      CycleStep(index, Counter(index, n - 1));
    }
    CycleTest(index, len, Counter(index, n));
  }

  lemma CycleTest(index: nat, len: nat, i: nat)
    requires index < BLOCK && len < WRAP32 <= index + len
    requires BLOCK - index <= i <= WRAP32 - index && (i + index) % BLOCK == 0
    ensures Continues(i, len)
  {
    DivMod(i + index, BLOCK);
    if i < WRAP32 - index {
      DivModUnique(i + BLOCK - 1, WRAP32, 0, i + BLOCK - 1);
    } else {
      DivModUnique(i + BLOCK - 1, WRAP32, 1, BLOCK - 1 - index);
    }
  }

  lemma CycleStep(index: nat, i: nat)
    requires 0 < index < BLOCK && BLOCK - index <= i <= WRAP32 - index && (i + index) % BLOCK == 0
    ensures var i' := (i + BLOCK) % WRAP32;
            BLOCK - index <= i' <= WRAP32 - index && (i' + index) % BLOCK == 0
  {
    DivMod(i + index, BLOCK);
    var q := (i + index) / BLOCK;
    if i < WRAP32 - index {
      DivModUnique(i + BLOCK, WRAP32, 0, i + BLOCK);
      DivModUnique(i + BLOCK + index, BLOCK, q + 1, 0);
    } else {
      DivModUnique(i + BLOCK, WRAP32, 1, BLOCK - index);
    }
  }

  /** The block loop of an update comes to its end if and only if fill level and length add up to less than 2^32. */
  lemma UpdateTerminates(index: nat, len: nat)
    requires index < BLOCK <= index + len && len < WRAP32
    ensures (exists n: nat :: !Continues(Counter(index, n), len)) <==> index + len < WRAP32
  {
    hide Counter, Continues;
    if index + len < WRAP32 {
      StopsThere(index, len);
    } else {
      forall n: nat ensures Continues(Counter(index, n), len) {
        CounterCycles(index, len, n);
      }
    }
  }

  lemma StopsThere(index: nat, len: nat)
    requires index < BLOCK <= index + len < WRAP32
    ensures !Continues(Counter(index, (index + len) / BLOCK - 1), len)
  {
    hide Counter;
    var q := (index + len) / BLOCK;
    DivMod(index + len, BLOCK);
    CounterBelow(index, q - 1);
    var i := q * BLOCK - index;
    DivModUnique(i + BLOCK - 1, WRAP32, 0, i + BLOCK - 1);
  }

  /** The first bytes of the code's padding block are the padding of the standard. */
  lemma PadLength(n: nat)
    ensures var index := n % BLOCK;
            var padLen := if index < 56 then 56 - index else 120 - index;
            padLen <= BLOCK && ([0x80] + Zeros(BLOCK - 1))[..padLen] == Padding(n)
  {
    var r := n % BLOCK;
    if r < 56 {
      DivModUnique(119 - r, BLOCK, 1, 55 - r);
    } else {
      DivModUnique(119 - r, BLOCK, 0, 119 - r);
    }
    hide Zeros;
  }

  lemma PaddedWhole(alg: Algorithm, m: seq<byte>)
    ensures Whole(Padded(alg, m)) == Padded(alg, m)
  {
    WholeIs(Padded(alg, m), |Padded(alg, m)|);
  }

  /** After one more block. */
  lemma FoldStep(alg: Algorithm, s: seq<Word>, m: seq<byte>, b: seq<byte>)
    requires |s| == Size(alg) && |m| % BLOCK == 0 && |b| == BLOCK
    ensures (|m| + BLOCK) % BLOCK == 0 && Fold(alg, s, m + b) == Compress(alg, Fold(alg, s, m), b)
  {
    DivMod(|m|, BLOCK);
    DivModUnique(|m| + BLOCK, BLOCK, |m| / BLOCK + 1, 0);
    assert (m + b)[..|m|] == m && (m + b)[|m|..] == b;
    hide Compress;
  }

  class Context {
    const alg: Algorithm
    const state: array<Word>
    const buffer: array<byte>
    var bitCount: nat
    ghost var message: seq<byte>

    /** The context has absorbed the message: its whole blocks are folded into the state, the rest is buffered. */
    ghost predicate Valid()
      reads this, state, buffer
    {
      && state.Length == Size(alg) && buffer.Length == BLOCK && state as object != buffer
      && bitCount == BitLength(message)
      && state[..] == Fold(alg, Initial(alg), Whole(message))
      && buffer[..|message| % BLOCK] == message[|Whole(message)|..]
    }

    constructor (alg: Algorithm)
      ensures Valid() && message == [] && this.alg == alg && fresh(state) && fresh(buffer)
    {
      this.alg := alg;
      var init := Initial(alg);
      state := new Word[Size(alg)](i requires 0 <= i < |init| => init[i]);
      buffer := new byte[BLOCK](_ => 0);
      bitCount, message := 0, [];
      new;
      assert state[..] == Initial(alg);
    }

    /** Copies bytes into the buffer. */
    method Fill(index: nat, src: seq<byte>)
      requires buffer.Length == BLOCK && index + |src| <= BLOCK
      modifies buffer
      ensures buffer[..index] == old(buffer[..index]) && buffer[index..index + |src|] == src
    {
      for k := 0 to |src|
        invariant buffer[..index] == old(buffer[..index]) && buffer[index..index + k] == src[..k]
      {
        buffer[index + k] := src[k];
      }
    }

    method Transform(block: seq<byte>, ghost m: seq<byte>)
      requires state.Length == Size(alg) && |block| == BLOCK && |m| % BLOCK == 0
      requires state[..] == Fold(alg, Initial(alg), m)
      modifies state
      ensures (|m| + BLOCK) % BLOCK == 0 && state[..] == Fold(alg, Initial(alg), m + block)
    {
      FoldStep(alg, Initial(alg), m, block);
      hide Initial, Fold, Sha1.Compress, Md5.Compress;
      match alg
      case MD5 => Md5.Transform(state, block);
      case SHA1 => Sha1.Transform(state, block);
    }

    /** Compresses the whole blocks of the data from i on.  The loop test is 32-bit arithmetic. */
    method Blocks(data: seq<byte>, start: nat, ghost m: seq<byte>) returns (i: nat)
      requires state.Length == Size(alg) && start <= |data| && start <= BLOCK && |data| + BLOCK - start < WRAP32
      requires (|m| + start) % BLOCK == 0 && state[..] == Fold(alg, Initial(alg), (m + data)[..|m| + start])
      modifies state
      ensures start <= i <= |data| < i + BLOCK && (|m| + i) % BLOCK == 0
      ensures state[..] == Fold(alg, Initial(alg), (m + data)[..|m| + i])
    {
      hide Fold, Initial;
      i := start;
      while (i + BLOCK - 1) % WRAP32 < |data|
        invariant start <= i <= |data| && (|m| + i) % BLOCK == 0
        invariant state[..] == Fold(alg, Initial(alg), (m + data)[..|m| + i])
        decreases |data| - i
      {
        DivModUnique(i + BLOCK - 1, WRAP32, 0, i + BLOCK - 1);
        ghost var t := m + data;
        Transform(data[i..i + BLOCK], t[..|m| + i]);
        assert t[..|m| + i] + data[i..i + BLOCK] == t[..|m| + i + BLOCK];
        i := i + BLOCK;
      }
      DivModUnique(i + BLOCK - 1, WRAP32, 0, i + BLOCK - 1);
    }

    /** Completes the buffered block with the first bytes of the data and compresses it. */
    method CompleteBlock(index: nat, data: seq<byte>)
      requires Valid() && index == |message| % BLOCK && BLOCK - index <= |data|
      modifies state, buffer
      ensures (|message| + BLOCK - index) % BLOCK == 0
      ensures state[..] == Fold(alg, Initial(alg), (message + data)[..|message| + BLOCK - index])
    {
      hide Fold, Initial, Size;
      var part := BLOCK - index;
      JoinBlock(message, data, part);
      ghost var w := Whole(message);
      hide Whole;
      Fill(index, data[..part]);
      assert buffer[..] == buffer[..index] + buffer[index..index + part];
      Transform(buffer[..], w);
    }

    /** Buffers data that does not complete a block. */
    method Buffer(index: nat, data: seq<byte>)
      requires Valid() && index == |message| % BLOCK && index + |data| < BLOCK
      modifies buffer
      ensures state[..] == Fold(alg, Initial(alg), Whole(message + data))
      ensures buffer[..|message + data| % BLOCK] == (message + data)[|Whole(message + data)|..]
    {
      hide Fold, Initial, Size;
      JoinRest(message, data);
      hide Whole;
      Fill(index, data);
      assert buffer[..index + |data|] == buffer[..index] + buffer[index..index + |data|];
    }

    /** Compresses all blocks that the data completes and buffers the rest. */
    method Absorb(index: nat, data: seq<byte>)
      requires Valid() && index == |message| % BLOCK && BLOCK <= index + |data| < WRAP32
      modifies state, buffer
      ensures state[..] == Fold(alg, Initial(alg), Whole(message + data))
      ensures buffer[..|message + data| % BLOCK] == (message + data)[|Whole(message + data)|..]
    {
      hide Fold, Initial, Size, Whole;
      CompleteBlock(index, data);
      var i := Blocks(data, BLOCK - index, message);
      JoinTail(message, data, i);
      Fill(0, data[i..]);
    }

    /** Appends data to the message. */
    method Update(data: seq<byte>)
      requires Valid() && |message| % BLOCK + |data| < WRAP32
      modifies this`bitCount, this`message, state, buffer
      ensures Valid() && message == old(message) + data
    {
      hide Fold, Initial, Size, Whole;
      FillLevel(|message|);
      CountAdd(|message|, |data|);
      var index := bitCount / 8 % BLOCK;
      if |data| >= BLOCK - index {
        Absorb(index, data);
      } else {
        Buffer(index, data);
      }
      bitCount := (bitCount + 8 * |data|) % WRAP64;
      message := message + data;
    }

    /** Pads the message, and returns the digest of what has been appended before; the context is wiped. */
    method Final() returns (digest: seq<byte>)
      requires Valid()
      modifies this`bitCount, this`message, state, buffer
      ensures digest == Digest(alg, old(message))
      ensures bitCount == 0 && (forall i :: 0 <= i < state.Length ==> state[i] == Word(0)) &&
        (forall i :: 0 <= i < BLOCK ==> buffer[i] == 0)
    {
      hide Fold, Initial, Size, Whole, Encode, LengthWords, Zeros;
      ghost var m := message;
      FillLevel(|m|);
      var bits := EncodeWords(alg, LengthWords(alg, bitCount));
      var index := bitCount / 8 % BLOCK;
      var padLen := if index < 56 then 56 - index else 120 - index;
      PadLength(|m|);
      var padding := [0x80] + Zeros(BLOCK - 1);
      Update(padding[..padLen]);
      Update(bits);
      PaddedWhole(alg, m);
      digest := EncodeWords(alg, state[..]);
      Wipe();
    }

    method Wipe()
      requires buffer.Length == BLOCK
      modifies this`bitCount, this`message, state, buffer
      ensures bitCount == 0 && (forall i :: 0 <= i < state.Length ==> state[i] == Word(0)) &&
        (forall i :: 0 <= i < BLOCK ==> buffer[i] == 0)
    {
      forall i | 0 <= i < state.Length {
        state[i] := Word(0);
      }
      forall i | 0 <= i < BLOCK {
        buffer[i] := 0;
      }
      bitCount, message := 0, [];
    }
  }

  method EncodeWords(alg: Algorithm, words: seq<Word>) returns (bytes: seq<byte>)
    ensures bytes == Encode(alg, words)
  {
    hide EncodeWord;
    bytes := [];
    for i := 0 to |words|
      invariant bytes == Encode(alg, words[..i])
    {
      assert words[..i + 1][..i] == words[..i];
      bytes := bytes + EncodeWord(alg, words[i]);
    }
    assert words[..|words|] == words;
  }

  method Calculate(alg: Algorithm, data: seq<byte>) returns (digest: seq<byte>)
    requires |data| < WRAP32
    ensures digest == Digest(alg, data)
  {
    hide Digest, Fold, Initial, Size, Whole;
    var context := new Context(alg);
    context.Update(data);
    assert [] + data == data;
    digest := context.Final();
  }

  function Concat(chunks: seq<seq<byte>>): seq<byte> {
    if chunks == [] then [] else Concat(chunks[..|chunks| - 1]) + chunks[|chunks| - 1]
  }

  /** The digest does not depend on how the message is split into updates. */
  method DigestOfChunks(alg: Algorithm, chunks: seq<seq<byte>>) returns (digest: seq<byte>)
    requires forall i :: 0 <= i < |chunks| ==> |Concat(chunks[..i])| % BLOCK + |chunks[i]| < WRAP32
    ensures digest == Digest(alg, Concat(chunks))
  {
    hide Digest, Fold, Initial, Size, Whole;
    var context := new Context(alg);
    for i := 0 to |chunks|
      invariant context.Valid() && context.alg == alg && context.message == Concat(chunks[..i])
      invariant fresh(context) && fresh(context.state) && fresh(context.buffer)
    {
      assert chunks[..i + 1][..i] == chunks[..i];
      context.Update(chunks[i]);
    }
    assert chunks[..|chunks|] == chunks;
    digest := context.Final();
  }
}
