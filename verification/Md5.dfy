/** The MD5 compression function, after section 3.4 of RFC 1321, and the code that computes it. */
module Md5 {
  import opened Common
  import opened Words

  function F(x: Word, y: Word, z: Word): Word { Or(And(x, y), And(Not(x), z)) }

  function G(x: Word, y: Word, z: Word): Word { Or(And(x, z), And(y, Not(z))) }

  function H(x: Word, y: Word, z: Word): Word { Xor(Xor(x, y), z) }

  function I(x: Word, y: Word, z: Word): Word { Xor(y, Or(x, Not(z))) }

  function Mix(i: nat, x: Word, y: Word, z: Word): Word {
    if i < 16 then F(x, y, z) else if i < 32 then G(x, y, z) else if i < 48 then H(x, y, z) else I(x, y, z)
  }

  /** The word of the block that step i uses. */
  function Index(i: nat): (k: nat)
    ensures k < 16
  {
    if i < 16 then i else if i < 32 then (5 * i + 1) % 16 else if i < 48 then (3 * i + 5) % 16 else 7 * i % 16
  }

  /** The rotation of step i. */
  function Shift(i: nat): (s: nat)
    ensures 0 < s < 32
  {
    var j := i % 4;
    if i < 16 then [7, 12, 17, 22][j]
    else if i < 32 then [5, 9, 14, 20][j]
    else if i < 48 then [4, 11, 16, 23][j]
    else [6, 10, 15, 21][j]
  }

  const SINES: seq<seq<Word>> :=
    [[Word(0xd76aa478), Word(0xe8c7b756), Word(0x242070db), Word(0xc1bdceee),
      Word(0xf57c0faf), Word(0x4787c62a), Word(0xa8304613), Word(0xfd469501),
      Word(0x698098d8), Word(0x8b44f7af), Word(0xffff5bb1), Word(0x895cd7be),
      Word(0x6b901122), Word(0xfd987193), Word(0xa679438e), Word(0x49b40821)],
     [Word(0xf61e2562), Word(0xc040b340), Word(0x265e5a51), Word(0xe9b6c7aa),
      Word(0xd62f105d), Word(0x02441453), Word(0xd8a1e681), Word(0xe7d3fbc8),
      Word(0x21e1cde6), Word(0xc33707d6), Word(0xf4d50d87), Word(0x455a14ed),
      Word(0xa9e3e905), Word(0xfcefa3f8), Word(0x676f02d9), Word(0x8d2a4c8a)],
     [Word(0xfffa3942), Word(0x8771f681), Word(0x6d9d6122), Word(0xfde5380c),
      Word(0xa4beea44), Word(0x4bdecfa9), Word(0xf6bb4b60), Word(0xbebfbc70),
      Word(0x289b7ec6), Word(0xeaa127fa), Word(0xd4ef3085), Word(0x04881d05),
      Word(0xd9d4d039), Word(0xe6db99e5), Word(0x1fa27cf8), Word(0xc4ac5665)],
     [Word(0xf4292244), Word(0x432aff97), Word(0xab9423a7), Word(0xfc93a039),
      Word(0x655b59c3), Word(0x8f0ccc92), Word(0xffeff47d), Word(0x85845dd1),
      Word(0x6fa87e4f), Word(0xfe2ce6e0), Word(0xa3014314), Word(0x4e0811a1),
      Word(0xf7537e82), Word(0xbd3af235), Word(0x2ad7d2bb), Word(0xeb86d391)]]

  function T(i: nat): Word
    requires i < 64
  {
    SINES[i / 16][i % 16]
  }

  datatype Regs = Regs(a: Word, b: Word, c: Word, d: Word)

  /** The value that step i computes from the four registers. */
  function Step(a: Word, b: Word, c: Word, d: Word, x: Word, i: nat): Word
    requires i < 64
  {
    Add(Rotl(Add(Add(Add(a, Mix(i, b, c, d)), x), T(i)), Shift(i)), b)
  }

  /** One step of the standard: the registers move on by one place. */
  function Round(r: Regs, x: seq<Word>, i: nat): Regs
    requires |x| == 16 && i < 64
  {
    Regs(r.d, Step(r.a, r.b, r.c, r.d, x[Index(i)], i), r.b, r.c)
  }

  function Rounds(r: Regs, x: seq<Word>, i: nat): Regs
    requires |x| == 16 && i <= 64
  {
    if i == 0 then r else Round(Rounds(r, x, i - 1), x, i - 1)
  }

  /** The little-endian words of a block. */
  function Decode(b: seq<byte>): (x: seq<Word>)
    requires |b| == 64
    ensures |x| == 16 && forall i :: 0 <= i < 16 ==>
      x[i] == FromBytes(b[4 * i + 3], b[4 * i + 2], b[4 * i + 1], b[4 * i])
  {
    seq(16, i requires 0 <= i < 16 => FromBytes(b[4 * i + 3], b[4 * i + 2], b[4 * i + 1], b[4 * i]))
  }

  function Compress(s: seq<Word>, b: seq<byte>): (s': seq<Word>)
    requires |s| == 4 && |b| == 64
    ensures |s'| == 4
  {
    var r := Rounds(Regs(s[0], s[1], s[2], s[3]), Decode(b), 64);
    [Add(s[0], r.a), Add(s[1], r.b), Add(s[2], r.c), Add(s[3], r.d)]
  }

  method DecodeBlock(block: seq<byte>) returns (words: seq<Word>)
    requires |block| == 64
    ensures words == Decode(block)
  {
    hide FromBytes;
    var x := new Word[16](_ => Word(0));
    var i, j := 0, 0;
    while j < 64
      invariant i <= 16 && j == 4 * i
      invariant forall k :: 0 <= k < i ==>
        x[k] == FromBytes(block[4 * k + 3], block[4 * k + 2], block[4 * k + 1], block[4 * k])
    {
      x[i] := FromBytes(block[j + 3], block[j + 2], block[j + 1], block[j]);
      i, j := i + 1, j + 4;
    }
    words := x[..];
  }

  // ----- The steps as the code lists them -----

  /** The words and the rotations of the steps, round by round, as they are written down in the code. */
  const WORDS: seq<seq<nat>> :=
    [[0, 1, 2, 3, 4, 5, 6, 7, 8, 9, 10, 11, 12, 13, 14, 15],
     [1, 6, 11, 0, 5, 10, 15, 4, 9, 14, 3, 8, 13, 2, 7, 12],
     [5, 8, 11, 14, 1, 4, 7, 10, 13, 0, 3, 6, 9, 12, 15, 2],
     [0, 7, 14, 5, 12, 3, 10, 1, 8, 15, 6, 13, 4, 11, 2, 9]]

  const ROTATIONS: seq<seq<nat>> :=
    [[7, 12, 17, 22, 7, 12, 17, 22, 7, 12, 17, 22, 7, 12, 17, 22],
     [5, 9, 14, 20, 5, 9, 14, 20, 5, 9, 14, 20, 5, 9, 14, 20],
     [4, 11, 16, 23, 4, 11, 16, 23, 4, 11, 16, 23, 4, 11, 16, 23],
     [6, 10, 15, 21, 6, 10, 15, 21, 6, 10, 15, 21, 6, 10, 15, 21]]

  /** They are those of the standard. */
  lemma Listed(q: nat, j: nat)
    requires q < 4 && j < 16
    ensures |WORDS| == |ROTATIONS| == 4 && |WORDS[q]| == |ROTATIONS[q]| == 16
    ensures WORDS[q][j] == Index(16 * q + j) && ROTATIONS[q][j] == Shift(16 * q + j)
  {
    hide Index, Shift;
    match q
    case 0 => Listed0(j);
    case 1 => Listed1(j);
    case 2 => Listed2(j);
    case 3 => Listed3(j);
  }

  lemma Listed0(j: nat)
    requires j < 16
    ensures WORDS[0][j] == Index(j) && ROTATIONS[0][j] == Shift(j)
  {
    assert j == 0 || j == 1 || j == 2 || j == 3 || j == 4 || j == 5 || j == 6 || j == 7 || 8 <= j;
  }

  lemma Listed1(j: nat)
    requires j < 16
    ensures WORDS[1][j] == Index(16 + j) && ROTATIONS[1][j] == Shift(16 + j)
  {
    assert j == 0 || j == 1 || j == 2 || j == 3 || j == 4 || j == 5 || j == 6 || j == 7 || 8 <= j;
  }

  lemma Listed2(j: nat)
    requires j < 16
    ensures WORDS[2][j] == Index(32 + j) && ROTATIONS[2][j] == Shift(32 + j)
  {
    assert j == 0 || j == 1 || j == 2 || j == 3 || j == 4 || j == 5 || j == 6 || j == 7 || 8 <= j;
  }

  lemma Listed3(j: nat)
    requires j < 16
    ensures WORDS[3][j] == Index(48 + j) && ROTATIONS[3][j] == Shift(48 + j)
  {
    assert j == 0 || j == 1 || j == 2 || j == 3 || j == 4 || j == 5 || j == 6 || j == 7 || 8 <= j;
  }

  /** A step of the code. */
  function CodeStep(a: Word, b: Word, c: Word, d: Word, x: seq<Word>, i: nat): (w: Word)
    requires |x| == 16 && i < 64
    ensures w == Step(a, b, c, d, x[Index(i)], i)
  {
    Listed(i / 16, i % 16);
    Add(Rotl(Add(Add(Add(a, Mix(i, b, c, d)), x[WORDS[i / 16][i % 16]]), T(i)), ROTATIONS[i / 16][i % 16]), b)
  }

  lemma RoundsStep(r: Regs, x: seq<Word>, i: nat)
    requires |x| == 16 && i < 64
    ensures Rounds(r, x, 0) == r && Rounds(r, x, i + 1) == Round(Rounds(r, x, i), x, i)
  {
    hide Round;
  }

  /** Four steps with the registers in fixed places agree with four steps of the standard. */
  lemma FourSteps(r: Regs, x: seq<Word>, i: nat, a: Word, b: Word, c: Word, d: Word)
    requires |x| == 16 && i + 4 <= 64 && Rounds(r, x, i) == Regs(a, b, c, d)
    ensures var a' := Step(a, b, c, d, x[Index(i)], i);
            var d' := Step(d, a', b, c, x[Index(i + 1)], i + 1);
            var c' := Step(c, d', a', b, x[Index(i + 2)], i + 2);
            var b' := Step(b, c', d', a', x[Index(i + 3)], i + 3);
            Rounds(r, x, i + 4) == Regs(a', b', c', d')
  {
    hide Step, Index, Rounds;
    RoundsStep(r, x, i);
    RoundsStep(r, x, i + 1);
    RoundsStep(r, x, i + 2);
    RoundsStep(r, x, i + 3);
  }

  /** The sixty-four steps, four at a time. */
  method RunRounds(r: Regs, x: seq<Word>) returns (r': Regs)
    requires |x| == 16
    ensures r' == Rounds(r, x, 64)
  {
    hide Step, Index, Rounds, CodeStep;
    RoundsStep(r, x, 0);
    var a, b, c, d := r.a, r.b, r.c, r.d;
    for q := 0 to 16
      invariant Regs(a, b, c, d) == Rounds(r, x, 4 * q)
    {
      var i := 4 * q;
      FourSteps(r, x, i, a, b, c, d);
      a := CodeStep(a, b, c, d, x, i);
      d := CodeStep(d, a, b, c, x, i + 1);
      c := CodeStep(c, d, a, b, x, i + 2);
      b := CodeStep(b, c, d, a, x, i + 3);
    }
    r' := Regs(a, b, c, d);
  }

  method Transform(state: array<Word>, block: seq<byte>)
    requires state.Length == 4 && |block| == 64
    modifies state
    ensures state[..] == Compress(old(state[..]), block)
  {
    hide Add, Rounds, Decode;
    var x := DecodeBlock(block);
    var r := RunRounds(Regs(state[0], state[1], state[2], state[3]), x);
    state[0] := Add(state[0], r.a);
    state[1] := Add(state[1], r.b);
    state[2] := Add(state[2], r.c);
    state[3] := Add(state[3], r.d);
  }
}
