/** The SHA-1 compression function, after section 6.1.2 of FIPS 180-4, and the loops that compute it. */
module Sha1 {
  import opened Common
  import opened Words

  /** A big-endian word. */
  function Load(b: seq<byte>, i: nat): Word
    requires i + 4 <= |b|
  {
    FromBytes(b[i], b[i + 1], b[i + 2], b[i + 3])
  }

  function Ch(x: Word, y: Word, z: Word): Word { Xor(And(x, y), And(Not(x), z)) }

  function Parity(x: Word, y: Word, z: Word): Word { Xor(Xor(x, y), z) }

  function Maj(x: Word, y: Word, z: Word): Word { Xor(Xor(And(x, y), And(x, z)), And(y, z)) }

  /** The round function and constant of step t. */
  function F(t: nat, x: Word, y: Word, z: Word): Word {
    if t < 20 then Ch(x, y, z) else if t < 40 then Parity(x, y, z) else if t < 60 then Maj(x, y, z) else Parity(x, y, z)
  }

  function K(t: nat): Word {
    if t < 20 then Word(0x5A827999)
    else if t < 40 then Word(0x6ED9EBA1)
    else if t < 60 then Word(0x8F1BBCDC)
    else Word(0xCA62C1D6)
  }

  /** The constants are the integral parts of the square roots of 2, 3, 5 and 10, times 2^30. */
  lemma Roots(t: nat)
    ensures var n, p := K(t).bits as int, if t < 20 then 2 else if t < 40 then 3 else if t < 60 then 5 else 10;
            n * n <= p * 0x1000_0000_0000_0000 < (n + 1) * (n + 1)
  {
    assert 0x5A827999 as bv32 as int == 0x5A827999 && 0x6ED9EBA1 as bv32 as int == 0x6ED9EBA1;
    assert 0x8F1BBCDC as bv32 as int == 0x8F1BBCDC && 0xCA62C1D6 as bv32 as int == 0xCA62C1D6;
  }

  /** The message schedule. */
  function W(b: seq<byte>, t: nat): Word
    requires |b| == 64
  {
    if t < 16 then Load(b, 4 * t)
    else Rotl(Xor(Xor(Xor(W(b, t - 3), W(b, t - 8)), W(b, t - 14)), W(b, t - 16)), 1)
  }

  datatype Regs = Regs(a: Word, b: Word, c: Word, d: Word, e: Word)

  function Round(r: Regs, t: nat, w: Word): Regs {
    Regs(Add(Add(Add(Add(Rotl(r.a, 5), F(t, r.b, r.c, r.d)), r.e), K(t)), w), r.a, Rotl(r.b, 30), r.c, r.d)
  }

  function Rounds(r: Regs, b: seq<byte>, t: nat): Regs
    requires |b| == 64
  {
    if t == 0 then r else Round(Rounds(r, b, t - 1), t - 1, W(b, t - 1))
  }

  /** Section 6.1.2 of FIPS 180-4 for one block. */
  function Compress(s: seq<Word>, b: seq<byte>): (s': seq<Word>)
    requires |s| == 5 && |b| == 64
    ensures |s'| == 5
  {
    var r := Rounds(Regs(s[0], s[1], s[2], s[3], s[4]), b, 80);
    [Add(s[0], r.a), Add(s[1], r.b), Add(s[2], r.c), Add(s[3], r.d), Add(s[4], r.e)]
  }

  /** The message schedule is computed in a table of 80 words. */
  method Schedule(block: seq<byte>) returns (schedule: seq<Word>)
    requires |block| == 64
    ensures |schedule| == 80 && forall t :: 0 <= t < 80 ==> schedule[t] == W(block, t)
  {
    hide Rotl, Xor, Load;
    var w := new Word[80](_ => Word(0));
    for t := 0 to 16
      invariant forall u :: 0 <= u < t ==> w[u] == W(block, u)
    {
      w[t] := Load(block, t * 4);
    }
    for t := 16 to 80
      invariant forall u :: 0 <= u < t ==> w[u] == W(block, u)
    {
      w[t] := Rotl(Xor(Xor(Xor(w[t - 3], w[t - 8]), w[t - 14]), w[t - 16]), 1);
    }
    schedule := w[..];
  }

  /** The round function and constant of step t as the code selects them: choice and majority are written with "or"
      where the standard has "exclusive or". */
  method Select(t: nat, b: Word, c: Word, d: Word) returns (f: Word, k: Word)
    ensures f == F(t, b, c, d) && k == K(t)
    ensures var n, p := k.bits as int, if t < 20 then 2 else if t < 40 then 3 else if t < 60 then 5 else 10;
            n * n <= p * 0x1000_0000_0000_0000 < (n + 1) * (n + 1)
  {
    Roots(t);
    hide And, Or, Xor, Not;
    if t < 20 {
      ChoiceBits(b, c, d);
      f := Or(And(b, c), And(Not(b), d));
      k := Word(0x5A827999);
    } else if t < 40 {
      f := Xor(Xor(b, c), d);
      k := Word(0x6ED9EBA1);
    } else if t < 60 {
      MajorityBits(b, c, d);
      f := Or(Or(And(b, c), And(b, d)), And(c, d));
      k := Word(0x8F1BBCDC);
    } else {
      f := Xor(Xor(b, c), d);
      k := Word(0xCA62C1D6);
    }
  }

  lemma RoundsStep(r: Regs, b: seq<byte>, t: nat)
    requires |b| == 64
    ensures Rounds(r, b, 0) == r && Rounds(r, b, t + 1) == Round(Rounds(r, b, t), t, W(b, t))
  {
    hide Round, W;
  }

  method RunRounds(r: Regs, block: seq<byte>) returns (r': Regs)
    requires |block| == 64
    ensures r' == Rounds(r, block, 80)
  {
    hide Add, Rotl, F, K, W, Rounds;
    var w := Schedule(block);
    var a, b, c, d, e := r.a, r.b, r.c, r.d, r.e;
    RoundsStep(r, block, 0);
    for t := 0 to 80
      invariant Regs(a, b, c, d, e) == Rounds(r, block, t)
    {
      RoundsStep(r, block, t);
      var f, k := Select(t, b, c, d);
      var temp := Add(Add(Add(Add(Rotl(a, 5), f), e), k), w[t]);
      e := d;
      d := c;
      c := Rotl(b, 30);
      b := a;
      a := temp;
    }
    r' := Regs(a, b, c, d, e);
  }

  method Transform(state: array<Word>, block: seq<byte>)
    requires state.Length == 5 && |block| == 64
    modifies state
    ensures state[..] == Compress(old(state[..]), block)
  {
    hide Add, Rounds;
    var r := RunRounds(Regs(state[0], state[1], state[2], state[3], state[4]), block);
    state[0] := Add(state[0], r.a);
    state[1] := Add(state[1], r.b);
    state[2] := Add(state[2], r.c);
    state[3] := Add(state[3], r.d);
    state[4] := Add(state[4], r.e);
  }
}
