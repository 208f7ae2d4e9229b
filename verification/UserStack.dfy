/** The initial user stack: argument and environment strings, the two pointer vectors and the entry words. */
module UserStack {
  import opened Common
  import opened Arith
  import opened Words

  const MAX_ARGS: nat := 64
  const MAX_ENVP: nat := 64
  const MAX_STR: nat := 4096
  const WRAP: nat := 0x1_0000_0000

  /** A string without its terminating zero byte. */
  type CString = seq<byte>

  predicate NoZero(s: CString) {
    forall i :: 0 <= i < |s| ==> s[i] != 0
  }

  predicate AllStrings(ss: seq<CString>) {
    forall i :: 0 <= i < |ss| ==> NoZero(ss[i])
  }

  // ----- Words in memory -----

  /** The four bytes of a word, least significant first. */
  function WordBytes(v: nat): (b: seq<byte>)
    requires v < WRAP
    ensures |b| == 4
  {
    [v % 256, v / 256 % 256, v / 0x1_0000 % 256, v / 0x100_0000 % 256]
  }

  lemma WordRoundTrip(m: seq<byte>, a: nat, v: nat)
    requires v < WRAP && a + 4 <= |m| && m[a..a + 4] == WordBytes(v)
    ensures ReadWord(m, a) == v
  {
    var b := m[a..a + 4];
    assert m[a] == b[0] && m[a + 1] == b[1] && m[a + 2] == b[2] && m[a + 3] == b[3];
    DivTwice(v, 0x100, 0x100);
    DivTwice(v, 0x1_0000, 0x100);
    DivMod(v, 256);
    DivMod(v / 0x100, 256);
    DivMod(v / 0x1_0000, 256);
    DivModUnique(v / 0x100_0000, 256, 0, v / 0x100_0000);
  }

  // ----- The layout -----

  /** Strings one after the other, each with its terminating zero. */
  function Flat(ss: seq<CString>): (b: seq<byte>) {
    if ss == [] then [] else ss[0] + [0] + Flat(ss[1..])
  }

  /** The address of string i, when the strings end at address end. */
  function Address(ss: seq<CString>, i: nat, end: int): int
    requires i <= |ss|
  {
    end - |Flat(ss[i..])|
  }

  function WordsBytes(vs: seq<nat>): (b: seq<byte>)
    requires forall i :: 0 <= i < |vs| ==> vs[i] < WRAP
    ensures |b| == 4 * |vs|
  {
    if vs == [] then [] else WordBytes(vs[0]) + WordsBytes(vs[1..])
  }

  /** How many bytes the stack image takes at most. */
  function Needed(argv: seq<CString>, envp: seq<CString>): nat {
    |Flat(argv)| + |Flat(envp)| + 3 + 4 * (|argv| + |envp| + 5)
  }

  // ----- What a program sees -----

  /** The string that starts at address a. */
  function ReadString(m: seq<byte>, a: nat): CString
    decreases |m| - a
  {
    if a >= |m| || m[a] == 0 then [] else [m[a]] + ReadString(m, a + 1)
  }

  /** A vector of n string pointers at address a, followed by a null pointer. */
  ghost predicate VectorAt(m: seq<byte>, a: nat, ss: seq<CString>) {
    && a + 4 * |ss| + 4 <= |m|
    && ReadWord(m, a + 4 * |ss|) == 0
    && forall i :: 0 <= i < |ss| ==> PointsTo(m, a + 4 * i, ss[i])
  }

  /** The word at address a is the address of the given string. */
  ghost predicate PointsTo(m: seq<byte>, a: nat, s: CString) {
    a + 4 <= |m| && ReadWord(m, a) != 0 && ReadString(m, ReadWord(m, a)) == s
  }

  /** The entry frame: argument count, argument vector, environment vector. */
  ghost predicate EntryFrame(m: seq<byte>, sp: nat, argv: seq<CString>, envp: seq<CString>) {
    && sp + 12 <= |m| && ReadWord(m, sp) == |argv|
    && VectorAt(m, ReadWord(m, sp + 4), argv) && VectorAt(m, ReadWord(m, sp + 8), envp)
  }

  lemma {:induction false} ReadStringAt(m: seq<byte>, a: nat, s: CString)
    requires NoZero(s) && a + |s| < |m| && m[a..a + |s| + 1] == s + [0]
    ensures ReadString(m, a) == s
    decreases |s|
  {
    assert m[a] == (s + [0])[0];
    if s != [] {
      assert m[a + 1..a + 1 + |s[1..]| + 1] == m[a..a + |s| + 1][1..] == s[1..] + [0];
      ReadStringAt(m, a + 1, s[1..]);
    }
  }

  /** String i of the block of strings that ends at address end. */
  lemma {:induction false} FlatAt(m: seq<byte>, ss: seq<CString>, i: nat, end: nat)
    requires i < |ss| && |Flat(ss)| <= end <= |m| && m[end - |Flat(ss)|..end] == Flat(ss)
    ensures |Flat(ss[i..])| <= |Flat(ss)|
    ensures var a := Address(ss, i, end); a + |ss[i]| < end && m[a..a + |ss[i]| + 1] == ss[i] + [0]
    decreases i
  {
    if i == 0 {
      assert ss[0..] == ss;
      var a := end - |Flat(ss)|;
      assert m[a..a + |ss[0]| + 1] == m[a..end][..|ss[0]| + 1];
    } else {
      var tail := ss[1..];
      assert ss[i..] == tail[i - 1..];
      var a := end - |Flat(ss)|;
      assert m[a + |ss[0]| + 1..end] == m[a..end][|ss[0]| + 1..];
      assert Flat(ss)[|ss[0]| + 1..] == Flat(tail);
      FlatAt(m, tail, i - 1, end);
    }
  }

  lemma {:induction false} WordsAt(m: seq<byte>, a: nat, vs: seq<nat>, i: nat)
    requires (forall k :: 0 <= k < |vs| ==> vs[k] < WRAP) && a + 4 * |vs| <= |m| && i < |vs|
    requires m[a..a + 4 * |vs|] == WordsBytes(vs)
    ensures ReadWord(m, a + 4 * i) == vs[i]
    decreases i
  {
    if i == 0 {
      assert m[a..a + 4] == m[a..a + 4 * |vs|][..4];
      WordRoundTrip(m, a, vs[0]);
    } else {
      assert m[a + 4..a + 4 * |vs|] == m[a..a + 4 * |vs|][4..];
      WordsAt(m, a + 4, vs[1..], i - 1);
    }
  }

  /** Where the parts of the image lie, from the lowest address up: entry words, argument vector, environment vector,
      then the strings. */
  datatype Layout = Layout(sp: int, argvAt: int, envpAt: int, aligned: int, args: int, envs: int)

  function LayoutOf(end: int, argv: seq<CString>, envp: seq<CString>): (l: Layout)
    ensures l.sp < l.argvAt < l.envpAt < l.aligned <= l.args <= l.envs <= end
    ensures l.sp % 4 == 0 && end - l.sp <= Needed(argv, envp)
  {
    var envs := end - |Flat(envp)|;
    var args := envs - |Flat(argv)|;
    var aligned := args - args % 4;
    var envpAt := aligned - 4 * (|envp| + 1);
    var argvAt := envpAt - 4 * (|argv| + 1);
    DivMod(args, 4);
    DivModUnique(argvAt - 12, 4, args / 4 - |envp| - |argv| - 5, 0);
    Layout(argvAt - 12, argvAt, envpAt, aligned, args, envs)
  }

  /** The addresses of all strings, then the null pointer. */
  function Pointers(ss: seq<CString>, end: nat): (vs: seq<nat>)
    requires |Flat(ss)| <= end < WRAP
    ensures |vs| == |ss| + 1 && vs[|ss|] == 0
    ensures forall i :: 0 <= i < |vs| ==> vs[i] < WRAP
    ensures forall i :: 0 <= i < |ss| ==> vs[i] == Address(ss, i, end)
  {
    if ss == [] then [0]
    else
      assert ss[0..] == ss;
      assert forall i :: 1 <= i < |ss| ==> ss[i..] == ss[1..][i - 1..];
      [end - |Flat(ss)|] + Pointers(ss[1..], end)
  }

  /** The memory between the stack pointer and the end of the stack holds exactly the parts of the image. */
  ghost predicate Laid(m: seq<byte>, end: nat, argv: seq<CString>, envp: seq<CString>) {
    var l := LayoutOf(end, argv, envp);
    && 0 < l.sp && end <= |m| && end < WRAP && |argv| < WRAP
    && m[l.envs..end] == Flat(envp) && m[l.args..l.envs] == Flat(argv)
    && m[l.envpAt..l.aligned] == WordsBytes(Pointers(envp, end))
    && m[l.argvAt..l.envpAt] == WordsBytes(Pointers(argv, l.envs))
    && m[l.sp..l.argvAt] == WordsBytes([|argv|, l.argvAt, l.envpAt])
  }

  /** Pointer i of a vector leads to string i. */
  lemma PointerDecodes(m: seq<byte>, a: nat, ss: seq<CString>, end: nat, i: nat)
    requires |Flat(ss)| < end <= |m| && end < WRAP && a + 4 * |ss| + 4 <= |m| && i < |ss| && NoZero(ss[i])
    requires m[end - |Flat(ss)|..end] == Flat(ss) && m[a..a + 4 * |ss| + 4] == WordsBytes(Pointers(ss, end))
    ensures PointsTo(m, a + 4 * i, ss[i])
  {
    var vs := Pointers(ss, end);
    hide Pointers, WordsBytes, ReadString, ReadWord, Address, Flat, NoZero;
    WordsAt(m, a, vs, i);
    FlatAt(m, ss, i, end);
    AddressPositive(ss, i, end);
    ReadStringAt(m, vs[i], ss[i]);
  }

  lemma VectorDecodes(m: seq<byte>, a: nat, ss: seq<CString>, end: nat)
    requires |Flat(ss)| < end <= |m| && end < WRAP && a + 4 * |ss| + 4 <= |m|
    requires forall i :: 0 <= i < |ss| ==> NoZero(ss[i])
    requires m[end - |Flat(ss)|..end] == Flat(ss) && m[a..a + 4 * |ss| + 4] == WordsBytes(Pointers(ss, end))
    ensures VectorAt(m, a, ss)
  {
    hide Pointers, WordsBytes, ReadWord, Flat, NoZero, PointsTo;
    WordsAt(m, a, Pointers(ss, end), |ss|);
    forall i | 0 <= i < |ss| ensures PointsTo(m, a + 4 * i, ss[i]) {
      PointerDecodes(m, a, ss, end, i);
    }
  }

  lemma AddressPositive(ss: seq<CString>, i: nat, end: nat)
    requires i <= |ss| && |Flat(ss[i..])| <= |Flat(ss)| < end
    ensures 0 < Address(ss, i, end)
  {
  }

  /** A program that starts on this stack finds the argument count and both vectors with exactly the strings given. */
  lemma LaidDecodes(m: seq<byte>, end: nat, argv: seq<CString>, envp: seq<CString>)
    requires Laid(m, end, argv, envp)
    requires AllStrings(argv) && AllStrings(envp)
    ensures EntryFrame(m, LayoutOf(end, argv, envp).sp, argv, envp)
  {
    var l := LayoutOf(end, argv, envp);
    hide Pointers, WordsBytes, ReadWord, Flat, NoZero, VectorAt, Needed;
    VectorDecodes(m, l.envpAt, envp, end);
    VectorDecodes(m, l.argvAt, argv, l.envs);
    WordsAt(m, l.sp, [|argv|, l.argvAt, l.envpAt], 0);
    WordsAt(m, l.sp, [|argv|, l.argvAt, l.envpAt], 1);
    WordsAt(m, l.sp, [|argv|, l.argvAt, l.envpAt], 2);
  }

  /** The entry frame in bytes, the lowest byte of each word first: the argument count, and the address of the argument
      vector, which follows the frame. */
  lemma EntryBytes(m: seq<byte>, end: nat, argv: seq<CString>, envp: seq<CString>)
    requires Laid(m, end, argv, envp)
    ensures var sp := LayoutOf(end, argv, envp).sp;
            && (m[sp] as int) + 256 * (m[sp + 1] as int) + 65536 * (m[sp + 2] as int)
               + 16777216 * (m[sp + 3] as int) == |argv|
            && (m[sp + 4] as int) + 256 * (m[sp + 5] as int) + 65536 * (m[sp + 6] as int)
               + 16777216 * (m[sp + 7] as int) == sp + 12
            && (m[sp + 8] as int) + 256 * (m[sp + 9] as int) + 65536 * (m[sp + 10] as int)
               + 16777216 * (m[sp + 11] as int) == sp + 12 + 4 * (|argv| + 1)
  {
    var l := LayoutOf(end, argv, envp);
    hide Pointers, WordsBytes, Flat, Needed, WordBytes;
    WordsAt(m, l.sp, [|argv|, l.argvAt, l.envpAt], 0);
    WordsAt(m, l.sp, [|argv|, l.argvAt, l.envpAt], 1);
    WordsAt(m, l.sp, [|argv|, l.argvAt, l.envpAt], 2);
  }

  /** The argument count as a program reads it at its entry. */
  ghost predicate EntryCount(m: seq<byte>, sp: nat, n: nat) {
    && sp + 4 <= |m| && n <= 64
    && m[sp] as int == n && m[sp + 1] == 0 && m[sp + 2] == 0 && m[sp + 3] == 0
  }

  lemma EntryCounted(m: seq<byte>, end: nat, argv: seq<CString>, envp: seq<CString>)
    requires Laid(m, end, argv, envp) && |argv| <= 64
    ensures EntryCount(m, LayoutOf(end, argv, envp).sp, |argv|)
  {
    EntryBytes(m, end, argv, envp);
    hide Pointers, WordsBytes, Flat, Needed;
  }

  // ----- Building the stack -----

  predicate Acceptable(ss: seq<CString>, max: nat) {
    |ss| <= max && forall i :: 0 <= i < |ss| ==> |ss[i]| < MAX_STR
  }

  /** Copies the strings of a vector; fails when there are too many or one is too long. */
  method CopyVector(ss: seq<CString>, max: nat) returns (count: int, copy: seq<CString>)
    ensures count >= 0 <==> |ss| <= max && forall i :: 0 <= i < |ss| ==> |ss[i]| <= 4095
    ensures count >= 0 ==> count == |ss| && copy == ss
  {
    count, copy := 0, [];
    while count < |ss| && count < max
      invariant 0 <= count <= |ss| && count <= max && copy == ss[..count]
      invariant forall i :: 0 <= i < count ==> |ss[i]| < MAX_STR
    {
      if |ss[count]| >= MAX_STR {
        return -1, copy;
      }
      copy := copy + [ss[count]];
      count := count + 1;
    }
    if count == max && count < |ss| {
      return -1, copy;
    }
  }

  /** Only the bytes from lo up to hi differ between two memories. */
  ghost predicate OnlyBetween(m: seq<byte>, m': seq<byte>, lo: nat, hi: nat) {
    lo <= hi <= |m| == |m'| && forall k :: 0 <= k < |m| && !(lo <= k < hi) ==> m'[k] == m[k]
  }

  /** Pushes bytes; the stack grows downwards. */
  method Push(mem: array<byte>, sp: nat, data: seq<byte>) returns (sp': nat)
    requires |data| <= sp <= mem.Length
    modifies mem
    ensures sp' == sp - |data| && mem[sp'..sp] == data && OnlyBetween(old(mem[..]), mem[..], sp', sp)
  {
    sp' := sp - |data|;
    for k := 0 to |data|
      invariant mem[sp'..sp' + k] == data[..k] && OnlyBetween(old(mem[..]), mem[..], sp', sp)
    {
      mem[sp' + k] := data[k];
    }
  }

  lemma FlatStep(ss: seq<CString>, i: nat)
    requires i < |ss|
    ensures Flat(ss[i..]) == ss[i] + [0] + Flat(ss[i + 1..]) && Flat(ss[|ss|..]) == []
  {
    assert ss[i..][1..] == ss[i + 1..];
  }

  lemma {:induction false} FlatShorter(ss: seq<CString>, i: nat)
    requires i <= |ss|
    ensures |Flat(ss[i..])| <= |Flat(ss)|
  {
    if i > 0 {
      FlatShorter(ss, i - 1);
      FlatStep(ss, i - 1);
    } else {
      assert ss[0..] == ss;
    }
  }

  /** Pushes the strings, the last one first, and records their addresses. */
  method PushStrings(mem: array<byte>, sp: nat, ss: seq<CString>) returns (sp': nat, pointers: seq<nat>)
    requires |Flat(ss)| <= sp <= mem.Length && sp < WRAP
    modifies mem
    ensures sp' == sp - |Flat(ss)| && mem[sp'..sp] == Flat(ss) && OnlyBetween(old(mem[..]), mem[..], sp', sp)
    ensures pointers == Pointers(ss, sp)[..|ss|]
  {
    var ptrs := new nat[|ss|](_ => 0);
    sp' := sp;
    var i := |ss|;
    while i > 0
      invariant 0 <= i <= |ss| && sp' == Address(ss, i, sp) && mem[sp'..sp] == Flat(ss[i..])
      invariant OnlyBetween(old(mem[..]), mem[..], sp', sp)
      invariant forall k :: i <= k < |ss| ==> ptrs[k] == Address(ss, k, sp)
    {
      i := i - 1;
      FlatStep(ss, i);
      FlatShorter(ss, i);
      sp' := PushOnto(mem, sp', sp, ss[i] + [0], Flat(ss[i + 1..]));
      ptrs[i] := sp';
    }
    assert ss[0..] == ss;
    pointers := ptrs[..];
  }

  /** Pushes bytes below what has been pushed since top. */
  method PushOnto(mem: array<byte>, sp: nat, ghost top: nat, data: seq<byte>, ghost above: seq<byte>) returns (sp': nat)
    requires |data| <= sp <= top <= mem.Length && mem[sp..top] == above
    modifies mem
    ensures sp' == sp - |data| && mem[sp'..top] == data + above && OnlyBetween(old(mem[..]), mem[..], sp', sp)
  {
    ghost var m := mem[..];
    sp' := Push(mem, sp, data);
    SliceKept(m, mem[..], sp', sp, sp, top);
    assert mem[..][sp..top] == mem[sp..top] && m[sp..top] == above;
    assert mem[sp'..top] == mem[sp'..sp] + mem[sp..top];
  }

  lemma WordsBytesStep(vs: seq<nat>, i: nat)
    requires i < |vs| && forall k :: 0 <= k < |vs| ==> vs[k] < WRAP
    ensures WordsBytes(vs[i..]) == WordBytes(vs[i]) + WordsBytes(vs[i + 1..]) && WordsBytes(vs[|vs|..]) == []
  {
    assert vs[i..][1..] == vs[i + 1..];
  }

  /** Pushes words, the last one first. */
  method PushWords(mem: array<byte>, sp: nat, vs: seq<nat>) returns (sp': nat)
    requires (forall k :: 0 <= k < |vs| ==> vs[k] < WRAP) && 4 * |vs| <= sp <= mem.Length
    modifies mem
    ensures sp' == sp - 4 * |vs| && mem[sp'..sp] == WordsBytes(vs) && OnlyBetween(old(mem[..]), mem[..], sp', sp)
  {
    hide WordBytes;
    sp' := sp;
    var i := |vs|;
    while i > 0
      invariant 0 <= i <= |vs| && sp' == sp - 4 * (|vs| - i) && mem[sp'..sp] == WordsBytes(vs[i..])
      invariant OnlyBetween(old(mem[..]), mem[..], sp', sp)
    {
      i := i - 1;
      WordsBytesStep(vs, i);
      sp' := PushOnto(mem, sp', sp, WordBytes(vs[i]), WordsBytes(vs[i + 1..]));
    }
    assert vs[0..] == vs;
  }

  lemma SliceKept(m: seq<byte>, m': seq<byte>, lo: nat, hi: nat, a: nat, b: nat)
    requires OnlyBetween(m, m', lo, hi) && a <= b <= |m| && (b <= lo || hi <= a)
    ensures m'[a..b] == m[a..b]
  {
    forall k | a <= k < b ensures m'[k] == m[k] {
    }
  }

  // ----- The mapped stack -----

  /** The size of the stack that is mapped below its end. */
  const STACK_SIZE: nat := 0x1_0000

  /** The memory below the mapped stack is as it was. */
  ghost predicate BelowKept(m: seq<byte>, m': seq<byte>, end: nat) {
    |m| == |m'| && forall k :: 0 <= k < |m| && k < end - STACK_SIZE ==> m'[k] == m[k]
  }

  /** The image leaves everything below the mapped stack alone, whatever was there, if and only if it fits into the
      mapped stack. */
  lemma FitsExactly(m: seq<byte>, end: nat, argv: seq<CString>, envp: seq<CString>)
    requires Laid(m, end, argv, envp)
    ensures (forall m0 | OnlyBetween(m0, m, LayoutOf(end, argv, envp).sp, end) :: BelowKept(m0, m, end)) <==>
              end - LayoutOf(end, argv, envp).sp <= 0x1_0000
  {
    hide Flat, Pointers, WordsBytes, Needed;
    var sp := LayoutOf(end, argv, envp).sp;
    if end - sp > STACK_SIZE {
      var m0 := m[sp := if m[sp] == 0 then 1 else 0];
      assert OnlyBetween(m0, m, sp, end) && m0[sp] != m[sp];
      assert !BelowKept(m0, m, end);
    }
  }

  /** Vectors that are accepted and do not fit: sixty-four arguments of the greatest length, for one. */
  function LongVector(n: nat): (ss: seq<CString>)
    ensures |ss| == n && (forall i :: 0 <= i < n ==> |ss[i]| == MAX_STR - 1 && NoZero(ss[i]))
    ensures |Flat(ss)| == n * MAX_STR
  {
    if n == 0 then []
    else
      var ss := [seq(MAX_STR - 1, _ => 1)] + LongVector(n - 1);
      assert ss[1..] == LongVector(n - 1);
      ss
  }

  lemma LongVectorOverflows(end: nat)
    ensures var argv := LongVector(64);
            Acceptable(argv, MAX_ARGS) && AllStrings(argv) && end - LayoutOf(end, argv, []).sp > 0x1_0000
  {
    hide LongVector;
  }

  /** The stack image of a new program below address end; fails exactly when a vector is not acceptable.  Memory outside
      the image is untouched. */
  method Build(mem: array<byte>, end: nat, argv: seq<CString>, envp: seq<CString>) returns (code: int, sp: nat)
    requires end <= mem.Length && end < WRAP
    requires Acceptable(argv, MAX_ARGS) && Acceptable(envp, MAX_ENVP) ==> Needed(argv, envp) < end
    modifies mem
    ensures code == if Acceptable(argv, 64) && Acceptable(envp, 64) then 0 else -1
    ensures code != 0 ==> mem[..] == old(mem[..])
    ensures code == 0 ==>
      && sp == LayoutOf(end, argv, envp).sp && Laid(mem[..], end, argv, envp)
      && OnlyBetween(old(mem[..]), mem[..], sp, end)
    ensures code == 0 && AllStrings(argv) && AllStrings(envp) ==> EntryFrame(mem[..], sp, argv, envp)
    ensures code == 0 ==> EntryCount(mem[..], sp, |argv|)
    ensures code == 0 && end - sp <= STACK_SIZE ==> BelowKept(old(mem[..]), mem[..], end)
  {
    var argc, args := CopyVector(argv, MAX_ARGS);
    if argc < 0 {
      return -1, end;
    }
    var envc, envs := CopyVector(envp, MAX_ENVP);
    if envc < 0 {
      return -1, end;
    }
    sp := BuildImage(mem, end, args, envs);
    EntryCounted(mem[..], end, argv, envp);
    if AllStrings(argv) && AllStrings(envp) {
      LaidDecodes(mem[..], end, argv, envp);
    }
    hide Laid, LayoutOf, OnlyBetween, EntryFrame, EntryCount;
    code := 0;
  }

  method BuildImage(mem: array<byte>, end: nat, argv: seq<CString>, envp: seq<CString>) returns (sp: nat)
    requires end <= mem.Length && end < WRAP && Needed(argv, envp) < end && |argv| < WRAP
    modifies mem
    ensures sp == LayoutOf(end, argv, envp).sp && Laid(mem[..], end, argv, envp)
    ensures OnlyBetween(old(mem[..]), mem[..], sp, end)
  {
    hide OnlyBetween, WordsBytes, Pointers, Flat;
    ghost var l, m0 := LayoutOf(end, argv, envp), mem[..];
    var argvPtrs, envpPtrs;
    sp, envpPtrs := PushStrings(mem, end, envp);
    ghost var m1 := mem[..];
    assert m1[l.envs..end] == Flat(envp);
    sp, argvPtrs := PushStrings(mem, sp, argv);
    ghost var m2 := mem[..];
    assert m2[l.args..l.envs] == Flat(argv);
    sp := sp - sp % 4;
    assert envpPtrs + [0] == Pointers(envp, end) && argvPtrs + [0] == Pointers(argv, l.envs);
    sp := PushVectors(mem, sp, argvPtrs, envpPtrs, m0, m1, m2, end, argv, envp);
  }

  method PushVectors(mem: array<byte>, sp: nat, argvPtrs: seq<nat>, envpPtrs: seq<nat>, ghost m0: seq<byte>,
                     ghost m1: seq<byte>,
                     ghost m2: seq<byte>, ghost end: nat, ghost argv: seq<CString>, ghost envp: seq<CString>)
    returns (sp': nat)
    requires end <= mem.Length == |m0| && end < WRAP && |argvPtrs| == |argv| < WRAP && 0 < LayoutOf(end, argv, envp).sp
    requires var l := LayoutOf(end, argv, envp);
             && sp == l.aligned && mem[..] == m2
             && OnlyBetween(m0, m1, l.envs, end) && m1[l.envs..end] == Flat(envp)
             && OnlyBetween(m1, m2, l.args, l.envs) && m2[l.args..l.envs] == Flat(argv)
             && envpPtrs + [0] == Pointers(envp, end) && argvPtrs + [0] == Pointers(argv, l.envs)
    modifies mem
    ensures sp' == LayoutOf(end, argv, envp).sp && Laid(mem[..], end, argv, envp) && OnlyBetween(m0, mem[..], sp', end)
  {
    hide OnlyBetween, WordsBytes, Pointers, Flat, Laid;
    ghost var l := LayoutOf(end, argv, envp);
    sp' := PushWords(mem, sp, envpPtrs + [0]);
    var envpUser := sp';
    ghost var m3 := mem[..];
    assert m3[l.envpAt..l.aligned] == WordsBytes(Pointers(envp, end));
    sp' := PushWords(mem, sp', argvPtrs + [0]);
    var argvUser := sp';
    ghost var m4 := mem[..];
    assert m4[l.argvAt..l.envpAt] == WordsBytes(Pointers(argv, l.envs));
    sp' := PushWords(mem, sp', [|argvPtrs|, argvUser, envpUser]);
    ghost var m5 := mem[..];
    assert m5[l.sp..l.argvAt] == WordsBytes([|argv|, l.argvAt, l.envpAt]);
    PartsLaid(m0, m1, m2, m3, m4, m5, end, argv, envp);
  }

  /** Each part stays in place while the ones below it are pushed. */
  lemma PartsLaid(m0: seq<byte>, m1: seq<byte>, m2: seq<byte>, m3: seq<byte>, m4: seq<byte>, m5: seq<byte>, end: nat,
                  argv: seq<CString>, envp: seq<CString>)
    requires |m0| >= end && end < WRAP && |argv| < WRAP && 0 < LayoutOf(end, argv, envp).sp
    requires var l := LayoutOf(end, argv, envp);
             && OnlyBetween(m0, m1, l.envs, end) && m1[l.envs..end] == Flat(envp)
             && OnlyBetween(m1, m2, l.args, l.envs) && m2[l.args..l.envs] == Flat(argv)
             && OnlyBetween(m2, m3, l.envpAt, l.aligned) && m3[l.envpAt..l.aligned] == WordsBytes(Pointers(envp, end))
             && OnlyBetween(m3, m4, l.argvAt, l.envpAt) && m4[l.argvAt..l.envpAt] == WordsBytes(Pointers(argv, l.envs))
             && OnlyBetween(m4, m5, l.sp, l.argvAt) && m5[l.sp..l.argvAt] == WordsBytes([|argv|, l.argvAt, l.envpAt])
    ensures Laid(m5, end, argv, envp) && OnlyBetween(m0, m5, LayoutOf(end, argv, envp).sp, end)
  {
    var l := LayoutOf(end, argv, envp);
    assert |m0| == |m1| == |m2| == |m3| == |m4| == |m5|;
    hide Flat, WordsBytes, Pointers, Needed, OnlyBetween;
    SliceKept(m1, m2, l.args, l.envs, l.envs, end);
    SliceKept(m2, m3, l.envpAt, l.aligned, l.envs, end);
    SliceKept(m3, m4, l.argvAt, l.envpAt, l.envs, end);
    SliceKept(m4, m5, l.sp, l.argvAt, l.envs, end);
    SliceKept(m2, m3, l.envpAt, l.aligned, l.args, l.envs);
    SliceKept(m3, m4, l.argvAt, l.envpAt, l.args, l.envs);
    SliceKept(m4, m5, l.sp, l.argvAt, l.args, l.envs);
    SliceKept(m3, m4, l.argvAt, l.envpAt, l.envpAt, l.aligned);
    SliceKept(m4, m5, l.sp, l.argvAt, l.envpAt, l.aligned);
    SliceKept(m4, m5, l.sp, l.argvAt, l.argvAt, l.envpAt);
    Widen(m0, m1, m2, l.envs, end, l.args, l.envs);
    Widen(m0, m2, m3, l.args, end, l.envpAt, l.aligned);
    Widen(m0, m3, m4, l.envpAt, end, l.argvAt, l.envpAt);
    Widen(m0, m4, m5, l.argvAt, end, l.sp, l.argvAt);
  }

  lemma Widen(m: seq<byte>, m1: seq<byte>, m2: seq<byte>, lo: nat, hi: nat, lo': nat, hi': nat)
    requires OnlyBetween(m, m1, lo, hi) && OnlyBetween(m1, m2, lo', hi') && lo' <= lo && hi' <= hi
    ensures OnlyBetween(m, m2, lo', hi)
  {
  }
}
