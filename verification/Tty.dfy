/** The terminal line discipline: a line editor in front of a ring buffer of committed input. */
module Tty {
  import opened Common
  import opened Arith

  const INPUT_SIZE: nat := 4096
  const LINE_SIZE: nat := 256

  const NEWLINE: byte := 10
  const RETURN: byte := 13
  const BACKSPACE: byte := 8
  const CHAR_INTR: byte := 0x03
  const CHAR_EOF: byte := 0x04
  const CHAR_KILL: byte := 0x15
  const CHAR_SUSP: byte := 0x1A
  const CHAR_ERASE: byte := 0x7F

  /** The input modes: line editing, signal characters, and carriage return as newline. */
  datatype Modes = Modes(canonical: bool, signals: bool, crToNl: bool)

  // ----- The line editor -----

  /** What one input character does: the line being edited, the bytes committed, and whether the input ends here. */
  datatype Effect = Effect(line: seq<byte>, out: seq<byte>, eof: bool)

  function Feed(m: Modes, line: seq<byte>, c0: byte): (e: Effect)
    ensures |line| < LINE_SIZE ==> |e.line| < LINE_SIZE
  {
    var c := if m.crToNl && c0 == RETURN then NEWLINE else c0;
    if m.signals && c == CHAR_INTR then Effect([], [], false)
    else if m.signals && c == CHAR_EOF then
      if line == [] then Effect(line, [], true) else Effect([], line + [NEWLINE], false)
    else if m.signals && c == CHAR_SUSP then Effect(line, [], false)
    else if !m.canonical then Effect(line, [c], false)
    else if c == BACKSPACE || c == CHAR_ERASE then Effect(if line == [] then [] else line[..|line| - 1], [], false)
    else if c == CHAR_KILL then Effect([], [], false)
    else if c == NEWLINE then Effect([], line + [NEWLINE], false)
    else Effect(if |line| >= LINE_SIZE - 1 then line else line + [c], [], false)
  }

  /** The line being edited after the given input. */
  function CurrentLine(m: Modes, typed: seq<byte>): (line: seq<byte>)
    ensures |line| < LINE_SIZE
  {
    if typed == [] then []
    else Feed(m, CurrentLine(m, typed[..|typed| - 1]), typed[|typed| - 1]).line
  }

  /** Everything that the given input has committed. */
  function Committed(m: Modes, typed: seq<byte>): seq<byte> {
    if typed == [] then []
    else Committed(m, typed[..|typed| - 1]) + Feed(m, CurrentLine(m, typed[..|typed| - 1]), typed[|typed| - 1]).out
  }

  lemma TypedOne(m: Modes, typed: seq<byte>, c: byte)
    ensures var e := Feed(m, CurrentLine(m, typed), c);
            CurrentLine(m, typed + [c]) == e.line && Committed(m, typed + [c]) == Committed(m, typed) + e.out
  {
    assert (typed + [c])[..|typed|] == typed;
  }

  predicate NoNewline(s: seq<byte>) {
    forall i :: 0 <= i < |s| ==> s[i] != NEWLINE
  }

  /** In canonical mode the line being edited holds no newline, and what is committed is a sequence of whole lines. */
  lemma {:induction false} WholeLines(m: Modes, typed: seq<byte>)
    requires m.canonical
    ensures NoNewline(CurrentLine(m, typed))
    ensures var out := Committed(m, typed); out == [] || out[|out| - 1] == NEWLINE
  {
    if typed != [] {
      WholeLines(m, typed[..|typed| - 1]);
    }
  }

  /** An ordinary character followed by an erase leaves the line as it was, unless the line was full. */
  lemma EraseUndoes(m: Modes, typed: seq<byte>, c: byte)
    requires m.canonical && c !in {3, 4, 8, 10, 13, 0x15, 0x1A, 0x7F}
    ensures var before, after := CurrentLine(m, typed), CurrentLine(m, typed + [c] + [0x7F]);
            && Committed(m, typed + [c] + [0x7F]) == Committed(m, typed)
            && (after == before <==> |before| < 255)
  {
    TypedOne(m, typed, c);
    TypedOne(m, typed + [c], CHAR_ERASE);
  }

  /** Characters without a meaning for the editor. */
  predicate Ordinary(s: seq<byte>) {
    forall i :: 0 <= i < |s| ==> s[i] !in {3, 4, 8, 10, 13, 0x15, 0x1A, 0x7F}
  }

  lemma FeedOrdinary(m: Modes, line: seq<byte>, c: byte)
    requires m.canonical && c !in {3, 4, 8, 10, 13, 0x15, 0x1A, 0x7F}
    ensures Feed(m, line, c) == Effect(if |line| >= 255 then line else line + [c], [], false)
  {
  }

  /** Ordinary characters are collected in the line, up to 255 of them; nothing is committed. */
  lemma {:induction false} OrdinaryTyped(m: Modes, typed: seq<byte>, s: seq<byte>)
    requires m.canonical && Ordinary(s) && CurrentLine(m, typed) == []
    ensures CurrentLine(m, typed + s) == (if |s| <= 255 then s else s[..255])
    ensures Committed(m, typed + s) == Committed(m, typed)
  {
    hide CurrentLine, Committed, Feed;
    if s == [] {
      assert typed + s == typed;
    } else {
      var rest, c := s[..|s| - 1], s[|s| - 1];
      OrdinaryTyped(m, typed, rest);
      assert typed + s == typed + rest + [c];
      TypedOne(m, typed + rest, c);
      FeedOrdinary(m, CurrentLine(m, typed + rest), c);
    }
  }

  /** What the characters that end a line do to a line of ordinary characters. */
  lemma FeedEnds(m: Modes, s: seq<byte>)
    requires m.canonical
    ensures Feed(m, s, 10) == Effect([], s + [10], false) && Feed(m, s, 0x15) == Effect([], [], false)
    ensures m.crToNl ==> Feed(m, s, 13) == Effect([], s + [10], false)
    ensures m.signals ==> Feed(m, s, 3) == Effect([], [], false) && Feed(m, s, 0x1A) == Effect(s, [], false)
    ensures m.signals ==> Feed(m, s, 4) == if s == [] then Effect([], [], true) else Effect([], s + [10], false)
  {
  }

  /** A line of ordinary characters is committed by a newline, by a carriage return if it stands for a newline, and by
      the end-of-input character if the line is not empty and signal characters are on; it is discarded by the kill
      character, and by the interrupt character if signal characters are on. */
  lemma LineEnds(m: Modes, typed: seq<byte>, s: seq<byte>)
    requires m.canonical && Ordinary(s) && |s| <= 255 && CurrentLine(m, typed) == []
    ensures CurrentLine(m, typed + s + [10]) == [] && Committed(m, typed + s + [10]) == Committed(m, typed) + s + [10]
    ensures m.crToNl ==>
      CurrentLine(m, typed + s + [13]) == [] && Committed(m, typed + s + [13]) == Committed(m, typed) + s + [10]
    ensures CurrentLine(m, typed + s + [0x15]) == [] && Committed(m, typed + s + [0x15]) == Committed(m, typed)
    ensures m.signals ==>
      && CurrentLine(m, typed + s + [3]) == [] && Committed(m, typed + s + [3]) == Committed(m, typed)
      && CurrentLine(m, typed + s + [0x1A]) == s && Committed(m, typed + s + [0x1A]) == Committed(m, typed)
      && CurrentLine(m, typed + s + [4]) == []
      && Committed(m, typed + s + [4]) == Committed(m, typed) + if s == [] then [] else s + [10]
  {
    hide CurrentLine, Committed, Feed;
    OrdinaryTyped(m, typed, s);
    FeedEnds(m, s);
    TypedOne(m, typed + s, 10);
    TypedOne(m, typed + s, 13);
    TypedOne(m, typed + s, 0x15);
    TypedOne(m, typed + s, 3);
    TypedOne(m, typed + s, 0x1A);
    TypedOne(m, typed + s, 4);
  }

  /** Without line editing and signal characters every byte is committed as it is, except a carriage return that stands
      for a newline. */
  lemma {:induction false} RawCommits(m: Modes, typed: seq<byte>)
    requires !m.canonical && !m.signals
    ensures |Committed(m, typed)| == |typed|
    ensures forall i :: 0 <= i < |typed| ==>
      Committed(m, typed)[i] == if m.crToNl && typed[i] == 13 then 10 else typed[i]
  {
    if typed != [] {
      RawCommits(m, typed[..|typed| - 1]);
    }
  }

  // ----- The ring buffer -----

  class Ring {
    const data: array<byte>
    var head: nat
    var tail: nat
    var count: nat

    ghost predicate Valid()
      reads this, data
    {
      && 0 < data.Length && head < data.Length && tail < data.Length && count <= data.Length
      && tail == At(head, count, data.Length)
    }

    /** The bytes in the buffer, oldest first. */
    ghost function Contents(): (s: seq<byte>)
      requires Valid()
      reads this, data
      ensures |s| == count
    {
      if head + count <= data.Length then data[head..head + count]
      else data[head..] + data[..head + count - data.Length]
    }

    constructor (size: nat)
      requires 0 < size
      ensures Valid() && Contents() == [] && data.Length == size && fresh(data)
    {
      data := new byte[size](_ => 0);
      head, tail, count := 0, 0, 0;
    }

    lemma Bounded()
      requires Valid()
      ensures |Contents()| <= data.Length
    {
    }

    method Push(c: byte) returns (ok: bool)
      requires Valid()
      modifies this, data
      ensures Valid() && ok == (old(count) < data.Length)
      ensures Contents() == if ok then old(Contents()) + [c] else old(Contents())
    {
      if count >= data.Length {
        return false;
      }
      Wrap(tail, data.Length);
      Wrap(head + count, data.Length);
      data[tail] := c;
      tail := (tail + 1) % data.Length;
      count := count + 1;
      return true;
    }

    /** Takes the oldest byte; -1 when the buffer is empty. */
    method Pop() returns (c: int)
      requires Valid()
      modifies this
      ensures Valid()
      ensures old(count) == 0 ==> c == -1 && Contents() == []
      ensures old(count) > 0 ==> 0 <= c < 256 && old(Contents()) == [c as byte] + Contents()
    {
      if count == 0 {
        return -1;
      }
      Wrap(head, data.Length);
      c := data[head];
      head := (head + 1) % data.Length;
      count := count - 1;
    }
  }

  /** The position n places after head. */
  function At(head: nat, n: nat, size: nat): nat
    requires head < size && n <= size
  {
    if head + n < size then head + n else head + n - size
  }

  lemma Wrap(i: nat, size: nat)
    requires 0 < size && i < 2 * size
    ensures (i + 1) % size == if i + 1 < size then i + 1 else if i + 1 < 2 * size then i + 1 - size else 0
  {
    if i + 1 < size {
      DivModUnique(i + 1, size, 0, i + 1);
    } else if i + 1 < 2 * size {
      DivModUnique(i + 1, size, 1, i + 1 - size);
    } else {
      DivModUnique(i + 1, size, 2, 0);
    }
  }

  // ----- The terminal -----

  /** As much of the bytes as there is room for. */
  function Fitting(queue: seq<byte>, out: seq<byte>): (r: seq<byte>)
    requires |queue| <= INPUT_SIZE
    ensures queue <= r && |r| <= INPUT_SIZE
  {
    if |queue| + |out| <= INPUT_SIZE then queue + out else queue + out[..INPUT_SIZE - |queue|]
  }

  lemma FittingNone(queue: seq<byte>)
    requires |queue| <= INPUT_SIZE
    ensures Fitting(queue, []) == queue
  {
  }

  lemma FittingStep(queue: seq<byte>, out: seq<byte>, i: nat)
    requires |queue| <= INPUT_SIZE && i < |out|
    ensures var r := Fitting(queue, out[..i]);
            Fitting(queue, out[..i + 1]) == if |r| < INPUT_SIZE then r + [out[i]] else r
  {
    assert out[..i + 1] == out[..i] + [out[i]];
  }

  class Terminal {
    const input: Ring
    const lineBuf: array<byte>
    const modes: Modes
    var lineLen: nat
    var linePos: nat
    var lineReady: bool
    var eofPending: bool
    ghost var typed: seq<byte>
    ghost var delivered: seq<byte>
    ghost var dropped: nat

    /** The line buffer holds the line that the editor has built from all input so far.  The bytes delivered by reads,
        followed by the queue, are what the editor has committed, unless bytes were dropped because the queue was
        full. */
    ghost predicate Valid()
      reads this, input, input.data, lineBuf
    {
      && input.Valid() && input.data.Length == INPUT_SIZE && lineBuf.Length == LINE_SIZE && lineBuf != input.data
      && lineLen < LINE_SIZE && linePos == lineLen
      && lineBuf[..lineLen] == CurrentLine(modes, typed)
      && |delivered| + input.count + dropped == |Committed(modes, typed)|
      && (dropped == 0 ==> delivered + input.Contents() == Committed(modes, typed))
    }

    constructor (modes: Modes)
      ensures Valid() && this.modes == modes && typed == [] && delivered == [] && dropped == 0 && !eofPending
      ensures !lineReady
      ensures fresh(input) && fresh(input.data) && fresh(lineBuf)
    {
      this.modes := modes;
      input := new Ring(INPUT_SIZE);
      lineBuf := new byte[LINE_SIZE](_ => 0);
      lineLen, linePos, lineReady, eofPending := 0, 0, false, false;
      typed, delivered, dropped := [], [], 0;
    }

    /** Queues bytes one by one; those that do not fit are dropped. */
    method PushAll(out: seq<byte>)
      requires input.Valid() && input.data.Length == INPUT_SIZE
      modifies input, input.data
      ensures input.Valid() && input.Contents() == Fitting(old(input.Contents()), out)
    {
      ghost var q := input.Contents();
      for i := 0 to |out|
        invariant input.Valid() && input.Contents() == Fitting(q, out[..i])
      {
        FittingStep(q, out, i);
        hide Fitting, Ring.Valid, Ring.Contents;
        var ok := input.Push(out[i]);
      }
      assert out[..|out|] == out;
    }

    /** Records what an input character has done. */
    ghost method Record(c: byte, q: seq<byte>)
      requires |q| <= INPUT_SIZE && input.Valid() && input.data.Length == INPUT_SIZE && lineBuf.Length == LINE_SIZE
      requires lineBuf != input.data
      requires |delivered| + |q| + dropped == |Committed(modes, typed)| &&
        (dropped == 0 ==> delivered + q == Committed(modes, typed))
      requires var e := Feed(modes, CurrentLine(modes, typed), c);
               && input.Contents() == Fitting(q, e.out) && lineLen < LINE_SIZE && linePos == lineLen
               && lineBuf[..lineLen] == e.line
      modifies this`typed, this`dropped
      ensures Valid() && typed == old(typed) + [c]
      ensures var n := |q| + |Feed(modes, CurrentLine(modes, old(typed)), c).out|;
              dropped == old(dropped) + if n <= INPUT_SIZE then 0 else n - INPUT_SIZE
    {
      TypedOne(modes, typed, c);
      var n := |q| + |Feed(modes, CurrentLine(modes, typed), c).out|;
      hide CurrentLine, Committed, Feed;
      if n > INPUT_SIZE {
        dropped := dropped + (n - INPUT_SIZE);
      } else {
        assert delivered + input.Contents() == delivered + q + Feed(modes, CurrentLine(modes, typed), c).out;
      }
      typed := typed + [c];
    }

    ghost predicate Shape()
      reads this, input, input.data, lineBuf
    {
      && input.Valid() && input.data.Length == INPUT_SIZE && lineBuf.Length == LINE_SIZE && lineBuf != input.data
      && lineLen < LINE_SIZE && linePos == lineLen
    }

    /** Commits the line being edited. */
    method LineFlush()
      requires Shape()
      modifies this`lineLen, this`linePos, this`lineReady, input, input.data
      ensures Shape() && lineLen == 0 && lineReady
      ensures input.Contents() == Fitting(old(input.Contents()), old(lineBuf[..lineLen]) + [NEWLINE])
    {
      PushAll(lineBuf[..lineLen] + [NEWLINE]);
      lineLen, linePos, lineReady := 0, 0, true;
    }

    method LineErase()
      requires Shape()
      modifies this`lineLen, this`linePos
      ensures Shape() && lineLen == if old(lineLen) == 0 then 0 else old(lineLen) - 1
    {
      if lineLen == 0 {
        return;
      }
      lineLen := lineLen - 1;
      if linePos > lineLen {
        linePos := lineLen;
      }
    }

    method LineKill()
      requires Shape()
      modifies this`lineLen, this`linePos
      ensures Shape() && lineLen == 0
    {
      while lineLen > 0
        invariant Shape()
      {
        LineErase();
      }
    }

    /** Appends to the line, as long as it leaves room for the terminator. */
    method LineAdd(c: byte)
      requires Shape()
      modifies this`lineLen, this`linePos, lineBuf
      ensures Shape()
      ensures lineBuf[..lineLen] == if old(lineLen) >= LINE_SIZE - 1 then old(lineBuf[..lineLen])
                                    else old(lineBuf[..lineLen]) + [c]
    {
      if lineLen >= LINE_SIZE - 1 {
        return;
      }
      lineBuf[lineLen] := c;
      lineLen := lineLen + 1;
      linePos := lineLen;
    }

    method Handle(c0: byte)
      requires Shape()
      modifies this`lineLen, this`linePos, this`lineReady, this`eofPending, input, input.data, lineBuf
      ensures Shape()
      ensures var e := Feed(modes, old(lineBuf[..lineLen]), c0);
              && lineBuf[..lineLen] == e.line && input.Contents() == Fitting(old(input.Contents()), e.out)
              && eofPending == (old(eofPending) || e.eof)
              && (modes.canonical ==> lineReady == (old(lineReady) || e.eof || e.out != []))
    {
      hide Ring.Valid, Ring.Contents, Fitting;
      var c := if modes.crToNl && c0 == RETURN then NEWLINE else c0;
      if modes.signals && (c == CHAR_INTR || c == CHAR_EOF || c == CHAR_SUSP) {
        HandleSignal(c);
      } else if modes.canonical {
        HandleCanonical(c);
      } else {
        PushAll([c]);
      }
    }

    /** Interrupt, end of input and suspend. */
    method HandleSignal(c: byte)
      requires Shape() && modes.signals && (c == CHAR_INTR || c == CHAR_EOF || c == CHAR_SUSP)
      modifies this`lineLen, this`linePos, this`lineReady, this`eofPending, input, input.data
      ensures Shape()
      ensures var e := Feed(modes, old(lineBuf[..lineLen]), c);
              && lineBuf[..lineLen] == e.line && input.Contents() == Fitting(old(input.Contents()), e.out)
              && eofPending == (old(eofPending) || e.eof) && lineReady == (old(lineReady) || e.eof || e.out != [])
    {
      hide Ring.Valid, Ring.Contents, Fitting;
      input.Bounded();
      FittingNone(input.Contents());
      if c == CHAR_INTR {
        lineLen, linePos := 0, 0;
        return;
      }
      if c == CHAR_EOF {
        if lineLen == 0 {
          eofPending, lineReady := true, true;
        } else {
          LineFlush();
        }
        return;
      }
    }

    method HandleCanonical(c: byte)
      requires Shape() && modes.canonical && !(modes.crToNl && c == RETURN) &&
        (modes.signals ==> c !in {CHAR_INTR, CHAR_EOF, CHAR_SUSP})
      modifies this`lineLen, this`linePos, this`lineReady, input, input.data, lineBuf
      ensures Shape()
      ensures var e := Feed(modes, old(lineBuf[..lineLen]), c);
              && lineBuf[..lineLen] == e.line && input.Contents() == Fitting(old(input.Contents()), e.out)
              && lineReady == (old(lineReady) || e.out != [])
    {
      if c == BACKSPACE || c == CHAR_ERASE {
        LineErase();
      } else if c == CHAR_KILL {
        LineKill();
      } else if c == NEWLINE {
        LineFlush();
      } else {
        LineAdd(c);
      }
    }

    /** One character from the keyboard. */
    method InputChar(c: byte)
      requires Valid()
      modifies this, input, input.data, lineBuf
      ensures Valid() && typed == old(typed) + [c] && delivered == old(delivered)
      ensures var e := Feed(modes, CurrentLine(modes, old(typed)), c);
              && input.Contents() == Fitting(old(input.Contents()), e.out)
              && eofPending == (old(eofPending) || e.eof)
              && (modes.canonical ==> lineReady == (old(lineReady) || e.eof || e.out != []))
              && var n := old(input.count) + |e.out|;
                 dropped == old(dropped) + if n <= INPUT_SIZE then 0 else n - INPUT_SIZE
    {
      hide Feed, CurrentLine, Committed;
      ghost var q := input.Contents();
      Handle(c);
      Record(c, q);
    }

    predicate HasPending()
      reads this, input
    {
      (eofPending && input.count == 0) || (modes.canonical && lineReady) || input.count > 0
    }

    /** Takes at most n bytes from the queue; in canonical mode, at most one line. */
    method TakeFromQueue(n: nat) returns (r: seq<byte>)
      requires input.Valid()
      modifies input
      ensures input.Valid() && old(input.Contents()) == r + input.Contents() && |r| <= n
      ensures modes.canonical ==> r == [] || NoNewline(r[..|r| - 1])
      ensures |r| == n || input.Contents() == [] || (modes.canonical && r != [] && r[|r| - 1] == NEWLINE)
    {
      hide Ring.Valid, Ring.Contents;
      ghost var q := input.Contents();
      r := [];
      while |r| < n
        invariant input.Valid() && q == r + input.Contents() && |r| <= n && (modes.canonical ==> NoNewline(r))
      {
        ghost var before := input.Contents();
        var c := input.Pop();
        if c < 0 {
          assert r + before == r;
          return;
        }
        assert q == r + [c as byte] + input.Contents();
        r := r + [c as byte];
        if modes.canonical && c == NEWLINE {
          assert r[..|r| - 1] + [NEWLINE] == r;
          return;
        }
      }
    }

    /** Returns the next input.  When there is none, the code waits for an interrupt; a call that cannot wait returns
        nothing.  An end of input is reported once, as an empty result, after the queue has been drained. */
    method Read(n: nat) returns (r: seq<byte>)
      requires Valid()
      modifies this`eofPending, this`lineReady, this`delivered, input
      ensures Valid() && typed == old(typed) && dropped == old(dropped)
      ensures delivered == old(delivered) + r && old(input.Contents()) == r + input.Contents() && |r| <= n
      ensures modes.canonical ==> r == [] || NoNewline(r[..|r| - 1])
      ensures |r| == n || input.Contents() == [] || (modes.canonical && r != [] && r[|r| - 1] == NEWLINE)
      ensures eofPending == (old(eofPending) && (n == 0 || old(input.count) > 0))
      ensures modes.canonical ==> lineReady == (old(lineReady) && (n == 0 || input.count > 0))
    {
      hide Ring.Valid, Ring.Contents, CurrentLine, Committed;
      r := [];
      if n == 0 || !HasPending() {
        assert delivered + r == delivered;
        return;
      }
      if eofPending && input.count == 0 {
        eofPending, lineReady := false, false;
        assert delivered + r == delivered;
        return;
      }
      r := TakeFromQueue(n);
      if input.count == 0 {
        lineReady := false;
      }
      assert delivered + (r + input.Contents()) == (delivered + r) + input.Contents();
      delivered := delivered + r;
    }
  }
}
