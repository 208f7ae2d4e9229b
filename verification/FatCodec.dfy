/** The on-disk format of a FAT: how the 12, 16 and 28 bit entries of the table are packed
    into bytes.  A "table" here is the byte image of one FAT copy.  The bit masks of the
    driver are written as division and remainder by the corresponding power of two. */
module FatCodec {
  import opened Common
  import opened Arith

  datatype Kind = Fat12 | Fat16 | Fat32

  /** The byte offset of the entry of cluster c. */
  function EntryOffset(k: Kind, c: nat): nat {
    match k
    case Fat12 => c * 3 / 2
    case Fat16 => c * 2
    case Fat32 => c * 4
  }

  /** The number of bytes that the driver reads or writes to reach one entry. */
  function EntryWidth(k: Kind): nat {
    if k.Fat32? then 4 else 2
  }

  /** Values at or above this mark end a chain. */
  function EofMarker(k: Kind): nat {
    match k
    case Fat12 => 0xFF8
    case Fat16 => 0xFFF8
    case Fat32 => 0x0FFF_FFF8
  }

  /** The value the driver stores to end a chain. */
  function EofValue(k: Kind): nat {
    match k
    case Fat12 => 0x0FFF
    case Fat16 => 0xFFFF
    case Fat32 => 0x0FFF_FFFF
  }

  /** The part of a value that an entry can hold. */
  function Mask(k: Kind, v: nat): nat {
    match k
    case Fat12 => v % 0x1000
    case Fat16 => v % 0x1_0000
    case Fat32 => v % 0x1000_0000
  }

  function Le16(b0: int, b1: int): int {
    b0 + 0x100 * b1
  }

  function Le32(b0: int, b1: int, b2: int, b3: int): int {
    b0 + 0x100 * b1 + 0x1_0000 * b2 + 0x100_0000 * b3
  }

  /** The little-endian word of EntryWidth(k) bytes at offset o. */
  function Word(k: Kind, t: seq<byte>, o: nat): (w: nat)
    requires o + EntryWidth(k) <= |t|
    ensures w < WordBound(k)
  {
    if k.Fat32? then Le32(t[o], t[o + 1], t[o + 2], t[o + 3]) else Le16(t[o], t[o + 1])
  }

  function WordBound(k: Kind): nat {
    if k.Fat32? then 0x1_0000_0000 else 0x1_0000
  }

  /** The table after storing word w, in little-endian order, at offset o. */
  function PutWord(k: Kind, t: seq<byte>, o: nat, w: nat): (r: seq<byte>)
    requires o + EntryWidth(k) <= |t|
    ensures |r| == |t|
    ensures forall i :: 0 <= i < |t| && !(o <= i < o + EntryWidth(k)) ==> r[i] == t[i]
  {
    var r := t[o := w % 0x100][o + 1 := w / 0x100 % 0x100];
    if k.Fat32? then r[o + 2 := w / 0x1_0000 % 0x100][o + 3 := w / 0x100_0000 % 0x100] else r
  }

  /** The value that word w holds; odd tells which half of a shared FAT12 byte is meant. */
  function Field(k: Kind, odd: bool, w: nat): nat {
    match k
    case Fat12 => if odd then w / 0x10 else w % 0x1000
    case Fat16 => w
    case Fat32 => w % 0x1000_0000
  }

  /** Word w with its value replaced by v, the bits outside the value kept. */
  function Merge(k: Kind, odd: bool, w: nat, v: nat): nat {
    match k
    case Fat12 => if odd then w % 0x10 + v % 0x1000 * 0x10 else w / 0x1000 * 0x1000 + v % 0x1000
    case Fat16 => v % 0x1_0000
    case Fat32 => w / 0x1000_0000 * 0x1000_0000 + v % 0x1000_0000
  }

  /** Cluster c has its whole entry inside a table of n bytes. */
  predicate InTable(k: Kind, c: nat, n: nat) {
    EntryOffset(k, c) + EntryWidth(k) <= n
  }

  /** The entry of cluster c. */
  function Entry(k: Kind, t: seq<byte>, c: nat): nat
    requires InTable(k, c, |t|)
  {
    Field(k, c % 2 == 1, Word(k, t, EntryOffset(k, c)))
  }

  /** The table t with value v stored in the entry that starts at byte o. */
  function PutEntry(k: Kind, t: seq<byte>, o: nat, odd: bool, v: nat): (r: seq<byte>)
    requires o + EntryWidth(k) <= |t|
    ensures |r| == |t|
    ensures forall i :: 0 <= i < |t| && !(o <= i < o + EntryWidth(k)) ==> r[i] == t[i]
  {
    PutWord(k, t, o, Merge(k, odd, Word(k, t, o), v))
  }

  /** The table after storing v in the entry of cluster c. */
  function SetEntry(k: Kind, t: seq<byte>, c: nat, v: nat): (r: seq<byte>)
    requires InTable(k, c, |t|)
    ensures |r| == |t|
  {
    PutEntry(k, t, EntryOffset(k, c), c % 2 == 1, v)
  }

  /** A word is the little-endian reading of its bytes. */
  lemma WordOfBytes(w: nat)
    ensures w < 0x1_0000 ==> w == Le16(w % 0x100, w / 0x100 % 0x100)
    ensures w < 0x1_0000_0000 ==>
              w == Le32(w % 0x100, w / 0x100 % 0x100, w / 0x1_0000 % 0x100, w / 0x100_0000 % 0x100)
  {
    var w1 := w / 0x100;
    var w2 := w1 / 0x100;
    var w3 := w2 / 0x100;
    var b0, b1, b2 := w % 0x100, w1 % 0x100, w2 % 0x100;
    DivModUnique(w, 0x1_0000, w2, b1 * 0x100 + b0);
    DivModUnique(w, 0x100_0000, w3, b2 * 0x1_0000 + b1 * 0x100 + b0);
    assert w < 0x1_0000_0000 ==> w3 % 0x100 == w3;
    assert w < 0x1_0000 ==> w1 % 0x100 == w1;
  }

  /** Words survive a trip through the bytes of the table. */
  lemma WordRoundTrip(k: Kind, t: seq<byte>, o: nat, w: nat)
    requires o + EntryWidth(k) <= |t| && w < WordBound(k)
    ensures Word(k, PutWord(k, t, o, w), o) == w
  {
    WordOfBytes(w);
  }

  /** A merged word stays in range, holds the new value, and keeps every other bit of the old word. */
  lemma MergeField(k: Kind, odd: bool, w: nat, v: nat)
    requires w < WordBound(k)
    ensures Merge(k, odd, w, v) < WordBound(k)
    ensures Field(k, odd, Merge(k, odd, w, v)) == Mask(k, v)
    ensures k.Fat12? && odd ==> Merge(k, odd, w, v) % 0x10 == w % 0x10
    ensures k.Fat12? && !odd ==> Merge(k, odd, w, v) / 0x1000 == w / 0x1000
    ensures k.Fat32? ==> Merge(k, odd, w, v) / 0x1000_0000 == w / 0x1000_0000
  {
    var x, m := Mask(k, v), Merge(k, odd, w, v);
    match k
    case Fat12 =>
      if odd { DivModUnique(m, 0x10, x, w % 0x10); } else { DivModUnique(m, 0x1000, w / 0x1000, x); }
    case Fat16 =>
    case Fat32 =>
      DivModUnique(m, 0x1000_0000, w / 0x1000_0000, x);
  }

  /** The two FAT12 entries of one three-byte group. */
  predicate SharesByte(c: nat, c': nat) {
    c != c' && c / 2 == c' / 2
  }

  /** A FAT12 word holds the even entry in its low twelve bits and the odd entry in its high twelve bits. */
  lemma NibbleSplit(b0: byte, b1: byte)
    ensures Field(Fat12, false, Le16(b0, b1)) == Le16(b0, b1 % 0x10)
    ensures Field(Fat12, true, Le16(b0, b1)) == b0 / 0x10 + 0x10 * b1
  {
    var w, hi, lo := Le16(b0, b1), b1 / 0x10, b1 % 0x10;
    DivModUnique(w, 0x1000, hi, b0 + 0x100 * lo);
    DivModUnique(w, 0x10, b0 / 0x10 + 0x10 * b1, b0 % 0x10);
  }

  /** In a three-byte group, storing the even entry keeps the odd one. */
  lemma EvenKeepsOdd(b0: byte, b1: byte, b2: byte, v: nat)
    ensures var m := Merge(Fat12, false, Le16(b0, b1), v);
            Field(Fat12, true, Le16(m / 0x100 % 0x100, b2)) == Field(Fat12, true, Le16(b1, b2))
  {
    var w := Le16(b0, b1);
    MergeField(Fat12, false, w, v);
    var m := Merge(Fat12, false, w, v);
    var q := m / 0x100;
    DivModUnique(m, 0x1000, q / 0x10, q % 0x10 * 0x100 + m % 0x100);
    DivModUnique(w, 0x1000, b1 / 0x10, b1 % 0x10 * 0x100 + b0);
    NibbleSplit(m / 0x100 % 0x100, b2);
    NibbleSplit(b1, b2);
  }

  /** In a three-byte group, storing the odd entry keeps the even one. */
  lemma OddKeepsEven(b0: byte, b1: byte, b2: byte, v: nat)
    ensures var m := Merge(Fat12, true, Le16(b1, b2), v);
            Field(Fat12, false, Le16(b0, m % 0x100)) == Field(Fat12, false, Le16(b0, b1))
  {
    var w := Le16(b1, b2);
    MergeField(Fat12, true, w, v);
    var m := Merge(Fat12, true, w, v);
    var r := m % 0x100;
    DivModUnique(m, 0x10, m / 0x100 * 0x10 + r / 0x10, r % 0x10);
    DivModUnique(w, 0x10, b2 * 0x10 + b1 / 0x10, b1 % 0x10);
    NibbleSplit(b0, m % 0x100);
    NibbleSplit(b0, b1);
  }

  lemma GroupOffsets(m: nat)
    ensures EntryOffset(Fat12, 2 * m) == 3 * m && EntryOffset(Fat12, 2 * m + 1) == 3 * m + 1
  {
  }

  /** Two FAT12 entries that share a byte do not disturb each other. */
  lemma PutEvenKeepsOdd(t: seq<byte>, o: nat, v: nat)
    requires o + 3 <= |t|
    ensures Field(Fat12, true, Word(Fat12, PutEntry(Fat12, t, o, false, v), o + 1)) ==
      Field(Fat12, true, Word(Fat12, t, o + 1))
  {
    EvenKeepsOdd(t[o], t[o + 1], t[o + 2], v);
  }

  lemma PutOddKeepsEven(t: seq<byte>, o: nat, v: nat)
    requires o + 3 <= |t|
    ensures Field(Fat12, false, Word(Fat12, PutEntry(Fat12, t, o + 1, true, v), o)) ==
      Field(Fat12, false, Word(Fat12, t, o))
  {
    OddKeepsEven(t[o], t[o + 1], t[o + 2], v);
  }

  /** Entries that do not share a byte occupy disjoint bytes. */
  lemma EntriesApart(k: Kind, c: nat, c': nat)
    requires c < c' && !(k.Fat12? && SharesByte(c, c'))
    ensures EntryOffset(k, c) + EntryWidth(k) <= EntryOffset(k, c')
  {
  }

  /** The law of the entry codec, for all three widths: a store changes the entry it names and no other. */
  lemma EntryCodec(k: Kind, t: seq<byte>, c: nat, v: nat, c': nat)
    requires InTable(k, c, |t|) && InTable(k, c', |t|)
    ensures Entry(k, SetEntry(k, t, c, v), c') == if c' == c then Mask(k, v) else Entry(k, t, c')
  {
    if c == c' {
      var o, odd := EntryOffset(k, c), c % 2 == 1;
      MergeField(k, odd, Word(k, t, o), v);
      WordRoundTrip(k, t, o, Merge(k, odd, Word(k, t, o), v));
    } else if k.Fat12? && SharesByte(c, c') {
      GroupOffsets(c / 2);
      if c < c' { PutEvenKeepsOdd(t, EntryOffset(k, c), v); } else { PutOddKeepsEven(t, EntryOffset(k, c'), v); }
    } else if c < c' {
      EntriesApart(k, c, c');
    } else {
      EntriesApart(k, c', c);
    }
  }

  // ----- The format, byte by byte -----

  /** FAT16: two bytes, the low one first. */
  lemma Fat16Bytes(t: seq<byte>, c: nat, v: nat)
    requires 2 * c + 2 <= |t|
    ensures InTable(Fat16, c, |t|) && Entry(Fat16, t, c) == t[2 * c] as int + 0x100 * (t[2 * c + 1] as int)
    ensures SetEntry(Fat16, t, c, v) == t[2 * c := v % 0x100][2 * c + 1 := v / 0x100 % 0x100]
  {
    var x := v % 0x1_0000;
    DivModUnique(x, 0x100, v / 0x100 % 0x100, v % 0x100);
  }

  /** FAT32: four bytes, the lowest one first; the top four bits are not part of the entry. */
  lemma Fat32Bytes(t: seq<byte>, c: nat, v: nat)
    requires 4 * c + 4 <= |t|
    ensures InTable(Fat32, c, |t|)
    ensures Entry(Fat32, t, c) ==
              t[4 * c] as int + 0x100 * (t[4 * c + 1] as int) + 0x1_0000 * (t[4 * c + 2] as int)
              + 0x100_0000 * (t[4 * c + 3] as int % 0x10)
    ensures SetEntry(Fat32, t, c, v) ==
              t[4 * c := v % 0x100][4 * c + 1 := v / 0x100 % 0x100][4 * c + 2 := v / 0x1_0000 % 0x100]
               [4 * c + 3 := t[4 * c + 3] / 0x10 * 0x10 + v / 0x100_0000 % 0x10]
  {
    var b0: int, b1: int, b2: int, b3: int := t[4 * c], t[4 * c + 1], t[4 * c + 2], t[4 * c + 3];
    var low := b0 + 0x100 * b1 + 0x1_0000 * b2 + 0x100_0000 * (b3 % 0x10);
    var w := Word(Fat32, t, 4 * c);
    DivModUnique(w, 0x1000_0000, b3 / 0x10, low);
    Fat32Stored(b3 / 0x10, v);
  }

  /** The bytes of a FAT32 word with top bits h and value v. */
  lemma Fat32Stored(h: nat, v: nat)
    ensures var m := h * 0x1000_0000 + v % 0x1000_0000;
            && m % 0x100 == v % 0x100 && m / 0x100 % 0x100 == v / 0x100 % 0x100
            && m / 0x1_0000 % 0x100 == v / 0x1_0000 % 0x100
            && (h < 0x10 ==> m / 0x100_0000 % 0x100 == h * 0x10 + v / 0x100_0000 % 0x10)
  {
    var b0, v1 := v % 0x100, v / 0x100;
    var b1, v2 := v1 % 0x100, v1 / 0x100;
    var b2, v3 := v2 % 0x100, v2 / 0x100;
    var b3, v4 := v3 % 0x10, v3 / 0x10;
    DivModUnique(v, 0x1_0000, v2, b1 * 0x100 + b0);
    DivModUnique(v, 0x100_0000, v3, b2 * 0x1_0000 + b1 * 0x100 + b0);
    DivModUnique(v, 0x1000_0000, v4, b3 * 0x100_0000 + b2 * 0x1_0000 + b1 * 0x100 + b0);
    var m := h * 0x1000_0000 + v % 0x1000_0000;
    var m3 := h * 0x10 + b3;
    DivModUnique(m, 0x100_0000, m3, b2 * 0x1_0000 + b1 * 0x100 + b0);
    DivModUnique(m, 0x1_0000, m3 * 0x100 + b2, b1 * 0x100 + b0);
    DivModUnique(m, 0x100, m3 * 0x1_0000 + b2 * 0x100 + b1, b0);
    DivModUnique(m3 * 0x100 + b2, 0x100, m3, b2);
    DivModUnique(m3 * 0x1_0000 + b2 * 0x100 + b1, 0x100, m3 * 0x100 + b2, b1);
    if h < 0x10 {
      DivModUnique(m3, 0x100, 0, m3);
    }
  }

  /** FAT12: the even entry of a group of three bytes is its first byte and the low half of the second. */
  lemma Fat12EvenBytes(t: seq<byte>, m: nat, v: nat)
    requires 3 * m + 2 <= |t|
    ensures InTable(Fat12, 2 * m, |t|)
    ensures Entry(Fat12, t, 2 * m) == t[3 * m] as int + 0x100 * (t[3 * m + 1] as int % 0x10)
    ensures SetEntry(Fat12, t, 2 * m, v) ==
              t[3 * m := v % 0x100][3 * m + 1 := t[3 * m + 1] / 0x10 * 0x10 + v / 0x100 % 0x10]
  {
    GroupOffsets(m);
    var b0: int, b1: int := t[3 * m], t[3 * m + 1];
    NibbleSplit(b0, b1);
    var h := b1 / 0x10;
    DivModUnique(Le16(b0, b1), 0x1000, h, b0 + 0x100 * (b1 % 0x10));
    var lo, hi := v % 0x100, v / 0x100 % 0x10;
    DivModUnique(v, 0x1000, v / 0x100 / 0x10, hi * 0x100 + lo);
    var x := h * 0x1000 + v % 0x1000;
    DivModUnique(x, 0x100, h * 0x10 + hi, lo);
    DivModUnique(h * 0x10 + hi, 0x100, 0, h * 0x10 + hi);
  }

  /** FAT12: the odd entry is the high half of the second byte and the third byte. */
  lemma Fat12OddBytes(t: seq<byte>, m: nat, v: nat)
    requires 3 * m + 3 <= |t|
    ensures InTable(Fat12, 2 * m + 1, |t|)
    ensures Entry(Fat12, t, 2 * m + 1) == t[3 * m + 1] as int / 0x10 + 0x10 * (t[3 * m + 2] as int)
    ensures SetEntry(Fat12, t, 2 * m + 1, v) ==
              t[3 * m + 1 := t[3 * m + 1] % 0x10 + 0x10 * (v % 0x10)][3 * m + 2 := v / 0x10 % 0x100]
  {
    GroupOffsets(m);
    var b1: int, b2: int := t[3 * m + 1], t[3 * m + 2];
    NibbleSplit(b1, b2);
    DivModUnique(Le16(b1, b2), 0x10, b1 / 0x10 + 0x10 * b2, b1 % 0x10);
    OddStored(b1 % 0x10, v);
  }

  /** The bytes of a FAT12 word with the low bits l and the odd entry v. */
  lemma OddStored(l: nat, v: nat)
    requires l < 0x10
    ensures var x := l + v % 0x1000 * 0x10;
            x % 0x100 == l + 0x10 * (v % 0x10) && x / 0x100 % 0x100 == v / 0x10 % 0x100
  {
    var lo, hi := v % 0x10, v / 0x10 % 0x100;
    DivModUnique(v, 0x1000, v / 0x10 / 0x100, hi * 0x10 + lo);
    DivModUnique(l + v % 0x1000 * 0x10, 0x100, hi, lo * 0x10 + l);
  }

  /** The mark that ends a chain consists of ones, in all three widths. */
  lemma EndMark16(t: seq<byte>, c: nat)
    requires 2 * c + 2 <= |t|
    ensures SetEntry(Fat16, t, c, EofValue(Fat16)) == t[2 * c := 0xFF][2 * c + 1 := 0xFF]
  {
    hide SetEntry, Entry, InTable;
    Fat16Bytes(t, c, EofValue(Fat16));
  }

  lemma EndMark32(t: seq<byte>, c: nat)
    requires 4 * c + 4 <= |t|
    ensures SetEntry(Fat32, t, c, EofValue(Fat32)) ==
              t[4 * c := 0xFF][4 * c + 1 := 0xFF][4 * c + 2 := 0xFF][4 * c + 3 := t[4 * c + 3] / 0x10 * 0x10 + 0xF]
  {
    hide SetEntry, Entry, InTable;
    Fat32Bytes(t, c, 0x0FFF_FFFF);
  }

  lemma EndMark12Even(t: seq<byte>, m: nat)
    requires 3 * m + 2 <= |t|
    ensures SetEntry(Fat12, t, 2 * m, EofValue(Fat12)) ==
            t[3 * m := 0xFF][3 * m + 1 := t[3 * m + 1] / 0x10 * 0x10 + 0xF]
  {
    hide SetEntry, Entry, InTable;
    Fat12EvenBytes(t, m, EofValue(Fat12));
  }

  lemma EndMark12Odd(t: seq<byte>, m: nat)
    requires 3 * m + 3 <= |t|
    ensures SetEntry(Fat12, t, 2 * m + 1, EofValue(Fat12)) ==
            t[3 * m + 1 := t[3 * m + 1] % 0x10 + 0xF0][3 * m + 2 := 0xFF]
  {
    hide SetEntry, Entry, InTable;
    Fat12OddBytes(t, m, EofValue(Fat12));
  }

  /** Storing a FAT32 entry keeps the four reserved top bits of its word. */
  lemma TopBitsPreserved(t: seq<byte>, c: nat, v: nat)
    requires InTable(Fat32, c, |t|)
    ensures Word(Fat32, SetEntry(Fat32, t, c, v), 4 * c) / 0x1000_0000 == Word(Fat32, t, 4 * c) / 0x1000_0000
  {
    var w := Word(Fat32, t, 4 * c);
    MergeField(Fat32, c % 2 == 1, w, v);
    WordRoundTrip(Fat32, t, 4 * c, Merge(Fat32, c % 2 == 1, w, v));
  }

  lemma WordInPart(k: Kind, before: seq<byte>, part: seq<byte>, after: seq<byte>, i: nat)
    requires i + EntryWidth(k) <= |part|
    ensures Word(k, before + part + after, |before| + i) == Word(k, part, i)
  {
    var t := before + part + after;
    assert t[|before| + i] == part[i] && t[|before| + i + 1] == part[i + 1];
    if k.Fat32? {
      assert t[|before| + i + 2] == part[i + 2] && t[|before| + i + 3] == part[i + 3];
    }
  }

  lemma UpdateInPart(before: seq<byte>, part: seq<byte>, after: seq<byte>, i: nat, b: byte)
    requires i < |part|
    ensures (before + part + after)[|before| + i := b] == before + part[i := b] + after
  {
  }

  lemma PutWordInPart(k: Kind, before: seq<byte>, part: seq<byte>, after: seq<byte>, i: nat, w: nat)
    requires i + EntryWidth(k) <= |part|
    ensures PutWord(k, before + part + after, |before| + i, w) == before + PutWord(k, part, i, w) + after
  {
    var b0, b1: byte, b2: byte, b3: byte := w % 0x100, w / 0x100 % 0x100, w / 0x1_0000 % 0x100, w / 0x100_0000 % 0x100;
    UpdateInPart(before, part, after, i, b0);
    UpdateInPart(before, part[i := b0], after, i + 1, b1);
    if k.Fat32? {
      UpdateInPart(before, part[i := b0][i + 1 := b1], after, i + 2, b2);
      UpdateInPart(before, part[i := b0][i + 1 := b1][i + 2 := b2], after, i + 3, b3);
    }
  }

  /** An entry may be read and updated inside any part of the table that holds all its bytes. */
  lemma EntryInPart(k: Kind, before: seq<byte>, part: seq<byte>, after: seq<byte>, i: nat, odd: bool, v: nat)
    requires i + EntryWidth(k) <= |part|
    ensures PutEntry(k, before + part + after, |before| + i, odd, v) == before + PutEntry(k, part, i, odd, v) + after
  {
    WordInPart(k, before, part, after, i);
    PutWordInPart(k, before, part, after, i, Merge(k, odd, Word(k, part, i), v));
  }
}
