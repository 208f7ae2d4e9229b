/** A mounted FAT volume: its geometry, the mirrored allocation tables on disk, and the
    five-sector window of the first table that the driver keeps in memory. */
module FatVolume {
  import opened Common
  import opened Arith
  import opened FatCodec

  const SECTOR_SIZE: nat := 512
  const CACHE_SECTORS: nat := 5
  const CACHE_BYTES: nat := 2560
  const NO_CACHE: nat := 0xFFFF_FFFF

  type Sector = s: seq<byte> | |s| == 512 witness seq(512, _ => 0)

  /** The values derived from the boot sector at mount time. */
  datatype Geometry = Geometry(
    kind: Kind, reserved: nat, fatCount: nat, sectorsPerFat: nat,
    sectorsPerCluster: nat, dataLba: nat, totalSectors: nat)
  {
    function MaxClusters(): nat
      requires dataLba <= totalSectors && sectorsPerCluster > 0
    {
      (totalSectors - dataLba) / sectorsPerCluster
    }

    /** First sector of FAT copy k. */
    function CopyLba(k: nat): nat {
      reserved + k * sectorsPerFat
    }

    function TableBytes(): nat {
      sectorsPerFat * SECTOR_SIZE
    }

    /** A boot sector that describes a FAT volume: the tables lie before the data area, hold an
        entry for each cluster, and the prefetch of a table window stays on the disk. */
    predicate Wf() {
      && 0 < fatCount && 0 < sectorsPerCluster && 0 < sectorsPerFat
      && CopyLba(fatCount) <= dataLba <= totalSectors < 0x1_0000_0000
      && reserved + sectorsPerFat + CACHE_SECTORS <= totalSectors + 1
      && MaxClusters() + 2 <= EofMarker(kind)
      && InTable(kind, MaxClusters() + 1, TableBytes())
    }
  }

  lemma CopyRange(g: Geometry, j: nat, k: nat)
    requires j < k
    ensures g.CopyLba(j) + g.sectorsPerFat <= g.CopyLba(k)
  {
    MulMono(j + 1, k, g.sectorsPerFat);
  }

  ghost predicate OnDisk(g: Geometry, d: seq<Sector>) {
    g.Wf() && |d| == g.totalSectors
  }

  /** The byte image of FAT copy k. */
  ghost function Table(g: Geometry, d: seq<Sector>, k: nat): (t: seq<byte>)
    requires OnDisk(g, d) && k < g.fatCount
    ensures |t| == g.TableBytes()
  {
    CopyRange(g, k, g.fatCount);
    seq(g.TableBytes(), i requires 0 <= i < g.TableBytes() => d[g.CopyLba(k) + i / SECTOR_SIZE][i % SECTOR_SIZE])
  }

  /** All FAT copies hold the same bytes. */
  ghost predicate Mirrored(g: Geometry, d: seq<Sector>)
    requires OnDisk(g, d)
  {
    forall k :: 0 <= k < g.fatCount ==> Table(g, d, k) == Table(g, d, 0)
  }

  /** Clusters are numbered from 2; entries 0 and 1 of the table are reserved. */
  function ClusterLimit(g: Geometry): nat
    requires g.Wf()
  {
    g.MaxClusters() + 2
  }

  lemma ClustersInTable(g: Geometry, c: nat)
    requires g.Wf() && c < ClusterLimit(g)
    ensures InTable(g.kind, c, g.TableBytes())
  {
  }

  /** The allocation table as a sequence of entries, read straight from FAT copy 0. */
  ghost function Fat(g: Geometry, d: seq<Sector>): (f: seq<nat>)
    requires OnDisk(g, d)
    ensures |f| == ClusterLimit(g)
  {
    seq(ClusterLimit(g), c requires 0 <= c < ClusterLimit(g) =>
      ClustersInTable(g, c); Entry(g.kind, Table(g, d, 0), c))
  }

  /** How a lookup reports an entry: end-of-chain marks are widened to 32 bits (FAT12 and FAT16 only). */
  function Widen(k: Kind, e: nat): nat {
    match k
    case Fat12 => if e >= 0xFF8 then e + 0xFFFF_F000 else e
    case Fat16 => if e >= 0xFFF8 then e + 0xFFFF_0000 else e
    case Fat32 => e
  }

  /** What a lookup has to report for cluster c, from the bytes of the table. */
  ghost predicate IsReported(k: Kind, t: seq<byte>, c: nat, next: nat) {
    match k
    case Fat12 =>
      var m := c / 2;
      && 3 * m + 2 + c % 2 <= |t|
      && var e := if c % 2 == 0 then t[3 * m] as int + 0x100 * (t[3 * m + 1] as int % 0x10)
                  else t[3 * m + 1] as int / 0x10 + 0x10 * (t[3 * m + 2] as int);
         next == if e < 0xFF8 then e else e + 0xFFFF_F000
    case Fat16 =>
      && 2 * c + 2 <= |t|
      && var e := t[2 * c] as int + 0x100 * (t[2 * c + 1] as int);
         next == if e < 0xFFF8 then e else e + 0xFFFF_0000
    case Fat32 =>
      && 4 * c + 4 <= |t|
      && next == t[4 * c] as int + 0x100 * (t[4 * c + 1] as int) + 0x1_0000 * (t[4 * c + 2] as int)
                 + 0x100_0000 * (t[4 * c + 3] as int % 0x10)
  }

  /** The lookup reports the entry that the bytes of the table hold, in all three formats. */
  lemma ReportedBytes(k: Kind, t: seq<byte>, c: nat)
    requires InTable(k, c, |t|)
    ensures IsReported(k, t, c, Widen(k, Entry(k, t, c)))
  {
    match k
    case Fat12 =>
      GroupOffsets(c / 2);
      if c % 2 == 0 { Fat12EvenBytes(t, c / 2, 0); } else { Fat12OddBytes(t, c / 2, 0); }
      hide Entry, InTable;
    case Fat16 =>
      Fat16Bytes(t, c, 0);
      hide Entry, InTable;
    case Fat32 =>
      Fat32Bytes(t, c, 0);
      hide Entry, InTable;
  }

  // ----- The window cache -----

  /** The sector of the table that holds the first byte of the entry of cluster c. */
  function EntrySector(k: Kind, c: nat): nat {
    EntryOffset(k, c) / SECTOR_SIZE
  }

  predicate InWindow(k: Kind, pos: nat, c: nat) {
    pos <= EntrySector(k, c) < (pos + CACHE_SECTORS) % 0x1_0000_0000
  }

  /** A FAT12 entry whose first byte is the last byte of the cached window. */
  predicate Straddles(k: Kind, pos: nat, c: nat) {
    k.Fat12? && InWindow(k, pos, c) && EntryOffset(k, c) == pos * SECTOR_SIZE + CACHE_BYTES - 1
  }

  /** The entry a lookup extracts when the window at pos holds bytes of table t.  The second byte of a
      straddling entry comes from the field that follows the window in memory, the window position. */
  function CachedEntry(k: Kind, t: seq<byte>, pos: nat, c: nat): nat
    requires InTable(k, c, |t|)
  {
    if Straddles(k, pos, c) then Field(k, c % 2 == 1, Le16(t[EntryOffset(k, c)], pos % 0x100)) else Entry(k, t, c)
  }

  /** The part of the window at pos that lies inside the table. */
  function WindowLen(g: Geometry, pos: nat): nat
    requires pos < g.sectorsPerFat
  {
    if pos + CACHE_SECTORS <= g.sectorsPerFat then CACHE_BYTES else (g.sectorsPerFat - pos) * SECTOR_SIZE
  }

  /** The cached window holds what FAT copy 0 holds, as far as the window lies inside the table. */
  ghost predicate CacheAgrees(g: Geometry, d: seq<Sector>, cache: seq<byte>, pos: nat)
    requires OnDisk(g, d) && |cache| == CACHE_BYTES
  {
    pos == NO_CACHE ||
    (pos < g.sectorsPerFat &&
     var n := WindowLen(g, pos);
     cache[..n] == Table(g, d, 0)[pos * SECTOR_SIZE..pos * SECTOR_SIZE + n])
  }

  lemma SecondByteMatters(odd: bool, b0: byte, b1: byte, b1': byte)
    requires b1 % 0x10 != b1' % 0x10
    ensures Field(Fat12, odd, Le16(b0, b1)) != Field(Fat12, odd, Le16(b0, b1'))
  {
    NibbleSplit(b0, b1);
    NibbleSplit(b0, b1');
  }

  /** A lookup through the cache is right for every table exactly when the entry does not straddle
      the end of the window. */
  lemma CachedLookupExact(k: Kind, n: nat, pos: nat, c: nat)
    requires InTable(k, c, n)
    ensures (forall t: seq<byte> | |t| == n :: CachedEntry(k, t, pos, c) == Entry(k, t, c)) <==> !Straddles(k, pos, c)
  {
    if Straddles(k, pos, c) {
      var b: byte := if pos % 0x10 == 0 then 0xFF else 0;
      var t: seq<byte> := seq(n, i => b);
      SecondByteMatters(c % 2 == 1, b, b, pos % 0x100);
      hide Field, EntryOffset;
      assert Entry(k, t, c) == Field(k, c % 2 == 1, Le16(b, b));
      assert CachedEntry(k, t, pos, c) != Entry(k, t, c);
    }
  }

  /** The lowest cluster whose FAT12 entry can straddle the end of a window. */
  const FIRST_STRADDLING: nat := 1706

  /** Volumes on which no lookup can straddle: all FAT16 and FAT32 volumes, and the FAT12 volumes without that
      cluster. */
  predicate CacheSafe(g: Geometry)
    requires g.Wf()
  {
    g.kind.Fat12? ==> ClusterLimit(g) <= FIRST_STRADDLING
  }

  lemma SafeNeverStraddles(g: Geometry, pos: nat, c: nat)
    requires g.Wf() && CacheSafe(g) && c < ClusterLimit(g)
    ensures !Straddles(g.kind, pos, c)
  {
  }

  /** On such volumes a lookup finds the entry that FAT copy 0 holds. */
  lemma SafeLookup(g: Geometry, d: seq<Sector>, pos: nat, c: nat)
    requires OnDisk(g, d) && CacheSafe(g) && c < ClusterLimit(g) && InTable(g.kind, c, g.TableBytes())
    ensures CachedEntry(g.kind, Table(g, d, 0), pos, c) == Fat(g, d)[c]
  {
    SafeNeverStraddles(g, pos, c);
  }

  lemma SafeReported(g: Geometry, d: seq<Sector>, pos: nat, c: nat)
    requires OnDisk(g, d) && CacheSafe(g) && c < ClusterLimit(g) && InTable(g.kind, c, g.TableBytes())
    ensures IsReported(g.kind, Table(g, d, 0), c, Widen(g.kind, CachedEntry(g.kind, Table(g, d, 0), pos, c)))
  {
    hide IsReported, Table, Widen, Entry, InTable;
    SafeNeverStraddles(g, pos, c);
    ReportedBytes(g.kind, Table(g, d, 0), c);
  }

  /** Disk d differs from d0 in the tables only. */
  ghost predicate SameOutsideTables(g: Geometry, d0: seq<Sector>, d: seq<Sector>) {
    && OnDisk(g, d0) && OnDisk(g, d)
    && forall i :: 0 <= i < |d| && !(g.reserved <= i < g.CopyLba(g.fatCount)) ==> d[i] == d0[i]
  }

  /** A lookup of cluster c finds the entry on the disk, whatever the tables hold. */
  ghost predicate LookupRight(g: Geometry, d0: seq<Sector>, pos: nat, c: nat)
    requires g.Wf() && c < ClusterLimit(g)
  {
    ClustersInTable(g, c);
    forall d: seq<Sector> | SameOutsideTables(g, d0, d) :: CachedEntry(g.kind, Table(g, d, 0), pos, c) == Fat(g, d)[c]
  }

  /** These are all the volumes on which every lookup is right, through every window. */
  lemma CacheSafeExact(g: Geometry, d0: seq<Sector>)
    requires OnDisk(g, d0)
    ensures CacheSafe(g) <==> forall pos: nat, c: nat | c < ClusterLimit(g) :: LookupRight(g, d0, pos, c)
  {
    hide Table, CachedEntry, Fat, InTable;
    if CacheSafe(g) {
      forall pos: nat, c: nat | c < ClusterLimit(g) ensures LookupRight(g, d0, pos, c) {
        ClustersInTable(g, c);
        forall d: seq<Sector> | SameOutsideTables(g, d0, d)
          ensures CachedEntry(g.kind, Table(g, d, 0), pos, c) == Fat(g, d)[c]
        {
          SafeLookup(g, d, pos, c);
        }
      }
    } else {
      FullTablesFail(g, d0);
      assert !LookupRight(g, d0, 0, FIRST_STRADDLING);
    }
  }

  /** Disk d0 with every byte of the tables set to 0xFF. */
  function FullTables(g: Geometry, d0: seq<Sector>): (d: seq<Sector>)
    ensures |d| == |d0|
  {
    seq(|d0|, i requires 0 <= i < |d0| =>
      if g.reserved <= i < g.CopyLba(g.fatCount) then seq(SECTOR_SIZE, _ => 0xFF) else d0[i])
  }

  /** On every FAT12 volume that has the straddling cluster, whatever lies outside its tables, a lookup of that cluster
      through the window at 0 goes wrong when the tables are full. */
  lemma FullTablesFail(g: Geometry, d0: seq<Sector>)
    requires OnDisk(g, d0) && !CacheSafe(g)
    ensures InTable(g.kind, FIRST_STRADDLING, g.TableBytes()) && SameOutsideTables(g, d0, FullTables(g, d0))
    ensures var d := FullTables(g, d0);
            CachedEntry(g.kind, Table(g, d, 0), 0, FIRST_STRADDLING) == 0x0FF && Fat(g, d)[FIRST_STRADDLING] == 0xFFF
  {
    hide Table, FullTables, Entry, CachedEntry;
    ClustersInTable(g, FIRST_STRADDLING);
    OnlyTablesFull(g, d0);
    FullTable(g, d0);
    FullEntry(Table(g, FullTables(g, d0), 0));
  }

  lemma OnlyTablesFull(g: Geometry, d0: seq<Sector>)
    requires OnDisk(g, d0)
    ensures SameOutsideTables(g, d0, FullTables(g, d0))
  {
  }

  lemma FullEntry(t: seq<byte>)
    requires InTable(Fat12, FIRST_STRADDLING, |t|) && forall i :: 0 <= i < |t| ==> t[i] == 0xFF
    ensures CachedEntry(Fat12, t, 0, FIRST_STRADDLING) == 0x0FF && Entry(Fat12, t, FIRST_STRADDLING) == 0xFFF
  {
  }

  lemma FullTable(g: Geometry, d0: seq<Sector>)
    requires OnDisk(g, d0)
    ensures forall i :: 0 <= i < g.TableBytes() ==> Table(g, FullTables(g, d0), 0)[i] == 0xFF
  {
    var d := FullTables(g, d0);
    CopyRange(g, 0, g.fatCount);
    forall i | 0 <= i < g.TableBytes() ensures Table(g, d, 0)[i] == 0xFF {
      assert d[g.CopyLba(0) + i / SECTOR_SIZE][i % SECTOR_SIZE] == 0xFF;
    }
  }

  /** The 1.44 MB floppy disk, for one, is a well-formed volume on which lookups go wrong. */
  lemma FloppyFails(d0: seq<Sector>)
    requires |d0| == 2880
    ensures var g := Geometry(Fat12, 1, 2, 9, 1, 33, 2880);
            g.Wf() && Straddles(Fat12, 0, FIRST_STRADDLING) && !LookupRight(g, d0, 0, FIRST_STRADDLING)
  {
    hide Table, CachedEntry, Fat;
    var g := Geometry(Fat12, 1, 2, 9, 1, 33, 2880);
    FullTablesFail(g, d0);
  }

  // ----- Effect of sector writes on the tables -----

  /** The table does not depend on sectors outside its copy. */
  lemma TableFrame(g: Geometry, d: seq<Sector>, d': seq<Sector>, k: nat)
    requires OnDisk(g, d) && OnDisk(g, d') && k < g.fatCount
    requires forall i :: g.CopyLba(k) <= i < g.CopyLba(k) + g.sectorsPerFat ==> 0 <= i < |d| && d'[i] == d[i]
    ensures Table(g, d', k) == Table(g, d, k)
  {
  }

  /** A run of bytes of the table is the same run of the sectors that hold it. */
  lemma TableSector(g: Geometry, d: seq<Sector>, k: nat, s: nat)
    requires OnDisk(g, d) && k < g.fatCount && s < g.sectorsPerFat
    ensures g.CopyLba(k) + s < |d|
    ensures Table(g, d, k)[s * SECTOR_SIZE..(s + 1) * SECTOR_SIZE] == d[g.CopyLba(k) + s]
  {
    CopyRange(g, k, g.fatCount);
  }

  function Concat(a: seq<byte>, b: seq<byte>): seq<byte> {
    a + b
  }

  /** The disk after the entry at byte i of sector s of one table copy has been rewritten: that sector, and
      the next one when a FAT12 entry crosses into it, are read, patched and written back. */
  ghost function PatchAt(g: Geometry, d: seq<Sector>, k: nat, s: nat, i: nat, odd: bool, v: nat): (d': seq<Sector>)
    requires OnDisk(g, d) && k < g.fatCount && i < SECTOR_SIZE
    requires s * SECTOR_SIZE + i + EntryWidth(g.kind) <= g.TableBytes()
    ensures |d'| == |d|
  {
    var lba := g.CopyLba(k) + s;
    CopyRange(g, k, g.fatCount);
    if i + EntryWidth(g.kind) <= SECTOR_SIZE then
      d[lba := PutEntry(g.kind, d[lba], i, odd, v)]
    else
      var buf := PutEntry(g.kind, Concat(d[lba], d[lba + 1]), i, odd, v);
      d[lba := buf[..SECTOR_SIZE]][lba + 1 := buf[SECTOR_SIZE..]]
  }

  /** The disk after the entry of cluster c has been rewritten in one table copy. */
  ghost function PatchCopy(g: Geometry, d: seq<Sector>, k: nat, c: nat, v: nat): (d': seq<Sector>)
    requires OnDisk(g, d) && k < g.fatCount && InTable(g.kind, c, g.TableBytes())
    ensures |d'| == |d|
  {
    var o := EntryOffset(g.kind, c);
    PatchAt(g, d, k, o / SECTOR_SIZE, o % SECTOR_SIZE, c % 2 == 1, v)
  }

  /** Patching one copy stores the entry in that copy and touches nothing else. */
  lemma PatchCopyEffect(g: Geometry, d: seq<Sector>, k: nat, c: nat, v: nat)
    requires OnDisk(g, d) && k < g.fatCount && InTable(g.kind, c, g.TableBytes())
    ensures var d' := PatchCopy(g, d, k, c, v);
            && OnDisk(g, d')
            && Table(g, d', k) == SetEntry(g.kind, Table(g, d, k), c, v)
            && (forall j :: 0 <= j < g.fatCount && j != k ==> Table(g, d', j) == Table(g, d, j))
            && (forall i :: 0 <= i < |d| && !(g.reserved <= i < g.CopyLba(g.fatCount)) ==> d'[i] == d[i])
  {
    hide PutEntry, EntryOffset;
    var d' := PatchCopy(g, d, k, c, v);
    CopyRange(g, k, g.fatCount);
    if k > 0 { CopyRange(g, 0, k); }
    var o := EntryOffset(g.kind, c);
    PatchAtTable(g, d, k, o / SECTOR_SIZE, o % SECTOR_SIZE, c % 2 == 1, v);
    forall j | 0 <= j < g.fatCount && j != k
      ensures Table(g, d', j) == Table(g, d, j)
    {
      if j < k { CopyRange(g, j, k); } else { CopyRange(g, k, j); }
      CopyRange(g, j, g.fatCount);
      TableFrame(g, d, d', j);
    }
  }

  /** Rewriting one sector of a table copy replaces that run of its bytes. */
  lemma TableStore(g: Geometry, d: seq<Sector>, k: nat, s: nat, x: Sector)
    requires OnDisk(g, d) && k < g.fatCount && s < g.sectorsPerFat
    requires g.CopyLba(k) + s < |d|
    ensures var t := Table(g, d, k);
            Table(g, d[g.CopyLba(k) + s := x], k) == t[..s * SECTOR_SIZE] + x + t[(s + 1) * SECTOR_SIZE..]
  {
    CopyRange(g, k, g.fatCount);
  }

  lemma PatchAtTable(g: Geometry, d: seq<Sector>, k: nat, s: nat, i: nat, odd: bool, v: nat)
    requires OnDisk(g, d) && k < g.fatCount && i < SECTOR_SIZE
    requires s * SECTOR_SIZE + i + EntryWidth(g.kind) <= g.TableBytes()
    ensures Table(g, PatchAt(g, d, k, s, i, odd, v), k) == PutEntry(g.kind, Table(g, d, k), s * SECTOR_SIZE + i, odd, v)
  {
    CopyRange(g, k, g.fatCount);
    if i + EntryWidth(g.kind) <= SECTOR_SIZE {
      PatchOneSector(g, d, k, s, i, odd, v);
    } else {
      PatchTwoSectors(g, d, k, s, i, odd, v);
    }
  }

  /** The usual case: the entry lies in one sector. */
  lemma PatchOneSector(g: Geometry, d: seq<Sector>, k: nat, s: nat, i: nat, odd: bool, v: nat)
    requires OnDisk(g, d) && k < g.fatCount && s < g.sectorsPerFat && i + EntryWidth(g.kind) <= SECTOR_SIZE
    requires g.CopyLba(k) + s < |d|
    ensures var lba := g.CopyLba(k) + s;
            Table(g, d[lba := PutEntry(g.kind, d[lba], i, odd, v)], k)
            == PutEntry(g.kind, Table(g, d, k), s * SECTOR_SIZE + i, odd, v)
  {
    var t, lba := Table(g, d, k), g.CopyLba(k) + s;
    var before, after := t[..s * SECTOR_SIZE], t[(s + 1) * SECTOR_SIZE..];
    TableSector(g, d, k, s);
    assert t == before + d[lba] + after;
    EntryInPart(g.kind, before, d[lba], after, i, odd, v);
    TableStore(g, d, k, s, PutEntry(g.kind, d[lba], i, odd, v));
  }

  /** A FAT12 entry that starts on the last byte of a sector. */
  lemma PatchTwoSectors(g: Geometry, d: seq<Sector>, k: nat, s: nat, i: nat, odd: bool, v: nat)
    requires OnDisk(g, d) && k < g.fatCount && s + 1 < g.sectorsPerFat && i + EntryWidth(g.kind) <= 2 * SECTOR_SIZE
    requires g.CopyLba(k) + s + 1 < |d|
    ensures var lba := g.CopyLba(k) + s;
            var buf := PutEntry(g.kind, Concat(d[lba], d[lba + 1]), i, odd, v);
            Table(g, d[lba := buf[..SECTOR_SIZE]][lba + 1 := buf[SECTOR_SIZE..]], k)
            == PutEntry(g.kind, Table(g, d, k), s * SECTOR_SIZE + i, odd, v)
  {
    hide Table, PutEntry, Concat;
    var t, lba := Table(g, d, k), g.CopyLba(k) + s;
    var before, after := t[..s * SECTOR_SIZE], t[(s + 2) * SECTOR_SIZE..];
    TableSector(g, d, k, s);
    TableSector(g, d, k, s + 1);
    var pair := Concat(d[lba], d[lba + 1]);
    ThreeParts(t, s * SECTOR_SIZE, d[lba], d[lba + 1]);
    EntryInPart(g.kind, before, pair, after, i, odd, v);
    PatchPair(g, d, k, s, PutEntry(g.kind, pair, i, odd, v));
  }

  lemma ThreeParts(t: seq<byte>, n: nat, a: Sector, b: Sector)
    requires n + 2 * SECTOR_SIZE <= |t| && t[n..n + SECTOR_SIZE] == a && t[n + SECTOR_SIZE..n + 2 * SECTOR_SIZE] == b
    ensures t == t[..n] + Concat(a, b) + t[n + 2 * SECTOR_SIZE..]
  {
  }

  /** Rewriting two adjacent sectors of a table copy. */
  lemma PatchPair(g: Geometry, d: seq<Sector>, k: nat, s: nat, buf: seq<byte>)
    requires OnDisk(g, d) && k < g.fatCount && s + 1 < g.sectorsPerFat && |buf| == 2 * SECTOR_SIZE
    requires g.CopyLba(k) + s + 1 < |d|
    ensures var t, lba := Table(g, d, k), g.CopyLba(k) + s;
            Table(g, d[lba := buf[..SECTOR_SIZE]][lba + 1 := buf[SECTOR_SIZE..]], k)
            == t[..s * SECTOR_SIZE] + buf + t[(s + 2) * SECTOR_SIZE..]
  {
    var t, lba := Table(g, d, k), g.CopyLba(k) + s;
    var d1 := d[lba := buf[..SECTOR_SIZE]];
    TableStore(g, d, k, s, buf[..SECTOR_SIZE]);
    TableStore(g, d1, k, s + 1, buf[SECTOR_SIZE..]);
  }

  /** Between d and d', the entry of cluster c has been rewritten in the first n table copies and
      nothing else has changed. */
  ghost predicate Stored(g: Geometry, d: seq<Sector>, d': seq<Sector>, n: nat, c: nat, v: nat)
    requires OnDisk(g, d) && OnDisk(g, d') && InTable(g.kind, c, g.TableBytes())
  {
    && (forall k :: 0 <= k < g.fatCount ==>
          Table(g, d', k) == if k < n then SetEntry(g.kind, Table(g, d, k), c, v) else Table(g, d, k))
    && (forall i :: 0 <= i < |d| && !(g.reserved <= i < g.CopyLba(g.fatCount)) ==> d'[i] == d[i])
  }

  lemma StoredStep(g: Geometry, d: seq<Sector>, d1: seq<Sector>, d2: seq<Sector>, n: nat, c: nat, v: nat)
    requires OnDisk(g, d) && OnDisk(g, d1) && n < g.fatCount && InTable(g.kind, c, g.TableBytes())
    requires Stored(g, d, d1, n, c, v) && d2 == PatchCopy(g, d1, n, c, v)
    ensures OnDisk(g, d2) && Stored(g, d, d2, n + 1, c, v)
  {
    PatchCopyEffect(g, d1, n, c, v);
    assert forall k :: 0 <= k < g.fatCount && k != n ==> Table(g, d2, k) == Table(g, d1, k);
  }

  /** Storing an entry in every copy updates the abstract table at one index, and mirrors that agree go on
      agreeing. */
  lemma StoreEffect(g: Geometry, d: seq<Sector>, d': seq<Sector>, c: nat, v: nat)
    requires OnDisk(g, d) && OnDisk(g, d') && c < ClusterLimit(g) && InTable(g.kind, c, g.TableBytes())
    requires Stored(g, d, d', g.fatCount, c, v)
    ensures Fat(g, d') == Fat(g, d)[c := Mask(g.kind, v)]
    ensures Mirrored(g, d) ==> Mirrored(g, d')
  {
    forall x | 0 <= x < ClusterLimit(g)
      ensures Fat(g, d')[x] == Fat(g, d)[c := Mask(g.kind, v)][x]
    {
      ClustersInTable(g, x);
      EntryCodec(g.kind, Table(g, d, 0), c, v, x);
    }
  }

  /** Sectors behind the tables do not influence them. */
  lemma DataWriteKeepsTables(g: Geometry, d: seq<Sector>, lba: nat, x: Sector, cache: seq<byte>, pos: nat)
    requires OnDisk(g, d) && g.dataLba <= lba < |d| && |cache| == CACHE_BYTES
    ensures Fat(g, d[lba := x]) == Fat(g, d)
    ensures Mirrored(g, d) ==> Mirrored(g, d[lba := x])
    ensures CacheAgrees(g, d, cache, pos) ==> CacheAgrees(g, d[lba := x], cache, pos)
  {
    var d' := d[lba := x];
    forall k | 0 <= k < g.fatCount
      ensures Table(g, d', k) == Table(g, d, k)
    {
      CopyRange(g, k, g.fatCount);
      TableFrame(g, d, d', k);
    }
    hide Table;
    if Mirrored(g, d) {
      forall k | 0 <= k < g.fatCount ensures Table(g, d', k) == Table(g, d', 0) {
        assert Table(g, d, k) == Table(g, d, 0);
      }
    }
  }

  /** The reported value of an entry tells free clusters, links and chain ends apart. */
  lemma WidenFacts(k: Kind, e: nat)
    ensures Widen(k, e) == 0 <==> e == 0
    ensures Widen(k, e) >= EofMarker(k) <==> e >= EofMarker(k)
    ensures e < EofMarker(k) ==> Widen(k, e) == e
  {
  }

  /** Where an entry lies in a window that covers its first sector. */
  lemma WindowOffset(g: Geometry, pos: nat, c: nat)
    requires g.Wf() && pos < g.sectorsPerFat && InTable(g.kind, c, g.TableBytes()) && InWindow(g.kind, pos, c)
    ensures var o := EntryOffset(g.kind, c) - pos * SECTOR_SIZE;
            && 0 <= o < WindowLen(g, pos)
            && if Straddles(g.kind, pos, c) then o == CACHE_BYTES - 1 else o + EntryWidth(g.kind) <= WindowLen(g, pos)
  {
    var e := EntryOffset(g.kind, c);
    var q, r := e / SECTOR_SIZE, e % SECTOR_SIZE;
    EntryAlignment(g.kind, c);
    assert e == q * SECTOR_SIZE + r && pos <= q < pos + CACHE_SECTORS;
    assert q < g.sectorsPerFat && (r + EntryWidth(g.kind) > SECTOR_SIZE ==> q + 1 < g.sectorsPerFat);
  }

  /** Only FAT12 entries cross a sector boundary. */
  lemma EntryAlignment(k: Kind, c: nat)
    ensures var r := EntryOffset(k, c) % SECTOR_SIZE;
            r + EntryWidth(k) <= SECTOR_SIZE || (k.Fat12? && r == SECTOR_SIZE - 1)
  {
    var q := EntryOffset(k, c) / SECTOR_SIZE;
    match k
    case Fat12 =>
    case Fat16 => assert EntryOffset(k, c) % SECTOR_SIZE == 2 * (c - 256 * q);
    case Fat32 => assert EntryOffset(k, c) % SECTOR_SIZE == 4 * (c - 128 * q);
  }

  lemma WordInSlice(k: Kind, t: seq<byte>, a: nat, u: seq<byte>, n: nat, o: nat)
    requires a + n <= |t| && n <= |u| && u[..n] == t[a..a + n] && o + EntryWidth(k) <= n
    ensures Word(k, u, o) == Word(k, t, a + o)
  {
    hide Word;
    WordInPart(k, t[..a], u[..n], t[a + n..], o);
    assert t == t[..a] + u[..n] + t[a + n..];
    WordInPart(k, [], u[..n], u[n..], o);
    assert u == [] + u[..n] + u[n..];
  }

  lemma MiddleSlice(a: seq<byte>, x: seq<byte>, b: seq<byte>)
    ensures (a + x + b)[|a|..|a| + |x|] == x
  {
  }

  lemma PutThenSlice(k: Kind, t: seq<byte>, a: nat, n: nat, o: nat, odd: bool, v: nat)
    requires a + n <= |t| && o + EntryWidth(k) <= n
    ensures PutEntry(k, t, a + o, odd, v)[a..a + n] == PutEntry(k, t[a..a + n], o, odd, v)
  {
    hide PutEntry;
    var x := PutEntry(k, t[a..a + n], o, odd, v);
    EntryInPart(k, t[..a], t[a..a + n], t[a + n..], o, odd, v);
    assert t == t[..a] + t[a..a + n] + t[a + n..];
    MiddleSlice(t[..a], x, t[a + n..]);
  }

  lemma PutInSlice(k: Kind, t: seq<byte>, a: nat, u: seq<byte>, n: nat, o: nat, odd: bool, v: nat)
    requires a + n <= |t| && n <= |u| && u[..n] == t[a..a + n] && o + EntryWidth(k) <= n
    ensures PutEntry(k, u, o, odd, v)[..n] == PutEntry(k, t, a + o, odd, v)[a..a + n]
  {
    hide PutEntry;
    PutThenSlice(k, t, a, n, o, odd, v);
    PutThenSlice(k, u, 0, n, o, odd, v);
    assert u[0..0 + n] == u[..n];
  }

  /** The word a lookup builds from a window that covers the first sector of the entry. */
  function WindowWord(k: Kind, cache: seq<byte>, pos: nat, o: nat): nat
    requires |cache| == CACHE_BYTES && o < CACHE_BYTES
  {
    if o + EntryWidth(k) <= CACHE_BYTES then Word(k, cache, o) else Le16(cache[o], pos % 0x100)
  }

  /** What a lookup reads from a window that agrees with the table. */
  lemma WindowLookup(g: Geometry, d: seq<Sector>, cache: seq<byte>, pos: nat, c: nat)
    requires OnDisk(g, d) && |cache| == CACHE_BYTES && CacheAgrees(g, d, cache, pos) && pos != NO_CACHE
    requires InTable(g.kind, c, g.TableBytes()) && InWindow(g.kind, pos, c)
    ensures var o := EntryOffset(g.kind, c) - pos * SECTOR_SIZE;
            && 0 <= o < CACHE_BYTES
            && Field(g.kind, c % 2 == 1, WindowWord(g.kind, cache, pos, o)) ==
                 CachedEntry(g.kind, Table(g, d, 0), pos, c)
  {
    var t, n, a := Table(g, d, 0), WindowLen(g, pos), pos * SECTOR_SIZE;
    WindowOffset(g, pos, c);
    var o := EntryOffset(g.kind, c) - a;
    if Straddles(g.kind, pos, c) {
      assert cache[..n][o] == t[a..a + n][o];
    } else {
      WordInSlice(g.kind, t, a, cache, n, o);
    }
  }

  /** Patching the cached copy of a FAT16 or FAT32 entry keeps the window in step with a store. */
  lemma CacheStoreHit(g: Geometry, d: seq<Sector>, d': seq<Sector>, cache: seq<byte>, pos: nat, c: nat, v: nat)
    requires OnDisk(g, d) && OnDisk(g, d') && |cache| == CACHE_BYTES && CacheAgrees(g, d, cache, pos)
    requires pos != NO_CACHE && !g.kind.Fat12? && InTable(g.kind, c, g.TableBytes())
    requires Stored(g, d, d', g.fatCount, c, v) && InWindow(g.kind, pos, c)
    ensures var o := EntryOffset(g.kind, c) - pos * SECTOR_SIZE;
            && 0 <= o && o + EntryWidth(g.kind) <= CACHE_BYTES
            && CacheAgrees(g, d', PutEntry(g.kind, cache, o, c % 2 == 1, v), pos)
  {
    hide PutEntry, EntryOffset, Table;
    var a := pos * SECTOR_SIZE;
    WindowOffset(g, pos, c);
    assert Table(g, d', 0) == SetEntry(g.kind, Table(g, d, 0), c, v);
    PutInSlice(g.kind, Table(g, d, 0), a, cache, WindowLen(g, pos), EntryOffset(g.kind, c) - a, c % 2 == 1, v);
  }

  /** A store outside the window leaves the window in step (FAT12 excepted: its entries may reach into the
      window from the sector before). */
  lemma CacheStoreMiss(g: Geometry, d: seq<Sector>, d': seq<Sector>, cache: seq<byte>, pos: nat, c: nat, v: nat)
    requires OnDisk(g, d) && OnDisk(g, d') && |cache| == CACHE_BYTES && CacheAgrees(g, d, cache, pos)
    requires pos != NO_CACHE && !g.kind.Fat12? && InTable(g.kind, c, g.TableBytes())
    requires Stored(g, d, d', g.fatCount, c, v) && !InWindow(g.kind, pos, c)
    ensures CacheAgrees(g, d', cache, pos)
  {
    MissedBytes(g, pos, c);
    hide EntryOffset, PutEntry;
    var n, a := WindowLen(g, pos), pos * SECTOR_SIZE;
    assert Table(g, d', 0) == SetEntry(g.kind, Table(g, d, 0), c, v);
    hide Table;
    assert Table(g, d', 0)[a..a + n] == Table(g, d, 0)[a..a + n];
  }

  lemma MissedBytes(g: Geometry, pos: nat, c: nat)
    requires g.Wf() && pos < g.sectorsPerFat && !g.kind.Fat12? && !InWindow(g.kind, pos, c)
    ensures var e, a := EntryOffset(g.kind, c), pos * SECTOR_SIZE;
            e + EntryWidth(g.kind) <= a || a + CACHE_BYTES <= e
  {
    EntryAlignment(g.kind, c);
    hide EntryOffset;
    var e := EntryOffset(g.kind, c);
    var q, r := e / SECTOR_SIZE, e % SECTOR_SIZE;
    assert e == q * SECTOR_SIZE + r;
  }

  /** On a miss, the window that starts at the sector of the entry serves the lookup, and the old position does
      not matter. */
  lemma MissedLookup(g: Geometry, t: seq<byte>, pos: nat, c: nat)
    requires g.Wf() && |t| == g.TableBytes() && InTable(g.kind, c, |t|) && !InWindow(g.kind, pos, c)
    ensures var s := EntrySector(g.kind, c);
            && s < g.sectorsPerFat
            && InWindow(g.kind, s, c)
            && CachedEntry(g.kind, t, s, c) == CachedEntry(g.kind, t, pos, c)
  {
    var e := EntryOffset(g.kind, c);
    assert e == e / SECTOR_SIZE * SECTOR_SIZE + e % SECTOR_SIZE;
    assert !Straddles(g.kind, EntrySector(g.kind, c), c);
  }

  lemma ReadFatAgrees(g: Geometry, d: seq<Sector>, cache: seq<byte>, s: nat)
    requires OnDisk(g, d) && |cache| == CACHE_BYTES && s < g.sectorsPerFat
    requires forall i :: 0 <= i < CACHE_BYTES ==> cache[i] == d[g.reserved + s + i / SECTOR_SIZE][i % SECTOR_SIZE]
    ensures CacheAgrees(g, d, cache, s)
  {
    var n, t := WindowLen(g, s), Table(g, d, 0);
    forall i | 0 <= i < n
      ensures cache[i] == t[s * SECTOR_SIZE + i]
    {
      var j := s * SECTOR_SIZE + i;
      assert j / SECTOR_SIZE == s + i / SECTOR_SIZE && j % SECTOR_SIZE == i % SECTOR_SIZE;
      assert g.CopyLba(0) == g.reserved;
    }
  }

  class Volume {
    const geo: Geometry
    const disk: array<Sector>
    const cache: array<byte>
    var cachePos: nat

    ghost predicate Valid()
      reads this, disk, cache
    {
      && geo.Wf() && disk.Length == geo.totalSectors
      && cache.Length == CACHE_BYTES
      && CacheAgrees(geo, disk[..], cache[..], cachePos)
    }

    ghost function Entries(): (f: seq<nat>)
      requires Valid()
      reads this, disk, cache
    {
      Fat(geo, disk[..])
    }

    constructor (g: Geometry, d: array<Sector>)
      requires g.Wf() && d.Length == g.totalSectors
      ensures Valid() && geo == g && disk == d && cachePos == NO_CACHE && fresh(cache)
    {
      geo, disk, cachePos := g, d, NO_CACHE;
      cache := new byte[CACHE_BYTES];
    }

    /** Fills the window from the sectors of FAT copy 0 that start at sector s. */
    method ReadFat(s: nat)
      requires Valid() && s < geo.sectorsPerFat
      modifies cache
      ensures CacheAgrees(geo, disk[..], cache[..], s)
    {
      forall i | 0 <= i < CACHE_BYTES {
        cache[i] := disk[geo.reserved + s + i / SECTOR_SIZE][i % SECTOR_SIZE];
      }
      ReadFatAgrees(geo, disk[..], cache[..], s);
    }

    /** Moves the window to the entry of cluster c if it misses it. */
    method MoveWindow(c: nat)
      requires Valid() && InTable(geo.kind, c, geo.TableBytes())
      modifies this`cachePos, cache
      ensures Valid() && cachePos != NO_CACHE && InWindow(geo.kind, cachePos, c)
      ensures var t := Table(geo, disk[..], 0);
              CachedEntry(geo.kind, t, cachePos, c) == CachedEntry(geo.kind, t, old(cachePos), c)
    {
      hide Table, Fat, CachedEntry, EntryOffset, Straddles;
      var s := EntrySector(geo.kind, c);
      if s < cachePos || s >= (cachePos + CACHE_SECTORS) % 0x1_0000_0000 {
        MissedLookup(geo, Table(geo, disk[..], 0), cachePos, c);
        ReadFat(s);
        cachePos := s;
      }
    }

    /** Looks up the entry of cluster c through the window, moving the window when it misses. */
    method NextCluster(c: nat) returns (next: nat)
      requires Valid() && InTable(geo.kind, c, geo.TableBytes())
      modifies this`cachePos, cache
      ensures Valid()
      ensures next == Widen(geo.kind, CachedEntry(geo.kind, Table(geo, disk[..], 0), old(cachePos), c))
      ensures CacheSafe(geo) && c < ClusterLimit(geo) ==> next == Widen(geo.kind, Entries()[c])
      ensures CacheSafe(geo) && c < ClusterLimit(geo) ==> IsReported(geo.kind, Table(geo, disk[..], 0), c, next)
    {
      hide Table, Fat, CachedEntry, EntryOffset, Straddles, Widen, Field, WindowWord, InWindow, IsReported;
      if CacheSafe(geo) && c < ClusterLimit(geo) {
        SafeLookup(geo, disk[..], cachePos, c);
        SafeReported(geo, disk[..], cachePos, c);
      }
      MoveWindow(c);
      WindowLookup(geo, disk[..], cache[..], cachePos, c);
      var w := WindowWord(geo.kind, cache[..], cachePos, EntryOffset(geo.kind, c) - cachePos * SECTOR_SIZE);
      next := Widen(geo.kind, Field(geo.kind, c % 2 == 1, w));
    }

    /** Reads, patches and writes back the part of FAT copy k that holds the entry of cluster c. */
    method StoreInCopy(k: nat, c: nat, v: nat)
      requires OnDisk(geo, disk[..]) && k < geo.fatCount && InTable(geo.kind, c, geo.TableBytes())
      modifies disk
      ensures disk[..] == PatchCopy(geo, old(disk[..]), k, c, v)
    {
      var o := EntryOffset(geo.kind, c);
      var s, i, odd := o / SECTOR_SIZE, o % SECTOR_SIZE, c % 2 == 1;
      assert o == s * SECTOR_SIZE + i;
      CopyRange(geo, k, geo.fatCount);
      EntryAlignment(geo.kind, c);
      var lba := geo.reserved + k * geo.sectorsPerFat + s;
      var buf: seq<byte> := disk[lba];
      if geo.kind.Fat12? && i == SECTOR_SIZE - 1 {
        buf := PutEntry(geo.kind, Concat(buf, disk[lba + 1]), i, odd, v);
        disk[lba] := buf[..SECTOR_SIZE];
        disk[lba + 1] := buf[SECTOR_SIZE..];
      } else {
        disk[lba] := PutEntry(geo.kind, buf, i, odd, v);
      }
    }

    /** Stores value v in the entry of cluster c in every FAT copy, and keeps the window in step. */
    method WriteFatEntry(c: nat, v: nat)
      requires Valid() && c < ClusterLimit(geo)
      modifies this`cachePos, cache, disk
      ensures Valid()
      ensures Entries() == old(Entries())[c := Mask(geo.kind, v)]
      ensures old(Mirrored(geo, disk[..])) ==> Mirrored(geo, disk[..])
      ensures forall i :: 0 <= i < disk.Length && !(geo.reserved <= i < geo.CopyLba(geo.fatCount)) ==>
        disk[i] == old(disk[i])
    {
      ClustersInTable(geo, c);
      ghost var d0 := disk[..];
      var k := 0;
      while k < geo.fatCount
        invariant k <= geo.fatCount && cachePos == old(cachePos) && cache[..] == old(cache[..])
        invariant Stored(geo, d0, disk[..], k, c, v)
      {
        ghost var d1 := disk[..];
        StoreInCopy(k, c, v);
        StoredStep(geo, d0, d1, disk[..], k, c, v);
        k := k + 1;
      }
      StoreEffect(geo, d0, disk[..], c, v);
      assert forall i :: 0 <= i < disk.Length ==> disk[..][i] == disk[i] && d0[i] == old(disk[i]);
      UpdateCache(d0, c, v);
    }

    /** Brings the window in step with a store that has reached the disk. */
    method UpdateCache(ghost d0: seq<Sector>, c: nat, v: nat)
      requires OnDisk(geo, d0) && OnDisk(geo, disk[..]) && InTable(geo.kind, c, geo.TableBytes())
      requires cache.Length == CACHE_BYTES && CacheAgrees(geo, d0, cache[..], cachePos)
      requires Stored(geo, d0, disk[..], geo.fatCount, c, v)
      modifies this`cachePos, cache
      ensures Valid()
    {
      hide PutEntry, EntryOffset, Stored;
      if cachePos != NO_CACHE {
        var s := EntrySector(geo.kind, c);
        if geo.kind.Fat12? {
          cachePos := NO_CACHE;
        } else if cachePos <= s < cachePos + CACHE_SECTORS {
          hide CacheAgrees;
          ghost var d1 := disk[..];
          CacheStoreHit(geo, d0, d1, cache[..], cachePos, c, v);
          var j := EntryOffset(geo.kind, c) - cachePos * SECTOR_SIZE;
          var patched := PutEntry(geo.kind, cache[..], j, c % 2 == 1, v);
          forall x | j <= x < j + EntryWidth(geo.kind) {
            cache[x] := patched[x];
          }
          assert cache[..] == patched && disk[..] == d1;
        } else {
          hide CacheAgrees;
          CacheStoreMiss(geo, d0, disk[..], cache[..], cachePos, c, v);
        }
      }
    }

    /** Writes a sector of the data area. */
    method WriteData(lba: nat, x: Sector)
      requires Valid() && geo.dataLba <= lba < geo.totalSectors
      modifies disk
      ensures Valid() && Entries() == old(Entries())
      ensures disk[..] == old(disk[..])[lba := x]
      ensures old(Mirrored(geo, disk[..])) ==> Mirrored(geo, disk[..])
    {
      hide Fat, Mirrored, CacheAgrees;
      ghost var d := disk[..];
      disk[lba] := x;
      assert disk[..] == d[lba := x] && cache[..] == old(cache[..]);
      DataWriteKeepsTables(geo, d, lba, x, cache[..], cachePos);
    }

    /** Drops the cached window. */
    method DropWindow()
      requires Valid()
      modifies this`cachePos
      ensures Valid() && cachePos == NO_CACHE
    {
      cachePos := NO_CACHE;
    }
  }
}
