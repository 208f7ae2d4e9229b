/** Open files: the cursor and sector buffer of a handle, and the read, seek, write and truncate operations. */
module FatFiles {
  import opened Common
  import opened Arith
  import opened FatCodec
  import opened FatVolume
  import opened FatChains
  import opened FatData
  import opened FatAlloc
  import opened Lowest

  /** A read gives up after this many sector boundaries. */
  const READ_LIMIT: nat := 10000

  const WRAP32: nat := 0x1_0000_0000

  const SUCCESS: int := 0
  const E_INVAL: int := -22
  const E_IO: int := -5
  const E_STATE: int := -5

  /** A position or size as the handle stores it. */
  type u32 = x: int | 0 <= x < WRAP32

  function Low32(x: nat): u32 {
    x % WRAP32
  }

  function Add32(x: u32, n: nat): u32 {
    Low32(x + n)
  }

  class OpenFile {
    const buffer: array<byte>
    var position: u32
    var size: u32
    var isOpen: bool
    var truncated: bool
    var firstCluster: nat
    var currentCluster: nat
    var sectorInCluster: nat
    /** The position and the size of the file without 32-bit wrap-around. */
    ghost var offset: nat
    ghost var extent: nat

    constructor (first: nat, bytes: u32)
      ensures buffer.Length == SECTOR_SIZE && fresh(buffer)
      ensures position == offset == 0 && size == extent == bytes && isOpen && !truncated
      ensures firstCluster == first && currentCluster == first && sectorInCluster == 0
    {
      buffer := new byte[SECTOR_SIZE];
      position, size, offset, extent, isOpen, truncated := 0, bytes, 0, bytes, true, false;
      firstCluster, currentCluster, sectorInCluster := first, first, 0;
    }
  }

  /** The stored position is the true one modulo 2^32, and the stored size is the true one as long as that fits. */
  ghost predicate Linked(f: OpenFile)
    reads f`position, f`offset, f`size, f`extent
  {
    f.position == Low32(f.offset) && (f.extent < WRAP32 ==> f.size == f.extent)
  }

  /** Position and size are stored without loss. */
  ghost predicate InStep(f: OpenFile)
    reads f`position, f`offset, f`size, f`extent
  {
    f.position == f.offset && f.size == f.extent
  }

  lemma LowIsSame(x: nat)
    ensures Low32(x) == x <==> x < WRAP32
  {
    if x < WRAP32 {
      DivModUnique(x, WRAP32, 0, x);
    }
  }

  /** Moving the stored position moves the true one, and both have the same place in their sector. */
  lemma Moved(x: nat, n: nat)
    ensures Add32(Low32(x), n) == Low32(x + n) && Low32(x) % SECTOR_SIZE == x % SECTOR_SIZE
  {
    DivMod(x, WRAP32);
    var y := x % WRAP32 + n;
    DivMod(y, WRAP32);
    DivModUnique(x + n, WRAP32, x / WRAP32 + y / WRAP32, y % WRAP32);
    DivMod(x % WRAP32, SECTOR_SIZE);
    DivModUnique(x, SECTOR_SIZE, x / WRAP32 * 0x80_0000 + x % WRAP32 / SECTOR_SIZE, x % WRAP32 % SECTOR_SIZE);
  }

  /** The handle f is open on the file whose clusters are chain. */
  ghost predicate Open(v: Volume, f: OpenFile, chain: seq<nat>)
    reads v, v.disk, v.cache, f`position, f`offset, f`size, f`extent, f`isOpen, f`firstCluster
  {
    && v.Valid() && CacheSafe(v.geo) && f.buffer != v.cache && f.buffer.Length == SECTOR_SIZE
    && IsChain(v.geo.kind, v.Entries(), chain) && ClustersIn(v.geo, chain)
    && f.isOpen && f.firstCluster == chain[0]
    && LayoutOn(v.disk[..], Layout(v.geo, chain))
    && f.extent <= |Layout(v.geo, chain)| * SECTOR_SIZE && Linked(f)
  }

  /** The bytes of the file. */
  ghost function Bytes(v: Volume, f: OpenFile, chain: seq<nat>): (r: seq<byte>)
    requires Open(v, f, chain)
    reads v, v.disk, v.cache, f`position, f`offset, f`size, f`extent, f`isOpen, f`firstCluster
    ensures |r| == f.extent
  {
    Content(v.disk[..], Layout(v.geo, chain), f.extent)
  }

  /** The cursor of f stands in sector s of the file. */
  ghost predicate CursorAt(g: Geometry, f: OpenFile, chain: seq<nat>, s: nat)
    requires g.sectorsPerCluster > 0
    reads f
  {
    && s / g.sectorsPerCluster < |chain|
    && f.currentCluster == chain[s / g.sectorsPerCluster]
    && f.sectorInCluster == s % g.sectorsPerCluster
  }

  /** The cursor stands where the position says, and the buffer holds that sector. */
  ghost predicate Coherent(v: Volume, f: OpenFile, chain: seq<nat>)
    requires Open(v, f, chain)
    reads v, v.disk, v.cache, f, f.buffer
  {
    var s := f.offset / SECTOR_SIZE;
    && f.offset <= f.extent && s < |Layout(v.geo, chain)|
    && CursorAt(v.geo, f, chain, s)
    && BufferHolds(v.disk[..], Layout(v.geo, chain), f.extent, s, f.buffer[..])
  }

  /** The cursor stands in sector s, wherever the position is, and the buffer holds that sector. */
  ghost predicate StandsAt(v: Volume, f: OpenFile, chain: seq<nat>, s: nat)
    requires Open(v, f, chain)
    reads v, v.disk, v.cache, f, f.buffer
  {
    && s < |Layout(v.geo, chain)| && CursorAt(v.geo, f, chain, s)
    && BufferHolds(v.disk[..], Layout(v.geo, chain), f.extent, s, f.buffer[..])
  }

  /** The cursor finds its sector. */
  lemma CursorSector(g: Geometry, f: OpenFile, chain: seq<nat>, s: nat)
    requires ClustersIn(g, chain) && CursorAt(g, f, chain, s)
    ensures s < |Layout(g, chain)| && 2 <= f.currentCluster
    ensures Layout(g, chain)[s] == ClusterToLba(g, f.currentCluster) + f.sectorInCluster
    ensures g.dataLba <= Layout(g, chain)[s] < g.totalSectors
  {
    hide Layout;
    var spc := g.sectorsPerCluster;
    DivMod(s, spc);
    LayoutAt(g, chain, s / spc, s % spc);
    var k, j := LayoutSound(g, chain, s);
  }

  /** The layout of a chain in a valid volume. */
  lemma ChainLayout(g: Geometry, d: seq<Sector>, chain: seq<nat>)
    requires OnDisk(g, d) && SoundTable(g.kind, Fat(g, d)) && IsChain(g.kind, Fat(g, d), chain)
    ensures ClustersIn(g, chain) && LayoutOn(d, Layout(g, chain))
  {
    ChainIn(g, g.kind, Fat(g, d), chain);
    ChainAcyclic(g.kind, Fat(g, d), chain);
    LayoutInjective(g, chain);
    forall s | 0 <= s < |Layout(g, chain)| ensures Layout(g, chain)[s] < |d| {
      var k, j := LayoutSound(g, chain, s);
    }
  }

  /** Loads sector s of the file, where the cursor stands, into the buffer. */
  method LoadSector(v: Volume, f: OpenFile, ghost chain: seq<nat>, ghost s: nat)
    requires Open(v, f, chain) && CursorAt(v.geo, f, chain, s)
    modifies f.buffer
    ensures Open(v, f, chain) && s < |Layout(v.geo, chain)|
    ensures BufferHolds(v.disk[..], Layout(v.geo, chain), f.extent, s, f.buffer[..])
  {
    CursorSector(v.geo, f, chain, s);
    var x := v.disk[ClusterToLba(v.geo, f.currentCluster) + f.sectorInCluster];
    forall i | 0 <= i < SECTOR_SIZE {
      f.buffer[i] := x[i];
    }
    assert v.cache[..] == old(v.cache[..]);
  }

  /** Sector s exists exactly when its cluster does. */
  lemma SectorExists(g: Geometry, chain: seq<nat>, s: nat)
    requires ClustersIn(g, chain)
    ensures s < |Layout(g, chain)| <==> s / g.sectorsPerCluster < |chain|
  {
    LayoutLength(g, chain);
    DivLess(s, |chain|, g.sectorsPerCluster);
  }

  /** A directory entry that leads to this first cluster and size can be opened. */
  predicate Openable(g: Geometry, first: nat, bytes: u32)
    requires g.Wf()
  {
    first == 0 || (2 <= first && (bytes > 0 ==> first < ClusterLimit(g)))
  }

  /** Opens the file of a directory entry; entries without a cluster have nothing to load. */
  method OpenEntry(v: Volume, first: nat, bytes: u32, ghost chain: seq<nat>) returns (f: OpenFile?)
    requires v.Valid() && CacheSafe(v.geo) && (bytes == 0 ==> first < ClusterLimit(v.geo))
    ensures f == null <==> !Openable(v.geo, first, bytes)
    ensures f != null ==>
      fresh(f) && fresh(f.buffer) && f.isOpen && f.firstCluster == first && f.offset == 0 && f.extent == bytes
    ensures f != null ==> InStep(f) && !f.truncated
    ensures f != null && 0 < |chain| && chain[0] == first && IsChain(v.geo.kind, v.Entries(), chain) ==>
      ClustersIn(v.geo, chain) &&
      (bytes <= |Layout(v.geo, chain)| * SECTOR_SIZE ==> Open(v, f, chain) && Coherent(v, f, chain))
  {
    hide Fat, Layout, LayoutOn, Content, IsChain;
    if first != 0 && bytes > 0 && (first < 2 || first >= ClusterLimit(v.geo)) {
      return null;
    }
    if first == 1 {
      return null;
    }
    f := new OpenFile(first, bytes);
    LowIsSame(0);
    if 0 < |chain| && chain[0] == first && IsChain(v.geo.kind, v.Entries(), chain) {
      ChainLayout(v.geo, v.disk[..], chain);
      ChainIn(v.geo, v.geo.kind, v.Entries(), chain);
      SectorExists(v.geo, chain, 0);
    }
    if first != 0 {
      ClusterOnDisk(v.geo, first, 0);
      LoadFirst(v, f);
      if 0 < |chain| && chain[0] == first && IsChain(v.geo.kind, v.Entries(), chain) {
        CursorSector(v.geo, f, chain, 0);
      }
    }
  }

  /** Loads the first sector of the current cluster into the buffer. */
  method LoadFirst(v: Volume, f: OpenFile)
    requires f.buffer.Length == SECTOR_SIZE && 2 <= f.currentCluster
    requires ClusterToLba(v.geo, f.currentCluster) < v.disk.Length
    modifies f.buffer
    ensures f.buffer[..] == v.disk[ClusterToLba(v.geo, f.currentCluster)]
  {
    var x := v.disk[ClusterToLba(v.geo, f.currentCluster)];
    forall i | 0 <= i < SECTOR_SIZE {
      f.buffer[i] := x[i];
    }
  }

  /** Creates a file with the lowest free cluster, and opens it. */
  method CreateFile(v: Volume) returns (f: OpenFile?)
    requires v.Valid() && CacheSafe(v.geo)
    modifies v`cachePos, v.cache, v.disk
    ensures v.Valid() && (f == null <==> FreeSet(old(v.Entries())) <= LastTwo(v.geo))
    ensures f == null ==> v.Entries() == old(v.Entries())
    ensures f != null ==> fresh(f) && fresh(f.buffer) && f.offset == f.extent == 0 && InStep(f) && !f.truncated
    ensures f != null ==> Open(v, f, [f.firstCluster]) && Coherent(v, f, [f.firstCluster])
    ensures f != null ==> f.firstCluster == LowestFree(old(v.Entries()), 2, v.geo.MaxClusters()) != 0
    ensures f != null ==> v.Entries() == CreateFat(v.geo.kind, old(v.Entries()), f.firstCluster)
    ensures OnlyTouches(v.geo, old(v.disk[..]), v.disk[..], [])
    ensures old(Mirrored(v.geo, v.disk[..])) ==> Mirrored(v.geo, v.disk[..])
  {
    hide Fat, Layout, LayoutOn, Content, OnlyTouches, Mirrored, LowestFree, FreeSet, CacheAgrees, BufferHolds, Coherent;
    var c := CreateChain(v);
    if c == 0 {
      return null;
    }
    assert IsChain(v.geo.kind, v.Entries(), [c]);
    f := OpenEntry(v, c, 0, [c]);
  }

  /** Follows n links of a chain; fails when the chain is shorter. */
  method WalkChain(v: Volume, first: nat, n: nat, ghost chain: seq<nat>) returns (ok: bool, c: nat)
    requires v.Valid() && CacheSafe(v.geo) && IsChain(v.geo.kind, v.Entries(), chain) && first == chain[0]
    modifies v`cachePos, v.cache
    ensures v.Valid() && ok == (n < |chain|) && (ok ==> c == chain[n])
  {
    hide Fat, CacheAgrees;
    ghost var fat := v.Entries();
    var i := 0;
    c := first;
    while i < n
      invariant i <= n && i < |chain| && c == chain[i]
      invariant v.Valid() && v.Entries() == fat
    {
      ClustersInTable(v.geo, c);
      NextInChain(v.geo.kind, fat, chain, i);
      c := v.NextCluster(c);
      if c >= EofMarker(v.geo.kind) {
        return false, c;
      }
      i := i + 1;
    }
    return true, c;
  }

  /** Moves the position to t.  The chain is walked from its start. */
  method Seek(v: Volume, f: OpenFile, t: u32, ghost chain: seq<nat>) returns (r: int)
    requires Open(v, f, chain) && f.size == f.extent
    modifies v`cachePos, v.cache, f`position, f`offset, f`size, f`extent, f`currentCluster, f`sectorInCluster, f.buffer
    ensures Open(v, f, chain) && f.extent == old(f.extent) && Bytes(v, f, chain) == old(Bytes(v, f, chain))
    ensures t > f.extent ==> r == E_INVAL && f.offset == old(f.offset)
    ensures f.size == f.extent && (t <= f.extent ==> f.offset == t && InStep(f))
    ensures t <= f.extent && 0 < f.extent ==> r == if t / SECTOR_SIZE < |Layout(v.geo, chain)| then SUCCESS else E_IO
    ensures t <= f.extent && 0 < f.extent && r == SUCCESS ==> Coherent(v, f, chain)
    ensures f.extent == 0 && t == 0 ==> r == SUCCESS && f.buffer[..] == old(f.buffer[..])
    ensures f.extent == 0 ==> f.currentCluster == old(f.currentCluster) && f.sectorInCluster == old(f.sectorInCluster)
    ensures (t > f.extent || f.extent == 0) && old(Coherent(v, f, chain)) ==> Coherent(v, f, chain)
  {
    LowIsSame(t);
    hide Fat, CacheAgrees, Layout, LayoutOn, Content, BufferHolds, IsChain, ClustersIn, Low32;
    if t > f.size {
      return E_INVAL;
    }
    f.position, f.offset := t, t;
    if f.size == 0 {
      return SUCCESS;
    }
    r := LoadPosition(v, f, chain);
  }

  /** The chain ends at the position: so does the file. */
  method StopHere(f: OpenFile)
    requires Linked(f) && InStep(f) && f.offset == f.extent
    modifies f`size, f`extent
    ensures Linked(f) && InStep(f) && f.extent == old(f.extent)
  {
    f.size, f.extent := f.position, f.offset;
  }

  /** Walks the chain to the position, and loads the sector there. */
  method LoadPosition(v: Volume, f: OpenFile, ghost chain: seq<nat>) returns (r: int)
    requires Open(v, f, chain) && InStep(f) && f.offset <= f.extent
    modifies v`cachePos, v.cache, f`size, f`extent, f`currentCluster, f`sectorInCluster, f.buffer
    ensures Open(v, f, chain) && InStep(f) && f.extent == old(f.extent) && Bytes(v, f, chain) == old(Bytes(v, f, chain))
    ensures r == if f.offset / SECTOR_SIZE < |Layout(v.geo, chain)| then SUCCESS else E_IO
    ensures r == SUCCESS ==> Coherent(v, f, chain)
  {
    hide Fat, CacheAgrees, Layout, LayoutOn, Content, BufferHolds, IsChain, ClustersIn, Linked, InTable, EofMarker,
         CacheSafe;
    var t := f.position;
    var clusterBytes := SECTOR_SIZE * v.geo.sectorsPerCluster;
    DivTwice(t, SECTOR_SIZE, v.geo.sectorsPerCluster);
    SectorExists(v.geo, chain, t / SECTOR_SIZE);
    var ok, c := WalkChain(v, f.firstCluster, t / clusterBytes, chain);
    if !ok {
      StopHere(f);
      return E_IO;
    }
    f.currentCluster, f.sectorInCluster := c, t % clusterBytes / SECTOR_SIZE;
    LoadSector(v, f, chain, t / SECTOR_SIZE);
    return SUCCESS;
  }

  /** Moves the cursor to the next sector of the same cluster and loads that. */
  method LoadNextInCluster(v: Volume, f: OpenFile, ghost chain: seq<nat>, ghost s: nat)
    requires Open(v, f, chain) && CursorAt(v.geo, f, chain, s) && f.sectorInCluster + 1 < v.geo.sectorsPerCluster
    requires f.offset == (s + 1) * SECTOR_SIZE <= f.extent
    modifies f`sectorInCluster, f.buffer
    ensures Open(v, f, chain) && Bytes(v, f, chain) == old(Bytes(v, f, chain)) && Coherent(v, f, chain)
  {
    hide Layout, BufferHolds, Fat, CacheAgrees, LayoutOn, Content, IsChain, Linked;
    DivSucc(s, v.geo.sectorsPerCluster);
    SectorExists(v.geo, chain, s + 1);
    f.sectorInCluster := f.sectorInCluster + 1;
    LoadSector(v, f, chain, s + 1);
  }

  /** The cursor has used up sector s; moves it to the next sector of the chain and loads that.  At the end of
      the chain the size is set to the position. */
  method NextForRead(v: Volume, f: OpenFile, ghost chain: seq<nat>, ghost s: nat) returns (end: bool)
    requires Open(v, f, chain) && CursorAt(v.geo, f, chain, s) && f.offset == (s + 1) * SECTOR_SIZE <= f.extent
    requires InStep(f)
    modifies v`cachePos, v.cache, f`size, f`extent, f`currentCluster, f`sectorInCluster, f.buffer
    ensures Open(v, f, chain) && f.extent == old(f.extent) && Bytes(v, f, chain) == old(Bytes(v, f, chain))
    ensures InStep(f)
    ensures if end then f.offset == f.extent == |Layout(v.geo, chain)| * SECTOR_SIZE else Coherent(v, f, chain)
  {
    assert 0 < v.geo.sectorsPerCluster;
    hide Open, Bytes, Coherent, Linked, Layout;
    if f.sectorInCluster + 1 < v.geo.sectorsPerCluster {
      LoadNextInCluster(v, f, chain, s);
      end := false;
    } else {
      DivSucc(s, v.geo.sectorsPerCluster);
      f.sectorInCluster := 0;
      end := EnterNextCluster(v, f, chain, s / v.geo.sectorsPerCluster, s + 1);
    }
  }

  /** The cursor has used up cluster k; moves it to the first sector of the next cluster, if there is one. */
  method EnterNextCluster(v: Volume, f: OpenFile, ghost chain: seq<nat>, ghost k: nat, ghost s: nat) returns (end: bool)
    requires Open(v, f, chain) && InStep(f) && f.offset == s * SECTOR_SIZE <= f.extent
    requires k < |chain| && f.currentCluster == chain[k] && f.sectorInCluster == 0
    requires s / v.geo.sectorsPerCluster == k + 1 && s % v.geo.sectorsPerCluster == 0
    modifies v`cachePos, v.cache, f`size, f`extent, f`currentCluster, f.buffer
    ensures Open(v, f, chain) && f.extent == old(f.extent) && Bytes(v, f, chain) == old(Bytes(v, f, chain))
    ensures InStep(f)
    ensures if end then f.offset == f.extent == |Layout(v.geo, chain)| * SECTOR_SIZE else Coherent(v, f, chain)
  {
    hide Fat, CacheAgrees, Layout, LayoutOn, BufferHolds, Linked, Content, ClustersIn;
    SectorExists(v.geo, chain, s);
    ClustersInTable(v.geo, f.currentCluster);
    NextInChain(v.geo.kind, v.Entries(), chain, k);
    hide IsChain;
    var next := v.NextCluster(f.currentCluster);
    if next < 2 || next >= EofMarker(v.geo.kind) {
      StopHere(f);
      if 2 <= next {
        f.currentCluster := next;
      }
      end := true;
    } else {
      f.currentCluster := next;
      LoadSector(v, f, chain, s);
      end := false;
    }
  }

  /** How many bytes a read of n bytes asks for, and how many it delivers, at position p of a file of this size. */
  function Wanted(size: nat, p: nat, n: nat): nat {
    if p >= size then 0 else Min(n, size - p)
  }

  /** The read does not give up before its end. */
  predicate WithinLimit(size: nat, p: nat, n: nat) {
    p % SECTOR_SIZE + Wanted(size, p, n) < (READ_LIMIT + 1) * SECTOR_SIZE
  }

  function Delivered(size: nat, p: nat, n: nat): nat {
    Min(Wanted(size, p, n), (READ_LIMIT + 1) * SECTOR_SIZE - p % SECTOR_SIZE)
  }

  /** Copies take bytes from the buffer. */
  method TakeFromBuffer(v: Volume, f: OpenFile, take: nat, ghost chain: seq<nat>) returns (bytes: seq<byte>)
    requires Open(v, f, chain) && Coherent(v, f, chain) && InStep(f)
    requires f.offset % SECTOR_SIZE + take <= SECTOR_SIZE && f.offset + take <= f.extent
    modifies f`position, f`offset
    ensures Open(v, f, chain) && InStep(f) && f.offset == old(f.offset) + take
    ensures Bytes(v, f, chain) == old(Bytes(v, f, chain))
    ensures f.offset / SECTOR_SIZE == old(f.offset) / SECTOR_SIZE ==> Coherent(v, f, chain)
    ensures bytes == Bytes(v, f, chain)[old(f.offset)..f.offset]
    ensures CursorAt(v.geo, f, chain, old(f.offset) / SECTOR_SIZE)
    ensures BufferHolds(v.disk[..], Layout(v.geo, chain), f.extent, old(f.offset) / SECTOR_SIZE, f.buffer[..])
  {
    hide Fat, CacheAgrees, Layout, IsChain, Low32, Add32;
    var o := f.position % SECTOR_SIZE;
    bytes := f.buffer[o..o + take];
    ghost var p := f.offset;
    Moved(p, take);
    f.position, f.offset := Add32(f.position, take), p + take;
    LowIsSame(f.offset);
    ghost var s := p / SECTOR_SIZE;
    forall i | 0 <= i < take
      ensures bytes[i] == Bytes(v, f, chain)[p + i]
    {
      DivModUnique(p + i, SECTOR_SIZE, s, o + i);
    }
  }

  /** Moving within a sector, up to its end. */
  lemma SectorStep(q: nat, take: nat)
    requires q % SECTOR_SIZE + take <= SECTOR_SIZE
    ensures if q % SECTOR_SIZE + take == SECTOR_SIZE
            then (q + take) % SECTOR_SIZE == 0 && q + take == (q / SECTOR_SIZE + 1) * SECTOR_SIZE
            else (q + take) % SECTOR_SIZE == q % SECTOR_SIZE + take && (q + take) / SECTOR_SIZE == q / SECTOR_SIZE
  {
    if q % SECTOR_SIZE + take == SECTOR_SIZE {
      DivModUnique(q + take, SECTOR_SIZE, q / SECTOR_SIZE + 1, 0);
    } else {
      DivModUnique(q + take, SECTOR_SIZE, q / SECTOR_SIZE, q % SECTOR_SIZE + take);
    }
  }

  /** The sector of the last byte of a chunk. */
  lemma LastByte(q: nat, take: nat)
    requires 0 < take && q % SECTOR_SIZE + take <= SECTOR_SIZE
    ensures (q + take - 1) / SECTOR_SIZE == q / SECTOR_SIZE
  {
    DivModUnique(q + take - 1, SECTOR_SIZE, q / SECTOR_SIZE, q % SECTOR_SIZE + take - 1);
  }

  /** Reads up to n bytes at the position.  Returns what the file holds there, cut off at its end and after
      READ_LIMIT + 1 sector boundaries; up to READ_LIMIT boundaries the cursor is ready for the next read. */
  method Read(v: Volume, f: OpenFile, n: nat, ghost chain: seq<nat>) returns (out: seq<byte>)
    requires Open(v, f, chain) && InStep(f) && (f.offset < f.extent ==> Coherent(v, f, chain))
    modifies v`cachePos, v.cache, f`position, f`offset, f`size, f`extent, f`currentCluster, f`sectorInCluster, f.buffer
    ensures Open(v, f, chain) && f.extent == old(f.extent) && Bytes(v, f, chain) == old(Bytes(v, f, chain))
    ensures InStep(f) && |out| == Delivered(f.extent, old(f.offset), n) && f.offset == old(f.offset) + |out|
    ensures 0 < |out| ==> f.offset <= f.extent && out == Bytes(v, f, chain)[old(f.offset)..f.offset]
    ensures old(f.offset) < f.extent && WithinLimit(f.extent, old(f.offset), n) ==>
      (Coherent(v, f, chain) <==> f.offset < |Layout(v.geo, chain)| * SECTOR_SIZE)
    ensures old(f.offset) >= f.extent && old(Coherent(v, f, chain)) ==> Coherent(v, f, chain)
  {
    hide Open, Coherent, Bytes, Low32, Linked, Layout;
    out := [];
    if f.position >= f.size {
      return;
    }
    var want := if n < f.size - f.position then n else f.size - f.position;
    var counter: nat := 0;
    var stop := false;
    ghost var p, bytes := f.offset, Bytes(v, f, chain);
    InVolume(v, f, chain);
    while |out| < want && !stop
      invariant Open(v, f, chain) && Bytes(v, f, chain) == bytes && Reading(f, p, bytes, out, counter) && |out| <= want
      invariant !stop ==> counter <= READ_LIMIT && Coherent(v, f, chain)
      invariant counter <= READ_LIMIT || (counter == READ_LIMIT + 1 && f.offset % SECTOR_SIZE == 0)
      invariant stop ==> f.offset == f.extent == |Layout(v.geo, chain)| * SECTOR_SIZE || counter > READ_LIMIT
      decreases want - |out|
    {
      out, counter, stop := ReadStep(v, f, want, out, counter, p, bytes, chain);
    }
    AtEnd(v, f, chain);
  }

  lemma InVolume(v: Volume, f: OpenFile, chain: seq<nat>)
    requires Open(v, f, chain)
    ensures OnDisk(v.geo, v.disk[..]) && ClustersIn(v.geo, chain)
  {
    hide Fat, CacheAgrees, Layout, IsChain, LayoutOn, InTable;
  }

  /** What holds while the bytes from position p on are being read; counter counts the sector boundaries passed. */
  ghost predicate Reading(f: OpenFile, p: nat, bytes: seq<byte>, out: seq<byte>, counter: nat)
    reads f
  {
    && InStep(f) && f.extent == |bytes| && f.offset == p + |out| <= |bytes| && out == bytes[p..p + |out|]
    && f.offset % SECTOR_SIZE == p % SECTOR_SIZE + |out| - counter * SECTOR_SIZE
  }

  /** Takes what the buffer still holds of the wanted bytes, and loads the next sector when the buffer is used up. */
  method ReadStep(v: Volume, f: OpenFile, want: nat, out: seq<byte>, counter: nat, ghost p: nat, ghost bytes: seq<byte>,
                  ghost chain: seq<nat>)
    returns (out': seq<byte>, counter': nat, stop: bool)
    requires Open(v, f, chain) && Coherent(v, f, chain) && Bytes(v, f, chain) == bytes
    requires Reading(f, p, bytes, out, counter)
    requires |out| < want && p + want <= |bytes| && counter <= READ_LIMIT
    modifies v`cachePos, v.cache, f`position, f`offset, f`size, f`extent, f`currentCluster, f`sectorInCluster, f.buffer
    ensures Open(v, f, chain) && Bytes(v, f, chain) == bytes && Reading(f, p, bytes, out', counter')
    ensures |out| < |out'| <= want
    ensures !stop ==> counter' <= READ_LIMIT && Coherent(v, f, chain)
    ensures counter' <= READ_LIMIT || (counter' == READ_LIMIT + 1 && f.offset % SECTOR_SIZE == 0)
    ensures stop ==> f.offset == f.extent == |Layout(v.geo, chain)| * SECTOR_SIZE || counter' > READ_LIMIT
  {
    hide Open, Coherent, Bytes, CursorAt, Low32, Linked, BufferHolds, Layout;
    var left := SECTOR_SIZE - f.position % SECTOR_SIZE;
    var take := if want - |out| < left then want - |out| else left;
    ghost var q := f.offset;
    SectorStep(q, take);
    var chunk := TakeFromBuffer(v, f, take, chain);
    out', counter', stop := out + chunk, counter, false;
    assert bytes[p..q] + bytes[q..q + take] == bytes[p..q + take];
    if take == left {
      counter' := counter + 1;
      if counter' > READ_LIMIT {
        stop := true;
      } else {
        stop := NextForRead(v, f, chain, q / SECTOR_SIZE);
      }
    }
  }

  // ----- Writing -----

  /** Moves the position of a handle behind n written bytes and grows its size, in 32-bit arithmetic. */
  method Advance(f: OpenFile, n: nat)
    requires Linked(f)
    modifies f`position, f`offset, f`size, f`extent
    ensures Linked(f) && f.offset == old(f.offset) + n && f.extent == Max(old(f.extent), f.offset)
  {
    Moved(f.offset, n);
    f.position, f.offset := Add32(f.position, n), f.offset + n;
    if f.position > f.size {
      f.size := f.position;
    }
    f.extent := Max(f.extent, f.offset);
    LowIsSame(f.offset);
  }

  /** Copies chunk into the buffer at the position and writes the buffer to its sector. */
  method WriteChunk(v: Volume, f: OpenFile, chunk: seq<byte>, ghost chain: seq<nat>)
    requires Open(v, f, chain) && Coherent(v, f, chain) && f.offset % SECTOR_SIZE + |chunk| <= SECTOR_SIZE
    modifies v.disk, f`position, f`offset, f`size, f`extent, f.buffer
    ensures Open(v, f, chain) && f.offset == old(f.offset) + |chunk| <= f.extent
    ensures Bytes(v, f, chain) == Splice(old(Bytes(v, f, chain)), old(f.offset), chunk)
    ensures CursorAt(v.geo, f, chain, old(f.offset) / SECTOR_SIZE)
    ensures BufferHolds(v.disk[..], Layout(v.geo, chain), f.extent, old(f.offset) / SECTOR_SIZE, f.buffer[..])
    ensures v.Entries() == old(v.Entries()) && OnlyTouches(v.geo, old(v.disk[..]), v.disk[..], Layout(v.geo, chain))
    ensures old(Mirrored(v.geo, v.disk[..])) ==> Mirrored(v.geo, v.disk[..])
  {
    hide Fat, CacheAgrees, Layout, IsChain, BufferHolds, LayoutOn, Content, Mirrored, Splice, Patch;
    Moved(f.offset, |chunk|);
    var o := f.position % SECTOR_SIZE;
    ghost var p, s, layout, d := f.offset, f.offset / SECTOR_SIZE, Layout(v.geo, chain), v.disk[..];
    assert p == s * SECTOR_SIZE + o;
    WriteSectorSplices(d, layout, f.extent, s, o, f.buffer[..], chunk);
    CursorSector(v.geo, f, chain, s);
    var patched := Patch(f.buffer[..], o, chunk);
    forall i | 0 <= i < SECTOR_SIZE {
      f.buffer[i] := patched[i];
    }
    assert f.buffer[..] == patched && v.disk[..] == d && v.cache[..] == old(v.cache[..]);
    Advance(f, |chunk|);
    v.WriteData(ClusterToLba(v.geo, f.currentCluster) + f.sectorInCluster, f.buffer[..]);
    assert layout[s] in layout;
  }

  /** What the next write does first when the last one has ended on a sector boundary and no seek has followed: the
      cursor still stands in the sector before the position, so the chunk overwrites the start of that sector. */
  method WriteBehind(v: Volume, f: OpenFile, chunk: seq<byte>, ghost chain: seq<nat>)
    requires Open(v, f, chain) && 0 < f.offset <= f.extent && f.offset % SECTOR_SIZE == 0 && |chunk| <= SECTOR_SIZE
    requires StandsAt(v, f, chain, (f.offset - 1) / SECTOR_SIZE)
    modifies v.disk, f`position, f`offset, f`size, f`extent, f.buffer
    ensures f.offset == old(f.offset) + |chunk| && SECTOR_SIZE <= old(f.offset)
    ensures LayoutOn(v.disk[..], Layout(v.geo, chain))
    ensures Content(v.disk[..], Layout(v.geo, chain), old(f.extent)) ==
              Splice(old(Bytes(v, f, chain)), old(f.offset) - SECTOR_SIZE, chunk)
  {
    hide Fat, CacheAgrees, Layout, IsChain, BufferHolds, LayoutOn, Content, Mirrored, Splice, Patch, Low32, Add32;
    Moved(f.offset, 0);
    var o := f.position % SECTOR_SIZE;
    ghost var s, layout, d := (f.offset - 1) / SECTOR_SIZE, Layout(v.geo, chain), v.disk[..];
    SectorBefore(f.offset);
    WriteSectorSplices(d, layout, f.extent, s, o, f.buffer[..], chunk);
    CursorSector(v.geo, f, chain, s);
    var patched := Patch(f.buffer[..], o, chunk);
    forall i | 0 <= i < SECTOR_SIZE {
      f.buffer[i] := patched[i];
    }
    assert f.buffer[..] == patched && v.disk[..] == d && v.cache[..] == old(v.cache[..]);
    Advance(f, |chunk|);
    v.WriteData(ClusterToLba(v.geo, f.currentCluster) + f.sectorInCluster, f.buffer[..]);
  }

  lemma SectorBefore(o: nat)
    requires 0 < o && o % SECTOR_SIZE == 0
    ensures SECTOR_SIZE <= o && (o - 1) / SECTOR_SIZE * SECTOR_SIZE == o - SECTOR_SIZE
  {
    DivMod(o, SECTOR_SIZE);
    DivModUnique(o - 1, SECTOR_SIZE, o / SECTOR_SIZE - 1, SECTOR_SIZE - 1);
  }

  /** Links cluster c behind the last cluster of a chain. */
  method LinkCluster(v: Volume, last: nat, c: nat, ghost chain: seq<nat>)
    requires v.Valid() && IsChain(v.geo.kind, v.Entries(), chain) && last == chain[|chain| - 1]
    requires 2 <= c < ClusterLimit(v.geo) && v.Entries()[c] == 0
    modifies v`cachePos, v.cache, v.disk
    ensures v.Valid() && v.Entries() == ExtendFat(v.geo.kind, old(v.Entries()), last, c)
    ensures Grown(v.geo.kind, old(v.Entries()), chain, v.Entries(), chain + [c])
    ensures OnlyTouches(v.geo, old(v.disk[..]), v.disk[..], [])
    ensures old(Mirrored(v.geo, v.disk[..])) ==> Mirrored(v.geo, v.disk[..])
  {
    hide Fat, CacheAgrees, Mirrored;
    ghost var k, fat := v.geo.kind, v.Entries();
    ExtendGrows(k, fat, chain, c);
    hide IsChain, Grown;
    EntryFits(v.geo, c);
    v.WriteFatEntry(last, c);
    v.WriteFatEntry(c, EofValue(v.geo.kind));
  }

  lemma ExtendGrows(k: Kind, fat: seq<nat>, chain: seq<nat>, c: nat)
    requires SoundTable(k, fat) && IsChain(k, fat, chain) && 2 <= c < |fat| && fat[c] == 0
    ensures Grown(k, fat, chain, ExtendFat(k, fat, chain[|chain| - 1], c), chain + [c])
  {
    ExtendChain(k, fat, chain, c);
    assert chain[|chain| - 1] in chain + [c] && c in chain + [c];
  }

  /** Growing the chain does not change the bytes of the file. */
  lemma GrowKeepsBytes(g: Geometry, d: seq<Sector>, d': seq<Sector>, chain: seq<nat>, c: nat, size: nat)
    requires OnDisk(g, d) && OnDisk(g, d') && ClustersIn(g, chain) && LayoutOn(d, Layout(g, chain))
    requires SoundTable(g.kind, Fat(g, d')) && IsChain(g.kind, Fat(g, d'), chain + [c]) && OnlyTouches(g, d, d', [])
    requires size <= |Layout(g, chain)| * SECTOR_SIZE
    ensures ClustersIn(g, chain + [c]) && LayoutOn(d', Layout(g, chain + [c]))
    ensures Layout(g, chain) <= Layout(g, chain + [c])
    ensures Content(d', Layout(g, chain + [c]), size) == Content(d, Layout(g, chain), size)
  {
    ChainLayout(g, d', chain + [c]);
    LayoutPrefix(g, chain, chain + [c]);
    var layout := Layout(g, chain);
    forall s | 0 <= s < |layout| ensures d'[layout[s]] == d[layout[s]] {
      var k, j := LayoutSound(g, chain, s);
      assert layout[s] < |d| && layout[s] >= g.dataLba;
    }
    ContentFrame(d, layout, d', Layout(g, chain + [c]), size);
  }

  /** The clusters that the search for a free one can find. */
  ghost function SearchFree(fat: seq<nat>, limit: nat): set<nat> {
    set c | 2 <= c < limit && c < |fat| && fat[c] == 0
  }

  /** The search finds the lowest free cluster that it looks at. */
  lemma LowestIsLeast(fat: seq<nat>, limit: nat)
    requires limit <= |fat|
    ensures var c, free := LowestFree(fat, 2, limit), SearchFree(fat, limit);
            (c == 0 <==> free == {}) && (c != 0 ==> c in free && c == Least(free))
  {
    hide LowestFree;
    var c, free := LowestFree(fat, 2, limit), SearchFree(fat, limit);
    if c != 0 {
      assert c in free;
    }
  }

  lemma ExtendSearchFree(k: Kind, fat: seq<nat>, chain: seq<nat>, limit: nat, c: nat)
    requires IsChain(k, fat, chain) && limit <= |fat| && c == LowestFree(fat, 2, limit) != 0
    ensures var free := SearchFree(fat, limit);
            [c] == Take(free, 1) && SearchFree(ExtendFat(k, fat, chain[|chain| - 1], c), limit) == free - Elements([c])
  {
    ChainNotFree(k, fat, chain, |chain| - 1);
    LowestIsLeast(fat, limit);
    hide LowestFree, IsChain;
    assert Take(SearchFree(fat, limit), 1) == [c];
  }

  /** What a write does to the table: the chain has grown by the lowest free clusters. */
  ghost predicate Advanced(g: Geometry, fat: seq<nat>, chain: seq<nat>, fat': seq<nat>, chain': seq<nat>)
    requires g.Wf()
  {
    && Grown(g.kind, fat, chain, fat', chain')
    && chain'[|chain|..] == Take(SearchFree(fat, g.MaxClusters()), |chain'| - |chain|)
    && SearchFree(fat', g.MaxClusters()) == SearchFree(fat, g.MaxClusters()) - Elements(chain'[|chain|..])
  }

  lemma AdvancedCount(g: Geometry, fat: seq<nat>, chain: seq<nat>, fat': seq<nat>, chain': seq<nat>)
    requires g.Wf() && Advanced(g, fat, chain, fat', chain')
    ensures |SearchFree(fat', g.MaxClusters())| + |chain'| == |SearchFree(fat, g.MaxClusters())| + |chain|
  {
    hide Grown, SearchFree, Take, Elements, InTable;
    TakeCount(SearchFree(fat, g.MaxClusters()), |chain'| - |chain|);
    LongerChain(g.kind, fat, chain, fat', chain');
  }

  lemma LongerChain(k: Kind, fat: seq<nat>, chain: seq<nat>, fat': seq<nat>, chain': seq<nat>)
    requires Grown(k, fat, chain, fat', chain')
    ensures |chain| <= |chain'|
  {
  }

  /** An extension by the cluster that the search finds. */
  lemma AdvancedOne(g: Geometry, fat: seq<nat>, chain: seq<nat>, fat': seq<nat>, c: nat)
    requires g.Wf() && |fat| == ClusterLimit(g) && IsChain(g.kind, fat, chain)
    requires c == LowestFree(fat, 2, g.MaxClusters()) != 0 && fat' == ExtendFat(g.kind, fat, chain[|chain| - 1], c)
    requires Grown(g.kind, fat, chain, fat', chain + [c])
    ensures Advanced(g, fat, chain, fat', chain + [c])
  {
    hide LowestFree, Grown, SearchFree, InTable, IsChain, Take, Elements;
    ExtendSearchFree(g.kind, fat, chain, g.MaxClusters(), c);
    assert (chain + [c])[|chain|..] == [c];
  }

  lemma AdvancedRefl(g: Geometry, fat: seq<nat>, chain: seq<nat>)
    requires g.Wf() && IsChain(g.kind, fat, chain)
    ensures Advanced(g, fat, chain, fat, chain)
  {
    hide SearchFree;
    assert SearchFree(fat, g.MaxClusters()) - Elements([]) == SearchFree(fat, g.MaxClusters());
  }

  lemma AdvancedTrans(g: Geometry, f0: seq<nat>, c0: seq<nat>, f1: seq<nat>, c1: seq<nat>, f2: seq<nat>, c2: seq<nat>)
    requires g.Wf() && SoundTable(g.kind, f0) && Advanced(g, f0, c0, f1, c1) && Advanced(g, f1, c1, f2, c2)
    ensures Advanced(g, f0, c0, f2, c2)
  {
    hide SearchFree, Grown, Take, Elements, InTable;
    GrownTrans(g.kind, f0, c0, f1, c1, f2, c2);
    GrownPrefix(g.kind, f0, c0, f1, c1, f2, c2);
    var free := SearchFree(f0, g.MaxClusters());
    TakeMore(free, |c1| - |c0|, |c2| - |c1|);
    WithoutBoth(free, c1[|c0|..], c2[|c1|..]);
  }

  lemma GrownPrefix(k: Kind, f0: seq<nat>, c0: seq<nat>, f1: seq<nat>, c1: seq<nat>, f2: seq<nat>, c2: seq<nat>)
    requires Grown(k, f0, c0, f1, c1) && Grown(k, f1, c1, f2, c2)
    ensures |c0| <= |c1| <= |c2| && c2[|c0|..] == c1[|c0|..] + c2[|c1|..]
  {
    hide IsChain;
    assert c2 == c1 + c2[|c1|..];
  }

  /** A chain that has grown is no longer than the bytes up to position o need. */
  ghost predicate Tight(g: Geometry, base: seq<nat>, chain: seq<nat>, o: nat) {
    |chain| == |base| || (0 < |chain| && Capacity(g, |chain| - 1) < o)
  }

  /** A chain has grown by at most one cluster, for the bytes from position o on. */
  ghost predicate OneMore(g: Geometry, chain: seq<nat>, chain': seq<nat>, o: nat) {
    |chain'| == |chain| || (|chain'| == |chain| + 1 && Capacity(g, |chain|) == o)
  }

  /** The cursor has used up the last sector of the chain; links a free cluster behind it and moves there. */
  method AppendCluster(v: Volume, f: OpenFile, ghost chain: seq<nat>, ghost s: nat)
    returns (ok: bool, ghost chain': seq<nat>)
    requires Open(v, f, chain) && f.currentCluster == chain[|chain| - 1] && f.sectorInCluster == 0
    requires s == |Layout(v.geo, chain)| && f.offset == s * SECTOR_SIZE == f.extent
    modifies v`cachePos, v.cache, v.disk, f`currentCluster, f.buffer
    ensures Open(v, f, chain') && Bytes(v, f, chain') == old(Bytes(v, f, chain))
    ensures Advanced(v.geo, old(v.Entries()), chain, v.Entries(), chain')
    ensures OnlyTouches(v.geo, old(v.disk[..]), v.disk[..], [])
    ensures old(Mirrored(v.geo, v.disk[..])) ==> Mirrored(v.geo, v.disk[..])
    ensures ok <==> !(FreeSet(old(v.Entries())) <= LastTwo(v.geo))
    ensures |chain'| == if ok then |chain| + 1 else |chain|
    ensures if ok then Coherent(v, f, chain')
            else chain' == chain && LowestFree(v.Entries(), 2, v.geo.MaxClusters()) == 0
  {
    hide Fat, CacheAgrees, Layout, IsChain, LayoutOn, Content, Mirrored, LowestFree, Grown, BufferHolds, OnlyTouches,
         Advanced, LastTwo, FreeSet, InTable;
    ghost var fat, d := v.Entries(), v.disk[..];
    ChainIn(v.geo, v.geo.kind, fat, chain);
    AdvancedRefl(v.geo, fat, chain);
    NothingTouched(v.geo, d);
    var c := FindFree(v);
    if c == 0 {
      return false, chain;
    }
    LinkCluster(v, f.currentCluster, c, chain);
    chain' := chain + [c];
    AdvancedOne(v.geo, fat, chain, v.Entries(), c);
    AppendedChain(v.geo, d, v.disk[..], chain, c, f.extent);
    f.currentCluster := c;
    LoadSector(v, f, chain', s);
    ok := true;
  }

  lemma AppendedChain(g: Geometry, d: seq<Sector>, d': seq<Sector>, chain: seq<nat>, c: nat, size: nat)
    requires OnDisk(g, d) && OnDisk(g, d') && ClustersIn(g, chain) && LayoutOn(d, Layout(g, chain))
    requires Grown(g.kind, Fat(g, d), chain, Fat(g, d'), chain + [c]) && OnlyTouches(g, d, d', [])
    requires size <= |Layout(g, chain)| * SECTOR_SIZE
    ensures IsChain(g.kind, Fat(g, d'), chain + [c]) && ClustersIn(g, chain + [c])
    ensures LayoutOn(d', Layout(g, chain + [c]))
    ensures Content(d', Layout(g, chain + [c]), size) == Content(d, Layout(g, chain), size)
    ensures var s := |Layout(g, chain)|;
            && s < |Layout(g, chain + [c])| && size <= |Layout(g, chain + [c])| * SECTOR_SIZE
            && s / g.sectorsPerCluster == |chain| && s % g.sectorsPerCluster == 0
  {
    GrowKeepsBytes(g, d, d', chain, c, size);
    LayoutLength(g, chain);
    DivModUnique(|Layout(g, chain)|, g.sectorsPerCluster, |chain|, 0);
    SectorExists(g, chain + [c], |Layout(g, chain)|);
  }

  /** The cursor has filled sector s; moves it to the next sector, allocating a cluster when the chain ends. */
  method NextForWrite(v: Volume, f: OpenFile, ghost chain: seq<nat>, ghost s: nat)
    returns (ok: bool, ghost chain': seq<nat>)
    requires Open(v, f, chain) && CursorAt(v.geo, f, chain, s) && f.offset == (s + 1) * SECTOR_SIZE <= f.extent
    modifies v`cachePos, v.cache, v.disk, f`currentCluster, f`sectorInCluster, f.buffer
    ensures Open(v, f, chain') && Bytes(v, f, chain') == old(Bytes(v, f, chain))
    ensures Advanced(v.geo, old(v.Entries()), chain, v.Entries(), chain')
    ensures OnlyTouches(v.geo, old(v.disk[..]), v.disk[..], [])
    ensures old(Mirrored(v.geo, v.disk[..])) ==> Mirrored(v.geo, v.disk[..])
    ensures OneMore(v.geo, chain, chain', f.offset) && (!ok ==> |chain'| == |chain|)
    ensures if ok then Coherent(v, f, chain')
            else
              f.offset == |Layout(v.geo, chain')| * SECTOR_SIZE &&
              LowestFree(v.Entries(), 2, v.geo.MaxClusters()) == 0
  {
    hide Layout, BufferHolds, Mirrored, OnlyTouches, LowestFree, Advanced, Fat, CacheAgrees, LayoutOn, Content, Linked;
    AdvancedRefl(v.geo, v.Entries(), chain);
    NothingTouched(v.geo, v.disk[..]);
    hide Open, Bytes, ClustersIn, IsChain, Coherent;
    if f.sectorInCluster + 1 < v.geo.sectorsPerCluster {
      LoadNextInCluster(v, f, chain, s);
      ok, chain' := true, chain;
    } else {
      DivSucc(s, v.geo.sectorsPerCluster);
      f.sectorInCluster := 0;
      ok, chain' := NextClusterForWrite(v, f, chain, s / v.geo.sectorsPerCluster, s + 1);
    }
  }

  /** The cursor has filled cluster k; moves it to the first sector of the next cluster, allocating that if
      necessary. */
  method NextClusterForWrite(v: Volume, f: OpenFile, ghost chain: seq<nat>, ghost k: nat, ghost s: nat)
    returns (ok: bool, ghost chain': seq<nat>)
    requires Open(v, f, chain) && f.offset == s * SECTOR_SIZE <= f.extent
    requires k < |chain| && f.currentCluster == chain[k] && f.sectorInCluster == 0
    requires s / v.geo.sectorsPerCluster == k + 1 && s % v.geo.sectorsPerCluster == 0
    modifies v`cachePos, v.cache, v.disk, f`currentCluster, f.buffer
    ensures Open(v, f, chain') && Bytes(v, f, chain') == old(Bytes(v, f, chain))
    ensures Advanced(v.geo, old(v.Entries()), chain, v.Entries(), chain')
    ensures OnlyTouches(v.geo, old(v.disk[..]), v.disk[..], [])
    ensures old(Mirrored(v.geo, v.disk[..])) ==> Mirrored(v.geo, v.disk[..])
    ensures OneMore(v.geo, chain, chain', f.offset) && (!ok ==> |chain'| == |chain|)
    ensures if ok then Coherent(v, f, chain')
            else
              f.offset == |Layout(v.geo, chain')| * SECTOR_SIZE &&
              LowestFree(v.Entries(), 2, v.geo.MaxClusters()) == 0
  {
    hide Layout, BufferHolds, Mirrored, OnlyTouches, LowestFree, Advanced, Fat, CacheAgrees, LayoutOn, Content,
         ClustersIn, Linked;
    SectorExists(v.geo, chain, s);
    LayoutLength(v.geo, chain);
    DivMod(s, v.geo.sectorsPerCluster);
    AdvancedRefl(v.geo, v.Entries(), chain);
    NothingTouched(v.geo, v.disk[..]);
    ClustersInTable(v.geo, f.currentCluster);
    NextInChain(v.geo.kind, v.Entries(), chain, k);
    hide IsChain;
    var next := v.NextCluster(f.currentCluster);
    if next >= EofMarker(v.geo.kind) {
      ok, chain' := AppendCluster(v, f, chain, s);
    } else {
      f.currentCluster := next;
      LoadSector(v, f, chain, s);
      ok, chain' := true, chain;
    }
  }

  /** Empties a file: all clusters but the first are freed. */
  method Truncate(v: Volume, f: OpenFile, ghost chain: seq<nat>) returns (r: int)
    requires v.Valid() && (f.isOpen && 2 <= f.firstCluster < EofMarker(v.geo.kind) ==> Open(v, f, chain))
    modifies v`cachePos, v.cache, v.disk, f, f.buffer
    ensures v.Valid()
    ensures !old(f.isOpen) ==> r == E_STATE && unchanged(f) && v.disk[..] == old(v.disk[..])
    ensures old(f.isOpen) ==> r == SUCCESS && f.isOpen && f.extent == f.offset == 0 && InStep(f)
    ensures old(f.isOpen) && 2 <= old(f.firstCluster) < EofMarker(v.geo.kind) ==>
              && f.truncated && 0 < |chain|
              && Open(v, f, [chain[0]]) && Coherent(v, f, [chain[0]])
              && old(IsChain(v.geo.kind, v.Entries(), chain))
              && v.Entries() == TruncateFat(v.geo.kind, old(v.Entries()), chain)
              && OnlyTouches(v.geo, old(v.disk[..]), v.disk[..], [])
              && (old(Mirrored(v.geo, v.disk[..])) ==> Mirrored(v.geo, v.disk[..]))
  {
    if !f.isOpen {
      return E_STATE;
    }
    if f.firstCluster < 2 || f.firstCluster >= EofMarker(v.geo.kind) {
      f.firstCluster, f.currentCluster, f.sectorInCluster := 0, 0, 0;
      f.position, f.offset, f.size, f.extent := 0, 0, 0, 0;
      return SUCCESS;
    }
    hide Fat, CacheAgrees, Layout, LayoutOn, Content, Mirrored, BufferHolds, OnlyTouches, TruncateFat, CursorAt;
    ghost var fat := v.Entries();
    TruncateChain(v, f.firstCluster, chain);
    TruncateFreeSet(v.geo.kind, fat, chain);
    hide IsChain;
    Rewind(v, f);
    r := SUCCESS;
  }

  /** Resets the cursor of a file that has been cut down to its first cluster, and drops the cached window. */
  method Rewind(v: Volume, f: OpenFile)
    requires v.Valid() && CacheSafe(v.geo) && f.isOpen && f.buffer != v.cache && f.buffer.Length == SECTOR_SIZE
    requires IsChain(v.geo.kind, v.Entries(), [f.firstCluster])
    modifies v`cachePos, f`position, f`offset, f`size, f`extent, f`truncated, f`sectorInCluster, f`currentCluster,
             f.buffer
    ensures f.extent == f.offset == 0 && InStep(f) && f.truncated
    ensures v.Valid() && Open(v, f, [f.firstCluster]) && Coherent(v, f, [f.firstCluster])
  {
    hide Fat, CacheAgrees, Layout, LayoutOn, Content, BufferHolds, IsChain;
    ghost var chain := [f.firstCluster];
    ChainLayout(v.geo, v.disk[..], chain);
    f.position, f.offset, f.size, f.extent, f.truncated := 0, 0, 0, 0, true;
    f.sectorInCluster, f.currentCluster := 0, f.firstCluster;
    SectorExists(v.geo, chain, 0);
    LoadSector(v, f, chain, 0);
    v.DropWindow();
  }

  /** The effect of writing on the volume: the chain of the file has grown, and nothing outside the tables and the
      sectors of the file has changed. */
  ghost predicate Progress(g: Geometry, d0: seq<Sector>, c0: seq<nat>, d: seq<Sector>, c: seq<nat>) {
    && OnDisk(g, d0) && OnDisk(g, d) && ClustersIn(g, c)
    && Advanced(g, Fat(g, d0), c0, Fat(g, d), c)
    && OnlyTouches(g, d0, d, Layout(g, c))
    && (Mirrored(g, d0) ==> Mirrored(g, d))
  }

  lemma ProgressStep(g: Geometry, d0: seq<Sector>, c0: seq<nat>, d: seq<Sector>, c: seq<nat>, layout: seq<nat>)
    requires OnDisk(g, d0) && OnDisk(g, d) && ClustersIn(g, c) && Advanced(g, Fat(g, d0), c0, Fat(g, d), c)
    requires OnlyTouches(g, d0, d, layout) && (layout == [] || layout == Layout(g, c)) &&
      (Mirrored(g, d0) ==> Mirrored(g, d))
    ensures Progress(g, d0, c0, d, c)
  {
    hide Fat, Layout, Advanced, Mirrored;
  }

  lemma ProgressTrans(g: Geometry, d0: seq<Sector>, c0: seq<nat>, d1: seq<Sector>, c1: seq<nat>, d2: seq<Sector>,
                      c2: seq<nat>)
    requires Progress(g, d0, c0, d1, c1) && Progress(g, d1, c1, d2, c2)
    ensures Progress(g, d0, c0, d2, c2)
  {
    AdvancedTrans(g, Fat(g, d0), c0, Fat(g, d1), c1, Fat(g, d2), c2);
    LayoutPrefix(g, c1, c2);
    hide Fat, Layout, Mirrored, IsChain, SearchFree;
    assert forall i :: i in Layout(g, c1) ==> i in Layout(g, c2);
  }

  /** Writes data at the position, sector by sector, until it is all written or the search finds no free cluster. */
  method WriteAll(v: Volume, f: OpenFile, data: seq<byte>, ghost chain: seq<nat>)
    returns (n: nat, ghost chain': seq<nat>)
    requires Open(v, f, chain) && Coherent(v, f, chain)
    modifies v`cachePos, v.cache, v.disk, f`position, f`offset, f`size, f`extent, f`currentCluster, f`sectorInCluster,
             f.buffer
    ensures n <= |data| && Open(v, f, chain') && f.offset == old(f.offset) + n <= f.extent && (0 < |data| ==> 0 < n)
    ensures Bytes(v, f, chain') == Splice(old(Bytes(v, f, chain)), old(f.offset), data[..n])
    ensures Tight(v.geo, chain, chain', f.offset)
    ensures n == |data| && 0 < n ==> StandsAt(v, f, chain', (f.offset - 1) / SECTOR_SIZE)
    ensures Progress(v.geo, old(v.disk[..]), chain, v.disk[..], chain')
    ensures Coherent(v, f, chain') <==> |data| == 0 || f.offset % SECTOR_SIZE != 0
    ensures n < |data| ==>
      f.offset == |Layout(v.geo, chain')| * SECTOR_SIZE && LowestFree(v.Entries(), 2, v.geo.MaxClusters()) == 0
  {
    hide Open, Coherent, Bytes, Splice, Layout, Progress, LowestFree, StandsAt;
    n, chain' := 0, chain;
    ghost var p, was, d0 := f.offset, Bytes(v, f, chain), v.disk[..];
    WriteStarts(v, f, chain);
    while n < |data|
      invariant n <= |data| && (n == |data| ==> n == 0) && Open(v, f, chain') && f.offset == p + n <= f.extent
      invariant Bytes(v, f, chain') == Splice(was, p, data[..n])
      invariant Progress(v.geo, d0, chain, v.disk[..], chain')
      invariant Coherent(v, f, chain') && Tight(v.geo, chain, chain', f.offset + 1) && (n == 0 ==> chain' == chain)
    {
      var ok;
      TightStep(v.geo, chain, chain', f.offset);
      n, ok, chain' := WriteRound(v, f, data, n, p, was, chain, chain', d0);
      if n == |data| || !ok {
        AtEnd(v, f, chain');
        return;
      }
    }
  }

  lemma TightStep(g: Geometry, base: seq<nat>, chain: seq<nat>, o: nat)
    requires Tight(g, base, chain, o + 1)
    ensures forall chain', o' :: o < o' && OneMore(g, chain, chain', o') ==>
              Tight(g, base, chain', o' + 1) && (|chain'| == |chain| ==> Tight(g, base, chain', o'))
  {
    hide Capacity;
  }

  lemma WriteStarts(v: Volume, f: OpenFile, chain: seq<nat>)
    requires Open(v, f, chain) && Coherent(v, f, chain)
    ensures f.offset <= f.extent && Progress(v.geo, v.disk[..], chain, v.disk[..], chain)
    ensures Splice(Bytes(v, f, chain), f.offset, []) == Bytes(v, f, chain)
  {
    hide Fat, CacheAgrees, Layout, IsChain, LayoutOn, Content, BufferHolds, CursorAt, Splice, Progress;
    NoProgress(v.geo, v.disk[..], chain);
    SpliceNothing(Bytes(v, f, chain), f.offset);
  }

  /** Behind the last sector of the chain there is nothing for the cursor to stand on. */
  lemma AtEnd(v: Volume, f: OpenFile, chain: seq<nat>)
    requires Open(v, f, chain)
    ensures f.offset == |Layout(v.geo, chain)| * SECTOR_SIZE ==> f.offset % SECTOR_SIZE == 0
    ensures Coherent(v, f, chain) ==> f.offset < |Layout(v.geo, chain)| * SECTOR_SIZE
  {
    hide Fat, CacheAgrees, Layout, IsChain, LayoutOn, Content, BufferHolds, CursorAt;
    var n := |Layout(v.geo, chain)|;
    DivModUnique(n * SECTOR_SIZE, SECTOR_SIZE, n, 0);
  }

  /** Fills the rest of the current sector, and moves on to the next one if there is more to write. */
  method WriteRound(v: Volume, f: OpenFile, data: seq<byte>, m: nat, ghost p: nat, ghost was: seq<byte>,
                    ghost chain: seq<nat>, ghost before: seq<nat>, ghost d0: seq<Sector>)
    returns (n: nat, ok: bool, ghost chain': seq<nat>)
    requires m < |data| && p <= |was| && Open(v, f, before) && Coherent(v, f, before) && f.offset == p + m
    requires Bytes(v, f, before) == Splice(was, p, data[..m]) && Progress(v.geo, d0, chain, v.disk[..], before)
    modifies v`cachePos, v.cache, v.disk, f`position, f`offset, f`size, f`extent, f`currentCluster, f`sectorInCluster,
             f.buffer
    ensures m < n <= |data| && Open(v, f, chain') && f.offset == p + n <= f.extent
    ensures Bytes(v, f, chain') == Splice(was, p, data[..n]) && Progress(v.geo, d0, chain, v.disk[..], chain')
    ensures n == |data| ==> (Coherent(v, f, chain') <==> f.offset % SECTOR_SIZE != 0)
    ensures n == |data| ==> StandsAt(v, f, chain', (f.offset - 1) / SECTOR_SIZE)
    ensures n < |data| && ok ==> Coherent(v, f, chain')
    ensures OneMore(v.geo, before, chain', f.offset) && (n == |data| || !ok ==> |chain'| == |before|)
    ensures n < |data| && !ok ==> f.offset == |Layout(v.geo, chain')| * SECTOR_SIZE
    ensures n < |data| && !ok ==> LowestFree(v.Entries(), 2, v.geo.MaxClusters()) == 0
  {
    hide Open, Coherent, Bytes, CursorAt, Splice, Layout, Progress, LowestFree, BufferHolds, Low32, Add32, StandsAt,
         Linked, Capacity, Advanced, OnlyTouches, Mirrored;
    SamePlace(v, f, before);
    var left := SECTOR_SIZE - f.position % SECTOR_SIZE;
    var take := if |data| - m < left then |data| - m else left;
    ghost var q := f.offset;
    SectorStep(q, take);
    LastByte(q, take);
    n := WriteStep(v, f, data, m, take, p, was, chain, before, d0);
    ok, chain' := true, before;
    if n < |data| {
      ghost var d1 := v.disk[..];
      InVolume(v, f, before);
      ok, chain' := NextForWrite(v, f, before, q / SECTOR_SIZE);
      InVolume(v, f, chain');
      ProgressStep(v.geo, d1, before, v.disk[..], chain', []);
      ProgressTrans(v.geo, d0, chain, d1, before, v.disk[..], chain');
    }
  }

  /** The stored position has the same place in its sector as the true one. */
  lemma SamePlace(v: Volume, f: OpenFile, chain: seq<nat>)
    requires Open(v, f, chain)
    ensures f.position % SECTOR_SIZE == f.offset % SECTOR_SIZE
  {
    hide Fat, CacheAgrees, Layout, IsChain, LayoutOn, InTable;
    Moved(f.offset, 0);
  }

  /** The cursor stands in one place. */
  lemma CursorUnique(g: Geometry, f: OpenFile, chain: seq<nat>, s: nat, s': nat)
    requires g.sectorsPerCluster > 0 && NoDuplicates(chain) && CursorAt(g, f, chain, s) && CursorAt(g, f, chain, s')
    ensures s == s'
  {
    var spc := g.sectorsPerCluster;
    var a, b := s / spc, s' / spc;
    assert a == b;
    DivMod(s, spc);
    DivMod(s', spc);
  }

  /** A write that ends on a sector boundary leaves the cursor on the sector before the position. */
  lemma CursorBehind(v: Volume, f: OpenFile, chain: seq<nat>, q: nat, take: nat)
    requires Open(v, f, chain) && f.offset == q + take && q % SECTOR_SIZE + take <= SECTOR_SIZE
    requires CursorAt(v.geo, f, chain, q / SECTOR_SIZE)
    ensures q % SECTOR_SIZE + take == SECTOR_SIZE ==> !Coherent(v, f, chain)
  {
    hide Fat, CacheAgrees, Layout, LayoutOn, Content, BufferHolds;
    SectorStep(q, take);
    ChainAcyclic(v.geo.kind, v.Entries(), chain);
    hide IsChain;
    if q % SECTOR_SIZE + take == SECTOR_SIZE && CursorAt(v.geo, f, chain, f.offset / SECTOR_SIZE) {
      CursorUnique(v.geo, f, chain, q / SECTOR_SIZE, f.offset / SECTOR_SIZE);
    }
  }

  lemma NoProgress(g: Geometry, d: seq<Sector>, chain: seq<nat>)
    requires OnDisk(g, d) && ClustersIn(g, chain) && IsChain(g.kind, Fat(g, d), chain)
    ensures Progress(g, d, chain, d, chain)
  {
    AdvancedRefl(g, Fat(g, d), chain);
  }

  lemma SpliceNothing(c: seq<byte>, p: nat)
    requires p <= |c|
    ensures Splice(c, p, []) == c
  {
  }

  /** One chunk of a longer write. */
  method WriteStep(v: Volume, f: OpenFile, data: seq<byte>, m: nat, take: nat, ghost p: nat, ghost was: seq<byte>,
                   ghost chain: seq<nat>, ghost chain': seq<nat>, ghost d0: seq<Sector>) returns (n: nat)
    requires m + take <= |data| && p <= |was| && Open(v, f, chain') && Coherent(v, f, chain') && f.offset == p + m
    requires f.offset % SECTOR_SIZE + take <= SECTOR_SIZE
    requires Bytes(v, f, chain') == Splice(was, p, data[..m])
    requires Progress(v.geo, d0, chain, v.disk[..], chain')
    modifies v.disk, f`position, f`offset, f`size, f`extent, f.buffer
    ensures n == m + take && Open(v, f, chain') && f.offset == p + n <= f.extent
    ensures Bytes(v, f, chain') == Splice(was, p, data[..n])
    ensures Progress(v.geo, d0, chain, v.disk[..], chain')
    ensures CursorAt(v.geo, f, chain', old(f.offset) / SECTOR_SIZE)
    ensures StandsAt(v, f, chain', old(f.offset) / SECTOR_SIZE)
    ensures 0 < take ==> (Coherent(v, f, chain') <==> f.offset % SECTOR_SIZE != 0)
  {
    hide Fat, CacheAgrees, Layout, IsChain, LayoutOn, Content, Mirrored, BufferHolds, Splice, Advanced, OnlyTouches;
    ghost var q := f.offset;
    ghost var d1 := v.disk[..];
    WriteChunk(v, f, data[m..m + take], chain');
    n := m + take;
    SpliceTwice(was, p, data[..m], data[m..m + take]);
    assert data[..m] + data[m..m + take] == data[..m + take];
    AdvancedRefl(v.geo, Fat(v.geo, v.disk[..]), chain');
    ProgressStep(v.geo, d1, chain', v.disk[..], chain', Layout(v.geo, chain'));
    ProgressTrans(v.geo, d0, chain, d1, chain', v.disk[..], chain');
    SectorStep(q, take);
    CursorBehind(v, f, chain', q, take);
  }

  /** The first write to a file that has content, at its start, empties it first. */
  predicate AutoTruncates(truncated: bool, size: nat, position: nat) {
    !truncated && size > 0 && position == 0
  }

  /** The bytes that n clusters hold. */
  function Capacity(g: Geometry, n: nat): nat {
    MulMono(0, n, g.sectorsPerCluster);
    n * g.sectorsPerCluster * SECTOR_SIZE
  }

  /** The bytes that the chain can hold together with the free clusters that the search finds. */
  ghost function Room(g: Geometry, d: seq<Sector>, chain: seq<nat>): nat
    requires OnDisk(g, d)
  {
    Capacity(g, |chain| + |SearchFree(Fat(g, d), g.MaxClusters())|)
  }

  /** These are all free clusters if and only if none of the last two is free. */
  lemma RoomExact(g: Geometry, d: seq<Sector>, chain: seq<nat>)
    requires OnDisk(g, d)
    ensures var free := FreeSet(Fat(g, d));
            && Room(g, d, chain) + Capacity(g, |free * LastTwo(g)|) == Capacity(g, |chain| + |free|)
            && (Room(g, d, chain) == Capacity(g, |chain| + |free|) <==> free !! LastTwo(g))
  {
    hide Fat, InTable;
    var fat := Fat(g, d);
    var found, missed := SearchFree(fat, g.MaxClusters()), FreeSet(fat) * LastTwo(g);
    assert FreeSet(fat) == found + missed && found !! missed;
    CapacityAdd(g, |chain| + |found|, |missed|);
    assert missed == {} <==> FreeSet(fat) !! LastTwo(g);
  }

  lemma CapacityAdd(g: Geometry, m: nat, n: nat)
    requires 0 < g.sectorsPerCluster
    ensures Capacity(g, m + n) == Capacity(g, m) + Capacity(g, n) && (Capacity(g, n) == 0 <==> n == 0)
  {
    var spc := g.sectorsPerCluster;
    assert (m + n) * spc == m * spc + n * spc;
    if 0 < n {
      MulMono(1, n, spc);
    }
  }

  /** Writes data at the position.  The ghost results are the volume and the chain after the implicit truncation,
      and the final chain. */
  method Write(v: Volume, f: OpenFile, data: seq<byte>, ghost chain: seq<nat>)
    returns (n: nat, ghost d1: seq<Sector>, ghost base: seq<nat>, ghost chain': seq<nat>)
    requires Open(v, f, chain) && Coherent(v, f, chain) && InStep(f)
    modifies v`cachePos, v.cache, v.disk, f, f.buffer
    ensures base == if old(AutoTruncates(f.truncated, f.extent, f.offset)) then [chain[0]] else chain
    ensures OnDisk(v.geo, d1) && old(IsChain(v.geo.kind, v.Entries(), chain))
    ensures OnlyTouches(v.geo, old(v.disk[..]), d1, [])
    ensures Fat(v.geo, d1) == if old(AutoTruncates(f.truncated, f.extent, f.offset))
                              then TruncateFat(v.geo.kind, old(v.Entries()), chain)
                              else old(v.Entries())
    ensures Progress(v.geo, d1, base, v.disk[..], chain')
    ensures old(Mirrored(v.geo, v.disk[..])) ==> Mirrored(v.geo, v.disk[..])
    ensures n <= |data| && Open(v, f, chain') && f.offset == old(f.offset) + n <= f.extent
    ensures Bytes(v, f, chain') ==
            Splice(if old(AutoTruncates(f.truncated, f.extent, f.offset)) then [] else old(Bytes(v, f, chain)),
                   old(f.offset), data[..n])
    ensures old(f.truncated || f.offset > 0 || f.extent == 0) ==>
      chain <= chain' && Bytes(v, f, chain') == Splice(old(Bytes(v, f, chain)), old(f.offset), data[..n])
    ensures !old(f.truncated || f.offset > 0 || f.extent == 0) ==>
      chain' != [] && chain'[0] == chain[0] && Bytes(v, f, chain') == data[..n]
    ensures old(f.offset) <= Room(v.geo, d1, base) && n == Min(|data|, Room(v.geo, d1, base) - old(f.offset))
    ensures Tight(v.geo, base, chain', f.offset) && (0 < |data| ==> 0 < n)
    ensures n < |data| ==> FreeSet(v.Entries()) <= LastTwo(v.geo)
    ensures Coherent(v, f, chain') <==> |data| == 0 || f.offset % SECTOR_SIZE != 0
    ensures n == |data| && 0 < n ==> StandsAt(v, f, chain', (f.offset - 1) / SECTOR_SIZE)
    ensures f.truncated <==> old(f.truncated) || old(f.offset) == 0
    ensures InStep(f) <==> old(f.offset) + n < WRAP32
  {
    hide Fat, CacheAgrees, Layout, LayoutOn, Content, Mirrored, BufferHolds, OnlyTouches, TruncateFat, CursorAt,
         Splice, Progress, Room, Low32, StandsAt;
    base := chain;
    NothingTouched(v.geo, v.disk[..]);
    if !f.truncated && f.size > 0 && f.position == 0 {
      ChainIn(v.geo, v.geo.kind, v.Entries(), chain);
      var r := Truncate(v, f, chain);
      base := [chain[0]];
    }
    hide IsChain;
    if f.size == 0 && f.position == 0 && !f.truncated {
      ClearBuffer(v, f, base);
    }
    d1 := v.disk[..];
    ghost var was := Bytes(v, f, base);
    n, chain' := WriteAll(v, f, data, base);
    WriteExtent(v.geo, d1, base, v.disk[..], chain', old(f.offset), n, |data|, f.extent);
    SpliceLength(was, old(f.offset), data[..n]);
    LowIsSame(f.offset);
    ProgressMirrors(v.geo, d1, base, v.disk[..], chain');
    SearchMissesTwo(v.geo, v.Entries());
    ProgressPrefix(v.geo, d1, base, v.disk[..], chain');
    SpliceIntoEmpty(data[..n]);
  }

  lemma ProgressPrefix(g: Geometry, d0: seq<Sector>, c0: seq<nat>, d: seq<Sector>, c: seq<nat>)
    requires Progress(g, d0, c0, d, c)
    ensures c0 <= c
  {
  }

  lemma SpliceLength(was: seq<byte>, p: nat, data: seq<byte>)
    requires p <= |was|
    ensures |Splice(was, p, data)| == Max(|was|, p + |data|)
  {
  }

  lemma ProgressMirrors(g: Geometry, d0: seq<Sector>, c0: seq<nat>, d: seq<Sector>, c: seq<nat>)
    requires Progress(g, d0, c0, d, c)
    ensures OnDisk(g, d0) && OnDisk(g, d) && (Mirrored(g, d0) ==> Mirrored(g, d))
  {
  }

  /** A new file starts from an empty buffer. */
  method ClearBuffer(v: Volume, f: OpenFile, ghost chain: seq<nat>)
    requires Open(v, f, chain) && Coherent(v, f, chain) && f.extent == 0
    modifies f`truncated, f.buffer
    ensures Open(v, f, chain) && Coherent(v, f, chain) && f.truncated
    ensures forall i :: 0 <= i < SECTOR_SIZE ==> f.buffer[i] == 0
  {
    hide Fat, CacheAgrees, Layout, LayoutOn, Content, IsChain;
    forall i | 0 <= i < SECTOR_SIZE {
      f.buffer[i] := 0;
    }
    assert v.cache[..] == old(v.cache[..]) && v.disk[..] == old(v.disk[..]);
    f.truncated := true;
  }

  /** All data is written exactly when there is room for it. */
  lemma WriteExtent(g: Geometry, d1: seq<Sector>, base: seq<nat>, d: seq<Sector>, chain: seq<nat>, p: nat, n: nat,
                    len: nat, size: nat)
    requires Progress(g, d1, base, d, chain) && n <= len && p + n <= size <= |Layout(g, chain)| * SECTOR_SIZE
    requires n < len ==> p + n == |Layout(g, chain)| * SECTOR_SIZE && LowestFree(Fat(g, d), 2, g.MaxClusters()) == 0
    ensures p + n <= Room(g, d1, base) && n == Min(len, Room(g, d1, base) - p)
  {
    hide Fat, OnlyTouches, Mirrored, LowestFree, SearchFree, Advanced, Layout, InTable;
    LayoutLength(g, chain);
    var free, free' := |SearchFree(Fat(g, d1), g.MaxClusters())|, |SearchFree(Fat(g, d), g.MaxClusters())|;
    AdvancedCount(g, Fat(g, d1), base, Fat(g, d), chain);
    MulMono(|chain|, |base| + free, g.sectorsPerCluster);
    LowestIsLeast(Fat(g, d), g.MaxClusters());
  }

  /** Writing to one file keeps every other file: its chain and all its bytes. */
  lemma WriteKeepsOther(g: Geometry, d0: seq<Sector>, d1: seq<Sector>, d: seq<Sector>, chain: seq<nat>, base: seq<nat>,
                        chain': seq<nat>, other: seq<nat>, size: nat)
    requires OnDisk(g, d0) && OnDisk(g, d1) && OnlyTouches(g, d0, d1, []) && Progress(g, d1, base, d, chain')
    requires IsChain(g.kind, Fat(g, d0), chain) && IsChain(g.kind, Fat(g, d0), other) && Disjoint(chain, other)
    requires (base == chain && Fat(g, d1) == Fat(g, d0)) ||
      (base == [chain[0]] && Fat(g, d1) == TruncateFat(g.kind, Fat(g, d0), chain))
    ensures ClustersIn(g, other) && IsChain(g.kind, Fat(g, d), other) && Disjoint(chain', other)
    ensures LayoutOn(d0, Layout(g, other)) && LayoutOn(d, Layout(g, other))
    ensures size <= |Layout(g, other)| * SECTOR_SIZE ==>
      Content(d, Layout(g, other), size) == Content(d0, Layout(g, other), size)
  {
    hide Fat, Layout, Mirrored, SearchFree, TruncateFat, Content, LayoutOn;
    ChainLayout(g, d0, other);
    ChainAcyclic(g.kind, Fat(g, d0), other);
    WriteKeepsChain(g, Fat(g, d0), chain, Fat(g, d1), base, Fat(g, d), chain', other);
    ChainLayout(g, d, other);
    hide IsChain;
    TouchesBoth(g, d0, d1, d, Layout(g, chain'));
    if size <= |Layout(g, other)| * SECTOR_SIZE {
      OtherContentKept(g, d0, d, chain', other, size);
    }
  }

  lemma WriteKeepsChain(g: Geometry, fat: seq<nat>, chain: seq<nat>, fat1: seq<nat>, base: seq<nat>,
                        fat': seq<nat>, chain': seq<nat>, other: seq<nat>)
    requires g.Wf() && IsChain(g.kind, fat, chain) && IsChain(g.kind, fat, other) && Disjoint(chain, other)
    requires (base == chain && fat1 == fat) || (base == [chain[0]] && fat1 == TruncateFat(g.kind, fat, chain))
    requires Advanced(g, fat1, base, fat', chain')
    ensures IsChain(g.kind, fat', other) && Disjoint(chain', other)
  {
    hide TruncateFat, SearchFree;
    if fat1 != fat {
      TruncateKeepsOther(g.kind, fat, chain, other);
    }
    assert Disjoint(base, other) by { assert chain[0] in chain; }
    GrownKeepsOther(g.kind, fat1, base, fat', chain', other);
  }

  lemma TouchesBoth(g: Geometry, d0: seq<Sector>, d1: seq<Sector>, d: seq<Sector>, layout: seq<nat>)
    requires OnlyTouches(g, d0, d1, []) && OnlyTouches(g, d1, d, layout)
    ensures OnlyTouches(g, d0, d, layout)
  {
  }

  /** Truncation never shrinks the room that a single cluster and the free clusters have. */
  lemma TruncateKeepsRoom(g: Geometry, d: seq<Sector>, d1: seq<Sector>, chain: seq<nat>, base: seq<nat>)
    requires OnDisk(g, d) && OnDisk(g, d1) && IsChain(g.kind, Fat(g, d), chain)
    requires (base == chain && Fat(g, d1) == Fat(g, d)) ||
      (base == [chain[0]] && Fat(g, d1) == TruncateFat(g.kind, Fat(g, d), chain))
    ensures Room(g, d, [chain[0]]) <= Room(g, d1, base)
  {
    hide Fat, SearchFree, TruncateFat, IsChain;
    var a, b := SearchFree(Fat(g, d), g.MaxClusters()), SearchFree(Fat(g, d1), g.MaxClusters());
    if Fat(g, d1) != Fat(g, d) {
      TruncateKeepsSearchFree(g.kind, Fat(g, d), chain, g.MaxClusters());
    }
    assert b == a + (b - a);
    ChainIn(g, g.kind, Fat(g, d), chain);
    MulMono(1 + |a|, |base| + |b|, g.sectorsPerCluster);
  }

  lemma TruncateKeepsSearchFree(k: Kind, fat: seq<nat>, chain: seq<nat>, limit: nat)
    requires IsChain(k, fat, chain)
    ensures SearchFree(fat, limit) <= SearchFree(TruncateFat(k, fat, chain), limit)
  {
    hide Clear, Reach;
    ChainNotFree(k, fat, chain, 0);
  }

  lemma SpliceIntoEmpty(data: seq<byte>)
    ensures Splice([], 0, data) == data
  {
  }

  /** The other file still has its chain, disjoint from this one, and all its bytes, whatever its size. */
  ghost predicate OtherKept(g: Geometry, d0: seq<Sector>, d: seq<Sector>, chain: seq<nat>, other: seq<nat>) {
    && OnDisk(g, d) && IsChain(g.kind, Fat(g, d), other) && Disjoint(chain, other) && ClustersIn(g, other)
    && LayoutOn(d0, Layout(g, other)) && LayoutOn(d, Layout(g, other))
    && forall size :: 0 <= size <= |Layout(g, other)| * SECTOR_SIZE ==>
         Content(d, Layout(g, other), size) == Content(d0, Layout(g, other), size)
  }

  lemma WriteKeepsOtherFile(g: Geometry, d0: seq<Sector>, d1: seq<Sector>, d: seq<Sector>, chain: seq<nat>,
                            base: seq<nat>, chain': seq<nat>, other: seq<nat>)
    requires OnDisk(g, d0) && OnDisk(g, d1) && OnlyTouches(g, d0, d1, []) && Progress(g, d1, base, d, chain')
    requires IsChain(g.kind, Fat(g, d0), chain) && IsChain(g.kind, Fat(g, d0), other) && Disjoint(chain, other)
    requires (base == chain && Fat(g, d1) == Fat(g, d0)) ||
      (base == [chain[0]] && Fat(g, d1) == TruncateFat(g.kind, Fat(g, d0), chain))
    ensures OtherKept(g, d0, d, chain', other)
  {
    assert OnDisk(g, d);
    hide Fat, Layout, Content, LayoutOn, IsChain, OnlyTouches, Progress, TruncateFat, Disjoint, ClustersIn, OnDisk;
    WriteKeepsOther(g, d0, d1, d, chain, base, chain', other, 0);
    forall size | 0 <= size <= |Layout(g, other)| * SECTOR_SIZE
      ensures Content(d, Layout(g, other), size) == Content(d0, Layout(g, other), size)
    {
      WriteKeepsOther(g, d0, d1, d, chain, base, chain', other, size);
    }
  }

  /** A write at the start of a new file, or of a file that has not been written to since it was opened. */
  method WriteFirst(v: Volume, f: OpenFile, data: seq<byte>, ghost chain: seq<nat>, ghost other: seq<nat>)
    returns (ghost chain': seq<nat>)
    requires Open(v, f, chain) && Coherent(v, f, chain) && InStep(f) && f.offset == 0 && (f.extent == 0 || !f.truncated)
    requires 0 < |data| <= Room(v.geo, v.disk[..], [chain[0]]) && |data| < WRAP32
    requires IsChain(v.geo.kind, v.Entries(), other) && Disjoint(chain, other)
    modifies v`cachePos, v.cache, v.disk, f, f.buffer
    ensures Open(v, f, chain') && Bytes(v, f, chain') == data && 0 < |Layout(v.geo, chain')| && InStep(f)
    ensures OtherKept(v.geo, old(v.disk[..]), v.disk[..], chain', other)
  {
    hide Fat, CacheAgrees, Layout, LayoutOn, Content, Room, Progress, OnlyTouches, TruncateFat, IsChain, Splice,
         BufferHolds, OtherKept, Low32, Disjoint, ClustersIn;
    ghost var was, d := Bytes(v, f, chain), v.disk[..];
    assert f.extent == 0 ==> was == [];
    var n: nat;
    ghost var d1, base;
    n, d1, base, chain' := Write(v, f, data, chain);
    TruncateKeepsRoom(v.geo, d, d1, chain, base);
    assert data[..n] == data;
    SpliceIntoEmpty(data);
    WriteKeepsOtherFile(v.geo, d, d1, v.disk[..], chain, base, chain', other);
  }

  /** Writing at the start of a new file, or of a file that has not been written to since it was opened, seeking
      back to the start and reading as many bytes returns what was written: all of it if it spans at most
      READ_LIMIT + 1 sectors, and else that much of it. */
  method WriteSeekRead(v: Volume, f: OpenFile, data: seq<byte>, ghost chain: seq<nat>, ghost other: seq<nat>)
    returns (r: seq<byte>, ghost chain': seq<nat>)
    requires Open(v, f, chain) && Coherent(v, f, chain) && InStep(f) && f.offset == 0 && (f.extent == 0 || !f.truncated)
    requires 0 < |data| <= Room(v.geo, v.disk[..], [chain[0]]) && |data| < WRAP32
    requires IsChain(v.geo.kind, v.Entries(), other) && Disjoint(chain, other)
    modifies v`cachePos, v.cache, v.disk, f, f.buffer
    ensures Open(v, f, chain') && Bytes(v, f, chain') == data
    ensures r == data[..Min(|data|, 10001 * 512)]
    ensures OtherKept(v.geo, old(v.disk[..]), v.disk[..], chain', other)
  {
    hide Bytes, Coherent, Room, Open, Layout, OtherKept, IsChain, Linked, Low32, Disjoint;
    chain' := WriteFirst(v, f, data, chain, other);
    var e := Seek(v, f, 0, chain');
    r := Read(v, f, |data|, chain');
  }

  /** A change of the tables and of one file that keeps the chain of another file keeps that file. */
  lemma OtherKeptBy(g: Geometry, d0: seq<Sector>, d: seq<Sector>, chain: seq<nat>, other: seq<nat>)
    requires OnDisk(g, d0) && OnDisk(g, d) && ClustersIn(g, chain) && OnlyTouches(g, d0, d, Layout(g, chain))
    requires IsChain(g.kind, Fat(g, d0), other) && IsChain(g.kind, Fat(g, d), other) && Disjoint(chain, other)
    ensures OtherKept(g, d0, d, chain, other)
  {
    hide Fat, Layout, Content, LayoutOn, IsChain, OnlyTouches, Disjoint, InTable;
    ChainLayout(g, d0, other);
    ChainLayout(g, d, other);
    ChainAcyclic(g.kind, Fat(g, d), other);
    forall size | 0 <= size <= |Layout(g, other)| * SECTOR_SIZE
      ensures Content(d, Layout(g, other), size) == Content(d0, Layout(g, other), size)
    {
      OtherContentKept(g, d0, d, chain, other, size);
    }
  }

  lemma KeptChain(g: Geometry, d0: seq<Sector>, d: seq<Sector>, chain: seq<nat>, other: seq<nat>)
    requires OtherKept(g, d0, d, chain, other)
    ensures OnDisk(g, d) && IsChain(g.kind, Fat(g, d), other) && Disjoint(chain, other)
  {
  }

  lemma TouchesMore(g: Geometry, d0: seq<Sector>, d: seq<Sector>, a: seq<nat>, b: seq<nat>)
    requires OnlyTouches(g, d0, d, a) && forall i :: i in a ==> i in b
    ensures OnlyTouches(g, d0, d, b)
  {
  }

  lemma OtherKeptTrans(g: Geometry, d0: seq<Sector>, d1: seq<Sector>, d2: seq<Sector>, a: seq<nat>, b: seq<nat>,
                       other: seq<nat>)
    requires OtherKept(g, d0, d1, a, other) && OtherKept(g, d1, d2, b, other)
    ensures OtherKept(g, d0, d2, b, other)
  {
    hide Fat, Layout, Content, LayoutOn, IsChain, Disjoint, ClustersIn, OnDisk;
  }

  /** Giving a new file a free cluster keeps every other file. */
  lemma CreateKeepsOther(g: Geometry, d0: seq<Sector>, d: seq<Sector>, c: nat, other: seq<nat>)
    requires OnDisk(g, d0) && OnDisk(g, d) && OnlyTouches(g, d0, d, []) && IsChain(g.kind, Fat(g, d0), other)
    requires 2 <= c < ClusterLimit(g) && Fat(g, d0)[c] == 0 && Fat(g, d) == CreateFat(g.kind, Fat(g, d0), c)
    ensures OtherKept(g, d0, d, [c], other)
  {
    hide Fat, Layout, OnlyTouches, InTable, OtherKept;
    forall i | 0 <= i < |other| ensures other[i] != c {
      ChainNotFree(g.kind, Fat(g, d0), other, i);
    }
    ChainFrame(g.kind, Fat(g, d0), Fat(g, d), other);
    TouchesMore(g, d0, d, [], Layout(g, [c]));
    OtherKeptBy(g, d0, d, [c], other);
  }

  /** With room for any data a file can be created, and then the room is the same as before. */
  lemma RoomToCreate(g: Geometry, d: seq<Sector>)
    requires OnDisk(g, d) && 0 < Room(g, d, [])
    ensures !(FreeSet(Fat(g, d)) <= LastTwo(g))
  {
    hide Fat, InTable;
    CapacityAdd(g, 0, |SearchFree(Fat(g, d), g.MaxClusters())|);
    var c :| c in SearchFree(Fat(g, d), g.MaxClusters());
    assert c in FreeSet(Fat(g, d));
  }

  lemma CreatedRoom(g: Geometry, d0: seq<Sector>, d: seq<Sector>, c: nat)
    requires OnDisk(g, d0) && OnDisk(g, d) && c == LowestFree(Fat(g, d0), 2, g.MaxClusters()) != 0
    requires Fat(g, d) == CreateFat(g.kind, Fat(g, d0), c)
    ensures Room(g, d, [c]) == Room(g, d0, [])
  {
    hide LowestFree, InTable, Fat, Capacity;
    var free := SearchFree(Fat(g, d0), g.MaxClusters());
    assert c in free;
    assert SearchFree(Fat(g, d), g.MaxClusters()) == free - {c};
  }

  /** The same for a file that has just been created: with room for the data the creation succeeds. */
  method CreateWriteSeekRead(v: Volume, data: seq<byte>, ghost other: seq<nat>)
    returns (f: OpenFile?, r: seq<byte>, ghost chain: seq<nat>)
    requires v.Valid() && CacheSafe(v.geo) && IsChain(v.geo.kind, v.Entries(), other)
    requires 0 < |data| <= Room(v.geo, v.disk[..], []) && |data| < WRAP32
    modifies v`cachePos, v.cache, v.disk
    ensures f != null && Open(v, f, chain) && Bytes(v, f, chain) == data
    ensures r == data[..Min(|data|, 10001 * 512)]
    ensures OtherKept(v.geo, old(v.disk[..]), v.disk[..], chain, other)
  {
    hide Open, Bytes, Coherent, OtherKept, Linked, Room, FreeSet, LowestFree, OnlyTouches, Mirrored, Fat, CacheAgrees,
         Geometry.Wf, LastTwo, IsChain, CacheSafe;
    ghost var d0 := v.disk[..];
    RoomToCreate(v.geo, d0);
    f := CreateFile(v);
    CreatedRoom(v.geo, d0, v.disk[..], f.firstCluster);
    chain := [f.firstCluster];
    ghost var d1 := v.disk[..];
    CreateKeepsOther(v.geo, d0, d1, f.firstCluster, other);
    KeptChain(v.geo, d0, d1, chain, other);
    ghost var first := chain;
    r, chain := WriteSeekRead(v, f, data, first, other);
    OtherKeptTrans(v.geo, d0, d1, v.disk[..], first, chain, other);
  }
}
