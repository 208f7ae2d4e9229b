/** Allocating and freeing clusters: the loops of the driver over the allocation table. */
module FatAlloc {
  import opened Common
  import opened FatCodec
  import opened FatVolume
  import opened FatChains
  import opened FatData

  function ZeroSector(): (s: Sector)
    ensures forall i :: 0 <= i < SECTOR_SIZE ==> s[i] == 0
  {
    seq(SECTOR_SIZE, _ => 0)
  }

  /** In table fat', the clusters chain[a..b] have been freed. */
  ghost predicate Freed(fat: seq<nat>, chain: seq<nat>, a: nat, b: nat, fat': seq<nat>) {
    && |fat'| == |fat| && a <= b <= |chain|
    && forall c :: 0 <= c < |fat| ==> fat'[c] == if c in chain[a..b] then 0 else fat[c]
  }

  lemma FreedStart(fat: seq<nat>, chain: seq<nat>, a: nat)
    requires a <= |chain|
    ensures Freed(fat, chain, a, a, fat)
  {
  }

  lemma FreedStep(fat: seq<nat>, chain: seq<nat>, a: nat, b: nat, fat': seq<nat>)
    requires Freed(fat, chain, a, b, fat') && b < |chain| && chain[b] < |fat|
    ensures Freed(fat, chain, a, b + 1, fat'[chain[b] := 0])
  {
    assert chain[a..b + 1] == chain[a..b] + [chain[b]];
  }

  lemma FreedIsClear(k: Kind, fat: seq<nat>, chain: seq<nat>, a: nat, b: nat, fat': seq<nat>)
    requires Freed(fat, chain, a, b, fat') && IsChain(k, fat, chain)
    ensures forall i :: 0 <= i < b - a ==> chain[a..b][i] < |fat|
    ensures fat' == Clear(fat, chain[a..b])
  {
    hide Clear;
    assert forall i :: 0 <= i < b - a ==> chain[a..b][i] == chain[a + i];
  }

  /** The mark that ends a chain, and any cluster number, fit in an entry. */
  lemma EntryFits(g: Geometry, c: nat)
    requires g.Wf() && c < ClusterLimit(g)
    ensures Mask(g.kind, c) == c && Mask(g.kind, EofValue(g.kind)) == EofValue(g.kind) && Mask(g.kind, 0) == 0
  {
    assert c < EofMarker(g.kind);
    MaskSmall(g.kind, c);
    hide Geometry.Wf, ClusterLimit;
  }

  lemma MaskSmall(k: Kind, v: nat)
    requires v < EofMarker(k)
    ensures Mask(k, v) == v
  {
  }

  /** The last two clusters of a volume, which the search does not look at. */
  ghost function LastTwo(g: Geometry): set<nat>
    requires g.Wf()
  {
    {g.MaxClusters(), g.MaxClusters() + 1}
  }

  /** The search finds nothing exactly if no other cluster is free. */
  lemma SearchMissesTwo(g: Geometry, fat: seq<nat>)
    requires g.Wf() && |fat| == ClusterLimit(g)
    ensures LowestFree(fat, 2, g.MaxClusters()) == 0 <==> FreeSet(fat) <= LastTwo(g)
  {
    hide LowestFree, InTable;
    SearchExact(fat, g.MaxClusters());
  }

  /** Searches for a free cluster, from cluster 2 up, but not among the last two. */
  method FindFree(v: Volume) returns (c: nat)
    requires v.Valid() && CacheSafe(v.geo)
    modifies v`cachePos, v.cache
    ensures v.Valid() && c == LowestFree(v.Entries(), 2, v.geo.MaxClusters())
    ensures c == 0 <==> FreeSet(old(v.Entries())) <= LastTwo(v.geo)
  {
    ghost var fat, limit := v.Entries(), v.geo.MaxClusters();
    SearchMissesTwo(v.geo, fat);
    var t := 2;
    while t < v.geo.MaxClusters()
      invariant 2 <= t && v.Valid() && v.Entries() == fat
      invariant LowestFree(fat, 2, limit) == LowestFree(fat, t, limit)
    {
      ClustersInTable(v.geo, t);
      var next := v.NextCluster(t);
      WidenFacts(v.geo.kind, fat[t]);
      if next == 0 {
        return t;
      }
      t := t + 1;
    }
    return 0;
  }

  /** Gives a new file its first cluster: the lowest free one is marked as a chain of its own. */
  method CreateChain(v: Volume) returns (c: nat)
    requires v.Valid() && CacheSafe(v.geo)
    modifies v`cachePos, v.cache, v.disk
    ensures v.Valid() && c == LowestFree(old(v.Entries()), 2, v.geo.MaxClusters())
    ensures c == 0 <==> FreeSet(old(v.Entries())) <= LastTwo(v.geo)
    ensures v.Entries() == if c == 0 then old(v.Entries()) else CreateFat(v.geo.kind, old(v.Entries()), c)
    ensures old(Mirrored(v.geo, v.disk[..])) ==> Mirrored(v.geo, v.disk[..])
    ensures OnlyTouches(v.geo, old(v.disk[..]), v.disk[..], [])
  {
    c := FindFree(v);
    if c != 0 {
      MarkEnd(v, c);
    }
  }

  /** What a lookup reports for the i-th cluster of a chain. */
  lemma NextInChain(k: Kind, fat: seq<nat>, chain: seq<nat>, i: nat)
    requires SoundTable(k, fat) && IsChain(k, fat, chain) && i < |chain|
    ensures var next := Widen(k, fat[chain[i]]);
            if i + 1 < |chain| then next == chain[i + 1] && 2 <= next < EofMarker(k) else next >= EofMarker(k)
  {
    WidenFacts(k, fat[chain[i]]);
    if i + 1 < |chain| {
      assert fat[chain[i]] == chain[i + 1];
    }
  }

  /** One round of a freeing loop: remembers the successor of cluster c = chain[b], then frees c. */
  method FreeCluster(v: Volume, c: nat, ghost fat: seq<nat>, ghost chain: seq<nat>, ghost a: nat, ghost b: nat)
    returns (next: nat)
    requires v.Valid() && CacheSafe(v.geo) && SoundTable(v.geo.kind, fat) && IsChain(v.geo.kind, fat, chain)
    requires Freed(fat, chain, a, b, v.Entries()) && b < |chain| && c == chain[b]
    modifies v`cachePos, v.cache, v.disk
    ensures v.Valid() && Freed(fat, chain, a, b + 1, v.Entries())
    ensures if b + 1 < |chain| then next == chain[b + 1] && 2 <= next < EofMarker(v.geo.kind)
            else next >= EofMarker(v.geo.kind)
    ensures old(Mirrored(v.geo, v.disk[..])) ==> Mirrored(v.geo, v.disk[..])
    ensures OnlyTouches(v.geo, old(v.disk[..]), v.disk[..], [])
  {
    hide Fat, Mirrored, CacheAgrees;
    ChainAcyclic(v.geo.kind, fat, chain);
    assert c !in chain[a..b] && c < |fat|;
    NextInChain(v.geo.kind, fat, chain, b);
    hide IsChain, NoDuplicates;
    ClustersInTable(v.geo, c);
    next := v.NextCluster(c);
    EntryFits(v.geo, c);
    FreedStep(fat, chain, a, b, v.Entries());
    hide Freed;
    v.WriteFatEntry(c, 0);
  }

  /** Frees the clusters behind the first one of a chain, up to the limit, and makes the first one its end. */
  method TruncateChain(v: Volume, first: nat, ghost chain: seq<nat>)
    requires v.Valid() && CacheSafe(v.geo)
    requires IsChain(v.geo.kind, v.Entries(), chain) && first == chain[0]
    modifies v`cachePos, v.cache, v.disk
    ensures v.Valid() && v.Entries() == TruncateFat(v.geo.kind, old(v.Entries()), chain)
    ensures old(Mirrored(v.geo, v.disk[..])) ==> Mirrored(v.geo, v.disk[..])
    ensures OnlyTouches(v.geo, old(v.disk[..]), v.disk[..], [])
  {
    hide Fat, Mirrored, CacheAgrees, TruncateFat, TruncateFreed, OnlyTouches, IsChain, Freed, Geometry.Wf, EofMarker,
         InTable, ClusterLimit, CacheSafe, SoundTable;
    ghost var k, fat, d0 := v.geo.kind, v.Entries(), v.disk[..];
    ChainIn(v.geo, k, fat, chain);
    NextInChain(k, fat, chain, 0);
    FreedStart(fat, chain, 1);
    NothingTouched(v.geo, d0);
    ClustersInTable(v.geo, first);
    var current := v.NextCluster(first);
    var count := 0;
    while 2 <= current < EofMarker(v.geo.kind) && count < TRUNCATE_LIMIT
      invariant v.Valid() && count < |chain| && count <= TRUNCATE_LIMIT
      invariant Freed(fat, chain, 1, 1 + count, v.Entries())
      invariant if 1 + count < |chain| then current == chain[1 + count] && 2 <= current < EofMarker(k)
                else current >= EofMarker(k)
      invariant old(Mirrored(v.geo, v.disk[..])) ==> Mirrored(v.geo, v.disk[..])
      invariant OnlyTouches(v.geo, d0, v.disk[..], [])
      decreases TRUNCATE_LIMIT - count
    {
      ghost var d1 := v.disk[..];
      current := FreeCluster(v, current, fat, chain, 1, 1 + count);
      TouchesTrans(v.geo, d0, d1, v.disk[..], []);
      count := count + 1;
    }
    TruncateDone(k, fat, chain, count, v.Entries());
    ghost var d2 := v.disk[..];
    MarkEnd(v, first);
    TouchesTrans(v.geo, d0, d2, v.disk[..], []);
  }

  /** Makes cluster c the end of a chain. */
  method MarkEnd(v: Volume, c: nat)
    requires v.Valid() && c < ClusterLimit(v.geo)
    modifies v`cachePos, v.cache, v.disk
    ensures v.Valid() && v.Entries() == old(v.Entries())[c := EofValue(v.geo.kind)]
    ensures old(Mirrored(v.geo, v.disk[..])) ==> Mirrored(v.geo, v.disk[..])
    ensures OnlyTouches(v.geo, old(v.disk[..]), v.disk[..], [])
  {
    hide Fat, Mirrored, CacheAgrees;
    EntryFits(v.geo, c);
    ghost var d := v.disk[..];
    v.WriteFatEntry(c, EofValue(v.geo.kind));
    TableWriteTouches(v.geo, d, v.disk[..]);
  }

  lemma NothingTouched(g: Geometry, d: seq<Sector>)
    ensures OnlyTouches(g, d, d, [])
  {
  }

  lemma TableWriteTouches(g: Geometry, d: seq<Sector>, d': seq<Sector>)
    requires |d'| == |d|
    requires forall i :: 0 <= i < |d| && !(g.reserved <= i < g.CopyLba(g.fatCount)) ==> d'[i] == d[i]
    ensures OnlyTouches(g, d, d', [])
  {
  }

  lemma TouchesTrans(g: Geometry, d0: seq<Sector>, d1: seq<Sector>, d2: seq<Sector>, layout: seq<nat>)
    requires OnlyTouches(g, d0, d1, layout) && OnlyTouches(g, d1, d2, layout)
    ensures OnlyTouches(g, d0, d2, layout)
  {
  }

  lemma TruncateDone(k: Kind, fat: seq<nat>, chain: seq<nat>, m: nat, fat': seq<nat>)
    requires SoundTable(k, fat) && IsChain(k, fat, chain) && Freed(fat, chain, 1, 1 + m, fat')
    requires m == Min(|chain| - 1, TRUNCATE_LIMIT)
    ensures chain[0] < |fat'| && TruncateFat(k, fat, chain) == fat'[chain[0] := EofValue(k)]
  {
    TruncateCount(k, fat, chain);
    FreedIsClear(k, fat, chain, 1, 1 + m, fat');
  }

  /** Overwrites the data of cluster c with zeros. */
  method ZeroCluster(v: Volume, c: nat)
    requires v.Valid() && 2 <= c < ClusterLimit(v.geo)
    modifies v.disk
    ensures v.Valid() && v.Entries() == old(v.Entries())
    ensures old(Mirrored(v.geo, v.disk[..])) ==> Mirrored(v.geo, v.disk[..])
    ensures Zeroed(old(v.disk[..]), v.disk[..], ClusterSectors(v.geo, c))
  {
    hide Fat, Mirrored, CacheAgrees, Consecutive;
    ghost var sectors := ClusterSectors(v.geo, c);
    var s := 0;
    while s < v.geo.sectorsPerCluster
      invariant s <= v.geo.sectorsPerCluster
      invariant v.Valid() && v.Entries() == old(v.Entries())
      invariant old(Mirrored(v.geo, v.disk[..])) ==> Mirrored(v.geo, v.disk[..])
      invariant Zeroed(old(v.disk[..]), v.disk[..], sectors[..s])
    {
      ClusterOnDisk(v.geo, c, s);
      v.WriteData(ClusterToLba(v.geo, c) + s, ZeroSector());
      assert sectors[..s + 1] == sectors[..s] + [sectors[s]];
      s := s + 1;
    }
    assert sectors[..s] == sectors;
  }

  /** The given sectors are zero and all others as before. */
  ghost predicate Zeroed(d: seq<Sector>, d': seq<Sector>, sectors: seq<nat>) {
    && |d'| == |d|
    && forall i :: 0 <= i < |d| ==> d'[i] == if i in sectors then ZeroSector() else d[i]
  }

  /** Outside the tables, the given sectors are zero and all others as before. */
  ghost predicate ZeroedData(g: Geometry, d: seq<Sector>, d': seq<Sector>, sectors: seq<nat>) {
    && |d'| == |d|
    && forall i :: 0 <= i < |d| && !(g.reserved <= i < g.CopyLba(g.fatCount)) ==>
         d'[i] == if i in sectors then ZeroSector() else d[i]
  }

  /** The number of rounds of a freeing loop, from its exit condition. */
  lemma ReachUnique(chain: seq<nat>, limit: nat, cap: nat, m: nat)
    requires m <= |chain| && m <= limit && (forall i :: 0 <= i < m ==> chain[i] < cap)
    requires m == |chain| || m == limit || chain[m] >= cap
    ensures m == Reach(chain, limit, cap)
  {
    hide Reach;
  }

  lemma ZeroedStep(g: Geometry, chain: seq<nat>, m: nat, d0: seq<Sector>, d1: seq<Sector>, d2: seq<Sector>,
                   d3: seq<Sector>)
    requires ClustersIn(g, chain) && m < |chain|
    requires ZeroedData(g, d0, d1, Layout(g, chain[..m])) && Zeroed(d1, d2, ClusterSectors(g, chain[m]))
    requires OnlyTouches(g, d2, d3, [])
    ensures ZeroedData(g, d0, d3, Layout(g, chain[..m + 1]))
  {
    LayoutAppend(g, chain[..m], chain[m]);
    assert chain[..m] + [chain[m]] == chain[..m + 1];
  }

  /** Zeroes and frees the clusters of a chain, up to the limit. */
  method DeleteChain(v: Volume, first: nat, ghost chain: seq<nat>)
    requires v.Valid() && CacheSafe(v.geo)
    requires IsChain(v.geo.kind, v.Entries(), chain) && first == chain[0]
    modifies v`cachePos, v.cache, v.disk
    ensures v.Valid() && v.Entries() == DeleteFat(v.geo.kind, old(v.Entries()), chain)
    ensures ClustersIn(v.geo, DeleteFreed(chain))
    ensures ZeroedData(v.geo, old(v.disk[..]), v.disk[..], Layout(v.geo, DeleteFreed(chain)))
    ensures old(Mirrored(v.geo, v.disk[..])) ==> Mirrored(v.geo, v.disk[..])
  {
    hide Fat, Mirrored, CacheAgrees, Reach, Layout, ClusterSectors, ZeroedData, Zeroed, DeleteFreed, DeleteFat;
    ghost var k, fat, d0 := v.geo.kind, v.Entries(), v.disk[..];
    ChainIn(v.geo, k, fat, chain);
    NothingZeroed(v.geo, chain, d0);
    assert Freed(fat, chain, 0, 0, fat);
    hide IsChain, Freed;
    var current, count := first, 0;
    while current < EofMarker(v.geo.kind) && current < LARGE_CLUSTER && count < DELETE_LIMIT
      invariant v.Valid() && count <= |chain| && count <= DELETE_LIMIT
      invariant Freed(fat, chain, 0, count, v.Entries())
      invariant forall i :: 0 <= i < count ==> chain[i] < LARGE_CLUSTER
      invariant if count < |chain| then current == chain[count] && 2 <= current < EofMarker(k)
                else current >= EofMarker(k)
      invariant old(Mirrored(v.geo, v.disk[..])) ==> Mirrored(v.geo, v.disk[..])
      invariant ZeroedData(v.geo, d0, v.disk[..], Layout(v.geo, chain[..count]))
      decreases DELETE_LIMIT - count
    {
      ghost var d1 := v.disk[..];
      ZeroCluster(v, current);
      ghost var d2 := v.disk[..];
      current := FreeCluster(v, current, fat, chain, 0, count);
      ZeroedStep(v.geo, chain, count, d0, d1, d2, v.disk[..]);
      count := count + 1;
    }
    ReachUnique(chain, DELETE_LIMIT, LARGE_CLUSTER, count);
    DeleteDone(k, fat, chain, count, v.Entries());
  }

  lemma DeleteDone(k: Kind, fat: seq<nat>, chain: seq<nat>, m: nat, fat': seq<nat>)
    requires IsChain(k, fat, chain) && m == Reach(chain, DELETE_LIMIT, LARGE_CLUSTER) && Freed(fat, chain, 0, m, fat')
    ensures DeleteFreed(chain) == chain[..m] && fat' == DeleteFat(k, fat, chain)
  {
    FreedIsClear(k, fat, chain, 0, m, fat');
  }

  lemma ChainIn(g: Geometry, k: Kind, fat: seq<nat>, chain: seq<nat>)
    requires g.Wf() && IsChain(k, fat, chain) && |fat| == ClusterLimit(g)
    ensures ClustersIn(g, chain)
    ensures 0 < |chain| && 2 <= chain[0] < EofMarker(g.kind) && SoundTable(g.kind, fat)
  {
  }

  lemma NothingZeroed(g: Geometry, chain: seq<nat>, d: seq<Sector>)
    requires ClustersIn(g, chain)
    ensures ZeroedData(g, d, d, Layout(g, chain[..0]))
  {
  }
}
