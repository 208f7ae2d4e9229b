/** The bytes of a file: where a chain of clusters lies on the disk, what the file contains, and what
    writing a sector does to it. */
module FatData {
  import opened Common
  import opened Arith
  import opened FatCodec
  import opened FatVolume
  import opened FatChains

  // ----- Layout: the sectors of a file, in order -----

  /** First sector of cluster c. */
  function ClusterToLba(g: Geometry, c: nat): nat
    requires 2 <= c
  {
    g.dataLba + (c - 2) * g.sectorsPerCluster
  }

  function Consecutive(base: nat, n: nat): (r: seq<nat>)
    ensures |r| == n && forall j :: 0 <= j < n ==> r[j] == base + j
  {
    if n == 0 then [] else Consecutive(base, n - 1) + [base + n - 1]
  }

  /** The sectors of cluster c. */
  function ClusterSectors(g: Geometry, c: nat): (r: seq<nat>)
    requires 2 <= c
    ensures |r| == g.sectorsPerCluster
    ensures forall j :: 0 <= j < |r| ==> r[j] == ClusterToLba(g, c) + j
  {
    Consecutive(ClusterToLba(g, c), g.sectorsPerCluster)
  }

  ghost predicate ClustersIn(g: Geometry, chain: seq<nat>) {
    g.Wf() && forall i :: 0 <= i < |chain| ==> 2 <= chain[i] < ClusterLimit(g)
  }

  /** The sectors of a file, in the order of its bytes. */
  ghost function Layout(g: Geometry, chain: seq<nat>): seq<nat>
    requires ClustersIn(g, chain)
    decreases |chain|
  {
    if chain == [] then []
    else Layout(g, chain[..|chain| - 1]) + ClusterSectors(g, chain[|chain| - 1])
  }

  lemma LayoutAppend(g: Geometry, chain: seq<nat>, c: nat)
    requires ClustersIn(g, chain) && 2 <= c < ClusterLimit(g)
    ensures ClustersIn(g, chain + [c]) && Layout(g, chain + [c]) == Layout(g, chain) + ClusterSectors(g, c)
  {
    assert (chain + [c])[..|chain|] == chain;
  }

  lemma {:induction false} LayoutLength(g: Geometry, chain: seq<nat>)
    requires ClustersIn(g, chain)
    ensures |Layout(g, chain)| == |chain| * g.sectorsPerCluster
    decreases |chain|
  {
    if chain != [] {
      var n := |chain| - 1;
      LayoutLength(g, chain[..n]);
      MulSucc(n, g.sectorsPerCluster);
    }
  }

  /** Sector j of the k-th cluster. */
  lemma {:induction false} LayoutAt(g: Geometry, chain: seq<nat>, k: nat, j: nat)
    requires ClustersIn(g, chain) && k < |chain| && j < g.sectorsPerCluster
    ensures k * g.sectorsPerCluster + j < |Layout(g, chain)|
    ensures Layout(g, chain)[k * g.sectorsPerCluster + j] == ClusterToLba(g, chain[k]) + j
    decreases |chain|
  {
    var n := |chain| - 1;
    LayoutLength(g, chain[..n]);
    if k < n {
      LayoutAt(g, chain[..n], k, j);
    }
  }

  /** Clusters lie in the data area, behind the tables. */
  lemma ClusterOnDisk(g: Geometry, c: nat, j: nat)
    requires g.Wf() && 2 <= c < ClusterLimit(g) && j < g.sectorsPerCluster
    ensures g.dataLba <= ClusterToLba(g, c) + j < g.totalSectors
  {
    hide InTable, EofMarker;
    var m, spc := g.MaxClusters(), g.sectorsPerCluster;
    DivMod(g.totalSectors - g.dataLba, spc);
    MulMono(c - 1, m, spc);
    MulSucc(c - 2, spc);
    MulMono(0, c - 2, spc);
  }

  /** The first sector of cluster c as the code computes it, in 32-bit arithmetic. */
  function Lba32(g: Geometry, c: nat): nat {
    (g.dataLba + (c - 2) * g.sectorsPerCluster) % 0x1_0000_0000
  }

  /** For the numbers of clusters it is the first sector of the cluster.  Cluster 0, with which an empty file may be
      recorded, leads to a sector in front of the data area, to the root directory or the tables; or, if two clusters
      do not fit in front of the data area, to the end of the 32-bit range. */
  lemma Lba32Exact(g: Geometry, c: nat)
    requires g.Wf() && c < ClusterLimit(g) && g.sectorsPerCluster < 0x100
    ensures 2 <= c ==> Lba32(g, c) == ClusterToLba(g, c) && g.dataLba <= Lba32(g, c) < g.totalSectors
    ensures c < 2 ==>
      var back := (2 - c) * g.sectorsPerCluster;
      Lba32(g, c) == if back <= g.dataLba then g.dataLba - back else 0x1_0000_0000 + g.dataLba - back
    ensures c < 2 ==>
      (g.dataLba <= Lba32(g, c) < g.totalSectors <==>
        g.dataLba < (2 - c) * g.sectorsPerCluster &&
          0x1_0000_0000 + g.dataLba - (2 - c) * g.sectorsPerCluster < g.totalSectors)
  {
    hide InTable;
    var spc := g.sectorsPerCluster;
    var x := g.dataLba + (c - 2) * spc;
    if 2 <= c {
      ClusterOnDisk(g, c, 0);
      DivModUnique(x, 0x1_0000_0000, 0, x);
    } else {
      assert x == g.dataLba - (2 - c) * spc && (2 - c) * spc < 0x200;
      if x >= 0 {
        DivModUnique(x, 0x1_0000_0000, 0, x);
      } else {
        DivModUnique(x, 0x1_0000_0000, -1, x + 0x1_0000_0000);
      }
    }
  }

  /** Distinct clusters occupy distinct sectors. */
  lemma ClustersApart(g: Geometry, c: nat, j: nat, c': nat, j': nat)
    requires 2 <= c && 2 <= c' && j < g.sectorsPerCluster && j' < g.sectorsPerCluster
    requires ClusterToLba(g, c) + j == ClusterToLba(g, c') + j'
    ensures c == c' && j == j'
  {
    BlocksApart(g.sectorsPerCluster, c - 2, j, c' - 2, j');
  }

  /** Every sector of a file lies in the data area and belongs to one of the clusters of its chain. */
  lemma {:induction false} LayoutSound(g: Geometry, chain: seq<nat>, s: nat) returns (k: nat, j: nat)
    requires ClustersIn(g, chain) && s < |Layout(g, chain)|
    ensures k < |chain| && j < g.sectorsPerCluster && Layout(g, chain)[s] == ClusterToLba(g, chain[k]) + j
    ensures g.dataLba <= Layout(g, chain)[s] < g.totalSectors
    decreases |chain|
  {
    var n := |chain| - 1;
    var front := Layout(g, chain[..n]);
    if s < |front| {
      k, j := LayoutSound(g, chain[..n], s);
    } else {
      k, j := n, s - |front|;
      ClusterOnDisk(g, chain[n], j);
    }
  }

  /** A sector of a cluster outside the chain is not a sector of the file. */
  lemma LayoutOutside(g: Geometry, chain: seq<nat>, c: nat, j: nat)
    requires ClustersIn(g, chain) && 2 <= c && c !in chain && j < g.sectorsPerCluster
    ensures ClusterToLba(g, c) + j !in Layout(g, chain)
  {
    forall s | 0 <= s < |Layout(g, chain)|
      ensures Layout(g, chain)[s] != ClusterToLba(g, c) + j
    {
      var k, i := LayoutSound(g, chain, s);
      if ClusterToLba(g, chain[k]) + i == ClusterToLba(g, c) + j {
        ClustersApart(g, chain[k], i, c, j);
      }
    }
  }

  /** No sector occurs twice in a file. */
  lemma {:induction false} LayoutInjective(g: Geometry, chain: seq<nat>)
    requires ClustersIn(g, chain) && NoDuplicates(chain)
    ensures NoDuplicates(Layout(g, chain))
    decreases |chain|
  {
    if chain != [] {
      var n := |chain| - 1;
      var front := Layout(g, chain[..n]);
      LayoutInjective(g, chain[..n]);
      forall j | 0 <= j < g.sectorsPerCluster
        ensures ClusterSectors(g, chain[n])[j] !in front
      {
        LayoutOutside(g, chain[..n], chain[n], j);
      }
    }
  }

  /** Disjoint chains have disjoint sectors. */
  lemma LayoutsDisjoint(g: Geometry, a: seq<nat>, b: seq<nat>)
    requires ClustersIn(g, a) && ClustersIn(g, b) && Disjoint(a, b)
    ensures Disjoint(Layout(g, a), Layout(g, b))
  {
    forall s | 0 <= s < |Layout(g, a)|
      ensures Layout(g, a)[s] !in Layout(g, b)
    {
      var k, j := LayoutSound(g, a, s);
      assert a[k] in a;
      LayoutOutside(g, b, a[k], j);
    }
  }

  // ----- Content: the bytes of a file -----

  /** The sectors of a file exist on the disk and are distinct. */
  ghost predicate LayoutOn(d: seq<Sector>, layout: seq<nat>) {
    NoDuplicates(layout) && forall s :: 0 <= s < |layout| ==> layout[s] < |d|
  }

  /** The first size bytes of the file. */
  ghost function Content(d: seq<Sector>, layout: seq<nat>, size: nat): (r: seq<byte>)
    requires LayoutOn(d, layout) && size <= |layout| * SECTOR_SIZE
    ensures |r| == size
  {
    seq(size, i requires 0 <= i < size => d[layout[i / SECTOR_SIZE]][i % SECTOR_SIZE])
  }

  /** Old content with data written over it from position p on. */
  function Splice(was: seq<byte>, p: nat, data: seq<byte>): (r: seq<byte>)
    requires p <= |was|
  {
    was[..p] + data + if p + |data| < |was| then was[p + |data|..] else []
  }

  lemma SpliceTwice(c: seq<byte>, p: nat, a: seq<byte>, b: seq<byte>)
    requires p <= |c|
    ensures p + |a| <= |Splice(c, p, a)|
    ensures Splice(Splice(c, p, a), p + |a|, b) == Splice(c, p, a + b)
  {
  }

  /** The content depends only on the sectors of the file, and not on those behind its end. */
  lemma ContentFrame(d: seq<Sector>, layout: seq<nat>, d': seq<Sector>, layout': seq<nat>, size: nat)
    requires LayoutOn(d, layout) && LayoutOn(d', layout') && size <= |layout| * SECTOR_SIZE && layout <= layout'
    requires forall s :: 0 <= s < |layout| ==> d'[layout[s]] == d[layout[s]]
    ensures Content(d', layout', size) == Content(d, layout, size)
  {
  }

  /** The buffer holds the bytes of sector s that belong to the file. */
  ghost predicate BufferHolds(d: seq<Sector>, layout: seq<nat>, size: nat, s: nat, buf: seq<byte>)
    requires LayoutOn(d, layout) && s < |layout|
  {
    |buf| == SECTOR_SIZE && forall j :: 0 <= j < SECTOR_SIZE && s * SECTOR_SIZE + j < size ==> buf[j] == d[layout[s]][j]
  }

  /** The sector a buffer is written to after being patched at offset o. */
  function Patch(buf: seq<byte>, o: nat, chunk: seq<byte>): (r: seq<byte>)
    requires o + |chunk| <= |buf|
    ensures |r| == |buf|
  {
    buf[..o] + chunk + buf[o + |chunk|..]
  }

  function Max(a: int, b: int): int {
    if a < b then b else a
  }

  /** Patching the buffer at offset o and writing it to its sector splices the patch into the file. */
  lemma WriteSectorSplices(d: seq<Sector>, layout: seq<nat>, size: nat, s: nat, o: nat, buf: seq<byte>,
                           chunk: seq<byte>)
    requires LayoutOn(d, layout) && size <= |layout| * SECTOR_SIZE && s < |layout|
    requires o + |chunk| <= SECTOR_SIZE && s * SECTOR_SIZE + o <= size && BufferHolds(d, layout, size, s, buf)
    ensures var p, d' := s * SECTOR_SIZE + o, d[layout[s] := Patch(buf, o, chunk)];
            var size' := Max(size, p + |chunk|);
            && LayoutOn(d', layout) && size' <= |layout| * SECTOR_SIZE
            && Content(d', layout, size') == Splice(Content(d, layout, size), p, chunk)
            && BufferHolds(d', layout, size', s, Patch(buf, o, chunk))
  {
    var p, d' := s * SECTOR_SIZE + o, d[layout[s] := Patch(buf, o, chunk)];
    var size' := Max(size, p + |chunk|);
    var c, c' := Content(d, layout, size), Content(d', layout, size');
    assert |Splice(c, p, chunk)| == size';
    forall i | 0 <= i < size'
      ensures c'[i] == Splice(c, p, chunk)[i]
    {
      WrittenByte(d, layout, size, s, o, buf, chunk, i);
    }
  }

  lemma WrittenByte(d: seq<Sector>, layout: seq<nat>, size: nat, s: nat, o: nat, buf: seq<byte>, chunk: seq<byte>,
                    i: nat)
    requires LayoutOn(d, layout) && size <= |layout| * SECTOR_SIZE && s < |layout|
    requires o + |chunk| <= SECTOR_SIZE && s * SECTOR_SIZE + o <= size && BufferHolds(d, layout, size, s, buf)
    requires i < Max(size, s * SECTOR_SIZE + o + |chunk|)
    ensures var p, d' := s * SECTOR_SIZE + o, d[layout[s] := Patch(buf, o, chunk)];
            var sp := Splice(Content(d, layout, size), p, chunk);
            i / SECTOR_SIZE < |layout| && i < |sp| && d'[layout[i / SECTOR_SIZE]][i % SECTOR_SIZE] == sp[i]
  {
    var p, t, j := s * SECTOR_SIZE + o, i / SECTOR_SIZE, i % SECTOR_SIZE;
    assert i == t * SECTOR_SIZE + j;
    if t != s {
      assert layout[t] != layout[s];
      assert i < size && !(p <= i < p + |chunk|);
    }
  }

  // ----- The combined effect of writing to a file -----

  lemma {:induction false} LayoutPrefix(g: Geometry, a: seq<nat>, b: seq<nat>)
    requires ClustersIn(g, b) && a <= b
    ensures ClustersIn(g, a) && Layout(g, a) <= Layout(g, b)
    decreases |b|
  {
    if a != b {
      LayoutPrefix(g, a, b[..|b| - 1]);
    }
  }

  /** The chain has grown by clusters that were free, and the entries of all other clusters are as before. */
  ghost predicate Grown(k: Kind, fat: seq<nat>, chain: seq<nat>, fat': seq<nat>, chain': seq<nat>) {
    && |fat'| == |fat| && chain <= chain' && IsChain(k, fat', chain')
    && (forall c :: 0 <= c < |fat| && c !in chain' ==> fat'[c] == fat[c])
    && (forall i :: |chain| <= i < |chain'| ==> fat[chain'[i]] == 0)
  }

  /** Nothing outside the tables and the sectors of the file has changed. */
  ghost predicate OnlyTouches(g: Geometry, d: seq<Sector>, d': seq<Sector>, layout: seq<nat>) {
    && |d'| == |d|
    && forall i :: 0 <= i < |d| && !(g.reserved <= i < g.CopyLba(g.fatCount)) && i !in layout ==> d'[i] == d[i]
  }

  lemma GrownTrans(k: Kind, f0: seq<nat>, c0: seq<nat>, f1: seq<nat>, c1: seq<nat>, f2: seq<nat>, c2: seq<nat>)
    requires SoundTable(k, f0) && Grown(k, f0, c0, f1, c1) && Grown(k, f1, c1, f2, c2)
    ensures Grown(k, f0, c0, f2, c2)
  {
    ChainAcyclic(k, f2, c2);
    hide IsChain;
    assert forall c :: c in c1 ==> c in c2;
    forall i | |c0| <= i < |c2|
      ensures f0[c2[i]] == 0
    {
      if i < |c1| {
        assert c2[i] == c1[i];
      } else {
        assert forall j :: 0 <= j < |c1| ==> c1[j] == c2[j] != c2[i];
      }
    }
  }

  /** The other files of a forest survive the growth of one of them. */
  lemma GrownKeepsForest(k: Kind, fat: seq<nat>, files: seq<seq<nat>>, f: nat, fat': seq<nat>, chain': seq<nat>)
    requires SoundTable(k, fat) && Forest(k, fat, files) && f < |files| && Grown(k, fat, files[f], fat', chain')
    ensures Forest(k, fat', files[f := chain'])
  {
    var files' := files[f := chain'];
    forall i | 0 <= i < |files| && i != f
      ensures IsChain(k, fat', files[i]) && Disjoint(chain', files[i]) && Disjoint(files[i], chain')
    {
      ForestDisjoint(k, fat, files, f, i);
      GrownKeepsOther(k, fat, files[f], fat', chain', files[i]);
    }
    hide IsChain;
    forall i, j | 0 <= i < j < |files'| ensures Disjoint(files'[i], files'[j]) {
      assert Disjoint(files[i], files[j]);
    }
  }

  lemma GrownKeepsOther(k: Kind, fat: seq<nat>, chain: seq<nat>, fat': seq<nat>, chain': seq<nat>, other: seq<nat>)
    requires IsChain(k, fat, other) && Disjoint(chain, other) && Grown(k, fat, chain, fat', chain')
    ensures IsChain(k, fat', other) && Disjoint(chain', other) && Disjoint(other, chain')
  {
    forall x | 0 <= x < |other|
      ensures other[x] !in chain'
    {
      ChainNotFree(k, fat, other, x);
      assert other[x] in other;
      forall i | 0 <= i < |chain'| ensures chain'[i] != other[x] {
        if i < |chain| { assert chain'[i] == chain[i] && chain[i] in chain; }
      }
    }
    ChainFrame(k, fat, fat', other);
  }

  /** Writing to one file leaves the bytes of every other file alone. */
  lemma OtherContentKept(g: Geometry, d: seq<Sector>, d': seq<Sector>, chain: seq<nat>, other: seq<nat>, size: nat)
    requires OnDisk(g, d) && OnDisk(g, d') && ClustersIn(g, chain) && ClustersIn(g, other) && Disjoint(chain, other)
    requires OnlyTouches(g, d, d', Layout(g, chain)) && NoDuplicates(other) && size <= |Layout(g, other)| * SECTOR_SIZE
    ensures LayoutOn(d, Layout(g, other)) && LayoutOn(d', Layout(g, other))
    ensures Content(d', Layout(g, other), size) == Content(d, Layout(g, other), size)
  {
    var layout := Layout(g, other);
    LayoutInjective(g, other);
    LayoutsDisjoint(g, chain, other);
    forall s | 0 <= s < |layout|
      ensures layout[s] < |d| && d'[layout[s]] == d[layout[s]]
    {
      var k, j := LayoutSound(g, other, s);
      assert layout[s] in layout;
    }
    ContentFrame(d, layout, d', layout, size);
  }
}
