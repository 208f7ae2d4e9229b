/** A volume with several open files.  Every sequence of file operations behaves like the same operations on a map from
    files to their bytes, together with the set of free clusters. */
module FatSystem {
  import opened Common
  import opened Arith
  import opened FatCodec
  import opened FatVolume
  import opened FatChains
  import opened FatData
  import opened FatAlloc
  import opened FatFiles
  import opened Lowest

  // ----- The files as their users see them -----

  /** Written tells that the file has been written to since it was opened.  A file is exact while its position and size
      fit into 32 bits, and ready while its cursor stands at its position. */
  datatype FileState = FileState(bytes: seq<byte>, position: nat, written: bool, exact: bool, ready: bool,
                                 clusters: seq<nat>)

  /** The open files, the clusters that are free for them, and the number of the next file. */
  datatype Store = Store(files: map<nat, FileState>, free: set<nat>, next: nat)

  datatype Op =
    | NewFile
    | WriteTo(id: nat, data: seq<byte>)
    | SeekTo(id: nat, target: u32)
    | ReadFrom(id: nat, count: nat)
    | Cut(id: nat)
    | Remove(id: nat)

  datatype Answer = Created(id: nat) | Full | Written(n: nat) | Code(code: int) | Data(bytes: seq<byte>) | Refused

  ghost predicate SoundFile(g: Geometry, f: FileState) {
    f.clusters != [] && f.position <= |f.bytes| <= Capacity(g, |f.clusters|)
  }

  ghost predicate Sound(g: Geometry, s: Store) {
    g.Wf() && forall id :: id in s.files ==> SoundFile(g, s.files[id]) && id < s.next
  }

  /** What a user has to see to before a call: a file that is read or written is ready. */
  predicate Enabled(s: Store, op: Op) {
    match op
    case WriteTo(id, _) => id in s.files ==> s.files[id].exact && s.files[id].ready
    case SeekTo(id, _) => id in s.files ==> s.files[id].exact
    case ReadFrom(id, _) =>
      id in s.files ==>
        s.files[id].exact && (s.files[id].position < |s.files[id].bytes| ==> s.files[id].ready)
    case _ => true
  }

  // ----- Clusters -----

  /** The number of clusters for so many bytes. */
  function ClustersFor(g: Geometry, o: nat): (k: nat)
    requires 0 < g.sectorsPerCluster
  {
    var bytes := g.sectorsPerCluster * SECTOR_SIZE;
    DivMod(o + bytes - 1, bytes);
    (o + bytes - 1) / bytes
  }

  lemma ClustersForExact(g: Geometry, o: nat, k: nat)
    requires 0 < g.sectorsPerCluster
    ensures o <= Capacity(g, k) <==> ClustersFor(g, o) <= k
  {
    var bytes := g.sectorsPerCluster * SECTOR_SIZE;
    var q := (o + bytes - 1) / bytes;
    DivMod(o + bytes - 1, bytes);
    CapacityIs(g, k);
    if q <= k {
      MulMono(q, k, bytes);
    } else {
      MulMono(k + 1, q, bytes);
      MulSucc(k, bytes);
    }
  }

  lemma CapacityIs(g: Geometry, k: nat)
    ensures Capacity(g, k) == k * (g.sectorsPerCluster * SECTOR_SIZE)
  {
  }

  /** Clusters that are given back; those at or behind the search limit are not found again. */
  ghost function Released(g: Geometry, free: set<nat>, cs: seq<nat>): set<nat>
    requires g.Wf()
  {
    free + set c | c in cs && c < g.MaxClusters()
  }

  /** The file, and the free clusters, after the truncation that a first write at its start implies. */
  ghost function Prepared(f: FileState): FileState
    requires f.clusters != []
  {
    if AutoTruncates(f.written, |f.bytes|, f.position) then f.(bytes := [], clusters := [f.clusters[0]]) else f
  }

  ghost function PreparedFree(g: Geometry, free: set<nat>, f: FileState): set<nat>
    requires g.Wf() && f.clusters != []
  {
    if AutoTruncates(f.written, |f.bytes|, f.position)
    then Released(g, free, TruncateFreed(g.kind, f.clusters)) else free
  }

  /** How much of the data fits, behind the position of the prepared file. */
  ghost function Fitting(g: Geometry, free: set<nat>, f: FileState, data: seq<byte>): int {
    Min(|data|, Capacity(g, |f.clusters| + |free|) - f.position)
  }

  /** The clusters that the prepared file needs in addition for its bytes up to position o: the lowest free ones. */
  ghost function Added(g: Geometry, free: set<nat>, f: FileState, o: nat): seq<nat>
    requires 0 < g.sectorsPerCluster
  {
    var k := ClustersFor(g, o);
    Take(free, if k <= |f.clusters| then 0 else k - |f.clusters|)
  }

  lemma PreparedSound(g: Geometry, free: set<nat>, f: FileState, data: seq<byte>)
    requires g.Wf() && SoundFile(g, f)
    ensures SoundFile(g, Prepared(f)) && Prepared(f).position == f.position
    ensures 0 <= Fitting(g, PreparedFree(g, free, f), Prepared(f), data)
  {
    hide InTable, PreparedFree;
    var b, fr := Prepared(f), PreparedFree(g, free, f);
    CapacityAdd(g, |b.clusters|, |fr|);
  }

  // ----- What the operations do -----

  /** How much of the data is written. */
  ghost function WrittenCount(g: Geometry, free: set<nat>, f: FileState, data: seq<byte>): (n: nat)
    requires g.Wf() && SoundFile(g, f)
    ensures n <= |data|
  {
    PreparedSound(g, free, f, data);
    Fitting(g, PreparedFree(g, free, f), Prepared(f), data)
  }

  ghost function Overwritten(g: Geometry, free: set<nat>, f: FileState, data: seq<byte>): FileState
    requires g.Wf() && SoundFile(g, f)
  {
    PreparedSound(g, free, f, data);
    var b, n := Prepared(f), WrittenCount(g, free, f, data);
    FileState(Splice(b.bytes, f.position, data[..n]), f.position + n, f.written || f.position == 0,
              f.position + n < WRAP32, |data| == 0 || (f.position + n) % SECTOR_SIZE != 0,
              b.clusters + Added(g, PreparedFree(g, free, f), b, f.position + n))
  }

  ghost function OverwrittenFree(g: Geometry, free: set<nat>, f: FileState, data: seq<byte>): set<nat>
    requires g.Wf() && SoundFile(g, f)
  {
    var fr := PreparedFree(g, free, f);
    fr - Elements(Added(g, fr, Prepared(f), f.position + WrittenCount(g, free, f, data)))
  }

  ghost function SeekCode(g: Geometry, f: FileState, t: u32): int {
    if t > |f.bytes| then E_INVAL
    else if f.bytes == [] || t < Capacity(g, |f.clusters|) then SUCCESS
    else E_IO
  }

  ghost function Sought(g: Geometry, f: FileState, t: u32): (r: FileState)
    ensures r.clusters == f.clusters && r.bytes == f.bytes
  {
    if t > |f.bytes| then f
    else f.(position := t, exact := true, ready := if f.bytes == [] then f.ready else SeekCode(g, f, t) == SUCCESS)
  }

  /** What is read is what the file holds from its position on, up to its end and to the limit of one read. */
  ghost function ReadBytes(f: FileState, n: nat): seq<byte>
    requires f.position <= |f.bytes|
  {
    f.bytes[f.position..f.position + Delivered(|f.bytes|, f.position, n)]
  }

  ghost function ReadPast(g: Geometry, f: FileState, n: nat): (r: FileState)
    requires f.position <= |f.bytes|
    ensures r.clusters == f.clusters && r.bytes == f.bytes
  {
    if f.position == |f.bytes| then f
    else
      var next := f.position + Delivered(|f.bytes|, f.position, n);
      f.(position := next, ready := WithinLimit(|f.bytes|, f.position, n) && next < Capacity(g, |f.clusters|))
  }

  ghost function Emptied(f: FileState): FileState
    requires f.clusters != []
  {
    FileState([], 0, true, true, true, [f.clusters[0]])
  }

  ghost function AnswerTo(g: Geometry, s: Store, op: Op): Answer
    requires Sound(g, s)
  {
    if op.NewFile? then if s.free == {} then Full else Created(s.next)
    else if op.id !in s.files then Refused
    else
      var f := s.files[op.id];
      match op
      case WriteTo(_, data) => Written(WrittenCount(g, s.free, f, data))
      case SeekTo(_, t) => Code(SeekCode(g, f, t))
      case ReadFrom(_, n) => Data(ReadBytes(f, n))
      case _ => Code(SUCCESS)
  }

  /** What a call does to the files; only the named file changes. */
  ghost function After(g: Geometry, s: Store, op: Op): Store
    requires Sound(g, s)
  {
    if op.NewFile? then
      if s.free == {} then s
      else
        var c := Least(s.free);
        Store(s.files[s.next := FileState([], 0, false, true, true, [c])], s.free - {c}, s.next + 1)
    else if op.id !in s.files then s
    else
      var f := s.files[op.id];
      match op
      case WriteTo(id, data) =>
        s.(files := s.files[id := Overwritten(g, s.free, f, data)], free := OverwrittenFree(g, s.free, f, data))
      case SeekTo(id, t) => s.(files := s.files[id := Sought(g, f, t)])
      case ReadFrom(id, n) => s.(files := s.files[id := ReadPast(g, f, n)])
      case Cut(id) =>
        s.(files := s.files[id := Emptied(f)], free := Released(g, s.free, TruncateFreed(g.kind, f.clusters)))
      case Remove(id) => s.(files := s.files - {id}, free := Released(g, s.free, DeleteFreed(f.clusters)))
  }

  // ----- Every operation keeps the files sound -----

  lemma OverwrittenSound(g: Geometry, free: set<nat>, f: FileState, data: seq<byte>)
    requires g.Wf() && SoundFile(g, f)
    ensures SoundFile(g, Overwritten(g, free, f, data))
  {
    hide InTable, Capacity, Take, ClustersFor, PreparedFree;
    PreparedSound(g, free, f, data);
    var b, fr, n := Prepared(f), PreparedFree(g, free, f), WrittenCount(g, free, f, data);
    var o := f.position + n;
    SpliceLength(b.bytes, f.position, data[..n]);
    ClustersForExact(g, o, |b.clusters| + |fr|);
    ClustersForExact(g, o, |b.clusters + Added(g, fr, b, o)|);
    CapacityMono(g, |b.clusters|, |b.clusters + Added(g, fr, b, o)|);
  }

  lemma CapacityMono(g: Geometry, m: nat, n: nat)
    requires m <= n
    ensures Capacity(g, m) <= Capacity(g, n)
  {
    MulMono(m, n, g.sectorsPerCluster);
  }

  lemma AfterSound(g: Geometry, s: Store, op: Op)
    requires Sound(g, s)
    ensures Sound(g, After(g, s, op))
  {
    hide InTable, Overwritten, OverwrittenFree, Capacity, Released, TruncateFreed, DeleteFreed;
    CapacityAtLeast(g);
    if op.WriteTo? && op.id in s.files {
      OverwrittenSound(g, s.free, s.files[op.id], op.data);
    }
  }

  lemma CapacityAtLeast(g: Geometry)
    ensures forall n: nat :: 0 <= Capacity(g, n)
  {
  }

  // ----- Runs -----

  /** Each operation is called as it should be. */
  ghost predicate Permitted(g: Geometry, s: Store, ops: seq<Op>)
    requires Sound(g, s)
    decreases |ops|
  {
    ops == [] || (Enabled(s, ops[0]) && (AfterSound(g, s, ops[0]); Permitted(g, After(g, s, ops[0]), ops[1..])))
  }

  ghost function AnswersTo(g: Geometry, s: Store, ops: seq<Op>): (answers: seq<Answer>)
    requires Sound(g, s)
    ensures |answers| == |ops|
    decreases |ops|
  {
    if ops == [] then []
    else
      AfterSound(g, s, ops[0]);
      [AnswerTo(g, s, ops[0])] + AnswersTo(g, After(g, s, ops[0]), ops[1..])
  }

  ghost function AfterAll(g: Geometry, s: Store, ops: seq<Op>): (r: Store)
    requires Sound(g, s)
    ensures Sound(g, r)
    decreases |ops|
  {
    if ops == [] then s
    else
      AfterSound(g, s, ops[0]);
      AfterAll(g, After(g, s, ops[0]), ops[1..])
  }

  predicate Names(op: Op, id: nat) {
    !op.NewFile? && op.id == id
  }

  /** A file is as it was, after any run of operations on other files. */
  lemma {:induction false} OthersUntouched(g: Geometry, s: Store, ops: seq<Op>, id: nat)
    requires Sound(g, s) && id in s.files && forall k :: 0 <= k < |ops| ==> !Names(ops[k], id)
    ensures var r := AfterAll(g, s, ops); id in r.files && r.files[id] == s.files[id]
    decreases |ops|
  {
    if ops != [] {
      AfterSound(g, s, ops[0]);
      assert !Names(ops[0], id);
      OtherUntouched(g, s, ops[0], id);
      hide After;
      OthersUntouched(g, After(g, s, ops[0]), ops[1..], id);
    }
  }

  lemma OtherUntouched(g: Geometry, s: Store, op: Op, id: nat)
    requires Sound(g, s) && id in s.files && !Names(op, id)
    ensures var r := After(g, s, op); id in r.files && r.files[id] == s.files[id]
  {
    hide Overwritten, OverwrittenFree, Released, TruncateFreed, DeleteFreed, Sought, ReadPast, InTable;
  }

  lemma SpliceAt(was: seq<byte>, p: nat, data: seq<byte>)
    requires p <= |was|
    ensures |Splice(was, p, data)| >= p + |data| && Splice(was, p, data)[p..p + |data|] == data
  {
  }

  /** What a write has written in full is read back from there, after any run of operations on other files, and all of
      that is permitted. */
  lemma WrittenIsRead(g: Geometry, s: Store, id: nat, data: seq<byte>, ops: seq<Op>)
    requires Sound(g, s) && id in s.files && 0 < |data| && s.files[id].position + |data| < WRAP32
    requires AnswerTo(g, s, WriteTo(id, data)) == Written(|data|)
    requires s.files[id].position % SECTOR_SIZE + |data| <= 10001 * 512
    requires forall k :: 0 <= k < |ops| ==> !Names(ops[k], id)
    ensures Sound(g, After(g, s, WriteTo(id, data)))
    ensures var s1 := AfterAll(g, After(g, s, WriteTo(id, data)), ops);
            && Enabled(s1, SeekTo(id, s.files[id].position))
            && AnswerTo(g, s1, SeekTo(id, s.files[id].position)) == Code(SUCCESS)
            && var s2 := After(g, s1, SeekTo(id, s.files[id].position));
               Sound(g, s2) && Enabled(s2, ReadFrom(id, |data|)) && AnswerTo(g, s2, ReadFrom(id, |data|)) == Data(data)
  {
    hide AfterAll, Overwritten, OverwrittenFree, InTable, Capacity, WrittenCount, SeekCode, Sought, ReadBytes;
    AfterSound(g, s, WriteTo(id, data));
    var f := s.files[id];
    var w := After(g, s, WriteTo(id, data));
    OthersUntouched(g, w, ops, id);
    AfterSound(g, AfterAll(g, w, ops), SeekTo(id, f.position));
    ReadBack(g, s.free, f, data);
  }

  lemma ReadBack(g: Geometry, free: set<nat>, f: FileState, data: seq<byte>)
    requires g.Wf() && SoundFile(g, f) && 0 < |data| == WrittenCount(g, free, f, data)
    requires f.position + |data| < WRAP32 && f.position % SECTOR_SIZE + |data| <= 10001 * 512
    ensures var w := Overwritten(g, free, f, data);
            && w.exact && SeekCode(g, w, f.position) == SUCCESS
            && var x := Sought(g, w, f.position);
               x.exact && x.ready && x.position <= |x.bytes| && ReadBytes(x, |data|) == data
  {
    hide Added, PreparedFree, Splice, InTable, Capacity, WrittenCount;
    PreparedSound(g, free, f, data);
    OverwrittenSound(g, free, f, data);
    assert data[..|data|] == data;
    SpliceAt(Prepared(f).bytes, f.position, data);
  }

  /** What a write leaves, byte by byte of its bookkeeping: a file that has been written to since it was opened, a write
      behind the start, or an empty file keep all clusters and all bytes that are not overwritten; else the data are the
      whole file.  As much is written as the clusters of the file and the free ones hold. */
  lemma WriteLaw(g: Geometry, s: Store, id: nat, data: seq<byte>)
    requires Sound(g, s) && id in s.files
    ensures AnswerTo(g, s, WriteTo(id, data)).Written? && id in After(g, s, WriteTo(id, data)).files
    ensures var f, f', n := s.files[id], After(g, s, WriteTo(id, data)).files[id], AnswerTo(g, s, WriteTo(id, data)).n;
            && n <= |data| && f'.position == f.position + n && (f'.written <==> f.written || f.position == 0)
            && (f.written || f.position > 0 || f.bytes == [] ==>
                  && f'.bytes == Splice(f.bytes, f.position, data[..n]) && f.clusters <= f'.clusters
                  && (n == |data| <==>
                        f.position + |data| <= (|f.clusters| + |s.free|) * (g.sectorsPerCluster * SECTOR_SIZE)))
            && (!f.written && f.position == 0 && f.bytes != [] ==>
                  f'.bytes == data[..n] && f'.clusters != [] && f'.clusters[0] == f.clusters[0])
  {
    hide PreparedFree, OverwrittenFree, InTable, Capacity, Added, Splice;
    var f := s.files[id];
    PreparedSound(g, s.free, f, data);
    SpliceIntoEmpty(data[..WrittenCount(g, s.free, f, data)]);
    CapacityIs(g, |f.clusters| + |s.free|);
    NothingReleased(g, s.free, f);
  }

  lemma NothingReleased(g: Geometry, free: set<nat>, f: FileState)
    requires g.Wf() && f.clusters != []
    ensures f.written || f.position > 0 || f.bytes == [] ==> PreparedFree(g, free, f) == free
  {
  }

  /** A splice, part by part. */
  lemma SpliceParts(was: seq<byte>, p: nat, data: seq<byte>)
    requires p <= |was|
    ensures var r := Splice(was, p, data);
            && |r| == (if p + |data| <= |was| then |was| else p + |data|)
            && r[..p] == was[..p] && r[p..p + |data|] == data
            && (p + |data| <= |was| ==> r[p + |data|..] == was[p + |data|..])
  {
  }

  /** A write, a seek to p and a further write, each of them in full.  The second write goes over the bytes of the first
      one, unless it empties the file: at the start of a file that has not been written to at its start. */
  lemma WriteOver(g: Geometry, s: Store, id: nat, data: seq<byte>, p: u32, more: seq<byte>)
    requires Sound(g, s) && id in s.files && data != [] && AnswerTo(g, s, WriteTo(id, data)) == Written(|data|)
    requires Sound(g, After(g, s, WriteTo(id, data))) && p <= |After(g, s, WriteTo(id, data)).files[id].bytes|
    requires Sound(g, After(g, After(g, s, WriteTo(id, data)), SeekTo(id, p)))
    requires AnswerTo(g, After(g, After(g, s, WriteTo(id, data)), SeekTo(id, p)), WriteTo(id, more)) == Written(|more|)
    ensures var f := s.files[id];
            var first := if f.written || f.position > 0 || f.bytes == [] then Splice(f.bytes, f.position, data)
                         else data;
            var s3 := After(g, After(g, After(g, s, WriteTo(id, data)), SeekTo(id, p)), WriteTo(id, more));
            && id in s3.files && p <= |first|
            && s3.files[id].bytes == if f.written || f.position == 0 || p > 0 then Splice(first, p, more) else more
  {
    hide Overwritten, OverwrittenFree, Splice, SeekCode, InTable, Capacity, WrittenCount;
    WriteLaw(g, s, id, data);
    var s1 := After(g, s, WriteTo(id, data));
    var s2 := After(g, s1, SeekTo(id, p));
    WriteLaw(g, s2, id, more);
    assert data[..|data|] == data && more[..|more|] == more;
    FirstNotEmpty(s.files[id], data);
  }

  lemma FirstNotEmpty(f: FileState, data: seq<byte>)
    requires f.position <= |f.bytes| && data != []
    ensures Splice(f.bytes, f.position, data) != []
  {
    SpliceParts(f.bytes, f.position, data);
  }

  /** In particular: what a new file holds after a write, a seek to its start and a shorter write is the second data
      followed by the rest of the first. */
  lemma NewFileWriteOver(g: Geometry, s: Store, id: nat, data: seq<byte>, more: seq<byte>)
    requires Sound(g, s) && id in s.files && s.files[id].bytes == [] && s.files[id].position == 0
    requires data != [] && |more| <= |data| && AnswerTo(g, s, WriteTo(id, data)) == Written(|data|)
    requires Sound(g, After(g, s, WriteTo(id, data)))
    requires Sound(g, After(g, After(g, s, WriteTo(id, data)), SeekTo(id, 0)))
    requires AnswerTo(g, After(g, After(g, s, WriteTo(id, data)), SeekTo(id, 0)), WriteTo(id, more)) == Written(|more|)
    ensures var s3 := After(g, After(g, After(g, s, WriteTo(id, data)), SeekTo(id, 0)), WriteTo(id, more));
            id in s3.files && s3.files[id].bytes == more + data[|more|..]
  {
    hide After, AnswerTo, Sound;
    WriteOver(g, s, id, data, 0, more);
    SpliceIntoEmpty(data);
    SpliceParts(data, 0, more);
  }

  /** A file without bytes is ready. */
  ghost predicate EmptyReady(s: Store) {
    forall id :: id in s.files && s.files[id].bytes == [] ==> s.files[id].ready
  }

  /** This holds in every run, because a write to a ready file writes something. */
  lemma {:induction false} RunKeepsEmptyReady(g: Geometry, s: Store, ops: seq<Op>)
    requires Sound(g, s) && EmptyReady(s)
    ensures EmptyReady(AfterAll(g, s, ops))
    decreases |ops|
  {
    hide After, EmptyReady;
    if ops != [] {
      AfterSound(g, s, ops[0]);
      StepKeepsEmptyReady(g, s, ops[0]);
      RunKeepsEmptyReady(g, After(g, s, ops[0]), ops[1..]);
    }
  }

  lemma StepKeepsEmptyReady(g: Geometry, s: Store, op: Op)
    requires Sound(g, s) && EmptyReady(s)
    ensures EmptyReady(After(g, s, op))
  {
    hide OverwrittenFree, Released, TruncateFreed, DeleteFreed, InTable, Overwritten;
    if op.WriteTo? && op.id in s.files {
      WritesSomething(g, s.free, s.files[op.id], op.data);
    }
  }

  lemma WritesSomething(g: Geometry, free: set<nat>, f: FileState, data: seq<byte>)
    requires g.Wf() && SoundFile(g, f)
    ensures Overwritten(g, free, f, data).bytes == [] ==> Overwritten(g, free, f, data).ready
  {
    hide InTable, PreparedFree, Added, Capacity, Splice;
    PreparedSound(g, free, f, data);
    var b, n := Prepared(f), WrittenCount(g, free, f, data);
    SpliceLength(b.bytes, f.position, data[..n]);
    CapacityAdd(g, 0, |b.clusters| + |PreparedFree(g, free, f)|);
  }

  /** When a file can be written to after a seek: at every position up to its end, except at the very end of a file that
      fills its last cluster. */
  lemma SeekThenWrite(g: Geometry, s: Store, id: nat, t: u32, data: seq<byte>)
    requires Sound(g, s) && EmptyReady(s) && id in s.files && s.files[id].exact && t <= |s.files[id].bytes|
    ensures Permitted(g, s, [SeekTo(id, t), WriteTo(id, data)]) <==> t < Capacity(g, |s.files[id].clusters|)
  {
    hide Capacity, InTable;
    CapacityAdd(g, 0, |s.files[id].clusters|);
    PermittedTwo(g, s, SeekTo(id, t), WriteTo(id, data));
  }

  lemma PermittedTwo(g: Geometry, s: Store, a: Op, b: Op)
    requires Sound(g, s)
    ensures Sound(g, After(g, s, a)) && (Permitted(g, s, [a, b]) <==> Enabled(s, a) && Enabled(After(g, s, a), b))
  {
    hide After, Enabled;
    AfterSound(g, s, a);
    assert [a, b][1..] == [b];
    PermittedOne(g, After(g, s, a), b);
  }

  lemma PermittedOne(g: Geometry, s: Store, op: Op)
    requires Sound(g, s)
    ensures Permitted(g, s, [op]) <==> Enabled(s, op)
  {
    hide After, Enabled;
    AfterSound(g, s, op);
    assert [op][1..] == [];
  }

  /** After a write, a seek to any position up to the end makes the next write possible, except at the very end of a
      file that fills its last cluster. */
  lemma WriteSeekWrite(g: Geometry, s: Store, id: nat, data: seq<byte>, t: u32, more: seq<byte>)
    requires Sound(g, s) && EmptyReady(s) && id in s.files && Enabled(s, WriteTo(id, data))
    requires var f := Overwritten(g, s.free, s.files[id], data); f.exact && t <= |f.bytes|
    ensures Permitted(g, s, [WriteTo(id, data), SeekTo(id, t), WriteTo(id, more)]) <==>
              t < Capacity(g, |Overwritten(g, s.free, s.files[id], data).clusters|)
  {
    hide Overwritten, OverwrittenFree, Capacity, InTable, EmptyReady;
    var w := WriteTo(id, data);
    AfterSound(g, s, w);
    StepKeepsEmptyReady(g, s, w);
    SeekThenWrite(g, After(g, s, w), id, t, more);
    var ops := [w, SeekTo(id, t), WriteTo(id, more)];
    assert ops[1..] == [SeekTo(id, t), WriteTo(id, more)];
  }

  /** Without a seek, two writes may follow each other exactly if the first one does not end on a sector boundary. */
  lemma WriteThenWrite(g: Geometry, s: Store, id: nat, data: seq<byte>, more: seq<byte>)
    requires Sound(g, s) && id in s.files && Enabled(s, WriteTo(id, data))
    requires s.files[id].position + WrittenCount(g, s.free, s.files[id], data) < WRAP32
    ensures Permitted(g, s, [WriteTo(id, data), WriteTo(id, more)]) <==>
              data == [] || (s.files[id].position + WrittenCount(g, s.free, s.files[id], data)) % SECTOR_SIZE != 0
  {
    hide OverwrittenFree, Capacity, InTable, WrittenCount, Splice, Added;
    PermittedTwo(g, s, WriteTo(id, data), WriteTo(id, more));
  }

  // ----- The volume -----

  /** The values of a handle. */
  datatype Cell = Cell(position: u32, size: u32, offset: nat, extent: nat, isOpen: bool, truncated: bool,
                       firstCluster: nat, currentCluster: nat, sectorInCluster: nat, buffer: seq<byte>)

  ghost function CellOf(f: OpenFile): Cell
    reads f, f.buffer
  {
    Cell(f.position, f.size, f.offset, f.extent, f.isOpen, f.truncated, f.firstCluster, f.currentCluster,
         f.sectorInCluster, f.buffer[..])
  }

  /** The free clusters that the search can find. */
  ghost function Free(g: Geometry, d: seq<Sector>): set<nat>
    requires OnDisk(g, d)
  {
    SearchFree(Fat(g, d), g.MaxClusters())
  }

  /** A handle and the disk give the file as its user sees it. */
  ghost predicate Holds(g: Geometry, d: seq<Sector>, f: Cell, s: FileState) {
    var chain := s.clusters;
    && OnDisk(g, d) && IsChain(g.kind, Fat(g, d), chain) && ClustersIn(g, chain) && LayoutOn(d, Layout(g, chain))
    && f.isOpen && f.firstCluster == chain[0] && f.extent <= |Layout(g, chain)| * SECTOR_SIZE
    && |f.buffer| == SECTOR_SIZE
    && f.position == Low32(f.offset) && (f.extent < WRAP32 ==> f.size == f.extent)
    && s.bytes == Content(d, Layout(g, chain), f.extent) && s.position == f.offset <= f.extent
    && s.written == f.truncated
    && (s.exact ==> f.position == f.offset && f.size == f.extent) && (s.ready ==> AtPosition(g, d, f, chain))
  }

  ghost predicate AtPosition(g: Geometry, d: seq<Sector>, f: Cell, chain: seq<nat>)
    requires OnDisk(g, d) && ClustersIn(g, chain) && LayoutOn(d, Layout(g, chain))
  {
    var s := f.offset / SECTOR_SIZE;
    && s < |Layout(g, chain)| && InSector(g, f, chain, s)
    && BufferHolds(d, Layout(g, chain), f.extent, s, f.buffer)
  }

  ghost predicate InSector(g: Geometry, f: Cell, chain: seq<nat>, s: nat)
    requires g.sectorsPerCluster > 0
  {
    var k := s / g.sectorsPerCluster;
    k < |chain| && f.currentCluster == chain[k] && f.sectorInCluster == s % g.sectorsPerCluster
  }

  /** The same, in terms of open files. */
  ghost predicate Tied(v: Volume, f: OpenFile, s: FileState)
    reads v, v.disk, v.cache, f, f.buffer
  {
    && Open(v, f, s.clusters) && s.bytes == Bytes(v, f, s.clusters) && s.position == f.offset <= f.extent
    && s.written == f.truncated && (s.exact ==> InStep(f)) && (s.ready ==> Coherent(v, f, s.clusters))
  }

  lemma TiedHolds(v: Volume, f: OpenFile, s: FileState)
    requires v.Valid() && CacheSafe(v.geo) && f.buffer != v.cache
    ensures Tied(v, f, s) <==> Holds(v.geo, v.disk[..], CellOf(f), s)
  {
    hide Fat, CacheAgrees, Layout, IsChain, InTable, Content, LayoutOn, BufferHolds, Low32, CacheSafe;
  }

  lemma HeldChain(g: Geometry, d: seq<Sector>, f: Cell, s: FileState)
    requires Holds(g, d, f, s)
    ensures OnDisk(g, d) && IsChain(g.kind, Fat(g, d), s.clusters) && ClustersIn(g, s.clusters) && SoundFile(g, s)
    ensures |Layout(g, s.clusters)| * SECTOR_SIZE == Capacity(g, |s.clusters|)
  {
    hide Fat, InTable, LayoutOn, BufferHolds, Low32, AtPosition;
    LayoutLength(g, s.clusters);
    hide Layout;
  }

  /** What keeps a file keeps its handle. */
  lemma HoldsStill(g: Geometry, d0: seq<Sector>, d: seq<Sector>, f: Cell, s: FileState, other: seq<nat>)
    requires Holds(g, d0, f, s) && OtherKept(g, d0, d, other, s.clusters)
    ensures Holds(g, d, f, s) && Disjoint(other, s.clusters)
  {
    hide Fat, Layout, IsChain, InTable, Content, LayoutOn, Low32, Disjoint, BufferHolds;
    if s.ready {
      BufferKept(d0, d, Layout(g, s.clusters), f.extent, f.offset / SECTOR_SIZE, f.buffer);
    }
  }

  lemma BufferKept(d0: seq<Sector>, d: seq<Sector>, layout: seq<nat>, size: nat, s: nat, buf: seq<byte>)
    requires LayoutOn(d0, layout) && LayoutOn(d, layout) && s < |layout| && size <= |layout| * SECTOR_SIZE
    requires BufferHolds(d0, layout, size, s, buf) && Content(d, layout, size) == Content(d0, layout, size)
    ensures BufferHolds(d, layout, size, s, buf)
  {
    forall j | 0 <= j < SECTOR_SIZE && s * SECTOR_SIZE + j < size ensures buf[j] == d[layout[s]][j] {
      DivModUnique(s * SECTOR_SIZE + j, SECTOR_SIZE, s, j);
      assert Content(d, layout, size)[s * SECTOR_SIZE + j] == Content(d0, layout, size)[s * SECTOR_SIZE + j];
    }
  }

  /** An operation on one file keeps every other one. */
  ghost predicate Keeps(g: Geometry, d0: seq<Sector>, d: seq<Sector>, chain: seq<nat>, chain': seq<nat>)
    requires OnDisk(g, d0)
  {
    forall other :: IsChain(g.kind, Fat(g, d0), other) && Disjoint(chain, other) ==> OtherKept(g, d0, d, chain', other)
  }

  /** Truncating a file keeps every other file. */
  lemma CutKeeps(g: Geometry, d0: seq<Sector>, d: seq<Sector>, chain: seq<nat>)
    requires OnDisk(g, d0) && OnDisk(g, d) && IsChain(g.kind, Fat(g, d0), chain)
    requires Fat(g, d) == TruncateFat(g.kind, Fat(g, d0), chain) && OnlyTouches(g, d0, d, [])
    ensures Keeps(g, d0, d, chain, [chain[0]])
  {
    hide Fat, Layout, OtherKept, InTable, TruncateFat, OnlyTouches;
    forall other | IsChain(g.kind, Fat(g, d0), other) && Disjoint(chain, other)
      ensures OtherKept(g, d0, d, [chain[0]], other)
    {
      TruncateKeepsOther(g.kind, Fat(g, d0), chain, other);
      assert chain[0] in chain;
      TouchesMore(g, d0, d, [], Layout(g, [chain[0]]));
      OtherKeptBy(g, d0, d, [chain[0]], other);
    }
  }

  /** Nothing happens to any file when the disk does not change. */
  lemma SameDiskKeeps(g: Geometry, d: seq<Sector>, chain: seq<nat>)
    requires OnDisk(g, d) && ClustersIn(g, chain)
    ensures Keeps(g, d, d, chain, chain)
  {
    hide Fat, Layout, OtherKept, InTable, IsChain, Disjoint;
    NothingTouched(g, d);
    TouchesMore(g, d, d, [], Layout(g, chain));
    forall other | IsChain(g.kind, Fat(g, d), other) && Disjoint(chain, other)
      ensures OtherKept(g, d, d, chain, other)
    {
      OtherKeptBy(g, d, d, chain, other);
    }
  }

  /** Writing to a file keeps every other file. */
  lemma WriteKeeps(g: Geometry, d0: seq<Sector>, d1: seq<Sector>, d: seq<Sector>, chain: seq<nat>, base: seq<nat>,
                   chain': seq<nat>)
    requires OnDisk(g, d0) && OnDisk(g, d1) && OnlyTouches(g, d0, d1, []) && Progress(g, d1, base, d, chain')
    requires IsChain(g.kind, Fat(g, d0), chain)
    requires (base == chain && Fat(g, d1) == Fat(g, d0)) ||
      (base == [chain[0]] && Fat(g, d1) == TruncateFat(g.kind, Fat(g, d0), chain))
    ensures Keeps(g, d0, d, chain, chain')
  {
    hide OtherKept, Disjoint, Fat, Progress, IsChain, TruncateFat, OnlyTouches, OnDisk;
    forall other | IsChain(g.kind, Fat(g, d0), other) && Disjoint(chain, other)
      ensures OtherKept(g, d0, d, chain', other)
    {
      WriteKeepsOtherFile(g, d0, d1, d, chain, base, chain', other);
    }
  }

  /** Deleting a file keeps every other file. */
  lemma DeleteKeeps(g: Geometry, d0: seq<Sector>, d: seq<Sector>, chain: seq<nat>)
    requires OnDisk(g, d0) && OnDisk(g, d) && IsChain(g.kind, Fat(g, d0), chain)
    requires Fat(g, d) == DeleteFat(g.kind, Fat(g, d0), chain)
    requires ClustersIn(g, DeleteFreed(chain)) && ZeroedData(g, d0, d, Layout(g, DeleteFreed(chain)))
    ensures Keeps(g, d0, d, chain, DeleteFreed(chain))
  {
    hide Fat, Layout, OtherKept, Reach, Clear, InTable;
    forall other | IsChain(g.kind, Fat(g, d0), other) && Disjoint(chain, other)
      ensures OtherKept(g, d0, d, DeleteFreed(chain), other)
    {
      ClearKeepsOthers(g.kind, Fat(g, d0), chain, DeleteFreed(chain), other);
      OtherKeptBy(g, d0, d, DeleteFreed(chain), other);
    }
  }

  /** Creating a file, or failing to, keeps every file. */
  lemma CreateKeeps(g: Geometry, d0: seq<Sector>, d: seq<Sector>, c: nat)
    requires OnDisk(g, d0) && OnDisk(g, d) && OnlyTouches(g, d0, d, [])
    requires c == 0 ==> Fat(g, d) == Fat(g, d0)
    requires c != 0 ==> 2 <= c < ClusterLimit(g) && Fat(g, d0)[c] == 0 && Fat(g, d) == CreateFat(g.kind, Fat(g, d0), c)
    ensures Keeps(g, d0, d, [], if c == 0 then [] else [c])
  {
    hide Fat, Layout, OtherKept, InTable, IsChain, OnlyTouches;
    forall other | IsChain(g.kind, Fat(g, d0), other)
      ensures OtherKept(g, d0, d, if c == 0 then [] else [c], other)
    {
      if c == 0 {
        TouchesMore(g, d0, d, [], Layout(g, []));
        OtherKeptBy(g, d0, d, [], other);
      } else {
        CreateKeepsOther(g, d0, d, c, other);
      }
    }
  }

  // ----- The clusters -----

  lemma ReleasedBy(fat: seq<nat>, cs: seq<nat>, limit: nat)
    requires forall i :: 0 <= i < |cs| ==> 2 <= cs[i] < |fat|
    ensures SearchFree(Clear(fat, cs), limit) == SearchFree(fat, limit) + set c | c in cs && c < limit
  {
    hide Clear;
  }

  lemma CutFrees(g: Geometry, fat: seq<nat>, chain: seq<nat>)
    requires g.Wf() && SoundTable(g.kind, fat) && IsChain(g.kind, fat, chain)
    ensures SearchFree(TruncateFat(g.kind, fat, chain), g.MaxClusters()) ==
              Released(g, SearchFree(fat, g.MaxClusters()), TruncateFreed(g.kind, chain))
  {
    hide Clear, Reach, InTable;
    var cs := TruncateFreed(g.kind, chain);
    assert forall i :: 0 <= i < |cs| ==> cs[i] == chain[1 + i];
    ReleasedBy(fat, cs, g.MaxClusters());
    FirstNotFreed(g.kind, fat, chain);
    ChainNotFree(g.kind, fat, chain, 0);
    hide IsChain, TruncateFreed;
  }

  lemma DeleteFrees(g: Geometry, fat: seq<nat>, chain: seq<nat>)
    requires g.Wf() && IsChain(g.kind, fat, chain)
    ensures SearchFree(DeleteFat(g.kind, fat, chain), g.MaxClusters()) ==
              Released(g, SearchFree(fat, g.MaxClusters()), DeleteFreed(chain))
  {
    hide Clear, Reach, InTable;
    var cs := DeleteFreed(chain);
    assert forall i :: 0 <= i < |cs| ==> cs[i] == chain[i];
    ReleasedBy(fat, cs, g.MaxClusters());
  }

  /** A write takes the clusters that its bytes need, and no more. */
  lemma WriteTakes(g: Geometry, d1: seq<Sector>, base: seq<nat>, d: seq<Sector>, chain: seq<nat>, s: FileState, o: nat)
    requires Progress(g, d1, base, d, chain) && Tight(g, base, chain, o) && o <= Capacity(g, |chain|)
    requires s.clusters == base
    ensures chain == base + Added(g, Free(g, d1), s, o)
    ensures Free(g, d) == Free(g, d1) - Elements(Added(g, Free(g, d1), s, o))
  {
    hide Fat, OnlyTouches, Mirrored, SearchFree, Take, Capacity, ClustersFor, InTable, Elements;
    ClustersForExact(g, o, |chain|);
    if |base| < |chain| {
      ClustersForExact(g, o, |chain| - 1);
    }
    AdvancedPrefix(g, Fat(g, d1), base, Fat(g, d), chain);
  }

  lemma AdvancedPrefix(g: Geometry, fat: seq<nat>, base: seq<nat>, fat': seq<nat>, chain: seq<nat>)
    requires g.Wf() && Advanced(g, fat, base, fat', chain)
    ensures |base| <= |chain| && chain == base + chain[|base|..]
  {
    hide IsChain;
  }

  // ----- The operations on one file -----

  method WriteHeld(v: Volume, f: OpenFile, data: seq<byte>, ghost s: FileState) returns (n: nat)
    requires v.Valid() && CacheSafe(v.geo) && f.buffer != v.cache
    requires Holds(v.geo, v.disk[..], CellOf(f), s) && SoundFile(v.geo, s) && s.exact && s.ready
    modifies v`cachePos, v.cache, v.disk, f, f.buffer
    ensures v.Valid() && n == WrittenCount(v.geo, old(Free(v.geo, v.disk[..])), s, data)
    ensures Holds(v.geo, v.disk[..], CellOf(f), Overwritten(v.geo, old(Free(v.geo, v.disk[..])), s, data))
    ensures Free(v.geo, v.disk[..]) == OverwrittenFree(v.geo, old(Free(v.geo, v.disk[..])), s, data)
    ensures Keeps(v.geo, old(v.disk[..]), v.disk[..], s.clusters,
                  Overwritten(v.geo, old(Free(v.geo, v.disk[..])), s, data).clusters)
  {
    hide Fat, CacheAgrees, Layout, IsChain, Content, LayoutOn, Progress, OnlyTouches, Splice, BufferHolds, CursorAt,
         TruncateFat, Holds, CacheSafe, CellOf, Keeps, Free, Capacity, Overwritten, OverwrittenFree, WrittenCount,
         Low32, InTable, Room, Tight, Mirrored, FreeSet, LastTwo;
    TiedHolds(v, f, s);
    ghost var d0, free := v.disk[..], Free(v.geo, v.disk[..]);
    ghost var d1, base, chain;
    n, d1, base, chain := FatFiles.Write(v, f, data, s.clusters);
    WriteKeeps(v.geo, d0, d1, v.disk[..], s.clusters, base, chain);
    Wrote(v.geo, d0, d1, base, v.disk[..], chain, s, data, n, f.extent);
    OverwrittenIs(v.geo, free, s, data);
    TiedHolds(v, f, Overwritten(v.geo, free, s, data));
  }

  lemma OverwrittenIs(g: Geometry, free: set<nat>, f: FileState, data: seq<byte>)
    requires g.Wf() && SoundFile(g, f)
    ensures var r, n := Overwritten(g, free, f, data), WrittenCount(g, free, f, data);
            && r.bytes == Splice(if AutoTruncates(f.written, |f.bytes|, f.position) then [] else f.bytes,
                                 f.position, data[..n])
            && r.position == f.position + n && (r.written <==> f.written || f.position == 0)
            && (r.exact <==> f.position + n < WRAP32)
            && (r.ready <==> |data| == 0 || (f.position + n) % SECTOR_SIZE != 0)
  {
    hide Splice, WrittenCount, Added, PreparedFree, Capacity, InTable;
  }

  /** The clusters and the number of bytes of a write, from what the write loop has done. */
  lemma Wrote(g: Geometry, d0: seq<Sector>, d1: seq<Sector>, base: seq<nat>, d: seq<Sector>, chain: seq<nat>,
              s: FileState, data: seq<byte>, n: nat, extent: nat)
    requires OnDisk(g, d0) && OnDisk(g, d1) && IsChain(g.kind, Fat(g, d0), s.clusters) && SoundFile(g, s)
    requires base == Prepared(s).clusters
    requires Fat(g, d1) == if AutoTruncates(s.written, |s.bytes|, s.position)
                           then TruncateFat(g.kind, Fat(g, d0), s.clusters) else Fat(g, d0)
    requires Progress(g, d1, base, d, chain) && Tight(g, base, chain, s.position + n)
    requires s.position + n <= extent <= |Layout(g, chain)| * SECTOR_SIZE && s.position <= Room(g, d1, base)
    requires n == Min(|data|, Room(g, d1, base) - s.position)
    ensures n == WrittenCount(g, Free(g, d0), s, data)
    ensures chain == Overwritten(g, Free(g, d0), s, data).clusters
    ensures Free(g, d) == OverwrittenFree(g, Free(g, d0), s, data)
  {
    hide Fat, Layout, IsChain, TruncateFat, SearchFree, Capacity, Added, Released, InTable, Splice, Tight, Advanced,
         OnlyTouches, Mirrored;
    PreparedFrees(g, d0, d1, s);
    LayoutLength(g, chain);
    CapacityOf(g, chain);
    WriteTakes(g, d1, base, d, chain, Prepared(s), s.position + n);
  }

  lemma CapacityOf(g: Geometry, chain: seq<nat>)
    requires ClustersIn(g, chain)
    ensures |Layout(g, chain)| * SECTOR_SIZE == Capacity(g, |chain|)
  {
    hide Layout, InTable;
    LayoutLength(g, chain);
  }

  lemma PreparedFrees(g: Geometry, d0: seq<Sector>, d1: seq<Sector>, s: FileState)
    requires OnDisk(g, d0) && OnDisk(g, d1) && IsChain(g.kind, Fat(g, d0), s.clusters)
    requires Fat(g, d1) == if AutoTruncates(s.written, |s.bytes|, s.position)
                           then TruncateFat(g.kind, Fat(g, d0), s.clusters) else Fat(g, d0)
    ensures s.clusters != [] && Free(g, d1) == PreparedFree(g, Free(g, d0), s)
  {
    hide Fat, IsChain, TruncateFat, SearchFree, Released, InTable;
    ChainIn(g, g.kind, Fat(g, d0), s.clusters);
    CutFrees(g, Fat(g, d0), s.clusters);
  }

  method SeekHeld(v: Volume, f: OpenFile, t: u32, ghost s: FileState) returns (code: int)
    requires v.Valid() && CacheSafe(v.geo) && f.buffer != v.cache
    requires Holds(v.geo, v.disk[..], CellOf(f), s) && s.exact
    modifies v`cachePos, v.cache, f, f.buffer
    ensures v.Valid() && code == SeekCode(v.geo, s, t)
    ensures Holds(v.geo, v.disk[..], CellOf(f), Sought(v.geo, s, t))
    ensures Keeps(v.geo, old(v.disk[..]), v.disk[..], s.clusters, s.clusters)
  {
    hide Fat, CacheAgrees, Layout, IsChain, Content, LayoutOn, BufferHolds, CursorAt, Holds, CacheSafe, CellOf, Keeps,
         Capacity, InTable, Low32;
    TiedHolds(v, f, s);
    code := FatFiles.Seek(v, f, t, s.clusters);
    CapacityOf(v.geo, s.clusters);
    SectorBelow(t, |Layout(v.geo, s.clusters)|);
    TiedHolds(v, f, Sought(v.geo, s, t));
    SameDiskKeeps(v.geo, v.disk[..], s.clusters);
  }

  lemma SectorBelow(t: nat, n: nat)
    ensures t / SECTOR_SIZE < n <==> t < n * SECTOR_SIZE
  {
    DivLess(t, n, SECTOR_SIZE);
  }

  method ReadHeld(v: Volume, f: OpenFile, n: nat, ghost s: FileState) returns (bytes: seq<byte>)
    requires v.Valid() && CacheSafe(v.geo) && f.buffer != v.cache && SoundFile(v.geo, s)
    requires Holds(v.geo, v.disk[..], CellOf(f), s) && s.exact && (s.position < |s.bytes| ==> s.ready)
    modifies v`cachePos, v.cache, f, f.buffer
    ensures v.Valid() && bytes == ReadBytes(s, n) && Holds(v.geo, v.disk[..], CellOf(f), ReadPast(v.geo, s, n))
    ensures Keeps(v.geo, old(v.disk[..]), v.disk[..], s.clusters, s.clusters)
  {
    hide Fat, CacheAgrees, Layout, IsChain, Content, LayoutOn, BufferHolds, CursorAt, Holds, CacheSafe, CellOf, Keeps,
         Capacity, InTable, Low32;
    TiedHolds(v, f, s);
    bytes := FatFiles.Read(v, f, n, s.clusters);
    CapacityOf(v.geo, s.clusters);
    TiedHolds(v, f, ReadPast(v.geo, s, n));
    SameDiskKeeps(v.geo, v.disk[..], s.clusters);
  }

  method CutHeld(v: Volume, f: OpenFile, ghost s: FileState) returns (code: int)
    requires v.Valid() && CacheSafe(v.geo) && f.buffer != v.cache && SoundFile(v.geo, s)
    requires Holds(v.geo, v.disk[..], CellOf(f), s)
    modifies v`cachePos, v.cache, v.disk, f, f.buffer
    ensures v.Valid() && code == SUCCESS && Holds(v.geo, v.disk[..], CellOf(f), Emptied(s))
    ensures Free(v.geo, v.disk[..]) ==
              Released(v.geo, old(Free(v.geo, v.disk[..])), TruncateFreed(v.geo.kind, s.clusters))
    ensures Keeps(v.geo, old(v.disk[..]), v.disk[..], s.clusters, Emptied(s).clusters)
  {
    hide Fat, CacheAgrees, Layout, Content, LayoutOn, BufferHolds, CursorAt, Holds, CacheSafe, CellOf, Keeps,
         OnlyTouches, Mirrored, TruncateFat, SearchFree, Released, TruncateFreed, Capacity, InTable;
    TiedHolds(v, f, s);
    ghost var d0 := v.disk[..];
    code := FatFiles.Truncate(v, f, s.clusters);
    TiedHolds(v, f, Emptied(s));
    CutKeeps(v.geo, d0, v.disk[..], s.clusters);
    CutFrees(v.geo, Fat(v.geo, d0), s.clusters);
  }

  method DeleteHeld(v: Volume, f: OpenFile, ghost s: FileState)
    requires v.Valid() && CacheSafe(v.geo) && Holds(v.geo, v.disk[..], CellOf(f), s)
    modifies v`cachePos, v.cache, v.disk
    ensures v.Valid() && Keeps(v.geo, old(v.disk[..]), v.disk[..], s.clusters, DeleteFreed(s.clusters))
    ensures Free(v.geo, v.disk[..]) == Released(v.geo, old(Free(v.geo, v.disk[..])), DeleteFreed(s.clusters))
  {
    hide Fat, CacheAgrees, Layout, IsChain, Content, LayoutOn, BufferHolds, CacheSafe, Keeps, DeleteFat, DeleteFreed,
         ZeroedData, Mirrored, ClustersIn, SearchFree, Released, InTable;
    ghost var d0 := v.disk[..];
    DeleteChain(v, f.firstCluster, s.clusters);
    DeleteKeeps(v.geo, d0, v.disk[..], s.clusters);
    DeleteFrees(v.geo, Fat(v.geo, d0), s.clusters);
  }

  ghost function NewState(c: nat): FileState {
    FileState([], 0, false, true, true, [c])
  }

  /** Creates a file, unless no cluster is free. */
  method CreateHeld(v: Volume) returns (f: OpenFile?)
    requires v.Valid() && CacheSafe(v.geo)
    modifies v`cachePos, v.cache, v.disk
    ensures v.Valid() && (f == null <==> old(Free(v.geo, v.disk[..])) == {})
    ensures f == null ==> Free(v.geo, v.disk[..]) == {} && Keeps(v.geo, old(v.disk[..]), v.disk[..], [], [])
    ensures f != null ==> fresh(f) && fresh(f.buffer) && f.buffer != v.cache
    ensures f != null ==>
      var c := Least(old(Free(v.geo, v.disk[..])));
      && Free(v.geo, v.disk[..]) == old(Free(v.geo, v.disk[..])) - {c}
      && Keeps(v.geo, old(v.disk[..]), v.disk[..], [], [c]) && Holds(v.geo, v.disk[..], CellOf(f), NewState(c))
  {
    hide Fat, CacheAgrees, Layout, IsChain, Content, LayoutOn, BufferHolds, CacheSafe, Keeps, Mirrored, OnlyTouches,
         Holds, FreeSet, CursorAt, LowestFree, SearchFree, InTable, LastTwo;
    ghost var d0 := v.disk[..];
    CreationFails(v.geo, Fat(v.geo, d0));
    f := CreateFile(v);
    CreateKeeps(v.geo, d0, v.disk[..], if f == null then 0 else f.firstCluster);
    if f != null {
      CreateTakes(v.geo, Fat(v.geo, d0), f.firstCluster);
      TiedHolds(v, f, NewState(f.firstCluster));
    }
  }

  lemma CreationFails(g: Geometry, fat: seq<nat>)
    requires g.Wf() && |fat| == ClusterLimit(g)
    ensures SearchFree(fat, g.MaxClusters()) == {} <==> FreeSet(fat) <= LastTwo(g)
  {
    hide LowestFree, InTable;
    SearchMissesTwo(g, fat);
    LowestIsLeast(fat, g.MaxClusters());
  }

  lemma CreateTakes(g: Geometry, fat: seq<nat>, c: nat)
    requires g.Wf() && |fat| == ClusterLimit(g) && c == LowestFree(fat, 2, g.MaxClusters()) != 0
    ensures var free := SearchFree(fat, g.MaxClusters());
            && free != {} && c == Least(free) && c < |fat|
            && SearchFree(CreateFat(g.kind, fat, c), g.MaxClusters()) == free - {c}
  {
    hide LowestFree, InTable;
    LowestIsLeast(fat, g.MaxClusters());
  }

  // ----- All files of a volume -----

  /** The handles and the disk give the files as their users see them, and no two files share a cluster. */
  ghost predicate Consistent(g: Geometry, d: seq<Sector>, cells: map<nat, Cell>, s: Store) {
    && OnDisk(g, d) && cells.Keys == s.files.Keys && s.free == Free(g, d)
    && (forall i :: i in cells ==> i < s.next && Holds(g, d, cells[i], s.files[i]))
    && (forall i, j :: i in cells && j in cells && i != j ==> Disjoint(s.files[i].clusters, s.files[j].clusters))
  }

  /** All files but one are kept. */
  ghost predicate OthersKept(g: Geometry, d0: seq<Sector>, d: seq<Sector>, s: Store, id: nat, chain: seq<nat>) {
    forall j :: j in s.files && j != id ==> OtherKept(g, d0, d, chain, s.files[j].clusters)
  }

  lemma ConsistentAt(g: Geometry, d: seq<Sector>, cells: map<nat, Cell>, s: Store, id: nat)
    requires Consistent(g, d, cells, s)
    ensures cells.Keys == s.files.Keys && OnDisk(g, d) && s.free == Free(g, d)
    ensures id in cells ==> Holds(g, d, cells[id], s.files[id]) && SoundFile(g, s.files[id])
  {
    if id in cells {
      HeldChain(g, d, cells[id], s.files[id]);
    }
  }

  lemma ConsistentSound(g: Geometry, d: seq<Sector>, cells: map<nat, Cell>, s: Store)
    requires Consistent(g, d, cells, s)
    ensures Sound(g, s)
  {
    hide Holds, Disjoint, SoundFile, InTable;
    forall i | i in s.files ensures SoundFile(g, s.files[i]) {
      HeldChain(g, d, cells[i], s.files[i]);
    }
  }

  /** One file changes, or is new, and the others are kept. */
  lemma ConsistentStep(g: Geometry, d0: seq<Sector>, d: seq<Sector>, cells: map<nat, Cell>, s: Store, id: nat,
                       cell: Cell, f: FileState, next: nat)
    requires Consistent(g, d0, cells, s) && OthersKept(g, d0, d, s, id, f.clusters) && Holds(g, d, cell, f)
    requires s.next <= next && id < next
    ensures OnDisk(g, d) && Consistent(g, d, cells[id := cell], Store(s.files[id := f], Free(g, d), next))
  {
    hide Holds, OtherKept, Disjoint, InTable;
    HeldChain(g, d, cell, f);
    forall j | j in cells && j != id
      ensures Holds(g, d, cells[j], s.files[j])
      ensures Disjoint(f.clusters, s.files[j].clusters) && Disjoint(s.files[j].clusters, f.clusters)
    {
      HoldsStill(g, d0, d, cells[j], s.files[j], f.clusters);
      DisjointBoth(f.clusters, s.files[j].clusters);
    }
  }

  lemma DisjointBoth(a: seq<nat>, b: seq<nat>)
    requires Disjoint(a, b)
    ensures Disjoint(b, a)
  {
  }

  /** One file is gone, and the others are kept. */
  lemma ConsistentWithout(g: Geometry, d0: seq<Sector>, d: seq<Sector>, cells: map<nat, Cell>, s: Store, id: nat,
                          chain: seq<nat>)
    requires Consistent(g, d0, cells, s) && OthersKept(g, d0, d, s, id, chain) && OnDisk(g, d)
    ensures Consistent(g, d, cells - {id}, Store(s.files - {id}, Free(g, d), s.next))
  {
    hide Holds, OtherKept, Disjoint, InTable;
    forall j | j in cells && j != id ensures Holds(g, d, cells[j], s.files[j]) {
      HoldsStill(g, d0, d, cells[j], s.files[j], chain);
    }
  }

  lemma KeepsAll(g: Geometry, d0: seq<Sector>, d: seq<Sector>, cells: map<nat, Cell>, s: Store, id: nat,
                 chain: seq<nat>)
    requires Consistent(g, d0, cells, s) && id in cells && Keeps(g, d0, d, s.files[id].clusters, chain)
    ensures OthersKept(g, d0, d, s, id, chain)
  {
    hide Holds, OtherKept, Disjoint, Fat, IsChain, OnDisk;
    forall j | j in s.files && j != id ensures OtherKept(g, d0, d, chain, s.files[j].clusters) {
      HeldChain(g, d0, cells[j], s.files[j]);
    }
  }

  lemma KeepsOld(g: Geometry, d0: seq<Sector>, d: seq<Sector>, cells: map<nat, Cell>, s: Store, id: nat,
                 chain: seq<nat>)
    requires Consistent(g, d0, cells, s) && Keeps(g, d0, d, [], chain)
    ensures OthersKept(g, d0, d, s, id, chain)
  {
    hide Holds, OtherKept, Fat, IsChain, OnDisk;
    forall j | j in s.files && j != id ensures OtherKept(g, d0, d, chain, s.files[j].clusters) {
      HeldChain(g, d0, cells[j], s.files[j]);
    }
  }

  class FileSystem {
    const v: Volume
    var handles: map<nat, OpenFile>
    var nextId: nat
    ghost var store: Store
    ghost var repr: set<object>

    /** No two files share a handle or a buffer. */
    ghost predicate Apart()
      reads this`handles, this`nextId, this`repr, repr
    {
      && this !in repr && v in repr && v.disk in repr && v.cache in repr
      && (forall i :: i in handles ==>
            i < nextId && handles[i] in repr && handles[i].buffer in repr && handles[i].buffer != v.cache)
      && forall i, j :: i in handles && j in handles && i != j ==>
           handles[i] != handles[j] && handles[i].buffer != handles[j].buffer
    }

    ghost function Cells(): (cells: map<nat, Cell>)
      requires Apart()
      reads this`handles, this`nextId, this`repr, repr
    {
      map i | i in handles :: CellOf(handles[i])
    }

    ghost predicate Valid()
      reads this, repr
    {
      && Apart() && v.Valid() && CacheSafe(v.geo) && store.next == nextId
      && Sound(v.geo, store) && Consistent(v.geo, v.disk[..], Cells(), store)
    }

    /** An operation on one file changes the values of no other handle. */
    twostate lemma OneCell(id: nat)
      requires old(Apart()) && old(id in handles) && handles == old(handles) && repr == old(repr)
      requires nextId == old(nextId)
      requires forall j :: j in handles && j != id ==> unchanged(handles[j]) && unchanged(handles[j].buffer)
      ensures Apart() && Cells() == old(Cells())[id := CellOf(handles[id])]
    {
    }

    constructor (v: Volume)
      requires v.Valid() && CacheSafe(v.geo)
      ensures Valid() && this.v == v && repr == {v, v.disk, v.cache}
      ensures store == Store(map[], Free(v.geo, v.disk[..]), 0)
    {
      this.v, handles, nextId := v, map[], 0;
      store, repr := Store(map[], Free(v.geo, v.disk[..]), 0), {v, v.disk, v.cache};
    }

    /** One file has changed or is new, and the others are kept. */
    ghost method Settle(id: nat, f: FileState, d0: seq<Sector>, cells: map<nat, Cell>)
      requires this !in repr && Apart() && v.Valid() && CacheSafe(v.geo) && store.next <= nextId && id < nextId
      requires id in handles && Cells() == cells[id := CellOf(handles[id])]
      requires Consistent(v.geo, d0, cells, store) && OthersKept(v.geo, d0, v.disk[..], store, id, f.clusters)
      requires Holds(v.geo, v.disk[..], CellOf(handles[id]), f)
      modifies this`store
      ensures Valid() && store == Store(old(store.files)[id := f], Free(v.geo, v.disk[..]), nextId)
    {
      hide Holds, OthersKept, Consistent, CacheAgrees, CacheSafe, Apart, Cells, CellOf, Free, Sound;
      ConsistentStep(v.geo, d0, v.disk[..], cells, store, id, CellOf(handles[id]), f, nextId);
      store := Store(store.files[id := f], Free(v.geo, v.disk[..]), nextId);
      ConsistentSound(v.geo, v.disk[..], Cells(), store);
    }

    /** Records what an operation has done to one file. */
    ghost method Record(id: nat, f: FileState, d0: seq<Sector>, cells: map<nat, Cell>)
      requires this !in repr && Apart() && v.Valid() && CacheSafe(v.geo) && store.next == nextId && id < nextId
      requires id in handles && Cells() == cells[id := CellOf(handles[id])]
      requires Consistent(v.geo, d0, cells, store) && id in cells
      requires Keeps(v.geo, d0, v.disk[..], store.files[id].clusters, f.clusters)
      requires Holds(v.geo, v.disk[..], CellOf(handles[id]), f)
      modifies this`store
      ensures Valid() && store == Store(old(store.files)[id := f], Free(v.geo, v.disk[..]), nextId)
    {
      hide Holds, OthersKept, Keeps, Consistent, CacheAgrees, CacheSafe, Apart, Cells, CellOf, Free, Sound;
      KeepsAll(v.geo, d0, v.disk[..], cells, store, id, f.clusters);
      Settle(id, f, d0, cells);
    }

    lemma Roots()
      requires Apart()
      ensures this !in repr && v in repr && v.disk in repr && v.cache in repr
    {
    }

    lemma Owned(id: nat)
      requires Apart() && id in handles
      ensures this !in repr && v in repr && v.disk in repr && v.cache in repr
      ensures handles[id] in repr && handles[id].buffer in repr
      ensures id in Cells() && Cells()[id] == CellOf(handles[id])
    {
    }

    lemma Distinct(id: nat)
      requires Apart() && id in handles
      ensures handles[id].buffer != v.cache
      ensures forall j :: j in handles && j != id ==>
                && handles[j] != handles[id] && handles[j].buffer != handles[id].buffer && handles[j].buffer != v.cache
    {
    }

    method WriteCell(id: nat, data: seq<byte>, ghost s: FileState) returns (n: nat)
      requires Apart() && v.Valid() && CacheSafe(v.geo) && id in handles && SoundFile(v.geo, s)
      requires Holds(v.geo, v.disk[..], CellOf(handles[id]), s)
      requires s.exact && s.ready
      modifies v`cachePos, v.cache, v.disk, handles[id], handles[id].buffer
      ensures Apart() && Cells() == old(Cells())[id := CellOf(handles[id])]
      ensures v.Valid() && n == WrittenCount(v.geo, old(Free(v.geo, v.disk[..])), s, data)
      ensures Holds(v.geo, v.disk[..], CellOf(handles[id]), Overwritten(v.geo, old(Free(v.geo, v.disk[..])), s, data))
      ensures Free(v.geo, v.disk[..]) == OverwrittenFree(v.geo, old(Free(v.geo, v.disk[..])), s, data)
      ensures Keeps(v.geo, old(v.disk[..]), v.disk[..], s.clusters,
                    Overwritten(v.geo, old(Free(v.geo, v.disk[..])), s, data).clusters)
    {
      hide Holds, Keeps, CacheAgrees, CellOf, CacheSafe, Geometry.Wf, Apart, Cells, Free, OnDisk;
      Distinct(id);
      n := WriteHeld(v, handles[id], data, s);
      OneCell(id);
    }

    method SeekCell(id: nat, t: u32, ghost s: FileState) returns (code: int)
      requires Apart() && v.Valid() && CacheSafe(v.geo) && id in handles && SoundFile(v.geo, s)
      requires Holds(v.geo, v.disk[..], CellOf(handles[id]), s) && s.exact
      modifies v`cachePos, v.cache, handles[id], handles[id].buffer
      ensures Apart() && Cells() == old(Cells())[id := CellOf(handles[id])]
      ensures v.Valid() && code == SeekCode(v.geo, s, t)
      ensures Holds(v.geo, v.disk[..], CellOf(handles[id]), Sought(v.geo, s, t))
      ensures Keeps(v.geo, old(v.disk[..]), v.disk[..], s.clusters, s.clusters)
    {
      hide Holds, Keeps, CacheAgrees, CellOf, CacheSafe, Geometry.Wf, Apart, Cells, Free, OnDisk;
      Distinct(id);
      code := SeekHeld(v, handles[id], t, s);
      OneCell(id);
    }

    method ReadCell(id: nat, n: nat, ghost s: FileState) returns (bytes: seq<byte>)
      requires Apart() && v.Valid() && CacheSafe(v.geo) && id in handles && SoundFile(v.geo, s)
      requires Holds(v.geo, v.disk[..], CellOf(handles[id]), s)
      requires s.exact && (s.position < |s.bytes| ==> s.ready)
      modifies v`cachePos, v.cache, handles[id], handles[id].buffer
      ensures Apart() && Cells() == old(Cells())[id := CellOf(handles[id])]
      ensures v.Valid() && bytes == ReadBytes(s, n)
      ensures Holds(v.geo, v.disk[..], CellOf(handles[id]), ReadPast(v.geo, s, n))
      ensures Keeps(v.geo, old(v.disk[..]), v.disk[..], s.clusters, s.clusters)
    {
      hide Holds, Keeps, CacheAgrees, CellOf, CacheSafe, Geometry.Wf, Apart, Cells, Free, OnDisk;
      Distinct(id);
      bytes := ReadHeld(v, handles[id], n, s);
      OneCell(id);
    }

    method CutCell(id: nat, ghost s: FileState) returns (code: int)
      requires Apart() && v.Valid() && CacheSafe(v.geo) && id in handles && SoundFile(v.geo, s)
      requires Holds(v.geo, v.disk[..], CellOf(handles[id]), s)
      modifies v`cachePos, v.cache, v.disk, handles[id], handles[id].buffer
      ensures Apart() && Cells() == old(Cells())[id := CellOf(handles[id])]
      ensures v.Valid() && code == SUCCESS && Holds(v.geo, v.disk[..], CellOf(handles[id]), Emptied(s))
      ensures Free(v.geo, v.disk[..]) ==
        Released(v.geo, old(Free(v.geo, v.disk[..])), TruncateFreed(v.geo.kind, s.clusters))
      ensures Keeps(v.geo, old(v.disk[..]), v.disk[..], s.clusters, Emptied(s).clusters)
    {
      hide Holds, Keeps, CacheAgrees, CellOf, CacheSafe, Geometry.Wf, Apart, Cells, Free, OnDisk;
      Distinct(id);
      code := CutHeld(v, handles[id], s);
      OneCell(id);
    }

    lemma ValidFacts()
      requires Valid()
      ensures Sound(v.geo, store) && store.files.Keys == handles.Keys && store.next == nextId
    {
      hide Holds, Fat;
    }

    method WriteKnown(id: nat, data: seq<byte>) returns (n: nat)
      requires Valid() && id in store.files && store.files[id].exact && store.files[id].ready
      modifies this`store, repr
      ensures Valid() && repr == old(repr) && n == WrittenCount(v.geo, old(store.free), old(store.files[id]), data)
      ensures store == Store(old(store.files)[id := Overwritten(v.geo, old(store.free), old(store.files[id]), data)],
                             OverwrittenFree(v.geo, old(store.free), old(store.files[id]), data), old(store.next))
    {
      hide Holds, OthersKept, Keeps, CacheAgrees, CellOf, CacheSafe, Geometry.Wf, Apart, Cells, Overwritten,
           OverwrittenFree, Sought, ReadPast, Emptied, Released, SeekCode, ReadBytes, Consistent, OnDisk, Free,
           Volume.Valid, WrittenCount, SoundFile;
      ValidFacts();
      Owned(id);
      ConsistentAt(v.geo, v.disk[..], Cells(), store, id);
      ghost var d0, cells := v.disk[..], Cells();
      n := WriteCell(id, data, store.files[id]);
      Record(id, Overwritten(v.geo, store.free, store.files[id], data), d0, cells);
    }

    method Write(id: nat, data: seq<byte>) returns (a: Answer)
      requires Valid() && Enabled(store, WriteTo(id, data))
      modifies this`store, repr
      ensures Valid() && repr == old(repr) && Sound(v.geo, old(store))
      ensures a == AnswerTo(v.geo, old(store), WriteTo(id, data))
      ensures store == After(v.geo, old(store), WriteTo(id, data))
    {
      hide Valid, Overwritten, OverwrittenFree, Sought, ReadPast, Emptied, Released, SeekCode, ReadBytes, WrittenCount,
           SoundFile;
      ValidFacts();
      if id !in handles {
        return Refused;
      }
      var n := WriteKnown(id, data);
      a := Written(n);
    }

    method SeekKnown(id: nat, t: u32) returns (code: int)
      requires Valid() && id in store.files && store.files[id].exact
      modifies this`store, repr
      ensures Valid() && repr == old(repr) && code == SeekCode(v.geo, old(store.files[id]), t)
      ensures store == Store(old(store.files)[id := Sought(v.geo, old(store.files[id]), t)], old(store.free),
                             old(store.next))
    {
      hide Holds, OthersKept, Keeps, CacheAgrees, CellOf, CacheSafe, Geometry.Wf, Apart, Cells, Overwritten,
           OverwrittenFree, Sought, ReadPast, Emptied, Released, SeekCode, ReadBytes, Consistent, OnDisk, Free,
           Volume.Valid, WrittenCount, SoundFile;
      ValidFacts();
      Owned(id);
      ConsistentAt(v.geo, v.disk[..], Cells(), store, id);
      ghost var d0, cells := v.disk[..], Cells();
      code := SeekCell(id, t, store.files[id]);
      Record(id, Sought(v.geo, store.files[id], t), d0, cells);
    }

    method Seek(id: nat, t: u32) returns (a: Answer)
      requires Valid() && Enabled(store, SeekTo(id, t))
      modifies this`store, repr
      ensures Valid() && repr == old(repr) && Sound(v.geo, old(store))
      ensures a == AnswerTo(v.geo, old(store), SeekTo(id, t)) && store == After(v.geo, old(store), SeekTo(id, t))
    {
      hide Valid, Overwritten, OverwrittenFree, Sought, ReadPast, Emptied, Released, SeekCode, ReadBytes, WrittenCount,
           SoundFile;
      ValidFacts();
      if id !in handles {
        return Refused;
      }
      var code := SeekKnown(id, t);
      a := Code(code);
    }

    method ReadKnown(id: nat, n: nat) returns (bytes: seq<byte>)
      requires Valid() && id in store.files
      requires store.files[id].exact && (store.files[id].position < |store.files[id].bytes| ==> store.files[id].ready)
      modifies this`store, repr
      ensures Valid() && repr == old(repr) && bytes == ReadBytes(old(store.files[id]), n)
      ensures store == Store(old(store.files)[id := ReadPast(v.geo, old(store.files[id]), n)], old(store.free),
                             old(store.next))
    {
      hide Holds, OthersKept, Keeps, CacheAgrees, CellOf, CacheSafe, Geometry.Wf, Apart, Cells, Overwritten,
           OverwrittenFree, Sought, ReadPast, Emptied, Released, SeekCode, ReadBytes, Consistent, OnDisk, Free,
           Volume.Valid, WrittenCount, SoundFile;
      ValidFacts();
      Owned(id);
      ConsistentAt(v.geo, v.disk[..], Cells(), store, id);
      ghost var d0, cells := v.disk[..], Cells();
      bytes := ReadCell(id, n, store.files[id]);
      Record(id, ReadPast(v.geo, store.files[id], n), d0, cells);
    }

    method Read(id: nat, n: nat) returns (a: Answer)
      requires Valid() && Enabled(store, ReadFrom(id, n))
      modifies this`store, repr
      ensures Valid() && repr == old(repr) && Sound(v.geo, old(store))
      ensures a == AnswerTo(v.geo, old(store), ReadFrom(id, n)) && store == After(v.geo, old(store), ReadFrom(id, n))
    {
      hide Valid, Overwritten, OverwrittenFree, Sought, ReadPast, Emptied, Released, SeekCode, ReadBytes, WrittenCount,
           SoundFile;
      ValidFacts();
      if id !in handles {
        return Refused;
      }
      var bytes := ReadKnown(id, n);
      a := Data(bytes);
    }

    method TruncateKnown(id: nat) returns (code: int)
      requires Valid() && id in store.files
      modifies this`store, repr
      ensures Valid() && repr == old(repr) && code == SUCCESS
      ensures store == Store(old(store.files)[id := Emptied(old(store.files[id]))],
                             Released(v.geo, old(store.free), TruncateFreed(v.geo.kind, old(store.files[id]).clusters)),
                             old(store.next))
    {
      hide Holds, OthersKept, Keeps, CacheAgrees, CellOf, CacheSafe, Geometry.Wf, Apart, Cells, Overwritten,
           OverwrittenFree, Sought, ReadPast, Emptied, Released, SeekCode, ReadBytes, Consistent, OnDisk, Free,
           Volume.Valid, WrittenCount, SoundFile;
      ValidFacts();
      Owned(id);
      ConsistentAt(v.geo, v.disk[..], Cells(), store, id);
      ghost var d0, cells := v.disk[..], Cells();
      code := CutCell(id, store.files[id]);
      Record(id, Emptied(store.files[id]), d0, cells);
    }

    method Truncate(id: nat) returns (a: Answer)
      requires Valid() && Enabled(store, Cut(id))
      modifies this`store, repr
      ensures Valid() && repr == old(repr) && Sound(v.geo, old(store))
      ensures a == AnswerTo(v.geo, old(store), Cut(id)) && store == After(v.geo, old(store), Cut(id))
    {
      hide Valid, Overwritten, OverwrittenFree, Sought, ReadPast, Emptied, Released, SeekCode, ReadBytes, WrittenCount,
           SoundFile;
      ValidFacts();
      if id !in handles {
        return Refused;
      }
      var code := TruncateKnown(id);
      a := Code(code);
    }

    // ----- Deletion -----

    /** Without the handle of one file. */
    twostate lemma NoCell(id: nat)
      requires old(Apart()) && handles == old(handles) - {id} && repr == old(repr) && nextId == old(nextId)
      requires forall j :: j in handles ==> unchanged(handles[j]) && unchanged(handles[j].buffer)
      ensures Apart() && Cells() == old(Cells()) - {id}
    {
    }

    ghost method Forget(id: nat, chain: seq<nat>, d0: seq<Sector>, cells: map<nat, Cell>)
      requires this !in repr && Apart() && v.Valid() && CacheSafe(v.geo) && store.next == nextId
      requires Cells() == cells - {id}
      requires Consistent(v.geo, d0, cells, store) && OthersKept(v.geo, d0, v.disk[..], store, id, chain)
      modifies this`store
      ensures Valid() && store == Store(old(store.files) - {id}, Free(v.geo, v.disk[..]), nextId)
    {
      hide Holds, OthersKept, Consistent, CacheAgrees, CacheSafe, Apart, Cells, CellOf, Free, Sound;
      ConsistentWithout(v.geo, d0, v.disk[..], cells, store, id, chain);
      store := Store(store.files - {id}, Free(v.geo, v.disk[..]), nextId);
      ConsistentSound(v.geo, v.disk[..], Cells(), store);
    }

    method DeleteCell(id: nat, ghost s: FileState)
      requires Apart() && this !in repr && v.Valid() && CacheSafe(v.geo) && id in handles
      requires Holds(v.geo, v.disk[..], CellOf(handles[id]), s)
      modifies v`cachePos, v.cache, v.disk, this`handles
      ensures Apart() && Cells() == old(Cells()) - {id}
      ensures v.Valid() && Keeps(v.geo, old(v.disk[..]), v.disk[..], s.clusters, DeleteFreed(s.clusters))
      ensures Free(v.geo, v.disk[..]) == Released(v.geo, old(Free(v.geo, v.disk[..])), DeleteFreed(s.clusters))
    {
      hide Holds, Keeps, CacheAgrees, CellOf, CacheSafe, Geometry.Wf, Cells, Free, Released, DeleteFreed;
      DeleteHeld(v, handles[id], s);
      handles := handles - {id};
      NoCell(id);
    }

    method DeleteKnown(id: nat)
      requires Valid() && id in store.files
      modifies this`store, this`handles, repr
      ensures Valid() && repr == old(repr)
      ensures store == Store(old(store.files) - {id},
                             Released(v.geo, old(store.free), DeleteFreed(old(store.files[id]).clusters)),
                             old(store.next))
    {
      hide Holds, OthersKept, Keeps, CacheAgrees, CellOf, CacheSafe, Geometry.Wf, Apart, Cells, Consistent, OnDisk,
           Free, Volume.Valid, DeleteFreed, Released, SoundFile;
      ValidFacts();
      Owned(id);
      ConsistentAt(v.geo, v.disk[..], Cells(), store, id);
      ghost var d0, cells, chain := v.disk[..], Cells(), store.files[id].clusters;
      DeleteCell(id, store.files[id]);
      KeepsAll(v.geo, d0, v.disk[..], cells, store, id, DeleteFreed(chain));
      Forget(id, DeleteFreed(chain), d0, cells);
    }

    /** Deletes a file that nobody has open any more. */
    method Delete(id: nat) returns (a: Answer)
      requires Valid()
      modifies this`store, this`handles, repr
      ensures Valid() && repr == old(repr) && Sound(v.geo, old(store))
      ensures a == AnswerTo(v.geo, old(store), Remove(id)) && store == After(v.geo, old(store), Remove(id))
    {
      hide Valid, Released, DeleteFreed, SoundFile;
      ValidFacts();
      if id !in handles {
        return Refused;
      }
      DeleteKnown(id);
      a := Code(SUCCESS);
    }

    // ----- Creation -----

    twostate lemma SameCells()
      requires old(Apart()) && handles == old(handles) && repr == old(repr) && nextId == old(nextId)
      requires forall j :: j in handles ==> unchanged(handles[j]) && unchanged(handles[j].buffer)
      ensures Apart() && Cells() == old(Cells())
    {
    }

    method Attach(f: OpenFile) returns (id: nat)
      requires Apart() && f !in repr && f.buffer !in repr && f.buffer != v.cache
      modifies this`handles, this`nextId, this`repr
      ensures id == old(nextId) && nextId == id + 1 && handles == old(handles)[id := f]
      ensures repr == old(repr) + {f, f.buffer}
      ensures id !in old(handles)
      ensures Apart() && Cells() == old(Cells())[id := CellOf(f)]
    {
      hide CellOf;
      id := nextId;
      handles, nextId, repr := handles[id := f], nextId + 1, repr + {f, f.buffer};
      NewCell(id);
    }

    twostate lemma NewCell(id: nat)
      requires old(Apart()) && id == old(nextId) && nextId == id + 1 && id in handles
      requires handles == old(handles)[id := handles[id]]
      requires var f := handles[id];
               f !in old(repr) && f.buffer !in old(repr) && f.buffer != v.cache && repr == old(repr) + {f, f.buffer}
      requires forall o :: o in old(repr) ==> unchanged(o)
      ensures Apart() && Cells() == old(Cells())[id := CellOf(handles[id])]
    {
    }

    method CreateCell() returns (created: bool, id: nat)
      requires Apart() && v.Valid() && CacheSafe(v.geo)
      modifies v`cachePos, v.cache, v.disk, this`handles, this`nextId, this`repr
      ensures Apart() && v.Valid() && old(repr) <= repr && fresh(repr - old(repr))
      ensures id == old(nextId) && id !in old(Cells()) && (created <==> old(Free(v.geo, v.disk[..])) != {})
      ensures !created ==> Cells() == old(Cells()) && nextId == id && Free(v.geo, v.disk[..]) == {}
      ensures !created ==> Keeps(v.geo, old(v.disk[..]), v.disk[..], [], [])
      ensures created ==> id in handles && Cells() == old(Cells())[id := CellOf(handles[id])] && nextId == id + 1
      ensures created ==>
        var c := Least(old(Free(v.geo, v.disk[..])));
        && Free(v.geo, v.disk[..]) == old(Free(v.geo, v.disk[..])) - {c}
        && Keeps(v.geo, old(v.disk[..]), v.disk[..], [], [c])
        && Holds(v.geo, v.disk[..], CellOf(handles[id]), NewState(c))
    {
      hide Holds, Keeps, CacheAgrees, CellOf, CacheSafe, Geometry.Wf, Free, NewState;
      id := nextId;
      var f := CreateHeld(v);
      SameCells();
      if f == null {
        return false, id;
      }
      id := Attach(f);
      created := true;
    }

    /** Creates a file; this fails exactly if no cluster is free. */
    method Create() returns (a: Answer)
      requires Valid()
      modifies this, repr
      ensures Valid() && fresh(repr - old(repr)) && Sound(v.geo, old(store))
      ensures a == AnswerTo(v.geo, old(store), NewFile) && store == After(v.geo, old(store), NewFile)
    {
      hide Holds, OthersKept, Keeps, CacheAgrees, CellOf, CacheSafe, Geometry.Wf, Apart, Cells, Consistent, OnDisk,
           Free, Volume.Valid, SoundFile;
      ValidFacts();
      Roots();
      ghost var d0, cells := v.disk[..], Cells();
      ConsistentAt(v.geo, d0, cells, store, 0);
      var created, id := CreateCell();
      Roots();
      if created {
        ghost var c := Least(store.free);
        KeepsOld(v.geo, d0, v.disk[..], cells, store, id, [c]);
        Settle(id, NewState(c), d0, cells);
        a := Created(id);
      } else {
        KeepsOld(v.geo, d0, v.disk[..], cells, store, id, []);
        assert cells - {id} == cells && store.files - {id} == store.files;
        Forget(id, [], d0, cells);
        a := Full;
      }
    }

    // ----- Runs -----

    method Perform(op: Op) returns (a: Answer)
      requires Valid() && Enabled(store, op)
      modifies this, repr
      ensures Valid() && fresh(repr - old(repr)) && Sound(v.geo, old(store))
      ensures a == AnswerTo(v.geo, old(store), op) && store == After(v.geo, old(store), op)
    {
      hide Valid, AnswerTo, After, Enabled;
      match op
      case NewFile => a := Create();
      case WriteTo(id, data) => a := Write(id, data);
      case SeekTo(id, t) => a := Seek(id, t);
      case ReadFrom(id, n) => a := Read(id, n);
      case Cut(id) => a := Truncate(id);
      case Remove(id) => a := Delete(id);
    }

    /** Any permitted sequence of operations gives the answers, and leaves the files and the free clusters, that the
        operations on the map from files to bytes give. */
    method Execute(ops: seq<Op>) returns (answers: seq<Answer>)
      requires Valid() && Permitted(v.geo, store, ops)
      modifies this, repr
      ensures Valid() && fresh(repr - old(repr)) && Sound(v.geo, old(store))
      ensures answers == AnswersTo(v.geo, old(store), ops) && store == AfterAll(v.geo, old(store), ops)
      decreases |ops|
    {
      hide Valid, AnswerTo, After, Enabled;
      ValidFacts();
      if ops == [] {
        return [];
      }
      var a := Perform(ops[0]);
      var rest := Execute(ops[1..]);
      answers := [a] + rest;
    }
  }
}
