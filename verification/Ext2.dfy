/** The ext2 reader of the boot loader: the classic block map of an inode, and reads through it. */
module Ext2 {
  import opened Common
  import opened Arith
  import opened Words

  const NDIR_BLOCKS: nat := 12
  const IND_BLOCK: nat := 12
  const DIND_BLOCK: nat := 13
  const INODE_BLOCK_OFF: nat := 40
  const INODE_SIZE: nat := 128

  /** A mounted file system: the number of pointers that fit into a block, and its blocks. */
  datatype Fs = Fs(perBlock: nat, blocks: seq<seq<byte>>) {
    ghost predicate Valid() {
      && (perBlock == 256 || perBlock == 512 || perBlock == 1024)
      && forall b :: 0 <= b < |blocks| ==> |blocks[b]| == BlockSize()
    }

    function BlockSize(): nat {
      4 * perBlock
    }
  }

  /** Block pointer i of an inode. */
  function Pointer(inode: seq<byte>, i: nat): nat
    requires |inode| == INODE_SIZE && i < 15
  {
    ReadWord(inode, INODE_BLOCK_OFF + 4 * i)
  }

  /** The pointers lie from byte 40 of the inode on, four bytes each, the lowest byte first. */
  lemma PointerBytes(inode: seq<byte>, i: nat)
    requires |inode| == INODE_SIZE && i < 15
    ensures Pointer(inode, i) == (inode[40 + 4 * i] as int) + 256 * (inode[41 + 4 * i] as int) +
                                 65536 * (inode[42 + 4 * i] as int) + 16777216 * (inode[43 + 4 * i] as int)
  {
  }

  // ----- As the code looks a block up -----

  /** Word i of block b; 0 when the block cannot be read. */
  function WordOf(fs: Fs, b: nat, i: nat): nat
    requires fs.Valid() && i < fs.perBlock
  {
    if b < |fs.blocks| then ReadWord(fs.blocks[b], 4 * i) else 0
  }

  /** A pointer in the tree below a double indirect block. */
  function FindDouble(fs: Fs, b: nat, i: nat): nat
    requires fs.Valid() && i < fs.perBlock * fs.perBlock
  {
    IndexSplit(i, fs.perBlock);
    if b >= |fs.blocks| then 0
    else
      var child := WordOf(fs, b, i / fs.perBlock);
      if child == 0 then 0 else WordOf(fs, child, i % fs.perBlock)
  }

  lemma IndexSplit(i: nat, p: nat)
    requires 0 < p && i < p * p
    ensures i / p < p && i % p < p && i == i / p * p + i % p
  {
    DivMod(i, p);
    DivLess(i, p, p);
  }

  /** The number of blocks that an inode can address without triple indirection. */
  function Limit(fs: Fs): (n: nat)
  {
    if fs.perBlock == 256 then 65_804 else if fs.perBlock == 512 then 262_668 else 1_049_612
  }

  lemma LimitIs(fs: Fs)
    requires fs.Valid()
    ensures Limit(fs) == NDIR_BLOCKS + fs.perBlock + fs.perBlock * fs.perBlock
  {
  }

  /** The disk block that holds block n of a file; 0 for a hole. */
  function GetBlock(fs: Fs, inode: seq<byte>, n: nat): nat
    requires fs.Valid() && |inode| == INODE_SIZE && n < Limit(fs)
  {
    var p := fs.perBlock;
    LimitIs(fs);
    if n < NDIR_BLOCKS then Pointer(inode, n)
    else if n < NDIR_BLOCKS + p then WordOf(fs, Pointer(inode, IND_BLOCK), n - NDIR_BLOCKS)
    else FindDouble(fs, Pointer(inode, DIND_BLOCK), n - NDIR_BLOCKS - p)
  }

  // ----- The block list -----

  function Zeros(n: nat): (z: seq<nat>)
    ensures |z| == n && forall i :: 0 <= i < n ==> z[i] == 0
  {
    if n == 0 then [] else Zeros(n - 1) + [0]
  }

  /** The first n words of block b. */
  function WordsOf(fs: Fs, b: nat, n: nat): (t: seq<nat>)
    requires fs.Valid() && n <= fs.perBlock
    ensures |t| == n && forall i :: 0 <= i < n ==> t[i] == WordOf(fs, b, i)
  {
    if n == 0 then [] else WordsOf(fs, b, n - 1) + [WordOf(fs, b, n - 1)]
  }

  /** The pointers in block b; a hole has none. */
  function Table(fs: Fs, b: nat): (t: seq<nat>)
    requires fs.Valid()
    ensures |t| == fs.perBlock
  {
    if b == 0 then Zeros(fs.perBlock) else WordsOf(fs, b, fs.perBlock)
  }

  /** The pointers in all the given blocks, one table after the other. */
  function Flatten(fs: Fs, bs: seq<nat>): (t: seq<nat>)
    requires fs.Valid()
    ensures |t| == |bs| * fs.perBlock
  {
    if bs == [] then []
    else
      MulSucc(|bs| - 1, fs.perBlock);
      Flatten(fs, bs[..|bs| - 1]) + Table(fs, bs[|bs| - 1])
  }

  function Direct(inode: seq<byte>, n: nat): (t: seq<nat>)
    requires |inode| == INODE_SIZE && n <= NDIR_BLOCKS
    ensures |t| == n && forall i :: 0 <= i < n ==> t[i] == Pointer(inode, i)
  {
    if n == 0 then [] else Direct(inode, n - 1) + [Pointer(inode, n - 1)]
  }

  /** All blocks of a file in order: the direct ones, those of the indirect block, those below the double indirect
      one. */
  function BlockList(fs: Fs, inode: seq<byte>): (t: seq<nat>)
    requires fs.Valid() && |inode| == INODE_SIZE
    ensures |t| == Limit(fs)
  {
    LimitIs(fs);
    Direct(inode, NDIR_BLOCKS) + Table(fs, Pointer(inode, IND_BLOCK)) +
      Flatten(fs, Table(fs, Pointer(inode, DIND_BLOCK)))
  }

  lemma {:induction false} FlattenAt(fs: Fs, bs: seq<nat>, c: nat, i: nat)
    requires fs.Valid() && c < |bs| && i < fs.perBlock
    ensures c * fs.perBlock + i < |bs| * fs.perBlock
    ensures Flatten(fs, bs)[c * fs.perBlock + i] == Table(fs, bs[c])[i]
    decreases |bs|
  {
    hide Table;
    var p := fs.perBlock;
    var n := |bs| - 1;
    MulMono(c + 1, |bs|, p);
    MulSucc(c, p);
    MulSucc(n, p);
    if c < n {
      FlattenAt(fs, bs[..n], c, i);
      assert bs[..n][c] == bs[c];
    }
    assert Flatten(fs, bs) == Flatten(fs, bs[..n]) + Table(fs, bs[n]);
  }

  lemma JoinAt(a: seq<nat>, b: seq<nat>, c: seq<nat>, n: nat)
    requires n < |a| + |b| + |c|
    ensures (a + b + c)[n] == if n < |a| then a[n] else if n < |a| + |b| then b[n - |a|] else c[n - |a| - |b|]
  {
  }

  /** Where an index falls in the block list. */
  lemma BlockListAt(fs: Fs, inode: seq<byte>, n: nat)
    requires fs.Valid() && |inode| == INODE_SIZE && n < Limit(fs)
    ensures var p := fs.perBlock;
            BlockList(fs, inode)[n] ==
              if n < NDIR_BLOCKS then Pointer(inode, n)
              else if n < NDIR_BLOCKS + p then Table(fs, Pointer(inode, IND_BLOCK))[n - NDIR_BLOCKS]
              else Flatten(fs, Table(fs, Pointer(inode, DIND_BLOCK)))[n - NDIR_BLOCKS - p]
  {
    LimitIs(fs);
    hide Table, Flatten, Pointer, Limit;
    JoinAt(Direct(inode, NDIR_BLOCKS), Table(fs, Pointer(inode, IND_BLOCK)),
           Flatten(fs, Table(fs, Pointer(inode, DIND_BLOCK))), n);
    hide Direct;
  }

  /** The inode has the indirect block that index n needs, if it needs one. */
  predicate HasTable(inode: seq<byte>, p: nat, n: nat)
    requires |inode| == INODE_SIZE
  {
    && (NDIR_BLOCKS <= n < NDIR_BLOCKS + p ==> Pointer(inode, IND_BLOCK) != 0)
    && (NDIR_BLOCKS + p <= n ==> Pointer(inode, DIND_BLOCK) != 0)
  }

  /** The lookup is indexing in the block list.  A missing indirect block is read as disk block 0, so the claim is for
      inodes that have the indirect block that the index needs. */
  lemma GetBlockIsIndexing(fs: Fs, inode: seq<byte>, n: nat)
    requires fs.Valid() && |inode| == INODE_SIZE && n < Limit(fs)
    requires HasTable(inode, fs.perBlock, n)
    ensures GetBlock(fs, inode, n) == BlockList(fs, inode)[n]
  {
    hide BlockList, Table, Flatten, Pointer, Limit, WordOf, FindDouble;
    LimitIs(fs);
    BlockListAt(fs, inode, n);
    var p := fs.perBlock;
    if NDIR_BLOCKS <= n < NDIR_BLOCKS + p {
      SingleAt(fs, Pointer(inode, IND_BLOCK), n - NDIR_BLOCKS);
    } else if NDIR_BLOCKS + p <= n {
      DoubleAt(fs, Pointer(inode, DIND_BLOCK), n - NDIR_BLOCKS - p);
    }
  }

  lemma SingleAt(fs: Fs, b: nat, i: nat)
    requires fs.Valid() && i < fs.perBlock && b != 0
    ensures WordOf(fs, b, i) == Table(fs, b)[i]
  {
    hide WordOf;
  }

  /** A pointer below the double indirect block is indexing in its flattened tables. */
  lemma DoubleAt(fs: Fs, d: nat, i: nat)
    requires fs.Valid() && i < fs.perBlock * fs.perBlock && d != 0
    ensures FindDouble(fs, d, i) == Flatten(fs, Table(fs, d))[i]
  {
    var p := fs.perBlock;
    IndexSplit(i, p);
    FlattenAt(fs, Table(fs, d), i / p, i % p);
    ChildAt(fs, d, i / p, i % p);
    hide Flatten, Table, WordOf;
  }

  lemma ChildAt(fs: Fs, d: nat, c: nat, k: nat)
    requires fs.Valid() && c < fs.perBlock && k < fs.perBlock && d != 0
    ensures var child := WordOf(fs, d, c);
            && (d >= |fs.blocks| ==> child == 0)
            && Table(fs, Table(fs, d)[c])[k] == if child == 0 then 0 else WordOf(fs, child, k)
  {
    SingleAt(fs, d, c);
    var child := WordOf(fs, d, c);
    if child != 0 {
      SingleAt(fs, child, k);
    }
  }

  /** An inode without an indirect block has no blocks there, but the lookup reads disk block 0 as a table of
      pointers. */
  lemma HoleReadAsTable(fs: Fs, inode: seq<byte>, n: nat)
    requires fs.Valid() && |inode| == INODE_SIZE && NDIR_BLOCKS <= n < NDIR_BLOCKS + fs.perBlock
    requires Pointer(inode, IND_BLOCK) == 0
    ensures n < Limit(fs) && BlockList(fs, inode)[n] == 0 && GetBlock(fs, inode, n) == WordOf(fs, 0, n - NDIR_BLOCKS)
  {
    hide Direct, Flatten, WordOf, BlockList;
    LimitIs(fs);
    BlockListAt(fs, inode, n);
  }

  /** An inode without a double indirect block: disk block 0 is read as the table of tables. */
  lemma DoubleHoleReadAsTable(fs: Fs, inode: seq<byte>, n: nat)
    requires fs.Valid() && |inode| == INODE_SIZE && NDIR_BLOCKS + fs.perBlock <= n < Limit(fs)
    requires Pointer(inode, DIND_BLOCK) == 0
    ensures n - NDIR_BLOCKS - fs.perBlock < fs.perBlock * fs.perBlock && BlockList(fs, inode)[n] == 0
    ensures GetBlock(fs, inode, n) == FindDouble(fs, 0, n - NDIR_BLOCKS - fs.perBlock)
  {
    hide Direct, Flatten, WordOf, BlockList, FindDouble, Zeros, Limit;
    LimitIs(fs);
    BlockListAt(fs, inode, n);
    HoleTables(fs, n - NDIR_BLOCKS - fs.perBlock);
  }

  /** The tables below a missing double indirect block hold no pointers. */
  lemma HoleTables(fs: Fs, i: nat)
    requires fs.Valid() && i < fs.perBlock * fs.perBlock
    ensures Flatten(fs, Table(fs, 0))[i] == 0
  {
    var p := fs.perBlock;
    IndexSplit(i, p);
    FlattenAt(fs, Zeros(p), i / p, i % p);
    hide Flatten, Zeros;
  }

  /** The lookup of index n is right on every disk with p pointers in a block. */
  ghost predicate LookupRight(inode: seq<byte>, p: nat, n: nat)
    requires |inode| == INODE_SIZE
  {
    forall fs: Fs | fs.Valid() && fs.perBlock == p && n < Limit(fs) :: GetBlock(fs, inode, n) == BlockList(fs, inode)[n]
  }

  /** A disk with two blocks of pointers, all of them 1. */
  function Ones(p: nat): Fs {
    var block: seq<byte> := seq(4 * p, i => if i % 4 == 0 then 1 else 0);
    Fs(p, [block, block])
  }

  lemma OnesAt(p: nat, b: nat, i: nat)
    requires p in {256, 512, 1024} && b < 2 && i < p
    ensures Ones(p).Valid() && WordOf(Ones(p), b, i) == 1
  {
  }

  lemma OnesFound(p: nat, i: nat)
    requires p in {256, 512, 1024} && i < p * p
    ensures Ones(p).Valid() && FindDouble(Ones(p), 0, i) == 1
  {
    hide WordOf;
    IndexSplit(i, p);
    OnesAt(p, 0, i / p);
    OnesAt(p, 1, i % p);
  }

  /** The lookup of an index is right on every disk if and only if the inode has the indirect block that it needs. */
  lemma LookupExact(inode: seq<byte>, p: nat, n: nat)
    requires |inode| == INODE_SIZE && p in {256, 512, 1024} && n < NDIR_BLOCKS + p + p * p
    ensures LookupRight(inode, p, n) <==> HasTable(inode, p, n)
  {
    hide GetBlock, BlockList, WordOf, FindDouble, Pointer, Limit, Ones;
    if HasTable(inode, p, n) {
      forall fs: Fs | fs.Valid() && fs.perBlock == p && n < Limit(fs)
        ensures GetBlock(fs, inode, n) == BlockList(fs, inode)[n]
      {
        GetBlockIsIndexing(fs, inode, n);
      }
    } else {
      OnesDiffer(inode, p, n);
    }
  }

  /** An inode that lacks the indirect block: on this disk the lookup finds block 1. */
  lemma OnesDiffer(inode: seq<byte>, p: nat, n: nat)
    requires |inode| == INODE_SIZE && p in {256, 512, 1024} && n < NDIR_BLOCKS + p + p * p && !HasTable(inode, p, n)
    ensures var fs := Ones(p);
            && fs.Valid() && fs.perBlock == p && n < Limit(fs)
            && GetBlock(fs, inode, n) == 1 && BlockList(fs, inode)[n] == 0
  {
    hide GetBlock, BlockList, WordOf, FindDouble, Pointer, Limit;
    var fs := Ones(p);
    if n < NDIR_BLOCKS + p {
      OnesAt(p, 0, n - NDIR_BLOCKS);
      HoleReadAsTable(fs, inode, n);
    } else {
      OnesFound(p, n - NDIR_BLOCKS - p);
      LimitIs(fs);
      DoubleHoleReadAsTable(fs, inode, n);
    }
  }

  // ----- Reading -----

  /** The bytes of blocks of equal size, one block after the other. */
  ghost function Concat(blocks: seq<seq<byte>>, bs: nat): (m: seq<byte>)
    requires forall i :: 0 <= i < |blocks| ==> |blocks[i]| == bs
    ensures |m| == |blocks| * bs
  {
    if blocks == [] then []
    else
      MulSucc(|blocks| - 1, bs);
      Concat(blocks[..|blocks| - 1], bs) + blocks[|blocks| - 1]
  }

  lemma SliceOfFront(a: seq<byte>, b: seq<byte>, lo: nat, hi: nat)
    requires lo <= hi <= |a|
    ensures (a + b)[lo..hi] == a[lo..hi]
  {
  }

  lemma SliceOfSlice(m: seq<byte>, lo: nat, hi: nat, r: nat, n: nat)
    requires lo + r + n <= hi <= |m|
    ensures m[lo..hi][r..r + n] == m[lo + r..lo + r + n]
  {
    var a, b := m[lo..hi][r..r + n], m[lo + r..lo + r + n];
    assert forall i :: 0 <= i < n ==> a[i] == b[i];
  }

  lemma SliceOfTake(m: seq<byte>, size: nat, lo: nat, hi: nat)
    requires lo <= hi <= size <= |m|
    ensures m[..size][lo..hi] == m[lo..hi]
  {
  }

  lemma ConcatStep(blocks: seq<seq<byte>>, bs: nat)
    requires (forall i :: 0 <= i < |blocks| ==> |blocks[i]| == bs) && blocks != []
    ensures var n := |blocks| - 1;
            && |Concat(blocks[..n], bs)| == n * bs && Concat(blocks, bs) == Concat(blocks[..n], bs) + blocks[n]
  {
  }

  lemma SliceOfBack(a: seq<byte>, b: seq<byte>)
    ensures (a + b)[|a|..|a| + |b|] == b
  {
  }

  /** Block q of a concatenation. */
  lemma {:induction false} ConcatAt(blocks: seq<seq<byte>>, bs: nat, q: nat)
    requires (forall i :: 0 <= i < |blocks| ==> |blocks[i]| == bs) && q < |blocks|
    ensures q * bs + bs <= |Concat(blocks, bs)| && Concat(blocks, bs)[q * bs..q * bs + bs] == blocks[q]
    decreases |blocks|
  {
    hide Concat;
    var n := |blocks| - 1;
    ConcatStep(blocks, bs);
    var m := Concat(blocks[..n], bs);
    if q < n {
      ConcatAt(blocks[..n], bs, q);
      SliceOfFront(m, blocks[n], q * bs, q * bs + bs);
    } else {
      SliceOfBack(m, blocks[n]);
    }
  }

  /** The first n blocks of the list are stored on the disk. */
  ghost predicate Stored(blocks: seq<seq<byte>>, list: seq<nat>, n: nat, bs: nat) {
    n <= |list| && forall i :: 0 <= i < n ==> 0 < list[i] < |blocks| && |blocks[list[i]]| == bs
  }

  /** The contents of the first n blocks of a list, in its order. */
  ghost function Content(blocks: seq<seq<byte>>, list: seq<nat>, n: nat, bs: nat): (m: seq<byte>)
    requires Stored(blocks, list, n, bs)
    ensures |m| == n * bs
  {
    Concat(seq(n, i requires 0 <= i < n => blocks[list[i]]), bs)
  }

  /** What one block contributes to a read of a file without holes. */
  lemma ChunkDelivered(blocks: seq<seq<byte>>, list: seq<nat>, n: nat, bs: nat, q: nat, r: nat, chunk: nat)
    requires Stored(blocks, list, n, bs) && q < n && r + chunk <= bs
    ensures q * bs + bs <= |Content(blocks, list, n, bs)|
    ensures blocks[list[q]][r..r + chunk] == Content(blocks, list, n, bs)[q * bs + r..q * bs + r + chunk]
  {
    ConcatAt(seq(n, i requires 0 <= i < n => blocks[list[i]]), bs, q);
    var m := Content(blocks, list, n, bs);
    SliceOfSlice(m, q * bs, q * bs + bs, r, chunk);
  }

  lemma FileChunk(blocks: seq<seq<byte>>, list: seq<nat>, n: nat, bs: nat, size: nat, off: nat, q: nat, r: nat,
                  chunk: nat)
    requires Stored(blocks, list, n, bs) && size <= |Content(blocks, list, n, bs)|
    requires off == q * bs + r && r + chunk <= bs && off + chunk <= size && 0 < chunk
    ensures q < n && blocks[list[q]][r..r + chunk] == Content(blocks, list, n, bs)[..size][off..off + chunk]
  {
    hide Content, Stored;
    if q >= n {
      MulMono(n, q, bs);
      assert false;
    }
    ChunkDelivered(blocks, list, n, bs, q, r, chunk);
    SliceOfTake(Content(blocks, list, n, bs), size, off, off + chunk);
  }

  /** The largest file that needs no triple indirection. */
  function MaxSize(fs: Fs): nat {
    if fs.perBlock == 256 then 65_804 * 1024 else if fs.perBlock == 512 then 262_668 * 2048 else 1_049_612 * 4096
  }

  lemma BlockNumberBound(fs: Fs, bs: nat, q: nat)
    requires fs.Valid() && bs == fs.BlockSize() && q * bs < MaxSize(fs)
    ensures q < Limit(fs)
  {
    if q >= Limit(fs) {
      MulMono(Limit(fs), q, bs);
      assert false;
    }
  }

  /** The first n blocks of the file are there, and so are the indirect blocks that lead to them. */
  ghost predicate Dense(fs: Fs, inode: seq<byte>, n: nat)
    requires fs.Valid() && |inode| == INODE_SIZE
  {
    && Stored(fs.blocks, BlockList(fs, inode), n, fs.BlockSize())
    && (NDIR_BLOCKS < n ==> Pointer(inode, IND_BLOCK) != 0)
    && (NDIR_BLOCKS + fs.perBlock < n ==> Pointer(inode, DIND_BLOCK) != 0)
  }

  lemma DenseLookup(fs: Fs, inode: seq<byte>, n: nat, q: nat)
    requires fs.Valid() && |inode| == INODE_SIZE && Dense(fs, inode, n) && q < n
    ensures q < Limit(fs) && GetBlock(fs, inode, q) == BlockList(fs, inode)[q]
    ensures 0 < BlockList(fs, inode)[q] < |fs.blocks|
  {
    hide BlockList, GetBlock, Limit;
    GetBlockIsIndexing(fs, inode, q);
  }

  method Split(off: nat, bs: nat) returns (q: nat, r: nat)
    requires 0 < bs
    ensures off == q * bs + r && r < bs
  {
    DivMod(off, bs);
    return off / bs, off % bs;
  }

  const EIO: int := 5

  // ----- What a read delivers -----

  lemma BlockOfByte(fs: Fs, o: nat)
    requires fs.Valid() && o < MaxSize(fs)
    ensures o / fs.BlockSize() < Limit(fs)
  {
    DivMod(o, fs.BlockSize());
    BlockNumberBound(fs, fs.BlockSize(), o / fs.BlockSize());
  }

  /** The disk block that the lookup gives for byte o of a file: 0 for a hole. */
  ghost function BlockAt(fs: Fs, inode: seq<byte>, o: nat): nat
    requires fs.Valid() && |inode| == INODE_SIZE && o < MaxSize(fs)
  {
    BlockOfByte(fs, o);
    GetBlock(fs, inode, o / fs.BlockSize())
  }

  /** Byte o of the file is on the disk. */
  ghost predicate There(fs: Fs, inode: seq<byte>, o: nat)
    requires fs.Valid() && |inode| == INODE_SIZE && o < MaxSize(fs)
  {
    0 < BlockAt(fs, inode, o) < |fs.blocks|
  }

  ghost function ByteAt(fs: Fs, inode: seq<byte>, o: nat): byte
    requires fs.Valid() && |inode| == INODE_SIZE && o < MaxSize(fs) && There(fs, inode, o)
  {
    fs.blocks[BlockAt(fs, inode, o)][o % fs.BlockSize()]
  }

  /** The data are bytes of the file from position o on. */
  ghost predicate Delivers(fs: Fs, inode: seq<byte>, o: nat, data: seq<byte>)
    requires fs.Valid() && |inode| == INODE_SIZE && o + |data| <= MaxSize(fs)
  {
    forall x :: o <= x < o + |data| ==> There(fs, inode, x) && data[x - o] == ByteAt(fs, inode, x)
  }

  lemma DeliversMore(fs: Fs, inode: seq<byte>, o: nat, a: seq<byte>, b: seq<byte>)
    requires fs.Valid() && |inode| == INODE_SIZE && o + |a| + |b| <= MaxSize(fs)
    requires Delivers(fs, inode, o, a) && Delivers(fs, inode, o + |a|, b)
    ensures Delivers(fs, inode, o, a + b)
  {
    hide There, ByteAt, MaxSize;
  }

  lemma SameBlock(fs: Fs, inode: seq<byte>, bs: nat, q: nat, r: nat, i: nat)
    requires fs.Valid() && |inode| == INODE_SIZE && bs == fs.BlockSize() && q * bs + r + i < MaxSize(fs) && r + i < bs
    ensures q < Limit(fs) && BlockAt(fs, inode, q * bs + r + i) == GetBlock(fs, inode, q)
    ensures There(fs, inode, q * bs + r + i) ==>
      ByteAt(fs, inode, q * bs + r + i) == fs.blocks[GetBlock(fs, inode, q)][r + i]
  {
    hide GetBlock, MaxSize, Limit;
    DivModUnique(q * bs + r + i, bs, q, r + i);
    BlockOfByte(fs, q * bs + r + i);
  }

  /** What one block holds at offset r are bytes of the file. */
  lemma ChunkDelivers(fs: Fs, inode: seq<byte>, bs: nat, q: nat, r: nat, chunk: nat)
    requires fs.Valid() && |inode| == INODE_SIZE && bs == fs.BlockSize() && q * bs + r + chunk <= MaxSize(fs)
    requires r + chunk <= bs
    requires q < Limit(fs) && 0 < GetBlock(fs, inode, q) < |fs.blocks|
    ensures Delivers(fs, inode, q * bs + r, fs.blocks[GetBlock(fs, inode, q)][r..r + chunk])
  {
    hide GetBlock, MaxSize, Limit;
    var o := q * bs + r;
    var data := fs.blocks[GetBlock(fs, inode, q)][r..r + chunk];
    forall x | o <= x < o + chunk ensures There(fs, inode, x) && data[x - o] == ByteAt(fs, inode, x) {
      SameBlock(fs, inode, bs, q, r, x - o);
    }
  }

  class File {
    const fs: Fs
    const inode: seq<byte>
    const size: nat
    var position: nat

    /** The file needs no triple indirection. */
    ghost predicate Sound() {
      fs.Valid() && |inode| == INODE_SIZE && size <= MaxSize(fs)
    }

    ghost predicate Valid()
      reads this
    {
      Sound() && position <= size
    }

    constructor (fs: Fs, inode: seq<byte>, size: nat)
      requires fs.Valid() && |inode| == INODE_SIZE && size <= MaxSize(fs)
      ensures Valid() && position == 0 && this.fs == fs && this.inode == inode && this.size == size
    {
      this.fs, this.inode, this.size, position := fs, inode, size, 0;
    }

    /** The part of a request that lies in one block: 0 for a hole, -EIO for an unreadable block. */
    method ReadChunk(off: nat, wanted: nat) returns (bytes: seq<byte>, status: int)
      requires Sound() && 0 < wanted && off + wanted <= size
      ensures BlockAt(fs, inode, off) == 0 ==> status == 0
      ensures BlockAt(fs, inode, off) != 0 && !There(fs, inode, off) ==> status == -EIO
      ensures There(fs, inode, off) ==> 0 < status == |bytes| <= wanted && Delivers(fs, inode, off, bytes)
    {
      hide Limit, MaxSize, GetBlock, Delivers;
      var bs := fs.BlockSize();
      var q, r := Split(off, bs);
      var chunk := if bs - r > wanted then wanted else bs - r;
      SameBlock(fs, inode, bs, q, r, 0);
      if There(fs, inode, off) {
        ChunkDelivers(fs, inode, bs, q, r, chunk);
      }
      bytes, status := CopyFrom(GetBlock(fs, inode, q), r, chunk);
    }

    method CopyFrom(phys: nat, r: nat, chunk: nat) returns (bytes: seq<byte>, status: int)
      requires fs.Valid() && r + chunk <= fs.BlockSize()
      ensures phys == 0 ==> status == 0
      ensures phys >= |fs.blocks| && phys != 0 ==> status == -EIO
      ensures 0 < phys < |fs.blocks| ==> |fs.blocks[phys]| == fs.BlockSize()
      ensures 0 < phys < |fs.blocks| ==> status == chunk && bytes == fs.blocks[phys][r..r + chunk]
    {
      if phys == 0 {
        return [], 0;
      }
      if phys >= |fs.blocks| {
        return [], -EIO;
      }
      return fs.blocks[phys][r..r + chunk], chunk;
    }

    /** How many bytes a read of count bytes asks for. */
    function Wanted(count: int): nat
      requires position <= size
      reads this
    {
      if count <= 0 then 0 else if count <= size - position then count else size - position
    }

    /** Returns the bytes of the file from the current position on, as many as wanted, up to the first one that is not
        on the disk.  The position moves past them, except when the read stops at a block that cannot be read. */
    method Read(count: int) returns (code: int, data: seq<byte>)
      requires Valid()
      modifies this
      ensures Valid() && |data| <= old(Wanted(count)) && Delivers(fs, inode, old(position), data)
      ensures |data| == old(Wanted(count)) || !There(fs, inode, old(position) + |data|)
      ensures var stopped := |data| < old(Wanted(count)) && BlockAt(fs, inode, old(position) + |data|) != 0;
              && code == (if stopped && data == [] then -EIO else |data|)
              && position == if stopped then old(position) else old(position) + |data|
      ensures code == old(Wanted(count)) <==>
              forall o :: old(position) <= o < old(position) + old(Wanted(count)) ==> There(fs, inode, o)
    {
      hide There, ByteAt, BlockAt, MaxSize, Fs.Valid;
      data := [];
      if position >= size || count <= 0 {
        return 0, data;
      }
      var wanted := if count > size - position then size - position else count;
      var done := 0;
      while done < wanted
        invariant 0 <= done == |data| <= wanted && Valid() && position == old(position)
        invariant Delivers(fs, inode, position, data)
      {
        var bytes, status := ReadChunk(position + done, wanted - done);
        if status == -EIO {
          assert !There(fs, inode, position + done);
          return if done > 0 then done else -EIO, data;
        }
        if status == 0 {
          assert !There(fs, inode, position + done);
          break;
        }
        DeliversMore(fs, inode, position, data, bytes);
        data := data + bytes;
        done := done + status;
      }
      position := position + done;
      return done, data;
    }

    /** Every byte from o on is on the disk or in a hole. */
    ghost predicate Readable(o: nat)
      requires Sound()
    {
      forall x :: o <= x < size ==> BlockAt(fs, inode, x) < |fs.blocks|
    }

    /** Every byte from o on is on the disk. */
    ghost predicate AllThere(o: nat)
      requires Sound()
    {
      forall x :: o <= x < size ==> There(fs, inode, x)
    }

    /** The file has no holes: its bytes are in its first n blocks. */
    ghost predicate Full(n: nat)
      requires Sound()
    {
      && Dense(fs, inode, n)
      && size <= |Content(fs.blocks, BlockList(fs, inode), n, fs.BlockSize())|
    }

    /** The bytes of a file without holes, block after block of its block list. */
    ghost function Bytes(n: nat): (s: seq<byte>)
      requires Sound() && Full(n)
      ensures |s| == size
    {
      Content(fs.blocks, BlockList(fs, inode), n, fs.BlockSize())[..size]
    }

    /** In a file without holes every byte is on the disk, where the block list says. */
    lemma FullByte(n: nat, o: nat)
      requires Sound() && Full(n) && o < size
      ensures There(fs, inode, o) && ByteAt(fs, inode, o) == Bytes(n)[o]
    {
      hide Limit, GetBlock, BlockList, Content, Stored, MaxSize;
      var bs := fs.BlockSize();
      var q, r := o / bs, o % bs;
      DivMod(o, bs);
      FileChunk(fs.blocks, BlockList(fs, inode), n, bs, size, o, q, r, 1);
      DenseLookup(fs, inode, n, q);
      SameBlock(fs, inode, bs, q, r, 0);
      ByteOfSlice(fs.blocks[GetBlock(fs, inode, q)], r, Bytes(n), o);
    }

    lemma FullDelivers(n: nat, o: nat, data: seq<byte>)
      requires Sound() && Full(n) && o + |data| <= size && Delivers(fs, inode, o, data)
      ensures data == Bytes(n)[o..o + |data|]
    {
      hide Full, Bytes, There, ByteAt, MaxSize;
      forall i | 0 <= i < |data| ensures data[i] == Bytes(n)[o..o + |data|][i] {
        FullByte(n, o + i);
        assert data[o + i - o] == ByteAt(fs, inode, o + i);
      }
    }

    lemma FullReadable(n: nat, o: nat)
      requires Sound() && Full(n)
      ensures Readable(o) && AllThere(o)
    {
      hide Full, BlockAt, MaxSize;
      forall x | o <= x < size ensures There(fs, inode, x) && BlockAt(fs, inode, x) < |fs.blocks| {
        FullByte(n, x);
      }
    }

    lemma HoleOrThere(o: nat, x: nat)
      requires Sound() && Readable(o) && o <= x < size
      ensures There(fs, inode, x) || BlockAt(fs, inode, x) == 0
    {
    }

    /** One read of a sequence of reads that has delivered data so far. */
    method ReadNext(count: int, data: seq<byte>, ghost start: nat) returns (joined: seq<byte>)
      requires Valid() && position == start + |data| && Readable(start) && Delivers(fs, inode, start, data)
      modifies this
      ensures Valid() && position == start + |joined| && Delivers(fs, inode, start, joined)
      ensures AllThere(start) ==> |joined| == |data| + old(Wanted(count))
    {
      hide ByteAt, MaxSize, Fs.Valid, BlockAt;
      ghost var before := position;
      var code, more := Read(count);
      hide Delivers;
      DeliversMore(fs, inode, start, data, more);
      if before + |more| < size {
        HoleOrThere(start, before + |more|);
      }
      joined := data + more;
    }

    /** Successive reads deliver the bytes of the file without gap or overlap, as long as none stops at an unreadable
        block; if all bytes are there, as many as the counts ask for. */
    method ReadAll(counts: seq<int>) returns (data: seq<byte>)
      requires Valid() && Readable(position)
      modifies this
      ensures Valid() && position == old(position) + |data| && Delivers(fs, inode, old(position), data)
      ensures AllThere(old(position)) ==> position == Least(size, old(position) + Total(counts))
    {
      data := [];
      ghost var start := position;
      assert Delivers(fs, inode, start, data);
      hide There, ByteAt, BlockAt, MaxSize, Fs.Valid, Delivers, Readable, AllThere;
      for i := 0 to |counts|
        invariant Valid() && position == start + |data| && Delivers(fs, inode, start, data)
        invariant AllThere(start) ==> position == Least(size, start + Total(counts[..i]))
      {
        assert counts[..i + 1] == counts[..i] + [counts[i]];
        TotalAppend(counts[..i], counts[i]);
        data := ReadNext(counts[i], data, start);
      }
      assert counts[..|counts|] == counts;
    }

    /** Any sequence of reads of a file without holes concatenates to the slice of its bytes that the counts ask for. */
    method ReadFile(counts: seq<int>, ghost n: nat) returns (data: seq<byte>)
      requires Valid() && Full(n)
      modifies this
      ensures Valid() && position == Least(size, old(position) + Total(counts))
      ensures data == Bytes(n)[old(position)..position]
    {
      hide Full, Bytes, Delivers, Readable, AllThere, MaxSize, Total;
      FullReadable(n, position);
      ghost var start := position;
      data := ReadAll(counts);
      FullDelivers(n, start, data);
    }
  }

  function Least(a: int, b: int): int {
    if a < b then a else b
  }

  /** The sum of the positive counts. */
  function Total(counts: seq<int>): nat {
    if counts == [] then 0
    else Total(counts[..|counts| - 1]) + if counts[|counts| - 1] > 0 then counts[|counts| - 1] else 0
  }

  lemma TotalAppend(counts: seq<int>, c: int)
    ensures Total(counts + [c]) == Total(counts) + if c > 0 then c else 0
  {
    assert (counts + [c])[..|counts|] == counts;
  }

  lemma ByteOfSlice(a: seq<byte>, i: nat, b: seq<byte>, j: nat)
    requires i < |a| && j < |b| && a[i..i + 1] == b[j..j + 1]
    ensures a[i] == b[j]
  {
    assert a[i] == a[i..i + 1][0];
  }
}
