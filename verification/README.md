# ValeciumOS kernel: verified models

Dafny models of the parts of the ValeciumOS kernel and boot loader that work on arrays and shared state, with proofs of
what they promise. `dafny verify dfyconfig.toml` checks everything.

| files | what they model |
|---|---|
| `Common`, `Arith`, `Lowest` | shared notions; division and modulo facts; the lowest elements of a set |
| `FatCodec`, `FatVolume`, `FatChains`, `FatData`, `FatAlloc`, `FatFiles`, `FatSystem` | the FAT driver: 12/16/28-bit entries, mirrored tables, the five-sector cache window, cluster chains, buffered file access, several open files |
| `Pmm`, `Paging`, `Vmm`, `VmmRuns` | the page bitmap, two-level page tables in frames from that bitmap, the bump allocator with roll-back, and its runs over several address spaces |
| `Scheduler`, `Lifecycle`, `Processes` | the run queue, the exit/wait/block/wake protocol as a state machine over all runs, and the in-place operations that refine it |
| `Descriptors` | reference counts of file descriptors across open, fork, close and exit |
| `Words`, `Md5`, `Sha1`, `Hashing` | the compression functions and the streaming contexts, against RFC 1321 and FIPS 180-4 |
| `Md5Answers`, `Sha1Answers`, `SelfTests` | the digests of known messages, proved a few steps at a time, and the self-tests |
| `UserStack` | the initial stack of a program |
| `Mounts` | mount points and path resolution |
| `Tty` | the line editor and input queue of a terminal |
| `Ext2` | the block map and reads of the boot loader's ext2 reader |

Where the code updates state in place, the model is a class or a method on arrays whose contract ties the new state to a
specification function; the laws are lemmas about those functions. Ghost parameters (a chain, an index, a list of frames)
name what the proof speaks about and have no influence on the computation.

Results that differ from what one might expect of the code:

* A FAT12 lookup at the last byte of the cache window reads the byte behind the window (the low byte of the window
  position). `FatVolume.CachedLookupExact` states exactly when a cached lookup is right, `FatVolume.CacheSafeExact` on
  which volumes all of them are, and `FatVolume.FloppyFails` that they are not on a 1.44 MB floppy disk.
* Truncation frees at most 5000 clusters and deletion at most 10000; longer chains lose clusters.
  `FatChains.StepLosesNothing` states exactly when none is lost, `FatChains.VolumeLosesNothing` on which volumes none
  ever is, and `FatChains.LongFileLoses` gives the runs that lose some.
* The search for a free cluster ends two clusters too early: the last two clusters of a volume are never allocated, and
  creation and writes fail while they are free (`FatAlloc.SearchMissesTwo`, `FatFiles.RoomExact`,
  `FatChains.FullWithFreeClusters`).
* A write to a file that is recorded without a cluster, as other systems record empty files, goes to a sector outside
  the data area, with an exception on volumes near 2 TiB (`FatData.Lba32Exact`).
* A write that follows another one without a seek overwrites the sector before the position if the first one has ended on
  a sector boundary (`FatFiles.WriteBehind`). `FatSystem.WriteThenWrite` and `FatSystem.SeekThenWrite` state exactly when
  a write is possible.
* A write at position 0 of a file that has been written to only behind its start since it was opened empties the file
  first (`FatSystem.WriteOver`).
* The position of an open file is a 32-bit number. A write that reaches 2^32 leaves it wrapped, and the size behind
  (`FatFiles.Write`); the bytes on the disk are right nevertheless.
* Seeking to the end of a file whose last cluster is full fails with an I/O error, and a read stops after 10001 sectors
  (`FatFiles.Seek`, `FatFiles.Read`). After a write that ends on a sector boundary the cursor stands one sector behind
  the position (`FatFiles.Write`).
* A request of more than 2^32 - 4096 bytes to the virtual memory allocator wraps to zero pages
  (`Vmm.NumPagesCover`).
* Removing a process from the run queue can send the process whose turn is next to the back of the queue
  (`Scheduler.RemovalDelays`). Waiting is bounded all the same, by 128 selections without removals
  (`Scheduler.BoundedWaiting`) and by 128*128 with them (`Scheduler.BoundedWaitingAlways`).
* An exited process whose parent is gone takes up a place in the process table for good (`Lifecycle.OrphanForGood`).
* Arguments that are accepted may need more than the 64 KiB of stack that are mapped (`UserStack.FitsExactly`,
  `UserStack.LongVectorOverflows`).
* A mount location of 256 or more characters can leave a trailing slash in the stored mount point
  (`Mounts.NormalizedClean`).
* The part of a path below its mount point is cut without notice at 255 characters (`Mounts.RelativeExact`).
* Memory of more than 2^32 - 4096 bytes counts as no pages (`Pmm.PagesForExact`).
* An update of a hash with 2^32 or more bytes, counting those in the buffer, never ends (`Hashing.UpdateTerminates`).
* An ext2 inode without an indirect or double indirect block is read through disk block 0; the lookup of an index is
  right on every disk exactly if the inode has the block it needs (`Ext2.LookupExact`). A hole ends a read, and a read
  that stops at an unreadable block returns bytes without moving the position (`Ext2.File.Read`).

## Model

| member | source | states |
|---|---|---|
| `FatCodec.EntryCodec` | kernel/fs/fat/fat.c:394-462 | for FAT12, FAT16 and FAT32: after storing v in entry c, reading entry x gives the masked v if x = c and the old entry otherwise, including the two FAT12 entries that share a byte |
| `FatCodec.MergeField` | kernel/fs/fat/fat.c:426-452 | merging a value into a table word keeps the word in range, stores the masked value and keeps every bit that does not belong to the entry |
| `FatCodec.TopBitsPreserved` | kernel/fs/fat/fat.c:438-452 | a FAT32 store keeps the four reserved top bits of the word |
| `FatCodec.WordRoundTrip` | kernel/fs/fat/fat.c:426-452 | a 16- or 32-bit word written byte by byte into the table reads back as itself |
| `FatCodec.EntryInPart` | kernel/fs/fat/fat.c:413-433 | an entry can be read and patched inside any buffer that holds all its bytes, as the two-sector buffer for straddling FAT12 entries does |
| `FatCodec.Fat16Bytes` | kernel/fs/fat/fat.c:394-403 | FAT16 in bytes: entry c is byte 2c plus 256 times byte 2c+1, and a store changes these two bytes alone |
| `FatCodec.Fat32Bytes` | kernel/fs/fat/fat.c:394-403 | FAT32 in bytes: entry c is made of bytes 4c to 4c+3, the lowest first, without the top four bits, which a store keeps |
| `FatCodec.Fat12EvenBytes` | kernel/fs/fat/fat.c:404-437 | FAT12 in bytes, even clusters: byte 3m and the low half of byte 3m+1; a store keeps the high half |
| `FatCodec.Fat12OddBytes` | kernel/fs/fat/fat.c:404-437 | FAT12 in bytes, odd clusters: the high half of byte 3m+1 and byte 3m+2; a store keeps the low half |
| `FatCodec.EndMark16` | kernel/fs/fat/fat.c:1979-1983 | the end mark of FAT16 is stored as two bytes 0xFF |
| `FatCodec.EndMark32` | kernel/fs/fat/fat.c:1979-1983 | the end mark of FAT32 is stored as three bytes 0xFF and the low half of the fourth |
| `FatCodec.EndMark12Even` | kernel/fs/fat/fat.c:1979-1983 | the end mark of FAT12 in the bytes of an even cluster |
| `FatCodec.EndMark12Odd` | kernel/fs/fat/fat.c:1979-1983 | the end mark of FAT12 in the bytes of an odd cluster |
| `FatVolume.CachedLookupExact` | kernel/fs/fat/fat.c:592-640 | a lookup through the five-sector window equals the direct decoding of the table, for every table content, if and only if the entry does not straddle the end of the window |
| `FatVolume.SafeNeverStraddles` | kernel/fs/fat/fat.c:592-640 | no lookup straddles the window on any FAT16 or FAT32 volume, nor on a FAT12 volume that has no cluster 1706 |
| `FatVolume.SafeLookup` | kernel/fs/fat/fat.c:592-640 | on those volumes a cached lookup returns what FAT copy 0 holds, wherever the window stands |
| `FatVolume.ReportedBytes` | kernel/fs/fat/fat.c:618-640 | the value that a lookup reports, in the bytes of the table and the numbers from which on an entry is an end mark, for all three widths |
| `FatVolume.CacheSafeExact` | kernel/fs/fat/fat.c:592-640 | on a well-formed volume, whatever lies outside its tables, every lookup of every cluster through every window is right for all contents of the tables, if and only if the volume is FAT16 or FAT32 or has no cluster 1706 |
| `FatVolume.FullTablesFail` | kernel/fs/fat/fat.c:618-624 | the failing input: on every FAT12 volume with cluster 1706, and for every disk with only the table sectors overwritten, looking that cluster up through the window at sector 0 gives 0x0FF where the table holds 0xFFF |
| `FatVolume.FloppyFails` | kernel/fs/fat/fat.c:592-640 | the 1.44 MB floppy disk is such a volume, whatever files it holds |
| `FatVolume.PatchCopyEffect` | kernel/fs/fat/fat.c:409-462 | rewriting the one or two sectors of an entry in copy k equals storing the entry in that copy's table, and leaves every other sector alone |
| `FatVolume.StoredStep` | kernel/fs/fat/fat.c:405-463 | after n rounds of the mirroring loop exactly the first n copies hold the new entry |
| `FatVolume.StoreEffect` | kernel/fs/fat/fat.c:385-498 | storing an entry in all copies updates the abstract table at one index, and copies that were equal stay equal |
| `FatVolume.WindowLookup` | kernel/fs/fat/fat.c:618-638 | decoding from the window at the computed offset gives the entry the lookup is defined to give, also when the second byte lies behind the window |
| `FatVolume.MissedLookup` | kernel/fs/fat/fat.c:604-616 | when the window misses, moving it to the entry's sector does not change the looked-up value |
| `FatVolume.CacheStoreHit` | kernel/fs/fat/fat.c:465-491 | patching the window after a store inside it keeps the window equal to FAT copy 0 |
| `FatVolume.CacheStoreMiss` | kernel/fs/fat/fat.c:465-495 | a store outside the window needs no patch: the window still equals FAT copy 0 |
| `FatVolume.DataWriteKeepsTables` | kernel/fs/fat/fat.c:376-380 | writes to data sectors change no FAT entry, break no mirror and keep the cache agreeing with the disk |
| `FatVolume.Volume.constructor` | kernel/fs/fat/fat.c:199-373 | a volume starts with an invalid cache window, which agrees with any disk |
| `FatVolume.Volume.ReadFat` | kernel/fs/fat/fat.c:180-185 | fills the window with five sectors of FAT copy 0, so that it agrees with the disk |
| `FatVolume.Volume.MoveWindow` | kernel/fs/fat/fat.c:604-616 | the window test, with 32-bit wrap-around, and the refill leave a window that holds the entry and do not change what the lookup gives |
| `FatVolume.Volume.NextCluster` | kernel/fs/fat/fat.c:592-640 | returns the entry of a cluster widened to the end-of-chain convention, keeps the cache invariant, and on cache-safe volumes is what the bytes of FAT copy 0 say, in the byte order of the format |
| `FatVolume.Volume.StoreInCopy` | kernel/fs/fat/fat.c:409-462 | read-modify-write of one FAT copy, over two sectors for straddling FAT12 entries |
| `FatVolume.Volume.WriteFatEntry` | kernel/fs/fat/fat.c:385-498 | updates the table at exactly one index in all copies, keeps equal copies equal and the cache in step, and touches no sector outside the tables |
| `FatVolume.Volume.UpdateCache` | kernel/fs/fat/fat.c:465-495 | brings the window in step after the disk has changed: dropped for FAT12, patched for FAT16 and FAT32 |
| `FatVolume.Volume.WriteData` | kernel/fs/fat/fat.c:376-380 | a data-sector write changes that sector only and keeps tables, mirrors and cache valid |
| `FatVolume.Volume.DropWindow` | kernel/fs/fat/fat.c:2476 | dropping the window keeps the cache invariant |
| `FatChains.ChainAcyclic` | kernel/fs/fat/fat.c:592-640 | a chain that reaches an end-of-chain mark visits no cluster twice |
| `FatChains.CreateKeepsForest` | kernel/fs/fat/fat.c:1951-1989 | marking a free cluster as a one-cluster chain keeps all chains finite, terminated and disjoint and removes exactly that cluster from the free set |
| `FatChains.ExtendKeepsForest` | kernel/fs/fat/fat.c:1591-1649 | linking a free cluster behind a file keeps all other chains and the disjointness, and removes exactly that cluster from the free set |
| `FatChains.TruncateKeepsForest` | kernel/fs/fat/fat.c:2413-2456 | truncation leaves a one-cluster chain and all other chains, and frees min(len-1, 5000) clusters |
| `FatChains.TruncateCount` | kernel/fs/fat/fat.c:2420-2442 | no cluster number stops the truncation loop early: it frees min(len-1, 5000) clusters |
| `FatChains.DeleteKeepsForest` | kernel/fs/fat/fat.c:2177-2224 | deletion removes the chain from the forest, keeps the others, and frees as many clusters as the loop reaches |
| `FatChains.DeleteCount` | kernel/fs/fat/fat.c:2177-2224 | for chains below the cluster-number bound of the loop, deletion frees min(len, 10000) clusters |
| `FatChains.StepKeepsInv` | kernel/fs/fat/fat.c:1461-2464 | each create, extend, truncate and delete step keeps the forest, and free clusters + clusters in files + lost clusters stay constant |
| `FatChains.Run` | kernel/fs/fat/fat.c:1461-2464 | over every run of such steps the chains stay finite, terminated and disjoint and clusters are conserved |
| `FatChains.StepLosesNothing` | kernel/fs/fat/fat.c:2420-2442 | a step loses no cluster if and only if it truncates at most 5001 clusters, or deletes at most 10000 with small numbers |
| `FatChains.LongFileLoses` | kernel/fs/fat/fat.c:2420-2442 | the failing input, reached from an empty volume with the search bound of the driver or any other: a file created, grown to n clusters and truncated loses n - min(n, 5001) clusters, for every n that the search can supply |
| `FatChains.OneFileGrows` | kernel/fs/fat/fat.c:1591-1649 | each extension of a file that holds the first clusters of the volume takes the next cluster below the search bound, and changes nothing at the bound |
| `FatChains.RunLosesNothing` | kernel/fs/fat/fat.c:2420-2442 | no run loses a cluster while only clusters below 5003 are in use |
| `FatChains.ChainLength` | kernel/fs/fat/fat.c:592-640 | a chain leaves out the two reserved entries and all clusters that are free to the end of the table |
| `FatChains.VolumeLosesNothing` | kernel/fs/fat/fat.c:2420-2442 | no run loses a cluster, whatever files the volume holds at the start, if and only if its table has at most 5003 entries |
| `FatChains.FreshVolumeLosesNothing` | kernel/fs/fat/fat.c:2420-2442 | no run that starts without files loses a cluster if and only if the search bound is at most 5003 |
| `FatChains.SearchExact` | kernel/fs/fat/fat.c:1960-1969 | a search finds nothing if and only if every free cluster lies at or behind its bound |
| `FatChains.RunKeepsFree` | kernel/fs/fat/fat.c:1596-1606 | a free cluster at or behind the search bound stays free in every run |
| `FatChains.FullWithFreeClusters` | kernel/fs/fat/fat.c:1596-1613 | the failing input: a run from the empty volume after which exactly the clusters from the search bound on are free, and no file can be created or extended |
| `FatData.LayoutAt` | kernel/fs/fat/fat.c:376-380 | sector j of the k-th cluster is sector k*spc+j of the file |
| `FatData.LayoutInjective` | kernel/fs/fat/fat.c:376-380 | a file without repeated clusters has no repeated sectors |
| `FatData.LayoutsDisjoint` | kernel/fs/fat/fat.c:376-380 | files with disjoint chains have disjoint sectors |
| `FatData.LayoutSound` | kernel/fs/fat/fat.c:376-380 | every sector of a file lies in the data area and in one of its clusters |
| `FatData.Lba32Exact` | kernel/fs/fat/fat.c:375-380 | the 32-bit sector number of a cluster is its first sector; for cluster 0, as an empty file of another system may have, it is a sector in front of the data area, or at the end of the 32-bit range when two clusters do not fit in front of the data area; exactly when it then falls into the data area |
| `FatData.WriteSectorSplices` | kernel/fs/fat/fat.c:1531-1570 | patching the sector buffer and writing it to its sector splices the bytes into the file content, growing the file where needed |
| `FatData.ContentFrame` | kernel/fs/fat/fat.c:856-988 | the content of a file depends on its own sectors only, and not on clusters appended behind its end |
| `FatData.GrownKeepsForest` | kernel/fs/fat/fat.c:1591-1649 | any number of extensions of one file keeps the forest |
| `FatData.OtherContentKept` | kernel/fs/fat/fat.c:1461-1719 | a disk change confined to the tables and one file's sectors keeps the bytes of every other file |
| `FatAlloc.FindFree` | kernel/fs/fat/fat.c:1951-1969 | the search returns the lowest free cluster below its bound; it returns 0 if and only if no cluster other than the last two of the volume is free |
| `FatAlloc.SearchMissesTwo` | kernel/fs/fat/fat.c:1951-1969 | the search bound is two below the number of table entries: the search finds nothing if and only if all free clusters are among the last two |
| `FatAlloc.CreateChain` | kernel/fs/fat/fat.c:1951-1989 | allocates the lowest free cluster below the search bound as a chain of its own; fails if and only if no cluster other than the last two is free; no data sector changes |
| `FatAlloc.NextInChain` | kernel/fs/fat/fat.c:592-640 | a lookup along a chain returns the successor, and an end mark exactly at the last cluster |
| `FatAlloc.FreeCluster` | kernel/fs/fat/fat.c:2213-2222 | one round of a freeing loop returns the successor that was stored before the entry was cleared |
| `FatAlloc.TruncateChain` | kernel/fs/fat/fat.c:2413-2456 | the in-place truncation of a chain has exactly the effect of the abstract truncation |
| `FatAlloc.MarkEnd` | kernel/fs/fat/fat.c:2444-2456 | makes one cluster the end of a chain in every table copy |
| `FatAlloc.ZeroCluster` | kernel/fs/fat/fat.c:2202-2211 | zeroes the sectors of one cluster and no others |
| `FatAlloc.DeleteChain` | kernel/fs/fat/fat.c:2177-2224 | the in-place deletion frees the clusters of the abstract deletion, zeroes exactly their sectors and touches no other data |
| `FatFiles.OpenFile.constructor` | kernel/fs/fat/fat.c:500-590 | a handle starts at the first cluster and at position 0 |
| `FatFiles.OpenEntry` | kernel/fs/fat/fat.c:500-590 | refuses exactly the entries whose first cluster is 1 or lies outside the volume; an opened file stands at its start with the first sector in the buffer |
| `FatFiles.LoadFirst` | kernel/fs/fat/fat.c:576-584 | loads the first sector of the current cluster into the buffer |
| `FatFiles.CreateFile` | kernel/fs/fat/fat.c:1951-2043 | a new file has one cluster, no bytes and is ready for reading and writing; creation fails if and only if no cluster other than the last two is free |
| `FatFiles.Moved` | kernel/fs/fat/fat.c:1549-1557 | the stored 32-bit position is the true position modulo 2^32, and both have the same place in their sector |
| `FatFiles.CursorSector` | kernel/fs/fat/fat.c:973-978 | the cursor (cluster, sector in cluster) addresses the file sector the position demands |
| `FatFiles.LoadSector` | kernel/fs/fat/fat.c:1369-1379 | loads the sector under the cursor into the buffer |
| `FatFiles.WalkChain` | kernel/fs/fat/fat.c:1351-1367 | following n links succeeds if and only if the chain has more than n clusters, and then stands on cluster n |
| `FatFiles.Seek` | kernel/fs/fat/fat.c:1325-1380 | moves the position and makes cursor and buffer match it; fails for positions behind the end, and with an I/O error exactly when the sector does not exist (end of file on a full last cluster) |
| `FatFiles.LoadPosition` | kernel/fs/fat/fat.c:1348-1379 | walks to the cluster of the position and loads its sector; fails exactly when the chain has no such sector |
| `FatFiles.LoadNextInCluster` | kernel/fs/fat/fat.c:944-978 | moves to the next sector of the cluster and loads it |
| `FatFiles.NextForRead` | kernel/fs/fat/fat.c:942-983 | after a used-up sector, cursor and buffer stand on the next one, or the position is at the end of the file and of its last cluster |
| `FatFiles.EnterNextCluster` | kernel/fs/fat/fat.c:947-971 | moves to the first sector of the next cluster, or ends the read and sets the size to the position at the end of the chain |
| `FatFiles.TakeFromBuffer` | kernel/fs/fat/fat.c:860-868 | bytes taken from the buffer are the bytes of the file at the position |
| `FatFiles.Advance` | kernel/fs/fat/fat.c:1549-1557 | moves the stored position with 32-bit wrap-around and raises the stored size when it is exceeded; the true position and size move without wrap-around |
| `FatFiles.Read` | kernel/fs/fat/fat.c:856-988 | returns exactly the bytes of the file from the position on, as many as asked for, cut at the end of the file and at the loop limit of 10001 sectors; within the limit the cursor is ready afterwards if and only if the position is not behind the last cluster |
| `FatFiles.ReadStep` | kernel/fs/fat/fat.c:858-985 | one turn of the read loop keeps what has been read equal to the bytes of the file from the start of the read |
| `FatFiles.WriteChunk` | kernel/fs/fat/fat.c:1531-1570 | one buffered write splices its bytes into the file, touches only that file's sectors and no table entry |
| `FatFiles.LinkCluster` | kernel/fs/fat/fat.c:1616-1622 | the two entry writes of an extension have the effect of the abstract extension |
| `FatFiles.AppendCluster` | kernel/fs/fat/fat.c:1591-1649 | a full chain grows by the lowest free cluster below the search bound without changing the file's bytes; it fails if and only if no cluster other than the last two is free |
| `FatFiles.NextForWrite` | kernel/fs/fat/fat.c:1578-1675 | after a filled sector, cursor and buffer stand on the next one, allocated if necessary |
| `FatFiles.NextClusterForWrite` | kernel/fs/fat/fat.c:1578-1662 | moves to the next cluster of the chain, or appends a free one |
| `FatFiles.Truncate` | kernel/fs/fat/fat.c:2340-2480 | empties a file: one cluster remains, up to 5000 others are freed, no data sector and no other chain changes; a closed handle is refused |
| `FatFiles.Rewind` | kernel/fs/fat/fat.c:2458-2478 | cursor, buffer and position stand at the start of the emptied file |
| `FatFiles.WriteStep` | kernel/fs/fat/fat.c:1529-1572 | after each chunk the file holds the data written so far; cursor and buffer match the true position exactly if it is not on a sector boundary |
| `FatFiles.WriteAll` | kernel/fs/fat/fat.c:1526-1679 | the write loop splices the data at the true position and grows the chain by free clusters only, also across 2^32 |
| `FatFiles.WriteRound` | kernel/fs/fat/fat.c:1529-1679 | one turn of the write loop: the rest of the sector is filled and the cursor moves on |
| `FatFiles.Write` | kernel/fs/fat/fat.c:1461-1719 | writes min(length, room behind the position), where room is that of the chain and of the free clusters other than the last two; the chain grows by the lowest free clusters, by no more than the bytes need; the file then holds the data spliced at the position (after the implicit truncation of a first write at 0); only this file's sectors and the tables change; the cursor is ready if and only if the write does not end on a sector boundary; the stored 32-bit position and size are the true ones afterwards if and only if the write ends below 2^32; a write that is not the first one at position 0 of a file with bytes keeps every cluster and splices, and that first one leaves exactly the data |
| `FatFiles.WriteExtent` | kernel/fs/fat/fat.c:1591-1649 | a write writes all data, or as much as the chain and the clusters that the search finds have room for |
| `FatFiles.WriteBehind` | kernel/fs/fat/fat.c:1531-1570 | the failing input of two writes in a row: after a write that has ended on a sector boundary the next chunk overwrites the start of the sector before the position |
| `FatFiles.LowestIsLeast` | kernel/fs/fat/fat.c:1596-1606 | the search finds the least element of the set of free clusters that it looks at, and fails if and only if that set is empty |
| `FatFiles.AdvancedTrans` | kernel/fs/fat/fat.c:1591-1649 | growing in several steps takes the same clusters as growing at once: the lowest free ones, in order |
| `FatFiles.AdvancedCount` | kernel/fs/fat/fat.c:1591-1649 | clusters of the file and free clusters add up to the same number |
| `FatFiles.RoomExact` | kernel/fs/fat/fat.c:1591-1613 | that room is the room of the chain and all free clusters if and only if none of the last two clusters is free |
| `FatFiles.WriteKeepsOther` | kernel/fs/fat/fat.c:1461-1719 | a write keeps the chain and all bytes of every other file |
| `FatFiles.WriteKeepsOtherFile` | kernel/fs/fat/fat.c:1461-1719 | the same for every size that the other file may have |
| `FatFiles.OtherKeptBy` | kernel/fs/fat/fat.c:1461-1719 | a change of the tables and of one file that keeps the chain of another file keeps all its bytes |
| `FatFiles.CreateKeepsOther` | kernel/fs/fat/fat.c:1951-1989 | creating a file keeps the chain and all bytes of every other file |
| `FatFiles.RoomToCreate` | kernel/fs/fat/fat.c:1951-1969 | with room for any data a file can be created |
| `FatFiles.CreatedRoom` | kernel/fs/fat/fat.c:1951-1989 | creating a file leaves as much room for its data as there was before |
| `FatFiles.WriteFirst` | kernel/fs/fat/fat.c:1461-1719 | a write at the start of a new or reopened file makes the data its content and keeps every other file |
| `FatFiles.WriteKeepsChain` | kernel/fs/fat/fat.c:1591-1649 | truncation and growth of one chain keep every disjoint chain |
| `FatFiles.CursorBehind` | kernel/fs/fat/fat.c:1572-1580 | after a chunk that ends on a sector boundary the cursor stands one sector behind the position |
| `FatFiles.WriteSeekRead` | kernel/fs/fat/fat.c:1461-1719 | round trip: writing data to a new or rewritten file, seeking to 0 and reading returns exactly that data (its first 10001 sectors), and every other file keeps its chain, disjoint from this one, and all its bytes |
| `FatFiles.CreateWriteSeekRead` | kernel/fs/fat/fat.c:1951-2043 | the same round trip from the creation of the file on: with room for the data the file is created, written and read back, and every other file is kept |
| `FatSystem.FileSystem.Execute` | kernel/fs/fat/fat.c:856-2480 | every sequence of create, write, seek, read, truncate and delete over several open files, in which a file is ready when it is read or written, gives the answers, and leaves the files and the free clusters, that the same operations give on a map from files to byte sequences; all answers are determined, including how much is written, when a creation fails and when a seek fails |
| `FatSystem.OthersUntouched` | kernel/fs/fat/fat.c:856-2480 | in every such run a file that no operation names keeps its bytes, its position and its flags |
| `FatSystem.WrittenIsRead` | kernel/fs/fat/fat.c:856-1719 | what a write has written in full is read back after a seek, whatever happens to other files in between, and all these calls are permitted |
| `FatSystem.SeekThenWrite` | kernel/fs/fat/fat.c:1325-1380 | a write after a seek to a position up to the end of the file is permitted if and only if the position is not the very end of a file that fills its last cluster |
| `FatSystem.WriteSeekWrite` | kernel/fs/fat/fat.c:1325-1719 | the same for a write, a seek and a further write, for all data and positions |
| `FatSystem.WriteLaw` | kernel/fs/fat/fat.c:1499-1522 | a write to a file that has been written to since it was opened, or at a position above 0, or to an empty file, splices the data into its bytes and releases no cluster; any other write leaves the data alone as the bytes |
| `FatSystem.WriteOver` | kernel/fs/fat/fat.c:1461-1719 | write, seek and write again, for all data and positions: the second write goes over the first one, unless it empties the file, which it does exactly at position 0 of a file that has been written to only behind its start |
| `FatSystem.NewFileWriteOver` | kernel/fs/fat/fat.c:1461-1719 | a new file that is written, rewound and written with less data holds the second data followed by the rest of the first |
| `FatSystem.SpliceParts` | kernel/fs/fat/fat.c:1531-1570 | a splice keeps what lies before the position and behind the data |
| `FatSystem.WriteThenWrite` | kernel/fs/fat/fat.c:1461-1719 | two writes without a seek are permitted if and only if the first does not end on a sector boundary |
| `FatSystem.RunKeepsEmptyReady` | kernel/fs/fat/fat.c:1461-1719 | in every run a file without bytes is ready, because a write to a ready file writes something |
| `FatSystem.AfterSound` | kernel/fs/fat/fat.c:856-2480 | every operation keeps each file within the capacity of its clusters and its position within its bytes |
| `FatSystem.ClustersForExact` | kernel/fs/fat/fat.c:1578-1649 | so many clusters suffice for a number of bytes if and only if they are at least as many as computed |
| `FatSystem.FileSystem.constructor` | kernel/fs/fat/fat.c:199-373 | a volume without open files, with the free clusters that its table records |
| `FatSystem.FileSystem.Perform` | kernel/fs/fat/fat.c:856-2480 | one operation refines one step on the map from files to bytes |
| `FatSystem.FileSystem.Create` | kernel/fs/fat/fat.c:1951-2043 | a new file has the lowest free cluster and no bytes; creation fails if and only if no cluster is free that the search can find; the other files are unchanged |
| `FatSystem.FileSystem.Write` | kernel/fs/fat/fat.c:1461-1719 | the named file is overwritten at its position by as much of the data as its clusters and the free ones hold, and takes the lowest free clusters that it needs; the others are unchanged |
| `FatSystem.FileSystem.Seek` | kernel/fs/fat/fat.c:1325-1380 | the named file has a new position; fails behind the end, and with an I/O error exactly at the end of a file that fills its last cluster |
| `FatSystem.FileSystem.Read` | kernel/fs/fat/fat.c:856-988 | the bytes of the named file from its position on; no file changes its bytes |
| `FatSystem.FileSystem.Truncate` | kernel/fs/fat/fat.c:2340-2480 | the named file is empty and keeps its first cluster; the clusters that the loop frees are free; the others are unchanged |
| `FatSystem.FileSystem.Delete` | kernel/fs/fat/fat.c:2177-2224 | the named file is gone and the clusters that the loop frees are free; the others are unchanged |
| `FatSystem.WriteHeld` | kernel/fs/fat/fat.c:1461-1719 | a write changes one file and the free clusters as its user sees them, and keeps every other file |
| `FatSystem.SeekHeld` | kernel/fs/fat/fat.c:1325-1380 | a seek changes one file as its user sees it |
| `FatSystem.ReadHeld` | kernel/fs/fat/fat.c:856-988 | a read delivers the bytes its user expects |
| `FatSystem.CutHeld` | kernel/fs/fat/fat.c:2340-2480 | a truncation empties one file and keeps every other file |
| `FatSystem.DeleteHeld` | kernel/fs/fat/fat.c:2177-2224 | a deletion keeps every other file |
| `FatSystem.CreateHeld` | kernel/fs/fat/fat.c:1951-2043 | a creation takes the lowest free cluster and fails exactly if there is none; every other file is kept |
| `FatSystem.Wrote` | kernel/fs/fat/fat.c:1526-1719 | how much a write loop has written and which clusters it has taken, computed from the file and the free clusters at its start |
| `FatSystem.WriteTakes` | kernel/fs/fat/fat.c:1591-1649 | a write takes the lowest free clusters that its bytes need, and no more |
| `FatSystem.CutFrees` | kernel/fs/fat/fat.c:2413-2456 | the free clusters after a truncation |
| `FatSystem.DeleteFrees` | kernel/fs/fat/fat.c:2177-2224 | the free clusters after a deletion |
| `FatSystem.CreateTakes` | kernel/fs/fat/fat.c:1951-1989 | the free clusters after a creation |
| `FatSystem.HoldsStill` | kernel/fs/fat/fat.c:1461-2480 | what keeps the chain and the bytes of a file keeps its open handle: position, cursor and buffer |
| `FatSystem.ConsistentStep` | kernel/fs/fat/fat.c:1461-2480 | one file changes and the others are kept: the handles still give all files as their users see them, with disjoint chains |
| `FatSystem.ConsistentWithout` | kernel/fs/fat/fat.c:2177-2224 | the same when one file is gone |
| `Pmm.PageAllocator.BitmapSet` | kernel/mem/pmm.c:20-26 | sets one bit and counts it once |
| `Pmm.PageAllocator.BitmapClear` | kernel/mem/pmm.c:28-34 | clears one bit and uncounts it once |
| `Pmm.PageAllocator.BitmapIsSet` | kernel/mem/pmm.c:36-41 | tells whether a page is in use |
| `Pmm.PageAllocator.ClearBitmap` | kernel/mem/pmm.c:66-68 | no page is in use |
| `Pmm.PageAllocator.Initialize` | kernel/mem/pmm.c:43-79 | exactly the first 2 MiB of pages are in use; the page count is the 32-bit rounded size, and 0 if and only if there is no memory or more than 2^32-4096 bytes |
| `Pmm.PagesForExact` | kernel/mem/pmm.c:47 | the 32-bit page count covers the memory if and only if that is at most 2^32-4096 bytes; larger sizes wrap to no page |
| `Pmm.PageAllocator.ReservePages` | kernel/mem/pmm.c:70-75 | exactly the first n pages are in use |
| `Pmm.PageAllocator.AllocatePage` | kernel/mem/pmm.c:83-99 | returns the lowest free page without 32-bit overflow and marks it, or 0 when all pages are in use |
| `Pmm.PageAllocator.FreePage` | kernel/mem/pmm.c:101-112 | frees exactly the page at an aligned address in range and ignores every other address |
| `Pmm.PageAllocator.IsPageFree` | kernel/mem/pmm.c:114-122 | true exactly for aligned addresses in range whose page is not in use |
| `Pmm.PageAllocator.FreePages` | kernel/mem/pmm.c:124-128 | free and allocated pages add up to all pages |
| `Pmm.Run` | kernel/mem/pmm.c:83-112 | over every run that never frees a reserved page, the used pages are the reserved ones and the held ones, and held pages lie above 2 MiB |
| `Pmm.AllocationFresh` | kernel/mem/pmm.c:83-99 | a page handed out is not held by anyone else |
| `Pmm.UsedBound` | kernel/mem/pmm.c:124-128 | at most all pages are in use |
| `Paging.OrFlag` | kernel/arch/i686/mem/paging.c:206-214 | adding an access flag keeps the frame, the present bit and the other flag |
| `Paging.MakePte` | kernel/arch/i686/mem/paging.c:216-217 | an entry holds the frame of the physical address, the low flags that are asked for, with the writable and user bits among them, and is always present |
| `Paging.AddressIndices` | kernel/arch/i686/mem/paging.c:181-216 | the directory and table indices that the code extracts are those of the page |
| `Paging.PrivateTable` | kernel/arch/i686/mem/paging.c:156-171 | a page table under a directory entry that the kernel directory lacks is shared with no other directory |
| `Paging.PrivateUpdate` | kernel/arch/i686/mem/paging.c:199-231 | updating a page under a directory entry that the kernel directory lacks changes no translation of any other directory |
| `Paging.StorePte` | kernel/arch/i686/mem/paging.c:199-220 | a page-table store changes the translation of one page, in exactly the directories that share the table |
| `Paging.StorePdeFlags` | kernel/arch/i686/mem/paging.c:206-214 | widening directory flags changes no translation |
| `Paging.StoreData` | kernel/arch/i686/mem/paging.c:93-117 | overwriting a frame that is no directory and no table changes no translation |
| `Paging.InstallTable` | kernel/arch/i686/mem/paging.c:179-197 | installing a zeroed fresh frame as page table changes no translation and keeps all tables apart |
| `Paging.InstallDirectory` | kernel/arch/i686/mem/paging.c:156-171 | a copy of the kernel directory in a fresh frame translates like the kernel and changes no other directory |
| `Paging.TableTaken` | kernel/arch/i686/mem/paging.c:179-197 | the only frame taken is the new table, which was free, and it is shared with nobody |
| `Paging.Mmu.constructor` | kernel/arch/i686/mem/paging.c:137-152 | paging starts with an empty kernel directory in a fresh frame |
| `Paging.Mmu.AllocFrame` | kernel/arch/i686/mem/paging.c:55-91 | hands out a free frame, or 0 exactly when memory is exhausted |
| `Paging.Mmu.EnsureTable` | kernel/arch/i686/mem/paging.c:179-197 | finds or creates the page table; fails exactly when it is missing and memory is exhausted; no translation changes; a new directory entry is writable and not for users, and no data in use changes |
| `Paging.Mmu.AddTable` | kernel/arch/i686/mem/paging.c:93-104 | creates a page table from a fresh frame, or fails and changes nothing |
| `Paging.Mmu.AddPdeFlags` | kernel/arch/i686/mem/paging.c:206-214 | the directory entry has an access bit afterwards exactly if it had it or it is asked for; nothing else changes |
| `Paging.Mmu.StoreEntry` | kernel/arch/i686/mem/paging.c:216-219 | updates the page-to-frame map at one page |
| `Paging.Mmu.MapPage` | kernel/arch/i686/mem/paging.c:199-220 | map update: the page translates to the new entry and all other translations stay, in the directories that share the table; outside the kernel's tables no translation of any other directory changes; only page tables are taken; fails exactly when a table is needed and memory is exhausted; the entry looked up has the frame, the present bit and the requested low flags, the directory entry has the requested access bits and loses none, the page permits writing and user access exactly if the flags ask for it, and no data frame in use changes |
| `Paging.PermitsExact` | kernel/arch/i686/mem/paging.c:206-217 | a page whose entry has the requested bits, under a directory entry widened by them, permits exactly what the flags ask for |
| `Paging.AccessSteps` | kernel/arch/i686/mem/paging.c:179-217 | a new directory entry is writable and not for users, and widening adds exactly the requested bits |
| `Paging.DataKeptStep` | kernel/arch/i686/mem/paging.c:199-231 | writing to directories and page tables changes no data in use |
| `Paging.Mmu.UnmapPage` | kernel/arch/i686/mem/paging.c:222-231 | map removal: the page has no translation, everything else stays; outside the kernel's tables no translation of any other directory changes; only page tables are written to |
| `Paging.Mmu.GetPhysicalAddress` | kernel/arch/i686/mem/paging.c:233-242 | map lookup: frame and offset of the translation, or 0 |
| `Paging.Mmu.CreatePageDirectory` | kernel/arch/i686/mem/paging.c:156-171 | a new address space with exactly the translations of the kernel, in a fresh frame; all others unchanged; 0 exactly when memory is exhausted |
| `Paging.Mmu.CopyDirectory` | kernel/arch/i686/mem/paging.c:165-169 | copies all 1024 entries |
| `Vmm.NumPagesCover` | kernel/mem/vmm.c:57-58 | the 32-bit page count covers the request if and only if the size is at most 2^32-4096; larger sizes wrap to no page; there is never a page too many |
| `Vmm.WrapTest` | kernel/mem/vmm.c:72-75 | the comparison with the old bump value detects exactly the additions that wrapped around |
| `Vmm.MappingStep` | kernel/mem/vmm.c:87-111 | mapping one more page to a fresh frame keeps: earlier pages mapped, frames distinct and previously free, other pages and address spaces unchanged |
| `Vmm.AccessStep` | kernel/mem/vmm.c:86-112 | mapping one more page with the same flags keeps the access to the pages before it |
| `Vmm.PageAccessKept` | kernel/mem/vmm.c:86-112 | widening a directory entry for pages with the same flags leaves their access as it was |
| `Vmm.FreshStep` | kernel/mem/vmm.c:86-112 | one more fresh page keeps the mapping, the access to all pages so far and their zero contents |
| `Vmm.ZeroedKept` | kernel/mem/vmm.c:107-111 | new zero pages stay zero when the next page is mapped |
| `Vmm.ReleaseKeepsData` | kernel/mem/vmm.c:116-126 | mapping and rolling back changes no data that was in use before |
| `Vmm.MappingReleasable` | kernel/mem/vmm.c:117-125 | the frames behind a fresh mapping are no directories, no tables and not frame 0 |
| `Vmm.ReleasedStep` | kernel/mem/vmm.c:143-153 | unmapping one more page and freeing its frame changes nothing else in any address space |
| `Vmm.ReleaseUndoes` | kernel/mem/vmm.c:116-155 | releasing a fresh mapping of a previously unmapped range restores all translations of all address spaces and frees every data frame; only page tables stay taken |
| `Vmm.CoveredAbsent` | kernel/mem/vmm.c:86-112 | a page of a range needs a new page table exactly if it is the first one under its directory entry and the entry was absent before the range was mapped |
| `Vmm.VirtualMemory.constructor` | kernel/mem/vmm.c:15-17 | the kernel window starts at the architecture base |
| `Vmm.VirtualMemory.MapFresh` | kernel/mem/vmm.c:89-111 | allocates, maps and zeroes one page; succeeds exactly if a frame for it, and one for a missing page table, are free; on failure the frame is given back; the page has the requested flags and is zero in the current address space |
| `Vmm.VirtualMemory.MapRange` | kernel/mem/vmm.c:86-112 | maps fresh pages up to the first failure; complete if and only if the free frames suffice for the pages and for the page tables the range lacks |
| `Vmm.VirtualMemory.Rollback` | kernel/mem/vmm.c:116-125 | unmaps every page mapped so far and frees its frame |
| `Vmm.VirtualMemory.Attempt` | kernel/mem/vmm.c:86-126 | all or nothing: every page mapped if and only if memory has room, else everything rolled back |
| `Vmm.VirtualMemory.AllocateInDir` | kernel/mem/vmm.c:51-127 | succeeds if and only if the size is not 0, the address window has room and memory has room for the pages and the missing page tables; then every page of a fresh range is mapped to pairwise distinct, previously free frames and the bump pointer has moved past the range; on failure translations are as before and only page tables stay taken; every page of the range permits writing and user access exactly if the flags ask for it, is zero if the address space is the current one, lies in the kernel window or below 3 GiB, and no data in use changes, whether or not the call succeeds |
| `Vmm.VirtualMemory.Reserve` | kernel/mem/vmm.c:60-82 | moves the bump pointer past the range exactly if the range fits the window without 32-bit wrap-around |
| `Vmm.VirtualMemory.ReleasePage` | kernel/mem/vmm.c:143-153 | unmaps one mapped page and frees its frame |
| `Vmm.VirtualMemory.ReleaseIfMapped` | kernel/mem/vmm.c:143-153 | skips a page that is not mapped |
| `Vmm.VirtualMemory.FreeInDir` | kernel/mem/vmm.c:134-155 | exactly the pages of the range lose their translation and exactly their frames become free; freeing a fresh mapping of a previously unmapped range restores all translations of all address spaces, only page tables stay taken; a null address is ignored |
| `Vmm.VirtualMemory.ReleaseRange` | kernel/mem/vmm.c:143-153 | releases the mapped ones of a range of pages |
| `Vmm.MappedToStep` | kernel/mem/vmm.c:171-183 | mapping one more page to a chosen frame keeps the earlier pages and everything outside the range |
| `Vmm.DropUndoes` | kernel/mem/vmm.c:188-194 | unmapping a range that was unmapped before it was mapped restores all translations; only page tables stay taken |
| `Vmm.DropKeepsData` | kernel/mem/vmm.c:171-194 | mapping and unmapping changes no data that was in use before |
| `Vmm.FramesAt` | kernel/mem/vmm.c:171-176 | page i of a range is mapped to frame pa/4096 + i modulo 2^20 |
| `Vmm.VirtualMemory.MapFrames` | kernel/mem/vmm.c:170-184 | maps consecutive frames up to the first failure; complete if and only if the free frames suffice for the page tables the range lacks |
| `Vmm.VirtualMemory.Drop` | kernel/mem/vmm.c:202-216 | exactly the pages of the range lose their translation; no frame is freed |
| `Vmm.VirtualMemory.MapInDir` | kernel/mem/vmm.c:162-195 | succeeds if and only if the free frames suffice for the missing page tables; then every page of the range is mapped to its frame and nothing else changes; on failure all translations of a previously unmapped range are as before; every page has the requested flags and the frame at its place in the physical range, modulo 2^20; no data in use changes |
| `VmmRuns.AddressSpaces.constructor` | kernel/mem/vmm.c:15-17 | at the start no allocation is live |
| `VmmRuns.AddressSpaces.Allocate` | kernel/mem/vmm.c:51-127 | over every run, in several address spaces: a range that is handed out becomes live, and every frame in use is an initial one, a page table, or behind exactly one page of exactly one live range; the contents of all other live ranges stay |
| `VmmRuns.AddressSpaces.Free` | kernel/mem/vmm.c:134-155 | giving a live range back takes exactly that range from the live ones and keeps the account of all frames and the contents behind the live ones |
| `VmmRuns.AddressSpaces.Map` | kernel/mem/vmm.c:162-195 | mapping chosen frames where nothing is mapped, or failing to, keeps every live range and the account of all frames and the contents behind live ranges |
| `VmmRuns.RangesApart` | kernel/mem/vmm.c:51-127 | live ranges of one address space do not overlap |
| `VmmRuns.NothingLeaks` | kernel/mem/vmm.c:116-155 | when everything has been given back, only the initial frames and page tables are in use |
| `VmmRuns.StillBacked` | kernel/mem/vmm.c:86-155 | a range keeps its frames when pages change that it does not see, also in address spaces that share page tables |
| `VmmRuns.AllocationAccounted` | kernel/mem/vmm.c:86-112 | a new range of fresh frames keeps the account |
| `VmmRuns.ReleaseAccounted` | kernel/mem/vmm.c:143-153 | giving a range back keeps the account |
| `VmmRuns.LiveData` | kernel/mem/vmm.c:51-155 | the frames behind live ranges are data in use, so they keep their contents |
| `Scheduler.Pick` | kernel/cpu/scheduler.c:76-95 | selects a process that is ready or running and nearest to the scan position among these; none exactly when there is none |
| `Scheduler.PickSkips` | kernel/cpu/scheduler.c:86-89 | whoever is passed over is blocked, has exited or waits for a child |
| `Scheduler.AfterIs` | kernel/cpu/scheduler.c:92 | the next scan starts at the following index, or at 0 behind the last one |
| `Scheduler.SelectionAdvances` | kernel/cpu/scheduler.c:76-95 | selecting another process brings every process that can run strictly closer to its turn, by a measure that registrations do not change |
| `Scheduler.BoundedWaiting` | kernel/cpu/scheduler.c:25-95 | a process that stays able to run is selected within 128 selections, whatever registrations and state changes happen in between |
| `Scheduler.BoundedWaitingAlways` | kernel/cpu/scheduler.c:25-95 | a process that stays able to run is passed over less than 128*128 times in a row, in every run of registrations, state changes, removals of others and selections |
| `Scheduler.WaitShrinks` | kernel/cpu/scheduler.c:25-95 | no such event makes the remaining wait longer, and selecting another process makes it shorter |
| `Scheduler.RemovalDelays` | kernel/cpu/scheduler.c:47-74 | a removal brings a process farther from its turn if and only if it is the one whose turn is next, the removed one stood before it, and more than two processes were queued |
| `Scheduler.RunQueue.constructor` | kernel/cpu/scheduler.c:13-23 | the table starts empty |
| `Scheduler.RunQueue.Register` | kernel/cpu/scheduler.c:25-45 | appends the process unless it is null, registered or the table is full; the table stays duplicate-free |
| `Scheduler.RunQueue.Unregister` | kernel/cpu/scheduler.c:47-74 | removes exactly that process, keeps the order of the others and the scan position in range |
| `Scheduler.RunQueue.Compact` | kernel/cpu/scheduler.c:53-70 | closes one gap and keeps the order |
| `Scheduler.RunQueue.Scan` | kernel/cpu/scheduler.c:81-94 | the loop with the modulo index computes the nearest runnable process |
| `Scheduler.RunQueue.GetNextRunnable` | kernel/cpu/scheduler.c:76-95 | stores a process that is ready or running, or nothing exactly if all are blocked, exited or waiting; all that the scan has passed over are; the scan position moves behind the selected one |
| `Scheduler.RunQueue.SetProcessState` | kernel/cpu/scheduler.c:97-106 | a running current process becomes ready |
| `Lifecycle.IndexOf` | kernel/cpu/core.c:51-61 | the first process with the given pid |
| `Lifecycle.FirstZombie` | kernel/cpu/core.c:195-201 | the first matching child that has exited |
| `Lifecycle.ScheduleSelects` | kernel/cpu/scheduler.c:97-118 | scheduling selects a process if and only if one is ready or running: the first of these in scanning order becomes current and running, a running one becomes ready, nobody else changes; blocked, waiting and exited processes are never selected |
| `Lifecycle.OnlyReadyBecomeCurrent` | kernel/cpu/scheduler.c:76-118 | in every state of every run the current process changes only by scheduling and the new one was ready; no blocked, waiting or exited process becomes current or is changed by scheduling |
| `Lifecycle.WaitOutcome` | kernel/cpu/core.c:190-219 | a wait reaps if and only if a child that it asks for has exited, reports that there is no child if and only if there is none to ask for, and otherwise makes the caller wait |
| `Lifecycle.WaitReaps` | kernel/cpu/core.c:195-211 | the child reaped is the first one in the table that is asked for and has exited; it leaves the table and the others stay in order |
| `Lifecycle.UnblockEffect` | kernel/cpu/core.c:237-246 | a blocked process becomes running if it is the current one and ready otherwise; nobody else changes |
| `Lifecycle.WakeEffect` | kernel/cpu/core.c:248-263 | exactly the processes blocked on the channel are woken, and nobody is blocked on it afterwards |
| `Lifecycle.BlockThenWake` | kernel/cpu/core.c:229-263 | a current process that blocks on a channel and is woken through it runs on as before |
| `Lifecycle.ScheduleKeepsInv` | kernel/cpu/scheduler.c:97-118 | scheduling keeps the lifecycle invariant |
| `Lifecycle.CreateKeepsInv` | kernel/cpu/fork.c:46-61 | a new process gets a fresh pid and keeps the invariant, whether or not it fits into the table |
| `Lifecycle.LostPidKeepsInv` | kernel/cpu/fork.c:49-76 | a creation that fails after it has taken a pid uses the pid up and keeps the invariant |
| `Lifecycle.ExitedEffect` | kernel/cpu/core.c:170-182 | an exit changes the exiting process and wakes its parent if that waits, and nobody else |
| `Lifecycle.ExitKeepsWaits` | kernel/cpu/core.c:170-182 | no wakeup is lost by an exit |
| `Lifecycle.ExitKeepsInv` | kernel/cpu/core.c:170-182 | an exit keeps the lifecycle invariant |
| `Lifecycle.ScanKeepsInv` | kernel/cpu/core.c:184-225 | a scan that finds no exited child keeps the invariant: it waits only if a matching child lives |
| `Lifecycle.ReapKeepsWaits` | kernel/cpu/core.c:203-211 | reaping removes no child that another process waits for |
| `Lifecycle.ReapConserves` | kernel/cpu/core.c:203-211 | the reaped process moves from the table to the log with its own exit code and parent, once |
| `Lifecycle.ReapKeepsInv` | kernel/cpu/core.c:203-211 | reaping keeps the lifecycle invariant |
| `Lifecycle.BlockOnKeepsInv` | kernel/cpu/core.c:229-235 | blocking keeps the lifecycle invariant |
| `Lifecycle.UnblockKeepsInv` | kernel/cpu/core.c:237-246 | unblocking keeps the lifecycle invariant: only the current process may run again at once |
| `Lifecycle.WakeKeepsInv` | kernel/cpu/core.c:248-263 | waking a channel keeps the lifecycle invariant |
| `Lifecycle.StepKeepsInv` | kernel/cpu/core.c:170-263 | every event keeps: unique pids, one running process at most, no process waiting while a matching zombie is registered or without a matching child, exact exit records, reaping at most once, every pid queued, reaped or lost by a creation that failed |
| `Lifecycle.RunKeepsInv` | kernel/cpu/core.c:170-263 | every state of every run satisfies that invariant, and no successful wait is forgotten |
| `Lifecycle.ReapedForGood` | kernel/cpu/core.c:184-225 | in every later state of every run a wait for a reaped pid reports that there is no such child, and no wait returns the pid again |
| `Lifecycle.OrphanForGood` | kernel/cpu/core.c:170-225 | an exited process whose parent was reaped, was never queued or is 0 stays in the table as a zombie in every later state of every run |
| `Lifecycle.OrphanStays` | kernel/cpu/core.c:170-263 | no event removes such a process |
| `Lifecycle.StepRecords` | kernel/cpu/core.c:170-263 | the records of waits, exits and lost pids only grow, and only a registered process reaps |
| `Processes.ProcessManager.constructor` | kernel/cpu/core.c:15-17 | the process table starts in the boot state of the state machine |
| `Processes.ProcessManager.Create` | kernel/cpu/fork.c:46-172 | allocating a pid and registering refines the creation step |
| `Processes.ProcessManager.AllocatePid` | kernel/cpu/core.c:122 | takes the next pid |
| `Processes.ProcessManager.FindByPid` | kernel/cpu/core.c:51-61 | the search loop returns the process with that pid |
| `Processes.ProcessManager.Exit` | kernel/cpu/core.c:170-182 | refines the exit step |
| `Processes.ProcessManager.WakeIfWaiting` | kernel/cpu/core.c:177-181 | the parent becomes ready exactly if it waits |
| `Processes.ProcessManager.BlockOn` | kernel/cpu/core.c:229-235 | refines the blocking step |
| `Processes.ProcessManager.Unblock` | kernel/cpu/core.c:237-246 | refines the unblocking step |
| `Processes.ProcessManager.WakeByChannel` | kernel/cpu/core.c:248-263 | the loop wakes exactly the processes blocked on the channel |
| `Processes.ProcessManager.ScanChildren` | kernel/cpu/core.c:192-201 | the loop finds the first exited matching child, or tells whether there is a matching child |
| `Processes.ProcessManager.Destroy` | kernel/cpu/core.c:137-168 | the process leaves the table; the current process is cleared if it was the one |
| `Processes.ProcessManager.Reap` | kernel/cpu/core.c:203-211 | returns pid and exit code of the child and removes it |
| `Processes.ProcessManager.WaitScan` | kernel/cpu/core.c:190-219 | one turn of the wait loop refines the wait step |
| `Processes.ProcessManager.YieldCurrent` | kernel/cpu/scheduler.c:97-106 | refines giving up the processor |
| `Processes.ProcessManager.Dispatch` | kernel/cpu/scheduler.c:111-117 | refines selecting and switching |
| `Processes.ProcessManager.Schedule` | kernel/cpu/scheduler.c:108-118 | refines the scheduling step |
| `Descriptors.CountUpdate` | kernel/fs/fd/fd.c:143-163 | overwriting a slot takes one reference from the old descriptor and gives one to the new |
| `Descriptors.InstalledKeepsInv` | kernel/fs/fd/fd.c:133-139 | a newly opened file has exactly one reference |
| `Descriptors.RejectedKeepsInv` | kernel/fs/fd/fd.c:96-101 | a file opened but refused is closed at once, once |
| `Descriptors.ClosedKeepsInv` | kernel/fs/fd/fd.c:143-163 | closing a slot keeps all counts exact and closes the file if and only if it was the last slot that held it |
| `Descriptors.InheritedKeepsInv` | kernel/cpu/fork.c:163-167 | inheriting a slot keeps all counts exact |
| `Descriptors.ClosedFrom` | kernel/fs/fd/fd.c:251-261 | closing all slots of one process empties its table, leaves all other tables alone and keeps the invariant |
| `Descriptors.InheritedFrom` | kernel/cpu/fork.c:163-167 | the inheritance loop gives the child the parent's slots and keeps the invariant |
| `Descriptors.ForkedTables` | kernel/cpu/fork.c:163-167 | after a fork the child holds exactly the files of its parent and all other tables are unchanged |
| `Descriptors.StandardFrom` | kernel/cpu/core.c:20-49 | standard input, output and error are opened where missing; other slots are unchanged |
| `Descriptors.OpenedKeepsInv` | kernel/fs/fd/fd.c:47-140 | every outcome of an open call keeps the invariant |
| `Descriptors.Step` | kernel/fs/fd/fd.c:14-261 | every spawn, fork, open, close and destroy keeps: each reference count equals the number of slots, no slot holds a released descriptor, every opened file is live or closed exactly once |
| `Descriptors.Run` | kernel/fs/fd/fd.c:14-261 | that invariant holds after every run, and the log of closes only grows |
| `Descriptors.AllClosed` | kernel/fs/fd/fd.c:143-163 | when no slot is used any more, every file ever opened has been closed exactly once |
| `Descriptors.FirstFree` | kernel/fs/fd/fd.c:31-44 | the first empty slot from 3 on |
| `Descriptors.FileTable.constructor` | kernel/fs/fd/fd.c:14-18 | no descriptor is live at the start |
| `Descriptors.FileTable.FindFree` | kernel/fs/fd/fd.c:31-44 | the loop returns the first empty slot from 3 to 15, or -1 exactly if there is none |
| `Descriptors.FileTable.Open` | kernel/fs/fd/fd.c:47-140 | refines the open step for every answer of memory, file system and permissions |
| `Descriptors.FileTable.Close` | kernel/fs/fd/fd.c:143-163 | refines the close step; bad descriptors are refused |
| `Descriptors.FileTable.CloseAll` | kernel/fs/fd/fd.c:251-261 | refines closing all slots |
| `Descriptors.FileTable.Fork` | kernel/cpu/fork.c:163-167 | refines the fork step |
| `Descriptors.FileTable.InheritAll` | kernel/cpu/fork.c:163-167 | the loop inherits every slot |
| `Descriptors.FileTable.InheritSlot` | kernel/cpu/fork.c:163-167 | copies one slot and retains its file |
| `Descriptors.FileTable.InitializeStandardIO` | kernel/cpu/core.c:20-49 | refines opening the standard descriptors |
| `Sha1.Select` | kernel/crypto/sha1.c:52-74 | the round functions written with "or" equal Ch and Maj of FIPS 180-4; the constant k of the step satisfies k*k <= p * 2^60 < (k+1)*(k+1) for p = 2, 3, 5 and 10 |
| `Sha1.Roots` | kernel/crypto/sha1.c:52-74 | the four constants are the integral parts of the square roots of 2, 3, 5 and 10, times 2^30 |
| `Sha1.Schedule` | kernel/crypto/sha1.c:33-42 | the table holds the message schedule |
| `Sha1.RunRounds` | kernel/crypto/sha1.c:44-83 | the loop over five registers computes the 80 rounds of section 6.1.2 of FIPS 180-4 |
| `Sha1.Transform` | kernel/crypto/sha1.c:31-91 | compresses one block |
| `Md5.DecodeBlock` | kernel/crypto/md5.c:29-41 | the block is decoded into little-endian words |
| `Md5.FourSteps` | kernel/crypto/md5.c:61-127 | four steps with registers in fixed places equal four rotating steps of RFC 1321 |
| `Md5.Listed` | kernel/crypto/md5.c:61-127 | the words and rotations written down in the 64 steps of the code are those of RFC 1321 |
| `Md5.CodeStep` | kernel/crypto/md5.c:55-59 | a step of the code is a step of RFC 1321 |
| `Md5.RunRounds` | kernel/crypto/md5.c:61-127 | the 64 steps of the code, with its own list of words and rotations, compute section 3.4 of RFC 1321 |
| `Md5.Transform` | kernel/crypto/md5.c:43-137 | compresses one block |
| `Hashing.ZeroCountLeast` | kernel/crypto/md5.c:190-193 | the padding is the least one that leaves eight bytes for the length |
| `Hashing.PadLength` | kernel/crypto/md5.c:182-193 | the first bytes of the constant padding block are the padding of the standard |
| `Hashing.FillLevel` | kernel/crypto/md5.c:156 | the fill level computed from the wrapped 64-bit bit count is the message length modulo 64 |
| `Hashing.CountAdd` | kernel/crypto/sha1.c:115 | the 64-bit bit count wraps consistently |
| `Hashing.JoinBlock` | kernel/crypto/md5.c:162-165 | buffered bytes and the head of the data form the next block of the joint message |
| `Hashing.JoinTail` | kernel/crypto/md5.c:167-175 | what remains after the last whole block is the rest of the joint message |
| `Hashing.UpdateTerminates` | kernel/crypto/md5.c:167-170 | the bound is exact: the block loop of an update comes to its end if and only if fill level plus length is below 2^32 |
| `Hashing.CounterCycles` | kernel/crypto/md5.c:167-170 | from fill level plus length 2^32 on, the 32-bit index returns to its first value and the loop test holds in every turn |
| `Hashing.Context.constructor` | kernel/crypto/md5.c:139-149 | an initialised context has absorbed the empty message |
| `Hashing.Context.Fill` | kernel/crypto/md5.c:164-175 | copies bytes into the buffer |
| `Hashing.Context.Transform` | kernel/crypto/sha1.c:119-125 | one more block is folded into the state |
| `Hashing.Context.CompleteBlock` | kernel/crypto/md5.c:162-165 | the completed block is folded into the state |
| `Hashing.Context.Blocks` | kernel/crypto/md5.c:167-170 | folds all whole blocks of the data; the 32-bit loop test does not wrap as long as fill level plus length is below 2^32 |
| `Hashing.Context.Buffer` | kernel/crypto/sha1.c:130 | data that completes no block is buffered |
| `Hashing.Context.Absorb` | kernel/crypto/sha1.c:117-130 | data that completes blocks is folded and its rest buffered |
| `Hashing.Context.Update` | kernel/crypto/md5.c:151-176 | the context has absorbed the message with the data appended, for any fill level and every length that keeps fill level plus length below 2^32 |
| `Hashing.Context.Final` | kernel/crypto/md5.c:178-199 | returns the digest of the standard for everything absorbed, and wipes the context |
| `Hashing.EncodeWords` | kernel/crypto/sha1.c:9-23 | the words in the byte order of the algorithm |
| `Hashing.Calculate` | kernel/crypto/sha1.c:155-162 | the digest of the data, for every 32-bit length: fold of the compression function over the padded message |
| `Hashing.DigestOfChunks` | kernel/crypto/sha1.c:106-153 | the digest does not depend on how the message is split into updates |
| `SelfTests.Md5SelfTest` | kernel/crypto/md5.c:225-248 | the self-test succeeds: the digests of "" and "abc", in hexadecimal, are those that the code expects |
| `SelfTests.Sha1SelfTest` | kernel/crypto/sha1.c:179-201 | the same for SHA-1 |
| `SelfTests.ToHex` | kernel/crypto/md5.c:210-223 | the text has the two digits of each byte, the higher one first |
| `SelfTests.EmptyDigest` | kernel/crypto/md5.c:229 | MD5 of "", as in section A.5 of RFC 1321 |
| `SelfTests.OneDigest` | kernel/crypto/md5.c:201-208 | MD5 of "a", as in section A.5 of RFC 1321 |
| `SelfTests.AbcDigest` | kernel/crypto/md5.c:230 | MD5 of "abc", as in section A.5 of RFC 1321 |
| `SelfTests.TextDigest` | kernel/crypto/md5.c:201-208 | MD5 of "message digest", as in section A.5 of RFC 1321 |
| `SelfTests.LettersDigest` | kernel/crypto/md5.c:201-208 | MD5 of the lower-case alphabet, as in section A.5 of RFC 1321 |
| `SelfTests.MixedDigest` | kernel/crypto/md5.c:201-208 | MD5 of all letters and digits, a message of two blocks, as in section A.5 of RFC 1321 |
| `SelfTests.DigitsDigest` | kernel/crypto/md5.c:201-208 | MD5 of eighty digits, a message of two blocks, as in section A.5 of RFC 1321 |
| `SelfTests.Sha1EmptyDigest` | kernel/crypto/sha1.c:183 | SHA-1 of "" |
| `SelfTests.Sha1AbcDigest` | kernel/crypto/sha1.c:184 | SHA-1 of "abc", as in the examples of FIPS 180 |
| `SelfTests.PaddedAt` | kernel/crypto/md5.c:178-193 | each byte of a padded message: the message, 0x80, zeros, and the length with its lowest byte first in MD5 and last in SHA-1 |
| `Words.BytesOf` | kernel/crypto/md5.c:13-27 | the bytes of a word are those it was made of |
| `UserStack.CopyVector` | kernel/cpu/exec.c:200-226 | succeeds with an exact copy if and only if there are not too many strings and each is short enough |
| `UserStack.PushStrings` | kernel/cpu/exec.c:253-267 | the strings lie one after the other below the start, and the recorded addresses are theirs |
| `UserStack.PushWords` | kernel/cpu/exec.c:271-294 | the words lie in order below the start |
| `UserStack.Build` | kernel/cpu/exec.c:228-305 | fails exactly for unacceptable vectors; otherwise memory from the 4-aligned stack pointer to the stack end is exactly entry words, argument vector, environment vector and strings, a program reading from the stack pointer decodes the given count and strings, and nothing else changes; an image of at most 64 KiB leaves everything below the mapped stack alone; the count is the first byte at the stack pointer, followed by three zero bytes |
| `UserStack.FitsExactly` | kernel/cpu/exec.c:228-305 | the image leaves everything below the mapped stack alone, whatever was there, if and only if it is at most 64 KiB long |
| `UserStack.LongVectorOverflows` | kernel/cpu/exec.c:200-226 | the failing input: sixty-four arguments of the greatest accepted length do not fit |
| `UserStack.BuildImage` | kernel/cpu/exec.c:246-299 | all parts of the image are in place |
| `UserStack.PushVectors` | kernel/cpu/exec.c:269-294 | vectors and entry words are in place below the strings |
| `UserStack.PartsLaid` | kernel/cpu/exec.c:253-294 | each part stays in place while the parts below it are pushed |
| `UserStack.LaidDecodes` | kernel/cpu/exec.c:228-305 | round trip: a program reading from the stack pointer finds the argument count and two null-terminated vectors whose pointers lead to exactly the given strings |
| `UserStack.EntryBytes` | kernel/cpu/exec.c:288-294 | the entry words in bytes, the lowest first: the argument count and the addresses of both vectors, which follow each other |
| `UserStack.VectorDecodes` | kernel/cpu/exec.c:271-287 | a pushed vector decodes to its strings and a null pointer |
| `UserStack.WordRoundTrip` | kernel/cpu/exec.c:271-294 | a stored word reads back |
| `UserStack.LayoutOf` | kernel/cpu/exec.c:246-299 | the parts of the image are ordered without overlap, 4-aligned, and need no more than the stated room |
| `Mounts.NormalizedClean` | kernel/fs/vfs/vfs.c:52-75 | a mount location yields a clean mount point if and only if cutting it at 255 characters leaves no slash at its end |
| `Mounts.CoversExact` | kernel/fs/vfs/vfs.c:86-100 | a mount point covers the paths that equal it or continue it with a slash; one that ends in a slash covers all that it begins |
| `Mounts.NoSibling` | kernel/fs/vfs/vfs.c:86-100 | a mount point does not capture a sibling whose name it begins |
| `Mounts.BestUnique` | kernel/fs/vfs/vfs.c:77-106 | with distinct mount points the longest match is unique |
| `Mounts.OrderIndependent` | kernel/fs/vfs/vfs.c:77-106 | matching does not depend on the order of the table |
| `Mounts.RemovalLocal` | kernel/fs/vfs/vfs.c:233-250 | removing an entry changes the resolution of exactly the paths whose best match it was |
| `Mounts.RemovalLocalAll` | kernel/fs/vfs/vfs.c:233-250 | the same for all paths at once |
| `Mounts.CompactedEntries` | kernel/fs/vfs/vfs.c:239-243 | moving the last entry into the gap removes one entry and keeps all others |
| `Mounts.RelativeExact` | kernel/fs/vfs/vfs.c:108-147 | for a path below a mount point other than the root, mount point and relative path together are the path if and only if the tail is shorter than 256 characters; below the root a path with a second slash behaves alike, any other comes back unchanged if it is shorter than 256 characters and is refused otherwise |
| `Mounts.Relative` | kernel/fs/vfs/vfs.c:120-143 | the relative path is always absolute; it fails exactly when a slash cannot be prepended |
| `Mounts.MountTable.Normalize` | kernel/fs/vfs/vfs.c:52-75 | the loop strips trailing slashes and rejects relative locations |
| `Mounts.MountTable.Match` | kernel/fs/vfs/vfs.c:77-106 | the best-so-far loop returns the longest mount point that covers the path at a component boundary, and no other entry is as long; stated in characters as well: the path equals the point or continues it with a slash, and no entry of that kind is longer |
| `Mounts.MountTable.Resolve` | kernel/fs/vfs/vfs.c:108-147 | partition of the best match and path below it; no match and overlong tails are the only errors |
| `Mounts.MountTable.Mount` | kernel/fs/vfs/vfs.c:149-231 | appends the entry exactly when the volume is mountable, the table has room and the normalized point is unused |
| `Mounts.MountTable.Umount` | kernel/fs/vfs/vfs.c:233-250 | removes the first entry of the volume by moving the last one down; exactly the paths whose best match it was resolve differently |
| `Tty.Ring.Push` | kernel/drivers/tty/tty.c:28-35 | appends to the queue unless it is full |
| `Tty.Ring.Pop` | kernel/drivers/tty/tty.c:37-44 | takes the oldest byte, or -1 when empty |
| `Tty.WholeLines` | kernel/drivers/tty/tty.c:230-317 | in canonical mode the edited line has no newline and everything committed is a sequence of whole lines |
| `Tty.EraseUndoes` | kernel/drivers/tty/tty.c:103-140 | typing an ordinary character and erasing it restores the line if and only if the line was not full |
| `Tty.OrdinaryTyped` | kernel/drivers/tty/tty.c:130-135 | ordinary characters are collected in the line, up to 255 of them, and nothing is committed |
| `Tty.LineEnds` | kernel/drivers/tty/tty.c:230-317 | what ends a line of ordinary characters: newline, and carriage return in its mode, commit it, end of input commits it unless it is empty, kill and interrupt discard it, suspend leaves it |
| `Tty.RawCommits` | kernel/drivers/tty/tty.c:230-317 | without line editing and signal characters every byte is committed as it is, except a carriage return that stands for a newline |
| `Tty.Terminal.constructor` | kernel/drivers/tty/tty.c:169-197 | a new terminal has no input |
| `Tty.Terminal.PushAll` | kernel/drivers/tty/tty.c:72-76 | bytes are queued as far as there is room |
| `Tty.Terminal.LineFlush` | kernel/drivers/tty/tty.c:70-82 | commits the edited line with a newline |
| `Tty.Terminal.LineErase` | kernel/drivers/tty/tty.c:103-112 | removes the last character of the line |
| `Tty.Terminal.LineKill` | kernel/drivers/tty/tty.c:122-128 | empties the line |
| `Tty.Terminal.LineAdd` | kernel/drivers/tty/tty.c:130-135 | appends to the line unless it holds 255 characters |
| `Tty.Terminal.Handle` | kernel/drivers/tty/tty.c:230-317 | one character has exactly the effect of the pure line editor in every mode |
| `Tty.Terminal.HandleSignal` | kernel/drivers/tty/tty.c:239-280 | interrupt, end of input and suspend have the effect of the line editor |
| `Tty.Terminal.HandleCanonical` | kernel/drivers/tty/tty.c:283-308 | erase, kill, newline and ordinary characters have the effect of the line editor |
| `Tty.Terminal.InputChar` | kernel/drivers/tty/tty.c:230-317 | keeps the stream invariant: bytes delivered, queued and dropped account for everything the editor has committed, and without drops the delivered bytes followed by the queue equal it |
| `Tty.Terminal.TakeFromQueue` | kernel/drivers/tty/tty.c:395-406 | takes a prefix of the queue that ends at the first newline in canonical mode |
| `Tty.Terminal.Read` | kernel/drivers/tty/tty.c:368-415 | delivers the next bytes of the committed stream, at most one line in canonical mode, and reports an end of input once after the queue is drained |
| `Ext2.FlattenAt` | boot/common/fs/ext2.c:409-427 | entry i of the c-th table is entry c*p+i of the flattened list |
| `Ext2.PointerBytes` | boot/common/fs/ext2.c:572-581 | block pointers lie from byte 40 of the inode on, four bytes each, the lowest first |
| `Ext2.GetBlockIsIndexing` | boot/common/fs/ext2.c:562-614 | for any index below 12+p+p*p the lookup is indexing in direct ++ single indirect ++ flattened double indirect pointers, for inodes that have the indirect block the index needs |
| `Ext2.LookupExact` | boot/common/fs/ext2.c:562-614 | the lookup of an index is indexing in the block list on every disk if and only if the inode has the indirect block that the index needs |
| `Ext2.OnesDiffer` | boot/common/fs/ext2.c:586-613 | the failing input: for every inode that lacks the indirect block, a disk on which the lookup finds block 1 instead of a hole |
| `Ext2.HoleReadAsTable` | boot/common/fs/ext2.c:586-601 | a missing indirect block is read as disk block 0: the lookup gives the word of that block, where the block list has a hole |
| `Ext2.DoubleHoleReadAsTable` | boot/common/fs/ext2.c:603-613 | a missing double indirect block is read as disk block 0: the lookup searches through block 0, where the block list has a hole |
| `Ext2.DoubleAt` | boot/common/fs/ext2.c:381-427 | a lookup below the double indirect block is indexing in its flattened tables |
| `Ext2.ChunkDelivered` | boot/common/fs/ext2.c:931-936 | bytes of one block are the bytes of the file at that offset |
| `Ext2.File.ReadChunk` | boot/common/fs/ext2.c:917-938 | one turn of the read loop delivers the file's bytes up to the block end; a hole gives 0 and an unreadable block -EIO |
| `Ext2.File.Read` | boot/common/fs/ext2.c:898-943 | delivers the bytes of the file from the position on up to the first byte that is not on the disk; all wanted bytes if and only if all of them are on the disk; stopped by an unreadable block it returns what it has, or -EIO, and does not move the position |
| `Ext2.File.FullByte` | boot/common/fs/ext2.c:898-943 | in a file without holes every byte is on the disk, where the block list says |
| `Ext2.File.ReadAll` | boot/common/fs/ext2.c:898-943 | any sequence of reads of a file without unreadable blocks delivers its bytes without gap or overlap, as many as asked for when there are no holes |
| `Ext2.File.ReadFile` | boot/common/fs/ext2.c:898-943 | any sequence of reads of a file without holes concatenates to the slice of its bytes that the counts ask for |

## Left out

- FAT: failing disk transfers, sector sizes other than 512 bytes, directories and `FAT_UpdateEntry`, the shared root
  directory buffer, 8.3 names, the `.vkmeta` file, and the diagnostic re-reads in `FAT_Write`.
- FAT handles and partitions: the number of handles, and `FAT_InvalidateCache`, which nothing calls; a handle is an
  object here.
- FatSystem.FileSystem.Delete: files have numbers here instead of names; a file is closed before it is deleted.
- FatSystem.FileSystem.Execute: a file that is read or written is ready: its last write has not ended on a sector
  boundary, or a seek has followed. The seek fails at the end of a file that fills its last cluster, so such a file cannot
  be appended to (`FatSystem.SeekThenWrite`). Position and size are below 2^32. Closing and opening again is left out,
  because the size then comes from the directory entry.
- FatVolume.Volume.constructor: takes the geometry as given; parsing the boot sector is not modelled.
- FatFiles.Read: does not model FAT12 volumes with 1705 or more clusters, on which lookups go wrong
  (`FatVolume.CacheSafeExact`); the same holds for the other members that require a cache-safe volume.
- FatFiles.Write: starts from a position and a size below 2^32; what it leaves behind beyond that is stated, but no
  further operation on such a handle.
- FatFiles.OpenEntry: requires that an empty file has its first cluster, if any, on the volume, which the code does not
  check; operations on a file without a cluster are left out.
- FatFiles.WriteKeepsOther: is about files other than the parent directory, whose entry for the file the code rewrites.
- FatFiles.WriteSeekRead: writes one block of data; a second write without a seek after one that ended on a sector
  boundary starts from a cursor that is one sector behind.
- Memory: the early bump allocator for frames, the identity map built at boot, TLB and CR3 instructions, page faults.
  Frames are addressed by number, as the identity mapping lets the code do.
- Pmm.PageAllocator.BitmapSet: sets clear bits only, as its callers do; the code would count a set bit twice.
- Pmm.PageAllocator.BitmapClear: clears set bits only, as its callers do.
- Paging.Mmu.AllocFrame: is the allocation after the page allocator has been set up.
- Paging.Mmu.constructor: starts with an empty kernel directory instead of the identity map.
- `Process_Clone`'s copy of the address space, which walks tables shared with the kernel, and process clean-up.
- Vmm.VirtualMemory.FreeInDir: requires a page-aligned address and frames that are not page tables, directories or
  frame 0, as every range from the allocator has.
- Vmm.VirtualMemory.AllocateInDir: requires a page-aligned bump pointer, which allocations keep.
- VmmRuns.AddressSpaces.Allocate: requires that nothing is mapped in the range, which the code does not check.
- VmmRuns.AddressSpaces.Map: requires the same.
- Vmm.VirtualMemory.constructor: takes the limit of the window, which the code derives from detected memory.
- Vmm.VirtualMemory.MapFrames: requires that the range does not run past the end of the address space.
- Vmm.VirtualMemory.Drop: requires the same.
- Vmm.VirtualMemory.MapInDir: requires that the range does not run past the end of the address space.
- Processes: memory contents, registers, priorities, signals and the context switch itself; other processes act between
  two turns of the wait loop. Pids are unbounded numbers, so they do not wrap around.
- Processes.ProcessManager.Create: succeeds; a failing creation is `AllocatePid` alone.
- Processes.ProcessManager.WaitScan: is one turn of the loop in `Process_Wait`; the retry is a later event.
- Processes.ProcessManager.Destroy: frees no memory; descriptors are closed in `Descriptors`.
- Lifecycle.StepKeepsInv: only the current process forks, exits, waits or blocks, as in the system calls.
- Descriptors: paths, flags and offsets; whether a file exists and may be accessed is an input of the model.
- Hashing.Context.Update: requires that fill level plus length is below 2^32; the code does not return otherwise
  (`Hashing.UpdateTerminates`).
- Hash functions: that the sine table of MD5 holds sines; that its digests are those of RFC 1321 for the messages in
  `SelfTests`, which use every entry of it, is proved.
- UserStack.CopyVector: allocations of the copies do not fail.
- UserStack.Build: takes all memory below the end as writable (`UserStack.FitsExactly` has the bound of the mapped
  part); strings hold no zero byte and a null vector counts as an empty one; allocation failures of the string copies
  are not modelled.
- Mounts.MountTable.Mount: leaves out the flag that marks a file system as mounted.
- Mounts.MountTable.Umount: leaves out the same flag.
- Mounts: the `mounted` flag of a file system, and the failing allocation of the path buffer.
- Tty: echo and display, escape sequences fed past the editor, changing modes, statistics, and the wait for interrupts
  when a read finds nothing.
- Tty.Terminal.Read: returns nothing where the code would wait for input.
- Ext2: triple indirect blocks, ext4 extents, directories, and superblock parsing.
- ATA, floppy, PIC, PIT, keyboard and video drivers, ELF loading, kernel modules, the heap, devfs, printf and user programs.
