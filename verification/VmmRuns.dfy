/** Runs of the virtual memory allocator: who owns which frame, over every sequence of allocations, releases and
    mappings in several address spaces. */
module VmmRuns {
  import opened Common
  import opened Arith
  import opened Pmm
  import opened Paging
  import opened Vmm

  /** An allocation that has not been given back: consecutive pages of a directory, and the frames behind them. */
  datatype Range = Range(dir: nat, page: nat, frames: seq<nat>)

  predicate Within(r: Range, q: nat) {
    r.page <= q < r.page + |r.frames|
  }

  ghost predicate Backed(m: seq<Frame>, dirs: set<nat>, r: Range) {
    && r.dir in dirs && r.dir < |m| && r.page + |r.frames| <= PAGES && NoDuplicates(r.frames)
    && forall q :: r.page <= q < r.page + |r.frames| ==>
         Lookup(m, r.dir, q).Some? && FrameOf(Lookup(m, r.dir, q).value) == r.frames[q - r.page]
  }

  ghost function LiveFrames(live: seq<Range>): set<nat> {
    set i, f | 0 <= i < |live| && f in live[i].frames :: f
  }

  ghost predicate FramesApart(live: seq<Range>) {
    forall i, j :: 0 <= i < j < |live| ==> Elements(live[i].frames) !! Elements(live[j].frames)
  }

  /** Every frame in use is one of the frames that were in use at the start, a page table, or behind exactly one page of
      exactly one live range. */
  ghost predicate Accounted(m: seq<Frame>, dirs: set<nat>, base: set<nat>, used: set<nat>, live: seq<Range>) {
    && (forall e :: e in dirs ==> e < |m| && e in base) && 0 in base
    && (forall i :: 0 <= i < |live| ==> Backed(m, dirs, live[i])) && FramesApart(live)
    && LiveFrames(live) !! base && LiveFrames(live) !! Tables(m, dirs)
    && used == base + Tables(m, dirs) + LiveFrames(live)
  }

  /** Live ranges of one directory do not overlap. */
  lemma RangesApart(m: seq<Frame>, dirs: set<nat>, base: set<nat>, used: set<nat>, live: seq<Range>, i: nat, j: nat,
                    q: nat)
    requires Accounted(m, dirs, base, used, live) && i < |live| && j < |live| && i != j && live[i].dir == live[j].dir
    ensures !(Within(live[i], q) && Within(live[j], q))
  {
    hide Lookup, FrameOf, Tables, LiveFrames, Elements, NoDuplicates, FramesApart;
    assert Backed(m, dirs, live[i]) && Backed(m, dirs, live[j]);
    if Within(live[i], q) && Within(live[j], q) {
      OthersSeeOthers(m, dirs, live, i, j, q);
    }
  }

  /** When everything has been given back, only the initial frames and page tables are in use. */
  lemma NothingLeaks(m: seq<Frame>, dirs: set<nat>, base: set<nat>, used: set<nat>)
    requires Accounted(m, dirs, base, used, [])
    ensures used == base + Tables(m, dirs)
  {
    hide Tables;
  }

  // ----- What a change of one range does to the others -----

  /** The frames behind the live ranges have the same contents in m and m'. */
  ghost predicate LiveKept(m: seq<Frame>, m': seq<Frame>, live: seq<Range>) {
    |m'| == |m| && forall f :: f in LiveFrames(live) && f < |m| ==> m'[f] == m[f]
  }

  /** The data of live ranges is data in use. */
  lemma LiveData(m: seq<Frame>, m': seq<Frame>, dirs: set<nat>, base: set<nat>, used: set<nat>, live: seq<Range>)
    requires Accounted(m, dirs, base, used, live) && DataKept(m, m', dirs, used)
    ensures LiveKept(m, m', live)
  {
    hide Tables, LiveFrames, FramesApart, Backed;
  }

  /** A range stays as it is when pages of directory d change that it does not see. */
  lemma StillBacked(m0: seq<Frame>, m: seq<Frame>, dirs: set<nat>, d: nat, p: nat, n: nat, r: Range)
    requires Backed(m0, dirs, r) && Follows(m0, m, dirs, d) && d < |m0| && d < |m| && d in dirs
    requires forall q :: 0 <= q < PAGES && !(p <= q < p + n) ==> Lookup(m, d, q) == Lookup(m0, d, q)
    requires forall q :: p <= q < p + n && Within(r, q) ==> Lookup(m0, d, q) != Lookup(m0, r.dir, q)
    ensures Backed(m, dirs, r)
  {
    hide FrameOf, NoDuplicates;
    forall q | r.page <= q < r.page + |r.frames| ensures Lookup(m, r.dir, q) == Lookup(m0, r.dir, q) {
      PageIndex(q);
      SharedLookup(m0, d, r.dir, q);
    }
    hide Lookup, Follows;
  }

  lemma SharedLookup(m: seq<Frame>, d: nat, e: nat, q: nat)
    requires d < |m| && e < |m| && q < PAGES && q / ENTRIES < ENTRIES
    ensures e == d || Shares(m, d, e, q / ENTRIES) ==> Lookup(m, e, q) == Lookup(m, d, q)
  {
  }

  /** A new range of fresh frames, where nothing was mapped before. */
  lemma AllocationAccounted(m0: seq<Frame>, m: seq<Frame>, dirs: set<nat>, base: set<nat>, used0: set<nat>,
                            used: set<nat>, live: seq<Range>, d: nat, p: nat, frames: seq<nat>)
    requires Accounted(m0, dirs, base, used0, live) && d in dirs
    requires FreshMapping(m0, m, dirs, d, used0, used, p, frames)
    ensures Accounted(m, dirs, base, used, live + [Range(d, p, frames)])
  {
    hide Lookup, FrameOf, Tables, Follows, NoDuplicates;
    var live' := live + [Range(d, p, frames)];
    forall i | 0 <= i < |live| ensures Backed(m, dirs, live[i]) {
      hide Taken;
      assert Backed(m0, dirs, live[i]);
      StillBacked(m0, m, dirs, d, p, |frames|, live[i]);
    }
    LiveAppend(live, Range(d, p, frames));
    FramesInUse(live, used0);
  }

  lemma LiveAppend(live: seq<Range>, r: Range)
    ensures LiveFrames(live + [r]) == LiveFrames(live) + Elements(r.frames)
    ensures FramesApart(live) && LiveFrames(live) !! Elements(r.frames) ==> FramesApart(live + [r])
  {
    var live' := live + [r];
    forall f | f in LiveFrames(live) ensures f in LiveFrames(live') {
      var i :| 0 <= i < |live| && f in live[i].frames;
      assert f in live'[i].frames;
    }
    forall f | f in r.frames ensures f in LiveFrames(live') {
      assert f in live'[|live|].frames;
    }
    if FramesApart(live) && LiveFrames(live) !! Elements(r.frames) {
      forall i | 0 <= i < |live| ensures Elements(live[i].frames) !! Elements(r.frames) {
        assert forall f :: f in live[i].frames ==> f in LiveFrames(live);
      }
    }
  }

  lemma FramesInUse(live: seq<Range>, used: set<nat>)
    ensures LiveFrames(live) <= used ==> forall i :: 0 <= i < |live| ==> Elements(live[i].frames) <= used
  {
  }

  /** A live range is given back. */
  lemma ReleaseAccounted(m: seq<Frame>, m': seq<Frame>, dirs: set<nat>, base: set<nat>, used: set<nat>, used': set<nat>,
                         live: seq<Range>, i: nat)
    requires Accounted(m, dirs, base, used, live) && i < |live|
    requires Released(m, m', dirs, live[i].dir, used, used', live[i].page, |live[i].frames|)
    ensures Accounted(m', dirs, base, used', live[..i] + live[i + 1..])
  {
    hide Lookup, FrameOf, Tables, Follows, NoDuplicates, Backing;
    var r := live[i];
    assert Backed(m, dirs, r);
    BackingIs(m, m, r.dir, r.page, r.frames, |r.frames|);
    assert r.frames[..|r.frames|] == r.frames;
    SizesKept(m, m', dirs, r.dir);
    forall j | 0 <= j < |live| && j != i ensures Backed(m', dirs, live[j]) {
      assert Backed(m, dirs, live[j]);
      forall q | Within(r, q) && Within(live[j], q) ensures Lookup(m, r.dir, q) != Lookup(m, live[j].dir, q) {
        OthersSeeOthers(m, dirs, live, i, j, q);
      }
      StillBacked(m, m', dirs, r.dir, r.page, |r.frames|, live[j]);
    }
    LiveWithout(live, i);
  }

  lemma SizesKept(m: seq<Frame>, m': seq<Frame>, dirs: set<nat>, d: nat)
    requires Follows(m, m', dirs, d)
    ensures |m'| == |m|
  {
  }

  /** A page of another live range leads to another frame. */
  lemma OthersSeeOthers(m: seq<Frame>, dirs: set<nat>, live: seq<Range>, i: nat, j: nat, q: nat)
    requires i < |live| && j < |live| && i != j && FramesApart(live) && Within(live[i], q) && Within(live[j], q)
    requires Backed(m, dirs, live[i]) && Backed(m, dirs, live[j])
    ensures Lookup(m, live[i].dir, q) != Lookup(m, live[j].dir, q)
  {
    hide Lookup, FrameOf, NoDuplicates;
    assert Elements(live[i].frames) !! Elements(live[j].frames);
    assert live[i].frames[q - live[i].page] in Elements(live[i].frames);
    assert live[j].frames[q - live[j].page] in Elements(live[j].frames);
  }

  lemma LiveWithout(live: seq<Range>, i: nat)
    requires i < |live| && FramesApart(live)
    ensures var rest := live[..i] + live[i + 1..];
            LiveFrames(rest) == LiveFrames(live) - Elements(live[i].frames) && FramesApart(rest)
  {
    var rest := live[..i] + live[i + 1..];
    assert forall k :: 0 <= k < |rest| ==> rest[k] == live[if k < i then k else k + 1];
    forall f | f in LiveFrames(live) && f !in live[i].frames ensures f in LiveFrames(rest) {
      var k :| 0 <= k < |live| && f in live[k].frames;
      assert f in rest[if k < i then k else k - 1].frames;
    }
    forall f | f in LiveFrames(rest) ensures f in LiveFrames(live) && f !in Elements(live[i].frames) {
      var k :| 0 <= k < |rest| && f in rest[k].frames;
      var k' := if k < i then k else k + 1;
      assert f in live[k'].frames && f in Elements(live[k'].frames);
    }
  }

  /** Page tables are taken, and no translation changes. */
  lemma SameAccounted(m: seq<Frame>, m': seq<Frame>, dirs: set<nat>, base: set<nat>, used: set<nat>, used': set<nat>,
                      live: seq<Range>)
    requires Accounted(m, dirs, base, used, live)
    requires SameTranslations(m, m', dirs) && OnlyTablesTaken(m, m', dirs, used, used')
    ensures Accounted(m', dirs, base, used', live)
  {
    hide Lookup, FrameOf, Tables, NoDuplicates, LiveFrames, FramesApart;
    forall i | 0 <= i < |live| ensures Backed(m', dirs, live[i]) {
      assert Backed(m, dirs, live[i]);
    }
  }

  /** Pages that were not mapped are mapped to frames that the caller has chosen. */
  lemma MappedAccounted(m0: seq<Frame>, m: seq<Frame>, dirs: set<nat>, base: set<nat>, used0: set<nat>, used: set<nat>,
                        live: seq<Range>, d: nat, p: nat, frames: seq<nat>)
    requires Accounted(m0, dirs, base, used0, live) && d in dirs && Unmapped(m0, d, p, |frames|)
    requires MappedTo(m0, m, dirs, d, used0, used, p, frames)
    ensures Accounted(m, dirs, base, used, live)
  {
    hide Lookup, FrameOf, Tables, Follows, NoDuplicates, LiveFrames, FramesApart;
    forall i | 0 <= i < |live| ensures Backed(m, dirs, live[i]) {
      assert Backed(m0, dirs, live[i]);
      StillBacked(m0, m, dirs, d, p, |frames|, live[i]);
    }
  }

  /** A live range may be given back. */
  lemma LiveReleasable(m: seq<Frame>, dirs: set<nat>, base: set<nat>, used: set<nat>, live: seq<Range>, i: nat)
    requires Accounted(m, dirs, base, used, live) && i < |live|
    ensures Releasable(m, dirs, live[i].dir, live[i].page, |live[i].frames|)
  {
    hide Lookup, FrameOf, Tables, NoDuplicates, FramesApart;
    var r := live[i];
    assert Backed(m, dirs, r);
    forall q | r.page <= q < r.page + |r.frames|
      ensures var f := FrameOf(Lookup(m, r.dir, q).value); f in LiveFrames(live)
    {
      assert r.frames[q - r.page] in live[i].frames;
    }
  }

  lemma LiveIn(m: seq<Frame>, dirs: set<nat>, base: set<nat>, used: set<nat>, live: seq<Range>, i: nat)
    requires Accounted(m, dirs, base, used, live) && i < |live|
    ensures live[i].dir in dirs
  {
    assert Backed(m, dirs, live[i]);
  }

  lemma StartAccounted(m: seq<Frame>, dirs: set<nat>, kernel: nat, used: set<nat>)
    requires Spaces(m, dirs, kernel, used) && 0 in used
    ensures Accounted(m, dirs, used, used, [])
  {
  }

  // ----- The allocator -----

  class AddressSpaces {
    const vm: VirtualMemory
    ghost var base: set<nat>
    ghost var live: seq<Range>

    ghost predicate Valid()
      reads this, vm.mmu, vm.mmu.pmm, vm.mmu.pmm.bitmap, vm.mmu.mem
    {
      vm.mmu.Valid() && Accounted(vm.mmu.mem[..], vm.mmu.dirs, base, vm.mmu.pmm.Used(), live)
    }

    constructor (vm: VirtualMemory)
      requires vm.mmu.Valid()
      ensures Valid() && live == [] && this.vm == vm && base == vm.mmu.pmm.Used()
    {
      this.vm := vm;
      base, live := vm.mmu.pmm.Used(), [];
      new;
      StartAccounted(vm.mmu.mem[..], vm.mmu.dirs, vm.mmu.kernelDir, base);
    }

    /** Allocates pages where nothing is mapped; a range that has been handed out becomes live. */
    method Allocate(d: nat, b: Bump?, size: word, flags: word) returns (va: word, ghost ok: bool)
      requires Valid() && d in vm.mmu.dirs && vm.Start(b) % PAGE_SIZE == 0
      requires vm.Fits(b, size) ==> Unmapped(vm.mmu.mem[..], d, PageOf(vm.Start(b)), NumPages(size))
      modifies this`live, vm.mmu.pmm`count, vm.mmu.pmm.bitmap, vm.mmu.mem, vm.kernelBump, b
      ensures Valid() && va == if ok then old(vm.Start(b)) else 0
      ensures !ok ==> live == old(live)
      ensures ok ==> exists frames :: |frames| == NumPages(size) && live == old(live) + [Range(d, PageOf(va), frames)]
      ensures LiveKept(old(vm.mmu.mem[..]), vm.mmu.mem[..], old(live))
    {
      hide LiveKept, DataKept, RangeAccess, Zeroed, Accounted, Mapping, SameTranslations, OnlyTablesTaken, Unmapped,
           NumPages, VirtualMemory.Fits, VirtualMemory.Start, Spaces, UsedPages;
      ghost var m0, used0 := vm.mmu.mem[..], vm.mmu.pmm.Used();
      ghost var frames;
      va, ok, frames := vm.AllocateInDir(d, b, size, flags);
      LiveData(m0, vm.mmu.mem[..], vm.mmu.dirs, base, used0, live);
      if ok {
        AllocationAccounted(m0, vm.mmu.mem[..], vm.mmu.dirs, base, used0, vm.mmu.pmm.Used(), live, d, PageOf(va),
                            frames);
        live := live + [Range(d, PageOf(va), frames)];
      } else if size != 0 && old(vm.Fits(b, size)) {
        SameAccounted(m0, vm.mmu.mem[..], vm.mmu.dirs, base, used0, vm.mmu.pmm.Used(), live);
      }
    }

    /** Gives a live range back. */
    method Free(d: nat, va: word, size: word, ghost i: nat)
      requires Valid() && i < |live| && va % PAGE_SIZE == 0 && va != 0
      requires live[i].dir == d && live[i].page == PageOf(va) && |live[i].frames| == NumPages(size)
      modifies this`live, vm.mmu.pmm`count, vm.mmu.pmm.bitmap, vm.mmu.mem
      ensures Valid() && live == old(live)[..i] + old(live)[i + 1..]
      ensures LiveKept(old(vm.mmu.mem[..]), vm.mmu.mem[..], old(live))
    {
      hide LiveKept, DataKept, Accounted, Mapping, SameTranslations, OnlyTablesTaken, Unmapped, NumPages, Spaces,
           UsedPages, Released, Releasable;
      ghost var m, used := vm.mmu.mem[..], vm.mmu.pmm.Used();
      LiveReleasable(m, vm.mmu.dirs, base, used, live, i);
      LiveIn(m, vm.mmu.dirs, base, used, live, i);
      vm.FreeInDir(d, va, size, m, used, []);
      ReleasedKeeps(m, vm.mmu.mem[..], vm.mmu.dirs, d, used, vm.mmu.pmm.Used(), PageOf(va), NumPages(size));
      LiveData(m, vm.mmu.mem[..], vm.mmu.dirs, base, used, live);
      ReleaseAccounted(m, vm.mmu.mem[..], vm.mmu.dirs, base, used, vm.mmu.pmm.Used(), live, i);
      live := live[..i] + live[i + 1..];
    }

    /** Maps a range where nothing is mapped to chosen frames. */
    method Map(d: nat, va: word, pa: word, size: word, flags: word) returns (code: int)
      requires Valid() && d in vm.mmu.dirs && Unmapped(vm.mmu.mem[..], d, PageOf(va), NumPages(size))
      modifies vm.mmu.pmm`count, vm.mmu.pmm.bitmap, vm.mmu.mem
      ensures Valid() && live == old(live)
      ensures LiveKept(old(vm.mmu.mem[..]), vm.mmu.mem[..], live)
    {
      hide LiveKept, DataKept, RangeAccess, Accounted, MappedTo, SameTranslations, OnlyTablesTaken, NumPages, Spaces,
           UsedPages, FramesFrom, Lookup;
      ghost var m0, used0 := vm.mmu.mem[..], vm.mmu.pmm.Used();
      code := vm.MapInDir(d, va, pa, size, flags);
      LiveData(m0, vm.mmu.mem[..], vm.mmu.dirs, base, used0, live);
      if code == SUCCESS {
        MappedAccounted(m0, vm.mmu.mem[..], vm.mmu.dirs, base, used0, vm.mmu.pmm.Used(), live, d, PageOf(va),
                        FramesFrom(pa, NumPages(size)));
      } else if code == EMAP {
        SameAccounted(m0, vm.mmu.mem[..], vm.mmu.dirs, base, used0, vm.mmu.pmm.Used(), live);
      }
    }
  }
}
