/** Virtual memory allocation: a bump allocator that maps fresh frames page by page and rolls back on failure. */
module Vmm {
  import opened Common
  import opened Arith
  import opened Pmm
  import opened Paging

  const ARCH_BASE: nat := 0xC000_0000

  /** The number of pages of a request. */
  function NumPages(size: word): (n: nat)
    ensures n < PAGES
  {
    PagesFor(size)
  }

  /** A request of more than 2^32 - 4096 bytes wraps around to no pages at all; every other request gets enough. */
  lemma NumPagesCover(size: word)
    ensures NumPages(size) * PAGE_SIZE >= size <==> size <= 0xFFFF_F000
    ensures size == 0 || size > 0xFFFF_F000 ==> NumPages(size) == 0
    ensures NumPages(size) * PAGE_SIZE < size + PAGE_SIZE
  {
    PagesForExact(size);
  }

  /** All address spaces follow directory d: those that share the page table of a page see what d sees, the others see
      what they saw in m0. */
  ghost predicate Follows(m0: seq<Frame>, m: seq<Frame>, dirs: set<nat>, d: nat) {
    && SameSharing(m0, m, dirs, d)
    && forall e, q :: e in dirs && 0 <= q < PAGES ==>
         Lookup(m, e, q) == if e == d || Shares(m0, d, e, q / ENTRIES) then Lookup(m, d, q) else Lookup(m0, e, q)
  }

  /** Pages p, p + 1, ... of directory d are mapped to the given frames; its other pages are as in m0. */
  ghost predicate RangeMapped(m0: seq<Frame>, m: seq<Frame>, d: nat, p: nat, frames: seq<nat>)
  {
    && d < |m0| && d < |m| && p + |frames| <= PAGES
    && (forall q :: p <= q < p + |frames| ==> Lookup(m, d, q).Some? && FrameOf(Lookup(m, d, q).value) == frames[q - p])
    && (forall q :: 0 <= q < PAGES && !(p <= q < p + |frames|) ==> Lookup(m, d, q) == Lookup(m0, d, q))
  }

  /** The frames taken since m0 are the given data frames and new page tables; all of them were free. */
  ghost predicate Taken(m0: seq<Frame>, m: seq<Frame>, dirs: set<nat>, used0: set<nat>, used: set<nat>,
                        frames: seq<nat>) {
    && |m| == |m0| && (forall e :: e in dirs ==> e < |m0| && e in used0)
    && Tables(m0, dirs) <= Tables(m, dirs)
    && (Tables(m, dirs) - Tables(m0, dirs)) !! used0
    && NoDuplicates(frames) && Elements(frames) !! used0 && Elements(frames) !! Tables(m, dirs)
    && used == used0 + (Tables(m, dirs) - Tables(m0, dirs)) + Elements(frames)
  }

  lemma FollowsRefl(m: seq<Frame>, dirs: set<nat>, d: nat)
    requires d in dirs && forall e :: e in dirs ==> e < |m|
    requires forall e, i :: e in dirs && 0 <= i < ENTRIES && Present(m[e][i]) ==> FrameOf(m[e][i]) < |m|
    ensures Follows(m, m, dirs, d)
  {
  }

  /** Updating one page of d keeps all address spaces following d. */
  lemma FollowsUpdate(m0: seq<Frame>, m: seq<Frame>, m': seq<Frame>, dirs: set<nat>, d: nat, page: nat, v: Option<word>)
    requires Follows(m0, m, dirs, d) && page < PAGES && PageUpdated(m, m', dirs, d, page, v)
    requires SameSharing(m, m', dirs, d)
    ensures Follows(m0, m', dirs, d)
  {
    hide Lookup, Shares;
    forall e, q | e in dirs && 0 <= q < PAGES
      ensures Lookup(m', e, q) == if e == d || Shares(m0, d, e, q / ENTRIES) then Lookup(m', d, q) else Lookup(m0, e, q)
    {
      PageIndex(q);
      assert e != d ==> (Shares(m', d, e, q / ENTRIES) <==> Shares(m0, d, e, q / ENTRIES));
    }
  }

  lemma FollowsSame(m0: seq<Frame>, m: seq<Frame>, m': seq<Frame>, dirs: set<nat>, d: nat)
    requires Follows(m0, m, dirs, d) && SameTranslations(m, m', dirs) && SameSharing(m, m', dirs, d)
    ensures Follows(m0, m', dirs, d)
  {
    hide Lookup, Shares;
  }

  /** When d sees everything as before, so do all address spaces. */
  lemma FollowsRestored(m0: seq<Frame>, m: seq<Frame>, dirs: set<nat>, d: nat)
    requires Follows(m0, m, dirs, d) && forall q :: 0 <= q < PAGES ==> Lookup(m, d, q) == Lookup(m0, d, q)
    ensures SameTranslations(m0, m, dirs)
  {
    forall e, q | e in dirs && 0 <= q < PAGES ensures Lookup(m, e, q) == Lookup(m0, e, q) {
      PageIndex(q);
    }
  }

  // ----- Access and contents of the new pages -----

  /** The n pages from p on of directory d have entries with the given flags, and the processor permits writing and
      user access exactly if bits 1 and 2 of the flags ask for it. */
  ghost predicate RangeAccess(m: seq<Frame>, d: nat, p: nat, n: nat, flags: word) {
    && d < |m| && p + n <= PAGES
    && forall q :: p <= q < p + n ==> PageAccess(m, d, q, flags)
  }

  ghost predicate PageAccess(m: seq<Frame>, d: nat, q: nat, flags: word)
    requires d < |m| && q < PAGES
  {
    && Lookup(m, d, q).Some?
    && var w := Lookup(m, d, q).value;
    && w % 2 == 1 && w % 4096 / 2 == flags % 4096 / 2
    && w / 2 % 2 == flags / 2 % 2 && w / 4 % 2 == flags / 4 % 2
    && (Permits(m, d, q, 2) <==> flags / 2 % 2 == 1)
    && (Permits(m, d, q, 4) <==> flags / 4 % 2 == 1)
  }

  lemma AccessStart(m: seq<Frame>, d: nat, p: nat, flags: word)
    requires d < |m| && p <= PAGES
    ensures RangeAccess(m, d, p, 0, flags)
  {
  }

  lemma AccessMapped(m: seq<Frame>, d: nat, q: nat, flags: word)
    requires d < |m| && q < PAGES && Lookup(m, d, q).Some?
    requires var w := Lookup(m, d, q).value;
             && w % 2 == 1 && w % 4096 / 2 == flags % 4096 / 2
             && w / 2 % 2 == flags / 2 % 2 && w / 4 % 2 == flags / 4 % 2
    requires (Permits(m, d, q, 2) <==> flags / 2 % 2 == 1) && (Permits(m, d, q, 4) <==> flags / 4 % 2 == 1)
    ensures PageAccess(m, d, q, flags)
  {
  }

  /** Widening a directory entry for pages with the same flags leaves their access as it was. */
  lemma PageAccessKept(m: seq<Frame>, m': seq<Frame>, d: nat, q: nat, i: nat, flags: word)
    requires d < |m| && q < PAGES && PageAccess(m, d, q, flags) && AccessAdded(m, m', d, i, flags)
    requires Lookup(m', d, q) == Lookup(m, d, q)
    ensures PageAccess(m', d, q, flags)
  {
    PageIndex(q);
    assert Present(m[d][q / ENTRIES]);
    hide Lookup;
  }

  lemma AccessStep(m: seq<Frame>, m': seq<Frame>, dirs: set<nat>, d: nat, p: nat, n: nat, flags: word, v: Option<word>)
    requires RangeAccess(m, d, p, n, flags) && p + n < PAGES && PageUpdated(m, m', dirs, d, p + n, v)
    requires AccessAdded(m, m', d, (p + n) / ENTRIES, flags) && PageAccess(m', d, p + n, flags)
    ensures RangeAccess(m', d, p, n + 1, flags)
  {
    hide Lookup, PageAccess, AccessAdded, Shares;
    forall q | p <= q < p + n ensures PageAccess(m', d, q, flags) {
      PageAccessKept(m, m', d, q, (p + n) / ENTRIES, flags);
    }
  }

  /** Writing to a data frame leaves the access to all pages as it was. */
  lemma AccessData(m: seq<Frame>, m': seq<Frame>, dirs: set<nat>, d: nat, p: nat, n: nat, flags: word)
    requires RangeAccess(m, d, p, n, flags) && SameTranslations(m, m', dirs) && d in dirs && m'[d] == m[d]
    ensures RangeAccess(m', d, p, n, flags)
  {
    hide Lookup;
    forall q | p <= q < p + n ensures PageAccess(m', d, q, flags) {
      PageIndex(q);
      assert PageAccess(m, d, q, flags);
    }
  }

  /** All words of the given frames are 0. */
  ghost predicate Zeroed(m: seq<Frame>, frames: seq<nat>) {
    forall k :: 0 <= k < |frames| ==> frames[k] < |m| && m[frames[k]] == ZeroFrame()
  }

  /** Data frames that have been taken since m0 keep their contents when another page is mapped. */
  lemma ZeroedKept(m0: seq<Frame>, m: seq<Frame>, m': seq<Frame>, dirs: set<nat>, d: nat, used0: set<nat>,
                   used: set<nat>, used': set<nat>, p: nat, frames: seq<nat>)
    requires Mapping(m0, m, dirs, d, used0, used, p, frames) && DataKept(m, m', dirs, used') && used <= used'
    requires Zeroed(m, frames)
    ensures Zeroed(m', frames)
  {
    hide Tables, Follows, RangeMapped, ZeroFrame;
    forall k | 0 <= k < |frames| ensures m'[frames[k]] == m[frames[k]] {
      assert frames[k] in Elements(frames);
    }
  }

  /** Data in use at the start is kept by a further step. */
  lemma DataKeptTrans(m0: seq<Frame>, m: seq<Frame>, m': seq<Frame>, dirs: set<nat>, used0: set<nat>, used: set<nat>)
    requires DataKept(m0, m, dirs, used0) && DataKept(m, m', dirs, used) && used0 <= used
    requires (Tables(m, dirs) - Tables(m0, dirs)) !! used0
    ensures DataKept(m0, m', dirs, used0)
  {
    hide Tables;
    forall f | 0 <= f < |m0| && f in used0 && f !in dirs && f !in Tables(m0, dirs) ensures m'[f] == m0[f] {
      assert f !in Tables(m, dirs);
      assert m[f] == m0[f];
    }
  }

  lemma WrittenKept(m: seq<Frame>, m': seq<Frame>, dirs: set<nat>, used: set<nat>)
    requires OnlyTablesWritten(m, m', dirs)
    ensures DataKept(m, m', dirs, used)
  {
    hide Tables;
  }

  lemma WrittenTrans(m: seq<Frame>, m1: seq<Frame>, m2: seq<Frame>, dirs: set<nat>)
    requires OnlyTablesWritten(m, m1, dirs) && OnlyTablesWritten(m1, m2, dirs) && Tables(m1, dirs) == Tables(m, dirs)
    ensures OnlyTablesWritten(m, m2, dirs)
  {
    hide Tables;
    forall f | 0 <= f < |m| && f !in dirs && f !in Tables(m, dirs) ensures m2[f] == m[f] {
      assert m1[f] == m[f];
    }
  }

  /** What holds while pages p, p + 1, ... of directory d are being mapped. */
  ghost predicate Mapping(m0: seq<Frame>, m: seq<Frame>, dirs: set<nat>, d: nat, used0: set<nat>, used: set<nat>,
                          p: nat, frames: seq<nat>) {
    && Follows(m0, m, dirs, d) && RangeMapped(m0, m, d, p, frames) && Taken(m0, m, dirs, used0, used, frames)
    && DataKept(m0, m, dirs, used0)
  }

  lemma MappingKeeps(m0: seq<Frame>, m: seq<Frame>, dirs: set<nat>, d: nat, used0: set<nat>, used: set<nat>, p: nat,
                     frames: seq<nat>)
    requires Mapping(m0, m, dirs, d, used0, used, p, frames)
    ensures DataKept(m0, m, dirs, used0)
  {
    hide Follows, RangeMapped, Taken, DataKept;
  }

  lemma DirIn(m: seq<Frame>, dirs: set<nat>, kernel: nat, used: set<nat>, d: nat)
    requires Spaces(m, dirs, kernel, used) && d in dirs
    ensures d < |m|
  {
  }

  lemma SpacesMono(m: seq<Frame>, dirs: set<nat>, kernel: nat, used: set<nat>, used': set<nat>)
    requires Spaces(m, dirs, kernel, used) && used <= used'
    ensures Spaces(m, dirs, kernel, used')
  {
  }

  /** A data frame can be given back without touching any address space. */
  lemma SpacesShrink(m: seq<Frame>, dirs: set<nat>, kernel: nat, used: set<nat>, f: nat)
    requires Spaces(m, dirs, kernel, used) && f !in dirs && f !in Tables(m, dirs)
    ensures Spaces(m, dirs, kernel, used - {f})
  {
  }

  lemma MappingStart(m: seq<Frame>, dirs: set<nat>, kernel: nat, d: nat, used: set<nat>, p: nat)
    requires Spaces(m, dirs, kernel, used) && d in dirs && p <= PAGES
    ensures Mapping(m, m, dirs, d, used, used, p, [])
  {
    FollowsRefl(m, dirs, d);
    hide Lookup, Tables, Follows;
  }

  lemma RangeExtend(m0: seq<Frame>, m: seq<Frame>, m': seq<Frame>, dirs: set<nat>, d: nat, p: nat, frames: seq<nat>,
                    f: nat, w: word)
    requires RangeMapped(m0, m, d, p, frames) && p + |frames| < PAGES && d in dirs
    requires PageUpdated(m, m', dirs, d, p + |frames|, Some(w)) && FrameOf(w) == f
    ensures RangeMapped(m0, m', d, p, frames + [f])
  {
    hide Lookup, Shares, FrameOf;
  }

  lemma TakenExtend(m0: seq<Frame>, m: seq<Frame>, m': seq<Frame>, dirs: set<nat>, used0: set<nat>, used: set<nat>,
                    used': set<nat>, frames: seq<nat>, f: nat)
    requires Taken(m0, m, dirs, used0, used, frames) && f !in used
    requires OnlyTablesTaken(m, m', dirs, used + {f}, used') && Tables(m, dirs) <= used
    ensures Taken(m0, m', dirs, used0, used', frames + [f])
  {
    hide Tables;
    assert Elements(frames + [f]) == Elements(frames) + {f};
    assert forall x :: x in frames ==> x in Elements(frames);
  }

  /** One more page has been mapped to a fresh frame. */
  lemma MappingStep(m0: seq<Frame>, m: seq<Frame>, m': seq<Frame>, dirs: set<nat>, kernel: nat, d: nat, used0: set<nat>,
                    used: set<nat>, used': set<nat>, p: nat, frames: seq<nat>, f: nat, w: word)
    requires Mapping(m0, m, dirs, d, used0, used, p, frames) && Spaces(m, dirs, kernel, used) && p + |frames| < PAGES
    requires f !in used && OnlyTablesTaken(m, m', dirs, used + {f}, used')
    requires PageUpdated(m, m', dirs, d, p + |frames|, Some(w)) && FrameOf(w) == f && SameSharing(m, m', dirs, d)
    requires DataKept(m, m', dirs, used + {f}) && d in dirs
    ensures Mapping(m0, m', dirs, d, used0, used', p, frames + [f])
    ensures f !in dirs && f !in Tables(m', dirs) && f !in used0
  {
    hide Follows, RangeMapped, PageUpdated, Tables, DataKept, Lookup, Spaces, SameSharing;
    DataKeptTrans(m0, m, m', dirs, used0, used + {f});
    FreshNotTable(m, dirs, kernel, used, f);
    RangeExtend(m0, m, m', dirs, d, p, frames, f, w);
    FollowsUpdate(m0, m, m', dirs, d, p + |frames|, Some(w));
    TakenExtend(m0, m, m', dirs, used0, used, used', frames, f);
  }

  /** Zeroing a data frame through its mapping does not disturb the mapping. */
  lemma MappingData(m0: seq<Frame>, m: seq<Frame>, dirs: set<nat>, kernel: nat, d: nat, used0: set<nat>, used: set<nat>,
                    p: nat, frames: seq<nat>, f: nat, x: Frame)
    requires Mapping(m0, m, dirs, d, used0, used, p, frames) && Spaces(m, dirs, kernel, used)
    requires f < |m| && f !in dirs && f !in Tables(m, dirs) && d in dirs && f !in used0
    ensures Spaces(m[f := x], dirs, kernel, used) && Mapping(m0, m[f := x], dirs, d, used0, used, p, frames)
    ensures SameTranslations(m, m[f := x], dirs)
  {
    var m' := m[f := x];
    StoreData(m, dirs, kernel, used, f, x);
    assert forall e :: e in dirs ==> m'[e] == m[e];
    assert SameSharing(m, m', dirs, d);
    assert SameTranslations(m, m', dirs);
    FollowsSame(m0, m, m', dirs, d);
    hide Follows, Tables, Spaces, Lookup, SameSharing;
  }

  /** One more page has been mapped to a fresh frame, with the same flags as the pages before it. */
  lemma FreshStep(m0: seq<Frame>, m: seq<Frame>, m': seq<Frame>, dirs: set<nat>, kernel: nat, d: nat, used0: set<nat>,
                  used: set<nat>, used': set<nat>, p: nat, frames: seq<nat>, f: nat, w: word, flags: word)
    requires Mapping(m0, m, dirs, d, used0, used, p, frames) && Spaces(m, dirs, kernel, used) && p + |frames| < PAGES
    requires f !in used && OnlyTablesTaken(m, m', dirs, used + {f}, used')
    requires PageUpdated(m, m', dirs, d, p + |frames|, Some(w)) && FrameOf(w) == f && SameSharing(m, m', dirs, d)
    requires DataKept(m, m', dirs, used + {f}) && d in dirs && d < |m'|
    requires RangeAccess(m, d, p, |frames|, flags) && PageAccess(m', d, p + |frames|, flags)
    requires AccessAdded(m, m', d, (p + |frames|) / ENTRIES, flags)
    ensures Mapping(m0, m', dirs, d, used0, used', p, frames + [f])
    ensures f !in dirs && f !in Tables(m', dirs) && f !in used0
    ensures RangeAccess(m', d, p, |frames| + 1, flags)
    ensures Zeroed(m, frames) ==> Zeroed(m', frames)
  {
    hide Mapping, Spaces, OnlyTablesTaken, PageUpdated, SameSharing, DataKept, RangeAccess, PageAccess, AccessAdded,
         Tables, Zeroed, FrameOf, Lookup;
    MappingStep(m0, m, m', dirs, kernel, d, used0, used, used', p, frames, f, w);
    AccessStep(m, m', dirs, d, p, |frames|, flags, Some(w));
    if Zeroed(m, frames) {
      ZeroedKept(m0, m, m', dirs, d, used0, used, used + {f}, p, frames);
    }
  }

  // ----- Giving pages back -----

  /** The frames that the n pages from p on of directory d are mapped to. */
  ghost function Backing(m: seq<Frame>, d: nat, p: nat, n: nat): (s: set<nat>)
    requires d < |m| && p + n <= PAGES
    ensures forall q :: p <= q < p + n && Lookup(m, d, q).Some? ==> FrameOf(Lookup(m, d, q).value) in s
  {
    if n == 0 then {}
    else
      Backing(m, d, p, n - 1) +
      match Lookup(m, d, p + n - 1) case None => {} case Some(w) => {FrameOf(w)}
  }

  /** The frames behind the range belong to the pages alone: none of them is a directory, a page table or frame 0. */
  ghost predicate Releasable(m: seq<Frame>, dirs: set<nat>, d: nat, p: nat, n: nat) {
    && (forall e :: e in dirs ==> e < |m|) && d in dirs && p + n <= PAGES
    && forall q :: p <= q < p + n && Lookup(m, d, q).Some? ==>
         var f := FrameOf(Lookup(m, d, q).value); f != 0 && f !in dirs && f !in Tables(m, dirs)
  }

  /** The n pages from p on of directory d are unmapped and their frames are free; nothing else has changed since m. */
  ghost predicate Released(m: seq<Frame>, m': seq<Frame>, dirs: set<nat>, d: nat, used: set<nat>, used': set<nat>,
                           p: nat, n: nat) {
    && Follows(m, m', dirs, d) && p + n <= PAGES
    && (forall q :: 0 <= q < PAGES ==> Lookup(m', d, q) == if p <= q < p + n then None else Lookup(m, d, q))
    && Tables(m', dirs) == Tables(m, dirs)
    && used' == used - Backing(m, d, p, n)
    && OnlyTablesWritten(m, m', dirs)
  }

  lemma ReleasedStart(m: seq<Frame>, dirs: set<nat>, kernel: nat, d: nat, used: set<nat>, p: nat)
    requires Spaces(m, dirs, kernel, used) && d in dirs && p <= PAGES
    ensures Released(m, m, dirs, d, used, used, p, 0)
  {
    FollowsRefl(m, dirs, d);
    hide Lookup, Tables, Follows;
  }

  /** Nothing needs to be done for a page that is not mapped. */
  lemma ReleasedSkip(m: seq<Frame>, m': seq<Frame>, dirs: set<nat>, d: nat, used: set<nat>, used': set<nat>, p: nat,
                     n: nat)
    requires Released(m, m', dirs, d, used, used', p, n) && p + n < PAGES && Lookup(m', d, p + n) == None && d < |m|
    ensures Released(m, m', dirs, d, used, used', p, n + 1)
  {
    hide Lookup, Tables, Follows, OnlyTablesWritten;
    assert Backing(m, d, p, n + 1) == Backing(m, d, p, n);
  }

  /** One more page has been unmapped and its frame given back. */
  lemma ReleasedStep(m: seq<Frame>, m1: seq<Frame>, m': seq<Frame>, dirs: set<nat>, d: nat, used: set<nat>,
                     used': set<nat>, p: nat, n: nat, w: word)
    requires d < |m| && d < |m1|
    requires Released(m, m1, dirs, d, used, used', p, n) && p + n < PAGES && Lookup(m1, d, p + n) == Some(w)
    requires PageUpdated(m1, m', dirs, d, p + n, None) && SameSharing(m1, m', dirs, d)
    requires Tables(m', dirs) == Tables(m1, dirs) && OnlyTablesWritten(m1, m', dirs)
    ensures Released(m, m', dirs, d, used, used' - {FrameOf(w)}, p, n + 1)
  {
    hide Lookup, Tables, Follows, Shares, FrameOf, OnlyTablesWritten, SameSharing;
    WrittenTrans(m, m1, m', dirs);
    FollowsUpdate(m, m1, m', dirs, d, p + n, None);
    assert Backing(m, d, p, n + 1) == Backing(m, d, p, n) + {FrameOf(w)};
  }

  lemma ReleasableStill(m: seq<Frame>, m': seq<Frame>, dirs: set<nat>, d: nat, used: set<nat>, used': set<nat>, p: nat,
                        n: nat, all: nat, w: word)
    requires Releasable(m, dirs, d, p, all) && Released(m, m', dirs, d, used, used', p, n) && n < all
    requires Lookup(m', d, p + n) == Some(w)
    ensures d < |m| && Lookup(m, d, p + n) == Some(w)
    ensures FrameOf(w) != 0 && FrameOf(w) !in dirs && FrameOf(w) !in Tables(m', dirs)
  {
    assert Lookup(m, d, p + n) == Lookup(m', d, p + n);
    hide Tables, FrameOf, Follows, Backing, Lookup;
  }

  /** Among the pages still to be released, one whose physical address reads as 0 is not mapped. */
  lemma NotMapped(m: seq<Frame>, m': seq<Frame>, dirs: set<nat>, d: nat, used: set<nat>, used': set<nat>, p: nat,
                  n: nat, all: nat)
    requires Releasable(m, dirs, d, p, all) && Released(m, m', dirs, d, used, used', p, n) && n < all
    requires Lookup(m', d, p + n).Some? ==> FrameOf(Lookup(m', d, p + n).value) == 0
    ensures d < |m| && Lookup(m', d, p + n) == None
  {
    if Lookup(m', d, p + n).Some? {
      ReleasableStill(m, m', dirs, d, used, used', p, n, all, Lookup(m', d, p + n).value);
    }
  }

  lemma ReleasableFits(m: seq<Frame>, dirs: set<nat>, d: nat, p: nat, n: nat)
    requires Releasable(m, dirs, d, p, n)
    ensures p + n <= PAGES
  {
  }

  lemma {:induction false} BackingIs(m0: seq<Frame>, m: seq<Frame>, d: nat, p: nat, frames: seq<nat>, n: nat)
    requires RangeMapped(m0, m, d, p, frames) && n <= |frames|
    ensures Backing(m, d, p, n) == Elements(frames[..n])
  {
    hide Lookup, FrameOf;
    if n > 0 {
      BackingIs(m0, m, d, p, frames, n - 1);
      assert frames[..n] == frames[..n - 1] + [frames[n - 1]];
      assert Lookup(m, d, p + n - 1).Some? && FrameOf(Lookup(m, d, p + n - 1).value) == frames[p + n - 1 - p];
    }
  }

  lemma MappingReleasable(m0: seq<Frame>, m: seq<Frame>, dirs: set<nat>, d: nat, used0: set<nat>, used: set<nat>,
                          p: nat, frames: seq<nat>)
    requires Mapping(m0, m, dirs, d, used0, used, p, frames) && 0 in used0
    ensures Releasable(m, dirs, d, p, |frames|)
  {
    hide Lookup, Tables, FrameOf;
    forall q | p <= q < p + |frames| && Lookup(m, d, q).Some?
      ensures var f := FrameOf(Lookup(m, d, q).value); f != 0 && f !in dirs && f !in Tables(m, dirs)
    {
      assert frames[q - p] in Elements(frames);
    }
  }

  /** Releasing a range that was mapped to fresh frames undoes the mapping, if the range was unmapped before: all
      translations are as they were, every data frame is free again, and only new page tables stay taken. */
  lemma ReleaseUndoes(m0: seq<Frame>, m: seq<Frame>, m': seq<Frame>, dirs: set<nat>, d: nat, used0: set<nat>,
                      used: set<nat>, used': set<nat>, p: nat, frames: seq<nat>)
    requires Mapping(m0, m, dirs, d, used0, used, p, frames)
    requires Released(m, m', dirs, d, used, used', p, |frames|)
    requires forall q :: p <= q < p + |frames| ==> Lookup(m0, d, q) == None
    ensures SameTranslations(m0, m', dirs) && OnlyTablesTaken(m0, m', dirs, used0, used')
  {
    BackingIs(m0, m, d, p, frames, |frames|);
    assert frames[..|frames|] == frames;
    FollowsTrans(m0, m, m', dirs, d);
    FollowsRestored(m0, m', dirs, d);
    hide Lookup, Tables, Follows, Backing;
  }

  lemma ReleasedKeeps(m: seq<Frame>, m': seq<Frame>, dirs: set<nat>, d: nat, used: set<nat>, used': set<nat>, p: nat,
                      n: nat)
    requires Released(m, m', dirs, d, used, used', p, n)
    ensures DataKept(m, m', dirs, used)
  {
    hide Lookup, Tables, Follows, Backing;
  }

  /** Mapping and releasing change no data that was in use before. */
  lemma ReleaseKeepsData(m0: seq<Frame>, m: seq<Frame>, m': seq<Frame>, dirs: set<nat>, d: nat, used0: set<nat>,
                         used: set<nat>, used': set<nat>, p: nat, frames: seq<nat>)
    requires Mapping(m0, m, dirs, d, used0, used, p, frames)
    requires Released(m, m', dirs, d, used, used', p, |frames|)
    ensures DataKept(m0, m', dirs, used0)
  {
    hide Lookup, Tables, Follows, RangeMapped, Backing;
    WrittenKept(m, m', dirs, used0);
    DataKeptTrans(m0, m, m', dirs, used0, used0);
  }

  lemma FollowsTrans(m0: seq<Frame>, m: seq<Frame>, m': seq<Frame>, dirs: set<nat>, d: nat)
    requires Follows(m0, m, dirs, d) && Follows(m, m', dirs, d)
    ensures Follows(m0, m', dirs, d)
  {
    hide Lookup, Shares;
    forall e, q | e in dirs && 0 <= q < PAGES
      ensures Lookup(m', e, q) == if e == d || Shares(m0, d, e, q / ENTRIES) then Lookup(m', d, q) else Lookup(m0, e, q)
    {
      PageIndex(q);
      assert e != d ==> (Shares(m, d, e, q / ENTRIES) <==> Shares(m0, d, e, q / ENTRIES));
    }
  }

  // ----- The page tables that a range needs -----

  /** The number of page tables that directory pd lacks for the n pages from p on. */
  ghost function Absent(pd: Frame, p: nat, n: nat): nat
    requires p + n <= PAGES
  {
    if n == 0 then 0
    else
      var q := p + n - 1;
      Absent(pd, p, n - 1) + if !Present(pd[q / ENTRIES]) && (n == 1 || q % ENTRIES == 0) then 1 else 0
  }

  lemma {:induction false} AbsentMono(pd: Frame, p: nat, k: nat, n: nat)
    requires k <= n && p + n <= PAGES
    ensures Absent(pd, p, k) <= Absent(pd, p, n)
  {
    if k < n {
      AbsentMono(pd, p, k, n - 1);
    }
  }

  /** Directory pd has the entries of pd0, and those of the k pages from p on. */
  ghost predicate Covered(pd0: Frame, pd: Frame, p: nat, k: nat) {
    forall j :: 0 <= j < ENTRIES ==>
      (Present(pd[j]) <==> Present(pd0[j]) || (0 < k && p / ENTRIES <= j <= (p + k - 1) / ENTRIES))
  }

  /** The entries that are present after mapping the next page. */
  lemma CoveredStep(pd0: Frame, m: seq<Frame>, m': seq<Frame>, d: nat, p: nat, k: nat)
    requires d < |m| && Covered(pd0, m[d], p, k) && p + k < PAGES && EntryAdded(m, m', d, (p + k) / ENTRIES, true)
    ensures Covered(pd0, m'[d], p, k + 1)
  {
    PageIndex(p + k);
    IndexGrows(p, k);
    forall j | 0 <= j < ENTRIES
      ensures Present(m'[d][j]) <==> Present(pd0[j]) || p / ENTRIES <= j <= (p + k) / ENTRIES
    {
    }
  }

  lemma RangeStart(pd: Frame, p: nat)
    requires p <= PAGES
    ensures Covered(pd, pd, p, 0) && Absent(pd, p, 0) == 0
  {
  }

  lemma IndexGrows(p: nat, k: nat)
    ensures p / ENTRIES <= (p + k) / ENTRIES
    ensures 0 < k ==> (p + k) / ENTRIES == (p + k - 1) / ENTRIES + if (p + k) % ENTRIES == 0 then 1 else 0
  {
    DivMod(p, ENTRIES);
    DivMod(p + k, ENTRIES);
    if 0 < k {
      DivSucc(p + k - 1, ENTRIES);
    }
  }

  lemma CoveredAbsent(pd0: Frame, pd: Frame, p: nat, k: nat)
    requires Covered(pd0, pd, p, k) && p + k < PAGES
    ensures (p + k) / ENTRIES < ENTRIES
    ensures Absent(pd0, p, k + 1) == Absent(pd0, p, k) + if Present(pd[(p + k) / ENTRIES]) then 0 else 1
  {
    PageIndex(p + k);
    IndexGrows(p, k);
    if 0 < k {
      IndexGrows(p, k - 1);
    }
  }

  // ----- Mapping chosen frames -----

  const SUCCESS: int := 0
  const EINVAL: int := 22
  const EMAP: int := -2

  /** The frames of n pages of physical memory from pa on, in 32-bit arithmetic. */
  function FramesFrom(pa: word, n: nat): (frames: seq<nat>)
    ensures |frames| == n
  {
    if n == 0 then [] else FramesFrom(pa, n - 1) + [PageOf(AddressAt(pa, n - 1))]
  }

  /** The address of the i-th page from pa on; it wraps around. */
  function AddressAt(pa: word, i: nat): word {
    (pa + i * PAGE_SIZE) % 0x1_0000_0000
  }

  /** The frames are consecutive, and wrap around at the end of the 32-bit address space. */
  lemma {:induction false} FramesAt(pa: word, n: nat, i: nat)
    requires i < n
    ensures FramesFrom(pa, n)[i] == (pa / 4096 + i) % 0x10_0000
  {
    if i == n - 1 {
      AddressPage(pa, i);
    } else {
      FramesAt(pa, n - 1, i);
    }
  }

  lemma AddressPage(pa: word, i: nat)
    ensures PageOf(AddressAt(pa, i)) == (pa / 4096 + i) % 0x10_0000
  {
    var f := pa / 4096 + i;
    DivMod(pa, 4096);
    DivMod(f, 0x10_0000);
    var r := f % 0x10_0000 * 4096 + pa % 4096;
    DivModUnique(pa + i * 4096, 0x1_0000_0000, f / 0x10_0000, r);
    DivModUnique(r, 4096, f % 0x10_0000, pa % 4096);
  }

  lemma FramesStep(pa: word, n: nat)
    ensures FramesFrom(pa, n + 1) == FramesFrom(pa, n) + [PageOf(AddressAt(pa, n))]
  {
  }

  /** Pages p, p + 1, ... of directory d are mapped to the given frames; only page tables were taken for it. */
  ghost predicate MappedTo(m0: seq<Frame>, m: seq<Frame>, dirs: set<nat>, d: nat, used0: set<nat>, used: set<nat>,
                           p: nat, frames: seq<nat>) {
    && Follows(m0, m, dirs, d) && RangeMapped(m0, m, d, p, frames) && OnlyTablesTaken(m0, m, dirs, used0, used)
    && DataKept(m0, m, dirs, used0)
  }

  /** The n pages from p on are mapped to the n frames from f on. */
  ghost predicate Consecutive(m: seq<Frame>, d: nat, p: nat, f: nat, n: nat) {
    && d < |m| && p + n <= PAGES
    && forall q :: p <= q < p + n ==>
         Lookup(m, d, q).Some? && Lookup(m, d, q).value / 4096 == (f + q - p) % 0x10_0000
  }

  lemma MappedConsecutive(m0: seq<Frame>, m: seq<Frame>, dirs: set<nat>, d: nat, used0: set<nat>, used: set<nat>,
                          p: nat, pa: word, n: nat)
    requires MappedTo(m0, m, dirs, d, used0, used, p, FramesFrom(pa, n))
    ensures Consecutive(m, d, p, pa / 4096, n)
  {
    hide Lookup, Follows, OnlyTablesTaken, DataKept, FramesFrom;
    forall q | p <= q < p + n
      ensures Lookup(m, d, q).Some? && Lookup(m, d, q).value / 4096 == (pa / 4096 + q - p) % 0x10_0000
    {
      FramesAt(pa, n, q - p);
      assert FrameOf(Lookup(m, d, q).value) == FramesFrom(pa, n)[q - p];
    }
  }

  lemma MappedKeeps(m0: seq<Frame>, m: seq<Frame>, dirs: set<nat>, d: nat, used0: set<nat>, used: set<nat>, p: nat,
                    frames: seq<nat>)
    requires MappedTo(m0, m, dirs, d, used0, used, p, frames)
    ensures DataKept(m0, m, dirs, used0)
  {
    hide Follows, RangeMapped, OnlyTablesTaken, DataKept;
  }

  lemma MappedToStart(m: seq<Frame>, dirs: set<nat>, kernel: nat, d: nat, used: set<nat>, p: nat)
    requires Spaces(m, dirs, kernel, used) && d in dirs && p <= PAGES
    ensures d < |m| && MappedTo(m, m, dirs, d, used, used, p, [])
  {
    FollowsRefl(m, dirs, d);
    hide Lookup, Tables, Follows;
  }

  lemma TablesTakenTrans(m0: seq<Frame>, m1: seq<Frame>, m2: seq<Frame>, dirs: set<nat>, u0: set<nat>, u1: set<nat>,
                         u2: set<nat>)
    requires OnlyTablesTaken(m0, m1, dirs, u0, u1) && OnlyTablesTaken(m1, m2, dirs, u1, u2)
    ensures OnlyTablesTaken(m0, m2, dirs, u0, u2)
  {
    hide Tables;
  }

  lemma MappedToStep(m0: seq<Frame>, m: seq<Frame>, m': seq<Frame>, dirs: set<nat>, d: nat, used0: set<nat>,
                     used: set<nat>, used': set<nat>, p: nat, frames: seq<nat>, w: word)
    requires MappedTo(m0, m, dirs, d, used0, used, p, frames) && p + |frames| < PAGES
    requires OnlyTablesTaken(m, m', dirs, used, used') && DataKept(m, m', dirs, used) && d in dirs
    requires PageUpdated(m, m', dirs, d, p + |frames|, Some(w)) && SameSharing(m, m', dirs, d)
    ensures MappedTo(m0, m', dirs, d, used0, used', p, frames + [FrameOf(w)])
  {
    hide Follows, RangeMapped, PageUpdated, Tables, DataKept, SameSharing, Lookup, FrameOf;
    RangeExtend(m0, m, m', dirs, d, p, frames, FrameOf(w), w);
    FollowsUpdate(m0, m, m', dirs, d, p + |frames|, Some(w));
    TablesTakenTrans(m0, m, m', dirs, used0, used, used');
    DataKeptTrans(m0, m, m', dirs, used0, used);
  }

  /** One more page has been mapped to its chosen frame, with the same flags as the pages before it. */
  lemma FrameStep(m0: seq<Frame>, m: seq<Frame>, m': seq<Frame>, dirs: set<nat>, d: nat, used0: set<nat>,
                  used: set<nat>, used': set<nat>, p: nat, frames: seq<nat>, w: word, flags: word)
    requires MappedTo(m0, m, dirs, d, used0, used, p, frames) && p + |frames| < PAGES
    requires OnlyTablesTaken(m, m', dirs, used, used') && DataKept(m, m', dirs, used) && d in dirs && d < |m'|
    requires PageUpdated(m, m', dirs, d, p + |frames|, Some(w)) && SameSharing(m, m', dirs, d)
    requires RangeAccess(m, d, p, |frames|, flags) && PageAccess(m', d, p + |frames|, flags)
    requires AccessAdded(m, m', d, (p + |frames|) / ENTRIES, flags)
    ensures MappedTo(m0, m', dirs, d, used0, used', p, frames + [FrameOf(w)])
    ensures RangeAccess(m', d, p, |frames| + 1, flags)
  {
    hide MappedTo, OnlyTablesTaken, PageUpdated, SameSharing, DataKept, RangeAccess, PageAccess, AccessAdded, Tables,
         FrameOf, Lookup;
    MappedToStep(m0, m, m', dirs, d, used0, used, used', p, frames, w);
    AccessStep(m, m', dirs, d, p, |frames|, flags, Some(w));
  }

  /** The n pages from p on of directory d are unmapped; nothing else has changed since m. */
  ghost predicate Dropped(m: seq<Frame>, m': seq<Frame>, dirs: set<nat>, d: nat, p: nat, n: nat) {
    && Follows(m, m', dirs, d) && p + n <= PAGES
    && (forall q :: 0 <= q < PAGES ==> Lookup(m', d, q) == if p <= q < p + n then None else Lookup(m, d, q))
    && Tables(m', dirs) == Tables(m, dirs) && OnlyTablesWritten(m, m', dirs)
  }

  lemma DroppedStart(m: seq<Frame>, dirs: set<nat>, kernel: nat, d: nat, used: set<nat>, p: nat)
    requires Spaces(m, dirs, kernel, used) && d in dirs && p <= PAGES
    ensures Dropped(m, m, dirs, d, p, 0)
  {
    FollowsRefl(m, dirs, d);
    hide Lookup, Tables, Follows;
  }

  lemma DroppedStep(m: seq<Frame>, m1: seq<Frame>, m': seq<Frame>, dirs: set<nat>, d: nat, p: nat, n: nat)
    requires Dropped(m, m1, dirs, d, p, n) && p + n < PAGES
    requires PageUpdated(m1, m', dirs, d, p + n, None) && SameSharing(m1, m', dirs, d)
    requires Tables(m', dirs) == Tables(m1, dirs) && OnlyTablesWritten(m1, m', dirs)
    ensures Dropped(m, m', dirs, d, p, n + 1)
  {
    WrittenTrans(m, m1, m', dirs);
    FollowsUpdate(m, m1, m', dirs, d, p + n, None);
    hide Lookup, Tables, Follows, Shares;
  }

  /** Dropping a range that was unmapped before it was mapped restores all translations. */
  lemma DropUndoes(m0: seq<Frame>, m: seq<Frame>, m': seq<Frame>, dirs: set<nat>, d: nat, used0: set<nat>,
                   used: set<nat>, p: nat, frames: seq<nat>, n: nat)
    requires MappedTo(m0, m, dirs, d, used0, used, p, frames) && Dropped(m, m', dirs, d, p, |frames|)
    requires Unmapped(m0, d, p, n) && |frames| <= n
    ensures SameTranslations(m0, m', dirs) && OnlyTablesTaken(m0, m', dirs, used0, used)
  {
    FollowsTrans(m0, m, m', dirs, d);
    FollowsRestored(m0, m', dirs, d);
    hide Lookup, Tables, Follows;
  }

  /** Mapping and dropping change no data that was in use before. */
  lemma DropKeepsData(m0: seq<Frame>, m: seq<Frame>, m': seq<Frame>, dirs: set<nat>, d: nat, used0: set<nat>,
                      used: set<nat>, p: nat, frames: seq<nat>)
    requires MappedTo(m0, m, dirs, d, used0, used, p, frames) && Dropped(m, m', dirs, d, p, |frames|)
    ensures DataKept(m0, m', dirs, used0)
  {
    hide Lookup, Tables, Follows, RangeMapped;
    WrittenKept(m, m', dirs, used0);
    DataKeptTrans(m0, m, m', dirs, used0, used0);
  }

  lemma PageAtAny(va: word, i: nat)
    requires PageOf(va) + i < PAGES
    ensures va + i * PAGE_SIZE < 0x1_0000_0000 && PageOf(va + i * PAGE_SIZE) == PageOf(va) + i
  {
    DivMod(va, PAGE_SIZE);
    DivModUnique(va + i * PAGE_SIZE, PAGE_SIZE, va / PAGE_SIZE + i, va % PAGE_SIZE);
  }

  // ----- The allocator -----

  class Bump {
    var next: word

    constructor (start: word)
      ensures next == start
    {
      next := start;
    }
  }

  lemma PageAt(va: word, i: nat)
    requires va % PAGE_SIZE == 0 && PageOf(va) + i < PAGES
    ensures va + i * PAGE_SIZE < 0x1_0000_0000 && PageOf(va + i * PAGE_SIZE) == PageOf(va) + i
    ensures (va + i * PAGE_SIZE) % PAGE_SIZE == 0
  {
    DivMod(va, PAGE_SIZE);
    DivModUnique(va + i * PAGE_SIZE, PAGE_SIZE, va / PAGE_SIZE + i, 0);
  }

  lemma RangeInSpace(va: word, n: nat)
    requires va % PAGE_SIZE == 0 && va + n * PAGE_SIZE <= 0x1_0000_0000
    ensures PageOf(va) + n <= PAGES
  {
    DivMod(va, PAGE_SIZE);
  }

  lemma AlignedEnd(va: word, n: nat)
    requires va % PAGE_SIZE == 0
    ensures (va + n * PAGE_SIZE) % PAGE_SIZE == 0
  {
    DivMod(va, PAGE_SIZE);
    DivModUnique(va + n * PAGE_SIZE, PAGE_SIZE, va / PAGE_SIZE + n, 0);
  }

  /** The n pages from p on of directory d are not mapped. */
  ghost predicate Unmapped(m: seq<Frame>, d: nat, p: nat, n: nat) {
    d < |m| && p + n <= PAGES && forall q :: p <= q < p + n ==> Lookup(m, d, q) == None
  }

  /** The pages from p on of directory d were unmapped in m0 and have been mapped to fresh frames since. */
  ghost predicate FreshMapping(m0: seq<Frame>, m: seq<Frame>, dirs: set<nat>, d: nat, used0: set<nat>, used: set<nat>,
                               p: nat, frames: seq<nat>) {
    Unmapped(m0, d, p, |frames|) && Mapping(m0, m, dirs, d, used0, used, p, frames)
  }

  /** The comparison with the old value detects that a 32-bit addition of a page-aligned size has wrapped around. */
  lemma WrapTest(start: word, n: nat)
    requires n < PAGES
    ensures (start + n * PAGE_SIZE) % 0x1_0000_0000 < start <==> start + n * PAGE_SIZE >= 0x1_0000_0000
    ensures start + n * PAGE_SIZE < 0x1_0000_0000 ==> (start + n * PAGE_SIZE) % 0x1_0000_0000 == start + n * PAGE_SIZE
  {
    var x := start + n * PAGE_SIZE;
    if x >= 0x1_0000_0000 {
      DivModUnique(x, 0x1_0000_0000, 1, x - 0x1_0000_0000);
    } else {
      DivModUnique(x, 0x1_0000_0000, 0, x);
    }
  }

  class VirtualMemory {
    const mmu: Mmu
    const kernelBump: Bump
    var kernelLimit: word

    constructor (m: Mmu, limit: word)
      ensures mmu == m && kernelLimit == limit && fresh(kernelBump) && kernelBump.next == ARCH_BASE
    {
      mmu := m;
      kernelBump := new Bump(ARCH_BASE);
      kernelLimit := limit;
    }

    /** Maps the next page of a range to a fresh frame, zeroed if the address space is the active one. */
    method MapFresh(d: nat, va: word, flags: word, ghost m0: seq<Frame>, ghost used0: set<nat>, ghost p: nat,
                    ghost frames: seq<nat>)
      returns (ok: bool, ghost f: nat)
      requires mmu.Valid() && d in mmu.dirs && Mapping(m0, mmu.mem[..], mmu.dirs, d, used0, mmu.pmm.Used(), p, frames)
      requires PageOf(va) == p + |frames|
      requires RangeAccess(mmu.mem[..], d, p, |frames|, flags) && (mmu.currentDir == d ==> Zeroed(mmu.mem[..], frames))
      modifies mmu.pmm`count, mmu.pmm.bitmap, mmu.mem
      ensures mmu.Valid()
      ensures ok ==> RangeAccess(mmu.mem[..], d, p, |frames| + 1, flags)
      ensures ok && mmu.currentDir == d ==> Zeroed(mmu.mem[..], frames + [f])
      ensures Mapping(m0, mmu.mem[..], mmu.dirs, d, used0, mmu.pmm.Used(), p, if ok then frames + [f] else frames)
      ensures var needed := 1 + if old(Present(mmu.mem[d][PageOf(va) / ENTRIES])) then 0 else 1;
              && (ok <==> old(|mmu.pmm.Used()|) + needed <= mmu.pmm.total)
              && (ok ==> |mmu.pmm.Used()| == old(|mmu.pmm.Used()|) + needed)
      ensures ok ==> EntryAdded(old(mmu.mem[..]), mmu.mem[..], d, PageOf(va) / ENTRIES, true)
    {
      hide Lookup, Tables, Spaces, UsedPages, Mapping, RangeAccess, Zeroed;
      ghost var m, used := mmu.mem[..], mmu.pmm.Used();
      f := 0;
      var addr := mmu.pmm.AllocatePage();
      if addr == 0 {
        AllUsed(used, mmu.pmm.total);
        return false, f;
      }
      f := addr / PAGE_SIZE;
      SpacesMono(m, mmu.dirs, mmu.kernelDir, used, mmu.pmm.Used());
      DirIn(m, mmu.dirs, mmu.kernelDir, used, d);
      ok := MapNew(d, va, addr, flags, m0, used0, used, p, frames, Present(m[d][PageOf(va) / ENTRIES]), f);
      UsedBound(mmu.pmm.Used(), mmu.pmm.total);
      if !ok {
        mmu.pmm.FreePage(addr);
        assert mmu.pmm.Used() == used;
      }
    }

    /** Maps the next page of a range to a frame that has just been taken. */
    method MapNew(d: nat, va: word, addr: word, flags: word, ghost m0: seq<Frame>, ghost used0: set<nat>,
                  ghost used: set<nat>, ghost p: nat, ghost frames: seq<nat>, ghost present: bool, ghost f: nat)
      returns (ok: bool)
      requires d < mmu.mem.Length && f == addr / PAGE_SIZE && present == Present(mmu.mem[d][PageOf(va) / ENTRIES])
      requires mmu.Valid() && d in mmu.dirs && Spaces(mmu.mem[..], mmu.dirs, mmu.kernelDir, used)
      requires Mapping(m0, mmu.mem[..], mmu.dirs, d, used0, used, p, frames) && PageOf(va) == p + |frames|
      requires f < mmu.mem.Length && f !in used && mmu.pmm.Used() == used + {f}
      requires RangeAccess(mmu.mem[..], d, p, |frames|, flags) && (mmu.currentDir == d ==> Zeroed(mmu.mem[..], frames))
      modifies mmu.pmm`count, mmu.pmm.bitmap, mmu.mem
      ensures mmu.Valid()
      ensures ok ==> RangeAccess(mmu.mem[..], d, p, |frames| + 1, flags)
      ensures ok && mmu.currentDir == d ==> Zeroed(mmu.mem[..], frames + [f])
      ensures ok ==> Mapping(m0, mmu.mem[..], mmu.dirs, d, used0, mmu.pmm.Used(), p, frames + [f])
      ensures !ok ==> mmu.mem[..] == old(mmu.mem[..]) && mmu.pmm.Used() == old(mmu.pmm.Used())
      ensures ok <==> present || old(|mmu.pmm.Used()|) < mmu.pmm.total
      ensures !ok ==> |mmu.pmm.Used()| == mmu.pmm.total
      ensures ok ==> |mmu.pmm.Used()| == old(|mmu.pmm.Used()|) + if present then 0 else 1
      ensures ok ==> EntryAdded(old(mmu.mem[..]), mmu.mem[..], d, PageOf(va) / ENTRIES, true)
    {
      hide Lookup, Tables, Spaces, UsedPages, Mapping, PageUpdated, SameSharing, OnlyTablesTaken, MakePte, RangeAccess,
           Zeroed, DataKept, AccessAdded, Permits, PageAccess, OthersUnchanged;
      ghost var m := mmu.mem[..];
      ok := mmu.MapPage(d, va, addr, flags);
      if ok {
        AddressIndices(va);
        AccessMapped(mmu.mem[..], d, p + |frames|, flags);
        FreshStep(m0, m, mmu.mem[..], mmu.dirs, mmu.kernelDir, d, used0, used, mmu.pmm.Used(), p, frames, f,
                  MakePte(addr, flags), flags);
        ZeroNew(d, addr / PAGE_SIZE, m0, used0, p, frames + [f], flags);
      }
    }

    /** Zeroes the last page of a range if its address space is the current one. */
    method ZeroNew(d: nat, f: nat, ghost m0: seq<Frame>, ghost used0: set<nat>, ghost p: nat, ghost frames: seq<nat>,
                   ghost flags: word)
      requires mmu.Valid() && d in mmu.dirs && Mapping(m0, mmu.mem[..], mmu.dirs, d, used0, mmu.pmm.Used(), p, frames)
      requires f < mmu.mem.Length && f !in mmu.dirs && f !in Tables(mmu.mem[..], mmu.dirs) && d < mmu.mem.Length
      requires |frames| > 0 && frames[|frames| - 1] == f && f !in used0
      requires RangeAccess(mmu.mem[..], d, p, |frames|, flags)
      requires mmu.currentDir == d ==> Zeroed(mmu.mem[..], frames[..|frames| - 1])
      modifies mmu.mem
      ensures mmu.Valid() && Mapping(m0, mmu.mem[..], mmu.dirs, d, used0, mmu.pmm.Used(), p, frames)
      ensures mmu.mem[d] == old(mmu.mem[d]) && RangeAccess(mmu.mem[..], d, p, |frames|, flags)
      ensures mmu.currentDir == d ==> Zeroed(mmu.mem[..], frames)
    {
      hide Lookup, Tables, Spaces, UsedPages, Mapping, RangeAccess, ZeroFrame, SameTranslations;
      if mmu.currentDir == d {
        ghost var m := mmu.mem[..];
        MappingData(m0, m, mmu.dirs, mmu.kernelDir, d, used0, mmu.pmm.Used(), p, frames, f, ZeroFrame());
        mmu.mem[f] := ZeroFrame();
        assert mmu.mem[..] == m[f := ZeroFrame()];
        AccessData(m, mmu.mem[..], mmu.dirs, d, p, |frames|, flags);
      }
    }

    /** Unmaps the page of va and frees its frame. */
    method ReleasePage(d: nat, va: word, pa: word, ghost m0: seq<Frame>, ghost used0: set<nat>, ghost p: nat,
                       ghost n: nat, ghost all: nat)
      requires mmu.Valid() && d in mmu.dirs && va % PAGE_SIZE == 0 && PageOf(va) == p + n && n < all
      requires Releasable(m0, mmu.dirs, d, p, all)
      requires Released(m0, mmu.mem[..], mmu.dirs, d, used0, mmu.pmm.Used(), p, n)
      requires Lookup(mmu.mem[..], d, p + n).Some? && pa == FrameOf(Lookup(mmu.mem[..], d, p + n).value) * PAGE_SIZE
      modifies mmu.pmm`count, mmu.pmm.bitmap, mmu.mem
      ensures mmu.Valid() && Released(m0, mmu.mem[..], mmu.dirs, d, used0, mmu.pmm.Used(), p, n + 1)
    {
      hide Lookup, Tables, Spaces, UsedPages, Released, Releasable, PageUpdated, SameSharing, Backing, FrameOf,
           OnlyTablesWritten, OthersUnchanged;
      ghost var m, used := mmu.mem[..], mmu.pmm.Used();
      DirIn(m, mmu.dirs, mmu.kernelDir, used, d);
      ghost var w := Lookup(m, d, p + n).value;
      ReleasableStill(m0, m, mmu.dirs, d, used0, used, p, n, all, w);
      DivModUnique(pa, PAGE_SIZE, FrameOf(w), 0);
      var unmapped := mmu.UnmapPage(d, va);
      ReleasedStep(m0, m, mmu.mem[..], mmu.dirs, d, used0, used, p, n, w);
      SpacesShrink(mmu.mem[..], mmu.dirs, mmu.kernelDir, used, FrameOf(w));
      mmu.pmm.FreePage(pa);
    }

    /** Releases the page of va, unless it is not mapped. */
    method ReleaseIfMapped(d: nat, va: word, ghost m0: seq<Frame>, ghost used0: set<nat>, ghost p: nat, ghost n: nat,
                           ghost all: nat)
      requires mmu.Valid() && d in mmu.dirs && va % PAGE_SIZE == 0 && PageOf(va) == p + n && n < all
      requires Releasable(m0, mmu.dirs, d, p, all)
      requires Released(m0, mmu.mem[..], mmu.dirs, d, used0, mmu.pmm.Used(), p, n)
      modifies mmu.pmm`count, mmu.pmm.bitmap, mmu.mem
      ensures mmu.Valid() && Released(m0, mmu.mem[..], mmu.dirs, d, used0, mmu.pmm.Used(), p, n + 1)
    {
      hide Lookup, Tables, Spaces, UsedPages, Released, Releasable, Backing, FrameOf;
      var pa := mmu.GetPhysicalAddress(d, va);
      if pa != 0 {
        ReleasePage(d, va, pa, m0, used0, p, n, all);
      } else {
        NotMapped(m0, mmu.mem[..], mmu.dirs, d, used0, mmu.pmm.Used(), p, n, all);
        ReleasedSkip(m0, mmu.mem[..], mmu.dirs, d, used0, mmu.pmm.Used(), p, n);
      }
    }

    /** Releases the mapped ones of n pages. */
    method ReleaseRange(d: nat, va: word, n: nat)
      requires mmu.Valid() && d in mmu.dirs && va % PAGE_SIZE == 0
      requires Releasable(mmu.mem[..], mmu.dirs, d, PageOf(va), n)
      modifies mmu.pmm`count, mmu.pmm.bitmap, mmu.mem
      ensures mmu.Valid()
      ensures Released(old(mmu.mem[..]), mmu.mem[..], mmu.dirs, d, old(mmu.pmm.Used()), mmu.pmm.Used(), PageOf(va), n)
    {
      hide Lookup, Tables, Spaces, UsedPages, Released, Releasable, Backing;
      ghost var m0, used0, p := mmu.mem[..], mmu.pmm.Used(), PageOf(va);
      ReleasableFits(m0, mmu.dirs, d, p, n);
      ReleasedStart(m0, mmu.dirs, mmu.kernelDir, d, used0, p);
      var i := 0;
      while i < n
        invariant i <= n && mmu.Valid() && Released(m0, mmu.mem[..], mmu.dirs, d, used0, mmu.pmm.Used(), p, i)
      {
        PageAt(va, i);
        ReleaseIfMapped(d, va + i * PAGE_SIZE, m0, used0, p, i, n);
        i := i + 1;
      }
    }

    /** Unmaps the pages of the range and frees their frames; pages that are not mapped are skipped.  Freeing a range
        that was unmapped in m0 and has been mapped to fresh frames since undoes the allocation. */
    method FreeInDir(d: nat, va: word, size: word, ghost m0: seq<Frame>, ghost used0: set<nat>, ghost frames: seq<nat>)
      requires mmu.Valid() && d in mmu.dirs && va % PAGE_SIZE == 0
      requires va != 0 ==> Releasable(mmu.mem[..], mmu.dirs, d, PageOf(va), NumPages(size))
      modifies mmu.pmm`count, mmu.pmm.bitmap, mmu.mem
      ensures mmu.Valid()
      ensures va == 0 ==> mmu.mem[..] == old(mmu.mem[..]) && mmu.pmm.Used() == old(mmu.pmm.Used())
      ensures va != 0 ==>
        Released(old(mmu.mem[..]), mmu.mem[..], mmu.dirs, d, old(mmu.pmm.Used()), mmu.pmm.Used(), PageOf(va),
                 NumPages(size))
      ensures va != 0 && |frames| == NumPages(size) ==>
        FreshMapping(m0, old(mmu.mem[..]), mmu.dirs, d, used0, old(mmu.pmm.Used()), PageOf(va), frames) ==>
        && SameTranslations(m0, mmu.mem[..], mmu.dirs)
        && OnlyTablesTaken(m0, mmu.mem[..], mmu.dirs, used0, mmu.pmm.Used())
    {
      hide Lookup, Tables, Spaces, UsedPages, Released, Releasable, Backing, NumPages, Mapping, SameTranslations,
           OnlyTablesTaken;
      if va == 0 {
        return;
      }
      ghost var m, used := mmu.mem[..], mmu.pmm.Used();
      NumPagesCover(size);
      if size != 0 {
        ReleaseRange(d, va, NumPages(size));
      } else {
        ReleasedStart(m, mmu.dirs, mmu.kernelDir, d, used, PageOf(va));
      }
      if |frames| == NumPages(size) && FreshMapping(m0, m, mmu.dirs, d, used0, used, PageOf(va), frames) {
        ReleaseUndoes(m0, m, mmu.mem[..], mmu.dirs, d, used0, used, mmu.pmm.Used(), PageOf(va), frames);
      }
    }

    /** Maps n fresh pages from va on, up to the first failure. */
    method MapRange(d: nat, va: word, n: nat, flags: word) returns (mapped: nat, ghost frames: seq<nat>)
      requires mmu.Valid() && d in mmu.dirs && va % PAGE_SIZE == 0 && PageOf(va) + n <= PAGES
      modifies mmu.pmm`count, mmu.pmm.bitmap, mmu.mem
      ensures mmu.Valid() && mapped == |frames| <= n
      ensures mapped == n <==> old(|mmu.pmm.Used()| + n + Absent(mmu.mem[d], PageOf(va), n)) <= mmu.pmm.total
      ensures Mapping(old(mmu.mem[..]), mmu.mem[..], mmu.dirs, d, old(mmu.pmm.Used()), mmu.pmm.Used(), PageOf(va),
                      frames)
      ensures mapped == n ==> RangeAccess(mmu.mem[..], d, PageOf(va), n, flags)
      ensures mapped == n && mmu.currentDir == d ==> Zeroed(mmu.mem[..], frames)
    {
      hide Lookup, Tables, UsedPages, Mapping, Covered, Absent, EntryAdded, PageAccess;
      ghost var m0, used0, p := mmu.mem[..], mmu.pmm.Used(), PageOf(va);
      MappingStart(m0, mmu.dirs, mmu.kernelDir, d, used0, p);
      RangeStart(m0[d], p);
      UsedBound(used0, mmu.pmm.total);
      hide Spaces;
      mapped, frames := 0, [];
      while mapped < n
        invariant mmu.Valid() && mapped == |frames| <= n && Covered(m0[d], mmu.mem[d], p, mapped)
        invariant |mmu.pmm.Used()| == |used0| + mapped + Absent(m0[d], p, mapped) <= mmu.pmm.total
        invariant Mapping(m0, mmu.mem[..], mmu.dirs, d, used0, mmu.pmm.Used(), p, frames)
        invariant RangeAccess(mmu.mem[..], d, p, mapped, flags) && (mmu.currentDir == d ==> Zeroed(mmu.mem[..], frames))
      {
        PageAt(va, mapped);
        ghost var m := mmu.mem[..];
        CoveredAbsent(m0[d], m[d], p, mapped);
        ghost var f;
        var ok;
        ok, f := MapFresh(d, va + mapped * PAGE_SIZE, flags, m0, used0, p, frames);
        if !ok {
          AbsentMono(m0[d], p, mapped + 1, n);
          return;
        }
        CoveredStep(m0[d], m, mmu.mem[..], d, p, mapped);
        mapped, frames := mapped + 1, frames + [f];
      }
    }

    /** Gives back the pages that have been mapped so far; all of them are mapped, so none is skipped. */
    method Rollback(d: nat, va: word, mapped: nat, ghost m0: seq<Frame>, ghost used0: set<nat>, ghost frames: seq<nat>)
      requires mmu.Valid() && d in mmu.dirs && va % PAGE_SIZE == 0 && mapped == |frames| && 0 in used0
      requires Mapping(m0, mmu.mem[..], mmu.dirs, d, used0, mmu.pmm.Used(), PageOf(va), frames)
      modifies mmu.pmm`count, mmu.pmm.bitmap, mmu.mem
      ensures mmu.Valid()
      ensures Released(old(mmu.mem[..]), mmu.mem[..], mmu.dirs, d, old(mmu.pmm.Used()), mmu.pmm.Used(), PageOf(va),
                       mapped)
    {
      hide Lookup, Tables, Spaces, UsedPages, Mapping, Released, Releasable, Backing;
      MappingReleasable(m0, mmu.mem[..], mmu.dirs, d, used0, mmu.pmm.Used(), PageOf(va), frames);
      ReleaseRange(d, va, mapped);
    }

    /** Maps n pages from va on, or rolls back and returns 0. */
    method Attempt(d: nat, start: word, n: nat, flags: word) returns (va: word, ghost ok: bool, ghost frames: seq<nat>)
      requires mmu.Valid() && d in mmu.dirs && start % PAGE_SIZE == 0 && PageOf(start) + n <= PAGES
      modifies mmu.pmm`count, mmu.pmm.bitmap, mmu.mem
      ensures mmu.Valid() && va == if ok then start else 0
      ensures ok <==> old(|mmu.pmm.Used()| + n + Absent(mmu.mem[d], PageOf(start), n)) <= mmu.pmm.total
      ensures ok ==> |frames| == n
      ensures ok ==>
        Mapping(old(mmu.mem[..]), mmu.mem[..], mmu.dirs, d, old(mmu.pmm.Used()), mmu.pmm.Used(), PageOf(start), frames)
      ensures ok ==> RangeAccess(mmu.mem[..], d, PageOf(start), n, flags)
      ensures ok && mmu.currentDir == d ==> Zeroed(mmu.mem[..], frames)
      ensures DataKept(old(mmu.mem[..]), mmu.mem[..], mmu.dirs, old(mmu.pmm.Used()))
      ensures !ok && Unmapped(old(mmu.mem[..]), d, PageOf(start), n) ==>
        && SameTranslations(old(mmu.mem[..]), mmu.mem[..], mmu.dirs)
        && OnlyTablesTaken(old(mmu.mem[..]), mmu.mem[..], mmu.dirs, old(mmu.pmm.Used()), mmu.pmm.Used())
    {
      hide Tables, Spaces, UsedPages, Mapping, Released, Lookup, SameTranslations, OnlyTablesTaken, RangeAccess, Zeroed,
           DataKept;
      ghost var m0, used0 := mmu.mem[..], mmu.pmm.Used();
      var mapped;
      mapped, frames := MapRange(d, start, n, flags);
      MappingKeeps(m0, mmu.mem[..], mmu.dirs, d, used0, mmu.pmm.Used(), PageOf(start), frames);
      if mapped == n {
        return start, true, frames;
      }
      ghost var m, used := mmu.mem[..], mmu.pmm.Used();
      Rollback(d, start, mapped, m0, used0, frames);
      ReleaseKeepsData(m0, m, mmu.mem[..], mmu.dirs, d, used0, used, mmu.pmm.Used(), PageOf(start), frames);
      if Unmapped(m0, d, PageOf(start), n) {
        ReleaseUndoes(m0, m, mmu.mem[..], mmu.dirs, d, used0, used, mmu.pmm.Used(), PageOf(start), frames);
      }
      return 0, false, frames;
    }

    /** Where the next allocation starts; a null pointer stands for the kernel's own counter. */
    function Start(b: Bump?): word
      reads kernelBump, b
    {
      if b == null || b == kernelBump then
        if kernelBump.next < ARCH_BASE then ARCH_BASE else kernelBump.next
      else b.next
    }

    /** Whether the address window has room for the request. */
    predicate Fits(b: Bump?, size: word)
      reads this, kernelBump, b
    {
      var next := Start(b) + NumPages(size) * PAGE_SIZE;
      next < 0x1_0000_0000 && next <= if b == null || b == kernelBump then kernelLimit else ARCH_BASE
    }

    /** Memory has room for n pages from page p on and for the page tables that they lack. */
    ghost predicate Room(d: nat, p: nat, n: nat)
      requires mmu.Valid() && d in mmu.dirs
      reads mmu, mmu.pmm, mmu.pmm.bitmap, mmu.mem
    {
      p + n <= PAGES && |mmu.pmm.Used()| + n + Absent(mmu.mem[d], p, n) <= mmu.pmm.total
    }

    /** Allocates size bytes of address space, all of it mapped, or fails with everything as it was. */
    method AllocateInDir(d: nat, b: Bump?, size: word, flags: word)
      returns (va: word, ghost ok: bool, ghost frames: seq<nat>)
      requires mmu.Valid() && d in mmu.dirs && Start(b) % PAGE_SIZE == 0
      modifies mmu.pmm`count, mmu.pmm.bitmap, mmu.mem, kernelBump, b
      ensures mmu.Valid() && Start(b) % PAGE_SIZE == 0
      ensures va == if ok then old(Start(b)) else 0
      ensures size == 0 || !old(Fits(b, size)) ==>
        !ok && mmu.mem[..] == old(mmu.mem[..]) && mmu.pmm.Used() == old(mmu.pmm.Used()) && Start(b) == old(Start(b))
      ensures size != 0 && old(Fits(b, size)) ==> Start(b) == old(Start(b)) + NumPages(size) * PAGE_SIZE
      ensures ok <==> size != 0 && old(Fits(b, size) && Room(d, PageOf(Start(b)), NumPages(size)))
      ensures ok ==> |frames| == NumPages(size)
      ensures ok ==>
        Mapping(old(mmu.mem[..]), mmu.mem[..], mmu.dirs, d, old(mmu.pmm.Used()), mmu.pmm.Used(), PageOf(va), frames)
      ensures ok ==> RangeAccess(mmu.mem[..], d, PageOf(va), |frames|, flags)
      ensures ok && mmu.currentDir == d ==> Zeroed(mmu.mem[..], frames)
      ensures DataKept(old(mmu.mem[..]), mmu.mem[..], mmu.dirs, old(mmu.pmm.Used()))
      ensures ok ==> if b == null || b == kernelBump
                     then 0xC000_0000 <= va && va + |frames| * 4096 <= kernelLimit
                     else va + |frames| * 4096 <= 0xC000_0000
      ensures ok && size <= 0xFFFF_F000 ==> size <= |frames| * 4096 < size + 4096
      ensures !ok && old(Fits(b, size) && Unmapped(mmu.mem[..], d, PageOf(Start(b)), NumPages(size))) ==>
        && SameTranslations(old(mmu.mem[..]), mmu.mem[..], mmu.dirs)
        && OnlyTablesTaken(old(mmu.mem[..]), mmu.mem[..], mmu.dirs, old(mmu.pmm.Used()), mmu.pmm.Used())
    {
      hide Lookup, Tables, Spaces, UsedPages, Mapping, Released, SameTranslations, OnlyTablesTaken, Unmapped, Absent,
           NumPages, Fits, Start, RangeAccess, Zeroed, DataKept;
      va, ok, frames := 0, false, [];
      NothingTaken(mmu.mem[..], mmu.dirs, mmu.kernelDir, mmu.pmm.Used());
      if size == 0 {
        return;
      }
      NumPagesCover(size);
      var fits, start := Reserve(b, size);
      if fits {
        va, ok, frames := Attempt(d, start, NumPages(size), flags);
      }
    }

    /** Moves the bump pointer past the range of a request that fits; the kernel's pointer is first raised to its
        base. */
    method Reserve(b: Bump?, size: word) returns (fits: bool, start: word)
      requires Start(b) % PAGE_SIZE == 0
      modifies kernelBump, b
      ensures fits == old(Fits(b, size)) && start == old(Start(b)) && (fits ==> PageOf(start) + NumPages(size) <= PAGES)
      ensures fits ==> if b == null || b == kernelBump
                       then 0xC000_0000 <= start && start + NumPages(size) * 4096 <= kernelLimit
                       else start + NumPages(size) * 4096 <= 0xC000_0000
      ensures Start(b) == (if fits then start + NumPages(size) * PAGE_SIZE else start) && Start(b) % PAGE_SIZE == 0
    {
      hide NumPages;
      var n := NumPages(size);
      var bump := if b == null then kernelBump else b;
      var limit := if bump == kernelBump then kernelLimit else ARCH_BASE;
      if bump == kernelBump && bump.next < ARCH_BASE {
        bump.next := ARCH_BASE;
      }
      start := bump.next;
      var next := (start + n * PAGE_SIZE) % 0x1_0000_0000;
      WrapTest(start, n);
      if next < start || next > limit {
        return false, start;
      }
      RangeInSpace(start, n);
      bump.next := next;
      AlignedEnd(start, n);
      return true, start;
    }

    /** Maps n pages from va on to the frames from pa on, up to the first failure. */
    method MapFrames(d: nat, va: word, pa: word, n: nat, flags: word) returns (mapped: nat)
      requires mmu.Valid() && d in mmu.dirs && PageOf(va) + n <= PAGES
      modifies mmu.pmm`count, mmu.pmm.bitmap, mmu.mem
      ensures mmu.Valid() && mapped <= n
      ensures MappedTo(old(mmu.mem[..]), mmu.mem[..], mmu.dirs, d, old(mmu.pmm.Used()), mmu.pmm.Used(), PageOf(va),
                       FramesFrom(pa, mapped))
      ensures mapped == n <==> old(|mmu.pmm.Used()| + Absent(mmu.mem[d], PageOf(va), n)) <= mmu.pmm.total
      ensures RangeAccess(mmu.mem[..], d, PageOf(va), mapped, flags)
    {
      hide RangeAccess, Lookup, Tables, UsedPages, MappedTo, Covered, Absent, EntryAdded, FramesFrom, AddressAt, Spaces,
           PageOf;
      ghost var m0, used0, p := mmu.mem[..], mmu.pmm.Used(), PageOf(va);
      MappedToStart(m0, mmu.dirs, mmu.kernelDir, d, used0, p);
      RangeStart(m0[d], p);
      AccessStart(m0, d, p, flags);
      UsedBound(used0, mmu.pmm.total);
      assert FramesFrom(pa, 0) == [];
      mapped := 0;
      while mapped < n
        invariant mmu.Valid() && mapped <= n && Covered(m0[d], mmu.mem[d], p, mapped)
        invariant |mmu.pmm.Used()| == |used0| + Absent(m0[d], p, mapped) <= mmu.pmm.total
        invariant MappedTo(m0, mmu.mem[..], mmu.dirs, d, used0, mmu.pmm.Used(), p, FramesFrom(pa, mapped))
        invariant RangeAccess(mmu.mem[..], d, p, mapped, flags)
      {
        PageAtAny(va, mapped);
        FramesStep(pa, mapped);
        ghost var m := mmu.mem[..];
        CoveredAbsent(m0[d], m[d], p, mapped);
        AbsentMono(m0[d], p, mapped + 1, n);
        var ok := MapFrame(d, va + mapped * PAGE_SIZE, AddressAt(pa, mapped), flags, m0, used0, p,
                           FramesFrom(pa, mapped), Present(m[d][(p + mapped) / ENTRIES]));
        UsedBound(mmu.pmm.Used(), mmu.pmm.total);
        if !ok {
          return;
        }
        CoveredStep(m0[d], m, mmu.mem[..], d, p, mapped);
        mapped := mapped + 1;
      }
    }

    /** Maps the next page of a range to a chosen frame. */
    method MapFrame(d: nat, va: word, pa: word, flags: word, ghost m0: seq<Frame>, ghost used0: set<nat>, ghost p: nat,
                    ghost frames: seq<nat>, ghost present: bool)
      returns (ok: bool)
      requires d < mmu.mem.Length && present == Present(mmu.mem[d][PageOf(va) / ENTRIES])
      requires mmu.Valid() && d in mmu.dirs && PageOf(va) == p + |frames|
      requires MappedTo(m0, mmu.mem[..], mmu.dirs, d, used0, mmu.pmm.Used(), p, frames)
      requires RangeAccess(mmu.mem[..], d, p, |frames|, flags)
      modifies mmu.pmm`count, mmu.pmm.bitmap, mmu.mem
      ensures mmu.Valid()
      ensures ok ==> MappedTo(m0, mmu.mem[..], mmu.dirs, d, used0, mmu.pmm.Used(), p, frames + [PageOf(pa)])
      ensures ok ==> RangeAccess(mmu.mem[..], d, p, |frames| + 1, flags)
      ensures !ok ==> mmu.mem[..] == old(mmu.mem[..]) && mmu.pmm.Used() == old(mmu.pmm.Used())
      ensures !ok ==> |mmu.pmm.Used()| == mmu.pmm.total
      ensures ok <==> present || old(|mmu.pmm.Used()|) < mmu.pmm.total
      ensures |mmu.pmm.Used()| == old(|mmu.pmm.Used()|) + if ok && !present then 1 else 0
      ensures ok ==> EntryAdded(old(mmu.mem[..]), mmu.mem[..], d, PageOf(va) / ENTRIES, true)
    {
      hide PageAccess, RangeAccess, OthersUnchanged, DataKept, AccessAdded, Permits, Lookup, Tables, UsedPages,
           MappedTo, PageUpdated, SameSharing, OnlyTablesTaken, MakePte, EntryAdded, Spaces, PageOf;
      ghost var m, used := mmu.mem[..], mmu.pmm.Used();
      ok := mmu.MapPage(d, va, pa, flags);
      if ok {
        AddressIndices(va);
        AccessMapped(mmu.mem[..], d, p + |frames|, flags);
        FrameStep(m0, m, mmu.mem[..], mmu.dirs, d, used0, used, mmu.pmm.Used(), p, frames, MakePte(pa, flags), flags);
      }
    }

    /** Unmaps the first pages of a range; their frames belong to the caller. */
    method Drop(d: nat, va: word, n: nat)
      requires mmu.Valid() && d in mmu.dirs && PageOf(va) + n <= PAGES
      modifies mmu.mem
      ensures mmu.Valid() && Dropped(old(mmu.mem[..]), mmu.mem[..], mmu.dirs, d, PageOf(va), n)
    {
      hide Lookup, Tables, Spaces, UsedPages, Dropped, PageUpdated, SameSharing;
      ghost var m0, p := mmu.mem[..], PageOf(va);
      DroppedStart(m0, mmu.dirs, mmu.kernelDir, d, mmu.pmm.Used(), p);
      for j := 0 to n
        invariant mmu.Valid() && Dropped(m0, mmu.mem[..], mmu.dirs, d, p, j)
      {
        PageAtAny(va, j);
        ghost var m := mmu.mem[..];
        var unmapped := mmu.UnmapPage(d, va + j * PAGE_SIZE);
        DroppedStep(m0, m, mmu.mem[..], mmu.dirs, d, p, j);
      }
    }

    /** Maps a range to chosen frames, or fails with every translation as it was. */
    method MapInDir(d: nat, va: word, pa: word, size: word, flags: word) returns (code: int)
      requires mmu.Valid() && d in mmu.dirs && PageOf(va) + NumPages(size) <= PAGES
      modifies mmu.pmm`count, mmu.pmm.bitmap, mmu.mem
      ensures mmu.Valid() && (code == -EINVAL <==> size == 0) && (code == SUCCESS || code == -EINVAL || code == EMAP)
      ensures size == 0 ==> mmu.mem[..] == old(mmu.mem[..]) && mmu.pmm.Used() == old(mmu.pmm.Used())
      ensures code == SUCCESS ==>
        MappedTo(old(mmu.mem[..]), mmu.mem[..], mmu.dirs, d, old(mmu.pmm.Used()), mmu.pmm.Used(), PageOf(va),
                 FramesFrom(pa, NumPages(size)))
      ensures code == SUCCESS ==> RangeAccess(mmu.mem[..], d, PageOf(va), NumPages(size), flags)
      ensures code == SUCCESS ==> Consecutive(mmu.mem[..], d, va / 4096, pa / 4096, NumPages(size))
      ensures DataKept(old(mmu.mem[..]), mmu.mem[..], mmu.dirs, old(mmu.pmm.Used()))
      ensures code == EMAP && Unmapped(old(mmu.mem[..]), d, PageOf(va), NumPages(size)) ==>
        && SameTranslations(old(mmu.mem[..]), mmu.mem[..], mmu.dirs)
        && OnlyTablesTaken(old(mmu.mem[..]), mmu.mem[..], mmu.dirs, old(mmu.pmm.Used()), mmu.pmm.Used())
      ensures size != 0 ==>
        (code == SUCCESS <==> old(|mmu.pmm.Used()| + Absent(mmu.mem[d], PageOf(va), NumPages(size))) <= mmu.pmm.total)
    {
      hide Lookup, Tables, Spaces, UsedPages, MappedTo, Dropped, SameTranslations, OnlyTablesTaken, NumPages, Absent,
           RangeAccess, DataKept, Consecutive;
      NothingTaken(mmu.mem[..], mmu.dirs, mmu.kernelDir, mmu.pmm.Used());
      if size == 0 {
        return -EINVAL;
      }
      var n := NumPages(size);
      ghost var m0, used0 := mmu.mem[..], mmu.pmm.Used();
      var mapped := MapFrames(d, va, pa, n, flags);
      ghost var m := mmu.mem[..];
      MappedKeeps(m0, m, mmu.dirs, d, used0, mmu.pmm.Used(), PageOf(va), FramesFrom(pa, mapped));
      if mapped == n {
        MappedConsecutive(m0, m, mmu.dirs, d, used0, mmu.pmm.Used(), PageOf(va), pa, n);
        return SUCCESS;
      }
      Drop(d, va, mapped);
      DropKeepsData(m0, m, mmu.mem[..], mmu.dirs, d, used0, mmu.pmm.Used(), PageOf(va), FramesFrom(pa, mapped));
      if Unmapped(m0, d, PageOf(va), n) {
        DropUndoes(m0, m, mmu.mem[..], mmu.dirs, d, used0, mmu.pmm.Used(), PageOf(va), FramesFrom(pa, mapped), n);
      }
      return EMAP;
    }
  }
}
