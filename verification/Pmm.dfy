/** The physical page allocator: a bitmap with one bit per page frame. */
module Pmm {
  import opened Arith

  const PAGE_SIZE: nat := 0x1000
  const BITMAP_BYTES: nat := 131072
  const MAX_PAGES: nat := 0x10_0000
  const RESERVED_PAGES: nat := 512

  /** The mask of bit i of a byte. */
  function BitMask(i: nat): bv8
    requires i < 8
  {
    match i
    case 0 => 0x01
    case 1 => 0x02
    case 2 => 0x04
    case 3 => 0x08
    case 4 => 0x10
    case 5 => 0x20
    case 6 => 0x40
    case 7 => 0x80
  }

  predicate HasBit(b: bv8, i: nat)
    requires i < 8
  {
    b & BitMask(i) != 0
  }

  function WithBit(b: bv8, i: nat): (r: bv8)
    requires i < 8
    ensures forall j :: 0 <= j < 8 ==> (HasBit(r, j) <==> j == i || HasBit(b, j))
  {
    b | BitMask(i)
  }

  function WithoutBit(b: bv8, i: nat): (r: bv8)
    requires i < 8
    ensures forall j :: 0 <= j < 8 ==> (HasBit(r, j) <==> j != i && HasBit(b, j))
  {
    b & !BitMask(i)
  }

  /** Bit i of the bitmap. */
  predicate Bit(bits: seq<bv8>, i: nat)
    requires i / 8 < |bits|
  {
    HasBit(bits[i / 8], i % 8)
  }

  /** Setting or clearing a bit leaves the other bits of the bitmap alone. */
  lemma BitUpdate(bits: seq<bv8>, i: nat, j: nat)
    requires i / 8 < |bits| && j / 8 < |bits|
    ensures Bit(bits[i / 8 := WithBit(bits[i / 8], i % 8)], j) <==> j == i || Bit(bits, j)
    ensures Bit(bits[i / 8 := WithoutBit(bits[i / 8], i % 8)], j) <==> j != i && Bit(bits, j)
  {
    hide HasBit, WithBit, WithoutBit;
    SameBit(i, j);
  }

  lemma SameBit(i: nat, j: nat)
    ensures i == j <==> i / 8 == j / 8 && i % 8 == j % 8
  {
  }

  /** The pages below total whose bit is set. */
  ghost function UsedPages(bits: seq<bv8>, total: nat): set<nat>
    requires total <= 8 * |bits|
  {
    set i | 0 <= i < total && Bit(bits, i)
  }

  /** The lowest free page from page i on, or total. */
  function LowestFreePage(used: set<nat>, i: nat, total: nat): (p: nat)
    requires i <= total
    ensures i <= p <= total && (p < total ==> p !in used)
    ensures forall x :: i <= x < p ==> x in used
    decreases total - i
  {
    if i == total || i !in used then i else LowestFreePage(used, i + 1, total)
  }

  /** Pages 0 to n - 1. */
  function FirstPages(n: nat): (s: set<nat>)
    ensures forall i: nat :: i in s <==> i < n
  {
    if n == 0 then {} else FirstPages(n - 1) + {n - 1}
  }

  class PageAllocator {
    const bitmap: array<bv8>
    var total: nat
    var count: nat

    ghost predicate Valid()
      reads this, bitmap
    {
      && bitmap.Length == BITMAP_BYTES && total <= MAX_PAGES
      && count == |Used()|
    }

    /** The pages that are not free. */
    ghost function Used(): (s: set<nat>)
      reads this, bitmap
      ensures forall i :: i in s ==> i < total
    {
      if total <= 8 * bitmap.Length then UsedPages(bitmap[..], total) else {}
    }

    /** An allocator without pages. */
    constructor ()
      ensures Valid() && total == 0 && fresh(bitmap)
    {
      bitmap := new bv8[BITMAP_BYTES];
      total, count := 0, 0;
      new;
      assert Used() == {};
    }

    method BitmapSet(i: nat)
      requires Valid() && i < total && i !in Used()
      modifies this`count, bitmap
      ensures Valid() && Used() == old(Used()) + {i}
    {
      hide HasBit, WithBit, WithoutBit;
      ghost var bits := bitmap[..];
      bitmap[i / 8] := WithBit(bitmap[i / 8], i % 8);
      count := count + 1;
      assert bitmap[..] == bits[i / 8 := WithBit(bits[i / 8], i % 8)];
      forall j | 0 <= j < total ensures Bit(bitmap[..], j) <==> j == i || Bit(bits, j) {
        BitUpdate(bits, i, j);
      }
      assert Used() == old(Used()) + {i};
    }

    method BitmapClear(i: nat)
      requires Valid() && i in Used()
      modifies this`count, bitmap
      ensures Valid() && Used() == old(Used()) - {i}
    {
      hide HasBit, WithBit, WithoutBit;
      ghost var bits := bitmap[..];
      bitmap[i / 8] := WithoutBit(bitmap[i / 8], i % 8);
      if count > 0 {
        count := count - 1;
      }
      assert bitmap[..] == bits[i / 8 := WithoutBit(bits[i / 8], i % 8)];
      forall j | 0 <= j < total ensures Bit(bitmap[..], j) <==> j != i && Bit(bits, j) {
        BitUpdate(bits, i, j);
      }
      assert Used() == old(Used()) - {i};
    }

    method BitmapIsSet(i: nat) returns (r: bool)
      requires Valid() && i < total
      ensures r == (i in Used())
    {
      r := HasBit(bitmap[i / 8], i % 8);
      assert r == Bit(bitmap[..], i);
    }

    /** Marks all pages as free. */
    method ClearBitmap(bytes: nat)
      requires bitmap.Length == BITMAP_BYTES && total <= MAX_PAGES && bytes == (total + 7) / 8
      modifies this`count, bitmap
      ensures Valid() && Used() == {}
    {
      forall i | 0 <= i < bytes {
        bitmap[i] := 0;
      }
      count := 0;
      forall i | 0 <= i < total ensures !Bit(bitmap[..], i) {
        assert bitmap[..][i / 8] == 0;
      }
      assert Used() == {};
    }

    /** Sizes the bitmap for the given amount of memory and reserves the first 2 MiB.  The rounding up to whole
        pages is 32-bit arithmetic. */
    method Initialize(totalMemBytes: nat)
      requires bitmap.Length == BITMAP_BYTES && totalMemBytes < 0x1_0000_0000
      modifies this, bitmap
      ensures Valid() && total == PagesFor(totalMemBytes)
      ensures Used() == Reserved(total) && (total == 0 <==> totalMemBytes == 0 || totalMemBytes > 0xFFFF_F000)
      ensures forall p: nat :: p in Used() <==> p < total && p < 512
    {
      total := PagesFor(totalMemBytes);
      PagesForExact(totalMemBytes);
      ClearBitmap((total + 7) / 8);
      hide PagesFor, FirstPages;
      ReservePages(if total < RESERVED_PAGES then total else RESERVED_PAGES);
    }

    /** Takes the first n pages out of use. */
    method ReservePages(n: nat)
      requires Valid() && n <= total && Used() == {}
      modifies this`count, bitmap
      ensures Valid() && Used() == FirstPages(n)
    {
      hide UsedPages;
      var i := 0;
      while i < n
        invariant i <= n && Valid() && Used() == FirstPages(i)
      {
        BitmapSet(i);
        i := i + 1;
      }
    }

    /** Takes the lowest free page.  Returns its address, or 0 when there is none. */
    method AllocatePage() returns (addr: nat)
      requires Valid()
      modifies this`count, bitmap
      ensures Valid() && addr < 0x1_0000_0000 && addr % PAGE_SIZE == 0
      ensures var p := LowestFreePage(old(Used()), 0, total);
              if p == total then addr == 0 && Used() == old(Used())
              else addr == p * 0x1000 && Used() == old(Used()) + {p}
    {
      hide UsedPages, LowestFreePage;
      var i := 0;
      while i < total
        invariant i <= total && Valid() && Used() == old(Used())
        invariant forall x :: 0 <= x < i ==> x in Used()
      {
        var taken := BitmapIsSet(i);
        if !taken {
          BitmapSet(i);
          return i * PAGE_SIZE;
        }
        i := i + 1;
      }
      return 0;
    }

    /** Frees the page at addr; addresses that are unaligned, out of range or free are ignored. */
    method FreePage(addr: nat)
      requires Valid()
      modifies this`count, bitmap
      ensures Valid()
      ensures Used() == if addr % PAGE_SIZE == 0 then old(Used()) - {addr / PAGE_SIZE} else old(Used())
    {
      if addr % PAGE_SIZE != 0 || addr / PAGE_SIZE >= total {
        return;
      }
      var taken := BitmapIsSet(addr / PAGE_SIZE);
      if taken {
        BitmapClear(addr / PAGE_SIZE);
      }
    }

    method IsPageFree(addr: nat) returns (r: bool)
      requires Valid()
      ensures r <==> addr % PAGE_SIZE == 0 && addr / PAGE_SIZE < total && addr / PAGE_SIZE !in Used()
    {
      if addr % PAGE_SIZE != 0 || addr / PAGE_SIZE >= total {
        return false;
      }
      var taken := BitmapIsSet(addr / PAGE_SIZE);
      r := !taken;
    }

    /** Free and allocated pages add up to all pages. */
    method FreePages() returns (n: nat)
      requires Valid()
      ensures n + |Used()| == total
    {
      UsedBound(Used(), total);
      n := total - count;
    }
  }

  /** The number of pages for so many bytes; the rounding up is 32-bit arithmetic. */
  function PagesFor(bytes: nat): (n: nat)
    requires bytes < 0x1_0000_0000
    ensures n < MAX_PAGES
  {
    (bytes + PAGE_SIZE - 1) % 0x1_0000_0000 / PAGE_SIZE
  }

  /** More than 2^32 - 4096 bytes wrap around to no pages at all; for every other number there are enough, and not one
      too many. */
  lemma PagesForExact(bytes: nat)
    requires bytes < 0x1_0000_0000
    ensures PagesFor(bytes) * PAGE_SIZE >= bytes <==> bytes <= 0xFFFF_F000
    ensures PagesFor(bytes) == 0 <==> bytes == 0 || bytes > 0xFFFF_F000
    ensures PagesFor(bytes) * PAGE_SIZE < bytes + PAGE_SIZE
  {
    if bytes > 0xFFFF_F000 {
      var r := bytes + PAGE_SIZE - 1 - 0x1_0000_0000;
      DivModUnique(bytes + PAGE_SIZE - 1, 0x1_0000_0000, 1, r);
      DivModUnique(r, PAGE_SIZE, 0, r);
    } else {
      DivModUnique(bytes + PAGE_SIZE - 1, 0x1_0000_0000, 0, bytes + PAGE_SIZE - 1);
      DivMod(bytes + PAGE_SIZE - 1, PAGE_SIZE);
    }
  }

  lemma {:induction false} UsedBound(s: set<nat>, n: nat)
    requires forall i :: i in s ==> i < n
    ensures |s| <= n
  {
    if n > 0 {
      UsedBound(s - {n - 1}, n - 1);
    } else {
      assert s == {};
    }
  }

  // ----- Runs of the allocator -----

  datatype Op = Allocate | Free(page: nat)

  /** The used pages, and the pages handed out and not yet given back. */
  datatype State = State(used: set<nat>, held: set<nat>)

  function Apply(total: nat, s: State, op: Op): State {
    match op
    case Allocate =>
      var p := LowestFreePage(s.used, 0, total);
      if p == total then s else State(s.used + {p}, s.held + {p})
    case Free(page) => State(s.used - {page}, s.held - {page})
  }

  function Reserved(total: nat): set<nat> {
    FirstPages(if total < RESERVED_PAGES then total else RESERVED_PAGES)
  }

  /** As long as no reserved page is freed, the used pages are the reserved ones and the ones handed out, and a page
      is never handed out while it is held: what is handed out is never page 0 nor below 2 MiB. */
  function Run(total: nat, s: State, ops: seq<Op>): (r: State)
    requires s.used == Reserved(total) + s.held && s.held !! Reserved(total) && (forall p :: p in s.held ==> p < total)
    requires forall i :: 0 <= i < |ops| && ops[i].Free? ==> ops[i].page !in Reserved(total)
    ensures r.used == Reserved(total) + r.held && r.held !! Reserved(total)
    ensures forall p :: p in r.held ==> 512 <= p < total
    decreases |ops|
  {
    if ops == [] then s
    else
      assert forall i :: 0 <= i < |ops[1..]| ==> ops[1..][i] == ops[i + 1];
      Run(total, Apply(total, s, ops[0]), ops[1..])
  }

  /** A page handed out by a run is not held by anyone at that moment. */
  lemma AllocationFresh(total: nat, s: State)
    requires s.used == Reserved(total) + s.held
    ensures var s' := Apply(total, s, Allocate);
            s' == s || exists p :: s'.held == s.held + {p} && p !in s.held && RESERVED_PAGES <= p < total
  {
    var p := LowestFreePage(s.used, 0, total);
    if p < total {
      assert p !in s.held && p !in Reserved(total);
    }
  }
}
