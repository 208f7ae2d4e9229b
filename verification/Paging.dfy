/** Two-level page tables.  Physical memory is an array of frames; a page directory and the page tables it points to
    are frames like any other, drawn from the physical page allocator. */
module Paging {
  import opened Common
  import opened Arith
  import opened Pmm

  type word = x: int | 0 <= x < 0x1_0000_0000

  const ENTRIES: nat := 1024
  const PAGES: nat := 0x10_0000
  const PAGE_RW: nat := 2
  const PAGE_USER: nat := 4

  type Frame = s: seq<word> | |s| == 1024 witness seq(1024, _ => 0)

  /** Bit 0 of an entry. */
  predicate Present(w: word) {
    w % 2 == 1
  }

  /** The frame an entry points to: its upper 20 bits. */
  function FrameOf(w: word): (f: nat)
    ensures f < PAGES
  {
    w / PAGE_SIZE
  }

  /** Sets flag bit f, which is PAGE_RW or PAGE_USER. */
  function OrFlag(w: word, f: nat): (r: word)
    requires f == PAGE_RW || f == PAGE_USER
    ensures FrameOf(r) == FrameOf(w) && (Present(r) <==> Present(w)) && r / f % 2 == 1
    ensures f == PAGE_RW ==> r / PAGE_USER == w / PAGE_USER
    ensures f == PAGE_USER ==> r / PAGE_RW % 2 == w / PAGE_RW % 2
  {
    if w / f % 2 == 1 then w
    else
      FlagRoom(w, f);
      w + f
  }

  lemma FlagRoom(w: word, f: nat)
    requires (f == PAGE_RW || f == PAGE_USER) && w / f % 2 == 0
    ensures w + f < 0x1_0000_0000 && (w + f) / PAGE_SIZE == w / PAGE_SIZE && (w + f) % 2 == w % 2
    ensures (w + f) / f % 2 == 1
    ensures f == PAGE_RW ==> (w + f) / PAGE_USER == w / PAGE_USER
    ensures f == PAGE_USER ==> (w + f) / PAGE_RW % 2 == w / PAGE_RW % 2
  {
    if f == PAGE_RW { WritableRoom(w); } else { UserRoom(w); }
  }

  lemma WritableRoom(w: word)
    requires w / 2 % 2 == 0
    ensures w + 2 < 0x1_0000_0000 && (w + 2) / PAGE_SIZE == w / PAGE_SIZE && (w + 2) % 2 == w % 2
    ensures (w + 2) / 2 % 2 == 1
    ensures (w + 2) / 4 == w / 4
  {
    var a := w / 2;
    var c := a / 2;
    assert w == 2 * a + w % 2 && a == 2 * c && c == 1024 * (c / 1024) + c % 1024;
    WritableRoomAt(c / 1024, c % 1024, w % 2);
  }

  lemma WritableRoomAt(q: nat, s: nat, b: nat)
    requires q < PAGES && s < 1024 && b < 2
    ensures var w := 4096 * q + 4 * s + b;
            && w + 2 < 0x1_0000_0000 && (w + 2) / PAGE_SIZE == w / PAGE_SIZE
            && (w + 2) % 2 == w % 2 && (w + 2) / 2 % 2 == 1 && (w + 2) / 4 == w / 4
  {
    var w := 4096 * q + 4 * s + b;
    DivModUnique(w, PAGE_SIZE, q, 4 * s + b);
    DivModUnique(w + 2, PAGE_SIZE, q, 4 * s + b + 2);
    DivModUnique(w, 4, 1024 * q + s, b);
    DivModUnique(w + 2, 4, 1024 * q + s, b + 2);
    DivModUnique(w, 2, 2048 * q + 2 * s, b);
    DivModUnique(w + 2, 2, 2048 * q + 2 * s + 1, b);
    Parity(1024 * q + s);
  }

  lemma UserRoom(w: word)
    requires w / 4 % 2 == 0
    ensures w + 4 < 0x1_0000_0000 && (w + 4) / PAGE_SIZE == w / PAGE_SIZE && (w + 4) % 2 == w % 2
    ensures (w + 4) / 4 % 2 == 1
    ensures (w + 4) / 2 % 2 == w / 2 % 2
  {
    var a := w / 4;
    var c := a / 2;
    assert w == 4 * a + w % 4 && a == 2 * c && c == 512 * (c / 512) + c % 512;
    UserRoomAt(c / 512, c % 512, w % 4);
  }

  lemma Parity(x: nat)
    ensures (2 * x + 1) % 2 == 1
  {
  }

  lemma HalfShift(w: nat)
    ensures (w + 4) % 2 == w % 2 && (w + 4) / 2 % 2 == w / 2 % 2
  {
    DivMod(w, 2);
    DivModUnique(w + 4, 2, w / 2 + 2, w % 2);
    DivMod(w / 2, 2);
    DivModUnique(w / 2 + 2, 2, w / 2 / 2 + 1, w / 2 % 2);
  }

  lemma UserRoomAt(q: nat, s: nat, b: nat)
    requires q < PAGES && s < 512 && b < 4
    ensures var w := 4096 * q + 8 * s + b;
            && w + 4 < 0x1_0000_0000 && (w + 4) / PAGE_SIZE == w / PAGE_SIZE
            && (w + 4) % 2 == w % 2 && (w + 4) / 4 % 2 == 1 && (w + 4) / 2 % 2 == w / 2 % 2
  {
    var w := 4096 * q + 8 * s + b;
    DivModUnique(w, PAGE_SIZE, q, 8 * s + b);
    DivModUnique(w + 4, PAGE_SIZE, q, 8 * s + b + 4);
    DivModUnique(w + 4, 4, 1024 * q + 2 * s + 1, b);
    Parity(512 * q + s);
    HalfShift(w);
  }

  /** The lowest 12 bits of an entry with bit 0 set. */
  function WithPresent(x: nat): (y: nat)
    requires x < PAGE_SIZE
    ensures y < PAGE_SIZE && y % 2 == 1 && y / 2 == x / 2
  {
    if x % 2 == 1 then x else x + 1
  }

  /** The page-table entry for a physical address and flags; the present bit is always set. */
  function MakePte(pa: word, flags: word): (w: word)
    ensures Present(w) && FrameOf(w) == PageOf(pa) && w % 2 == 1 && w / 4096 == pa / 4096
    ensures w % 4096 / 2 == flags % 4096 / 2 && w / 2 % 2 == flags / 2 % 2 && w / 4 % 2 == flags / 4 % 2
  {
    var y := WithPresent(flags % PAGE_SIZE);
    PteRoom(PageOf(pa), y);
    PteFlags(PageOf(pa), y, flags);
    PageOf(pa) * PAGE_SIZE + y
  }

  lemma PteRoom(f: nat, y: nat)
    requires f < PAGES && y < PAGE_SIZE && y % 2 == 1
    ensures var w := f * PAGE_SIZE + y; w < 0x1_0000_0000 && w / PAGE_SIZE == f && w % 2 == 1
  {
    DivModUnique(f * PAGE_SIZE + y, PAGE_SIZE, f, y);
    DivMod(y, 2);
    DivModUnique(f * PAGE_SIZE + y, 2, f * 2048 + y / 2, 1);
  }

  /** Bits 1 and 2 of a word lie in its lowest 12 bits. */
  lemma LowFlags(q: nat, x: nat)
    requires x < PAGE_SIZE
    ensures var w := q * PAGE_SIZE + x; w % PAGE_SIZE == x && w / 2 % 2 == x / 2 % 2 && w / 4 % 2 == x / 4 % 2
  {
    var w := q * PAGE_SIZE + x;
    DivModUnique(w, PAGE_SIZE, q, x);
    LowBit(q * 2048, x, 2);
    LowBit(q * 1024, x, 4);
  }

  lemma LowBit(k: nat, x: nat, b: nat)
    requires (b == 2 || b == 4) && k % 2 == 0
    ensures (k * b + x) / b % 2 == x / b % 2
  {
    DivMod(x, b);
    DivModUnique(k * b + x, b, k + x / b, x % b);
    DivMod(x / b, 2);
    DivModUnique(k + x / b, 2, k / 2 + x / b / 2, x / b % 2);
  }

  /** An entry with the lowest 12 bits of the flags, in which the present bit may have been added, has all the other
      flags as requested. */
  lemma PteFlags(f: nat, y: nat, flags: word)
    requires y < PAGE_SIZE && y / 2 == flags % PAGE_SIZE / 2
    ensures var w := f * PAGE_SIZE + y;
            w % 4096 / 2 == flags % 4096 / 2 && w / 2 % 2 == flags / 2 % 2 && w / 4 % 2 == flags / 4 % 2
  {
    var x := flags % PAGE_SIZE;
    DivMod(flags, PAGE_SIZE);
    LowFlags(f, y);
    LowFlags(flags / PAGE_SIZE, x);
    assert x / 4 == x / 2 / 2 && y / 4 == y / 2 / 2;
  }

  /** The directory entry for a new page table in frame t: present and writable, not for user access. */
  function MakePde(t: nat): (w: word)
    requires t < PAGES
    ensures Present(w) && FrameOf(w) == t && w / 2 % 2 == 1 && w / 4 % 2 == 0
  {
    PdeRoom(t);
    t * PAGE_SIZE + 3
  }

  lemma PdeRoom(t: nat)
    requires t < PAGES
    ensures var w := t * PAGE_SIZE + 3;
            && w < 0x1_0000_0000 && w / PAGE_SIZE == t && w % 2 == 1 && w / 2 % 2 == 1 && w / 4 % 2 == 0
  {
    PteRoom(t, 3);
    LowFlags(t, 3);
    assert 3 / 2 % 2 == 1 && 3 / 4 % 2 == 0;
  }

  // ----- Address spaces -----

  /** The translation of a page in the address space of directory d. */
  ghost function Lookup(m: seq<Frame>, d: nat, page: nat): Option<word>
    requires d < |m| && page < PAGES
  {
    var pde := m[d][page / ENTRIES];
    if !Present(pde) || FrameOf(pde) >= |m| then None
    else
      var pte := m[FrameOf(pde)][page % ENTRIES];
      if Present(pte) then Some(pte) else None
  }

  /** The frames that hold the page tables of the given directories. */
  ghost function Tables(m: seq<Frame>, dirs: set<nat>): set<nat>
    requires forall d :: d in dirs ==> d < |m|
  {
    set d, i | d in dirs && 0 <= i < ENTRIES && Present(m[d][i]) :: FrameOf(m[d][i])
  }

  /** Entries i of directories d and d' point to the same table. */
  ghost predicate Shares(m: seq<Frame>, d: nat, d': nat, i: nat)
    requires d < |m| && d' < |m| && i < ENTRIES
  {
    Present(m[d][i]) && Present(m[d'][i]) && FrameOf(m[d][i]) == FrameOf(m[d'][i])
  }

  /** What keeps address spaces apart: directories and tables occupy allocated frames, no frame is both, a table
      serves one directory index only, and it is shared only if the kernel directory has it too. */
  ghost predicate Spaces(m: seq<Frame>, dirs: set<nat>, kernel: nat, used: set<nat>) {
    && kernel in dirs
    && (forall d :: d in dirs ==> d < |m| && d in used)
    && (forall d, i :: d in dirs && 0 <= i < ENTRIES && Present(m[d][i]) ==>
          FrameOf(m[d][i]) < |m| && FrameOf(m[d][i]) in used && FrameOf(m[d][i]) !in dirs)
    && (forall d, i, d', i' | d in dirs && d' in dirs && 0 <= i < ENTRIES && 0 <= i' < ENTRIES &&
                              Present(m[d][i]) && Present(m[d'][i']) && FrameOf(m[d][i]) == FrameOf(m[d'][i']) ::
          i == i' && (d == d' || Shares(m, kernel, d, i)))
  }

  /** A mapping under a directory entry that the kernel directory does not have is private. */
  lemma PrivateTable(m: seq<Frame>, dirs: set<nat>, kernel: nat, used: set<nat>, d: nat, d': nat, i: nat)
    requires Spaces(m, dirs, kernel, used) && d in dirs && d' in dirs && d != d' && i < ENTRIES
    requires !Present(m[kernel][i])
    ensures !Shares(m, d, d', i)
  {
  }

  lemma PageIndex(page: nat)
    requires page < PAGES
    ensures page / ENTRIES < ENTRIES && page % ENTRIES < ENTRIES
  {
  }

  lemma SamePage(page: nat, page': nat)
    ensures page == page' <==> page / ENTRIES == page' / ENTRIES && page % ENTRIES == page' % ENTRIES
  {
    DivMod(page, ENTRIES);
    DivMod(page', ENTRIES);
  }

  // ----- Effect of the four kinds of memory writes -----

  /** A page-table entry is stored: exactly one page changes, in the directories that share the table. */
  lemma StorePte(m: seq<Frame>, dirs: set<nat>, kernel: nat, used: set<nat>, d: nat, page: nat, w: word)
    requires Spaces(m, dirs, kernel, used) && d in dirs && page < PAGES && Present(m[d][page / ENTRIES])
    ensures var t := FrameOf(m[d][page / ENTRIES]);
            && t < |m|
            && var m' := m[t := m[t][page % ENTRIES := w]];
            && Spaces(m', dirs, kernel, used) && Tables(m', dirs) == Tables(m, dirs)
            && (forall d' :: d' in dirs ==> m'[d'] == m[d'])
            && (forall d', q :: d' in dirs && 0 <= q < PAGES ==>
                  Lookup(m', d', q) == if q == page && Shares(m, d, d', page / ENTRIES)
                                       then (if Present(w) then Some(w) else None)
                                       else Lookup(m, d', q))
  {
    var t := FrameOf(m[d][page / ENTRIES]);
    var m' := m[t := m[t][page % ENTRIES := w]];
    assert forall d' :: d' in dirs ==> m'[d'] == m[d'];
    forall d', q | d' in dirs && 0 <= q < PAGES
      ensures Lookup(m', d', q) == if q == page && Shares(m, d, d', page / ENTRIES)
                                   then (if Present(w) then Some(w) else None)
                                   else Lookup(m, d', q)
    {
      SamePage(page, q);
    }
  }

  /** A directory entry gets more flags: no translation changes. */
  lemma StorePdeFlags(m: seq<Frame>, dirs: set<nat>, kernel: nat, used: set<nat>, d: nat, i: nat, w: word)
    requires Spaces(m, dirs, kernel, used) && d in dirs && i < ENTRIES && Present(m[d][i])
    requires Present(w) && FrameOf(w) == FrameOf(m[d][i])
    ensures var m' := m[d := m[d][i := w]];
            && Spaces(m', dirs, kernel, used) && Tables(m', dirs) == Tables(m, dirs)
            && (forall d', q :: d' in dirs && 0 <= q < PAGES ==> Lookup(m', d', q) == Lookup(m, d', q))
            && (forall d', j :: d' in dirs && 0 <= j < ENTRIES ==>
                  FrameOf(m'[d'][j]) == FrameOf(m[d'][j]) && (Present(m'[d'][j]) <==> Present(m[d'][j])))
  {
    var m' := m[d := m[d][i := w]];
    forall d', j | d' in dirs && 0 <= j < ENTRIES
      ensures FrameOf(m'[d'][j]) == FrameOf(m[d'][j]) && (Present(m'[d'][j]) <==> Present(m[d'][j]))
    {
    }
  }

  function ZeroFrame(): (f: Frame)
    ensures forall i :: 0 <= i < ENTRIES ==> f[i] == 0
  {
    seq(ENTRIES, _ => 0)
  }

  lemma TablesFrame(m: seq<Frame>, m': seq<Frame>, dirs: set<nat>)
    requires forall d :: d in dirs ==> d < |m| && d < |m'| && m'[d] == m[d]
    ensures Tables(m', dirs) == Tables(m, dirs)
  {
    assert forall d, i :: d in dirs && 0 <= i < ENTRIES ==> m'[d][i] == m[d][i];
  }

  lemma TablesInstalled(m: seq<Frame>, dirs: set<nat>, d: nat, i: nat, w: word)
    requires (forall d :: d in dirs ==> d < |m|) && d in dirs && i < ENTRIES && !Present(m[d][i]) && Present(w)
    ensures Tables(m[d := m[d][i := w]], dirs) == Tables(m, dirs) + {FrameOf(w)}
  {
    var m' := m[d := m[d][i := w]];
    assert FrameOf(w) in Tables(m', dirs) by { assert m'[d][i] == w; }
    forall f | f in Tables(m, dirs) ensures f in Tables(m', dirs) {
      var e, j :| e in dirs && 0 <= j < ENTRIES && Present(m[e][j]) && f == FrameOf(m[e][j]);
      assert m'[e][j] == m[e][j];
    }
    forall f | f in Tables(m', dirs) ensures f in Tables(m, dirs) + {FrameOf(w)} {
      var e, j :| e in dirs && 0 <= j < ENTRIES && Present(m'[e][j]) && f == FrameOf(m'[e][j]);
      assert m'[e][j] == if e == d && j == i then w else m[e][j];
    }
  }

  lemma TablesOfCopy(m: seq<Frame>, dirs: set<nat>, kernel: nat, t: nat)
    requires (forall d :: d in dirs ==> d < |m|) && kernel in dirs && t < |m| && t !in dirs
    ensures Tables(m[t := m[kernel]], dirs + {t}) == Tables(m, dirs)
  {
    var m' := m[t := m[kernel]];
    forall f | f in Tables(m', dirs + {t}) ensures f in Tables(m, dirs) {
      var e, j :| e in dirs + {t} && 0 <= j < ENTRIES && Present(m'[e][j]) && f == FrameOf(m'[e][j]);
      assert m'[e][j] == m[if e == t then kernel else e][j];
    }
    forall f | f in Tables(m, dirs) ensures f in Tables(m', dirs + {t}) {
      var e, j :| e in dirs && 0 <= j < ENTRIES && Present(m[e][j]) && f == FrameOf(m[e][j]);
      assert e in dirs + {t} && m'[e][j] == m[e][j];
    }
  }

  /** A frame that is neither directory nor table is overwritten: no translation changes. */
  lemma StoreData(m: seq<Frame>, dirs: set<nat>, kernel: nat, used: set<nat>, f: nat, x: Frame)
    requires Spaces(m, dirs, kernel, used) && f < |m| && f !in dirs && f !in Tables(m, dirs)
    ensures Spaces(m[f := x], dirs, kernel, used) && Tables(m[f := x], dirs) == Tables(m, dirs)
    ensures forall d', q :: d' in dirs && 0 <= q < PAGES ==> Lookup(m[f := x], d', q) == Lookup(m, d', q)
  {
    TablesFrame(m, m[f := x], dirs);
    assert forall d, i :: d in dirs && 0 <= i < ENTRIES && Present(m[d][i]) ==> FrameOf(m[d][i]) in Tables(m, dirs);
  }

  /** A directory entry starts to point to a fresh, zeroed frame: no translation changes. */
  lemma LinkTable(m: seq<Frame>, dirs: set<nat>, kernel: nat, used: set<nat>, d: nat, i: nat, t: nat)
    requires Spaces(m, dirs, kernel, used) && d in dirs && i < ENTRIES && !Present(m[d][i])
    requires t < |m| && t < PAGES && t !in used && m[t] == ZeroFrame()
    ensures var m' := m[d := m[d][i := MakePde(t)]];
            && Spaces(m', dirs, kernel, used + {t}) && Tables(m', dirs) == Tables(m, dirs) + {t}
            && (forall d', q :: d' in dirs && 0 <= q < PAGES ==> Lookup(m', d', q) == Lookup(m, d', q))
  {
    TablesInstalled(m, dirs, d, i, MakePde(t));
    LinkKeepsSpaces(m, dirs, kernel, used, d, i, t);
    hide Tables, MakePde;
    var m' := m[d := m[d][i := MakePde(t)]];
    forall e, q | e in dirs && 0 <= q < PAGES ensures Lookup(m', e, q) == Lookup(m, e, q) {
      PageIndex(q);
      assert m'[e][q / ENTRIES] == if e == d && q / ENTRIES == i then MakePde(t) else m[e][q / ENTRIES];
      if Present(m[e][q / ENTRIES]) {
        assert FrameOf(m[e][q / ENTRIES]) !in dirs;
      }
    }
    hide Spaces, Lookup;
  }

  lemma LinkKeepsSpaces(m: seq<Frame>, dirs: set<nat>, kernel: nat, used: set<nat>, d: nat, i: nat, t: nat)
    requires Spaces(m, dirs, kernel, used) && d in dirs && i < ENTRIES && !Present(m[d][i])
    requires t < |m| && t < PAGES && t !in used
    ensures Spaces(m[d := m[d][i := MakePde(t)]], dirs, kernel, used + {t})
  {
    hide MakePde;
    var m' := m[d := m[d][i := MakePde(t)]];
    assert forall e, j :: e in dirs && 0 <= j < ENTRIES ==>
      m'[e][j] == if e == d && j == i then MakePde(t) else m[e][j];
  }

  /** Memory after frame t has been zeroed and entry i of directory d points to it. */
  ghost function WithTable(m: seq<Frame>, d: nat, i: nat, t: nat): seq<Frame>
    requires d < |m| && t < |m| && i < ENTRIES && t < PAGES
  {
    m[t := ZeroFrame()][d := m[d][i := MakePde(t)]]
  }

  /** A fresh frame is zeroed and becomes a page table: no translation changes. */
  lemma InstallTable(m: seq<Frame>, dirs: set<nat>, kernel: nat, used: set<nat>, d: nat, i: nat, t: nat)
    requires Spaces(m, dirs, kernel, used) && d in dirs && i < ENTRIES && !Present(m[d][i])
    requires t < |m| && t < PAGES && t !in used
    ensures var m' := m[t := ZeroFrame()][d := m[d][i := MakePde(t)]];
            && Spaces(m', dirs, kernel, used + {t}) && Tables(m', dirs) == Tables(m, dirs) + {t}
            && (forall d', q :: d' in dirs && 0 <= q < PAGES ==> Lookup(m', d', q) == Lookup(m, d', q))
  {
    assert t !in Tables(m, dirs);
    var m1 := m[t := ZeroFrame()];
    StoreData(m, dirs, kernel, used, t, ZeroFrame());
    assert m1[d] == m[d];
    hide Spaces, Lookup, Tables;
    LinkTable(m1, dirs, kernel, used, d, i, t);
  }

  /** A fresh frame becomes a copy of the kernel directory: it translates what the kernel directory translates. */
  lemma InstallDirectory(m: seq<Frame>, dirs: set<nat>, kernel: nat, used: set<nat>, t: nat)
    requires Spaces(m, dirs, kernel, used) && t < |m| && t !in used
    ensures var m' := m[t := m[kernel]];
            && Spaces(m', dirs + {t}, kernel, used + {t}) && Tables(m', dirs + {t}) == Tables(m, dirs)
            && (forall d', q :: d' in dirs && 0 <= q < PAGES ==> Lookup(m', d', q) == Lookup(m, d', q))
            && (forall q :: 0 <= q < PAGES ==> Lookup(m', t, q) == Lookup(m, kernel, q))
  {
    TablesOfCopy(m, dirs, kernel, t);
    hide Tables;
  }

  /** All directories translate all pages alike in m and m'. */
  ghost predicate SameTranslations(m: seq<Frame>, m': seq<Frame>, dirs: set<nat>) {
    && |m'| == |m| && (forall d :: d in dirs ==> d < |m|)
    && forall d, q :: d in dirs && 0 <= q < PAGES ==> Lookup(m', d, q) == Lookup(m, d, q)
  }

  /** Between m and m', the translation of one page of directory d has become v; other directories see it exactly
      if they share the page table, and nothing else has changed. */
  ghost predicate PageUpdated(m: seq<Frame>, m': seq<Frame>, dirs: set<nat>, d: nat, page: nat, v: Option<word>)
    requires page < PAGES
  {
    && |m'| == |m| && d in dirs && (forall e :: e in dirs ==> e < |m|)
    && forall e, q :: e in dirs && 0 <= q < PAGES ==>
         Lookup(m', e, q) == if q == page && (e == d || Shares(m', d, e, page / ENTRIES)) then v else Lookup(m, e, q)
  }

  /** Directory d shares its page tables with the same directories in m and m'. */
  ghost predicate SameSharing(m: seq<Frame>, m': seq<Frame>, dirs: set<nat>, d: nat) {
    && |m'| == |m| && d in dirs && (forall e :: e in dirs ==> e < |m|)
    && forall e, i :: e in dirs && e != d && 0 <= i < ENTRIES ==> (Shares(m', d, e, i) <==> Shares(m, d, e, i))
  }

  /** Directory d has the same entries present in m' as in m, and also entry i if it was added. */
  ghost predicate EntryAdded(m: seq<Frame>, m': seq<Frame>, d: nat, i: nat, added: bool) {
    && d < |m| == |m'|
    && forall j :: 0 <= j < ENTRIES ==> (Present(m'[d][j]) <==> Present(m[d][j]) || (added && j == i))
  }

  /** Access bits 1 (writable) and 2 (user) of directory d between m and m': a new entry i is writable and not for
      users, and entry i gets the bits that the flags ask for; no entry loses a bit and no other entry gains one. */
  ghost predicate AccessAdded(m: seq<Frame>, m': seq<Frame>, d: nat, i: nat, flags: word) {
    && d < |m| == |m'| && i < ENTRIES
    && (m'[d][i] / 2 % 2 == 1 <==> m[d][i] % 2 == 0 || m[d][i] / 2 % 2 == 1 || flags / 2 % 2 == 1)
    && (m'[d][i] / 4 % 2 == 1 <==> (m[d][i] % 2 == 1 && m[d][i] / 4 % 2 == 1) || flags / 4 % 2 == 1)
    && forall j :: 0 <= j < ENTRIES && j != i ==> m'[d][j] == m[d][j]
  }

  /** The processor permits what bit 1 (writing) or bit 2 (user access) stands for in a page if the directory entry and
      the page-table entry both have the bit. */
  ghost predicate Permits(m: seq<Frame>, d: nat, page: nat, bit: nat) {
    && d < |m| && page < PAGES && 0 < bit && Lookup(m, d, page).Some?
    && m[d][page / ENTRIES] / bit % 2 == 1 && Lookup(m, d, page).value / bit % 2 == 1
  }

  /** Between m and m' only directories and page tables have been written to. */
  ghost predicate OnlyTablesWritten(m: seq<Frame>, m': seq<Frame>, dirs: set<nat>) {
    && |m'| == |m| && (forall d :: d in dirs ==> d < |m|)
    && forall f :: 0 <= f < |m| && f !in dirs && f !in Tables(m, dirs) ==> m'[f] == m[f]
  }

  /** Every frame in use that is neither a directory nor a page table has the same contents in m and m'. */
  ghost predicate DataKept(m: seq<Frame>, m': seq<Frame>, dirs: set<nat>, used: set<nat>) {
    && |m'| == |m| && (forall d :: d in dirs ==> d < |m|)
    && forall f :: 0 <= f < |m| && f in used && f !in dirs && f !in Tables(m, dirs) ==> m'[f] == m[f]
  }

  /** Only directory d may translate differently in m and m'. */
  ghost predicate OthersUnchanged(m: seq<Frame>, m': seq<Frame>, dirs: set<nat>, d: nat) {
    && |m'| == |m| && (forall e :: e in dirs ==> e < |m|)
    && forall e, q :: e in dirs && e != d && 0 <= q < PAGES ==> Lookup(m', e, q) == Lookup(m, e, q)
  }

  /** The kernel directory has no table for the page. */
  ghost predicate OutsideKernel(m: seq<Frame>, kernel: nat, page: nat) {
    page < PAGES && kernel < |m| && !Present(m[kernel][page / ENTRIES])
  }

  /** Updating a page under a directory entry that the kernel directory lacks is invisible in every other directory. */
  lemma PrivateUpdate(m: seq<Frame>, m': seq<Frame>, dirs: set<nat>, kernel: nat, used: set<nat>, d: nat, page: nat,
                      v: Option<word>)
    requires Spaces(m, dirs, kernel, used) && OutsideKernel(m, kernel, page)
    requires PageUpdated(m, m', dirs, d, page, v) && SameSharing(m, m', dirs, d)
    ensures OthersUnchanged(m, m', dirs, d)
  {
    PageIndex(page);
    forall e | e in dirs && e != d ensures !Shares(m', d, e, page / ENTRIES) {
      PrivateTable(m, dirs, kernel, used, d, e, page / ENTRIES);
    }
    hide Lookup, Shares, Spaces, SameSharing;
  }

  /** The frames taken between two states are the new page tables, which were free before. */
  ghost predicate OnlyTablesTaken(m: seq<Frame>, m': seq<Frame>, dirs: set<nat>, used: set<nat>, used': set<nat>) {
    && |m'| == |m| && (forall d :: d in dirs ==> d < |m|)
    && Tables(m, dirs) <= Tables(m', dirs)
    && used' == used + (Tables(m', dirs) - Tables(m, dirs))
    && (Tables(m', dirs) - Tables(m, dirs)) !! used
  }

  predicate HasFlag(flags: word, f: nat)
    requires f == PAGE_RW || f == PAGE_USER
  {
    flags / f % 2 == 1
  }

  function PageOf(va: word): (p: nat)
    ensures p < PAGES
  {
    va / PAGE_SIZE
  }

  /** The directory and table indices of an address, as the code extracts them, are those of its page. */
  lemma AddressIndices(va: word)
    ensures va / 0x40_0000 == PageOf(va) / ENTRIES && va / PAGE_SIZE % ENTRIES == PageOf(va) % ENTRIES
  {
    DivTwice(va, PAGE_SIZE, ENTRIES);
  }

  class Mmu {
    const pmm: PageAllocator
    const mem: array<Frame>
    var kernelDir: nat
    var currentDir: nat
    ghost var dirs: set<nat>

    ghost predicate Valid()
      reads this, pmm, pmm.bitmap, mem
    {
      && mem as object != pmm.bitmap
      && pmm.Valid() && mem.Length == pmm.total && 0 in pmm.Used()
      && Spaces(mem[..], dirs, kernelDir, pmm.Used())
    }

    /** Starts with an empty kernel directory in a fresh frame. */
    constructor (allocator: PageAllocator, memory: array<Frame>)
      requires allocator.Valid() && memory.Length == allocator.total && 0 in allocator.Used()
      requires memory as object != allocator.bitmap
      requires |allocator.Used()| < allocator.total
      modifies allocator`count, allocator.bitmap, memory
      ensures Valid() && pmm == allocator && mem == memory && dirs == {kernelDir} && currentDir == kernelDir
      ensures kernelDir !in old(allocator.Used()) && pmm.Used() == old(allocator.Used()) + {kernelDir}
      ensures forall q :: 0 <= q < PAGES ==> Lookup(mem[..], kernelDir, q) == None
    {
      hide UsedPages;
      var addr := allocator.AllocatePage();
      ghost var p := LowestFreePage(old(allocator.Used()), 0, allocator.total);
      if p == allocator.total {
        AllUsed(old(allocator.Used()), allocator.total);
        assert false;
      }
      var k := addr / PAGE_SIZE;
      memory[k] := ZeroFrame();
      pmm, mem, kernelDir, currentDir, dirs := allocator, memory, k, k, {k};
      new;
      assert mem[..][k] == ZeroFrame();
    }

    /** Takes a frame from the page allocator; 0 when there is none. */
    method AllocFrame() returns (t: nat)
      requires Valid()
      modifies pmm`count, pmm.bitmap
      ensures pmm.Valid() && mem[..] == old(mem[..])
      ensures if t == 0 then pmm.Used() == old(pmm.Used()) && |pmm.Used()| == pmm.total
              else t < pmm.total && t !in old(pmm.Used()) && pmm.Used() == old(pmm.Used()) + {t}
      ensures t != 0 <==> old(|pmm.Used()|) < pmm.total
    {
      hide UsedPages;
      var addr := pmm.AllocatePage();
      ghost var p := LowestFreePage(old(pmm.Used()), 0, pmm.total);
      if addr == 0 {
        AllUsed(pmm.Used(), pmm.total);
      } else {
        UsedBound(pmm.Used(), pmm.total);
      }
      t := addr / PAGE_SIZE;
    }

    /** Makes sure that entry i of directory d points to a page table. */
    method EnsureTable(d: nat, i: nat) returns (ok: bool)
      requires Valid() && d in dirs && i < ENTRIES
      modifies pmm`count, pmm.bitmap, mem
      ensures Valid() && SameTranslations(old(mem[..]), mem[..], dirs) && SameSharing(old(mem[..]), mem[..], dirs, d)
      ensures OnlyTablesTaken(old(mem[..]), mem[..], dirs, old(pmm.Used()), pmm.Used())
      ensures ok ==> Present(mem[d][i])
      ensures ok <==> old(Present(mem[d][i]) || |pmm.Used()| < pmm.total)
      ensures |pmm.Used()| == old(|pmm.Used()|) + if ok && old(!Present(mem[d][i])) then 1 else 0
      ensures EntryAdded(old(mem[..]), mem[..], d, i, ok)
      ensures !ok ==> mem[..] == old(mem[..]) && pmm.Used() == old(pmm.Used()) && |pmm.Used()| == pmm.total
      ensures DataKept(old(mem[..]), mem[..], dirs, old(pmm.Used()))
      ensures ok ==> mem[d] == old(mem[d])[i := mem[d][i]]
      ensures old(Present(mem[d][i])) ==> mem[d][i] == old(mem[d][i])
      ensures ok && old(!Present(mem[d][i])) ==> mem[d][i] / 2 % 2 == 1 && mem[d][i] / 4 % 2 == 0
    {
      hide Lookup, Tables, SameTranslations, SameSharing, OnlyTablesTaken, Spaces, UsedPages, DataKept;
      NothingTaken(mem[..], dirs, kernelDir, pmm.Used());
      if Present(mem[d][i]) {
        ok := true;
      } else {
        ok := AddTable(d, i);
      }
    }

    /** Gives entry i of directory d a page table of its own. */
    method AddTable(d: nat, i: nat) returns (ok: bool)
      requires Valid() && d in dirs && i < ENTRIES && !Present(mem[d][i])
      modifies pmm`count, pmm.bitmap, mem
      ensures Valid() && SameTranslations(old(mem[..]), mem[..], dirs) && SameSharing(old(mem[..]), mem[..], dirs, d)
      ensures OnlyTablesTaken(old(mem[..]), mem[..], dirs, old(pmm.Used()), pmm.Used())
      ensures ok ==> Present(mem[d][i])
      ensures ok <==> old(|pmm.Used()|) < pmm.total
      ensures |pmm.Used()| == old(|pmm.Used()|) + if ok && old(!Present(mem[d][i])) then 1 else 0
      ensures EntryAdded(old(mem[..]), mem[..], d, i, ok)
      ensures !ok ==> mem[..] == old(mem[..]) && pmm.Used() == old(pmm.Used()) && |pmm.Used()| == pmm.total
      ensures DataKept(old(mem[..]), mem[..], dirs, old(pmm.Used()))
      ensures ok ==> mem[d] == old(mem[d])[i := mem[d][i]] && mem[d][i] / 2 % 2 == 1 && mem[d][i] / 4 % 2 == 0
    {
      hide Lookup, Tables, SameTranslations, SameSharing, OnlyTablesTaken, Spaces, WithTable, UsedPages, ZeroFrame,
           Present, DataKept;
      ghost var m, used := mem[..], pmm.Used();
      NothingTaken(m, dirs, kernelDir, used);
      var t := AllocFrame();
      if t == 0 {
        return false;
      }
      TableTaken(m, dirs, kernelDir, used, d, i, t);
      WriteTable(d, i, t, m);
      return true;
    }

    /** Zeroes frame t and points entry i of directory d to it. */
    method WriteTable(d: nat, i: nat, t: nat, ghost m: seq<Frame>)
      requires d < mem.Length && t < mem.Length && d != t && i < ENTRIES && t < PAGES && m == mem[..]
      modifies mem
      ensures mem[..] == WithTable(m, d, i, t) && EntryAdded(m, mem[..], d, i, true)
      ensures Present(mem[d][i])
      ensures mem[d] == m[d][i := mem[d][i]] && mem[d][i] / 2 % 2 == 1 && mem[d][i] / 4 % 2 == 0
    {
      mem[t] := ZeroFrame();
      mem[d] := mem[d][i := MakePde(t)];
    }

    /** Copies all entries of directory src to frame dst. */
    method CopyDirectory(dst: nat, src: nat)
      requires dst < mem.Length && src < mem.Length && dst != src
      modifies mem
      ensures mem[..] == old(mem[..])[dst := old(mem[src])]
    {
      ghost var m := mem[..];
      var i := 0;
      while i < ENTRIES
        invariant i <= ENTRIES && mem[..] == m[dst := mem[dst]]
        invariant forall j :: 0 <= j < i ==> mem[dst][j] == m[src][j]
      {
        mem[dst] := mem[dst][i := mem[src][i]];
        i := i + 1;
      }
      assert mem[dst] == m[src];
    }

    /** Widens the access that entry i of directory d allows. */
    method AddPdeFlags(d: nat, i: nat, flags: word)
      requires Valid() && d in dirs && i < ENTRIES && Present(mem[d][i])
      modifies mem
      ensures Valid() && SameTranslations(old(mem[..]), mem[..], dirs)
      ensures Tables(mem[..], dirs) == Tables(old(mem[..]), dirs)
      ensures SameSharing(old(mem[..]), mem[..], dirs, d) && EntryAdded(old(mem[..]), mem[..], d, i, false)
      ensures Present(mem[d][i])
      ensures mem[..] == old(mem[..])[d := old(mem[d])[i := mem[d][i]]]
      ensures mem[d][i] / 2 % 2 == 1 <==> old(mem[d][i]) / 2 % 2 == 1 || flags / 2 % 2 == 1
      ensures mem[d][i] / 4 % 2 == 1 <==> old(mem[d][i]) / 4 % 2 == 1 || flags / 4 % 2 == 1
    {
      hide Lookup, Tables, UsedPages;
      ghost var m := mem[..];
      var w := mem[d][i];
      if HasFlag(flags, PAGE_USER) {
        w := OrFlag(w, PAGE_USER);
      }
      if HasFlag(flags, PAGE_RW) {
        w := OrFlag(w, PAGE_RW);
      }
      hide OrFlag;
      StorePdeFlags(m, dirs, kernelDir, pmm.Used(), d, i, w);
      mem[d] := mem[d][i := w];
      assert mem[..] == m[d := m[d][i := w]];
      hide Spaces;
    }

    /** Stores an entry of the page table that serves the given page of directory d. */
    method StoreEntry(d: nat, page: nat, w: word)
      requires Valid() && d in dirs && page < PAGES && Present(mem[d][page / ENTRIES])
      modifies mem
      ensures Valid() && Tables(mem[..], dirs) == Tables(old(mem[..]), dirs)
      ensures SameSharing(old(mem[..]), mem[..], dirs, d)
      ensures EntryAdded(old(mem[..]), mem[..], d, 0, false)
      ensures PageUpdated(old(mem[..]), mem[..], dirs, d, page, if Present(w) then Some(w) else None)
      ensures mem[d] == old(mem[d])
      ensures mem[..] == old(mem[..])[FrameOf(mem[d][page / ENTRIES]) := mem[FrameOf(mem[d][page / ENTRIES])]]
    {
      hide Lookup, Tables, UsedPages;
      ghost var m := mem[..];
      StorePte(m, dirs, kernelDir, pmm.Used(), d, page, w);
      var t := FrameOf(mem[d][page / ENTRIES]);
      mem[t] := mem[t][page % ENTRIES := w];
      assert mem[..] == m[t := m[t][page % ENTRIES := w]];
      hide Spaces;
    }

    /** Maps the page of va to the frame of pa, creating the page table if it is missing. */
    method MapPage(d: nat, va: word, pa: word, flags: word) returns (ok: bool)
      requires Valid() && d in dirs
      modifies pmm`count, pmm.bitmap, mem
      ensures Valid() && OnlyTablesTaken(old(mem[..]), mem[..], dirs, old(pmm.Used()), pmm.Used())
      ensures SameSharing(old(mem[..]), mem[..], dirs, d)
      ensures ok ==> PageUpdated(old(mem[..]), mem[..], dirs, d, PageOf(va), Some(MakePte(pa, flags)))
      ensures OutsideKernel(old(mem[..]), kernelDir, PageOf(va)) ==> OthersUnchanged(old(mem[..]), mem[..], dirs, d)
      ensures !ok ==> mem[..] == old(mem[..]) && pmm.Used() == old(pmm.Used()) && |pmm.Used()| == pmm.total
      ensures ok <==> old(Present(mem[d][PageOf(va) / ENTRIES]) || |pmm.Used()| < pmm.total)
      ensures |pmm.Used()| == old(|pmm.Used()|) + if ok && old(!Present(mem[d][PageOf(va) / ENTRIES])) then 1 else 0
      ensures EntryAdded(old(mem[..]), mem[..], d, PageOf(va) / ENTRIES, ok)
      ensures DataKept(old(mem[..]), mem[..], dirs, old(pmm.Used()))
      ensures ok ==> AccessAdded(old(mem[..]), mem[..], d, va / 0x40_0000, flags)
      ensures ok ==> var e := Lookup(mem[..], d, va / 4096);
                     && e.Some? && e.value / 4096 == pa / 4096 && e.value % 2 == 1
                     && e.value % 4096 / 2 == flags % 4096 / 2
                     && e.value / 2 % 2 == flags / 2 % 2 && e.value / 4 % 2 == flags / 4 % 2
      ensures ok ==> (Permits(mem[..], d, va / 4096, PAGE_RW) <==> flags / 2 % 2 == 1)
      ensures ok ==> (Permits(mem[..], d, va / 4096, PAGE_USER) <==> flags / 4 % 2 == 1)
    {
      hide Lookup, Tables, Spaces, Present, MakePte, UsedPages;
      AddressIndices(va);
      PageIndex(PageOf(va));
      var i := va / 0x40_0000;
      ghost var m := mem[..];
      ghost var used := pmm.Used();
      NothingTaken(m, dirs, kernelDir, used);
      ok := EnsureTable(d, i);
      if !ok {
        return;
      }
      ghost var mE := mem[..];
      AddPdeFlags(d, i, flags);
      ghost var m1 := mem[..];
      DataKeptStep(m, mE, m1, dirs, used, pmm.Used(), d);
      assert Present(MakePte(pa, flags));
      StoreEntry(d, PageOf(va), MakePte(pa, flags));
      TableOf(mem[..], dirs, kernelDir, pmm.Used(), d, i);
      DataKeptStep(m, m1, mem[..], dirs, used, pmm.Used(), FrameOf(mem[d][i]));
      AccessSteps(m, mE, mem[..], d, i, flags);
      UpdateAfterSame(m, m1, mem[..], dirs, d, PageOf(va), Some(MakePte(pa, flags)));
      PermitsExact(m, mem[..], d, PageOf(va), flags);
      hide PageUpdated, SameTranslations;
      if OutsideKernel(m, kernelDir, PageOf(va)) {
        PrivateUpdate(m, mem[..], dirs, kernelDir, used, d, PageOf(va), Some(MakePte(pa, flags)));
      }
    }

    /** Removes the translation of the page of va; fails when there is no page table for it. */
    method UnmapPage(d: nat, va: word) returns (ok: bool)
      requires Valid() && d in dirs
      modifies mem
      ensures Valid() && Tables(mem[..], dirs) == Tables(old(mem[..]), dirs)
      ensures ok == old(Present(mem[d][PageOf(va) / ENTRIES])) && SameSharing(old(mem[..]), mem[..], dirs, d)
      ensures PageUpdated(old(mem[..]), mem[..], dirs, d, PageOf(va), None)
      ensures OnlyTablesWritten(old(mem[..]), mem[..], dirs) && mem[d] == old(mem[d])
      ensures OutsideKernel(old(mem[..]), kernelDir, PageOf(va)) ==> OthersUnchanged(old(mem[..]), mem[..], dirs, d)
      ensures !ok ==> mem[..] == old(mem[..])
    {
      AddressIndices(va);
      PageIndex(PageOf(va));
      if !Present(mem[d][va / 0x40_0000]) {
        UnmappedUpdate(mem[..], dirs, kernelDir, pmm.Used(), d, PageOf(va));
        return false;
      }
      hide Lookup, Tables, Spaces, UsedPages;
      ghost var m := mem[..];
      TableOf(m, dirs, kernelDir, pmm.Used(), d, PageOf(va) / ENTRIES);
      StoreEntry(d, PageOf(va), 0);
      if OutsideKernel(m, kernelDir, PageOf(va)) {
        PrivateUpdate(m, mem[..], dirs, kernelDir, pmm.Used(), d, PageOf(va), None);
      }
      return true;
    }

    /** The physical address that va translates to, or 0. */
    method GetPhysicalAddress(d: nat, va: word) returns (pa: word)
      requires Valid() && d in dirs
      ensures pa == match Lookup(mem[..], d, PageOf(va))
                    case None => 0
                    case Some(w) => FrameOf(w) * PAGE_SIZE + va % PAGE_SIZE
    {
      AddressIndices(va);
      PageIndex(PageOf(va));
      var pde := mem[d][va / 0x40_0000];
      if !Present(pde) {
        return 0;
      }
      var pte := mem[FrameOf(pde)][va / PAGE_SIZE % ENTRIES];
      if !Present(pte) {
        return 0;
      }
      pa := pte / PAGE_SIZE * PAGE_SIZE + va % PAGE_SIZE;
    }

    /** A new address space, which starts with the mappings of the kernel.  Returns 0 when memory is exhausted. */
    method CreatePageDirectory() returns (pd: nat)
      requires Valid()
      modifies this`dirs, pmm`count, pmm.bitmap, mem
      ensures Valid() && (pd != 0 <==> old(|pmm.Used()|) < pmm.total)
      ensures pd == 0 ==> dirs == old(dirs) && mem[..] == old(mem[..]) && pmm.Used() == old(pmm.Used())
      ensures pd != 0 ==> pd !in old(pmm.Used()) && dirs == old(dirs) + {pd} && pmm.Used() == old(pmm.Used()) + {pd}
      ensures pd != 0 ==> forall q :: 0 <= q < PAGES ==> Lookup(mem[..], pd, q) == Lookup(old(mem[..]), kernelDir, q)
      ensures pd != 0 ==> SameTranslations(old(mem[..]), mem[..], old(dirs))
    {
      hide Lookup, Tables, UsedPages;
      ghost var m, used := mem[..], pmm.Used();
      pd := AllocFrame();
      if pd == 0 {
        return;
      }
      InstallDirectory(m, dirs, kernelDir, used, pd);
      mem[pd] := ZeroFrame();
      CopyDirectory(pd, kernelDir);
      assert mem[..] == m[pd := m[kernelDir]];
      hide Spaces;
      dirs := dirs + {pd};
    }
  }

  /** Entry i of directory d is added, then widened; then a page table is written. */
  lemma AccessSteps(m: seq<Frame>, m1: seq<Frame>, m2: seq<Frame>, d: nat, i: nat, flags: word)
    requires d < |m| && |m1| == |m| && |m2| == |m| && i < ENTRIES
    requires m1[d] == m[d][i := m1[d][i]] && m2[d] == m1[d][i := m2[d][i]]
    requires Present(m[d][i]) ==> m1[d][i] == m[d][i]
    requires !Present(m[d][i]) ==> m1[d][i] / 2 % 2 == 1 && m1[d][i] / 4 % 2 == 0
    requires m2[d][i] / 2 % 2 == 1 <==> m1[d][i] / 2 % 2 == 1 || flags / 2 % 2 == 1
    requires m2[d][i] / 4 % 2 == 1 <==> m1[d][i] / 4 % 2 == 1 || flags / 4 % 2 == 1
    ensures AccessAdded(m, m2, d, i, flags)
  {
    forall j | 0 <= j < ENTRIES && j != i ensures m2[d][j] == m[d][j] {
      assert m2[d][j] == m1[d][j];
    }
  }

  /** A page whose entry has the access bits of the flags permits exactly what the flags ask for. */
  lemma PermitsExact(m: seq<Frame>, m': seq<Frame>, d: nat, page: nat, flags: word)
    requires page < PAGES && AccessAdded(m, m', d, page / ENTRIES, flags) && Lookup(m', d, page).Some?
    requires var w := Lookup(m', d, page).value; w / 2 % 2 == flags / 2 % 2 && w / 4 % 2 == flags / 4 % 2
    ensures Permits(m', d, page, 2) <==> flags / 2 % 2 == 1
    ensures Permits(m', d, page, 4) <==> flags / 4 % 2 == 1
  {
    hide Lookup;
  }

  lemma TableOf(m: seq<Frame>, dirs: set<nat>, kernel: nat, used: set<nat>, d: nat, i: nat)
    requires Spaces(m, dirs, kernel, used) && d in dirs && i < ENTRIES && Present(m[d][i])
    ensures FrameOf(m[d][i]) < |m| && FrameOf(m[d][i]) in Tables(m, dirs)
  {
  }

  /** Writing to a directory or to a page table changes no data. */
  lemma DataKeptStep(m: seq<Frame>, m1: seq<Frame>, m2: seq<Frame>, dirs: set<nat>, used: set<nat>, used': set<nat>,
                     f: nat)
    requires DataKept(m, m1, dirs, used) && OnlyTablesTaken(m, m1, dirs, used, used')
    requires f < |m1| && (f in dirs || f in Tables(m1, dirs)) && |m2| == |m1| && m2 == m1[f := m2[f]]
    ensures DataKept(m, m2, dirs, used)
  {
    hide Tables;
    forall g | 0 <= g < |m| && g in used && g !in dirs && g !in Tables(m, dirs) ensures m2[g] == m[g] {
      assert g != f;
      assert m2[g] == m1[g];
    }
  }

  lemma UpdateAfterSame(m: seq<Frame>, m1: seq<Frame>, m2: seq<Frame>, dirs: set<nat>, d: nat, page: nat,
                        v: Option<word>)
    requires page < PAGES && SameTranslations(m, m1, dirs) && PageUpdated(m1, m2, dirs, d, page, v)
    ensures PageUpdated(m, m2, dirs, d, page, v)
  {
    hide Lookup;
  }

  lemma AllUsed(used: set<nat>, total: nat)
    requires forall i :: i in used ==> i < total
    requires forall i :: 0 <= i < total ==> i in used
    ensures |used| == total
  {
    AllUsedUpTo(used, total);
  }

  lemma {:induction false} AllUsedUpTo(used: set<nat>, n: nat)
    requires forall i :: i in used <==> 0 <= i < n
    ensures |used| == n
  {
    if n > 0 {
      AllUsedUpTo(used - {n - 1}, n - 1);
    } else {
      assert used == {};
    }
  }

  lemma NothingTaken(m: seq<Frame>, dirs: set<nat>, kernel: nat, used: set<nat>)
    requires Spaces(m, dirs, kernel, used)
    ensures SameTranslations(m, m, dirs) && OnlyTablesTaken(m, m, dirs, used, used) && DataKept(m, m, dirs, used)
    ensures forall d :: d in dirs ==> d < |m| && SameSharing(m, m, dirs, d)
  {
    hide Tables, Lookup;
  }

  lemma TableTaken(m: seq<Frame>, dirs: set<nat>, kernel: nat, used: set<nat>, d: nat, i: nat, t: nat)
    requires Spaces(m, dirs, kernel, used) && d in dirs && i < ENTRIES && !Present(m[d][i])
    requires t < |m| && t < PAGES && t !in used
    ensures t !in dirs
    ensures var m' := WithTable(m, d, i, t);
            && Spaces(m', dirs, kernel, used + {t}) && SameTranslations(m, m', dirs) && SameSharing(m, m', dirs, d)
            && OnlyTablesTaken(m, m', dirs, used, used + {t}) && DataKept(m, m', dirs, used)
  {
    InstallTable(m, dirs, kernel, used, d, i, t);
    FreshNotTable(m, dirs, kernel, used, t);
    assert forall e :: e in dirs ==> e < |m|;
    NewTableUnshared(m, dirs, kernel, used, d, i, t);
    hide Tables, Lookup, Spaces, SameSharing;
  }

  lemma NewTableUnshared(m: seq<Frame>, dirs: set<nat>, kernel: nat, used: set<nat>, d: nat, i: nat, t: nat)
    requires Spaces(m, dirs, kernel, used) && d in dirs && i < ENTRIES && !Present(m[d][i])
    requires t < |m| && t < PAGES && t !in used
    ensures SameSharing(m, WithTable(m, d, i, t), dirs, d)
  {
    var m' := WithTable(m, d, i, t);
    assert forall e, j :: e in dirs && 0 <= j < ENTRIES ==>
      m'[e][j] == if e == d && j == i then MakePde(t) else m[e][j];
  }

  lemma FreshNotTable(m: seq<Frame>, dirs: set<nat>, kernel: nat, used: set<nat>, t: nat)
    requires Spaces(m, dirs, kernel, used) && t !in used
    ensures t !in dirs && t !in Tables(m, dirs) && Tables(m, dirs) <= used
  {
  }

  lemma UnmappedUpdate(m: seq<Frame>, dirs: set<nat>, kernel: nat, used: set<nat>, d: nat, page: nat)
    requires Spaces(m, dirs, kernel, used) && d in dirs && page < PAGES && !Present(m[d][page / ENTRIES])
    ensures PageUpdated(m, m, dirs, d, page, None)
  {
  }
}
