/** File descriptors shared between processes: reference counts across open, fork, close and exit. */
module Descriptors {
  import opened Common

  const FD_TABLE_SIZE: nat := 16
  const FIRST_FREE: nat := 3
  const EACCES: int := 13
  const ENOENT: int := 2

  type Table = s: seq<nat> | |s| == 16 witness [0, 0, 0, 0, 0, 0, 0, 0, 0, 0, 0, 0, 0, 0, 0, 0]

  /** The descriptor tables of all processes (0: empty slot), the reference count of each live descriptor, the
      files closed so far in order, and the number given to the next file that is opened. */
  datatype Files = Files(tables: seq<Table>, refs: map<nat, nat>, closed: seq<nat>, next: nat)

  // ----- Counting references -----

  function Occurrences(t: seq<nat>, d: nat): nat {
    multiset(t)[d]
  }

  /** The number of slots that hold d. */
  function Count(tables: seq<Table>, d: nat): nat {
    if tables == [] then 0 else Occurrences(tables[0], d) + Count(tables[1..], d)
  }

  lemma {:induction false} CountAppend(tables: seq<Table>, t: Table, d: nat)
    ensures Count(tables + [t], d) == Count(tables, d) + Occurrences(t, d)
  {
    if tables == [] {
      assert tables + [t] == [t];
      assert [t][1..] == [];
    } else {
      assert (tables + [t])[1..] == tables[1..] + [t];
      CountAppend(tables[1..], t, d);
    }
  }

  lemma TableUpdate(t: seq<nat>, fd: nat, d': nat)
    requires fd < |t|
    ensures multiset(t[fd := d']) == multiset(t) - multiset{t[fd]} + multiset{d'} && t[fd] in multiset(t)
  {
    assert t == t[..fd] + [t[fd]] + t[fd + 1..];
    assert t[fd := d'] == t[..fd] + [d'] + t[fd + 1..];
  }

  /** Overwriting a slot takes one reference from the old descriptor and gives one to the new. */
  lemma {:induction false} CountUpdate(tables: seq<Table>, p: nat, fd: nat, d': nat, d: nat)
    requires p < |tables| && fd < FD_TABLE_SIZE
    ensures Count(tables[p := tables[p][fd := d']], d) ==
            Count(tables, d) - (if tables[p][fd] == d then 1 else 0) + (if d' == d then 1 else 0)
  {
    var tables' := tables[p := tables[p][fd := d']];
    TableUpdate(tables[p], fd, d');
    if p == 0 {
      assert tables'[1..] == tables[1..];
    } else {
      CountUpdate(tables[1..], p - 1, fd, d', d);
      assert tables'[1..] == tables[1..][p - 1 := tables[p][fd := d']];
    }
  }

  lemma {:induction false} CountPositive(tables: seq<Table>, p: nat, fd: nat)
    requires p < |tables| && fd < FD_TABLE_SIZE
    ensures Count(tables, tables[p][fd]) > 0
  {
    if p == 0 {
      TableUpdate(tables[0], fd, 0);
    } else {
      CountPositive(tables[1..], p - 1, fd);
    }
  }

  // ----- The steps -----

  /** Slot fd of process p starts to hold the file that has just been opened. */
  function Installed(s: Files, p: nat, fd: nat): Files
    requires p < |s.tables| && fd < FD_TABLE_SIZE
  {
    s.(tables := s.tables[p := s.tables[p][fd := s.next]], refs := s.refs[s.next := 1], next := s.next + 1)
  }

  /** A file is opened and closed at once, because access is denied. */
  function Rejected(s: Files): Files {
    s.(closed := s.closed + [s.next], next := s.next + 1)
  }

  /** One reference is dropped; the last one closes the file. */
  function Dropped(s: Files, d: nat): Files
    requires d in s.refs
  {
    if s.refs[d] <= 1 then s.(refs := s.refs - {d}, closed := s.closed + [d])
    else s.(refs := s.refs[d := s.refs[d] - 1])
  }

  function Closed(s: Files, p: nat, fd: nat): Files
    requires p < |s.tables| && fd < FD_TABLE_SIZE && s.tables[p][fd] in s.refs
  {
    Dropped(s.(tables := s.tables[p := s.tables[p][fd := 0]]), s.tables[p][fd])
  }

  /** Slot fd of the child starts to hold what the parent's slot holds. */
  function Inherited(s: Files, parent: nat, child: nat, fd: nat): Files
    requires parent < |s.tables| && child < |s.tables| && fd < FD_TABLE_SIZE
    requires s.tables[parent][fd] != 0 ==> s.tables[parent][fd] in s.refs
  {
    var d := s.tables[parent][fd];
    s.(tables := s.tables[child := s.tables[child][fd := d]],
       refs := if d == 0 then s.refs else s.refs[d := s.refs[d] + 1])
  }

  // ----- The invariant -----

  /** No slot holds a released descriptor, and every reference count is exact. */
  ghost predicate Exact(s: Files) {
    && 0 !in s.refs
    && (forall d :: d != 0 && d !in s.refs ==> Count(s.tables, d) == 0)
    && (forall d :: d in s.refs ==> 0 < s.refs[d] == Count(s.tables, d))
  }

  /** Every file opened so far is live or has been closed, and has been closed at most once. */
  ghost predicate ClosedOnce(s: Files) {
    && 0 < s.next && NoDuplicates(s.closed)
    && (forall d :: d in s.refs ==> d < s.next && d !in s.closed)
    && (forall d :: d in s.closed ==> 0 < d < s.next)
    && (forall d :: 0 < d < s.next ==> d in s.refs || d in s.closed)
  }

  ghost predicate Inv(s: Files) {
    Exact(s) && ClosedOnce(s)
  }

  lemma NextFileNumber(s: Files)
    requires Inv(s)
    ensures 0 < s.next
  {
  }

  lemma SlotLive(s: Files, p: nat, fd: nat)
    requires Exact(s) && p < |s.tables| && fd < FD_TABLE_SIZE && s.tables[p][fd] != 0
    ensures s.tables[p][fd] in s.refs
  {
    CountPositive(s.tables, p, fd);
  }

  lemma InstalledKeepsInv(s: Files, p: nat, fd: nat)
    requires Inv(s) && p < |s.tables| && fd < FD_TABLE_SIZE && s.tables[p][fd] == 0
    ensures Inv(Installed(s, p, fd))
  {
    var s' := Installed(s, p, fd);
    forall d: nat
      ensures Count(s'.tables, d) == Count(s.tables, d) - (if d == 0 then 1 else 0) + (if s.next == d then 1 else 0)
    {
      CountUpdate(s.tables, p, fd, s.next, d);
    }
  }

  lemma AppendLog(log: seq<nat>, d: nat)
    requires NoDuplicates(log) && d !in log
    ensures NoDuplicates(log + [d]) && forall x :: x in log + [d] <==> x in log || x == d
  {
  }

  lemma RejectedKeepsInv(s: Files)
    requires Inv(s)
    ensures Inv(Rejected(s))
  {
    AppendLog(s.closed, s.next);
    hide NoDuplicates, Count;
  }

  /** Closing a slot closes the file exactly if this was the last slot that held it. */
  lemma ClosedKeepsInv(s: Files, p: nat, fd: nat)
    requires Inv(s) && p < |s.tables| && fd < FD_TABLE_SIZE && s.tables[p][fd] != 0
    ensures s.tables[p][fd] in s.refs && Inv(Closed(s, p, fd))
    ensures var x := s.tables[p][fd];
            Closed(s, p, fd).closed == if Count(s.tables, x) == 1 then s.closed + [x] else s.closed
  {
    hide NoDuplicates, Count;
    SlotLive(s, p, fd);
    var x := s.tables[p][fd];
    var s' := Closed(s, p, fd);
    forall d: nat
      ensures Count(s'.tables, d) == Count(s.tables, d) - (if x == d then 1 else 0) + (if d == 0 then 1 else 0)
    {
      CountUpdate(s.tables, p, fd, 0, d);
    }
    AppendLog(s.closed, x);
  }

  lemma InheritedKeepsInv(s: Files, parent: nat, child: nat, fd: nat)
    requires Inv(s) && parent < |s.tables| && child < |s.tables| && fd < FD_TABLE_SIZE && s.tables[child][fd] == 0
    ensures s.tables[parent][fd] != 0 ==> s.tables[parent][fd] in s.refs
    ensures Inv(Inherited(s, parent, child, fd))
  {
    var x := s.tables[parent][fd];
    if x != 0 {
      SlotLive(s, parent, fd);
    }
    var s' := Inherited(s, parent, child, fd);
    forall d: nat
      ensures Count(s'.tables, d) == Count(s.tables, d) - (if d == 0 then 1 else 0) + (if x == d then 1 else 0)
    {
      CountUpdate(s.tables, child, fd, x, d);
    }
  }

  // ----- Whole operations -----

  /** The first empty slot from k on; FD_TABLE_SIZE if there is none. */
  function FirstFree(t: Table, k: nat): (i: nat)
    requires k <= FD_TABLE_SIZE
    ensures k <= i <= FD_TABLE_SIZE && (i < FD_TABLE_SIZE ==> t[i] == 0) && forall j :: k <= j < i ==> t[j] != 0
    decreases FD_TABLE_SIZE - k
  {
    if k == FD_TABLE_SIZE || t[k] == 0 then k else FirstFree(t, k + 1)
  }

  /** What the rest of the kernel answers to an open call: whether there is memory, whether the file exists and may be
      accessed, and whether the caller wants it created and that succeeds. */
  datatype Answers = Answers(memory: bool, found: bool, allowed: bool, create: bool, created: bool)

  function Opened(s: Files, p: nat, a: Answers): (r: (Files, int))
    requires p < |s.tables|
  {
    var fd := FirstFree(s.tables[p], FIRST_FREE);
    if fd == FD_TABLE_SIZE || !a.memory then (s, -1)
    else if a.found then
      if a.allowed then (Installed(s, p, fd), fd) else (Rejected(s), -EACCES)
    else if a.create then
      if a.created then (Installed(s, p, fd), fd) else (s, -EACCES)
    else (s, -ENOENT)
  }

  /** Closes the slots of process p from k on. */
  ghost function ClosedFrom(s: Files, p: nat, k: nat): (r: Files)
    requires Inv(s) && p < |s.tables| && k <= FD_TABLE_SIZE
    ensures Inv(r) && |r.tables| == |s.tables| && s.closed <= r.closed
    ensures forall i :: 0 <= i < FD_TABLE_SIZE ==> r.tables[p][i] == if i < k then s.tables[p][i] else 0
    ensures forall q :: 0 <= q < |s.tables| && q != p ==> r.tables[q] == s.tables[q]
    decreases FD_TABLE_SIZE - k
  {
    if k == FD_TABLE_SIZE then s
    else if s.tables[p][k] == 0 then ClosedFrom(s, p, k + 1)
    else
      ClosedKeepsInv(s, p, k);
      ClosedFrom(Closed(s, p, k), p, k + 1)
  }

  /** The child inherits the parent's slots from k on. */
  ghost function InheritedFrom(s: Files, parent: nat, child: nat, k: nat): (r: Files)
    requires Inv(s) && parent < |s.tables| && child < |s.tables| && parent != child && k <= FD_TABLE_SIZE
    requires forall i :: k <= i < FD_TABLE_SIZE ==> s.tables[child][i] == 0
    ensures Inv(r) && |r.tables| == |s.tables| && r.closed == s.closed
    ensures forall i :: 0 <= i < FD_TABLE_SIZE ==>
      r.tables[child][i] == if i < k then s.tables[child][i] else s.tables[parent][i]
    ensures forall q :: 0 <= q < |s.tables| && q != child ==> r.tables[q] == s.tables[q]
    decreases FD_TABLE_SIZE - k
  {
    if k == FD_TABLE_SIZE then s
    else
      InheritedKeepsInv(s, parent, child, k);
      InheritedFrom(Inherited(s, parent, child, k), parent, child, k + 1)
  }

  lemma InheritedStep(s: Files, parent: nat, child: nat, k: nat)
    requires Inv(s) && parent < |s.tables| && child < |s.tables| && parent != child && k < FD_TABLE_SIZE
    requires forall i :: k <= i < FD_TABLE_SIZE ==> s.tables[child][i] == 0
    ensures s.tables[parent][k] != 0 ==> s.tables[parent][k] in s.refs
    ensures var r := Inherited(s, parent, child, k);
            && Inv(r) && |r.tables| == |s.tables| && (forall i :: k < i < FD_TABLE_SIZE ==> r.tables[child][i] == 0)
            && InheritedFrom(s, parent, child, k) == InheritedFrom(r, parent, child, k + 1)
  {
    InheritedKeepsInv(s, parent, child, k);
    hide Inv;
  }

  function EmptyTable(): (t: Table)
    ensures forall i :: 0 <= i < FD_TABLE_SIZE ==> t[i] == 0
  {
    [0, 0, 0, 0, 0, 0, 0, 0, 0, 0, 0, 0, 0, 0, 0, 0]
  }

  /** A new process with no open files. */
  function Spawned(s: Files): Files {
    s.(tables := s.tables + [EmptyTable()])
  }

  lemma SpawnedKeepsInv(s: Files)
    requires Inv(s)
    ensures Inv(Spawned(s))
  {
    forall d: nat | d != 0 ensures Count(Spawned(s).tables, d) == Count(s.tables, d) {
      CountAppend(s.tables, EmptyTable(), d);
    }
    hide Count;
  }

  ghost function Forked(s: Files, parent: nat): (r: Files)
    requires Inv(s) && parent < |s.tables|
    ensures Inv(r) && r.closed == s.closed && |r.tables| == |s.tables| + 1
  {
    SpawnedKeepsInv(s);
    InheritedFrom(Spawned(s), parent, |s.tables|, 0)
  }

  /** After a fork the child holds exactly the files of its parent. */
  lemma ForkedTables(s: Files, parent: nat)
    requires Inv(s) && parent < |s.tables|
    ensures Forked(s, parent).tables == s.tables + [s.tables[parent]]
  {
    SpawnedKeepsInv(s);
    var r := InheritedFrom(Spawned(s), parent, |s.tables|, 0);
    hide Inv, Inherited, InheritedFrom;
    assert r.tables[|s.tables|] == s.tables[parent];
    assert forall q :: 0 <= q < |s.tables| ==> r.tables[q] == s.tables[q];
  }

  /** Opens the terminal in the empty slots among k, ..., 2, up to the first failure. */
  ghost function StandardFrom(s: Files, p: nat, ok: seq<bool>, k: nat): (r: Files)
    requires Inv(s) && p < |s.tables| && k <= |ok| == 3
    ensures Inv(r) && |r.tables| == |s.tables| && r.closed == s.closed
    ensures (forall i :: k <= i < 3 ==> ok[i]) ==> forall i :: k <= i < 3 ==> r.tables[p][i] != 0
    ensures forall i :: 0 <= i < FD_TABLE_SIZE && (s.tables[p][i] != 0 || i < k || 3 <= i) ==>
      r.tables[p][i] == s.tables[p][i]
    ensures forall q :: 0 <= q < |s.tables| && q != p ==> r.tables[q] == s.tables[q]
    decreases 3 - k
  {
    if k == 3 then s
    else if s.tables[p][k] != 0 then StandardFrom(s, p, ok, k + 1)
    else if !ok[k] then s
    else
      InstalledKeepsInv(s, p, k);
      StandardFrom(Installed(s, p, k), p, ok, k + 1)
  }

  // ----- All runs -----

  datatype Event =
    | Spawn
    | Fork(p: nat)
    | StandardIO(p: nat, ok: seq<bool>)
    | Open(p: nat, a: Answers)
    | Close(p: nat, fd: int)
    | Destroy(p: nat)

  predicate Possible(s: Files, e: Event) {
    match e
    case Spawn => true
    case StandardIO(p, ok) => p < |s.tables| && |ok| == 3
    case _ => e.p < |s.tables|
  }

  /** Closing an empty or impossible slot fails and changes nothing. */
  ghost function CloseFd(s: Files, p: nat, fd: int): (r: (Files, int))
    requires Inv(s) && p < |s.tables|
    ensures Inv(r.0) && |r.0.tables| == |s.tables| && s.closed <= r.0.closed
  {
    if fd < 0 || fd >= FD_TABLE_SIZE || s.tables[p][fd] == 0 then (s, -1)
    else
      ClosedKeepsInv(s, p, fd);
      (Closed(s, p, fd), 0)
  }

  lemma OpenedKeepsInv(s: Files, p: nat, a: Answers)
    requires Inv(s) && p < |s.tables|
    ensures Inv(Opened(s, p, a).0) && s.closed <= Opened(s, p, a).0.closed && |Opened(s, p, a).0.tables| == |s.tables|
  {
    RejectedKeepsInv(s);
    var fd := FirstFree(s.tables[p], FIRST_FREE);
    if fd < FD_TABLE_SIZE {
      InstalledKeepsInv(s, p, fd);
    }
    hide Inv;
  }

  /** Every step keeps the counts exact and the log free of repetitions. */
  ghost function Step(s: Files, e: Event): (r: Files)
    requires Inv(s) && Possible(s, e)
    ensures Inv(r) && s.closed <= r.closed && |s.tables| <= |r.tables|
  {
    match e
    case Spawn => SpawnedKeepsInv(s); Spawned(s)
    case Fork(p) => Forked(s, p)
    case StandardIO(p, ok) => StandardFrom(s, p, ok, 0)
    case Open(p, a) => OpenedKeepsInv(s, p, a); Opened(s, p, a).0
    case Close(p, fd) => CloseFd(s, p, fd).0
    case Destroy(p) => ClosedFrom(s, p, 0)
  }

  ghost predicate IsRun(s: Files, events: seq<Event>)
    requires Inv(s)
    decreases |events|
  {
    events != [] ==> Possible(s, events[0]) && IsRun(Step(s, events[0]), events[1..])
  }

  /** Across every run the counts stay exact, no file is closed twice and no closed file is reopened. */
  ghost function Run(s: Files, events: seq<Event>): (r: Files)
    requires Inv(s) && IsRun(s, events)
    ensures Inv(r) && s.closed <= r.closed
    decreases |events|
  {
    if events == [] then s else Run(Step(s, events[0]), events[1..])
  }

  /** When every process has been destroyed, every file ever opened has been closed, exactly once. */
  lemma AllClosed(s: Files)
    requires Inv(s) && forall p :: 0 <= p < |s.tables| ==> s.tables[p] == EmptyTable()
    ensures s.refs == map[] && NoDuplicates(s.closed) && forall d :: d in s.closed <==> 0 < d < s.next
  {
    forall d | d in s.refs ensures false {
      NoReferences(s.tables, d);
    }
  }

  lemma {:induction false} NoReferences(tables: seq<Table>, d: nat)
    requires d != 0 && forall p :: 0 <= p < |tables| ==> tables[p] == EmptyTable()
    ensures Count(tables, d) == 0
  {
    if tables != [] {
      NoReferences(tables[1..], d);
    }
  }

  // ----- In place -----

  class FileTable {
    var tables: seq<Table>
    var refs: map<nat, nat>
    var next: nat
    ghost var closed: seq<nat>

    ghost function State(): Files
      reads this
    {
      Files(tables, refs, closed, next)
    }

    constructor ()
      ensures State() == Files([], map[], [], 1) && Inv(State())
    {
      tables, refs, next, closed := [], map[], 1, [];
    }

    /** The first empty slot above the standard ones, or -1. */
    method FindFree(p: nat) returns (fd: int)
      requires p < |tables|
      ensures var i := FirstFree(tables[p], FIRST_FREE); fd == if i == FD_TABLE_SIZE then -1 else i
      ensures if fd == -1 then forall j :: 3 <= j < 16 ==> tables[p][j] != 0
              else 3 <= fd < 16 && tables[p][fd] == 0 && forall j :: 3 <= j < fd ==> tables[p][j] != 0
    {
      for i := FIRST_FREE to FD_TABLE_SIZE
        invariant FirstFree(tables[p], i) == FirstFree(tables[p], FIRST_FREE)
      {
        if tables[p][i] == 0 {
          return i;
        }
      }
      return -1;
    }

    method Install(p: nat, fd: nat)
      requires p < |tables| && fd < FD_TABLE_SIZE
      modifies this
      ensures State() == Installed(old(State()), p, fd)
    {
      refs := refs[next := 1];
      tables := tables[p := tables[p][fd := next]];
      next := next + 1;
    }

    method Open(p: nat, a: Answers) returns (fd: int)
      requires p < |tables|
      modifies this
      ensures (State(), fd) == Opened(old(State()), p, a)
    {
      fd := FindFree(p);
      if fd == -1 || !a.memory {
        return -1;
      }
      if a.found {
        if !a.allowed {
          closed := closed + [next];
          next := next + 1;
          return -EACCES;
        }
      } else if a.create {
        if !a.created {
          return -EACCES;
        }
      } else {
        return -ENOENT;
      }
      Install(p, fd);
    }

    method Close(p: nat, fd: int) returns (code: int)
      requires Inv(State()) && p < |tables|
      modifies this
      ensures Inv(State()) && (State(), code) == CloseFd(old(State()), p, fd)
    {
      if fd < 0 || fd >= FD_TABLE_SIZE || tables[p][fd] == 0 {
        return -1;
      }
      ClosedKeepsInv(State(), p, fd);
      hide Inv;
      var file := tables[p][fd];
      tables := tables[p := tables[p][fd := 0]];
      if refs[file] > 1 {
        refs := refs[file := refs[file] - 1];
      } else {
        refs := refs - {file};
        closed := closed + [file];
      }
      return 0;
    }

    method CloseAll(p: nat)
      requires Inv(State()) && p < |tables|
      modifies this
      ensures State() == ClosedFrom(old(State()), p, 0)
    {
      hide Inv;
      for i := 0 to FD_TABLE_SIZE
        invariant Inv(State()) && p < |tables|
        invariant ClosedFrom(State(), p, i) == ClosedFrom(old(State()), p, 0)
      {
        if tables[p][i] != 0 {
          var code := Close(p, i);
        }
      }
    }

    /** The descriptor part of a fork: every open file of the parent gains a reference. */
    method Fork(parent: nat) returns (child: nat)
      requires Inv(State()) && parent < |tables|
      modifies this
      ensures State() == Forked(old(State()), parent) && child == old(|tables|)
    {
      SpawnedKeepsInv(State());
      hide Inv, InheritedFrom;
      child := |tables|;
      tables := tables + [EmptyTable()];
      InheritAll(parent, child);
    }

    method InheritAll(parent: nat, child: nat)
      requires Inv(State()) && parent < |tables| && child < |tables| && parent != child
      requires forall i :: 0 <= i < FD_TABLE_SIZE ==> tables[child][i] == 0
      modifies this
      ensures State() == InheritedFrom(old(State()), parent, child, 0)
    {
      hide Inv, Inherited;
      for i := 0 to FD_TABLE_SIZE
        invariant Inv(State()) && |tables| == old(|tables|)
        invariant forall j :: i <= j < FD_TABLE_SIZE ==> tables[child][j] == 0
        invariant InheritedFrom(State(), parent, child, i) == InheritedFrom(old(State()), parent, child, 0)
      {
        InheritedStep(State(), parent, child, i);
        InheritSlot(parent, child, i);
      }
    }

    method InheritSlot(parent: nat, child: nat, fd: nat)
      requires Inv(State()) && parent < |tables| && child < |tables| && fd < FD_TABLE_SIZE && tables[child][fd] == 0
      modifies this
      ensures Inv(State())
      ensures old(tables[parent][fd]) != 0 ==> old(tables[parent][fd]) in old(refs)
      ensures State() == Inherited(old(State()), parent, child, fd)
    {
      InheritedKeepsInv(State(), parent, child, fd);
      hide Inv;
      var file := tables[parent][fd];
      tables := tables[child := tables[child][fd := file]];
      if file != 0 {
        refs := refs[file := refs[file] + 1];
      }
    }

    /** Opens the terminal as standard input, output and error. */
    method InitializeStandardIO(p: nat, ok: seq<bool>) returns (code: int)
      requires Inv(State()) && p < |tables| && |ok| == 3
      modifies this
      ensures State() == StandardFrom(old(State()), p, ok, 0) && p < |tables|
      ensures code == if forall i :: 0 <= i < 3 ==> tables[p][i] != 0 then 0 else -1
    {
      hide Inv;
      for fd := 0 to 3
        invariant Inv(State()) && p < |tables| && forall i :: 0 <= i < fd ==> tables[p][i] != 0
        invariant StandardFrom(State(), p, ok, fd) == StandardFrom(old(State()), p, ok, 0)
      {
        if tables[p][fd] == 0 {
          if !ok[fd] {
            return -1;
          }
          InstalledKeepsInv(State(), p, fd);
          NextFileNumber(State());
          Install(p, fd);
        }
      }
      return 0;
    }
  }
}
