/** The run queue: a compacting table of processes that is scanned round-robin. */
module Scheduler {
  import opened Common
  import opened Arith

  const MAX_PROCESSES: nat := 128

  datatype ProcState = Ready | Running | Blocked | Zombie | Waiting

  predicate CanRun(s: ProcState) {
    s == Ready || s == Running
  }

  /** What the scheduler and the wait protocol see of a process.  Target is the argument of the wait call that the
      process is inside of, if any; a target of at most 0 stands for any child. */
  datatype Proc = Proc(pid: nat, ppid: nat, state: ProcState, exitCode: int, channel: nat, target: Option<int>)

  /** The table, the position at which the next scan starts, and the pid of the current process (0: none). */
  datatype Sys = Sys(procs: seq<Proc>, last: nat, current: nat, nextPid: nat)

  // ----- Selection -----

  /** How many steps a scan from last needs to reach index i. */
  function Distance(last: nat, i: nat, count: nat): (n: nat)
    requires last < count && i < count
    ensures n < count
  {
    if last <= i then i - last else i + count - last
  }

  /** The index that a scan from last visits in its n-th step. */
  function Visit(last: nat, n: nat, count: nat): (i: nat)
    requires last < count && n < count
    ensures i < count && Distance(last, i, count) == n
  {
    var turns := if last + n < count then 0 else 1;
    DivModUnique(last + n, count, turns, last + n - turns * count);
    (last + n) % count
  }

  /** The first index, in scanning order from the n-th step on, of a process that can run; |procs| if there is none. */
  function PickFrom(procs: seq<Proc>, last: nat, n: nat): (i: nat)
    requires n <= |procs| && (procs == [] || last < |procs|)
    ensures i <= |procs|
    decreases |procs| - n
  {
    if n == |procs| then |procs|
    else if CanRun(procs[Visit(last, n, |procs|)].state) then Visit(last, n, |procs|)
    else PickFrom(procs, last, n + 1)
  }

  lemma {:induction false} PickFromNearest(procs: seq<Proc>, last: nat, n: nat)
    requires n <= |procs| && (procs == [] || last < |procs|)
    ensures var i := PickFrom(procs, last, n);
            && (i < |procs| ==> CanRun(procs[i].state) && n <= Distance(last, i, |procs|))
            && (forall j :: 0 <= j < |procs| && n <= Distance(last, j, |procs|) && CanRun(procs[j].state) ==>
                  i < |procs| && Distance(last, i, |procs|) <= Distance(last, j, |procs|))
    decreases |procs| - n
  {
    if n < |procs| && !CanRun(procs[Visit(last, n, |procs|)].state) {
      PickFromNearest(procs, last, n + 1);
    }
  }

  /** Round-robin selection: the process that can run and is nearest to last in scanning order. */
  function Pick(procs: seq<Proc>, last: nat): (i: nat)
    requires procs == [] || last < |procs|
    ensures i < |procs| ==> CanRun(procs[i].state)
    ensures i < |procs| ==> procs[i].state == Ready || procs[i].state == Running
    ensures i == |procs| <==> forall j :: 0 <= j < |procs| ==> !CanRun(procs[j].state)
    ensures forall j :: 0 <= j < |procs| && CanRun(procs[j].state) ==>
              i < |procs| && Distance(last, i, |procs|) <= Distance(last, j, |procs|)
    ensures i <= |procs|
  {
    PickFromNearest(procs, last, 0);
    PickFrom(procs, last, 0)
  }

  /** Index j comes before index i in a scan that starts at last. */
  predicate ScannedBefore(last: nat, j: nat, i: nat) {
    if last <= i then last <= j < i else last <= j || j < i
  }

  /** The process picked is ready or running; those scanned before it, or all if none is picked, are blocked, waiting or
      exited. */
  lemma PickSkips(procs: seq<Proc>, last: nat, j: nat)
    requires last < |procs| && j < |procs|
    ensures var i := Pick(procs, last);
            i == |procs| || ScannedBefore(last, j, i) ==>
              procs[j].state == Blocked || procs[j].state == Zombie || procs[j].state == Waiting
  {
    var i := Pick(procs, last);
    hide Pick;
    if CanRun(procs[j].state) {
      assert Distance(last, i, |procs|) <= Distance(last, j, |procs|);
    }
  }

  lemma AfterIs(i: nat, count: nat)
    requires i < count
    ensures After(i, count) == if i == count - 1 then 0 else i + 1
  {
    if i == count - 1 {
      DivModUnique(i + 1, count, 1, 0);
    } else {
      DivModUnique(i + 1, count, 0, i + 1);
    }
  }

  lemma PickEnds(procs: seq<Proc>, last: nat)
    requires procs == [] || last < |procs|
    ensures PickFrom(procs, last, 0) == Pick(procs, last) && PickFrom(procs, last, |procs|) == |procs|
  {
  }

  lemma PickStep(procs: seq<Proc>, last: nat, n: nat)
    requires last < |procs| && n < |procs|
    ensures var i := Visit(last, n, |procs|);
            PickFrom(procs, last, n) == if CanRun(procs[i].state) then i else PickFrom(procs, last, n + 1)
  {
  }

  /** Where the scan after a selection of index i starts. */
  function After(i: nat, count: nat): (last: nat)
    requires i < count
    ensures last < count
  {
    (i + 1) % count
  }

  // ----- Bounded waiting -----

  /** An upper bound for the selections before index i has its turn; it does not depend on the size of the table. */
  function Ahead(last: nat, i: nat): (n: nat)
    requires last < MAX_PROCESSES && i < MAX_PROCESSES
    ensures n < MAX_PROCESSES
  {
    if last <= i then i - last else i + MAX_PROCESSES - last
  }

  /** Selecting another process brings index i strictly closer to its turn. */
  lemma SelectionAdvances(procs: seq<Proc>, last: nat, i: nat)
    requires last < |procs| <= MAX_PROCESSES && i < |procs| && CanRun(procs[i].state)
    ensures Pick(procs, last) < |procs|
    ensures Pick(procs, last) != i ==> Ahead(After(Pick(procs, last), |procs|), i) < Ahead(last, i)
  {
    var j := Pick(procs, last);
    hide Pick;
    assert Distance(last, j, |procs|) <= Distance(last, i, |procs|);
    if j + 1 == |procs| {
      DivModUnique(j + 1, |procs|, 1, 0);
    } else {
      DivModUnique(j + 1, |procs|, 0, j + 1);
    }
  }

  /** The tables seen by successive selections: between two of them, processes may join and change their states. */
  predicate Growing(tables: seq<seq<Proc>>) {
    && (forall k :: 0 <= k < |tables| ==> |tables[k]| <= MAX_PROCESSES)
    && (forall j, k :: 0 <= j <= k < |tables| ==> |tables[j]| <= |tables[k]|)
  }

  /** Where the scan after a selection starts; it stays when there was nothing to select. */
  function NextLast(procs: seq<Proc>, last: nat): (last': nat)
    requires last < |procs|
    ensures last' < |procs|
  {
    var i := Pick(procs, last);
    if i < |procs| then After(i, |procs|) else last
  }

  /** The indices selected in turn. */
  function Selections(tables: seq<seq<Proc>>, last: nat): (picks: seq<nat>)
    requires Growing(tables) && (tables == [] || last < |tables[0]|)
    ensures |picks| == |tables|
  {
    if tables == [] then []
    else
      assert tables[1..] != [] ==> tables[1..][0] == tables[1];
      [Pick(tables[0], last)] + Selections(tables[1..], NextLast(tables[0], last))
  }

  /** A process that stays able to run is selected within MAX_PROCESSES selections, whoever joins meanwhile. */
  lemma {:induction false} BoundedWaiting(tables: seq<seq<Proc>>, last: nat, i: nat)
    requires Growing(tables) && 0 < |tables| && last < |tables[0]|
    requires i < |tables[0]| && forall k :: 0 <= k < |tables| ==> i < |tables[k]| && CanRun(tables[k][i].state)
    requires |tables| > Ahead(last, i)
    ensures exists k :: 0 <= k <= Ahead(last, i) && Selections(tables, last)[k] == i
  {
    hide Pick, Ahead, After;
    SelectionAdvances(tables[0], last, i);
    var picks := Selections(tables, last);
    if picks[0] != i {
      var last' := NextLast(tables[0], last);
      assert forall k :: 0 <= k < |tables[1..]| ==> tables[1..][k] == tables[k + 1];
      BoundedWaiting(tables[1..], last', i);
      var k :| 0 <= k <= Ahead(last', i) && Selections(tables[1..], last')[k] == i;
      assert picks[k + 1] == i;
    }
  }

  // ----- Removal -----

  /** The sequence without its element at index u. */
  function Removed<T>(s: seq<T>, u: nat): (r: seq<T>)
    requires u < |s|
    ensures |r| == |s| - 1
  {
    s[..u] + s[u + 1..]
  }

  lemma RemovedAt<T>(s: seq<T>, u: nat, r: seq<T>)
    requires u < |s| && |r| == |s| - 1
    requires (forall k :: 0 <= k < u ==> r[k] == s[k]) && (forall k :: u <= k < |r| ==> r[k] == s[k + 1])
    ensures r == Removed(s, u)
  {
  }

  /** Where the next scan starts after a removal that leaves count processes. */
  function LastAfterRemoval(last: nat, count: nat): nat {
    if last >= count then 0 else last
  }

  /** A removal at index u brings no process farther from its turn, with one exception: the process whose turn is
      next goes to the back of the queue if the removed one stood before it in the table. */
  lemma RemovalDelays(count: nat, last: nat, u: nat, i: nat)
    requires last < count && u < count && i < count && u != i
    ensures var i' := if i < u then i else i - 1;
            var before := Distance(last, i, count);
            var after := Distance(LastAfterRemoval(last, count - 1), i', count - 1);
            && (after > before <==> i == last && u < last && 2 < count)
            && (i == last && u < last ==> before == 0 && after == count - 2)
  {
  }

  // ----- Bounded waiting with removals -----

  /** What happens to the run queue: a process joins, the states change, a process leaves, the next one is selected. */
  datatype QueueEvent = Joins(p: Proc) | Changes(states: seq<ProcState>) | Leaves(u: nat) | Selects

  datatype Queued = Queued(procs: seq<Proc>, last: nat)

  /** The event can happen, and the process at index i can run and does not leave. */
  predicate Possible(q: Queued, e: QueueEvent, i: nat) {
    && q.last < |q.procs| <= MAX_PROCESSES && i < |q.procs| && CanRun(q.procs[i].state)
    && match e
       case Joins(_) => |q.procs| < MAX_PROCESSES
       case Changes(states) => |states| == |q.procs|
       case Leaves(u) => u < |q.procs| && u != i
       case Selects => true
  }

  function Happens(q: Queued, e: QueueEvent, i: nat): (q': Queued)
    requires Possible(q, e, i)
    ensures q'.last < |q'.procs| <= MAX_PROCESSES
  {
    match e
    case Joins(p) => q.(procs := q.procs + [p])
    case Changes(states) =>
      q.(procs := seq(|q.procs|, j requires 0 <= j < |q.procs| => q.procs[j].(state := states[j])))
    case Leaves(u) => Queued(Removed(q.procs, u), LastAfterRemoval(q.last, |q.procs| - 1))
    case Selects => q.(last := NextLast(q.procs, q.last))
  }

  /** The index of the process afterwards. */
  function Moves(i: nat, e: QueueEvent): nat {
    if e.Leaves? && e.u < i then i - 1 else i
  }

  /** An upper bound for the selections before index i has its turn, whoever leaves. */
  function Turns(last: nat, i: nat): (n: nat)
    requires last < MAX_PROCESSES && i < MAX_PROCESSES
    ensures n < MAX_PROCESSES * MAX_PROCESSES
  {
    i * MAX_PROCESSES + Ahead(last, i)
  }

  /** No event makes the wait longer, and a selection of another process makes it shorter. */
  lemma WaitShrinks(q: Queued, e: QueueEvent, i: nat)
    requires Possible(q, e, i)
    ensures var q' := Happens(q, e, i);
            && Moves(i, e) < |q'.procs|
            && (!e.Selects? ==> Turns(q'.last, Moves(i, e)) <= Turns(q.last, i))
            && (e.Selects? && Pick(q.procs, q.last) != i ==> Turns(q'.last, i) < Turns(q.last, i))
  {
    hide Pick, After;
    if e.Selects? {
      SelectionAdvances(q.procs, q.last, i);
    }
  }

  /** Throughout the events the process at index i can run and stays, and is never selected. */
  predicate PassedOver(q: Queued, i: nat, events: seq<QueueEvent>)
    decreases |events|
  {
    events == [] ||
    (Possible(q, events[0], i) && (events[0].Selects? ==> Pick(q.procs, q.last) != i) &&
     PassedOver(Happens(q, events[0], i), Moves(i, events[0]), events[1..]))
  }

  function CountSelects(events: seq<QueueEvent>): nat {
    if events == [] then 0 else (if events[0].Selects? then 1 else 0) + CountSelects(events[1..])
  }

  /** A process that stays able to run is passed over less than 128 * 128 times in a row, whoever joins and leaves. */
  lemma {:induction false} BoundedWaitingAlways(q: Queued, i: nat, events: seq<QueueEvent>)
    requires q.last < |q.procs| <= MAX_PROCESSES && i < |q.procs| && PassedOver(q, i, events)
    ensures CountSelects(events) <= Turns(q.last, i) < 128 * 128
    decreases |events|
  {
    hide Pick, Happens, Turns;
    if events != [] {
      WaitShrinks(q, events[0], i);
      BoundedWaitingAlways(Happens(q, events[0], i), Moves(i, events[0]), events[1..]);
    }
  }

  // ----- The run queue in memory -----

  class Process {
    const pid: nat
    const ppid: nat
    var state: ProcState
    var exitCode: int
    var channel: nat
    ghost var target: Option<int>

    constructor (pid: nat, ppid: nat)
      ensures Seen() == Proc(pid, ppid, Ready, 0, 0, None)
    {
      this.pid, this.ppid, state, exitCode, channel, target := pid, ppid, Ready, 0, 0, None;
    }

    ghost function Seen(): Proc
      reads this
    {
      Proc(pid, ppid, state, exitCode, channel, target)
    }
  }

  /** What is seen of the processes of a queue. */
  ghost function View(q: seq<Process>): (procs: seq<Proc>)
    reads q
    ensures |procs| == |q| && forall i :: 0 <= i < |q| ==> procs[i] == q[i].Seen()
  {
    seq(|q|, i requires 0 <= i < |q| reads q => q[i].Seen())
  }

  /** The process is blocked, has exited or waits for a child. */
  ghost predicate Stopped(p: Process?)
    reads p
  {
    p != null && (p.state == Blocked || p.state == Zombie || p.state == Waiting)
  }

  class RunQueue {
    const table: array<Process?>
    var count: nat
    var lastIndex: nat
    var next: Process?
    var current: Process?

    ghost predicate Valid()
      reads this, table
    {
      && table.Length == MAX_PROCESSES && count <= MAX_PROCESSES
      && (forall i :: 0 <= i < count ==> table[i] != null)
      && (forall i :: count <= i < MAX_PROCESSES ==> table[i] == null)
      && (forall i, j :: 0 <= i < j < count ==> table[i] != table[j])
      && (lastIndex < count || lastIndex == 0)
    }

    ghost function Queue(): (q: seq<Process>)
      reads this, table
      requires Valid()
      ensures NoDuplicates(q)
    {
      table[..count]
    }

    constructor ()
      ensures Valid() && Queue() == [] && lastIndex == 0 && current == null && next == null && fresh(table)
    {
      table := new Process?[MAX_PROCESSES](_ => null);
      count, lastIndex, next, current := 0, 0, null, null;
    }

    /** Appends a process, unless it is null, queued already or the table is full. */
    method Register(p: Process?)
      requires Valid()
      modifies this`count, table
      ensures Valid()
      ensures Queue() == if p == null || p in old(Queue()) || old(count) == 128 then old(Queue())
                         else old(Queue()) + [p]
    {
      if p == null {
        return;
      }
      for i := 0 to count
        invariant forall j :: 0 <= j < i ==> table[j] != p
      {
        if table[i] == p {
          assert p in Queue();
          return;
        }
      }
      if count >= MAX_PROCESSES {
        return;
      }
      table[count] := p;
      count := count + 1;
    }

    /** Removes a process, keeping the order of the others. */
    method Unregister(p: Process?)
      requires Valid()
      modifies this`count, this`lastIndex, table
      ensures Valid()
      ensures p == null || p !in old(Queue()) ==> Queue() == old(Queue()) && lastIndex == old(lastIndex)
      ensures forall u :: 0 <= u < old(count) && old(Queue())[u] == p ==>
        Queue() == Removed(old(Queue()), u) && lastIndex == LastAfterRemoval(old(lastIndex), old(count) - 1)
    {
      if p == null || count == 0 {
        return;
      }
      ghost var q := Queue();
      for i := 0 to count
        invariant Valid() && Queue() == q && lastIndex == old(lastIndex) && count == old(count)
        invariant p !in q[..i]
      {
        if table[i] == p {
          Compact(i);
          return;
        }
      }
    }

    /** Closes the gap at index i. */
    method Compact(i: nat)
      requires Valid() && i < count
      modifies this`count, this`lastIndex, table
      ensures Valid()
      ensures Queue() == Removed(old(Queue()), i) && lastIndex == LastAfterRemoval(old(lastIndex), old(count) - 1)
    {
      ghost var t := table[..];
      var j := i;
      while j + 1 < count
        invariant i <= j < count == old(count) && lastIndex == old(lastIndex)
        invariant forall k :: 0 <= k < MAX_PROCESSES && !(i <= k < j) ==> table[k] == t[k]
        invariant forall k :: i <= k < j ==> table[k] == t[k + 1]
      {
        table[j] := table[j + 1];
        j := j + 1;
      }
      table[count - 1] := null;
      count := count - 1;
      RemovedAt(t[..count + 1], i, table[..count]);
      if count == 0 {
        lastIndex := 0;
      } else if lastIndex >= count {
        lastIndex := 0;
      }
    }

    /** Looks for the next process that can run, in scanning order from lastIndex. */
    method Scan() returns (i: nat)
      requires Valid() && 0 < count
      ensures i == Pick(View(Queue()), lastIndex) <= count
    {
      hide PickFrom, Pick, Distance, NoDuplicates, Visit, View;
      ghost var procs := View(Queue());
      PickEnds(procs, lastIndex);
      assert |procs| == count && forall j :: 0 <= j < count ==> procs[j].state == table[j].state;
      hide Queue;
      for n := 0 to count
        invariant PickFrom(procs, lastIndex, n) == Pick(procs, lastIndex)
      {
        PickStep(procs, lastIndex, n);
        i := Visit(lastIndex, n, count);
        if CanRun(table[i].state) {
          return;
        }
      }
      i := count;
    }

    /** Selects the next process to run, in scanning order from lastIndex. */
    method GetNextRunnable()
      requires Valid()
      modifies this`next, this`lastIndex
      ensures Valid() && Queue() == old(Queue())
      ensures var i := Pick(View(Queue()), old(lastIndex));
              if i < count then next == Queue()[i] && lastIndex == After(i, count)
              else next == null && lastIndex == old(lastIndex)
      ensures next != null ==> next.state == Ready || next.state == Running
      ensures next == null <==> forall j :: 0 <= j < count ==> Stopped(table[j])
      ensures next != null ==>
        exists i :: 0 <= i < count && table[i] == next && lastIndex == (if i == count - 1 then 0 else i + 1) &&
          forall j :: 0 <= j < count && ScannedBefore(old(lastIndex), j, i) ==> Stopped(table[j])
    {
      hide PickFrom, Pick, Distance, NoDuplicates, View, Visit, ScannedBefore;
      next := null;
      if count == 0 {
        return;
      }
      var i := Scan();
      Skips(i);
      if i < count {
        next, lastIndex := table[i], (i + 1) % count;
        assert lastIndex == After(i, count);
        AfterIs(i, count);
      }
    }

    /** What the scan has passed over. */
    lemma Skips(i: nat)
      requires Valid() && 0 < count && i == Pick(View(Queue()), lastIndex)
      ensures i < count ==> table[i].state == Ready || table[i].state == Running
      ensures forall j :: 0 <= j < count && (i == count || ScannedBefore(lastIndex, j, i)) ==> Stopped(table[j])
    {
      hide PickFrom, Pick, NoDuplicates, ScannedBefore, Distance;
      var procs := View(Queue());
      assert |procs| == count && forall j :: 0 <= j < count ==> procs[j].state == table[j].state;
      forall j | 0 <= j < count && (i == count || ScannedBefore(lastIndex, j, i)) ensures Stopped(table[j]) {
        PickSkips(procs, lastIndex, j);
      }
    }

    /** The current process gives up the processor. */
    method SetProcessState()
      requires Valid()
      modifies current
      ensures current != null ==>
        current.Seen() == old(if current.state == Running then current.Seen().(state := Ready) else current.Seen())
    {
      if current == null {
        return;
      }
      if current.state == Running {
        current.state := Ready;
      }
    }
  }
}
