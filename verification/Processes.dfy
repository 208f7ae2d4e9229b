/** The process operations as they update processes and the run queue in place, each proved to be a step of the
    lifecycle state machine. */
module Processes {
  import opened Common
  import opened Scheduler
  import opened Lifecycle

  ghost predicate UniqueIds(q: seq<Process>, nextPid: nat) {
    && (forall i :: 0 <= i < |q| ==> q[i].ppid < q[i].pid < nextPid)
    && (forall i, j :: 0 <= i < j < |q| ==> q[i].pid != q[j].pid)
  }

  /** The position of a process in a queue. */
  ghost predicate At(q: seq<Process>, i: nat, p: Process) {
    i < |q| && q[i] == p
  }

  lemma IndexOfAt(q: seq<Process>, procs: seq<Proc>, nextPid: nat, i: nat)
    requires UniqueIds(q, nextPid) && |procs| == |q| && i < |q| && forall j :: 0 <= j < |q| ==> procs[j].pid == q[j].pid
    ensures IndexOf(procs, q[i].pid) == i
  {
  }

  lemma StillQueued(q: seq<Process>, i: nat, p: Process)
    requires i < |q| && p in q && q[i] != p
    ensures p in Removed(q, i)
  {
    var k :| 0 <= k < |q| && q[k] == p;
    assert Removed(q, i)[if k < i then k else k - 1] == p;
  }

  lemma AtRemoved(q: seq<Process>, i: nat, z: nat)
    requires i < |q| && z < |q| && i != z
    ensures At(Removed(q, z), if i < z then i else i - 1, q[i])
  {
  }

  lemma UniqueRemoved(q: seq<Process>, i: nat, nextPid: nat)
    requires i < |q| && UniqueIds(q, nextPid)
    ensures UniqueIds(Removed(q, i), nextPid)
  {
    var r := Removed(q, i);
    assert forall j :: 0 <= j < |r| ==> r[j] == q[if j < i then j else j + 1];
  }

  lemma ViewRemoved(q: seq<Process>, i: nat)
    requires i < |q|
    ensures View(Removed(q, i)) == Removed(View(q), i)
  {
  }

  lemma WokenNone(procs: seq<Proc>, channel: nat, current: nat)
    ensures WokenAll(procs, channel, current, 0) == procs
  {
  }

  lemma WokenStep(procs: seq<Proc>, channel: nat, current: nat, i: nat)
    requires i < |procs|
    ensures var r := WokenAll(procs, channel, current, i);
            WokenAll(procs, channel, current, i + 1) == r[i := Woken(r[i], channel, current)]
  {
  }

  /** Removing one entry and updating another commute. */
  lemma RemovedUpdate(procs: seq<Proc>, i: nat, z: nat)
    requires i < |procs| && z < |procs| && i != z
    ensures var j := if i < z then i else i - 1;
            && j < |Removed(procs, z)| && Removed(procs, z)[j] == procs[i]
            && Removed(procs, z)[j := procs[i].(state := Running, target := None)] == ReapedTable(procs, i, z)
  {
  }

  /** What a turn of the wait loop does, by what the scan has found. */
  lemma WaitScanCases(s: Sys, i: nat, target: int, z: nat, hasChild: bool)
    requires i < |s.procs| && z == FirstZombie(s.procs, s.procs[i].pid, target, 0)
    requires z == |s.procs| ==> hasChild == HasChild(s.procs, s.procs[i].pid, target)
    ensures WaitScan(s, i, target) ==
            if z < |s.procs| then
              (s.(procs := ReapedTable(s.procs, i, z), last := LastAfterRemoval(s.last, |s.procs| - 1)),
               Reaped(s.procs[z].pid, s.procs[z].exitCode))
            else if hasChild then (s.(procs := s.procs[i := s.procs[i].(state := Waiting, target := Some(target))]),
                                   Retry)
            else (s.(procs := s.procs[i := s.procs[i].(state := Running, target := None)]), NoChild)
  {
  }

  class ProcessManager {
    const rq: RunQueue
    var nextPid: nat

    ghost predicate Valid()
      reads this, rq, rq.table
    {
      && rq.Valid() && 0 < nextPid && UniqueIds(rq.Queue(), nextPid)
      && (rq.current == null || rq.current in rq.Queue())
    }

    ghost function State(): (s: Sys)
      requires Valid()
      reads this, rq, rq.table, rq.Queue()
    {
      Sys(View(rq.Queue()), rq.lastIndex, if rq.current == null then 0 else rq.current.pid, nextPid)
    }

    constructor ()
      ensures Valid() && State() == Boot().sys && fresh(rq)
    {
      rq := new RunQueue();
      nextPid := 1;
    }

    method Enqueue(p: Process)
      requires Valid() && p !in rq.Queue() && UniqueIds(rq.Queue() + [p], nextPid)
      modifies rq`count, rq.table
      ensures Valid()
      ensures State() == old(State().(procs := if rq.count < MAX_PROCESSES then State().procs + [p.Seen()]
                                               else State().procs))
    {
      ghost var q, procs := rq.Queue(), View(rq.Queue());
      hide UniqueIds, View, NoDuplicates;
      rq.Register(p);
      assert View(q) == procs;
      if |q| < MAX_PROCESSES {
        assert rq.Queue() == q + [p];
        assert View(q + [p]) == procs + [p.Seen()];
      }
    }

    /** A new process gets the next pid and is queued if there is room. */
    method Create(ppid: nat) returns (p: Process)
      requires Valid() && ppid < nextPid
      modifies this`nextPid, rq`count, rq.table
      ensures Valid() && State() == Created(old(State()), ppid)
    {
      ghost var q, procs := rq.Queue(), View(rq.Queue());
      var pid := AllocatePid();
      p := new Process(pid, ppid);
      assert p !in q && View(q) == procs && UniqueIds(q, nextPid) && UniqueIds(q + [p], nextPid);
      hide UniqueIds, View, NoDuplicates;
      Enqueue(p);
    }

    /** Takes the next pid, for a process whose creation then fails. */
    method AllocatePid() returns (pid: nat)
      requires Valid()
      modifies this`nextPid
      ensures Valid() && pid == old(nextPid) && State() == old(State()).(nextPid := pid + 1)
    {
      pid := nextPid;
      nextPid := nextPid + 1;
    }

    method FindByPid(pid: nat) returns (p: Process?)
      requires Valid()
      ensures var i := IndexOf(State().procs, pid); p == if i < rq.count then rq.Queue()[i] else null
    {
      ghost var procs := View(rq.Queue());
      for i := 0 to rq.count
        invariant forall j :: 0 <= j < i ==> procs[j].pid != pid
      {
        assert procs[i].pid == rq.table[i].pid;
        if rq.table[i].pid == pid {
          return rq.table[i];
        }
      }
      return null;
    }

    method SetState(p: Process, state: ProcState, ghost i: nat)
      requires Valid() && At(rq.Queue(), i, p)
      modifies p`state
      ensures Valid() && State() == old(State()).(procs := WithState(old(State().procs), i, state))
    {
      ghost var procs := View(rq.Queue());
      p.state := state;
      assert View(rq.Queue()) == WithState(procs, i, state);
    }

    method SetZombie(p: Process, code: int, ghost i: nat)
      requires Valid() && At(rq.Queue(), i, p)
      modifies p`state, p`exitCode
      ensures Valid()
      ensures var procs := old(State().procs);
              State() == old(State()).(procs := procs[i := procs[i].(state := Zombie, exitCode := code)])
    {
      ghost var procs := View(rq.Queue());
      p.exitCode := code;
      p.state := Zombie;
      assert View(rq.Queue()) == procs[i := procs[i].(state := Zombie, exitCode := code)];
    }

    /** The process becomes a zombie and its parent is woken up if it waits. */
    method Exit(p: Process, code: int, ghost i: nat)
      requires Valid() && At(rq.Queue(), i, p)
      modifies rq.Queue()
      ensures Valid() && State() == old(State()).(procs := Exited(old(State().procs), i, code))
    {
      hide IndexOf, View, UniqueIds;
      SetZombie(p, code, i);
      WakeIfWaiting(p.ppid);
    }

    method WakeIfWaiting(pid: nat)
      requires Valid()
      modifies rq.Queue()
      ensures Valid() && State() == old(State()).(procs := WakeParent(old(State().procs), pid))
    {
      hide IndexOf, UniqueIds;
      var parent := FindByPid(pid);
      ghost var k := IndexOf(State().procs, pid);
      if parent != null {
        assert At(rq.Queue(), k, parent);
        if parent.state == Waiting {
          SetState(parent, Ready, k);
        }
      }
    }

    method BlockOn(p: Process, channel: nat, ghost i: nat)
      requires Valid() && At(rq.Queue(), i, p)
      modifies p
      ensures Valid() && State() == old(State()).(procs := BlockedOn(old(State().procs), i, channel))
    {
      ghost var procs := View(rq.Queue());
      p.channel := channel;
      p.state := Blocked;
      assert View(rq.Queue()) == procs[i := procs[i].(state := Blocked, channel := channel)];
    }

    method Unblock(p: Process, ghost i: nat)
      requires Valid() && At(rq.Queue(), i, p)
      modifies p
      ensures Valid() && State() == old(State()).(procs := Unblocked(old(State().procs), i, old(State().current)))
    {
      ghost var procs := View(rq.Queue());
      p.channel := 0;
      if p.state == Blocked {
        p.state := if p == rq.current then Running else Ready;
      }
      assert View(rq.Queue()) == Unblocked(procs, i, State().current);
    }

    method WakeAt(i: nat, channel: nat, ghost procs: seq<Proc>, ghost current: nat)
      requires Valid() && i < rq.count == |procs| && State().procs == WokenAll(procs, channel, current, i)
      requires current == State().current
      modifies rq.Queue()[i]
      ensures Valid() && State() == old(State()).(procs := WokenAll(procs, channel, current, i + 1))
      ensures rq.Valid() && rq.Queue() == old(rq.Queue())
    {
      WokenStep(procs, channel, current, i);
      ghost var before := View(rq.Queue());
      var p := rq.table[i];
      assert before[i] == p.Seen();
      hide WokenAll;
      if p.state == Blocked && p.channel == channel {
        p.channel := 0;
        p.state := if p == rq.current then Running else Ready;
      }
      assert View(rq.Queue()) == before[i := Woken(before[i], channel, State().current)];
    }

    lemma Sizes()
      requires Valid()
      ensures rq.Valid() && |State().procs| == |rq.Queue()| == rq.count
    {
    }

    /** Wakes every queued process that is blocked on the channel. */
    method WakeByChannel(channel: nat)
      requires Valid()
      modifies rq.Queue()
      ensures Valid()
      ensures State() == old(State()).(procs := if channel == 0 then old(State().procs)
                                                else WokenAll(old(State().procs), channel, old(State().current),
                                                              old(rq.count)))
    {
      hide UniqueIds, View, Woken, WokenAll, NoDuplicates, Valid, State, RunQueue.Valid, RunQueue.Queue;
      if channel == 0 {
        return;
      }
      ghost var s := State();
      WokenNone(s.procs, channel, s.current);
      Sizes();
      ghost var q := rq.Queue();
      var i := 0;
      while i < rq.count
        invariant i <= rq.count && Valid() && rq.Valid() && rq.Queue() == q
        invariant State() == s.(procs := WokenAll(s.procs, channel, s.current, i))
      {
        WakeAt(i, channel, s.procs, s.current);
        i := i + 1;
      }
    }

    // ----- Wait -----

    /** Looks for the first child of the parent that matches and has exited. */
    method ScanChildren(parent: Process, target: int) returns (z: nat, hasChild: bool)
      requires Valid()
      ensures z == FirstZombie(State().procs, parent.pid, target, 0) <= rq.count
      ensures z == rq.count ==> hasChild == HasChild(State().procs, parent.pid, target)
    {
      hide UniqueIds;
      ghost var procs := View(rq.Queue());
      hasChild := false;
      for k := 0 to rq.count
        invariant FirstZombie(procs, parent.pid, target, k) == FirstZombie(procs, parent.pid, target, 0)
        invariant hasChild <==> exists c :: 0 <= c < k && Matches(procs[c], parent.pid, target)
      {
        var child := rq.table[k];
        assert procs[k] == child.Seen();
        if child.ppid == parent.pid && (target > 0 ==> child.pid == target) {
          assert Matches(procs[k], parent.pid, target);
          hasChild := true;
          if child.state == Zombie {
            return k, true;
          }
        }
      }
      z := rq.count;
    }

    /** Takes the process out of the run queue. */
    method Destroy(p: Process, ghost i: nat)
      requires Valid() && At(rq.Queue(), i, p)
      modifies rq`count, rq`lastIndex, rq`current, rq.table
      ensures Valid() && rq.Queue() == Removed(old(rq.Queue()), i)
      ensures State() == old(State().(procs := Removed(State().procs, i),
                                      last := LastAfterRemoval(State().last, |State().procs| - 1),
                                      current := if p == rq.current then 0 else State().current))
    {
      ghost var q, procs := rq.Queue(), View(rq.Queue());
      UniqueRemoved(q, i, nextPid);
      hide UniqueIds, View, Removed, NoDuplicates;
      rq.Unregister(p);
      assert rq.Queue() == Removed(q, i);
      assert View(q) == procs;
      ViewRemoved(q, i);
      if rq.current == p {
        rq.current := null;
      } else if rq.current != null {
        StillQueued(q, i, rq.current);
      }
    }

    method SetWait(p: Process, state: ProcState, ghost target: Option<int>, ghost i: nat)
      requires Valid() && At(rq.Queue(), i, p)
      modifies p`state, p`target
      ensures Valid()
      ensures var procs := old(State().procs);
              State() == old(State()).(procs := procs[i := procs[i].(state := state, target := target)])
    {
      ghost var procs := View(rq.Queue());
      p.state := state;
      p.target := target;
      assert View(rq.Queue()) == procs[i := procs[i].(state := state, target := target)];
    }

    /** Reaps the zombie at index z for the current process at index i. */
    method Reap(parent: Process, z: nat, ghost i: nat) returns (r: WaitResult)
      requires Valid() && At(rq.Queue(), i, parent) && rq.current == parent && z < rq.count && z != i
      modifies rq`count, rq`lastIndex, rq`current, rq.table, parent
      ensures Valid() && State() == old(State().(procs := ReapedTable(State().procs, i, z),
                                                 last := LastAfterRemoval(State().last, |State().procs| - 1)))
      ensures r == Reaped(old(State().procs[z].pid), old(State().procs[z].exitCode))
    {
      var child := rq.table[z];
      assert child == rq.Queue()[z] && child != parent;
      ghost var procs := State().procs;
      assert procs[z] == child.Seen() && |procs| == rq.count;
      AtRemoved(rq.Queue(), i, z);
      r := Reaped(child.pid, child.exitCode);
      hide UniqueIds, View, Valid, State, Removed, NoDuplicates, ReapedTable, LastAfterRemoval;
      Destroy(child, z);
      RemovedUpdate(procs, i, z);
      SetWait(parent, Running, None, if i < z then i else i - 1);
    }

    /** One turn of the wait loop of the current process, up to the context switch. */
    method WaitScan(parent: Process, target: int, ghost i: nat) returns (r: WaitResult)
      requires Valid() && At(rq.Queue(), i, parent) && rq.current == parent && parent.state != Zombie
      modifies rq`count, rq`lastIndex, rq`current, rq.table, parent
      ensures Valid() && (State(), r) == Lifecycle.WaitScan(old(State()), i, target)
    {
      ghost var s := State();
      assert s.procs[i] == parent.Seen() && |s.procs| == rq.count;
      hide UniqueIds, View, FirstZombie, HasChild, Valid, State, Removed, LastAfterRemoval, NoDuplicates,
           Lifecycle.WaitScan;
      var z, hasChild := ScanChildren(parent, target);
      WaitScanCases(s, i, target, z, hasChild);
      if z < rq.count {
        r := Reap(parent, z, i);
      } else if !hasChild {
        SetWait(parent, Running, None, i);
        r := NoChild;
      } else {
        SetWait(parent, Waiting, Some(target), i);
        r := Retry;
      }
    }

    // ----- Scheduling -----

    method YieldCurrent()
      requires Valid()
      modifies rq.current
      ensures Valid() && State() == old(State()).(procs := Yielded(old(State().procs), old(State().current)))
    {
      ghost var q, procs := rq.Queue(), View(rq.Queue());
      if rq.current != null {
        ghost var i: nat :| i < |q| && q[i] == rq.current;
        IndexOfAt(q, procs, nextPid, i);
        rq.SetProcessState();
        assert View(q) == Yielded(procs, rq.current.pid);
      } else {
        assert IndexOf(procs, 0) == |procs|;
      }
    }

    method Select()
      requires Valid()
      modifies rq`next, rq`lastIndex
      ensures Valid()
      ensures var i := Pick(old(State().procs), old(State().last));
              if i < rq.count then rq.next != null && At(rq.Queue(), i, rq.next) &&
                State() == old(State()).(last := After(i, rq.count))
              else rq.next == null && State() == old(State())
    {
      hide UniqueIds, Pick, After;
      rq.GetNextRunnable();
    }

    method SwitchTo(p: Process, ghost i: nat)
      requires Valid() && At(rq.Queue(), i, p)
      modifies rq`current, p`state
      ensures Valid() && State() == old(State().(procs := WithState(State().procs, i, Running),
                                                 current := State().procs[i].pid))
    {
      hide UniqueIds;
      SetState(p, Running, i);
      rq.current := p;
      assert p in rq.Queue();
    }

    /** The next process in turn becomes the current one. */
    method Dispatch()
      requires Valid()
      modifies rq`next, rq`lastIndex, rq`current, rq.Queue()
      ensures Valid()
      ensures var s := old(State());
              var i := Pick(s.procs, s.last);
              State() == if i < |s.procs| then s.(procs := WithState(s.procs, i, Running), last := After(i, |s.procs|),
                                                  current := s.procs[i].pid)
                         else s
    {
      hide UniqueIds, Pick, After, View, NoDuplicates, WithState;
      ghost var i := Pick(State().procs, State().last);
      Select();
      if rq.next != null {
        SwitchTo(rq.next, i);
      }
    }

    /** The current process gives way to the next one in turn. */
    method Schedule()
      requires Valid()
      modifies rq`next, rq`lastIndex, rq`current, rq.Queue()
      ensures Valid() && State() == Scheduled(old(State()))
    {
      hide UniqueIds, IndexOf, Pick, After, Yielded, View, NoDuplicates, WithState;
      YieldCurrent();
      Dispatch();
    }
  }
}
