/** Process lifecycle: creation, exit, wait, blocking and scheduling, as steps of one state machine. */
module Lifecycle {
  import opened Common
  import opened Scheduler

  // ----- The steps -----

  /** The index of the process with the given pid; |procs| if there is none. */
  function IndexOf(procs: seq<Proc>, pid: nat): (i: nat)
    ensures i <= |procs|
    ensures i < |procs| ==> procs[i].pid == pid
    ensures forall j :: 0 <= j < i ==> procs[j].pid != pid
  {
    if procs == [] then 0
    else if procs[0].pid == pid then 0
    else
      var i := IndexOf(procs[1..], pid);
      assert forall j :: 0 < j < i + 1 ==> procs[j] == procs[1..][j - 1];
      i + 1
  }

  function WithState(procs: seq<Proc>, i: nat, state: ProcState): (r: seq<Proc>)
    requires i < |procs|
  {
    procs[i := procs[i].(state := state)]
  }

  /** Whether p is a child that a wait call of the given parent asks for. */
  predicate Matches(p: Proc, parent: nat, target: int) {
    p.ppid == parent && (target > 0 ==> p.pid == target)
  }

  predicate HasChild(procs: seq<Proc>, parent: nat, target: int) {
    exists c :: 0 <= c < |procs| && Matches(procs[c], parent, target)
  }

  /** The first matching zombie from index k on; |procs| if there is none. */
  function FirstZombie(procs: seq<Proc>, parent: nat, target: int, k: nat): (z: nat)
    requires k <= |procs|
    ensures k <= z <= |procs|
    ensures z < |procs| ==> Matches(procs[z], parent, target) && procs[z].state == Zombie
    ensures forall j :: k <= j < z ==> !(Matches(procs[j], parent, target) && procs[j].state == Zombie)
    decreases |procs| - k
  {
    if k == |procs| then k
    else if Matches(procs[k], parent, target) && procs[k].state == Zombie then k
    else FirstZombie(procs, parent, target, k + 1)
  }

  /** A new process with the next pid is queued, if there is room. */
  function Created(s: Sys, ppid: nat): Sys {
    s.(procs := if |s.procs| < MAX_PROCESSES then s.procs + [Proc(s.nextPid, ppid, Ready, 0, 0, None)] else s.procs,
       nextPid := s.nextPid + 1)
  }

  /** The waiting process with the given pid becomes ready. */
  function WakeParent(procs: seq<Proc>, pid: nat): (r: seq<Proc>)
    ensures |r| == |procs|
  {
    var i := IndexOf(procs, pid);
    if i < |procs| && procs[i].state == Waiting then WithState(procs, i, Ready) else procs
  }

  function Exited(procs: seq<Proc>, i: nat, code: int): (r: seq<Proc>)
    requires i < |procs|
    ensures |r| == |procs|
  {
    WakeParent(procs[i := procs[i].(state := Zombie, exitCode := code)], procs[i].ppid)
  }

  datatype WaitResult = Reaped(pid: nat, code: int) | NoChild | Retry

  /** One scan of the process at index i for children that match the target. */
  function WaitScan(s: Sys, i: nat, target: int): (r: (Sys, WaitResult))
    requires i < |s.procs|
  {
    var parent := s.procs[i];
    var z := FirstZombie(s.procs, parent.pid, target, 0);
    if z < |s.procs| then
      var procs := s.procs[i := parent.(state := Running, target := None)];
      (s.(procs := Removed(procs, z), last := LastAfterRemoval(s.last, |s.procs| - 1)),
       Reaped(s.procs[z].pid, s.procs[z].exitCode))
    else if HasChild(s.procs, parent.pid, target) then
      (s.(procs := s.procs[i := parent.(state := Waiting, target := Some(target))]), Retry)
    else
      (s.(procs := s.procs[i := parent.(state := Running, target := None)]), NoChild)
  }

  function BlockedOn(procs: seq<Proc>, i: nat, channel: nat): seq<Proc>
    requires i < |procs|
  {
    procs[i := procs[i].(state := Blocked, channel := channel)]
  }

  /** The state of a blocked process that is woken up. */
  function Resumed(p: Proc, current: nat): ProcState {
    if p.pid == current then Running else Ready
  }

  function Unblocked(procs: seq<Proc>, i: nat, current: nat): seq<Proc>
    requires i < |procs|
  {
    var p := procs[i];
    procs[i := p.(channel := 0, state := if p.state == Blocked then Resumed(p, current) else p.state)]
  }

  function Woken(p: Proc, channel: nat, current: nat): Proc {
    if p.state == Blocked && p.channel == channel then p.(channel := 0, state := Resumed(p, current)) else p
  }

  /** Every process that is blocked on the channel is woken up, among the first n. */
  function WokenAll(procs: seq<Proc>, channel: nat, current: nat, n: nat): (r: seq<Proc>)
    requires n <= |procs|
    ensures |r| == |procs|
    ensures forall i :: 0 <= i < |procs| ==> r[i] == if i < n then Woken(procs[i], channel, current) else procs[i]
  {
    if n == 0 then procs
    else WokenAll(procs, channel, current, n - 1)[n - 1 := Woken(procs[n - 1], channel, current)]
  }

  /** The current process, if running, becomes ready. */
  function Yielded(procs: seq<Proc>, current: nat): (r: seq<Proc>)
    ensures |r| == |procs|
  {
    var i := IndexOf(procs, current);
    if i < |procs| && procs[i].state == Running then WithState(procs, i, Ready) else procs
  }

  /** The next process in turn becomes the current one; without one that can run, nothing happens. */
  function Scheduled(s: Sys): Sys
    requires s.procs == [] || s.last < |s.procs|
  {
    var procs := Yielded(s.procs, s.current);
    var i := Pick(procs, s.last);
    if i < |procs| then s.(procs := WithState(procs, i, Running), last := After(i, |procs|), current := procs[i].pid)
    else s.(procs := procs)
  }

  // ----- Runs -----

  /** What may happen next: the current process acts, or the kernel does on an interrupt. */
  datatype Event =
    | Create
    | Fork
    | CreationFails
    | Exit(code: int)
    | Wait(target: int)
    | BlockOn(channel: nat)
    | Unblock(pid: nat)
    | Wake(channel: nat)
    | Schedule

  datatype Reap = Reap(parent: nat, pid: nat, code: int)

  /** A state and what has happened so far: every parent relation, every exit code, every successful wait, and the
      pids of processes that did not fit into the table or whose creation failed. */
  datatype History = History(sys: Sys, parents: map<nat, nat>, exits: map<nat, int>, reaped: seq<Reap>,
                             refused: set<nat>)

  /** The index of the current process. */
  function Me(s: Sys): nat {
    IndexOf(s.procs, s.current)
  }

  /** A process acts while it is running and not inside a wait call; inside, it scans again for the same target. */
  predicate Enabled(s: Sys, e: Event) {
    var i := Me(s);
    match e
    case Fork => i < |s.procs| && s.procs[i].state == Running && s.procs[i].target == None
    case Exit(_) => i < |s.procs| && s.procs[i].state == Running && s.procs[i].target == None
    case BlockOn(_) => i < |s.procs| && s.procs[i].state == Running && s.procs[i].target == None
    case Wait(t) =>
      && i < |s.procs| && (s.procs[i].state == Running || s.procs[i].state == Waiting)
      && (s.procs[i].target == Some(t) || (s.procs[i].target == None && s.procs[i].state == Running))
    case _ => true
  }

  function NewProcess(h: History, ppid: nat): History {
    var s := h.sys;
    h.(sys := Created(s, ppid), parents := h.parents[s.nextPid := ppid],
       refused := if |s.procs| < MAX_PROCESSES then h.refused else h.refused + {s.nextPid})
  }

  /** A creation that fails after it has taken a pid: the pid is used up. */
  function LostPid(h: History): History {
    h.(sys := h.sys.(nextPid := h.sys.nextPid + 1), refused := h.refused + {h.sys.nextPid})
  }

  function Step(h: History, e: Event): History
    requires Enabled(h.sys, e) && (h.sys.procs == [] || h.sys.last < |h.sys.procs|)
  {
    var s := h.sys;
    var i := Me(s);
    match e
    case Create => NewProcess(h, 0)
    case Fork => NewProcess(h, s.current)
    case CreationFails => LostPid(h)
    case Exit(code) => h.(sys := s.(procs := Exited(s.procs, i, code)), exits := h.exits[s.current := code])
    case Wait(t) =>
      var (s', r) := WaitScan(s, i, t);
      h.(sys := s', reaped := if r.Reaped? then h.reaped + [Reap(s.current, r.pid, r.code)] else h.reaped)
    case BlockOn(ch) => h.(sys := s.(procs := BlockedOn(s.procs, i, ch)))
    case Unblock(pid) =>
      var j := IndexOf(s.procs, pid);
      if j < |s.procs| then h.(sys := s.(procs := Unblocked(s.procs, j, s.current))) else h
    case Wake(ch) => if ch == 0 then h else h.(sys := s.(procs := WokenAll(s.procs, ch, s.current, |s.procs|)))
    case Schedule => h.(sys := Scheduled(s))
  }

  // ----- The invariant -----

  ghost predicate UniquePids(procs: seq<Proc>) {
    forall i, j :: 0 <= i < j < |procs| ==> procs[i].pid != procs[j].pid
  }

  ghost predicate Registered(procs: seq<Proc>, pid: nat) {
    exists i :: 0 <= i < |procs| && procs[i].pid == pid
  }

  /** Pids are handed out in increasing order. */
  ghost predicate PidsBelow(procs: seq<Proc>, nextPid: nat) {
    forall i :: 0 <= i < |procs| ==> procs[i].ppid < procs[i].pid < nextPid
  }

  ghost predicate Ids(s: Sys) {
    && 0 < s.nextPid && |s.procs| <= MAX_PROCESSES && (s.last < |s.procs| || s.last == 0)
    && PidsBelow(s.procs, s.nextPid) && UniquePids(s.procs)
    && (s.current == 0 || Registered(s.procs, s.current))
  }

  /** Only the current process is running. */
  ghost predicate SingleRunning(s: Sys) {
    forall i :: 0 <= i < |s.procs| && s.procs[i].state == Running ==> s.procs[i].pid == s.current
  }

  /** A waiting process is inside a wait call that has a child to wait for, and none of these children has exited. */
  ghost predicate NoLostWakeup(procs: seq<Proc>) {
    forall i :: 0 <= i < |procs| && procs[i].state == Waiting ==>
      procs[i].target.Some? && HasChild(procs, procs[i].pid, procs[i].target.value) &&
        NoZombie(procs, procs[i].pid, procs[i].target.value)
  }

  ghost predicate NoZombie(procs: seq<Proc>, parent: nat, target: int) {
    forall c :: 0 <= c < |procs| && Matches(procs[c], parent, target) ==> procs[c].state != Zombie
  }

  ghost predicate WasReaped(reaped: seq<Reap>, pid: nat) {
    exists k :: 0 <= k < |reaped| && reaped[k].pid == pid
  }

  /** A registered process is a zombie exactly if it has exited, and then it keeps its exit code. */
  ghost predicate ExitsRecorded(h: History) {
    && (forall i :: 0 <= i < |h.sys.procs| ==>
          var p := h.sys.procs[i];
          && p.pid in h.parents && h.parents[p.pid] == p.ppid
          && (p.state == Zombie <==> p.pid in h.exits) && (p.state == Zombie ==> h.exits[p.pid] == p.exitCode))
    && (forall pid :: pid in h.exits ==> 0 < pid < h.sys.nextPid)
  }

  /** Each successful wait got a child of the caller with its own exit code; no child was reaped twice, and a reaped
      child is gone. */
  ghost predicate ReapedOnce(h: History) {
    && (forall k :: 0 <= k < |h.reaped| ==>
          var r := h.reaped[k];
          && r.pid in h.exits && h.exits[r.pid] == r.code && r.pid in h.parents && h.parents[r.pid] == r.parent
          && !Registered(h.sys.procs, r.pid))
    && (forall j, k :: 0 <= j < k < |h.reaped| ==> h.reaped[j].pid != h.reaped[k].pid)
  }

  /** Every pid ever taken belongs to a queued process, a reaped one, or one that was never queued. */
  ghost predicate Conserved(h: History) {
    && (forall pid :: 0 < pid < h.sys.nextPid ==>
          Registered(h.sys.procs, pid) || WasReaped(h.reaped, pid) || pid in h.refused)
    && (forall pid :: pid in h.refused ==> pid < h.sys.nextPid && !Registered(h.sys.procs, pid) && pid !in h.exits)
  }

  ghost predicate Inv(h: History) {
    Ids(h.sys) && SingleRunning(h.sys) && NoLostWakeup(h.sys.procs) && ExitsRecorded(h) && ReapedOnce(h) && Conserved(h)
  }

  /** Boot: no process, no pid given out. */
  function Boot(): (h: History)
    ensures Inv(h)
  {
    History(Sys([], 0, 0, 1), map[], map[], [], {})
  }

  // ----- Every step keeps the invariant -----

  /** Nothing that the records speak of differs. */
  ghost predicate Similar(procs: seq<Proc>, procs': seq<Proc>) {
    && |procs'| == |procs|
    && forall i :: 0 <= i < |procs| ==>
         && procs'[i].pid == procs[i].pid && procs'[i].ppid == procs[i].ppid && procs'[i].exitCode == procs[i].exitCode
         && (procs'[i].state == Zombie <==> procs[i].state == Zombie)
  }

  lemma SimilarRegistered(procs: seq<Proc>, procs': seq<Proc>, pid: nat)
    requires Similar(procs, procs')
    ensures Registered(procs', pid) <==> Registered(procs, pid)
  {
    if i :| 0 <= i < |procs| && procs[i].pid == pid { assert procs'[i].pid == pid; }
    if i :| 0 <= i < |procs| && procs'[i].pid == pid { assert procs[i].pid == pid; }
  }

  lemma SimilarChildren(procs: seq<Proc>, procs': seq<Proc>, parent: nat, target: int)
    requires Similar(procs, procs')
    ensures HasChild(procs', parent, target) <==> HasChild(procs, parent, target)
    ensures NoZombie(procs', parent, target) <==> NoZombie(procs, parent, target)
  {
    if c :| 0 <= c < |procs| && Matches(procs[c], parent, target) { assert Matches(procs'[c], parent, target); }
    if c :| 0 <= c < |procs| && Matches(procs'[c], parent, target) { assert Matches(procs[c], parent, target); }
    if NoZombie(procs, parent, target) { assert NoZombie(procs', parent, target); }
    if NoZombie(procs', parent, target) {
      forall c | 0 <= c < |procs| && Matches(procs[c], parent, target) ensures procs[c].state != Zombie {
        assert Matches(procs'[c], parent, target);
      }
    }
  }

  /** A waiting process in procs' is inside a justified wait call. */
  ghost predicate WaitsJustified(procs: seq<Proc>, procs': seq<Proc>)
    requires |procs'| == |procs|
  {
    forall i :: 0 <= i < |procs| && procs'[i].state == Waiting ==>
      procs'[i].target.Some? && HasChild(procs, procs'[i].pid, procs'[i].target.value) &&
        NoZombie(procs, procs'[i].pid, procs'[i].target.value)
  }

  lemma SimilarKeepsRecords(h: History, s': Sys)
    requires Inv(h) && Similar(h.sys.procs, s'.procs) && s'.nextPid == h.sys.nextPid
    ensures ExitsRecorded(h.(sys := s')) && ReapedOnce(h.(sys := s')) && Conserved(h.(sys := s'))
  {
    forall pid: nat ensures Registered(s'.procs, pid) <==> Registered(h.sys.procs, pid) {
      SimilarRegistered(h.sys.procs, s'.procs, pid);
    }
    hide Registered, WasReaped, IndexOf, NoLostWakeup;
  }

  lemma SimilarKeepsInv(h: History, s': Sys)
    requires Inv(h) && Similar(h.sys.procs, s'.procs) && s'.nextPid == h.sys.nextPid
    requires s'.last < |s'.procs| || s'.last == 0
    requires s'.current == 0 || Registered(s'.procs, s'.current)
    requires SingleRunning(s') && WaitsJustified(h.sys.procs, s'.procs)
    ensures Inv(h.(sys := s'))
  {
    SimilarKeepsRecords(h, s');
    hide ExitsRecorded, ReapedOnce, Conserved;
    forall i | 0 <= i < |s'.procs| && s'.procs[i].state == Waiting
      ensures s'.procs[i].target.Some? && HasChild(s'.procs, s'.procs[i].pid, s'.procs[i].target.value) &&
              NoZombie(s'.procs, s'.procs[i].pid, s'.procs[i].target.value)
    {
      SimilarChildren(h.sys.procs, s'.procs, s'.procs[i].pid, s'.procs[i].target.value);
    }
  }

  /** The states of some processes change, without exits; only the current process may start to run, and a process
      that waits did so before, for the same target. */
  ghost predicate StatesChanged(s: Sys, procs': seq<Proc>) {
    && Similar(s.procs, procs')
    && forall i :: 0 <= i < |procs'| ==>
         && (procs'[i].state == Running ==> procs'[i].pid == s.current)
         && (procs'[i].state == Waiting ==>
               procs'[i].state == s.procs[i].state && procs'[i].target == s.procs[i].target)
  }

  lemma StatesChangedKeepsInv(h: History, procs': seq<Proc>)
    requires Inv(h) && StatesChanged(h.sys, procs')
    ensures Inv(h.(sys := h.sys.(procs := procs')))
  {
    SimilarRegistered(h.sys.procs, procs', h.sys.current);
    hide ExitsRecorded, ReapedOnce, Conserved, HasChild, NoZombie, Registered, IndexOf;
    SimilarKeepsInv(h, h.sys.(procs := procs'));
  }

  lemma BlockOnKeepsInv(h: History, ch: nat)
    requires Inv(h) && Enabled(h.sys, BlockOn(ch))
    ensures Inv(Step(h, BlockOn(ch)))
  {
    StatesChangedKeepsInv(h, BlockedOn(h.sys.procs, Me(h.sys), ch));
  }

  lemma UnblockedStates(s: Sys, j: nat)
    requires SingleRunning(s) && j < |s.procs|
    ensures StatesChanged(s, Unblocked(s.procs, j, s.current))
  {
  }

  lemma UnblockKeepsInv(h: History, pid: nat)
    requires Inv(h)
    ensures Inv(Step(h, Unblock(pid)))
  {
    var j := IndexOf(h.sys.procs, pid);
    if j < |h.sys.procs| {
      UnblockedStates(h.sys, j);
      hide NoLostWakeup, ExitsRecorded, ReapedOnce, Conserved, IndexOf, Unblocked, StatesChanged, SingleRunning,
           UniquePids, PidsBelow, Registered;
      StatesChangedKeepsInv(h, Unblocked(h.sys.procs, j, h.sys.current));
    }
  }

  lemma WakeKeepsInv(h: History, ch: nat)
    requires Inv(h)
    ensures Inv(Step(h, Wake(ch)))
  {
    hide NoLostWakeup, ExitsRecorded, ReapedOnce, Conserved, IndexOf, WokenAll;
    StatesChangedKeepsInv(h, WokenAll(h.sys.procs, ch, h.sys.current, |h.sys.procs|));
  }

  /** Giving up the processor leaves nobody running. */
  lemma YieldedStates(s: Sys)
    requires Ids(s) && SingleRunning(s)
    ensures StatesChanged(s, Yielded(s.procs, s.current))
    ensures forall i :: 0 <= i < |s.procs| ==> Yielded(s.procs, s.current)[i].state != Running
  {
    if s.current == 0 {
    } else {
      var m := Me(s);
      assert forall i :: 0 <= i < |s.procs| && i != m ==> s.procs[i].pid != s.current;
    }
  }

  lemma SwitchKeepsInv(h: History, i: nat)
    requires Inv(h) && i < |h.sys.procs| && CanRun(h.sys.procs[i].state)
    requires forall j :: 0 <= j < |h.sys.procs| ==> h.sys.procs[j].state != Running
    ensures var s := h.sys;
            Inv(h.(sys := s.(procs := WithState(s.procs, i, Running), last := After(i, |s.procs|),
                             current := s.procs[i].pid)))
  {
    var s := h.sys;
    var s' := s.(procs := WithState(s.procs, i, Running), last := After(i, |s.procs|), current := s.procs[i].pid);
    assert s'.procs[i].pid == s'.current;
    hide ExitsRecorded, ReapedOnce, Conserved, HasChild, NoZombie, IndexOf, After;
    SimilarKeepsInv(h, s');
  }

  lemma ScheduleKeepsInv(h: History)
    requires Inv(h)
    ensures Inv(h.(sys := Scheduled(h.sys)))
  {
    var s := h.sys;
    var procs := Yielded(s.procs, s.current);
    YieldedStates(s);
    StatesChangedKeepsInv(h, procs);
    assert s.procs == [] || s.last < |s.procs|;
    hide NoLostWakeup, ExitsRecorded, ReapedOnce, Conserved, SingleRunning, Pick, Yielded, After, Inv, StatesChanged,
         IndexOf, CanRun, WithState;
    var i := Pick(procs, s.last);
    if i < |procs| {
      SwitchKeepsInv(h.(sys := s.(procs := procs)), i);
    }
  }

  /** Scheduling in s selects the process at index i: it was ready or running, everybody between last and i was
      stopped, and of the others only the state of a running one changes. */
  ghost predicate SelectedAt(s: Sys, s': Sys, i: nat) {
    && i < |s.procs| == |s'.procs| && (s.procs[i].state == Ready || s.procs[i].state == Running)
    && s'.current == s.procs[i].pid && s'.procs[i] == s.procs[i].(state := Running)
    && s'.last == (if i == |s.procs| - 1 then 0 else i + 1) && s'.nextPid == s.nextPid
    && (forall j :: 0 <= j < |s.procs| && j != i ==>
          s'.procs[j] == if s.procs[j].state == Running then s.procs[j].(state := Ready) else s.procs[j])
    && (forall j :: 0 <= j < |s.procs| && ScannedBefore(s.last, j, i) ==>
          s.procs[j].state == Blocked || s.procs[j].state == Zombie || s.procs[j].state == Waiting)
  }

  /** Scheduling selects a process exactly if one is ready or running; the selected one is the first of these in
      scanning order.  Blocked, waiting and exited processes are never selected. */
  lemma ScheduleSelects(s: Sys)
    requires Ids(s) && SingleRunning(s)
    ensures var s' := Scheduled(s);
            if exists i :: 0 <= i < |s.procs| && (s.procs[i].state == Ready || s.procs[i].state == Running) then
              Me(s') < |s'.procs| && SelectedAt(s, s', Me(s'))
            else s' == s
  {
    hide Pick, After, ScannedBefore, Yielded, IndexOf, SelectedAt, UniquePids, PidsBelow, SingleRunning, Registered;
    var procs := Yielded(s.procs, s.current);
    YieldedRest(s);
    var i := Pick(procs, s.last);
    if i < |procs| {
      SelectedBy(s, procs, i);
      SelectedIndex(s, procs, i);
      assert s.procs[i].state == Ready || s.procs[i].state == Running;
    } else {
      forall j | 0 <= j < |s.procs| ensures s.procs[j].state != Ready && s.procs[j].state != Running {
        PickSkips(procs, s.last, j);
      }
      assert procs == s.procs;
    }
  }

  lemma SelectedBy(s: Sys, procs: seq<Proc>, i: nat)
    requires |procs| == |s.procs| && s.last < |procs| && i == Pick(procs, s.last) < |procs|
    requires forall j :: 0 <= j < |s.procs| ==>
               procs[j] == if s.procs[j].state == Running then s.procs[j].(state := Ready) else s.procs[j]
    ensures SelectedAt(s, s.(procs := WithState(procs, i, Running), last := After(i, |procs|), current := procs[i].pid),
                       i)
  {
    hide Pick, After, ScannedBefore;
    AfterIs(i, |procs|);
    forall j | 0 <= j < |procs| && ScannedBefore(s.last, j, i)
      ensures s.procs[j].state == Blocked || s.procs[j].state == Zombie || s.procs[j].state == Waiting
    {
      PickSkips(procs, s.last, j);
    }
  }

  lemma SelectedIndex(s: Sys, procs: seq<Proc>, i: nat)
    requires UniquePids(s.procs) && |procs| == |s.procs| && i < |procs|
    requires forall j :: 0 <= j < |procs| ==> procs[j].pid == s.procs[j].pid
    ensures IndexOf(WithState(procs, i, Running), procs[i].pid) == i
  {
    var r := WithState(procs, i, Running);
    assert r[i].pid == procs[i].pid;
    assert forall j :: 0 <= j < |procs| && j != i ==> r[j].pid != procs[i].pid;
  }

  /** Giving up the processor makes a running process ready and changes nothing else. */
  lemma YieldedRest(s: Sys)
    requires Ids(s) && SingleRunning(s)
    ensures var r := Yielded(s.procs, s.current);
            forall j :: 0 <= j < |s.procs| ==>
              r[j] == if s.procs[j].state == Running then s.procs[j].(state := Ready) else s.procs[j]
  {
    var m := Me(s);
    assert forall j :: 0 <= j < |s.procs| && s.procs[j].state == Running ==> s.procs[j].pid == s.current;
    assert forall j :: 0 <= j < |s.procs| && s.procs[j].pid == s.current ==> j == m;
  }

  lemma AllLooked(procs: seq<Proc>, parent: nat, t: int)
    requires FirstZombie(procs, parent, t, 0) == |procs|
    ensures NoZombie(procs, parent, t)
  {
  }

  /** Waiting again, or finding no child, keeps the invariant; the scan itself has looked at every child. */
  lemma ScanKeepsInv(h: History, i: nat, t: int)
    requires Inv(h) && i < |h.sys.procs| && h.sys.procs[i].pid == h.sys.current && h.sys.procs[i].state != Zombie
    requires !WaitScan(h.sys, i, t).1.Reaped?
    ensures Inv(h.(sys := WaitScan(h.sys, i, t).0))
  {
    hide ExitsRecorded, ReapedOnce, Conserved, FirstZombie, HasChild, NoZombie, UniquePids, PidsBelow, Registered,
         Removed;
    var s := h.sys;
    var s' := WaitScan(s, i, t).0;
    SimilarRegistered(s.procs, s'.procs, s.current);
    AllLooked(s.procs, s.procs[i].pid, t);
    SimilarKeepsInv(h, s');
  }

  // ----- Creation -----

  lemma AppendRegistered(procs: seq<Proc>, p: Proc, pid: nat)
    ensures Registered(procs + [p], pid) <==> Registered(procs, pid) || pid == p.pid
  {
    var procs' := procs + [p];
    if i :| 0 <= i < |procs| && procs[i].pid == pid { assert procs'[i].pid == pid; }
    if pid == p.pid { assert procs'[|procs|].pid == pid; }
  }

  lemma AppendWaits(procs: seq<Proc>, p: Proc)
    requires NoLostWakeup(procs) && p.state == Ready
    ensures NoLostWakeup(procs + [p])
  {
    var procs' := procs + [p];
    forall i | 0 <= i < |procs'| && procs'[i].state == Waiting
      ensures procs'[i].target.Some? && HasChild(procs', procs'[i].pid, procs'[i].target.value) &&
              NoZombie(procs', procs'[i].pid, procs'[i].target.value)
    {
      var c :| 0 <= c < |procs| && Matches(procs[c], procs[i].pid, procs[i].target.value);
      assert Matches(procs'[c], procs[i].pid, procs[i].target.value);
    }
  }

  lemma CreatedKeepsIds(s: Sys, ppid: nat)
    requires Ids(s) && SingleRunning(s) && ppid < s.nextPid
    ensures Ids(Created(s, ppid)) && SingleRunning(Created(s, ppid))
  {
    var s' := Created(s, ppid);
    AppendRegistered(s.procs, Proc(s.nextPid, ppid, Ready, 0, 0, None), s.current);
    hide Registered;
  }

  lemma CreatedKeepsExits(h: History, ppid: nat)
    requires Inv(h) && ppid < h.sys.nextPid
    ensures ExitsRecorded(NewProcess(h, ppid))
  {
    hide Registered, NoLostWakeup, ReapedOnce, Conserved, UniquePids, SingleRunning;
  }

  lemma CreatedKeepsLog(h: History, ppid: nat)
    requires Inv(h) && ppid < h.sys.nextPid
    ensures ReapedOnce(NewProcess(h, ppid))
  {
    var h' := NewProcess(h, ppid);
    hide NoLostWakeup, Conserved, UniquePids, PidsBelow, SingleRunning;
    forall k | 0 <= k < |h.reaped|
      ensures var r := h.reaped[k];
              r.pid in h.exits && h.exits[r.pid] == r.code && r.pid in h'.parents && h'.parents[r.pid] == r.parent &&
                !Registered(h'.sys.procs, r.pid)
    {
      assert h.reaped[k].pid in h.exits;
      AppendRegistered(h.sys.procs, Proc(h.sys.nextPid, ppid, Ready, 0, 0, None), h.reaped[k].pid);
    }
  }

  lemma NextIsNew(s: Sys)
    requires PidsBelow(s.procs, s.nextPid)
    ensures !Registered(s.procs, s.nextPid)
  {
  }

  lemma CreatedConserves(h: History, ppid: nat)
    requires Inv(h) && ppid < h.sys.nextPid
    ensures Conserved(NewProcess(h, ppid))
  {
    hide Registered, WasReaped, IndexOf, NoLostWakeup, ReapedOnce, UniquePids, SingleRunning;
    var h' := NewProcess(h, ppid);
    forall pid: nat
      ensures Registered(h'.sys.procs, pid) <==>
        Registered(h.sys.procs, pid) || (|h.sys.procs| < MAX_PROCESSES && pid == h.sys.nextPid)
    {
      AppendRegistered(h.sys.procs, Proc(h.sys.nextPid, ppid, Ready, 0, 0, None), pid);
    }
    NextIsNew(h.sys);
  }

  lemma CreateKeepsInv(h: History, ppid: nat)
    requires Inv(h) && ppid < h.sys.nextPid
    ensures Inv(NewProcess(h, ppid))
  {
    CreatedKeepsIds(h.sys, ppid);
    CreatedKeepsExits(h, ppid);
    CreatedKeepsLog(h, ppid);
    CreatedConserves(h, ppid);
    AppendWaits(h.sys.procs, Proc(h.sys.nextPid, ppid, Ready, 0, 0, None));
    hide Ids, SingleRunning, ExitsRecorded, ReapedOnce, Conserved, NoLostWakeup;
  }

  lemma LostPidKeepsInv(h: History)
    requires Inv(h)
    ensures Inv(LostPid(h))
  {
    hide Registered, NoLostWakeup, UniquePids, WasReaped;
    NextIsNew(h.sys);
  }

  // ----- Exit -----

  /** An exit makes one process a zombie and, of all others, changes at most the state of its parent. */
  lemma ExitedEffect(s: Sys, i: nat, code: int)
    requires Ids(s) && i < |s.procs| && s.procs[i].state == Running
    ensures var r := Exited(s.procs, i, code);
            && r[i] == s.procs[i].(state := Zombie, exitCode := code)
            && forall j :: 0 <= j < |r| && j != i ==>
                 r[j] == if s.procs[j].pid == s.procs[i].ppid && s.procs[j].state == Waiting
                         then s.procs[j].(state := Ready) else s.procs[j]
  {
    var procs := s.procs[i := s.procs[i].(state := Zombie, exitCode := code)];
    var k := IndexOf(procs, s.procs[i].ppid);
    if k < |procs| {
      assert forall j :: 0 <= j < |procs| && procs[j].pid == s.procs[i].ppid ==> j == k;
    }
  }

  lemma ExitKeepsWaits(s: Sys, i: nat, code: int)
    requires Ids(s) && i < |s.procs| && s.procs[i].state == Running && NoLostWakeup(s.procs)
    ensures NoLostWakeup(Exited(s.procs, i, code))
  {
    ExitedEffect(s, i, code);
    hide Exited;
    var r := Exited(s.procs, i, code);
    forall j | 0 <= j < |r| && r[j].state == Waiting
      ensures r[j].target.Some? && HasChild(r, r[j].pid, r[j].target.value) && NoZombie(r, r[j].pid, r[j].target.value)
    {
      assert r[j] == s.procs[j] && s.procs[j].pid != s.procs[i].ppid;
      var c :| 0 <= c < |s.procs| && Matches(s.procs[c], s.procs[j].pid, s.procs[j].target.value);
      assert Matches(r[c], r[j].pid, r[j].target.value);
    }
  }

  lemma ExitKeepsRegistered(s: Sys, i: nat, code: int, pid: nat)
    requires Ids(s) && i < |s.procs| && s.procs[i].state == Running
    ensures Registered(Exited(s.procs, i, code), pid) <==> Registered(s.procs, pid)
  {
    ExitedEffect(s, i, code);
    hide Exited;
    var r := Exited(s.procs, i, code);
    if j :| 0 <= j < |r| && r[j].pid == pid { assert s.procs[j].pid == pid; }
    if j :| 0 <= j < |r| && s.procs[j].pid == pid { assert r[j].pid == pid; }
  }

  lemma ExitKeepsExits(h: History, i: nat, code: int)
    requires Inv(h) && i < |h.sys.procs| && h.sys.procs[i].state == Running
    ensures ExitsRecorded(h.(sys := h.sys.(procs := Exited(h.sys.procs, i, code)),
                             exits := h.exits[h.sys.procs[i].pid := code]))
  {
    hide Exited, NoLostWakeup, ReapedOnce, Conserved, IndexOf, Registered, SingleRunning, WakeParent;
    ExitedEffect(h.sys, i, code);
    var r, exits' := Exited(h.sys.procs, i, code), h.exits[h.sys.procs[i].pid := code];
    forall j | 0 <= j < |r|
      ensures && r[j].pid in h.parents && h.parents[r[j].pid] == r[j].ppid
              && (r[j].state == Zombie <==> r[j].pid in exits')
              && (r[j].state == Zombie ==> exits'[r[j].pid] == r[j].exitCode)
    {
      assert j != i ==> h.sys.procs[j].pid != h.sys.procs[i].pid;
    }
  }

  lemma ExitKeepsLog(h: History, i: nat, code: int)
    requires Inv(h) && i < |h.sys.procs| && h.sys.procs[i].state == Running
    ensures var h' := h.(sys := h.sys.(procs := Exited(h.sys.procs, i, code)),
                         exits := h.exits[h.sys.procs[i].pid := code]);
            ReapedOnce(h') && Conserved(h')
  {
    hide Exited, NoLostWakeup, ExitsRecorded, IndexOf, SingleRunning;
    var r := Exited(h.sys.procs, i, code);
    assert Registered(h.sys.procs, h.sys.procs[i].pid);
    forall pid: nat ensures Registered(r, pid) <==> Registered(h.sys.procs, pid) {
      ExitKeepsRegistered(h.sys, i, code, pid);
    }
    hide Registered, WasReaped, UniquePids, PidsBelow;
  }

  lemma ExitKeepsInv(h: History, i: nat, code: int)
    requires Inv(h) && i < |h.sys.procs| && h.sys.procs[i].state == Running && h.sys.procs[i].pid == h.sys.current
    ensures Inv(h.(sys := h.sys.(procs := Exited(h.sys.procs, i, code)), exits := h.exits[h.sys.current := code]))
  {
    hide Exited, NoLostWakeup, ExitsRecorded, ReapedOnce, Conserved, Registered;
    ExitKeepsExits(h, i, code);
    ExitKeepsLog(h, i, code);
    ExitKeepsWaits(h.sys, i, code);
    ExitedEffect(h.sys, i, code);
    ExitKeepsRegistered(h.sys, i, code, h.sys.current);
  }

  // ----- Reaping -----

  lemma RemovedRegistered(procs: seq<Proc>, z: nat, pid: nat)
    requires z < |procs| && UniquePids(procs)
    ensures Registered(Removed(procs, z), pid) <==> Registered(procs, pid) && pid != procs[z].pid
  {
    var r := Removed(procs, z);
    if j :| 0 <= j < |r| && r[j].pid == pid { assert procs[if j < z then j else j + 1].pid == pid; }
    if j :| 0 <= j < |procs| && procs[j].pid == pid && j != z { assert r[if j < z then j else j - 1].pid == pid; }
  }

  /** What the reaping scan of process i does to the table. */
  function ReapedTable(procs: seq<Proc>, i: nat, z: nat): (r: seq<Proc>)
    requires i < |procs| && z < |procs|
    ensures |r| == |procs| - 1
  {
    Removed(procs[i := procs[i].(state := Running, target := None)], z)
  }

  lemma ReapedTableAt(procs: seq<Proc>, i: nat, z: nat, j: nat)
    requires i < |procs| && z < |procs| && j < |procs| - 1
    ensures var j' := if j < z then j else j + 1;
            ReapedTable(procs, i, z)[j] == if j' == i then procs[i].(state := Running, target := None) else procs[j']
  {
  }

  lemma ReapKeepsZombies(procs: seq<Proc>, i: nat, z: nat, parent: nat, target: int)
    requires i < |procs| && z < |procs| && NoZombie(procs, parent, target)
    ensures NoZombie(ReapedTable(procs, i, z), parent, target)
  {
    var r := ReapedTable(procs, i, z);
    forall d | 0 <= d < |r| && Matches(r[d], parent, target) ensures r[d].state != Zombie {
      ReapedTableAt(procs, i, z, d);
      assert Matches(procs[if d < z then d else d + 1], parent, target);
    }
  }

  lemma ReapKeepsChild(procs: seq<Proc>, i: nat, z: nat, parent: nat, target: int)
    requires i < |procs| && z < |procs| && HasChild(procs, parent, target) && procs[z].ppid != parent
    ensures HasChild(ReapedTable(procs, i, z), parent, target)
  {
    var c :| 0 <= c < |procs| && Matches(procs[c], parent, target);
    var c' := if c < z then c else c - 1;
    ReapedTableAt(procs, i, z, c');
    assert Matches(ReapedTable(procs, i, z)[c'], parent, target);
  }

  /** The parent of z that reaps it is not waiting any more; no other process waits for z. */
  lemma ReapKeepsWaits(procs: seq<Proc>, i: nat, z: nat)
    requires i < |procs| && z < |procs| && i != z && UniquePids(procs) && NoLostWakeup(procs)
    requires procs[z].ppid == procs[i].pid
    ensures NoLostWakeup(ReapedTable(procs, i, z))
  {
    hide HasChild, NoZombie, ReapedTable;
    var r := ReapedTable(procs, i, z);
    forall j | 0 <= j < |r| && r[j].state == Waiting
      ensures r[j].target.Some? && HasChild(r, r[j].pid, r[j].target.value) && NoZombie(r, r[j].pid, r[j].target.value)
    {
      ReapedTableAt(procs, i, z, j);
      ReapKeepsChild(procs, i, z, r[j].pid, r[j].target.value);
      ReapKeepsZombies(procs, i, z, r[j].pid, r[j].target.value);
    }
  }

  lemma ReapKeepsIds(s: Sys, i: nat, z: nat)
    requires Ids(s) && SingleRunning(s) && i < |s.procs| && z < |s.procs| && i != z && s.procs[i].pid == s.current
    ensures var s' := s.(procs := ReapedTable(s.procs, i, z), last := LastAfterRemoval(s.last, |s.procs| - 1));
            Ids(s') && SingleRunning(s')
  {
    var s' := s.(procs := ReapedTable(s.procs, i, z), last := LastAfterRemoval(s.last, |s.procs| - 1));
    forall j | 0 <= j < |s'.procs|
      ensures var j' := if j < z then j else j + 1;
              s'.procs[j] == if j' == i then s.procs[i].(state := Running, target := None) else s.procs[j']
    {
      ReapedTableAt(s.procs, i, z, j);
    }
    assert s'.procs[if i < z then i else i - 1].pid == s'.current;
    hide ReapedTable;
  }

  lemma ReapedTableRegistered(procs: seq<Proc>, i: nat, z: nat, pid: nat)
    requires i < |procs| && z < |procs| && UniquePids(procs)
    ensures Registered(ReapedTable(procs, i, z), pid) <==> Registered(procs, pid) && pid != procs[z].pid
  {
    var procs' := procs[i := procs[i].(state := Running, target := None)];
    RemovedRegistered(procs', z, pid);
    SimilarPids(procs, procs', pid);
  }

  lemma SimilarPids(procs: seq<Proc>, procs': seq<Proc>, pid: nat)
    requires |procs'| == |procs| && forall i :: 0 <= i < |procs| ==> procs'[i].pid == procs[i].pid
    ensures Registered(procs', pid) <==> Registered(procs, pid)
  {
    if j :| 0 <= j < |procs| && procs'[j].pid == pid { assert procs[j].pid == pid; }
    if j :| 0 <= j < |procs| && procs[j].pid == pid { assert procs'[j].pid == pid; }
  }

  lemma ReapKeepsExits(h: History, s': Sys, i: nat, z: nat)
    requires Inv(h) && i < |h.sys.procs| && z < |h.sys.procs| && i != z && h.sys.procs[i].state != Zombie
    requires s'.procs == ReapedTable(h.sys.procs, i, z) && s'.nextPid == h.sys.nextPid
    ensures ExitsRecorded(h.(sys := s'))
  {
    hide NoLostWakeup, ReapedOnce, Conserved;
    forall j | 0 <= j < |s'.procs|
      ensures var p := s'.procs[j];
              && p.pid in h.parents && h.parents[p.pid] == p.ppid
              && (p.state == Zombie <==> p.pid in h.exits) && (p.state == Zombie ==> h.exits[p.pid] == p.exitCode)
    {
      var q := h.sys.procs[if j < z then j else j + 1];
      assert s'.procs[j].pid == q.pid;
    }
  }

  lemma ReapedAppend(reaped: seq<Reap>, r: Reap, pid: nat)
    ensures WasReaped(reaped + [r], pid) <==> WasReaped(reaped, pid) || pid == r.pid
  {
    var reaped' := reaped + [r];
    if k :| 0 <= k < |reaped| && reaped[k].pid == pid { assert reaped'[k].pid == pid; }
    if pid == r.pid { assert reaped'[|reaped|].pid == pid; }
  }

  /** The zombie moves from the table to the log. */
  lemma ReapConserves(h: History, s': Sys, i: nat, z: nat, r: Reap)
    requires Inv(h) && i < |h.sys.procs| && z < |h.sys.procs| && r.pid == h.sys.procs[z].pid
    requires h.sys.procs[z].state == Zombie
    requires r == Reap(h.sys.procs[z].ppid, h.sys.procs[z].pid, h.sys.procs[z].exitCode)
    requires s'.procs == ReapedTable(h.sys.procs, i, z) && s'.nextPid == h.sys.nextPid
    ensures Conserved(h.(sys := s', reaped := h.reaped + [r])) && ReapedOnce(h.(sys := s', reaped := h.reaped + [r]))
  {
    var reaped' := h.reaped + [r];
    assert UniquePids(h.sys.procs);
    assert Registered(h.sys.procs, r.pid);
    forall pid: nat
      ensures Registered(s'.procs, pid) <==> Registered(h.sys.procs, pid) && pid != r.pid
      ensures WasReaped(reaped', pid) <==> WasReaped(h.reaped, pid) || pid == r.pid
    {
      ReapedTableRegistered(h.sys.procs, i, z, pid);
      ReapedAppend(h.reaped, r, pid);
    }
    hide Registered, WasReaped, NoLostWakeup, IndexOf, ReapedTable;
  }

  /** The parent that reaps is the current process, and the zombie is another one. */
  lemma ReapApart(s: Sys, t: int)
    requires Ids(s) && Enabled(s, Wait(t)) && WaitScan(s, Me(s), t).1.Reaped?
    ensures var i := Me(s);
            var z := FirstZombie(s.procs, s.current, t, 0);
            && i < |s.procs| && s.procs[i].pid == s.current && s.procs[i].state != Zombie
            && z < |s.procs| && s.procs[z].state == Zombie && s.procs[z].ppid == s.current && i != z
            && WaitScan(s, i, t) == (s.(procs := ReapedTable(s.procs, i, z),
                                        last := LastAfterRemoval(s.last, |s.procs| - 1)),
                                     Reaped(s.procs[z].pid, s.procs[z].exitCode))
  {
  }

  lemma ReapKeepsInv(h: History, i: nat, z: nat)
    requires Inv(h) && i < |h.sys.procs| && h.sys.procs[i].pid == h.sys.current && h.sys.procs[i].state != Zombie
    requires z < |h.sys.procs| && h.sys.procs[z].state == Zombie && h.sys.procs[z].ppid == h.sys.current && i != z
    ensures var s := h.sys;
            Inv(h.(sys := s.(procs := ReapedTable(s.procs, i, z), last := LastAfterRemoval(s.last, |s.procs| - 1)),
                   reaped := h.reaped + [Reap(s.current, s.procs[z].pid, s.procs[z].exitCode)]))
  {
    hide SingleRunning, NoLostWakeup, ReapedOnce, Conserved, ReapedTable, UniquePids, PidsBelow, Registered;
    var s := h.sys;
    var s' := s.(procs := ReapedTable(s.procs, i, z), last := LastAfterRemoval(s.last, |s.procs| - 1));
    ReapKeepsWaits(s.procs, i, z);
    ReapKeepsIds(s, i, z);
    ReapKeepsExits(h, s', i, z);
    ReapConserves(h, s', i, z, Reap(s.current, s.procs[z].pid, s.procs[z].exitCode));
  }

  lemma WaitKeepsInv(h: History, t: int)
    requires Inv(h) && Enabled(h.sys, Wait(t))
    ensures Inv(Step(h, Wait(t)))
  {
    hide SingleRunning, NoLostWakeup, ExitsRecorded, ReapedOnce, Conserved, IndexOf, FirstZombie, ReapedTable,
         UniquePids, PidsBelow, Registered;
    if WaitScan(h.sys, Me(h.sys), t).1.Reaped? {
      ReapApart(h.sys, t);
      ReapKeepsInv(h, Me(h.sys), FirstZombie(h.sys.procs, h.sys.current, t, 0));
    } else {
      ScanKeepsInv(h, Me(h.sys), t);
    }
  }

  // ----- All runs -----

  lemma StepKeepsInv(h: History, e: Event)
    requires Inv(h) && Enabled(h.sys, e)
    ensures Inv(Step(h, e)) && h.reaped <= Step(h, e).reaped
  {
    hide SingleRunning, NoLostWakeup, ExitsRecorded, ReapedOnce, Conserved;
    match e
    case Create => CreateKeepsInv(h, 0);
    case Fork => CreateKeepsInv(h, h.sys.current);
    case CreationFails => LostPidKeepsInv(h);
    case Exit(code) => ExitKeepsInv(h, Me(h.sys), code);
    case Wait(t) => WaitKeepsInv(h, t);
    case BlockOn(ch) => BlockOnKeepsInv(h, ch);
    case Unblock(pid) => UnblockKeepsInv(h, pid);
    case Wake(ch) => WakeKeepsInv(h, ch);
    case Schedule => ScheduleKeepsInv(h);
  }

  ghost predicate Steps(h: History, e: Event, h': History) {
    Enabled(h.sys, e) && (h.sys.procs == [] || h.sys.last < |h.sys.procs|) && h' == Step(h, e)
  }

  /** The states of a run and the events between them. */
  ghost predicate IsRun(hs: seq<History>, events: seq<Event>) {
    |hs| == |events| + 1 && forall k :: 0 <= k < |events| ==> Steps(hs[k], events[k], hs[k + 1])
  }

  /** Every state of every run satisfies the invariant, and no successful wait is forgotten. */
  lemma {:induction false} RunKeepsInv(hs: seq<History>, events: seq<Event>, j: nat, k: nat)
    requires IsRun(hs, events) && Inv(hs[0]) && j <= k < |hs|
    ensures Inv(hs[k]) && hs[j].reaped <= hs[k].reaped
  {
    hide Inv, Step, Enabled;
    if j < k {
      RunKeepsInv(hs, events, j, k - 1);
      assert Steps(hs[k - 1], events[k - 1], hs[k - 1 + 1]);
      StepKeepsInv(hs[k - 1], events[k - 1]);
    } else if 0 < k {
      RunKeepsInv(hs, events, k - 1, k - 1);
      assert Steps(hs[k - 1], events[k - 1], hs[k - 1 + 1]);
      StepKeepsInv(hs[k - 1], events[k - 1]);
    }
  }

  /** Once a child has been reaped, no wait in any later state of any run finds it again: a wait for its pid returns
      that there is no such child, and no wait returns its pid. */
  lemma ReapedForGood(hs: seq<History>, events: seq<Event>, j: nat, k: nat, n: nat, i: nat, target: int)
    requires IsRun(hs, events) && Inv(hs[0]) && j <= k < |hs| && n < |hs[j].reaped| && i < |hs[k].sys.procs|
    ensures var pid, r := hs[j].reaped[n].pid, WaitScan(hs[k].sys, i, target).1;
            (target == pid ==> r == NoChild) && (r.Reaped? ==> r.pid != pid)
  {
    RunKeepsInv(hs, events, j, k);
    assert hs[k].reaped[n] == hs[j].reaped[n];
    hide IsRun, NoLostWakeup, SingleRunning, Conserved, UniquePids, PidsBelow;
    assert !Registered(hs[k].sys.procs, hs[j].reaped[n].pid);
  }

  /** In every state of every run, the current process changes only when it is scheduled away, and the process that
      becomes current was ready: no blocked, waiting or exited process becomes current, and none of them is changed by
      scheduling. */
  lemma OnlyReadyBecomeCurrent(hs: seq<History>, events: seq<Event>, k: nat)
    requires IsRun(hs, events) && Inv(hs[0]) && k < |events|
    ensures var s, s' := hs[k].sys, hs[k + 1].sys;
            && (s'.current != s.current ==> events[k] == Schedule && Me(s') < |s.procs| == |s'.procs| &&
                                            s.procs[Me(s')].state == Ready && s.procs[Me(s')].pid == s'.current)
            && (events[k] == Schedule ==>
                  |s'.procs| == |s.procs| &&
                  forall j | 0 <= j < |s.procs| && s.procs[j].state in {Blocked, Zombie, Waiting} ::
                    s'.procs[j] == s.procs[j] && (s'.current == s.procs[j].pid ==> s == s'))
  {
    RunKeepsInv(hs, events, k, k);
    assert Steps(hs[k], events[k], hs[k + 1]);
    hide IsRun, Inv, Step, Enabled, Scheduled;
    if events[k] == Schedule {
      ScheduleStep(hs[k]);
    } else {
      StepKeepsCurrent(hs[k], events[k]);
    }
  }

  lemma StepKeepsCurrent(h: History, e: Event)
    requires Inv(h) && Enabled(h.sys, e) && !e.Schedule?
    ensures Step(h, e).sys.current == h.sys.current
  {
    hide NoLostWakeup, ExitsRecorded, ReapedOnce, Conserved, SingleRunning, UniquePids, PidsBelow, Pick, FirstZombie,
         HasChild, Removed, WokenAll, Unblocked, BlockedOn, Exited, Yielded, After, WithState, IndexOf;
  }

  lemma ScheduleStep(h: History)
    requires Inv(h)
    ensures Step(h, Schedule).sys == Scheduled(h.sys)
    ensures var s, s' := h.sys, Scheduled(h.sys);
            && (s'.current != s.current ==> Me(s') < |s.procs| == |s'.procs| && s.procs[Me(s')].state == Ready &&
                                            s.procs[Me(s')].pid == s'.current)
            && |s'.procs| == |s.procs|
            && forall j | 0 <= j < |s.procs| && s.procs[j].state in {Blocked, Zombie, Waiting} ::
                 s'.procs[j] == s.procs[j] && (s'.current == s.procs[j].pid ==> s == s')
  {
    hide NoLostWakeup, ExitsRecorded, ReapedOnce, Conserved, Scheduled, PidsBelow, IndexOf, ScannedBefore;
    ScheduleSelects(h.sys);
  }

  // ----- What the other steps do, state by state -----

  /** The result of a scan: a reaped child if there is an exited one to ask for, no child if there is none at all, and
      otherwise the process waits.  Targets of at most 0 ask for any child. */
  lemma WaitOutcome(s: Sys, i: nat, t: int)
    requires i < |s.procs|
    ensures var me := s.procs[i].pid;
            var (s', r) := WaitScan(s, i, t);
            && (r.Reaped? <==> exists c :: 0 <= c < |s.procs| && s.procs[c].ppid == me &&
                                           (t <= 0 || s.procs[c].pid == t) && s.procs[c].state == Zombie)
            && (r == NoChild <==> forall c :: 0 <= c < |s.procs| && s.procs[c].ppid == me ==>
                                                t > 0 && s.procs[c].pid != t)
            && (r == NoChild ==> s' == s.(procs := s.procs[i := s.procs[i].(state := Running, target := None)]))
            && (r == Retry ==> s' == s.(procs := s.procs[i := s.procs[i].(state := Waiting, target := Some(t))]))
  {
    hide Removed, LastAfterRemoval;
    var me := s.procs[i].pid;
    if HasChild(s.procs, me, t) {
      var c :| 0 <= c < |s.procs| && Matches(s.procs[c], me, t);
      assert s.procs[c].ppid == me;
    } else {
      forall c | 0 <= c < |s.procs| && s.procs[c].ppid == me ensures t > 0 && s.procs[c].pid != t {
        assert !Matches(s.procs[c], me, t);
      }
    }
    if c :| 0 <= c < |s.procs| && s.procs[c].ppid == me && (t <= 0 || s.procs[c].pid == t) &&
            s.procs[c].state == Zombie
    {
      assert Matches(s.procs[c], me, t);
    }
  }

  /** The process at index z is the first exited child that a wait call of the process at index i asks for. */
  ghost predicate FirstExitedChild(s: Sys, i: nat, t: int, z: nat)
    requires i < |s.procs|
  {
    && z < |s.procs| && s.procs[z].ppid == s.procs[i].pid && (t <= 0 || s.procs[z].pid == t)
    && s.procs[z].state == Zombie
    && forall c :: 0 <= c < z && s.procs[c].ppid == s.procs[i].pid && (t <= 0 || s.procs[c].pid == t) ==>
         s.procs[c].state != Zombie
  }

  /** A reaping scan takes the first exited child that is asked for out of the table; the others stay in order. */
  lemma WaitReaps(s: Sys, i: nat, t: int)
    requires i < |s.procs| && WaitScan(s, i, t).1.Reaped?
    ensures var (s', r) := WaitScan(s, i, t);
            exists z: nat :: FirstExitedChild(s, i, t, z) && r == Reaped(s.procs[z].pid, s.procs[z].exitCode) &&
              |s'.procs| == |s.procs| - 1 && s'.current == s.current && s'.nextPid == s.nextPid &&
              s'.last == (if s.last >= |s.procs| - 1 then 0 else s.last) &&
              forall j :: 0 <= j < |s'.procs| ==>
                var j' := if j < z then j else j + 1;
                s'.procs[j] == if j' == i then s.procs[i].(state := Running, target := None) else s.procs[j']
  {
    var z := FirstZombie(s.procs, s.procs[i].pid, t, 0);
    FirstZombieChild(s, i, t);
    hide FirstZombie, FirstExitedChild, HasChild;
    var s' := WaitScan(s, i, t).0;
    assert s'.procs == ReapedTable(s.procs, i, z);
    forall j | 0 <= j < |s'.procs|
      ensures var j' := if j < z then j else j + 1;
              s'.procs[j] == if j' == i then s.procs[i].(state := Running, target := None) else s.procs[j']
    {
      ReapedTableAt(s.procs, i, z, j);
    }
  }

  lemma FirstZombieChild(s: Sys, i: nat, t: int)
    requires i < |s.procs|
    ensures var z := FirstZombie(s.procs, s.procs[i].pid, t, 0); z < |s.procs| ==> FirstExitedChild(s, i, t, z)
  {
    var z := FirstZombie(s.procs, s.procs[i].pid, t, 0);
    forall c | 0 <= c < z && s.procs[c].ppid == s.procs[i].pid && (t <= 0 || s.procs[c].pid == t)
      ensures s.procs[c].state != Zombie
    {
      assert Matches(s.procs[c], s.procs[i].pid, t);
    }
  }

  /** Unblocking a process clears its channel and resumes it if it was blocked, as running exactly if it is the current
      process; nothing else changes. */
  lemma UnblockEffect(h: History, pid: nat)
    requires Ids(h.sys)
    ensures var s, s' := h.sys, Step(h, Unblock(pid)).sys;
            && s' == s.(procs := s'.procs) && |s'.procs| == |s.procs|
            && forall j :: 0 <= j < |s.procs| ==>
                 s'.procs[j] == if s.procs[j].pid != pid then s.procs[j]
                                else if s.procs[j].state != Blocked then s.procs[j].(channel := 0)
                                else if pid == s.current then s.procs[j].(channel := 0, state := Running)
                                else s.procs[j].(channel := 0, state := Ready)
  {
    var i := IndexOf(h.sys.procs, pid);
    assert forall j :: 0 <= j < |h.sys.procs| && j != i ==> h.sys.procs[j].pid != pid;
  }

  /** Waking a channel resumes exactly the processes that are blocked on it; afterwards nobody is. */
  lemma WakeEffect(h: History, ch: nat)
    requires Ids(h.sys) && ch != 0
    ensures var s, s' := h.sys, Step(h, Wake(ch)).sys;
            && s' == s.(procs := s'.procs) && |s'.procs| == |s.procs|
            && (forall j :: 0 <= j < |s.procs| && !(s.procs[j].state == Blocked && s.procs[j].channel == ch) ==>
                  s'.procs[j] == s.procs[j])
            && (forall j :: 0 <= j < |s.procs| && s.procs[j].state == Blocked && s.procs[j].channel == ch ==>
                  s'.procs[j] == s.procs[j].(channel := 0, state := if s.procs[j].pid == s.current then Running
                                                                    else Ready))
            && (forall j :: 0 <= j < |s.procs| ==> !(s'.procs[j].state == Blocked && s'.procs[j].channel == ch))
  {
    hide IndexOf;
    var r := WokenAll(h.sys.procs, ch, h.sys.current, |h.sys.procs|);
    assert Step(h, Wake(ch)).sys.procs == r;
    assert forall j :: 0 <= j < |r| ==> r[j] == Woken(h.sys.procs[j], ch, h.sys.current);
  }

  /** Block and unblock: a process that blocks on a channel and is woken through it runs on as before. */
  lemma BlockThenWake(h: History, ch: nat)
    requires Inv(h) && Enabled(h.sys, BlockOn(ch)) && ch != 0
    ensures var h' := Step(Step(h, BlockOn(ch)), Wake(ch));
            && h'.sys.current == h.sys.current
            && Me(h'.sys) == Me(h.sys) < |h'.sys.procs| == |h.sys.procs|
            && h'.sys.procs[Me(h.sys)] == h.sys.procs[Me(h.sys)].(channel := 0, state := Running)
  {
    hide NoLostWakeup, ExitsRecorded, ReapedOnce, Conserved, PidsBelow, Registered;
    BlockOnKeepsInv(h, ch);
    var h1 := Step(h, BlockOn(ch));
    WakeEffect(h1, ch);
    var i := Me(h.sys);
    assert h1.sys.procs[i].state == Blocked && h1.sys.procs[i].channel == ch;
    var r := Step(h1, Wake(ch)).sys.procs;
    assert forall j :: 0 <= j < |r| ==> r[j].pid == h.sys.procs[j].pid;
  }

  // ----- Orphans -----

  /** No process with this pid will ever be in the table again: it was reaped, or never queued. */
  ghost predicate Gone(h: History, pid: nat) {
    pid == 0 || WasReaped(h.reaped, pid) || pid in h.refused
  }

  lemma GoneNotRegistered(h: History, pid: nat)
    requires Inv(h) && Gone(h, pid)
    ensures !Registered(h.sys.procs, pid)
  {
  }

  /** A step adds to the record of waits and of lost pids, and only the current process reaps. */
  lemma StepRecords(h: History, e: Event, pid: nat)
    requires Inv(h) && Enabled(h.sys, e)
    ensures var h' := Step(h, e);
            && h.reaped <= h'.reaped && h.refused <= h'.refused && h.exits.Keys <= h'.exits.Keys
            && (pid in h.parents && pid < h.sys.nextPid ==> pid in h'.parents && h'.parents[pid] == h.parents[pid])
            && h.sys.nextPid <= h'.sys.nextPid
            && (h'.reaped == h.reaped ||
                (h'.reaped == h.reaped + [h'.reaped[|h.reaped|]] &&
                 Registered(h.sys.procs, h'.reaped[|h.reaped|].parent)))
  {
    hide NoLostWakeup, ExitsRecorded, ReapedOnce, Conserved, SingleRunning, UniquePids, PidsBelow, Pick, FirstZombie,
         HasChild, Removed, WokenAll, Unblocked, BlockedOn, Exited, Yielded, After, WithState;
  }

  lemma ReapedPrefix(a: seq<Reap>, b: seq<Reap>, pid: nat)
    requires a <= b && WasReaped(a, pid)
    ensures WasReaped(b, pid)
  {
    var k :| 0 <= k < |a| && a[k].pid == pid;
    assert b[k].pid == pid;
  }

  /** A registered process whose parent is not registered is not reaped in this step. */
  lemma NotReapedNow(h: History, e: Event, pid: nat)
    requires Inv(h) && Enabled(h.sys, e) && Inv(Step(h, e))
    requires Registered(h.sys.procs, pid) && pid in h.parents && !Registered(h.sys.procs, h.parents[pid])
    ensures !WasReaped(Step(h, e).reaped, pid)
  {
    hide NoLostWakeup, Conserved, SingleRunning, UniquePids, Step, Registered;
    StepRecords(h, e, pid);
    RegisteredBelow(h.sys, pid);
    var h' := Step(h, e);
    if k :| 0 <= k < |h'.reaped| && h'.reaped[k].pid == pid {
      assert false;
    }
  }

  lemma RegisteredBelow(s: Sys, pid: nat)
    requires PidsBelow(s.procs, s.nextPid) && Registered(s.procs, pid)
    ensures 0 < pid < s.nextPid
  {
  }

  /** An exited process without a parent to wait for it is still there after a step. */
  lemma OrphanStays(h: History, e: Event, pid: nat)
    requires Inv(h) && Enabled(h.sys, e) && Inv(Step(h, e)) && IsOrphan(h, pid)
    ensures IsOrphan(Step(h, e), pid)
  {
    hide NoLostWakeup, ReapedOnce, ExitsRecorded, SingleRunning, UniquePids, Step, Registered, WasReaped;
    var h' := Step(h, e);
    StepRecords(h, e, pid);
    RegisteredBelow(h.sys, pid);
    GoneNotRegistered(h, h.parents[pid]);
    NotReapedNow(h, e, pid);
    if WasReaped(h.reaped, h.parents[pid]) {
      ReapedPrefix(h.reaped, h'.reaped, h.parents[pid]);
    }
  }

  /** An exited process in the table whose parent is gone. */
  ghost predicate IsOrphan(h: History, pid: nat) {
    Registered(h.sys.procs, pid) && pid in h.exits && pid in h.parents && Gone(h, h.parents[pid])
  }

  ghost predicate IsZombie(procs: seq<Proc>, pid: nat) {
    exists i :: 0 <= i < |procs| && procs[i].pid == pid && procs[i].state == Zombie
  }

  /** An exited process whose parent was reaped, never queued or is 0 stays in the table, as a zombie, in every later
      state of every run: it takes up one of the places of the table for good. */
  lemma {:induction false} OrphanForGood(hs: seq<History>, events: seq<Event>, j: nat, k: nat, pid: nat)
    requires IsRun(hs, events) && Inv(hs[0]) && j <= k < |hs| && IsOrphan(hs[j], pid)
    ensures IsOrphan(hs[k], pid)
    ensures IsZombie(hs[k].sys.procs, pid)
  {
    hide Inv, Step, Enabled, IsOrphan;
    RunKeepsInv(hs, events, k, k);
    if j < k {
      OrphanForGood(hs, events, j, k - 1, pid);
      RunKeepsInv(hs, events, k - 1, k - 1);
      assert Steps(hs[k - 1], events[k - 1], hs[k - 1 + 1]);
      OrphanStays(hs[k - 1], events[k - 1], pid);
    }
    OrphanIsZombie(hs[k], pid);
  }

  lemma OrphanIsZombie(h: History, pid: nat)
    requires Inv(h) && IsOrphan(h, pid)
    ensures IsZombie(h.sys.procs, pid)
  {
    var i :| 0 <= i < |h.sys.procs| && h.sys.procs[i].pid == pid;
    assert h.sys.procs[i].state == Zombie;
  }
}
