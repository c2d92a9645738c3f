/** Who runs, for how long and at which priority: what the calls do to the turns of the processes. */
module KernelTurns {
  import opened SemSpec
  import opened KernelSpec
  import opened KernelInvariant
  import opened KernelRuns

  // ----- the quantum -----

  /** The lists when the current process, if it is to go `back`, queues up last on its level. */
  function Lists(k: Kernel, back: bool): (r: seq<seq<nat>>)
    requires Shape(k) && (back ==> k.current >= 0 && 0 <= k.procs[k.current].priority < PRIORITY_LEVELS)
    ensures |r| == PRIORITY_LEVELS
  {
    if back then var l := k.procs[k.current].priority; k.ready[l := k.ready[l] + [k.current]] else k.ready
  }

  predicate Runs(k: Kernel)
    requires Shape(k)
  {
    k.current >= 0 && k.procs[k.current].state == Running
  }

  /** Level `l` is the most urgent one that is not empty. */
  ghost predicate Foremost(lists: seq<seq<nat>>, l: nat) {
    l < |lists| && lists[l] != [] && forall j: nat :: j < l ==> lists[j] == []
  }

  /** Between the two states the processor was given to the head of the most urgent list, for 5 interrupts. */
  ghost predicate Switched(k: Kernel, k': Kernel, back: bool)
    requires Shape(k) && Shape(k') && (back ==> k.current >= 0 && 0 <= k.procs[k.current].priority < PRIORITY_LEVELS)
  {
    && k'.quantum == 5 && Runs(k')
    && (back && k'.current != k.current ==> k'.procs[k.current].state == Ready)
    && exists l: nat ::
         && Foremost(Lists(k, back), l)
         && k'.current == Lists(k, back)[l][0]
         && k'.ready == Lists(k, back)[l := Lists(k, back)[l][1..]]
  }

  lemma DispatchSwitches(k: Kernel, idle: nat)
    requires Shape(k) && QueuesMatch(k) && idle < MAX_PROCESSES && k.procs[idle].state == Ready
    ensures var k' := Dispatch(k);
            && k'.quantum == 5 && Runs(k')
            && (forall s: nat :: s < MAX_PROCESSES && s != k'.current ==> k'.procs[s] == k.procs[s])
            && exists l: nat ::
                 && Foremost(k.ready, l)
                 && k'.current == k.ready[l][0] && k'.ready == k.ready[l := k.ready[l][1..]]
  {
    NextIsReady(k, idle);
    var next := PickFrom(k.ready, 0);
    var l := k.procs[next].priority;
    assert Foremost(k.ready, l) && Remove(k.ready[l], next) == k.ready[l][1..];
  }

  /** A timer interrupt that finds nobody running, or the time of the current process used up, switches. */
  lemma InterruptSwitches(k: Kernel, idle: nat)
    requires Inv(k, idle) && !(Runs(k) && k.quantum > 0)
    ensures Switched(k, Tick(k), Runs(k))
    ensures k.current >= 0 && !Runs(k) ==> Tick(k).procs[k.current].state == k.procs[k.current].state
  {
    hide HeapOk, SemsOk, Dispatch;
    ReclaimKeeps(k, idle);
    var k1 := Reclaim(k);
    DisplaceKeepsQueues(k1, idle);
    DispatchSwitches(Displace(k1), idle);
    assert Displace(k1).ready == Lists(k, Runs(k));
    if k.current >= 0 && !Runs(k) {
      assert Tick(k).procs[Tick(k).current].state == Running;
      NotDispatched(k, idle);
    }
  }

  lemma NotDispatched(k: Kernel, idle: nat)
    requires Inv(k, idle) && k.current >= 0 && !Runs(k)
    ensures Tick(k).current != k.current
  {
    hide HeapOk, SemsOk;
    ReclaimKeepsQueues(k, idle);
    DisplaceKeepsQueues(Reclaim(k), idle);
    NextIsReady(Displace(Reclaim(k)), idle);
  }

  /** `n` timer interrupts and nothing else. */
  function Interrupts(k: Kernel, n: nat): (k': Kernel)
    requires Shape(k)
    ensures Shape(k')
  {
    if n == 0 then k else Do(Interrupts(k, n - 1), TimerTick)
  }

  lemma {:induction false} InterruptsKeep(k: Kernel, idle: nat, n: nat)
    requires Good(k, idle)
    ensures Good(Interrupts(k, n), idle)
  {
    hide QueuesMatch, SlotsOk, HeapOk, SemsOk, Settled, Do;
    if n > 0 {
      InterruptsKeep(k, idle, n - 1);
      StepKeeps(Interrupts(k, n - 1), idle, TimerTick);
    }
  }

  lemma OneInterrupt(k: Kernel, idle: nat)
    requires Inv(k, idle) && Runs(k) && k.quantum > 0
    ensures var k' := Do(k, TimerTick);
            k'.current == k.current && k'.quantum == k.quantum - 1 && k'.ready == k.ready
            && k'.procs[k.current] == k.procs[k.current]
  {
    hide HeapOk, SemsOk, QueuesMatch;
  }

  /** A running process keeps the processor for as many timer interrupts as its quantum says. */
  lemma {:induction false} KeepsProcessor(k: Kernel, idle: nat, n: nat)
    requires Good(k, idle) && Runs(k) && n <= k.quantum
    ensures var k' := Interrupts(k, n);
            && k'.current == k.current && k'.procs[k.current] == k.procs[k.current] && Runs(k')
            && k'.quantum == k.quantum - n && k'.ready == k.ready
  {
    hide QueuesMatch, SlotsOk, HeapOk, SemsOk, Settled, Do;
    if n > 0 {
      KeepsProcessor(k, idle, n - 1);
      InterruptsKeep(k, idle, n - 1);
      OneInterrupt(Interrupts(k, n - 1), idle);
    }
  }

  /** The interrupt after those takes it away: it queues up behind its equals and the foremost process runs. */
  lemma QuantumEnds(k: Kernel, idle: nat)
    requires Good(k, idle) && Runs(k)
    ensures 0 <= k.procs[k.current].priority < PRIORITY_LEVELS
    ensures Switched(k, Interrupts(k, k.quantum + 1), true)
  {
    hide HeapOk, SemsOk, QueuesMatch, Settled, Tick, Lists;
    var q := k.quantum;
    KeepsProcessor(k, idle, q);
    InterruptsKeep(k, idle, q);
    var k1 := Interrupts(k, q);
    InterruptSwitches(k1, idle);
    SameLists(k, k1);
    assert Interrupts(k, q + 1) == Tick(k1);
  }

  lemma SameLists(k: Kernel, k1: Kernel)
    requires Shape(k) && Shape(k1) && Runs(k) && k1.current == k.current && k1.ready == k.ready
    requires k1.procs[k.current] == k.procs[k.current] && 0 <= k.procs[k.current].priority < PRIORITY_LEVELS
    ensures Lists(k1, true) == Lists(k, true)
  {
  }

  /** From a switch on, the process runs through exactly 5 timer interrupts; the sixth one switches. */
  lemma SixthSwitches(k: Kernel, k1: Kernel, idle: nat, back: bool, n: nat)
    requires Shape(k) && (back ==> k.current >= 0 && 0 <= k.procs[k.current].priority < PRIORITY_LEVELS)
    requires Good(k1, idle) && Switched(k, k1, back)
    ensures n <= 5 ==> Interrupts(k1, n).current == k1.current && Runs(Interrupts(k1, n))
    ensures 0 <= k1.procs[k1.current].priority < PRIORITY_LEVELS
    ensures Switched(k1, Interrupts(k1, 6), true)
  {
    hide QueuesMatch, SlotsOk, HeapOk, SemsOk, Settled, Do;
    if n <= 5 {
      KeepsProcessor(k1, idle, n);
    }
    QuantumEnds(k1, idle);
  }

  // ----- giving up the processor -----

  /** `yield` switches at once, whatever is left of the quantum. */
  lemma YieldSwitches(k: Kernel, idle: nat)
    requires Good(k, idle)
    ensures Runs(k) ==> 0 <= k.procs[k.current].priority < PRIORITY_LEVELS
    ensures Switched(k, Do(k, YieldCall), Runs(k))
  {
    hide HeapOk, SemsOk, QueuesMatch, Settled, Tick;
    var k1 := k.(quantum := 0);
    QuantumFree(k, idle, 0);
    InterruptSwitches(k1, idle);
    assert Lists(k1, Runs(k1)) == Lists(k, Runs(k));
  }

  /** If anybody as urgent is READY, a process that yields does not run next. */
  lemma YieldLetsOthers(k: Kernel, idle: nat, t: nat)
    requires Good(k, idle) && Runs(k) && t < MAX_PROCESSES
    requires k.procs[t].state == Ready && k.procs[t].priority <= k.procs[k.current].priority
    ensures Do(k, YieldCall).current != k.current && Do(k, YieldCall).procs[k.current].state == Ready
  {
    hide HeapOk, SemsOk, Do;
    YieldSwitches(k, idle);
    var k', lists := Do(k, YieldCall), Lists(k, true);
    var l: nat :| Foremost(lists, l) && k'.current == lists[l][0] && k'.ready == lists[l := lists[l][1..]];
    var p := k.procs[t].priority;
    assert t in k.ready[p] && lists[p] != [];
    assert l <= p;
    assert k.ready[l] != [] && k.ready[l][0] in k.ready[l];
  }

  /** A wait in vain by a RUNNING process blocks it, and the foremost READY process runs. */
  lemma WaitSwitches(k: Kernel, idle: nat, id: int)
    requires Good(k, idle) && k.current >= 0 && MayWait(k, idle, id) && IsTick(k, WaitCall(id))
    ensures Do(k, WaitCall(id)).procs[k.current] == k.procs[k.current].(state := Blocked)
    ensures Switched(k, Do(k, WaitCall(id)), false)
  {
    hide HeapOk, SemsOk, QueuesMatch, Settled, Tick, SlotsOk;
    var t := Wait(k.sems, id, CurrentPid(k));
    WaitStops(k, idle, id);
    ParkSwitches(k, k.(sems := t), idle);
  }

  lemma ParkSwitches(k: Kernel, k1: Kernel, idle: nat)
    requires Shape(k) && Shape(k1) && Runs(k) && k1 == k.(sems := k1.sems) && Inv(Stopped(k1), idle)
    ensures Park(k1).procs[k.current] == k.procs[k.current].(state := Blocked)
    ensures Switched(k, Park(k1), false)
  {
    hide HeapOk, SemsOk, QueuesMatch, Settled, Tick;
    var k2 := Stopped(k1);
    InterruptSwitches(k2, idle);
    assert Lists(k2, false) == Lists(k, false);
    hide SlotsOk;
    TickKeepsRest(k2, idle, k.current);
  }

  /** The timer changes the state of a process, and takes everything from one that died; nothing else. */
  lemma TickKeepsRest(k: Kernel, idle: nat, t: nat)
    requires Inv(k, idle) && t < MAX_PROCESSES && t != k.toFree
    ensures Tick(k).procs[t] == k.procs[t].(state := Tick(k).procs[t].state)
  {
    hide HeapOk, SemsOk;
    ReclaimKeepsQueues(k, idle);
    if !KeepsRunning(Reclaim(k)) {
      DisplaceKeepsQueues(Reclaim(k), idle);
      NextIsReady(Displace(Reclaim(k)), idle);
    }
  }

  // ----- block -----

  /** The slot that `syscall_block` with argument `pid` is about: the caller for 0, else whoever carries the pid. */
  predicate IsTarget(k: Kernel, pid: int, s: nat)
    requires Shape(k)
  {
    s < MAX_PROCESSES && k.procs[s].pid != 0 && (if pid == 0 then s == k.current else k.procs[s].pid == pid)
  }

  /** A READY process that is blocked becomes BLOCKED and stands in no list; nobody else is touched. */
  lemma BlockOther(k: Kernel, idle: nat, pid: int, s: nat)
    requires Good(k, idle) && IsTarget(k, pid, s) && k.procs[s].state == Ready
    ensures var k' := Do(k, BlockCall(pid));
            && k'.procs == k.procs[s := k.procs[s].(state := Blocked)]
            && (forall l: nat, x: nat :: l < PRIORITY_LEVELS ==> (x in k'.ready[l] <==> x in k.ready[l] && x != s))
            && k' == k.(procs := k'.procs, ready := k'.ready)
  {
    hide HeapOk, SemsOk;
    FindUnique(k, s);
    RemoveIs(k.ready[k.procs[s].priority], s);
  }

  /** A RUNNING process that is blocked becomes BLOCKED, and the foremost READY process runs. */
  lemma BlockSelf(k: Kernel, idle: nat, pid: int, s: nat)
    requires Good(k, idle) && IsTarget(k, pid, s) && k.procs[s].state == Running && s != idle
    ensures s == k.current && Do(k, BlockCall(pid)).procs[s] == k.procs[s].(state := Blocked)
    ensures Switched(k, Do(k, BlockCall(pid)), false)
  {
    hide HeapOk, SemsOk, QueuesMatch, Tick;
    FindUnique(k, s);
    StoppedKeeps(k, idle);
    assert k.(sems := k.sems) == k;
    ParkSwitches(k, k, idle);
  }

  /** Whoever is neither READY nor RUNNING, or not there, is left alone. */
  lemma BlockNobody(k: Kernel, idle: nat, pid: int)
    requires Good(k, idle)
    requires forall s: nat :: IsTarget(k, pid, s) ==> k.procs[s].state == Blocked || k.procs[s].state == Killed
    ensures Do(k, BlockCall(pid)) == k
  {
    hide HeapOk, SemsOk, QueuesMatch;
    var s := BlockTarget(k, pid);
    if s >= 0 && k.procs[s].state != Killed {
      assert IsTarget(k, pid, s);
    }
  }

  // ----- priorities -----

  /** A new process: the next pid, the priority asked for or 2, READY, and last in the list of that priority. */
  lemma CreateIs(k: Kernel, idle: nat, priority: int, stack: nat, argv: nat, named: bool)
    requires Good(k, idle)
    ensures var s, k', l := FreeSlotFrom(k.procs, 0), Do(k, CreateCall(priority, stack, argv, named)),
                            if 0 <= priority <= 4 then priority else 2;
            if s < 0 || stack == 0 then k' == k
            else
              && k'.procs == k.procs[s := Proc(k.nextPid, Ready, l, stack, argv)]
              && k'.ready == k.ready[l := k.ready[l] + [s]] && k'.nextPid == k.nextPid + 1
              && k'.current == k.current && k'.quantum == k.quantum
  {
    hide QueuesMatch, SlotsOk, HeapOk, SemsOk, Settled, Open;
  }

  /**
   A change of priority that is not refused gives the process the priority asked for, whatever its state, and changes
   nothing else of it or of anybody; if it was READY on another level it leaves that list and stands last in the new
   one.
  */
  lemma NiceIs(k: Kernel, idle: nat, pid: int, priority: int, s: nat)
    requires Good(k, idle) && s < MAX_PROCESSES && k.procs[s].pid == pid && pid != 0 && k.procs[s].state != Killed
    requires 0 <= priority <= 4
    ensures !NiceRefused(k, pid, priority)
    ensures var k', from := Do(k, NiceCall(pid, priority)), k.procs[s].priority;
            && k'.procs == k.procs[s := k.procs[s].(priority := priority)]
            && k' == k.(procs := k'.procs, ready := k'.ready)
            && (k.procs[s].state != Ready || from == priority ==> k'.ready == k.ready)
            && (k.procs[s].state == Ready && from != priority ==>
                  && k'.ready[priority] == k.ready[priority] + [s]
                  && (forall x: nat :: x in k'.ready[from] <==> x in k.ready[from] && x != s)
                  && forall l: nat :: l < PRIORITY_LEVELS && l != from && l != priority ==> k'.ready[l] == k.ready[l])
  {
    hide HeapOk, SemsOk;
    FindUnique(k, s);
    RemoveIs(k.ready[k.procs[s].priority], s);
  }

  lemma NiceRefusedIs(k: Kernel, pid: int, priority: int)
    requires Shape(k) && NiceRefused(k, pid, priority)
    ensures Do(k, NiceCall(pid, priority)) == k
  {
  }

  lemma TickPriority(k: Kernel, t: nat)
    requires Shape(k) && t < MAX_PROCESSES
    ensures Tick(k).procs[t].priority == k.procs[t].priority
  {
  }

  lemma {:induction false} WakeAllPriority(k: Kernel, pids: seq<int>, t: nat)
    requires Shape(k) && t < MAX_PROCESSES
    ensures WakeAll(k, pids).procs[t].priority == k.procs[t].priority
    decreases |pids|
  {
    if pids != [] {
      WakeAllPriority(Wake(k, pids[0]), pids[1..], t);
    }
  }

  lemma UsePriority(k: Kernel, id: int, t: nat)
    requires Shape(k) && t < MAX_PROCESSES
    ensures SemPost(k, id).procs[t].priority == SemClose(k, id).procs[t].priority == k.procs[t].priority
  {
    WakeAllPriority(k.(sems := Post(k.sems, id)), Woken(k.sems, id), t);
    WakeAllPriority(k.(sems := Close(k.sems, id)), WokenByClose(k.sems, id), t);
  }

  lemma AnnouncePriority(k: Kernel, pid: nat, named: bool, t: nat)
    requires Shape(k) && t < MAX_PROCESSES
    ensures Announce(k, pid, named).procs[t].priority == k.procs[t].priority
  {
    hide SemPost, SemClose, OpenId;
    if named && pid != 0 {
      var id := OpenId(k.sems, WaitName(pid));
      var k1 := SemOpen(k, WaitName(pid), 0);
      UsePriority(k1, id, t);
      UsePriority(SemPost(k1, id), id, t);
    }
  }

  lemma KillPriority(k: Kernel, pid: int, named: bool, t: nat)
    requires Shape(k) && t < MAX_PROCESSES
    ensures Kill(k, pid, named).procs[t].priority == k.procs[t].priority
  {
    hide Announce, RemovePid, Find;
    var s := Find(k.procs, pid);
    if s >= 0 && k.procs[s].state != Killed && pid != k.shellPid {
      AnnouncePriority(k, k.procs[s].pid, named, t);
    }
  }

  /** Nobody but `nice` changes the priority of a process. */
  lemma PriorityStays(k: Kernel, c: Call, t: nat)
    requires Shape(k) && (c.WaitCall? ==> k.current >= 0) && t < MAX_PROCESSES && k.procs[t].pid != 0
    requires !(c.NiceCall? && c.pid == k.procs[t].pid)
    ensures Do(k, c).procs[t].priority == k.procs[t].priority
  {
    hide Tick, Announce, Kill, SemPost, SemClose, Open, Find;
    match c
    case KillCall(pid, named) => KillPriority(k, pid, named, t);
    case ExitCall(named) =>
      if k.current >= 0 {
        AnnouncePriority(k, k.procs[k.current].pid, named, t);
      }
    case BlockCall(pid) =>
      if k.current >= 0 {
        TickPriority(Stopped(k), t);
      }
    case YieldCall => TickPriority(k.(quantum := 0), t);
    case CloseCall(id) => UsePriority(k, id, t);
    case WaitCall(id) => TickPriority(Stopped(k.(sems := Wait(k.sems, id, CurrentPid(k)))), t);
    case PostCall(id) => UsePriority(k, id, t);
    case TimerTick => TickPriority(k, t);
    case _ =>
  }

  /** From call `i` on, up to state `n`, slot `t` carries `pid` and nobody renices it. */
  ghost predicate LeftAlone(states: seq<Kernel>, calls: seq<Call>, t: nat, pid: nat, i: nat, n: nat)
    requires t < MAX_PROCESSES && n <= |calls| < |states|
  {
    forall m :: i <= m < n ==>
      Shape(states[m]) && states[m].procs[t].pid == pid && !(calls[m].NiceCall? && calls[m].pid == pid)
  }

  /**
   In every run a process that was given a priority keeps it until it is given another one: whenever it is READY later,
   also when it was BLOCKED or RUNNING at the time, it stands in the list of that priority, once, and in no other.
  */
  lemma {:induction false} PriorityLasts(states: seq<Kernel>, calls: seq<Call>, idle: nat, t: nat, pid: nat,
                                         priority: int, i: nat, n: nat)
    requires IsRun(states, calls, idle) && Good(states[0], idle) && t < MAX_PROCESSES && pid != 0
    requires i < n < |states| && calls[i] == NiceCall(pid, priority) && 0 <= priority <= 4
    requires states[i].procs[t].pid == pid && states[i].procs[t].state != Killed
    requires LeftAlone(states, calls, t, pid, i + 1, n)
    ensures states[n].procs[t].priority == priority
    ensures states[n].procs[t].state == Ready ==>
              && multiset(states[n].ready[priority])[t] == 1
              && forall l: nat :: l < PRIORITY_LEVELS && l != priority ==> t !in states[n].ready[l]
    decreases n
  {
    hide QueuesMatch, SlotsOk, HeapOk, SemsOk, Settled, Do;
    if n == i + 1 {
      RunKeeps(states, calls, idle, i);
      NiceIs(states[i], idle, pid, priority, t);
    } else {
      PriorityLasts(states, calls, idle, t, pid, priority, i, n - 1);
      RunKeeps(states, calls, idle, n - 1);
      assert Allowed(states[n - 1], idle, calls[n - 1]);
      PriorityStays(states[n - 1], calls[n - 1], t);
    }
    ReadyIffQueued(states, calls, idle, n, t);
    assert states[n].procs[t].state == Ready ==> exists l: nat :: l < PRIORITY_LEVELS && t in states[n].ready[l];
  }
}
