/** Bounded waiting: how long a READY process waits behind its equals. */
module KernelFairness {
  import opened SemSpec
  import opened KernelSpec
  import opened KernelInvariant
  import opened KernelRuns

  /** Place of `s` in `q`, counted from the head. */
  function IndexOf(q: seq<nat>, s: nat): (i: nat)
    requires s in q
    ensures i < |q| && q[i] == s
    decreases |q|
  {
    if q[0] == s then 0 else 1 + IndexOf(q[1..], s)
  }

  lemma {:induction false} AppendKeepsIndex(q: seq<nat>, x: nat, s: nat)
    requires s in q
    ensures s in q + [x] && IndexOf(q + [x], s) == IndexOf(q, s)
    decreases |q|
  {
    if q[0] != s {
      AppendKeepsIndex(q[1..], x, s);
      assert (q + [x])[1..] == q[1..] + [x];
    }
  }

  lemma {:induction false} RemoveKeepsIndex(q: seq<nat>, x: nat, s: nat)
    requires s in q && x != s
    ensures s in Remove(q, x) && IndexOf(Remove(q, x), s) <= IndexOf(q, s)
    decreases |q|
  {
    if q[0] != x && q[0] != s {
      RemoveKeepsIndex(q[1..], x, s);
      assert Remove(q, x)[1..] == Remove(q[1..], x);
    }
  }

  /** Turns the current process may still take before the scheduler looks at the lists. */
  function Slice(k: Kernel): nat
    requires Shape(k)
  {
    if k.current >= 0 && k.procs[k.current].state == Running then k.quantum + 1 else 1
  }

  /** Bound on the ticks that slot `s` at level `l` still waits. */
  function Rank(k: Kernel, s: nat, l: nat): nat
    requires Shape(k) && l < PRIORITY_LEVELS && s in k.ready[l]
  {
    (QUANTUM + 1) * IndexOf(k.ready[l], s) + Slice(k)
  }

  /** Nothing has moved ahead of `s`, and the current process has not gained time. */
  ghost predicate NoWorse(k: Kernel, k': Kernel, s: nat, l: nat)
    requires Shape(k) && Shape(k') && l < PRIORITY_LEVELS
  {
    && Slice(k') <= Slice(k)
    && (s in k.ready[l] ==> s in k'.ready[l] && IndexOf(k'.ready[l], s) <= IndexOf(k.ready[l], s))
  }

  lemma EnqueueNoWorse(k: Kernel, x: nat, s: nat, l: nat)
    requires Shape(k) && l < PRIORITY_LEVELS && x < MAX_PROCESSES
    ensures NoWorse(k, Enqueue(k, x), s, l)
  {
    if s in k.ready[l] {
      AppendKeepsIndex(k.ready[l], x, s);
    }
  }

  lemma DequeueNoWorse(k: Kernel, x: nat, s: nat, l: nat)
    requires Shape(k) && l < PRIORITY_LEVELS && x < MAX_PROCESSES && x != s
    ensures NoWorse(k, Dequeue(k, x), s, l)
  {
    if s in k.ready[l] {
      RemoveKeepsIndex(k.ready[l], x, s);
    }
  }

  lemma {:induction false} WakeAllNoWorse(k: Kernel, pids: seq<int>, s: nat, l: nat)
    requires Shape(k) && l < PRIORITY_LEVELS
    ensures NoWorse(k, WakeAll(k, pids), s, l)
    decreases |pids|
  {
    if pids != [] {
      var x := Find(k.procs, pids[0]);
      if x >= 0 && k.procs[x].state == Blocked {
        EnqueueNoWorse(k, x, s, l);
      }
      WakeAllNoWorse(Wake(k, pids[0]), pids[1..], s, l);
    }
  }

  lemma AnnounceNoWorse(k: Kernel, pid: nat, named: bool, s: nat, l: nat)
    requires Shape(k) && l < PRIORITY_LEVELS
    ensures NoWorse(k, Announce(k, pid, named), s, l)
  {
    hide NoWorse;
    NoWorseRefl(k, k, s, l);
    if named && pid != 0 {
      var id := OpenId(k.sems, WaitName(pid));
      var k1 := SemOpen(k, WaitName(pid), 0);
      NoWorseRefl(k, k1, s, l);
      if id >= 0 {
        PostNoWorse(k1, id, s, l);
        CloseNoWorse(SemPost(k1, id), id, s, l);
        NoWorseTrans(k, k1, SemPost(k1, id), s, l);
        NoWorseTrans(k, SemPost(k1, id), SemClose(SemPost(k1, id), id), s, l);
      }
    }
  }

  lemma NoWorseRefl(k: Kernel, k': Kernel, s: nat, l: nat)
    requires Shape(k) && Shape(k') && l < PRIORITY_LEVELS && k'.ready == k.ready && Slice(k') <= Slice(k)
    ensures NoWorse(k, k', s, l)
  {
  }

  lemma NoWorseTrans(k: Kernel, k1: Kernel, k2: Kernel, s: nat, l: nat)
    requires Shape(k) && Shape(k1) && Shape(k2) && l < PRIORITY_LEVELS
    requires NoWorse(k, k1, s, l) && NoWorse(k1, k2, s, l)
    ensures NoWorse(k, k2, s, l)
  {
  }

  lemma PostNoWorse(k: Kernel, id: int, s: nat, l: nat)
    requires Shape(k) && l < PRIORITY_LEVELS
    ensures NoWorse(k, SemPost(k, id), s, l)
  {
    WakeAllNoWorse(k.(sems := Post(k.sems, id)), Woken(k.sems, id), s, l);
  }

  lemma CloseNoWorse(k: Kernel, id: int, s: nat, l: nat)
    requires Shape(k) && l < PRIORITY_LEVELS
    ensures NoWorse(k, SemClose(k, id), s, l)
  {
    WakeAllNoWorse(k.(sems := Close(k.sems, id)), WokenByClose(k.sems, id), s, l);
  }

  // ----- the timer -----

  /** `s` is READY at level `l` and nothing more urgent is READY or RUNNING. */
  ghost predicate Foremost(k: Kernel, s: nat, l: nat)
    requires Shape(k)
  {
    && s < MAX_PROCESSES && l < PRIORITY_LEVELS
    && k.procs[s].state == Ready && k.procs[s].priority == l
    && forall t: nat :: t < MAX_PROCESSES && (k.procs[t].state == Ready || k.procs[t].state == Running) ==>
                          k.procs[t].priority >= l
  }

  /** With nobody running, the scheduler takes the head of the level of `s`. */
  lemma SwitchTakesHead(k: Kernel, idle: nat, s: nat, l: nat)
    requires Shape(k) && QueuesMatch(k) && k.current == -1 && idle < MAX_PROCESSES && k.procs[idle].state == Ready
    requires Foremost(k, s, l)
    ensures 0 <= PickFrom(k.ready, 0) < MAX_PROCESSES
    ensures var k' := Dispatch(k);
            && k.ready[l] != [] && k'.current == k.ready[l][0] && s in k.ready[l]
            && if k.ready[l][0] == s then k'.procs[s].state == Running
               else s in k'.ready[l] && IndexOf(k'.ready[l], s) == IndexOf(k.ready[l], s) - 1 && k'.quantum == QUANTUM
  {
    NextIsReady(k, idle);
    assert s in k.ready[l];
    assert PickFrom(k.ready, 0) == k.ready[l][0];
  }

  lemma SwitchBringsNearer(k: Kernel, idle: nat, s: nat, l: nat)
    requires Inv(k, idle) && k.toFree == -1 && Foremost(k, s, l) && !KeepsRunning(k)
    ensures var k' := Dispatch(Displace(k));
            || (k'.procs[s].state == Running && k'.current == s)
            || (s in k.ready[l] && s in k'.ready[l] && Rank(k', s, l) < Rank(k, s, l))
  {
    hide HeapOk, SemsOk, Dispatch, SlotsOk;
    assert s in k.ready[l];
    DisplaceKeeps(k, idle);
    var k1 := Displace(k);
    var k2 := k1.(current := -1);
    if k.current >= 0 && k.procs[k.current].state == Running {
      EnqueueNoWorse(k, k.current, s, l);
    }
    assert s in k2.ready[l] && IndexOf(k2.ready[l], s) <= IndexOf(k.ready[l], s);
    SwitchTakesHead(k2, idle, s, l);
    DispatchForgetsCurrent(k1, k2);
  }

  lemma DispatchForgetsCurrent(k: Kernel, k': Kernel)
    requires Shape(k) && k' == k.(current := -1) && 0 <= PickFrom(k.ready, 0) < MAX_PROCESSES
    ensures Dispatch(k') == Dispatch(k)
  {
  }

  /** A tick either lets `s` run or brings it nearer. */
  lemma TickBringsNearer(k: Kernel, idle: nat, s: nat, l: nat)
    requires Inv(k, idle) && Foremost(k, s, l)
    ensures var k' := Tick(k);
            || (k'.procs[s].state == Running && k'.current == s)
            || (s in k.ready[l] && s in k'.ready[l] && Rank(k', s, l) < Rank(k, s, l))
  {
    hide HeapOk, SemsOk, Dispatch, Displace;
    assert s in k.ready[l];
    ReclaimKeeps(k, idle);
    var k1 := Reclaim(k);
    if !KeepsRunning(k1) {
      SwitchBringsNearer(k1, idle, s, l);
    }
  }

  // ----- every call -----

  lemma KillNoWorse(k: Kernel, pid: int, named: bool, s: nat, l: nat)
    requires Shape(k) && l < PRIORITY_LEVELS && Find(k.procs, pid) != s
    ensures NoWorse(k, Kill(k, pid, named), s, l)
  {
    hide NoWorse;
    NoWorseRefl(k, k, s, l);
    var x := Find(k.procs, pid);
    if !(x < 0 || k.procs[x].state == Killed || pid == k.shellPid) {
      AnnounceNoWorse(k, pid, named, s, l);
      var k1 := Announce(k, pid, named);
      var k2 := k1.(sems := RemovePid(k1.sems, pid));
      NoWorseRefl(k1, k2, s, l);
      NoWorseTrans(k, k1, k2, s, l);
      var k3 := if x != k.current && k2.procs[x].state == Ready then Dequeue(k2, x) else k2;
      NoWorseRefl(k2, k2, s, l);
      DequeueNoWorse(k2, x, s, l);
      NoWorseTrans(k, k2, k3, s, l);
      NoWorseRefl(k3, Kill(k, pid, named), s, l);
      NoWorseTrans(k, k3, Kill(k, pid, named), s, l);
    }
  }

  lemma NiceNoWorse(k: Kernel, pid: int, priority: int, s: nat, l: nat)
    requires Shape(k) && l < PRIORITY_LEVELS && Find(k.procs, pid) != s
    ensures NoWorse(k, Nice(k, pid, priority), s, l)
  {
    hide NoWorse;
    NoWorseRefl(k, k, s, l);
    var x := Find(k.procs, pid);
    if !(priority < 0 || priority >= PRIORITY_LEVELS || x < 0 || k.procs[x].state == Killed) {
      var p := k.procs[x].(priority := priority);
      if k.procs[x].state == Ready && k.procs[x].priority != priority {
        DequeueNoWorse(k, x, s, l);
        var k1 := Put(Dequeue(k, x), x, p);
        NoWorseRefl(Dequeue(k, x), k1, s, l);
        NoWorseTrans(k, Dequeue(k, x), k1, s, l);
        EnqueueNoWorse(k1, x, s, l);
        NoWorseTrans(k, k1, Enqueue(k1, x), s, l);
      } else {
        NoWorseRefl(k, Put(k, x, p), s, l);
      }
    }
  }

  lemma CreateNoWorse(k: Kernel, priority: int, stack: nat, argv: nat, named: bool, s: nat, l: nat)
    requires Shape(k) && l < PRIORITY_LEVELS
    ensures NoWorse(k, Create(k, priority, stack, argv, named), s, l)
  {
    hide NoWorse;
    NoWorseRefl(k, k, s, l);
    var x := FreeSlotFrom(k.procs, 0);
    if x >= 0 && stack != 0 {
      var p := Proc(k.nextPid, Ready, ListOf(priority), stack, argv);
      var k1 := Put(k, x, p).(nextPid := k.nextPid + 1, heap := k.heap + {stack} + (if argv == 0 then {} else {argv}));
      NoWorseRefl(k, k1, s, l);
      EnqueueNoWorse(k1, x, s, l);
      NoWorseTrans(k, k1, Enqueue(k1, x), s, l);
      NoWorseRefl(Enqueue(k1, x), Create(k, priority, stack, argv, named), s, l);
      NoWorseTrans(k, Enqueue(k1, x), Create(k, priority, stack, argv, named), s, l);
    }
  }

  /** `s` carries `pid` at level `l` and is READY or RUNNING. */
  predicate Alive(k: Kernel, s: nat, pid: nat, l: nat)
    requires Shape(k) && s < MAX_PROCESSES
  {
    var p := k.procs[s];
    pid != 0 && p.pid == pid && p.priority == l && (p.state == Ready || p.state == Running)
  }

  /** Between `k` and `k'` slot `s` started to run, or came nearer by `gain`. */
  ghost predicate Nearer(k: Kernel, k': Kernel, s: nat, l: nat, gain: nat)
    requires Shape(k) && Shape(k') && s < MAX_PROCESSES && l < PRIORITY_LEVELS
  {
    || k'.procs[s].state == Running
    || (s in k.ready[l] && s in k'.ready[l] && Rank(k', s, l) + gain <= Rank(k, s, l))
  }

  lemma NoWorseIsNearer(k: Kernel, k': Kernel, s: nat, l: nat)
    requires Shape(k) && Shape(k') && s < MAX_PROCESSES && l < PRIORITY_LEVELS && s in k.ready[l]
    requires NoWorse(k, k', s, l)
    ensures Nearer(k, k', s, l, 0)
  {
  }

  lemma ParkNearer(k: Kernel, k1: Kernel, idle: nat, s: nat, l: nat)
    requires Shape(k) && Foremost(k, s, l) && k.current >= 0 && k.procs[k.current].state == Running
    requires Shape(k1) && k1 == Stopped(k.(sems := k1.sems)) && Inv(k1, idle)
    ensures Nearer(k, Tick(k1), s, l, 1)
  {
    hide QueuesMatch, SlotsOk, HeapOk, SemsOk, Tick;
    assert k1.ready == k.ready && Slice(k1) <= Slice(k);
    assert Foremost(k1, s, l);
    TickBringsNearer(k1, idle, s, l);
  }

  lemma BlockNearer(k: Kernel, idle: nat, pid: int, s: nat, l: nat)
    requires Good(k, idle) && Foremost(k, s, l) && pid != k.procs[idle].pid && (pid == 0 ==> k.current != idle)
    requires Block(k, pid).procs[s].state != Blocked
    ensures Nearer(k, Block(k, pid), s, l, if IsTick(k, BlockCall(pid)) then 1 else 0)
  {
    hide HeapOk, SemsOk, Nearer, NoWorse, Tick;
    var x := BlockTarget(k, pid);
    assert s in k.ready[l];
    if x >= 0 && k.procs[x].state == Running {
      StoppedKeeps(k, idle);
      ParkNearer(k, Stopped(k), idle, s, l);
    } else if x >= 0 && k.procs[x].state == Ready {
      DequeueNoWorse(k, x, s, l);
      NoWorseRefl(Dequeue(k, x), Block(k, pid), s, l);
      NoWorseTrans(k, Dequeue(k, x), Block(k, pid), s, l);
      NoWorseIsNearer(k, Block(k, pid), s, l);
    } else {
      NoWorseRefl(k, k, s, l);
      NoWorseIsNearer(k, k, s, l);
    }
  }

  lemma WaitNearer(k: Kernel, idle: nat, id: int, s: nat, l: nat)
    requires Good(k, idle) && Foremost(k, s, l)
    requires k.current >= 0 && MayWait(k, idle, id)
    ensures Nearer(k, SemWait(k, id), s, l, if IsTick(k, WaitCall(id)) then 1 else 0)
  {
    hide HeapOk, SemsOk, Nearer, NoWorse, Tick;
    assert s in k.ready[l];
    if ValidId(k.sems, id) && Blocks(k.sems[id]) {
      WaitStops(k, idle, id);
      ParkNearer(k, Stopped(k.(sems := Wait(k.sems, id, CurrentPid(k)))), idle, s, l);
    } else {
      NoWorseRefl(k, SemWait(k, id), s, l);
      NoWorseIsNearer(k, SemWait(k, id), s, l);
    }
  }

  lemma KillStops(k: Kernel, pid: int, named: bool, l: nat)
    requires Shape(k) && l < PRIORITY_LEVELS
    ensures var s := Find(k.procs, pid);
            s >= 0 && k.procs[s].state != Killed ==>
              Kill(k, pid, named).procs[s].state == Killed || NoWorse(k, Kill(k, pid, named), s, l)
  {
    hide Announce, RemovePid;
  }

  lemma NiceMoves(k: Kernel, pid: int, priority: int, l: nat)
    requires Shape(k) && l < PRIORITY_LEVELS
    ensures var s := Find(k.procs, pid);
            s >= 0 && k.procs[s].state == Ready && k.procs[s].priority == l ==>
              Nice(k, pid, priority).procs[s].priority != l || NoWorse(k, Nice(k, pid, priority), s, l)
  {
    var s := Find(k.procs, pid);
    if s >= 0 {
      assert k.procs[s].(priority := k.procs[s].priority) == k.procs[s];
      assert k.procs[s := k.procs[s]] == k.procs;
    }
  }

  /** Killing or renicing `s` itself ends the wait; anything else leaves it where it stands. */
  lemma KillOrNiceNoWorse(k: Kernel, c: Call, s: nat, l: nat)
    requires Shape(k) && SlotsOk(k) && (c.KillCall? || c.NiceCall?)
    requires Foremost(k, s, l) && Alive(Do(k, c), s, k.procs[s].pid, l)
    ensures NoWorse(k, Do(k, c), s, l)
  {
    if Find(k.procs, c.pid) != s {
      match c
      case KillCall(pid, named) => KillNoWorse(k, pid, named, s, l);
      case NiceCall(pid, priority) => NiceNoWorse(k, pid, priority, s, l);
    } else {
      match c
      case KillCall(pid, named) => KillStops(k, pid, named, l);
      case NiceCall(pid, priority) => NiceMoves(k, pid, priority, l);
    }
  }

  /** Every call keeps the place of `s` or improves it; each pass through `schedule` improves it by one. */
  lemma StepBringsNearer(k: Kernel, idle: nat, c: Call, s: nat, l: nat)
    requires Good(k, idle) && Allowed(k, idle, c)
    requires Foremost(k, s, l) && Alive(Do(k, c), s, k.procs[s].pid, l)
    ensures Nearer(k, Do(k, c), s, l, if IsTick(k, c) then 1 else 0)
  {
    hide HeapOk, SemsOk, NoWorse, Tick;
    assert s in k.ready[l];
    if c.TimerTick? || c.YieldCall? {
      var k1 := if c.TimerTick? then k else k.(quantum := 0);
      QuantumFree(k, idle, k1.quantum);
      TickBringsNearer(k1, idle, s, l);
    } else if c.WaitCall? {
      WaitNearer(k, idle, c.id, s, l);
    } else if c.BlockCall? {
      BlockNearer(k, idle, c.pid, s, l);
    } else {
      QuietNoWorse(k, c, s, l);
      NoWorseIsNearer(k, Do(k, c), s, l);
    }
  }

  /** Calls that do not go through the timer. */
  predicate IsQuiet(c: Call) {
    !c.TimerTick? && !c.YieldCall? && !c.WaitCall? && !c.BlockCall?
  }

  lemma QuietNoWorse(k: Kernel, c: Call, s: nat, l: nat)
    requires Shape(k) && SlotsOk(k) && IsQuiet(c)
    requires Foremost(k, s, l) && Alive(Do(k, c), s, k.procs[s].pid, l)
    ensures NoWorse(k, Do(k, c), s, l)
  {
    hide NoWorse, SlotsOk;
    match c
    case CreateCall(priority, stack, argv, named) => CreateNoWorse(k, priority, stack, argv, named, s, l);
    case KillCall(_, _) => KillOrNiceNoWorse(k, c, s, l);
    case NiceCall(_, _) => KillOrNiceNoWorse(k, c, s, l);
    case ExitCall(named) =>
      if k.current >= 0 {
        var k1 := Announce(k, k.procs[k.current].pid, named);
        AnnounceNoWorse(k, k.procs[k.current].pid, named, s, l);
        NoWorseRefl(k1, Do(k, c), s, l);
        NoWorseTrans(k, k1, Do(k, c), s, l);
      } else {
        NoWorseRefl(k, k, s, l);
      }
    case UnblockCall(pid) => WakeAllNoWorse(k, [pid], s, l);
      assert WakeAll(k, [pid]) == Wake(k, pid);
    case CloseCall(id) => CloseNoWorse(k, id, s, l);
    case PostCall(id) => PostNoWorse(k, id, s, l);
    case OpenCall(_, _) => NoWorseRefl(k, Do(k, c), s, l);
    case AllocCall(_) => NoWorseRefl(k, Do(k, c), s, l);
    case FreeCall(_) => NoWorseRefl(k, Do(k, c), s, l);
    case _ => assert false;
  }

  // ----- runs -----

  /** Throughout, `s` is `pid`, READY or RUNNING at level `l`, and nothing more urgent is READY or RUNNING. */
  ghost predicate Undisturbed(states: seq<Kernel>, s: nat, pid: nat, l: nat) {
    && s < MAX_PROCESSES && l < PRIORITY_LEVELS
    && forall i :: 0 <= i < |states| ==>
         && Shape(states[i]) && Alive(states[i], s, pid, l)
         && (states[i].procs[s].state == Ready ==> Foremost(states[i], s, l))
  }

  lemma {:induction false} RankFalls(states: seq<Kernel>, calls: seq<Call>, idle: nat, s: nat, pid: nat, l: nat, n: nat)
    requires IsRun(states, calls, idle) && Good(states[0], idle) && Undisturbed(states, s, pid, l) && n < |states|
    requires forall i :: 0 <= i <= n ==> states[i].procs[s].state == Ready
    ensures s in states[0].ready[l] && s in states[n].ready[l]
    ensures Rank(states[n], s, l) + Ticks(states, calls, n) <= Rank(states[0], s, l)
  {
    hide HeapOk, SemsOk, Rank, SlotsOk;
    RunKeeps(states, calls, idle, n);
    RunKeeps(states, calls, idle, 0);
    if n > 0 {
      RankFalls(states, calls, idle, s, pid, l, n - 1);
      RunKeeps(states, calls, idle, n - 1);
      StepBringsNearer(states[n - 1], idle, calls[n - 1], s, l);
    }
  }

  lemma RankBounds(k: Kernel, s: nat, l: nat)
    requires Shape(k) && SlotsOk(k) && l < PRIORITY_LEVELS && s in k.ready[l]
    ensures 1 <= Rank(k, s, l) <= (QUANTUM + 1) * (IndexOf(k.ready[l], s) + 1)
  {
  }

  /**
   A READY process with `p` processes before it on its level, not itself blocked, killed or reniced and with nothing
   more urgent READY or RUNNING, is running before the timer switch has run 6 * (p + 1) times, be it by interrupts,
   yields or processes that block themselves, and whatever else is called meanwhile.
  */
  lemma BoundedWaiting(states: seq<Kernel>, calls: seq<Call>, idle: nat, s: nat, pid: nat, l: nat)
    requires IsRun(states, calls, idle) && Good(states[0], idle) && Undisturbed(states, s, pid, l)
    requires s in states[0].ready[l]
    requires Ticks(states, calls, |calls|) >= (QUANTUM + 1) * (IndexOf(states[0].ready[l], s) + 1)
    ensures exists i :: 0 <= i < |states| && states[i].procs[s].state == Running
  {
    hide Rank, HeapOk, SemsOk, QueuesMatch;
    if forall i :: 0 <= i < |states| ==> states[i].procs[s].state == Ready {
      RunKeeps(states, calls, idle, |calls|);
      RankFalls(states, calls, idle, s, pid, l, |calls|);
      RankBounds(states[0], s, l);
      RankBounds(states[|calls|], s, l);
    }
  }
}
