/** Every kernel entry keeps the invariant, so every run does. */
module KernelRuns {
  import opened SemSpec
  import opened KernelSpec
  import opened KernelInvariant
  import opened Counting

  // ----- process calls -----

  /** A process that is neither current nor idle nor queued on a semaphore dies and is reclaimed at once. */
  function Retire(k: Kernel, s: nat): (k': Kernel)
    requires Shape(k) && s < MAX_PROCESSES
    ensures Shape(k')
  {
    var k1 := if k.procs[s].state == Ready then Dequeue(k, s) else k;
    FreeResources(SetState(k1, s, Killed), s)
  }

  lemma RetireKeepsSlots(k: Kernel, s: nat)
    requires Shape(k) && SlotsOk(k) && s < MAX_PROCESSES && s != k.current
    requires k.procs[s].state != Killed
    ensures SlotsOk(Retire(k, s)) && k.procs[s].pid != 0
  {
  }

  lemma RetireKeeps(k: Kernel, idle: nat, s: nat)
    requires Inv(k, idle) && Settled(k) && s < MAX_PROCESSES && s != k.current && s != idle
    requires k.procs[s].state != Killed && !Waiting(k.sems, k.procs[s].pid)
    ensures Inv(Retire(k, s), idle) && Settled(Retire(k, s))
  {
    RetireKeepsSlots(k, s);
    hide QueuesMatch, HeapOk, SemsOk, SlotsOk;
    var p := k.procs[s].(state := Killed);
    var k1 := if k.procs[s].state == Ready then Dequeue(k, s) else k;
    var k2 := Put(k1, s, p);
    if k.procs[s].state == Ready {
      LeaveKeepsQueues(k, s, p);
    } else {
      PutKeepsQueues(k, s, p);
    }
    HeapSame(k, k2);
    var k' := Retire(k, s);
    PutKeepsQueues(k2, s, k'.procs[s]);
    QueuesIgnoreRest(Put(k2, s, k'.procs[s]), k');
    FreeKeepsHeap(k2, s);
    SemsKept(k, k');
  }

  lemma StopCurrentKeeps(k: Kernel, idle: nat, st: ProcState)
    requires Inv(k, idle) && Settled(k) && k.current >= 0 && k.current != idle
    requires st == Killed || (st == Blocked && k.procs[k.current].state == Running)
    ensures Inv(SetState(k, k.current, st), idle)
    ensures st == Killed ==> Settled(SetState(k, k.current, st))
  {
    hide QueuesMatch, HeapOk, SemsOk;
    var k' := SetState(k, k.current, st);
    PutKeepsQueues(k, k.current, k'.procs[k.current]);
    HeapSame(k, k');
    SemsKept(k, k');
  }

  lemma StoppedKeeps(k: Kernel, idle: nat)
    requires Inv(k, idle) && Settled(k) && k.current >= 0 && k.current != idle && k.procs[k.current].state == Running
    ensures Inv(Stopped(k), idle)
  {
    hide QueuesMatch, SlotsOk, HeapOk, SemsOk;
    StopCurrentKeeps(k, idle, Blocked);
    QuantumFree(SetState(k, k.current, Blocked), idle, 0);
  }

  lemma ParkKeeps(k: Kernel, idle: nat)
    requires Inv(k, idle) && Settled(k) && k.current >= 0 && k.current != idle && k.procs[k.current].state == Running
    ensures Inv(Park(k), idle) && Settled(Park(k))
  {
    hide QueuesMatch, SlotsOk, HeapOk, SemsOk;
    StoppedKeeps(k, idle);
    TickKeeps(Stopped(k), idle);
  }

  lemma QuantumFree(k: Kernel, idle: nat, q: nat)
    requires Inv(k, idle) && q <= QUANTUM
    ensures Inv(k.(quantum := q), idle)
    ensures Settled(k) ==> Settled(k.(quantum := q))
  {
    var k' := k.(quantum := q);
    QueuesIgnoreRest(k, k');
    HeapSame(k, k');
    SemsSame(k, k');
  }

  lemma CurrentNotWaiting(k: Kernel, idle: nat)
    requires Inv(k, idle) && k.current >= 0 && k.procs[k.current].state == Running
    ensures !Waiting(k.sems, CurrentPid(k))
  {
    FindUnique(k, k.current);
    hide SemsOk, SlotsOk, HeapOk, QueuesMatch;
    forall i | 0 <= i < |k.sems|
      ensures CurrentPid(k) !in k.sems[i].blocked
    {
      if CurrentPid(k) in k.sems[i].blocked {
        QueuedIsBlocked(k, i, CurrentPid(k));
      }
    }
  }

  lemma QueuedIsBlocked(k: Kernel, i: nat, pid: int)
    requires Shape(k) && SlotsOk(k) && SemsOk(k) && i < |k.sems| && pid in k.sems[i].blocked
    ensures Find(k.procs, pid) >= 0 && k.procs[Find(k.procs, pid)].state == Blocked
  {
    assert BlockedPid(k, pid);
    var s: nat :| s < MAX_PROCESSES && k.procs[s].pid == pid && k.procs[s].state == Blocked && pid != 0;
    FindUnique(k, s);
  }

  lemma WaitStops(k: Kernel, idle: nat, id: int)
    requires Inv(k, idle) && Settled(k) && k.current >= 0 && k.current != idle && k.procs[k.current].state == Running
    requires ValidId(k.sems, id)
    ensures Inv(Stopped(k.(sems := Wait(k.sems, id, CurrentPid(k)))), idle)
  {
    CurrentNotWaiting(k, idle);
    WaitKeepsTable(k.sems, id, CurrentPid(k));
    StoppedKeeps(k, idle);
    JoinQueueKeeps(Stopped(k), idle, Wait(k.sems, id, CurrentPid(k)));
  }

  /** A wait that blocks is for a RUNNING process other than the idle one. */
  predicate MayWait(k: Kernel, idle: nat, id: int)
    requires Shape(k) && k.current >= 0
  {
    ValidId(k.sems, id) && Blocks(k.sems[id]) ==> k.current != idle && k.procs[k.current].state == Running
  }

  lemma SemWaitKeeps(k: Kernel, idle: nat, id: int)
    requires Inv(k, idle) && Settled(k) && k.current >= 0 && MayWait(k, idle, id)
    ensures Inv(SemWait(k, id), idle) && Settled(SemWait(k, id))
  {
    hide TableOk;
    if ValidId(k.sems, id) {
      var t := Wait(k.sems, id, CurrentPid(k));
      if Blocks(k.sems[id]) {
        WaitStops(k, idle, id);
        TickKeeps(Stopped(k.(sems := t)), idle);
      } else {
        TakeKeepsTable(k.sems, id, CurrentPid(k));
        SetSemsKeeps(k, idle, t);
      }
    }
  }

  lemma TakeKeepsTable(t: Table, id: int, pid: int)
    requires TableOk(t) && ValidId(t, id) && !Blocks(t[id])
    ensures TableOk(Wait(t, id, pid))
    ensures forall x :: Waiting(Wait(t, id, pid), x) ==> Waiting(t, x)
  {
    ShrinkKeepsTable(t, id, Wait(t, id, pid)[id]);
  }

  /** The current process, already BLOCKED, joins a semaphore queue. */
  lemma JoinQueueKeeps(k: Kernel, idle: nat, t: Table)
    requires Inv(k, idle) && k.current >= 0 && k.procs[k.current].state == Blocked && TableOk(t)
    requires forall x :: Waiting(t, x) ==> Waiting(k.sems, x) || x == k.procs[k.current].pid
    ensures Inv(k.(sems := t), idle)
  {
    var k' := k.(sems := t);
    QueuesIgnoreRest(k, k');
    HeapSame(k, k');
    assert BlockedPid(k', k.procs[k.current].pid);
    forall i, pid | 0 <= i < MAX_SEMS && pid in t[i].blocked
      ensures BlockedPid(k', pid) || Waiting(k.sems, pid)
    {
      assert Waiting(t, pid);
    }
    SemsSame(k, k');
  }

  lemma KillRetires(k: Kernel, pid: int, named: bool)
    requires Shape(k)
    ensures var s := Find(k.procs, pid);
            s >= 0 && k.procs[s].state != Killed && pid != k.shellPid && s != k.current ==>
              var k1 := Announce(k, pid, named);
              Kill(k, pid, named) == Retire(k1.(sems := RemovePid(k1.sems, pid)), s)
  {
  }

  lemma KillKeeps(k: Kernel, idle: nat, pid: int, named: bool)
    requires Inv(k, idle) && Settled(k) && (pid != k.procs[idle].pid || pid == k.shellPid)
    ensures Inv(Kill(k, pid, named), idle) && Settled(Kill(k, pid, named))
  {
    var s := Find(k.procs, pid);
    if !(s < 0 || k.procs[s].state == Killed || pid == k.shellPid) {
      AnnounceKeeps(k, idle, pid, named);
      var k1 := Announce(k, pid, named);
      assert k1.procs[s] == k.procs[s] || k1.procs[s] == k.procs[s].(state := Ready);
      RemoveKeepsTable(k1.sems, pid);
      SetSemsKeeps(k1, idle, RemovePid(k1.sems, pid));
      var k2 := k1.(sems := RemovePid(k1.sems, pid));
      if s == k.current {
        StopCurrentKeeps(k2, idle, Killed);
      } else {
        RetireKeeps(k2, idle, s);
      }
    }
  }

  lemma ExitKeeps(k: Kernel, idle: nat, named: bool)
    requires Inv(k, idle) && Settled(k) && k.current != idle
    ensures Inv(Exit(k, named), idle) && Settled(Exit(k, named))
  {
    if k.current >= 0 {
      AnnounceKeeps(k, idle, k.procs[k.current].pid, named);
      StopCurrentKeeps(Announce(k, k.procs[k.current].pid, named), idle, Killed);
    }
  }

  /** Only the level and the list entry of one process change. */
  lemma NiceChanges(k: Kernel, pid: int, priority: int)
    requires Shape(k) && SlotsOk(k)
    ensures var k' := Nice(k, pid, priority);
            && SlotsOk(k')
            && k' == k.(procs := k'.procs, ready := k'.ready)
            && forall s: nat :: s < MAX_PROCESSES ==> k'.procs[s] == k.procs[s].(priority := k'.procs[s].priority)
  {
  }

  lemma NiceKeepsQueues(k: Kernel, pid: int, priority: int)
    requires Shape(k) && SlotsOk(k) && QueuesMatch(k)
    ensures QueuesMatch(Nice(k, pid, priority))
  {
    hide QueuesMatch;
    var s := Find(k.procs, pid);
    if !(priority < 0 || priority >= PRIORITY_LEVELS || s < 0 || k.procs[s].state == Killed) {
      var p := k.procs[s].(priority := priority);
      if k.procs[s].state == Ready && k.procs[s].priority != priority {
        // the list entry moves: out of the old list while still READY, then into the new one
        var out := Put(Dequeue(k, s), s, p.(state := Blocked));
        LeaveKeepsQueues(k, s, p.(state := Blocked));
        EnqueueKeepsQueues(out, s);
        assert Nice(k, pid, priority) == Enqueue(out, s);
      } else if k.procs[s].state == Ready {
        assert p == k.procs[s] && Nice(k, pid, priority) == k;
      } else {
        PutKeepsQueues(k, s, p);
      }
    }
  }

  lemma NiceKeeps(k: Kernel, idle: nat, pid: int, priority: int)
    requires Inv(k, idle) && Settled(k)
    ensures Inv(Nice(k, pid, priority), idle) && Settled(Nice(k, pid, priority))
  {
    hide QueuesMatch, HeapOk, SemsOk, SlotsOk, Nice;
    NiceChanges(k, pid, priority);
    NiceKeepsQueues(k, pid, priority);
    HeapSame(k, Nice(k, pid, priority));
    SemsKept(k, Nice(k, pid, priority));
  }

  /** A RUNNING process that is blocked is the current one, and not the idle process. */
  lemma BlocksItself(k: Kernel, idle: nat, pid: int)
    requires Orderly(k) && idle < MAX_PROCESSES && pid != k.procs[idle].pid && (pid == 0 ==> k.current != idle)
    requires BlockTarget(k, pid) >= 0 && k.procs[BlockTarget(k, pid)].state == Running
    ensures BlockTarget(k, pid) == k.current && k.current != idle
  {
    hide QueuesMatch;
    FindUnique(k, k.current);
  }

  lemma BlockKeeps(k: Kernel, idle: nat, pid: int)
    requires Inv(k, idle) && Settled(k)
    requires pid != k.procs[idle].pid && (pid == 0 ==> k.current != idle)
    ensures Inv(Block(k, pid), idle) && Settled(Block(k, pid))
  {
    hide QueuesMatch, HeapOk, SemsOk;
    var s := BlockTarget(k, pid);
    if s >= 0 && k.procs[s].state == Running {
      BlocksItself(k, idle, pid);
      ParkKeeps(k, idle);
    } else if s >= 0 && k.procs[s].state == Ready {
      var k' := SetState(Dequeue(k, s), s, Blocked);
      LeaveKeepsQueues(k, s, k'.procs[s]);
      HeapSame(k, k');
      SemsKept(k, k');
    }
  }

  /** An unused slot becomes the READY, queued process `p`. */
  function Spawn(k: Kernel, s: nat, p: Proc): (k': Kernel)
    requires Shape(k) && s < MAX_PROCESSES
    ensures Shape(k')
  {
    var more := if p.argv == 0 then {} else {p.argv};
    Enqueue(Put(k, s, p).(nextPid := k.nextPid + 1, heap := k.heap + {p.stack} + more), s)
  }

  lemma SpawnKeepsSlots(k: Kernel, s: nat, p: Proc)
    requires Shape(k) && SlotsOk(k) && s < MAX_PROCESSES && Unused(k.procs[s])
    requires p.pid == k.nextPid && p.state == Ready && 0 <= p.priority < PRIORITY_LEVELS && p.stack != 0
    ensures SlotsOk(Spawn(k, s, p)) && s != k.current && s != k.toFree
  {
  }

  lemma SpawnKeeps(k: Kernel, idle: nat, s: nat, p: Proc)
    requires Inv(k, idle) && Settled(k) && s < MAX_PROCESSES && Unused(k.procs[s])
    requires p.pid == k.nextPid && p.state == Ready && 0 <= p.priority < PRIORITY_LEVELS && p.stack != 0
    requires p.stack !in k.heap && p.argv !in k.heap && p.stack != p.argv
    ensures Inv(Spawn(k, s, p), idle) && Settled(Spawn(k, s, p))
  {
    SpawnKeepsSlots(k, s, p);
    hide QueuesMatch, HeapOk, SemsOk, SlotsOk;
    var more := if p.argv == 0 then {} else {p.argv};
    var k1 := Put(k, s, p).(nextPid := k.nextPid + 1, heap := k.heap + {p.stack} + more);
    var k2 := Spawn(k, s, p);
    // the slot goes from unused to READY and queued in one go
    var out := Put(k, s, p.(state := Blocked));
    PutKeepsQueues(k, s, p.(state := Blocked));
    EnqueueKeepsQueues(out, s);
    QueuesIgnoreRest(Enqueue(out, s), k2);
    SpawnKeepsHeap(k, s, p);
    HeapSame(k1, k2);
    SemsKept(k, k2);
  }

  lemma CreateKeeps(k: Kernel, idle: nat, priority: int, stack: nat, argv: nat, named: bool)
    requires Inv(k, idle) && Settled(k)
    requires stack !in k.heap && argv !in k.heap && (stack == argv ==> stack == 0)
    ensures Inv(Create(k, priority, stack, argv, named), idle) && Settled(Create(k, priority, stack, argv, named))
  {
    hide QueuesMatch, HeapOk, SemsOk, Settled;
    var s := FreeSlotFrom(k.procs, 0);
    if s >= 0 && stack != 0 {
      var p := Proc(k.nextPid, Ready, ListOf(priority), stack, argv);
      SpawnKeeps(k, idle, s, p);
      if named {
        OpenKeeps(Spawn(k, s, p), idle, WaitName(p.pid), 0);
      }
    }
  }

  lemma StackWith(k: Kernel, k': Kernel, s: nat, p: Proc, x: nat)
    requires Shape(k) && Shape(k') && s < MAX_PROCESSES && k'.procs == k.procs[s := p]
    requires k.procs[s].pid == 0 && k.procs[s].argv == 0 && p.pid != 0
    ensures x in Stacks(k') <==> x in Stacks(k) + {p.stack}
    ensures x in Argvs(k') <==> x in Argvs(k) + (if p.argv == 0 then {} else {p.argv})
  {
    assert k'.procs[s] == p;
    if x in Stacks(k) {
      var r :| 0 <= r < MAX_PROCESSES && k.procs[r].pid != 0 && k.procs[r].stack == x;
      assert k'.procs[r] == k.procs[r];
    }
    if x in Argvs(k) {
      var r :| 0 <= r < MAX_PROCESSES && k.procs[r].argv != 0 && k.procs[r].argv == x;
      assert k'.procs[r] == k.procs[r];
    }
  }

  lemma SpawnKeepsHeap(k: Kernel, s: nat, p: Proc)
    requires Shape(k) && SlotsOk(k) && HeapOk(k) && s < MAX_PROCESSES && Unused(k.procs[s])
    requires p.pid != 0 && p.stack != 0 && p.stack !in k.heap && p.argv !in k.heap && p.stack != p.argv
    ensures HeapOk(Put(k, s, p).(nextPid := k.nextPid + 1,
                                 heap := k.heap + {p.stack} + (if p.argv == 0 then {} else {p.argv})))
  {
    var k' := Put(k, s, p).(nextPid := k.nextPid + 1,
                            heap := k.heap + {p.stack} + (if p.argv == 0 then {} else {p.argv}));
    var more := if p.argv == 0 then {} else {p.argv};
    forall x
      ensures x in Stacks(k') <==> x in Stacks(k) + {p.stack}
      ensures x in Argvs(k') <==> x in Argvs(k) + more
    {
      StackWith(k, k', s, p, x);
    }
    forall r: nat | r < MAX_PROCESSES && r != s
      ensures k'.procs[r] == k.procs[r]
      ensures k.procs[r].stack != 0 ==> k.procs[r].stack in k.heap
      ensures k.procs[r].argv != 0 ==> k.procs[r].argv in k.heap
    {
      if k.procs[r].pid != 0 {
        assert k.procs[r].stack in Stacks(k);
      }
      if k.procs[r].argv != 0 {
        assert k.procs[r].argv in Argvs(k);
      }
    }
  }

  // ----- steps and runs -----

  datatype Call =
    | CreateCall(priority: int, stack: nat, argv: nat, named: bool)
    | KillCall(pid: int, named: bool)
    | ExitCall(named: bool)
    | NiceCall(pid: int, priority: int)
    | BlockCall(pid: int)
    | UnblockCall(pid: int)
    | YieldCall
    | OpenCall(name: string, value: nat)
    | CloseCall(id: int)
    | WaitCall(id: int)
    | PostCall(id: int)
    | AllocCall(ptr: nat)
    | FreeCall(ptr: nat)
    | TimerTick

  /** The allocator answers with null or with memory it has not handed out; a wait has a caller. */
  ghost predicate Possible(k: Kernel, c: Call)
    requires Shape(k)
  {
    match c
    case CreateCall(_, stack, argv, _) => stack !in k.heap && argv !in k.heap && (stack == argv ==> stack == 0)
    case AllocCall(ptr) => ptr != 0 && ptr !in k.heap
    case WaitCall(_) => k.current >= 0
    case _ => true
  }

  /** What the callers of the kernel must see to; `KernelLimits.StepKeepsIff` shows that nothing less would do. */
  ghost predicate Proper(k: Kernel, idle: nat, c: Call)
    requires Shape(k) && idle < MAX_PROCESSES && (c.WaitCall? ==> k.current >= 0)
  {
    match c
    case KillCall(pid, _) => pid != k.procs[idle].pid || pid == k.shellPid
    case ExitCall(_) => k.current != idle
    case BlockCall(pid) => pid != k.procs[idle].pid && (pid == 0 ==> k.current != idle)
    case UnblockCall(pid) => !Waiting(k.sems, pid)
    case WaitCall(id) => MayWait(k, idle, id)
    case FreeCall(ptr) => ptr in k.user || ptr !in k.heap
    case _ => true
  }

  ghost predicate Allowed(k: Kernel, idle: nat, c: Call)
    requires Shape(k) && idle < MAX_PROCESSES
  {
    Possible(k, c) && Proper(k, idle, c)
  }

  function Do(k: Kernel, c: Call): (k': Kernel)
    requires Shape(k) && (c.WaitCall? ==> k.current >= 0)
    ensures Shape(k')
  {
    match c
    case CreateCall(priority, stack, argv, named) => Create(k, priority, stack, argv, named)
    case KillCall(pid, named) => Kill(k, pid, named)
    case ExitCall(named) => Exit(k, named)
    case NiceCall(pid, priority) => Nice(k, pid, priority)
    case BlockCall(pid) => Block(k, pid)
    case UnblockCall(pid) => Wake(k, pid)
    case YieldCall => Tick(k.(quantum := 0))
    case OpenCall(name, value) => SemOpen(k, name, value)
    case CloseCall(id) => SemClose(k, id)
    case WaitCall(id) => SemWait(k, id)
    case PostCall(id) => SemPost(k, id)
    case AllocCall(ptr) => k.(heap := k.heap + {ptr}, user := k.user + {ptr})
    case FreeCall(ptr) => k.(heap := k.heap - {ptr}, user := k.user - {ptr})
    case TimerTick => Tick(k)
  }

  ghost predicate Good(k: Kernel, idle: nat) {
    Inv(k, idle) && Settled(k)
  }

  lemma UserHeapKeeps(k: Kernel, idle: nat, c: Call)
    requires Good(k, idle) && Allowed(k, idle, c) && (c.AllocCall? || c.FreeCall?)
    ensures Good(Do(k, c), idle)
  {
    var k' := Do(k, c);
    QueuesIgnoreRest(k, k');
    assert Stacks(k') == Stacks(k) && Argvs(k') == Argvs(k);
    SemsSame(k, k');
  }

  /** Every kernel entry keeps the invariant. */
  lemma StepKeeps(k: Kernel, idle: nat, c: Call)
    requires Good(k, idle) && Allowed(k, idle, c)
    ensures Good(Do(k, c), idle)
  {
    hide QueuesMatch, SlotsOk, HeapOk, SemsOk, TableOk;
    match c
    case CreateCall(priority, stack, argv, named) => CreateKeeps(k, idle, priority, stack, argv, named);
    case KillCall(pid, named) => KillKeeps(k, idle, pid, named);
    case ExitCall(named) => ExitKeeps(k, idle, named);
    case NiceCall(pid, priority) => NiceKeeps(k, idle, pid, priority);
    case BlockCall(pid) => BlockKeeps(k, idle, pid);
    case UnblockCall(pid) => WakeKeeps(k, idle, pid);
    case YieldCall =>
      QuantumFree(k, idle, 0);
      TickKeeps(k.(quantum := 0), idle);
    case OpenCall(name, value) => OpenKeeps(k, idle, name, value);
    case CloseCall(id) => CloseKeeps(k, idle, id);
    case WaitCall(id) => SemWaitKeeps(k, idle, id);
    case PostCall(id) => PostKeeps(k, idle, id);
    case AllocCall(ptr) => UserHeapKeeps(k, idle, c);
    case FreeCall(ptr) => UserHeapKeeps(k, idle, c);
    case TimerTick => TickKeeps(k, idle);
  }

  /** `states[0]`, then one state per call, each allowed where it happens. */
  ghost predicate IsRun(states: seq<Kernel>, calls: seq<Call>, idle: nat) {
    && |states| == |calls| + 1
    && idle < MAX_PROCESSES
    && (forall i :: 0 <= i < |states| ==> Shape(states[i]))
    && forall i :: 0 <= i < |calls| ==> Allowed(states[i], idle, calls[i]) && states[i + 1] == Do(states[i], calls[i])
  }

  lemma {:induction false} RunKeeps(states: seq<Kernel>, calls: seq<Call>, idle: nat, n: nat)
    requires IsRun(states, calls, idle) && Good(states[0], idle) && n < |states|
    ensures Good(states[n], idle)
  {
    hide Inv, Settled;
    if n > 0 {
      RunKeeps(states, calls, idle, n - 1);
      StepKeeps(states[n - 1], idle, calls[n - 1]);
    }
  }

  /** Is the timer switch part of this call: an interrupt, a yield, or a process that blocks itself? */
  predicate IsTick(k: Kernel, c: Call)
    requires Shape(k)
  {
    match c
    case TimerTick => true
    case YieldCall => true
    case WaitCall(id) =>
      k.current >= 0 && k.procs[k.current].state == Running && ValidId(k.sems, id) && Blocks(k.sems[id])
    case BlockCall(pid) => BlockTarget(k, pid) >= 0 && k.procs[BlockTarget(k, pid)].state == Running
    case _ => false
  }

  /** How often the timer switch ran in the first `n` calls. */
  function Ticks(states: seq<Kernel>, calls: seq<Call>, n: nat): nat
    requires n <= |calls| <= |states| && forall i :: 0 <= i < |states| ==> Shape(states[i])
  {
    if n == 0 then 0 else Ticks(states, calls, n - 1) + if IsTick(states[n - 1], calls[n - 1]) then 1 else 0
  }

  // ----- what the invariant says -----

  /** In every reachable state a process is READY iff it is queued, once, at its own priority. */
  lemma ReadyIffQueued(states: seq<Kernel>, calls: seq<Call>, idle: nat, n: nat, s: nat)
    requires IsRun(states, calls, idle) && Good(states[0], idle) && n < |states| && s < MAX_PROCESSES
    ensures var k := states[n];
            && (k.procs[s].state == Ready <==> exists l: nat :: l < PRIORITY_LEVELS && s in k.ready[l])
            && (forall l: nat {:trigger k.ready[l]} :: l < PRIORITY_LEVELS && s in k.ready[l] ==>
                  l == k.procs[s].priority && multiset(k.ready[l])[s] == 1)
            && (k.procs[s].state == Running ==> s == k.current)
  {
    RunKeeps(states, calls, idle, n);
    var k := states[n];
    forall l: nat | l < PRIORITY_LEVELS && s in k.ready[l]
      ensures multiset(k.ready[l])[s] == 1
    {
      OnceInList(k.ready[l], s);
    }
    if k.procs[s].state == Ready {
      assert s in k.ready[k.procs[s].priority];
    }
  }

  lemma {:induction false} OnceInList(q: seq<nat>, s: nat)
    requires Distinct(q) && s in q
    ensures multiset(q)[s] == 1
  {
    var i :| 0 <= i < |q| && q[i] == s;
    assert q == q[..i] + [s] + q[i + 1..];
    assert s !in q[..i] && s !in q[i + 1..];
  }

  /** The slots that carry a pid. */
  function Taken(k: Kernel): set<nat>
    requires Shape(k)
  {
    set s: nat | s < MAX_PROCESSES && k.procs[s].pid != 0
  }

  /** The slots that own an argument block. */
  function WithArgs(k: Kernel): set<nat>
    requires Shape(k)
  {
    set s: nat | s < MAX_PROCESSES && k.procs[s].argv != 0
  }

  /** Each taken slot has a stack of its own. */
  lemma OneStackEach(k: Kernel)
    requires Shape(k) && SlotsOk(k) && HeapOk(k)
    ensures |Stacks(k)| == |Taken(k)|
  {
    var stack := (s: nat) => if s < MAX_PROCESSES then k.procs[s].stack else 0;
    forall y | y in Stacks(k)
      ensures exists s :: s in Taken(k) && stack(s) == y
    {
      var s: nat :| s < MAX_PROCESSES && k.procs[s].pid != 0 && k.procs[s].stack == y;
      assert s in Taken(k) && stack(s) == y;
    }
    forall s | s in Taken(k)
      ensures stack(s) in Stacks(k) && stack(s) != 0
    {
    }
    ImageSize(Taken(k), Stacks(k), stack);
  }

  lemma OneArgvEach(k: Kernel)
    requires Shape(k) && SlotsOk(k) && HeapOk(k)
    ensures |Argvs(k)| == |WithArgs(k)|
  {
    var argv := (s: nat) => if s < MAX_PROCESSES then k.procs[s].argv else 0;
    forall y | y in Argvs(k)
      ensures exists s :: s in WithArgs(k) && argv(s) == y
    {
      var s: nat :| s < MAX_PROCESSES && k.procs[s].argv != 0 && k.procs[s].argv == y;
      assert s in WithArgs(k) && argv(s) == y;
    }
    ImageSize(WithArgs(k), Argvs(k), argv);
  }

  /**
   Allocator usage is the live stacks, the live argument blocks and the user's blocks and nothing else,
   with one stack for each process and one argument block for each process that has arguments.
  */
  lemma HeapAccounted(states: seq<Kernel>, calls: seq<Call>, idle: nat, n: nat)
    requires IsRun(states, calls, idle) && Good(states[0], idle) && n < |states|
    ensures var k := states[n];
            && k.heap == Stacks(k) + Argvs(k) + k.user
            && |k.heap| == |Taken(k)| + |WithArgs(k)| + |k.user|
  {
    hide QueuesMatch, SlotsOk, SemsOk, Stacks, Argvs, Taken, WithArgs;
    RunKeeps(states, calls, idle, n);
    var k := states[n];
    OneStackEach(k);
    OneArgvEach(k);
    assert |Stacks(k) + Argvs(k)| == |Stacks(k)| + |Argvs(k)|;
    assert (Stacks(k) + Argvs(k)) !! k.user;
  }

  lemma WaiterElsewhere(k: Kernel, idle: nat, id: nat, pid: int)
    requires Good(k, idle) && id < MAX_SEMS && pid in k.sems[id].blocked
    ensures 0 <= Find(k.procs, pid) < MAX_PROCESSES && Find(k.procs, pid) != idle
  {
    hide QueuesMatch, HeapOk;
    QueuedIsBlocked(k, id, pid);
  }

  /** The 64-entry queue of a semaphore never refuses a waiter: the idle process waits nowhere. */
  lemma WaiterAlwaysFits(k: Kernel, idle: nat, id: nat)
    requires Good(k, idle) && id < MAX_SEMS
    ensures |k.sems[id].blocked| < MAX_BLOCKED
  {
    hide QueuesMatch, HeapOk, Settled, SlotsOk, Find, Distinct;
    var q := k.sems[id].blocked;
    forall pid | pid in q
      ensures Find(k.procs, pid) in Below(MAX_PROCESSES) - {idle}
    {
      WaiterElsewhere(k, idle, id, pid);
    }
    QueueFitsSlots(k, q, Below(MAX_PROCESSES) - {idle});
  }

  /** Distinct pids stand in distinct slots. */
  lemma {:induction false} QueueFitsSlots(k: Kernel, q: seq<int>, room: set<int>)
    requires Distinct(q)
    requires (forall pid :: pid in q ==> Find(k.procs, pid) in room) && forall s :: s in room ==> s >= 0
    ensures |q| <= |room|
    decreases |q|
  {
    hide Find;
    if q != [] {
      var s := Find(k.procs, q[0]);
      assert q[0] in q;
      forall pid | pid in q[1..]
        ensures Find(k.procs, pid) in room - {s}
      {
        assert pid in q && pid != q[0];
      }
      QueueFitsSlots(k, q[1..], room - {s});
    }
  }

  // ----- who is woken -----

  lemma {:induction false} ReadyStaysReady(k: Kernel, pids: seq<int>, s: nat)
    requires Shape(k) && s < MAX_PROCESSES && k.procs[s].state == Ready
    ensures WakeAll(k, pids).procs[s].state == Ready
    decreases |pids|
  {
    if pids != [] {
      ReadyStaysReady(Wake(k, pids[0]), pids[1..], s);
    }
  }

  lemma WakeIs(k: Kernel, pid: int, s: nat)
    requires Orderly(k) && s < MAX_PROCESSES && k.procs[s].pid != 0 && k.procs[s].state == Blocked
    ensures Wake(k, pid).procs[s] == if k.procs[s].pid == pid then k.procs[s].(state := Ready) else k.procs[s]
  {
    hide QueuesMatch;
    FindUnique(k, s);
  }

  lemma {:induction false} WakeAllWakes(k: Kernel, pids: seq<int>, s: nat)
    requires Orderly(k) && s < MAX_PROCESSES && k.procs[s].pid != 0 && k.procs[s].state == Blocked
    requires k.procs[s].pid in pids
    ensures WakeAll(k, pids).procs[s].state == Ready
    decreases |pids|
  {
    hide Wake, QueuesMatch, SlotsOk, Settled;
    WakeIs(k, pids[0], s);
    WakeKeepsOrder(k, pids[0]);
    if k.procs[s].pid == pids[0] {
      ReadyStaysReady(Wake(k, pids[0]), pids[1..], s);
    } else {
      WakeAllWakes(Wake(k, pids[0]), pids[1..], s);
    }
  }

  /** A post lets the longest waiter go: it becomes READY and waits nowhere any more. */
  lemma PostLetsFirstGo(k: Kernel, idle: nat, id: nat, s: nat)
    requires Good(k, idle) && ValidId(k.sems, id) && k.sems[id].blocked != []
    requires s < MAX_PROCESSES && k.procs[s].pid == k.sems[id].blocked[0]
    ensures SemPost(k, id).procs[s].state == Ready && !Waiting(SemPost(k, id).sems, k.procs[s].pid)
  {
    hide QueuesMatch, HeapOk;
    var pid := k.procs[s].pid;
    assert pid in k.sems[id].blocked;
    QueuedIsBlocked(k, id, pid);
    QueuedSlot(k, id, s);
    PostKeeps(k, idle, id);
    PostKeepsTable(k.sems, id);
    QueuesIgnoreRest(k, k.(sems := Post(k.sems, id)));
    WakeAllWakes(k.(sems := Post(k.sems, id)), Woken(k.sems, id), s);
  }

  /** The last close of a semaphore makes everybody who waits on it READY: nobody is stranded. */
  lemma LastCloseFreesWaiters(k: Kernel, idle: nat, id: nat, s: nat)
    requires Good(k, idle) && ValidId(k.sems, id) && UsersAfterClose(k.sems[id]) == 0
    requires s < MAX_PROCESSES && k.procs[s].pid in k.sems[id].blocked
    ensures SemClose(k, id).procs[s].state == Ready && !Waiting(SemClose(k, id).sems, k.procs[s].pid)
  {
    hide QueuesMatch, HeapOk;
    var pid := k.procs[s].pid;
    QueuedIsBlocked(k, id, pid);
    QueuedSlot(k, id, s);
    CloseKeeps(k, idle, id);
    CloseKeepsTable(k.sems, id);
    QueuesIgnoreRest(k, k.(sems := Close(k.sems, id)));
    WakeAllWakes(k.(sems := Close(k.sems, id)), WokenByClose(k.sems, id), s);
  }

  lemma QueuedSlot(k: Kernel, id: nat, s: nat)
    requires Shape(k) && SlotsOk(k) && SemsOk(k) && id < |k.sems|
    requires s < MAX_PROCESSES && k.procs[s].pid in k.sems[id].blocked
    ensures k.procs[s].pid != 0 && k.procs[s].state == Blocked
  {
    assert BlockedPid(k, k.procs[s].pid);
    QueuedIsBlocked(k, id, k.procs[s].pid);
    FindUnique(k, s);
  }

  // ----- where runs begin -----

  /** The kernel first creates the idle process, in slot 0; from then on the invariant holds. */
  lemma BootIsGood(stack: nat, named: bool)
    requires stack != 0
    ensures Good(Create(Boot(), PRIORITY_LEVELS - 1, stack, 0, named), 0)
  {
    var p := Proc(1, Ready, PRIORITY_LEVELS - 1, stack, 0);
    var k := Spawn(Boot(), 0, p);
    assert FreeSlotFrom(Boot().procs, 0) == 0;
    assert k.ready[PRIORITY_LEVELS - 1] == [0];
    assert forall s: nat :: 0 < s < MAX_PROCESSES ==> k.procs[s] == Proc(0, Killed, 0, 0, 0);
    assert k.procs[0] == p;
    assert Stacks(k) == {stack};
    assert Argvs(k) == {};
    assert Inv(k, 0);
    if named {
      OpenKeeps(k, 0, WaitName(1), 0);
    }
  }
}
