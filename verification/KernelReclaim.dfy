/** What becomes of the stack, the argument block and the pid of a process that ends. */
module KernelReclaim {
  import opened SemSpec
  import opened KernelSpec
  import opened KernelInvariant
  import opened KernelRuns

  /** What a slot owns: pid, stack and argument block. */
  datatype Owner = Owner(pid: nat, stack: nat, argv: nat)

  function OwnerOf(k: Kernel, t: nat): Owner
    requires Shape(k) && t < MAX_PROCESSES
  {
    Owner(k.procs[t].pid, k.procs[t].stack, k.procs[t].argv)
  }

  const NOBODY := Owner(0, 0, 0)

  /** The call took the two blocks of slot `t` out of the heap; it was not the running one. */
  ghost predicate Reclaims(k: Kernel, c: Call, k': Kernel, t: nat)
    requires Shape(k) && Shape(k') && t < MAX_PROCESSES
  {
    && OwnerOf(k, t).pid != 0 && OwnerOf(k', t) == NOBODY
    && OwnerOf(k, t).stack !in k'.heap && OwnerOf(k, t).argv !in k'.heap
    && t != k.current
    && (t == k.toFree || (c.KillCall? && c.pid == OwnerOf(k, t).pid))
  }

  /** Does the call end process `pid`: by killing it, or by an exit of the process itself? */
  predicate Ends(k: Kernel, c: Call, pid: nat)
    requires Shape(k)
  {
    || (c.KillCall? && c.pid == pid && pid != k.shellPid
        && Find(k.procs, pid) >= 0 && k.procs[Find(k.procs, pid)].state != Killed)
    || (c.ExitCall? && k.current >= 0 && k.procs[k.current].pid == pid)
  }

  ghost predicate Keeps(k: Kernel, c: Call, k': Kernel, t: nat)
    requires Shape(k) && Shape(k') && t < MAX_PROCESSES
  {
    && OwnerOf(k', t) == OwnerOf(k, t)
    && (k'.procs[t].state == Killed <==> k.procs[t].state == Killed || Ends(k, c, OwnerOf(k, t).pid))
  }

  /** Keeps what it owns, loses it for good, or is given a pid never used before. */
  ghost predicate Evolves(k: Kernel, c: Call, k': Kernel, t: nat)
    requires Shape(k) && Shape(k') && t < MAX_PROCESSES
  {
    || Keeps(k, c, k', t)
    || Reclaims(k, c, k', t)
    || (OwnerOf(k, t) == NOBODY && OwnerOf(k', t).pid == k.nextPid)
  }

  // ----- one call -----

  lemma TickOwners(k: Kernel, idle: nat, c: Call, t: nat)
    requires Inv(k, idle) && t < MAX_PROCESSES && !c.KillCall? && !c.ExitCall?
    ensures if t == k.toFree then Reclaims(k, c, Tick(k), t) else Keeps(k, c, Tick(k), t)
    ensures Tick(k).nextPid == k.nextPid
  {
    hide HeapOk, SemsOk, QueuesMatch, Dispatch, Displace;
    ReclaimKeeps(k, idle);
    if !KeepsRunning(Reclaim(k)) {
      SwitchOwners(Reclaim(k), idle, c, t);
    }
  }

  lemma SwitchOwners(k: Kernel, idle: nat, c: Call, t: nat)
    requires Inv(k, idle) && k.toFree == -1 && !KeepsRunning(k) && t < MAX_PROCESSES && !c.KillCall? && !c.ExitCall?
    ensures var k' := Dispatch(Displace(k)); Keeps(k, c, k', t) && k'.nextPid == k.nextPid && k'.heap == k.heap
  {
    hide HeapOk, SemsOk, QueuesMatch, SlotsOk;
    DisplaceKeeps(k, idle);
    NextIsReady(Displace(k).(current := -1), idle);
  }

  lemma StoppedOwners(k: Kernel, k1: Kernel, idle: nat, c: Call, t: nat)
    requires Shape(k) && k.current >= 0 && k.procs[k.current].state == Running && t < MAX_PROCESSES
    requires Shape(k1) && k1 == Stopped(k.(sems := k1.sems)) && Inv(k1, idle)
    requires !c.KillCall? && !c.ExitCall?
    ensures if t == k.toFree then Reclaims(k, c, Tick(k1), t) else Keeps(k, c, Tick(k1), t)
    ensures Tick(k1).nextPid == k.nextPid
  {
    hide HeapOk, SemsOk, QueuesMatch, Tick;
    TickOwners(k1, idle, c, t);
  }

  /** The killed process is not the current one: it loses its blocks at once. */
  lemma RetireOwners(k: Kernel, c: Call, s: nat, t: nat)
    requires Shape(k) && s < MAX_PROCESSES && t < MAX_PROCESSES && s != k.current
    requires c.KillCall? && k.procs[s].pid == c.pid && k.procs[s].pid != 0
    ensures if t == s then Reclaims(k, c, Retire(k, s), t) else Retire(k, s).procs[t] == k.procs[t]
    ensures Retire(k, s).nextPid == k.nextPid
    ensures Retire(k, s).toFree == k.toFree
  {
  }

  /** Waking leaves owners alone and wakes nobody who is dead. */
  lemma WokeOwners(k: Kernel, k': Kernel, t: nat)
    requires Shape(k) && Shape(k') && t < MAX_PROCESSES && Woke(k, k')
    ensures OwnerOf(k', t) == OwnerOf(k, t) && (k'.procs[t].state == Killed <==> k.procs[t].state == Killed)
    ensures k'.current == k.current && k'.toFree == k.toFree && k'.nextPid == k.nextPid
  {
    assert k'.procs[t] == k.procs[t] || (k.procs[t].state == Blocked && k'.procs[t] == k.procs[t].(state := Ready));
  }

  lemma KillOwners(k: Kernel, idle: nat, c: Call, t: nat)
    requires Good(k, idle) && Allowed(k, idle, c) && c.KillCall? && t < MAX_PROCESSES
    ensures Keeps(k, c, Do(k, c), t) || Reclaims(k, c, Do(k, c), t)
    ensures Do(k, c).nextPid == k.nextPid && Do(k, c).toFree == k.toFree
  {
    OnlySlot(k, c.pid, t);
    hide Inv, HeapOk, Settled, Retire, Announce, Find, Woke;
    var s := Find(k.procs, c.pid);
    if s >= 0 && k.procs[s].state != Killed && c.pid != k.shellPid {
      AnnounceKeeps(k, idle, c.pid, c.named);
      var k1 := Announce(k, c.pid, c.named);
      WokeOwners(k, k1, t);
      WokeOwners(k, k1, s);
      if s != k.current {
        var k2 := k1.(sems := RemovePid(k1.sems, c.pid));
        RetireOwners(k2, c, s, t);
        KillRetires(k, c.pid, c.named);
      }
    }
  }

  lemma OnlySlot(k: Kernel, pid: int, t: nat)
    requires Shape(k) && SlotsOk(k) && t < MAX_PROCESSES
    ensures var s := Find(k.procs, pid);
            s >= 0 && k.procs[s].state != Killed ==>
              pid > 0 && k.procs[s].pid == pid && (k.procs[t].pid == pid <==> t == s)
  {
    var s := Find(k.procs, pid);
    if s >= 0 && k.procs[t].pid == pid && pid != 0 {
      FindUnique(k, t);
    }
  }

  lemma ExitOwners(k: Kernel, idle: nat, c: Call, t: nat)
    requires Good(k, idle) && Allowed(k, idle, c) && c.ExitCall? && t < MAX_PROCESSES
    ensures Keeps(k, c, Do(k, c), t) && Do(k, c).nextPid == k.nextPid
    ensures Do(k, c).toFree == k.toFree
  {
    hide HeapOk, SemsOk, QueuesMatch;
    if k.current >= 0 {
      AnnounceKeeps(k, idle, k.procs[k.current].pid, c.named);
      var k1 := Announce(k, k.procs[k.current].pid, c.named);
      assert k1.procs[t] == k.procs[t] || k1.procs[t] == k.procs[t].(state := Ready);
    }
  }

  lemma BlockOwners(k: Kernel, idle: nat, c: Call, t: nat)
    requires Good(k, idle) && Allowed(k, idle, c) && c.BlockCall? && t < MAX_PROCESSES
    ensures Keeps(k, c, Do(k, c), t) || Reclaims(k, c, Do(k, c), t)
    ensures Do(k, c).nextPid == k.nextPid
    ensures t == k.toFree ==> if IsTick(k, c) then Reclaims(k, c, Do(k, c), t) else Do(k, c).toFree == t
  {
    hide HeapOk, SemsOk, QueuesMatch, Tick;
    var s := BlockTarget(k, c.pid);
    if s >= 0 && k.procs[s].state == Running {
      StoppedKeeps(k, idle);
      StoppedOwners(k, Stopped(k), idle, c, t);
    }
  }

  lemma WaitOwners(k: Kernel, idle: nat, c: Call, t: nat)
    requires Good(k, idle) && Allowed(k, idle, c) && c.WaitCall? && t < MAX_PROCESSES
    ensures Keeps(k, c, Do(k, c), t) || Reclaims(k, c, Do(k, c), t)
    ensures Do(k, c).nextPid == k.nextPid
    ensures t == k.toFree ==> if IsTick(k, c) then Reclaims(k, c, Do(k, c), t) else Do(k, c).toFree == t
  {
    hide HeapOk, SemsOk, QueuesMatch, SlotsOk, Tick;
    if ValidId(k.sems, c.id) && Blocks(k.sems[c.id]) {
      WaitStops(k, idle, c.id);
      StoppedOwners(k, Stopped(k.(sems := Wait(k.sems, c.id, CurrentPid(k)))), idle, c, t);
    }
  }

  lemma WakingOwners(k: Kernel, idle: nat, c: Call, t: nat)
    requires Good(k, idle) && Allowed(k, idle, c) && t < MAX_PROCESSES
    requires c.UnblockCall? || c.OpenCall? || c.CloseCall? || c.PostCall?
    ensures Keeps(k, c, Do(k, c), t) && Do(k, c).nextPid == k.nextPid
    ensures Do(k, c).toFree == k.toFree
  {
    hide HeapOk, SemsOk, QueuesMatch, SlotsOk;
    match c
    case UnblockCall(pid) => WakeKeeps(k, idle, pid);
    case OpenCall(name, value) => OpenKeeps(k, idle, name, value);
    case CloseCall(id) => CloseKeeps(k, idle, id);
    case PostCall(id) => PostKeeps(k, idle, id);
  }

  /** What one call does to one slot. */
  lemma StepOwners(k: Kernel, idle: nat, c: Call, t: nat)
    requires Good(k, idle) && Allowed(k, idle, c) && t < MAX_PROCESSES
    ensures Evolves(k, c, Do(k, c), t)
    ensures t == k.toFree ==> Reclaims(k, c, Do(k, c), t) || (Do(k, c).toFree == t && !IsTick(k, c))
    ensures Do(k, c).nextPid >= k.nextPid
  {
    hide HeapOk, SemsOk, QueuesMatch, Reclaims, Keeps, Tick, Kill, Block, SemWait;
    match c
    case CreateCall(_, _, _, _) => CreateOwners(k, idle, c, t);
    case KillCall(_, _) => KillOwners(k, idle, c, t);
    case ExitCall(_) => ExitOwners(k, idle, c, t);
    case BlockCall(_) => BlockOwners(k, idle, c, t);
    case WaitCall(_) => WaitOwners(k, idle, c, t);
    case TimerTick => TickOwners(k, idle, c, t);
    case YieldCall => YieldOwners(k, idle, c, t);
    case NiceCall(_, _) => RestOwners(k, idle, c, t);
    case AllocCall(_) => RestOwners(k, idle, c, t);
    case FreeCall(_) => RestOwners(k, idle, c, t);
    case _ => WakingOwners(k, idle, c, t);
  }

  lemma YieldOwners(k: Kernel, idle: nat, c: Call, t: nat)
    requires Good(k, idle) && c.YieldCall? && t < MAX_PROCESSES
    ensures if t == k.toFree then Reclaims(k, c, Do(k, c), t) else Keeps(k, c, Do(k, c), t)
    ensures Do(k, c).nextPid == k.nextPid
  {
    hide HeapOk, SemsOk, QueuesMatch, SlotsOk, Tick;
    QuantumFree(k, idle, 0);
    TickOwners(k.(quantum := 0), idle, c, t);
  }

  lemma CreateOwners(k: Kernel, idle: nat, c: Call, t: nat)
    requires Good(k, idle) && c.CreateCall? && t < MAX_PROCESSES
    ensures Evolves(k, c, Do(k, c), t)
    ensures Do(k, c).nextPid >= k.nextPid
    ensures Do(k, c).toFree == k.toFree
  {
    hide HeapOk, SemsOk, QueuesMatch;
  }

  lemma RestOwners(k: Kernel, idle: nat, c: Call, t: nat)
    requires Good(k, idle) && t < MAX_PROCESSES && (c.NiceCall? || c.AllocCall? || c.FreeCall?)
    ensures Keeps(k, c, Do(k, c), t) && Do(k, c).nextPid == k.nextPid
    ensures Do(k, c).toFree == k.toFree
  {
    hide HeapOk, SemsOk, QueuesMatch;
  }

  // ----- runs -----

  /** Up to state `m` slot `t` owns what it owned at first, all of it allocated. */
  ghost predicate HeldUntil(states: seq<Kernel>, t: nat, m: nat)
    requires m < |states| && t < MAX_PROCESSES && forall i :: 0 <= i < |states| ==> Shape(states[i])
  {
    forall i :: 0 <= i <= m ==>
      && OwnerOf(states[i], t) == OwnerOf(states[0], t)
      && OwnerOf(states[0], t).stack in states[i].heap
      && (OwnerOf(states[0], t).argv != 0 ==> OwnerOf(states[0], t).argv in states[i].heap)
  }

  ghost predicate PidGone(k: Kernel, pid: nat)
    requires Shape(k)
  {
    pid < k.nextPid && forall r: nat :: r < MAX_PROCESSES ==> k.procs[r].pid != pid
  }

  lemma OwnedIsAllocated(k: Kernel, t: nat)
    requires Shape(k) && HeapOk(k) && t < MAX_PROCESSES && k.procs[t].pid != 0
    ensures k.procs[t].stack in k.heap && (k.procs[t].argv != 0 ==> k.procs[t].argv in k.heap)
  {
    assert k.procs[t].stack in Stacks(k);
    if k.procs[t].argv != 0 {
      assert k.procs[t].argv in Argvs(k);
    }
  }

  /** A pid that has gone never comes back. */
  lemma GoneStaysGone(k: Kernel, idle: nat, c: Call, pid: nat)
    requires Good(k, idle) && Allowed(k, idle, c) && PidGone(k, pid) && pid != 0
    ensures PidGone(Do(k, c), pid)
  {
    hide HeapOk, SemsOk, QueuesMatch, Do, SlotsOk;
    forall r: nat | r < MAX_PROCESSES
      ensures Do(k, c).procs[r].pid != pid
    {
      StepOwners(k, idle, c, r);
      assert OwnerOf(Do(k, c), r).pid != pid;
    }
    StepOwners(k, idle, c, 0);
  }

  lemma ReclaimedIsGone(k: Kernel, idle: nat, c: Call, t: nat)
    requires Good(k, idle) && Allowed(k, idle, c) && t < MAX_PROCESSES && Reclaims(k, c, Do(k, c), t)
    ensures PidGone(Do(k, c), OwnerOf(k, t).pid)
  {
    hide HeapOk, SemsOk, QueuesMatch, Do;
    var pid := OwnerOf(k, t).pid;
    forall r: nat | r < MAX_PROCESSES
      ensures Do(k, c).procs[r].pid != pid
    {
      StepOwners(k, idle, c, r);
      assert OwnerOf(Do(k, c), r).pid != pid;
    }
    StepOwners(k, idle, c, t);
  }

  /** Slot `t` held its blocks up to state `m`; a call then freed them and the pid was gone from there on. */
  ghost predicate Fate(states: seq<Kernel>, calls: seq<Call>, t: nat, n: nat, m: nat)
    requires t < MAX_PROCESSES && n < |states| == |calls| + 1 && forall i :: 0 <= i < |states| ==> Shape(states[i])
  {
    && m <= n && HeldUntil(states, t, m)
    && (forall i :: m < i <= n ==> PidGone(states[i], states[0].procs[t].pid))
    && (m < n ==> Reclaims(states[m], calls[m], states[m + 1], t))
  }

  lemma FateStep(states: seq<Kernel>, calls: seq<Call>, idle: nat, t: nat, n: nat, m: nat) returns (m': nat)
    requires IsRun(states, calls, idle) && n + 1 < |states| && t < MAX_PROCESSES && states[0].procs[t].pid != 0
    requires Good(states[n], idle) && Good(states[n + 1], idle) && Fate(states, calls, t, n, m)
    ensures Fate(states, calls, t, n + 1, m')
  {
    hide HeapOk, SemsOk, QueuesMatch, SlotsOk, Do, Reclaims, PidGone, Allowed;
    m' := m;
    if m < n {
      GoneStaysGone(states[n], idle, calls[n], states[0].procs[t].pid);
    } else {
      assert OwnerOf(states[n], t) == OwnerOf(states[0], t);
      StepOwners(states[n], idle, calls[n], t);
      if Keeps(states[n], calls[n], states[n + 1], t) {
        OwnedIsAllocated(states[n + 1], t);
        m' := n + 1;
      } else {
        ReclaimedIsGone(states[n], idle, calls[n], t);
      }
    }
  }

  /**
   In every run the stack and the argument block of a process stay allocated until one call, which finds it off the
   processor, frees both; after that no process ever carries its pid again.
  */
  lemma {:induction false} FreedOnce(states: seq<Kernel>, calls: seq<Call>, idle: nat, t: nat, n: nat)
    requires IsRun(states, calls, idle) && Good(states[0], idle) && n < |states| && t < MAX_PROCESSES
    requires states[0].procs[t].pid != 0
    ensures exists m: nat :: Fate(states, calls, t, n, m)
  {
    hide Inv, HeapOk, Settled, Fate;
    if n == 0 {
      FateStart(states, calls, idle, t);
    } else {
      FreedOnce(states, calls, idle, t, n - 1);
      RunKeeps(states, calls, idle, n - 1);
      RunKeeps(states, calls, idle, n);
      var m: nat :| Fate(states, calls, t, n - 1, m);
      var m' := FateStep(states, calls, idle, t, n - 1, m);
    }
  }

  lemma FateStart(states: seq<Kernel>, calls: seq<Call>, idle: nat, t: nat)
    requires IsRun(states, calls, idle) && Good(states[0], idle) && t < MAX_PROCESSES && states[0].procs[t].pid != 0
    ensures Fate(states, calls, t, 0, 0)
  {
    hide HeapOk, SemsOk, QueuesMatch, SlotsOk;
    OwnedIsAllocated(states[0], t);
  }

  // ----- a process that ends while it runs -----

  /** Ticks until the killed process in slot `t` is reclaimed. */
  function TicksLeft(k: Kernel, t: nat): nat
    requires Shape(k)
  {
    if t == k.toFree then 1 else 2
  }

  lemma DyingStep(k: Kernel, idle: nat, c: Call, t: nat)
    requires Good(k, idle) && Allowed(k, idle, c) && t < MAX_PROCESSES
    requires k.procs[t].pid != 0 && k.procs[t].state == Killed
    ensures var k' := Do(k, c);
            || PidGone(k', k.procs[t].pid)
            || (Keeps(k, c, k', t) && TicksLeft(k', t) + (if IsTick(k, c) then 1 else 0) <= TicksLeft(k, t))
  {
    StepKeeps(k, idle, c);
    hide HeapOk, SemsOk, QueuesMatch, Do, Reclaims;
    StepOwners(k, idle, c, t);
    if Reclaims(k, c, Do(k, c), t) {
      ReclaimedIsGone(k, idle, c, t);
    } else if IsTick(k, c) {
      AfterTickRunning(k, idle, c);
    }
  }

  lemma AfterTickRunning(k: Kernel, idle: nat, c: Call)
    requires Good(k, idle) && Allowed(k, idle, c) && IsTick(k, c)
    ensures Do(k, c).current >= 0 && Do(k, c).procs[Do(k, c).current].state == Running
  {
    hide HeapOk, SemsOk, QueuesMatch, SlotsOk, Tick;
    match c
    case WaitCall(id) =>
      WaitStops(k, idle, id);
      TickKeeps(Stopped(k.(sems := Wait(k.sems, id, CurrentPid(k)))), idle);
    case BlockCall(pid) =>
      BlocksItself(k, idle, pid);
      StoppedKeeps(k, idle);
      TickKeeps(Stopped(k), idle);
    case TimerTick => TickKeeps(k, idle);
    case YieldCall =>
      QuantumFree(k, idle, 0);
      TickKeeps(k.(quantum := 0), idle);
    case _ =>
  }

  /** A process that was killed, or has exited, while it ran is reclaimed by the second tick at the latest. */
  lemma {:induction false} DyingIsReclaimed(states: seq<Kernel>, calls: seq<Call>, idle: nat, t: nat, n: nat)
    requires IsRun(states, calls, idle) && Good(states[0], idle) && n < |states| && t < MAX_PROCESSES
    requires states[0].procs[t].pid != 0 && states[0].procs[t].state == Killed
    ensures PidGone(states[n], states[0].procs[t].pid)
            || (OwnerOf(states[n], t) == OwnerOf(states[0], t) && states[n].procs[t].state == Killed
                && TicksLeft(states[n], t) + Ticks(states, calls, n) <= 2)
    ensures Ticks(states, calls, n) >= 2 ==> PidGone(states[n], states[0].procs[t].pid)
  {
    hide Inv, HeapOk, Settled, Do, PidGone, Ends;
    if n > 0 {
      DyingIsReclaimed(states, calls, idle, t, n - 1);
      RunKeeps(states, calls, idle, n - 1);
      if PidGone(states[n - 1], states[0].procs[t].pid) {
        GoneStaysGone(states[n - 1], idle, calls[n - 1], states[0].procs[t].pid);
      } else {
        DyingStep(states[n - 1], idle, calls[n - 1], t);
      }
    }
  }
}
