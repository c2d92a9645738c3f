/** The calls that break the kernel's invariant: exactly those that `KernelRuns.Proper` leaves out. */
module KernelLimits {
  import opened SemSpec
  import opened KernelSpec
  import opened KernelInvariant
  import opened KernelRuns

  /**
   `SYS_UNBLOCK` on a process that waits on a semaphore would let it out of `sem_wait` without a unit, its pid still
   queued: the invariant survives the call exactly when the process waits on none.
  */
  lemma UnblockKeepsIff(k: Kernel, idle: nat, pid: int)
    requires Good(k, idle)
    ensures Good(Wake(k, pid), idle) <==> !Waiting(k.sems, pid)
  {
    hide QueuesMatch, HeapOk;
    if Waiting(k.sems, pid) {
      var i :| 0 <= i < |k.sems| && pid in k.sems[i].blocked;
      QueuedIsBlocked(k, i, pid);
      var s := Find(k.procs, pid);
      var k' := Wake(k, pid);
      assert k'.procs[s].state == Ready && k'.sems == k.sems;
      if Good(k', idle) {
        QueuedIsBlocked(k', i, pid);
        FindUnique(k', s);
      }
    } else {
      WakeKeeps(k, idle, pid);
    }
  }

  /**
   A wait that would block keeps the invariant exactly when the caller is RUNNING and not the idle process. A process
   that has been killed and runs on until the next timer switch is queued after `sem_remove_pid` has looked for it;
   its pid stays in the queue and will swallow a post.
  */
  lemma WaitKeepsIff(k: Kernel, idle: nat, id: int)
    requires Good(k, idle) && k.current >= 0
    ensures Good(SemWait(k, id), idle) <==> MayWait(k, idle, id)
  {
    if MayWait(k, idle, id) {
      SemWaitKeeps(k, idle, id);
    } else if k.procs[k.current].state == Running {
      IdleWaits(k, idle, id);
    } else {
      KilledWaits(k, idle, id);
    }
  }

  /** The queue has room, so the pid of the killed process goes in. */
  lemma KilledWaits(k: Kernel, idle: nat, id: int)
    requires Good(k, idle) && ValidId(k.sems, id) && Blocks(k.sems[id])
    requires k.current >= 0 && k.procs[k.current].state == Killed
    ensures CurrentPid(k) in SemWait(k, id).sems[id].blocked && !Good(SemWait(k, id), idle)
  {
    hide QueuesMatch, HeapOk;
    WaiterAlwaysFits(k, idle, id);
    var k' := SemWait(k, id);
    FindUnique(k, k.current);
    if Good(k', idle) {
      QueuedIsBlocked(k', id, CurrentPid(k));
    }
  }

  /** A post whose first waiter is not BLOCKED wakes nobody and leaves no unit. */
  lemma SwallowedPost(k: Kernel, id: int)
    requires Shape(k) && ValidId(k.sems, id) && k.sems[id].blocked != []
    requires var s := Find(k.procs, k.sems[id].blocked[0]); s < 0 || k.procs[s].state != Blocked
    ensures SemPost(k, id).procs == k.procs && SemPost(k, id).ready == k.ready
    ensures SemPost(k, id).sems == k.sems[id := k.sems[id].(blocked := k.sems[id].blocked[1..])]
  {
    var first := k.sems[id].blocked[0];
    assert Woken(k.sems, id) == [first];
    assert [first][1..] == [];
    hide Find;
    assert WakeAll(k.(sems := Post(k.sems, id)), [first]) == Wake(k.(sems := Post(k.sems, id)), first);
  }

  /** The timer leaves a BLOCKED process as it is. */
  lemma BlockedStays(k: Kernel, s: nat)
    requires Shape(k) && QueuesMatch(k) && s < MAX_PROCESSES && k.procs[s].state == Blocked
    requires k.current >= 0 && k.procs[k.current].state == Blocked
    ensures Tick(k).procs[s].state == Blocked
  {
    var k1 := Reclaim(k);
    assert k1.ready == k.ready && Displace(k1) == k1;
    PickedIsQueued(k.ready, 0);
  }

  lemma {:induction false} PickedIsQueued(ready: seq<seq<nat>>, l: nat)
    requires l <= |ready|
    ensures PickFrom(ready, l) >= 0 ==> exists i: nat :: i < |ready| && PickFrom(ready, l) in ready[i]
    decreases |ready| - l
  {
    if l < |ready| && ready[l] == [] {
      PickedIsQueued(ready, l + 1);
    }
  }

  lemma IdleParks(k: Kernel, idle: nat, t: Table)
    requires Good(k, idle) && k.current == idle && k.procs[idle].state == Running
    ensures Park(k.(sems := t)).procs[idle].state == Blocked
  {
    hide HeapOk, SemsOk, Tick;
    var k1 := Stopped(k.(sems := t));
    var k2 := SetState(k, idle, Blocked);
    PutKeepsQueues(k, idle, k2.procs[idle]);
    QueuesIgnoreRest(k2, k1);
    BlockedStays(k1, idle);
  }

  lemma IdleWaits(k: Kernel, idle: nat, id: int)
    requires Good(k, idle) && k.current == idle && k.procs[idle].state == Running
    requires ValidId(k.sems, id) && Blocks(k.sems[id])
    ensures !Good(SemWait(k, id), idle)
  {
    hide HeapOk, SemsOk, QueuesMatch, SlotsOk, Park;
    IdleParks(k, idle, Wait(k.sems, id, CurrentPid(k)));
  }

  lemma IdlePid(k: Kernel, idle: nat)
    requires Good(k, idle)
    ensures k.procs[idle].pid != 0 && Find(k.procs, k.procs[idle].pid) == idle
  {
    FindUnique(k, idle);
  }

  lemma BlockKeepsIff(k: Kernel, idle: nat, pid: int)
    requires Good(k, idle)
    ensures Good(Block(k, pid), idle) <==> Proper(k, idle, BlockCall(pid))
  {
    if Proper(k, idle, BlockCall(pid)) {
      BlockKeeps(k, idle, pid);
    } else {
      IdlePid(k, idle);
      assert BlockTarget(k, pid) == idle;
      if k.procs[idle].state == Running {
        IdleParks(k, idle, k.sems);
        assert k.(sems := k.sems) == k;
      }
      hide HeapOk, SemsOk, Park;
      assert Block(k, pid).procs[idle].state == Blocked;
    }
  }

  lemma KillKeepsIff(k: Kernel, idle: nat, pid: int, named: bool)
    requires Good(k, idle)
    ensures Good(Kill(k, pid, named), idle) <==> Proper(k, idle, KillCall(pid, named))
  {
    if Proper(k, idle, KillCall(pid, named)) {
      KillKeeps(k, idle, pid, named);
    } else {
      IdlePid(k, idle);
      hide HeapOk, SemsOk, QueuesMatch, Announce;
      assert Kill(k, pid, named).procs[idle].state == Killed;
    }
  }

  lemma ExitKeepsIff(k: Kernel, idle: nat, named: bool)
    requires Good(k, idle)
    ensures Good(Exit(k, named), idle) <==> k.current != idle
  {
    if k.current != idle {
      ExitKeeps(k, idle, named);
    } else {
      hide HeapOk, SemsOk, QueuesMatch, Announce;
      assert Exit(k, named).procs[idle].state == Killed;
    }
  }

  /** Giving back a stack or an argument block that belongs to a process breaks the books of the heap. */
  lemma FreeKeepsIff(k: Kernel, idle: nat, ptr: nat)
    requires Good(k, idle)
    ensures Good(Do(k, FreeCall(ptr)), idle) <==> ptr in k.user || ptr !in k.heap
  {
    var k' := Do(k, FreeCall(ptr));
    if ptr in k.user || ptr !in k.heap {
      StepKeeps(k, idle, FreeCall(ptr));
    } else {
      hide QueuesMatch, SemsOk, SlotsOk, Stacks, Argvs;
      SameOwners(k, k');
      assert ptr in Stacks(k) + Argvs(k) && ptr !in k'.heap;
    }
  }

  lemma SameOwners(k: Kernel, k': Kernel)
    requires Shape(k) && Shape(k') && k'.procs == k.procs
    ensures Stacks(k') == Stacks(k) && Argvs(k') == Argvs(k)
  {
  }

  /** With honest answers from the allocator, a kernel entry keeps the invariant exactly when the call is proper. */
  lemma StepKeepsIff(k: Kernel, idle: nat, c: Call)
    requires Good(k, idle) && Possible(k, c)
    ensures Good(Do(k, c), idle) <==> Proper(k, idle, c)
  {
    hide Good, Tick, Kill, Block, SemWait, Exit, Wake;
    match c
    case KillCall(pid, named) => KillKeepsIff(k, idle, pid, named);
    case ExitCall(named) => ExitKeepsIff(k, idle, named);
    case BlockCall(pid) => BlockKeepsIff(k, idle, pid);
    case UnblockCall(pid) => UnblockKeepsIff(k, idle, pid);
    case WaitCall(id) => WaitKeepsIff(k, idle, id);
    case FreeCall(ptr) => FreeKeepsIff(k, idle, ptr);
    case _ => StepKeeps(k, idle, c);
  }
}
