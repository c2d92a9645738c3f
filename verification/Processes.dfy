/** Kernel/process/process.c and the process calls of Kernel/syscall/syscall.c, over scheduler and semaphores. */
module Processes {
  import opened SemSpec
  import opened KernelSpec
  import opened KernelInvariant
  import opened Scheduler
  import opened Semaphores
  import ReadyBooks
  import WaitNames
  import opened KernelRuns

  // ----- none of these looks at a semaphore -----

  lemma SpawnElsewhere(k: Kernel, s: nat, p: Proc, t: Table)
    requires Shape(k) && s < MAX_PROCESSES
    ensures Spawn(k.(sems := t), s, p) == Spawn(k, s, p).(sems := t)
  {
  }

  lemma RetireElsewhere(k: Kernel, s: nat, t: Table)
    requires Shape(k) && s < MAX_PROCESSES
    ensures Retire(k.(sems := t), s) == Retire(k, s).(sems := t)
  {
  }

  lemma NiceElsewhere(k: Kernel, pid: int, priority: int, t: Table)
    requires Shape(k)
    ensures Nice(k.(sems := t), pid, priority) == Nice(k, pid, priority).(sems := t)
  {
  }

  lemma BlockElsewhere(k: Kernel, pid: int, t: Table)
    requires Shape(k)
    ensures Block(k.(sems := t), pid) == Block(k, pid).(sems := t)
  {
    hide Tick, Find;
    if k.current >= 0 {
      TickElsewhere(Stopped(k), t);
    }
  }

  lemma CreateSpawns(k: Kernel, priority: int, stack: nat, argv: nat, named: bool)
    requires Shape(k)
    ensures var s := FreeSlotFrom(k.procs, 0);
            s >= 0 && stack != 0 ==>
              var k1 := Spawn(k, s, Proc(k.nextPid, Ready, ListOf(priority), stack, argv));
              Create(k, priority, stack, argv, named) == if named then SemOpen(k1, WaitName(k.nextPid), 0) else k1
  {
    hide WaitName, Open;
  }

  lemma FoundIsIssued(k: Kernel, pid: int)
    requires Orderly(k) && Find(k.procs, pid) >= 0
    ensures pid < k.nextPid
  {
  }

  lemma BootIsOrderly(k: Kernel)
    requires k == Boot().(sems := [])
    ensures Orderly(k)
  {
  }

  lemma CreateNothing(k: Kernel, priority: int, stack: nat, argv: nat, named: bool)
    requires Shape(k)
    ensures FreeSlotFrom(k.procs, 0) < 0 || stack == 0 ==> Create(k, priority, stack, argv, named) == k
  {
  }

  class Processes {
    const sems: Semaphores
    const sched: Scheduler

    constructor ()
      ensures Valid() && sems.K() == Boot()
    {
      hide ReadyBooks.Kept, Scheduler.Linked, Semaphores.Separate, Semaphores.TableBelow, Scheduler.ProcsBelow, Orderly;
      hide Scheduler.Abs, Boot;
      var s := new Scheduler();
      var t := new Semaphores(s);
      sched := s;
      sems := t;
      new;
      BootIsOrderly(sched.Abs());
    }

    /** The tables and lists are in order. */
    ghost predicate Sane()
      reads sems, sems.sems, sched, sched.heads, sched.table
    {
      sems.sched == sched && sems.Valid() && sched.Valid()
    }

    ghost predicate Valid()
      reads sems, sems.sems, sched, sched.heads, sched.table
    {
      sems.sched == sched && sems.Ready()
    }

    /** `get_free_pcb` */
    method GetFreePcb() returns (p: Pcb?)
      requires sched.Valid()
      ensures sched.KnownOrNull(p) && SlotOf(p) == FreeSlotFrom(sched.Abs().procs, 0)
    {
      hide ReadyBooks.Kept, Scheduler.Linked;
      var i := 0;
      while i < MAX_PROCESSES
        invariant 0 <= i <= MAX_PROCESSES
        invariant FreeSlotFrom(sched.Abs().procs, 0) == FreeSlotFrom(sched.Abs().procs, i)
      {
        assert sched.Abs().procs[i] == sched.ProcOf(sched.table[i]);
        if sched.table[i].state == Killed && sched.table[i].pid == 0 {
          return sched.table[i];
        }
        i := i + 1;
      }
      return null;
    }

    /** Open the wait semaphore of `pid`, post it and close it again, unless its name cannot be built. */
    method AnnounceEnd(pid: nat, named: bool)
      requires Valid() && pid < WaitNames.PID_LIMIT
      modifies sems.sems, sems.pool, sched`books, sched.heads, sched.table`next, sched.table`prev, sched.table`state
      ensures Valid() && sems.K() == Announce(old(sems.K()), pid, named)
    {
      hide WaitName, Orderly, ReadyBooks.Kept, Scheduler.Linked, SemPost, SemClose, Open, OpenId;
      hide Semaphores.Separate, Semaphores.TableBelow, Scheduler.Abs, Scheduler.ProcsBelow;
      var semName := WaitNames.BuildWaitSemName(pid, named);
      if semName != null {
        var id := OpenForEnd(semName[..semName.Length - 1]);
        if id >= 0 {
          PostAndClose(id);
        }
      }
    }

    method OpenForEnd(name: string) returns (id: int)
      requires Valid()
      modifies sems.sems
      ensures Valid() && id == OpenId(old(sems.K()).sems, name) && sems.K() == SemOpen(old(sems.K()), name, 0)
    {
      hide Orderly, ReadyBooks.Kept, Scheduler.Linked, Open, OpenId;
      hide Semaphores.Separate, Semaphores.TableBelow, Scheduler.Abs, Scheduler.ProcsBelow;
      id := sems.SemOpen(name, 0);
    }

    method PostAndClose(id: int)
      requires Valid()
      modifies sems.sems, sems.pool, sched`books, sched.heads, sched.table`next, sched.table`prev, sched.table`state
      ensures Valid() && sems.K() == SemClose(SemPost(old(sems.K()), id), id)
    {
      hide Orderly, ReadyBooks.Kept, Scheduler.Linked, SemPost, SemClose;
      hide Semaphores.Separate, Semaphores.TableBelow, Scheduler.Abs, Scheduler.ProcsBelow;
      var posted := sems.SemPost(id);
      var closed := sems.SemClose(id);
    }

    /** `create_process`; `stack`, `argv`: what the allocator answers; `named`: does it have room for the name? */
    method CreateProcess(priority: int, stack: nat, argv: nat, named: bool) returns (pid: int)
      requires Valid() && 0 < sched.nextPid < WaitNames.PID_LIMIT
      modifies sems.sems, sched, sched.heads, sched.table
      ensures Sane() && sems.K() == Create(old(sems.K()), priority, stack, argv, named)
      ensures pid == if FreeSlotFrom(old(sems.K()).procs, 0) < 0 || stack == 0 then -1 else old(sched.nextPid)
    {
      hide WaitName, Orderly, ReadyBooks.Kept, Scheduler.Linked, Open, FreeSlotFrom, Spawn, Create;
      hide Semaphores.Separate, Semaphores.TableBelow, Scheduler.ProcsBelow;
      var prio := if priority < 0 || priority >= PRIORITY_LEVELS then 2 else priority;
      CreateNothing(sems.K(), priority, stack, argv, named);
      CreateSpawns(sems.K(), priority, stack, argv, named);
      var p := GetFreePcb();
      if p == null {
        return -1;
      }
      if stack == 0 {
        return -1;
      }
      pid := sched.nextPid;
      SpawnNew(p, prio, stack, argv);
      OpenWaitSem(pid, named);
    }

    method OpenWaitSem(pid: nat, named: bool)
      requires Sane() && 0 < pid < WaitNames.PID_LIMIT
      modifies sems.sems
      ensures Sane() && sems.K() == if named then SemOpen(old(sems.K()), WaitName(pid), 0) else old(sems.K())
    {
      hide WaitName, ReadyBooks.Kept, Scheduler.Linked, Open;
      hide Semaphores.Separate, Semaphores.TableBelow, Scheduler.ProcsBelow, Scheduler.Abs;
      var semName := WaitNames.BuildWaitSemName(pid, named);
      if semName != null {
        var id := sems.SemOpen(semName[..semName.Length - 1], 0);
      }
    }

    method SpawnNew(p: Pcb, prio: nat, stack: nat, argv: nat)
      requires Valid() && sched.Known(p) && p.state == Killed && p.pid == 0 && prio < PRIORITY_LEVELS && stack != 0
      modifies sched, sched.heads, sched.table
      ensures Sane()
      ensures sems.K() == Spawn(old(sems.K()), p.slot, Proc(old(sched.nextPid), Ready, prio, stack, argv))
    {
      hide Orderly, ReadyBooks.Kept, Scheduler.Linked, Spawn;
      hide Semaphores.Separate, Semaphores.TableBelow, Scheduler.ProcsBelow, Scheduler.Abs;
      SpawnElsewhere(sched.Abs(), p.slot, Proc(sched.nextPid, Ready, prio, stack, argv), sems.Table());
      SpawnIn(p, prio, stack, argv);
    }

    /** The slot is filled in and queued. */
    method SpawnIn(p: Pcb, prio: nat, stack: nat, argv: nat)
      requires sched.Valid() && Orderly(sched.Abs()) && sched.Known(p) && p.state == Killed && p.pid == 0
      requires prio < PRIORITY_LEVELS && stack != 0
      modifies sched, sched.heads, sched.table
      ensures sched.Valid()
      ensures sched.Abs() == Spawn(old(sched.Abs()), p.slot, Proc(old(sched.nextPid), Ready, prio, stack, argv))
    {
      hide QueuesMatch, SlotsOk, ReadyBooks.Kept, Scheduler.Linked, Scheduler.ProcsBelow, Enqueue;
      ReadyBooks.LevelOfReady(sched.books, sched.Abs(), p.slot);
      Fill(p, prio, stack, argv);
      sched.AddToReadyQueue(p);
    }

    method Fill(p: Pcb, prio: nat, stack: nat, argv: nat)
      requires sched.Valid() && sched.Known(p) && stack != 0
      modifies sched`heap, sched`nextPid, p`pid, p`state, p`priority, p`stack, p`argv
      ensures sched.Valid() && sched.books == old(sched.books)
      ensures var k := old(sched.Abs());
              sched.Abs() == Put(k, p.slot, Proc(k.nextPid, Ready, prio, stack, argv)).(nextPid := k.nextPid + 1,
                               heap := k.heap + {stack} + if argv == 0 then {} else {argv})
    {
      hide ReadyBooks.Kept, Scheduler.Linked, Scheduler.ProcsBelow;
      Reserve(stack, argv);
      p.pid := sched.nextPid;
      sched.nextPid := sched.nextPid + 1;
      p.state := Ready;
      p.priority := prio;
      p.stack := stack;
      p.argv := argv;
      assert sched.Procs() == old(sched.Procs())[p.slot := sched.ProcOf(p)];
    }

    /** The two blocks are taken from the allocator; 0 stands for none. */
    method Reserve(stack: nat, argv: nat)
      requires sched.Valid() && stack != 0
      modifies sched`heap
      ensures sched.Valid() && sched.heap == old(sched.heap) + {stack} + if argv == 0 then {} else {argv}
    {
      sched.heap := sched.heap + {stack};
      if argv != 0 {
        sched.heap := sched.heap + {argv};
      }
    }

    /** `kill_process` */
    method KillProcess(pid: nat, named: bool)
      requires Valid() && sched.nextPid <= INT_LIMIT
      modifies sems.sems, sems.pool, sched, sched.heads, sched.table
      ensures Sane() && sems.K() == Kill(old(sems.K()), pid, named)
    {
      hide Orderly, ReadyBooks.Kept, Scheduler.Linked, Announce, RemovePid, Find, Retire;
      hide Semaphores.Separate, Semaphores.TableBelow, Scheduler.ProcsBelow;
      var p := sched.GetProcessByPid(pid);
      if p == null || p.state == Killed || pid == sched.shellPid {
        return;
      }
      KillRetires(sems.K(), pid, named);
      FoundIsIssued(sched.Abs(), pid);
      Disconnect(pid, named);
      if p == sched.current {
        MarkKilled(p);
        return;
      }
      RetireNow(p);
    }

    /** Whoever waits for the process is woken, and the process leaves the semaphore queues. */
    method Disconnect(pid: nat, named: bool)
      requires Valid() && pid < INT_LIMIT
      modifies sems.sems, sems.pool, sched`books, sched.heads, sched.table`next, sched.table`prev, sched.table`state
      ensures Valid()
      ensures var k := Announce(old(sems.K()), pid, named); sems.K() == k.(sems := RemovePid(k.sems, pid))
    {
      hide Orderly, ReadyBooks.Kept, Scheduler.Linked, Announce, RemovePid;
      hide Semaphores.Separate, Semaphores.TableBelow, Scheduler.ProcsBelow, Scheduler.Abs;
      AnnounceEnd(pid, named);
      LeaveQueues(pid);
    }

    method LeaveQueues(pid: nat)
      requires Valid() && pid < INT_LIMIT
      modifies sems.sems, sems.pool
      ensures Valid() && sems.K() == old(sems.K()).(sems := RemovePid(old(sems.K()).sems, pid))
    {
      hide Orderly, ReadyBooks.Kept, Scheduler.Linked, RemovePid, Find;
      hide Semaphores.Separate, Semaphores.TableBelow, Scheduler.ProcsBelow, Scheduler.Abs;
      sems.SemRemovePid(AsInt(pid));
    }

    method MarkKilled(p: Pcb)
      requires Sane() && sched.Known(p)
      modifies p`state
      ensures Sane() && sems.K() == SetState(old(sems.K()), p.slot, Killed)
    {
      hide ReadyBooks.Kept, Scheduler.Linked, Semaphores.Separate, Semaphores.TableBelow, Scheduler.ProcsBelow;
      sched.SetState(p, Killed);
    }

    method RetireNow(p: Pcb)
      requires Valid() && sched.Known(p)
      modifies sched`books, sched`heap, sched.heads, sched.table
      ensures Sane() && sems.K() == Retire(old(sems.K()), p.slot)
    {
      hide Orderly, ReadyBooks.Kept, Scheduler.Linked, Retire;
      hide Semaphores.Separate, Semaphores.TableBelow, Scheduler.ProcsBelow, Scheduler.Abs;
      RetireElsewhere(sched.Abs(), p.slot, sems.Table());
      RetireSlot(p);
    }

    /** A process that is not the current one leaves its list, dies and gives its memory back. */
    method RetireSlot(p: Pcb)
      requires sched.Valid() && Orderly(sched.Abs()) && sched.Known(p)
      modifies sched`books, sched`heap, sched.heads, sched.table
      ensures sched.Valid() && sched.Abs() == Retire(old(sched.Abs()), p.slot)
    {
      hide QueuesMatch, SlotsOk, ReadyBooks.Kept, Scheduler.Linked, Scheduler.ProcsBelow, FreeResources, Dequeue;
      if p.state == Ready {
        ReadyBooks.LevelOfReady(sched.books, sched.Abs(), p.slot);
        sched.RemoveFromReadyQueue(p);
      }
      sched.SetState(p, Killed);
      sched.FreePcbResources(p);
    }

    /** `exit_current_process` */
    method ExitCurrentProcess(named: bool)
      requires Valid() && (sched.current != null ==> sched.current.pid < WaitNames.PID_LIMIT)
      modifies sems.sems, sems.pool, sched, sched.heads, sched.table
      ensures Sane() && sems.K() == Exit(old(sems.K()), named)
    {
      hide Orderly, ReadyBooks.Kept, Scheduler.Linked, Announce;
      hide Semaphores.Separate, Semaphores.TableBelow, Scheduler.ProcsBelow;
      if sched.current == null {
        return;
      }
      AnnounceEnd(sched.current.pid, named);
      MarkKilled(sched.current);
    }

    /** `set_process_priority` */
    method SetProcessPriority(pid: nat, priority: int) returns (rc: int)
      requires Valid()
      modifies sched`books, sched.heads, sched.table
      ensures Sane() && sems.K() == Nice(old(sems.K()), pid, priority)
      ensures rc == if NiceRefused(old(sems.K()), pid, priority) then -1 else 0
      ensures rc == 0 ==> var s := Find(old(sems.K()).procs, pid); s >= 0 && sched.table[s].priority == priority
    {
      hide Orderly, ReadyBooks.Kept, Scheduler.Linked, Nice;
      hide Semaphores.Separate, Semaphores.TableBelow, Scheduler.ProcsBelow;
      NiceElsewhere(sched.Abs(), pid, priority, sems.Table());
      rc := Renice(pid, priority);
    }

    method Renice(pid: nat, priority: int) returns (rc: int)
      requires sched.Valid() && Orderly(sched.Abs())
      modifies sched`books, sched.heads, sched.table
      ensures sched.Valid() && sched.Abs() == Nice(old(sched.Abs()), pid, priority)
      ensures rc == if NiceRefused(old(sched.Abs()), pid, priority) then -1 else 0
      ensures rc == 0 ==> var s := Find(old(sched.Abs()).procs, pid); s >= 0 && sched.table[s].priority == priority
    {
      hide QueuesMatch, SlotsOk, ReadyBooks.Kept, Scheduler.Linked, Scheduler.ProcsBelow, Find, Enqueue, Dequeue;
      if priority < 0 || priority >= PRIORITY_LEVELS {
        return -1;
      }
      var p := sched.GetProcessByPid(pid);
      if p == null || p.state == Killed {
        return -1;
      }
      if p.state == Ready && p.priority != priority {
        ReadyBooks.LevelOfReady(sched.books, sched.Abs(), p.slot);
        sched.RemoveFromReadyQueue(p);
        SetPriority(p, priority);
        sched.AddToReadyQueue(p);
      } else {
        SetPriority(p, priority);
      }
      return 0;
    }

    method SetPriority(p: Pcb, priority: int)
      requires sched.Valid() && sched.Known(p)
      modifies p`priority
      ensures var k := old(sched.Abs());
              sched.Valid() && sched.Abs() == Put(k, p.slot, k.procs[p.slot].(priority := priority))
    {
      hide ReadyBooks.Kept, Scheduler.Linked;
      p.priority := priority;
      assert sched.Procs() == old(sched.Procs())[p.slot := sched.ProcOf(p)];
    }

    /** `syscall_block`; a process that blocks itself runs until the next timer interrupt, which is part of the step. */
    method SyscallBlock(target: nat, ghost idle: nat)
      requires sched.current != null ==> sched.current.pid < INT_LIMIT
      requires Valid() && Idle(sched.Abs(), idle)
      requires target != sched.table[idle].pid && (target == 0 ==> sched.current == null || sched.current.slot != idle)
      modifies sched, sched.heads, sched.table
      ensures Sane() && sems.K() == Block(old(sems.K()), target)
    {
      hide QueuesMatch, SlotsOk, ReadyBooks.Kept, Scheduler.Linked, Find, Block, Tick, Dequeue, Stopped;
      hide Semaphores.Separate, Semaphores.TableBelow, Scheduler.ProcsBelow;
      BlockElsewhere(sched.Abs(), target, sems.Table());
      BlockProcess(target, idle);
    }

    method BlockProcess(target: nat, ghost idle: nat)
      requires sched.current != null ==> sched.current.pid < INT_LIMIT
      requires Valid() && Idle(sched.Abs(), idle)
      requires target != sched.table[idle].pid && (target == 0 ==> sched.current == null || sched.current.slot != idle)
      modifies sched, sched.heads, sched.table
      ensures sched.Valid() && sched.Abs() == Block(old(sched.Abs()), target)
    {
      hide QueuesMatch, SlotsOk, ReadyBooks.Kept, Scheduler.Linked, BlockTarget, Tick, Dequeue, Stopped;
      hide Semaphores.Separate, Semaphores.TableBelow, Scheduler.ProcsBelow;
      var p := ProcessToBlock(target);
      if p != null && p.state == Running {
        BlocksItself(sched.Abs(), idle, target);
        sched.ParkCurrent(idle);
      } else if p != null && p.state == Ready {
        ReadyBooks.LevelOfReady(sched.books, sched.Abs(), p.slot);
        sched.RemoveFromReadyQueue(p);
        sched.SetState(p, Blocked);
      }
    }

    /** The process that `syscall_block` is about: the caller itself for pid 0. */
    method ProcessToBlock(target: nat) returns (p: Pcb?)
      requires sched.current != null ==> sched.current.pid < INT_LIMIT
      requires Valid()
      ensures sched.KnownOrNull(p) && SlotOf(p) == BlockTarget(sched.Abs(), target)
    {
      hide Orderly, ReadyBooks.Kept, Scheduler.Linked, Find;
      hide Semaphores.Separate, Semaphores.TableBelow, Scheduler.ProcsBelow;
      var pid: int := target;
      if target == 0 {
        var cur := sems.CurrentPid();
        if cur > 0 {
          pid := cur;
        }
      }
      p := sched.GetProcessByPid(pid);
    }

    /** A timer interrupt. */
    method Interrupt(ghost idle: nat)
      requires Valid() && Idle(sched.Abs(), idle)
      modifies sched, sched.heads, sched.table
      ensures Sane() && sems.K() == Tick(old(sems.K()))
    {
      hide Tick, QueuesMatch, SlotsOk, ReadyBooks.Kept, Scheduler.Linked, Semaphores.Separate, Semaphores.TableBelow;
      hide Scheduler.Abs;
      TickElsewhere(sched.Abs(), sems.Table());
      var switched := sched.Schedule(idle);
    }

    /** `syscall_unblock` */
    method SyscallUnblock(pid: int)
      requires Valid()
      modifies sched`books, sched.heads, sched.table`next, sched.table`prev, sched.table`state
      ensures Sane() && sems.K() == Wake(old(sems.K()), pid)
    {
      hide Wake, Orderly, ReadyBooks.Kept, Scheduler.Linked, Semaphores.Separate, Semaphores.TableBelow, Scheduler.Abs;
      WakeElsewhere(sched.Abs(), pid, sems.Table());
      sems.Unblock(pid);
    }

    /** User code is handed a block, or gives one back. */
    method UserBlock(ptr: nat, allocate: bool)
      requires Sane() && (allocate ==> ptr != 0)
      modifies sched`heap, sched`user
      ensures Sane()
      ensures var k := old(sems.K());
              sems.K() == if allocate then k.(heap := k.heap + {ptr}, user := k.user + {ptr})
                          else k.(heap := k.heap - {ptr}, user := k.user - {ptr})
    {
      hide ReadyBooks.Kept, Scheduler.Linked, Semaphores.Separate, Semaphores.TableBelow, Scheduler.ProcsBelow;
      if allocate {
        sched.heap := sched.heap + {ptr};
        sched.user := sched.user + {ptr};
      } else {
        sched.heap := sched.heap - {ptr};
        sched.user := sched.user - {ptr};
      }
    }

    /** Every kernel entry, on the linked lists and arrays, is the step of the kernel value, and keeps the invariant. */
    method Perform(c: Call, ghost idle: nat)
      requires Sane() && Good(sems.K(), idle) && Allowed(sems.K(), idle, c)
      requires sched.nextPid <= INT_LIMIT && InRange(c)
      modifies sems.sems, sems.pool, sched, sched.heads, sched.table
      ensures Sane() && sems.K() == Do(old(sems.K()), c) && Good(sems.K(), idle)
    {
      hide Do, QueuesMatch, SlotsOk, HeapOk, SemsOk, Settled, Orderly, ReadyBooks.Kept, Scheduler.Linked;
      hide Semaphores.Separate, Semaphores.TableBelow, Scheduler.ProcsBelow;
      StepKeeps(sems.K(), idle, c);
      OrderlyElsewhere(sems.K(), idle, []);
      assert sched.Abs() == sems.K().(sems := []);
      if c.OpenCall? || c.CloseCall? || c.WaitCall? || c.PostCall? {
        PerformSem(c, idle);
      } else if c.CreateCall? || c.KillCall? || c.ExitCall? || c.NiceCall? {
        PerformProcess(c);
      } else {
        PerformRest(c, idle);
      }
    }

    method PerformSem(c: Call, ghost idle: nat)
      requires Valid() && Idle(sched.Abs(), idle) && (c.OpenCall? || c.CloseCall? || c.WaitCall? || c.PostCall?)
      requires c.WaitCall? ==>
                 && sched.current != null && sched.current.pid < INT_LIMIT
                 && (ValidId(sems.Table(), c.id) && Blocks(sems.Table()[c.id]) ==> sched.current.slot != idle)
      modifies sems.sems, sems.pool, sched, sched.heads, sched.table
      ensures Sane() && sems.K() == Do(old(sems.K()), c)
    {
      hide QueuesMatch, SlotsOk, Orderly, ReadyBooks.Kept, Scheduler.Linked, Semaphores.Separate, Semaphores.TableBelow;
      hide Scheduler.Abs, SemWait, SemPost, SemClose, Open;
      match c
      case OpenCall(name, value) => var id := sems.SemOpen(name, value);
      case CloseCall(id) => var rc := sems.SemClose(id);
      case WaitCall(id) => var rc := sems.SemWait(id, idle);
      case PostCall(id) => var rc := sems.SemPost(id);
    }

    method PerformProcess(c: Call)
      requires Valid() && InRange(c) && (c.CreateCall? || c.KillCall? || c.ExitCall? || c.NiceCall?)
      requires 0 < sched.nextPid <= INT_LIMIT
      requires sched.current != null ==> sched.current.pid < INT_LIMIT
      modifies sems.sems, sems.pool, sched, sched.heads, sched.table
      ensures Sane() && sems.K() == Do(old(sems.K()), c)
    {
      hide Orderly, ReadyBooks.Kept, Scheduler.Linked, Semaphores.Separate, Semaphores.TableBelow;
      hide Scheduler.Abs, Create, Kill, Exit, Nice;
      match c
      case CreateCall(priority, stack, argv, named) => var pid := CreateProcess(priority, stack, argv, named);
      case KillCall(pid, named) => KillProcess(pid, named);
      case ExitCall(named) => ExitCurrentProcess(named);
      case NiceCall(pid, priority) => var rc := SetProcessPriority(pid, priority);
    }

    method PerformRest(c: Call, ghost idle: nat)
      requires Valid() && Idle(sched.Abs(), idle) && InRange(c)
      requires c.BlockCall? || c.UnblockCall? || c.YieldCall? || c.AllocCall? || c.FreeCall? || c.TimerTick?
      requires c.BlockCall? ==>
                 && c.pid != sched.table[idle].pid
                 && (c.pid == 0 ==> sched.current == null || sched.current.slot != idle)
      requires c.AllocCall? ==> c.ptr != 0
      requires c.BlockCall? && sched.current != null ==> sched.current.pid < INT_LIMIT
      modifies sched, sched.heads, sched.table
      ensures Sane() && sems.K() == Do(old(sems.K()), c)
    {
      hide QueuesMatch, Orderly, ReadyBooks.Kept, Scheduler.Linked, Semaphores.Separate, Semaphores.TableBelow;
      hide Block, Tick, Wake, Scheduler.ProcsBelow, SlotsOk;
      match c
      case BlockCall(pid) => SyscallBlock(pid, idle);
      case UnblockCall(pid) => SyscallUnblock(pid);
      case YieldCall => YieldNow(idle);
      case AllocCall(ptr) => UserBlock(ptr, true);
      case FreeCall(ptr) => UserBlock(ptr, false);
      case TimerTick => Interrupt(idle);
    }

    /** `syscall_yield`: the time is given up and the next timer interrupt awaited. */
    method YieldNow(ghost idle: nat)
      requires Valid() && Idle(sched.Abs(), idle)
      modifies sched, sched.heads, sched.table
      ensures Sane() && sems.K() == Tick(old(sems.K()).(quantum := 0))
    {
      hide Tick, QueuesMatch, ReadyBooks.Kept, Scheduler.Linked, Semaphores.Separate, Semaphores.TableBelow;
      QueuesIgnoreRest(sched.Abs(), sched.Abs().(quantum := 0));
      sched.YieldProcess();
      Interrupt(idle);
    }
  }

  /** pids are passed as 64-bit numbers. */
  predicate InRange(c: Call) {
    (c.KillCall? || c.NiceCall? || c.BlockCall? ==> 0 <= c.pid < WaitNames.PID_LIMIT)
  }

  lemma WakeElsewhere(k: Kernel, pid: int, t: Table)
    requires Shape(k)
    ensures Wake(k.(sems := t), pid) == Wake(k, pid).(sems := t)
  {
  }

  lemma OrderlyElsewhere(k: Kernel, idle: nat, t: Table)
    requires Good(k, idle)
    ensures Orderly(k.(sems := t)) && Idle(k.(sems := t), idle)
    ensures k.current >= 0 ==> k.procs[k.current].pid < k.nextPid
    ensures k.nextPid > 0 && 0 !in k.user
  {
    hide QueuesMatch, SemsOk, Stacks, Argvs;
    assert k.user <= k.heap;
    QueuesIgnoreRest(k, k.(sems := t));
  }
}
