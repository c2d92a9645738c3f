/** Kernel/scheduler/scheduler.c and the process table, with linked ready lists, against the kernel functions. */
module Scheduler {
  import opened KernelSpec
  import opened KernelInvariant
  import opened ReadyBooks

  class Pcb {
    const slot: nat
    var pid: nat
    var state: ProcState
    var priority: int
    var stack: nat
    var argv: nat
    var next: Pcb?
    var prev: Pcb?

    constructor (slot: nat)
      ensures this.slot == slot && pid == 0 && state == Killed && priority == 0 && stack == 0 && argv == 0
      ensures next == null && prev == null
    {
      this.slot := slot;
      pid, state, priority, stack, argv, next, prev := 0, Killed, 0, 0, 0, null, null;
    }
  }

  function SlotOf(p: Pcb?): int {
    if p == null then -1 else p.slot
  }

  class Scheduler {
    const table: seq<Pcb>
    const heads: array<Pcb?>
    var current: Pcb?
    var quantum: nat
    var toFree: Pcb?
    var nextPid: nat
    var shellPid: int
    var heap: set<nat>
    ghost var user: set<nat>
    ghost var books: Books

    /** `init_processes` and `init_scheduler` */
    constructor ()
      ensures Valid() && Abs() == Boot().(sems := [])
      ensures fresh(this) && fresh(heads) && forall p :: p in table ==> fresh(p)
    {
      var t: seq<Pcb> := [];
      while |t| < MAX_PROCESSES
        invariant |t| <= MAX_PROCESSES
        invariant forall s: nat {:trigger t[s]} :: s < |t| ==>
                    && fresh(t[s]) && t[s].slot == s && t[s].next == null && t[s].prev == null
                    && t[s].pid == 0 && t[s].state == Killed && t[s].priority == 0 && t[s].stack == 0 && t[s].argv == 0
      {
        var p := new Pcb(|t|);
        t := t + [p];
      }
      table := t;
      heads := new Pcb?[PRIORITY_LEVELS](_ => null);
      current, quantum, toFree, nextPid, shellPid, heap := null, 0, null, 1, -1, {};
      user := {};
      books := Books(seq(PRIORITY_LEVELS, _ => []), seq(MAX_PROCESSES, _ => -1), seq(MAX_PROCESSES, _ => 0));
      new;
      assert Procs() == Boot().procs;
    }

    ghost predicate Known(p: Pcb) {
      p.slot < |table| && table[p.slot] == p
    }

    ghost predicate KnownOrNull(p: Pcb?) {
      p != null ==> Known(p)
    }

    ghost predicate Sizes()
      reads this`books
    {
      && Sized(books)
      && |table| == MAX_PROCESSES && heads.Length == PRIORITY_LEVELS
      && (forall s: nat :: s < MAX_PROCESSES ==> table[s].slot == s)
    }

    /** Every slot is linked to its neighbours of the books, every head is the first of its list. */
    ghost predicate Linked()
      requires Sizes() && Kept(books)
      reads this`books, heads, table`next, table`prev
    {
      && (forall s: nat {:trigger table[s].next} :: s < MAX_PROCESSES ==>
            KnownOrNull(table[s].next) && SlotOf(table[s].next) == NextSlot(books, s))
      && (forall s: nat {:trigger table[s].prev} :: s < MAX_PROCESSES ==>
            KnownOrNull(table[s].prev) && SlotOf(table[s].prev) == PrevSlot(books, s))
      && (forall l: nat :: l < PRIORITY_LEVELS ==> KnownOrNull(heads[l]) && SlotOf(heads[l]) == Head(books, l))
    }

    ghost predicate Valid()
      reads this, heads, table`next, table`prev
    {
      && Sizes() && Kept(books) && Linked()
      && KnownOrNull(current) && KnownOrNull(toFree) && 0 !in heap
    }

    ghost function ProcOf(p: Pcb): Proc
      reads p`pid, p`state, p`priority, p`stack, p`argv
    {
      Proc(p.pid, p.state, p.priority, p.stack, p.argv)
    }

    ghost function ProcsBelow(n: nat): (r: seq<Proc>)
      requires n <= |table|
      reads table`pid, table`state, table`priority, table`stack, table`argv
      ensures |r| == n && forall s: nat :: s < n ==> r[s] == ProcOf(table[s])
    {
      if n == 0 then [] else ProcsBelow(n - 1) + [ProcOf(table[n - 1])]
    }

    ghost function Procs(): (r: seq<Proc>)
      requires |table| == MAX_PROCESSES
      reads table`pid, table`state, table`priority, table`stack, table`argv
      ensures |r| == MAX_PROCESSES && forall s: nat :: s < MAX_PROCESSES ==> r[s] == ProcOf(table[s])
    {
      ProcsBelow(MAX_PROCESSES)
    }

    /** The kernel value, without the semaphores. */
    ghost function Abs(): (k: Kernel)
      requires Sizes() && KnownOrNull(current) && KnownOrNull(toFree)
      reads this, table`pid, table`state, table`priority, table`stack, table`argv
      ensures Shape(k)
    {
      Kernel(Procs(), books.queues, SlotOf(current), quantum, SlotOf(toFree), nextPid, shellPid, [], heap, user)
    }

    /** The last process of a list. */
    method Tail(l: nat) returns (tail: Pcb)
      requires Valid() && l < PRIORITY_LEVELS && heads[l] != null
      ensures Known(tail) && tail.slot == Last(books, l)
    {
      hide Kept, NextSlot, PrevSlot;
      tail := heads[l];
      ghost var q := books.queues[l];
      ghost var i := 0;
      NextInList(books, l, 0);
      while tail.next != null
        invariant 0 <= i < |q| && Known(tail) && tail.slot == q[i]
        invariant SlotOf(tail.next) == At(q, i + 1) && KnownOrNull(tail.next)
        decreases |q| - i
      {
        tail := tail.next;
        i := i + 1;
        NextInList(books, l, i);
      }
    }

    /** `add_to_ready_queue` */
    method AddToReadyQueue(p: Pcb)
      requires Valid() && Known(p) && books.level[p.slot] < 0
      modifies this`books, heads, table`next, table`prev, p`state
      ensures Valid() && Abs() == Enqueue(old(Abs()), p.slot)
      ensures books.level == if old(p.state) == Killed then old(books.level)
                             else old(books.level)[p.slot := ListOf(p.priority)]
    {
      hide Kept, NextSlot, PrevSlot, Head, Linked;
      if p.state == Killed {
        return;
      }
      var prio := p.priority;
      if prio < 0 || prio >= PRIORITY_LEVELS {
        prio := 2;
      }
      Link(p, prio);
      SetState(p, Ready);
    }

    method SetState(p: Pcb, st: ProcState)
      requires Valid() && Known(p)
      modifies p`state
      ensures Valid() && Abs() == KernelSpec.SetState(old(Abs()), p.slot, st)
    {
      hide Kept, Linked;
      p.state := st;
      assert Procs() == old(Procs())[p.slot := ProcOf(p)];
    }

    /** The pointer part: `p` goes to the end of list `prio`. */
    method Link(p: Pcb, prio: nat)
      requires Valid() && Known(p) && books.level[p.slot] < 0 && prio < PRIORITY_LEVELS
      modifies this`books, heads, table`next, table`prev
      ensures Valid() && books == Append(old(books), prio, p.slot)
    {
      hide Kept, NextSlot, PrevSlot, Head, Last, Append;
      AppendLinks(books, prio, p.slot);
      EmptyList(books, prio);
      Attach(p, prio);
      books := Append(books, prio, p.slot);
    }

    /** The last of the list, if any, and `p` are linked to each other. */
    method Attach(p: Pcb, prio: nat)
      requires Valid() && Known(p) && books.level[p.slot] < 0 && prio < PRIORITY_LEVELS && Last(books, prio) != p.slot
      modifies heads, table`next, table`prev
      ensures forall l: nat :: l < PRIORITY_LEVELS && l != prio ==> heads[l] == old(heads[l])
      ensures heads[prio] == if old(heads[prio]) == null then p else old(heads[prio])
      ensures forall s: nat {:trigger table[s].next} :: s < MAX_PROCESSES ==>
                table[s].next == if s == p.slot then null else if s == Last(books, prio) then p else old(table[s].next)
      ensures forall s: nat {:trigger table[s].prev} :: s < MAX_PROCESSES && s != p.slot ==>
                table[s].prev == old(table[s].prev)
      ensures KnownOrNull(p.prev) && SlotOf(p.prev) == Last(books, prio)
    {
      hide Kept, NextSlot, PrevSlot, Head, Last;
      NoNeighbours(books, p.slot);
      EmptyList(books, prio);
      p.next := null;
      p.prev := null;
      if heads[prio] == null {
        heads[prio] := p;
      } else {
        var tail := Tail(prio);
        tail.next := p;
        p.prev := tail;
      }
    }

    /** `remove_from_ready_queue`, for a process that stands in the list of its own priority or in none. */
    method RemoveFromReadyQueue(p: Pcb)
      requires Valid() && Known(p) && (books.level[p.slot] < 0 || books.level[p.slot] == p.priority)
      modifies this`books, heads, table`next, table`prev
      ensures Valid() && Abs() == Dequeue(old(Abs()), p.slot)
      ensures books.level == old(books.level)[p.slot := -1]
    {
      hide NextSlot, PrevSlot, Head, Linked, ReadyBooks.Without;
      var prio := p.priority;
      if prio < 0 || prio >= PRIORITY_LEVELS {
        return;
      }
      WithoutRemoves(books, p.slot, prio);
      Detach(p, prio);
    }

    /** The pointer part: `p` leaves list `prio`, if it is in it. */
    method Detach(p: Pcb, prio: nat)
      requires Valid() && Known(p) && prio < PRIORITY_LEVELS && (books.level[p.slot] < 0 || books.level[p.slot] == prio)
      modifies this`books, heads, table`next, table`prev
      ensures Valid() && books == ReadyBooks.Without(old(books), p.slot)
    {
      hide Kept, NextSlot, PrevSlot, Head, ReadyBooks.Without;
      ghost var b := books;
      WithoutLinks(b, p.slot);
      Bypass(p, prio);
      books := ReadyBooks.Without(b, p.slot);
      assert Linked() by {
        forall s: nat | s < MAX_PROCESSES
          ensures KnownOrNull(table[s].next) && SlotOf(table[s].next) == NextSlot(books, s)
        {
        }
        forall s: nat | s < MAX_PROCESSES
          ensures KnownOrNull(table[s].prev) && SlotOf(table[s].prev) == PrevSlot(books, s)
        {
        }
      }
    }

    /** The neighbours of `p` are linked past it. */
    method Bypass(p: Pcb, prio: nat)
      requires Sizes() && Kept(books) && Linked() && Known(p) && prio < PRIORITY_LEVELS
      requires PrevSlot(books, p.slot) != p.slot && NextSlot(books, p.slot) != p.slot
      requires PrevSlot(books, p.slot) == -1 || PrevSlot(books, p.slot) != NextSlot(books, p.slot)
      modifies heads, table`next, table`prev
      ensures forall l: nat :: l < PRIORITY_LEVELS && l != prio ==> heads[l] == old(heads[l])
      ensures heads[prio] == if old(heads[prio]) == p then old(p.next) else old(heads[prio])
      ensures forall s: nat {:trigger table[s].next} :: s < MAX_PROCESSES ==>
                table[s].next == if s == p.slot then null
                                 else if s == PrevSlot(books, p.slot) then old(p.next) else old(table[s].next)
      ensures forall s: nat {:trigger table[s].prev} :: s < MAX_PROCESSES ==>
                table[s].prev == if s == p.slot then null
                                 else if s == NextSlot(books, p.slot) then old(p.prev) else old(table[s].prev)
    {
      hide Kept, NextSlot, PrevSlot, Head;
      if heads[prio] == p {
        heads[prio] := p.next;
      }
      if p.prev != null {
        p.prev.next := p.next;
      }
      if p.next != null {
        p.next.prev := p.prev;
      }
      p.next := null;
      p.prev := null;
    }

    /** `pick_next_process` */
    method PickNextProcess() returns (p: Pcb?)
      requires Valid()
      ensures KnownOrNull(p) && SlotOf(p) == PickFrom(Abs().ready, 0)
    {
      hide Kept, NextSlot, PrevSlot;
      var i := 0;
      while i < PRIORITY_LEVELS
        invariant 0 <= i <= PRIORITY_LEVELS
        invariant PickFrom(Abs().ready, 0) == PickFrom(Abs().ready, i)
      {
        EmptyList(books, i);
        if heads[i] != null {
          return heads[i];
        }
        i := i + 1;
      }
      return null;
    }

    /** `free_pcb_resources` */
    method FreePcbResources(p: Pcb)
      requires Valid() && Known(p)
      modifies p`pid, p`stack, p`argv, this`heap
      ensures Valid() && Abs() == FreeResources(old(Abs()), p.slot)
    {
      hide Kept, Linked;
      if p.stack != 0 {
        heap := heap - {p.stack};
        p.stack := 0;
      }
      if p.argv != 0 {
        heap := heap - {p.argv};
        p.argv := 0;
      }
      p.pid := 0;
      assert Procs() == old(Procs())[p.slot := ProcOf(p)];
    }

    /** `schedule`: true if it switches to another process or dispatches one anew. */
    method Schedule(ghost idle: nat) returns (switched: bool)
      requires Valid() && QueuesMatch(Abs()) && SlotsOk(Abs()) && Idle(Abs(), idle)
      modifies this, heads, table
      ensures Valid() && Abs() == Tick(old(Abs()))
      ensures switched <==> !old(current != null && current.state == Running && quantum > 0)
      ensures !switched ==> current == old(current) && current.state == Running && quantum == old(quantum) - 1
      ensures switched ==> current != null && current.state == Running && quantum == 5
    {
      hide Kept, Linked, QueuesMatch, SlotsOk, KernelSpec.Displace, KernelSpec.Dispatch, KernelSpec.Reclaim, ProcsBelow;
      ReclaimKeepsQueues(Abs(), idle);
      ReclaimDead();
      if current != null && current.state == Running && quantum > 0 {
        quantum := quantum - 1;
        return false;
      }
      DisplaceKeepsQueues(Abs(), idle);
      PutAside();
      TakeNext(idle);
      return true;
    }

    /** The memory of the process that died at the last switch is given back. */
    method ReclaimDead()
      requires Valid() && QueuesMatch(Abs()) && SlotsOk(Abs())
      modifies this`heap, this`toFree, table`pid, table`stack, table`argv
      ensures Valid() && Abs() == Reclaim(old(Abs()))
    {
      hide Kept, Linked, QueuesMatch, SlotsOk, FreeResources;
      if toFree != null {
        FreePcbResources(toFree);
        toFree := null;
      }
    }

    /** First half of a switch: a running process queues up again, a killed one waits for its stack to be free. */
    method PutAside()
      requires Valid() && QueuesMatch(Abs()) && SlotsOk(Abs())
      modifies this`books, this`toFree, heads, table`next, table`prev, table`state
      ensures Valid() && Abs() == Displace(old(Abs()))
    {
      hide Kept, Linked, QueuesMatch;
      if current != null {
        LevelOfReady(books, Abs(), current.slot);
        if current.state == Running {
          AddToReadyQueue(current);
        } else if current.state == Killed {
          toFree := current;
        }
      }
    }

    /** Second half: the head of the most urgent list runs. */
    method TakeNext(ghost idle: nat)
      requires Valid() && QueuesMatch(Abs()) && idle < MAX_PROCESSES && Abs().procs[idle].state == Ready
      modifies this, heads, table`next, table`prev, table`state
      ensures Valid() && Abs() == Dispatch(old(Abs()))
      ensures current != null && current.state == Running && quantum == 5
    {
      hide Kept, Linked, QueuesMatch;
      NextIsReady(Abs(), idle);
      var next := PickNextProcess();
      // the loop over dead heads: its guard is false at once
      if next != null && (next.state == Killed || next.state == Blocked) {
        assert false;
      }
      if next != null {
        LevelOfReady(books, Abs(), next.slot);
        Run(next);
      }
    }

    method Run(next: Pcb)
      requires Valid() && Known(next) && books.level[next.slot] == next.priority
      modifies this`books, this`current, this`quantum, heads, table`next, table`prev, next`state
      ensures Valid()
      ensures Abs() == KernelSpec.SetState(Dequeue(old(Abs()), next.slot), next.slot, Running).(
                         current := next.slot, quantum := QUANTUM)
      ensures current == next && next.state == Running && quantum == 5
    {
      hide Kept, Linked, Dequeue;
      RemoveFromReadyQueue(next);
      SetState(next, Running);
      current := next;
      quantum := QUANTUM;
    }

    /** `block_current_process` */
    method BlockCurrentProcess()
      requires Valid()
      modifies table`state
      ensures Valid()
      ensures Abs() == if old(current != null && current.state == Running)
                       then KernelSpec.SetState(old(Abs()), current.slot, Blocked) else old(Abs())
    {
      hide Kept, NextSlot, PrevSlot, Head, Linked;
      if current != null && current.state == Running {
        SetState(current, Blocked);
      }
    }

    /** `get_process_by_pid` */
    method GetProcessByPid(pid: int) returns (p: Pcb?)
      requires Valid()
      ensures KnownOrNull(p) && SlotOf(p) == Find(Abs().procs, pid)
    {
      hide Kept, NextSlot, PrevSlot, Head, Linked;
      if pid < 0 {
        return null;
      }
      var i := 0;
      while i < MAX_PROCESSES
        invariant 0 <= i <= MAX_PROCESSES
        invariant FindFrom(Abs().procs, pid, 0) == FindFrom(Abs().procs, pid, i)
      {
        if table[i].pid == pid {
          return table[i];
        }
        i := i + 1;
      }
      return null;
    }

    /** `unblock_process` */
    method UnblockProcess(pid: int)
      requires Valid() && QueuesMatch(Abs())
      modifies this`books, heads, table`next, table`prev, table`state
      ensures Valid() && Abs() == Wake(old(Abs()), pid)
    {
      hide Kept, NextSlot, PrevSlot, Head, Linked, QueuesMatch;
      var p := GetProcessByPid(pid);
      if p != null && p.state == Blocked {
        LevelOfReady(books, Abs(), p.slot);
        AddToReadyQueue(p);
      }
    }

    /** `yield_process` */
    method YieldProcess()
      requires Valid()
      modifies this`quantum
      ensures Valid() && Abs() == old(Abs()).(quantum := 0)
    {
      quantum := 0;
    }

    /** The current process becomes BLOCKED if it is RUNNING, gives up its time, and the timer switches away. */
    method ParkCurrent(ghost idle: nat)
      requires Valid() && Orderly(Abs()) && Idle(Abs(), idle)
      requires current != null && current.slot != idle
      modifies this, heads, table
      ensures Valid() && Abs() == Park(old(Abs()))
    {
      hide Orderly, QueuesMatch, SlotsOk, Kept, Linked, Tick;
      StoppedKeepsOrder(Abs(), idle);
      BlockCurrentProcess();
      YieldProcess();
      var switched := Schedule(idle);
    }
  }
}
