/** The kernel over a memory manager: what it asks for and gives back, and why the answers are the ones it needs. */
module KernelHeap {
  import opened AllocatorSpec
  import opened SemSpec
  import opened KernelSpec
  import opened KernelInvariant
  import opened KernelRuns
  import A = AllocatorSpec

  /** The sizes a call asks for (`argv` is 0 without arguments), and the buffer it gets for a name. */
  datatype Needs = Needs(stack: nat, argv: nat, nameSize: nat, name: nat, user: nat)

  /** A name buffer is taken and given back in the same call. */
  function NameEvents(q: Needs): seq<A.Event> {
    if q.name == 0 then [Request(q.nameSize, 0)] else [Request(q.nameSize, q.name), Release(q.name)]
  }

  /** `free_pcb_resources` */
  function Releases(p: Proc): seq<A.Event> {
    [Release(p.stack)] + if p.argv == 0 then [] else [Release(p.argv)]
  }

  predicate Dies(k: Kernel, pid: int)
    requires Shape(k)
  {
    var s := Find(k.procs, pid);
    s >= 0 && k.procs[s].state != Killed && pid != k.shellPid
  }

  /** The calls of the memory manager during a kernel entry, with its answers. */
  function HeapEvents(k: Kernel, c: Call, q: Needs): seq<A.Event>
    requires Shape(k)
  {
    match c
    case CreateCall(_, stack, argv, _) =>
      if FreeSlotFrom(k.procs, 0) < 0 then []
      else if stack == 0 then [Request(q.stack, 0)]
      else [Request(q.stack, stack)] + ((if q.argv == 0 then [] else [Request(q.argv, argv)]) + NameEvents(q))
    case KillCall(pid, _) =>
      if !Dies(k, pid) then []
      else
        var s := Find(k.procs, pid);
        NameEvents(q) + if s == k.current then [] else Releases(k.procs[s])
    case ExitCall(_) => if k.current < 0 then [] else NameEvents(q)
    case AllocCall(ptr) => [Request(q.user, ptr)]
    case FreeCall(ptr) => [Release(ptr)]
    case _ => if IsTick(k, c) && k.toFree >= 0 then Releases(k.procs[k.toFree]) else []
  }

  /** What the call says it was given is what the manager answered. */
  predicate Answered(k: Kernel, c: Call, q: Needs)
    requires Shape(k)
  {
    match c
    case CreateCall(_, stack, argv, named) =>
      && (FreeSlotFrom(k.procs, 0) < 0 || stack == 0 ==> stack == 0 && argv == 0)
      && (q.argv == 0 ==> argv == 0)
      && (named <==> q.name != 0)
    case KillCall(_, named) => named <==> q.name != 0
    case ExitCall(named) => named <==> q.name != 0
    case AllocCall(ptr) => ptr != 0
    case _ => true
  }

  // ----- runs of the manager, call by call -----

  lemma FirstRequest(arena: Arena, before: set<Block>, size: nat, ptr: nat, rest: seq<A.Event>, after: set<Block>)
    returns (mid: set<Block>)
    requires A.Run(arena, before, [Request(size, ptr)] + rest, after)
    ensures ptr != 0 ==> ptr !in Pointers(before)
    ensures Pointers(mid) == Pointers(before) + (if ptr == 0 then {} else {ptr})
    ensures A.Run(arena, mid, rest, after)
  {
    var events := [Request(size, ptr)] + rest;
    assert events[0] == Request(size, ptr) && events[1..] == rest;
    mid :| Step(arena, before, events[0], mid) && A.Run(arena, mid, rest, after);
    if ptr != 0 {
      var b :| b !in before && mid == before + {b} && b.ptr == ptr;
      assert forall c :: c in before ==> Apart(b, c);
    }
  }

  lemma FirstRelease(arena: Arena, before: set<Block>, ptr: nat, rest: seq<A.Event>, after: set<Block>)
    returns (mid: set<Block>)
    requires A.Run(arena, before, [Release(ptr)] + rest, after)
    ensures Pointers(mid) == Pointers(before) - {ptr}
    ensures A.Run(arena, mid, rest, after)
  {
    var events := [Release(ptr)] + rest;
    assert events[0] == Release(ptr) && events[1..] == rest;
    mid :| Step(arena, before, events[0], mid) && A.Run(arena, mid, rest, after);
    assert mid == set b | b in before && b.ptr != ptr;
    assert forall b :: b in before && b.ptr != ptr ==> b in mid;
  }

  lemma NameReturned(arena: Arena, before: set<Block>, q: Needs, rest: seq<A.Event>, after: set<Block>)
    returns (mid: set<Block>)
    requires A.Run(arena, before, NameEvents(q) + rest, after)
    ensures Pointers(mid) == Pointers(before) && A.Run(arena, mid, rest, after)
  {
    hide A.Run;
    if q.name == 0 {
      mid := FirstRequest(arena, before, q.nameSize, 0, rest, after);
    } else {
      assert NameEvents(q) + rest == [Request(q.nameSize, q.name)] + ([Release(q.name)] + rest);
      mid := FirstRequest(arena, before, q.nameSize, q.name, [Release(q.name)] + rest, after);
      mid := FirstRelease(arena, mid, q.name, rest, after);
    }
  }

  lemma Released(arena: Arena, before: set<Block>, p: Proc, after: set<Block>)
    requires A.Run(arena, before, Releases(p), after)
    ensures Pointers(after) == Pointers(before) - {p.stack} - if p.argv == 0 then {} else {p.argv}
  {
    hide A.Run, Pointers;
    if p.argv == 0 {
      assert Releases(p) == [Release(p.stack)] + [];
      var b1 := FirstRelease(arena, before, p.stack, [], after);
      NothingMore(arena, b1, after);
    } else {
      assert Releases(p) == [Release(p.stack)] + ([Release(p.argv)] + []);
      var b1 := FirstRelease(arena, before, p.stack, [Release(p.argv)] + [], after);
      var b2 := FirstRelease(arena, b1, p.argv, [], after);
      NothingMore(arena, b2, after);
    }
  }

  lemma NothingMore(arena: Arena, before: set<Block>, after: set<Block>)
    requires A.Run(arena, before, [], after)
    ensures after == before
  {
  }

  // ----- one kernel entry -----

  lemma {:induction false} WakeAllHeap(k: Kernel, pids: seq<int>)
    requires Shape(k)
    ensures WakeAll(k, pids).heap == k.heap
    decreases |pids|
  {
    if pids != [] {
      WakeAllHeap(Wake(k, pids[0]), pids[1..]);
    }
  }

  lemma UseHeap(k: Kernel, id: int)
    requires Shape(k)
    ensures SemPost(k, id).heap == SemClose(k, id).heap == k.heap
  {
    WakeAllHeap(k.(sems := Post(k.sems, id)), Woken(k.sems, id));
    WakeAllHeap(k.(sems := Close(k.sems, id)), WokenByClose(k.sems, id));
  }

  lemma AnnounceHeap(k: Kernel, pid: nat, named: bool)
    requires Shape(k)
    ensures Announce(k, pid, named).heap == k.heap
  {
    if named && pid != 0 {
      var id := OpenId(k.sems, WaitName(pid));
      var k1 := SemOpen(k, WaitName(pid), 0);
      UseHeap(k1, id);
      UseHeap(SemPost(k1, id), id);
    }
  }

  lemma TickHeap(k: Kernel)
    requires Shape(k)
    ensures Tick(k).heap == if k.toFree < 0 then k.heap else k.heap - {k.procs[k.toFree].stack, k.procs[k.toFree].argv}
  {
  }

  lemma CreateFollows(arena: Arena, k: Kernel, idle: nat, c: Call, q: Needs, before: set<Block>, after: set<Block>)
    requires Good(k, idle) && c.CreateCall? && Answered(k, c, q)
    requires k.heap == Pointers(before) && A.Run(arena, before, HeapEvents(k, c, q), after)
    ensures Possible(k, c) && Do(k, c).heap == Pointers(after)
  {
    hide A.Run, QueuesMatch, SlotsOk, HeapOk, SemsOk, Settled, NameEvents, Pointers;
    NoNull(k, idle);
    if FreeSlotFrom(k.procs, 0) < 0 {
      NothingMore(arena, before, after);
    } else if c.stack == 0 {
      assert [Request(q.stack, 0)] + [] == HeapEvents(k, c, q);
      var b1 := FirstRequest(arena, before, q.stack, 0, [], after);
      NothingMore(arena, b1, after);
    } else {
      var args := if q.argv == 0 then [] else [Request(q.argv, c.argv)];
      var b1 := FirstRequest(arena, before, q.stack, c.stack, args + NameEvents(q), after);
      var b2 := b1;
      if q.argv == 0 {
        assert args + NameEvents(q) == NameEvents(q) + [];
      } else {
        b2 := FirstRequest(arena, b1, q.argv, c.argv, NameEvents(q), after);
        assert NameEvents(q) == NameEvents(q) + [];
      }
      var b3 := NameReturned(arena, b2, q, [], after);
      NothingMore(arena, b3, after);
    }
  }

  lemma NoNull(k: Kernel, idle: nat)
    requires Good(k, idle)
    ensures 0 !in k.heap
  {
  }

  lemma KillFollows(arena: Arena, k: Kernel, idle: nat, c: Call, q: Needs, before: set<Block>, after: set<Block>)
    requires Good(k, idle) && c.KillCall?
    requires k.heap == Pointers(before) && A.Run(arena, before, HeapEvents(k, c, q), after)
    ensures Do(k, c).heap == Pointers(after)
  {
    hide A.Run, QueuesMatch, SlotsOk, HeapOk, SemsOk, Settled, NameEvents, Pointers, Announce, Releases;
    NoNull(k, idle);
    if !Dies(k, c.pid) {
      NothingMore(arena, before, after);
    } else {
      var s := Find(k.procs, c.pid);
      var rest := if s == k.current then [] else Releases(k.procs[s]);
      var b1 := NameReturned(arena, before, q, rest, after);
      IssuedPid(k, idle, c.pid);
      AnnounceHeap(k, c.pid, c.named);
      if s == k.current {
        NothingMore(arena, b1, after);
      } else {
        Released(arena, b1, k.procs[s], after);
        AnnounceKeeps(k, idle, c.pid, c.named);
        KillFrees(k, c.pid, c.named);
      }
    }
  }

  lemma IssuedPid(k: Kernel, idle: nat, pid: int)
    requires Good(k, idle) && Dies(k, pid)
    ensures pid > 0
  {
  }

  lemma KillFrees(k: Kernel, pid: nat, named: bool)
    requires Shape(k) && Dies(k, pid) && Find(k.procs, pid) != k.current
    requires var k1 := Announce(k, pid, named); k1.heap == k.heap && Woke(k, k1)
    ensures var p := k.procs[Find(k.procs, pid)]; Kill(k, pid, named).heap == k.heap - {p.stack, p.argv}
  {
    KillRetires(k, pid, named);
    hide Announce, Find, Kill;
    var s := Find(k.procs, pid);
    var k1 := Announce(k, pid, named);
    assert k1.procs[s] == k.procs[s] || k1.procs[s] == k.procs[s].(state := Ready);
  }

  lemma TickFollows(arena: Arena, k: Kernel, idle: nat, c: Call, q: Needs, before: set<Block>, after: set<Block>)
    requires Good(k, idle) && (c.WaitCall? ==> k.current >= 0) && Proper(k, idle, c) && IsTick(k, c)
    requires k.heap == Pointers(before) && A.Run(arena, before, HeapEvents(k, c, q), after)
    ensures Do(k, c).heap == Pointers(after)
  {
    TickIs(k, idle, c);
    NoNull(k, idle);
    hide A.Run, QueuesMatch, SlotsOk, HeapOk, SemsOk, Settled, Pointers, Releases, Do, IsTick, Proper;
    if k.toFree >= 0 {
      Released(arena, before, k.procs[k.toFree], after);
    } else {
      NothingMore(arena, before, after);
    }
  }

  lemma TickIs(k: Kernel, idle: nat, c: Call)
    requires Good(k, idle) && (c.WaitCall? ==> k.current >= 0) && Proper(k, idle, c) && IsTick(k, c)
    ensures Do(k, c).heap == if k.toFree < 0 then k.heap else k.heap - {k.procs[k.toFree].stack, k.procs[k.toFree].argv}
  {
    hide HeapOk, SemsOk, QueuesMatch, Tick;
    match c
    case TimerTick => TickHeap(k);
    case YieldCall => TickHeap(k.(quantum := 0));
    case WaitCall(id) => TickHeap(Stopped(k.(sems := Wait(k.sems, id, CurrentPid(k)))));
    case BlockCall(pid) =>
      BlocksItself(k, idle, pid);
      TickHeap(Stopped(k));
    case _ =>
  }

  lemma RestFollows(k: Kernel, idle: nat, c: Call)
    requires Good(k, idle) && !IsTick(k, c) && (c.WaitCall? ==> k.current >= 0)
    requires !c.CreateCall? && !c.KillCall? && !c.ExitCall? && !c.AllocCall? && !c.FreeCall?
    ensures Do(k, c).heap == k.heap
  {
    hide HeapOk, SemsOk, QueuesMatch, Tick, SemPost, SemClose;
    match c
    case CloseCall(id) => UseHeap(k, id);
    case PostCall(id) => UseHeap(k, id);
    case _ =>
  }

  /**
   One kernel entry over a memory manager that keeps its promise: the answers it gives are the ones the kernel's
   invariant needs, and afterwards the heap of the kernel is again what the manager holds as live.
  */
  lemma StepFollows(arena: Arena, k: Kernel, idle: nat, c: Call, q: Needs, before: set<Block>, after: set<Block>)
    requires Good(k, idle) && Answered(k, c, q) && (c.WaitCall? ==> k.current >= 0) && Proper(k, idle, c)
    requires k.heap == Pointers(before) && A.Run(arena, before, HeapEvents(k, c, q), after)
    ensures Allowed(k, idle, c) && Do(k, c).heap == Pointers(after)
  {
    hide A.Run, QueuesMatch, SlotsOk, HeapOk, SemsOk, Settled, Pointers;
    if c.CreateCall? {
      CreateFollows(arena, k, idle, c, q, before, after);
    } else if c.KillCall? {
      KillFollows(arena, k, idle, c, q, before, after);
    } else if IsTick(k, c) {
      TickFollows(arena, k, idle, c, q, before, after);
    } else {
      OtherFollows(arena, k, idle, c, q, before, after);
    }
  }

  lemma OtherFollows(arena: Arena, k: Kernel, idle: nat, c: Call, q: Needs, before: set<Block>, after: set<Block>)
    requires Good(k, idle) && Answered(k, c, q) && (c.WaitCall? ==> k.current >= 0)
    requires !c.CreateCall? && !c.KillCall? && !IsTick(k, c)
    requires k.heap == Pointers(before) && A.Run(arena, before, HeapEvents(k, c, q), after)
    ensures Possible(k, c) && Do(k, c).heap == Pointers(after)
  {
    hide A.Run, QueuesMatch, SlotsOk, HeapOk, SemsOk, Settled, NameEvents, Pointers, Announce;
    match c
    case ExitCall(named) =>
      if k.current >= 0 {
        assert NameEvents(q) == NameEvents(q) + [];
        var b1 := NameReturned(arena, before, q, [], after);
        NothingMore(arena, b1, after);
        AnnounceHeap(k, k.procs[k.current].pid, named);
      } else {
        NothingMore(arena, before, after);
      }
    case AllocCall(ptr) =>
      assert [Request(q.user, ptr)] == [Request(q.user, ptr)] + [];
      var b1 := FirstRequest(arena, before, q.user, ptr, [], after);
      NothingMore(arena, b1, after);
    case FreeCall(ptr) =>
      assert [Release(ptr)] == [Release(ptr)] + [];
      var b1 := FirstRelease(arena, before, ptr, [], after);
      NothingMore(arena, b1, after);
    case _ =>
      NothingMore(arena, before, after);
      RestFollows(k, idle, c);
  }

  // ----- runs -----

  /** A run of the kernel over a manager: proper calls, and the manager's steps in between as it promises them. */
  ghost predicate IsJointRun(states: seq<Kernel>, calls: seq<Call>, needs: seq<Needs>, blocks: seq<set<Block>>,
                             arena: Arena, idle: nat) {
    && |states| == |blocks| == |calls| + 1 && |needs| == |calls| && idle < MAX_PROCESSES
    && (forall i :: 0 <= i < |states| ==> Shape(states[i]))
    && forall i :: 0 <= i < |calls| ==>
         && Answered(states[i], calls[i], needs[i])
         && (calls[i].WaitCall? ==> states[i].current >= 0) && Proper(states[i], idle, calls[i])
         && states[i + 1] == Do(states[i], calls[i])
         && A.Run(arena, blocks[i], HeapEvents(states[i], calls[i], needs[i]), blocks[i + 1])
  }

  /**
   So every run of the kernel over either manager, whose promise `AllocatorSpec.Step` is, is a run in the sense of
   `KernelRuns.IsRun`: nothing has to be taken for granted about the answers, and at every moment the live blocks of the
   manager are exactly the stacks, the argument blocks and the user's blocks.
  */
  lemma {:induction false} JointRun(states: seq<Kernel>, calls: seq<Call>, needs: seq<Needs>, blocks: seq<set<Block>>,
                                    arena: Arena, idle: nat, n: nat)
    requires IsJointRun(states, calls, needs, blocks, arena, idle) && n < |states|
    requires Good(states[0], idle) && states[0].heap == Pointers(blocks[0])
    ensures Good(states[n], idle) && (forall i :: 0 <= i < n ==> Allowed(states[i], idle, calls[i]))
    ensures Pointers(blocks[n]) == Stacks(states[n]) + Argvs(states[n]) + states[n].user
    ensures states[n].heap == Pointers(blocks[n])
    ensures n == |calls| ==> IsRun(states, calls, idle)
  {
    hide A.Run, Do, Proper, Possible, Answered, HeapEvents, Pointers, Stacks, Argvs;
    hide Settled, QueuesMatch, SlotsOk, SemsOk;
    if n > 0 {
      JointRun(states, calls, needs, blocks, arena, idle, n - 1);
      StepFollows(arena, states[n - 1], idle, calls[n - 1], needs[n - 1], blocks[n - 1], blocks[n]);
      StepKeeps(states[n - 1], idle, calls[n - 1]);
    }
  }
}
