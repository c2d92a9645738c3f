/**
 Scheduler, process table and semaphores of the kernel as one value, and what every kernel entry does to it.
 A kernel entry is one step; where a process blocks itself, the timer switch that follows is part of the step.
*/
module KernelSpec {
  import opened SemSpec

  const MAX_PROCESSES: nat := 64
  const PRIORITY_LEVELS: nat := 5
  const QUANTUM: nat := 5

  datatype ProcState = Ready | Running | Blocked | Killed

  datatype Proc = Proc(pid: nat, state: ProcState, priority: int, stack: nat, argv: nat)

  /**
   `ready[l]` lists the slots of level `l`, head first; `current` and `toFree` are slots or -1;
   `heap` is the set of allocated blocks, `user` the part of it that user code allocated.
  */
  datatype Kernel = Kernel(procs: seq<Proc>, ready: seq<seq<nat>>, current: int, quantum: nat, toFree: int,
                           nextPid: nat, shellPid: int, sems: Table, heap: set<nat>, user: set<nat>)

  predicate Shape(k: Kernel) {
    && |k.procs| == MAX_PROCESSES
    && |k.ready| == PRIORITY_LEVELS
    && -1 <= k.current < MAX_PROCESSES
    && -1 <= k.toFree < MAX_PROCESSES
  }

  /** `init_processes`, `init_scheduler` and `sem_init`. */
  function Boot(): (k: Kernel)
    ensures Shape(k)
  {
    Kernel(seq(MAX_PROCESSES, _ => Proc(0, Killed, 0, 0, 0)), seq(PRIORITY_LEVELS, _ => []), -1, 0, -1, 1, -1,
           seq(MAX_SEMS, _ => Sem(false, "", 0, 0, [])), {}, {})
  }

  // ----- lookups -----

  /** First slot from `i` on that carries `pid`, or -1. */
  function FindFrom(procs: seq<Proc>, pid: nat, i: nat): (r: int)
    requires i <= |procs|
    ensures r == -1 || i <= r < |procs|
    ensures r >= 0 ==> procs[r].pid == pid
    ensures forall j :: i <= j < |procs| && (r < 0 || j < r) ==> procs[j].pid != pid
    decreases |procs| - i
  {
    if i == |procs| then -1 else if procs[i].pid == pid then i else FindFrom(procs, pid, i + 1)
  }

  function Find(procs: seq<Proc>, pid: int): (r: int)
    ensures -1 <= r < |procs|
    ensures r >= 0 ==> procs[r].pid == pid
    ensures forall j :: 0 <= j < |procs| && (r < 0 || j < r) ==> procs[j].pid != pid
  {
    if pid < 0 then -1 else FindFrom(procs, pid, 0)
  }

  predicate Unused(p: Proc) {
    p.state == Killed && p.pid == 0
  }

  function FreeSlotFrom(procs: seq<Proc>, i: nat): (r: int)
    requires i <= |procs|
    ensures r == -1 || i <= r < |procs|
    ensures r >= 0 ==> Unused(procs[r])
    ensures forall j :: i <= j < |procs| && (r < 0 || j < r) ==> !Unused(procs[j])
    decreases |procs| - i
  {
    if i == |procs| then -1 else if Unused(procs[i]) then i else FreeSlotFrom(procs, i + 1)
  }

  // ----- ready lists -----

  function ListOf(priority: int): (l: nat)
    ensures l < PRIORITY_LEVELS
  {
    if 0 <= priority < PRIORITY_LEVELS then priority else 2
  }

  /** `q` without the first occurrence of `s`. */
  function Remove(q: seq<nat>, s: nat): (r: seq<nat>)
    decreases |q|
  {
    if q == [] then [] else if q[0] == s then q[1..] else [q[0]] + Remove(q[1..], s)
  }

  function Put(k: Kernel, s: nat, p: Proc): (k': Kernel)
    requires Shape(k) && s < MAX_PROCESSES
    ensures Shape(k')
  {
    k.(procs := k.procs[s := p])
  }

  function SetState(k: Kernel, s: nat, st: ProcState): (k': Kernel)
    requires Shape(k) && s < MAX_PROCESSES
    ensures Shape(k')
  {
    Put(k, s, k.procs[s].(state := st))
  }

  /** `add_to_ready_queue` */
  function Enqueue(k: Kernel, s: nat): (k': Kernel)
    requires Shape(k) && s < MAX_PROCESSES
    ensures Shape(k')
  {
    if k.procs[s].state == Killed then k
    else
      var l := ListOf(k.procs[s].priority);
      SetState(k, s, Ready).(ready := k.ready[l := k.ready[l] + [s]])
  }

  /** `remove_from_ready_queue` */
  function Dequeue(k: Kernel, s: nat): (k': Kernel)
    requires Shape(k) && s < MAX_PROCESSES
    ensures Shape(k')
  {
    var l := k.procs[s].priority;
    if 0 <= l < PRIORITY_LEVELS then k.(ready := k.ready[l := Remove(k.ready[l], s)]) else k
  }

  /** Head of the most urgent non-empty list from level `l` on, or -1. */
  function PickFrom(ready: seq<seq<nat>>, l: nat): (r: int)
    requires l <= |ready|
    decreases |ready| - l
  {
    if l == |ready| then -1 else if ready[l] != [] then ready[l][0] else PickFrom(ready, l + 1)
  }

  /** `free_pcb_resources` */
  function FreeResources(k: Kernel, s: nat): (k': Kernel)
    requires Shape(k) && s < MAX_PROCESSES
    ensures Shape(k')
  {
    var p := k.procs[s];
    Put(k, s, p.(pid := 0, stack := 0, argv := 0)).(heap := k.heap - {p.stack, p.argv})
  }

  // ----- the timer -----

  function Reclaim(k: Kernel): (k': Kernel)
    requires Shape(k)
    ensures Shape(k')
  {
    if k.toFree >= 0 then FreeResources(k, k.toFree).(toFree := -1) else k
  }

  predicate KeepsRunning(k: Kernel)
    requires Shape(k)
  {
    k.current >= 0 && k.procs[k.current].state == Running && k.quantum > 0
  }

  /** What becomes of the process that is switched away from. */
  function Displace(k: Kernel): (k': Kernel)
    requires Shape(k)
    ensures Shape(k')
  {
    if k.current < 0 then k
    else if k.procs[k.current].state == Running then Enqueue(k, k.current)
    else if k.procs[k.current].state == Killed then k.(toFree := k.current)
    else k
  }

  function Dispatch(k: Kernel): (k': Kernel)
    requires Shape(k)
    ensures Shape(k')
  {
    var next := PickFrom(k.ready, 0);
    if 0 <= next < MAX_PROCESSES then
      SetState(Dequeue(k, next), next, Running).(current := next, quantum := QUANTUM)
    else k
  }

  /** `schedule`, for queues that hold only READY processes. */
  function Tick(k: Kernel): (k': Kernel)
    requires Shape(k)
    ensures Shape(k')
  {
    var k1 := Reclaim(k);
    if KeepsRunning(k1) then k1.(quantum := k1.quantum - 1) else Dispatch(Displace(k1))
  }

  // ----- waking -----

  /** `unblock_process` */
  function Wake(k: Kernel, pid: int): (k': Kernel)
    requires Shape(k)
    ensures Shape(k')
  {
    var s := Find(k.procs, pid);
    if s >= 0 && k.procs[s].state == Blocked then Enqueue(k, s) else k
  }

  function WakeAll(k: Kernel, pids: seq<int>): (k': Kernel)
    requires Shape(k)
    ensures Shape(k')
    decreases |pids|
  {
    if pids == [] then k else WakeAll(Wake(k, pids[0]), pids[1..])
  }

  // ----- semaphore calls -----

  function SemPost(k: Kernel, id: int): (k': Kernel)
    requires Shape(k)
    ensures Shape(k')
  {
    WakeAll(k.(sems := Post(k.sems, id)), Woken(k.sems, id))
  }

  function SemClose(k: Kernel, id: int): (k': Kernel)
    requires Shape(k)
    ensures Shape(k')
  {
    WakeAll(k.(sems := Close(k.sems, id)), WokenByClose(k.sems, id))
  }

  function SemOpen(k: Kernel, name: string, value: nat): (k': Kernel)
    requires Shape(k)
    ensures Shape(k')
  {
    k.(sems := Open(k.sems, name, value))
  }

  /** `block_current_process` and `yield_process`: only a RUNNING process becomes BLOCKED. */
  function Stopped(k: Kernel): (k': Kernel)
    requires Shape(k) && k.current >= 0
    ensures Shape(k')
  {
    (if k.procs[k.current].state == Running then SetState(k, k.current, Blocked) else k).(quantum := 0)
  }

  /** The current process stops and the timer switches away from it. */
  function Park(k: Kernel): (k': Kernel)
    requires Shape(k) && k.current >= 0
    ensures Shape(k')
  {
    Tick(Stopped(k))
  }

  function CurrentPid(k: Kernel): int
    requires Shape(k)
  {
    if k.current >= 0 then k.procs[k.current].pid else -1
  }

  /** A process that is no longer RUNNING (it has been killed) is queued but does not stop. */
  function SemWait(k: Kernel, id: int): (k': Kernel)
    requires Shape(k) && k.current >= 0
    ensures Shape(k')
  {
    if !ValidId(k.sems, id) then k
    else
      var k1 := k.(sems := Wait(k.sems, id, CurrentPid(k)));
      if Blocks(k.sems[id]) && k.procs[k.current].state == Running then Park(k1) else k1
  }

  // ----- wait semaphores -----

  function Digit(d: nat): char
    requires d < 10
  {
    '0' + d as char
  }

  /** `uint64_to_dec_str` */
  function Decimal(n: nat): string {
    if n < 10 then [Digit(n)] else Decimal(n / 10) + [Digit(n % 10)]
  }

  function WaitName(pid: nat): string {
    "wait_" + Decimal(pid)
  }

  /** Open the wait semaphore of `pid`, post it, close it again (nothing, if the name could not be built). */
  function Announce(k: Kernel, pid: nat, named: bool): (k': Kernel)
    requires Shape(k)
    ensures Shape(k')
  {
    if !named || pid == 0 then k
    else
      var id := OpenId(k.sems, WaitName(pid));
      var k1 := SemOpen(k, WaitName(pid), 0);
      if id >= 0 then SemClose(SemPost(k1, id), id) else k1
  }

  // ----- process calls -----

  /** `create_process`: `stack` and `argv` are what the allocator answered (0: nothing, or no arguments). */
  function Create(k: Kernel, priority: int, stack: nat, argv: nat, named: bool): (k': Kernel)
    requires Shape(k)
    ensures Shape(k')
  {
    var s := FreeSlotFrom(k.procs, 0);
    if s < 0 || stack == 0 then k
    else
      var p := Proc(k.nextPid, Ready, ListOf(priority), stack, argv);
      var k1 := Put(k, s, p).(nextPid := k.nextPid + 1, heap := k.heap + {stack} + (if argv == 0 then {} else {argv}));
      var k2 := Enqueue(k1, s);
      if named then SemOpen(k2, WaitName(p.pid), 0) else k2
  }

  /** `kill_process` */
  function Kill(k: Kernel, pid: int, named: bool): (k': Kernel)
    requires Shape(k)
    ensures Shape(k')
  {
    var s := Find(k.procs, pid);
    if s < 0 || k.procs[s].state == Killed || pid == k.shellPid then k
    else
      var k1 := Announce(k, pid, named);
      var k2 := k1.(sems := RemovePid(k1.sems, pid));
      if s == k.current then SetState(k2, s, Killed)
      else
        var k3 := if k2.procs[s].state == Ready then Dequeue(k2, s) else k2;
        FreeResources(SetState(k3, s, Killed), s)
  }

  /** `exit_current_process` */
  function Exit(k: Kernel, named: bool): (k': Kernel)
    requires Shape(k)
    ensures Shape(k')
  {
    if k.current < 0 then k
    else SetState(Announce(k, k.procs[k.current].pid, named), k.current, Killed)
  }

  /** Does `set_process_priority` refuse: no such priority, or no living process of that pid? */
  predicate NiceRefused(k: Kernel, pid: int, priority: int)
    requires Shape(k)
  {
    var s := Find(k.procs, pid);
    priority < 0 || priority >= PRIORITY_LEVELS || s < 0 || k.procs[s].state == Killed
  }

  /** `set_process_priority` */
  function Nice(k: Kernel, pid: int, priority: int): (k': Kernel)
    requires Shape(k)
    ensures Shape(k')
  {
    var s := Find(k.procs, pid);
    if NiceRefused(k, pid, priority) then k
    else if k.procs[s].state == Ready && k.procs[s].priority != priority then
      Enqueue(Put(Dequeue(k, s), s, k.procs[s].(priority := priority)), s)
    else Put(k, s, k.procs[s].(priority := priority))
  }

  /** The slot that a call of `syscall_block` is about, or -1. */
  function BlockTarget(k: Kernel, pid: int): (s: int)
    requires Shape(k)
    ensures -1 <= s < MAX_PROCESSES
  {
    Find(k.procs, if pid == 0 && CurrentPid(k) > 0 then CurrentPid(k) else pid)
  }

  /** `syscall_block` */
  function Block(k: Kernel, pid: int): (k': Kernel)
    requires Shape(k)
    ensures Shape(k')
  {
    var s := BlockTarget(k, pid);
    if s >= 0 && k.procs[s].state == Running then
      if s == k.current then Park(k) else k
    else if s >= 0 && k.procs[s].state == Ready then SetState(Dequeue(k, s), s, Blocked)
    else k
  }
}
