/** What a kill, an exit and an unblock make of the process they are about, and of everybody else. */
module KernelLives {
  import opened SemSpec
  import opened KernelSpec
  import opened KernelInvariant
  import opened KernelRuns

  /** Slot `s` holds the living process `pid`. */
  predicate Lives(k: Kernel, pid: int, s: nat)
    requires Shape(k)
  {
    s < MAX_PROCESSES && pid != 0 && k.procs[s].pid == pid && k.procs[s].state != Killed
  }

  /** Everybody but the process in slot `s` stays as it was, or was BLOCKED and is READY now. */
  ghost predicate OthersAtMostWake(k: Kernel, k': Kernel, s: nat)
    requires Shape(k) && Shape(k')
  {
    forall t: nat :: t < MAX_PROCESSES && t != s ==>
      k'.procs[t] == k.procs[t] || (k.procs[t].state == Blocked && k'.procs[t] == k.procs[t].(state := Ready))
  }

  /** In no ready list and in no semaphore queue. */
  ghost predicate Nowhere(k: Kernel, pid: int, s: nat)
    requires Shape(k)
  {
    !Waiting(k.sems, pid) && forall l: nat :: l < PRIORITY_LEVELS ==> s !in k.ready[l]
  }

  // ----- kill -----

  lemma KillIsFound(k: Kernel, idle: nat, pid: int, s: nat)
    requires Good(k, idle) && Lives(k, pid, s) && s != idle
    ensures Find(k.procs, pid) == s && pid != k.procs[idle].pid
  {
    hide QueuesMatch, HeapOk, SemsOk;
    FindUnique(k, s);
  }

  lemma RetireIs(k: Kernel, s: nat)
    requires Shape(k) && s < MAX_PROCESSES
    ensures var p, k' := k.procs[s], Retire(k, s);
            && k'.procs == k.procs[s := Proc(0, Killed, p.priority, 0, 0)]
            && k'.heap == k.heap - {p.stack, p.argv}
            && k' == k.(procs := k'.procs, heap := k'.heap, ready := k'.ready)
  {
  }

  lemma DeadInNoList(k: Kernel, idle: nat, s: nat)
    requires Inv(k, idle) && s < MAX_PROCESSES && k.procs[s].state == Killed
    ensures forall l: nat :: l < PRIORITY_LEVELS ==> s !in k.ready[l]
  {
    hide SlotsOk, HeapOk, SemsOk;
  }

  /** The pid of a killed process is in no queue, its slot in no list. */
  lemma KilledIsNowhere(k: Kernel, idle: nat, pid: int, named: bool, s: nat)
    requires Good(k, idle) && Lives(k, pid, s) && pid != k.shellPid && s != idle
    requires Kill(k, pid, named).procs[s].state == Killed
    ensures Nowhere(Kill(k, pid, named), pid, s)
  {
    hide QueuesMatch, SlotsOk, HeapOk, Settled, Announce, Find;
    KillIsFound(k, idle, pid, s);
    KillKeeps(k, idle, pid, named);
    DeadInNoList(Kill(k, pid, named), idle, s);
    var k1 := Announce(k, pid, named);
    AnnounceKeeps(k, idle, pid, named);
    RemoveKeepsTable(k1.sems, pid);
  }

  /**
   A killed process that is not the current one is gone at once: its slot is free again, its stack and its argument
   block leave the heap and nothing else does, and it stands in no list and no queue.
  */
  lemma KillOther(k: Kernel, idle: nat, pid: int, named: bool, s: nat)
    requires Good(k, idle) && Lives(k, pid, s) && pid != k.shellPid && s != idle && s != k.current
    ensures var p, k' := k.procs[s], Do(k, KillCall(pid, named));
            && k'.procs[s] == Proc(0, Killed, p.priority, 0, 0)
            && k'.heap == k.heap - {p.stack, p.argv} && k'.user == k.user
            && Nowhere(k', pid, s) && OthersAtMostWake(k, k', s)
            && k'.current == k.current && k'.quantum == k.quantum
  {
    KillIsFound(k, idle, pid, s);
    hide QueuesMatch, SlotsOk, HeapOk, SemsOk, Settled, Announce, Retire, Find, Nowhere;
    AnnounceKeeps(k, idle, pid, named);
    var k1 := Announce(k, pid, named);
    KillRetires(k, pid, named);
    RetireIs(k1.(sems := RemovePid(k1.sems, pid)), s);
    KilledIsNowhere(k, idle, pid, named, s);
  }

  /** The current process, killed, is marked and keeps its pid and its blocks until it is switched away from. */
  lemma KillSelf(k: Kernel, idle: nat, pid: int, named: bool, s: nat)
    requires Good(k, idle) && Lives(k, pid, s) && pid != k.shellPid && s != idle && s == k.current
    ensures var k' := Do(k, KillCall(pid, named));
            && k'.procs[s] == k.procs[s].(state := Killed)
            && k'.heap == k.heap && k'.user == k.user
            && Nowhere(k', pid, s) && OthersAtMostWake(k, k', s)
            && k'.current == k.current && k'.quantum == k.quantum
  {
    KillIsFound(k, idle, pid, s);
    CurrentRuns(k);
    hide QueuesMatch, SlotsOk, HeapOk, SemsOk, Settled, Announce, Find, Nowhere;
    AnnounceKeeps(k, idle, pid, named);
    KilledIsNowhere(k, idle, pid, named, s);
  }

  lemma CurrentRuns(k: Kernel)
    requires Shape(k) && Settled(k) && k.current >= 0 && k.procs[k.current].state != Killed
    ensures k.procs[k.current].state == Running
  {
  }

  /** A kill of the shell, of a dead process or of a pid nobody carries does nothing. */
  lemma KillRefusedIs(k: Kernel, pid: int, named: bool)
    requires Shape(k) && (pid == k.shellPid || forall s: nat :: !Lives(k, pid, s))
    requires forall s: nat :: s < MAX_PROCESSES && k.procs[s].pid == 0 ==> k.procs[s].state == Killed
    ensures Do(k, KillCall(pid, named)) == k
  {
    var s := Find(k.procs, pid);
    if s >= 0 && pid != k.shellPid {
      assert !Lives(k, pid, s);
    }
  }

  // ----- exit -----

  /** The process that exits is marked, keeps its pid and its blocks, and stays current until the next switch. */
  lemma ExitIs(k: Kernel, idle: nat, named: bool)
    requires Good(k, idle) && k.current >= 0 && k.current != idle && k.procs[k.current].state == Running
    ensures var s, k' := k.current, Do(k, ExitCall(named));
            && k'.procs[s] == k.procs[s].(state := Killed)
            && k'.heap == k.heap && k'.user == k.user
            && Nowhere(k', k.procs[s].pid, s) && OthersAtMostWake(k, k', s)
            && k'.current == k.current && k'.quantum == k.quantum
  {
    var pid := k.procs[k.current].pid;
    AnnounceKeeps(k, idle, pid, named);
    var k1 := Announce(k, pid, named);
    ExitKeeps(k, idle, named);
    hide QueuesMatch, HeapOk, SemsOk, Settled, Announce;
    DeadInNoList(Exit(k, named), idle, k.current);
    assert Exit(k, named).sems == k1.sems;
    CurrentNotWaiting(k1, idle);
  }

  // ----- unblock -----

  /** A BLOCKED process that is unblocked becomes READY and stands last in the list of its priority. */
  lemma UnblockIs(k: Kernel, idle: nat, pid: int, s: nat)
    requires Good(k, idle) && Lives(k, pid, s) && k.procs[s].state == Blocked
    ensures var k', l := Do(k, UnblockCall(pid)), k.procs[s].priority;
            && 0 <= l <= 4
            && k'.procs == k.procs[s := k.procs[s].(state := Ready)]
            && k'.ready == k.ready[l := k.ready[l] + [s]]
            && k' == k.(procs := k'.procs, ready := k'.ready)
  {
    hide QueuesMatch, HeapOk, SemsOk;
    FindUnique(k, s);
  }

  /** Whoever is not BLOCKED is left alone. */
  lemma UnblockRefusedIs(k: Kernel, pid: int)
    requires Shape(k) && forall s: nat :: s < MAX_PROCESSES && k.procs[s].pid == pid ==> k.procs[s].state != Blocked
    ensures Do(k, UnblockCall(pid)) == k
  {
  }
}
