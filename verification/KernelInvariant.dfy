/** What every kernel entry keeps, for every run. */
module KernelInvariant {
  import opened SemSpec
  import opened KernelSpec

  // ----- the invariant -----

  predicate Distinct<T(==)>(q: seq<T>) {
    forall i, j :: 0 <= i < j < |q| ==> q[i] != q[j]
  }

  /** A process is READY iff it stands exactly once in one list, that of its own priority. */
  ghost predicate QueuesMatch(k: Kernel)
    requires Shape(k)
  {
    && (forall l: nat, s: nat {:trigger s in k.ready[l]} :: l < PRIORITY_LEVELS && s in k.ready[l] ==>
          s < MAX_PROCESSES && k.procs[s].state == Ready && k.procs[s].priority == l)
    && (forall s: nat :: s < MAX_PROCESSES && k.procs[s].state == Ready ==>
          0 <= k.procs[s].priority < PRIORITY_LEVELS && s in k.ready[k.procs[s].priority])
    && (forall l: nat :: l < PRIORITY_LEVELS ==> Distinct(k.ready[l]))
  }

  ghost predicate Idle(k: Kernel, idle: nat)
    requires Shape(k)
  {
    idle < MAX_PROCESSES && (k.procs[idle].state == Ready || k.procs[idle].state == Running)
  }

  /** Slots, pids, and which slots may be RUNNING or KILLED. */
  ghost predicate SlotsOk(k: Kernel)
    requires Shape(k)
  {
    && k.nextPid > 0 && k.quantum <= QUANTUM
    && (forall s: nat :: s < MAX_PROCESSES ==>
          && k.procs[s].pid < k.nextPid
          && 0 <= k.procs[s].priority < PRIORITY_LEVELS
          && (k.procs[s].pid == 0 ==> k.procs[s].state == Killed && k.procs[s].stack == 0 && k.procs[s].argv == 0)
          && (k.procs[s].pid != 0 ==> k.procs[s].stack != 0)
          && (k.procs[s].state == Running ==> s == k.current)
          && (k.procs[s].state == Killed && k.procs[s].pid != 0 ==> s == k.current || s == k.toFree))
    && (forall s, r :: 0 <= s < r < MAX_PROCESSES && k.procs[s].pid == k.procs[r].pid ==> k.procs[s].pid == 0)
    && (k.current >= 0 ==> k.procs[k.current].pid != 0 && k.procs[k.current].state != Ready && k.current != k.toFree)
    && (k.toFree >= 0 ==> k.procs[k.toFree].pid != 0 && k.procs[k.toFree].state == Killed)
  }

  /** Between kernel entries the current process is running, or has been killed and not yet switched away from. */
  ghost predicate Settled(k: Kernel)
    requires Shape(k)
  {
    k.current >= 0 ==> k.procs[k.current].state == Running || k.procs[k.current].state == Killed
  }

  ghost function Stacks(k: Kernel): set<nat>
    requires Shape(k)
  {
    set s | 0 <= s < MAX_PROCESSES && k.procs[s].pid != 0 :: k.procs[s].stack
  }

  ghost function Argvs(k: Kernel): set<nat>
    requires Shape(k)
  {
    set s | 0 <= s < MAX_PROCESSES && k.procs[s].argv != 0 :: k.procs[s].argv
  }

  /** The heap holds the stacks and argument blocks of the processes, the user's blocks, and nothing else. */
  ghost predicate HeapOk(k: Kernel)
    requires Shape(k)
  {
    && k.heap == Stacks(k) + Argvs(k) + k.user
    && 0 !in k.heap
    && Stacks(k) !! Argvs(k) && Stacks(k) !! k.user && Argvs(k) !! k.user
    && (forall s, r :: 0 <= s < r < MAX_PROCESSES && k.procs[s].stack == k.procs[r].stack ==> k.procs[s].stack == 0)
    && (forall s, r :: 0 <= s < r < MAX_PROCESSES && k.procs[s].argv == k.procs[r].argv ==> k.procs[s].argv == 0)
  }

  /** Semaphore queues: each waits for a positive value in vain, each pid stands in at most one queue once. */
  ghost predicate TableOk(t: Table) {
    && |t| == MAX_SEMS
    && (forall i :: 0 <= i < |t| ==>
          && (!t[i].active ==> t[i].blocked == [])
          && (t[i].blocked != [] ==> t[i].value == 0)
          && |t[i].blocked| <= MAX_BLOCKED
          && Distinct(t[i].blocked))
    && (forall i, j, pid :: 0 <= i < j < |t| && pid in t[i].blocked ==> pid !in t[j].blocked)
  }

  predicate Waiting(t: Table, pid: int) {
    exists i :: 0 <= i < |t| && pid in t[i].blocked
  }

  ghost predicate BlockedPid(k: Kernel, pid: int)
    requires Shape(k)
  {
    exists s :: 0 <= s < MAX_PROCESSES && k.procs[s].pid == pid && k.procs[s].state == Blocked && pid != 0
  }

  ghost predicate SemsOk(k: Kernel)
    requires Shape(k)
  {
    && TableOk(k.sems)
    && forall i, pid :: 0 <= i < |k.sems| && pid in k.sems[i].blocked ==> BlockedPid(k, pid)
  }

  ghost predicate Inv(k: Kernel, idle: nat) {
    && Shape(k)
    && QueuesMatch(k)
    && SlotsOk(k)
    && HeapOk(k)
    && SemsOk(k)
    && Idle(k, idle)
  }

  // ----- lists -----

  lemma {:induction false} RemoveIs(q: seq<nat>, s: nat)
    requires Distinct(q)
    ensures forall x :: x in Remove(q, s) <==> x in q && x != s
    ensures Distinct(Remove(q, s))
    decreases |q|
  {
    if q != [] {
      assert Distinct(q[1..]);
      assert forall x :: x in q[1..] ==> x != q[0];
      RemoveIs(q[1..], s);
      if q[0] != s {
        ConsDistinct(q[0], Remove(q[1..], s));
      }
    }
  }

  lemma ConsDistinct<T>(x: T, q: seq<T>)
    requires Distinct(q) && x !in q
    ensures Distinct([x] + q)
  {
  }

  lemma AppendDistinct<T>(q: seq<T>, x: T)
    requires Distinct(q) && x !in q
    ensures Distinct(q + [x])
  {
  }

  lemma FindUnique(k: Kernel, s: nat)
    requires Shape(k) && SlotsOk(k) && s < MAX_PROCESSES && k.procs[s].pid != 0
    ensures Find(k.procs, k.procs[s].pid) == s
  {
    var r := Find(k.procs, k.procs[s].pid);
    assert r >= 0 && k.procs[r].pid == k.procs[s].pid;
  }

  // ----- enqueueing a process that is not READY -----

  lemma EnqueueKeepsQueues(k: Kernel, s: nat)
    requires Shape(k) && s < MAX_PROCESSES && QueuesMatch(k)
    requires k.procs[s].state != Ready && k.procs[s].state != Killed && 0 <= k.procs[s].priority < PRIORITY_LEVELS
    ensures QueuesMatch(Enqueue(k, s))
  {
    var l := k.procs[s].priority;
    AppendDistinct(k.ready[l], s);
  }

  /** Taking a READY process out of its list, with any other state. */
  lemma LeaveKeepsQueues(k: Kernel, s: nat, p: Proc)
    requires Shape(k) && s < MAX_PROCESSES && QueuesMatch(k)
    requires k.procs[s].state == Ready && p.state != Ready
    ensures QueuesMatch(Put(Dequeue(k, s), s, p))
  {
    RemoveIs(k.ready[k.procs[s].priority], s);
  }

  lemma PutKeepsQueues(k: Kernel, s: nat, p: Proc)
    requires Shape(k) && s < MAX_PROCESSES && QueuesMatch(k)
    requires k.procs[s].state != Ready && p.state != Ready
    ensures QueuesMatch(Put(k, s, p))
  {
  }

  lemma QueuesIgnoreRest(k: Kernel, k': Kernel)
    requires Shape(k) && Shape(k') && QueuesMatch(k) && k'.procs == k.procs && k'.ready == k.ready
    ensures QueuesMatch(k')
  {
  }

  // ----- the head of the most urgent list -----

  lemma {:induction false} PickIs(ready: seq<seq<nat>>, l: nat)
    requires l <= |ready|
    ensures PickFrom(ready, l) == -1 ==> forall i :: l <= i < |ready| ==> ready[i] == []
    ensures PickFrom(ready, l) != -1 ==> exists i ::
              && l <= i < |ready| && ready[i] != [] && PickFrom(ready, l) == ready[i][0]
              && forall j :: l <= j < i ==> ready[j] == []
    decreases |ready| - l
  {
    if l < |ready| && ready[l] == [] {
      PickIs(ready, l + 1);
    }
  }

  /** With an idle process around, the scheduler finds a READY process: its loop over dead heads never runs. */
  lemma NextIsReady(k: Kernel, idle: nat)
    requires Shape(k) && QueuesMatch(k) && idle < MAX_PROCESSES && k.procs[idle].state == Ready
    ensures var next := PickFrom(k.ready, 0);
            && 0 <= next < MAX_PROCESSES
            && k.procs[next].state == Ready
            && next in k.ready[k.procs[next].priority]
            && k.ready[k.procs[next].priority][0] == next
            && forall l :: 0 <= l < k.procs[next].priority ==> k.ready[l] == []
  {
    PickIs(k.ready, 0);
    assert k.ready[k.procs[idle].priority] != [];
    var l: nat :| l < PRIORITY_LEVELS && k.ready[l] != [] && PickFrom(k.ready, 0) == k.ready[l][0]
      && forall j :: 0 <= j < l ==> k.ready[j] == [];
    assert k.ready[l][0] in k.ready[l];
  }

  // ----- frames -----

  /** Same pids, stacks, argument blocks and heap. */
  ghost predicate SameOwners(k: Kernel, k': Kernel)
    requires Shape(k) && Shape(k')
  {
    && k'.heap == k.heap && k'.user == k.user
    && forall s: nat :: s < MAX_PROCESSES ==>
                          k'.procs[s].(state := k.procs[s].state, priority := k.procs[s].priority) == k.procs[s]
  }

  lemma HeapSame(k: Kernel, k': Kernel)
    requires Shape(k) && Shape(k') && HeapOk(k) && SameOwners(k, k')
    ensures HeapOk(k')
  {
    forall s: nat | s < MAX_PROCESSES
      ensures k'.procs[s].pid == k.procs[s].pid && k'.procs[s].stack == k.procs[s].stack
      ensures k'.procs[s].argv == k.procs[s].argv
    {
      assert k'.procs[s].(state := k.procs[s].state, priority := k.procs[s].priority) == k.procs[s];
    }
    assert Stacks(k') == Stacks(k) && Argvs(k') == Argvs(k);
  }

  lemma SemsSame(k: Kernel, k': Kernel)
    requires Shape(k) && Shape(k') && SemsOk(k) && TableOk(k'.sems)
    requires forall i, pid :: 0 <= i < MAX_SEMS && pid in k'.sems[i].blocked ==>
               BlockedPid(k', pid) || Waiting(k.sems, pid)
    requires forall s: nat :: s < MAX_PROCESSES && k.procs[s].state == Blocked ==>
               (k'.procs[s].pid == k.procs[s].pid && k'.procs[s].state == Blocked) || !Waiting(k'.sems, k.procs[s].pid)
    ensures SemsOk(k')
  {
    forall i, pid | 0 <= i < MAX_SEMS && pid in k'.sems[i].blocked
      ensures BlockedPid(k', pid)
    {
      assert Waiting(k'.sems, pid);
      if !BlockedPid(k', pid) {
        assert Waiting(k.sems, pid);
        var j :| 0 <= j < |k.sems| && pid in k.sems[j].blocked;
        assert BlockedPid(k, pid);
      }
    }
  }

  /** The same table, and no waiter has left BLOCKED. */
  lemma SemsKept(k: Kernel, k': Kernel)
    requires Shape(k) && Shape(k') && SemsOk(k) && k'.sems == k.sems
    requires forall s: nat :: s < MAX_PROCESSES && k.procs[s].state == Blocked ==>
               (k'.procs[s].pid == k.procs[s].pid && k'.procs[s].state == Blocked) || !Waiting(k.sems, k.procs[s].pid)
    ensures SemsOk(k')
  {
    forall i, pid | 0 <= i < MAX_SEMS && pid in k'.sems[i].blocked
      ensures Waiting(k.sems, pid)
    {
    }
    SemsSame(k, k');
  }

  // ----- the timer -----

  lemma ReclaimKeeps(k: Kernel, idle: nat)
    requires Inv(k, idle)
    ensures Inv(Reclaim(k), idle) && Reclaim(k).toFree == -1
    ensures Settled(k) ==> Settled(Reclaim(k))
  {
    if k.toFree >= 0 {
      var k' := FreeResources(k, k.toFree);
      PutKeepsQueues(k, k.toFree, k'.procs[k.toFree]);
      FreeKeepsHeap(k, k.toFree);
      SemsKept(k, k'.(toFree := -1));
      HeapSame(k', k'.(toFree := -1));
    }
  }

  lemma FreeKeepsHeap(k: Kernel, s: nat)
    requires Shape(k) && HeapOk(k) && s < MAX_PROCESSES && k.procs[s].pid != 0
    ensures HeapOk(FreeResources(k, s))
  {
    var k' := FreeResources(k, s);
    var p := k.procs[s];
    forall x
      ensures x in Stacks(k') <==> x in Stacks(k) - {p.stack}
      ensures x in Argvs(k') <==> x in Argvs(k) - {p.argv}
    {
      StackWithout(k, s, x);
    }
    assert p.stack in Stacks(k);
    assert p.argv != 0 ==> p.argv in Argvs(k);
  }

  lemma StackWithout(k: Kernel, s: nat, x: nat)
    requires Shape(k) && HeapOk(k) && s < MAX_PROCESSES && k.procs[s].pid != 0
    ensures var k' := FreeResources(k, s);
            && (x in Stacks(k') <==> x in Stacks(k) - {k.procs[s].stack})
            && (x in Argvs(k') <==> x in Argvs(k) - {k.procs[s].argv})
  {
    var k' := FreeResources(k, s);
    var p := k.procs[s];
    if x in Stacks(k) - {p.stack} {
      var r :| 0 <= r < MAX_PROCESSES && k.procs[r].pid != 0 && k.procs[r].stack == x;
      assert k'.procs[r] == k.procs[r];
    }
    if x in Argvs(k) - {p.argv} {
      var r :| 0 <= r < MAX_PROCESSES && k.procs[r].argv != 0 && k.procs[r].argv == x;
      assert k'.procs[r] == k.procs[r];
    }
  }

  lemma DisplaceKeeps(k: Kernel, idle: nat)
    requires Inv(k, idle) && k.toFree == -1
    ensures var k' := Displace(k).(current := -1); Inv(k', idle) && k'.procs[idle].state == Ready
  {
    hide QueuesMatch, HeapOk, SemsOk;
    var k1 := Displace(k);
    var k' := k1.(current := -1);
    if k.current >= 0 && k.procs[k.current].state == Running {
      EnqueueKeepsQueues(k, k.current);
    } else {
      QueuesIgnoreRest(k, k1);
    }
    QueuesIgnoreRest(k1, k');
    HeapSame(k, k');
    SemsKept(k, k');
  }

  lemma DispatchKeeps(k: Kernel, idle: nat)
    requires Inv(k, idle) && k.current == -1 && k.procs[idle].state == Ready
    ensures Inv(Dispatch(k), idle) && Settled(Dispatch(k)) && Dispatch(k).current >= 0
    ensures Dispatch(k).procs[Dispatch(k).current].state == Running
  {
    hide QueuesMatch, HeapOk, SemsOk;
    NextIsReady(k, idle);
    var next := PickFrom(k.ready, 0);
    var k' := Dispatch(k);
    LeaveKeepsQueues(k, next, k.procs[next].(state := Running));
    QueuesIgnoreRest(SetState(Dequeue(k, next), next, Running), k');
    HeapSame(k, k');
    SemsKept(k, k');
  }

  lemma TickKeeps(k: Kernel, idle: nat)
    requires Inv(k, idle)
    ensures Inv(Tick(k), idle) && Settled(Tick(k)) && Tick(k).current >= 0
    ensures Tick(k).sems == k.sems
    ensures Tick(k).procs[Tick(k).current].state == Running
  {
    hide QueuesMatch, HeapOk, SemsOk;
    ReclaimKeeps(k, idle);
    var k1 := Reclaim(k);
    if KeepsRunning(k1) {
      var k2 := k1.(quantum := k1.quantum - 1);
      QueuesIgnoreRest(k1, k2);
      HeapSame(k1, k2);
      SemsKept(k1, k2);
    } else {
      DisplaceKeeps(k1, idle);
      var k2 := Displace(k1);
      DispatchKeeps(k2.(current := -1), idle);
      assert Dispatch(k2) == Dispatch(k2.(current := -1));
    }
  }

  /** The part of the above that a switch needs. */
  lemma ReclaimKeepsQueues(k: Kernel, idle: nat)
    requires Shape(k) && QueuesMatch(k) && SlotsOk(k) && Idle(k, idle)
    ensures var k' := Reclaim(k); QueuesMatch(k') && SlotsOk(k') && Idle(k', idle) && k'.toFree == -1
  {
    hide QueuesMatch;
    if k.toFree >= 0 {
      var k' := FreeResources(k, k.toFree);
      PutKeepsQueues(k, k.toFree, k'.procs[k.toFree]);
      QueuesIgnoreRest(Put(k, k.toFree, k'.procs[k.toFree]), Reclaim(k));
    }
  }

  lemma DisplaceKeepsQueues(k: Kernel, idle: nat)
    requires Shape(k) && QueuesMatch(k) && SlotsOk(k) && Idle(k, idle)
    ensures QueuesMatch(Displace(k)) && Displace(k).procs[idle].state == Ready
  {
    hide QueuesMatch;
    if k.current >= 0 && k.procs[k.current].state == Running {
      EnqueueKeepsQueues(k, k.current);
    } else {
      QueuesIgnoreRest(k, Displace(k));
    }
  }

  /** What waking needs and keeps, whatever the semaphores and the heap hold. */
  ghost predicate Orderly(k: Kernel) {
    Shape(k) && QueuesMatch(k) && SlotsOk(k) && Settled(k)
  }

  lemma StoppedKeepsOrder(k: Kernel, idle: nat)
    requires Orderly(k) && k.current >= 0 && Idle(k, idle) && k.current != idle
    ensures QueuesMatch(Stopped(k)) && SlotsOk(Stopped(k)) && Idle(Stopped(k), idle)
  {
    hide QueuesMatch;
    if k.procs[k.current].state == Running {
      PutKeepsQueues(k, k.current, k.procs[k.current].(state := Blocked));
      QueuesIgnoreRest(SetState(k, k.current, Blocked), Stopped(k));
    } else {
      QueuesIgnoreRest(k, Stopped(k));
    }
  }

  lemma WakeKeepsOrder(k: Kernel, pid: int)
    requires Orderly(k)
    ensures Orderly(Wake(k, pid))
  {
    hide QueuesMatch;
    var s := Find(k.procs, pid);
    if s >= 0 && k.procs[s].state == Blocked {
      EnqueueKeepsQueues(k, s);
    }
  }

  lemma {:induction false} WakeAllKeepsOrder(k: Kernel, pids: seq<int>)
    requires Orderly(k)
    ensures Orderly(WakeAll(k, pids))
    decreases |pids|
  {
    hide Orderly;
    if pids != [] {
      WakeKeepsOrder(k, pids[0]);
      WakeAllKeepsOrder(Wake(k, pids[0]), pids[1..]);
    }
  }

  /** Waking and switching look at no semaphore. */
  lemma {:induction false} WakeAllElsewhere(k: Kernel, pids: seq<int>, t: Table)
    requires Shape(k)
    ensures WakeAll(k.(sems := t), pids) == WakeAll(k, pids).(sems := t)
    decreases |pids|
  {
    if pids != [] {
      WakeAllElsewhere(Wake(k, pids[0]), pids[1..], t);
    }
  }

  lemma TickElsewhere(k: Kernel, t: Table)
    requires Shape(k)
    ensures Tick(k.(sems := t)) == Tick(k).(sems := t)
  {
    hide PickFrom, FreeResources;
    assert Reclaim(k.(sems := t)) == Reclaim(k).(sems := t) by {
      FreeElsewhere(k, t);
    }
    var k1 := Reclaim(k);
    DisplaceElsewhere(k1, t);
    DispatchElsewhere(Displace(k1), t);
  }

  lemma FreeElsewhere(k: Kernel, t: Table)
    requires Shape(k)
    ensures k.toFree >= 0 ==> FreeResources(k.(sems := t), k.toFree) == FreeResources(k, k.toFree).(sems := t)
  {
  }

  lemma DisplaceElsewhere(k: Kernel, t: Table)
    requires Shape(k)
    ensures Displace(k.(sems := t)) == Displace(k).(sems := t)
  {
  }

  lemma DispatchElsewhere(k: Kernel, t: Table)
    requires Shape(k)
    ensures Dispatch(k.(sems := t)) == Dispatch(k).(sems := t)
  {
    hide PickFrom;
  }

  // ----- the semaphore table -----

  lemma {:induction false} WithoutDistinct(q: seq<int>, pid: int)
    requires Distinct(q)
    ensures Distinct(Without(q, pid))
    decreases |q|
  {
    if q != [] {
      WithoutDistinct(q[1..], pid);
      if q[0] != pid {
        ConsDistinct(q[0], Without(q[1..], pid));
      }
    }
  }

  /** Replacing one queue by a part of it keeps the table in order. */
  lemma ShrinkKeepsTable(t: Table, id: nat, s: Sem)
    requires TableOk(t) && id < |t|
    requires forall x :: x in s.blocked ==> x in t[id].blocked
    requires Distinct(s.blocked) && |s.blocked| <= MAX_BLOCKED
    requires !s.active ==> s.blocked == []
    requires s.blocked != [] ==> s.value == 0
    ensures TableOk(t[id := s])
    ensures forall pid :: Waiting(t[id := s], pid) ==> Waiting(t, pid)
  {
    forall pid | Waiting(t[id := s], pid)
      ensures Waiting(t, pid)
    {
      var i :| 0 <= i < |t| && pid in t[id := s][i].blocked;
      assert pid in t[i].blocked;
    }
  }

  lemma PostKeepsTable(t: Table, id: int)
    requires TableOk(t)
    ensures TableOk(Post(t, id))
    ensures forall pid :: Waiting(Post(t, id), pid) ==> Waiting(t, pid)
    ensures forall pid :: pid in Woken(t, id) ==> !Waiting(Post(t, id), pid)
  {
    if ValidId(t, id) {
      ShrinkKeepsTable(t, id, PostOn(t[id]));
      if t[id].blocked != [] {
        NoLongerWaiting(t, id, PostOn(t[id]), t[id].blocked[0]);
      }
    }
  }

  lemma NoLongerWaiting(t: Table, id: nat, s: Sem, pid: int)
    requires TableOk(t) && id < |t| && pid in t[id].blocked && pid !in s.blocked
    ensures !Waiting(t[id := s], pid)
  {
    var t' := t[id := s];
    forall i | 0 <= i < |t'|
      ensures pid !in t'[i].blocked
    {
      assert i == id || i < id || id < i;
    }
  }

  lemma CloseKeepsTable(t: Table, id: int)
    requires TableOk(t)
    ensures TableOk(Close(t, id))
    ensures forall pid :: Waiting(Close(t, id), pid) ==> Waiting(t, pid)
    ensures forall pid :: pid in WokenByClose(t, id) ==> !Waiting(Close(t, id), pid)
  {
    if ValidId(t, id) {
      ShrinkKeepsTable(t, id, Close(t, id)[id]);
      forall pid | pid in WokenByClose(t, id)
        ensures !Waiting(Close(t, id), pid)
      {
        NoLongerWaiting(t, id, Close(t, id)[id], pid);
      }
    }
  }

  lemma OpenKeepsTable(t: Table, name: string, value: nat)
    requires TableOk(t)
    ensures TableOk(Open(t, name, value))
    ensures forall pid :: Waiting(Open(t, name, value), pid) ==> Waiting(t, pid)
  {
    var i := FindName(t, name);
    if i >= 0 {
      ShrinkKeepsTable(t, i, Open(t, name, value)[i]);
    } else {
      var f := FindFree(t);
      if f >= 0 {
        ShrinkKeepsTable(t, f, Open(t, name, value)[f]);
      }
    }
  }

  lemma RemoveKeepsTable(t: Table, pid: int)
    requires TableOk(t)
    ensures TableOk(RemovePid(t, pid))
    ensures !Waiting(RemovePid(t, pid), pid)
    ensures forall x :: Waiting(RemovePid(t, pid), x) ==> Waiting(t, x)
  {
    forall i | 0 <= i < |t|
      ensures Distinct(RemovePid(t, pid)[i].blocked)
    {
      WithoutDistinct(t[i].blocked, pid);
    }
    forall x | Waiting(RemovePid(t, pid), x)
      ensures Waiting(t, x) && x != pid
    {
      var i :| 0 <= i < |t| && x in RemovePid(t, pid)[i].blocked;
      assert x in t[i].blocked;
    }
  }

  lemma WaitKeepsTable(t: Table, id: int, pid: int)
    requires TableOk(t) && !Waiting(t, pid)
    ensures TableOk(Wait(t, id, pid))
    ensures forall x :: Waiting(Wait(t, id, pid), x) ==> Waiting(t, x) || x == pid
  {
    if ValidId(t, id) {
      var t' := Wait(t, id, pid);
      if t[id].value == 0 && |t[id].blocked| < MAX_BLOCKED {
        AppendDistinct(t[id].blocked, pid);
        assert forall j :: 0 <= j < |t| ==> pid !in t[j].blocked;
      }
      forall x | Waiting(t', x)
        ensures Waiting(t, x) || x == pid
      {
        var i :| 0 <= i < |t| && x in t'[i].blocked;
        assert x in t[i].blocked || x == pid;
      }
    }
  }

  // ----- waking -----

  /** `k'` differs from `k` only in that some BLOCKED processes have become READY. */
  ghost predicate Woke(k: Kernel, k': Kernel)
    requires Shape(k) && Shape(k')
  {
    && k' == k.(procs := k'.procs, ready := k'.ready, sems := k'.sems)
    && forall s: nat :: s < MAX_PROCESSES ==>
         k'.procs[s] == k.procs[s] || (k.procs[s].state == Blocked && k'.procs[s] == k.procs[s].(state := Ready))
  }

  lemma SetSemsKeeps(k: Kernel, idle: nat, t: Table)
    requires Inv(k, idle) && TableOk(t)
    requires forall pid :: Waiting(t, pid) ==> Waiting(k.sems, pid)
    ensures Inv(k.(sems := t), idle)
  {
    var k' := k.(sems := t);
    QueuesIgnoreRest(k, k');
    HeapSame(k, k');
    forall i, pid | 0 <= i < MAX_SEMS && pid in t[i].blocked
      ensures Waiting(k.sems, pid)
    {
      assert Waiting(t, pid);
    }
    SemsSame(k, k');
  }

  lemma WakeKeeps(k: Kernel, idle: nat, pid: int)
    requires Inv(k, idle) && Settled(k) && !Waiting(k.sems, pid)
    ensures Inv(Wake(k, pid), idle) && Settled(Wake(k, pid)) && Woke(k, Wake(k, pid))
    ensures Wake(k, pid).sems == k.sems
  {
    hide QueuesMatch, HeapOk, SemsOk;
    var s := Find(k.procs, pid);
    if s >= 0 && k.procs[s].state == Blocked {
      var k' := Enqueue(k, s);
      EnqueueKeepsQueues(k, s);
      HeapSame(k, k');
      SemsKept(k, k');
    }
  }

  lemma {:induction false} WakeAllKeeps(k: Kernel, idle: nat, pids: seq<int>)
    requires Inv(k, idle) && Settled(k)
    requires forall pid :: pid in pids ==> !Waiting(k.sems, pid)
    ensures Inv(WakeAll(k, pids), idle) && Settled(WakeAll(k, pids)) && Woke(k, WakeAll(k, pids))
    ensures WakeAll(k, pids).sems == k.sems
    decreases |pids|
  {
    if pids != [] {
      WakeKeeps(k, idle, pids[0]);
      WakeAllKeeps(Wake(k, pids[0]), idle, pids[1..]);
    }
  }

  lemma PostKeeps(k: Kernel, idle: nat, id: int)
    requires Inv(k, idle) && Settled(k)
    ensures Inv(SemPost(k, id), idle) && Settled(SemPost(k, id)) && Woke(k, SemPost(k, id))
    ensures SemPost(k, id).sems == Post(k.sems, id)
  {
    PostKeepsTable(k.sems, id);
    SetSemsKeeps(k, idle, Post(k.sems, id));
    WakeAllKeeps(k.(sems := Post(k.sems, id)), idle, Woken(k.sems, id));
  }

  lemma CloseKeeps(k: Kernel, idle: nat, id: int)
    requires Inv(k, idle) && Settled(k)
    ensures Inv(SemClose(k, id), idle) && Settled(SemClose(k, id)) && Woke(k, SemClose(k, id))
    ensures SemClose(k, id).sems == Close(k.sems, id)
  {
    CloseKeepsTable(k.sems, id);
    SetSemsKeeps(k, idle, Close(k.sems, id));
    WakeAllKeeps(k.(sems := Close(k.sems, id)), idle, WokenByClose(k.sems, id));
  }

  lemma OpenKeeps(k: Kernel, idle: nat, name: string, value: nat)
    requires Inv(k, idle)
    ensures Inv(SemOpen(k, name, value), idle) && Woke(k, SemOpen(k, name, value))
    ensures Settled(k) ==> Settled(SemOpen(k, name, value))
  {
    OpenKeepsTable(k.sems, name, value);
    SetSemsKeeps(k, idle, Open(k.sems, name, value));
  }

  lemma AnnounceKeeps(k: Kernel, idle: nat, pid: nat, named: bool)
    requires Inv(k, idle) && Settled(k)
    ensures Inv(Announce(k, pid, named), idle) && Settled(Announce(k, pid, named)) && Woke(k, Announce(k, pid, named))
  {
    if named && pid != 0 {
      var id := OpenId(k.sems, WaitName(pid));
      var k1 := SemOpen(k, WaitName(pid), 0);
      OpenKeeps(k, idle, WaitName(pid), 0);
      if id >= 0 {
        PostKeeps(k1, idle, id);
        CloseKeeps(SemPost(k1, id), idle, id);
      }
    }
  }
}
