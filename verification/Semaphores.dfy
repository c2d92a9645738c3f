/** Kernel/sem/sem.c: the table of semaphores with their arrays of blocked pids, updated in place. */
module Semaphores {
  import opened SemSpec
  import opened KernelSpec
  import opened KernelInvariant
  import opened Scheduler
  import ReadyBooks

  // ----- pids -----

  const INT_LIMIT: nat := 0x8000_0000

  /** `(int)pid`: what `get_current_pid` answers and the queues hold. */
  function AsInt(pid: nat): int {
    var low := pid % 0x1_0000_0000;
    if low < INT_LIMIT then low else low as int - 0x1_0000_0000
  }

  /** The narrowed pid is the pid exactly below 2^31; beyond, a queued process is not found again. */
  lemma AsIntExact(pid: nat)
    ensures AsInt(pid) == pid <==> pid < INT_LIMIT
  {
  }

  // ----- names -----

  /** `sem_name_eq` on zero-terminated strings. */
  method SemNameEq(a: string, b: string) returns (eq: bool)
    ensures eq <==> a == b
  {
    var i := 0;
    while i < |a| && i < |b| && a[i] == b[i]
      invariant 0 <= i <= |a| && i <= |b|
      invariant a[..i] == b[..i]
    {
      i := i + 1;
    }
    if i == |a| && i == |b| {
      assert a == a[..i] && b == b[..i];
      return true;
    }
    return false;
  }

  /** `sem_name_copy`: at most 31 characters are kept. */
  method SemNameCopy(src: string) returns (dst: string)
    ensures dst == Stored(src)
  {
    dst := "";
    var i := 0;
    while i < MAX_SEM_NAME - 1 && i < |src|
      invariant 0 <= i <= |src| && i <= MAX_SEM_NAME - 1
      invariant dst == src[..i]
    {
      dst := dst + [src[i]];
      i := i + 1;
    }
  }

  lemma WithoutFirst(q: seq<int>, pid: int)
    requires q != []
    ensures Without(q, pid) == if q[0] == pid then Without(q[1..], pid) else [q[0]] + Without(q[1..], pid)
  {
  }

  /** The entry behind `kept` is passed over or kept. */
  lemma DropStep(kept: seq<int>, rest: seq<int>, pid: int)
    requires rest != []
    ensures (kept + rest)[|kept|] == rest[0]
    ensures (kept + rest)[..|kept|] + (kept + rest)[|kept| + 1..] == kept + rest[1..]
    ensures kept + rest == (kept + [rest[0]]) + rest[1..]
    ensures kept + Without(rest, pid) ==
            (if rest[0] == pid then kept else kept + [rest[0]]) + Without(rest[1..], pid)
  {
    WithoutFirst(rest, pid);
    assert kept + ([rest[0]] + Without(rest[1..], pid)) == (kept + [rest[0]]) + Without(rest[1..], pid);
  }

  lemma WithoutNothing(q: seq<int>, pid: int)
    ensures q == [] ==> Without(q, pid) == []
    ensures [] + Without(q, pid) == Without(q, pid) && [] + q == q
  {
  }

  class Semaphore {
    const slot: nat
    const blockedPids: array<int>
    var active: bool
    var name: string
    var value: nat
    var users: nat
    var blockedCount: nat

    constructor (slot: nat)
      ensures this.slot == slot && fresh(blockedPids) && Valid() && Abs() == Sem(false, "", 0, 0, [])
    {
      this.slot := slot;
      blockedPids := new int[MAX_BLOCKED];
      active, name, value, users, blockedCount := false, "", 0, 0, 0;
    }

    ghost predicate Valid()
      reads this
    {
      blockedPids.Length == MAX_BLOCKED && blockedCount <= MAX_BLOCKED
    }

    ghost function Abs(): Sem
      requires Valid()
      reads this, blockedPids
    {
      Sem(active, name, value, users, blockedPids[..blockedCount])
    }

    /** The entries after place `j` move up by one. */
    method RemoveAt(j: nat)
      requires Valid() && j < blockedCount
      modifies this`blockedCount, blockedPids
      ensures Valid()
      ensures Abs() == old(Abs()).(blocked := old(Abs()).blocked[..j] + old(Abs()).blocked[j + 1..])
    {
      ghost var was := blockedPids[..blockedCount];
      blockedCount := blockedCount - 1;
      var k := j;
      while k < blockedCount
        invariant j <= k <= blockedCount == |was| - 1
        invariant forall i {:trigger blockedPids[i]} :: 0 <= i < j ==> blockedPids[i] == was[i]
        invariant forall i {:trigger blockedPids[i]} :: j <= i < k ==> blockedPids[i] == was[i + 1]
        invariant forall i {:trigger blockedPids[i]} :: k <= i < |was| ==> blockedPids[i] == was[i]
      {
        blockedPids[k] := blockedPids[k + 1];
        k := k + 1;
      }
      assert blockedPids[..blockedCount] == was[..j] + was[j + 1..];
    }

    /** The wait itself: the value is taken, or the process queues up if there is room. */
    method TakeOrQueue(pid: int) returns (taken: bool)
      requires Valid()
      modifies this, blockedPids
      ensures Valid() && Abs() == WaitOn(old(Abs()), pid) && (taken <==> !Blocks(old(Abs())))
      ensures taken <==> old(value) > 0
      ensures Abs() == var s := old(Abs());
                       if taken then s.(value := s.value - 1)
                       else if |s.blocked| < 64 then s.(blocked := s.blocked + [pid])
                       else s
    {
      if value > 0 {
        value := value - 1;
        return true;
      }
      if blockedCount < MAX_BLOCKED {
        blockedPids[blockedCount] := pid;
        blockedCount := blockedCount + 1;
      }
      return false;
    }

    /** The post itself: the first waiter leaves the queue, or the value grows. */
    method ReleaseOrCount() returns (woken: bool, pid: int)
      requires Valid()
      modifies this, blockedPids
      ensures Valid() && Abs() == PostOn(old(Abs()))
      ensures WokenByPost(old(Abs())) == if woken then [pid] else []
      ensures woken <==> old(Abs()).blocked != []
      ensures Abs() == var s := old(Abs());
                       if woken then s.(blocked := s.blocked[1..]) else s.(value := (s.value + 1) % 0x1_0000)
      ensures woken ==> pid == old(Abs()).blocked[0]
    {
      if blockedCount > 0 {
        pid := blockedPids[0];
        RemoveAt(0);
        return true, pid;
      }
      value := Wrap16(value + 1);
      return false, 0;
    }

    /** One user less; is nobody left? */
    method DropUser() returns (last: bool)
      requires Valid()
      modifies this`users
      ensures Valid() && Abs() == old(Abs()).(users := UsersAfterClose(old(Abs()))) && (last <==> users == 0)
    {
      if users > 0 {
        users := users - 1;
      }
      return users == 0;
    }

    /** One semaphore of `sem_remove_pid`. */
    method DropPid(pid: int)
      requires Valid()
      modifies this`blockedCount, blockedPids
      ensures Valid() && Abs() == old(Abs()).(blocked := Without(old(Abs()).blocked, pid))
    {
      hide Without;
      ghost var was := Abs().blocked;
      ghost var kept: seq<int> := [];
      ghost var rest := was;
      WithoutNothing(was, pid);
      var j := 0;
      while j < blockedCount
        invariant Valid() && |kept| == j <= blockedCount && Abs().blocked == kept + rest
        invariant Without(was, pid) == kept + Without(rest, pid)
        decreases |rest|
      {
        DropStep(kept, rest, pid);
        assert Abs().blocked[j] == rest[0];
        if blockedPids[j] == pid {
          RemoveAt(j);
          assert |Abs().blocked| == |kept + rest[1..]|;
        } else {
          kept := kept + [rest[0]];
          j := j + 1;
        }
        rest := rest[1..];
      }
      WithoutNothing(rest, pid);
    }
  }

  class Semaphores {
    const sems: seq<Semaphore>
    const sched: Scheduler
    /** The arrays of the semaphores, all different. */
    ghost const pool: seq<array<int>>

    /** `sem_init` */
    constructor (sched: Scheduler)
      ensures Valid() && this.sched == sched && Table() == Boot().sems
      ensures fresh(this) && (forall s :: s in sems ==> fresh(s)) && forall a :: a in pool ==> fresh(a)
    {
      this.sched := sched;
      var t: seq<Semaphore> := [];
      ghost var arrays: seq<array<int>> := [];
      while |t| < MAX_SEMS
        invariant |t| == |arrays| <= MAX_SEMS
        invariant forall i: nat {:trigger t[i]} :: i < |t| ==>
                    && fresh(t[i]) && t[i].slot == i && t[i].Valid() && t[i].blockedPids == arrays[i]
                    && t[i].Abs() == Sem(false, "", 0, 0, [])
        invariant forall i: nat {:trigger arrays[i]} :: i < |arrays| ==>
                    fresh(arrays[i]) && arrays[i] == t[i].blockedPids
        invariant forall i: nat, j: nat :: i < j < |arrays| ==> arrays[i] != arrays[j]
      {
        var s := new Semaphore(|t|);
        t := t + [s];
        arrays := arrays + [s.blockedPids];
      }
      sems := t;
      pool := arrays;
      new;
      assert Table() == Boot().sems;
    }

    ghost predicate Fixed() {
      && |sems| == MAX_SEMS && |pool| == MAX_SEMS
      && (forall i: nat :: i < MAX_SEMS ==> sems[i].slot == i && sems[i].blockedPids == pool[i])
      && Separate()
    }

    ghost predicate Separate()
      requires |pool| == MAX_SEMS
    {
      forall i: nat, j: nat :: i < j < MAX_SEMS ==> pool[i] != pool[j]
    }

    ghost predicate Valid()
      reads this, sems
    {
      Fixed() && forall i: nat :: i < MAX_SEMS ==> sems[i].Valid()
    }

    ghost function TableBelow(n: nat): (t: Table)
      requires Valid() && n <= MAX_SEMS
      reads this, sems, pool
      ensures |t| == n && forall i: nat :: i < n ==> t[i] == sems[i].Abs()
    {
      if n == 0 then [] else TableBelow(n - 1) + [sems[n - 1].Abs()]
    }

    ghost function Table(): (t: Table)
      requires Valid()
      reads this, sems, pool
      ensures |t| == MAX_SEMS && forall i: nat :: i < MAX_SEMS ==> t[i] == sems[i].Abs()
    {
      TableBelow(MAX_SEMS)
    }

    lemma Apart(i: nat)
      requires Fixed() && i < MAX_SEMS
      ensures forall j: nat :: j < MAX_SEMS && j != i ==>
                sems[j] != sems[i] && sems[j].blockedPids != sems[i].blockedPids
    {
      forall j: nat | j < MAX_SEMS && j != i
        ensures sems[j] != sems[i] && sems[j].blockedPids != sems[i].blockedPids
      {
        assert sems[j].slot == j && pool[j] == sems[j].blockedPids;
        assert pool[i] == sems[i].blockedPids;
        assert i < j || j < i;
      }
    }

    /** A change of one semaphore is a change of one entry of the table. */
    twostate lemma OneChanged(i: nat)
      requires old(Valid()) && i < MAX_SEMS && sems[i].Valid()
      requires forall s :: s in sems && s != sems[i] ==> unchanged(s)
      requires forall a :: a in pool && a != sems[i].blockedPids ==> unchanged(a)
      ensures Valid() && Table() == old(Table())[i := sems[i].Abs()]
    {
      Apart(i);
      forall j: nat | j < MAX_SEMS && j != i
        ensures sems[j].Valid() && sems[j].Abs() == old(sems[j].Abs())
      {
        assert sems[j] in sems && pool[j] in pool && pool[j] == sems[j].blockedPids;
      }
    }

    /** `sem_open` */
    method SemOpen(name: string, value: nat) returns (id: int)
      requires Valid()
      modifies sems
      ensures Valid()
      ensures id == OpenId(old(Table()), name) && Table() == Open(old(Table()), name, value)
    {
      hide Separate, TableBelow, Stored, Wrap16;
      var i := FindByName(name);
      if i >= 0 {
        label found:
        sems[i].users := Wrap16(sems[i].users + 1);
        OneChanged@found(i);
        return i;
      }
      i := FindInactive();
      if i >= 0 {
        var s := sems[i];
        label free:
        s.active := true;
        s.value := value;
        s.users := 1;
        s.blockedCount := 0;
        s.name := SemNameCopy(name);
        OneChanged@free(i);
        return i;
      }
      return -1;
    }

    /** The first loop of `sem_open`: the active semaphore of that name, or -1. */
    method FindByName(name: string) returns (i: int)
      requires Valid()
      ensures i == FindName(Table(), name)
    {
      hide Separate, TableBelow;
      i := 0;
      while i < MAX_SEMS
        invariant 0 <= i <= MAX_SEMS && FindName(Table(), name) == FindNameFrom(Table(), name, i)
      {
        assert Table()[i] == sems[i].Abs();
        if sems[i].active {
          var eq := SemNameEq(sems[i].name, name);
          if eq {
            return i;
          }
        }
        i := i + 1;
      }
      return -1;
    }

    /** The second loop of `sem_open`: the first inactive slot, or -1. */
    method FindInactive() returns (i: int)
      requires Valid()
      ensures i == FindFree(Table())
    {
      hide Separate, TableBelow;
      i := 0;
      while i < MAX_SEMS
        invariant 0 <= i <= MAX_SEMS && FindFree(Table()) == FindFreeFrom(Table(), i)
      {
        assert Table()[i] == sems[i].Abs();
        if !sems[i].active {
          return i;
        }
        i := i + 1;
      }
      return -1;
    }

    ghost predicate Ready()
      reads this, sems, sched, sched.heads, sched.table
    {
      Valid() && sched.Valid() && Orderly(sched.Abs())
    }

    /** The kernel value, with the semaphores. */
    ghost function K(): (k: Kernel)
      requires Valid() && sched.Valid()
      reads this, sems, pool, sched, sched.heads, sched.table
      ensures Shape(k)
    {
      sched.Abs().(sems := Table())
    }

    /** `sem_close` */
    method SemClose(id: int) returns (rc: int)
      requires Ready()
      modifies sems, sched`books, sched.heads, sched.table`next, sched.table`prev, sched.table`state
      ensures Ready() && K() == KernelSpec.SemClose(old(K()), id)
      ensures rc == if ValidId(old(Table()), id) then 0 else -1
    {
      hide Separate, ReadyBooks.Kept, Scheduler.Linked, TableBelow, Orderly, Close, WakeAll, Scheduler.Abs;
      ghost var k := sched.Abs();
      ghost var t := Table();
      rc := CloseAndWake(id);
      WakeAllElsewhere(k, WokenByClose(t, id), Close(t, id));
    }

    method CloseAndWake(id: int) returns (rc: int)
      requires Ready()
      modifies sems, sched`books, sched.heads, sched.table`next, sched.table`prev, sched.table`state
      ensures Ready() && Table() == Close(old(Table()), id)
      ensures sched.Abs() == WakeAll(old(sched.Abs()), WokenByClose(old(Table()), id))
      ensures rc == if ValidId(old(Table()), id) then 0 else -1
    {
      hide Separate, TableBelow, Orderly, ReadyBooks.Kept, Scheduler.Linked, Scheduler.Abs;
      if id < 0 || id >= MAX_SEMS {
        return -1;
      }
      var s := sems[id];
      if !s.active {
        return -1;
      }
      var last := s.DropUser();
      OneChanged(id);
      if last {
        WakeBlocked(s);
        Destroy(id);
      }
      return 0;
    }

    method Destroy(id: nat)
      requires Ready() && id < MAX_SEMS
      modifies sems
      ensures Ready() && sched.Abs() == old(sched.Abs())
      ensures Table() == old(Table())[id := old(Table())[id].(active := false, blocked := [], name := "")]
    {
      hide Separate, TableBelow, Orderly, ReadyBooks.Kept, Scheduler.Linked, Scheduler.ProcsBelow;
      var s := sems[id];
      s.active := false;
      s.blockedCount := 0;
      s.name := "";
      OneChanged(id);
    }

    /** Every process of the queue, in order, is unblocked. */
    method WakeBlocked(s: Semaphore)
      requires Ready() && s in sems
      modifies sched`books, sched.heads, sched.table`next, sched.table`prev, sched.table`state
      ensures Ready() && sched.Abs() == WakeAll(old(sched.Abs()), s.Abs().blocked)
    {
      hide Orderly;
      ghost var q := s.blockedPids[..s.blockedCount];
      ghost var k := sched.Abs();
      var i := 0;
      while i < s.blockedCount
        invariant 0 <= i <= |q| && Ready()
        invariant WakeAll(k, q) == WakeAll(sched.Abs(), q[i..])
      {
        WakeKeepsOrder(sched.Abs(), s.blockedPids[i]);
        assert q[i..][0] == s.blockedPids[i] && q[i..][1..] == q[i + 1..];
        Unblock(s.blockedPids[i]);
        i := i + 1;
      }
    }

    method Unblock(pid: int)
      requires Ready()
      modifies sched`books, sched.heads, sched.table`next, sched.table`prev, sched.table`state
      ensures Ready() && sched.Abs() == Wake(old(sched.Abs()), pid)
    {
      WakeKeepsOrder(sched.Abs(), pid);
      sched.UnblockProcess(pid);
    }

    /** `sem_post` */
    method SemPost(id: int) returns (rc: int)
      requires Ready()
      modifies sems, pool, sched`books, sched.heads, sched.table`next, sched.table`prev, sched.table`state
      ensures Ready() && K() == KernelSpec.SemPost(old(K()), id)
      ensures rc == if ValidId(old(Table()), id) then 0 else -1
    {
      hide Separate, ReadyBooks.Kept, Scheduler.Linked, TableBelow, Orderly, Post, WakeAll, Scheduler.Abs;
      ghost var k := sched.Abs();
      ghost var t := Table();
      rc := PostAndWake(id);
      WakeAllElsewhere(k, Woken(t, id), Post(t, id));
    }

    method PostAndWake(id: int) returns (rc: int)
      requires Ready()
      modifies sems, pool, sched`books, sched.heads, sched.table`next, sched.table`prev, sched.table`state
      ensures Ready() && Table() == Post(old(Table()), id)
      ensures sched.Abs() == WakeAll(old(sched.Abs()), Woken(old(Table()), id))
      ensures rc == if ValidId(old(Table()), id) then 0 else -1
    {
      hide Separate, TableBelow, Orderly, ReadyBooks.Kept, Scheduler.Linked, Scheduler.Abs;
      hide Wake, PostOn, WokenByPost, Scheduler.ProcsBelow;
      if id < 0 || id >= MAX_SEMS {
        return -1;
      }
      var s := sems[id];
      if !s.active {
        return -1;
      }
      var woken, pid := s.ReleaseOrCount();
      OneChanged(id);
      if woken {
        ghost var k := sched.Abs();
        Unblock(pid);
        assert WakeAll(k, [pid]) == Wake(k, pid);
      }
      return 0;
    }

    /**
     `sem_wait`. A process that finds the value 0 queues up, becomes BLOCKED and gives up its time; the timer interrupt
     that it then waits for switches away from it. One that has been killed queues up and goes on.
    */
    method SemWait(id: int, ghost idle: nat) returns (rc: int)
      requires Ready() && Idle(sched.Abs(), idle) && sched.current != null && sched.current.pid < INT_LIMIT
      requires ValidId(Table(), id) && Blocks(Table()[id]) ==> sched.current.slot != idle
      modifies sems, pool, sched, sched.heads, sched.table
      ensures Valid() && sched.Valid() && K() == KernelSpec.SemWait(old(K()), id)
      ensures rc == if ValidId(old(Table()), id) then 0 else -1
    {
      hide Separate, TableBelow, Orderly, ReadyBooks.Kept, Scheduler.Linked, Tick, WaitOn, Scheduler.ProcsBelow;
      ghost var k := sched.Abs();
      rc := TakeOrPark(id, idle);
      TickElsewhere(Stopped(k), Table());
    }

    method TakeOrPark(id: int, ghost idle: nat) returns (rc: int)
      requires Ready() && Idle(sched.Abs(), idle) && sched.current != null && sched.current.pid < INT_LIMIT
      requires ValidId(Table(), id) && Blocks(Table()[id]) ==> sched.current.slot != idle
      modifies sems, pool, sched, sched.heads, sched.table
      ensures Valid() && sched.Valid() && Table() == Wait(old(Table()), id, KernelSpec.CurrentPid(old(sched.Abs())))
      ensures sched.Abs() == if && ValidId(old(Table()), id) && Blocks(old(Table())[id])
                                && old(sched.current.state) == Running
                             then Park(old(sched.Abs())) else old(sched.Abs())
      ensures rc == if ValidId(old(Table()), id) then 0 else -1
    {
      hide Separate, TableBelow, Orderly, ReadyBooks.Kept, Scheduler.Linked, Park, Scheduler.ProcsBelow;
      if id < 0 || id >= MAX_SEMS {
        return -1;
      }
      var s := sems[id];
      if !s.active {
        return -1;
      }
      var pid := CurrentPid();
      var taken := s.TakeOrQueue(pid);
      OneChanged(id);
      if !taken {
        StopIfRunning(idle);
      }
      return 0;
    }

    /** The end of `sem_wait`: the loop is entered only by a process that `block_current_process` has made BLOCKED. */
    method StopIfRunning(ghost idle: nat)
      requires sched.Valid() && Orderly(sched.Abs()) && Idle(sched.Abs(), idle)
      requires sched.current != null && sched.current.slot != idle
      modifies sched, sched.heads, sched.table
      ensures sched.Valid()
      ensures sched.Abs() == if old(sched.current.state) == Running then Park(old(sched.Abs())) else old(sched.Abs())
    {
      hide Orderly, ReadyBooks.Kept, Scheduler.Linked, Park;
      if sched.current.state == Running {
        sched.ParkCurrent(idle);
      }
    }

    /** `get_current_pid` */
    method CurrentPid() returns (pid: int)
      requires sched.Valid() && (sched.current != null ==> sched.current.pid < INT_LIMIT)
      ensures pid == KernelSpec.CurrentPid(sched.Abs())
    {
      pid := if sched.current != null then AsInt(sched.current.pid) else -1;
    }

    /** `sem_get_value` */
    method SemGetValue(id: int) returns (value: int)
      requires Valid()
      ensures value == if ValidId(Table(), id) then Table()[id].value else -1
    {
      if id < 0 || id >= MAX_SEMS || !sems[id].active {
        return -1;
      }
      return sems[id].value;
    }

    /** `sem_remove_pid` */
    method SemRemovePid(pid: int)
      requires Valid()
      modifies sems, pool
      ensures Valid() && Table() == RemovePid(old(Table()), pid)
    {
      hide Separate, TableBelow, Without;
      ghost var t := Table();
      var i := 0;
      while i < MAX_SEMS
        invariant 0 <= i <= MAX_SEMS && Valid()
        invariant forall j: nat :: j < MAX_SEMS ==> Table()[j] == if j < i then RemovePid(t, pid)[j] else t[j]
      {
        label before:
        assert Table()[i] == sems[i].Abs();
        if sems[i].active {
          sems[i].DropPid(pid);
          OneChanged@before(i);
        }
        i := i + 1;
      }
    }
  }
}
