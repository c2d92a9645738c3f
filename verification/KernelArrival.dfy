/** Who goes first through a semaphore: in every run the processes leave its queue in the order in which they came. */
module KernelArrival {
  import opened SemSpec
  import opened KernelSpec
  import opened KernelInvariant
  import opened KernelRuns
  import opened KernelReclaim
  import opened KernelWaitPid
  import opened KernelSemaphores

  /** `a` stands somewhere before `b`. */
  ghost predicate Before(q: seq<int>, a: int, b: int) {
    exists i, j :: 0 <= i < j < |q| && q[i] == a && q[j] == b
  }

  lemma BeforeAppend(q: seq<int>, x: int, a: int, b: int)
    ensures a in q ==> Before(q + [x], a, x)
    ensures Before(q, a, b) ==> Before(q + [x], a, b)
  {
    var r := q + [x];
    if a in q {
      var i :| 0 <= i < |q| && q[i] == a;
      assert r[i] == a && r[|q|] == x;
    }
    if Before(q, a, b) {
      var i, j :| 0 <= i < j < |q| && q[i] == a && q[j] == b;
      assert r[i] == a && r[j] == b;
    }
  }

  lemma BeforeTail(q: seq<int>, a: int, b: int)
    requires Before(q, a, b) && a in q[1..] && Distinct(q)
    ensures Before(q[1..], a, b)
  {
    var i, j :| 0 <= i < j < |q| && q[i] == a && q[j] == b;
    var m :| 0 <= m < |q[1..]| && q[1..][m] == a;
    assert q[m + 1] == a && i == m + 1;
    assert q[1..][i - 1] == a && q[1..][j - 1] == b;
  }

  lemma {:induction false} BeforeWithout(q: seq<int>, pid: int, a: int, b: int)
    requires Before(q, a, b) && pid != a && pid != b
    ensures Before(Without(q, pid), a, b)
    decreases |q|
  {
    var i, j :| 0 <= i < j < |q| && q[i] == a && q[j] == b;
    if i > 0 {
      assert q[1..][i - 1] == a && q[1..][j - 1] == b;
      BeforeWithout(q[1..], pid, a, b);
      if q[0] != pid {
        BeforeCons(q[0], Without(q[1..], pid), a, b);
      }
    } else {
      assert q[1..][j - 1] == b;
      var rest := Without(q[1..], pid);
      assert b in q[1..] && b in rest;
      var m :| 0 <= m < |rest| && rest[m] == b;
      assert ([a] + rest)[0] == a && ([a] + rest)[m + 1] == b;
    }
  }

  lemma BeforeCons(x: int, q: seq<int>, a: int, b: int)
    requires Before(q, a, b)
    ensures Before([x] + q, a, b)
  {
    var i, j :| 0 <= i < j < |q| && q[i] == a && q[j] == b;
    assert ([x] + q)[i + 1] == a && ([x] + q)[j + 1] == b;
  }

  // ----- one call -----

  /** A process that waits in vain stands behind everybody who waits already. */
  lemma WaiterIsLast(k: Kernel, idle: nat, id: int)
    requires Good(k, idle) && k.current >= 0 && ValidId(k.sems, id) && k.sems[id].value == 0
    ensures ValidId(Do(k, WaitCall(id)).sems, id)
    ensures Do(k, WaitCall(id)).sems[id].blocked == k.sems[id].blocked + [k.procs[k.current].pid]
  {
    hide QueuesMatch, SlotsOk, HeapOk, SemsOk, Settled, Do;
    assert id < MAX_SEMS by {
      AllSems(k, idle);
    }
    WaiterAlwaysFits(k, idle, id);
    SemsAfter(k, WaitCall(id));
  }

  lemma AllSems(k: Kernel, idle: nat)
    requires Good(k, idle)
    ensures |k.sems| == MAX_SEMS
  {
    hide QueuesMatch, SlotsOk, HeapOk;
  }

  /** The queue after a call, while the semaphore lives. */
  function QueueAfter(k: Kernel, c: Call, id: nat): seq<int>
    requires Shape(k) && id < |k.sems|
  {
    var q := k.sems[id].blocked;
    var posted := if IsPost(k, c, id) && q != [] then q[1..] else q;
    if c.KillCall? && Kills(k, c) then Without(posted, c.pid)
    else if c.WaitCall? && c.id == id && k.sems[id].value == 0 then q + [CurrentPid(k)]
    else posted
  }

  lemma QueueAfterIs(k: Kernel, idle: nat, c: Call, id: nat)
    requires Good(k, idle) && Allowed(k, idle, c) && ValidId(k.sems, id) && ValidId(Do(k, c).sems, id)
    ensures Do(k, c).sems[id].blocked == QueueAfter(k, c, id)
  {
    SemsAfter(k, c);
    AllSems(k, idle);
    WaiterAlwaysFits(k, idle, id);
    TableQueue(k, c, id);
  }

  lemma OpenQueue(t: Table, name: string, value: nat, id: nat)
    requires ValidId(t, id)
    ensures Open(t, name, value)[id].blocked == t[id].blocked
  {
  }

  lemma TableQueue(k: Kernel, c: Call, id: nat)
    requires Shape(k) && (c.WaitCall? ==> k.current >= 0) && ValidId(k.sems, id) && ValidId(TableAfter(k, c), id)
    requires |k.sems[id].blocked| < MAX_BLOCKED
    ensures TableAfter(k, c)[id].blocked == QueueAfter(k, c, id)
  {
    hide AnnounceTable, AnnounceEvents, Ends, WaitName, Open;
    match c
    case CreateCall(_, _, _, _) => OpenQueue(k.sems, WaitName(k.nextPid), 0, id);
    case OpenCall(name, value) => OpenQueue(k.sems, name, value, id);
    case KillCall(pid, named) =>
      if Kills(k, c) {
        AnnounceIsPost(k.sems, pid, named, id);
      }
    case ExitCall(named) =>
      if k.current >= 0 {
        AnnounceIsPost(k.sems, k.procs[k.current].pid, named, id);
      }
    case _ =>
  }

  /**
   One call, for a process `a` that waits before and after it: whoever came after `a` and is not killed still waits, and
   still behind `a`; whoever comes now comes behind `a`.
  */
  lemma StepKeepsArrivals(k: Kernel, idle: nat, c: Call, id: nat, a: int, b: int)
    requires Good(k, idle) && Allowed(k, idle, c) && ValidId(k.sems, id) && ValidId(Do(k, c).sems, id)
    requires a in k.sems[id].blocked && a in Do(k, c).sems[id].blocked && !(c.KillCall? && c.pid == b)
    ensures Before(k.sems[id].blocked, a, b) ==> Before(Do(k, c).sems[id].blocked, a, b)
    ensures b !in k.sems[id].blocked && b in Do(k, c).sems[id].blocked ==> Before(Do(k, c).sems[id].blocked, a, b)
  {
    QueueAfterIs(k, idle, c, id);
    AliveIsValid(k.sems, idle, k, id);
    hide QueuesMatch, SlotsOk, HeapOk, SemsOk, Settled, Do, Before, Kills, IsPost, Distinct;
    var q := k.sems[id].blocked;
    var posted := if IsPost(k, c, id) && q != [] then q[1..] else q;
    assert forall x :: x in Without(posted, a) ==> x != a;
    if Before(q, a, b) {
      assert a in posted;
      if posted != q {
        BeforeTail(q, a, b);
      }
      if c.KillCall? && Kills(k, c) {
        BeforeWithout(posted, c.pid, a, b);
      }
    }
    BeforeAppend(q, CurrentPid(k), a, b);
  }

  // ----- runs -----

  /** `a` waits on semaphore `id` in the states from `i` up to `n`. */
  ghost predicate WaitsFrom(states: seq<Kernel>, id: nat, a: int, i: nat, n: nat)
    requires n < |states|
  {
    forall m :: i <= m <= n ==> ValidId(states[m].sems, id) && a in states[m].sems[id].blocked
  }

  /**
   In every run, by pid: if `b` begins to wait when `a` waits already, then as long as `a` goes on waiting, `b` stands
   behind it in the queue, and no post, no end of a process, nothing but its own death lets `b` out.
  */
  lemma {:induction false} FirstComeFirstServed(states: seq<Kernel>, calls: seq<Call>, idle: nat, id: nat,
                                                a: int, b: int, i: nat, n: nat)
    requires IsRun(states, calls, idle) && Good(states[0], idle) && i < n < |states| && WaitsFrom(states, id, a, i, n)
    requires ValidId(states[i].sems, id) && ValidId(states[i + 1].sems, id)
    requires b !in states[i].sems[id].blocked && b in states[i + 1].sems[id].blocked
    requires forall m :: i <= m < n ==> !(calls[m].KillCall? && calls[m].pid == b)
    ensures ValidId(states[n].sems, id) && Before(states[n].sems[id].blocked, a, b)
    ensures exists s: nat :: s < MAX_PROCESSES && states[n].procs[s].pid == b && states[n].procs[s].state == Blocked
    decreases n
  {
    hide QueuesMatch, SlotsOk, HeapOk, Settled, TableOk, Do, Before, Proper;
    if n > i + 1 {
      FirstComeFirstServed(states, calls, idle, id, a, b, i, n - 1);
    }
    RunKeeps(states, calls, idle, n - 1);
    RunKeeps(states, calls, idle, n);
    assert Allowed(states[n - 1], idle, calls[n - 1]) && states[n] == Do(states[n - 1], calls[n - 1]);
    StepKeepsArrivals(states[n - 1], idle, calls[n - 1], id, a, b);
    BeforeIsIn(states[n].sems[id].blocked, a, b);
    assert BlockedPid(states[n], b);
  }

  lemma BeforeIsIn(q: seq<int>, a: int, b: int)
    requires Before(q, a, b)
    ensures b in q
  {
  }
}
