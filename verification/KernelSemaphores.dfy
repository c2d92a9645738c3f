/** The runs of the kernel, seen from one semaphore: every run is a history of waits, posts and removals. */
module KernelSemaphores {
  import opened SemSpec
  import opened KernelSpec
  import opened KernelInvariant
  import opened KernelRuns
  import opened KernelReclaim
  import opened KernelWaitPid
  import opened WaitNames

  /** Same value and same queue; the users may differ. */
  predicate Alike(s: Sem, s': Sem) {
    s.value == s'.value && s.blocked == s'.blocked
  }

  /** The announcement of the end of `pid` posts semaphore `id` if that is the one of its name. */
  function AnnounceEvents(t: Table, pid: nat, named: bool, id: nat): seq<Event> {
    if named && pid != 0 && OpenId(t, WaitName(pid)) == id then [Posted] else []
  }

  /** What a kernel entry means for semaphore `id`. */
  function EventsOf(k: Kernel, c: Call, id: nat): seq<Event>
    requires Shape(k)
  {
    match c
    case KillCall(pid, named) => if Kills(k, c) then AnnounceEvents(k.sems, pid, named, id) + [Dropped(pid)] else []
    case ExitCall(named) => if k.current >= 0 then AnnounceEvents(k.sems, k.procs[k.current].pid, named, id) else []
    case WaitCall(i) => if i == id then [WaitBy(CurrentPid(k))] else []
    case PostCall(i) => if i == id then [Posted] else []
    case _ => []
  }

  lemma AnnounceIsPost(t: Table, pid: nat, named: bool, id: nat)
    requires ValidId(t, id) && ValidId(AnnounceTable(t, pid, named), id)
    ensures Alike(AnnounceTable(t, pid, named)[id],
                  if AnnounceEvents(t, pid, named, id) == [] then t[id] else PostOn(t[id]))
  {
    hide WaitName;
  }

  lemma SameStep(h: History, s: Sem, e: Event)
    requires |h.queue| == |h.sem.blocked| && Alike(h.sem, s)
    ensures e.Posted? ==> Alike(HistoryStep(h, e).sem, PostOn(s))
    ensures e.WaitBy? ==> Alike(HistoryStep(h, e).sem, WaitOn(s, e.pid))
    ensures e.Dropped? ==> Alike(HistoryStep(h, e).sem, s.(blocked := Without(s.blocked, e.pid)))
  {
  }

  lemma OneEvent(h: History, e: Event)
    requires |h.queue| == |h.sem.blocked|
    ensures HistoryRun(h, [e]) == HistoryStep(h, e)
  {
    assert HistoryRun(HistoryStep(h, e), []) == HistoryStep(h, e);
  }

  lemma AnnounceHistory(t: Table, pid: nat, named: bool, id: nat, h: History)
    requires ValidId(t, id) && ValidId(AnnounceTable(t, pid, named), id)
    requires |h.queue| == |h.sem.blocked| && Alike(h.sem, t[id])
    ensures Alike(HistoryRun(h, AnnounceEvents(t, pid, named, id)).sem, AnnounceTable(t, pid, named)[id])
  {
    hide HistoryStep, PostOn, AnnounceTable;
    AnnounceIsPost(t, pid, named, id);
    OneEvent(h, Posted);
    SameStep(h, t[id], Posted);
  }

  /** As long as the semaphore lives, a kernel entry changes its value and queue as its events say. */
  lemma StepIsHistory(k: Kernel, c: Call, id: nat, h: History)
    requires Shape(k) && (c.WaitCall? ==> k.current >= 0)
    requires ValidId(k.sems, id) && ValidId(Do(k, c).sems, id)
    requires |h.queue| == |h.sem.blocked| && Alike(h.sem, k.sems[id])
    ensures Alike(HistoryRun(h, EventsOf(k, c, id)).sem, Do(k, c).sems[id])
  {
    SemsAfter(k, c);
    hide Do, HistoryStep, PostOn, WaitOn, AnnounceTable, AnnounceEvents, WaitName, Kills;
    match c
    case KillCall(pid, named) =>
      if Kills(k, c) {
        var t := AnnounceTable(k.sems, pid, named);
        AnnounceHistory(k.sems, pid, named, id, h);
        var h' := HistoryRun(h, AnnounceEvents(k.sems, pid, named, id));
        HistoryConcat(h, AnnounceEvents(k.sems, pid, named, id), [Dropped(pid)]);
        OneEvent(h', Dropped(pid));
        SameStep(h', t[id], Dropped(pid));
      }
    case ExitCall(named) =>
      if k.current >= 0 {
        AnnounceHistory(k.sems, k.procs[k.current].pid, named, id, h);
      }
    case WaitCall(i) =>
      OneEvent(h, WaitBy(CurrentPid(k)));
      SameStep(h, k.sems[id], WaitBy(CurrentPid(k)));
    case PostCall(i) =>
      OneEvent(h, Posted);
      SameStep(h, k.sems[id], Posted);
    case _ =>
  }

  /** Semaphore `id` is alive in the first `n + 1` states. */
  ghost predicate Lives(states: seq<Kernel>, id: nat, n: nat)
    requires n < |states|
  {
    forall i :: 0 <= i <= n ==> ValidId(states[i].sems, id)
  }

  function RunEvents(states: seq<Kernel>, calls: seq<Call>, id: nat, n: nat): seq<Event>
    requires n <= |calls| <= |states| && forall i :: 0 <= i < |states| ==> Shape(states[i])
  {
    if n == 0 then [] else RunEvents(states, calls, id, n - 1) + EventsOf(states[n - 1], calls[n - 1], id)
  }

  lemma RunAllows(states: seq<Kernel>, calls: seq<Call>, idle: nat, i: nat)
    requires IsRun(states, calls, idle) && i < |calls|
    ensures calls[i].WaitCall? ==> states[i].current >= 0
  {
    assert Allowed(states[i], idle, calls[i]);
  }

  /**
   In every run of the kernel a semaphore, from its creation to its destruction, goes through a history of waits, posts
   and removals: its value and queue are the ones of the history, waiters are let through in the order of their waits,
   and no unit is lost or made up.
  */
  lemma {:induction false} RunIsHistory(states: seq<Kernel>, calls: seq<Call>, idle: nat, id: nat, n: nat, initial: nat)
    requires IsRun(states, calls, idle) && n < |states| && Lives(states, id, n)
    requires states[0].sems[id].blocked == [] && InOrder(NoHistory(states[0].sems[id]), initial)
    ensures var h := HistoryRun(NoHistory(states[0].sems[id]), RunEvents(states, calls, id, n));
            Alike(h.sem, states[n].sems[id]) && InOrder(h, initial)
  {
    hide Do, EventsOf, InOrder, Allowed;
    var start := NoHistory(states[0].sems[id]);
    SemaphoreRun(start, RunEvents(states, calls, id, n), initial);
    if n > 0 {
      hide HistoryRun, HistoryStep, Alike, NoHistory;
      RunIsHistory(states, calls, idle, id, n - 1, initial);
      var before := RunEvents(states, calls, id, n - 1);
      HistoryConcat(start, before, EventsOf(states[n - 1], calls[n - 1], id));
      RunAllows(states, calls, idle, n - 1);
      StepIsHistory(states[n - 1], calls[n - 1], id, HistoryRun(start, before));
    }
  }

  // ----- who is served -----

  predicate IsWait(c: Call, id: nat) {
    c == WaitCall(id)
  }

  /** Does the call post semaphore `id`, by `sem_post` or by announcing an end? */
  predicate IsPost(k: Kernel, c: Call, id: nat)
    requires Shape(k)
  {
    match c
    case PostCall(i) => i == id
    case KillCall(pid, named) => Kills(k, c) && AnnounceEvents(k.sems, pid, named, id) != []
    case ExitCall(named) => k.current >= 0 && AnnounceEvents(k.sems, k.procs[k.current].pid, named, id) != []
    case _ => false
  }

  /** Does the call kill a process that would still wait on semaphore `id` after the post that comes with the kill? */
  predicate IsDrop(k: Kernel, c: Call, id: nat)
    requires Shape(k)
  {
    && id < |k.sems| && c.KillCall? && Kills(k, c)
    && c.pid in (if IsPost(k, c, id) then PostOn(k.sems[id]) else k.sems[id]).blocked
  }

  lemma {:induction false} WithoutOnce(q: seq<int>, pid: int)
    requires Distinct(q)
    ensures |Without(q, pid)| == |q| - if pid in q then 1 else 0
    decreases |q|
  {
    if q != [] {
      assert Distinct(q[1..]) && q[0] !in q[1..];
      WithoutOnce(q[1..], pid);
    }
  }

  /** Waiters less units. */
  function Balance(s: Sem): int {
    |s.blocked| - s.value
  }

  function One(b: bool): nat {
    if b then 1 else 0
  }

  lemma PostBalances(s: Sem)
    requires s.value < 0xFFFF
    ensures Balance(PostOn(s)) == Balance(s) - 1
    ensures Distinct(s.blocked) ==> Distinct(PostOn(s).blocked)
  {
  }

  lemma WaitBalances(s: Sem, pid: int)
    requires |s.blocked| < MAX_BLOCKED
    ensures Balance(WaitOn(s, pid)) == Balance(s) + 1
  {
  }

  lemma AliveIsValid(t: Table, idle: nat, k: Kernel, id: nat)
    requires Good(k, idle) && k.sems == t && ValidId(t, id)
    ensures Distinct(t[id].blocked)
  {
    hide QueuesMatch, SlotsOk, HeapOk;
  }

  lemma KillBalances(t: Table, pid: nat, named: bool, id: nat)
    requires ValidId(t, id) && ValidId(RemovePid(AnnounceTable(t, pid, named), pid), id)
    requires t[id].value < 0xFFFF && Distinct(t[id].blocked)
    ensures var posted := AnnounceEvents(t, pid, named, id) != [];
            var dropped := pid in (if posted then PostOn(t[id]) else t[id]).blocked;
            Balance(RemovePid(AnnounceTable(t, pid, named), pid)[id]) == Balance(t[id]) - One(posted) - One(dropped)
  {
    hide AnnounceTable, AnnounceEvents, PostOn, Distinct;
    PostBalances(t[id]);
    AnnounceIsPost(t, pid, named, id);
    WithoutOnce(AnnounceTable(t, pid, named)[id].blocked, pid);
  }

  /** What one call does to waiters less units. */
  lemma StepBalances(k: Kernel, idle: nat, c: Call, id: nat)
    requires Good(k, idle) && Allowed(k, idle, c) && ValidId(k.sems, id) && ValidId(Do(k, c).sems, id)
    requires k.sems[id].value < 0xFFFF
    ensures Balance(Do(k, c).sems[id]) ==
            Balance(k.sems[id]) + One(IsWait(c, id)) - One(IsPost(k, c, id)) - One(IsDrop(k, c, id))
  {
    SemsAfter(k, c);
    AliveIsValid(k.sems, idle, k, id);
    WaiterAlwaysFits(k, idle, id);
    TableBalances(k, c, id);
  }

  lemma OpenBalances(t: Table, name: string, value: nat, id: nat)
    requires ValidId(t, id)
    ensures Balance(Open(t, name, value)[id]) == Balance(t[id])
  {
  }

  lemma CloseBalances(t: Table, other: int, id: nat)
    requires ValidId(t, id) && ValidId(Close(t, other), id)
    ensures Balance(Close(t, other)[id]) == Balance(t[id])
  {
  }

  lemma TableBalances(k: Kernel, c: Call, id: nat)
    requires Shape(k) && ValidId(k.sems, id) && ValidId(TableAfter(k, c), id)
    requires k.sems[id].value < 0xFFFF && Distinct(k.sems[id].blocked) && |k.sems[id].blocked| < MAX_BLOCKED
    ensures Balance(TableAfter(k, c)[id]) ==
            Balance(k.sems[id]) + One(IsWait(c, id)) - One(IsPost(k, c, id)) - One(IsDrop(k, c, id))
  {
    hide PostOn, WaitOn, AnnounceTable, AnnounceEvents, WaitName, Ends, Distinct, Balance, RemovePid, Open, Close;
    PostBalances(k.sems[id]);
    match c
    case CreateCall(_, _, _, _) => OpenBalances(k.sems, WaitName(k.nextPid), 0, id);
    case OpenCall(name, value) => OpenBalances(k.sems, name, value, id);
    case KillCall(pid, named) =>
      if Kills(k, c) {
        KillBalances(k.sems, pid, named, id);
      }
    case ExitCall(named) =>
      if k.current >= 0 {
        AnnounceIsPost(k.sems, k.procs[k.current].pid, named, id);
        AlikeBalance(AnnounceTable(k.sems, k.procs[k.current].pid, named)[id], k.sems[id]);
      }
    case CloseCall(i) => CloseBalances(k.sems, i, id);
    case WaitCall(i) => WaitBalances(k.sems[id], CurrentPid(k));
    case _ =>
  }

  lemma AlikeBalance(s: Sem, s': Sem)
    ensures Alike(s, s') ==> Balance(s) == Balance(s')
    ensures Alike(s, PostOn(s')) ==> Balance(s) == Balance(PostOn(s'))
  {
    hide PostOn;
  }

  function Waits(calls: seq<Call>, id: nat, n: nat): nat
    requires n <= |calls|
  {
    if n == 0 then 0 else Waits(calls, id, n - 1) + One(IsWait(calls[n - 1], id))
  }

  function PostsOf(states: seq<Kernel>, calls: seq<Call>, id: nat, n: nat): nat
    requires n <= |calls| <= |states| && forall i :: 0 <= i < |states| ==> Shape(states[i])
  {
    if n == 0 then 0 else PostsOf(states, calls, id, n - 1) + One(IsPost(states[n - 1], calls[n - 1], id))
  }

  function Drops(states: seq<Kernel>, calls: seq<Call>, id: nat, n: nat): nat
    requires n <= |calls| <= |states| && forall i :: 0 <= i < |states| ==> Shape(states[i])
  {
    if n == 0 then 0 else Drops(states, calls, id, n - 1) + One(IsDrop(states[n - 1], calls[n - 1], id))
  }

  lemma GoodTable(k: Kernel, idle: nat)
    requires Good(k, idle)
    ensures |k.sems| == MAX_SEMS
    ensures forall i: nat :: i < MAX_SEMS && k.sems[i].blocked != [] ==> k.sems[i].value == 0
  {
    hide QueuesMatch, SlotsOk, HeapOk;
  }

  /** Over a run, as long as the semaphore lives and its counter cannot wrap. */
  lemma {:induction false} RunBalances(states: seq<Kernel>, calls: seq<Call>, idle: nat, id: nat, n: nat)
    requires IsRun(states, calls, idle) && Good(states[0], idle)
    requires id < MAX_SEMS && n < |states| && Lives(states, id, n)
    requires forall i :: 0 <= i < n ==> states[i].sems[id].value < 0xFFFF
    ensures Balance(states[n].sems[id]) ==
            Balance(states[0].sems[id])
            + Waits(calls, id, n) - PostsOf(states, calls, id, n) - Drops(states, calls, id, n)
  {
    hide Inv, Settled, Do, IsPost, IsDrop, IsWait, Balance;
    if n > 0 {
      RunBalances(states, calls, idle, id, n - 1);
      RunKeeps(states, calls, idle, n - 1);
      assert states[n] == Do(states[n - 1], calls[n - 1]) && ValidId(states[n].sems, id);
      StepBalances(states[n - 1], idle, calls[n - 1], id);
    }
  }

  /**
   At every moment of every run: the processes queued on a semaphore are as many as the waits exceed the initial value,
   the posts and the waiters killed; everybody has been served exactly when they do not exceed them.
  */
  lemma QueueIsExcess(states: seq<Kernel>, calls: seq<Call>, idle: nat, id: nat, n: nat)
    requires IsRun(states, calls, idle) && Good(states[0], idle)
    requires id < MAX_SEMS && n < |states| && Lives(states, id, n)
    requires forall i :: 0 <= i < n ==> states[i].sems[id].value < 0xFFFF
    requires states[0].sems[id].blocked == []
    ensures var served := states[0].sems[id].value + PostsOf(states, calls, id, n) + Drops(states, calls, id, n);
            var waits := Waits(calls, id, n);
            && |states[n].sems[id].blocked| == (if waits > served then waits - served else 0)
            && (states[n].sems[id].blocked == [] <==> waits <= served)
  {
    hide Inv, Settled, Do;
    RunBalances(states, calls, idle, id, n);
    RunKeeps(states, calls, idle, n);
    GoodTable(states[n], idle);
  }

  // ----- several waiters for one child -----

  /** Semaphores only go, or keep their names. */
  predicate Shrinks(t: Table, t': Table) {
    |t'| == |t| && forall j :: 0 <= j < |t| && t'[j].active ==> t[j].active && t'[j].name == t[j].name
  }

  lemma OnlyShrinks(t: Table, t': Table, id: nat, name: string)
    requires Only(t, id, name) && Shrinks(t, t') && ValidId(t', id)
    ensures Only(t', id, name)
  {
  }

  lemma UseShrinks(t: Table, id: int, pid: int)
    ensures Shrinks(t, Close(t, id)) && Shrinks(t, Post(t, id))
    ensures Shrinks(t, Wait(t, id, pid)) && Shrinks(t, RemovePid(t, pid))
  {
  }

  lemma AnnounceShrinks(t: Table, pid: nat, named: bool, id: nat)
    requires Only(t, id, WaitName(pid))
    ensures Shrinks(t, AnnounceTable(t, pid, named))
  {
    hide WaitName;
    OpenExisting(t, id, WaitName(pid), 0);
  }

  lemma OnlyAnnounced(t: Table, pid: nat, named: bool, id: nat, child: nat)
    requires child < PID_LIMIT && Only(t, id, WaitName(child)) && ValidId(AnnounceTable(t, pid, named), id)
    ensures Only(AnnounceTable(t, pid, named), id, WaitName(child))
    ensures child != 0 ==> (AnnounceEvents(t, pid, named, id) != [] <==> pid == child && named)
  {
    hide AnnounceTable;
    WaitNameFits(child);
    ShortName(Pair(child, 0, id));
    OpenExisting(t, id, WaitName(child), 0);
    if pid == child {
      AnnounceShrinks(t, pid, named, id);
      OnlyShrinks(t, AnnounceTable(t, pid, named), id, WaitName(child));
    } else {
      WaitNamesDiffer(pid, child);
      AnnounceOther(t, pid, named, id, WaitName(child));
      OpenOther(t, WaitName(pid), 0, id, WaitName(child));
    }
  }

  lemma OnlyOpened(t: Table, name: string, value: nat, id: nat, child: nat)
    requires child < PID_LIMIT && Only(t, id, WaitName(child))
    ensures Only(Open(t, name, value), id, WaitName(child))
  {
    hide Open, WaitName;
    ShortName(Pair(child, 0, id));
    if name == WaitName(child) {
      OpenExisting(t, id, name, value);
    } else {
      OpenOther(t, name, value, id, WaitName(child));
    }
  }

  /** As long as it lives the wait semaphore is the only one of its name, and only ends of the child announce on it. */
  lemma WaitSemaphoreStays(k: Kernel, idle: nat, c: Call, id: nat, child: nat)
    requires Good(k, idle) && Allowed(k, idle, c) && 0 < child < PID_LIMIT
    requires Only(k.sems, id, WaitName(child)) && ValidId(Do(k, c).sems, id)
    ensures Only(Do(k, c).sems, id, WaitName(child))
    ensures c != PostCall(id) ==> (IsPost(k, c, id) <==> Announces(k, c, child))
  {
    SemsAfter(k, c);
    hide Inv, Settled, Do, Open, Close, Post, Wait, RemovePid, AnnounceTable, AnnounceEvents, WaitName, Only, Find;
    match c
    case CreateCall(_, _, _, _) => OnlyOpened(k.sems, WaitName(k.nextPid), 0, id, child);
    case OpenCall(name, value) => OnlyOpened(k.sems, name, value, id, child);
    case KillCall(pid, named) =>
      if Kills(k, c) {
        var t := AnnounceTable(k.sems, pid, named);
        UseShrinks(t, 0, pid);
        OnlyAnnounced(k.sems, pid, named, id, child);
        OnlyShrinks(t, RemovePid(t, pid), id, WaitName(child));
      }
    case ExitCall(named) =>
      if k.current >= 0 {
        OnlyAnnounced(k.sems, k.procs[k.current].pid, named, id, child);
      }
    case CloseCall(i) =>
      UseShrinks(k.sems, i, 0);
      OnlyShrinks(k.sems, Close(k.sems, i), id, WaitName(child));
    case WaitCall(i) =>
      UseShrinks(k.sems, i, CurrentPid(k));
      OnlyShrinks(k.sems, Wait(k.sems, i, CurrentPid(k)), id, WaitName(child));
    case PostCall(i) =>
      UseShrinks(k.sems, i, 0);
      OnlyShrinks(k.sems, Post(k.sems, i), id, WaitName(child));
    case _ =>
  }

  /** How often the first `n` calls announce the end of `child`. */
  function Announcements(states: seq<Kernel>, calls: seq<Call>, child: nat, n: nat): nat
    requires n <= |calls| <= |states| && forall i :: 0 <= i < |states| ==> Shape(states[i])
  {
    if n == 0 then 0
    else Announcements(states, calls, child, n - 1) + One(Announces(states[n - 1], calls[n - 1], child))
  }

  lemma {:induction false} PostsAreEnds(states: seq<Kernel>, calls: seq<Call>, idle: nat, id: nat, child: nat, n: nat)
    requires IsRun(states, calls, idle) && Good(states[0], idle) && n < |states| && Lives(states, id, n)
    requires 0 < child < PID_LIMIT && Only(states[0].sems, id, WaitName(child))
    requires forall i :: 0 <= i < n ==> calls[i] != PostCall(id)
    ensures Only(states[n].sems, id, WaitName(child))
    ensures PostsOf(states, calls, id, n) == Announcements(states, calls, child, n)
  {
    hide Inv, Settled, Do, IsPost, Announces, Only, WaitName;
    if n > 0 {
      PostsAreEnds(states, calls, idle, id, child, n - 1);
      RunKeeps(states, calls, idle, n - 1);
      assert states[n] == Do(states[n - 1], calls[n - 1]) && ValidId(states[n].sems, id);
      WaitSemaphoreStays(states[n - 1], idle, calls[n - 1], id, child);
    }
  }

  /**
   Any number of processes waiting for one child, in every run: while its semaphore lives, each announced end lets one
   waiter through and no more; everybody is served exactly when the waits are no more than the announcements, of which
   a process that ends once makes one, and the waiters killed.
  */
  lemma WaitersServed(states: seq<Kernel>, calls: seq<Call>, idle: nat, id: nat, child: nat, n: nat)
    requires IsRun(states, calls, idle) && Good(states[0], idle)
    requires id < MAX_SEMS && n < |states| && Lives(states, id, n)
    requires forall i :: 0 <= i < n ==> calls[i] != PostCall(id) && states[i].sems[id].value < 0xFFFF
    requires 0 < child < PID_LIMIT && Only(states[0].sems, id, WaitName(child))
    requires states[0].sems[id].blocked == [] && states[0].sems[id].value == 0
    ensures var served := Announcements(states, calls, child, n) + Drops(states, calls, id, n);
            var waits := Waits(calls, id, n);
            && |states[n].sems[id].blocked| == (if waits > served then waits - served else 0)
            && (states[n].sems[id].blocked == [] <==> waits <= served)
  {
    hide Inv, Settled, Do, IsPost, Announces, Only, WaitName;
    PostsAreEnds(states, calls, idle, id, child, n);
    QueueIsExcess(states, calls, idle, id, n);
  }
}
