/** `wait_child` against every run of the kernel: a process waits for the end of another one. */
module KernelWaitPid {
  import opened SemSpec
  import opened KernelSpec
  import opened KernelInvariant
  import opened KernelRuns
  import opened KernelReclaim
  import opened WaitNames

  // ----- what a call does to the semaphore table -----

  function AnnounceTable(t: Table, pid: nat, named: bool): (t': Table)
    ensures |t'| == |t|
  {
    if !named || pid == 0 then t
    else
      var id := OpenId(t, WaitName(pid));
      var t1 := Open(t, WaitName(pid), 0);
      if id >= 0 then Close(Post(t1, id), id) else t1
  }

  predicate Starts(k: Kernel, c: Call)
    requires Shape(k)
  {
    c.CreateCall? && FreeSlotFrom(k.procs, 0) >= 0 && c.stack != 0 && c.named
  }

  predicate Kills(k: Kernel, c: Call)
    requires Shape(k)
  {
    c.KillCall? && c.pid >= 0 && Ends(k, c, c.pid)
  }

  function TableAfter(k: Kernel, c: Call): Table
    requires Shape(k)
  {
    match c
    case CreateCall(_, _, _, _) => if Starts(k, c) then Open(k.sems, WaitName(k.nextPid), 0) else k.sems
    case KillCall(pid, named) => if Kills(k, c) then RemovePid(AnnounceTable(k.sems, pid, named), pid) else k.sems
    case ExitCall(named) => if k.current >= 0 then AnnounceTable(k.sems, k.procs[k.current].pid, named) else k.sems
    case OpenCall(name, value) => Open(k.sems, name, value)
    case CloseCall(id) => Close(k.sems, id)
    case WaitCall(id) => Wait(k.sems, id, CurrentPid(k))
    case PostCall(id) => Post(k.sems, id)
    case _ => k.sems
  }

  lemma {:induction false} WakeAllSems(k: Kernel, pids: seq<int>)
    requires Shape(k)
    ensures WakeAll(k, pids).sems == k.sems
    decreases |pids|
  {
    if pids != [] {
      WakeAllSems(Wake(k, pids[0]), pids[1..]);
    }
  }

  lemma TickSems(k: Kernel)
    requires Shape(k)
    ensures Tick(k).sems == k.sems
  {
  }

  lemma PostCloseSems(k: Kernel, id: int)
    requires Shape(k)
    ensures SemPost(k, id).sems == Post(k.sems, id)
    ensures SemClose(k, id).sems == Close(k.sems, id)
  {
    WakeAllSems(k.(sems := Post(k.sems, id)), Woken(k.sems, id));
    WakeAllSems(k.(sems := Close(k.sems, id)), WokenByClose(k.sems, id));
  }

  lemma AnnounceSems(k: Kernel, pid: nat, named: bool)
    requires Shape(k)
    ensures Announce(k, pid, named).sems == AnnounceTable(k.sems, pid, named)
  {
    if named && pid != 0 {
      var id := OpenId(k.sems, WaitName(pid));
      var k1 := SemOpen(k, WaitName(pid), 0);
      PostCloseSems(k1, id);
      PostCloseSems(SemPost(k1, id), id);
    }
  }

  lemma SemsAfter(k: Kernel, c: Call)
    requires Shape(k) && (c.WaitCall? ==> k.current >= 0)
    ensures Do(k, c).sems == TableAfter(k, c)
  {
    hide Tick, Announce, AnnounceTable, SemPost, SemClose, Open, Close, Post, Wait, RemovePid;
    match c
    case KillCall(pid, named) =>
      if Kills(k, c) {
        AnnounceSems(k, pid, named);
      }
    case ExitCall(named) =>
      if k.current >= 0 {
        AnnounceSems(k, k.procs[k.current].pid, named);
      }
    case BlockCall(_) =>
      if k.current >= 0 {
        TickSems(Stopped(k));
      }
    case YieldCall => TickSems(k.(quantum := 0));
    case CloseCall(id) => PostCloseSems(k, id);
    case WaitCall(id) => WaitSems(k, id);
    case PostCall(id) => PostCloseSems(k, id);
    case TimerTick => TickSems(k);
    case _ =>
  }

  lemma WaitSems(k: Kernel, id: int)
    requires Shape(k) && k.current >= 0
    ensures SemWait(k, id).sems == Wait(k.sems, id, CurrentPid(k))
  {
    if ValidId(k.sems, id) && Blocks(k.sems[id]) {
      TickSems(Stopped(k.(sems := Wait(k.sems, id, CurrentPid(k)))));
    }
  }

  // ----- one semaphore of the table -----

  /** `id` is the only active semaphore called `name`. */
  predicate Only(t: Table, id: nat, name: string) {
    && id < |t| && t[id].active && t[id].name == name
    && forall j :: 0 <= j < |t| && j != id ==> !(t[j].active && t[j].name == name)
  }

  /** No active semaphore is called `name`. */
  predicate Absent(t: Table, name: string) {
    forall j :: 0 <= j < |t| ==> !(t[j].active && t[j].name == name)
  }

  /** `t'` holds the same semaphore `id`, which is still the only one of its name. */
  predicate Untouched(t: Table, t': Table, id: nat, name: string) {
    Only(t', id, name) && id < |t| && t'[id] == t[id]
  }

  lemma OpenOther(t: Table, other: string, value: nat, id: nat, name: string)
    requires other != name && |name| < MAX_SEM_NAME - 1
    ensures Only(t, id, name) ==> Untouched(t, Open(t, other, value), id, name) && OpenId(t, other) != id
    ensures Absent(t, name) ==> Absent(Open(t, other, value), name)
  {
    assert Stored(other) != name;
  }

  lemma CloseOther(t: Table, other: int, id: nat, name: string)
    requires Only(t, id, name) && other != id
    ensures Untouched(t, Close(t, other), id, name) && Untouched(t, Post(t, other), id, name)
  {
  }

  lemma CloseKeepsAbsent(t: Table, other: int, name: string)
    requires Absent(t, name)
    ensures Absent(Close(t, other), name) && Absent(Post(t, other), name)
  {
  }

  lemma WaitOther(t: Table, other: int, pid: int, id: nat, name: string)
    ensures Only(t, id, name) && other != id ==> Untouched(t, Wait(t, other, pid), id, name)
    ensures Absent(t, name) ==> Absent(Wait(t, other, pid), name)
  {
  }

  lemma {:induction false} WithoutAbsent(q: seq<int>, pid: int)
    requires pid !in q
    ensures Without(q, pid) == q
    decreases |q|
  {
    if q != [] {
      WithoutAbsent(q[1..], pid);
    }
  }

  lemma RemoveOther(t: Table, pid: int, id: nat, name: string)
    ensures Only(t, id, name) && pid !in t[id].blocked ==> Untouched(t, RemovePid(t, pid), id, name)
    ensures Absent(t, name) ==> Absent(RemovePid(t, pid), name)
  {
    if Only(t, id, name) && pid !in t[id].blocked {
      WithoutAbsent(t[id].blocked, pid);
    }
  }

  lemma AnnounceOther(t: Table, pid: nat, named: bool, id: nat, name: string)
    requires WaitName(pid) != name && |name| < MAX_SEM_NAME - 1
    ensures Only(t, id, name) ==> Untouched(t, AnnounceTable(t, pid, named), id, name)
    ensures Absent(t, name) ==> Absent(AnnounceTable(t, pid, named), name)
  {
    hide Open, Close, Post, OpenId;
    if named && pid != 0 {
      var o := OpenId(t, WaitName(pid));
      var t1 := Open(t, WaitName(pid), 0);
      OpenOther(t, WaitName(pid), 0, id, name);
      if Only(t, id, name) && o >= 0 {
        CloseOther(t1, o, id, name);
        CloseOther(Post(t1, o), o, id, name);
      }
      if Absent(t, name) && o >= 0 {
        CloseKeepsAbsent(t1, o, name);
        CloseKeepsAbsent(Post(t1, o), o, name);
      }
    }
  }

  lemma OpenExisting(t: Table, id: nat, name: string, value: nat)
    requires Only(t, id, name)
    ensures OpenId(t, name) == id
    ensures Open(t, name, value) == t[id := t[id].(users := Wrap16(t[id].users + 1))]
    ensures Only(Open(t, name, value), id, name)
  {
  }

  /** The end of the process: one post, and the users as before. */
  lemma AnnounceOwn(t: Table, pid: nat, id: nat)
    requires pid != 0 && Only(t, id, WaitName(pid)) && 0 < t[id].users < 0xFFFF
    ensures Only(AnnounceTable(t, pid, true), id, WaitName(pid))
    ensures AnnounceTable(t, pid, true)[id] == PostOn(t[id])
  {
    OpenExisting(t, id, WaitName(pid), 0);
  }

  /** When the semaphore has gone, the announcement creates and destroys one. */
  lemma AnnounceGone(t: Table, pid: nat, named: bool, name: string)
    requires pid != 0 && name == WaitName(pid) && |name| < MAX_SEM_NAME && Absent(t, name)
    ensures Absent(AnnounceTable(t, pid, named), name)
  {
  }

  // ----- the protocol -----

  /** Where the waiter stands inside `wait_child`. */
  datatype Phase = Outside | Opened | Waited | ClosedOnce | Returned

  /** `waiter` waits for `child`; `id` is the slot of the semaphore of that name, whenever there is one. */
  datatype Pair = Pair(child: nat, waiter: nat, id: nat)

  function Name(p: Pair): string {
    WaitName(p.child)
  }

  /** `child` has ended: every slot that still carries its pid is KILLED. */
  ghost predicate Ended(k: Kernel, child: nat)
    requires Shape(k)
  {
    forall t: nat :: t < MAX_PROCESSES && k.procs[t].pid == child ==> k.procs[t].state == Killed
  }

  predicate WaiterRuns(k: Kernel, p: Pair)
    requires Shape(k)
  {
    k.current >= 0 && k.procs[k.current].pid == p.waiter && k.procs[k.current].state == Running
  }

  /** The next statement of `wait_child`. */
  predicate WaiterStep(k: Kernel, c: Call, ph: Phase, ph': Phase, p: Pair)
    requires Shape(k)
  {
    WaiterRuns(k, p) &&
    match ph
    case Outside => c == OpenCall(Name(p), 0) && OpenId(k.sems, Name(p)) == p.id && ph' == Opened
    case Opened => c == WaitCall(p.id) && ph' == Waited
    case Waited => c == CloseCall(p.id) && ph' == ClosedOnce
    case ClosedOnce => c == CloseCall(p.id) && ph' == Returned
    case Returned => false
  }

  /** `id` is not the wait semaphore. */
  predicate Elsewhere(t: Table, id: int, p: Pair) {
    ValidId(t, id) ==> t[id].name != Name(p)
  }

  /** Any other call of any process: nobody else uses this wait semaphore, and the waiter is not killed. */
  predicate OtherStep(k: Kernel, c: Call, ph: Phase, p: Pair)
    requires Shape(k)
  {
    match c
    case CreateCall(_, _, _, _) => Bears(k, c, p) ==> OpenId(k.sems, Name(p)) == p.id
    case OpenCall(name, _) => name != Name(p)
    case CloseCall(id) => Elsewhere(k.sems, id, p)
    case WaitCall(id) => Elsewhere(k.sems, id, p) && (ph == Outside || ph == Returned || CurrentPid(k) != p.waiter)
    case PostCall(id) => Elsewhere(k.sems, id, p)
    case KillCall(pid, _) => pid != p.waiter
    case ExitCall(_) => CurrentPid(k) != p.waiter
    case _ => true
  }

  /** The call creates the child, and the semaphore with it. */
  predicate Bears(k: Kernel, c: Call, p: Pair)
    requires Shape(k)
  {
    Starts(k, c) && k.nextPid == p.child && OpenId(k.sems, Name(p)) >= 0
  }

  predicate ProtocolStep(k: Kernel, c: Call, ph: Phase, ph': Phase, p: Pair)
    requires Shape(k)
  {
    WaiterStep(k, c, ph, ph', p) || (OtherStep(k, c, ph, p) && ph' == ph)
  }

  /** `posts`: announcements since the semaphore exists; `kept`: the reference of the child's creation is there. */
  datatype Book = Book(posts: nat, kept: bool)

  /** References to the wait semaphore: the creation's and the waiter's. */
  function Users(ph: Phase, kept: bool): nat {
    (if kept then 1 else 0) + (if ph == Opened || ph == Waited then 1 else 0)
  }

  /** The ledger of the wait semaphore. */
  predicate LedgerTable(t: Table, ph: Phase, p: Pair, b: Book) {
    && (ph == Returned ==> !b.kept)
    && (ph == ClosedOnce || ph == Returned ==> b.posts > 0)
    && if Users(ph, b.kept) == 0 then Absent(t, Name(p)) && (ph == Outside ==> b.posts == 0)
       else
         && Only(t, p.id, Name(p))
         && var s := t[p.id];
            && s.users == Users(ph, b.kept)
            && (match ph
                case Waited =>
                  if b.posts == 0 then s.blocked == [p.waiter] && s.value == 0
                  else s.blocked == [] && s.value == b.posts - 1
                case ClosedOnce => s.blocked == [] && s.value == b.posts - 1
                case _ => s.blocked == [] && s.value == b.posts)
  }

  /** The child has been created and has ended. */
  ghost predicate HasEnded(k: Kernel, child: nat)
    requires Shape(k)
  {
    child < k.nextPid && Ended(k, child)
  }

  ghost predicate Ledger(k: Kernel, ph: Phase, p: Pair, b: Book)
    requires Shape(k)
  {
    && (b.posts > 0 ==> HasEnded(k, p.child))
    && (b.kept ==> p.child < k.nextPid)
    && LedgerTable(k.sems, ph, p, b)
  }

  /** Two pids; the child may be running, gone, or not yet created. */
  predicate PairOk(p: Pair) {
    p.child != 0 && p.waiter != 0 && p.child != p.waiter && p.child < PID_LIMIT
  }

  // ----- the end of the child -----

  lemma EndedStep(k: Kernel, idle: nat, c: Call, child: nat)
    requires Good(k, idle) && Allowed(k, idle, c) && child != 0 && child < k.nextPid
    ensures Ended(Do(k, c), child) <==> Ended(k, child) || Ends(k, c, child)
    ensures Do(k, c).nextPid >= k.nextPid
  {
    hide HeapOk, SemsOk, QueuesMatch, Do, Ends;
    var k' := Do(k, c);
    StepOwners(k, idle, c, 0);
    forall t: nat | t < MAX_PROCESSES && k'.procs[t].pid == child
      ensures k.procs[t].pid == child
      ensures k'.procs[t].state == Killed <==> k.procs[t].state == Killed || Ends(k, c, child)
    {
      StepOwners(k, idle, c, t);
      assert OwnerOf(k', t).pid == child;
    }
    if Ended(k', child) && !Ended(k, child) {
      var t: nat :| t < MAX_PROCESSES && k.procs[t].pid == child && k.procs[t].state != Killed;
      StepOwners(k, idle, c, t);
      if Reclaims(k, c, k', t) {
        KilledEnds(k, idle, c, t);
      }
    }
  }

  lemma KilledEnds(k: Kernel, idle: nat, c: Call, t: nat)
    requires Good(k, idle) && Allowed(k, idle, c) && t < MAX_PROCESSES && Reclaims(k, c, Do(k, c), t)
    requires k.procs[t].state != Killed
    ensures Ends(k, c, k.procs[t].pid)
  {
    hide HeapOk, SemsOk, QueuesMatch;
    assert t != k.toFree;
    FindUnique(k, t);
  }

  // ----- one step -----

  lemma SameLedger(t: Table, t': Table, ph: Phase, p: Pair, b: Book)
    requires LedgerTable(t, ph, p, b)
    requires if Users(ph, b.kept) == 0 then Absent(t', Name(p)) else Untouched(t, t', p.id, Name(p))
    ensures LedgerTable(t', ph, p, b)
  {
  }

  /** One more announcement; without a semaphore and before the wait it leaves no trace. */
  function Announced(b: Book, ph: Phase): Book {
    if ph == Outside && !b.kept then b else b.(posts := b.posts + 1)
  }

  lemma AnnounceLedger(t: Table, ph: Phase, p: Pair, b: Book)
    requires LedgerTable(t, ph, p, b) && p.child != 0 && p.child < PID_LIMIT && b.posts < 0xFFFF
    ensures LedgerTable(AnnounceTable(t, p.child, true), ph, p, Announced(b, ph))
  {
    hide AnnounceTable, WaitName;
    if Users(ph, b.kept) == 0 {
      WaitNameFits(p.child);
      AnnounceGone(t, p.child, true, Name(p));
    } else {
      AnnounceOwn(t, p.child, p.id);
    }
  }

  lemma RemoveLedger(t: Table, ph: Phase, p: Pair, b: Book, pid: int)
    requires LedgerTable(t, ph, p, b) && pid != p.waiter
    ensures LedgerTable(RemovePid(t, pid), ph, p, b)
  {
    hide RemovePid, WaitName;
    RemoveOther(t, pid, p.id, Name(p));
    SameLedger(t, RemovePid(t, pid), ph, p, b);
  }

  lemma AnnounceOtherLedger(t: Table, ph: Phase, p: Pair, b: Book, pid: nat, named: bool)
    requires LedgerTable(t, ph, p, b) && pid != p.child && p.child < PID_LIMIT
    ensures LedgerTable(AnnounceTable(t, pid, named), ph, p, b)
  {
    hide AnnounceTable;
    ShortName(p);
    WaitNamesDiffer(pid, p.child);
    AnnounceOther(t, pid, named, p.id, Name(p));
    SameLedger(t, AnnounceTable(t, pid, named), ph, p, b);
  }

  lemma ShortName(p: Pair)
    requires p.child < PID_LIMIT
    ensures |Name(p)| <= 25
  {
    PidDigits(p.child);
    DecimalLength(p.child, 20);
  }

  lemma OpenLedger(t: Table, ph: Phase, p: Pair, b: Book, name: string, value: nat)
    requires LedgerTable(t, ph, p, b) && name != Name(p) && p.child < PID_LIMIT
    ensures LedgerTable(Open(t, name, value), ph, p, b)
  {
    hide Open, WaitName;
    ShortName(p);
    OpenOther(t, name, value, p.id, Name(p));
    SameLedger(t, Open(t, name, value), ph, p, b);
  }

  /** The creation of the child takes a reference, if there is room for the semaphore. */
  lemma BirthLedger(t: Table, ph: Phase, p: Pair, b: Book)
    requires LedgerTable(t, ph, p, b) && !b.kept && b.posts == 0 && p.child < PID_LIMIT
    requires OpenId(t, Name(p)) >= 0 ==> OpenId(t, Name(p)) == p.id
    ensures LedgerTable(Open(t, Name(p), 0), ph, p, b.(kept := OpenId(t, Name(p)) >= 0))
  {
    hide WaitName;
    WaitNameFits(p.child);
    if Users(ph, b.kept) == 0 {
      OpenAbsent(t, Name(p));
    } else {
      OpenExisting(t, p.id, Name(p), 0);
    }
  }

  lemma OpenAbsent(t: Table, name: string)
    requires Absent(t, name) && |name| < MAX_SEM_NAME
    ensures var id := OpenId(t, name);
            if id < 0 then Open(t, name, 0) == t
            else Only(Open(t, name, 0), id, name) && Open(t, name, 0)[id] == Sem(true, name, 0, 1, [])
  {
    assert FindName(t, name) < 0;
  }

  lemma UseLedger(t: Table, ph: Phase, p: Pair, b: Book, id: int, pid: int)
    requires LedgerTable(t, ph, p, b) && Elsewhere(t, id, p)
    ensures LedgerTable(Close(t, id), ph, p, b)
    ensures LedgerTable(Post(t, id), ph, p, b)
    ensures LedgerTable(Wait(t, id, pid), ph, p, b)
  {
    assert Only(t, p.id, Name(p)) ==> id != p.id;
    hide Open, Close, Post, Wait, WaitName;
    if Users(ph, b.kept) == 0 {
      CloseKeepsAbsent(t, id, Name(p));
    } else {
      CloseOther(t, id, p.id, Name(p));
    }
    WaitOther(t, id, pid, p.id, Name(p));
    SameLedger(t, Close(t, id), ph, p, b);
    SameLedger(t, Post(t, id), ph, p, b);
    SameLedger(t, Wait(t, id, pid), ph, p, b);
  }

  /** Does the call end `child`, with memory for the name of its wait semaphore? */
  predicate Announces(k: Kernel, c: Call, child: nat)
    requires Shape(k)
  {
    Ends(k, c, child) && c.named
  }

  /** The books after a call. */
  function NextBook(k: Kernel, c: Call, ph: Phase, ph': Phase, p: Pair, b: Book): Book
    requires Shape(k)
  {
    if Announces(k, c, p.child) then Announced(b, ph)
    else if Bears(k, c, p) then b.(kept := true)
    else if ph != Returned && ph' == Returned then b.(kept := false)
    else b
  }

  lemma AnnounceUnnamed(t: Table, pid: nat)
    ensures AnnounceTable(t, pid, false) == t
  {
  }

  /** An end of some process, as far as this ledger is concerned. */
  lemma EndLedger(t: Table, ph: Phase, p: Pair, b: Book, pid: nat, named: bool)
    requires LedgerTable(t, ph, p, b) && p.child != 0 && p.child < PID_LIMIT && b.posts < 0xFFFF
    ensures LedgerTable(AnnounceTable(t, pid, named), ph, p, if pid == p.child && named then Announced(b, ph) else b)
  {
    hide AnnounceTable, LedgerTable;
    AnnounceUnnamed(t, p.child);
    if pid != p.child {
      AnnounceOtherLedger(t, ph, p, b, pid, named);
    } else if named {
      AnnounceLedger(t, ph, p, b);
    }
  }

  lemma OtherTable(k: Kernel, c: Call, ph: Phase, p: Pair, b: Book)
    requires Shape(k) && PairOk(p) && Ledger(k, ph, p, b) && OtherStep(k, c, ph, p) && b.posts < 0xFFFF
    ensures LedgerTable(TableAfter(k, c), ph, p, NextBook(k, c, ph, ph, p, b))
  {
    hide LedgerTable, AnnounceTable, WaitName, Open, Close, Post, Wait, RemovePid, Announced, Elsewhere, OpenId, Ended;
    match c
    case CreateCall(_, _, _, _) =>
      if Starts(k, c) && k.nextPid == p.child {
        BirthLedger(k.sems, ph, p, b);
      } else if Starts(k, c) {
        WaitNamesDiffer(k.nextPid, p.child);
        OpenLedger(k.sems, ph, p, b, WaitName(k.nextPid), 0);
      }
    case KillCall(pid, named) =>
      if Kills(k, c) {
        EndLedger(k.sems, ph, p, b, pid, named);
        RemoveLedger(AnnounceTable(k.sems, pid, named), ph, p, NextBook(k, c, ph, ph, p, b), pid);
      }
    case ExitCall(named) =>
      if k.current >= 0 {
        EndLedger(k.sems, ph, p, b, CurrentPid(k), named);
      }
    case OpenCall(name, value) => OpenLedger(k.sems, ph, p, b, name, value);
    case CloseCall(id) => UseLedger(k.sems, ph, p, b, id, 0);
    case WaitCall(id) => UseLedger(k.sems, ph, p, b, id, CurrentPid(k));
    case PostCall(id) => UseLedger(k.sems, ph, p, b, id, 0);
    case _ =>
  }

  lemma NotInQueue(t: Table, id: nat, pid: int)
    requires !Waiting(t, pid) && id < |t|
    ensures pid !in t[id].blocked
  {
  }

  /** The waiter opens the semaphore, or makes a new one. */
  lemma OpenedTable(t: Table, p: Pair, b: Book)
    requires LedgerTable(t, Outside, p, b) && p.child < PID_LIMIT && OpenId(t, Name(p)) == p.id
    ensures LedgerTable(Open(t, Name(p), 0), Opened, p, b)
  {
    hide WaitName;
    WaitNameFits(p.child);
    if b.kept {
      OpenExisting(t, p.id, Name(p), 0);
    } else {
      OpenAbsent(t, Name(p));
    }
  }

  /** The second close of the waiter hits the wait semaphore if the creation's reference is there, else another one. */
  lemma ClosedTable(t: Table, p: Pair, b: Book)
    requires LedgerTable(t, ClosedOnce, p, b)
    ensures LedgerTable(Close(t, p.id), Returned, p, b.(kept := false))
  {
    hide WaitName;
    if !b.kept {
      CloseKeepsAbsent(t, p.id, Name(p));
    }
  }

  lemma WaiterTable(k: Kernel, idle: nat, c: Call, ph: Phase, ph': Phase, p: Pair, b: Book)
    requires Good(k, idle) && PairOk(p) && LedgerTable(k.sems, ph, p, b) && WaiterStep(k, c, ph, ph', p)
    ensures LedgerTable(TableAfter(k, c), ph', p, NextBook(k, c, ph, ph', p, b))
  {
    hide HeapOk, SemsOk, QueuesMatch, SlotsOk, WaitName, AnnounceTable;
    match ph
    case Outside => OpenedTable(k.sems, p, b);
    case Waited =>
      CurrentNotWaiting(k, idle);
      NotInQueue(k.sems, p.id, p.waiter);
    case ClosedOnce => ClosedTable(k.sems, p, b);
    case _ =>
  }

  /** Every call of the protocol keeps the ledger. */
  lemma LedgerStep(k: Kernel, idle: nat, c: Call, ph: Phase, ph': Phase, p: Pair, b: Book)
    requires Good(k, idle) && Allowed(k, idle, c) && PairOk(p) && ProtocolStep(k, c, ph, ph', p)
    requires Ledger(k, ph, p, b) && b.posts < 0xFFFF
    ensures Ledger(Do(k, c), ph', p, NextBook(k, c, ph, ph', p, b))
  {
    hide QueuesMatch, SlotsOk, HeapOk, SemsOk, Settled, Do, LedgerTable, TableAfter, WaiterStep, OtherStep, Ended;
    BookStep(k, idle, c, ph, ph', p, b);
    SemsAfter(k, c);
    if WaiterStep(k, c, ph, ph', p) {
      WaiterTable(k, idle, c, ph, ph', p, b);
    } else {
      OtherTable(k, c, ph, p, b);
    }
  }

  /** What the books say of the child. */
  lemma BookStep(k: Kernel, idle: nat, c: Call, ph: Phase, ph': Phase, p: Pair, b: Book)
    requires Good(k, idle) && Allowed(k, idle, c) && PairOk(p)
    requires Ledger(k, ph, p, b)
    ensures var b' := NextBook(k, c, ph, ph', p, b);
            && (b'.posts > 0 ==> HasEnded(Do(k, c), p.child))
            && (b'.kept ==> p.child < Do(k, c).nextPid)
  {
    hide QueuesMatch, HeapOk, SemsOk, Do, LedgerTable, Ended;
    StepOwners(k, idle, c, 0);
    if Ends(k, c, p.child) {
      EndsIssued(k, idle, c, p.child);
    }
    if p.child < k.nextPid {
      EndedStep(k, idle, c, p.child);
    }
    if Bears(k, c, p) {
      assert Do(k, c).nextPid == k.nextPid + 1 by {
        CreateIssues(k, c);
      }
    }
  }

  lemma EndsIssued(k: Kernel, idle: nat, c: Call, pid: nat)
    requires Good(k, idle) && Ends(k, c, pid)
    ensures pid < k.nextPid
  {
    hide QueuesMatch, HeapOk, SemsOk;
  }

  lemma CreateIssues(k: Kernel, c: Call)
    requires Shape(k) && Starts(k, c)
    ensures Do(k, c).nextPid == k.nextPid + 1
  {
  }

  // ----- runs -----

  ghost predicate IsProtocolRun(states: seq<Kernel>, calls: seq<Call>, phases: seq<Phase>, idle: nat, p: Pair) {
    && IsRun(states, calls, idle)
    && |phases| == |states|
    && forall i :: 0 <= i < |calls| ==> ProtocolStep(states[i], calls[i], phases[i], phases[i + 1], p)
  }

  /** The books after the first `n` calls; at first nothing has been announced. */
  function Books(states: seq<Kernel>, calls: seq<Call>, phases: seq<Phase>, p: Pair, kept: bool, n: nat): Book
    requires n <= |calls| && |states| == |calls| + 1 == |phases| && forall i :: 0 <= i < |states| ==> Shape(states[i])
  {
    if n == 0 then Book(0, kept)
    else
      NextBook(states[n - 1], calls[n - 1], phases[n - 1], phases[n], p, Books(states, calls, phases, p, kept, n - 1))
  }

  lemma {:induction false} LedgerRun(states: seq<Kernel>, calls: seq<Call>, phases: seq<Phase>, idle: nat, p: Pair,
                                     kept: bool, n: nat)
    requires IsProtocolRun(states, calls, phases, idle, p) && Good(states[0], idle) && PairOk(p)
    requires phases[0] == Outside && Ledger(states[0], Outside, p, Book(0, kept))
    requires n < |states| && Books(states, calls, phases, p, kept, n).posts < 0xFFFF
    ensures Ledger(states[n], phases[n], p, Books(states, calls, phases, p, kept, n))
  {
    hide Inv, HeapOk, Settled, Do, Ledger, ProtocolStep, Ends, PairOk, Bears;
    if n > 0 {
      PostsGrow(states, calls, phases, p, kept, n);
      LedgerRun(states, calls, phases, idle, p, kept, n - 1);
      RunKeeps(states, calls, idle, n - 1);
      LedgerStep(states[n - 1], idle, calls[n - 1], phases[n - 1], phases[n], p,
                 Books(states, calls, phases, p, kept, n - 1));
    }
  }

  lemma PostsGrow(states: seq<Kernel>, calls: seq<Call>, phases: seq<Phase>, p: Pair, kept: bool, n: nat)
    requires 0 < n <= |calls| && |states| == |calls| + 1 == |phases|
    requires forall i :: 0 <= i < |states| ==> Shape(states[i])
    ensures Books(states, calls, phases, p, kept, n - 1).posts <= Books(states, calls, phases, p, kept, n).posts
  {
    hide Announces, Bears;
  }

  /** Every call of the first `n` that ends the child finds memory for the name of the wait semaphore. */
  ghost predicate AllNamed(states: seq<Kernel>, calls: seq<Call>, child: nat, n: nat)
    requires n <= |calls| <= |states| && forall i :: 0 <= i < |states| ==> Shape(states[i])
  {
    forall i :: 0 <= i < n && Ends(states[i], calls[i], child) ==> calls[i].named
  }

  /** For a child that runs at first, with its semaphore: its end is announced when there is memory for the name. */
  lemma {:induction false} EndIsAnnounced(states: seq<Kernel>, calls: seq<Call>, phases: seq<Phase>, idle: nat, p: Pair,
                                          n: nat)
    requires IsProtocolRun(states, calls, phases, idle, p) && Good(states[0], idle) && PairOk(p)
    requires phases[0] == Outside && Ledger(states[0], Outside, p, Book(0, true)) && !Ended(states[0], p.child)
    requires n < |states| && AllNamed(states, calls, p.child, n)
    ensures Ended(states[n], p.child) <==> Books(states, calls, phases, p, true, n).posts > 0
    ensures p.child < states[n].nextPid
    ensures phases[n] == Outside ==> Books(states, calls, phases, p, true, n).kept
  {
    hide Inv, HeapOk, Settled, Do, Ends, Ended, LedgerTable, OtherStep, Bears;
    if n > 0 {
      EndIsAnnounced(states, calls, phases, idle, p, n - 1);
      RunKeeps(states, calls, idle, n - 1);
      EndedStep(states[n - 1], idle, calls[n - 1], p.child);
      assert ProtocolStep(states[n - 1], calls[n - 1], phases[n - 1], phases[n], p);
    }
  }

  /**
   At every moment of every run, for a child that runs, has gone, or is yet to be created, and whichever of its end and
   the wait comes first:
   the waiter gets past `sem_wait` only after the child has ended;
   it is off the queue, and its wait, if still to come, does not block, exactly when an end of the child has been
   announced since the semaphore exists;
   its first close destroys the semaphore exactly when the creation's reference is not there;
   when `wait_child` has returned, the semaphore is gone.
  */
  lemma WaitChild(states: seq<Kernel>, calls: seq<Call>, phases: seq<Phase>, idle: nat, p: Pair, kept: bool, n: nat)
    requires IsProtocolRun(states, calls, phases, idle, p) && Good(states[0], idle) && PairOk(p)
    requires phases[0] == Outside && Ledger(states[0], Outside, p, Book(0, kept))
    requires n < |states| && Books(states, calls, phases, p, kept, n).posts < 0xFFFF
    ensures var k, b := states[n], Books(states, calls, phases, p, kept, n);
            && (phases[n] == ClosedOnce || phases[n] == Returned ==> HasEnded(k, p.child))
            && (phases[n] == Waited && WaiterRuns(k, p) ==> HasEnded(k, p.child))
            && (phases[n] == Opened || phases[n] == Waited ==> p.id < |k.sems|)
            && (phases[n] == Waited ==> (p.waiter !in k.sems[p.id].blocked <==> b.posts > 0))
            && (phases[n] == Opened ==> (!Blocks(k.sems[p.id]) <==> b.posts > 0))
            && (phases[n] == ClosedOnce ==> (Absent(k.sems, Name(p)) <==> !b.kept))
            && (phases[n] == Returned ==> Absent(k.sems, Name(p)))
            && (b.posts > 0 ==> HasEnded(k, p.child))
  {
    hide HeapOk, QueuesMatch, SlotsOk, WaitName, Do, Ends, Ended;
    LedgerRun(states, calls, phases, idle, p, kept, n);
    RunKeeps(states, calls, idle, n);
    if phases[n] == Waited && WaiterRuns(states[n], p) {
      CurrentNotWaiting(states[n], idle);
      NotInQueue(states[n].sems, p.id, p.waiter);
    }
  }

  // ----- a child that has gone -----

  lemma GoneEndsNot(k: Kernel, idle: nat, c: Call, pid: nat)
    requires Good(k, idle) && PidGone(k, pid) && pid != 0
    ensures !Ends(k, c, pid)
  {
    hide QueuesMatch, HeapOk, SemsOk;
  }

  lemma {:induction false} GoneBooks(states: seq<Kernel>, calls: seq<Call>, phases: seq<Phase>, idle: nat, p: Pair,
                                     n: nat)
    requires IsProtocolRun(states, calls, phases, idle, p) && Good(states[0], idle) && PairOk(p)
    requires PidGone(states[0], p.child) && n < |states|
    ensures PidGone(states[n], p.child) && Books(states, calls, phases, p, false, n) == Book(0, false)
  {
    hide Inv, HeapOk, Settled, Do, Ends, ProtocolStep, Announced;
    if n > 0 {
      GoneBooks(states, calls, phases, idle, p, n - 1);
      RunKeeps(states, calls, idle, n - 1);
      GoneStaysGone(states[n - 1], idle, calls[n - 1], p.child);
      GoneEndsNot(states[n - 1], idle, calls[n - 1], p.child);
    }
  }

  /**
   Waiting for a process that has gone, and whose semaphore is gone too (it has been waited for, or never had one), in
   every run of any length: `wait_child` never gets past its wait, and once it waits, the waiter stays in the queue.
  */
  lemma WaitForGoneNeverEnds(states: seq<Kernel>, calls: seq<Call>, phases: seq<Phase>, idle: nat, p: Pair, n: nat)
    requires IsProtocolRun(states, calls, phases, idle, p) && Good(states[0], idle) && PairOk(p)
    requires phases[0] == Outside && PidGone(states[0], p.child) && Absent(states[0].sems, Name(p)) && n < |states|
    ensures phases[n] != ClosedOnce && phases[n] != Returned
    ensures phases[n] == Waited ==>
              && p.id < |states[n].sems| && states[n].sems[p.id].blocked == [p.waiter]
              && var s := Find(states[n].procs, p.waiter); s >= 0 && states[n].procs[s].state == Blocked
  {
    hide HeapOk, QueuesMatch, SlotsOk, TableOk, Settled, Do, ProtocolStep, WaitName;
    GoneBooks(states, calls, phases, idle, p, n);
    LedgerRun(states, calls, phases, idle, p, false, n);
    RunKeeps(states, calls, idle, n);
    if phases[n] == Waited {
      assert p.waiter in states[n].sems[p.id].blocked;
      QueuedIsBlocked(states[n], p.id, p.waiter);
    }
  }

  /**
   Waiting for a process that is not there yet ends well if it is created and ends: the wait makes the semaphore, the
   creation finds it, the announcement lets the waiter through, and its two closes destroy the semaphore.
  */
  lemma WaitForLaterChild(t: Table, child: nat, waiter: nat)
    requires 0 < child < PID_LIMIT && Absent(t, WaitName(child)) && OpenId(t, WaitName(child)) >= 0
    ensures var name, id := WaitName(child), OpenId(t, WaitName(child));
            var waiting := Wait(Open(t, name, 0), id, waiter);
            var ended := AnnounceTable(Open(waiting, name, 0), child, true);
            && waiting[id].blocked == [waiter]
            && ended[id].blocked == []
            && Absent(Close(Close(ended, id), id), name)
  {
    hide WaitName;
    var name, id := WaitName(child), OpenId(t, WaitName(child));
    WaitNameFits(child);
    OpenAbsent(t, name);
    var waiting := Wait(Open(t, name, 0), id, waiter);
    OpenExisting(waiting, id, name, 0);
    AnnounceOwn(Open(waiting, name, 0), child, id);
  }

  /** Creating the child sets the ledger up, if its semaphore finds a slot and nobody has taken its name. */
  lemma CreateStartsLedger(k: Kernel, idle: nat, c: Call, waiter: nat)
    requires Good(k, idle) && Allowed(k, idle, c) && Starts(k, c)
    requires Absent(k.sems, WaitName(k.nextPid)) && FindFree(k.sems) >= 0
    requires k.nextPid < PID_LIMIT && 0 < waiter < k.nextPid
    ensures var p := Pair(k.nextPid, waiter, FindFree(k.sems));
            PairOk(p) && Ledger(Do(k, c), Outside, p, Book(0, true)) && !Ended(Do(k, c), p.child)
  {
    hide HeapOk, SemsOk, QueuesMatch;
    var p := Pair(k.nextPid, waiter, FindFree(k.sems));
    SemsAfter(k, c);
    WaitNameFits(p.child);
    var s := FreeSlotFrom(k.procs, 0);
    assert Do(k, c).procs[s].pid == p.child && Do(k, c).procs[s].state == Ready;
    assert FindName(k.sems, Name(p)) == -1;
  }

  lemma AnnounceWakes(k: Kernel, pid: nat, id: nat, waiter: nat, t: nat)
    requires Shape(k) && pid != 0 && Only(k.sems, id, WaitName(pid)) && 0 < k.sems[id].users <= 2
    requires k.sems[id].blocked == [waiter] && t < MAX_PROCESSES
    requires Find(k.procs, waiter) == t && k.procs[t].state == Blocked
    ensures Announce(k, pid, true).procs[t] == k.procs[t].(state := Ready)
  {
    hide WaitName;
    var name := WaitName(pid);
    OpenExisting(k.sems, id, name, 0);
    var k1 := SemOpen(k, name, 0);
    var k2 := k1.(sems := Post(k1.sems, id));
    assert Woken(k1.sems, id) == [waiter];
    assert WakeAll(k2, [waiter]) == Wake(k2, waiter);
    var k3 := SemPost(k1, id);
    PostCloseSems(k1, id);
    assert WokenByClose(k3.sems, id) == [];
  }

  lemma WaiterSlot(k: Kernel, idle: nat, pid: nat, id: nat, t: nat)
    requires Good(k, idle) && id < |k.sems| && pid in k.sems[id].blocked
    requires t < MAX_PROCESSES && k.procs[t].pid == pid
    ensures Find(k.procs, pid) == t && k.procs[t].state == Blocked && t != k.current
  {
    hide HeapOk, QueuesMatch, TableOk;
    assert BlockedPid(k, pid);
    var s: nat :| s < MAX_PROCESSES && k.procs[s].pid == pid && k.procs[s].state == Blocked && pid != 0;
    FindUnique(k, t);
    FindUnique(k, s);
  }

  lemma KillWakesWaiter(k: Kernel, idle: nat, c: Call, p: Pair, t: nat)
    requires Good(k, idle) && Allowed(k, idle, c) && c.KillCall? && Ends(k, c, p.child)
    requires t < MAX_PROCESSES && k.procs[t].pid == p.waiter != p.child && p.child != 0
    ensures Do(k, c).procs[t] == Announce(k, p.child, c.named).procs[t]
  {
    OnlySlot(k, c.pid, t);
    KillRetires(k, c.pid, c.named);
    hide Inv, HeapOk, Settled, WaitName, Announce, Find, Retire;
    var s := Find(k.procs, c.pid);
    if s != k.current {
      var k1 := Announce(k, c.pid, c.named);
      RetireLeavesOthers(k1.(sems := RemovePid(k1.sems, c.pid)), s, t);
    }
  }

  lemma RetireLeavesOthers(k: Kernel, s: nat, t: nat)
    requires Shape(k) && s < MAX_PROCESSES && t < MAX_PROCESSES && t != s
    ensures Retire(k, s).procs[t] == k.procs[t]
  {
  }

  /**
   If the child ends while the waiter is queued, that very call makes the waiter READY exactly when there is memory
   for the name of the semaphore; without it the waiter stays BLOCKED.
  */
  lemma EndWakesWaiter(k: Kernel, idle: nat, c: Call, p: Pair, kept: bool, t: nat)
    requires Good(k, idle) && Allowed(k, idle, c) && PairOk(p) && OtherStep(k, c, Waited, p)
    requires LedgerTable(k.sems, Waited, p, Book(0, kept)) && Ends(k, c, p.child)
    requires t < MAX_PROCESSES && k.procs[t].pid == p.waiter
    ensures k.procs[t].state == Blocked
    ensures Do(k, c).procs[t] == if c.named then k.procs[t].(state := Ready) else k.procs[t]
  {
    WaiterSlot(k, idle, p.waiter, p.id, t);
    AnnounceWakes(k, p.child, p.id, p.waiter, t);
    if c.KillCall? {
      KillWakesWaiter(k, idle, c, p, t);
    }
    hide Inv, HeapOk, Settled, WaitName, Announce, Find, Kill;
  }
}
