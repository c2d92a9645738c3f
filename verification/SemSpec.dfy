/** The semaphore table of Kernel/sem/sem.c as values. */
module SemSpec {

  const MAX_SEMS: nat := 32
  const MAX_SEM_NAME: nat := 32
  const MAX_BLOCKED: nat := 64

  /** `value` and `users` are 16-bit counters. */
  function Wrap16(n: nat): nat {
    n % 0x1_0000
  }

  datatype Sem = Sem(active: bool, name: string, value: nat, users: nat, blocked: seq<int>)

  type Table = seq<Sem>

  // ----- one semaphore -----

  /** Does a wait by the current process block it? */
  predicate Blocks(s: Sem) {
    s.value == 0
  }

  function WaitOn(s: Sem, pid: int): Sem {
    if s.value > 0 then s.(value := s.value - 1)
    else if |s.blocked| < MAX_BLOCKED then s.(blocked := s.blocked + [pid])
    else s
  }

  function PostOn(s: Sem): Sem {
    if s.blocked != [] then s.(blocked := s.blocked[1..]) else s.(value := Wrap16(s.value + 1))
  }

  /** The processes a post wakes. */
  function WokenByPost(s: Sem): seq<int> {
    if s.blocked != [] then [s.blocked[0]] else []
  }

  function Without(q: seq<int>, pid: int): (r: seq<int>)
    ensures |r| <= |q|
    ensures forall x :: x in r <==> x in q && x != pid
    decreases |q|
  {
    if q == [] then []
    else if q[0] == pid then Without(q[1..], pid)
    else [q[0]] + Without(q[1..], pid)
  }

  // ----- the table -----

  /** What `sem_name_copy` keeps of a name. */
  function Stored(name: string): string {
    if |name| < MAX_SEM_NAME then name else name[..MAX_SEM_NAME - 1]
  }

  /** First active semaphore called `name`, or -1. */
  function FindName(t: Table, name: string): (r: int)
    ensures -1 <= r < |t|
    ensures r >= 0 ==> t[r].active && t[r].name == name
    ensures forall i :: 0 <= i < |t| && (r < 0 || i < r) ==> !(t[i].active && t[i].name == name)
  {
    FindNameFrom(t, name, 0)
  }

  function FindNameFrom(t: Table, name: string, i: nat): (r: int)
    requires i <= |t|
    ensures r == -1 || i <= r < |t|
    ensures r >= 0 ==> t[r].active && t[r].name == name
    ensures forall j :: i <= j < |t| && (r < 0 || j < r) ==> !(t[j].active && t[j].name == name)
    decreases |t| - i
  {
    if i == |t| then -1 else if t[i].active && t[i].name == name then i else FindNameFrom(t, name, i + 1)
  }

  /** First inactive slot, or -1. */
  function FindFree(t: Table): (r: int)
    ensures -1 <= r < |t|
    ensures r >= 0 ==> !t[r].active
    ensures forall i :: 0 <= i < |t| && (r < 0 || i < r) ==> t[i].active
  {
    FindFreeFrom(t, 0)
  }

  function FindFreeFrom(t: Table, i: nat): (r: int)
    requires i <= |t|
    ensures r == -1 || i <= r < |t|
    ensures r >= 0 ==> !t[r].active
    ensures forall j :: i <= j < |t| && (r < 0 || j < r) ==> t[j].active
    decreases |t| - i
  {
    if i == |t| then -1 else if !t[i].active then i else FindFreeFrom(t, i + 1)
  }

  predicate ValidId(t: Table, id: int) {
    0 <= id < |t| && t[id].active
  }

  /** Index `sem_open` returns. */
  function OpenId(t: Table, name: string): (id: int)
    ensures -1 <= id < |t|
  {
    var i := FindName(t, name);
    if i >= 0 then i else FindFree(t)
  }

  function Open(t: Table, name: string, value: nat): (t': Table)
    ensures |t'| == |t|
  {
    var i := FindName(t, name);
    if i >= 0 then t[i := t[i].(users := Wrap16(t[i].users + 1))]
    else
      var f := FindFree(t);
      if f >= 0 then t[f := Sem(true, Stored(name), value, 1, [])] else t
  }

  function UsersAfterClose(s: Sem): nat {
    if s.users > 0 then s.users - 1 else 0
  }

  function Close(t: Table, id: int): (t': Table)
    ensures |t'| == |t|
  {
    if !ValidId(t, id) then t
    else if UsersAfterClose(t[id]) == 0 then
      t[id := t[id].(active := false, users := 0, blocked := [], name := "")]
    else t[id := t[id].(users := UsersAfterClose(t[id]))]
  }

  /** The processes a close wakes: everyone, if the semaphore is destroyed. */
  function WokenByClose(t: Table, id: int): seq<int> {
    if ValidId(t, id) && UsersAfterClose(t[id]) == 0 then t[id].blocked else []
  }

  function Post(t: Table, id: int): (t': Table)
    ensures |t'| == |t|
  {
    if ValidId(t, id) then t[id := PostOn(t[id])] else t
  }

  function Woken(t: Table, id: int): seq<int> {
    if ValidId(t, id) then WokenByPost(t[id]) else []
  }

  function Wait(t: Table, id: int, pid: int): (t': Table)
    ensures |t'| == |t|
  {
    if ValidId(t, id) then t[id := WaitOn(t[id], pid)] else t
  }

  function RemovePid(t: Table, pid: int): (t': Table)
    ensures |t'| == |t|
    ensures forall i :: 0 <= i < |t| ==>
              t'[i] == if t[i].active then t[i].(blocked := Without(t[i].blocked, pid)) else t[i]
  {
    seq(|t|, i requires 0 <= i < |t| =>
      if t[i].active then t[i].(blocked := Without(t[i].blocked, pid)) else t[i])
  }

  /** Names are kept up to 31 characters. */
  lemma StoredIs(name: string)
    ensures Stored(name) == if |name| <= 31 then name else name[..31]
  {
  }

  /**
   An open counts one user more of the first active semaphore of that name and leaves its value and queue alone; if
   there is none, the first inactive slot becomes a semaphore with that value, one user and nobody waiting; if there is
   no slot either, nothing happens.
  */
  lemma OpenIs(t: Table, name: string, value: nat)
    ensures var t', id, i, f := Open(t, name, value), OpenId(t, name), FindName(t, name), FindFree(t);
            if i >= 0 then
              && id == i && t' == t[i := t'[i]] && t'[i] == t[i].(users := t'[i].users)
              && (t[i].users < 0xffff ==> t'[i].users == t[i].users + 1)
              && (t[i].users == 0xffff ==> t'[i].users == 0)
            else if f >= 0 then id == f && t' == t[f := Sem(true, Stored(name), value, 1, [])]
            else id == -1 && t' == t
  {
  }

  /**
   A close counts one user less; with at most one user left the semaphore is destroyed and everybody who waits on it
   is woken, in order. No other semaphore is touched.
  */
  lemma CloseIs(t: Table, id: nat)
    requires ValidId(t, id)
    ensures var t' := Close(t, id);
            && t' == t[id := t'[id]]
            && t'[id].active == (t[id].users >= 2)
            && (t[id].users >= 2 ==> t'[id] == t[id].(users := t[id].users - 1) && WokenByClose(t, id) == [])
            && (t[id].users <= 1 ==> t'[id].blocked == [] && t'[id].name == "" && WokenByClose(t, id) == t[id].blocked)
  {
  }

  /** No semaphore answers to an id that is out of range or inactive. */
  lemma NoSuchId(t: Table, id: int, pid: int)
    requires id < 0 || id >= |t| || !t[id].active
    ensures Close(t, id) == Post(t, id) == Wait(t, id, pid) == t
    ensures WokenByClose(t, id) == Woken(t, id) == []
  {
  }

  // ----- conservation and order of one semaphore, over every run -----

  datatype Event = WaitBy(pid: int) | Posted | Dropped(pid: int)

  /**
   A semaphore with its history: every wait takes the next ticket, and `takers` tells who took it; `queue` lists the
   tickets of those who wait, `granted` the tickets let through.
  */
  datatype History = History(sem: Sem, queue: seq<nat>, takers: seq<int>, granted: seq<nat>, posts: nat)

  /** The tickets are those of the processes in `q`, place by place. */
  predicate Held(takers: seq<int>, tickets: seq<nat>, q: seq<int>) {
    |tickets| == |q| && forall j :: 0 <= j < |q| ==> tickets[j] < |takers| && takers[tickets[j]] == q[j]
  }

  function KeepTickets(q: seq<int>, tickets: seq<nat>, pid: int): (r: seq<nat>)
    requires |q| == |tickets|
    ensures |r| == |Without(q, pid)|
    ensures forall x :: x in r ==> x in tickets
    decreases |q|
  {
    if q == [] then []
    else if q[0] == pid then KeepTickets(q[1..], tickets[1..], pid)
    else [tickets[0]] + KeepTickets(q[1..], tickets[1..], pid)
  }

  function HistoryStep(h: History, e: Event): (h': History)
    requires |h.queue| == |h.sem.blocked|
    ensures |h'.queue| == |h'.sem.blocked|
  {
    match e
    case WaitBy(pid) =>
      var s := WaitOn(h.sem, pid);
      var ticket, takers := |h.takers|, h.takers + [pid];
      if !Blocks(h.sem) then h.(sem := s, takers := takers, granted := h.granted + [ticket])
      else if s != h.sem then h.(sem := s, takers := takers, queue := h.queue + [ticket])
      else h.(takers := takers)
    case Posted =>
      if h.sem.blocked != [] then
        h.(sem := PostOn(h.sem), queue := h.queue[1..], granted := h.granted + [h.queue[0]], posts := h.posts + 1)
      else h.(sem := PostOn(h.sem), posts := h.posts + 1)
    case Dropped(pid) =>
      h.(sem := h.sem.(blocked := Without(h.sem.blocked, pid)), queue := KeepTickets(h.sem.blocked, h.queue, pid))
  }

  function HistoryRun(h: History, events: seq<Event>): (h': History)
    requires |h.queue| == |h.sem.blocked|
    ensures |h'.queue| == |h'.sem.blocked|
    decreases |events|
  {
    if events == [] then h else HistoryRun(HistoryStep(h, events[0]), events[1..])
  }

  predicate Increasing(s: seq<nat>) {
    forall i, j :: 0 <= i < j < |s| ==> s[i] < s[j]
  }

  /** Tickets are let through, and wait, in the order in which they were taken. */
  ghost predicate TicketsInOrder(h: History) {
    && Increasing(h.granted)
    && Increasing(h.queue)
    && (forall g, q :: g in h.granted && q in h.queue ==> g < q)
    && (forall x :: x in h.granted || x in h.queue ==> x < |h.takers|)
  }

  /** No unit is lost or made up. */
  predicate UnitsAddUp(h: History, initial: nat) {
    && (h.sem.blocked != [] ==> h.sem.value == 0)
    && h.sem.value < 0x1_0000
    && Wrap16(initial + h.posts) == Wrap16(h.sem.value + |h.granted|)
    && (initial + h.posts < 0x1_0000 ==> initial + h.posts == h.sem.value + |h.granted|)
  }

  ghost predicate InOrder(h: History, initial: nat) {
    Held(h.takers, h.queue, h.sem.blocked) && TicketsInOrder(h) && UnitsAddUp(h, initial)
  }

  lemma IncreasingSnoc(s: seq<nat>, x: nat)
    requires Increasing(s) && forall y :: y in s ==> y < x
    ensures Increasing(s + [x])
  {
    assert forall i :: 0 <= i < |s| ==> s[i] in s;
  }

  lemma IncreasingCons(x: nat, s: seq<nat>)
    requires Increasing(s) && forall y :: y in s ==> x < y
    ensures Increasing([x] + s)
  {
    assert forall i :: 0 <= i < |s| ==> s[i] in s;
  }

  lemma {:induction false} KeepTicketsOrder(q: seq<int>, tickets: seq<nat>, pid: int)
    requires |q| == |tickets| && Increasing(tickets)
    ensures Increasing(KeepTickets(q, tickets, pid))
    decreases |q|
  {
    if q != [] {
      KeepTicketsOrder(q[1..], tickets[1..], pid);
      if q[0] != pid {
        assert forall x :: x in tickets[1..] ==> tickets[0] < x;
        IncreasingCons(tickets[0], KeepTickets(q[1..], tickets[1..], pid));
      }
    }
  }

  lemma {:induction false} KeepTicketsHeld(q: seq<int>, tickets: seq<nat>, pid: int, takers: seq<int>)
    requires Held(takers, tickets, q)
    ensures Held(takers, KeepTickets(q, tickets, pid), Without(q, pid))
    decreases |q|
  {
    if q != [] {
      assert Held(takers, tickets[1..], q[1..]) by {
        assert forall j :: 0 <= j < |q| - 1 ==> tickets[1..][j] == tickets[j + 1] && q[1..][j] == q[j + 1];
      }
      KeepTicketsHeld(q[1..], tickets[1..], pid, takers);
    }
  }

  /** Whoever holds a ticket in the queue is the process that took it. */
  lemma StepKeepsHolders(h: History, e: Event)
    requires Held(h.takers, h.queue, h.sem.blocked)
    ensures var h' := HistoryStep(h, e); Held(h'.takers, h'.queue, h'.sem.blocked)
  {
    match e
    case WaitBy(pid) =>
    case Posted =>
    case Dropped(pid) => KeepTicketsHeld(h.sem.blocked, h.queue, pid, h.takers);
  }

  lemma WrapSuccessor(total: nat, value: nat, grants: nat)
    requires Wrap16(total) == Wrap16(value + grants) && value < 0x1_0000
    ensures Wrap16(total + 1) == Wrap16(value + grants + 1) == Wrap16(Wrap16(value + 1) + grants)
    ensures Wrap16(value + 1) < 0x1_0000
    ensures value + 1 < 0x1_0000 ==> Wrap16(value + 1) == value + 1
  {
  }

  lemma PostKeepsTickets(h: History)
    requires |h.queue| == |h.sem.blocked| && TicketsInOrder(h)
    ensures TicketsInOrder(HistoryStep(h, Posted))
  {
    if h.sem.blocked != [] {
      assert h.queue[0] in h.queue;
      IncreasingSnoc(h.granted, h.queue[0]);
      assert forall x :: x in h.queue[1..] ==> h.queue[0] < x;
    }
  }

  lemma StepKeepsTickets(h: History, e: Event)
    requires |h.queue| == |h.sem.blocked| && TicketsInOrder(h) && (h.sem.blocked != [] ==> h.sem.value == 0)
    ensures TicketsInOrder(HistoryStep(h, e))
  {
    match e
    case WaitBy(pid) =>
      if !Blocks(h.sem) {
        IncreasingSnoc(h.granted, |h.takers|);
      } else {
        IncreasingSnoc(h.queue, |h.takers|);
      }
    case Posted =>
      PostKeepsTickets(h);
    case Dropped(pid) =>
      KeepTicketsOrder(h.sem.blocked, h.queue, pid);
  }

  lemma StepKeepsUnits(h: History, e: Event, initial: nat)
    requires |h.queue| == |h.sem.blocked| && UnitsAddUp(h, initial)
    ensures UnitsAddUp(HistoryStep(h, e), initial)
  {
    hide Wrap16;
    WrapSuccessor(initial + h.posts, h.sem.value, |h.granted|);
  }

  lemma StepKeepsOrder(h: History, e: Event, initial: nat)
    requires InOrder(h, initial)
    ensures InOrder(HistoryStep(h, e), initial)
  {
    StepKeepsHolders(h, e);
    StepKeepsTickets(h, e);
    StepKeepsUnits(h, e, initial);
    hide Wrap16, HistoryStep, TicketsInOrder;
  }

  /**
   From a fresh semaphore, for every sequence of waits, posts and removals of killed waiters: nobody waits while the
   value is positive, the queue holds, in the order of their tickets, the processes that took them, tickets are let
   through in that order, and initial value + posts = value + grants (modulo 2^16, and exactly as long as the counter
   cannot wrap).
  */
  lemma {:induction false} SemaphoreRun(h: History, events: seq<Event>, initial: nat)
    requires InOrder(h, initial)
    ensures InOrder(HistoryRun(h, events), initial)
    ensures HistoryRun(h, events).posts >= h.posts
    ensures var end := HistoryRun(h, events);
            initial + end.posts < 0x1_0000 ==> initial + end.posts == end.sem.value + |end.granted|
    decreases |events|
  {
    if events != [] {
      StepKeepsOrder(h, events[0], initial);
      SemaphoreRun(HistoryStep(h, events[0]), events[1..], initial);
    }
  }

  /** A semaphore nobody has used yet. */
  function NoHistory(s: Sem): (h: History)
    requires s.blocked == []
    ensures |h.queue| == |h.sem.blocked|
  {
    History(s, [], [], [], 0)
  }

  /** The semaphore that an open has just made. */
  lemma FreshIsInOrder(t: Table, name: string, value: nat)
    requires FindName(t, name) < 0 && FindFree(t) >= 0 && value < 0x1_0000
    ensures var s := Open(t, name, value)[OpenId(t, name)];
            s.active && s.blocked == [] && InOrder(NoHistory(s), value)
  {
  }

  lemma {:induction false} HistoryConcat(h: History, a: seq<Event>, b: seq<Event>)
    requires |h.queue| == |h.sem.blocked|
    ensures HistoryRun(h, a + b) == HistoryRun(HistoryRun(h, a), b)
    decreases |a|
  {
    if a == [] {
      assert a + b == b;
    } else {
      HistoryConcat(HistoryStep(h, a[0]), a[1..], b);
      assert (a + b)[1..] == a[1..] + b;
    }
  }
}
