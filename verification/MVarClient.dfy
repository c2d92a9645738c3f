/** Userland/shell/commands/mvar_cmds.c: writers and readers that hand one value over with three semaphores. */
module MVarClient {
  import opened SemSpec
  import opened Counting

  /**
   A writer waits for `empty`, a reader for `full`; then both take `mutex`, touch the variable, give `mutex` back and
   post the other semaphore. `InLine` and `InLineForMutex` are inside `sem_wait`, blocked.
  */
  datatype Place = Top | InLine | Holding | InLineForMutex | Inside | Acted | Released

  /** `seen` is the local copy of a reader. */
  datatype Client = Client(writer: bool, value: char, place: Place, seen: char)

  /** `written` and `read` are the values in the order of the accesses. */
  datatype State = State(clients: seq<Client>, empty: Sem, full: Sem, mutex: Sem, cell: char,
                         written: seq<char>, read: seq<char>)

  function At(s: State, i: int, place: Place): (s': State)
    ensures |s'.clients| == |s.clients|
  {
    if 0 <= i < |s.clients| then s.(clients := s.clients[i := s.clients[i].(place := place)]) else s
  }

  /** The client that a post lets through goes on behind its `sem_wait`. */
  function Grant(s: State, woken: seq<int>, place: Place): (s': State)
    ensures |s'.clients| == |s.clients|
  {
    if woken != [] then At(s, woken[0], place) else s
  }

  /** One step of client `i`. */
  function Step(s: State, i: nat): (s': State)
    requires i < |s.clients|
    ensures |s'.clients| == |s.clients|
  {
    var c := s.clients[i];
    match c.place
    case Top =>
      if c.writer then At(s, i, if Blocks(s.empty) then InLine else Holding).(empty := WaitOn(s.empty, i))
      else At(s, i, if Blocks(s.full) then InLine else Holding).(full := WaitOn(s.full, i))
    case Holding => At(s, i, if Blocks(s.mutex) then InLineForMutex else Inside).(mutex := WaitOn(s.mutex, i))
    case Inside =>
      if c.writer then At(s, i, Acted).(cell := c.value, written := s.written + [c.value])
      else s.(clients := s.clients[i := c.(place := Acted, seen := s.cell)], read := s.read + [s.cell])
    case Acted => Grant(At(s, i, Released), WokenByPost(s.mutex), Inside).(mutex := PostOn(s.mutex))
    case Released =>
      if c.writer then Grant(At(s, i, Top), WokenByPost(s.full), Holding).(full := PostOn(s.full))
      else Grant(At(s, i, Top), WokenByPost(s.empty), Holding).(empty := PostOn(s.empty))
    case _ => s
  }

  function Run(s: State, schedule: seq<nat>): (s': State)
    requires forall k: nat :: k < |schedule| ==> schedule[k] < |s.clients|
    ensures |s'.clients| == |s.clients|
    decreases |schedule|
  {
    if schedule == [] then s else Run(Step(s, schedule[0]), schedule[1..])
  }

  /** `writers` carry the values of the writers. */
  function Start(writers: seq<char>, readers: nat): State {
    State(seq(|writers| + readers, i requires 0 <= i < |writers| + readers =>
            if i < |writers| then Client(true, writers[i], Top, ' ') else Client(false, ' ', Top, ' ')),
          Sem(true, "mvar_empty", 1, 1, []), Sem(true, "mvar_full", 0, 1, []), Sem(true, "mvar_mutex", 1, 1, []),
          '\0', [], [])
  }

  // ----- the token -----

  /** Past its first wait and before its last post. */
  predicate Carries(c: Client) {
    c.place != Top && c.place != InLine
  }

  /** The clients in line at a semaphore are those of one kind that are `InLine`, each once. */
  ghost predicate LineOk(s: State, q: seq<int>, writer: bool) {
    && (forall i: nat, j: nat :: i < j < |q| ==> q[i] != q[j])
    && (forall x :: x in q ==> 0 <= x < |s.clients| && s.clients[x].place == InLine && s.clients[x].writer == writer)
    && (forall i: nat :: i < |s.clients| && s.clients[i].place == InLine && s.clients[i].writer == writer ==> i in q)
  }

  /**
   One token: in `empty`, in `full`, or with client `h` (-1: with nobody).
   `unread` tells that a value has been written and not yet read.
  */
  ghost predicate Token(s: State, h: int, unread: bool) {
    && -1 <= h < |s.clients| <= MAX_BLOCKED
    && (forall i: nat :: i < |s.clients| ==> (Carries(s.clients[i]) <==> i == h))
    && (forall i: nat :: i < |s.clients| ==> s.clients[i].place != InLineForMutex)
    && s.empty.value == (if h < 0 && !unread then 1 else 0)
    && s.full.value == (if h < 0 && unread then 1 else 0)
    && s.mutex.value == (if h >= 0 && (s.clients[h].place == Inside || s.clients[h].place == Acted) then 0 else 1)
    && s.mutex.blocked == []
    && (s.empty.value > 0 ==> s.empty.blocked == []) && (s.full.value > 0 ==> s.full.blocked == [])
    && LineOk(s, s.empty.blocked, true) && LineOk(s, s.full.blocked, false)
    && (h >= 0 ==>
          (unread <==> (s.clients[h].writer <==> s.clients[h].place == Acted || s.clients[h].place == Released)))
  }

  /** What was read is what was written, but for a value still waiting in the cell. */
  ghost predicate HandedOver(s: State, unread: bool) {
    if unread then s.written == s.read + [s.cell] else s.written == s.read
  }

  ghost predicate Inv(s: State, h: int, unread: bool) {
    Token(s, h, unread) && HandedOver(s, unread)
  }

  lemma LineHasRoom(s: State, q: seq<int>, writer: bool, i: nat)
    requires LineOk(s, q, writer) && i < |s.clients| <= MAX_BLOCKED && s.clients[i].place != InLine
    ensures |q| < MAX_BLOCKED
  {
    DistinctFits(q, Below(|s.clients|) - {i});
  }

  // ----- one step -----

  /** Where the token goes, and whether a value is waiting, after a step of client `i`. */
  function NextHolder(s: State, h: int, i: nat): int
    requires i < |s.clients|
  {
    var c := s.clients[i];
    var first := if c.writer then s.empty else s.full;
    var last := if c.writer then s.full else s.empty;
    if c.place == Top && !Blocks(first) then i
    else if c.place == Released then (if last.blocked != [] then last.blocked[0] else -1)
    else h
  }

  function NextUnread(s: State, unread: bool, i: nat): bool
    requires i < |s.clients|
  {
    if s.clients[i].place == Inside then s.clients[i].writer else unread
  }

  lemma TopKeepsWriter(s: State, h: int, unread: bool, i: nat)
    requires Inv(s, h, unread) && i < |s.clients| && s.clients[i].place == Top && s.clients[i].writer
    ensures Inv(Step(s, i), NextHolder(s, h, i), NextUnread(s, unread, i))
  {
    LineHasRoom(s, s.empty.blocked, true, i);
  }

  lemma TopKeepsReader(s: State, h: int, unread: bool, i: nat)
    requires Inv(s, h, unread) && i < |s.clients| && s.clients[i].place == Top && !s.clients[i].writer
    ensures Inv(Step(s, i), NextHolder(s, h, i), NextUnread(s, unread, i))
  {
    LineHasRoom(s, s.full.blocked, false, i);
  }

  lemma ReleasedKeepsWriter(s: State, h: int, unread: bool, i: nat)
    requires Inv(s, h, unread) && i < |s.clients| && s.clients[i].place == Released && s.clients[i].writer
    ensures Inv(Step(s, i), NextHolder(s, h, i), NextUnread(s, unread, i))
  {
    var q := s.full.blocked;
    if q != [] {
      assert q[0] in q;
      assert forall x :: x in q[1..] ==> x in q && x != q[0];
    }
  }

  lemma ReleasedKeepsReader(s: State, h: int, unread: bool, i: nat)
    requires Inv(s, h, unread) && i < |s.clients| && s.clients[i].place == Released && !s.clients[i].writer
    ensures Inv(Step(s, i), NextHolder(s, h, i), NextUnread(s, unread, i))
  {
    var q := s.empty.blocked;
    if q != [] {
      assert q[0] in q;
      assert forall x :: x in q[1..] ==> x in q && x != q[0];
    }
  }

  lemma MiddleKeeps(s: State, h: int, unread: bool, i: nat)
    requires Inv(s, h, unread) && i < |s.clients| && s.clients[i].place != Top && s.clients[i].place != Released
    ensures Inv(Step(s, i), NextHolder(s, h, i), NextUnread(s, unread, i))
  {
  }

  lemma StepKeeps(s: State, h: int, unread: bool, i: nat)
    requires Inv(s, h, unread) && i < |s.clients|
    ensures Inv(Step(s, i), NextHolder(s, h, i), NextUnread(s, unread, i))
  {
    hide Inv;
    if s.clients[i].place == Top {
      if s.clients[i].writer {
        TopKeepsWriter(s, h, unread, i);
      } else {
        TopKeepsReader(s, h, unread, i);
      }
    } else if s.clients[i].place == Released {
      if s.clients[i].writer {
        ReleasedKeepsWriter(s, h, unread, i);
      } else {
        ReleasedKeepsReader(s, h, unread, i);
      }
    } else {
      MiddleKeeps(s, h, unread, i);
    }
  }

  lemma {:induction false} RunKeeps(s: State, h: int, unread: bool, schedule: seq<nat>) returns (h': int, unread': bool)
    requires Inv(s, h, unread) && forall k: nat :: k < |schedule| ==> schedule[k] < |s.clients|
    ensures Inv(Run(s, schedule), h', unread')
    decreases |schedule|
  {
    hide Inv;
    h', unread' := h, unread;
    if schedule != [] {
      StepKeeps(s, h, unread, schedule[0]);
      h', unread' := RunKeeps(Step(s, schedule[0]), NextHolder(s, h, schedule[0]), NextUnread(s, unread, schedule[0]),
                             schedule[1..]);
    }
  }

  // ----- the results -----

  /**
   For any writers and readers that fit the process table, and every interleaving: the values read are the values
   written, in order, none lost, doubled or overwritten; at most the last one is still to be read.
  */
  lemma HandOff(writers: seq<char>, readers: nat, schedule: seq<nat>)
    requires |writers| + readers <= MAX_BLOCKED && forall k: nat :: k < |schedule| ==> schedule[k] < |writers| + readers
    ensures var end := Run(Start(writers, readers), schedule);
            end.read <= end.written && |end.written| <= |end.read| + 1
  {
    var h, unread := RunKeeps(Start(writers, readers), -1, false, schedule);
  }

  predicate CanMove(s: State, i: nat)
    requires i < |s.clients|
  {
    s.clients[i].place != InLine && s.clients[i].place != InLineForMutex
  }

  /** With a writer and a reader around, somebody can always move. */
  lemma NoDeadlock(s: State, h: int, unread: bool, w: nat, r: nat)
    requires Inv(s, h, unread) && w < |s.clients| && s.clients[w].writer && r < |s.clients| && !s.clients[r].writer
    ensures exists i: nat :: i < |s.clients| && CanMove(s, i)
  {
    if h >= 0 {
      assert CanMove(s, h);
    } else if unread {
      assert CanMove(s, r);
    } else {
      assert CanMove(s, w);
    }
  }

  /** The kinds of the clients do not change, so the writer and the reader of `NoDeadlock` stay what they are. */
  lemma StepKeepsKinds(s: State, k: nat, i: nat)
    requires i < |s.clients| && k < |s.clients|
    ensures Step(s, k).clients[i].writer == s.clients[i].writer
  {
  }

  lemma {:induction false} RunKeepsKinds(s: State, schedule: seq<nat>, i: nat)
    requires i < |s.clients| && forall k: nat :: k < |schedule| ==> schedule[k] < |s.clients|
    ensures Run(s, schedule).clients[i].writer == s.clients[i].writer
    decreases |schedule|
  {
    hide Step;
    if schedule != [] {
      StepKeepsKinds(s, schedule[0], i);
      RunKeepsKinds(Step(s, schedule[0]), schedule[1..], i);
    }
  }

  /** From the start, in every reachable state, somebody can move. */
  lemma AlwaysMoves(writers: seq<char>, readers: nat, schedule: seq<nat>)
    requires writers != [] && readers > 0 && |writers| + readers <= MAX_BLOCKED
    requires forall k: nat :: k < |schedule| ==> schedule[k] < |writers| + readers
    ensures var end := Run(Start(writers, readers), schedule); exists i: nat :: i < |end.clients| && CanMove(end, i)
  {
    var s := Start(writers, readers);
    var h, unread := RunKeeps(s, -1, false, schedule);
    RunKeepsKinds(s, schedule, 0);
    RunKeepsKinds(s, schedule, |writers|);
    NoDeadlock(Run(s, schedule), h, unread, 0, |writers|);
  }
}
