/** Userland/shell/commands/test_sync.c: workers that count up and down under one semaphore. */
module MutexClient {
  import opened SemSpec
  import opened Counting

  /** The place of a worker in its loop; `Queued` is inside `sem_wait`, blocked. */
  datatype Place = Top | Queued | Reading | Writing | Posting | Finished

  datatype Worker = Worker(inc: bool, left: nat, place: Place, aux: int)

  /** `g` is the shared counter, `sem` its semaphore (waiters by worker number), used if `guarded`. */
  datatype State = State(workers: seq<Worker>, g: int, sem: Sem, guarded: bool)

  /** The counter is a 64-bit word. */
  function Wrap64(x: int): int {
    x % 0x1_0000_0000_0000_0000
  }

  function Delta(w: Worker): int {
    if w.inc then 1 else -1
  }

  function At(s: State, i: nat, place: Place): (s': State)
    requires i < |s.workers|
    ensures |s'.workers| == |s.workers|
  {
    s.(workers := s.workers[i := s.workers[i].(place := place)])
  }

  /** The worker that a post lets through goes on behind its `sem_wait`. */
  function Grant(s: State, woken: seq<int>): (s': State)
    ensures |s'.workers| == |s.workers|
  {
    if woken != [] && 0 <= woken[0] < |s.workers| then At(s, woken[0], Reading) else s
  }

  /** One step of worker `i`; between reading and writing back it may be switched away from. */
  function Step(s: State, i: nat): (s': State)
    requires i < |s.workers|
    ensures |s'.workers| == |s.workers|
  {
    var w := s.workers[i];
    match w.place
    case Top =>
      if w.left == 0 then At(s, i, Finished)
      else if !s.guarded then At(s, i, Reading)
      else At(s, i, if Blocks(s.sem) then Queued else Reading).(sem := WaitOn(s.sem, i))
    case Queued => s
    case Reading => s.(workers := s.workers[i := w.(place := Writing, aux := s.g)])
    case Writing => At(s, i, Posting).(g := Wrap64(w.aux + Delta(w)))
    case Posting =>
      var s' := s.(workers := s.workers[i := w.(place := Top, left := w.left - (if w.left > 0 then 1 else 0))]);
      if s.guarded then Grant(s', WokenByPost(s.sem)).(sem := PostOn(s.sem)) else s'
    case Finished => s
  }

  function Run(s: State, schedule: seq<nat>): State
    requires forall k: nat :: k < |schedule| ==> schedule[k] < |s.workers|
    decreases |schedule|
  {
    if schedule == [] then s else Run(Step(s, schedule[0]), schedule[1..])
  }

  /** The workers that were created: `decs` that count down, then `incs` that count up, `n` rounds each. */
  function Start(n: nat, decs: nat, incs: nat, guarded: bool): State {
    State(seq(decs + incs, i => Worker(i >= decs, n, Top, 0)), 0, Sem(true, "tsync_sem", 1, 1, []), guarded)
  }

  /** What `n` rounds of every worker amount to. */
  function Net(n: nat, decs: nat, incs: nat): int {
    n * (incs - decs)
  }

  // ----- what has been counted -----

  predicate Inside(w: Worker) {
    w.place == Reading || w.place == Writing || w.place == Posting
  }

  /** Rounds whose write is done. */
  function Rounds(w: Worker, n: nat): int {
    n - w.left + if w.place == Posting then 1 else 0
  }

  function Share(w: Worker, n: nat): int {
    if w.inc then Rounds(w, n) else -Rounds(w, n)
  }

  function Total(ws: seq<Worker>, n: nat): int
    decreases |ws|
  {
    if ws == [] then 0 else Total(ws[..|ws| - 1], n) + Share(ws[|ws| - 1], n)
  }

  lemma {:induction false} TotalUpdate(ws: seq<Worker>, n: nat, i: nat, w: Worker)
    requires i < |ws|
    ensures Total(ws[i := w], n) == Total(ws, n) - Share(ws[i], n) + Share(w, n)
    decreases |ws|
  {
    var last := |ws| - 1;
    if i == last {
      assert ws[i := w][..last] == ws[..last];
    } else {
      assert ws[i := w][..last] == ws[..last][i := w];
      TotalUpdate(ws[..last], n, i, w);
    }
  }

  // ----- the invariant -----

  /** Worker `h` alone is between its wait and its post; -1: nobody is, and the semaphore is free. */
  ghost predicate Exclusive(s: State, h: int) {
    && -1 <= h < |s.workers| <= MAX_BLOCKED
    && (forall i: nat :: i < |s.workers| ==> (Inside(s.workers[i]) <==> i == h))
    && s.sem.value == (if h < 0 then 1 else 0)
    && (s.sem.value > 0 ==> s.sem.blocked == [])
    && (forall i: nat, j: nat :: i < j < |s.sem.blocked| ==> s.sem.blocked[i] != s.sem.blocked[j])
    && (forall x :: x in s.sem.blocked ==> 0 <= x < |s.workers| && s.workers[x].place == Queued)
    && (forall i: nat :: i < |s.workers| && s.workers[i].place == Queued ==> i in s.sem.blocked)
  }

  /** The counter holds exactly the rounds written; the one inside has an up-to-date copy, and a round to go. */
  ghost predicate Counted(s: State, n: nat) {
    && s.g == Wrap64(Total(s.workers, n))
    && forall i: nat :: i < |s.workers| ==>
         && s.workers[i].left <= n
         && (s.workers[i].place == Writing ==> s.workers[i].aux == s.g)
         && (Inside(s.workers[i]) || s.workers[i].place == Queued ==> s.workers[i].left > 0)
         && (s.workers[i].place == Finished ==> s.workers[i].left == 0)
  }

  ghost predicate Inv(s: State, n: nat, h: int) {
    s.guarded && Exclusive(s, h) && Counted(s, n)
  }

  lemma WrapAdd(total: int, d: int)
    ensures Wrap64(Wrap64(total) + d) == Wrap64(total + d)
  {
  }

  /** The queue has room for worker `i`, which is not in it. */
  lemma QueueHasRoom(s: State, h: int, i: nat)
    requires Exclusive(s, h) && i < |s.workers| && s.workers[i].place != Queued
    ensures |s.sem.blocked| < MAX_BLOCKED
  {
    DistinctFits(s.sem.blocked, Below(|s.workers|) - {i});
  }

  /** Who is inside after a step of worker `i`. */
  function Next(s: State, h: int, i: nat): int
    requires i < |s.workers|
  {
    var w := s.workers[i];
    if w.place == Top && w.left > 0 && !Blocks(s.sem) then i
    else if w.place == Posting then (if s.sem.blocked != [] then s.sem.blocked[0] else -1)
    else h
  }

  lemma StepKeepsExclusive(s: State, n: nat, h: int, i: nat)
    requires Inv(s, n, h) && i < |s.workers|
    ensures Exclusive(Step(s, i), Next(s, h, i))
  {
    hide Wrap64, Total;
    QueueOrNot(s, h, i);
    if s.workers[i].place == Posting && s.sem.blocked != [] {
      assert s.sem.blocked[0] in s.sem.blocked;
      assert forall x :: x in s.sem.blocked[1..] ==> x in s.sem.blocked && x != s.sem.blocked[0];
    }
  }

  lemma QueueOrNot(s: State, h: int, i: nat)
    requires Exclusive(s, h) && i < |s.workers|
    ensures s.workers[i].place != Queued ==> |s.sem.blocked| < MAX_BLOCKED
  {
    if s.workers[i].place != Queued {
      QueueHasRoom(s, h, i);
    }
  }

  lemma StepKeepsCount(s: State, n: nat, h: int, i: nat)
    requires Inv(s, n, h) && i < |s.workers|
    ensures Counted(Step(s, i), n)
  {
    hide Wrap64, Total;
    var w := s.workers[i];
    var s' := Step(s, i);
    if w.place == Posting {
      var ws := s.workers[i := w.(place := Top, left := w.left - 1)];
      TotalUpdate(s.workers, n, i, ws[i]);
      if s.sem.blocked != [] {
        assert s.sem.blocked[0] in s.sem.blocked;
        var j: nat := s.sem.blocked[0];
        TotalUpdate(ws, n, j, ws[j].(place := Reading));
      }
    } else {
      TotalUpdate(s.workers, n, i, s'.workers[i]);
      WrapAdd(Total(s.workers, n), Delta(w));
    }
  }

  lemma {:induction false} RunKeeps(s: State, n: nat, h: int, schedule: seq<nat>) returns (h': int)
    requires Inv(s, n, h) && forall k: nat :: k < |schedule| ==> schedule[k] < |s.workers|
    ensures Inv(Run(s, schedule), n, h') && |Run(s, schedule).workers| == |s.workers|
    ensures forall i: nat :: i < |s.workers| ==> Run(s, schedule).workers[i].inc == s.workers[i].inc
    decreases |schedule|
  {
    hide Exclusive, Counted;
    h' := h;
    if schedule != [] {
      StepKeepsExclusive(s, n, h, schedule[0]);
      StepKeepsCount(s, n, h, schedule[0]);
      SameKinds(s, h, schedule[0]);
      h' := RunKeeps(Step(s, schedule[0]), n, Next(s, h, schedule[0]), schedule[1..]);
    }
  }

  lemma SameKinds(s: State, h: int, i: nat)
    requires i < |s.workers|
    ensures Step(s, i).guarded == s.guarded
    ensures |Step(s, i).workers| == |s.workers|
    ensures forall j: nat :: j < |s.workers| ==> Step(s, i).workers[j].inc == s.workers[j].inc
  {
  }

  // ----- the results -----

  lemma {:induction false} NothingYet(ws: seq<Worker>, n: nat)
    requires forall i: nat :: i < |ws| ==> ws[i].left == n && ws[i].place == Top
    ensures Total(ws, n) == 0
    decreases |ws|
  {
    if ws != [] {
      NothingYet(ws[..|ws| - 1], n);
    }
  }

  lemma StartIsInv(n: nat, decs: nat, incs: nat)
    requires decs + incs <= MAX_BLOCKED
    ensures Inv(Start(n, decs, incs, true), n, -1)
  {
    NothingYet(Start(n, decs, incs, true).workers, n);
  }

  /** What the first `k` workers amount to when they have finished. */
  function SignedRounds(k: nat, decs: nat, n: nat): int {
    if k <= decs then -(k * n) else (k - 2 * decs) * n
  }

  lemma {:induction false} AllDone(ws: seq<Worker>, n: nat, decs: nat, k: nat)
    requires k <= |ws|
    requires forall i: nat :: i < |ws| ==> ws[i].place == Finished && ws[i].left == 0 && (ws[i].inc <==> i >= decs)
    ensures Total(ws[..k], n) == SignedRounds(k, decs, n)
    decreases k
  {
    if k > 0 {
      AllDone(ws, n, decs, k - 1);
      assert ws[..k][..k - 1] == ws[..k - 1];
      StepOfRounds(k, decs, n);
    }
  }

  lemma StepOfRounds(k: nat, decs: nat, n: nat)
    requires k > 0
    ensures SignedRounds(k, decs, n) ==
            SignedRounds(k - 1, decs, n) + (if k - 1 >= decs then n as int else -(n as int))
  {
    if k <= decs {
      assert k * n == (k - 1) * n + n;
    } else {
      assert (k - 2 * decs) * n == (k - 1 - 2 * decs) * n + n;
      assert k - 1 == decs ==> (k - 1 - 2 * decs) * n == -((k - 1) * n);
    }
  }

  /** When all have finished, their rounds amount to the difference of the two kinds. */
  lemma FinishedTotal(ws: seq<Worker>, n: nat, decs: nat, incs: nat)
    requires |ws| == decs + incs
    requires forall i: nat :: i < |ws| ==> ws[i].place == Finished && ws[i].left == 0 && (ws[i].inc <==> i >= decs)
    ensures Total(ws, n) == Net(n, decs, incs)
  {
    AllDone(ws, n, decs, |ws|);
    assert ws[..|ws|] == ws;
    if incs == 0 {
      assert decs * n == n * decs;
    } else {
      assert (decs + incs - 2 * decs) * n == n * (incs - decs);
    }
  }

  /** A schedule of `workers` workers. */
  ghost predicate Schedules(schedule: seq<nat>, workers: nat) {
    forall k: nat :: k < |schedule| ==> schedule[k] < workers
  }

  ghost predicate AllFinished(s: State) {
    forall i: nat :: i < |s.workers| ==> s.workers[i].place == Finished
  }

  /**
   For every number of rounds and of workers, and every interleaving: at most one worker is ever between its wait and
   its post, and when all workers have finished no update was lost.
  */
  lemma FinalValue(n: nat, decs: nat, incs: nat, schedule: seq<nat>)
    requires decs + incs <= MAX_BLOCKED && Schedules(schedule, decs + incs)
    ensures var end := Run(Start(n, decs, incs, true), schedule);
            && (forall i: nat, j: nat :: i < j < |end.workers| ==> !(Inside(end.workers[i]) && Inside(end.workers[j])))
            && (AllFinished(end) ==> end.g == Wrap64(Net(n, decs, incs)))
  {
    hide Total, Net, Wrap64;
    var s := Start(n, decs, incs, true);
    StartIsInv(n, decs, incs);
    var h := RunKeeps(s, n, -1, schedule);
    var end := Run(s, schedule);
    if AllFinished(end) {
      FinishedTotal(end.workers, n, decs, incs);
    }
  }

  predicate CanMove(s: State, i: nat)
    requires i < |s.workers|
  {
    s.workers[i].place != Queued && s.workers[i].place != Finished
  }

  /** As long as somebody has not finished, somebody can move. */
  lemma NoDeadlock(s: State, n: nat, h: int, i: nat)
    requires Inv(s, n, h) && i < |s.workers| && s.workers[i].place != Finished
    ensures exists j: nat :: j < |s.workers| && CanMove(s, j)
  {
    if s.workers[i].place == Queued {
      assert i in s.sem.blocked;
      assert CanMove(s, h);
    } else {
      assert CanMove(s, i);
    }
  }

  lemma RunCons(s: State, i: nat, rest: seq<nat>)
    requires i < |s.workers| && forall k: nat :: k < |rest| ==> rest[k] < |s.workers|
    ensures Run(s, [i] + rest) == Run(Step(s, i), rest)
  {
    assert ([i] + rest)[1..] == rest;
  }

  // ----- one after the other -----

  lemma {:induction false} RunConcat(s: State, a: seq<nat>, b: seq<nat>)
    requires Schedules(a, |s.workers|) && Schedules(b, |s.workers|)
    ensures Schedules(a + b, |s.workers|) && |Run(s, a).workers| == |s.workers|
    ensures Run(s, a + b) == Run(Run(s, a), b)
    decreases |a|
  {
    hide Step;
    if a == [] {
      assert a + b == b;
    } else {
      RunConcat(Step(s, a[0]), a[1..], b);
      assert (a + b)[1..] == a[1..] + b;
    }
  }

  /** Nobody is inside or queued, or the semaphore is not used. */
  predicate Open(s: State) {
    s.guarded ==> s.sem.value == 1 && s.sem.blocked == []
  }

  /** Worker `i` makes one round with nobody in between. */
  lemma OneRound(s: State, i: nat)
    requires Open(s) && i < |s.workers| && s.workers[i].place == Top && s.workers[i].left > 0
    ensures var w := s.workers[i];
            Run(s, [i, i, i, i]) ==
            s.(workers := s.workers[i := w.(left := w.left - 1, aux := s.g)], g := Wrap64(s.g + Delta(w)))
  {
    hide Wrap64, Run;
    var w := s.workers[i];
    var s1 := Step(s, i);
    var s2 := Step(s1, i);
    var s3 := Step(s2, i);
    var s4 := Step(s3, i);
    assert s2.workers == s.workers[i := w.(place := Writing, aux := s.g)];
    assert s4.workers == s.workers[i := w.(left := w.left - 1, aux := s.g)];
    assert s4.sem == s.sem;
    assert [i, i, i, i] == [i] + ([i] + ([i] + ([i] + [])));
    RunCons(s, i, [i] + ([i] + ([i] + [])));
    RunCons(s1, i, [i] + ([i] + []));
    RunCons(s2, i, [i] + []);
    RunCons(s3, i, []);
    RunNothing(s4);
  }

  /** The counter holds the rounds written less `lost`. */
  ghost predicate Short(s: State, n: nat, lost: int) {
    s.g == Wrap64(Total(s.workers, n) - lost) && forall i: nat :: i < |s.workers| ==> s.workers[i].left <= n
  }

  lemma RoundKeepsShort(s: State, s': State, i: nat, n: nat, lost: int)
    requires Short(s, n, lost) && i < |s.workers| && s.workers[i].place == Top && s.workers[i].left > 0
    requires var w := s.workers[i];
             s' == s.(workers := s.workers[i := w.(left := w.left - 1, aux := s.g)], g := Wrap64(s.g + Delta(w)))
    ensures Short(s', n, lost)
  {
    hide Wrap64, Total;
    TotalUpdate(s.workers, n, i, s'.workers[i]);
    WrapAdd(Total(s.workers, n) - lost, Delta(s.workers[i]));
  }

  /** A worker that runs alone finishes, and every round it makes is counted. */
  lemma {:induction false} SoloRun(s: State, i: nat, n: nat, lost: int) returns (schedule: seq<nat>)
    requires Open(s) && i < |s.workers| && s.workers[i].place == Top && Short(s, n, lost)
    ensures Schedules(schedule, |s.workers|)
    ensures var end := Run(s, schedule);
            && |end.workers| == |s.workers|
            && end == s.(workers := s.workers[i := end.workers[i]], g := end.g)
            && end.workers[i].place == Finished && end.workers[i].left == 0 && end.workers[i].inc == s.workers[i].inc
            && Short(end, n, lost)
    decreases s.workers[i].left
  {
    hide Run, Wrap64;
    if s.workers[i].left == 0 {
      schedule := [i] + [];
      RunCons(s, i, []);
      RunNothing(Step(s, i));
      TotalUpdate(s.workers, n, i, s.workers[i].(place := Finished));
    } else {
      hide Total, Short;
      OneRound(s, i);
      var s' := Run(s, [i, i, i, i]);
      RoundKeepsShort(s, s', i, n, lost);
      var rest := SoloRun(s', i, n, lost);
      schedule := [i, i, i, i] + rest;
      RunConcat(s, [i, i, i, i], rest);
      var end := Run(s', rest);
      assert s'.workers[i := end.workers[i]] == s.workers[i := end.workers[i]];
      assert Run(s, schedule) == end;
    }
  }

  /** The workers from `k` on, all at their start, run one after the other; the others stay where they are. */
  lemma {:induction false} OthersRun(s: State, k: nat, n: nat, lost: int) returns (schedule: seq<nat>)
    requires Open(s) && k <= |s.workers| && Short(s, n, lost)
    requires forall i: nat :: k <= i < |s.workers| ==> s.workers[i].place == Top
    ensures Schedules(schedule, |s.workers|)
    ensures var end := Run(s, schedule);
            && end.guarded == s.guarded && end.sem == s.sem && |end.workers| == |s.workers| && Short(end, n, lost)
            && (forall i: nat :: i < k ==> end.workers[i] == s.workers[i])
            && (forall i: nat :: k <= i < |s.workers| ==>
                  && end.workers[i].place == Finished && end.workers[i].left == 0
                  && end.workers[i].inc == s.workers[i].inc)
    decreases |s.workers| - k
  {
    hide Run, Wrap64, Step, Short;
    if k == |s.workers| {
      schedule := [];
      RunNothing(s);
    } else {
      var first := SoloRun(s, k, n, lost);
      var s' := Run(s, first);
      var rest := OthersRun(s', k + 1, n, lost);
      schedule := first + rest;
      RunConcat(s, first, rest);
    }
  }

  /** From any state in which all are at their start, all can finish, and what was lost stays lost. */
  lemma AllRun(s: State, n: nat, decs: nat, incs: nat, lost: int) returns (schedule: seq<nat>)
    requires Open(s) && |s.workers| == decs + incs && Short(s, n, lost)
    requires forall i: nat :: i < |s.workers| ==> s.workers[i].place == Top && (s.workers[i].inc <==> i >= decs)
    ensures Schedules(schedule, |s.workers|)
    ensures var end := Run(s, schedule); AllFinished(end) && end.g == Wrap64(Net(n, decs, incs) - lost)
  {
    hide Run, Wrap64, Net, Total;
    schedule := OthersRun(s, 0, n, lost);
    FinishedTotal(Run(s, schedule).workers, n, decs, incs);
  }

  /** All workers one after the other: with or without the semaphore, everything is counted. */
  lemma InTurn(n: nat, decs: nat, incs: nat, guarded: bool) returns (schedule: seq<nat>)
    ensures Schedules(schedule, decs + incs)
    ensures var end := Run(Start(n, decs, incs, guarded), schedule);
            AllFinished(end) && end.g == Wrap64(Net(n, decs, incs))
  {
    var s := Start(n, decs, incs, guarded);
    NothingYet(s.workers, n);
    schedule := AllRun(s, n, decs, incs, 0);
  }

  // ----- without the semaphore -----

  /** Worker 0 reads, worker 1 makes a round, worker 0 writes: the round of worker 1 is lost. */
  lemma LoseOne(n: nat, decs: nat, incs: nat) returns (schedule: seq<nat>)
    requires n > 0 && decs + incs >= 2
    ensures Schedules(schedule, decs + incs)
    ensures var s, s' := Start(n, decs, incs, false), Run(Start(n, decs, incs, false), schedule);
            && Open(s') && |s'.workers| == decs + incs && Short(s', n, Delta(s.workers[1]))
            && forall i: nat :: i < |s'.workers| ==> s'.workers[i].place == Top && (s'.workers[i].inc <==> i >= decs)
  {
    hide Run, Wrap64, Total;
    var s := Start(n, decs, incs, false);
    var w0, w1 := s.workers[0], s.workers[1];
    var s1 := Step(s, 0);
    var s2 := Step(s1, 0);
    assert s2.workers == s.workers[0 := w0.(place := Writing)];
    OneRound(s2, 1);
    var s3 := Run(s2, [1, 1, 1, 1]);
    var s4 := Step(s3, 0);
    var s5 := Step(s4, 0);
    var w1' := w1.(left := n - 1);
    assert s3.workers == s2.workers[1 := w1'];
    assert s5.workers == s.workers[0 := w0.(left := n - 1)][1 := w1'];
    RunCons(s, 0, [0] + ([1, 1, 1, 1] + ([0] + ([0] + []))));
    RunCons(s1, 0, [1, 1, 1, 1] + ([0] + ([0] + [])));
    RunConcat(s2, [1, 1, 1, 1], [0] + ([0] + []));
    RunCons(s3, 0, [0] + []);
    RunCons(s4, 0, []);
    RunNothing(s5);
    schedule := [0] + ([0] + ([1, 1, 1, 1] + ([0] + ([0] + []))));
    NothingYet(s.workers, n);
    TotalUpdate(s.workers, n, 0, w0.(left := n - 1));
    TotalUpdate(s.workers[0 := w0.(left := n - 1)], n, 1, w1');
  }

  /** Without the semaphore two workers can always lose an update, whatever the others are. */
  lemma LostUpdate(n: nat, decs: nat, incs: nat) returns (schedule: seq<nat>)
    requires n > 0 && decs + incs >= 2
    ensures Schedules(schedule, decs + incs)
    ensures var end := Run(Start(n, decs, incs, false), schedule);
            AllFinished(end) && end.g == Wrap64(Net(n, decs, incs) - (if 1 >= decs then 1 else -1))
  {
    hide Run, Wrap64, Net, Short, Total;
    var s := Start(n, decs, incs, false);
    var first := LoseOne(n, decs, incs);
    var s' := Run(s, first);
    var rest := AllRun(s', n, decs, incs, Delta(s.workers[1]));
    schedule := first + rest;
    RunConcat(s, first, rest);
  }

  /**
   At worst all but the rounds of one worker is lost: worker 0 reads, all the others run to their end, and worker 0
   goes on from what it read.
  */
  lemma MostLost(n: nat, decs: nat, incs: nat) returns (schedule: seq<nat>)
    requires n > 0 && decs + incs > 0
    ensures Schedules(schedule, decs + incs)
    ensures var end := Run(Start(n, decs, incs, false), schedule);
            AllFinished(end) && end.g == Wrap64(if decs > 0 then -(n as int) else n)
  {
    hide Run, Wrap64, Total;
    var s := Start(n, decs, incs, false);
    var s1 := Step(s, 0);
    var s2 := Step(s1, 0);
    var w := s.workers[0].(place := Writing);
    assert s2.workers == s.workers[0 := w];
    StartsAtZero(n, decs, incs, []);
    TotalUpdate(s.workers, n, 0, w);
    var others := OthersRun(s2, 1, n, 0);
    var s3 := Run(s2, others);
    var last := LastWriter(s3, n);
    schedule := [0] + ([0] + (others + last));
    RunConcat(s2, others, last);
    RunCons(s, 0, [0] + (others + last));
    RunCons(s1, 0, others + last);
  }

  /** Worker 0, about to write back the 0 it has read, finishes alone. */
  lemma LastWriter(s: State, n: nat) returns (schedule: seq<nat>)
    requires !s.guarded && |s.workers| > 0 && n > 0
    requires s.workers[0] == Worker(s.workers[0].inc, n, Writing, 0)
    requires forall i: nat :: i < |s.workers| ==> s.workers[i].left <= n
    ensures Schedules(schedule, |s.workers|)
    ensures var end := Run(s, schedule);
            && |end.workers| == |s.workers| && end.workers[0].place == Finished
            && (forall i: nat :: 0 < i < |s.workers| ==> end.workers[i] == s.workers[i])
            && end.g == Wrap64(if s.workers[0].inc then n else -(n as int))
  {
    hide Run, Wrap64, Total;
    var s1 := Step(s, 0);
    var s2 := Step(s1, 0);
    var d := Delta(s.workers[0]);
    assert s2 == s.(workers := s.workers[0 := s.workers[0].(left := n - 1, place := Top)], g := Wrap64(d));
    var lost := Total(s2.workers, n) - d;
    var rest := SoloRun(s2, 0, n, lost);
    var end := Run(s2, rest);
    TotalUpdate(s2.workers, n, 0, end.workers[0]);
    schedule := [0] + ([0] + rest);
    RunCons(s, 0, [0] + rest);
    RunCons(s1, 0, rest);
  }

  /** One worker alone has nobody to lose an update to. */
  lemma {:induction false} AloneIsCounted(s: State, n: nat, schedule: seq<nat>)
    requires !s.guarded && |s.workers| == 1 && Schedules(schedule, 1) && Counted(s, n)
    ensures Counted(Run(s, schedule), n) && |Run(s, schedule).workers| == 1
    ensures Run(s, schedule).workers[0].inc == s.workers[0].inc
    decreases |schedule|
  {
    hide Wrap64, Total;
    if schedule != [] {
      var w, s' := s.workers[0], Step(s, 0);
      TotalUpdate(s.workers, n, 0, s'.workers[0]);
      WrapAdd(Total(s.workers, n), Delta(w));
      AloneIsCounted(s', n, schedule[1..]);
    }
  }

  lemma StartsAtZero(n: nat, decs: nat, incs: nat, schedule: seq<nat>)
    ensures Counted(Start(n, decs, incs, false), n)
    ensures Schedules(schedule, 0) ==> schedule == []
  {
    NothingYet(Start(n, decs, incs, false).workers, n);
    if schedule != [] {
      assert !Schedules(schedule, 0) by {
        var k: nat := 0;
        assert schedule[k] >= 0;
      }
    }
  }

  lemma AloneFinalValue(n: nat, decs: nat, incs: nat, schedule: seq<nat>)
    requires decs + incs <= 1 && Schedules(schedule, decs + incs)
    ensures var end := Run(Start(n, decs, incs, false), schedule);
            AllFinished(end) ==> end.g == Wrap64(Net(n, decs, incs))
  {
    hide Wrap64, Run, Net;
    var s := Start(n, decs, incs, false);
    StartsAtZero(n, decs, incs, schedule);
    var end := Run(s, schedule);
    if decs + incs == 0 {
      RunNothing(s);
    } else {
      AloneIsCounted(s, n, schedule);
    }
    if AllFinished(end) {
      FinishedTotal(end.workers, n, decs, incs);
    }
  }

  lemma WrapApart(x: int, d: int)
    requires d == 1 || d == -1
    ensures Wrap64(x - d) != Wrap64(x)
  {
  }

  /** Is nobody there to be raced with, or the race excluded? */
  predicate Safe(decs: nat, incs: nat, guarded: bool) {
    guarded || decs + incs <= 1
  }

  /** Every interleaving of the workers that were created ends at their difference exactly when it is safe. */
  lemma NothingLostIff(n: nat, decs: nat, incs: nat, guarded: bool)
    requires n > 0 && decs + incs <= MAX_BLOCKED
    ensures (forall schedule: seq<nat> :: Schedules(schedule, decs + incs) ==>
               AllFinished(Run(Start(n, decs, incs, guarded), schedule)) ==>
                 Run(Start(n, decs, incs, guarded), schedule).g == Wrap64(Net(n, decs, incs)))
            <==> Safe(decs, incs, guarded)
  {
    hide Run, Wrap64, Net;
    if Safe(decs, incs, guarded) {
      forall schedule: seq<nat> | Schedules(schedule, decs + incs)
        ensures var end := Run(Start(n, decs, incs, guarded), schedule);
                AllFinished(end) ==> end.g == Wrap64(Net(n, decs, incs))
      {
        if guarded {
          FinalValue(n, decs, incs, schedule);
        } else {
          AloneFinalValue(n, decs, incs, schedule);
        }
      }
    } else {
      var schedule := LostUpdate(n, decs, incs);
      WrapApart(Net(n, decs, incs), if 1 >= decs then 1 else -1);
    }
  }

  /**
   The final value is 0 in every interleaving exactly when it is safe and the workers that were created cancel out. With
   as many of either kind that is: when the semaphore is used.
  */
  lemma ZeroIff(n: nat, decs: nat, incs: nat, guarded: bool)
    requires n > 0 && decs + incs <= MAX_BLOCKED
    ensures (forall schedule: seq<nat> :: Schedules(schedule, decs + incs) ==>
               AllFinished(Run(Start(n, decs, incs, guarded), schedule)) ==>
                 Run(Start(n, decs, incs, guarded), schedule).g == 0)
            <==> Safe(decs, incs, guarded) && Wrap64(Net(n, decs, incs)) == 0
  {
    hide Run, Wrap64, Net;
    NothingLostIff(n, decs, incs, guarded);
    var serial := InTurn(n, decs, incs, guarded);
    if !Safe(decs, incs, guarded) {
      var schedule := LostUpdate(n, decs, incs);
      WrapApart(Net(n, decs, incs), if 1 >= decs then 1 else -1);
    }
  }

  /** How many workers there are when `pairs` are asked for and there is room for `room` processes that stay. */
  function Decs(pairs: nat, room: nat): nat {
    if pairs <= room then pairs else room
  }

  function Incs(pairs: nat, room: nat): nat {
    if 2 * pairs <= room then pairs else room - Decs(pairs, room)
  }

  /**
   `test_sync n pairs use_sem` with room for `room` long-lived workers, all numbers being as the command accepts them:
   it ends at 0 in every interleaving exactly when the semaphore is used and the workers that find room cancel out; if
   all find room, exactly when the semaphore is used.
  */
  lemma CommandEndsAtZeroIff(n: nat, pairs: nat, room: nat, guarded: bool)
    requires 0 < n < 0x1_0000_0000_0000_0000 && 0 < pairs <= 32
    ensures var decs, incs := Decs(pairs, room), Incs(pairs, room);
            (forall schedule: seq<nat> :: Schedules(schedule, decs + incs) ==>
               AllFinished(Run(Start(n, decs, incs, guarded), schedule)) ==>
                 Run(Start(n, decs, incs, guarded), schedule).g == 0)
            <==> (if 2 * pairs <= room then guarded else Safe(decs, incs, guarded) && Wrap64(Net(n, decs, incs)) == 0)
  {
    hide Run;
    ZeroIff(n, Decs(pairs, room), Incs(pairs, room), guarded);
    if 2 * pairs <= room {
      assert Net(n, pairs, pairs) == 0;
    }
  }

  lemma RunNothing(s: State)
    ensures Run(s, []) == s
  {
  }
}
