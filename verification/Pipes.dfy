/** Kernel/pipes/pipe.c in place: ring buffers, end counters and wake-ups, against the queues of PipeSpec. */
module Pipes {
  import opened KernelSpec
  import opened KernelInvariant
  import opened Scheduler
  import Q = PipeSpec
  import R = PipeRuns
  import ReadyBooks

  /** `(r + i) % PIPE_BUF_SIZE` for positions of the ring. */
  function At(r: nat, i: nat): (p: nat)
    requires r < Q.PIPE_BUF_SIZE && i <= Q.PIPE_BUF_SIZE
    ensures p == (r + i) % Q.PIPE_BUF_SIZE && p < Q.PIPE_BUF_SIZE
  {
    if r + i < Q.PIPE_BUF_SIZE then r + i else r + i - Q.PIPE_BUF_SIZE
  }

  /** The `c` bytes of the ring from position `r` on. */
  function Ring(buf: seq<char>, r: nat, c: nat): (q: seq<char>)
    requires |buf| == Q.PIPE_BUF_SIZE && r < Q.PIPE_BUF_SIZE && c <= Q.PIPE_BUF_SIZE
    ensures |q| == c && forall i: nat :: i < c ==> q[i] == buf[At(r, i)]
  {
    seq(c, i requires 0 <= i < c => buf[At(r, i)])
  }

  lemma RingPut(buf: seq<char>, r: nat, c: nat, b: char)
    requires |buf| == Q.PIPE_BUF_SIZE && r < Q.PIPE_BUF_SIZE && c < Q.PIPE_BUF_SIZE
    ensures Ring(buf[At(r, c) := b], r, c + 1) == Ring(buf, r, c) + [b]
    ensures At(r, c + 1) == (At(r, c) + 1) % Q.PIPE_BUF_SIZE
  {
  }

  lemma SameTails(a: char, s: seq<char>, b: char, t: seq<char>)
    requires [a] + s == [b] + t
    ensures a == b && s == t
  {
    assert ([a] + s)[0] == a && ([a] + s)[1..] == s;
    assert ([b] + t)[0] == b && ([b] + t)[1..] == t;
  }

  lemma RingTake(buf: seq<char>, r: nat, c: nat)
    requires |buf| == Q.PIPE_BUF_SIZE && r < Q.PIPE_BUF_SIZE && 0 < c <= Q.PIPE_BUF_SIZE
    ensures Ring(buf, r, c) == [buf[r]] + Ring(buf, At(r, 1), c - 1)
    ensures At(At(r, 1), c - 1) == At(r, c)
  {
  }

  function NextPos(p: nat): (q: nat)
    requires p < Q.PIPE_BUF_SIZE
    ensures q == At(p, 1)
  {
    (p + 1) % Q.PIPE_BUF_SIZE
  }

  class Pipe {
    const id: nat
    const buffer: array<char>
    var active: bool
    var name: string
    var readPos: nat
    var writePos: nat
    var count: nat
    var writeOpen: int
    var readOpen: int

    constructor (id: nat)
      ensures this.id == id && fresh(buffer) && Valid() && Abs() == Q.Pipe(false, "", [], 0, 0)
    {
      this.id := id;
      buffer := new char[Q.PIPE_BUF_SIZE];
      active, name, readPos, writePos, count, writeOpen, readOpen := false, "", 0, 0, 0, 0, 0;
    }

    ghost predicate Valid()
      reads this
    {
      && buffer.Length == Q.PIPE_BUF_SIZE && readPos < Q.PIPE_BUF_SIZE && count <= Q.PIPE_BUF_SIZE
      && writePos == At(readPos, count)
    }

    ghost function Abs(): Q.Pipe<char>
      requires Valid()
      reads this, buffer
    {
      Q.Pipe(active, name, Ring(buffer[..], readPos, count), writeOpen, readOpen)
    }

    /** The critical section of `pipe_write`: one byte goes in. */
    method Put(b: char)
      requires Valid() && count < Q.PIPE_BUF_SIZE
      modifies this`writePos, this`count, buffer
      ensures Valid() && Abs() == old(Abs()).(data := old(Abs()).data + [b])
    {
      hide Ring, NextPos;
      RingPut(buffer[..], readPos, count, b);
      assert At(readPos, count) == writePos;
      buffer[writePos] := b;
      assert buffer[..] == old(buffer[..])[writePos := b];
      writePos := NextPos(writePos);
      count := count + 1;
    }

    /** The critical section of `pipe_read`: the oldest bytes come out. */
    method Take(out: array<char>, n: nat) returns (got: nat)
      requires Valid() && count > 0 && n <= out.Length && out != buffer
      modifies this`readPos, this`count, out
      ensures Valid() && got == Q.Min(n, old(count))
      ensures Abs() == old(Abs()).(data := old(Abs()).data[got..])
      ensures forall j :: 0 <= j < got ==> out[j] == old(Abs()).data[j]
      ensures forall j :: got <= j < out.Length ==> out[j] == old(out[j])
    {
      hide Ring, At, NextPos;
      got := if n < count then n else count;
      CopyOut(out, got);
      count := count - got;
    }

    /** The loop of `pipe_read`: `got` bytes are copied and the read position moves behind them. */
    method CopyOut(out: array<char>, got: nat)
      requires Valid() && got <= count && got <= out.Length && out != buffer
      modifies this`readPos, out
      ensures readPos < Q.PIPE_BUF_SIZE && At(readPos, count - got) == writePos
      ensures Ring(buffer[..], readPos, count - got) == old(Abs()).data[got..]
      ensures forall j :: 0 <= j < got ==> out[j] == old(Abs()).data[j]
      ensures forall j :: got <= j < out.Length ==> out[j] == old(out[j])
    {
      hide Ring, At, NextPos;
      ghost var bytes := buffer[..];
      ghost var data := Ring(bytes, readPos, count);
      var i := 0;
      while i < got
        invariant 0 <= i <= got && count == |data| <= Q.PIPE_BUF_SIZE && readPos < Q.PIPE_BUF_SIZE
        invariant buffer[..] == bytes
        invariant At(readPos, count - i) == writePos && Ring(bytes, readPos, count - i) == data[i..]
        invariant forall j :: 0 <= j < i ==> out[j] == data[j]
        invariant forall j :: got <= j < out.Length ==> out[j] == old(out[j])
      {
        out[i] := Advance(bytes, data, i, count - i);
        i := i + 1;
      }
    }

    /** Byte `i` of `data` is at the read position, which moves on; `left` bytes were left to read. */
    method Advance(ghost bytes: seq<char>, ghost data: seq<char>, ghost i: nat, ghost left: nat) returns (b: char)
      requires buffer.Length == Q.PIPE_BUF_SIZE && buffer[..] == bytes && readPos < Q.PIPE_BUF_SIZE
      requires 0 < left <= Q.PIPE_BUF_SIZE && i + left == |data| && Ring(bytes, readPos, left) == data[i..]
      modifies this`readPos
      ensures readPos < Q.PIPE_BUF_SIZE && At(readPos, left - 1) == At(old(readPos), left)
      ensures b == data[i] && Ring(bytes, readPos, left - 1) == data[i + 1..]
    {
      hide Ring, NextPos;
      RingTake(bytes, readPos, left);
      b := buffer[readPos];
      readPos := NextPos(readPos);
      assert data[i..] == [data[i]] + data[i + 1..];
      SameTails(b, Ring(bytes, readPos, left - 1), data[i], data[i + 1..]);
    }

    /** The counters of `pipe_close`, and whether everybody waiting on the pipe has to be told. */
    method CloseEnd(side: int) returns (tell: bool)
      requires Valid()
      modifies this`writeOpen, this`readOpen
      ensures Valid() && Abs() == Q.EndClosed(old(Abs()), side) && tell == Q.Announces(old(Abs()), side)
      ensures writeOpen == if side == 1 && old(writeOpen) > 0 then old(writeOpen) - 1 else old(writeOpen)
      ensures readOpen == if side != 1 && old(readOpen) > 0 then old(readOpen) - 1 else old(readOpen)
    {
      if side == 1 {
        if writeOpen > 0 {
          writeOpen := writeOpen - 1;
        }
        return writeOpen == 0;
      }
      if readOpen > 0 {
        readOpen := readOpen - 1;
      }
      return readOpen == 0;
    }

    method GiveUpIfClosed()
      requires Valid()
      modifies this`active, this`name
      ensures Valid()
      ensures Abs() == if writeOpen == 0 && readOpen == 0 then old(Abs()).(active := false, name := "") else old(Abs())
    {
      if writeOpen == 0 && readOpen == 0 {
        active := false;
        name := "";
      }
    }
  }

  // ----- who is woken -----

  /** The pids `get_process_list` reports, in slot order. */
  function Listed(procs: seq<Proc>, i: nat): seq<nat>
    requires i <= |procs|
    decreases |procs| - i
  {
    if i == |procs| then []
    else if procs[i].pid > 0 && procs[i].state != Killed then [procs[i].pid] + Listed(procs, i + 1)
    else Listed(procs, i + 1)
  }

  /** What `get_process_list` reports of a process. */
  datatype Info = Info(pid: nat, priority: int, state: ProcState)

  function InfoOf(p: Proc): Info {
    Info(p.pid, p.priority, p.state)
  }

  /** The reports, in slot order. */
  function Reports(procs: seq<Proc>, i: nat): (r: seq<Info>)
    requires i <= |procs|
    ensures |r| == |Listed(procs, i)| <= |procs| - i
    ensures forall j :: 0 <= j < |r| ==> r[j].pid == Listed(procs, i)[j]
    decreases |procs| - i
  {
    if i == |procs| then []
    else if procs[i].pid > 0 && procs[i].state != Killed then [InfoOf(procs[i])] + Reports(procs, i + 1)
    else Reports(procs, i + 1)
  }

  predicate Living(p: Proc) {
    p.pid > 0 && p.state != Killed
  }

  /** Report `j` tells pid, priority and state of a living slot; the later reports are those of the later slots. */
  lemma {:induction false} ReportAt(procs: seq<Proc>, i: nat, j: nat) returns (s: nat)
    requires i <= |procs| && j < |Reports(procs, i)|
    ensures i <= s < |procs| && Living(procs[s])
    ensures Reports(procs, i)[j] == Info(procs[s].pid, procs[s].priority, procs[s].state)
    ensures Reports(procs, i)[j..] == Reports(procs, s)
    decreases |procs| - i
  {
    hide Reports, Listed;
    ReportsFrom(procs, i);
    if !Living(procs[i]) {
      s := ReportAt(procs, i + 1, j);
    } else if j == 0 {
      s := i;
    } else {
      s := ReportAt(procs, i + 1, j - 1);
      assert Reports(procs, i)[j..] == Reports(procs, i + 1)[j - 1..];
    }
  }

  /** Every living slot is reported. */
  lemma {:induction false} ReportOf(procs: seq<Proc>, i: nat, s: nat) returns (j: nat)
    requires i <= s < |procs| && Living(procs[s])
    ensures j < |Reports(procs, i)|
    ensures Reports(procs, i)[j] == Info(procs[s].pid, procs[s].priority, procs[s].state)
    decreases |procs| - i
  {
    hide Reports, Listed;
    ReportsFrom(procs, i);
    if i == s {
      j := 0;
    } else {
      j := ReportOf(procs, i + 1, s);
      if Living(procs[i]) {
        j := j + 1;
      }
    }
  }

  lemma ReportsFrom(procs: seq<Proc>, i: nat)
    requires i <= |procs|
    ensures i == |procs| ==> Reports(procs, i) == []
    ensures i < |procs| ==>
              Reports(procs, i) == if procs[i].pid > 0 && procs[i].state != Killed
                                   then [InfoOf(procs[i])] + Reports(procs, i + 1) else Reports(procs, i + 1)
  {
  }

  /** Kernel and `waiting_pipe` fields. */
  datatype Waiters = Waiters(k: Kernel, waiting: seq<int>)

  predicate Fits(w: Waiters) {
    Shape(w.k) && |w.waiting| == MAX_PROCESSES
  }

  function Told(w: Waiters, pid: nat, id: int): (w': Waiters)
    requires Fits(w)
    ensures Fits(w')
  {
    var s := Find(w.k.procs, pid);
    if s >= 0 && w.k.procs[s].state == Blocked && w.waiting[s] == id then
      Waiters(Wake(w.k, pid), w.waiting[s := -1])
    else w
  }

  function ToldAll(w: Waiters, pids: seq<nat>, id: int): (w': Waiters)
    requires Fits(w)
    ensures Fits(w')
    decreases |pids|
  {
    if pids == [] then w else ToldAll(Told(w, pids[0], id), pids[1..], id)
  }

  /** `pipe_notify` */
  function Notified(w: Waiters, id: int): (w': Waiters)
    requires Fits(w)
    ensures Fits(w')
  {
    ToldAll(w, Listed(w.k.procs, 0), id)
  }

  lemma {:induction false} ListedIs(procs: seq<Proc>, i: nat)
    requires i <= |procs|
    ensures forall s: nat :: i <= s < |procs| && procs[s].pid > 0 && procs[s].state != Killed ==>
                               procs[s].pid in Listed(procs, i)
    decreases |procs| - i
  {
    if i < |procs| {
      ListedIs(procs, i + 1);
    }
  }

  /** Slot `s` sleeps on pipe `id`. */
  predicate Sleeps(w: Waiters, s: nat, id: int)
    requires Fits(w) && s < MAX_PROCESSES
  {
    w.k.procs[s].state == Blocked && w.waiting[s] == id
  }

  /** Slot `s` as it is, or woken if it slept on `id`. */
  predicate OnlyWoken(w: Waiters, w': Waiters, s: nat, id: int)
    requires Fits(w) && Fits(w') && s < MAX_PROCESSES
  {
    if Sleeps(w, s, id) && !Sleeps(w', s, id) then
      w'.k.procs[s] == w.k.procs[s].(state := Ready) && w'.waiting[s] == -1
    else w'.k.procs[s] == w.k.procs[s] && w'.waiting[s] == w.waiting[s]
  }

  lemma ToldWakes(w: Waiters, pid: nat, id: int, s: nat)
    requires Fits(w) && Orderly(w.k) && s < MAX_PROCESSES
    ensures var w' := Told(w, pid, id);
            && Orderly(w'.k) && OnlyWoken(w, w', s, id)
            && (w.k.procs[s].pid == pid && pid != 0 ==> !Sleeps(w', s, id))
  {
    hide QueuesMatch;
    WakeKeepsOrder(w.k, pid);
    if w.k.procs[s].pid == pid && pid != 0 {
      FindUnique(w.k, s);
    }
  }

  lemma {:induction false} ToldAllWakes(w: Waiters, pids: seq<nat>, id: int, s: nat)
    requires Fits(w) && Orderly(w.k) && s < MAX_PROCESSES
    ensures var w' := ToldAll(w, pids, id);
            && Orderly(w'.k) && OnlyWoken(w, w', s, id)
            && (w.k.procs[s].pid != 0 && w.k.procs[s].pid in pids ==> !Sleeps(w', s, id))
    decreases |pids|
  {
    hide Orderly, Told;
    if pids != [] {
      ToldWakes(w, pids[0], id, s);
      ToldAllWakes(Told(w, pids[0], id), pids[1..], id, s);
    }
  }

  /** Exactly the processes that sleep on the pipe become READY, and they no longer wait for it. */
  lemma NotifyWakes(w: Waiters, id: int, s: nat)
    requires Fits(w) && Orderly(w.k) && s < MAX_PROCESSES
    ensures var w' := Notified(w, id);
            && Orderly(w'.k)
            && if Sleeps(w, s, id) then w'.k.procs[s] == w.k.procs[s].(state := Ready) && w'.waiting[s] == -1
               else w'.k.procs[s] == w.k.procs[s] && w'.waiting[s] == w.waiting[s]
  {
    hide QueuesMatch;
    ListedIs(w.k.procs, 0);
    ToldAllWakes(w, Listed(w.k.procs, 0), id, s);
  }

  /** A read that takes nothing leaves the table as it is. */
  lemma UnreadStays(t: R.Table, id: int, n: nat, resumed: bool)
    ensures id < 0 || id >= |t| || !Q.ReadStep(t[id], n, resumed).Went? ==> R.After(t, R.ReadCall(id, n, resumed)) == t
  {
  }

  /** So does a write that puts in nothing. */
  lemma UnwrittenStays(t: R.Table, id: int, bytes: string, turn: nat, resumed: bool)
    ensures id < 0 || id >= |t| || Q.Accepted(t[id], |bytes|, turn, resumed) == 0 ==>
              forall w :: R.After(t, R.WriteCall(id, w, bytes, turn, resumed)) == t
  {
    if 0 <= id < |t| {
      R.GrownTwice(t, id, "", "");
    }
  }

  /** Where the loop of `pipe_write` stands when `k` bytes of this pass are in. */
  lemma WriteLoopAt(p: Q.Pipe<char>, left: nat, turn: nat, resumed: bool, k: nat)
    requires resumed || (p.active && left > 0)
    requires |p.data| <= Q.PIPE_BUF_SIZE && k <= Q.Accepted(p, left, turn, resumed)
    ensures var pass, all := Q.WriteStep(p, left, turn, resumed), Q.Accepted(p, left, turn, resumed);
            if k == turn then pass == Q.Interrupted && all == k
            else if k == left then pass == Q.Went(left) && all == k
            else if p.readOpen == 0 then pass == Q.Refused && all == k
            else if |p.data| + k >= Q.PIPE_BUF_SIZE then pass == Q.Parks && all == k
            else k + 1 <= all
  {
  }

  /** `pipe_open` step by step: a pipe is found, or made and then named, or there is no room. */
  lemma OpenedBySteps(t: R.Table, name: string)
    ensures var i, f := Q.NamedFrom(t, name, 0), Q.FreeFrom(t, 0);
            if i >= 0 then
              Q.OpenAt(t, name) == i
              && Q.Opened(t, name) == t[i := t[i].(writeOpen := t[i].writeOpen + 1, readOpen := t[i].readOpen + 1)]
            else if f >= 0 then
              var made := t[f := Q.Fresh()];
              Q.OpenAt(t, name) == f && Q.Opened(t, name) == made[f := made[f].(name := Q.Stored(name))]
            else Q.OpenAt(t, name) == -1 && Q.Opened(t, name) == t
  {
    hide Q.NamedFrom, Q.FreeFrom;
  }

  /** The tests at the beginning of `pipe_write`. */
  lemma WriteEntry(p: Q.Pipe<char>, left: nat, turn: nat)
    ensures !p.active ==> Q.WriteStep(p, left, turn, false) == Q.Refused && Q.Accepted(p, left, turn, false) == 0
    ensures p.active && left == 0 ==>
              Q.WriteStep(p, left, turn, false) == Q.Nothing && Q.Accepted(p, left, turn, false) == 0
  {
  }

  lemma OneMore(bytes: string, from: nat, count: nat, i: nat)
    requires from <= i < count <= |bytes|
    ensures bytes[from..count][..i - from] + [bytes[i]] == bytes[from..count][..i + 1 - from]
  {
  }

  lemma AfterWrite(t: R.Table, id: nat, bytes: string, turn: nat, resumed: bool)
    requires id < |t|
    ensures forall w :: R.After(t, R.WriteCall(id, w, bytes, turn, resumed)) ==
                        R.Grown(t, id, bytes[..Q.Accepted(t[id], |bytes|, turn, resumed)])
  {
  }

  class Pipes {
    const pipes: seq<Pipe>
    /** `waiting_pipe` of every process slot. */
    const waiting: array<int>
    const sched: Scheduler
    /** The buffers of the pipes, all different. */
    ghost const pool: seq<array<char>>

    ghost predicate Separate()
      requires |pool| == Q.MAX_PIPES
    {
      forall i: nat, j: nat :: i < j < Q.MAX_PIPES ==> pool[i] != pool[j]
    }

    ghost predicate Fixed() {
      && |pipes| == Q.MAX_PIPES && |pool| == Q.MAX_PIPES && waiting.Length == MAX_PROCESSES
      && (forall i: nat :: i < Q.MAX_PIPES ==> pipes[i].id == i && pipes[i].buffer == pool[i])
      && Separate()
    }

    ghost predicate Valid()
      reads this, pipes
    {
      Fixed() && forall i: nat :: i < Q.MAX_PIPES ==> pipes[i].Valid()
    }

    ghost predicate Ready()
      reads this, pipes, sched, sched.heads, sched.table
    {
      Valid() && sched.Valid() && Orderly(sched.Abs())
    }

    ghost function TableBelow(n: nat): (t: seq<Q.Pipe<char>>)
      requires Valid() && n <= Q.MAX_PIPES
      reads this, pipes, pool
      ensures |t| == n && forall i: nat :: i < n ==> t[i] == pipes[i].Abs()
    {
      if n == 0 then [] else TableBelow(n - 1) + [pipes[n - 1].Abs()]
    }

    ghost function Table(): (t: seq<Q.Pipe<char>>)
      requires Valid()
      reads this, pipes, pool
      ensures |t| == Q.MAX_PIPES && forall i: nat :: i < Q.MAX_PIPES ==> t[i] == pipes[i].Abs()
    {
      TableBelow(Q.MAX_PIPES)
    }

    ghost function W(): (w: Waiters)
      requires Valid() && sched.Valid()
      reads this, pipes, waiting, sched, sched.heads, sched.table
      ensures Fits(w)
    {
      Waiters(sched.Abs(), waiting[..])
    }

    /** `pipe_init` */
    constructor (sched: Scheduler)
      ensures Valid() && this.sched == sched
      ensures Table() == seq(Q.MAX_PIPES, _ => Q.Pipe(false, "", [], 0, 0))
      ensures waiting[..] == seq(MAX_PROCESSES, _ => -1)
    {
      this.sched := sched;
      var w := new int[MAX_PROCESSES](_ => -1);
      waiting := w;
      var t: seq<Pipe> := [];
      ghost var arrays: seq<array<char>> := [];
      while |t| < Q.MAX_PIPES
        invariant |t| == |arrays| <= Q.MAX_PIPES && forall s :: 0 <= s < w.Length ==> w[s] == -1
        invariant forall i: nat {:trigger t[i]} :: i < |t| ==>
                    && fresh(t[i]) && t[i].id == i && t[i].Valid() && t[i].buffer == arrays[i]
                    && t[i].Abs() == Q.Pipe(false, "", [], 0, 0)
        invariant forall i: nat {:trigger arrays[i]} :: i < |arrays| ==> fresh(arrays[i]) && arrays[i] == t[i].buffer
        invariant forall i: nat, j: nat :: i < j < |arrays| ==> arrays[i] != arrays[j]
      {
        var p := new Pipe(|t|);
        t := t + [p];
        arrays := arrays + [p.buffer];
      }
      pipes := t;
      pool := arrays;
      new;
      assert Table() == seq(Q.MAX_PIPES, _ => Q.Pipe(false, "", [], 0, 0));
    }

    lemma Apart(i: nat)
      requires Fixed() && i < Q.MAX_PIPES
      ensures forall j: nat :: j < Q.MAX_PIPES && j != i ==> pipes[j] != pipes[i] && pipes[j].buffer != pipes[i].buffer
    {
      forall j: nat | j < Q.MAX_PIPES && j != i
        ensures pipes[j] != pipes[i] && pipes[j].buffer != pipes[i].buffer
      {
        assert pipes[j].id == j && pool[j] == pipes[j].buffer;
        assert pool[i] == pipes[i].buffer;
        assert i < j || j < i;
      }
    }

    /** A change of one pipe is a change of one entry of the table. */
    twostate lemma OneChanged(i: nat)
      requires old(Valid()) && i < Q.MAX_PIPES && pipes[i].Valid()
      requires forall p :: p in pipes && p != pipes[i] ==> unchanged(p)
      requires forall a :: a in pool && a != pipes[i].buffer ==> unchanged(a)
      ensures Valid() && Table() == old(Table())[i := pipes[i].Abs()]
    {
      Apart(i);
      forall j: nat | j < Q.MAX_PIPES && j != i
        ensures pipes[j].Valid() && pipes[j].Abs() == old(pipes[j].Abs())
      {
        assert pipes[j] in pipes && pool[j] in pool && pool[j] == pipes[j].buffer;
      }
    }

    /** `pipe_create` */
    method PipeCreate() returns (id: int)
      requires Valid()
      modifies pipes
      ensures Valid() && id == Q.FreeFrom(old(Table()), 0)
      ensures Table() == R.After(old(Table()), R.CreateCall)
    {
      hide Separate, TableBelow;
      ghost var t := Table();
      var i := 0;
      while i < Q.MAX_PIPES
        invariant 0 <= i <= Q.MAX_PIPES && Valid() && Table() == t
        invariant Q.FreeFrom(t, 0) == Q.FreeFrom(t, i)
      {
        assert t[i] == pipes[i].Abs();
        if !pipes[i].active {
          label free:
          var p := pipes[i];
          p.active := true;
          p.readPos := 0;
          p.writePos := 0;
          p.count := 0;
          p.writeOpen := 1;
          p.readOpen := 1;
          p.name := "";
          OneChanged@free(i);
          assert p.Abs() == Q.Fresh();
          return i;
        }
        i := i + 1;
      }
      return -1;
    }

    /** The first loop of `pipe_open`: the active pipe of that name, or -1. */
    method FindNamed(name: string) returns (i: int)
      requires Valid()
      ensures i == Q.NamedFrom(Table(), name, 0)
    {
      hide Separate, TableBelow;
      i := 0;
      while i < Q.MAX_PIPES
        invariant 0 <= i <= Q.MAX_PIPES && Q.NamedFrom(Table(), name, 0) == Q.NamedFrom(Table(), name, i)
      {
        assert Table()[i] == pipes[i].Abs();
        if pipes[i].active {
          var same := SameName(pipes[i].name, name);
          if same {
            return i;
          }
        }
        i := i + 1;
      }
      return -1;
    }

    /** `pipe_open` */
    method PipeOpen(name: string) returns (id: int)
      requires Valid()
      modifies pipes
      ensures Valid() && id == Q.OpenAt(old(Table()), name)
      ensures Table() == R.After(old(Table()), R.OpenCall(name))
    {
      hide Separate, TableBelow, Q.Stored, Q.NamedFrom, Q.FreeFrom, Q.OpenAt, Q.Opened;
      OpenedBySteps(Table(), name);
      var i := FindNamed(name);
      if i >= 0 {
        MoreEnds(i);
        return i;
      }
      id := PipeCreate();
      if id < 0 {
        return -1;
      }
      GiveName(id, name);
    }

    method MoreEnds(i: nat)
      requires Valid() && i < Q.MAX_PIPES
      modifies pipes
      ensures var p := old(Table())[i];
              Valid() && Table() == old(Table())[i := p.(writeOpen := p.writeOpen + 1, readOpen := p.readOpen + 1)]
    {
      hide Separate, TableBelow;
      pipes[i].writeOpen := pipes[i].writeOpen + 1;
      pipes[i].readOpen := pipes[i].readOpen + 1;
      OneChanged(i);
    }

    method GiveName(i: nat, name: string)
      requires Valid() && i < Q.MAX_PIPES
      modifies pipes
      ensures Valid() && Table() == old(Table())[i := old(Table())[i].(name := Q.Stored(name))]
    {
      hide Separate, TableBelow, Q.Stored;
      pipes[i].name := CopyName(name);
      OneChanged(i);
    }

    /** `pipe_notify` */
    method PipeNotify(id: int)
      requires Ready()
      modifies waiting, sched`books, sched.heads, sched.table`next, sched.table`prev, sched.table`state
      ensures Ready() && W() == Notified(old(W()), id)
    {
      hide Orderly, ReadyBooks.Kept, Scheduler.Linked, Separate, Find;
      var infos := new Info[MAX_PROCESSES];
      var n := GetProcessList(infos, MAX_PROCESSES);
      ghost var w := W();
      ghost var pids := Listed(w.k.procs, 0);
      var i := 0;
      while i < n
        invariant 0 <= i <= n == |pids| && Ready()
        invariant forall j :: 0 <= j < n ==> infos[j].pid == pids[j]
        invariant ToldAll(W(), pids[i..], id) == ToldAll(w, pids, id)
      {
        assert pids[i..][0] == pids[i] && pids[i..][1..] == pids[i + 1..];
        Tell(infos[i].pid, id);
        i := i + 1;
      }
    }

    /** One process of the list: if it sleeps on the pipe, it is woken. */
    method Tell(pid: nat, id: int)
      requires Ready()
      modifies waiting, sched`books, sched.heads, sched.table`next, sched.table`prev, sched.table`state
      ensures Ready() && W() == Told(old(W()), pid, id)
    {
      hide Orderly, ReadyBooks.Kept, Scheduler.Linked, Separate, Find, Wake, Scheduler.ProcsBelow;
      ghost var w := W();
      WakeKeepsOrder(w.k, pid);
      var p := sched.GetProcessByPid(pid);
      if p != null && p.state == Blocked && waiting[p.slot] == id {
        waiting[p.slot] := -1;
        assert waiting[..] == w.waiting[p.slot := -1];
        WakeByPid(pid);
      }
    }

    method WakeByPid(pid: nat)
      requires sched.Valid() && Orderly(sched.Abs())
      modifies sched`books, sched.heads, sched.table`next, sched.table`prev, sched.table`state
      ensures sched.Valid() && sched.Abs() == Wake(old(sched.Abs()), pid)
    {
      hide ReadyBooks.Kept, Scheduler.Linked, QueuesMatch, Wake;
      sched.UnblockProcess(pid);
    }

    /** `get_process_list`: at most `maxCount` reports are written to the front of `buf`. */
    method GetProcessList(buf: array<Info>, maxCount: int) returns (count: nat)
      requires sched.Valid() && maxCount <= buf.Length
      modifies buf
      ensures sched.Valid() && sched.Abs() == old(sched.Abs())
      ensures count == if maxCount <= 0 then 0 else Q.Min(maxCount, |Reports(sched.Abs().procs, 0)|)
      ensures forall j :: 0 <= j < count ==> buf[j] == Reports(sched.Abs().procs, 0)[j]
      ensures forall j :: count <= j < buf.Length ==> buf[j] == old(buf[j])
    {
      hide ReadyBooks.Kept, Scheduler.Linked, Scheduler.Abs, Scheduler.ProcsBelow, Listed, Reports;
      hide Scheduler.Sizes, Scheduler.KnownOrNull;
      ReportsFrom(sched.Abs().procs, MAX_PROCESSES);
      if maxCount <= 0 {
        return 0;
      }
      ghost var procs := sched.Abs().procs;
      ghost var done: seq<Info> := [];
      assert done + Reports(procs, 0) == Reports(procs, 0);
      count := 0;
      var i := 0;
      while i < MAX_PROCESSES && count < maxCount
        invariant 0 <= i <= MAX_PROCESSES && count <= maxCount
        invariant sched.Valid() && sched.Abs() == old(sched.Abs())
        invariant |done| == count && forall j :: 0 <= j < count ==> buf[j] == done[j]
        invariant done + Reports(procs, i) == Reports(procs, 0)
        invariant forall j :: count <= j < buf.Length ==> buf[j] == old(buf[j])
      {
        var live, report := ReportOn(i);
        ReportsFrom(procs, i);
        if live {
          buf[count] := report;
          count := count + 1;
          assert done + ([report] + Reports(procs, i + 1)) == done + [report] + Reports(procs, i + 1);
          done := done + [report];
        }
        i := i + 1;
      }
    }

    method ReportOn(i: nat) returns (live: bool, report: Info)
      requires sched.Valid() && i < MAX_PROCESSES
      ensures var p := sched.Abs().procs[i]; live == (p.pid > 0 && p.state != Killed) && report == InfoOf(p)
    {
      hide ReadyBooks.Kept, Scheduler.Linked;
      var p := sched.table[i];
      live := p.pid > 0 && p.state != Killed;
      report := Info(p.pid, p.priority, p.state);
    }

    /** `pipe_close` */
    method PipeClose(id: int, side: int) returns (rc: int)
      requires Ready()
      modifies pipes, waiting, sched`books, sched.heads, sched.table`next, sched.table`prev, sched.table`state
      ensures Ready() && rc == if 0 <= id < Q.MAX_PIPES && old(Table())[id].active then 0 else -1
      ensures Table() == R.After(old(Table()), R.CloseCall(id, side))
      ensures W() == if rc == 0 && Q.Announces(old(Table())[id], side) then Notified(old(W()), id) else old(W())
    {
      hide Orderly, ReadyBooks.Kept, Scheduler.Linked, Separate, TableBelow, Notified, Scheduler.ProcsBelow;
      hide Scheduler.Abs, Ring;
      if id < 0 || id >= Q.MAX_PIPES {
        return -1;
      }
      var p := pipes[id];
      if !p.active {
        return -1;
      }
      var tell := CloseOneEnd(id, side);
      if tell {
        PipeNotify(id);
      }
      GiveUp(id);
      return 0;
    }

    method CloseOneEnd(id: nat, side: int) returns (tell: bool)
      requires Valid() && sched.Valid() && id < Q.MAX_PIPES
      modifies pipes
      ensures Valid() && sched.Valid() && W() == old(W()) && tell == Q.Announces(old(Table())[id], side)
      ensures Table() == old(Table())[id := Q.EndClosed(old(Table())[id], side)]
    {
      hide ReadyBooks.Kept, Scheduler.Linked, Separate, TableBelow, Scheduler.ProcsBelow, Ring;
      tell := pipes[id].CloseEnd(side);
      OneChanged(id);
    }

    method GiveUp(id: nat)
      requires Valid() && sched.Valid() && id < Q.MAX_PIPES
      modifies pipes
      ensures Valid() && sched.Valid() && W() == old(W())
      ensures var p := old(Table())[id];
              Table() == old(Table())[id := if p.writeOpen == 0 && p.readOpen == 0
                                            then p.(active := false, name := "") else p]
    {
      hide ReadyBooks.Kept, Scheduler.Linked, Separate, TableBelow, Scheduler.ProcsBelow, Ring;
      pipes[id].GiveUpIfClosed();
      OneChanged(id);
    }

    /**
     `pipe_read` from its beginning, or, when the process was woken, from its loop on: the answer is known, or bytes
     are taken and whoever sleeps on the pipe is told, or the process sleeps on it and the next timer interrupt switches
     away from it. If the timer cuts in once the bytes are taken, `PipeNotify` is still to come.
    */
    method PipeRead(id: int, out: array<char>, n: nat, resumed: bool, cut: bool, ghost idle: nat) returns (pass: Q.Pass)
      requires Ready() && n <= out.Length && out !in pool && (resumed ==> 0 <= id < Q.MAX_PIPES && n > 0)
      requires Idle(sched.Abs(), idle) && sched.current != null && sched.current.slot != idle
      modifies pipes, out, waiting, sched, sched.heads, sched.table
      ensures Valid() && sched.Valid()
      ensures pass == if 0 <= id < Q.MAX_PIPES then Q.ReadStep(old(Table())[id], n, resumed) else Q.Refused
      ensures Table() == R.After(old(Table()), R.ReadCall(id, n, resumed))
      ensures pass.Went? ==> pass.n <= n && out[..pass.n] == R.Took(old(Table()), id, n, resumed)
      ensures forall j :: (if pass.Went? then pass.n else 0) <= j < out.Length ==> out[j] == old(out[j])
      ensures W() == match pass
                     case Went(_) => if cut then old(W()) else Notified(old(W()), id)
                     case Parks => Waiters(Park(old(sched.Abs())), old(waiting[..])[old(sched.current.slot) := id])
                     case _ => old(W())
      ensures pass.Went? ==> Ready()
    {
      hide Orderly, ReadyBooks.Kept, Scheduler.Linked, Separate, TableBelow, Park, Scheduler.ProcsBelow, Ring, Notified;
      UnreadStays(Table(), id, n, resumed);
      if id < 0 || id >= Q.MAX_PIPES {
        return Q.Refused;
      }
      var p := pipes[id];
      if !resumed {
        if !p.active || p.readOpen <= 0 {
          return Q.Refused;
        }
        if n == 0 {
          return Q.Nothing;
        }
      }
      pass := ReadNow(id, out, n, resumed, cut, idle);
    }

    /** `pipe_read` from its loop on. */
    method ReadNow(id: nat, out: array<char>, n: nat, ghost resumed: bool, cut: bool, ghost idle: nat)
      returns (pass: Q.Pass)
      requires Ready() && id < Q.MAX_PIPES && 0 < n <= out.Length && out !in pool
      requires Q.ReadStep(Table()[id], n, resumed) == Q.ReadPass(Table()[id], n)
      requires Idle(sched.Abs(), idle) && sched.current != null && sched.current.slot != idle
      modifies pipes, out, waiting, sched, sched.heads, sched.table
      ensures Valid() && sched.Valid() && (pass.Went? ==> Ready())
      ensures pass == Q.ReadStep(old(Table())[id], n, resumed)
      ensures Table() == R.After(old(Table()), R.ReadCall(id, n, resumed))
      ensures pass.Went? ==> pass.n <= n && out[..pass.n] == R.Took(old(Table()), id, n, resumed)
      ensures forall j :: (if pass.Went? then pass.n else 0) <= j < out.Length ==> out[j] == old(out[j])
      ensures W() == match pass
                     case Went(_) => if cut then old(W()) else Notified(old(W()), id)
                     case Parks => Waiters(Park(old(sched.Abs())), old(waiting[..])[old(sched.current.slot) := id])
                     case _ => old(W())
    {
      hide Orderly, ReadyBooks.Kept, Scheduler.Linked, Separate, TableBelow, Park, Scheduler.ProcsBelow, Ring, Notified;
      hide R.After, R.Took, Scheduler.Abs, At;
      UnreadStays(Table(), id, n, resumed);
      var p := pipes[id];
      assert Table()[id] == p.Abs();
      if p.count > 0 {
        var got := TakeFrom(id, out, n, resumed);
        if !cut {
          PipeNotify(id);
        }
        return Q.Went(got);
      }
      if p.writeOpen == 0 {
        return Q.AtEnd;
      }
      SleepOn(id, idle);
      return Q.Parks;
    }

    /** The critical section of `pipe_read`, seen in the table. */
    method TakeFrom(id: nat, out: array<char>, n: nat, ghost resumed: bool) returns (got: nat)
      requires Ready() && id < Q.MAX_PIPES && n <= out.Length && out !in pool
      requires Q.ReadStep(Table()[id], n, resumed).Went?
      modifies pipes, out
      ensures Ready() && W() == old(W())
      ensures Q.ReadStep(old(Table())[id], n, resumed) == Q.Went(got) && got <= n
      ensures Table() == R.After(old(Table()), R.ReadCall(id, n, resumed))
      ensures out[..got] == R.Took(old(Table()), id, n, resumed)
      ensures forall j :: got <= j < out.Length ==> out[j] == old(out[j])
    {
      hide Orderly, ReadyBooks.Kept, Scheduler.Linked, Separate, TableBelow, Scheduler.ProcsBelow, Ring;
      var p := pipes[id];
      got := p.Take(out, n);
      OneChanged(id);
      assert out[..got] == old(Table())[id].data[..got];
    }

    /**
     `pipe_write` from its beginning, or, when the process was woken or interrupted after `from` bytes, from its loop
     on.
     The timer interrupts it after `turn` more bytes. When all bytes are in, and it is not interrupted then, whoever
     sleeps on the pipe is told.
    */
    method PipeWrite(id: int, buf: array<char>, count: nat, from: nat, turn: nat, resumed: bool, ghost idle: nat)
      returns (written: nat, pass: Q.Pass)
      requires Ready() && from <= count <= buf.Length && buf !in pool
      requires if resumed then 0 <= id < Q.MAX_PIPES else from == 0
      requires Idle(sched.Abs(), idle) && sched.current != null && sched.current.slot != idle
      modifies pipes, pool, waiting, sched, sched.heads, sched.table
      ensures Valid() && sched.Valid()
      ensures pass == if 0 <= id < Q.MAX_PIPES then Q.WriteStep(old(Table())[id], count - from, turn, resumed)
                      else Q.Refused
      ensures written == if 0 <= id < Q.MAX_PIPES then from + Q.Accepted(old(Table())[id], count - from, turn, resumed)
                         else 0
      ensures pass.Went? ==> written == count
      ensures forall w :: Table() == R.After(old(Table()), R.WriteCall(id, w, buf[from..count], turn, resumed))
      ensures W() == match pass
                     case Went(_) => Notified(old(W()), id)
                     case Parks => Waiters(Park(old(sched.Abs())), old(waiting[..])[old(sched.current.slot) := id])
                     case _ => old(W())
    {
      hide Orderly, ReadyBooks.Kept, Scheduler.Linked, Separate, TableBelow, Park, Scheduler.ProcsBelow, Ring, Notified;
      hide Scheduler.Abs, Q.WriteStep, Q.Accepted, R.After, At, R.Grown, Fixed;
      ghost var rest := buf[from..count];
      UnwrittenStays(Table(), id, rest, turn, resumed);
      if id < 0 || id >= Q.MAX_PIPES {
        return 0, Q.Refused;
      }
      if !resumed {
        WriteEntry(Table()[id], count, turn);
        var active := IsActive(id);
        if !active {
          return 0, Q.Refused;
        }
        if count == 0 {
          return 0, Q.Nothing;
        }
      }
      written, pass := WriteRest(id, buf, count, from, turn, resumed, rest);
      TellOrSleep(id, pass, idle);
    }

    /** What a write does when its loop has stopped. */
    method TellOrSleep(id: nat, pass: Q.Pass, ghost idle: nat)
      requires Ready()
      requires Idle(sched.Abs(), idle) && sched.current != null && sched.current.slot != idle
      modifies waiting, sched, sched.heads, sched.table
      ensures Valid() && sched.Valid() && Table() == old(Table())
      ensures W() == match pass
                     case Went(_) => Notified(old(W()), id)
                     case Parks => Waiters(Park(old(sched.Abs())), old(waiting[..])[old(sched.current.slot) := id])
                     case _ => old(W())
    {
      hide Orderly, ReadyBooks.Kept, Scheduler.Linked, Separate, TableBelow, Park, Scheduler.ProcsBelow, Ring, Notified;
      hide Scheduler.Abs, At;
      if pass.Went? {
        PipeNotify(id);
      } else if pass.Parks? {
        SleepOn(id, idle);
      }
    }

    method IsActive(id: nat) returns (active: bool)
      requires Valid() && id < Q.MAX_PIPES
      ensures active == Table()[id].active
    {
      assert Table()[id] == pipes[id].Abs();
      active := pipes[id].active;
    }

    /** `pipe_write` from its loop on, as a step of the table. */
    method WriteRest(id: nat, buf: array<char>, count: nat, from: nat, turn: nat, ghost resumed: bool,
                     ghost rest: string)
      returns (written: nat, pass: Q.Pass)
      requires Ready() && id < Q.MAX_PIPES && from <= count <= buf.Length && buf !in pool && rest == buf[from..count]
      requires resumed || (Table()[id].active && from < count)
      modifies pipes, pool
      ensures Ready() && W() == old(W()) && (pass.Went? ==> written == count)
      ensures pass == Q.WriteStep(old(Table())[id], |rest|, turn, resumed)
      ensures written == from + Q.Accepted(old(Table())[id], |rest|, turn, resumed)
      ensures forall w :: Table() == R.After(old(Table()), R.WriteCall(id, w, rest, turn, resumed))
    {
      hide Orderly, ReadyBooks.Kept, Scheduler.Linked, Separate, TableBelow, Scheduler.ProcsBelow, Ring;
      hide Q.WriteStep, Q.Accepted, R.After, R.Grown, Scheduler.Abs, Scheduler.Valid, W, At;
      AfterWrite(Table(), id, rest, turn, resumed);
      written, pass := WriteBytes(id, buf, count, from, turn, resumed, rest);
    }

    /** The loop of `pipe_write`. */
    method WriteBytes(id: nat, buf: array<char>, count: nat, from: nat, turn: nat, ghost resumed: bool,
                      ghost rest: string)
      returns (written: nat, pass: Q.Pass)
      requires Ready() && id < Q.MAX_PIPES && from <= count <= buf.Length && buf !in pool && rest == buf[from..count]
      requires resumed || (Table()[id].active && from < count)
      modifies pipes, pool
      ensures Ready() && W() == old(W()) && (pass.Went? ==> written == count)
      ensures pass == Q.WriteStep(old(Table())[id], |rest|, turn, resumed)
      ensures written == from + Q.Accepted(old(Table())[id], |rest|, turn, resumed)
      ensures from <= written <= count && Table() == R.Grown(old(Table()), id, rest[..written - from])
    {
      hide Orderly, ReadyBooks.Kept, Scheduler.Linked, Separate, TableBelow, Scheduler.ProcsBelow, Ring;
      hide Q.WriteStep, Q.Accepted, R.After, R.Grown, Scheduler.Abs, Scheduler.Valid, W, At, Valid, Fixed;
      ghost var t := Table();
      R.GrownTwice(t, id, "", "");
      assert rest[..0] == "";
      written := from;
      pass := Q.Nothing;
      var stop := false;
      while !stop
        invariant from <= written <= count && written - from <= Q.Accepted(t[id], |rest|, turn, resumed)
        invariant Ready() && W() == old(W()) && rest == buf[from..count]
        invariant Table() == R.Grown(t, id, rest[..written - from])
        invariant stop ==> pass == Q.WriteStep(t[id], |rest|, turn, resumed)
        invariant stop ==> written == from + Q.Accepted(t[id], |rest|, turn, resumed)
        invariant stop && pass.Went? ==> written == count
        decreases !stop, count - written
      {
        stop, pass := LoopCheck(id, count - from, turn, resumed, written - from, t, rest[..written - from]);
        if !stop {
          PutNext(id, buf, count, from, written, t, rest);
          written := written + 1;
        }
      }
    }

    /** The three tests at the head of the loops of `pipe_write`, when `k` bytes of this pass are in. */
    method LoopCheck(id: nat, left: nat, turn: nat, ghost resumed: bool, k: nat, ghost t: R.Table, ghost given: string)
      returns (stop: bool, pass: Q.Pass)
      requires Valid() && id < Q.MAX_PIPES == |t| && |given| == k && Table() == R.Grown(t, id, given)
      requires resumed || (t[id].active && left > 0)
      requires k <= Q.Accepted(t[id], left, turn, resumed)
      ensures stop ==> pass == Q.WriteStep(t[id], left, turn, resumed) && k == Q.Accepted(t[id], left, turn, resumed)
      ensures stop && pass.Went? ==> k == left
      ensures !stop ==> k + 1 <= Q.Accepted(t[id], left, turn, resumed) && |Table()[id].data| < Q.PIPE_BUF_SIZE
    {
      hide Separate, TableBelow, Ring, Q.WriteStep, Q.Accepted;
      var p := pipes[id];
      assert Table()[id] == p.Abs();
      WriteLoopAt(t[id], left, turn, resumed, k);
      if k == turn {
        return true, Q.Interrupted;
      }
      if k >= left {
        return true, Q.Went(left);
      }
      if p.readOpen == 0 {
        return true, Q.Refused;
      }
      if p.count >= Q.PIPE_BUF_SIZE {
        return true, Q.Parks;
      }
      return false, Q.Nothing;
    }

    /** The next byte of the call goes in. */
    method PutNext(id: nat, buf: array<char>, ghost count: nat, ghost from: nat, i: nat, ghost t: R.Table,
                   ghost rest: string)
      requires Ready() && id < Q.MAX_PIPES == |t| && from <= i < count <= buf.Length && buf !in pool
      requires rest == buf[from..count]
      requires Table() == R.Grown(t, id, rest[..i - from]) && |Table()[id].data| < Q.PIPE_BUF_SIZE
      modifies pipes, pool
      ensures Ready() && W() == old(W()) && rest == buf[from..count]
      ensures Table() == R.Grown(t, id, rest[..i + 1 - from])
    {
      hide Orderly, ReadyBooks.Kept, Scheduler.Linked, Separate, TableBelow, Scheduler.ProcsBelow, Ring;
      hide R.Grown, Scheduler.Abs, Scheduler.Valid, W, At;
      OneMore(buf[..], from, count, i);
      R.GrownTwice(t, id, rest[..i - from], [buf[i]]);
      assert buf[..][from..count] == rest;
      PutByte(id, buf, i);
    }

    /** The critical section of `pipe_write`, seen in the table. */
    method PutByte(id: nat, buf: array<char>, i: nat)
      requires Ready() && id < Q.MAX_PIPES && |Table()[id].data| < Q.PIPE_BUF_SIZE && i < buf.Length && buf !in pool
      modifies pipes, pool
      ensures Ready() && W() == old(W())
      ensures buf[..] == old(buf[..])
      ensures Table() == R.Grown(old(Table()), id, [buf[i]])
    {
      hide Orderly, ReadyBooks.Kept, Scheduler.Linked, Separate, TableBelow, Scheduler.ProcsBelow, Ring;
      pipes[id].Put(buf[i]);
      OneChanged(id);
    }

    /** The current process notes the pipe it waits for, becomes BLOCKED and is switched away from. */
    method SleepOn(id: int, ghost idle: nat)
      requires waiting.Length == MAX_PROCESSES && sched.Valid() && Orderly(sched.Abs()) && Idle(sched.Abs(), idle)
      requires sched.current != null && sched.current.slot != idle
      modifies waiting, sched, sched.heads, sched.table
      ensures sched.Valid() && sched.Abs() == Park(old(sched.Abs()))
      ensures waiting[..] == old(waiting[..])[old(sched.current.slot) := id]
    {
      hide Orderly, ReadyBooks.Kept, Scheduler.Linked, Park;
      waiting[sched.current.slot] := id;
      sched.ParkCurrent(idle);
    }
  }

  /** The name comparison of `pipe_open`, on zero-terminated strings. */
  method SameName(a: string, b: string) returns (same: bool)
    ensures same <==> a == b
  {
    var j := 0;
    while j < |a| && j < |b| && a[j] == b[j]
      invariant 0 <= j <= |a| && j <= |b|
      invariant a[..j] == b[..j]
    {
      j := j + 1;
    }
    if j == |a| && j == |b| {
      assert a == a[..j] && b == b[..j];
    }
    return j == |a| && j == |b|;
  }

  /** The name copy of `pipe_open`. */
  method CopyName(name: string) returns (dst: string)
    ensures dst == Q.Stored(name)
  {
    dst := "";
    var k := 0;
    while k < Q.PIPE_NAME_LEN - 1 && k < |name|
      invariant 0 <= k <= |name| && k <= Q.PIPE_NAME_LEN - 1
      invariant dst == name[..k]
    {
      dst := dst + [name[k]];
      k := k + 1;
    }
  }
}
