/** Kernel/pipes/pipe.c as values: pipes as queues, and the runs of one pipe. */
module PipeSpec {
  const MAX_PIPES: nat := 16
  const PIPE_BUF_SIZE: nat := 4096
  const PIPE_NAME_LEN: nat := 32

  datatype Pipe<T> = Pipe(active: bool, name: string, data: seq<T>, writeOpen: int, readOpen: int)

  // ----- the table -----

  function FreeFrom<T>(ps: seq<Pipe<T>>, i: nat): (r: int)
    requires i <= |ps|
    ensures r == -1 || i <= r < |ps|
    ensures r >= 0 ==> !ps[r].active
    ensures forall j :: i <= j < |ps| && (r < 0 || j < r) ==> ps[j].active
    decreases |ps| - i
  {
    if i == |ps| then -1 else if !ps[i].active then i else FreeFrom(ps, i + 1)
  }

  function NamedFrom<T>(ps: seq<Pipe<T>>, name: string, i: nat): (r: int)
    requires i <= |ps|
    ensures r == -1 || i <= r < |ps|
    ensures r >= 0 ==> ps[r].active && ps[r].name == name
    ensures forall j :: i <= j < |ps| && (r < 0 || j < r) ==> !(ps[j].active && ps[j].name == name)
    decreases |ps| - i
  {
    if i == |ps| then -1 else if ps[i].active && ps[i].name == name then i else NamedFrom(ps, name, i + 1)
  }

  function Stored(name: string): string {
    if |name| < PIPE_NAME_LEN then name else name[..PIPE_NAME_LEN - 1]
  }

  function Fresh<T>(): Pipe<T> {
    Pipe(true, "", [], 1, 1)
  }

  /** The pipe that an open of `name` answers: the first active one of that name, else the first free slot, else -1. */
  function OpenAt<T>(ps: seq<Pipe<T>>, name: string): (id: int)
    ensures -1 <= id < |ps|
  {
    var i := NamedFrom(ps, name, 0);
    if i >= 0 then i else FreeFrom(ps, 0)
  }

  /** Which slot that is, and the whole table after it. */
  lemma OpenedIs<T>(ps: seq<Pipe<T>>, name: string)
    ensures var id := OpenAt(ps, name);
            && (id >= 0 && ps[id].active ==>
                  ps[id].name == name && forall j :: 0 <= j < id ==> !(ps[j].active && ps[j].name == name))
            && (id >= 0 && !ps[id].active ==>
                  && (forall j :: 0 <= j < id ==> ps[j].active)
                  && (forall j :: 0 <= j < |ps| ==> !(ps[j].active && ps[j].name == name)))
            && (id < 0 ==> forall j :: 0 <= j < |ps| ==> ps[j].active && ps[j].name != name)
    ensures var id, ps' := OpenAt(ps, name), Opened(ps, name);
            && (forall j :: 0 <= j < |ps| && j != id ==> ps'[j] == ps[j])
            && (id >= 0 ==> ps'[id].active && ps'[id].name == if ps[id].active then name else Stored(name))
            && (id >= 0 && ps[id].active ==> ps'[id].data == ps[id].data && ps'[id].writeOpen == ps[id].writeOpen + 1
                                              && ps'[id].readOpen == ps[id].readOpen + 1)
            && (id >= 0 && !ps[id].active ==> ps'[id].data == [] && ps'[id].writeOpen == ps'[id].readOpen == 1)
  {
  }

  function Opened<T>(ps: seq<Pipe<T>>, name: string): (ps': seq<Pipe<T>>)
    ensures |ps'| == |ps|
  {
    var i := NamedFrom(ps, name, 0);
    if i >= 0 then ps[i := ps[i].(writeOpen := ps[i].writeOpen + 1, readOpen := ps[i].readOpen + 1)]
    else
      var f := FreeFrom(ps, 0);
      if f >= 0 then ps[f := Fresh().(name := Stored(name))] else ps
  }

  function LessOne(n: int): int {
    if n > 0 then n - 1 else n
  }

  /** The end counters after a close, before the pipe is perhaps given up. */
  function EndClosed<T>(p: Pipe<T>, side: int): Pipe<T> {
    if side == 1 then p.(writeOpen := LessOne(p.writeOpen)) else p.(readOpen := LessOne(p.readOpen))
  }

  /** Does the close call everybody who waits on the pipe? */
  predicate Announces<T>(p: Pipe<T>, side: int) {
    if side == 1 then LessOne(p.writeOpen) == 0 else LessOne(p.readOpen) == 0
  }

  function Closed<T>(p: Pipe<T>, side: int): Pipe<T> {
    var q := EndClosed(p, side);
    if q.writeOpen == 0 && q.readOpen == 0 then q.(active := false, name := "") else q
  }

  /**
   What a close does: side 1 is the writers' end, anything else the readers'. That counter goes down if it can, the
   other one and the bytes stay; the pipe is given up exactly when both are then 0, and everybody asleep on it is told
   exactly when the counter of the closed end is then 0.
  */
  lemma ClosedIs<T>(p: Pipe<T>, side: int)
    ensures var q := Closed(p, side);
            && q.data == p.data
            && q.writeOpen == (if side == 1 && p.writeOpen > 0 then p.writeOpen - 1 else p.writeOpen)
            && q.readOpen == (if side != 1 && p.readOpen > 0 then p.readOpen - 1 else p.readOpen)
            && (if q.writeOpen == 0 && q.readOpen == 0 then !q.active && q.name == ""
                else q.active == p.active && q.name == p.name)
            && (Announces(p, side) <==> (if side == 1 then q.writeOpen else q.readOpen) == 0)
  {
  }

  // ----- one end of a pipe -----

  /** How a call leaves its loop; a writer may also be interrupted before a byte, or before it tells the readers. */
  datatype Pass = Refused | Nothing | AtEnd | Went(n: nat) | Parks | Interrupted

  function Min(a: nat, b: nat): nat {
    if a < b then a else b
  }

  /** One pass of the loop of `pipe_read`: only the buffer and the writers count. */
  function ReadPass<T>(p: Pipe<T>, n: nat): Pass {
    if p.data != [] then Went(Min(n, |p.data|))
    else if p.writeOpen == 0 then AtEnd
    else Parks
  }

  /** `pipe_read` from its beginning, or, when it was woken, from its loop on. */
  function ReadStep<T>(p: Pipe<T>, n: nat, resumed: bool): Pass {
    if resumed then ReadPass(p, n)
    else if !p.active || p.readOpen <= 0 then Refused
    else if n == 0 then Nothing
    else ReadPass(p, n)
  }

  /** One pass of the inner loop of `pipe_write`, for one byte. */
  function WritePass<T>(p: Pipe<T>): Pass {
    if p.readOpen == 0 then Refused
    else if |p.data| < PIPE_BUF_SIZE then Went(1)
    else Parks
  }

  /** How many of the `left` bytes go in before the loop of `pipe_write` stops, if the timer lets `turn` bytes pass. */
  function Accepted<T>(p: Pipe<T>, left: nat, turn: nat, resumed: bool): (k: nat)
    ensures k <= left && k <= turn
    ensures |p.data| + k <= PIPE_BUF_SIZE || k == 0
  {
    if (!resumed && !p.active) || p.readOpen == 0 || |p.data| >= PIPE_BUF_SIZE then 0
    else Min(turn, Min(left, PIPE_BUF_SIZE - |p.data|))
  }

  /** `pipe_write` from its beginning, or from its loop on, with `left` bytes to go. */
  function WriteStep<T>(p: Pipe<T>, left: nat, turn: nat, resumed: bool): Pass {
    var k := Accepted(p, left, turn, resumed);
    if !resumed && !p.active then Refused
    else if !resumed && left == 0 then Nothing
    else if k == turn then Interrupted
    else if k == left then Went(left)
    else if p.readOpen == 0 then Refused
    else Parks
  }

  /** What a read of `n` bytes answers: as many of the buffered bytes as it asks for; it sleeps only on an empty one. */
  lemma ReadIs<T>(p: Pipe<T>, n: nat, resumed: bool)
    ensures var pass := ReadStep(p, n, resumed);
            && (pass == Refused <==> !resumed && (!p.active || p.readOpen <= 0))
            && (pass == Nothing <==> !resumed && p.active && p.readOpen > 0 && n == 0)
            && pass != Interrupted
            && (pass != Refused && pass != Nothing ==>
                  && (pass.Went? <==> p.data != [])
                  && (pass.Went? ==> pass.n <= n && pass.n <= |p.data| && (pass.n == n || pass.n == |p.data|))
                  && (pass == AtEnd <==> p.data == [] && p.writeOpen == 0)
                  && (pass == Parks <==> p.data == [] && p.writeOpen != 0))
  {
  }

  /** What a write with `left` bytes to go does: it goes on until they are in, the timer cuts in, or it cannot go on. */
  lemma WriteIs<T>(p: Pipe<T>, left: nat, turn: nat, resumed: bool)
    requires |p.data| <= 4096
    ensures var pass, k := WriteStep(p, left, turn, resumed), Accepted(p, left, turn, resumed);
            if !resumed && (!p.active || left == 0) then
              k == 0 && pass == if !p.active then Refused else Nothing
            else
              && k <= left && k <= turn && |p.data| + k <= 4096
              && (p.readOpen == 0 ==> k == 0)
              && (k == left || k == turn || p.readOpen == 0 || |p.data| + k == 4096)
              && (pass == Interrupted <==> k == turn)
              && (pass == Went(left) <==> k == left && k != turn)
              && (pass == Refused <==> k != left && k != turn && p.readOpen == 0)
              && (pass == Parks <==> k != left && k != turn && p.readOpen != 0)
  {
  }

  // ----- the life of one pipe -----

  /** What happens to a pipe from its creation until both ends are closed; bytes carry their writer. */
  datatype Event = Read(n: nat) | Resume(n: nat) | Write(writer: nat, byte: char) | Close(side: int) | Reopen

  type Tagged = (nat, char)

  /** `sent` and `got` are everything that ever went in and out. */
  datatype Life = Life(pipe: Pipe<Tagged>, sent: seq<Tagged>, got: seq<Tagged>)

  /** The oldest bytes come out, if the pass succeeds. */
  function Drawn(h: Life, pass: Pass): Life {
    if pass.Went? && pass.n <= |h.pipe.data| then
      h.(pipe := h.pipe.(data := h.pipe.data[pass.n..]), got := h.got + h.pipe.data[..pass.n])
    else h
  }

  function Live(h: Life, e: Event): (h': Life) {
    var p := h.pipe;
    match e
    case Read(n) => Drawn(h, ReadStep(p, n, false))
    case Resume(n) => Drawn(h, ReadStep(p, n, true))
    case Write(w, b) =>
      if WritePass(p) == Went(1) then h.(pipe := p.(data := p.data + [(w, b)]), sent := h.sent + [(w, b)]) else h
    case Close(side) => if p.active then h.(pipe := Closed(p, side)) else h
    case Reopen => if p.active then h.(pipe := p.(writeOpen := p.writeOpen + 1, readOpen := p.readOpen + 1)) else h
  }

  function LiveAll(h: Life, events: seq<Event>): Life
    decreases |events|
  {
    if events == [] then h else LiveAll(Live(h, events[0]), events[1..])
  }

  ghost predicate InTransit(h: Life) {
    && h.sent == h.got + h.pipe.data
    && |h.pipe.data| <= PIPE_BUF_SIZE
    && h.pipe.writeOpen >= 0 && h.pipe.readOpen >= 0
    && (!h.pipe.active ==> h.pipe.writeOpen == 0 && h.pipe.readOpen == 0)
  }

  function By(s: seq<Tagged>, writer: nat): seq<char>
    decreases |s|
  {
    if s == [] then [] else By(s[..|s| - 1], writer) + (if s[|s| - 1].0 == writer then [s[|s| - 1].1] else [])
  }

  lemma {:induction false} ByConcat(s: seq<Tagged>, t: seq<Tagged>, writer: nat)
    ensures By(s + t, writer) == By(s, writer) + By(t, writer)
    decreases |t|
  {
    if t == [] {
      assert s + t == s;
    } else {
      ByConcat(s, t[..|t| - 1], writer);
      assert (s + t)[..|s + t| - 1] == s + t[..|t| - 1];
    }
  }

  lemma LiveKeeps(h: Life, e: Event)
    requires InTransit(h)
    ensures InTransit(Live(h, e))
  {
    var p := h.pipe;
    if e.Read? || e.Resume? {
      var k := Min(e.n, |p.data|);
      assert p.data == p.data[..k] + p.data[k..];
    }
  }

  /**
   Over every interleaving of reads, writes, closes and opens: what came out, then what is buffered, is what went in;
   so each writer's bytes come out in its order.
  */
  lemma {:induction false} PipeFifo(h: Life, events: seq<Event>, writer: nat)
    requires InTransit(h)
    ensures InTransit(LiveAll(h, events))
    ensures var end := LiveAll(h, events); By(end.got, writer) <= By(end.sent, writer)
    decreases |events|
  {
    if events == [] {
      ByConcat(h.got, h.pipe.data, writer);
    } else {
      LiveKeeps(h, events[0]);
      PipeFifo(Live(h, events[0]), events[1..], writer);
    }
  }

  /**
   A read of at least one byte answers 0 exactly when its end is open, no writer is left and everything sent was read.
   A read that was woken does not look at its own end again: the two differ exactly when that end has been closed.
  */
  lemma EndOfFile(h: Life, n: nat)
    requires InTransit(h) && n > 0
    ensures ReadStep(h.pipe, n, false) == AtEnd <==>
            h.pipe.active && h.pipe.readOpen > 0 && h.pipe.writeOpen == 0 && h.got == h.sent
    ensures ReadStep(h.pipe, n, true) == AtEnd <==> h.pipe.writeOpen == 0 && h.got == h.sent
    ensures ReadStep(h.pipe, n, true) == ReadStep(h.pipe, n, false) <==> h.pipe.active && h.pipe.readOpen > 0
  {
    assert |h.sent| == |h.got| + |h.pipe.data|;
    if h.pipe.data == [] {
      assert h.got + h.pipe.data == h.got;
    }
  }
}
