/** Runs of pipe calls over the whole table, and the life of each pipe in them. */
module PipeRuns {
  import opened PipeSpec

  /**
   A step of a pipe call. A read or write that was put to sleep goes on as a `resumed` step; `bytes` is what is left
   to write and `turn` how many bytes the timer lets pass.
  */
  datatype Call =
    | CreateCall
    | OpenCall(name: string)
    | CloseCall(id: int, side: int)
    | ReadCall(id: int, n: nat, resumed: bool)
    | WriteCall(id: int, writer: nat, bytes: string, turn: nat, resumed: bool)

  type Table = seq<Pipe<char>>

  function Created(t: Table): (t': Table)
    ensures |t'| == |t|
  {
    var f := FreeFrom(t, 0);
    if f >= 0 then t[f := Fresh()] else t
  }

  /** What a read of slot `id` takes out. */
  function Took(t: Table, id: nat, n: nat, resumed: bool): string
    requires id < |t|
  {
    var pass := ReadStep(t[id], n, resumed);
    if pass.Went? then t[id].data[..pass.n] else ""
  }

  /** What a write to slot `id` puts in. */
  function Gave(t: Table, id: nat, bytes: string, turn: nat, resumed: bool): string
    requires id < |t|
  {
    bytes[..Accepted(t[id], |bytes|, turn, resumed)]
  }

  /** The bytes of `s` are behind those that slot `id` held. */
  function Grown(t: Table, id: nat, s: string): (t': Table)
    requires id < |t|
    ensures |t'| == |t|
  {
    t[id := t[id].(data := t[id].data + s)]
  }

  lemma GrownTwice(t: Table, id: nat, a: string, b: string)
    requires id < |t|
    ensures Grown(t, id, "") == t && Grown(Grown(t, id, a), id, b) == Grown(t, id, a + b)
  {
    assert t[id].data + "" == t[id].data;
    assert t[id].data + a + b == t[id].data + (a + b);
  }

  function After(t: Table, c: Call): (t': Table)
    ensures |t'| == |t|
  {
    match c
    case CreateCall => Created(t)
    case OpenCall(name) => Opened(t, name)
    case CloseCall(id, side) => if 0 <= id < |t| && t[id].active then t[id := Closed(t[id], side)] else t
    case ReadCall(id, n, resumed) =>
      if 0 <= id < |t| then t[id := t[id].(data := t[id].data[|Took(t, id, n, resumed)|..])] else t
    case WriteCall(id, _, bytes, turn, resumed) =>
      if 0 <= id < |t| then Grown(t, id, Gave(t, id, bytes, turn, resumed)) else t
  }

  // ----- one slot -----

  /** Does the call begin a new pipe in slot `id`? */
  predicate Renews(t: Table, c: Call, id: nat) {
    && FreeFrom(t, 0) == id
    && (c.CreateCall? || (c.OpenCall? && NamedFrom(t, c.name, 0) < 0))
  }

  function Writes(writer: nat, bytes: string): (r: seq<Event>)
    decreases |bytes|
  {
    if bytes == "" then [] else [Write(writer, bytes[0])] + Writes(writer, bytes[1..])
  }

  function EventsOf(t: Table, c: Call, id: nat): seq<Event>
    requires id < |t|
  {
    match c
    case CreateCall => []
    case OpenCall(name) => if NamedFrom(t, name, 0) == id then [Reopen] else []
    case CloseCall(i, side) => if i == id then [Close(side)] else []
    case ReadCall(i, n, resumed) => if i == id then [if resumed then Resume(n) else Read(n)] else []
    case WriteCall(i, w, bytes, turn, resumed) => if i == id then Writes(w, Gave(t, id, bytes, turn, resumed)) else []
  }

  function Bytes(s: seq<Tagged>): (r: string)
    ensures |r| == |s| && forall i :: 0 <= i < |s| ==> r[i] == s[i].1
  {
    seq(|s|, i requires 0 <= i < |s| => s[i].1)
  }

  /** The pipe without the names of the writers. */
  function Plain(p: Pipe<Tagged>): Pipe<char> {
    Pipe(p.active, p.name, Bytes(p.data), p.writeOpen, p.readOpen)
  }

  function Tag(writer: nat, bytes: string): (r: seq<Tagged>)
    ensures |r| == |bytes| && forall i :: 0 <= i < |r| ==> r[i] == (writer, bytes[i])
  {
    seq(|bytes|, i requires 0 <= i < |bytes| => (writer, bytes[i]))
  }

  lemma PutOne(h: Life, writer: nat, b: char)
    requires h.pipe.readOpen != 0 && |h.pipe.data| < PIPE_BUF_SIZE
    ensures Live(h, Write(writer, b)) ==
            h.(pipe := h.pipe.(data := h.pipe.data + [(writer, b)]), sent := h.sent + [(writer, b)])
  {
  }

  lemma TagCons(s: seq<Tagged>, writer: nat, bytes: string)
    requires bytes != ""
    ensures s + Tag(writer, bytes) == s + [(writer, bytes[0])] + Tag(writer, bytes[1..])
  {
  }

  /** As many bytes as fit go in one after the other. */
  lemma {:induction false} WritesGoIn(h: Life, writer: nat, bytes: string)
    requires h.pipe.readOpen != 0 && |h.pipe.data| + |bytes| <= PIPE_BUF_SIZE
    ensures LiveAll(h, Writes(writer, bytes)) ==
            h.(pipe := h.pipe.(data := h.pipe.data + Tag(writer, bytes)), sent := h.sent + Tag(writer, bytes))
    decreases |bytes|
  {
    hide Live, Tag;
    if bytes == "" {
      assert h.pipe.data + [] == h.pipe.data && h.sent + [] == h.sent;
      assert Tag(writer, bytes) == [];
    } else {
      PutOne(h, writer, bytes[0]);
      WritesGoIn(Live(h, Write(writer, bytes[0])), writer, bytes[1..]);
      assert Writes(writer, bytes)[1..] == Writes(writer, bytes[1..]);
      TagCons(h.pipe.data, writer, bytes);
      TagCons(h.sent, writer, bytes);
    }
  }

  lemma NoEvent(h: Life)
    ensures LiveAll(h, []) == h
  {
  }

  lemma OneEvent(h: Life, e: Event)
    ensures LiveAll(h, [e]) == Live(h, e)
  {
    assert LiveAll(Live(h, e), []) == Live(h, e);
  }

  /** What one call takes out of, or puts into, slot `id`. */
  function TookIn(t: Table, c: Call, id: nat): string
    requires id < |t|
  {
    if c.ReadCall? && c.id == id then Took(t, id, c.n, c.resumed) else ""
  }

  function GaveIn(t: Table, c: Call, id: nat): string
    requires id < |t|
  {
    if c.WriteCall? && c.id == id then Gave(t, id, c.bytes, c.turn, c.resumed) else ""
  }

  /** `h` is a life of the pipe in slot `id`. */
  ghost predicate LifeOf(h: Life, t: Table, id: nat) {
    id < |t| && InTransit(h) && Plain(h.pipe) == t[id]
  }

  lemma ReadIsLife(h: Life, t: Table, id: nat, n: nat, resumed: bool)
    requires LifeOf(h, t, id)
    ensures var h' := Live(h, if resumed then Resume(n) else Read(n));
            && LifeOf(h', After(t, ReadCall(id, n, resumed)), id)
            && Bytes(h'.got) == Bytes(h.got) + Took(t, id, n, resumed) && h'.sent == h.sent
  {
    var e := if resumed then Resume(n) else Read(n);
    LiveKeeps(h, e);
    var pass := ReadStep(h.pipe, n, resumed);
    assert pass == ReadStep(t[id], n, resumed);
    if pass.Went? {
      assert Bytes(h.pipe.data[pass.n..]) == t[id].data[pass.n..];
      assert Bytes(h.got + h.pipe.data[..pass.n]) == Bytes(h.got) + t[id].data[..pass.n];
    } else {
      assert t[id].data[0..] == t[id].data;
      assert Bytes(h.got) + "" == Bytes(h.got);
    }
  }

  lemma WriteIsLife(h: Life, t: Table, id: nat, writer: nat, bytes: string, turn: nat, resumed: bool)
    requires LifeOf(h, t, id)
    ensures var h' := LiveAll(h, Writes(writer, Gave(t, id, bytes, turn, resumed)));
            && LifeOf(h', After(t, WriteCall(id, writer, bytes, turn, resumed)), id)
            && Bytes(h'.sent) == Bytes(h.sent) + Gave(t, id, bytes, turn, resumed) && h'.got == h.got
  {
    var given := Gave(t, id, bytes, turn, resumed);
    if given == "" {
      NoEvent(h);
      assert t[id].data + "" == t[id].data;
      assert Bytes(h.sent) + "" == Bytes(h.sent);
    } else {
      WritesGoIn(h, writer, given);
      TagBytes(h, writer, given);
    }
  }

  lemma TagBytes(h: Life, writer: nat, given: string)
    ensures Bytes(h.pipe.data + Tag(writer, given)) == Bytes(h.pipe.data) + given
    ensures Bytes(h.sent + Tag(writer, given)) == Bytes(h.sent) + given
    ensures h.got + (h.pipe.data + Tag(writer, given)) == h.got + h.pipe.data + Tag(writer, given)
  {
  }

  /** A call that does not begin a new pipe in the slot is a piece of the life of the pipe there. */
  lemma CallIsLife(h: Life, t: Table, c: Call, id: nat)
    requires LifeOf(h, t, id) && !Renews(t, c, id)
    ensures var h' := LiveAll(h, EventsOf(t, c, id));
            && LifeOf(h', After(t, c), id)
            && Bytes(h'.got) == Bytes(h.got) + TookIn(t, c, id)
            && Bytes(h'.sent) == Bytes(h.sent) + GaveIn(t, c, id)
  {
    assert Bytes(h.got) + "" == Bytes(h.got) && Bytes(h.sent) + "" == Bytes(h.sent);
    hide Bytes, Live, LiveAll, Took, Gave, Closed, InTransit;
    NoEvent(h);
    match c
    case CreateCall =>
    case OpenCall(name) =>
    case CloseCall(i, side) =>
    case ReadCall(i, n, resumed) =>
      if i == id {
        OneEvent(h, if resumed then Resume(n) else Read(n));
        ReadIsLife(h, t, id, n, resumed);
      }
    case WriteCall(i, writer, bytes, turn, resumed) =>
      if i == id {
        WriteIsLife(h, t, id, writer, bytes, turn, resumed);
      }
  }

  // ----- runs -----

  ghost predicate IsRun(states: seq<Table>, calls: seq<Call>) {
    && |states| == |calls| + 1
    && (forall i :: 0 <= i < |states| ==> |states[i]| == MAX_PIPES)
    && forall i :: 0 <= i < |calls| ==> states[i + 1] == After(states[i], calls[i])
  }

  /** The calls from `m` up to `n` begin no new pipe in slot `id`. */
  ghost predicate SamePipe(states: seq<Table>, calls: seq<Call>, id: nat, m: nat, n: nat)
    requires n <= |calls| <= |states|
  {
    forall i :: m <= i < n ==> !Renews(states[i], calls[i], id)
  }

  function RunEvents(states: seq<Table>, calls: seq<Call>, id: nat, m: nat, n: nat): seq<Event>
    requires m <= n <= |calls| <= |states| && forall i :: 0 <= i < |states| ==> id < |states[i]|
  {
    if n == m then [] else RunEvents(states, calls, id, m, n - 1) + EventsOf(states[n - 1], calls[n - 1], id)
  }

  /** Everything the calls from `m` up to `n` took out of slot `id`, in order. */
  function AllTaken(states: seq<Table>, calls: seq<Call>, id: nat, m: nat, n: nat): string
    requires m <= n <= |calls| <= |states| && forall i :: 0 <= i < |states| ==> id < |states[i]|
  {
    if n == m then "" else AllTaken(states, calls, id, m, n - 1) + TookIn(states[n - 1], calls[n - 1], id)
  }

  /** Everything the calls from `m` up to `n` put into slot `id`, in order. */
  function AllGiven(states: seq<Table>, calls: seq<Call>, id: nat, m: nat, n: nat): string
    requires m <= n <= |calls| <= |states| && forall i :: 0 <= i < |states| ==> id < |states[i]|
  {
    if n == m then "" else AllGiven(states, calls, id, m, n - 1) + GaveIn(states[n - 1], calls[n - 1], id)
  }

  lemma {:induction false} LiveConcat(h: Life, a: seq<Event>, b: seq<Event>)
    ensures LiveAll(h, a + b) == LiveAll(LiveAll(h, a), b)
    decreases |a|
  {
    hide Live;
    if a == [] {
      assert a + b == b;
    } else {
      LiveConcat(Live(h, a[0]), a[1..], b);
      assert (a + b)[1..] == a[1..] + b;
    }
  }

  /** The life of a pipe that nobody has used yet. */
  function NewLife(p: Pipe<char>): Life {
    Life(Pipe(p.active, p.name, [], p.writeOpen, p.readOpen), [], [])
  }

  /** No byte has gone in or out; the slot may also be free, as at the start. */
  predicate Unused(p: Pipe<char>) {
    && p.data == "" && p.writeOpen >= 0 && p.readOpen >= 0
    && (!p.active ==> p.writeOpen == 0 && p.readOpen == 0)
  }

  lemma {:induction false} RunIsLife(states: seq<Table>, calls: seq<Call>, id: nat, m: nat, n: nat)
    requires IsRun(states, calls) && id < MAX_PIPES && m <= n < |states|
    requires SamePipe(states, calls, id, m, n) && Unused(states[m][id])
    ensures var end := LiveAll(NewLife(states[m][id]), RunEvents(states, calls, id, m, n));
            && LifeOf(end, states[n], id)
            && Bytes(end.got) == AllTaken(states, calls, id, m, n)
            && Bytes(end.sent) == AllGiven(states, calls, id, m, n)
    decreases n
  {
    hide After, EventsOf, Live, LiveAll, LifeOf, NewLife, Bytes, Unused, Renews, TookIn, GaveIn;
    var start := NewLife(states[m][id]);
    if n == m {
      NoEvent(start);
      NewLifeIsLife(states[m], id);
    } else {
      RunIsLife(states, calls, id, m, n - 1);
      var before := RunEvents(states, calls, id, m, n - 1);
      LiveConcat(start, before, EventsOf(states[n - 1], calls[n - 1], id));
      CallIsLife(LiveAll(start, before), states[n - 1], calls[n - 1], id);
    }
  }

  /**
   In every run of pipe calls, as long as slot `id` holds the same pipe: what the reads took out, then what is in the
   buffer, is what the writes put in; and each writer's bytes come out in its order.
  */
  lemma RunIsFifo(states: seq<Table>, calls: seq<Call>, id: nat, m: nat, n: nat, writer: nat)
    requires IsRun(states, calls) && id < MAX_PIPES && m <= n < |states|
    requires SamePipe(states, calls, id, m, n) && Unused(states[m][id])
    ensures AllGiven(states, calls, id, m, n) == AllTaken(states, calls, id, m, n) + states[n][id].data
    ensures var end := LiveAll(NewLife(states[m][id]), RunEvents(states, calls, id, m, n));
            By(end.got, writer) <= By(end.sent, writer)
  {
    hide Live, LiveAll, By, LifeOf, Bytes, InTransit, RunEvents, AllTaken, AllGiven, Unused, NewLife;
    RunIsLife(states, calls, id, m, n);
    var start := NewLife(states[m][id]);
    NewLifeIsLife(states[m], id);
    PipeFifo(start, RunEvents(states, calls, id, m, n), writer);
    LifeBytes(LiveAll(start, RunEvents(states, calls, id, m, n)), states[n], id);
  }

  lemma NewLifeIsLife(t: Table, id: nat)
    requires id < |t| && Unused(t[id])
    ensures InTransit(NewLife(t[id])) && LifeOf(NewLife(t[id]), t, id)
    ensures Bytes(NewLife(t[id]).got) == Bytes(NewLife(t[id]).sent) == ""
  {
  }

  lemma LifeBytes(h: Life, t: Table, id: nat)
    requires LifeOf(h, t, id)
    ensures Bytes(h.sent) == Bytes(h.got) + t[id].data
  {
    assert Bytes(h.got + h.pipe.data) == Bytes(h.got) + Bytes(h.pipe.data);
  }

  /**
   A call that sleeps keeps its slot, not its pipe. If both ends are closed and the slot is used again before the
   reader runs, the woken read takes what was written to the new pipe.
  */
  lemma WokenReadTakesNewPipe(t: Table, id: nat, n: nat, writer: nat, b: char)
    requires id < |t| && forall j :: 0 <= j < |t| ==> t[j].active
    requires t[id].data == "" && t[id].writeOpen == 1 && t[id].readOpen == 1 && n > 0
    ensures ReadStep(t[id], n, false) == Parks
    ensures var closed := After(After(t, CloseCall(id, 1)), CloseCall(id, 0));
            var t' := After(After(closed, CreateCall), WriteCall(id, writer, [b], 1, false));
            Renews(closed, CreateCall, id) && Took(t', id, n, true) == [b]
  {
    var closed := After(After(t, CloseCall(id, 1)), CloseCall(id, 0));
    assert !closed[id].active && forall j :: 0 <= j < |t| && j != id ==> closed[j] == t[j];
    assert FreeFrom(closed, 0) == id;
  }

  // ----- whose bytes a call takes -----

  /** The call among the first `n` behind which the present pipe of slot `id` begins; 0 if none has begun one. */
  function Began(states: seq<Table>, calls: seq<Call>, id: nat, n: nat): (m: nat)
    requires n <= |calls| <= |states|
    ensures m <= n
  {
    if n == 0 then 0 else if Renews(states[n - 1], calls[n - 1], id) then n else Began(states, calls, id, n - 1)
  }

  lemma {:induction false} BeganIsLast(states: seq<Table>, calls: seq<Call>, id: nat, n: nat)
    requires n <= |calls| <= |states|
    ensures var m := Began(states, calls, id, n);
            && (m > 0 ==> Renews(states[m - 1], calls[m - 1], id))
            && forall i: nat :: m <= i < n ==> !Renews(states[i], calls[i], id)
  {
    if n > 0 {
      BeganIsLast(states, calls, id, n - 1);
    }
  }

  /** Between two moments the slot holds the same pipe exactly when no call in between has begun a new one. */
  lemma SamePipeIff(states: seq<Table>, calls: seq<Call>, id: nat, i: nat, j: nat)
    requires i <= j <= |calls| <= |states|
    ensures Began(states, calls, id, i) == Began(states, calls, id, j) <==>
            forall m: nat :: i <= m < j ==> !Renews(states[m], calls[m], id)
  {
    BeganIsLast(states, calls, id, i);
    BeganIsLast(states, calls, id, j);
    var b := Began(states, calls, id, j);
    if b > i {
      assert Renews(states[b - 1], calls[b - 1], id);
    }
    if forall m: nat :: i <= m < j ==> !Renews(states[m], calls[m], id) {
      BeganStays(states, calls, id, i, j);
    }
  }

  lemma {:induction false} BeganStays(states: seq<Table>, calls: seq<Call>, id: nat, i: nat, j: nat)
    requires i <= j <= |calls| <= |states| && forall m: nat :: i <= m < j ==> !Renews(states[m], calls[m], id)
    ensures Began(states, calls, id, i) == Began(states, calls, id, j)
    decreases j
  {
    if i < j {
      BeganStays(states, calls, id, i, j - 1);
    }
  }

  lemma RenewedIsUnused(t: Table, c: Call, id: nat)
    requires id < |t| && Renews(t, c, id)
    ensures Unused(After(t, c)[id]) && After(t, c)[id].active
  {
  }

  /**
   What a call on slot `id` takes at any moment of any run, be it a fresh read or a woken one, are the oldest bytes put
   into the pipe that the slot holds then, since that pipe began, that nobody has taken. So a woken read that began at
   moment `i` takes bytes of the pipe it began on exactly when no call in between has begun a new pipe in the slot.
  */
  lemma TakenFromPresentPipe(states: seq<Table>, calls: seq<Call>, id: nat, i: nat, j: nat)
    requires IsRun(states, calls) && id < MAX_PIPES && i <= j <= |calls| && Unused(states[0][id])
    ensures var b := Began(states, calls, id, j);
            && AllGiven(states, calls, id, b, j) == AllTaken(states, calls, id, b, j) + states[j][id].data
            && (Began(states, calls, id, i) == b <==> SamePipe(states, calls, id, i, j))
  {
    var b := Began(states, calls, id, j);
    BeganIsLast(states, calls, id, j);
    SamePipeIff(states, calls, id, i, j);
    hide After, Renews, Unused;
    if b > 0 {
      RenewedIsUnused(states[b - 1], calls[b - 1], id);
      assert states[b - 1 + 1] == After(states[b - 1], calls[b - 1]);
    }
    RunIsFifo(states, calls, id, b, j, 0);
  }

  // ----- one end is closed, the other goes on -----

  /** The call leaves slot `id` to its readers: it reads there, closes a writers' end, or is about another slot. */
  predicate ReadersOnly(t: Table, c: Call, id: nat) {
    match c
    case CreateCall => FreeFrom(t, 0) != id
    case OpenCall(name) => OpenAt(t, name) != id
    case CloseCall(i, side) => i != id || side == 1
    case ReadCall(_, _, _) => true
    case WriteCall(i, _, _, _, _) => i != id
  }

  /** How often the first `n` calls close the writers' end of slot `id`. */
  function WriterCloses(calls: seq<Call>, id: nat, n: nat): nat
    requires n <= |calls|
  {
    if n == 0 then 0 else WriterCloses(calls, id, n - 1) + if calls[n - 1] == CloseCall(id, 1) then 1 else 0
  }

  lemma {:induction false} ReadersGoOn(states: seq<Table>, calls: seq<Call>, id: nat, n: nat)
    requires IsRun(states, calls) && id < MAX_PIPES && n < |states|
    requires states[0][id].active && states[0][id].readOpen > 0 && states[0][id].writeOpen >= 0
    requires forall i :: 0 <= i < n ==> ReadersOnly(states[i], calls[i], id)
    ensures var p, p0, closes := states[n][id], states[0][id], WriterCloses(calls, id, n);
            && p.active && p.readOpen == p0.readOpen
            && p.writeOpen == (if closes < p0.writeOpen then p0.writeOpen - closes else 0)
            && AllTaken(states, calls, id, 0, n) + p.data == p0.data
  {
    hide After, ReadersOnly, TookIn;
    if n == 0 {
      assert "" + states[0][id].data == states[0][id].data;
    } else {
      ReadersGoOn(states, calls, id, n - 1);
      ReadersStep(states[n - 1], calls[n - 1], id);
      assert states[n - 1 + 1] == After(states[n - 1], calls[n - 1]);
      Regroup(AllTaken(states, calls, id, 0, n - 1), TookIn(states[n - 1], calls[n - 1], id), states[n][id].data);
    }
  }

  lemma Regroup(a: string, b: string, c: string)
    ensures a + (b + c) == (a + b) + c
  {
  }

  /**
   In every run in which nobody writes to a pipe any more and only its writers close it, the readers go on undisturbed:
   the reads take exactly the bytes that were buffered, in order and as long as there are any, and answer 0 exactly when
   they have taken all and the last writer has closed.
  */
  lemma ReadersDrain(states: seq<Table>, calls: seq<Call>, id: nat, n: nat, m: nat, resumed: bool)
    requires IsRun(states, calls) && id < MAX_PIPES && n < |states| && m > 0
    requires states[0][id].active && states[0][id].readOpen > 0 && states[0][id].writeOpen >= 0
    requires forall i :: 0 <= i < n ==> ReadersOnly(states[i], calls[i], id)
    ensures var all, buffered := AllTaken(states, calls, id, 0, n), states[0][id].data;
            && all <= buffered
            && Took(states[n], id, m, resumed) == buffered[|all|..|all| + Min(m, |buffered| - |all|)]
            && (ReadStep(states[n][id], m, resumed) == AtEnd <==>
                  all == buffered && WriterCloses(calls, id, n) >= states[0][id].writeOpen)
  {
    ReadersGoOn(states, calls, id, n);
    var all, p, buffered := AllTaken(states, calls, id, 0, n), states[n][id], states[0][id].data;
    hide ReadersOnly, After, AllTaken, WriterCloses;
    assert p.data == buffered[|all|..];
    assert p.data[..Min(m, |p.data|)] == buffered[|all|..|all| + Min(m, |buffered| - |all|)];
    assert all == buffered <==> p.data == [];
  }

  lemma ReadersStep(t: Table, c: Call, id: nat)
    requires id < |t| && ReadersOnly(t, c, id) && t[id].active && t[id].readOpen > 0
    ensures var p, p' := t[id], After(t, c)[id];
            && p'.active && p'.readOpen == p.readOpen
            && p'.writeOpen == (if c == CloseCall(id, 1) && p.writeOpen > 0 then p.writeOpen - 1 else p.writeOpen)
            && p.data == TookIn(t, c, id) + p'.data
  {
    ClosedIs(t[id], 1);
    match c
    case ReadCall(i, n, resumed) =>
      if i == id {
        var k := |Took(t, id, n, resumed)|;
        assert t[id].data == t[id].data[..k] + t[id].data[k..];
      }
    case _ => assert "" + t[id].data == t[id].data;
  }

  /** Once the readers have closed their end, every write that wants to put in a byte is refused and puts in none. */
  lemma WritersRefused(t: Table, id: nat, side: int, left: nat, turn: nat, resumed: bool)
    requires id < |t| && t[id].active && t[id].readOpen == 1 && side != 1 && left > 0 && turn > 0
    ensures var p := After(t, CloseCall(id, side))[id];
            WriteStep(p, left, turn, resumed) == Refused && Accepted(p, left, turn, resumed) == 0
    ensures Announces(t[id], side)
  {
    ClosedIs(t[id], side);
  }
}
