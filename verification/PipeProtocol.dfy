/** Who sleeps on a pipe with one reader and one writer: Kernel/pipes/pipe.c, its blocking loops and `pipe_notify`. */
module PipeProtocol {
  import opened PipeSpec

  /** Where the reader stands in `pipe_read`. */
  datatype Reader = NotReading | Checking(want: nat) | Asleep(want: nat) | Calling

  /** Where the writer stands in `pipe_write`; `left` bytes are still to go in the present call. */
  datatype Writer = NotWriting | Filling(left: nat) | Stuck(left: nat) | Telling

  datatype Ends = Ends(count: nat, writeOpen: bool, readOpen: bool, reader: Reader, writer: Writer)

  datatype Move = StartRead(n: nat) | ReaderMoves | StartWrite(n: nat) | WriterMoves | CloseWrite | CloseRead

  function WakeReader(e: Ends): Ends {
    if e.reader.Asleep? then e.(reader := Checking(e.reader.want)) else e
  }

  function WakeWriter(e: Ends): Ends {
    if e.writer.Stuck? then e.(writer := Filling(e.writer.left)) else e
  }

  /** One atomic piece of the code of either end; a process that sleeps does not move. */
  function Moved(e: Ends, m: Move): Ends {
    match m
    case StartRead(n) => if e.reader.NotReading? && e.readOpen && n > 0 then e.(reader := Checking(n)) else e
    case ReaderMoves =>
      (match e.reader
       case Checking(n) =>
         if e.count > 0 then e.(count := e.count - Min(n, e.count), reader := Calling)
         else if !e.writeOpen then e.(reader := NotReading)
         else e.(reader := Asleep(n))
       case Calling => WakeWriter(e).(reader := NotReading)
       case _ => e)
    case StartWrite(n) => if e.writer.NotWriting? && e.writeOpen && n > 0 then e.(writer := Filling(n)) else e
    case WriterMoves =>
      (match e.writer
       case Filling(left) =>
         if !e.readOpen then e.(writer := NotWriting)
         else if e.count < PIPE_BUF_SIZE then
           e.(count := e.count + 1, writer := if left <= 1 then Telling else Filling(left - 1))
         else e.(writer := Stuck(left))
       case Telling => WakeReader(e).(writer := NotWriting)
       case _ => e)
    case CloseWrite => if e.writer.NotWriting? && e.writeOpen then WakeReader(e).(writeOpen := false) else e
    case CloseRead => if e.reader.NotReading? && e.readOpen then WakeWriter(e).(readOpen := false) else e
  }

  /** The reader's move is the pass of `pipe_read` over a pipe that holds `count` bytes. */
  lemma ReaderPassAgrees<T>(p: Pipe<T>, e: Ends, n: nat)
    requires e.reader == Checking(n)
    requires |p.data| == e.count && (e.writeOpen <==> p.writeOpen != 0)
    ensures var e' := Moved(e, ReaderMoves);
            match ReadPass(p, n)
            case Went(k) => e' == e.(count := e.count - k, reader := Calling)
            case AtEnd => e' == e.(reader := NotReading)
            case Parks => e' == e.(reader := Asleep(n))
            case _ => false
  {
  }

  /** The writer's move is one byte of `pipe_write`. */
  lemma WriterPassAgrees<T>(p: Pipe<T>, e: Ends, left: nat)
    requires left > 0 && e.writer == Filling(left)
    requires |p.data| == e.count && (e.readOpen <==> p.readOpen != 0)
    ensures var e' := Moved(e, WriterMoves);
            match WritePass(p)
            case Went(k) =>
              k == 1 && e' == e.(count := e.count + 1, writer := if left == 1 then Telling else Filling(left - 1))
            case Refused => e' == e.(writer := NotWriting)
            case Parks => e' == e.(writer := Stuck(left))
            case _ => false
  {
  }

  function Left(w: Writer): nat {
    match w
    case Filling(left) => left
    case Stuck(left) => left
    case _ => 0
  }

  predicate BothAsleep(e: Ends) {
    e.reader.Asleep? && e.writer.Stuck?
  }

  /** Wake-ups are not lost, as long as a call writes at most `limit` bytes. */
  predicate Awake(e: Ends, limit: nat) {
    && e.count <= PIPE_BUF_SIZE
    && Left(e.writer) <= limit
    && (e.writer.Filling? || e.writer.Stuck? ==> Left(e.writer) > 0)
    && (e.reader.Checking? || e.reader.Asleep? ==> e.reader.want > 0 && e.readOpen)
    // a sleeping reader: the writer is open, and bytes in the buffer are those of a call still short of its notify
    && (e.reader.Asleep? ==> e.writeOpen && e.count + Left(e.writer) <= limit)
    && (e.reader.Asleep? && e.count > 0 ==> !e.writer.NotWriting?)
    // a stuck writer: the reader is open, and room in the buffer comes from a read still short of its notify
    && (e.writer.Stuck? ==> e.writeOpen && e.readOpen)
    && (e.writer.Stuck? && e.count < PIPE_BUF_SIZE ==> e.reader.Calling?)
    && (!e.writer.NotWriting? ==> e.writeOpen)
  }

  lemma MoveKeepsAwake(e: Ends, m: Move, limit: nat)
    requires Awake(e, limit) && limit <= PIPE_BUF_SIZE
    requires m.StartWrite? ==> m.n <= limit
    ensures Awake(Moved(e, m), limit) && !BothAsleep(Moved(e, m))
  {
  }

  function MovedAll(e: Ends, moves: seq<Move>): Ends
    decreases |moves|
  {
    if moves == [] then e else MovedAll(Moved(e, moves[0]), moves[1..])
  }

  const START := Ends(0, true, true, NotReading, NotWriting)

  lemma {:induction false} RunKeepsAwake(e: Ends, moves: seq<Move>, limit: nat)
    requires Awake(e, limit) && limit <= PIPE_BUF_SIZE && !BothAsleep(e)
    requires forall i :: 0 <= i < |moves| && moves[i].StartWrite? ==> moves[i].n <= limit
    ensures Awake(MovedAll(e, moves), limit) && !BothAsleep(MovedAll(e, moves))
    decreases |moves|
  {
    if moves != [] {
      assert moves[0].StartWrite? ==> moves[0].n <= limit;
      MoveKeepsAwake(e, moves[0], limit);
      RunKeepsAwake(Moved(e, moves[0]), moves[1..], limit);
    }
  }

  // ----- a call that writes more than the buffer holds -----

  function Repeat(m: Move, n: nat): (r: seq<Move>)
    ensures |r| == n && forall i :: 0 <= i < n ==> r[i] == m
  {
    if n == 0 then [] else [m] + Repeat(m, n - 1)
  }

  lemma {:induction false} Fill(e: Ends, n: nat, left: nat)
    requires e.writer == Filling(left) && e.readOpen && e.count + n <= PIPE_BUF_SIZE && n < left
    ensures MovedAll(e, Repeat(WriterMoves, n)) == e.(count := e.count + n, writer := Filling(left - n))
    decreases n
  {
    if n > 0 {
      assert Repeat(WriterMoves, n)[1..] == Repeat(WriterMoves, n - 1);
      Fill(Moved(e, WriterMoves), n - 1, left - 1);
    }
  }

  lemma {:induction false} MovedConcat(e: Ends, a: seq<Move>, b: seq<Move>)
    ensures MovedAll(e, a + b) == MovedAll(MovedAll(e, a), b)
    decreases |a|
  {
    if a == [] {
      assert a + b == b;
    } else {
      assert (a + b)[1..] == a[1..] + b;
      MovedConcat(Moved(e, a[0]), a[1..], b);
    }
  }

  /** The reader sleeps on the empty pipe; the writer fills it and gets stuck, its notify still to come. */
  function Jam(n: nat): seq<Move> {
    [StartRead(1), ReaderMoves, StartWrite(n)] + Repeat(WriterMoves, PIPE_BUF_SIZE) + [WriterMoves]
  }

  lemma JamBlocks(n: nat)
    requires n > PIPE_BUF_SIZE
    ensures BothAsleep(MovedAll(START, Jam(n)))
  {
    var opening := [StartRead(1), ReaderMoves, StartWrite(n)];
    var e1 := Moved(START, StartRead(1));
    var e2 := Moved(e1, ReaderMoves);
    var e3 := Moved(e2, StartWrite(n));
    assert e3 == Ends(0, true, true, Asleep(1), Filling(n));
    assert opening[1..] == [ReaderMoves, StartWrite(n)] && opening[1..][1..] == [StartWrite(n)];
    assert MovedAll(e2, [StartWrite(n)]) == MovedAll(e3, []);
    assert MovedAll(START, opening) == e3;
    Fill(e3, PIPE_BUF_SIZE, n);
    var e4 := MovedAll(e3, Repeat(WriterMoves, PIPE_BUF_SIZE));
    MovedConcat(START, opening, Repeat(WriterMoves, PIPE_BUF_SIZE));
    MovedConcat(START, opening + Repeat(WriterMoves, PIPE_BUF_SIZE), [WriterMoves]);
    assert MovedAll(e4, [WriterMoves]) == MovedAll(Moved(e4, WriterMoves), []);
  }

  /** The two ends can never sleep on each other exactly when no call writes more than the buffer holds. */
  lemma NeverBothAsleep(limit: nat)
    ensures limit <= PIPE_BUF_SIZE <==>
            forall moves: seq<Move> ::
              (forall i :: 0 <= i < |moves| && moves[i].StartWrite? ==> moves[i].n <= limit) ==>
                !BothAsleep(MovedAll(START, moves))
  {
    if limit <= PIPE_BUF_SIZE {
      forall moves: seq<Move> | forall i :: 0 <= i < |moves| && moves[i].StartWrite? ==> moves[i].n <= limit
        ensures !BothAsleep(MovedAll(START, moves))
      {
        RunKeepsAwake(START, moves, limit);
      }
    } else {
      JamBlocks(limit);
      var moves := Jam(limit);
      forall i | 0 <= i < |moves| && moves[i].StartWrite?
        ensures moves[i].n <= limit
      {
      }
    }
  }
}
