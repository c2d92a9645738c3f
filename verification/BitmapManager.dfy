/** The bitmap memory manager: Kernel/memory/bitmap_mm.c. */
module BitmapManager {
  import opened BitWords
  import opened AllocatorSpec
  import Spec = AllocatorSpec

  const WORD: nat := 0x1_0000_0000_0000_0000

  // ----- runs of blocks -----

  /** A live run: block `start` holds the header, the next `len - 1` blocks belong to the caller. */
  type Runs = map<nat, nat>

  ghost predicate InRun(live: Runs, b: nat) {
    exists s :: s in live && s <= b < s + live[s]
  }

  /** No block is left to hand out. */
  ghost predicate AllTaken(live: Runs, total: nat) {
    forall b: nat :: b < total ==> InRun(live, b)
  }

  lemma NothingToTake(live: Runs)
    ensures AllTaken(live, 0)
  {
  }

  ghost predicate RunsOk(live: Runs, total: nat) {
    && (forall s :: s in live ==> 0 < live[s] && s + live[s] <= total)
    && (forall s, r :: s in live && r in live && s < r ==> s + live[s] <= r)
  }

  ghost predicate FreeRun(bits: seq<bool>, total: nat, i: nat, n: nat) {
    && i + n <= total <= |bits|
    && forall j :: i <= j < i + n ==> !bits[j]
  }

  /** `s` with `n` entries from `lo` set to `v`. */
  ghost function Fill(s: seq<bool>, lo: nat, n: nat, v: bool): (r: seq<bool>)
    requires lo + n <= |s|
    ensures |r| == |s|
    ensures forall j :: 0 <= j < |s| ==> r[j] == if lo <= j < lo + n then v else s[j]
  {
    s[..lo] + seq(n, _ => v) + s[lo + n..]
  }

  ghost function BlockAt(base: nat, live: Runs, s: nat): Block
    requires s in live
  {
    Block(base + Bytes(s + 1), base + Bytes(s), Bytes(live[s]))
  }

  ghost function BlocksOf(base: nat, live: Runs): set<Block> {
    set s | s in live :: BlockAt(base, live, s)
  }

  function Bytes(blocks: nat): nat {
    16 * blocks
  }

  lemma BlocksSeparated(base: nat, live: Runs, total: nat)
    requires RunsOk(live, total)
    ensures Separated(Arena(base, Bytes(total)), BlocksOf(base, live))
  {
    forall s | s in live
      ensures InArena(Arena(base, Bytes(total)), BlockAt(base, live, s))
    {
      UnitsAreMultiples(s);
      UnitsAreMultiples(s + 1);
      UnitsAreMultiples(live[s]);
    }
    forall s, r | s in live && r in live && BlockAt(base, live, s) != BlockAt(base, live, r)
      ensures Apart(BlockAt(base, live, s), BlockAt(base, live, r))
    {
      assert s < r || r < s;
    }
  }

  lemma AddRun(base: nat, live: Runs, total: nat, s: nat, n: nat)
    requires RunsOk(live, total) && RunsOk(live[s := n], total) && s !in live
    ensures BlocksOf(base, live[s := n]) == BlocksOf(base, live) + {BlockAt(base, live[s := n], s)}
    ensures BlockAt(base, live[s := n], s) !in BlocksOf(base, live)
    ensures Total(BlocksOf(base, live[s := n])) == Total(BlocksOf(base, live)) + Bytes(n)
  {
    var live' := live[s := n];
    forall r | r in live
      ensures BlockAt(base, live', r) == BlockAt(base, live, r) != BlockAt(base, live', s)
      ensures r in live'
    {
    }
    TotalInsert(BlocksOf(base, live), BlockAt(base, live', s));
  }

  lemma DropRun(base: nat, live: Runs, total: nat, s: nat)
    requires RunsOk(live, total) && s in live
    ensures RunsOk(live - {s}, total)
    ensures BlocksOf(base, live - {s}) == BlocksOf(base, live) - {BlockAt(base, live, s)}
    ensures BlockAt(base, live, s) in BlocksOf(base, live)
    ensures Total(BlocksOf(base, live - {s})) == Total(BlocksOf(base, live)) - Bytes(live[s])
  {
    var rest := live - {s};
    assert live == rest[s := live[s]];
    AddRun(base, rest, total, s, live[s]);
  }

  /** The run of a pointer is unique. */
  lemma PointerIsRun(base: nat, live: Runs, s: nat)
    ensures base + Bytes(s + 1) in Pointers(BlocksOf(base, live)) <==> s in live
  {
    if s in live {
      assert BlockAt(base, live, s) in BlocksOf(base, live);
    }
  }

  /** Marking a free run keeps the bits in step with the runs. */
  lemma MarkRun(bits: seq<bool>, live: Runs, total: nat, s: nat, n: nat)
    requires RunsOk(live, total) && 0 < n && FreeRun(bits, total, s, n)
    requires forall b :: 0 <= b < total ==> (bits[b] <==> InRun(live, b))
    ensures s !in live && RunsOk(live[s := n], total)
    ensures forall b :: 0 <= b < total ==> (Fill(bits, s, n, true)[b] <==> InRun(live[s := n], b))
  {
    assert !InRun(live, s);
    forall r | r in live
      ensures r + live[r] <= s || s + n <= r
    {
      if s < r < s + n {
        assert InRun(live, r);
      }
    }
    var live' := live[s := n];
    forall b | 0 <= b < total
      ensures Fill(bits, s, n, true)[b] <==> InRun(live', b)
    {
      if s <= b < s + n {
        assert s in live' && live'[s] == n;
      } else {
        if InRun(live, b) {
          var r :| r in live && r <= b < r + live[r];
          assert r in live' && live'[r] == live[r];
        }
        if InRun(live', b) {
          var r :| r in live' && r <= b < r + live'[r];
          assert r in live && live[r] == live'[r];
        }
      }
    }
  }

  lemma ClearRun(bits: seq<bool>, live: Runs, total: nat, s: nat)
    requires RunsOk(live, total) && s in live && total <= |bits|
    requires forall b :: 0 <= b < total ==> (bits[b] <==> InRun(live, b))
    ensures forall b :: 0 <= b < total ==> (Fill(bits, s, live[s], false)[b] <==> InRun(live - {s}, b))
  {
    forall b | 0 <= b < total
      ensures Fill(bits, s, live[s], false)[b] <==> InRun(live - {s}, b)
    {
      if InRun(live, b) {
        var r :| r in live && r <= b < r + live[r];
        assert r == s || r in live - {s};
      }
      if InRun(live - {s}, b) {
        var r :| r in live - {s} && r <= b < r + (live - {s})[r];
        assert r in live && (r < s || s < r);
      }
    }
  }

  lemma FillStep(s: seq<bool>, lo: nat, n: nat, v: bool)
    requires lo + n < |s|
    ensures Fill(s, lo, n, v)[lo + n := v] == Fill(s, lo, n + 1, v)
  {
  }

  /** `start` is the lowest run of `n` clear bits, or -1 when there is none. */
  ghost predicate LowestRun(bits: seq<bool>, total: nat, n: nat, start: int) {
    if start < 0 then forall i: nat :: !FreeRun(bits, total, i, n)
    else FreeRun(bits, total, start, n) && forall i: nat :: i < start ==> !FreeRun(bits, total, i, n)
  }

  ghost function SetBits(live: Runs, total: nat): set<nat> {
    set b: nat | b < total && InRun(live, b)
  }

  /** The sum of the live footprints is 16 bytes for every set bit. */
  lemma {:induction false} SetBitsCount(base: nat, live: Runs, total: nat)
    requires RunsOk(live, total)
    ensures Total(BlocksOf(base, live)) == Bytes(|SetBits(live, total)|)
    decreases |live|
  {
    hide Separated, InRun;
    if live == map[] {
      NoRuns();
      assert SetBits(live, total) == {};
    } else {
      var s :| s in live;
      var rest := live - {s};
      DropRun(base, live, total, s);
      SetBitsCount(base, rest, total);
      var run := Range(s, s + live[s]);
      assert SetBits(live, total) == SetBits(rest, total) + run by {
        SplitBits(live, total, s);
      }
      assert SetBits(rest, total) !! run by {
        SplitBits(live, total, s);
      }
    }
  }

  lemma NoRuns()
    ensures forall total :: SetBits(map[], total) == {} && RunsOk(map[], total)
    ensures forall b :: !InRun(map[], b)
    ensures forall base :: BlocksOf(base, map[]) == {}
    ensures Total({}) == 0
  {
  }

  lemma SplitBits(live: Runs, total: nat, s: nat)
    requires RunsOk(live, total) && s in live
    ensures forall b: nat :: InRun(live, b) <==> InRun(live - {s}, b) || s <= b < s + live[s]
    ensures forall b: nat :: InRun(live - {s}, b) ==> !(s <= b < s + live[s])
  {
    var rest := live - {s};
    forall b: nat
      ensures InRun(live, b) <==> InRun(rest, b) || s <= b < s + live[s]
      ensures InRun(rest, b) ==> !(s <= b < s + live[s])
    {
      if InRun(live, b) {
        var r :| r in live && r <= b < r + live[r];
        assert r == s || (r in rest && rest[r] == live[r]);
      }
      if InRun(rest, b) {
        var r :| r in rest && r <= b < r + rest[r];
        assert r in live && (r < s || s < r);
      }
    }
  }

  /** User blocks for a request, in 64-bit arithmetic. */
  function UserBlocks(size: nat): nat {
    (size + 15) % WORD / 16
  }

  lemma UserBlocksValue(size: nat)
    requires size < WORD
    ensures size <= WORD - 16 ==> 16 * UserBlocks(size) >= size && 16 * UserBlocks(size) < size + 16
    ensures size > WORD - 16 ==> UserBlocks(size) == 0
  {
  }

  /** Bytes the bitmap takes at the bottom of the heap. */
  function BitmapWords(heapSize: nat): nat {
    (heapSize / 16 + 31) / 32
  }

  function BitmapBytes(heapSize: nat): nat {
    (4 * BitmapWords(heapSize) + 15) / 16 * 16
  }

  lemma Layout(heapSize: nat)
    requires heapSize >= 32
    ensures BitmapBytes(heapSize) < heapSize
    ensures (heapSize - BitmapBytes(heapSize)) / 16 <= 32 * BitmapWords(heapSize)
    ensures 4 * BitmapWords(heapSize) <= BitmapBytes(heapSize)
    ensures (heapSize - BitmapBytes(heapSize)) / 16 >= 2 <==> heapSize >= 48
    ensures (heapSize - BitmapBytes(heapSize)) / 16 >= 1
  {
    var blocks, words := heapSize / 16, BitmapWords(heapSize);
    assert blocks <= 32 * words < blocks + 32;
    var units := (4 * words + 15) / 16;
    assert 16 * units < 4 * words + 16;
  }

  class Bitmap {
    var pool: nat
    var words: array<bv32>
    var blocksBase: nat
    var totalBlocks: nat
    var usedBlocks: nat
    /** First word of each 16-byte block: `hdr->nblocks` for a header, client data otherwise. */
    var firstWord: array<nat>
    ghost var live: Runs

    ghost predicate Ready()
      reads this, words, firstWord
    {
      && pool != 0
      && 0 < blocksBase
      && (words as object) != (firstWord as object)
      && totalBlocks <= 32 * words.Length
      && firstWord.Length == totalBlocks < 0x8000_0000
      && RunsOk(live, totalBlocks)
      && (forall b :: 0 <= b < totalBlocks ==> (Bits(words[..])[b] <==> InRun(live, b)))
      && (forall s :: s in live ==> firstWord[s] == live[s] - 1)
      && Bytes(usedBlocks) == Total(BlocksOf(blocksBase, live))
    }

    ghost predicate Valid()
      reads this, words, firstWord
    {
      if totalBlocks >= 2 then Ready() else live == map[] && usedBlocks == 0
    }

    ghost function TheArena(): Arena
      reads this
    {
      Arena(blocksBase, Bytes(totalBlocks))
    }

    ghost function Blocks(): set<Block>
      reads this
    {
      BlocksOf(blocksBase, live)
    }

    constructor ()
      ensures Valid() && totalBlocks == 0
    {
      pool, blocksBase, totalBlocks, usedBlocks := 0, 0, 0, 0;
      words := new bv32[0];
      firstWord := new nat[0];
      live := map[];
    }

    // ----- bits -----

    method BitmapSet(bit: nat)
      requires bit < 32 * words.Length
      modifies words
      ensures Bits(words[..]) == old(Bits(words[..]))[bit := true]
    {
      SetRefines(words[..], bit);
      words[bit / 32] := WithBit(words[bit / 32], Offset(bit % 32));
      assert words[..] == old(words[..])[bit / 32 := WithBit(old(words[..])[bit / 32], Offset(bit % 32))];
    }

    method BitmapClear(bit: nat)
      requires bit < 32 * words.Length
      modifies words
      ensures Bits(words[..]) == old(Bits(words[..]))[bit := false]
    {
      ClearRefines(words[..], bit);
      words[bit / 32] := WithoutBit(words[bit / 32], Offset(bit % 32));
      assert words[..] == old(words[..])[bit / 32 := WithoutBit(old(words[..])[bit / 32], Offset(bit % 32))];
    }

    method BitmapTest(bit: nat) returns (r: bool)
      requires bit < 32 * words.Length
      ensures r == Bits(words[..])[bit]
    {
      assert BitOf(words[..], bit) == HasBit(words[bit / 32], Offset(bit % 32));
      r := HasBit(words[bit / 32], Offset(bit % 32));
    }

    /** Start of the lowest run of `needed` clear bits, or -1. */
    method FirstFit(needed: nat) returns (start: int)
      requires totalBlocks <= 32 * words.Length
      ensures start == -1 || start >= 0
      ensures if needed == 0 then start == -1 else LowestRun(Bits(words[..]), totalBlocks, needed, start)
    {
      if needed == 0 || needed > totalBlocks {
        return -1;
      }
      var limit := totalBlocks - needed;
      ghost var bits := Bits(words[..]);
      var i := 0;
      while i <= limit
        invariant 0 <= i <= limit + 1
        invariant forall k: nat :: k < i ==> !FreeRun(bits, totalBlocks, k, needed)
      {
        var taken := BitmapTest(i);
        if !taken {
          var j := i + 1;
          while j < i + needed
            invariant i + 1 <= j <= i + needed
            invariant forall k :: i <= k < j ==> !bits[k]
          {
            taken := BitmapTest(j);
            if taken {
              break;
            }
            j := j + 1;
          }
          if j == i + needed {
            return i;
          }
        }
        i := i + 1;
      }
      return -1;
    }

    // ----- the manager -----

    method MmInit(heapStart: nat, heapSize: nat)
      requires heapSize < 0x8_0000_0000
      modifies this
      ensures Valid() && live == map[] && Blocks() == {} && usedBlocks == 0 && pool == heapStart
      ensures totalBlocks >= 2 <==> heapStart != 0 && heapSize >= 48
      ensures totalBlocks >= 2 ==>
                && blocksBase == heapStart + BitmapBytes(heapSize)
                && 4 * words.Length <= BitmapBytes(heapSize)
                && blocksBase + Bytes(totalBlocks) <= heapStart + heapSize < blocksBase + Bytes(totalBlocks + 1)
                && fresh(words) && fresh(firstWord)
    {
      hide InRun, Total, RunsOk, BlocksOf, Bits, BitmapWords, BitmapBytes;
      NoRuns();
      totalBlocks, usedBlocks := 0, 0;
      pool := heapStart;
      live := map[];
      if heapStart == 0 || heapSize < 32 {
        return;
      }
      var bitmapWords, bitmapBytes := BitmapSize(heapSize);
      Layout(heapSize);
      if bitmapBytes >= heapSize {
        assert false; // the source gives up here; the bitmap is always smaller than the heap
      }
      var available := heapSize - bitmapBytes;
      totalBlocks := available / 16;
      if totalBlocks < 2 {
        return; // 32..47 bytes: one block is left, and no request fits in it
      }
      words := new bv32[bitmapWords];
      blocksBase := heapStart + bitmapBytes;
      firstWord := new nat[totalBlocks];
      ClearWords();
    }

    /** Words and bytes of the bitmap, rounded up to whole blocks. */
    method BitmapSize(heapSize: nat) returns (bitmapWords: nat, bitmapBytes: nat)
      ensures bitmapWords == BitmapWords(heapSize) && bitmapBytes == BitmapBytes(heapSize)
    {
      var maxBlocks := heapSize / 16;
      bitmapWords := (maxBlocks + 31) / 32;
      bitmapBytes := bitmapWords * 4;
      if bitmapBytes % 16 != 0 {
        bitmapBytes := (bitmapBytes + 15) / 16 * 16;
      }
    }

    method ClearWords()
      modifies words
      ensures forall b :: 0 <= b < 32 * words.Length ==> !Bits(words[..])[b]
    {
      var i := 0;
      while i < words.Length
        invariant 0 <= i <= words.Length
        invariant forall k :: 0 <= k < i ==> words[k] == 0
      {
        words[i] := 0;
        i := i + 1;
      }
      ZeroWords(words[..]);
    }

    /** Set `n` bits from `start`. */
    method MarkBits(start: nat, n: nat)
      requires start + n <= 32 * words.Length
      modifies words
      ensures Bits(words[..]) == Fill(old(Bits(words[..])), start, n, true)
    {
      ghost var bits := Bits(words[..]);
      var i := 0;
      while i < n
        invariant 0 <= i <= n && Bits(words[..]) == Fill(bits, start, i, true)
      {
        FillStep(bits, start, i, true);
        BitmapSet(start + i);
        i := i + 1;
      }
    }

    /** Clear `n` bits from `start`. */
    method ClearBits(start: nat, n: nat)
      requires start + n <= 32 * words.Length
      modifies words
      ensures Bits(words[..]) == Fill(old(Bits(words[..])), start, n, false)
    {
      ghost var bits := Bits(words[..]);
      var i := 0;
      while i < n
        invariant 0 <= i <= n && Bits(words[..]) == Fill(bits, start, i, false)
      {
        FillStep(bits, start, i, false);
        BitmapClear(start + i);
        i := i + 1;
      }
    }

    /**
     First fit over header plus user blocks. The promise to the caller (`Step`) holds exactly when the
     rounding of the size does not wrap around 2^64, or when there is no block left to hand out by mistake.
    */
    method MmAlloc(size: nat) returns (ptr: nat, ghost start: int)
      requires Valid() && size < WORD
      requires totalBlocks == 1 ==> size <= WORD - 16
      modifies this`usedBlocks, this`live, words, firstWord
      ensures Valid()
      ensures Step(TheArena(), old(Blocks()), Request(size, ptr), Blocks()) <==>
                size <= WORD - 16 || AllTaken(old(live), totalBlocks)
      ensures ptr == 0 <==> start < 0
      ensures totalBlocks >= 2 && size > 0 ==>
                LowestRun(old(Bits(words[..])), totalBlocks, UserBlocks(size) + 1, start)
      ensures totalBlocks < 2 || size == 0 ==> ptr == 0
      ensures ptr == 0 ==> live == old(live) && words[..] == old(words[..])
      ensures ptr != 0 ==>
                && start + UserBlocks(size) + 1 <= totalBlocks
                && ptr == blocksBase + Bytes(start + 1)
                && live == old(live)[start as nat := UserBlocks(size) + 1]
                && Blocks() == old(Blocks()) + {BlockAt(blocksBase, live, start)}
                && Bits(words[..]) == Fill(old(Bits(words[..])), start, UserBlocks(size) + 1, true)
    {
      hide Step, Separated, UserBlocks, Total, InRun, BlocksOf, RunsOk, LowestRun, Bits, Fill, AllTaken;
      NothingHappens(Request(size, 0));
      NothingToTake(live);
      if pool == 0 || size == 0 || totalBlocks == 0 {
        return 0, -1;
      }
      UserBlocksValue(size);
      var userBlocks := UserBlocks(size);
      var needed := userBlocks + 1;
      if totalBlocks == 1 {
        assert needed > totalBlocks;
        return 0, -1; // the first test of FirstFit: no bitmap is looked at
      }
      var at := FirstFit(needed);
      start := at;
      WrappedFit(Bits(words[..]), live, totalBlocks, needed, at);
      if at < 0 {
        return 0, start;
      }
      ghost var bits, runs := Bits(words[..]), live;
      MarkRun(bits, live, totalBlocks, at, needed);
      AddRun(blocksBase, live, totalBlocks, at, needed);
      MarkBits(at, needed);
      ghost var marked := words[..];
      usedBlocks := usedBlocks + needed;
      firstWord[at] := userBlocks % 0x1_0000_0000;
      assert words[..] == marked;
      live := live[at as nat := needed];
      ptr := blocksBase + 16 * (at + 1);
      StepServed(blocksBase, totalBlocks, runs, at, needed, size);
    }

    lemma NothingHappens(e: Event)
      requires Valid() && if e.Request? then e.ptr == 0 else e.ptr !in Pointers(Blocks())
      ensures Step(TheArena(), Blocks(), e, Blocks())
      ensures e.Release? ==> forall b :: b in Blocks() ==> b.ptr != e.ptr
    {
      BlocksSeparated(blocksBase, live, totalBlocks);
      if e.Release? {
        Ignored(TheArena(), Blocks(), e.ptr);
      }
    }

    /** The header block in front of a user pointer. */
    function HeaderOf(ptr: nat): nat
      reads this`blocksBase
      requires blocksBase + 16 <= ptr
    {
      (ptr - blocksBase) / 16 - 1
    }

    /** Everything `MmFree` looks at before it clears anything. */
    ghost predicate Accepts(ptr: nat)
      reads this, words, firstWord
    {
      && ptr != 0
      && totalBlocks >= 2
      && totalBlocks == firstWord.Length <= 32 * words.Length
      && blocksBase + 16 <= ptr < blocksBase + Bytes(totalBlocks)
      && (ptr - blocksBase) % 16 == 0
      && HeaderOf(ptr) + firstWord[HeaderOf(ptr)] + 1 <= totalBlocks
      && Bits(words[..])[HeaderOf(ptr)]
    }

    /** A zero-byte block right at the end of the arena: the range check of `MmFree` takes it for a foreign pointer. */
    ghost predicate Stranded(ptr: nat)
      reads this
    {
      ptr in Pointers(Blocks()) && ptr == blocksBase + Bytes(totalBlocks)
    }

    /** What the guards mean in terms of the live runs. */
    lemma PointersAre(ptr: nat)
      requires Valid()
      ensures ptr in Pointers(Blocks()) <==>
              totalBlocks >= 2 && exists s :: s in live && ptr == blocksBase + Bytes(s + 1)
    {
      hide Total, Bits;
      if ptr in Pointers(Blocks()) {
        var s :| s in live && ptr == BlockAt(blocksBase, live, s).ptr;
        assert InRun(live, s);
      }
      forall s | s in live && ptr == blocksBase + Bytes(s + 1)
        ensures ptr in Pointers(Blocks())
      {
        PointerIsRun(blocksBase, live, s);
      }
    }

    lemma AcceptsLive(ptr: nat)
      requires Valid()
      ensures ptr in Pointers(Blocks()) <==>
              totalBlocks >= 2 && exists s :: s in live && ptr == blocksBase + Bytes(s + 1)
      ensures ptr in Pointers(Blocks()) ==> (Accepts(ptr) <==> !Stranded(ptr))
      ensures Accepts(ptr) ==> (ptr in Pointers(Blocks()) <==> HeaderOf(ptr) in live)
      ensures Accepts(ptr) ==> ptr == blocksBase + Bytes(HeaderOf(ptr) + 1)
    {
      hide Total, Bits, Pointers, BlocksOf, RunsOk, InRun;
      PointersAre(ptr);
      if ptr in Pointers(Blocks()) {
        var s :| s in live && ptr == blocksBase + Bytes(s + 1);
        HeaderAccepted(s);
      }
      if Accepts(ptr) {
        AcceptedPointer(ptr);
      }
    }

    lemma AcceptedPointer(ptr: nat)
      requires Accepts(ptr)
      ensures ptr == blocksBase + Bytes(HeaderOf(ptr) + 1)
      ensures ptr in Pointers(Blocks()) <==> HeaderOf(ptr) in live
    {
      hide Bits, Pointers, BlocksOf;
      PointerIsRun(blocksBase, live, HeaderOf(ptr));
    }

    lemma HeaderAccepted(s: nat)
      requires Valid() && totalBlocks >= 2 && s in live
      ensures Accepts(blocksBase + Bytes(s + 1)) <==> s + 1 < totalBlocks
      ensures s < totalBlocks
    {
      hide Total, Bits, BlocksOf;
      PointerHeader(blocksBase, s);
      assert InRun(live, s);
    }

    /**
     Clears the run behind `ptr` when the guards accept it. For a live pointer that is exactly its run; a
     second free of the same pointer is never accepted. An accepted pointer that is not live (client data
     read as a header) breaks the books: the method keeps `Valid` exactly when that does not happen.
    */
    method MmFree(ptr: nat)
      requires Valid()
      modifies this`usedBlocks, this`live, words
      ensures old(Accepts(ptr)) ==>
                Bits(words[..]) == Fill(old(Bits(words[..])), HeaderOf(ptr), firstWord[HeaderOf(ptr)] + 1, false)
      ensures !old(Accepts(ptr)) ==>
                words[..] == old(words[..]) && live == old(live) && usedBlocks == old(usedBlocks)
      ensures !Accepts(ptr)
      ensures Valid() <==> (old(Accepts(ptr)) ==> ptr in Pointers(old(Blocks())))
      ensures Valid() && !old(Stranded(ptr)) ==> Step(TheArena(), old(Blocks()), Release(ptr), Blocks())
      ensures forall b :: b in old(Blocks()) && b.ptr == ptr && !old(Stranded(ptr))
                ==> Blocks() == old(Blocks()) - {b} && Bytes(usedBlocks) == old(Bytes(usedBlocks)) - b.len
    {
      hide Step, Separated, Total, InRun, BlocksOf, RunsOk;
      AcceptsLive(ptr);
      if ptr !in Pointers(Blocks()) {
        NothingHappens(Release(ptr));
      }
      var startBit, total := Guards(ptr);
      if startBit < 0 {
        return;
      }
      GiveBack(startBit, total);
    }

    /** The guards of `mm_free`: the header block and the length of the run, or -1 when the pointer is refused. */
    method Guards(ptr: nat) returns (startBit: int, total: nat)
      requires Valid()
      ensures startBit >= 0 <==> Accepts(ptr)
      ensures startBit >= 0 ==>
                startBit == HeaderOf(ptr) && startBit < firstWord.Length && total == firstWord[startBit] + 1
    {
      hide Separated, Total, InRun, RunsOk;
      if ptr == 0 || pool == 0 || totalBlocks == 0 {
        return -1, 0;
      }
      if ptr < blocksBase {
        return -1, 0;
      }
      var offset := ptr - blocksBase;
      if offset >= totalBlocks * 16 {
        return -1, 0;
      }
      if offset % 16 != 0 {
        return -1, 0;
      }
      var blockIdx := offset / 16;
      if blockIdx == 0 {
        return -1, 0;
      }
      var userBlocks := firstWord[blockIdx - 1];
      total := userBlocks + 1;
      startBit := blockIdx - 1;
      if startBit + total > totalBlocks {
        return -1, 0;
      }
      var taken := BitmapTest(startBit);
      if !taken {
        return -1, 0;
      }
    }

    /** The effect of an accepted free. */
    method GiveBack(startBit: nat, total: nat)
      requires totalBlocks >= 2 && Ready()
      requires 0 < total && startBit + total <= totalBlocks && Bits(words[..])[startBit]
      requires startBit in live ==> total == live[startBit]
      modifies this`usedBlocks, this`live, words
      ensures Bits(words[..]) == Fill(old(Bits(words[..])), startBit, total, false)
      ensures Valid() <==> old(startBit in live)
      ensures old(startBit in live) ==>
                && Step(TheArena(), old(Blocks()), Release(blocksBase + Bytes(startBit + 1)), Blocks())
                && old(BlockAt(blocksBase, live, startBit)) in old(Blocks())
                && Blocks() == old(Blocks()) - {old(BlockAt(blocksBase, live, startBit))}
                && Bytes(usedBlocks) == old(Bytes(usedBlocks)) - Bytes(total)
                && (forall b :: b in old(Blocks()) && b.ptr == blocksBase + Bytes(startBit + 1)
                      ==> b == old(BlockAt(blocksBase, live, startBit)))
    {
      hide Step, Separated, Total, InRun, BlocksOf, RunsOk, Fill;
      ghost var bits, runs := Bits(words[..]), live;
      ClearBits(startBit, total);
      usedBlocks := SubWord(usedBlocks, total);
      if startBit in live {
        DropRun(blocksBase, runs, totalBlocks, startBit);
        ClearRun(bits, runs, totalBlocks, startBit);
        StepReleased(blocksBase, totalBlocks, runs, startBit);
        live := live - {startBit};
      } else {
        LostBit(bits, live, totalBlocks, startBit, total);
      }
    }

    /** A client that holds `ptr` writes the first word of one of its own blocks. */
    method ClientWrite(start: nat, k: nat, value: nat)
      requires Valid() && start in live && 0 < k < live[start]
      modifies firstWord
      ensures Valid()
      ensures start + k < firstWord.Length && firstWord[..] == old(firstWord[..])[start + k := value]
    {
      assert totalBlocks >= 2;
      firstWord[start + k] := value;
    }

    method MmState() returns (total: nat, used: nat, free: nat)
      requires Valid()
      ensures if pool == 0 then total == used == free == 0
              else total == Bytes(totalBlocks) && used == Total(Blocks()) && total == used + free
      ensures pool != 0 ==> used == Bytes(|SetBits(live, totalBlocks)|)
    {
      if pool == 0 {
        return 0, 0, 0;
      }
      SetBitsCount(blocksBase, live, totalBlocks);
      BlocksSeparated(blocksBase, live, totalBlocks);
      TotalFits(TheArena(), Blocks());
      total := totalBlocks * 16;
      used := usedBlocks * 16;
      free := total - used;
    }
  }

  /** A request that rounds to the header alone fails exactly when every block is taken. */
  lemma WrappedFit(bits: seq<bool>, live: Runs, total: nat, n: nat, start: int)
    requires total <= |bits| && forall b :: 0 <= b < total ==> (bits[b] <==> InRun(live, b))
    requires n > 0 && LowestRun(bits, total, n, start)
    ensures start >= 0 ==> !AllTaken(live, total)
    ensures n == 1 && start < 0 ==> AllTaken(live, total)
  {
    if start >= 0 {
      assert FreeRun(bits, total, start, n) && !bits[start];
    } else if n == 1 {
      forall b: nat | b < total
        ensures InRun(live, b)
      {
        assert !FreeRun(bits, total, b, 1);
      }
    }
  }

  // ----- calls that go wrong -----

  /** In an empty arena the lowest run that fits starts at the first block. */
  lemma LowestAtStart(m: Bitmap, n: nat)
    requires m.Valid() && m.live == map[] && 2 <= m.totalBlocks && 0 < n <= m.totalBlocks
    ensures forall start: int :: LowestRun(Bits(m.words[..]), m.totalBlocks, n, start) ==> start == 0
  {
    assert FreeRun(Bits(m.words[..]), m.totalBlocks, 0, n);
  }

  lemma LowestBehindFirst(m: Bitmap)
    requires m.Valid() && m.live == map[0 := 1] && m.totalBlocks == 2
    ensures forall start: int :: LowestRun(Bits(m.words[..]), m.totalBlocks, 1, start) ==> start == 1
  {
    assert InRun(m.live, 0) && !InRun(m.live, 1);
    assert FreeRun(Bits(m.words[..]), 2, 1, 1);
  }

  /**
   On a heap of 48 bytes two requests of 2^64 - 1 bytes are both granted, with a header and no byte of memory;
   the second pointer is the end of the arena, and no call of `mm_free` ever takes it back.
  */
  method StrandBlock() returns (m: Bitmap, ptr: nat)
    ensures fresh(m) && m.Valid() && m.Stranded(ptr) && !m.Accepts(ptr)
  {
    hide Step, Separated, Total, Pointers, LowestRun, Fill, RunsOk, BlocksOf;
    m := new Bitmap();
    m.MmInit(16, 48);
    UserBlocksValue(WORD - 1);
    LowestAtStart(m, 1);
    ghost var start;
    ptr, start := m.MmAlloc(WORD - 1);
    assert m.live == map[0 := 1];
    LowestBehindFirst(m);
    ptr, start := m.MmAlloc(WORD - 1);
    assert 1 in m.live;
    m.AcceptsLive(ptr);
  }

  /**
   A client writes 0 into the first of its own blocks, which the allocator will read as the header of the second:
   freeing the pointer to the second block is accepted, though it was never handed out, and the books break.
  */
  method FreeForgedHeader() returns (m: Bitmap, ptr: nat)
    ensures fresh(m) && !m.Valid()
  {
    hide Step, Separated, Total, Pointers, LowestRun, Fill, RunsOk, BlocksOf;
    m := new Bitmap();
    m.MmInit(16, 128);
    ghost var start;
    LowestAtStart(m, 4);
    ptr, start := m.MmAlloc(48);
    assert m.live == map[0 := 4];
    m.ClientWrite(0, 1, 0);
    assert m.firstWord[1] == m.firstWord[..][1] == 0;
    ptr := ptr + 16;
    assert InRun(m.live, 1) by {
      assert 0 in m.live;
    }
    assert m.HeaderOf(ptr) == 1;
    assert m.Accepts(ptr);
    m.AcceptsLive(ptr);
    m.MmFree(ptr);
  }

  function SubWord(a: nat, b: nat): nat
    requires b <= WORD
  {
    if b <= a then a - b else a + WORD - b
  }

  lemma PointerHeader(base: nat, s: nat)
    ensures (base + Bytes(s + 1) - base) % 16 == 0 && (base + Bytes(s + 1) - base) / 16 - 1 == s
  {
  }

  lemma StepReleased(base: nat, total: nat, live: Runs, s: nat)
    requires RunsOk(live, total) && s in live
    ensures Step(Arena(base, Bytes(total)), BlocksOf(base, live), Release(base + Bytes(s + 1)),
                 BlocksOf(base, live - {s}))
    ensures forall b :: b in BlocksOf(base, live) && b.ptr == base + Bytes(s + 1) ==> b == BlockAt(base, live, s)
  {
    BlocksSeparated(base, live, total);
    DropRun(base, live, total, s);
    Spec.Released(Arena(base, Bytes(total)), BlocksOf(base, live), BlockAt(base, live, s), BlocksOf(base, live - {s}));
  }

  /** Clearing a block that is in use but leads no run leaves a block of a live run marked free. */
  lemma LostBit(bits: seq<bool>, live: Runs, total: nat, s: nat, n: nat)
    requires s + n <= total <= |bits| && n > 0 && bits[s]
    requires forall b :: 0 <= b < total ==> (bits[b] <==> InRun(live, b))
    ensures InRun(live, s) && !Fill(bits, s, n, false)[s]
  {
  }

  lemma StepServed(base: nat, total: nat, live: Runs, s: nat, n: nat, size: nat)
    requires base > 0 && n == UserBlocks(size) + 1 && size < WORD
    requires RunsOk(live, total) && s !in live && RunsOk(live[s := n], total)
    ensures size <= WORD - 16 <==>
            Step(Arena(base, Bytes(total)), BlocksOf(base, live), Request(size, base + Bytes(s + 1)),
                 BlocksOf(base, live[s := n]))
  {
    var arena, before, after := Arena(base, Bytes(total)), BlocksOf(base, live), BlocksOf(base, live[s := n]);
    var mine := BlockAt(base, live[s := n], s);
    BlocksSeparated(base, live, total);
    BlocksSeparated(base, live[s := n], total);
    AddRun(base, live, total, s, n);
    UserBlocksValue(size);
    forall b | b !in before && after == before + {b}
      ensures b == mine
    {
      assert mine in before + {b};
    }
    if size <= WORD - 16 {
      Served(arena, before, size, mine, after);
    }
  }
}
