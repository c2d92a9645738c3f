/**
 What both memory managers promise: a set of live blocks that lie inside an arena, never overlap and are
 at least as large as what was asked for. The two managers are proved against this one specification.
*/
module AllocatorSpec {

  /** Blocks are handed out in 16-byte units. */
  predicate Aligned(x: nat) {
    MultipleOf(x, 16)
  }

  /** `x % len == 0`, by counting down. */
  predicate MultipleOf(x: nat, len: nat)
    requires len > 0
  {
    x == 0 || (len <= x && MultipleOf(x - len, len))
  }

  lemma {:induction false} MultipleIsMod(x: nat, len: nat)
    requires len > 0
    ensures MultipleOf(x, len) <==> x % len == 0
    decreases x
  {
    if len <= x {
      MultipleIsMod(x - len, len);
      ModMinus(x, len);
    }
  }

  lemma UnitsAreMultiples(q: nat)
    ensures Aligned(16 * q)
  {
    MultipleIsMod(16 * q, 16);
  }

  lemma ModMinus(x: nat, len: nat)
    requires 0 < len <= x
    ensures (x - len) % len == x % len
  {
    var q := x / len;
    var r := x % len;
    assert x == q * len + r;
    assert x - len == (q - 1) * len + r;
    Gap(0, q, len);
    DivisionWithRest(x - len, len, q - 1, r);
  }

  lemma DivisionWithRest(x: nat, w: nat, q: nat, r: nat)
    requires w > 0 && x == q * w + r && r < w
    ensures x / w == q && x % w == r
  {
    var q' := x / w;
    assert x == q' * w + x % w;
    if q < q' {
      Gap(q, q', w);
    } else if q' < q {
      Gap(q', q, w);
    }
  }

  lemma {:induction false} Gap(r: nat, q: nat, w: nat)
    requires r < q
    ensures r * w + w <= q * w
    decreases q
  {
    assert q * w == (q - 1) * w + w;
    if r + 1 < q {
      Gap(r, q - 1, w);
    }
  }

  /** `len` bytes from `start` are set aside; the caller holds `ptr`. */
  datatype Block = Block(ptr: nat, start: nat, len: nat)

  datatype Arena = Arena(base: nat, size: nat)

  ghost predicate InArena(arena: Arena, b: Block) {
    && 0 < b.len
    && arena.base <= b.start <= b.ptr
    && b.start + b.len <= arena.base + arena.size
    && Aligned(b.start - arena.base)
    && Aligned(b.ptr - arena.base)
    && Aligned(b.len)
  }

  ghost predicate Apart(b: Block, c: Block) {
    b.ptr != c.ptr && (b.start + b.len <= c.start || c.start + c.len <= b.start)
  }

  ghost predicate Separated(arena: Arena, blocks: set<Block>) {
    && (forall b :: b in blocks ==> InArena(arena, b))
    && (forall b, c :: b in blocks && c in blocks && b != c ==> Apart(b, c))
  }

  ghost function Pointers(blocks: set<Block>): set<nat> {
    set b | b in blocks :: b.ptr
  }

  // ----- used memory -----

  ghost function Total(blocks: set<Block>): nat {
    if blocks == {} then 0 else var b :| b in blocks; b.len + Total(blocks - {b})
  }

  lemma {:induction false} TotalRemove(blocks: set<Block>, b: Block)
    requires b in blocks
    ensures Total(blocks) == b.len + Total(blocks - {b})
  {
    var c :| c in blocks && Total(blocks) == c.len + Total(blocks - {c});
    if c != b {
      TotalRemove(blocks - {c}, b);
      TotalRemove(blocks - {b}, c);
      assert blocks - {c} - {b} == blocks - {b} - {c};
    }
  }

  lemma TotalInsert(blocks: set<Block>, b: Block)
    requires b !in blocks
    ensures Total(blocks + {b}) == Total(blocks) + b.len
  {
    TotalRemove(blocks + {b}, b);
    assert blocks + {b} - {b} == blocks;
  }

  /** The addresses `lo .. hi-1`. */
  ghost function Range(lo: nat, hi: nat): (r: set<nat>)
    requires lo <= hi
    ensures forall x :: x in r <==> lo <= x < hi
    ensures |r| == hi - lo
    decreases hi - lo
  {
    if lo == hi then {} else {lo} + Range(lo + 1, hi)
  }

  /** Disjoint blocks in an arena never use more than the arena. */
  lemma TotalFits(arena: Arena, blocks: set<Block>)
    requires Separated(arena, blocks)
    ensures Total(blocks) <= arena.size
  {
    TotalInside(arena, blocks, Range(arena.base, arena.base + arena.size));
  }

  lemma SizeOfRest(room: set<nat>, part: set<nat>)
    requires part <= room
    ensures |room - part| == |room| - |part|
  {
    assert room == part + (room - part);
  }

  lemma {:induction false} TotalInside(arena: Arena, blocks: set<Block>, room: set<nat>)
    requires Separated(arena, blocks)
    requires forall b :: b in blocks ==> Range(b.start, b.start + b.len) <= room
    ensures Total(blocks) <= |room|
    decreases blocks
  {
    if blocks != {} {
      var b :| b in blocks;
      var mine := Range(b.start, b.start + b.len);
      forall c | c in blocks - {b}
        ensures Range(c.start, c.start + c.len) <= room - mine
      {
        assert Apart(b, c);
      }
      TotalRemove(blocks, b);
      TotalInside(arena, blocks - {b}, room - mine);
      SizeOfRest(room, mine);
    }
  }

  // ----- calls and runs -----

  datatype Event = Request(size: nat, ptr: nat) | Release(ptr: nat)

  /** One call: a request is refused (0) or served by a new block; a release removes the block at `ptr`, if any. */
  ghost predicate Step(arena: Arena, before: set<Block>, e: Event, after: set<Block>) {
    && Separated(arena, before)
    && Separated(arena, after)
    && match e
       case Request(size, ptr) =>
         if ptr == 0 then after == before
         else exists b :: b !in before && after == before + {b} && b.ptr == ptr && ptr + size <= b.start + b.len
       case Release(ptr) =>
         after == set b | b in before && b.ptr != ptr
  }

  lemma Served(arena: Arena, before: set<Block>, size: nat, b: Block, after: set<Block>)
    requires Separated(arena, before) && Separated(arena, after)
    requires b !in before && after == before + {b} && b.ptr + size <= b.start + b.len
    requires b.ptr != 0
    ensures Step(arena, before, Request(size, b.ptr), after)
  {
  }

  lemma Released(arena: Arena, before: set<Block>, b: Block, after: set<Block>)
    requires Separated(arena, before) && b in before && after == before - {b}
    ensures Step(arena, before, Release(b.ptr), after)
    ensures forall c :: c in before && c.ptr == b.ptr ==> c == b
  {
    assert forall c :: c in before && c != b ==> Apart(b, c);
  }

  lemma Ignored(arena: Arena, before: set<Block>, ptr: nat)
    requires Separated(arena, before) && ptr !in Pointers(before)
    ensures Step(arena, before, Release(ptr), before)
    ensures forall c :: c in before ==> c.ptr != ptr
  {
    assert forall c :: c in before ==> c.ptr in Pointers(before);
  }

  ghost predicate Run(arena: Arena, before: set<Block>, events: seq<Event>, after: set<Block>)
    decreases |events|
  {
    if events == [] then before == after
    else exists mid :: Step(arena, before, events[0], mid) && Run(arena, mid, events[1..], after)
  }

  /** The pointers a client holds after a run, computed from the calls alone. */
  function Held(held: set<nat>, events: seq<Event>): set<nat>
    decreases |events|
  {
    if events == [] then held
    else
      var now := match events[0]
                 case Request(_, ptr) => if ptr == 0 then held else held + {ptr}
                 case Release(ptr) => held - {ptr};
      Held(now, events[1..])
  }

  /** Nothing is lost and nothing is invented: live blocks are exactly the pointers the client still holds. */
  lemma {:induction false} RunHolds(arena: Arena, before: set<Block>, events: seq<Event>, after: set<Block>)
    requires Run(arena, before, events, after)
    ensures Pointers(after) == Held(Pointers(before), events)
    decreases |events|
  {
    if events != [] {
      var mid :| Step(arena, before, events[0], mid) && Run(arena, mid, events[1..], after);
      RunHolds(arena, mid, events[1..], after);
      match events[0] {
        case Request(size, ptr) =>
          if ptr != 0 {
            var b :| b !in before && mid == before + {b} && b.ptr == ptr;
            assert Pointers(mid) == Pointers(before) + {ptr};
          }
        case Release(ptr) =>
          assert Pointers(mid) == Pointers(before) - {ptr};
      }
    }
  }

  /** A pointer is never handed out again before it has been released. */
  lemma {:induction false} NoDoubleHandout(arena: Arena, before: set<Block>, events: seq<Event>, after: set<Block>,
                                           p: nat)
    requires Run(arena, before, events, after)
    requires p != 0 && p in Pointers(before)
    requires forall i :: 0 <= i < |events| ==> events[i] != Release(p)
    ensures forall i :: 0 <= i < |events| && events[i].Request? ==> events[i].ptr != p
    ensures p in Pointers(after)
    decreases |events|
  {
    if events != [] {
      var mid :| Step(arena, before, events[0], mid) && Run(arena, mid, events[1..], after);
      var b0 :| b0 in before && b0.ptr == p;
      if events[0].Request? && events[0].ptr != 0 {
        var b :| b !in before && mid == before + {b} && b.ptr == events[0].ptr;
        assert Apart(b0, b);
      }
      assert b0 in mid;
      NoDoubleHandout(arena, mid, events[1..], after, p);
      forall i | 0 <= i < |events| && events[i].Request?
        ensures events[i].ptr != p
      {
        if i > 0 {
          assert events[i] == events[1..][i - 1];
        }
      }
    }
  }
}
