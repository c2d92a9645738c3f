/** The buddy memory manager: Kernel/memory/buddy_mm.c. */
module BuddyManager {
  import opened BuddyTree
  import opened AllocatorSpec
  import Tree = BuddyTree
  import Spec = AllocatorSpec

  const WORD: nat := 0x1_0000_0000_0000_0000
  const HALF_WORD: nat := 0x8000_0000_0000_0000

  // ----- where a node's block lies -----

  lemma BlockShape(h: nat, n: nat)
    requires IsNode(h, n)
    ensures Depth(n) <= h
    ensures Pow2(h) <= First(h, n) < Last(h, n) <= Pow2(h + 1)
    ensures Last(h, n) - First(h, n) == Pow2(h - Depth(n))
  {
    NodeDepth(h, n);
    DepthBounds(n);
    LeafBounds(n, Depth(n), h - Depth(n));
    LoWidth(n, h - Depth(n));
  }

  lemma LeafBounds(n: nat, d: nat, k: nat)
    requires Pow2(d) <= n < Pow2(d + 1)
    ensures Pow2(d + k) <= Lo(n, k) && Lo(n + 1, k) <= Pow2(d + k + 1)
  {
    Pow2Adds(d, k);
    Pow2Adds(d + 1, k);
    LoMonotone(Pow2(d), n, k);
    LoMonotone(n + 1, Pow2(d + 1), k);
  }

  lemma {:induction false} LoWidth(n: nat, k: nat)
    ensures Lo(n + 1, k) == Lo(n, k) + Pow2(k)
    decreases k
  {
    if k > 0 {
      LoWidth(2 * n, k - 1);
      LoWidth(2 * n + 1, k - 1);
    }
  }

  /** Address of the block of node `n`. */
  ghost function Address(base: nat, h: nat, n: nat): nat
    requires IsNode(h, n)
  {
    BlockShape(h, n);
    base + 16 * (First(h, n) - Pow2(h))
  }

  ghost function Size(h: nat, n: nat): nat
    requires IsNode(h, n)
  {
    NodeDepth(h, n);
    16 * Pow2(h - Depth(n))
  }

  ghost function BlockOf(base: nat, h: nat, n: nat): Block
    requires IsNode(h, n)
  {
    Block(Address(base, h, n), Address(base, h, n), Size(h, n))
  }

  ghost function BlocksOf(base: nat, h: nat, t: seq<NodeState>): set<Block>
    requires Pow2(h + 1) <= |t|
  {
    set n | n in LiveNodes(t, h) :: BlockOf(base, h, n)
  }

  lemma BlockUnits(base: nat, h: nat, n: nat) returns (at: nat, len: nat)
    requires IsNode(h, n)
    ensures at + len <= Pow2(h) && len > 0
    ensures BlockOf(base, h, n) == Block(base + 16 * at, base + 16 * at, 16 * len)
  {
    BlockShape(h, n);
    at, len := First(h, n) - Pow2(h), Pow2(h - Depth(n));
  }

  lemma BlockInArena(base: nat, h: nat, n: nat)
    requires IsNode(h, n)
    ensures InArena(Arena(base, 16 * Pow2(h)), BlockOf(base, h, n))
  {
    var at, len := BlockUnits(base, h, n);
    InArenaByUnits(base, Pow2(h), at, len);
  }

  lemma InArenaByUnits(base: nat, units: nat, at: nat, len: nat)
    requires at + len <= units && len > 0
    ensures InArena(Arena(base, 16 * units), Block(base + 16 * at, base + 16 * at, 16 * len))
  {
    UnitsAreMultiples(at);
    UnitsAreMultiples(len);
  }

  lemma BlocksApart(base: nat, h: nat, a: nat, b: nat)
    requires IsNode(h, a) && IsNode(h, b)
    ensures Depth(a) <= h && Depth(b) <= h
    ensures Disjoint(h, a, b) ==> Apart(BlockOf(base, h, a), BlockOf(base, h, b))
    ensures Disjoint(h, a, b) <==>
            var x, y := BlockOf(base, h, a), BlockOf(base, h, b);
            x.start + x.len <= y.start || y.start + y.len <= x.start
  {
    BlockShape(h, a);
    BlockShape(h, b);
  }

  lemma LiveBlocksSeparated(base: nat, h: nat, t: seq<NodeState>)
    requires Wf(t, h)
    ensures Separated(Arena(base, 16 * Pow2(h)), BlocksOf(base, h, t))
    ensures forall a, b :: a in LiveNodes(t, h) && b in LiveNodes(t, h) && a != b
              ==> BlockOf(base, h, a) != BlockOf(base, h, b)
  {
    forall a | a in LiveNodes(t, h)
      ensures InArena(Arena(base, 16 * Pow2(h)), BlockOf(base, h, a))
    {
      BlockInArena(base, h, a);
    }
    forall a, b | a in LiveNodes(t, h) && b in LiveNodes(t, h) && a != b
      ensures Apart(BlockOf(base, h, a), BlockOf(base, h, b))
    {
      LiveDisjoint(t, h, a, b);
      BlocksApart(base, h, a, b);
    }
  }

  // ----- free slots, said in addresses only -----

  /** `len` bytes at `s` lie in the arena, are aligned to their size and touch no live block. */
  ghost predicate FreeSlot(arena: Arena, blocks: set<Block>, len: nat, s: nat)
    requires len > 0
  {
    && arena.base <= s
    && s + len <= arena.base + arena.size
    && MultipleOf(s - arena.base, len)
    && forall b :: b in blocks ==> s + len <= b.start || b.start + b.len <= s
  }

  /** `ptr` is the lowest free slot of `len` bytes, or null when there is none. */
  ghost predicate LowestFreeSlot(arena: Arena, blocks: set<Block>, len: nat, ptr: nat)
    requires len > 0
  {
    && (ptr == 0 <==> forall s :: !FreeSlot(arena, blocks, len, s))
    && (ptr != 0 ==> FreeSlot(arena, blocks, len, ptr))
    && (ptr != 0 ==> forall s :: FreeSlot(arena, blocks, len, s) ==> ptr <= s)
  }

  /** The least `16 * 2^i` that holds `size` bytes, starting the search at `b`. */
  function RoundUp(b: nat, size: nat): (r: nat)
    requires b > 0
    ensures b <= r && size <= r
    ensures r == b || r < 2 * size
    decreases size - b
  {
    if size <= b then b else RoundUp(2 * b, size)
  }

  lemma UntouchedIsFreeSlot(base: nat, h: nat, t: seq<NodeState>, m: nat)
    requires Wf(t, h) && IsNode(h, m)
    ensures Size(h, m) > 0
    ensures Reach(t, h, 1, m) <==>
            FreeSlot(Arena(base, 16 * Pow2(h)), BlocksOf(base, h, t), Size(h, m), Address(base, h, m))
  {
    hide Lo, Pow2, Depth, LocalOk, MultipleOf, Reach;
    ReachIffUntouched(t, h, m);
    AddressIsMultiple(base, h, m);
    BlockInArena(base, h, m);
    var blocks := BlocksOf(base, h, t);
    var s, len := Address(base, h, m), Size(h, m);
    forall a | a in LiveNodes(t, h)
      ensures !Under(a, m) && !Under(m, a) <==>
              var b := BlockOf(base, h, a); s + len <= b.start || b.start + b.len <= s
    {
      UnrelatedIsApart(base, h, a, m);
    }
    if forall b :: b in blocks ==> s + len <= b.start || b.start + b.len <= s {
      forall a | a in LiveNodes(t, h)
        ensures !Under(a, m) && !Under(m, a)
      {
        assert BlockOf(base, h, a) in blocks;
      }
    }
  }

  lemma UnrelatedIsApart(base: nat, h: nat, a: nat, m: nat)
    requires IsNode(h, a) && IsNode(h, m)
    ensures !Under(a, m) && !Under(m, a) <==>
            var b, c := BlockOf(base, h, a), BlockOf(base, h, m);
            c.start + c.len <= b.start || b.start + b.len <= c.start
  {
    BlocksApart(base, h, a, m);
    UnderDepth(a, m);
    UnderDepth(m, a);
    if Depth(a) <= Depth(m) {
      NestedOrDisjoint(h, a, m);
    } else {
      NestedOrDisjoint(h, m, a);
    }
  }

  lemma AddressAligned(base: nat, h: nat, m: nat)
    requires IsNode(h, m)
    ensures Size(h, m) > 0 && Pow2(Depth(m)) <= m
    ensures base <= Address(base, h, m) == base + (m - Pow2(Depth(m))) * Size(h, m)
    ensures (Address(base, h, m) - base) % Size(h, m) == 0
  {
    BlockShape(h, m);
    DepthBounds(m);
    var d, k := Depth(m), h - Depth(m);
    LoIsProduct(m, k);
    LoIsProduct(Pow2(d), k);
    Pow2Adds(d, k);
    Factor(m, Pow2(d), Pow2(k));
    DivisionWithRest(Address(base, h, m) - base, Size(h, m), m - Pow2(d), 0);
  }

  lemma AddressIsMultiple(base: nat, h: nat, m: nat)
    requires IsNode(h, m)
    ensures Size(h, m) > 0 && base <= Address(base, h, m)
    ensures MultipleOf(Address(base, h, m) - base, Size(h, m))
  {
    AddressAligned(base, h, m);
    MultipleIsMod(Address(base, h, m) - base, Size(h, m));
  }

  lemma Factor(x: nat, y: nat, w: nat)
    requires y <= x
    ensures 16 * (x * w - y * w) == (x - y) * (16 * w)
  {
    assert x * w - y * w == (x - y) * w;
  }

  /** The `q`-th aligned address of a size is the address of the `q`-th node of that depth. */
  lemma NodeAt(base: nat, h: nat, d: nat, q: nat)
    requires d <= h && q < Pow2(d)
    ensures IsNode(h, Pow2(d) + q) && Depth(Pow2(d) + q) == d
    ensures Address(base, h, Pow2(d) + q) == base + q * (16 * Pow2(h - d))
  {
    DepthUnique(Pow2(d) + q, d);
    Pow2Monotone(d + 1, h + 1);
    AddressAligned(base, h, Pow2(d) + q);
  }

  /** Which of the aligned addresses it is. */
  lemma AlignedIndex(h: nat, d: nat, x: nat) returns (q: nat)
    requires d <= h && x % (16 * Pow2(h - d)) == 0 && x < 16 * Pow2(h)
    ensures q < Pow2(d) && q == x / (16 * Pow2(h - d)) && x == q * (16 * Pow2(h - d))
  {
    Pow2Adds(d, h - d);
    ArenaInUnits(Pow2(d), Pow2(h - d));
    q := QuotientBelow(x, 16 * Pow2(h - d), Pow2(d));
  }

  lemma ArenaInUnits(x: nat, y: nat)
    ensures 16 * (x * y) == x * (16 * y)
  {
  }

  lemma QuotientBelow(x: nat, w: nat, n: nat) returns (q: nat)
    requires w > 0 && x % w == 0 && x < n * w
    ensures q < n && q == x / w && x == q * w
  {
    q := x / w;
    assert x == q * w;
    if n < q {
      Gap(n, q, w);
    }
  }

  /** Among nodes of one depth, addresses grow with node numbers. */
  lemma AddressOrder(base: nat, h: nat, a: nat, b: nat)
    requires IsNode(h, a) && IsNode(h, b) && Depth(a) == Depth(b) && a <= b
    ensures Address(base, h, a) <= Address(base, h, b)
  {
    BlockShape(h, a);
    BlockShape(h, b);
    LoMonotone(a, b, h - Depth(a));
  }

  // ----- utilities -----

  /** `my_log2` and `node_level`: the same loop. */
  method Log2(n: nat) returns (r: nat)
    ensures r == Depth(n)
  {
    var m := n;
    r := 0;
    while m > 1
      invariant Depth(n) == r + Depth(m)
    {
      m := m / 2;
      r := r + 1;
    }
  }

  method FloorPow2(n: nat) returns (p: nat, ghost e: nat)
    requires n < HALF_WORD
    ensures p == Pow2(e) && (n == 0 ==> p == 1)
    ensures n > 0 ==> p <= n < 2 * p
  {
    p := 1;
    e := 0;
    while p * 2 <= n
      invariant p == Pow2(e) && (n == 0 ==> p == 1) && (n > 0 ==> p <= n)
      decreases n - p
    {
      assert p * 2 < WORD;
      p := p * 2;
      e := e + 1;
    }
  }

  function DoubleWord(p: nat): nat {
    p * 2 % WORD
  }

  lemma DoubleWordValues(p: nat)
    requires p <= HALF_WORD
    ensures DoubleWord(p) == if p < HALF_WORD then 2 * p else 0
  {
  }

  /** The value of `p` after `k` rounds of the loop in 64-bit arithmetic. */
  function FloorPow2Round(k: nat): nat {
    if k == 0 then 1 else DoubleWord(FloorPow2Round(k - 1))
  }

  lemma BigPowers()
    ensures Pow2(62) * 2 == Pow2(63) == HALF_WORD && Pow2(64) == WORD
  {
    assert Pow2(2) == 4;
    Pow2Adds(2, 2);
    Pow2Adds(4, 4);
    Pow2Adds(8, 8);
    Pow2Adds(16, 16);
    Pow2Adds(32, 32);
  }

  lemma {:induction false} RoundIsPowerOrZero(k: nat)
    ensures FloorPow2Round(k) == if k < 64 then Pow2(k) else 0
    ensures DoubleWord(FloorPow2Round(k)) == if k < 63 then Pow2(k + 1) else 0
    ensures k <= 63 ==> Pow2(k) <= HALF_WORD
    ensures k < 63 ==> Pow2(k + 1) <= HALF_WORD
  {
    BigPowers();
    if k < 63 {
      Pow2Monotone(k + 1, 63);
    }
    if k > 0 {
      RoundIsPowerOrZero(k - 1);
    }
    DoubleWordValues(FloorPow2Round(k));
  }

  /** On 64-bit words the loop of `floor_pow2` ends iff `n` is below 2^63; above, `p` wraps to 0 and stays there. */
  lemma FloorPow2Ends(n: nat)
    ensures (exists k :: DoubleWord(FloorPow2Round(k)) > n) <==> n < HALF_WORD
  {
    RoundIsPowerOrZero(62);
    BigPowers();
    forall k
      ensures DoubleWord(FloorPow2Round(k)) <= HALF_WORD
    {
      RoundIsPowerOrZero(k);
    }
  }

  // ----- the manager -----

  /** Bytes reserved for the tree at the bottom of the heap. */
  ghost function TreeSize(heapSize: nat): nat {
    Pow2(Depth(heapSize / 16) + 1)
  }

  class Buddy {
    var heapBase: nat
    var totalSize: nat
    var minBlock: nat
    var levels: nat
    var tree: array<NodeState>
    var usedMem: nat

    ghost predicate Ready()
      reads this, tree
    {
      Books(tree[..])
    }

    /** The fields agree with the well-formed tree `t`. */
    ghost predicate Books(t: seq<NodeState>)
      reads this
    {
      && 1 <= levels
      && 0 < heapBase
      && minBlock == 16
      && totalSize == 16 * Pow2(levels - 1)
      && Wf(t, levels - 1)
      && usedMem == Total(BlocksOf(heapBase, levels - 1, t))
    }

    ghost predicate Valid()
      reads this, tree
    {
      totalSize != 0 ==> Ready()
    }

    ghost function TheArena(): Arena
      reads this
    {
      Arena(heapBase, totalSize)
    }

    /** The live blocks. */
    ghost function Blocks(): set<Block>
      reads this, tree
      requires Valid()
    {
      if totalSize == 0 then {} else BlocksOf(heapBase, levels - 1, tree[..])
    }

    lemma BlocksSeparated()
      requires Valid()
      ensures Separated(TheArena(), Blocks())
    {
      if totalSize != 0 {
        LiveBlocksSeparated(heapBase, levels - 1, tree[..]);
        assert TheArena() == Arena(heapBase, 16 * Pow2(levels - 1));
      }
    }

    lemma OutsideIsNoBlock(ptr: nat)
      requires Valid()
      requires totalSize == 0 || ptr < heapBase || heapBase + totalSize <= ptr || ptr == 0
      ensures ptr !in Pointers(Blocks())
    {
      BlocksSeparated();
      assert forall b :: b in Blocks() ==> InArena(TheArena(), b);
    }

    lemma NothingHappens(e: Event)
      requires Valid() && if e.Request? then e.ptr == 0 else e.ptr !in Pointers(Blocks())
      ensures Step(TheArena(), Blocks(), e, Blocks())
      ensures e.Release? ==> forall b :: b in Blocks() ==> b.ptr != e.ptr
    {
      BlocksSeparated();
      if e.Release? {
        Ignored(TheArena(), Blocks(), e.ptr);
      }
    }

    constructor ()
      ensures Valid() && totalSize == 0
    {
      heapBase, totalSize, minBlock, levels, usedMem := 0, 0, 0, 0, 0;
      tree := new NodeState[0];
    }

    method MmInit(heapStart: nat, heapSize: nat)
      requires heapStart + heapSize <= WORD
      requires heapSize < HALF_WORD + TreeSize(heapSize)
      modifies this
      ensures Valid()
      ensures totalSize != 0 <==> heapStart != 0 && heapSize >= 16 * 4
      ensures totalSize == 0 ==> usedMem == old(usedMem)
      ensures totalSize != 0 ==>
                && fresh(tree)
                && Blocks() == {} && usedMem == 0
                && (forall i :: 0 <= i < Pow2(levels) ==> tree[i] == Free)
                && Pow2(levels) <= tree.Length
                && heapBase == heapStart + tree.Length
                && heapBase + totalSize <= heapStart + heapSize
                && 16 * totalSize > 7 * heapSize
    {
      hide LocalOk, LiveNodes, InArena, Lo, Total, Pow2, Depth, BlocksOf, Wf, WfExcept;
      totalSize := 0;
      if heapStart == 0 || heapSize < 16 * 4 {
        return;
      }
      var ratio := heapSize / 16;
      if ratio < 2 {
        assert false; // the source gives up here; not reached from 64 bytes on
      }
      var preLog := Log2(ratio);
      var treeSize := Pow2(preLog + 1);
      TreeFits(heapSize);
      if treeSize >= heapSize {
        assert false; // the source gives up here; the tree is at most an eighth of the heap
      }
      tree := new NodeState[treeSize];
      var size, e := ArenaSize(heapSize, treeSize);
      totalSize := size;
      heapBase := heapStart + treeSize;
      minBlock := 16;
      var log := Log2(totalSize / 16);
      levels := log + 1;
      usedMem := 0;
      ClearTree();
      EmptyTree(heapBase, levels - 1, tree[..]);
    }

    /** The largest power of two that fits above the tree. */
    method ArenaSize(heapSize: nat, treeSize: nat) returns (size: nat, ghost e: nat)
      requires heapSize >= 64 && treeSize == TreeSize(heapSize) && heapSize < HALF_WORD + treeSize
      ensures e >= 4 && size == 16 * Pow2(e - 4) && size / 16 == Pow2(e - 4) && Depth(size / 16) == e - 4
      ensures Pow2(e - 3) <= treeSize && treeSize + size <= heapSize && 16 * size > 7 * heapSize
    {
      TreeFits(heapSize);
      var manageable := heapSize - treeSize;
      size, e := FloorPow2(manageable);
      ArenaHeight(heapSize, size, e);
      if size < 16 {
        assert false; // the source gives up here; not reached
      }
    }

    method ClearTree()
      requires Pow2(levels) <= tree.Length
      modifies tree
      ensures forall j :: 0 <= j < Pow2(levels) ==> tree[j] == Free
    {
      var nodes := Pow2(levels);
      var i := 0;
      while i < nodes
        invariant 0 <= i <= nodes
        invariant forall j :: 0 <= j < i ==> tree[j] == Free
      {
        tree[i] := Free;
        i := i + 1;
      }
    }

    /** Recompute ancestors until one does not change. */
    method UpdateParent(start: nat)
      requires levels >= 1 && IsNode(levels - 1, start) && WfExcept(tree[..], levels - 1, start / 2)
      requires forall a: nat :: Under(a, start) && a != start ==> tree[a] != Used
      modifies tree
      ensures Wf(tree[..], levels - 1)
      ensures LiveNodes(tree[..], levels - 1) == LiveNodes(old(tree[..]), levels - 1)
      ensures Untouched(old(tree[..]), tree[..], levels)
    {
      var node := start;
      ghost var h := levels - 1;
      while node > 1
        invariant IsNode(h, node) && WfExcept(tree[..], h, node / 2)
        invariant LiveNodes(tree[..], h) == LiveNodes(old(tree[..]), h)
        invariant forall a: nat :: Under(a, node) && a != node ==> tree[a] != Used
        invariant Untouched(old(tree[..]), tree[..], levels)
      {
        var parent := node / 2;
        var left := tree[2 * parent];
        var right := tree[2 * parent + 1];
        var newState;
        if left == Free && right == Free {
          newState := Free;
        } else if (left == Used || left == Full) && (right == Used || right == Full) {
          newState := Full;
        } else {
          newState := Split;
        }
        assert Under(parent, node);
        Recomputed(tree[..], h, parent, newState);
        if tree[parent] == newState {
          break;
        }
        ghost var before := tree[..];
        tree[parent] := newState;
        assert tree[..] == before[parent := newState];
        assert forall a: nat :: Under(a, parent) ==> Under(a, node);
        node := parent;
      }
    }

    /** Depth-first search for a free node at `target`, splitting FREE nodes on the way down. */
    method AllocRecursive(node: nat, level: nat, target: nat) returns (result: nat)
      requires levels >= 1 && IsNode(levels - 1, node)
      requires level == Depth(node) <= target <= levels - 1
      requires SubtreeOk(tree[..], levels - 1, node)
      modifies tree
      ensures FirstFree(old(tree[..]), levels - 1, node, target, result)
      ensures tree[..] == if result == 0 then old(tree[..]) else MarkPath(old(tree[..]), node, result)
      ensures old(tree[node]) == Free ==> result != 0
      decreases target - level
    {
      hide Reach, MarkPath, LocalOk;
      var state := tree[node];
      ghost var h := levels - 1;
      ghost var t0 := tree[..];
      if state == Used || state == Full {
        NothingBelow(t0, h, node);
        return 0;
      }
      if level == target {
        OnlyItself(t0, h, node);
        return if state == Free then node else 0;
      }
      BelowChildren(t0, h, node, target);
      var didSplit := false;
      if state == Free {
        tree[node] := Split;
        tree[2 * node] := Free;
        tree[2 * node + 1] := Free;
        didSplit := true;
      }
      ghost var t1 := t0[node := Split];
      assert tree[..] == t1;
      result := AllocRecursive(2 * node, level + 1, target);
      ghost var fromLeft := result;
      if result == 0 {
        result := AllocRecursive(2 * node + 1, level + 1, target);
      }
      if result == 0 && didSplit {
        assert false; // the source undoes the split here: never needed
      }
      FirstOfChildren(t0, h, node, target, fromLeft, result);
    }

    method MmAlloc(size: nat) returns (ptr: nat)
      requires Valid()
      modifies this`usedMem, tree
      ensures Valid()
      ensures Step(TheArena(), old(Blocks()), Request(size, ptr), Blocks())
      ensures if size == 0 || totalSize == 0 then ptr == 0
              else LowestFreeSlot(TheArena(), old(Blocks()), RoundUp(16, size), ptr)
      ensures ptr == 0 ==> tree[..] == old(tree[..]) && usedMem == old(usedMem)
      ensures ptr != 0 ==> Blocks() == old(Blocks()) + {Block(ptr, ptr, RoundUp(16, size))}
      ensures ptr != 0 ==> Block(ptr, ptr, RoundUp(16, size)) !in old(Blocks())
      ensures ptr != 0 ==> usedMem == old(usedMem) + RoundUp(16, size)
      ensures totalSize != 0 ==> Untouched(old(tree[..]), tree[..], levels)
    {
      hide Step, Separated, InArena, Apart, Total, LowestFreeSlot, FreeSlot, Wf, WfExcept, LiveNodes, MarkPath, Reach;
      NothingHappens(Request(size, 0));
      if size == 0 || totalSize == 0 {
        return 0;
      }
      ghost var h, t0 := levels - 1, tree[..];
      var node, blockSize := FindBlock(size);
      if node == 0 {
        return 0;
      }
      Place(t0, node, blockSize);
      ptr := AddressOf(node);
      StepGain(TheArena(), h, t0, tree[..], node, size);
    }

    /** Round the request up and search; on success the path to the node is marked SPLIT. */
    method FindBlock(size: nat) returns (node: nat, blockSize: nat)
      requires totalSize != 0 && Ready()
      modifies tree
      ensures node == 0 ==> tree[..] == old(tree[..])
      ensures node == 0 ==> LowestFreeSlot(TheArena(), old(Blocks()), RoundUp(16, size), 0)
      ensures node != 0 ==> IsNode(levels - 1, node) && Reach(old(tree[..]), levels - 1, 1, node)
      ensures node != 0 ==> tree[..] == MarkPath(old(tree[..]), 1, node)
      ensures node != 0 ==> Size(levels - 1, node) == blockSize == RoundUp(16, size)
      ensures node != 0 ==>
        LowestFreeSlot(TheArena(), old(Blocks()), RoundUp(16, size), Address(heapBase, levels - 1, node))
    {
      hide Separated, InArena, Apart, Total, LowestFreeSlot, FreeSlot, LocalOk, LiveNodes, MarkPath, BlocksOf;
      ghost var h, t0 := levels - 1, tree[..];
      ghost var j;
      blockSize, j := RoundSize(size);
      if blockSize == 0 {
        NoSlotBeyond(TheArena(), Blocks(), RoundUp(16, size));
        return 0, 0;
      }
      RatioDepth(h, j);
      var target := Log2(totalSize / blockSize);
      node := AllocRecursive(1, 0, target);
      SlotsAreNodes(heapBase, h, t0, target, node);
      assert TheArena() == Arena(heapBase, 16 * Pow2(h));
    }

    /** The block size for a request, or 0 when it exceeds the arena. */
    method RoundSize(size: nat) returns (blockSize: nat, ghost j: nat)
      requires totalSize != 0 && Ready()
      ensures if blockSize == 0 then RoundUp(16, size) > totalSize
              else blockSize == RoundUp(16, size) == 16 * Pow2(j) && j <= levels - 1
    {
      ghost var h := levels - 1;
      blockSize := minBlock;
      j := 0;
      while blockSize < size
        invariant j <= h && blockSize == 16 * Pow2(j)
        invariant RoundUp(blockSize, size) == RoundUp(16, size)
        decreases h - j
      {
        Pow2Monotone(j, h);
        if blockSize >= totalSize {
          return 0, 0;
        }
        assert j != h;
        blockSize := blockSize * 2;
        j := j + 1;
      }
      Pow2Monotone(j, h);
      if blockSize > totalSize {
        assert false; // the source gives up here; the loop has already checked it
      }
    }

    /** Mark the node the search returned as used. */
    method Place(ghost t0: seq<NodeState>, node: nat, blockSize: nat)
      requires totalSize != 0 && Books(t0) && IsNode(levels - 1, node) && blockSize == Size(levels - 1, node)
      requires Reach(t0, levels - 1, 1, node) && tree[..] == MarkPath(t0, 1, node)
      modifies this`usedMem, tree
      ensures Ready() && Untouched(t0, tree[..], levels)
      ensures LiveNodes(tree[..], levels - 1) == LiveNodes(t0, levels - 1) + {node}
      ensures node !in LiveNodes(t0, levels - 1)
      ensures BlocksOf(heapBase, levels - 1, tree[..]) ==
              BlocksOf(heapBase, levels - 1, t0) + {BlockOf(heapBase, levels - 1, node)}
      ensures usedMem == old(usedMem) + blockSize
    {
      hide Separated, Total, LocalOk, LiveNodes, MarkPath, Reach, BlocksOf;
      PlaceInTree(t0, node);
      usedMem := usedMem + blockSize;
      GainBlock(heapBase, levels - 1, t0, tree[..], node);
    }

    method PlaceInTree(ghost t0: seq<NodeState>, node: nat)
      requires levels >= 1 && Wf(t0, levels - 1) && Reach(t0, levels - 1, 1, node)
      requires tree[..] == MarkPath(t0, 1, node)
      modifies tree
      ensures Wf(tree[..], levels - 1) && Untouched(t0, tree[..], levels)
      ensures LiveNodes(tree[..], levels - 1) == LiveNodes(t0, levels - 1) + {node}
      ensures node !in LiveNodes(t0, levels - 1)
    {
      hide LocalOk, LiveNodes;
      Claimed(t0, levels - 1, node);
      MarkUntouched(t0, levels, node);
      tree[node] := Used;
      assert tree[..] == MarkPath(t0, 1, node)[node := Used];
      UpdateParent(node);
    }

    method AddressOf(node: nat) returns (ptr: nat)
      requires Ready() && IsNode(levels - 1, node)
      ensures ptr == Address(heapBase, levels - 1, node) != 0
    {
      var level := Log2(node);
      var pos := node - Pow2(level);
      NodeDepth(levels - 1, node);
      ShiftedSize(levels - 1, level);
      AddressAligned(heapBase, levels - 1, node);
      ptr := heapBase + pos * (totalSize / Pow2(level));
    }

    method BlockSizeOf(node: nat) returns (blockSize: nat)
      requires Ready() && IsNode(levels - 1, node)
      ensures blockSize == Size(levels - 1, node)
    {
      var level := Log2(node);
      NodeDepth(levels - 1, node);
      ShiftedSize(levels - 1, level);
      blockSize := totalSize / Pow2(level);
    }

    /** The one node of level `lvl` that starts at `offset`, or 0 if `offset` is not aligned. */
    method NodeStartingAt(lvl: nat, offset: nat) returns (node: nat)
      requires totalSize != 0 && Ready() && offset < totalSize && lvl <= levels - 1
      ensures node != 0 ==> IsNode(levels - 1, node) && Address(heapBase, levels - 1, node) == heapBase + offset
      ensures forall n | n in LiveNodes(tree[..], levels - 1) && Depth(n) == lvl ::
                Address(heapBase, levels - 1, n) == heapBase + offset ==> n == node
    {
      hide Separated, Total, LocalOk;
      var bsz := totalSize / Pow2(lvl);
      ShiftedSize(levels - 1, lvl);
      OnlyCandidate(heapBase, levels - 1, tree[..], lvl, heapBase + offset);
      return if offset % bsz == 0 then Pow2(lvl) + offset / bsz else 0;
    }

    /** Walk from the leaves up for a USED node whose block starts at `offset`. */
    method FindUsed(offset: nat) returns (found: nat)
      requires totalSize != 0 && Ready() && offset < totalSize
      ensures found != 0 ==> found in LiveNodes(tree[..], levels - 1)
      ensures found != 0 ==> BlockOf(heapBase, levels - 1, found).ptr == heapBase + offset
      ensures found == 0 ==> heapBase + offset !in Pointers(Blocks())
    {
      hide Total, LocalOk;
      ghost var h := levels - 1;
      var lvl: int := levels - 1;
      forall n | n in LiveNodes(tree[..], h)
        ensures Depth(n) <= h
      {
        NodeDepth(h, n);
      }
      while lvl >= 0
        invariant -1 <= lvl <= h
        invariant forall n :: n in LiveNodes(tree[..], h) && Depth(n) > lvl ==>
                                Address(heapBase, h, n) != heapBase + offset
      {
        var node := NodeStartingAt(lvl, offset);
        if node != 0 && tree[node] == Used {
          return node;
        }
        lvl := lvl - 1;
      }
      return 0;
    }

    /** Free the parent of a free node for as long as its buddy is free too. */
    method Merge(start: nat) returns (node: nat)
      requires levels >= 1 && IsNode(levels - 1, start) && WfExcept(tree[..], levels - 1, start / 2)
      requires tree[start] == Free
      requires forall a: nat :: Under(a, start) && a != start ==> tree[a] != Used
      modifies tree
      ensures IsNode(levels - 1, node) && WfExcept(tree[..], levels - 1, node / 2)
      ensures LiveNodes(tree[..], levels - 1) == LiveNodes(old(tree[..]), levels - 1)
      ensures forall a: nat :: Under(a, node) && a != node ==> tree[a] != Used
      ensures Untouched(old(tree[..]), tree[..], levels)
    {
      node := start;
      ghost var h := levels - 1;
      while node > 1
        invariant IsNode(h, node) && WfExcept(tree[..], h, node / 2) && tree[node] == Free
        invariant LiveNodes(tree[..], h) == LiveNodes(old(tree[..]), h)
        invariant forall a: nat :: Under(a, node) && a != node ==> tree[a] != Used
        invariant Untouched(old(tree[..]), tree[..], levels)
      {
        var buddyNode := if node % 2 == 0 then node + 1 else node - 1;
        if tree[buddyNode] != Free {
          break;
        }
        ghost var parent, before := node / 2, tree[..];
        assert Under(parent, node);
        assert forall a: nat :: Under(a, parent) ==> Under(a, node);
        Recomputed(before, h, parent, Free);
        tree[node / 2] := Free;
        assert tree[..] == before[parent := Free];
        node := node / 2;
      }
    }

    method MmFree(ptr: nat)
      requires Valid()
      modifies this`usedMem, tree
      ensures Valid()
      ensures Step(TheArena(), old(Blocks()), Release(ptr), Blocks())
      // any pointer that does not start a live block changes nothing ...
      ensures ptr !in Pointers(old(Blocks())) ==> tree[..] == old(tree[..]) && usedMem == old(usedMem)
      // ... and one that does releases that block and no other
      ensures forall b :: b in old(Blocks()) && b.ptr == ptr
                ==> Blocks() == old(Blocks()) - {b} && usedMem == old(usedMem) - b.len
      ensures totalSize != 0 ==> Untouched(old(tree[..]), tree[..], levels)
    {
      hide Step, Separated, InArena, Apart, Total, LowestFreeSlot, FreeSlot, Wf, WfExcept, LiveNodes, MarkPath, Reach;
      if ptr !in Pointers(Blocks()) {
        NothingHappens(Release(ptr));
      }
      if ptr == 0 || totalSize == 0 {
        OutsideIsNoBlock(ptr);
        return;
      }
      if ptr < heapBase {
        OutsideIsNoBlock(ptr);
        return;
      }
      var offset := ptr - heapBase;
      if offset >= totalSize {
        OutsideIsNoBlock(ptr);
        return;
      }
      var found := FindUsed(offset);
      if found == 0 {
        return;
      }
      ghost var t0 := tree[..];
      ReleaseNode(found);
      StepLoss(TheArena(), levels - 1, t0, tree[..], found);
    }

    /** Free the block of a used node and coalesce it with its free buddies. */
    method ReleaseNode(found: nat)
      requires totalSize != 0 && Ready() && found in LiveNodes(tree[..], levels - 1)
      modifies this`usedMem, tree
      ensures Ready() && Untouched(old(tree[..]), tree[..], levels)
      ensures LiveNodes(tree[..], levels - 1) == LiveNodes(old(tree[..]), levels - 1) - {found}
      ensures var b := BlockOf(heapBase, levels - 1, found);
              && b in old(Blocks())
              && Blocks() == old(Blocks()) - {b}
              && usedMem == old(usedMem) - b.len
    {
      hide Separated, Total, LocalOk;
      ghost var t0 := tree[..];
      var blockSize := BlockSizeOf(found);
      ReleaseInTree(found);
      LoseBlock(heapBase, levels - 1, t0, tree[..], found);
      usedMem := usedMem - blockSize;
    }

    method ReleaseInTree(found: nat)
      requires levels >= 1 && Wf(tree[..], levels - 1) && found in LiveNodes(tree[..], levels - 1)
      modifies tree
      ensures Wf(tree[..], levels - 1) && Untouched(old(tree[..]), tree[..], levels)
      ensures LiveNodes(tree[..], levels - 1) == LiveNodes(old(tree[..]), levels - 1) - {found}
    {
      Tree.Released(tree[..], levels - 1, found);
      tree[found] := Free;
      assert tree[..] == old(tree[..])[found := Free];
      var node := Merge(found);
      if node > 1 {
        UpdateParent(node);
      }
    }

    /** Giving back what was just allocated restores every byte of the tree. */
    method AllocThenFree(size: nat) returns (ptr: nat)
      requires Valid()
      modifies this`usedMem, tree
      ensures Valid()
      ensures tree[..] == old(tree[..]) && usedMem == old(usedMem)
    {
      hide Step, Separated, LowestFreeSlot, Wf, WfExcept, LiveNodes, Total;
      ptr := MmAlloc(size);
      if ptr != 0 {
        assert Block(ptr, ptr, RoundUp(16, size)) in Blocks();
        MmFree(ptr);
        assert Blocks() == old(Blocks());
        SameBlocksSameTree(heapBase, levels - 1, old(tree[..]), tree[..]);
      }
    }

    /** Whatever was allocated, freeing it all in any order gives back the tree of a fresh manager. */
    method FreeAll(ptrs: seq<nat>)
      requires Valid() && totalSize != 0
      requires forall b :: b in Blocks() ==> b.ptr in ptrs
      modifies this`usedMem, tree
      ensures Valid() && Blocks() == {} && usedMem == 0
      ensures forall i :: 1 <= i < Pow2(levels) ==> tree[i] == Free
      ensures Untouched(old(tree[..]), tree[..], levels)
    {
      hide Step, Separated, LocalOk, LiveNodes, CanonicalState, BlocksOf;
      var i := 0;
      while i < |ptrs|
        invariant 0 <= i <= |ptrs| && Valid()
        invariant forall b :: b in Blocks() ==> b.ptr in ptrs[i..]
        invariant Untouched(old(tree[..]), tree[..], levels)
      {
        MmFree(ptrs[i]);
        i := i + 1;
      }
      assert Blocks() == {};
      NoBlocksNoUse(heapBase, levels - 1, tree[..]);
      assert forall i :: 1 <= i < Pow2(levels) ==> tree[..][i] == Free;
    }

    /** After freeing everything the whole arena can be allocated at once. */
    method FreeAllThenTakeArena(ptrs: seq<nat>) returns (ptr: nat)
      requires Valid() && totalSize != 0
      requires forall b :: b in Blocks() ==> b.ptr in ptrs
      modifies this`usedMem, tree
      ensures Valid() && ptr == heapBase && Blocks() == {Block(heapBase, heapBase, totalSize)}
    {
      hide Step, Separated, Wf, WfExcept, LiveNodes, CanonicalState, BlocksOf;
      FreeAll(ptrs);
      WholeArena(heapBase, levels - 1);
      ptr := MmAlloc(totalSize);
    }

    /** The three figures agree except after a re-initialisation that failed, when `usedMem` is stale. */
    method MmState() returns (total: nat, used: nat, free: nat)
      requires Valid() && totalSize < WORD && usedMem < WORD
      ensures total == totalSize && used == usedMem
      ensures totalSize != 0 ==> used == Total(Blocks())
      ensures total == used + free <==> totalSize != 0 || usedMem == 0
    {
      hide InArena, Apart, Wf, WfExcept, BlocksOf, Total;
      BlocksSeparated();
      TotalFits(TheArena(), Blocks());
      total := totalSize;
      used := usedMem;
      free := (totalSize + WORD - usedMem) % WORD;
    }
  }

  /** `len` bytes at the base of an arena without blocks are a free slot. */
  lemma BaseIsFree(arena: Arena, len: nat)
    requires 0 < len <= arena.size
    ensures FreeSlot(arena, {}, len, arena.base)
  {
  }

  /** A manager that holds a block and is then initialised once more without a heap reports a wrong balance. */
  method StaleUsage() returns (b: Buddy, total: nat, used: nat, free: nat)
    ensures fresh(b) && b.Valid() && total == 0 && used == 16 && total != used + free
  {
    hide Step, Separated, Total, FreeSlot, BlocksOf, Wf, WfExcept, Pow2;
    b := new Buddy();
    b.MmInit(16, 1024);
    BaseIsFree(b.TheArena(), 16);
    var ptr := b.MmAlloc(16);
    b.MmInit(0, 0);
    total, used, free := b.MmState();
  }

  /** At each level a single node can start at a given address. */
  lemma OnlyCandidate(base: nat, h: nat, t: seq<NodeState>, d: nat, s: nat)
    requires d <= h && base <= s < base + 16 * Pow2(h) && Wf(t, h)
    ensures var w := 16 * Pow2(h - d);
            var m := Pow2(d) + (s - base) / w;
            && ((s - base) % w == 0 ==> IsNode(h, m) && Address(base, h, m) == s)
            && forall n :: IsNode(h, n) && Depth(n) == d && Address(base, h, n) == s
                           ==> (s - base) % w == 0 && n == m
  {
    var w := 16 * Pow2(h - d);
    if (s - base) % w == 0 {
      var q := AlignedIndex(h, d, s - base);
      NodeAt(base, h, d, q);
    }
    forall n: nat | IsNode(h, n) && Depth(n) == d && Address(base, h, n) == s
      ensures (s - base) % w == 0 && n == Pow2(d) + (s - base) / w
    {
      AddressAligned(base, h, n);
      DivisionWithRest(s - base, w, n - Pow2(d), 0);
    }
  }

  lemma SameBlockSameNode(base: nat, h: nat, a: nat, b: nat)
    requires IsNode(h, a) && IsNode(h, b) && BlockOf(base, h, a) == BlockOf(base, h, b)
    ensures a == b
  {
    BlockShape(h, a);
    BlockShape(h, b);
    if Depth(a) < Depth(b) {
      Pow2Monotone(h - Depth(b), h - Depth(a));
    } else if Depth(b) < Depth(a) {
      Pow2Monotone(h - Depth(a), h - Depth(b));
    } else if a < b {
      LoMonotone(a, b, h - Depth(a));
    } else {
      LoMonotone(b, a, h - Depth(a));
    }
  }

  /** A tree is its live blocks: managers with the same blocks have the same bytes. */
  lemma SameBlocksSameTree(base: nat, h: nat, t: seq<NodeState>, t': seq<NodeState>)
    requires Wf(t, h) && Wf(t', h) && Untouched(t, t', h + 1)
    requires BlocksOf(base, h, t) == BlocksOf(base, h, t')
    ensures t == t'
  {
    LiveFromBlocks(base, h, t, t');
    LiveFromBlocks(base, h, t', t);
    forall n | 0 <= n < |t|
      ensures t[n] == t'[n]
    {
      if 1 <= n < Pow2(h + 1) {
        CanonicalForm(t, h, n);
        CanonicalForm(t', h, n);
      }
    }
  }

  lemma LiveFromBlocks(base: nat, h: nat, t: seq<NodeState>, t': seq<NodeState>)
    requires Wf(t, h) && Wf(t', h) && BlocksOf(base, h, t) == BlocksOf(base, h, t')
    ensures LiveNodes(t, h) <= LiveNodes(t', h)
  {
    forall a | a in LiveNodes(t, h)
      ensures a in LiveNodes(t', h)
    {
      assert BlockOf(base, h, a) in BlocksOf(base, h, t');
      var b :| b in LiveNodes(t', h) && BlockOf(base, h, a) == BlockOf(base, h, b);
      SameBlockSameNode(base, h, a, b);
    }
  }

  lemma NoBlocksNoUse(base: nat, h: nat, t: seq<NodeState>)
    requires Wf(t, h) && BlocksOf(base, h, t) == {}
    ensures Total(BlocksOf(base, h, t)) == 0
    ensures forall n :: 1 <= n < Pow2(h + 1) ==> t[n] == Free
  {
    if LiveNodes(t, h) != {} {
      LiveNodeHasBlock(base, h, t);
    }
    forall n | 1 <= n < Pow2(h + 1)
      ensures t[n] == Free
    {
      CanonicalForm(t, h, n);
    }
  }

  lemma LiveNodeHasBlock(base: nat, h: nat, t: seq<NodeState>)
    requires Pow2(h + 1) <= |t| && LiveNodes(t, h) != {}
    ensures BlocksOf(base, h, t) != {}
  {
    var a :| a in LiveNodes(t, h);
    assert BlockOf(base, h, a) in BlocksOf(base, h, t);
  }

  lemma WholeArena(base: nat, h: nat)
    requires base > 0
    ensures RoundUp(16, 16 * Pow2(h)) == 16 * Pow2(h)
    ensures forall ptr :: LowestFreeSlot(Arena(base, 16 * Pow2(h)), {}, 16 * Pow2(h), ptr) ==> ptr == base
  {
    RoundUpPower(0, h);
    assert FreeSlot(Arena(base, 16 * Pow2(h)), {}, 16 * Pow2(h), base);
  }

  lemma {:induction false} RoundUpPower(j: nat, h: nat)
    requires j <= h
    ensures RoundUp(16 * Pow2(j), 16 * Pow2(h)) == 16 * Pow2(h)
    decreases h - j
  {
    Pow2Monotone(j, h);
    if j < h {
      RoundUpPower(j + 1, h);
    }
  }

  lemma StepGain(arena: Arena, h: nat, t: seq<NodeState>, t': seq<NodeState>, n: nat, size: nat)
    requires Wf(t, h) && Wf(t', h) && IsNode(h, n) && n !in LiveNodes(t, h)
    requires LiveNodes(t', h) == LiveNodes(t, h) + {n}
    requires arena.size == 16 * Pow2(h) && arena.base > 0 && size <= Size(h, n)
    ensures Step(arena, BlocksOf(arena.base, h, t), Request(size, Address(arena.base, h, n)),
                 BlocksOf(arena.base, h, t'))
  {
    LiveBlocksSeparated(arena.base, h, t);
    LiveBlocksSeparated(arena.base, h, t');
    GainBlock(arena.base, h, t, t', n);
    AddressAligned(arena.base, h, n);
    Served(arena, BlocksOf(arena.base, h, t), size, BlockOf(arena.base, h, n), BlocksOf(arena.base, h, t'));
  }

  lemma StepLoss(arena: Arena, h: nat, t: seq<NodeState>, t': seq<NodeState>, n: nat)
    requires Wf(t, h) && Wf(t', h) && n in LiveNodes(t, h)
    requires LiveNodes(t', h) == LiveNodes(t, h) - {n}
    requires arena.size == 16 * Pow2(h)
    ensures Step(arena, BlocksOf(arena.base, h, t), Release(Address(arena.base, h, n)), BlocksOf(arena.base, h, t'))
    ensures forall b :: b in BlocksOf(arena.base, h, t) && b.ptr == Address(arena.base, h, n)
              ==> b == BlockOf(arena.base, h, n)
  {
    LiveBlocksSeparated(arena.base, h, t);
    LoseBlock(arena.base, h, t, t', n);
    Spec.Released(arena, BlocksOf(arena.base, h, t), BlockOf(arena.base, h, n), BlocksOf(arena.base, h, t'));
  }

  lemma LoseBlock(base: nat, h: nat, t: seq<NodeState>, t': seq<NodeState>, n: nat)
    requires Wf(t, h) && Wf(t', h) && n in LiveNodes(t, h)
    requires LiveNodes(t', h) == LiveNodes(t, h) - {n}
    ensures BlocksOf(base, h, t') == BlocksOf(base, h, t) - {BlockOf(base, h, n)}
    ensures BlockOf(base, h, n) in BlocksOf(base, h, t)
    ensures Total(BlocksOf(base, h, t')) == Total(BlocksOf(base, h, t)) - Size(h, n)
  {
    assert LiveNodes(t', h) + {n} == LiveNodes(t, h);
    GainBlock(base, h, t', t, n);
  }

  /** Bytes of the tree array outside the nodes in use keep their values. */
  ghost predicate Untouched(t: seq<NodeState>, t': seq<NodeState>, levels: nat) {
    && |t| == |t'|
    && forall i :: 0 <= i < |t| && (i == 0 || Pow2(levels) <= i) ==> t'[i] == t[i]
  }

  lemma MarkUntouched(t: seq<NodeState>, levels: nat, r: nat)
    requires r < Pow2(levels)
    ensures Untouched(t, MarkPath(t, 1, r), levels)
  {
  }

  lemma RatioDepth(h: nat, j: nat)
    requires j <= h
    ensures 16 * Pow2(h) / (16 * Pow2(j)) == Pow2(h - j)
    ensures Depth(Pow2(h - j)) == h - j
  {
    Pow2Adds(h - j, j);
    ArenaInUnits(Pow2(h - j), Pow2(j));
    DivisionWithRest(16 * Pow2(h), 16 * Pow2(j), Pow2(h - j), 0);
    DepthUnique(Pow2(h - j), h - j);
  }

  lemma ShiftedSize(h: nat, level: nat)
    requires level <= h
    ensures 16 * Pow2(h) / Pow2(level) == 16 * Pow2(h - level)
  {
    Pow2Adds(level, h - level);
    ArenaInUnits(Pow2(level), Pow2(h - level));
    DivisionWithRest(16 * Pow2(h), Pow2(level), 16 * Pow2(h - level), 0);
  }

  /** The search's answer, said in addresses. */
  lemma SlotsAreNodes(base: nat, h: nat, t: seq<NodeState>, target: nat, r: nat)
    requires Wf(t, h) && target <= h && FirstFree(t, h, 1, target, r) && base > 0
    ensures r != 0 ==> IsNode(h, r) && Size(h, r) == 16 * Pow2(h - target)
    ensures LowestFreeSlot(Arena(base, 16 * Pow2(h)), BlocksOf(base, h, t), 16 * Pow2(h - target),
                           if r == 0 then 0 else Address(base, h, r))
  {
    var len := 16 * Pow2(h - target);
    var arena := Arena(base, 16 * Pow2(h));
    if r != 0 {
      UntouchedIsFreeSlot(base, h, t, r);
    }
    forall s | FreeSlot(arena, BlocksOf(base, h, t), len, s)
      ensures r != 0 && Address(base, h, r) <= s
    {
      var m := SlotNode(base, h, t, target, s);
      assert r != 0 && r <= m;
      AddressOrder(base, h, r, m);
    }
  }

  lemma NoSlotBeyond(arena: Arena, blocks: set<Block>, len: nat)
    requires len > arena.size
    ensures LowestFreeSlot(arena, blocks, len, 0)
  {
  }

  lemma SlotNode(base: nat, h: nat, t: seq<NodeState>, target: nat, s: nat) returns (m: nat)
    requires Wf(t, h) && target <= h
    requires FreeSlot(Arena(base, 16 * Pow2(h)), BlocksOf(base, h, t), 16 * Pow2(h - target), s)
    ensures IsNode(h, m) && Depth(m) == target && Reach(t, h, 1, m) && Address(base, h, m) == s
  {
    MultipleIsMod(s - base, 16 * Pow2(h - target));
    var q := AlignedIndex(h, target, s - base);
    NodeAt(base, h, target, q);
    m := Pow2(target) + q;
    UntouchedIsFreeSlot(base, h, t, m);
  }

  /** One more live node is one more block. */
  lemma GainBlock(base: nat, h: nat, t: seq<NodeState>, t': seq<NodeState>, n: nat)
    requires Wf(t, h) && Wf(t', h) && n !in LiveNodes(t, h)
    requires LiveNodes(t', h) == LiveNodes(t, h) + {n}
    ensures IsNode(h, n)
    ensures BlocksOf(base, h, t') == BlocksOf(base, h, t) + {BlockOf(base, h, n)}
    ensures BlockOf(base, h, n) !in BlocksOf(base, h, t)
    ensures Total(BlocksOf(base, h, t')) == Total(BlocksOf(base, h, t)) + Size(h, n)
  {
    assert n in LiveNodes(t', h);
    LiveBlocksSeparated(base, h, t);
    LiveBlocksSeparated(base, h, t');
    assert n in LiveNodes(t', h);
    assert forall a :: a in LiveNodes(t, h) ==> a in LiveNodes(t', h) && a != n;
    TotalInsert(BlocksOf(base, h, t), BlockOf(base, h, n));
  }

  /** `r` is the lowest free node of depth `target` below `node`, or 0 if there is none. */
  ghost predicate FirstFree(t: seq<NodeState>, h: nat, node: nat, target: nat, r: nat) {
    && Pow2(h + 1) <= |t|
    && if r == 0 then forall m :: Depth(m) == target ==> !Reach(t, h, node, m)
       else
         && Reach(t, h, node, r)
         && Depth(r) == target
         && forall m :: Depth(m) == target && Reach(t, h, node, m) ==> r <= m
  }

  lemma FirstOfChildren(t: seq<NodeState>, h: nat, node: nat, target: nat, left: nat, r: nat)
    requires SubtreeOk(t, h, node) && IsNode(h, node) && Depth(node) < target <= h
    requires t[node] == Free || t[node] == Split
    requires FirstFree(t[node := Split], h, 2 * node, target, left)
    requires if left != 0 then r == left else FirstFree(t[node := Split], h, 2 * node + 1, target, r)
    ensures FirstFree(t, h, node, target, r)
    ensures r != 0 ==> MarkPath(t, node, r) ==
                       MarkPath(t[node := Split], if left != 0 then 2 * node else 2 * node + 1, r)
    ensures r == 0 && t[node] == Split ==> t[node := Split] == t
  {
    BelowChildren(t, h, node, target);
    if r != 0 {
      MarkPathChild(t, node, if left != 0 then 2 * node else 2 * node + 1, r);
    }
  }

  lemma TreeFits(heapSize: nat)
    requires heapSize >= 16 * 4
    ensures 8 <= TreeSize(heapSize)
    ensures 8 * TreeSize(heapSize) <= heapSize
  {
    var ratio := heapSize / 16;
    DepthBounds(ratio);
    assert Pow2(2) == 4;
    if Depth(ratio) < 2 {
      Pow2Monotone(Depth(ratio) + 1, 2);
    }
    Pow2Monotone(2, Depth(ratio));
  }

  lemma SixteenTimes(k: nat)
    ensures Pow2(k + 4) == 16 * Pow2(k)
  {
    assert Pow2(k + 4) == 2 * Pow2(k + 3) == 4 * Pow2(k + 2) == 8 * Pow2(k + 1);
  }

  lemma ArenaHeight(heapSize: nat, total: nat, e: nat)
    requires heapSize >= 16 * 4 && total == Pow2(e) <= heapSize - TreeSize(heapSize) < 2 * total
    requires 8 <= TreeSize(heapSize) && 8 * TreeSize(heapSize) <= heapSize
    ensures e >= 4 && total == 16 * Pow2(e - 4) && total / 16 == Pow2(e - 4)
    ensures Depth(total / 16) == e - 4
    ensures Pow2(e - 3) <= TreeSize(heapSize)
    ensures 16 * total > 7 * heapSize
  {
    hide Pow2, Depth;
    AtLeastSixteen(e, total);
    SixteenTimes(e - 4);
    DoublePower(e - 4);
    DepthUnique(Pow2(e - 4), e - 4);
    DepthMonotone(Pow2(e - 4), heapSize / 16);
    Pow2Monotone(e - 3, Depth(heapSize / 16) + 1);
  }

  lemma AtLeastSixteen(e: nat, total: nat)
    requires total == Pow2(e) && total > 8
    ensures e >= 4
  {
    assert Pow2(3) == 8;
    if e < 4 {
      Pow2Monotone(e, 3);
    }
  }

  lemma DoublePower(k: nat)
    ensures Pow2(k + 1) == 2 * Pow2(k)
  {
  }

  lemma {:induction false} DepthMonotone(n: nat, m: nat)
    requires 1 <= n <= m
    ensures Depth(n) <= Depth(m)
  {
    if n > 1 {
      DepthMonotone(n / 2, m / 2);
    }
  }

  lemma EmptyTree(base: nat, h: nat, t: seq<NodeState>)
    requires Pow2(h + 1) <= |t|
    requires forall j :: 0 <= j < Pow2(h + 1) ==> t[j] == Free
    ensures Wf(t, h) && BlocksOf(base, h, t) == {} && Total(BlocksOf(base, h, t)) == 0
  {
  }

  lemma NothingBelow(t: seq<NodeState>, h: nat, node: nat)
    requires SubtreeOk(t, h, node) && IsNode(h, node) && (t[node] == Used || t[node] == Full)
    ensures forall target :: FirstFree(t, h, node, target, 0)
  {
    forall m
      ensures !Reach(t, h, node, m)
    {
      if Reach(t, h, node, m) {
        assert Under(node, node);
        FullBlocks(t, h, node, m);
      }
    }
  }

  lemma OnlyItself(t: seq<NodeState>, h: nat, node: nat)
    requires IsNode(h, node) && Pow2(h + 1) <= |t|
    ensures FirstFree(t, h, node, Depth(node), if t[node] == Free then node else 0)
    ensures t[node] == Free ==> MarkPath(t, node, node) == t
  {
    forall m | Depth(m) == Depth(node) && Reach(t, h, node, m)
      ensures m == node
    {
      UnderSameDepth(node, m);
    }
    forall p: nat | Under(node, p) && Under(p, node)
      ensures p == node
    {
      UnderDepth(node, p);
      UnderDepth(p, node);
    }
  }

  /** Everything the two recursive searches below `node` need, and how their answers combine. */
  lemma BelowChildren(t: seq<NodeState>, h: nat, node: nat, target: nat)
    requires SubtreeOk(t, h, node) && IsNode(h, node) && Depth(node) < target <= h
    requires t[node] == Free || t[node] == Split
    ensures node < Pow2(h)
    ensures IsNode(h, 2 * node) && IsNode(h, 2 * node + 1)
    ensures Depth(2 * node) == Depth(2 * node + 1) == Depth(node) + 1
    ensures SubtreeOk(t[node := Split], h, 2 * node) && SubtreeOk(t[node := Split], h, 2 * node + 1)
    ensures forall m :: Depth(m) == target ==>
              (Reach(t, h, node, m) <==>
               Reach(t[node := Split], h, 2 * node, m) || Reach(t[node := Split], h, 2 * node + 1, m))
    ensures forall l, r :: Depth(l) == Depth(r) == target && Under(2 * node, l) && Under(2 * node + 1, r) ==> l < r
    ensures t[node] == Free ==> t[2 * node] == Free && t[2 * node + 1] == Free
  {
    NodeDepth(h, node);
    assert Under(node, node);
    assert LocalOk(t, h, node);
    ParentIrrelevant(t, h, node, 2 * node, Split);
    ParentIrrelevant(t, h, node, 2 * node + 1, Split);
    forall m | Depth(m) == target
      ensures Reach(t, h, node, m) <==>
              Reach(t[node := Split], h, 2 * node, m) || Reach(t[node := Split], h, 2 * node + 1, m)
    {
      if Under(2 * node, m) && IsNode(h, m) {
        ReachChild(t, h, node, 2 * node, m);
      }
      if Under(2 * node + 1, m) && IsNode(h, m) {
        ReachChild(t, h, node, 2 * node + 1, m);
      }
      if Reach(t, h, node, m) {
        UnderChild(node, m);
      }
    }
    forall l, r | Depth(l) == Depth(r) == target && Under(2 * node, l) && Under(2 * node + 1, r)
      ensures l < r
    {
      UnderInterval(2 * node, l, target - Depth(node) - 1);
      UnderInterval(2 * node + 1, r, target - Depth(node) - 1);
    }
  }
}
