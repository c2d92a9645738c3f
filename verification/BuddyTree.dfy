/**
 The tree of the buddy allocator as a value: a 1-indexed sequence of node states. A node `n` has
 children `2n` and `2n+1`; a tree of height `h` has the nodes `1 .. Pow2(h+1)-1`, and its leaves
 `Pow2(h) .. Pow2(h+1)-1` stand for the smallest blocks in address order.
*/
module BuddyTree {

  datatype NodeState = Free | Used | Split | Full

  // ----- powers of two and the shape of the tree -----

  function Pow2(k: nat): (p: nat)
    ensures k < p
  {
    if k == 0 then 1 else 2 * Pow2(k - 1)
  }

  /** Number of edges from the root to node `n`. */
  function Depth(n: nat): nat {
    if n <= 1 then 0 else 1 + Depth(n / 2)
  }

  ghost predicate IsNode(h: nat, n: nat) {
    1 <= n < Pow2(h + 1)
  }

  /** `a` is `n` or one of its ancestors. */
  ghost predicate Under(a: nat, n: nat) {
    1 <= a <= n && (a == n || Under(a, n / 2))
  }

  /** `n * Pow2(k)`: the leftmost node `k` levels below `n`; `Lo(n+1,k)` is one past the rightmost. */
  function Lo(n: nat, k: nat): nat
    decreases k
  {
    if k == 0 then n else Lo(2 * n, k - 1)
  }

  lemma {:induction false} LoIsProduct(n: nat, k: nat)
    ensures Lo(n, k) == n * Pow2(k)
    decreases k
  {
    if k > 0 {
      LoIsProduct(2 * n, k - 1);
      MoveTwo(n, Pow2(k - 1));
    }
  }

  lemma MoveTwo(n: nat, w: nat)
    ensures 2 * n * w == n * (2 * w)
  {
  }

  lemma {:induction false} LoMonotone(n: nat, m: nat, k: nat)
    requires n <= m
    ensures Lo(n, k) + (m - n) <= Lo(m, k)
    decreases k
  {
    if k > 0 {
      LoMonotone(2 * n, 2 * m, k - 1);
    }
  }

  lemma {:induction false} LoUp(n: nat, k: nat)
    ensures Lo(n, k + 1) == 2 * Lo(n, k)
    decreases k
  {
    if k > 0 {
      LoUp(2 * n, k - 1);
    }
  }

  lemma {:induction false} Pow2Adds(i: nat, j: nat)
    ensures Pow2(i + j) == Lo(Pow2(i), j) == Pow2(i) * Pow2(j)
  {
    LoIsProduct(Pow2(i), j);
    if j == 0 {
    } else {
      Pow2Adds(i, j - 1);
      LoIsProduct(Pow2(i), j - 1);
      MoveTwo(Pow2(i), Pow2(j - 1));
      LoUp(Pow2(i), j - 1);
    }
  }

  lemma {:induction false} Pow2Monotone(i: nat, j: nat)
    requires i <= j
    ensures Pow2(i) <= Pow2(j)
    ensures i < j ==> 2 * Pow2(i) <= Pow2(j)
  {
    if i < j {
      Pow2Monotone(i, j - 1);
    }
  }

  /** The nodes of depth `d` are exactly `Pow2(d) .. Pow2(d+1)-1`. */
  lemma {:induction false} DepthBounds(n: nat)
    requires n >= 1
    ensures Pow2(Depth(n)) <= n < Pow2(Depth(n) + 1)
  {
    if n > 1 {
      DepthBounds(n / 2);
    }
  }

  lemma DepthUnique(n: nat, d: nat)
    requires Pow2(d) <= n < Pow2(d + 1)
    ensures Depth(n) == d
  {
    DepthBounds(n);
    if Depth(n) < d {
      Pow2Monotone(Depth(n) + 1, d);
    } else if d < Depth(n) {
      Pow2Monotone(d + 1, Depth(n));
    }
  }

  lemma NodeDepth(h: nat, n: nat)
    requires IsNode(h, n)
    ensures Depth(n) <= h
    ensures Depth(n) == h <==> Pow2(h) <= n
  {
    DepthBounds(n);
    if Depth(n) > h {
      Pow2Monotone(h + 1, Depth(n));
    }
    if Depth(n) < h {
      Pow2Monotone(Depth(n) + 1, h);
    }
  }

  // ----- ancestors -----

  lemma {:induction false} UnderTrans(a: nat, b: nat, c: nat)
    requires Under(a, b) && Under(b, c)
    ensures Under(a, c)
  {
    if b != c {
      UnderTrans(a, b, c / 2);
    }
  }

  lemma {:induction false} UnderChild(a: nat, n: nat)
    requires Under(a, n) && a != n
    ensures Under(2 * a, n) || Under(2 * a + 1, n)
  {
    if n / 2 != a {
      UnderChild(a, n / 2);
    }
  }

  /** Two ancestors of the same node are related. */
  lemma {:induction false} UnderChain(a: nat, b: nat, n: nat)
    requires Under(a, n) && Under(b, n) && a <= b
    ensures Under(a, b)
  {
    if b != n {
      UnderChain(a, b, n / 2);
    }
  }

  /** Being under `a`, `j` levels down, is an interval of node numbers. */
  lemma {:induction false} UnderInterval(a: nat, n: nat, j: nat)
    requires 1 <= a && 1 <= n && Depth(n) == Depth(a) + j
    ensures Under(a, n) <==> Lo(a, j) <= n < Lo(a + 1, j)
  {
    if j == 0 {
      UnderSameDepth(a, n);
    } else {
      UnderInterval(a, n / 2, j - 1);
      LoUp(a, j - 1);
      LoUp(a + 1, j - 1);
      UnderDepth(a, n);
    }
  }

  lemma {:induction false} UnderDepth(a: nat, n: nat)
    ensures Under(a, n) ==> Depth(a) <= Depth(n) && (a != n ==> Depth(a) < Depth(n))
  {
    if Under(a, n) && a != n {
      UnderDepth(a, n / 2);
    }
  }

  lemma UnderSameDepth(a: nat, n: nat)
    requires 1 <= a && 1 <= n && Depth(n) == Depth(a)
    ensures Under(a, n) <==> a == n
  {
    UnderDepth(a, n);
  }

  // ----- blocks: the leaves below a node -----

  /** Leftmost leaf below `n`. */
  function First(h: nat, n: nat): nat
    requires Depth(n) <= h
  {
    Lo(n, h - Depth(n))
  }

  /** One past the rightmost leaf below `n`. */
  function Last(h: nat, n: nat): nat
    requires Depth(n) <= h
  {
    Lo(n + 1, h - Depth(n))
  }

  ghost predicate Disjoint(h: nat, a: nat, b: nat)
    requires Depth(a) <= h && Depth(b) <= h
  {
    Last(h, a) <= First(h, b) || Last(h, b) <= First(h, a)
  }

  lemma {:induction false} LoCompose(n: nat, i: nat, j: nat)
    ensures Lo(Lo(n, i), j) == Lo(n, i + j)
    decreases i
  {
    if i > 0 {
      LoCompose(2 * n, i - 1, j);
    }
  }

  /** Blocks of a buddy tree are nested or disjoint. */
  lemma NestedOrDisjoint(h: nat, a: nat, b: nat)
    requires 1 <= a && 1 <= b && Depth(a) <= Depth(b) <= h
    ensures First(h, a) < Last(h, a) && First(h, b) < Last(h, b)
    ensures Under(a, b) ==> First(h, a) <= First(h, b) && Last(h, b) <= Last(h, a)
    ensures !Under(a, b) <==> Disjoint(h, a, b)
  {
    var j, k := Depth(b) - Depth(a), h - Depth(b);
    UnderInterval(a, b, j);
    LoCompose(a, j, k);
    LoCompose(a + 1, j, k);
    LoMonotone(a, a + 1, h - Depth(a));
    LoMonotone(b, b + 1, k);
    if b < Lo(a, j) {
      LoMonotone(b + 1, Lo(a, j), k);
    } else if Lo(a + 1, j) <= b {
      LoMonotone(Lo(a + 1, j), b, k);
    } else {
      LoMonotone(Lo(a, j), b, k);
      LoMonotone(b + 1, Lo(a + 1, j), k);
    }
  }

  // ----- node states -----

  predicate Occupied(s: NodeState) {
    s == Used || s == Full
  }

  /** State of an internal node that holds no block itself. */
  function Combine(left: NodeState, right: NodeState): NodeState {
    if left == Free && right == Free then Free
    else if Occupied(left) && Occupied(right) then Full
    else Split
  }

  /** Node `m` agrees with its own children. */
  ghost predicate LocalOk(t: seq<NodeState>, h: nat, m: nat)
    requires IsNode(h, m) && Pow2(h + 1) <= |t|
  {
    if m >= Pow2(h) then t[m] == Free || t[m] == Used
    else if t[m] == Used then t[2 * m] == Free && t[2 * m + 1] == Free
    else t[m] == Combine(t[2 * m], t[2 * m + 1])
  }

  /** Every node except `e` agrees with its children (`e == 0`: every node does). */
  ghost predicate WfExcept(t: seq<NodeState>, h: nat, e: nat) {
    && Pow2(h + 1) <= |t|
    && forall m :: IsNode(h, m) && m != e ==> LocalOk(t, h, m)
  }

  ghost predicate Wf(t: seq<NodeState>, h: nat) {
    WfExcept(t, h, 0)
  }

  /** The nodes that hold a live block. */
  ghost function LiveNodes(t: seq<NodeState>, h: nat): set<nat>
    requires Pow2(h + 1) <= |t|
  {
    set m: nat | m < Pow2(h + 1) && 1 <= m && t[m] == Used
  }

  lemma {:induction false} FreeBelow(t: seq<NodeState>, h: nat, a: nat, n: nat)
    requires Wf(t, h) && IsNode(h, n) && Under(a, n) && a != n
    requires t[a] == Free || t[a] == Used
    ensures t[n] == Free
  {
    var p := n / 2;
    assert IsNode(h, p) && LocalOk(t, h, p);
    if p != a {
      FreeBelow(t, h, a, p);
    }
  }

  // ----- the canonical tree -----

  ghost predicate Covered(live: set<nat>, x: nat) {
    exists a :: a in live && Under(a, x)
  }

  /**
   The state a set of live blocks dictates for node `n`: USED when it is a live block, FREE below a live
   block or when it contains none, FULL when every leaf in it is covered, SPLIT otherwise.
  */
  ghost function CanonicalState(live: set<nat>, h: nat, n: nat): NodeState {
    if n in live then Used
    else if Covered(live, n) then Free
    else if forall a :: a in live ==> !Under(n, a) then Free
    else if forall x :: Pow2(h) <= x < Pow2(h + 1) && Under(n, x) ==> Covered(live, x) then Full
    else Split
  }

  lemma {:induction false} OutsideLive(t: seq<NodeState>, h: nat, n: nat)
    requires Wf(t, h) && IsNode(h, n) && !Covered(LiveNodes(t, h), n)
    ensures t[n] == Free <==> forall a :: a in LiveNodes(t, h) ==> !Under(n, a)
    ensures t[n] == Full <==>
            forall x :: Pow2(h) <= x < Pow2(h + 1) && Under(n, x) ==> Covered(LiveNodes(t, h), x)
    ensures t[n] != Used
    decreases Pow2(h + 1) - n, 0
  {
    var live := LiveNodes(t, h);
    assert Under(n, n);
    assert n !in live;
    assert LocalOk(t, h, n);
    if n >= Pow2(h) {
      forall a | a in live
        ensures !Under(n, a)
      {
        if Under(n, a) && a != n {
          NodeDepth(h, a);
          UnderDepth(n, a);
          NodeDepth(h, n);
        }
      }
      assert Under(n, n) && !Covered(live, n);
    } else {
      ChildSummary(t, h, n, 2 * n);
      ChildSummary(t, h, n, 2 * n + 1);
      forall m | Under(n, m) && m != n
        ensures Under(2 * n, m) || Under(2 * n + 1, m)
      {
        UnderChild(n, m);
      }
      forall m | Under(2 * n, m) || Under(2 * n + 1, m)
        ensures Under(n, m)
      {
        if Under(2 * n, m) {
          UnderTrans(n, 2 * n, m);
        } else {
          UnderTrans(n, 2 * n + 1, m);
        }
      }
    }
  }

  /** What a child `c` of the uncovered node `n` contributes to `Combine`. */
  lemma {:induction false} ChildSummary(t: seq<NodeState>, h: nat, n: nat, c: nat)
    requires Wf(t, h) && IsNode(h, n) && !Covered(LiveNodes(t, h), n)
    requires IsNode(h, c) && c / 2 == n && c > n
    ensures t[c] == Free <==> forall a :: a in LiveNodes(t, h) ==> !Under(c, a)
    ensures Occupied(t[c]) <==>
            forall x :: Pow2(h) <= x < Pow2(h + 1) && Under(c, x) ==> Covered(LiveNodes(t, h), x)
    decreases Pow2(h + 1) - c, 1
  {
    var live := LiveNodes(t, h);
    assert Under(c, c);
    if c in live {
      assert t[c] == Used;
    } else {
      assert t[c] != Used;
      assert forall a: nat :: Under(a, c) && a != c ==> Under(a, n);
      OutsideLive(t, h, c);
    }
  }

  /** The whole tree is determined by its live blocks. */
  lemma CanonicalForm(t: seq<NodeState>, h: nat, n: nat)
    requires Wf(t, h) && IsNode(h, n)
    ensures t[n] == CanonicalState(LiveNodes(t, h), h, n)
  {
    var live := LiveNodes(t, h);
    if n in live {
    } else if Covered(live, n) {
      var a :| a in live && Under(a, n);
      FreeBelow(t, h, a, n);
    } else {
      OutsideLive(t, h, n);
    }
  }

  // ----- the search for a free node -----

  /** Node `m` below `node` is free, and no block on the way down to it is in use. */
  ghost predicate Reach(t: seq<NodeState>, h: nat, node: nat, m: nat)
    requires Pow2(h + 1) <= |t|
  {
    && IsNode(h, m)
    && Under(node, m)
    && t[m] == Free
    && forall p: nat :: Under(node, p) && Under(p, m) ==> t[p] != Used
  }

  /** `t` with the nodes from `node` down to just above `r` marked SPLIT. */
  ghost function MarkPath(t: seq<NodeState>, node: nat, r: nat): seq<NodeState> {
    seq(|t|, i requires 0 <= i < |t| => if i != r && Under(node, i) && Under(i, r) then Split else t[i])
  }

  ghost predicate SubtreeOk(t: seq<NodeState>, h: nat, node: nat) {
    && Pow2(h + 1) <= |t|
    && forall m :: IsNode(h, m) && Under(node, m) ==> LocalOk(t, h, m)
  }

  /** Nothing is free below a FULL node. */
  lemma {:induction false} FullBlocks(t: seq<NodeState>, h: nat, node: nat, m: nat)
    requires SubtreeOk(t, h, node) && IsNode(h, m) && Under(node, m) && t[node] == Full
    requires forall p: nat :: Under(node, p) && Under(p, m) ==> t[p] != Used
    ensures t[m] == Full
  {
    if m != node {
      var q := m / 2;
      assert IsNode(h, q) && Under(node, q) && Under(q, m);
      forall p: nat | Under(node, p) && Under(p, q)
        ensures t[p] != Used
      {
        UnderTrans(p, q, m);
      }
      FullBlocks(t, h, node, q);
      assert LocalOk(t, h, q);
      assert Under(node, m) && Under(m, m);
    }
  }

  lemma SiblingsApart(n: nat, m: nat)
    requires n >= 1
    ensures !(Under(2 * n, m) && Under(2 * n + 1, m))
  {
    if Under(2 * n, m) && Under(2 * n + 1, m) {
      UnderChain(2 * n, 2 * n + 1, m);
    }
  }

  /** A search below `node` continues below the child that leads to `m`. */
  lemma ReachChild(t: seq<NodeState>, h: nat, node: nat, c: nat, m: nat)
    requires Pow2(h + 1) <= |t| && node >= 1 && c / 2 == node && c > node
    requires IsNode(h, m) && Under(c, m) && t[node] != Used
    ensures Under(node, m)
    ensures Reach(t, h, node, m) <==> Reach(t, h, c, m)
  {
    assert Under(node, c);
    UnderTrans(node, c, m);
    forall p: nat | Under(c, p) && Under(p, m)
      ensures Under(node, p)
    {
      UnderTrans(node, c, p);
    }
    forall p: nat | Under(node, p) && Under(p, m) && p != node
      ensures Under(c, p)
    {
      BetweenChild(node, c, p, m);
    }
  }

  lemma BetweenChild(node: nat, c: nat, p: nat, m: nat)
    requires node >= 1 && c / 2 == node && c > node
    requires Under(c, m) && Under(node, p) && Under(p, m) && p != node
    ensures Under(c, p)
  {
    UnderChild(node, p);
    SiblingsApart(node, m);
    if Under(2 * node, p) {
      UnderTrans(2 * node, p, m);
    } else {
      UnderTrans(2 * node + 1, p, m);
    }
  }

  lemma MarkPathChild(t: seq<NodeState>, node: nat, c: nat, r: nat)
    requires 1 <= node < |t| && c / 2 == node && c > node && Under(c, r)
    ensures MarkPath(t, node, r) == MarkPath(t[node := Split], c, r)
  {
    assert Under(node, c);
    UnderTrans(node, c, r);
    forall i | 0 <= i < |t|
      ensures MarkPath(t, node, r)[i] == MarkPath(t[node := Split], c, r)[i]
    {
      if i != r && Under(node, i) && Under(i, r) {
        if i != node {
          BetweenChild(node, c, i, r);
        }
      }
      if Under(c, i) && Under(i, r) {
        UnderTrans(node, c, i);
      }
    }
  }

  /** Reach and the subtree condition below a child do not depend on the parent's own state. */
  lemma ParentIrrelevant(t: seq<NodeState>, h: nat, node: nat, c: nat, s: NodeState)
    requires SubtreeOk(t, h, node) && 1 <= node && IsNode(h, c) && c / 2 == node && c > node
    ensures SubtreeOk(t[node := s], h, c)
    ensures forall m :: Reach(t, h, c, m) <==> Reach(t[node := s], h, c, m)
  {
    assert !Under(c, node);
    assert Under(node, c);
    forall m | IsNode(h, m) && Under(c, m)
      ensures LocalOk(t[node := s], h, m)
    {
      UnderTrans(node, c, m);
      assert LocalOk(t, h, m);
    }
    forall m
      ensures Reach(t, h, c, m) <==> Reach(t[node := s], h, c, m)
    {
    }
  }

  // ----- steps of the update -----

  /** Recomputing the exempted node moves the exemption one level up. */
  lemma Recomputed(t: seq<NodeState>, h: nat, p: nat, s: NodeState)
    requires WfExcept(t, h, p) && IsNode(h, p) && p < Pow2(h)
    requires t[p] != Used && s == Combine(t[2 * p], t[2 * p + 1])
    ensures WfExcept(t[p := s], h, p / 2)
    ensures LiveNodes(t[p := s], h) == LiveNodes(t, h)
    ensures t[p] == s ==> Wf(t, h)
  {
    forall m | IsNode(h, m) && m != p / 2
      ensures LocalOk(t[p := s], h, m)
    {
      assert m != p ==> LocalOk(t, h, m);
    }
    if t[p] == s {
      assert t[p := s] == t;
      forall m | IsNode(h, m)
        ensures LocalOk(t, h, m)
      {
      }
    }
  }

  lemma Released(t: seq<NodeState>, h: nat, n: nat)
    requires Wf(t, h) && IsNode(h, n) && t[n] == Used
    ensures WfExcept(t[n := Free], h, n / 2)
    ensures LiveNodes(t[n := Free], h) == LiveNodes(t, h) - {n}
    ensures forall a: nat :: Under(a, n) && a != n ==> t[a] != Used
  {
    assert LocalOk(t, h, n);
    forall m | IsNode(h, m) && m != n / 2
      ensures LocalOk(t[n := Free], h, m)
    {
      assert LocalOk(t, h, m);
    }
    forall a: nat | Under(a, n) && a != n
      ensures t[a] != Used
    {
      if t[a] == Used {
        FreeBelow(t, h, a, n);
      }
    }
  }

  /** The nodes above a reachable node are FREE or SPLIT. */
  lemma PathStates(t: seq<NodeState>, h: nat, r: nat, a: nat)
    requires Wf(t, h) && Reach(t, h, 1, r) && Under(a, r) && a != r
    ensures IsNode(h, a) && Under(1, a)
    ensures t[a] == Free || t[a] == Split
  {
    RootAbove(a);
    assert t[a] != Used;
    if t[a] == Full {
      forall p: nat | Under(a, p)
        ensures Under(1, p)
      {
        RootAbove(p);
      }
      FullBlocks(t, h, a, r);
    }
  }

  lemma MarkPathAt(t: seq<NodeState>, h: nat, r: nat, m: nat)
    requires Pow2(h + 1) <= |t| && IsNode(h, m) && IsNode(h, r)
    ensures MarkPath(t, 1, r)[r := Used][m] ==
            if m == r then Used else if Under(m, r) then Split else t[m]
  {
    RootAbove(m);
  }

  lemma ClaimedLocally(t: seq<NodeState>, h: nat, r: nat, m: nat)
    requires Wf(t, h) && Reach(t, h, 1, r) && IsNode(h, m) && m != r / 2
    ensures LocalOk(MarkPath(t, 1, r)[r := Used], h, m)
  {
    assert LocalOk(t, h, m);
    MarkPathAt(t, h, r, m);
    if m < Pow2(h) {
      MarkPathAt(t, h, r, 2 * m);
      MarkPathAt(t, h, r, 2 * m + 1);
    }
    if m == r {
    } else if Under(m, r) {
      PathStates(t, h, r, m);
      UnderChild(m, r);
    } else {
      ChildOffPath(m, r);
    }
  }

  lemma Claimed(t: seq<NodeState>, h: nat, r: nat)
    requires Wf(t, h) && Reach(t, h, 1, r)
    ensures WfExcept(MarkPath(t, 1, r)[r := Used], h, r / 2)
    ensures LiveNodes(MarkPath(t, 1, r)[r := Used], h) == LiveNodes(t, h) + {r}
    ensures r !in LiveNodes(t, h)
    ensures forall a: nat :: Under(a, r) && a != r ==> MarkPath(t, 1, r)[a] == Split
  {
    var t' := MarkPath(t, 1, r)[r := Used];
    forall m | IsNode(h, m) && m != r / 2
      ensures LocalOk(t', h, m)
    {
      ClaimedLocally(t, h, r, m);
    }
    forall m: nat | IsNode(h, m)
      ensures t'[m] == Used <==> t[m] == Used || m == r
    {
      MarkPathAt(t, h, r, m);
      if Under(m, r) && m != r {
        PathStates(t, h, r, m);
      }
    }
    assert LiveNodes(t', h) == LiveNodes(t, h) + {r};
    forall a: nat | Under(a, r) && a != r
      ensures MarkPath(t, 1, r)[a] == Split
    {
      RootAbove(a);
    }
  }

  lemma {:induction false} RootAbove(n: nat)
    requires n >= 1
    ensures Under(1, n)
  {
    if n > 1 {
      RootAbove(n / 2);
    }
  }

  lemma ChildOffPath(m: nat, r: nat)
    requires 1 <= m && !Under(m, r)
    ensures !Under(2 * m, r) && !Under(2 * m + 1, r)
  {
    if Under(2 * m, r) {
      UnderTrans(m, 2 * m, r);
    }
    if Under(2 * m + 1, r) {
      UnderTrans(m, 2 * m + 1, r);
    }
  }

  /** A node can be reached by the search iff no live block touches it. */
  lemma ReachIffUntouched(t: seq<NodeState>, h: nat, m: nat)
    requires Wf(t, h) && IsNode(h, m)
    ensures Reach(t, h, 1, m) <==> forall a :: a in LiveNodes(t, h) ==> !Under(a, m) && !Under(m, a)
  {
    var live := LiveNodes(t, h);
    RootAbove(m);
    forall p: nat | Under(p, m)
      ensures Under(1, p) && IsNode(h, p)
    {
      RootAbove(p);
    }
    if Reach(t, h, 1, m) {
      assert !Covered(live, m);
      OutsideLive(t, h, m);
    } else if !Covered(live, m) {
      OutsideLive(t, h, m);
      assert forall p: nat :: Under(p, m) ==> p !in live;
    }
  }

  /** Distinct live blocks do not overlap. */
  lemma LiveDisjoint(t: seq<NodeState>, h: nat, a: nat, b: nat)
    requires Wf(t, h) && a in LiveNodes(t, h) && b in LiveNodes(t, h) && a != b
    ensures Depth(a) <= h && Depth(b) <= h && Disjoint(h, a, b)
  {
    NodeDepth(h, a);
    NodeDepth(h, b);
    if Under(a, b) {
      FreeBelow(t, h, a, b);
    }
    if Under(b, a) {
      FreeBelow(t, h, b, a);
    }
    if Depth(a) <= Depth(b) {
      NestedOrDisjoint(h, a, b);
    } else {
      NestedOrDisjoint(h, b, a);
    }
  }
}
