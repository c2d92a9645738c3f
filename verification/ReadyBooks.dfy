/** The ready lists as sequences of slots, and what linking or unlinking one slot does to everyone's neighbours. */
module ReadyBooks {
  import opened KernelSpec
  import opened KernelInvariant

  /** The lists, and for every slot its list (or -1) and its place there. */
  datatype Books = Books(queues: seq<seq<nat>>, level: seq<int>, place: seq<nat>)

  ghost predicate Sized(b: Books) {
    |b.queues| == PRIORITY_LEVELS && |b.level| == MAX_PROCESSES && |b.place| == MAX_PROCESSES
  }

  ghost predicate Kept(b: Books) {
    && Sized(b)
    && (forall s: nat :: s < MAX_PROCESSES ==>
          && -1 <= b.level[s] < PRIORITY_LEVELS
          && (b.level[s] >= 0 ==> b.place[s] < |b.queues[b.level[s]]| && b.queues[b.level[s]][b.place[s]] == s))
    && (forall l: nat, i: nat :: l < PRIORITY_LEVELS && i < |b.queues[l]| ==>
          b.queues[l][i] < MAX_PROCESSES && b.level[b.queues[l][i]] == l && b.place[b.queues[l][i]] == i)
  }

  function At(q: seq<nat>, i: int): int {
    if 0 <= i < |q| then q[i] else -1
  }

  /** Neighbours of a slot in its list, or -1. */
  function NextSlot(b: Books, s: nat): (r: int)
    requires Kept(b) && s < MAX_PROCESSES
    ensures -1 <= r < MAX_PROCESSES
  {
    if b.level[s] < 0 then -1 else At(b.queues[b.level[s]], b.place[s] + 1)
  }

  function PrevSlot(b: Books, s: nat): (r: int)
    requires Kept(b) && s < MAX_PROCESSES
    ensures -1 <= r < MAX_PROCESSES
  {
    if b.level[s] < 0 then -1 else At(b.queues[b.level[s]], b.place[s] as int - 1)
  }

  function Head(b: Books, l: nat): (r: int)
    requires Kept(b) && l < PRIORITY_LEVELS
    ensures -1 <= r < MAX_PROCESSES
  {
    At(b.queues[l], 0)
  }

  function Last(b: Books, l: nat): (r: int)
    requires Kept(b) && l < PRIORITY_LEVELS
    ensures -1 <= r < MAX_PROCESSES
  {
    At(b.queues[l], |b.queues[l]| - 1)
  }

  lemma NextInList(b: Books, l: nat, i: nat)
    requires Kept(b) && l < PRIORITY_LEVELS && i < |b.queues[l]|
    ensures b.queues[l][i] < MAX_PROCESSES && NextSlot(b, b.queues[l][i]) == At(b.queues[l], i + 1)
  {
  }

  lemma NoNeighbours(b: Books, s: nat)
    requires Kept(b) && s < MAX_PROCESSES && b.level[s] < 0
    ensures NextSlot(b, s) == -1 && PrevSlot(b, s) == -1
  {
  }

  lemma EmptyList(b: Books, l: nat)
    requires Kept(b) && l < PRIORITY_LEVELS
    ensures Head(b, l) == -1 <==> b.queues[l] == []
    ensures Last(b, l) == -1 <==> b.queues[l] == []
  {
  }

  // ----- appending -----

  function Append(b: Books, l: nat, s: nat): Books
    requires Sized(b) && l < PRIORITY_LEVELS && s < MAX_PROCESSES
  {
    Books(b.queues[l := b.queues[l] + [s]], b.level[s := l], b.place[s := |b.queues[l]|])
  }

  lemma AppendKept(b: Books, l: nat, s: nat)
    requires Kept(b) && l < PRIORITY_LEVELS && s < MAX_PROCESSES && b.level[s] < 0
    ensures Kept(Append(b, l, s))
  {
  }

  /** Only the last of the list and the newcomer get new neighbours. */
  lemma AppendLinks(b: Books, l: nat, s: nat)
    requires Kept(b) && l < PRIORITY_LEVELS && s < MAX_PROCESSES && b.level[s] < 0
    ensures var b' := Append(b, l, s);
            && Kept(b') && Last(b, l) != s
            && (forall t: nat :: t < MAX_PROCESSES ==>
                  && NextSlot(b', t) == (if t == Last(b, l) then s else if t == s then -1 else NextSlot(b, t))
                  && PrevSlot(b', t) == (if t == s then Last(b, l) else PrevSlot(b, t)))
            && (forall m: nat :: m < PRIORITY_LEVELS ==>
                  Head(b', m) == if m == l && b.queues[l] == [] then s else Head(b, m))
  {
    AppendKept(b, l, s);
  }

  // ----- removing -----

  /** `q` without the entry at place `p`. */
  lemma {:induction false} RemoveAt(q: seq<nat>, p: nat)
    requires p < |q| && forall i :: 0 <= i < p ==> q[i] != q[p]
    ensures Remove(q, q[p]) == q[..p] + q[p + 1..]
    decreases p
  {
    if p > 0 {
      assert q[1..][p - 1] == q[p];
      RemoveAt(q[1..], p - 1);
    }
  }

  lemma {:induction false} RemoveNothing(q: seq<nat>, s: nat)
    requires s !in q
    ensures Remove(q, s) == q
    decreases |q|
  {
    if q != [] {
      RemoveNothing(q[1..], s);
    }
  }

  function Unlink(b: Books, s: nat): (r: Books)
    requires Sized(b) && s < MAX_PROCESSES && 0 <= b.level[s] < PRIORITY_LEVELS && b.place[s] < |b.queues[b.level[s]]|
    ensures Sized(r)
  {
    var l := b.level[s];
    var q := b.queues[l];
    Books(b.queues[l := q[..b.place[s]] + q[b.place[s] + 1..]], b.level[s := -1],
          seq(MAX_PROCESSES, t requires 0 <= t < MAX_PROCESSES =>
            if b.level[t] == l && b.place[t] > b.place[s] then b.place[t] - 1 else b.place[t]))
  }

  lemma UnlinkSlot(b: Books, s: nat, t: nat)
    requires Kept(b) && s < MAX_PROCESSES && b.level[s] >= 0 && t < MAX_PROCESSES
    ensures var b' := Unlink(b, s);
            && -1 <= b'.level[t] < PRIORITY_LEVELS
            && (b'.level[t] >= 0 ==> b'.place[t] < |b'.queues[b'.level[t]]| && b'.queues[b'.level[t]][b'.place[t]] == t)
  {
  }

  lemma UnlinkEntry(b: Books, s: nat, l: nat, i: nat)
    requires Kept(b) && s < MAX_PROCESSES && b.level[s] >= 0 && l < PRIORITY_LEVELS && i < |Unlink(b, s).queues[l]|
    ensures var b' := Unlink(b, s);
            b'.queues[l][i] < MAX_PROCESSES && b'.level[b'.queues[l][i]] == l && b'.place[b'.queues[l][i]] == i
  {
    if l == b.level[s] {
      var j := if i < b.place[s] then i else i + 1;
      assert Unlink(b, s).queues[l][i] == b.queues[l][j];
    }
  }

  lemma UnlinkKept(b: Books, s: nat)
    requires Kept(b) && s < MAX_PROCESSES && b.level[s] >= 0
    ensures Kept(Unlink(b, s))
  {
    hide Unlink;
    forall t: nat | t < MAX_PROCESSES
      ensures var b' := Unlink(b, s);
              && -1 <= b'.level[t] < PRIORITY_LEVELS
              && (b'.level[t] >= 0 ==>
                    b'.place[t] < |b'.queues[b'.level[t]]| && b'.queues[b'.level[t]][b'.place[t]] == t)
    {
      UnlinkSlot(b, s, t);
    }
    forall l: nat, i: nat | l < PRIORITY_LEVELS && i < |Unlink(b, s).queues[l]|
      ensures var b' := Unlink(b, s);
              b'.queues[l][i] < MAX_PROCESSES && b'.level[b'.queues[l][i]] == l && b'.place[b'.queues[l][i]] == i
    {
      UnlinkEntry(b, s, l, i);
    }
  }

  lemma UnlinkRemoves(b: Books, s: nat)
    requires Kept(b) && s < MAX_PROCESSES && b.level[s] >= 0
    ensures Unlink(b, s).queues == b.queues[b.level[s] := Remove(b.queues[b.level[s]], s)]
  {
    var q := b.queues[b.level[s]];
    forall i | 0 <= i < b.place[s]
      ensures q[i] != s
    {
      assert b.place[q[i]] == i;
    }
    RemoveAt(q, b.place[s]);
  }

  lemma AtWithout(q: seq<nat>, p: nat, i: int)
    requires p < |q|
    ensures At(q[..p] + q[p + 1..], i) == if i < p then At(q, i) else At(q, i + 1)
  {
  }

  lemma SamePlace(b: Books, s: nat, t: nat)
    requires Kept(b) && s < MAX_PROCESSES && t < MAX_PROCESSES && b.level[s] >= 0 && b.level[s] == b.level[t]
    ensures b.place[s] == b.place[t] <==> s == t
  {
    assert b.queues[b.level[s]][b.place[s]] == s && b.queues[b.level[s]][b.place[t]] == t;
  }

  lemma UnlinkNeighbours(b: Books, s: nat, t: nat)
    requires Kept(b) && s < MAX_PROCESSES && b.level[s] >= 0 && t < MAX_PROCESSES && Kept(Unlink(b, s))
    ensures var b' := Unlink(b, s);
            && NextSlot(b', t) == (if t == s then -1
                                   else if t == PrevSlot(b, s) then NextSlot(b, s) else NextSlot(b, t))
            && PrevSlot(b', t) == (if t == s then -1
                                   else if t == NextSlot(b, s) then PrevSlot(b, s) else PrevSlot(b, t))
  {
    hide Kept;
    StandsIn(b, s);
    StandsIn(b, t);
    var l := b.level[s];
    var q, p := b.queues[l], b.place[s];
    if t != s {
      if b.level[t] == l {
        SamePlace(b, s, t);
        var i: int := if b.place[t] > p then b.place[t] - 1 else b.place[t];
        AtWithout(q, p, i + 1);
        AtWithout(q, p, i - 1);
        NeighbourAt(b, s, t);
      } else {
        NeighbourElsewhere(b, s, t);
      }
    }
  }

  lemma StandsIn(b: Books, s: nat)
    requires Kept(b) && s < MAX_PROCESSES
    ensures Sized(b) && -1 <= b.level[s] < PRIORITY_LEVELS
    ensures b.level[s] >= 0 ==> b.place[s] < |b.queues[b.level[s]]|
  {
  }

  lemma NeighbourAt(b: Books, s: nat, t: nat)
    requires Kept(b) && s < MAX_PROCESSES && t < MAX_PROCESSES && b.level[s] >= 0 && b.level[s] == b.level[t]
    ensures t == NextSlot(b, s) <==> b.place[t] == b.place[s] + 1
    ensures t == PrevSlot(b, s) <==> b.place[t] + 1 == b.place[s]
  {
  }

  lemma NeighbourElsewhere(b: Books, s: nat, t: nat)
    requires Kept(b) && s < MAX_PROCESSES && t < MAX_PROCESSES && b.level[s] >= 0 && b.level[s] != b.level[t]
    ensures t != NextSlot(b, s) && t != PrevSlot(b, s)
  {
  }

  /** Only the two neighbours of the removed slot see a difference. */
  lemma UnlinkLinks(b: Books, s: nat)
    requires Kept(b) && s < MAX_PROCESSES && b.level[s] >= 0
    ensures var b' := Unlink(b, s);
            && Kept(b')
            && (forall t: nat :: t < MAX_PROCESSES ==>
                  && NextSlot(b', t) == (if t == s then -1
                                         else if t == PrevSlot(b, s) then NextSlot(b, s) else NextSlot(b, t))
                  && PrevSlot(b', t) == (if t == s then -1
                                         else if t == NextSlot(b, s) then PrevSlot(b, s) else PrevSlot(b, t)))
            && (forall m: nat :: m < PRIORITY_LEVELS ==>
                  Head(b', m) == if Head(b, m) == s then NextSlot(b, s) else Head(b, m))
  {
    UnlinkKept(b, s);
    forall t: nat | t < MAX_PROCESSES
      ensures var b' := Unlink(b, s);
              && NextSlot(b', t) == (if t == s then -1
                                     else if t == PrevSlot(b, s) then NextSlot(b, s) else NextSlot(b, t))
              && PrevSlot(b', t) == (if t == s then -1
                                     else if t == NextSlot(b, s) then PrevSlot(b, s) else PrevSlot(b, t))
    {
      UnlinkNeighbours(b, s, t);
    }
    forall m: nat | m < PRIORITY_LEVELS
      ensures Head(Unlink(b, s), m) == if Head(b, m) == s then NextSlot(b, s) else Head(b, m)
    {
      UnlinkHead(b, s, m);
    }
  }

  lemma UnlinkHead(b: Books, s: nat, m: nat)
    requires Kept(b) && s < MAX_PROCESSES && b.level[s] >= 0 && m < PRIORITY_LEVELS && Kept(Unlink(b, s))
    ensures Head(Unlink(b, s), m) == if Head(b, m) == s then NextSlot(b, s) else Head(b, m)
  {
    var q := b.queues[m];
    if q != [] {
      assert b.level[q[0]] == m && b.place[q[0]] == 0;
      assert b.queues[b.level[s]][b.place[s]] == s;
    }
  }

  lemma NotQueued(b: Books, s: nat, l: nat)
    requires Kept(b) && s < MAX_PROCESSES && l < PRIORITY_LEVELS
    ensures s in b.queues[l] <==> b.level[s] == l
  {
  }

  /** What `remove_from_ready_queue` leaves of the books: nothing changes for a slot outside every list. */
  function Without(b: Books, s: nat): Books
    requires Kept(b) && s < MAX_PROCESSES
  {
    if b.level[s] < 0 then b else Unlink(b, s)
  }

  lemma WithoutLinks(b: Books, s: nat)
    requires Kept(b) && s < MAX_PROCESSES
    ensures var b' := Without(b, s);
            && Kept(b')
            && (forall t: nat :: t < MAX_PROCESSES ==>
                  && NextSlot(b', t) == (if t == s then -1
                                         else if t == PrevSlot(b, s) then NextSlot(b, s) else NextSlot(b, t))
                  && PrevSlot(b', t) == (if t == s then -1
                                         else if t == NextSlot(b, s) then PrevSlot(b, s) else PrevSlot(b, t)))
            && (forall m: nat :: m < PRIORITY_LEVELS ==>
                  && Head(b', m) == (if Head(b, m) == s then NextSlot(b, s) else Head(b, m))
                  && (Head(b, m) == s ==> b.level[s] == m))
    ensures PrevSlot(b, s) != s && NextSlot(b, s) != s
    ensures PrevSlot(b, s) == -1 || PrevSlot(b, s) != NextSlot(b, s)
  {
    if b.level[s] >= 0 {
      UnlinkLinks(b, s);
      assert b.queues[b.level[s]][b.place[s]] == s;
    }
  }

  lemma WithoutRemoves(b: Books, s: nat, l: nat)
    requires Kept(b) && s < MAX_PROCESSES && l < PRIORITY_LEVELS && (b.level[s] < 0 || b.level[s] == l)
    ensures Without(b, s).queues == b.queues[l := Remove(b.queues[l], s)]
    ensures Without(b, s).level == b.level[s := -1]
  {
    if b.level[s] < 0 {
      NotQueued(b, s, l);
      RemoveNothing(b.queues[l], s);
      assert b.level[s] == -1;
    } else {
      UnlinkRemoves(b, s);
    }
  }

  /** A slot stands in the list of its level exactly when it is READY. */
  lemma LevelOfReady(b: Books, k: Kernel, s: nat)
    requires Kept(b) && Shape(k) && QueuesMatch(k) && k.ready == b.queues && s < MAX_PROCESSES
    ensures b.level[s] == if k.procs[s].state == Ready then k.procs[s].priority else -1
  {
    if b.level[s] >= 0 {
      assert s in k.ready[b.level[s]];
    }
    if k.procs[s].state == Ready {
      NotQueued(b, s, k.procs[s].priority);
    }
  }
}
