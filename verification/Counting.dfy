/** Pigeonholes. */
module Counting {
  ghost function Below(n: nat): (r: set<int>)
    ensures forall x :: x in r <==> 0 <= x < n
    ensures |r| == n
  {
    if n == 0 then {} else Below(n - 1) + {n - 1}
  }

  /** A sequence without repetition is no longer than the room its elements come from. */
  lemma {:induction false} DistinctFits(q: seq<int>, room: set<int>)
    requires forall i: nat, j: nat :: i < j < |q| ==> q[i] != q[j]
    requires forall x :: x in q ==> x in room
    ensures |q| <= |room|
    decreases |q|
  {
    if q != [] {
      assert forall x :: x in q[1..] ==> x in q && x != q[0];
      DistinctFits(q[1..], room - {q[0]});
    }
  }

  /** An injective image is as large as the set. */
  lemma {:induction false} ImageSize(s: set<nat>, image: set<nat>, f: nat -> nat)
    requires forall y :: y in image <==> exists x :: x in s && f(x) == y
    requires forall x, y :: x in s && y in s && f(x) == f(y) ==> x == y
    ensures |image| == |s|
    decreases |s|
  {
    if s != {} {
      var x :| x in s;
      ImageSize(s - {x}, image - {f(x)}, f);
    }
  }
}
