/** Userland/shell/lib/commandRead.c: finding a command by its case-insensitive name with two binary searches. */
module CommandLookup {

  /** `my_tolower` */
  function Lower(c: char): char {
    if 'A' <= c <= 'Z' then 'a' + (c - 'A') else c
  }

  // ----- order and prefixes -----

  /** Case-insensitive dictionary order. */
  predicate Le(a: string, b: string)
    decreases |a|
  {
    if a == "" then true
    else if b == "" then false
    else if Lower(a[0]) != Lower(b[0]) then Lower(a[0]) < Lower(b[0])
    else Le(a[1..], b[1..])
  }

  predicate SameLetters(a: string, b: string, n: nat)
    requires n <= |a| && n <= |b|
  {
    forall i :: 0 <= i < n ==> Lower(a[i]) == Lower(b[i])
  }

  predicate Starts(name: string, tok: string) {
    |tok| <= |name| && SameLetters(name, tok, |tok|)
  }

  predicate Equal(name: string, tok: string) {
    |tok| == |name| && SameLetters(name, tok, |tok|)
  }

  predicate Sorted(names: seq<string>) {
    forall i, j :: 0 <= i < j < |names| ==> Le(names[i], names[j])
  }

  /** What `ci_cmp_prefix` answers. */
  function Cmp(name: string, tok: string): (c: int)
    ensures -1 <= c <= 1
    decreases |tok|
  {
    if tok == "" then 0
    else if name == "" then -1
    else if Lower(name[0]) != Lower(tok[0]) then (if Lower(name[0]) < Lower(tok[0]) then -1 else 1)
    else Cmp(name[1..], tok[1..])
  }

  lemma {:induction false} CmpIsPrefix(name: string, tok: string)
    ensures Cmp(name, tok) == 0 <==> Starts(name, tok)
    decreases |tok|
  {
    if tok != "" && name != "" && Lower(name[0]) == Lower(tok[0]) {
      CmpIsPrefix(name[1..], tok[1..]);
      if Starts(name[1..], tok[1..]) {
        forall i | 0 <= i < |tok|
          ensures Lower(name[i]) == Lower(tok[i])
        {
          if i > 0 {
            assert Lower(name[1..][i - 1]) == Lower(tok[1..][i - 1]);
          }
        }
      }
      if Starts(name, tok) {
        assert SameLetters(name[1..], tok[1..], |tok| - 1);
      }
    }
  }

  /** The comparison is monotone along the order. */
  lemma {:induction false} CmpMonotone(a: string, b: string, tok: string)
    requires Le(a, b)
    ensures Cmp(a, tok) <= Cmp(b, tok)
    decreases |tok|
  {
    if tok != "" && a != "" && b != "" && Lower(a[0]) == Lower(b[0]) {
      CmpMonotone(a[1..], b[1..], tok[1..]);
    }
  }

  // ----- the comparisons -----

  /** `ci_cmp_prefix` on a zero-terminated name. */
  method CiCmpPrefix(name: string, tok: string) returns (c: int)
    ensures c == Cmp(name, tok)
  {
    var i := 0;
    while i < |tok|
      invariant 0 <= i <= |tok| && i <= |name|
      invariant Cmp(name, tok) == Cmp(name[i..], tok[i..])
    {
      if i == |name| {
        return -1;
      }
      var da, db := Lower(name[i]), Lower(tok[i]);
      if da != db {
        return if da < db then -1 else 1;
      }
      i := i + 1;
    }
    return 0;
  }

  /** Byte `i` of a zero-terminated text. */
  function ByteAt(a: string, i: nat): char
    requires i <= |a|
  {
    if i < |a| then a[i] else '\0'
  }

  /** Cut after `n` letters the two texts are the same. */
  predicate SameHeads(a: string, b: string, n: nat) {
    var p, q := if n < |a| then n else |a|, if n < |b| then n else |b|;
    p == q && SameLetters(a, b, p)
  }

  /** `ci_strncmp`: 0 exactly when the texts agree up to letter `n`, or up to the zero that ends both before it. */
  method CiStrncmp(a: string, b: string, n: nat) returns (c: int)
    ensures n <= |a| && n <= |b| && SameLetters(a, b, n) ==> c == 0
    ensures '\0' !in a && '\0' !in b ==> (c == 0 <==> SameHeads(a, b, n))
  {
    var i := 0;
    while i < n
      invariant 0 <= i <= n && i <= |a| && i <= |b| && SameLetters(a, b, i)
      invariant '\0' !in a[..i]
    {
      var ca, cb := ByteAt(a, i), ByteAt(b, i);
      var da, db := Lower(ca), Lower(cb);
      if da != db {
        return if da < db then -1 else 1;
      }
      if ca == '\0' || cb == '\0' {
        return 0;
      }
      i := i + 1;
    }
    return 0;
  }

  // ----- the searches -----

  /** `lb_prefix`: the first name that does not compare below the token. */
  method LbPrefix(names: seq<string>, from: nat, to: nat, tok: string) returns (lo: nat)
    requires Sorted(names) && from <= to <= |names|
    ensures from <= lo <= to
    ensures forall i :: from <= i < lo ==> Cmp(names[i], tok) < 0
    ensures forall i :: lo <= i < to ==> Cmp(names[i], tok) >= 0
  {
    lo := from;
    var hi := to;
    while lo < hi
      invariant from <= lo <= hi <= to
      invariant forall i :: from <= i < lo ==> Cmp(names[i], tok) < 0
      invariant forall i :: hi <= i < to ==> Cmp(names[i], tok) >= 0
    {
      var mid := lo + (hi - lo) / 2;
      var c := CiCmpPrefix(names[mid], tok);
      MonotoneAround(names, mid, tok);
      if c < 0 {
        lo := mid + 1;
      } else {
        hi := mid;
      }
    }
  }

  /** `ub_prefix`: the first name that compares above the token. */
  method UbPrefix(names: seq<string>, from: nat, to: nat, tok: string) returns (lo: nat)
    requires Sorted(names) && from <= to <= |names|
    ensures from <= lo <= to
    ensures forall i :: from <= i < lo ==> Cmp(names[i], tok) <= 0
    ensures forall i :: lo <= i < to ==> Cmp(names[i], tok) > 0
  {
    lo := from;
    var hi := to;
    while lo < hi
      invariant from <= lo <= hi <= to
      invariant forall i :: from <= i < lo ==> Cmp(names[i], tok) <= 0
      invariant forall i :: hi <= i < to ==> Cmp(names[i], tok) > 0
    {
      var mid := lo + (hi - lo) / 2;
      var c := CiCmpPrefix(names[mid], tok);
      MonotoneAround(names, mid, tok);
      if c <= 0 {
        lo := mid + 1;
      } else {
        hi := mid;
      }
    }
  }

  lemma MonotoneAround(names: seq<string>, mid: nat, tok: string)
    requires Sorted(names) && mid < |names|
    ensures forall i :: 0 <= i <= mid ==> Cmp(names[i], tok) <= Cmp(names[mid], tok)
    ensures forall i :: mid <= i < |names| ==> Cmp(names[mid], tok) <= Cmp(names[i], tok)
  {
    forall i | 0 <= i < |names|
      ensures i <= mid ==> Cmp(names[i], tok) <= Cmp(names[mid], tok)
      ensures mid <= i ==> Cmp(names[mid], tok) <= Cmp(names[i], tok)
    {
      if i < mid {
        CmpMonotone(names[i], names[mid], tok);
      } else if mid < i {
        CmpMonotone(names[mid], names[i], tok);
      }
    }
  }

  /** Name `i` is the token, and no other name extends it. */
  predicate OnlyMatch(names: seq<string>, tok: string, i: nat)
    requires i < |names|
  {
    Equal(names[i], tok) && forall j: nat :: j < |names| && j != i ==> !Starts(names[j], tok)
  }

  /** The answer of the lookup: there is at most one match. */
  ghost function Answer(names: seq<string>, tok: string): (idx: int)
    ensures -1 <= idx < |names|
    ensures idx >= 0 ==> tok != "" && OnlyMatch(names, tok, idx)
    ensures idx < 0 ==> tok == "" || forall i: nat :: i < |names| ==> !OnlyMatch(names, tok, i)
  {
    if tok != "" && exists i: nat :: i < |names| && OnlyMatch(names, tok, i) then
      var i: nat :| i < |names| && OnlyMatch(names, tok, i);
      i
    else -1
  }

  lemma OneAnswer(names: seq<string>, tok: string, i: nat)
    requires tok != "" && i < |names| && OnlyMatch(names, tok, i)
    ensures Answer(names, tok) == i
  {
    var j := Answer(names, tok);
    assert OnlyMatch(names, tok, j);
    assert Starts(names[i], tok);
  }

  // ----- upper and lower case -----

  /** Letters `A` to `Z` are 32 codes below their lower-case forms; every other character stays. */
  lemma LowerIs(c: char)
    ensures Lower(c) as int == if 65 <= c as int <= 90 then c as int + 32 else c as int
  {
  }

  /** The same character, or an upper-case letter and the lower-case letter 32 codes above it. */
  predicate SameButCase(a: char, b: char) {
    || a == b
    || (65 <= a as int <= 90 && b as int == a as int + 32)
    || (65 <= b as int <= 90 && a as int == b as int + 32)
  }

  predicate Spellings(s: string, t: string) {
    |s| == |t| && forall i :: 0 <= i < |s| ==> SameButCase(s[i], t[i])
  }

  /** Two characters compare equal exactly when they differ at most in case. */
  lemma CompareIgnoresCase(a: char, b: char)
    ensures Lower(a) == Lower(b) <==> SameButCase(a, b)
  {
    LowerIs(a);
    LowerIs(b);
  }

  lemma StartsIgnoresCase(name: string, s: string, t: string)
    requires Spellings(s, t)
    ensures Starts(name, s) <==> Starts(name, t)
    ensures Equal(name, s) <==> Equal(name, t)
  {
    forall i | 0 <= i < |s|
      ensures Lower(s[i]) == Lower(t[i])
    {
      CompareIgnoresCase(s[i], t[i]);
    }
  }

  /** On any table, tokens that are spelled alike but for case get the same answer. */
  lemma AnswerIgnoresCase(names: seq<string>, s: string, t: string)
    requires Spellings(s, t)
    ensures Answer(names, s) == Answer(names, t)
  {
    forall i: nat | i < |names|
      ensures OnlyMatch(names, s, i) <==> OnlyMatch(names, t, i)
    {
      StartsIgnoresCase(names[i], s, t);
      forall j: nat | j < |names|
        ensures Starts(names[j], s) <==> Starts(names[j], t)
      {
        StartsIgnoresCase(names[j], s, t);
      }
    }
    var a, b := Answer(names, s), Answer(names, t);
    if a >= 0 {
      OneAnswer(names, t, a);
    }
    if b >= 0 {
      OneAnswer(names, s, b);
    }
  }

  /** The search, for two spellings of the same word. */
  method FindBoth(names: seq<string>, s: string, t: string) returns (i: int, j: int)
    requires Sorted(names) && Spellings(s, t)
    ensures i == j
  {
    AnswerIgnoresCase(names, s, t);
    i := FindCmdIdx(names, s);
    j := FindCmdIdx(names, t);
  }

  /**
   `cr_find_cmd_idx_ci_exact`, for any sorted table: the name that equals the token, if the token is not empty and no
   other name starts with it; else -1.
  */
  method FindCmdIdx(names: seq<string>, tok: string) returns (idx: int)
    requires Sorted(names)
    ensures -1 <= idx < |names|
    ensures idx >= 0 ==> tok != "" && OnlyMatch(names, tok, idx)
    ensures idx < 0 ==> tok == "" || forall i: nat :: i < |names| ==> !OnlyMatch(names, tok, i)
    ensures idx == Answer(names, tok)
  {
    if |tok| <= 0 {
      return -1;
    }
    var lo := LbPrefix(names, 0, |names|, tok);
    var hi := UbPrefix(names, 0, |names|, tok);
    forall i: nat | i < |names|
      ensures lo <= i < hi <==> Starts(names[i], tok)
    {
      CmpIsPrefix(names[i], tok);
    }
    if hi - lo != 1 {
      if hi - lo >= 2 {
        assert Starts(names[lo], tok) && Starts(names[lo + 1], tok);
      }
      return -1;
    }
    var name := names[lo];
    if |name| != |tok| {
      return -1;
    }
    var c := CiStrncmp(name, tok, |tok|);
    assert Starts(name, tok);
    if c != 0 {
      assert false;
    }
    return lo;
  }

  // ----- the table of the shell -----

  /** At letter `k` the two names part, `a` first. */
  predicate PartAt(a: string, b: string, k: nat) {
    k < |a| && k < |b| && SameLetters(a, b, k) && Lower(a[k]) < Lower(b[k])
  }

  ghost predicate Before(a: string, b: string) {
    exists k: nat :: PartAt(a, b, k)
  }

  lemma {:induction false} PartIsLe(a: string, b: string, k: nat)
    requires PartAt(a, b, k)
    ensures Le(a, b)
    decreases k
  {
    if k > 0 {
      assert PartAt(a[1..], b[1..], k - 1) by {
        assert forall i :: 0 <= i < k - 1 ==> a[1..][i] == a[i + 1] && b[1..][i] == b[i + 1];
      }
      assert Lower(a[0]) == Lower(b[0]);
      PartIsLe(a[1..], b[1..], k - 1);
    }
  }

  lemma BeforeTransitive(a: string, b: string, c: string)
    requires Before(a, b) && Before(b, c)
    ensures Before(a, c)
  {
    var k: nat :| PartAt(a, b, k);
    var m: nat :| PartAt(b, c, m);
    assert PartAt(a, c, if k < m then k else m);
  }

  /** Every name parts from every later one: sorted, and none a prefix of another. */
  ghost predicate PrefixFree(names: seq<string>) {
    forall i: nat, j: nat :: i < j < |names| ==> Before(names[i], names[j])
  }

  lemma {:induction false} ChainIsPrefixFree(names: seq<string>, i: nat, j: nat)
    requires forall k: nat :: k + 1 < |names| ==> Before(names[k], names[k + 1])
    requires i < j < |names|
    ensures Before(names[i], names[j])
    decreases j
  {
    if i + 1 < j {
      ChainIsPrefixFree(names, i, j - 1);
      assert Before(names[j - 1], names[j - 1 + 1]);
      BeforeTransitive(names[i], names[j - 1], names[j]);
    }
  }

  lemma PrefixFreeIsSorted(names: seq<string>)
    requires PrefixFree(names)
    ensures Sorted(names)
  {
    forall i: nat, j: nat | i < j < |names|
      ensures Le(names[i], names[j])
    {
      var k: nat :| PartAt(names[i], names[j], k);
      PartIsLe(names[i], names[j], k);
    }
  }

  /** First name equal to the token, or -1. */
  function Linear(names: seq<string>, tok: string): (r: int)
    ensures -1 <= r < |names|
    ensures r >= 0 ==> Equal(names[r], tok)
    ensures r < 0 ==> forall i :: 0 <= i < |names| ==> !Equal(names[i], tok)
    decreases |names|
  {
    if names == [] then -1
    else
      var r := Linear(names[..|names| - 1], tok);
      if r >= 0 then r
      else if Equal(names[|names| - 1], tok) then |names| - 1
      else -1
  }

  lemma NoCommonStart(a: string, b: string, k: nat, tok: string)
    requires PartAt(a, b, k) && k < |tok|
    ensures !(Starts(a, tok) && Starts(b, tok))
  {
    assert Starts(a, tok) ==> Lower(a[k]) == Lower(tok[k]);
    assert Starts(b, tok) ==> Lower(b[k]) == Lower(tok[k]);
  }

  lemma EqualIsOnlyMatch(names: seq<string>, tok: string, i: nat)
    requires PrefixFree(names) && i < |names|
    ensures OnlyMatch(names, tok, i) <==> Equal(names[i], tok)
  {
    if Equal(names[i], tok) {
      forall j: nat | j < |names| && j != i
        ensures !Starts(names[j], tok)
      {
        var a, b := if i < j then names[i] else names[j], if i < j then names[j] else names[i];
        assert Before(a, b);
        var k: nat :| PartAt(a, b, k);
        NoCommonStart(a, b, k, tok);
      }
    }
  }

  /** On a prefix-free table the two searches find what a linear scan finds. */
  method FindAgreesWithScan(names: seq<string>, tok: string) returns (idx: int)
    requires PrefixFree(names) && tok != ""
    ensures idx == Linear(names, tok) == Answer(names, tok)
  {
    PrefixFreeIsSorted(names);
    idx := FindCmdIdx(names, tok);
    var r := Linear(names, tok);
    if r >= 0 {
      EqualIsOnlyMatch(names, tok, r);
    }
    if idx >= 0 {
      EqualIsOnlyMatch(names, tok, idx);
    }
  }

  const COMMANDS: seq<string> := [
    "benchmark", "block", "cat", "clear", "date", "echo", "filter", "fps", "help", "kill", "loop",
    "mem", "mvar", "nice", "ps", "registers", "resize", "sem", "shutdown", "sleep", "test_mm", "test_prio",
    "test_proc", "test_sync", "testinvalidop", "testsound", "testsyscalls", "testzero", "time", "tron", "unblock", "wc",
    "yield"]

  /** The letters at which neighbouring commands part. */
  const PARTS: seq<nat> := [
    1, 0, 1, 0, 0, 0, 1, 0, 0, 0, 0,
    1, 0, 0, 0, 2, 0, 1, 1, 0, 5, 7,
    5, 4, 4, 5, 4, 1, 1, 0, 0, 0]

  lemma NeighboursPart0(k: nat)
    requires 0 <= k < 8
    ensures Before(COMMANDS[k], COMMANDS[k + 1])
  {
    assert PartAt(COMMANDS[k], COMMANDS[k + 1], PARTS[k]);
  }

  lemma NeighboursPart1(k: nat)
    requires 8 <= k < 16
    ensures Before(COMMANDS[k], COMMANDS[k + 1])
  {
    assert PartAt(COMMANDS[k], COMMANDS[k + 1], PARTS[k]);
  }

  lemma NeighboursPart2(k: nat)
    requires 16 <= k < 24
    ensures Before(COMMANDS[k], COMMANDS[k + 1])
  {
    assert PartAt(COMMANDS[k], COMMANDS[k + 1], PARTS[k]);
  }

  lemma NeighboursPart3(k: nat)
    requires 24 <= k < 32
    ensures Before(COMMANDS[k], COMMANDS[k + 1])
  {
    assert PartAt(COMMANDS[k], COMMANDS[k + 1], PARTS[k]);
  }

  /** The table of the shell is sorted and no command is a prefix of another. */
  lemma CommandsArePrefixFree()
    ensures |COMMANDS| == 33 && PrefixFree(COMMANDS)
  {
    hide Before;
    forall k: nat | k + 1 < |COMMANDS|
      ensures Before(COMMANDS[k], COMMANDS[k + 1])
    {
      if k < 8 {
        NeighboursPart0(k);
      } else if k < 16 {
        NeighboursPart1(k);
      } else if k < 24 {
        NeighboursPart2(k);
      } else {
        NeighboursPart3(k);
      }
    }
    forall i: nat, j: nat | i < j < |COMMANDS|
      ensures Before(COMMANDS[i], COMMANDS[j])
    {
      ChainIsPrefixFree(COMMANDS, i, j);
    }
  }

  /** Every command is found by its name in any mixture of upper and lower case. */
  lemma CommandInAnyCase(i: nat, tok: string)
    requires i < 33 && |COMMANDS| == 33 && Spellings(COMMANDS[i], tok)
    ensures Answer(COMMANDS, tok) == i
  {
    hide Before;
    CommandsArePrefixFree();
    CommandHasLetters(i);
    EqualIsOnlyMatch(COMMANDS, tok, i);
    assert Equal(COMMANDS[i], tok) by {
      assert Equal(COMMANDS[i], COMMANDS[i]);
      StartsIgnoresCase(COMMANDS[i], COMMANDS[i], tok);
    }
    OneAnswer(COMMANDS, tok, i);
  }

  lemma CommandHasLetters(i: nat)
    requires i < |COMMANDS|
    ensures COMMANDS[i] != ""
  {
    CommandsArePrefixFree();
    if i == 0 {
      assert Before(COMMANDS[0], COMMANDS[1]);
    } else {
      assert Before(COMMANDS[i - 1], COMMANDS[i]);
    }
  }
}
