/** The names "wait_<pid>" of Kernel/process/process.c. */
module WaitNames {
  import opened SemSpec
  import opened KernelSpec

  /** pids are 64-bit. */
  const PID_LIMIT: nat := 0x1_0000_0000_0000_0000

  /** Room for the digits of any pid and the closing zero. */
  const NUM_SIZE: nat := 21

  /** Reading a decimal numeral. */
  function Parse(s: string): nat
    decreases |s|
  {
    if s == "" then 0
    else 10 * Parse(s[..|s| - 1]) + (if '0' <= s[|s| - 1] <= '9' then (s[|s| - 1] - '0') as nat else 0)
  }

  lemma {:induction false} ParseDecimal(n: nat)
    ensures Parse(Decimal(n)) == n
  {
    if n >= 10 {
      ParseDecimal(n / 10);
      var d := Decimal(n);
      assert d[..|d| - 1] == Decimal(n / 10);
      assert d[|d| - 1] == Digit(n % 10);
    } else {
      assert Decimal(n)[..0] == "";
    }
  }

  /** Different pids have different wait semaphores. */
  lemma WaitNamesDiffer(p: nat, q: nat)
    requires p != q
    ensures WaitName(p) != WaitName(q)
  {
    if WaitName(p) == WaitName(q) {
      assert WaitName(p)[5..] == Decimal(p) && WaitName(q)[5..] == Decimal(q);
      ParseDecimal(p);
      ParseDecimal(q);
    }
  }

  function Pow10(e: nat): nat {
    if e == 0 then 1 else 10 * Pow10(e - 1)
  }

  lemma {:induction false} DecimalLength(n: nat, digits: nat)
    requires n < Pow10(digits) && digits > 0
    ensures 1 <= |Decimal(n)| <= digits
    decreases digits
  {
    if n >= 10 {
      assert digits > 1;
      DecimalLength(n / 10, digits - 1);
    }
  }

  lemma PidDigits(pid: nat)
    requires pid < PID_LIMIT
    ensures pid < Pow10(20)
  {
    assert Pow10(5) == 100000;
    assert Pow10(10) == 100000 * Pow10(5);
    assert Pow10(15) == 100000 * Pow10(10);
    assert Pow10(20) == 100000 * Pow10(15);
  }

  /** Every such name fits the name field of a semaphore, closing zero included. */
  lemma WaitNameFits(pid: nat)
    requires pid < PID_LIMIT
    ensures |WaitName(pid)| < MAX_SEM_NAME && Stored(WaitName(pid)) == WaitName(pid)
  {
    PidDigits(pid);
    DecimalLength(pid, 20);
  }

  /** Digits still to come and digits already taken, least significant first. */
  ghost predicate Split(n: nat, m: nat, tmp: seq<char>) {
    Decimal(n) == (if m > 0 then Decimal(m) else "") + Backwards(tmp)
  }

  function Backwards(s: seq<char>): (r: seq<char>)
    ensures |r| == |s|
    ensures forall j :: 0 <= j < |s| ==> r[j] == s[|s| - 1 - j]
  {
    if s == [] then [] else [s[|s| - 1]] + Backwards(s[..|s| - 1])
  }

  lemma SplitStep(n: nat, m: nat, tmp: seq<char>)
    requires m > 0 && Split(n, m, tmp)
    ensures Split(n, m / 10, tmp + [Digit(m % 10)])
  {
    assert (tmp + [Digit(m % 10)])[..|tmp|] == tmp;
    var rest := if m / 10 > 0 then Decimal(m / 10) else "";
    assert Decimal(m) == rest + [Digit(m % 10)];
    assert rest + [Digit(m % 10)] + Backwards(tmp) == rest + ([Digit(m % 10)] + Backwards(tmp));
  }

  lemma SplitStart(n: nat)
    requires n > 0
    ensures Split(n, n, [])
  {
  }

  lemma SplitEnd(n: nat, tmp: seq<char>)
    requires Split(n, 0, tmp)
    ensures |tmp| == |Decimal(n)| && forall j :: 0 <= j < |tmp| ==> Decimal(n)[j] == tmp[|tmp| - 1 - j]
  {
  }

  lemma FewerDigits(m: nat, digits: nat)
    requires 0 < m < Pow10(digits)
    ensures digits > 0 && m / 10 < Pow10(digits - 1)
  {
  }

  /** `uint64_to_dec_str`: the digits, most significant first, and a closing zero. */
  method Uint64ToDecStr(n: nat, buf: array<char>)
    requires n < PID_LIMIT && buf.Length >= NUM_SIZE
    modifies buf
    ensures 1 <= |Decimal(n)| <= 20
    ensures buf[..|Decimal(n)|] == Decimal(n) && buf[|Decimal(n)|] == '\0'
  {
    hide Pow10, Backwards, Split;
    PidDigits(n);
    DecimalLength(n, 20);
    if n == 0 {
      buf[0] := '0';
      buf[1] := '\0';
      return;
    }
    var tmp := new char[NUM_SIZE];
    SplitStart(n);
    assert tmp[..0] == [];
    var i := 0;
    var m: nat := n;
    while m > 0
      invariant 0 <= i <= 20 && m < Pow10(20 - i)
      invariant Split(n, m, tmp[..i])
    {
      SplitStep(n, m, tmp[..i]);
      FewerDigits(m, 20 - i);
      tmp[i] := Digit(m % 10);
      assert tmp[..i + 1] == tmp[..i] + [Digit(m % 10)];
      i := i + 1;
      m := m / 10;
    }
    SplitEnd(n, tmp[..i]);
    ghost var digits := tmp[..i];
    var j := 0;
    while j < i
      invariant 0 <= j <= i
      invariant tmp[..i] == digits
      invariant buf[..j] == Decimal(n)[..j]
    {
      assert digits[i - 1 - j] == tmp[i - 1 - j];
      buf[j] := tmp[i - 1 - j];
      j := j + 1;
    }
    buf[j] := '\0';
  }

  /** `build_wait_sem_name`: null for pid 0 or when the allocator has nothing left, else the name, zero-terminated. */
  method BuildWaitSemName(pid: nat, granted: bool) returns (buf: array?<char>)
    requires pid < PID_LIMIT
    ensures buf == null <==> pid == 0 || !granted
    ensures buf != null ==> fresh(buf) && buf.Length == |WaitName(pid)| + 1
    ensures buf != null ==> buf[..|WaitName(pid)|] == WaitName(pid) && buf[|WaitName(pid)|] == '\0'
    ensures buf != null ==> buf.Length >= 7 && buf[..5] == "wait_" && Parse(buf[5..buf.Length - 1]) == pid
  {
    if pid == 0 {
      return null;
    }
    var num := new char[NUM_SIZE];
    Uint64ToDecStr(pid, num);
    var numLen := 0;
    while num[numLen] != '\0'
      invariant 0 <= numLen <= |Decimal(pid)|
      decreases |Decimal(pid)| - numLen
    {
      numLen := numLen + 1;
    }
    assert numLen == |Decimal(pid)| by {
      DigitsOnly(pid);
      assert forall i :: 0 <= i < |Decimal(pid)| ==> num[i] == num[..|Decimal(pid)|][i];
    }
    if !granted {
      return null;
    }
    var name := new char[6 + numLen];
    name[0], name[1], name[2], name[3], name[4] := 'w', 'a', 'i', 't', '_';
    var i := 0;
    while i < numLen
      invariant 0 <= i <= numLen
      invariant name[..5] == "wait_"
      invariant name[5..5 + i] == num[..i]
      invariant num[..numLen] == Decimal(pid)
    {
      name[5 + i] := num[i];
      i := i + 1;
      assert name[5..5 + i] == name[5..4 + i] + [num[i - 1]];
    }
    name[5 + numLen] := '\0';
    assert name[..5 + numLen] == name[..5] + name[5..5 + numLen];
    assert name[5..5 + numLen] == num[..numLen] == Decimal(pid);
    assert name[..5 + numLen] == WaitName(pid);
    ParseDecimal(pid);
    return name;
  }

  lemma {:induction false} DigitsOnly(n: nat)
    ensures forall i :: 0 <= i < |Decimal(n)| ==> '0' <= Decimal(n)[i] <= '9'
  {
    if n >= 10 {
      DigitsOnly(n / 10);
    }
  }
}
