/** A bitmap packed into 32-bit words, and the boolean sequence it stands for. */
module BitWords {

  // ----- one word -----

  function Mask(o: bv32): bv32
    requires o < 32
  {
    1 << o
  }

  function Joined(w: bv32, m: bv32): bv32 {
    w | m
  }

  function Masked(w: bv32, m: bv32): bv32 {
    w & !m
  }

  predicate Meets(w: bv32, m: bv32) {
    w & m != 0
  }

  function WithBit(w: bv32, o: bv32): bv32
    requires o < 32
  {
    Joined(w, Mask(o))
  }

  function WithoutBit(w: bv32, o: bv32): bv32
    requires o < 32
  {
    Masked(w, Mask(o))
  }

  predicate HasBit(w: bv32, o: bv32)
    requires o < 32
  {
    Meets(w, Mask(o))
  }

  lemma MasksMeet(i: bv32, j: bv32)
    requires i < 32 && j < 32
    ensures Meets(Mask(i), Mask(j)) <==> i == j
  {
  }

  lemma JoinedMeets(w: bv32, a: bv32, b: bv32)
    ensures Meets(Joined(w, a), b) <==> Meets(w, b) || Meets(a, b)
  {
    assert (w | a) & b == (w & b) | (a & b);
  }

  lemma ClearDisjoint(w: bv32, a: bv32, b: bv32)
    ensures a & b == 0 ==> (w & !a) & b == w & b
  {
  }

  lemma MaskedMeetsOther(w: bv32, a: bv32, b: bv32)
    requires !Meets(a, b)
    ensures Meets(Masked(w, a), b) <==> Meets(w, b)
  {
    ClearDisjoint(w, a, b);
  }

  lemma MaskedMeetsItself(w: bv32, a: bv32)
    ensures !Meets(Masked(w, a), a)
  {
  }

  lemma OneBit(w: bv32, i: bv32, j: bv32)
    requires i < 32 && j < 32
    ensures HasBit(WithBit(w, i), j) <==> i == j || HasBit(w, j)
    ensures HasBit(WithoutBit(w, i), j) <==> i != j && HasBit(w, j)
  {
    hide Mask, Joined, Masked, Meets;
    MasksMeet(i, j);
    JoinedMeets(w, Mask(i), Mask(j));
    if i == j {
      MaskedMeetsItself(w, Mask(i));
    } else {
      MaskedMeetsOther(w, Mask(i), Mask(j));
    }
  }

  lemma NoBits(j: bv32)
    requires j < 32
    ensures !HasBit(0, j)
  {
  }

  /** Bit offsets survive the trip through a machine word. */
  lemma OffsetRoundTrip(i: nat)
    requires i < 32
    ensures (i as bv32) as nat == i
    ensures i as bv32 < 32
  {
    assert (0 as bv32) as nat == 0; assert (1 as bv32) as nat == 1;
    assert (2 as bv32) as nat == 2; assert (3 as bv32) as nat == 3;
    assert (4 as bv32) as nat == 4; assert (5 as bv32) as nat == 5;
    assert (6 as bv32) as nat == 6; assert (7 as bv32) as nat == 7;
    assert (8 as bv32) as nat == 8; assert (9 as bv32) as nat == 9;
    assert (10 as bv32) as nat == 10; assert (11 as bv32) as nat == 11;
    assert (12 as bv32) as nat == 12; assert (13 as bv32) as nat == 13;
    assert (14 as bv32) as nat == 14; assert (15 as bv32) as nat == 15;
    assert (16 as bv32) as nat == 16; assert (17 as bv32) as nat == 17;
    assert (18 as bv32) as nat == 18; assert (19 as bv32) as nat == 19;
    assert (20 as bv32) as nat == 20; assert (21 as bv32) as nat == 21;
    assert (22 as bv32) as nat == 22; assert (23 as bv32) as nat == 23;
    assert (24 as bv32) as nat == 24; assert (25 as bv32) as nat == 25;
    assert (26 as bv32) as nat == 26; assert (27 as bv32) as nat == 27;
    assert (28 as bv32) as nat == 28; assert (29 as bv32) as nat == 29;
    assert (30 as bv32) as nat == 30; assert (31 as bv32) as nat == 31;
  }

  function Offset(i: nat): (o: bv32)
    requires i < 32
    ensures o < 32
  {
    OffsetRoundTrip(i);
    i as bv32
  }

  lemma OffsetInjective(i: nat, j: nat)
    requires i < 32 && j < 32 && Offset(i) == Offset(j)
    ensures i == j
  {
    OffsetRoundTrip(i);
    OffsetRoundTrip(j);
  }

  // ----- many words -----

  /** Bit `b` of the packed map. */
  predicate BitOf(words: seq<bv32>, b: nat)
    requires b < 32 * |words|
  {
    HasBit(words[b / 32], Offset(b % 32))
  }

  /** The boolean sequence the words stand for. */
  ghost function Bits(words: seq<bv32>): (s: seq<bool>)
    ensures |s| == 32 * |words|
    ensures forall b :: 0 <= b < |s| ==> s[b] == BitOf(words, b)
  {
    seq(32 * |words|, b requires 0 <= b < 32 * |words| => BitOf(words, b))
  }

  lemma SetRefines(words: seq<bv32>, b: nat)
    requires b < 32 * |words|
    ensures Bits(words[b / 32 := WithBit(words[b / 32], Offset(b % 32))]) == Bits(words)[b := true]
  {
    var words' := words[b / 32 := WithBit(words[b / 32], Offset(b % 32))];
    forall j | 0 <= j < 32 * |words|
      ensures BitOf(words', j) == Bits(words)[b := true][j]
    {
      SameBit(words, b, j);
    }
  }

  lemma ClearRefines(words: seq<bv32>, b: nat)
    requires b < 32 * |words|
    ensures Bits(words[b / 32 := WithoutBit(words[b / 32], Offset(b % 32))]) == Bits(words)[b := false]
  {
    var words' := words[b / 32 := WithoutBit(words[b / 32], Offset(b % 32))];
    forall j | 0 <= j < 32 * |words|
      ensures BitOf(words', j) == Bits(words)[b := false][j]
    {
      SameBit(words, b, j);
    }
  }

  lemma SameBit(words: seq<bv32>, b: nat, j: nat)
    requires b < 32 * |words| && j < 32 * |words|
    ensures b / 32 == j / 32 ==>
              && (HasBit(WithBit(words[b / 32], Offset(b % 32)), Offset(j % 32)) <==> b == j || BitOf(words, j))
              && (HasBit(WithoutBit(words[b / 32], Offset(b % 32)), Offset(j % 32)) <==> b != j && BitOf(words, j))
    ensures b / 32 != j / 32 ==> b != j
  {
    hide HasBit, WithBit, WithoutBit, Offset;
    if b / 32 == j / 32 {
      OneBit(words[b / 32], Offset(b % 32), Offset(j % 32));
      if Offset(b % 32) == Offset(j % 32) {
        OffsetInjective(b % 32, j % 32);
      }
    }
  }

  lemma ZeroWords(words: seq<bv32>)
    requires forall i :: 0 <= i < |words| ==> words[i] == 0
    ensures forall b :: 0 <= b < 32 * |words| ==> !Bits(words)[b]
  {
    hide HasBit, Offset;
    forall b | 0 <= b < 32 * |words|
      ensures !BitOf(words, b)
    {
      NoBits(Offset(b % 32));
    }
  }
}
