/** The complementary multiply-with-carry generator. */
module Random {
  const LAG := 4096
  const MULTIPLIER := 18782
  const FIRST_CARRY := 362436
  const TWO_32 := 0x1_0000_0000
  const TWO_64 := 0x1_0000_0000_0000_0000

  /** The base of the generator. */
  const BASE := TWO_32 - 1

  type Word = x: int | 0 <= x < TWO_32 witness 0

  /** The carry and the digit that a step computes from a word and the carry, by shifting and adding. */
  function Digit(q: Word, c: Word): (r: (int, int))
  {
    var t := (MULTIPLIER * q + c) % TWO_64;
    var c1 := t / TWO_32;
    var x := (t + c1) % TWO_32;
    if x < c1 then ((c1 + 1) % TWO_32, (x + 1) % TWO_32) else (c1, x)
  }

  /** The product fits 64 bits, and the step divides it by the base: the carry is a quotient and the digit what is left. */
  lemma DigitDivides(q: Word, c: Word)
    ensures MULTIPLIER * q + c < TWO_64
    ensures var (c', x) := Digit(q, c); MULTIPLIER * q + c == c' * BASE + x && 0 <= x < TWO_32 && 0 <= c' < TWO_32
  {
    var t := MULTIPLIER * q + c;
    SmallMod(t, TWO_64);
    var c1, low := t / TWO_32, t % TWO_32;
    if low + c1 < TWO_32 {
      Wrap(t + c1, c1, low + c1);
    } else {
      Wrap(t + c1, c1 + 1, low + c1 - TWO_32);
    }
    SmallMod(c1 + 1, TWO_32);
  }

  lemma SmallMod(x: int, m: int)
    requires 0 <= x < m
    ensures x % m == x
  {
  }

  lemma Wrap(t: int, k: int, low: int)
    requires t == k * TWO_32 + low && 0 <= low < TWO_32
    ensures t % TWO_32 == low
  {
  }

  /** From any carry up to the initial one, the next carry is at most the multiplier. */
  lemma CarryBounded(q: Word, c: Word)
    requires c <= FIRST_CARRY
    ensures Digit(q, c).0 <= MULTIPLIER
  {
    DigitDivides(q, c);
    assert Digit(q, c).0 * BASE <= MULTIPLIER * q + c < (MULTIPLIER + 1) * BASE;
  }

  /** fskit_random32's static variables. */
  class Generator {
    const Q: array<int>
    var c: int
    var i: int

    ghost predicate Valid()
      reads this, Q
    {
      Q.Length == LAG && 0 <= i < LAG && 0 <= c <= FIRST_CARRY && forall k :: 0 <= k < LAG ==> 0 <= Q[k] < TWO_32
    }

    /** The words come from a random device. */
    constructor (words: seq<Word>)
      requires |words| == LAG
      ensures Valid() && Q[..] == words && c == FIRST_CARRY && i == LAG - 1 && fresh(Q)
    {
      Q := new int[LAG](k requires 0 <= k < LAG => words[k]);
      c, i := FIRST_CARRY, LAG - 1;
    }

    /** fskit_random32: the oldest word is replaced by the complement of the digit that it gives. */
    method Next() returns (ret: int)
      requires Valid()
      modifies this, Q
      ensures Valid() && c <= MULTIPLIER && i == (old(i) + 1) % LAG
      ensures MULTIPLIER * old(Q[(i + 1) % LAG]) + old(c) == c * BASE + Digit(old(Q[(i + 1) % LAG]), old(c)).1
      ensures ret == (TWO_32 - 2 - Digit(old(Q[(i + 1) % LAG]), old(c)).1) % TWO_32
      ensures Q[..] == old(Q[..])[i := ret]
    {
      i := (i + 1) % LAG;
      ghost var q, c0 := Q[i], c;
      DigitDivides(q, c0);
      CarryBounded(q, c0);
      var t := (MULTIPLIER * Q[i] + c) % TWO_64;
      c := t / TWO_32;
      var x := (t + c) % TWO_32;
      if x < c {
        x := (x + 1) % TWO_32;
        c := (c + 1) % TWO_32;
      }
      ret := (TWO_32 - 2 - x) % TWO_32;
      Q[i] := ret;
    }
  }

  // ---------- all runs ----------

  /** The carries over a run, whatever the words are that the steps find. */
  function CarryAfter(c: Word, words: seq<Word>): int
    decreases |words|
  {
    if words == [] then c
    else
      var c' := Digit(words[0], c).0;
      if 0 <= c' < TWO_32 then CarryAfter(c', words[1..]) else c'
  }

  /** After the first step the carry never exceeds the multiplier. */
  lemma {:induction false} CarriesBounded(c: Word, words: seq<Word>)
    requires c <= FIRST_CARRY && words != []
    ensures 0 <= CarryAfter(c, words) <= MULTIPLIER
    decreases |words|
  {
    DigitDivides(words[0], c);
    CarryBounded(words[0], c);
    if |words| > 1 {
      CarriesBounded(Digit(words[0], c).0, words[1..]);
    }
  }

  /** The digit is the product's remainder by the base, except that the base itself is left as it is. */
  lemma DigitIsRemainder(q: Word, c: Word)
    ensures var x := Digit(q, c).1; x % BASE == (MULTIPLIER * q + c) % BASE && x <= BASE
  {
    DigitDivides(q, c);
    var (c', x) := Digit(q, c);
    if x < BASE {
      Remainder(MULTIPLIER * q + c, c', x);
    } else {
      Remainder(MULTIPLIER * q + c, c' + 1, 0);
    }
  }

  lemma Remainder(t: int, k: int, x: int)
    requires t == k * BASE + x && 0 <= x < BASE
    ensures t % BASE == x
  {
  }
}
