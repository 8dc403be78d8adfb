/** The integer square root of basicmath/isqrt.c: two bits of the input enter a
    remainder per round, on 64-bit machine words, and 32 rounds produce a root
    scaled by 2^16. */
module Isqrt {
  import opened Arithmetic

  const WORD: int := 0x1_0000_0000_0000_0000
  const HALF: int := 0x1_0000_0000
  const BITS_PER_LONG := 32

  type Word = x: int | 0 <= x < WORD

  /** Machine operations: a left shift and an addition that drop carries out of
      the word, and the two bits at positions 30 and 31. */
  function Shl(x: Word, k: nat): Word {
    (x * Pow2(k)) % WORD
  }

  function Add(x: Word, y: Word): Word {
    (x + y) % WORD
  }

  function Top2Bits(x: Word): Word {
    (x / 0x4000_0000) % 4
  }

  function Pow2(k: nat): (p: nat)
    ensures p >= 1
  {
    if k == 0 then 1 else 2 * Pow2(k - 1)
  }

  /** a is the floor of the square root of n. */
  predicate IsRoot(a: int, n: int) {
    0 <= a && a * a <= n < (a + 1) * (a + 1)
  }

  /** The loop state after some rounds that consumed the bits of `prefix`:
      a is its root and r what the root leaves over. */
  ghost predicate Inv(a: Word, r: Word, prefix: int, round: nat) {
    a * a + r == prefix && r <= 2 * a && a + 1 <= Pow2(round)
  }

  /** The unconsumed low half of x and the consumed prefix are together the
      input moved left by two bits per round. */
  ghost predicate Window(x: Word, prefix: int, input: Word, round: nat) {
    prefix * HALF + x % HALF == (input % HALF) * Pow2(2 * round)
  }

  lemma Pow2Values()
    ensures Pow2(2) == 4 && Pow2(32) == HALF && Pow2(64) == WORD
  {
    Pow2Twice(2, 4);
    Pow2Twice(4, 0x10);
    Pow2Twice(8, 0x100);
    Pow2Twice(16, 0x1_0000);
    Pow2Twice(32, HALF);
  }

  lemma {:induction false} Pow2Sum(a: nat, b: nat)
    ensures Pow2(a + b) == Pow2(a) * Pow2(b)
  {
    if a > 0 {
      Pow2Sum(a - 1, b);
      assert Pow2(a + b) == 2 * (Pow2(a - 1) * Pow2(b));
    }
  }

  lemma Pow2Twice(k: nat, v: int)
    requires Pow2(k) == v
    ensures Pow2(k + k) == v * v
  {
    Pow2Sum(k, k);
  }

  lemma {:induction false} Pow2Monotone(a: nat, b: nat)
    requires a <= b
    ensures Pow2(a) <= Pow2(b)
  {
    if a < b { Pow2Monotone(a, b - 1); }
  }

  /** No machine operation of a round wraps. */
  lemma RoundDoesNotWrap(a: Word, r: Word, x: Word, prefix: int, round: nat)
    requires round < BITS_PER_LONG && Inv(a, r, prefix, round)
    ensures Add(Shl(r, 2), Top2Bits(x)) == 4 * r + Top2Bits(x)
    ensures Shl(a, 1) == 2 * a && Add(Shl(2 * a, 1), 1) == 4 * a + 1
    ensures 2 * a + 1 < WORD
  {
    RootBound(a, round);
    assert Pow2(1) == 2 && Pow2(2) == 4;
    var t := Top2Bits(x);
    SmallMod(r * 4);
    SmallMod(4 * r + t);
    SmallMod(a * 2);
    SmallMod(2 * a * 2);
    SmallMod(4 * a + 1);
  }

  lemma RootBound(a: Word, round: nat)
    requires round < BITS_PER_LONG && a + 1 <= Pow2(round)
    ensures a < 0x8000_0000
  {
    Pow2Values();
    Pow2Monotone(round, 31);
    assert Pow2(32) == 2 * Pow2(31);
  }

  lemma SmallMod(v: int)
    requires 0 <= v < WORD
    ensures v % WORD == v
  {
  }

  lemma TopBitsOf(x: Word, high: int, top: int, rest: int)
    requires x == high * HALF + top * 0x4000_0000 + rest
    requires 0 <= top < 4 && 0 <= rest < 0x4000_0000
    ensures Top2Bits(x) == top && x % HALF == top * 0x4000_0000 + rest
  {
    DivModIs(x, 0x4000_0000, 4 * high + top, rest);
    DivModIs(4 * high + top, 4, high, top);
    DivModIs(x, HALF, high, top * 0x4000_0000 + rest);
  }

  /** Shifting the word moves the bits of its low half the same way. */
  lemma ShlLowHalf(x: Word)
    ensures Top2Bits(x) * HALF + Shl(x, 2) % HALF == 4 * (x % HALF)
  {
    Pow2Values();
    var high, low := x / HALF, x % HALF;
    var top, rest := low / 0x4000_0000, low % 0x4000_0000;
    TopBitsOf(x, high, top, rest);
    var carry, y := (x * 4) / WORD, (x * 4) % WORD;
    DivModIs(y, HALF, 4 * high + top - carry * HALF, 4 * rest);
  }

  lemma RoundMovesWindow(x: Word, prefix: int, input: Word, round: nat)
    requires Window(x, prefix, input, round)
    ensures Window(Shl(x, 2), 4 * prefix + Top2Bits(x), input, round + 1)
  {
    ShlLowHalf(x);
    var power := Pow2(2 * round);
    assert Pow2(2 * (round + 1)) == 4 * power;
    assert (input % HALF) * (4 * power) == 4 * ((input % HALF) * power);
  }

  /** One round on exact numbers: the root and remainder of a prefix become
      those of the prefix extended by two bits. */
  lemma RoundKeepsRoot(a: int, r: int, prefix: int, t: int)
    requires 0 <= a && a * a + r == prefix && 0 <= r <= 2 * a && 0 <= t < 4
    ensures 4 * r + t < 4 * a + 1 ==>
      (2 * a) * (2 * a) + (4 * r + t) == 4 * prefix + t && 0 <= 4 * r + t <= 2 * (2 * a)
    ensures 4 * r + t >= 4 * a + 1 ==>
      && (2 * a + 1) * (2 * a + 1) + (4 * r + t - (4 * a + 1)) == 4 * prefix + t
      && 0 <= 4 * r + t - (4 * a + 1) <= 2 * (2 * a + 1)
  {
  }

  /** What the rounds leave for every 64-bit input: the scaled root of its low
      32 bits, with every machine operation exact on the way. */
  method Usqrt(input: Word) returns (a: Word)
    ensures IsRoot(a, (input % HALF) * HALF)
    ensures a < HALF
  {
    var r: Word, e: Word, x := 0, 0, input;
    a := 0;
    ghost var prefix := 0;
    for i := 0 to BITS_PER_LONG
      invariant Inv(a, r, prefix, i)
      invariant Window(x, prefix, input, i)
    {
      RoundDoesNotWrap(a, r, x, prefix, i);
      RoundMovesWindow(x, prefix, input, i);
      RoundKeepsRoot(a, r, prefix, Top2Bits(x));
      prefix := 4 * prefix + Top2Bits(x);
      r := Add(Shl(r, 2), Top2Bits(x));
      x := Shl(x, 2);
      a := Shl(a, 1);
      e := Add(Shl(a, 1), 1);
      if r >= e {
        r := r - e;
        a := a + 1;
      }
    }
    WindowEmpty(x, prefix, input);
    RootIsShort(a, r, prefix);
  }

  /** After all 32 rounds the low half is used up. */
  lemma WindowEmpty(x: Word, prefix: int, input: Word)
    requires Window(x, prefix, input, 32)
    ensures prefix == (input % HALF) * HALF
  {
    Pow2Values();
    var d := (input % HALF) * HALF - prefix;
    assert d * HALF == x % HALF;
  }

  lemma RootIsShort(a: Word, r: Word, prefix: int)
    requires Inv(a, r, prefix, 32)
    ensures IsRoot(a, prefix) && a < HALF
  {
    Pow2Values();
  }

  /** The header promises the root of x itself, scaled by 2^16. That is what
      comes out exactly for the inputs of at most 32 bits. */
  lemma DocumentedRootIffShortInput(input: Word, a: Word)
    requires IsRoot(a, (input % HALF) * HALF)
    ensures IsRoot(a, input * HALF) <==> input < HALF
  {
    var y := input % HALF;
    if input < HALF {
      assert y == input;
    } else {
      SquareBound(a, y);
    }
  }

  lemma SquareBound(a: int, y: int)
    requires 0 <= a && 0 <= y < HALF && a * a <= y * HALF
    ensures (a + 1) * (a + 1) <= HALF * HALF
  {
    if a >= HALF {
      MulLe(HALF, a, a);
      assert false;
    } else {
      MulLe(a + 1, HALF, a + 1);
      MulLe(a + 1, HALF, HALF);
    }
  }
}
