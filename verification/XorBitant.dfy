/**
 The xorshift generator: a 64-bit state stepped by three shifts, and a 32-bit output taken from a
 product with an odd constant.
 */
module XorBitant {
  import opened Words

  const MAGIC_SEED: bv64 := 0xDEADBEEFBABECAFE

  function Step(x: bv64): bv64 {
    Left5(Right7(Left13(x)))
  }

  /** `x ^= x << 13`. */
  function Left13(x: bv64): bv64 {
    x ^ (x << 13)
  }

  /** `x ^= x >> 7`. */
  function Right7(x: bv64): bv64 {
    x ^ (x >> 7)
  }

  /** `x ^= x << 5`. */
  function Left5(x: bv64): bv64 {
    x ^ (x << 5)
  }

  /** The low 32 bits of a word: the conversion to `std::uint32_t`. */
  function Low(x: nat): (r: nat)
    ensures r < 0x1_0000_0000
  {
    x % 0x1_0000_0000
  }

  /** The product with the magic multiplier, modulo 2^64, cut to 32 bits. */
  function Output(x: bv64): (r: nat)
    ensures r < 0x1_0000_0000
  {
    Low(Wrap((x as nat) * 0x9E3779B97F4A7C15))
  }

  class XorBitant32 {
    var state: bv64

    constructor (seed: bv64 := MAGIC_SEED)
      ensures state == seed
    {
      state := seed;
    }

    /** operator(): step the state, return the mixed low word of the new state. */
    method Next() returns (r: nat)
      modifies this
      ensures state == Step(old(state)) && r == Output(state)
    {
      var x := state;
      x := Left13(x);
      x := Right7(x);
      x := Left5(x);
      state := x;
      r := Wrap((x as nat) * 0x9E3779B97F4A7C15) % 0x1_0000_0000;
    }
  }

  // ----- the step is a bijection

  function Unleft13(y: bv64): bv64 {
    y ^ (y << 13) ^ (y << 26) ^ (y << 39) ^ (y << 52)
  }

  function Unright7(y: bv64): bv64 {
    y ^ (y >> 7) ^ (y >> 14) ^ (y >> 21) ^ (y >> 28) ^ (y >> 35) ^ (y >> 42) ^ (y >> 49) ^ (y >> 56) ^ (y >> 63)
  }

  function Unleft5(y: bv64): bv64 {
    y ^ (y << 5) ^ (y << 10) ^ (y << 15) ^ (y << 20) ^ (y << 25) ^ (y << 30) ^ (y << 35) ^ (y << 40) ^ (y << 45)
      ^ (y << 50) ^ (y << 55) ^ (y << 60)
  }

  function Unstep(y: bv64): bv64 {
    Unleft13(Unright7(Unleft5(y)))
  }

  // The laws below keep the shifted words spelled out, so that the terms cancel.

  lemma Unleft13Of(x: bv64)
    ensures Unleft13(x ^ (x << 13)) == x
  {
  }

  lemma Unright7Of(x: bv64)
    ensures Unright7(x ^ (x >> 7)) == x
  {
  }

  lemma Unleft5Of(x: bv64)
    ensures Unleft5(x ^ (x << 5)) == x
  {
  }

  lemma Left13Of(y: bv64)
    ensures Left13(y ^ (y << 13) ^ (y << 26) ^ (y << 39) ^ (y << 52)) == y
  {
  }

  lemma Right7Of(y: bv64)
    ensures Right7(y ^ (y >> 7) ^ (y >> 14) ^ (y >> 21) ^ (y >> 28) ^ (y >> 35) ^ (y >> 42) ^ (y >> 49) ^ (y >> 56)
                   ^ (y >> 63)) == y
  {
  }

  lemma Left5Of(y: bv64)
    ensures Left5(y ^ (y << 5) ^ (y << 10) ^ (y << 15) ^ (y << 20) ^ (y << 25) ^ (y << 30) ^ (y << 35) ^ (y << 40)
                  ^ (y << 45) ^ (y << 50) ^ (y << 55) ^ (y << 60)) == y
  {
  }

  lemma Left13Inverse(x: bv64)
    ensures Unleft13(Left13(x)) == x && Left13(Unleft13(x)) == x
  {
    Unleft13Of(x);
    Left13Of(x);
  }

  lemma Right7Inverse(x: bv64)
    ensures Unright7(Right7(x)) == x && Right7(Unright7(x)) == x
  {
    Unright7Of(x);
    Right7Of(x);
  }

  lemma Left5Inverse(x: bv64)
    ensures Unleft5(Left5(x)) == x && Left5(Unleft5(x)) == x
  {
    Unleft5Of(x);
    Left5Of(x);
  }

  /** The state step is a bijection on 64-bit words: Unstep is its inverse on both sides. */
  lemma StepBijective(x: bv64)
    ensures Unstep(Step(x)) == x
    ensures Step(Unstep(x)) == x
  {
    Left13Inverse(x);
    Right7Inverse(Left13(x));
    Left5Inverse(Right7(Left13(x)));
    Left5Inverse(x);
    Right7Inverse(Unleft5(x));
    Left13Inverse(Unright7(Unleft5(x)));
  }

  // ----- the sequence of states

  function States(seed: bv64, n: nat): bv64 {
    if n == 0 then seed else Step(States(seed, n - 1))
  }

  lemma {:induction false} StatesAdd(seed: bv64, m: nat, n: nat)
    ensures States(seed, m + n) == States(States(seed, m), n)
  {
    if n > 0 {
      StatesAdd(seed, m, n - 1);
    }
  }

  /** The step can be undone any number of times. */
  lemma {:induction false} StatesInjective(x: bv64, y: bv64, n: nat)
    requires States(x, n) == States(y, n)
    ensures x == y
  {
    if n > 0 {
      StepBijective(States(x, n - 1));
      StepBijective(States(y, n - 1));
      StatesInjective(x, y, n - 1);
    }
  }

  ghost function Image(f: nat -> nat, n: nat): set<nat> {
    if n == 0 then {} else Image(f, n - 1) + {f(n - 1)}
  }

  lemma {:induction false} ImageOf(f: nat -> nat, n: nat, v: nat) returns (i: nat)
    requires v in Image(f, n)
    ensures i < n && f(i) == v
  {
    if v == f(n - 1) {
      i := n - 1;
    } else {
      i := ImageOf(f, n - 1, v);
    }
  }

  lemma {:induction false} BoundedSetSize(s: set<nat>, bound: nat)
    requires forall v | v in s :: v < bound
    ensures |s| <= bound
  {
    if bound > 0 {
      BoundedSetSize(s - {bound - 1}, bound - 1);
    } else {
      assert s == {};
    }
  }

  /** Among the first n values two agree, or there are n different ones. */
  lemma {:induction false} RepeatOrGrow(f: nat -> nat, n: nat) returns (found: bool, i: nat, j: nat)
    ensures found ==> i < j < n && f(i) == f(j)
    ensures !found ==> |Image(f, n)| == n
  {
    if n == 0 {
      found, i, j := false, 0, 0;
    } else {
      found, i, j := RepeatOrGrow(f, n - 1);
      var image, v := Image(f, n - 1), f(n - 1);
      if !found && v in image {
        i := ImageOf(f, n - 1, v);
        found, j := true, n - 1;
      } else if !found {
        assert |image + {v}| == n;
      }
    }
  }

  predicate Below(f: nat -> nat, n: nat, bound: nat) {
    f(n) < bound
  }

  /** A sequence of numbers below `bound` repeats within bound + 1 terms. */
  lemma Pigeonhole(f: nat -> nat, bound: nat) returns (i: nat, j: nat)
    requires forall n: nat :: Below(f, n, bound)
    ensures i < j <= bound && f(i) == f(j)
  {
    var found;
    found, i, j := RepeatOrGrow(f, bound + 1);
    if !found {
      var n := bound + 1;
      var values := Image(f, n);
      forall v | v in values ensures v < bound {
        var k := ImageOf(f, n, v);
        assert Below(f, k, bound);
      }
      BoundedSetSize(values, bound);
      assert false;
    }
  }

  lemma WordOfNat(x: bv64)
    ensures (x as nat) as bv64 == x
  {
  }

  /** From every seed the state returns to the seed itself within 2^64 calls. */
  lemma ReturnsToSeed(seed: bv64) returns (period: nat)
    ensures 0 < period <= WORD && States(seed, period) == seed
  {
    var i, j := Pigeonhole(n => States(seed, n) as nat, WORD);
    WordOfNat(States(seed, i));
    WordOfNat(States(seed, j));
    period := j - i;
    StatesAdd(seed, period, i);
    StatesInjective(States(seed, period), seed, i);
  }

  /** The state sequence is purely periodic: it repeats from the very first state. */
  lemma PurelyPeriodic(seed: bv64) returns (period: nat)
    ensures 0 < period <= WORD
    ensures forall n: nat :: States(seed, period + n) == States(seed, n)
  {
    period := ReturnsToSeed(seed);
    forall n: nat ensures States(seed, period + n) == States(seed, n) {
      StatesAdd(seed, period, n);
    }
  }

  /** A nonzero seed never reaches the zero state, which the step maps to itself. */
  lemma {:induction false} NeverZero(seed: bv64, n: nat)
    ensures States(seed, n) == 0 <==> seed == 0
  {
    if n > 0 {
      NeverZero(seed, n - 1);
      ZeroFixed(States(seed, n - 1));
    }
  }

  lemma ZeroFixed(x: bv64)
    ensures Step(x) == 0 <==> x == 0
  {
  }

  // ----- the output

  /** The multiplier is odd, so it has an inverse modulo 2^32 and no multiple of 2^32 arises from it. */
  lemma OddMultiplier(d: int, k: int)
    requires d * 0x9E3779B97F4A7C15 == k * 0x1_0000_0000
    ensures d % 0x1_0000_0000 == 0
  {
    assert d == 0x1_0000_0000 * (k * 0x9937733D - d * 0x5EB16CE3A2D4328B);
  }

  /** Cutting to 64 and then to 32 bits is cutting to 32 bits. */
  lemma CutTwice(p: nat)
    ensures Low(Wrap(p)) == Low(p)
  {
  }

  lemma CutDifference(p: nat, q: nat)
    ensures Low(p) == Low(q) ==> p - q == (p / 0x1_0000_0000 - q / 0x1_0000_0000) * 0x1_0000_0000
  {
  }

  lemma CutEqual(p: nat, q: nat, k: int)
    requires p - q == k * 0x1_0000_0000
    ensures Low(p) == Low(q)
  {
  }

  lemma LowInjective(x: nat, y: nat, p: nat, q: nat)
    requires p == x * 0x9E3779B97F4A7C15 && q == y * 0x9E3779B97F4A7C15 && Low(p) == Low(q)
    ensures Low(x) == Low(y)
  {
    CutDifference(p, q);
    OddMultiplier(x - y, p / 0x1_0000_0000 - q / 0x1_0000_0000);
    CutEqual(x, y, (x - y) / 0x1_0000_0000);
  }

  lemma LowOfEqualLow(x: nat, y: nat, p: nat, q: nat)
    requires p == x * 0x9E3779B97F4A7C15 && q == y * 0x9E3779B97F4A7C15 && Low(x) == Low(y)
    ensures Low(p) == Low(q)
  {
    CutDifference(x, y);
    CutEqual(p, q, (x / 0x1_0000_0000 - y / 0x1_0000_0000) * 0x9E3779B97F4A7C15);
  }

  /** Two states give the same output exactly when their low 32 bits agree. */
  lemma OutputDeterminesLow(x: bv64, y: bv64)
    ensures Output(x) == Output(y) <==> Low(x as nat) == Low(y as nat)
  {
    SameProductLow(x as nat, y as nat, (x as nat) * 0x9E3779B97F4A7C15, (y as nat) * 0x9E3779B97F4A7C15);
  }

  /** The output can be undone: the inverse multiplier recovers the low 32 bits of the state. */
  lemma OutputInvertible(x: bv64)
    ensures Low(Output(x) * 0x9937733D) == Low(x as nat)
  {
    ProductInvertible(x as nat, (x as nat) * 0x9E3779B97F4A7C15);
  }

  lemma ProductInvertible(x: nat, p: nat)
    requires p == x * 0x9E3779B97F4A7C15
    ensures Low(Low(Wrap(p)) * 0x9937733D) == Low(x)
  {
    CutTwice(p);
    var q := p / 0x1_0000_0000;
    assert Low(p) == p - q * 0x1_0000_0000;
    CutEqual(Low(p) * 0x9937733D, x, x * 0x5EB16CE3A2D4328B - q * 0x9937733D);
  }

  /** A generator made without a seed never reaches the zero state. */
  lemma DefaultNeverZero(n: nat)
    ensures States(MAGIC_SEED, n) != 0
  {
    NeverZero(MAGIC_SEED, n);
  }

  lemma SameProductLow(x: nat, y: nat, p: nat, q: nat)
    requires p == x * 0x9E3779B97F4A7C15 && q == y * 0x9E3779B97F4A7C15
    ensures Low(Wrap(p)) == Low(Wrap(q)) <==> Low(x) == Low(y)
  {
    CutTwice(p);
    CutTwice(q);
    if Low(p) == Low(q) {
      LowInjective(x, y, p, q);
    } else if Low(x) == Low(y) {
      LowOfEqualLow(x, y, p, q);
    }
  }
}
