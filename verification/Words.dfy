/**
 64-bit words: wrap-around, the bitwise "and" that turns a counter into a slot number, and the
 facts that let a ring buffer work with unbounded counters.
 */
module Words {

  /** Two to the 64th: the number of values of `std::uint64_t`. */
  const WORD: int := 0x1_0000_0000_0000_0000

  /** What a 64-bit unsigned variable holds when the exact value is `x`. */
  function Wrap(x: int): (w: nat)
    ensures w < WORD
  {
    x % WORD
  }

  /** A 64-bit subtraction of counters less than 2^64 apart. */
  lemma WrapDifference(a: int, b: int)
    ensures Wrap(Wrap(a) - Wrap(b)) == Wrap(a - b)
    ensures 0 <= a - b < WORD ==> Wrap(a - b) == a - b
    ensures -WORD <= a - b < 0 ==> Wrap(a - b) == a - b + WORD
  {
  }

  lemma WrapNegated(x: int)
    ensures Wrap(-x) == if x % WORD == 0 then 0 else WORD - x % WORD
  {
    var q, r := x / WORD, x % WORD;
    assert x == WORD * q + r;
    if r == 0 {
      assert -x == WORD * -q;
    } else {
      assert -x == WORD * (-q - 1) + (WORD - r);
    }
  }

  /** Counters less than 2^64 apart are equal exactly when their words are. */
  lemma WordsMeet(a: nat, b: nat)
    requires a <= b < a + WORD
    ensures Wrap(a) == Wrap(b) <==> a == b
  {
    WrapDifference(b, a);
  }

  /** Number of one bits: `std::popcount`. */
  function PopCount(n: nat): nat {
    if n == 0 then 0 else n % 2 + PopCount(n / 2)
  }

  /** Bitwise "and" of two words. */
  function And(x: nat, y: nat): nat {
    if x == 0 || y == 0 then 0 else (x % 2) * (y % 2) + 2 * And(x / 2, y / 2)
  }

  function Pow2(k: nat): nat {
    if k == 0 then 1 else 2 * Pow2(k - 1)
  }

  /** The capacities that both queues accept: one bit set, and a 64-bit value. */
  predicate ValidSize(size: nat) {
    PopCount(size) == 1 && size < WORD
  }

  /** The slot number the code computes from a 64-bit counter: `counter & (size - 1)`. */
  function SlotOf(i: nat, size: nat): nat
    requires size > 0
  {
    And(Wrap(i), size - 1)
  }

  /** Masking with a power of two less one is the remainder. */
  lemma {:induction false} AndMask(x: nat, n: nat)
    requires PopCount(n) == 1
    ensures n > 0 && And(x, n - 1) == x % n
    decreases n
  {
    if n == 1 {
    } else {
      if n % 2 == 1 {
        PopCountPositive(n / 2);
        assert false;
      }
      var m := n / 2;
      assert n == 2 * m;
      AndMask(x / 2, m);
      AndOdd(x, m);
      HalfMod(x, m);
    }
  }

  lemma AndOdd(x: nat, m: nat)
    requires m > 0
    ensures And(x, 2 * m - 1) == x % 2 + 2 * And(x / 2, m - 1)
  {
    assert (2 * m - 1) / 2 == m - 1 && (2 * m - 1) % 2 == 1;
  }

  lemma {:induction false} PopCountPositive(n: nat)
    requires n > 0
    ensures PopCount(n) > 0
  {
    if n % 2 == 0 {
      PopCountPositive(n / 2);
    }
  }

  lemma MulAtLeast(d: int, n: nat)
    ensures d >= 1 ==> d * n >= n
    ensures d <= -1 ==> d * n <= -(n as int)
  {
  }

  lemma ModUnique(x: nat, n: nat, q: int, r: nat)
    requires r < n && x == q * n + r
    ensures x % n == r
  {
    var d := x / n - q;
    assert x == (x / n) * n + x % n;
    assert d * n == r - x % n;
    MulAtLeast(d, n);
  }

  lemma HalfMod(x: nat, m: nat)
    requires m > 0
    ensures x % (2 * m) == x % 2 + 2 * ((x / 2) % m)
  {
    var h := x / 2;
    var q := h / m;
    assert h == q * m + h % m;
    assert x == q * (2 * m) + (x % 2 + 2 * (h % m));
    ModUnique(x, 2 * m, q, x % 2 + 2 * (h % m));
  }

  /** A power of two no larger than `Pow2(k)` divides it. */
  lemma {:induction false} DividesPow2(n: nat, k: nat) returns (c: nat)
    requires PopCount(n) == 1 && n <= Pow2(k)
    ensures c > 0 && n * c == Pow2(k)
    decreases n
  {
    if n == 1 {
      c := Pow2(k);
    } else {
      if n % 2 == 1 {
        PopCountPositive(n / 2);
        assert false;
      }
      var m := n / 2;
      assert n == 2 * m;
      c := DividesPow2(m, k - 1);
      DoubleProduct(m, c);
    }
  }

  lemma DoubleProduct(m: nat, c: nat)
    ensures (2 * m) * c == 2 * (m * c)
  {
  }

  lemma Pow2Of64()
    ensures Pow2(64) == WORD
  {
    assert Pow2(8) == 256;
    Pow2Add(8, 8);
    Pow2Add(16, 16);
    Pow2Add(32, 32);
  }

  lemma {:induction false} Pow2Add(a: nat, b: nat)
    ensures Pow2(a + b) == Pow2(a) * Pow2(b)
  {
    if a > 0 {
      Pow2Add(a - 1, b);
      DoubleProduct(Pow2(a - 1), Pow2(b));
    }
  }

  lemma ModOfMod(x: nat, n: nat, c: nat, w: nat)
    requires n > 0 && c > 0 && w == n * c
    ensures (x % w) % n == x % n
  {
    var y := x % w;
    var q := x / w;
    assert x == q * w + y;
    assert y == (y / n) * n + y % n;
    assert q * w == (q * c) * n;
    assert x == (q * c + y / n) * n + y % n;
    ModUnique(x, n, q * c + y / n, y % n);
  }

  /** The code's slot number is the exact counter modulo the capacity, at every counter value. */
  lemma SlotIsMod(i: nat, size: nat)
    requires ValidSize(size)
    ensures size > 0 && SlotOf(i, size) == i % size < size
  {
    AndMask(Wrap(i), size);
    Pow2Of64();
    var c := DividesPow2(size, 64);
    ModOfMod(i, size, c, WORD);
  }

  lemma ModDistinct(i: nat, j: nat, n: nat)
    requires i < j < i + n
    ensures i % n != j % n
  {
    if i % n == j % n {
      var d := j / n - i / n;
      assert i == (i / n) * n + i % n;
      assert j == (j / n) * n + j % n;
      assert d * n == j - i;
      MulAtLeast(d, n);
    }
  }

  lemma ModPeriodic(i: nat, n: nat)
    requires n > 0
    ensures (i + n) % n == i % n
  {
    assert i == (i / n) * n + i % n;
    assert (i / n + 1) * n == (i / n) * n + n;
    ModUnique(i + n, n, i / n + 1, i % n);
  }

  /** Counters less than a full turn apart never share a slot. */
  lemma SlotDistinct(i: nat, j: nat, size: nat)
    requires ValidSize(size) && i < j < i + size
    ensures SlotOf(i, size) != SlotOf(j, size)
  {
    SlotIsMod(i, size);
    SlotIsMod(j, size);
    ModDistinct(i, j, size);
  }

  /** Counters exactly one turn apart share their slot. */
  lemma SlotPeriodic(i: nat, size: nat)
    requires ValidSize(size)
    ensures size > 0 && SlotOf(i + size, size) == SlotOf(i, size)
  {
    SlotIsMod(i, size);
    SlotIsMod(i + size, size);
    ModPeriodic(i, size);
  }

  /** Every slot is the slot of some counter in a window of one turn. */
  lemma SlotCovered(k: nat, start: nat, size: nat) returns (i: nat)
    requires ValidSize(size) && k < size
    ensures start <= i < start + size && SlotOf(i, size) == k
  {
    var d: int := k - start;
    var q := d / size;
    assert d == q * size + d % size;
    i := start + d % size;
    assert (-q) * size == -(q * size);
    ModUnique(i, size, -q, k);
    SlotIsMod(i, size);
  }
}
