/** The int of C, 32 bits wide. */
module Integers {
  const INT_LIMIT: nat := 0x8000_0000

  /** Conversion to int, taken to wrap around. */
  function ToInt(x: int): int {
    var low := x % (2 * INT_LIMIT);
    if low < INT_LIMIT then low else low - 2 * INT_LIMIT
  }

  /** An int has 32 bits: the result fits one and differs by a multiple of 2 to the 32. */
  lemma ToIntMeans(x: int) returns (k: int)
    ensures -0x8000_0000 <= ToInt(x) < 0x8000_0000 && x == ToInt(x) + 0x1_0000_0000 * k
  {
    k := x / 0x1_0000_0000;
    if x % 0x1_0000_0000 >= 0x8000_0000 {
      k := k + 1;
    }
  }

  /** Converting once at the end is the same as converting at each step. */
  lemma ToIntAdd(x: int, y: int)
    ensures ToInt(ToInt(x) + y) == ToInt(x + y)
  {
    var q := x / (2 * INT_LIMIT);
    var k := if x % (2 * INT_LIMIT) < INT_LIMIT then q else q + 1;
    assert ToInt(x) == x - 2 * INT_LIMIT * k;
    ModShift(x + y, -k);
  }

  lemma ModShift(x: int, k: int)
    ensures (x + 2 * INT_LIMIT * k) % (2 * INT_LIMIT) == x % (2 * INT_LIMIT)
  {
    var n := 2 * INT_LIMIT;
    var q := (x + n * k) / n - x / n - k;
    assert n * q == x % n - (x + n * k) % n;
  }

  /** ToInt keeps a number that fits and takes at least 2 to the 32 off any other. */
  lemma ToIntFits(x: nat)
    ensures x < INT_LIMIT ==> ToInt(x) == x
    ensures x >= INT_LIMIT ==> ToInt(x) <= x - 2 * INT_LIMIT
  {
  }
}
