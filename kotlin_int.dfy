/**
 * Kotlin `Int` arithmetic: 32-bit two's complement, where `+`, `-` and `*`
 * wrap around silently.  The AI scoring code adds path lengths that may be
 * `Int.MAX_VALUE`, so the wrap is part of its behaviour.  `Long` (64 bits)
 * appears only in the game score.
 */
module KotlinInt {
  const INT_MAX: int := 0x7FFF_FFFF
  const INT_MIN: int := -0x8000_0000
  const MODULUS: int := 0x1_0000_0000

  predicate InRange(x: int) { INT_MIN <= x <= INT_MAX }

  /** The Int that a mathematical integer wraps to. */
  function Wrap(x: int): (r: int)
    ensures InRange(r)
    ensures (r - x) % MODULUS == 0
    ensures InRange(x) ==> r == x
  {
    (x - INT_MIN) % MODULUS + INT_MIN
  }

  /** Kotlin `a + b` on two Ints. */
  function Add(a: int, b: int): (r: int)
    ensures InRange(r)
    ensures InRange(a + b) ==> r == a + b
  {
    Wrap(a + b)
  }

  /** Kotlin `a - b` on two Ints. */
  function Sub(a: int, b: int): (r: int)
    ensures InRange(r)
    ensures InRange(a - b) ==> r == a - b
  {
    Wrap(a - b)
  }

  /** Kotlin `a * b` on two Ints. */
  function Mul(a: int, b: int): (r: int)
    ensures InRange(r)
    ensures InRange(a * b) ==> r == a * b
  {
    Wrap(a * b)
  }

  /** The mathematical absolute value, against which the Int `abs` and distance tests are read. */
  function AbsValue(n: int): nat {
    if n < 0 then -n else n
  }

  /** `kotlin.math.abs` on an Int: the negation wraps, so `abs(Int.MIN_VALUE)` is still negative. */
  function Abs(a: int): (r: int)
    requires InRange(a)
    ensures InRange(r)
    ensures r == a || r == -a
    ensures r < 0 <==> a == INT_MIN
  {
    Wrap(if a < 0 then -a else a)
  }

  const LONG_MAX: int := 0x7FFF_FFFF_FFFF_FFFF
  const LONG_MIN: int := -0x8000_0000_0000_0000
  const LONG_MODULUS: int := 0x1_0000_0000_0000_0000

  predicate LongInRange(x: int) { LONG_MIN <= x <= LONG_MAX }

  /** The Long that a mathematical integer wraps to. */
  function WrapLong(x: int): (r: int)
    ensures LongInRange(r)
    ensures LongInRange(x) ==> r == x
  {
    (x - LONG_MIN) % LONG_MODULUS + LONG_MIN
  }

  /** Kotlin `List<Int>.sum()`: a left fold of `+` starting from 0. */
  function Sum(xs: seq<int>): (r: int)
    ensures InRange(r)
  {
    if xs == [] then 0 else Add(Sum(xs[..|xs| - 1]), xs[|xs| - 1])
  }

  /** Adding one to `Int.MAX_VALUE` gives `Int.MIN_VALUE`. */
  lemma MaxPlusOneWraps()
    ensures Add(INT_MAX, 1) == INT_MIN
  {
    assert INT_MAX + 1 - INT_MIN == MODULUS;
  }

  /** `Int.MAX_VALUE + d` for a path length 1 <= d is negative. */
  lemma MaxPlusPositiveIsNegative(d: int)
    requires 1 <= d <= INT_MAX
    ensures Add(INT_MAX, d) == INT_MIN + d - 1
    ensures Add(INT_MAX, d) < 0
  {
    var x := INT_MAX + d;
    assert MODULUS <= x - INT_MIN < 2 * MODULUS;
    assert (x - INT_MIN) % MODULUS == x - INT_MIN - MODULUS;
  }

  /** A two-element list sums to the wrapped sum of its elements. */
  lemma SumOfTwo(a: int, b: int)
    requires InRange(a)
    ensures Sum([a, b]) == Add(a, b)
  {
    assert [a, b][..1] == [a];
    assert [a][..0] == [];
    assert Sum([a]) == Add(0, a) == a;
  }
}
