/** Machine words of the engine: `int64_t` and `uint64_t`, with the wrap-around of each. */
module Word {
  const INT64_MAX: int := 0x7FFF_FFFF_FFFF_FFFF
  const INT64_MIN: int := -0x8000_0000_0000_0000
  const TWO_TO_64: int := 0x1_0000_0000_0000_0000

  type int64 = x: int | INT64_MIN <= x <= INT64_MAX
  type uint64 = x: int | 0 <= x < TWO_TO_64

  predicate FitsInt64(x: int) {
    INT64_MIN <= x <= INT64_MAX
  }

  /** Two's-complement wrap into `int64_t`: the only 64-bit value congruent to `x`. */
  function Wrap(x: int): (r: int64)
    ensures FitsInt64(x) ==> r == x
    ensures Unsigned(r) == Unsigned(x)
  {
    WrapCongruent(x);
    (x - INT64_MIN) % TWO_TO_64 + INT64_MIN
  }

  /** Conversion to `uint64_t`. */
  function Unsigned(x: int): uint64 {
    x % TWO_TO_64
  }

  lemma WrapCongruent(x: int)
    ensures Unsigned((x - INT64_MIN) % TWO_TO_64 + INT64_MIN) == Unsigned(x)
  {
    var y := x - INT64_MIN;
    assert y == (y / TWO_TO_64) * TWO_TO_64 + y % TWO_TO_64;
    UnsignedShift(y % TWO_TO_64 + INT64_MIN, y / TWO_TO_64);
  }

  /** Adding multiples of 2^64 is invisible in an unsigned word. */
  lemma UnsignedShift(x: int, k: int)
    ensures Unsigned(x + k * TWO_TO_64) == Unsigned(x)
  {
    var q := x / TWO_TO_64;
    assert x + k * TWO_TO_64 == (q + k) * TWO_TO_64 + x % TWO_TO_64;
    DivModUnique(x + k * TWO_TO_64, q + k, x % TWO_TO_64);
  }

  lemma DivModUnique(n: int, q: int, r: int)
    requires n == q * TWO_TO_64 + r && 0 <= r < TWO_TO_64
    ensures n % TWO_TO_64 == r
  {
  }

  /** Congruent words stay congruent when the same amount is added to both. */
  lemma UnsignedAdd(x: int, y: int, d: int)
    requires Unsigned(x) == Unsigned(y)
    ensures Unsigned(x + d) == Unsigned(y + d)
  {
    var k := x / TWO_TO_64 - y / TWO_TO_64;
    assert x == y + k * TWO_TO_64;
    UnsignedShift(y + d, k);
  }

  /** A running unsigned sum only needs its own reduced value. */
  lemma UnsignedStep(sum: int, d: int)
    ensures Unsigned(Unsigned(sum) + d) == Unsigned(sum + d)
  {
    UnsignedShift(Unsigned(sum) + d, sum / TWO_TO_64);
    assert Unsigned(sum) + d + sum / TWO_TO_64 * TWO_TO_64 == sum + d;
  }

  lemma UnsignedId(x: uint64)
    ensures Unsigned(x) == x
  {
  }
}
