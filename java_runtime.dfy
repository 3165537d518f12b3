/**
 * The few pieces of the Java runtime that the lookup engine leans on:
 * 32-bit `int` arithmetic and `SecureRandom.nextInt(bound)`.
 */
module JavaRuntime {
  import opened Wrappers

  const MIN_INT: int := -0x8000_0000
  const MAX_INT: int := 0x7fff_ffff
  const TWO_TO_32: int := 0x1_0000_0000

  /** A Java `int`. */
  type Int32 = x: int | -0x8000_0000 <= x <= 0x7fff_ffff

  /** A byte of a file, read as an unsigned value. */
  type byte = b: int | 0 <= b < 256

  /** A Java `List` or buffer: its size is an `int`, so it holds at most MAX_INT elements. */
  type JavaSeq<T> = s: seq<T> | |s| <= 0x7fff_ffff witness []

  /** The value Java's `int` arithmetic produces for the exact result `x`: two's-complement wrap-around. */
  function Wrap32(x: int): (r: Int32)
    ensures (x - r) % TWO_TO_32 == 0
    ensures MIN_INT <= x <= MAX_INT ==> r == x
  {
    (x - MIN_INT) % TWO_TO_32 + MIN_INT
  }

  /**
   * `SecureRandom.nextInt(bound)`. The random source is not modelled: the
   * caller injects a `draw`, which is reduced into `[0, bound)`. Java throws
   * for a bound that is not positive; that is `None` here.
   */
  function NextInt(bound: int, draw: nat): (r: Option<int>)
    ensures r.Some? <==> bound > 0
    ensures r.Some? ==> 0 <= r.value < bound
  {
    if bound <= 0 then None else Some(draw % bound)
  }

  /** Every value of `[0, bound)` is drawn by some draw, so no value is excluded. */
  lemma NextIntReachesEvery(bound: int, k: int)
    requires 0 <= k < bound
    ensures NextInt(bound, k) == Some(k)
  {
  }
}
