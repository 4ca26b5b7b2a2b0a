/**
 * The C# `int` type: 32-bit two's complement. The counters of the
 * filter loop are incremented with `++` in an unchecked context, so on
 * overflow they wrap around instead of raising an exception.
 */
module Int32 {

  const Min: int := -0x8000_0000
  const Max: int := 0x7FFF_FFFF
  const Modulus: int := 0x1_0000_0000

  predicate InRange(x: int) {
    Min <= x <= Max
  }

  /** The `int` value that the unbounded integer `n` truncates to. */
  function Wrap(n: int): (r: int)
    ensures InRange(r)
    ensures (n - r) % Modulus == 0
    ensures InRange(n) ==> r == n
  {
    (n - Min) % Modulus + Min
  }

  /** Unchecked `x++` on an `int`: Max steps to Min. */
  function Increment(x: int): (r: int)
    requires InRange(x)
    ensures InRange(r)
    ensures r == Wrap(x + 1)
  {
    if x == Max then Min else x + 1
  }

  /** Counting with wrapped increments gives the wrapped count. */
  lemma IncrementWrap(n: int)
    ensures Increment(Wrap(n)) == Wrap(n + 1)
  {
  }
}
