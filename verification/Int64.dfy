/** Two's complement 64-bit integers, as Go's int64 and time.Duration wrap. */
module Int64 {
  const TWO63: int := 0x8000_0000_0000_0000
  const TWO64: int := 0x1_0000_0000_0000_0000

  predicate Fits(x: int) {
    -TWO63 <= x < TWO63
  }

  type Word = x: int | Fits(x) witness 0

  function Wrap(x: int): (r: int)
    ensures Fits(r)
    ensures Fits(x) ==> r == x
  {
    (x + TWO63) % TWO64 - TWO63
  }

  /** Wrapping only ever moves a number by a multiple of 2^64. */
  lemma WrapMoves(x: int) returns (k: int)
    ensures x == Wrap(x) + k * TWO64
  {
    k := (x + TWO63) / TWO64;
  }

  lemma WrapUnique(x: int, r: int, k: int)
    requires Fits(r) && x == r + k * TWO64
    ensures Wrap(x) == r
  {
    var j := WrapMoves(x);
  }

  /** Wrap by the remainder. */
  lemma WrapByLowBits(x: int)
    ensures Wrap(x) == if x % TWO64 < TWO63 then x % TWO64 else x % TWO64 - TWO64
  {
    var r, q := x % TWO64, x / TWO64;
    assert x == q * TWO64 + r;
    if r < TWO63 {
      WrapUnique(x, r, q);
    } else {
      WrapUnique(x, r - TWO64, q + 1);
    }
  }
}
