/** The 64-bit integers of the source's `int` and `int64`. */
module Int64 {
  const TWO_63 := 0x8000_0000_0000_0000
  const TWO_64 := 0x1_0000_0000_0000_0000

  predicate IsInt64(x: int) {
    -TWO_63 <= x < TWO_63
  }

  /** Two's-complement wrap-around. */
  function Wrap64(x: int): (r: int)
    ensures IsInt64(r)
    ensures IsInt64(x) ==> r == x
  {
    (x + TWO_63) % TWO_64 - TWO_63
  }

  /** A wrapped offset is undone by the opposite one. */
  lemma WrapUndone(x: int, k: int)
    requires IsInt64(x)
    ensures Wrap64(Wrap64(x - k) + k) == x
  {
    var a := x - k + TWO_63;
    assert Wrap64(x - k) + k == x - a / TWO_64 * TWO_64;
  }
}
