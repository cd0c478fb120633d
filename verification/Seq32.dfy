/** Sequence numbers modulo 2^32, as the extended sender compares them. */
module Seq32 {
  const MODULUS := 0x1_0000_0000

  type U32 = x: int | 0 <= x < MODULUS

  function Wrap(x: int): U32 {
    x % MODULUS
  }

  /** `checkWindow`: is the number in the half-open segment from `left` to `right`? */
  predicate CheckWindow(left: U32, sequence: U32, right: U32) {
    if left <= right then left <= sequence && sequence < right
    else !(right <= sequence && sequence < left)
  }

  /** It is membership of the circular interval: the distance travelled forward from `left`. */
  lemma CheckWindowIsCircular(left: U32, sequence: U32, right: U32)
    ensures CheckWindow(left, sequence, right) <==> Wrap(sequence - left) < Wrap(right - left)
  {
    WrapSmall(sequence - left);
    WrapSmall(right - left);
  }

  lemma WrapSmall(x: int)
    requires -MODULUS <= x < MODULUS
    ensures Wrap(x) == if x < 0 then x + MODULUS else x
  {
    if x < 0 {
      assert x % MODULUS == (x + MODULUS) % MODULUS;
    }
  }

  lemma WrapDifference(x: int, y: int)
    ensures Wrap(Wrap(x) - Wrap(y)) == Wrap(x - y)
    ensures Wrap(Wrap(x) + y) == Wrap(x + y)
  {
    var a, b := x / MODULUS, y / MODULUS;
    assert Wrap(x) == x - a * MODULUS && Wrap(y) == y - b * MODULUS;
    WrapShift(x - y, b - a);
    WrapShift(x + y, -a);
  }

  lemma WrapShift(x: int, k: int)
    ensures Wrap(x + k * MODULUS) == Wrap(x)
  {
    var q := x / MODULUS;
    assert x + k * MODULUS == (q + k) * MODULUS + Wrap(x);
  }
}
