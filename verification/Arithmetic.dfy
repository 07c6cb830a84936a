/** Arithmetic that several modules share.

    Larger and smaller, powers of two, and multiples of a size. */
module Arithmetic {
  function Max(a: nat, b: nat): nat { if a < b then b else a }

  function Min(a: nat, b: nat): nat { if a < b then a else b }

  function Pow2(n: nat): (p: nat)
    ensures p >= 1
  {
    if n == 0 then 1 else 2 * Pow2(n - 1)
  }

  lemma Twice(a: nat, b: nat)
    ensures (2 * a) * b == 2 * (a * b)
  {
  }

  lemma {:induction false} Pow2Sum(a: nat, b: nat)
    ensures Pow2(a) * Pow2(b) == Pow2(a + b)
  {
    if a > 0 {
      Pow2Sum(a - 1, b);
      Twice(Pow2(a - 1), Pow2(b));
    }
  }

  /** A multiple other than zero is at least one whole size away from it. */
  lemma WholeMultiple(t: int, size: int)
    requires size > 0
    ensures t >= 1 ==> t * size >= size
    ensures t <= -1 ==> t * size <= -size
  {
    if t >= 1 {
      assert (t - 1) * size >= 0;
    } else if t <= -1 {
      assert (-t - 1) * size >= 0;
    }
  }
}
