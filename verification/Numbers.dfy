/** Small arithmetic used by several modules. */
module Numbers {

  function Min(a: int, b: int): int {
    if a <= b then a else b
  }

  function Max(a: int, b: int): int {
    if a >= b then a else b
  }

  function SumOf(xs: seq<int>): int {
    if xs == [] then 0 else xs[0] + SumOf(xs[1..])
  }

  lemma {:induction false} SumOfSnoc(xs: seq<int>, x: int)
    ensures SumOf(xs + [x]) == SumOf(xs) + x
  {
    if xs != [] {
      assert (xs + [x])[1..] == xs[1..] + [x];
      SumOfSnoc(xs[1..], x);
    }
  }
}
