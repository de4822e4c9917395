/** Sums of a real-valued measure over a sequence, the running totals that the
    aggregations accumulate. */
module Sums {

  function SumOf<T>(s: seq<T>, f: T -> real): real {
    if s == [] then 0.0 else f(s[0]) + SumOf(s[1..], f)
  }

  lemma {:induction false} SumOfSnoc<T>(s: seq<T>, x: T, f: T -> real)
    ensures SumOf(s + [x], f) == SumOf(s, f) + f(x)
    decreases |s|
  {
    if s == [] {
      assert [] + [x] == [x];
      assert [x][1..] == [];
    } else {
      SumOfSnoc(s[1..], x, f);
      assert (s + [x])[1..] == s[1..] + [x];
    }
  }

  /** Replacing one element changes the sum by the difference of the measures. */
  lemma {:induction false} SumOfUpdate<T>(s: seq<T>, i: int, x: T, f: T -> real)
    requires 0 <= i < |s|
    ensures SumOf(s[i := x], f) == SumOf(s, f) - f(s[i]) + f(x)
    decreases |s|
  {
    if i == 0 {
      assert s[i := x][1..] == s[1..];
    } else {
      SumOfUpdate(s[1..], i - 1, x, f);
      assert s[i := x][1..] == s[1..][i - 1 := x];
    }
  }
}
