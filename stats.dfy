/** Sums and means over exact reals: pandas' `sum()` and `mean()`, with "undefined" as None instead of NaN. */
module Stats {
  import opened Wrappers

  function Sum(xs: seq<real>): real {
    if xs == [] then 0.0 else xs[0] + Sum(xs[1..])
  }

  /** The arithmetic mean; None for an empty sequence (pandas gives NaN). */
  function Mean(xs: seq<real>): (r: Option<real>)
    ensures r.None? <==> xs == []
  {
    if xs == [] then None else Some(Sum(xs) / (|xs| as real))
  }

  /** The mean times the number of values is their sum. */
  lemma MeanTimesCount(xs: seq<real>)
    requires xs != []
    ensures Mean(xs).value * (|xs| as real) == Sum(xs)
  {
  }

  lemma {:induction false} SumAppend(a: seq<real>, b: seq<real>)
    ensures Sum(a + b) == Sum(a) + Sum(b)
  {
    if a != [] {
      assert (a + b)[1..] == a[1..] + b;
      SumAppend(a[1..], b);
    } else {
      assert a + b == b;
    }
  }

  lemma {:induction false} SumPositive(xs: seq<real>)
    requires forall i :: 0 <= i < |xs| ==> xs[i] > 0.0
    ensures xs != [] ==> Sum(xs) > 0.0
    ensures Sum(xs) >= 0.0
  {
    if xs != [] {
      SumPositive(xs[1..]);
    }
  }

  /** The mean of positive values is positive. */
  lemma MeanPositive(xs: seq<real>)
    requires xs != [] && forall i :: 0 <= i < |xs| ==> xs[i] > 0.0
    ensures Mean(xs).Some? && Mean(xs).value > 0.0
  {
    SumPositive(xs);
  }
}
