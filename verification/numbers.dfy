/** Sums, means and ranges over lists of numbers, exact (no floating point). */
module Numbers {
  import opened Wrappers

  function SumOf(xs: seq<real>): real {
    if |xs| == 0 then 0.0 else SumOf(xs[..|xs| - 1]) + xs[|xs| - 1]
  }

  lemma SumOfSnoc(xs: seq<real>, x: real)
    ensures SumOf(xs + [x]) == SumOf(xs) + x
  {
    assert (xs + [x])[..|xs|] == xs;
  }

  /** `sum / length`; `None` for an empty list, where the source computes `NaN`. */
  function Mean(xs: seq<real>): (r: Option<real>)
    ensures r.None? <==> |xs| == 0
    ensures r.Some? ==> r.value * (|xs| as real) == SumOf(xs)
  {
    if |xs| == 0 then None else Some(SumOf(xs) / (|xs| as real))
  }

  datatype Range = Range(min: real, max: real)

  /** `Math.min(...xs)` and `Math.max(...xs)`; `None` for an empty list, where
      the source gets `Infinity` and `-Infinity`. */
  function Bounds(xs: seq<real>): (r: Option<Range>)
    ensures r.None? <==> |xs| == 0
    ensures r.Some? ==> r.value.min in xs && r.value.max in xs
    ensures r.Some? ==> forall x :: x in xs ==> r.value.min <= x <= r.value.max
  {
    if |xs| == 0 then None
    else
      var init := xs[..|xs| - 1];
      var last := xs[|xs| - 1];
      assert xs == init + [last];
      var b := Bounds(init);
      if b.None? then Some(Range(last, last))
      else
        Some(Range(if last < b.value.min then last else b.value.min,
                   if last > b.value.max then last else b.value.max))
  }
}
