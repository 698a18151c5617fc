/** Plain arithmetic over a series of observations. */
module Series {
  import opened Wrappers

  /** Sum of a series, accumulated from the first value to the last. */
  function Sum(s: seq<real>): real
    decreases |s|
  {
    if |s| == 0 then 0.0 else Sum(s[..|s| - 1]) + s[|s| - 1]
  }

  /** Arithmetic mean of a non-empty series. */
  function Mean(s: seq<real>): real
    requires |s| > 0
  {
    Sum(s) / |s| as real
  }

  /** Every value of `s` lies in the closed interval [lo, hi]. */
  predicate Bounded(s: seq<real>, lo: real, hi: real)
  {
    forall k :: 0 <= k < |s| ==> lo <= s[k] <= hi
  }

  /** A column without missing entries, as an optional-valued column. */
  function Defined(s: seq<real>): seq<Option<real>>
  {
    seq(|s|, i requires 0 <= i < |s| => Some(s[i]))
  }

  lemma {:induction false} SumPrepend(v: real, s: seq<real>)
    ensures Sum([v] + s) == v + Sum(s)
    decreases |s|
  {
    var t := [v] + s;
    if |s| == 0 {
      assert t[..|t| - 1] == [];
    } else {
      assert t[..|t| - 1] == [v] + s[..|s| - 1];
      SumPrepend(v, s[..|s| - 1]);
    }
  }

  lemma {:induction false} SumWithinBounds(s: seq<real>, lo: real, hi: real)
    requires Bounded(s, lo, hi)
    ensures |s| as real * lo <= Sum(s) <= |s| as real * hi
    decreases |s|
  {
    if |s| > 0 {
      var p := s[..|s| - 1];
      assert Bounded(p, lo, hi);
      SumWithinBounds(p, lo, hi);
      assert |s| as real * lo == |p| as real * lo + lo;
      assert |s| as real * hi == |p| as real * hi + hi;
    }
  }

  /** The mean of values in [lo, hi] lies in [lo, hi]. */
  lemma MeanWithinBounds(s: seq<real>, lo: real, hi: real)
    requires |s| > 0 && Bounded(s, lo, hi)
    ensures lo <= Mean(s) <= hi
  {
    SumWithinBounds(s, lo, hi);
    var n := |s| as real;
    assert Sum(s) / n >= (n * lo) / n;
    assert Sum(s) / n <= (n * hi) / n;
  }
}
