/**
 * The derived columns of the dashboard: a trailing simple moving average, an
 * exponential moving average by span and one by an explicit smoothing factor,
 * and the one-step lag of each.
 *
 * Values are exact reals; a missing entry (NaN in the dataframe) is `None`.
 */
module Smoother {
  import opened Wrappers
  import opened Series

  // ---------------------------------------------------------------------------
  // Trailing simple moving average: rolling(window).mean()
  // ---------------------------------------------------------------------------

  /** First index of the trailing window of length `window` that ends at `i`
      (clipped at 0 while fewer than `window` values have been seen). */
  function WindowStart(window: int, i: nat): nat
  {
    if i + 1 >= window then i + 1 - window else 0
  }

  /**
   * The window sum as a rolling aggregation keeps it: the sum at `i` is the
   * sum at `i - 1`, plus the value entering the window, minus the value that
   * has just left it.
   */
  function RollingSum(x: seq<real>, window: int, i: nat): real
    requires window >= 1 && i < |x|
    decreases i
  {
    var leaving := if i >= window then x[i - window] else 0.0;
    (if i == 0 then 0.0 else RollingSum(x, window, i - 1)) + x[i] - leaving
  }

  /** The running window sum is the sum of the trailing window. */
  lemma {:induction false} RollingSumIsTrailingSum(x: seq<real>, window: int, i: nat)
    requires window >= 1 && i < |x|
    ensures RollingSum(x, window, i) == Sum(x[WindowStart(window, i)..i + 1])
    decreases i
  {
    var lo := WindowStart(window, i);
    if i == 0 {
      assert x[lo..i + 1][..0] == [];
    } else {
      var lo' := WindowStart(window, i - 1);
      RollingSumIsTrailingSum(x, window, i - 1);
      var grown := x[lo'..i + 1];
      assert grown[..|grown| - 1] == x[lo'..i];
      assert Sum(grown) == Sum(x[lo'..i]) + x[i];
      if i >= window {
        assert lo == lo' + 1;
        assert grown[1..] == x[lo..i + 1];
        assert grown == [x[lo']] + grown[1..];
        SumPrepend(x[lo'], x[lo..i + 1]);
      } else {
        assert lo == lo' == 0;
      }
    }
  }

  /**
   * rolling(window).mean(): one entry per input value; an entry is missing
   * until a full window is available, and after that it is the mean of the
   * `window` values ending at it.
   */
  function Sma(x: seq<real>, window: int): (r: seq<Option<real>>)
    requires window >= 1
    ensures |r| == |x|
    ensures forall i :: 0 <= i < |x| ==> (r[i].None? <==> i < window - 1)
    ensures forall i :: window - 1 <= i < |x| ==> r[i] == Some(Mean(x[i - window + 1..i + 1]))
  {
    var r := seq(|x|, i requires 0 <= i < |x| =>
      if i < window - 1 then None else Some(RollingSum(x, window, i) / window as real));
    assert forall i :: window - 1 <= i < |x| ==> r[i] == Some(Mean(x[i - window + 1..i + 1])) by {
      forall i | window - 1 <= i < |x|
        ensures r[i] == Some(Mean(x[i - window + 1..i + 1]))
      {
        RollingSumIsTrailingSum(x, window, i);
      }
    }
    r
  }

  /** A window longer than the series leaves every entry missing. */
  lemma SmaAllMissingWhenWindowExceedsLength(x: seq<real>, window: int)
    requires window > |x|
    ensures forall i :: 0 <= i < |x| ==> Sma(x, window)[i] == None
  {
  }

  /** A window of one reproduces the series, with no entry missing. */
  lemma SmaWindowOneIsIdentity(x: seq<real>)
    ensures Sma(x, 1) == Defined(x)
  {
    var r := Sma(x, 1);
    forall i | 0 <= i < |x| ensures r[i] == Defined(x)[i] {
      assert x[i..i + 1] == [x[i]];
      assert [x[i]][..0] == [];
      assert Sum([x[i]]) == x[i];
    }
  }

  /** Every average lies between the smallest and the largest observation. */
  lemma SmaWithinBounds(x: seq<real>, window: int, lo: real, hi: real)
    requires window >= 1 && Bounded(x, lo, hi)
    ensures forall i :: window - 1 <= i < |x| ==>
      Sma(x, window)[i].Some? && lo <= Sma(x, window)[i].value <= hi
  {
    forall i | window - 1 <= i < |x|
      ensures lo <= Sma(x, window)[i].value <= hi
    {
      var w := x[i - window + 1..i + 1];
      assert Bounded(w, lo, hi);
      MeanWithinBounds(w, lo, hi);
    }
  }

  lemma Sum3(a: real, b: real, c: real)
    ensures Sum([a, b, c]) == a + b + c
  {
    assert [a][..0] == [];
    assert Sum([a]) == a;
    assert [a, b][..1] == [a];
    assert Sum([a, b]) == a + b;
    assert [a, b, c][..2] == [a, b];
  }

  /** A six-month series with a three-month window. */
  lemma SmaExample()
    ensures Sma([100.0, 102.0, 104.0, 106.0, 108.0, 110.0], 3)
         == [None, None, Some(102.0), Some(104.0), Some(106.0), Some(108.0)]
  {
    var x := [100.0, 102.0, 104.0, 106.0, 108.0, 110.0];
    var r := Sma(x, 3);
    forall i | 2 <= i < 6 ensures r[i] == Some(x[i] - 2.0) {
      assert x[i - 2..i + 1] == [x[i - 2], x[i - 1], x[i]];
      Sum3(x[i - 2], x[i - 1], x[i]);
    }
  }

  // ---------------------------------------------------------------------------
  // One-step lag: shift(1)
  // ---------------------------------------------------------------------------

  /** shift(1): entry 0 is missing and every later entry repeats its predecessor. */
  function Lag<T>(s: seq<Option<T>>): (r: seq<Option<T>>)
    ensures |r| == |s|
    ensures |s| > 0 ==> r[0] == None
    ensures forall t :: 1 <= t < |s| ==> r[t] == s[t - 1]
  {
    if |s| == 0 then [] else [None] + s[..|s| - 1]
  }

  /** The lag of a moving average is missing exactly at its first `window` entries. */
  lemma LaggedSmaMissing(x: seq<real>, window: int)
    requires window >= 1
    ensures forall i :: 0 <= i < |x| ==> (Lag(Sma(x, window))[i].None? <==> i < window)
  {
  }

  /** The lag of a fully defined column is missing exactly at entry 0. */
  lemma LaggedDefinedMissing(e: seq<real>)
    ensures forall i :: 0 <= i < |e| ==> (Lag(Defined(e))[i].None? <==> i == 0)
  {
  }

  // ---------------------------------------------------------------------------
  // Exponential moving average without bias adjustment: ewm(..., adjust=False)
  // ---------------------------------------------------------------------------

  /** Smoothing factor that ewm derives from a span: 2 / (span + 1). */
  function SpanAlpha(span: int): (a: real)
    requires span >= 1
    ensures 0.0 < a <= 1.0
    ensures a == 1.0 <==> span == 1
  {
    2.0 / (span as real + 1.0)
  }

  /**
   * The adjust=False recurrence: the first average is the first value, and
   * each later one moves a fraction `alpha` of the way from the previous
   * average to the new value.
   */
  function Ewm(x: seq<real>, alpha: real): (e: seq<real>)
    ensures |e| == |x|
    decreases |x|
  {
    if |x| == 0 then []
    else if |x| == 1 then [x[0]]
    else
      var prev := Ewm(x[..|x| - 1], alpha);
      prev + [alpha * x[|x| - 1] + (1.0 - alpha) * prev[|x| - 2]]
  }

  /** The average over a prefix of the input is the prefix of the average. */
  lemma {:induction false} EwmPrefix(x: seq<real>, alpha: real, k: nat)
    requires k <= |x|
    ensures Ewm(x, alpha)[..k] == Ewm(x[..k], alpha)
    decreases |x|
  {
    if k == |x| {
      assert x[..k] == x;
    } else if |x| > 1 {
      var p := x[..|x| - 1];
      EwmPrefix(p, alpha, k);
      assert p[..k] == x[..k];
    }
  }

  lemma {:induction false} EwmRecurrenceAt(x: seq<real>, alpha: real, t: nat)
    requires 0 < t < |x|
    ensures Ewm(x, alpha)[t] == alpha * x[t] + (1.0 - alpha) * Ewm(x, alpha)[t - 1]
  {
    var y := x[..t + 1];
    EwmPrefix(x, alpha, t + 1);
    EwmPrefix(y, alpha, t);
    assert y[..t] == y[..|y| - 1];
  }

  /** Every entry of the average obeys the adjust=False recurrence. */
  lemma {:induction false} EwmRecurrence(x: seq<real>, alpha: real)
    ensures |x| > 0 ==> Ewm(x, alpha)[0] == x[0]
    ensures forall t :: 0 < t < |x| ==>
      Ewm(x, alpha)[t] == alpha * x[t] + (1.0 - alpha) * Ewm(x, alpha)[t - 1]
  {
    if |x| > 0 {
      EwmPrefix(x, alpha, 1);
      assert x[..1] == [x[0]];
    }
    forall t | 0 < t < |x|
      ensures Ewm(x, alpha)[t] == alpha * x[t] + (1.0 - alpha) * Ewm(x, alpha)[t - 1]
    {
      EwmRecurrenceAt(x, alpha, t);
    }
  }

  /**
   * The loop that ewm(adjust=False).mean() runs: fill the output array with a
   * running average.
   */
  method EwmMean(x: seq<real>, alpha: real) returns (e: seq<real>)
    ensures e == Ewm(x, alpha)
  {
    var out := new real[|x|];
    var level := 0.0;
    for t := 0 to |x|
      invariant out[..t] == Ewm(x[..t], alpha)
      invariant t > 0 ==> level == out[t - 1]
    {
      ghost var done := out[..t];
      level := if t == 0 then x[0] else alpha * x[t] + (1.0 - alpha) * level;
      out[t] := level;
      assert out[..t] == done;
      ghost var y := x[..t + 1];
      assert y[..|y| - 1] == x[..t];
      ghost var next := Ewm(y, alpha);
      if t > 0 {
        assert next[..t] == done;
      }
      assert next[t] == level;
      assert forall k :: 0 <= k <= t ==> out[..t + 1][k] == next[k];
    }
    assert x[..|x|] == x;
    e := out[..];
  }

  /** With span 1 the smoothing factor is 1 and the average is the series itself. */
  lemma {:induction false} EwmSpanOneIsIdentity(x: seq<real>)
    ensures Ewm(x, SpanAlpha(1)) == x
    decreases |x|
  {
    assert SpanAlpha(1) == 1.0;
    if |x| > 1 {
      var p := x[..|x| - 1];
      EwmSpanOneIsIdentity(p);
      var last := x[|x| - 1];
      assert 1.0 * last + (1.0 - 1.0) * Ewm(p, 1.0)[|x| - 2] == last;
      assert p + [last] == x;
    }
  }

  lemma ConvexWithinBounds(a: real, u: real, v: real, lo: real, hi: real)
    requires 0.0 <= a <= 1.0 && lo <= u <= hi && lo <= v <= hi
    ensures lo <= a * u + (1.0 - a) * v <= hi
  {
    var b := 1.0 - a;
    MulNonNegative(a, u - lo);
    MulNonNegative(a, hi - u);
    MulNonNegative(b, v - lo);
    MulNonNegative(b, hi - v);
    assert a * lo + b * lo == lo && a * hi + b * hi == hi;
  }

  lemma MulNonNegative(p: real, q: real)
    requires p >= 0.0 && q >= 0.0
    ensures p * q >= 0.0
  {
  }

  /** For 0 <= alpha <= 1 every average lies between the smallest and the largest observation. */
  lemma {:induction false} EwmWithinBounds(x: seq<real>, alpha: real, lo: real, hi: real)
    requires 0.0 <= alpha <= 1.0 && Bounded(x, lo, hi)
    ensures Bounded(Ewm(x, alpha), lo, hi)
  {
    var e := Ewm(x, alpha);
    EwmRecurrence(x, alpha);
    var t := 0;
    while t < |x|
      invariant t <= |x|
      invariant forall k :: 0 <= k < t ==> lo <= e[k] <= hi
    {
      if t > 0 {
        ConvexWithinBounds(alpha, x[t], e[t - 1], lo, hi);
      }
      t := t + 1;
    }
  }

  /** The average of a constant series is that constant, whatever the factor. */
  lemma {:induction false} EwmOfConstant(c: real, n: nat, alpha: real)
    ensures Ewm(seq(n, _ => c), alpha) == seq(n, _ => c)
  {
    var x := seq(n, _ => c);
    var e := Ewm(x, alpha);
    EwmRecurrence(x, alpha);
    var t := 0;
    while t < n
      invariant t <= n
      invariant forall k :: 0 <= k < t ==> e[k] == c
    {
      if t > 0 {
        EwmRecurrenceAt(x, alpha, t);
        assert x[t] == c && e[t - 1] == c;
        assert alpha * c + (1.0 - alpha) * c == c;
      } else {
        assert e[0] == x[0];
      }
      t := t + 1;
    }
    assert forall k :: 0 <= k < n ==> e[k] == x[k];
  }

  // The average as an explicit weighted sum of the observations.

  function Pow(b: real, k: nat): real
  {
    if k == 0 then 1.0 else b * Pow(b, k - 1)
  }

  /** Weight that the average at index t gives to observation k:
      (1 - alpha)^t for the first observation, alpha * (1 - alpha)^(t - k) for the others. */
  function EwmWeight(alpha: real, t: nat, k: nat): real
    requires k <= t
  {
    if k == 0 then Pow(1.0 - alpha, t) else alpha * Pow(1.0 - alpha, t - k)
  }

  lemma WeightDecay(alpha: real, t: nat, k: nat)
    requires k < t
    ensures (1.0 - alpha) * EwmWeight(alpha, t - 1, k) == EwmWeight(alpha, t, k)
  {
    assert Pow(1.0 - alpha, t - k) == (1.0 - alpha) * Pow(1.0 - alpha, t - 1 - k);
  }

  /** The weights of the average at index t, one per observation x[0..t]. */
  function EwmWeights(alpha: real, t: nat): (w: seq<real>)
    ensures |w| == t + 1
  {
    seq(t + 1, k requires 0 <= k <= t => EwmWeight(alpha, t, k))
  }

  /** Sum of the products of two equally long series. */
  function Dot(w: seq<real>, v: seq<real>): real
    requires |w| == |v|
    decreases |w|
  {
    if |w| == 0 then 0.0 else Dot(w[..|w| - 1], v[..|v| - 1]) + w[|w| - 1] * v[|v| - 1]
  }

  function Scale(c: real, w: seq<real>): (r: seq<real>)
    ensures |r| == |w|
  {
    seq(|w|, k requires 0 <= k < |w| => c * w[k])
  }

  lemma ScaleEqual(c: real, p: real, q: real)
    requires p == q
    ensures c * p == c * q
  {
  }

  lemma ScaleStep(c: real, s: real, s': real, w: real, v: real)
    requires c * s == s'
    ensures c * (s + w * v) == s' + (c * w) * v
  {
    assert c * (s + w * v) == c * s + c * (w * v);
    assert c * (w * v) == (c * w) * v;
  }

  lemma {:induction false} DotScale(c: real, w: seq<real>, v: seq<real>)
    requires |w| == |v|
    ensures c * Dot(w, v) == Dot(Scale(c, w), v)
    decreases |w|
  {
    if |w| > 0 {
      var n := |w|;
      var p, q := w[..n - 1], v[..n - 1];
      forall k | 0 <= k < n - 1 ensures Scale(c, w)[k] == Scale(c, p)[k] {
        assert w[k] == p[k];
      }
      assert Scale(c, w)[..n - 1] == Scale(c, p);
      DotScale(c, p, q);
      ScaleStep(c, Dot(p, q), Dot(Scale(c, p), q), w[n - 1], v[n - 1]);
      ScaleEqual(c, Dot(w, v), Dot(p, q) + w[n - 1] * v[n - 1]);
    }
  }

  /** Moving one index on scales every earlier weight by 1 - alpha. */
  lemma WeightsDecay(alpha: real, t: nat)
    requires t >= 1
    ensures EwmWeights(alpha, t)[..t] == Scale(1.0 - alpha, EwmWeights(alpha, t - 1))
    ensures EwmWeights(alpha, t)[t] == alpha
  {
    var w, prev := EwmWeights(alpha, t), EwmWeights(alpha, t - 1);
    forall k | 0 <= k < t
      ensures w[k] == Scale(1.0 - alpha, prev)[k]
    {
      WeightDecay(alpha, t, k);
    }
  }

  /** The recurrence unrolled: each average is a fixed weighted sum of the observations so far. */
  lemma {:induction false} EwmClosedForm(x: seq<real>, alpha: real, t: nat)
    requires t < |x|
    ensures Ewm(x, alpha)[t] == Dot(EwmWeights(alpha, t), x[..t + 1])
    decreases t
  {
    EwmRecurrence(x, alpha);
    var w := EwmWeights(alpha, t);
    if t == 0 {
      assert w[..0] == [] && x[..1][..0] == [];
    } else {
      var e := Ewm(x, alpha);
      var b := 1.0 - alpha;
      var prev := EwmWeights(alpha, t - 1);
      EwmClosedForm(x, alpha, t - 1);
      WeightsDecay(alpha, t);
      assert x[..t + 1][..t] == x[..t];
      assert Dot(w, x[..t + 1]) == Dot(Scale(b, prev), x[..t]) + alpha * x[t];
      DotScale(b, prev, x[..t]);
      ScaleEqual(b, e[t - 1], Dot(prev, x[..t]));
    }
  }

  /** The weights of the unrolled average add up to one. */
  lemma EwmWeightsSumToOne(alpha: real, t: nat)
    ensures Dot(EwmWeights(alpha, t), seq(t + 1, _ => 1.0)) == 1.0
  {
    var ones := seq(t + 1, _ => 1.0);
    EwmOfConstant(1.0, t + 1, alpha);
    EwmClosedForm(ones, alpha, t);
    assert ones[..t + 1] == ones;
  }

  // ---------------------------------------------------------------------------
  // The six derived columns
  // ---------------------------------------------------------------------------

  /** The three slider settings. */
  datatype Config = Config(smaWindow: int, emaSpan: int, customAlpha: real)

  /**
   * Accepted settings. The span and factor bounds (span >= 1, 0 < alpha <= 1)
   * are the checks ewm applies. rolling refuses only a negative window (a window
   * of 0 gives an all-missing column); the bound window >= 1 is the slider's
   * minimum (milk.py:59), taken here as the rule for a valid window.
   */
  predicate ValidConfig(c: Config)
  {
    c.smaWindow >= 1 && c.emaSpan >= 1 && 0.0 < c.customAlpha <= 1.0
  }

  /** The production column with its six derived columns, aligned index for index. */
  datatype SmoothedSeries = SmoothedSeries(
    production: seq<real>,
    sma: seq<Option<real>>,
    smaShifted: seq<Option<real>>,
    ema: seq<real>,
    emaShifted: seq<Option<real>>,
    customEma: seq<real>,
    customEmaShifted: seq<Option<real>>)

  /** The columns that settings `cfg` derive from the production series `x`. */
  predicate DerivedFrom(s: SmoothedSeries, x: seq<real>, cfg: Config)
    requires ValidConfig(cfg)
  {
    && s.production == x
    && s.sma == Sma(x, cfg.smaWindow) && s.smaShifted == Lag(s.sma)
    && s.ema == Ewm(x, SpanAlpha(cfg.emaSpan)) && s.emaShifted == Lag(Defined(s.ema))
    && s.customEma == Ewm(x, cfg.customAlpha) && s.customEmaShifted == Lag(Defined(s.customEma))
  }

  /**
   * Every derived column is as long as the input, and the only missing entries
   * are the moving average's first window - 1, its lag's first window, and
   * entry 0 of each EMA lag.
   */
  lemma DerivedColumnsMissing(s: SmoothedSeries, x: seq<real>, cfg: Config)
    requires ValidConfig(cfg) && DerivedFrom(s, x, cfg)
    ensures |s.sma| == |s.smaShifted| == |s.ema| == |s.emaShifted| == |x|
    ensures |s.customEma| == |s.customEmaShifted| == |x|
    ensures forall i :: 0 <= i < |x| ==> (s.sma[i].None? <==> i < cfg.smaWindow - 1)
    ensures forall i :: 0 <= i < |x| ==> (s.smaShifted[i].None? <==> i < cfg.smaWindow)
    ensures forall i :: 0 <= i < |x| ==> (s.emaShifted[i].None? <==> i == 0)
    ensures forall i :: 0 <= i < |x| ==> (s.customEmaShifted[i].None? <==> i == 0)
  {
    LaggedSmaMissing(x, cfg.smaWindow);
    LaggedDefinedMissing(s.ema);
    LaggedDefinedMissing(s.customEma);
  }

  /** Adds the SMA, EMA and custom-EMA columns and their lags. */
  method Smooth(x: seq<real>, cfg: Config) returns (r: Result<SmoothedSeries>)
    ensures r.Ok? <==> ValidConfig(cfg)
    ensures r.Err? ==> r.error == InvalidParameter
    ensures r.Ok? ==> DerivedFrom(r.value, x, cfg)
    ensures r.Ok? && cfg.customAlpha == SpanAlpha(cfg.emaSpan) ==> r.value.ema == r.value.customEma
  {
    if !ValidConfig(cfg) {
      return Err(InvalidParameter);
    }
    var sma := Sma(x, cfg.smaWindow);
    var ema := EwmMean(x, SpanAlpha(cfg.emaSpan));
    var custom := EwmMean(x, cfg.customAlpha);
    r := Ok(SmoothedSeries(x, sma, Lag(sma), ema, Lag(Defined(ema)), custom, Lag(Defined(custom))));
  }
}
