/**
 * Simple exponential smoothing with a fixed smoothing level, fitted to the
 * training rows, and its flat forecast over the test period.
 */
module Forecaster {
  import opened Wrappers
  import opened Series
  import opened Smoother
  import opened Splitter

  /** The smoothing level the model is fitted with (not optimised). */
  const SmoothingLevel: real := 0.1

  /**
   * Fits the level: it starts at the first training value and moves a fraction
   * `smoothingLevel` towards each later one. The smoothing recurrence is the
   * one ewm(adjust=False) uses, so the fitted levels are Ewm(train, smoothingLevel).
   */
  method FitLevel(train: seq<real>, smoothingLevel: real) returns (level: real)
    requires |train| > 0
    ensures level == Ewm(train, smoothingLevel)[|train| - 1]
  {
    EwmRecurrence(train, smoothingLevel);
    level := train[0];
    for t := 1 to |train|
      invariant level == Ewm(train, smoothingLevel)[t - 1]
    {
      level := smoothingLevel * train[t] + (1.0 - smoothingLevel) * level;
    }
  }

  /** A model with neither trend nor season forecasts its final level at every step. */
  function Forecast(level: real, steps: nat): (f: seq<real>)
    ensures |f| == steps
    ensures forall h :: 0 <= h < steps ==> f[h] == level
  {
    seq(steps, _ => level)
  }

  /** Forecasting further ahead only extends a shorter forecast. */
  lemma ForecastExtends(level: real, short: nat, long: nat)
    requires short <= long
    ensures Forecast(level, long)[..short] == Forecast(level, short)
  {
  }

  /** One row of the result table: the actual test value and the forecast for its month. */
  datatype Row = Row(actual: real, forecast: real)

  /**
   * Fits the model to the training rows, forecasts one step per test row and
   * pairs each forecast with the actual value of the same month.
   */
  method ForecastAgainstActual(train: seq<real>, test: seq<real>) returns (r: Result<seq<Row>>)
    ensures r.Ok? <==> |train| > 0
    ensures r.Err? ==> r.error == InsufficientData
    ensures r.Ok? ==>
      && |r.value| == |test|
      && forall i :: 0 <= i < |test| ==>
           r.value[i].actual == test[i]
           && r.value[i].forecast == Ewm(train, SmoothingLevel)[|train| - 1]
  {
    if |train| == 0 {
      return Err(InsufficientData);
    }
    var level := FitLevel(train, SmoothingLevel);
    var forecast := Forecast(level, |test|);
    var rows := seq(|test|, i requires 0 <= i < |test| => Row(test[i], forecast[i]));
    r := Ok(rows);
  }

  /**
   * The whole forecasting path: split the production series 80/20 in time
   * order, fit on the first part, forecast the second.
   */
  method ForecastProduction(data: seq<real>) returns (r: Result<seq<Row>>)
    ensures r.Ok? <==> |data| >= 2
    ensures r.Err? ==> r.error == InsufficientData
    ensures r.Ok? ==>
      var nTest := (|data| + 4) / 5;
      var nTrain := |data| - nTest;
      && |r.value| == nTest
      && forall i :: 0 <= i < nTest ==>
           r.value[i].actual == data[nTrain + i]
           && r.value[i].forecast == Ewm(data[..nTrain], SmoothingLevel)[nTrain - 1]
  {
    FixedSplitShape(data);
    var split := TrainTestSplit(data, TestSize);
    if split.Err? {
      return Err(split.error);
    }
    r := ForecastAgainstActual(split.value.train, split.value.test);
  }

  /** The flat forecast never leaves the range of the training values. */
  lemma {:induction false} ForecastWithinTrainingRange(train: seq<real>, lo: real, hi: real)
    requires |train| > 0 && Bounded(train, lo, hi)
    ensures lo <= Ewm(train, SmoothingLevel)[|train| - 1] <= hi
  {
    EwmWithinBounds(train, SmoothingLevel, lo, hi);
  }

  /** Training on [10, 20] with level 0.1: 0.1 * 20 + 0.9 * 10 = 11. */
  lemma FittedLevelExample()
    ensures Ewm([10.0, 20.0], SmoothingLevel)[1] == 11.0
    ensures Forecast(Ewm([10.0, 20.0], SmoothingLevel)[1], 3) == [11.0, 11.0, 11.0]
  {
    EwmRecurrence([10.0, 20.0], SmoothingLevel);
  }
}
