/**
 * The chronological train/test split: train_test_split with a fractional
 * test size and shuffling turned off.
 */
module Splitter {
  import opened Wrappers

  /** The fraction of the series held out for testing. */
  const TestSize: real := 0.2

  datatype Split = Split(train: seq<real>, test: seq<real>)

  /** Smallest integer not below r. */
  function Ceil(r: real): (c: int)
    ensures (c - 1) as real < r <= c as real
  {
    -((-r).Floor)
  }

  lemma CeilUnique(r: real, c: int)
    requires (c - 1) as real < r <= c as real
    ensures Ceil(r) == c
  {
  }

  /** Number of test rows for a fractional test size: the product rounded up. */
  function TestCount(n: nat, testSize: real): int
  {
    Ceil(testSize * n as real)
  }

  /**
   * Split without shuffling: the last TestCount rows are the test set and the
   * rows before them the training set. A test size outside (0, 1) is refused,
   * and so is a split that would leave the training set empty.
   */
  function TrainTestSplit(data: seq<real>, testSize: real): (r: Result<Split>)
    ensures r.Ok? <==> 0.0 < testSize < 1.0 && TestCount(|data|, testSize) < |data|
    ensures r.Err? ==>
      r.error == (if 0.0 < testSize < 1.0 then InsufficientData else InvalidParameter)
    ensures r.Ok? ==>
      && r.value.train + r.value.test == data
      && |r.value.test| == TestCount(|data|, testSize)
  {
    if !(0.0 < testSize < 1.0) then Err(InvalidParameter)
    else
      var nTrain := |data| - TestCount(|data|, testSize);
      if nTrain <= 0 then Err(InsufficientData)
      else
        assert testSize * |data| as real > 0.0;
        Ok(Split(data[..nTrain], data[nTrain..]))
  }

  /** A successful split leaves neither part empty. */
  lemma SplitPartsNonEmpty(data: seq<real>, testSize: real)
    requires TrainTestSplit(data, testSize).Ok?
    ensures |TrainTestSplit(data, testSize).value.train| > 0
    ensures |TrainTestSplit(data, testSize).value.test| > 0
  {
    var n := |data| as real;
    assert n > 0.0;
    assert testSize * n > 0.0;
  }

  /** With the fixed test size of 0.2 the test set has ceil(n / 5) rows. */
  lemma {:induction false} TestCountOfFifth(n: nat)
    ensures TestCount(n, TestSize) == (n + 4) / 5
  {
    var c := (n + 4) / 5;
    assert 5 * c <= n + 4 < 5 * c + 5;
    assert (c - 1) as real < TestSize * n as real <= c as real;
    CeilUnique(TestSize * n as real, c);
  }

  /**
   * The split the dashboard makes succeeds exactly when the series has at
   * least two rows; then the test set is the last ceil(n / 5) rows and the
   * training set everything before them.
   */
  lemma {:induction false} FixedSplitShape(data: seq<real>)
    ensures TrainTestSplit(data, TestSize).Ok? <==> |data| >= 2
    ensures TrainTestSplit(data, TestSize).Ok? ==>
      var nTest := (|data| + 4) / 5;
      && TrainTestSplit(data, TestSize).value.train == data[..|data| - nTest]
      && TrainTestSplit(data, TestSize).value.test == data[|data| - nTest..]
  {
    TestCountOfFifth(|data|);
    var r := TrainTestSplit(data, TestSize);
    if r.Ok? {
      var k := |r.value.train|;
      assert r.value.train == (r.value.train + r.value.test)[..k];
      assert r.value.test == (r.value.train + r.value.test)[k..];
    }
  }

  /** A single row cannot be split: its one row would go to the test set. */
  lemma SingleRowFails(v: real)
    ensures TrainTestSplit([v], TestSize) == Err(InsufficientData)
  {
    TestCountOfFifth(1);
  }
}
