/**
 * Conversion of the variable-length examples into the zero-padded arrays the network
 * consumes: features become a time-major `[n, max_x_len, num_feat]` array, labels an
 * `[n, max_y_len]` int32 array.
 */
module Padding {
  import opened Wrappers
  import opened Dataset

  /** What the padding code raises. */
  datatype PadError =
    | EmptyDataset            // `data_x[0]` or `max(...)` of an empty dataset
    | FeatureIndexOutOfRange  // a non-empty feature row beyond the first example's `num_feat` rows

  /**
   * The fill writes past the feature axis: some example has a row beyond the first
   * example's `num_feat` rows, and that row has a timestep that is not truncated.
   */
  predicate FeatureOverflow(dataX: seq<FeatureMatrix>, maxXLen: nat)
    requires |dataX| > 0
  {
    exists i, j :: 0 <= i < |dataX| && |dataX[0]| <= j < |dataX[i]| && 0 < |dataX[i][j]| && 0 < maxXLen
  }

  /** The value the padded feature array holds at example `i`, timestep `k`, feature `j`. */
  function PaddedFeature(dataX: seq<FeatureMatrix>, i: nat, k: nat, j: nat): real
    requires i < |dataX|
  {
    if j < |dataX[i]| && k < |dataX[i][j]| then dataX[i][j][k] else 0.0
  }

  /** Cell `(i', k', j')` is visited by the fill loop before position `(i, j, k)` of its loop nest. */
  predicate Before(i': nat, k': nat, j': nat, i: nat, j: nat, k: nat)
  {
    i' < i || (i' == i && (j' < j || (j' == j && k' < k)))
  }

  /** Every cell visited before `(i, j, k)` holds its padded value; every other cell is still 0. */
  ghost predicate FilledUpTo(x: array3<real>, dataX: seq<FeatureMatrix>, i: nat, j: nat, k: nat)
    reads x
    requires x.Length0 == |dataX|
  {
    forall i', k', j' :: 0 <= i' < x.Length0 && 0 <= k' < x.Length1 && 0 <= j' < x.Length2 ==>
      x[i', k', j'] == if Before(i', k', j', i, j, k) then PaddedFeature(dataX, i', k', j') else 0.0
  }

  /** No row visited before row `j` of example `i` overflows the feature axis. */
  predicate NoOverflowBefore(dataX: seq<FeatureMatrix>, maxXLen: nat, i: nat, j: nat)
    requires 0 < |dataX| && i <= |dataX|
  {
    forall i', j' :: 0 <= i' < |dataX| && (i' < i || (i' == i && j' < j)) && |dataX[0]| <= j' < |dataX[i']| ==>
      |dataX[i'][j']| == 0 || maxXLen == 0
  }

  /**
   * The feature fill: a zero array of shape `[n, maxXLen, num_feat]` (`num_feat` is the
   * first example's row count) receives, for each example, each feature row `j` and each
   * timestep `k < maxXLen`, the value `dataX[i][j][k]` at `[i, k, j]`. Later timesteps are
   * skipped, and cells no example reaches stay 0.
   */
  method PadFeatures(dataX: seq<FeatureMatrix>, maxXLen: nat) returns (r: Result<array3<real>, PadError>)
    ensures r.Failure? <==> |dataX| == 0 || FeatureOverflow(dataX, maxXLen)
    ensures r.Failure? ==> r.error == if |dataX| == 0 then EmptyDataset else FeatureIndexOutOfRange
    ensures r.Success? ==> fresh(r.value)
    ensures r.Success? ==>
      r.value.Length0 == |dataX| && r.value.Length1 == maxXLen && r.value.Length2 == |dataX[0]|
    ensures r.Success? ==> forall i, k, j ::
      0 <= i < r.value.Length0 && 0 <= k < r.value.Length1 && 0 <= j < r.value.Length2 ==>
        r.value[i, k, j] == PaddedFeature(dataX, i, k, j)
  {
    if |dataX| == 0 {
      return Failure(EmptyDataset);
    }
    var numFeat := |dataX[0]|;
    var x := new real[|dataX|, maxXLen, numFeat]((_, _, _) => 0.0);
    var i := 0;
    while i < |dataX|
      invariant i <= |dataX|
      invariant FilledUpTo(x, dataX, i, 0, 0)
      invariant NoOverflowBefore(dataX, maxXLen, i, 0)
    {
      var examples := dataX[i];
      var j := 0;
      while j < |examples|
        invariant j <= |examples|
        invariant FilledUpTo(x, dataX, i, j, 0)
        invariant NoOverflowBefore(dataX, maxXLen, i, j)
      {
        var feat := examples[j];
        var k := 0;
        while k < |feat|
          invariant k <= |feat|
          invariant FilledUpTo(x, dataX, i, j, k)
          invariant j >= numFeat ==> k == 0 || maxXLen == 0
        {
          if k < maxXLen {
            if j >= numFeat {
              return Failure(FeatureIndexOutOfRange);
            }
            x[i, k, j] := feat[k];
          }
          k := k + 1;
        }
        j := j + 1;
      }
      i := i + 1;
    }
    return Success(x);
  }

  /** `max(map(len, data_y))`: the longest label list. */
  function MaxLabelLen(dataY: seq<LabelSeq>): (m: nat)
    requires |dataY| > 0
    ensures forall i :: 0 <= i < |dataY| ==> |dataY[i]| <= m
    ensures exists i :: 0 <= i < |dataY| && |dataY[i]| == m
  {
    if |dataY| == 1 then |dataY[0]|
    else
      var rest := MaxLabelLen(dataY[1..]);
      if |dataY[0]| < rest then rest else |dataY[0]|
  }

  /** The value the padded label array holds at example `i`, position `j`. */
  function PaddedLabel(dataY: seq<LabelSeq>, i: nat, j: nat): int32
    requires i < |dataY|
  {
    if j < |dataY[i]| then dataY[i][j] else 0
  }

  /**
   * The label fill: a zero int32 array of shape `[n, max_y_len]` receives each label at
   * its own position. Every label list fits, so nothing is cut, and the rest of each row
   * is 0 (which is also the index of the alphabet's first class, not the blank).
   */
  method PadLabels(dataY: seq<LabelSeq>) returns (r: Result<array2<int32>, PadError>)
    ensures r.Failure? <==> |dataY| == 0
    ensures r.Failure? ==> r.error == EmptyDataset
    ensures r.Success? ==> fresh(r.value)
    ensures r.Success? ==> r.value.Length0 == |dataY| && r.value.Length1 == MaxLabelLen(dataY)
    ensures r.Success? ==> forall i :: 0 <= i < |dataY| ==> |dataY[i]| <= r.value.Length1
    ensures r.Success? ==> forall i, j :: 0 <= i < r.value.Length0 && 0 <= j < r.value.Length1 ==>
      r.value[i, j] == PaddedLabel(dataY, i, j)
  {
    if |dataY| == 0 {
      return Failure(EmptyDataset);
    }
    var maxYLen := MaxLabelLen(dataY);
    var y := new int32[|dataY|, maxYLen]((_, _) => 0);
    var i := 0;
    while i < |dataY|
      invariant i <= |dataY|
      invariant forall i', j' :: 0 <= i' < y.Length0 && 0 <= j' < y.Length1 ==>
        y[i', j'] == if i' < i then PaddedLabel(dataY, i', j') else 0
    {
      var examples := dataY[i];
      var j := 0;
      while j < |examples|
        invariant j <= |examples|
        invariant forall i', j' :: 0 <= i' < y.Length0 && 0 <= j' < y.Length1 ==>
          y[i', j'] == if i' < i || (i' == i && j' < j) then PaddedLabel(dataY, i', j') else 0
      {
        y[i, j] := examples[j];
        j := j + 1;
      }
      i := i + 1;
    }
    return Success(y);
  }

  /**
   * With every label in the alphabet, every cell of the padded label array (a label or
   * the 0 padding) is an output index of the `nClasses + 1`-wide layer and is not the
   * blank: a cell exists only when some label does, so the alphabet is not empty and the
   * padding 0 is one of its classes.
   */
  lemma {:induction false} PaddedLabelsAvoidBlank(dataY: seq<LabelSeq>, nClasses: nat, i: nat, j: nat)
    requires LabelsInAlphabet(dataY, nClasses)
    requires i < |dataY| && j < MaxLabelLen(dataY)
    ensures 0 <= PaddedLabel(dataY, i, j) as int < NumOutputClasses(nClasses)
    ensures PaddedLabel(dataY, i, j) as int != Blank(nClasses)
  {
    var longest :| 0 <= longest < |dataY| && |dataY[longest]| == MaxLabelLen(dataY);
    assert 0 <= dataY[longest][0] as int < nClasses;
    if j < |dataY[i]| {
      assert 0 <= dataY[i][j] as int < nClasses;
    }
  }
}
