/**
 * The dataset as the script holds it after loading: one feature-major matrix per
 * example (one row per feature, each row a time series) and one label list per example.
 */
module Dataset {

  /** numpy's int32, the dtype of the label arrays. */
  newtype int32 = x: int | -0x8000_0000 <= x < 0x8000_0000

  /** One example's features: `num_feat` rows, each a time series. */
  type FeatureMatrix = seq<seq<real>>

  /** One example's target labels, class indices. */
  type LabelSeq = seq<int32>

  /**
   * The loading loop over `zip(data['x'], data['y'])`: pairs examples up to the shorter
   * of the two lists and passes every label list through unchanged (no blank is
   * interleaved; the labelling handed to the cost is the raw one).
   */
  method CollectExamples(rawX: seq<FeatureMatrix>, rawY: seq<LabelSeq>)
    returns (dataX: seq<FeatureMatrix>, dataY: seq<LabelSeq>)
    ensures |dataX| == |dataY| == (if |rawX| < |rawY| then |rawX| else |rawY|)
    ensures forall i :: 0 <= i < |dataX| ==> dataX[i] == rawX[i]
    ensures forall i :: 0 <= i < |dataY| ==> dataY[i] == rawY[i]
  {
    dataX, dataY := [], [];
    var i := 0;
    while i < |rawX| && i < |rawY|
      invariant i <= |rawX| && i <= |rawY|
      invariant |dataX| == |dataY| == i
      invariant forall t :: 0 <= t < i ==> dataX[t] == rawX[t] && dataY[t] == rawY[t]
    {
      var y1 := rawY[i];
      dataY := dataY + [y1];
      dataX := dataX + [rawX[i]];
      i := i + 1;
    }
  }

  /** The blank class of the CTC output layer is the index just past the alphabet. */
  function Blank(nClasses: nat): nat
  {
    nClasses
  }

  /** Width of the network's output: the alphabet plus the blank. */
  function NumOutputClasses(nClasses: nat): nat
  {
    nClasses + 1
  }

  /** Every label is a class of the alphabet, `0 <= c < nClasses`. */
  predicate LabelsInAlphabet(dataY: seq<LabelSeq>, nClasses: nat)
  {
    forall i, j :: 0 <= i < |dataY| && 0 <= j < |dataY[i]| ==> 0 <= dataY[i][j] as int < nClasses
  }
}
