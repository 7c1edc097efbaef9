/**
 * Mini-batch scheduling of the training loop: how many batches an epoch has, which
 * examples each batch slices out, and which batches train and which validate.
 */
module Batching {

  /** `N_BATCH`. */
  const BatchSize: nat := 5

  /** The split ratio 0.7 as the exact fraction SplitNum / SplitDen. */
  const SplitNum: nat := 7
  const SplitDen: nat := 10

  function Min(a: int, b: int): int
  {
    if a < b then a else b
  }

  /** `ceil(m / d)`, characterised without division. */
  function CeilDiv(m: nat, d: nat): (c: nat)
    requires d > 0
    ensures c * d >= m
    ensures c == 0 || (c - 1) * d < m
  {
    if m == 0 then 0 else 1 + CeilDiv(if m < d then 0 else m - d, d)
  }

  /** Below the ceiling exactly when the product stays below `m`. */
  lemma {:induction false} CeilDivBound(m: nat, d: nat, b: nat)
    requires d > 0
    ensures b * d < m <==> b < CeilDiv(m, d)
  {
    var c := CeilDiv(m, d);
    if b < c {
      MulMonotone(b, c - 1, d);
    } else {
      MulMonotone(c, b, d);
    }
  }

  lemma MulMonotone(a: nat, b: nat, d: nat)
    requires a <= b
    ensures a * d <= b * d
  {
    assert b * d == a * d + (b - a) * d;
  }

  /**
   * `int(np.ceil(len(x) / N_BATCH))` read with true division: the fewest batches of
   * `size` examples that hold all `n` examples.
   */
  function NumBatches(n: nat, size: nat): (nb: nat)
    requires size > 0
    ensures nb * size >= n
    ensures nb == 0 || (nb - 1) * size < n
    ensures nb == 0 <==> n == 0
  {
    CeilDiv(n, size)
  }

  /**
   * The same line as the script runs it: it needs Python 2 (it shuffles a `zip` result
   * in place), where `len(x) / N_BATCH` on two ints is floor division, so the `ceil`
   * rounds nothing and a trailing partial batch is never scheduled.
   */
  function NumBatchesAsWritten(n: nat, size: nat): (nb: nat)
    requires size > 0
    ensures nb * size <= n
    ensures n < (nb + 1) * size
  {
    n / size
  }

  /**
   * `sequences[size*b : size*(b+1)]`, a Python tuple slice clipped at the end: the
   * window of at most `size` consecutive examples starting at `b * size`.
   */
  function BatchSlice<T>(s: seq<T>, b: nat, size: nat): (r: seq<T>)
    ensures |r| == if b * size < |s| then Min(size, |s| - b * size) else 0
    ensures |r| == 0 || b * size + |r| <= |s|
    ensures forall t :: 0 <= t < |r| ==> r[t] == s[b * size + t]
  {
    var lo := Min(b * size, |s|);
    var hi := Min((b + 1) * size, |s|);
    s[lo..hi]
  }

  /** Example `i` lies in batch `b`. */
  predicate InBatch(i: nat, b: nat, size: nat, n: nat)
  {
    b * size <= i < Min((b + 1) * size, n)
  }

  /** Lying in batch `b` means being one of the elements of that batch's slice. */
  lemma InBatchIsInSlice<T>(s: seq<T>, i: nat, b: nat, size: nat)
    ensures InBatch(i, b, size, |s|) <==> b * size <= i && i - b * size < |BatchSlice(s, b, size)|
    ensures InBatch(i, b, size, |s|) ==> BatchSlice(s, b, size)[i - b * size] == s[i]
  {
  }

  /** Every example lies in batch `i / size`, a scheduled batch, and in no other batch. */
  lemma ExactlyOneBatch(n: nat, size: nat, i: nat, b: nat)
    requires size > 0 && i < n
    ensures i / size < NumBatches(n, size)
    ensures InBatch(i, b, size, n) <==> b == i / size
  {
    var q := i / size;
    OwnBatch(n, size, i);
    if b < q {
      NotInEarlierBatch(i, b, size, n);
    } else if b > q {
      NotInLaterBatch(i, b, size, n);
    }
  }

  lemma OwnBatch(n: nat, size: nat, i: nat)
    requires size > 0 && i < n
    ensures i / size < NumBatches(n, size)
    ensures InBatch(i, i / size, size, n)
  {
    var q := i / size;
    DivBounds(i, size);
    assert q * size <= i < (q + 1) * size;
    CeilDivBound(n, size, q);
    assert q < CeilDiv(n, size);
  }

  lemma NotInEarlierBatch(i: nat, b: nat, size: nat, n: nat)
    requires size > 0 && b < i / size
    ensures !InBatch(i, b, size, n)
  {
    DivBounds(i, size);
    MulMonotone(b + 1, i / size, size);
  }

  lemma NotInLaterBatch(i: nat, b: nat, size: nat, n: nat)
    requires size > 0 && i / size < b
    ensures !InBatch(i, b, size, n)
  {
    DivBounds(i, size);
    MulMonotone(i / size + 1, b, size);
  }

  /** The quotient of `i` by `size` brackets it between two consecutive multiples. */
  lemma DivBounds(i: nat, size: nat)
    requires size > 0
    ensures (i / size) * size <= i < (i / size + 1) * size
    ensures i - i % size == (i / size) * size
  {
    var q, r := i / size, i % size;
    assert i == q * size + r;
    assert (q + 1) * size == q * size + size;
  }

  /** Every scheduled batch is non-empty and holds `size` examples, except that the last may hold fewer. */
  lemma BatchSizes<T>(s: seq<T>, size: nat, b: nat)
    requires size > 0 && b < NumBatches(|s|, size)
    ensures 0 < |BatchSlice(s, b, size)| <= size
    ensures b + 1 < NumBatches(|s|, size) ==> |BatchSlice(s, b, size)| == size
  {
    var nb := NumBatches(|s|, size);
    MulMonotone(b, nb - 1, size);
    if b + 1 < nb {
      MulMonotone(b + 1, nb - 1, size);
    }
  }

  /** The first `count` batches of `s`. */
  function Batches<T>(s: seq<T>, size: nat, count: nat): (bs: seq<seq<T>>)
    ensures |bs| == count
    ensures forall b :: 0 <= b < count ==> bs[b] == BatchSlice(s, b, size)
  {
    seq(count, b requires 0 <= b < count => BatchSlice(s, b, size))
  }

  /** The batches laid end to end. */
  function Concat<T>(bs: seq<seq<T>>): seq<T>
  {
    if |bs| == 0 then [] else Concat(bs[..|bs| - 1]) + bs[|bs| - 1]
  }

  /** The first `k` batches, laid end to end, are the first `k * size` examples (clipped at the end). */
  lemma BatchesPrefix<T>(s: seq<T>, size: nat, k: nat)
    ensures Concat(Batches(s, size, k)) == s[..Min(k * size, |s|)]
  {
    ConcatIsLaid(s, size, k);
    LaidPrefix(s, size, k);
  }

  /**
   * The first `k` batches laid end to end, built one batch at a time. It is the same
   * sequence as `Concat(Batches(s, size, k))` (`ConcatIsLaid`) and exists only as a
   * step in the proof of `BatchesPrefix`.
   */
  function Laid<T>(s: seq<T>, size: nat, k: nat): seq<T>
  {
    if k == 0 then [] else Laid(s, size, k - 1) + BatchSlice(s, k - 1, size)
  }

  lemma {:induction false} ConcatIsLaid<T>(s: seq<T>, size: nat, k: nat)
    ensures Concat(Batches(s, size, k)) == Laid(s, size, k)
  {
    if k > 0 {
      ConcatIsLaid(s, size, k - 1);
      ConcatLastBatch(s, size, k);
    } else {
      assert Batches(s, size, 0) == [];
    }
  }

  lemma {:induction false} LaidPrefix<T>(s: seq<T>, size: nat, k: nat)
    ensures Laid(s, size, k) == s[..Min(k * size, |s|)]
  {
    if k > 0 {
      LaidPrefix(s, size, k - 1);
      LastBatchRange(s, size, k);
      PrefixThenRange(s, Min((k - 1) * size, |s|), Min(k * size, |s|));
    } else {
      assert Min(0 * size, |s|) == 0;
    }
  }

  /** The first `k` batches laid end to end are the first `k - 1` followed by batch `k - 1`. */
  lemma ConcatLastBatch<T>(s: seq<T>, size: nat, k: nat)
    requires k > 0
    ensures Concat(Batches(s, size, k)) == Concat(Batches(s, size, k - 1)) + BatchSlice(s, k - 1, size)
  {
    assert Batches(s, size, k)[..k - 1] == Batches(s, size, k - 1);
  }

  /** Batch `k - 1` spans the positions from `(k - 1) * size` up to `k * size`, clipped at the end. */
  lemma LastBatchRange<T>(s: seq<T>, size: nat, k: nat)
    requires k > 0
    ensures Min((k - 1) * size, |s|) <= Min(k * size, |s|)
    ensures BatchSlice(s, k - 1, size) == s[Min((k - 1) * size, |s|)..Min(k * size, |s|)]
  {
    MulMonotone(k - 1, k, size);
    assert (k - 1 + 1) * size == k * size;
  }

  lemma PrefixThenRange<T>(s: seq<T>, lo: nat, hi: nat)
    requires lo <= hi <= |s|
    ensures s[..lo] + s[lo..hi] == s[..hi]
  {
  }

  /**
   * With the batch count rounded up, the batches are consecutive and disjoint and,
   * laid end to end, give back every example once, in order.
   */
  lemma BatchesCoverAll<T>(s: seq<T>, size: nat)
    requires size > 0
    ensures Concat(Batches(s, size, NumBatches(|s|, size))) == s
  {
    BatchesPrefix(s, size, NumBatches(|s|, size));
  }

  /** With the batch count as written, the last `|s| % size` examples are in no batch. */
  lemma AsWrittenDropsTail<T>(s: seq<T>, size: nat)
    requires size > 0 && |s| % size != 0
    ensures Concat(Batches(s, size, NumBatchesAsWritten(|s|, size))) == s[..|s| - |s| % size]
    ensures NumBatchesAsWritten(|s|, size) < NumBatches(|s|, size)
  {
    var k := NumBatchesAsWritten(|s|, size);
    DivBounds(|s|, size);
    assert k * size == |s| - |s| % size;
    BatchesPrefix(s, size, k);
    CeilDivBound(|s|, size, k);
  }

  /**
   * With `N_BATCH = 5` and 7 examples the script schedules one batch and never visits
   * the examples at shuffled positions 5 and 6.
   */
  lemma AsWrittenSevenExamples(s: seq<int>)
    requires |s| == 7
    ensures NumBatchesAsWritten(|s|, BatchSize) == 1
    ensures Concat(Batches(s, BatchSize, 1)) == s[..5]
    ensures NumBatches(|s|, BatchSize) == 2
  {
    AsWrittenDropsTail(s, BatchSize);
  }

  /** `batch < 0.7 * num_batches_train` with the ratio read as the exact fraction num / den. */
  predicate IsTrainingBatch(b: nat, nb: nat, num: nat, den: nat)
  {
    b * den < num * nb
  }

  /**
   * The first batch trains exactly when the ratio and the batch count are positive, no
   * batch trains with a zero ratio, and with a ratio of at least 1 every batch trains.
   */
  lemma TrainingBatchBounds(b: nat, nb: nat, num: nat, den: nat)
    ensures b == 0 ==> (IsTrainingBatch(b, nb, num, den) <==> 0 < num && 0 < nb)
    ensures num == 0 ==> !IsTrainingBatch(b, nb, num, den)
    ensures 0 < den <= num && b < nb ==> IsTrainingBatch(b, nb, num, den)
  {
    if 0 < den <= num && b < nb {
      MulStrict(b, nb, den);
      MulMonotone(den, num, nb);
      Rearrange(1, den, nb);
    }
  }

  /**
   * How many batches train: they are exactly the batches below this count, so the
   * training batches form a prefix and the validation batches the rest.
   */
  function TrainCount(nb: nat, num: nat, den: nat): (c: nat)
    requires den > 0
    ensures c <= nb
    ensures forall b :: 0 <= b < nb ==> (IsTrainingBatch(b, nb, num, den) <==> b < c)
  {
    TrainingBelowCeiling(nb, num, den);
    Min(nb, CeilDiv(num * nb, den))
  }

  /** Batch `b` trains exactly when `b` is below the ceiling of `num * nb / den`. */
  lemma TrainingBelowCeiling(nb: nat, num: nat, den: nat)
    requires den > 0
    ensures forall b :: 0 <= b < nb ==> (IsTrainingBatch(b, nb, num, den) <==> b < CeilDiv(num * nb, den))
  {
    forall b | 0 <= b < nb
      ensures IsTrainingBatch(b, nb, num, den) <==> b < CeilDiv(num * nb, den)
    {
      CeilDivBound(num * nb, den, b);
    }
  }

  /** A larger split ratio never makes fewer training batches. */
  lemma SplitMonotone(nb: nat, num1: nat, den1: nat, num2: nat, den2: nat)
    requires den1 > 0 && den2 > 0 && num1 * den2 <= num2 * den1
    ensures TrainCount(nb, num1, den1) <= TrainCount(nb, num2, den2)
  {
    var c1 := TrainCount(nb, num1, den1);
    if c1 > 0 {
      var b := c1 - 1;
      assert IsTrainingBatch(b, nb, num1, den1);
      CrossMultiply(b, nb, num1, den1, num2, den2);
      assert IsTrainingBatch(b, nb, num2, den2);
    }
  }

  /** `b / nb < num1 / den1 <= num2 / den2` gives `b / nb < num2 / den2`, all by cross-multiplication. */
  lemma CrossMultiply(b: nat, nb: nat, num1: nat, den1: nat, num2: nat, den2: nat)
    requires den1 > 0 && den2 > 0
    requires b * den1 < num1 * nb && num1 * den2 <= num2 * den1
    ensures b * den2 < num2 * nb
  {
    MulStrict(b * den1, num1 * nb, den2);
    MulMonotone(num1 * den2, num2 * den1, nb);
    Rearrange(b, den1, den2);
    Rearrange(num1, nb, den2);
    Rearrange(num1, den2, nb);
    Rearrange(num2, den1, nb);
    Rearrange(num2, nb, den1);
    Rearrange(b, den2, den1);
    MulCancel(b * den2, num2 * nb, den1);
  }

  lemma Rearrange(a: nat, b: nat, c: nat)
    ensures a * b * c == a * c * b
  {
  }

  lemma MulStrict(a: nat, b: nat, d: nat)
    requires a < b && d > 0
    ensures a * d < b * d
  {
    assert b * d == a * d + (b - a) * d;
  }

  lemma MulCancel(a: nat, b: nat, d: nat)
    requires a * d < b * d
    ensures a < b
  {
    if a >= b {
      MulMonotone(b, a, d);
    }
  }

  /**
   * The script's 0.7 split: the first batch of a non-empty epoch always trains, and some
   * batch validates exactly when there are at least four batches.
   */
  lemma SourceSplit(nb: nat)
    ensures nb > 0 ==> TrainCount(nb, SplitNum, SplitDen) > 0
    ensures TrainCount(nb, SplitNum, SplitDen) < nb <==> nb >= 4
  {
    var c := TrainCount(nb, SplitNum, SplitDen);
    if nb > 0 {
      assert IsTrainingBatch(0, nb, SplitNum, SplitDen);
    }
    if nb >= 4 {
      assert !IsTrainingBatch(nb - 1, nb, SplitNum, SplitDen);
    } else if nb > 0 {
      assert IsTrainingBatch(nb - 1, nb, SplitNum, SplitDen);
    }
  }
}
