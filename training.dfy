/**
 * One epoch of the training loop: shuffle, cut consecutive batches, train on the
 * leading batches and validate on the rest. The network calls themselves are not
 * modelled; each step records which call is made and the inputs `xi, yi` it receives.
 */
module Training {
  import opened Wrappers
  import opened Batching
  import opened Shuffle

  /** The inputs `xi, yi` handed to `train` or `validate`. */
  datatype Batch<X, Y> = Batch(xs: seq<X>, ys: seq<Y>)

  /** One iteration of the batch loop. */
  datatype Step<X, Y> = Train(input: Batch<X, Y>) | Validate(input: Batch<X, Y>)

  /** The calls of one epoch, and the `xi, yi` left bound after it. */
  datatype Epoch<X, Y> = Epoch(steps: seq<Step<X, Y>>, last: Option<Batch<X, Y>>)

  /** What the training loop raises. */
  datatype LoopError =
    | NothingToUnpack     // `sequences, labels = zip(*traindata)` on no examples: Python's ValueError
    | UnboundBatchInput   // `validate(xi, yi)` while `xi, yi` were never bound: Python's NameError

  /**
   * The slices `xi, yi` batch `b` takes from the shuffled sequences and labels: slicing
   * the two lists separately gives the same pairs as slicing the pairs, so every sequence
   * of the batch comes with its own label.
   */
  function TrainingInput<X, Y>(seqs: seq<X>, labs: seq<Y>, size: nat, b: nat): (input: Batch<X, Y>)
    ensures |seqs| == |labs| ==>
      |input.xs| == |input.ys| && Zip(input.xs, input.ys) == BatchSlice(Zip(seqs, labs), b, size)
  {
    Batch(BatchSlice(seqs, b, size), BatchSlice(labs, b, size))
  }

  /** What `xi, yi` hold once the first `t` batches have trained (`carried` is what an earlier epoch left). */
  function InputAfter<X, Y>(seqs: seq<X>, labs: seq<Y>, size: nat, t: nat, carried: Option<Batch<X, Y>>)
    : Option<Batch<X, Y>>
  {
    if t == 0 then carried else Some(TrainingInput(seqs, labs, size, t - 1))
  }

  /**
   * Step `b` of an epoch with `tc` training batches: batch `b` trains on its own slice
   * when `b < tc`; otherwise it validates on whatever `xi, yi` hold, which is the last
   * training slice (or the carried one).
   */
  ghost predicate IsScheduledStep<X, Y>(step: Step<X, Y>, seqs: seq<X>, labs: seq<Y>, size: nat, tc: nat, b: nat,
                                  carried: Option<Batch<X, Y>>)
  {
    if b < tc then step == Train(TrainingInput(seqs, labs, size, b))
    else step.Validate? && Some(step.input) == InputAfter(seqs, labs, size, tc, carried)
  }

  /** The whole epoch follows that schedule, and leaves `xi, yi` as the last training batch set them. */
  ghost predicate IsScheduledEpoch<X, Y>(ep: Epoch<X, Y>, seqs: seq<X>, labs: seq<Y>, size: nat, nb: nat, tc: nat,
                                         carried: Option<Batch<X, Y>>)
  {
    && |ep.steps| == nb
    && (forall b :: 0 <= b < nb ==> IsScheduledStep(ep.steps[b], seqs, labs, size, tc, b, carried))
    && ep.last == InputAfter(seqs, labs, size, tc, carried)
  }

  /** A scheduled prefix of steps followed by the scheduled next step is still scheduled. */
  lemma ScheduleGrows<X, Y>(steps: seq<Step<X, Y>>, step: Step<X, Y>, seqs: seq<X>, labs: seq<Y>, size: nat,
                            tc: nat, batch: nat, carried: Option<Batch<X, Y>>)
    requires |steps| == batch
    requires forall b :: 0 <= b < batch ==> IsScheduledStep(steps[b], seqs, labs, size, tc, b, carried)
    requires IsScheduledStep(step, seqs, labs, size, tc, batch, carried)
    ensures forall b :: 0 <= b < batch + 1 ==> IsScheduledStep((steps + [step])[b], seqs, labs, size, tc, b, carried)
  {
  }

  /**
   * One epoch: zip, shuffle by `perm`, unzip, then for each of the `nb` batches
   * (`num_batches_train`, computed once before the epochs: `NumBatchesAsWritten` as the
   * script runs, `NumBatches` as intended) either train on its slice or validate on the
   * inputs of the most recent training batch; the validation branch takes no slice of
   * its own. Unzipping no examples raises before any batch.
   */
  method RunEpoch<X, Y>(x: seq<X>, y: seq<Y>, perm: seq<nat>, nb: nat, size: nat, num: nat, den: nat,
                        carried: Option<Batch<X, Y>>)
    returns (r: Result<Epoch<X, Y>, LoopError>)
    requires |x| == |y| && IsPermutation(perm, |x|)
    requires size > 0 && den > 0
    ensures r.Failure? <==> |x| == 0 || (0 < nb && TrainCount(nb, num, den) == 0 && carried.None?)
    ensures r.Failure? ==> r.error == if |x| == 0 then NothingToUnpack else UnboundBatchInput
    ensures r.Success? ==>
      IsScheduledEpoch(r.value, Permute(x, perm), Permute(y, perm), size, nb, TrainCount(nb, num, den), carried)
  {
    var traindata := Zip(x, y);
    var shuffled := Permute(traindata, perm);
    if |shuffled| == 0 {
      return Failure(NothingToUnpack);
    }
    var unzipped := Unzip(shuffled);
    var sequences, labels := unzipped.0, unzipped.1;
    ShuffleKeepsPairs(x, y, perm);
    ghost var tc := TrainCount(nb, num, den);
    var current := carried;
    var steps := [];
    var batch := 0;
    while batch < nb
      invariant batch <= nb
      invariant |steps| == batch
      invariant forall b :: 0 <= b < batch ==> IsScheduledStep(steps[b], sequences, labels, size, tc, b, carried)
      invariant current == InputAfter(sequences, labels, size, Min(batch, tc), carried)
      invariant 0 < batch && tc == 0 ==> carried.Some?
    {
      ghost var before := steps;
      if IsTrainingBatch(batch, nb, num, den) {
        var xi := BatchSlice(sequences, batch, size);
        var yi := BatchSlice(labels, batch, size);
        current := Some(Batch(xi, yi));
        steps := steps + [Train(Batch(xi, yi))];
      } else {
        if current.None? {
          return Failure(UnboundBatchInput);
        }
        steps := steps + [Validate(current.value)];
      }
      ScheduleGrows(before, steps[batch], sequences, labels, size, tc, batch, carried);
      batch := batch + 1;
    }
    return Success(Epoch(steps, current));
  }

  /** The `xi, yi` epoch `e` starts with: unbound in the first epoch, else what the epoch before left. */
  function CarriedInto<X, Y>(epochs: seq<Epoch<X, Y>>, e: nat): Option<Batch<X, Y>>
    requires e <= |epochs|
  {
    if e == 0 then None else epochs[e - 1].last
  }

  /** Epoch `ep` follows the schedule over the examples shuffled by `perm`. */
  ghost predicate IsShuffledEpoch<X, Y>(ep: Epoch<X, Y>, x: seq<X>, y: seq<Y>, perm: seq<nat>, size: nat, nb: nat,
                                        tc: nat, carried: Option<Batch<X, Y>>)
    requires |x| == |y| && IsPermutation(perm, |x|)
  {
    IsScheduledEpoch(ep, Permute(x, perm), Permute(y, perm), size, nb, tc, carried)
  }

  /** Each epoch so far followed its schedule, starting from the `xi, yi` the epoch before left. */
  ghost predicate IsScheduledRun<X, Y>(epochs: seq<Epoch<X, Y>>, x: seq<X>, y: seq<Y>, perms: seq<seq<nat>>,
                                       size: nat, nb: nat, tc: nat)
    requires |x| == |y| && |epochs| <= |perms|
    requires forall e :: 0 <= e < |perms| ==> IsPermutation(perms[e], |x|)
  {
    if epochs == [] then true
    else
      var e := |epochs| - 1;
      && IsScheduledRun(epochs[..e], x, y, perms, size, nb, tc)
      && IsShuffledEpoch(epochs[e], x, y, perms[e], size, nb, tc, CarriedInto(epochs, e))
  }

  /** Every epoch of a scheduled run followed its own schedule. */
  lemma {:induction false} ScheduledRunAt<X, Y>(epochs: seq<Epoch<X, Y>>, x: seq<X>, y: seq<Y>,
                                                perms: seq<seq<nat>>, size: nat, nb: nat, tc: nat, e: nat)
    requires |x| == |y| && |epochs| <= |perms|
    requires forall e' :: 0 <= e' < |perms| ==> IsPermutation(perms[e'], |x|)
    requires IsScheduledRun(epochs, x, y, perms, size, nb, tc) && e < |epochs|
    ensures IsShuffledEpoch(epochs[e], x, y, perms[e], size, nb, tc, CarriedInto(epochs, e))
  {
    var last := |epochs| - 1;
    if e < last {
      var init := epochs[..last];
      ScheduledRunAt(init, x, y, perms, size, nb, tc, e);
      assert init[e] == epochs[e] && CarriedInto(init, e) == CarriedInto(epochs, e);
    }
  }

  /**
   * The epoch loop: one epoch per permutation (`NUM_EPOCHS` is `|perms|`); epoch `e`
   * shuffles by `perms[e]` and runs its `nb` batches, with `xi, yi` carried over from the
   * epoch before (they are never reset). It fails in the first epoch, if at all: on no
   * examples, or when the split sends the first batch to validation before anything was
   * ever trained.
   */
  method RunTraining<X, Y>(x: seq<X>, y: seq<Y>, perms: seq<seq<nat>>, nb: nat, size: nat, num: nat, den: nat)
    returns (r: Result<seq<Epoch<X, Y>>, LoopError>)
    requires |x| == |y| && forall e :: 0 <= e < |perms| ==> IsPermutation(perms[e], |x|)
    requires size > 0 && den > 0
    ensures r.Failure? <==> 0 < |perms| && (|x| == 0 || (0 < nb && TrainCount(nb, num, den) == 0))
    ensures r.Failure? ==> r.error == if |x| == 0 then NothingToUnpack else UnboundBatchInput
    ensures r.Success? ==>
      |r.value| == |perms| && IsScheduledRun(r.value, x, y, perms, size, nb, TrainCount(nb, num, den))
  {
    ghost var tc := TrainCount(nb, num, den);
    var epochs: seq<Epoch<X, Y>> := [];
    var current: Option<Batch<X, Y>> := None;
    var epoch := 0;
    while epoch < |perms|
      invariant epoch <= |perms| && |epochs| == epoch
      invariant current == CarriedInto(epochs, epoch)
      invariant 0 < epoch ==> 0 < |x| && !(0 < nb && tc == 0)
      invariant IsScheduledRun(epochs, x, y, perms, size, nb, tc)
    {
      var outcome := RunEpoch(x, y, perms[epoch], nb, size, num, den, current);
      if outcome.Failure? {
        assert epoch == 0 && current.None?;
        return Failure(outcome.error);
      }
      ghost var before := epochs;
      epochs := epochs + [outcome.value];
      assert epochs[..epoch] == before;
      assert CarriedInto(epochs, epoch) == CarriedInto(before, epoch);
      current := outcome.value.last;
      epoch := epoch + 1;
    }
    return Success(epochs);
  }

  /**
   * The validation quirk: every validation step of an epoch that trained at least once
   * evaluates exactly the inputs of the last training step, data the update just used.
   */
  lemma ValidationReusesLastTrainingBatch<X, Y>(steps: seq<Step<X, Y>>, seqs: seq<X>, labs: seq<Y>,
                                                size: nat, tc: nat, carried: Option<Batch<X, Y>>, b: nat)
    requires 0 < tc <= b < |steps|
    requires forall b' :: 0 <= b' < |steps| ==> IsScheduledStep(steps[b'], seqs, labs, size, tc, b', carried)
    ensures steps[tc - 1].Train? && steps[b].Validate?
    ensures steps[b].input == steps[tc - 1].input
  {
    assert IsScheduledStep(steps[tc - 1], seqs, labs, size, tc, tc - 1, carried);
    assert IsScheduledStep(steps[b], seqs, labs, size, tc, b, carried);
  }

  /** The sequences (`xi`) the first `tc` steps receive, laid end to end. */
  function StepSequences<X, Y>(steps: seq<Step<X, Y>>, tc: nat): seq<X>
    requires tc <= |steps|
  {
    Concat(seq(tc, b requires 0 <= b < tc => steps[b].input.xs))
  }

  /** The labels (`yi`) the first `tc` steps receive, laid end to end. */
  function StepLabels<X, Y>(steps: seq<Step<X, Y>>, tc: nat): seq<Y>
    requires tc <= |steps|
  {
    Concat(seq(tc, b requires 0 <= b < tc => steps[b].input.ys))
  }

  /**
   * The training steps of an epoch, in order, hand the network every sequence and every
   * label of the first `size * tc` shuffled positions exactly once.
   */
  lemma TrainingStepsCoverPrefix<X, Y>(steps: seq<Step<X, Y>>, seqs: seq<X>, labs: seq<Y>,
                                       size: nat, tc: nat, carried: Option<Batch<X, Y>>)
    requires tc <= |steps|
    requires forall b :: 0 <= b < |steps| ==> IsScheduledStep(steps[b], seqs, labs, size, tc, b, carried)
    ensures StepSequences(steps, tc) == seqs[..Min(tc * size, |seqs|)]
    ensures StepLabels(steps, tc) == labs[..Min(tc * size, |labs|)]
  {
    var xs := seq(tc, b requires 0 <= b < tc => steps[b].input.xs);
    var ys := seq(tc, b requires 0 <= b < tc => steps[b].input.ys);
    forall b | 0 <= b < tc
      ensures xs[b] == Batches(seqs, size, tc)[b] && ys[b] == Batches(labs, size, tc)[b]
    {
      assert IsScheduledStep(steps[b], seqs, labs, size, tc, b, carried);
    }
    assert xs == Batches(seqs, size, tc);
    assert ys == Batches(labs, size, tc);
    BatchesPrefix(seqs, size, tc);
    BatchesPrefix(labs, size, tc);
  }
}
