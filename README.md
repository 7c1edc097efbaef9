# ascii_ctc: data shaping and batch scheduling around the CTC network

`test_load.py` trains a two-layer GRU network with a CTC cost on toy "ascii scribe"
data. This project models the deterministic part of that script, the part that does
not belong to the network or to the cost:

- **Loading pass** (`Dataset`): the loop over `zip(data['x'], data['y'])` pairs each
  example's feature matrix with its label list. It passes every label list through
  unchanged: no blank is interleaved. The network's output width is `nClasses + 1`,
  which reserves index `nClasses` for the CTC blank.
- **Padding** (`Padding`): each feature-major example (`num_feat` rows, each a time
  series) is copied into a zero `[n, max_x_len, num_feat]` array in time-major order.
  `max_x_len` is 20, and later timesteps are dropped. The label lists are copied into a
  zero int32 `[n, max_y_len]` array, where `max_y_len` is the longest label list. Both
  fills are methods over Dafny arrays (`array3`, `array2`) with nested loops, as in the
  script. The script's exceptions are modelled as a `Failure`:
  - an empty dataset raises `IndexError` at `data_x[0]` and `ValueError` at `max` of
    nothing;
  - an example with a non-empty feature row beyond the first example's `num_feat` rows
    raises `IndexError` inside the fill.
- **Batch scheduling** (`Batching`): the batch count, the Python slice each batch
  takes, and the split that trains on a leading fraction of batches (0.7, here the
  exact fraction 7/10) and validates on the rest.
- **Shuffle** (`Shuffle`): zipping, shuffling and unzipping the examples, with the
  random order passed in as a permutation.
- **Training loop** (`Training`): epochs and batches, recording for each batch whether
  it calls `train` or `validate` and with which inputs `xi, yi`. As in the script, a
  validation batch takes no slice of its own. It evaluates the `xi, yi` left by the
  most recent training batch, and a run whose first batch is a validation batch fails
  with Python's `NameError` (`UnboundBatchInput`). Unpacking `zip(*traindata)` with no
  examples fails with Python's `ValueError` (`NothingToUnpack`).

The script's `N_BATCH` (5) and split ratio (0.7) are the constants `Batching.BatchSize`
and `Batching.SplitNum`/`SplitDen`, used by the statements about the script's own
configuration (`AsWrittenSevenExamples`, `SourceSplit`). The other two settings are
parameters: `max_x_len` (20) is `PadFeatures`' `maxXLen`, and `NUM_EPOCHS` (1) is the
number of shuffle orders passed to `RunTraining`, one per epoch. The batch count
`num_batches_train` is also a parameter, `nb`, of `RunEpoch` and `RunTraining`: the script
computes it once, before the epoch loop. `Batching.NumBatchesAsWritten` gives the count the
script actually computes, and `Batching.NumBatches` the rounded-up count it evidently
intends (see "## Findings"). Either can be passed to the same loop.

## Model

| member | source | states |
|---|---|---|
| `Dataset.CollectExamples` | test_load.py:42-52 | pairs the examples up to the shorter list, and each feature matrix and each label list comes out exactly as it went in (labels unchanged, no blank inserted) |
| `Padding.PadFeatures` | test_load.py:62-71 | fails with `EmptyDataset` on no examples, and with `FeatureIndexOutOfRange` exactly when some example has a non-empty row beyond the first example's `num_feat` rows (and `max_x_len > 0`). Otherwise returns a fresh array of shape `[n, max_x_len, num_feat]` with `x[i,k,j] == data_x[i][j][k]` for `k < len(row)` (transposed, truncated at `max_x_len`) and 0 in every other cell, so padding occupies only trailing timesteps |
| `Padding.MaxLabelLen` | test_load.py:76 | `max(map(len, data_y))`: no label list is longer, and some label list has exactly that length |
| `Padding.PadLabels` | test_load.py:75-81 | fails with `EmptyDataset` exactly on no examples. Otherwise returns a fresh `[n, max_y_len]` array in which every label list fits, with `y[i][j] == data_y[i][j]` for `j < len(data_y[i])` and 0 afterwards |
| `Padding.PaddedLabelsAvoidBlank` | test_load.py:77-90 | with every label in the alphabet `[0, nClasses)`, every cell of the padded label array, a label or the 0 padding, is an output index of the `nClasses + 1`-wide layer and is never the blank `nClasses`. Any cell implies some label exists, so the alphabet is not empty |
| `Batching.NumBatches` | test_load.py:161 | the ceiling of `N / N_BATCH`: the batches hold all `N` examples, and one batch fewer would not. There are no batches exactly when there are no examples |
| `Batching.NumBatchesAsWritten` | test_load.py:161 | the same line under Python 2's integer `/`: `floor(N / N_BATCH)`, so the batches fit within `N` and one more batch would not |
| `Batching.BatchSlice` | test_load.py:177 | the Python sequence slice `s[size*b : size*(b+1)]` (`sequences` and `labels` are tuples): the at most `size` consecutive elements starting at `size*b`, clipped at the end, and empty past it |
| `Batching.ExactlyOneBatch` | test_load.py:176-177 | every example index `i < N` lies in batch `b` iff `b == i / size`, and that batch is scheduled: the batches are disjoint and every example is in one |
| `Batching.InBatchIsInSlice` | test_load.py:177-180 | example `i` lies in batch `b` iff it falls inside the slice `sequences[size*b : size*(b+1)]`, and there it is the element at offset `i - size*b` |
| `Batching.BatchSizes` | test_load.py:176-177 | every scheduled batch is non-empty and holds at most `N_BATCH` examples. Every batch but the last holds exactly `N_BATCH` |
| `Batching.BatchesPrefix` | test_load.py:176-177 | the first `k` batches laid end to end are the first `min(size*k, N)` examples, in order: batches are consecutive |
| `Batching.BatchesCoverAll` | test_load.py:161-177 | with the ceiling batch count, the batches laid end to end are exactly the example list: every example is visited once, in order |
| `Batching.AsWrittenDropsTail` | test_load.py:161-177 | with the floor batch count and `N % N_BATCH != 0`, the batches cover only the first `N - N % N_BATCH` examples, one batch fewer than the ceiling |
| `Batching.AsWrittenSevenExamples` | test_load.py:161 | with 7 examples and `N_BATCH = 5`, the script as written schedules one batch covering shuffled positions 0-4, where the ceiling gives two |
| `Batching.CeilDiv` | test_load.py:161 | `ceil(m / d)` characterised without division: `c*d >= m` and `(c-1)*d < m` |
| `Batching.TrainingBatchBounds` | test_load.py:162-178 | about `IsTrainingBatch`, the test `batch < split_ratio`: the first batch trains exactly when the ratio and the batch count are positive, no batch trains with a zero ratio, and with a ratio of at least 1 every batch trains |
| `Batching.TrainCount` | test_load.py:162-178 | the number of training batches: batch `b < nb` trains (`b < ratio * nb`) iff `b` is below this count, so training batches are a prefix and validation batches the remaining `nb - TrainCount` |
| `Batching.SplitMonotone` | test_load.py:162 | a larger split ratio never gives fewer training batches |
| `Batching.SourceSplit` | test_load.py:162-178 | with ratio 0.7, the first batch of a non-empty epoch trains, and some batch validates iff there are at least 4 batches |
| `Shuffle.Zip` | test_load.py:171 | `zip(x, y)`: one pair per example, holding that example's sequence and its label |
| `Shuffle.Permute` | test_load.py:172 | the shuffled list, with position `i` holding element `p[i]` of the original for a permutation `p` |
| `Shuffle.Unzip` | test_load.py:173 | `zip(*traindata)`: the first components and the second components, each in the order of the pairs |
| `Shuffle.PermutePreservesMultiset` | test_load.py:171-172 | shuffling by a permutation neither loses nor duplicates an element |
| `Shuffle.InjectiveBound` | test_load.py:172 | pigeonhole: a shuffle order of distinct indices below `m` has at most `m` entries |
| `Shuffle.PermutationCovers` | test_load.py:172 | a shuffle order of `N` distinct indices below `N` takes every index |
| `Shuffle.ShuffleKeepsPairs` | test_load.py:171-173 | zip, shuffle and unzip give sequences and labels permuted in the same order, so each sequence stays with its own label, and the shuffled pairs are the original pairs, each once |
| `Training.TrainingInput` | test_load.py:177-180 | the `xi, yi` of batch `b`: slicing the sequences and the labels separately gives the same pairs as slicing the pairs, so every sequence of the batch comes with its own label |
| `Training.RunEpoch` | test_load.py:171-189 | fails with `NothingToUnpack` exactly when there are no examples, and with `UnboundBatchInput` exactly when there are examples and batches, no batch trains and no `xi, yi` were carried in. Otherwise it makes `nb` steps, for the batch count `nb` given to it: step `b` calls `train` on batch `b`'s slice of the shuffled data when `b` is a training batch, and otherwise `validate` on the last training slice (or the carried `xi, yi`). Afterwards `xi, yi` hold the last training slice, or the carried `xi, yi` when none trained |
| `Training.RunTraining` | test_load.py:164-189 | runs one epoch per permutation, each with the same batch count `nb` (computed once, as at line 161) and following `RunEpoch`'s schedule, starting from the `xi, yi` the previous epoch left. When there is at least one epoch, it fails with `NothingToUnpack` exactly on no examples and with `UnboundBatchInput` exactly when there are examples and batches but no training batch |
| `Training.ScheduledRunAt` | test_load.py:164-189 | in a run, epoch `e` follows its own schedule over the examples shuffled by its own permutation |
| `Training.ValidationReusesLastTrainingBatch` | test_load.py:179-186 | every validation step of an epoch that trained evaluates exactly the inputs of the last training step |
| `Training.TrainingStepsCoverPrefix` | test_load.py:176-184 | the training steps, in order, hand the network the first `min(N_BATCH * TrainCount, N)` shuffled sequences as `xi` and the matching labels as `yi`, each exactly once |

## Left out

- The CTC cost and pseudo-cost: `ctc_cost` is not part of this model (imported at `test_load.py:11`, used at 123 and 128), and no recurrence is invented for it.
- The network and its training: the Theano/Lasagne graph, Gaussian noise, GRU layers, softmax, gradients and RMSprop updates (lines 92-150). `train` and `validate` are foreign calls, so a step records only which call is made and its inputs. The losses collected in `tlosses`, `plosses` and `vlosses`, and the probabilities, are not modelled.
- Pickle loading (lines 26-28), the unused `nTrainSamples` (line 35), `time.time` (line 165), all printing (`slab_print`, `prediction_printer`, `chars.append(' ')`, the progress line 191) and the final prediction and argmax (lines 193-201) are I/O or presentation.
- `np.random.shuffle` is randomness, so the order is a permutation passed in. Under Python 3 the script's `np.random.shuffle(zip(x, y))` fails, because a `zip` object has no length. The model states the intended behaviour: the pairs are permuted.
- Float semantics: features are `real`, and the `floatX` cast (line 51) and the float64 storage are identity here. Raw labels are taken to be 32-bit already, so the int32 conversion at line 50 is the identity.
- Batching.IsTrainingBatch: compares `b * den < num * nb` exactly. The script compares against the float `0.7 * nb`, which can differ only when that product rounds away from an exact integer.
- Padding.PadFeatures: models only which error is raised, not the cells written before it. The script aborts at that point.
- Label padding writes 0, which is also the index of the alphabet's first class. Whether the unseen cost can tell padding from class 0 is outside this model.
- Numpy's arrays are rectangular. The model lets feature rows have different lengths, which covers the rectangular case.

## Findings

| source | as written | input that shows it | evidently intended | confidence | as-written member | corrected member |
|---|---|---|---|---|---|---|
| test_load.py:161 | `int(np.ceil(len(x) / N_BATCH))`: the script needs Python 2, because it shuffles a `zip` result in place at lines 171-172. In Python 2, `/` on two ints is floor division, so `np.ceil` rounds nothing and the trailing partial batch is never scheduled | 7 examples with `N_BATCH = 5`: one batch (shuffled positions 0-4), so the examples at shuffled positions 5 and 6 are never trained on or validated | `ceil(N / N_BATCH)` batches, the last one shorter, covering every example | medium, not executed (depends on the interpreter) | `Batching.AsWrittenDropsTail` | `Batching.BatchesCoverAll` |
