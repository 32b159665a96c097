# progen-jax: the index and shape logic of the model, in Dafny

ProGen is a decoder-only protein language model written in Haiku. Most of
its arithmetic is floating point. Under the numerics lies an exact layer of
index and shape logic, and that layer decides which sequence positions can
influence which others. This project models that layer over integer tensors
(`Vec = seq<int>`, `Matrix = seq<Vec>`) and proves its properties.

The model has six modules:

- `Shapes`: the shared pieces.
  - the errors a forward pass can raise on a shape violation, and a `Result` type;
  - integer dot products;
  - `np.tril` masks;
  - row-major index arithmetic.
- `Rotary`: `rotate_every_two`.
  - It is the signed pair swap `(a, b) -> (-b, a)` on the feature axis.
  - Proved: its pair form, that two applications negate, injectivity, and orthogonality.
- `Windowing`: the sequence-axis reshapes of local attention.
  - `'(w n) -> w n'` and its inverse.
  - The zero window padded in front.
  - The concatenation that gives each window a two-window key/value context.
- `Features`: the feature-axis splits and merges.
  - `np.split(qkv, 3)`, the head split `'n (h d) -> h n d'`, and the closing `'(h d)'` merge.
  - `np.split(x, 2)` in the spatial gate.
- `LocalAttention`: one head's masked similarity scores.
  - The band mask `np.tril(ones(wsz, 2 wsz), wsz)` and `np.where`.
  - A reference definition in absolute positions.
  - Causality and locality: what the windowed computation lets through, exactly.
- `SpatialGate`: the spatial gating unit (SGU).
  - The lower-triangular mixing across positions, the bias, and the gating product.
  - Causality for both the mix and the whole gate.
- `Schedule`: the layer stack that `ProGenBase.__init__` builds.
  - `ProGenBase` is a class whose constructor runs the source's append loop.
  - The loop is proved to build `Layers`. The gated layers are proved to be the last `max(0, min(depth, global_mlp_depth))` of that stack, and every block is proved to have a distinct name.

Shape errors are values, not preconditions:

| error | raised when |
|---|---|
| `WindowSizeZero` | `n % wsz` with `wsz == 0` |
| `NotMultipleOfWindow` | the divisibility assertion fails |
| `NoWindows` | the `'(w n)'` rearrange has zero windows, so einops cannot infer `n` |
| `IndivisibleAxis` | `np.stack` gets halves of an odd axis, or `np.split` or the head split gets an axis that does not divide |
| `SeqLenZero` | the SGU divides `EPS / seq_len` with `seq_len == 0`, which raises a division error on every call |
| `SeqLenMismatch` | the SGU's `(seq_len, seq_len)` weights meet a sequence of another length |

An empty sequence passes the `n % wsz` assertion. It then fails in the
window rearrange, which cannot infer the length of zero windows, so `Windows`
reports `NoWindows` for it.

The window size is a natural number in the model. With a negative
`window_size` the source also fails, in one of two places. When `wsz` does
not divide `n`, Python's `%` leaves a nonzero remainder (`3 % -2 == -1`), so
the divisibility assertion (line 64) fails. Otherwise the window rearrange
(line 72) fails: it gets zero windows for `n == 0` and a negative window count
for `n > 0`. No model value represents this case.

## Model

| member | source | states |
|---|---|---|
| Rotary.Evens | progen/progen.py:29 | `x[::2]` has `ceil(d / 2)` entries |
| Rotary.Odds | progen/progen.py:30 | `x[1::2]` has `floor(d / 2)` entries |
| Rotary.Interleave | progen/progen.py:31-32 | stacking two halves on a new last axis and flattening gives twice the length |
| Rotary.InterleaveAt | progen/progen.py:31-32 | entry `c` of the flattened stack comes from pair `c / 2`: from the first half at even `c`, from the second at odd `c` |
| Rotary.RotateEveryTwo | progen/progen.py:28-32 | fails exactly on an odd feature axis, with `IndivisibleAxis`; otherwise preserves length, and entry `c` is `-x[c+1]` at even `c` and `x[c-1]` at odd `c` |
| Rotary.RotatePair | progen/progen.py:28-32 | positions `2p, 2p+1` receive `-x[2p+1], x[2p]` |
| Rotary.RotateTwiceNegates | progen/progen.py:28-32 | rotating twice gives the elementwise negation of the input |
| Rotary.NegatedRotateInverts | progen/progen.py:28-32 | rotating the negated rotation gives the input back: the negated rotation is the inverse, so the rotation is a bijection |
| Rotary.RotateInjective | progen/progen.py:28-32 | two inputs with equal rotations are equal |
| Rotary.RotateCons | progen/progen.py:28-32 | the rotation acts pair by pair: the first pair becomes `[-x[1], x[0]]` and the rest rotates on its own |
| Rotary.RotatePreservesDot | progen/progen.py:28-32 | the rotation preserves inner products, so it is orthogonal |
| Rotary.RotateOrthogonal | progen/progen.py:28-36  | every vector is orthogonal to its rotation |
| Windowing.Blocks | progen/progen.py:72 | `count` blocks, each holding `size` positions |
| Windowing.BlocksSlot | progen/progen.py:72 | block `w`, slot `j` is position `w * size + j` |
| Windowing.Windows | progen/progen.py:63-72  | succeeds iff `wsz > 0`, `wsz` divides `n` and `n > 0`; names the error of each failing check in source order; gives `n / wsz` windows of `wsz` positions |
| Windowing.WindowsAt | progen/progen.py:72  | position `t` is window `t / wsz`, slot `t % wsz` |
| Windowing.WindowsSlot | progen/progen.py:72  | window `w`, slot `j` is position `w * wsz + j` |
| Windowing.MergeLength | progen/progen.py:84 | flattening `k` windows of `size` positions gives `k * size` positions |
| Windowing.MergeSlot | progen/progen.py:84 | slot `j` of window `w` lands at position `w * size + j` after flattening |
| Windowing.MergeBlocks | progen/progen.py:84  | blocks flattened back give the sequence unchanged |
| Windowing.BlocksMerge | progen/progen.py:72  | uniform blocks flattened and cut again give the same blocks |
| Windowing.MergeWindows | progen/progen.py:84  | `'(w n) -> w n'` followed by `'w n -> (w n)'` is the identity |
| Windowing.WindowsOfBlocks | progen/progen.py:63-72  | a sequence of `count > 0` whole windows passes every check and is cut into its blocks |
| Windowing.WindowsMerge | progen/progen.py:72  | flattening nonempty uniform windows and cutting again returns them, so the reshapes are inverse bijections |
| Windowing.PadFront | progen/progen.py:74 | padding adds one window of `wsz` zeros in front and keeps the windows after it |
| Windowing.Context | progen/progen.py:74-75 | pad then pair gives one context per window |
| Windowing.PairAdjacent | progen/progen.py:75 | pairing neighbours of `p` windows gives `p - 1` contexts |
| Windowing.ContextLayout | progen/progen.py:74-75 | window `w`'s context has `2 * wsz` slots: window `w - 1` (zeros for `w = 0`) and then window `w` |
| Windowing.ContextAt | progen/progen.py:74-75 | context slot `j` is slot `j - wsz` of window `w` in the second half, and slot `j` of window `w - 1` (or zero) in the first |
| Windowing.ContextSlot | progen/progen.py:72-75 | context slot `j` of window `w` is sequence position `(w - 1) * wsz + j`, and a negative position is the zero padding |
| Shapes.TrilRow | progen/progen.py:79  | a row of `np.tril(np.ones(...), k)` has `cols` entries |
| Shapes.TrilOnes | progen/progen.py:79  | `np.tril(np.ones((rows, cols)), k)` has shape `(rows, cols)` |
| Shapes.TrilRowCount | progen/progen.py:79  | row `i` of `np.tril(np.ones(...), k)` keeps exactly `min(cols, i + k + 1)` entries (at least 0) |
| Shapes.BandStart | progen/progen.py:72-75 | the window before the one holding `t` starts at `t - t % wsz - wsz` |
| LocalAttention.BandMask | progen/progen.py:79 | the mask has shape `(wsz, 2 * wsz)` |
| LocalAttention.BandMaskRowCount | progen/progen.py:79 | mask row `i` allows `i + wsz + 1` slots, so no row is fully masked |
| LocalAttention.Similarity | progen/progen.py:77 | the score matrix of one window has one row per query and one column per context slot |
| LocalAttention.Where | progen/progen.py:80 | `np.where` keeps the shape of mask and scores |
| LocalAttention.WindowsRectangular | progen/progen.py:72 | every window of `d`-vectors holds `d`-vectors |
| LocalAttention.ContextRectangular | progen/progen.py:74-75 | every key context, padding included, holds `2 * wsz` vectors of `d` entries |
| LocalAttention.HeadScores | progen/progen.py:63-80  | succeeds iff the query windowing does, with the same error; gives `n / wsz` score matrices of shape `(wsz, 2 * wsz)` |
| LocalAttention.ScoreAt | progen/progen.py:72-80 | the windowed score at `(t / wsz, t % wsz, j)` equals the absolute-position reference: the fill value iff `j > t % wsz + wsz`, 0 on the padding, otherwise `q[t] · k[t - t % wsz - wsz + j]` |
| LocalAttention.ScoreRow | progen/progen.py:72-80 | the whole score row of query `t` is the reference row |
| LocalAttention.PaddingIsUnmasked | progen/progen.py:74-80  | every query of window 0 scores exactly 0, not the fill value, against each of the `wsz` padding slots |
| LocalAttention.BandScoreDependsOnlyOnKeyBand | progen/progen.py:74-80 | the reference score of query `t` reads only keys at positions in `[t - t % wsz - wsz, t]` |
| LocalAttention.ScoresDependOnlyOnKeyBand | progen/progen.py:72-80 | causality and locality: query `t` reads only keys at positions in `[(t / wsz - 1) * wsz, t]`, so keys that agree there give the same score row, however later keys differ |
| LocalAttention.EveryKeyInBandIsScored | progen/progen.py:72-80 | the band is exact: every key position `p` in `[(t / wsz - 1) * wsz, t]` is scored unmasked as `q[t] · k[p]` |
| Features.SplitLast | progen/progen.py:68-69  | fails exactly when the part count is 0 or does not divide the width, with `IndivisibleAxis`; otherwise gives `parts` matrices with one row per input row and `width / parts` columns |
| Features.SplitLastAt | progen/progen.py:68-69  | entry `(t, j)` of part `p` is entry `(t, p * (width / parts) + j)` of the input |
| Features.RowBlocks | progen/progen.py:84 | row `t` of every part, one per part |
| Features.MergeLast | progen/progen.py:84 | `'h n d -> n (h d)'` keeps the row count |
| Features.MergeSplit | progen/progen.py:68-69  | splitting the features into parts and merging back is the identity |
| Features.SplitMerge | progen/progen.py:69  | merging `h` parts of width `d` and splitting into `h` gives the same parts |
| SpatialGate.Column | progen/progen.py:143 | a feature column has one entry per position |
| SpatialGate.CausalWeights | progen/progen.py:140-141 | masking the weights keeps their `(n, n)` shape |
| SpatialGate.CausalMix | progen/progen.py:134-144 | succeeds iff `seq_len > 0` and the gate has the weights' length `seq_len`; fails with `SeqLenZero` for `seq_len == 0`, otherwise with `SeqLenMismatch` on a length difference; the result has the gate's shape |
| SpatialGate.CausalRow | progen/progen.py:140-141 | masked weight row `m` is its first `m + 1` raw entries followed by zeros |
| SpatialGate.CausalMixAt | progen/progen.py:140-144 | entry `(m, c)` is `sum_{k <= m} weights[m][k] * gate[k][c] + bias[m]` |
| SpatialGate.CausalMixIgnoresLaterPositions | progen/progen.py:140-144 | gates that agree on positions `0..m` mix to the same row `m` |
| SpatialGate.CausalMixIgnoresUpperWeights | progen/progen.py:140-144 | weights that agree on and below the diagonal mix every gate identically |
| SpatialGate.Hadamard | progen/progen.py:146 | `x * gate` keeps the shape of its operands |
| SpatialGate.NormalizedGate | progen/progen.py:130-132 | the normalized second half of each row, with one row per position and `width - width / 2` columns |
| SpatialGate.GateAndMix | progen/progen.py:129-146 | succeeds iff the width is even, `seq_len > 0` and `n == seq_len`; in source order fails with `IndivisibleAxis` on an odd width, with `SeqLenZero` when `seq_len == 0`, and with `SeqLenMismatch` when `n != seq_len`; otherwise gives `n` rows of `width / 2` |
| SpatialGate.GateAndMixAt | progen/progen.py:130-146 | output `(m, c)` is `x[m][c]` times entry `(m, c)` of the causal mix of the normalized gate half |
| SpatialGate.GateAndMixIgnoresLaterPositions | progen/progen.py:129-146 | inputs that agree on positions `0..m` give the same output row `m` |
| Schedule.Decimal | progen/progen.py:173-174 | the f-string rendering of `i` is a nonempty run of decimal digits, with two or more digits iff `i >= 10` |
| Schedule.DecimalInjective | progen/progen.py:173-174 | distinct layer indices render differently |
| Schedule.Layers | progen/progen.py:169-175 | the stack has `max(depth, 0)` layers, and layer `i` is `LayerAt(i, ...)`: names `attn{i}` and `ff{i}`, and a spatial gate iff `depth - i <= global_mlp_depth` (lines 171-174), whose consequences `GatedLayersAreLast`, `GatedCount` and `LayerNamesDistinct` state |
| Schedule.CountGated | progen/progen.py:171-174  | the number of gated layers is at most the number of layers |
| Schedule.GatedLayersAreLast | progen/progen.py:170-174 | layer `i` is gated iff `i >= depth - global_mlp_depth`, and every layer after a gated layer is gated |
| Schedule.CountGatedPrefix | progen/progen.py:170-174 | the first `k` layers hold `max(0, k - max(0, depth - global_mlp_depth))` gated layers |
| Schedule.GatedCount | progen/progen.py:170-174 | exactly `max(0, min(depth, global_mlp_depth))` layers are gated |
| Schedule.LayerNamesDistinct | progen/progen.py:172-174 | two different layers give their attention blocks different names, and their feed-forward blocks different names |
| Schedule.AttentionAndFeedForwardNamesDiffer | progen/progen.py:173-174 | no attention block, of any layer, shares its name with a feed-forward block, of any layer, its own layer included |
| Schedule.ProGenBase.constructor | progen/progen.py:150-175 | with the source's defaults (`window_size` 256, `global_mlp_depth` 2, `heads` 8, `dim_head` 64, `ff_mult` 4), the append loop builds exactly `Layers(depth, global_mlp_depth, ...)` and stores the hyperparameters |

## Left out

- Softmax and the value mixing (progen/progen.py:82-83) are floating point. The model stops at the masked scores. The numeric effect of the fill value `-1e10` is not modelled either; the value itself is an exact integer.
- The `dim_head ** -0.5` scale of the scores is a float factor. `Similarity` gives the raw integer dot products.
- Schedule.ProGenBase.constructor: with `dim_head == 0`, `dim_head ** -0.5` (progen/progen.py:52) raises a division error while the first `LocalAttention` is built, so the source's constructor fails whenever `depth >= 1`. The model builds the layer list anyway; it does not compute the scale.
- The rotary sine and cosine tables (`fixed_pos_embedding`) and the `x * cos + rotate_every_two(x) * sin` combination are floating point. The rotation is modelled on one feature vector; the source applies it to the last axis of every `(h, n, d)` entry.
- Layer norms are left out as numerics.
  - The SGU's gate norm is an arbitrary length-preserving map of one position's feature vector, passed as a parameter.
  - The norms before attention and the feed-forward block are not modelled.
- `hk.Linear`, `hk.Embed`, `hk.get_parameter` and the random and `np.ones` initializers are library calls and parameters. Projections, weights and biases are inputs to the model.
- The multi-head composition of `LocalAttention.__call__` is not a single function. The model covers its pieces one head at a time: `SplitLast` for the `qkv` and head splits, `HeadScores`, and `MergeWindows` and `MergeSplit` for the closing rearrange.
- The GELU, the feed-forward projections and the residual forward loop of `ProGenBase.__call__` are float tensor composition.
- `clamp_gate` and `attn_dim` are accepted by the constructor but never used. The `hk.transform` wrapper `ProGen` is library plumbing.
- Schedule.ProGenBase.constructor: `hk.Embed` and `to_logits` are not built; the constructor keeps `num_tokens`, `dim_head`, `depth`, `global_mlp_depth` and the layer hyperparameters instead.
- SpatialGate.CausalMix, SpatialGate.GateAndMix: every length difference between the gate and `seq_len` is `SeqLenMismatch`. If the einsum broadcasts a contracted axis of size 1, the source instead broadcasts when `seq_len == 1 < n` or `n == 1 < seq_len`. Those cases are not modelled, because the einsum library is not part of this model.
- Integer overflow does not arise: tensors are unbounded integers standing in for floats.
