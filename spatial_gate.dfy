/** The spatial gating unit's mixing across sequence positions: the raw
    `(seq_len, seq_len)` weights are multiplied by `np.tril(np.ones((n, n)))`,
    contracted with the gate by `np.einsum('n d, m n -> m d')`, a per-position
    bias is added, and the other half of the input is multiplied by the
    result. The layer norm of the gate and the output projection are floating
    point and are not part of this module. */
module SpatialGate {
  import opened Shapes
  import opened Features

  /** Column `c` of a matrix: feature `c` at every position. */
  function Column(g: Matrix, d: nat, c: nat): (v: Vec)
    requires Rectangular(g, d) && c < d
    ensures |v| == |g|
  {
    seq(|g|, k requires 0 <= k < |g| => g[k][c])
  }

  /** `weights * np.tril(np.ones((n, n)))`: the raw weights with everything above the diagonal zeroed. */
  function CausalWeights(w: Matrix, n: nat): (m: Matrix)
    requires |w| == n && Rectangular(w, n)
    ensures |m| == n && Rectangular(m, n)
  {
    var mask := TrilOnes(n, n, 0);
    seq(n, r requires 0 <= r < n => seq(n, k requires 0 <= k < n => w[r][k] * mask[r][k]))
  }

  /** `np.einsum('n d, m n -> m d', gate, weights)` followed by `gate += biases`.
      A training length `seq_len` of 0 fails first, in the `EPS / n` that
      scales the weights' initializer, which runs on every call. The weights
      have the training length; a gate of any other length does not contract
      with them. */
  function CausalMix(w: Matrix, bias: Vec, gate: Matrix, seqLen: nat, d: nat): (r: Result<Matrix>)
    requires |w| == seqLen && Rectangular(w, seqLen) && |bias| == seqLen
    requires Rectangular(gate, d)
    ensures r.Ok? <==> seqLen > 0 && |gate| == seqLen
    ensures seqLen == 0 ==> r == Err(SeqLenZero)
    ensures seqLen > 0 && |gate| != seqLen ==> r == Err(SeqLenMismatch)
    ensures r.Ok? ==> |r.value| == seqLen && Rectangular(r.value, d)
  {
    if seqLen == 0 then Err(SeqLenZero)
    else if |gate| != seqLen then Err(SeqLenMismatch)
    else
      var cw := CausalWeights(w, seqLen);
      Ok(seq(seqLen, m requires 0 <= m < seqLen =>
        seq(d, c requires 0 <= c < d => Dot(cw[m], Column(gate, d, c)) + bias[m])))
  }

  /** The masked row `m` of the weights is its first `m + 1` entries followed by zeros. */
  lemma CausalRow(w: Matrix, n: nat, m: nat)
    requires |w| == n && Rectangular(w, n) && m < n
    ensures CausalWeights(w, n)[m] == w[m][..m + 1] + Zeros(n - m - 1)
  {
    var row := CausalWeights(w, n)[m];
    var split := w[m][..m + 1] + Zeros(n - m - 1);
    forall k | 0 <= k < n ensures row[k] == split[k] {
      assert TrilOnes(n, n, 0)[m][k] == if k <= m then 1 else 0;
    }
  }

  lemma {:induction false} DotZerosLeft(b: Vec)
    ensures Dot(Zeros(|b|), b) == 0
  {
    if |b| > 0 {
      assert Zeros(|b|)[1..] == Zeros(|b| - 1);
      DotZerosLeft(b[1..]);
    }
  }

  /** Output position `m`, feature `c` is `sum_{k <= m} weights[m][k] * gate[k][c] + bias[m]`:
      only the lower triangle of the raw weights and the gate up to position `m` take part. */
  lemma CausalMixAt(w: Matrix, bias: Vec, gate: Matrix, seqLen: nat, d: nat, m: nat, c: nat)
    requires |w| == seqLen && Rectangular(w, seqLen) && |bias| == seqLen
    requires Rectangular(gate, d) && |gate| == seqLen && m < seqLen && c < d
    ensures CausalMix(w, bias, gate, seqLen, d).Ok?
    ensures CausalMix(w, bias, gate, seqLen, d).value[m][c] ==
      Dot(w[m][..m + 1], Column(gate, d, c)[..m + 1]) + bias[m]
  {
    var col := Column(gate, d, c);
    CausalRow(w, seqLen, m);
    assert col == col[..m + 1] + col[m + 1..];
    DotAppend(w[m][..m + 1], Zeros(seqLen - m - 1), col[..m + 1], col[m + 1..]);
    DotZerosLeft(col[m + 1..]);
  }

  /** Causality: gates that agree on positions `0..m` mix to the same row `m`. */
  lemma CausalMixIgnoresLaterPositions(w: Matrix, bias: Vec, gate: Matrix, gate': Matrix, seqLen: nat, d: nat, m: nat)
    requires |w| == seqLen && Rectangular(w, seqLen) && |bias| == seqLen
    requires Rectangular(gate, d) && Rectangular(gate', d) && |gate| == |gate'| == seqLen && m < seqLen
    requires gate[..m + 1] == gate'[..m + 1]
    ensures CausalMix(w, bias, gate, seqLen, d).Ok? && CausalMix(w, bias, gate', seqLen, d).Ok?
    ensures CausalMix(w, bias, gate, seqLen, d).value[m] == CausalMix(w, bias, gate', seqLen, d).value[m]
  {
    forall c | 0 <= c < d
      ensures CausalMix(w, bias, gate, seqLen, d).value[m][c] == CausalMix(w, bias, gate', seqLen, d).value[m][c]
    {
      CausalMixAt(w, bias, gate, seqLen, d, m, c);
      CausalMixAt(w, bias, gate', seqLen, d, m, c);
      assert Column(gate, d, c)[..m + 1] == Column(gate', d, c)[..m + 1] by {
        forall k | 0 <= k <= m ensures Column(gate, d, c)[k] == Column(gate', d, c)[k] {
          assert gate[k] == gate[..m + 1][k];
          assert gate'[k] == gate'[..m + 1][k];
        }
      }
    }
  }

  /** Only the lower triangle of the raw weights is ever applied: weights that
      agree on and below the diagonal mix every gate identically. */
  lemma CausalMixIgnoresUpperWeights(w: Matrix, w': Matrix, bias: Vec, gate: Matrix, seqLen: nat, d: nat)
    requires |w| == |w'| == seqLen && Rectangular(w, seqLen) && Rectangular(w', seqLen) && |bias| == seqLen
    requires forall m :: 0 <= m < seqLen ==> w[m][..m + 1] == w'[m][..m + 1]
    requires Rectangular(gate, d)
    ensures CausalMix(w, bias, gate, seqLen, d) == CausalMix(w', bias, gate, seqLen, d)
  {
    if seqLen > 0 && |gate| == seqLen {
      var r, r' := CausalMix(w, bias, gate, seqLen, d).value, CausalMix(w', bias, gate, seqLen, d).value;
      forall m, c | 0 <= m < seqLen && 0 <= c < d ensures r[m][c] == r'[m][c] {
        CausalMixAt(w, bias, gate, seqLen, d, m, c);
        CausalMixAt(w', bias, gate, seqLen, d, m, c);
      }
      assert forall m | 0 <= m < seqLen :: r[m] == r'[m];
      assert r == r';
    }
  }

  /** `x * gate`: elementwise product of two matrices of one shape. */
  function Hadamard(x: Matrix, g: Matrix, d: nat): (r: Matrix)
    requires |x| == |g| && Rectangular(x, d) && Rectangular(g, d)
    ensures |r| == |x| && Rectangular(r, d)
  {
    seq(|x|, t requires 0 <= t < |x| => seq(d, c requires 0 <= c < d => x[t][c] * g[t][c]))
  }

  /** The normalized gate: `norm` applied to the second half of every row.
      The layer norm of the source acts on each position separately, so it is
      any length-preserving map of one feature vector. */
  function NormalizedGate(x: Matrix, width: nat, norm: Vec -> Vec): (g: Matrix)
    requires Rectangular(x, width)
    requires forall v: Vec :: |norm(v)| == |v|
    ensures |g| == |x| && Rectangular(g, width - width / 2)
  {
    seq(|x|, t requires 0 <= t < |x| => norm(x[t][width / 2..]))
  }

  /** `SGU.__call__` up to the output projection: split the input in two
      halves along the features (an odd width is an error), normalize the
      gate half position by position, mix it causally (a zero training
      length, then a length mismatch, is an error), and multiply the first
      half by it. */
  function GateAndMix(x: Matrix, width: nat, norm: Vec -> Vec, w: Matrix, bias: Vec, seqLen: nat): (r: Result<Matrix>)
    requires Rectangular(x, width)
    requires forall v: Vec :: |norm(v)| == |v|
    requires |w| == seqLen && Rectangular(w, seqLen) && |bias| == seqLen
    ensures r.Ok? <==> width % 2 == 0 && seqLen > 0 && |x| == seqLen
    ensures width % 2 != 0 ==> r == Err(IndivisibleAxis)
    ensures width % 2 == 0 && seqLen == 0 ==> r == Err(SeqLenZero)
    ensures width % 2 == 0 && seqLen > 0 && |x| != seqLen ==> r == Err(SeqLenMismatch)
    ensures r.Ok? ==> |r.value| == |x| && Rectangular(r.value, width / 2)
  {
    match SplitLast(x, width, 2)
    case Err(e) => Err(e)
    case Ok(halves) =>
      var h := width / 2;
      var gate := seq(|x|, t requires 0 <= t < |x| => norm(halves[1][t]));
      match CausalMix(w, bias, gate, seqLen, h)
      case Err(e) => Err(e)
      case Ok(mixed) => Ok(Hadamard(halves[0], mixed, h))
  }

  /** Output position `m`, feature `c` is `x[m][c]` times entry `(m, c)` of the
      causal mix of the normalized gate; with `CausalMixAt` that is
      `x[m][c] * (sum_{k <= m} weights[m][k] * gate[k][c] + bias[m])`. */
  lemma GateAndMixAt(x: Matrix, width: nat, norm: Vec -> Vec, w: Matrix, bias: Vec, seqLen: nat, m: nat, c: nat)
    requires Rectangular(x, width)
    requires forall v: Vec :: |norm(v)| == |v|
    requires |w| == seqLen && Rectangular(w, seqLen) && |bias| == seqLen
    requires GateAndMix(x, width, norm, w, bias, seqLen).Ok? && m < |x| && c < width / 2
    ensures CausalMix(w, bias, NormalizedGate(x, width, norm), seqLen, width / 2).Ok?
    ensures GateAndMix(x, width, norm, w, bias, seqLen).value[m][c] ==
      x[m][c] * CausalMix(w, bias, NormalizedGate(x, width, norm), seqLen, width / 2).value[m][c]
  {
    var h := width / 2;
    var halves := SplitLast(x, width, 2).value;
    SplitLastAt(x, width, 2, 0, m, c);
    var gate := seq(|x|, t requires 0 <= t < |x| => norm(halves[1][t]));
    assert gate == NormalizedGate(x, width, norm) by {
      forall t | 0 <= t < |x| ensures halves[1][t] == x[t][h..] {
        forall j | 0 <= j < h ensures halves[1][t][j] == x[t][h..][j] {
          SplitLastAt(x, width, 2, 1, t, j);
        }
      }
    }
  }

  /** Causality of the whole gate: inputs that agree on positions `0..m` give the same output row `m`. */
  lemma GateAndMixIgnoresLaterPositions(x: Matrix, x': Matrix, width: nat, norm: Vec -> Vec,
                                        w: Matrix, bias: Vec, seqLen: nat, m: nat)
    requires Rectangular(x, width) && Rectangular(x', width) && |x| == |x'|
    requires forall v: Vec :: |norm(v)| == |v|
    requires |w| == seqLen && Rectangular(w, seqLen) && |bias| == seqLen
    requires GateAndMix(x, width, norm, w, bias, seqLen).Ok? && m < |x|
    requires x[..m + 1] == x'[..m + 1]
    ensures GateAndMix(x', width, norm, w, bias, seqLen).Ok?
    ensures GateAndMix(x, width, norm, w, bias, seqLen).value[m] == GateAndMix(x', width, norm, w, bias, seqLen).value[m]
  {
    var g, g' := NormalizedGate(x, width, norm), NormalizedGate(x', width, norm);
    assert g[..m + 1] == g'[..m + 1] by {
      forall k | 0 <= k <= m ensures g[k] == g'[k] {
        assert x[k] == x[..m + 1][k] && x'[k] == x'[..m + 1][k];
      }
    }
    CausalMixIgnoresLaterPositions(w, bias, g, g', seqLen, width / 2, m);
    var r, r' := GateAndMix(x, width, norm, w, bias, seqLen).value, GateAndMix(x', width, norm, w, bias, seqLen).value;
    forall c | 0 <= c < width / 2 ensures r[m][c] == r'[m][c] {
      GateAndMixAt(x, width, norm, w, bias, seqLen, m, c);
      GateAndMixAt(x', width, norm, w, bias, seqLen, m, c);
      assert x[m] == x[..m + 1][m] && x'[m] == x'[..m + 1][m];
    }
  }
}
