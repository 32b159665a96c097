/** The index structure of `LocalAttention.__call__` for one head: queries
    cut into windows, keys given a two-window context (previous window, or
    zeros, then the own window), integer similarity scores, and the banded
    causal mask `np.tril(np.ones((wsz, 2 * wsz)), wsz)` applied with
    `np.where`. The softmax and the value mixing that follow are floating
    point and are not part of this module. */
module LocalAttention {
  import opened Shapes
  import opened Windowing

  /** The fill value of masked scores, -1e10 written out as an integer. */
  const ATTN_MASK_VALUE: int := -10000000000

  /** `np.tril(np.ones((wsz, wsz * 2)), wsz)`. */
  function BandMask(wsz: nat): (m: Matrix)
    ensures |m| == wsz && Rectangular(m, 2 * wsz)
  {
    TrilOnes(wsz, 2 * wsz, wsz)
  }

  /** No query is left without keys: row `i` of the mask allows `i + wsz + 1`
      of its `2 * wsz` slots, so at least `wsz + 1`. */
  lemma BandMaskRowCount(wsz: nat, i: nat)
    requires i < wsz
    ensures CountNonzero(BandMask(wsz)[i]) == i + wsz + 1
    ensures CountNonzero(BandMask(wsz)[i]) >= wsz + 1
  {
    TrilRowCount(2 * wsz, i, wsz);
  }

  /** `np.einsum('i d, j d -> i j', q, k)` for one window (the `dim_head ** -0.5` scale is not modelled). */
  function Similarity(q: Matrix, k: Matrix, d: nat): (s: Matrix)
    requires Rectangular(q, d) && Rectangular(k, d)
    ensures |s| == |q| && Rectangular(s, |k|)
  {
    seq(|q|, i requires 0 <= i < |q| => seq(|k|, j requires 0 <= j < |k| => Dot(q[i], k[j])))
  }

  /** `np.where(mask, sim, fill)`: a score where the mask is set, `fill` elsewhere. */
  function Where(mask: Matrix, sim: Matrix, rows: nat, cols: nat, fill: int): (r: Matrix)
    requires |mask| == rows && Rectangular(mask, cols)
    requires |sim| == rows && Rectangular(sim, cols)
    ensures |r| == rows && Rectangular(r, cols)
  {
    seq(rows, i requires 0 <= i < rows =>
      seq(cols, j requires 0 <= j < cols => if mask[i][j] != 0 then sim[i][j] else fill))
  }

  /** Every window of a sequence of `d`-vectors holds `d`-vectors. */
  lemma WindowsRectangular(xs: Matrix, wsz: nat, d: nat)
    requires Rectangular(xs, d) && Windows(xs, wsz).Ok?
    ensures forall w :: 0 <= w < |xs| / wsz ==> Rectangular(Windows(xs, wsz).value[w], d)
  {
    forall w, j | 0 <= w < |xs| / wsz && 0 <= j < wsz ensures |Windows(xs, wsz).value[w][j]| == d {
      WindowsSlot(xs, wsz, w, j);
    }
  }

  /** So does every key context, padding included. */
  lemma ContextRectangular(xs: Matrix, wsz: nat, d: nat)
    requires Rectangular(xs, d) && Windows(xs, wsz).Ok?
    ensures |Context(Windows(xs, wsz).value, Zeros(d), wsz)| == |xs| / wsz
    ensures forall w :: 0 <= w < |xs| / wsz ==>
      |Context(Windows(xs, wsz).value, Zeros(d), wsz)[w]| == 2 * wsz &&
      Rectangular(Context(Windows(xs, wsz).value, Zeros(d), wsz)[w], d)
  {
    var ctx := Context(Windows(xs, wsz).value, Zeros(d), wsz);
    ContextLayout(Windows(xs, wsz).value, Zeros(d), wsz, 0);
    forall w | 0 <= w < |xs| / wsz ensures |ctx[w]| == 2 * wsz && Rectangular(ctx[w], d) {
      forall j | 0 <= j < 2 * wsz ensures |ctx[w][j]| == d {
        ContextSlot(xs, Zeros(d), wsz, w, j);
      }
    }
  }

  /** The masked scores of one head: window `w`, query slot `i`, context slot `j`.
      Queries and keys are rows of one projection, so they have one length;
      that length is checked exactly as the attention call checks it. */
  function HeadScores(q: Matrix, k: Matrix, d: nat, wsz: nat): (r: Result<seq<Matrix>>)
    requires |q| == |k| && Rectangular(q, d) && Rectangular(k, d)
    ensures r.Ok? <==> Windows(q, wsz).Ok?
    ensures r.Err? ==> r.error == Windows(q, wsz).error
    ensures r.Ok? ==> |r.value| == |q| / wsz
    ensures r.Ok? ==> forall w :: 0 <= w < |r.value| ==> |r.value[w]| == wsz && Rectangular(r.value[w], 2 * wsz)
  {
    match Windows(q, wsz)
    case Err(e) => Err(e)
    case Ok(qw) =>
      var ctx := Context(Windows(k, wsz).value, Zeros(d), wsz);
      WindowsRectangular(q, wsz, d);
      ContextRectangular(k, wsz, d);
      Ok(seq(|qw|, w requires 0 <= w < |qw| =>
        Where(BandMask(wsz), Similarity(qw[w], ctx[w], d), wsz, 2 * wsz, ATTN_MASK_VALUE)))
  }

  /** The reference definition in absolute positions: the score of query
      position `t` against context slot `j`. With `i = t % wsz` the slot is
      masked (the fill value) iff `j > i + wsz`; an allowed slot is key
      position `p = t - i - wsz + j`, and a negative `p` is the zero padding of
      window 0, whose score is 0. */
  function BandScore(q: Matrix, k: Matrix, d: nat, wsz: nat, t: nat, j: nat): (score: int)
    requires |q| == |k| && Rectangular(q, d) && Rectangular(k, d)
    requires wsz > 0 && t < |q|
  {
    var p := t - t % wsz - wsz + j;
    if j > t % wsz + wsz then ATTN_MASK_VALUE
    else if p < 0 then 0
    else Dot(q[t], k[p])
  }

  /** The windowed computation agrees with the reference definition at every
      query position and context slot. */
  lemma ScoreAt(q: Matrix, k: Matrix, d: nat, wsz: nat, t: nat, j: nat)
    requires |q| == |k| && Rectangular(q, d) && Rectangular(k, d)
    requires HeadScores(q, k, d, wsz).Ok? && t < |q| && j < 2 * wsz
    ensures t / wsz < |q| / wsz && t % wsz < wsz
    ensures HeadScores(q, k, d, wsz).value[t / wsz][t % wsz][j] == BandScore(q, k, d, wsz, t, j)
  {
    var w, i := t / wsz, t % wsz;
    BlockOf(t, wsz, |q|);
    WindowsAt(q, wsz, t);
    WindowsRectangular(q, wsz, d);
    ContextRectangular(k, wsz, d);
    ContextSlot(k, Zeros(d), wsz, w, j);
    var qw := Windows(q, wsz).value;
    var ctx := Context(Windows(k, wsz).value, Zeros(d), wsz);
    var sim := Similarity(qw[w], ctx[w], d);
    assert sim[i][j] == Dot(q[t], ctx[w][j]);
    assert HeadScores(q, k, d, wsz).value[w] == Where(BandMask(wsz), sim, wsz, 2 * wsz, ATTN_MASK_VALUE);
    assert BandMask(wsz)[i][j] == if j <= i + wsz then 1 else 0;
    assert w * wsz == t - i;
    if j <= i + wsz && t - i - wsz + j < 0 {
      DotZeros(q[t]);
    }
  }

  /** The whole score row of query `t` is the reference row. */
  lemma ScoreRow(q: Matrix, k: Matrix, d: nat, wsz: nat, t: nat)
    requires |q| == |k| && Rectangular(q, d) && Rectangular(k, d)
    requires HeadScores(q, k, d, wsz).Ok? && t < |q|
    ensures t / wsz < |q| / wsz && t % wsz < wsz
    ensures HeadScores(q, k, d, wsz).value[t / wsz][t % wsz] ==
      seq(2 * wsz, j requires 0 <= j < 2 * wsz => BandScore(q, k, d, wsz, t, j))
  {
    BlockOf(t, wsz, |q|);
    var scores := HeadScores(q, k, d, wsz).value[t / wsz];
    var row := scores[t % wsz];
    var ref := seq(2 * wsz, j requires 0 <= j < 2 * wsz => BandScore(q, k, d, wsz, t, j));
    assert |scores| == wsz && Rectangular(scores, 2 * wsz);
    assert |row| == 2 * wsz;
    forall j | 0 <= j < 2 * wsz ensures row[j] == ref[j] {
      ScoreAt(q, k, d, wsz, t, j);
    }
    assert row == ref;
  }

  /** Window 0 attends to its zero padding rather than masking it: every query
      of the first window scores exactly 0, not the fill value, against each
      of the `wsz` padding slots. */
  lemma PaddingIsUnmasked(q: Matrix, k: Matrix, d: nat, wsz: nat, i: nat, j: nat)
    requires |q| == |k| && Rectangular(q, d) && Rectangular(k, d)
    requires HeadScores(q, k, d, wsz).Ok? && i < wsz && j < wsz
    ensures HeadScores(q, k, d, wsz).value[0][i][j] == 0
  {
    BlockOf(i, wsz, |q|);
    SplitIndex(0, wsz, i);
    ScoreAt(q, k, d, wsz, i, j);
  }

  /** Causality and locality in the reference definition: query `t` sees only
      key positions `p` with `t - t % wsz - wsz <= p <= t`. */
  lemma BandScoreDependsOnlyOnKeyBand(q: Matrix, k: Matrix, k': Matrix, d: nat, wsz: nat, t: nat, j: nat)
    requires |q| == |k| == |k'| && Rectangular(q, d) && Rectangular(k, d) && Rectangular(k', d)
    requires wsz > 0 && t < |q|
    requires forall p :: t - t % wsz - wsz <= p <= t && 0 <= p < |k| ==> k[p] == k'[p]
    ensures BandScore(q, k, d, wsz, t, j) == BandScore(q, k', d, wsz, t, j)
  {
    var p := t - t % wsz - wsz + j;
    if j <= t % wsz + wsz && p >= 0 {
      assert k[p] == k'[p];
    }
  }

  /** Causality and locality of the keys: query `t` in window `w = t / wsz`
      sees only key positions `p` with `(w - 1) * wsz <= p <= t` (the bound
      `t - t % wsz - wsz` is `(w - 1) * wsz`). Keys that agree there give the
      same row of scores, whatever later or earlier keys hold. */
  lemma ScoresDependOnlyOnKeyBand(q: Matrix, k: Matrix, k': Matrix, d: nat, wsz: nat, t: nat)
    requires |q| == |k| == |k'| && Rectangular(q, d) && Rectangular(k, d) && Rectangular(k', d)
    requires HeadScores(q, k, d, wsz).Ok? && t < |q|
    requires forall p :: t - t % wsz - wsz <= p <= t && 0 <= p < |k| ==> k[p] == k'[p]
    ensures t - t % wsz - wsz == (t / wsz - 1) * wsz
    ensures HeadScores(q, k', d, wsz).Ok?
    ensures t / wsz < |q| / wsz && t % wsz < wsz
    ensures HeadScores(q, k, d, wsz).value[t / wsz][t % wsz] == HeadScores(q, k', d, wsz).value[t / wsz][t % wsz]
  {
    BandStart(t, wsz);
    BlockOf(t, wsz, |q|);
    ScoreRow(q, k, d, wsz, t);
    ScoreRow(q, k', d, wsz, t);
    var row := seq(2 * wsz, j requires 0 <= j < 2 * wsz => BandScore(q, k, d, wsz, t, j));
    var row' := seq(2 * wsz, j requires 0 <= j < 2 * wsz => BandScore(q, k', d, wsz, t, j));
    forall j | 0 <= j < 2 * wsz ensures row[j] == row'[j] {
      BandScoreDependsOnlyOnKeyBand(q, k, k', d, wsz, t, j);
    }
    assert row == row';
  }

  /** The band is exact: every key position `p` with `(t / wsz - 1) * wsz <= p <= t`
      is scored, unmasked, in the row of query `t`. */
  lemma EveryKeyInBandIsScored(q: Matrix, k: Matrix, d: nat, wsz: nat, t: nat, p: nat)
    requires |q| == |k| && Rectangular(q, d) && Rectangular(k, d)
    requires HeadScores(q, k, d, wsz).Ok? && t < |q|
    requires (t / wsz - 1) * wsz <= p <= t
    ensures t / wsz < |q| / wsz && t % wsz < wsz
    ensures 0 <= p - (t / wsz - 1) * wsz < 2 * wsz
    ensures HeadScores(q, k, d, wsz).value[t / wsz][t % wsz][p - (t / wsz - 1) * wsz] == Dot(q[t], k[p])
  {
    BlockOf(t, wsz, |q|);
    var i := t % wsz;
    BandStart(t, wsz);
    ScoreAt(q, k, d, wsz, t, p - (t - i - wsz));
  }
}
