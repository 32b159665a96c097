/** Splits and merges of the feature (last) axis: `np.split(qkv, 3, axis = -1)`,
    `rearrange(t, 'n (h d) -> h n d')` for the heads, the closing
    `'... (h d)'` that puts the heads back side by side, and
    `np.split(x, 2, axis = -1)` in the spatial gate. Each row of a matrix is
    cut into equal column blocks, so these reuse the block reshapes of the
    sequence axis. */
module Features {
  import opened Shapes
  import opened Windowing

  /** Part `p`, row `t` is the `p`-th block of `width / parts` columns of row `t`.
      A width that `parts` does not divide, or zero parts, is an error. */
  function SplitLast(x: Matrix, width: nat, parts: nat): (r: Result<seq<Matrix>>)
    requires Rectangular(x, width)
    ensures r.Ok? <==> parts > 0 && width % parts == 0
    ensures r.Err? ==> r.error == IndivisibleAxis
    ensures r.Ok? ==> |r.value| == parts
    ensures r.Ok? ==> forall p :: 0 <= p < parts ==> |r.value[p]| == |x| && Rectangular(r.value[p], width / parts)
  {
    if parts == 0 || width % parts != 0 then Err(IndivisibleAxis)
    else
      var c := width / parts;
      DivExact(width, parts);
      var ps := seq(parts, p requires 0 <= p < parts =>
        seq(|x|, t requires 0 <= t < |x| => Blocks(x[t], c, parts)[p]));
      assert forall p :: 0 <= p < parts ==> Rectangular(ps[p], c) by {
        forall p, t | 0 <= p < parts && 0 <= t < |x| ensures |ps[p][t]| == c {
          assert Uniform(Blocks(x[t], c, parts), c);
        }
      }
      Ok(ps)
  }

  /** Entry `(t, j)` of part `p` is entry `(t, p * c + j)` of the input, `c = width / parts`. */
  lemma SplitLastAt(x: Matrix, width: nat, parts: nat, p: nat, t: nat, j: nat)
    requires Rectangular(x, width) && SplitLast(x, width, parts).Ok?
    requires p < parts && t < |x| && j < width / parts
    ensures p * (width / parts) + j < width
    ensures SplitLast(x, width, parts).value[p][t][j] == x[t][p * (width / parts) + j]
  {
    BlocksSlot(x[t], width / parts, parts, p, j);
  }

  /** The blocks of row `t`, one from each part, in part order. */
  function RowBlocks(ps: seq<Matrix>, t: nat): (bs: seq<Vec>)
    requires forall p :: 0 <= p < |ps| ==> t < |ps[p]|
    ensures |bs| == |ps|
  {
    seq(|ps|, p requires 0 <= p < |ps| => ps[p][t])
  }

  /** `'h n d -> n (h d)'`: row `t` of the result is row `t` of every part, side by side. */
  function MergeLast(ps: seq<Matrix>, n: nat): (m: Matrix)
    requires forall p :: 0 <= p < |ps| ==> |ps[p]| == n
    ensures |m| == n
  {
    seq(n, t requires 0 <= t < n => Merge(RowBlocks(ps, t)))
  }

  /** Splitting and merging back is the identity. */
  lemma MergeSplit(x: Matrix, width: nat, parts: nat)
    requires Rectangular(x, width) && SplitLast(x, width, parts).Ok?
    ensures MergeLast(SplitLast(x, width, parts).value, |x|) == x
  {
    var ps := SplitLast(x, width, parts).value;
    var c := width / parts;
    forall t | 0 <= t < |x| ensures MergeLast(ps, |x|)[t] == x[t] {
      assert RowBlocks(ps, t) == Blocks(x[t], c, parts);
      MergeBlocks(x[t], c, parts);
    }
  }

  /** Merging `h` parts of width `d` and splitting back into `h` gives the same parts. */
  lemma SplitMerge(ps: seq<Matrix>, n: nat, d: nat)
    requires |ps| > 0
    requires forall p :: 0 <= p < |ps| ==> |ps[p]| == n && Rectangular(ps[p], d)
    ensures Rectangular(MergeLast(ps, n), |ps| * d)
    ensures SplitLast(MergeLast(ps, n), |ps| * d, |ps|) == Ok(ps)
  {
    var m := MergeLast(ps, n);
    var h := |ps|;
    forall t | 0 <= t < n ensures |m[t]| == h * d && Blocks(m[t], d, h) == RowBlocks(ps, t) {
      BlocksMerge(RowBlocks(ps, t), d);
    }
    SplitIndex(d, h, 0);
    assert (h * d) % h == 0 && (h * d) / h == d;
    var qs := SplitLast(m, h * d, h).value;
    forall p | 0 <= p < h ensures qs[p] == ps[p] {
      forall t | 0 <= t < n ensures qs[p][t] == ps[p][t] {
        assert qs[p][t] == Blocks(m[t], d, h)[p];
      }
    }
    assert qs == ps;
  }
}
