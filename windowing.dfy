/** The window reshapes of local attention, on one head's sequence axis:
    `rearrange(t, 'h (w n) d -> h w n d')` cuts a length-`n` axis into
    `n / wsz` consecutive windows, the closing `'h w n d -> (w n) (h d)'`
    flattens them back, and keys and values get a context of two windows
    (one zero window is padded at the front, then each window is
    concatenated after its predecessor). Elements are generic: a position's
    feature vector in the model, `zero` its all-zero vector. */
module Windowing {
  import opened Shapes

  /** `'(w n) -> w n'` with `w = count`, `n = size`: block `w` is positions `[w * size, (w + 1) * size)`. */
  function Blocks<T>(xs: seq<T>, size: nat, count: nat): (ws: seq<seq<T>>)
    requires |xs| == count * size
    ensures |ws| == count && Uniform(ws, size)
  {
    var ws := seq(count, w requires 0 <= w < count =>
      BlockEnd(w, size, count); xs[w * size .. w * size + size]);
    assert Uniform(ws, size) by {
      forall w | 0 <= w < count ensures |ws[w]| == size {
        BlockEnd(w, size, count);
      }
    }
    ws
  }

  /** Block `w`, slot `j` is position `w * size + j`. */
  lemma BlocksSlot<T>(xs: seq<T>, size: nat, count: nat, w: nat, j: nat)
    requires |xs| == count * size && w < count && j < size
    ensures w * size + j < |xs| && Blocks(xs, size, count)[w][j] == xs[w * size + j]
  {
    BlockEnd(w, size, count);
  }

  /** The checks of the attention call and the `'(w n)'` rearrange, in order:
      `n % wsz` itself, the divisibility assertion, then a rearrange into
      zero windows, which cannot infer the window length. */
  function Windows<T>(xs: seq<T>, wsz: nat): (r: Result<seq<seq<T>>>)
    ensures r.Ok? <==> wsz > 0 && |xs| % wsz == 0 && |xs| > 0
    ensures wsz == 0 ==> r == Err(WindowSizeZero)
    ensures wsz > 0 && |xs| % wsz != 0 ==> r == Err(NotMultipleOfWindow)
    ensures wsz > 0 && |xs| == 0 ==> r == Err(NoWindows)
    ensures r.Ok? ==> |r.value| == |xs| / wsz && Uniform(r.value, wsz)
  {
    if wsz == 0 then Err(WindowSizeZero)
    else if |xs| % wsz != 0 then Err(NotMultipleOfWindow)
    else if |xs| == 0 then Err(NoWindows)
    else Ok(Blocks(xs, wsz, |xs| / wsz))
  }

  /** Position `t` of the sequence is window `t / wsz`, slot `t % wsz`. */
  lemma WindowsAt<T>(xs: seq<T>, wsz: nat, t: nat)
    requires Windows(xs, wsz).Ok? && t < |xs|
    ensures t / wsz < |xs| / wsz && t % wsz < wsz
    ensures Windows(xs, wsz).value[t / wsz][t % wsz] == xs[t]
  {
    BlockOf(t, wsz, |xs|);
    BlocksSlot(xs, wsz, |xs| / wsz, t / wsz, t % wsz);
  }

  /** Window `w`, slot `j` is position `w * wsz + j`. */
  lemma WindowsSlot<T>(xs: seq<T>, wsz: nat, w: nat, j: nat)
    requires Windows(xs, wsz).Ok? && w < |xs| / wsz && j < wsz
    ensures w * wsz + j < |xs| && Windows(xs, wsz).value[w][j] == xs[w * wsz + j]
  {
    BlocksSlot(xs, wsz, |xs| / wsz, w, j);
  }

  /** `'w n -> (w n)'`: the windows back to back. */
  function Merge<T>(ws: seq<seq<T>>): (xs: seq<T>) {
    if |ws| == 0 then [] else ws[0] + Merge(ws[1..])
  }

  lemma {:induction false} MergeLength<T>(ws: seq<seq<T>>, size: nat)
    requires Uniform(ws, size)
    ensures |Merge(ws)| == |ws| * size
  {
    if |ws| > 0 {
      MergeLength(ws[1..], size);
    }
  }

  /** Position `w * size + j` of the flattening is block `w`, slot `j`. */
  lemma {:induction false} MergeSlot<T>(ws: seq<seq<T>>, size: nat, w: nat, j: nat)
    requires Uniform(ws, size) && w < |ws| && j < size
    ensures |Merge(ws)| == |ws| * size && w * size + j < |Merge(ws)|
    ensures Merge(ws)[w * size + j] == ws[w][j]
  {
    MergeLength(ws, size);
    MulMonotone(w + 1, |ws|, size);
    if w > 0 {
      MergeSlot(ws[1..], size, w - 1, j);
      assert (w - 1) * size + j == w * size + j - size;
    }
  }

  /** Blocks flattened back give the sequence unchanged. */
  lemma MergeBlocks<T>(xs: seq<T>, size: nat, count: nat)
    requires |xs| == count * size
    ensures Merge(Blocks(xs, size, count)) == xs
  {
    var ws := Blocks(xs, size, count);
    MergeLength(ws, size);
    if size > 0 {
      SplitIndex(count, size, 0);
    }
    forall t | 0 <= t < |xs| ensures Merge(ws)[t] == xs[t] {
      BlockOf(t, size, |xs|);
      MergeSlot(ws, size, t / size, t % size);
      BlocksSlot(xs, size, count, t / size, t % size);
    }
  }

  /** Uniform blocks flattened and cut again are the same blocks. */
  lemma BlocksMerge<T>(ws: seq<seq<T>>, size: nat)
    requires Uniform(ws, size)
    ensures |Merge(ws)| == |ws| * size && Blocks(Merge(ws), size, |ws|) == ws
  {
    MergeLength(ws, size);
    var vs := Blocks(Merge(ws), size, |ws|);
    forall w | 0 <= w < |ws| ensures vs[w] == ws[w] {
      forall j | 0 <= j < size ensures vs[w][j] == ws[w][j] {
        MergeSlot(ws, size, w, j);
        BlocksSlot(Merge(ws), size, |ws|, w, j);
      }
    }
  }

  /** Cutting into windows and flattening back gives the sequence unchanged. */
  lemma MergeWindows<T>(xs: seq<T>, wsz: nat)
    requires Windows(xs, wsz).Ok?
    ensures Merge(Windows(xs, wsz).value) == xs
  {
    MergeBlocks(xs, wsz, |xs| / wsz);
  }

  /** Flattening nonempty uniform windows and cutting again gives the same windows,
      so the two reshapes are inverse bijections. */
  lemma WindowsMerge<T>(ws: seq<seq<T>>, wsz: nat)
    requires wsz > 0 && |ws| > 0 && Uniform(ws, wsz)
    ensures Windows(Merge(ws), wsz) == Ok(ws)
  {
    BlocksMerge(ws, wsz);
    WindowsOfBlocks(Merge(ws), wsz, |ws|);
  }

  /** A sequence of `count > 0` whole windows passes every check and is cut into its blocks. */
  lemma WindowsOfBlocks<T>(xs: seq<T>, wsz: nat, count: nat)
    requires wsz > 0 && count > 0 && |xs| == count * wsz
    ensures Windows(xs, wsz) == Ok(Blocks(xs, wsz, count))
  {
    SplitIndex(count, wsz, 0);
    assert |xs| == count * wsz + 0;
    MulMonotone(1, count, wsz);
  }

  /** `np.pad(t, ((0, 0), (1, 0), (0, 0), (0, 0)))` on the window axis: one window of zeros in front. */
  function PadFront<T>(ws: seq<seq<T>>, zero: T, wsz: nat): (p: seq<seq<T>>)
    ensures |p| == |ws| + 1 && p[0] == seq(wsz, _ => zero) && p[1..] == ws
  {
    [seq(wsz, _ => zero)] + ws
  }

  /** `np.concatenate((t[:, :-1], t[:, 1:]), axis = 2)`: every window after its predecessor. */
  function PairAdjacent<T>(p: seq<seq<T>>): (r: seq<seq<T>>)
    requires |p| > 0
    ensures |r| == |p| - 1
  {
    var front, back := p[..|p| - 1], p[1..];
    seq(|p| - 1, w requires 0 <= w < |p| - 1 => front[w] + back[w])
  }

  /** The key and value context of each window. */
  function Context<T>(ws: seq<seq<T>>, zero: T, wsz: nat): (c: seq<seq<T>>)
    ensures |c| == |ws|
  {
    PairAdjacent(PadFront(ws, zero, wsz))
  }

  /** Window `w`'s context holds `2 * wsz` slots: window `w - 1` (zeros for
      `w == 0`) in the first half and window `w` itself in the second. */
  lemma ContextLayout<T>(ws: seq<seq<T>>, zero: T, wsz: nat, w: nat)
    requires Uniform(ws, wsz) && w < |ws|
    ensures |Context(ws, zero, wsz)| == |ws|
    ensures |Context(ws, zero, wsz)[w]| == 2 * wsz
    ensures Context(ws, zero, wsz)[w][..wsz] == if w == 0 then seq(wsz, _ => zero) else ws[w - 1]
    ensures Context(ws, zero, wsz)[w][wsz..] == ws[w]
  {
    var c := Context(ws, zero, wsz);
    var p := PadFront(ws, zero, wsz);
    assert c[w] == p[w] + p[w + 1];
  }

  /** Slot `j` of window `w`'s context: slot `j` of window `w - 1` (or the
      padding) in the first half, slot `j - wsz` of window `w` in the second. */
  lemma ContextAt<T>(ws: seq<seq<T>>, zero: T, wsz: nat, w: nat, j: nat)
    requires Uniform(ws, wsz) && w < |ws| && j < 2 * wsz
    ensures |Context(ws, zero, wsz)| == |ws| && |Context(ws, zero, wsz)[w]| == 2 * wsz
    ensures Context(ws, zero, wsz)[w][j] ==
      if j >= wsz then ws[w][j - wsz] else if w == 0 then zero else ws[w - 1][j]
  {
    var p := PadFront(ws, zero, wsz);
    assert Context(ws, zero, wsz)[w] == p[w] + p[w + 1];
  }

  /** Absolute positions: slot `j` of window `w`'s context is sequence position
      `(w - 1) * wsz + j`, and a negative position is the zero padding. */
  lemma ContextSlot<T>(xs: seq<T>, zero: T, wsz: nat, w: nat, j: nat)
    requires Windows(xs, wsz).Ok?
    requires w < |xs| / wsz && j < 2 * wsz
    ensures |Context(Windows(xs, wsz).value, zero, wsz)| == |xs| / wsz
    ensures |Context(Windows(xs, wsz).value, zero, wsz)[w]| == 2 * wsz
    ensures w * wsz + j - wsz < |xs|
    ensures Context(Windows(xs, wsz).value, zero, wsz)[w][j] ==
      if w * wsz + j < wsz then zero else xs[w * wsz + j - wsz]
  {
    var ws := Windows(xs, wsz).value;
    ContextAt(ws, zero, wsz, w, j);
    if j >= wsz {
      MulMonotone(0, w, wsz);
      WindowsSlot(xs, wsz, w, j - wsz);
    } else if w > 0 {
      PrevBlock(w, wsz);
      MulMonotone(0, w - 1, wsz);
      WindowsSlot(xs, wsz, w - 1, j);
    } else {
      assert w * wsz == 0;
    }
  }
}
