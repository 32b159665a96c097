/** Integer tensors, shape errors and the few arithmetic facts about
    row-major index maps that the reshapes of the model rely on. */
module Shapes {

  /** The ways a forward pass fails on a shape-contract violation. */
  datatype Error =
    | WindowSizeZero            // `n % wsz` with wsz == 0 raises a division error
    | NotMultipleOfWindow       // the assertion that wsz divides the sequence length
    | NoWindows                 // a rearrange into zero windows cannot infer the window length
    | IndivisibleAxis           // np.split / np.stack / a head split on an axis that does not divide evenly
    | SeqLenZero                // `EPS / seq_len` with seq_len == 0 raises a division error
    | SeqLenMismatch            // spatial weights of training length against a different runtime length

  datatype Result<T> = Ok(value: T) | Err(error: Error)

  /** One feature vector (the last axis of a tensor). */
  type Vec = seq<int>

  /** A rank-2 tensor: rows are positions, columns are features. */
  type Matrix = seq<Vec>

  /** Every inner sequence of `ws` holds `wsz` elements. */
  ghost predicate Uniform<T>(ws: seq<seq<T>>, wsz: nat) {
    forall w :: 0 <= w < |ws| ==> |ws[w]| == wsz
  }

  /** Every row of `m` has `d` entries, as in a numpy array of shape (|m|, d). */
  ghost predicate Rectangular(m: Matrix, d: nat) {
    Uniform(m, d)
  }

  function Zeros(d: nat): (r: Vec)
    ensures |r| == d && forall c :: 0 <= c < d ==> r[c] == 0
  {
    seq(d, _ => 0)
  }

  function Negated(x: Vec): (r: Vec)
    ensures |r| == |x| && forall c :: 0 <= c < |x| ==> r[c] == -x[c]
  {
    seq(|x|, c requires 0 <= c < |x| => -x[c])
  }

  /** The inner product of two vectors of one length. */
  function Dot(a: Vec, b: Vec): (r: int)
    requires |a| == |b|
  {
    if |a| == 0 then 0 else a[0] * b[0] + Dot(a[1..], b[1..])
  }

  lemma {:induction false} DotAppend(a: Vec, a': Vec, b: Vec, b': Vec)
    requires |a| == |b| && |a'| == |b'|
    ensures Dot(a + a', b + b') == Dot(a, b) + Dot(a', b')
  {
    if |a| > 0 {
      assert (a + a')[1..] == a[1..] + a' && (b + b')[1..] == b[1..] + b';
      DotAppend(a[1..], a', b[1..], b');
    } else {
      assert a + a' == a' && b + b' == b';
    }
  }

  lemma {:induction false} DotZeros(a: Vec)
    ensures Dot(a, Zeros(|a|)) == 0
  {
    if |a| > 0 {
      assert Zeros(|a|)[1..] == Zeros(|a| - 1);
      DotZeros(a[1..]);
    }
  }

  /** `np.tril(np.ones((rows, cols)), k)`, row `i`: ones where `j <= i + k`, zeros above that diagonal. */
  function TrilRow(cols: nat, i: int, k: int): (r: Vec)
    ensures |r| == cols
  {
    seq(cols, j => if j <= i + k then 1 else 0)
  }

  function TrilOnes(rows: nat, cols: nat, k: int): (m: Matrix)
    ensures |m| == rows && Rectangular(m, cols)
  {
    seq(rows, i => TrilRow(cols, i, k))
  }

  /** The number of nonzero entries of a mask row. */
  function CountNonzero(s: Vec): (n: nat)
    ensures n <= |s|
  {
    if |s| == 0 then 0 else CountNonzero(s[..|s| - 1]) + (if s[|s| - 1] != 0 then 1 else 0)
  }

  function Min(a: int, b: int): (m: int) { if a <= b then a else b }
  function Max(a: int, b: int): (m: int) { if a >= b then a else b }

  /** A row of `np.tril` keeps exactly the first `i + k + 1` columns (clamped to the row). */
  lemma {:induction false} TrilRowCount(cols: nat, i: int, k: int)
    ensures CountNonzero(TrilRow(cols, i, k)) == Max(0, Min(cols, i + k + 1))
  {
    if cols > 0 {
      assert TrilRow(cols, i, k)[..cols - 1] == TrilRow(cols - 1, i, k);
      TrilRowCount(cols - 1, i, k);
    }
  }

  // Row-major index arithmetic: position t = w * size + j.

  lemma MulMonotone(a: int, b: int, c: nat)
    requires a <= b
    ensures a * c <= b * c
  {
    assert b * c - a * c == (b - a) * c;
  }

  /** Block `w` of `count` blocks of `size` lies inside `count * size` positions. */
  lemma BlockEnd(w: nat, size: nat, count: nat)
    requires w < count
    ensures 0 <= w * size && w * size + size <= count * size
  {
    MulMonotone(0, w, size);
    MulMonotone(w + 1, count, size);
    assert (w + 1) * size == w * size + size;
  }

  /** A width that `parts` divides is `parts` blocks of `width / parts`. */
  lemma DivExact(width: nat, parts: nat)
    requires parts > 0 && width % parts == 0
    ensures parts * (width / parts) == width
  {
  }

  /** `w * size + j` with `j < size` splits back into `w` and `j`. */
  lemma SplitIndex(w: nat, size: nat, j: nat)
    requires j < size
    ensures (w * size + j) / size == w && (w * size + j) % size == j
  {
    var t := w * size + j;
    var q, r := t / size, t % size;
    assert q * size + r == w * size + j;
    if q > w {
      MulMonotone(w + 1, q, size);
      assert false;
    } else if q < w {
      MulMonotone(q + 1, w, size);
      assert false;
    }
  }

  /** The block before block `w` starts `size` positions earlier. */
  lemma PrevBlock(w: nat, size: nat)
    requires w > 0
    ensures (w - 1) * size == w * size - size
  {
  }

  /** The window before the one holding `t` starts at `t - t % size - size`. */
  lemma BandStart(t: nat, size: nat)
    requires size > 0
    ensures t - t % size - size == (t / size - 1) * size
  {
    assert t == (t / size) * size + t % size;
    PrevBlock(t / size + 1, size);
  }

  /** Position `t` of a length-`n` axis lies in block `t / size` at offset `t % size`. */
  lemma BlockOf(t: nat, size: nat, n: nat)
    requires size > 0 && n % size == 0 && t < n
    ensures t / size < n / size && t % size < size
    ensures t == (t / size) * size + t % size
  {
    if t / size >= n / size {
      MulMonotone(n / size, t / size, size);
      assert false;
    }
  }
}
