/** `rotate_every_two`: the signed permutation of the feature axis that the
    rotary position embedding combines with its sine table. Each pair
    `(x[2p], x[2p+1])` becomes `(-x[2p+1], x[2p])`, a quarter turn in the plane
    of that pair. */
module Rotary {
  import opened Shapes

  /** `x[::2]`: the even-indexed features. */
  function Evens(x: Vec): (r: Vec)
    ensures |r| == (|x| + 1) / 2
  {
    seq((|x| + 1) / 2, p requires 0 <= p < (|x| + 1) / 2 => x[2 * p])
  }

  /** `x[1::2]`: the odd-indexed features. */
  function Odds(x: Vec): (r: Vec)
    ensures |r| == |x| / 2
  {
    seq(|x| / 2, p requires 0 <= p < |x| / 2 => x[2 * p + 1])
  }

  /** `rearrange(np.stack((a, b), axis=-1), '... d j -> ... (d j)')`:
      pair the two halves up and flatten the pairs in order. */
  function Interleave(a: Vec, b: Vec): (r: Vec)
    requires |a| == |b|
    ensures |r| == 2 * |a|
  {
    if |a| == 0 then [] else [a[0], b[0]] + Interleave(a[1..], b[1..])
  }

  /** Entry `c` of the interleaving comes from pair `c / 2`: from `a` at even `c`, from `b` at odd `c`. */
  lemma {:induction false} InterleaveAt(a: Vec, b: Vec, c: nat)
    requires |a| == |b| && c < 2 * |a|
    ensures Interleave(a, b)[c] == if c % 2 == 0 then a[c / 2] else b[c / 2]
  {
    if c >= 2 {
      InterleaveAt(a[1..], b[1..], c - 2);
      assert (c - 2) % 2 == c % 2 && (c - 2) / 2 == c / 2 - 1;
    }
  }

  /** `rotate_every_two` on one feature vector. `np.stack` refuses halves of
      different lengths, so an odd feature axis is an error. */
  function RotateEveryTwo(x: Vec): (r: Result<Vec>)
    ensures r.Ok? <==> |x| % 2 == 0
    ensures r.Err? ==> r.error == IndivisibleAxis
    ensures r.Ok? ==> |r.value| == |x|
    ensures r.Ok? ==> forall c :: 0 <= c < |x| ==>
      r.value[c] == if c % 2 == 0 then -x[c + 1] else x[c - 1]
  {
    var x1, x2 := Evens(x), Odds(x);
    if |x1| != |x2| then Err(IndivisibleAxis)
    else
      var r := Interleave(Negated(x2), x1);
      assert forall c :: 0 <= c < |x| ==> r[c] == if c % 2 == 0 then -x[c + 1] else x[c - 1] by {
        forall c | 0 <= c < |x| ensures r[c] == if c % 2 == 0 then -x[c + 1] else x[c - 1] {
          InterleaveAt(Negated(x2), x1, c);
        }
      }
      Ok(r)
  }

  /** The pair form: positions `2p, 2p+1` receive `-x[2p+1], x[2p]`. */
  lemma RotatePair(x: Vec, p: nat)
    requires |x| % 2 == 0 && 2 * p + 1 < |x|
    ensures RotateEveryTwo(x).Ok?
    ensures RotateEveryTwo(x).value[2 * p] == -x[2 * p + 1]
    ensures RotateEveryTwo(x).value[2 * p + 1] == x[2 * p]
  {
    var r := RotateEveryTwo(x).value;
    assert r[2 * p + 1] == x[2 * p + 1 - 1];
  }

  /** Rotating twice is the elementwise negation: a half turn in every pair. */
  lemma RotateTwiceNegates(x: Vec)
    requires |x| % 2 == 0
    ensures RotateEveryTwo(x).Ok?
    ensures RotateEveryTwo(RotateEveryTwo(x).value) == Ok(Negated(x))
  {
    var r := RotateEveryTwo(x).value;
    var rr := RotateEveryTwo(r).value;
    forall c | 0 <= c < |x| ensures rr[c] == -x[c] {
      if c % 2 == 0 {
        assert (c + 1) % 2 == 1;
        assert rr[c] == -r[c + 1] && r[c + 1] == x[c];
      } else {
        assert (c - 1) % 2 == 0;
        assert rr[c] == r[c - 1] && r[c - 1] == -x[c];
      }
    }
    assert rr == Negated(x);
  }

  /** The negated rotation undoes the rotation: it is its inverse. */
  lemma NegatedRotateInverts(x: Vec)
    requires |x| % 2 == 0
    ensures RotateEveryTwo(x).Ok? && RotateEveryTwo(Negated(RotateEveryTwo(x).value)) == Ok(x)
  {
    var r := RotateEveryTwo(x).value;
    var back := RotateEveryTwo(Negated(r)).value;
    forall c | 0 <= c < |x| ensures back[c] == x[c] {
      if c % 2 == 0 {
        assert (c + 1) % 2 == 1;
        assert back[c] == -Negated(r)[c + 1] == r[c + 1] == x[c];
      } else {
        assert (c - 1) % 2 == 0;
        assert back[c] == Negated(r)[c - 1] == -r[c - 1] == x[c];
      }
    }
    assert back == x;
  }

  /** A rotation that agrees on two inputs came from the same input. */
  lemma RotateInjective(x: Vec, y: Vec)
    requires |x| % 2 == 0 && |y| % 2 == 0
    requires RotateEveryTwo(x) == RotateEveryTwo(y)
    ensures x == y
  {
    NegatedRotateInverts(x);
    NegatedRotateInverts(y);
  }

  /** Splitting off the first pair commutes with the rotation. */
  lemma RotateCons(x: Vec)
    requires |x| % 2 == 0 && |x| >= 2
    ensures RotateEveryTwo(x).Ok? && RotateEveryTwo(x[2..]).Ok?
    ensures RotateEveryTwo(x).value == [-x[1], x[0]] + RotateEveryTwo(x[2..]).value
  {
    var r, t := RotateEveryTwo(x).value, RotateEveryTwo(x[2..]).value;
    var s := [-x[1], x[0]] + t;
    forall c | 0 <= c < |x| ensures r[c] == s[c] {
      if c >= 2 {
        assert s[c] == t[c - 2];
        assert (c - 2) % 2 == c % 2;
      }
    }
    assert r == s;
  }

  /** The rotation is orthogonal: it preserves inner products, hence norms. */
  lemma {:induction false} RotatePreservesDot(x: Vec, y: Vec)
    requires |x| == |y| && |x| % 2 == 0
    ensures RotateEveryTwo(x).Ok? && RotateEveryTwo(y).Ok?
    ensures Dot(RotateEveryTwo(x).value, RotateEveryTwo(y).value) == Dot(x, y)
  {
    if |x| >= 2 {
      RotateCons(x);
      RotateCons(y);
      var rx, ry := RotateEveryTwo(x[2..]).value, RotateEveryTwo(y[2..]).value;
      DotAppend([-x[1], x[0]], rx, [-y[1], y[0]], ry);
      DotAppend(x[..2], x[2..], y[..2], y[2..]);
      assert x == x[..2] + x[2..] && y == y[..2] + y[2..];
      RotatePreservesDot(x[2..], y[2..]);
    } else {
      assert RotateEveryTwo(x).value == [] && RotateEveryTwo(y).value == [];
    }
  }

  /** Every vector is orthogonal to its own rotation, which is why
      `x * cos + rotate_every_two(x) * sin` turns each pair without stretching it. */
  lemma {:induction false} RotateOrthogonal(x: Vec)
    requires |x| % 2 == 0
    ensures RotateEveryTwo(x).Ok?
    ensures Dot(x, RotateEveryTwo(x).value) == 0
  {
    if |x| >= 2 {
      RotateCons(x);
      var rx := RotateEveryTwo(x[2..]).value;
      DotAppend(x[..2], x[2..], [-x[1], x[0]], rx);
      assert x == x[..2] + x[2..];
      RotateOrthogonal(x[2..]);
    } else {
      assert RotateEveryTwo(x).value == [];
    }
  }
}
