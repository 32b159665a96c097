/** The layer stack built by `ProGenBase.__init__`: for each of `depth`
    layers, an attention block named `attn{i}` and a feed-forward block named
    `ff{i}`; the feed-forward block gets a spatial gate iff
    `depth - i <= global_mlp_depth`, so the gated layers are the last
    `max(0, min(depth, global_mlp_depth))` of the stack. */
module Schedule {
  import opened Shapes

  datatype AttentionConfig = AttentionConfig(name: string, dim: int, windowSize: int, heads: int, dimHead: int)

  datatype FeedForwardConfig = FeedForwardConfig(name: string, dim: int, ffMult: int, seqLen: int, spatialGate: bool)

  /** One entry of `self.layers`: the pair `[LocalAttention(...), FeedForward(...)]`. */
  datatype Layer = Layer(attn: AttentionConfig, ff: FeedForwardConfig)

  /** The constructor's hyperparameters that reach the layers. */
  datatype Hyper = Hyper(dim: int, seqLen: int, windowSize: int, heads: int, dimHead: int, ffMult: int)

  /** The decimal digits of `n`, as an f-string renders an `int`. */
  function Decimal(n: nat): (s: string)
    ensures |s| >= 1 && (n >= 10 <==> |s| >= 2)
    ensures forall c :: 0 <= c < |s| ==> '0' <= s[c] <= '9'
  {
    if n < 10 then [Digit(n)] else Decimal(n / 10) + [Digit(n % 10)]
  }

  function Digit(n: nat): (c: char)
    requires n < 10
    ensures '0' <= c <= '9' && c as int - '0' as int == n
  {
    (n + '0' as int) as char
  }

  /** Distinct numbers are rendered differently. */
  lemma {:induction false} DecimalInjective(a: nat, b: nat)
    requires Decimal(a) == Decimal(b)
    ensures a == b
  {
    if a >= 10 && b >= 10 {
      var sa, sb := Decimal(a), Decimal(b);
      assert sa[..|sa| - 1] == Decimal(a / 10) && sb[..|sb| - 1] == Decimal(b / 10);
      DecimalInjective(a / 10, b / 10);
      assert sa[|sa| - 1] == Digit(a % 10) && sb[|sb| - 1] == Digit(b % 10);
    } else if a < 10 && b < 10 {
      assert Decimal(a)[0] == Digit(a) && Decimal(b)[0] == Digit(b);
    }
  }

  /** Layer `i` of a stack of `depth`, with `globalMlpDepth` gated layers at the end. */
  function LayerAt(i: nat, depth: int, globalMlpDepth: int, hp: Hyper): (layer: Layer) {
    Layer(
      AttentionConfig("attn" + Decimal(i), hp.dim, hp.windowSize, hp.heads, hp.dimHead),
      FeedForwardConfig("ff" + Decimal(i), hp.dim, hp.ffMult, hp.seqLen, depth - i <= globalMlpDepth))
  }

  /** The list the constructor builds (`range` of a negative `depth` is empty). */
  function Layers(depth: int, globalMlpDepth: int, hp: Hyper): (ls: seq<Layer>)
    ensures |ls| == Max(depth, 0)
  {
    seq(Max(depth, 0), i requires 0 <= i < Max(depth, 0) => LayerAt(i, depth, globalMlpDepth, hp))
  }

  /** The number of layers whose feed-forward block carries a spatial gate. */
  function CountGated(ls: seq<Layer>): (n: nat)
    ensures n <= |ls|
  {
    if |ls| == 0 then 0 else CountGated(ls[..|ls| - 1]) + (if ls[|ls| - 1].ff.spatialGate then 1 else 0)
  }

  /** Gated layers form a suffix: a gated layer is followed only by gated layers,
      and layer `i` is gated iff it is among the last `globalMlpDepth`. */
  lemma GatedLayersAreLast(depth: int, globalMlpDepth: int, hp: Hyper, i: nat, j: nat)
    requires i <= j < |Layers(depth, globalMlpDepth, hp)|
    ensures Layers(depth, globalMlpDepth, hp)[i].ff.spatialGate ==> Layers(depth, globalMlpDepth, hp)[j].ff.spatialGate
    ensures Layers(depth, globalMlpDepth, hp)[i].ff.spatialGate <==> i >= depth - globalMlpDepth
  {
  }

  /** Among the first `k` layers, the gated ones are those at index `depth - globalMlpDepth` or later. */
  lemma {:induction false} CountGatedPrefix(depth: int, globalMlpDepth: int, hp: Hyper, k: nat)
    requires k <= |Layers(depth, globalMlpDepth, hp)|
    ensures CountGated(Layers(depth, globalMlpDepth, hp)[..k]) == Max(0, k - Max(0, depth - globalMlpDepth))
  {
    var ls := Layers(depth, globalMlpDepth, hp);
    if k > 0 {
      assert ls[..k][..k - 1] == ls[..k - 1];
      CountGatedPrefix(depth, globalMlpDepth, hp, k - 1);
    }
  }

  /** Exactly `min(depth, global_mlp_depth)` layers are gated (none when either is not positive). */
  lemma GatedCount(depth: int, globalMlpDepth: int, hp: Hyper)
    ensures CountGated(Layers(depth, globalMlpDepth, hp)) == Max(0, Min(depth, globalMlpDepth))
  {
    var ls := Layers(depth, globalMlpDepth, hp);
    CountGatedPrefix(depth, globalMlpDepth, hp, |ls|);
    assert ls[..|ls|] == ls;
  }

  /** Every layer's attention and feed-forward blocks have names of their own,
      so no two layers share parameters. */
  lemma LayerNamesDistinct(depth: int, globalMlpDepth: int, hp: Hyper, i: nat, j: nat)
    requires i < j < |Layers(depth, globalMlpDepth, hp)|
    ensures Layers(depth, globalMlpDepth, hp)[i].attn.name != Layers(depth, globalMlpDepth, hp)[j].attn.name
    ensures Layers(depth, globalMlpDepth, hp)[i].ff.name != Layers(depth, globalMlpDepth, hp)[j].ff.name
    ensures Layers(depth, globalMlpDepth, hp)[i].attn.name != Layers(depth, globalMlpDepth, hp)[j].ff.name
  {
    if Decimal(i) == Decimal(j) {
      DecimalInjective(i, j);
    }
    var ls := Layers(depth, globalMlpDepth, hp);
    assert ls[i].attn.name[4..] == Decimal(i) && ls[j].attn.name[4..] == Decimal(j);
    assert ls[i].ff.name[2..] == Decimal(i) && ls[j].ff.name[2..] == Decimal(j);
    assert ls[i].attn.name[0] == 'a' && ls[j].ff.name[0] == 'f';
  }

  /** No layer's attention block is named like any layer's feed-forward block,
      its own included. */
  lemma AttentionAndFeedForwardNamesDiffer(depth: int, globalMlpDepth: int, hp: Hyper, i: nat, j: nat)
    requires i < |Layers(depth, globalMlpDepth, hp)| && j < |Layers(depth, globalMlpDepth, hp)|
    ensures Layers(depth, globalMlpDepth, hp)[i].attn.name != Layers(depth, globalMlpDepth, hp)[j].ff.name
  {
    var ls := Layers(depth, globalMlpDepth, hp);
    assert ls[i].attn.name[0] == 'a' && ls[j].ff.name[0] == 'f';
  }

  /** The model object as far as its constructor goes: the hyperparameters and `self.layers`. */
  class ProGenBase {
    const numTokens: int
    const dimHead: int
    const depth: int
    const globalMlpDepth: int
    const hp: Hyper
    var layers: seq<Layer>

    /** `ProGenBase.__init__`: one `append` per layer, in order, with the
        source's default hyperparameters. */
    constructor (numTokens: int, dim: int, seqLen: int, depth: int, windowSize: int := 256,
                 globalMlpDepth: int := 2, heads: int := 8, dimHead: int := 64, ffMult: int := 4)
      ensures this.numTokens == numTokens && this.dimHead == dimHead
      ensures this.depth == depth && this.globalMlpDepth == globalMlpDepth
      ensures this.hp == Hyper(dim, seqLen, windowSize, heads, dimHead, ffMult)
      ensures layers == Layers(depth, globalMlpDepth, Hyper(dim, seqLen, windowSize, heads, dimHead, ffMult))
    {
      this.numTokens := numTokens;
      this.dimHead := dimHead;
      this.depth := depth;
      this.globalMlpDepth := globalMlpDepth;
      var hp := Hyper(dim, seqLen, windowSize, heads, dimHead, ffMult);
      this.hp := hp;
      var ls: seq<Layer> := [];
      var i := 0;
      while i < depth
        invariant 0 <= i <= Max(depth, 0)
        invariant ls == Layers(depth, globalMlpDepth, hp)[..i]
      {
        var useGmlp := depth - i <= globalMlpDepth;
        ls := ls + [Layer(
          AttentionConfig("attn" + Decimal(i), dim, windowSize, heads, dimHead),
          FeedForwardConfig("ff" + Decimal(i), dim, ffMult, seqLen, useGmlp))];
        i := i + 1;
      }
      layers := ls;
    }
  }
}
