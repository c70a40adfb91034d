/** `create`: validates the configuration, sizes the block with one sum,
    and fills it with a zeroed network whose weights are drawn at random. */
module Construction {
  import opened Sums
  import opened Layout
  import opened LayoutProofs
  import opened Outcomes
  import opened Network

  /** A weight built from one draw of `rand()`: `(1000 - draw % 2001) / 1000`. */
  function DrawnWeight(draw: nat): (w: real)
    ensures -1.0 <= w <= 1.0
  {
    (1000 - (draw % 2001)) as real / 1000.0
  }

  /** Position of weight `w` of neuron `n` of layer `l` in the order the
      creation loop visits weights, which is also its position in the
      block's weight region. */
  function WeightOrdinal(s: Shape, l: nat, n: nat, w: nat): nat
    requires l < s.LayLen() && n <= s.NeuLen(l)
  {
    Sum(WeightCounts(s)[..l]) + Sum(s.weiLens[l][..n]) + w
  }

  /** Weight `w` of neuron `n` of layer `l` exists in shape `s`. */
  predicate IsWeight(s: Shape, l: nat, n: nat, w: nat)
  {
    l < s.LayLen() && n < s.NeuLen(l) && w < s.weiLens[l][n]
  }

  /** The ordinals follow the creation loop (layer, then neuron, then
      weight): the first weight is draw 0, a neuron's first weight comes
      right after the last weight of the neuron before it, a layer's first
      weight right after the last weight of the layer before it, and the
      last weight of the last layer ends the weight region. */
  lemma WeightOrdinalsInLoopOrder(s: Shape, l: nat, n: nat)
    requires l < s.LayLen() && n < s.NeuLen(l)
    ensures WeightOrdinal(s, 0, 0, 0) == 0
    ensures WeightOrdinal(s, l, n + 1, 0) == WeightOrdinal(s, l, n, s.weiLens[l][n])
    ensures l + 1 < s.LayLen() ==> WeightOrdinal(s, l + 1, 0, 0) == WeightOrdinal(s, l, s.NeuLen(l), 0)
    ensures l + 1 == s.LayLen() ==> WeightOrdinal(s, l, s.NeuLen(l), 0) == Sum(WeightCounts(s))
  {
    assert WeightCounts(s)[..0] == [] && s.weiLens[0][..0] == [];
    SumPrefixStep(s.weiLens[l], n);
    SumPrefixStep(WeightCounts(s), l);
    SumAll(s.weiLens[l]);
    SumAll(WeightCounts(s));
  }

  /** The last draw a layer's weights take is below the first draw of any
      later layer's weights, and within a layer the same holds for neurons. */
  lemma WeightOrdinalsIncrease(s: Shape, l: nat, n: nat, w: nat, l': nat, n': nat, w': nat)
    requires IsWeight(s, l, n, w) && IsWeight(s, l', n', w')
    requires l < l' || (l == l' && n < n') || (l == l' && n == n' && w < w')
    ensures WeightOrdinal(s, l, n, w) < WeightOrdinal(s, l', n', w')
  {
    SumPrefixStep(s.weiLens[l], n);
    if l < l' {
      SumPrefixMonotone(s.weiLens[l], n + 1, s.NeuLen(l));
      SumAll(s.weiLens[l]);
      SumPrefixStep(WeightCounts(s), l);
      SumPrefixMonotone(WeightCounts(s), l + 1, l');
    } else if n < n' {
      SumPrefixMonotone(s.weiLens[l], n + 1, n');
    }
  }

  /** Distinct weights take distinct draws. */
  lemma WeightOrdinalsDistinct(s: Shape, l: nat, n: nat, w: nat, l': nat, n': nat, w': nat)
    requires IsWeight(s, l, n, w) && IsWeight(s, l', n', w') && (l, n, w) != (l', n', w')
    ensures WeightOrdinal(s, l, n, w) != WeightOrdinal(s, l', n', w')
  {
    if l < l' || (l == l' && n < n') || (l == l' && n == n' && w < w') {
      WeightOrdinalsIncrease(s, l, n, w, l', n', w');
    } else {
      WeightOrdinalsIncrease(s, l', n', w', l, n, w);
    }
  }

  /** Every weight's draw lies in the weight region. */
  lemma WeightOrdinalBelow(s: Shape, l: nat, n: nat, w: nat)
    requires IsWeight(s, l, n, w)
    ensures WeightOrdinal(s, l, n, w) < Sum(WeightCounts(s))
  {
    SumPrefixStep(s.weiLens[l], n);
    SumPrefixMonotone(s.weiLens[l], n + 1, s.NeuLen(l));
    SumAll(s.weiLens[l]);
    SumPrefixStep(WeightCounts(s), l);
    SumPrefixMonotone(WeightCounts(s), l + 1, s.LayLen());
    SumAll(WeightCounts(s));
  }

  /** Every position of the weight region is the draw of some weight. */
  lemma WeightOrdinalOnto(s: Shape, k: nat)
    requires k < Sum(WeightCounts(s))
    ensures exists l, n, w :: IsWeight(s, l, n, w) && WeightOrdinal(s, l, n, w) == k
  {
    var l := SumLocate(WeightCounts(s), k);
    var r := k - Sum(WeightCounts(s)[..l]);
    var n := SumLocate(s.weiLens[l], r);
    var w := r - Sum(s.weiLens[l][..n]);
    assert IsWeight(s, l, n, w) && WeightOrdinal(s, l, n, w) == k;
  }

  function Zeros(n: nat): (r: seq<real>)
    ensures |r| == n && forall i :: 0 <= i < n ==> r[i] == 0.0
  {
    seq(n, _ => 0.0)
  }

  /** A configuration Create accepts: at least an input and an output
      width, none of them zero. */
  predicate ValidConfig(config: seq<nat>)
  {
    |config| >= 2 && forall i :: 0 <= i < |config| ==> config[i] >= 1
  }

  /** The weights of neuron `n` of layer `l` as Create leaves them:
      `width` weights drawn in placement order. */
  function FreshWeights(s: Shape, l: nat, n: nat, width: nat, rng: nat -> nat): (ws: seq<real>)
    requires l < s.LayLen() && n <= s.NeuLen(l)
    ensures |ws| == width
    ensures forall w :: 0 <= w < width ==> ws[w] == DrawnWeight(rng(WeightOrdinal(s, l, n, w)))
  {
    seq(width, w requires 0 <= w < width => DrawnWeight(rng(WeightOrdinal(s, l, n, w))))
  }

  /** The weight vectors of the `count` neurons of layer `l`. */
  function FreshLayerWeights(s: Shape, l: nat, count: nat, width: nat, rng: nat -> nat): (wss: seq<seq<real>>)
    requires l < s.LayLen() && count == s.NeuLen(l)
    ensures |wss| == count
    ensures forall n :: 0 <= n < count ==> wss[n] == FreshWeights(s, l, n, width, rng)
  {
    seq(count, n requires 0 <= n < count => FreshWeights(s, l, n, width, rng))
  }

  /** The weight vectors of every layer of a created network. */
  function FreshAllWeights(config: seq<nat>, rows: nat, rng: nat -> nat): (wss: seq<seq<seq<real>>>)
    requires |config| >= 2
    ensures |wss| == |config| - 1
    ensures forall l :: 0 <= l < |config| - 1 ==>
              wss[l] == FreshLayerWeights(ConfigShape(config, rows), l, config[l + 1], config[l], rng)
  {
    var L := |config| - 1;
    seq(L, l requires 0 <= l < L => FreshLayerWeights(ConfigShape(config, rows), l, config[l + 1], config[l], rng))
  }

  /** The zeroed neuron values of every layer of a created network. */
  function FreshValues(config: seq<nat>): (vss: seq<seq<real>>)
    requires |config| >= 2
    ensures |vss| == |config| - 1
    ensures forall l :: 0 <= l < |config| - 1 ==> vss[l] == Zeros(config[l + 1])
  {
    var L := |config| - 1;
    seq(L, l requires 0 <= l < L => Zeros(config[l + 1]))
  }

  /** The network Create builds for an accepted configuration, in a block
      of `size` slots. */
  function Fresh(size: nat, config: seq<nat>, rows: nat, rng: nat -> nat): (net: Net)
    requires |config| >= 2
    ensures net.LayLen() == |config| - 1 && Aligned(net)
  {
    var cols := config[0] + config[|config| - 1];
    Net(false, ENABLE, 0.01, 0.01, size,
        Zeros(config[0]), Zeros(|config| - 1), FreshValues(config), FreshAllWeights(config, rows, rng),
        Dataset(seq(rows, _ => Zeros(cols)), cols))
  }

  /** `create`.  `target` is the `N_NET *` argument, `config` the
      configuration array (`None` for a null pointer) of `configSize`
      elements, `allocates` whether `malloc` succeeds and `rng(k)` the
      `k`-th value `rand()` returns during the call. */
  function Create(u: Units, target: Target<Net>, config: Option<seq<nat>>, configSize: nat,
                  rows: nat, allocates: bool, rng: nat -> nat): (r: Outcome<Net>)
    requires config.Some? ==> |config.value| == configSize
    ensures !r.Undefined?
    ensures r.Ok? <==> target == Target(None) && config.Some? && ValidConfig(config.value) && rows >= 1 && allocates
    ensures r.Ok? ==> WellFormed(u, r.value) && ShapeOf(r.value) == ConfigShape(config.value, rows)
    ensures r.Ok? ==> !r.value.isChanged
    ensures r.Ok? ==> r.value == Fresh(CreateSize(u, config.value, rows), config.value, rows, rng)
  {
    if target.NullTarget? then Fail
    else if target.held.Some? then Fail
    else if configSize < 2 then Fail
    else if rows < 1 then Fail
    else if config.None? then Fail
    else if exists i :: 0 <= i < configSize && config.value[i] < 1 then Fail
    else if !allocates then Fail
    else
      assert ValidConfig(config.value);
      var net := Fresh(CreateSize(u, config.value, rows), config.value, rows, rng);
      CreateShape(u, config.value, rows, rng, net);
      Ok(net)
  }

  /** Layer `l` of a created network has `config[l + 1]` neurons of
      `config[l]` weights each. */
  lemma {:induction false} CreateLayerShape(size: nat, config: seq<nat>, rows: nat, rng: nat -> nat, net: Net, l: nat)
    requires |config| >= 2 && net == Fresh(size, config, rows, rng) && l < |config| - 1
    ensures l < ShapeOf(net).LayLen()
    ensures ShapeOf(net).weiLens[l] == Repeat(config[l + 1], config[l])
  {
    var t := ShapeOf(net);
    var wss := net.weights[l];
    assert wss == FreshLayerWeights(ConfigShape(config, rows), l, config[l + 1], config[l], rng);
    assert |t.weiLens[l]| == |wss| == config[l + 1];
    forall n | 0 <= n < config[l + 1]
      ensures t.weiLens[l][n] == config[l]
    {
      assert wss[n] == FreshWeights(ConfigShape(config, rows), l, n, config[l], rng);
    }
  }

  lemma {:induction false} ShapeOfFresh(size: nat, config: seq<nat>, rows: nat, rng: nat -> nat, net: Net)
    requires |config| >= 2 && net == Fresh(size, config, rows, rng)
    ensures ShapeOf(net) == ConfigShape(config, rows)
  {
    var s := ConfigShape(config, rows);
    var t := ShapeOf(net);
    forall l | 0 <= l < |config| - 1
      ensures t.weiLens[l] == s.weiLens[l]
    {
      CreateLayerShape(size, config, rows, rng, net, l);
    }
    assert t.weiLens == s.weiLens;
  }

  /** A successful Create yields the sizes the configuration asks for:
      `config[0]` inputs, `|config| - 1` layers, `config[l + 1]` neurons of
      `config[l]` weights in layer `l`, `rows` data rows of inputs plus
      outputs columns, in a block of exactly the computed size. */
  lemma {:induction false} CreateShape(u: Units, config: seq<nat>, rows: nat, rng: nat -> nat, net: Net)
    requires ValidConfig(config) && rows >= 1 && net == Fresh(CreateSize(u, config, rows), config, rows, rng)
    ensures ShapeOf(net) == ConfigShape(config, rows)
    ensures WellFormed(u, net)
  {
    ShapeOfFresh(CreateSize(u, config, rows), config, rows, rng, net);
    ConfigShapeConsistent(config, rows);
    CreateSizeFits(u, config, rows);
  }

  /** A successful Create yields zero inputs, biases, neuron values and data
      cells, weights in [-1, 1], a clean dirty flag, the activation enabled
      and epsilon and step at 0.01. */
  lemma {:induction false} CreateContents(size: nat, config: seq<nat>, rows: nat, rng: nat -> nat)
    requires ValidConfig(config) && rows >= 1
    ensures var net := Fresh(size, config, rows, rng);
      && (forall i :: 0 <= i < |net.inputs| ==> net.inputs[i] == 0.0)
      && (forall l :: 0 <= l < |net.biases| ==> net.biases[l] == 0.0)
      && (forall l, n :: 0 <= l < |net.values| && 0 <= n < |net.values[l]| ==> net.values[l][n] == 0.0)
      && (forall l, n, w :: 0 <= l < net.LayLen() && 0 <= n < net.NeuLen(l) && 0 <= w < |net.weights[l][n]| ==>
            -1.0 <= net.weights[l][n][w] <= 1.0)
      && (forall i, j :: 0 <= i < |net.data.cells| && 0 <= j < |net.data.cells[i]| ==> net.data.cells[i][j] == 0.0)
      && !net.isChanged && net.actFunc == ENABLE && net.eps == 0.01 && net.step == 0.01
  {
    var net := Fresh(size, config, rows, rng);
    var s := ConfigShape(config, rows);
    forall l, n | 0 <= l < net.LayLen() && 0 <= n < net.NeuLen(l)
      ensures net.weights[l][n] == FreshWeights(s, l, n, config[l], rng)
    {
      assert net.weights[l] == FreshLayerWeights(s, l, config[l + 1], config[l], rng);
    }
  }
}
