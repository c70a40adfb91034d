/** The network held in the arena, seen through its derived references:
    header fields, the input vector, the layer and neuron records and the
    training dataset. */
module Network {
  import opened Layout

  /** The two activation states the header names; the field itself is a
      plain integer and may hold any value. */
  const DISABLE: int := 0
  const ENABLE: int := 1

  /** The dataset: `|cells|` rows, `cols` numbers per row. */
  datatype Dataset = Dataset(cells: seq<seq<real>>, cols: nat)

  /** The header fields, the inputs, the layer records and the dataset.
      The records are held field by field: `biases[l]` is the bias of
      layer record `l`; `values[l][n]` and `weights[l][n]` are the value
      and the weight vector of neuron record `n` of layer `l`. */
  datatype Net = Net(
    isChanged: bool,
    actFunc: int,
    eps: real,
    step: real,
    structureSize: nat,
    inputs: seq<real>,
    biases: seq<real>,
    values: seq<seq<real>>,
    weights: seq<seq<seq<real>>>,
    data: Dataset)
  {
    /** `layLen`. */
    function LayLen(): nat { |weights| }

    /** `neuLen` of layer `l`. */
    function NeuLen(l: nat): nat
      requires l < |weights|
    {
      |weights[l]|
    }
  }

  /** One bias per layer and one value per neuron. */
  predicate Aligned(net: Net)
  {
    && |net.biases| == |net.weights|
    && |net.values| == |net.weights|
    && forall l :: 0 <= l < |net.weights| ==> |net.values[l]| == |net.weights[l]|
  }

  /** The size fields of a network, as stored in its block. */
  function ShapeOf(net: Net): (s: Shape)
    ensures s.inpLen == |net.inputs| && s.LayLen() == net.LayLen()
    ensures forall l :: 0 <= l < net.LayLen() ==> s.NeuLen(l) == net.NeuLen(l)
    ensures forall l, n :: 0 <= l < net.LayLen() && 0 <= n < net.NeuLen(l) ==>
              l < |s.weiLens| && n < |s.weiLens[l]| && s.weiLens[l][n] == |net.weights[l][n]|
    ensures s.rows == |net.data.cells| && s.cols == net.data.cols
  {
    Shape(|net.inputs|, WeightLens(net.weights), |net.data.cells|, net.data.cols)
  }

  /** The weight count of every neuron of every layer. */
  function WeightLens(ws: seq<seq<seq<real>>>): (wl: seq<seq<nat>>)
    ensures |wl| == |ws|
    ensures forall l :: 0 <= l < |ws| ==> |wl[l]| == |ws[l]|
    ensures forall l, n :: 0 <= l < |ws| && 0 <= n < |ws[l]| ==> wl[l][n] == |ws[l][n]|
  {
    seq(|ws|, l requires 0 <= l < |ws| => seq(|ws[l]|, n requires 0 <= n < |ws[l]| => |ws[l][n]|))
  }

  /** Weight vectors of the same nested lengths have the same weight counts. */
  lemma WeightLensOfSizes(a: seq<seq<seq<real>>>, b: seq<seq<seq<real>>>)
    requires |a| == |b|
    requires forall l :: 0 <= l < |a| ==> |a[l]| == |b[l]|
    requires forall l, n :: 0 <= l < |a| && 0 <= n < |a[l]| ==> |a[l][n]| == |b[l][n]|
    ensures WeightLens(a) == WeightLens(b)
  {
    var wa := WeightLens(a);
    var wb := WeightLens(b);
    forall l | 0 <= l < |a|
      ensures wa[l] == wb[l]
    {
    }
  }

  /** Every data row is as wide as the stored column count, as the rows of
      `cols` numbers the row pointers address are. */
  predicate Rectangular(d: Dataset)
  {
    forall i :: 0 <= i < |d.cells| ==> |d.cells[i]| == d.cols
  }

  /** Aligned records with consistent sizes and a rectangular dataset: the
      shape every created network has. */
  predicate Shaped(net: Net)
  {
    && Aligned(net)
    && ShapeOf(net).Consistent()
    && Rectangular(net.data)
  }

  /** A shaped network whose stored total size is exactly its layout. */
  predicate WellFormed(u: Units, net: Net)
  {
    Shaped(net) && net.structureSize == LayoutEnd(u, ShapeOf(net))
  }

  /** The header fields other than the dirty flag. */
  predicate SameSettings(a: Net, b: Net)
  {
    a.actFunc == b.actFunc && a.eps == b.eps && a.step == b.step && a.structureSize == b.structureSize
  }
}
