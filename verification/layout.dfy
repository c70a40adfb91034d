/** The single-block arena of a network: where every region lives, as a
    pure function of the stored size fields.  Sizes are counted in abstract
    slots; the slot width of each kind of record is symbolic. */
module Layout {
  import opened Sums

  /** Symbolic widths, in slots, of the header record, a layer record, a
      neuron record, one number and one row pointer. */
  datatype Units = Units(header: nat, layRec: nat, neuRec: nat, num: nat, ptr: nat)
  {
    predicate Valid() {
      header >= 1 && layRec >= 1 && neuRec >= 1 && num >= 1 && ptr >= 1
    }
  }

  /** The size fields stored in the block: the input width, for every layer
      and every neuron of it the neuron's weight count, and the dataset's
      row and column counts.  The neuron count of layer `l` is
      `|weiLens[l]|`. */
  datatype Shape = Shape(inpLen: nat, weiLens: seq<seq<nat>>, rows: nat, cols: nat)
  {
    function LayLen(): nat { |weiLens| }

    function NeuLen(l: nat): nat
      requires l < |weiLens|
    {
      |weiLens[l]|
    }

    /** The width feeding layer `l`: the input width, or the neuron count
        of the layer before. */
    function FeedWidth(l: nat): nat
      requires l < |weiLens|
    {
      if l == 0 then inpLen else |weiLens[l - 1]|
    }

    /** The sizes a network built from a configuration has: at least one
        layer, no empty layer, every neuron fed by the whole preceding
        layer, at least one data row and one column per input and output. */
    predicate Consistent() {
      && inpLen >= 1
      && |weiLens| >= 1
      && (forall l :: 0 <= l < |weiLens| ==> |weiLens[l]| >= 1)
      && (forall l, n :: 0 <= l < |weiLens| && 0 <= n < |weiLens[l]| ==> weiLens[l][n] == FeedWidth(l))
      && rows >= 1
      && cols == inpLen + |weiLens[|weiLens| - 1]|
    }
  }

  /** Neuron count of every layer. */
  function NeuronCounts(s: Shape): seq<nat> { Lens(s.weiLens) }

  /** Weight count of every layer. */
  function WeightCounts(s: Shape): seq<nat> { SumEach(s.weiLens) }

  // Closed-form offsets of every region.

  function InputsAt(u: Units): nat { u.header }

  function LayersAt(u: Units, s: Shape): nat { InputsAt(u) + u.num * s.inpLen }

  /** First neuron record of layer `l`; `l == LayLen()` gives the end of
      the neuron records. */
  function NeuronsAt(u: Units, s: Shape, l: nat): nat
    requires l <= s.LayLen()
  {
    LayersAt(u, s) + u.layRec * s.LayLen() + u.neuRec * Sum(NeuronCounts(s)[..l])
  }

  function NeuronsEnd(u: Units, s: Shape): nat { NeuronsAt(u, s, s.LayLen()) }

  /** First weight of neuron `n` of layer `l`; `n == NeuLen(l)` gives the
      end of layer `l`'s weights. */
  function WeightsAt(u: Units, s: Shape, l: nat, n: nat): nat
    requires l < s.LayLen() && n <= s.NeuLen(l)
  {
    var before: nat := Sum(WeightCounts(s)[..l]) + Sum(s.weiLens[l][..n]);
    assert u.num * before >= 0 by {
      NatProduct(u.num, before);
    }
    NeuronsEnd(u, s) + u.num * before
  }

  lemma NatProduct(a: nat, b: nat)
    ensures a * b >= 0
  {
  }

  /** The row-pointer table follows the last weight. */
  function TableAt(u: Units, s: Shape): nat
  {
    NeuronsEnd(u, s) + u.num * Sum(WeightCounts(s))
  }

  /** Row `i` of the dataset; `i == rows` gives the end of the block. */
  function RowAt(u: Units, s: Shape, i: nat): nat
  {
    TableAt(u, s) + u.ptr * s.rows + u.num * (i * s.cols)
  }

  function LayoutEnd(u: Units, s: Shape): nat { RowAt(u, s, s.rows) }

  // Create's single size sum.

  /** Neuron-record bytes of layers `1..k-1` of the configuration. */
  function NeuronBytes(u: Units, config: seq<nat>, k: nat): nat
    requires k <= |config|
  {
    if k <= 1 then 0 else NeuronBytes(u, config, k - 1) + u.neuRec * config[k - 1]
  }

  /** Weight bytes of layers `1..k-1` of the configuration. */
  function WeightBytes(u: Units, config: seq<nat>, k: nat): nat
    requires k <= |config|
  {
    if k <= 1 then 0 else WeightBytes(u, config, k - 1) + u.num * config[k - 1] * config[k - 2]
  }

  /** Dataset bytes: one row pointer per row plus the numbers of every row,
      each row holding the inputs and the outputs. */
  function DataBytes(u: Units, config: seq<nat>, rows: nat): nat
    requires |config| >= 2
  {
    u.ptr * rows + u.num * rows * (config[0] + config[|config| - 1])
  }

  /** The total size Create allocates for a configuration and row count. */
  function CreateSize(u: Units, config: seq<nat>, rows: nat): nat
    requires |config| >= 2
  {
    u.header
    + u.num * config[0]
    + u.layRec * (|config| - 1)
    + NeuronBytes(u, config, |config|)
    + WeightBytes(u, config, |config|)
    + DataBytes(u, config, rows)
  }

  /** The sizes Create stores for a configuration: layer `l` has
      `config[l + 1]` neurons of `config[l]` weights each. */
  function ConfigShape(config: seq<nat>, rows: nat): (s: Shape)
    requires |config| >= 2
    ensures s.LayLen() == |config| - 1
    ensures forall l :: 0 <= l < |config| - 1 ==> s.NeuLen(l) == config[l + 1]
  {
    Shape(config[0],
          seq(|config| - 1, l requires 0 <= l < |config| - 1 => Repeat(config[l + 1], config[l])),
          rows,
          config[0] + config[|config| - 1])
  }

  // The block as a list of consecutive regions.

  /** The lengths of the regions in placement order: header, input vector,
      layer records, one neuron block per layer, one weight block per neuron
      (across layer boundaries), the row-pointer table, one block per row. */
  function Blocks(u: Units, s: Shape): (r: seq<nat>)
    ensures |r| == 3 + s.LayLen() + Sum(NeuronCounts(s)) + 1 + s.rows
  {
    FlattenLength(LayerWeightBlocks(u, s));
    assert Lens(LayerWeightBlocks(u, s)) == NeuronCounts(s);
    HeadBlocks(u, s) + NeuronBlocks(u, s) + WeightBlocks(u, s) + [u.ptr * s.rows] + RowBlocks(u, s)
  }

  function HeadBlocks(u: Units, s: Shape): seq<nat>
  {
    [u.header, u.num * s.inpLen, u.layRec * s.LayLen()]
  }

  function NeuronBlocks(u: Units, s: Shape): seq<nat>
  {
    Scale(NeuronCounts(s), u.neuRec)
  }

  /** The weight blocks of each layer, one per neuron. */
  function LayerWeightBlocks(u: Units, s: Shape): seq<seq<nat>>
  {
    seq(s.LayLen(), l requires 0 <= l < s.LayLen() => Scale(s.weiLens[l], u.num))
  }

  function WeightBlocks(u: Units, s: Shape): seq<nat>
  {
    Flatten(LayerWeightBlocks(u, s))
  }

  function RowBlocks(u: Units, s: Shape): seq<nat>
  {
    Repeat(s.rows, u.num * s.cols)
  }

  /** Region `k` starts where the regions before it end. */
  function BlockStart(u: Units, s: Shape, k: nat): nat
  {
    var b := Blocks(u, s);
    if k <= |b| then Sum(b[..k]) else Sum(b)
  }

  /** Index, among the weight blocks, of neuron `n` of layer `l`. */
  function NeuronIndex(s: Shape, l: nat, n: nat): nat
    requires l < s.LayLen()
  {
    Sum(NeuronCounts(s)[..l]) + n
  }

  // Index of each kind of region in Blocks.
  function NeuronBlock(l: nat): nat { 3 + l }

  function WeightBlock(s: Shape, l: nat, n: nat): nat
    requires l < s.LayLen()
  {
    3 + s.LayLen() + NeuronIndex(s, l, n)
  }

  function TableBlock(s: Shape): nat { 3 + s.LayLen() + Sum(NeuronCounts(s)) }

  function RowBlock(s: Shape, i: nat): nat { TableBlock(s) + 1 + i }
}
