/** The block image Save writes and Load reads back, at slot granularity.
    Every record or number occupies as many slots as its unit width; its
    first slot holds the typed content and the others are padding. */
module Persistence {
  import opened Sums
  import opened Layout
  import opened LayoutProofs
  import opened Outcomes
  import opened Network
  import opened Placement

  /** One slot of the image. */
  datatype Cell =
    | HeadCell(isChanged: bool, actFunc: int, eps: real, step: real, structureSize: nat,
               inpLen: nat, layLen: nat, rows: nat, cols: nat)
    | LayCell(bias: real, neuLen: nat)
    | NeuCell(value: real, weiLen: nat)
    | NumCell(x: real)
    | PtrCell
    | Pad

  function Pads(n: nat): (r: seq<Cell>)
    ensures |r| == n
  {
    seq(n, _ => Pad)
  }

  /** Each cell of `xs` followed by the padding that fills its width `w`. */
  function Spread(xs: seq<Cell>, w: nat): (r: seq<Cell>)
    requires w >= 1
    ensures |r| == w * |xs|
  {
    if |xs| == 0 then []
    else
      assert w * |xs| == w + w * (|xs| - 1);
      [xs[0]] + Pads(w - 1) + Spread(xs[1..], w)
  }

  function Nums(xs: seq<real>): (r: seq<Cell>)
    ensures |r| == |xs|
    ensures forall i :: 0 <= i < |xs| ==> r[i] == NumCell(xs[i])
  {
    seq(|xs|, i requires 0 <= i < |xs| => NumCell(xs[i]))
  }

  // Encoding a network.

  /** The header record: every scalar field, the sizes included. */
  function HeadOf(net: Net): Cell
  {
    HeadCell(net.isChanged, net.actFunc, net.eps, net.step, net.structureSize,
             |net.inputs|, net.LayLen(), |net.data.cells|, net.data.cols)
  }

  function LayCells(net: Net): (r: seq<Cell>)
    requires Aligned(net)
    ensures |r| == net.LayLen()
  {
    seq(net.LayLen(), l requires 0 <= l < net.LayLen() => LayCell(net.biases[l], net.NeuLen(l)))
  }

  function NeuCells(net: Net, l: nat): (r: seq<Cell>)
    requires Aligned(net) && l < net.LayLen()
    ensures |r| == net.NeuLen(l)
  {
    seq(net.NeuLen(l), n requires 0 <= n < net.NeuLen(l) => NeuCell(net.values[l][n], |net.weights[l][n]|))
  }

  function HeadCellBlocks(u: Units, net: Net): (r: seq<seq<Cell>>)
    requires u.Valid() && Aligned(net)
    ensures |r| == 3
  {
    [Spread([HeadOf(net)], u.header), Spread(Nums(net.inputs), u.num), Spread(LayCells(net), u.layRec)]
  }

  function NeuronCellBlocks(u: Units, net: Net): (r: seq<seq<Cell>>)
    requires u.Valid() && Aligned(net)
    ensures |r| == net.LayLen()
  {
    seq(net.LayLen(), l requires 0 <= l < net.LayLen() => Spread(NeuCells(net, l), u.neuRec))
  }

  /** The weight blocks of each layer, one per neuron. */
  function LayerWeightCells(u: Units, net: Net): (r: seq<seq<seq<Cell>>>)
    requires u.Valid()
    ensures |r| == net.LayLen()
    ensures forall l :: 0 <= l < net.LayLen() ==> |r[l]| == net.NeuLen(l)
  {
    seq(net.LayLen(), l requires 0 <= l < net.LayLen() =>
      seq(net.NeuLen(l), n requires 0 <= n < net.NeuLen(l) => Spread(Nums(net.weights[l][n]), u.num)))
  }

  function RowCellBlocks(u: Units, net: Net): (r: seq<seq<Cell>>)
    requires u.Valid()
    ensures |r| == |net.data.cells|
  {
    seq(|net.data.cells|, i requires 0 <= i < |net.data.cells| => Spread(Nums(net.data.cells[i]), u.num))
  }

  function TableCells(u: Units, net: Net): seq<Cell>
    requires u.Valid()
  {
    Spread(seq(|net.data.cells|, _ => PtrCell), u.ptr)
  }

  /** The regions of the image in placement order, as `Blocks` lists them. */
  function CellBlocks(u: Units, net: Net): seq<seq<Cell>>
    requires u.Valid() && Aligned(net)
  {
    HeadCellBlocks(u, net) + NeuronCellBlocks(u, net) + Flatten(LayerWeightCells(u, net))
    + [TableCells(u, net)] + RowCellBlocks(u, net)
  }

  /** The block of a network, slot by slot: what Save writes. */
  function Encode(u: Units, net: Net): seq<Cell>
    requires u.Valid() && Aligned(net)
  {
    Flatten(CellBlocks(u, net))
  }

  // Where each cell of the encoding lands.

  lemma {:induction false} HeadCellLens(u: Units, net: Net)
    requires u.Valid() && Aligned(net)
    ensures Lens(HeadCellBlocks(u, net)) == HeadBlocks(u, ShapeOf(net))
  {
  }

  lemma {:induction false} NeuronCellLens(u: Units, net: Net)
    requires u.Valid() && Aligned(net)
    ensures Lens(NeuronCellBlocks(u, net)) == NeuronBlocks(u, ShapeOf(net))
  {
    var s := ShapeOf(net);
    assert forall l :: 0 <= l < net.LayLen() ==> Lens(NeuronCellBlocks(u, net))[l] == NeuronBlocks(u, s)[l];
  }

  lemma {:induction false} WeightCellLens(u: Units, net: Net)
    requires u.Valid() && Aligned(net)
    ensures Lens(Flatten(LayerWeightCells(u, net))) == WeightBlocks(u, ShapeOf(net))
  {
    var s := ShapeOf(net);
    var wc := LayerWeightCells(u, net);
    LensFlatten(wc);
    forall l | 0 <= l < net.LayLen()
      ensures LensEach(wc)[l] == LayerWeightBlocks(u, s)[l]
    {
      assert forall n :: 0 <= n < net.NeuLen(l) ==> Lens(wc[l])[n] == Scale(s.weiLens[l], u.num)[n];
    }
    assert LensEach(wc) == LayerWeightBlocks(u, s);
  }

  lemma {:induction false} RowCellLens(u: Units, net: Net)
    requires u.Valid() && Shaped(net)
    ensures Lens(RowCellBlocks(u, net)) == RowBlocks(u, ShapeOf(net))
  {
    var s := ShapeOf(net);
    assert forall i :: 0 <= i < s.rows ==> Lens(RowCellBlocks(u, net))[i] == RowBlocks(u, s)[i];
  }

  /** The encoding's regions have exactly the lengths the layout gives. */
  lemma {:induction false} CellBlockLens(u: Units, net: Net)
    requires u.Valid() && Shaped(net)
    ensures Lens(CellBlocks(u, net)) == Blocks(u, ShapeOf(net))
  {
    var s := ShapeOf(net);
    var h := HeadCellBlocks(u, net);
    var nb := NeuronCellBlocks(u, net);
    var wb := Flatten(LayerWeightCells(u, net));
    var tb := [TableCells(u, net)];
    var rb := RowCellBlocks(u, net);
    HeadCellLens(u, net);
    NeuronCellLens(u, net);
    WeightCellLens(u, net);
    RowCellLens(u, net);
    assert Lens(tb) == [u.ptr * s.rows];
    LensConcat(h, nb);
    LensConcat(h + nb, wb);
    LensConcat(h + nb + wb, tb);
    LensConcat(h + nb + wb + tb, rb);
  }

  // Reading an image back, region by region.

  /** The first cell of `xs`, or padding past its end. */
  function First(xs: seq<Cell>): Cell
  {
    if |xs| > 0 then xs[0] else Pad
  }

  /** `xs` without its first `n` cells; empty once they run out. */
  function Drop(xs: seq<Cell>, n: nat): seq<Cell>
  {
    if n <= |xs| then xs[n..] else []
  }

  /** The first `n` cells of `xs`, padded past its end. */
  function Take(xs: seq<Cell>, n: nat): (r: seq<Cell>)
    ensures |r| == n
  {
    if n <= |xs| then xs[..n] else xs + Pads(n - |xs|)
  }

  /** The leading cell of each of `n` consecutive records of width `w`. */
  function Unspread(xs: seq<Cell>, w: nat, n: nat): (r: seq<Cell>)
    requires w >= 1
    ensures |r| == n
    decreases n
  {
    if n == 0 then [] else [First(xs)] + Unspread(Drop(xs, w), w, n - 1)
  }

  /** Reading records back from their spread form gives the records. */
  lemma {:induction false} UnspreadSpread(xs: seq<Cell>, w: nat)
    requires w >= 1
    ensures Unspread(Spread(xs, w), w, |xs|) == xs
  {
    if |xs| > 0 {
      var sp := Spread(xs, w);
      var lead := [xs[0]] + Pads(w - 1);
      assert sp == lead + Spread(xs[1..], w);
      assert First(sp) == xs[0];
      assert Drop(sp, w) == Spread(xs[1..], w);
      UnspreadSpread(xs[1..], w);
    }
  }

  /** `xs` cut into consecutive regions of the given lengths: region `k`
      starts where the lengths before it add up to. */
  function Cut(xs: seq<Cell>, lens: seq<nat>): (r: seq<seq<Cell>>)
    ensures |r| == |lens|
  {
    seq(|lens|, k requires 0 <= k < |lens| => Take(Drop(xs, Sum(lens[..k])), lens[k]))
  }

  /** Region `k` of a cut, or nothing past the last. */
  function Region(regs: seq<seq<Cell>>, k: nat): seq<Cell>
  {
    if k < |regs| then regs[k] else []
  }

  /** Within a long enough image, region `k` of a cut is the slice that
      starts after the regions before it. */
  lemma {:induction false} CutAt(xs: seq<Cell>, lens: seq<nat>, k: nat)
    requires Sum(lens) <= |xs| && k < |lens|
    ensures Sum(lens[..k]) + lens[k] <= |xs|
    ensures Cut(xs, lens)[k] == xs[Sum(lens[..k])..Sum(lens[..k]) + lens[k]]
  {
    SumPrefixStep(lens, k);
    SumPrefixMonotone(lens, k + 1, |lens|);
    SumAll(lens);
    var p := Sum(lens[..k]);
    assert Drop(xs, p) == xs[p..];
    assert xs[p..][..lens[k]] == xs[p..p + lens[k]];
  }

  /** Cutting at fewer lengths gives the leading regions of the full cut. */
  lemma {:induction false} CutPrefixLens(xs: seq<Cell>, lens: seq<nat>, m: nat)
    requires m <= |lens|
    ensures Cut(xs, lens[..m]) == Cut(xs, lens)[..m]
  {
    forall k | 0 <= k < m
      ensures Cut(xs, lens[..m])[k] == Cut(xs, lens)[k]
    {
      assert lens[..m][..k] == lens[..k];
    }
  }

  lemma {:induction false} FlattenRegion(cb: seq<seq<Cell>>, rest: seq<Cell>, k: nat)
    requires k < |cb|
    ensures Take(Drop(Flatten(cb) + rest, Sum(Lens(cb)[..k])), |cb[k]|) == cb[k]
  {
    FlattenAround(cb, k);
    var before := Flatten(cb[..k]);
    FlattenLength(cb[..k]);
    assert Lens(cb[..k]) == Lens(cb)[..k];
    var tail := Flatten(cb[k + 1..]) + rest;
    assert Flatten(cb) + rest == before + (cb[k] + tail);
    assert Drop(before + (cb[k] + tail), |before|) == cb[k] + tail;
    assert Take(cb[k] + tail, |cb[k]|) == cb[k];
  }

  /** Cutting a concatenation at its parts' lengths gives the parts back,
      whatever follows them. */
  lemma {:induction false} CutFlatten(cb: seq<seq<Cell>>, rest: seq<Cell>)
    ensures Cut(Flatten(cb) + rest, Lens(cb)) == cb
  {
    forall k | 0 <= k < |cb|
      ensures Cut(Flatten(cb) + rest, Lens(cb))[k] == cb[k]
    {
      FlattenRegion(cb, rest, k);
    }
  }

  /** Cutting at the first `m` lengths gives the first `m` parts. */
  lemma {:induction false} CutPrefix(cb: seq<seq<Cell>>, m: nat)
    requires m <= |cb|
    ensures Cut(Flatten(cb), Lens(cb)[..m]) == cb[..m]
  {
    CutPrefixLens(Flatten(cb), Lens(cb), m);
    CutFlatten(cb, []);
    assert Flatten(cb) + [] == Flatten(cb);
  }

  // The regions of an encoded network.

  lemma {:induction false} WeightCellCounts(u: Units, net: Net)
    requires u.Valid() && Aligned(net)
    ensures Lens(LayerWeightCells(u, net)) == NeuronCounts(ShapeOf(net))
    ensures |Flatten(LayerWeightCells(u, net))| == Sum(NeuronCounts(ShapeOf(net)))
  {
    var wc := LayerWeightCells(u, net);
    assert forall l :: 0 <= l < |wc| ==> Lens(wc)[l] == NeuronCounts(ShapeOf(net))[l];
    LensFlatten(wc);
    FlattenLength(LayerWeightCells(u, net));
  }

  lemma {:induction false} HeadRegions(u: Units, net: Net)
    requires u.Valid() && Aligned(net)
    ensures |CellBlocks(u, net)| > 2
    ensures CellBlocks(u, net)[0] == Spread([HeadOf(net)], u.header)
    ensures CellBlocks(u, net)[1] == Spread(Nums(net.inputs), u.num)
    ensures CellBlocks(u, net)[2] == Spread(LayCells(net), u.layRec)
  {
  }

  lemma {:induction false} NeuronRegion(u: Units, net: Net, l: nat)
    requires u.Valid() && Aligned(net) && l < net.LayLen()
    ensures NeuronBlock(l) < |CellBlocks(u, net)|
    ensures CellBlocks(u, net)[NeuronBlock(l)] == Spread(NeuCells(net, l), u.neuRec)
  {
  }

  lemma {:induction false} WeightRegion(u: Units, net: Net, l: nat, n: nat)
    requires u.Valid() && Aligned(net) && l < net.LayLen() && n < net.NeuLen(l)
    ensures WeightBlock(ShapeOf(net), l, n) < |CellBlocks(u, net)|
    ensures CellBlocks(u, net)[WeightBlock(ShapeOf(net), l, n)] == Spread(Nums(net.weights[l][n]), u.num)
  {
    var wc := LayerWeightCells(u, net);
    var hn := HeadCellBlocks(u, net) + NeuronCellBlocks(u, net);
    WeightCellCounts(u, net);
    FlattenIndexOf(wc, l, n);
    PartIndex(hn, Flatten(wc), [TableCells(u, net)] + RowCellBlocks(u, net), NeuronIndex(ShapeOf(net), l, n));
  }

  /** Part `n` of group `l` of a flattened grouping. */
  lemma {:induction false} FlattenIndexOf(xss: seq<seq<seq<Cell>>>, l: nat, n: nat)
    requires l < |xss| && n < |xss[l]|
    ensures Sum(Lens(xss)[..l]) + n < |Flatten(xss)|
    ensures Flatten(xss)[Sum(Lens(xss)[..l]) + n] == xss[l][n]
  {
    FlattenIndex(xss, l, n);
  }

  /** Indexing into the middle part of a three-part concatenation. */
  lemma PartIndex(a: seq<seq<Cell>>, b: seq<seq<Cell>>, c: seq<seq<Cell>>, j: nat)
    requires j < |b|
    ensures |a| + j < |a + b + c| && (a + b + c)[|a| + j] == b[j]
  {
  }

  lemma {:induction false} RowRegion(u: Units, net: Net, i: nat)
    requires u.Valid() && Aligned(net) && i < |net.data.cells|
    ensures RowBlock(ShapeOf(net), i) < |CellBlocks(u, net)|
    ensures CellBlocks(u, net)[RowBlock(ShapeOf(net), i)] == Spread(Nums(net.data.cells[i]), u.num)
  {
    var hnw := HeadCellBlocks(u, net) + NeuronCellBlocks(u, net) + Flatten(LayerWeightCells(u, net));
    WeightCellCounts(u, net);
    assert |hnw + [TableCells(u, net)]| == RowBlock(ShapeOf(net), 0);
    PartIndex(hnw + [TableCells(u, net)], RowCellBlocks(u, net), [], i);
  }

  // Decoding: the header first, then the sizes it leads to, then the rest.

  /** A number slot read as a number; anything else reads as zero. */
  function NumOf(c: Cell): real
  {
    if c.NumCell? then c.x else 0.0
  }

  /** `n` numbers of width `w` read from the front of a region. */
  function Reals(region: seq<Cell>, w: nat, n: nat): (r: seq<real>)
    requires w >= 1
    ensures |r| == n
  {
    var cs := Unspread(region, w, n);
    seq(n, i requires 0 <= i < n => NumOf(cs[i]))
  }

  /** The header an all-zero block would hold. */
  const BlankHeader: Cell := HeadCell(false, 0, 0.0, 0.0, 0, 0, 0, 0, 0)

  /** The header record of an image. */
  function HeaderOf(image: seq<Cell>): (h: Cell)
    ensures h.HeadCell?
  {
    if |image| > 0 && image[0].HeadCell? then image[0] else BlankHeader
  }

  function LayerOf(c: Cell): (r: Cell)
    ensures r.LayCell?
  {
    if c.LayCell? then c else LayCell(0.0, 0)
  }

  function NeuronOf(c: Cell): (r: Cell)
    ensures r.NeuCell?
  {
    if c.NeuCell? then c else NeuCell(0.0, 0)
  }

  /** The shape a header and a list of neuron counts fix, with every
      weight count still zero: enough to place the layer and neuron
      records. */
  function CountsShape(h: Cell, counts: seq<nat>): (s: Shape)
    requires h.HeadCell?
    ensures s.inpLen == h.inpLen && s.rows == h.rows && s.cols == h.cols
    ensures NeuronCounts(s) == counts
  {
    var s := Shape(h.inpLen, seq(|counts|, l requires 0 <= l < |counts| => Repeat(counts[l], 0)), h.rows, h.cols);
    assert forall l :: 0 <= l < |counts| ==> NeuronCounts(s)[l] == counts[l];
    s
  }

  /** `neuLen` of every layer record of an image. */
  function StoredCounts(u: Units, image: seq<Cell>): (r: seq<nat>)
    requires u.Valid()
    ensures |r| == HeaderOf(image).layLen
  {
    var h := HeaderOf(image);
    var regs := Cut(image, HeadBlocks(u, CountsShape(h, Repeat(h.layLen, 0))));
    var lays := Unspread(Region(regs, 2), u.layRec, h.layLen);
    seq(h.layLen, l requires 0 <= l < h.layLen => LayerOf(lays[l]).neuLen)
  }

  /** `weiLen` of each of `n` neuron records of a region. */
  function StoredWeiLens(u: Units, region: seq<Cell>, n: nat): (r: seq<nat>)
    requires u.Valid()
    ensures |r| == n
  {
    var recs := Unspread(region, u.neuRec, n);
    seq(n, i requires 0 <= i < n => NeuronOf(recs[i]).weiLen)
  }

  /** The sizes an image records: the header's, each layer record's
      `neuLen` and each neuron record's `weiLen`, read in that order as
      Load's re-derivation walks them. */
  function StoredShape(u: Units, image: seq<Cell>): (s: Shape)
    requires u.Valid()
    ensures s.inpLen == HeaderOf(image).inpLen && s.rows == HeaderOf(image).rows && s.cols == HeaderOf(image).cols
    ensures NeuronCounts(s) == StoredCounts(u, image)
  {
    var h := HeaderOf(image);
    var counts := StoredCounts(u, image);
    var s1 := CountsShape(h, counts);
    var regs := Cut(image, HeadBlocks(u, s1) + NeuronBlocks(u, s1));
    var s := Shape(h.inpLen,
          seq(|counts|, l requires 0 <= l < |counts| => StoredWeiLens(u, Region(regs, NeuronBlock(l)), counts[l])),
          h.rows, h.cols);
    assert forall l :: 0 <= l < |counts| ==> NeuronCounts(s)[l] == counts[l];
    s
  }

  function StoredBiases(u: Units, region: seq<Cell>, n: nat): (r: seq<real>)
    requires u.Valid()
    ensures |r| == n
  {
    var recs := Unspread(region, u.layRec, n);
    seq(n, l requires 0 <= l < n => LayerOf(recs[l]).bias)
  }

  function StoredValues(u: Units, region: seq<Cell>, n: nat): (r: seq<real>)
    requires u.Valid()
    ensures |r| == n
  {
    var recs := Unspread(region, u.neuRec, n);
    seq(n, i requires 0 <= i < n => NeuronOf(recs[i]).value)
  }

  /** The weight vectors of layer `l`, one per neuron, each as long as
      the shape says. */
  function StoredWeights(u: Units, regs: seq<seq<Cell>>, s: Shape, l: nat): (r: seq<seq<real>>)
    requires u.Valid() && l < s.LayLen()
    ensures |r| == |s.weiLens[l]|
    ensures forall n :: 0 <= n < |r| ==> |r[n]| == s.weiLens[l][n]
  {
    seq(s.NeuLen(l), n requires 0 <= n < s.NeuLen(l) =>
      Reals(Region(regs, WeightBlock(s, l, n)), u.num, s.weiLens[l][n]))
  }

  function StoredWeightsAll(u: Units, regs: seq<seq<Cell>>, s: Shape): (r: seq<seq<seq<real>>>)
    requires u.Valid()
    ensures WeightLens(r) == s.weiLens
  {
    var r := seq(s.LayLen(), l requires 0 <= l < s.LayLen() => StoredWeights(u, regs, s, l));
    WeightLensOfShape(r, s);
    r
  }

  function StoredValuesAll(u: Units, regs: seq<seq<Cell>>, s: Shape): (r: seq<seq<real>>)
    requires u.Valid()
    ensures |r| == s.LayLen()
    ensures forall l :: 0 <= l < |r| ==> |r[l]| == |s.weiLens[l]|
  {
    seq(s.LayLen(), l requires 0 <= l < s.LayLen() => StoredValues(u, Region(regs, NeuronBlock(l)), s.NeuLen(l)))
  }

  function StoredRows(u: Units, regs: seq<seq<Cell>>, s: Shape): (r: seq<seq<real>>)
    requires u.Valid()
    ensures |r| == s.rows
    ensures forall i :: 0 <= i < s.rows ==> |r[i]| == s.cols
  {
    seq(s.rows, i requires 0 <= i < s.rows => Reals(Region(regs, RowBlock(s, i)), u.num, s.cols))
  }

  /** The network an image holds once its regions are placed by `s`: every
      field read from the region the layout puts it in, with the dirty
      flag cleared as Load leaves it. */
  function Decode(u: Units, image: seq<Cell>, s: Shape): (net: Net)
    requires u.Valid()
    ensures Aligned(net) && !net.isChanged
    ensures ShapeOf(net) == s
    ensures forall i :: 0 <= i < |net.data.cells| ==> |net.data.cells[i]| == net.data.cols
  {
    var h := HeaderOf(image);
    var regs := Cut(image, Blocks(u, s));
    var weights := StoredWeightsAll(u, regs, s);
    Net(false, h.actFunc, h.eps, h.step, h.structureSize,
        Reals(Region(regs, 1), u.num, s.inpLen),
        StoredBiases(u, Region(regs, 2), s.LayLen()),
        StoredValuesAll(u, regs, s),
        weights,
        Dataset(StoredRows(u, regs, s), s.cols))
  }

  /** Weight vectors whose lengths follow a shape have that shape's
      weight counts. */
  lemma WeightLensOfShape(ws: seq<seq<seq<real>>>, s: Shape)
    requires |ws| == s.LayLen()
    requires forall l :: 0 <= l < |ws| ==> |ws[l]| == |s.weiLens[l]|
    requires forall l, n :: 0 <= l < |ws| && 0 <= n < |ws[l]| ==> |ws[l][n]| == s.weiLens[l][n]
    ensures WeightLens(ws) == s.weiLens
  {
    var wl := WeightLens(ws);
    forall l | 0 <= l < |ws|
      ensures wl[l] == s.weiLens[l]
    {
    }
  }

  // Decoding what Save wrote gives the network back.

  lemma {:induction false} RealsNums(xs: seq<real>, w: nat)
    requires w >= 1
    ensures Reals(Spread(Nums(xs), w), w, |xs|) == xs
  {
    UnspreadSpread(Nums(xs), w);
  }

  /** Cut at the layout's block lengths, an encoding falls back into the
      regions it was built from. */
  lemma {:induction false} EncodeRegions(u: Units, net: Net)
    requires u.Valid() && Shaped(net)
    ensures Cut(Encode(u, net), Blocks(u, ShapeOf(net))) == CellBlocks(u, net)
  {
    var cb := CellBlocks(u, net);
    CellBlockLens(u, net);
    CutFlatten(cb, []);
    assert Flatten(cb) + [] == Flatten(cb);
  }

  /** The first `m` regions, found from the first `m` block lengths alone. */
  lemma {:induction false} EncodePrefixRegions(u: Units, net: Net, m: nat)
    requires u.Valid() && Shaped(net) && m <= 3 + net.LayLen()
    ensures Cut(Encode(u, net), Blocks(u, ShapeOf(net))[..m]) == CellBlocks(u, net)[..m]
  {
    CellBlockLens(u, net);
    CutPrefix(CellBlocks(u, net), m);
  }

  /** The header and neuron regions of an encoding, found from the head
      and neuron block lengths. */
  lemma {:induction false} EncodeRecordRegions(u: Units, net: Net)
    requires u.Valid() && Shaped(net)
    ensures Cut(Encode(u, net), HeadBlocks(u, ShapeOf(net))) == HeadCellBlocks(u, net)
    ensures Cut(Encode(u, net), HeadBlocks(u, ShapeOf(net)) + NeuronBlocks(u, ShapeOf(net)))
         == HeadCellBlocks(u, net) + NeuronCellBlocks(u, net)
  {
    var s := ShapeOf(net);
    BlocksPrefixes(u, s);
    EncodePrefixRegions(u, net, 3);
    EncodePrefixRegions(u, net, 3 + s.LayLen());
    CellBlocksPrefixes(u, net);
  }

  lemma {:induction false} BlocksPrefixes(u: Units, s: Shape)
    ensures Blocks(u, s)[..3] == HeadBlocks(u, s)
    ensures Blocks(u, s)[..3 + s.LayLen()] == HeadBlocks(u, s) + NeuronBlocks(u, s)
  {
    var hn := HeadBlocks(u, s) + NeuronBlocks(u, s);
    assert Blocks(u, s) == hn + (WeightBlocks(u, s) + [u.ptr * s.rows] + RowBlocks(u, s));
  }

  lemma {:induction false} CellBlocksPrefixes(u: Units, net: Net)
    requires u.Valid() && Aligned(net)
    ensures CellBlocks(u, net)[..3] == HeadCellBlocks(u, net)
    ensures CellBlocks(u, net)[..3 + net.LayLen()] == HeadCellBlocks(u, net) + NeuronCellBlocks(u, net)
  {
    var hn := HeadCellBlocks(u, net) + NeuronCellBlocks(u, net);
    assert CellBlocks(u, net) == hn + (Flatten(LayerWeightCells(u, net)) + [TableCells(u, net)] + RowCellBlocks(u, net));
  }

  lemma {:induction false} HeaderOfEncode(u: Units, net: Net)
    requires u.Valid() && Aligned(net)
    ensures HeaderOf(Encode(u, net)) == HeadOf(net)
  {
    var cb := CellBlocks(u, net);
    HeadRegions(u, net);
    FlattenFront(cb);
    assert cb[0][0] == HeadOf(net);
  }

  /** The layer counts of any image whose layer region holds `lays`. */
  lemma {:induction false} StoredCountsOf(u: Units, image: seq<Cell>, heads: seq<seq<Cell>>, lays: seq<Cell>)
    requires u.Valid()
    requires Cut(image, HeadBlocks(u, CountsShape(HeaderOf(image), Repeat(HeaderOf(image).layLen, 0)))) == heads
    requires heads[2] == Spread(lays, u.layRec) && |lays| == HeaderOf(image).layLen
    ensures StoredCounts(u, image) == LayerCounts(lays)
  {
    UnspreadSpread(lays, u.layRec);
  }

  /** The `neuLen` of each of a sequence of layer records. */
  function LayerCounts(lays: seq<Cell>): (r: seq<nat>)
    ensures |r| == |lays|
  {
    seq(|lays|, l requires 0 <= l < |lays| => LayerOf(lays[l]).neuLen)
  }

  lemma {:induction false} LayerCountsOf(net: Net)
    requires Aligned(net)
    ensures LayerCounts(LayCells(net)) == NeuronCounts(ShapeOf(net))
  {
    var r := LayerCounts(LayCells(net));
    assert forall l :: 0 <= l < |r| ==> r[l] == NeuronCounts(ShapeOf(net))[l];
  }

  lemma {:induction false} StoredCountsOfEncode(u: Units, net: Net)
    requires u.Valid() && Shaped(net)
    ensures StoredCounts(u, Encode(u, net)) == NeuronCounts(ShapeOf(net))
  {
    var s := ShapeOf(net);
    HeaderOfEncode(u, net);
    var h := HeadOf(net);
    assert HeadBlocks(u, CountsShape(h, Repeat(h.layLen, 0))) == HeadBlocks(u, s);
    EncodeRecordRegions(u, net);
    StoredCountsOf(u, Encode(u, net), HeadCellBlocks(u, net), LayCells(net));
    LayerCountsOf(net);
  }

  /** The sizes of any image whose layer counts are `counts` and whose
      neuron regions hold `neus`. */
  lemma {:induction false} StoredShapeOf(u: Units, image: seq<Cell>, counts: seq<nat>, regs: seq<seq<Cell>>, neus: seq<seq<Cell>>)
    requires u.Valid()
    requires StoredCounts(u, image) == counts
    requires Cut(image, HeadBlocks(u, CountsShape(HeaderOf(image), counts)) + NeuronBlocks(u, CountsShape(HeaderOf(image), counts))) == regs
    requires |neus| == |counts| && |regs| == 3 + |counts|
    requires forall l :: 0 <= l < |counts| ==> regs[3 + l] == Spread(neus[l], u.neuRec) && |neus[l]| == counts[l]
    ensures StoredShape(u, image)
         == Shape(HeaderOf(image).inpLen, NeuronWeiLens(neus), HeaderOf(image).rows, HeaderOf(image).cols)
  {
    var wl := StoredShape(u, image).weiLens;
    forall l | 0 <= l < |counts|
      ensures wl[l] == NeuronWeiLens(neus)[l]
    {
      UnspreadSpread(neus[l], u.neuRec);
    }
  }

  /** The `weiLen` of each neuron record of each layer. */
  function NeuronWeiLens(neus: seq<seq<Cell>>): (r: seq<seq<nat>>)
    ensures |r| == |neus|
    ensures forall l :: 0 <= l < |neus| ==> |r[l]| == |neus[l]|
  {
    seq(|neus|, l requires 0 <= l < |neus| =>
      seq(|neus[l]|, n requires 0 <= n < |neus[l]| => NeuronOf(neus[l][n]).weiLen))
  }

  function NeuCellsEach(net: Net): (r: seq<seq<Cell>>)
    requires Aligned(net)
    ensures |r| == net.LayLen()
    ensures forall l :: 0 <= l < net.LayLen() ==> r[l] == NeuCells(net, l)
  {
    seq(net.LayLen(), l requires 0 <= l < net.LayLen() => NeuCells(net, l))
  }

  lemma {:induction false} NeuronWeiLensOf(net: Net)
    requires Aligned(net)
    ensures NeuronWeiLens(NeuCellsEach(net)) == ShapeOf(net).weiLens
  {
    var r := NeuronWeiLens(NeuCellsEach(net));
    forall l | 0 <= l < |r|
      ensures r[l] == ShapeOf(net).weiLens[l]
    {
      assert forall n :: 0 <= n < |r[l]| ==> r[l][n] == ShapeOf(net).weiLens[l][n];
    }
  }

  /** The sizes Load reads back from an encoding are the network's own. */
  lemma {:induction false} StoredShapeOfEncode(u: Units, net: Net)
    requires u.Valid() && Shaped(net)
    ensures StoredShape(u, Encode(u, net)) == ShapeOf(net)
  {
    var s := ShapeOf(net);
    HeaderOfEncode(u, net);
    StoredCountsOfEncode(u, net);
    var h := HeadOf(net);
    var s1 := CountsShape(h, NeuronCounts(s));
    assert HeadBlocks(u, s1) + NeuronBlocks(u, s1) == HeadBlocks(u, s) + NeuronBlocks(u, s);
    EncodeRecordRegions(u, net);
    NeuronRegionsOf(u, net);
    StoredShapeOf(u, Encode(u, net), NeuronCounts(s), HeadCellBlocks(u, net) + NeuronCellBlocks(u, net), NeuCellsEach(net));
    NeuronWeiLensOf(net);
  }

  lemma {:induction false} NeuronRegionsOf(u: Units, net: Net)
    requires u.Valid() && Aligned(net)
    ensures |HeadCellBlocks(u, net) + NeuronCellBlocks(u, net)| == 3 + |NeuronCounts(ShapeOf(net))|
    ensures forall l :: 0 <= l < |NeuronCounts(ShapeOf(net))| ==>
              && (HeadCellBlocks(u, net) + NeuronCellBlocks(u, net))[3 + l] == Spread(NeuCellsEach(net)[l], u.neuRec)
              && |NeuCellsEach(net)[l]| == NeuronCounts(ShapeOf(net))[l]
  {
  }

  lemma {:induction false} InputsOfCells(u: Units, net: Net)
    requires u.Valid() && Aligned(net)
    ensures Reals(Region(CellBlocks(u, net), 1), u.num, |net.inputs|) == net.inputs
  {
    HeadRegions(u, net);
    RealsNums(net.inputs, u.num);
  }

  lemma {:induction false} BiasesOfCells(u: Units, net: Net)
    requires u.Valid() && Aligned(net)
    ensures StoredBiases(u, Region(CellBlocks(u, net), 2), net.LayLen()) == net.biases
  {
    HeadRegions(u, net);
    UnspreadSpread(LayCells(net), u.layRec);
    var r := StoredBiases(u, Region(CellBlocks(u, net), 2), net.LayLen());
    assert forall l :: 0 <= l < |r| ==> r[l] == net.biases[l];
  }

  lemma {:induction false} ValuesOfCells(u: Units, net: Net)
    requires u.Valid() && Aligned(net)
    ensures StoredValuesAll(u, CellBlocks(u, net), ShapeOf(net)) == net.values
  {
    var r := StoredValuesAll(u, CellBlocks(u, net), ShapeOf(net));
    forall l | 0 <= l < |r|
      ensures r[l] == net.values[l]
    {
      NeuronRegion(u, net, l);
      UnspreadSpread(NeuCells(net, l), u.neuRec);
      assert forall n :: 0 <= n < |r[l]| ==> r[l][n] == net.values[l][n];
    }
  }

  lemma {:induction false} WeightsOfCells(u: Units, net: Net)
    requires u.Valid() && Aligned(net)
    ensures StoredWeightsAll(u, CellBlocks(u, net), ShapeOf(net)) == net.weights
  {
    var s := ShapeOf(net);
    var r := StoredWeightsAll(u, CellBlocks(u, net), s);
    forall l | 0 <= l < |r|
      ensures r[l] == net.weights[l]
    {
      forall n | 0 <= n < |r[l]|
        ensures r[l][n] == net.weights[l][n]
      {
        WeightRegion(u, net, l, n);
        RealsNums(net.weights[l][n], u.num);
      }
    }
  }

  lemma {:induction false} RowsOfCells(u: Units, net: Net)
    requires u.Valid() && Shaped(net)
    ensures StoredRows(u, CellBlocks(u, net), ShapeOf(net)) == net.data.cells
  {
    var r := StoredRows(u, CellBlocks(u, net), ShapeOf(net));
    forall i | 0 <= i < |r|
      ensures r[i] == net.data.cells[i]
    {
      RowRegion(u, net, i);
      RealsNums(net.data.cells[i], u.num);
    }
  }

  /** Decoding an encoding at the network's own shape gives the network
      back, with only the dirty flag cleared. */
  lemma {:induction false} DecodeEncode(u: Units, net: Net)
    requires u.Valid() && Shaped(net)
    ensures Decode(u, Encode(u, net), ShapeOf(net)) == net.(isChanged := false)
  {
    EncodeRegions(u, net);
    HeaderOfEncode(u, net);
    InputsOfCells(u, net);
    BiasesOfCells(u, net);
    ValuesOfCells(u, net);
    WeightsOfCells(u, net);
    RowsOfCells(u, net);
  }

  // Reading depends only on the cells read.

  /** A cut that ends within the first `m` cells sees only those cells. */
  lemma {:induction false} CutOfPrefix(xs: seq<Cell>, lens: seq<nat>, m: nat)
    requires Sum(lens) <= m <= |xs|
    ensures Cut(xs[..m], lens) == Cut(xs, lens)
  {
    forall k | 0 <= k < |lens|
      ensures Cut(xs[..m], lens)[k] == Cut(xs, lens)[k]
    {
      CutAt(xs, lens, k);
      CutAt(xs[..m], lens, k);
    }
  }

  lemma {:induction false} StoredCountsPrefix(u: Units, image: seq<Cell>, m: nat)
    requires u.Valid() && 1 <= m <= |image| && NeuronsEnd(u, StoredShape(u, image)) <= m
    ensures HeaderOf(image[..m]) == HeaderOf(image)
    ensures StoredCounts(u, image[..m]) == StoredCounts(u, image)
  {
    var h := HeaderOf(image);
    assert image[..m][0] == image[0];
    var s0 := CountsShape(h, Repeat(h.layLen, 0));
    HeadSums(u, s0);
    SameNeuronsEnd(u, s0, CountsShape(h, StoredCounts(u, image)));
    SameNeuronsEnd(u, CountsShape(h, StoredCounts(u, image)), StoredShape(u, image));
    CutOfPrefix(image, HeadBlocks(u, s0), m);
  }

  /** Where the records end depends only on the input width and the
      neuron counts; the layer records end before it. */
  lemma {:induction false} SameNeuronsEnd(u: Units, a: Shape, b: Shape)
    requires a.inpLen == b.inpLen && |NeuronCounts(a)| == |NeuronCounts(b)|
    ensures NeuronsAt(u, a, 0) == NeuronsAt(u, b, 0) <= NeuronsEnd(u, b)
    ensures NeuronCounts(a) == NeuronCounts(b) ==> NeuronsEnd(u, a) == NeuronsEnd(u, b)
  {
    assert NeuronCounts(b)[..0] == [];
    assert NeuronCounts(a)[..0] == [];
    assert NeuronCounts(b)[..b.LayLen()] == NeuronCounts(b);
    assert NeuronCounts(a)[..a.LayLen()] == NeuronCounts(a);
    NatProduct(u.neuRec, Sum(NeuronCounts(b)));
  }

  /** The sizes read from an image lie in its header, layer and neuron
      records: any longer prefix reads the same. */
  lemma {:induction false} StoredShapePrefix(u: Units, image: seq<Cell>, m: nat)
    requires u.Valid() && 1 <= m <= |image| && NeuronsEnd(u, StoredShape(u, image)) <= m
    ensures StoredShape(u, image[..m]) == StoredShape(u, image)
  {
    var h := HeaderOf(image);
    StoredCountsPrefix(u, image, m);
    var s1 := CountsShape(h, StoredCounts(u, image));
    HeadNeuronSum(u, s1);
    SameNeuronsEnd(u, s1, StoredShape(u, image));
    CutOfPrefix(image, HeadBlocks(u, s1) + NeuronBlocks(u, s1), m);
  }

  /** An encoding is exactly as long as the layout of the network. */
  lemma {:induction false} EncodeLength(u: Units, net: Net)
    requires u.Valid() && Shaped(net)
    ensures |Encode(u, net)| == LayoutEnd(u, ShapeOf(net))
  {
    var b := Blocks(u, ShapeOf(net));
    CellBlockLens(u, net);
    FlattenLength(CellBlocks(u, net));
    BlocksTile(u, ShapeOf(net));
    SumAll(b);
  }
}
