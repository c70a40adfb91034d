/** Facts about the arena layout: each region is placed right after the
    previous one, the regions never overlap, and the last row ends exactly
    at the size Create computes. */
module LayoutProofs {
  import opened Sums
  import opened Layout

  lemma {:induction false} NeuronsStep(u: Units, s: Shape, l: nat)
    requires l < s.LayLen()
    ensures NeuronsAt(u, s, l + 1) == NeuronsAt(u, s, l) + u.neuRec * s.NeuLen(l)
  {
    var nc := NeuronCounts(s);
    SumPrefixStep(nc, l);
    MulDistributes(u.neuRec, Sum(nc[..l]), nc[l]);
  }

  lemma {:induction false} WeightsStep(u: Units, s: Shape, l: nat, n: nat)
    requires l < s.LayLen() && n < s.NeuLen(l)
    ensures WeightsAt(u, s, l, n + 1) == WeightsAt(u, s, l, n) + u.num * s.weiLens[l][n]
  {
    var ws := s.weiLens[l];
    var before := Sum(WeightCounts(s)[..l]);
    SumPrefixStep(ws, n);
    MulDistributes(u.num, before + Sum(ws[..n]), ws[n]);
  }

  lemma {:induction false} WeightsLayerStep(u: Units, s: Shape, l: nat)
    requires l + 1 < s.LayLen()
    ensures WeightsAt(u, s, l + 1, 0) == WeightsAt(u, s, l, s.NeuLen(l))
  {
    var wc := WeightCounts(s);
    SumPrefixStep(wc, l);
    assert s.weiLens[l + 1][..0] == [];
    assert s.weiLens[l][..s.NeuLen(l)] == s.weiLens[l];
  }

  lemma {:induction false} TableAfterWeights(u: Units, s: Shape)
    requires s.LayLen() > 0
    ensures TableAt(u, s) == WeightsAt(u, s, s.LayLen() - 1, s.NeuLen(s.LayLen() - 1))
  {
    var wc := WeightCounts(s);
    var k := s.LayLen() - 1;
    SumPrefixStep(wc, k);
    assert s.weiLens[k][..s.NeuLen(k)] == s.weiLens[k];
    SumAll(wc);
  }

  lemma {:induction false} RowStep(u: Units, s: Shape, i: nat)
    ensures RowAt(u, s, i + 1) == RowAt(u, s, i) + u.num * s.cols
  {
    assert (i + 1) * s.cols == i * s.cols + s.cols;
    MulDistributes(u.num, i * s.cols, s.cols);
  }

  /** The chain of placements Create and Load perform: every region starts
      where the previous one ends. */
  lemma {:induction false} PlacementChain(u: Units, s: Shape)
    ensures LayersAt(u, s) == u.header + u.num * s.inpLen
    ensures NeuronsAt(u, s, 0) == LayersAt(u, s) + u.layRec * s.LayLen()
    ensures forall l :: 0 <= l < s.LayLen() ==>
              NeuronsAt(u, s, l + 1) == NeuronsAt(u, s, l) + u.neuRec * s.NeuLen(l)
    ensures forall l, n :: 0 <= l < s.LayLen() && 0 <= n < s.NeuLen(l) ==>
              WeightsAt(u, s, l, n + 1) == WeightsAt(u, s, l, n) + u.num * s.weiLens[l][n]
    ensures s.LayLen() > 0 ==> WeightsAt(u, s, 0, 0) == NeuronsEnd(u, s)
    ensures forall l :: 0 <= l < s.LayLen() - 1 ==>
              WeightsAt(u, s, l + 1, 0) == WeightsAt(u, s, l, s.NeuLen(l))
    ensures s.LayLen() > 0 ==> TableAt(u, s) == WeightsAt(u, s, s.LayLen() - 1, s.NeuLen(s.LayLen() - 1))
    ensures RowAt(u, s, 0) == TableAt(u, s) + u.ptr * s.rows
    ensures forall i :: 0 <= i < s.rows ==> RowAt(u, s, i + 1) == RowAt(u, s, i) + u.num * s.cols
  {
    assert NeuronCounts(s)[..0] == [];
    forall l | 0 <= l < s.LayLen() {
      NeuronsStep(u, s, l);
    }
    forall l, n | 0 <= l < s.LayLen() && 0 <= n < s.NeuLen(l) {
      WeightsStep(u, s, l, n);
    }
    if s.LayLen() > 0 {
      assert s.weiLens[0][..0] == [];
      assert WeightCounts(s)[..0] == [];
      TableAfterWeights(u, s);
    }
    forall l | 0 <= l < s.LayLen() - 1 {
      WeightsLayerStep(u, s, l);
    }
    forall i | 0 <= i < s.rows {
      RowStep(u, s, i);
    }
  }

  /** Layer `l` contributes one weight block per neuron. */
  lemma WeightBlockLens(u: Units, s: Shape)
    ensures Lens(LayerWeightBlocks(u, s)) == NeuronCounts(s)
  {
    var wb := LayerWeightBlocks(u, s);
    assert |Lens(wb)| == |NeuronCounts(s)|;
    forall l | 0 <= l < |wb|
      ensures Lens(wb)[l] == NeuronCounts(s)[l]
    {
    }
  }

  lemma {:induction false} WeightBlocksSums(u: Units, s: Shape)
    ensures Lens(LayerWeightBlocks(u, s)) == NeuronCounts(s)
    ensures SumEach(LayerWeightBlocks(u, s)) == Scale(WeightCounts(s), u.num)
    ensures Sum(WeightBlocks(u, s)) == u.num * Sum(WeightCounts(s))
    ensures |WeightBlocks(u, s)| == Sum(NeuronCounts(s))
  {
    var wb := LayerWeightBlocks(u, s);
    WeightBlockLens(u, s);
    forall l | 0 <= l < |wb|
      ensures Sum(wb[l]) == u.num * Sum(s.weiLens[l])
    {
      SumScale(s.weiLens[l], u.num);
    }
    assert SumEach(wb) == Scale(WeightCounts(s), u.num);
    SumFlatten(wb);
    SumScale(WeightCounts(s), u.num);
    FlattenLength(wb);
  }

  lemma {:induction false} HeadSums(u: Units, s: Shape)
    ensures Sum(HeadBlocks(u, s)) == NeuronsAt(u, s, 0)
    ensures Sum(HeadBlocks(u, s)[..1]) == InputsAt(u)
    ensures Sum(HeadBlocks(u, s)[..2]) == LayersAt(u, s)
  {
    var h := HeadBlocks(u, s);
    assert h[..0] == [];
    SumPrefixStep(h, 0);
    SumPrefixStep(h, 1);
    SumPrefixStep(h, 2);
    SumAll(h);
    assert NeuronCounts(s)[..0] == [];
  }

  lemma {:induction false} NeuronBlockStart(u: Units, s: Shape, l: nat)
    requires l <= s.LayLen()
    ensures BlockStart(u, s, NeuronBlock(l)) == NeuronsAt(u, s, l)
  {
    var h := HeadBlocks(u, s);
    var nb := NeuronBlocks(u, s);
    var rest := WeightBlocks(u, s) + [u.ptr * s.rows] + RowBlocks(u, s);
    assert Blocks(u, s) == h + nb + rest;
    SumPrefixInPart(h, nb, rest, l);
    SumScalePrefix(NeuronCounts(s), u.neuRec, l);
    HeadSums(u, s);
  }

  lemma {:induction false} HeadNeuronSum(u: Units, s: Shape)
    ensures Sum(HeadBlocks(u, s) + NeuronBlocks(u, s)) == NeuronsEnd(u, s)
    ensures |HeadBlocks(u, s) + NeuronBlocks(u, s)| == 3 + s.LayLen()
  {
    SumConcat(HeadBlocks(u, s), NeuronBlocks(u, s));
    HeadSums(u, s);
    SumScale(NeuronCounts(s), u.neuRec);
    SumAll(NeuronCounts(s));
  }

  /** The weight blocks before neuron `n` of layer `l`: the blocks of the
      earlier layers, then the first `n` blocks of layer `l`. */
  lemma {:induction false} WeightPrefixSplit(u: Units, s: Shape, l: nat, n: nat)
    requires l < s.LayLen() && n <= s.NeuLen(l)
    ensures NeuronIndex(s, l, n) <= |WeightBlocks(u, s)|
    ensures Sum(WeightBlocks(u, s)[..NeuronIndex(s, l, n)])
         == Sum(SumEach(LayerWeightBlocks(u, s))[..l]) + Sum(LayerWeightBlocks(u, s)[l][..n])
  {
    WeightBlockLens(u, s);
    SumFlattenPrefix(LayerWeightBlocks(u, s), l, n);
  }

  /** Every neuron, and the end of every layer, has a weight block index. */
  lemma {:induction false} WeightIndexBound(u: Units, s: Shape, l: nat, n: nat)
    requires l < s.LayLen() && n <= s.NeuLen(l)
    ensures NeuronIndex(s, l, n) <= |WeightBlocks(u, s)|
  {
    WeightPrefixSplit(u, s, l, n);
  }

  /** The weight blocks before neuron `n` of layer `l` add up to the
      weights of the earlier layers and neurons, in number slots. */
  lemma {:induction false} WeightPrefixSum(u: Units, s: Shape, l: nat, n: nat)
    requires l < s.LayLen() && n <= s.NeuLen(l)
    ensures NeuronIndex(s, l, n) <= |WeightBlocks(u, s)|
    ensures Sum(WeightBlocks(u, s)[..NeuronIndex(s, l, n)])
         == u.num * (Sum(WeightCounts(s)[..l]) + Sum(s.weiLens[l][..n]))
  {
    var wb := LayerWeightBlocks(u, s);
    WeightPrefixSplit(u, s, l, n);
    WeightBlocksSums(u, s);
    SumScalePrefix(WeightCounts(s), u.num, l);
    assert wb[l] == Scale(s.weiLens[l], u.num);
    SumScalePrefix(s.weiLens[l], u.num, n);
    MulDistributes(u.num, Sum(WeightCounts(s)[..l]), Sum(s.weiLens[l][..n]));
  }

  /** The block list cut around the weight blocks. */
  lemma {:induction false} BlocksAroundWeights(u: Units, s: Shape)
    ensures Blocks(u, s) == (HeadBlocks(u, s) + NeuronBlocks(u, s)) + WeightBlocks(u, s)
                            + ([u.ptr * s.rows] + RowBlocks(u, s))
  {
  }

  /** The start of a weight block: the head and neuron blocks, then the
      weight blocks before it. */
  lemma {:induction false} WeightBlockParts(u: Units, s: Shape, l: nat, n: nat)
    requires l < s.LayLen() && n <= s.NeuLen(l)
    ensures NeuronIndex(s, l, n) <= |WeightBlocks(u, s)|
    ensures BlockStart(u, s, WeightBlock(s, l, n))
         == Sum(HeadBlocks(u, s) + NeuronBlocks(u, s)) + Sum(WeightBlocks(u, s)[..NeuronIndex(s, l, n)])
  {
    var hn := HeadBlocks(u, s) + NeuronBlocks(u, s);
    var fw := WeightBlocks(u, s);
    var rest := [u.ptr * s.rows] + RowBlocks(u, s);
    BlocksAroundWeights(u, s);
    WeightIndexBound(u, s, l, n);
    HeadNeuronSum(u, s);
    SumPrefixInPart(hn, fw, rest, NeuronIndex(s, l, n));
  }

  lemma {:induction false} WeightBlockStart(u: Units, s: Shape, l: nat, n: nat)
    requires l < s.LayLen() && n <= s.NeuLen(l)
    ensures BlockStart(u, s, WeightBlock(s, l, n)) == WeightsAt(u, s, l, n)
  {
    WeightBlockParts(u, s, l, n);
    WeightPrefixSum(u, s, l, n);
    HeadNeuronSum(u, s);
  }

  lemma {:induction false} TableSum(u: Units, s: Shape)
    ensures Sum(HeadBlocks(u, s) + NeuronBlocks(u, s) + WeightBlocks(u, s)) == TableAt(u, s)
    ensures |HeadBlocks(u, s) + NeuronBlocks(u, s) + WeightBlocks(u, s)| == TableBlock(s)
  {
    HeadNeuronSum(u, s);
    WeightBlocksSums(u, s);
    SumConcat(HeadBlocks(u, s) + NeuronBlocks(u, s), WeightBlocks(u, s));
  }

  /** Row 0 starts right after the row-pointer table. */
  lemma {:induction false} TableRowStart(u: Units, s: Shape)
    ensures Sum(HeadBlocks(u, s) + NeuronBlocks(u, s) + WeightBlocks(u, s) + [u.ptr * s.rows]) == RowAt(u, s, 0)
  {
    var hnw := HeadBlocks(u, s) + NeuronBlocks(u, s) + WeightBlocks(u, s);
    TableSum(u, s);
    var one: seq<nat> := [u.ptr * s.rows];
    assert Sum(one) == u.ptr * s.rows by {
      assert one[..0] == [];
    }
    SumConcat(hnw, one);
  }

  lemma {:induction false} RowBlockStart(u: Units, s: Shape, i: nat)
    requires i <= s.rows
    ensures BlockStart(u, s, RowBlock(s, i)) == RowAt(u, s, i)
  {
    var ht := HeadBlocks(u, s) + NeuronBlocks(u, s) + WeightBlocks(u, s) + [u.ptr * s.rows];
    var rb := RowBlocks(u, s);
    assert Blocks(u, s) == ht + rb + [];
    TableRowStart(u, s);
    SumPrefixInPart(ht, rb, [], i);
    SumRepeatPrefix(s.rows, u.num * s.cols, i);
    RowArith(u.num, i, s.cols);
  }

  lemma RowArith(num: nat, i: nat, cols: nat)
    ensures i * (num * cols) == num * (i * cols)
  {
  }

  /** Every region of the block starts at the closed-form offset of the
      thing it holds, and together the regions cover exactly `LayoutEnd`. */
  lemma {:induction false} BlocksMatchOffsets(u: Units, s: Shape)
    ensures |Blocks(u, s)| == RowBlock(s, s.rows)
    ensures BlockStart(u, s, 1) == InputsAt(u)
    ensures BlockStart(u, s, 2) == LayersAt(u, s)
    ensures forall l :: 0 <= l <= s.LayLen() ==> BlockStart(u, s, NeuronBlock(l)) == NeuronsAt(u, s, l)
    ensures forall l, n :: 0 <= l < s.LayLen() && 0 <= n <= s.NeuLen(l) ==>
              BlockStart(u, s, WeightBlock(s, l, n)) == WeightsAt(u, s, l, n)
    ensures BlockStart(u, s, TableBlock(s)) == TableAt(u, s)
    ensures forall i :: 0 <= i <= s.rows ==> BlockStart(u, s, RowBlock(s, i)) == RowAt(u, s, i)
    ensures Sum(Blocks(u, s)) == LayoutEnd(u, s)
  {
    var b := Blocks(u, s);
    var h := HeadBlocks(u, s);
    HeadSums(u, s);
    assert b[..1] == h[..1] && b[..2] == h[..2];
    TableSum(u, s);
    forall l | 0 <= l <= s.LayLen() {
      NeuronBlockStart(u, s, l);
    }
    forall l, n | 0 <= l < s.LayLen() && 0 <= n <= s.NeuLen(l) {
      WeightBlockStart(u, s, l, n);
    }
    assert b[..TableBlock(s)] == HeadBlocks(u, s) + NeuronBlocks(u, s) + WeightBlocks(u, s);
    WeightBlocksSums(u, s);
    HeadNeuronSum(u, s);
    SumConcat(HeadBlocks(u, s) + NeuronBlocks(u, s), WeightBlocks(u, s));
    forall i | 0 <= i <= s.rows {
      RowBlockStart(u, s, i);
    }
    assert b[..RowBlock(s, s.rows)] == b;
  }

  /** The regions together are exactly `LayoutEnd` cells long. */
  lemma BlocksSum(u: Units, s: Shape)
    ensures Sum(Blocks(u, s)) == LayoutEnd(u, s)
  {
    BlocksMatchOffsets(u, s);
  }

  /** The regions are pairwise disjoint, each follows the previous with no
      gap, the first starts at slot 0 and the last ends at `LayoutEnd`. */
  lemma {:induction false} BlocksTile(u: Units, s: Shape)
    ensures BlockStart(u, s, 0) == 0
    ensures forall k :: 0 <= k < |Blocks(u, s)| ==>
              BlockStart(u, s, k + 1) == BlockStart(u, s, k) + Blocks(u, s)[k]
    ensures forall i, j :: 0 <= i < j < |Blocks(u, s)| ==>
              BlockStart(u, s, i) + Blocks(u, s)[i] <= BlockStart(u, s, j)
    ensures BlockStart(u, s, |Blocks(u, s)|) == LayoutEnd(u, s)
  {
    var b := Blocks(u, s);
    assert b[..0] == [];
    forall k | 0 <= k < |b|
      ensures BlockStart(u, s, k + 1) == BlockStart(u, s, k) + b[k]
    {
      SumPrefixStep(b, k);
    }
    forall i, j | 0 <= i < j < |b|
      ensures BlockStart(u, s, i) + b[i] <= BlockStart(u, s, j)
    {
      PrefixRegionsDisjoint(b, i, j);
    }
    BlocksMatchOffsets(u, s);
    SumAll(b);
  }

  /** Create's one-shot size sum equals the end of the last row of the
      layout it then builds: the block is filled exactly. */
  lemma {:induction false} CreateSizeFits(u: Units, config: seq<nat>, rows: nat)
    requires |config| >= 2
    ensures LayoutEnd(u, ConfigShape(config, rows)) == CreateSize(u, config, rows)
  {
    var s := ConfigShape(config, rows);
    ConfigRecordSums(u, config, rows);
    DataBytesIsRows(u, config, rows);
    var dataPart := u.num * (rows * s.cols);
    assert dataPart == u.num * (rows * (config[0] + config[|config| - 1]));
    assert LayoutEnd(u, s) == TableAt(u, s) + u.ptr * rows + dataPart;
    assert DataBytes(u, config, rows) == u.ptr * rows + dataPart;
  }

  /** The neuron and weight records of a configuration's layout take the
      bytes Create's loop adds up. */
  lemma {:induction false} ConfigRecordSums(u: Units, config: seq<nat>, rows: nat)
    requires |config| >= 2
    ensures NeuronsEnd(u, ConfigShape(config, rows))
         == u.header + u.num * config[0] + u.layRec * (|config| - 1) + NeuronBytes(u, config, |config|)
    ensures TableAt(u, ConfigShape(config, rows))
         == NeuronsEnd(u, ConfigShape(config, rows)) + WeightBytes(u, config, |config|)
  {
    var s := ConfigShape(config, rows);
    NeuronByteSum(u, config, NeuronCounts(s), |config|);
    ConfigWeightCounts(config, rows);
    WeightByteSum(u, config, WeightCounts(s), |config|);
    SumAll(WeightCounts(s));
  }

  lemma {:induction false} ConfigWeightCount(config: seq<nat>, rows: nat, l: nat)
    requires |config| >= 2 && l < |config| - 1
    ensures WeightCounts(ConfigShape(config, rows))[l] == config[l + 1] * config[l]
  {
    var s := ConfigShape(config, rows);
    assert s.weiLens[l] == Repeat(config[l + 1], config[l]);
    SumRepeat(config[l + 1], config[l]);
  }

  lemma {:induction false} ConfigWeightCounts(config: seq<nat>, rows: nat)
    requires |config| >= 2
    ensures forall l :: 0 <= l < |config| - 1 ==>
              WeightCounts(ConfigShape(config, rows))[l] == config[l + 1] * config[l]
  {
    forall l | 0 <= l < |config| - 1 {
      ConfigWeightCount(config, rows, l);
    }
  }

  lemma DataBytesIsRows(u: Units, config: seq<nat>, rows: nat)
    requires |config| >= 2
    ensures DataBytes(u, config, rows) == u.ptr * rows + u.num * (rows * (config[0] + config[|config| - 1]))
  {
    MulAssoc(u.num, rows, config[0] + config[|config| - 1]);
  }

  lemma {:induction false} NeuronByteSum(u: Units, config: seq<nat>, nc: seq<nat>, k: nat)
    requires |nc| == |config| - 1 && 1 <= k <= |config|
    requires forall l :: 0 <= l < |nc| ==> nc[l] == config[l + 1]
    ensures NeuronBytes(u, config, k) == u.neuRec * Sum(nc[..k - 1])
  {
    if k == 1 {
      assert nc[..0] == [];
    } else {
      NeuronByteSum(u, config, nc, k - 1);
      SumPrefixStep(nc, k - 2);
      MulDistributes(u.neuRec, Sum(nc[..k - 2]), nc[k - 2]);
    }
  }

  lemma {:induction false} WeightByteSum(u: Units, config: seq<nat>, wc: seq<nat>, k: nat)
    requires |wc| == |config| - 1 && 1 <= k <= |config|
    requires forall l :: 0 <= l < |wc| ==> wc[l] == config[l + 1] * config[l]
    ensures WeightBytes(u, config, k) == u.num * Sum(wc[..k - 1])
  {
    if k == 1 {
      assert wc[..0] == [];
    } else {
      WeightByteSum(u, config, wc, k - 1);
      SumPrefixStep(wc, k - 2);
      MulDistributes(u.num, Sum(wc[..k - 2]), wc[k - 2]);
      MulAssoc(u.num, config[k - 1], config[k - 2]);
    }
  }

  /** A configuration with at least two positive widths and at least one
      row yields consistent sizes. */
  lemma ConfigShapeConsistent(config: seq<nat>, rows: nat)
    requires |config| >= 2 && rows >= 1
    requires forall i :: 0 <= i < |config| ==> config[i] >= 1
    ensures ConfigShape(config, rows).Consistent()
  {
  }
}
