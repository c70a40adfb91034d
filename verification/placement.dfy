/** The reference derivation Create performs when it places each region,
    and Load repeats after reading a block back: every reference is computed
    from the stored sizes by offsetting from the end of the region before. */
module Placement {
  import opened Layout
  import opened LayoutProofs

  /** Every internal reference of a block, as slot offsets: the input
      vector, the layer records, each layer's neuron records, each neuron's
      weights, the row-pointer table and the rows it points to. */
  datatype Refs = Refs(inputs: nat, lays: nat, neurons: seq<nat>, weights: seq<seq<nat>>,
                       data: nat, rowPtrs: seq<nat>)

  /** The sizes the chained derivation can walk: at least one layer and no
      empty layer (it reads the last neuron of the layer before). */
  predicate Walkable(s: Shape)
  {
    s.LayLen() >= 1 && forall l :: 0 <= l < s.LayLen() ==> s.NeuLen(l) >= 1
  }

  /** The references of a block, computed as closed forms. */
  predicate RefsMatchLayout(u: Units, s: Shape, r: Refs)
  {
    && r.inputs == InputsAt(u)
    && r.lays == LayersAt(u, s)
    && |r.neurons| == s.LayLen()
    && (forall l :: 0 <= l < s.LayLen() ==> r.neurons[l] == NeuronsAt(u, s, l))
    && |r.weights| == s.LayLen()
    && (forall l :: 0 <= l < s.LayLen() ==> |r.weights[l]| == s.NeuLen(l))
    && (forall l, n :: 0 <= l < s.LayLen() && 0 <= n < s.NeuLen(l) ==> r.weights[l][n] == WeightsAt(u, s, l, n))
    && r.data == TableAt(u, s)
    && |r.rowPtrs| == s.rows
    && (forall i :: 0 <= i < s.rows ==> r.rowPtrs[i] == RowAt(u, s, i))
  }

  /** Layer 0's neuron records follow the layer records, and each later
      layer's follow the previous layer's. */
  method DeriveNeurons(u: Units, s: Shape, lays: nat) returns (neurons: seq<nat>)
    requires lays == LayersAt(u, s)
    ensures |neurons| == s.LayLen()
    ensures forall l :: 0 <= l < s.LayLen() ==> neurons[l] == NeuronsAt(u, s, l)
  {
    var L := s.LayLen();
    neurons := [];
    var lay := 0;
    while lay < L
      invariant 0 <= lay <= L
      invariant |neurons| == lay
      invariant forall l :: 0 <= l < lay ==> neurons[l] == NeuronsAt(u, s, l)
    {
      var at: nat;
      if lay == 0 {
        assert NeuronCounts(s)[..0] == [];
        at := lays + u.layRec * L;
      } else {
        NeuronsStep(u, s, lay - 1);
        at := neurons[lay - 1] + u.neuRec * s.NeuLen(lay - 1);
      }
      neurons := neurons + [at];
      lay := lay + 1;
    }
  }

  /** The weights of the neurons of layer `lay`, each following the
      previous neuron's; the first follows `start`. */
  method DeriveLayerWeights(u: Units, s: Shape, lay: nat, start: nat) returns (row: seq<nat>)
    requires lay < s.LayLen()
    requires start == WeightsAt(u, s, lay, 0)
    ensures |row| == s.NeuLen(lay)
    ensures forall n :: 0 <= n < s.NeuLen(lay) ==> row[n] == WeightsAt(u, s, lay, n)
  {
    row := [];
    var neu := 0;
    while neu < s.NeuLen(lay)
      invariant 0 <= neu <= s.NeuLen(lay)
      invariant |row| == neu
      invariant forall n :: 0 <= n < neu ==> row[n] == WeightsAt(u, s, lay, n)
    {
      var at;
      if neu == 0 {
        at := start;
      } else {
        WeightsStep(u, s, lay, neu - 1);
        at := row[neu - 1] + u.num * s.weiLens[lay][neu - 1];
      }
      row := row + [at];
      neu := neu + 1;
    }
  }

  lemma FirstWeights(u: Units, s: Shape)
    requires Walkable(s)
    ensures WeightsAt(u, s, 0, 0) == NeuronsAt(u, s, s.LayLen() - 1) + u.neuRec * s.NeuLen(s.LayLen() - 1)
  {
    NeuronsStep(u, s, s.LayLen() - 1);
    assert s.weiLens[0][..0] == [];
    assert WeightCounts(s)[..0] == [];
  }

  lemma NextLayerWeights(u: Units, s: Shape, l: nat)
    requires Walkable(s) && l + 1 < s.LayLen()
    ensures WeightsAt(u, s, l + 1, 0)
         == WeightsAt(u, s, l, s.NeuLen(l) - 1) + u.num * s.weiLens[l][s.NeuLen(l) - 1]
  {
    WeightsStep(u, s, l, s.NeuLen(l) - 1);
    WeightsLayerStep(u, s, l);
  }

  /** The first weights follow the last neuron record; each layer's first
      weights follow the last weights of the layer before. */
  method DeriveWeights(u: Units, s: Shape, neurons: seq<nat>) returns (weights: seq<seq<nat>>)
    requires Walkable(s)
    requires |neurons| == s.LayLen()
    requires forall l :: 0 <= l < s.LayLen() ==> neurons[l] == NeuronsAt(u, s, l)
    ensures |weights| == s.LayLen()
    ensures forall l :: 0 <= l < s.LayLen() ==> |weights[l]| == s.NeuLen(l)
    ensures forall l, n :: 0 <= l < s.LayLen() && 0 <= n < s.NeuLen(l) ==> weights[l][n] == WeightsAt(u, s, l, n)
  {
    var L := s.LayLen();
    weights := [];
    var lay := 0;
    while lay < L
      invariant 0 <= lay <= L
      invariant |weights| == lay
      invariant forall l :: 0 <= l < lay ==> |weights[l]| == s.NeuLen(l)
      invariant forall l, n :: 0 <= l < lay && 0 <= n < s.NeuLen(l) ==> weights[l][n] == WeightsAt(u, s, l, n)
    {
      var start;
      if lay == 0 {
        FirstWeights(u, s);
        start := neurons[L - 1] + u.neuRec * s.NeuLen(L - 1);
      } else {
        var last := s.NeuLen(lay - 1) - 1;
        NextLayerWeights(u, s, lay - 1);
        start := weights[lay - 1][last] + u.num * s.weiLens[lay - 1][last];
      }
      var row := DeriveLayerWeights(u, s, lay, start);
      weights := weights + [row];
      lay := lay + 1;
    }
  }

  /** The row loop: row `i` starts past the row-pointer table of `rows`
      pointers, `i` rows of `cols` numbers further on. */
  method DeriveRows(u: Units, s: Shape, data: nat) returns (rowPtrs: seq<nat>)
    requires data == TableAt(u, s)
    ensures |rowPtrs| == s.rows
    ensures forall i :: 0 <= i < s.rows ==> rowPtrs[i] == RowAt(u, s, i)
    ensures forall i :: 0 < i < s.rows ==> rowPtrs[i] == rowPtrs[i - 1] + u.num * s.cols
  {
    rowPtrs := [];
    var i := 0;
    while i < s.rows
      invariant 0 <= i <= s.rows
      invariant |rowPtrs| == i
      invariant forall k :: 0 <= k < i ==> rowPtrs[k] == RowAt(u, s, k)
    {
      NatProduct(i, s.cols);
      NatProduct(u.num, i * s.cols);
      NatProduct(u.ptr, s.rows);
      var at := data + u.ptr * s.rows + u.num * (i * s.cols);
      rowPtrs := rowPtrs + [at];
      i := i + 1;
    }
    forall i | 0 < i < s.rows
      ensures rowPtrs[i] == rowPtrs[i - 1] + u.num * s.cols
    {
      RowStep(u, s, i - 1);
    }
  }

  /** The whole chained derivation Create performs and Load repeats: it
      yields exactly the closed-form layout of the stored sizes. */
  method DeriveRefs(u: Units, s: Shape) returns (r: Refs)
    requires Walkable(s)
    ensures RefsMatchLayout(u, s, r)
  {
    var L := s.LayLen();
    var inputs := u.header;
    var lays := inputs + u.num * s.inpLen;
    var neurons := DeriveNeurons(u, s, lays);
    var weights := DeriveWeights(u, s, neurons);
    var lastNeu := s.NeuLen(L - 1) - 1;
    WeightsStep(u, s, L - 1, lastNeu);
    TableAfterWeights(u, s);
    var data := weights[L - 1][lastNeu] + u.num * s.weiLens[L - 1][lastNeu];
    var rowPtrs := DeriveRows(u, s, data);
    r := Refs(inputs, lays, neurons, weights, data, rowPtrs);
  }
}
