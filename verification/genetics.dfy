/** The genetic-algorithm operators: weight mutation and weight
    crossing-over between two networks.  `rng(k)` is the `k`-th value
    `rand()` returns during the call. */
module Genetics {
  import opened Sums
  import opened Outcomes
  import opened Network
  import opened Construction

  // Mutation.

  /** `x` is a weight built from one of the call's draws, the way Create
      builds weights: `(1000 - k) / 1000` for some `0 <= k <= 2000`. */
  ghost predicate Drawn(x: real, rng: nat -> nat)
  {
    exists j: nat :: x == DrawnWeight(rng(j))
  }

  /** `r` is `ws` with some weights replaced by drawn ones. */
  ghost predicate MutatedFrom(ws: seq<real>, r: seq<real>, rng: nat -> nat)
  {
    |r| == |ws| && forall i :: 0 <= i < |ws| ==> r[i] == ws[i] || Drawn(r[i], rng)
  }

  /** The weight loop of one neuron, from draw `k` on: each weight takes a
      draw `rand() % width`, and a zero draw replaces the weight by one
      built from the draw after it.  Also gives the next unused draw. */
  function MutateNeuron(ws: seq<real>, width: nat, rng: nat -> nat, k: nat): (r: (seq<real>, nat))
    requires width >= 1
    ensures MutatedFrom(ws, r.0, rng)
    ensures k + |ws| <= r.1 <= k + 2 * |ws|
    decreases |ws|
  {
    if |ws| == 0 then ([], k)
    else
      var hit := rng(k) % width == 0;
      var w := if hit then DrawnWeight(rng(k + 1)) else ws[0];
      assert w == ws[0] || Drawn(w, rng) by {
        if hit { assert w == DrawnWeight(rng(k + 1)); }
      }
      var rest := MutateNeuron(ws[1..], width, rng, if hit then k + 2 else k + 1);
      ([w] + rest.0, rest.1)
  }

  /** The neuron loop of one layer; `width` is ten times the layer's
      neuron count. */
  function MutateLayer(wss: seq<seq<real>>, width: nat, rng: nat -> nat, k: nat): (r: (seq<seq<real>>, nat))
    requires |wss| > 0 ==> width >= 1
    ensures |r.0| == |wss|
    ensures forall n :: 0 <= n < |wss| ==> MutatedFrom(wss[n], r.0[n], rng)
    ensures r.1 >= k
    decreases |wss|
  {
    if |wss| == 0 then ([], k)
    else
      var first := MutateNeuron(wss[0], width, rng, k);
      var rest := MutateLayer(wss[1..], width, rng, first.1);
      ([first.0] + rest.0, rest.1)
  }

  /** The layer loop over every layer. */
  function MutateLayers(wsss: seq<seq<seq<real>>>, rng: nat -> nat, k: nat): (r: (seq<seq<seq<real>>>, nat))
    ensures |r.0| == |wsss|
    ensures forall l :: 0 <= l < |wsss| ==> |r.0[l]| == |wsss[l]|
    ensures forall l, n :: 0 <= l < |wsss| && 0 <= n < |wsss[l]| ==> MutatedFrom(wsss[l][n], r.0[l][n], rng)
    ensures r.1 >= k
    decreases |wsss|
  {
    if |wsss| == 0 then ([], k)
    else
      var first := MutateLayer(wsss[0], |wsss[0]| * 10, rng, k);
      var rest := MutateLayers(wsss[1..], rng, first.1);
      ([first.0] + rest.0, rest.1)
  }

  /** `CNNFW_Mutation` as written: the outer draw is taken modulo the
      probability before the probability is checked, so a probability of
      zero divides by zero. */
  function MutationAsWritten(h: Option<Net>, p: nat, rng: nat -> nat): (r: Outcome<Net>)
    ensures r.Fail? <==> h.None?
    ensures r.Undefined? <==> h.Some? && p == 0
    ensures !r.Undefined? ==> r == Mutation(h, p, rng)
  {
    if h.None? then Fail
    else if p == 0 then Undefined
    else Mutation(h, p, rng)
  }

  /** `CNNFW_Mutation` with a zero probability rejected.  With one chance
      in `p` (draw 0) every weight is visited and possibly replaced, and
      the network is marked changed; nothing but weights and the flag is
      written, and no size changes. */
  function Mutation(h: Option<Net>, p: nat, rng: nat -> nat): (r: Outcome<Net>)
    ensures r.Ok? <==> h.Some? && p >= 1
    ensures !r.Undefined?
    ensures r.Ok? ==> r.value.(weights := h.value.weights, isChanged := h.value.isChanged) == h.value
    ensures r.Ok? ==> (r.value.isChanged <==> h.value.isChanged || rng(0) % p == 0)
    ensures r.Ok? && rng(0) % p != 0 ==> r.value == h.value
    ensures r.Ok? ==> ShapeOf(r.value) == ShapeOf(h.value)
    ensures r.Ok? && Shaped(h.value) ==> Shaped(r.value)
    ensures r.Ok? ==> forall l, n :: 0 <= l < h.value.LayLen() && 0 <= n < h.value.NeuLen(l) ==>
                        MutatedFrom(h.value.weights[l][n], r.value.weights[l][n], rng)
  {
    if h.None? || p == 0 then Fail
    else
      var net := h.value;
      if rng(0) % p != 0 then Ok(net)
      else
        var ws := MutateLayers(net.weights, rng, 1).0;
        WeightLensOfSizes(ws, net.weights);
        Ok(net.(weights := ws, isChanged := true))
  }

  /** Every weight lies in [-1, 1], as Create leaves them. */
  ghost predicate UnitWeights(net: Net)
  {
    forall l, n, w :: 0 <= l < net.LayLen() && 0 <= n < net.NeuLen(l) && 0 <= w < |net.weights[l][n]| ==>
      -1.0 <= net.weights[l][n][w] <= 1.0
  }

  /** Mutation keeps every weight in [-1, 1]. */
  lemma MutationKeepsUnitWeights(net: Net, p: nat, rng: nat -> nat)
    requires UnitWeights(net) && p >= 1
    ensures Mutation(Some(net), p, rng).Ok?
    ensures UnitWeights(Mutation(Some(net), p, rng).value)
  {
    var r := Mutation(Some(net), p, rng).value;
    forall l, n, w | 0 <= l < r.LayLen() && 0 <= n < r.NeuLen(l) && 0 <= w < |r.weights[l][n]|
      ensures -1.0 <= r.weights[l][n][w] <= 1.0
    {
      assert MutatedFrom(net.weights[l][n], r.weights[l][n], rng);
      if r.weights[l][n][w] != net.weights[l][n][w] {
        var j: nat :| r.weights[l][n][w] == DrawnWeight(rng(j));
      }
    }
  }

  // Crossing-over.

  /** The coin `rand() % 2` of neuron `n` of layer `l`: one draw per
      neuron of the destination, in layer order. */
  function Coin(rng: nat -> nat, wss: seq<seq<seq<real>>>, l: nat, n: nat): (c: nat)
    requires l <= |wss|
    ensures c < 2
  {
    rng(Sum(Lens(wss)[..l]) + n) % 2
  }

  /** First index copied from the source in a neuron of `w` weights. */
  function CopyFrom(w: nat, c: nat): (i: nat)
    requires c < 2
    ensures i <= w / 2
  {
    (w / 2) * c
  }

  /** One past the last index copied from the source: the copied range
      always holds `w - w / 2` indices and never leaves the neuron. */
  function CopyTo(w: nat, c: nat): (i: nat)
    requires c < 2
    ensures CopyFrom(w, c) <= i <= w
    ensures i - CopyFrom(w, c) == w - w / 2
  {
    if c == 0 then w - w / 2 else w
  }

  /** The copy range of the C loop, `(w / 2) * c` up to
      `w - (w / 2) * (1 - c)`, is the one the two functions above give. */
  lemma CopyRange(w: nat, c: nat)
    requires c < 2
    ensures CopyFrom(w, c) == (w / 2) * c
    ensures CopyTo(w, c) == w - (w / 2) * (1 - c)
  {
  }

  /** For an odd weight count both coins copy the middle weight. */
  lemma HalvesOverlap(w: nat)
    requires w % 2 == 1
    ensures CopyFrom(w, 0) <= w / 2 < CopyTo(w, 0)
    ensures CopyFrom(w, 1) <= w / 2 < CopyTo(w, 1)
  {
  }

  /** `r` is `d` with the prefix (coin 0) or the suffix (coin 1) of length
      `|d| - |d| / 2` taken from `s`. */
  predicate HalfCopied(d: seq<real>, s: seq<real>, r: seq<real>, c: nat)
  {
    var half := |d| - |d| / 2;
    && |r| == |d| && |s| >= half
    && (c == 0 ==> r[..half] == s[..half] && r[half..] == d[half..])
    && (c == 1 ==> |s| >= |d| && r[..|d| / 2] == d[..|d| / 2] && r[|d| / 2..] == s[|d| / 2..|d|])
  }

  /** The weight loop of one neuron.  Every weight comes from one of the
      two parents, at the same position. */
  function CrossNeuron(d: seq<real>, s: seq<real>, c: nat): (r: seq<real>)
    requires c < 2 && CopyTo(|d|, c) <= |s|
    ensures HalfCopied(d, s, r, c)
    ensures forall i :: 0 <= i < |d| ==> r[i] == d[i] || (i < |s| && r[i] == s[i])
  {
    seq(|d|, i requires 0 <= i < |d| => if CopyFrom(|d|, c) <= i < CopyTo(|d|, c) then s[i] else d[i])
  }

  /** Every read the copy loops make from the source lies inside it. */
  predicate Readable(dw: seq<seq<seq<real>>>, sw: seq<seq<seq<real>>>, rng: nat -> nat)
  {
    && |dw| <= |sw|
    && (forall l :: 0 <= l < |dw| ==> |dw[l]| <= |sw[l]|)
    && forall l, n :: 0 <= l < |dw| && 0 <= n < |dw[l]| ==> CopyTo(|dw[l][n]|, Coin(rng, dw, l, n)) <= |sw[l][n]|
  }

  /** The copy loops over every neuron of the destination. */
  function CrossWeights(dw: seq<seq<seq<real>>>, sw: seq<seq<seq<real>>>, rng: nat -> nat): (r: seq<seq<seq<real>>>)
    requires Readable(dw, sw, rng)
    ensures |r| == |dw|
    ensures forall l :: 0 <= l < |dw| ==> |r[l]| == |dw[l]|
    ensures forall l, n :: 0 <= l < |dw| && 0 <= n < |dw[l]| ==> |r[l][n]| == |dw[l][n]|
    ensures forall l, n :: 0 <= l < |dw| && 0 <= n < |dw[l]| ==>
              HalfCopied(dw[l][n], sw[l][n], r[l][n], Coin(rng, dw, l, n))
    ensures forall l, n, i :: 0 <= l < |dw| && 0 <= n < |dw[l]| && 0 <= i < |dw[l][n]| ==>
              r[l][n][i] == dw[l][n][i] || (i < |sw[l][n]| && r[l][n][i] == sw[l][n][i])
  {
    seq(|dw|, l requires 0 <= l < |dw| =>
      seq(|dw[l]|, n requires 0 <= n < |dw[l]| => CrossNeuron(dw[l][n], sw[l][n], Coin(rng, dw, l, n))))
  }

  // The source as the copy loops address it, through raw pointers.

  /** The entry of the source's neuron records that `src->Lays[l].neurons[n]`
      names.  The records of all layers lie end to end, so an index past a
      layer's neurons names a record of a later layer. */
  function RecordIndex(sw: seq<seq<seq<real>>>, l: nat, n: nat): nat
    requires l <= |sw|
  {
    Sum(Lens(sw)[..l]) + n
  }

  /** The position in the source's weight region, every weight vector end
      to end, that `weights[i]` of neuron record `g` reads. */
  function ReadPos(sw: seq<seq<seq<real>>>, g: nat, i: nat): nat
    requires g < |Flatten(sw)|
  {
    Sum(Lens(Flatten(sw))[..g]) + i
  }

  /** The read of weight `i` through record `n` of layer `l` stays among
      the source's neuron records and inside its weight region. */
  predicate InRegion(sw: seq<seq<seq<real>>>, l: nat, n: nat, i: nat)
  {
    && l <= |sw|
    && RecordIndex(sw, l, n) < |Flatten(sw)|
    && ReadPos(sw, RecordIndex(sw, l, n), i) < |Flatten(Flatten(sw))|
  }

  /** The number that read returns. */
  function ReadSource(sw: seq<seq<seq<real>>>, l: nat, n: nat, i: nat): (x: real)
    requires InRegion(sw, l, n, i)
    ensures x in Flatten(Flatten(sw))
  {
    Flatten(Flatten(sw))[ReadPos(sw, RecordIndex(sw, l, n), i)]
  }

  /** A read inside a neuron's own weight vector returns that weight. */
  lemma ReadOwn(sw: seq<seq<seq<real>>>, l: nat, n: nat, i: nat)
    requires l < |sw| && n < |sw[l]| && i < |sw[l][n]|
    ensures InRegion(sw, l, n, i) && ReadSource(sw, l, n, i) == sw[l][n][i]
  {
    FlattenIndex(sw, l, n);
    FlattenIndex(Flatten(sw), RecordIndex(sw, l, n), i);
  }

  /** A read just past a neuron's own weight vector returns the first
      weights of the next neuron of the same layer. */
  lemma ReadNext(sw: seq<seq<seq<real>>>, l: nat, n: nat, i: nat)
    requires l < |sw| && n + 1 < |sw[l]| && |sw[l][n]| <= i < |sw[l][n]| + |sw[l][n + 1]|
    ensures InRegion(sw, l, n, i) && ReadSource(sw, l, n, i) == sw[l][n + 1][i - |sw[l][n]|]
  {
    var g := RecordIndex(sw, l, n);
    FlattenIndex(sw, l, n);
    FlattenIndex(sw, l, n + 1);
    SumPrefixStep(Lens(Flatten(sw)), g);
    assert ReadPos(sw, g, i) == ReadPos(sw, g + 1, i - |sw[l][n]|);
    ReadOwn(sw, l, n + 1, i - |sw[l][n]|);
  }

  /** Every read the copy loops make through the source's pointers lands
      in its neuron records and weight region. */
  predicate ReachesSource(dw: seq<seq<seq<real>>>, sw: seq<seq<seq<real>>>, rng: nat -> nat)
  {
    && |dw| <= |sw|
    && forall l, n, i :: 0 <= l < |dw| && 0 <= n < |dw[l]|
         && CopyFrom(|dw[l][n]|, Coin(rng, dw, l, n)) <= i < CopyTo(|dw[l][n]|, Coin(rng, dw, l, n))
         ==> InRegion(sw, l, n, i)
  }

  /** The weight loop of one neuron as the C code runs it: the copied
      indices read through the source's pointers, wherever they land. */
  function CrossNeuronAsWritten(d: seq<real>, sw: seq<seq<seq<real>>>, l: nat, n: nat, c: nat): (r: seq<real>)
    requires c < 2 && l <= |sw|
    requires forall i :: CopyFrom(|d|, c) <= i < CopyTo(|d|, c) ==> InRegion(sw, l, n, i)
    ensures |r| == |d|
    ensures forall i :: 0 <= i < |d| && !(CopyFrom(|d|, c) <= i < CopyTo(|d|, c)) ==> r[i] == d[i]
    ensures forall i :: CopyFrom(|d|, c) <= i < CopyTo(|d|, c) ==> r[i] in Flatten(Flatten(sw))
  {
    seq(|d|, i requires 0 <= i < |d| =>
      if CopyFrom(|d|, c) <= i < CopyTo(|d|, c) then ReadSource(sw, l, n, i) else d[i])
  }

  /** The copy loops as the C code runs them. */
  function CrossWeightsAsWritten(dw: seq<seq<seq<real>>>, sw: seq<seq<seq<real>>>, rng: nat -> nat)
    : (r: seq<seq<seq<real>>>)
    requires ReachesSource(dw, sw, rng)
    ensures |r| == |dw|
    ensures forall l :: 0 <= l < |dw| ==> |r[l]| == |dw[l]|
    ensures forall l, n :: 0 <= l < |dw| && 0 <= n < |dw[l]| ==> |r[l][n]| == |dw[l][n]|
  {
    seq(|dw|, l requires 0 <= l < |dw| =>
      seq(|dw[l]|, n requires 0 <= n < |dw[l]| =>
        CrossNeuronAsWritten(dw[l][n], sw, l, n, Coin(rng, dw, l, n))))
  }

  /** When every copied index lies inside the source neuron's own vector,
      the reads through the pointers are the reads of the corrected loops,
      and so are the crossed weights. */
  lemma ReadsStayOwn(dw: seq<seq<seq<real>>>, sw: seq<seq<seq<real>>>, rng: nat -> nat)
    requires Readable(dw, sw, rng)
    ensures ReachesSource(dw, sw, rng)
    ensures CrossWeightsAsWritten(dw, sw, rng) == CrossWeights(dw, sw, rng)
  {
    forall l, n, i | 0 <= l < |dw| && 0 <= n < |dw[l]|
      && CopyFrom(|dw[l][n]|, Coin(rng, dw, l, n)) <= i < CopyTo(|dw[l][n]|, Coin(rng, dw, l, n))
      ensures InRegion(sw, l, n, i) && ReadSource(sw, l, n, i) == sw[l][n][i]
    {
      ReadOwn(sw, l, n, i);
    }
    var a := CrossWeightsAsWritten(dw, sw, rng);
    var b := CrossWeights(dw, sw, rng);
    forall l | 0 <= l < |dw|
      ensures a[l] == b[l]
    {
      forall n | 0 <= n < |dw[l]|
        ensures a[l][n] == b[l][n]
      {
        var c := Coin(rng, dw, l, n);
        assert a[l][n] == CrossNeuronAsWritten(dw[l][n], sw, l, n, c);
        assert b[l][n] == CrossNeuron(dw[l][n], sw[l][n], c);
      }
    }
  }

  /** The validation loop's check of layer `l`: the same neuron count and,
      neuron by neuron, the same weight count. */
  predicate LayerMatches(dw: seq<seq<seq<real>>>, sw: seq<seq<seq<real>>>, l: nat)
    requires l < |dw| && l < |sw|
  {
    |dw[l]| == |sw[l]| && forall n :: 0 <= n < |dw[l]| ==> |dw[l][n]| == |sw[l][n]|
  }

  /** The validation loop run over the layers below `k` finds no mismatch. */
  predicate MatchUpTo(dw: seq<seq<seq<real>>>, sw: seq<seq<seq<real>>>, k: int)
    requires k <= |dw| && k <= |sw|
  {
    forall l :: 0 <= l < k ==> LayerMatches(dw, sw, l)
  }

  /** All layers match exactly when the weight counts agree. */
  lemma MatchesIffSameLens(dw: seq<seq<seq<real>>>, sw: seq<seq<seq<real>>>)
    requires |dw| == |sw|
    ensures MatchUpTo(dw, sw, |dw|) <==> WeightLens(dw) == WeightLens(sw)
  {
    if MatchUpTo(dw, sw, |dw|) {
      forall l | 0 <= l < |dw|
        ensures |dw[l]| == |sw[l]| && forall n :: 0 <= n < |dw[l]| ==> |dw[l][n]| == |sw[l][n]|
      {
        assert LayerMatches(dw, sw, l);
      }
      WeightLensOfSizes(dw, sw);
    }
    if WeightLens(dw) == WeightLens(sw) {
      forall l | 0 <= l < |dw|
        ensures LayerMatches(dw, sw, l)
      {
        assert |WeightLens(dw)[l]| == |WeightLens(sw)[l]|;
        forall n | 0 <= n < |dw[l]|
          ensures |dw[l][n]| == |sw[l][n]|
        {
          assert WeightLens(dw)[l][n] == WeightLens(sw)[l][n];
        }
      }
    }
  }

  /** Same weight counts make every read from the source land inside it. */
  lemma SameLensReadable(dw: seq<seq<seq<real>>>, sw: seq<seq<seq<real>>>, rng: nat -> nat)
    requires |dw| == |sw| && MatchUpTo(dw, sw, |dw|)
    ensures Readable(dw, sw, rng)
  {
    forall l | 0 <= l < |dw|
      ensures |dw[l]| <= |sw[l]|
    {
      assert LayerMatches(dw, sw, l);
    }
    forall l, n | 0 <= l < |dw| && 0 <= n < |dw[l]|
      ensures CopyTo(|dw[l][n]|, Coin(rng, dw, l, n)) <= |sw[l][n]|
    {
      assert LayerMatches(dw, sw, l);
      assert CopyTo(|dw[l][n]|, Coin(rng, dw, l, n)) <= |dw[l][n]|;
    }
  }

  /** The destination with its weights crossed and its flag set; nothing
      else changes. */
  function Crossed(d: Net, s: Net, rng: nat -> nat): (r: Net)
    requires Readable(d.weights, s.weights, rng)
    ensures ShapeOf(r) == ShapeOf(d) && (Aligned(r) <==> Aligned(d)) && (Shaped(r) <==> Shaped(d))
    ensures r.(weights := d.weights, isChanged := d.isChanged) == d && r.isChanged
    ensures r.weights == CrossWeights(d.weights, s.weights, rng)
  {
    var ws := CrossWeights(d.weights, s.weights, rng);
    WeightLensOfSizes(ws, d.weights);
    d.(weights := ws, isChanged := true)
  }

  /** Once every layer but the last matches, a read past the source can
      only come from a mismatch in the last layer. */
  lemma UnreadableLastLayer(dw: seq<seq<seq<real>>>, sw: seq<seq<seq<real>>>, rng: nat -> nat)
    requires |dw| == |sw| >= 1 && MatchUpTo(dw, sw, |dw| - 1) && !Readable(dw, sw, rng)
    ensures !LayerMatches(dw, sw, |dw| - 1)
  {
    if LayerMatches(dw, sw, |dw| - 1) {
      assert MatchUpTo(dw, sw, |dw|) by {
        forall l | 0 <= l < |dw|
          ensures LayerMatches(dw, sw, l)
        {
          if l < |dw| - 1 { assert MatchUpTo(dw, sw, |dw| - 1); }
        }
      }
      SameLensReadable(dw, sw, rng);
      assert false;
    }
  }

  /** The destination with its weights crossed as the C code runs the
      copy loops, and its flag set; nothing else changes. */
  function CrossedAsWritten(d: Net, s: Net, rng: nat -> nat): (r: Net)
    requires ReachesSource(d.weights, s.weights, rng)
    ensures ShapeOf(r) == ShapeOf(d) && (Aligned(r) <==> Aligned(d)) && (Shaped(r) <==> Shaped(d))
    ensures r.(weights := d.weights, isChanged := d.isChanged) == d && r.isChanged
    ensures r.weights == CrossWeightsAsWritten(d.weights, s.weights, rng)
  {
    var ws := CrossWeightsAsWritten(d.weights, s.weights, rng);
    WeightLensOfSizes(ws, d.weights);
    d.(weights := ws, isChanged := true)
  }

  /** `CNNFW_WeightsCrossingower` as written: the validation loop stops
      before the last layer, so the last layer's sizes are never compared,
      and with a single layer nothing is compared at all, while the copy
      loops cover every layer.  A read past a source neuron's own vector
      still lands on the neuron records and weights that follow it in the
      block, and copies what it finds there; only a read that leaves the
      neuron records or the weight region is undefined.  Without layers
      `layLen - 1` wraps around, and the validation loop reads layer
      records that are not there.  Only the counts and the weights are
      read, so the networks need not be consistent. */
  function CrossoverAsWritten(dst: Option<Net>, src: Option<Net>, rng: nat -> nat): (r: Outcome<Net>)
    ensures r.Fail? <==> dst.None? || src.None? || dst.value.LayLen() != src.value.LayLen()
                         || !MatchUpTo(dst.value.weights, src.value.weights, dst.value.LayLen() - 1)
    ensures r.Undefined? <==> !r.Fail? && (dst.value.LayLen() == 0 || !ReachesSource(dst.value.weights, src.value.weights, rng))
    ensures r.Undefined? && dst.value.LayLen() >= 1 ==>
              !LayerMatches(dst.value.weights, src.value.weights, dst.value.LayLen() - 1)
    ensures r.Ok? ==> r.value == CrossedAsWritten(dst.value, src.value, rng)
    ensures r.Ok? && Readable(dst.value.weights, src.value.weights, rng) ==>
              r.value == Crossed(dst.value, src.value, rng)
  {
    if dst.None? || src.None? then Fail
    else
      var d := dst.value;
      var s := src.value;
      var L := d.LayLen();
      if L != s.LayLen() then Fail
      else if !MatchUpTo(d.weights, s.weights, L - 1) then Fail
      else if L == 0 then Undefined
      else
        AsWrittenCases(d, s, rng);
        if ReachesSource(d.weights, s.weights, rng) then Ok(CrossedAsWritten(d, s, rng))
        else Undefined
  }

  /** The two outcomes of the as-written copy once the earlier layers
      match: where every copy stays on the source neuron's own weights it
      agrees with the corrected copy, and a copy that leaves the source's
      weight region implies the last layer differs. */
  lemma AsWrittenCases(d: Net, s: Net, rng: nat -> nat)
    requires d.LayLen() == s.LayLen() && MatchUpTo(d.weights, s.weights, d.LayLen() - 1)
    ensures Readable(d.weights, s.weights, rng) ==>
              ReachesSource(d.weights, s.weights, rng) && CrossedAsWritten(d, s, rng) == Crossed(d, s, rng)
    ensures !ReachesSource(d.weights, s.weights, rng) ==>
              1 <= d.LayLen() && !LayerMatches(d.weights, s.weights, d.LayLen() - 1)
  {
    if Readable(d.weights, s.weights, rng) {
      ReadsStayOwn(d.weights, s.weights, rng);
    }
    if !ReachesSource(d.weights, s.weights, rng) {
      assert !Readable(d.weights, s.weights, rng);
      UnreadableLastLayer(d.weights, s.weights, rng);
    }
  }

  /** `CNNFW_WeightsCrossingower` validating every layer: it succeeds
      exactly when both networks exist with the same weight counts.  Only
      the destination's weights change, and it is marked changed; a
      consistent destination stays consistent. */
  function Crossover(dst: Option<Net>, src: Option<Net>, rng: nat -> nat): (r: Outcome<Net>)
    ensures r.Ok? <==> dst.Some? && src.Some? && ShapeOf(dst.value).weiLens == ShapeOf(src.value).weiLens
    ensures !r.Undefined?
    ensures r.Ok? ==> ShapeOf(r.value) == ShapeOf(dst.value)
    ensures r.Ok? && Shaped(dst.value) ==> Shaped(r.value)
    ensures r.Ok? ==> r.value.(weights := dst.value.weights, isChanged := dst.value.isChanged) == dst.value
    ensures r.Ok? ==> r.value.isChanged
  {
    if dst.None? || src.None? then Fail
    else
      var d := dst.value;
      var s := src.value;
      if d.LayLen() != s.LayLen() then Fail
      else
        MatchesIffSameLens(d.weights, s.weights);
        if !MatchUpTo(d.weights, s.weights, d.LayLen()) then Fail
        else
          SameLensReadable(d.weights, s.weights, rng);
          Ok(Crossed(d, s, rng))
  }

  /** Each destination neuron takes the prefix or the suffix of its
      weights, `w - w / 2` of them, from the source, as its coin says, and
      keeps the rest. */
  lemma CrossoverHalves(d: Net, s: Net, rng: nat -> nat, l: nat, n: nat)
    requires ShapeOf(d).weiLens == ShapeOf(s).weiLens
    requires l < d.LayLen() && n < d.NeuLen(l)
    ensures Crossover(Some(d), Some(s), rng).Ok?
    ensures l < s.LayLen() && n < s.NeuLen(l)
    ensures HalfCopied(d.weights[l][n], s.weights[l][n], Crossover(Some(d), Some(s), rng).value.weights[l][n],
                       Coin(rng, d.weights, l, n))
  {
    MatchesIffSameLens(d.weights, s.weights);
    SameLensReadable(d.weights, s.weights, rng);
  }

  /** Where the corrected check accepts, the code as written does the same. */
  lemma CrossoverAgrees(d: Net, s: Net, rng: nat -> nat)
    requires d.LayLen() >= 1 && ShapeOf(d).weiLens == ShapeOf(s).weiLens
    ensures CrossoverAsWritten(Some(d), Some(s), rng) == Crossover(Some(d), Some(s), rng)
  {
    MatchesIffSameLens(d.weights, s.weights);
    SameLensReadable(d.weights, s.weights, rng);
  }

  /** Crossing a network with itself changes no weight. */
  lemma CrossoverWithItself(net: Net, rng: nat -> nat)
    ensures Crossover(Some(net), Some(net), rng) == Ok(net.(isChanged := true))
  {
    MatchesIffSameLens(net.weights, net.weights);
    SameLensReadable(net.weights, net.weights, rng);
    var r := Crossed(net, net, rng);
    forall l | 0 <= l < net.LayLen()
      ensures r.weights[l] == net.weights[l]
    {
      forall n | 0 <= n < net.NeuLen(l)
        ensures r.weights[l][n] == net.weights[l][n]
      {
        assert |r.weights[l][n]| == |net.weights[l][n]|;
      }
    }
    assert r.weights == net.weights;
  }

  /** Crossing two networks with weights in [-1, 1] keeps them there. */
  lemma CrossoverKeepsUnitWeights(d: Net, s: Net, rng: nat -> nat)
    requires ShapeOf(d).weiLens == ShapeOf(s).weiLens
    requires UnitWeights(d) && UnitWeights(s)
    ensures Crossover(Some(d), Some(s), rng).Ok?
    ensures UnitWeights(Crossover(Some(d), Some(s), rng).value)
  {
    MatchesIffSameLens(d.weights, s.weights);
    SameLensReadable(d.weights, s.weights, rng);
    var r := Crossed(d, s, rng);
    forall l, n, w | 0 <= l < r.LayLen() && 0 <= n < r.NeuLen(l) && 0 <= w < |r.weights[l][n]|
      ensures -1.0 <= r.weights[l][n][w] <= 1.0
    {
      assert |s.weights[l][n]| == |d.weights[l][n]| by {
        assert LayerMatches(d.weights, s.weights, l);
      }
    }
  }

  /** A one-layer network of `w` inputs and one output neuron, with one
      data row. */
  function Single(w: nat): (net: Net)
    requires w >= 1
    ensures Shaped(net) && ShapeOf(net).weiLens == [[w]] && |net.inputs| == w
  {
    var net := Net(false, ENABLE, 0.01, 0.01, 0, Zeros(w), [0.0], [[0.0]], [[Zeros(w)]], Dataset([Zeros(w + 1)], w + 1));
    var wl := WeightLens(net.weights);
    assert |wl| == 1 && |wl[0]| == 1 && wl[0][0] == w;
    assert wl[0] == [w];
    net
  }

  /** `rand()` returning always 0, and always 1. */
  function Draws0(k: nat): nat { 0 }
  function Draws1(k: nat): nat { 1 }

  /** Two one-layer networks of different input widths: as written the
      check compares nothing, so with coin 1 the copy of the second weight
      reads past the narrower source's only weight, and past its whole
      weight region, into the row-pointer table. */
  lemma CrossoverReadsPastSource(d: Net, s: Net)
    requires d == Single(2) && s == Single(1)
    ensures ShapeOf(d).weiLens != ShapeOf(s).weiLens
    ensures CrossoverAsWritten(Some(d), Some(s), Draws1) == Undefined
  {
    assert MatchUpTo(d.weights, s.weights, 0);
    PastSingle(d.weights, s.weights);
  }

  /** The read of the example above that leaves the source's weights. */
  lemma PastSingle(dw: seq<seq<seq<real>>>, sw: seq<seq<seq<real>>>)
    requires |dw| == 1 && |dw[0]| == 1 && |dw[0][0]| == 2
    requires |sw| == 1 && |sw[0]| == 1 && |sw[0][0]| == 1
    ensures !ReachesSource(dw, sw, Draws1)
  {
    assert sw[0] == [sw[0][0]];
    assert sw == [[sw[0][0]]];
    FlattenSingle([sw[0][0]]);
    FlattenSingle(sw[0][0]);
    assert Lens(sw)[..0] == [] && Lens(Flatten(sw))[..0] == [];
    assert !InRegion(sw, 0, 0, 1);
    assert Lens(dw)[..0] == [];
    assert Coin(Draws1, dw, 0, 0) == 1;
  }

  /** With coin 0 the same pair goes through, mixing the weights of
      networks of different shapes. */
  lemma CrossoverMixesShapes(d: Net, s: Net)
    requires d == Single(2) && s == Single(1)
    ensures CrossoverAsWritten(Some(d), Some(s), Draws0).Ok?
  {
    assert MatchUpTo(d.weights, s.weights, 0);
    CopyOwnSingle(d.weights, s.weights);
    ReadsStayOwn(d.weights, s.weights, Draws0);
  }

  /** With coin 0 a neuron of two weights copies only its first weight,
      which a source neuron of one weight holds. */
  lemma CopyOwnSingle(dw: seq<seq<seq<real>>>, sw: seq<seq<seq<real>>>)
    requires |dw| == 1 && |dw[0]| == 1 && |dw[0][0]| == 2
    requires |sw| == 1 && |sw[0]| == 1 && |sw[0][0]| == 1
    ensures Readable(dw, sw, Draws0)
  {
    assert Lens(dw)[..0] == [];
    assert Coin(Draws0, dw, 0, 0) == 0;
  }

  /** `rand()` returning 1 for the first draw and 0 after it. */
  function FirstDrawOne(k: nat): nat { if k == 0 then 1 else 0 }

  /** Two one-layer networks of two neurons each, with 3 and 2 inputs.  As
      written the check compares nothing.  Coin 1 for the first neuron
      copies its weights 1 and 2, and weight 2 lies past the source
      neuron's two weights, on the second source neuron's first weight;
      coin 0 for the second neuron copies its weights 0 and 1.  The call
      succeeds. */
  lemma CrossoverReadsNextNeuron(d: Net, s: Net)
    requires ShapeOf(d).weiLens == [[3, 3]] && ShapeOf(s).weiLens == [[2, 2]]
    ensures var r := CrossoverAsWritten(Some(d), Some(s), FirstDrawOne);
      && r.Ok?
      && r.value.weights[0][0] == [d.weights[0][0][0], s.weights[0][0][1], s.weights[0][1][0]]
      && r.value.weights[0][1] == [s.weights[0][1][0], s.weights[0][1][1], d.weights[0][1][2]]
  {
    var dw, sw := d.weights, s.weights;
    assert |dw| == 1 && |dw[0]| == 2 && |dw[0][0]| == 3 && |dw[0][1]| == 3 by {
      assert ShapeOf(d).weiLens[0][0] == 3 && ShapeOf(d).weiLens[0][1] == 3;
    }
    assert |sw| == 1 && |sw[0]| == 2 && |sw[0][0]| == 2 && |sw[0][1]| == 2 by {
      assert ShapeOf(s).weiLens[0][0] == 2 && ShapeOf(s).weiLens[0][1] == 2;
    }
    assert MatchUpTo(dw, sw, 0);
    assert Lens(dw)[..0] == [];
    assert Coin(FirstDrawOne, dw, 0, 0) == 1 && Coin(FirstDrawOne, dw, 0, 1) == 0;
    ReadOwn(sw, 0, 0, 1);
    ReadNext(sw, 0, 0, 2);
    ReadOwn(sw, 0, 1, 0);
    ReadOwn(sw, 0, 1, 1);
    assert ReachesSource(dw, sw, FirstDrawOne) by {
      forall l, n, i | 0 <= l < |dw| && 0 <= n < |dw[l]|
        && CopyFrom(|dw[l][n]|, Coin(FirstDrawOne, dw, l, n)) <= i < CopyTo(|dw[l][n]|, Coin(FirstDrawOne, dw, l, n))
        ensures InRegion(sw, l, n, i)
      {
        if n == 0 { assert i == 1 || i == 2; } else { assert i == 0 || i == 1; }
      }
    }
    var ws := CrossWeightsAsWritten(dw, sw, FirstDrawOne);
    assert ws[0][0] == CrossNeuronAsWritten(dw[0][0], sw, 0, 0, 1);
    assert ws[0][1] == CrossNeuronAsWritten(dw[0][1], sw, 0, 1, 0);
  }

  /** The corrected check refuses the same pair, whatever the draws. */
  lemma CrossoverRefusesMismatch(rng: nat -> nat)
    ensures Crossover(Some(Single(2)), Some(Single(1)), rng) == Fail
  {
  }
}
