/** The forward pass `CNNFW_Calculate` and the dataset error `difference`.
    The sigmoid is an injected function `act`, so the model holds for any
    activation. */
module Evaluate {
  import opened Layout
  import opened Outcomes
  import opened Network
  import opened Squares
  import Accessors

  /** Every neuron has at most one weight per value feeding its layer: the
      inputs for layer 0, the previous layer's neurons otherwise.  The
      weight loop runs over the neuron's own weights, so a narrower neuron
      reads only part of its feed; a wider one would read past the feed. */
  predicate WiredParams(inpLen: nat, weights: seq<seq<seq<real>>>)
  {
    forall l, n :: 0 <= l < |weights| && 0 <= n < |weights[l]| ==>
      |weights[l][n]| <= (if l == 0 then inpLen else |weights[l - 1]|)
  }

  /** The sizes the forward pass reads without leaving its vectors. */
  predicate Wired(net: Net)
  {
    |net.biases| == |net.weights| && WiredParams(|net.inputs|, net.weights)
  }

  lemma ShapedWired(net: Net)
    requires Shaped(net)
    ensures Wired(net) && net.LayLen() >= 1 && |net.data.cells| >= 1
    ensures net.data.cols == |net.inputs| + net.NeuLen(net.LayLen() - 1)
  {
    var s := ShapeOf(net);
    var ws := net.weights;
    forall l, n | 0 <= l < |ws| && 0 <= n < |ws[l]|
      ensures |ws[l][n]| == (if l == 0 then |net.inputs| else |ws[l - 1]|)
    {
      assert s.weiLens[l][n] == s.FeedWidth(l);
    }
  }

  /** `tmp += x[w] * weights[w]` for `w` counting up from 0. */
  function WeightedSum(xs: seq<real>, ws: seq<real>): real
    requires |ws| <= |xs|
    decreases |ws|
  {
    if |ws| == 0 then 0.0 else WeightedSum(xs, ws[..|ws| - 1]) + xs[|ws| - 1] * ws[|ws| - 1]
  }

  /** The value a neuron takes from its weighted sum: the raw sum in the
      output layer; in a hidden layer the activation of sum plus bias when
      the activation is enabled, sum plus bias when it is disabled, and
      the 0.0 the neuron was cleared to for any other state. */
  function Activate(actFunc: int, act: real -> real, isOutput: bool, bias: real, sum: real): real
  {
    if isOutput then sum
    else if actFunc == ENABLE then act(sum + bias)
    else if actFunc == DISABLE then sum + bias
    else 0.0
  }

  /** The values of one layer's neurons, from the values feeding it. */
  function LayerOut(act: real -> real, actFunc: int, isOutput: bool, bias: real,
                    ws: seq<seq<real>>, feed: seq<real>): (vs: seq<real>)
    requires forall n :: 0 <= n < |ws| ==> |ws[n]| <= |feed|
    ensures |vs| == |ws|
  {
    if |ws| == 0 then []
    else
      LayerOut(act, actFunc, isOutput, bias, ws[..|ws| - 1], feed)
      + [Activate(actFunc, act, isOutput, bias, WeightedSum(feed, ws[|ws| - 1]))]
  }

  /** Neuron `n` of a layer takes the activation of its own weighted sum. */
  lemma {:induction false} LayerOutAt(act: real -> real, actFunc: int, isOutput: bool, bias: real,
                                      ws: seq<seq<real>>, feed: seq<real>, n: nat)
    requires forall k :: 0 <= k < |ws| ==> |ws[k]| <= |feed|
    requires n < |ws|
    ensures LayerOut(act, actFunc, isOutput, bias, ws, feed)[n]
            == Activate(actFunc, act, isOutput, bias, WeightedSum(feed, ws[n]))
  {
    if n < |ws| - 1 {
      LayerOutAt(act, actFunc, isOutput, bias, ws[..|ws| - 1], feed, n);
    }
  }

  /** The values feeding layer `l`, given the values of the layers before. */
  function Feed(inputs: seq<real>, vss: seq<seq<real>>, l: nat): seq<real>
    requires l <= |vss|
  {
    if l == 0 then inputs else vss[l - 1]
  }

  /** The values of the first `k` layers, computed layer after layer from
      the inputs, biases and weights alone. */
  function Forward(act: real -> real, actFunc: int, inputs: seq<real>, biases: seq<real>,
                   weights: seq<seq<seq<real>>>, k: nat): (vss: seq<seq<real>>)
    requires WiredParams(|inputs|, weights) && |biases| == |weights| && k <= |weights|
    ensures |vss| == k
    ensures forall l :: 0 <= l < k ==> |vss[l]| == |weights[l]|
    decreases k
  {
    if k == 0 then []
    else
      var prev := Forward(act, actFunc, inputs, biases, weights, k - 1);
      prev + [LayerOut(act, actFunc, k == |weights|, biases[k - 1], weights[k - 1], Feed(inputs, prev, k - 1))]
  }

  lemma {:induction false} ForwardPrefix(act: real -> real, actFunc: int, inputs: seq<real>, biases: seq<real>,
                                         weights: seq<seq<seq<real>>>, k: nat, j: nat)
    requires WiredParams(|inputs|, weights) && |biases| == |weights| && j <= k <= |weights|
    ensures Forward(act, actFunc, inputs, biases, weights, k)[..j] == Forward(act, actFunc, inputs, biases, weights, j)
    decreases k
  {
    if j < k {
      ForwardPrefix(act, actFunc, inputs, biases, weights, k - 1, j);
    }
  }

  /** Layer `l` of the full forward pass is computed from the full pass's
      own values of layer `l - 1`. */
  lemma ForwardSettles(act: real -> real, actFunc: int, inputs: seq<real>, biases: seq<real>,
                       weights: seq<seq<seq<real>>>, l: nat)
    requires WiredParams(|inputs|, weights) && |biases| == |weights| && l < |weights|
    ensures var vss := Forward(act, actFunc, inputs, biases, weights, |weights|);
      vss[l] == LayerOut(act, actFunc, l == |weights| - 1, biases[l], weights[l], Feed(inputs, vss, l))
  {
    var L := |weights|;
    var vss := Forward(act, actFunc, inputs, biases, weights, L);
    ForwardPrefix(act, actFunc, inputs, biases, weights, L, l + 1);
    ForwardPrefix(act, actFunc, inputs, biases, weights, L, l);
    var prev := Forward(act, actFunc, inputs, biases, weights, l);
    assert vss[l] == vss[..l + 1][l];
    assert Feed(inputs, prev, l) == Feed(inputs, vss, l) by {
      if l > 0 {
        assert vss[l - 1] == vss[..l][l - 1];
      }
    }
  }

  /** Two networks that differ at most in their neuron values. */
  predicate SameButValues(a: Net, b: Net)
  {
    a.(values := b.values) == b
  }

  /** `CNNFW_Calculate`: every layer in turn, every neuron of it from the
      values of the layer before (the inputs for layer 0).  Only neuron
      values change, and every layer gets one value per neuron. */
  function Calculate(act: real -> real, h: Option<Net>): (r: Outcome<Net>)
    requires h.Some? ==> Wired(h.value)
    ensures r.Ok? <==> h.Some?
    ensures !r.Undefined?
    ensures r.Ok? ==> SameButValues(h.value, r.value) && Aligned(r.value)
  {
    if h.None? then Fail
    else
      var net := h.value;
      Ok(net.(values := Forward(act, net.actFunc, net.inputs, net.biases, net.weights, net.LayLen())))
  }

  /** After a calculation every neuron holds what the final values feeding
      it make it: the activated (or linear, or cleared) weighted sum in a
      hidden layer, the raw weighted sum in the output layer. */
  lemma CalculateSettles(act: real -> real, net: Net)
    requires Wired(net)
    ensures var r := Calculate(act, Some(net)).value;
      forall l, n :: 0 <= l < r.LayLen() && 0 <= n < r.NeuLen(l) ==>
        r.values[l][n]
        == Activate(r.actFunc, act, l == r.LayLen() - 1, r.biases[l],
                    WeightedSum(Feed(r.inputs, r.values, l), r.weights[l][n]))
  {
    var vss := Forward(act, net.actFunc, net.inputs, net.biases, net.weights, net.LayLen());
    forall l, n | 0 <= l < net.LayLen() && 0 <= n < net.NeuLen(l)
      ensures vss[l][n] == Activate(net.actFunc, act, l == net.LayLen() - 1, net.biases[l],
                                    WeightedSum(Feed(net.inputs, vss, l), net.weights[l][n]))
    {
      ForwardSettles(act, net.actFunc, net.inputs, net.biases, net.weights, l);
      LayerOutAt(act, net.actFunc, l == net.LayLen() - 1, net.biases[l], net.weights[l], Feed(net.inputs, vss, l), n);
    }
  }

  /** A network differing only in values calculates to the same network:
      the forward pass does not read the values it overwrites. */
  lemma CalculateIgnoresValues(act: real -> real, a: Net, b: Net)
    requires Wired(a) && SameButValues(a, b)
    ensures Wired(b)
    ensures Calculate(act, Some(a)) == Calculate(act, Some(b))
  {
  }

  /** Output `index` read after a calculation is the output neuron's
      weighted sum of the values feeding the output layer, with no bias and
      no activation. */
  lemma OutputAfterCalculate(act: real -> real, net: Net, index: nat)
    requires Wired(net) && net.LayLen() >= 1 && index < net.NeuLen(net.LayLen() - 1)
    ensures var r := Calculate(act, Some(net)).value;
      var L := r.LayLen();
      Accessors.GetOutput(Some(r), index, false)
      == Ok(WeightedSum(Feed(r.inputs, r.values, L - 1), r.weights[L - 1][index]))
  {
    CalculateSettles(act, net);
  }

  /** Calculating twice gives what calculating once gives. */
  lemma CalculateIdempotent(act: real -> real, net: Net)
    requires Wired(net)
    ensures Calculate(act, Some(Calculate(act, Some(net)).value)) == Calculate(act, Some(net))
  {
  }

  /** With an activation state other than the two the header names, every
      hidden neuron comes out as 0.0 whatever the weights and inputs. */
  lemma UnknownStateZeroesHidden(act: real -> real, net: Net)
    requires Wired(net) && net.actFunc != ENABLE && net.actFunc != DISABLE
    ensures var r := Calculate(act, Some(net)).value;
      forall l, n :: 0 <= l < r.LayLen() - 1 && 0 <= n < r.NeuLen(l) ==> r.values[l][n] == 0.0
  {
    CalculateSettles(act, net);
  }

  // The dataset error.

  /** The output layer's neuron values. */
  function Outputs(net: Net): seq<real>
    requires |net.values| >= 1
  {
    net.values[|net.values| - 1]
  }

  /** `result += diff * diff` over the outputs, each compared with the
      column `offset + out` of the row. */
  function SquaredError(outs: seq<real>, row: seq<real>, offset: nat): (e: real)
    requires offset + |outs| <= |row|
    ensures e >= 0.0
    decreases |outs|
  {
    if |outs| == 0 then 0.0
    else
      var k := |outs| - 1;
      var diff := outs[k] - row[offset + k];
      var sq := diff * diff;
      SquareFacts(diff, sq);
      SquaredError(outs[..k], row, offset) + sq
  }

  /** The squared error is zero exactly when every output equals its
      column. */
  lemma {:induction false} SquaredErrorZero(outs: seq<real>, row: seq<real>, offset: nat)
    requires offset + |outs| <= |row|
    ensures SquaredError(outs, row, offset) == 0.0 <==> forall k :: 0 <= k < |outs| ==> outs[k] == row[offset + k]
    decreases |outs|
  {
    if |outs| > 0 {
      var k := |outs| - 1;
      SquaredErrorZero(outs[..k], row, offset);
      assert forall j :: 0 <= j < k ==> outs[..k][j] == outs[j];
      var diff := outs[k] - row[offset + k];
      SquareFacts(diff, diff * diff);
    }
  }

  /** The input columns of dataset row `i`. */
  function RowInputs(net: Net, i: nat): (x: seq<real>)
    requires Shaped(net) && i < |net.data.cells|
    ensures |x| == |net.inputs|
  {
    ShapedWired(net);
    net.data.cells[i][..|net.inputs|]
  }

  /** The input columns of the last dataset row. */
  function LastRowInputs(net: Net): seq<real>
    requires Shaped(net)
  {
    RowInputs(net, |net.data.cells| - 1)
  }

  /** The output values the forward pass computes for the inputs `x` from
      the network's biases, weights and activation state. */
  function Predict(act: real -> real, net: Net, x: seq<real>): (ys: seq<real>)
    requires Shaped(net) && |x| == |net.inputs|
    ensures net.LayLen() >= 1 && |ys| == net.NeuLen(net.LayLen() - 1)
  {
    ShapedWired(net);
    Forward(act, net.actFunc, x, net.biases, net.weights, net.LayLen())[net.LayLen() - 1]
  }

  /** The network after `difference` loads row `i`'s inputs and calculates:
      the row's inputs, the prediction for them as outputs, and all but the
      inputs and values as before. */
  function RowRun(act: real -> real, net: Net, i: nat): (r: Net)
    requires Shaped(net) && i < |net.data.cells|
    ensures r.(inputs := net.inputs, values := net.values) == net && Aligned(r)
    ensures r.inputs == RowInputs(net, i)
    ensures Outputs(r) == Predict(act, net, RowInputs(net, i))
  {
    ShapedWired(net);
    Calculate(act, Some(net.(inputs := RowInputs(net, i)))).value
  }

  /** Row `i`'s squared output error. */
  function RowError(act: real -> real, net: Net, i: nat): (e: real)
    requires Shaped(net) && i < |net.data.cells|
    ensures e >= 0.0
  {
    ShapedWired(net);
    SquaredError(Predict(act, net, RowInputs(net, i)), net.data.cells[i], |net.inputs|)
  }

  /** Every row's squared output error, in row order. */
  function RowErrors(act: real -> real, net: Net): (es: seq<real>)
    requires Shaped(net)
    ensures |es| == |net.data.cells|
    ensures forall i :: 0 <= i < |net.data.cells| ==> es[i] == RowError(act, net, i)
  {
    seq(|net.data.cells|, i requires 0 <= i < |net.data.cells| => RowError(act, net, i))
  }

  /** `result += ...` over a sequence, in order. */
  function Total(es: seq<real>): real
  {
    if |es| == 0 then 0.0 else Total(es[..|es| - 1]) + es[|es| - 1]
  }

  /** A total of non-negative terms is non-negative, and zero exactly when
      every term is. */
  lemma {:induction false} TotalZero(es: seq<real>)
    requires forall i :: 0 <= i < |es| ==> es[i] >= 0.0
    ensures Total(es) >= 0.0
    ensures Total(es) == 0.0 <==> forall i :: 0 <= i < |es| ==> es[i] == 0.0
  {
    if |es| > 0 {
      var init := es[..|es| - 1];
      assert forall i :: 0 <= i < |init| ==> init[i] == es[i];
      TotalZero(init);
    }
  }

  lemma TotalNonnegative(es: seq<real>)
    requires forall i :: 0 <= i < |es| ==> es[i] >= 0.0
    ensures Total(es) >= 0.0
  {
    TotalZero(es);
  }

  lemma TotalStep(es: seq<real>, i: nat)
    requires i < |es|
    ensures Total(es[..i + 1]) == Total(es[..i]) + es[i]
  {
    assert es[..i + 1][..i] == es[..i];
  }

  lemma TotalAll(es: seq<real>)
    ensures Total(es[..|es|]) == Total(es)
  {
    assert es[..|es|] == es;
  }

  /** `result / rows`. */
  function Mean(t: real, n: nat): real
    requires n >= 1
  {
    t / n as real
  }

  lemma MeanFacts(t: real, n: nat)
    requires n >= 1 && t >= 0.0
    ensures Mean(t, n) >= 0.0 && (Mean(t, n) == 0.0 <==> t == 0.0)
  {
  }

  /** The mean of non-negative terms is non-negative, and zero exactly
      when every term is. */
  lemma MeanZero(es: seq<real>)
    requires |es| >= 1 && forall i :: 0 <= i < |es| ==> es[i] >= 0.0
    ensures Mean(Total(es), |es|) >= 0.0
    ensures Mean(Total(es), |es|) == 0.0 <==> forall i :: 0 <= i < |es| ==> es[i] == 0.0
  {
    TotalZero(es);
    MeanFacts(Total(es), |es|);
  }

  /** What `difference` returns, and the network it leaves behind. */
  datatype Measured = Measured(err: real, net: Net)

  /** `difference`: the mean of the rows' squared output errors.  The
      network is left holding the last row's inputs and the values they
      produce. */
  function Difference(act: real -> real, net: Net): (m: Measured)
    requires Shaped(net)
    ensures m.err >= 0.0
  {
    var rows := |net.data.cells|;
    var es := RowErrors(act, net);
    TotalNonnegative(es);
    MeanFacts(Total(es), rows);
    Measured(Mean(Total(es), rows), RowRun(act, net, rows - 1))
  }

  /** The error is zero exactly when every row's error is zero. */
  lemma DifferenceZero(act: real -> real, net: Net)
    requires Shaped(net)
    ensures Difference(act, net).err == 0.0 <==>
              forall i :: 0 <= i < |net.data.cells| ==> RowErrors(act, net)[i] == 0.0
  {
    MeanZero(RowErrors(act, net));
  }

  /** A row's error is zero exactly when every predicted output equals
      the row's matching output column. */
  lemma RowErrorZero(act: real -> real, net: Net, i: nat)
    requires Shaped(net) && i < |net.data.cells|
    ensures var ys := Predict(act, net, RowInputs(net, i));
      RowError(act, net, i) == 0.0 <==>
        forall k :: 0 <= k < |ys| ==> ys[k] == net.data.cells[i][|net.inputs| + k]
  {
    ShapedWired(net);
    SquaredErrorZero(Predict(act, net, RowInputs(net, i)), net.data.cells[i], |net.inputs|);
  }

  /** Two networks that differ at most in their inputs and neuron values. */
  predicate SameButState(a: Net, b: Net)
  {
    a.(inputs := b.inputs, values := b.values) == b && |a.inputs| == |b.inputs|
  }

  lemma ShapedState(a: Net, b: Net)
    requires Shaped(a) && SameButState(a, b) && Aligned(b)
    ensures Shaped(b)
  {
    assert ShapeOf(a) == ShapeOf(b);
  }

  /** Every row's run ends in the same network whatever inputs and values
      the network held before. */
  lemma RowRunIgnoresState(act: real -> real, a: Net, b: Net, i: nat)
    requires Shaped(a) && Shaped(b) && SameButState(a, b) && i < |a.data.cells|
    ensures RowRun(act, a, i) == RowRun(act, b, i)
  {
    assert RowInputs(a, i) == RowInputs(b, i);
    assert a.(inputs := RowInputs(a, i)).(values := b.values) == b.(inputs := RowInputs(b, i));
  }

  /** Every row's error is the same whatever inputs and values the network
      held before: the error depends on the weights, biases, activation
      state and dataset only. */
  lemma RowErrorsIgnoreState(act: real -> real, a: Net, b: Net)
    requires Shaped(a) && Shaped(b) && SameButState(a, b)
    ensures RowErrors(act, a) == RowErrors(act, b)
  {
    forall i | 0 <= i < |a.data.cells|
      ensures RowError(act, a, i) == RowError(act, b, i)
    {
      assert RowInputs(a, i) == RowInputs(b, i);
    }
  }

  /** One pass of the loop of `difference`: loading row `i` into the
      network the previous pass left behind (the original network before
      the first pass) and calculating gives the row's closed-form run. */
  lemma LoopStep(act: real -> real, net: Net, cur: Net, i: nat)
    requires Shaped(net) && i < |net.data.cells|
    requires if i == 0 then cur == net else cur == RowRun(act, net, i - 1)
    ensures |net.inputs| <= |net.data.cells[i]|
    ensures var loaded := cur.(inputs := net.data.cells[i][..|net.inputs|]);
      && Wired(loaded)
      && Calculate(act, Some(loaded)) == Ok(RowRun(act, net, i))
  {
    ShapedWired(net);
    var row := RowInputs(net, i);
    assert cur.(inputs := row) == net.(inputs := row, values := cur.values);
  }

  /** The body of the loop of `difference` for row `i`: load the row's
      inputs, calculate, add the row's squared error. */
  method DifferencePass(act: real -> real, net: Net, cur: Net, result: real, i: nat)
    returns (cur': Net, result': real)
    requires Shaped(net) && i < |net.data.cells|
    requires if i == 0 then cur == net else cur == RowRun(act, net, i - 1)
    requires result == Total(RowErrors(act, net)[..i])
    ensures cur' == RowRun(act, net, i)
    ensures result' == Total(RowErrors(act, net)[..i + 1])
  {
    var row := net.data.cells[i];
    LoopStep(act, net, cur, i);
    cur' := Calculate(act, Some(cur.(inputs := row[..|net.inputs|]))).value;
    PassError(act, net, i);
    TotalStep(RowErrors(act, net), i);
    result' := result + SquaredError(Outputs(cur'), row, |net.inputs|);
  }

  /** The error a pass adds is the row's error. */
  lemma PassError(act: real -> real, net: Net, i: nat)
    requires Shaped(net) && i < |net.data.cells|
    ensures |net.inputs| + |Outputs(RowRun(act, net, i))| <= |net.data.cells[i]|
    ensures SquaredError(Outputs(RowRun(act, net, i)), net.data.cells[i], |net.inputs|) == RowErrors(act, net)[i]
  {
    ShapedWired(net);
  }

  /** After the last row, the mean of the running total and the network
      the last pass left are what the closed form gives. */
  lemma DifferenceEnd(act: real -> real, net: Net, cur: Net, result: real)
    requires Shaped(net)
    requires cur == RowRun(act, net, |net.data.cells| - 1)
    requires result == Total(RowErrors(act, net)[..|net.data.cells|])
    ensures Measured(Mean(result, |net.data.cells|), cur) == Difference(act, net)
  {
    TotalAll(RowErrors(act, net));
  }

  /** The loop of `difference` as written: it keeps one network, loads
      each row's inputs into it, calculates, and adds up the squared
      errors.  It returns the same error and network as the closed form. */
  method DifferenceLoop(act: real -> real, net: Net) returns (err: real, after: Net)
    requires Shaped(net)
    ensures Measured(err, after) == Difference(act, net)
  {
    ShapedWired(net);
    var rows := |net.data.cells|;
    var cur := net;
    var result := 0.0;
    for i := 0 to rows
      invariant result == Total(RowErrors(act, net)[..i])
      invariant if i == 0 then cur == net else cur == RowRun(act, net, i - 1)
    {
      cur, result := DifferencePass(act, net, cur, result, i);
    }
    DifferenceEnd(act, net, cur, result);
    err := Mean(result, rows);
    after := cur;
  }
}
