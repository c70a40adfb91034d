/** `CNNFW_Train`: one pass of finite-difference gradient descent.  Every
    trainable parameter in turn is nudged by epsilon, the dataset error is
    measured again, the parameter is restored and then moved by the
    learning step times the error's slope against the error measured once
    before the pass. */
module Training {
  import opened Sums
  import opened Layout
  import opened Outcomes
  import opened Network
  import opened Evaluate
  import opened Squares

  /** A trainable parameter: the bias of a layer record or one weight of a
      neuron record. */
  datatype Param = Bias(layer: nat) | Weight(layer: nat, neuron: nat, index: nat)

  /** `p` names a parameter a network of shape `s` stores. */
  predicate HasParam(s: Shape, p: Param)
  {
    match p
    case Bias(l) => l < s.LayLen()
    case Weight(l, n, w) => l < s.LayLen() && n < s.NeuLen(l) && w < s.weiLens[l][n]
  }

  function Get(net: Net, p: Param): real
    requires Aligned(net) && HasParam(ShapeOf(net), p)
  {
    match p
    case Bias(l) => net.biases[l]
    case Weight(l, n, w) => net.weights[l][n][w]
  }


  /** Networks with the same biases and weights hold the same parameters. */
  lemma SameParamsSameGet(a: Net, b: Net)
    requires Aligned(a) && Aligned(b) && a.biases == b.biases && a.weights == b.weights
    ensures ShapeOf(a).weiLens == ShapeOf(b).weiLens
    ensures forall q :: HasParam(ShapeOf(a), q) ==> Get(a, q) == Get(b, q)
  {
  }

  /** The network with parameter `p` set to `x` and nothing else changed. */
  function Put(net: Net, p: Param, x: real): (r: Net)
    requires Aligned(net) && HasParam(ShapeOf(net), p)
    ensures Aligned(r) && ShapeOf(r) == ShapeOf(net)
    ensures r.(biases := net.biases, weights := net.weights) == net
    ensures Get(r, p) == x
    ensures forall q :: HasParam(ShapeOf(net), q) && q != p ==> Get(r, q) == Get(net, q)
  {
    match p
    case Bias(l) => net.(biases := net.biases[l := x])
    case Weight(l, n, w) =>
      var ws := net.weights[l := net.weights[l][n := net.weights[l][n][w := x]]];
      WeightLensOfSizes(ws, net.weights);
      net.(weights := ws)
  }

  /** Two networks that differ at most in their inputs, neuron values,
      biases and weights. */
  predicate SameButParams(a: Net, b: Net)
  {
    a.(inputs := b.inputs, values := b.values, biases := b.biases, weights := b.weights) == b
  }

  /** The network with parameter `p` nudged up by epsilon. */
  function Nudge(net: Net, p: Param): Net
    requires Aligned(net) && HasParam(ShapeOf(net), p)
  {
    Put(net, p, Get(net, p) + net.eps)
  }

  /** What a measurement taken with `p` nudged leaves: a network of the
      same shape holding the nudged parameters, the last dataset row loaded
      as inputs. */
  predicate Measures(net: Net, p: Param, m: Measured)
    requires Aligned(net) && HasParam(ShapeOf(net), p)
  {
    && Shaped(m.net) && ShapeOf(m.net) == ShapeOf(net)
    && m.net.(inputs := net.inputs, values := net.values) == Nudge(net, p)
    && m.net.inputs == LastRowInputs(net)
  }

  /** The error measured with `p` nudged, and the network the measurement
      leaves behind. */
  function Nudged(act: real -> real, net: Net, p: Param): (m: Measured)
    requires Shaped(net) && HasParam(ShapeOf(net), p)
    ensures m.err >= 0.0 && Measures(net, p, m)
  {
    BaselineShape(act, Nudge(net, p));
    Trial(act, Nudge(net, p))
  }

  /** The trial measurement is `difference` run on the network with only
      `p` raised by eps. */
  lemma NudgedIsDifference(act: real -> real, net: Net, p: Param)
    requires Shaped(net) && HasParam(ShapeOf(net), p)
    ensures Shaped(Nudge(net, p)) && ShapeOf(Nudge(net, p)) == ShapeOf(net)
    ensures Nudged(act, net, p) == Difference(act, Nudge(net, p))
  {
  }

  /** A call of `difference` inside `CNNFW_Train`: the baseline, or the
      trial on the network with one parameter nudged. */
  function Trial(act: real -> real, net: Net): Measured
    requires Shaped(net)
  {
    Difference(act, net)
  }

  /** Setting a parameter twice keeps only the second value. */
  lemma PutTwice(net: Net, p: Param, x: real, y: real)
    requires Aligned(net) && HasParam(ShapeOf(net), p)
    ensures Put(Put(net, p, x), p, y) == Put(net, p, y)
  {
    match p
    case Bias(l) =>
      assert net.biases[l := x][l := y] == net.biases[l := y];
    case Weight(l, n, w) =>
      var once := net.weights[l := net.weights[l][n := net.weights[l][n][w := x]]];
      assert once[l][n][w := y] == net.weights[l][n][w := y];
      assert once[l][n := once[l][n][w := y]] == net.weights[l][n := net.weights[l][n][w := y]];
  }

  /** `step * ((newDiff - curDiff) / eps)`, the amount a parameter is
      moved down by. */
  function Move(step: real, eps: real, up: real, cur: real): real
    requires eps != 0.0
  {
    step * ((up - cur) / eps)
  }

  /** With a positive epsilon and step the move has the sign of
      `newDiff - curDiff`: the parameter moves against the slope. */
  lemma MoveSign(step: real, eps: real, up: real, cur: real)
    requires eps > 0.0 && step > 0.0
    ensures up > cur ==> Move(step, eps, up, cur) > 0.0
    ensures up == cur ==> Move(step, eps, up, cur) == 0.0
    ensures up < cur ==> Move(step, eps, up, cur) < 0.0
  {
    var slope := (up - cur) / eps;
    if up > cur {
      assert slope > 0.0;
      ProductOfPositives(step, slope, Move(step, eps, up, cur));
    } else if up < cur {
      assert -slope > 0.0;
      ProductOfPositives(step, -slope, -Move(step, eps, up, cur));
    }
  }

  /** Parameter `p`'s turn against the baseline error `cur`, given the
      measurement `m` taken with `p` nudged: `p` is moved by the step times
      the slope, every other parameter and everything but the state is as
      before, and the measurement has left the last dataset row loaded as
      inputs. */
  function Turn(net: Net, p: Param, m: Measured, cur: real): (r: Net)
    requires Shaped(net) && HasParam(ShapeOf(net), p) && net.eps != 0.0 && Measures(net, p, m)
    ensures Shaped(r) && ShapeOf(r) == ShapeOf(net) && SameButParams(net, r)
    ensures r.inputs == LastRowInputs(net)
    ensures Get(r, p) == Get(net, p) - Move(net.step, net.eps, m.err, cur)
    ensures forall q :: HasParam(ShapeOf(net), q) && q != p ==> Get(r, q) == Get(net, q)
  {
    SameParamsSameGet(m.net, Nudge(net, p));
    Put(m.net, p, Get(net, p) - Move(net.step, net.eps, m.err, cur))
  }

  /** With a positive epsilon and step a turn moves the parameter against
      the slope: down when the nudged error is above the baseline, up when
      it is below, not at all when they are equal. */
  lemma TurnSign(net: Net, p: Param, m: Measured, cur: real)
    requires Shaped(net) && HasParam(ShapeOf(net), p) && net.eps > 0.0 && net.step > 0.0
    requires Measures(net, p, m)
    ensures m.err > cur ==> Get(Turn(net, p, m, cur), p) < Get(net, p)
    ensures m.err == cur ==> Get(Turn(net, p, m, cur), p) == Get(net, p)
    ensures m.err < cur ==> Get(Turn(net, p, m, cur), p) > Get(net, p)
  {
    MoveSign(net.step, net.eps, m.err, cur);
  }

  /** One parameter's turn as the C loop body performs it: save it, add
      epsilon, measure the error, restore it and subtract
      `step * ((newDiff - curDiff) / eps)`. */
  method Step(act: real -> real, net: Net, cur: real, p: Param) returns (r: Net)
    requires Shaped(net) && HasParam(ShapeOf(net), p) && net.eps != 0.0
    ensures r == Turn(net, p, Nudged(act, net, p), cur)
  {
    var tmp := Get(net, p);
    var m := Nudged(act, net, p);
    r := Restore(net, p, m, tmp, cur);
  }

  /** The second half of the loop body, after the measurement `m`: write
      the saved value `tmp` back and subtract `step * ((newDiff - curDiff) / eps)`. */
  method Restore(net: Net, p: Param, m: Measured, tmp: real, cur: real) returns (r: Net)
    requires Shaped(net) && HasParam(ShapeOf(net), p) && net.eps != 0.0 && Measures(net, p, m)
    requires tmp == Get(net, p)
    ensures r == Turn(net, p, m, cur)
  {
    var restored := Put(m.net, p, tmp);
    r := Put(restored, p, Get(restored, p) - Move(net.step, net.eps, m.err, cur));
    RestoreThenMove(net, p, m, cur);
  }

  /** Restoring the nudged parameter and then moving it lands where the
      turn puts it. */
  lemma RestoreThenMove(net: Net, p: Param, m: Measured, cur: real)
    requires Shaped(net) && HasParam(ShapeOf(net), p) && net.eps != 0.0 && Measures(net, p, m)
    ensures var restored := Put(m.net, p, Get(net, p));
      Put(restored, p, Get(restored, p) - Move(net.step, net.eps, m.err, cur)) == Turn(net, p, m, cur)
  {
    var restored := Put(m.net, p, Get(net, p));
    assert Get(restored, p) == Get(net, p);
    PutTwice(m.net, p, Get(net, p), Get(net, p) - Move(net.step, net.eps, m.err, cur));
  }

  /** Every parameter of `ps` is one a network of shape `s` stores. */
  predicate AllParams(s: Shape, ps: seq<Param>)
  {
    forall i :: 0 <= i < |ps| ==> HasParam(s, ps[i])
  }

  lemma AllParamsJoin(s: Shape, a: seq<Param>, b: seq<Param>)
    requires AllParams(s, a) && AllParams(s, b)
    ensures AllParams(s, a + b)
  {
    assert forall i :: |a| <= i < |a + b| ==> (a + b)[i] == b[i - |a|];
  }

  /** A network a pass can start from: shaped, with a non-zero epsilon to
      divide the slope by. */
  type Ready = net: Net | Shaped(net) && net.eps != 0.0
    witness Net(false, 0, 1.0, 1.0, 0, [0.0], [0.0], [[0.0]], [[[0.0]]], Dataset([[0.0, 0.0]], 2))

  /** The reference for a training pass: the turns of the parameters `ps`,
      in order, each against the same baseline error `base`, starting from
      `start`.  Parameters not in `ps` keep their values. */
  function Trained(act: real -> real, start: Ready, base: real, ps: seq<Param>): (r: Ready)
    requires AllParams(ShapeOf(start), ps)
    ensures ShapeOf(r) == ShapeOf(start) && SameButParams(start, r)
    decreases |ps|
  {
    if |ps| == 0 then start
    else
      var prev := Trained(act, start, base, ps[..|ps| - 1]);
      Turn(prev, ps[|ps| - 1], Nudged(act, prev, ps[|ps| - 1]), base)
  }

  /** A pass that visits anything leaves the last dataset row loaded. */
  lemma {:induction false} TrainedInputs(act: real -> real, start: Ready, base: real, ps: seq<Param>)
    requires AllParams(ShapeOf(start), ps)
    ensures Trained(act, start, base, ps).inputs == if |ps| == 0 then start.inputs else LastRowInputs(start)
  {
    if |ps| > 0 {
      var init, last := ps[..|ps| - 1], ps[|ps| - 1];
      assert AllParams(ShapeOf(start), init);
      var prev := Trained(act, start, base, init);
      assert Trained(act, start, base, ps) == Turn(prev, last, Nudged(act, prev, last), base);
      SameRows(prev, start);
    }
  }

  /** A pass leaves the parameters it does not visit as they were. */
  lemma {:induction false} TrainedKeeps(act: real -> real, start: Ready, base: real, ps: seq<Param>, q: Param)
    requires AllParams(ShapeOf(start), ps)
    requires HasParam(ShapeOf(start), q) && q !in ps
    ensures Get(Trained(act, start, base, ps), q) == Get(start, q)
    decreases |ps|
  {
    if |ps| > 0 {
      var init, last := ps[..|ps| - 1], ps[|ps| - 1];
      assert q !in init && q != last;
      assert AllParams(ShapeOf(start), init);
      TrainedKeeps(act, start, base, init, q);
      var prev := Trained(act, start, base, init);
      assert Trained(act, start, base, ps) == Turn(prev, last, Nudged(act, prev, last), base);
      assert HasParam(ShapeOf(prev), q);
    }
  }

  /** Networks that differ only in their parameters and state load the
      same last row. */
  lemma SameRows(a: Ready, b: Ready)
    requires SameButParams(b, a) && ShapeOf(a) == ShapeOf(b)
    ensures LastRowInputs(a) == LastRowInputs(b)
  {
    assert a.data == b.data && |a.inputs| == |b.inputs|;
  }

  /** Turns taken one after another compose: the pass over `ps + [p]` is
      the pass over `ps` followed by `p`'s turn. */
  lemma TrainedSnoc(act: real -> real, start: Ready, base: real, ps: seq<Param>, p: Param)
    requires AllParams(ShapeOf(start), ps)
    requires HasParam(ShapeOf(start), p)
    ensures AllParams(ShapeOf(start), ps + [p])
    ensures var prev := Trained(act, start, base, ps);
      Trained(act, start, base, ps + [p]) == Turn(prev, p, Nudged(act, prev, p), base)
  {
    AllParamsJoin(ShapeOf(start), ps, [p]);
    assert (ps + [p])[..|ps|] == ps;
  }

  /** The weights of neuron `neu` of layer `lay`, in index order. */
  function NeuronOrder(s: Shape, lay: nat, neu: nat): (ps: seq<Param>)
    requires lay < s.LayLen() && neu < s.NeuLen(lay)
    ensures AllParams(s, ps)
  {
    seq(s.weiLens[lay][neu], (w: int) requires 0 <= w => Weight(lay, neu, w))
  }

  /** The weights of the first `k` neurons of layer `lay`, neuron by neuron. */
  function WeightOrder(s: Shape, lay: nat, k: nat): (ps: seq<Param>)
    requires lay < s.LayLen() && k <= s.NeuLen(lay)
    ensures AllParams(s, ps)
  {
    if k == 0 then []
    else
      AllParamsJoin(s, WeightOrder(s, lay, k - 1), NeuronOrder(s, lay, k - 1));
      WeightOrder(s, lay, k - 1) + NeuronOrder(s, lay, k - 1)
  }

  /** Layer `lay`'s parameters in the order a pass visits them: its bias
      unless it is the output layer, then its weights. */
  function LayerOrder(s: Shape, lay: nat): (ps: seq<Param>)
    requires lay < s.LayLen()
    ensures AllParams(s, ps)
  {
    var head := if lay < s.LayLen() - 1 then [Bias(lay)] else [];
    AllParamsJoin(s, head, WeightOrder(s, lay, s.NeuLen(lay)));
    head + WeightOrder(s, lay, s.NeuLen(lay))
  }

  /** The parameters of the first `k` layers, layer by layer. */
  function PassOrder(s: Shape, k: nat): (ps: seq<Param>)
    requires k <= s.LayLen()
    ensures AllParams(s, ps)
  {
    if k == 0 then []
    else
      AllParamsJoin(s, PassOrder(s, k - 1), LayerOrder(s, k - 1));
      PassOrder(s, k - 1) + LayerOrder(s, k - 1)
  }

  /** The order in which a training pass visits the parameters. */
  function TrainOrder(s: Shape): (ps: seq<Param>)
    ensures AllParams(s, ps)
  {
    PassOrder(s, s.LayLen())
  }

  lemma {:induction false} WeightOrderHas(s: Shape, lay: nat, k: nat, p: Param)
    requires lay < s.LayLen() && k <= s.NeuLen(lay)
    ensures p in WeightOrder(s, lay, k) <==> HasParam(s, p) && p.Weight? && p.layer == lay && p.neuron < k
  {
    if k > 0 {
      WeightOrderHas(s, lay, k - 1, p);
      var ns := NeuronOrder(s, lay, k - 1);
      if p.Weight? && p.layer == lay && p.neuron == k - 1 && p.index < s.weiLens[lay][k - 1] {
        assert ns[p.index] == p;
      }
    }
  }

  lemma LayerOrderHas(s: Shape, lay: nat, p: Param)
    requires lay < s.LayLen()
    ensures p in LayerOrder(s, lay) <==> HasParam(s, p) && p.layer == lay && p != Bias(s.LayLen() - 1)
  {
    WeightOrderHas(s, lay, s.NeuLen(lay), p);
  }

  lemma {:induction false} PassOrderHas(s: Shape, k: nat, p: Param)
    requires k <= s.LayLen()
    ensures p in PassOrder(s, k) <==> HasParam(s, p) && p.layer < k && p != Bias(s.LayLen() - 1)
  {
    if k > 0 {
      PassOrderHas(s, k - 1, p);
      LayerOrderHas(s, k - 1, p);
    }
  }

  /** A pass visits every parameter except the output layer's bias, and
      nothing else. */
  lemma TrainOrderCovers(s: Shape, p: Param)
    ensures p in TrainOrder(s) <==> HasParam(s, p) && p != Bias(s.LayLen() - 1)
  {
    PassOrderHas(s, s.LayLen(), p);
  }

  /** A pass visits every parameter at most once. */
  lemma {:induction false} PassOrderOnce(s: Shape, k: nat)
    requires k <= s.LayLen()
    ensures forall i, j :: 0 <= i < j < |PassOrder(s, k)| ==> PassOrder(s, k)[i] != PassOrder(s, k)[j]
  {
    if k > 0 {
      PassOrderOnce(s, k - 1);
      LayerOrderOnce(s, k - 1);
      var a, b := PassOrder(s, k - 1), LayerOrder(s, k - 1);
      forall i, j | 0 <= i < |a| && 0 <= j < |b|
        ensures a[i] != b[j]
      {
        PassOrderHas(s, k - 1, a[i]);
        LayerOrderHas(s, k - 1, b[j]);
      }
      DistinctJoin(a, b);
    }
  }

  /** A layer's turn visits every parameter at most once. */
  lemma LayerOrderOnce(s: Shape, lay: nat)
    requires lay < s.LayLen()
    ensures forall i, j :: 0 <= i < j < |LayerOrder(s, lay)| ==> LayerOrder(s, lay)[i] != LayerOrder(s, lay)[j]
  {
    var ws := WeightOrder(s, lay, s.NeuLen(lay));
    WeightOrderOnce(s, lay, s.NeuLen(lay));
    if lay < s.LayLen() - 1 {
      assert LayerOrder(s, lay) == [Bias(lay)] + ws;
      forall i, j | 0 <= i < 1 && 0 <= j < |ws|
        ensures [Bias(lay)][i] != ws[j]
      {
        WeightOrderHas(s, lay, s.NeuLen(lay), ws[j]);
      }
      DistinctJoin([Bias(lay)], ws);
    } else {
      assert LayerOrder(s, lay) == ws;
    }
  }

  /** Joining two sequences without repeats and without common elements
      gives a sequence without repeats. */
  lemma DistinctJoin<T>(a: seq<T>, b: seq<T>)
    requires forall i, j :: 0 <= i < j < |a| ==> a[i] != a[j]
    requires forall i, j :: 0 <= i < j < |b| ==> b[i] != b[j]
    requires forall i, j :: 0 <= i < |a| && 0 <= j < |b| ==> a[i] != b[j]
    ensures forall i, j :: 0 <= i < j < |a + b| ==> (a + b)[i] != (a + b)[j]
  {
    forall i, j | 0 <= i < j < |a + b|
      ensures (a + b)[i] != (a + b)[j]
    {
      if j < |a| {
      } else if i < |a| {
        assert (a + b)[j] == b[j - |a|];
      } else {
        assert (a + b)[i] == b[i - |a|] && (a + b)[j] == b[j - |a|];
      }
    }
  }

  lemma {:induction false} WeightOrderOnce(s: Shape, lay: nat, k: nat)
    requires lay < s.LayLen() && k <= s.NeuLen(lay)
    ensures forall i, j :: 0 <= i < j < |WeightOrder(s, lay, k)| ==> WeightOrder(s, lay, k)[i] != WeightOrder(s, lay, k)[j]
  {
    if k > 0 {
      WeightOrderOnce(s, lay, k - 1);
      var a, b := WeightOrder(s, lay, k - 1), NeuronOrder(s, lay, k - 1);
      forall i, j | 0 <= i < |a| <= j < |a + b|
        ensures (a + b)[i] != (a + b)[j]
      {
        WeightOrderHas(s, lay, k - 1, a[i]);
      }
    }
  }

  /** The baseline measurement, taken once before the pass: the error and
      the network it leaves, of the same shape, parameters and settings,
      with the last dataset row loaded. */
  function Baseline(act: real -> real, net: Ready): (m: Measured)
    ensures m.err >= 0.0
    ensures Shaped(m.net) && ShapeOf(m.net) == ShapeOf(net) && SameButState(net, m.net)
    ensures m.net.eps == net.eps && m.net.inputs == LastRowInputs(net)
  {
    BaselineShape(act, net);
    Trial(act, net)
  }

  /** The baseline measurement leaves a network of the same shape and
      parameters, with the last dataset row loaded. */
  lemma BaselineShape(act: real -> real, net: Net)
    requires Shaped(net)
    ensures var m := Difference(act, net);
      && Shaped(m.net) && ShapeOf(m.net) == ShapeOf(net) && SameButState(net, m.net)
      && m.net.inputs == LastRowInputs(net)
  {
    ShapedState(net, Difference(act, net).net);
  }

  lemma ExtendPrefix<T>(a: seq<T>, b: seq<T>, k: nat)
    requires k < |b|
    ensures a + b[..k + 1] == (a + b[..k]) + [b[k]]
  {
    assert b[..k + 1] == b[..k] + [b[k]];
  }

  lemma WholePrefix<T>(a: seq<T>, b: seq<T>)
    ensures a + b[..0] == a && a + b[..|b|] == a + b
  {
    assert b[..|b|] == b;
  }

  lemma AppendNothing<T>(a: seq<T>)
    ensures a + [] == a
  {
  }

  lemma Regroup<T>(a: seq<T>, b: seq<T>, c: seq<T>)
    ensures a + (b + c) == a + b + c
  {
  }

  /** The step of a pass as a total function: a parameter's turn where the
      network has that parameter, the network itself elsewhere. */
  function TurnOf(act: real -> real, base: real, net: Net, p: Param): Net
  {
    if Shaped(net) && net.eps != 0.0 && HasParam(ShapeOf(net), p) then Turn(net, p, Nudged(act, net, p), base)
    else net
  }

  /** `f` is the step of a pass against the baseline error `base`. */
  ghost predicate Turns(f: (Net, Param) -> Net, act: real -> real, base: real)
  {
    forall net, p {:trigger TurnOf(act, base, net, p)} :: f(net, p) == TurnOf(act, base, net, p)
  }

  /** The steps `f` over `ps`, in order, from `start`. */
  function Fold(f: (Net, Param) -> Net, start: Net, ps: seq<Param>): Net
    decreases |ps|
  {
    if |ps| == 0 then start else f(Fold(f, start, ps[..|ps| - 1]), ps[|ps| - 1])
  }

  lemma FoldSnoc(f: (Net, Param) -> Net, start: Net, ps: seq<Param>, p: Param)
    ensures Fold(f, start, ps + [p]) == f(Fold(f, start, ps), p)
  {
    assert (ps + [p])[..|ps|] == ps;
  }

  /** Folding the step of a pass over parameters of the network is the
      reference pass. */
  lemma {:induction false} FoldTrained(act: real -> real, f: (Net, Param) -> Net, start: Ready, base: real, ps: seq<Param>)
    requires Turns(f, act, base) && AllParams(ShapeOf(start), ps)
    ensures Fold(f, start, ps) == Trained(act, start, base, ps)
    decreases |ps|
  {
    if |ps| > 0 {
      var init, last := ps[..|ps| - 1], ps[|ps| - 1];
      assert AllParams(ShapeOf(start), init);
      FoldTrained(act, f, start, base, init);
      var prev := Trained(act, start, base, init);
      assert f(prev, last) == TurnOf(act, base, prev, last);
      assert HasParam(ShapeOf(prev), last);
      assert TurnOf(act, base, prev, last) == Turn(prev, last, Nudged(act, prev, last), base);
    }
  }

  /** One step of a pass: `Step` where the network has the parameter, as
      every network of a pass from a ready network does (`FoldTrained`). */
  method StepOf(act: real -> real, f: (Net, Param) -> Net, base: real, net: Net, p: Param) returns (r: Net)
    requires Turns(f, act, base)
    ensures r == f(net, p)
  {
    if Shaped(net) && net.eps != 0.0 && HasParam(ShapeOf(net), p) {
      r := Step(act, net, base, p);
    } else {
      r := net;
    }
    assert r == TurnOf(act, base, net, p);
  }

  /** The weight loop of neuron `neu` of layer `lay` of a network of shape
      `s`: continues a pass that has taken the steps `done` with the steps
      of the neuron's weights. */
  method TrainNeuron(act: real -> real, f: (Net, Param) -> Net, base: real, s: Shape, start: Net,
                     done: seq<Param>, cur: Net, lay: nat, neu: nat) returns (next: Net)
    requires Turns(f, act, base)
    requires lay < s.LayLen() && neu < s.NeuLen(lay)
    requires cur == Fold(f, start, done)
    ensures next == Fold(f, start, done + NeuronOrder(s, lay, neu))
  {
    var ws := NeuronOrder(s, lay, neu);
    WholePrefix(done, ws);
    next := cur;
    for wei := 0 to s.weiLens[lay][neu]
      invariant next == Fold(f, start, done + ws[..wei])
    {
      FoldSnoc(f, start, done + ws[..wei], ws[wei]);
      ExtendPrefix(done, ws, wei);
      next := StepOf(act, f, base, next, Weight(lay, neu, wei));
    }
  }

  /** The neuron loop of layer `lay`: continues a pass that has taken the
      steps `done` with the steps of the layer's weights, neuron by neuron. */
  method TrainWeights(act: real -> real, f: (Net, Param) -> Net, base: real, s: Shape, start: Net,
                      done: seq<Param>, cur: Net, lay: nat) returns (next: Net)
    requires Turns(f, act, base)
    requires lay < s.LayLen()
    requires cur == Fold(f, start, done)
    ensures next == Fold(f, start, done + WeightOrder(s, lay, s.NeuLen(lay)))
  {
    AppendNothing(done);
    next := cur;
    for neu := 0 to s.NeuLen(lay)
      invariant next == Fold(f, start, done + WeightOrder(s, lay, neu))
    {
      NextNeuron(s, lay, neu, done);
      next := TrainNeuron(act, f, base, s, start, done + WeightOrder(s, lay, neu), next, lay, neu);
    }
  }

  lemma NextNeuron(s: Shape, lay: nat, neu: nat, done: seq<Param>)
    requires lay < s.LayLen() && neu < s.NeuLen(lay)
    ensures done + WeightOrder(s, lay, neu + 1) == done + WeightOrder(s, lay, neu) + NeuronOrder(s, lay, neu)
  {
    Regroup(done, WeightOrder(s, lay, neu), NeuronOrder(s, lay, neu));
  }

  /** Layer `lay`'s turn in a pass that has taken the steps `done`: its
      bias unless it is the output layer, then the neuron loop. */
  method TrainLayer(act: real -> real, f: (Net, Param) -> Net, base: real, s: Shape, start: Net,
                    done: seq<Param>, cur: Net, lay: nat) returns (next: Net)
    requires Turns(f, act, base)
    requires lay < s.LayLen()
    requires cur == Fold(f, start, done)
    ensures next == Fold(f, start, done + LayerOrder(s, lay))
  {
    LayerOrderParts(s, lay, done);
    if lay < s.LayLen() - 1 {
      FoldSnoc(f, start, done, Bias(lay));
      var biased := StepOf(act, f, base, cur, Bias(lay));
      next := TrainWeights(act, f, base, s, start, done + [Bias(lay)], biased, lay);
    } else {
      next := TrainWeights(act, f, base, s, start, done, cur, lay);
    }
  }

  lemma LayerOrderParts(s: Shape, lay: nat, done: seq<Param>)
    requires lay < s.LayLen()
    ensures lay < s.LayLen() - 1 ==>
      done + LayerOrder(s, lay) == done + [Bias(lay)] + WeightOrder(s, lay, s.NeuLen(lay))
    ensures lay == s.LayLen() - 1 ==> done + LayerOrder(s, lay) == done + WeightOrder(s, lay, s.NeuLen(lay))
  {
    var ws := WeightOrder(s, lay, s.NeuLen(lay));
    if lay < s.LayLen() - 1 {
      assert LayerOrder(s, lay) == [Bias(lay)] + ws;
      Regroup(done, [Bias(lay)], ws);
    } else {
      assert LayerOrder(s, lay) == [] + ws;
      assert [] + ws == ws;
    }
  }

  /** The layer loop over a network of shape `s`: every layer's steps, in
      order, from `start`. */
  method TrainPass(act: real -> real, f: (Net, Param) -> Net, base: real, s: Shape, start: Net) returns (next: Net)
    requires Turns(f, act, base)
    ensures next == Fold(f, start, TrainOrder(s))
  {
    next := start;
    for lay := 0 to s.LayLen()
      invariant next == Fold(f, start, PassOrder(s, lay))
    {
      NextLayer(s, lay);
      next := TrainLayer(act, f, base, s, start, PassOrder(s, lay), next, lay);
    }
  }

  lemma NextLayer(s: Shape, lay: nat)
    requires lay < s.LayLen()
    ensures PassOrder(s, 0) == [] && PassOrder(s, lay + 1) == PassOrder(s, lay) + LayerOrder(s, lay)
  {
  }

  /** What a pass from a ready network leaves: the same shape, settings and
      dataset, and the last dataset row loaded as inputs. */
  lemma PassFrom(act: real -> real, start: Ready, base: real)
    ensures var r := Trained(act, start, base, TrainOrder(ShapeOf(start)));
      && ShapeOf(r) == ShapeOf(start)
      && SameSettings(start, r) && r.data == start.data
      && r.inputs == LastRowInputs(start)
  {
    TrainedInputs(act, start, base, TrainOrder(ShapeOf(start)));
  }

  /** A pass leaves the output layer's bias as it was. */
  lemma PassKeepsOutputBias(act: real -> real, start: Ready, base: real)
    ensures var r := Trained(act, start, base, TrainOrder(ShapeOf(start)));
      r.biases[start.LayLen() - 1] == start.biases[start.LayLen() - 1]
  {
    var s := ShapeOf(start);
    var out := Bias(start.LayLen() - 1);
    TrainOrderCovers(s, out);
    TrainedKeeps(act, start, base, TrainOrder(s), out);
    GetBias(Trained(act, start, base, TrainOrder(s)), start.LayLen() - 1);
    GetBias(start, start.LayLen() - 1);
  }

  lemma GetBias(net: Ready, l: nat)
    requires l < net.LayLen()
    ensures Get(net, Bias(l)) == net.biases[l]
  {
  }

  /** The loops of `CNNFW_Train` after the baseline is measured: the pass
      they take from `start` is every parameter's turn against `base`, in
      the order of `TrainOrder`. */
  method TrainFrom(act: real -> real, start: Ready, base: real) returns (trained: Ready)
    ensures trained == Trained(act, start, base, TrainOrder(ShapeOf(start)))
    ensures ShapeOf(trained) == ShapeOf(start) && SameSettings(start, trained) && trained.data == start.data
    ensures trained.inputs == LastRowInputs(start)
    ensures trained.biases[start.LayLen() - 1] == start.biases[start.LayLen() - 1]
  {
    var f := (net: Net, p: Param) => TurnOf(act, base, net, p);
    assert Turns(f, act, base);
    var next := TrainPass(act, f, base, ShapeOf(start), start);
    FoldTrained(act, f, start, base, TrainOrder(ShapeOf(start)));
    PassFrom(act, start, base);
    PassKeepsOutputBias(act, start, base);
    trained := next;
  }

  /** `CNNFW_Train`: the error is measured once as the baseline; then every
      parameter but the output layer's bias takes its turn against that
      baseline, in the order of `TrainOrder`; the network is marked
      changed.  A null network fails. */
  method Train(act: real -> real, h: Option<Ready>) returns (r: Outcome<Net>)
    ensures r.Ok? <==> h.Some?
    ensures !r.Undefined?
    ensures r.Ok? ==> var b := Baseline(act, h.value);
      r.value == Trained(act, b.net, b.err, TrainOrder(ShapeOf(h.value))).(isChanged := true)
    ensures r.Ok? ==> Shaped(r.value) && ShapeOf(r.value) == ShapeOf(h.value)
    ensures r.Ok? ==> r.value.isChanged && SameSettings(h.value, r.value) && r.value.data == h.value.data
    ensures r.Ok? ==> r.value.inputs == LastRowInputs(h.value)
    ensures r.Ok? ==> r.value.biases[h.value.LayLen() - 1] == h.value.biases[h.value.LayLen() - 1]
  {
    if h.None? {
      return Fail;
    }
    var m := Baseline(act, h.value);
    var trained := TrainFrom(act, m.net, m.err);
    SameRows(m.net, h.value);
    assert m.net.LayLen() == h.value.LayLen() && m.net.biases == h.value.biases;
    assert trained.biases[m.net.LayLen() - 1] == m.net.biases[m.net.LayLen() - 1];
    r := Ok(trained.(isChanged := true));
  }
}
