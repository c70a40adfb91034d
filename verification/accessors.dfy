/** The bounds-checked setters and getters of a network: inputs, outputs,
    dataset cells, epsilon and learning step, activation state.  A network
    argument of `None` is the C null pointer. */
module Accessors {
  import opened Layout
  import opened Outcomes
  import opened Network

  /** `set_inputs`: replaces the whole input vector with one of the same
      length. */
  function SetInputs(h: Option<Net>, newInputs: Option<seq<real>>): (r: Outcome<Net>)
    ensures r.Ok? <==> h.Some? && newInputs.Some? && |newInputs.value| == |h.value.inputs|
    ensures !r.Undefined?
    ensures r.Ok? ==> r.value.inputs == newInputs.value
    ensures r.Ok? ==> r.value.(inputs := h.value.inputs) == h.value
  {
    if h.None? || newInputs.None? then Fail
    else if |h.value.inputs| != |newInputs.value| then Fail
    else Ok(h.value.(inputs := newInputs.value))
  }

  /** `CNNFW_SetInput` as written: its guard `index > inpLen` lets
      `index == inpLen` through, and the write then lands one slot past the
      input vector, which is the bias of the first layer record (the layer
      records follow the inputs and `bias` is a layer's first field).
      Without a layer record the slot is the first row pointer, which the
      write overwrites with a number, or, without rows either, lies
      outside the block. */
  function SetInputAsWritten(h: Option<Net>, index: nat, value: real): (r: Outcome<Net>)
    ensures r.Fail? <==> h.None? || index > |h.value.inputs|
    ensures r.Undefined? <==> h.Some? && index == |h.value.inputs| && |h.value.biases| == 0
    ensures r.Ok? && index < |h.value.inputs| ==>
      && |r.value.inputs| == |h.value.inputs| && r.value.inputs[index] == value
      && (forall i :: 0 <= i < |h.value.inputs| && i != index ==> r.value.inputs[i] == h.value.inputs[i])
      && r.value.(inputs := h.value.inputs) == h.value
    ensures r.Ok? && index == |h.value.inputs| ==>
      && |r.value.biases| == |h.value.biases| && r.value.biases[0] == value
      && (forall l :: 0 < l < |h.value.biases| ==> r.value.biases[l] == h.value.biases[l])
      && r.value.(biases := h.value.biases) == h.value
  {
    if h.None? then Fail
    else if index > |h.value.inputs| then Fail
    else if index == |h.value.inputs| then
      if |h.value.biases| == 0 then Undefined
      else Ok(h.value.(biases := h.value.biases[0 := value]))
    else Ok(h.value.(inputs := h.value.inputs[index := value]))
  }

  /** The slot `CNNFW_SetInput` writes for `index`. */
  function InputSlot(u: Units, index: nat): nat
  {
    InputsAt(u) + u.num * index
  }

  /** The write the as-written guard admits at `index == inpLen` is the
      first slot of the first layer record: it lies outside the input
      vector, reports success, leaves the inputs as they were and sets layer
      0's bias instead, where the bounded setter fails. */
  lemma SetInputPastEnd(u: Units, net: Net, value: real)
    requires WellFormed(u, net) && u.Valid()
    ensures SetInputAsWritten(Some(net), |net.inputs|, value) == Ok(net.(biases := net.biases[0 := value]))
    ensures SetInput(Some(net), |net.inputs|, value) == Fail
    ensures InputSlot(u, |net.inputs|) == LayersAt(u, ShapeOf(net))
    ensures InputSlot(u, |net.inputs|) >= InputsAt(u) + u.num * |net.inputs|
  {
  }

  /** Below the input width the as-written setter and the bounded one
      agree. */
  lemma SetInputAgrees(h: Option<Net>, index: nat, value: real)
    requires h.Some? ==> index < |h.value.inputs|
    ensures SetInputAsWritten(h, index, value) == SetInput(h, index, value)
  {
  }

  /** `CNNFW_SetInput` with the bound the header promises: an index at or
      beyond the input width fails. */
  function SetInput(h: Option<Net>, index: nat, value: real): (r: Outcome<Net>)
    ensures r.Ok? <==> h.Some? && index < |h.value.inputs|
    ensures !r.Undefined?
    ensures r.Ok? ==> |r.value.inputs| == |h.value.inputs| && r.value.inputs[index] == value
    ensures r.Ok? ==> forall i :: 0 <= i < |h.value.inputs| && i != index ==> r.value.inputs[i] == h.value.inputs[i]
    ensures r.Ok? ==> r.value.(inputs := h.value.inputs) == h.value
  {
    if h.None? || index >= |h.value.inputs| then Fail
    else Ok(h.value.(inputs := h.value.inputs[index := value]))
  }

  /** `CNNFW_GetOutput`: the value of output neuron `index`.  `outIsNull`
      is a null result pointer, which the C code does not check: it writes
      through it once the network and the index have passed. */
  function GetOutput(h: Option<Net>, index: nat, outIsNull: bool): (r: Outcome<real>)
    requires h.Some? ==> Aligned(h.value) && h.value.LayLen() >= 1
    ensures r.Fail? <==> h.None? || index >= h.value.NeuLen(h.value.LayLen() - 1)
    ensures r.Undefined? <==> !r.Fail? && outIsNull
    ensures r.Ok? ==> r.value == h.value.values[h.value.LayLen() - 1][index]
  {
    if h.None? then Fail
    else
      var last := h.value.LayLen() - 1;
      if index >= h.value.NeuLen(last) then Fail
      else if outIsNull then Undefined
      else Ok(h.value.values[last][index])
  }

  predicate InData(d: Dataset, row: nat, col: nat)
  {
    row < |d.cells| && col < d.cols
  }

  /** `CNNFW_SetValueInData`: writes one cell of the dataset.  It reads
      nothing but the dataset, so any network with rows of `cols` numbers
      is accepted, a consistent one or not. */
  function SetValueInData(h: Option<Net>, row: nat, col: nat, value: real): (r: Outcome<Net>)
    requires h.Some? ==> Rectangular(h.value.data)
    ensures r.Ok? <==> h.Some? && InData(h.value.data, row, col)
    ensures !r.Undefined?
    ensures r.Ok? ==> Rectangular(r.value.data) && ShapeOf(r.value) == ShapeOf(h.value)
    ensures r.Ok? && Shaped(h.value) ==> Shaped(r.value)
    ensures r.Ok? ==> r.value.data.cells[row][col] == value
    ensures r.Ok? ==> forall i, j :: 0 <= i < |h.value.data.cells| && 0 <= j < h.value.data.cols && (i, j) != (row, col)
                        ==> r.value.data.cells[i][j] == h.value.data.cells[i][j]
    ensures r.Ok? ==> r.value.(data := h.value.data) == h.value
  {
    if h.None? then Fail
    else
      var d := h.value.data;
      if row >= |d.cells| || col >= d.cols then Fail
      else
        var cells := d.cells[row := d.cells[row][col := value]];
        var net' := h.value.(data := d.(cells := cells));
        assert ShapeOf(net') == ShapeOf(h.value);
        Ok(net')
  }

  /** `CNNFW_GetValueFromData`; `outIsNull` is the null result pointer the
      C code also rejects. */
  function GetValueFromData(h: Option<Net>, row: nat, col: nat, outIsNull: bool): (r: Outcome<real>)
    requires h.Some? ==> Rectangular(h.value.data)
    ensures r.Ok? <==> h.Some? && !outIsNull && InData(h.value.data, row, col)
    ensures !r.Undefined?
    ensures r.Ok? ==> r.value == h.value.data.cells[row][col]
  {
    if h.None? || outIsNull then Fail
    else if row >= |h.value.data.cells| || col >= h.value.data.cols then Fail
    else Ok(h.value.data.cells[row][col])
  }

  /** A cell read back after it is set holds the value set; every other
      cell reads as before. */
  lemma GetAfterSet(net: Net, row: nat, col: nat, value: real, i: nat, j: nat)
    requires Rectangular(net.data) && InData(net.data, row, col)
    ensures SetValueInData(Some(net), row, col, value).Ok?
    ensures GetValueFromData(Some(SetValueInData(Some(net), row, col, value).value), row, col, false) == Ok(value)
    ensures (i, j) != (row, col) ==>
              GetValueFromData(Some(SetValueInData(Some(net), row, col, value).value), i, j, false)
              == GetValueFromData(Some(net), i, j, false)
  {
  }

  /** `CNNFW_SetEpsilonAndLearningStep`: both must be positive. */
  function SetEpsilonAndLearningStep(h: Option<Net>, eps: real, step: real): (r: Outcome<Net>)
    ensures r.Ok? <==> h.Some? && eps > 0.0 && step > 0.0
    ensures !r.Undefined?
    ensures r.Ok? ==> r.value.eps == eps && r.value.step == step
    ensures r.Ok? ==> r.value.(eps := h.value.eps, step := h.value.step) == h.value
  {
    if h.None? then Fail
    else if eps <= 0.0 then Fail
    else if step <= 0.0 then Fail
    else Ok(h.value.(eps := eps, step := step))
  }

  /** `CNNFW_SetActivationFunction` as written: any integer is stored. */
  function SetActivationFunctionAsWritten(h: Option<Net>, state: int): (r: Outcome<Net>)
    ensures r.Ok? <==> h.Some?
    ensures !r.Undefined?
    ensures r.Ok? ==> r.value.actFunc == state && r.value.(actFunc := h.value.actFunc) == h.value
  {
    if h.None? then Fail else Ok(h.value.(actFunc := state))
  }

  /** `CNNFW_SetActivationFunction` accepting only the two states the
      header names. */
  function SetActivationFunction(h: Option<Net>, state: int): (r: Outcome<Net>)
    ensures r.Ok? <==> h.Some? && (state == ENABLE || state == DISABLE)
    ensures !r.Undefined?
    ensures r.Ok? ==> r.value.actFunc == state && r.value.(actFunc := h.value.actFunc) == h.value
  {
    if h.None? then Fail
    else if state != ENABLE && state != DISABLE then Fail
    else Ok(h.value.(actFunc := state))
  }
}
