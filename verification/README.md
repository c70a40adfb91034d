# cNNFW in Dafny

A model of the cNNFW engine: a small fully connected feed-forward neural network
held in one contiguous heap block. The block holds:

- the private header (`PRIVATE`);
- the input vector;
- the layer records;
- the neuron records;
- every neuron's weight vector;
- the row-pointer table and the rows of the training dataset.

The model covers these parts:

- **Layout** (`layout.dfy`, `layout_proofs.dfy`). Where every region of the
  block starts, as a pure function of the stored size fields. Record sizes are
  symbolic slot widths (`Units`). The layout is seen two ways: as closed-form
  offsets, which is what `create` and `CNNFW_LoadFromFile` compute pointer by
  pointer, and as a list of block lengths that tile the block. They are proved
  to agree. The size `create` allocates is proved equal to the end of the
  layout.
- **Network** (`network.dfy`). The data held in the block, seen through its
  references: the header fields, inputs, biases, neuron values, weights and
  dataset.
- **Construction** (`construction.dfy`). `create`: its argument checks in the
  source's order, the allocation outcome, and the initial contents. Random
  weights come from an injected `rand()` stream.
- **Placement** (`placement.dfy`). The loops that recompute every internal
  pointer, proved to land on the layout's offsets.
- **Accessors** (`accessors.dfy`). Inputs, outputs, dataset cells, epsilon and
  learning step, and the activation state.
- **Evaluate** (`evaluate.dfy`). `CNNFW_Calculate`, the forward pass, and
  `difference`, the mean squared error over the dataset. Both work over reals
  with an injected activation function.
- **Training** (`training.dfy`). `CNNFW_Train`: one finite-difference step per
  hidden-layer bias and per weight, in loop order. Every step measures the
  network as already updated, against the error measured once before the
  loops. The loops are proved equal to a reference fold of these steps.
- **Genetics** (`genetics.dfy`). `CNNFW_Mutation` and
  `CNNFW_WeightsCrossingower`.
- **Persistence and Storage** (`persistence.dfy`, `storage.dfy`).
  `CNNFW_SaveToFile` writes the block verbatim. `CNNFW_LoadFromFile` reads the
  header, reads the block back, and re-derives every pointer.
  - The block is modelled as a sequence of cells, one per slot. Each record's
    first slot carries its fields and the rest are padding.
  - Saving writes the encoding of the network.
  - Loading cuts the image into the layout's blocks and decodes them.
  - `decode(encode(net)) == net.(isChanged := false)` is proved: the changed
    flag is not stored. So is "save, then load, gives the saved network back,
    not marked changed".

Outcomes follow the C return codes. `Ok` is 0 with its result and `Fail` is 1.
`Undefined` marks the paths where the C code has undefined behaviour:

- it reads or writes outside the block;
- it reads memory of another type as a number or a record (a row pointer
  read as a weight, weights read as a neuron record), or writes a number
  over a row pointer;
- it writes through a null result pointer (`CNNFW_GetOutput`);
- it divides by zero.

Apart from `Accessors.GetOutput`, only the as-written members of the findings
below can end in `Undefined`. One out-of-block access is not among them: a
block loaded as written is padded with zeros up to its layout, so a later
read or write past the stated `structureSize` that lands inside the layout is
modelled as an access to a zero slot (see `Storage.LoadAsWritten` under
"## Left out"). An access that stays inside the block and
lands on a field of the same type is modelled as that access:
`CNNFW_SetInput` at `index == inpLen` writes layer 0's bias, and a crossover
copy past a source neuron's weights reads the next neuron's weights.

Handles are modelled as follows:

- an `N_NET` is an `Option<Net>`, with `None` for NULL;
- an `N_NET *` is a `Target`: either a null pointer, or a handle that is empty
  or already holds a network.

`fopen`, `fread`, `fwrite`, `malloc` and `rand` become parameters: whether the
file opens, how much of it is written, whether the allocation succeeds, and the
stream of random draws.

## Model

| member | source | states |
|---|---|---|
| LayoutProofs.PlacementChain | src/cNNFW.c:129-182 | each region starts where the previous one ends: inputs after the header, layers after the inputs, neurons after the layers, weights after the last neuron record, the row table after the last weight vector, rows one after another |
| LayoutProofs.BlocksMatchOffsets | src/cNNFW.c:630-654 | the start of every block in the tiling is the pointer the re-derivation loops compute for it, and the blocks add up to the end of the layout |
| LayoutProofs.BlocksTile | src/cNNFW.c:109-120 | the blocks start at 0, follow one another without gaps or overlap, and end at the end of the layout |
| LayoutProofs.CreateSizeFits | src/cNNFW.c:109-120 | the byte count `create` sums up and allocates is exactly the end of the layout its pointers then use, so no region falls outside the block |
| LayoutProofs.ConfigRecordSums | src/cNNFW.c:111-116 | the record and weight sums of the allocation loop equal the neuron-region end and the weight-region size of the layout |
| LayoutProofs.ConfigWeightCounts | src/cNNFW.c:115 | layer `l` of a configured network holds `config[l+1] * config[l]` weights |
| LayoutProofs.DataBytesIsRows | src/cNNFW.c:118 | the data bytes are one pointer per row plus `inputs + outputs` numbers per row |
| LayoutProofs.ConfigShapeConsistent | src/cNNFW.c:87-107 | a configuration that passes `create`'s checks describes a consistent network: at least one layer, no empty layer, every neuron fed by the whole preceding layer, dataset columns = inputs + outputs |
| Placement.DeriveNeurons | src/cNNFW.c:632-638 | the loop sets layer `l`'s neuron pointer to the layout's offset for it |
| Placement.DeriveLayerWeights | src/cNNFW.c:640-649 | the weight pointers of one layer's neurons are the layout's offsets, each right after the previous neuron's weights |
| Placement.FirstWeights | src/cNNFW.c:642-643 | the first weight vector starts right after the last neuron record |
| Placement.NextLayerWeights | src/cNNFW.c:644-645 | a layer's first weight vector starts right after the previous layer's last weight vector |
| Placement.DeriveWeights | src/cNNFW.c:640-649 | every neuron's weight pointer is the layout's offset for it |
| Placement.DeriveRows | src/cNNFW.c:651-654 | every dataset row pointer, computed as the C loop does from the table start, the row count and `i * cols`, is the layout's offset of that row, and each row starts `cols` numbers after the previous one |
| Placement.DeriveRefs | src/cNNFW.c:630-654 | every re-derived pointer (inputs, layers, neurons, weights, row table, rows) matches the layout |
| Construction.DrawnWeight | src/cNNFW.c:168 | a drawn initial weight lies in [-1, 1] |
| Construction.WeightOrdinalsInLoopOrder | src/cNNFW.c:165-171 | the draw numbers follow the creation loop: the first weight takes draw 0, a neuron's first weight takes the draw after the previous neuron's last, a layer's first weight the draw after the previous layer's last, and the last layer ends at the total weight count |
| Construction.WeightOrdinalsIncrease | src/cNNFW.c:165-171 | a weight visited later by the layer, neuron, weight loops takes a later draw |
| Construction.WeightOrdinalsDistinct | src/cNNFW.c:165-171 | no two weights take the same draw |
| Construction.WeightOrdinalBelow | src/cNNFW.c:165-171 | every weight's draw number is below the total weight count |
| Construction.WeightOrdinalOnto | src/cNNFW.c:165-171 | every draw number below the total weight count is taken by some weight, so the loops consume exactly that many draws |
| Construction.Create | src/cNNFW.c:67-195 | succeeds exactly when the target is an empty handle, the configuration is present with at least two entries all >= 1, rows >= 1 and the allocation succeeds; the result is well formed, has the configured shape, is not marked changed, and is the freshly initialised network whose contents `Construction.CreateContents` describes |
| Construction.CreateLayerShape | src/cNNFW.c:144-155 | layer `l` has `config[l+1]` neurons, each with `config[l]` weights |
| Construction.CreateShape | src/cNNFW.c:109-186 | the network `create` builds has the configured shape and its stored size equals its layout |
| Construction.CreateContents | src/cNNFW.c:127-190 | inputs, biases, neuron values and data cells start at 0, weights start in [-1, 1], activation enabled, eps and step 0.01, not marked changed |
| Accessors.SetInputs | src/cNNFW.c:360-381 | succeeds exactly when both pointers are present and the lengths agree; replaces the inputs and nothing else |
| Accessors.SetInputAsWritten | src/cNNFW.c:383-398 | as written: fails exactly for a null network or `index > inpLen`; below `inpLen` it sets that input and keeps everything else; at `index == inpLen` it reports success and overwrites layer 0's bias instead, keeping the inputs and everything else |
| Accessors.SetInputPastEnd | src/cNNFW.c:390-395 | as written, the write at `index == inpLen` succeeds, lands on the slot where the layer records start, and sets layer 0's bias; the corrected operation refuses it |
| Accessors.SetInputAgrees | src/cNNFW.c:383-398 | for a null network or an index below `inpLen` the source's operation and the corrected one give the same outcome |
| Accessors.SetInput | src/cNNFW.c:383-398 | corrected: succeeds exactly for `index < inpLen`; sets that input, keeps every other input and every other field |
| Accessors.GetOutput | src/cNNFW.c:400-415 | fails exactly for a null network or an index at or past the output layer's neuron count; past those checks a null result pointer is written through (undefined), otherwise it returns that output neuron's value |
| Evaluate.OutputAfterCalculate | src/cNNFW.c:275-286 | an output read after a calculation is the output neuron's weighted sum of the values feeding the output layer, with no bias and no activation |
| Accessors.SetValueInData | src/cNNFW.c:511-534 | for any network whose data rows are `cols` wide, consistent or not: succeeds exactly for a cell inside the dataset; sets that cell and leaves every other cell, the shape and every other field alone, so a consistent network stays consistent |
| Accessors.GetValueFromData | src/cNNFW.c:536-563 | for any network whose data rows are `cols` wide: succeeds exactly when the network and out-pointer are present and the cell is inside the dataset, and then returns that cell's value |
| Accessors.GetAfterSet | src/cNNFW.c:511-563 | on a dataset with rows `cols` wide, reading a cell after setting it gives the value set; every other cell reads as before |
| Accessors.SetEpsilonAndLearningStep | src/cNNFW.c:489-509 | succeeds exactly for positive eps and step; stores both and changes nothing else |
| Accessors.SetActivationFunctionAsWritten | src/cNNFW.c:300-310 | as written: any integer state is stored whenever the network is present |
| Accessors.SetActivationFunction | src/cNNFW.c:300-310 | corrected: only ENABLE or DISABLE is accepted; stores it and changes nothing else |
| Evaluate.ShapedWired | src/cNNFW.c:277-283 | in a consistent network every weight the forward pass reads has an input or previous-layer value to multiply |
| Evaluate.LayerOutAt | src/cNNFW.c:275-293 | a neuron's value is the activation of the weighted sum of its feed |
| Evaluate.ForwardSettles | src/cNNFW.c:273-296 | each layer's values are computed from the inputs or the previous layer's new values |
| Evaluate.Calculate | src/cNNFW.c:264-298 | fails exactly for a null network; otherwise only the neuron values change |
| Evaluate.CalculateSettles | src/cNNFW.c:273-296 | after the pass, each neuron value is the activation of the bias plus the weighted sum of its feed; the output layer is linear |
| Evaluate.CalculateIgnoresValues | src/cNNFW.c:275-276 | the result does not depend on the values held before the pass |
| Evaluate.CalculateIdempotent | src/cNNFW.c:264-298 | running the pass twice gives the same network as running it once |
| Evaluate.UnknownStateZeroesHidden | src/cNNFW.c:276-292 | with an activation state other than ENABLE or DISABLE, every hidden neuron's value is left at 0 |
| Evaluate.SquaredErrorZero | src/cNNFW.c:213-216 | a row's squared error is 0 exactly when every output equals its expected column |
| Evaluate.TotalZero | src/cNNFW.c:206-217 | the summed error is nonnegative and 0 exactly when every row's error is 0 |
| Evaluate.MeanZero | src/cNNFW.c:219 | the mean error is nonnegative and 0 exactly when every row's error is 0 |
| Evaluate.RowRun | src/cNNFW.c:207-211 | loading a row's inputs and running the pass leaves the network holding that row's inputs and the predicted outputs |
| Evaluate.Difference | src/cNNFW.c:201-220 | the mean squared error is nonnegative |
| Evaluate.DifferenceZero | src/cNNFW.c:201-220 | the mean squared error is 0 exactly when every row's error is 0 |
| Evaluate.RowErrorZero | src/cNNFW.c:213-216 | a row's error is 0 exactly when the prediction for its inputs matches its expected outputs |
| Evaluate.RowErrorsIgnoreState | src/cNNFW.c:206-211 | the row errors do not depend on the inputs or values the network held before |
| Evaluate.DifferencePass | src/cNNFW.c:207-217 | one iteration of the row loop leaves the network as that row's run and the running total as the sum of the rows' errors so far |
| Evaluate.DifferenceLoop | src/cNNFW.c:201-220 | the loop computes the mean of the row errors and leaves the network as the last row's run |
| Training.Put | src/cNNFW.c:245-254 | writing one bias or weight changes that parameter and no other, and keeps the shape and every other field |
| Training.Nudged | src/cNNFW.c:242-244 | the trial error is nonnegative and measured on the network with only that parameter raised by eps |
| Training.NudgedIsDifference | src/cNNFW.c:243-244 | the trial measurement is `difference` run on the network with only that parameter raised by eps, which keeps the shape |
| Training.PutTwice | src/cNNFW.c:245-246 | writing a parameter twice is the same as writing the second value |
| Training.MoveSign | src/cNNFW.c:246 | with positive eps and step, the correction is positive when the trial error is higher, 0 when equal, negative when lower |
| Training.Turn | src/cNNFW.c:242-254 | one update keeps the shape, dataset and settings, leaves the last row loaded, moves the parameter by step times the finite-difference slope and keeps every other parameter |
| Training.TurnSign | src/cNNFW.c:246 | the parameter goes down when nudging it raised the error, stays when the error is unchanged, and goes up when it fell |
| Training.RestoreThenMove | src/cNNFW.c:245-246 | restoring the saved value over the nudged network and then subtracting the correction lands on the update |
| Training.Step | src/cNNFW.c:242-254 | the statements of one update compute the turn of that parameter against the baseline error |
| Training.Restore | src/cNNFW.c:245-246 | given a trial measurement of the parameter, writing the saved value back and subtracting the correction computes the turn for that measurement |
| Training.Trained | src/cNNFW.c:240-257 | updates applied one after another keep the shape, dataset and settings |
| Training.TrainedInputs | src/cNNFW.c:244-252 | after at least one update the network holds the last dataset row's inputs |
| Training.TrainedKeeps | src/cNNFW.c:240-257 | a parameter not in the visited list keeps its value |
| Training.TrainedSnoc | src/cNNFW.c:240-257 | the updates over a list followed by one more parameter are that parameter's update after the updates over the list |
| Training.TrainOrderCovers | src/cNNFW.c:240-257 | the loops visit every bias and weight except the output layer's bias |
| Training.PassOrderOnce | src/cNNFW.c:240-257 | the loops visit no parameter twice |
| Training.FoldTrained | src/cNNFW.c:240-257 | running the loops' update function over a list of parameters gives the reference sequence of updates |
| Training.StepOf | src/cNNFW.c:242-254 | one step of the loops is the update function applied to that parameter |
| Training.TrainNeuron | src/cNNFW.c:249-255 | the weight loop applies the updates to the neuron's weights in index order |
| Training.TrainWeights | src/cNNFW.c:248-256 | the neuron loop applies the updates to every neuron's weights, neuron by neuron |
| Training.TrainLayer | src/cNNFW.c:241-256 | a layer's pass updates its bias first (hidden layers only), then its weights neuron by neuron |
| Training.TrainPass | src/cNNFW.c:240-257 | the layer loop applies the updates in the order layer, bias, neuron, weight |
| Training.TrainFrom | src/cNNFW.c:238-257 | the loops, run from the measured network against the baseline error, produce the reference pass; it keeps the shape, settings, dataset and output bias and leaves the last row's inputs loaded |
| Training.PassFrom | src/cNNFW.c:238-257 | a whole pass keeps the shape, settings and dataset and leaves the last row's inputs loaded |
| Training.PassKeepsOutputBias | src/cNNFW.c:241 | a whole pass leaves the output layer's bias unchanged |
| Training.Train | src/cNNFW.c:222-262 | fails exactly for a null network; otherwise the result is the whole pass of updates, each against the error measured once before the loops, marked changed; it keeps the shape, settings, dataset and output bias and leaves the last row's inputs loaded |
| Genetics.MutateNeuron | src/cNNFW.c:429-436 | every weight is either kept or replaced by a fresh draw in [-1, 1] |
| Genetics.MutateLayers | src/cNNFW.c:427-438 | every neuron of every layer is mutated weight by weight; the shape is kept |
| Genetics.MutationAsWritten | src/cNNFW.c:417-443 | as written: a zero probability divides by zero; otherwise the same as the corrected operation |
| Genetics.Mutation | src/cNNFW.c:417-443 | corrected: fails for a null network or zero probability; when the first draw selects mutation every weight is kept or redrawn and the network is marked changed, otherwise nothing changes |
| Genetics.MutationKeepsUnitWeights | src/cNNFW.c:434 | mutation keeps every weight in [-1, 1] |
| Genetics.CopyRange | src/cNNFW.c:479 | coin 0 copies `[0, w - w/2)`, the lower half plus the middle weight when `w` is odd; coin 1 copies `[w/2, w)`, the upper half plus the middle weight |
| Genetics.HalvesOverlap | src/cNNFW.c:479 | both ranges include the middle weight, so for odd widths it is copied either way |
| Genetics.CrossNeuron | src/cNNFW.c:477-481 | the chosen half of the neuron's weights comes from the source and the rest stays the destination's |
| Genetics.CrossWeights | src/cNNFW.c:475-483 | every neuron is crossed with its own coin; every weight ends up the destination's or the source's |
| Genetics.MatchesIffSameLens | src/cNNFW.c:460-473 | validating every layer is the same as comparing all weight counts |
| Genetics.ReadOwn | src/cNNFW.c:480 | a copy read inside the source neuron's own weight vector returns that weight |
| Genetics.ReadNext | src/cNNFW.c:480 | a copy read just past the source neuron's own weights returns the next neuron's first weights, since the weight vectors lie end to end in the block |
| Genetics.ReadsStayOwn | src/cNNFW.c:475-483 | when every copied index lies inside the source neuron's vector, the copy through pointers is the corrected copy |
| Genetics.CrossoverAsWritten | src/cNNFW.c:445-487 | as written, on any networks, consistent or not: fails exactly for a null network, different layer counts or a mismatch below the output layer; undefined exactly when there are no layers (`layLen - 1` wraps around) or a copy read leaves the source's neuron records or weight region; otherwise crosses through the source's pointers, and like the corrected copy when the reads stay in place |
| Genetics.Crossover | src/cNNFW.c:445-487 | corrected, on any networks: succeeds exactly when both networks are present with identical weight counts; only weights change, the shape is kept, a consistent destination stays consistent and the result is marked changed |
| Genetics.CrossoverHalves | src/cNNFW.c:475-483 | each neuron's chosen half comes from the source, the rest from the destination |
| Genetics.CrossoverAgrees | src/cNNFW.c:445-487 | on networks with at least one layer and the same weight counts the source's operation and the corrected one agree |
| Genetics.CrossoverWithItself | src/cNNFW.c:475-484 | crossing any network with itself changes only its changed flag |
| Genetics.CrossoverKeepsUnitWeights | src/cNNFW.c:480 | crossover keeps every weight in [-1, 1] when both parents do |
| Genetics.CrossoverReadsPastSource | src/cNNFW.c:460-480 | an output layer wider in the destination passes validation and, with coin 1, reads past the source's whole weight region |
| Genetics.CrossoverReadsNextNeuron | src/cNNFW.c:460-486 | two one-layer networks of two neurons with 3 and 2 inputs pass validation; the first neuron copies the second source neuron's first weight as its third weight, and the call succeeds |
| Genetics.CrossoverMixesShapes | src/cNNFW.c:460-484 | networks that differ in the output layer are crossed without complaint |
| Genetics.CrossoverRefusesMismatch | src/cNNFW.c:455-472 | the corrected operation refuses networks whose weight counts differ |
| Persistence.CellBlockLens | src/cNNFW.c:582 | the encoded regions have exactly the layout's block lengths |
| Persistence.UnspreadSpread | src/cNNFW.c:622 | reading the fields back out of padded records returns the records written |
| Persistence.CutFlatten | src/cNNFW.c:622 | cutting a concatenation at its parts' lengths returns the parts |
| Persistence.EncodeRegions | src/cNNFW.c:582-622 | cutting the saved image at the layout's blocks returns each region as written |
| Persistence.EncodeLength | src/cNNFW.c:582 | the saved image is exactly as long as the layout |
| Persistence.HeaderOfEncode | src/cNNFW.c:608 | the header read back is the header saved |
| Persistence.StoredShapeOfEncode | src/cNNFW.c:630-654 | the size fields read back from a saved image are the saved network's shape |
| Persistence.StoredShapePrefix | src/cNNFW.c:608-622 | a file longer than the stored structure size gives the same size fields as its first structureSize slots |
| Persistence.Decode | src/cNNFW.c:630-656 | the network decoded from an image has the requested shape and is not marked changed |
| Persistence.RealsNums | src/cNNFW.c:622 | a vector of numbers written to slots reads back unchanged |
| Persistence.DecodeEncode | src/cNNFW.c:582-656 | decoding the saved image gives back the saved network, not marked changed |
| Storage.SaveToFile | src/cNNFW.c:565-594 | a clean network is a success without writing; a changed one is written, in full exactly when the call succeeds; the written image is a prefix of the network's encoding; success clears the changed flag |
| Storage.SaveTwice | src/cNNFW.c:573-590 | saving again after a successful save writes nothing and succeeds with the same network |
| Storage.Load | src/cNNFW.c:596-661 | corrected: succeeds exactly when the target is an empty handle, the file opens, the allocation succeeds and the file holds a consistent structure of the stated size; the result is well formed and not marked changed |
| Storage.LoadAsWritten | src/cNNFW.c:596-661 | as written: fails exactly on open, short header, allocation, a stated size of 0 (a zero-byte read counts as short) or short body; the result's stated size is the header's, its shape is the one stored in the block read, its records are aligned, its data rows are `cols` wide and it has at least one layer |
| Storage.LoadAgrees | src/cNNFW.c:596-661 | wherever the corrected Load succeeds, the source's Load succeeds with the same network |
| Storage.LoadEncode | src/cNNFW.c:596-661 | loading the image of a well-formed network gives it back, not marked changed |
| Storage.SaveThenLoad | src/cNNFW.c:565-661 | a changed network saved in full loads back as the saved network |
| Storage.ReadsAtOffsets | src/cNNFW.c:630-654 | the region the decoder reads for each block is the slice at the pointer the loader re-derives |
| Storage.LoadTrustsSizes | src/cNNFW.c:608-622 | as written, a header whose structureSize is smaller than its layout still loads, into a network that is not well formed; the corrected Load refuses it |
| Storage.ShortNetLoads | src/cNNFW.c:608-654 | a concrete one-neuron network whose header states 8 slots, while its layout needs 11, loads as written and is refused by the corrected Load |
| Storage.LoadIgnoresTarget | src/cNNFW.c:596-658 | as written, loading into a handle that holds a network overwrites it, and a null target is written through; the corrected Load refuses both |

## Left out

- Byte images and `sizeof`: the block is a sequence of cells with symbolic record widths (`Units`). Field bytes reinterpreted as another record's type are not modelled; a slot read where a record of another kind was written reads as a zero record (`Persistence.HeaderOf`, `Persistence.LayerOf`, `Persistence.NeuronOf`).
- Floating point: numbers are reals. `exp` is an injected activation function, and there is no rounding, NaN or infinity. The `ActivationFunction` sigmoid (src/cNNFW.c:197-199) is that injected function.
- `rand()`: an injected stream `rng: nat -> nat`. Which draw feeds which weight follows the loop order in `create`. In Mutation and Crossover, each draw has its own position in the stream.
- stdio: `fopen`, `fread`, `fwrite` and `fclose` become parameters (does the file open, how many slots were written) or the file's contents as a sequence of cells. Error messages printed with `printf` are not modelled.
- `malloc`: a boolean parameter saying whether the allocation succeeds.
- `CNNFW_Free`, `CNNFW_Print` and `CNNFW_PrintOutputs`: only free memory or print, so they are not modelled.
- The NULL checks on `Data.data` in Train, SetValueInData and GetValueFromData: every network built by `create` or loaded from a consistent file has a data pointer, so these branches are unreachable in the model.
- Training.Train: takes a `Ready` network, one that is consistent and has a nonzero eps. The C code divides by eps, which in floating point gives infinity or NaN, and reals have no such values. `CNNFW_SetEpsilonAndLearningStep` only ever stores positive values, and `create` and a consistent load give a consistent network.
- Training.StepOf: guards the update with "the network is consistent and has the parameter", falling back to the network unchanged. `Training.FoldTrained` shows the guard holds on every network a pass reaches, so the fallback is never taken.
- Evaluate.Calculate: requires each neuron to have at most as many weights as values feed its layer (`Wired`). A narrower neuron is modelled: its loop reads only part of the feed. Every consistent network satisfies the requirement; only a block loaded as written with inconsistent stored weight counts can break it. There, a wider neuron's loop reads past its feed into the records that follow it in the block (for a hidden layer, neuron records of the next layer), which this model does not follow.
- Evaluate.Difference: requires a consistent network. It divides by the row count, which `create` makes at least 1.
- Storage.SaveToFile: requires a well-formed network (stored size equal to its layout), which both constructors produce. It does not model a block whose header states a size other than its layout.
- Storage.LoadAsWritten: an image that is too short for the size fields it states, no layer or a layer without neurons, or a null target all end in `Undefined`. The C pointer walk there reads or writes outside the block. A header that states fewer slots than the layout its size fields need is not `Undefined`: the block read is padded with zero slots up to the layout, so the loaded network's numbers past `structureSize` are 0. Later calls that read or write those numbers (`GetValueFromData`, `SetValueInData`, `Calculate`, ...) are modelled as accesses to them, although in C they run past `malloc(structureSize)`. The model does not promise `Undefined` for them.
- Construction.Create: `unsigned int` and `size_t` are unbounded naturals here, so wrap-around is not modelled. In C the byte sums (src/cNNFW.c:111-120) and `config[0] + config[configSize - 1]` (lines 118 and 174) wrap once they reach 2^32 or 2^64. For such huge configurations the C block and `Data.cols` are smaller than `Create`, `Construction.CreateShape` and `Construction.CreateContents` state.
- Genetics.CrossoverAsWritten: a copy read that leaves the source's neuron records (weights read as a record) or its weight region (a row pointer read as a weight) ends in `Undefined`. What the C code would read there is not modelled.
- Genetics.Mutation: models the draw `rand() % (neuLen * 10)` only by its result. Whether a weight is redrawn is left to the injected stream, so the 1-in-`10 * neuLen` rate is not stated.

## Findings

| source | as written | input that shows it | evidently intended | confidence | as-written member | corrected member |
|---|---|---|---|---|---|---|
| src/cNNFW.c:390 | `index > inpLen` rejects only indices past the end, so `index == inpLen` writes one number past the input vector, onto the first layer record's bias (the layers start right after the inputs, line 137), and returns 0 | any network with at least one layer and `index == inpLen` | `index >= inpLen` | high, not executed | Accessors.SetInputAsWritten, Accessors.SetInputPastEnd | Accessors.SetInput |
| src/cNNFW.c:460 | the validation loop runs to `layLen - 1`, so the output layer's neuron and weight counts are never compared, though the copy at lines 475-483 covers it | two one-layer networks of two neurons with 3 and 2 inputs, coins 1 then 0: the first neuron copies a weight of the second source neuron; with 2 and 1 inputs and one neuron, coin 1 reads past the source's weights | validate every layer, `lay < layLen` | high, not executed | Genetics.CrossoverAsWritten, Genetics.CrossoverReadsNextNeuron, Genetics.CrossoverReadsPastSource, Genetics.CrossoverMixesShapes | Genetics.Crossover |
| src/cNNFW.c:426 | `rand() % mutationProbability` with probability 0 divides by zero | any network, probability 0 | reject 0 as out of range | medium, not executed | Genetics.MutationAsWritten | Genetics.Mutation |
| src/cNNFW.c:608-622 | the loader trusts the stored `structureSize` and size fields; a header stating fewer bytes than its layout makes the pointer walk and later accesses run past the block (the model pads the block with zeros instead, see "## Left out") | a one-neuron network with 2 rows of 2 columns whose header states 8 slots while its layout needs 11 | check that the stored sizes are consistent and that the layout fits `structureSize` | high, not executed | Storage.LoadAsWritten, Storage.LoadTrustsSizes, Storage.ShortNetLoads | Storage.Load |
| src/cNNFW.c:658 | `*NNetwork` is overwritten without checking it is empty (which `create` does at line 78), losing a held network, and a NULL `NNetwork` is written through | a handle already holding a network; a null target | refuse a non-empty or null target, as `create` does | high, not executed | Storage.LoadAsWritten, Storage.LoadIgnoresTarget | Storage.Load |
| src/cNNFW.c:307 | any integer is stored as the activation state; with a state other than ENABLE or DISABLE every hidden neuron's value stays 0 (line 276) | state 2 | accept only ENABLE or DISABLE | medium, not executed | Accessors.SetActivationFunctionAsWritten, Evaluate.UnknownStateZeroesHidden | Accessors.SetActivationFunction |
