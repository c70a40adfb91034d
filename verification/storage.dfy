/** SaveToFile and LoadFromFile: the whole block written as one record,
    and read back with every internal reference re-derived from the stored
    sizes.  The file is its sequence of slots; whether `fopen` succeeds,
    how much `fwrite` writes and whether `malloc` succeeds are parameters. */
module Storage {
  import opened Sums
  import opened Layout
  import opened LayoutProofs
  import opened Outcomes
  import opened Network
  import opened Placement
  import opened Persistence

  /** What a save leaves in the file: nothing, or the slots written. */
  datatype FileWrite = Untouched | Written(image: seq<Cell>)

  /** The result of a save (the handle after it, on success) and the file. */
  datatype Saved = Saved(result: Outcome<Net>, file: FileWrite)

  /** `CNNFW_SaveToFile`.  `opens` is whether `fopen` succeeds and
      `written` how many slots `fwrite` manages before it stops.  A clean
      network is not written; a dirty one is written whole and becomes
      clean. */
  function SaveToFile(u: Units, h: Option<Net>, opens: bool, written: nat): (r: Saved)
    requires u.Valid() && (h.Some? ==> WellFormed(u, h.value))
    ensures !r.result.Undefined?
    ensures r.result.Ok? <==> h.Some? && (!h.value.isChanged || (opens && written >= h.value.structureSize))
    ensures r.result.Ok? ==> r.result.value == h.value.(isChanged := false)
    ensures r.file.Written? <==> h.Some? && h.value.isChanged && opens
    ensures r.file.Written? ==> r.file.image <= Encode(u, h.value)
    ensures r.file.Written? ==> (|r.file.image| == h.value.structureSize <==> r.result.Ok?)
  {
    if h.None? then Saved(Fail, Untouched)
    else
      var net := h.value;
      if !net.isChanged then Saved(Ok(net), Untouched)
      else if !opens then Saved(Fail, Untouched)
      else
        var image := Encode(u, net);
        EncodeLength(u, net);
        if written < net.structureSize then Saved(Fail, Written(image[..written]))
        else Saved(Ok(net.(isChanged := false)), Written(image))
  }

  /** Saving a network that a save has just cleaned writes nothing. */
  lemma {:induction false} SaveTwice(u: Units, net: Net, opens: bool, written: nat, opens2: bool, written2: nat)
    requires u.Valid() && WellFormed(u, net)
    requires SaveToFile(u, Some(net), opens, written).result.Ok?
    ensures var again := SaveToFile(u, Some(SaveToFile(u, Some(net), opens, written).result.value), opens2, written2);
      again.file == Untouched && again.result == SaveToFile(u, Some(net), opens, written).result
  {
  }

  /** A file Load accepts: it holds the header record, it is at least as
      long as the size the header states, and the sizes the prefix of that
      length records are consistent and lay out exactly that size. */
  predicate Loadable(u: Units, file: seq<Cell>)
    requires u.Valid()
  {
    var size := HeaderOf(file).structureSize;
    && |file| >= u.header
    && |file| >= size
    && StoredShape(u, file[..size]).Consistent()
    && size == LayoutEnd(u, StoredShape(u, file[..size]))
  }

  /** `CNNFW_LoadFromFile`, corrected: besides the failures the code
      reports (no file, a short header, no memory, a short body) it refuses
      a null or occupied target, as Create does, and a block whose stored
      sizes do not describe exactly the stored size.  `file` is `None` when
      `fopen` fails. */
  function Load(u: Units, target: Target<Net>, file: Option<seq<Cell>>, allocates: bool): (r: Outcome<Net>)
    requires u.Valid()
    ensures !r.Undefined?
    ensures r.Ok? <==> target == Target(None) && file.Some? && allocates && Loadable(u, file.value)
    ensures r.Ok? ==> WellFormed(u, r.value) && !r.value.isChanged
  {
    if target != Target(None) then Fail
    else if file.None? then Fail
    else if |file.value| < u.header then Fail
    else if !allocates then Fail
    else
      var size := HeaderOf(file.value).structureSize;
      if size == 0 || |file.value| < size then Fail
      else
        var image := file.value[..size];
        var s := StoredShape(u, image);
        if !(s.Consistent() && size == LayoutEnd(u, s)) then Fail
        else
          LayoutEndPastHeader(u, s);
          assert HeaderOf(image) == HeaderOf(file.value) by {
            assert image[0] == file.value[0];
          }
          Ok(Decode(u, image, s))
  }

  /** The regions the re-derivation writes lie within the block: the header,
      the layer and neuron records (their `neurons` and `weights` fields)
      and, when there are rows, the row-pointer table.  The walk also reads
      the last neuron of the layer before, so it needs `Walkable` sizes. */
  predicate Walks(u: Units, image: seq<Cell>, s: Shape)
  {
    && |image| >= u.header
    && Walkable(s)
    && NeuronsEnd(u, s) <= |image|
    && (s.rows == 0 || RowAt(u, s, 0) <= |image|)
  }

  /** `CNNFW_LoadFromFile` as written: it trusts the size in the header and
      every stored count, re-derives the references inside a block of the
      stated size and stores the result through `target` without looking
      at it.  A stated size of zero fails, because `fread` of zero bytes
      returns 0, which the load reads as a short body. */
  function LoadAsWritten(u: Units, target: Target<Net>, file: Option<seq<Cell>>, allocates: bool): (r: Outcome<Net>)
    requires u.Valid()
    ensures r.Fail? <==> file.None? || |file.value| < u.header || !allocates
                         || HeaderOf(file.value).structureSize == 0
                         || |file.value| < HeaderOf(file.value).structureSize
    ensures r.Ok? ==> !r.value.isChanged && r.value.structureSize == HeaderOf(file.value).structureSize
    ensures r.Ok? ==> ShapeOf(r.value) == StoredShape(u, file.value[..r.value.structureSize])
    ensures r.Ok? ==> Aligned(r.value) && Rectangular(r.value.data) && r.value.LayLen() >= 1
  {
    if file.None? then Fail
    else if |file.value| < u.header then Fail
    else if !allocates then Fail
    else
      var size := HeaderOf(file.value).structureSize;
      if size == 0 || |file.value| < size then Fail
      else
        var image := file.value[..size];
        var s := StoredShape(u, image);
        if !Walks(u, image, s) then Undefined
        else if target.NullTarget? then Undefined
        else
          assert HeaderOf(image) == HeaderOf(file.value) by {
            assert image[0] == file.value[0];
          }
          Ok(Decode(u, image, s))
  }

  /** A consistent layout ends past the header and past every region the
      re-derivation writes. */
  lemma {:induction false} LayoutEndPastHeader(u: Units, s: Shape)
    requires u.Valid()
    ensures u.header <= NeuronsEnd(u, s) <= RowAt(u, s, 0) <= LayoutEnd(u, s)
  {
    NatProduct(u.num, s.rows * s.cols);
    NatProduct(u.num, Sum(WeightCounts(s)));
    NatProduct(u.ptr, s.rows);
    NatProduct(u.num, s.inpLen);
    NatProduct(u.layRec, s.LayLen());
    NatProduct(u.neuRec, Sum(NeuronCounts(s)[..s.LayLen()]));
  }

  /** Consistent sizes can be walked. */
  lemma ConsistentWalkable(s: Shape)
    requires s.Consistent()
    ensures Walkable(s)
  {
  }

  /** Where the corrected Load accepts a file, it decodes the prefix the
      header states at the sizes that prefix records. */
  lemma {:induction false} LoadOk(u: Units, file: seq<Cell>)
    requires u.Valid() && Loadable(u, file)
    ensures var image := file[..HeaderOf(file).structureSize];
      Load(u, Target(None), Some(file), true) == Ok(Decode(u, image, StoredShape(u, image)))
  {
  }

  /** Where the re-derivation stays inside the block, the code as written
      decodes the prefix the header states at the sizes it records. */
  lemma {:induction false} LoadAsWrittenOk(u: Units, file: seq<Cell>, size: nat, target: Target<Net>)
    requires u.Valid() && |file| >= u.header && HeaderOf(file).structureSize == size <= |file|
    requires Walks(u, file[..size], StoredShape(u, file[..size])) && target.Target?
    ensures LoadAsWritten(u, target, Some(file), true) == Ok(Decode(u, file[..size], StoredShape(u, file[..size])))
  {
  }

  /** Wherever the corrected Load succeeds, the code as written succeeds
      with the same network. */
  lemma {:induction false} LoadAgrees(u: Units, target: Target<Net>, file: Option<seq<Cell>>, allocates: bool)
    requires u.Valid() && Load(u, target, file, allocates).Ok?
    ensures LoadAsWritten(u, target, file, allocates) == Load(u, target, file, allocates)
  {
    var size := HeaderOf(file.value).structureSize;
    var s := StoredShape(u, file.value[..size]);
    LayoutEndPastHeader(u, s);
    ConsistentWalkable(s);
    LoadOk(u, file.value);
    LoadAsWrittenOk(u, file.value, size, target);
  }

  /** Loading the encoding of a well-formed network gives the network back
      with a clean flag. */
  lemma {:induction false} LoadEncode(u: Units, net: Net)
    requires u.Valid() && WellFormed(u, net)
    ensures Load(u, Target(None), Some(Encode(u, net)), true) == Ok(net.(isChanged := false))
  {
    EncodeLength(u, net);
    HeaderOfEncode(u, net);
    StoredShapeOfEncode(u, net);
    LoadWhole(u, Encode(u, net), ShapeOf(net));
    DecodeEncode(u, net);
  }

  /** A file that is exactly the block its header sizes describe loads as
      that block. */
  lemma {:induction false} LoadWhole(u: Units, file: seq<Cell>, s: Shape)
    requires u.Valid() && HeaderOf(file).structureSize == |file| == LayoutEnd(u, s)
    requires StoredShape(u, file) == s && s.Consistent()
    ensures Load(u, Target(None), Some(file), true) == Ok(Decode(u, file, s))
  {
    WholeLoadable(u, file, s);
    LoadOk(u, file);
  }

  lemma WholeLoadable(u: Units, file: seq<Cell>, s: Shape)
    requires u.Valid() && HeaderOf(file).structureSize == |file| == LayoutEnd(u, s)
    requires StoredShape(u, file) == s && s.Consistent()
    ensures Loadable(u, file) && file[..HeaderOf(file).structureSize] == file
  {
    assert file[..HeaderOf(file).structureSize] == file;
    LayoutEndPastHeader(u, s);
  }

  /** What a successful save of a dirty network writes, a later load reads
      back as the network the save leaves behind. */
  lemma {:induction false} SaveThenLoad(u: Units, net: Net, written: nat)
    requires u.Valid() && WellFormed(u, net) && net.isChanged && written >= net.structureSize
    ensures var saved := SaveToFile(u, Some(net), true, written);
      && saved.result == Ok(net.(isChanged := false))
      && saved.file.Written?
      && Load(u, Target(None), Some(saved.file.image), true) == saved.result
  {
    LoadEncode(u, net);
  }

  /** Each region Load reads is the slice of the block at the offset the
      layout gives it, so reading by regions is reading at the re-derived
      references. */
  lemma {:induction false} ReadsAtOffsets(u: Units, image: seq<Cell>, s: Shape, k: nat)
    requires LayoutEnd(u, s) <= |image| && k < |Blocks(u, s)|
    ensures BlockStart(u, s, k) + Blocks(u, s)[k] <= |image|
    ensures Cut(image, Blocks(u, s))[k] == image[BlockStart(u, s, k)..BlockStart(u, s, k) + Blocks(u, s)[k]]
  {
    var b := Blocks(u, s);
    BlocksSum(u, s);
    assert BlockStart(u, s, k) == Sum(b[..k]);
    CutAt(image, b, k);
  }

  // Findings about the code as written.

  /** A block whose header states a size smaller than its records lay out,
      yet large enough for the re-derivation's writes, loads as written
      into a network that is not well formed: every later access past the
      stated size falls outside the allocation.  The corrected Load refuses
      it. */
  lemma {:induction false} LoadTrustsSizes(u: Units, net: Net)
    requires u.Valid() && Shaped(net)
    requires u.header <= net.structureSize && RowAt(u, ShapeOf(net), 0) <= net.structureSize
    requires net.structureSize < LayoutEnd(u, ShapeOf(net))
    ensures LoadAsWritten(u, Target(None), Some(Encode(u, net)), true).Ok?
    ensures !WellFormed(u, LoadAsWritten(u, Target(None), Some(Encode(u, net)), true).value)
    ensures Load(u, Target(None), Some(Encode(u, net)), true) == Fail
  {
    var s := ShapeOf(net);
    var file := Encode(u, net);
    var size := net.structureSize;
    EncodeLength(u, net);
    HeaderOfEncode(u, net);
    StoredShapeOfEncode(u, net);
    LayoutEndPastHeader(u, s);
    StoredShapePrefix(u, file, size);
    ConsistentWalkable(s);
    LoadAsWrittenOk(u, file, size, Target(None));
    assert !Loadable(u, file);
  }

  /** One input, one layer of one neuron, two data rows of two numbers,
      every unit one slot wide: the records lay out 11 slots. */
  function ShortNet(): (net: Net)
    ensures Shaped(net)
  {
    Net(true, ENABLE, 0.01, 0.01, 8, [0.0], [0.0], [[0.0]], [[[0.0]]],
        Dataset([[0.0, 0.0], [0.0, 0.0]], 2))
  }

  const UnitSlots: Units := Units(1, 1, 1, 1, 1)

  /** That network, saved with a header stating 8 slots, loads as written. */
  lemma ShortNetLoads()
    ensures LoadAsWritten(UnitSlots, Target(None), Some(Encode(UnitSlots, ShortNet())), true).Ok?
    ensures Load(UnitSlots, Target(None), Some(Encode(UnitSlots, ShortNet())), true) == Fail
  {
    var net := ShortNet();
    var s := ShapeOf(net);
    assert |s.weiLens| == 1 && |s.weiLens[0]| == 1 && s.weiLens[0][0] == 1;
    var one: seq<nat> := [1];
    assert s.weiLens[0] == one;
    assert s.weiLens == [one];
    assert one[..0] == [] && one[..1] == one;
    assert Sum(one) == 1;
    assert NeuronCounts(s)[0] == 1 && WeightCounts(s)[0] == 1;
    assert NeuronCounts(s) == one && WeightCounts(s) == one;
    assert RowAt(UnitSlots, s, 0) == 7 && LayoutEnd(UnitSlots, s) == 11;
    LoadTrustsSizes(UnitSlots, ShortNet());
  }

  /** As written, Load stores the new network through a handle that still
      holds one (losing it) and writes through a null target; the
      corrected Load refuses both. */
  lemma {:induction false} LoadIgnoresTarget(u: Units, net: Net, prior: Net)
    requires u.Valid() && WellFormed(u, net)
    ensures LoadAsWritten(u, Target(Some(prior)), Some(Encode(u, net)), true) == Ok(net.(isChanged := false))
    ensures Load(u, Target(Some(prior)), Some(Encode(u, net)), true) == Fail
    ensures LoadAsWritten(u, NullTarget, Some(Encode(u, net)), true) == Undefined
    ensures Load(u, NullTarget, Some(Encode(u, net)), true) == Fail
  {
    LoadEncode(u, net);
    LoadAgrees(u, Target(None), Some(Encode(u, net)), true);
  }
}
