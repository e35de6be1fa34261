/** The three-layer network of hw3/binnet, its layers placed in one array, and why the packed
    array computes the same classes although most of its rows compute something else. */
module BinaryNet {
  import opened Bytes
  import opened Rram
  import opened AiChip

  // ------------------------------------------------------------------------------------
  // The network itself
  // ------------------------------------------------------------------------------------

  /** A layer as the parameter files give it. */
  datatype Layer = Layer(rows: nat, cols: nat, weight: seq<seq<int>>, mean: seq<Float>,
                         variance: seq<Float>, scale: seq<Float>, bias: seq<Float>)

  ghost predicate WellSized(l: Layer) {
    && |l.weight| == l.rows && (forall i :: 0 <= i < l.rows ==> |l.weight[i]| == l.cols)
    && |l.mean| == |l.variance| == |l.scale| == |l.bias| == l.rows
  }

  /** Where a layer sits in the array. */
  datatype Block = Block(row: nat, col: nat)

  datatype Net = Net(fc1: Layer, fc2: Layer, fc3: Layer)

  ghost predicate IsNet(n: Net) {
    && WellSized(n.fc1) && n.fc1.rows == 64 && n.fc1.cols == PIXELS
    && WellSized(n.fc2) && n.fc2.rows == 256 && n.fc2.cols == 64
    && WellSized(n.fc3) && n.fc3.rows == CLASSES && n.fc3.cols == 256
  }

  /** The biases of load_weights: the outputs of a layer land where the next one reads. */
  const BLOCK1 := Block(10, 0)
  const BLOCK2 := Block(768, 10)
  const BLOCK3 := Block(0, 768)

  function PositiveRow(o: Arith, row: seq<int>): (s: seq<Float>)
    ensures |s| == |row|
  {
    seq(|row|, j requires 0 <= j < |row| => Positive(o, row[j]))
  }

  function NegativeRow(o: Arith, row: seq<int>): (s: seq<Float>)
    ensures |s| == |row|
  {
    seq(|row|, j requires 0 <= j < |row| => Negative(o, row[j]))
  }

  /** One output of a layer, computed on its own inputs only. */
  function LayerOutput(o: Arith, l: Layer, x: seq<int>, i: nat): Float
    requires WellSized(l) && |x| == l.cols && i < l.rows
  {
    o.norm(RowSum(o, x, PositiveRow(o, l.weight[i]), NegativeRow(o, l.weight[i])),
           l.mean[i], l.variance[i], l.scale[i], l.bias[i])
  }

  function LayerSigns(o: Arith, l: Layer, x: seq<int>): (s: seq<int>)
    requires WellSized(l) && |x| == l.cols
    ensures |s| == l.rows
  {
    seq(l.rows, i requires 0 <= i < l.rows => SignOf(o, LayerOutput(o, l, x, i)))
  }

  function Pixels(image: seq<Byte>): (x: seq<int>)
    requires |image| >= PIXELS
    ensures |x| == PIXELS
  {
    seq(PIXELS, i requires 0 <= i < PIXELS => if image[i] > 0 then 1 else 0)
  }

  /** The outputs of the last layer, one for each class. */
  function ClassScores(o: Arith, n: Net, image: seq<Byte>): (s: seq<Float>)
    requires IsNet(n) && |image| >= PIXELS
    ensures |s| == CLASSES
  {
    var h1 := LayerSigns(o, n.fc1, Pixels(image));
    var h2 := LayerSigns(o, n.fc2, h1);
    seq(CLASSES, i requires 0 <= i < CLASSES => LayerOutput(o, n.fc3, h2, i))
  }

  /** The class of an image: a function of the image and the parameters, nothing else. */
  function Classify(o: Arith, n: Net, image: seq<Byte>): (k: nat)
    requires IsNet(n) && |image| >= PIXELS
    ensures k < CLASSES
  {
    ArgMax(o, ClassScores(o, n, image), CLASSES)
  }

  /** No other class has a larger output, and each class before it has a smaller one. */
  lemma ClassIsLargest(o: Arith, n: Net, image: seq<Byte>)
    requires IsNet(n) && |image| >= PIXELS && Ordered(o, ClassScores(o, n, image))
    ensures FirstLargest(o, ClassScores(o, n, image), Classify(o, n, image))
  {
    hide ClassScores;
    BestOfAll(o, ClassScores(o, n, image));
  }

  // ------------------------------------------------------------------------------------
  // A layer inside the array
  // ------------------------------------------------------------------------------------

  /** The rows of the block hold the layer in the block's columns and nothing elsewhere. What
      other rows hold does not matter. */
  ghost predicate Carries(o: Arith, c: Contents, l: Layer, b: Block) {
    && WellSized(l) && Fits(c) && b.row + l.rows <= SIZE && b.col + l.cols <= SIZE
    && (forall i :: 0 <= i < l.rows ==> CarriesRow(o, c, l, b, i))
  }

  ghost predicate CarriesRow(o: Arith, c: Contents, l: Layer, b: Block, i: nat)
    requires WellSized(l) && Fits(c) && b.row + l.rows <= SIZE && i < l.rows
  {
    && c.mean[b.row + i] == l.mean[i] && c.variance[b.row + i] == l.variance[i]
    && c.scale[b.row + i] == l.scale[i] && c.bias[b.row + i] == l.bias[i]
    && Embedded(o, PositiveRow(o, l.weight[i]), c.positive[b.row + i], b.col)
    && Embedded(o, NegativeRow(o, l.weight[i]), c.negative[b.row + i], b.col)
  }

  /** A row that is zero but for a short row from column col on. */
  ghost predicate Embedded(o: Arith, short: seq<Float>, row: seq<Float>, col: nat) {
    forall j :: 0 <= j < |row| ==>
      row[j] == if col <= j < col + |short| then short[j - col] else o.zero
  }

  lemma LawAt(o: Arith, v: Float, x: int, w: Float)
    requires Lawful(o) && o.accumulator(v)
    ensures o.accumulator(o.plus(v, x, w)) && o.accumulator(o.minus(v, x, w))
    ensures w == o.zero ==> o.plus(v, x, w) == v && o.minus(v, x, w) == v
  {}

  function Clamp(n: nat, col: nat, width: nat): (k: nat)
    ensures k <= width
  {
    if n <= col then 0 else if n <= col + width then n - col else width
  }

  lemma {:induction false} AddedEmbedded(o: Arith, input: seq<int>, row: seq<Float>, short: seq<Float>,
                                         col: nat, n: nat)
    requires Lawful(o) && Embedded(o, short, row, col)
    requires n <= |input| == |row| && col + |short| <= |row|
    ensures Added(o, input, row, n) == Added(o, input[col..col + |short|], short, Clamp(n, col, |short|))
    ensures o.accumulator(Added(o, input, row, n))
  {
    if n > 0 {
      AddedEmbedded(o, input, row, short, col, n - 1);
      var v, x := Added(o, input, row, n - 1), input[n - 1];
      assert row[n - 1] == (if col <= n - 1 < col + |short| then short[n - 1 - col] else o.zero);
      LawAt(o, v, x, row[n - 1]);
    }
  }

  lemma {:induction false} SubtractedEmbedded(o: Arith, v: Float, input: seq<int>, row: seq<Float>,
                                              short: seq<Float>, col: nat, n: nat)
    requires Lawful(o) && Embedded(o, short, row, col) && o.accumulator(v)
    requires n <= |input| == |row| && col + |short| <= |row|
    ensures Subtracted(o, v, input, row, n)
         == Subtracted(o, v, input[col..col + |short|], short, Clamp(n, col, |short|))
    ensures o.accumulator(Subtracted(o, v, input, row, n))
  {
    if n > 0 {
      SubtractedEmbedded(o, v, input, row, short, col, n - 1);
      var u, x := Subtracted(o, v, input, row, n - 1), input[n - 1];
      assert row[n - 1] == (if col <= n - 1 < col + |short| then short[n - 1 - col] else o.zero);
      LawAt(o, u, x, row[n - 1]);
    }
  }

  /** A row of the block computes the layer's output from the block's columns of the input,
      whatever the other inputs are. */
  lemma BlockOutput(o: Arith, c: Contents, l: Layer, b: Block, input: seq<int>, i: nat)
    requires Lawful(o) && Carries(o, c, l, b) && |input| == SIZE && i < l.rows
    ensures Output(o, c, input, b.row + i) == LayerOutput(o, l, input[b.col..b.col + l.cols], i)
  {
    hide Lawful, Embedded, Added, Subtracted, PositiveRow, NegativeRow;
    assert CarriesRow(o, c, l, b, i);
    var p, q := PositiveRow(o, l.weight[i]), NegativeRow(o, l.weight[i]);
    AddedEmbedded(o, input, c.positive[b.row + i], p, b.col, SIZE);
    SubtractedEmbedded(o, Added(o, input, c.positive[b.row + i], SIZE), input, c.negative[b.row + i], q, b.col, SIZE);
  }

  // ------------------------------------------------------------------------------------
  // One operation after the other
  // ------------------------------------------------------------------------------------

  /** An input memory holds x from byte at on; the rest may be anything. */
  ghost predicate HoldsInputs(mem: seq<Byte>, at: nat, x: seq<int>) {
    |mem| == ACTIVATION && at + |x| <= SIZE && Inputs(mem)[at..at + |x|] == x
  }

  /** An output memory holds the outputs of a layer from float at on. */
  ghost predicate HoldsOutputs(o: Arith, mem: seq<Byte>, at: nat, l: Layer, x: seq<int>)
    requires WellSized(l) && |x| == l.cols
  {
    && |mem| == ACTIVATION && at + l.rows <= SIZE
    && forall i :: 0 <= i < l.rows ==> FloatAt(mem, 4 * (at + i)) == LayerOutput(o, l, x, i)
  }

  lemma AfterInput(s: Chip, image: seq<Byte>)
    requires Proper(s) && |image| == PIXELS && s.mem2[..PIXELS] == image
    ensures HoldsInputs(InputStep(s).mem1, 0, Pixels(image))
  {
    var m := InputStep(s).mem1;
    forall i | 0 <= i < PIXELS ensures Inputs(m)[i] == Pixels(image)[i] {
      assert s.mem2[i] == image[i];
    }
  }

  lemma AfterFc(o: Arith, s: Chip, layer: nat, load: bool, l: Layer, b: Block, x: seq<int>)
    requires Lawful(o) && Proper(s) && layer < 3 && Carries(o, ArrayFor(o, s, layer, load), l, b)
    requires HoldsInputs(s.mem1, b.col, x) && |x| == l.cols
    ensures HoldsOutputs(o, FcStep(o, s, layer, load).mem2, b.row, l, x)
  {
    hide ArrayFor, Lawful, Output, LayerOutput, FloatAt, EncodeFloats, CarriesRow, Inputs;
    var c := ArrayFor(o, s, layer, load);
    var fs := Outputs(o, c, Inputs(s.mem1));
    forall i | 0 <= i < l.rows ensures FloatAt(EncodeFloats(fs), 4 * (b.row + i)) == LayerOutput(o, l, x, i) {
      FloatsAt(fs, b.row + i);
      BlockOutput(o, c, l, b, Inputs(s.mem1), i);
    }
  }

  lemma AfterSign(o: Arith, s: Chip, at: nat, l: Layer, x: seq<int>)
    requires Proper(s) && WellSized(l) && |x| == l.cols && HoldsOutputs(o, s.mem2, at, l, x)
    ensures HoldsInputs(SignStep(o, s).mem1, at, LayerSigns(o, l, x))
  {
    hide FloatAt, LayerOutput, SignOf;
    var m := SignStep(o, s).mem1;
    forall i | 0 <= i < l.rows ensures Inputs(m)[at + i] == LayerSigns(o, l, x)[i] {
      SpliceAt(s.mem1, 0, Signs(o, s.mem2), at + i);
      SignedRoundTrip(SignOf(o, FloatAt(s.mem2, 4 * (at + i))));
    }
  }

  lemma AfterOutput(o: Arith, s: Chip, l: Layer, x: seq<int>)
    requires Proper(s) && WellSized(l) && |x| == l.cols && l.rows == CLASSES && HoldsOutputs(o, s.mem2, 0, l, x)
    ensures OutputStep(o, s).mem1[0]
         == ArgMax(o, seq(CLASSES, i requires 0 <= i < CLASSES => LayerOutput(o, l, x, i)), CLASSES)
  {
    hide FloatAt, LayerOutput, ArgMax;
    var fs := seq(CLASSES, i requires 0 <= i < CLASSES => LayerOutput(o, l, x, i));
    forall i | 0 <= i < CLASSES ensures Scores(s.mem2)[i] == fs[i] {
      assert 4 * i == 4 * (0 + i);
    }
    assert Scores(s.mem2) == fs;
  }

  // ------------------------------------------------------------------------------------
  // An image, and any number of images
  // ------------------------------------------------------------------------------------

  /** Operations 1 to j, one after the other, and the cycles they take together. */
  function RunTo(o: Arith, s: Chip, j: nat): (r: (Chip, nat))
    requires Proper(s) && j < 8
    ensures Proper(r.0)
  {
    if j == 0 then (s, 0)
    else
      var before := RunTo(o, s, j - 1);
      var t := before.0.(counter := j);
      RunProper(o, t);
      (RunStep(o, t).0, before.1 + RunStep(o, t).1)
  }

  /** The host stores an image and has it classified. */
  function RunImage(o: Arith, s: Chip, image: seq<Byte>): (r: (Chip, nat))
    requires Proper(s) && |image| == PIXELS
    ensures Proper(r.0)
  {
    RunTo(o, s.(mem2 := Splice(s.mem2, 0, image)), 7)
  }

  ghost predicate CarriesAll(o: Arith, c: Contents, n: Net) {
    Carries(o, c, n.fc1, BLOCK1) && Carries(o, c, n.fc2, BLOCK2) && Carries(o, c, n.fc3, BLOCK3)
  }

  /** The parameter memory holds the network in the form the mode of the chip expects, and an
      array that will not be loaded again holds it, too. */
  ghost predicate Prepared(o: Arith, n: Net, s: Chip)
    requires Proper(s)
  {
    && IsNet(n)
    && (s.loadOnce ==>
          && CarriesAll(o, ArrayFor(o, s, 0, true), n)
          && (s.weightLoaded ==> CarriesAll(o, s.rram, n)))
    && (!s.loadOnce ==>
          && Carries(o, ArrayFor(o, s, 0, true), n.fc1, BLOCK1)
          && Carries(o, ArrayFor(o, s, 1, true), n.fc2, BLOCK2)
          && Carries(o, ArrayFor(o, s, 2, true), n.fc3, BLOCK3))
  }

  function Loads(s: Chip): nat {
    if !s.loadOnce then 3 else if s.weightLoaded then 0 else 1
  }

  /** What an operation other than the loading ones leaves alone. */
  ghost predicate SameSetup(s: Chip, t: Chip) {
    t.mem3 == s.mem3 && t.loadOnce == s.loadOnce
  }

  lemma ArraySame(o: Arith, s: Chip, t: Chip, layer: nat)
    requires Proper(s) && Proper(t) && SameSetup(s, t) && layer < 3
    ensures ArrayFor(o, s, layer, true) == ArrayFor(o, t, layer, true)
  {}

  lemma NotLoading(o: Arith, s: Chip, layer: nat)
    requires Proper(s) && layer < 3
    ensures ArrayFor(o, s, layer, false) == s.rram
  {}

  function LoadFlag(s: Chip, layer: nat): bool {
    !s.loadOnce || (layer == 0 && !s.weightLoaded)
  }

  lemma InputOp(o: Arith, s: Chip, image: seq<Byte>)
    requires Proper(s) && s.counter == 1 && |image| == PIXELS && s.mem2[..PIXELS] == image
    ensures var (t, cycles) := RunStep(o, s);
      && SameSetup(s, t) && t.rram == s.rram && t.weightLoaded == s.weightLoaded
      && HoldsInputs(t.mem1, 0, Pixels(image)) && cycles == 10
  {
    hide Splice, Binarised, HoldsInputs, Pixels;
    AfterInput(s.(finished := false), image);
  }

  lemma FcOp(o: Arith, s: Chip, layer: nat, l: Layer, b: Block, x: seq<int>)
    requires Lawful(o) && Proper(s) && layer < 3 && s.counter == 2 + 2 * layer
    requires Carries(o, ArrayFor(o, s, layer, LoadFlag(s, layer)), l, b)
    requires HoldsInputs(s.mem1, b.col, x) && |x| == l.cols
    ensures var (t, cycles) := RunStep(o, s);
      && SameSetup(s, t) && t.rram == ArrayFor(o, s, layer, LoadFlag(s, layer))
      && t.weightLoaded == (s.weightLoaded || layer == 0)
      && HoldsOutputs(o, t.mem2, b.row, l, x) && cycles == FcCycles(LoadFlag(s, layer))
  {
    hide Lawful, Outputs, EncodeFloats, Carries, ArrayFor, LayerOutput, FloatAt, Inputs;
    ArraySame(o, s, s.(finished := false), layer);
    NotLoading(o, s, layer);
    NotLoading(o, s.(finished := false), layer);
    AfterFc(o, s.(finished := false), layer, LoadFlag(s, layer), l, b, x);
  }

  lemma SignOp(o: Arith, s: Chip, at: nat, l: Layer, x: seq<int>)
    requires Proper(s) && (s.counter == 3 || s.counter == 5)
    requires WellSized(l) && |x| == l.cols && HoldsOutputs(o, s.mem2, at, l, x)
    ensures var (t, cycles) := RunStep(o, s);
      && SameSetup(s, t) && t.rram == s.rram && t.weightLoaded == s.weightLoaded
      && HoldsInputs(t.mem1, at, LayerSigns(o, l, x)) && cycles == 1
  {
    hide Splice, Signs, LayerSigns, LayerOutput, FloatAt, HoldsInputs;
    AfterSign(o, s.(finished := false), at, l, x);
  }

  lemma OutputOp(o: Arith, s: Chip, l: Layer, x: seq<int>)
    requires Proper(s) && s.counter == 7
    requires WellSized(l) && |x| == l.cols && l.rows == CLASSES && HoldsOutputs(o, s.mem2, 0, l, x)
    ensures var (t, cycles) := RunStep(o, s);
      && SameSetup(s, t) && t.rram == s.rram && t.weightLoaded == s.weightLoaded && t.finished
      && |t.mem1| == ACTIVATION && cycles == 10
      && t.mem1[0] == ArgMax(o, seq(CLASSES, i requires 0 <= i < CLASSES => LayerOutput(o, l, x, i)), CLASSES)
  {
    hide Splice, Scores, ArgMax, LayerOutput, FloatAt;
    AfterOutput(o, s.(finished := false), l, x);
  }

  lemma StepTo(o: Arith, s: Chip, j: nat)
    requires Proper(s) && 0 < j < 8
    ensures var t := RunTo(o, s, j - 1).0.(counter := j);
      && Proper(t) && RunTo(o, s, j).0 == RunStep(o, t).0
      && RunTo(o, s, j).1 == RunTo(o, s, j - 1).1 + RunStep(o, t).1
  {
    hide RunStep;
    RunProper(o, RunTo(o, s, j - 1).0.(counter := j));
  }

  /** Input and first layer. */
  lemma FirstLayer(o: Arith, n: Net, s: Chip, image: seq<Byte>)
    requires Lawful(o) && Proper(s) && Prepared(o, n, s) && |image| == PIXELS && s.mem2[..PIXELS] == image
    ensures var (t, cycles) := RunTo(o, s, 3);
      && SameSetup(s, t) && t.weightLoaded && (s.loadOnce ==> CarriesAll(o, t.rram, n))
      && HoldsInputs(t.mem1, BLOCK1.row, LayerSigns(o, n.fc1, Pixels(image)))
      && cycles == 11 + FcCycles(LoadFlag(s, 0))
  {
    hide Carries, Lawful, LayerSigns, Pixels, HoldsInputs, HoldsOutputs, RunStep, ArrayFor, WellSized;
    assert RunTo(o, s, 0) == (s, 0);
    StepTo(o, s, 1);
    InputOp(o, s.(counter := 1), image);
    StepTo(o, s, 2);
    var t := RunTo(o, s, 1).0.(counter := 2);
    ArraySame(o, s, t, 0);
    assert Carries(o, ArrayFor(o, t, 0, LoadFlag(t, 0)), n.fc1, BLOCK1) by { NotLoading(o, t, 0); }
    FcOp(o, t, 0, n.fc1, BLOCK1, Pixels(image));
    NotLoading(o, t, 0);
    StepTo(o, s, 3);
    SignOp(o, RunTo(o, s, 2).0.(counter := 3), BLOCK1.row, n.fc1, Pixels(image));
  }

  /** Second and third layer, from a state that holds the first layer's signs. */
  lemma LaterLayers(o: Arith, n: Net, s: Chip, h1: seq<int>)
    requires Lawful(o) && Proper(s) && Prepared(o, n, s)
    requires var t := RunTo(o, s, 3).0;
      && SameSetup(s, t) && (s.loadOnce ==> CarriesAll(o, t.rram, n))
      && |h1| == 64 && HoldsInputs(t.mem1, BLOCK1.row, h1)
    ensures var (t, cycles) := RunTo(o, s, 6);
      && SameSetup(s, t) && t.weightLoaded == RunTo(o, s, 3).0.weightLoaded
      && (s.loadOnce ==> t.rram == RunTo(o, s, 3).0.rram)
      && HoldsOutputs(o, t.mem2, 0, n.fc3, LayerSigns(o, n.fc2, h1))
      && cycles == RunTo(o, s, 3).1 + 1 + 2 * FcCycles(!s.loadOnce)
  {
    hide Carries, Lawful, LayerSigns, HoldsInputs, HoldsOutputs, RunStep, RunTo, ArrayFor;
    var h2 := LayerSigns(o, n.fc2, h1);
    StepTo(o, s, 4);
    var t := RunTo(o, s, 3).0.(counter := 4);
    ArraySame(o, s, t, 1);
    NotLoading(o, t, 1);
    FcOp(o, t, 1, n.fc2, BLOCK2, h1);
    StepTo(o, s, 5);
    SignOp(o, RunTo(o, s, 4).0.(counter := 5), BLOCK2.row, n.fc2, h1);
    StepTo(o, s, 6);
    var u := RunTo(o, s, 5).0.(counter := 6);
    ArraySame(o, s, u, 2);
    NotLoading(o, u, 2);
    FcOp(o, u, 2, n.fc3, BLOCK3, h2);
  }

  /** One image: its class, the cycles, and a state ready for the next image. */
  lemma ImageClassified(o: Arith, n: Net, s: Chip, image: seq<Byte>)
    requires Lawful(o) && Proper(s) && Prepared(o, n, s) && |image| == PIXELS
    ensures var (t, cycles) := RunImage(o, s, image);
      && Prepared(o, n, t) && SameSetup(s, t) && t.weightLoaded && t.finished
      && t.mem1[0] == Classify(o, n, image)
      && (Ordered(o, ClassScores(o, n, image)) ==> FirstLargest(o, ClassScores(o, n, image), t.mem1[0]))
      && cycles == 322 + 100000 * Loads(s)
  {
    hide CarriesAll, Carries, Lawful, LayerSigns, Pixels, HoldsInputs, HoldsOutputs, RunStep, RunTo,
      ArrayFor, ArgMax, WellSized, Splice;
    var r := s.(mem2 := Splice(s.mem2, 0, image));
    ImageStored(s.mem2, image);
    ArraySame(o, s, r, 0);
    ArraySame(o, s, r, 1);
    ArraySame(o, s, r, 2);
    FirstLayer(o, n, r, image);
    var h1 := LayerSigns(o, n.fc1, Pixels(image));
    LaterLayers(o, n, r, h1);
    StepTo(o, r, 7);
    OutputOp(o, RunTo(o, r, 6).0.(counter := 7), n.fc3, LayerSigns(o, n.fc2, h1));
    if Ordered(o, ClassScores(o, n, image)) { ClassIsLargest(o, n, image); }
    var t := RunTo(o, r, 7).0;
    ArraySame(o, s, t, 0);
    ArraySame(o, s, t, 1);
    ArraySame(o, s, t, 2);
  }

  lemma ImageStored(mem: seq<Byte>, image: seq<Byte>)
    requires |mem| == ACTIVATION && |image| == PIXELS
    ensures Splice(mem, 0, image)[..PIXELS] == image
  {}

  /** A sequence of images on one chip: the final state, the classes read back, the cycles. */
  function RunImages(o: Arith, s: Chip, images: seq<seq<Byte>>): (r: (Chip, seq<Byte>, nat))
    requires Proper(s) && forall i :: 0 <= i < |images| ==> |images[i]| == PIXELS
    ensures Proper(r.0)
  {
    if images == [] then (s, [], 0)
    else
      var before := RunImages(o, s, images[..|images| - 1]);
      var (t, cycles) := RunImage(o, before.0, images[|images| - 1]);
      (t, before.1 + [t.mem1[0]], before.2 + cycles)
  }

  /** Over any number of images every class depends on its own image and the network alone, in
      either mode, whatever the memories and the array held before; loading once costs 100000
      cycles for the whole run instead of 300000 for each image. */
  lemma {:induction false} ImagesClassified(o: Arith, n: Net, s: Chip, images: seq<seq<Byte>>)
    requires Lawful(o) && Proper(s) && Prepared(o, n, s)
    requires forall i :: 0 <= i < |images| ==> |images[i]| == PIXELS
    ensures var (t, classes, cycles) := RunImages(o, s, images);
      && Prepared(o, n, t) && SameSetup(s, t) && t.weightLoaded == (s.weightLoaded || images != [])
      && |classes| == |images|
      && (forall i :: 0 <= i < |images| ==> classes[i] == Classify(o, n, images[i]))
      && cycles == (if !s.loadOnce then 300322 * |images|
                    else 322 * |images| + (if s.weightLoaded || images == [] then 0 else 100000))
  {
    hide Lawful, Prepared, RunImage, Classify;
    if images != [] {
      var front, last := images[..|images| - 1], images[|images| - 1];
      ImagesClassified(o, n, s, front);
      ImageClassified(o, n, RunImages(o, s, front).0, last);
    }
  }

  /** Loading the packed array once and loading three separate layers for every image give the
      same classes. */
  lemma ModesAgree(o: Arith, n: Net, s: Chip, t: Chip, images: seq<seq<Byte>>)
    requires Lawful(o) && Proper(s) && Prepared(o, n, s) && Proper(t) && Prepared(o, n, t)
    requires forall i :: 0 <= i < |images| ==> |images[i]| == PIXELS
    ensures RunImages(o, s, images).1 == RunImages(o, t, images).1
  {
    hide Lawful, Prepared, RunImages, Classify;
    ImagesClassified(o, n, s, images);
    ImagesClassified(o, n, t, images);
  }

  // ------------------------------------------------------------------------------------
  // The program without the accelerator
  // ------------------------------------------------------------------------------------

  function SignAll(o: Arith, fs: seq<Float>): (s: seq<int>)
    ensures |s| == |fs|
  {
    seq(|fs|, i requires 0 <= i < |fs| => SignOf(o, fs[i]))
  }

  /** The loop body of hw3/binnet/main.cpp, where c1, c2 and c3 are the array's contents after
      each of its three loads and input is the whole input buffer. */
  function DirectClass(o: Arith, c1: Contents, c2: Contents, c3: Contents, input: seq<int>): nat
    requires Fits(c1) && Fits(c2) && Fits(c3) && |input| == SIZE
  {
    var h1 := SignAll(o, Outputs(o, c1, input));
    var h2 := SignAll(o, Outputs(o, c2, h1));
    ArgMax(o, Outputs(o, c3, h2), CLASSES)
  }

  lemma DirectLayer(o: Arith, c: Contents, l: Layer, input: seq<int>)
    requires Lawful(o) && Carries(o, c, l, Block(0, 0)) && |input| == SIZE
    ensures SignAll(o, Outputs(o, c, input))[..l.rows] == LayerSigns(o, l, input[..l.cols])
    ensures forall i :: 0 <= i < l.rows ==> Outputs(o, c, input)[i] == LayerOutput(o, l, input[..l.cols], i)
  {
    hide Lawful, Output, LayerOutput, SignOf, CarriesRow;
    assert input[0..0 + l.cols] == input[..l.cols];
    forall i | 0 <= i < l.rows ensures Outputs(o, c, input)[i] == LayerOutput(o, l, input[..l.cols], i) {
      BlockOutput(o, c, l, Block(0, 0), input, i);
      assert 0 + i == i;
    }
  }

  lemma {:induction false} ArgMaxPrefix(o: Arith, fs: seq<Float>, gs: seq<Float>, n: nat)
    requires 0 < n <= |fs| && n <= |gs| && forall i :: 0 <= i < n ==> fs[i] == gs[i]
    ensures ArgMax(o, fs, n) == ArgMax(o, gs, n)
  {
    if n > 1 { ArgMaxPrefix(o, fs, gs, n - 1); }
  }

  /** With every layer at the origin of its own matrix, the direct program finds the same
      class, whatever its buffers hold behind the data. */
  lemma DirectAgrees(o: Arith, n: Net, c1: Contents, c2: Contents, c3: Contents, input: seq<int>, image: seq<Byte>)
    requires Lawful(o) && IsNet(n) && |input| == SIZE && |image| == PIXELS && input[..PIXELS] == Pixels(image)
    requires Carries(o, c1, n.fc1, Block(0, 0)) && Carries(o, c2, n.fc2, Block(0, 0))
    requires Carries(o, c3, n.fc3, Block(0, 0))
    ensures DirectClass(o, c1, c2, c3, input) == Classify(o, n, image)
  {
    hide Lawful, CarriesRow, Output, LayerOutput, LayerSigns, Outputs, SignAll, ArgMax, Pixels;
    var h1 := SignAll(o, Outputs(o, c1, input));
    var h2 := SignAll(o, Outputs(o, c2, h1));
    DirectLayer(o, c1, n.fc1, input);
    DirectLayer(o, c2, n.fc2, h1);
    DirectLayer(o, c3, n.fc3, h2);
    var x := LayerSigns(o, n.fc2, LayerSigns(o, n.fc1, Pixels(image)));
    ArgMaxPrefix(o, Outputs(o, c3, h2), seq(CLASSES, i requires 0 <= i < CLASSES => LayerOutput(o, n.fc3, x, i)),
                 CLASSES);
  }
}
