/** main of binnet/main.cpp on the device: it sends the tables once and then classifies one
    image after the other. */
module BinnetHost {
  import opened Bytes
  import opened Rram
  import opened AiChip
  import opened BinaryNet
  import opened Packing
  import opened VirtualDevice

  // ------------------------------------------------------------------------------------
  // The program
  // ------------------------------------------------------------------------------------

  const PARAMETER_WINDOW: nat := 2 + 2 * WINDOW
  const IMAGE_WINDOW: nat := 2 + WINDOW

  /** The five periWrite calls for a table whose weights go to vdev_offset. */
  function SendTable(p: Params, vdevOffset: nat): seq<Op>
    requires Full(p) && SmallWeights(p)
  {
    var bn, step := vdevOffset + SIZE * SIZE, 4 * SIZE;
    PeriWrite(vdevOffset, WeightBytes(p))
      + PeriWrite(bn, EncodeFloats(p.bias))
      + PeriWrite(bn + step, EncodeFloats(p.scale))
      + PeriWrite(bn + 2 * step, EncodeFloats(p.variance))
      + PeriWrite(bn + 3 * step, EncodeFloats(p.mean))
  }

  function SendTables(n: Net, loadOnce: bool): seq<Op>
    requires IsNet(n) && SmallNet(n)
  {
    if loadOnce then SendTable(Packed(n), PARAMETER_WINDOW)
    else
      SendTable(Separate(n.fc1, BLOCK1), PARAMETER_WINDOW)
        + SendTable(Separate(n.fc2, BLOCK2), PARAMETER_WINDOW + LAYER)
        + SendTable(Separate(n.fc3, BLOCK3), PARAMETER_WINDOW + 2 * LAYER)
  }

  /** The calls periInit(data, 1) to periInit(data, j). */
  function InitTo(j: nat): seq<Op>
    requires j < 8
  {
    if j == 0 then [] else InitTo(j - 1) + PeriInit(j)
  }

  function ForImage(image: seq<Byte>): seq<Op> {
    PeriWrite(IMAGE_WINDOW, image) + InitTo(7) + [CheckFinished] + PeriRead(2)
  }

  function ForImages(images: seq<seq<Byte>>): seq<Op> {
    if images == [] then [] else ForImages(images[..|images| - 1]) + ForImage(images[|images| - 1])
  }

  function Program(n: Net, loadOnce: bool, images: seq<seq<Byte>>): seq<Op>
    requires IsNet(n) && SmallNet(n)
  {
    PeriInit(0) + SendTables(n, loadOnce) + ForImages(images)
  }

  // ------------------------------------------------------------------------------------
  // The handshake is kept
  // ------------------------------------------------------------------------------------

  lemma PoliteConcat(a: seq<Op>, b: seq<Op>)
    requires Polite(a) && Polite(b)
    ensures Polite(a + b)
  {}

  lemma CallsPolite(c: Byte, off: nat, data: seq<Byte>)
    ensures Polite(PeriInit(c)) && Polite(PeriWrite(off, data)) && Polite(PeriRead(off))
    ensures Polite([CheckFinished]) && Polite([])
  {}

  lemma TablePolite(p: Params, vdevOffset: nat)
    requires Full(p) && SmallWeights(p)
    ensures Polite(SendTable(p, vdevOffset))
  {
    hide Polite, WeightBytes, EncodeFloats, PeriWrite, SmallWeights;
    var bn, step := vdevOffset + SIZE * SIZE, 4 * SIZE;
    CallsPolite(0, vdevOffset, WeightBytes(p));
    CallsPolite(0, bn, EncodeFloats(p.bias));
    CallsPolite(0, bn + step, EncodeFloats(p.scale));
    CallsPolite(0, bn + 2 * step, EncodeFloats(p.variance));
    CallsPolite(0, bn + 3 * step, EncodeFloats(p.mean));
    var a := PeriWrite(vdevOffset, WeightBytes(p));
    var b := a + PeriWrite(bn, EncodeFloats(p.bias));
    var c := b + PeriWrite(bn + step, EncodeFloats(p.scale));
    var d := c + PeriWrite(bn + 2 * step, EncodeFloats(p.variance));
    PoliteConcat(a, PeriWrite(bn, EncodeFloats(p.bias)));
    PoliteConcat(b, PeriWrite(bn + step, EncodeFloats(p.scale)));
    PoliteConcat(c, PeriWrite(bn + 2 * step, EncodeFloats(p.variance)));
    PoliteConcat(d, PeriWrite(bn + 3 * step, EncodeFloats(p.mean)));
  }

  lemma {:induction false} InitsPolite(j: nat)
    requires j < 8
    ensures Polite(InitTo(j))
  {
    hide Polite, PeriInit;
    CallsPolite(j, 0, []);
    if j > 0 {
      InitsPolite(j - 1);
      PoliteConcat(InitTo(j - 1), PeriInit(j));
    }
  }

  lemma ImagePolite(image: seq<Byte>)
    ensures Polite(ForImage(image))
  {
    hide Polite, PeriWrite, PeriRead, InitTo;
    CallsPolite(0, IMAGE_WINDOW, image);
    CallsPolite(0, 2, image);
    InitsPolite(7);
    var a := PeriWrite(IMAGE_WINDOW, image);
    PoliteConcat(a, InitTo(7));
    PoliteConcat(a + InitTo(7), [CheckFinished]);
    PoliteConcat(a + InitTo(7) + [CheckFinished], PeriRead(2));
  }

  lemma {:induction false} ImagesPolite(images: seq<seq<Byte>>)
    ensures Polite(ForImages(images))
  {
    hide Polite, ForImage;
    CallsPolite(0, 0, []);
    if images != [] {
      ImagesPolite(images[..|images| - 1]);
      ImagePolite(images[|images| - 1]);
      PoliteConcat(ForImages(images[..|images| - 1]), ForImage(images[|images| - 1]));
    }
  }

  lemma ProgramPolite(n: Net, loadOnce: bool, images: seq<seq<Byte>>)
    requires IsNet(n) && SmallNet(n)
    ensures Polite(Program(n, loadOnce, images))
  {
    hide Polite, SendTable, PeriInit, ForImages, SmallWeights, Packed, Separate;
    CallsPolite(0, 0, []);
    if loadOnce {
      TablePolite(Packed(n), PARAMETER_WINDOW);
    } else {
      var a := SendTable(Separate(n.fc1, BLOCK1), PARAMETER_WINDOW);
      var b := SendTable(Separate(n.fc2, BLOCK2), PARAMETER_WINDOW + LAYER);
      TablePolite(Separate(n.fc1, BLOCK1), PARAMETER_WINDOW);
      TablePolite(Separate(n.fc2, BLOCK2), PARAMETER_WINDOW + LAYER);
      TablePolite(Separate(n.fc3, BLOCK3), PARAMETER_WINDOW + 2 * LAYER);
      PoliteConcat(a, b);
      PoliteConcat(a + b, SendTable(Separate(n.fc3, BLOCK3), PARAMETER_WINDOW + 2 * LAYER));
    }
    ImagesPolite(images);
    PoliteConcat(PeriInit(0), SendTables(n, loadOnce));
    PoliteConcat(PeriInit(0) + SendTables(n, loadOnce), ForImages(images));
  }

  // ------------------------------------------------------------------------------------
  // What the program amounts to
  // ------------------------------------------------------------------------------------

  lemma WriteRuns(o: Arith, i: Ideal, off: nat, data: seq<Byte>)
    requires Proper(i.chip)
    ensures IdealRun(o, i, PeriWrite(off, data)) == i.(chip := WriteMemory(i.chip, off, data))
  {
    hide WriteMemory;
    var ops := PeriWrite(off, data);
    assert ops[1..] == [Store(off, data)] && ops[1..][1..] == [];
    IdealUnfold(o, i, ops);
    IdealUnfold(o, i, ops[1..]);
  }

  lemma InitRuns(o: Arith, i: Ideal, c: Byte)
    requires Proper(i.chip)
    ensures IdealRun(o, i, PeriInit(c))
         == i.(chip := RunStep(o, i.chip.(counter := c)).0, executed := i.executed + [c])
  {
    hide RunStep;
    var ops := PeriInit(c);
    assert ops[1..] == [Request, AwaitReady] && ops[1..][1..] == [AwaitReady] && ops[1..][1..][1..] == [];
    IdealUnfold(o, i, ops);
    var j := IdealStep(o, i, ops[0]);
    IdealUnfold(o, j, ops[1..]);
    var k := IdealStep(o, j, ops[1..][0]);
    IdealUnfold(o, k, ops[1..][1..]);
  }

  function CountTo(j: nat): seq<Byte>
    requires j < 8
  {
    if j == 0 then [] else CountTo(j - 1) + [j]
  }

  lemma {:induction false} InitsRun(o: Arith, i: Ideal, j: nat)
    requires Proper(i.chip) && j < 8
    ensures IdealRun(o, i, InitTo(j)) == i.(chip := RunTo(o, i.chip, j).0, executed := i.executed + CountTo(j))
  {
    hide RunStep, PeriInit;
    if j > 0 {
      InitsRun(o, i, j - 1);
      IdealConcat(o, i, InitTo(j - 1), PeriInit(j));
      InitRuns(o, IdealRun(o, i, InitTo(j - 1)), j);
      assert i.executed + CountTo(j) == (i.executed + CountTo(j - 1)) + [j];
    } else {
      assert i.executed + [] == i.executed;
    }
  }

  lemma ImageRuns(o: Arith, i: Ideal, image: seq<Byte>)
    requires Proper(i.chip) && |image| == PIXELS && RunImage(o, i.chip, image).0.finished
    ensures var (t, cycles) := RunImage(o, i.chip, image);
      IdealRun(o, i, ForImage(image)) == i.(chip := t, executed := i.executed + CountTo(7), got := i.got + [t.mem1[0]])
  {
    hide RunTo, InitTo, CountTo, Splice, PeriWrite;
    var a := PeriWrite(IMAGE_WINDOW, image);
    WriteRuns(o, i, IMAGE_WINDOW, image);
    var s := i.chip.(mem2 := Splice(i.chip.mem2, 0, image));
    assert WriteMemory(i.chip, IMAGE_WINDOW, image) == s;
    var j := i.(chip := s);
    InitsRun(o, j, 7);
    var k := j.(chip := RunTo(o, s, 7).0, executed := i.executed + CountTo(7));
    IdealConcat(o, i, a, InitTo(7));
    IdealConcat(o, i, a + InitTo(7), [CheckFinished]);
    IdealConcat(o, i, a + InitTo(7) + [CheckFinished], PeriRead(2));
    CheckRuns(o, k);
    ReadRuns(o, k);
  }

  lemma CheckRuns(o: Arith, i: Ideal)
    requires Proper(i.chip) && i.chip.finished
    ensures IdealRun(o, i, [CheckFinished]) == i
  {
    IdealUnfold(o, i, [CheckFinished]);
  }

  lemma ReadRuns(o: Arith, i: Ideal)
    requires Proper(i.chip)
    ensures IdealRun(o, i, PeriRead(2)) == i.(got := i.got + [i.chip.mem1[0]])
  {
    var ops := PeriRead(2);
    assert ops[1..] == [Fetch(2)] && ops[1..][1..] == [];
    IdealUnfold(o, i, ops);
    IdealUnfold(o, i, ops[1..]);
  }

  // ------------------------------------------------------------------------------------
  // Sending the tables
  // ------------------------------------------------------------------------------------

  lemma SpliceJoin(mem: seq<Byte>, off: nat, a: seq<Byte>, b: seq<Byte>)
    requires off + |a| + |b| <= |mem|
    ensures Splice(Splice(mem, off, a), off + |a|, b) == Splice(mem, off, a + b)
  {}

  function WithTable(s: Chip, at: nat, data: seq<Byte>): Chip
    requires at + |data| <= |s.mem3|
  {
    s.(mem3 := Splice(s.mem3, at, data))
  }

  lemma NextWrite(o: Arith, i: Ideal, ops: seq<Op>, s: Chip, at: nat, data: seq<Byte>, more: seq<Byte>)
    requires Proper(i.chip) && Proper(s) && at + |data| + |more| <= PARAMETERS
    requires IdealRun(o, i, ops) == i.(chip := WithTable(s, at, data))
    ensures IdealRun(o, i, ops + PeriWrite(PARAMETER_WINDOW + at + |data|, more))
         == i.(chip := WithTable(s, at, data + more))
  {
    hide Splice, IdealRun, PeriWrite;
    var off := PARAMETER_WINDOW + at + |data|;
    IdealConcat(o, i, ops, PeriWrite(off, more));
    WriteRuns(o, IdealRun(o, i, ops), off, more);
    SpliceJoin(s.mem3, at, data, more);
  }

  lemma TableRuns(o: Arith, i: Ideal, p: Params, layer: nat)
    requires Proper(i.chip) && Full(p) && SmallWeights(p) && layer < 3
    ensures IdealRun(o, i, SendTable(p, PARAMETER_WINDOW + layer * LAYER))
         == i.(chip := WithTable(i.chip, layer * LAYER, TableBytes(p)))
  {
    hide Splice, IdealRun, PeriWrite, WeightBytes, EncodeFloats, SmallWeights, WithTable;
    var at, step, s := layer * LAYER, 4 * SIZE, i.chip;
    var w, b, c := WeightBytes(p), EncodeFloats(p.bias), EncodeFloats(p.scale);
    var v, m := EncodeFloats(p.variance), EncodeFloats(p.mean);
    var off := PARAMETER_WINDOW + at;
    var bn := off + SIZE * SIZE;
    var ops1 := PeriWrite(off, w);
    var ops2 := ops1 + PeriWrite(bn, b);
    var ops3 := ops2 + PeriWrite(bn + step, c);
    var ops4 := ops3 + PeriWrite(bn + 2 * step, v);
    FirstWrite(o, i, at, w);
    NextWrite(o, i, ops1, s, at, w, b);
    NextWrite(o, i, ops2, s, at, w + b, c);
    NextWrite(o, i, ops3, s, at, w + b + c, v);
    NextWrite(o, i, ops4, s, at, w + b + c + v, m);
  }

  lemma FirstWrite(o: Arith, i: Ideal, at: nat, data: seq<Byte>)
    requires Proper(i.chip) && at + |data| <= PARAMETERS
    ensures IdealRun(o, i, PeriWrite(PARAMETER_WINDOW + at, data)) == i.(chip := WithTable(i.chip, at, data))
  {
    hide Splice, IdealRun, PeriWrite;
    WriteRuns(o, i, PARAMETER_WINDOW + at, data);
  }

  lemma TableStored(s: Chip, p: Params, layer: nat)
    requires Proper(s) && Full(p) && SmallWeights(p) && layer < 3
    ensures Stored(WithTable(s, layer * LAYER, TableBytes(p)).mem3, p, layer)
  {
    hide TableBytes, SmallWeights;
  }

  lemma TableKept(s: Chip, data: seq<Byte>, layer: nat, q: Params, other: nat)
    requires Proper(s) && |data| == LAYER && layer < 3 && layer != other
    requires Full(q) && SmallWeights(q) && Stored(s.mem3, q, other)
    ensures Stored(WithTable(s, layer * LAYER, data).mem3, q, other)
  {
    hide TableBytes, SmallWeights;
    var mem, m := s.mem3, WithTable(s, layer * LAYER, data).mem3;
    forall k | other * LAYER <= k < (other + 1) * LAYER ensures m[k] == mem[k] {
      SpliceAt(mem, layer * LAYER, data, k);
    }
    assert m[other * LAYER..(other + 1) * LAYER] == mem[other * LAYER..(other + 1) * LAYER];
  }

  lemma TablesRun(o: Arith, n: Net, i: Ideal)
    requires Proper(i.chip) && IsNet(n) && SmallNet(n) && !i.chip.weightLoaded
    ensures var j := IdealRun(o, i, SendTables(n, i.chip.loadOnce));
      j == i.(chip := j.chip) && Proper(j.chip) && Prepared(o, n, j.chip) && !j.chip.weightLoaded
      && j.chip.loadOnce == i.chip.loadOnce
  {
    hide IdealRun, SendTable, TableBytes, Packed, Separate, Stored, SmallWeights, Prepared, Splice;
    if i.chip.loadOnce {
      TableRuns(o, i, Packed(n), 0);
      TableStored(i.chip, Packed(n), 0);
      SentPrepares(o, n, WithTable(i.chip, 0, TableBytes(Packed(n))));
    } else {
      var p1, p2, p3 := Separate(n.fc1, BLOCK1), Separate(n.fc2, BLOCK2), Separate(n.fc3, BLOCK3);
      var a := SendTable(p1, PARAMETER_WINDOW);
      var b := SendTable(p2, PARAMETER_WINDOW + LAYER);
      var c := SendTable(p3, PARAMETER_WINDOW + 2 * LAYER);
      var s1 := WithTable(i.chip, 0, TableBytes(p1));
      var s2 := WithTable(s1, LAYER, TableBytes(p2));
      var s3 := WithTable(s2, 2 * LAYER, TableBytes(p3));
      TableRuns(o, i, p1, 0);
      TableRuns(o, i.(chip := s1), p2, 1);
      TableRuns(o, i.(chip := s2), p3, 2);
      IdealConcat(o, i, a, b);
      IdealConcat(o, i, a + b, c);
      TableStored(i.chip, p1, 0);
      TableStored(s1, p2, 1);
      TableStored(s2, p3, 2);
      TableKept(s1, TableBytes(p2), 1, p1, 0);
      TableKept(s2, TableBytes(p3), 2, p1, 0);
      TableKept(s2, TableBytes(p3), 2, p2, 1);
      SentPrepares(o, n, s3);
    }
  }

  // ------------------------------------------------------------------------------------
  // The whole run
  // ------------------------------------------------------------------------------------

  /** Operations 1 to 7 for each of n images. */
  function Counters(n: nat): seq<Byte> {
    if n == 0 then [] else Counters(n - 1) + CountTo(7)
  }

  /** The state of the sequential program after the images ran from state i. */
  function WithImages(o: Arith, i: Ideal, images: seq<seq<Byte>>): Ideal
    requires Proper(i.chip) && forall k :: 0 <= k < |images| ==> |images[k]| == PIXELS
  {
    var r := RunImages(o, i.chip, images);
    i.(chip := r.0, executed := i.executed + Counters(|images|), got := i.got + r.1)
  }

  lemma NoImages(o: Arith, i: Ideal)
    requires Proper(i.chip)
    ensures WithImages(o, i, []) == i == IdealRun(o, i, ForImages([]))
  {
    assert i.executed + [] == i.executed && i.got + [] == i.got;
  }

  lemma OneMoreImage(o: Arith, i: Ideal, images: seq<seq<Byte>>)
    requires Proper(i.chip) && images != [] && forall k :: 0 <= k < |images| ==> |images[k]| == PIXELS
    ensures var j := WithImages(o, i, images[..|images| - 1]);
      && Proper(j.chip)
      && var t := RunImage(o, j.chip, images[|images| - 1]).0;
         WithImages(o, i, images) == j.(chip := t, executed := j.executed + CountTo(7), got := j.got + [t.mem1[0]])
  {
    hide RunImage, CountTo;
    var front := images[..|images| - 1];
    assert (i.executed + Counters(|front|)) + CountTo(7) == i.executed + Counters(|images|);
    var r, t := RunImages(o, i.chip, front), RunImages(o, i.chip, images);
    assert (i.got + r.1) + [t.0.mem1[0]] == i.got + t.1;
  }

  lemma {:induction false} ImagesRun(o: Arith, n: Net, i: Ideal, images: seq<seq<Byte>>)
    requires Lawful(o) && Proper(i.chip) && Prepared(o, n, i.chip)
    requires forall k :: 0 <= k < |images| ==> |images[k]| == PIXELS
    ensures IdealRun(o, i, ForImages(images)) == WithImages(o, i, images)
  {
    if images == [] {
      NoImages(o, i);
    } else {
      var front, last := images[..|images| - 1], images[|images| - 1];
      assert ForImages(images) == ForImages(front) + ForImage(last);
      hide Lawful, Prepared, RunImage, ForImage, ForImages, CountTo, IdealRun, Classify;
      ImagesRun(o, n, i, front);
      ImagesClassified(o, n, i.chip, front);
      var j := WithImages(o, i, front);
      assert j.chip == RunImages(o, i.chip, front).0;
      hide RunImages, Counters, WithImages, Proper;
      OneMoreImage(o, i, images);
      ImageClassified(o, n, j.chip, last);
      ImageRuns(o, j, last);
      IdealConcat(o, i, ForImages(front), ForImage(last));
    }
  }

  lemma ProgramRuns(o: Arith, n: Net, chip: Chip, images: seq<seq<Byte>>)
    requires Lawful(o) && Proper(chip) && !chip.weightLoaded && IsNet(n) && SmallNet(n)
    requires forall k :: 0 <= k < |images| ==> |images[k]| == PIXELS
    ensures var r := IdealRun(o, Ideal(chip, [], [], false), Program(n, chip.loadOnce, images));
      && !r.failed && r.executed == [0] + Counters(|images|)
      && |r.got| == |images| && forall k :: 0 <= k < |images| ==> r.got[k] == Classify(o, n, images[k])
  {
    hide Lawful, Prepared, SendTables, ForImages, SmallNet, IdealRun, RunImages, Classify, Proper, RunStep;
    var i := Ideal(chip, [], [], false);
    var j := Ideal(chip.(counter := 0, finished := false), [0], [], false);
    FirstInit(o, chip);
    TablesRun(o, n, j);
    var k := IdealRun(o, j, SendTables(n, chip.loadOnce));
    ImagesRun(o, n, k, images);
    ImagesClassified(o, n, k.chip, images);
    IdealConcat(o, i, PeriInit(0), SendTables(n, chip.loadOnce));
    IdealConcat(o, i, PeriInit(0) + SendTables(n, chip.loadOnce), ForImages(images));
    assert [] + RunImages(o, k.chip, images).1 == RunImages(o, k.chip, images).1;
  }

  lemma FirstInit(o: Arith, chip: Chip)
    requires Proper(chip)
    ensures Proper(chip.(counter := 0, finished := false))
    ensures IdealRun(o, Ideal(chip, [], [], false), PeriInit(0))
         == Ideal(chip.(counter := 0, finished := false), [0], [], false)
  {
    hide IdealRun, PeriInit;
    InitRuns(o, Ideal(chip, [], [], false), 0);
    assert [] + [0] == [0];
  }

  /** Host, driver, device and packed array together. Whatever the interleaving of polls and
      interrupts and whatever the memories contain at power-on: no request is lost; when the
      host is through, it has read the class of every image in order, its assertion has always
      held, and the chip has executed exactly the operations it was sent; and the run ends once
      the interrupts go off. */
  lemma EndToEnd(o: Arith, n: Net, chip: Chip, images: seq<seq<Byte>>, schedule: seq<bool>, polls: seq<nat>)
    requires Lawful(o) && Proper(chip) && !chip.weightLoaded && IsNet(n) && SmallNet(n)
    requires forall k :: 0 <= k < |images| ==> |images[k]| == PIXELS
    ensures Consistent(PowerOn(chip))
    ensures var t := Interleave(o, System(PowerOn(chip), Program(n, chip.loadOnce, images), [], false), schedule);
      && t.dev.discarded == 0
      && (t.todo == [] ==>
            && !t.failed && t.dev.executed == [0] + Counters(|images|) && |t.got| == |images|
            && forall k :: 0 <= k < |images| ==>
                 && t.got[k] == Classify(o, n, images[k])
                 && (Ordered(o, ClassScores(o, n, images[k])) ==>
                       FirstLargest(o, ClassScores(o, n, images[k]), t.got[k])))
    ensures |polls| >= |Program(n, chip.loadOnce, images)| ==>
      Interleave(o, System(PowerOn(chip), Program(n, chip.loadOnce, images), [], false), Rounds(polls)).todo == []
  {
    hide Lawful, SmallNet, IdealRun, Interleave, Classify, Proper, Program, Polite, Rounds, ClassScores, Ordered,
      FirstLargest;
    forall k | 0 <= k < |images| && Ordered(o, ClassScores(o, n, images[k]))
      ensures FirstLargest(o, ClassScores(o, n, images[k]), Classify(o, n, images[k]))
    {
      ClassIsLargest(o, n, images[k]);
    }
    var ops := Program(n, chip.loadOnce, images);
    ProgramPolite(n, chip.loadOnce, images);
    FinishedMeansIdeal(o, chip, ops, schedule);
    ProgramRuns(o, n, chip, images);
    RoundsFinish(o, System(PowerOn(chip), ops, [], false), polls);
  }
}
