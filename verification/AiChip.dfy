/** The operation sequencer of vdev/binnet/ai_chip.cpp over the operations of core.cpp. */
module AiChip {
  import opened Bytes
  import opened Rram

  const ACTIVATION: nat := 4 * SIZE
  const PARAMETERS: nat := 4 * 802816
  const LAYER: nat := SIZE * SIZE + 4 * (4 * SIZE)
  const PIXELS: nat := 784
  const CLASSES: nat := 10

  // ------------------------------------------------------------------------------------
  // The state and the operations as functions
  // ------------------------------------------------------------------------------------

  datatype Chip = Chip(mem1: seq<Byte>, mem2: seq<Byte>, mem3: seq<Byte>, rram: Contents,
                       loadOnce: bool, weightLoaded: bool, finished: bool, counter: Byte)

  ghost predicate Proper(s: Chip) {
    |s.mem1| == ACTIVATION && |s.mem2| == ACTIVATION && |s.mem3| == PARAMETERS && Fits(s.rram)
  }

  /** Where op_init puts the parameters of layer 0, 1 or 2: a weight matrix followed by bias,
      scale, variance and mean. */
  function LayerAt(layer: nat): Pointers {
    var base, step := layer * LAYER, 4 * SIZE;
    var bn := base + SIZE * SIZE;
    Pointers(base, bn + 3 * step, bn + 2 * step, bn + step, bn)
  }

  lemma LayersInside(layer: nat)
    requires layer < 3
    ensures Inside(LayerAt(layer), PARAMETERS)
  {}

  function Binarised(image: seq<Byte>): seq<Byte>
    requires |image| >= PIXELS
  {
    seq(PIXELS, i requires 0 <= i < PIXELS => if image[i] > 0 then 1 else 0)
  }

  function InputStep(s: Chip): Chip
    requires |s.mem1| == |s.mem2| == ACTIVATION
  {
    s.(mem1 := Splice(s.mem1, 0, Binarised(s.mem2)))
  }

  function FcStep(o: Arith, s: Chip, layer: nat, load: bool): Chip
    requires |s.mem1| == ACTIVATION && |s.mem3| == PARAMETERS && Fits(s.rram) && layer < 3
  {
    var rram := ArrayFor(o, s, layer, load);
    s.(rram := rram, mem2 := EncodeFloats(Outputs(o, rram, Inputs(s.mem1))))
  }

  /** The array contents a layer is calculated with. */
  function ArrayFor(o: Arith, s: Chip, layer: nat, load: bool): (c: Contents)
    requires |s.mem3| == PARAMETERS && Fits(s.rram) && layer < 3
    ensures Fits(c)
  {
    LayersInside(layer);
    if load then Loaded(o, ReadParams(s.mem3, LayerAt(layer))) else s.rram
  }

  function Signs(o: Arith, mem: seq<Byte>): (b: seq<Byte>)
    requires |mem| == 4 * SIZE
    ensures |b| == SIZE
  {
    seq(SIZE, i requires 0 <= i < SIZE => Unsigned(SignOf(o, FloatAt(mem, 4 * i))))
  }

  function SignStep(o: Arith, s: Chip): Chip
    requires |s.mem1| == |s.mem2| == ACTIVATION
  {
    s.(mem1 := Splice(s.mem1, 0, Signs(o, s.mem2)))
  }

  /** std::max_element over the first n floats: the first of the largest. */
  function ArgMax(o: Arith, fs: seq<Float>, n: nat): (i: nat)
    requires 0 < n <= |fs|
    ensures i < n
  {
    if n == 1 then 0
    else
      var i := ArgMax(o, fs, n - 1);
      if o.less(fs[i], fs[n - 1]) then n - 1 else i
  }

  /** On these floats the order is a strict weak one, as it is on any that are not a NaN. */
  ghost predicate Ordered(o: Arith, fs: seq<Float>) {
    && (forall i :: 0 <= i < |fs| ==> !o.less(fs[i], fs[i]))
    && (forall i, j, k :: 0 <= i < |fs| && 0 <= j < |fs| && 0 <= k < |fs| && o.less(fs[i], fs[j]) ==>
          && (o.less(fs[j], fs[k]) ==> o.less(fs[i], fs[k]))
          && (o.less(fs[i], fs[k]) || o.less(fs[k], fs[j])))
  }

  /** Place i holds a largest float, and each one before it is smaller. */
  ghost predicate FirstLargest(o: Arith, fs: seq<Float>, i: nat) {
    && i < |fs|
    && (forall k :: 0 <= k < |fs| ==> !o.less(fs[i], fs[k]))
    && (forall k :: 0 <= k < i ==> o.less(fs[k], fs[i]))
  }

  lemma {:induction false} ArgMaxFirst(o: Arith, fs: seq<Float>, n: nat)
    requires 0 < n <= |fs| && Ordered(o, fs)
    ensures FirstLargest(o, fs[..n], ArgMax(o, fs, n))
  {
    if n > 1 {
      ArgMaxFirst(o, fs, n - 1);
      var i, r := ArgMax(o, fs, n - 1), ArgMax(o, fs, n);
      var front := fs[..n - 1];
      forall k | 0 <= k < n ensures !o.less(fs[r], fs[k]) && (k < r ==> o.less(fs[k], fs[r])) {
        if k < n - 1 {
          assert front[k] == fs[k] && !o.less(front[i], front[k]) && (k < i ==> o.less(front[k], front[i]));
        }
      }
    }
  }

  lemma BestOfAll(o: Arith, fs: seq<Float>)
    requires fs != [] && Ordered(o, fs)
    ensures FirstLargest(o, fs, ArgMax(o, fs, |fs|))
  {
    assert fs[..|fs|] == fs;
    ArgMaxFirst(o, fs, |fs|);
  }

  function Scores(mem: seq<Byte>): (s: seq<Float>)
    requires |mem| == ACTIVATION
    ensures |s| == CLASSES
  {
    seq(CLASSES, i requires 0 <= i < CLASSES => FloatAt(mem, 4 * i))
  }

  function OutputStep(o: Arith, s: Chip): Chip
    requires |s.mem1| == |s.mem2| == ACTIVATION
  {
    s.(mem1 := Splice(s.mem1, 0, [ArgMax(o, Scores(s.mem2), CLASSES)]), finished := true)
  }

  /** AIChip::run, and the cycles it reports. */
  function RunStep(o: Arith, s: Chip): (r: (Chip, nat))
    requires Proper(s)
  {
    var t := s.(finished := false);
    match s.counter
    case 0 => (t, 1)
    case 1 => (InputStep(t), 10)
    case 2 =>
      var load := !s.loadOnce || !s.weightLoaded;
      (FcStep(o, t, 0, load).(weightLoaded := true), FcCycles(load))
    case 3 => (SignStep(o, t), 1)
    case 4 => (FcStep(o, t, 1, !s.loadOnce), FcCycles(!s.loadOnce))
    case 5 => (SignStep(o, t), 1)
    case 6 => (FcStep(o, t, 2, !s.loadOnce), FcCycles(!s.loadOnce))
    case 7 => (OutputStep(o, t), 10)
    case _ => (t, 0)
  }

  function FcCycles(load: bool): nat { if load then 100100 else 100 }

  lemma RunProper(o: Arith, s: Chip)
    requires Proper(s)
    ensures Proper(RunStep(o, s).0) && RunStep(o, s).0.mem3 == s.mem3 && RunStep(o, s).0.loadOnce == s.loadOnce
    ensures RunStep(o, s).0.counter == s.counter && (RunStep(o, s).0.finished <==> s.counter == 7)
    ensures s.counter == 0 || s.counter > 7 ==>
      RunStep(o, s) == (s.(finished := false), if s.counter == 0 then 1 else 0)
  {
    hide Splice, Outputs, EncodeFloats, Loaded, ReadParams, Binarised, Signs, Scores, ArgMax;
  }

  // ------------------------------------------------------------------------------------
  // The class
  // ------------------------------------------------------------------------------------

  class Device {
    const o: Arith
    const tickPerCycle: nat
    const loadOnce: bool
    const mem1: array<Byte>
    const mem2: array<Byte>
    const mem3: array<Byte>
    const rram: RramArray
    var weightLoaded: bool
    var finished: bool
    var counter: Byte

    ghost function Repr(): set<object> {
      {this, mem1, mem2, mem3} + rram.Repr()
    }

    /** The object is in state s. */
    ghost predicate Is(s: Chip)
      reads this, mem1, mem2, mem3, rram.Repr()
    {
      && Proper(s) && rram.Holds(s.rram) && rram.o == o
      && mem1 != mem2 && mem1 != mem3 && mem2 != mem3 && {mem1, mem2, mem3} !! rram.Repr()
      && mem1[..] == s.mem1 && mem2[..] == s.mem2 && mem3[..] == s.mem3
      && loadOnce == s.loadOnce && weightLoaded == s.weightLoaded
      && finished == s.finished && counter == s.counter
    }

    /** The memories start with whatever they happen to contain. */
    constructor (o: Arith, loadOnce: bool, tickPerCycle: nat)
      ensures this.o == o && this.loadOnce == loadOnce && this.tickPerCycle == tickPerCycle
      ensures fresh(Repr()) && rram.Valid() && Is(Snapshot())
      ensures !weightLoaded && !finished && counter == 0
    {
      this.o, this.loadOnce, this.tickPerCycle := o, loadOnce, tickPerCycle;
      mem1 := new Byte[ACTIVATION];
      mem2 := new Byte[ACTIVATION];
      mem3 := new Byte[PARAMETERS];
      rram := new RramArray(o);
      weightLoaded, finished, counter := false, false, 0;
    }

    ghost function Snapshot(): Chip
      requires rram.Valid()
      reads this, mem1, mem2, mem3, rram.Repr()
    {
      Chip(mem1[..], mem2[..], mem3[..], rram.Snapshot(), loadOnce, weightLoaded, finished, counter)
    }

    method OpInput()
      requires mem1 != mem2 && mem1.Length == mem2.Length == ACTIVATION
      modifies mem1
      ensures mem1[..] == Splice(old(mem1[..]), 0, Binarised(mem2[..]))
    {
      for i := 0 to PIXELS
        invariant forall k :: 0 <= k < i ==> mem1[k] == if mem2[k] > 0 then 1 else 0
        invariant mem1[i..] == old(mem1[i..])
      {
        mem1[i] := if mem2[i] > 0 then 1 else 0;
      }
    }

    method LoadIf(layer: nat, load: bool, ghost s: Chip) returns (cycles: nat)
      requires Is(s) && layer < 3
      modifies rram.Repr()
      ensures Is(s.(rram := ArrayFor(o, s, layer, load))) && cycles == (if load then 100000 else 0)
    {
      assert rram.Valid();
      hide Loaded, ReadParams, RramArray.Holds, LayerAt, Inside;
      cycles := 0;
      LayersInside(layer);
      if load { cycles := rram.LoadWeight(mem3[..], LayerAt(layer)); }
    }

    method OpFcCalculate(layer: nat, load: bool, ghost s: Chip) returns (cycles: nat)
      requires Is(s) && layer < 3
      modifies mem2, rram.Repr()
      ensures Is(FcStep(o, s, layer, load)) && cycles == FcCycles(load)
    {
      hide Outputs, EncodeFloats, Loaded, ReadParams, RramArray.Holds, LayerAt, Inside, ArrayFor;
      cycles := LoadIf(layer, load, s);
      var more := rram.Calculate(mem1[..], mem2, ArrayFor(o, s, layer, load));
      cycles := cycles + more;
    }

    method OpSign(ghost s: Chip) returns (cycles: nat)
      requires Is(s)
      modifies mem1
      ensures Is(SignStep(o, s)) && cycles == 1
    {
      cycles := rram.Sign(mem2[..], mem1);
      assert mem1[..] == Splice(s.mem1, 0, Signs(o, s.mem2));
    }

    method OpOutput(ghost s: Chip)
      requires Is(s)
      modifies mem1, this
      ensures Is(OutputStep(o, s))
      ensures Ordered(o, Scores(s.mem2)) ==> FirstLargest(o, Scores(s.mem2), mem1[0])
    {
      hide RramArray.Holds, FloatAt, Fits, Ordered, FirstLargest;
      if Ordered(o, Scores(s.mem2)) { BestOfAll(o, Scores(s.mem2)); }
      ghost var fs := Scores(s.mem2);
      var best, bestValue := 0, FloatAt(mem2[..], 0);
      for i := 1 to CLASSES
        invariant best == ArgMax(o, fs, i) && bestValue == fs[best]
      {
        var value := FloatAt(mem2[..], 4 * i);
        if o.less(bestValue, value) { best, bestValue := i, value; }
      }
      mem1[0] := best;
      finished := true;
      assert mem1[..] == Splice(s.mem1, 0, [best]);
    }

    method Run(ghost s: Chip) returns (ticks: nat)
      requires Is(s)
      modifies Repr()
      ensures Is(RunStep(o, s).0) && ticks == RunStep(o, s).1 * tickPerCycle
    {
      hide Splice, Outputs, EncodeFloats, Loaded, ReadParams, Binarised, Signs, Scores, ArgMax, RramArray.Holds,
        Ordered, FirstLargest;
      var cycles := 0;
      finished := false;
      ghost var t := s.(finished := false);
      if counter == 0 {
        cycles := 1;
      } else if counter == 1 {
        OpInput();
        cycles := 10;
      } else if counter == 2 {
        cycles := OpFcCalculate(0, !loadOnce || !weightLoaded, t);
        weightLoaded := true;
      } else if counter == 3 {
        cycles := OpSign(t);
      } else if counter == 4 {
        cycles := OpFcCalculate(1, !loadOnce, t);
      } else if counter == 5 {
        cycles := OpSign(t);
      } else if counter == 6 {
        cycles := OpFcCalculate(2, !loadOnce, t);
      } else if counter == 7 {
        OpOutput(t);
        cycles := 10;
      }
      return cycles * tickPerCycle;
    }
  }
}
