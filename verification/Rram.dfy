/** The resistive memory array of vdev/binnet/simd.h, without noise: a full weight matrix,
    split by sign, and one batch normalisation per row. */
module Rram {
  import opened Bytes

  const SIZE: nat := 1024

  /** The float operations the array uses: v + x * w and v - x * w for an input x, the batch
      normalisation of a value with mean, variance, scale and bias, and the order. */
  datatype Arith = Arith(
    zero: Float, one: Float,
    plus: (Float, int, Float) -> Float,
    minus: (Float, int, Float) -> Float,
    norm: (Float, Float, Float, Float, Float) -> Float,
    less: (Float, Float) -> bool,
    accumulator: Float -> bool)

  /** The only law needed: on the values an accumulator can take, a product with zero changes
      nothing. IEEE 754 floats meet it with every value but the negative zero, which a sum that
      starts from zero never becomes. */
  ghost predicate Lawful(o: Arith) {
    && o.accumulator(o.zero)
    && (forall v, x, w :: o.accumulator(v) ==> o.accumulator(o.plus(v, x, w)))
    && (forall v, x, w :: o.accumulator(v) ==> o.accumulator(o.minus(v, x, w)))
    && (forall v, x :: o.accumulator(v) ==> o.plus(v, x, o.zero) == v)
    && (forall v, x :: o.accumulator(v) ==> o.minus(v, x, o.zero) == v)
  }

  /** The law can be met by an arithmetic that really adds: saturating integers, whose
      weights are zero or count as one. */
  lemma Saturating() returns (o: Arith)
    ensures Lawful(o)
    ensures forall v: Float :: v < 0xffff_ffff ==> o.plus(v, 1, o.one) == v + 1
  {
    o := Arith(0, 1, SatPlus, SatMinus, (v: Float, m: Float, s: Float, w: Float, b: Float) => v,
               (v: Float, w: Float) => v < w, (v: Float) => true);
    assert forall v: Float :: v < 0xffff_ffff ==> SatPlus(v, 1, o.one) == v + 1;
  }

  function Saturate(v: int): Float { if v < 0 then 0 else if v > 0xffff_ffff then 0xffff_ffff else v }
  function SatPlus(v: Float, x: int, w: Float): Float { if w == 0 then v else Saturate(v + x) }
  function SatMinus(v: Float, x: int, w: Float): Float { if w == 0 then v else Saturate(v - x) }

  // ------------------------------------------------------------------------------------
  // Parameters in memory, and what the array keeps of them
  // ------------------------------------------------------------------------------------

  /** The five pointers handed to load_weight, as offsets into the parameter memory. */
  datatype Pointers = Pointers(weight: nat, mean: nat, variance: nat, scale: nat, bias: nat)

  ghost predicate Inside(at: Pointers, n: nat) {
    && at.weight + SIZE * SIZE <= n
    && at.mean + 4 * SIZE <= n && at.variance + 4 * SIZE <= n
    && at.scale + 4 * SIZE <= n && at.bias + 4 * SIZE <= n
  }

  /** A weight matrix, row by row, and the normalisation parameters of its rows. */
  datatype Params = Params(weight: seq<seq<int>>, mean: seq<Float>, variance: seq<Float>,
                           scale: seq<Float>, bias: seq<Float>)

  ghost predicate Full(p: Params) {
    && |p.weight| == SIZE && (forall i :: 0 <= i < SIZE ==> |p.weight[i]| == SIZE)
    && |p.mean| == |p.variance| == |p.scale| == |p.bias| == SIZE
  }

  function ReadFloats(mem: seq<Byte>, off: nat): (s: seq<Float>)
    requires off + 4 * SIZE <= |mem|
    ensures |s| == SIZE
  {
    seq(SIZE, i requires 0 <= i < SIZE => FloatAt(mem, off + 4 * i))
  }

  function ReadWeights(mem: seq<Byte>, off: nat): (w: seq<seq<int>>)
    requires off + SIZE * SIZE <= |mem|
    ensures |w| == SIZE && forall i :: 0 <= i < SIZE ==> |w[i]| == SIZE
  {
    seq(SIZE, i requires 0 <= i < SIZE =>
      seq(SIZE, j requires 0 <= j < SIZE => Signed(mem[off + i * SIZE + j])))
  }

  function ReadParams(mem: seq<Byte>, at: Pointers): (p: Params)
    requires Inside(at, |mem|)
    ensures Full(p)
  {
    Params(ReadWeights(mem, at.weight), ReadFloats(mem, at.mean), ReadFloats(mem, at.variance),
           ReadFloats(mem, at.scale), ReadFloats(mem, at.bias))
  }

  /** The contents of the array. */
  datatype Contents = Contents(positive: seq<seq<Float>>, negative: seq<seq<Float>>,
                               mean: seq<Float>, variance: seq<Float>, scale: seq<Float>, bias: seq<Float>)

  ghost predicate Fits(c: Contents) {
    && |c.positive| == |c.negative| == SIZE
    && (forall i :: 0 <= i < SIZE ==> |c.positive[i]| == SIZE && |c.negative[i]| == SIZE)
    && |c.mean| == |c.variance| == |c.scale| == |c.bias| == SIZE
  }

  function Positive(o: Arith, w: int): Float { if w > 0 then o.one else o.zero }
  function Negative(o: Arith, w: int): Float { if w < 0 then o.one else o.zero }

  function Loaded(o: Arith, p: Params): (c: Contents)
    requires Full(p)
    ensures Fits(c)
  {
    Contents(
      seq(SIZE, i requires 0 <= i < SIZE => seq(SIZE, j requires 0 <= j < SIZE => Positive(o, p.weight[i][j]))),
      seq(SIZE, i requires 0 <= i < SIZE => seq(SIZE, j requires 0 <= j < SIZE => Negative(o, p.weight[i][j]))),
      p.mean, p.variance, p.scale, p.bias)
  }

  // ------------------------------------------------------------------------------------
  // What the array computes
  // ------------------------------------------------------------------------------------

  /** The first loop over a row. */
  function Added(o: Arith, input: seq<int>, row: seq<Float>, n: nat): Float
    requires n <= |input| && n <= |row|
  {
    if n == 0 then o.zero else o.plus(Added(o, input, row, n - 1), input[n - 1], row[n - 1])
  }

  /** The second loop, from the value the first one left. */
  function Subtracted(o: Arith, v: Float, input: seq<int>, row: seq<Float>, n: nat): Float
    requires n <= |input| && n <= |row|
  {
    if n == 0 then v else o.minus(Subtracted(o, v, input, row, n - 1), input[n - 1], row[n - 1])
  }

  function RowSum(o: Arith, input: seq<int>, positive: seq<Float>, negative: seq<Float>): Float
    requires |input| == |positive| == |negative|
  {
    Subtracted(o, Added(o, input, positive, |input|), input, negative, |input|)
  }

  function Output(o: Arith, c: Contents, input: seq<int>, i: nat): Float
    requires Fits(c) && |input| == SIZE && i < SIZE
  {
    o.norm(RowSum(o, input, c.positive[i], c.negative[i]), c.mean[i], c.variance[i], c.scale[i], c.bias[i])
  }

  function Outputs(o: Arith, c: Contents, input: seq<int>): (s: seq<Float>)
    requires Fits(c) && |input| == SIZE
    ensures |s| == SIZE
  {
    seq(SIZE, i requires 0 <= i < SIZE => Output(o, c, input, i))
  }

  function SignOf(o: Arith, f: Float): (v: int)
    ensures -1 <= v <= 1
  {
    if o.less(o.zero, f) then 1 else if o.less(f, o.zero) then -1 else 0
  }

  /** The first SIZE bytes of a memory as the signed inputs of the array. */
  function Inputs(mem: seq<Byte>): (s: seq<int>)
    requires |mem| >= SIZE
    ensures |s| == SIZE
  {
    seq(SIZE, j requires 0 <= j < SIZE => Signed(mem[j]))
  }

  // ------------------------------------------------------------------------------------
  // The class
  // ------------------------------------------------------------------------------------

  class RramArray {
    const o: Arith
    const positive: array2<Float>
    const negative: array2<Float>
    const mean: array<Float>
    const variance: array<Float>
    const scale: array<Float>
    const bias: array<Float>

    ghost predicate Valid() {
      && positive.Length0 == positive.Length1 == negative.Length0 == negative.Length1 == SIZE
      && mean.Length == variance.Length == scale.Length == bias.Length == SIZE
      && positive != negative
      && mean != variance && mean != scale && mean != bias
      && variance != scale && variance != bias && scale != bias
    }

    ghost function Repr(): set<object> {
      {positive, negative, mean, variance, scale, bias}
    }

    ghost predicate Holds(c: Contents)
      reads positive, negative, mean, variance, scale, bias
    {
      && Valid() && Fits(c)
      && (forall i, j :: 0 <= i < SIZE && 0 <= j < SIZE ==> positive[i, j] == c.positive[i][j])
      && (forall i, j :: 0 <= i < SIZE && 0 <= j < SIZE ==> negative[i, j] == c.negative[i][j])
      && mean[..] == c.mean && variance[..] == c.variance && scale[..] == c.scale && bias[..] == c.bias
    }

    /** Whatever the array contains. */
    ghost function Snapshot(): Contents
      requires Valid()
      reads positive, negative, mean, variance, scale, bias
    {
      Contents(
        seq(SIZE, i requires 0 <= i < SIZE reads positive =>
          seq(SIZE, j requires 0 <= j < SIZE reads positive => positive[i, j])),
        seq(SIZE, i requires 0 <= i < SIZE reads negative =>
          seq(SIZE, j requires 0 <= j < SIZE reads negative => negative[i, j])),
        mean[..], variance[..], scale[..], bias[..])
    }

    constructor (o: Arith)
      ensures Valid() && fresh(Repr()) && this.o == o
      ensures Holds(Snapshot())
    {
      this.o := o;
      positive := new Float[SIZE, SIZE];
      negative := new Float[SIZE, SIZE];
      mean := new Float[SIZE];
      variance := new Float[SIZE];
      scale := new Float[SIZE];
      bias := new Float[SIZE];
    }

    method LoadWeight(mem: seq<Byte>, at: Pointers) returns (cycles: nat)
      requires Valid() && Inside(at, |mem|)
      modifies Repr()
      ensures Holds(Loaded(o, ReadParams(mem, at))) && cycles == 100000
    {
      ghost var w := ReadWeights(mem, at.weight);
      for i := 0 to SIZE
        invariant forall k, j :: 0 <= k < i && 0 <= j < SIZE ==>
          positive[k, j] == Positive(o, w[k][j]) && negative[k, j] == Negative(o, w[k][j])
      {
        for j := 0 to SIZE
          invariant forall k, l :: 0 <= k < i && 0 <= l < SIZE ==>
            positive[k, l] == Positive(o, w[k][l]) && negative[k, l] == Negative(o, w[k][l])
          invariant forall l :: 0 <= l < j ==>
            positive[i, l] == Positive(o, w[i][l]) && negative[i, l] == Negative(o, w[i][l])
        {
          var weight := Signed(mem[at.weight + i * SIZE + j]);
          positive[i, j], negative[i, j] := o.zero, o.zero;
          if weight > 0 { positive[i, j] := o.one; }
          if weight < 0 { negative[i, j] := o.one; }
        }
      }
      CopyFloats(mem, at.mean, mean);
      CopyFloats(mem, at.variance, variance);
      CopyFloats(mem, at.scale, scale);
      CopyFloats(mem, at.bias, bias);
      return 100000;
    }

    /** The two loops over row i. */
    method RowValue(input: seq<Byte>, i: nat, ghost c: Contents) returns (value: Float)
      requires Holds(c) && |input| >= SIZE && i < SIZE
      ensures value == RowSum(o, Inputs(input), c.positive[i], c.negative[i])
    {
      ghost var xs := Inputs(input);
      value := o.zero;
      for j := 0 to SIZE
        invariant value == Added(o, xs, c.positive[i], j)
      {
        value := o.plus(value, Signed(input[j]), positive[i, j]);
      }
      for j := 0 to SIZE
        invariant value == Subtracted(o, Added(o, xs, c.positive[i], SIZE), xs, c.negative[i], j)
      {
        value := o.minus(value, Signed(input[j]), negative[i, j]);
      }
    }

    method Calculate(input: seq<Byte>, out: array<Byte>, ghost c: Contents) returns (cycles: nat)
      requires Holds(c) && |input| >= SIZE && out.Length == 4 * SIZE && out !in Repr()
      modifies out
      ensures out[..] == EncodeFloats(Outputs(o, c, Inputs(input))) && cycles == 100
    {
      hide RowSum, Inputs;
      ghost var s := Outputs(o, c, Inputs(input));
      assert out[..0] == EncodeFloats(s[..0]);
      for i := 0 to SIZE
        invariant out[..4 * i] == EncodeFloats(s[..i])
      {
        var value := RowValue(input, i, c);
        value := o.norm(value, mean[i], variance[i], scale[i], bias[i]);
        PutFloat(out, 4 * i, value);
        assert s[..i + 1] == s[..i] + [value];
        EncodeSnoc(s[..i], value);
      }
      assert s[..SIZE] == s && out[..4 * SIZE] == out[..];
      return 100;
    }

    method Sign(input: seq<Byte>, out: array<Byte>) returns (cycles: nat)
      requires |input| == 4 * SIZE && out.Length >= SIZE
      modifies out
      ensures forall i :: 0 <= i < SIZE ==> out[i] == Unsigned(SignOf(o, FloatAt(input, 4 * i)))
      ensures out[SIZE..] == old(out[SIZE..]) && cycles == 1
    {
      for i := 0 to SIZE
        invariant forall k :: 0 <= k < i ==> out[k] == Unsigned(SignOf(o, FloatAt(input, 4 * k)))
        invariant out[SIZE..] == old(out[SIZE..])
      {
        out[i] := Unsigned(SignOf(o, FloatAt(input, 4 * i)));
      }
      return 1;
    }
  }

  method CopyFloats(mem: seq<Byte>, off: nat, a: array<Float>)
    requires a.Length == SIZE && off + 4 * SIZE <= |mem|
    modifies a
    ensures a[..] == ReadFloats(mem, off)
  {
    for i := 0 to SIZE
      invariant a[..i] == ReadFloats(mem, off)[..i]
    {
      a[i] := FloatAt(mem, off + 4 * i);
    }
    assert a[..SIZE] == a[..];
  }

  method PutFloat(out: array<Byte>, off: nat, f: Float)
    requires off + 4 <= out.Length
    modifies out
    ensures out[..off + 4] == old(out[..off]) + FloatBytes(f)
  {
    var b := FloatBytes(f);
    out[off], out[off + 1], out[off + 2], out[off + 3] := b[0], b[1], b[2], b[3];
  }
}
