/** What the network computes in real numbers: on floats that round each operation once, the
    class read back is the first of the largest scores of the network with weights -1, 0 and 1. */
module RealNetwork {
  import opened Bytes
  import opened Rram
  import opened AiChip
  import opened BinaryNet
  import opened Packing
  import opened VirtualDevice
  import opened BinnetHost

  // ------------------------------------------------------------------------------------
  // Floats as rounded reals
  // ------------------------------------------------------------------------------------

  /** Which floats are finite, the real number each of those stands for, the rounding of a
      result, and the square root. */
  datatype Reals = Reals(finite: Float -> bool, value: Float -> real, round: real -> real, root: real -> real)

  const EXACT: int := 0x100_0000

  /** The divisor of the batch normalisation. */
  function Deviation(r: Reals, variance: real): real {
    r.round(r.root(r.round(variance + r.round(0.00001))))
  }

  function Product(a: real, b: real): real { a * b }

  /** A quotient by zero is never finite and its value here is never used. */
  function Quotient(a: real, b: real): real { if b == 0.0 then 0.0 else a / b }

  /** (v - mean) / sqrt(variance + 1e-5) * scale + bias, rounded after each operation. */
  function Normalised(r: Reals, v: real, mean: real, variance: real, scale: real, bias: real): real {
    var quotient := r.round(Quotient(r.round(v - mean), Deviation(r, variance)));
    r.round(r.round(Product(quotient, scale)) + bias)
  }

  /** Each operation is the real one, rounded; integers of up to 24 bits are exact. */
  ghost predicate Numbers(o: Arith, r: Reals) {
    && r.finite(o.zero) && r.value(o.zero) == 0.0 && r.finite(o.one) && r.value(o.one) == 1.0
    && (forall k: int :: Small(k) ==> r.round(k as real) == k as real)
    && (forall a, b :: r.finite(a) && r.finite(b) ==> (o.less(a, b) <==> r.value(a) < r.value(b)))
    && (forall v, x, w :: Adds(o, r, v, x, w))
    && (forall v, m, s, w, b :: Normalises(o, r, v, m, s, w, b))
  }

  ghost predicate Adds(o: Arith, r: Reals, v: Float, x: int, w: Float) {
    var product := r.round(Product(x as real, r.value(w)));
    r.finite(v) && r.finite(w) && Small(x) ==>
      && (SmallReal(r.value(v) + product) ==>
            r.finite(o.plus(v, x, w)) && r.value(o.plus(v, x, w)) == r.round(r.value(v) + product))
      && (SmallReal(r.value(v) - product) ==>
            r.finite(o.minus(v, x, w)) && r.value(o.minus(v, x, w)) == r.round(r.value(v) - product))
  }

  ghost predicate Small(k: int) { -EXACT <= k <= EXACT }

  ghost predicate SmallReal(x: real) { 0.0 - EXACT as real <= x <= EXACT as real }

  ghost predicate Normalises(o: Arith, r: Reals, v: Float, m: Float, s: Float, w: Float, b: Float) {
    r.finite(v) && r.finite(m) && r.finite(s) && r.finite(w) && r.finite(b) && r.finite(o.norm(v, m, s, w, b)) ==>
      && Deviation(r, r.value(s)) != 0.0
      && r.value(o.norm(v, m, s, w, b))
      == Normalised(r, r.value(v), r.value(m), r.value(s), r.value(w), r.value(b))
  }

  /** 32-bit integers from -2^31 on, results rounded down and saturated, and one pattern that is
      not finite. */
  function RoundedReals(): Reals {
    Reals((f: Float) => f != 0xffff_ffff, Centered, (y: real) => Centered(Nearest(y)), (y: real) => y)
  }

  function RoundedArith(): Arith {
    Arith(0x8000_0000, 0x8000_0001, DownPlus, DownMinus, DownNorm,
          (v: Float, w: Float) => Centered(v) < Centered(w), (v: Float) => true)
  }

  function Centered(f: Float): real { (f - 0x8000_0000) as real }

  function Nearest(y: real): (f: Float)
    ensures f < 0xffff_ffff
    ensures SmallReal(y) ==> Centered(f) == y.Floor as real
  {
    var k := y.Floor + 0x8000_0000;
    if k < 0 then 0 else if k >= 0xffff_ffff then 0xffff_fffe else k
  }

  function DownPlus(v: Float, x: int, w: Float): Float {
    if w == 0x8000_0000 then v else Nearest(Centered(v) + Centered(Nearest(Product(x as real, Centered(w)))))
  }

  function DownMinus(v: Float, x: int, w: Float): Float {
    if w == 0x8000_0000 then v else Nearest(Centered(v) - Centered(Nearest(Product(x as real, Centered(w)))))
  }

  function DownNorm(v: Float, m: Float, s: Float, w: Float, b: Float): Float {
    var d := Centered(Nearest(Centered(Nearest(Centered(s) + Centered(Nearest(0.00001))))));
    var q := Centered(Nearest(Quotient(Centered(Nearest(Centered(v) - Centered(m))), d)));
    if d == 0.0 then 0xffff_ffff else Nearest(Centered(Nearest(Product(q, Centered(w)))) + Centered(b))
  }

  lemma DownNormalises(v: Float, m: Float, s: Float, w: Float, b: Float)
    ensures Normalises(RoundedArith(), RoundedReals(), v, m, s, w, b)
  {
    var r, o := RoundedReals(), RoundedArith();
    hide Centered, Nearest, Quotient, Product;
    var d := Deviation(r, Centered(s));
    var f := o.norm(v, m, s, w, b);
    assert d == Centered(Nearest(Centered(Nearest(Centered(s) + Centered(Nearest(0.00001))))));
    assert f == DownNorm(v, m, s, w, b);
    assert d == 0.0 ==> !r.finite(f);
    var q := r.round(Quotient(r.round(Centered(v) - Centered(m)), d));
    assert q == Centered(Nearest(Quotient(Centered(Nearest(Centered(v) - Centered(m))), d)));
    var y := r.round(Product(q, Centered(w))) + Centered(b);
    assert d != 0.0 ==> f == Nearest(y) && r.value(f) == r.round(y);
    assert d != 0.0 ==>
      r.value(f) == Normalised(r, Centered(v), Centered(m), Centered(s), Centered(w), Centered(b));
  }

  lemma NearestStays(v: Float)
    requires v < 0xffff_ffff
    ensures Nearest(Centered(v)) == v && Centered(0x8000_0000) == 0.0
  {}

  lemma DownSums(v: Float, x: int, w: Float, p: real)
    requires v < 0xffff_ffff && p == Centered(Nearest(Product(x as real, Centered(w))))
    requires w == 0x8000_0000 ==> p == 0.0
    ensures Centered(DownPlus(v, x, w)) == Centered(Nearest(Centered(v) + p)) && DownPlus(v, x, w) < 0xffff_ffff
    ensures Centered(DownMinus(v, x, w)) == Centered(Nearest(Centered(v) - p)) && DownMinus(v, x, w) < 0xffff_ffff
  {
    NearestStays(v);
    hide Centered, Nearest, Product;
  }

  lemma DownAdds(v: Float, x: int, w: Float)
    ensures Adds(RoundedArith(), RoundedReals(), v, x, w)
  {
    assert Product(x as real, 0.0) == 0.0;
    NearestStays(0x8000_0000);
    hide Product, Centered, Nearest, SmallReal, DownPlus, DownMinus;
    if v < 0xffff_ffff { DownSums(v, x, w, Centered(Nearest(Product(x as real, Centered(w))))); }
  }

  /** Both the law of the array and these laws can be met together. */
  lemma RoundedDown()
    ensures Lawful(RoundedArith()) && Numbers(RoundedArith(), RoundedReals())
  {
    forall v: Float, m: Float, s: Float, w: Float, b: Float
      ensures Normalises(RoundedArith(), RoundedReals(), v, m, s, w, b)
    {
      DownNormalises(v, m, s, w, b);
    }
    forall v: Float, x: int, w: Float ensures Adds(RoundedArith(), RoundedReals(), v, x, w) {
      DownAdds(v, x, w);
    }
    hide Adds, Normalises;
  }

  // ------------------------------------------------------------------------------------
  // The network in real numbers
  // ------------------------------------------------------------------------------------

  /** The sum of the first n inputs, each with the sign of its weight. */
  function SignedSum(w: seq<int>, x: seq<int>, n: nat): int
    requires n <= |w| && n <= |x|
  {
    if n == 0 then 0
    else SignedSum(w, x, n - 1) + (if w[n - 1] > 0 then x[n - 1] else if w[n - 1] < 0 then -x[n - 1] else 0)
  }

  function RealOutput(r: Reals, l: Layer, x: seq<int>, i: nat): real
    requires WellSized(l) && |x| == l.cols && i < l.rows
  {
    Normalised(r, SignedSum(l.weight[i], x, l.cols) as real,
               r.value(l.mean[i]), r.value(l.variance[i]), r.value(l.scale[i]), r.value(l.bias[i]))
  }

  function RealSign(y: real): int { if y > 0.0 then 1 else if y < 0.0 then -1 else 0 }

  function RealSigns(r: Reals, l: Layer, x: seq<int>): (s: seq<int>)
    requires WellSized(l) && |x| == l.cols
    ensures |s| == l.rows
  {
    seq(l.rows, i requires 0 <= i < l.rows => RealSign(RealOutput(r, l, x, i)))
  }

  /** 1 where the image is not black. */
  function BlackAndWhite(image: seq<Byte>): (x: seq<int>)
    requires |image| == PIXELS
    ensures |x| == PIXELS
  {
    seq(PIXELS, i requires 0 <= i < PIXELS => if image[i] == 0 then 0 else 1)
  }

  function RealScore(r: Reals, n: Net, image: seq<Byte>, k: nat): real
    requires IsNet(n) && |image| == PIXELS && k < CLASSES
  {
    RealOutput(r, n.fc3, RealSigns(r, n.fc2, RealSigns(r, n.fc1, BlackAndWhite(image))), k)
  }

  // ------------------------------------------------------------------------------------
  // One output
  // ------------------------------------------------------------------------------------

  ghost predicate Ternary(x: seq<int>) {
    forall j :: 0 <= j < |x| ==> -1 <= x[j] <= 1
  }

  /** The first of the two loops alone. */
  function Gain(w: seq<int>, x: seq<int>, n: nat): int
    requires n <= |w| && n <= |x|
  {
    if n == 0 then 0 else Gain(w, x, n - 1) + (if w[n - 1] > 0 then x[n - 1] else 0)
  }

  lemma AddOnce(o: Arith, r: Reals, v: Float, k: int, x: int, w: Float)
    requires Numbers(o, r) && r.finite(v) && -1 <= x <= 1 && (w == o.zero || w == o.one)
    requires r.value(v) == k as real && -EXACT < k < EXACT
    ensures r.finite(o.plus(v, x, w)) && r.finite(o.minus(v, x, w))
    ensures w == o.one ==> r.value(o.plus(v, x, w)) == r.value(v) + x as real
    ensures w == o.one ==> r.value(o.minus(v, x, w)) == r.value(v) - x as real
    ensures w == o.zero ==> r.value(o.plus(v, x, w)) == r.value(v) == r.value(o.minus(v, x, w))
  {
    assert Adds(o, r, v, x, w);
    assert Small(x) && Small(0) && Small(k) && Small(k + x) && Small(k - x);
  }

  lemma {:induction false} AddedValue(o: Arith, r: Reals, w: seq<int>, x: seq<int>, n: nat)
    requires Numbers(o, r) && Ternary(x) && n <= |w| == |x| <= SIZE
    ensures var v := Added(o, x, PositiveRow(o, w), n);
      r.finite(v) && r.value(v) == Gain(w, x, n) as real && 0 - n <= Gain(w, x, n) <= n
  {
    if n > 0 {
      AddedValue(o, r, w, x, n - 1);
      hide Numbers;
      assert r.value(Added(o, x, PositiveRow(o, w), n - 1)) == Gain(w, x, n - 1) as real;
      AddOnce(o, r, Added(o, x, PositiveRow(o, w), n - 1), Gain(w, x, n - 1), x[n - 1], Positive(o, w[n - 1]));
    }
  }

  lemma {:induction false} SubtractedValue(o: Arith, r: Reals, v: Float, w: seq<int>, x: seq<int>, n: nat)
    requires Numbers(o, r) && Ternary(x) && n <= |w| == |x| <= SIZE
    requires r.finite(v) && r.value(v) == Gain(w, x, |w|) as real && 0 - SIZE <= Gain(w, x, |w|) <= SIZE
    ensures var u := Subtracted(o, v, x, NegativeRow(o, w), n);
      var k := Gain(w, x, |w|) - Gain(w, x, n) + SignedSum(w, x, n);
      r.finite(u) && r.value(u) == k as real && 0 - SIZE - n <= k <= SIZE + n
  {
    if n > 0 {
      SubtractedValue(o, r, v, w, x, n - 1);
      hide Numbers;
      var u := Subtracted(o, v, x, NegativeRow(o, w), n - 1);
      var k := Gain(w, x, |w|) - Gain(w, x, n - 1) + SignedSum(w, x, n - 1);
      assert r.value(u) == k as real;
      AddOnce(o, r, u, k, x[n - 1], Negative(o, w[n - 1]));
    }
  }

  /** The parameters of a layer, and its outputs on x. */
  ghost predicate FiniteOn(o: Arith, r: Reals, l: Layer, x: seq<int>)
    requires WellSized(l) && |x| == l.cols
  {
    && (forall i :: 0 <= i < l.rows ==>
          r.finite(l.mean[i]) && r.finite(l.variance[i]) && r.finite(l.scale[i]) && r.finite(l.bias[i]))
    && (forall i :: 0 <= i < l.rows ==> r.finite(LayerOutput(o, l, x, i)))
  }

  /** An output of the array is the real one, its sign the real sign. */
  lemma OutputValue(o: Arith, r: Reals, l: Layer, x: seq<int>, i: nat)
    requires Numbers(o, r) && WellSized(l) && |x| == l.cols <= SIZE && i < l.rows && Ternary(x)
    requires FiniteOn(o, r, l, x)
    ensures r.value(LayerOutput(o, l, x, i)) == RealOutput(r, l, x, i)
    ensures SignOf(o, LayerOutput(o, l, x, i)) == RealSign(RealOutput(r, l, x, i))
  {
    var w := l.weight[i];
    var v := RowSum(o, x, PositiveRow(o, w), NegativeRow(o, w));
    AddedValue(o, r, w, x, |w|);
    SubtractedValue(o, r, Added(o, x, PositiveRow(o, w), |w|), w, x, |w|);
    assert r.finite(LayerOutput(o, l, x, i));
    assert Normalises(o, r, v, l.mean[i], l.variance[i], l.scale[i], l.bias[i]);
    hide Normalised, SignedSum, Added, Subtracted;
  }

  lemma LayerValue(o: Arith, r: Reals, l: Layer, x: seq<int>)
    requires Numbers(o, r) && WellSized(l) && |x| == l.cols <= SIZE && Ternary(x) && FiniteOn(o, r, l, x)
    ensures LayerSigns(o, l, x) == RealSigns(r, l, x) && Ternary(RealSigns(r, l, x))
  {
    hide Numbers, FiniteOn, LayerOutput, RealOutput, SignOf;
    forall i | 0 <= i < l.rows ensures LayerSigns(o, l, x)[i] == RealSigns(r, l, x)[i] {
      OutputValue(o, r, l, x, i);
    }
  }

  // ------------------------------------------------------------------------------------
  // The class
  // ------------------------------------------------------------------------------------

  /** Nothing overflows and no NaN arises on the way to the class of an image. */
  ghost predicate FiniteRun(o: Arith, r: Reals, n: Net, image: seq<Byte>)
    requires IsNet(n) && |image| == PIXELS
  {
    var x := Pixels(image);
    var h1 := LayerSigns(o, n.fc1, x);
    var h2 := LayerSigns(o, n.fc2, h1);
    FiniteOn(o, r, n.fc1, x) && FiniteOn(o, r, n.fc2, h1) && FiniteOn(o, r, n.fc3, h2)
  }

  lemma ScoreValue(o: Arith, r: Reals, n: Net, image: seq<Byte>)
    requires Numbers(o, r) && IsNet(n) && |image| == PIXELS && FiniteRun(o, r, n, image)
    ensures forall k | 0 <= k < CLASSES ::
      && r.finite(ClassScores(o, n, image)[k])
      && r.value(ClassScores(o, n, image)[k]) == RealScore(r, n, image, k)
  {
    hide Numbers, LayerOutput, RealOutput, LayerSigns, RealSigns;
    assert Pixels(image) == BlackAndWhite(image);
    LayerValue(o, r, n.fc1, Pixels(image));
    var h1 := LayerSigns(o, n.fc1, Pixels(image));
    LayerValue(o, r, n.fc2, h1);
    forall k | 0 <= k < CLASSES
      ensures r.value(ClassScores(o, n, image)[k]) == RealScore(r, n, image, k)
    {
      OutputValue(o, r, n.fc3, LayerSigns(o, n.fc2, h1), k);
    }
  }

  lemma FirstByValue(o: Arith, r: Reals, fs: seq<Float>)
    requires Numbers(o, r) && fs != [] && forall i :: 0 <= i < |fs| ==> r.finite(fs[i])
    ensures forall k | 0 <= k < |fs| :: r.value(fs[k]) <= r.value(fs[ArgMax(o, fs, |fs|)])
    ensures forall k | 0 <= k < ArgMax(o, fs, |fs|) :: r.value(fs[k]) < r.value(fs[ArgMax(o, fs, |fs|)])
  {
    hide Adds, Normalises, ArgMax;
    BestOfAll(o, fs);
  }

  /** The first of the largest real scores. */
  ghost predicate IsRealClass(r: Reals, n: Net, image: seq<Byte>, c: nat)
    requires IsNet(n) && |image| == PIXELS
  {
    && c < CLASSES
    && (forall k :: 0 <= k < CLASSES ==> RealScore(r, n, image, k) <= RealScore(r, n, image, c))
    && (forall k :: 0 <= k < c ==> RealScore(r, n, image, k) < RealScore(r, n, image, c))
  }

  /** The class of the array is the class of the network in real numbers. */
  lemma RealClass(o: Arith, r: Reals, n: Net, image: seq<Byte>)
    requires Numbers(o, r) && IsNet(n) && |image| == PIXELS && FiniteRun(o, r, n, image)
    ensures IsRealClass(r, n, image, Classify(o, n, image))
  {
    hide Numbers, RealScore, FiniteRun, ClassScores, ArgMax;
    ScoreValue(o, r, n, image);
    FirstByValue(o, r, ClassScores(o, n, image));
  }

  ghost predicate AllRealClasses(r: Reals, n: Net, images: seq<seq<Byte>>, got: seq<Byte>)
    requires IsNet(n)
  {
    && |got| == |images|
    && forall k :: 0 <= k < |images| ==> |images[k]| == PIXELS && IsRealClass(r, n, images[k], got[k])
  }

  /** What the host reads for each image, under any interleaving with the device. */
  lemma RealRun(o: Arith, r: Reals, n: Net, chip: Chip, images: seq<seq<Byte>>, schedule: seq<bool>)
    requires Lawful(o) && Numbers(o, r) && Proper(chip) && !chip.weightLoaded && IsNet(n) && SmallNet(n)
    requires forall k :: 0 <= k < |images| ==> |images[k]| == PIXELS && FiniteRun(o, r, n, images[k])
    ensures var t := Interleave(o, System(PowerOn(chip), Program(n, chip.loadOnce, images), [], false), schedule);
      t.todo == [] ==> AllRealClasses(r, n, images, t.got)
  {
    hide Lawful, Numbers, Proper, SmallNet, FiniteRun, RealScore, ClassScores, Classify, Interleave, Program, PowerOn;
    EndToEnd(o, n, chip, images, schedule, []);
    forall k | 0 <= k < |images| ensures IsRealClass(r, n, images[k], Classify(o, n, images[k])) {
      RealClass(o, r, n, images[k]);
    }
  }
}
