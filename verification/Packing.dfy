/** The parameter tables of binnet/main.cpp: load_weights places three layers in separate
    tables and once more, together, in a single one; main sends them to the device. */
module Packing {
  import opened Bytes
  import opened Rram
  import opened AiChip
  import opened BinaryNet

  // ------------------------------------------------------------------------------------
  // Tables as values
  // ------------------------------------------------------------------------------------

  /** A zero-initialised table. */
  function Blank(): (p: Params)
    ensures Full(p)
  {
    var zeros := seq(SIZE, i requires 0 <= i < SIZE => 0);
    Params(seq(SIZE, i requires 0 <= i < SIZE => zeros), zeros, zeros, zeros, zeros)
  }

  predicate InRows(l: Layer, b: Block, i: nat) { b.row <= i < b.row + l.rows }
  predicate InBlock(l: Layer, b: Block, i: nat, j: nat) { InRows(l, b, i) && b.col <= j < b.col + l.cols }

  function OverlayFloats(old_: seq<Float>, new_: seq<Float>, at: nat): (s: seq<Float>)
    requires |old_| == SIZE
    ensures |s| == SIZE
  {
    seq(SIZE, i requires 0 <= i < SIZE => if at <= i < at + |new_| then new_[i - at] else old_[i])
  }

  function OverlayWeight(p: Params, l: Layer, b: Block, i: nat, j: nat): int
    requires Full(p) && WellSized(l) && i < SIZE && j < SIZE
  {
    if InBlock(l, b, i, j) then l.weight[i - b.row][j - b.col] else p.weight[i][j]
  }

  /** A layer written into a table: its block of weights, and the entries of its rows. */
  function Overlay(p: Params, l: Layer, b: Block): (q: Params)
    requires Full(p) && WellSized(l)
    ensures Full(q)
  {
    Params(
      seq(SIZE, i requires 0 <= i < SIZE => seq(SIZE, j requires 0 <= j < SIZE => OverlayWeight(p, l, b, i, j))),
      OverlayFloats(p.mean, l.mean, b.row), OverlayFloats(p.variance, l.variance, b.row),
      OverlayFloats(p.scale, l.scale, b.row), OverlayFloats(p.bias, l.bias, b.row))
  }

  function Separate(l: Layer, b: Block): (p: Params)
    requires WellSized(l)
    ensures Full(p)
  {
    Overlay(Blank(), l, b)
  }

  /** fc_w, bn_b, bn_w, bn_var and bn_mean. */
  function Packed(n: Net): (p: Params)
    requires IsNet(n)
    ensures Full(p)
  {
    Overlay(Overlay(Overlay(Blank(), n.fc1, BLOCK1), n.fc2, BLOCK2), n.fc3, BLOCK3)
  }

  // ------------------------------------------------------------------------------------
  // The layers in the tables
  // ------------------------------------------------------------------------------------

  /** Rows that the layer's own block fills and that are zero elsewhere. */
  ghost predicate Contains(p: Params, l: Layer, b: Block) {
    && Full(p) && WellSized(l) && b.row + l.rows <= SIZE && b.col + l.cols <= SIZE
    && forall i :: 0 <= i < l.rows ==> ContainsRow(p, l, b, i)
  }

  ghost predicate ContainsRow(p: Params, l: Layer, b: Block, i: nat)
    requires Full(p) && WellSized(l) && b.row + l.rows <= SIZE && i < l.rows
  {
    && p.mean[b.row + i] == l.mean[i] && p.variance[b.row + i] == l.variance[i]
    && p.scale[b.row + i] == l.scale[i] && p.bias[b.row + i] == l.bias[i]
    && var row := p.weight[b.row + i]; forall j :: 0 <= j < SIZE ==>
         row[j] == if b.col <= j < b.col + l.cols then l.weight[i][j - b.col] else 0
  }

  ghost predicate BlankRows(p: Params, from: nat, to: nat)
    requires Full(p)
  {
    forall i, j :: from <= i < to && 0 <= i < SIZE && 0 <= j < SIZE ==> p.weight[i][j] == 0
  }

  lemma OverlayContains(p: Params, l: Layer, b: Block)
    requires Full(p) && WellSized(l) && b.row + l.rows <= SIZE && b.col + l.cols <= SIZE
    requires BlankRows(p, b.row, b.row + l.rows)
    ensures Contains(Overlay(p, l, b), l, b)
  {
    forall i | 0 <= i < l.rows ensures ContainsRow(Overlay(p, l, b), l, b, i) {}
  }

  /** Writing into other rows keeps a layer, and keeps blank rows blank. */
  lemma OverlayKeeps(p: Params, l: Layer, b: Block, k: Layer, c: Block)
    requires Contains(p, k, c) && WellSized(l)
    requires b.row + l.rows <= c.row || c.row + k.rows <= b.row
    ensures Contains(Overlay(p, l, b), k, c)
  {
    forall i | 0 <= i < k.rows ensures ContainsRow(Overlay(p, l, b), k, c, i) {
      assert ContainsRow(p, k, c, i) && !InRows(l, b, c.row + i);
    }
  }

  lemma OverlayBlank(p: Params, l: Layer, b: Block, from: nat, to: nat)
    requires Full(p) && WellSized(l) && BlankRows(p, from, to)
    requires b.row + l.rows <= from || to <= b.row
    ensures BlankRows(Overlay(p, l, b), from, to)
  {}

  /** All three layers survive the packing: their rows are disjoint. */
  lemma PackedContains(n: Net)
    requires IsNet(n)
    ensures Contains(Packed(n), n.fc1, BLOCK1) && Contains(Packed(n), n.fc2, BLOCK2)
    ensures Contains(Packed(n), n.fc3, BLOCK3)
  {
    hide Overlay, BlankRows, Contains;
    var p := Blank();
    BlankIsBlank();
    var q := Overlay(p, n.fc1, BLOCK1);
    OverlayContains(p, n.fc1, BLOCK1);
    OverlayBlank(p, n.fc1, BLOCK1, 768, SIZE);
    OverlayBlank(p, n.fc1, BLOCK1, 0, 10);
    var r := Overlay(q, n.fc2, BLOCK2);
    OverlayContains(q, n.fc2, BLOCK2);
    OverlayKeeps(q, n.fc2, BLOCK2, n.fc1, BLOCK1);
    OverlayBlank(q, n.fc2, BLOCK2, 0, 10);
    OverlayContains(r, n.fc3, BLOCK3);
    OverlayKeeps(r, n.fc3, BLOCK3, n.fc1, BLOCK1);
    OverlayKeeps(r, n.fc3, BLOCK3, n.fc2, BLOCK2);
  }

  lemma BlankIsBlank()
    ensures forall from, to :: BlankRows(Blank(), from, to)
  {}

  lemma SeparateContains(l: Layer, b: Block)
    requires WellSized(l) && b.row + l.rows <= SIZE && b.col + l.cols <= SIZE
    ensures Contains(Separate(l, b), l, b)
  {
    BlankIsBlank();
    OverlayContains(Blank(), l, b);
  }

  /** A table that contains a layer loads into an array that carries it. */
  lemma LoadedCarries(o: Arith, p: Params, l: Layer, b: Block)
    requires Contains(p, l, b)
    ensures Carries(o, Loaded(o, p), l, b)
  {
    var c := Loaded(o, p);
    forall i | 0 <= i < l.rows ensures CarriesRow(o, c, l, b, i) {
      assert ContainsRow(p, l, b, i);
    }
  }

  // ------------------------------------------------------------------------------------
  // Tables in the device's memory
  // ------------------------------------------------------------------------------------

  ghost predicate SmallWeights(p: Params)
    requires Full(p)
  {
    forall i, j :: 0 <= i < SIZE && 0 <= j < SIZE ==> -128 <= p.weight[i][j] < 128
  }

  function WeightBytes(p: Params): (s: seq<Byte>)
    requires Full(p) && SmallWeights(p)
    ensures |s| == SIZE * SIZE
  {
    seq(SIZE * SIZE, k requires 0 <= k < SIZE * SIZE => Unsigned(p.weight[k / SIZE][k % SIZE]))
  }

  /** What main writes for one table, in its order: weights, bias, scale, variance, mean. */
  function TableBytes(p: Params): (s: seq<Byte>)
    requires Full(p) && SmallWeights(p)
    ensures |s| == LAYER
  {
    WeightBytes(p) + EncodeFloats(p.bias) + EncodeFloats(p.scale) + EncodeFloats(p.variance) + EncodeFloats(p.mean)
  }

  /** Table layer lies in the memory where main has written it. */
  ghost predicate Stored(mem: seq<Byte>, p: Params, layer: nat)
    requires Full(p) && SmallWeights(p)
  {
    |mem| == PARAMETERS && layer < 3 && mem[layer * LAYER..(layer + 1) * LAYER] == TableBytes(p)
  }

  lemma SameFloat(mem: seq<Byte>, off: nat, e: seq<Byte>, k: nat)
    requires off + |e| <= |mem| && mem[off..off + |e|] == e && k + 4 <= |e|
    ensures FloatAt(mem, off + k) == FloatAt(e, k)
  {
    forall i | k <= i < k + 4 ensures mem[off + i] == e[i] {
      assert mem[off + i] == mem[off..off + |e|][i];
    }
  }

  lemma SliceOfSlice(mem: seq<Byte>, base: nat, t: seq<Byte>, a: nat, b: nat)
    requires base + |t| <= |mem| && mem[base..base + |t|] == t && a <= b <= |t|
    ensures mem[base + a..base + b] == t[a..b]
  {
    forall i | 0 <= i < b - a ensures mem[base + a..base + b][i] == t[a..b][i] {
      assert mem[base..base + |t|][a + i] == t[a + i];
    }
  }

  lemma FloatsRead(mem: seq<Byte>, off: nat, fs: seq<Float>)
    requires |fs| == SIZE && off + 4 * SIZE <= |mem| && mem[off..off + 4 * SIZE] == EncodeFloats(fs)
    ensures ReadFloats(mem, off) == fs
  {
    hide EncodeFloats;
    var e := EncodeFloats(fs);
    forall i | 0 <= i < SIZE ensures FloatAt(mem, off + 4 * i) == fs[i] {
      FloatsAt(fs, i);
      SameFloat(mem, off, e, 4 * i);
    }
  }

  lemma WeightsRead(mem: seq<Byte>, off: nat, p: Params)
    requires Full(p) && SmallWeights(p)
    requires off + SIZE * SIZE <= |mem| && mem[off..off + SIZE * SIZE] == WeightBytes(p)
    ensures ReadWeights(mem, off) == p.weight
  {
    var w := ReadWeights(mem, off);
    forall i, j | 0 <= i < SIZE && 0 <= j < SIZE ensures w[i][j] == p.weight[i][j] {
      var k := i * SIZE + j;
      assert k / SIZE == i && k % SIZE == j;
      assert mem[off + k] == mem[off..off + SIZE * SIZE][k];
      SignedRoundTrip(p.weight[i][j]);
    }
    forall i | 0 <= i < SIZE ensures w[i] == p.weight[i] {}
  }

  /** The chip finds each table where the driver has put it: op_init and main agree on the
      order and the offsets. */
  lemma StoredRead(mem: seq<Byte>, p: Params, layer: nat)
    requires Full(p) && SmallWeights(p) && Stored(mem, p, layer)
    ensures Inside(LayerAt(layer), |mem|) && ReadParams(mem, LayerAt(layer)) == p
  {
    hide WeightBytes, EncodeFloats, SmallWeights, ReadFloats, ReadWeights;
    LayersInside(layer);
    var at, step := LayerAt(layer), 4 * SIZE;
    var t, m := TableBytes(p), SIZE * SIZE;
    var base := layer * LAYER;
    SliceOfSlice(mem, base, t, 0, m);
    SliceOfSlice(mem, base, t, m, m + step);
    SliceOfSlice(mem, base, t, m + step, m + 2 * step);
    SliceOfSlice(mem, base, t, m + 2 * step, m + 3 * step);
    SliceOfSlice(mem, base, t, m + 3 * step, m + 4 * step);
    assert t[0..m] == WeightBytes(p);
    assert t[m..m + step] == EncodeFloats(p.bias);
    assert t[m + step..m + 2 * step] == EncodeFloats(p.scale);
    assert t[m + 2 * step..m + 3 * step] == EncodeFloats(p.variance);
    assert t[m + 3 * step..m + 4 * step] == EncodeFloats(p.mean);
    WeightsRead(mem, at.weight, p);
    FloatsRead(mem, at.bias, p.bias);
    FloatsRead(mem, at.scale, p.scale);
    FloatsRead(mem, at.variance, p.variance);
    FloatsRead(mem, at.mean, p.mean);
  }

  // ------------------------------------------------------------------------------------
  // Ready to classify
  // ------------------------------------------------------------------------------------

  ghost predicate SmallNet(n: Net)
    requires IsNet(n)
  {
    && SmallWeights(Packed(n)) && SmallWeights(Separate(n.fc1, BLOCK1))
    && SmallWeights(Separate(n.fc2, BLOCK2)) && SmallWeights(Separate(n.fc3, BLOCK3))
  }

  /** The parameter memory after main has sent its tables: the packed one, or all three. */
  ghost predicate Sent(mem: seq<Byte>, n: Net, loadOnce: bool)
    requires IsNet(n) && SmallNet(n)
  {
    if loadOnce then Stored(mem, Packed(n), 0)
    else Stored(mem, Separate(n.fc1, BLOCK1), 0) && Stored(mem, Separate(n.fc2, BLOCK2), 1)
         && Stored(mem, Separate(n.fc3, BLOCK3), 2)
  }

  /** A chip that has not loaded its array yet is prepared once the tables of its own mode are
      there, whatever its array and its activation memories contain. */
  lemma SentPrepares(o: Arith, n: Net, s: Chip)
    requires IsNet(n) && SmallNet(n) && Proper(s) && !s.weightLoaded && Sent(s.mem3, n, s.loadOnce)
    ensures Prepared(o, n, s)
  {
    hide Packed, Separate, SmallWeights, Stored, Loaded, ReadParams, Carries, Contains, LayerAt;
    if s.loadOnce {
      var p := Packed(n);
      PackedContains(n);
      StoredRead(s.mem3, p, 0);
      LoadedCarries(o, p, n.fc1, BLOCK1);
      LoadedCarries(o, p, n.fc2, BLOCK2);
      LoadedCarries(o, p, n.fc3, BLOCK3);
    } else {
      LayerPrepared(o, s, n.fc1, BLOCK1, 0);
      LayerPrepared(o, s, n.fc2, BLOCK2, 1);
      LayerPrepared(o, s, n.fc3, BLOCK3, 2);
    }
  }

  lemma LayerPrepared(o: Arith, s: Chip, l: Layer, b: Block, layer: nat)
    requires Proper(s) && WellSized(l) && b.row + l.rows <= SIZE && b.col + l.cols <= SIZE
    requires SmallWeights(Separate(l, b)) && layer < 3 && Stored(s.mem3, Separate(l, b), layer)
    ensures Carries(o, ArrayFor(o, s, layer, true), l, b)
  {
    hide Separate, SmallWeights, Stored, Loaded, ReadParams, Carries, Contains, LayerAt;
    SeparateContains(l, b);
    StoredRead(s.mem3, Separate(l, b), layer);
    LoadedCarries(o, Separate(l, b), l, b);
  }

  // ------------------------------------------------------------------------------------
  // The tables of the unmodified program, every layer at the origin of its own
  // ------------------------------------------------------------------------------------

  const ORIGIN := Block(0, 0)

  /** How many entries of each parameter row its load_weight copies: it counts 1024 bytes. */
  const COPIED: nat := 256

  function DirectLoad(o: Arith, c: Contents, p: Params): (d: Contents)
    requires Full(p) && |c.mean| == |c.variance| == |c.scale| == |c.bias| == SIZE
    ensures Fits(d)
  {
    Loaded(o, p.(mean := p.mean[..COPIED] + c.mean[COPIED..], variance := p.variance[..COPIED] + c.variance[COPIED..],
                 scale := p.scale[..COPIED] + c.scale[COPIED..], bias := p.bias[..COPIED] + c.bias[COPIED..]))
  }

  /** Whatever the array held before, a load carries a layer if and only if it has at most 256
      rows. */
  lemma DirectLoadExact(o: Arith, p: Params, l: Layer)
    requires Contains(p, l, ORIGIN)
    ensures (forall c :: Fits(c) ==> Carries(o, DirectLoad(o, c, p), l, ORIGIN)) <==> l.rows <= COPIED
  {
    hide Carries;
    if l.rows <= COPIED {
      forall c | Fits(c) ensures Carries(o, DirectLoad(o, c, p), l, ORIGIN) { DirectLoadCarries(o, c, p, l); }
    } else {
      var other: Float := if l.mean[COPIED] == 0 then 1 else 0;
      var c := Loaded(o, p).(mean := seq(SIZE, i => other));
      StaleMean(o, c, p, l);
    }
  }

  lemma DirectLoadCarries(o: Arith, c: Contents, p: Params, l: Layer)
    requires Contains(p, l, ORIGIN) && Fits(c) && l.rows <= COPIED
    ensures Carries(o, DirectLoad(o, c, p), l, ORIGIN)
  {
    var d := DirectLoad(o, c, p);
    forall i | 0 <= i < l.rows ensures CarriesRow(o, d, l, ORIGIN, i) {
      assert ContainsRow(p, l, ORIGIN, i);
    }
  }

  lemma StaleMean(o: Arith, c: Contents, p: Params, l: Layer)
    requires Contains(p, l, ORIGIN) && Fits(c) && l.rows > COPIED && c.mean[COPIED] != l.mean[COPIED]
    ensures !Carries(o, DirectLoad(o, c, p), l, ORIGIN)
  {
    assert DirectLoad(o, c, p).mean[COPIED] == c.mean[COPIED];
    assert Carries(o, DirectLoad(o, c, p), l, ORIGIN) ==> CarriesRow(o, DirectLoad(o, c, p), l, ORIGIN, COPIED);
  }

  /** The loop body of the unmodified program on the three tables that it reads from its files,
      with whatever array and buffers the image before has left. */
  lemma DirectProgram(o: Arith, n: Net, c: Contents, input: seq<int>, image: seq<Byte>)
    requires Lawful(o) && IsNet(n) && Fits(c)
    requires |input| == SIZE && |image| == PIXELS && input[..PIXELS] == Pixels(image)
    ensures var c1 := DirectLoad(o, c, Separate(n.fc1, ORIGIN));
      var c2 := DirectLoad(o, c1, Separate(n.fc2, ORIGIN));
      var c3 := DirectLoad(o, c2, Separate(n.fc3, ORIGIN));
      DirectClass(o, c1, c2, c3, input) == Classify(o, n, image)
  {
    hide Lawful, Carries, Contains, Separate, DirectLoad, DirectClass, Classify, Pixels;
    var c1 := DirectLoad(o, c, Separate(n.fc1, ORIGIN));
    var c2 := DirectLoad(o, c1, Separate(n.fc2, ORIGIN));
    var c3 := DirectLoad(o, c2, Separate(n.fc3, ORIGIN));
    SeparateContains(n.fc1, ORIGIN);
    SeparateContains(n.fc2, ORIGIN);
    SeparateContains(n.fc3, ORIGIN);
    DirectLoadCarries(o, c, Separate(n.fc1, ORIGIN), n.fc1);
    DirectLoadCarries(o, c1, Separate(n.fc2, ORIGIN), n.fc2);
    DirectLoadCarries(o, c2, Separate(n.fc3, ORIGIN), n.fc3);
    DirectAgrees(o, n, c1, c2, c3, input, image);
  }

  // ------------------------------------------------------------------------------------
  // load_weights
  // ------------------------------------------------------------------------------------

  /** One set of global tables of the host program. */
  class Table {
    const weight: array2<int>
    const mean: array<Float>
    const variance: array<Float>
    const scale: array<Float>
    const bias: array<Float>

    ghost function Repr(): set<object> { {weight, mean, variance, scale, bias} }

    ghost predicate Is(p: Params)
      reads Repr()
    {
      && Full(p) && weight.Length0 == weight.Length1 == SIZE
      && mean != variance && mean != scale && mean != bias
      && variance != scale && variance != bias && scale != bias
      && (forall i, j :: 0 <= i < SIZE && 0 <= j < SIZE ==> weight[i, j] == p.weight[i][j])
      && mean[..] == p.mean && variance[..] == p.variance && scale[..] == p.scale && bias[..] == p.bias
    }

    constructor ()
      ensures Is(Blank()) && fresh(Repr())
    {
      weight := new int[SIZE, SIZE]((i, j) => 0);
      mean := new Float[SIZE](i => 0);
      variance := new Float[SIZE](i => 0);
      scale := new Float[SIZE](i => 0);
      bias := new Float[SIZE](i => 0);
    }

    /** Read a layer's numbers into its block. */
    method Fill(l: Layer, b: Block, ghost p: Params)
      requires Is(p) && WellSized(l) && b.row + l.rows <= SIZE && b.col + l.cols <= SIZE
      modifies Repr()
      ensures Is(Overlay(p, l, b))
    {
      for i := b.row to b.row + l.rows
        modifies weight
        invariant forall k, j :: 0 <= k < SIZE && 0 <= j < SIZE ==>
          weight[k, j] == if k < i then OverlayWeight(p, l, b, k, j) else p.weight[k][j]
      {
        for j := b.col to b.col + l.cols
          invariant forall k, m :: 0 <= k < SIZE && 0 <= m < SIZE ==>
            weight[k, m] == if k < i || (k == i && m < j) then OverlayWeight(p, l, b, k, m) else p.weight[k][m]
        {
          weight[i, j] := l.weight[i - b.row][j - b.col];
        }
      }
      FillFloats(mean, l.mean, b.row);
      FillFloats(variance, l.variance, b.row);
      FillFloats(scale, l.scale, b.row);
      FillFloats(bias, l.bias, b.row);
    }

    /** Copy the block and the row entries of a layer from its own table. */
    method CopyBlock(src: Table, l: Layer, b: Block, ghost p: Params)
      requires Is(p) && WellSized(l) && src.Is(Separate(l, b)) && src.Repr() !! Repr()
      requires b.row + l.rows <= SIZE && b.col + l.cols <= SIZE
      modifies Repr()
      ensures Is(Overlay(p, l, b))
    {
      ghost var q := Separate(l, b);
      SeparateRows(l, b);
      hide Separate, Overlay, OverlayFloats;
      for i := b.row to b.row + l.rows
        modifies weight
        invariant src.Is(q)
        invariant forall k, j :: 0 <= k < SIZE && 0 <= j < SIZE ==>
          weight[k, j] == if k < i then OverlayWeight(p, l, b, k, j) else p.weight[k][j]
      {
        for j := b.col to b.col + l.cols
          invariant src.Is(q)
          invariant forall k, m :: 0 <= k < SIZE && 0 <= m < SIZE ==>
            weight[k, m] == if k < i || (k == i && m < j) then OverlayWeight(p, l, b, k, m) else p.weight[k][m]
        {
          weight[i, j] := src.weight[i, j];
        }
      }
      FillFloats(bias, src.bias[..][b.row..b.row + l.rows], b.row);
      FillFloats(scale, src.scale[..][b.row..b.row + l.rows], b.row);
      FillFloats(variance, src.variance[..][b.row..b.row + l.rows], b.row);
      FillFloats(mean, src.mean[..][b.row..b.row + l.rows], b.row);
      OverlayFields(p, l, b);
    }
  }

  lemma SeparateRows(l: Layer, b: Block)
    requires WellSized(l) && b.row + l.rows <= SIZE && b.col + l.cols <= SIZE
    ensures var q := Separate(l, b);
      && (forall i, j :: b.row <= i < b.row + l.rows && b.col <= j < b.col + l.cols ==>
            q.weight[i][j] == l.weight[i - b.row][j - b.col])
      && q.bias[b.row..b.row + l.rows] == l.bias && q.scale[b.row..b.row + l.rows] == l.scale
      && q.variance[b.row..b.row + l.rows] == l.variance && q.mean[b.row..b.row + l.rows] == l.mean
  {
    hide OverlayFloats;
    var z := Blank();
    OverlaySlice(z.bias, l.bias, b.row);
    OverlaySlice(z.scale, l.scale, b.row);
    OverlaySlice(z.variance, l.variance, b.row);
    OverlaySlice(z.mean, l.mean, b.row);
  }

  lemma OverlaySlice(old_: seq<Float>, new_: seq<Float>, at: nat)
    requires |old_| == SIZE && at + |new_| <= SIZE
    ensures OverlayFloats(old_, new_, at)[at..at + |new_|] == new_
  {}

  lemma OverlayFields(p: Params, l: Layer, b: Block)
    requires Full(p) && WellSized(l)
    ensures var q := Overlay(p, l, b);
      && q.mean == OverlayFloats(p.mean, l.mean, b.row) && q.variance == OverlayFloats(p.variance, l.variance, b.row)
      && q.scale == OverlayFloats(p.scale, l.scale, b.row) && q.bias == OverlayFloats(p.bias, l.bias, b.row)
      && forall i, j :: 0 <= i < SIZE && 0 <= j < SIZE ==> q.weight[i][j] == OverlayWeight(p, l, b, i, j)
  {}

  method FillFloats(a: array<Float>, fs: seq<Float>, at: nat)
    requires a.Length == SIZE && at + |fs| <= SIZE
    modifies a
    ensures a[..] == OverlayFloats(old(a[..]), fs, at)
  {
    for i := 0 to |fs|
      invariant forall k :: 0 <= k < SIZE ==> a[k] == if at <= k < at + i then fs[k - at] else old(a[k])
    {
      a[at + i] := fs[i];
    }
  }

  method NewTable(l: Layer, b: Block) returns (t: Table)
    requires WellSized(l) && b.row + l.rows <= SIZE && b.col + l.cols <= SIZE
    ensures t.Is(Separate(l, b)) && fresh(t.Repr())
  {
    hide Overlay, Blank, Table.Is;
    t := new Table();
    t.Fill(l, b, Blank());
  }

  /** Put all weights together. */
  method Pack(n: Net, t1: Table, t2: Table, t3: Table) returns (t: Table)
    requires IsNet(n)
    requires t1.Is(Separate(n.fc1, BLOCK1)) && t2.Is(Separate(n.fc2, BLOCK2)) && t3.Is(Separate(n.fc3, BLOCK3))
    ensures t.Is(Packed(n)) && fresh(t.Repr())
  {
    hide Overlay, Blank, Separate;
    t := new Table();
    ghost var p := Overlay(Blank(), n.fc1, BLOCK1);
    t.CopyBlock(t1, n.fc1, BLOCK1, Blank());
    t.CopyBlock(t2, n.fc2, BLOCK2, p);
    t.CopyBlock(t3, n.fc3, BLOCK3, Overlay(p, n.fc2, BLOCK2));
  }

  /** load_weights: three separate tables and the packed one. */
  method LoadWeights(n: Net) returns (t1: Table, t2: Table, t3: Table, t: Table)
    requires IsNet(n)
    ensures t1.Is(Separate(n.fc1, BLOCK1)) && t2.Is(Separate(n.fc2, BLOCK2)) && t3.Is(Separate(n.fc3, BLOCK3))
    ensures t.Is(Packed(n))
  {
    hide Packed, Separate, Table.Is, WellSized;
    t1 := NewTable(n.fc1, BLOCK1);
    t2 := NewTable(n.fc2, BLOCK2);
    t3 := NewTable(n.fc3, BLOCK3);
    t := Pack(n, t1, t2, t3);
  }
}
