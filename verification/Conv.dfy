/** The convolution kernel of the simplecnn device: padding, a convolution and a fully connected
    layer computed four output lanes at a time, both of which skip groups of zero weights,
    and the host's pruning of small weights. */
module Conv {

  // ------------------------------------------------------------------------------------
  // Sums
  // ------------------------------------------------------------------------------------

  /** f(lo) + ... + f(hi - 1). */
  ghost function Sum(lo: int, hi: int, f: int -> real): real
    decreases hi - lo
  {
    if hi <= lo then 0.0 else Sum(lo, hi - 1, f) + f(hi - 1)
  }

  lemma {:induction false} SumSame(lo: int, hi: int, f: int -> real, g: int -> real)
    requires forall i :: lo <= i < hi ==> f(i) == g(i)
    ensures Sum(lo, hi, f) == Sum(lo, hi, g)
    decreases hi - lo
  {
    if lo < hi { SumSame(lo, hi - 1, f, g); }
  }

  lemma {:induction false} SumShift(lo: int, hi: int, d: int, f: int -> real, g: int -> real)
    requires forall i :: lo <= i < hi ==> f(i) == g(i + d)
    ensures Sum(lo, hi, f) == Sum(lo + d, hi + d, g)
    decreases hi - lo
  {
    if lo < hi { SumShift(lo, hi - 1, d, f, g); }
  }

  lemma {:induction false} SumZero(lo: int, hi: int, f: int -> real)
    requires forall i :: lo <= i < hi ==> f(i) == 0.0
    ensures Sum(lo, hi, f) == 0.0
    decreases hi - lo
  {
    if lo < hi { SumZero(lo, hi - 1, f); }
  }

  lemma {:induction false} SumSplit(lo: int, mid: int, hi: int, f: int -> real)
    requires lo <= mid <= hi
    ensures Sum(lo, hi, f) == Sum(lo, mid, f) + Sum(mid, hi, f)
    decreases hi - mid
  {
    if mid < hi { SumSplit(lo, mid, hi - 1, f); }
  }

  /** Terms that vanish off [lo, hi) may be summed over any interval around it. */
  lemma SumWiden(lo: int, hi: int, a: int, b: int, f: int -> real)
    requires a <= lo <= hi <= b
    requires forall i :: a <= i < b && !(lo <= i < hi) ==> f(i) == 0.0
    ensures Sum(a, b, f) == Sum(lo, hi, f)
  {
    SumSplit(a, lo, b, f);
    SumSplit(lo, hi, b, f);
    SumZero(a, lo, f);
    SumZero(hi, b, f);
  }

  /** Two windows on terms that vanish off either of them. */
  lemma SameWindow(a: int, b: int, w: nat, f: int -> real)
    requires a <= b && forall i :: !(a <= i < b) || !(0 <= i < w) ==> f(i) == 0.0
    ensures Sum(a, b, f) == Sum(0, w, f)
  {
    var lo, hi := if a < 0 then a else 0, if b > w then b else w;
    SumWiden(a, b, lo, hi, f);
    SumWiden(0, w, lo, hi, f);
  }

  // ------------------------------------------------------------------------------------
  // Pictures and kernels
  // ------------------------------------------------------------------------------------

  /** A picture by row, column and channel; zero where it has no pixel. */
  type Image = map<(int, int, int), real>

  /** A kernel by row, column, input channel and output channel. */
  type Kernel = map<(int, int, int, int), real>

  ghost function Pixel(img: Image, x: int, y: int, c: int): real {
    if (x, y, c) in img then img[(x, y, c)] else 0.0
  }

  ghost function Weight(k: Kernel, x: int, y: int, c: int, o: int): real {
    if (x, y, c, o) in k then k[(x, y, c, o)] else 0.0
  }

  ghost function Pixels(a: array3<real>): Image
    reads a
  {
    map x, y, c | 0 <= x < a.Length0 && 0 <= y < a.Length1 && 0 <= c < a.Length2 :: (x, y, c) := a[x, y, c]
  }

  // ------------------------------------------------------------------------------------
  // The plain convolution: every tap is multiplied and summed
  // ------------------------------------------------------------------------------------

  /** One filter tap for one output value, channel by channel. */
  ghost function Channels(img: Image, k: Kernel, x: int, y: int, o: int, wX: int, wY: int): int -> real {
    c => Pixel(img, x + wX, y + wY, c) * Weight(k, wX, wY, c, o)
  }

  ghost function Columns(img: Image, k: Kernel, x: int, y: int, o: int, n: int, wX: int): int -> real {
    wY => Sum(0, n, Channels(img, k, x, y, o, wX, wY))
  }

  ghost function Rows(img: Image, k: Kernel, x: int, y: int, o: int, n: int, f: int): int -> real {
    wX => Sum(0, f, Columns(img, k, x, y, o, n, wX))
  }

  /** The filter laid on the picture with its corner at (x, y). */
  ghost function Dense(img: Image, k: Kernel, x: int, y: int, o: int, n: int, f: int): real {
    Sum(0, f, Rows(img, k, x, y, o, n, f))
  }

  // ------------------------------------------------------------------------------------
  // The "same" convolution: a sum over the pixels of the picture
  // ------------------------------------------------------------------------------------

  ghost function PixelTerms(img: Image, k: Kernel, o: int, u: int, v: int, wX: int, wY: int): int -> real {
    c => Pixel(img, u, v, c) * Weight(k, wX, wY, c, o)
  }

  /** What the pixels (u, v, ...) add to the output at (x, y), when the filter's centre, at
      (p, p), lies on (x, y). */
  ghost function NearPixel(img: Image, k: Kernel, x: int, y: int, o: int, n: int, p: int, u: int): int -> real {
    v => if x - p <= u <= x + p && y - p <= v <= y + p
         then Sum(0, n, PixelTerms(img, k, o, u, v, u - x + p, v - y + p))
         else 0.0
  }

  ghost function NearRow(img: Image, k: Kernel, x: int, y: int, o: int, n: int, p: int, h: int): int -> real {
    u => Sum(0, h, NearPixel(img, k, x, y, o, n, p, u))
  }

  ghost function Same(img: Image, k: Kernel, x: int, y: int, o: int, n: int, p: int, w: int, h: int): real {
    Sum(0, w, NearRow(img, k, x, y, o, n, p, h))
  }

  /** The picture has exactly w by h pixels. */
  ghost predicate Sized(img: Image, w: int, h: int) {
    forall x, y, c :: (x, y, c) in img ==> 0 <= x < w && 0 <= y < h
  }

  /** padded is img moved by p in both directions, with zeros around it. */
  ghost predicate PaddedBy(padded: Image, img: Image, p: int) {
    forall x, y, c :: Pixel(padded, x + p, y + p, c) == Pixel(img, x, y, c)
  }

  /** One filter row over a padded picture is one row of pixels, or nothing. */
  lemma RowIsRow(img: Image, padded: Image, k: Kernel, x: int, y: int, o: int, n: nat, p: nat, w: nat, h: nat, wX: int)
    requires Sized(img, w, h) && PaddedBy(padded, img, p)
    requires 0 <= y < h && 0 <= wX < 2 * p + 1
    ensures var u := x + wX - p;
            Rows(padded, k, x, y, o, n, 2 * p + 1)(wX)
            == if 0 <= u < w then NearRow(img, k, x, y, o, n, p, h)(u) else 0.0
  {
    hide Sum;
    var u := x + wX - p;
    var taps, near := Columns(padded, k, x, y, o, n, wX), NearPixel(img, k, x, y, o, n, p, u);
    forall wY | 0 <= wY < 2 * p + 1 ensures taps(wY) == near(wY + (y - p)) {
      TapIsPixel(img, padded, k, x, y, o, n, p, wX, wY);
    }
    SumShift(0, 2 * p + 1, y - p, taps, near);
    forall v | !(0 <= v < h) || !(0 <= u < w) ensures near(v) == 0.0 {
      OffPicture(img, k, x, y, o, n, p, w, h, u, v);
    }
    SameWindow(y - p, y + p + 1, h, near);
    if !(0 <= u < w) { SumZero(0, h, near); }
  }

  lemma TapIsPixel(img: Image, padded: Image, k: Kernel, x: int, y: int, o: int, n: nat, p: nat, wX: int, wY: int)
    requires PaddedBy(padded, img, p) && 0 <= wX < 2 * p + 1 && 0 <= wY < 2 * p + 1
    ensures Columns(padded, k, x, y, o, n, wX)(wY) == NearPixel(img, k, x, y, o, n, p, x + wX - p)(wY + (y - p))
  {
    hide Sum;
    var u, v := x + wX - p, y + wY - p;
    var f, g := Channels(padded, k, x, y, o, wX, wY), PixelTerms(img, k, o, u, v, wX, wY);
    forall c | 0 <= c < n ensures f(c) == g(c) {
      assert Pixel(padded, u + p, v + p, c) == Pixel(img, u, v, c);
    }
    SumSame(0, n, f, g);
  }

  lemma OffPicture(img: Image, k: Kernel, x: int, y: int, o: int, n: nat, p: nat, w: nat, h: nat, u: int, v: int)
    requires Sized(img, w, h) && (!(0 <= v < h) || !(0 <= u < w))
    ensures NearPixel(img, k, x, y, o, n, p, u)(v) == 0.0
  {
    SumZero(0, n, PixelTerms(img, k, o, u, v, u - x + p, v - y + p));
  }

  lemma FarRow(img: Image, k: Kernel, x: int, y: int, o: int, n: nat, p: nat, h: nat, u: int)
    requires !(x - p <= u <= x + p)
    ensures NearRow(img, k, x, y, o, n, p, h)(u) == 0.0
  {
    SumZero(0, h, NearPixel(img, k, x, y, o, n, p, u));
  }

  /** Padding by p and a stride of one with a filter of 2p + 1 give the "same" convolution. */
  lemma PaddedIsSame(img: Image, padded: Image, k: Kernel, x: int, y: int, o: int, n: nat, p: nat, w: nat, h: nat)
    requires Sized(img, w, h) && PaddedBy(padded, img, p)
    requires 0 <= x < w && 0 <= y < h
    ensures Dense(padded, k, x, y, o, n, 2 * p + 1) == Same(img, k, x, y, o, n, p, w, h)
  {
    hide Sum, Rows, NearRow;
    var rows, near := Rows(padded, k, x, y, o, n, 2 * p + 1), NearRow(img, k, x, y, o, n, p, h);
    var inside: int -> real := u => if 0 <= u < w && x - p <= u <= x + p then near(u) else 0.0;
    forall wX | 0 <= wX < 2 * p + 1 ensures rows(wX) == inside(wX + (x - p)) {
      RowIsRow(img, padded, k, x, y, o, n, p, w, h, wX);
    }
    SumShift(0, 2 * p + 1, x - p, rows, inside);
    SameWindow(x - p, x + p + 1, w, inside);
    forall u | 0 <= u < w ensures inside(u) == near(u) {
      if !(x - p <= u <= x + p) { FarRow(img, k, x, y, o, n, p, h, u); }
    }
    SumSame(0, w, inside, near);
  }

  // ------------------------------------------------------------------------------------
  // Four lanes at a time, skipping groups of zero weights
  // ------------------------------------------------------------------------------------

  datatype Data = Data(d0: real, d1: real, d2: real, d3: real)

  /** The cycles of one operation on four lanes. */
  datatype Cost = Cost(mac: nat, add: nat, relu: nat)

  const ZERO := Data(0.0, 0.0, 0.0, 0.0)

  function Mac(sum: Data, i: real, w: Data): Data {
    Data(sum.d0 + i * w.d0, sum.d1 + i * w.d1, sum.d2 + i * w.d2, sum.d3 + i * w.d3)
  }

  function Add(a: Data, b: Data): Data { Data(a.d0 + b.d0, a.d1 + b.d1, a.d2 + b.d2, a.d3 + b.d3) }

  /** The larger of a and zero. */
  function Relu(a: real): (r: real)
    ensures r >= a && r >= 0.0 && (r == a || r == 0.0)
  {
    if a > 0.0 then a else 0.0
  }

  ghost function Places(w: nat, h: nat, n: nat, m: nat): (s: set<(int, int, int, int)>)
    ensures forall q :: q in s <==> 0 <= q.0 < w && 0 <= q.1 < h && 0 <= q.2 < n && 0 <= q.3 < m
  {
    set x, y, c, o | 0 <= x < w && 0 <= y < h && 0 <= c < n && 0 <= o < m :: (x, y, c, o)
  }

  ghost function Weights(a: array4<real>): Kernel
    reads a
  {
    map q | q in Places(a.Length0, a.Length1, a.Length2, a.Length3) :: a[q.0, q.1, q.2, q.3]
  }

  /** The weights of four neighbouring output channels. */
  ghost function Four(k: Kernel, x: int, y: int, c: int, o: int): Data {
    Data(Weight(k, x, y, c, o), Weight(k, x, y, c, o + 1), Weight(k, x, y, c, o + 2), Weight(k, x, y, c, o + 3))
  }

  /** f(0) + ... + f(n - 1). */
  ghost function Count(n: int, f: int -> nat): nat
    decreases n
  {
    if n <= 0 then 0 else Count(n - 1, f) + f(n - 1)
  }

  lemma {:induction false} CountMonotone(n: int, f: int -> nat, g: int -> nat)
    requires forall i :: 0 <= i < n ==> f(i) <= g(i)
    ensures Count(n, f) <= Count(n, g)
    decreases n
  {
    if n > 0 { CountMonotone(n - 1, f, g); }
  }

  /** The products that are really computed for the group of channels o to o + 3. */
  ghost function LiveTap(k: Kernel, o: int, wX: int, wY: int): int -> nat {
    c => if Four(k, wX, wY, c, o) == ZERO then 0 else 1
  }

  ghost function LiveColumn(k: Kernel, o: int, n: int, wX: int): int -> nat {
    wY => Count(n, LiveTap(k, o, wX, wY))
  }

  ghost function LiveRow(k: Kernel, o: int, n: int, f: int): int -> nat {
    wX => Count(f, LiveColumn(k, o, n, wX))
  }

  /** How far the three loops over the filter have come. */
  ghost function SoFar(img: Image, k: Kernel, x: int, y: int, o: int, n: int, f: int, wX: int, wY: int, c: int): real {
    Sum(0, wX, Rows(img, k, x, y, o, n, f)) + Sum(0, wY, Columns(img, k, x, y, o, n, wX))
      + Sum(0, c, Channels(img, k, x, y, o, wX, wY))
  }

  ghost function LiveSoFar(k: Kernel, o: int, n: int, f: int, wX: int, wY: int, c: int): nat {
    Count(wX, LiveRow(k, o, n, f)) + Count(wY, LiveColumn(k, o, n, wX)) + Count(c, LiveTap(k, o, wX, wY))
  }

  lemma Advance(img: Image, k: Kernel, x: int, y: int, o: int, n: nat, f: nat, wX: nat, wY: nat, c: nat)
    ensures SoFar(img, k, x, y, o, n, f, 0, 0, 0) == 0.0
    ensures SoFar(img, k, x, y, o, n, f, wX, wY, c + 1)
            == SoFar(img, k, x, y, o, n, f, wX, wY, c) + Pixel(img, x + wX, y + wY, c) * Weight(k, wX, wY, c, o)
    ensures SoFar(img, k, x, y, o, n, f, wX, wY, n) == SoFar(img, k, x, y, o, n, f, wX, wY + 1, 0)
    ensures SoFar(img, k, x, y, o, n, f, wX, f, 0) == SoFar(img, k, x, y, o, n, f, wX + 1, 0, 0)
    ensures SoFar(img, k, x, y, o, n, f, f, 0, 0) == Dense(img, k, x, y, o, n, f)
  {
  }

  lemma AdvanceLive(k: Kernel, o: int, n: nat, f: nat, wX: nat, wY: nat, c: nat)
    ensures LiveSoFar(k, o, n, f, 0, 0, 0) == 0
    ensures LiveSoFar(k, o, n, f, wX, wY, c + 1) == LiveSoFar(k, o, n, f, wX, wY, c) + LiveTap(k, o, wX, wY)(c)
    ensures LiveSoFar(k, o, n, f, wX, wY, n) == LiveSoFar(k, o, n, f, wX, wY + 1, 0)
    ensures LiveSoFar(k, o, n, f, wX, f, 0) == LiveSoFar(k, o, n, f, wX + 1, 0, 0)
    ensures LiveSoFar(k, o, n, f, f, 0, 0) == Count(f, LiveRow(k, o, n, f))
  {
  }

  ghost function DataSoFar(img: Image, k: Kernel, x: int, y: int, o: int, n: int, f: int,
                           wX: int, wY: int, c: int): Data {
    Data(SoFar(img, k, x, y, o, n, f, wX, wY, c), SoFar(img, k, x, y, o + 1, n, f, wX, wY, c),
         SoFar(img, k, x, y, o + 2, n, f, wX, wY, c), SoFar(img, k, x, y, o + 3, n, f, wX, wY, c))
  }

  ghost function DenseFour(img: Image, k: Kernel, x: int, y: int, o: int, n: int, f: int): Data {
    Data(Dense(img, k, x, y, o, n, f), Dense(img, k, x, y, o + 1, n, f),
         Dense(img, k, x, y, o + 2, n, f), Dense(img, k, x, y, o + 3, n, f))
  }

  lemma AdvanceData(img: Image, k: Kernel, x: int, y: int, o: int, n: nat, f: nat, wX: nat, wY: nat, c: nat)
    ensures DataSoFar(img, k, x, y, o, n, f, 0, 0, 0) == ZERO
    ensures DataSoFar(img, k, x, y, o, n, f, wX, wY, c + 1)
            == Mac(DataSoFar(img, k, x, y, o, n, f, wX, wY, c), Pixel(img, x + wX, y + wY, c),
                   Four(k, wX, wY, c, o))
    ensures DataSoFar(img, k, x, y, o, n, f, wX, wY, n) == DataSoFar(img, k, x, y, o, n, f, wX, wY + 1, 0)
    ensures DataSoFar(img, k, x, y, o, n, f, wX, f, 0) == DataSoFar(img, k, x, y, o, n, f, wX + 1, 0, 0)
    ensures DataSoFar(img, k, x, y, o, n, f, f, 0, 0)
            == DenseFour(img, k, x, y, o, n, f)
  {
    hide SoFar, Dense;
    Advance(img, k, x, y, o, n, f, wX, wY, c);
    Advance(img, k, x, y, o + 1, n, f, wX, wY, c);
    Advance(img, k, x, y, o + 2, n, f, wX, wY, c);
    Advance(img, k, x, y, o + 3, n, f, wX, wY, c);
  }

  lemma PixelAt(a: array3<real>, x: nat, y: nat, c: nat)
    requires x < a.Length0 && y < a.Length1 && c < a.Length2
    ensures Pixel(Pixels(a), x, y, c) == a[x, y, c]
  {
    assert (x, y, c) in Pixels(a);
  }

  lemma WeightAt(a: array4<real>, x: nat, y: nat, c: nat, o: nat)
    requires x < a.Length0 && y < a.Length1 && c < a.Length2 && o < a.Length3
    ensures Weight(Weights(a), x, y, c, o) == a[x, y, c, o]
  {
    hide Places;
  }

  lemma FourAt(a: array4<real>, x: nat, y: nat, c: nat, o: nat)
    requires x < a.Length0 && y < a.Length1 && c < a.Length2 && o + 4 <= a.Length3
    ensures Four(Weights(a), x, y, c, o) == Data(a[x, y, c, o], a[x, y, c, o + 1], a[x, y, c, o + 2], a[x, y, c, o + 3])
  {
    hide Weight, Weights;
    WeightAt(a, x, y, c, o);
    WeightAt(a, x, y, c, o + 1);
    WeightAt(a, x, y, c, o + 2);
    WeightAt(a, x, y, c, o + 3);
  }

  ghost function Times(mac: nat, live: nat): nat { mac * live }

  lemma OneMoreMac(mac: nat, live: nat)
    ensures Times(mac, 0) == 0 && Times(mac, live + 1) == Times(mac, live) + mac
  {
  }

  /** The taps at which one of the four channels from o on has a weight. */
  ghost function LiveTaps(k: Kernel, o: int, n: int, f: int): set<(int, int, int)> { LiveBefore(k, o, n, f, f, 0, 0) }

  ghost predicate Alive(k: Kernel, wX: int, wY: int, c: int, o: int) {
    exists j :: o <= j < o + 4 && Weight(k, wX, wY, c, j) != 0.0
  }

  /** Those of them that the loops, now at (wX, wY, c), have passed. */
  ghost function LiveBefore(k: Kernel, o: int, n: int, f: int, wX: int, wY: int, c: int): (s: set<(int, int, int)>)
    ensures forall t :: t in s <==>
      0 <= t.0 < f && 0 <= t.1 < f && 0 <= t.2 < n && Alive(k, t.0, t.1, t.2, o) && Sooner(t, wX, wY, c)
  {
    set x, y, d | 0 <= x < f && 0 <= y < f && 0 <= d < n && Alive(k, x, y, d, o) && Sooner((x, y, d), wX, wY, c) ::
      (x, y, d)
  }

  ghost predicate Sooner(t: (int, int, int), wX: int, wY: int, c: int) {
    t.0 < wX || (t.0 == wX && (t.1 < wY || (t.1 == wY && t.2 < c)))
  }

  lemma LiveMeansAlive(k: Kernel, o: int, wX: int, wY: int, c: int)
    ensures LiveTap(k, o, wX, wY)(c) == if Alive(k, wX, wY, c, o) then 1 else 0
  {
    hide Weight;
    var w := Four(k, wX, wY, c, o);
    assert w == ZERO <==> w.d0 == 0.0 && w.d1 == 0.0 && w.d2 == 0.0 && w.d3 == 0.0;
    if Alive(k, wX, wY, c, o) {
      var j :| o <= j < o + 4 && Weight(k, wX, wY, c, j) != 0.0;
      assert j == o || j == o + 1 || j == o + 2 || j == o + 3;
    }
  }

  lemma AliveAdds(k: Kernel, o: int, n: nat, f: nat, wX: nat, wY: nat, c: nat)
    requires wX < f && wY < f && c < n
    ensures |LiveBefore(k, o, n, f, wX, wY, c + 1)|
         == |LiveBefore(k, o, n, f, wX, wY, c)| + if Alive(k, wX, wY, c, o) then 1 else 0
  {
    hide Alive, LiveBefore;
    var s, t, x := LiveBefore(k, o, n, f, wX, wY, c + 1), LiveBefore(k, o, n, f, wX, wY, c), (wX, wY, c);
    assert x !in t;
    assert forall y :: Sooner(y, wX, wY, c + 1) <==> Sooner(y, wX, wY, c) || y == x;
    hide Sooner;
    if Alive(k, wX, wY, c, o) { assert s == t + {x}; } else { assert s == t; }
  }

  lemma NextRound(k: Kernel, o: int, n: nat, f: nat, wX: nat, wY: nat)
    ensures LiveBefore(k, o, n, f, wX, wY + 1, 0) == LiveBefore(k, o, n, f, wX, wY, n)
    ensures LiveBefore(k, o, n, f, wX + 1, 0, 0) == LiveBefore(k, o, n, f, wX, f, 0)
  {
    hide Alive, LiveBefore;
  }

  lemma NoneLive(k: Kernel, o: int, n: nat, f: nat)
    ensures LiveBefore(k, o, n, f, 0, 0, 0) == {}
  {
    hide Alive, LiveBefore;
  }

  lemma {:induction false} LiveBeforeSize(k: Kernel, o: int, n: nat, f: nat, wX: nat, wY: nat, c: nat)
    requires wX <= f && wY <= f && c <= n && (wY > 0 ==> wX < f) && (c > 0 ==> wX < f && wY < f)
    ensures |LiveBefore(k, o, n, f, wX, wY, c)| == LiveSoFar(k, o, n, f, wX, wY, c)
    decreases wX, wY, c
  {
    hide *;
    if c > 0 {
      LiveBeforeSize(k, o, n, f, wX, wY, c - 1);
      AdvanceLive(k, o, n, f, wX, wY, c - 1);
      LiveMeansAlive(k, o, wX, wY, c - 1);
      AliveAdds(k, o, n, f, wX, wY, c - 1);
    } else if wY > 0 {
      LiveBeforeSize(k, o, n, f, wX, wY - 1, n);
      AdvanceLive(k, o, n, f, wX, wY - 1, n);
      NextRound(k, o, n, f, wX, wY - 1);
    } else if wX > 0 {
      LiveBeforeSize(k, o, n, f, wX - 1, f, 0);
      AdvanceLive(k, o, n, f, wX - 1, f, 0);
      NextRound(k, o, n, f, wX - 1, 0);
    } else {
      AdvanceLive(k, o, n, f, 0, 0, 0);
      NoneLive(k, o, n, f);
    }
  }

  /** The products computed are as many as the taps that have a weight. */
  lemma LiveCount(k: Kernel, o: int, n: nat, f: nat)
    ensures Count(f, LiveRow(k, o, n, f)) == |LiveTaps(k, o, n, f)|
  {
    hide LiveRow, LiveBefore;
    LiveBeforeSize(k, o, n, f, f, 0, 0);
    AdvanceLive(k, o, n, f, f, 0, 0);
  }

  /** The loops over the filter for one group of four output channels. */
  method Accumulate(input: array3<real>, kernel: array4<real>, x: nat, y: nat, o: nat, n: nat, f: nat, cost: Cost)
    returns (sum: Data, cycles: nat)
    requires x + f <= input.Length0 && y + f <= input.Length1 && n <= input.Length2
    requires f <= kernel.Length0 && f <= kernel.Length1 && n <= kernel.Length2 && o + 4 <= kernel.Length3
    ensures sum == DenseFour(Pixels(input), Weights(kernel), x, y, o, n, f)
    ensures cycles == Times(cost.mac, Count(f, LiveRow(Weights(kernel), o, n, f)))
  {
    hide DataSoFar, LiveSoFar, DenseFour, Count, Times, Pixels, Weights, Pixel, Four, Mac, LiveRow;
    ghost var img, k := Pixels(input), Weights(kernel);
    sum, cycles := ZERO, 0;
    ghost var live: nat := 0;
    AdvanceData(img, k, x, y, o, n, f, 0, 0, 0);
    AdvanceLive(k, o, n, f, 0, 0, 0);
    OneMoreMac(cost.mac, 0);
    for wX := 0 to f
      invariant sum == DataSoFar(img, k, x, y, o, n, f, wX, 0, 0)
      invariant live == LiveSoFar(k, o, n, f, wX, 0, 0) && cycles == Times(cost.mac, live)
    {
      for wY := 0 to f
        invariant sum == DataSoFar(img, k, x, y, o, n, f, wX, wY, 0)
        invariant live == LiveSoFar(k, o, n, f, wX, wY, 0) && cycles == Times(cost.mac, live)
      {
        for c := 0 to n
          invariant sum == DataSoFar(img, k, x, y, o, n, f, wX, wY, c)
          invariant live == LiveSoFar(k, o, n, f, wX, wY, c) && cycles == Times(cost.mac, live)
        {
          var w := Data(kernel[wX, wY, c, o], kernel[wX, wY, c, o + 1],
                        kernel[wX, wY, c, o + 2], kernel[wX, wY, c, o + 3]);
          var i := input[x + wX, y + wY, c];
          PixelAt(input, x + wX, y + wY, c);
          FourAt(kernel, wX, wY, c, o);
          AdvanceData(img, k, x, y, o, n, f, wX, wY, c);
          AdvanceLive(k, o, n, f, wX, wY, c);
          OneMoreMac(cost.mac, live);
          ZeroAddsNothing(sum, i);
          if w != ZERO {
            sum := Mac(sum, i, w);
            cycles := cycles + cost.mac;
            live := live + 1;
          }
        }
        AdvanceData(img, k, x, y, o, n, f, wX, wY, n);
        AdvanceLive(k, o, n, f, wX, wY, n);
      }
      AdvanceData(img, k, x, y, o, n, f, wX, f, 0);
      AdvanceLive(k, o, n, f, wX, f, 0);
    }
    AdvanceData(img, k, x, y, o, n, f, f, 0, 0);
    AdvanceLive(k, o, n, f, f, 0, 0);
  }

  lemma ZeroAddsNothing(sum: Data, i: real)
    ensures Mac(sum, i, ZERO) == sum
  {
  }

  // ------------------------------------------------------------------------------------
  // op_conv
  // ------------------------------------------------------------------------------------

  datatype Range = Range(begin: nat, end: nat)

  /** The first channel after the last group of four that starts in the range. */
  function Top(r: Range): (top: nat)
    ensures top >= r.end || top == r.begin >= r.end
    ensures r.begin < r.end ==> top < r.end + 4
    ensures top >= r.begin && (top - r.begin) % 4 == 0
    decreases r.end - r.begin
  {
    if r.begin < r.end then Top(Range(r.begin + 4, r.end)) else r.begin
  }

  /** One value of the layer: the full sum, the bias, and the activation. */
  ghost function Output(img: Image, k: Kernel, bias: seq<real>, x: int, y: int, o: int, n: int, f: int): real
    requires 0 <= o < |bias|
  {
    Relu(Dense(img, k, x, y, o, n, f) + bias[o])
  }

  /** The cycles of all groups of channels of one output pixel. */
  ghost function PixelCycles(k: Kernel, r: Range, n: nat, f: nat, cost: Cost): nat
    decreases r.end - r.begin
  {
    if r.begin < r.end
    then Times(cost.mac, Count(f, LiveRow(k, r.begin, n, f))) + cost.add + cost.relu
         + PixelCycles(k, Range(r.begin + 4, r.end), n, f, cost)
    else 0
  }

  /** The body of the loop over the channels: one group of four output channels. */
  method OutputGroup(input: array3<real>, out: array3<real>, kernel: array4<real>, bias: array<real>,
                     n: nat, outX: nat, outY: nat, o: nat, f: nat, stride: nat, cost: Cost)
    returns (cycles: nat)
    requires input != out && outX * stride + f <= input.Length0 && outY * stride + f <= input.Length1
    requires n <= input.Length2 && f <= kernel.Length0 && f <= kernel.Length1 && n <= kernel.Length2
    requires o + 4 <= kernel.Length3 && o + 4 <= bias.Length && o + 4 <= out.Length2
    requires outX < out.Length0 && outY < out.Length1
    modifies out
    ensures forall x, y, c :: 0 <= x < out.Length0 && 0 <= y < out.Length1 && 0 <= c < out.Length2 ==>
              out[x, y, c] ==
              if x == outX && y == outY && o <= c < o + 4
              then Output(Pixels(input), Weights(kernel), bias[..], outX * stride, outY * stride, c, n, f)
              else old(out[x, y, c])
    ensures cycles == Times(cost.mac, Count(f, LiveRow(Weights(kernel), o, n, f))) + cost.add + cost.relu
  {
    hide Dense, Pixels, Weights, Times, Count, LiveRow, Relu;
    var sum, used := Accumulate(input, kernel, outX * stride, outY * stride, o, n, f, cost);
    sum := Add(sum, Data(bias[o], bias[o + 1], bias[o + 2], bias[o + 3]));
    cycles := used + cost.add + cost.relu;
    out[outX, outY, o] := Relu(sum.d0);
    out[outX, outY, o + 1] := Relu(sum.d1);
    out[outX, outY, o + 2] := Relu(sum.d2);
    out[outX, outY, o + 3] := Relu(sum.d3);
  }

  method OutputPixel(input: array3<real>, out: array3<real>, kernel: array4<real>, bias: array<real>,
                     n: nat, r: Range, outX: nat, outY: nat, f: nat, stride: nat, cost: Cost)
    returns (cycles: nat)
    requires input != out && outX * stride + f <= input.Length0 && outY * stride + f <= input.Length1
    requires n <= input.Length2 && f <= kernel.Length0 && f <= kernel.Length1 && n <= kernel.Length2
    requires Top(r) <= kernel.Length3 && Top(r) <= bias.Length && Top(r) <= out.Length2
    requires outX < out.Length0 && outY < out.Length1
    modifies out
    ensures forall x, y, o :: 0 <= x < out.Length0 && 0 <= y < out.Length1 && 0 <= o < out.Length2 ==>
              out[x, y, o] ==
              if x == outX && y == outY && r.begin <= o < Top(r)
              then Output(Pixels(input), Weights(kernel), bias[..], outX * stride, outY * stride, o, n, f)
              else old(out[x, y, o])
    ensures cycles == PixelCycles(Weights(kernel), r, n, f, cost)
  {
    hide Output, Pixels, Weights, Times, Count, LiveRow;
    cycles := 0;
    var o := r.begin;
    while o < r.end
      invariant r.begin <= o <= Top(r) && Top(Range(o, r.end)) == Top(r)
      invariant forall x, y, c :: 0 <= x < out.Length0 && 0 <= y < out.Length1 && 0 <= c < out.Length2 ==>
                  out[x, y, c] ==
                  if x == outX && y == outY && r.begin <= c < o
                  then Output(Pixels(input), Weights(kernel), bias[..], outX * stride, outY * stride, c, n, f)
                  else old(out[x, y, c])
      invariant cycles + PixelCycles(Weights(kernel), Range(o, r.end), n, f, cost)
                == PixelCycles(Weights(kernel), r, n, f, cost)
    {
      var used := OutputGroup(input, out, kernel, bias, n, outX, outY, o, f, stride, cost);
      cycles := cycles + used;
      o := o + 4;
    }
  }

  /** Whether the loops over rows and columns, now at (row, column), have passed (x, y). */
  predicate Passed(rx: Range, ry: Range, row: int, column: int, x: int, y: int) {
    rx.begin <= x && ry.begin <= y < ry.end && (x < row || (x == row && y < column))
  }

  predicate Covers(rx: Range, ry: Range, r: Range, x: int, y: int, o: int) {
    rx.begin <= x < rx.end && ry.begin <= y < ry.end && r.begin <= o < Top(r)
  }

  /** The cycles that op_conv reports. */
  ghost function ConvCycles(k: Kernel, rx: Range, ry: Range, r: Range, n: nat, f: nat, cost: Cost): nat {
    Times(Times(Width(rx), Width(ry)), PixelCycles(k, r, n, f, cost)) / 64
  }

  function Width(r: Range): nat { if r.begin < r.end then r.end - r.begin else 0 }

  /** op_conv: exactly the outputs in range are written, each with its dense sum. */
  method OpConv(input: array3<real>, out: array3<real>, kernel: array4<real>, bias: array<real>,
                n: nat, r: Range, rx: Range, ry: Range, f: nat, stride: nat, cost: Cost)
    returns (cycles: nat)
    requires input != out && rx.end <= out.Length0 && ry.end <= out.Length1
    requires forall x :: rx.begin <= x < rx.end ==> x * stride + f <= input.Length0
    requires forall y :: ry.begin <= y < ry.end ==> y * stride + f <= input.Length1
    requires n <= input.Length2 && f <= kernel.Length0 && f <= kernel.Length1 && n <= kernel.Length2
    requires Top(r) <= kernel.Length3 && Top(r) <= bias.Length && Top(r) <= out.Length2
    modifies out
    ensures forall x, y, o :: 0 <= x < out.Length0 && 0 <= y < out.Length1 && 0 <= o < out.Length2 ==>
              out[x, y, o] ==
              if Covers(rx, ry, r, x, y, o)
              then Output(Pixels(input), Weights(kernel), bias[..], x * stride, y * stride, o, n, f)
              else old(out[x, y, o])
    ensures cycles == ConvCycles(Weights(kernel), rx, ry, r, n, f, cost)
    ensures var all := Times(Times(Width(rx), Width(ry)), PixelCycles(Weights(kernel), r, n, f, cost));
            64 * cycles <= all < 64 * (cycles + 1)
  {
    hide Output, Pixels, Weights, Times, PixelCycles, Top;
    ghost var pixel := PixelCycles(Weights(kernel), r, n, f, cost);
    ghost var pixels := 0;
    cycles := 0;
    OneMoreMac(pixel, 0);
    OneMoreMac(Width(ry), 0);
    var x := rx.begin;
    while x < rx.end
      invariant rx.begin <= x && (x <= rx.end || x == rx.begin)
      invariant forall i, j, o :: 0 <= i < out.Length0 && 0 <= j < out.Length1 && 0 <= o < out.Length2 ==>
                  out[i, j, o] ==
                  if Passed(rx, ry, x, ry.begin, i, j) && r.begin <= o < Top(r)
                  then Output(Pixels(input), Weights(kernel), bias[..], i * stride, j * stride, o, n, f)
                  else old(out[i, j, o])
      invariant pixels == Times(Width(ry), x - rx.begin) && cycles == Times(pixel, pixels)
    {
      OneMoreMac(Width(ry), x - rx.begin);
      ghost var before := pixels;
      var y := ry.begin;
      while y < ry.end
        invariant ry.begin <= y && (y <= ry.end || y == ry.begin)
        invariant forall i, j, o :: 0 <= i < out.Length0 && 0 <= j < out.Length1 && 0 <= o < out.Length2 ==>
                    out[i, j, o] ==
                    if Passed(rx, ry, x, y, i, j) && r.begin <= o < Top(r)
                    then Output(Pixels(input), Weights(kernel), bias[..], i * stride, j * stride, o, n, f)
                    else old(out[i, j, o])
        invariant pixels == before + (y - ry.begin) && cycles == Times(pixel, pixels)
      {
        var used := OutputPixel(input, out, kernel, bias, n, r, x, y, f, stride, cost);
        OneMoreMac(pixel, pixels);
        cycles, pixels := cycles + used, pixels + 1;
        y := y + 1;
      }
      x := x + 1;
    }
    Commutes(Width(rx), Width(ry), pixel);
    cycles := cycles / 64;
  }

  lemma Commutes(w: nat, h: nat, pixel: nat)
    ensures Times(pixel, Times(h, w)) == Times(Times(w, h), pixel)
  {
  }

  // ------------------------------------------------------------------------------------
  // Pruning small weights never costs cycles
  // ------------------------------------------------------------------------------------

  function Abs(a: real): real { if a < 0.0 then -a else a }

  /** What is left of a weight; a negative threshold prunes nothing. */
  function Pruned(w: real, threshold: real): real {
    if threshold >= 0.0 && Abs(w) < threshold then 0.0 else w
  }

  ghost function PrunedKernel(k: Kernel, threshold: real): Kernel {
    map q | q in k :: Pruned(k[q], threshold)
  }

  /** k has a zero wherever l has one. */
  ghost predicate Sparser(k: Kernel, l: Kernel) {
    forall x, y, c, o :: Weight(l, x, y, c, o) == 0.0 ==> Weight(k, x, y, c, o) == 0.0
  }

  lemma SparserRow(k: Kernel, l: Kernel, o: int, n: nat, f: nat)
    requires Sparser(k, l)
    ensures Count(f, LiveRow(k, o, n, f)) <= Count(f, LiveRow(l, o, n, f))
  {
    hide Weight, Count;
    forall wX | 0 <= wX < f ensures LiveRow(k, o, n, f)(wX) <= LiveRow(l, o, n, f)(wX) {
      forall wY | 0 <= wY < f ensures LiveColumn(k, o, n, wX)(wY) <= LiveColumn(l, o, n, wX)(wY) {
        CountMonotone(n, LiveTap(k, o, wX, wY), LiveTap(l, o, wX, wY));
      }
      CountMonotone(f, LiveColumn(k, o, n, wX), LiveColumn(l, o, n, wX));
    }
    CountMonotone(f, LiveRow(k, o, n, f), LiveRow(l, o, n, f));
  }

  lemma TimesMonotone(a: nat, b: nat, c: nat)
    requires b <= c
    ensures Times(a, b) <= Times(a, c)
  {
  }

  lemma {:induction false} SparserPixel(k: Kernel, l: Kernel, r: Range, n: nat, f: nat, cost: Cost)
    requires Sparser(k, l)
    ensures PixelCycles(k, r, n, f, cost) <= PixelCycles(l, r, n, f, cost)
    decreases r.end - r.begin
  {
    hide Sparser, Times, Count, LiveRow;
    if r.begin < r.end {
      SparserRow(k, l, r.begin, n, f);
      TimesMonotone(cost.mac, Count(f, LiveRow(k, r.begin, n, f)), Count(f, LiveRow(l, r.begin, n, f)));
      SparserPixel(k, l, Range(r.begin + 4, r.end), n, f, cost);
    }
  }

  lemma HigherPrunesMore(k: Kernel, low: real, high: real)
    requires low <= high
    ensures Sparser(PrunedKernel(k, high), PrunedKernel(k, low)) && Sparser(PrunedKernel(k, high), k)
  {
  }

  /** Raising the threshold never makes op_conv slower, and pruning never does at all. */
  lemma PruningSpeedsUp(k: Kernel, low: real, high: real, rx: Range, ry: Range, r: Range, n: nat, f: nat, cost: Cost)
    requires low <= high
    ensures ConvCycles(PrunedKernel(k, high), rx, ry, r, n, f, cost)
            <= ConvCycles(PrunedKernel(k, low), rx, ry, r, n, f, cost)
    ensures ConvCycles(PrunedKernel(k, high), rx, ry, r, n, f, cost) <= ConvCycles(k, rx, ry, r, n, f, cost)
  {
    hide Sparser, Times, PixelCycles, PrunedKernel;
    var area, less := Times(Width(rx), Width(ry)), PrunedKernel(k, high);
    HigherPrunesMore(k, low, high);
    SparserPixel(less, PrunedKernel(k, low), r, n, f, cost);
    SparserPixel(less, k, r, n, f, cost);
    TimesMonotone(area, PixelCycles(less, r, n, f, cost), PixelCycles(PrunedKernel(k, low), r, n, f, cost));
    TimesMonotone(area, PixelCycles(less, r, n, f, cost), PixelCycles(k, r, n, f, cost));
  }

  /** The index of a weight in the flat array of the host, row-major. */
  function Index(x: nat, y: nat, c: nat, o: nat, h: nat, n: nat, m: nat): nat { ((x * h + y) * n + c) * m + o }

  lemma RowMajor(x: nat, y: nat, c: nat, o: nat, h: nat, n: nat, m: nat)
    ensures Index(0, 0, 0, 0, h, n, m) == 0
    ensures Index(x, y, c, o + 1, h, n, m) == Index(x, y, c, o, h, n, m) + 1
    ensures Index(x, y, c, m, h, n, m) == Index(x, y, c + 1, 0, h, n, m)
    ensures Index(x, y, n, 0, h, n, m) == Index(x, y + 1, 0, 0, h, n, m)
    ensures Index(x, h, 0, 0, h, n, m) == Index(x + 1, 0, 0, 0, h, n, m)
  {
    assert (x + 1) * h == x * h + h;
    assert (x * h + y + 1) * n == (x * h + y) * n + n;
    assert ((x * h + y) * n + c + 1) * m == ((x * h + y) * n + c) * m + m;
  }

  /** A flat array of the host as the kernel memory of the device. */
  ghost predicate Laid(flat: seq<real>, a: array4<real>)
    reads a
  {
    forall x: nat, y: nat, c: nat, o: nat ::
      x < a.Length0 && y < a.Length1 && c < a.Length2 && o < a.Length3 ==>
        var at := Index(x, y, c, o, a.Length1, a.Length2, a.Length3);
        at < |flat| && a[x, y, c, o] == flat[at]
  }

  /** Pruning the host's array prunes the kernel. */
  lemma PrunedArray(flat: seq<real>, pruned: seq<real>, threshold: real, a: array4<real>, b: array4<real>)
    requires |flat| == |pruned| && forall i :: 0 <= i < |flat| ==> pruned[i] == Pruned(flat[i], threshold)
    requires Laid(flat, a) && Laid(pruned, b)
    requires a.Length0 == b.Length0 && a.Length1 == b.Length1 && a.Length2 == b.Length2 && a.Length3 == b.Length3
    ensures Weights(b) == PrunedKernel(Weights(a), threshold)
  {
    hide Pruned, Index, Places;
    forall q | q in Weights(a) ensures Weights(b)[q] == Pruned(Weights(a)[q], threshold) {
      var at := Index(q.0, q.1, q.2, q.3, a.Length1, a.Length2, a.Length3);
      assert at < |flat| && a[q.0, q.1, q.2, q.3] == flat[at] && b[q.0, q.1, q.2, q.3] == pruned[at];
    }
  }

  lemma PrunedMeans(s: seq<real>, threshold: real)
    requires threshold >= 0.0
    ensures forall i | 0 <= i < |s| ::
      && Pruned(s[i], threshold) == (if Abs(s[i]) < threshold then 0.0 else s[i])
      && Pruned(s[i], threshold) == (if -threshold < s[i] < threshold then 0.0 else s[i])
  {}

  /** sparsify; the count is only printed, and only for a threshold that is not negative. */
  method Sparsify(weights: array<real>, threshold: real) returns (zeroed: nat)
    modifies weights
    ensures forall i :: 0 <= i < weights.Length ==> weights[i] == Pruned(old(weights[i]), threshold)
    ensures threshold < 0.0 ==> weights[..] == old(weights[..]) && zeroed == 0
    ensures threshold >= 0.0 ==>
      && zeroed == |Between(old(weights[..]), threshold)|
      && forall i :: 0 <= i < weights.Length ==>
           weights[i] == if -threshold < old(weights[i]) < threshold then 0.0 else old(weights[i])
  {
    zeroed := 0;
    if threshold < 0.0 { return; }
    ghost var was := weights[..];
    hide Between, Small;
    SmallStep([], 0, threshold);
    for i := 0 to weights.Length
      invariant forall j :: 0 <= j < weights.Length ==>
                  weights[j] == if j < i then Pruned(was[j], threshold) else was[j]
      invariant zeroed == Small(was[..i], threshold)
    {
      SmallStep(was, i, threshold);
      if Abs(weights[i]) < threshold {
        weights[i] := 0.0;
        zeroed := zeroed + 1;
      }
    }
    assert was[..weights.Length] == was;
    PrunedMeans(was, threshold);
    SmallBetween(was, threshold);
    hide Pruned;
  }

  ghost function Small(s: seq<real>, threshold: real): nat {
    if s == [] then 0
    else Small(s[..|s| - 1], threshold) + if Abs(s[|s| - 1]) < threshold then 1 else 0
  }

  lemma SmallStep(s: seq<real>, i: nat, threshold: real)
    ensures Small([], threshold) == 0
    ensures i < |s| ==>
      Small(s[..i + 1], threshold) == Small(s[..i], threshold) + if Abs(s[i]) < threshold then 1 else 0
  {
    if i < |s| { assert s[..i + 1][..i] == s[..i]; }
  }

  /** The places of the weights strictly between the threshold and its negative. */
  ghost function Between(s: seq<real>, threshold: real): set<int> {
    set i | 0 <= i < |s| && -threshold < s[i] < threshold
  }

  lemma {:induction false} SmallBetween(s: seq<real>, threshold: real)
    ensures Small(s, threshold) == |Between(s, threshold)|
  {
    if s != [] {
      var front, n := s[..|s| - 1], |s| - 1;
      SmallBetween(front, threshold);
      var a, b := Between(s, threshold), Between(front, threshold);
      assert n !in b;
      forall i ensures i in a <==> i in b || (i == n && -threshold < s[n] < threshold) {
        if 0 <= i < n { assert front[i] == s[i]; }
      }
      assert a == b || a == b + {n};
      assert n in a <==> Abs(s[n]) < threshold;
      hide Between, Abs;
    }
  }

  // ------------------------------------------------------------------------------------
  // op_padding
  // ------------------------------------------------------------------------------------

  /** The output is cleared and the input copied in, moved by p; the unused fourth dimension
      has length one. */
  method OpPadding(input: array3<real>, out: array3<real>, p: nat, w: nat, h: nat, d: nat)
    requires input != out && w <= input.Length0 && h <= input.Length1 && d <= input.Length2
    requires w + p <= out.Length0 && h + p <= out.Length1 && d <= out.Length2
    modifies out
    ensures forall x, y, c :: 0 <= x < out.Length0 && 0 <= y < out.Length1 && 0 <= c < out.Length2 ==>
              out[x, y, c] == if p <= x < p + w && p <= y < p + h && c < d then input[x - p, y - p, c] else 0.0
    ensures w == input.Length0 && h == input.Length1 && d == input.Length2 ==>
              Sized(Pixels(input), w, h) && PaddedBy(Pixels(out), Pixels(input), p)
  {
    hide Pixels, Pixel;
    forall x, y, c | 0 <= x < out.Length0 && 0 <= y < out.Length1 && 0 <= c < out.Length2 {
      out[x, y, c] := 0.0;
    }
    for x := 0 to w
      invariant forall i, j, c :: 0 <= i < out.Length0 && 0 <= j < out.Length1 && 0 <= c < out.Length2 ==>
                  out[i, j, c] == if Copied(i - p, j - p, c, x, 0, 0, h, d) then input[i - p, j - p, c] else 0.0
    {
      for y := 0 to h
        invariant forall i, j, c :: 0 <= i < out.Length0 && 0 <= j < out.Length1 && 0 <= c < out.Length2 ==>
                    out[i, j, c] == if Copied(i - p, j - p, c, x, y, 0, h, d) then input[i - p, j - p, c] else 0.0
      {
        for z := 0 to d
          invariant forall i, j, c :: 0 <= i < out.Length0 && 0 <= j < out.Length1 && 0 <= c < out.Length2 ==>
                      out[i, j, c] == if Copied(i - p, j - p, c, x, y, z, h, d) then input[i - p, j - p, c] else 0.0
        {
          out[x + p, y + p, z] := input[x, y, z];
        }
      }
    }
    if w == input.Length0 && h == input.Length1 && d == input.Length2 {
      forall x, y, c ensures Pixel(Pixels(out), x + p, y + p, c) == Pixel(Pixels(input), x, y, c) {
        PixelOf(out, x + p, y + p, c);
        PixelOf(input, x, y, c);
      }
      forall x, y, c | (x, y, c) in Pixels(input) ensures 0 <= x < w && 0 <= y < h { PixelOf(input, x, y, c); }
    }
  }

  /** Whether the loops, now at (x, y, z), have copied the pixel (i, j, c). */
  predicate Copied(i: int, j: int, c: int, x: int, y: int, z: int, h: int, d: int) {
    0 <= i && 0 <= j < h && 0 <= c < d && (i < x || (i == x && (j < y || (j == y && c < z))))
  }

  lemma PixelOf(a: array3<real>, x: int, y: int, c: int)
    ensures (x, y, c) in Pixels(a) <==> 0 <= x < a.Length0 && 0 <= y < a.Length1 && 0 <= c < a.Length2
    ensures Pixel(Pixels(a), x, y, c)
            == if 0 <= x < a.Length0 && 0 <= y < a.Length1 && 0 <= c < a.Length2 then a[x, y, c] else 0.0
  {
  }

  /** The two operations one after the other leave the "same" convolution of the input. */
  method PadAndConvolve(input: array3<real>, padded: array3<real>, out: array3<real>, kernel: array4<real>,
                        bias: array<real>, p: nat, r: Range, cost: Cost)
    requires input != padded && input != out && padded != out
    requires padded.Length0 >= input.Length0 + 2 * p && padded.Length1 >= input.Length1 + 2 * p
    requires padded.Length2 >= input.Length2 && out.Length0 >= input.Length0 && out.Length1 >= input.Length1
    requires kernel.Length0 >= 2 * p + 1 && kernel.Length1 >= 2 * p + 1 && kernel.Length2 >= input.Length2
    requires Top(r) <= kernel.Length3 && Top(r) <= bias.Length && Top(r) <= out.Length2
    modifies padded, out
    ensures forall x, y, o :: 0 <= x < input.Length0 && 0 <= y < input.Length1 && r.begin <= o < Top(r) ==>
              out[x, y, o] == Relu(Same(Pixels(input), Weights(kernel), x, y, o, input.Length2, p,
                                        input.Length0, input.Length1) + bias[o])
  {
    hide Same, Dense, Output, Pixels, Weights, Relu, Top, ConvCycles, PaddedBy, Sized;
    var w, h, n := input.Length0, input.Length1, input.Length2;
    OpPadding(input, padded, p, w, h, n);
    var rx, ry := Range(0, w), Range(0, h);
    var cycles := OpConv(padded, out, kernel, bias, n, r, rx, ry, 2 * p + 1, 1, cost);
    forall x, y, o | 0 <= x < w && 0 <= y < h && r.begin <= o < Top(r)
      ensures out[x, y, o] == Relu(Same(Pixels(input), Weights(kernel), x, y, o, n, p, w, h) + bias[o])
    {
      SameOutput(Pixels(input), Pixels(padded), Weights(kernel), bias[..], x, y, o, n, p, w, h);
    }
  }

  lemma SameOutput(img: Image, padded: Image, k: Kernel, bias: seq<real>, x: int, y: int, o: int,
                   n: nat, p: nat, w: nat, h: nat)
    requires Sized(img, w, h) && PaddedBy(padded, img, p)
    requires 0 <= x < w && 0 <= y < h && 0 <= o < |bias|
    ensures Output(padded, k, bias, x, y, o, n, 2 * p + 1) == Relu(Same(img, k, x, y, o, n, p, w, h) + bias[o])
  {
    hide Same, Dense;
    PaddedIsSame(img, padded, k, x, y, o, n, p, w, h);
  }

  // ------------------------------------------------------------------------------------
  // op_fc
  // ------------------------------------------------------------------------------------

  /** A weight matrix by input and output. */
  type Matrix = map<(int, int), real>

  ghost function Cell(m: Matrix, i: int, o: int): real {
    if (i, o) in m then m[(i, o)] else 0.0
  }

  ghost function Cells(a: array2<real>): Matrix
    reads a
  {
    map i, o | 0 <= i < a.Length0 && 0 <= o < a.Length1 :: (i, o) := a[i, o]
  }

  lemma CellAt(a: array2<real>, i: nat, o: nat)
    requires i < a.Length0 && o < a.Length1
    ensures Cell(Cells(a), i, o) == a[i, o]
  {
  }

  ghost function Products(v: seq<real>, m: Matrix, o: int): int -> real {
    i => if 0 <= i < |v| then v[i] * Cell(m, i, o) else 0.0
  }

  /** The plain dot product of a column with the first n inputs. */
  ghost function Dot(v: seq<real>, m: Matrix, o: int, n: int): real { Sum(0, n, Products(v, m, o)) }

  lemma DotStep(v: seq<real>, m: Matrix, o: int, n: nat)
    requires n < |v|
    ensures Dot(v, m, o, 0) == 0.0 && Dot(v, m, o, n + 1) == Dot(v, m, o, n) + v[n] * Cell(m, n, o)
  {
  }

  /** Four lanes from column o on; the upper two stay zero unless the group is full. */
  ghost function Lanes(f: int -> real, o: int, full: bool): Data {
    Data(f(o), f(o + 1), if full then f(o + 2) else 0.0, if full then f(o + 3) else 0.0)
  }

  ghost function Row(m: Matrix, i: int): int -> real { o => Cell(m, i, o) }

  ghost function DotAt(v: seq<real>, m: Matrix, n: int): int -> real { o => Dot(v, m, o, n) }

  ghost function LiveInput(m: Matrix, o: int, full: bool): int -> nat {
    i => if Lanes(Row(m, i), o, full) == ZERO then 0 else 1
  }

  ghost function Dots(v: seq<real>, m: Matrix, o: int, full: bool, n: int): Data {
    Lanes(DotAt(v, m, n), o, full)
  }

  lemma DotsStep(v: seq<real>, m: Matrix, o: int, full: bool, n: nat)
    requires n < |v|
    ensures Dots(v, m, o, full, n + 1) == Mac(Dots(v, m, o, full, n), v[n], Lanes(Row(m, n), o, full))
  {
    hide Row, DotAt, Mac;
    DotAtStep(v, m, o, n);
    DotAtStep(v, m, o + 1, n);
    DotAtStep(v, m, o + 2, n);
    DotAtStep(v, m, o + 3, n);
    var d, e, w := Dots(v, m, o, full, n), Dots(v, m, o, full, n + 1), Lanes(Row(m, n), o, full);
    MacLanes(d, v[n], w, e);
  }

  lemma MacLanes(sum: Data, i: real, w: Data, e: Data)
    requires e.d0 == sum.d0 + i * w.d0 && e.d1 == sum.d1 + i * w.d1
    requires e.d2 == sum.d2 + i * w.d2 && e.d3 == sum.d3 + i * w.d3
    ensures e == Mac(sum, i, w)
  {
    assert e == Data(e.d0, e.d1, e.d2, e.d3);
  }

  lemma DotAtStep(v: seq<real>, m: Matrix, o: int, n: nat)
    requires n < |v|
    ensures DotAt(v, m, n + 1)(o) == DotAt(v, m, n)(o) + v[n] * Row(m, n)(o)
  {
    hide Dot, Cell;
    DotStep(v, m, o, n);
  }

  lemma LiveStep(m: Matrix, o: int, full: bool, n: nat)
    ensures Count(n + 1, LiveInput(m, o, full))
            == Count(n, LiveInput(m, o, full)) + if Lanes(Row(m, n), o, full) == ZERO then 0 else 1
  {
    hide Lanes, Row, Count;
    CountStep(n, LiveInput(m, o, full));
  }

  lemma CountStep(n: nat, f: int -> nat)
    ensures Count(n + 1, f) == Count(n, f) + f(n)
  {
  }

  lemma LanesAt(a: array2<real>, i: nat, o: nat, full: bool)
    requires i < a.Length0 && o + (if full then 4 else 2) <= a.Length1
    ensures Lanes(Row(Cells(a), i), o, full)
            == Data(a[i, o], a[i, o + 1], if full then a[i, o + 2] else 0.0, if full then a[i, o + 3] else 0.0)
  {
    hide Cell, Cells;
    CellAt(a, i, o);
    CellAt(a, i, o + 1);
    if full {
      CellAt(a, i, o + 2);
      CellAt(a, i, o + 3);
    }
  }

  /** The inputs for which one of the lanes of the group has a weight. */
  ghost function LiveInputs(m: Matrix, o: int, full: bool, n: int): set<int> {
    set i | 0 <= i < n && AliveInput(m, o, full, i)
  }

  ghost predicate AliveInput(m: Matrix, o: int, full: bool, i: int) {
    exists j :: o <= j < o + (if full then 4 else 2) && Cell(m, i, j) != 0.0
  }

  lemma LiveMeansInput(m: Matrix, o: int, full: bool, i: int)
    ensures LiveInput(m, o, full)(i) == if AliveInput(m, o, full, i) then 1 else 0
  {
    hide Cell;
    var w := Lanes(Row(m, i), o, full);
    assert w == ZERO <==> w.d0 == 0.0 && w.d1 == 0.0 && w.d2 == 0.0 && w.d3 == 0.0;
    if AliveInput(m, o, full, i) {
      var j :| o <= j < o + (if full then 4 else 2) && Cell(m, i, j) != 0.0;
      assert j == o || j == o + 1 || j == o + 2 || j == o + 3;
    }
  }

  lemma InputAdds(m: Matrix, o: int, full: bool, n: nat)
    ensures |LiveInputs(m, o, full, n + 1)|
         == |LiveInputs(m, o, full, n)| + if AliveInput(m, o, full, n) then 1 else 0
  {
    hide AliveInput;
    var s, t := LiveInputs(m, o, full, n + 1), LiveInputs(m, o, full, n);
    if AliveInput(m, o, full, n) { assert s == t + {n}; } else { assert s == t; }
  }

  lemma {:induction false} InputCount(m: Matrix, o: int, full: bool, n: nat)
    ensures Count(n, LiveInput(m, o, full)) == |LiveInputs(m, o, full, n)|
  {
    hide AliveInput, LiveInput;
    if n > 0 {
      InputCount(m, o, full, n - 1);
      LiveMeansInput(m, o, full, n - 1);
      InputAdds(m, o, full, n - 1);
      hide LiveInputs;
    }
  }

  method Neurons(input: array<real>, weight: array2<real>, o: nat, full: bool, n: nat, cost: Cost)
    returns (sum: Data, cycles: nat)
    requires n <= input.Length && n <= weight.Length0 && o + (if full then 4 else 2) <= weight.Length1
    ensures sum == Dots(input[..], Cells(weight), o, full, n)
    ensures cycles == Times(cost.mac, Count(n, LiveInput(Cells(weight), o, full)))
  {
    hide Dots, Cells, Cell, Mac, Times, Lanes, LiveInput, Count;
    ghost var v, m := input[..], Cells(weight);
    ghost var live := 0;
    sum, cycles := ZERO, 0;
    NoDots(v, m, o, full);
    OneMoreMac(cost.mac, 0);
    for i := 0 to n
      invariant sum == Dots(v, m, o, full, i)
      invariant live == Count(i, LiveInput(m, o, full)) && cycles == Times(cost.mac, live)
    {
      var w := Data(weight[i, o], weight[i, o + 1],
                    if full then weight[i, o + 2] else 0.0, if full then weight[i, o + 3] else 0.0);
      LanesAt(weight, i, o, full);
      DotsStep(v, m, o, full, i);
      LiveStep(m, o, full, i);
      OneMoreMac(cost.mac, live);
      ZeroAddsNothing(sum, input[i]);
      if w != ZERO {
        sum := Mac(sum, input[i], w);
        cycles := cycles + cost.mac;
        live := live + 1;
      }
    }
  }

  lemma NoDots(v: seq<real>, m: Matrix, o: int, full: bool)
    ensures Dots(v, m, o, full, 0) == ZERO && Count(0, LiveInput(m, o, full)) == 0
  {
  }

  /** The outputs that op_fc writes: in the last group, if it is not full, always two. */
  predicate Written(r: Range, i: int) {
    var start := i - (i - r.begin) % 4;
    r.begin <= i && start < r.end && (start + 4 <= r.end || i < start + 2)
  }

  /** It writes exactly its range if and only if the range has even length. With one output in
      the last group it writes one too many, with three it leaves the last one out. */
  lemma WrittenExactly(r: Range)
    requires r.begin <= r.end
    ensures (forall i :: Written(r, i) <==> r.begin <= i < r.end) <==> (r.end - r.begin) % 2 == 0
    ensures (r.end - r.begin) % 4 == 1 ==> forall i :: Written(r, i) <==> r.begin <= i < r.end + 1
    ensures (r.end - r.begin) % 4 == 3 ==> forall i :: Written(r, i) <==> r.begin <= i < r.end - 1
  {
    hide Written, Reach;
    ReachByLength(r);
    forall i ensures Written(r, i) <==> r.begin <= i < Reach(r) { WrittenAt(r, i); }
    assert Written(r, r.end) <==> r.end < Reach(r);
    assert r.begin < r.end ==> (Written(r, r.end - 1) <==> r.end <= Reach(r));
  }

  lemma ReachByLength(r: Range)
    requires r.begin <= r.end
    ensures Reach(r) == r.end <==> (r.end - r.begin) % 2 == 0
    ensures (r.end - r.begin) % 4 == 1 ==> Reach(r) == r.end + 1
    ensures (r.end - r.begin) % 4 == 3 ==> Reach(r) == r.end - 1
    ensures r.end - 1 <= Reach(r) <= r.end + 1 && (r.begin == r.end ==> Reach(r) == r.end)
  {
    assert (r.end - r.begin) % 2 == (r.end - r.begin) % 4 % 2;
  }

  /** The first output behind those that are written. */
  function Reach(r: Range): int
    requires r.begin <= r.end
  {
    match (r.end - r.begin) % 4
    case 1 => r.end + 1
    case 3 => r.end - 1
    case _ => r.end
  }

  lemma WrittenAt(r: Range, i: int)
    requires r.begin <= r.end
    ensures Written(r, i) <==> r.begin <= i < Reach(r)
  {
    var a, b, c, d := (r.end - r.begin) / 4, (r.end - r.begin) % 4, (i - r.begin) / 4, (i - r.begin) % 4;
    assert r.end == r.begin + 4 * a + b && i == r.begin + 4 * c + d;
  }

  ghost function Neuron(v: seq<real>, m: Matrix, bias: seq<real>, o: int, n: int): real
    requires 0 <= o < |bias|
  {
    Relu(Dot(v, m, o, n) + bias[o])
  }

  ghost function FcCycles(m: Matrix, r: Range, n: nat, cost: Cost): nat
    decreases r.end - r.begin
  {
    if r.begin < r.end
    then Times(cost.mac, Count(n, LiveInput(m, r.begin, r.begin + 4 <= r.end))) + cost.add + cost.relu
         + FcCycles(m, Range(r.begin + 4, r.end), n, cost)
    else 0
  }

  /** One round of op_fc's loop, for a full group or for the two lanes of the last one. */
  method NeuronGroup(input: array<real>, out: array<real>, weight: array2<real>, bias: array<real>,
                     n: nat, o: nat, full: bool, cost: Cost)
    returns (cycles: nat)
    requires input != out && bias != out && n <= input.Length && n <= weight.Length0
    requires var lanes := if full then 4 else 2;
             o + lanes <= out.Length && o + lanes <= bias.Length && o + lanes <= weight.Length1
    modifies out
    ensures forall i :: 0 <= i < out.Length ==>
              out[i] == if o <= i < o + (if full then 4 else 2)
                        then Neuron(input[..], Cells(weight), bias[..], i, n) else old(out[i])
    ensures cycles == Times(cost.mac, Count(n, LiveInput(Cells(weight), o, full))) + cost.add + cost.relu
  {
    hide Dot, Cells, Times, Count, LiveInput, Relu;
    var sum, used := Neurons(input, weight, o, full, n, cost);
    sum := Add(sum, Data(bias[o], bias[o + 1], if full then bias[o + 2] else 0.0, if full then bias[o + 3] else 0.0));
    cycles := used + cost.add + cost.relu;
    out[o] := Relu(sum.d0);
    out[o + 1] := Relu(sum.d1);
    if full {
      out[o + 2] := Relu(sum.d2);
      out[o + 3] := Relu(sum.d3);
    }
  }

  lemma GroupWritten(r: Range, o: nat)
    requires r.begin <= o < r.end && (o - r.begin) % 4 == 0
    ensures forall i :: o <= i < o + 4 ==> (Written(r, i) <==> i < o + if o + 4 <= r.end then 4 else 2)
  {
  }

  method OpFc(input: array<real>, out: array<real>, weight: array2<real>, bias: array<real>,
              n: nat, r: Range, cost: Cost)
    returns (cycles: nat)
    requires input != out && bias != out && n <= input.Length && n <= weight.Length0
    requires forall i :: Written(r, i) ==> i < out.Length && i < bias.Length && i < weight.Length1
    modifies out
    ensures forall i :: 0 <= i < out.Length ==>
              out[i] == if Written(r, i) then Neuron(input[..], Cells(weight), bias[..], i, n) else old(out[i])
    ensures cycles == FcCycles(Cells(weight), r, n, cost) / 64
    ensures 64 * cycles <= FcCycles(Cells(weight), r, n, cost) < 64 * (cycles + 1)
  {
    hide Neuron, Cells, Times, Count, LiveInput, Written;
    cycles := 0;
    ghost var v, m, b := input[..], Cells(weight), bias[..];
    var o := r.begin;
    NoneBefore(r);
    while o < r.end
      invariant r.begin <= o && (o - r.begin) % 4 == 0
      invariant forall i :: 0 <= i < out.Length ==>
                  out[i] == if i < o && Written(r, i) then Neuron(v, m, b, i, n) else old(out[i])
      invariant cycles + FcCycles(m, Range(o, r.end), n, cost) == FcCycles(m, r, n, cost)
    {
      GroupWritten(r, o);
      var full := o + 4 <= r.end;
      assert Written(r, o + if full then 3 else 1);
      var used := NeuronGroup(input, out, weight, bias, n, o, full, cost);
      cycles := cycles + used;
      o := o + 4;
    }
    AllWritten(r, o);
    cycles := cycles / 64;
  }

  lemma NoneBefore(r: Range)
    ensures forall i :: Written(r, i) ==> r.begin <= i
  {
  }

  lemma AllWritten(r: Range, o: nat)
    requires o >= r.end && (o - r.begin) % 4 == 0 && o >= r.begin
    ensures forall i :: Written(r, i) ==> i < o
  {
  }
}
