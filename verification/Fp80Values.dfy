/** What the conversions of Fp80 do to the values of numbers: order, halved subnormals, and
    truncation. */
module Fp80Values {
  import opened Fp80

  // ------------------------------------------------------------------------------------
  // Values and order
  // ------------------------------------------------------------------------------------

  /** The pattern of positive infinity; the magnitudes of finite numbers are the patterns
      below it. */
  const INF64: Word := SPECIAL64 * TWO52

  function Magnitude(x: Word): Word { if Neg64(x) then x - TWO63 else x }

  /** The magnitude of a finite 64-bit number in units of 2 to the power -16446. At INF64 it is
      the first value out of range. */
  function Value64(m: Word): nat
    requires m <= INF64
  {
    if Exp64(m) == 0 then Frac64(m) * Pow2(15372) else (TWO52 + Frac64(m)) * Pow2(Exp64(m) + 15371)
  }

  /** The magnitude of a finite 80-bit number in the same units. */
  function Value80(f: Pattern): nat {
    f.fi * Pow2(if f.Exp() == 0 then 1 else f.Exp())
  }

  lemma MagnitudeFields(x: Word)
    ensures Magnitude(x) == Exp64(x) * TWO52 + Frac64(x) < TWO63
    ensures Exp64(Magnitude(x)) == Exp64(x) && Frac64(Magnitude(x)) == Frac64(x)
    ensures Magnitude(x) < INF64 <==> Exp64(x) != SPECIAL64
  {}

  /** The step from one magnitude to the next. */
  function Ulp(m: Word): nat
    requires m < INF64
  {
    Pow2(if Exp64(m) == 0 then 15372 else Exp64(m) + 15371)
  }

  lemma NextValue(m: Word)
    requires m < INF64
    ensures Value64(m + 1) == Value64(m) + Ulp(m)
  {
    NextFields(m);
    hide Pow2, Exp64, Frac64;
    var e, frac := Exp64(m), Frac64(m);
    var p := Ulp(m);
    if frac < TWO52 - 1 {
      AddOne(if e == 0 then frac else TWO52 + frac, p);
    } else if e == 0 {
      AddOne(TWO52 - 1, p);
    } else {
      PowStep(e + 15371);
      Carry(p);
    }
  }

  lemma AddOne(a: nat, p: nat)
    ensures (a + 1) * p == a * p + p
  {}

  lemma Carry(p: nat)
    ensures TWO52 * (2 * p) == (TWO52 + (TWO52 - 1)) * p + p
  {}

  lemma NextFields(m: Word)
    requires m < INF64
    ensures Frac64(m) == TWO52 - 1 ==> Exp64(m + 1) == Exp64(m) + 1 && Frac64(m + 1) == 0
    ensures Frac64(m) != TWO52 - 1 ==> Exp64(m + 1) == Exp64(m) && Frac64(m + 1) == Frac64(m) + 1
  {
    MagnitudeFields(m);
    MagnitudeFields(m + 1);
  }

  lemma {:induction false} ValueMonotone(m: Word, n: Word)
    requires m < n <= INF64
    ensures Value64(m) < Value64(n)
    decreases n
  {
    hide Value64, Ulp;
    NextValue(n - 1);
    assert Ulp(n - 1) > 0 by { UlpPositive(n - 1); }
    if m < n - 1 { ValueMonotone(m, n - 1); }
  }

  lemma UlpPositive(m: Word)
    requires m < INF64
    ensures Ulp(m) > 0
  {}

  /** The encoder keeps the value of every finite number except the subnormal ones, whose
      value it halves: their exponent comes out one too low. */
  lemma EncodeValue(x: Word)
    requires Exp64(x) != SPECIAL64
    ensures Value80(Encode(x)) == Value64(Magnitude(x)) <==> Classify64(x) != Subnormal
    ensures Classify64(x) == Subnormal ==> 2 * Value80(Encode(x)) == Value64(Magnitude(x))
  {
    hide Pow2, Shift, Encode;
    EncodeFields(x);
    MagnitudeFields(x);
    var frac, f := Frac64(x), Encode(x);
    match Classify64(x)
    case Normal => NormalValue(frac, Exp64(x));
    case Subnormal =>
      ShiftBound(frac);
      SubnormalValue(frac, Shift(frac * TWO11));
    case _ =>
  }

  lemma NormalValue(frac: nat, exp: nat)
    ensures (TWO63 + frac * TWO11) * Pow2(exp + 15360) == (TWO52 + frac) * Pow2(exp + 15371)
  {
    hide Pow2;
    Pow2Consts();
    Pow2Add(exp + 15360, 11);
    var p := Pow2(exp + 15360);
    assert (TWO52 + frac) * TWO11 * p == (TWO52 + frac) * (p * TWO11);
  }

  lemma SubnormalValue(frac: nat, s: nat)
    requires s < 15360 && frac > 0
    ensures var v := frac * TWO11 * Pow2(s) * Pow2(15360 - s);
      2 * v == frac * Pow2(15372) && v != frac * Pow2(15372)
  {
    hide Pow2;
    Pow2Consts();
    Pow2Add(s, 15360 - s);
    Pow2Add(15360, 12);
    var p, q := Pow2(s), Pow2(15360 - s);
    assert frac * TWO11 * p * q == frac * TWO11 * (p * q);
    assert frac * Pow2(15372) == 2 * (frac * TWO11 * Pow2(15360));
    assert frac * TWO11 * Pow2(15360) > 0;
  }

  /** The order of (exponent, significand) pairs. */
  ghost predicate Below80(f: Pattern, g: Pattern) {
    f.Exp() < g.Exp() || (f.Exp() == g.Exp() && f.fi < g.fi)
  }

  lemma ShiftAntitone(a: Word, b: Word)
    requires 0 < a < b
    ensures Shift(a) > Shift(b) || (Shift(a) == Shift(b) && a * Pow2(Shift(a)) < b * Pow2(Shift(b)))
  {
    hide Pow2, Shift;
    var sa, sb := Shift(a), Shift(b);
    ShiftNormalises(a);
    ShiftNormalises(b);
    if sa < sb {
      Pow2Monotone(sa + 1, sb);
      PowStep(sa);
      MulMonotone(2 * Pow2(sa), Pow2(sb), b);
      StrictMul(a, b, Pow2(sa));
      DoubleMul(b, Pow2(sa));
    } else {
      StrictMul(a, b, Pow2(sa));
    }
  }

  lemma DoubleMul(a: nat, b: nat)
    ensures a * (2 * b) == 2 * (a * b)
  {}

  lemma StrictMul(a: nat, b: nat, c: nat)
    requires a < b && c > 0
    ensures a * c < b * c
  {}

  lemma EncodeAscends(x: Word, y: Word)
    requires x < y <= INF64
    ensures Below80(Encode(x), Encode(y))
  {
    hide Pow2, Shift, Encode;
    MagnitudeFields(x);
    MagnitudeFields(y);
    EncodeFields(x);
    EncodeFields(y);
    var fx, fy := Frac64(x), Frac64(y);
    if Exp64(y) == 0 && fx > 0 {
      ShiftAntitone(fx * TWO11, fy * TWO11);
      ShiftBound(fx);
      ShiftBound(fy);
    } else if Exp64(x) == 0 && fx > 0 {
      ShiftBound(fx);
    } else if Exp64(y) == 0 {
      ShiftBound(fy);
    }
  }

  /** On the non-negative numbers the encoder embeds the order, infinity included. */
  lemma OrderEmbedding(x: Word, y: Word)
    requires x <= INF64 && y <= INF64
    ensures x < y <==> Below80(Encode(x), Encode(y))
  {
    hide Encode;
    if x < y {
      EncodeAscends(x, y);
    } else if y < x {
      EncodeAscends(y, x);
    }
  }

  // ------------------------------------------------------------------------------------
  // Truncation
  // ------------------------------------------------------------------------------------

  /** What the documentation of fp80_cvtfp64 promises for a magnitude: the largest one not
      above the input, and infinity when the input is out of range. */
  ghost predicate Truncates(v: nat, m: Word) {
    if v >= Value64(INF64) then m == INF64
    else m < INF64 && Value64(m) <= v < Value64(m + 1)
  }

  lemma TruncatesMeansLargest(v: nat, m: Word, n: Word)
    requires Truncates(v, m) && n <= INF64
    ensures m <= INF64 && Value64(m) <= v
    ensures Value64(n) <= v ==> n <= m
  {
    hide Value64;
    if m < INF64 && m + 1 < n { ValueMonotone(m + 1, n); }
  }

  /** An 80-bit number that is not special and whose integer bit is as it should be. */
  predicate WellFormed(f: Pattern) {
    f.Exp() < SPECIAL80 && (f.Exp() == 0 || f.IntBit())
  }

  /** The exponent the number would have in 64-bit format. */
  function Rebased(f: Pattern): int { f.Exp() - BIAS80 + BIAS64 }

  lemma DecodeFields(over: Shifter, f: Pattern)
    requires f.Exp() < SPECIAL80
    ensures Neg64(Decode(over, f)) == f.Neg()
    ensures var m, e := Magnitude(Decode(over, f)), Rebased(f);
      && (e >= SPECIAL64 ==> m == INF64)
      && (0 < e < SPECIAL64 ==> m == e * TWO52 + f.fi / TWO11 % TWO52)
      && (e <= 0 ==> m == ShiftWord(over, f.fi / TWO11, -e) % TWO52)
  {
    hide Pow2, ShiftRight;
    var e := Rebased(f);
    if e <= 0 { BuildMagnitude(f.Neg(), ShiftWord(over, f.fi / TWO11, -e), 0); }
    else if e < SPECIAL64 { BuildMagnitude(f.Neg(), f.fi / TWO11, e); }
    else { BuildMagnitude(f.Neg(), 0, SPECIAL64); }
  }

  lemma BuildMagnitude(neg: bool, frac: nat, exp: nat)
    requires exp < 0x800
    ensures Neg64(Build64(neg, frac, exp)) == neg
    ensures Magnitude(Build64(neg, frac, exp)) == exp * TWO52 + frac % TWO52
  {}

  lemma OverflowTruncates(f: Pattern)
    requires WellFormed(f) && Rebased(f) >= SPECIAL64
    ensures Value80(f) >= Value64(INF64)
  {
    hide Pow2;
    MagnitudeFields(INF64);
    Pow2Monotone(SPECIAL64 + 15360, f.Exp());
    NormalValue(0, SPECIAL64);
    var p := Pow2(SPECIAL64 + 15360);
    MulMonotone(TWO63, f.fi, p);
    MulMonotone(p, Pow2(f.Exp()), f.fi);
  }

  lemma NormalTruncates(over: Shifter, f: Pattern)
    requires WellFormed(f) && 0 < Rebased(f) < SPECIAL64
    ensures Truncates(Value80(f), Magnitude(Decode(over, f)))
  {
    hide Pow2, Decode, Truncates;
    var e, q := Rebased(f), f.fi / TWO11;
    var m: Word := e * TWO52 + q % TWO52;
    assert q == TWO52 + q % TWO52;
    DecodeFields(over, f);
    MagnitudeFields(m);
    Pow2Add(e + 15360, 11);
    Pow2Consts();
    var p := Pow2(e + 15360);
    MulMonotone(q * TWO11, f.fi, p);
    StrictMul(f.fi, q * TWO11 + TWO11, p);
    assert Value64(m) == q * (p * TWO11) == q * TWO11 * p;
    NextValue(m);
    assert (q * TWO11 + TWO11) * p == q * TWO11 * p + p * TWO11;
    InRangeTruncates(Value80(f), m);
  }

  lemma InRangeTruncates(v: nat, m: Word)
    requires m < INF64
    ensures Truncates(v, m) <==> Value64(m) <= v < Value64(m + 1)
  {
    hide Value64;
    if m + 1 < INF64 { ValueMonotone(m + 1, INF64); }
  }

  lemma {:induction false} ShiftRightTwice(v: nat, a: nat, b: nat)
    ensures ShiftRight(ShiftRight(v, a), b) == ShiftRight(v, a + b)
  {
    if b > 0 {
      ShiftRightTwice(v, a, b - 1);
      assert ShiftRight(v, a + b) == ShiftRight(v, a + (b - 1)) / 2;
    }
  }

  lemma ShiftRightEleven(v: nat)
    ensures v / TWO11 == ShiftRight(v, 11)
  {
    hide Pow2, ShiftRight;
    Pow2Consts();
    ShiftRightFloor(v, 11);
    FloorUnique(v, TWO11, v / TWO11, ShiftRight(v, 11));
  }

  /** Below the normal range the result is right exactly when the fraction field equals half
      of what the decoder shifts into it. */
  lemma SubnormalTruncates(over: Shifter, f: Pattern)
    requires WellFormed(f) && -63 <= Rebased(f) <= 0
    ensures var w := ShiftRight(f.fi / TWO11, -Rebased(f));
      Truncates(Value80(f), Magnitude(Decode(over, f))) <==> w % TWO52 == w / 2
  {
    hide Pow2, Decode, Truncates, ShiftRight, Value64;
    var k := -Rebased(f);
    var w, u := ShiftRight(f.fi / TWO11, k), Pow2(15372);
    DecodeFields(over, f);
    ShiftRightEleven(f.fi);
    ShiftRightTwice(f.fi, 11, k);
    var t := w / 2;
    assert t == ShiftRight(f.fi, 12 + k) by { ShiftRightOnce(f.fi, 11 + k); }
    ShiftRightFloor(f.fi, 12 + k);
    ScaleFloor(f.fi, Pow2(12 + k), t, Pow2(15360 - k));
    Pow2Add(12 + k, 15360 - k);
    assert t * u <= Value80(f) < (t + 1) * u;
    var m: Word := w % TWO52;
    SmallValue(m);
    InRangeTruncates(Value80(f), m);
    if m * u <= Value80(f) < (m + 1) * u { FloorUnique(Value80(f), u, t, m); }
  }

  lemma ShiftRightOnce(v: nat, n: nat)
    ensures ShiftRight(v, n + 1) == ShiftRight(v, n) / 2
  {}

  lemma ScaleFloor(v: nat, d: nat, t: nat, c: nat)
    requires t * d <= v < (t + 1) * d && c > 0
    ensures t * (d * c) <= v * c < (t + 1) * (d * c)
  {
    MulMonotone(t * d, v, c);
    StrictMul(v, (t + 1) * d, c);
    assert t * d * c == t * (d * c) && (t + 1) * d * c == (t + 1) * (d * c);
  }

  lemma SmallValue(m: Word)
    requires m < TWO52
    ensures m < INF64 && Value64(m) == m * Pow2(15372) && Value64(m + 1) == (m + 1) * Pow2(15372)
  {
    hide Pow2;
    NextValue(m);
  }

  /** When the shifted significand is nothing, or loses exactly its integer bit. */
  lemma ShiftedOut(f: Pattern)
    requires WellFormed(f) && -63 <= Rebased(f) <= 0
    ensures var w := ShiftRight(f.fi / TWO11, -Rebased(f));
      w % TWO52 == w / 2 <==> Rebased(f) <= -53 || (Rebased(f) == 0 && f.fi / TWO11 == 2 * TWO52 - 1)
  {
    hide Pow2, ShiftRight;
    var k := -Rebased(f);
    var w := ShiftRight(f.fi / TWO11, k);
    if k == 0 {
      NoShift(f.fi / TWO11);
    } else {
      ShiftRightFloor(f.fi / TWO11, k);
      Pow2Consts();
      PowStep(0);
      if k >= 53 {
        Pow2Monotone(53, k);
        if w > 0 { MulMonotone(1, w, Pow2(k)); }
      } else {
        Pow2Monotone(k, 52);
        assert w > 0;
        Pow2Monotone(1, k);
        MulMonotone(2, Pow2(k), w);
      }
    }
  }

  lemma NoShift(v: nat)
    ensures ShiftRight(v, 0) == v
  {}

  /** Where the shift count leaves the range of C, the right answer is zero. */
  lemma TinyTruncates(over: Shifter, f: Pattern)
    requires WellFormed(f) && Rebased(f) <= -64
    ensures Truncates(Value80(f), Magnitude(Decode(over, f)))
       <==> over(f.fi / TWO11, -Rebased(f)) % TWO52 == 0
  {
    hide Pow2, Decode, Truncates, ShiftRight, Value64, Exp64;
    DecodeFields(over, f);
    var e := if f.Exp() == 0 then 1 else f.Exp();
    Pow2Monotone(e, 15296);
    MulMonotone(Pow2(e), Pow2(15296), f.fi);
    SixtyFour();
    StrictMul(f.fi, TWO64, Pow2(15296));
    Pow2Add(15296, 64);
    Pow2Monotone(15360, 15372);
    assert Value80(f) < Pow2(15372);
    var m: Word := over(f.fi / TWO11, -Rebased(f)) % TWO52;
    SmallValue(m);
    InRangeTruncates(Value80(f), m);
    if m > 0 { MulMonotone(1, m, Pow2(15372)); }
  }

  lemma SixtyFour()
    ensures Pow2(64) == TWO64
  {
    hide Pow2;
    Pow2Consts();
    Pow2Add(52, 12);
  }

  /** The significand that the masking of the fraction happens to round down. */
  predicate OnBorder(f: Pattern) { Rebased(f) == 0 && f.fi / TWO11 == 2 * TWO52 - 1 }

  /** When the documented promise is kept on every machine. */
  predicate Promised(f: Pattern) { Rebased(f) > 0 || -63 <= Rebased(f) <= -53 || OnBorder(f) }

  /** Exactly which conversions keep the documented promise: those into the normal range or
      beyond it, those so small that the answer is zero, and one significand on the border.
      Shift counts of 64 and more are the machine's. */
  lemma TruncationExact(over: Shifter, f: Pattern)
    requires WellFormed(f)
    ensures Neg64(Decode(over, f)) == f.Neg()
    ensures Truncates(Value80(f), Magnitude(Decode(over, f)))
       <==> Promised(f) || (Rebased(f) <= -64 && over(f.fi / TWO11, -Rebased(f)) % TWO52 == 0)
  {
    hide Decode, Value80, Value64, ShiftRight, Truncates;
    DecodeFields(over, f);
    if Rebased(f) <= -64 {
      TinyTruncates(over, f);
    } else if Rebased(f) <= 0 {
      SubnormalTruncates(over, f);
      ShiftedOut(f);
    } else if Rebased(f) < SPECIAL64 {
      NormalTruncates(over, f);
    } else {
      OverflowTruncates(f);
      InfinityTruncates(Value80(f));
    }
  }

  lemma InfinityTruncates(v: nat)
    requires v >= Value64(INF64)
    ensures Truncates(v, INF64)
  {}

  /** The promise is kept on every machine if and only if the exponent allows it. */
  lemma TruncationPortable(f: Pattern)
    requires WellFormed(f)
    ensures (forall over: Shifter :: Truncates(Value80(f), Magnitude(Decode(over, f)))) <==> Promised(f)
  {
    hide Decode, Value80, Truncates;
    forall over: Shifter
      ensures Promised(f) ==> Truncates(Value80(f), Magnitude(Decode(over, f)))
      ensures !Promised(f) && Rebased(f) > -64 ==> !Truncates(Value80(f), Magnitude(Decode(over, f)))
    {
      TruncationExact(over, f);
    }
    var ones: Shifter := (v, n) => 1;
    TruncationExact(ones, f);
    assert !Promised(f) ==> !Truncates(Value80(f), Magnitude(Decode(ones, f)));
  }

  /** The shift of a machine that looks at the last six bits of the count. */
  function MaskedShift(v: nat, n: nat): nat { ShiftRight(v, n % 64) }

  /** Such a machine shifts this tiny number by zero places. */
  lemma MaskedCountFails()
    ensures var f := Pattern(0xC000_0000_0000_0000, 15296);
      && WellFormed(f) && Magnitude(Decode(MaskedShift, f)) == TWO52 / 2
      && !Truncates(Value80(f), Magnitude(Decode(MaskedShift, f)))
  {
    hide Pow2, Decode, Truncates, Value80;
    var f := Pattern(0xC000_0000_0000_0000, 15296);
    DecodeFields(MaskedShift, f);
    NoShift(f.fi / TWO11);
    TruncationExact(MaskedShift, f);
  }

  /** On the conversions that keep the promise the decoder is monotone. */
  lemma DecodeMonotone(over: Shifter, f: Pattern, g: Pattern)
    requires WellFormed(f) && WellFormed(g) && Value80(f) <= Value80(g)
    requires Promised(f) && Promised(g)
    ensures Magnitude(Decode(over, f)) <= Magnitude(Decode(over, g))
  {
    hide Decode, Value80, Value64, Promised;
    TruncationExact(over, f);
    TruncationExact(over, g);
    TruncatesMeansLargest(Value80(f), Magnitude(Decode(over, f)), 0);
    TruncatesMeansLargest(Value80(g), Magnitude(Decode(over, g)), Magnitude(Decode(over, f)));
  }

  /** Just below the normal range it is not: the larger number becomes zero. */
  lemma BorderDrops(over: Shifter)
    ensures var f, g := Pattern(TWO63, 15359), Pattern(TWO63, 15360);
      && WellFormed(f) && WellFormed(g) && Value80(f) < Value80(g)
      && Magnitude(Decode(over, f)) == TWO52 / 2 && Magnitude(Decode(over, g)) == 0
  {
    hide Pow2, Decode;
    DecodeFields(over, Pattern(TWO63, 15359));
    DecodeFields(over, Pattern(TWO63, 15360));
    ShiftRightOnce(TWO52, 0);
    NoShift(TWO52);
    PowStep(15359);
  }
}
