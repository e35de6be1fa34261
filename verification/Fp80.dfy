/** Conversion between 64-bit and 80-bit floating point patterns (ext/fputils). Patterns are
    naturals below 2^64 and 2^16: a mask that selects a bit field is a division and a
    remainder, an "or" of disjoint fields is a sum, a shift is a product or a quotient. */
module Fp80 {

  const TWO11: nat := 0x800
  const TWO52: nat := 0x10_0000_0000_0000
  const TWO63: nat := 0x8000_0000_0000_0000
  const TWO64: nat := 0x1_0000_0000_0000_0000

  const BIAS64: nat := 0x3ff
  const BIAS80: nat := 0x3fff
  const SPECIAL64: nat := 0x7ff
  const SPECIAL80: nat := 0x7fff

  type Word = x: nat | x < TWO64 witness 0

  // ------------------------------------------------------------------------------------
  // Fields
  // ------------------------------------------------------------------------------------

  function Frac64(x: Word): nat { x % TWO52 }
  function Exp64(x: Word): nat { (x / TWO52) % 0x800 }
  function Neg64(x: Word): bool { x >= TWO63 }

  /** BUILD_IFP64. */
  function Build64(neg: bool, frac: nat, exp: nat): Word {
    (if neg then TWO63 else 0) + (exp % 0x800) * TWO52 + frac % TWO52
  }

  /** The 80-bit pattern: fi holds the integer bit and the fraction, se sign and exponent. */
  datatype Pattern = Pattern(fi: Word, se: nat) {
    ghost predicate Valid() { se < 0x1_0000 }
    function Frac(): nat { fi % TWO63 }
    function Exp(): nat { se % 0x8000 }
    predicate Neg() { se >= 0x8000 }
    predicate IntBit() { fi >= TWO63 }
  }

  /** BUILD_FP80: the integer bit is set exactly for a non-zero exponent. */
  function Build80(neg: bool, frac: nat, exp: nat): Pattern {
    Pattern((if exp != 0 then TWO63 else 0) + frac % TWO63, (if neg then 0x8000 else 0) + exp % 0x8000)
  }

  lemma Fields64(neg: bool, frac: nat, exp: nat)
    requires frac < TWO52 && exp < 0x800
    ensures var x := Build64(neg, frac, exp);
      Frac64(x) == frac && Exp64(x) == exp && Neg64(x) == neg
  {}

  lemma Rebuild64(x: Word)
    ensures Build64(Neg64(x), Frac64(x), Exp64(x)) == x
    ensures Frac64(x) < TWO52 && Exp64(x) < 0x800
  {}

  lemma Fields80(neg: bool, frac: Word, exp: nat)
    requires exp < 0x8000 && (exp == 0 ==> frac < TWO63)
    ensures var f := Build80(neg, frac, exp);
      && f.Valid() && f.Neg() == neg && f.Exp() == exp
      && f.fi == (if exp != 0 && frac < TWO63 then TWO63 + frac else frac)
  {}

  // ------------------------------------------------------------------------------------
  // Powers of two
  // ------------------------------------------------------------------------------------

  function Pow2(n: nat): (p: nat)
    ensures p >= 1
  {
    if n == 0 then 1 else 2 * Pow2(n - 1)
  }

  lemma {:induction false} Pow2Add(a: nat, b: nat)
    ensures Pow2(a + b) == Pow2(a) * Pow2(b)
  {
    if b > 0 {
      Pow2Add(a, b - 1);
      assert Pow2(a + b) == 2 * Pow2(a + (b - 1));
    }
  }

  lemma {:induction false} Pow2Monotone(a: nat, b: nat)
    requires a <= b
    ensures Pow2(a) <= Pow2(b)
  {
    if a < b { Pow2Monotone(a, b - 1); }
  }

  lemma Pow2Consts()
    ensures Pow2(11) == TWO11 && Pow2(12) == 2 * TWO11 && Pow2(52) == TWO52 && Pow2(53) == 2 * TWO52
  {
    assert Pow2(0) == 1 && Pow2(1) == 2 && Pow2(3) == 8 && Pow2(4) == 16;
    hide Pow2;
    Pow2Add(4, 4); Pow2Add(8, 3); Pow2Add(8, 4);
    assert Pow2(24) == 0x100_0000 by { Pow2Add(12, 12); }
    Pow2Add(24, 24); Pow2Add(48, 4); Pow2Add(52, 1);
  }

  // ------------------------------------------------------------------------------------
  // Predicates and classification
  // ------------------------------------------------------------------------------------

  function Sgn(f: Pattern): int { if f.Neg() then -1 else 1 }
  predicate IsSpecial(f: Pattern) { f.Exp() == SPECIAL80 }
  function IsInf(f: Pattern): int { if IsSpecial(f) && f.Frac() == 0 then Sgn(f) else 0 }
  predicate QuietBit(f: Pattern) { f.Frac() / 0x4000_0000_0000_0000 == 1 }
  predicate IsQnan(f: Pattern) { IsSpecial(f) && QuietBit(f) }
  predicate IsQnani(f: Pattern) { IsQnan(f) && f.Neg() && f.fi % 0x4000_0000_0000_0000 == 0 }
  predicate IsSnan(f: Pattern) { IsSpecial(f) && !QuietBit(f) && f.Frac() != 0 }
  function IsNan(f: Pattern): int { if IsSnan(f) || IsQnan(f) then Sgn(f) else 0 }
  predicate IsFinite(f: Pattern) { IsNan(f) == 0 && IsInf(f) == 0 }
  function IsZero(f: Pattern): int { if f.fi == 0 && f.Exp() == 0 then Sgn(f) else 0 }
  function IsNormal(f: Pattern): int { if f.Exp() != 0 && !IsSpecial(f) then Sgn(f) else 0 }
  function IsSubnormal(f: Pattern): int { if f.Frac() != 0 && f.Exp() == 0 then Sgn(f) else 0 }

  datatype Class = Nan | Infinite | Zero | Subnormal | Normal

  function Classify(f: Pattern): (c: Class)
    ensures c == Normal ==> IsFinite(f)
  {
    if IsSubnormal(f) != 0 then Subnormal
    else if IsZero(f) != 0 then Zero
    else if IsInf(f) != 0 then Infinite
    else if IsNan(f) != 0 then Nan
    else Normal
  }

  /** The classes of fp80_classify are those of the single predicates, with one exception:
      an exponent field of zero with nothing but the integer bit is called normal, although
      fp80_isnormal denies it. */
  lemma ClassifyAgrees(f: Pattern)
    ensures Classify(f) == Subnormal <==> IsSubnormal(f) != 0
    ensures Classify(f) == Zero <==> IsZero(f) != 0
    ensures Classify(f) == Infinite <==> IsInf(f) != 0
    ensures Classify(f) == Nan <==> IsNan(f) != 0
    ensures Classify(f) == Normal <==> IsNormal(f) != 0 || (f.Exp() == 0 && f.fi == TWO63)
    ensures !(IsSnan(f) && IsQnan(f))
  {}

  /** The patterns fp80_pinf, fp80_ninf, fp80_qnan, fp80_qnani and fp80_snan are what they are
      called. */
  lemma NamedPatterns()
    ensures IsInf(Build80(false, 0, SPECIAL80)) == 1 && IsInf(Build80(true, 0, SPECIAL80)) == -1
    ensures var qnan := Build80(false, 0x7fff_ffff_ffff_ffff, SPECIAL80); IsQnan(qnan) && !IsQnani(qnan)
    ensures var qnani := Build80(true, 0x4000_0000_0000_0000, SPECIAL80); IsQnan(qnani) && IsQnani(qnani)
    ensures var snan := Build80(false, 0x3fff_ffff_ffff_ffff, SPECIAL80); IsSnan(snan) && IsNan(snan) == 1
  {}

  /** What a predicate on patterns returns besides zero is the sign. */
  lemma ClassSigns(f: Pattern)
    ensures var sign := if f.se < 0x8000 then 1 else -1;
      && IsInf(f) in {0, sign} && IsNan(f) in {0, sign} && IsZero(f) in {0, sign}
      && IsNormal(f) in {0, sign} && IsSubnormal(f) in {0, sign}
    ensures Sgn(f) == 1 <==> f.se < 0x8000
    ensures Sgn(f) == -1 <==> f.se >= 0x8000
  {}

  /** The same classes for a 64-bit pattern. */
  function Classify64(x: Word): Class {
    if Exp64(x) == SPECIAL64 then (if Frac64(x) == 0 then Infinite else Nan)
    else if Exp64(x) != 0 then Normal
    else if Frac64(x) == 0 then Zero
    else Subnormal
  }

  predicate Quiet64(x: Word) { Frac64(x) / 0x8_0000_0000_0000 == 1 }

  // ------------------------------------------------------------------------------------
  // The conversions
  // ------------------------------------------------------------------------------------

  /** How often fi must be doubled before the integer bit is set. */
  function Shift(fi: Word): nat
    requires fi > 0
    decreases TWO64 - fi
  {
    if fi >= TWO63 then 0 else 1 + Shift(2 * fi)
  }

  lemma {:induction false} ShiftNormalises(fi: Word)
    requires fi > 0
    ensures TWO63 <= fi * Pow2(Shift(fi)) < TWO64
    decreases TWO64 - fi
  {
    if fi < TWO63 {
      ShiftNormalises(2 * fi);
      assert fi * Pow2(Shift(fi)) == 2 * fi * Pow2(Shift(2 * fi));
    } else {
      assert Pow2(0) == 1;
    }
  }

  lemma MulMonotone(a: nat, b: nat, c: nat)
    requires a <= b
    ensures a * c <= b * c
  {}

  lemma Overshoot(frac: nat, s: nat)
    requires 0 < frac && s > 52
    ensures frac * TWO11 * Pow2(s) >= TWO64
  {
    hide Pow2;
    Pow2Monotone(53, s);
    Pow2Consts();
    MulMonotone(TWO11, frac * TWO11, Pow2(s));
  }

  lemma ShiftBound(frac: nat)
    requires 0 < frac < TWO52
    ensures 1 <= Shift(frac * TWO11) <= 52
  {
    hide Pow2;
    ShiftNormalises(frac * TWO11);
    if Shift(frac * TWO11) > 52 { Overshoot(frac, Shift(frac * TWO11)); }
  }

  /** fp80_cvffp64. */
  function Encode(x: Word): Pattern {
    var frac, exp := Frac64(x), Exp64(x);
    if exp != 0 then
      Build80(Neg64(x), frac * TWO11, if exp == SPECIAL64 then SPECIAL80 else exp + (BIAS80 - BIAS64))
    else if frac == 0 then
      Build80(Neg64(x), 0, 0)
    else
      ShiftBound(frac);
      ShiftNormalises(frac * TWO11);
      Build80(Neg64(x), frac * TWO11 * Pow2(Shift(frac * TWO11)), BIAS80 - BIAS64 - Shift(frac * TWO11))
  }

  method CvfFp64(x: Word) returns (r: Pattern)
    ensures r == Encode(x)
  {
    hide Pow2, Build80, Shift;
    var frac, exp := Frac64(x), Exp64(x);
    var frac80 := frac * TWO11;
    if exp != 0 {
      var exp80 := if exp == SPECIAL64 then SPECIAL80 else exp + (BIAS80 - BIAS64);
      r := Build80(Neg64(x), frac80, exp80);
    } else if frac == 0 {
      r := Build80(Neg64(x), 0, 0);
    } else {
      var fi: Word, shiftAmt := frac80, 0;
      ShiftBound(frac);
      PowStep(0);
      while fi < TWO63
        invariant 0 < fi && shiftAmt + Shift(fi) == Shift(frac80)
        invariant fi == frac80 * Pow2(shiftAmt)
        decreases TWO64 - fi
      {
        PowStep(shiftAmt);
        ShiftStep(fi);
        assert 2 * fi == frac80 * (2 * Pow2(shiftAmt));
        fi := 2 * fi;
        shiftAmt := shiftAmt + 1;
      }
      ShiftStep(fi);
      r := Build80(Neg64(x), fi, BIAS80 - BIAS64 - shiftAmt);
    }
  }

  lemma ShiftStep(fi: Word)
    requires fi > 0
    ensures fi < TWO63 ==> 2 * fi < TWO64 && Shift(fi) == 1 + Shift(2 * fi)
    ensures fi >= TWO63 ==> Shift(fi) == 0
  {}

  lemma PowStep(n: nat)
    ensures Pow2(0) == 1 && Pow2(n + 1) == 2 * Pow2(n)
  {}

  const SNAN64: nat := 0x7_ffff_ffff_ffff
  const QNAN64: nat := 0xf_ffff_ffff_ffff
  const QNANI64: nat := 0x8_0000_0000_0000

  /** What v >> n gives for a 64-bit v and n >= 64, which C leaves undefined. Machines that mask
      the count shift by n % 64, others give zero. */
  type Shifter = (nat, nat) -> nat

  /** v >> n in C, on a machine that shifts too far in the given way. */
  function ShiftWord(over: Shifter, v: nat, n: nat): nat {
    if n < 64 then ShiftRight(v, n) else over(v, n)
  }

  /** The mathematical shift. */
  function ShiftRight(v: nat, n: nat): nat {
    if n == 0 then v else ShiftRight(v, n - 1) / 2
  }

  /** It is the quotient by the power of two, rounded down. */
  lemma {:induction false} ShiftRightFloor(v: nat, n: nat)
    ensures ShiftRight(v, n) * Pow2(n) <= v < (ShiftRight(v, n) + 1) * Pow2(n)
  {
    if n > 0 {
      ShiftRightFloor(v, n - 1);
      HalveFloor(v, Pow2(n - 1), ShiftRight(v, n - 1));
    }
  }

  lemma HalveFloor(v: nat, p: nat, q: nat)
    requires q * p <= v < (q + 1) * p
    ensures (q / 2) * (2 * p) <= v < (q / 2 + 1) * (2 * p)
  {
    var h := q / 2;
    MulMonotone(2 * h, q, p);
    MulMonotone(q + 1, 2 * h + 2, p);
    assert h * (2 * p) == (2 * h) * p && (h + 1) * (2 * p) == (2 * h + 2) * p;
  }

  /** fp80_cvtfp64. */
  function Decode(over: Shifter, f: Pattern): Word {
    if !IsSpecial(f) then
      var exp := f.Exp() - BIAS80 + BIAS64;
      if 0 < exp < SPECIAL64 then Build64(f.Neg(), f.fi / TWO11, exp)
      else if exp <= 0 then Build64(f.Neg(), ShiftWord(over, f.fi / TWO11, -exp), 0)
      else Build64(f.Neg(), 0, SPECIAL64)
    else if IsInf(f) != 0 then Build64(f.Neg(), 0, SPECIAL64)
    else if IsSnan(f) then Build64(f.Neg(), SNAN64, SPECIAL64)
    else if IsQnani(f) then Build64(true, QNANI64, SPECIAL64)
    else Build64(f.Neg(), QNAN64, SPECIAL64)
  }

  // ------------------------------------------------------------------------------------
  // Round trip
  // ------------------------------------------------------------------------------------

  predicate CanonicalNan(x: Word) {
    Classify64(x) == Nan && (Frac64(x) == SNAN64 || Frac64(x) == QNAN64 || (Neg64(x) && Frac64(x) == QNANI64))
  }

  /** What the encoder produces, by class. */
  lemma EncodeFields(x: Word)
    ensures Encode(x).Valid() && Encode(x).Neg() == Neg64(x)
    ensures Classify64(x) == Zero ==> Encode(x).fi == 0 && Encode(x).Exp() == 0
    ensures Classify64(x) == Normal ==>
      Encode(x).fi == TWO63 + Frac64(x) * TWO11 && Encode(x).Exp() == Exp64(x) + 15360
    ensures Exp64(x) == SPECIAL64 ==>
      Encode(x).fi == TWO63 + Frac64(x) * TWO11 && Encode(x).Exp() == SPECIAL80
    ensures Classify64(x) == Subnormal ==>
      && Encode(x).fi == Frac64(x) * TWO11 * Pow2(Shift(Frac64(x) * TWO11)) >= TWO63
      && Encode(x).Exp() == 15360 - Shift(Frac64(x) * TWO11)
  {
    hide Pow2, Shift, Build80;
    var frac, exp := Frac64(x), Exp64(x);
    if exp != 0 {
      Fields80(Neg64(x), frac * TWO11, if exp == SPECIAL64 then SPECIAL80 else exp + (BIAS80 - BIAS64));
    } else if frac == 0 {
      Fields80(Neg64(x), 0, 0);
    } else {
      var s := Shift(frac * TWO11);
      ShiftBound(frac);
      ShiftNormalises(frac * TWO11);
      Fields80(Neg64(x), frac * TWO11 * Pow2(s), BIAS80 - BIAS64 - s);
    }
  }

  lemma SubnormalRoundTrip(over: Shifter, x: Word)
    requires Classify64(x) == Subnormal
    ensures Decode(over, Encode(x)) == x
  {
    hide Pow2, Shift, ShiftRight, Build64, Exp64, Neg64;
    var frac, f := Frac64(x), Encode(x);
    var s := Shift(frac * TWO11);
    EncodeFields(x);
    ShiftBound(frac);
    assert f.fi / TWO11 == frac * Pow2(s) by {
      assert f.fi == frac * Pow2(s) * TWO11;
    }
    ShiftRightFloor(frac * Pow2(s), s);
    FloorUnique(frac * Pow2(s), Pow2(s), frac, ShiftRight(frac * Pow2(s), s));
    Rebuild64(x);
  }

  lemma FloorUnique(k: nat, d: nat, q: nat, r: nat)
    requires q * d <= k < (q + 1) * d && r * d <= k < (r + 1) * d
    ensures q == r
  {
    if q < r { MulMonotone(q + 1, r, d); }
    if r < q { MulMonotone(r + 1, q, d); }
  }

  /** A zero is decoded by shifting zero right by 15360 places. The machine must make that zero;
      it is the one assumption of the round trip on what C leaves open. */
  predicate ZeroStaysZero(over: Shifter) { over(0, 15360) % TWO52 == 0 }

  predicate Kept(over: Shifter, x: Word) {
    match Classify64(x)
    case Nan => CanonicalNan(x)
    case Zero => ZeroStaysZero(over)
    case _ => true
  }

  /** Going to 80 bits and back is the identity, except that a NaN comes back as the
      canonical NaN of its kind. */
  lemma RoundTrip(over: Shifter, x: Word)
    ensures Decode(over, Encode(x)) == x <==> Kept(over, x)
    ensures Classify64(x) == Nan ==>
      var y := Decode(over, Encode(x));
      CanonicalNan(y) && Neg64(y) == Neg64(x) && Quiet64(y) == Quiet64(x)
    ensures Decode(over, Encode(Decode(over, Encode(x)))) == Decode(over, Encode(x))
  {
    hide Pow2, Shift, Encode, Decode;
    RoundTripOnce(over, x);
    RoundTripOnce(over, Decode(over, Encode(x)));
    if Classify64(x) == Zero { ZeroRoundTrip(over, x); }
  }

  lemma RoundTripOnce(over: Shifter, x: Word)
    ensures Decode(over, Encode(x)) == x <==> Kept(over, x)
    ensures Classify64(x) == Nan ==>
      var y := Decode(over, Encode(x));
      CanonicalNan(y) && Neg64(y) == Neg64(x) && Quiet64(y) == Quiet64(x)
  {
    hide Pow2, Shift, Encode, Decode, Build64;
    match Classify64(x)
    case Nan => NanRoundTrip(over, x);
    case Subnormal => SubnormalRoundTrip(over, x);
    case Zero => ZeroRoundTrip(over, x);
    case _ => PlainRoundTrip(over, x);
  }

  /** A zero that is not kept becomes a subnormal number, which is. */
  lemma ZeroRoundTrip(over: Shifter, x: Word)
    requires Classify64(x) == Zero
    ensures Decode(over, Encode(x)) == x <==> ZeroStaysZero(over)
    ensures !ZeroStaysZero(over) ==> Classify64(Decode(over, Encode(x))) == Subnormal
  {
    hide Pow2, Shift, ShiftRight, Encode, Build64;
    EncodeFields(x);
    Rebuild64(x);
    MaskedFraction(Neg64(x), over(0, 15360));
  }

  lemma MaskedFraction(neg: bool, frac: nat)
    ensures Build64(neg, frac, 0) == Build64(neg, frac % TWO52, 0)
    ensures var y := Build64(neg, frac, 0); Frac64(y) == frac % TWO52 && Exp64(y) == 0
  {
    Fields64(neg, frac % TWO52, 0);
  }

  lemma PlainRoundTrip(over: Shifter, x: Word)
    requires Classify64(x) in {Normal, Infinite}
    ensures Decode(over, Encode(x)) == x
  {
    hide Pow2, Shift, ShiftRight, Encode, Build64;
    EncodeFields(x);
    Rebuild64(x);
    if Classify64(x) == Normal { DropIntBit(Neg64(x), Frac64(x), Exp64(x)); }
  }

  /** The fraction mask drops the integer bit again. */
  lemma DropIntBit(neg: bool, frac: nat, exp: nat)
    requires frac < TWO52
    ensures (TWO63 + frac * TWO11) / TWO11 == TWO52 + frac
    ensures Build64(neg, TWO52 + frac, exp) == Build64(neg, frac, exp)
  {}

  lemma NanRoundTrip(over: Shifter, x: Word)
    requires Classify64(x) == Nan
    ensures var y := Decode(over, Encode(x));
      && y == Build64(Neg64(x),
           if !Quiet64(x) then SNAN64 else if Neg64(x) && Frac64(x) == QNANI64 then QNANI64 else QNAN64, SPECIAL64)
      && CanonicalNan(y) && Neg64(y) == Neg64(x) && Quiet64(y) == Quiet64(x)
      && (y == x <==> CanonicalNan(x))
  {
    hide Pow2, Shift, Encode;
    var f := Encode(x);
    EncodeFields(x);
    Rebuild64(x);
    assert f.Frac() == Frac64(x) * TWO11;
    assert QuietBit(f) <==> Quiet64(x);
    assert Quiet64(x) && Neg64(x) ==> (IsQnani(f) <==> Frac64(x) == QNANI64);
    Fields64(Neg64(x), SNAN64, SPECIAL64);
    Fields64(Neg64(x), QNAN64, SPECIAL64);
    Fields64(Neg64(x), QNANI64, SPECIAL64);
  }
}
