/**
 Half precision: conversion from and to single precision, and ordering, on the bits.

 Bits are naturals below 2^16 and 2^32, so masks and shifts are written as `%` and `/` by powers of
 two. Magnitudes are integers in units of the smallest single-precision subnormal, 2^-149; the smallest
 half-precision subnormal, 2^-24, is 2^125 of them.
 */
module Float16 {
  import opened Rounding

  const SINGLE: nat := 8388608 // significands per binade, 2^23
  const HALF: nat := 1024      // 2^10
  const GAP: nat := 125

  const SINGLE_INFINITY: nat := 255 * 8388608
  const HALF_INFINITY: nat := 0x7c00

  // ---- What the conversions mean -------------------------------------------------------

  function Min(a: nat, b: nat): nat {
    if a < b then a else b
  }

  /** Magnitude bits of the half nearest to `n` units, ties to even; past the largest half, infinity. */
  function NearestHalf(n: nat): nat {
    Min(Encode(HALF, GAP, n), HALF_INFINITY)
  }

  function HalfMagnitude(u: nat): nat {
    if u > SINGLE_INFINITY then 0x7e00 else NearestHalf(Mag(SINGLE, u))
  }

  /** The half that a single rounds to: the sign is kept, every NaN becomes the quiet one. */
  function ToHalf(v: nat): nat
    requires v < 0x1_0000_0000
  {
    HalfMagnitude(v % 0x8000_0000) + if v >= 0x8000_0000 then 0x8000 else 0
  }

  /** Sums and differences of single-precision magnitudes round to nearest, ties to even. */
  function Add(a: nat, b: nat): nat {
    Encode(SINGLE, 0, Mag(SINGLE, a) + Mag(SINGLE, b))
  }

  function Subtract(a: nat, b: nat): nat
    requires Mag(SINGLE, a) >= Mag(SINGLE, b)
  {
    Encode(SINGLE, 0, Mag(SINGLE, a) - Mag(SINGLE, b))
  }

  // ---- The three ranges of the narrowing ---------------------------------------------------

  /** The value of normal single-precision bits: `1 <= e` and a fraction. */
  lemma SingleValue(d: nat, fraction: nat)
    requires fraction < SINGLE
    ensures Mag(SINGLE, (d + 1) * SINGLE + fraction) == Scale(SINGLE + fraction, d)
  {
    CodeIs(SINGLE, d, SINGLE + fraction);
    MagOfCode(SINGLE, d, SINGLE + fraction);
  }

  /** From 2^16 on the result is infinity. */
  lemma LargeIsInfinite(u: nat)
    requires u >= 143 * SINGLE
    ensures NearestHalf(Mag(SINGLE, u)) == HALF_INFINITY
  {
    hide Encode, Scale, Mag;
    var top := 142;
    SingleValue(top, 0);
    if u > 143 * SINGLE {
      MagIncreases(SINGLE, 143 * SINGLE, u);
    }
    HalfInfinityValue();
    EncodeIsMonotone(HALF, GAP, Value(HALF, GAP, HALF_INFINITY), Mag(SINGLE, u));
    EncodeExact(HALF, GAP, HALF_INFINITY);
  }

  lemma HalfInfinityValue()
    ensures Value(HALF, GAP, HALF_INFINITY) == Scale(SINGLE, 142)
  {
    var d, k, j := 30, GAP, 13;
    CodeValue(HALF, k, d, HALF);
    CodeIs(HALF, d, HALF);
    hide Mag, Code;
    assert Scale(HALF, 13) == SINGLE;
    ScaleScales(HALF, j, 142);
    assert Value(HALF, k, HALF_INFINITY) == Scale(HALF, k + d);
  }

  /** Below 2^-14: adding one half aligns the last bit kept with the last bit of the sum. */
  lemma MagicAddRounds(n: nat, k: nat)
    requires k >= 1 && n < Scale(2 * HALF, k)
    ensures Encode(SINGLE, 0, n + Scale(SINGLE, k)) == Code(SINGLE, k, SINGLE) + Encode(HALF, k, n)
    ensures Encode(HALF, k, n) <= 2 * HALF
  {
    var q := HalfWithoutBinade(n, k);
    var sum := SumBinade(n, k);
    hide Mag, Binade, RoundEven, Scale;
    RoundEvenShifts(n, SINGLE, k);
    AddToCode(SINGLE, k, SINGLE, q);
  }

  lemma HalfWithoutBinade(n: nat, k: nat) returns (q: nat)
    requires k >= 1 && n < Scale(2 * HALF, k)
    ensures q == RoundEven(n, k) == Encode(HALF, k, n) <= 2 * HALF
  {
    q := RoundEven(n, k);
    BinadeIs(HALF, k, n, 0);
    RoundEvenRounds(n, k);
    SignificandInRange(HALF, k, n, q);
  }

  lemma SumBinade(n: nat, k: nat) returns (sum: nat)
    requires k >= 1 && n < Scale(2 * HALF, k)
    ensures sum == Scale(SINGLE, k) + n && Binade(SINGLE, 0, sum, 0) == k
  {
    sum := Scale(SINGLE, k) + n;
    hide Scale;
    ScaleOrders(2 * HALF, SINGLE, k);
    ScaleAdds(SINGLE, SINGLE, k);
    BinadeIs(SINGLE, 0, sum, k);
  }

  lemma {:induction false} AddToCode(b: nat, d: nat, q: nat, r: nat)
    ensures Code(b, d, q + r) == Code(b, d, q) + r
  {
    if d > 0 {
      AddToCode(b, d - 1, q, r);
    }
  }

  /** In between: rebias the exponent and round off 13 bits, carry and all. */
  lemma RebiasRounds(j: nat, fraction: nat)
    requires fraction < SINGLE
    ensures RoundEven((j + 1) * SINGLE + fraction, 13) == Encode(HALF, GAP, Scale(SINGLE + fraction, 112 + j))
  {
    var m, k := SINGLE + fraction, 112 + j;
    var n := Scale(m, k);
    BinadeOfSingle(m, j);
    RoundEvenScales(m, k, 13);
    assert 13 + k == GAP + j;
    EvenUnits(j, m);
    CodeIs(HALF, j, RoundEven(m, 13));
  }

  lemma BinadeOfSingle(m: nat, j: nat)
    requires SINGLE <= m < 2 * SINGLE
    ensures Binade(HALF, GAP, Scale(m, 112 + j), 0) == j
  {
    var k := 112 + j;
    assert Scale(HALF, 13) == SINGLE;
    ScaleScales(HALF, 13, k);
    ScalePositive(HALF, GAP + j);
    ScaleAdds(SINGLE, SINGLE, k);
    ScaleOrders(m, 2 * SINGLE, k);
    ScaleOrders(m, SINGLE, k);
    assert 13 + k == GAP + j;
    BinadeIs(HALF, GAP, Scale(m, k), j);
  }

  lemma EvenUnits(j: nat, m: nat)
    ensures RoundEven(j * SINGLE + m, 13) == j * HALF + RoundEven(m, 13)
  {
    var c := j * HALF;
    ScaleIsProduct(c, 13);
    assert Scale(1, 13) == 8192;
    RoundEvenShifts(m, c, 13);
  }

  // ---- The code: narrowing ------------------------------------------------------------------

  const DENORM_MAGIC: nat := 126 * 8388608

  /** The wrapping additions take 112 off the exponent and add the rounding bias. */
  lemma RebiasedBits(f: nat, n: nat)
    requires 113 * 8388608 <= f < 143 * 8388608 && n == f - 112 * 8388608
    ensures ((f + 0xc800_0fff) % 0x1_0000_0000 + (f / 8192) % 2) % 0x1_0000_0000 == n + 4095 + (n / 8192) % 2
  {
    assert (f + 0xc800_0fff) % 0x1_0000_0000 == n + 4095;
    assert (f / 8192) % 2 == (n / 8192) % 2;
  }

  lemma Thirteen(q: nat)
    ensures Scale(q, 13) == 8192 * q && Scale(1, 12) == 4096 && Scale(1, 13) == 8192
  {
    ScaleIsProduct(q, 13);
  }

  lemma NormalRounds(f: nat)
    requires 113 * SINGLE <= f < 143 * SINGLE
    ensures RoundEven(f - 112 * SINGLE, 13) == Encode(HALF, GAP, Mag(SINGLE, f)) <= HALF_INFINITY
  {
    var j, fraction := f / SINGLE - 113, f % SINGLE;
    var n := f - 112 * SINGLE;
    SplitSingle(f, j, fraction);
    SingleValue(112 + j, fraction);
    RebiasRounds(j, fraction);
    hide Encode, Mag, RoundEven, Scale;
    RoundEvenRounds(n, 13);
    Thirteen(RoundEven(n, 13));
  }

  lemma SplitSingle(f: nat, j: nat, fraction: nat)
    requires f >= 113 * 8388608 && j == f / 8388608 - 113 && fraction == f % 8388608
    ensures fraction < 8388608 && f == (112 + j + 1) * 8388608 + fraction
    ensures f - 112 * 8388608 == (j + 1) * 8388608 + fraction
  {
  }

  lemma BiasThirteen(n: nat)
    ensures (n + 4095 + (n / 8192) % 2) / 8192 == RoundEven(n, 13)
  {
    Thirteen(1);
    hide RoundEven;
    BiasThenShiftRounds(n, 13);
  }

  /** The bias trick on single-precision bits: what the two additions and the shift leave. */
  lemma NormalPath(f: nat)
    requires 113 * SINGLE <= f < 143 * SINGLE
    ensures ((f + 0xc800_0fff) % 0x1_0000_0000 + (f / 8192) % 2) % 0x1_0000_0000 / 8192 == NearestHalf(Mag(SINGLE, f))
    ensures NearestHalf(Mag(SINGLE, f)) <= HALF_INFINITY
  {
    var n := f - 112 * SINGLE;
    NormalRounds(f);
    hide Encode, Mag, RoundEven, Scale;
    RebiasedBits(f, n);
    BiasThirteen(n);
  }

  lemma SubnormalBelow(f: nat)
    requires f < 113 * SINGLE
    ensures Mag(SINGLE, f) < Scale(2 * HALF, GAP)
  {
    hide Mag, Scale;
    var k, top := GAP, 112;
    SingleValue(top, 0);
    MagIncreases(SINGLE, f, 113 * SINGLE);
    HalfToSingle(top);
    ScaleOrders(HALF, 2 * HALF, k);
  }

  /** Thirteen more bits make half-precision significands of single-precision ones. */
  lemma HalfToSingle(k: nat)
    ensures Scale(SINGLE, k) == Scale(HALF, 13 + k)
  {
    assert Scale(HALF, 13) == SINGLE;
    hide Scale;
    ScaleScales(HALF, 13, k);
  }

  lemma SubnormalPath(f: nat)
    requires f < 113 * SINGLE
    ensures DENORM_MAGIC <= Add(f, DENORM_MAGIC)
    ensures Add(f, DENORM_MAGIC) - DENORM_MAGIC == NearestHalf(Mag(SINGLE, f)) <= 2 * HALF
  {
    var rounded := RoundedByMagic(f);
    hide Mag, Encode, Code, Scale;
  }

  lemma RoundedByMagic(f: nat) returns (rounded: nat)
    requires f < 113 * SINGLE
    ensures rounded == Encode(HALF, GAP, Mag(SINGLE, f)) <= 2 * HALF
    ensures Add(f, DENORM_MAGIC) == DENORM_MAGIC + rounded
  {
    hide Add, Code, Encode, Mag, Scale;
    SubnormalBelow(f);
    var magic := MagicBits();
    var sum := MagicSum(f);
    rounded := Encode(HALF, magic, Mag(SINGLE, f));
    MagicAddRounds(Mag(SINGLE, f), magic);
  }

  lemma MagicSum(f: nat) returns (sum: nat)
    ensures sum == Add(f, DENORM_MAGIC) == Encode(SINGLE, 0, Mag(SINGLE, f) + Scale(SINGLE, GAP))
  {
    hide Mag, Encode, Code, Scale;
    var magic := MagicBits();
    sum := Add(f, DENORM_MAGIC);
  }

  /** The magic number is one half: the bits of binade 125. */
  lemma MagicBits() returns (k: nat)
    ensures 1 <= k == GAP && Code(SINGLE, k, SINGLE) == DENORM_MAGIC && Mag(SINGLE, DENORM_MAGIC) == Scale(SINGLE, k)
  {
    k := GAP;
    CodeIs(8388608, k, 8388608);
    MagOfCode(SINGLE, k, SINGLE);
  }

  /** `ToUint16Impl`: the bits are changed in place, the magnitude apart from its sign. */
  method ToUint16Impl(v: nat) returns (val: nat)
    requires v < 0x1_0000_0000
    ensures val == ToHalf(v) < 0x1_0000
  {
    hide Encode, Mag;
    var f := v;
    var sign := if f >= 0x8000_0000 then 0x8000_0000 else 0;
    f := f - sign;
    if f >= 143 * SINGLE {
      LargeIsInfinite(f);
      val := if f > SINGLE_INFINITY then 0x7e00 else 0x7c00;
    } else if f < 113 * SINGLE {
      SubnormalPath(f);
      f := Add(f, DENORM_MAGIC);
      val := (f - DENORM_MAGIC) % 0x1_0000;
    } else {
      NormalPath(f);
      var mantissaOdd := (f / 8192) % 2;
      f := (f + 0xc800_0fff) % 0x1_0000_0000; // 112 binades down, and just under half a unit up
      f := (f + mantissaOdd) % 0x1_0000_0000; // one more if the bit kept last is odd
      val := (f / 8192) % 0x1_0000;
    }
    val := val + sign / 0x1_0000;
  }

  // ---- The code: widening ---------------------------------------------------------------------

  const WIDEN_MAGIC: nat := 113 * 8388608

  predicate IsNaN(h: nat) {
    h % 0x8000 > HALF_INFINITY
  }

  ghost predicate IsNaN32(v: nat) {
    v % 0x8000_0000 > SINGLE_INFINITY
  }

  /** A normal half is widened by moving its exponent. */
  lemma NormalWidens(m: nat)
    requires HALF <= m < HALF_INFINITY
    ensures Mag(SINGLE, m * 8192 + 112 * SINGLE) == Scale(Mag(HALF, m), GAP)
  {
    var j, fraction := m / HALF - 1, m % HALF;
    var q, top, gap := HALF + fraction, 112 + j, GAP;
    CodeIs(HALF, j, q);
    MagOfCode(HALF, j, q);
    SingleValue(top, fraction * 8192);
    hide Mag;
    Thirteen(q);
    ScaleScales(q, 13, top);
    ScaleScales(q, j, gap);
    assert 13 + top == j + gap;
  }

  /** A subnormal half is widened by a float subtraction, which is exact. */
  lemma SubnormalWidens(m: nat)
    requires m < HALF
    ensures Mag(SINGLE, m * 8192 + WIDEN_MAGIC) >= Mag(SINGLE, WIDEN_MAGIC)
    ensures Mag(SINGLE, Subtract(m * 8192 + WIDEN_MAGIC, WIDEN_MAGIC)) == Scale(Mag(HALF, m), GAP)
    ensures Subtract(m * 8192 + WIDEN_MAGIC, WIDEN_MAGIC) < 113 * SINGLE
  {
    assert Mag(HALF, m) == m;
    var difference := SubnormalDifference(m);
    var gap := GAP;
    EncodeScaledExact(SINGLE, m, gap);
    SmallSingle(m, Encode(SINGLE, 0, difference));
  }

  lemma SubnormalDifference(m: nat) returns (difference: nat)
    requires m < HALF
    ensures difference == Scale(m, GAP)
    ensures Mag(SINGLE, m * 8192 + WIDEN_MAGIC) == Mag(SINGLE, WIDEN_MAGIC) + difference
  {
    var top := 112;
    SingleValue(top, m * 8192);
    SingleValue(top, 0);
    hide Mag, Encode;
    Thirteen(m);
    hide Scale;
    ScaleScales(m, 13, top);
    ScaleAdds(SINGLE, m * 8192, top);
    difference := Scale(m, GAP);
  }

  /** `ToFloatImpl`: exact on every finite half, infinite on infinities, NaN on NaNs, sign kept. */
  method ToFloatImpl(h: nat) returns (v: nat)
    requires h < 0x1_0000
    ensures v < 0x1_0000_0000 && (v >= 0x8000_0000 <==> h >= 0x8000)
    ensures h % 0x8000 < HALF_INFINITY ==> Mag(SINGLE, v % 0x8000_0000) == Scale(Mag(HALF, h % 0x8000), GAP)
    ensures h % 0x8000 < HALF_INFINITY ==> v % 0x8000_0000 < SINGLE_INFINITY
    ensures h % 0x8000 == HALF_INFINITY ==> v % 0x8000_0000 == SINGLE_INFINITY
    ensures IsNaN(h) <==> IsNaN32(v)
  {
    hide Mag, Encode, Scale;
    var o := (h % 0x8000) * 8192;
    var exponent := o / SINGLE;
    o := o + 112 * SINGLE;
    if exponent == 31 {
      o := o + 112 * SINGLE;
    } else if exponent == 0 {
      SubnormalWidens(h % 0x8000);
      o := o + SINGLE;
      o := Subtract(o, WIDEN_MAGIC);
    } else {
      NormalWidens(h % 0x8000);
    }
    v := o + if h >= 0x8000 then 0x8000_0000 else 0;
  }

  lemma SmallSingle(m: nat, u: nat)
    requires m < HALF && Mag(SINGLE, u) == Scale(m, GAP)
    ensures u < 113 * SINGLE
  {
    var top, gap := 112, GAP;
    SingleValue(top, 0);
    hide Mag;
    assert Scale(HALF, 13) == SINGLE;
    ScaleScales(HALF, 13, top);
    ScaleOrders(m, HALF, gap);
    if u > 113 * SINGLE {
      MagIncreases(SINGLE, 113 * SINGLE, u);
    }
  }

  // ---- Narrowing is IEEE rounding ------------------------------------------------------------

  /**
   For every single that is not NaN the half keeps the sign, and its magnitude is the one rounded to
   nearest with ties to even, in a format without a largest exponent, unless that is past the largest
   half: then, and only then, it is infinity.
   */
  lemma ToHalfIsRoundTiesToEven(v: nat)
    requires v < 0x1_0000_0000 && !IsNaN32(v)
    ensures var h, rounded := ToHalf(v), Encode(HALF, GAP, Mag(SINGLE, v % 0x8000_0000));
        && h < 0x1_0000 && (h >= 0x8000 <==> v >= 0x8000_0000)
        && IsNearestEven(HALF, GAP, Mag(SINGLE, v % 0x8000_0000), rounded)
        && h % 0x8000 == if rounded < HALF_INFINITY then rounded else HALF_INFINITY
  {
    hide Encode, Mag;
    EncodeIsNearestEven(HALF, GAP, Mag(SINGLE, v % 0x8000_0000));
  }

  lemma ToHalfOfNaN(v: nat)
    requires v < 0x1_0000_0000
    ensures IsNaN(ToHalf(v)) <==> IsNaN32(v)
    ensures IsNaN32(v) ==> ToHalf(v) % 0x8000 == 0x7e00
  {
    hide Encode, Mag;
  }

  // ---- Order -----------------------------------------------------------------------------------

  datatype Extended = NegInfinity | Finite(units: int) | PosInfinity

  predicate Below(a: Extended, b: Extended) {
    match (a, b)
    case (Finite(x), Finite(y)) => x < y
    case (NegInfinity, _) => !b.NegInfinity?
    case (_, PosInfinity) => !a.PosInfinity?
    case _ => false
  }

  function Signed(negative: bool, infinite: bool, magnitude: nat): Extended {
    if infinite then if negative then NegInfinity else PosInfinity
    else if negative then Finite(-(magnitude as int)) else Finite(magnitude)
  }

  /** The number a half stands for, in units of 2^-24. */
  function HalfNumber(h: nat): Extended {
    Signed(h >= 0x8000, h % 0x8000 == HALF_INFINITY, Mag(HALF, h % 0x8000))
  }

  /** The number a single stands for, in units of 2^-149. */
  function SingleNumber(v: nat): Extended {
    Signed(v >= 0x8000_0000, v % 0x8000_0000 == SINGLE_INFINITY, Mag(SINGLE, v % 0x8000_0000))
  }

  lemma MagOrders(b: nat, u: nat, v: nat)
    requires b >= 1
    ensures Mag(b, u) < Mag(b, v) <==> u < v
    ensures Mag(b, 0) == 0
  {
    if u < v {
      MagIncreases(b, u, v);
    } else if v < u {
      MagIncreases(b, v, u);
    }
  }

  lemma HalfMagnitudeIsMonotone(u: nat, v: nat)
    requires u <= v <= SINGLE_INFINITY
    ensures HalfMagnitude(u) <= HalfMagnitude(v) <= HALF_INFINITY
  {
    hide Encode;
    MagOrders(SINGLE, v, u);
    hide Mag;
    EncodeIsMonotone(HALF, GAP, Mag(SINGLE, u), Mag(SINGLE, v));
  }

  /** Zero and infinity are halves already. */
  lemma HalfOfEnds()
    ensures HalfMagnitude(0) == 0 && HalfMagnitude(SINGLE_INFINITY) == HALF_INFINITY
  {
    assert Mag(SINGLE, 0) == 0 && Mag(HALF, 0) == 0;
    LargeIsInfinite(SINGLE_INFINITY);
    hide Encode;
    ScalePositive(0, GAP);
    EncodeExact(HALF, GAP, 0);
  }

  /** Sign and magnitude bits as one integer. */
  function Rank(negative: bool, code: nat): int {
    if negative then -(code as int) else code
  }

  /** Numbers are ordered as their signed codes are, in any format. */
  lemma NumbersOrderAsRanks(b: nat, inf: nat, m: bool, u: nat, n: bool, v: nat)
    requires b >= 1 && inf >= 1 && u <= inf && v <= inf
    ensures var x, y := Signed(m, u == inf, Mag(b, u)), Signed(n, v == inf, Mag(b, v));
        && (Below(x, y) <==> Rank(m, u) < Rank(n, v))
        && (x == y <==> Rank(m, u) == Rank(n, v))
  {
    MagOrders(b, u, v);
    MagOrders(b, v, u);
    MagOrders(b, 0, u);
    MagOrders(b, 0, v);
    hide Mag;
  }

  /** Narrowing never reverses the order of two numbers, across signs, binades, zeros and infinities. */
  lemma ToHalfIsMonotone(v: nat, w: nat)
    requires v < 0x1_0000_0000 && w < 0x1_0000_0000 && !IsNaN32(v) && !IsNaN32(w)
    requires !Below(SingleNumber(w), SingleNumber(v))
    ensures !Below(HalfNumber(ToHalf(w)), HalfNumber(ToHalf(v)))
  {
    var a, b := v % 0x8000_0000, w % 0x8000_0000;
    var m, n := v >= 0x8000_0000, w >= 0x8000_0000;
    NumbersOrderAsRanks(SINGLE, SINGLE_INFINITY, n, b, m, a);
    RankIsMonotone(m, a, n, b);
    HalfParts(v);
    HalfParts(w);
    hide Mag, HalfMagnitude, ToHalf;
    NumbersOrderAsRanks(HALF, HALF_INFINITY, n, HalfMagnitude(b), m, HalfMagnitude(a));
  }

  lemma HalfParts(v: nat)
    requires v < 0x1_0000_0000 && !IsNaN32(v)
    ensures HalfMagnitude(v % 0x8000_0000) <= HALF_INFINITY
    ensures ToHalf(v) % 0x8000 == HalfMagnitude(v % 0x8000_0000)
    ensures ToHalf(v) >= 0x8000 <==> v >= 0x8000_0000
  {
    HalfMagnitudeIsMonotone(v % 0x8000_0000, v % 0x8000_0000);
    hide HalfMagnitude;
    SignBit(HalfMagnitude(v % 0x8000_0000), v >= 0x8000_0000);
  }

  lemma SignBit(code: nat, negative: bool)
    requires code <= 0x7c00
    ensures var h := code + if negative then 0x8000 else 0;
        h % 0x8000 == code && (h >= 0x8000 <==> negative)
  {
  }

  lemma RankIsMonotone(m: bool, a: nat, n: bool, b: nat)
    requires a <= SINGLE_INFINITY && b <= SINGLE_INFINITY && Rank(m, a) <= Rank(n, b)
    ensures Rank(m, HalfMagnitude(a)) <= Rank(n, HalfMagnitude(b))
  {
    HalfOfEnds();
    hide HalfMagnitude;
    if a <= b {
      HalfMagnitudeIsMonotone(a, b);
    }
    if b <= a {
      HalfMagnitudeIsMonotone(b, a);
    }
  }

  predicate IsNegative(h: nat) {
    h >= 0x8000
  }

  /** Both halves are zero, of either sign. */
  predicate AreZero(a: nat, b: nat) {
    a % 0x8000 == 0 && b % 0x8000 == 0
  }

  /** `operator<`. */
  predicate Less(a: nat, b: nat) {
    if IsNaN(a) || IsNaN(b) then false
    else if IsNegative(a) != IsNegative(b) then IsNegative(a) && !AreZero(a, b)
    else a != b && ((a < b) != IsNegative(a))
  }

  /** `operator==`. */
  predicate Equal(a: nat, b: nat) {
    !IsNaN(a) && !IsNaN(b) && a == b
  }

  lemma LessOnRanks(a: nat, b: nat)
    requires a < 0x1_0000 && b < 0x1_0000 && !IsNaN(a) && !IsNaN(b)
    ensures Less(a, b) <==> Rank(a >= 0x8000, a % 0x8000) < Rank(b >= 0x8000, b % 0x8000)
    ensures Rank(a >= 0x8000, a % 0x8000) == Rank(b >= 0x8000, b % 0x8000) <==> a == b || AreZero(a, b)
  {
  }

  /** `operator<` is the order of the numbers, infinite ones included; NaN is below and above nothing. */
  lemma LessIsNumericOrder(a: nat, b: nat)
    requires a < 0x1_0000 && b < 0x1_0000
    ensures Less(a, b) <==> !IsNaN(a) && !IsNaN(b) && Below(HalfNumber(a), HalfNumber(b))
  {
    if !IsNaN(a) && !IsNaN(b) {
      LessOnRanks(a, b);
      hide Less, Rank, Mag;
      NumbersOrderAsRanks(HALF, HALF_INFINITY, a >= 0x8000, a % 0x8000, b >= 0x8000, b % 0x8000);
    }
  }

  /** So it is a strict weak order on numbers: its ties are the same bits or two zeros, and ties are transitive. */
  lemma LessIsStrictWeakOrder(a: nat, b: nat, c: nat)
    requires a < 0x1_0000 && b < 0x1_0000 && c < 0x1_0000
    requires !IsNaN(a) && !IsNaN(b) && !IsNaN(c)
    ensures !(Less(a, b) && Less(b, a))
    ensures Less(a, b) && Less(b, c) ==> Less(a, c)
    ensures !Less(a, b) && !Less(b, a) <==> a == b || AreZero(a, b)
    ensures Less(a, b) ==> Less(a, c) || Less(c, b)
  {
  }

  /**
   `operator==` compares bits. It agrees with the equality of IEEE 754-2019, section 5.11, where zeros of
   either sign are equal, exactly when the operands are not zeros of opposite signs.
   */
  lemma EqualAgreesExactly(a: nat, b: nat)
    requires a < 0x1_0000 && b < 0x1_0000
    ensures (Equal(a, b) <==> !IsNaN(a) && !IsNaN(b) && HalfNumber(a) == HalfNumber(b))
        <==> !(AreZero(a, b) && IsNegative(a) != IsNegative(b))
  {
    if !IsNaN(a) && !IsNaN(b) {
      LessOnRanks(a, b);
      hide Rank, Mag;
      NumbersOrderAsRanks(HALF, HALF_INFINITY, a >= 0x8000, a % 0x8000, b >= 0x8000, b % 0x8000);
    }
  }

  /** So zero and negative zero, one number, are not equal. */
  lemma ZerosDiffer()
    ensures HalfNumber(0) == HalfNumber(0x8000) && !Equal(0, 0x8000)
  {
    EqualAgreesExactly(0, 0x8000);
  }

  // ---- Round trip ---------------------------------------------------------------------------------

  /** Narrowing undoes widening: any single that is what `ToFloatImpl` makes of a half narrows back to it. */
  lemma WidenThenNarrow(h: nat, v: nat)
    requires h < 0x1_0000 && v < 0x1_0000_0000 && !IsNaN(h)
    requires v >= 0x8000_0000 <==> h >= 0x8000
    requires h % 0x8000 < HALF_INFINITY ==>
        && v % 0x8000_0000 < SINGLE_INFINITY
        && Mag(SINGLE, v % 0x8000_0000) == Scale(Mag(HALF, h % 0x8000), GAP)
    requires h % 0x8000 == HALF_INFINITY ==> v % 0x8000_0000 == SINGLE_INFINITY
    ensures ToHalf(v) == h
  {
    hide Encode, Mag, Scale;
    if h % 0x8000 < HALF_INFINITY {
      EncodeExact(HALF, GAP, h % 0x8000);
    } else {
      HalfOfEnds();
    }
  }

  method RoundTrip(h: nat) returns (back: nat)
    requires h < 0x1_0000 && !IsNaN(h)
    ensures back == h
  {
    var v := ToFloatImpl(h);
    back := ToUint16Impl(v);
    WidenThenNarrow(h, v);
  }
}
