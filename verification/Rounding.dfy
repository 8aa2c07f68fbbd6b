/**
 Binary floating point with any precision and rounding to nearest, ties to even
 (IEEE 754-2019, section 4.3.1), over exact integers.

 A format has `b` significands per binade, `b` a power of two. Read as an integer, the magnitude bits
 `u` of a format are an increasing code for its values: below `2 * b` the value is `u` itself, in units
 of the smallest subnormal, and each further `b` codes double it.
 */
module Rounding {

  // ---- Powers of two without products ----------------------------------------------

  /** `n * 2^k`. */
  function Scale(n: nat, k: nat): nat {
    if k == 0 then n else 2 * Scale(n, k - 1)
  }

  lemma {:induction false} ScaleAdds(m: nat, n: nat, k: nat)
    ensures Scale(m + n, k) == Scale(m, k) + Scale(n, k)
  {
    if k > 0 {
      ScaleAdds(m, n, k - 1);
    }
  }

  /** A sum of multiples, named. */
  lemma ScaleSum(m: nat, n: nat, k: nat) returns (sum: nat)
    ensures sum == m + n && Scale(sum, k) == Scale(m, k) + Scale(n, k)
  {
    ScaleAdds(m, n, k);
    sum := m + n;
  }

  lemma {:induction false} ScaleScales(n: nat, j: nat, k: nat)
    ensures Scale(Scale(n, j), k) == Scale(n, j + k)
  {
    if k > 0 {
      ScaleScales(n, j, k - 1);
    }
  }

  lemma {:induction false} ScaleOrders(m: nat, n: nat, k: nat)
    ensures m < n <==> Scale(m, k) < Scale(n, k)
    ensures m == n <==> Scale(m, k) == Scale(n, k)
  {
    if k > 0 {
      ScaleOrders(m, n, k - 1);
    }
  }

  lemma {:induction false} ScalePositive(n: nat, k: nat)
    ensures n >= 1 ==> Scale(n, k) >= 1
    ensures Scale(2 * n, k) == Scale(n, k + 1)
    ensures Scale(0, k) == 0
  {
    if k > 0 {
      ScalePositive(n, k - 1);
    }
  }

  lemma {:induction false} ScaleIsProduct(n: nat, k: nat)
    ensures Scale(n, k) == n * Scale(1, k)
  {
    if k > 0 {
      ScaleIsProduct(n, k - 1);
    }
  }

  // ---- Rounding an integer to a multiple of 2^k ----------------------------------------

  /** `n / 2^k` to the nearest integer, ties to even. */
  function RoundEven(n: nat, k: nat): nat {
    var unit := Scale(1, k);
    ScalePositive(1, k);
    var q, r := n / unit, n % unit;
    if 2 * r > unit || (2 * r == unit && q % 2 == 1) then q + 1 else q
  }

  /** Within half a unit, and even when exactly half way. */
  ghost predicate IsRoundEven(n: nat, k: nat, q: nat) {
    var unit := Scale(1, k);
    && 2 * n <= 2 * Scale(q, k) + unit
    && 2 * Scale(q, k) <= 2 * n + unit
    && (2 * n == 2 * Scale(q, k) + unit || 2 * Scale(q, k) == 2 * n + unit ==> q % 2 == 0 || k == 0)
  }

  lemma Divides(n: nat, unit: nat)
    requires unit >= 1
    ensures n == (n / unit) * unit + n % unit && n % unit < unit
  {
  }

  lemma RoundEvenRounds(n: nat, k: nat)
    ensures IsRoundEven(n, k, RoundEven(n, k))
  {
    var unit := Scale(1, k);
    ScalePositive(1, k);
    Divides(n, unit);
    ScaleIsProduct(n / unit, k);
    ScaleAdds(n / unit, 1, k);
    if k > 0 {
      assert unit % 2 == 0;
    }
  }

  /** The rounded quotient is the only integer that fits the definition. */
  lemma RoundEvenIsUnique(n: nat, k: nat, q: nat)
    requires IsRoundEven(n, k, q) && k >= 1
    ensures q == RoundEven(n, k)
  {
    var r := RoundEven(n, k);
    RoundEvenRounds(n, k);
    hide Scale, RoundEven;
    if q < r {
      ApartByUnits(q, r, k);
    } else if r < q {
      ApartByUnits(r, q, k);
    }
  }

  lemma ApartByUnits(q: nat, r: nat, k: nat)
    requires q < r
    ensures Scale(r, k) >= Scale(q, k) + Scale(1, k)
    ensures r > q + 1 ==> Scale(r, k) >= Scale(q, k) + 2 * Scale(1, k)
    ensures Scale(1, k) >= 1
  {
    ScalePositive(1, k);
    ScaleAdds(q, 1, k);
    ScaleAdds(q + 1, 1, k);
    ScaleOrders(r, q + 1, k);
    ScaleOrders(r, q + 2, k);
  }

  /**
   The bit trick: adding half a unit less one, plus the lowest kept bit, and then dropping `k` bits
   rounds to nearest with ties to even - for every natural and every `k` from one.
   */
  lemma BiasThenShiftRounds(n: nat, k: nat)
    requires k >= 1
    ensures var unit, half := Scale(1, k), Scale(1, k - 1);
        && unit == 2 * half && half >= 1
        && (n + (half - 1) + (n / unit) % 2) / unit == RoundEven(n, k)
  {
    var unit, half := Scale(1, k), Scale(1, k - 1);
    ScalePositive(1, k - 1);
    AddToQuotient(n, unit, (half - 1) + (n / unit) % 2);
  }

  /** Adding less than a unit carries into the quotient or leaves it. */
  lemma AddToQuotient(n: nat, unit: nat, extra: nat)
    requires unit >= 1 && extra <= unit
    ensures (n + extra) / unit == n / unit + if n % unit + extra >= unit then 1 else 0
  {
    Divides(n, unit);
    var q, r := n / unit, n % unit;
    if r + extra >= unit {
      assert (q + 1) * unit == q * unit + unit;
      QuotientIs(n + extra, unit, q + 1, r + extra - unit);
    } else {
      QuotientIs(n + extra, unit, q, r + extra);
    }
  }

  lemma QuotientIs(x: nat, unit: nat, q: nat, r: nat)
    requires r < unit && x == q * unit + r
    ensures x / unit == q
  {
    Divides(x, unit);
    var p := x / unit;
    if p < q {
      ProductGap(p, q, unit);
    } else if p > q {
      ProductGap(q, p, unit);
    }
  }

  lemma ProductGap(p: nat, q: nat, unit: nat)
    requires p < q
    ensures q * unit >= p * unit + unit
  {
    var rest := q - p - 1;
    assert q * unit == p * unit + unit + rest * unit;
    assert rest * unit >= 0;
  }

  /** Scaling keeps the comparisons that rounding makes. */
  lemma ScaleCompares(a: nat, b: nat, u: nat, j: nat)
    ensures 2 * a <= 2 * b + u <==> 2 * Scale(a, j) <= 2 * Scale(b, j) + Scale(u, j)
    ensures 2 * a == 2 * b + u <==> 2 * Scale(a, j) == 2 * Scale(b, j) + Scale(u, j)
  {
    hide Scale;
    var twiceA := ScaleSum(a, a, j);
    var twiceB := ScaleSum(b, b, j);
    var bound := ScaleSum(twiceB, u, j);
    ScaleOrders(bound, twiceA, j);
  }

  /** Rounding is unaffected by a common factor of two. */
  lemma RoundEvenScales(n: nat, j: nat, k: nat)
    requires k >= 1
    ensures RoundEven(Scale(n, j), k + j) == RoundEven(n, k)
  {
    var q := RoundEven(n, k);
    RoundEvenRounds(n, k);
    hide Scale, RoundEven;
    ScaleScales(q, k, j);
    ScaleScales(1, k, j);
    ScaleCompares(n, Scale(q, k), Scale(1, k), j);
    ScaleCompares(Scale(q, k), n, Scale(1, k), j);
    RoundEvenIsUnique(Scale(n, j), k + j, q);
  }

  /** Adding an even number of units adds that number to the rounded quotient. */
  lemma RoundEvenShifts(n: nat, c: nat, k: nat)
    requires k >= 1 && c % 2 == 0
    ensures RoundEven(Scale(c, k) + n, k) == c + RoundEven(n, k)
  {
    var q := RoundEven(n, k);
    RoundEvenRounds(n, k);
    hide Scale, RoundEven;
    ScaleAdds(c, q, k);
    RoundEvenIsUnique(Scale(c, k) + n, k, c + q);
  }

  // ---- Values of a format ------------------------------------------------------------------

  /** The value coded by `u`, in units of the smallest subnormal. */
  function Mag(b: nat, u: nat): nat
    requires b >= 1
  {
    if u < 2 * b then u else 2 * Mag(b, u - b)
  }

  /** The code of significand `q` in binade `d`. */
  function Code(b: nat, d: nat, q: nat): nat {
    if d == 0 then q else Code(b, d - 1, q) + b
  }

  lemma {:induction false} CodeIs(b: nat, d: nat, q: nat)
    ensures Code(b, d, q) == d * b + q
  {
    if d > 0 {
      CodeIs(b, d - 1, q);
    }
  }

  lemma {:induction false} MagOfCode(b: nat, d: nat, q: nat)
    requires b >= 1 && q <= 2 * b && (d > 0 ==> q >= b)
    ensures Mag(b, Code(b, d, q)) == Scale(q, d)
  {
    if d > 0 {
      CodeAtLeast(b, d - 1, q);
      MagOfCode(b, d - 1, q);
    } else if q == 2 * b {
      assert Mag(b, b) == b;
    }
  }

  lemma {:induction false} CodeAtLeast(b: nat, d: nat, q: nat)
    ensures Code(b, d, q) >= q && (d > 0 ==> Code(b, d, q) >= q + b)
  {
    if d > 0 {
      CodeAtLeast(b, d - 1, q);
    }
  }

  lemma {:induction false} MagStep(b: nat, u: nat)
    requires b >= 1
    ensures Mag(b, u) < Mag(b, u + 1)
  {
    if u + 1 == 2 * b {
      assert Mag(b, u + 1 - b) == b;
    } else if u >= 2 * b {
      MagStep(b, u - b);
    }
  }

  lemma {:induction false} MagIncreases(b: nat, u: nat, v: nat)
    requires b >= 1 && u < v
    ensures Mag(b, u) < Mag(b, v)
    decreases v - u
  {
    MagStep(b, u);
    if u + 1 < v {
      MagIncreases(b, u + 1, v);
    }
  }

  // ---- Rounding to a format --------------------------------------------------------------------

  /** The binade of `n` in a format whose smallest subnormal is `2^s`: the fewest extra bits to drop. */
  function Binade(b: nat, s: nat, n: nat, d: nat): (e: nat)
    requires b >= 1
    ensures e >= d && n < Scale(2 * b, s + e)
    ensures e > d ==> n >= Scale(b, s + e)
    decreases n - Scale(2 * b, s + d)
  {
    ScalePositive(b, s + d);
    ScalePositive(2 * b, s + d);
    if n < Scale(2 * b, s + d) then d else
      assert Scale(2 * b, s + (d + 1)) == 2 * Scale(2 * b, s + d);
      assert Scale(b, s + (d + 1)) == 2 * Scale(b, s + d);
      Binade(b, s, n, d + 1)
  }

  /** The code of the value nearest to `n`, ties to even, with no largest exponent. */
  function Encode(b: nat, s: nat, n: nat): nat
    requires b >= 1
  {
    var d := Binade(b, s, n, 0);
    Code(b, d, RoundEven(n, s + d))
  }

  /** The value coded by `u` in a format whose smallest subnormal is `2^s`. */
  function Value(b: nat, s: nat, u: nat): nat
    requires b >= 1
  {
    Scale(Mag(b, u), s)
  }

  function Dist(a: nat, b: nat): nat {
    if a < b then b - a else a - b
  }

  /**
   Rounding to nearest, ties to even: no value is nearer than that of `u`, and if another is as near
   then the significand of `u` is even.
   */
  ghost predicate IsNearestEven(b: nat, s: nat, n: nat, u: nat)
    requires b >= 1
  {
    forall v: nat :: NoNearer(b, s, n, u, v)
  }

  ghost predicate NoNearer(b: nat, s: nat, n: nat, u: nat, v: nat)
    requires b >= 1
  {
    && Dist(Value(b, s, u), n) <= Dist(Value(b, s, v), n)
    && (Dist(Value(b, s, u), n) == Dist(Value(b, s, v), n) && v != u ==> u % 2 == 0)
  }

  lemma ValueIncreases(b: nat, s: nat, u: nat, v: nat)
    requires b >= 1
    ensures u < v <==> Value(b, s, u) < Value(b, s, v)
    ensures u == v <==> Value(b, s, u) == Value(b, s, v)
  {
    if u < v {
      MagIncreases(b, u, v);
    } else if v < u {
      MagIncreases(b, v, u);
    }
    ScaleOrders(Mag(b, u), Mag(b, v), s);
    ScaleOrders(Mag(b, v), Mag(b, u), s);
  }

  /** A number rounded to `q` units of `2^k` has `q` among the significands of its binade. */
  lemma SignificandInRange(b: nat, k: nat, n: nat, q: nat)
    requires b >= 1 && n < Scale(2 * b, k) && IsRoundEven(n, k, q)
    ensures q <= 2 * b
    ensures n >= Scale(b, k) ==> q >= b
  {
    if q > 2 * b {
      ApartByUnits(2 * b, q, k);
    }
    if q < b {
      ApartByUnits(q, b, k);
    }
  }

  /** Codes of one binade are parity-true: its code is even exactly when its significand is. */
  lemma {:induction false} CodeParity(b: nat, d: nat, q: nat)
    requires b % 2 == 0
    ensures Code(b, d, q) % 2 == q % 2
  {
    if d > 0 {
      CodeParity(b, d - 1, q);
    }
  }

  lemma CodeValue(b: nat, s: nat, d: nat, q: nat)
    requires b >= 1 && q <= 2 * b && (d > 0 ==> q >= b)
    ensures Value(b, s, Code(b, d, q)) == Scale(q, s + d)
  {
    MagOfCode(b, d, q);
    ScaleScales(q, d, s);
    assert d + s == s + d;
  }

  /** The next value up is at least a unit away. */
  lemma ValueAbove(b: nat, s: nat, d: nat, q: nat, v: nat)
    requires b >= 1 && q <= 2 * b && (d > 0 ==> q >= b) && v > Code(b, d, q)
    ensures Value(b, s, v) >= Scale(q + 1, s + d)
  {
    hide Scale, Mag, Code;
    var u := Code(b, d, q) + 1;
    ValueIncreases(b, s, u, v);
    if q < 2 * b {
      NextCode(b, d, q);
      CodeValue(b, s, d, q + 1);
    } else {
      NextCode(b, d + 1, b);
      CarriedCode(b, d);
      CodeValue(b, s, d + 1, b + 1);
      ScalePositive(b + 1, s + d);
      ScaleOrders(q + 1, 2 * (b + 1), s + d);
    }
  }

  lemma {:induction false} NextCode(b: nat, d: nat, q: nat)
    ensures Code(b, d, q) + 1 == Code(b, d, q + 1)
  {
    if d > 0 {
      NextCode(b, d - 1, q);
    }
  }

  /** A significand that rounds up to the end of its binade is the first of the next. */
  lemma {:induction false} CarriedCode(b: nat, d: nat)
    ensures Code(b, d, 2 * b) == Code(b, d + 1, b)
  {
    if d > 0 {
      CarriedCode(b, d - 1);
    }
  }

  /** The next value down is a unit away, unless the code is the first of its binade. */
  lemma ValueBelow(b: nat, s: nat, d: nat, q: nat, v: nat)
    requires b >= 1 && q <= 2 * b && (d > 0 ==> q > b) && v < Code(b, d, q)
    ensures q >= 1 && Value(b, s, v) <= Scale(q - 1, s + d)
  {
    NextCode(b, d, q - 1);
    CodeValue(b, s, d, q - 1);
    ValueIncreases(b, s, v, Code(b, d, q - 1));
  }

  /** The encoder rounds to nearest with ties to even, for every number and every format. */
  lemma EncodeIsNearestEven(b: nat, s: nat, n: nat)
    requires b >= 1 && b % 2 == 0
    ensures IsNearestEven(b, s, n, Encode(b, s, n))
  {
    var d := Binade(b, s, n, 0);
    var k := s + d;
    var q := RoundEven(n, k);
    RoundEvenRounds(n, k);
    SignificandInRange(b, k, n, q);
    CodeParity(b, d, q);
    CodeValue(b, s, d, q);
    forall v: nat ensures NoNearer(b, s, n, Encode(b, s, n), v) {
      RoundedIsNearest(b, s, d, q, n, v);
    }
  }

  lemma RoundedIsNearest(b: nat, s: nat, d: nat, q: nat, n: nat, v: nat)
    requires b >= 1 && q <= 2 * b && (d > 0 ==> q >= b && n >= Scale(b, s + d))
    requires IsRoundEven(n, s + d, q)
    requires Value(b, s, Code(b, d, q)) == Scale(q, s + d) && Code(b, d, q) % 2 == q % 2
    ensures NoNearer(b, s, n, Code(b, d, q), v)
  {
    var k, u := s + d, Code(b, d, q);
    assert k == 0 ==> Scale(1, k) == 1;
    hide Scale, Mag, Code, Value;
    ValueIncreases(b, s, u, v);
    ValueIncreases(b, s, v, u);
    if v > u {
      ValueAbove(b, s, d, q, v);
      ScaleAdds(q, 1, k);
    } else if v < u && (d == 0 || q > b) {
      ValueBelow(b, s, d, q, v);
      ScaleAdds(q - 1, 1, k);
    }
  }

  // ---- Consequences --------------------------------------------------------------------------------

  /** Rounding to nearest never reverses an order, and the nearest even code of a number is one code. */
  lemma NearestIsMonotone(b: nat, s: nat, m: nat, n: nat, u: nat, v: nat)
    requires b >= 1 && m <= n && IsNearestEven(b, s, m, u) && IsNearestEven(b, s, n, v)
    ensures u <= v
  {
    if v < u {
      assert NoNearer(b, s, m, u, v + 1);
      assert NoNearer(b, s, m, u, v) && NoNearer(b, s, n, v, u);
      ValueIncreases(b, s, v, u);
      ValueIncreases(b, s, v, v + 1);
      ValueIncreases(b, s, v + 1, u);
    }
  }

  lemma EncodeIsMonotone(b: nat, s: nat, m: nat, n: nat)
    requires b >= 1 && b % 2 == 0 && m <= n
    ensures Encode(b, s, m) <= Encode(b, s, n)
  {
    EncodeIsNearestEven(b, s, m);
    EncodeIsNearestEven(b, s, n);
    NearestIsMonotone(b, s, m, n, Encode(b, s, m), Encode(b, s, n));
  }

  /** A number the format has is encoded as itself. */
  lemma EncodeExact(b: nat, s: nat, u: nat)
    requires b >= 1 && b % 2 == 0
    ensures Encode(b, s, Value(b, s, u)) == u
  {
    var n := Value(b, s, u);
    EncodeIsNearestEven(b, s, n);
    assert NoNearer(b, s, n, Encode(b, s, n), u);
    ValueIncreases(b, s, u, Encode(b, s, n));
  }

  lemma {:induction false} ScaleGrows(n: nat, j: nat, k: nat)
    requires j <= k
    ensures Scale(n, j) <= Scale(n, k)
    decreases k - j
  {
    if j < k {
      ScaleGrows(n, j, k - 1);
    }
  }

  /** The binade is the only one the number falls in. */
  lemma BinadeIs(b: nat, s: nat, n: nat, d: nat)
    requires b >= 1 && n < Scale(2 * b, s + d) && (d > 0 ==> n >= Scale(b, s + d))
    ensures Binade(b, s, n, 0) == d
  {
    var e := Binade(b, s, n, 0);
    ScalePositive(b, s + e);
    ScalePositive(b, s + d);
    if e < d {
      ScaleGrows(b, s + e + 1, s + d);
    } else if d < e {
      ScaleGrows(b, s + d + 1, s + e);
    }
  }

  lemma RoundEvenExact(n: nat, k: nat)
    ensures RoundEven(Scale(n, k), k) == n
  {
    if k == 0 {
      Divides(n, 1);
      assert n / 1 == n;
    } else {
      ScalePositive(1, k);
      RoundEvenIsUnique(Scale(n, k), k, n);
    }
  }

  /** A short enough integer, scaled, is encoded without loss whatever the precision it is scaled from. */
  lemma EncodeScaledExact(b: nat, m: nat, k: nat)
    requires b >= 1 && b % 2 == 0 && m < 2 * b
    ensures Mag(b, Encode(b, 0, Scale(m, k))) == Scale(m, k)
  {
    var n := Scale(m, k);
    var d := Binade(b, 0, n, 0);
    ScaleOrders(m, 2 * b, k);
    if d > k {
      ScalePositive(b, k);
      ScaleGrows(b, k + 1, d);
      assert false;
    }
    ScaleScales(m, k - d, d);
    RoundEvenExact(Scale(m, k - d), d);
    RoundEvenRounds(n, d);
    SignificandInRange(b, d, n, Scale(m, k - d));
    MagOfCode(b, d, Scale(m, k - d));
  }
}
