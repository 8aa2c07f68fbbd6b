/** Pooling and normalisation read over the reals: what the numbers mean once rounding is set aside. */
module RealVectors {
  import opened Pooling

  const NORM_FLOOR: real := 0.000000000001

  /** The product of two reals; naming it lets equal arguments be recognised as equal products. */
  function Times(a: real, b: real): real {
    a * b
  }

  ghost predicate IsSqrt(sqrt: real -> real) {
    forall x :: x >= 0.0 ==> sqrt(x) >= 0.0 && Times(sqrt(x), sqrt(x)) == x
  }

  /** The code's scalar operations over the reals; `bottom` stands in for minus infinity. */
  function RealScalars(sqrt: real -> real, bottom: real): Scalars<real> {
    Scalars(0.0, 1.0, bottom,
            (a: real, b: real) => a + b, (a: real, b: real) => Times(a, b),
            (a: real, b: real) => if b != 0.0 then a / b else 0.0,
            (a: real, b: real) => if a < b then b else a,
            sqrt, (x: real) => x > 0.0, (x: real) => x <= NORM_FLOOR)
  }

  ghost function Dot(a: seq<real>, b: seq<real>): real
    requires |a| == |b|
  {
    if a == [] then 0.0
    else Dot(a[..|a| - 1], b[..|b| - 1]) + Times(a[|a| - 1], b[|b| - 1])
  }

  ghost function Norm(sqrt: real -> real, v: seq<real>): real {
    sqrt(Dot(v, v))
  }

  ghost function Normalized(sqrt: real -> real, bottom: real, v: seq<real>): (u: seq<real>)
    ensures |u| == |v|
  {
    NormalizeRow(RealScalars(sqrt, bottom), v)
  }

  // ---- Products of reals -----------------------------------------------------

  lemma TimesPositive(a: real, b: real)
    requires a > 0.0 && b > 0.0
    ensures Times(a, b) > 0.0
  {
  }

  lemma TimesMonotone(a: real, b: real, c: real)
    requires a <= b && c >= 0.0
    ensures Times(a, c) <= Times(b, c)
  {
  }

  lemma TimesDistributes(a: real, b: real, c: real)
    ensures Times(a, b + c) == Times(a, b) + Times(a, c)
    ensures Times(b + c, a) == Times(b, a) + Times(c, a)
  {
  }

  lemma TimesScaled(a: real, b: real, k: real, l: real)
    ensures Times(Times(k, a), Times(l, b)) == Times(Times(k, l), Times(a, b))
  {
    assert (k * a) * (l * b) == (k * l) * (a * b);
  }

  lemma SquareNonNegative(a: real)
    ensures Times(a, a) >= 0.0
  {
    if a >= 0.0 {
      TimesMonotone(0.0, a, a);
    } else {
      TimesMonotone(0.0, -a, -a);
      assert Times(-a, -a) == Times(a, a);
    }
  }

  /** A product by a positive factor that leaves it unchanged is a product by one. */
  lemma CancelFactor(a: real, x: real)
    requires a > 0.0 && a == Times(a, x)
    ensures x == 1.0
  {
    if x < 1.0 {
      TimesPositive(a, 1.0 - x);
      TimesDistributes(a, x, 1.0 - x);
    } else if x > 1.0 {
      TimesPositive(a, x - 1.0);
      TimesDistributes(a, 1.0, x - 1.0);
    }
  }

  lemma UnitRoot(n: real)
    requires n >= 0.0
    ensures Times(n, n) == 1.0 <==> n == 1.0
    ensures n < 1.0 ==> Times(n, n) < 1.0
  {
    if n < 1.0 {
      TimesMonotone(n, 1.0, n);
    } else {
      TimesMonotone(1.0, n, n);
    }
  }

  // ---- Normalisation -----------------------------------------------------------

  lemma {:induction false} SquaresAreDot(sqrt: real -> real, bottom: real, v: seq<real>)
    ensures SumOfSquares(RealScalars(sqrt, bottom), v) == Dot(v, v)
  {
    if v != [] {
      SquaresAreDot(sqrt, bottom, v[..|v| - 1]);
    }
  }

  lemma {:induction false} DotNonNegative(v: seq<real>)
    ensures Dot(v, v) >= 0.0
  {
    if v != [] {
      DotNonNegative(v[..|v| - 1]);
      SquareNonNegative(v[|v| - 1]);
    }
  }

  /** The inner product is linear in each argument. */
  lemma {:induction false} DotScales(u: seq<real>, v: seq<real>, k: real, w: seq<real>, x: seq<real>, l: real)
    requires |u| == |v| == |w| == |x|
    requires forall d :: 0 <= d < |u| ==> v[d] == Times(k, u[d])
    requires forall d :: 0 <= d < |w| ==> x[d] == Times(l, w[d])
    ensures Dot(v, x) == Times(Times(k, l), Dot(u, w))
  {
    if u != [] {
      var n := |u| - 1;
      DotScales(u[..n], v[..n], k, w[..n], x[..n], l);
      TimesScaled(u[n], w[n], k, l);
      TimesDistributes(Times(k, l), Dot(u[..n], w[..n]), Times(u[n], w[n]));
    }
  }

  /** A row above the floor keeps its direction: it is its normalised form scaled by its norm. */
  lemma DirectionKept(sqrt: real -> real, bottom: real, v: seq<real>)
    ensures var u := Normalized(sqrt, bottom, v);
        if Norm(sqrt, v) > NORM_FLOOR then forall d :: 0 <= d < |v| ==> v[d] == Times(Norm(sqrt, v), u[d])
        else u == v
  {
    SquaresAreDot(sqrt, bottom, v);
  }

  lemma CosineEquation(sqrt: real -> real, bottom: real, v: seq<real>, w: seq<real>)
    requires |v| == |w| && Norm(sqrt, v) > NORM_FLOOR && Norm(sqrt, w) > NORM_FLOOR
    ensures Dot(v, w) == Times(Times(Norm(sqrt, v), Norm(sqrt, w)),
                               Dot(Normalized(sqrt, bottom, v), Normalized(sqrt, bottom, w)))
  {
    DirectionKept(sqrt, bottom, v);
    DirectionKept(sqrt, bottom, w);
    DotScales(Normalized(sqrt, bottom, v), v, Norm(sqrt, v), Normalized(sqrt, bottom, w), w, Norm(sqrt, w));
  }

  /** A row comes out at unit length exactly when its norm is above the floor, and otherwise as it was. */
  lemma UnitLength(sqrt: real -> real, bottom: real, v: seq<real>)
    requires IsSqrt(sqrt)
    ensures var u := Normalized(sqrt, bottom, v);
        && (Dot(u, u) == 1.0 <==> Norm(sqrt, v) > NORM_FLOOR)
        && (Norm(sqrt, v) <= NORM_FLOOR ==> u == v)
  {
    var u := Normalized(sqrt, bottom, v);
    var n := Norm(sqrt, v);
    DotNonNegative(v);
    if n > NORM_FLOOR {
      CosineEquation(sqrt, bottom, v, v);
      TimesPositive(n, n);
      CancelFactor(Dot(v, v), Dot(u, u));
    } else {
      DirectionKept(sqrt, bottom, v);
      UnitRoot(n);
    }
  }

  /** Normalising a second time changes nothing, whatever the row. */
  lemma NormalizeTwice(sqrt: real -> real, bottom: real, v: seq<real>)
    requires IsSqrt(sqrt)
    ensures Normalized(sqrt, bottom, Normalized(sqrt, bottom, v)) == Normalized(sqrt, bottom, v)
  {
    var u := Normalized(sqrt, bottom, v);
    if Norm(sqrt, v) > NORM_FLOOR {
      UnitLength(sqrt, bottom, v);
      UnitRoot(Norm(sqrt, u));
      SquaresAreDot(sqrt, bottom, u);
    } else {
      DirectionKept(sqrt, bottom, v);
    }
  }

  /** The square of the combination `a + k * b` is not negative. */
  lemma {:induction false} SquareOfCombination(a: seq<real>, b: seq<real>, k: real)
    requires |a| == |b| && (k == 1.0 || k == -1.0)
    ensures Dot(a, a) + 2.0 * Times(k, Dot(a, b)) + Dot(b, b) >= 0.0
  {
    if a != [] {
      var n := |a| - 1;
      SquareOfCombination(a[..n], b[..n], k);
      var x, y := a[n], b[n];
      SquareNonNegative(x + k * y);
      assert Times(x + k * y, x + k * y) == Times(x, x) + 2.0 * Times(k, Times(x, y)) + Times(y, y);
      TimesDistributes(k, Dot(a[..n], b[..n]), Times(x, y));
    }
  }

  /** Cauchy-Schwarz for unit vectors. */
  lemma UnitInnerProduct(a: seq<real>, b: seq<real>)
    requires |a| == |b| && Dot(a, a) == 1.0 && Dot(b, b) == 1.0
    ensures -1.0 <= Dot(a, b) <= 1.0
  {
    SquareOfCombination(a, b, 1.0);
    SquareOfCombination(a, b, -1.0);
  }

  /**
   For two rows above the floor the inner product of the normalised rows is the cosine of the
   originals, and it lies in [-1, 1].
   */
  lemma InnerProductIsCosine(sqrt: real -> real, bottom: real, v: seq<real>, w: seq<real>)
    requires IsSqrt(sqrt) && |v| == |w|
    requires Norm(sqrt, v) > NORM_FLOOR && Norm(sqrt, w) > NORM_FLOOR
    ensures var cosine := Dot(Normalized(sqrt, bottom, v), Normalized(sqrt, bottom, w));
        && Dot(v, w) == Times(Times(Norm(sqrt, v), Norm(sqrt, w)), cosine)
        && -1.0 <= cosine <= 1.0
  {
    CosineEquation(sqrt, bottom, v, w);
    UnitLength(sqrt, bottom, v);
    UnitLength(sqrt, bottom, w);
    UnitInnerProduct(Normalized(sqrt, bottom, v), Normalized(sqrt, bottom, w));
  }

  // ---- Pooling ---------------------------------------------------------------

  ghost function ColumnSum(vs: seq<seq<real>>, dim: nat, d: nat): real
    requires AllWide(vs, dim) && d < dim
  {
    if vs == [] then 0.0 else ColumnSum(vs[..|vs| - 1], dim, d) + vs[|vs| - 1][d]
  }

  ghost predicate Between(vs: seq<seq<real>>, dim: nat, d: nat, low: real, high: real)
    requires AllWide(vs, dim) && d < dim
  {
    forall i :: 0 <= i < |vs| ==> low <= vs[i][d] <= high
  }

  lemma {:induction false} CountIsLength(sqrt: real -> real, bottom: real, n: nat)
    ensures Count(RealScalars(sqrt, bottom), n) == n as real
  {
    if n > 0 {
      CountIsLength(sqrt, bottom, n - 1);
    }
  }

  lemma {:induction false} FoldIsColumnSum(sqrt: real -> real, bottom: real, vs: seq<seq<real>>, dim: nat, d: nat)
    requires AllWide(vs, dim) && d < dim
    ensures Fold(RealScalars(sqrt, bottom).add, 0.0, vs, dim)[d] == ColumnSum(vs, dim, d)
  {
    if vs != [] {
      FoldIsColumnSum(sqrt, bottom, vs[..|vs| - 1], dim, d);
    }
  }

  lemma {:induction false} SumBetween(vs: seq<seq<real>>, dim: nat, d: nat, low: real, high: real)
    requires AllWide(vs, dim) && d < dim && Between(vs, dim, d, low, high)
    ensures Times(low, |vs| as real) <= ColumnSum(vs, dim, d) <= Times(high, |vs| as real)
  {
    if vs != [] {
      var n := |vs| - 1;
      SumBetween(vs[..n], dim, d, low, high);
      TimesDistributes(low, n as real, 1.0);
      TimesDistributes(high, n as real, 1.0);
    }
  }

  /**
   Mean pooling is the arithmetic mean of the unmasked tokens in every coordinate, so it stays
   within any bounds they share; a row with no unmasked token pools to the zero vector.
   */
  lemma MeanIsAverage(sqrt: real -> real, bottom: real, vs: seq<seq<real>>, dim: nat, d: nat, low: real, high: real)
    requires AllWide(vs, dim) && d < dim
    ensures var mean := Reduce(RealScalars(sqrt, bottom), MeanTokens, vs, dim)[d];
        && Times(mean, |vs| as real) == ColumnSum(vs, dim, d)
        && (vs != [] && Between(vs, dim, d, low, high) ==> low <= mean <= high)
        && (vs == [] ==> mean == 0.0)
  {
    CountIsLength(sqrt, bottom, |vs|);
    FoldIsColumnSum(sqrt, bottom, vs, dim, d);
    if vs != [] && Between(vs, dim, d, low, high) {
      SumBetween(vs, dim, d, low, high);
      var n, sum := |vs| as real, ColumnSum(vs, dim, d);
      QuotientBetween(sum, n, low, high);
    }
  }

  lemma QuotientBetween(sum: real, n: real, low: real, high: real)
    requires n > 0.0 && Times(low, n) <= sum <= Times(high, n)
    ensures low <= sum / n <= high && Times(sum / n, n) == sum
  {
    var q := sum / n;
    if q < low {
      TimesPositive(low - q, n);
      TimesDistributes(n, q, low - q);
    } else if q > high {
      TimesPositive(q - high, n);
      TimesDistributes(n, high, q - high);
    }
  }

  /** Max pooling is an upper bound of the unmasked tokens that one of them attains. */
  lemma {:induction false} MaxIsAttained(sqrt: real -> real, bottom: real, vs: seq<seq<real>>, dim: nat, d: nat)
    returns (at: nat)
    requires AllWide(vs, dim) && d < dim && vs != []
    requires forall i :: 0 <= i < |vs| ==> bottom <= vs[i][d]
    ensures at < |vs| && Reduce(RealScalars(sqrt, bottom), MaxTokens, vs, dim)[d] == vs[at][d]
    ensures forall i :: 0 <= i < |vs| ==> vs[i][d] <= vs[at][d]
  {
    var n := |vs| - 1;
    var s := RealScalars(sqrt, bottom);
    if n == 0 {
      assert vs[..0] == [];
      at := 0;
      assert Reduce(s, MaxTokens, vs, dim) == Zip(s.max, Fold(s.max, bottom, vs[..0], dim), vs[0]);
    } else {
      var before := MaxIsAttained(sqrt, bottom, vs[..n], dim, d);
      assert Reduce(s, MaxTokens, vs[..n], dim)[d] == vs[before][d];
      at := if vs[before][d] < vs[n][d] then n else before;
      forall i | 0 <= i < |vs| ensures vs[i][d] <= vs[at][d] {
        assert i < n ==> vs[..n][i] == vs[i];
      }
    }
  }
}
