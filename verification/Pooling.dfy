/**
 Pooling: a row's hidden states become one vector. Normalising: that vector is scaled to unit length.

 The scalar type and its operations are parameters, so every statement here holds for IEEE
 single precision with its rounding as much as for the reals.
 */
module Pooling {
  import opened Flat

  datatype Mode = ClsToken | MeanTokens | MaxTokens

  /** The scalar operations the code uses; `tiny(x)` stands for `x <= 1e-12f`, `positive(x)` for `x > 0`. */
  datatype Scalars<!F> = Scalars(
    zero: F, one: F, negInf: F,
    add: (F, F) -> F, mul: (F, F) -> F, div: (F, F) -> F, max: (F, F) -> F,
    sqrt: F -> F, positive: F -> bool, tiny: F -> bool)

  // ---- What pooling means -------------------------------------------------

  function Zip<F>(f: (F, F) -> F, a: seq<F>, b: seq<F>): (c: seq<F>)
    requires |a| == |b|
    ensures |c| == |a|
    ensures forall d :: 0 <= d < |a| ==> c[d] == f(a[d], b[d])
  {
    seq(|a|, d requires 0 <= d < |a| => f(a[d], b[d]))
  }

  function Scale<F>(s: Scalars<F>, a: seq<F>, divisor: F): (c: seq<F>)
    ensures |c| == |a|
    ensures forall d :: 0 <= d < |a| ==> c[d] == s.div(a[d], divisor)
  {
    seq(|a|, d requires 0 <= d < |a| => s.div(a[d], divisor))
  }

  ghost predicate AllWide<F>(vs: seq<seq<F>>, dim: nat) {
    forall i :: 0 <= i < |vs| ==> |vs[i]| == dim
  }

  /** Left fold of a coordinate-wise operation over vectors, in order. */
  ghost function Fold<F>(f: (F, F) -> F, start: F, vs: seq<seq<F>>, dim: nat): (v: seq<F>)
    requires AllWide(vs, dim)
    ensures |v| == dim
  {
    if vs == [] then seq(dim, _ => start)
    else Zip(f, Fold(f, start, vs[..|vs| - 1], dim), vs[|vs| - 1])
  }

  /** The scalar reached by adding one `n` times. */
  ghost function Count<F>(s: Scalars<F>, n: nat): F {
    if n == 0 then s.zero else s.add(Count(s, n - 1), s.one)
  }

  ghost function Divisor<F>(s: Scalars<F>, n: nat): F {
    if s.positive(Count(s, n)) then Count(s, n) else s.one
  }

  /** Pooling of a list of token vectors: this is the definition that knows nothing of padding. */
  ghost function Reduce<F>(s: Scalars<F>, mode: Mode, vs: seq<seq<F>>, dim: nat): (v: seq<F>)
    requires AllWide(vs, dim)
    requires mode.ClsToken? ==> vs != []
    ensures |v| == dim
  {
    match mode
    case ClsToken => vs[0]
    case MaxTokens => Fold(s.max, s.negInf, vs, dim)
    case MeanTokens => Scale(s, Fold(s.add, s.zero, vs, dim), Divisor(s, |vs|))
  }

  /** The vectors of the unmasked positions among the first `t`, in order. */
  ghost function Kept<F>(row: seq<F>, mask: seq<int>, dim: nat, t: nat): (vs: seq<seq<F>>)
    requires t <= |mask| && Offset(t, dim) <= |row|
    ensures AllWide(vs, dim) && |vs| <= t
  {
    if t == 0 then [] else
      RowFits(t - 1, t, dim);
      Kept(row, mask, dim, t - 1) + if mask[t - 1] != 0 then [Row(row, t - 1, dim)] else []
  }

  /** What the code computes for one padded row. */
  ghost function PoolRow<F>(s: Scalars<F>, mode: Mode, row: seq<F>, mask: seq<int>, dim: nat): (v: seq<F>)
    requires |row| == Offset(|mask|, dim)
    requires mode.ClsToken? ==> |mask| >= 1
    ensures |v| == dim
  {
    if mode.ClsToken? then
      RowFits(0, |mask|, dim);
      Row(row, 0, dim)
    else
      Reduce(s, mode, Kept(row, mask, dim, |mask|), dim)
  }

  ghost function SumOfSquares<F>(s: Scalars<F>, v: seq<F>): F {
    if v == [] then s.zero
    else s.add(SumOfSquares(s, v[..|v| - 1]), s.mul(v[|v| - 1], v[|v| - 1]))
  }

  ghost function NormalizeRow<F>(s: Scalars<F>, v: seq<F>): (u: seq<F>)
    ensures |u| == |v|
  {
    var norm := s.sqrt(SumOfSquares(s, v));
    if s.tiny(norm) then v else Scale(s, v, norm)
  }

  // ---- Masked columns change nothing ---------------------------------------

  /** Columns masked out of a row contribute nothing, wherever they stand and whatever they hold. */
  lemma {:induction false} KeptIgnoresMasked<F>(row: seq<F>, mask: seq<int>, row': seq<F>, mask': seq<int>, dim: nat,
                                                t: nat)
    requires t <= |mask| && t <= |mask'| && Offset(t, dim) <= |row| && Offset(t, dim) <= |row'|
    requires forall i :: 0 <= i < t ==> mask[i] == mask'[i]
    requires forall i {:trigger mask[i]} :: 0 <= i < t && mask[i] != 0 ==>
        Offset(i, dim) + dim <= |row| && Offset(i, dim) + dim <= |row'| && Row(row, i, dim) == Row(row', i, dim)
    ensures Kept(row, mask, dim, t) == Kept(row', mask', dim, t)
  {
    if t > 0 {
      RowFits(t - 1, t, dim);
      KeptIgnoresMasked(row, mask, row', mask', dim, t - 1);
    }
  }

  /** Appending any number of masked columns changes neither mean nor max; nor cls, once a first column exists. */
  lemma {:induction false} PaddingIsIgnored<F>(s: Scalars<F>, mode: Mode, row: seq<F>, mask: seq<int>,
                                               wide: seq<F>, wideMask: seq<int>, dim: nat)
    requires |row| == Offset(|mask|, dim) && |wide| == Offset(|wideMask|, dim)
    requires row <= wide && mask <= wideMask
    requires forall t :: |mask| <= t < |wideMask| ==> wideMask[t] == 0
    requires mode.ClsToken? ==> |mask| >= 1
    ensures PoolRow(s, mode, wide, wideMask, dim) == PoolRow(s, mode, row, mask, dim)
  {
    if mode.ClsToken? {
      RowFits(0, |mask|, dim);
    } else {
      forall i | 0 <= i < |mask| ensures Offset(i, dim) + dim <= |row| && Row(row, i, dim) == Row(wide, i, dim) {
        RowFits(i, |mask|, dim);
      }
      KeptIgnoresMasked(row, mask, wide, wideMask, dim, |mask|);
      TrailingMasked(wide, wideMask, dim, |mask|, |wideMask|);
    }
  }

  lemma {:induction false} TrailingMasked<F>(row: seq<F>, mask: seq<int>, dim: nat, from: nat, t: nat)
    requires from <= t <= |mask| && Offset(t, dim) <= |row| && Offset(from, dim) <= |row|
    requires forall i :: from <= i < t ==> mask[i] == 0
    ensures Kept(row, mask, dim, t) == Kept(row, mask, dim, from)
  {
    if from < t {
      RowFits(t - 1, t, dim);
      TrailingMasked(row, mask, dim, from, t - 1);
    }
  }

  // ---- The code -------------------------------------------------------------

  /** The inner coordinate loop: folds one token's vector into the destination. */
  method Accumulate<F>(f: (F, F) -> F, out: array<F>, dest: nat, hidden: seq<F>, src: nat, dim: nat)
    requires dest + dim <= out.Length && src + dim <= |hidden|
    modifies out
    ensures out[dest..dest + dim] == Zip(f, old(out[dest..dest + dim]), hidden[src..src + dim])
    ensures forall k :: 0 <= k < out.Length && !(dest <= k < dest + dim) ==> out[k] == old(out[k])
  {
    for d := 0 to dim
      invariant forall k :: dest <= k < dest + d ==> out[k] == f(old(out[k]), hidden[src + (k - dest)])
      invariant forall k :: 0 <= k < out.Length && !(dest <= k < dest + d) ==> out[k] == old(out[k])
    {
      out[dest + d] := f(out[dest + d], hidden[src + d]);
    }
  }

  method Fill<F>(out: array<F>, dest: nat, dim: nat, x: F)
    requires dest + dim <= out.Length
    modifies out
    ensures out[dest..dest + dim] == seq(dim, _ => x)
    ensures forall k :: 0 <= k < out.Length && !(dest <= k < dest + dim) ==> out[k] == old(out[k])
  {
    for d := 0 to dim
      invariant forall k :: dest <= k < dest + d ==> out[k] == x
      invariant forall k :: 0 <= k < out.Length && !(dest <= k < dest + d) ==> out[k] == old(out[k])
    {
      out[dest + d] := x;
    }
  }

  method CopyTo<F>(src: seq<F>, out: array<F>, dest: nat)
    requires dest + |src| <= out.Length
    modifies out
    ensures out[dest..dest + |src|] == src
    ensures forall k :: 0 <= k < out.Length && !(dest <= k < dest + |src|) ==> out[k] == old(out[k])
  {
    for d := 0 to |src|
      invariant forall k :: 0 <= k < d ==> out[dest + k] == src[k]
      invariant forall k :: 0 <= k < out.Length && !(dest <= k < dest + d) ==> out[k] == old(out[k])
    {
      out[dest + d] := src[d];
    }
  }

  method DivideBy<F>(s: Scalars<F>, out: array<F>, dest: nat, dim: nat, divisor: F)
    requires dest + dim <= out.Length
    modifies out
    ensures out[dest..dest + dim] == Scale(s, old(out[dest..dest + dim]), divisor)
    ensures forall k :: 0 <= k < out.Length && !(dest <= k < dest + dim) ==> out[k] == old(out[k])
  {
    for d := 0 to dim
      invariant forall k :: dest <= k < dest + d ==> out[k] == s.div(old(out[k]), divisor)
      invariant forall k :: 0 <= k < out.Length && !(dest <= k < dest + d) ==> out[k] == old(out[k])
    {
      out[dest + d] := s.div(out[dest + d], divisor);
    }
  }

  lemma {:induction false} FoldStep<F>(s: Scalars<F>, f: (F, F) -> F, start: F, row: seq<F>, mask: seq<int>,
                                       dim: nat, t: nat)
    requires t < |mask| && Offset(t, dim) + dim <= |row|
    ensures var kept, next := Kept(row, mask, dim, t), Kept(row, mask, dim, t + 1);
        if mask[t] == 0 then next == kept else
          && |next| == |kept| + 1
          && Fold(f, start, next, dim) == Zip(f, Fold(f, start, kept, dim), Row(row, t, dim))
  {
    var kept, next := Kept(row, mask, dim, t), Kept(row, mask, dim, t + 1);
    if mask[t] != 0 {
      assert next == kept + [Row(row, t, dim)];
      assert next[..|kept|] == kept;
    }
  }

  /** Folds the unmasked tokens of one row into the destination block, counting them. */
  method FoldTokens<F>(s: Scalars<F>, f: (F, F) -> F, start: F, row: seq<F>, mask: seq<int>, dim: nat,
                       out: array<F>, dest: nat) returns (count: F)
    requires |row| == Offset(|mask|, dim) && dest + dim <= out.Length
    modifies out
    ensures out[dest..dest + dim] == Fold(f, start, Kept(row, mask, dim, |mask|), dim)
    ensures count == Count(s, |Kept(row, mask, dim, |mask|)|)
    ensures forall k :: 0 <= k < out.Length && !(dest <= k < dest + dim) ==> out[k] == old(out[k])
  {
    Fill(out, dest, dim, start);
    count := s.zero;
    for t := 0 to |mask|
      invariant Offset(t, dim) <= |row|
      invariant out[dest..dest + dim] == Fold(f, start, Kept(row, mask, dim, t), dim)
      invariant count == Count(s, |Kept(row, mask, dim, t)|)
      invariant forall k :: 0 <= k < out.Length && !(dest <= k < dest + dim) ==> out[k] == old(out[k])
    {
      count := FoldToken(s, f, start, row, mask, dim, t, count, out, dest);
    }
  }

  /** One turn of the token loop: a masked token is skipped, an unmasked one counted and folded in. */
  method FoldToken<F>(s: Scalars<F>, f: (F, F) -> F, start: F, row: seq<F>, mask: seq<int>, dim: nat, t: nat,
                      count: F, out: array<F>, dest: nat) returns (next: F)
    requires t < |mask| && |row| == Offset(|mask|, dim) && dest + dim <= out.Length
    requires Offset(t, dim) <= |row| && count == Count(s, |Kept(row, mask, dim, t)|)
    requires out[dest..dest + dim] == Fold(f, start, Kept(row, mask, dim, t), dim)
    modifies out
    ensures Offset(t + 1, dim) <= |row| && next == Count(s, |Kept(row, mask, dim, t + 1)|)
    ensures out[dest..dest + dim] == Fold(f, start, Kept(row, mask, dim, t + 1), dim)
    ensures forall k :: 0 <= k < out.Length && !(dest <= k < dest + dim) ==> out[k] == old(out[k])
  {
    RowFits(t, |mask|, dim);
    FoldStep(s, f, start, row, mask, dim, t);
    next := count;
    if mask[t] != 0 {
      next := s.add(count, s.one);
      Accumulate(f, out, dest, row, Offset(t, dim), dim);
    }
  }

  /** One pass of the outer loop of `pool`: one row pooled into the block at `dest`. */
  method PoolRowInto<F>(s: Scalars<F>, mode: Mode, row: seq<F>, mask: seq<int>, dim: nat, out: array<F>, dest: nat)
    requires |row| == Offset(|mask|, dim) && dest + dim <= out.Length
    requires mode.ClsToken? ==> |mask| >= 1
    modifies out
    ensures out[dest..dest + dim] == PoolRow(s, mode, row, mask, dim)
    ensures forall k :: 0 <= k < out.Length && !(dest <= k < dest + dim) ==> out[k] == old(out[k])
  {
    match mode {
      case ClsToken =>
        RowFits(0, |mask|, dim);
        CopyTo(row[..dim], out, dest);
      case MaxTokens =>
        var _ := FoldTokens(s, s.max, s.negInf, row, mask, dim, out, dest);
      case MeanTokens =>
        var count := FoldTokens(s, s.add, s.zero, row, mask, dim, out, dest);
        var divisor := if s.positive(count) then count else s.one;
        DivideBy(s, out, dest, dim, divisor);
    }
  }

  /** `pool`: one vector per row, rows written to consecutive blocks of `out`. */
  method Pool<F>(s: Scalars<F>, hidden: seq<F>, mask: seq<int>, rows: nat, width: nat, dim: nat, mode: Mode,
                 out: array<F>)
    requires |hidden| == Offset(rows, Offset(width, dim)) && |mask| == Offset(rows, width)
    requires out.Length == Offset(rows, dim)
    requires mode.ClsToken? ==> width >= 1
    modifies out
    ensures forall r :: 0 <= r < rows ==>
        PooledAt(s, mode, hidden, mask, rows, width, dim, out[..], r)
  {
    hide PoolRow;
    for r := 0 to rows
      invariant forall q :: 0 <= q < r ==> PooledAt(s, mode, hidden, mask, rows, width, dim, out[..], q)
    {
      label before:
      RowFits(r, rows, Offset(width, dim));
      RowFits(r, rows, width);
      RowFits(r, rows, dim);
      var dest := Offset(r, dim);
      PoolRowInto(s, mode, Row(hidden, r, Offset(width, dim)), Row(mask, r, width), dim, out, dest);
      assert Row(out[..], r, dim) == out[dest..dest + dim];
      forall q | 0 <= q < r ensures PooledAt(s, mode, hidden, mask, rows, width, dim, out[..], q) {
        RowUntouched(old@before(out[..]), out[..], r, q, rows, dim);
        assert PooledAt(s, mode, hidden, mask, rows, width, dim, old@before(out[..]), q);
      }
    }
  }

  ghost predicate PooledAt<F>(s: Scalars<F>, mode: Mode, hidden: seq<F>, mask: seq<int>,
                              rows: nat, width: nat, dim: nat, out: seq<F>, r: nat)
    requires r < rows
    requires |hidden| == Offset(rows, Offset(width, dim)) && |mask| == Offset(rows, width) && |out| == Offset(rows, dim)
    requires mode.ClsToken? ==> width >= 1
  {
    RowFits(r, rows, Offset(width, dim));
    RowFits(r, rows, width);
    RowFits(r, rows, dim);
    Row(out, r, dim) == PoolRow(s, mode, Row(hidden, r, Offset(width, dim)), Row(mask, r, width), dim)
  }

  /** One pass of the outer loop of `l2_normalize`, on the block starting at `at`. */
  method NormalizeRowAt<F>(s: Scalars<F>, vectors: array<F>, at: nat, dim: nat)
    requires at + dim <= vectors.Length
    modifies vectors
    ensures vectors[at..at + dim] == NormalizeRow(s, old(vectors[at..at + dim]))
    ensures forall k :: 0 <= k < vectors.Length && !(at <= k < at + dim) ==> vectors[k] == old(vectors[k])
  {
    var sum := s.zero;
    for d := 0 to dim
      invariant sum == SumOfSquares(s, vectors[at..at + d])
    {
      assert vectors[at..at + (d + 1)][..d] == vectors[at..at + d];
      sum := s.add(sum, s.mul(vectors[at + d], vectors[at + d]));
    }
    var norm := s.sqrt(sum);
    if !s.tiny(norm) {
      DivideBy(s, vectors, at, dim, norm);
    }
  }

  /** `l2_normalize`: each row is scaled in place, and rows do not interfere. */
  method L2Normalize<F>(s: Scalars<F>, vectors: array<F>, rows: nat, dim: nat)
    requires vectors.Length == Offset(rows, dim)
    modifies vectors
    ensures forall r :: 0 <= r < rows ==> NormalizedAt(s, old(vectors[..]), vectors[..], rows, dim, r)
  {
    hide NormalizedAt, NormalizeRow;
    for r := 0 to rows
      invariant forall q :: 0 <= q < r ==> NormalizedAt(s, old(vectors[..]), vectors[..], rows, dim, q)
      invariant forall k :: Offset(r, dim) <= k < vectors.Length ==> vectors[k] == old(vectors[k])
    {
      RowFits(r, rows, dim);
      ghost var before := vectors[..];
      NormalizeRowAt(s, vectors, Offset(r, dim), dim);
      NormalizedStep(s, old(vectors[..]), before, vectors[..], rows, dim, r);
    }
  }

  lemma NormalizedStep<F>(s: Scalars<F>, start: seq<F>, before: seq<F>, after: seq<F>, rows: nat, dim: nat, r: nat)
    requires r < rows && |start| == |before| == |after| == Offset(rows, dim)
    requires Offset(r, dim) + dim <= Offset(rows, dim)
    requires forall q :: 0 <= q < r ==> NormalizedAt(s, start, before, rows, dim, q)
    requires forall k :: Offset(r, dim) <= k < |start| ==> before[k] == start[k]
    requires Row(after, r, dim) == NormalizeRow(s, Row(before, r, dim))
    requires forall k :: 0 <= k < |start| && !(Offset(r, dim) <= k < Offset(r, dim) + dim) ==> after[k] == before[k]
    ensures forall q :: 0 <= q <= r ==> NormalizedAt(s, start, after, rows, dim, q)
  {
    assert Row(before, r, dim) == Row(start, r, dim);
    forall q | 0 <= q < r ensures NormalizedAt(s, start, after, rows, dim, q) {
      assert NormalizedAt(s, start, before, rows, dim, q);
      RowUntouched(before, after, r, q, rows, dim);
    }
  }

  ghost predicate NormalizedAt<F>(s: Scalars<F>, before: seq<F>, after: seq<F>, rows: nat, dim: nat, r: nat)
    requires r < rows && |before| == |after| == Offset(rows, dim)
  {
    RowFits(r, rows, dim);
    Row(after, r, dim) == NormalizeRow(s, Row(before, r, dim))
  }
}
