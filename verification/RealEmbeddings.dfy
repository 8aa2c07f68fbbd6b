/** What a call of `encode` leaves in its buffer, read over the reals. */
module RealEmbeddings {
  import opened Pooling
  import opened RealVectors
  import opened Encode
  import opened BatchingMeaning

  /**
   The vector of a text, given the pooled states `p` of its tokens: of a model that normalises it has
   length one and the direction of `p`, unless the norm of `p` is at most 10^-12; otherwise it is `p`.
   */
  lemma VectorIsUnitLength(sqrt: real -> real, bottom: real, m: Session<real>, states: seq<int> -> seq<seq<real>>,
                           prefix: string, call: Call<real>, i: nat)
    requires IsSqrt(sqrt) && m.scalars == RealScalars(sqrt, bottom)
    requires MasksPadding(m, states) && InBounds(m, call)
    requires i < |call.texts| && Determined(m, call.tokens[i])
    requires Ended(m, prefix, Ok, call)
    ensures var v, p := Vector(m, call, i), Reduce(m.scalars, m.pooling, states(AsInts(call.tokens[i])), m.dim);
        if m.normalize && sqrt(Dot(p, p)) > 0.000000000001
        then Dot(v, v) == 1.0 && forall d :: 0 <= d < |p| ==> p[d] == Times(sqrt(Dot(p, p)), v[d])
        else v == p
  {
    hide IsSqrt, Dot, Times, RealScalars, Ended, Vector, MasksPadding, Reduce, Finish;
    EveryRowIsItsEmbedding(m, states, prefix, call, i);
    var p := PooledAlone(m, states, call.tokens[i]);
    FinishedVector(sqrt, bottom, m, p);
  }

  lemma PooledAlone<F>(m: Session<F>, states: seq<int> -> seq<seq<F>>, ids: seq<nat>) returns (p: seq<F>)
    requires MasksPadding(m, states) && Determined(m, ids)
    ensures p == Reduce(m.scalars, m.pooling, states(AsInts(ids)), m.dim) && Embedding(m, states, ids) == Finish(m, p)
  {
    p := Reduce(m.scalars, m.pooling, states(AsInts(ids)), m.dim);
  }

  lemma FinishedVector(sqrt: real -> real, bottom: real, m: Session<real>, p: seq<real>)
    requires IsSqrt(sqrt) && m.scalars == RealScalars(sqrt, bottom)
    ensures var v := Finish(m, p);
        if m.normalize && sqrt(Dot(p, p)) > 0.000000000001
        then Dot(v, v) == 1.0 && forall d :: 0 <= d < |p| ==> p[d] == Times(sqrt(Dot(p, p)), v[d])
        else v == p
  {
    hide IsSqrt, Dot, NormalizeRow, Times;
    UnitLength(sqrt, bottom, p);
    DirectionKept(sqrt, bottom, p);
  }

  /** And what the pooled states are: the first token's, or in each coordinate the average or the greatest. */
  lemma PooledStates(sqrt: real -> real, bottom: real, m: Session<real>, vs: seq<seq<real>>, d: nat)
    requires m.scalars == RealScalars(sqrt, bottom) && AllWide(vs, m.dim) && d < m.dim && vs != []
    requires forall i :: 0 <= i < |vs| ==> bottom <= vs[i][d]
    ensures var x := Reduce(m.scalars, m.pooling, vs, m.dim)[d];
        && (m.pooling == ClsToken ==> x == vs[0][d])
        && (m.pooling == MeanTokens ==> Times(x, |vs| as real) == ColumnSum(vs, m.dim, d))
        && (m.pooling == MaxTokens ==> (forall i :: 0 <= i < |vs| ==> vs[i][d] <= x)
                                       && exists i :: 0 <= i < |vs| && vs[i][d] == x)
  {
    match m.pooling {
      case ClsToken =>
      case MeanTokens => MeanIsAverage(sqrt, bottom, vs, m.dim, d, 0.0, 0.0);
      case MaxTokens => var at := MaxIsAttained(sqrt, bottom, vs, m.dim, d);
    }
  }
}
