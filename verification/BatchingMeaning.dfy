/** What a finished `encode` means: batching by length changes no vector, and no grouping runs the graph less often. */
module BatchingMeaning {
  import opened Flat
  import opened Batching
  import opened Encode
  import opened OrtSession

  /** A row whose batch has run is its text's own embedding. */
  lemma {:induction false} FinishedRow<F>(m: Session<F>, states: seq<int> -> seq<seq<F>>, tokens: seq<seq<nat>>,
                                          order: seq<nat>, sl: seq<nat>, cuts: seq<nat>, out: seq<F>, p: nat)
    requires MasksPadding(m, states) && InRange(order, |tokens|) && RoomFor(out, |tokens|, m.dim)
    requires GreedyCuts(sl, cuts) && BatchesWritten(m, tokens, order, cuts, out)
    requires p < cuts[|cuts| - 1] && p < |order| && Determined(m, tokens[order[p]])
    ensures OutRow(out, |tokens|, m.dim, order[p]) == Embedding(m, states, tokens[order[p]])
    decreases |cuts|
  {
    if p < cuts[|cuts| - 2] {
      FinishedRow(m, states, tokens, order, sl, cuts[..|cuts| - 1], out, p);
    } else {
      WrittenRow(m, states, tokens, order, cuts[|cuts| - 2], cuts[|cuts| - 1], out, p - cuts[|cuts| - 2]);
    }
  }

  lemma WrittenRow<F>(m: Session<F>, states: seq<int> -> seq<seq<F>>, tokens: seq<seq<nat>>,
                      order: seq<nat>, start: nat, end: nat, out: seq<F>, r: nat)
    requires MasksPadding(m, states) && InRange(order, |tokens|) && RoomFor(out, |tokens|, m.dim)
    requires start + r < end <= |order| && Written(m, tokens, order, start, end, end - start, out)
    requires Determined(m, tokens[order[start + r]])
    ensures OutRow(out, |tokens|, m.dim, order[start + r]) == Embedding(m, states, tokens[order[start + r]])
  {
    var ts := BatchOf(tokens, order, start, end);
    BatchRowIsEmbedding(m, states, ts, RunBatch(m, ts).value, r);
  }

  /** One call of `encode`: its texts, the run it made, and its output buffer before and after. */
  datatype Call<F> = Call(texts: seq<string>, tokens: seq<seq<nat>>, order: seq<nat>, cuts: seq<nat>,
                          before: seq<F>, after: seq<F>)

  /** Every index of a call's run is within its lists and buffers. */
  ghost predicate InBounds<F>(m: Session<F>, call: Call<F>) {
    && |call.tokens| == |call.texts| && InRange(call.order, |call.texts|)
    && |call.cuts| >= 1 && call.cuts[|call.cuts| - 1] <= |call.order|
    && |call.before| == |call.after| && RoomFor(call.before, |call.texts|, m.dim)
  }

  ghost predicate Ended<F>(m: Session<F>, prefix: string, status: Status, call: Call<F>): (ended: bool)
    ensures ended ==> InBounds(m, call)
  {
    Outcome(m, call.texts, prefix, status, call.tokens, call.order, call.cuts, call.before, call.after)
  }

  ghost function Vector<F>(m: Session<F>, call: Call<F>, i: nat): (v: seq<F>)
    requires i < |call.texts| && RoomFor(call.after, |call.texts|, m.dim)
    ensures |v| == m.dim
  {
    OutRow(call.after, |call.texts|, m.dim, i)
  }

  lemma RowsWritten<F>(m: Session<F>, prefix: string, status: Status, call: Call<F>)
    requires Ended(m, prefix, status, call)
    ensures GreedyCuts(SortedLens(Lens(call.tokens), call.order), call.cuts)
    ensures BatchesWritten(m, call.tokens, call.order, call.cuts, call.after)
  {
    hide Tokenized, CompletePlan, Stopped, InOrder, Covers, OnlyPlaces, BatchesWritten, GreedyCuts;
  }

  /** Whether or not a later batch fails, the texts of the batches that ran have their embeddings. */
  lemma FinishedRows<F>(m: Session<F>, states: seq<int> -> seq<seq<F>>, prefix: string, status: Status,
                        call: Call<F>, p: nat)
    requires MasksPadding(m, states) && InBounds(m, call)
    requires p < call.cuts[|call.cuts| - 1] && Determined(m, call.tokens[call.order[p]])
    requires Ended(m, prefix, status, call)
    ensures Vector(m, call, call.order[p]) == Embedding(m, states, call.tokens[call.order[p]])
  {
    hide Ended, BatchesWritten, GreedyCuts, Embedding, Determined, MasksPadding, Lens, SortedLens, InRange, OutRow;
    RowsWritten(m, prefix, status, call);
    var sl := SortedLens(Lens(call.tokens), call.order);
    FinishedRow(m, states, call.tokens, call.order, sl, call.cuts, call.after, p);
  }

  /**
   Batching preserves meaning: after a successful call the row of every text is that text's own
   embedding, for any number of texts, any lengths, any pooling mode.
   */
  lemma EveryRowIsItsEmbedding<F>(m: Session<F>, states: seq<int> -> seq<seq<F>>, prefix: string, call: Call<F>, i: nat)
    requires MasksPadding(m, states) && InBounds(m, call)
    requires i < |call.texts| && Determined(m, call.tokens[i])
    requires Ended(m, prefix, Ok, call)
    ensures Vector(m, call, i) == Embedding(m, states, call.tokens[i])
  {
    hide Tokenized, Stopped, InOrder, OnlyPlaces, BatchesWritten, GreedyCuts;
    hide Embedding, Determined, MasksPadding, Vector;
    assert i in call.order;
    var p :| 0 <= p < |call.order| && call.order[p] == i;
    FinishedRows(m, states, prefix, Ok, call, p);
  }

  /** Inputs of two calls that hold the same text get the same vector, wherever it stands and whatever is beside it. */
  lemma SameTextSameVector<F>(m: Session<F>, states: seq<int> -> seq<seq<F>>, prefix: string,
                              a: Call<F>, i: nat, b: Call<F>, j: nat)
    requires MasksPadding(m, states) && InBounds(m, a) && InBounds(m, b)
    requires i < |a.texts| && j < |b.texts| && a.texts[i] == b.texts[j] && Determined(m, a.tokens[i])
    requires Ended(m, prefix, Ok, a) && Ended(m, prefix, Ok, b)
    ensures Vector(m, a, i) == Vector(m, b, j)
  {
    hide Progress, CompletePlan, Stopped, Embedding, Determined, MasksPadding;
    TokenizedAt(m, a.texts, prefix, a.tokens, i);
    TokenizedAt(m, b.texts, prefix, b.tokens, j);
    EveryRowIsItsEmbedding(m, states, prefix, a, i);
    EveryRowIsItsEmbedding(m, states, prefix, b, j);
  }

  /** Encoding a concatenation is concatenating the encodings. */
  lemma EncodeConcatenates<F>(m: Session<F>, states: seq<int> -> seq<seq<F>>, prefix: string,
                              a: Call<F>, b: Call<F>, both: Call<F>)
    requires MasksPadding(m, states) && InBounds(m, a) && InBounds(m, b) && InBounds(m, both)
    requires both.texts == a.texts + b.texts
    requires forall i :: 0 <= i < |both.tokens| ==> Determined(m, both.tokens[i])
    requires Ended(m, prefix, Ok, a) && Ended(m, prefix, Ok, b) && Ended(m, prefix, Ok, both)
    ensures forall i :: 0 <= i < |a.texts| ==> Vector(m, both, i) == Vector(m, a, i)
    ensures forall i :: |a.texts| <= i < |both.texts| ==> Vector(m, both, i) == Vector(m, b, i - |a.texts|)
  {
    hide Outcome, Vector, Determined, MasksPadding;
    forall i | 0 <= i < |both.texts|
      ensures Vector(m, both, i) == if i < |a.texts| then Vector(m, a, i) else Vector(m, b, i - |a.texts|)
    {
      if i < |a.texts| {
        SameTextSameVector(m, states, prefix, both, i, a, i);
      } else {
        SameTextSameVector(m, states, prefix, both, i, b, i - |a.texts|);
      }
    }
  }

  /** Permuting the inputs permutes the outputs. */
  lemma EncodePermutes<F>(m: Session<F>, states: seq<int> -> seq<seq<F>>, prefix: string,
                          a: Call<F>, b: Call<F>, to: seq<nat>)
    requires MasksPadding(m, states) && InBounds(m, a) && InBounds(m, b)
    requires |to| == |a.texts| && forall i :: 0 <= i < |to| ==> to[i] < |b.texts| && b.texts[to[i]] == a.texts[i]
    requires forall i :: 0 <= i < |a.tokens| ==> Determined(m, a.tokens[i])
    requires Ended(m, prefix, Ok, a) && Ended(m, prefix, Ok, b)
    ensures forall i :: 0 <= i < |a.texts| ==> Vector(m, b, to[i]) == Vector(m, a, i)
  {
    hide Outcome, Vector, Determined, MasksPadding;
    forall i | 0 <= i < |a.texts| ensures Vector(m, b, to[i]) == Vector(m, a, i) {
      SameTextSameVector(m, states, prefix, a, i, b, to[i]);
    }
  }

  /** The vector of text `i` is the `i`-th block of `dim` places in the buffer. */
  lemma VectorIsBlock<F>(m: Session<F>, call: Call<F>, i: nat)
    requires i < |call.texts| && RoomFor(call.after, |call.texts|, m.dim)
    ensures i * m.dim + m.dim <= |call.after| && Vector(m, call, i) == call.after[i * m.dim..i * m.dim + m.dim]
  {
    OffsetIsProduct(i, m.dim);
    OffsetIsProduct(|call.texts|, m.dim);
    RowFits(i, |call.texts|, m.dim);
  }

  /** However a call ends, what lies past the blocks of its texts is as it was. */
  lemma TailIsUntouched<F>(m: Session<F>, prefix: string, status: Status, call: Call<F>, k: nat)
    requires InBounds(m, call) && |call.texts| * m.dim <= k < |call.before|
    requires Ended(m, prefix, status, call)
    ensures call.after[k] == call.before[k]
  {
    hide Tokenized, CompletePlan, Stopped, InOrder, Covers, BatchesWritten, GreedyCuts;
    OffsetIsProduct(|call.texts|, m.dim);
    assert call.after[Offset(|call.texts|, m.dim)..] == call.before[Offset(|call.texts|, m.dim)..];
    assert call.after[Offset(|call.texts|, m.dim)..][k - |call.texts| * m.dim] == call.after[k];
  }

  /** A call that fails in the graph leaves each text of an unfinished batch, and what lies past the rows, as it was. */
  lemma UnfinishedRows<F>(m: Session<F>, prefix: string, call: Call<F>, p: nat)
    requires InBounds(m, call) && call.cuts[|call.cuts| - 1] <= p < |call.order|
    requires Ended(m, prefix, InferenceFailed, call)
    ensures Vector(m, call, call.order[p]) == OutRow(call.before, |call.texts|, m.dim, call.order[p])
    ensures SameTail(|call.texts|, m.dim, call.before, call.after)
  {
    hide Tokenized, CompletePlan, Stopped, InOrder, Covers, BatchesWritten, GreedyCuts;
  }

  /** A successful call runs the graph as seldom as any way of grouping its texts within the limits allows. */
  lemma FewestRuns<F>(m: Session<F>, prefix: string, call: Call<F>, groups: seq<set<nat>>)
    requires Ended(m, prefix, Ok, call)
    requires forall g :: g in groups ==> Feasible(Lens(call.tokens), g)
    requires forall i :: 0 <= i < |call.texts| ==> i in Union(groups)
    ensures |call.cuts| - 1 <= |groups|
  {
    PlanIsOptimal(Lens(call.tokens), call.order, call.cuts, groups);
  }

  /** Every tensor the call builds is within the token budget, or within one row of the tokenizer's own limit. */
  lemma TensorsBounded<F>(m: Session<F>, prefix: string, status: Status, call: Call<F>, j: nat)
    requires InBounds(m, call) && j < |call.cuts| - 1
    requires Ended(m, prefix, status, call)
    ensures call.cuts[j] < call.cuts[j + 1] <= call.cuts[j] + 64 && call.cuts[j + 1] <= |call.order|
    ensures var ts := BatchOf(call.tokens, call.order, call.cuts[j], call.cuts[j + 1]);
        |PaddedIds(ts, Width(ts))| == |PaddedMask(ts, Width(ts))| <= Max(8192, m.maxTokens)
  {
    CutAt(SortedLens(Lens(call.tokens), call.order), call.cuts, j);
    forall i | 0 <= i < |call.tokens| ensures |call.tokens[i]| <= m.maxTokens {
      TokenizedAt(m, call.texts, prefix, call.tokens, i);
    }
    TensorBounded(call.tokens, call.order, call.cuts[j], call.cuts[j + 1], m.maxTokens);
  }

  lemma TensorBounded(tokens: seq<seq<nat>>, order: seq<nat>, start: nat, end: nat, limit: nat)
    requires IsStableOrder(Lens(tokens), order)
    requires GreedyCut(SortedLens(Lens(tokens), order), start, end)
    requires forall i :: 0 <= i < |tokens| ==> |tokens[i]| <= limit
    ensures start < end <= start + MAX_BATCH_ROWS && end <= |order|
    ensures var ts := BatchOf(tokens, order, start, end);
        |PaddedIds(ts, Width(ts))| == |PaddedMask(ts, Width(ts))| <= Max(MAX_BATCH_TOKENS, limit)
  {
    hide InOrder, Covers, Fits, GreedyCut, Width, PaddedIds, PaddedMask, Offset;
    var sl := SortedLens(Lens(tokens), order);
    CutRoom(sl, start, end);
    var w := Width(BatchOf(tokens, order, start, end));
    BatchWidth(tokens, order, start, end);
    OffsetIsProduct(end - start, w);
    PaddedSizeBounded(sl, start, end - start, w, limit);
  }
}
