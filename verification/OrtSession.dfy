/** The loops of `OrtSession::encode`, in place over flat buffers, and what a finished call has written. */
module OrtSession {
  import opened Flat
  import opened Pooling
  import opened Batching
  import opened Encode
  import opened Wrappers

  // ---- What has been written -------------------------------------------------------

  ghost function Lens(tokens: seq<seq<nat>>): (lens: seq<nat>)
    ensures |lens| == |tokens| && forall i :: 0 <= i < |lens| ==> lens[i] == |tokens[i]|
  {
    seq(|tokens|, i requires 0 <= i < |tokens| => |tokens[i]|)
  }

  /** The token lists of the batch of the places `[start, end)` in sorted order. */
  ghost function BatchOf(tokens: seq<seq<nat>>, order: seq<nat>, start: nat, end: nat): (ts: seq<seq<nat>>)
    requires InRange(order, |tokens|) && start <= end <= |order|
    ensures |ts| == end - start
    ensures forall r :: 0 <= r < |ts| ==> ts[r] == tokens[order[start + r]]
  {
    seq(end - start, r requires 0 <= r < end - start => tokens[order[start + r]])
  }

  /** The buffer has room for `n` rows. */
  ghost predicate RoomFor<F>(out: seq<F>, n: nat, dim: nat) {
    Offset(n, dim) <= |out|
  }

  /** What lies past the `n` rows is the same. */
  ghost predicate SameTail<F>(n: nat, dim: nat, before: seq<F>, after: seq<F>)
    requires RoomFor(before, n, dim) && |before| == |after|
  {
    after[Offset(n, dim)..] == before[Offset(n, dim)..]
  }

  /** Row `i` of the output buffer. */
  ghost function OutRow<F>(out: seq<F>, n: nat, dim: nat, i: nat): (row: seq<F>)
    requires i < n && RoomFor(out, n, dim)
    ensures |row| == dim
  {
    RowFits(i, n, dim);
    Row(out, i, dim)
  }

  /** The first `done` places of the batch hold their rows. */
  ghost predicate Written<F>(m: Session<F>, tokens: seq<seq<nat>>, order: seq<nat>, start: nat, end: nat, done: nat,
                             out: seq<F>)
    requires InRange(order, |tokens|) && start <= end <= |order|
    requires RoomFor(out, |tokens|, m.dim)
  {
    var ts := BatchOf(tokens, order, start, end);
    var hidden := RunBatch(m, ts);
    && hidden.Some? && BatchShape(m, ts, hidden.value)
    && forall r :: 0 <= r < done && r < |ts| ==>
         OutRow(out, |tokens|, m.dim, order[start + r]) == BatchRow(m, ts, hidden.value, r)
  }

  /** Every cut-off batch so far is written in full. */
  ghost predicate BatchesWritten<F>(m: Session<F>, tokens: seq<seq<nat>>, order: seq<nat>, cuts: seq<nat>, out: seq<F>)
    requires InRange(order, |tokens|) && RoomFor(out, |tokens|, m.dim)
    decreases |cuts|
  {
    |cuts| >= 2 ==>
      var start, end := cuts[|cuts| - 2], cuts[|cuts| - 1];
      && start <= end <= |order|
      && Written(m, tokens, order, start, end, end - start, out)
      && BatchesWritten(m, tokens, order, cuts[..|cuts| - 1], out)
  }

  /** Only rows of places in `[start, end)` may differ. */
  ghost predicate OnlyPlaces<F>(n: nat, dim: nat, order: seq<nat>, start: nat, end: nat, before: seq<F>, after: seq<F>)
    requires InRange(order, n) && start <= end <= n
    requires |before| == |after| && RoomFor(before, n, dim)
  {
    && (forall p :: 0 <= p < n && !(start <= p < end) ==>
          OutRow(after, n, dim, order[p]) == OutRow(before, n, dim, order[p]))
    && SameTail(n, dim, before, after)
  }

  // ---- The loops ----------------------------------------------------------------------

  /** The inner planning loop: the greedy batch from `start`, and its padded width. */
  method PlanBatch(tokens: seq<seq<nat>>, order: seq<nat>, start: nat) returns (rows: nat, width: nat)
    requires IsStableOrder(Lens(tokens), order) && start < |order|
    ensures GreedyCut(SortedLens(Lens(tokens), order), start, start + rows)
    ensures width == Max(1, |tokens[order[start + rows - 1]]|)
  {
    rows, width := 0, 1;
    ghost var sl := SortedLens(Lens(tokens), order);
    while start + rows < |order| && rows < MAX_BATCH_ROWS
      invariant start + rows <= |order| && rows <= MAX_BATCH_ROWS
      invariant rows == 0 ==> width == 1
      invariant rows > 0 ==> Fits(sl, start, rows) && width == Max(1, sl[start + rows - 1])
    {
      var candidate := Max(width, |tokens[order[start + rows]]|);
      if rows > 0 {
        SortedLensMonotone(Lens(tokens), order, start + rows - 1, start + rows);
      }
      assert candidate == Max(1, sl[start + rows]);
      if rows > 0 && (rows + 1) * candidate > MAX_BATCH_TOKENS {
        break;
      }
      width := candidate;
      rows := rows + 1;
    }
  }

  /** The padding loops: both tensors, flat, zero beyond each row's tokens. */
  method Pad(ts: seq<seq<nat>>, width: nat) returns (ids: array<int>, mask: array<int>)
    requires forall r :: 0 <= r < |ts| ==> |ts[r]| <= width
    ensures fresh(ids) && fresh(mask)
    ensures ids[..] == PaddedIds(ts, width) && mask[..] == PaddedMask(ts, width)
  {
    var size := Offset(|ts|, width);
    ids := new int[size](_ => 0);
    mask := new int[size](_ => 0);
    for r := 0 to |ts|
      invariant ids.Length == mask.Length == size && Offset(r, width) <= size
      invariant ids[..Offset(r, width)] == PaddedIds(ts[..r], width)
      invariant mask[..Offset(r, width)] == PaddedMask(ts[..r], width)
      invariant forall k :: Offset(r, width) <= k < size ==> ids[k] == 0 && mask[k] == 0
    {
      RowFits(r, |ts|, width);
      ghost var ids0, mask0 := ids[..], mask[..];
      PadRow(ts[r], width, Offset(r, width), ids, mask);
      PaddedNext(ts, width, r, ids0, ids[..], mask0, mask[..]);
    }
    assert ts[..|ts|] == ts;
  }

  /** One row of each tensor, written over zeros. */
  method PadRow(tokens: seq<nat>, width: nat, base: nat, ids: array<int>, mask: array<int>)
    requires |tokens| <= width && ids != mask && base + width <= ids.Length == mask.Length
    requires forall k :: base <= k < base + width ==> ids[k] == 0 && mask[k] == 0
    modifies ids, mask
    ensures ids[base..base + width] == IdRow(tokens, width)
    ensures mask[base..base + width] == MaskRow(tokens, width)
    ensures forall k :: 0 <= k < ids.Length && !(base <= k < base + width) ==>
        ids[k] == old(ids[k]) && mask[k] == old(mask[k])
  {
    for t := 0 to |tokens|
      invariant forall k :: base <= k < base + t ==> ids[k] == tokens[k - base] && mask[k] == 1
      invariant forall k :: base + t <= k < base + width ==> ids[k] == 0 && mask[k] == 0
      invariant forall k :: 0 <= k < ids.Length && !(base <= k < base + width) ==>
          ids[k] == old(ids[k]) && mask[k] == old(mask[k])
    {
      ids[base + t] := tokens[t];
      mask[base + t] := 1;
    }
  }

  lemma PaddedNext(ts: seq<seq<nat>>, width: nat, r: nat, ids0: seq<int>, ids: seq<int>, mask0: seq<int>,
                   mask: seq<int>)
    requires r < |ts| && Offset(r, width) + width <= |ids0| == |ids| == |mask0| == |mask|
    requires ids0[..Offset(r, width)] == PaddedIds(ts[..r], width)
    requires mask0[..Offset(r, width)] == PaddedMask(ts[..r], width)
    requires forall k :: 0 <= k < Offset(r, width) ==> ids[k] == ids0[k] && mask[k] == mask0[k]
    requires ids[Offset(r, width)..Offset(r, width) + width] == IdRow(ts[r], width)
    requires mask[Offset(r, width)..Offset(r, width) + width] == MaskRow(ts[r], width)
    ensures ids[..Offset(r + 1, width)] == PaddedIds(ts[..r + 1], width)
    ensures mask[..Offset(r + 1, width)] == PaddedMask(ts[..r + 1], width)
  {
    assert ts[..r + 1][..r] == ts[..r];
    var at := Offset(r, width);
    assert ids[..at + width] == ids0[..at] + ids[at..at + width];
    assert mask[..at + width] == mask0[..at] + mask[at..at + width];
  }

  lemma WidthIsLast(ts: seq<seq<nat>>)
    requires ts != [] && forall p, q :: 0 <= p <= q < |ts| ==> |ts[p]| <= |ts[q]|
    ensures Width(ts) == Max(1, |ts[|ts| - 1]|)
    decreases |ts|
  {
    if |ts| > 1 {
      WidthIsLast(ts[..|ts| - 1]);
    } else {
      assert Width(ts[..0]) == 1;
    }
  }

  lemma OrderDistinct(lens: seq<nat>, order: seq<nat>, p: nat, q: nat)
    requires IsStableOrder(lens, order) && p < |order| && q < |order| && p != q
    ensures order[p] != order[q]
  {
    var a, b := if p < q then p else q, if p < q then q else p;
    OrderedAt(lens, order, a, b);
  }

  lemma BatchWidth(tokens: seq<seq<nat>>, order: seq<nat>, start: nat, end: nat)
    requires IsStableOrder(Lens(tokens), order) && start < end <= |order|
    ensures Width(BatchOf(tokens, order, start, end)) == Max(1, |tokens[order[end - 1]]|)
  {
    var ts, sl := BatchOf(tokens, order, start, end), SortedLens(Lens(tokens), order);
    forall p, q | 0 <= p <= q < |ts| ensures |ts[p]| <= |ts[q]| {
      SortedLensMonotone(Lens(tokens), order, start + p, start + q);
    }
    WidthIsLast(ts);
  }

  /** Block `i` holds `row`; every other block, and what lies beyond the blocks, is as before. */
  ghost predicate OnlyRow<F>(n: nat, dim: nat, i: nat, row: seq<F>, before: seq<F>, after: seq<F>)
    requires i < n && |before| == |after| && RoomFor(before, n, dim)
  {
    && OutRow(after, n, dim, i) == row
    && (forall j :: 0 <= j < n && j != i ==> OutRow(after, n, dim, j) == OutRow(before, n, dim, j))
    && SameTail(n, dim, before, after)
  }

  method WriteRow<F>(n: nat, dim: nat, i: nat, row: seq<F>, out: array<F>)
    requires i < n && RoomFor(out[..], n, dim) && |row| == dim
    modifies out
    ensures OnlyRow(n, dim, i, row, old(out[..]), out[..])
  {
    RowFits(i, n, dim);
    CopyTo(row, out, Offset(i, dim));
    assert out[Offset(i, dim)..Offset(i, dim) + dim] == OutRow(out[..], n, dim, i);
    forall j | 0 <= j < n && j != i ensures OutRow(out[..], n, dim, j) == OutRow(old(out[..]), n, dim, j) {
      RowUntouched(old(out[..]), out[..], i, j, n, dim);
    }
  }

  /** One scattered row: it lands on its own text's block and on no other. */
  lemma ScatterStep<F>(m: Session<F>, tokens: seq<seq<nat>>, order: seq<nat>, start: nat, end: nat, done: nat,
                       hidden: seq<F>, first: seq<F>, before: seq<F>, after: seq<F>)
    requires IsStableOrder(Lens(tokens), order) && start + done < end <= |order|
    requires |first| == |before| == |after| && RoomFor(before, |tokens|, m.dim)
    requires Written(m, tokens, order, start, end, done, before)
    requires OnlyPlaces(|tokens|, m.dim, order, start, end, first, before)
    requires hidden == RunBatch(m, BatchOf(tokens, order, start, end)).value
    requires OnlyRow(|tokens|, m.dim, order[start + done],
                     BatchRow(m, BatchOf(tokens, order, start, end), hidden, done), before, after)
    ensures Written(m, tokens, order, start, end, done + 1, after)
    ensures OnlyPlaces(|tokens|, m.dim, order, start, end, first, after)
  {
    hide InOrder, Covers, BatchRow, BatchShape;
    forall p | 0 <= p < |order| && p != start + done ensures order[p] != order[start + done] {
      OrderDistinct(Lens(tokens), order, p, start + done);
    }
  }

  /** Pads, runs, pools, normalises and scatters one batch; a failed run writes nothing. */
  method EmbedBatch<F>(m: Session<F>, tokens: seq<seq<nat>>, order: seq<nat>, start: nat, rows: nat, width: nat,
                       out: array<F>)
    returns (ok: bool)
    requires WellShaped(m) && IsStableOrder(Lens(tokens), order)
    requires rows >= 1 && start + rows <= |order| && width == Max(1, |tokens[order[start + rows - 1]]|)
    requires RoomFor(out[..], |tokens|, m.dim)
    modifies out
    ensures ok == RunBatch(m, BatchOf(tokens, order, start, start + rows)).Some?
    ensures ok ==> Written(m, tokens, order, start, start + rows, rows, out[..])
    ensures !ok ==> out[..] == old(out[..])
    ensures OnlyPlaces(|tokens|, m.dim, order, start, start + rows, old(out[..]), out[..])
  {
    hide WellShaped, RunBatch, InOrder, Covers, Written, PooledBatchRow;
    var encoded := seq(rows, r requires 0 <= r < rows => tokens[order[start + r]]);
    assert encoded == BatchOf(tokens, order, start, start + rows);
    BatchWidth(tokens, order, start, start + rows);
    var result, mask := RunPadded(m, encoded, width);
    if result.None? {
      return false;
    }
    var pooled := PoolBatch(m, encoded, width, result.value, mask[..]);
    Scatter(m, tokens, order, start, rows, encoded, result.value, pooled[..], out);
    return true;
  }

  /** Pads a batch and runs it; the mask is what pooling goes by. */
  method RunPadded<F>(m: Session<F>, encoded: seq<seq<nat>>, width: nat)
    returns (result: Option<seq<F>>, mask: array<int>)
    requires WellShaped(m) && width == Width(encoded)
    ensures fresh(mask) && mask[..] == PaddedMask(encoded, width)
    ensures result == RunBatch(m, encoded) && (result.Some? ==> BatchShape(m, encoded, result.value))
  {
    var ids: array<int>;
    ids, mask := Pad(encoded, width);
    result := m.graph(ids[..], mask[..], |encoded|, width);
    assert ShapedRun(m, ids[..], mask[..], |encoded|, width);
  }

  method Scatter<F>(m: Session<F>, tokens: seq<seq<nat>>, order: seq<nat>, start: nat, rows: nat,
                    ghost ts: seq<seq<nat>>, ghost hidden: seq<F>, pooled: seq<F>, out: array<F>)
    requires IsStableOrder(Lens(tokens), order)
    requires start + rows <= |order| && RoomFor(out[..], |tokens|, m.dim) && |pooled| == Offset(rows, m.dim)
    requires rows >= 1 && ts == BatchOf(tokens, order, start, start + rows) && RunBatch(m, ts) == Some(hidden)
    requires forall r :: 0 <= r < rows ==> PooledBatchRow(m, ts, hidden, pooled, r)
    modifies out
    ensures Written(m, tokens, order, start, start + rows, rows, out[..])
    ensures OnlyPlaces(|tokens|, m.dim, order, start, start + rows, old(out[..]), out[..])
  {
    assert PooledBatchRow(m, ts, hidden, pooled, 0);
    for r := 0 to rows
      invariant Written(m, tokens, order, start, start + rows, r, out[..])
      invariant OnlyPlaces(|tokens|, m.dim, order, start, start + rows, old(out[..]), out[..])
    {
      ghost var before := out[..];
      RowFits(r, rows, m.dim);
      assert PooledBatchRow(m, ts, hidden, pooled, r);
      WriteRow(|tokens|, m.dim, order[start + r], Row(pooled, r, m.dim), out);
      ScatterStep(m, tokens, order, start, start + rows, r, hidden, old(out[..]), before, out[..]);
    }
  }

  ghost predicate PooledBatchRow<F>(m: Session<F>, ts: seq<seq<nat>>, hidden: seq<F>, pooled: seq<F>, r: nat) {
    && r < |ts| && BatchShape(m, ts, hidden) && Offset(r, m.dim) + m.dim <= |pooled|
    && Row(pooled, r, m.dim) == BatchRow(m, ts, hidden, r)
  }

  method PoolBatch<F>(m: Session<F>, encoded: seq<seq<nat>>, width: nat, hidden: seq<F>, mask: seq<int>)
    returns (pooled: array<F>)
    requires width == Width(encoded) && mask == PaddedMask(encoded, width)
    requires |hidden| == Offset(|encoded|, Offset(width, m.dim))
    ensures fresh(pooled) && pooled.Length == Offset(|encoded|, m.dim)
    ensures forall r :: 0 <= r < |encoded| ==> PooledBatchRow(m, encoded, hidden, pooled[..], r)
  {
    var rows := |encoded|;
    pooled := new F[Offset(rows, m.dim)](_ => m.scalars.zero);
    Pool(m.scalars, hidden, mask, rows, width, m.dim, m.pooling, pooled);
    ghost var before := pooled[..];
    if m.normalize {
      L2Normalize(m.scalars, pooled, rows, m.dim);
    }
    forall r | 0 <= r < rows ensures PooledBatchRow(m, encoded, hidden, pooled[..], r) {
      assert PooledAt(m.scalars, m.pooling, hidden, mask, rows, width, m.dim, before, r);
      RowFits(r, rows, m.dim);
      if m.normalize {
        assert NormalizedAt(m.scalars, before, pooled[..], rows, m.dim, r);
      }
    }
  }

  // ---- The call -------------------------------------------------------------------------

  /** Every text tokenises, to `tokens`. */
  ghost predicate Tokenized<F>(m: Session<F>, texts: seq<string>, prefix: string, tokens: seq<seq<nat>>) {
    && |tokens| == |texts|
    && (texts != [] ==>
          && Tokens(m, texts[|texts| - 1], prefix) == Some(tokens[|tokens| - 1])
          && Tokenized(m, texts[..|texts| - 1], prefix, tokens[..|tokens| - 1]))
  }

  lemma {:induction false} TokenizedAt<F>(m: Session<F>, texts: seq<string>, prefix: string, tokens: seq<seq<nat>>,
                                          i: nat)
    requires Tokenized(m, texts, prefix, tokens) && i < |texts|
    ensures |tokens| == |texts| && Tokens(m, texts[i], prefix) == Some(tokens[i]) && |tokens[i]| <= m.maxTokens
  {
    if i < |texts| - 1 {
      TokenizedAt(m, texts[..|texts| - 1], prefix, tokens[..|tokens| - 1], i);
    }
  }

  /** The first rows of the plan, up to the last cut, are written and no other row has changed. */
  ghost predicate Progress<F>(m: Session<F>, tokens: seq<seq<nat>>, order: seq<nat>, cuts: seq<nat>,
                              before: seq<F>, after: seq<F>) {
    && IsStableOrder(Lens(tokens), order)
    && GreedyCuts(SortedLens(Lens(tokens), order), cuts) && cuts[|cuts| - 1] <= |order|
    && |before| == |after| && RoomFor(before, |tokens|, m.dim)
    && BatchesWritten(m, tokens, order, cuts, after)
    && OnlyPlaces(|tokens|, m.dim, order, 0, cuts[|cuts| - 1], before, after)
  }

  /** The run stopped at a batch that the graph failed on. */
  ghost predicate Stopped<F>(m: Session<F>, tokens: seq<seq<nat>>, order: seq<nat>, start: nat) {
    exists end :: StoppedAt(m, tokens, order, start, end)
  }

  ghost predicate StoppedAt<F>(m: Session<F>, tokens: seq<seq<nat>>, order: seq<nat>, start: nat, end: nat) {
    && IsStableOrder(Lens(tokens), order) && start < end <= |order|
    && GreedyCut(SortedLens(Lens(tokens), order), start, end)
    && RunBatch(m, BatchOf(tokens, order, start, end)).None?
  }

  lemma ProgressStep<F>(m: Session<F>, tokens: seq<seq<nat>>, order: seq<nat>, cuts: seq<nat>, end: nat,
                        first: seq<F>, before: seq<F>, after: seq<F>)
    requires Progress(m, tokens, order, cuts, first, before) && |after| == |before|
    requires cuts[|cuts| - 1] < end <= |order|
    requires GreedyCut(SortedLens(Lens(tokens), order), cuts[|cuts| - 1], end)
    requires Written(m, tokens, order, cuts[|cuts| - 1], end, end - cuts[|cuts| - 1], after)
    requires OnlyPlaces(|tokens|, m.dim, order, cuts[|cuts| - 1], end, before, after)
    ensures Progress(m, tokens, order, cuts + [end], first, after)
  {
    hide Written, OnlyPlaces, InOrder, Covers, GreedyCut;
    var more := cuts + [end];
    assert more[..|more| - 1] == cuts;
    BatchesKept(m, tokens, order, SortedLens(Lens(tokens), order), cuts, cuts[|cuts| - 1], end, before, after);
    OnlyPlacesExtend(|tokens|, m.dim, order, cuts[|cuts| - 1], end, first, before, after);
  }

  lemma OnlyPlacesExtend<F>(n: nat, dim: nat, order: seq<nat>, mid: nat, end: nat, first: seq<F>, before: seq<F>,
                            after: seq<F>)
    requires InRange(order, n) && mid <= end <= n
    requires |first| == |before| == |after| && RoomFor(first, n, dim) && RoomFor(before, n, dim)
    requires OnlyPlaces(n, dim, order, 0, mid, first, before) && OnlyPlaces(n, dim, order, mid, end, before, after)
    ensures OnlyPlaces(n, dim, order, 0, end, first, after)
  {
  }

  /** Written batches survive writes to later places. */
  lemma {:induction false} BatchesKept<F>(m: Session<F>, tokens: seq<seq<nat>>, order: seq<nat>, sl: seq<nat>,
                                          cuts: seq<nat>,
                                          from: nat, to: nat, before: seq<F>, after: seq<F>)
    requires InRange(order, |tokens|) && GreedyCuts(sl, cuts) && cuts[|cuts| - 1] <= from <= to <= |order|
    requires |before| == |after| && RoomFor(before, |tokens|, m.dim)
    requires BatchesWritten(m, tokens, order, cuts, before)
    requires OnlyPlaces(|tokens|, m.dim, order, from, to, before, after)
    ensures BatchesWritten(m, tokens, order, cuts, after)
    decreases |cuts|
  {
    if |cuts| >= 2 {
      WrittenKept(m, tokens, order, cuts[|cuts| - 2], cuts[|cuts| - 1], from, to, before, after);
      BatchesKept(m, tokens, order, sl, cuts[..|cuts| - 1], from, to, before, after);
    }
  }

  /** A written batch survives writes to later places. */
  lemma WrittenKept<F>(m: Session<F>, tokens: seq<seq<nat>>, order: seq<nat>, start: nat, end: nat,
                       from: nat, to: nat, before: seq<F>, after: seq<F>)
    requires InRange(order, |tokens|) && start <= end <= from <= to <= |order|
    requires |before| == |after| && RoomFor(before, |tokens|, m.dim)
    requires Written(m, tokens, order, start, end, end - start, before)
    requires OnlyPlaces(|tokens|, m.dim, order, from, to, before, after)
    ensures Written(m, tokens, order, start, end, end - start, after)
  {
    assert forall p :: start <= p < end ==>
        OutRow(after, |tokens|, m.dim, order[p]) == OutRow(before, |tokens|, m.dim, order[p]);
  }

  /** How a run that got past tokenising ends: with the whole plan written, or stopped at a failed batch. */
  ghost predicate Outcome<F>(m: Session<F>, texts: seq<string>, prefix: string, status: Status,
                             tokens: seq<seq<nat>>, order: seq<nat>, cuts: seq<nat>, before: seq<F>, after: seq<F>) {
    && Tokenized(m, texts, prefix, tokens)
    && Progress(m, tokens, order, cuts, before, after)
    && (status == Ok ==> CompletePlan(SortedLens(Lens(tokens), order), cuts))
    && (status != Ok ==> Stopped(m, tokens, order, cuts[|cuts| - 1]))
  }

  predicate Unusable<F>(n: nat, texts: array?<string>, out: array?<F>) {
    n != 0 && (texts == null || out == null)
  }

  ghost predicate SomeTextFails<F>(m: Session<F>, texts: seq<string>, prefix: string) {
    exists i :: 0 <= i < |texts| && Tokens(m, texts[i], prefix).None?
  }

  /** `encode`. The ghost results name the order and the cuts of the run, for the statements about it. */
  method EncodeTexts<F>(m: Session<F>, texts: array?<string>, n: nat, prefix: string, out: array?<F>, capacity: nat)
    returns (status: Status, ghost tokens: seq<seq<nat>>, ghost order: seq<nat>, ghost cuts: seq<nat>)
    requires WellShaped(m)
    requires texts != null ==> n <= texts.Length
    requires out != null ==> out.Length == capacity
    modifies out
    ensures status == InvalidArgument <==> n != 0 && (texts == null || out == null)
    ensures status == OutputTooSmall <==> !Unusable(n, texts, out) && capacity < n * m.dim
    ensures status == TokenizerFailed <==>
        (!Unusable(n, texts, out) && capacity >= n * m.dim && n != 0 && SomeTextFails(m, old(texts[..n]), prefix))
    ensures status != Ok && status != InferenceFailed && out != null ==> out[..] == old(out[..])
    ensures (status == Ok || status == InferenceFailed) && n != 0 ==>
        Outcome(m, old(texts[..n]), prefix, status, tokens, order, cuts, old(out[..]), out[..])
    ensures n == 0 ==> status == Ok && (out != null ==> out[..] == old(out[..]))
  {
    tokens, order, cuts := [], [], [0];
    if Unusable(n, texts, out) {
      return InvalidArgument, tokens, order, cuts;
    }
    OffsetIsProduct(n, m.dim);
    if capacity < n * m.dim {
      return OutputTooSmall, tokens, order, cuts;
    }
    if n == 0 {
      return Ok, tokens, order, cuts;
    }
    status, tokens, order, cuts := EncodeChecked(m, texts, n, prefix, out);
  }

  method EncodeChecked<F>(m: Session<F>, texts: array<string>, n: nat, prefix: string, out: array<F>)
    returns (status: Status, ghost tokens: seq<seq<nat>>, ghost order: seq<nat>, ghost cuts: seq<nat>)
    requires WellShaped(m) && n <= texts.Length && RoomFor(out[..], n, m.dim)
    modifies out
    ensures status == TokenizerFailed || status == Ok || status == InferenceFailed
    ensures status == TokenizerFailed <==> SomeTextFails(m, old(texts[..n]), prefix)
    ensures status == TokenizerFailed ==> out[..] == old(out[..])
    ensures status != TokenizerFailed ==>
        Outcome(m, old(texts[..n]), prefix, status, tokens, order, cuts, old(out[..]), out[..])
  {
    tokens, order, cuts := [], [], [0];
    var encoded, lens := TokenizeAll(m, texts, n, prefix);
    if encoded.None? {
      return TokenizerFailed, tokens, order, cuts;
    }
    tokens := encoded.value;
    status, order, cuts := EncodeBatches(m, encoded.value, lens, out);
  }

  method TokenizeAll<F>(m: Session<F>, texts: array<string>, n: nat, prefix: string)
    returns (tokens: Option<seq<seq<nat>>>, lens: seq<nat>)
    requires n <= texts.Length
    ensures tokens.None? <==> SomeTextFails(m, texts[..n], prefix)
    ensures tokens.Some? ==> Tokenized(m, texts[..n], prefix, tokens.value) && lens == Lens(tokens.value)
  {
    var all: seq<seq<nat>> := [];
    lens := [];
    for i := 0 to n
      invariant Tokenized(m, texts[..i], prefix, all)
      invariant lens == Lens(all)
    {
      var ids := Tokens(m, texts[i], prefix);
      if ids.None? {
        assert Tokens(m, texts[..n][i], prefix).None?;
        return None, lens;
      }
      TokenizedMore(m, texts[..i], prefix, all, texts[i], ids.value);
      assert texts[..i] + [texts[i]] == texts[..i + 1];
      all, lens := all + [ids.value], lens + [|ids.value|];
    }
    NoTextFails(m, texts[..n], prefix, all);
    tokens := Some(all);
  }

  lemma TokenizedMore<F>(m: Session<F>, texts: seq<string>, prefix: string, tokens: seq<seq<nat>>, text: string,
                         ids: seq<nat>)
    requires Tokenized(m, texts, prefix, tokens) && Tokens(m, text, prefix) == Some(ids)
    ensures Tokenized(m, texts + [text], prefix, tokens + [ids])
  {
    assert (texts + [text])[..|texts|] == texts && (tokens + [ids])[..|tokens|] == tokens;
  }

  lemma NoTextFails<F>(m: Session<F>, texts: seq<string>, prefix: string, tokens: seq<seq<nat>>)
    requires Tokenized(m, texts, prefix, tokens)
    ensures !SomeTextFails(m, texts, prefix)
  {
    forall i | 0 <= i < |texts| ensures Tokens(m, texts[i], prefix).Some? {
      TokenizedAt(m, texts, prefix, tokens, i);
    }
  }

  /** Input positions, stable-sorted by token count. */
  method SortByLength(lens: seq<nat>) returns (order: seq<nat>)
    ensures IsStableOrder(lens, order)
  {
    order := StableSort(lens, Identity(|lens|));
    SortedOrder(lens);
  }

  method EncodeBatches<F>(m: Session<F>, tokens: seq<seq<nat>>, lens: seq<nat>, out: array<F>)
    returns (status: Status, ghost order: seq<nat>, ghost cuts: seq<nat>)
    requires WellShaped(m) && lens == Lens(tokens) && RoomFor(out[..], |tokens|, m.dim)
    modifies out
    ensures status == Ok || status == InferenceFailed
    ensures Progress(m, tokens, order, cuts, old(out[..]), out[..])
    ensures status == Ok ==> CompletePlan(SortedLens(Lens(tokens), order), cuts)
    ensures status == InferenceFailed ==> Stopped(m, tokens, order, cuts[|cuts| - 1])
  {
    hide Progress;
    var n := |tokens|;
    var sorted := SortByLength(lens);
    order, cuts := sorted, [0];
    var start := 0;
    ProgressStart(m, tokens, sorted, out[..]);
    while start < n
      invariant order == sorted && |cuts| >= 1 && start == cuts[|cuts| - 1] <= n
      invariant Progress(m, tokens, order, cuts, old(out[..]), out[..])
    {
      var ok, next, more := EncodeBatch(m, tokens, sorted, start, cuts, old(out[..]), out);
      if !ok {
        return InferenceFailed, order, cuts;
      }
      start, cuts := next, more;
    }
    PlanComplete(m, tokens, order, cuts, old(out[..]), out[..]);
    status := Ok;
  }

  lemma PlanComplete<F>(m: Session<F>, tokens: seq<seq<nat>>, order: seq<nat>, cuts: seq<nat>, before: seq<F>,
                        after: seq<F>)
    requires Progress(m, tokens, order, cuts, before, after) && cuts[|cuts| - 1] == |tokens|
    ensures CompletePlan(SortedLens(Lens(tokens), order), cuts)
  {
  }

  lemma ProgressStart<F>(m: Session<F>, tokens: seq<seq<nat>>, order: seq<nat>, out: seq<F>)
    requires IsStableOrder(Lens(tokens), order) && RoomFor(out, |tokens|, m.dim)
    ensures Progress(m, tokens, order, [0], out, out)
  {
  }

  /** One turn of the outer loop. */
  method EncodeBatch<F>(m: Session<F>, tokens: seq<seq<nat>>, order: seq<nat>, start: nat,
                        ghost cuts: seq<nat>, ghost first: seq<F>, out: array<F>)
    returns (ok: bool, next: nat, ghost more: seq<nat>)
    requires WellShaped(m) && Progress(m, tokens, order, cuts, first, out[..])
    requires start == cuts[|cuts| - 1] < |order|
    modifies out
    ensures ok ==> |more| >= 1 && start < next == more[|more| - 1] <= |order|
    ensures ok ==> Progress(m, tokens, order, more, first, out[..])
    ensures !ok ==> Stopped(m, tokens, order, start) && out[..] == old(out[..])
  {
    hide BatchesWritten, OnlyPlaces, GreedyCuts, Written, InOrder, Covers;
    var rows, width := PlanBatch(tokens, order, start);
    ghost var before := out[..];
    ok := EmbedBatch(m, tokens, order, start, rows, width, out);
    next := start + rows;
    more := cuts + [next];
    if ok {
      ProgressStep(m, tokens, order, cuts, next, first, before, out[..]);
    } else {
      assert StoppedAt(m, tokens, order, start, next);
    }
  }
}
