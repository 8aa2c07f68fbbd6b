/** On a graph that does not fail a call of `encode` has a run to its end, whatever its texts and its buffer. */
module Runs {
  import opened Flat
  import opened Batching
  import opened Encode
  import opened OrtSession
  import opened BatchingMeaning

  ghost predicate NeverFails<F>(m: Session<F>) {
    forall ts :: RunBatch(m, ts).Some? && BatchShape(m, ts, RunBatch(m, ts).value)
  }

  ghost function Put<F>(out: seq<F>, n: nat, dim: nat, i: nat, row: seq<F>): (after: seq<F>)
    requires i < n && RoomFor(out, n, dim) && |row| == dim
    ensures |after| == |out|
  {
    RowFits(i, n, dim);
    out[..Offset(i, dim)] + row + out[Offset(i, dim) + dim..]
  }

  lemma PutIsOnlyRow<F>(out: seq<F>, n: nat, dim: nat, i: nat, row: seq<F>)
    requires i < n && RoomFor(out, n, dim) && |row| == dim
    ensures OnlyRow(n, dim, i, row, out, Put(out, n, dim, i, row))
  {
    hide Offset;
    RowFits(i, n, dim);
    var after := Put(out, n, dim, i, row);
    forall j | 0 <= j < n && j != i ensures OutRow(after, n, dim, j) == OutRow(out, n, dim, j) {
      RowUntouched(out, after, i, j, n, dim);
    }
  }

  /** The first `done` rows of a batch, written one after another. */
  lemma {:induction false} WriteRows<F>(m: Session<F>, tokens: seq<seq<nat>>, order: seq<nat>, start: nat, end: nat,
                                        done: nat, before: seq<F>) returns (out: seq<F>)
    requires NeverFails(m) && IsStableOrder(Lens(tokens), order) && RoomFor(before, |tokens|, m.dim)
    requires start + done <= end <= |order|
    ensures |out| == |before|
    ensures Written(m, tokens, order, start, end, done, out)
    ensures OnlyPlaces(|tokens|, m.dim, order, start, end, before, out)
    decreases done
  {
    hide InOrder, Covers, OnlyRow, BatchShape, BatchRow;
    var ts := BatchOf(tokens, order, start, end);
    var hidden := RunBatch(m, ts).value;
    if done == 0 {
      out := before;
    } else {
      var shorter := WriteRows(m, tokens, order, start, end, done - 1, before);
      var i, row := order[start + done - 1], BatchRow(m, ts, hidden, done - 1);
      PutIsOnlyRow(shorter, |tokens|, m.dim, i, row);
      out := Put(shorter, |tokens|, m.dim, i, row);
      ScatterStep(m, tokens, order, start, end, done - 1, hidden, before, shorter, out);
    }
  }

  lemma {:induction false} NextCut(sl: seq<nat>, start: nat, k: nat) returns (end: nat)
    requires Fits(sl, start, k)
    ensures GreedyCut(sl, start, end)
    decreases |sl| - k
  {
    if Fits(sl, start, k + 1) {
      end := NextCut(sl, start, k + 1);
    } else {
      end := start + k;
    }
  }

  lemma {:induction false} Finishes<F>(m: Session<F>, tokens: seq<seq<nat>>, order: seq<nat>, cuts: seq<nat>,
                                       first: seq<F>, now: seq<F>) returns (plan: seq<nat>, after: seq<F>)
    requires NeverFails(m) && Progress(m, tokens, order, cuts, first, now)
    ensures Progress(m, tokens, order, plan, first, after)
    ensures CompletePlan(SortedLens(Lens(tokens), order), plan)
    decreases |order| - cuts[|cuts| - 1]
  {
    hide BatchesWritten, OnlyPlaces, Written, InOrder, Covers, GreedyCut, NeverFails;
    var start := cuts[|cuts| - 1];
    if start == |order| {
      plan, after := cuts, now;
    } else {
      var sl := SortedLens(Lens(tokens), order);
      var end := NextCut(sl, start, 1);
      CutRoom(sl, start, end);
      var next := WriteRows(m, tokens, order, start, end, end - start, now);
      ProgressStep(m, tokens, order, cuts, end, first, now, next);
      plan, after := Finishes(m, tokens, order, cuts + [end], first, next);
    }
  }

  lemma CallEnds<F>(m: Session<F>, prefix: string, texts: seq<string>, tokens: seq<seq<nat>>, before: seq<F>)
    returns (call: Call<F>)
    requires NeverFails(m) && Tokenized(m, texts, prefix, tokens) && |tokens| == |texts|
    requires RoomFor(before, |texts|, m.dim)
    ensures Ended(m, prefix, Ok, call)
    ensures call.texts == texts && call.tokens == tokens && call.before == before
  {
    var order := StableSort(Lens(tokens), Identity(|tokens|));
    SortedOrder(Lens(tokens));
    hide StableSort, IsStableOrder, Progress, Tokenized, NeverFails, CompletePlan;
    ProgressStart(m, tokens, order, before);
    var plan, after := Finishes(m, tokens, order, [0], before, before);
    call := Call(texts, tokens, order, plan, before, after);
  }
}
