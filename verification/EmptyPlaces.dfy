/** Where the planner puts texts without tokens: when one is batched alone, and when with short texts only. */
module EmptyPlaces {
  import opened Batching

  // ---- When an empty text is batched alone ------------------------------------------------

  ghost function EmptyBefore(lens: seq<nat>, i: nat): set<nat>
    requires i <= |lens|
  {
    set j | 0 <= j < i && lens[j] == 0
  }

  /**
   The empty texts before it fill whole batches, none follows it, and no other text can join it: two
   rows of more than half the budget do not fit.
   */
  ghost predicate BatchedAlone(lens: seq<nat>, i: nat)
    requires i < |lens|
  {
    && |EmptyBefore(lens, i)| % 64 == 0
    && forall j :: 0 <= j < |lens| && j != i ==> (lens[j] == 0 && j < i) || lens[j] > 4096
  }

  /** Distinct elements at the first `p` places make a set of that size. */
  lemma {:induction false} PrefixIs(order: seq<nat>, p: nat)
    requires p <= |order| && forall a, b :: 0 <= a < b < p ==> order[a] != order[b]
    ensures |set q | 0 <= q < p :: order[q]| == p
  {
    if p > 0 {
      PrefixIs(order, p - 1);
      var shorter := set q | 0 <= q < p - 1 :: order[q];
      assert (set q | 0 <= q < p :: order[q]) == shorter + {order[p - 1]};
    }
  }

  /** An empty text stands in sorted order right behind the empty texts before it. */
  lemma PlaceOfEmpty(lens: seq<nat>, order: seq<nat>, p: nat)
    requires IsStableOrder(lens, order) && p < |order| && lens[order[p]] == 0
    ensures |EmptyBefore(lens, order[p])| == p
  {
    var before := set q | 0 <= q < p :: order[q];
    forall a, b | 0 <= a < b < p ensures order[a] != order[b] {
      OrderedAt(lens, order, a, b);
    }
    PrefixIs(order, p);
    forall q | 0 <= q < p ensures order[q] in EmptyBefore(lens, order[p]) {
      OrderedAt(lens, order, q, p);
    }
    forall j | j in EmptyBefore(lens, order[p]) ensures j in before {
      PlaceBefore(lens, order, j, p);
    }
    assert before == EmptyBefore(lens, order[p]);
  }

  lemma PlaceBefore(lens: seq<nat>, order: seq<nat>, j: nat, p: nat)
    requires IsStableOrder(lens, order) && p < |order| && j < |lens| && Precedes(lens, j, order[p])
    ensures exists q :: 0 <= q < p && order[q] == j
  {
    assert j in order;
    var q :| 0 <= q < |order| && order[q] == j;
    if p < q {
      OrderedAt(lens, order, p, q);
    }
  }

  /** While empty rows last the planner cuts every 64 of them. */
  lemma {:induction false} CutsOfEmpty(sl: seq<nat>, cuts: seq<nat>, j: nat, p: nat)
    requires GreedyCuts(sl, cuts) && j < |cuts| && cuts[j] <= p < |sl|
    requires forall q :: 0 <= q <= p ==> sl[q] == 0
    ensures cuts[j] == MAX_BATCH_ROWS * j
  {
    if j == 0 {
      FirstCut(sl, cuts);
    } else {
      CutAt(sl, cuts, j - 1);
      CutsOfEmpty(sl, cuts, j - 1, p);
      CutOfEmpty(sl, cuts[j - 1], cuts[j]);
    }
  }

  lemma CutOfEmpty(sl: seq<nat>, start: nat, end: nat)
    requires GreedyCut(sl, start, end) && end < |sl| && sl[end] == 0
    ensures end == start + MAX_BATCH_ROWS
  {
  }

  /** A batch that starts with an empty row holds no other exactly when the next row is too long to join it. */
  lemma LoneCut(sl: seq<nat>, start: nat, end: nat)
    requires GreedyCut(sl, start, end) && sl[start] == 0
    requires start + 1 < end ==> end <= |sl| && sl[start + 1] <= sl[end - 1]
    ensures end == start + 1 <==> start + 1 == |sl| || 2 * sl[start + 1] > MAX_BATCH_TOKENS
  {
    if end > start + 1 {
      MulMonotone(2, end - start, Max(1, sl[end - 1]));
    }
  }

  /** The batch of an empty text is its own exactly when `BatchedAlone` says so. */
  lemma AloneExactly(lens: seq<nat>, order: seq<nat>, cuts: seq<nat>, j: nat, p: nat)
    requires IsStableOrder(lens, order) && GreedyCuts(SortedLens(lens, order), cuts)
    requires j + 1 < |cuts| && cuts[j] <= p < cuts[j + 1] && p < |order| && lens[order[p]] == 0
    ensures cuts[j + 1] == cuts[j] + 1 <==> BatchedAlone(lens, order[p])
  {
    hide InOrder, Covers, GreedyCuts, EmptyBefore, BatchedAlone;
    PlaceOfEmpty(lens, order, p);
    NoneJoins(lens, order, p);
    CutAtEmpty(lens, order, cuts, j, p);
    AloneMeans(lens, order[p]);
  }

  lemma AloneMeans(lens: seq<nat>, i: nat)
    requires i < |lens|
    ensures BatchedAlone(lens, i) <==>
        && |EmptyBefore(lens, i)| % MAX_BATCH_ROWS == 0
        && forall j :: 0 <= j < |lens| && j != i ==> (lens[j] == 0 && j < i) || 2 * lens[j] > MAX_BATCH_TOKENS
  {
  }

  lemma CutAtEmpty(lens: seq<nat>, order: seq<nat>, cuts: seq<nat>, j: nat, p: nat)
    requires IsStableOrder(lens, order) && GreedyCuts(SortedLens(lens, order), cuts)
    requires j + 1 < |cuts| && cuts[j] <= p < cuts[j + 1] && p < |order| && lens[order[p]] == 0
    ensures cuts[j + 1] == cuts[j] + 1 <==>
        && p % MAX_BATCH_ROWS == 0
        && (p + 1 == |order| || 2 * SortedLens(lens, order)[p + 1] > MAX_BATCH_TOKENS)
  {
    hide GreedyCuts, InOrder, Covers, GreedyCut, Fits;
    var sl, start, end := SortedLens(lens, order), cuts[j], cuts[j + 1];
    CutsOfEmpty(sl, cuts, j, p) by {
      forall q | 0 <= q <= p ensures sl[q] == 0 {
        SortedLensMonotone(lens, order, q, p);
      }
    }
    SortedLensMonotone(lens, order, start, p);
    CutAt(sl, cuts, j);
    CutRoom(sl, start, end);
    if start + 1 < end {
      SortedLensMonotone(lens, order, start + 1, end - 1);
    }
    LoneCut(sl, start, end);
    MultipleOfRows(start, j, p);
  }

  lemma MultipleOfRows(start: nat, j: nat, p: nat)
    requires start == MAX_BATCH_ROWS * j && start <= p < start + MAX_BATCH_ROWS
    ensures p % MAX_BATCH_ROWS == 0 <==> p == start
  {
  }

  /** The second condition of `BatchedAlone`, read in sorted order. */
  lemma NoneJoins(lens: seq<nat>, order: seq<nat>, p: nat)
    requires IsStableOrder(lens, order) && p < |order| && lens[order[p]] == 0
    ensures (forall j :: 0 <= j < |lens| && j != order[p] ==>
               (lens[j] == 0 && j < order[p]) || 2 * lens[j] > MAX_BATCH_TOKENS)
       <==> p + 1 == |order| || 2 * SortedLens(lens, order)[p + 1] > MAX_BATCH_TOKENS
  {
    var sl := SortedLens(lens, order);
    if p + 1 < |order| {
      var next := order[p + 1];
      OrderedAt(lens, order, p, p + 1);
      assert next < |lens| && next != order[p] && !(lens[next] == 0 && next < order[p]);
    }
    if p + 1 == |order| || 2 * sl[p + 1] > MAX_BATCH_TOKENS {
      forall j | 0 <= j < |lens| && j != order[p]
        ensures (lens[j] == 0 && j < order[p]) || 2 * lens[j] > MAX_BATCH_TOKENS
      {
        assert j in order;
        var q :| 0 <= q < |order| && order[q] == j;
        if q < p {
          OrderedAt(lens, order, q, p);
        } else {
          SortedLensMonotone(lens, order, p + 1, q);
        }
      }
    }
  }

  // ---- When only short texts are batched with it --------------------------------------------

  ghost function Short(lens: seq<nat>): set<nat> {
    set j | 0 <= j < |lens| && lens[j] <= 1
  }

  /** Where the batch of the empty text `i` starts. */
  ghost function BatchStart(lens: seq<nat>, i: nat): nat
    requires i < |lens|
  {
    |EmptyBefore(lens, i)| / 64 * 64
  }

  /**
   The texts of at most one token fill the batch, or none of more tokens fits in with those of them that
   are left for it.
   */
  ghost predicate BatchedNarrow(lens: seq<nat>, i: nat)
    requires i < |lens|
  {
    || BatchStart(lens, i) + 64 <= |Short(lens)|
    || forall j :: 0 <= j < |lens| && lens[j] >= 2 ==>
         (|Short(lens)| - BatchStart(lens, i) + 1) * lens[j] > 8192
  }

  /** The short texts stand at the first places. */
  lemma ShortPlaces(lens: seq<nat>, order: seq<nat>) returns (n: nat)
    requires IsStableOrder(lens, order)
    ensures n == |Short(lens)| <= |order|
    ensures forall q :: 0 <= q < |order| ==> (SortedLens(lens, order)[q] <= 1 <==> q < n)
  {
    var sl := SortedLens(lens, order);
    n := 0;
    while n < |order| && sl[n] <= 1
      invariant n <= |order| && forall q :: 0 <= q < n ==> sl[q] <= 1
    {
      n := n + 1;
    }
    forall q | n <= q < |order| ensures sl[q] > 1 {
      SortedLensMonotone(lens, order, n, q);
    }
    forall a, b | 0 <= a < b < n ensures order[a] != order[b] {
      OrderedAt(lens, order, a, b);
    }
    PrefixIs(order, n);
    var first := set q | 0 <= q < n :: order[q];
    forall j | j in Short(lens) ensures j in first {
      assert j in order;
      var q :| 0 <= q < |order| && order[q] == j;
    }
    assert first == Short(lens);
  }

  /** A greedy batch from among the first `n` places stays there exactly when they fill it or no other row fits in. */
  lemma NarrowCut(sl: seq<nat>, start: nat, end: nat, n: nat)
    requires GreedyCut(sl, start, end) && start < n <= |sl|
    requires forall q :: 0 <= q < |sl| ==> (sl[q] <= 1 <==> q < n)
    requires n < |sl| && n < end ==> sl[n] <= sl[end - 1]
    ensures end <= |sl|
    ensures end <= n <==>
        start + MAX_BATCH_ROWS <= n || n == |sl| || (n - start + 1) * sl[n] > MAX_BATCH_TOKENS
  {
    if end <= n {
      assert end < n ==> sl[end] <= 1;
    } else {
      MulMonotone(n - start + 1, end - start, sl[n]);
      MulMonotone(sl[n], sl[end - 1], end - start);
    }
  }

  /** The batch of an empty text is one column wide exactly when `BatchedNarrow` says so. */
  lemma NarrowExactly(lens: seq<nat>, order: seq<nat>, cuts: seq<nat>, j: nat, p: nat)
    requires IsStableOrder(lens, order) && GreedyCuts(SortedLens(lens, order), cuts)
    requires j + 1 < |cuts| && cuts[j] <= p < cuts[j + 1] <= |order| && lens[order[p]] == 0
    ensures SortedLens(lens, order)[cuts[j + 1] - 1] <= 1 <==> BatchedNarrow(lens, order[p])
  {
    hide InOrder, Covers, GreedyCuts, EmptyBefore, BatchedNarrow, GreedyCut, Fits, Short;
    var sl, start, end := SortedLens(lens, order), cuts[j], cuts[j + 1];
    var n := ShortPlaces(lens, order);
    StartOfBatch(lens, order, cuts, j, p);
    CutAt(sl, cuts, j);
    if n < end {
      SortedLensMonotone(lens, order, n, end - 1);
    }
    assert sl[p] <= 1;
    NarrowCut(sl, start, end, n);
    NoneFitsIn(lens, order, n, n - start + 1);
    NarrowMeans(lens, order[p]);
  }

  lemma NarrowMeans(lens: seq<nat>, i: nat)
    requires i < |lens|
    ensures BatchedNarrow(lens, i) <==>
        || BatchStart(lens, i) + MAX_BATCH_ROWS <= |Short(lens)|
        || forall j :: 0 <= j < |lens| && lens[j] >= 2 ==>
             (|Short(lens)| - BatchStart(lens, i) + 1) * lens[j] > MAX_BATCH_TOKENS
  {
  }

  lemma StartOfBatch(lens: seq<nat>, order: seq<nat>, cuts: seq<nat>, j: nat, p: nat)
    requires IsStableOrder(lens, order) && GreedyCuts(SortedLens(lens, order), cuts)
    requires j + 1 < |cuts| && cuts[j] <= p < cuts[j + 1] && p < |order| && lens[order[p]] == 0
    ensures cuts[j] == BatchStart(lens, order[p])
  {
    hide GreedyCuts, InOrder, Covers, GreedyCut, Fits;
    var sl := SortedLens(lens, order);
    CutsOfEmpty(sl, cuts, j, p) by {
      forall q | 0 <= q <= p ensures sl[q] == 0 {
        SortedLensMonotone(lens, order, q, p);
      }
    }
    CutAt(sl, cuts, j);
    CutRoom(sl, cuts[j], cuts[j + 1]);
    PlaceOfEmpty(lens, order, p);
    RoundsDown(cuts[j], j, p);
  }

  lemma RoundsDown(start: nat, j: nat, p: nat)
    requires start == MAX_BATCH_ROWS * j && start <= p < start + MAX_BATCH_ROWS
    ensures p / MAX_BATCH_ROWS * MAX_BATCH_ROWS == start
  {
  }

  /** That no longer text fits in, read in sorted order: the shortest of them decides. */
  lemma NoneFitsIn(lens: seq<nat>, order: seq<nat>, n: nat, k: int)
    requires IsStableOrder(lens, order) && n <= |order| && k >= 1
    requires forall q :: 0 <= q < |order| ==> (SortedLens(lens, order)[q] <= 1 <==> q < n)
    ensures (forall j :: 0 <= j < |lens| && lens[j] >= 2 ==> k * lens[j] > MAX_BATCH_TOKENS)
       <==> n == |order| || k * SortedLens(lens, order)[n] > MAX_BATCH_TOKENS
  {
    hide InOrder;
    var sl := SortedLens(lens, order);
    if n < |order| {
      assert lens[order[n]] == sl[n] >= 2;
    }
    if n == |order| || k * sl[n] > MAX_BATCH_TOKENS {
      forall j | 0 <= j < |lens| && lens[j] >= 2 ensures k * lens[j] > MAX_BATCH_TOKENS {
        assert j in order;
        var q :| 0 <= q < |order| && order[q] == j;
        assert sl[q] == lens[j] && n <= q;
        SortedLensMonotone(lens, order, n, q);
        MulMonotone(sl[n], sl[q], k);
      }
    }
  }
}
