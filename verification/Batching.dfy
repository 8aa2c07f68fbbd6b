/**
 The batch planner: indices are stable-sorted by token count and the sorted order is cut greedily
 under a row limit and a budget of padded tokens.
 */
module Batching {

  const MAX_BATCH_TOKENS: nat := 8192
  const MAX_BATCH_ROWS: nat := 64

  function Max(a: nat, b: nat): nat {
    if a < b then b else a
  }

  // ---- Stable order ------------------------------------------------------------

  /** Stable sort by length: each element goes after every earlier one that is not longer. */
  function StableSort(lens: seq<nat>, s: seq<nat>): (r: seq<nat>)
    requires forall i :: 0 <= i < |s| ==> s[i] < |lens|
  {
    if s == [] then [] else Insert(lens, StableSort(lens, s[..|s| - 1]), s[|s| - 1])
  }

  function Insert(lens: seq<nat>, s: seq<nat>, x: nat): (r: seq<nat>)
    requires x < |lens|
  {
    if s != [] && s[|s| - 1] < |lens| && lens[x] < lens[s[|s| - 1]]
    then Insert(lens, s[..|s| - 1], x) + [s[|s| - 1]]
    else s + [x]
  }

  function Identity(n: nat): (s: seq<nat>)
    ensures |s| == n && forall i :: 0 <= i < n ==> s[i] == i
  {
    seq(n, i => i)
  }

  /** `a` comes strictly before `b`: it is shorter, or as long and earlier in the input. */
  predicate Precedes(lens: seq<nat>, a: nat, b: nat) {
    a < |lens| && b < |lens| && (lens[a] < lens[b] || (lens[a] == lens[b] && a < b))
  }

  ghost predicate AllBelow(s: seq<nat>, n: nat) {
    forall p :: 0 <= p < |s| ==> s[p] < n
  }

  /** A list of `n` indices into `n` inputs. */
  ghost predicate InRange(order: seq<nat>, n: nat) {
    |order| == n && AllBelow(order, n)
  }

  ghost predicate Covers(order: seq<nat>, n: nat) {
    forall i :: 0 <= i < n ==> i in order
  }

  /** Each element comes strictly before the next. */
  ghost predicate InOrder(lens: seq<nat>, s: seq<nat>) {
    |s| >= 2 ==> InOrder(lens, s[..|s| - 1]) && Precedes(lens, s[|s| - 2], s[|s| - 1])
  }

  lemma {:induction false} OrderedAt(lens: seq<nat>, s: seq<nat>, p: nat, q: nat)
    requires InOrder(lens, s) && p < q < |s|
    ensures Precedes(lens, s[p], s[q])
    decreases |s|
  {
    if q < |s| - 1 {
      OrderedAt(lens, s[..|s| - 1], p, q);
    } else if p < |s| - 2 {
      OrderedAt(lens, s[..|s| - 1], p, |s| - 2);
    }
  }

  /** A permutation of all indices, by length and then by input position. */
  ghost predicate IsStableOrder(lens: seq<nat>, order: seq<nat>) {
    InRange(order, |lens|) && InOrder(lens, order) && Covers(order, |lens|)
  }

  /** Inserting the next index of the input keeps the order: it goes after every element that is not longer. */
  lemma {:induction false} InsertKeepsOrder(lens: seq<nat>, s: seq<nat>, x: nat)
    requires x < |lens| && InOrder(lens, s) && AllBelow(s, x)
    ensures var r := Insert(lens, s, x);
        && InOrder(lens, r) && AllBelow(r, x + 1) && |r| == |s| + 1
        && r[|r| - 1] == (if s != [] && lens[x] < lens[s[|s| - 1]] then s[|s| - 1] else x)
  {
    var r := Insert(lens, s, x);
    if s != [] && lens[x] < lens[s[|s| - 1]] {
      var shorter := s[..|s| - 1];
      InsertKeepsOrder(lens, shorter, x);
      assert r[..|r| - 1] == Insert(lens, shorter, x);
    } else {
      assert r[..|r| - 1] == s;
    }
  }

  lemma {:induction false} InsertCovers(lens: seq<nat>, s: seq<nat>, x: nat, n: nat)
    requires x < |lens| && forall i :: 0 <= i < n ==> i in s || i == x
    ensures Covers(Insert(lens, s, x), n)
  {
    forall i | 0 <= i < n ensures i in Insert(lens, s, x) {
      InsertKeeps(lens, s, x, i);
    }
  }

  lemma {:induction false} InsertKeeps(lens: seq<nat>, s: seq<nat>, x: nat, i: nat)
    requires x < |lens| && (i in s || i == x)
    ensures i in Insert(lens, s, x)
  {
    if s != [] && s[|s| - 1] < |lens| && lens[x] < lens[s[|s| - 1]] && i != s[|s| - 1] {
      assert i in s ==> i in s[..|s| - 1];
      InsertKeeps(lens, s[..|s| - 1], x, i);
    }
  }

  /** The order the code sorts into, for the first `n` texts. */
  function SortedFirst(lens: seq<nat>, n: nat): seq<nat>
    requires n <= |lens|
  {
    StableSort(lens, Identity(n))
  }

  lemma SortedNext(lens: seq<nat>, n: nat) returns (shorter: seq<nat>, r: seq<nat>)
    requires 0 < n <= |lens|
    ensures shorter == SortedFirst(lens, n - 1) && r == SortedFirst(lens, n) == Insert(lens, shorter, n - 1)
  {
    assert Identity(n)[..n - 1] == Identity(n - 1);
    shorter, r := SortedFirst(lens, n - 1), SortedFirst(lens, n);
  }

  lemma {:induction false} SortOrders(lens: seq<nat>, n: nat) returns (r: seq<nat>)
    requires n <= |lens|
    ensures r == SortedFirst(lens, n) && InOrder(lens, r) && InRange(r, n)
  {
    if n == 0 {
      r := [];
    } else {
      var shorter := SortOrders(lens, n - 1);
      var _, next := SortedNext(lens, n);
      InsertKeepsOrder(lens, shorter, n - 1);
      r := next;
    }
  }

  lemma {:induction false} SortCovers(lens: seq<nat>, n: nat)
    requires n <= |lens|
    ensures Covers(SortedFirst(lens, n), n)
  {
    if n > 0 {
      SortCovers(lens, n - 1);
      var shorter, _ := SortedNext(lens, n);
      InsertCovers(lens, shorter, n - 1, n);
    }
  }

  lemma SortedOrder(lens: seq<nat>)
    ensures IsStableOrder(lens, StableSort(lens, Identity(|lens|)))
  {
    var _ := SortOrders(lens, |lens|);
    SortCovers(lens, |lens|);
  }

  /** There is only one such order. */
  lemma {:induction false} StableOrderIsUnique(lens: seq<nat>, a: seq<nat>, b: seq<nat>, p: nat)
    requires IsStableOrder(lens, a) && IsStableOrder(lens, b) && p <= |lens|
    ensures a[..p] == b[..p]
  {
    if p > 0 {
      StableOrderIsUnique(lens, a, b, p - 1);
      if a[p - 1] != b[p - 1] {
        EarliestLeft(lens, a, b, p - 1);
        EarliestLeft(lens, b, a, p - 1);
      }
    }
  }

  lemma EarliestLeft(lens: seq<nat>, a: seq<nat>, b: seq<nat>, p: nat)
    requires IsStableOrder(lens, a) && IsStableOrder(lens, b) && p < |lens|
    requires a[..p] == b[..p] && a[p] != b[p]
    ensures Precedes(lens, a[p], b[p])
  {
    assert b[p] in a;
    var q :| 0 <= q < |a| && a[q] == b[p];
    if q < p {
      assert a[..p][q] == b[..p][q];
      OrderedAt(lens, b, q, p);
    } else {
      OrderedAt(lens, a, p, q);
    }
  }

  // ---- Greedy cuts -------------------------------------------------------------

  /** Lengths read in sorted order. */
  ghost function SortedLens(lens: seq<nat>, order: seq<nat>): (sl: seq<nat>)
    requires InRange(order, |lens|)
    ensures |sl| == |lens| && forall p :: 0 <= p < |sl| ==> sl[p] == lens[order[p]]
  {
    seq(|order|, p requires 0 <= p < |order| => lens[order[p]])
  }

  lemma SortedLensMonotone(lens: seq<nat>, order: seq<nat>, p: nat, q: nat)
    requires IsStableOrder(lens, order) && p <= q < |lens|
    ensures SortedLens(lens, order)[p] <= SortedLens(lens, order)[q]
  {
    if p < q {
      OrderedAt(lens, order, p, q);
    }
  }

  /** The `k` rows from `start` in sorted order respect the limits; the last of them is the longest. */
  ghost predicate Fits(sl: seq<nat>, start: nat, k: nat) {
    && 1 <= k <= MAX_BATCH_ROWS
    && start + k <= |sl|
    && (k == 1 || k * Max(1, sl[start + k - 1]) <= MAX_BATCH_TOKENS)
  }

  /** One cut of the planner: the batch fits and one more row would not. */
  ghost predicate GreedyCut(sl: seq<nat>, start: nat, end: nat) {
    start < end && Fits(sl, start, end - start) && !Fits(sl, start, end - start + 1)
  }

  /** The cut positions of a run that has planned `cuts[|cuts| - 1]` rows so far. */
  ghost predicate GreedyCuts(sl: seq<nat>, cuts: seq<nat>)
    decreases |cuts|
  {
    && |cuts| >= 1
    && if |cuts| == 1 then cuts == [0]
       else GreedyCuts(sl, cuts[..|cuts| - 1]) && GreedyCut(sl, cuts[|cuts| - 2], cuts[|cuts| - 1])
  }

  ghost predicate CompletePlan(sl: seq<nat>, cuts: seq<nat>) {
    GreedyCuts(sl, cuts) && cuts[|cuts| - 1] == |sl|
  }

  lemma {:induction false} CutAt(sl: seq<nat>, cuts: seq<nat>, j: nat)
    requires GreedyCuts(sl, cuts) && j < |cuts| - 1
    ensures GreedyCut(sl, cuts[j], cuts[j + 1])
    decreases |cuts|
  {
    if j < |cuts| - 2 {
      CutAt(sl, cuts[..|cuts| - 1], j);
    }
  }

  lemma CutRoom(sl: seq<nat>, start: nat, end: nat)
    requires GreedyCut(sl, start, end)
    ensures start < end <= |sl| && end <= start + MAX_BATCH_ROWS && Fits(sl, start, end - start)
  {
  }

  lemma {:induction false} CutsAscend(sl: seq<nat>, cuts: seq<nat>, a: nat, b: nat)
    requires GreedyCuts(sl, cuts) && a <= b < |cuts|
    ensures cuts[a] <= cuts[b] <= |sl| && (a < b ==> cuts[a] < cuts[b])
    decreases b
  {
    if b > 0 {
      CutAt(sl, cuts, b - 1);
      CutsAscend(sl, cuts, if a < b then a else b - 1, b - 1);
    } else {
      FirstCut(sl, cuts);
    }
  }

  lemma {:induction false} FirstCut(sl: seq<nat>, cuts: seq<nat>)
    requires GreedyCuts(sl, cuts)
    ensures cuts[0] == 0
    decreases |cuts|
  {
    if |cuts| > 1 {
      FirstCut(sl, cuts[..|cuts| - 1]);
    }
  }

  /** The padded size of a planned batch stays within the budget, or within one row of the longest text. */
  lemma PaddedSizeBounded(sl: seq<nat>, start: nat, k: nat, width: nat, limit: nat)
    requires Fits(sl, start, k) && width == Max(1, sl[start + k - 1])
    requires forall p :: 0 <= p < |sl| ==> sl[p] <= limit
    ensures k * width <= Max(MAX_BATCH_TOKENS, limit)
  {
  }

  // ---- No grouping does better ---------------------------------------------------

  /** The limits on a batch read on any set of rows, in no particular order. */
  ghost predicate Feasible(lens: seq<nat>, g: set<nat>) {
    && |g| <= 64
    && (forall i :: i in g ==> i < |lens|)
    && (|g| <= 1 || forall i :: i in g ==> |g| * Max(1, lens[i]) <= 8192)
  }

  ghost function Union(groups: seq<set<nat>>): set<nat> {
    set g, i | g in groups && i in g :: i
  }

  ghost function Indices(n: nat): (s: set<nat>)
    ensures |s| == n && forall i: nat :: i in s <==> i < n
  {
    if n == 0 then {} else Indices(n - 1) + {n - 1}
  }

  lemma SubsetSize(a: set<nat>, b: set<nat>)
    requires a <= b
    ensures |a| <= |b|
  {
    assert b == a + (b - a);
  }

  /** The indices at the first `e` places of an order number at most `e`. */
  lemma {:induction false} PrefixSize(order: seq<nat>, e: nat)
    requires e <= |order|
    ensures |set p | 0 <= p < e :: order[p]| <= e
  {
    var s := set p | 0 <= p < e :: order[p];
    if e == 0 {
      assert s == {};
    } else {
      var shorter := set p | 0 <= p < e - 1 :: order[p];
      PrefixSize(order, e - 1);
      assert s == shorter + {order[e - 1]};
    }
  }

  /** If more than `e` indices have length at most `longest`, so has the one at place `e`. */
  lemma ManyShortRows(lens: seq<nat>, order: seq<nat>, u: set<nat>, longest: nat, e: nat)
    requires IsStableOrder(lens, order)
    requires e < |u| && e < |lens|
    requires forall i :: i in u ==> i < |lens| && lens[i] <= longest
    ensures SortedLens(lens, order)[e] <= longest
  {
    if lens[order[e]] > longest {
      var early := set p | 0 <= p < e :: order[p];
      PrefixSize(order, e);
      forall i | i in u ensures i in early {
        assert i in order;
        var p :| 0 <= p < |order| && order[p] == i;
        if e < p {
          OrderedAt(lens, order, e, p);
        }
      }
      SubsetSize(u, early);
    }
  }

  lemma LongestMember(lens: seq<nat>, u: set<nat>) returns (longest: nat)
    requires u != {} && forall i :: i in u ==> i < |lens|
    ensures longest in u && forall i :: i in u ==> lens[i] <= lens[longest]
    decreases |u|
  {
    var x :| x in u;
    if u == {x} {
      longest := x;
    } else {
      var rest := LongestMember(lens, u - {x});
      longest := if lens[rest] < lens[x] then x else rest;
    }
  }

  ghost function CutAfter(sl: seq<nat>, cuts: seq<nat>, m: nat): nat
    requires |cuts| >= 1
  {
    if m < |cuts| then cuts[m] else |sl|
  }

  /**
   Greedy stays ahead: after as many batches as there are groups, the planner has passed at least
   as many rows as the groups hold together, whichever rows those are.
   */
  lemma {:induction false} StaysAhead(lens: seq<nat>, order: seq<nat>, cuts: seq<nat>, groups: seq<set<nat>>)
    requires IsStableOrder(lens, order)
    requires CompletePlan(SortedLens(lens, order), cuts)
    requires forall g :: g in groups ==> Feasible(lens, g)
    ensures |Union(groups)| <= CutAfter(SortedLens(lens, order), cuts, |groups|)
    decreases |groups|
  {
    hide InOrder, Covers, Feasible, Union, GreedyCut, Fits;
    var u, m := Union(groups), |groups|;
    var sl := SortedLens(lens, order);
    UnionSize(lens, groups);
    if u == {} || m >= |cuts| {
      return;
    }
    var i := LongestMember(lens, u);
    var at := GroupOf(groups, i);
    StaysAhead(lens, order, cuts, groups[..at] + groups[at + 1..]);
    UnionWithout(groups, at);
    CutAt(sl, cuts, m - 1);
    OneMoreBatch(lens, order, cuts[m - 1], cuts[m], u, groups[at], i);
  }

  /** The step: with the group holding the longest row set aside, the next cut passes the rest of the rows. */
  lemma OneMoreBatch(lens: seq<nat>, order: seq<nat>, start: nat, end: nat, u: set<nat>, g: set<nat>, i: nat)
    requires IsStableOrder(lens, order)
    requires GreedyCut(SortedLens(lens, order), start, end)
    requires |u| <= |lens| && |u| <= start + |g|
    requires Feasible(lens, g) && i in g
    requires forall j :: j in u ==> j < |lens| && lens[j] <= lens[i]
    ensures |u| <= end
  {
    if |u| > end {
      ManyShortRows(lens, order, u, lens[i], end);
      MoreRowsFit(SortedLens(lens, order), start, end, |g|, lens[i]);
    }
  }

  lemma UnionSize(lens: seq<nat>, groups: seq<set<nat>>)
    requires forall g :: g in groups ==> Feasible(lens, g)
    ensures |Union(groups)| <= |lens| && forall i :: i in Union(groups) ==> i < |lens|
  {
    SubsetSize(Union(groups), Indices(|lens|));
  }

  lemma GroupOf(groups: seq<set<nat>>, i: nat) returns (at: nat)
    requires i in Union(groups)
    ensures at < |groups| && i in groups[at]
  {
    at :| 0 <= at < |groups| && i in groups[at];
  }

  lemma UnionWithout(groups: seq<set<nat>>, at: nat)
    requires at < |groups|
    ensures |Union(groups)| <= |Union(groups[..at] + groups[at + 1..])| + |groups[at]|
  {
    var rest := groups[..at] + groups[at + 1..];
    assert forall g :: g in groups ==> g in rest || g == groups[at];
    assert Union(groups) <= Union(rest) + groups[at];
    SubsetSize(Union(groups), Union(rest) + groups[at]);
  }

  /** A cut cannot be greedy when a group of that many rows, none longer, is feasible. */
  lemma MoreRowsFit(sl: seq<nat>, start: nat, end: nat, size: nat, longest: nat)
    requires start < end < |sl| && end - start + 1 <= size <= MAX_BATCH_ROWS
    requires size * Max(1, longest) <= MAX_BATCH_TOKENS
    requires sl[end] <= longest
    ensures Fits(sl, start, end - start + 1)
  {
    var k, w := end - start + 1, Max(1, sl[end]);
    assert k * w <= size * w by { MulMonotone(k, size, w); }
    assert size * w <= size * Max(1, longest) by { MulMonotone(w, Max(1, longest), size); }
  }

  lemma MulMonotone(a: nat, b: nat, c: nat)
    requires a <= b
    ensures a * c <= b * c && c * a <= c * b
  {
    assert b * c == a * c + (b - a) * c;
  }

  /**
   The planner is globally optimal: any collection of feasible groups that covers every row, in any
   order and whether or not contiguous in the sorted order, has at least as many groups as the plan
   has batches.
   */
  lemma PlanIsOptimal(lens: seq<nat>, order: seq<nat>, cuts: seq<nat>, groups: seq<set<nat>>)
    requires IsStableOrder(lens, order)
    requires CompletePlan(SortedLens(lens, order), cuts)
    requires forall g :: g in groups ==> Feasible(lens, g)
    requires forall i :: 0 <= i < |lens| ==> i in Union(groups)
    ensures |cuts| - 1 <= |groups|
  {
    StaysAhead(lens, order, cuts, groups);
    assert Union(groups) == Indices(|lens|);
    if |groups| < |cuts| - 1 {
      CutsAscend(SortedLens(lens, order), cuts, |groups|, |cuts| - 1);
    }
  }

  /** The plan's own batches are feasible groups, so the optimum is attained. */
  lemma BatchIsFeasible(lens: seq<nat>, order: seq<nat>, start: nat, k: nat)
    requires IsStableOrder(lens, order)
    requires Fits(SortedLens(lens, order), start, k)
    ensures Feasible(lens, set p | start <= p < start + k :: order[p])
  {
    var g := set p | start <= p < start + k :: order[p];
    var sl := SortedLens(lens, order);
    PrefixSize(order[start..], k);
    assert g == set p | 0 <= p < k :: order[start..][p] by {
      forall i | i in g ensures i in (set p | 0 <= p < k :: order[start..][p]) {
        var p :| start <= p < start + k && order[p] == i;
        assert order[start..][p - start] == i;
      }
    }
    if |g| > 1 {
      forall i | i in g ensures |g| * Max(1, lens[i]) <= MAX_BATCH_TOKENS {
        var p :| start <= p < start + k && order[p] == i;
        SortedLensMonotone(lens, order, p, start + k - 1);
        MulMonotone(|g|, k, Max(1, lens[i]));
        MulMonotone(Max(1, lens[i]), Max(1, sl[start + k - 1]), k);
      }
    }
  }
}
