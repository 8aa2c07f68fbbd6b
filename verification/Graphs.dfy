/**
 Graphs that meet the hypothesis of Encode: all that compute each row from its own unmasked ids, with
 every state free to depend on its position, and leave anything at all at the padding.
 */
module Graphs {
  import opened Flat
  import opened Pooling
  import opened Encode
  import opened Wrappers

  /** What puts one buffer after another. */
  function Flatten<F>(vs: seq<seq<F>>): seq<F> {
    if vs == [] then [] else Flatten(vs[..|vs| - 1]) + vs[|vs| - 1]
  }

  lemma {:induction false} FlattenedRow<F>(vs: seq<seq<F>>, n: nat)
    requires AllWide(vs, n)
    ensures |Flatten(vs)| == Offset(|vs|, n)
    ensures forall i :: 0 <= i < |vs| ==> RowIs(Flatten(vs), i, n, vs[i])
  {
    if vs != [] {
      var shorter := vs[..|vs| - 1];
      FlattenedRow(shorter, n);
      forall i | 0 <= i < |shorter| ensures RowIs(Flatten(vs), i, n, vs[i]) {
        assert RowIs(Flatten(shorter), i, n, shorter[i]);
      }
    }
  }

  ghost predicate RowIs<F>(buffer: seq<F>, i: nat, n: nat, row: seq<F>) {
    Offset(i, n) + n <= |buffer| && Row(buffer, i, n) == row
  }

  /**
   A graph by rows: `at` is the state of a token, given its row's unmasked ids and its position;
   `padding` what is left at a padded position, which may depend on the whole batch.
   */
  datatype RowGraph<!F> = RowGraph(dim: nat, at: (seq<int>, nat) -> seq<F>,
                                   padding: (seq<int>, seq<int>, nat, nat, nat, nat) -> seq<F>)

  ghost predicate Wide<F>(g: RowGraph<F>) {
    && (forall ids, t :: |g.at(ids, t)| == g.dim)
    && forall ids, mask, rows, width, r, t :: |g.padding(ids, mask, rows, width, r, t)| == g.dim
  }

  ghost function StateAt<F>(g: RowGraph<F>, ids: seq<int>, mask: seq<int>, rows: nat, width: nat, r: nat,
                            t: nat): seq<F>
    requires |ids| == |mask| == Offset(rows, width) && r < rows && t < width
  {
    var rowIds, rowMask := TensorRow(ids, rows, width, r), TensorRow(mask, rows, width, r);
    if rowMask[t] != 0 then g.at(KeptIds(rowIds, rowMask, width), t) else g.padding(ids, mask, rows, width, r, t)
  }

  ghost function RowStates<F>(g: RowGraph<F>, ids: seq<int>, mask: seq<int>, rows: nat, width: nat, r: nat): seq<seq<F>>
    requires |ids| == |mask| == Offset(rows, width) && r < rows
  {
    seq(width, t requires 0 <= t < width => StateAt(g, ids, mask, rows, width, r, t))
  }

  ghost function Hidden<F>(g: RowGraph<F>, ids: seq<int>, mask: seq<int>, rows: nat, width: nat): seq<F>
    requires |ids| == |mask| == Offset(rows, width)
  {
    Flatten(seq(rows, r requires 0 <= r < rows => Flatten(RowStates(g, ids, mask, rows, width, r))))
  }

  /** As a session's graph: it fails on tensors of the wrong size and on no other. */
  ghost function Graph<F>(g: RowGraph<F>): (seq<int>, seq<int>, nat, nat) -> Option<seq<F>> {
    (ids: seq<int>, mask: seq<int>, rows: nat, width: nat) =>
      if |ids| == |mask| == Offset(rows, width) then Some(Hidden(g, ids, mask, rows, width)) else None
  }

  ghost function States<F>(g: RowGraph<F>): seq<int> -> seq<seq<F>> {
    (ids: seq<int>) => seq(|ids|, t requires 0 <= t < |ids| => g.at(ids, t))
  }

  lemma HiddenRows<F>(g: RowGraph<F>, ids: seq<int>, mask: seq<int>, rows: nat, width: nat)
    requires Wide(g) && |ids| == |mask| == Offset(rows, width)
    ensures |Hidden(g, ids, mask, rows, width)| == Offset(rows, Offset(width, g.dim))
    ensures forall r :: 0 <= r < rows ==>
        HiddenRow(Hidden(g, ids, mask, rows, width), rows, width, g.dim, r)
        == Flatten(RowStates(g, ids, mask, rows, width, r))
  {
    hide Flatten, Offset;
    var all := seq(rows, r requires 0 <= r < rows => Flatten(RowStates(g, ids, mask, rows, width, r)));
    forall r | 0 <= r < rows ensures |all[r]| == Offset(width, g.dim) {
      FlattenedRow(RowStates(g, ids, mask, rows, width, r), g.dim);
    }
    FlattenedRow(all, Offset(width, g.dim));
    forall r | 0 <= r < rows
      ensures HiddenRow(Hidden(g, ids, mask, rows, width), rows, width, g.dim, r) == all[r]
    {
      assert RowIs(Flatten(all), r, Offset(width, g.dim), all[r]);
    }
  }

  lemma OnesThenZeros(mask: seq<int>) returns (n: nat)
    requires PaddedOnRight(mask)
    ensures n <= |mask| && forall t :: 0 <= t < |mask| ==> (mask[t] != 0 <==> t < n)
  {
    n := 0;
    while n < |mask| && mask[n] != 0
      invariant n <= |mask| && forall t :: 0 <= t < n ==> mask[t] != 0
    {
      n := n + 1;
    }
  }

  ghost function First<T>(s: seq<T>, n: nat, t: nat): seq<T>
    requires n <= |s| && t <= |s|
  {
    if t <= n then s[..t] else s[..n]
  }

  /** Under such a mask what is kept is a prefix. */
  lemma {:induction false} KeptIsPrefix<F>(row: seq<F>, vs: seq<seq<F>>, mask: seq<int>, n: nat, dim: nat, t: nat)
    requires t <= |mask| == |vs| && n <= |mask| && Offset(t, dim) <= |row|
    requires forall u :: 0 <= u < |mask| ==> (mask[u] != 0 <==> u < n)
    requires forall u :: 0 <= u < |vs| ==> RowIs(row, u, dim, vs[u])
    ensures Kept(row, mask, dim, t) == First(vs, n, t)
  {
    hide Offset;
    if t > 0 {
      RowFits(t - 1, t, dim);
      assert RowIs(row, t - 1, dim, vs[t - 1]);
      KeptIsPrefix(row, vs, mask, n, dim, t - 1);
    }
  }

  lemma {:induction false} KeptIdsArePrefix(ids: seq<int>, mask: seq<int>, n: nat, t: nat)
    requires t <= |mask| == |ids| && n <= |mask|
    requires forall u :: 0 <= u < |mask| ==> (mask[u] != 0 <==> u < n)
    ensures KeptIds(ids, mask, t) == First(ids, n, t)
  {
    if t > 0 {
      KeptIdsArePrefix(ids, mask, n, t - 1);
    }
  }

  lemma RowGraphMasks<F>(m: Session<F>, g: RowGraph<F>, ids: seq<int>, mask: seq<int>, rows: nat, width: nat, r: nat)
    requires Wide(g) && m.graph == Graph(g) && m.dim == g.dim
    ensures MaskedRow(m, States(g), ids, mask, rows, width, r)
  {
    hide Hidden, KeptIds, Kept, Flatten;
    if r < rows && |ids| == |mask| == Offset(rows, width) && PaddedOnRight(TensorRow(mask, rows, width, r)) {
      KeptRow(g, ids, mask, rows, width, r);
      HiddenRows(g, ids, mask, rows, width);
    }
  }

  lemma KeptRow<F>(g: RowGraph<F>, ids: seq<int>, mask: seq<int>, rows: nat, width: nat, r: nat)
    requires Wide(g) && |ids| == |mask| == Offset(rows, width) && r < rows
    requires PaddedOnRight(TensorRow(mask, rows, width, r))
    ensures var states, rowMask := RowStates(g, ids, mask, rows, width, r), TensorRow(mask, rows, width, r);
        && |Flatten(states)| == Offset(width, g.dim)
        && Kept(Flatten(states), rowMask, g.dim, width)
           == States(g)(KeptIds(TensorRow(ids, rows, width, r), rowMask, width))
  {
    hide Flatten, PaddedOnRight, KeptIds, Kept, Offset, RowIs;
    var states := RowStates(g, ids, mask, rows, width, r);
    FlattenedRow(states, g.dim);
    var rowIds, rowMask := TensorRow(ids, rows, width, r), TensorRow(mask, rows, width, r);
    var n := OnesThenZeros(rowMask);
    KeptIsPrefix(Flatten(states), states, rowMask, n, g.dim, width);
    KeptIdsArePrefix(rowIds, rowMask, n, width);
    var kept := KeptIds(rowIds, rowMask, width);
    assert |kept| == n;
    assert forall t :: 0 <= t < n ==> states[t] == g.at(kept, t);
    assert states[..n] == States(g)(kept);
  }

  /** The hypothesis holds of every graph by rows, whatever its states and its padding. */
  lemma RowGraphConforms<F(!new)>(m: Session<F>, g: RowGraph<F>)
    requires Wide(g) && m.graph == Graph(g) && m.dim == g.dim
    ensures WellShaped(m) && MasksPadding(m, States(g))
  {
    forall ids, mask, rows, width ensures ShapedRun(m, ids, mask, rows, width) {
      if |ids| == |mask| == Offset(rows, width) {
        HiddenRows(g, ids, mask, rows, width);
      }
    }
    forall ids, mask, rows, width, r ensures MaskedRow(m, States(g), ids, mask, rows, width, r) {
      RowGraphMasks(m, g, ids, mask, rows, width, r);
    }
  }

  /** So positions may matter: here the same id has one state at the start of a row and another after it. */
  lemma PositionsMayMatter<F(!new)>(m: Session<F>, x: F, y: F)
    returns (positional: Session<F>, states: seq<int> -> seq<seq<F>>)
    requires x != y
    ensures WellShaped(positional) && MasksPadding(positional, states)
    ensures forall id: int :: states([id, id])[0] != states([id, id])[1]
  {
    var g := RowGraph(1, (ids, t) => [if t == 0 then x else y], (ids, mask, rows, width, r, t) => [x]);
    positional, states := m.(graph := Graph(g), dim := 1), States(g);
    RowGraphConforms(positional, g);
    forall id: int ensures states([id, id])[0] != states([id, id])[1] {
      assert states([id, id]) == [[x], [y]];
    }
  }
}
