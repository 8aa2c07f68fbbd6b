/**
 `OrtSession::encode`: tokenise, sort by length, cut into batches, pad, run the graph, pool,
 normalise and scatter the rows back to input order.
 */
module Encode {
  import opened Flat
  import opened Pooling
  import opened Batching
  import opened Wrappers

  datatype Status = Ok | InvalidArgument | OutputTooSmall | TokenizerFailed | InferenceFailed

  /** What a session is made of: the native tokenizer and the graph may fail, and are otherwise foreign. */
  datatype Session<!F> = Session(
    scalars: Scalars<F>,
    native: string -> Option<seq<nat>>,
    maxTokens: nat,
    graph: (seq<int>, seq<int>, nat, nat) -> Option<seq<F>>,
    dim: nat,
    pooling: Mode,
    normalize: bool)

  // ---- Tokenising --------------------------------------------------------------

  /** The text the native tokenizer sees: it takes a C string, which ends at the first NUL. */
  function CString(s: string): string {
    if s == [] || s[0] == '\0' then [] else [s[0]] + CString(s[1..])
  }

  lemma {:induction false} CStringStopsAtNul(s: string)
    ensures var c := CString(s);
        c <= s && '\0' !in c && (c == s || s[|c|] == '\0')
  {
    if s != [] && s[0] != '\0' {
      CStringStopsAtNul(s[1..]);
    }
  }

  /** Prefix and text go to the tokenizer as one string; more ids than the buffer holds is an error. */
  function Tokens<F>(m: Session<F>, text: string, prefix: string): (ids: Option<seq<nat>>)
    ensures ids.Some? ==> |ids.value| <= m.maxTokens
  {
    match m.native(CString(prefix + text))
    case None => None
    case Some(ids) => if |ids| > m.maxTokens then None else Some(ids)
  }

  /**
   The tokenizer is given the prefix and then the text, up to the first NUL, and what it makes of that
   is the tokens, unless they are too many.
   */
  lemma TokensExactly<F>(m: Session<F>, text: string, prefix: string) returns (seen: string)
    ensures seen <= prefix + text && '\0' !in seen && (seen == prefix + text || (prefix + text)[|seen|] == '\0')
    ensures Tokens(m, text, prefix).Some? <==> m.native(seen).Some? && |m.native(seen).value| <= m.maxTokens
    ensures Tokens(m, text, prefix).Some? ==> Tokens(m, text, prefix) == m.native(seen)
  {
    seen := CString(prefix + text);
    CStringStopsAtNul(prefix + text);
  }

  // ---- Padding -------------------------------------------------------------------

  function Width(ts: seq<seq<nat>>): (w: nat)
    ensures w >= 1 && forall r :: 0 <= r < |ts| ==> |ts[r]| <= w
  {
    if ts == [] then 1 else Max(Width(ts[..|ts| - 1]), |ts[|ts| - 1]|)
  }

  /** One row of each tensor: the tokens and then zeros, and ones for the tokens and then zeros. */
  function IdRow(ids: seq<nat>, width: nat): (row: seq<int>)
    ensures |row| == width && forall t :: 0 <= t < width ==> row[t] == if t < |ids| then ids[t] else 0
  {
    seq(width, t requires 0 <= t => if t < |ids| then ids[t] else 0)
  }

  function MaskRow(ids: seq<nat>, width: nat): (row: seq<int>)
    ensures |row| == width && forall t :: 0 <= t < width ==> row[t] == if t < |ids| then 1 else 0
  {
    seq(width, t requires 0 <= t => if t < |ids| then 1 else 0)
  }

  ghost function PaddedIds(ts: seq<seq<nat>>, width: nat): (s: seq<int>)
    ensures |s| == Offset(|ts|, width)
  {
    if ts == [] then [] else PaddedIds(ts[..|ts| - 1], width) + IdRow(ts[|ts| - 1], width)
  }

  ghost function PaddedMask(ts: seq<seq<nat>>, width: nat): (s: seq<int>)
    ensures |s| == Offset(|ts|, width)
  {
    if ts == [] then [] else PaddedMask(ts[..|ts| - 1], width) + MaskRow(ts[|ts| - 1], width)
  }

  lemma {:induction false} PaddedRow(ts: seq<seq<nat>>, width: nat, r: nat)
    requires r < |ts|
    ensures TensorRow(PaddedIds(ts, width), |ts|, width, r) == IdRow(ts[r], width)
    ensures TensorRow(PaddedMask(ts, width), |ts|, width, r) == MaskRow(ts[r], width)
  {
    var shorter := ts[..|ts| - 1];
    if r < |shorter| {
      PaddedRow(shorter, width, r);
      RowFits(r, |shorter|, width);
    }
  }

  // ---- What one batch computes ---------------------------------------------------

  ghost predicate WellShaped<F>(m: Session<F>) {
    forall ids, mask, rows, width :: ShapedRun(m, ids, mask, rows, width)
  }

  ghost predicate ShapedRun<F>(m: Session<F>, ids: seq<int>, mask: seq<int>, rows: nat, width: nat) {
    var hidden := m.graph(ids, mask, rows, width);
    hidden.Some? ==> |hidden.value| == Offset(rows, Offset(width, m.dim))
  }

  /** The hidden states of one row of a run: `width` token vectors. */
  ghost function HiddenRow<F>(hidden: seq<F>, rows: nat, width: nat, dim: nat, r: nat): (row: seq<F>)
    requires r < rows && |hidden| == Offset(rows, Offset(width, dim))
    ensures |row| == Offset(width, dim)
  {
    RowFits(r, rows, Offset(width, dim));
    Row(hidden, r, Offset(width, dim))
  }

  /** One row of an id or mask tensor. */
  ghost function TensorRow(tensor: seq<int>, rows: nat, width: nat, r: nat): (row: seq<int>)
    requires r < rows && |tensor| == Offset(rows, width)
    ensures |row| == width
  {
    RowFits(r, rows, width);
    Row(tensor, r, width)
  }

  /** The size of the hidden states of a batch. */
  ghost predicate BatchShape<F>(m: Session<F>, ts: seq<seq<nat>>, hidden: seq<F>) {
    |hidden| == Offset(|ts|, Offset(Width(ts), m.dim))
  }

  ghost function RunBatch<F>(m: Session<F>, ts: seq<seq<nat>>): Option<seq<F>> {
    m.graph(PaddedIds(ts, Width(ts)), PaddedMask(ts, Width(ts)), |ts|, Width(ts))
  }

  ghost function Finish<F>(m: Session<F>, v: seq<F>): (u: seq<F>)
    ensures |u| == |v|
  {
    if m.normalize then NormalizeRow(m.scalars, v) else v
  }

  /** Row `r` of a batch: pooled over its own mask and normalised if the model asks for it. */
  ghost function BatchRow<F>(m: Session<F>, ts: seq<seq<nat>>, hidden: seq<F>, r: nat): (v: seq<F>)
    requires r < |ts| && BatchShape(m, ts, hidden)
    ensures |v| == m.dim
  {
    var w := Width(ts);
    Finish(m, PoolRow(m.scalars, m.pooling, HiddenRow(hidden, |ts|, w, m.dim, r),
                      TensorRow(PaddedMask(ts, w), |ts|, w, r), m.dim))
  }

  // ---- Batching preserves meaning --------------------------------------------------

  /** The ids at the unmasked positions of a row, in order. */
  ghost function KeptIds(ids: seq<int>, mask: seq<int>, t: nat): seq<int>
    requires t <= |ids| == |mask|
  {
    if t == 0 then []
    else KeptIds(ids, mask, t - 1) + if mask[t - 1] != 0 then [ids[t - 1]] else []
  }

  /** Ones and then zeros: the only masks that padding makes. */
  ghost predicate PaddedOnRight(mask: seq<int>) {
    forall t, u :: 0 <= t < u < |mask| && mask[u] != 0 ==> mask[t] != 0
  }

  lemma PaddedMaskIsOnRight(ts: seq<seq<nat>>, width: nat, r: nat)
    requires r < |ts|
    ensures PaddedOnRight(TensorRow(PaddedMask(ts, width), |ts|, width, r))
  {
    PaddedRow(ts, width, r);
  }

  /**
   The one hypothesis on the graph: in a row padded on the right the hidden states at the unmasked
   positions are a function `states` of the row's unmasked ids, whatever else is in the batch. The ids
   are the first of their row, so a state may depend on its position.
   */
  ghost predicate MasksPadding<F>(m: Session<F>, states: seq<int> -> seq<seq<F>>) {
    && (forall ids :: AllWide(states(ids), m.dim) && |states(ids)| == |ids|)
    && (forall ids, mask, rows, width, r :: MaskedRow(m, states, ids, mask, rows, width, r))
  }

  ghost predicate MaskedRow<F>(m: Session<F>, states: seq<int> -> seq<seq<F>>, ids: seq<int>, mask: seq<int>,
                               rows: nat, width: nat, r: nat) {
    var hidden := m.graph(ids, mask, rows, width);
    && hidden.Some? && r < rows && |ids| == |mask| == Offset(rows, width)
    && |hidden.value| == Offset(rows, Offset(width, m.dim)) ==>
      var rowMask := TensorRow(mask, rows, width, r);
      PaddedOnRight(rowMask) ==>
        Kept(HiddenRow(hidden.value, rows, width, m.dim, r), rowMask, m.dim, width)
        == states(KeptIds(TensorRow(ids, rows, width, r), rowMask, width))
  }

  /** What a text means on its own: its tokens' states pooled and normalised. No batch, no padding. */
  ghost function Embedding<F>(m: Session<F>, states: seq<int> -> seq<seq<F>>, ids: seq<nat>): (v: seq<F>)
    requires MasksPadding(m, states)
    requires Determined(m, ids)
  {
    Finish(m, Reduce(m.scalars, m.pooling, states(AsInts(ids)), m.dim))
  }

  function AsInts(ids: seq<nat>): seq<int> {
    seq(|ids|, t requires 0 <= t < |ids| => ids[t])
  }

  /** Cls pooling reads the first position, which is padding when a row has no token. */
  ghost predicate Determined<F>(m: Session<F>, ids: seq<nat>) {
    m.pooling.ClsToken? ==> ids != []
  }

  lemma {:induction false} KeptIdsOfPadded(ids: seq<nat>, width: nat, t: nat)
    requires |ids| <= width && t <= width
    ensures KeptIds(IdRow(ids, width), MaskRow(ids, width), t) == AsInts(ids)[..if t <= |ids| then t else |ids|]
  {
    if t > 0 {
      KeptIdsOfPadded(ids, width, t - 1);
    }
  }

  /** The ids a padded batch presents as unmasked in a row are that row's own tokens. */
  lemma PaddedKeepsIds(ts: seq<seq<nat>>, r: nat)
    requires r < |ts|
    ensures var w := Width(ts);
        KeptIds(TensorRow(PaddedIds(ts, w), |ts|, w, r), TensorRow(PaddedMask(ts, w), |ts|, w, r), w) == AsInts(ts[r])
  {
    PaddedRow(ts, Width(ts), r);
    KeptIdsOfPadded(ts[r], Width(ts), Width(ts));
    assert AsInts(ts[r])[..|ts[r]|] == AsInts(ts[r]);
  }

  lemma {:induction false} FirstKept<F>(row: seq<F>, mask: seq<int>, dim: nat, t: nat)
    requires 1 <= t <= |mask| && Offset(t, dim) <= |row| && dim <= |row| && mask[0] != 0
    ensures Kept(row, mask, dim, t) != [] && Kept(row, mask, dim, t)[0] == row[..dim]
  {
    if t > 1 {
      RowFits(t - 1, t, dim);
      FirstKept(row, mask, dim, t - 1);
    } else {
      assert Kept(row, mask, dim, 0) == [];
    }
  }

  /** In a padded batch the kept states of a row are the states of its own tokens. */
  lemma KeptStates<F>(m: Session<F>, states: seq<int> -> seq<seq<F>>, ts: seq<seq<nat>>, hidden: seq<F>, r: nat)
    requires MasksPadding(m, states)
    requires r < |ts| && RunBatch(m, ts) == Some(hidden) && BatchShape(m, ts, hidden)
    ensures var w := Width(ts);
        Kept(HiddenRow(hidden, |ts|, w, m.dim, r), TensorRow(PaddedMask(ts, w), |ts|, w, r), m.dim, w)
        == states(AsInts(ts[r]))
  {
    hide PaddedOnRight;
    var w := Width(ts);
    var allIds, allMask := PaddedIds(ts, w), PaddedMask(ts, w);
    PaddedKeepsIds(ts, r);
    PaddedMaskIsOnRight(ts, w, r);
    assert MaskedRow(m, states, allIds, allMask, |ts|, w, r);
  }

  /** Whatever batch a text is put in, its row is its own embedding. */
  lemma BatchRowIsEmbedding<F>(m: Session<F>, states: seq<int> -> seq<seq<F>>, ts: seq<seq<nat>>,
                               hidden: seq<F>, r: nat)
    requires MasksPadding(m, states)
    requires r < |ts| && RunBatch(m, ts) == Some(hidden) && BatchShape(m, ts, hidden)
    requires Determined(m, ts[r])
    ensures BatchRow(m, ts, hidden, r) == Embedding(m, states, ts[r])
  {
    KeptStates(m, states, ts, hidden, r);
    if m.pooling.ClsToken? {
      var w := Width(ts);
      PaddedRow(ts, w, r);
      RowFits(0, w, m.dim);
      FirstKept(HiddenRow(hidden, |ts|, w, m.dim, r), TensorRow(PaddedMask(ts, w), |ts|, w, r), m.dim, w);
    }
  }

  /** So a text in any batch gets exactly what it gets alone, where a row with tokens has no padding at all. */
  lemma BatchedEqualsAlone<F>(m: Session<F>, states: seq<int> -> seq<seq<F>>, ts: seq<seq<nat>>,
                              hidden: seq<F>, r: nat, alone: seq<F>)
    requires WellShaped(m) && MasksPadding(m, states)
    requires r < |ts| && RunBatch(m, ts) == Some(hidden) && RunBatch(m, [ts[r]]) == Some(alone)
    requires Determined(m, ts[r])
    ensures BatchShape(m, ts, hidden) && BatchShape(m, [ts[r]], alone)
    ensures BatchRow(m, ts, hidden, r) == BatchRow(m, [ts[r]], alone, 0)
    ensures ts[r] != [] ==> Width([ts[r]]) == |ts[r]|
  {
    var w, w1 := Width(ts), Width([ts[r]]);
    assert ShapedRun(m, PaddedIds(ts, w), PaddedMask(ts, w), |ts|, w);
    assert ShapedRun(m, PaddedIds([ts[r]], w1), PaddedMask([ts[r]], w1), 1, w1);
    BatchRowIsEmbedding(m, states, ts, hidden, r);
    BatchRowIsEmbedding(m, states, [ts[r]], alone, 0);
    assert Width([ts[r]]) == Max(Width([]), |ts[r]|);
  }
}
