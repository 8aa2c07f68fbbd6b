/**
 Texts without tokens under cls pooling: the one case in which a vector may depend on the batch, and
 exactly when it does.
 */
module EmptyTexts {
  import opened Flat
  import opened Pooling
  import opened Batching
  import opened Encode
  import opened OrtSession
  import opened BatchingMeaning
  import opened Graphs
  import opened Runs
  import opened EmptyPlaces
  import opened Wrappers

  // ---- What a call returns for an empty text ----------------------------------------------

  /** The batch a finished call put a text in. */
  lemma BatchOfText<F>(m: Session<F>, prefix: string, call: Call<F>, i: nat) returns (j: nat, p: nat)
    requires Ended(m, prefix, Ok, call) && i < |call.texts|
    ensures j + 1 < |call.cuts| && call.cuts[j] <= p < call.cuts[j + 1] <= |call.order| && call.order[p] == i
    ensures Written(m, call.tokens, call.order, call.cuts[j], call.cuts[j + 1],
                    call.cuts[j + 1] - call.cuts[j], call.after)
  {
    hide Tokenized, Stopped, InOrder, OnlyPlaces, BatchesWritten, GreedyCuts, Written, AllBelow, Lens, SortedLens;
    RowsWritten(m, prefix, Ok, call);
    assert i in call.order;
    p :| 0 <= p < |call.order| && call.order[p] == i;
    j := BatchOfPlace(m, call.tokens, call.order, SortedLens(Lens(call.tokens), call.order), call.cuts, call.after, p);
  }

  lemma {:induction false} BatchOfPlace<F>(m: Session<F>, tokens: seq<seq<nat>>, order: seq<nat>, sl: seq<nat>,
                                           cuts: seq<nat>, out: seq<F>, p: nat) returns (j: nat)
    requires InRange(order, |tokens|) && RoomFor(out, |tokens|, m.dim)
    requires GreedyCuts(sl, cuts) && BatchesWritten(m, tokens, order, cuts, out) && p < cuts[|cuts| - 1]
    ensures j + 1 < |cuts| && cuts[j] <= p < cuts[j + 1] <= |order|
    ensures Written(m, tokens, order, cuts[j], cuts[j + 1], cuts[j + 1] - cuts[j], out)
    decreases |cuts|
  {
    hide Written;
    if p < cuts[|cuts| - 2] {
      j := BatchOfPlace(m, tokens, order, sl, cuts[..|cuts| - 1], out, p);
    } else {
      j := |cuts| - 2;
    }
  }

  /** The vector of an empty text is its row in its batch, and the batch is as described above. */
  lemma VectorOfEmpty<F>(m: Session<F>, prefix: string, call: Call<F>, i: nat) returns (ts: seq<seq<nat>>, r: nat)
    requires Ended(m, prefix, Ok, call) && i < |call.texts| && call.tokens[i] == []
    ensures r < |ts| && ts[r] == [] && (|ts| == 1 <==> BatchedAlone(Lens(call.tokens), i))
    ensures Width(ts) == 1 <==> BatchedNarrow(Lens(call.tokens), i)
    ensures RunBatch(m, ts).Some? && BatchShape(m, ts, RunBatch(m, ts).value)
    ensures Vector(m, call, i) == BatchRow(m, ts, RunBatch(m, ts).value, r)
  {
    hide Tokenized, Stopped, InOrder, Covers, OnlyPlaces, BatchesWritten, GreedyCuts;
    hide BatchShape, BatchRow, BatchedAlone, BatchedNarrow;
    RowsWritten(m, prefix, Ok, call);
    var j, p := BatchOfText(m, prefix, call, i);
    AloneExactly(Lens(call.tokens), call.order, call.cuts, j, p);
    NarrowExactly(Lens(call.tokens), call.order, call.cuts, j, p);
    BatchWidth(call.tokens, call.order, call.cuts[j], call.cuts[j + 1]);
    ts, r := BatchOf(call.tokens, call.order, call.cuts[j], call.cuts[j + 1]), p - call.cuts[j];
  }

  /** A text that is the only one of its call is batched alone, and with none longer. */
  lemma OnlyTextIsAlone<F>(m: Session<F>, prefix: string, call: Call<F>)
    requires Ended(m, prefix, Ok, call) && |call.texts| == 1
    ensures BatchedAlone(Lens(call.tokens), 0)
    ensures call.tokens[0] == [] ==> BatchedNarrow(Lens(call.tokens), 0)
  {
    assert EmptyBefore(Lens(call.tokens), 0) == {};
  }

  ghost predicate SameTokenizer<F>(m: Session<F>, n: Session<F>) {
    m.native == n.native && m.maxTokens == n.maxTokens
  }

  /** If `m` masks padding, a call that succeeds gives text `i` the vector that a call on it alone gives. */
  ghost predicate CallsAgree<F>(m: Session<F>, states: seq<int> -> seq<seq<F>>, prefix: string,
                                a: Call<F>, b: Call<F>, i: nat) {
    && WellShaped(m) && MasksPadding(m, states)
    && Ended(m, prefix, Ok, a) && Ended(m, prefix, Ok, b) && i < |a.texts| && b.texts == [a.texts[i]]
    ==> Vector(m, a, i) == Vector(m, b, 0)
  }

  lemma SameTokens<F>(m: Session<F>, prefix: string, a: Call<F>, b: Call<F>, i: nat)
    requires Ended(m, prefix, Ok, a) && Ended(m, prefix, Ok, b) && i < |a.texts| && b.texts == [a.texts[i]]
    ensures a.tokens[i] == b.tokens[0]
  {
    TokenizedAt(m, a.texts, prefix, a.tokens, i);
    TokenizedAt(m, b.texts, prefix, b.tokens, 0);
  }

  lemma AloneAgrees<F>(m: Session<F>, states: seq<int> -> seq<seq<F>>, prefix: string, a: Call<F>, b: Call<F>, i: nat)
    requires MasksPadding(m, states)
    requires Ended(m, prefix, Ok, a) && Ended(m, prefix, Ok, b) && i < |a.texts| && b.texts == [a.texts[i]]
    requires Determined(m, a.tokens[i]) || BatchedAlone(Lens(a.tokens), i)
    ensures Vector(m, a, i) == Vector(m, b, 0)
  {
    hide Outcome, Vector, MasksPadding, BatchedAlone, BatchRow, BatchShape, RunBatch;
    if Determined(m, a.tokens[i]) {
      SameTextSameVector(m, states, prefix, a, i, b, 0);
    } else {
      SameTokens(m, prefix, a, b, i);
      OnlyTextIsAlone(m, prefix, b);
      var ts, r := VectorOfEmpty(m, prefix, a, i);
      var us, q := VectorOfEmpty(m, prefix, b, 0);
      assert ts == [[]] == us && r == q == 0;
    }
  }

  // ---- A graph that tells the difference --------------------------------------------------

  /**
   States that depend on the position, and padding that reads `x` unless the run is one column wide - and
   of one row only, if the graph goes `byRows` - when it reads `y`.
   */
  ghost function Telling<F>(x: F, y: F, byRows: bool): RowGraph<F> {
    RowGraph(1, (ids, t) => [if t == 0 then x else y],
             (ids, mask, rows, width, r, t) => [if width == 1 && (byRows ==> rows == 1) then y else x])
  }

  ghost function TellingSession<F>(m: Session<F>, x: F, y: F, byRows: bool): Session<F> {
    m.(graph := Graph(Telling(x, y, byRows)), dim := 1, pooling := ClsToken, normalize := false)
  }

  /** What such a graph cannot tell from being alone. */
  ghost predicate Harmless(lens: seq<nat>, i: nat, byRows: bool)
    requires i < |lens|
  {
    if byRows then BatchedAlone(lens, i) else BatchedNarrow(lens, i)
  }

  lemma TellingConforms<F(!new)>(m: Session<F>, x: F, y: F, byRows: bool)
    ensures var told := TellingSession(m, x, y, byRows);
        WellShaped(told) && MasksPadding(told, States(Telling(x, y, byRows))) && NeverFails(told)
  {
    var told, g := TellingSession(m, x, y, byRows), Telling(x, y, byRows);
    RowGraphConforms(told, g);
    forall ts ensures RunBatch(told, ts).Some? && BatchShape(told, ts, RunBatch(told, ts).value) {
      var w := Width(ts);
      HiddenRows(g, PaddedIds(ts, w), PaddedMask(ts, w), |ts|, w);
    }
  }

  /** Cls pooling reads what the graph left at the padding of an empty row. */
  lemma EmptyRowReads<F>(m: Session<F>, x: F, y: F, byRows: bool, ts: seq<seq<nat>>, r: nat)
    requires r < |ts| && ts[r] == []
    ensures var told := TellingSession(m, x, y, byRows);
        && RunBatch(told, ts).Some? && BatchShape(told, ts, RunBatch(told, ts).value)
        && BatchRow(told, ts, RunBatch(told, ts).value, r) 
           == [if Width(ts) == 1 && (byRows ==> |ts| == 1) then y else x]
  {
    hide Offset, Hidden, RowStates, PoolRow;
    var told, g, w := TellingSession(m, x, y, byRows), Telling(x, y, byRows), Width(ts);
    var ids, mask := PaddedIds(ts, w), PaddedMask(ts, w);
    HiddenRows(g, ids, mask, |ts|, w);
    FirstState(told.scalars, g, ids, mask, |ts|, w, r);
    PaddedRow(ts, w, r);
    FirstIsPadding(g, ids, mask, |ts|, w, r);
    assert RunBatch(told, ts) == Some(Hidden(g, ids, mask, |ts|, w));
  }

  lemma FirstIsPadding<F>(g: RowGraph<F>, ids: seq<int>, mask: seq<int>, rows: nat, width: nat, r: nat)
    requires |ids| == |mask| == Offset(rows, width) && r < rows && width >= 1
    requires TensorRow(mask, rows, width, r)[0] == 0
    ensures RowStates(g, ids, mask, rows, width, r)[0] == g.padding(ids, mask, rows, width, r, 0)
  {
    hide Offset;
  }

  lemma FirstState<F>(s: Scalars<F>, g: RowGraph<F>, ids: seq<int>, mask: seq<int>, rows: nat, width: nat, r: nat)
    requires Wide(g) && |ids| == |mask| == Offset(rows, width) && r < rows && width >= 1
    ensures |Hidden(g, ids, mask, rows, width)| == Offset(rows, Offset(width, g.dim))
    ensures PoolRow(s, ClsToken, HiddenRow(Hidden(g, ids, mask, rows, width), rows, width, g.dim, r),
                    TensorRow(mask, rows, width, r), g.dim)
         == RowStates(g, ids, mask, rows, width, r)[0]
  {
    hide Offset, Flatten, Hidden, StateAt;
    HiddenRows(g, ids, mask, rows, width);
    var states := RowStates(g, ids, mask, rows, width, r);
    assert AllWide(states, g.dim) by {
      StatesAreWide(g, ids, mask, rows, width, r);
    }
    FlattenedRow(states, g.dim);
    assert RowIs(Flatten(states), 0, g.dim, states[0]);
    RowFits(0, width, g.dim);
  }

  lemma StatesAreWide<F>(g: RowGraph<F>, ids: seq<int>, mask: seq<int>, rows: nat, width: nat, r: nat)
    requires Wide(g) && |ids| == |mask| == Offset(rows, width) && r < rows
    ensures AllWide(RowStates(g, ids, mask, rows, width, r), g.dim)
  {
  }

  /** On that graph a call ends, and what it gives an empty text tells what it was batched with. */
  lemma EmptyVector<F(!new)>(m: Session<F>, prefix: string, texts: seq<string>, tokens: seq<seq<nat>>, i: nat,
                             x: F, y: F, byRows: bool) returns (call: Call<F>)
    requires Tokenized(m, texts, prefix, tokens) && |tokens| == |texts| && i < |texts| && tokens[i] == []
    ensures var told := TellingSession(m, x, y, byRows);
        && Ended(told, prefix, Ok, call) && call.texts == texts && call.tokens == tokens
        && Vector(told, call, i) == [if Harmless(Lens(tokens), i, byRows) then y else x]
  {
    hide Outcome, Vector, BatchedAlone, BatchedNarrow, BatchRow, BatchShape, RunBatch, Graph;
    hide NeverFails, MasksPadding, WellShaped;
    hide Tokenized, InRange;
    var told := TellingSession(m, x, y, byRows);
    TellingConforms(m, x, y, byRows);
    OffsetIsProduct(|texts|, 1);
    TokenizedLikewise(m, told, texts, prefix, tokens);
    call := CallEnds(told, prefix, texts, tokens, seq(|texts|, _ => x));
    var ts, r := VectorOfEmpty(told, prefix, call, i);
    EmptyRowReads(m, x, y, byRows, ts, r);
    WidthOfEmpty(ts);
  }

  lemma WidthOfEmpty(ts: seq<seq<nat>>)
    ensures ts == [[]] ==> Width(ts) == 1
  {
    assert Width([]) == 1;
    assert ts == [[]] ==> Width(ts) == Max(Width(ts[..0]), 0);
  }

  /** Two calls that give one empty text two vectors: among the others, and alone. */
  lemma DisagreeingCalls<F(!new)>(m: Session<F>, prefix: string, texts: seq<string>, tokens: seq<seq<nat>>, i: nat,
                                  x: F, y: F, byRows: bool) returns (a: Call<F>, b: Call<F>)
    requires Tokenized(m, texts, prefix, tokens) && |tokens| == |texts| && i < |texts|
    requires tokens[i] == [] && !Harmless(Lens(tokens), i, byRows)
    ensures var told := TellingSession(m, x, y, byRows);
        && Ended(told, prefix, Ok, a) && a.texts == texts && Vector(told, a, i) == [x]
        && Ended(told, prefix, Ok, b) && b.texts == [texts[i]] && Vector(told, b, 0) == [y]
  {
    hide Outcome, Vector, BatchedAlone, BatchedNarrow, TellingSession, Ended;
    a := EmptyVector(m, prefix, texts, tokens, i, x, y, byRows);
    TokenizedAt(m, texts, prefix, tokens, i);
    b := EmptyVector(m, prefix, [texts[i]], [tokens[i]], 0, x, y, byRows);
    OnlyTextIsAlone(TellingSession(m, x, y, byRows), prefix, b);
  }

  lemma {:induction false} TokenizedLikewise<F>(m: Session<F>, n: Session<F>, texts: seq<string>, prefix: string,
                                                tokens: seq<seq<nat>>)
    requires SameTokenizer(m, n) && Tokenized(m, texts, prefix, tokens)
    ensures Tokenized(n, texts, prefix, tokens)
  {
    if texts != [] {
      TokenizedLikewise(m, n, texts[..|texts| - 1], prefix, tokens[..|tokens| - 1]);
    }
  }

  /**
   Batching makes no difference to text `i` - on every graph that masks padding, a call on
   all the texts gives it the vector that a call on it alone does - if and only if, under cls pooling,
   it has tokens or is batched alone.
   */
  lemma AgreesExactly<F(!new)>(n: Session<F>, prefix: string, texts: seq<string>, tokens: seq<seq<nat>>, i: nat,
                               x: F, y: F)
    requires Tokenized(n, texts, prefix, tokens) && |tokens| == |texts| && i < |texts| && x != y
    ensures (forall m: Session<F>, states, a: Call<F>, b: Call<F>
               | SameTokenizer(m, n) && m.pooling == n.pooling && a.texts == texts ::
               CallsAgree(m, states, prefix, a, b, i))
       <==> (n.pooling.ClsToken? && tokens[i] == [] ==> BatchedAlone(Lens(tokens), i))
  {
    hide Tokenized, BatchedAlone, Outcome, Vector;
    if n.pooling.ClsToken? && tokens[i] == [] && !BatchedAlone(Lens(tokens), i) {
      var a, b := DisagreeingCalls(n, prefix, texts, tokens, i, x, y, true);
      TellingConforms(n, x, y, true);
      assert !CallsAgree(TellingSession(n, x, y, true), States(Telling(x, y, true)), prefix, a, b, i);
    } else {
      forall m: Session<F>, states, a: Call<F>, b: Call<F>
        | SameTokenizer(m, n) && m.pooling == n.pooling && a.texts == texts
        ensures CallsAgree(m, states, prefix, a, b, i)
      {
        if WellShaped(m) && MasksPadding(m, states)
          && Ended(m, prefix, Ok, a) && Ended(m, prefix, Ok, b) && b.texts == [a.texts[i]]
        {
          OneTokenization(m, n, prefix, a, tokens);
          AloneAgrees(m, states, prefix, a, b, i);
        }
      }
    }
  }

  // ---- Graphs whose padding knows its own row only --------------------------------------------

  /** The hidden states of a row, padding included, are a function of the ids and the mask of that row. */
  ghost predicate RowLocal<F>(m: Session<F>, local: (seq<int>, seq<int>) -> seq<F>) {
    forall ids, mask, rows, width, r :: LocalRow(m, local, ids, mask, rows, width, r)
  }

  ghost predicate LocalRow<F>(m: Session<F>, local: (seq<int>, seq<int>) -> seq<F>, ids: seq<int>, mask: seq<int>,
                              rows: nat, width: nat, r: nat) {
    var hidden := m.graph(ids, mask, rows, width);
    && hidden.Some? && r < rows && |ids| == |mask| == Offset(rows, width)
    && |hidden.value| == Offset(rows, Offset(width, m.dim)) ==>
      HiddenRow(hidden.value, rows, width, m.dim, r)
      == local(TensorRow(ids, rows, width, r), TensorRow(mask, rows, width, r))
  }

  ghost predicate CallsAgreeLocally<F>(m: Session<F>, states: seq<int> -> seq<seq<F>>,
                                       local: (seq<int>, seq<int>) -> seq<F>, prefix: string,
                                       a: Call<F>, b: Call<F>, i: nat) {
    RowLocal(m, local) ==> CallsAgree(m, states, prefix, a, b, i)
  }

  /** In a run of one column an empty row has one value on such a graph, whatever is beside it. */
  lemma EmptyRowIsLocal<F>(m: Session<F>, local: (seq<int>, seq<int>) -> seq<F>, ts: seq<seq<nat>>, r: nat)
    requires RowLocal(m, local) && r < |ts| && ts[r] == [] && Width(ts) == 1
    requires RunBatch(m, ts).Some? && BatchShape(m, ts, RunBatch(m, ts).value)
    ensures |local([0], [0])| == Offset(1, m.dim)
    ensures BatchRow(m, ts, RunBatch(m, ts).value, r)
         == Finish(m, PoolRow(m.scalars, m.pooling, local([0], [0]), [0], m.dim))
  {
    hide Offset, PoolRow, Finish, PaddedIds, PaddedMask, TensorRow, HiddenRow;
    EmptyRowOfOne(ts, r);
    assert LocalRow(m, local, PaddedIds(ts, 1), PaddedMask(ts, 1), |ts|, 1, r);
  }

  lemma EmptyRowOfOne(ts: seq<seq<nat>>, r: nat)
    requires r < |ts| && ts[r] == []
    ensures TensorRow(PaddedIds(ts, 1), |ts|, 1, r) == [0] && TensorRow(PaddedMask(ts, 1), |ts|, 1, r) == [0]
  {
    hide Offset, PaddedIds, PaddedMask, TensorRow;
    PaddedRow(ts, 1, r);
  }

  lemma NarrowAgrees<F>(m: Session<F>, states: seq<int> -> seq<seq<F>>, local: (seq<int>, seq<int>) -> seq<F>,
                        prefix: string, a: Call<F>, b: Call<F>, i: nat)
    requires MasksPadding(m, states) && RowLocal(m, local)
    requires Ended(m, prefix, Ok, a) && Ended(m, prefix, Ok, b) && i < |a.texts| && b.texts == [a.texts[i]]
    requires Determined(m, a.tokens[i]) || BatchedNarrow(Lens(a.tokens), i)
    ensures Vector(m, a, i) == Vector(m, b, 0)
  {
    hide Outcome, Vector, MasksPadding, RowLocal, BatchedAlone, BatchedNarrow, BatchRow, BatchShape, RunBatch;
    if Determined(m, a.tokens[i]) {
      SameTextSameVector(m, states, prefix, a, i, b, 0);
    } else {
      SameTokens(m, prefix, a, b, i);
      OnlyTextIsAlone(m, prefix, b);
      var ts, r := VectorOfEmpty(m, prefix, a, i);
      var us, q := VectorOfEmpty(m, prefix, b, 0);
      EmptyRowIsLocal(m, local, ts, r);
      EmptyRowIsLocal(m, local, us, q);
    }
  }

  /** The telling graph is one of these, unless it goes by rows. */
  ghost function TellingRow<F>(x: F, y: F): (seq<int>, seq<int>) -> seq<F> {
    (ids: seq<int>, mask: seq<int>) =>
      Flatten(seq(|mask|, t requires 0 <= t < |mask| =>
        if mask[t] != 0 then [if t == 0 then x else y] else [if |mask| == 1 then y else x]))
  }

  lemma TellingIsLocal<F(!new)>(m: Session<F>, x: F, y: F)
    ensures RowLocal(TellingSession(m, x, y, false), TellingRow(x, y))
  {
    var told, g := TellingSession(m, x, y, false), Telling(x, y, false);
    forall ids, mask, rows, width, r ensures LocalRow(told, TellingRow(x, y), ids, mask, rows, width, r) {
      if r < rows && |ids| == |mask| == Offset(rows, width) {
        HiddenRows(g, ids, mask, rows, width);
        TellingStates(x, y, ids, mask, rows, width, r);
      }
    }
  }

  lemma TellingStates<F>(x: F, y: F, ids: seq<int>, mask: seq<int>, rows: nat, width: nat, r: nat)
    requires r < rows && |ids| == |mask| == Offset(rows, width)
    ensures Flatten(RowStates(Telling(x, y, false), ids, mask, rows, width, r))
         == TellingRow(x, y)(TensorRow(ids, rows, width, r), TensorRow(mask, rows, width, r))
  {
    hide Flatten, Offset, KeptIds;
    var rowMask := TensorRow(mask, rows, width, r);
    assert RowStates(Telling(x, y, false), ids, mask, rows, width, r)
        == seq(|rowMask|, t requires 0 <= t < |rowMask| =>
             if rowMask[t] != 0 then [if t == 0 then x else y] else [if |rowMask| == 1 then y else x]);
  }

  /**
   On every graph that masks padding and computes rows from themselves alone, padding included, batching
   makes no difference to text `i` if and only if, under cls pooling, it has tokens or is batched with
   texts of at most one token.
   */
  lemma AgreesLocallyExactly<F(!new)>(n: Session<F>, prefix: string, texts: seq<string>, tokens: seq<seq<nat>>,
                                      i: nat, x: F, y: F)
    requires Tokenized(n, texts, prefix, tokens) && |tokens| == |texts| && i < |texts| && x != y
    ensures (forall m: Session<F>, states, local, a: Call<F>, b: Call<F>
               | SameTokenizer(m, n) && m.pooling == n.pooling && a.texts == texts ::
               CallsAgreeLocally(m, states, local, prefix, a, b, i))
       <==> (n.pooling.ClsToken? && tokens[i] == [] ==> BatchedNarrow(Lens(tokens), i))
  {
    hide Tokenized, BatchedNarrow, Outcome, Vector, RowLocal;
    if n.pooling.ClsToken? && tokens[i] == [] && !BatchedNarrow(Lens(tokens), i) {
      var a, b := DisagreeingCalls(n, prefix, texts, tokens, i, x, y, false);
      TellingConforms(n, x, y, false);
      TellingIsLocal(n, x, y);
      assert !CallsAgreeLocally(TellingSession(n, x, y, false), States(Telling(x, y, false)), TellingRow(x, y),
                                prefix, a, b, i);
    } else {
      forall m: Session<F>, states, local, a: Call<F>, b: Call<F>
        | SameTokenizer(m, n) && m.pooling == n.pooling && a.texts == texts
        ensures CallsAgreeLocally(m, states, local, prefix, a, b, i)
      {
        if RowLocal(m, local) && WellShaped(m) && MasksPadding(m, states)
          && Ended(m, prefix, Ok, a) && Ended(m, prefix, Ok, b) && b.texts == [a.texts[i]]
        {
          OneTokenization(m, n, prefix, a, tokens);
          NarrowAgrees(m, states, local, prefix, a, b, i);
        }
      }
    }
  }

  lemma OneTokenization<F>(m: Session<F>, n: Session<F>, prefix: string, a: Call<F>, tokens: seq<seq<nat>>)
    requires SameTokenizer(m, n) && Tokenized(n, a.texts, prefix, tokens) && Ended(m, prefix, Ok, a)
    ensures a.tokens == tokens
  {
    hide Progress, CompletePlan, Stopped;
    forall i | 0 <= i < |a.texts| ensures a.tokens[i] == tokens[i] {
      TokenizedAt(m, a.texts, prefix, a.tokens, i);
      TokenizedAt(n, a.texts, prefix, tokens, i);
    }
    assert a.texts == [] ==> a.tokens == tokens == [];
  }

  /** For instance: an empty text beside the text "a", with a tokenizer that makes two tokens of that. */
  lemma EmptyTextDiffers<F(!new)>(m: Session<F>, x: F, y: F)
    returns (n: Session<F>, states: seq<int> -> seq<seq<F>>, local: (seq<int>, seq<int>) -> seq<F>,
             a: Call<F>, b: Call<F>)
    requires x != y
    ensures WellShaped(n) && MasksPadding(n, states) && RowLocal(n, local) && n.pooling.ClsToken?
    ensures Ended(n, "", Ok, a) && a.texts == ["", "a"] && a.tokens == [[], [1, 2]]
    ensures Ended(n, "", Ok, b) && b.texts == [""]
    ensures Vector(n, a, 0) == [x] && Vector(n, b, 0) == [y]
  {
    var reading := m.(native := (text: string) => Some(if text == "" then [] else [1, 2]), maxTokens := 2);
    var texts, tokens: seq<seq<nat>> := ["", "a"], [[], [1, 2]];
    ReadsTwo(reading);
    hide Tokenized, Outcome, Vector, RowLocal;
    NotNarrow(Lens(tokens));
    a, b := DisagreeingCalls(reading, "", texts, tokens, 0, x, y, false);
    n, states, local := TellingSession(reading, x, y, false), States(Telling(x, y, false)), TellingRow(x, y);
    TellingConforms(reading, x, y, false);
    TellingIsLocal(reading, x, y);
    OneTokenization(n, reading, "", a, tokens);
  }

  lemma NotNarrow(lens: seq<nat>)
    requires lens == [0, 2]
    ensures !BatchedNarrow(lens, 0)
  {
    assert EmptyBefore(lens, 0) == {} && Short(lens) == {0};
    assert lens[1] == 2;
  }

  lemma ReadsTwo<F>(m: Session<F>)
    requires m.native == ((text: string) => Some(if text == "" then [] else [1, 2])) && m.maxTokens == 2
    ensures Tokenized(m, ["", "a"], "", [[], [1, 2]])
  {
    assert "" + "" == "" && "" + "a" == "a";
    assert Tokens(m, "", "") == Some([]) && Tokens(m, "a", "") == Some([1, 2]);
    var texts, tokens: seq<seq<nat>> := ["", "a"], [[], [1, 2]];
    assert texts[..1] == [""] && tokens[..1] == [[]];
    assert texts[..1][..0] == [] && tokens[..1][..0] == [];
  }
}
