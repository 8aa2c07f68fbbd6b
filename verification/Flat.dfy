/** Row-major indexing into flat buffers: consecutive blocks of `n` elements each. */
module Flat {

  /** Where block `i` starts: `i * n`, reckoned by repeated addition. */
  function Offset(i: nat, n: nat): (start: nat) {
    if i == 0 then 0 else Offset(i - 1, n) + n
  }

  lemma {:induction false} OffsetIsProduct(i: nat, n: nat)
    ensures Offset(i, n) == i * n
  {
    if i > 0 {
      OffsetIsProduct(i - 1, n);
    }
  }

  /** Block `i` of a buffer cut into blocks of `n` elements. */
  function Row<T>(s: seq<T>, i: nat, n: nat): (row: seq<T>)
    requires Offset(i, n) + n <= |s|
    ensures |row| == n
  {
    s[Offset(i, n)..Offset(i, n) + n]
  }

  lemma {:induction false} RowFits(i: nat, rows: nat, n: nat)
    requires i < rows
    ensures Offset(i, n) + n <= Offset(rows, n)
  {
    if i < rows - 1 {
      RowFits(i, rows - 1, n);
    }
  }

  /** Two different blocks do not overlap. */
  lemma RowsDisjoint(i: nat, j: nat, n: nat)
    requires i != j
    ensures Offset(i, n) + n <= Offset(j, n) || Offset(j, n) + n <= Offset(i, n)
  {
    if i < j {
      RowFits(i, j, n);
    } else {
      RowFits(j, i, n);
    }
  }

  /** A block is unchanged when its buffer was written only in another block. */
  lemma RowUntouched<T>(before: seq<T>, after: seq<T>, i: nat, j: nat, rows: nat, n: nat)
    requires i != j && i < rows && j < rows
    requires |before| == |after| && Offset(rows, n) <= |before|
    requires forall k :: 0 <= k < |before| && !(Offset(i, n) <= k < Offset(i, n) + n) ==> after[k] == before[k]
    ensures Offset(j, n) + n <= |before|
    ensures Row(after, j, n) == Row(before, j, n)
  {
    RowFits(j, rows, n);
    RowsDisjoint(i, j, n);
  }
}
