/** Whether the path an id is resolved with is its own: where the look-ahead stops, and where it does not. */
module PinBlocks {
  import opened PinRegistry
  import opened PythonText
  import opened Wrappers

  /** The line the look-ahead for the id at `from` takes its path from, looking from `j` on. */
  function PathLine(lines: seq<string>, from: nat, j: nat): (q: Option<nat>)
    requires from <= j <= |lines|
    ensures q.Some? ==> j <= q.value < |lines| && PathOf(lines[q.value]).Some?
    decreases |lines| - j
  {
    if j == |lines| || (j != from && StartsBlock(lines[j])) then None
    else if PathOf(lines[j]).Some? then Some(j)
    else PathLine(lines, from, j + 1)
  }

  lemma {:induction false} PathStands(lines: seq<string>, from: nat, j: nat)
    requires from <= j <= |lines|
    ensures var q := PathLine(lines, from, j);
        LookAhead(lines, from, j) == if q.Some? then PathOf(lines[q.value]) else None
    decreases |lines| - j
  {
    hide PathOf, StartsBlock;
    if j < |lines| {
      PathStands(lines, from, j + 1);
    }
  }

  /** The first id line from `j` on, or the end. */
  function NextId(lines: seq<string>, j: nat): (n: nat)
    requires j <= |lines|
    ensures j <= n <= |lines| && (n < |lines| ==> IdOf(lines[n]).Some?)
    ensures forall k :: j <= k < n ==> IdOf(lines[k]).None?
    decreases |lines| - j
  {
    if j == |lines| || IdOf(lines[j]).Some? then j else NextId(lines, j + 1)
  }

  /** Nothing from `j` up to `n` ends the look-ahead for the id at `from`: no path, and no `- id:` after its own. */
  ghost predicate Clear(lines: seq<string>, from: nat, j: nat, n: nat)
    requires n <= |lines|
  {
    forall k :: j <= k < n ==> PathOf(lines[k]).None? && (k != from ==> !StartsBlock(lines[k]))
  }

  /** Clear lines are passed over, and otherwise the look-ahead ends before `n`. */
  lemma {:induction false} PassesOver(lines: seq<string>, from: nat, j: nat, n: nat)
    requires from <= j <= n <= |lines|
    ensures if Clear(lines, from, j, n) then PathLine(lines, from, j) == PathLine(lines, from, n)
            else PathLine(lines, from, j).None? || PathLine(lines, from, j).value < n
    decreases n - j
  {
    hide PathOf, StartsBlock;
    if j < n {
      PassesOver(lines, from, j + 1, n);
      assert Clear(lines, from, j, n) <==>
          PathOf(lines[j]).None? && (j != from ==> !StartsBlock(lines[j])) && Clear(lines, from, j + 1, n);
    }
  }

  lemma {:induction false} SamePathLine(lines: seq<string>, from: nat, n: nat, j: nat)
    requires from < n < j <= |lines|
    ensures PathLine(lines, from, j) == PathLine(lines, n, j)
    decreases |lines| - j
  {
    hide PathOf, StartsBlock;
    if j < |lines| {
      SamePathLine(lines, from, n, j + 1);
    }
  }

  /**
   The path found for an id stands at or after the next id line exactly when nothing before that line
   ends the look-ahead, the line itself is not written `- id:`, and its own look-ahead finds a path.
   Then it is that path: the two ids are resolved with the same one.
   */
  lemma LeavesBlockExactly(lines: seq<string>, i: nat)
    requires i < |lines| && IdOf(lines[i]).Some?
    ensures var q, n := PathLine(lines, i, i), NextId(lines, i + 1);
        && (q.Some? && n <= q.value <==>
              && n < |lines| && Clear(lines, i, i, n) && !StartsBlock(lines[n])
              && LookAhead(lines, n, n).Some?)
        && (q.Some? && n <= q.value ==> LookAhead(lines, i, i) == LookAhead(lines, n, n))
  {
    hide PathOf, StartsBlock, IdOf, Clear, LookAhead;
    var n := NextId(lines, i + 1);
    PathStands(lines, i, i);
    PassesOver(lines, i, i, n);
    if n < |lines| {
      PathStands(lines, n, n);
      SamePathLine(lines, i, n, n + 1);
    }
  }

  /** For instance, an id line with two spaces does not end the block above it. */
  lemma LeavesItsBlock()
    ensures var lines := ["- id: a", "-  id: b", "onnx_path: p"];
        IdOf(lines[0]) == Some("a") && IdOf(lines[1]) == Some("b") && LookAhead(lines, 0, 0) == Some("p")
  {
    var lines := ["- id: a", "-  id: b", "onnx_path: p"];
    ReadsWord(" a", 'a');
    ReadsWord(" b", 'b');
    ReadsWord(" p", 'p');
    assert lines[0][1..] == " id: a" && lines[1][1..] == "  id: b" && lines[2][10..] == " p";
    assert SkipSpaces(" id: a") == "id: a" && "id: a"[3..] == " a";
    assert SkipSpaces("  id: b") == SkipSpaces(" id: b") == "id: b" && "id: b"[3..] == " b";
    assert SkipSpaces(lines[0]) == lines[0] && SkipSpaces(lines[1]) == lines[1] && SkipSpaces(lines[2]) == lines[2];
    assert "- id:" <= lines[0] && lines[1][2] == ' ' && lines[2][0] == 'o';
    assert PathOf(lines[0]) == None && PathOf(lines[1]) == None && PathOf(lines[2]) == Some("p");
    assert LookAhead(lines, 0, 2) == Some("p");
    assert LookAhead(lines, 0, 1) == Some("p");
  }

  lemma ReadsWord(s: string, c: char)
    requires s == [' ', c] && !IsSpace(c)
    ensures WordAfter(s) == Some([c])
  {
    var rest: string := [c];
    assert s[1..] == rest && SkipSpaces(s) == SkipSpaces(rest) == rest;
    assert rest[1..] == "" && Word("") == "";
    assert Word(rest) == [rest[0]] + Word(rest[1..]) == rest;
  }
}
