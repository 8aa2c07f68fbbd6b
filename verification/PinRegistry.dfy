/** The registry pinning editor: a line-by-line pass that rewrites pinned values in place. */
module PinRegistry {

  import opened Wrappers
  import opened PythonText

  /** What resolving a model upstream comes to; `Crashed` is an error the pass does not catch. */
  datatype Answer = Resolved(rev: string, sha: string, tokenizer: string) | Failed | Crashed

  datatype Pin = Revision | OnnxDigest | TokenizerDigest

  // ---- Reading a line ------------------------------------------------------------------

  function SkipSpaces(s: string): string {
    if s != "" && IsSpace(s[0]) then SkipSpaces(s[1..]) else s
  }

  /** The longest prefix without spaces. */
  function Word(s: string): string {
    if s == "" || IsSpace(s[0]) then "" else [s[0]] + Word(s[1..])
  }

  function WordAfter(s: string): Option<string> {
    var w := Word(SkipSpaces(s));
    if w == "" then None else Some(w)
  }

  /** `\s*-\s*id:\s*(\S+)`. */
  function IdOf(line: string): Option<string> {
    var a := SkipSpaces(line);
    if a == "" || a[0] != '-' then None else
      var b := SkipSpaces(a[1..]);
      if "id:" <= b then WordAfter(b[3..]) else None
  }

  /** `\s*onnx_path:\s*(\S+)`. */
  function PathOf(line: string): Option<string> {
    var a := SkipSpaces(line);
    if "onnx_path:" <= a then WordAfter(a[10..]) else None
  }

  /** The look-ahead stops at a line that, stripped, starts with `- id:`. */
  predicate StartsBlock(line: string) {
    "- id:" <= SkipSpaces(line)
  }

  function Keyword(pin: Pin): string {
    match pin
    case Revision => "revision:"
    case OnnxDigest => "onnx_sha256:"
    case TokenizerDigest => "tokenizer_sha256:"
  }

  function PinOf(line: string): Option<Pin> {
    var a := SkipSpaces(line);
    if Keyword(Revision) <= a then Some(Revision)
    else if Keyword(OnnxDigest) <= a then Some(OnnxDigest)
    else if Keyword(TokenizerDigest) <= a then Some(TokenizerDigest)
    else None
  }

  // ---- Editing a line ---------------------------------------------------------------------

  /** Position of the first quote, or the length if there is none. */
  function Quote(s: string): (i: nat)
    ensures i <= |s| && '"' !in s[..i] && (i < |s| ==> s[i] == '"')
  {
    if s == "" || s[0] == '"' then 0 else
      var i := 1 + Quote(s[1..]);
      assert s[..i] == [s[0]] + s[1..][..i - 1];
      i
  }

  /** There is a first quote and a second one after it. */
  predicate HasQuoted(s: string) {
    Quote(s) < |s| && Quote(s[Quote(s) + 1..]) < |s| - Quote(s) - 1
  }

  /** Replaces the first quoted text by `value`, quoted. */
  function Requote(s: string, value: string): string {
    if !HasQuoted(s) then s else
      var i := Quote(s);
      var rest := s[i + 1..];
      s[..i] + "\"" + value + "\"" + rest[Quote(rest) + 1..]
  }

  function PinValue(answer: Answer, pin: Pin): string
    requires answer.Resolved?
  {
    match pin
    case Revision => answer.rev
    case OnnxDigest => answer.sha
    case TokenizerDigest => answer.tokenizer
  }

  function Edit(line: string, answer: Answer): string
    requires answer.Resolved?
  {
    match PinOf(line)
    case None => line
    case Some(pin) => Requote(line, PinValue(answer, pin))
  }

  // ---- What the pass means ---------------------------------------------------------------------

  /** The first path before a line that starts a block, for the id line at `from`, looking from `j` on. */
  function LookAhead(lines: seq<string>, from: nat, j: nat): Option<string>
    requires from <= j <= |lines|
    decreases |lines| - j
  {
    if j == |lines| || (j != from && StartsBlock(lines[j])) then None
    else if PathOf(lines[j]).Some? then PathOf(lines[j])
    else LookAhead(lines, from, j + 1)
  }

  function AnswerAt(lines: seq<string>, resolve: (string, Option<string>) -> Answer, j: nat): Answer
    requires j < |lines| && IdOf(lines[j]).Some?
  {
    resolve(IdOf(lines[j]).value, LookAhead(lines, j, j))
  }

  /** The nearest id line before `i`. */
  function Governing(lines: seq<string>, i: nat): (j: Option<nat>)
    requires i <= |lines|
    ensures j.Some? ==> j.value < i && IdOf(lines[j.value]).Some?
    ensures j.Some? ==> forall k :: j.value < k < i ==> IdOf(lines[k]).None?
    ensures j.None? ==> forall k :: 0 <= k < i ==> IdOf(lines[k]).None?
  {
    if i == 0 then None
    else if IdOf(lines[i - 1]).Some? then Some(i - 1)
    else Governing(lines, i - 1)
  }

  /** Line `i` afterwards: edited only by the id that governs it, and only if that id resolved. */
  function LineAfter(lines: seq<string>, resolve: (string, Option<string>) -> Answer, i: nat): string
    requires i < |lines|
  {
    match Governing(lines, i)
    case None => lines[i]
    case Some(j) =>
      var answer := AnswerAt(lines, resolve, j);
      if IdOf(lines[i]).Some? || !answer.Resolved? then lines[i] else Edit(lines[i], answer)
  }

  function Pinned(lines: seq<string>, resolve: (string, Option<string>) -> Answer): (after: seq<string>)
    ensures |after| == |lines| && forall i :: 0 <= i < |lines| ==> after[i] == LineAfter(lines, resolve, i)
  {
    seq(|lines|, i requires 0 <= i < |lines| => LineAfter(lines, resolve, i))
  }

  ghost predicate CrashesAt(lines: seq<string>, resolve: (string, Option<string>) -> Answer, j: nat) {
    j < |lines| && IdOf(lines[j]).Some? && AnswerAt(lines, resolve, j).Crashed?
  }

  // ---- The code --------------------------------------------------------------------------------

  /** The scan ahead. */
  method ScanAhead(lines: array<string>, index: nat) returns (path: Option<string>)
    requires index < lines.Length
    ensures path == LookAhead(lines[..], index, index)
  {
    path := None;
    var j := index;
    while j < lines.Length
      invariant index <= j <= lines.Length
      invariant path == None && LookAhead(lines[..], index, index) == LookAhead(lines[..], index, j)
    {
      if StartsBlock(lines[j]) && j != index {
        break;
      }
      if PathOf(lines[j]).Some? {
        path := PathOf(lines[j]);
        return;
      }
      j := j + 1;
    }
  }

  /** `main` on the lines of the registry; false if it ended in an error it does not catch, nothing written. */
  method PinLines(lines: array<string>, resolve: (string, Option<string>) -> Answer)
    returns (finished: bool, pinned: nat, failures: nat)
    modifies lines
    ensures finished <==> forall j :: 0 <= j < lines.Length ==> !CrashesAt(old(lines[..]), resolve, j)
    ensures finished ==> lines[..] == Pinned(old(lines[..]), resolve)
    ensures finished ==> pinned == ResolvedIds(old(lines[..]), resolve, lines.Length)
    ensures finished ==> pinned + failures == Ids(old(lines[..]), lines.Length)
  {
    hide *;
    ghost var before := lines[..];
    var current: Option<Answer> := None;
    pinned, failures := 0, 0;
    StepAtStart(before, resolve);
    for index := 0 to lines.Length
      invariant forall k :: index <= k < lines.Length ==> lines[k] == before[k]
      invariant forall k :: 0 <= k < index ==> lines[k] == LineAfter(before, resolve, k)
      invariant forall j :: 0 <= j < index ==> !CrashesAt(before, resolve, j)
      invariant current == CurrentAt(before, resolve, index)
      invariant pinned == ResolvedIds(before, resolve, index)
      invariant pinned + failures == Ids(before, index)
    {
      var line := lines[index];
      Step(before, resolve, index);
      if IdOf(line).Some? {
        // Lines from here on are still as they were, so the scan reads the original block.
        var path := ScanAhead(lines, index);
        LookAheadFrom(lines[..], before, index, index);
        var answer := resolve(IdOf(line).value, path);
        if answer.Crashed? {
          return false, pinned, failures;
        }
        if answer.Failed? {
          failures, current := failures + 1, None;
        } else {
          pinned, current := pinned + 1, Some(answer);
        }
      } else if current.Some? {
        EditOf(line, current.value);
        match PinOf(line) {
          case None =>
          case Some(pin) => lines[index] := Requote(line, PinValue(current.value, pin));
        }
      }
    }
    finished := true;
  }

  /** How many of the first `n` lines are id lines. */
  ghost function Ids(lines: seq<string>, n: nat): nat
    requires n <= |lines|
  {
    if n == 0 then 0 else Ids(lines, n - 1) + if IdOf(lines[n - 1]).Some? then 1 else 0
  }

  /** How many of them resolve. */
  ghost function ResolvedIds(lines: seq<string>, resolve: (string, Option<string>) -> Answer, n: nat): nat
    requires n <= |lines|
  {
    if n == 0 then 0 else
      ResolvedIds(lines, resolve, n - 1)
      + if IdOf(lines[n - 1]).Some? && AnswerAt(lines, resolve, n - 1).Resolved? then 1 else 0
  }

  ghost function IdLines(lines: seq<string>, n: nat): set<nat>
    requires n <= |lines|
  {
    set j | 0 <= j < n && IdOf(lines[j]).Some?
  }

  ghost function ResolvedLines(lines: seq<string>, resolve: (string, Option<string>) -> Answer, n: nat): set<nat>
    requires n <= |lines|
  {
    set j | 0 <= j < n && IdOf(lines[j]).Some? && AnswerAt(lines, resolve, j).Resolved?
  }

  /** The counts are the sizes of these sets. */
  lemma {:induction false} CountsAreSizes(lines: seq<string>, resolve: (string, Option<string>) -> Answer, n: nat)
    requires n <= |lines|
    ensures Ids(lines, n) == |IdLines(lines, n)|
    ensures ResolvedIds(lines, resolve, n) == |ResolvedLines(lines, resolve, n)|
  {
    hide IdOf, AnswerAt, IdLines, ResolvedLines;
    OneMoreLine(lines, resolve, n);
    if n > 0 {
      CountsAreSizes(lines, resolve, n - 1);
    }
  }

  lemma OneMoreLine(lines: seq<string>, resolve: (string, Option<string>) -> Answer, n: nat)
    requires n <= |lines|
    ensures n == 0 ==> IdLines(lines, n) == {} == ResolvedLines(lines, resolve, n)
    ensures n > 0 ==> |IdLines(lines, n)| == |IdLines(lines, n - 1)| + if IdOf(lines[n - 1]).Some? then 1 else 0
    ensures n > 0 ==>
        |ResolvedLines(lines, resolve, n)| == |ResolvedLines(lines, resolve, n - 1)|
        + if IdOf(lines[n - 1]).Some? && AnswerAt(lines, resolve, n - 1).Resolved? then 1 else 0
  {
    hide IdOf, AnswerAt;
    if n > 0 {
      var last := n - 1;
      assert IdLines(lines, n) == IdLines(lines, last) + if IdOf(lines[last]).Some? then {last} else {};
      assert ResolvedLines(lines, resolve, n) == ResolvedLines(lines, resolve, last)
          + if IdOf(lines[last]).Some? && AnswerAt(lines, resolve, last).Resolved? then {last} else {};
    }
  }

  /** What `current` holds before line `index`: the answer of the governing id, if it resolved. */
  ghost function CurrentAt(lines: seq<string>, resolve: (string, Option<string>) -> Answer,
                           index: nat): (c: Option<Answer>)
    requires index <= |lines|
    ensures c.Some? ==> c.value.Resolved?
  {
    match Governing(lines, index)
    case None => None
    case Some(j) =>
      var answer := AnswerAt(lines, resolve, j);
      if answer.Resolved? then Some(answer) else None
  }

  lemma StepAtStart(lines: seq<string>, resolve: (string, Option<string>) -> Answer)
    ensures CurrentAt(lines, resolve, 0) == None && ResolvedIds(lines, resolve, 0) == 0 == Ids(lines, 0)
  {
    hide IdOf, AnswerAt;
  }

  /** One line of the pass, in terms of what the pass means. */
  lemma Step(lines: seq<string>, resolve: (string, Option<string>) -> Answer, i: nat)
    requires i < |lines|
    ensures IdOf(lines[i]).Some? ==>
      var answer := resolve(IdOf(lines[i]).value, LookAhead(lines, i, i));
      && (CrashesAt(lines, resolve, i) <==> answer.Crashed?)
      && LineAfter(lines, resolve, i) == lines[i]
      && CurrentAt(lines, resolve, i + 1) == (if answer.Resolved? then Some(answer) else None)
      && ResolvedIds(lines, resolve, i + 1) == ResolvedIds(lines, resolve, i) + (if answer.Resolved? then 1 else 0)
      && Ids(lines, i + 1) == Ids(lines, i) + 1
    ensures IdOf(lines[i]).None? ==>
      var current := CurrentAt(lines, resolve, i);
      && !CrashesAt(lines, resolve, i)
      && CurrentAt(lines, resolve, i + 1) == current
      && LineAfter(lines, resolve, i) == (if current.Some? then Edit(lines[i], current.value) else lines[i])
      && ResolvedIds(lines, resolve, i + 1) == ResolvedIds(lines, resolve, i)
      && Ids(lines, i + 1) == Ids(lines, i)
  {
    hide IdOf, LookAhead, Edit;
  }

  lemma EditOf(line: string, answer: Answer)
    requires answer.Resolved?
    ensures Edit(line, answer) == match PinOf(line)
                                  case None => line
                                  case Some(pin) => Requote(line, PinValue(answer, pin))
  {
    hide PinOf, Requote;
  }

  lemma {:induction false} LookAheadFrom(a: seq<string>, b: seq<string>, from: nat, j: nat)
    requires |a| == |b| && from <= j <= |a| && forall k :: j <= k < |a| ==> a[k] == b[k]
    ensures LookAhead(a, from, j) == LookAhead(b, from, j)
    decreases |a| - j
  {
    if j < |a| {
      LookAheadFrom(a, b, from, j + 1);
    }
  }

  // ---- Idempotence ----------------------------------------------------------------------------

  lemma {:induction false} SkippedCount(s: string) returns (k: nat)
    ensures k <= |s| && SkipSpaces(s) == s[k..] && (k < |s| ==> !IsSpace(s[k]))
    ensures forall i :: 0 <= i < k ==> IsSpace(s[i])
  {
    if s != "" && IsSpace(s[0]) {
      var n := SkippedCount(s[1..]);
      k := n + 1;
      forall i | 0 <= i < k ensures IsSpace(s[i]) {
        assert i > 0 ==> s[i] == s[1..][i - 1];
      }
    } else {
      k := 0;
    }
  }

  lemma {:induction false} SkipIs(s: string, k: nat)
    requires k < |s| && !IsSpace(s[k]) && forall i :: 0 <= i < k ==> IsSpace(s[i])
    ensures SkipSpaces(s) == s[k..]
  {
    if k > 0 {
      forall i | 0 <= i < k - 1 ensures IsSpace(s[1..][i]) {
        assert s[1..][i] == s[i + 1];
      }
      SkipIs(s[1..], k - 1);
    }
  }

  lemma {:induction false} QuoteIs(s: string, i: nat)
    requires i <= |s| && '"' !in s[..i] && (i < |s| ==> s[i] == '"')
    ensures Quote(s) == i
  {
    var q := Quote(s);
    assert forall k :: 0 <= k < i ==> s[k] == s[..i][k];
    assert forall k :: 0 <= k < q ==> s[k] == s[..q][k];
  }

  /** A line with a quoted text: what comes before it, the text, and what follows. */
  function Line(head: string, quoted: string, tail: string): string {
    head + ("\"" + (quoted + ("\"" + tail)))
  }

  lemma SplitAtQuote(s: string) returns (head: string, rest: string)
    requires Quote(s) < |s|
    ensures s == head + ("\"" + rest) && '"' !in head && rest == s[Quote(s) + 1..]
  {
    var i := Quote(s);
    head, rest := s[..i], s[i + 1..];
    assert "\"" + rest == s[i..];
  }

  lemma PartsOf(s: string) returns (head: string, quoted: string, tail: string)
    requires HasQuoted(s)
    ensures s == Line(head, quoted, tail) && '"' !in head && '"' !in quoted
  {
    hide Quote;
    var rest;
    head, rest := SplitAtQuote(s);
    quoted, tail := SplitAtQuote(rest);
  }

  lemma QuoteAfter(head: string, rest: string)
    requires '"' !in head
    ensures Quote(head + ("\"" + rest)) == |head|
    ensures (head + ("\"" + rest))[|head| + 1..] == rest
  {
    hide Quote;
    var s := head + ("\"" + rest);
    assert s[..|head|] == head && s[|head|] == '"';
    QuoteIs(s, |head|);
  }

  /** An edit replaces the quoted text and nothing else. */
  lemma RequoteOf(head: string, quoted: string, tail: string, value: string)
    requires '"' !in head && '"' !in quoted
    ensures HasQuoted(Line(head, quoted, tail))
    ensures Requote(Line(head, quoted, tail), value) == Line(head, value, tail)
  {
    hide Quote;
    var s, rest := Line(head, quoted, tail), quoted + ("\"" + tail);
    QuoteAfter(head, rest);
    QuoteAfter(quoted, tail);
    assert s[..|head|] == head;
  }

  /** Editing a line twice is editing it once exactly when there was nothing to edit or the value has no quote. */
  lemma RequoteTwiceExactly(s: string, value: string)
    ensures Requote(Requote(s, value), value) == Requote(s, value) <==> !HasQuoted(s) || '"' !in value
  {
    hide Requote, HasQuoted, Quote, Line;
    if HasQuoted(s) {
      var head, quoted, tail := PartsOf(s);
      RequoteOf(head, quoted, tail, value);
      if '"' !in value {
        RequoteOf(head, value, tail, value);
      } else {
        QuotedValueGrows(head, tail, value);
      }
    } else {
      UnquotedStays(s, value);
    }
  }

  /** For instance: a quote put between quotes is a quoted text of its own, and the next edit goes there. */
  lemma QuoteInQuotes()
    ensures var line, value := "\"\"", "\"";
        Requote(Requote(line, value), value) != Requote(line, value)
  {
    assert HasQuoted("\"\"");
    RequoteTwiceExactly("\"\"", "\"");
  }

  lemma UnquotedStays(s: string, value: string)
    requires !HasQuoted(s)
    ensures Requote(s, value) == s
  {
  }

  lemma QuotedValueGrows(head: string, tail: string, value: string)
    requires '"' !in head && '"' in value
    ensures |Requote(Line(head, value, tail), value)| > |Line(head, value, tail)|
  {
    hide Requote, HasQuoted, Quote;
    var i := FirstQuote(value);
    var first, second := value[..i], value[i + 1..];
    assert value == first + ("\"" + second);
    var further := second + ("\"" + tail);
    assert Line(head, value, tail) == Line(head, first, further);
    RequoteOf(head, first, further, value);
  }

  lemma FirstQuote(s: string) returns (i: nat)
    requires '"' in s
    ensures i < |s| && s[i] == '"' && '"' !in s[..i]
  {
    i := Quote(s);
    assert s[..|s|] == s;
  }

  /** A pin line stays a pin line of its kind when edited, and never reads as an id, a path or a block start. */
  lemma EditKeepsKind(line: string, value: string)
    requires PinOf(line).Some?
    ensures PinOf(Requote(line, value)) == PinOf(line)
    ensures IdOf(Requote(line, value)) == IdOf(line) == None
    ensures PathOf(Requote(line, value)) == PathOf(line) == None
    ensures StartsBlock(Requote(line, value)) == StartsBlock(line) == false
  {
    hide Requote, HasQuoted, IdOf, PathOf, StartsBlock, Keyword;
    PinIsNoOther(line);
    if HasQuoted(line) {
      var pin := PinOf(line).value;
      var head, quoted, tail := PartsOf(line);
      RequoteOf(head, quoted, tail, value);
      KeywordInHead(pin, head, "\"" + (quoted + ("\"" + tail)), "\"" + (value + ("\"" + tail)));
      PinIs(Requote(line, value), pin);
      PinIsNoOther(Requote(line, value));
    } else {
      UnquotedStays(line, value);
    }
  }

  /** The keyword of a pin line stands before the first quote, so it is read whatever follows. */
  lemma KeywordInHead(pin: Pin, head: string, rest: string, other: string)
    requires |rest| > 0 && rest[0] == '"' && Keyword(pin) <= SkipSpaces(head + rest)
    ensures Keyword(pin) <= SkipSpaces(head + other)
  {
    hide SkipSpaces;
    var line, word := head + rest, Keyword(pin);
    var k := SkippedCount(line);
    assert forall t :: 0 <= t < |word| ==> line[k + t] == line[k..][t] == word[t];
    SpacesBeforeQuote(head, rest, k);
    assert k + |word| <= |head| by {
      assert forall j :: k <= j < k + |word| ==> line[j] == word[j - k];
      assert '"' !in word && line[|head|] == '"';
    }
    var after := head + other;
    assert forall i :: 0 <= i < |head| ==> after[i] == head[i] == line[i];
    SkipIs(after, k);
    assert forall t :: 0 <= t < |word| ==> after[k..][t] == after[k + t] == word[t];
    assert after[k..][..|word|] == word;
  }

  lemma SpacesBeforeQuote(head: string, rest: string, k: nat)
    requires |rest| > 0 && rest[0] == '"' && k <= |head + rest|
    requires forall i :: 0 <= i < k ==> IsSpace((head + rest)[i])
    ensures k <= |head|
  {
    assert (head + rest)[|head|] == '"';
  }

  lemma PinIs(line: string, pin: Pin)
    requires Keyword(pin) <= SkipSpaces(line)
    ensures PinOf(line) == Some(pin)
  {
    var a := SkipSpaces(line);
    assert a[0] == Keyword(pin)[0];
  }

  lemma PinIsNoOther(line: string)
    requires PinOf(line).Some?
    ensures IdOf(line) == None && PathOf(line) == None && !StartsBlock(line)
  {
    var a, word := SkipSpaces(line), Keyword(PinOf(line).value);
    assert word <= a && a[0] == word[0] && a[5] == word[5];
  }

  /** A line reads the same before and after the pass, but for what stands between the quotes of a pin line. */
  lemma LineReadsTheSame(lines: seq<string>, resolve: (string, Option<string>) -> Answer, i: nat)
    requires i < |lines|
    ensures var line := Pinned(lines, resolve)[i];
        && IdOf(line) == IdOf(lines[i]) && PathOf(line) == PathOf(lines[i])
        && StartsBlock(line) == StartsBlock(lines[i]) && PinOf(line) == PinOf(lines[i])
  {
    hide IdOf, PathOf, StartsBlock, PinOf, Requote;
    var after := Pinned(lines, resolve)[i];
    if after != lines[i] {
      var answer := AnswerAt(lines, resolve, Governing(lines, i).value);
      EditKeepsKind(lines[i], PinValue(answer, PinOf(lines[i]).value));
    }
  }

  ghost predicate ReadsTheSame(a: seq<string>, b: seq<string>) {
    |a| == |b| && forall i :: 0 <= i < |a| ==> SameReading(a[i], b[i])
  }

  ghost predicate SameReading(x: string, y: string) {
    IdOf(x) == IdOf(y) && PathOf(x) == PathOf(y) && StartsBlock(x) == StartsBlock(y) && PinOf(x) == PinOf(y)
  }

  lemma {:induction false} SameLookAhead(a: seq<string>, b: seq<string>, from: nat, j: nat)
    requires ReadsTheSame(a, b) && from <= j <= |a|
    ensures LookAhead(a, from, j) == LookAhead(b, from, j)
    decreases |a| - j
  {
    hide PathOf, StartsBlock;
    if j < |a| {
      assert SameReading(a[j], b[j]);
      SameLookAhead(a, b, from, j + 1);
    }
  }

  lemma {:induction false} SameGoverning(a: seq<string>, b: seq<string>, i: nat)
    requires ReadsTheSame(a, b) && i <= |a|
    ensures Governing(a, i) == Governing(b, i)
  {
    hide IdOf, PathOf, StartsBlock, PinOf;
    if i > 0 {
      assert SameReading(a[i - 1], b[i - 1]);
      SameGoverning(a, b, i - 1);
    }
  }

  lemma PinnedReadsTheSame(lines: seq<string>, resolve: (string, Option<string>) -> Answer)
    ensures ReadsTheSame(lines, Pinned(lines, resolve))
  {
    hide IdOf, PathOf, StartsBlock, PinOf, LineAfter;
    forall i | 0 <= i < |lines| ensures SameReading(lines[i], Pinned(lines, resolve)[i]) {
      LineReadsTheSame(lines, resolve, i);
    }
  }

  /** The second run asks the same questions: the same id governs each line, and the same path is found for it. */
  lemma SameAnswers(lines: seq<string>, resolve: (string, Option<string>) -> Answer, i: nat)
    requires i < |lines|
    ensures var after := Pinned(lines, resolve);
        && Governing(after, i) == Governing(lines, i)
        && (Governing(lines, i).Some? ==>
              AnswerAt(after, resolve, Governing(lines, i).value)
              == AnswerAt(lines, resolve, Governing(lines, i).value))
  {
    hide IdOf, LookAhead;
    var after := Pinned(lines, resolve);
    PinnedReadsTheSame(lines, resolve);
    SameGoverning(lines, after, i);
    if Governing(lines, i).Some? {
      var j := Governing(lines, i).value;
      assert SameReading(lines[j], after[j]);
      SameLookAhead(lines, after, j, j);
    }
  }

  /** If line `i` is one that gets a value between its quotes, the value itself has no quote. */
  ghost predicate WritesNoQuote(lines: seq<string>, resolve: (string, Option<string>) -> Answer, i: nat)
    requires i < |lines|
  {
    Governing(lines, i).Some? && IdOf(lines[i]).None? && PinOf(lines[i]).Some? && HasQuoted(lines[i]) ==>
      var answer := AnswerAt(lines, resolve, Governing(lines, i).value);
      answer.Resolved? ==> '"' !in PinValue(answer, PinOf(lines[i]).value)
  }

  /** Pinning again with the same answers changes nothing, exactly when no value written contains a quote. */
  lemma PinningIsIdempotent(lines: seq<string>, resolve: (string, Option<string>) -> Answer)
    ensures Pinned(Pinned(lines, resolve), resolve) == Pinned(lines, resolve)
       <==> forall i :: 0 <= i < |lines| ==> WritesNoQuote(lines, resolve, i)
  {
    hide LineAfter, WritesNoQuote;
    var after := Pinned(lines, resolve);
    var again := Pinned(after, resolve);
    forall i | 0 <= i < |lines| ensures again[i] == after[i] <==> WritesNoQuote(lines, resolve, i) {
      LinePinnedTwice(lines, resolve, i);
    }
    if again == after {
      assert forall i :: 0 <= i < |lines| ==> again[i] == after[i];
    }
  }

  lemma LinePinnedTwice(lines: seq<string>, resolve: (string, Option<string>) -> Answer, i: nat)
    requires i < |lines|
    ensures LineAfter(Pinned(lines, resolve), resolve, i) == LineAfter(lines, resolve, i)
       <==> WritesNoQuote(lines, resolve, i)
  {
    hide IdOf, PinOf, Requote, AnswerAt, PathOf, StartsBlock, Governing, HasQuoted;
    SameAnswers(lines, resolve, i);
    LineReadsTheSame(lines, resolve, i);
    var governing := Governing(lines, i);
    if governing.Some? && IdOf(lines[i]).None? && PinOf(lines[i]).Some? {
      var answer := AnswerAt(lines, resolve, governing.value);
      if answer.Resolved? {
        RequoteTwiceExactly(lines[i], PinValue(answer, PinOf(lines[i]).value));
      }
    }
  }

  /** Only pin lines under an id that resolved change, and only to what that id resolved to. */
  lemma OnlyPinLinesChange(lines: seq<string>, resolve: (string, Option<string>) -> Answer, i: nat)
    requires i < |lines| && Pinned(lines, resolve)[i] != lines[i]
    ensures Governing(lines, i).Some? && PinOf(lines[i]).Some? && IdOf(lines[i]).None?
    ensures var answer := AnswerAt(lines, resolve, Governing(lines, i).value);
        && answer.Resolved?
        && Pinned(lines, resolve)[i] == Requote(lines[i], PinValue(answer, PinOf(lines[i]).value))
  {
    hide Requote, LookAhead;
  }
}
