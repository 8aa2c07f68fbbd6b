/** The lines the pinning pass reads and writes, spelled out character by character. */
module PinFormats {
  import opened PinRegistry
  import opened PythonText
  import opened Wrappers

  ghost predicate Spaces(s: string) {
    forall i :: 0 <= i < |s| ==> IsSpace(s[i])
  }

  ghost predicate IsWord(s: string) {
    s != "" && forall i :: 0 <= i < |s| ==> !IsSpace(s[i])
  }

  ghost predicate EndsWord(rest: string) {
    rest == "" || IsSpace(rest[0])
  }

  // ---- Reading -----------------------------------------------------------------------------

  lemma {:induction false} SkipsSpaces(space: string, rest: string)
    requires Spaces(space) && (rest == "" || !IsSpace(rest[0]))
    ensures SkipSpaces(space + rest) == rest
  {
    if space == "" {
      assert space + rest == rest;
    } else {
      assert IsSpace(space[0]);
      assert (space + rest)[1..] == space[1..] + rest;
      SkipsSpaces(space[1..], rest);
    }
  }

  lemma {:induction false} SpacesSkipped(s: string) returns (space: string)
    ensures Spaces(space) && s == space + SkipSpaces(s)
    ensures SkipSpaces(s) == "" || !IsSpace(SkipSpaces(s)[0])
  {
    var k := SkippedCount(s);
    space := s[..k];
  }

  lemma {:induction false} ReadsWord(word: string, rest: string)
    requires (forall i :: 0 <= i < |word| ==> !IsSpace(word[i])) && EndsWord(rest)
    ensures Word(word + rest) == word
  {
    if word == "" {
      assert word + rest == rest;
    } else {
      assert (word + rest)[1..] == word[1..] + rest;
      ReadsWord(word[1..], rest);
    }
  }

  lemma {:induction false} WordRead(s: string) returns (rest: string)
    ensures s == Word(s) + rest && EndsWord(rest)
    ensures forall i :: 0 <= i < |Word(s)| ==> !IsSpace(Word(s)[i])
  {
    if s == "" || IsSpace(s[0]) {
      rest := s;
    } else {
      rest := WordRead(s[1..]);
      assert s == [s[0]] + s[1..];
    }
  }

  /** White space, the word, and what is no part of it. */
  ghost predicate SpacedWord(s: string, space: string, word: string, rest: string) {
    Spaces(space) && IsWord(word) && EndsWord(rest) && s == space + (word + rest)
  }

  lemma WordAfterExactly(s: string, word: string)
    ensures WordAfter(s) == Some(word) <==> exists space, rest :: SpacedWord(s, space, word, rest)
  {
    hide SkipSpaces, Word;
    if WordAfter(s) == Some(word) {
      var space := SpacesSkipped(s);
      var rest := WordRead(SkipSpaces(s));
      assert SpacedWord(s, space, word, rest);
    }
    if space, rest :| SpacedWord(s, space, word, rest) {
      assert (word + rest)[0] == word[0];
      SkipsSpaces(space, word + rest);
      ReadsWord(word, rest);
    }
  }

  /** `\\s*` and then a literal that does not start with white space. */
  lemma StartsWithExactly(s: string, literal: string)
    requires literal != "" && !IsSpace(literal[0])
    ensures literal <= SkipSpaces(s) <==> exists space, rest :: Spaces(space) && s == space + (literal + rest)
    ensures forall space, rest :: Spaces(space) && s == space + (literal + rest) ==> SkipSpaces(s) == literal + rest
  {
    hide SkipSpaces;
    if literal <= SkipSpaces(s) {
      var space := SpacesSkipped(s);
      var rest := SkipSpaces(s)[|literal|..];
      assert SkipSpaces(s) == literal + rest;
    }
    forall space, rest | Spaces(space) && s == space + (literal + rest) ensures SkipSpaces(s) == literal + rest {
      assert (literal + rest)[0] == literal[0];
      SkipsSpaces(space, literal + rest);
    }
  }

  /** An id line: `-`, `id:` and a word, white space about them. */
  ghost predicate IsIdLine(line: string, id: string) {
    exists a, b, c, rest :: IdLine(line, a, b, c, id, rest)
  }

  ghost predicate IdLine(line: string, a: string, b: string, c: string, id: string, rest: string) {
    && Spaces(a) && Spaces(b) && Spaces(c) && IsWord(id) && EndsWord(rest)
    && line == a + ("-" + (b + ("id:" + (c + (id + rest)))))
  }

  lemma IdOfExactly(line: string, id: string)
    ensures IdOf(line) == Some(id) <==> IsIdLine(line, id)
  {
    hide SkipSpaces, WordAfter;
    if IdOf(line) == Some(id) {
      var x := SkipSpaces(line);
      var a := SpacesSkipped(line);
      var y := SkipSpaces(x[1..]);
      var b := SpacesSkipped(x[1..]);
      WordAfterExactly(y[3..], id);
      var c, rest :| SpacedWord(y[3..], c, id, rest);
      assert y == "id:" + y[3..] && x == "-" + x[1..];
      assert IdLine(line, a, b, c, id, rest);
    }
    if IsIdLine(line, id) {
      var a, b, c, rest :| IdLine(line, a, b, c, id, rest);
      var word := c + (id + rest);
      var inner := b + ("id:" + word);
      SkipsSpaces(a, "-" + inner);
      assert ("-" + inner)[1..] == inner;
      assert ("id:" + word)[0] == 'i' && ("id:" + word)[3..] == word;
      SkipsSpaces(b, "id:" + word);
      assert SpacedWord(word, c, id, rest);
      WordAfterExactly(word, id);
    }
  }

  /** A path line: `onnx_path:` and a word. */
  ghost predicate IsPathLine(line: string, path: string) {
    exists a, c, rest :: PathLine(line, a, c, path, rest)
  }

  ghost predicate PathLine(line: string, a: string, c: string, path: string, rest: string) {
    Spaces(a) && Spaces(c) && IsWord(path) && EndsWord(rest) && line == a + ("onnx_path:" + (c + (path + rest)))
  }

  lemma PathOfExactly(line: string, path: string)
    ensures PathOf(line) == Some(path) <==> IsPathLine(line, path)
  {
    hide SkipSpaces, WordAfter;
    StartsWithExactly(line, "onnx_path:");
    if PathOf(line) == Some(path) {
      var x := SkipSpaces(line);
      var a := SpacesSkipped(line);
      WordAfterExactly(x[10..], path);
      var c, rest :| SpacedWord(x[10..], c, path, rest);
      assert x == "onnx_path:" + x[10..];
      assert PathLine(line, a, c, path, rest);
    }
    if IsPathLine(line, path) {
      var a, c, rest :| PathLine(line, a, c, path, rest);
      var word := c + (path + rest);
      assert ("onnx_path:" + word)[10..] == word;
      assert SpacedWord(word, c, path, rest);
      WordAfterExactly(word, path);
    }
  }

  /** The look-ahead ends at white space and then `- id:`, one space and no other between. */
  lemma StartsBlockExactly(line: string)
    ensures StartsBlock(line) <==> exists space, rest :: Spaces(space) && line == space + ("- id:" + rest)
  {
    StartsWithExactly(line, "- id:");
  }

  // ---- Writing -----------------------------------------------------------------------------

  /** A pin line: white space, a key, and the first quoted text after it. */
  function Pinning(space: string, key: string, middle: string, quoted: string, tail: string): string {
    space + (key + (middle + ("\"" + (quoted + ("\"" + tail)))))
  }

  ghost predicate Quotable(space: string, middle: string, quoted: string) {
    Spaces(space) && '"' !in middle && '"' !in quoted
  }

  lemma EditOfPinning(space: string, key: string, middle: string, quoted: string, tail: string, pin: Pin,
                      answer: Answer)
    requires Quotable(space, middle, quoted) && key == Keyword(pin) && answer.Resolved?
    ensures IdOf(Pinning(space, key, middle, quoted, tail)) == None
    ensures Edit(Pinning(space, key, middle, quoted, tail), answer)
         == Pinning(space, key, middle, PinValue(answer, pin), tail)
  {
    hide SkipSpaces, IdOf, Requote, HasQuoted, PinValue;
    var line := Pinning(space, key, middle, quoted, tail);
    var head, value := space + (key + middle), PinValue(answer, pin);
    NoQuoteBefore(space, key, middle);
    assert line == Line(head, quoted, tail);
    assert Pinning(space, key, middle, value, tail) == Line(head, value, tail);
    var rest := middle + ("\"" + (quoted + ("\"" + tail)));
    assert (key + rest)[0] == key[0] && !IsSpace(key[0]) && key <= key + rest;
    SkipsSpaces(space, key + rest);
    PinIs(line, pin);
    PinIsNoOther(line);
    RequoteOf(head, quoted, tail, value);
  }

  lemma NoQuoteBefore(space: string, key: string, middle: string)
    requires Spaces(space) && '"' !in key && '"' !in middle
    ensures '"' !in space + (key + middle)
  {
  }

  /**
   What a pinned line says afterwards, under an id that resolved: the revision, the digest of the graph
   or the digest of the tokenizer between its first quotes, by its own key, and all else as it was.
   */
  lemma PinnedLine(lines: seq<string>, resolve: (string, Option<string>) -> Answer, i: nat,
                   space: string, middle: string, quoted: string, tail: string)
    requires i < |lines| && Governing(lines, i).Some? && Quotable(space, middle, quoted)
    requires AnswerAt(lines, resolve, Governing(lines, i).value).Resolved?
    ensures var answer, after := AnswerAt(lines, resolve, Governing(lines, i).value), Pinned(lines, resolve)[i];
        && (lines[i] == Pinning(space, "revision:", middle, quoted, tail) ==>
              after == Pinning(space, "revision:", middle, answer.rev, tail))
        && (lines[i] == Pinning(space, "onnx_sha256:", middle, quoted, tail) ==>
              after == Pinning(space, "onnx_sha256:", middle, answer.sha, tail))
        && (lines[i] == Pinning(space, "tokenizer_sha256:", middle, quoted, tail) ==>
              after == Pinning(space, "tokenizer_sha256:", middle, answer.tokenizer, tail))
  {
    hide Edit, AnswerAt, Governing, Pinning, Quotable, IdOf;
    var answer := AnswerAt(lines, resolve, Governing(lines, i).value);
    EditOfPinning(space, "revision:", middle, quoted, tail, Revision, answer);
    EditOfPinning(space, "onnx_sha256:", middle, quoted, tail, OnnxDigest, answer);
    EditOfPinning(space, "tokenizer_sha256:", middle, quoted, tail, TokenizerDigest, answer);
  }

  /** And the lines that can change at all are such lines. */
  lemma ChangedLineIsPinning(lines: seq<string>, resolve: (string, Option<string>) -> Answer, i: nat)
    returns (space: string, key: string, middle: string, quoted: string, tail: string)
    requires i < |lines| && Pinned(lines, resolve)[i] != lines[i]
    ensures Quotable(space, middle, quoted) && lines[i] == Pinning(space, key, middle, quoted, tail)
    ensures key == "revision:" || key == "onnx_sha256:" || key == "tokenizer_sha256:"
    ensures Governing(lines, i).Some? && AnswerAt(lines, resolve, Governing(lines, i).value).Resolved?
  {
    hide SkipSpaces, IdOf, AnswerAt, Governing, Requote, PinOf, Pinned, Line, Pinning;
    OnlyPinLinesChange(lines, resolve, i);
    var line := lines[i];
    space, key := KeyOf(line);
    QuotedLineChanges(line, PinValue(AnswerAt(lines, resolve, Governing(lines, i).value), PinOf(line).value));
    var head;
    head, quoted, tail := PartsOf(line);
    middle := KeyInHead(line, space, key, head, quoted, tail);
  }

  lemma KeyOf(line: string) returns (space: string, key: string)
    requires PinOf(line).Some?
    ensures key == "revision:" || key == "onnx_sha256:" || key == "tokenizer_sha256:"
    ensures Spaces(space) && '"' !in key && line == space + SkipSpaces(line) && key <= SkipSpaces(line)
  {
    hide SkipSpaces;
    key := Keyword(PinOf(line).value);
    space := SpacesSkipped(line);
  }

  lemma QuotedLineChanges(line: string, value: string)
    requires Requote(line, value) != line
    ensures HasQuoted(line)
  {
  }

  lemma KeyInHead(line: string, space: string, key: string, head: string, quoted: string, tail: string)
    returns (middle: string)
    requires Spaces(space) && '"' !in key && line == space + SkipSpaces(line) && key <= SkipSpaces(line)
    requires '"' !in head && '"' !in quoted && line == Line(head, quoted, tail)
    ensures '"' !in middle && line == Pinning(space, key, middle, quoted, tail)
  {
    hide SkipSpaces;
    var n := |space| + |key|;
    assert line[..n] == space + key;
    assert '"' !in line[..n];
    assert n <= |head| by {
      assert line[|head|] == '"';
      assert forall k :: 0 <= k < n ==> line[k] == line[..n][k];
    }
    middle := head[n..];
    assert head[..n] == line[..n];
    assert head == (space + key) + middle;
  }
}
