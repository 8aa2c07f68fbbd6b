/** Which static archives can be left out of a link, because another archive holds all they hold. */
module Archives {

  import opened Wrappers
  import opened PythonText

  /** Members of each archive, by path. */
  type Names = map<string, set<string>>

  // ---- Strings ----------------------------------------------------------------------

  /** Python's `<` on strings. */
  predicate StrLess(a: string, b: string) {
    b != [] && (a == [] || a[0] < b[0] || (a[0] == b[0] && StrLess(a[1..], b[1..])))
  }

  lemma {:induction false} StrLessIsTotal(a: string, b: string)
    ensures !(StrLess(a, b) && StrLess(b, a))
    ensures a != b <==> StrLess(a, b) || StrLess(b, a)
  {
    if a != [] && b != [] && a[0] == b[0] {
      StrLessIsTotal(a[1..], b[1..]);
      assert a == [a[0]] + a[1..] && b == [b[0]] + b[1..];
    }
  }

  lemma {:induction false} StrLessIsTransitive(a: string, b: string, c: string)
    requires StrLess(a, b) && StrLess(b, c)
    ensures StrLess(a, c)
  {
    if a != [] && a[0] == b[0] == c[0] {
      StrLessIsTransitive(a[1..], b[1..], c[1..]);
    }
  }

  /** Lexicographic order by character code: a proper prefix comes first, or else the first difference decides. */
  ghost predicate ComesBefore(a: string, b: string) {
    (a <= b && a != b) || exists k :: LessAt(a, b, k)
  }

  ghost predicate LessAt(a: string, b: string, k: int) {
    0 <= k < |a| && k < |b| && a[..k] == b[..k] && a[k] < b[k]
  }

  lemma LessAtNext(a: string, b: string, k: int)
    requires a != [] && b != [] && a[0] == b[0] && k >= 0
    ensures LessAt(a, b, k + 1) <==> LessAt(a[1..], b[1..], k)
  {
    if k < |a| - 1 && k < |b| - 1 {
      assert a[..k + 1] == [a[0]] + a[1..][..k] && b[..k + 1] == [b[0]] + b[1..][..k];
      assert a[1..][..k] == a[..k + 1][1..] && b[1..][..k] == b[..k + 1][1..];
    }
  }

  lemma {:induction false} StrLessIsLexicographic(a: string, b: string)
    ensures StrLess(a, b) <==> ComesBefore(a, b)
  {
    if a != [] && b != [] && a[0] == b[0] {
      StrLessIsLexicographic(a[1..], b[1..]);
      assert a == [a[0]] + a[1..] && b == [b[0]] + b[1..];
      hide LessAt, StrLess;
      if k :| LessAt(a[1..], b[1..], k) && k >= 0 {
        LessAtNext(a, b, k);
      }
      if k :| LessAt(a, b, k) && k >= 1 {
        LessAtNext(a, b, k - 1);
      }
      LessAtMeans(a, b);
      LessAtMeans(a[1..], b[1..]);
      StrLessNext(a, b);
    } else if a != [] && b != [] && a[0] < b[0] {
      assert LessAt(a, b, 0);
    }
  }

  lemma LessAtMeans(a: string, b: string)
    ensures forall k :: LessAt(a, b, k) ==> k >= 0
    ensures a != [] && b != [] && a[0] == b[0] ==> !LessAt(a, b, 0)
  {
  }

  lemma StrLessNext(a: string, b: string)
    requires a != [] && b != [] && a[0] == b[0]
    ensures StrLess(a, b) <==> StrLess(a[1..], b[1..])
  {
  }

  // ---- Member names -------------------------------------------------------------------

  const INDEX_MEMBERS: set<string> := {"/", "//", "__.SYMDEF", "__.SYMDEF SORTED"}

  function StripSlashes(line: string): string {
    if line != [] && line[|line| - 1] == '/' then StripSlashes(line[..|line| - 1]) else line
  }

  predicate Blank(line: string) {
    forall i :: 0 <= i < |line| ==> IsSpace(line[i])
  }

  /** `members`: the names `ar t` lists, without index entries and trailing slashes. */
  function Members(listing: seq<string>): set<string> {
    set line | line in listing && !Blank(line) && line !in INDEX_MEMBERS :: StripSlashes(line)
  }

  /** A name is what is left of a line without the slashes at its end. */
  lemma {:induction false} StripSlashesExactly(line: string, name: string)
    ensures name == StripSlashes(line) <==>
        && name <= line && (forall i :: |name| <= i < |line| ==> line[i] == '/')
        && (name == "" || name[|name| - 1] != '/')
  {
    if line != [] && line[|line| - 1] == '/' {
      StripSlashesExactly(line[..|line| - 1], name);
    }
  }

  /** The lines that give names: all but blank ones and the four index entries. */
  ghost predicate GivesName(line: string, name: string) {
    && StripSlashes(line) == name
    && (exists i :: 0 <= i < |line| && !IsSpace(line[i]))
    && line != "/" && line != "//" && line != "__.SYMDEF" && line != "__.SYMDEF SORTED"
  }

  lemma MembersExactly(listing: seq<string>, name: string)
    ensures name in Members(listing) <==> exists line :: line in listing && GivesName(line, name)
  {
    if name in Members(listing) {
      var line :| line in listing && !Blank(line) && line !in INDEX_MEMBERS && StripSlashes(line) == name;
      assert GivesName(line, name);
    }
  }

  function Read(paths: seq<string>, listing: string -> seq<string>): Names {
    map p | p in paths :: Members(listing(p))
  }

  // ---- The order-free meaning ------------------------------------------------------------

  /** What an archive holds: its member names with the digest of each, `None` for an empty member. */
  ghost function Content(names: Names, digest: (string, string) -> Option<string>, a: string)
    : map<string, Option<string>>
    requires a in names
  {
    map m | m in names[a] :: digest(a, m)
  }

  ghost predicate Within<K, V>(x: map<K, V>, y: map<K, V>) {
    x.Keys <= y.Keys && forall m :: m in x ==> x[m] == y[m]
  }

  /** `b` makes `a` redundant: it strictly contains it, or equals it and has the smaller name. */
  ghost predicate Supersedes(names: Names, digest: (string, string) -> Option<string>, b: string, a: string)
    requires a in names && b in names
  {
    var ca, cb := Content(names, digest, a), Content(names, digest, b);
    (Within(ca, cb) && ca != cb) || (ca == cb && StrLess(b, a))
  }

  ghost predicate Redundant(names: Names, digest: (string, string) -> Option<string>, a: string)
    requires a in names
  {
    names[a] != {} && exists b :: b in names && Supersedes(names, digest, b, a)
  }

  ghost function RedundantSet(names: Names, digest: (string, string) -> Option<string>): set<string> {
    set a | a in names && Redundant(names, digest, a)
  }

  lemma SupersedesIsStrictOrder(names: Names, digest: (string, string) -> Option<string>, c: string, b: string,
                                a: string)
    requires a in names && b in names && c in names
    ensures !Supersedes(names, digest, a, a)
    ensures Supersedes(names, digest, c, b) && Supersedes(names, digest, b, a) ==> Supersedes(names, digest, c, a)
  {
    StrLessIsTotal(a, a);
    if Supersedes(names, digest, c, b) && Supersedes(names, digest, b, a) {
      var ca, cb, cc := Content(names, digest, a), Content(names, digest, b), Content(names, digest, c);
      WithinIsOrder(ca, cb, cc);
      if ca == cb == cc {
        StrLessIsTransitive(c, b, a);
      }
    }
  }

  lemma WithinIsOrder<K, V>(x: map<K, V>, y: map<K, V>, z: map<K, V>)
    ensures Within(x, y) && Within(y, z) ==> Within(x, z)
    ensures Within(x, y) && Within(y, x) ==> x == y
    ensures Within(x, x)
  {
  }

  /** A redundant archive is superseded by one that is not: chains of containment end. */
  lemma KeptSuperseder(names: Names, digest: (string, string) -> Option<string>, a: string) returns (b: string)
    requires a in names && Redundant(names, digest, a)
    ensures b in names && Supersedes(names, digest, b, a) && !Redundant(names, digest, b)
    decreases |Above(names, digest, a)|
  {
    b :| b in names && Supersedes(names, digest, b, a);
    if Redundant(names, digest, b) {
      var higher := Above(names, digest, b);
      forall c | c in higher ensures c in Above(names, digest, a) {
        SupersedesIsStrictOrder(names, digest, c, b, a);
      }
      SupersedesIsStrictOrder(names, digest, b, b, b);
      ProperSubsetSize(higher, Above(names, digest, a), b);
      var c := KeptSuperseder(names, digest, b);
      SupersedesIsStrictOrder(names, digest, c, b, a);
      b := c;
    }
  }

  ghost function Above(names: Names, digest: (string, string) -> Option<string>, a: string): set<string>
    requires a in names
  {
    set b | b in names && Supersedes(names, digest, b, a)
  }

  lemma ProperSubsetSize(s: set<string>, t: set<string>, x: string)
    requires s <= t && x in t && x !in s
    ensures |s| < |t|
  {
    assert t == (s + {x}) + (t - s - {x});
  }

  // ---- What the result guarantees -----------------------------------------------------------

  /**
   No code is lost: whatever redundant archives have been dropped so far, every archive's content is
   within that of one still kept, even along chains of containment.
   */
  lemma NothingLost(names: Names, digest: (string, string) -> Option<string>, dropped: set<string>, a: string)
    returns (b: string)
    requires dropped <= RedundantSet(names, digest) && a in names
    ensures b in names && b !in dropped && Within(Content(names, digest, a), Content(names, digest, b))
  {
    if a in dropped {
      b := KeptSuperseder(names, digest, a);
    } else {
      b := a;
    }
  }

  /** Nothing more could go: no kept archive that holds anything is within another kept one. */
  lemma KeptAreIncomparable(names: Names, digest: (string, string) -> Option<string>, a: string, b: string)
    requires a in names && b in names && a != b && names[a] != {}
    requires !Redundant(names, digest, a) && !Redundant(names, digest, b)
    ensures !Within(Content(names, digest, a), Content(names, digest, b))
  {
    var ca, cb := Content(names, digest, a), Content(names, digest, b);
    StrLessIsTotal(a, b);
    assert ca.Keys == names[a] && cb.Keys == names[b];
    var superseded := Supersedes(names, digest, b, a) || Supersedes(names, digest, a, b);
    assert Within(ca, cb) ==> superseded;
  }

  // ---- The code --------------------------------------------------------------------------------

  /** The inner loop's guards and its byte comparison. */
  predicate Folds(names: Names, digest: (string, string) -> Option<string>, a: string, b: string)
    requires a in names && b in names
  {
    && b != a && names[a] <= names[b]
    && !(|names[a]| == |names[b]| && StrLess(a, b))
    && forall m :: m in names[a] ==> digest(a, m) == digest(b, m)
  }

  /** Sizes stand in for strict containment once the names are contained. */
  lemma FoldsIsSupersedes(names: Names, digest: (string, string) -> Option<string>, a: string, b: string)
    requires a in names && b in names
    ensures Folds(names, digest, a, b) <==> Supersedes(names, digest, b, a)
  {
    hide StrLess, Content;
    StrLessIsTotal(a, b);
    if names[a] <= names[b] {
      SameSize(names[a], names[b]);
    }
    ContentWithin(names, digest, a, b);
  }

  lemma SameSize(s: set<string>, t: set<string>)
    requires s <= t
    ensures |s| <= |t| && (|s| == |t| <==> s == t)
  {
    assert t == s + (t - s);
  }

  lemma ContentWithin(names: Names, digest: (string, string) -> Option<string>, a: string, b: string)
    requires a in names && b in names
    ensures var ca, cb := Content(names, digest, a), Content(names, digest, b);
        && (Within(ca, cb) <==> names[a] <= names[b] && forall m :: m in names[a] ==> digest(a, m) == digest(b, m))
        && (names[a] != names[b] ==> ca != cb)
        && (names[a] == names[b] && Within(ca, cb) ==> ca == cb)
  {
    assert Content(names, digest, a).Keys == names[a] && Content(names, digest, b).Keys == names[b];
  }

  method Fold(names: Names, digest: (string, string) -> Option<string>, keys: seq<string>, redundant: set<string>,
              a: string)
    returns (found: bool)
    requires a in names && forall k :: k in keys <==> k in names
    requires redundant <= RedundantSet(names, digest) && names[a] != {}
    ensures found <==> Redundant(names, digest, a)
  {
    hide Folds, Supersedes, RedundantSet;
    for j := 0 to |keys|
      invariant forall q :: 0 <= q < j ==> keys[q] in redundant || !Folds(names, digest, a, keys[q])
    {
      var b := keys[j];
      if b in redundant || !Folds(names, digest, a, b) {
        continue;
      }
      FoldsIsSupersedes(names, digest, a, b);
      return true;
    }
    if Redundant(names, digest, a) {
      var b := KeptSuperseder(names, digest, a);
      FoldsIsSupersedes(names, digest, a, b);
      NotRedundant(names, digest, redundant, b);
    }
    return false;
  }

  lemma NotRedundant(names: Names, digest: (string, string) -> Option<string>, redundant: set<string>, b: string)
    requires b in names && !Redundant(names, digest, b) && redundant <= RedundantSet(names, digest)
    ensures b !in redundant
  {
  }

  ghost predicate Sorted(s: seq<string>) {
    forall i, j :: 0 <= i < j < |s| ==> StrLess(s[i], s[j])
  }

  /** Python's `sorted` over distinct strings. */
  method SortKeys(keys: set<string>) returns (sorted: seq<string>)
    ensures Sorted(sorted) && forall k :: k in sorted <==> k in keys
  {
    sorted := [];
    var left := keys;
    while left != {}
      invariant left <= keys && Sorted(sorted)
      invariant forall k :: k in sorted <==> k in keys && k !in left
    {
      var k :| k in left;
      sorted := InsertKey(sorted, k);
      left := left - {k};
    }
  }

  method InsertKey(s: seq<string>, k: string) returns (r: seq<string>)
    requires Sorted(s) && k !in s
    ensures Sorted(r) && forall x :: x in r <==> x in s || x == k
  {
    hide StrLess, Sorted;
    var i := 0;
    while i < |s| && StrLess(s[i], k)
      invariant 0 <= i <= |s| && forall p :: 0 <= p < i ==> StrLess(s[p], k)
    {
      i := i + 1;
    }
    r := s[..i] + [k] + s[i..];
    InsertedIsSorted(s, i, k);
    assert s == s[..i] + s[i..];
  }

  lemma InsertedIsSorted(s: seq<string>, i: nat, k: string)
    requires Sorted(s) && k !in s && i <= |s|
    requires forall p :: 0 <= p < i ==> StrLess(s[p], k)
    requires i < |s| ==> !StrLess(s[i], k)
    ensures Sorted(s[..i] + [k] + s[i..])
  {
    hide StrLess;
    forall p | i <= p < |s| ensures StrLess(k, s[p]) {
      StrLessIsTotal(s[i], k);
      if i < p {
        StrLessIsTransitive(k, s[i], s[p]);
      }
    }
  }

  /** `main`: the printed archives, given what `ar` lists and extracts. */
  method FindRedundant(paths: seq<string>, listing: string -> seq<string>, digest: (string, string) -> Option<string>)
    returns (printed: seq<string>)
    ensures forall a :: a in printed <==> a in RedundantSet(Read(paths, listing), digest)
    ensures Sorted(printed)
  {
    var names := Read(paths, listing);
    var keys := SortKeys(names.Keys);
    var redundant: set<string> := {};
    for i := 0 to |keys|
      invariant forall a :: a in redundant <==> a in keys[..i] && Redundant(names, digest, a)
    {
      var a := keys[i];
      if names[a] == {} {
        continue;
      }
      var found := Fold(names, digest, keys, redundant, a);
      if found {
        redundant := redundant + {a};
      }
    }
    printed := SortKeys(redundant);
  }

  /** What is dropped, in terms of names and digests alone. */
  lemma RedundantExactly(names: Names, digest: (string, string) -> Option<string>, a: string)
    ensures a in RedundantSet(names, digest) <==>
        a in names && names[a] != {} && exists b :: b in names && MakesRedundant(names, digest, a, b)
  {
    hide Supersedes, Content;
    if a in names {
      forall b | b in names ensures Supersedes(names, digest, b, a) <==> MakesRedundant(names, digest, a, b) {
        StrLessIsLexicographic(b, a);
        SupersedesMeans(names, digest, a, b);
      }
    }
  }

  /** `b` has all the names of `a` and the same under each; and if it has no more, it comes first. */
  ghost predicate MakesRedundant(names: Names, digest: (string, string) -> Option<string>, a: string, b: string)
    requires a in names && b in names
  {
    && names[a] <= names[b] && (forall m :: m in names[a] ==> digest(a, m) == digest(b, m))
    && (names[a] == names[b] ==> ComesBefore(b, a))
  }

  lemma SupersedesMeans(names: Names, digest: (string, string) -> Option<string>, a: string, b: string)
    requires a in names && b in names
    ensures Supersedes(names, digest, b, a) <==>
        && names[a] <= names[b] && (forall m :: m in names[a] ==> digest(a, m) == digest(b, m))
        && (names[a] == names[b] ==> StrLess(b, a))
  {
    hide StrLess, Content;
    ContentWithin(names, digest, a, b);
  }

  /** Of two archives that hold the same the one that comes first by name is kept and the other is printed. */
  lemma FirstByNameIsKept(names: Names, digest: (string, string) -> Option<string>, a: string, b: string)
    requires names.Keys == {a, b} && names[a] == names[b] != {} && ComesBefore(a, b)
    requires forall m :: m in names[a] ==> digest(a, m) == digest(b, m)
    ensures RedundantSet(names, digest) == {b}
  {
    hide StrLess, ComesBefore;
    StrLessIsLexicographic(a, b);
    StrLessIsTotal(a, b);
    var ca, cb := Content(names, digest, a), Content(names, digest, b);
    assert ca == cb;
    SupersedesIsStrictOrder(names, digest, a, a, a);
    SupersedesIsStrictOrder(names, digest, b, b, b);
    assert Supersedes(names, digest, a, b) && !Supersedes(names, digest, b, a);
  }

  /** The output is determined: it depends on which paths were given, not on their order or repetition. */
  lemma OutputIsOrderFree(paths: seq<string>, paths': seq<string>, listing: string -> seq<string>,
                          digest: (string, string) -> Option<string>, printed: seq<string>, printed': seq<string>)
    requires forall p :: p in paths <==> p in paths'
    requires Sorted(printed) && forall a :: a in printed <==> a in RedundantSet(Read(paths, listing), digest)
    requires Sorted(printed') && forall a :: a in printed' <==> a in RedundantSet(Read(paths', listing), digest)
    ensures printed == printed'
  {
    assert Read(paths, listing) == Read(paths', listing);
    SortedIsUnique(printed, printed');
  }

  lemma {:induction false} SortedIsUnique(s: seq<string>, t: seq<string>)
    requires Sorted(s) && Sorted(t) && forall x :: x in s <==> x in t
    ensures s == t
  {
    assert (s == [] || s[0] in t) && (t == [] || t[0] in s);
    if s != [] {
      StrLessIsTotal(s[0], t[0]);
      var i :| 0 <= i < |t| && t[i] == s[0];
      var j :| 0 <= j < |s| && s[j] == t[0];
      assert s[0] == t[0];
      forall x ensures x in s[1..] <==> x in t[1..] {
        TailMembers(s, x);
        TailMembers(t, x);
      }
      SortedIsUnique(s[1..], t[1..]);
      assert s == [s[0]] + s[1..] && t == [t[0]] + t[1..];
    }
  }

  lemma TailMembers(s: seq<string>, x: string)
    requires Sorted(s) && s != []
    ensures x in s[1..] <==> x in s && x != s[0]
  {
    StrLessIsTotal(s[0], s[0]);
    if x in s && x != s[0] {
      var i :| 0 <= i < |s| && s[i] == x;
      assert s[1..][i - 1] == x;
    }
    if x in s[1..] {
      var i :| 0 <= i < |s| - 1 && s[1..][i] == x;
      assert StrLess(s[0], s[i + 1]);
    }
  }
}
