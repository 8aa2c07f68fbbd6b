/** What archives hold, name by name and byte by byte, and when leaving out a redundant one loses none of it. */
module ArchiveContents {
  import opened Archives
  import opened FreshNames
  import opened PythonText
  import opened Wrappers

  /** One member of an archive: names may repeat. A member without bytes has no digest. */
  datatype Member = Member(name: string, digest: Option<string>)

  /** The members of each archive in order, and the digest of what is extracted from it under a name, if anything. */
  datatype Library = Library(members: string -> seq<Member>, extract: (string, string) -> Option<string>)

  function Listing(lib: Library, p: string): (lines: seq<string>)
    ensures |lines| == |lib.members(p)|
  {
    seq(|lib.members(p)|, i requires 0 <= i < |lib.members(p)| => lib.members(p)[i].name)
  }

  function NamesOf(lib: Library, p: string): set<string> {
    Members(Listing(lib, p))
  }

  function ReadAll(lib: Library, paths: seq<string>): Names {
    Read(paths, p => Listing(lib, p))
  }

  /** The archive has a member of this name with these bytes. */
  ghost predicate Holds(lib: Library, p: string, name: string, digest: Option<string>) {
    exists i :: 0 <= i < |lib.members(p)| && IsMember(lib.members(p)[i], name, digest)
  }

  ghost predicate IsMember(e: Member, name: string, digest: Option<string>) {
    StripSlashes(e.name) == name && e.digest == digest
  }

  /** What is extracted from an archive is the bytes of some member of that name; extraction may also fail. */
  ghost predicate Sound(lib: Library) {
    forall p, name :: Extracts(lib, p, name)
  }

  ghost predicate Extracts(lib: Library, p: string, name: string) {
    lib.extract(p, name).Some? ==> Holds(lib, p, name, lib.extract(p, name))
  }

  predicate IsCode(e: Member) {
    e.digest.Some? && e.name !in INDEX_MEMBERS
  }

  /** No code of `a` is lost: all of it is in an archive that is not printed as redundant. */
  ghost predicate CodeIsKept(lib: Library, paths: seq<string>, a: string) {
    forall e :: e in lib.members(a) && IsCode(e) ==> CodeIn(lib, paths, e)
  }

  ghost predicate CodeIn(lib: Library, paths: seq<string>, e: Member) {
    exists b :: b in paths && b !in RedundantSet(ReadAll(lib, paths), lib.extract)
                && Holds(lib, b, StripSlashes(e.name), e.digest)
  }

  /** What is compared is what is there: every piece of code is what its own name extracts. */
  ghost predicate Comparable(lib: Library, a: string) {
    forall e :: e in lib.members(a) && IsCode(e) ==> ExtractsItself(lib, a, e)
  }

  ghost predicate ExtractsItself(lib: Library, a: string, e: Member) {
    StripSlashes(e.name) in NamesOf(lib, a) && lib.extract(a, StripSlashes(e.name)) == e.digest
  }

  ghost predicate SameArchive(x: Library, y: Library, a: string) {
    x.members(a) == y.members(a) && forall name :: x.extract(a, name) == y.extract(a, name)
  }

  lemma ComparableIsKept(lib: Library, paths: seq<string>, a: string)
    requires Sound(lib) && a in paths && (NamesOf(lib, a) == {} || Comparable(lib, a))
    ensures CodeIsKept(lib, paths, a)
  {
    var names := ReadAll(lib, paths);
    forall e | e in lib.members(a) && IsCode(e) ensures CodeIn(lib, paths, e) {
      var name := StripSlashes(e.name);
      if NamesOf(lib, a) == {} {
        assert names[a] == {};
        assert Holds(lib, a, name, e.digest);
      } else {
        assert ExtractsItself(lib, a, e);
        var b := NothingLost(names, lib.extract, RedundantSet(names, lib.extract), a);
        assert name in Content(names, lib.extract, a);
        assert lib.extract(b, name) == e.digest;
        assert Extracts(lib, b, name);
      }
    }
  }

  // ---- A second archive that takes the place of the first -------------------------------------

  /** For each member of `a` one of the same name with what that name extracts from `a`; and one member more. */
  function Shadow(lib: Library, a: string, extra: string): seq<Member> {
    seq(|lib.members(a)|, i requires 0 <= i < |lib.members(a)| => ShadowOf(lib, a, lib.members(a)[i]))
    + [Member(extra, None)]
  }

  function ShadowOf(lib: Library, a: string, e: Member): Member {
    var name := StripSlashes(e.name);
    Member(e.name, if name in NamesOf(lib, a) then lib.extract(a, name) else None)
  }

  function WithShadow(lib: Library, a: string, extra: string): Library {
    Library(p => if p == a then lib.members(a) else Shadow(lib, a, extra),
            (p, name) => if p == a || name in NamesOf(lib, a) then lib.extract(a, name) else None)
  }

  lemma ShadowNames(lib: Library, a: string, extra: string, b: string)
    requires b != a && StripSlashes(extra) == extra && !Blank(extra) && extra !in INDEX_MEMBERS
    ensures NamesOf(WithShadow(lib, a, extra), b) == NamesOf(lib, a) + {extra}
    ensures NamesOf(WithShadow(lib, a, extra), a) == NamesOf(lib, a)
  {
    var two := WithShadow(lib, a, extra);
    assert Listing(two, a) == Listing(lib, a);
    assert Listing(two, b) == Listing(lib, a) + [extra];
  }

  lemma ShadowIsSound(lib: Library, a: string, extra: string)
    requires Sound(lib)
    ensures Sound(WithShadow(lib, a, extra)) && SameArchive(WithShadow(lib, a, extra), lib, a)
  {
    var two := WithShadow(lib, a, extra);
    forall p, name ensures Extracts(two, p, name) {
      assert Extracts(lib, a, name);
      if p != a && name in NamesOf(lib, a) {
        var i :| 0 <= i < |lib.members(a)| && StripSlashes(lib.members(a)[i].name) == name;
        assert two.members(p)[i] == ShadowOf(lib, a, lib.members(a)[i]);
        assert IsMember(two.members(p)[i], name, two.extract(p, name));
      }
    }
  }

  /** Code that its own name does not extract is not in the shadow. */
  lemma ShadowLacks(lib: Library, a: string, extra: string, b: string, e: Member)
    requires b != a && IsCode(e) && !ExtractsItself(lib, a, e)
    ensures !Holds(WithShadow(lib, a, extra), b, StripSlashes(e.name), e.digest)
  {
    var two := WithShadow(lib, a, extra);
    forall i | 0 <= i < |two.members(b)| ensures !IsMember(two.members(b)[i], StripSlashes(e.name), e.digest) {
      assert i < |lib.members(a)| ==> two.members(b)[i] == ShadowOf(lib, a, lib.members(a)[i]);
    }
  }

  /** Of two archives one of which has all of the other and a name more, the other is redundant. */
  lemma LargerSupersedes(names: Names, digest: (string, string) -> Option<string>, a: string, b: string, extra: string)
    requires a != b && names.Keys == {a, b} && names[a] != {}
    requires extra !in names[a] && names[b] == names[a] + {extra}
    requires forall name :: name in names[a] ==> digest(a, name) == digest(b, name)
    ensures RedundantSet(names, digest) == {a}
  {
    hide StrLess;
    var ca, cb := Content(names, digest, a), Content(names, digest, b);
    assert extra in cb && extra !in ca;
    assert Within(ca, cb) && !Within(cb, ca);
    SupersedesIsStrictOrder(names, digest, b, b, b);
    assert Supersedes(names, digest, b, a) && !Supersedes(names, digest, a, b);
  }

  lemma ShadowSupersedes(lib: Library, a: string, extra: string, b: string)
    requires b != a && NamesOf(lib, a) != {} && extra !in NamesOf(lib, a)
    requires StripSlashes(extra) == extra && !Blank(extra) && extra !in INDEX_MEMBERS
    ensures var two := WithShadow(lib, a, extra);
        RedundantSet(ReadAll(two, [a, b]), two.extract) == {a}
  {
    var two := WithShadow(lib, a, extra);
    hide StrLess, Members, Shadow, RedundantSet, Blank, StripSlashes;
    ShadowNames(lib, a, extra, b);
    LargerSupersedes(ReadAll(two, [a, b]), two.extract, a, b, extra);
  }

  /**
   Leaving out the redundant archives loses no code of archive `a`, whatever archives it is given with,
   if and only if it has no names at all or every piece of its code is what its own name extracts. What
   can lose code is a name that repeats with other bytes, a name whose extraction fails, and a blank name
   beside others, under which nothing is compared.
   */
  lemma NoCodeIsLostExactly(lib: Library, a: string)
    requires Sound(lib)
    ensures (forall other: Library, paths: seq<string>
               | Sound(other) && SameArchive(other, lib, a) && a in paths :: CodeIsKept(other, paths, a))
       <==> NamesOf(lib, a) == {} || Comparable(lib, a)
  {
    if NamesOf(lib, a) == {} || Comparable(lib, a) {
      forall other: Library, paths: seq<string> | Sound(other) && SameArchive(other, lib, a) && a in paths
        ensures CodeIsKept(other, paths, a)
      {
        SameIsComparable(other, lib, a);
        ComparableIsKept(other, paths, a);
      }
    } else {
      var e :| e in lib.members(a) && IsCode(e) && !ExtractsItself(lib, a, e);
      var extra := UnusedName(NamesOf(lib, a));
      var b := a + "+";
      var two := WithShadow(lib, a, extra);
      ShadowIsSound(lib, a, extra);
      ShadowSupersedes(lib, a, extra, b);
      ShadowLacks(lib, a, extra, b, e);
      assert !CodeIn(two, [a, b], e);
      assert !CodeIsKept(two, [a, b], a);
    }
  }

  lemma SameIsComparable(x: Library, y: Library, a: string)
    requires SameArchive(x, y, a)
    ensures NamesOf(x, a) == NamesOf(y, a) && (Comparable(y, a) ==> Comparable(x, a))
  {
    assert Listing(x, a) == Listing(y, a);
    if Comparable(y, a) {
      forall e | e in x.members(a) && IsCode(e) ensures ExtractsItself(x, a, e) {
        assert ExtractsItself(y, a, e);
      }
    }
  }

  lemma OneLetter(c: char)
    requires 'a' <= c <= 'z'
    ensures !Blank([c]) && [c] !in INDEX_MEMBERS && StripSlashes([c]) == [c]
  {
    var name := [c];
    assert name[0] == c && !IsSpace(c);
    assert "/"[0] == '/' && |"//"| == 2 && |"__.SYMDEF"| > 1 && |"__.SYMDEF SORTED"| > 1;
  }

  /** An archive with a name twice, and another with what is extracted under that name, and a name more. */
  function Twice(): Library {
    var twice, once := [Member("m", Some("1")), Member("m", Some("2"))], [Member("m", Some("1")), Member("n", None)];
    Library(p => if p == "a" then twice else once, (p, name) => if name == "m" then Some("1") else None)
  }

  lemma TwiceNames()
    ensures NamesOf(Twice(), "a") == {"m"} && NamesOf(Twice(), "b") == {"m", "n"}
  {
    OneLetter('m');
    OneLetter('n');
    var first, second: seq<string> := ["m", "m"], ["m", "n"];
    assert Listing(Twice(), "a") == first && Listing(Twice(), "b") == second;
    assert first[0] in first && second[0] in second && second[1] in second;
  }

  lemma TwiceIsSound()
    ensures Sound(Twice())
  {
    forall p, name ensures Extracts(Twice(), p, name) {
      assert IsMember(Twice().members(p)[0], "m", Some("1")) by {
        OneLetter('m');
      }
    }
  }

  /** For instance: a name that repeats with other bytes, of which only the first are compared. */
  lemma RepeatedNameLoses()
    ensures Sound(Twice()) && !CodeIsKept(Twice(), ["a", "b"], "a")
  {
    var lib := Twice();
    TwiceIsSound();
    TwiceNames();
    var e := Member("m", Some("2"));
    assert e == lib.members("a")[1] && IsCode(e) && StripSlashes("m") == "m" by {
      OneLetter('m');
    }
    assert !Holds(lib, "b", "m", Some("2"));
    hide Members, StripSlashes, Blank;
    LargerSupersedes(ReadAll(lib, ["a", "b"]), lib.extract, "a", "b", "n");
    hide RedundantSet;
    assert !CodeIn(lib, ["a", "b"], e);
  }
}
