/** The models of a registry share one cache directory: when every file they are answered with is their own. */
module CacheRegistry {
  import opened Cache
  import opened CacheProtocol
  import opened CacheGuarantees

  /** One model: where its files are, and the digests pinned for its graph and its tokenizer. */
  datatype Entry = Entry(name: string, revision: string, onnxPath: string, graphDigest: string, tokenizerDigest: string)

  ghost predicate WellNamed(e: Entry) {
    e.name != "" && Component(e.revision)
  }

  /** What `ensure_graph` asks of the cache, and what `ensure_tokenizer` does. */
  function GraphAsk(cacheDir: string, e: Entry, offline: bool): Ask {
    Ask(GraphPath(cacheDir, e.name, e.revision, e.onnxPath), e.graphDigest, offline)
  }

  function TokenizerAsk(cacheDir: string, e: Entry, offline: bool): Ask {
    Ask(TokenizerPath(cacheDir, e.name, e.revision, e.onnxPath), e.tokenizerDigest, offline)
  }

  ghost function Asks(cacheDir: string, registry: set<Entry>): set<Ask> {
    (set e, offline: bool | e in registry :: GraphAsk(cacheDir, e, offline))
    + set e, offline: bool | e in registry :: TokenizerAsk(cacheDir, e, offline)
  }

  /** A file of an entry: the name its model flattens to, its revision, its file name, and its digest. */
  datatype Pinned = Pinned(model: string, revision: string, file: string, digest: string)

  function GraphOf(e: Entry): Pinned {
    Pinned(Flat(e.name), e.revision, FileName(e.onnxPath), e.graphDigest)
  }

  function TokenizerOf(e: Entry): Pinned {
    Pinned(Flat(e.name), e.revision, "tokenizer.json", e.tokenizerDigest)
  }

  ghost function FilesOf(registry: set<Entry>): set<Pinned> {
    (set e | e in registry :: GraphOf(e)) + set e | e in registry :: TokenizerOf(e)
  }

  /** Two files that collide: they differ in their digests, if in anything. */
  predicate Collide(x: Pinned, y: Pinned) {
    x.model == y.model && x.revision == y.revision && x.file == y.file
  }

  function PathOf(cacheDir: string, x: Pinned): string {
    Join(Join(Join(cacheDir, x.model), x.revision), x.file)
  }

  function AskFor(cacheDir: string, x: Pinned, offline: bool): Ask {
    Ask(PathOf(cacheDir, x), x.digest, offline)
  }

  ghost predicate WellPlaced(x: Pinned) {
    Component(x.model) && Component(x.revision) && '/' !in x.file
  }

  lemma FilesAreWellPlaced(registry: set<Entry>, x: Pinned)
    requires x in FilesOf(registry) && forall e :: e in registry ==> WellNamed(e)
    ensures WellPlaced(x)
  {
  }

  lemma PathsAreCollisions(cacheDir: string, x: Pinned, y: Pinned)
    requires cacheDir != "" && WellPlaced(x) && WellPlaced(y)
    ensures PathOf(cacheDir, x) == PathOf(cacheDir, y) <==> Collide(x, y)
  {
    hide Join;
    var a, b := Join(cacheDir, x.model), Join(cacheDir, y.model);
    JoinFirst(cacheDir, x.model, y.model);
    JoinFirst(a, x.revision, x.revision);
    JoinFirst(b, y.revision, y.revision);
    JoinDetermines(a, x.revision, b, y.revision);
    JoinDetermines(Join(a, x.revision), x.file, Join(b, y.revision), y.file);
  }

  /** The asks are those for the files of the entries, online or not. */
  lemma AsksAreForFiles(cacheDir: string, registry: set<Entry>, a: Ask)
    requires cacheDir != "" && forall e :: e in registry ==> WellNamed(e)
    ensures a in Asks(cacheDir, registry) <==>
        exists x :: x in FilesOf(registry) && a == AskFor(cacheDir, x, a.offline)
  {
    forall e | e in registry
      ensures GraphAsk(cacheDir, e, a.offline) == AskFor(cacheDir, GraphOf(e), a.offline)
      ensures TokenizerAsk(cacheDir, e, a.offline) == AskFor(cacheDir, TokenizerOf(e), a.offline)
    {
      hide TokenizerPath, Join, FileName, Flat;
      BesideTheGraph(cacheDir, e.name, e.revision, e.onnxPath);
    }
    hide GraphAsk, TokenizerAsk, AskFor, GraphOf, TokenizerOf;
    if a in Asks(cacheDir, registry) {
      AskOfEntry(cacheDir, registry, a);
    }
    if x :| x in FilesOf(registry) && a == AskFor(cacheDir, x, a.offline) {
      var e :| e in registry && (x == GraphOf(e) || x == TokenizerOf(e));
      assert a == GraphAsk(cacheDir, e, a.offline) || a == TokenizerAsk(cacheDir, e, a.offline);
    }
  }

  lemma AskOfEntry(cacheDir: string, registry: set<Entry>, a: Ask)
    requires a in Asks(cacheDir, registry)
    requires forall e :: e in registry ==>
        && GraphAsk(cacheDir, e, a.offline) == AskFor(cacheDir, GraphOf(e), a.offline)
        && TokenizerAsk(cacheDir, e, a.offline) == AskFor(cacheDir, TokenizerOf(e), a.offline)
    ensures exists x :: x in FilesOf(registry) && a == AskFor(cacheDir, x, a.offline)
  {
    var e :| e in registry && (a == GraphAsk(cacheDir, e, a.offline) || a == TokenizerAsk(cacheDir, e, a.offline));
    assert GraphOf(e) in FilesOf(registry) && TokenizerOf(e) in FilesOf(registry);
  }

  /**
   A file suits the rest: what is at its path at the start has its digest; or nothing is, and no file
   that collides with it has another digest, or none that any content has.
   */
  ghost predicate Fits(sha: Bytes -> Bytes, cacheDir: string, registry: set<Entry>, initial: map<string, Bytes>,
                       x: Pinned) {
    if PathOf(cacheDir, x) in initial then Hex(sha(initial[PathOf(cacheDir, x)])) == x.digest
    else forall y :: y in FilesOf(registry) && Collide(x, y) && HasContent(sha, y.digest) ==> y.digest == x.digest
  }

  ghost predicate HasContent(sha: Bytes -> Bytes, digest: string) {
    exists content: Bytes :: Hex(sha(content)) == digest
  }

  /** Any number of processes asking for the models of a registry, in a cache that starts with some files. */
  ghost function Serving(sha: Bytes -> Bytes, cacheDir: string, registry: set<Entry>,
                         initial: map<string, Bytes>): Setting {
    Setting(sha, Asks(cacheDir, registry), initial)
  }

  lemma SuitedIsFits(sha: Bytes -> Bytes, cacheDir: string, registry: set<Entry>, initial: map<string, Bytes>,
                     x: Pinned, offline: bool)
    requires cacheDir != "" && forall e :: e in registry ==> WellNamed(e)
    requires x in FilesOf(registry)
    ensures Suited(Serving(sha, cacheDir, registry, initial), AskFor(cacheDir, x, offline))
       <==> Fits(sha, cacheDir, registry, initial, x)
  {
    var c := Serving(sha, cacheDir, registry, initial);
    hide Asks, FilesOf, PathOf, Hex, WellNamed, Collide;
    var a := AskFor(cacheDir, x, offline);
    FilesAreWellPlaced(registry, x);
    if a.path !in c.initial {
      if Suited(c, a) {
        forall y | y in FilesOf(registry) && Collide(x, y) && HasContent(c.sha, y.digest) ensures y.digest == x.digest {
          var b := AskFor(cacheDir, y, false);
          FilesAreWellPlaced(registry, y);
          PathsAreCollisions(cacheDir, x, y);
          AsksAreForFiles(cacheDir, registry, b);
          assert Fetchable(c, b, a.path) && Attainable(c, b);
        }
      }
      if Fits(sha, cacheDir, registry, initial, x) {
        forall b | Fetchable(c, b, a.path) && Attainable(c, b) ensures b.expected == a.expected {
          AsksAreForFiles(cacheDir, registry, b);
          var y :| y in FilesOf(registry) && b == AskFor(cacheDir, y, b.offline);
          FilesAreWellPlaced(registry, y);
          PathsAreCollisions(cacheDir, x, y);
        }
      }
    }
  }

  /**
   Every Ok of `ensure_graph` and of `ensure_tokenizer`, in every run of any number of processes over the
   models of a registry, means for good a file of the pinned digest if and only if every file fits.
   */
  lemma RegistryIsServedExactly(sha: Bytes -> Bytes, cacheDir: string, registry: set<Entry>,
                                initial: map<string, Bytes>)
    requires cacheDir != "" && forall e :: e in registry ==> WellNamed(e)
    ensures var c := Serving(sha, cacheDir, registry, initial);
        (forall w, k :: Reachable(c, w) && 0 <= k < |w.log| ==> Kept(c, w, w.log[k]))
        <==> forall x :: x in FilesOf(registry) ==> Fits(sha, cacheDir, registry, initial, x)
  {
    var c := Serving(sha, cacheDir, registry, initial);
    hide Asks, FilesOf, Suited, Fits, Reachable, Kept, WellNamed;
    OkIsKeptExactly(c);
    if Consistent(c) {
      forall x | x in FilesOf(registry) ensures Fits(sha, cacheDir, registry, initial, x) {
        var a := AskFor(cacheDir, x, false);
        AsksAreForFiles(cacheDir, registry, a);
        SuitedIsFits(sha, cacheDir, registry, initial, x, false);
      }
    }
    if forall x :: x in FilesOf(registry) ==> Fits(sha, cacheDir, registry, initial, x) {
      forall a | a in c.wanted ensures Suited(c, a) {
        AsksAreForFiles(cacheDir, registry, a);
        var x :| x in FilesOf(registry) && a == AskFor(cacheDir, x, a.offline);
        SuitedIsFits(sha, cacheDir, registry, initial, x, a.offline);
      }
    }
  }

  /** For instance: two ids that flatten alike, with graphs of two digests that some content has, in an empty cache. */
  lemma SlashAndUnderscoreClash(sha: Bytes -> Bytes, one: Bytes, other: Bytes)
    requires Hex(sha(one)) != Hex(sha(other))
    ensures var x := Entry("a/b", "r", "model.onnx", Hex(sha(one)), "");
        var y := Entry("a_b", "r", "model.onnx", Hex(sha(other)), "");
        !Fits(sha, "cache", {x, y}, map[], GraphOf(x))
  {
    var x := Entry("a/b", "r", "model.onnx", Hex(sha(one)), "");
    var y := Entry("a_b", "r", "model.onnx", Hex(sha(other)), "");
    assert Flat("a/b") == "a_b" == Flat("a_b");
    assert GraphOf(y) in FilesOf({x, y}) && Collide(GraphOf(x), GraphOf(y));
    assert HasContent(sha, GraphOf(y).digest);
  }
}
