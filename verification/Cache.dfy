/** The verified download cache: where files live, how they are fetched, hashed and put in place. */
module Cache {

  import opened Wrappers

  type Bytes = seq<bv8>

  datatype Status = Ok | DownloadFailed | DigestMismatch | NotCached

  // ---- Paths --------------------------------------------------------------------------

  function Underscored(c: char): char {
    if c == '/' then '_' else c
  }

  /** `flatten`: each slash becomes one underscore. */
  method Flatten(id: string) returns (flat: string)
    ensures flat == Flat(id)
  {
    flat := id;
    for i := 0 to |id|
      invariant |flat| == |id|
      invariant forall k :: 0 <= k < i ==> flat[k] == Underscored(id[k])
      invariant forall k :: i <= k < |id| ==> flat[k] == id[k]
    {
      if flat[i] == '/' {
        flat := flat[i := '_'];
      }
    }
  }

  function Flat(id: string): (flat: string)
    ensures |flat| == |id| && '/' !in flat
    ensures forall i :: 0 <= i < |id| ==> flat[i] == if id[i] == '/' then '_' else id[i]
  {
    seq(|id|, i requires 0 <= i < |id| => Underscored(id[i]))
  }

  /** Ids flatten alike exactly when they differ only in slashes against underscores. */
  lemma FlatCollides(a: string, b: string)
    ensures Flat(a) == Flat(b) <==>
        |a| == |b| && forall i :: 0 <= i < |a| ==> a[i] == b[i] || {a[i], b[i]} == {'/', '_'}
  {
    if Flat(a) == Flat(b) {
      forall i | 0 <= i < |a| ensures a[i] == b[i] || {a[i], b[i]} == {'/', '_'} {
        assert Flat(a)[i] == Flat(b)[i];
      }
    }
    if |a| == |b| && forall i :: 0 <= i < |a| ==> a[i] == b[i] || {a[i], b[i]} == {'/', '_'} {
      forall i | 0 <= i < |a| ensures Flat(a)[i] == Flat(b)[i] {
        assert a[i] != b[i] ==> a[i] in {'/', '_'} && b[i] in {'/', '_'};
      }
    }
  }

  /** Where the last component of a path starts: after the last slash. */
  function AfterSlash(path: string): (n: nat)
    ensures n <= |path| && (n == 0 || path[n - 1] == '/')
    ensures forall k :: n <= k < |path| ==> path[k] != '/'
  {
    if path == "" || path[|path| - 1] == '/' then |path| else AfterSlash(path[..|path| - 1])
  }

  lemma AfterSlashIs(path: string, n: nat)
    requires n <= |path| && (n == 0 || path[n - 1] == '/')
    requires '/' !in path[n..]
    ensures AfterSlash(path) == n
  {
    hide AfterSlash;
    forall k | n <= k < |path| ensures path[k] != '/' {
      assert path[n..][k - n] == path[k];
    }
    var m := AfterSlash(path);
    assert m > 0 ==> path[m - 1] == '/';
  }

  function FileName(path: string): (name: string)
    ensures '/' !in name
  {
    path[AfterSlash(path)..]
  }

  /** The file name has no slash, and is the path or follows some directory in it; nothing else is and does. */
  lemma FileNameExactly(path: string, name: string)
    ensures name == FileName(path) <==> '/' !in name && (name == path || exists dir :: path == dir + "/" + name)
  {
    hide AfterSlash;
    var n := AfterSlash(path);
    if n > 0 {
      assert path == path[..n - 1] + "/" + path[n..];
    }
    if '/' !in name && name == path {
      AfterSlashIs(path, 0);
    }
    if '/' !in name && exists dir :: path == dir + "/" + name {
      var dir :| path == dir + "/" + name;
      FileNameAfter(dir, name);
    }
  }

  lemma FileNameAfter(dir: string, name: string)
    requires '/' !in name
    ensures FileName(dir + "/" + name) == name && AfterSlash(dir + "/" + name) == |dir| + 1
  {
    hide AfterSlash;
    var slashed := dir + "/";
    var path, n := slashed + name, |slashed|;
    assert slashed[n - 1] == '/' == path[n - 1];
    assert path[n..] == name;
    AfterSlashIs(path, n);
  }

  /** `operator/` of filesystem paths. */
  function Join(a: string, b: string): string {
    if b != "" && b[0] == '/' then b
    else if a == "" || a[|a| - 1] == '/' then a + b
    else a + "/" + b
  }

  /** `parent_path`: the path without its file name and the slashes before it. */
  function ParentPath(path: string): string {
    TrimSlashes(path[..AfterSlash(path)])
  }

  function TrimSlashes(path: string): string {
    if |path| > 1 && path[|path| - 1] == '/' then TrimSlashes(path[..|path| - 1]) else path
  }

  /** Where one revision of a model has its files. */
  function ModelDir(cacheDir: string, name: string, revision: string): string {
    Join(Join(cacheDir, Flat(name)), revision)
  }

  /** `cached_graph_path`: of the graph's own path only the file name is left. */
  function GraphPath(cacheDir: string, name: string, revision: string, onnxPath: string): string {
    Join(ModelDir(cacheDir, name, revision), FileName(onnxPath))
  }

  /** Where `ensure_tokenizer` puts the tokenizer: beside the graph. */
  function TokenizerPath(cacheDir: string, name: string, revision: string, onnxPath: string): string {
    Join(ParentPath(GraphPath(cacheDir, name, revision, onnxPath)), "tokenizer.json")
  }

  predicate Component(s: string) {
    s != "" && '/' !in s
  }

  lemma JoinDetermines(a: string, b: string, x: string, y: string)
    requires a != "" && x != "" && '/' !in b && '/' !in y
    requires a[|a| - 1] != '/' && x[|x| - 1] != '/'
    ensures Join(a, b) == Join(x, y) <==> a == x && b == y
  {
    var p, q := Join(a, b), Join(x, y);
    assert p == a + "/" + b && q == x + "/" + y;
    if p == q {
      LastSlash(a, b, x, y);
      LastSlash(x, y, a, b);
      assert a == p[..|a|] && x == q[..|x|];
      assert b == p[|a| + 1..] && y == q[|x| + 1..];
    }
  }

  /** A slash cannot stand further right than the last one. */
  lemma LastSlash(a: string, b: string, x: string, y: string)
    requires a + "/" + b == x + "/" + y && '/' !in b
    ensures |x| <= |a|
  {
    var p := a + "/" + b;
    assert forall k :: |a| < k < |p| ==> p[k] == b[k - |a| - 1];
    assert p[|x|] == '/';
  }

  lemma JoinFirst(dir: string, b: string, y: string)
    requires dir != "" && Component(b) && Component(y)
    ensures Join(dir, b) == Join(dir, y) <==> b == y
    ensures Join(dir, b) != "" && Join(dir, b)[|Join(dir, b)| - 1] != '/'
    ensures Join(dir, y) != "" && Join(dir, y)[|Join(dir, y)| - 1] != '/'
  {
    var stem := if dir[|dir| - 1] == '/' then dir else dir + "/";
    assert Join(dir, b) == stem + b && Join(dir, y) == stem + y;
    assert b == (stem + b)[|stem|..] && y == (stem + y)[|stem|..];
  }

  lemma DirsCollide(cacheDir: string, name: string, revision: string, name': string, revision': string)
    requires cacheDir != "" && name != "" && name' != "" && Component(revision) && Component(revision')
    ensures var dir, dir' := ModelDir(cacheDir, name, revision), ModelDir(cacheDir, name', revision');
        && dir != "" && dir[|dir| - 1] != '/' && dir' != "" && dir'[|dir'| - 1] != '/'
        && (dir == dir' <==> Flat(name) == Flat(name') && revision == revision')
  {
    var a, b := Join(cacheDir, Flat(name)), Join(cacheDir, Flat(name'));
    JoinFirst(cacheDir, Flat(name), Flat(name'));
    JoinDetermines(a, revision, b, revision');
    JoinFirst(a, revision, revision);
    JoinFirst(b, revision', revision');
  }

  /** The tokenizer's directory is the graph's. */
  lemma BesideTheGraph(cacheDir: string, name: string, revision: string, onnxPath: string)
    requires cacheDir != "" && name != "" && Component(revision)
    ensures TokenizerPath(cacheDir, name, revision, onnxPath)
         == Join(ModelDir(cacheDir, name, revision), "tokenizer.json")
  {
    hide ModelDir, AfterSlash;
    DirsCollide(cacheDir, name, revision, name, revision);
    ParentOfJoin(ModelDir(cacheDir, name, revision), FileName(onnxPath));
  }

  lemma ParentOfJoin(dir: string, file: string)
    requires dir != "" && dir[|dir| - 1] != '/' && '/' !in file
    ensures ParentPath(Join(dir, file)) == dir
  {
    FileNameAfter(dir, file);
    hide AfterSlash, FileName;
    var path, slashed := dir + "/" + file, dir + "/";
    assert path[..|dir| + 1] == slashed;
    assert slashed[..|dir|] == dir && slashed[|dir|] == '/';
    assert TrimSlashes(slashed) == TrimSlashes(dir) == dir;
  }

  /** Written out, for a cache directory that does not end in a slash. */
  lemma PathsWritten(cacheDir: string, name: string, revision: string, onnxPath: string)
    requires cacheDir != "" && cacheDir[|cacheDir| - 1] != '/' && name != "" && Component(revision)
    ensures GraphPath(cacheDir, name, revision, onnxPath)
         == cacheDir + "/" + Flat(name) + "/" + revision + "/" + FileName(onnxPath)
    ensures TokenizerPath(cacheDir, name, revision, onnxPath)
         == cacheDir + "/" + Flat(name) + "/" + revision + "/tokenizer.json"
  {
    hide FileName, Flat, TokenizerPath;
    BesideTheGraph(cacheDir, name, revision, onnxPath);
    var model := cacheDir + "/" + Flat(name);
    var dir := model + "/" + revision;
    assert Join(cacheDir, Flat(name)) == model;
    assert Join(model, revision) == dir;
    assert Join(dir, FileName(onnxPath)) == dir + "/" + FileName(onnxPath);
    assert Join(dir, "tokenizer.json") == dir + "/" + "tokenizer.json";
    assert "/" + "tokenizer.json" == "/tokenizer.json";
    assert dir + "/" + "tokenizer.json" == dir + "/tokenizer.json";
  }

  /**
   Two graphs share a cache path exactly when revision and file name agree and the models' names
   flatten alike, whatever the directories of the two in their repositories. Where that happens the
   path does not determine the pinned digest.
   */
  lemma GraphsCollideExactly(cacheDir: string, name: string, revision: string, onnxPath: string,
                             name': string, revision': string, onnxPath': string)
    requires cacheDir != "" && name != "" && name' != "" && Component(revision) && Component(revision')
    ensures GraphPath(cacheDir, name, revision, onnxPath) == GraphPath(cacheDir, name', revision', onnxPath')
        <==> Flat(name) == Flat(name') && revision == revision' && FileName(onnxPath) == FileName(onnxPath')
  {
    hide ModelDir, FileName, Flat, Join;
    DirsCollide(cacheDir, name, revision, name', revision');
    JoinDetermines(ModelDir(cacheDir, name, revision), FileName(onnxPath),
                   ModelDir(cacheDir, name', revision'), FileName(onnxPath'));
  }

  /** Two tokenizers share one when revisions agree and names flatten alike; a graph and a tokenizer can too. */
  lemma TokenizersCollideExactly(cacheDir: string, name: string, revision: string, onnxPath: string,
                                 name': string, revision': string, onnxPath': string)
    requires cacheDir != "" && name != "" && name' != "" && Component(revision) && Component(revision')
    ensures TokenizerPath(cacheDir, name, revision, onnxPath) == TokenizerPath(cacheDir, name', revision', onnxPath')
        <==> Flat(name) == Flat(name') && revision == revision'
    ensures GraphPath(cacheDir, name, revision, onnxPath) == TokenizerPath(cacheDir, name', revision', onnxPath')
        <==> Flat(name) == Flat(name') && revision == revision' && FileName(onnxPath) == "tokenizer.json"
  {
    hide ModelDir, FileName, Flat, Join, TokenizerPath;
    BesideTheGraph(cacheDir, name, revision, onnxPath);
    BesideTheGraph(cacheDir, name', revision', onnxPath');
    DirsCollide(cacheDir, name, revision, name', revision');
    var dir, dir' := ModelDir(cacheDir, name, revision), ModelDir(cacheDir, name', revision');
    JoinDetermines(dir, "tokenizer.json", dir', "tokenizer.json");
    JoinDetermines(dir, FileName(onnxPath), dir', "tokenizer.json");
  }

  // ---- Digests -----------------------------------------------------------------------------

  const DIGITS: string := "0123456789abcdef"

  function HexByte(x: bv8): (s: string)
    ensures |s| == 2
  {
    [DIGITS[(x >> 4) as int], DIGITS[(x & 0x0f) as int]]
  }

  /** Lower-case hexadecimal, high digit first. */
  function Hex(raw: Bytes): (s: string)
    ensures |s| == 2 * |raw|
  {
    if raw == [] then "" else Hex(raw[..|raw| - 1]) + HexByte(raw[|raw| - 1])
  }

  lemma DigitsDiffer(i: nat, j: nat)
    requires i < 16 && j < 16 && DIGITS[i] == DIGITS[j]
    ensures i == j
  {
  }

  lemma NibblesDetermine(x: bv8, y: bv8)
    requires x >> 4 == y >> 4 && x & 0x0f == y & 0x0f
    ensures x == y
  {
  }

  lemma HexByteIsInjective(x: bv8, y: bv8)
    requires HexByte(x) == HexByte(y)
    ensures x == y
  {
    assert HexByte(x)[0] == HexByte(y)[0] && HexByte(x)[1] == HexByte(y)[1];
    DigitsDiffer((x >> 4) as int, (y >> 4) as int);
    DigitsDiffer((x & 0x0f) as int, (y & 0x0f) as int);
    NibblesDetermine(x, y);
  }

  /** The value of a hexadecimal digit by its character code; upper-case letters are none. */
  function NibbleOf(c: char): (value: int) {
    if '0' <= c <= '9' then c as int - 48 else if 'a' <= c <= 'f' then c as int - 87 else -1
  }

  lemma DigitValue(n: nat)
    requires n < 16
    ensures NibbleOf(DIGITS[n]) == n
  {
  }

  lemma NibblesOf(x: bv8)
    ensures 16 * (x >> 4) as int + (x & 0x0f) as int == x as int
  {
  }

  /** Two digits for each byte, in order, the high one first. */
  lemma {:induction false} HexReadsBack(raw: Bytes, i: nat)
    requires i < |raw|
    ensures NibbleOf(Hex(raw)[2 * i]) >= 0 && NibbleOf(Hex(raw)[2 * i + 1]) >= 0
    ensures 16 * NibbleOf(Hex(raw)[2 * i]) + NibbleOf(Hex(raw)[2 * i + 1]) == raw[i] as int
  {
    if i < |raw| - 1 {
      HexReadsBack(raw[..|raw| - 1], i);
    } else {
      var x := raw[i];
      DigitValue((x >> 4) as int);
      DigitValue((x & 0x0f) as int);
      NibblesOf(x);
    }
  }

  /** Equal hexadecimal digests are equal digests. */
  lemma {:induction false} HexIsInjective(a: Bytes, b: Bytes)
    ensures Hex(a) == Hex(b) <==> a == b
  {
    hide HexByte;
    if Hex(a) == Hex(b) && a != [] {
      var n := |a| - 1;
      assert Hex(a)[..2 * n] == Hex(a[..n]) && Hex(b)[..2 * n] == Hex(b[..n]);
      assert Hex(a)[2 * n..] == HexByte(a[n]) && Hex(b)[2 * n..] == HexByte(b[n]);
      HexByteIsInjective(a[n], b[n]);
      HexIsInjective(a[..n], b[..n]);
      assert a == a[..n] + [a[n]] && b == b[..n] + [b[n]];
    }
  }

  // ---- Fetching and verifying -----------------------------------------------------------------

  const ATTEMPTS: nat := 5
  const CHUNK: nat := 65536

  /** One transfer: the file it leaves, or how it failed and how long the server asked to wait. */
  datatype Attempt = Fetched(content: Bytes) | Failed(transient: bool, retryAfter: int)

  /** The attempt that decides a download: the first that is not a transient failure, or the last allowed. */
  function Decisive(net: nat -> Attempt, from: nat): (n: nat)
    requires 1 <= from <= ATTEMPTS
    ensures from <= n <= 5
    ensures forall i :: from <= i < n ==> net(i).Failed? && net(i).transient
    ensures n < 5 ==> net(n).Fetched? || !net(n).transient
    decreases ATTEMPTS - from
  {
    if net(from).Fetched? || !net(from).transient || from == ATTEMPTS then from else Decisive(net, from + 1)
  }

  function Power2(n: nat): nat {
    if n == 0 then 1 else 2 * Power2(n - 1)
  }

  /** Seconds waited after failed attempt `i`: doubling, or as long as the server asked, and never over a minute. */
  function Backoff(net: nat -> Attempt, i: nat): int
    requires i >= 1
  {
    var asked := if net(i).Failed? then net(i).retryAfter else 0;
    var doubled := Power2(i - 1);
    var longer := if doubled < asked then asked else doubled;
    if longer < 60 then longer else 60
  }

  /** A wait is one, two, four or eight seconds, in turn, or as long as the server asks if that is more, up to 60. */
  lemma BackoffBounds(net: nat -> Attempt, i: nat)
    requires 1 <= i < 5
    ensures [1, 2, 4, 8][i - 1] <= Backoff(net, i) <= 60
    ensures net(i).Failed? && [1, 2, 4, 8][i - 1] <= net(i).retryAfter <= 60 ==> Backoff(net, i) == net(i).retryAfter
    ensures net(i).Failed? && net(i).retryAfter > 60 ==> Backoff(net, i) == 60
    ensures net(i).Failed? && net(i).retryAfter < [1, 2, 4, 8][i - 1] ==> Backoff(net, i) == [1, 2, 4, 8][i - 1]
  {
    assert Power2(0) == 1 && Power2(1) == 2 && Power2(2) == 4 && Power2(3) == 8;
  }

  class Disk {
    var files: map<string, Bytes>

    constructor (initial: map<string, Bytes>)
      ensures files == initial
    {
      files := initial;
    }

    /** `download`: a failed transfer removes what it wrote. */
    method Download(net: nat -> Attempt, destination: string) returns (ok: bool, waits: seq<int>)
      modifies this
      ensures var n := Decisive(net, 1);
          && ok == net(n).Fetched?
          && files == (if ok then old(files)[destination := net(n).content] else old(files) - {destination})
          && |waits| == n - 1
          && forall i :: 0 <= i < |waits| ==> waits[i] == Backoff(net, i + 1)
    {
      var attempt := 1;
      waits := [];
      while true
        invariant 1 <= attempt <= ATTEMPTS && Decisive(net, attempt) == Decisive(net, 1)
        invariant attempt == 1 ==> files == old(files)
        invariant attempt > 1 ==> files == old(files) - {destination}
        invariant |waits| == attempt - 1
        invariant forall i :: 0 <= i < |waits| ==> waits[i] == Backoff(net, i + 1)
        decreases ATTEMPTS - attempt
      {
        var result := net(attempt);
        if result.Fetched? {
          files := files[destination := result.content];
        } else {
          files := files - {destination};
        }
        if result.Fetched? || !result.transient || attempt == ATTEMPTS {
          return result.Fetched?, waits;
        }
        waits := waits + [Backoff(net, attempt)];
        attempt := attempt + 1;
      }
    }

    /** `sha256_file`: hashes the file a chunk at a time; what it has absorbed is what it has read. */
    method Sha256File(sha: Bytes -> Bytes, path: string) returns (digest: Option<string>)
      ensures digest == if path in files then Some(Hex(sha(files[path]))) else None
    {
      if path !in files {
        return None;
      }
      var content := files[path];
      var absorbed: Bytes := [];
      var at := 0;
      while at < |content|
        invariant 0 <= at <= |content| && absorbed == content[..at]
      {
        var next := if |content| - at < CHUNK then |content| else at + CHUNK;
        absorbed := absorbed + content[at..next];
        at := next;
      }
      assert content[..at] == content;
      digest := Some(Hex(sha(absorbed)));
    }

    /**
     `ensure_file`. What is cached is trusted; what is fetched is put in place only under its pinned
     digest; and on every return the partial file is gone.
     */
    method EnsureFile(sha: Bytes -> Bytes, expected: string, offline: bool, path: string, partial: string,
                      directoryMade: bool, net: nat -> Attempt, renamed: bool) returns (status: Status)
      requires partial != path && partial !in files
      modifies this
      ensures partial !in files
      ensures path in old(files) ==> status == Ok && files == old(files)
      ensures path !in old(files) && offline ==> status == NotCached && files == old(files)
      ensures path !in old(files) && !offline ==>
          var last := net(Decisive(net, 1));
          if !directoryMade || last.Failed? then status == DownloadFailed && files == old(files)
          else if Hex(sha(last.content)) != expected then status == DigestMismatch && files == old(files)
          else if !renamed then status == DownloadFailed && files == old(files)
          else status == Ok && files == old(files)[path := last.content]
    {
      if path in files {
        return Ok;
      }
      if offline {
        return NotCached;
      }
      if !directoryMade {
        return DownloadFailed;
      }
      status := FetchVerified(sha, expected, path, partial, net, renamed);
      files := files - {partial};
    }

    /** The part of `ensure_file` the partial file lives through. */
    method FetchVerified(sha: Bytes -> Bytes, expected: string, path: string, partial: string,
                         net: nat -> Attempt, renamed: bool) returns (status: Status)
      requires partial != path && partial !in files && path !in files
      modifies this
      ensures var last := net(Decisive(net, 1));
          if last.Failed? then status == DownloadFailed && files - {partial} == old(files)
          else if Hex(sha(last.content)) != expected then status == DigestMismatch && files - {partial} == old(files)
          else if !renamed then status == DownloadFailed && files - {partial} == old(files)
          else status == Ok && files - {partial} == old(files)[path := last.content]
    {
      var ok, _ := Download(net, partial);
      if !ok {
        return DownloadFailed;
      }
      var digest := Sha256File(sha, partial);
      if digest.None? {
        return DownloadFailed;
      }
      if digest.value != expected {
        return DigestMismatch;
      }
      if !renamed {
        return DownloadFailed;
      }
      files := (files - {partial})[path := files[partial]];
      return Ok;
    }
  }
}
