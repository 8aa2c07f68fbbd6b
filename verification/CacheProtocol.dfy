/**
 Many processes sharing one cache directory, each of which may stop between any two steps.

 A directory is a map from names to contents. Processes interleave one file operation at a time, and a
 transfer writes its partial file piece by piece. Renaming is atomic; removing a file succeeds.
 */
module CacheProtocol {
  import opened Cache

  type ProcessId = nat

  /** What a call of `ensure_file` is asked for: a path, the digest to find there, and whether it may fetch. */
  datatype Ask = Ask(path: string, expected: string, offline: bool)

  /** The ask, and the partial name the call picked. */
  datatype Request = Request(ask: Ask, partial: string)

  datatype Phase =
    | Checking                     // about to look for the file
    | Fetching(attempt: nat)       // transferring into the partial, or about to
    | Transferred                  // transfer complete
    | Hashed(digest: string)       // partial hashed
    | Leaving(status: Status)      // about to remove the partial and return

  datatype Call = Call(request: Request, phase: Phase)

  datatype Return = Return(request: Request, status: Status)

  datatype World = World(files: map<string, Bytes>, calls: map<ProcessId, Call>,
                         used: set<string>, abandoned: set<string>, log: seq<Return>)

  /** What does not change: the hash, all that callers may ask for, and the directory at the start. */
  datatype Setting = Setting(sha: Bytes -> Bytes, wanted: set<Ask>, initial: map<string, Bytes>)

  datatype Action =
    | Start(i: ProcessId, request: Request)
    | Check(i: ProcessId)
    | Refuse(i: ProcessId)                         // the cache directory cannot be made
    | Write(i: ProcessId, so_far: Bytes)           // the partial now holds this much
    | Complete(i: ProcessId)                       // the transfer succeeded
    | Fail(i: ProcessId, transient: bool)          // the transfer failed and removed the partial
    | Hash(i: ProcessId)
    | Install(i: ProcessId, renamed: bool)         // compare digests and rename
    | Leave(i: ProcessId)
    | Crash(i: ProcessId)

  // ---- Steps ------------------------------------------------------------------------------

  /** The paths that anyone may ask for; asks for one path need not agree on its digest. */
  ghost function Finals(c: Setting): set<string> {
    set a | a in c.wanted :: a.path
  }

  /** A new call's partial name is one nobody has used, and is not a final path. */
  ghost predicate FreshRequest(c: Setting, w: World, r: Request) {
    && r.ask in c.wanted
    && r.partial !in Finals(c) && r.partial !in w.used && r.partial !in w.files && r.partial !in c.initial
  }

  ghost predicate Enabled(c: Setting, w: World, a: Action) {
    match a
    case Start(i, r) => i !in w.calls && FreshRequest(c, w, r)
    case Check(i) => i in w.calls && w.calls[i].phase.Checking?
    case Refuse(i) => i in w.calls && w.calls[i].phase == Fetching(1) && w.calls[i].request.partial !in w.files
    case Write(i, _) => i in w.calls && w.calls[i].phase.Fetching?
    case Complete(i) => i in w.calls && w.calls[i].phase.Fetching? && w.calls[i].request.partial in w.files
    case Fail(i, _) => i in w.calls && w.calls[i].phase.Fetching?
    case Hash(i) => i in w.calls && w.calls[i].phase.Transferred? && w.calls[i].request.partial in w.files
    case Install(i, _) => i in w.calls && w.calls[i].phase.Hashed? && w.calls[i].request.partial in w.files
    case Leave(i) => i in w.calls && w.calls[i].phase.Leaving?
    case Crash(i) => i in w.calls
  }

  ghost function To(w: World, i: ProcessId, p: Phase): World
    requires i in w.calls
  {
    w.(calls := w.calls[i := w.calls[i].(phase := p)])
  }

  ghost function Installed(w: World, i: ProcessId, renamed: bool): World
    requires i in w.calls && w.calls[i].phase.Hashed? && w.calls[i].request.partial in w.files
  {
    var r := w.calls[i].request;
    if w.calls[i].phase.digest != r.ask.expected then To(w, i, Leaving(DigestMismatch))
    else if !renamed then To(w, i, Leaving(DownloadFailed))
    else To(w, i, Leaving(Ok)).(files := (w.files - {r.partial})[r.ask.path := w.files[r.partial]])
  }

  ghost function Apply(c: Setting, w: World, a: Action): World
    requires Enabled(c, w, a)
  {
    match a
    case Start(i, r) => w.(calls := w.calls[i := Call(r, Checking)], used := w.used + {r.partial})
    case Check(i) =>
      var ask := w.calls[i].request.ask;
      To(w, i, if ask.path in w.files then Leaving(Ok) else if ask.offline then Leaving(NotCached) else Fetching(1))
    case Refuse(i) => To(w, i, Leaving(DownloadFailed))
    case Write(i, content) => w.(files := w.files[w.calls[i].request.partial := content])
    case Complete(i) => To(w, i, Transferred)
    case Fail(i, transient) =>
      var n := w.calls[i].phase.attempt;
      To(w, i, if transient && n < ATTEMPTS then Fetching(n + 1) else Leaving(DownloadFailed))
        .(files := w.files - {w.calls[i].request.partial})
    case Hash(i) => To(w, i, Hashed(Hex(c.sha(w.files[w.calls[i].request.partial]))))
    case Install(i, renamed) => Installed(w, i, renamed)
    case Leave(i) =>
      var r := w.calls[i].request;
      w.(files := w.files - {r.partial}, calls := w.calls - {i},
         log := w.log + [Return(r, w.calls[i].phase.status)])
    case Crash(i) => w.(calls := w.calls - {i}, abandoned := w.abandoned + {w.calls[i].request.partial})
  }

  // ---- The invariant -------------------------------------------------------------------------

  /** A file at a final path is the one that was there, or has the digest some call was to fetch for that path. */
  ghost predicate Sourced(c: Setting, w: World, path: string) {
    path in Finals(c) ==>
      if path in c.initial then path in w.files && w.files[path] == c.initial[path]
      else path in w.files ==> exists a :: Fetchable(c, a, path) && Hex(c.sha(w.files[path])) == a.expected
  }

  ghost predicate Fetchable(c: Setting, a: Ask, path: string) {
    a in c.wanted && a.path == path && !a.offline
  }

  ghost predicate CallOk(c: Setting, w: World, i: ProcessId)
    requires i in w.calls
  {
    var r := w.calls[i].request;
    && r.ask in c.wanted
    && r.partial in w.used && r.partial !in Finals(c) && r.partial !in w.abandoned && r.partial !in c.initial
    && match w.calls[i].phase
       case Checking => true
       case Fetching(_) => ToFetch(c, r.ask)
       case Transferred => ToFetch(c, r.ask) && r.partial in w.files
       case Hashed(d) => ToFetch(c, r.ask) && r.partial in w.files && d == Hex(c.sha(w.files[r.partial]))
       case Leaving(s) => s == Ok ==> r.ask.path in w.files
  }

  /** Only what was not there at the start is ever fetched. */
  ghost predicate ToFetch(c: Setting, a: Ask) {
    Fetchable(c, a, a.path) && a.path !in c.initial
  }

  /** Two calls never share a partial. */
  ghost predicate Distinct(w: World, i: ProcessId, j: ProcessId)
    requires i in w.calls && j in w.calls
  {
    i != j ==> w.calls[i].request.partial != w.calls[j].request.partial
  }

  /** A file was there at the start, is final, or is the partial of a running or stopped call. */
  ghost predicate Accounted(c: Setting, w: World, f: string) {
    || f in c.initial || f in Finals(c) || f in w.abandoned
    || exists i :: i in w.calls && w.calls[i].request.partial == f
  }

  ghost predicate ReturnOk(c: Setting, w: World, r: Return) {
    && r.request.ask in c.wanted && r.request.partial in w.used && r.request.partial !in Finals(c)
    && r.request.partial !in w.files && r.request.partial !in w.abandoned
    && (forall i :: i in w.calls ==> w.calls[i].request.partial != r.request.partial)
    && (r.status == Ok ==> r.request.ask.path in w.files)
  }

  ghost predicate Inv(c: Setting, w: World) {
    && (forall path :: Sourced(c, w, path))
    && (forall i :: i in w.calls ==> CallOk(c, w, i))
    && (forall i, j :: i in w.calls && j in w.calls ==> Distinct(w, i, j))
    && (forall f :: f in w.files ==> Accounted(c, w, f))
    && (forall k :: 0 <= k < |w.log| ==> ReturnOk(c, w, w.log[k]))
    && w.abandoned <= w.used
  }

  /** At the start nobody runs. */
  ghost function Init(c: Setting): World {
    World(c.initial, map[], {}, {}, [])
  }

  lemma InFinals(c: Setting, a: Ask)
    requires a in c.wanted
    ensures a.path in Finals(c)
  {
  }

  lemma SourcedKept(c: Setting, w: World, a: Action, path: string)
    requires Inv(c, w) && Enabled(c, w, a)
    ensures Sourced(c, Apply(c, w, a), path)
  {
    hide Finals;
    assert Sourced(c, w, path);
    if a.i in w.calls {
      assert CallOk(c, w, a.i);
      InFinals(c, w.calls[a.i].request.ask);
      assert Fetchable(c, w.calls[a.i].request.ask, path) || !a.Install? || w.calls[a.i].request.ask.path != path;
    }
  }

  /** The step of a call itself. */
  lemma OwnCallKept(c: Setting, w: World, a: Action)
    requires Inv(c, w) && Enabled(c, w, a) && a.i in Apply(c, w, a).calls
    ensures CallOk(c, Apply(c, w, a), a.i)
  {
    hide Finals;
    if a.i in w.calls {
      assert CallOk(c, w, a.i);
      InFinals(c, w.calls[a.i].request.ask);
      assert Sourced(c, w, w.calls[a.i].request.ask.path);
    }
  }

  /** The step of another call: it touches neither this one's partial nor, except to replace it, a final file. */
  lemma CallKept(c: Setting, w: World, a: Action, j: ProcessId)
    requires Inv(c, w) && Enabled(c, w, a) && j in w.calls && j != a.i
    ensures CallOk(c, Apply(c, w, a), j)
  {
    hide Finals;
    assert CallOk(c, w, j);
    InFinals(c, w.calls[j].request.ask);
    if a.i in w.calls {
      assert CallOk(c, w, a.i);
      InFinals(c, w.calls[a.i].request.ask);
      assert Distinct(w, a.i, j);
    }
  }

  lemma DistinctKept(c: Setting, w: World, a: Action, i: ProcessId, j: ProcessId)
    requires Inv(c, w) && Enabled(c, w, a) && i in Apply(c, w, a).calls && j in Apply(c, w, a).calls
    ensures Distinct(Apply(c, w, a), i, j)
  {
    assert i in w.calls && j in w.calls ==> Distinct(w, i, j);
    assert i in w.calls ==> CallOk(c, w, i);
    assert j in w.calls ==> CallOk(c, w, j);
  }

  lemma AccountedKept(c: Setting, w: World, a: Action, f: string)
    requires Inv(c, w) && Enabled(c, w, a) && f in Apply(c, w, a).files
    ensures Accounted(c, Apply(c, w, a), f)
  {
    hide Finals;
    var w' := Apply(c, w, a);
    if a.i in w.calls {
      assert CallOk(c, w, a.i);
      InFinals(c, w.calls[a.i].request.ask);
    }
    if f in w.files {
      assert Accounted(c, w, f);
      if i :| i in w.calls && w.calls[i].request.partial == f {
        if i in w'.calls {
          assert w'.calls[i].request.partial == f;
        }
      }
    } else if a.i in w'.calls {
      assert w'.calls[a.i].request.partial == f || f in Finals(c);
    }
  }

  lemma ReturnsKept(c: Setting, w: World, a: Action, k: nat)
    requires Inv(c, w) && Enabled(c, w, a) && k < |Apply(c, w, a).log|
    ensures ReturnOk(c, Apply(c, w, a), Apply(c, w, a).log[k])
  {
    hide Finals;
    if a.i in w.calls {
      assert CallOk(c, w, a.i);
      InFinals(c, w.calls[a.i].request.ask);
    }
    if k < |w.log| {
      assert ReturnOk(c, w, w.log[k]);
      InFinals(c, w.log[k].request.ask);
    } else {
      forall j | j in w.calls ensures Distinct(w, a.i, j) {
      }
    }
  }

  lemma StepKeepsInv(c: Setting, w: World, a: Action)
    requires Inv(c, w) && Enabled(c, w, a)
    ensures Inv(c, Apply(c, w, a))
  {
    hide Finals, Sourced;
    var w' := Apply(c, w, a);
    forall path ensures Sourced(c, w', path) {
      SourcedKept(c, w, a, path);
    }
    forall j | j in w'.calls ensures CallOk(c, w', j) {
      if j == a.i {
        OwnCallKept(c, w, a);
      } else {
        CallKept(c, w, a, j);
      }
    }
    forall i, j | i in w'.calls && j in w'.calls ensures Distinct(w', i, j) {
      DistinctKept(c, w, a, i, j);
    }
    forall f | f in w'.files ensures Accounted(c, w', f) {
      AccountedKept(c, w, a, f);
    }
    forall k | 0 <= k < |w'.log| ensures ReturnOk(c, w', w'.log[k]) {
      ReturnsKept(c, w, a, k);
    }
    if a.i in w.calls {
      assert CallOk(c, w, a.i);
    }
  }

  // ---- Runs --------------------------------------------------------------------------------------

  ghost predicate Runnable(c: Setting, w: World, acts: seq<Action>)
    decreases |acts|
  {
    acts != [] ==> Enabled(c, w, acts[0]) && Runnable(c, Apply(c, w, acts[0]), acts[1..])
  }

  ghost function Run(c: Setting, w: World, acts: seq<Action>): World
    requires Runnable(c, w, acts)
    decreases |acts|
  {
    if acts == [] then w else Run(c, Apply(c, w, acts[0]), acts[1..])
  }

  lemma {:induction false} RunKeepsInv(c: Setting, w: World, acts: seq<Action>)
    requires Inv(c, w) && Runnable(c, w, acts)
    ensures Inv(c, Run(c, w, acts))
    decreases |acts|
  {
    if acts != [] {
      StepKeepsInv(c, w, acts[0]);
      RunKeepsInv(c, Apply(c, w, acts[0]), acts[1..]);
    }
  }

  ghost predicate Reachable(c: Setting, w: World) {
    exists acts :: Runnable(c, Init(c), acts) && w == Run(c, Init(c), acts)
  }

  lemma InitInv(c: Setting)
    ensures Inv(c, Init(c))
  {
  }

  lemma ReachableInv(c: Setting, w: World)
    requires Reachable(c, w)
    ensures Inv(c, w)
  {
    var acts :| Runnable(c, Init(c), acts) && w == Run(c, Init(c), acts);
    InitInv(c);
    RunKeepsInv(c, Init(c), acts);
  }

  /**
   The cache keeps its word: in every state of every run, crashes and all, a file at a final path is the
   one that was there at the start, or has the digest that some ask for that very path demands.
   */
  lemma CacheIsSourced(c: Setting, w: World, path: string)
    requires Reachable(c, w) && path in Finals(c) && path in w.files
    ensures if path in c.initial then w.files[path] == c.initial[path]
            else exists a :: Fetchable(c, a, path) && Hex(c.sha(w.files[path])) == a.expected
  {
    ReachableInv(c, w);
    assert Sourced(c, w, path);
  }

  lemma FinalFileStays(c: Setting, w: World, a: Action, path: string)
    requires Inv(c, w) && Enabled(c, w, a) && path in Finals(c) && path in w.files
    ensures path in Apply(c, w, a).files
  {
    if a.i in w.calls {
      assert CallOk(c, w, a.i);
    }
  }

  /** No final path ever disappears. */
  lemma {:induction false} FinalPathsStay(c: Setting, w: World, acts: seq<Action>, path: string)
    requires Inv(c, w) && Runnable(c, w, acts) && path in Finals(c) && path in w.files
    ensures path in Run(c, w, acts).files
    decreases |acts|
  {
    if acts != [] {
      StepKeepsInv(c, w, acts[0]);
      FinalFileStays(c, w, acts[0], path);
      FinalPathsStay(c, Apply(c, w, acts[0]), acts[1..], path);
    }
  }

  /** A call that has returned left no partial, then or since; if it returned Ok there is a file. */
  lemma ReturnedCalls(c: Setting, w: World, k: nat)
    requires Reachable(c, w) && k < |w.log|
    ensures w.log[k].request.ask in c.wanted && w.log[k].request.partial !in w.files
    ensures w.log[k].status == Ok ==> w.log[k].request.ask.path in w.files
  {
    ReachableInv(c, w);
    assert ReturnOk(c, w, w.log[k]);
  }

  /** Only a stopped process leaves a partial behind: with none running, all else is final or was there before. */
  lemma OnlyCrashesLeavePartials(c: Setting, w: World, f: string)
    requires Reachable(c, w) && w.calls == map[] && f in w.files
    ensures f in c.initial || f in Finals(c) || f in w.abandoned
  {
    ReachableInv(c, w);
    assert Accounted(c, w, f);
  }
}
