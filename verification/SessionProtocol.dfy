/**
 The acquire protocol as a state machine: any number of threads and keys, every interleaving.

 Strong references are explicit. A session is held by the handles callers keep, by the local variables
 of threads inside `acquire`, and by the shared state of a fulfilled promise for as long as anything
 refers to that state. A session nobody holds is dead, and its weak entry no longer locks.
 */
module SessionProtocol {
  import opened SessionStore
  import opened Wrappers
  import opened CacheConfiguration

  type ThreadId = nat
  type HandleId = nat

  /** Where a thread inside `acquire` is. `p` is the promise it made or waits on. */
  datatype Phase =
    | Loading(k: Key, p: PromiseId, config: CacheConfig)         // in load_session, outside the lock
    | Built(k: Key, p: PromiseId, result: Option<SessionId>)     // load_session returned
    | Fulfilled(k: Key, p: PromiseId, result: Option<SessionId>) // promise set, not yet published
    | Published(k: Key, p: PromiseId, result: Option<SessionId>) // second critical section done
    | Waiting(k: Key, p: PromiseId)                              // blocked on the future
    | Received(k: Key, p: PromiseId, result: Option<SessionId>)  // the future was ready
    | Sharing(k: Key, s: SessionId)                              // a live session was locked

  /** A promise: who made it, for which key, under which configuration, and what its load came to. */
  datatype Promise = Promise(owner: ThreadId, k: Key, config: CacheConfig,
                             outcome: Option<Option<SessionId>>, isSet: bool)

  /** What an acquire returned: `via` names the promise for those who loaded or waited, `built` tells who loaded. */
  datatype Return = Return(t: ThreadId, k: Key, via: Option<PromiseId>, result: Option<SessionId>, built: bool)

  /** The store, the threads inside `acquire`, and what callers hold; then history. */
  datatype World = World(store: State, threads: map<ThreadId, Phase>, promises: seq<Promise>,
                         sessions: seq<Key>, handles: map<HandleId, SessionId>,
                         entered: nat, log: seq<Return>)

  datatype Action =
    | Configure(config: CacheConfig)
    | EnterAcquire(t: ThreadId, k: Key)
    | LoadReturns(t: ThreadId, ok: bool)
    | Fulfil(t: ThreadId)
    | PublishResult(t: ThreadId)
    | GetFuture(t: ThreadId)
    | ReturnFrom(t: ThreadId, h: HandleId)
    | Release(h: HandleId)

  // ---- Strong references ---------------------------------------------------------------

  ghost function LocalSession(ph: Phase): Option<SessionId> {
    match ph
    case Built(_, _, r) => r
    case Fulfilled(_, _, r) => r
    case Published(_, _, r) => r
    case Received(_, _, r) => r
    case Sharing(_, s) => Some(s)
    case _ => None
  }

  ghost predicate RefersTo(ph: Phase, p: PromiseId) {
    !ph.Sharing? && ph.p == p
  }

  /** The shared state of a promise lives while a thread or an entry refers to it. */
  ghost predicate Referenced(w: World, p: PromiseId) {
    || (exists t :: t in w.threads && RefersTo(w.threads[t], p))
    || (exists k :: k in w.store.entries && w.store.entries[k].pending == Some(p))
  }

  ghost predicate Carries(pr: Promise, s: SessionId) {
    pr.isSet && pr.outcome == Some(Some(s))
  }

  ghost function ByHandles(w: World, s: SessionId): set<HandleId> {
    set h | h in w.handles && w.handles[h] == s
  }

  ghost function ByThreads(w: World, s: SessionId): set<ThreadId> {
    set t | t in w.threads && LocalSession(w.threads[t]) == Some(s)
  }

  ghost function ByPromises(w: World, s: SessionId): set<PromiseId> {
    set p: PromiseId | p < |w.promises| && Carries(w.promises[p], s) && Referenced(w, p)
  }

  ghost function UseCount(w: World, s: SessionId): nat {
    |ByHandles(w, s)| + |ByThreads(w, s)| + |ByPromises(w, s)|
  }

  ghost predicate Alive(w: World, s: SessionId) {
    ByHandles(w, s) != {} || ByThreads(w, s) != {} || ByPromises(w, s) != {}
  }

  ghost function AliveSessions(w: World): set<SessionId> {
    set s: SessionId | s < |w.sessions| && Alive(w, s)
  }

  // ---- Steps -----------------------------------------------------------------------------

  ghost function Init(): World {
    World(State(map[], CacheConfig("", "", false), 0, 0), map[], [], [], map[], 0, [])
  }

  ghost predicate Enabled(w: World, a: Action) {
    match a
    case Configure(_) => true
    case EnterAcquire(t, _) => t !in w.threads
    case LoadReturns(t, _) => t in w.threads && w.threads[t].Loading? && w.threads[t].p < |w.promises|
    case Fulfil(t) => t in w.threads && w.threads[t].Built? && w.threads[t].p < |w.promises|
    case PublishResult(t) => t in w.threads && w.threads[t].Fulfilled?
    case GetFuture(t) => t in w.threads && w.threads[t].Waiting? && w.threads[t].p < |w.promises|
                         && w.promises[w.threads[t].p].isSet && w.promises[w.threads[t].p].outcome.Some?
    case ReturnFrom(t, h) => t in w.threads && h !in w.handles
                             && (w.threads[t].Published? || w.threads[t].Received? || w.threads[t].Sharing?)
    case Release(h) => h in w.handles
  }

  ghost function Entered(w: World, t: ThreadId, k: Key): World {
    var d := Decide(w.store, k, AliveSessions(w), |w.promises|);
    var w1 := w.(store := Enter(w.store, k, d), entered := w.entered + 1);
    match d
    case Share(s) => w1.(threads := w.threads[t := Sharing(k, s)])
    case Wait(p) => w1.(threads := w.threads[t := Waiting(k, p)])
    case Load(p, c) => w1.(threads := w.threads[t := Loading(k, p, c)],
                           promises := w.promises + [Promise(t, k, c, None, false)])
  }

  ghost function LoadReturned(w: World, t: ThreadId, ok: bool): World
    requires Enabled(w, LoadReturns(t, ok))
  {
    var Loading(k, p, _) := w.threads[t];
    var result := if ok then Some(|w.sessions|) else None;
    w.(threads := w.threads[t := Built(k, p, result)],
       sessions := if ok then w.sessions + [k] else w.sessions,
       promises := w.promises[p := w.promises[p].(outcome := Some(result))])
  }

  ghost function PromiseSet(w: World, t: ThreadId): World
    requires Enabled(w, Fulfil(t))
  {
    var Built(k, p, result) := w.threads[t];
    w.(threads := w.threads[t := Fulfilled(k, p, result)],
       promises := w.promises[p := w.promises[p].(isSet := true)])
  }

  ghost function Returned(w: World, t: ThreadId, h: HandleId): World
    requires Enabled(w, ReturnFrom(t, h))
  {
    var ph := w.threads[t];
    var result := LocalSession(ph);
    w.(threads := w.threads - {t},
       handles := if result.Some? then w.handles[h := result.value] else w.handles,
       log := w.log + [Return(t, ph.k, if ph.Sharing? then None else Some(ph.p), result, ph.Published?)])
  }

  ghost function Apply(w: World, a: Action): World
    requires Enabled(w, a)
  {
    match a
    case Configure(c) => w.(store := w.store.(config := c))
    case EnterAcquire(t, k) => Entered(w, t, k)
    case LoadReturns(t, ok) => LoadReturned(w, t, ok)
    case Fulfil(t) => PromiseSet(w, t)
    case PublishResult(t) =>
      var Fulfilled(k, p, result) := w.threads[t];
      w.(threads := w.threads[t := Published(k, p, result)], store := Publish(w.store, k, result))
    case GetFuture(t) =>
      var Waiting(k, p) := w.threads[t];
      w.(threads := w.threads[t := Received(k, p, w.promises[p].outcome.value)])
    case ReturnFrom(t, h) => Returned(w, t, h)
    case Release(h) => w.(handles := w.handles - {h})
  }

  // ---- The invariant ------------------------------------------------------------------------

  ghost predicate IsLoader(ph: Phase) {
    ph.Loading? || ph.Built? || ph.Fulfilled?
  }

  ghost predicate SessionOf(w: World, k: Key, r: Option<SessionId>) {
    r.Some? ==> r.value < |w.sessions| && w.sessions[r.value] == k
  }

  /** A thread's phase agrees with its promise, and a loader's entry is its own. */
  ghost predicate PhaseOk(w: World, t: ThreadId)
    requires t in w.threads
  {
    var ph := w.threads[t];
    if ph.Sharing? then SessionOf(w, ph.k, Some(ph.s)) else
      && ph.p < |w.promises|
      && var pr := w.promises[ph.p];
      && pr.k == ph.k
      && (IsLoader(ph) ==>
            && pr.owner == t
            && ph.k in w.store.entries && w.store.entries[ph.k] == Entry(None, Some(ph.p)))
      && match ph
         case Loading(_, _, c) => pr.outcome == None && !pr.isSet && pr.config == c
         case Built(_, _, r) => pr.outcome == Some(r) && !pr.isSet
         case Fulfilled(_, _, r) => pr.outcome == Some(r) && pr.isSet
         case Published(_, _, r) => pr.outcome == Some(r) && pr.isSet
         case Received(_, _, r) => pr.outcome == Some(r) && pr.isSet
         case Waiting(_, _) => true
         case Sharing(_, _) => true
  }

  /** An unset promise has its loader at work; a set one has an outcome of its own key. */
  ghost predicate PromiseOk(w: World, p: PromiseId)
    requires p < |w.promises|
  {
    var pr := w.promises[p];
    && (pr.outcome.Some? ==> SessionOf(w, pr.k, pr.outcome.value))
    && (pr.isSet ==> pr.outcome.Some?)
    && (!pr.isSet ==>
          && pr.owner in w.threads && RefersTo(w.threads[pr.owner], p)
          && (w.threads[pr.owner].Loading? || w.threads[pr.owner].Built?))
  }

  /** An entry has a session or a loader before publication, not both. */
  ghost predicate EntryOk(w: World, k: Key)
    requires k in w.store.entries
  {
    var e := w.store.entries[k];
    && SessionOf(w, k, e.session)
    && (e.pending.Some? ==>
          && e.session.None?
          && e.pending.value < |w.promises|
          && w.promises[e.pending.value].k == k
          && var t := w.promises[e.pending.value].owner;
             t in w.threads && IsLoader(w.threads[t]) && w.threads[t].p == e.pending.value)
  }

  /** The session an entry stands for: its own, or the one its load has built. */
  ghost function Current(w: World, k: Key): Option<SessionId> {
    if k !in w.store.entries then None
    else if w.store.entries[k].session.Some? then w.store.entries[k].session
    else if w.store.entries[k].pending.Some? && w.store.entries[k].pending.value < |w.promises|
            && w.promises[w.store.entries[k].pending.value].outcome.Some?
    then w.promises[w.store.entries[k].pending.value].outcome.value
    else None
  }

  /** Every live session is the current one of its key. */
  ghost predicate SessionOk(w: World, s: SessionId)
    requires s < |w.sessions|
  {
    Alive(w, s) ==> Current(w, w.sessions[s]) == Some(s)
  }

  ghost predicate ReturnOk(w: World, r: Return) {
    && SessionOf(w, r.k, r.result)
    && (r.via.Some? ==>
          && r.via.value < |w.promises| && w.promises[r.via.value].isSet
          && w.promises[r.via.value].k == r.k && w.promises[r.via.value].outcome == Some(r.result))
    && (r.via.None? ==> r.result.Some?)
  }

  ghost predicate ThreadsOk(w: World) { forall t :: t in w.threads ==> PhaseOk(w, t) }
  ghost predicate PromisesOk(w: World) { forall p: PromiseId :: p < |w.promises| ==> PromiseOk(w, p) }
  ghost predicate EntriesOk(w: World) { forall k :: k in w.store.entries ==> EntryOk(w, k) }
  ghost predicate SessionsOk(w: World) { forall s: SessionId :: s < |w.sessions| ==> SessionOk(w, s) }
  ghost predicate HandlesOk(w: World) { forall h :: h in w.handles ==> w.handles[h] < |w.sessions| }
  ghost predicate ReturnsOk(w: World) { forall i :: 0 <= i < |w.log| ==> ReturnOk(w, w.log[i]) }
  ghost predicate CountsOk(w: World) {
    w.store.loaded == |w.promises| && w.store.shared + w.store.loaded == w.entered
  }

  ghost predicate Inv(w: World) {
    && ThreadsOk(w) && PromisesOk(w) && EntriesOk(w) && SessionsOk(w)
    && HandlesOk(w) && ReturnsOk(w) && CountsOk(w)
  }

  lemma InitInv()
    ensures Inv(Init())
  {
  }

  // ---- Liveness of sessions only passes along references ----------------------------------------

  lemma AliveByHandle(w: World, h: HandleId)
    requires h in w.handles
    ensures Alive(w, w.handles[h])
  {
    assert h in ByHandles(w, w.handles[h]);
  }

  lemma AliveByThread(w: World, t: ThreadId)
    requires t in w.threads && LocalSession(w.threads[t]).Some?
    ensures Alive(w, LocalSession(w.threads[t]).value)
  {
    assert t in ByThreads(w, LocalSession(w.threads[t]).value);
  }

  lemma AliveByPromise(w: World, p: PromiseId, s: SessionId)
    requires p < |w.promises| && Carries(w.promises[p], s) && Referenced(w, p)
    ensures Alive(w, s)
  {
    assert p in ByPromises(w, s);
  }

  /** A session alive after a step was alive before it, or was built by it. */
  lemma AliveBefore(w: World, a: Action, s: SessionId)
    requires Inv(w) && Enabled(w, a) && Alive(Apply(w, a), s)
    ensures Alive(w, s) || (a.LoadReturns? && a.ok && s == |w.sessions|)
  {
    var w' := Apply(w, a);
    if h :| h in ByHandles(w', s) {
      if h in w.handles && w.handles[h] == s {
        AliveByHandle(w, h);
      } else {
        AliveByThread(w, a.t);
      }
    } else if t :| t in ByThreads(w', s) {
      if t in w.threads && w.threads[t] == w'.threads[t] {
        AliveByThread(w, t);
      } else {
        NewLocal(w, a, t, s);
      }
    } else {
      var p :| p in ByPromises(w', s);
      HeldPromise(w, a, p, s);
    }
  }

  lemma NewLocal(w: World, a: Action, t: ThreadId, s: SessionId)
    requires Inv(w) && Enabled(w, a)
    requires t in Apply(w, a).threads && LocalSession(Apply(w, a).threads[t]) == Some(s)
    requires t !in w.threads || w.threads[t] != Apply(w, a).threads[t]
    ensures Alive(w, s) || (a.LoadReturns? && a.ok && s == |w.sessions|)
  {
    match a
    case EnterAcquire(_, _) => assert s in AliveSessions(w);
    case Fulfil(_) => AliveByThread(w, t);
    case PublishResult(_) => AliveByThread(w, t);
    case GetFuture(_) =>
      assert PhaseOk(w, t);
      assert RefersTo(w.threads[t], w.threads[t].p);
      AliveByPromise(w, w.threads[t].p, s);
    case _ =>
  }

  /** A promise that holds a session after a step held it before, or its loader did. */
  lemma HeldPromise(w: World, a: Action, p: PromiseId, s: SessionId)
    requires Inv(w) && Enabled(w, a) && p in ByPromises(Apply(w, a), s)
    ensures Alive(w, s)
  {
    var w' := Apply(w, a);
    assert p < |w.promises|;
    assert PromiseOk(w, p);
    if Carries(w.promises[p], s) {
      WasReferenced(w, a, p);
      AliveByPromise(w, p, s);
    } else {
      assert a.Fulfil?;
      assert PhaseOk(w, a.t);
      AliveByThread(w, a.t);
    }
  }

  lemma WasReferenced(w: World, a: Action, p: PromiseId)
    requires Inv(w) && Enabled(w, a) && p < |w.promises| && Referenced(Apply(w, a), p)
    ensures Referenced(w, p)
  {
    var w' := Apply(w, a);
    if t :| t in w'.threads && RefersTo(w'.threads[t], p) {
      ThreadReferred(w, a, p, t);
    } else {
      var k :| k in w'.store.entries && w'.store.entries[k].pending == Some(p);
      EntryReferred(w, a, p, k);
    }
  }

  lemma ThreadReferred(w: World, a: Action, p: PromiseId, t: ThreadId)
    requires Enabled(w, a) && p < |w.promises| && t in Apply(w, a).threads && RefersTo(Apply(w, a).threads[t], p)
    ensures Referenced(w, p)
  {
    hide Alive;
    if t !in w.threads {
      assert a.EnterAcquire? && w.store.entries[a.k].pending == Some(p);
    } else {
      assert RefersTo(w.threads[t], p);
    }
  }

  lemma EntryReferred(w: World, a: Action, p: PromiseId, k: Key)
    requires Enabled(w, a) && p < |w.promises|
    requires k in Apply(w, a).store.entries && Apply(w, a).store.entries[k].pending == Some(p)
    ensures Referenced(w, p)
  {
    hide Alive;
    assert k in w.store.entries && w.store.entries[k].pending == Some(p);
  }

  // ---- Every step keeps the invariant -------------------------------------------------------------

  lemma ThreadsKept(w: World, a: Action)
    requires Inv(w) && Enabled(w, a)
    ensures ThreadsOk(Apply(w, a))
  {
    forall t | t in Apply(w, a).threads ensures PhaseOk(Apply(w, a), t) {
      if t in w.threads && Apply(w, a).threads[t] == w.threads[t] {
        OtherPhaseKept(w, a, t);
      } else {
        OwnPhaseKept(w, a, t);
      }
    }
  }

  /** The phase a step moves its thread to. */
  lemma OwnPhaseKept(w: World, a: Action, t: ThreadId)
    requires Inv(w) && Enabled(w, a) && t in Apply(w, a).threads
    requires t !in w.threads || Apply(w, a).threads[t] != w.threads[t]
    ensures PhaseOk(Apply(w, a), t)
  {
    hide SessionsOk, ReturnsOk, HandlesOk, EntriesOk, PromisesOk, CountsOk, AliveSessions;
    if a.EnterAcquire? {
      EnteredPhase(w, t, a.k);
    } else {
      assert PhaseOk(w, t);
    }
  }

  lemma EnteredPhase(w: World, t: ThreadId, k: Key)
    requires Inv(w) && t !in w.threads
    ensures PhaseOk(Entered(w, t, k), t)
  {
    hide SessionsOk, ReturnsOk, HandlesOk, ThreadsOk, PromisesOk, CountsOk, AliveSessions;
    assert k in w.store.entries ==> EntryOk(w, k);
  }

  /** A step of one thread does not disturb another, even one of the same key. */
  lemma OtherPhaseKept(w: World, a: Action, t: ThreadId)
    requires Inv(w) && Enabled(w, a)
    requires t in w.threads && t in Apply(w, a).threads && Apply(w, a).threads[t] == w.threads[t]
    ensures PhaseOk(Apply(w, a), t)
  {
    hide SessionsOk, ReturnsOk, HandlesOk, PromisesOk, EntriesOk, Alive;
    assert PhaseOk(w, t);
    if a.LoadReturns? || a.Fulfil? || a.PublishResult? {
      assert PhaseOk(w, a.t);
    } else if a.EnterAcquire? {
      EnterKeepsPhase(w, a.t, a.k, t);
    }
  }

  /** A new load takes the place of an entry only when the entry has no load of its own. */
  lemma EnterKeepsPhase(w: World, newcomer: ThreadId, k: Key, t: ThreadId)
    requires Inv(w) && newcomer !in w.threads && t in w.threads
    ensures t in Entered(w, newcomer, k).threads && PhaseOk(Entered(w, newcomer, k), t)
  {
    hide SessionsOk, ReturnsOk, HandlesOk, PromisesOk, EntriesOk, Alive;
    assert PhaseOk(w, t);
  }

  lemma PromisesKept(w: World, a: Action)
    requires Inv(w) && Enabled(w, a)
    ensures PromisesOk(Apply(w, a))
  {
    forall p: PromiseId | p < |Apply(w, a).promises| ensures PromiseOk(Apply(w, a), p) {
      if p < |w.promises| && Apply(w, a).promises[p] == w.promises[p] {
        SamePromiseKept(w, a, p);
      } else if a.LoadReturns? || a.Fulfil? {
        assert PhaseOk(w, a.t);
        assert PromiseOk(w, p);
      }
    }
  }

  lemma SamePromiseKept(w: World, a: Action, p: PromiseId)
    requires Inv(w) && Enabled(w, a)
    requires p < |w.promises| && p < |Apply(w, a).promises| && Apply(w, a).promises[p] == w.promises[p]
    ensures PromiseOk(Apply(w, a), p)
  {
    hide SessionsOk, ReturnsOk, HandlesOk, EntriesOk, Alive;
    assert PromiseOk(w, p);
    if a.LoadReturns? || a.Fulfil? {
      assert PhaseOk(w, a.t);
    }
  }

  lemma EntriesKept(w: World, a: Action)
    requires Inv(w) && Enabled(w, a)
    ensures EntriesOk(Apply(w, a))
  {
    forall k | k in Apply(w, a).store.entries ensures EntryOk(Apply(w, a), k) {
      if k in w.store.entries && w.store.entries[k] == Apply(w, a).store.entries[k] {
        SameEntryKept(w, a, k);
      } else if a.PublishResult? {
        assert PhaseOk(w, a.t);
        assert PromiseOk(w, w.threads[a.t].p);
      }
    }
  }

  lemma SameEntryKept(w: World, a: Action, k: Key)
    requires Inv(w) && Enabled(w, a) && k in w.store.entries
    requires k in Apply(w, a).store.entries && w.store.entries[k] == Apply(w, a).store.entries[k]
    ensures EntryOk(Apply(w, a), k)
  {
    hide SessionsOk, ReturnsOk, HandlesOk, PromisesOk, Alive;
    assert EntryOk(w, k);
    if !a.EnterAcquire? && !a.Configure? && !a.Release? {
      assert PhaseOk(w, a.t);
    }
  }

  lemma ReturnsKept(w: World, a: Action)
    requires Inv(w) && Enabled(w, a)
    ensures ReturnsOk(Apply(w, a)) && HandlesOk(Apply(w, a)) && CountsOk(Apply(w, a))
  {
    hide SessionsOk, EntriesOk, Alive;
    var w' := Apply(w, a);
    if a.ReturnFrom? {
      assert PhaseOk(w, a.t);
      assert !w.threads[a.t].Sharing? ==> PromiseOk(w, w.threads[a.t].p);
    }
    if a.LoadReturns? || a.Fulfil? {
      assert PhaseOk(w, a.t);
    }
    forall i | 0 <= i < |w'.log| ensures ReturnOk(w', w'.log[i]) {
      if i < |w.log| {
        assert ReturnOk(w, w.log[i]);
      }
    }
  }

  lemma SessionsKept(w: World, a: Action)
    requires Inv(w) && Enabled(w, a)
    ensures SessionsOk(Apply(w, a))
  {
    var w' := Apply(w, a);
    forall s: SessionId | s < |w'.sessions| ensures SessionOk(w', s) {
      if Alive(w', s) {
        AliveBefore(w, a, s);
        CurrentKept(w, a, s);
      }
    }
  }

  /** No step unseats the current session of a key while it lives, nor lets a second one in. */
  lemma CurrentKept(w: World, a: Action, s: SessionId)
    requires Inv(w) && Enabled(w, a) && s < |Apply(w, a).sessions|
    requires Alive(w, s) || (a.LoadReturns? && a.ok && s == |w.sessions|)
    ensures Current(Apply(w, a), Apply(w, a).sessions[s]) == Some(s)
  {
    if a.LoadReturns? || a.Fulfil? || a.PublishResult? {
      assert PhaseOk(w, a.t);
    }
    if s < |w.sessions| {
      OldCurrentKept(w, a, s);
    }
  }

  lemma OldCurrentKept(w: World, a: Action, s: SessionId)
    requires Inv(w) && Enabled(w, a) && s < |w.sessions| && s < |Apply(w, a).sessions| && Alive(w, s)
    ensures Current(Apply(w, a), Apply(w, a).sessions[s]) == Some(s)
  {
    assert SessionOk(w, s);
    assert EntryOk(w, w.sessions[s]);
    match a {
      case EnterAcquire(t, k) =>
        EnterKeepsCurrent(w, t, k, s);
      case LoadReturns(t, ok) =>
        assert PhaseOk(w, t);
      case PublishResult(t) =>
        assert PhaseOk(w, t);
      case _ =>
    }
  }

  /** A key whose session lives is not loaded again: the newcomer shares it or waits for it. */
  lemma EnterKeepsCurrent(w: World, t: ThreadId, k: Key, s: SessionId)
    requires s < |w.sessions| && Alive(w, s) && Current(w, w.sessions[s]) == Some(s)
    requires w.sessions[s] in w.store.entries && EntryOk(w, w.sessions[s])
    ensures Current(Entered(w, t, k), w.sessions[s]) == Some(s)
  {
    hide Alive;
    assert s in AliveSessions(w);
  }

  lemma StepKeepsInv(w: World, a: Action)
    requires Inv(w) && Enabled(w, a)
    ensures Inv(Apply(w, a))
  {
    ThreadsKept(w, a);
    PromisesKept(w, a);
    EntriesKept(w, a);
    ReturnsKept(w, a);
    SessionsKept(w, a);
  }

  // ---- Runs -----------------------------------------------------------------------------------------

  ghost predicate Runnable(w: World, acts: seq<Action>)
    decreases |acts|
  {
    acts != [] ==> Enabled(w, acts[0]) && Runnable(Apply(w, acts[0]), acts[1..])
  }

  ghost function Run(w: World, acts: seq<Action>): World
    requires Runnable(w, acts)
    decreases |acts|
  {
    if acts == [] then w else Run(Apply(w, acts[0]), acts[1..])
  }

  lemma {:induction false} RunKeepsInv(w: World, acts: seq<Action>)
    requires Inv(w) && Runnable(w, acts)
    ensures Inv(Run(w, acts))
    decreases |acts|
  {
    if acts != [] {
      StepKeepsInv(w, acts[0]);
      RunKeepsInv(Apply(w, acts[0]), acts[1..]);
    }
  }

  /** Reachable in some interleaving of any number of threads. */
  ghost predicate Reachable(w: World) {
    exists acts :: Runnable(Init(), acts) && Run(Init(), acts) == w
  }

  lemma ReachableInv(w: World)
    requires Reachable(w)
    ensures Inv(w)
  {
    var acts :| Runnable(Init(), acts) && Run(Init(), acts) == w;
    InitInv();
    RunKeepsInv(Init(), acts);
  }

  /** A run goes on by any step enabled at its end. */
  lemma {:induction false} RunThen(w: World, acts: seq<Action>, a: Action)
    requires Runnable(w, acts) && Enabled(Run(w, acts), a)
    ensures Runnable(w, acts + [a]) && Run(w, acts + [a]) == Apply(Run(w, acts), a)
    decreases |acts|
  {
    hide Enabled, Apply;
    if acts == [] {
      assert (acts + [a])[1..] == [];
    } else {
      RunThen(Apply(w, acts[0]), acts[1..], a);
      assert (acts + [a])[1..] == acts[1..] + [a];
    }
  }

  lemma StepReaches(w: World, a: Action) returns (next: World)
    requires Reachable(w) && Enabled(w, a)
    ensures next == Apply(w, a) && Reachable(next)
  {
    hide Enabled, Apply;
    var acts :| Runnable(Init(), acts) && w == Run(Init(), acts);
    RunThen(Init(), acts, a);
    next := Apply(w, a);
  }

  lemma InitReachable()
    ensures Reachable(Init())
  {
    assert Runnable(Init(), []) && Run(Init(), []) == Init();
  }
}
