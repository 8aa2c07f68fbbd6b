/** What the acquire protocol guarantees in every reachable state. */
module SessionGuarantees {
  import opened SessionStore
  import opened SessionProtocol
  import opened Wrappers

  // ---- One session per key -----------------------------------------------------------------

  ghost function LiveOf(w: World, k: Key): set<SessionId> {
    set s: SessionId | s < |w.sessions| && w.sessions[s] == k && Alive(w, s)
  }

  ghost function InFlight(w: World, k: Key): set<ThreadId> {
    set t | t in w.threads && w.threads[t].Loading? && w.threads[t].k == k
  }

  lemma AtMostOne<T>(s: set<T>, x: T)
    requires forall y :: y in s ==> y == x
    ensures |s| <= 1
  {
    if s != {} {
      assert s == {x};
    }
  }

  lemma LiveIsCurrent(w: World, k: Key, s: SessionId)
    requires Inv(w) && s in LiveOf(w, k)
    ensures Current(w, k) == Some(s)
  {
    assert SessionOk(w, s);
  }

  lemma LoaderIsOwner(w: World, k: Key, t: ThreadId)
    requires Inv(w) && t in w.threads && IsLoader(w.threads[t]) && w.threads[t].k == k
    ensures k in w.store.entries && w.store.entries[k] == Entry(None, Some(w.threads[t].p))
    ensures w.threads[t].p < |w.promises| && w.promises[w.threads[t].p].owner == t
    ensures w.threads[t].Loading? ==> Current(w, k) == None
  {
    assert PhaseOk(w, t);
  }

  /** At most one session per key, in every reachable state: the live ones and the loads in flight never exceed one. */
  lemma SingleFlight(w: World, k: Key)
    requires Reachable(w)
    ensures |LiveOf(w, k)| + |InFlight(w, k)| <= 1
  {
    ReachableInv(w);
    hide Inv, LiveOf, Current;
    forall s | s in LiveOf(w, k) ensures Current(w, k) == Some(s) {
      LiveIsCurrent(w, k, s);
    }
    if t :| t in InFlight(w, k) {
      LoaderIsOwner(w, k, t);
      forall u | u in InFlight(w, k) ensures u == t {
        LoaderIsOwner(w, k, u);
      }
      AtMostOne(InFlight(w, k), t);
      assert LiveOf(w, k) == {};
    } else if s :| s in LiveOf(w, k) {
      AtMostOne(LiveOf(w, k), s);
    }
  }

  /**
   From claim to publication a loader's entry is its own: nobody replaces or removes it, so the
   lookup at publication finds it, and no other thread is loading the key.
   */
  lemma LoaderKeepsEntry(w: World, t: ThreadId)
    requires Reachable(w) && t in w.threads && IsLoader(w.threads[t])
    ensures var ph := w.threads[t];
        && ph.k in w.store.entries && w.store.entries[ph.k] == Entry(None, Some(ph.p))
        && forall u :: u in w.threads && IsLoader(w.threads[u]) && w.threads[u].k == ph.k ==> u == t
  {
    ReachableInv(w);
    hide Inv;
    var k := w.threads[t].k;
    LoaderIsOwner(w, k, t);
    forall u | u in w.threads && IsLoader(w.threads[u]) && w.threads[u].k == k ensures u == t {
      LoaderIsOwner(w, k, u);
    }
  }

  // ---- Waiters agree with their loader ---------------------------------------------------------

  /** Callers served by one promise return one result: the session its load built, or failure exactly if it failed. */
  lemma WaitersAgree(w: World, i: nat, j: nat)
    requires Reachable(w) && i < |w.log| && j < |w.log|
    requires w.log[i].via.Some? && w.log[i].via == w.log[j].via
    ensures w.log[i].result == w.log[j].result && w.log[i].k == w.log[j].k
    ensures w.log[i].via.value < |w.promises| && w.promises[w.log[i].via.value].outcome == Some(w.log[i].result)
  {
    ReachableInv(w);
    assert ReturnOk(w, w.log[i]) && ReturnOk(w, w.log[j]);
  }

  /** What an acquire hands out is a session of the key it was asked for; one that shared never fails. */
  lemma RightSession(w: World, i: nat)
    requires Reachable(w) && i < |w.log|
    ensures w.log[i].result.Some? ==>
        w.log[i].result.value < |w.sessions| && w.sessions[w.log[i].result.value] == w.log[i].k
    ensures w.log[i].via.None? ==> w.log[i].result.Some?
  {
    ReachableInv(w);
    assert ReturnOk(w, w.log[i]);
  }

  /** History is final: a promise keeps its maker, key, configuration and outcome, and the log only grows. */
  lemma HistoryIsFinal(w: World, a: Action, p: PromiseId)
    requires Reachable(w) && Enabled(w, a) && p < |w.promises|
    ensures var w' := Apply(w, a);
        && p < |w'.promises|
        && w'.promises[p].owner == w.promises[p].owner
        && w'.promises[p].k == w.promises[p].k
        && w'.promises[p].config == w.promises[p].config
        && (w.promises[p].outcome.Some? ==> w'.promises[p].outcome == w.promises[p].outcome)
        && w.log <= w'.log
  {
    ReachableInv(w);
    hide Alive;
    if a.LoadReturns? {
      assert PhaseOk(w, a.t);
    }
  }

  // ---- Nobody waits for ever -----------------------------------------------------------------------

  /** How many steps of its own a phase is away from leaving `acquire`. */
  ghost function PhaseRank(ph: Phase): nat {
    match ph
    case Loading(_, _, _) => 4
    case Built(_, _, _) => 3
    case Fulfilled(_, _, _) => 2
    case Published(_, _, _) => 1
    case Waiting(_, _) => 2
    case Received(_, _, _) => 1
    case Sharing(_, _) => 1
  }

  ghost function AtLeast(w: World, n: nat): set<ThreadId> {
    set t | t in w.threads && PhaseRank(w.threads[t]) >= n
  }

  ghost function Rank(w: World): nat {
    |AtLeast(w, 1)| + |AtLeast(w, 2)| + |AtLeast(w, 3)| + |AtLeast(w, 4)|
  }

  /** Steps of threads already inside `acquire`. */
  ghost predicate Inner(a: Action) {
    a.LoadReturns? || a.Fulfil? || a.PublishResult? || a.GetFuture? || a.ReturnFrom?
  }

  /** A blocked thread waits on a loader, and no loader is blocked on a future. */
  lemma BlockedOnLoader(w: World, t: ThreadId)
    requires Reachable(w) && t in w.threads && w.threads[t].Waiting? && !Enabled(w, GetFuture(t))
    ensures w.threads[t].p < |w.promises|
    ensures var u := w.promises[w.threads[t].p].owner;
        u in w.threads && w.threads[u].k == w.threads[t].k && (w.threads[u].Loading? || w.threads[u].Built?)
  {
    ReachableInv(w);
    assert PhaseOk(w, t);
    assert PromiseOk(w, w.threads[t].p);
    assert PhaseOk(w, w.promises[w.threads[t].p].owner);
  }

  ghost function UnusedHandle(w: World): (h: HandleId)
    ensures h !in w.handles
  {
    SomeHandleUnused(w);
    var h: HandleId :| h !in w.handles;
    h
  }

  lemma SomeHandleUnused(w: World)
    ensures exists h: HandleId :: h !in w.handles
  {
    var n := BoundOf(w.handles.Keys);
    assert n !in w.handles;
  }

  lemma BoundOf(s: set<nat>) returns (n: nat)
    ensures forall x :: x in s ==> x < n
    decreases |s|
  {
    if s == {} {
      n := 0;
    } else {
      var x :| x in s;
      var m := BoundOf(s - {x});
      n := if x < m then m else x + 1;
      forall y | y in s ensures y < n {
        assert y == x || y in s - {x};
      }
    }
  }

  /** While any acquire is in flight some thread in it can step: there is no deadlock. */
  lemma Progress(w: World) returns (a: Action)
    requires Reachable(w) && w.threads != map[]
    ensures Inner(a) && Enabled(w, a)
  {
    ReachableInv(w);
    var t :| t in w.threads;
    a := NextStep(w, t);
    if !Enabled(w, a) {
      BlockedOnLoader(w, t);
      a := NextStep(w, w.promises[w.threads[t].p].owner);
    }
  }

  /** The one step a thread has next. */
  lemma NextStep(w: World, t: ThreadId) returns (a: Action)
    requires Inv(w) && t in w.threads
    ensures Inner(a) && a.t == t && (Enabled(w, a) || (w.threads[t].Waiting? && a == GetFuture(t)))
  {
    assert PhaseOk(w, t);
    match w.threads[t] {
      case Loading(_, _, _) => a := LoadReturns(t, true);
      case Built(_, _, _) => a := Fulfil(t);
      case Fulfilled(_, _, _) => a := PublishResult(t);
      case Waiting(_, _) => a := GetFuture(t);
      case _ => a := ReturnFrom(t, UnusedHandle(w));
    }
  }

  lemma Drops(w: World, w': World, t: ThreadId, n: nat)
    requires t in w.threads
    requires forall u :: u != t ==>
        (u in w'.threads <==> u in w.threads) && (u in w.threads ==> w'.threads[u] == w.threads[u])
    requires t in w'.threads ==> PhaseRank(w'.threads[t]) < PhaseRank(w.threads[t])
    ensures |AtLeast(w', n)| <= |AtLeast(w, n)|
    ensures n == PhaseRank(w.threads[t]) ==> |AtLeast(w', n)| < |AtLeast(w, n)|
  {
    var before, after := AtLeast(w, n), AtLeast(w', n);
    if t in before && t !in after {
      assert before == after + {t};
    } else {
      assert before == after;
    }
  }

  /** Every inner step brings its thread nearer to its return, and moves no other. */
  lemma InnerStepDecreases(w: World, a: Action)
    requires Inner(a) && Enabled(w, a)
    ensures Rank(Apply(w, a)) < Rank(w)
  {
    var w' := Apply(w, a);
    hide AtLeast;
    Drops(w, w', a.t, 1);
    Drops(w, w', a.t, 2);
    Drops(w, w', a.t, 3);
    Drops(w, w', a.t, 4);
  }

  /**
   So once loads return every acquire finishes: with no new arrivals a run takes at most `Rank`
   steps, and a run that can go no further has nobody left inside.
   */
  lemma {:induction false} AcquiresFinish(w: World, acts: seq<Action>)
    requires Runnable(w, acts) && forall i :: 0 <= i < |acts| ==> Inner(acts[i])
    ensures |acts| + Rank(Run(w, acts)) <= Rank(w)
    decreases |acts|
  {
    if acts != [] {
      assert Inner(acts[0]);
      InnerStepDecreases(w, acts[0]);
      forall i | 0 <= i < |acts[1..]| ensures Inner(acts[1..][i]) {
        assert acts[1..][i] == acts[i + 1];
      }
      AcquiresFinish(Apply(w, acts[0]), acts[1..]);
    }
  }

  lemma StuckMeansDone(w: World)
    requires Reachable(w) && forall a :: Inner(a) ==> !Enabled(w, a)
    ensures w.threads == map[]
  {
    if w.threads != map[] {
      var a := Progress(w);
    }
  }

  // ---- Nothing is retained ----------------------------------------------------------------------------

  /** Outstanding opens of a key: handles on a session of it. */
  ghost function Opens(w: World, k: Key): set<HandleId> {
    set h | h in w.handles && w.handles[h] < |w.sessions| && w.sessions[w.handles[h]] == k
  }

  ghost function UseCounts(w: World): map<SessionId, nat> {
    map s | s in AliveSessions(w) :: UseCount(w, s)
  }

  /** The handles `loaded()` reports for a key, none if it lists no such key. */
  ghost function Reported(w: World, k: Key): nat {
    var r := Report(w.store, UseCounts(w));
    if k in r then r[k] else 0
  }

  ghost predicate LoadPending(w: World, k: Key) {
    k in w.store.entries && w.store.entries[k].pending.Some?
  }

  lemma OpensAreCurrent(w: World, k: Key, h: HandleId)
    requires Inv(w) && h in Opens(w, k)
    ensures Current(w, k) == Some(w.handles[h]) && Alive(w, w.handles[h])
  {
    AliveByHandle(w, h);
    assert SessionOk(w, w.handles[h]);
  }

  /** With no load pending every open of the key is on the session its entry names, and is counted. */
  lemma ReportCounts(w: World, k: Key)
    requires Inv(w) && !LoadPending(w, k)
    ensures Reported(w, k) >= |Opens(w, k)|
    ensures k in w.store.entries && w.store.entries[k].session.Some? && Reported(w, k) > 0 ==>
        var s := w.store.entries[k].session.value;
        Opens(w, k) == ByHandles(w, s) && Reported(w, k) == UseCount(w, s)
  {
    hide Alive;
    forall h | h in Opens(w, k)
      ensures k in w.store.entries && w.store.entries[k].session == Some(w.handles[h]) && Alive(w, w.handles[h])
    {
      OpensAreCurrent(w, k, h);
    }
    if k in w.store.entries && w.store.entries[k].session.Some? {
      var s := w.store.entries[k].session.value;
      assert EntryOk(w, k);
      assert HandlesOk(w);
      assert Opens(w, k) == ByHandles(w, s);
      if h :| h in Opens(w, k) {
        assert s in AliveSessions(w);
      }
    } else {
      assert Opens(w, k) == {};
    }
  }

  /** With nobody inside `acquire` the store retains nothing, and `loaded()` is exact. */
  lemma QuietStoreRetainsNothing(w: World, k: Key, s: SessionId)
    requires Reachable(w) && w.threads == map[] && s < |w.sessions|
    ensures k in w.store.entries ==> w.store.entries[k].pending.None?
    ensures Alive(w, s) <==> exists h :: h in w.handles && w.handles[h] == s
    ensures Reported(w, k) == |Opens(w, k)|
    ensures k in Report(w.store, UseCounts(w)) <==> Opens(w, k) != {}
  {
    ReachableInv(w);
    NothingPending(w, k);
    OnlyHandlesHold(w, s);
    ReportCounts(w, k);
    if Alive(w, s) {
      var h :| h in ByHandles(w, s);
    }
    forall h | h in w.handles && w.handles[h] == s ensures Alive(w, s) {
      AliveByHandle(w, h);
    }
    if k in w.store.entries && w.store.entries[k].session.Some? {
      OnlyHandlesHold(w, w.store.entries[k].session.value);
    }
  }

  lemma NothingPending(w: World, k: Key)
    requires Inv(w) && w.threads == map[]
    ensures !LoadPending(w, k)
  {
    assert k in w.store.entries ==> EntryOk(w, k);
  }

  lemma OnlyHandlesHold(w: World, s: SessionId)
    requires Inv(w) && w.threads == map[]
    ensures ByThreads(w, s) == {} && ByPromises(w, s) == {} && UseCount(w, s) == |ByHandles(w, s)|
  {
    forall k | k in w.store.entries ensures w.store.entries[k].pending.None? {
      NothingPending(w, k);
    }
  }

  // ---- Configuration, isolation ----------------------------------------------------------------------------

  /** A load runs under the configuration in force when it was claimed, whatever is configured meanwhile. */
  lemma LoadUsesClaimedConfig(w: World, t: ThreadId, k: Key)
    requires Reachable(w) && Enabled(w, EnterAcquire(t, k)) && Apply(w, EnterAcquire(t, k)).threads[t].Loading?
    ensures var w' := Apply(w, EnterAcquire(t, k));
        && w'.threads[t].config == w.store.config
        && w'.threads[t].p == |w.promises| && w'.promises[|w.promises|].config == w.store.config
  {
    ReachableInv(w);
    assert k in w.store.entries ==> EntryOk(w, k);
  }

  lemma ClaimedConfigStays(w: World, t: ThreadId)
    requires Reachable(w) && t in w.threads && w.threads[t].Loading?
    ensures w.threads[t].p < |w.promises| && w.threads[t].config == w.promises[w.threads[t].p].config
  {
    ReachableInv(w);
    assert PhaseOk(w, t);
  }

  ghost function KeyOf(w: World, a: Action): Option<Key> {
    match a
    case EnterAcquire(_, k) => Some(k)
    case PublishResult(t) => if t in w.threads then Some(w.threads[t].k) else None
    case _ => None
  }

  /** A step changes the entry of its own key only, and only the two critical sections change any. */
  lemma KeysAreIsolated(w: World, a: Action, k: Key)
    requires Enabled(w, a) && KeyOf(w, a) != Some(k)
    ensures k in Apply(w, a).store.entries <==> k in w.store.entries
    ensures k in w.store.entries ==> Apply(w, a).store.entries[k] == w.store.entries[k]
  {
  }
}
