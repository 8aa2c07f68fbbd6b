/** What `loaded()` and `stats()` report, against the opens that are outstanding and the opens there have been. */
module SessionReports {
  import opened SessionStore
  import opened SessionProtocol
  import opened SessionGuarantees
  import opened Wrappers

  // ---- `loaded()` ------------------------------------------------------------------------------

  /** A thread still inside `acquire` for this key that holds a session, or waits on a promise set to one. */
  ghost predicate Served(w: World, k: Key, t: ThreadId) {
    t in w.threads && w.threads[t].k == k &&
    match w.threads[t]
    case Waiting(_, p) => p < |w.promises| && exists s :: Carries(w.promises[p], s)
    case ph => LocalSession(ph).Some?
  }

  /** What serves a thread is the session its key's entry names, once no load of the key is pending. */
  lemma ServedByEntry(w: World, k: Key, t: ThreadId)
    requires Inv(w) && !LoadPending(w, k) && Served(w, k, t)
    ensures k in w.store.entries && w.store.entries[k].session.Some?
    ensures var s := w.store.entries[k].session.value;
        s in AliveSessions(w) && (ByThreads(w, s) != {} || ByPromises(w, s) != {})
  {
    hide Alive;
    assert PhaseOk(w, t);
    if w.threads[t].Waiting? {
      var p := w.threads[t].p;
      assert PromiseOk(w, p);
      var s :| Carries(w.promises[p], s);
      AliveByPromise(w, p, s);
      assert SessionOk(w, s);
      assert p in ByPromises(w, s);
    } else {
      var s := LocalSession(w.threads[t]).value;
      LocalIsOwn(w, t);
      AliveByThread(w, t);
      assert SessionOk(w, s);
      assert t in ByThreads(w, s);
    }
  }

  lemma LocalIsOwn(w: World, t: ThreadId)
    requires Inv(w) && t in w.threads && LocalSession(w.threads[t]).Some?
    ensures var s := LocalSession(w.threads[t]).value;
        s < |w.sessions| && w.sessions[s] == w.threads[t].k
  {
    assert PhaseOk(w, t);
    if !w.threads[t].Sharing? {
      assert PromiseOk(w, w.threads[t].p);
    }
  }

  /** A session held by a thread or a promise of no pending load is serving some thread. */
  lemma HeldServes(w: World, k: Key, s: SessionId) returns (t: ThreadId)
    requires Inv(w) && !LoadPending(w, k) && s < |w.sessions| && w.sessions[s] == k
    requires ByThreads(w, s) != {} || ByPromises(w, s) != {}
    ensures Served(w, k, t)
  {
    if ByThreads(w, s) != {} {
      t :| t in ByThreads(w, s);
      LocalIsOwn(w, t);
    } else {
      var p :| p in ByPromises(w, s);
      assert PromiseOk(w, p);
      forall q | q in w.store.entries ensures w.store.entries[q].pending != Some(p) {
        assert EntryOk(w, q);
      }
      t :| t in w.threads && RefersTo(w.threads[t], p);
      assert PhaseOk(w, t);
    }
  }

  /**
   The report for a key is its outstanding opens exactly when, a load of it being unpublished, there are
   none, or, none being unpublished, no thread inside `acquire` is being served a session of it.
   */
  lemma ReportsExactly(w: World, k: Key)
    requires Reachable(w)
    ensures Reported(w, k) == |Opens(w, k)| <==>
        if LoadPending(w, k) then Opens(w, k) == {} else forall t :: !Served(w, k, t)
  {
    ReachableInv(w);
    UnderReportsExactly(w, k);
    OverReportsExactly(w, k);
  }

  /**
   It is too low exactly when a load of the key is unpublished while some caller already holds its
   session. That happens between the moment the loader fulfils its promise and the moment it publishes:
   a waiter may have returned with the session, and the entry does not name it yet.
   */
  lemma UnderReportsExactly(w: World, k: Key)
    requires Reachable(w)
    ensures Reported(w, k) < |Opens(w, k)| <==> LoadPending(w, k) && Opens(w, k) != {}
  {
    ReachableInv(w);
    if LoadPending(w, k) {
      NothingReported(w, k);
    } else {
      ReportCounts(w, k);
    }
  }

  lemma NothingReported(w: World, k: Key)
    requires Inv(w) && LoadPending(w, k)
    ensures Reported(w, k) == 0
  {
    assert EntryOk(w, k);
  }

  /** And too high exactly when none is, and a thread that has been served has not yet returned. */
  lemma OverReportsExactly(w: World, k: Key)
    requires Reachable(w)
    ensures Reported(w, k) > |Opens(w, k)| <==> !LoadPending(w, k) && exists t :: Served(w, k, t)
  {
    ReachableInv(w);
    hide Inv, UseCounts;
    if LoadPending(w, k) {
      NothingReported(w, k);
    } else {
      ReportCounts(w, k);
      if t :| Served(w, k, t) {
        ServedByEntry(w, k, t);
        EntryIsReported(w, k);
      } else if Reported(w, k) > 0 {
        var s := ReportedSession(w, k);
        if ByThreads(w, s) != {} || ByPromises(w, s) != {} {
          var t := HeldServes(w, k, s);
        }
      }
    }
  }

  lemma EntryIsReported(w: World, k: Key)
    requires k in w.store.entries && w.store.entries[k].session.Some?
    requires w.store.entries[k].session.value in AliveSessions(w)
    ensures Reported(w, k) == UseCount(w, w.store.entries[k].session.value) > 0
  {
  }

  lemma ReportedSession(w: World, k: Key) returns (s: SessionId)
    requires Inv(w) && Reported(w, k) > 0
    ensures k in w.store.entries && w.store.entries[k].session == Some(s) && s < |w.sessions| && w.sessions[s] == k
  {
    assert k in w.store.entries && w.store.entries[k].session.Some?;
    s := w.store.entries[k].session.value;
    assert EntryOk(w, k);
  }

  /** Too low: of two threads opening one model the one that waited returns before publication. */
  lemma UnderReportIsReachable(k: Key) returns (w: World)
    ensures Reachable(w) && Reported(w, k) < |Opens(w, k)|
  {
    var w4 := LoadAndFulfil(k, true);
    hide Alive;
    var w5 := StepReaches(w4, GetFuture(1));
    w := StepReaches(w5, ReturnFrom(1, 0));
    assert 0 in Opens(w, k);
    UnderReportsExactly(w, k);
  }

  /** Too high: a single caller has loaded and published, and is about to return. */
  lemma OverReportIsReachable(k: Key) returns (w: World)
    ensures Reachable(w) && Opens(w, k) == {} && Reported(w, k) == 2
  {
    var w3 := LoadAndFulfil(k, false);
    hide Alive, Reachable;
    w := StepReaches(w3, PublishResult(0));
    assert Published(k, 0, Some(0)) == w.threads[0];
    AliveByThread(w, 0);
    EntryIsReported(w, k);
    assert ByThreads(w, 0) == {0};
    assert RefersTo(w.threads[0], 0);
    assert ByPromises(w, 0) == {0};
  }

  /** Thread 0 claims the load of `k`, thread 1 waits for it if asked to, and the load succeeds. */
  lemma LoadAndFulfil(k: Key, another: bool) returns (w: World)
    ensures Reachable(w) && w.handles == map[] && w.log == []
    ensures w.store.entries == map[k := Entry(None, Some(0))] && w.sessions == [k]
    ensures |w.promises| == 1 && Carries(w.promises[0], 0)
    ensures w.threads == if another then map[0 := Fulfilled(k, 0, Some(0)), 1 := Waiting(k, 0)]
                         else map[0 := Fulfilled(k, 0, Some(0))]
  {
    hide Alive, Reachable;
    InitReachable();
    w := StepReaches(Init(), EnterAcquire(0, k));
    if another {
      w := StepReaches(w, EnterAcquire(1, k));
    }
    w := StepReaches(w, LoadReturns(0, true));
    w := StepReaches(w, Fulfil(0));
  }

  // ---- `stats()` -------------------------------------------------------------------------------

  /** Every acquire past its first critical section is counted once, as shared or as loaded; loads are promises made. */
  lemma EveryOpenIsCounted(w: World)
    requires Reachable(w)
    ensures w.store.shared + w.store.loaded == w.entered && w.store.loaded == |w.promises|
  {
    ReachableInv(w);
  }

  /** How many returns had a session to hand out, or had none, of those that loaded or of the others. */
  ghost function Returns(log: seq<Return>, built: bool, ok: bool): nat {
    if log == [] then 0 else
      var last := log[|log| - 1];
      Returns(log[..|log| - 1], built, ok) + if last.built == built && last.result.Some? == ok then 1 else 0
  }

  ghost predicate Claimed(ph: Phase) {
    IsLoader(ph) || ph.Published?
  }

  /** The threads inside `acquire` that claimed a load, or that did not. */
  ghost function Inside(w: World, built: bool): set<ThreadId> {
    set t | t in w.threads && Claimed(w.threads[t]) == built
  }

  /** A counter, taken apart: the opens it is to count, the failures, and those yet to return. */
  ghost predicate Counted(w: World) {
    && w.store.loaded == Returns(w.log, true, true) + Returns(w.log, true, false) + |Inside(w, true)|
    && w.store.shared == Returns(w.log, false, true) + Returns(w.log, false, false) + |Inside(w, false)|
  }

  lemma InsideAdds(w: World, w': World, t: ThreadId, ph: Phase)
    requires t !in w.threads && w'.threads == w.threads[t := ph]
    ensures |Inside(w', true)| == |Inside(w, true)| + if Claimed(ph) then 1 else 0
    ensures |Inside(w', false)| == |Inside(w, false)| + if Claimed(ph) then 0 else 1
  {
    var built := Claimed(ph);
    assert Inside(w', built) == Inside(w, built) + {t} && Inside(w', !built) == Inside(w, !built);
  }

  lemma InsideStays(w: World, w': World, t: ThreadId, ph: Phase)
    requires t in w.threads && w'.threads == w.threads[t := ph] && Claimed(ph) == Claimed(w.threads[t])
    ensures |Inside(w', true)| == |Inside(w, true)| && |Inside(w', false)| == |Inside(w, false)|
  {
    assert Inside(w', true) == Inside(w, true) && Inside(w', false) == Inside(w, false);
  }

  lemma ReturnsGrow(log: seq<Return>, r: Return, built: bool, ok: bool)
    ensures Returns(log + [r], built, ok)
         == Returns(log, built, ok) + if r.built == built && r.result.Some? == ok then 1 else 0
  {
    assert (log + [r])[..|log|] == log;
  }

  lemma CountedReturn(w: World, t: ThreadId, h: HandleId)
    requires Counted(w) && Enabled(w, ReturnFrom(t, h))
    ensures Counted(Returned(w, t, h))
  {
    hide Returns, Inside;
    var w' := Returned(w, t, h);
    var r := w'.log[|w.log|];
    ReturnsGrow(w.log, r, true, true);
    ReturnsGrow(w.log, r, true, false);
    ReturnsGrow(w.log, r, false, true);
    ReturnsGrow(w.log, r, false, false);
    InsideAdds(w', w, t, w.threads[t]);
  }

  lemma CountedEnter(w: World, t: ThreadId, k: Key)
    requires Counted(w) && t !in w.threads
    ensures Counted(Entered(w, t, k))
  {
    hide Returns, Inside, AliveSessions;
    var w' := Entered(w, t, k);
    InsideAdds(w, w', t, w'.threads[t]);
  }

  lemma CountedStep(w: World, a: Action)
    requires Counted(w) && Enabled(w, a)
    ensures Counted(Apply(w, a))
  {
    hide Returns, Inside, Entered, Returned;
    match a {
      case EnterAcquire(t, k) => CountedEnter(w, t, k);
      case ReturnFrom(t, h) => CountedReturn(w, t, h);
      case Configure(_) => SameThreads(w, Apply(w, a));
      case Release(_) => SameThreads(w, Apply(w, a));
      case _ => InsideStays(w, Apply(w, a), a.t, Apply(w, a).threads[a.t]);
    }
  }

  lemma SameThreads(w: World, w': World)
    requires w.threads == w'.threads
    ensures Inside(w', true) == Inside(w, true) && Inside(w', false) == Inside(w, false)
  {
  }

  lemma {:induction false} CountedRun(w: World, acts: seq<Action>)
    requires Counted(w) && Runnable(w, acts)
    ensures Counted(Run(w, acts))
    decreases |acts|
  {
    if acts != [] {
      CountedStep(w, acts[0]);
      CountedRun(Apply(w, acts[0]), acts[1..]);
    }
  }

  /**
   Each counter exceeds the opens that it is to count, those that built a session or those that reused
   one, by the failed ones and the ones not yet returned. So it is exact if and only if there are none.
   */
  lemma CountersExceedOpens(w: World)
    requires Reachable(w)
    ensures w.store.loaded == Returns(w.log, true, true) + Returns(w.log, true, false) + |Inside(w, true)|
    ensures w.store.shared == Returns(w.log, false, true) + Returns(w.log, false, false) + |Inside(w, false)|
  {
    var acts :| Runnable(Init(), acts) && Run(Init(), acts) == w;
    CountedRun(Init(), acts);
  }
}
