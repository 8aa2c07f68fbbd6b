/** What releases, failures and reconfigurations mean for the acquires after them. */
module SessionReleases {
  import opened SessionStore
  import opened SessionProtocol
  import opened SessionGuarantees
  import opened SessionReports
  import opened CacheConfiguration
  import opened Wrappers

  // ---- Opening and releasing -------------------------------------------------------------------

  /** An acquire of a key that is open shares the session of its handles, once no load of it is unpublished. */
  lemma OpenIsShared(w: World, h: HandleId, t: ThreadId, k: Key)
    requires Reachable(w) && h in Opens(w, k) && !LoadPending(w, k) && t !in w.threads
    ensures Apply(w, EnterAcquire(t, k)).threads[t] == Sharing(k, w.handles[h])
  {
    hide Alive;
    ReachableInv(w);
    OpensAreCurrent(w, k, h);
  }

  /** And while one is, an acquire waits for it. */
  lemma PendingIsAwaited(w: World, t: ThreadId, k: Key)
    requires Reachable(w) && LoadPending(w, k) && t !in w.threads
    ensures Apply(w, EnterAcquire(t, k)).threads[t] == Waiting(k, w.store.entries[k].pending.value)
  {
    hide Alive;
    ReachableInv(w);
    assert EntryOk(w, k);
  }

  /** A return with a session is one more open of its key. */
  lemma ReturnOpens(w: World, t: ThreadId, h: HandleId)
    requires Reachable(w) && Enabled(w, ReturnFrom(t, h)) && LocalSession(w.threads[t]).Some?
    ensures var w', k := Apply(w, ReturnFrom(t, h)), w.threads[t].k;
        && w'.handles == w.handles[h := LocalSession(w.threads[t]).value]
        && |Opens(w', k)| == |Opens(w, k)| + 1
  {
    ReachableInv(w);
    LocalIsOwn(w, t);
    assert Opens(Apply(w, ReturnFrom(t, h)), w.threads[t].k) == Opens(w, w.threads[t].k) + {h};
  }

  /** A release closes one open of its session's key and none of another. */
  lemma ReleaseCloses(w: World, h: HandleId, k: Key)
    requires Reachable(w) && h in w.handles && w.handles[h] < |w.sessions| && k == w.sessions[w.handles[h]]
    ensures var w' := Apply(w, Release(h));
        && h !in w'.handles && |Opens(w', k)| == |Opens(w, k)| - 1
        && forall q :: q != k ==> Opens(w', q) == Opens(w, q)
  {
    var w' := Apply(w, Release(h));
    assert h in Opens(w, k);
    assert Opens(w', k) == Opens(w, k) - {h};
  }

  /** The last release frees the session: it is dead and no longer listed, and the next acquire has to load. */
  lemma LastReleaseFrees(w: World, h: HandleId, k: Key, t: ThreadId)
    requires Reachable(w) && w.threads == map[] && h in w.handles && w.handles[h] < |w.sessions|
    requires k == w.sessions[w.handles[h]] && Opens(w, k) == {h}
    ensures var w' := Apply(w, Release(h));
        && !Alive(w', w.handles[h]) && k !in Report(w'.store, UseCounts(w'))
        && Enabled(w', EnterAcquire(t, k)) && Apply(w', EnterAcquire(t, k)).threads[t].Loading?
  {
    hide Reachable, Alive;
    var s := w.handles[h];
    ReleaseCloses(w, h, k);
    var w' := StepReaches(w, Release(h));
    QuietStoreRetainsNothing(w', k, s);
    assert Opens(w', k) == {} && forall g :: g in w'.handles && w'.handles[g] == s ==> g in Opens(w', k);
    LoadsIfUnlisted(w', t, k);
  }

  /** Where nothing is pending and `loaded()` does not list the key an acquire claims a load. */
  lemma LoadsIfUnlisted(w: World, t: ThreadId, k: Key)
    requires Reachable(w) && t !in w.threads && !LoadPending(w, k) && k !in Report(w.store, UseCounts(w))
    ensures Apply(w, EnterAcquire(t, k)).threads[t].Loading?
  {
    hide Alive;
  }

  // ---- How a load ends -------------------------------------------------------------------------

  /** A load that fails comes to nothing and one that succeeds to a new session of its key. */
  lemma LoadOutcome(w: World, t: ThreadId, ok: bool)
    requires Reachable(w) && Enabled(w, LoadReturns(t, ok))
    ensures var w', p := Apply(w, LoadReturns(t, ok)), w.threads[t].p;
        && p < |w'.promises| && w'.promises[p].outcome == Some(if ok then Some(|w.sessions|) else None)
        && w'.sessions == if ok then w.sessions + [w.threads[t].k] else w.sessions
  {
  }

  /** A failed load leaves nothing behind: once it is published the next acquire of the key claims a load of its own. */
  lemma FailureIsRetried(w: World, t: ThreadId, u: ThreadId)
    requires Reachable(w) && Enabled(w, PublishResult(t)) && w.threads[t].result.None? && u !in w.threads
    ensures var w', k := Apply(w, PublishResult(t)), w.threads[t].k;
        k !in w'.store.entries && Apply(w', EnterAcquire(u, k)).threads[u].Loading?
  {
    hide AliveSessions;
    ReachableInv(w);
    assert PhaseOk(w, t);
  }

  // ---- Which configuration a load runs under ---------------------------------------------------

  lemma {:induction false} ConfigurationStays(w: World, acts: seq<Action>)
    requires Runnable(w, acts) && forall i :: 0 <= i < |acts| ==> !acts[i].Configure?
    ensures Run(w, acts).store.config == w.store.config
    decreases |acts|
  {
    hide AliveSessions;
    if acts != [] {
      assert !acts[0].Configure?;
      forall i | 0 <= i < |acts[1..]| ensures !acts[1..][i].Configure? {
        assert acts[1..][i] == acts[i + 1];
      }
      ConfigurationStays(Apply(w, acts[0]), acts[1..]);
    }
  }

  /** After `configure` every load claimed before the next one runs under what was configured. */
  lemma LoadsRunUnderLastConfiguration(w: World, given: CacheConfig, acts: seq<Action>, t: ThreadId, k: Key)
    requires Reachable(w) && Runnable(Apply(w, Configure(given)), acts)
    requires forall i :: 0 <= i < |acts| ==> !acts[i].Configure?
    requires var end := Run(Apply(w, Configure(given)), acts);
        Enabled(end, EnterAcquire(t, k)) && Apply(end, EnterAcquire(t, k)).threads[t].Loading?
    ensures Apply(Run(Apply(w, Configure(given)), acts), EnterAcquire(t, k)).threads[t].config == given
  {
    hide AliveSessions;
    ConfigurationStays(Apply(w, Configure(given)), acts);
  }
}
