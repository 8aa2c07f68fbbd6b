/**
 The process-wide session store: weak entries, one load per key, and a future for those who wait.

 The store's methods are its critical sections. What the mutex does not cover - loading, fulfilling
 the promise, waiting on the future - is in SessionProtocol.
 */
module SessionStore {

  import opened Wrappers
  import opened CacheConfiguration

  /** Model, provider and precision, each by its enumeration value. */
  datatype Key = Key(model: nat, provider: nat, precision: nat)

  /** Sessions and promises are named by number, in order of creation. */
  type SessionId = nat
  type PromiseId = nat

  /** A weak reference to a session, and the future of a load in flight. */
  datatype Entry = Entry(session: Option<SessionId>, pending: Option<PromiseId>)

  datatype State = State(entries: map<Key, Entry>, config: CacheConfig, shared: nat, loaded: nat)

  /** What the first critical section of `acquire` tells its caller to do. */
  datatype Decision = Share(s: SessionId) | Wait(p: PromiseId) | Load(p: PromiseId, config: CacheConfig)

  // ---- What the critical sections do ------------------------------------------------

  /** A live session is shared; failing that a load in flight is waited on; failing that the caller loads. */
  function Decide(st: State, k: Key, alive: set<SessionId>, promise: PromiseId): Decision {
    if k in st.entries && st.entries[k].session.Some? && st.entries[k].session.value in alive
    then Share(st.entries[k].session.value)
    else if k in st.entries && st.entries[k].pending.Some? then Wait(st.entries[k].pending.value)
    else Load(promise, st.config)
  }

  function Enter(st: State, k: Key, decision: Decision): State {
    match decision
    case Load(p, _) => st.(loaded := st.loaded + 1, entries := st.entries[k := Entry(None, Some(p))])
    case _ => st.(shared := st.shared + 1)
  }

  /** Failed, the key has no entry; loaded, its entry names the session and no promise. */
  function Publish(st: State, k: Key, result: Option<SessionId>): State {
    if k !in st.entries then st
    else if result.None? then st.(entries := st.entries - {k})
    else st.(entries := st.entries[k := Entry(result, None)])
  }

  /** Handles reported for each key: the strong references its session has besides the report's own. */
  function Report(st: State, useCount: map<SessionId, nat>): (r: map<Key, nat>)
  {
    map k | k in st.entries && st.entries[k].session.Some? && st.entries[k].session.value in useCount
      :: useCount[st.entries[k].session.value]
  }

  // ---- The store --------------------------------------------------------------------

  class Store {
    var entries: map<Key, Entry>
    var config: CacheConfig
    var shared: nat
    var loaded: nat

    constructor ()
      ensures View() == State(map[], CacheConfig("", "", false), 0, 0)
    {
      entries, config, shared, loaded := map[], CacheConfig("", "", false), 0, 0;
    }

    ghost function View(): State
      reads this
    {
      State(entries, config, shared, loaded)
    }

    method Configure(given: CacheConfig)
      modifies this`config
      ensures View() == old(View()).(config := given)
    {
      config := given;
    }

    /** First critical section of `acquire`. `alive` answers `weak_ptr::lock`; `promise` is the one made if needed. */
    method EnterAcquire(k: Key, alive: set<SessionId>, promise: PromiseId) returns (decision: Decision)
      modifies this`entries, this`shared, this`loaded
      ensures decision == Decide(old(View()), k, alive, promise)
      ensures View() == Enter(old(View()), k, decision)
    {
      var pending: Option<PromiseId> := None;
      if k in entries {
        var it := entries[k];
        if it.session.Some? && it.session.value in alive {
          shared := shared + 1;
          return Share(it.session.value);
        }
        if it.pending.Some? {
          shared := shared + 1;
          pending := it.pending;
        }
      }
      if pending.None? {
        loaded := loaded + 1;
        entries := entries[k := Entry(None, Some(promise))];
        return Load(promise, config);
      }
      return Wait(pending.value);
    }

    /** Second critical section of `acquire`, run by the caller that loaded. */
    method PublishResult(k: Key, result: Option<SessionId>)
      modifies this`entries
      ensures View() == Publish(old(View()), k, result)
    {
      if k in entries {
        if result.None? {
          entries := entries - {k};
        } else {
          entries := entries[k := Entry(result, None)];
        }
      }
    }

    /** `loaded()`; a session not in `useCount` has no strong reference left and its weak entry does not lock. */
    method Loaded(useCount: map<SessionId, nat>) returns (result: map<Key, nat>)
      ensures result == Report(View(), useCount)
    {
      result := map[];
      var left := entries.Keys;
      while left != {}
        invariant left <= entries.Keys
        invariant forall k :: k in result <==> k in Report(View(), useCount) && k !in left
        invariant forall k :: k in result ==> result[k] == Report(View(), useCount)[k]
        decreases |left|
      {
        var k :| k in left;
        left := left - {k};
        var weak := entries[k].session;
        if weak.Some? && weak.value in useCount {
          result := result[k := useCount[weak.value]];
        }
      }
    }

    method Stats() returns (sharedOpens: nat, loads: nat)
      ensures sharedOpens == View().shared && loads == View().loaded
    {
      return shared, loaded;
    }
  }
}
