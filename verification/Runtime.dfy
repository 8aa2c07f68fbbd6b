/** The process-wide thread pool: its size is fixed by the first environment that starts. */
module Runtime {

  import opened Wrappers

  /** `pool` is the size of the pool ONNX Runtime was started with, once it was. */
  datatype State = State(started: bool, threads: int, pool: Option<int>)

  datatype Call = ConfigureCall(threads: int) | EnvironmentCall(starts: bool)

  function Initial(): State {
    State(false, 1, None)
  }

  function Accepts(st: State, threads: int): bool {
    threads >= 1 && !(st.started && threads != st.threads)
  }

  function Configured(st: State, threads: int): State {
    if Accepts(st, threads) then st.(threads := threads) else st
  }

  /** A construction that throws leaves the static unconstructed and the runtime unstarted; a later call tries again. */
  function Started(st: State, starts: bool): State {
    if st.pool.Some? then st.(started := true)
    else if starts then State(true, st.threads, Some(st.threads))
    else st
  }

  class Runtime {
    var started: bool
    var threads: int
    var pool: Option<int>

    constructor ()
      ensures View() == Initial()
    {
      started, threads, pool := false, 1, None;
    }

    ghost function View(): State
      reads this
    {
      State(started, threads, pool)
    }

    /** `configure_runtime`. */
    method Configure(given: int) returns (ok: bool)
      modifies this`threads
      ensures ok == Accepts(old(View()), given)
      ensures View() == Configured(old(View()), given)
    {
      if given < 1 {
        return false;
      }
      if started && given != threads {
        return false;
      }
      threads := given;
      return true;
    }

    /** `environment`; `starts` says whether constructing the environment would succeed. */
    method Environment(starts: bool) returns (ok: bool)
      modifies this
      ensures ok == (old(pool).Some? || starts)
      ensures View() == Started(old(View()), starts)
    {
      if pool.None? {
        if !starts {
          return false;
        }
        pool := Some(threads);
      }
      started := true;
      return true;
    }
  }

  // ---- Every trace of calls ------------------------------------------------------------

  function Apply(st: State, c: Call): State {
    match c
    case ConfigureCall(n) => Configured(st, n)
    case EnvironmentCall(starts) => Started(st, starts)
  }

  function After(calls: seq<Call>): State {
    if calls == [] then Initial() else Apply(After(calls[..|calls| - 1]), calls[|calls| - 1])
  }

  /** The last positive size asked for, or the default. */
  function LastAsked(calls: seq<Call>): int {
    if calls == [] then 1
    else
      var last := calls[|calls| - 1];
      if last.ConfigureCall? && last.threads >= 1 then last.threads else LastAsked(calls[..|calls| - 1])
  }

  predicate Starts(c: Call) {
    c.EnvironmentCall? && c.starts
  }

  /** Before any environment starts the size is the last one asked for, and there is no pool. */
  lemma {:induction false} BeforeStart(calls: seq<Call>)
    requires forall i :: 0 <= i < |calls| ==> !Starts(calls[i])
    ensures After(calls) == State(false, LastAsked(calls), None) && LastAsked(calls) >= 1
  {
    if calls != [] {
      BeforeStart(calls[..|calls| - 1]);
    }
  }

  /**
   In every trace the pool has the size last asked for before the first environment that started, and
   keeps it: the setting equals it ever after, and a later request succeeds exactly when it asks for it.
   */
  lemma {:induction false} PoolSizeIsFixed(calls: seq<Call>, first: nat, asked: int)
    requires first < |calls| && Starts(calls[first])
    requires forall i :: 0 <= i < first ==> !Starts(calls[i])
    ensures var size := LastAsked(calls[..first]);
        && size >= 1
        && After(calls) == State(true, size, Some(size))
        && (Accepts(After(calls), asked) <==> asked == size)
  {
    var shorter := calls[..|calls| - 1];
    if first == |calls| - 1 {
      BeforeStart(shorter);
    } else {
      PoolSizeIsFixed(shorter, first, asked);
      assert shorter[..first] == calls[..first];
    }
  }
}
