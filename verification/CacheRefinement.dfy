/** The protocol's steps, taken by one call alone, come to what `ensure_file` does. */
module CacheRefinement {
  import opened Cache
  import opened CacheProtocol
  import opened CacheGuarantees

  /** A transfer: pieces of it fail and are tried again, and then it is complete or given up. */
  lemma {:induction false} Transfers(c: Setting, w: World, i: ProcessId, net: nat -> Attempt, n: nat)
    returns (end: World)
    requires Reachable(c, w) && i in w.calls && 1 <= n <= 5
    requires w.calls[i].phase == Fetching(n) && w.calls[i].request.partial !in w.files
    ensures Reachable(c, end)
    ensures var last, partial := net(Decisive(net, n)), w.calls[i].request.partial;
        if last.Fetched?
        then end == To(w, i, Transferred).(files := w.files[partial := last.content])
        else end == To(w, i, Leaving(DownloadFailed))
    decreases 5 - n
  {
    hide Reachable, Finals;
    var partial := w.calls[i].request.partial;
    if net(n).Fetched? {
      var written := StepReaches(c, w, Write(i, net(n).content));
      end := StepReaches(c, written, Complete(i));
    } else {
      // What has arrived by then is in the partial, and goes with it.
      var begun := StepReaches(c, w, Write(i, []));
      var failed := StepReaches(c, begun, Fail(i, net(n).transient));
      assert failed.files == w.files && failed.calls == w.calls[i := failed.calls[i]];
      if net(n).transient && n < 5 {
        assert failed == To(w, i, Fetching(n + 1));
        end := Transfers(c, failed, i, net, n + 1);
      } else {
        end := failed;
      }
    }
  }

  /** What is transferred is hashed, compared and renamed; whatever comes of it, the partial goes. */
  lemma Finishes(c: Setting, w: World, i: ProcessId, renamed: bool) returns (end: World)
    requires Reachable(c, w) && i in w.calls && w.calls[i].phase.Transferred?
    requires w.calls[i].request.partial in w.files
    ensures Reachable(c, end) && end.calls == w.calls - {i}
    ensures var r := w.calls[i].request;
        var content, before := w.files[r.partial], w.files - {r.partial};
        if Hex(c.sha(content)) != r.ask.expected
        then end.log == w.log + [Return(r, DigestMismatch)] && end.files == before
        else if !renamed then end.log == w.log + [Return(r, DownloadFailed)] && end.files == before
        else end.log == w.log + [Return(r, Ok)] && end.files == before[r.ask.path := content]
  {
    ReachableInv(c, w);
    assert CallOk(c, w, i);
    InFinals(c, w.calls[i].request.ask);
    hide Reachable, Finals, Inv, Hex;
    var hashed := StepReaches(c, w, Hash(i));
    var installed := StepReaches(c, hashed, Install(i, renamed));
    end := StepReaches(c, installed, Leave(i));
  }

  /** A rename moves: also for a process stopped right after it the partial is gone and the rest untouched. */
  lemma RenameMoves(c: Setting, w: World, i: ProcessId)
    requires Reachable(c, w) && Enabled(c, w, Install(i, true))
    requires w.calls[i].phase.digest == w.calls[i].request.ask.expected
    ensures var w', r := Apply(c, Apply(c, w, Install(i, true)), Crash(i)), w.calls[i].request;
        && r.partial !in w'.files && r.ask.path in w'.files && w'.files[r.ask.path] == w.files[r.partial]
        && forall f :: f != r.partial && f != r.ask.path ==>
             (f in w'.files <==> f in w.files) && (f in w.files ==> w'.files[f] == w.files[f])
  {
    ReachableInv(c, w);
    assert CallOk(c, w, i);
    InFinals(c, w.calls[i].request.ask);
  }

  /** A process stopped before that leaves its partial where it is. */
  lemma CrashLeavesPartial(c: Setting, w: World, i: ProcessId)
    requires Enabled(c, w, Crash(i)) && w.calls[i].request.partial in w.files
    ensures var w', partial := Apply(c, w, Crash(i)), w.calls[i].request.partial;
        partial in w'.files && partial in w'.abandoned && i !in w'.calls
  {
  }

  lemma Leaves(c: Setting, w: World, i: ProcessId) returns (end: World)
    requires Reachable(c, w) && i in w.calls && w.calls[i].phase.Leaving? && w.calls[i].request.partial !in w.files
    ensures Reachable(c, end) && end.calls == w.calls - {i} && end.files == w.files
    ensures end.log == w.log + [Return(w.calls[i].request, w.calls[i].phase.status)]
  {
    hide Reachable;
    end := StepReaches(c, w, Leave(i));
  }

  lemma Begins(c: Setting, w: World, i: ProcessId, r: Request) returns (checked: World)
    requires Reachable(c, w) && Enabled(c, w, Start(i, r))
    ensures Reachable(c, checked) && checked.files == w.files && checked.log == w.log
    ensures checked.calls == w.calls[i := Call(r,
        if r.ask.path in w.files then Leaving(Ok) else if r.ask.offline then Leaving(NotCached) else Fetching(1))]
  {
    hide Reachable, Finals;
    var started := StepReaches(c, w, Start(i, r));
    checked := StepReaches(c, started, Check(i));
  }

  /** From the check to the return of a call that has to fetch. */
  lemma FetchesOrFails(c: Setting, w: World, i: ProcessId, net: nat -> Attempt, renamed: bool)
    returns (end: World, status: Status)
    requires Reachable(c, w) && i in w.calls && w.calls[i].phase == Fetching(1)
    requires w.calls[i].request.partial !in w.files
    ensures Reachable(c, end) && end.calls == w.calls - {i}
    ensures end.log == w.log + [Return(w.calls[i].request, status)]
    ensures var last, ask := net(Decisive(net, 1)), w.calls[i].request.ask;
        if last.Failed? then status == DownloadFailed && end.files == w.files
        else if Hex(c.sha(last.content)) != ask.expected then status == DigestMismatch && end.files == w.files
        else if !renamed then status == DownloadFailed && end.files == w.files
        else status == Ok && end.files == w.files[ask.path := last.content]
  {
    hide Reachable, Hex, Decisive;
    var moved := Transfers(c, w, i, net, 1);
    if net(Decisive(net, 1)).Fetched? {
      end := Finishes(c, moved, i, renamed);
      assert moved.files - {w.calls[i].request.partial} == w.files;
    } else {
      end := Leaves(c, moved, i);
    }
    assert end.calls == w.calls - {i};
    status := end.log[|w.log|].status;
  }

  /**
   A call that runs undisturbed, whatever the others have left, answers and leaves the directory as
   `ensure_file` does by itself: the statement is that of `Disk.EnsureFile`.
   */
  lemma UndisturbedCall(c: Setting, w: World, i: ProcessId, r: Request, directoryMade: bool, net: nat -> Attempt,
                        renamed: bool) returns (end: World, status: Status)
    requires Reachable(c, w) && Enabled(c, w, Start(i, r))
    ensures Reachable(c, end) && end.calls == w.calls && end.log == w.log + [Return(r, status)]
    ensures r.partial !in end.files
    ensures r.ask.path in w.files ==> status == Ok && end.files == w.files
    ensures r.ask.path !in w.files && r.ask.offline ==> status == NotCached && end.files == w.files
    ensures r.ask.path !in w.files && !r.ask.offline ==>
        var last := net(Decisive(net, 1));
        if !directoryMade || last.Failed? then status == DownloadFailed && end.files == w.files
        else if Hex(c.sha(last.content)) != r.ask.expected then status == DigestMismatch && end.files == w.files
        else if !renamed then status == DownloadFailed && end.files == w.files
        else status == Ok && end.files == w.files[r.ask.path := last.content]
  {
    InFinals(c, r.ask);
    hide Reachable, Finals, Hex, Decisive;
    var checked := Begins(c, w, i, r);
    if r.ask.path in w.files || r.ask.offline {
      end := Leaves(c, checked, i);
      status := if r.ask.path in w.files then Ok else NotCached;
    } else if !directoryMade {
      var refused := StepReaches(c, checked, Refuse(i));
      end := Leaves(c, refused, i);
      status := DownloadFailed;
    } else {
      end, status := FetchesOrFails(c, checked, i, net, renamed);
    }
    assert end.calls == w.calls;
  }
}
