/** When an Ok from the cache can be relied on: exactly when those who share a path agree on what belongs there. */
module CacheGuarantees {
  import opened Cache
  import opened CacheProtocol
  import opened FreshNames

  /** Content with the digest asked for exists, so that a fetch of it can succeed. */
  ghost predicate Attainable(c: Setting, a: Ask) {
    exists content: Bytes :: Hex(c.sha(content)) == a.expected
  }

  /** What is there at the start suits the ask, and so does whatever another ask may put there. */
  ghost predicate Suited(c: Setting, a: Ask) {
    if a.path in c.initial then Hex(c.sha(c.initial[a.path])) == a.expected
    else forall b :: Fetchable(c, b, a.path) && Attainable(c, b) ==> b.expected == a.expected
  }

  ghost predicate Consistent(c: Setting) {
    forall a :: a in c.wanted ==> Suited(c, a)
  }

  /** The promise of an Ok: the file has the digest that the call asked for, and still has. */
  ghost predicate Kept(c: Setting, w: World, r: Return) {
    r.status == Ok ==>
      var ask := r.request.ask;
      ask.path in w.files && Hex(c.sha(w.files[ask.path])) == ask.expected
  }

  /** Under consistent asks a file at a final path has the digest that every ask for that path demands. */
  lemma CacheIsVerified(c: Setting, w: World, a: Ask)
    requires Consistent(c) && Reachable(c, w) && a in c.wanted && a.path in w.files
    ensures Hex(c.sha(w.files[a.path])) == a.expected
  {
    assert Suited(c, a);
    InFinals(c, a);
    CacheIsSourced(c, w, a.path);
    if a.path !in c.initial {
      var b :| Fetchable(c, b, a.path) && Hex(c.sha(w.files[a.path])) == b.expected;
      assert Attainable(c, b);
    }
  }

  // ---- Runs, a step at a time ----------------------------------------------------------------

  lemma {:induction false} RunThen(c: Setting, w: World, acts: seq<Action>, a: Action)
    requires Runnable(c, w, acts) && Enabled(c, Run(c, w, acts), a)
    ensures Runnable(c, w, acts + [a]) && Run(c, w, acts + [a]) == Apply(c, Run(c, w, acts), a)
    decreases |acts|
  {
    if acts == [] {
      assert (acts + [a])[1..] == [];
    } else {
      RunThen(c, Apply(c, w, acts[0]), acts[1..], a);
      assert (acts + [a])[1..] == acts[1..] + [a];
    }
  }

  lemma StepReaches(c: Setting, w: World, a: Action) returns (next: World)
    requires Reachable(c, w) && Enabled(c, w, a)
    ensures next == Apply(c, w, a) && Reachable(c, next)
  {
    var acts :| Runnable(c, Init(c), acts) && w == Run(c, Init(c), acts);
    RunThen(c, Init(c), acts, a);
    next := Apply(c, w, a);
  }

  /** A call that finds a file returns Ok, whatever the file. */
  lemma FindsFile(c: Setting, w: World, a: Ask) returns (end: World)
    requires Reachable(c, w) && w.calls == map[] && a in c.wanted && a.path in w.files
    ensures Reachable(c, end) && |end.log| == |w.log| + 1 && end.log[|w.log|].request.ask == a
    ensures end.log[|w.log|].status == Ok
    ensures a.path in end.files && end.files[a.path] == w.files[a.path]
  {
    var partial := UnusedName(Finals(c) + w.used + w.files.Keys + c.initial.Keys);
    InFinals(c, a);
    hide Reachable, Finals;
    var w1 := StepReaches(c, w, Start(0, Request(a, partial)));
    var w2 := StepReaches(c, w1, Check(0));
    end := StepReaches(c, w2, Leave(0));
  }

  /** A call that may fetch what is not there puts the content it asks for in place. */
  lemma Fetches(c: Setting, b: Ask, content: Bytes) returns (end: World)
    requires b in c.wanted && !b.offline && b.path !in c.initial && Hex(c.sha(content)) == b.expected
    ensures Reachable(c, end) && end.calls == map[]
    ensures b.path in end.files && end.files[b.path] == content
  {
    var w := Init(c);
    assert Runnable(c, w, []) && Run(c, w, []) == w;
    var partial := UnusedName(Finals(c) + c.initial.Keys);
    InFinals(c, b);
    hide Reachable, Finals;
    var w1 := StepReaches(c, w, Start(0, Request(b, partial)));
    var w2 := StepReaches(c, w1, Check(0));
    var w3 := StepReaches(c, w2, Write(0, content));
    var w4 := StepReaches(c, w3, Complete(0));
    var w5 := StepReaches(c, w4, Hash(0));
    var w6 := StepReaches(c, w5, Install(0, true));
    end := StepReaches(c, w6, Leave(0));
  }

  /** An ask that is not suited is in some run answered Ok by a file with another digest. */
  lemma UnsuitedFails(c: Setting, a: Ask) returns (end: World)
    requires a in c.wanted && !Suited(c, a)
    ensures Reachable(c, end) && |end.log| > 0 && !Kept(c, end, end.log[|end.log| - 1])
  {
    var w := Init(c);
    assert Runnable(c, w, []) && Run(c, w, []) == w;
    if a.path !in c.initial {
      var b :| Fetchable(c, b, a.path) && Attainable(c, b) && b.expected != a.expected;
      var content: Bytes :| Hex(c.sha(content)) == b.expected;
      w := Fetches(c, b, content);
    }
    end := FindsFile(c, w, a);
  }

  /** Every Ok in every run is kept, for good, if and only if the asks are consistent. */
  lemma OkIsKeptExactly(c: Setting)
    ensures (forall w, k :: Reachable(c, w) && 0 <= k < |w.log| ==> Kept(c, w, w.log[k])) <==> Consistent(c)
  {
    if Consistent(c) {
      forall w, k | Reachable(c, w) && 0 <= k < |w.log| ensures Kept(c, w, w.log[k]) {
        ReturnedCalls(c, w, k);
        if w.log[k].status == Ok {
          CacheIsVerified(c, w, w.log[k].request.ask);
        }
      }
    } else {
      var a :| a in c.wanted && !Suited(c, a);
      var end := UnsuitedFails(c, a);
    }
  }
}
