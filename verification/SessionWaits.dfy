/** How long an acquire takes while others keep arriving: a handful of steps of one thread at a time. */
module SessionWaits {
  import opened SessionProtocol
  import opened SessionGuarantees

  ghost predicate Blocked(w: World, t: ThreadId)
    requires t in w.threads
  {
    w.threads[t].Waiting? && w.threads[t].p < |w.promises| && !w.promises[w.threads[t].p].isSet
  }

  /** The thread whose step brings `t` nearer to its return: itself, or the loader it waits for. */
  ghost function Helper(w: World, t: ThreadId): ThreadId
    requires t in w.threads
  {
    if Blocked(w, t) then w.promises[w.threads[t].p].owner else t
  }

  /** How many more steps `t` needs: its own, and first its loader's until the promise is set. */
  ghost function StepsLeft(w: World, t: ThreadId): (n: nat)
    ensures t in w.threads ==> 1 <= n <= 4
  {
    if t !in w.threads then 0
    else if Blocked(w, t) then
      if Helper(w, t) in w.threads && w.threads[Helper(w, t)].Loading? then 4 else 3
    else PhaseRank(w.threads[t])
  }

  ghost predicate StepOf(a: Action, t: ThreadId) {
    Inner(a) && a.t == t
  }

  /** The helper is never blocked itself: it always has a step. */
  lemma HelperCanStep(w: World, t: ThreadId) returns (a: Action)
    requires Reachable(w) && t in w.threads
    ensures StepOf(a, Helper(w, t)) && Enabled(w, a)
  {
    ReachableInv(w);
    assert PhaseOk(w, t);
    if Blocked(w, t) {
      BlockedOnLoader(w, t);
    } else if w.threads[t].Waiting? {
      assert PromiseOk(w, w.threads[t].p);
    }
    a := NextStep(w, Helper(w, t));
  }

  lemma OwnStep(w: World, a: Action, t: ThreadId)
    requires Inv(w) && Enabled(w, a) && t in w.threads && StepOf(a, t)
    ensures t in Apply(w, a).threads ==> StepsLeft(Apply(w, a), t) < StepsLeft(w, t)
  {
    assert PhaseOk(w, t);
  }

  lemma OthersStep(w: World, a: Action, t: ThreadId)
    requires Enabled(w, a) && t in w.threads && !StepOf(a, t)
    ensures var w' := Apply(w, a);
        && t in w'.threads && w'.threads[t] == w.threads[t]
        && |w.promises| <= |w'.promises|
        && forall p :: 0 <= p < |w.promises| && w.promises[p].isSet ==> w'.promises[p].isSet
  {
    hide AliveSessions;
  }

  /** While `t` is blocked its loader either stays where it is or comes nearer to setting the promise. */
  lemma LoaderStep(w: World, a: Action, t: ThreadId)
    requires Inv(w) && Enabled(w, a) && t in w.threads && !StepOf(a, t) && Blocked(w, t)
    ensures StepsLeft(Apply(w, a), t) <= StepsLeft(w, t)
    ensures StepOf(a, Helper(w, t)) ==> StepsLeft(Apply(w, a), t) < StepsLeft(w, t)
  {
    hide AliveSessions;
    OthersStep(w, a, t);
    assert PromiseOk(w, w.threads[t].p);
    var u := Helper(w, t);
    assert PhaseOk(w, u);
    if !StepOf(a, u) {
      OthersStep(w, a, u);
    }
  }

  /** No step, a new arrival's included, sets `t` back, and every step of its helper brings it on. */
  lemma NoStepSetsBack(w: World, a: Action, t: ThreadId)
    requires Inv(w) && Enabled(w, a) && t in w.threads
    ensures t in Apply(w, a).threads ==> StepsLeft(Apply(w, a), t) <= StepsLeft(w, t)
    ensures t in Apply(w, a).threads && StepOf(a, Helper(w, t)) ==> StepsLeft(Apply(w, a), t) < StepsLeft(w, t)
  {
    hide AliveSessions, Inv;
    if StepOf(a, t) {
      OwnStep(w, a, t);
    } else if Blocked(w, t) {
      LoaderStep(w, a, t);
    } else {
      OthersStep(w, a, t);
      WaitsOnMade(w, t);
    }
  }

  lemma WaitsOnMade(w: World, t: ThreadId)
    requires Inv(w) && t in w.threads
    ensures w.threads[t].Waiting? ==> w.threads[t].p < |w.promises|
  {
    assert PhaseOk(w, t);
  }

  /** How many steps of a run, until `t` leaves, are its helper's. */
  ghost function Helped(w: World, acts: seq<Action>, t: ThreadId): nat
    requires Runnable(w, acts)
    decreases |acts|
  {
    if acts == [] || t !in w.threads then 0 else
      (if StepOf(acts[0], Helper(w, t)) then 1 else 0) + Helped(Apply(w, acts[0]), acts[1..], t)
  }

  ghost predicate StaysInside(w: World, acts: seq<Action>, t: ThreadId)
    requires Runnable(w, acts)
    decreases |acts|
  {
    t in w.threads && (acts != [] ==> StaysInside(Apply(w, acts[0]), acts[1..], t))
  }

  /**
   Whatever the other threads do, and however many arrive, an acquire is over once the thread it depends
   on has taken at most four steps: its loader's two and its own two, or its own four if it loads.
   */
  lemma {:induction false} AcquireTakesFewSteps(w: World, acts: seq<Action>, t: ThreadId)
    requires Inv(w) && Runnable(w, acts)
    ensures Helped(w, acts, t) <= StepsLeft(w, t) <= 4
    ensures StaysInside(w, acts, t) ==> Helped(w, acts, t) < StepsLeft(w, t)
    decreases |acts|
  {
    if acts != [] && t in w.threads {
      NoStepSetsBack(w, acts[0], t);
      StepKeepsInv(w, acts[0]);
      AcquireTakesFewSteps(Apply(w, acts[0]), acts[1..], t);
    }
  }
}
