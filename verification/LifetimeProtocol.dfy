/**
 * Every interleaving of bound calls and invalidations of one Lifetime object: any number of
 * threads, each step one atomic operation on `generation` or `inside`.
 */
module LifetimeProtocol {
  import opened FiniteSets
  import opened Lifetimes

  type Tid = nat

  /** Where a thread is with its innermost bound call: `InCode` is inside its body, or outside any call. */
  datatype Stage = InCode | Counted | Returning | Notifying

  /** The snapshots of the bound calls a thread is in, innermost last. */
  datatype Thread = Thread(calls: seq<nat>, stage: Stage)

  datatype WaitPhase = Loading | Comparing(now: nat) | Asleep(now: nat)

  /** One InvalidateAndWait in progress: the calls of its own thread, and the generation it bumped to. */
  datatype Waiter = Waiter(mine: nat, bumped: nat, phase: WaitPhase)

  /** `done`: the InvalidateAndWait calls that returned, as thread and generation. */
  datatype World = World(generation: nat, inside: int, threads: map<Tid, Thread>, waiters: map<Tid, Waiter>, done: set<(Tid, nat)>)

  const START := World(0, 0, map[], map[], {})

  function ThreadOf(w: World, t: Tid): Thread {
    if t in w.threads then w.threads[t] else Thread([], InCode)
  }

  /** The thread is in code that may call, return or invalidate. */
  predicate Free(w: World, t: Tid) {
    ThreadOf(w, t).stage == InCode && t !in w.waiters
  }

  function Top(th: Thread): nat
    requires th.calls != []
  {
    th.calls[|th.calls| - 1]
  }

  // ---- Steps ----

  datatype Step =
    | Call(t: Tid, snapshot: nat)     // inside + 1, entered
    | Check(t: Tid)                   // generation against the snapshot
    | Return(t: Tid)                  // the body returned or threw
    | Uncount(t: Tid)                 // inside - 1
    | Notify(t: Tid)
    | Invalidate(t: Tid)
    | StartWait(t: Tid)               // generation + 1, and the thread's own calls
    | Load(t: Tid)
    | Wait(t: Tid)                    // compare, and sleep on equality
    | WakeUp(t: Tid)                  // spurious

  predicate Enabled(w: World, s: Step) {
    match s
    case Call(t, snapshot) => Free(w, t) && snapshot <= w.generation
    case Check(t) => ThreadOf(w, t).stage == Counted && ThreadOf(w, t).calls != []
    case Return(t) => Free(w, t) && ThreadOf(w, t).calls != []
    case Uncount(t) => ThreadOf(w, t).stage == Returning
    case Notify(t) => ThreadOf(w, t).stage == Notifying && ThreadOf(w, t).calls != []
    case Invalidate(t) => Free(w, t)
    case StartWait(t) => Free(w, t)
    case Load(t) => t in w.waiters && w.waiters[t].phase == Loading
    case Wait(t) => t in w.waiters && w.waiters[t].phase.Comparing?
    case WakeUp(t) => t in w.waiters && w.waiters[t].phase.Asleep?
  }

  /** What notify_all does to one waiter: it compares again. */
  function Woken(x: Waiter): Waiter {
    if x.phase.Asleep? then x.(phase := Comparing(x.phase.now)) else x
  }

  function WithStage(w: World, t: Tid, stage: Stage): map<Tid, Thread> {
    w.threads[t := ThreadOf(w, t).(stage := stage)]
  }

  function WithPhase(w: World, t: Tid, phase: WaitPhase): map<Tid, Waiter>
    requires t in w.waiters
  {
    w.waiters[t := w.waiters[t].(phase := phase)]
  }

  function Apply(w: World, s: Step): World
    requires Enabled(w, s)
  {
    match s
    case Call(t, snapshot) =>
      w.(inside := w.inside + 1, threads := w.threads[t := Thread(ThreadOf(w, t).calls + [snapshot], Counted)])
    case Check(t) =>
      w.(threads := WithStage(w, t, if Runs(w.generation, Top(ThreadOf(w, t))) then InCode else Returning))
    case Return(t) => w.(threads := WithStage(w, t, Returning))
    case Uncount(t) => w.(inside := w.inside - 1, threads := WithStage(w, t, Notifying))
    case Notify(t) =>
      var calls := ThreadOf(w, t).calls;
      w.(threads := w.threads[t := Thread(calls[..|calls| - 1], InCode)],
         waiters := map u | u in w.waiters :: Woken(w.waiters[u]))
    case Invalidate(t) => w.(generation := w.generation + 1)
    case StartWait(t) =>
      w.(generation := w.generation + 1,
         waiters := w.waiters[t := Waiter(|ThreadOf(w, t).calls|, w.generation + 1, Loading)])
    case Load(t) =>
      if MayReturn(w.inside, w.waiters[t].mine) then
        w.(waiters := w.waiters - {t}, done := w.done + {(t, w.waiters[t].bumped)})
      else w.(waiters := WithPhase(w, t, Comparing(w.inside)))
    case Wait(t) =>
      w.(waiters := WithPhase(w, t, if w.inside == w.waiters[t].phase.now then Asleep(w.inside) else Loading))
    case WakeUp(t) => w.(waiters := WithPhase(w, t, Comparing(w.waiters[t].phase.now)))
  }

  // ---- The invariant ----

  /** The calls of a thread that are counted in `inside`. */
  function CountedCalls(th: Thread): nat {
    if th.stage == Notifying && th.calls != [] then |th.calls| - 1 else |th.calls|
  }

  function Frames(w: World): set<(Tid, nat)> {
    set t, k | t in w.threads && 0 <= k < CountedCalls(w.threads[t]) :: (t, k)
  }

  /** The body of call number k of a thread is running. */
  predicate InBody(th: Thread, k: int) {
    0 <= k < |th.calls| && (k < |th.calls| - 1 || th.stage == InCode)
  }

  /** No thread other than `t` is in the body of a call bound before generation `g`. */
  ghost predicate NoOldBody(w: World, t: Tid, g: nat) {
    forall u, k :: u in w.threads && u != t && InBody(w.threads[u], k) ==> w.threads[u].calls[k] >= g
  }

  ghost predicate ThreadsOk(w: World) {
    forall t :: t in w.threads ==>
      && (w.threads[t].stage != InCode ==> w.threads[t].calls != [])
      && forall k :: 0 <= k < |w.threads[t].calls| ==> w.threads[t].calls[k] <= w.generation
  }

  ghost predicate SomeNotifier(w: World) {
    exists t :: t in w.threads && w.threads[t].stage == Notifying
  }

  ghost predicate WaiterOk(w: World, t: Tid, x: Waiter) {
    && ThreadOf(w, t).stage == InCode && x.mine == |ThreadOf(w, t).calls| && x.bumped <= w.generation
    && (x.phase != Loading ==> x.mine < x.phase.now)
    && (x.phase.Asleep? && w.inside < x.phase.now ==> SomeNotifier(w))
  }

  ghost predicate Inv(w: World) {
    && w.inside == |Frames(w)|
    && ThreadsOk(w)
    && (forall t :: t in w.waiters ==> WaiterOk(w, t, w.waiters[t]))
    && (forall d :: d in w.done ==> d.1 <= w.generation && NoOldBody(w, d.0, d.1))
  }

  // ---- The count ----

  lemma OneMore(w: World, t: Tid, th: Thread, w': World)
    requires w'.threads == w.threads[t := th] && CountedCalls(th) == CountedCalls(ThreadOf(w, t)) + 1
    ensures |Frames(w')| == |Frames(w)| + 1
  {
    assert Frames(w') == Frames(w) + {(t, CountedCalls(ThreadOf(w, t)))};
  }

  lemma OneFewer(w: World, t: Tid, th: Thread, w': World)
    requires w'.threads == w.threads[t := th] && CountedCalls(th) + 1 == CountedCalls(ThreadOf(w, t))
    ensures |Frames(w')| == |Frames(w)| - 1
  {
    var last := (t, CountedCalls(th));
    assert last in Frames(w) && last !in Frames(w');
    assert Frames(w') == Frames(w) - {last};
  }

  lemma AsMany(w: World, t: Tid, th: Thread, w': World)
    requires w'.threads == w.threads[t := th] && CountedCalls(th) == CountedCalls(ThreadOf(w, t))
    ensures Frames(w') == Frames(w)
  {}

  lemma StepKeepsCount(w: World, s: Step)
    requires Inv(w) && Enabled(w, s)
    ensures Apply(w, s).inside == |Frames(Apply(w, s))|
  {
    var w' := Apply(w, s);
    if s.Call? {
      OneMore(w, s.t, w'.threads[s.t], w');
    } else if s.Uncount? {
      OneFewer(w, s.t, w'.threads[s.t], w');
    } else if s.Check? || s.Return? || s.Notify? {
      AsMany(w, s.t, w'.threads[s.t], w');
    } else {
      assert Frames(w') == Frames(w);
    }
  }

  // ---- Waiting ----

  /** A count no higher than the waiter's own calls leaves no counted call on another thread. */
  lemma OthersUncounted(w: World, t: Tid, u: Tid)
    requires w.inside == |Frames(w)| && w.inside <= |ThreadOf(w, t).calls| && ThreadOf(w, t).stage == InCode
    requires u in w.threads && u != t
    ensures CountedCalls(w.threads[u]) == 0
  {
    var own := set k | 0 <= k < |ThreadOf(w, t).calls| :: (t, k);
    OwnFrames(t, |ThreadOf(w, t).calls|);
    assert own <= Frames(w);
    assert |Frames(w) - own| == |Frames(w)| - |own|;
    assert CountedCalls(w.threads[u]) > 0 ==> (u, 0) in Frames(w) - own;
  }

  lemma StepKeepsThreads(w: World, s: Step)
    requires Inv(w) && Enabled(w, s)
    ensures ThreadsOk(Apply(w, s))
  {}

  lemma StepKeepsWaiter(w: World, s: Step, t: Tid)
    requires Inv(w) && Enabled(w, s) && t in Apply(w, s).waiters
    ensures WaiterOk(Apply(w, s), t, Apply(w, s).waiters[t])
  {
    var w' := Apply(w, s);
    if t in w.waiters {
      assert WaiterOk(w, t, w.waiters[t]);
      assert ThreadOf(w', t) == ThreadOf(w, t);
      if SomeNotifier(w) && !s.Notify? {
        var u :| u in w.threads && w.threads[u].stage == Notifying;
        assert w'.threads[u] == w.threads[u];
      }
      if s.Uncount? {
        assert w'.threads[s.t].stage == Notifying;
      }
    }
  }

  lemma StepKeepsDone(w: World, s: Step, t: Tid, g: nat)
    requires Inv(w) && Enabled(w, s) && (t, g) in Apply(w, s).done
    ensures g <= Apply(w, s).generation && NoOldBody(Apply(w, s), t, g)
  {
    var w' := Apply(w, s);
    if (t, g) in w.done {
      assert NoOldBody(w, t, g);
      forall u, k | u in w'.threads && u != t && InBody(w'.threads[u], k)
        ensures w'.threads[u].calls[k] >= g
      {
        if InBody(ThreadOf(w, u), k) {
          assert ThreadOf(w, u).calls[k] >= g;
        }
      }
    } else {
      assert WaiterOk(w, t, w.waiters[t]);
      forall u | u in w.threads && u != t
        ensures CountedCalls(w.threads[u]) == 0
      {
        OthersUncounted(w, t, u);
      }
    }
  }

  lemma StepKeepsInv(w: World, s: Step)
    requires Inv(w) && Enabled(w, s)
    ensures Inv(Apply(w, s))
  {
    var w' := Apply(w, s);
    StepKeepsCount(w, s);
    StepKeepsThreads(w, s);
    forall t | t in w'.waiters
      ensures WaiterOk(w', t, w'.waiters[t])
    {
      StepKeepsWaiter(w, s, t);
    }
    forall d | d in w'.done
      ensures d.1 <= w'.generation && NoOldBody(w', d.0, d.1)
    {
      StepKeepsDone(w, s, d.0, d.1);
    }
  }

  // ---- Runs ----

  predicate Run(w: World, steps: seq<Step>, w': World)
    decreases steps
  {
    if steps == [] then w == w' else Enabled(w, steps[0]) && Run(Apply(w, steps[0]), steps[1..], w')
  }

  lemma {:induction false} RunKeepsInv(w: World, steps: seq<Step>, w': World)
    requires Inv(w) && Run(w, steps, w')
    ensures Inv(w') && w.done <= w'.done
    decreases steps
  {
    if steps != [] {
      StepKeepsInv(w, steps[0]);
      RunKeepsInv(Apply(w, steps[0]), steps[1..], w');
    }
  }

  ghost predicate Reachable(w: World) {
    exists steps :: Run(START, steps, w)
  }

  lemma ReachableInv(w: World)
    requires Reachable(w)
    ensures Inv(w)
  {
    var steps :| Run(START, steps, w);
    assert Frames(START) == {};
    RunKeepsInv(START, steps, w);
  }

  // ---- The guarantees ----

  /**
   * Once InvalidateAndWait returned on `t`, then and ever after no other thread is in the body
   * of a call bound before it.
   */
  lemma QuietAfterWait(w: World, steps: seq<Step>, w': World, t: Tid, bumped: nat, u: Tid, k: nat)
    requires Reachable(w) && (t, bumped) in w.done && Run(w, steps, w')
    requires u != t && InBody(ThreadOf(w', u), k)
    ensures ThreadOf(w', u).calls[k] >= bumped
  {
    ReachableInv(w);
    RunKeepsInv(w, steps, w');
    assert NoOldBody(w', t, bumped);
  }

  /** The count is exact, and a thread's own calls never hold its wait. */
  lemma OwnCallsDoNotBlock(w: World, t: Tid)
    requires Reachable(w) && Enabled(w, Load(t))
    requires forall u :: u in w.threads && u != t ==> CountedCalls(w.threads[u]) == 0
    ensures (t, w.waiters[t].bumped) in Apply(w, Load(t)).done
  {
    ReachableInv(w);
    assert WaiterOk(w, t, w.waiters[t]);
    var own := set k | 0 <= k < |ThreadOf(w, t).calls| :: (t, k);
    OwnFrames(t, |ThreadOf(w, t).calls|);
    assert Frames(w) == own;
  }

  /** A waiter returns only when no other thread is counted. */
  lemma ReturnsOnlyWhenAlone(w: World, t: Tid, u: Tid)
    requires Reachable(w) && Enabled(w, Load(t)) && (t, w.waiters[t].bumped) !in w.done
    requires (t, w.waiters[t].bumped) in Apply(w, Load(t)).done
    requires u in w.threads && u != t
    ensures CountedCalls(w.threads[u]) == 0
  {
    ReachableInv(w);
    assert WaiterOk(w, t, w.waiters[t]);
    OthersUncounted(w, t, u);
  }

  /** No wake-up is lost: a waiter asleep on a count that has gone down has a notification coming. */
  lemma NoLostWakeUp(w: World, t: Tid)
    requires Reachable(w) && t in w.waiters && w.waiters[t].phase.Asleep?
    ensures w.inside < w.waiters[t].phase.now ==> SomeNotifier(w)
    ensures (forall u :: u in w.threads && u != t ==> CountedCalls(w.threads[u]) == 0) ==> SomeNotifier(w)
  {
    ReachableInv(w);
    assert WaiterOk(w, t, w.waiters[t]);
    if forall u :: u in w.threads && u != t ==> CountedCalls(w.threads[u]) == 0 {
      var own := set k | 0 <= k < |ThreadOf(w, t).calls| :: (t, k);
      OwnFrames(t, |ThreadOf(w, t).calls|);
      assert Frames(w) == own;
    }
  }

  // ---- Which bodies run ----

  /** A bound call that was just counted enters its body if and only if its generation is still the current one. */
  lemma CheckIsExact(w: World, t: Tid)
    requires Reachable(w) && Enabled(w, Check(t))
    ensures var w', k := Apply(w, Check(t)), |ThreadOf(w, t).calls| - 1;
            && ThreadOf(w', t).calls == ThreadOf(w, t).calls
            && (InBody(ThreadOf(w', t), k) <==> w.generation == ThreadOf(w, t).calls[k])
            && (ThreadOf(w', t).stage == Returning <==> w.generation > ThreadOf(w, t).calls[k])
  {
    ReachableInv(w);
  }

  /** Whoever runs its own code may invalidate: the generation is raised, and a wait looks for more than its own calls. */
  lemma InvalidateIsExact(w: World, t: Tid)
    requires Free(w, t)
    ensures Apply(w, Invalidate(t)) == w.(generation := w.generation + 1)
    ensures var waiter := Waiter(|ThreadOf(w, t).calls|, w.generation + 1, Loading);
            Apply(w, StartWait(t)) == w.(generation := w.generation + 1, waiters := w.waiters[t := waiter])
  {}

  /** How often the generation was raised. */
  function Bumps(steps: seq<Step>): nat {
    if steps == [] then 0 else (if steps[0].Invalidate? || steps[0].StartWait? then 1 else 0) + Bumps(steps[1..])
  }

  lemma {:induction false} BumpsAlong(w: World, steps: seq<Step>, w': World)
    requires Run(w, steps, w')
    ensures w'.generation == w.generation + Bumps(steps)
    ensures Bumps(steps) == 0 <==> forall i :: 0 <= i < |steps| ==> !steps[i].Invalidate? && !steps[i].StartWait?
    decreases steps
  {
    if steps != [] {
      BumpsAlong(Apply(w, steps[0]), steps[1..], w');
      assert forall i :: 1 <= i < |steps| ==> steps[i] == steps[1..][i - 1];
    }
  }

  /**
   * Over runs: a call bound in `w`, on whichever thread and however much later it is called, enters its
   * body if and only if nobody invalidated between the bind and its check.
   */
  lemma BoundCallRuns(w: World, steps: seq<Step>, w': World, t: Tid)
    requires Run(w, steps, w') && Enabled(w', Check(t)) && Top(ThreadOf(w', t)) == w.generation
    ensures ThreadOf(Apply(w', Check(t)), t).stage == InCode <==>
            forall i :: 0 <= i < |steps| ==> !steps[i].Invalidate? && !steps[i].StartWait?
  {
    BumpsAlong(w, steps, w');
  }

  /** One turn of the wait: it ends exactly when no more calls run than its own; else it sleeps until the count it saw changes. */
  lemma WaitIsExact(w: World, t: Tid)
    requires t in w.waiters
    ensures w.waiters[t].phase == Loading ==>
              var w' := Apply(w, Load(t));
              if w.inside <= w.waiters[t].mine then t !in w'.waiters && w'.done == w.done + {(t, w.waiters[t].bumped)}
              else w'.waiters[t].phase == Comparing(w.inside) && w'.done == w.done
    ensures w.waiters[t].phase.Comparing? ==>
              Apply(w, Wait(t)).waiters[t].phase == if w.inside == w.waiters[t].phase.now then Asleep(w.inside) else Loading
    ensures w.waiters[t].phase.Asleep? ==> Apply(w, WakeUp(t)).waiters[t].phase == Comparing(w.waiters[t].phase.now)
  {}

  /** When only the waiter's own calls are counted, the count is theirs. */
  lemma AloneCount(w: World, t: Tid)
    requires Inv(w) && t in w.waiters
    requires forall u :: u in w.threads && u != t ==> CountedCalls(w.threads[u]) == 0
    ensures w.inside == w.waiters[t].mine
  {
    assert WaiterOk(w, t, w.waiters[t]);
    var own := set k | 0 <= k < |ThreadOf(w, t).calls| :: (t, k);
    OwnFrames(t, |ThreadOf(w, t).calls|);
    assert Frames(w) == own;
  }

  lemma ComparingEnds(w: World, t: Tid) returns (w': World)
    requires t in w.waiters && w.waiters[t].phase.Comparing? && w.inside == w.waiters[t].mine < w.waiters[t].phase.now
    ensures Run(w, [Wait(t), Load(t)], w') && (t, w.waiters[t].bumped) in w'.done
  {
    var w1 := Apply(w, Wait(t));
    w' := Apply(w1, Load(t));
    assert Run(w', [], w') && [Load(t)][1..] == [];
    assert Run(w1, [Load(t)], w') && [Wait(t), Load(t)][1..] == [Load(t)];
  }

  /**
   * Once the others' calls are over the wait can end, wherever it is: it looks again, and asleep it is
   * woken by the notification still to come. At most three steps are taken.
   */
  lemma WaitEnds(w: World, t: Tid) returns (steps: seq<Step>, w': World)
    requires Reachable(w) && t in w.waiters
    requires forall u :: u in w.threads && u != t ==> CountedCalls(w.threads[u]) == 0
    ensures Run(w, steps, w') && |steps| <= 3 && (t, w.waiters[t].bumped) in w'.done
  {
    ReachableInv(w);
    AloneCount(w, t);
    assert WaiterOk(w, t, w.waiters[t]);
    if w.waiters[t].phase == Loading {
      w' := Apply(w, Load(t));
      steps := [Load(t)];
      assert Run(w', [], w') && steps[1..] == [];
    } else if w.waiters[t].phase.Comparing? {
      hide Inv, Run;
      w' := ComparingEnds(w, t);
      steps := [Wait(t), Load(t)];
    } else {
      var u :| u in w.threads && w.threads[u].stage == Notifying;
      assert w.threads[u].calls != [];
      hide Inv;
      var w1 := Apply(w, Notify(u));
      assert w1.inside == w.inside && w1.waiters[t] == Woken(w.waiters[t]);
      w' := ComparingEnds(w1, t);
      steps := [Notify(u)] + [Wait(t), Load(t)];
      assert steps[1..] == [Wait(t), Load(t)];
    }
  }

  /** From `r` the innermost call of the thread is uncounted and notifies, and then the count and the thread are as in `w`. */
  predicate LeavesAs(r: World, t: Tid, w: World) {
    && Enabled(r, Uncount(t)) && Enabled(Apply(r, Uncount(t)), Notify(t))
    && var w' := Apply(Apply(r, Uncount(t)), Notify(t));
       && w'.inside == w.inside && ThreadOf(w', t) == ThreadOf(w, t)
       && w'.waiters.Keys == w.waiters.Keys && forall u :: u in w'.waiters ==> !w'.waiters[u].phase.Asleep?
  }

  lemma Leaves(r: World, t: Tid, w: World)
    requires ThreadOf(r, t).stage == Returning && r.inside == w.inside + 1 && r.waiters == w.waiters
    requires ThreadOf(w, t).stage == InCode && ThreadOf(r, t).calls != []
    requires ThreadOf(r, t).calls[..|ThreadOf(r, t).calls| - 1] == ThreadOf(w, t).calls
    ensures LeavesAs(r, t, w)
  {}

  /** A call, whether its body runs or is skipped, leaves the count and its thread as they were, and every sleeper awake. */
  lemma CallIsBracketed(w: World, t: Tid, snapshot: nat)
    requires Free(w, t) && snapshot <= w.generation
    ensures var counted := Apply(w, Call(t, snapshot));
            && counted.inside == w.inside + 1 && Enabled(counted, Check(t))
            && var checked := Apply(counted, Check(t));
               if w.generation == snapshot then Enabled(checked, Return(t)) && LeavesAs(Apply(checked, Return(t)), t, w)
               else LeavesAs(checked, t, w)
  {
    var calls := ThreadOf(w, t).calls;
    assert (calls + [snapshot])[..|calls|] == calls;
    var checked := Apply(Apply(w, Call(t, snapshot)), Check(t));
    hide LeavesAs;
    Leaves(if w.generation == snapshot then Apply(checked, Return(t)) else checked, t, w);
  }
}
