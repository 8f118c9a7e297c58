/**
 * The coordinator's own steps, taken one after the other, lead to the next post and to every timer that
 * is due: nothing that is queued or armed can be left behind by them.
 */
module CoordinatorProgress {
  import opened ByteStrings
  import opened Coordinators
  import opened CoordinatorProtocol
  import opened CoordinatorTurns

  /** The thread runs, and nothing holds it back. */
  predicate Live(w: World) {
    !w.stopped && !w.paused && !w.thread.NotStarted? && !w.thread.Exited?
  }

  /** What the thread does next by itself. A sleeping one wakes up: at its deadline, or as it is notified. */
  function Own(w: World): Step
    requires Live(w)
  {
    match w.thread
    case Top => Loop
    case Draining => Dequeue
    case RunningPost(_) => EndPost
    case Firing => Collect
    case Batch(rest, _) => if rest == [] then Erase else RunTimer
    case RunningTimer(_, _) => EndTimer
    case Deciding(_) => Decide
    case WaitUntil(deadline) => if deadline <= w.clock then Timeout else Recheck
    case _ => Recheck
  }

  /** The world after the thread's next `n` steps. */
  function After(w: World, n: nat): World
    decreases n
  {
    if n == 0 || !Live(w) then w else After(Apply(w, Own(w)), n - 1)
  }

  lemma OwnStepIsLive(w: World)
    requires Live(w)
    ensures Enabled(w, Own(w)) && Live(Apply(w, Own(w)))
    ensures var w' := Apply(w, Own(w));
            && w'.clock == w.clock && w'.oneShots == w.oneShots
            && (w.thread.Draining? || w'.mailbox == w.mailbox)
            && (w.thread.Firing? || w.thread.Batch? || w'.timers == w.timers)
            && (w.thread.Batch? || w'.fired == w.fired)
  {
    hide NextDeadline, InOrder, First, LiveOnly, DueIds;
  }

  lemma {:induction false} FewAreDue(ts: seq<Timer>, now: int)
    ensures |DueIds(ts, now)| <= |ts|
  {
    if ts != [] {
      FewAreDue(ts[..|ts| - 1], now);
    }
  }

  // ---- The next post ----

  /** How far the thread is from its queue. */
  function ToQueue(w: World): nat {
    match w.thread
    case Draining => 0
    case Top => 1
    case RunningPost(_) => 1
    case Batch(rest, _) => 3 + 2 * |rest|
    case RunningTimer(rest, _) => 4 + 2 * |rest|
    case Firing => 5 + 2 * |w.timers|
    case _ => 2
  }

  lemma NearerToQueue(w: World)
    requires Live(w) && HasWork(w) && !w.thread.Draining?
    ensures Live(Apply(w, Own(w))) && Apply(w, Own(w)).mailbox == w.mailbox
    ensures ToQueue(Apply(w, Own(w))) < ToQueue(w)
  {
    OwnStepIsLive(w);
    FewAreDue(w.timers, w.clock);
    hide NextDeadline, InOrder, First, LiveOnly, DueIds;
  }

  /** From wherever the thread is, its own steps lead to the post that is first in lane order. */
  lemma {:induction false} NextPostRuns(w: World) returns (n: nat)
    requires Live(w) && HasWork(w)
    ensures After(w, n).thread == RunningPost((w.mailbox.critical + w.mailbox.normal + w.mailbox.background)[0])
    ensures n <= ToQueue(w) + 1
    decreases ToQueue(w)
  {
    OwnStepIsLive(w);
    if w.thread.Draining? {
      PostsStayInOrder(w, Dequeue);
      hide First, InOrder;
      assert After(w, 1) == After(Apply(w, Own(w)), 0);
      n := 1;
    } else {
      NearerToQueue(w);
      hide Apply;
      n := NextPostRuns(Apply(w, Own(w)));
      n := n + 1;
    }
  }

  // ---- A timer that is due ----

  function Queued(w: World): nat {
    |InOrder(w.mailbox)|
  }

  /** How far the thread is from collecting. */
  function ToCollect(w: World): nat {
    match w.thread
    case Firing => 0
    case Draining => 1 + 2 * Queued(w)
    case RunningPost(_) => 2 + 2 * Queued(w)
    case Top => 3 + 2 * Queued(w)
    case Deciding(_) => 5 + 2 * Queued(w)
    case Batch(rest, _) => 6 + 2 * Queued(w) + 2 * |rest|
    case RunningTimer(rest, _) => 7 + 2 * Queued(w) + 2 * |rest|
    case _ => 4 + 2 * Queued(w)
  }

  /** Armed and due. */
  predicate IsDue(w: World, t: Timer) {
    t in w.timers && !t.cancelled && t.nextFire <= w.clock
  }

  lemma NearerToCollect(w: World, t: Timer)
    requires Live(w) && IsDue(w, t) && !w.thread.Firing?
    ensures Live(Apply(w, Own(w))) && ToCollect(Apply(w, Own(w))) < ToCollect(w)
  {
    OwnStepIsLive(w);
    if w.thread.Draining? {
      if HasWork(w) {
        FirstIsNext(w.mailbox);
      }
    } else if w.thread.Deciding? || Asleep(w.thread) {
      hide InOrder, First, LiveOnly, DueIds;
    } else {
      hide NextDeadline, First, LiveOnly, DueIds;
    }
  }

  lemma StaysDue(w: World, t: Timer)
    requires Live(w) && IsDue(w, t) && !w.thread.Firing?
    ensures Enabled(w, Own(w)) && IsDue(Apply(w, Own(w)), t)
    ensures multiset(w.fired)[t.id] <= multiset(Apply(w, Own(w)).fired)[t.id]
  {
    OwnStepIsLive(w);
    KeptAreLive(w.timers);
    hide NextDeadline, InOrder, First, LiveOnly, DueIds;
  }

  /** A batch is run to its end. */
  lemma {:induction false} BatchRuns(w: World, id: TimerId) returns (n: nat)
    requires Live(w) && id in ToRun(w.thread)
    ensures multiset(After(w, n).fired)[id] > multiset(w.fired)[id]
    ensures n <= 2 * |ToRun(w.thread)| - if w.thread.Batch? then 1 else 0
    decreases |ToRun(w.thread)|, w.thread.RunningTimer?
  {
    OwnStepIsLive(w);
    var w' := Apply(w, Own(w));
    if w.thread.Batch? && w.thread.rest[0] == id {
      assert After(w, 1) == After(w', 0);
      n := 1;
    } else {
      assert id in ToRun(w'.thread) && multiset(w'.fired)[id] >= multiset(w.fired)[id];
      hide Apply;
      n := BatchRuns(w', id);
      n := n + 1;
    }
  }

  /** From wherever the thread is, its own steps lead to a turn of every timer that is due. */
  lemma {:induction false} DueTimerRuns(w: World, t: Timer) returns (n: nat)
    requires Live(w) && IsDue(w, t)
    ensures multiset(After(w, n).fired)[t.id] > multiset(w.fired)[t.id]
    decreases ToCollect(w)
  {
    OwnStepIsLive(w);
    var w' := Apply(w, Own(w));
    if w.thread.Firing? {
      CollectStep(w, t);
      hide Apply;
      n := BatchRuns(w', t.id);
    } else {
      NearerToCollect(w, t);
      StaysDue(w, t);
      hide Apply;
      n := DueTimerRuns(w', t);
    }
    n := n + 1;
  }

  // ---- Nothing to do ----

  /** Nothing is posted, and no armed timer is due by then. */
  ghost predicate Idle(w: World, now: int) {
    !w.stopped && InOrder(w.mailbox) == [] && forall t :: t in w.timers && !t.cancelled ==> t.nextFire > now
  }

  /**
   * With nothing to do the thread sleeps: until a timer is there, or until the earliest one is due. It
   * never does while something is to be done.
   */
  lemma DecideIsExact(w: World)
    requires w.thread.Deciding? && !w.stopped
    ensures var th := Apply(w, Decide).thread;
            && (Asleep(th) <==> Idle(w, w.thread.now))
            && (th.WaitAny? ==> forall t :: t in w.timers ==> t.cancelled)
            && (th.WaitUntil? ==>
                  && (exists t :: t in w.timers && !t.cancelled && t.nextFire == th.deadline)
                  && (forall t :: t in w.timers && !t.cancelled ==> th.deadline <= t.nextFire))
            && (!Asleep(th) ==> th == Top)
  {
    hide InOrder;
  }

  /** A paused thread sleeps, and otherwise it goes for its posts; a stopped one ends. */
  lemma LoopIsExact(w: World)
    requires w.thread.Top?
    ensures Apply(w, Loop).thread == if w.stopped then Exited else if w.paused then PausedWait else Draining
  {}

  // ---- Pausing, notifying, stopping and starting again ----

  /** Only Pause and Resume decide whether it is paused, and only Shutdown and the join whether it is stopped. */
  lemma ControlSteps(w: World, s: Step)
    requires Enabled(w, s)
    ensures Apply(w, s).paused == (if s.Pause? then true else if s.Resume? then false else w.paused)
    ensures Apply(w, s).stopped == (if s.Shutdown? then true else if s.Joined? then false else w.stopped)
    ensures s.Start? ==> Apply(w, s).thread == Top
  {
    hide NextDeadline, InOrder, First, LiveOnly, DueIds, AllSpent, WithCancelled;
  }

  /** Asleep although what it waits for is there, the thread has been signalled or the next notification signals it. */
  lemma SleeperIsSignalled(w: World)
    requires Reachable(w) && Asleep(w.thread) && Awaited(w)
    ensures w.signalled || (Enabled(w, Notify) && Apply(w, Notify).signalled && Apply(w, Notify).owed == w.owed - 1)
    ensures Apply(w, Recheck).thread == Top
  {
    ReachableInv(w);
  }

  /** A started coordinator can be shut down once: nothing stays queued or armed. */
  lemma ShutdownIsExact(w: World, clock: int)
    requires !w.thread.NotStarted? && !w.stopped
    ensures var w' := Apply(w, Shutdown);
            && w'.stopped && w'.mailbox == EMPTY && |w'.timers| == |w.timers| && !Enabled(w', Shutdown)
            && forall i :: 0 <= i < |w.timers| ==> w'.timers[i] == w.timers[i].(cancelled := true)
    ensures clock >= w.clock ==> Apply(w, Tick(clock)) == w.(clock := clock)
  {}

  /** What a stop leaves behind: empty lanes and no armed timer. */
  predicate StoppedClean(w: World) {
    w.stopped ==> w.mailbox == EMPTY && forall i :: 0 <= i < |w.timers| ==> w.timers[i].cancelled
  }

  lemma StepKeepsClean(w: World, s: Step)
    requires StoppedClean(w) && Enabled(w, s)
    ensures StoppedClean(Apply(w, s))
  {
    if s.Cancel? {
      CancelDelays(w.timers, s.id);
    } else if s.Erase? {
      NoneKept(w.timers);
    }
    hide NextDeadline, LiveOnly, DueIds, WithCancelled;
  }

  lemma NoneKept(ts: seq<Timer>)
    ensures (forall i :: 0 <= i < |ts| ==> ts[i].cancelled) ==> LiveOnly(ts) == []
  {
    KeptAreLive(ts);
    assert LiveOnly(ts) != [] ==> LiveOnly(ts)[0] in LiveOnly(ts);
  }

  lemma {:induction false} CleanAlong(w: World, steps: seq<Step>, w': World)
    requires StoppedClean(w) && CoordinatorProtocol.Run(w, steps, w')
    ensures StoppedClean(w')
    decreases steps
  {
    if steps != [] {
      StepKeepsClean(w, steps[0]);
      hide Apply, Enabled, StoppedClean;
      CleanAlong(Apply(w, steps[0]), steps[1..], w');
    }
  }

  /** After the join the coordinator is as it was before it was ever started: it may be started again. */
  lemma JoinedIsFresh(w: World)
    requires Reachable(w) && w.thread.Exited? && w.stopped
    ensures var w' := Apply(w, Joined);
            && w'.mailbox == EMPTY && w'.timers == [] && !w'.stopped && w'.thread == NotStarted && w'.next == w.next
            && Enabled(w', Start)
  {
    var steps :| CoordinatorProtocol.Run(START, steps, w);
    CleanAlong(START, steps, w);
  }
}
