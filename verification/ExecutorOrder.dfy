/**
 * What the thread of a ThreadExecutor runs next, and what becomes of everything posted or scheduled,
 * over all interleavings of ExecutorSleep.
 */
module ExecutorOrder {
  import opened ByteStrings
  import opened Deadlines
  import opened ThreadExecutors
  import opened ExecutorSleep

  lemma ReachableIsValid(w: World)
    requires Reachable(w)
    ensures Valid(w.exec)
  {
    var steps :| ExecutorSleep.Run(START, steps, w);
    RunKeepsInv(START, steps, w);
  }

  // ---- What is due ----

  /** The tasks of all live timers due by `now`, in the order of their deadlines. */
  function Selected<T>(ds: seq<Deadline>, timers: map<TimerId, T>, now: int): seq<T> {
    if ds == [] then []
    else
      var last := ds[|ds| - 1];
      Selected(ds[..|ds| - 1], timers, now) + if last.0 <= now && last.1 in timers then [timers[last.1]] else []
  }

  lemma {:induction false} SelectedFirst<T>(ds: seq<Deadline>, timers: map<TimerId, T>, now: int)
    requires ds != []
    ensures Selected(ds, timers, now) ==
            (if ds[0].0 <= now && ds[0].1 in timers then [timers[ds[0].1]] else []) + Selected(ds[1..], timers, now)
  {
    if |ds| > 1 {
      var init := ds[..|ds| - 1];
      SelectedFirst(init, timers, now);
      assert init[1..] == ds[1..][..|ds| - 2];
    }
  }

  lemma {:induction false} NoneSelected<T>(ds: seq<Deadline>, timers: map<TimerId, T>, now: int)
    requires forall d :: d in ds ==> d.0 > now
    ensures Selected(ds, timers, now) == []
  {
    if ds != [] {
      NoneSelected(ds[..|ds| - 1], timers, now);
    }
  }

  /** In an ordered set the loop, which stops at the first entry that is not due, takes exactly these. */
  lemma {:induction false} DueAreSelected<T>(ds: seq<Deadline>, timers: map<TimerId, T>, now: int)
    requires Sorted(ds)
    ensures LiveTasks(Due(ds, now), timers) == Selected(ds, timers, now)
  {
    if ds != [] {
      FirstComesFirst(ds);
      if ds[0].0 <= now {
        SelectedFirst(ds, timers, now);
        DueAreSelected(ds[1..], timers, now);
        assert Due(ds, now)[1..] == Due(ds[1..], now);
      } else {
        NoneSelected(ds, timers, now);
      }
    }
  }

  // ---- One look of the thread ----

  /** What joins the queue when the thread looks. */
  function Ready(w: World): seq<TaskId> {
    w.exec.tasks + Selected(w.exec.deadlines, w.exec.timers, w.clock)
  }

  /**
   * A look ends the thread exactly when the executor is stopped, else runs the front of the queue,
   * which the due timers have joined, and waits exactly when nothing is there: until the next deadline, if any.
   */
  lemma LookIsExact(w: World)
    requires Reachable(w) && Enabled(w, Look)
    ensures var w' := Apply(w, Look);
            if w.exec.stopped then w'.thread == Exited && w'.exec == w.exec
            else if Ready(w) != [] then w'.thread == Running(Ready(w)[0]) && w'.exec.tasks == Ready(w)[1..]
            else
              && w'.exec.tasks == []
              && (w'.thread == WaitAny || w'.thread.WaitUntil?)
              && (w'.thread == WaitAny <==> forall d :: d in w.exec.deadlines ==> d.0 <= w.clock)
              && (w'.thread.WaitUntil? ==>
                    && w'.thread.deadline > w.clock
                    && (forall d :: d in w.exec.deadlines && d.0 > w.clock ==> w'.thread.deadline <= d.0))
  {
    ReachableIsValid(w);
    DueAreSelected(w.exec.deadlines, w.exec.timers, w.clock);
    WhatIsLater(w.exec.deadlines, w.clock);
    hide Due, NotDue, LiveTasks, Sorted, Ids, Selected, Reachable, Valid;
  }

  /** What is not due: nothing when all is due, else the earliest later deadline comes first. */
  lemma WhatIsLater(ds: seq<Deadline>, now: int)
    requires Sorted(ds)
    ensures var later := NotDue(ds, now);
            && (later == [] <==> forall d :: d in ds ==> d.0 <= now)
            && (later != [] ==> later[0].0 > now && forall d :: d in ds && d.0 > now ==> later[0].0 <= d.0)
  {
    DueSplits(ds, now);
    NotDueIsLater(ds, now);
    var due, later := Due(ds, now), NotDue(ds, now);
    assert forall d :: d in ds <==> d in due || d in later;
    if later != [] {
      assert later[0] in later;
      FirstComesFirst(later);
    }
    hide Due, NotDue, Sorted, Ids;
  }

  // ---- Over runs ----

  /** What a step puts into the queue, at the back ... */
  function Joins(w: World, s: Step): seq<TaskId> {
    if w.exec.stopped then []
    else if s.Post? then [s.task]
    else if s.Look? then Selected(w.exec.deadlines, w.exec.timers, w.clock)
    else []
  }

  /** ... and what the thread begins to run by it. */
  function Begins(s: Step, w': World): seq<TaskId> {
    if s.Look? && w'.thread.Running? then [w'.thread.task] else []
  }

  lemma StepIsFifo(w: World, s: Step)
    requires Reachable(w) && Enabled(w, s) && !s.Stop?
    ensures Begins(s, Apply(w, s)) + Apply(w, s).exec.tasks == w.exec.tasks + Joins(w, s)
  {
    if s.Look? {
      LookIsExact(w);
      hide Apply, Selected;
      ReachableIsValid(w);
    }
  }

  ghost function AllJoined(w: World, steps: seq<Step>): seq<TaskId>
    decreases steps
  {
    if steps == [] || !Enabled(w, steps[0]) then []
    else Joins(w, steps[0]) + AllJoined(Apply(w, steps[0]), steps[1..])
  }

  ghost function AllBegun(w: World, steps: seq<Step>): seq<TaskId>
    decreases steps
  {
    if steps == [] || !Enabled(w, steps[0]) then []
    else Begins(steps[0], Apply(w, steps[0])) + AllBegun(Apply(w, steps[0]), steps[1..])
  }

  lemma NextReachable(w: World, s: Step)
    requires Reachable(w) && Enabled(w, s)
    ensures Reachable(Apply(w, s))
  {
    hide Apply, Enabled;
    var steps :| ExecutorSleep.Run(START, steps, w);
    RunOn(START, steps, w, s);
  }

  lemma {:induction false} RunOn(w: World, steps: seq<Step>, w': World, s: Step)
    requires ExecutorSleep.Run(w, steps, w') && Enabled(w', s)
    ensures ExecutorSleep.Run(w, steps + [s], Apply(w', s))
    decreases steps
  {
    hide Apply, Enabled;
    if steps == [] {
      assert ExecutorSleep.Run(Apply(w', s), [], Apply(w', s));
      assert ([] + [s])[1..] == [];
    } else {
      assert (steps + [s])[1..] == steps[1..] + [s];
      RunOn(Apply(w, steps[0]), steps[1..], w', s);
    }
  }

  /** Until Stop: what began and what is still queued is what was queued and what joined, in that order. */
  lemma {:induction false} QueueIsFifo(w: World, steps: seq<Step>, w': World)
    requires Reachable(w) && ExecutorSleep.Run(w, steps, w') && forall i :: 0 <= i < |steps| ==> !steps[i].Stop?
    ensures AllBegun(w, steps) + w'.exec.tasks == w.exec.tasks + AllJoined(w, steps)
    decreases steps
  {
    if steps == [] {
      assert [] + w.exec.tasks == w.exec.tasks + [];
    } else {
      var next := Apply(w, steps[0]);
      StepIsFifo(w, steps[0]);
      NextReachable(w, steps[0]);
      hide Apply, Enabled, Joins, Begins, Reachable;
      QueueIsFifo(next, steps[1..], w');
      Chain(Begins(steps[0], next), AllBegun(next, steps[1..]), w'.exec.tasks, next.exec.tasks,
            AllJoined(next, steps[1..]), w.exec.tasks, Joins(w, steps[0]));
    }
  }

  lemma Chain<T>(a: seq<T>, b: seq<T>, c: seq<T>, d: seq<T>, e: seq<T>, f: seq<T>, g: seq<T>)
    requires b + c == d + e && a + d == f + g
    ensures a + b + c == f + (g + e)
  {
    Assoc(a, b, c);
    Assoc(a, d, e);
    Assoc(f, g, e);
  }

  // ---- Timers ----

  /** A timer set for `delay` from now is live, with its entry at that time (a negative delay is none). */
  lemma ScheduledAt(w: World, delay: int, task: TaskId)
    requires !w.exec.stopped
    ensures var e := Apply(w, PostAfter(delay, task)).exec;
            && (if delay < 0 then w.clock else w.clock + delay, w.exec.next) in e.deadlines
            && e.timers == w.exec.timers[w.exec.next := task] && e.next == w.exec.next + 1
  {}

  /**
   * A live timer stays with its entry until it is cancelled, the executor is stopped, or a look at or
   * after its deadline: then it runs or is queued. That look takes it out, so it is run once.
   */
  lemma LiveTimerStays(w: World, s: Step, d: Deadline)
    requires Reachable(w) && Enabled(w, s) && d in w.exec.deadlines && d.1 in w.exec.timers
    ensures var w', task := Apply(w, s), w.exec.timers[d.1];
            if s == Cancel(d.1) || s.Stop? then d.1 !in w'.exec.timers
            else if s.Look? && !w.exec.stopped && d.0 <= w.clock then
              task in Begins(s, w') + w'.exec.tasks && d.1 !in w'.exec.timers
            else d in w'.exec.deadlines && d.1 in w'.exec.timers && w'.exec.timers[d.1] == task
  {
    ReachableIsValid(w);
    if s.Look? {
      QueuedWhenDue(w.exec.deadlines, w.exec.timers, w.clock, d);
      hide Due, NotDue, LiveTasks, Sorted, Ids;
      var tasks := DueQueued(w.exec, w.clock).tasks;
      assert tasks != [] ==> tasks == [tasks[0]] + tasks[1..];
    } else if s.PostAfter? {
      hide Sorted;
    }
  }

  // ---- Nothing is left behind ----

  /** The thread runs, and has not been told to stop. */
  predicate Going(w: World) {
    !w.exec.stopped && !w.thread.Exited?
  }

  /** What the thread does next by itself; a sleeping one wakes up. */
  function Own(w: World): Step
    requires Going(w)
  {
    match w.thread
    case Looking => Look
    case Running(_) => EndTask
    case _ => Wake
  }

  /** The world after the thread's next `n` steps. */
  function After(w: World, n: nat): World
    decreases n
  {
    if n == 0 || !Going(w) then w else After(Apply(w, Own(w)), n - 1)
  }

  lemma OwnStep(w: World)
    requires Reachable(w) && Going(w)
    ensures Enabled(w, Own(w)) && Going(Apply(w, Own(w))) && Reachable(Apply(w, Own(w)))
    ensures !w.thread.Looking? ==>
              Apply(w, Own(w)).thread.Looking? && Apply(w, Own(w)).exec == w.exec && Apply(w, Own(w)).clock == w.clock
  {
    NextReachable(w, Own(w));
    hide Reachable, DueQueued;
  }

  /** From wherever the thread is, its own steps lead to every task that is queued. */
  lemma {:induction false} QueuedTaskRuns(w: World, k: nat) returns (n: nat)
    requires Reachable(w) && Going(w) && k < |w.exec.tasks|
    ensures After(w, n).thread == Running(w.exec.tasks[k]) && n <= 2 * k + if w.thread.Looking? then 1 else 2
    decreases k, !w.thread.Looking?
  {
    OwnStep(w);
    var w' := Apply(w, Own(w));
    if w.thread.Looking? {
      LookIsExact(w);
      assert Ready(w)[k] == w.exec.tasks[k];
      hide Apply, Reachable, Selected;
      if k == 0 {
        assert After(w, 1) == After(w', 0);
        n := 1;
      } else {
        n := QueuedTaskRuns(w', k - 1);
        n := n + 1;
      }
    } else {
      hide Apply, Reachable;
      n := QueuedTaskRuns(w', k);
      n := n + 1;
    }
  }

  /** And to every live timer that is due. */
  lemma {:induction false} DueTimerRuns(w: World, d: Deadline) returns (n: nat)
    requires Reachable(w) && Going(w) && d in w.exec.deadlines && d.1 in w.exec.timers && d.0 <= w.clock
    ensures After(w, n).thread == Running(w.exec.timers[d.1])
    decreases !w.thread.Looking?
  {
    OwnStep(w);
    var w', task := Apply(w, Own(w)), w.exec.timers[d.1];
    if w.thread.Looking? {
      LiveTimerStays(w, Look, d);
      hide Apply, Reachable;
      if task in Begins(Look, w') {
        assert After(w, 1) == After(w', 0);
        n := 1;
      } else {
        var k :| 0 <= k < |w'.exec.tasks| && w'.exec.tasks[k] == task;
        n := QueuedTaskRuns(w', k);
        n := n + 1;
      }
    } else {
      hide Apply, Reachable;
      n := DueTimerRuns(w', d);
      n := n + 1;
    }
  }

  /** Asleep with something to do, the thread has been signalled or the next notification signals it; then it looks again. */
  lemma SleeperIsSignalled(w: World)
    requires Reachable(w) && Asleep(w.thread) && Needed(w)
    ensures w.signalled || (Enabled(w, Notify) && Apply(w, Notify).signalled && Apply(w, Notify).owed == w.owed - 1)
    ensures Apply(w, Wake).thread == Looking
  {
    var steps :| ExecutorSleep.Run(START, steps, w);
    RunKeepsInv(START, steps, w);
    hide Valid;
  }

  /** By itself it looks again when the clock comes to its deadline, and not before. */
  lemma SleeperTimesOut(w: World, clock: int)
    requires w.thread.WaitUntil? && w.clock <= clock
    ensures Apply(w, Tick(clock)) == w.(clock := clock)
    ensures Enabled(Apply(w, Tick(clock)), Timeout) <==> w.thread.deadline <= clock
    ensures w.thread.deadline <= w.clock ==> Apply(w, Timeout).thread == Looking
  {}
}
