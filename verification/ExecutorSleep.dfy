/**
 * The thread of a ThreadExecutor (Run in src/ThreadExecutor.cpp) among those who post, schedule,
 * cancel and stop: its waits have no predicate, and every notification comes after the lock was
 * released. `owed` counts those still to come.
 */
module ExecutorSleep {
  import opened Deadlines
  import opened ThreadExecutors

  type TaskId = nat

  datatype Thread = Looking | Running(task: TaskId) | WaitAny | WaitUntil(deadline: int) | Exited

  datatype World = World(exec: Executor<TaskId>, thread: Thread, signalled: bool, owed: nat, clock: int)

  const START := World(Empty(), Looking, false, 0, 0)

  datatype Step =
    // any thread
    | Post(task: TaskId)
    | PostAfter(delay: int, task: TaskId)
    | Cancel(id: TimerId)
    | Stop
    | Notify
    | Tick(clock: int)
    // the executor's thread
    | Look
    | EndTask
    | Wake          // notified, or spurious
    | Timeout

  predicate Asleep(th: Thread) {
    th.WaitAny? || th.WaitUntil?
  }

  predicate Enabled(w: World, s: Step) {
    match s
    case Notify => w.owed > 0
    case Tick(clock) => w.clock <= clock
    case Look => w.thread.Looking?
    case EndTask => w.thread.Running?
    case Wake => Asleep(w.thread)
    case Timeout => w.thread.WaitUntil? && w.thread.deadline <= w.clock
    case _ => true
  }

  /** After a look at the executor as it then is: end, run the next task, or wait. */
  function Looked(w: World): World {
    var e := DueQueued(w.exec, w.clock);
    if w.exec.stopped then w.(thread := Exited)
    else if e.tasks != [] then w.(exec := Popped(e), thread := Running(e.tasks[0]))
    else if e.deadlines == [] then w.(exec := e, thread := WaitAny, signalled := false)
    else w.(exec := e, thread := WaitUntil(e.deadlines[0].0), signalled := false)
  }

  function Apply(w: World, s: Step): World
    requires Enabled(w, s)
  {
    match s
    case Post(task) => w.(exec := Posted(w.exec, task), owed := if w.exec.stopped then w.owed else w.owed + 1)
    case PostAfter(delay, task) =>
      w.(exec := Scheduled(w.exec, w.clock + Clamped(delay), task), owed := if w.exec.stopped then w.owed else w.owed + 1)
    case Cancel(id) => w.(exec := Cancelled(w.exec, id))
    case Stop => w.(exec := Stopped(w.exec), owed := w.owed + 1)
    case Notify => w.(owed := w.owed - 1, signalled := w.signalled || Asleep(w.thread))
    case Tick(clock) => w.(clock := clock)
    case Look => Looked(w)
    case EndTask => w.(thread := Looking)
    case Wake => w.(thread := Looking, signalled := false)
    case Timeout => w.(thread := Looking, signalled := false)
  }

  /** Something to do before the thread would wake by itself. */
  ghost predicate Needed(w: World) {
    || w.exec.stopped || w.exec.tasks != []
    || (w.thread.WaitAny? && w.exec.deadlines != [])
    || (w.thread.WaitUntil? && exists d :: d in w.exec.deadlines && d.0 < w.thread.deadline)
  }

  ghost predicate Inv(w: World) {
    Valid(w.exec) && (Asleep(w.thread) && Needed(w) ==> w.signalled || w.owed > 0)
  }

  lemma LookKeepsInv(w: World)
    requires Inv(w) && w.thread.Looking?
    ensures Inv(Looked(w))
  {
    DueQueuedIsValid(w.exec, w.clock);
    var e := DueQueued(w.exec, w.clock);
    hide DueQueued;
    if e.deadlines != [] {
      FirstComesFirst(e.deadlines);
    }
  }

  lemma StepKeepsInv(w: World, s: Step)
    requires Inv(w) && Enabled(w, s)
    ensures Inv(Apply(w, s))
  {
    if s.Look? {
      LookKeepsInv(w);
    } else if s.PostAfter? {
      ScheduledIsValid(w.exec, w.clock + Clamped(s.delay), s.task);
    }
  }

  ghost predicate Run(w: World, steps: seq<Step>, w': World)
    decreases steps
  {
    if steps == [] then w' == w
    else Enabled(w, steps[0]) && Run(Apply(w, steps[0]), steps[1..], w')
  }

  ghost predicate Reachable(w: World) {
    exists steps :: Run(START, steps, w)
  }

  lemma {:induction false} RunKeepsInv(w: World, steps: seq<Step>, w': World)
    requires Inv(w) && Run(w, steps, w')
    ensures Inv(w')
    decreases steps
  {
    if steps != [] {
      hide Apply, Enabled, Inv;
      StepKeepsInv(w, steps[0]);
      RunKeepsInv(Apply(w, steps[0]), steps[1..], w');
    }
  }

  /**
   * While the executor's thread sleeps and no notification is on its way: it is not stopped, nothing
   * is queued, and every deadline is at the time it wakes or later.
   */
  lemma NeverOversleeps(w: World)
    requires Reachable(w) && Asleep(w.thread) && !w.signalled && w.owed == 0
    ensures !w.exec.stopped && w.exec.tasks == []
    ensures w.thread.WaitAny? ==> w.exec.deadlines == []
    ensures w.thread.WaitUntil? ==> forall d :: d in w.exec.deadlines ==> d.0 >= w.thread.deadline
  {
    var steps :| Run(START, steps, w);
    RunKeepsInv(START, steps, w);
  }
}
