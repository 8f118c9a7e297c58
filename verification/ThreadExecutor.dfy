/**
 * The state of ThreadExecutor (src/ThreadExecutor.cpp): every block under its lock, and the
 * Rendezvous and Ticket of SerialExecutor::RunAndWait (src/SerialExecutor.cpp).
 */
module ThreadExecutors {
  import opened ByteStrings
  import opened Deadlines
  import opened RunAndWaitProtocol

  // ---- Which timers are due ----

  function Due(ds: seq<Deadline>, now: int): seq<Deadline> {
    if ds == [] || ds[0].0 > now then [] else [ds[0]] + Due(ds[1..], now)
  }

  function NotDue(ds: seq<Deadline>, now: int): seq<Deadline> {
    if ds == [] || ds[0].0 > now then ds else NotDue(ds[1..], now)
  }

  /** The tasks of the timers that were not cancelled, in order. */
  function LiveTasks<T>(ds: seq<Deadline>, timers: map<TimerId, T>): seq<T> {
    if ds == [] then []
    else (if ds[0].1 in timers then [timers[ds[0].1]] else []) + LiveTasks(ds[1..], timers)
  }

  /** The set is cut in two: everything due, then everything later; and each id is in one half only. */
  lemma {:induction false} DueSplits(ds: seq<Deadline>, now: int)
    requires Sorted(ds)
    ensures ds == Due(ds, now) + NotDue(ds, now)
    ensures forall d :: d in Due(ds, now) ==> d.0 <= now
    ensures Ids(ds) == Ids(Due(ds, now)) + Ids(NotDue(ds, now)) && Ids(Due(ds, now)) !! Ids(NotDue(ds, now))
  {
    if ds != [] && ds[0].0 <= now {
      DueSplits(ds[1..], now);
      FirstComesFirst(ds);
      IdsOf(ds[1..], ds[0].1);
      hide Sorted;
      Assoc([ds[0]], Due(ds[1..], now), NotDue(ds[1..], now));
      assert ds == [ds[0]] + ds[1..];
      assert Due(ds, now)[1..] == Due(ds[1..], now);
    }
  }

  lemma {:induction false} NotDueIsLater(ds: seq<Deadline>, now: int)
    requires Sorted(ds)
    ensures Sorted(NotDue(ds, now)) && forall d :: d in NotDue(ds, now) ==> d.0 > now
  {
    if ds != [] {
      FirstComesFirst(ds);
      NotDueIsLater(ds[1..], now);
    }
  }

  lemma {:induction false} IdsOf(ds: seq<Deadline>, id: TimerId)
    requires forall d :: d in ds ==> d.1 != id
    ensures id !in Ids(ds)
  {
    if ds != [] {
      assert ds[0] in ds;
      IdsOf(ds[1..], id);
    }
  }

  lemma {:induction false} LiveWithout<T>(ds: seq<Deadline>, timers: map<TimerId, T>, id: TimerId)
    requires forall d :: d in ds ==> d.1 != id
    ensures LiveTasks(ds, timers - {id}) == LiveTasks(ds, timers)
  {
    if ds != [] {
      assert ds[0] in ds;
      LiveWithout(ds[1..], timers, id);
    }
  }

  lemma {:induction false} DueAreIn(ds: seq<Deadline>, now: int)
    ensures forall d :: d in Due(ds, now) ==> d in ds
  {
    if ds != [] && ds[0].0 <= now {
      DueAreIn(ds[1..], now);
    }
  }

  /** One turn of the loop: the first entry is due; its timer, if live, goes to the queue. */
  lemma FirstDue<T>(ds: seq<Deadline>, timers: map<TimerId, T>, now: int, tasks: seq<T>)
    requires Sorted(ds) && ds != [] && ds[0].0 <= now
    ensures var id := ds[0].1;
            var tasks' := if id in timers then tasks + [timers[id]] else tasks;
            && tasks' + LiveTasks(Due(ds[1..], now), timers - {id}) == tasks + LiveTasks(Due(ds, now), timers)
            && timers - {id} - Ids(Due(ds[1..], now)) == timers - Ids(Due(ds, now))
  {
    var id := ds[0].1;
    FirstComesFirst(ds);
    DueAreIn(ds[1..], now);
    LiveWithout(Due(ds[1..], now), timers, id);
    assert Due(ds, now)[1..] == Due(ds[1..], now);
    if id in timers {
      Assoc(tasks, [timers[id]], LiveTasks(Due(ds[1..], now), timers));
    } else {
      assert [] + LiveTasks(Due(ds[1..], now), timers) == LiveTasks(Due(ds[1..], now), timers);
    }
  }

  // ---- The executor's state, and what each block does to it ----

  datatype Executor<T> = Executor(tasks: seq<T>, deadlines: seq<Deadline>, timers: map<TimerId, T>, next: TimerId, stopped: bool)

  function Empty<T>(): Executor<T> {
    Executor([], [], map[], 1, false)
  }

  /** The deadlines are in order, every live timer has one, and a stopped executor holds nothing. */
  ghost predicate Valid<T>(e: Executor<T>) {
    && Sorted(e.deadlines) && 0 < e.next
    && (forall d :: d in e.deadlines ==> 0 < d.1 < e.next)
    && e.timers.Keys <= Ids(e.deadlines)
    && (e.stopped ==> e.tasks == [] && e.deadlines == [])
  }

  function Posted<T>(e: Executor<T>, task: T): Executor<T> {
    if e.stopped then e else e.(tasks := e.tasks + [task])
  }

  function Scheduled<T>(e: Executor<T>, due: int, task: T): Executor<T> {
    if e.stopped then e
    else e.(deadlines := Insert(e.deadlines, (due, e.next)), timers := e.timers[e.next := task], next := e.next + 1)
  }

  function Cancelled<T>(e: Executor<T>, id: TimerId): Executor<T> {
    e.(timers := e.timers - {id})
  }

  /** Every live timer due by `now` joins the queue, earliest first; the others stay. */
  function DueQueued<T>(e: Executor<T>, now: int): Executor<T> {
    e.(tasks := e.tasks + LiveTasks(Due(e.deadlines, now), e.timers),
       deadlines := NotDue(e.deadlines, now),
       timers := e.timers - Ids(Due(e.deadlines, now)))
  }

  function Popped<T>(e: Executor<T>): Executor<T> {
    if e.tasks == [] then e else e.(tasks := e.tasks[1..])
  }

  function Stopped<T>(e: Executor<T>): Executor<T> {
    e.(tasks := [], deadlines := [], timers := map[], stopped := true)
  }

  lemma ScheduledIsValid<T>(e: Executor<T>, due: int, task: T)
    requires Valid(e)
    ensures Valid(Scheduled(e, due, task))
  {
    Inserted(e.deadlines, (due, e.next));
    hide Sorted, Ids, Insert;
  }

  lemma DueQueuedIsValid<T>(e: Executor<T>, now: int)
    requires Valid(e)
    ensures Valid(DueQueued(e, now))
  {
    DueSplits(e.deadlines, now);
    NotDueIsLater(e.deadlines, now);
    hide Sorted;
    assert forall d :: d in NotDue(e.deadlines, now) ==> d in e.deadlines;
  }

  /** The loop takes the first entry at a time. */
  lemma FirstDueQueued<T>(e: Executor<T>, now: int)
    requires Sorted(e.deadlines) && e.deadlines != [] && e.deadlines[0].0 <= now
    ensures Sorted(e.deadlines[1..])
    ensures var id := e.deadlines[0].1;
            var tasks := if id in e.timers then e.tasks + [e.timers[id]] else e.tasks;
            DueQueued(e.(tasks := tasks, deadlines := e.deadlines[1..], timers := e.timers - {id}), now) == DueQueued(e, now)
  {
    FirstDue(e.deadlines, e.timers, now, e.tasks);
  }

  lemma NothingDue<T>(e: Executor<T>, now: int)
    requires e.deadlines == [] || e.deadlines[0].0 > now
    ensures DueQueued(e, now) == e
  {
    assert e.tasks + [] == e.tasks && e.timers - {} == e.timers;
  }

  class ThreadExecutor<T(==)> {
    var tasks: seq<T>
    var deadlines: seq<Deadline>
    var timers: map<TimerId, T>
    var nextTimer: TimerId
    var stopped: bool

    ghost function View(): Executor<T>
      reads this
    {
      Executor(tasks, deadlines, timers, nextTimer, stopped)
    }

    constructor ()
      ensures View() == Empty()
    {
      tasks, deadlines, timers, nextTimer, stopped := [], [], map[], 1, false;
    }

    method Post(task: T)
      modifies this`tasks
      ensures tasks == if stopped then old(tasks) else old(tasks) + [task]
      ensures View() == Posted(old(View()), task)
    {
      if stopped {
        return;
      }
      tasks := tasks + [task];
    }

    method PostAfter(delay: int, task: T, now: int) returns (id: TimerId)
      requires Valid(View())
      modifies this`deadlines, this`timers, this`nextTimer
      ensures Valid(View()) && View() == Scheduled(old(View()), if delay < 0 then now else now + delay, task)
      ensures !stopped ==> (if delay < 0 then now else now + delay, id) in deadlines && timers == old(timers)[id := task]
      ensures id == if stopped then 0 else old(nextTimer)
      ensures id == 0 <==> stopped
    {
      ScheduledIsValid(View(), now + Clamped(delay), task);
      hide Sorted, Ids, Insert;
      if stopped {
        return 0;
      }
      id := nextTimer;
      nextTimer := nextTimer + 1;
      deadlines := Insert(deadlines, (now + Clamped(delay), id));
      timers := timers[id := task];
    }

    method CancelTimer(id: TimerId)
      modifies this`timers
      ensures View() == Cancelled(old(View()), id)
    {
      if id in timers {
        timers := timers - {id};
      }
    }

    method QueueDueTimersLocked(now: int)
      requires Valid(View())
      modifies this`tasks, this`deadlines, this`timers
      ensures Valid(View()) && View() == DueQueued(old(View()), now)
    {
      DueQueuedIsValid(View(), now);
      while deadlines != [] && deadlines[0].0 <= now
        invariant Sorted(deadlines) && DueQueued(View(), now) == DueQueued(old(View()), now)
        decreases |deadlines|
      {
        hide DueQueued;
        FirstDueQueued(View(), now);
        ghost var before := timers;
        var id := deadlines[0].1;
        deadlines := deadlines[1..];
        if id in timers {
          tasks := tasks + [timers[id]];
          timers := timers - {id};
        }
        assert timers == before - {id};
      }
      NothingDue(View(), now);
    }

    /** What Stop takes out of the executor, to be destroyed once its thread has ended. */
    method Stop() returns (dropped: seq<T>, droppedTimers: map<TimerId, T>)
      modifies this
      ensures View() == Stopped(old(View()))
      ensures dropped == old(tasks) && droppedTimers == old(timers)
    {
      stopped := true;
      dropped, tasks := tasks, [];
      droppedTimers, timers := timers, map[];
      deadlines := [];
    }

    /** One look of the thread under the lock: the next task, or None when it ends or waits. */
    method TakeNext(now: int) returns (task: Option<T>)
      requires Valid(View())
      modifies this`tasks, this`deadlines, this`timers
      ensures stopped ==> task.None? && View() == old(View())
      ensures !stopped ==>
                var e := DueQueued(old(View()), now);
                && View() == Popped(e)
                && task == (if e.tasks == [] then None else Some(e.tasks[0]))
    {
      if stopped {
        return None;
      }
      QueueDueTimersLocked(now);
      if tasks == [] {
        return None;
      }
      task := Some(tasks[0]);
      tasks := tasks[1..];
    }

    /** Until when it waits then; None is for ever. */
    method WaitUntil() returns (until: Option<int>)
      ensures until == if deadlines == [] then None else Some(deadlines[0].0)
    {
      until := if deadlines == [] then None else Some(deadlines[0].0);
    }
  }

  /** A live timer is queued by the first look at or after its deadline, and not before. */
  lemma {:induction false} QueuedWhenDue<T>(ds: seq<Deadline>, timers: map<TimerId, T>, now: int, d: Deadline)
    requires Sorted(ds) && d in ds && d.1 in timers
    ensures d.0 <= now ==> timers[d.1] in LiveTasks(Due(ds, now), timers) && d.1 in Ids(Due(ds, now))
    ensures d.0 > now ==> d in NotDue(ds, now) && d.1 in timers - Ids(Due(ds, now))
  {
    FirstComesFirst(ds);
    if d == ds[0] {
      if d.0 > now {
        assert Due(ds, now) == [];
      }
    } else {
      QueuedWhenDue(ds[1..], timers, now, d);
    }
  }

  /** Where a RunAndWait caller waits. */
  class Rendezvous {
    var outcome: Outcome

    constructor ()
      ensures outcome == Unsettled
    {
      outcome := Unsettled;
    }

    method Settle(o: Outcome)
      modifies this
      ensures outcome == if old(outcome) == Unsettled then o else old(outcome)
      ensures outcome == FirstOutcome(old(outcome), o)
    {
      if outcome != Unsettled {
        return;
      }
      outcome := o;
    }
  }

  /** Travels in the posted closure. */
  class Ticket {
    const rendezvous: Rendezvous
    var ran: bool
    /** How often the task was started. */
    ghost var runs: nat

    constructor (rendezvous: Rendezvous)
      ensures this.rendezvous == rendezvous && !ran && runs == 0
    {
      this.rendezvous, ran, runs := rendezvous, false, 0;
    }

    /** `throws` is what the task does; it is started once, and settled as ran on either way out. */
    method Run(throws: bool) returns (threw: bool)
      modifies this, rendezvous
      ensures threw == throws && ran && runs == old(runs) + 1
      ensures rendezvous.outcome == if old(rendezvous.outcome) == Unsettled then Ran else old(rendezvous.outcome)
    {
      ran := true;
      runs := runs + 1;
      if throws {
        rendezvous.Settle(Ran);
        return true;
      }
      threw := false;
      rendezvous.Settle(Ran);
    }

    /** The last reference is gone. */
    method Destroy()
      modifies rendezvous
      ensures old(rendezvous.outcome) == Unsettled ==> rendezvous.outcome == if ran then Ran else Dropped
      ensures rendezvous.outcome == FirstOutcome(old(rendezvous.outcome), LastWord(ran))
    {
      rendezvous.Settle(if ran then Ran else Dropped);
    }
  }
}
