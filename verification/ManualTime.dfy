/**
 * What ManualExecutor (src/ManualExecutor.cpp) does, as functions on its state: a queue, timers
 * in deadline order, and a clock that only AdvanceBy moves.
 *
 * Tasks are finite programs over the executor. A timer id is the number PostAfter returns; since
 * runs are deterministic, a task that cancels a timer it scheduled knows that number.
 */
module ManualTime {
  import opened Deadlines

  datatype Task = Task(name: nat, body: Program)

  /** What a task still has to do, action by action. */
  datatype Program =
    | Done
    | Post(task: Task, rest: Program)
    | PostAfter(delay: int, task: Task, rest: Program)
    | CancelTimer(id: TimerId, rest: Program)
    | RunAndWait(task: Task, rest: Program)   // from a task: inline

  /** A task began at this time (a timer, with the deadline it was scheduled for), or a live timer was cancelled. */
  datatype Event =
    | Ran(name: nat, at: int)
    | Fired(name: nat, at: int, due: Deadline)
    | Cancelled(id: TimerId)

  /** `deadlines` is the ordered set, first entry first; an entry whose id left `timers` was cancelled. */
  datatype State = State(
    queue: seq<Task>,
    deadlines: seq<Deadline>,
    timers: map<TimerId, Task>,
    next: TimerId,
    now: int,
    trace: seq<Event>,
    ran: nat)

  const INITIAL := State([], [], map[], 1, 0, [], 0)

  /** Every live timer has exactly one entry, no entry is before now, and the entries are in order. */
  ghost predicate Valid(s: State) {
    && Sorted(s.deadlines)
    && (forall d :: d in s.deadlines ==> s.now <= d.0 && d.1 < s.next)
    && s.timers.Keys <= Ids(s.deadlines)
  }

  // ---- The measure: task nodes not yet run ----

  function Size(task: Task): nat {
    match task
    case Task(_, body) => 1 + ProgramSize(body)
  }

  function ProgramSize(p: Program): nat {
    match p
    case Done => 0
    case Post(task, rest) => Size(task) + ProgramSize(rest)
    case PostAfter(_, task, rest) => Size(task) + ProgramSize(rest)
    case CancelTimer(_, rest) => ProgramSize(rest)
    case RunAndWait(task, rest) => Size(task) + ProgramSize(rest)
  }

  function QueueSize(queue: seq<Task>): nat {
    if queue == [] then 0 else Size(queue[0]) + QueueSize(queue[1..])
  }

  function TimersSize(ds: seq<Deadline>, timers: map<TimerId, Task>): nat {
    if ds == [] then 0
    else (if ds[0].1 in timers then Size(timers[ds[0].1]) else 0) + TimersSize(ds[1..], timers)
  }

  function Work(s: State): nat {
    QueueSize(s.queue) + TimersSize(s.deadlines, s.timers)
  }

  lemma {:induction false} QueueAppend(queue: seq<Task>, task: Task)
    ensures QueueSize(queue + [task]) == QueueSize(queue) + Size(task)
  {
    if queue == [] {
      assert [] + [task] == [task] && [task][1..] == [];
    } else {
      assert (queue + [task])[1..] == queue[1..] + [task];
      QueueAppend(queue[1..], task);
    }
  }

  lemma {:induction false} TimersUnchanged(ds: seq<Deadline>, a: map<TimerId, Task>, id: TimerId, task: Task)
    requires forall d :: d in ds ==> d.1 != id
    ensures TimersSize(ds, a[id := task]) == TimersSize(ds, a) == TimersSize(ds, a - {id})
  {
    if ds != [] {
      assert ds[0] in ds;
      TimersUnchanged(ds[1..], a, id, task);
    }
  }

  lemma {:induction false} TimersAdded(ds: seq<Deadline>, e: Deadline, timers: map<TimerId, Task>, task: Task)
    requires forall d :: d in ds ==> d.1 != e.1
    ensures TimersSize(Insert(ds, e), timers[e.1 := task]) == TimersSize(ds, timers) + Size(task)
  {
    if ds == [] || Before(e, ds[0]) {
      assert ([e] + ds)[1..] == ds;
      TimersUnchanged(ds, timers, e.1, task);
    } else {
      assert ds[0] in ds;
      assert ([ds[0]] + Insert(ds[1..], e))[1..] == Insert(ds[1..], e);
      TimersAdded(ds[1..], e, timers, task);
    }
  }

  lemma {:induction false} TimersCancelled(ds: seq<Deadline>, timers: map<TimerId, Task>, id: TimerId)
    ensures TimersSize(ds, timers - {id}) <= TimersSize(ds, timers)
  {
    if ds != [] {
      TimersCancelled(ds[1..], timers, id);
    }
  }

  // ---- What a task may do ----

  function AfterPost(s: State, task: Task): State {
    s.(queue := s.queue + [task])
  }

  function AfterPostAfter(s: State, delay: int, task: Task): State {
    s.(deadlines := Insert(s.deadlines, (s.now + Clamped(delay), s.next)),
       timers := s.timers[s.next := task],
       next := s.next + 1)
  }

  function Recorded(s: State, e: Event): State {
    s.(trace := s.trace + [e])
  }

  /** The entry stays in the order. */
  function AfterCancel(s: State, id: TimerId): State {
    if id in s.timers then Recorded(s.(timers := s.timers - {id}), Cancelled(id)) else s
  }

  /** A task's actions, one after the other; a task it waits for begins and runs there. */
  function Execute(p: Program, s: State): State {
    match p
    case Done => s
    case Post(task, rest) => Execute(rest, AfterPost(s, task))
    case PostAfter(delay, task, rest) => Execute(rest, AfterPostAfter(s, delay, task))
    case CancelTimer(id, rest) => Execute(rest, AfterCancel(s, id))
    case RunAndWait(task, rest) =>
      (match task
       case Task(name, body) => Execute(rest, Execute(body, Recorded(s, Ran(name, s.now)))))
  }

  lemma PostAfterValid(s: State, delay: int, task: Task)
    requires Valid(s)
    ensures Valid(AfterPostAfter(s, delay, task))
  {
    hide Sorted, Ids, Insert;
    Inserted(s.deadlines, (s.now + Clamped(delay), s.next));
  }

  lemma PostAfterWork(s: State, delay: int, task: Task)
    requires Valid(s)
    ensures Work(AfterPostAfter(s, delay, task)) == Work(s) + Size(task)
  {
    hide Sorted, Ids, Insert;
    TimersAdded(s.deadlines, (s.now + Clamped(delay), s.next), s.timers, task);
  }

  lemma CancelKeeps(s: State, id: TimerId)
    requires Valid(s)
    ensures Valid(AfterCancel(s, id)) && Work(AfterCancel(s, id)) <= Work(s)
  {
    TimersCancelled(s.deadlines, s.timers, id);
  }

  /** A task's actions never move the clock, add at most their own nodes, and leave the state valid. */
  lemma {:induction false} ExecuteKeeps(p: Program, s: State)
    requires Valid(s)
    ensures Valid(Execute(p, s))
    ensures Work(Execute(p, s)) <= Work(s) + ProgramSize(p)
    ensures Execute(p, s).now == s.now && Execute(p, s).ran == s.ran
    decreases p
  {
    match p {
      case Done =>
      case Post(task, rest) =>
        QueueAppend(s.queue, task);
        ExecuteKeeps(rest, AfterPost(s, task));
      case PostAfter(delay, task, rest) =>
        PostAfterValid(s, delay, task);
        PostAfterWork(s, delay, task);
        ExecuteKeeps(rest, AfterPostAfter(s, delay, task));
      case CancelTimer(id, rest) =>
        CancelKeeps(s, id);
        ExecuteKeeps(rest, AfterCancel(s, id));
      case RunAndWait(Task(name, body), rest) =>
        var begun := Recorded(s, Ran(name, s.now));
        ExecuteKeeps(body, begun);
        ExecuteKeeps(rest, Execute(body, begun));
    }
  }

  // ---- The driver ----

  /** The task begins, its actions are executed, and it counts as run. */
  function RunOne(s: State, task: Task, e: Event): State {
    var done := Execute(task.body, Recorded(s, e));
    done.(ran := done.ran + 1)
  }

  /** Pop the front of the queue and run it. */
  function RunFront(s: State): State
    requires s.queue != []
  {
    RunOne(s.(queue := s.queue[1..]), s.queue[0], Ran(s.queue[0].name, s.now))
  }

  lemma RunFrontKeeps(s: State)
    requires Valid(s) && s.queue != []
    ensures Valid(RunFront(s)) && Work(RunFront(s)) < Work(s)
    ensures RunFront(s).now == s.now && RunFront(s).ran == s.ran + 1
  {
    ExecuteKeeps(s.queue[0].body, Recorded(s.(queue := s.queue[1..]), Ran(s.queue[0].name, s.now)));
  }

  /** Queued tasks and what they post, until none is left. */
  function RunPending(s: State): (r: State)
    requires Valid(s)
    ensures Valid(r) && r.queue == [] && r.now == s.now && Work(r) <= Work(s)
    decreases Work(s)
  {
    if s.queue == [] then s
    else
      RunFrontKeeps(s);
      RunPending(RunFront(s))
  }

  /** Cancelled entries at the front leave the order. */
  function Purge(s: State): (r: State)
    requires Valid(s)
    ensures Valid(r) && r == s.(deadlines := r.deadlines) && Work(r) == Work(s)
    ensures r.deadlines != [] ==> r.deadlines[0].1 in r.timers
    ensures forall d :: d in r.deadlines ==> d in s.deadlines
    decreases |s.deadlines|
  {
    if s.deadlines == [] || s.deadlines[0].1 in s.timers then s
    else
      Purge(s.(deadlines := s.deadlines[1..]))
  }

  /** The first entry is later than `end`. */
  predicate NoneDue(s: State, end: int) {
    s.deadlines == [] || s.deadlines[0].0 > end
  }

  /** The clock moves to the first deadline and its timer leaves the executor ... */
  function TakeTimer(s: State): State
    requires s.deadlines != [] && s.deadlines[0].1 in s.timers
  {
    var due := s.deadlines[0];
    s.(deadlines := s.deadlines[1..], timers := s.timers - {due.1}, now := if s.now < due.0 then due.0 else s.now)
  }

  /** ... and is run. */
  function Fire(s: State): State
    requires s.deadlines != [] && s.deadlines[0].1 in s.timers
  {
    var task := s.timers[s.deadlines[0].1];
    RunOne(TakeTimer(s), task, Fired(task.name, TakeTimer(s).now, s.deadlines[0]))
  }

  lemma TakeTimerKeeps(s: State)
    requires Valid(s) && s.deadlines != [] && s.deadlines[0].1 in s.timers
    ensures Valid(TakeTimer(s)) && TakeTimer(s).now == s.deadlines[0].0
    ensures Work(TakeTimer(s)) == Work(s) - Size(s.timers[s.deadlines[0].1])
  {
    var id := s.deadlines[0].1;
    assert s.deadlines[0] in s.deadlines;
    TimersUnchanged(s.deadlines[1..], s.timers, id, s.timers[id]);
  }

  lemma FireKeeps(s: State)
    requires Valid(s) && s.deadlines != [] && s.deadlines[0].1 in s.timers
    ensures Valid(Fire(s)) && Work(Fire(s)) < Work(s)
    ensures Fire(s).now == s.deadlines[0].0 && Fire(s).ran == s.ran + 1
  {
    TakeTimerKeeps(s);
    var task := s.timers[s.deadlines[0].1];
    ExecuteKeeps(task.body, Recorded(TakeTimer(s), Fired(task.name, TakeTimer(s).now, s.deadlines[0])));
  }

  /** The loop of AdvanceBy: fire what is due by `end`, earliest first, draining the queue after each. */
  function AdvanceTo(s: State, end: int): (r: State)
    requires Valid(s) && s.queue == [] && s.now <= end
    ensures Valid(r) && r.queue == [] && r.now == end
    ensures NoneDue(r, end)
    decreases Work(s)
  {
    var p := Purge(s);
    if NoneDue(p, end) then
      LateDeadlines(p, end);
      p.(now := end)
    else
      FireKeeps(p);
      AdvanceTo(RunPending(Fire(p)), end)
  }

  lemma LateDeadlines(s: State, end: int)
    requires Valid(s) && s.now <= end && NoneDue(s, end)
    ensures Valid(s.(now := end))
    ensures forall d :: d in s.deadlines ==> d.0 > end
  {
    if s.deadlines != [] {
      FirstComesFirst(s.deadlines);
    }
  }

  /** One turn of that loop. */
  lemma AdvanceRound(s: State, end: int)
    requires Valid(s) && s.queue == [] && s.now <= end
    ensures NoneDue(Purge(s), end) ==> AdvanceTo(s, end) == Purge(s).(now := end)
    ensures !NoneDue(Purge(s), end) ==> Valid(Fire(Purge(s)))
    ensures !NoneDue(Purge(s), end) ==>
              var next := RunPending(Fire(Purge(s)));
              && Valid(next) && next.queue == [] && next.now <= end && Work(next) < Work(s)
              && AdvanceTo(s, end) == AdvanceTo(next, end)
  {
    if !NoneDue(Purge(s), end) {
      FireKeeps(Purge(s));
    }
  }

  lemma NothingPending(s: State)
    requires Valid(s) && s.queue == []
    ensures RunPending(s) == s
  {
    hide Valid;
  }

  /** RunPending first; with nothing queued it changes nothing. */
  function AdvanceBy(s: State, amount: int): (r: State)
    requires Valid(s)
    ensures Valid(r) && r.queue == []
  {
    var s' := RunPending(s);
    AdvanceTo(s', s'.now + Clamped(amount))
  }
}
