/**
 * When a timer of ManualExecutor fires, and in which order its tasks run, over whole runs and in
 * terms of the programs alone.
 */
module ManualOrder {
  import opened ByteStrings
  import opened Deadlines
  import opened ManualTime
  import opened ManualRuns

  // ---- When a timer fires ----

  /** The timer of this entry is live and in the order, or gone; if it fired, that was at its time and it was this task. */
  ghost predicate Tracked(s: State, e: Deadline, task: Task) {
    && e.1 < s.next
    && (e.1 in s.timers ==> e in s.deadlines && s.timers[e.1] == task)
    && forall x :: x in s.trace && x.Fired? && x.due.1 == e.1 ==> x == Fired(task.name, e.0, e)
  }

  lemma {:induction false} ExecuteTracks(p: Program, s: State, e: Deadline, task: Task)
    requires Tracked(s, e, task)
    ensures Tracked(Execute(p, s), e, task)
    decreases p
  {
    match p {
      case Done =>
      case Post(posted, rest) => ExecuteTracks(rest, AfterPost(s, posted), e, task);
      case PostAfter(delay, posted, rest) => ExecuteTracks(rest, AfterPostAfter(s, delay, posted), e, task);
      case CancelTimer(id, rest) => ExecuteTracks(rest, AfterCancel(s, id), e, task);
      case RunAndWait(Task(name, body), rest) =>
        var begun := Recorded(s, Ran(name, s.now));
        ExecuteTracks(body, begun, e, task);
        ExecuteTracks(rest, Execute(body, begun), e, task);
    }
  }

  lemma RunOneTracks(s: State, run: Task, x: Event, e: Deadline, task: Task)
    requires Tracked(Recorded(s, x), e, task)
    ensures Tracked(RunOne(s, run, x), e, task)
  {
    ExecuteTracks(run.body, Recorded(s, x), e, task);
  }

  lemma {:induction false} RunPendingTracks(s: State, e: Deadline, task: Task)
    requires Valid(s) && Tracked(s, e, task)
    ensures Tracked(RunPending(s), e, task)
    decreases Work(s)
  {
    if s.queue != [] {
      RunOneTracks(s.(queue := s.queue[1..]), s.queue[0], Ran(s.queue[0].name, s.now), e, task);
      RunFrontKeeps(s);
      RunPendingTracks(RunFront(s), e, task);
    }
  }

  lemma {:induction false} PurgeTracks(s: State, e: Deadline, task: Task)
    requires Valid(s) && Tracked(s, e, task)
    ensures Tracked(Purge(s), e, task)
    decreases |s.deadlines|
  {
    if s.deadlines != [] && s.deadlines[0].1 !in s.timers {
      PurgeTracks(s.(deadlines := s.deadlines[1..]), e, task);
    }
  }

  lemma FireTracks(s: State, e: Deadline, task: Task)
    requires Valid(s) && Tracked(s, e, task) && s.deadlines != [] && s.deadlines[0].1 in s.timers
    ensures Tracked(Fire(s), e, task)
  {
    FirstComesFirst(s.deadlines);
    TakeTimerKeeps(s);
    var run := s.timers[s.deadlines[0].1];
    hide Valid, Sorted;
    RunOneTracks(TakeTimer(s), run, Fired(run.name, TakeTimer(s).now, s.deadlines[0]), e, task);
  }

  lemma {:induction false} AdvanceToTracks(s: State, end: int, e: Deadline, task: Task)
    requires Valid(s) && s.queue == [] && s.now <= end && Tracked(s, e, task)
    ensures Tracked(AdvanceTo(s, end), e, task)
    decreases Work(s)
  {
    var p := Purge(s);
    PurgeTracks(s, e, task);
    if !NoneDue(p, end) {
      FireKeeps(p);
      FireTracks(p, e, task);
      hide Tracked, Fire;
      RunPendingTracks(Fire(p), e, task);
      AdvanceToTracks(RunPending(Fire(p)), end, e, task);
    }
  }

  lemma AdvanceByTracks(s: State, amount: int, e: Deadline, task: Task)
    requires Valid(s) && Tracked(s, e, task)
    ensures Tracked(AdvanceBy(s, amount), e, task)
  {
    hide Tracked, AdvanceTo;
    RunPendingTracks(s, e, task);
    AdvanceToTracks(RunPending(s), s.now + Clamped(amount), e, task);
  }

  lemma AfterTracks(s: State, call: Call, e: Deadline, task: Task)
    requires Valid(s) && Tracked(s, e, task)
    ensures Tracked(After(s, call), e, task)
  {
    hide AdvanceTo, RunPending, AdvanceBy;
    match call {
      case CallPost(_) =>
      case CallPostAfter(_, _) =>
      case CallCancel(_) =>
      case CallRunPending => RunPendingTracks(s, e, task);
      case CallAdvanceBy(amount) => AdvanceByTracks(s, amount, e, task);
      case CallRunAndWait(posted) => RunPendingTracks(AfterPost(s, posted), e, task);
    }
  }

  lemma {:induction false} RunTracks(s: State, calls: seq<Call>, e: Deadline, task: Task)
    requires Valid(s) && Tracked(s, e, task)
    ensures Tracked(Run(s, calls), e, task)
    decreases |calls|
  {
    if calls != [] {
      AfterTracks(s, calls[0], e, task);
      hide Tracked, After;
      RunTracks(After(s, calls[0]), calls[1..], e, task);
    }
  }

  lemma ScheduledIsTracked(s: State, delay: int, task: Task)
    requires Good(s)
    ensures Tracked(AfterPostAfter(s, delay, task), (s.now + if delay < 0 then 0 else delay, s.next), task)
  {
    IssuedBelow(s.next);
    assert s.next !in Issued(s.next);
    assert s.next !in FiredIds(s.trace);
    assert forall x :: x in s.trace && x.Fired? ==> x.due.1 in FiredIds(s.trace);
  }

  /**
   * A timer scheduled with delay d at time n, whatever is called meanwhile: once an advance has brought
   * the clock to n + d it has fired, with the clock at n + d, unless it was cancelled; and before that
   * it has not. (A negative delay is none.)
   */
  lemma FiresAtItsTime(s: State, delay: int, task: Task, calls: seq<Call>, amount: int)
    requires Good(s)
    ensures Valid(AfterPostAfter(s, delay, task))
    ensures var due := s.now + if delay < 0 then 0 else delay;
            var r := AdvanceBy(Run(AfterPostAfter(s, delay, task), calls), amount);
            && (due <= r.now && s.next !in CancelledIds(r.trace) ==> Fired(task.name, due, (due, s.next)) in r.trace)
            && (due > r.now ==> s.next !in FiredIds(r.trace))
  {
    var e: Deadline := (s.now + if delay < 0 then 0 else delay, s.next);
    PostAfterGood(s, delay, task);
    ScheduledIsTracked(s, delay, task);
    var scheduled := AfterPostAfter(s, delay, task);
    assert Valid(scheduled) && 0 < e.1;
    hide Good, Valid, Tracked, AfterPostAfter, AdvanceBy, Run, FiredIds, CancelledIds;
    TrackedFires(scheduled, e, task, calls, amount);
  }

  lemma TrackedFires(s: State, e: Deadline, task: Task, calls: seq<Call>, amount: int)
    requires Good(s) && Tracked(s, e, task) && 0 < e.1
    ensures var r := AdvanceBy(Run(s, calls), amount);
            && (e.0 <= r.now && e.1 !in CancelledIds(r.trace) ==> Fired(task.name, e.0, e) in r.trace)
            && (e.0 > r.now ==> e.1 !in FiredIds(r.trace))
  {
    assert Valid(s);
    hide Good, Valid, Tracked, AdvanceBy, Run, FiredIds, CancelledIds;
    RunsAreGood(s, calls);
    RunTracks(s, calls, e, task);
    var before := Run(s, calls);
    AdvanceByTracks(before, amount, e, task);
    AfterGood(before, CallAdvanceBy(amount));
    AdvanceLeavesNothingDue(before, amount);
    TrackedHasFired(AdvanceBy(before, amount), e, task);
  }

  lemma TrackedHasFired(r: State, e: Deadline, task: Task)
    requires Good(r) && Tracked(r, e, task) && 0 < e.1
    requires forall d :: d in r.deadlines && d.1 in r.timers ==> d.0 > r.now
    ensures e.0 <= r.now && e.1 !in CancelledIds(r.trace) ==> Fired(task.name, e.0, e) in r.trace
    ensures e.0 > r.now ==> e.1 !in FiredIds(r.trace)
  {
    IssuedBelow(r.next);
    if e.1 in FiredIds(r.trace) {
      var x :| x in r.trace && x.Fired? && x.due.1 == e.1;
      FiredIsListed(r.trace, x);
    } else if e.1 !in CancelledIds(r.trace) {
      assert e.1 in Issued(r.next);
      assert e.1 in r.timers;
    }
  }

  lemma {:induction false} FiredIsListed(trace: seq<Event>, x: Event)
    requires x in trace && x.Fired?
    ensures x.due in FiredOf(trace)
  {
    var init, last := trace[..|trace| - 1], trace[|trace| - 1];
    assert trace == init + [last];
    if x != last {
      FiredIsListed(init, x);
    }
  }

  // ---- In which order tasks run ----

  /** The names of the tasks that began, in the order they did. */
  function Begun(trace: seq<Event>): seq<nat> {
    if trace == [] then []
    else
      var e := trace[|trace| - 1];
      Begun(trace[..|trace| - 1]) + if e.Cancelled? then [] else [e.name]
  }

  lemma BegunAppend(trace: seq<Event>, e: Event)
    ensures Begun(trace + [e]) == Begun(trace) + if e.Cancelled? then [] else [e.name]
  {
    assert (trace + [e])[..|trace|] == trace;
  }

  /** What a program runs inline, in its order ... */
  function Inline(p: Program): seq<nat> {
    match p
    case Done => []
    case Post(_, rest) => Inline(rest)
    case PostAfter(_, _, rest) => Inline(rest)
    case CancelTimer(_, rest) => Inline(rest)
    case RunAndWait(task, rest) =>
      (match task
       case Task(name, body) => [name] + Inline(body) + Inline(rest))
  }

  /** ... and what it posts, by itself or from what it runs inline. */
  function Posts(p: Program): (r: seq<Task>)
    ensures QueueSize(r) <= ProgramSize(p)
  {
    match p
    case Done => []
    case Post(task, rest) => [task] + Posts(rest)
    case PostAfter(_, _, rest) => Posts(rest)
    case CancelTimer(_, rest) => Posts(rest)
    case RunAndWait(task, rest) =>
      (match task
       case Task(_, body) => (QueueJoin(Posts(body), Posts(rest)); Posts(body) + Posts(rest)))
  }

  lemma {:induction false} QueueJoin(a: seq<Task>, b: seq<Task>)
    ensures QueueSize(a + b) == QueueSize(a) + QueueSize(b)
  {
    if a == [] {
      assert a + b == b;
    } else {
      assert (a + b)[1..] == a[1..] + b;
      QueueJoin(a[1..], b);
    }
  }

  /** First come, first run: a task, what it runs inline, then what was queued before it posted, then what it posted. */
  function Order(queue: seq<Task>): seq<nat>
    decreases QueueSize(queue)
  {
    if queue == [] then []
    else
      QueueJoin(queue[1..], Posts(queue[0].body));
      [queue[0].name] + Inline(queue[0].body) + Order(queue[1..] + Posts(queue[0].body))
  }

  lemma {:induction false} ExecuteQueues(p: Program, s: State)
    ensures Execute(p, s).queue == s.queue + Posts(p)
    decreases p
  {
    match p {
      case Done =>
      case Post(task, rest) =>
        ExecuteQueues(rest, AfterPost(s, task));
        Assoc(s.queue, [task], Posts(rest));
      case PostAfter(delay, task, rest) => ExecuteQueues(rest, AfterPostAfter(s, delay, task));
      case CancelTimer(id, rest) => ExecuteQueues(rest, AfterCancel(s, id));
      case RunAndWait(Task(name, body), rest) =>
        ExecuteQueues(body, Recorded(s, Ran(name, s.now)));
        ExecuteQueues(rest, Execute(body, Recorded(s, Ran(name, s.now))));
        Assoc(s.queue, Posts(body), Posts(rest));
    }
  }

  lemma {:induction false} ExecuteOrder(p: Program, s: State)
    ensures Begun(Execute(p, s).trace) == Begun(s.trace) + Inline(p)
    decreases p
  {
    match p {
      case Done =>
      case Post(task, rest) => ExecuteOrder(rest, AfterPost(s, task));
      case PostAfter(delay, task, rest) => ExecuteOrder(rest, AfterPostAfter(s, delay, task));
      case CancelTimer(id, rest) =>
        BegunAppend(s.trace, Cancelled(id));
        assert Begun(s.trace) + [] == Begun(s.trace);
        ExecuteOrder(rest, AfterCancel(s, id));
      case RunAndWait(Task(name, body), rest) =>
        var begun := Recorded(s, Ran(name, s.now));
        BegunAppend(s.trace, Ran(name, s.now));
        ExecuteOrder(body, begun);
        ExecuteOrder(rest, Execute(body, begun));
        hide Begun, Execute;
        InlineOrder(Begun(s.trace), [name], Inline(body), Inline(rest));
    }
  }

  lemma InlineOrder<T>(a: seq<T>, b: seq<T>, c: seq<T>, d: seq<T>)
    ensures a + b + c + d == a + (b + c + d)
  {}

  /** Draining the queue runs exactly what is queued and posted meanwhile, in that order, and each task once. */
  lemma {:induction false} RunPendingOrder(s: State)
    requires Valid(s)
    ensures Begun(RunPending(s).trace) == Begun(s.trace) + Order(s.queue)
    decreases Work(s)
  {
    if s.queue == [] {
      assert Begun(s.trace) + [] == Begun(s.trace);
    } else {
      var task := s.queue[0];
      var begun := Recorded(s.(queue := s.queue[1..]), Ran(task.name, s.now));
      BegunAppend(s.trace, Ran(task.name, s.now));
      ExecuteOrder(task.body, begun);
      ExecuteQueues(task.body, begun);
      RunFrontKeeps(s);
      RunPendingOrder(RunFront(s));
      hide Execute, Inline, Posts, Begun;
      InlineOrder(Begun(s.trace), [task.name], Inline(task.body), Order(RunFront(s).queue));
    }
  }

  /** A timer that fires runs its own program at once, then what that posted. */
  lemma FireOrder(s: State)
    requires Valid(s) && s.queue == [] && s.deadlines != [] && s.deadlines[0].1 in s.timers
    ensures Valid(Fire(s))
    ensures var task := s.timers[s.deadlines[0].1];
            Begun(RunPending(Fire(s)).trace) == Begun(s.trace) + Order([task])
  {
    var task := s.timers[s.deadlines[0].1];
    var begun := TakeTimer(s);
    FireKeeps(s);
    BegunAppend(s.trace, Fired(task.name, begun.now, s.deadlines[0]));
    ExecuteOrder(task.body, Recorded(begun, Fired(task.name, begun.now, s.deadlines[0])));
    ExecuteQueues(task.body, Recorded(begun, Fired(task.name, begun.now, s.deadlines[0])));
    RunPendingOrder(Fire(s));
    hide Execute, Inline, Posts, Begun, RunPending;
    assert [task][1..] + Posts(task.body) == [] + Posts(task.body);
    InlineOrder(Begun(s.trace), [task.name], Inline(task.body), Order([] + Posts(task.body)));
  }
}
