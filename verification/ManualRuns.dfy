/** What holds of ManualExecutor over whole runs: time composes, and timers fire in order, on time and once. */
module ManualRuns {
  import opened Deadlines
  import opened ManualTime

  // ---- Time composition ----

  /** Stopping on the way to `end` changes nothing: not the trace, not the count, not the final state. */
  lemma {:induction false} StopOnTheWay(s: State, stop: int, end: int)
    requires Valid(s) && s.queue == [] && s.now <= stop <= end
    ensures AdvanceTo(AdvanceTo(s, stop), end) == AdvanceTo(s, end)
    decreases Work(s)
  {
    var p := Purge(s);
    if NoneDue(p, stop) {
      LateDeadlines(p, stop);
      var r := p.(now := stop);
      assert Purge(r) == r;
      if !NoneDue(p, end) {
        assert p.deadlines[0] in p.deadlines;
        assert TakeTimer(r) == TakeTimer(p);
        assert Fire(r) == Fire(p);
      }
    } else {
      FireKeeps(p);
      StopOnTheWay(RunPending(Fire(p)), stop, end);
    }
  }

  lemma AdvanceWhenIdle(s: State, amount: int)
    requires Valid(s) && s.queue == []
    ensures AdvanceBy(s, amount) == AdvanceTo(s, s.now + Clamped(amount))
  {
    hide AdvanceTo;
    NothingPending(s);
  }

  /** Two moves of the clock are one move by their sum: same trace, same count, same final state. A move back is none. */
  lemma TimeComposition(s: State, a: int, b: int)
    requires Valid(s)
    ensures a >= 0 && b >= 0 ==> AdvanceBy(AdvanceBy(s, a), b) == AdvanceBy(s, a + b)
    ensures a < 0 ==> AdvanceBy(s, a) == AdvanceBy(s, 0)
  {
    hide AdvanceTo;
    var q := RunPending(s);
    if a >= 0 && b >= 0 {
      AdvanceWhenIdle(AdvanceTo(q, q.now + a), b);
      StopOnTheWay(q, q.now + a, q.now + a + b);
    }
  }

  /** The stretch of time these moves make up. */
  function Total(steps: seq<int>): nat {
    if steps == [] then 0 else (if steps[0] < 0 then 0 else steps[0]) + Total(steps[1..])
  }

  function Steps(s: State, steps: seq<int>): State
    requires Valid(s)
    decreases |steps|
  {
    if steps == [] then s else Steps(AdvanceBy(s, steps[0]), steps[1..])
  }

  /** However a stretch of time is cut up, the run is the same. */
  lemma {:induction false} StepsCompose(s: State, steps: seq<int>)
    requires Valid(s) && steps != []
    ensures Steps(s, steps) == AdvanceBy(s, Total(steps))
    decreases |steps|
  {
    hide AdvanceBy;
    if |steps| > 1 {
      var first := if steps[0] < 0 then 0 else steps[0];
      TimeComposition(s, steps[0], 0);
      TimeComposition(s, first, Total(steps[1..]));
      StepsCompose(AdvanceBy(s, steps[0]), steps[1..]);
    } else {
      assert steps[1..] == [];
      TimeComposition(s, steps[0], 0);
    }
  }

  // ---- The record of the timers ----

  /** The deadlines of the timers that fired, in the order they did. */
  function FiredOf(trace: seq<Event>): seq<Deadline> {
    if trace == [] then []
    else
      var e := trace[|trace| - 1];
      FiredOf(trace[..|trace| - 1]) + if e.Fired? then [e.due] else []
  }

  lemma FiredAppend(trace: seq<Event>, e: Event)
    ensures FiredOf(trace + [e]) == FiredOf(trace) + if e.Fired? then [e.due] else []
  {
    assert (trace + [e])[..|trace|] == trace;
  }

  function FiredIds(trace: seq<Event>): set<TimerId> {
    set e | e in trace && e.Fired? :: e.due.1
  }

  function CancelledIds(trace: seq<Event>): set<TimerId> {
    set e | e in trace && e.Cancelled? :: e.id
  }

  lemma IdsAppend(trace: seq<Event>, e: Event)
    ensures FiredIds(trace + [e]) == FiredIds(trace) + if e.Fired? then {e.due.1} else {}
    ensures CancelledIds(trace + [e]) == CancelledIds(trace) + if e.Cancelled? then {e.id} else {}
  {
    assert e in trace + [e];
    assert forall x :: x in trace + [e] <==> x in trace || x == e;
  }

  /** The timers that fired, in the order they did; each is before every entry still there. */
  ghost predicate InOrder(trace: seq<Event>, ds: seq<Deadline>, now: int) {
    && Sorted(FiredOf(trace))
    && (forall f :: f in FiredOf(trace) ==> f.0 <= now && f.1 in FiredIds(trace))
    && (forall f, d :: f in FiredOf(trace) && d in ds ==> Before(f, d))
  }

  /** A timer runs at the time it was due. */
  predicate OnTime(trace: seq<Event>) {
    forall e :: e in trace && e.Fired? ==> e.at == e.due.0
  }

  /** The ids PostAfter has returned. */
  function Issued(next: TimerId): set<TimerId> {
    if next < 2 then {} else Issued(next - 1) + {next - 1}
  }

  lemma {:induction false} IssuedBelow(next: TimerId)
    ensures forall id :: id in Issued(next) <==> 0 < id < next
  {
    if next >= 2 {
      IssuedBelow(next - 1);
    }
  }

  /** Every timer ever scheduled is live, or fired, or was cancelled: exactly one of them. */
  ghost predicate Accounted(s: State) {
    && Issued(s.next) == s.timers.Keys + FiredIds(s.trace) + CancelledIds(s.trace)
    && s.timers.Keys !! FiredIds(s.trace) !! CancelledIds(s.trace)
  }

  ghost predicate Good(s: State) {
    Valid(s) && InOrder(s.trace, s.deadlines, s.now) && OnTime(s.trace) && Accounted(s) && 0 < s.next
  }

  lemma InitialGood()
    ensures Good(INITIAL)
  {}

  lemma RanKeeps(s: State, name: nat, at: int)
    requires Good(s)
    ensures Good(Recorded(s, Ran(name, at)))
  {
    FiredAppend(s.trace, Ran(name, at));
    IdsAppend(s.trace, Ran(name, at));
    assert FiredOf(s.trace) + [] == FiredOf(s.trace);
  }

  lemma PostAfterGood(s: State, delay: int, task: Task)
    requires Good(s)
    ensures Good(AfterPostAfter(s, delay, task))
  {
    PostAfterValid(s, delay, task);
    var r := AfterPostAfter(s, delay, task);
    assert r.timers.Keys == s.timers.Keys + {s.next};
    IssuedBelow(s.next);
    forall f, d | f in FiredOf(s.trace) && d in r.deadlines
      ensures Before(f, d)
    {
      assert f.1 in Issued(s.next);
    }
  }

  lemma CancelGood(s: State, id: TimerId)
    requires Good(s)
    ensures Good(AfterCancel(s, id))
  {
    CancelKeeps(s, id);
    FiredAppend(s.trace, Cancelled(id));
    IdsAppend(s.trace, Cancelled(id));
    assert FiredOf(s.trace) + [] == FiredOf(s.trace);
    assert id in s.timers ==> AfterCancel(s, id).timers.Keys == s.timers.Keys - {id};
  }

  lemma {:induction false} ExecuteGood(p: Program, s: State)
    requires Good(s)
    ensures Good(Execute(p, s))
    decreases p
  {
    match p {
      case Done =>
      case Post(task, rest) => ExecuteGood(rest, AfterPost(s, task));
      case PostAfter(delay, task, rest) =>
        PostAfterGood(s, delay, task);
        ExecuteGood(rest, AfterPostAfter(s, delay, task));
      case CancelTimer(id, rest) =>
        CancelGood(s, id);
        ExecuteGood(rest, AfterCancel(s, id));
      case RunAndWait(Task(name, body), rest) =>
        RanKeeps(s, name, s.now);
        ExecuteGood(body, Recorded(s, Ran(name, s.now)));
        ExecuteGood(rest, Execute(body, Recorded(s, Ran(name, s.now))));
    }
  }

  lemma {:induction false} RunPendingGood(s: State)
    requires Good(s)
    ensures Good(RunPending(s))
    decreases Work(s)
  {
    if s.queue != [] {
      var task := s.queue[0];
      var s' := s.(queue := s.queue[1..]);
      RanKeeps(s', task.name, s.now);
      ExecuteGood(task.body, Recorded(s', Ran(task.name, s.now)));
      RunFrontKeeps(s);
      RunPendingGood(RunFront(s));
    }
  }

  lemma {:induction false} SortedAppend(ds: seq<Deadline>, last: Deadline)
    requires Sorted(ds) && forall d :: d in ds ==> Before(d, last) && d.1 != last.1
    ensures Sorted(ds + [last])
  {
    if ds != [] {
      SortedAppend(ds[1..], last);
      assert (ds + [last])[1..] == ds[1..] + [last];
    }
  }

  /** The first timer has been taken, and it is recorded that it fires. */
  function FireBegun(s: State): State
    requires s.deadlines != [] && s.deadlines[0].1 in s.timers
  {
    Recorded(TakeTimer(s), Fired(s.timers[s.deadlines[0].1].name, TakeTimer(s).now, s.deadlines[0]))
  }

  lemma FiringIsAccounted(s: State)
    requires Good(s) && s.deadlines != [] && s.deadlines[0].1 in s.timers
    ensures Accounted(FireBegun(s))
  {
    hide Valid, InOrder, OnTime;
    var due := s.deadlines[0];
    IdsAppend(s.trace, Fired(s.timers[due.1].name, TakeTimer(s).now, due));
    assert TakeTimer(s).timers.Keys == s.timers.Keys - {due.1};
  }

  lemma FiringIsInOrder(trace: seq<Event>, ds: seq<Deadline>, now: int, e: Event)
    requires Sorted(ds) && InOrder(trace, ds, now)
    requires ds != [] && now <= ds[0].0 && ds[0].1 !in FiredIds(trace)
    requires e.Fired? && e.due == ds[0]
    ensures InOrder(trace + [e], ds[1..], ds[0].0)
  {
    hide Sorted;
    FiredAppend(trace, e);
    IdsAppend(trace, e);
    FirstComesFirst(ds);
    assert ds[0] in ds;
    SortedAppend(FiredOf(trace), ds[0]);
  }

  lemma FireBegunGood(s: State)
    requires Good(s) && s.deadlines != [] && s.deadlines[0].1 in s.timers
    ensures Good(FireBegun(s))
  {
    hide InOrder, Sorted, Ids;
    FiringIsAccounted(s);
    TakeTimerKeeps(s);
    var due := s.deadlines[0];
    assert due in s.deadlines;
    assert due.1 !in FiredIds(s.trace) by {
      assert due.1 in s.timers.Keys;
    }
    FiringIsInOrder(s.trace, s.deadlines, s.now, Fired(s.timers[due.1].name, TakeTimer(s).now, due));
  }

  lemma {:induction false} AdvanceToGood(s: State, end: int)
    requires Good(s) && s.queue == [] && s.now <= end
    ensures Good(AdvanceTo(s, end))
    decreases Work(s)
  {
    var p := Purge(s);
    assert Good(p);
    if NoneDue(p, end) {
      LateDeadlines(p, end);
    } else {
      FireBegunGood(p);
      ExecuteGood(p.timers[p.deadlines[0].1].body, FireBegun(p));
      FireKeeps(p);
      assert Good(Fire(p));
      RunPendingGood(Fire(p));
      AdvanceToGood(RunPending(Fire(p)), end);
    }
  }

  // ---- Whole runs ----

  /** What the driver, or another thread between its calls, does. */
  datatype Call =
    | CallPost(task: Task)
    | CallPostAfter(delay: int, task: Task)
    | CallCancel(id: TimerId)
    | CallRunPending
    | CallAdvanceBy(amount: int)
    | CallRunAndWait(task: Task)       // outside a task: post, then drain

  function After(s: State, call: Call): (r: State)
    requires Valid(s)
    ensures Valid(r)
  {
    match call
    case CallPost(task) => AfterPost(s, task)
    case CallPostAfter(delay, task) => (PostAfterValid(s, delay, task); AfterPostAfter(s, delay, task))
    case CallCancel(id) => (CancelKeeps(s, id); AfterCancel(s, id))
    case CallRunPending => RunPending(s)
    case CallAdvanceBy(amount) => AdvanceBy(s, amount)
    case CallRunAndWait(task) => RunPending(AfterPost(s, task))
  }

  function Run(s: State, calls: seq<Call>): (r: State)
    requires Valid(s)
    ensures Valid(r)
    decreases |calls|
  {
    if calls == [] then s else Run(After(s, calls[0]), calls[1..])
  }

  lemma AfterGood(s: State, call: Call)
    requires Good(s)
    ensures Good(After(s, call))
  {
    hide AdvanceTo, RunPending;
    match call {
      case CallPost(_) =>
      case CallPostAfter(delay, task) => PostAfterGood(s, delay, task);
      case CallCancel(id) => CancelGood(s, id);
      case CallRunPending => RunPendingGood(s);
      case CallAdvanceBy(amount) =>
        RunPendingGood(s);
        AdvanceToGood(RunPending(s), s.now + Clamped(amount));
      case CallRunAndWait(task) => RunPendingGood(AfterPost(s, task));
    }
  }

  /**
   * Over any run from a new executor: the (deadline, id) pairs of the fired timers strictly increase,
   * no timer fires twice, each fires with the clock at its deadline, and every timer ever scheduled
   * is live, fired or cancelled, and only one of these.
   */
  lemma {:induction false} RunsAreGood(s: State, calls: seq<Call>)
    requires Good(s)
    ensures Good(Run(s, calls))
    decreases |calls|
  {
    if calls != [] {
      AfterGood(s, calls[0]);
      RunsAreGood(After(s, calls[0]), calls[1..]);
    }
  }

  /**
   * When AdvanceBy returns, the clock has moved by the amount (a negative one is none), the queue is
   * empty, and every timer still live is due after the new time.
   */
  lemma AdvanceLeavesNothingDue(s: State, amount: int)
    requires Valid(s)
    ensures amount >= 0 ==> AdvanceBy(s, amount).now == s.now + amount
    ensures amount <= 0 ==> AdvanceBy(s, amount).now == s.now
    ensures AdvanceBy(s, amount).queue == []
    ensures var r := AdvanceBy(s, amount);
            forall d :: d in r.deadlines && d.1 in r.timers ==> d.0 > r.now
  {
    var r := AdvanceBy(s, amount);
    LateDeadlines(r, r.now);
  }
}
