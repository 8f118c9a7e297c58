/**
 * The coordinator's thread (ThreadMain in src/runtime/CoordinatorThread.cpp) among all its callers:
 * posts, timers, cancels, pauses and shutdowns from any thread, callbacks included, at any point
 * where the mutex may be free.
 *
 * Posts, Resume and Shutdown notify after they released the mutex: `owed` counts those still to do it.
 */
module CoordinatorProtocol {
  import opened ByteStrings
  import opened Coordinators

  /** Where the thread is; a batch holds the collected timers still to be run. */
  datatype Thread =
    | NotStarted
    | Top
    | Draining
    | RunningPost(post: PostId)
    | Firing
    | Batch(rest: seq<TimerId>, now: int)
    | RunningTimer(rest: seq<TimerId>, now: int)
    | Deciding(now: int)
    | PausedWait
    | WaitAny
    | WaitUntil(deadline: int)
    | Exited

  datatype World = World(
    mailbox: Mailbox,
    timers: seq<Timer>,
    next: TimerId,
    stopped: bool,
    paused: bool,
    thread: Thread,
    signalled: bool,
    owed: nat,
    clock: int,
    fired: seq<TimerId>,
    oneShots: set<TimerId>)

  const START := World(EMPTY, [], 1, false, false, NotStarted, false, 0, 0, [], {})

  datatype Step =
    // any thread
    | Start
    | Post(priority: Priority, post: PostId)
    | Repeating(interval: int)
    | OneShot(delay: int)
    | Cancel(id: TimerId)
    | Pause
    | Resume
    | Shutdown
    | Joined
    | Notify
    | Tick(clock: int)
    // the coordinator's thread
    | Loop
    | Dequeue
    | EndPost
    | Collect
    | RunTimer
    | EndTimer
    | Erase
    | Decide
    | Recheck
    | Timeout

  predicate Asleep(th: Thread) {
    th.PausedWait? || th.WaitAny? || th.WaitUntil?
  }

  predicate HasWork(w: World) {
    InOrder(w.mailbox) != []
  }

  /** What the sleeping thread waits for. */
  predicate Awaited(w: World)
    requires Asleep(w.thread)
  {
    match w.thread
    case PausedWait => w.stopped || !w.paused
    case WaitAny => w.stopped || HasWork(w) || NextDeadline(w.timers).Some?
    case WaitUntil(d) => w.stopped || HasWork(w) || (NextDeadline(w.timers).Some? && NextDeadline(w.timers).value < d)
  }

  predicate Enabled(w: World, s: Step) {
    match s
    case Start => w.thread.NotStarted?
    case Shutdown => !w.thread.NotStarted? && !w.stopped
    case Joined => w.thread.Exited? && w.stopped
    case Notify => w.owed > 0
    case Tick(clock) => w.clock <= clock
    case Loop => w.thread.Top?
    case Dequeue => w.thread.Draining?
    case EndPost => w.thread.RunningPost?
    case Collect => w.thread.Firing?
    case RunTimer => w.thread.Batch? && w.thread.rest != []
    case EndTimer => w.thread.RunningTimer?
    case Erase => w.thread.Batch? && w.thread.rest == []
    case Decide => w.thread.Deciding?
    case Recheck => Asleep(w.thread)
    case Timeout => w.thread.WaitUntil? && w.thread.deadline <= w.clock
    case _ => true
  }

  /** Notifying reaches the thread only while it sleeps. */
  function Signal(w: World): World {
    w.(signalled := w.signalled || Asleep(w.thread))
  }

  function First(m: Mailbox): (PostId, Mailbox)
    requires InOrder(m) != []
  {
    if m.critical != [] then (m.critical[0], m.(critical := m.critical[1..]))
    else if m.normal != [] then (m.normal[0], m.(normal := m.normal[1..]))
    else (m.background[0], m.(background := m.background[1..]))
  }

  function Arm(w: World, t: Timer): World {
    Signal(w.(timers := w.timers + [t], next := w.next + 1, oneShots := if t.repeat then w.oneShots else w.oneShots + {t.id}))
  }

  /** After a look that found nothing to do: sleep, unless what it would wait for is there already. */
  function Settle(w: World, wait: Thread): World
    requires Asleep(wait)
  {
    if Awaited(w.(thread := wait)) then w.(thread := Top) else w.(thread := wait, signalled := false)
  }

  function Apply(w: World, s: Step): World
    requires Enabled(w, s)
  {
    match s
    case Start => w.(thread := Top)
    case Post(priority, post) =>
      if w.stopped then w else w.(mailbox := Enqueued(w.mailbox, priority, post), owed := w.owed + 1)
    case Repeating(interval) =>
      if interval <= 0 || w.stopped then w else Arm(w, Timer(w.next, w.clock + interval, interval, true, false))
    case OneShot(delay) =>
      if delay < 0 || w.stopped then w else Arm(w, Timer(w.next, w.clock + delay, delay, false, false))
    case Cancel(id) => if id == 0 then w else w.(timers := WithCancelled(w.timers, id))
    case Pause => w.(paused := true)
    case Resume => w.(paused := false, owed := w.owed + 1)
    case Shutdown => w.(stopped := true, mailbox := EMPTY, timers := AllCancelled(w.timers), owed := w.owed + 1)
    case Joined => w.(thread := NotStarted, stopped := false, timers := [])
    case Notify => Signal(w.(owed := w.owed - 1))
    case Tick(clock) => w.(clock := clock)
    case Loop => if w.stopped then w.(thread := Exited) else if w.paused then Settle(w, PausedWait) else w.(thread := Draining)
    case Dequeue =>
      if HasWork(w) then
        var (post, mailbox) := First(w.mailbox);
        w.(mailbox := mailbox, thread := RunningPost(post))
      else w.(thread := Firing)
    case EndPost => w.(thread := if w.stopped then Firing else Draining)
    case Collect => w.(thread := Batch(DueIds(w.timers, w.clock), w.clock), timers := AllSpent(w.timers, w.clock))
    case RunTimer => w.(thread := RunningTimer(w.thread.rest[1..], w.thread.now), fired := w.fired + [w.thread.rest[0]])
    case EndTimer => w.(thread := if w.stopped then Deciding(w.thread.now) else Batch(w.thread.rest, w.thread.now))
    case Erase => w.(thread := Deciding(w.thread.now), timers := LiveOnly(w.timers))
    case Decide =>
      if w.stopped then w.(thread := Exited)
      else
        (match NextDeadline(w.timers)
         case None => Settle(w, WaitAny)
         case Some(d) => if d <= w.thread.now then w.(thread := Top) else Settle(w, WaitUntil(d)))
    case Recheck => if Awaited(w) then w.(thread := Top, signalled := false) else w.(signalled := false)
    case Timeout => w.(thread := Top, signalled := false)
  }

  // ---- Runs ----

  ghost predicate Run(w: World, steps: seq<Step>, w': World)
    decreases steps
  {
    if steps == [] then w' == w
    else Enabled(w, steps[0]) && Run(Apply(w, steps[0]), steps[1..], w')
  }

  ghost predicate Reachable(w: World) {
    exists steps :: Run(START, steps, w)
  }

  // ---- Sleeping ----

  /** A thread that sleeps although what it waits for is there has been signalled, or will be. */
  predicate WillWake(w: World) {
    Asleep(w.thread) && Awaited(w) ==> w.signalled || w.owed > 0
  }

  lemma CancelDelays(ts: seq<Timer>, id: TimerId)
    ensures forall i :: 0 <= i < |ts| ==> WithCancelled(ts, id)[i] == ts[i] || WithCancelled(ts, id)[i] == ts[i].(cancelled := true)
  {}

  lemma StepKeepsWillWake(w: World, s: Step)
    requires WillWake(w) && Enabled(w, s)
    ensures WillWake(Apply(w, s))
  {
    if s.Cancel? {
      CancelDelays(w.timers, s.id);
      LaterDeadline(w.timers, WithCancelled(w.timers, s.id));
    }
  }

  /** Marking timers as cancelled only moves the next deadline away. */
  lemma LaterDeadline(a: seq<Timer>, b: seq<Timer>)
    requires |a| == |b| && forall i :: 0 <= i < |a| ==> b[i] == a[i] || b[i] == a[i].(cancelled := true)
    ensures NextDeadline(b).Some? ==> NextDeadline(a).Some? && NextDeadline(a).value <= NextDeadline(b).value
  {}

  // ---- The timer list ----

  ghost predicate DistinctTimers(ts: seq<Timer>) {
    forall i, j :: 0 <= i < j < |ts| ==> ts[i].id != ts[j].id
  }

  /** An armed timer with this id. */
  ghost predicate IsArmed(ts: seq<Timer>, id: TimerId) {
    exists t :: t in ts && !t.cancelled && t.id == id
  }

  lemma {:induction false} DueAreListed(ts: seq<Timer>, now: int, id: TimerId)
    requires id in DueIds(ts, now)
    ensures exists t :: t in ts && t.id == id && DueBy(t, now)
  {
    var init, last := ts[..|ts| - 1], ts[|ts| - 1];
    assert ts == init + [last];
    if id in DueIds(init, now) {
      DueAreListed(init, now, id);
    } else {
      assert last in ts;
    }
  }

  lemma {:induction false} ListedAreDue(ts: seq<Timer>, now: int, t: Timer)
    requires t in ts && DueBy(t, now)
    ensures t.id in DueIds(ts, now)
  {
    var init, last := ts[..|ts| - 1], ts[|ts| - 1];
    assert ts == init + [last];
    if t != last {
      ListedAreDue(init, now, t);
    }
  }

  lemma {:induction false} OthersNotDue(ts: seq<Timer>, now: int, id: TimerId)
    requires forall i :: 0 <= i < |ts| ==> ts[i].id != id
    ensures id !in DueIds(ts, now)
  {
    if ts != [] {
      OthersNotDue(ts[..|ts| - 1], now, id);
    }
  }

  lemma {:induction false} NoneDueTwice(ts: seq<Timer>, now: int, id: TimerId)
    requires DistinctTimers(ts)
    ensures multiset(DueIds(ts, now))[id] <= 1
  {
    if ts != [] {
      var init, last := ts[..|ts| - 1], ts[|ts| - 1];
      NoneDueTwice(init, now, id);
      if id == last.id {
        OthersNotDue(init, now, id);
      }
    }
  }

  /** In a duplicate-free list exactly the due timers are collected, each once. */
  lemma CollectedOnce(ts: seq<Timer>, now: int, id: TimerId)
    requires DistinctTimers(ts)
    ensures id in DueIds(ts, now) <==> exists t :: t in ts && t.id == id && DueBy(t, now)
    ensures multiset(DueIds(ts, now))[id] <= 1
  {
    NoneDueTwice(ts, now, id);
    hide DueIds, DistinctTimers;
    if id in DueIds(ts, now) {
      DueAreListed(ts, now, id);
    }
    forall t | t in ts && t.id == id && DueBy(t, now)
      ensures id in DueIds(ts, now)
    {
      ListedAreDue(ts, now, t);
    }
  }

  lemma {:induction false} KeptAreLive(ts: seq<Timer>)
    ensures forall t :: t in LiveOnly(ts) <==> t in ts && !t.cancelled
    ensures DistinctTimers(ts) ==> DistinctTimers(LiveOnly(ts))
  {
    if ts != [] {
      var init, last := ts[..|ts| - 1], ts[|ts| - 1];
      KeptAreLive(init);
      assert ts == init + [last];
      assert forall t :: t in ts <==> t in init || t == last;
      var kept := LiveOnly(init);
      assert forall i :: 0 <= i < |kept| ==> kept[i] in kept;
    }
  }

  lemma {:induction false} CancelFinds(ts: seq<Timer>, id: TimerId)
    requires DistinctTimers(ts)
    ensures forall i :: 0 <= i < |ts| ==> WithCancelled(ts, id)[i] == if ts[i].id == id then ts[i].(cancelled := true) else ts[i]
  {
    if ts != [] {
      CancelFinds(ts[1..], id);
    }
  }

  // What each change of the list does to the armed timers.

  lemma AddKeepsList(ts: seq<Timer>, t: Timer, id: TimerId)
    requires DistinctTimers(ts) && (forall u :: u in ts ==> u.id != t.id) && !t.cancelled
    ensures DistinctTimers(ts + [t]) && (IsArmed(ts + [t], id) <==> IsArmed(ts, id) || id == t.id)
  {
    assert forall u :: u in ts + [t] <==> u in ts || u == t;
    assert forall i :: 0 <= i < |ts| ==> ts[i] in ts;
  }

  lemma CancelKeepsList(ts: seq<Timer>, c: TimerId, id: TimerId)
    requires DistinctTimers(ts)
    ensures DistinctTimers(WithCancelled(ts, c)) && (IsArmed(WithCancelled(ts, c), id) <==> IsArmed(ts, id) && id != c)
  {
    CancelFinds(ts, c);
    var r := WithCancelled(ts, c);
    if IsArmed(ts, id) && id != c {
      var i :| 0 <= i < |ts| && !ts[i].cancelled && ts[i].id == id;
      assert r[i] in r;
    }
    if IsArmed(r, id) {
      var i :| 0 <= i < |r| && !r[i].cancelled && r[i].id == id;
      assert ts[i] in ts;
    }
  }

  lemma CollectKeepsList(ts: seq<Timer>, now: int, id: TimerId)
    requires DistinctTimers(ts)
    ensures DistinctTimers(AllSpent(ts, now)) && (IsArmed(AllSpent(ts, now), id) ==> IsArmed(ts, id))
  {
    var r := AllSpent(ts, now);
    if IsArmed(r, id) {
      var i :| 0 <= i < |r| && !r[i].cancelled && r[i].id == id;
      assert ts[i] in ts;
    }
  }

  /** A collected one-shot is not armed any more. */
  lemma CollectedIsSpent(ts: seq<Timer>, now: int, id: TimerId)
    requires DistinctTimers(ts) && id in DueIds(ts, now) && forall t :: t in ts && t.id == id ==> !t.repeat
    ensures !IsArmed(AllSpent(ts, now), id)
  {
    DueAreListed(ts, now, id);
    var k :| 0 <= k < |ts| && ts[k].id == id && DueBy(ts[k], now);
    hide DueIds;
    var r := AllSpent(ts, now);
    forall i | 0 <= i < |r| && r[i].id == id
      ensures r[i].cancelled
    {
      assert i == k && ts[k] in ts;
    }
  }

  lemma EraseKeepsList(ts: seq<Timer>, id: TimerId)
    requires DistinctTimers(ts)
    ensures DistinctTimers(LiveOnly(ts)) && (IsArmed(LiveOnly(ts), id) <==> IsArmed(ts, id))
  {
    KeptAreLive(ts);
  }

  lemma StopKeepsList(ts: seq<Timer>, id: TimerId)
    requires DistinctTimers(ts)
    ensures DistinctTimers(AllCancelled(ts)) && !IsArmed(AllCancelled(ts), id)
  {}

  // ---- Firing ----

  function ToRun(th: Thread): seq<TimerId> {
    match th
    case Batch(rest, _) => rest
    case RunningTimer(rest, _) => rest
    case _ => []
  }

  /** The ids of the list have been given out, and which of them are one-shots is known. */
  ghost predicate Known(ts: seq<Timer>, next: TimerId, oneShots: set<TimerId>) {
    forall t :: t in ts ==> 0 < t.id < next && (t.id in oneShots <==> !t.repeat)
  }

  ghost predicate TimersOk(w: World) {
    && 0 < w.next && DistinctTimers(w.timers) && Known(w.timers, w.next, w.oneShots)
    && (forall id :: id in w.oneShots || id in w.fired || id in ToRun(w.thread) ==> 0 < id < w.next)
  }

  /** How often a timer was run, or will be by the batch in hand. */
  function Turns(fired: seq<TimerId>, toRun: seq<TimerId>, id: TimerId): nat {
    multiset(fired)[id] + multiset(toRun)[id]
  }

  /** A one-shot is armed, or collected and still to be run, or was run, and only one of these, once. */
  ghost predicate OnceOk(w: World, id: TimerId) {
    && Turns(w.fired, ToRun(w.thread), id) <= 1
    && (IsArmed(w.timers, id) ==> Turns(w.fired, ToRun(w.thread), id) == 0)
  }

  ghost predicate Inv(w: World) {
    WillWake(w) && TimersOk(w) && forall id :: id in w.oneShots ==> OnceOk(w, id)
  }

  /** Steps that touch neither the list, nor the batch, nor what was fired. */
  predicate QuietStep(s: Step) {
    !(s.Repeating? || s.OneShot? || s.Cancel? || s.Shutdown? || s.Joined? || s.Collect? || s.RunTimer? || s.EndTimer? || s.Erase?)
  }

  lemma QuietStepKeeps(w: World, s: Step)
    requires Enabled(w, s) && QuietStep(s)
    ensures var w' := Apply(w, s);
            && w'.timers == w.timers && w'.next == w.next && w'.fired == w.fired && w'.oneShots == w.oneShots
            && (ToRun(w'.thread) == ToRun(w.thread) || ToRun(w'.thread) == [])
  {}

  /** What one step does to one timer id: arm it, if it is the next one; collect it; run it; or forget it. */
  lemma StepAndTimer(w: World, s: Step, id: TimerId)
    requires TimersOk(w) && Enabled(w, s)
    ensures var w' := Apply(w, s);
            && DistinctTimers(w'.timers)
            && (IsArmed(w'.timers, id) ==> IsArmed(w.timers, id) || (id == w.next && w'.next == w.next + 1))
            && (s == Cancel(id) && id != 0 ==> !IsArmed(w'.timers, id))
            && (s.Collect? && id in w.oneShots && id in DueIds(w.timers, w.clock) ==> !IsArmed(w'.timers, id))
  {
    if QuietStep(s) {
      QuietStepKeeps(w, s);
    } else {
      hide DistinctTimers, IsArmed;
      match s
      case Repeating(interval) => AddKeepsList(w.timers, Timer(w.next, w.clock + interval, interval, true, false), id);
      case OneShot(delay) => AddKeepsList(w.timers, Timer(w.next, w.clock + delay, delay, false, false), id);
      case Cancel(c) => CancelKeepsList(w.timers, c, id);
      case Shutdown => StopKeepsList(w.timers, id);
      case Collect =>
        CollectKeepsList(w.timers, w.clock, id);
        if id in w.oneShots && id in DueIds(w.timers, w.clock) {
          CollectedIsSpent(w.timers, w.clock, id);
        }
      case Erase => EraseKeepsList(w.timers, id);
      case Joined => NothingArmed(id);
      case _ =>
    }
  }

  lemma NothingArmed(id: TimerId)
    ensures DistinctTimers([]) && !IsArmed([], id)
  {}

  lemma StaysKnown(ts: seq<Timer>, r: seq<Timer>, next: TimerId, oneShots: set<TimerId>)
    requires Known(ts, next, oneShots)
    requires |r| == |ts| && forall i :: 0 <= i < |ts| ==> r[i].id == ts[i].id && r[i].repeat == ts[i].repeat
    ensures Known(r, next, oneShots)
  {
    forall t | t in r
      ensures 0 < t.id < next && (t.id in oneShots <==> !t.repeat)
    {
      var i :| 0 <= i < |r| && r[i] == t;
      assert ts[i] in ts;
    }
  }

  lemma NewIsKnown(ts: seq<Timer>, t: Timer, oneShots: set<TimerId>)
    requires Known(ts, t.id, oneShots) && 0 < t.id && forall id :: id in oneShots ==> id < t.id
    ensures Known(ts + [t], t.id + 1, if t.repeat then oneShots else oneShots + {t.id})
  {
    assert forall u :: u in ts + [t] <==> u in ts || u == t;
  }

  lemma StepKeepsKnown(w: World, s: Step)
    requires TimersOk(w) && Enabled(w, s)
    ensures Known(Apply(w, s).timers, Apply(w, s).next, Apply(w, s).oneShots)
  {
    if QuietStep(s) {
      hide Known;
      QuietStepKeeps(w, s);
    } else {
      CancelFinds(w.timers, if s.Cancel? then s.id else 0);
      hide Known, DistinctTimers;
      match s
      case Repeating(interval) => NewIsKnown(w.timers, Timer(w.next, w.clock + interval, interval, true, false), w.oneShots);
      case OneShot(delay) => NewIsKnown(w.timers, Timer(w.next, w.clock + delay, delay, false, false), w.oneShots);
      case Cancel(c) => StaysKnown(w.timers, WithCancelled(w.timers, c), w.next, w.oneShots);
      case Shutdown => StaysKnown(w.timers, AllCancelled(w.timers), w.next, w.oneShots);
      case Collect => StaysKnown(w.timers, AllSpent(w.timers, w.clock), w.next, w.oneShots);
      case Erase => LiveAreKnown(w.timers, w.next, w.oneShots);
      case Joined => LiveAreKnown([], w.next, w.oneShots);
      case _ =>
    }
  }

  lemma LiveAreKnown(ts: seq<Timer>, next: TimerId, oneShots: set<TimerId>)
    requires ts != [] ==> Known(ts, next, oneShots)
    ensures Known(LiveOnly(ts), next, oneShots)
  {
    KeptAreLive(ts);
  }

  lemma StepKeepsTimersOk(w: World, s: Step)
    requires TimersOk(w) && Enabled(w, s)
    ensures TimersOk(Apply(w, s))
  {
    StepAndTimer(w, s, 0);
    StepKeepsKnown(w, s);
    CollectedIdsAreKnown(w);
    StepAndBatch(w, s);
    StepAndNext(w, s);
    if s.RunTimer? {
      assert w.thread.rest == [w.thread.rest[0]] + w.thread.rest[1..];
    }
    hide DistinctTimers, Known, IsArmed, DueIds, Apply, ToRun;
    var w' := Apply(w, s);
    forall id | id in w'.oneShots || id in w'.fired || id in ToRun(w'.thread)
      ensures 0 < id < w'.next
    {
      assert id in w.oneShots || id in w.fired || id in ToRun(w.thread) || id in DueIds(w.timers, w.clock) || id == w.next;
    }
  }

  lemma StepAndNext(w: World, s: Step)
    requires Enabled(w, s)
    ensures Apply(w, s).next >= w.next
    ensures forall id :: id in Apply(w, s).oneShots ==> id in w.oneShots || (id == w.next && Apply(w, s).next == w.next + 1)
  {
    if QuietStep(s) {
      QuietStepKeeps(w, s);
    }
  }

  lemma CollectedIdsAreKnown(w: World)
    requires TimersOk(w)
    ensures forall id :: id in DueIds(w.timers, w.clock) ==> 0 < id < w.next
  {
    forall id | id in DueIds(w.timers, w.clock)
      ensures 0 < id < w.next
    {
      DueAreListed(w.timers, w.clock, id);
    }
  }

  lemma TurnTaken(fired: seq<TimerId>, rest: seq<TimerId>, id: TimerId)
    requires rest != []
    ensures Turns(fired + [rest[0]], rest[1..], id) == Turns(fired, rest, id)
  {
    assert rest == [rest[0]] + rest[1..];
  }

  lemma NoTurns(fired: seq<TimerId>, toRun: seq<TimerId>, id: TimerId)
    ensures Turns(fired, [], id) <= Turns(fired, toRun, id)
    ensures Turns(fired, toRun, id) == 0 <==> id !in fired && id !in toRun
    ensures id !in toRun ==> Turns(fired, toRun, id) == multiset(fired)[id]
  {}

  /** Only the thread changes what is to be run: it collects, takes the first, or drops the batch. */
  lemma StepAndBatch(w: World, s: Step)
    requires Enabled(w, s)
    ensures var w' := Apply(w, s);
            if s.Collect? then w'.fired == w.fired && ToRun(w.thread) == [] && ToRun(w'.thread) == DueIds(w.timers, w.clock)
            else if s.RunTimer? then
              var rest := w.thread.rest;
              w'.fired == w.fired + [rest[0]] && ToRun(w.thread) == rest && ToRun(w'.thread) == rest[1..]
            else w'.fired == w.fired && (ToRun(w'.thread) == ToRun(w.thread) || ToRun(w'.thread) == [])
  {
    if QuietStep(s) {
      QuietStepKeeps(w, s);
    }
  }

  /** Only collecting gives a timer turns; no step takes one back from those that were run. */
  lemma StepAndTurns(w: World, s: Step, id: TimerId)
    requires Enabled(w, s)
    ensures var w' := Apply(w, s);
            var before, after := Turns(w.fired, ToRun(w.thread), id), Turns(w'.fired, ToRun(w'.thread), id);
            if s.Collect? then after == before + multiset(DueIds(w.timers, w.clock))[id] else after <= before
  {
    StepAndBatch(w, s);
    hide Apply, DueIds, ToRun;
    NoTurns(w.fired, ToRun(w.thread), id);
    if s.RunTimer? {
      TurnTaken(w.fired, w.thread.rest, id);
    }
  }

  lemma StepKeepsOnce(w: World, s: Step, id: TimerId)
    requires TimersOk(w) && Enabled(w, s) && id in w.oneShots && OnceOk(w, id)
    ensures OnceOk(Apply(w, s), id)
  {
    StepAndTimer(w, s, id);
    StepAndTurns(w, s, id);
    if s.Collect? {
      CollectedOnce(w.timers, w.clock, id);
      assert id in DueIds(w.timers, w.clock) ==> IsArmed(w.timers, id);
    }
    hide DistinctTimers, Apply, DueIds, Known, IsArmed, Turns;
  }

  lemma NewOneShotOk(w: World, s: Step, id: TimerId)
    requires TimersOk(w) && Enabled(w, s) && id !in w.oneShots && id in Apply(w, s).oneShots
    ensures OnceOk(Apply(w, s), id)
  {
    hide DistinctTimers, DueIds, Known, IsArmed, Turns;
    assert s.OneShot? && id == w.next;
    NoTurns(w.fired, ToRun(w.thread), id);
  }

  lemma StepKeepsInv(w: World, s: Step)
    requires Inv(w) && Enabled(w, s)
    ensures Inv(Apply(w, s))
  {
    StepKeepsWillWake(w, s);
    StepKeepsTimersOk(w, s);
    forall id | id in Apply(w, s).oneShots
      ensures OnceOk(Apply(w, s), id)
    {
      if id in w.oneShots {
        StepKeepsOnce(w, s, id);
      } else {
        NewOneShotOk(w, s, id);
      }
    }
  }

  lemma {:induction false} RunKeepsInv(w: World, steps: seq<Step>, w': World)
    requires Inv(w) && Run(w, steps, w')
    ensures Inv(w')
    decreases steps
  {
    if steps != [] {
      hide Apply, Enabled, Inv;
      StepKeepsInv(w, steps[0]);
      RunKeepsInv(Apply(w, steps[0]), steps[1..], w');
    }
  }

  lemma ReachableInv(w: World)
    requires Reachable(w)
    ensures Inv(w)
  {
    var steps :| Run(START, steps, w);
    RunKeepsInv(START, steps, w);
  }

  // ---- What the coordinator promises ----

  /**
   * While the thread sleeps and no notification is on its way: it is not stopped; paused if that is
   * what it waits for; else no post is queued and every armed timer is due when it wakes or later.
   */
  lemma NeverOversleeps(w: World)
    requires Reachable(w) && Asleep(w.thread) && !w.signalled && w.owed == 0
    ensures !w.stopped
    ensures w.thread.PausedWait? ==> w.paused
    ensures !w.thread.PausedWait? ==> InOrder(w.mailbox) == []
    ensures w.thread.WaitAny? ==> forall t :: t in w.timers ==> t.cancelled
    ensures w.thread.WaitUntil? ==> forall t :: t in w.timers && !t.cancelled ==> t.nextFire >= w.thread.deadline
  {
    ReachableInv(w);
  }

  /** A one-shot timer is run at most once. */
  lemma OneShotsRunOnce(w: World, id: TimerId)
    requires Reachable(w) && id in w.oneShots
    ensures multiset(w.fired)[id] <= 1
  {
    ReachableInv(w);
    assert OnceOk(w, id);
    NoTurns(w.fired, ToRun(w.thread), id);
  }

  /** Neither armed nor collected: nothing can run this timer any more. */
  ghost predicate Dead(w: World, id: TimerId) {
    id < w.next && !IsArmed(w.timers, id) && id !in ToRun(w.thread)
  }

  lemma StepKeepsDead(w: World, s: Step, id: TimerId)
    requires TimersOk(w) && Enabled(w, s) && Dead(w, id)
    ensures Dead(Apply(w, s), id) && multiset(Apply(w, s).fired)[id] == multiset(w.fired)[id]
  {
    StepAndTimer(w, s, id);
    CollectedOnce(w.timers, w.clock, id);
    assert id !in DueIds(w.timers, w.clock);
    hide DistinctTimers, IsArmed, DueIds, Known;
    if QuietStep(s) {
      QuietStepKeeps(w, s);
    }
  }

  lemma {:induction false} DeadAlong(w: World, steps: seq<Step>, w': World, id: TimerId)
    requires Inv(w) && Run(w, steps, w') && Dead(w, id)
    ensures multiset(w'.fired)[id] == multiset(w.fired)[id]
    decreases steps
  {
    if steps != [] {
      hide Apply, Enabled, Dead;
      StepKeepsDead(w, steps[0], id);
      StepKeepsInv(w, steps[0]);
      DeadAlong(Apply(w, steps[0]), steps[1..], w', id);
    }
  }

  /** A timer, repeating or not, cancelled before it is collected (or between two of its turns) never runs again. */
  lemma CancelledNeverRuns(w: World, id: TimerId, steps: seq<Step>, w': World)
    requires Reachable(w) && 0 < id < w.next && id !in ToRun(w.thread)
    requires Run(Apply(w, Cancel(id)), steps, w')
    ensures multiset(w'.fired)[id] == multiset(w.fired)[id]
  {
    ReachableInv(w);
    StepKeepsInv(w, Cancel(id));
    CancelFinds(w.timers, id);
    DeadAlong(Apply(w, Cancel(id)), steps, w', id);
  }

  /**
   * An armed timer stays as it is, whatever callbacks arm or cancel beside it, until it is collected
   * (then it is due, and in the batch), is cancelled, or the coordinator shuts down.
   */
  lemma NoTimerIsLost(w: World, s: Step, t: Timer)
    requires Reachable(w) && Enabled(w, s) && t in w.timers && !t.cancelled
    ensures || t in Apply(w, s).timers
            || (s.Collect? && t.nextFire <= w.clock && t.id in ToRun(Apply(w, s).thread))
            || s == Cancel(t.id) || s.Shutdown? || s.Joined?
  {
    ReachableInv(w);
    hide WillWake, Known, DistinctTimers, Apply, Enabled;
    ArmedStays(w, s, t);
  }

  lemma ArmedStays(w: World, s: Step, t: Timer)
    requires DistinctTimers(w.timers) && Enabled(w, s) && t in w.timers && !t.cancelled
    ensures || t in Apply(w, s).timers
            || (s.Collect? && t.nextFire <= w.clock && t.id in ToRun(Apply(w, s).thread))
            || s == Cancel(t.id) || s.Shutdown? || s.Joined?
  {
    if QuietStep(s) {
      QuietStepKeeps(w, s);
      hide Apply;
    } else {
      hide DistinctTimers, DueIds, LiveOnly, AllSpent, WithCancelled, AllCancelled, DueBy;
      match s
      case Cancel(c) =>
        if c != t.id {
          OthersStayArmed(w.timers, c, t);
        }
      case Collect => NotDueStays(w.timers, w.clock, t);
      case Erase => KeptAreLive(w.timers);
      case _ =>
    }
  }

  lemma OthersStayArmed(ts: seq<Timer>, c: TimerId, t: Timer)
    requires DistinctTimers(ts) && t in ts && t.id != c
    ensures t in WithCancelled(ts, c)
  {
    CancelFinds(ts, c);
    var i :| 0 <= i < |ts| && ts[i] == t;
    assert WithCancelled(ts, c)[i] == t;
  }

  lemma NotDueStays(ts: seq<Timer>, now: int, t: Timer)
    requires DistinctTimers(ts) && t in ts && !t.cancelled
    ensures t in AllSpent(ts, now) || (t.nextFire <= now && t.id in DueIds(ts, now))
  {
    CollectedOnce(ts, now, t.id);
    var i :| 0 <= i < |ts| && ts[i] == t;
    assert AllSpent(ts, now)[i] == Spent(t, now);
  }

  /** What was collected was due, and is run unless the coordinator stops. */
  lemma BatchIsRun(w: World, s: Step, id: TimerId)
    requires Enabled(w, s) && id in ToRun(w.thread)
    ensures id in ToRun(Apply(w, s).thread) || (s.RunTimer? && Apply(w, s).fired == w.fired + [id]) || (s.EndTimer? && w.stopped)
  {
    if s.RunTimer? {
      assert w.thread.rest == [w.thread.rest[0]] + w.thread.rest[1..];
    }
  }

  /** Only armed timers that are due are collected. */
  lemma CollectedWereDue(w: World, id: TimerId)
    requires Reachable(w) && Enabled(w, Collect)
    ensures id in ToRun(Apply(w, Collect).thread) <==>
            exists t :: t in w.timers && t.id == id && !t.cancelled && t.nextFire <= w.clock
  {
    ReachableInv(w);
    CollectedOnce(w.timers, w.clock, id);
    hide DueIds, AllSpent, Inv;
  }

  /**
   * Whether the thread was started does not matter: an unstopped coordinator arms the timer, under an
   * id that is not 0. (The header says 0 if not started.)
   */
  lemma SchedulingIgnoresStart(w: World, delay: int)
    requires Reachable(w) && !w.stopped
    ensures delay >= 0 ==> Apply(w, OneShot(delay)).timers == w.timers + [Timer(w.next, w.clock + delay, delay, false, false)]
    ensures delay > 0 ==> Apply(w, Repeating(delay)).timers == w.timers + [Timer(w.next, w.clock + delay, delay, true, false)]
    ensures w.next != 0
    ensures Reachable(START) && START.thread.NotStarted? && !START.stopped
  {
    ReachableInv(w);
    assert Run(START, [], START);
  }
}
