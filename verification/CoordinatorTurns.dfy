/**
 * In which order the coordinator runs its posts, how often its timers have their turns, and that its
 * own steps always lead to the next post and to every timer that is due.
 */
module CoordinatorTurns {
  import opened ByteStrings
  import opened Coordinators
  import opened CoordinatorProtocol

  // ---- Posts ----

  /**
   * Posts run in the order of their lanes, the more urgent first, and each lane first in, first out: a post
   * goes to the back of its own lane, the thread takes the first of all, and only Shutdown drops any.
   */
  lemma PostsStayInOrder(w: World, s: Step)
    requires Enabled(w, s)
    ensures var m, m' := w.mailbox, Apply(w, s).mailbox;
            if s.Shutdown? then m'.critical + m'.normal + m'.background == []
            else if s.Post? && !w.stopped then
              && m'.critical == m.critical + (if s.priority == Critical then [s.post] else [])
              && m'.normal == m.normal + (if s.priority == Normal then [s.post] else [])
              && m'.background == m.background + (if s.priority == Background then [s.post] else [])
            else if s.Dequeue? && m.critical + m.normal + m.background != [] then
              && Apply(w, s).thread.RunningPost?
              && [Apply(w, s).thread.post] + (m'.critical + m'.normal + m'.background) == m.critical + m.normal + m.background
            else m' == m
  {
    if s.Dequeue? && InOrder(w.mailbox) != [] {
      FirstIsNext(w.mailbox);
      hide First;
    }
  }

  /** What comes first, and the rest as it was. */
  lemma FirstIsNext(m: Mailbox)
    requires InOrder(m) != []
    ensures [First(m).0] + InOrder(First(m).1) == InOrder(m)
  {
    if m.critical != [] {
      assert m.critical == [m.critical[0]] + m.critical[1..];
    } else if m.normal != [] {
      assert m.normal == [m.normal[0]] + m.normal[1..];
    }
  }

  // ---- The timer list keeps its order ----

  lemma LastOfList(ts: seq<Timer>, t: Timer, now: int)
    ensures DueIds(ts + [t], now) == DueIds(ts, now) + if !t.cancelled && t.nextFire <= now then [t.id] else []
    ensures LiveOnly(ts + [t]) == LiveOnly(ts) + if t.cancelled then [] else [t]
  {
    assert (ts + [t])[..|ts|] == ts;
  }

  lemma {:induction false} DueJoin(a: seq<Timer>, b: seq<Timer>, now: int)
    ensures DueIds(a + b, now) == DueIds(a, now) + DueIds(b, now)
    decreases b
  {
    if b == [] {
      assert a + b == a && DueIds(b, now) == [];
    } else {
      var init, last := b[..|b| - 1], b[|b| - 1];
      hide DueIds;
      DueJoin(a, init, now);
      LastOfList(a + init, last, now);
      LastOfList(init, last, now);
      Assoc(a, init, [last]);
      assert b == init + [last];
      Assoc(DueIds(a, now), DueIds(init, now), if !last.cancelled && last.nextFire <= now then [last.id] else []);
    }
  }

  lemma {:induction false} LiveJoin(a: seq<Timer>, b: seq<Timer>)
    ensures LiveOnly(a + b) == LiveOnly(a) + LiveOnly(b)
    decreases b
  {
    if b == [] {
      assert a + b == a && LiveOnly(b) == [];
    } else {
      var init, last := b[..|b| - 1], b[|b| - 1];
      hide LiveOnly;
      LiveJoin(a, init);
      LastOfList(a + init, last, 0);
      LastOfList(init, last, 0);
      Assoc(a, init, [last]);
      assert b == init + [last];
      Assoc(LiveOnly(a), LiveOnly(init), if last.cancelled then [] else [last]);
    }
  }

  /**
   * Collecting and erasing go through the list in its order: each timer has its place in the batch if it
   * is armed and due, and keeps its place in the list if it is not cancelled.
   */
  lemma ListOrder(a: seq<Timer>, t: Timer, b: seq<Timer>, now: int)
    ensures DueIds(a + [t] + b, now) == DueIds(a, now) + (if !t.cancelled && t.nextFire <= now then [t.id] else []) + DueIds(b, now)
    ensures LiveOnly(a + [t] + b) == LiveOnly(a) + (if t.cancelled then [] else [t]) + LiveOnly(b)
  {
    hide DueIds, LiveOnly;
    LastOfList(a, t, now);
    DueJoin(a + [t], b, now);
    LiveJoin(a + [t], b);
  }

  // ---- Repeating timers ----

  /** Collecting, timer by timer: one that is not due stays, a repeating one is armed again from now, a one-shot is spent. */
  lemma CollectIsExact(w: World, i: nat)
    requires Enabled(w, Collect) && i < |w.timers|
    ensures var t, ts := w.timers[i], Apply(w, Collect).timers;
            && |ts| == |w.timers|
            && ts[i] == if t.cancelled || t.nextFire > w.clock then t
                        else if t.repeat then t.(nextFire := w.clock + t.interval)
                        else t.(cancelled := true)
  {}

  lemma CollectStep(w: World, t: Timer)
    requires Enabled(w, Collect) && t in w.timers && !t.cancelled
    ensures t.nextFire > w.clock ==> t in Apply(w, Collect).timers
    ensures t.nextFire <= w.clock ==> t.id in ToRun(Apply(w, Collect).thread)
    ensures t.nextFire <= w.clock && t.repeat ==> t.(nextFire := w.clock + t.interval) in Apply(w, Collect).timers
  {
    SpentInList(w.timers, w.clock, t);
    if t.nextFire <= w.clock {
      ListedAreDue(w.timers, w.clock, t);
    }
    hide AllSpent, DueIds;
  }

  lemma SpentInList(ts: seq<Timer>, now: int, t: Timer)
    requires t in ts && !t.cancelled
    ensures t.nextFire > now ==> t in AllSpent(ts, now)
    ensures t.nextFire <= now && t.repeat ==> t.(nextFire := now + t.interval) in AllSpent(ts, now)
  {
    var i :| 0 <= i < |ts| && ts[i] == t;
    assert AllSpent(ts, now)[i] == Spent(t, now);
  }

  /**
   * A step leaves an armed repeating timer as it is, unless it collects it: then it is in the batch, and
   * armed again an interval from now. Only its cancel, Shutdown and the join take it away.
   */
  lemma RepeatingStep(w: World, s: Step, t: Timer)
    requires Inv(w) && Enabled(w, s) && t in w.timers && !t.cancelled && t.repeat
    requires s != Cancel(t.id) && !s.Shutdown? && !s.Joined?
    ensures if s.Collect? && t.nextFire <= w.clock then
              t.(nextFire := w.clock + t.interval) in Apply(w, s).timers && t.id in ToRun(Apply(w, s).thread)
            else t in Apply(w, s).timers
  {
    if s.Collect? {
      CollectStep(w, t);
    } else {
      assert DistinctTimers(w.timers);
      hide Inv, DistinctTimers, Apply, Enabled;
      ArmedStays(w, s, t);
    }
  }

  /** Armed, and repeating with this interval. */
  ghost predicate ArmedEvery(w: World, id: TimerId, interval: int) {
    exists t :: t in w.timers && t.id == id && t.repeat && t.interval == interval && !t.cancelled
  }

  /** Over runs: a repeating timer stays armed with its interval until its own cancel, Shutdown or the join. */
  lemma {:induction false} RepeatingStaysArmed(w: World, steps: seq<Step>, w': World, id: TimerId, interval: int)
    requires Inv(w) && CoordinatorProtocol.Run(w, steps, w') && ArmedEvery(w, id, interval)
    requires forall i :: 0 <= i < |steps| ==> steps[i] != Cancel(id) && !steps[i].Shutdown? && !steps[i].Joined?
    ensures ArmedEvery(w', id, interval)
    decreases steps
  {
    if steps != [] {
      var t :| t in w.timers && t.id == id && t.repeat && t.interval == interval && !t.cancelled;
      hide Inv, Apply, Enabled;
      StepKeepsInv(w, steps[0]);
      RepeatingStep(w, steps[0], t);
      RepeatingStaysArmed(Apply(w, steps[0]), steps[1..], w', id, interval);
    }
  }

  // ---- Turns ----

  /** This look finds the timer armed and due. */
  ghost predicate FindsDue(w: World, s: Step, id: TimerId) {
    s.Collect? && exists t :: t in w.timers && t.id == id && !t.cancelled && t.nextFire <= w.clock
  }

  /** How often the looks of a run did. */
  ghost function DueLooks(w: World, steps: seq<Step>, id: TimerId): nat
    decreases steps
  {
    if steps == [] || !Enabled(w, steps[0]) then 0
    else (if FindsDue(w, steps[0], id) then 1 else 0) + DueLooks(Apply(w, steps[0]), steps[1..], id)
  }

  lemma StepCountsTurns(w: World, s: Step, id: TimerId)
    requires Inv(w) && Enabled(w, s) && !w.stopped && !s.Shutdown?
    ensures !Apply(w, s).stopped
    ensures Turns(Apply(w, s).fired, ToRun(Apply(w, s).thread), id) ==
            Turns(w.fired, ToRun(w.thread), id) + if FindsDue(w, s, id) then 1 else 0
  {
    StepAndBatch(w, s);
    KeepsBatch(w, s);
    CollectedOnce(w.timers, w.clock, id);
    assert forall t :: t in w.timers ==> (DueBy(t, w.clock) <==> !t.cancelled && t.nextFire <= w.clock);
    assert s.Collect? ==> (FindsDue(w, s, id) <==> id in DueIds(w.timers, w.clock));
    hide Apply, DueIds, ToRun, Inv, FindsDue;
    NoTurns(w.fired, ToRun(w.thread), id);
    if s.RunTimer? {
      TurnTaken(w.fired, w.thread.rest, id);
    }
  }

  /** While the coordinator is not stopped no batch is dropped. */
  lemma KeepsBatch(w: World, s: Step)
    requires Enabled(w, s) && !w.stopped && !s.Shutdown?
    ensures !Apply(w, s).stopped
    ensures s.Collect? || s.RunTimer? || ToRun(Apply(w, s).thread) == ToRun(w.thread)
  {
    hide NextDeadline, InOrder, First, Awaited;
  }

  /** Until Shutdown a timer, repeating or not, runs exactly as often as looks have found it due (or is about to, in the batch). */
  lemma {:induction false} TurnsAreCounted(w: World, steps: seq<Step>, w': World, id: TimerId)
    requires Inv(w) && !w.stopped && CoordinatorProtocol.Run(w, steps, w')
    requires forall i :: 0 <= i < |steps| ==> !steps[i].Shutdown?
    ensures multiset(w'.fired)[id] + multiset(ToRun(w'.thread))[id] ==
            multiset(w.fired)[id] + multiset(ToRun(w.thread))[id] + DueLooks(w, steps, id)
    decreases steps
  {
    if steps != [] {
      StepCountsTurns(w, steps[0], id);
      StepKeepsInv(w, steps[0]);
      hide Inv, Apply, Enabled, ToRun, FindsDue;
      TurnsAreCounted(Apply(w, steps[0]), steps[1..], w', id);
    }
  }

}
