/**
 * What each block of the gate decides, exactly: which posts are taken, which wrapped tasks run, when
 * a quiesce call is drained, and what a reopen opens.
 */
module GateDecisions {
  import opened FiniteSets
  import opened TeardownGates
  import opened GateProtocol

  // ---- Posting ----

  /** A post is taken while the gate is open, and while it drains if the thread is in gated work itself. */
  lemma PostIsExact(w: World, t: Tid, id: TaskId)
    requires Reachable(w) && Enabled(w, Post(t, id))
    ensures var w' := Apply(w, Post(t, id));
            if w.gate.state == Open || (w.gate.state == Draining && ThreadOf(w, t).stack != []) then
              && w'.tasks == w.tasks[id := Task(Posted, w.gate.epoch, Waiting)]
              && w'.gate == w.gate.(pending := w.gate.pending + 1)
            else w' == w
  {
    ReachableInv(w);
    assert t in w.threads ==> ThreadOk(w.threads[t]);
  }

  /** A timer is wrapped whatever the state of the gate, and not counted. */
  lemma ArmIsExact(w: World, id: TaskId, kind: GateKind)
    requires id !in w.tasks && kind != Posted
    ensures Apply(w, Arm(id, kind)) == w.(tasks := w.tasks[id := Task(kind, w.gate.epoch, Waiting)])
  {}

  // ---- Running what was wrapped ----

  /** The task is now the innermost one of the thread. */
  predicate Entered(w: World, t: Tid, id: TaskId, w': World) {
    ThreadOf(w', t).stack == ThreadOf(w, t).stack + [id]
  }

  /**
   * A wrapped task that begins runs if and only if, for a post, the gate is not closed and still in
   * its epoch; for a one-shot timer, open and in its epoch; for a repeating one, open.
   */
  lemma BeginIsExact(w: World, t: Tid, id: TaskId)
    requires Enabled(w, Begin(t, id))
    ensures var w', task := Apply(w, Begin(t, id)), w.tasks[id];
            && (task.kind == Posted ==> (Entered(w, t, id, w') <==> w.gate.state != Closed && w.gate.epoch == task.epoch))
            && (task.kind == OneShotTimer ==> (Entered(w, t, id, w') <==> w.gate.state == Open && w.gate.epoch == task.epoch))
            && (task.kind == RepeatingTimer ==> (Entered(w, t, id, w') <==> w.gate.state == Open))
    ensures var w', task := Apply(w, Begin(t, id)), w.tasks[id];
            && w'.gate == w.gate.(pending := w'.gate.pending, running := w'.gate.running)
            && w'.gate.pending == w.gate.pending - (if task.kind == Posted then 1 else 0)
            && w'.gate.running == w.gate.running + (if Entered(w, t, id, w') then 1 else 0)
            && (task.kind != RepeatingTimer ==> (w'.tasks[id].status.Started? <==> Entered(w, t, id, w')))
            && (Entered(w, t, id, w') ==> w'.tasks[id].status == Started(w.gate.epoch))
            && (!Entered(w, t, id, w') ==> w'.threads == w.threads)
  {}

  /** Some step of the run reopened a gate that was not open. */
  ghost predicate Reopened(w: World, steps: seq<Step>)
    decreases steps
  {
    steps != [] && Enabled(w, steps[0]) && ((steps[0].Reopen? && w.gate.state != Open) || Reopened(Apply(w, steps[0]), steps[1..]))
  }

  /** The epoch counts these. */
  lemma {:induction false} EpochAlong(w: World, steps: seq<Step>, w': World)
    requires Run(w, steps, w')
    ensures w.gate.epoch <= w'.gate.epoch
    ensures Reopened(w, steps) <==> w.gate.epoch < w'.gate.epoch
    decreases steps
  {
    if steps != [] {
      var next := Apply(w, steps[0]);
      EpochOfStep(w, steps[0]);
      hide Apply, Enabled;
      EpochAlong(next, steps[1..], w');
    }
  }

  lemma EpochOfStep(w: World, s: Step)
    requires Enabled(w, s)
    ensures Apply(w, s).gate.epoch == w.gate.epoch + if s.Reopen? && w.gate.state != Open then 1 else 0
  {
    hide AtCall;
  }

  /** The task a step wraps for the gate. */
  predicate Wraps(s: Step, id: TaskId) {
    (s.Post? && s.id == id) || (s.Arm? && s.id == id)
  }

  /**
   * Over runs: work that was wrapped, whenever it begins, runs if and only if the gate has not been
   * reopened since (a repeating timer does not mind) and is then open, or for a post at least not closed.
   */
  lemma WrappedRunsExactly(w: World, s: Step, steps: seq<Step>, w': World, t: Tid, id: TaskId)
    requires Enabled(w, s) && Wraps(s, id) && id in Apply(w, s).tasks && Run(Apply(w, s), steps, w')
    requires Enabled(w', Begin(t, id))
    ensures var entered := Entered(w', t, id, Apply(w', Begin(t, id)));
            && (s.Post? ==> (entered <==> w'.gate.state != Closed && !Reopened(Apply(w, s), steps)))
            && (s.Arm? && s.kind == OneShotTimer ==> (entered <==> w'.gate.state == Open && !Reopened(Apply(w, s), steps)))
            && (s.Arm? && s.kind == RepeatingTimer ==> (entered <==> w'.gate.state == Open))
  {
    EpochAlong(Apply(w, s), steps, w');
    TasksAreKept(Apply(w, s), steps, w', id);
    BeginIsExact(w', t, id);
    WrappedInEpoch(w, s, id);
    hide Apply, Enabled, Entered, Reopened, Run;
  }

  lemma WrappedInEpoch(w: World, s: Step, id: TaskId)
    requires Enabled(w, s) && Wraps(s, id) && id in Apply(w, s).tasks
    ensures Apply(w, s).tasks[id].epoch == w.gate.epoch == Apply(w, s).gate.epoch
    ensures Apply(w, s).tasks[id].kind == if s.Post? then Posted else s.kind
  {
    hide AtCall;
  }

  /** Inside its body the thread is at no quiesce call of its own: those enclose less. */
  lemma InsideIsFree(w: World, begun: World, t: Tid, id: TaskId)
    requires forall c :: c in w.calls && w.calls[c].thread == t && Active(w.calls[c]) ==> Encloses(w.calls[c], ThreadOf(w, t))
    requires begun.calls == w.calls && ThreadOf(begun, t) == Push(ThreadOf(w, t), id)
    ensures Enabled(begun, Enter(t)) && Free(Apply(begun, Enter(t)), t)
  {
    hide OneCall, EpochsOk;
  }

  /** Work that began has its body run, one deeper than before, and leaves the thread and the count as they were. */
  lemma TaskIsBracketed(w: World, t: Tid, id: TaskId)
    requires Reachable(w) && Enabled(w, Begin(t, id)) && Entered(w, t, id, Apply(w, Begin(t, id)))
    ensures var begun := Apply(w, Begin(t, id));
            && Enabled(begun, Enter(t))
            && var inside := Apply(begun, Enter(t));
               && ThreadOf(inside, t).depth == ThreadOf(w, t).depth + 1 && Enabled(inside, Exit(t))
               && var over := Apply(inside, Exit(t));
                  && Enabled(over, Leave(t))
                  && ThreadOf(Apply(over, Leave(t)), t) == ThreadOf(w, t)
                  && Apply(over, Leave(t)).gate.running == w.gate.running
  {
    ReachableInv(w);
    var begun := Apply(w, Begin(t, id));
    assert forall c :: c in w.calls && w.calls[c].thread == t && Active(w.calls[c]) ==>
             CallOk(w, w.calls[c]) && Encloses(w.calls[c], ThreadOf(w, t));
    assert ThreadOf(begun, t) == Push(ThreadOf(w, t), id) && begun.calls == w.calls && begun.gate.running == w.gate.running + 1;
    hide Inv, RunsTask, CallOk, CallsOk, EpochsOk, Counted, OneCall, Quiet, AfterBegin;
    InsideIsFree(w, begun, t, id);
  }

  /** A post its mailbox destroys is settled as dropped, and neither that nor any later step starts it. */
  lemma DroppedNeverRuns(w: World, id: TaskId, steps: seq<Step>, w': World)
    requires id in w.tasks && w.tasks[id].kind == Posted && w.tasks[id].status == Waiting
    requires Run(Apply(w, Drop(id)), steps, w')
    ensures Apply(w, Drop(id)).gate == w.gate.(pending := w.gate.pending - 1)
    ensures id in w'.tasks && w'.tasks[id].status == Dropped
  {
    TasksAreKept(Apply(w, Drop(id)), steps, w', id);
    hide Run;
  }

  // ---- Draining ----

  /**
   * A poll of the call that left Open ends the wait as drained if and only if no accepted post is
   * unsettled and no thread but its own is in gated work; else it goes on, or gives up when the time is over.
   */
  lemma PollIsExact(w: World, k: CallId, expired: bool)
    requires Reachable(w) && Enabled(w, Poll(k, expired))
    ensures var phase, c := Apply(w, Poll(k, expired)).calls[k].phase, w.calls[k];
            var quiet := Unsettled(w) == {} && forall t :: t != c.thread ==> ThreadOf(w, t).stack == [];
            phase == if quiet then Decided(true) else if expired then Decided(false) else Polling
  {
    ReachableInv(w);
    var c := w.calls[k];
    assert CallOk(w, c);
    if IsDrained(w.gate, c.ownDepth) {
      DrainedIsQuiet(w, c);
    } else if Unsettled(w) == {} && forall t :: t != c.thread ==> ThreadOf(w, t).stack == [] {
      OnlyOwnFrames(w, c);
    }
  }

  /** When no other thread runs any, what runs is what encloses the call. */
  lemma OnlyOwnFrames(w: World, c: Call)
    requires Counted(w) && AtCall(w, c) && forall t :: t != c.thread ==> ThreadOf(w, t).stack == []
    ensures w.gate.running == |c.enclosing|
  {
    var own := set k | 0 <= k < |c.enclosing| :: (c.thread, k);
    OwnFrames(c.thread, |c.enclosing|);
    forall f | f in Frames(w)
      ensures f in own
    {
      assert ThreadOf(w, f.0).stack != [];
    }
    assert Frames(w) == own;
  }

  /** Only these steps move the gate between its states, and only a reopen of a gate that is not open its epoch. */
  lemma StateOfStep(w: World, s: Step)
    requires Enabled(w, s)
    ensures Apply(w, s).gate.state ==
            if s.Reopen? then Open
            else if s.Close? then Closed
            else if s.StartQuiesce? && w.gate.state == Open then Draining
            else w.gate.state
    ensures Apply(w, s).gate.epoch == w.gate.epoch + if s.Reopen? && w.gate.state != Open then 1 else 0
  {
    EpochOfStep(w, s);
  }
}
