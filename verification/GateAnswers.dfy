/**
 * What a QuiesceForTeardown call that does not leave Open may be believed, and when a drained call
 * of one epoch is disturbed by a call of another.
 */
module GateAnswers {
  import opened FiniteSets
  import opened TeardownGates
  import opened GateProtocol

  // ---- The second call ----

  predicate NoReopen(steps: seq<Step>) {
    forall i :: 0 <= i < |steps| ==> !steps[i].Reopen?
  }

  /** This step starts gated work. */
  ghost predicate Starts(w: World, s: Step) {
    s.Begin? && Enabled(w, s) && RunsTask(w.gate, w.tasks[s.id].kind, w.tasks[s.id].epoch)
  }

  /** Some run from here, without a Reopen, starts gated work. */
  ghost predicate MayStart(w: World) {
    exists steps, w', s :: Run(w, steps, w') && NoReopen(steps) && Starts(w', s)
  }

  /** A post of this epoch waits in some mailbox. */
  ghost predicate PostQueued(w: World) {
    exists id :: id in w.tasks && w.tasks[id] == Task(Posted, w.gate.epoch, Waiting)
  }

  /** Nothing gated can start before a reopen: the gate is closed, or it drains with nothing queued and nothing running. */
  ghost predicate Sealed(w: World) {
    w.gate.state == Closed || (w.gate.state == Draining && !PostQueued(w) && forall t :: ThreadOf(w, t).stack == [])
  }

  lemma SealedStartsNothing(w: World, s: Step)
    requires Sealed(w)
    ensures !Starts(w, s)
  {}

  lemma StepKeepsSealed(w: World, s: Step)
    requires Inv(w) && Sealed(w) && Enabled(w, s) && !s.Reopen?
    ensures Sealed(Apply(w, s))
  {
    hide CallsOk, OneCall, EpochsOk, Frames, Unsettled, AtCall;
    if w.gate.state == Draining {
      assert forall t :: t in w.threads ==> ThreadOk(w.threads[t]);
      var w' := Apply(w, s);
      assert s.Enter? || s.Exit? || s.Leave? || s.Post? ==> ThreadOf(w, s.t).stack == [];
      if s.Begin? {
        SealedStartsNothing(w, s);
      }
      assert w'.threads == w.threads;
      assert forall t :: ThreadOf(w', t) == ThreadOf(w, t);
    }
  }

  lemma {:induction false} SealedAlong(w: World, steps: seq<Step>, w': World)
    requires Inv(w) && Sealed(w) && Run(w, steps, w') && NoReopen(steps)
    ensures Sealed(w')
    decreases steps
  {
    if steps != [] {
      hide Apply, Enabled, Inv, Sealed;
      StepKeepsInv(w, steps[0]);
      StepKeepsSealed(w, steps[0]);
      SealedAlong(Apply(w, steps[0]), steps[1..], w');
    }
  }

  lemma {:induction false} SealedNeverStarts(w: World)
    requires Inv(w) && Sealed(w)
    ensures !MayStart(w)
  {
    forall steps, w', s | Run(w, steps, w') && NoReopen(steps)
      ensures !Starts(w', s)
    {
      SealedAlong(w, steps, w');
      SealedStartsNothing(w', s);
    }
  }

  lemma StartsAtOnce(w: World, s: Step)
    requires Starts(w, s)
    ensures MayStart(w)
  {
    assert Run(w, [], w) && NoReopen([]);
  }

  lemma StartsNext(w: World, first: Step, s: Step)
    requires Enabled(w, first) && !first.Reopen? && Starts(Apply(w, first), s)
    ensures MayStart(w)
  {
    var w1 := Apply(w, first);
    assert Run(w1, [], w1) && [first][1..] == [];
    assert Run(w, [first], w1) && NoReopen([first]);
  }

  lemma FreshTask(tasks: map<TaskId, Task>) returns (id: TaskId)
    ensures id !in tasks
  {
    id := Bound(tasks.Keys);
  }

  lemma {:induction false} Bound(ids: set<TaskId>) returns (n: nat)
    ensures forall id :: id in ids ==> id < n
    decreases |ids|
  {
    if ids == {} {
      n := 0;
    } else {
      var id :| id in ids;
      n := Bound(ids - {id});
      assert forall x :: x in ids ==> x == id || x in ids - {id};
      n := if id < n then n else id + 1;
    }
  }

  /** With the gate draining, the asking thread can itself run what is queued, or post from inside gated work and run that. */
  lemma UnsealedMayStart(w: World, t: Tid)
    requires Free(w, t) && w.gate.state == Draining && (PostQueued(w) || ThreadOf(w, t).depth != 0)
    ensures MayStart(w)
  {
    if PostQueued(w) {
      var id :| id in w.tasks && w.tasks[id] == Task(Posted, w.gate.epoch, Waiting);
      StartsAtOnce(w, Begin(t, id));
    } else {
      var id := FreshTask(w.tasks);
      PostedMayStart(w, t, id);
    }
  }

  lemma PostedMayStart(w: World, t: Tid, id: TaskId)
    requires Free(w, t) && w.gate.state == Draining && ThreadOf(w, t).depth != 0 && id !in w.tasks
    ensures MayStart(w)
  {
    var w1 := Apply(w, Post(t, id));
    assert forall u :: ThreadOf(w1, u) == ThreadOf(w, u);
    assert Free(w1, t);
    StartsNext(w, Post(t, id), Begin(t, id));
  }

  /** The number of gated runs is the asking thread's own exactly when no other thread has any. */
  lemma OnlyOwnFrames(w: World, t: Tid)
    requires Counted(w) && ThreadOf(w, t).stage == InCode
    ensures w.gate.running <= ThreadOf(w, t).depth <==> forall u :: u != t ==> ThreadOf(w, u).stack == []
  {
    assert t in w.threads ==> ThreadOk(w.threads[t]);
    var own := set k | 0 <= k < |ThreadOf(w, t).stack| :: (t, k);
    OwnFrames(t, |ThreadOf(w, t).stack|);
    assert own <= Frames(w);
    if w.gate.running <= ThreadOf(w, t).depth {
      SubsetOfSameSize(own, Frames(w));
      forall u | u != t
        ensures ThreadOf(w, u).stack == []
      {
        assert ThreadOf(w, u).stack != [] ==> (u, 0) in Frames(w);
      }
    }
    if forall u :: u != t ==> ThreadOf(w, u).stack == [] {
      forall f | f in Frames(w)
        ensures f in own
      {
        assert ThreadOf(w, f.0).stack != [];
      }
      SubsetSize(Frames(w), own);
    }
  }

  /**
   * A quiesce call that finds the gate not open answers at once whether no other thread has gated
   * work in progress, and says just that. Answered yes, no gated work starts before a reopen if and
   * only if the gate is closed already, or no post of this epoch is queued and the caller is not
   * itself in gated work.
   */
  lemma SecondAnswer(w: World, t: Tid, call: CallId)
    requires Reachable(w) && Enabled(w, StartQuiesce(t, call)) && w.gate.state != Open
    ensures var w' := Apply(w, StartQuiesce(t, call));
            var quiet := w.gate.running <= ThreadOf(w, t).depth;
            && w' == w.(answers := w.answers + [Answer(t, quiet)])
            && (quiet <==> forall u :: u != t ==> ThreadOf(w, u).stack == [])
            && (quiet ==> (!MayStart(w') <==> w.gate.state == Closed || (!PostQueued(w) && ThreadOf(w, t).depth == 0)))
  {
    ReachableInv(w);
    OnlyOwnFrames(w, t);
    var s := StartQuiesce(t, call);
    var w' := Apply(w, s);
    StepKeepsInv(w, s);
    assert forall u :: ThreadOf(w', u) == ThreadOf(w, u);
    if w.gate.running <= ThreadOf(w, t).depth {
      SecondAnswerIsExact(w', t);
      assert PostQueued(w') <==> PostQueued(w);
    }
  }

  lemma SecondAnswerIsExact(w: World, t: Tid)
    requires Inv(w) && Free(w, t) && w.gate.state != Open && forall u :: u != t ==> ThreadOf(w, u).stack == []
    ensures !MayStart(w) <==> w.gate.state == Closed || (!PostQueued(w) && ThreadOf(w, t).depth == 0)
  {
    assert t in w.threads ==> ThreadOk(w.threads[t]);
    if w.gate.state == Closed || (!PostQueued(w) && ThreadOf(w, t).depth == 0) {
      hide MayStart;
      assert ThreadOf(w, t).depth == 0 ==> ThreadOf(w, t).stack == [];
      SealedNeverStarts(w);
    } else {
      UnsealedMayStart(w, t);
    }
  }

  lemma {:induction false} RunOn(w: World, steps: seq<Step>, w': World, s: Step)
    requires Run(w, steps, w') && Enabled(w', s)
    ensures Run(w, steps + [s], Apply(w', s))
    decreases steps
  {
    hide Apply, Enabled;
    if steps == [] {
      assert Run(Apply(w', s), [], Apply(w', s));
      assert ([] + [s])[1..] == [];
    } else {
      assert (steps + [s])[1..] == steps[1..] + [s];
      RunOn(Apply(w, steps[0]), steps[1..], w', s);
    }
  }

  lemma Next(w: World, s: Step) returns (w': World)
    requires Reachable(w) && Enabled(w, s)
    ensures Reachable(w') && w' == Apply(w, s)
  {
    hide Apply, Enabled;
    var steps :| Run(START, steps, w);
    RunOn(START, steps, w, s);
    w' := Apply(w, s);
  }

  lemma StartIsReachable()
    ensures Reachable(START)
  {
    assert Run(START, [], START);
  }

  /** A call that is answered yes while an accepted post is still queued. */
  lemma SecondCallIgnoresPending() returns (w: World)
    ensures Reachable(w) && w.answers == [Answer(2, true)]
    ensures w.gate.pending == 1 && PostQueued(w)
  {
    StartIsReachable();
    hide Reachable, Run;
    assert Free(START, 0);
    w := Next(START, Post(0, 0));
    assert Free(w, 1);
    w := Next(w, StartQuiesce(1, 0));
    assert ThreadOf(w, 2) == Thread([], InCode, 0) && Free(w, 2);
    w := Next(w, StartQuiesce(2, 1));
    assert w.tasks[0] == Task(Posted, w.gate.epoch, Waiting);
  }

  // ---- Reopening while a call is on its way ----

  ghost predicate SomeActive(w: World) {
    exists c :: c in w.calls && Active(w.calls[c])
  }

  /** Nobody reopens the gate between a call leaving Open and its close. */
  ghost predicate Patient(w: World, steps: seq<Step>)
    decreases steps
  {
    steps != [] ==>
      && Enabled(w, steps[0]) && (steps[0].Reopen? ==> !SomeActive(w))
      && Patient(Apply(w, steps[0]), steps[1..])
  }

  /** Every active call is of the current epoch, and none of an earlier one closed it. */
  ghost predicate InStep(w: World) {
    !w.crossed && forall c :: c in w.calls && Active(w.calls[c]) ==> w.calls[c].epoch == w.gate.epoch
  }

  lemma StepStaysInStep(w: World, s: Step)
    requires InStep(w) && Enabled(w, s) && (s.Reopen? ==> !SomeActive(w))
    ensures InStep(Apply(w, s))
  {
    if !s.StartQuiesce? && !s.Close? && !s.Poll? && !s.Reopen? {
      QuietStep(w, s);
    }
  }

  lemma {:induction false} PatientNeverCrosses(w: World, steps: seq<Step>, w': World)
    requires InStep(w) && Patient(w, steps) && Run(w, steps, w')
    ensures InStep(w')
    decreases steps
  {
    if steps != [] {
      StepStaysInStep(w, steps[0]);
      hide Apply, Enabled, InStep;
      PatientNeverCrosses(Apply(w, steps[0]), steps[1..], w');
    }
  }

  /**
   * When nobody reopens during a quiesce, a drained quiesce means that the gate itself skipped no
   * post of the epoch: each was run, or destroyed by its mailbox.
   */
  lemma PatientSkipsNothing(steps: seq<Step>, w: World, k: CallId, id: TaskId)
    requires Run(START, steps, w) && Patient(START, steps)
    requires k in w.calls && DrainedNow(w, w.calls[k])
    requires id in w.tasks && w.tasks[id].kind == Posted && w.tasks[id].epoch == w.gate.epoch
    ensures !w.crossed && (w.tasks[id].status.Started? || w.tasks[id].status == Dropped)
  {
    PatientNeverCrosses(START, steps, w);
    DrainedSkipsNothing(w, k, id);
  }

  /** A call leaves Open and sees the gate drained; before it closes the gate, another thread reopens it. */
  lemma ReopenedTooSoon() returns (w: World)
    ensures Reachable(w)
    ensures w == World(Gate(Open, 1, 0, 0), map[], map[], map[0 := Call(0, [], 0, 0, Decided(true))], [], false)
  {
    StartIsReachable();
    hide Reachable, Run;
    assert Free(START, 0);
    w := Next(START, StartQuiesce(0, 0));
    assert ThreadOf(w, 0) == Thread([], InCode, 0);
    w := Next(w, Poll(0, false));
    assert Free(w, 1);
    w := Next(w, Reopen(1));
  }

  /** The next quiesce is on its way when the first call closes the gate, in the wrong epoch. */
  lemma ClosedInTheNextEpoch() returns (w: World)
    ensures Reachable(w)
    ensures w == World(Gate(Closed, 1, 1, 0), map[7 := Task(Posted, 1, Waiting)], map[],
                       map[0 := Call(0, [], 0, 0, Returned(true)), 1 := Call(1, [], 0, 1, Polling)], [], true)
  {
    w := ReopenedTooSoon();
    hide Reachable, Run;
    assert Free(w, 1);
    w := Next(w, Post(1, 7));
    assert Free(w, 1);
    w := Next(w, StartQuiesce(1, 1));
    assert AtCall(w, w.calls[0]);
    w := Next(w, Close(0));
  }

  /** So a post of this epoch is skipped, and the second quiesce drains all the same. */
  lemma CrossedSkipsAPost() returns (w: World)
    ensures Reachable(w) && w.crossed && 1 in w.calls && DrainedNow(w, w.calls[1])
    ensures 7 in w.tasks && w.tasks[7] == Task(Posted, w.gate.epoch, Skipped)
  {
    w := ClosedInTheNextEpoch();
    hide Reachable, Run;
    assert ThreadOf(w, 2) == ThreadOf(w, 1) == Thread([], InCode, 0);
    w := Next(w, Begin(2, 7));
    assert AtCall(w, w.calls[1]);
    w := Next(w, Poll(1, false));
  }
}
