/** What DropPending and Close stop from starting, and when their caller is kept waiting. */
module OwnerTasksDrops {
  import opened ByteStrings
  import opened OwnerTaskLists
  import opened OwnerTasksProtocol

  // ---- Bodies bound before ----

  /** The delivery on top of the stack still gets to its body, whatever the generation. */
  predicate InFlight(w: World) {
    w.stack != [] &&
    match TopOf(w)
    case InBody(_) => false
    case Claimed(_) => true
    case Checked(b) => b in w.bodies && (w.bodies[b].slot in w.tasks.timers || w.recording == Some(b))
  }

  /** Bound in an earlier generation than `g`. */
  predicate Older(w: World, b: BodyId, g: nat) {
    b in w.bodies && w.bodies[b].generation < g
  }

  /** Nothing older than `g` is on its way to its body. */
  predicate Past(w: World, g: nat) {
    g <= w.tasks.generation && !(InFlight(w) && Older(w, TopOf(w).body, g))
  }

  lemma StepStaysPast(w: World, s: Step, g: nat)
    requires StackOk(w) && SlotsOk(w) && Past(w, g) && Enabled(w, s)
    ensures Past(Apply(w, s), g)
    ensures s.Begin? ==> !Older(w, TopOf(w).body, g)
  {
    if MutexStep(s) {
      MutexStepKeeps(w, s);
    } else if IsOp(s) {
      OpStep(w, s);
    } else if s.Return? || s.Claim? {
      ReturnToBody(w);
    }
  }

  /** In some run from here a body older than `g` starts. */
  ghost predicate OlderStarts(w: World, g: nat) {
    exists steps, w' :: Run(w, steps, w') && Enabled(w', Begin) && Older(w', TopOf(w').body, g)
  }

  lemma {:induction false} StaysPast(w: World, steps: seq<Step>, w': World, g: nat)
    requires Inv(w) && Past(w, g) && Run(w, steps, w')
    ensures Past(w', g)
    decreases steps
  {
    if steps != [] {
      StepStaysPast(w, steps[0], g);
      StepKeepsInv(w, steps[0]);
      hide Apply, Enabled, Inv, Past;
      StaysPast(Apply(w, steps[0]), steps[1..], w', g);
    }
  }

  lemma PastStartsNone(w: World, g: nat)
    requires Inv(w) && Past(w, g)
    ensures !OlderStarts(w, g)
  {
    forall steps, w' | Run(w, steps, w')
      ensures !(Enabled(w', Begin) && Older(w', TopOf(w').body, g))
    {
      StaysPast(w, steps, w', g);
    }
  }

  lemma OlderStartsLater(w: World, s: Step, g: nat)
    requires Enabled(w, s) && OlderStarts(Apply(w, s), g)
    ensures OlderStarts(w, g)
  {
    hide Apply, Older;
    var steps, w' :| Run(Apply(w, s), steps, w') && Enabled(w', Begin) && Older(w', TopOf(w').body, g);
    assert ([s] + steps)[1..] == steps;
    assert Run(w, [s] + steps, w');
  }

  lemma ClaimedOlderStarts(w: World, g: nat)
    requires Enabled(w, Begin) && Older(w, TopOf(w).body, g)
    ensures OlderStarts(w, g)
  {
    assert Run(w, [], w);
  }

  /** A checked timer waits for the recording in progress, is claimed, and starts. */
  lemma InFlightStarts(w: World, g: nat)
    requires SlotsOk(w) && InFlight(w) && Older(w, TopOf(w).body, g)
    ensures OlderStarts(w, g)
    decreases TopOf(w).Checked?, w.recording.Some?
  {
    if TopOf(w).Claimed? {
      ClaimedOlderStarts(w, g);
    } else if w.recording.Some? {
      var s := Record(if w.recording == Some(TopOf(w).body) then w.issued else 0);
      StepKeepsSlots(w, s);
      var w' := Apply(w, s);
      assert w'.stack == w.stack;
      hide OlderStarts;
      InFlightStarts(w', g);
      OlderStartsLater(w, s, g);
    } else {
      StepKeepsSlots(w, Claim);
      hide OlderStarts;
      InFlightStarts(Apply(w, Claim), g);
      OlderStartsLater(w, Claim, g);
    }
  }

  /** From any point on: a body older than `g` starts, in some run, exactly when one is on its way already. */
  lemma OlderStartsExactly(w: World, g: nat)
    requires Inv(w) && g <= w.tasks.generation
    ensures OlderStarts(w, g) <==> InFlight(w) && Older(w, TopOf(w).body, g)
  {
    if InFlight(w) && Older(w, TopOf(w).body, g) {
      InFlightStarts(w, g);
    } else {
      PastStartsNone(w, g);
    }
  }

  /**
   * After Invalidate, from any thread, some body bound before may start if and only if a delivery was
   * on its way to one; called on the owner, none is.
   */
  lemma InvalidateIsExact(w: World)
    requires Reachable(w)
    ensures OlderStarts(Apply(w, Invalidate), w.tasks.generation + 1) <==> InFlight(w)
    ensures forall b :: b in w.bodies ==> Older(Apply(w, Invalidate), b, w.tasks.generation + 1)
    ensures OwnerFree(w) ==> !InFlight(w)
  {
    ReachableInv(w);
    StepKeepsInv(w, Invalidate);
    OlderStartsExactly(Apply(w, Invalidate), w.tasks.generation + 1);
  }

  /** Bound later, a body is not older; so those above are exactly the ones bound before. */
  lemma {:induction false} OnlyThoseBefore(w: World, steps: seq<Step>, w': World, g: nat, b: BodyId)
    requires Run(w, steps, w') && g <= w.tasks.generation && b !in w.bodies
    ensures !Older(w', b, g)
    decreases steps
  {
    if steps != [] {
      var w1 := Apply(w, steps[0]);
      if b in w1.bodies {
        BoundNow(w, steps[0], b);
        KeepsGeneration(w1, steps[1..], w', b);
      } else {
        StepGrows(w, steps[0]);
        hide Apply, Enabled;
        OnlyThoseBefore(w1, steps[1..], w', g, b);
      }
    }
  }

  lemma BoundNow(w: World, s: Step, b: BodyId)
    requires Enabled(w, s) && b !in w.bodies && b in Apply(w, s).bodies
    ensures Apply(w, s).bodies[b].generation == w.tasks.generation
  {
    if MutexStep(s) {
      MutexStepKeeps(w, s);
    } else if IsOp(s) {
      OpStep(w, s);
    }
  }

  lemma StepGrows(w: World, s: Step)
    requires Enabled(w, s)
    ensures w.tasks.generation <= Apply(w, s).tasks.generation
  {
    if MutexStep(s) {
      MutexStepKeeps(w, s);
    } else if IsOp(s) {
      OpStep(w, s);
    }
  }

  lemma {:induction false} KeepsGeneration(w: World, steps: seq<Step>, w': World, b: BodyId)
    requires Run(w, steps, w') && b in w.bodies
    ensures b in w'.bodies && w'.bodies[b].generation == w.bodies[b].generation
    decreases steps
  {
    if steps != [] {
      StepKeepsKind(w, steps[0], b);
      hide Apply, Enabled;
      KeepsGeneration(Apply(w, steps[0]), steps[1..], w', b);
    }
  }

  /**
   * DropPending or Close on the owner, whatever other threads did and do: in no later run does a body
   * bound before it start.
   */
  lemma DroppedNeverStarts(w: World, steps: seq<Step>, w': World)
    requires Reachable(w) && OwnerFree(w) && Run(Apply(w, Invalidate), steps, w')
    requires Enabled(w', Begin)
    ensures TopOf(w').body !in w.bodies
  {
    InvalidateIsExact(w);
    var g := w.tasks.generation + 1;
    assert !OlderStarts(Apply(w, Invalidate), g);
    assert !Older(w', TopOf(w').body, g);
    if TopOf(w').body in w.bodies {
      KeepsGeneration(Apply(w, Invalidate), steps, w', TopOf(w').body);
    }
  }

  // ---- It does happen ----

  lemma {:induction false} RunOn(w: World, steps: seq<Step>, w': World, s: Step)
    requires Run(w, steps, w') && Enabled(w', s)
    ensures Run(w, steps + [s], Apply(w', s))
    decreases steps
  {
    hide Apply, Enabled;
    if steps == [] {
      assert Run(Apply(w', s), [], Apply(w', s));
      assert ([] + [s])[1..] == [];
    } else {
      assert (steps + [s])[1..] == steps[1..] + [s];
      RunOn(Apply(w, steps[0]), steps[1..], w', s);
    }
  }

  lemma Next(w: World, s: Step) returns (w': World)
    requires Reachable(w) && Enabled(w, s)
    ensures Reachable(w') && w' == Apply(w, s)
  {
    hide Apply, Enabled;
    var steps :| Run(START, steps, w);
    RunOn(START, steps, w, s);
    w' := Apply(w, s);
  }

  lemma StartIsReachable()
    ensures Reachable(START)
  {
    assert Run(START, [], START);
  }

  /** DropPending on another thread, between a delivery's check and its body: an old body starts after it. */
  lemma ForeignDropComesTooLate() returns (w: World)
    ensures Reachable(w) && w.starts == [0] && 0 in w.bodies && w.bodies[0].generation < w.tasks.generation
  {
    StartIsReachable();
    hide Reachable, Run;
    w := Next(START, Direct(Post(0)));
    w := Next(w, Deliver(0));
    w := Next(w, Invalidate);
    w := Next(w, DropTimers);
    w := Next(w, Begin);
  }

  // ---- Handles ----

  /** Closed, and no handle call that read the pointer before has yet to reach the executor. */
  predicate CutOff(w: World) {
    !w.tasks.open && forall i :: 0 <= i < |w.handleCalls| ==> w.handleCalls[i].open ==> w.handleCalls[i].used
  }

  lemma StepStaysCutOff(w: World, s: Step)
    requires CutOff(w) && Enabled(w, s)
    ensures CutOff(Apply(w, s))
    ensures Apply(w, s).asked == w.asked || Apply(w, s).asked == w.asked + [Directly]
  {
    if MutexStep(s) {
      MutexStepKeeps(w, s);
    }
  }

  lemma {:induction false} CutOffAlong(w: World, steps: seq<Step>, w': World)
    requires CutOff(w) && Run(w, steps, w')
    ensures CutOff(w') && w.asked <= w'.asked
    ensures forall i :: |w.asked| <= i < |w'.asked| ==> w'.asked[i].Directly?
    decreases steps
  {
    if steps != [] {
      StepStaysCutOff(w, steps[0]);
      hide CutOff, Apply, Enabled;
      CutOffAlong(Apply(w, steps[0]), steps[1..], w');
    }
  }

  /**
   * After Close, by any thread and also from inside a handle call, no handle call ever reaches the
   * executor: what reaches it in any later run is asked of the tasks directly.
   */
  lemma HandlesStopAtClose(w: World, t: Tid, steps: seq<Step>, w': World)
    requires Reachable(w) && Enabled(w, CloseHandle(t)) && Run(Apply(w, CloseHandle(t)), steps, w')
    ensures w.asked <= w'.asked
    ensures forall i :: |w.asked| <= i < |w'.asked| ==> w'.asked[i].Directly?
  {
    ReachableInv(w);
    CutOffAlong(Apply(w, CloseHandle(t)), steps, w');
  }

  /** Before Close handle calls do reach it, from any thread that holds the mutex alone. */
  lemma HandlesReachBeforeClose(w: World, t: Tid, b: BodyId)
    requires w.handleCalls == [] && w.tasks.open && b !in w.bodies
    ensures Enabled(w, EnterHandle(t)) && Enabled(Apply(w, EnterHandle(t)), ThroughHandle(t, Post(b)))
    ensures Apply(Apply(w, EnterHandle(t)), ThroughHandle(t, Post(b))).asked == w.asked + [ByHandle]
  {}

  /** Steps only the thread in a handle call takes, and the mutex of the timers its After may wait for. */
  lemma {:induction false} HandleCallsEnd(w: World, t: Tid) returns (steps: seq<Step>, w': World)
    requires Inv(w) && (w.handleCalls != [] ==> w.holder == Some(t))
    ensures Run(w, steps, w') && w'.handleCalls == []
    ensures forall i :: 0 <= i < |steps| ==> steps[i] == LeaveHandle(t) || steps[i] == Record(0)
    decreases |w.handleCalls|, w.recording.Some?
  {
    if w.handleCalls == [] {
      return [], w;
    }
    var s := if w.recording.Some? then Record(0) else LeaveHandle(t);
    StepKeepsInv(w, s);
    var w1 := Apply(w, s);
    assert w1.holder == w.holder;
    steps, w' := HandleCallsEnd(w1, t);
    assert ([s] + steps)[1..] == steps;
    steps := [s] + steps;
  }

  /**
   * Exactly when Close waits: another thread is in a handle call. It waits for that call only, which
   * can end; a Close from a body that an executor runs inside the closer's own handle call goes ahead.
   */
  lemma CloseWaits(w: World, t: Tid) returns (steps: seq<Step>, w': World)
    requires Reachable(w) && RunsCode(w, t)
    ensures !Enabled(w, CloseHandle(t)) <==> w.handleCalls != [] && w.holder.Some? && w.holder != Some(t)
    ensures Run(w, steps, w') && Enabled(w', CloseHandle(t))
    ensures Enabled(w, CloseHandle(t)) ==> steps == []
  {
    ReachableInv(w);
    if Enabled(w, CloseHandle(t)) {
      steps, w' := [], w;
    } else {
      steps, w' := HandleCallsEnd(w, w.holder.value);
    }
  }

  /** The inline case: Close while the closer's own handle call is still inside the executor. */
  lemma CloseInsideItsHandleCall() returns (w: World)
    ensures Reachable(w) && !w.tasks.open && |w.handleCalls| == 1 && w.holder == Some(0) && w.starts == [0]
    ensures w.asked == [ByHandle]
  {
    StartIsReachable();
    hide Reachable, Run;
    w := Next(START, EnterHandle(0));
    w := Next(w, ThroughHandle(0, Post(0)));
    w := Next(w, Deliver(0));
    w := Next(w, Begin);
    w := Next(w, CloseHandle(0));
  }
}
