/** Exactly which bound bodies may still start, from any point of any run of OwnerTasksProtocol. */
module OwnerTasksStarts {
  import opened ByteStrings
  import opened OwnerTaskLists
  import opened OwnerTasksProtocol

  /** A post waits for its deliveries always, a timer while it is in `timers` or about to be recorded there. */
  predicate Waits(w: World, b: BodyId)
    requires b in w.bodies
  {
    !w.bodies[b].timer || w.bodies[b].slot in w.tasks.timers || w.recording == Some(b)
  }

  /** A delivery of this timer is past the generation check. */
  predicate CheckedNow(w: World, b: BodyId) {
    w.stack != [] && TopOf(w) == Checked(b)
  }

  /** Claimed; or waiting, in the current generation or past its check. */
  predicate MayStart(w: World, b: BodyId)
    requires b in w.bodies
  {
    ClaimedNow(w, b) || (Waits(w, b) && (w.bodies[b].generation == w.tasks.generation || CheckedNow(w, b)))
  }

  // ---- What may not start never does ----

  lemma StepKeepsOut(w: World, s: Step, b: BodyId)
    requires StackOk(w) && GenerationsOk(w) && SlotsOk(w) && Enabled(w, s) && b in w.bodies && !MayStart(w, b)
    ensures b in Apply(w, s).bodies && !MayStart(Apply(w, s), b)
    ensures StartsOf(Apply(w, s).starts, b) == StartsOf(w.starts, b)
  {
    StepKeepsKind(w, s, b);
    if MutexStep(s) {
      MutexKeepsOut(w, s, b);
      hide Apply, Enabled;
    } else if IsOp(s) {
      OpStep(w, s);
      OpKeepsOut(w, s.op, b);
      hide Apply, ApplyOp;
    } else if s.Begin? {
      StartCounted(w.starts, TopOf(w).body, b);
    } else if s.Return? || s.Claim? {
      PopKeepsOut(w, s, b);
      hide Apply, Enabled;
    }
  }

  lemma MutexKeepsOut(w: World, s: Step, b: BodyId)
    requires GenerationsOk(w) && Enabled(w, s) && MutexStep(s) && b in w.bodies && !MayStart(w, b)
    ensures b in Apply(w, s).bodies && !MayStart(Apply(w, s), b) && Apply(w, s).starts == w.starts
  {
    MutexStepKeeps(w, s);
  }

  lemma PopKeepsOut(w: World, s: Step, b: BodyId)
    requires StackOk(w) && SlotsOk(w) && Enabled(w, s) && (s.Return? || s.Claim?) && b in w.bodies && !MayStart(w, b)
    ensures b in Apply(w, s).bodies && !MayStart(Apply(w, s), b) && Apply(w, s).starts == w.starts
  {
    ReturnToBody(w);
  }

  lemma OpKeepsOut(w: World, op: Op, b: BodyId)
    requires SlotsOk(w) && OpEnabled(w, op) && b in w.bodies && !MayStart(w, b)
    ensures b in ApplyOp(w, op, Directly).bodies && !MayStart(ApplyOp(w, op, Directly), b)
  {}

  lemma {:induction false} OutAlong(w: World, steps: seq<Step>, w': World, b: BodyId)
    requires Inv(w) && Run(w, steps, w') && b in w.bodies && !MayStart(w, b)
    ensures StartsOf(w'.starts, b) == StartsOf(w.starts, b)
    decreases steps
  {
    if steps != [] {
      StepKeepsInv(w, steps[0]);
      StepKeepsOut(w, steps[0], b);
      hide Apply, Enabled, Inv, MayStart, StartsOf;
      OutAlong(Apply(w, steps[0]), steps[1..], w', b);
    }
  }

  // ---- What may start can ----

  lemma StepOnStarts(w: World, s: Step, b: BodyId)
    requires Enabled(w, s)
    ensures StartsOf(w.starts, b) <= StartsOf(Apply(w, s).starts, b)
  {
    if s.Begin? {
      StartCounted(w.starts, TopOf(w).body, b);
    }
  }

  lemma StartsAfter(w: World, s: Step, b: BodyId)
    requires Enabled(w, s) && StartsLater(Apply(w, s), b)
    ensures StartsLater(w, b)
  {
    StepOnStarts(w, s, b);
    hide Apply, StartsOf;
    var steps, w' :| Run(Apply(w, s), steps, w') && StartsOf(w'.starts, b) > StartsOf(Apply(w, s).starts, b);
    assert ([s] + steps)[1..] == steps;
    assert Run(w, [s] + steps, w');
  }

  /** The next step on the way: the recording ends, the owner gets free, the body is delivered. */
  function Towards(w: World, b: BodyId): Step {
    if w.recording.Some? then Record(if w.recording == Some(b) then w.issued else 0)
    else if OwnerFree(w) then Deliver(b)
    else if TopOf(w).Checked? then Claim
    else Begin
  }

  function Distance(w: World, b: BodyId): nat {
    (if w.recording.Some? then 4 else 0) +
    if CheckedNow(w, b) then 1
    else if OwnerFree(w) then 2
    else if TopOf(w).Checked? then 4 else 3
  }

  lemma TowardsIsEnabled(w: World, b: BodyId)
    requires StackOk(w) && SlotsOk(w) && b in w.bodies && MayStart(w, b) && !ClaimedNow(w, b)
    ensures Enabled(w, Towards(w, b)) && b in Apply(w, Towards(w, b)).bodies
  {}

  lemma TowardsIsNearer(w: World, b: BodyId)
    requires StackOk(w) && SlotsOk(w) && b in w.bodies && MayStart(w, b) && !ClaimedNow(w, b)
    requires Enabled(w, Towards(w, b)) && b in Apply(w, Towards(w, b)).bodies
    ensures var w' := Apply(w, Towards(w, b));
            MayStart(w', b) && (ClaimedNow(w', b) || Distance(w', b) < Distance(w, b))
  {
    if w.stack != [] {
      ReturnToBody(w);
    }
  }

  lemma {:induction false} MayStartStarts(w: World, b: BodyId)
    requires Inv(w) && b in w.bodies && MayStart(w, b)
    ensures StartsLater(w, b)
    decreases if ClaimedNow(w, b) then 0 else 1 + Distance(w, b)
  {
    if ClaimedNow(w, b) {
      ClaimedStartsLater(w, b);
    } else {
      var s := Towards(w, b);
      TowardsIsEnabled(w, b);
      TowardsIsNearer(w, b);
      StepKeepsInv(w, s);
      hide Inv, Apply, Enabled, MayStart, StartsLater, Towards;
      MayStartStarts(Apply(w, s), b);
      StartsAfter(w, s, b);
    }
  }

  // ---- Both ----

  /**
   * From any reachable point, in some run a bound body starts (once more) if and only if a delivery has
   * claimed it; or it is bound in the current generation, or past that check, and is a post, or a timer
   * that has its entry or is about to be recorded. In particular a timer that was scheduled and neither
   * fired, cancelled nor dropped can run, and so can a post of the current generation.
   */
  lemma StartsExactly(w: World, b: BodyId)
    requires Reachable(w) && b in w.bodies
    ensures var body := w.bodies[b];
            var waits := !body.timer || body.slot in w.tasks.timers || w.recording == Some(b);
            StartsLater(w, b) <==>
            ClaimedNow(w, b) || (waits && (body.generation == w.tasks.generation || (w.stack != [] && TopOf(w) == Checked(b))))
  {
    ReachableInv(w);
    hide Inv, StartsLater;
    if MayStart(w, b) {
      MayStartStarts(w, b);
    } else {
      NeverStarts(w, b);
    }
  }

  lemma NeverStarts(w: World, b: BodyId)
    requires Inv(w) && b in w.bodies && !MayStart(w, b)
    ensures !StartsLater(w, b)
  {
    hide Inv, MayStart;
    forall steps, w' | Run(w, steps, w')
      ensures StartsOf(w'.starts, b) == StartsOf(w.starts, b)
    {
      OutAlong(w, steps, w', b);
    }
  }

  /** When After records the id the executor gave, the timer can run: exactly if it gave one (and nothing was dropped meanwhile). */
  lemma RecordedStarts(w: World, id: TimerId)
    requires Reachable(w) && Enabled(w, Record(id)) && w.bodies[w.recording.value].generation == w.tasks.generation
    ensures StartsLater(Apply(w, Record(id)), w.recording.value) <==> id != 0
  {
    hide StartsLater, Reachable;
    ReachableInv(w);
    var b, w' := w.recording.value, Apply(w, Record(id));
    StepKeepsInv(w, Record(id));
    assert OnceOk(w, b);
    assert b in w'.bodies && (MayStart(w', b) <==> id != 0);
    hide Inv, MayStart, Apply;
    if id != 0 {
      MayStartStarts(w', b);
    } else {
      NeverStarts(w', b);
    }
  }

  /** Once the timers are dropped a timer starts, in some run, only if a delivery had claimed it, whatever its generation. */
  lemma DroppedTimersStart(w: World, b: BodyId)
    requires Reachable(w) && b in w.bodies && w.bodies[b].timer && w.recording.None?
    ensures StartsLater(Apply(w, DropTimers), b) <==> ClaimedNow(w, b)
  {
    hide StartsLater, Reachable;
    ReachableInv(w);
    var w' := Apply(w, DropTimers);
    StepKeepsInv(w, DropTimers);
    assert b in w'.bodies && (MayStart(w', b) <==> ClaimedNow(w, b));
    hide Inv, MayStart, Apply;
    if ClaimedNow(w, b) {
      MayStartStarts(w', b);
    } else {
      NeverStarts(w', b);
    }
  }

  /** What is bound now, as a post or as a timer, may start. */
  lemma BoundStarts(w: World, op: Op)
    requires Reachable(w) && !op.Cancel? && op.b !in w.bodies && (op.Bind? ==> w.recording.None?)
    ensures op.b in Apply(w, Direct(op)).bodies && StartsLater(Apply(w, Direct(op)), op.b)
  {
    ReachableInv(w);
    hide StartsLater, Reachable;
    StepKeepsInv(w, Direct(op));
    var w' := Apply(w, Direct(op));
    assert MayStart(w', op.b);
    hide Inv, MayStart, Apply;
    MayStartStarts(w', op.b);
  }

  /** A body that runs to its end leaves the owner where its delivery found it. */
  lemma DeliveryIsBracketed(w: World, b: BodyId)
    requires Enabled(w, Deliver(b)) && w.recording.None? && Waits(w, b) && w.bodies[b].generation == w.tasks.generation
    ensures var delivered := Apply(w, Deliver(b));
            && (w.bodies[b].timer ==> Enabled(delivered, Claim))
            && var claimed := if w.bodies[b].timer then Apply(delivered, Claim) else delivered;
               && Enabled(claimed, Begin)
               && var begun := Apply(claimed, Begin);
                  && begun.starts == w.starts + [b] && Enabled(begun, Return)
                  && Apply(begun, Return).stack == w.stack
  {
    var delivered := Apply(w, Deliver(b));
    assert Below(delivered) == w.stack;
  }
}
