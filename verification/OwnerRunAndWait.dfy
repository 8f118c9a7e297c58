/**
 * AppRuntime::RunAndWait (src/runtime/AppRuntime.cpp): the same promise through the teardown gate.
 *
 * Here a call is settled as "ran" only after the task returned normally, and the caller of a Manual
 * owner drains the owner itself and then stops waiting. Calls share nothing, so one call is followed
 * through every interleaving with whoever runs, skips or destroys what it posted.
 */
module OwnerRunAndWait {

  datatype Settlement = Unsettled | DidRun | DidNotRun

  /** Until `Waiting` the caller itself holds the DropSettle. */
  datatype Caller = Posting | Releasing | Waiting | Checking | StandingIn | RunningHere | Returned

  /** `Taken` is popped by a driver of the owner; `Over` is run, or skipped by the gate; `InStop` is dropped by Stop, not yet destroyed. */
  datatype Closure = WithCaller | Queued | InStop | Taken | Running | Over | Gone

  /** Who popped the closure: the caller's own drain, or some other driver of the owner. */
  datatype Taker = NoOne | TheCaller | Another

  /**
   * `manual`: the owner has no thread of its own. `unlisted`: a shutdown took the owner off the list,
   * so the caller's drain finds none. `threw`: the task threw where the owner ran it. `stoodIn`: the
   * caller decided to run it itself. `overtaken`: it did so while the owner could still run it.
   */
  datatype Call = Call(
    manual: bool,
    caller: Caller,
    closure: Closure,
    taker: Taker,
    dead: bool,
    unlisted: bool,
    settlement: Settlement,
    startedThere: bool,
    threw: bool,
    stoodIn: bool,
    overtaken: bool,
    runs: nat)

  function NewCall(manual: bool): Call {
    Call(manual, Posting, WithCaller, NoOne, false, false, Unsettled, false, false, false, false, 0)
  }

  datatype Step =
    | Post(accepted: bool)      // refused by the gate or by a stopped owner, or queued
    | Release
    | Take(byCaller: bool)
    | Skip                      // the gate runs nothing
    | Begin
    | End(failing: bool)
    | Destroy                   // by the driver after the run, or by Stop
    | LastReference
    | Unlist
    | StopOwner
    | Wake
    | GiveUp                    // Manual: nothing left to drain
    | Look
    | BeginHere
    | EndHere

  /** The owner may still come to run the task, or is at it. */
  predicate Startable(c: Call) {
    c.closure.Queued? || c.closure.Taken? || c.closure.Running?
  }

  /** The caller's own drain is busy with the closure. */
  predicate Draining(c: Call) {
    c.taker.TheCaller? && (c.closure.Taken? || c.closure.Running? || c.closure.Over?)
  }

  predicate Enabled(c: Call, s: Step) {
    match s
    case Post(_) => c.caller.Posting?
    case Release => c.caller.Releasing?
    case Take(byCaller) => c.closure.Queued? && (byCaller ==> c.manual && c.caller.Waiting?)
    case Skip => c.closure.Taken?
    case Begin => c.closure.Taken?
    case End(_) => c.closure.Running?
    case Destroy => c.closure.Over? || c.closure.InStop?
    case LastReference => c.closure.Gone? && !c.caller.Posting? && !c.caller.Releasing? && !c.dead
    case Unlist => true
    case StopOwner => true
    case Wake => c.caller.Waiting? && !c.settlement.Unsettled?
    case GiveUp => c.caller.Waiting? && c.manual && !Draining(c) && (c.closure.Queued? ==> c.unlisted)
    case Look => c.caller.Checking?
    case BeginHere => c.caller.StandingIn?
    case EndHere => c.caller.RunningHere?
  }

  function Settled(c: Call, s: Settlement): Call {
    if c.settlement.Unsettled? then c.(settlement := s) else c
  }

  function Apply(c: Call, s: Step): Call
    requires Enabled(c, s)
  {
    match s
    case Post(accepted) => c.(caller := Releasing, closure := if accepted then Queued else Gone)
    case Release => c.(caller := Waiting)
    case Take(byCaller) => c.(closure := Taken, taker := if byCaller then TheCaller else Another)
    case Skip => c.(closure := Over)
    case Begin => c.(closure := Running, startedThere := true, runs := c.runs + 1)
    case End(failing) =>
      if failing then c.(closure := Over, threw := true) else Settled(c.(closure := Over), DidRun)
    case Destroy => c.(closure := Gone)
    case LastReference => Settled(c.(dead := true), DidNotRun)
    case Unlist => c.(unlisted := true)
    case StopOwner => if c.closure.Queued? then c.(closure := InStop) else c
    case Wake => c.(caller := Checking)
    case GiveUp => c.(caller := Checking)
    case Look =>
      if c.settlement.DidRun? then c.(caller := Returned)
      else c.(caller := StandingIn, stoodIn := true, overtaken := Startable(c))
    case BeginHere => c.(caller := RunningHere, runs := c.runs + 1)
    case EndHere => c.(caller := Returned)
  }

  // ---- The invariant ----

  predicate RanHere(c: Call) {
    c.stoodIn && !c.caller.StandingIn?
  }

  /** What is known of the closure. */
  predicate ClosureOk(c: Call) {
    && (c.caller.Posting? <==> c.closure.WithCaller?)
    && (c.startedThere ==> c.closure.Running? || c.closure.Over? || c.closure.Gone?)
    && (c.closure.Running? ==> c.startedThere && !c.threw && c.settlement.Unsettled?)
    && (c.threw ==> c.startedThere && !c.closure.Running?)
    && (c.settlement.DidRun? ==> c.startedThere && !c.threw)
    && (c.settlement.DidNotRun? ==> c.dead)
    && (c.dead ==> c.closure.Gone? && !c.settlement.Unsettled?)
    && (c.startedThere && !c.threw && !c.closure.Running? ==> c.settlement.DidRun?)
  }

  /** What is known of the caller. */
  predicate CallerOk(c: Call) {
    && (c.caller.StandingIn? || c.caller.RunningHere? ==> c.stoodIn)
    && (c.stoodIn ==> c.caller.StandingIn? || c.caller.RunningHere? || c.caller.Returned?)
    && (c.caller.Returned? && !c.stoodIn ==> c.settlement.DidRun?)
    && (c.overtaken ==> c.stoodIn && c.manual)
    && (c.stoodIn && !c.overtaken ==> !Startable(c) && (c.startedThere ==> c.threw))
    && (!c.manual && (c.caller.Checking? || c.stoodIn) ==> !c.settlement.Unsettled?)
  }

  predicate CountOk(c: Call) {
    c.runs == (if c.startedThere then 1 else 0) + if RanHere(c) then 1 else 0
  }

  predicate Inv(c: Call) {
    ClosureOk(c) && CallerOk(c) && CountOk(c)
  }

  lemma StepKeepsClosure(c: Call, s: Step)
    requires Inv(c) && Enabled(c, s)
    ensures ClosureOk(Apply(c, s))
  {
    hide CallerOk, CountOk;
  }

  lemma StepKeepsCaller(c: Call, s: Step)
    requires Inv(c) && Enabled(c, s)
    ensures CallerOk(Apply(c, s))
  {
    hide CountOk, RanHere;
  }

  lemma StepKeepsCount(c: Call, s: Step)
    requires Inv(c) && Enabled(c, s)
    ensures CountOk(Apply(c, s))
  {}

  lemma StepKeepsInv(c: Call, s: Step)
    requires Inv(c) && Enabled(c, s)
    ensures Inv(Apply(c, s)) && Apply(c, s).manual == c.manual
  {
    StepKeepsClosure(c, s);
    StepKeepsCaller(c, s);
    StepKeepsCount(c, s);
    hide ClosureOk, CallerOk, CountOk;
  }

  ghost predicate Run(c: Call, steps: seq<Step>, c': Call)
    decreases steps
  {
    if steps == [] then c' == c
    else Enabled(c, steps[0]) && Run(Apply(c, steps[0]), steps[1..], c')
  }

  ghost predicate Reachable(c: Call) {
    exists steps :: Run(NewCall(c.manual), steps, c)
  }

  lemma {:induction false} RunKeepsInv(c: Call, steps: seq<Step>, c': Call)
    requires Inv(c) && Run(c, steps, c')
    ensures Inv(c') && c'.manual == c.manual
    decreases steps
  {
    if steps != [] {
      hide Inv, Apply, Enabled;
      StepKeepsInv(c, steps[0]);
      RunKeepsInv(Apply(c, steps[0]), steps[1..], c');
    }
  }

  lemma ReachableInv(c: Call)
    requires Reachable(c)
    ensures Inv(c)
  {
    var steps :| Run(NewCall(c.manual), steps, c);
    RunKeepsInv(NewCall(c.manual), steps, c);
  }

  // ---- How often the task has run when the call returns ----

  /**
   * For every call: it has run once when the call returns, and a second time if and only if it threw
   * on the owner, or the owner came to run it although the caller had decided to.
   */
  lemma RunsAtReturn(c: Call)
    requires Reachable(c) && c.caller.Returned?
    ensures c.runs == if c.threw || (c.overtaken && c.startedThere) then 2 else 1
    ensures c.runs == 1 <==> !c.threw && !(c.overtaken && c.startedThere)
  {
    ReachableInv(c);
  }

  /** Only a Manual owner can be overtaken: a dedicated one settles the call before the caller decides. */
  lemma DedicatedIsNotOvertaken(c: Call)
    requires Reachable(c) && !c.manual
    ensures !c.overtaken
    ensures c.caller.Returned? ==> !c.settlement.Unsettled?
  {
    ReachableInv(c);
  }

  /** No other driver pops the closure. */
  predicate DrivenAlone(steps: seq<Step>) {
    forall i :: 0 <= i < |steps| ==> steps[i] != Take(false)
  }

  predicate Alone(c: Call) {
    && !c.taker.Another?
    && (c.closure.WithCaller? || c.closure.Queued? ==> c.taker.NoOne?)
    && (c.taker.NoOne? ==> !c.closure.Taken? && !c.closure.Running? && !c.startedThere)
    && (c.taker.TheCaller? && (c.closure.Taken? || c.closure.Running?) ==> c.caller.Waiting?)
    && (c.overtaken ==> c.taker.NoOne? && !c.caller.Waiting?)
  }

  lemma StepStaysAlone(c: Call, s: Step)
    requires Inv(c) && Alone(c) && Enabled(c, s) && s != Take(false)
    ensures Alone(Apply(c, s))
  {}

  lemma {:induction false} AloneAlong(c: Call, steps: seq<Step>, c': Call)
    requires Inv(c) && Alone(c) && Run(c, steps, c') && DrivenAlone(steps)
    ensures Alone(c')
    decreases steps
  {
    if steps != [] {
      StepStaysAlone(c, steps[0]);
      StepKeepsInv(c, steps[0]);
      hide Inv, Alone, Apply, Enabled;
      AloneAlong(Apply(c, steps[0]), steps[1..], c');
    }
  }

  lemma {:induction false} StaysReturned(c: Call, steps: seq<Step>, c': Call)
    requires Run(c, steps, c') && c.caller.Returned?
    ensures c'.caller.Returned?
    decreases steps
  {
    if steps != [] {
      StepStaysReturned(c, steps[0]);
      hide Apply, Enabled;
      StaysReturned(Apply(c, steps[0]), steps[1..], c');
    }
  }

  lemma StepStaysReturned(c: Call, s: Step)
    requires Enabled(c, s) && c.caller.Returned?
    ensures Apply(c, s).caller.Returned?
  {
    hide Startable, Draining;
    match s
    case Take(_) => assert Apply(c, s) == c.(closure := Taken, taker := Apply(c, s).taker);
    case End(failing) => assert Apply(c, s).caller == c.caller;
    case LastReference => assert Apply(c, s).caller == c.caller;
    case _ =>
  }

  /**
   * When the caller alone drives the Manual owner, nothing is run behind its back: at the return the
   * task has run exactly once if and only if it did not throw, and it is not used again afterwards.
   */
  lemma DrivenAloneRunsOnce(steps: seq<Step>, c: Call, more: seq<Step>, c': Call)
    requires Run(NewCall(true), steps, c) && DrivenAlone(steps) && c.caller.Returned?
    requires Run(c, more, c') && DrivenAlone(more)
    ensures c.runs == 1 <==> !c.threw
    ensures !c'.closure.Running? && c'.runs == c.runs
  {
    AloneAlong(NewCall(true), steps, c);
    RunKeepsInv(NewCall(true), steps, c);
    AloneAlong(c, more, c');
    RunKeepsInv(c, more, c');
    StaysReturned(c, more, c');
    ReturnKeepsCount(c, more, c');
  }

  lemma {:induction false} ReturnKeepsCount(c: Call, steps: seq<Step>, c': Call)
    requires Inv(c) && Alone(c) && c.caller.Returned? && Run(c, steps, c') && DrivenAlone(steps)
    ensures c'.runs == c.runs
    decreases steps
  {
    if steps != [] {
      StepStaysAlone(c, steps[0]);
      StepKeepsInv(c, steps[0]);
      assert !steps[0].Begin?;
      hide Inv, Alone;
      ReturnKeepsCount(Apply(c, steps[0]), steps[1..], c');
    }
  }

  // ---- The caller's reference ----

  /** In some run from here the owner is at the task, by the caller's reference. */
  ghost predicate MayUse(c: Call) {
    exists steps, c' :: Run(c, steps, c') && c'.closure.Running?
  }

  lemma UsesLater(c: Call, s: Step)
    requires Enabled(c, s) && MayUse(Apply(c, s))
    ensures MayUse(c)
  {
    hide Apply, Enabled;
    var steps, c' :| Run(Apply(c, s), steps, c') && c'.closure.Running?;
    assert ([s] + steps)[1..] == steps;
    assert Run(c, [s] + steps, c');
  }

  lemma {:induction false} StaysUnused(c: Call, steps: seq<Step>, c': Call)
    requires Inv(c) && !Startable(c) && !c.caller.Posting? && Run(c, steps, c')
    ensures !Startable(c')
    decreases steps
  {
    if steps != [] {
      StepStaysUnused(c, steps[0]);
      StepKeepsInv(c, steps[0]);
      hide Inv, Apply, Enabled, Startable;
      StaysUnused(Apply(c, steps[0]), steps[1..], c');
    }
  }

  lemma StepStaysUnused(c: Call, s: Step)
    requires Inv(c) && !Startable(c) && !c.caller.Posting? && Enabled(c, s)
    ensures !Startable(Apply(c, s)) && !Apply(c, s).caller.Posting?
  {}

  /**
   * After the return the owner may use the caller's reference, in some run, exactly when the closure
   * is still queued, taken or running then; and that is so only for an overtaken call.
   */
  lemma UseAfterReturn(c: Call)
    requires Reachable(c) && c.caller.Returned?
    ensures MayUse(c) <==> Startable(c)
    ensures Startable(c) ==> c.overtaken
  {
    ReachableInv(c);
    if Startable(c) {
      StartableMayUse(c);
    } else {
      forall steps, c' | Run(c, steps, c')
        ensures !c'.closure.Running?
      {
        StaysUnused(c, steps, c');
      }
    }
  }

  lemma StartableMayUse(c: Call)
    requires Startable(c)
    ensures MayUse(c)
    decreases c.closure.Queued?, c.closure.Taken?
  {
    if c.closure.Running? {
      assert Run(c, [], c);
    } else {
      var s := if c.closure.Queued? then Take(false) else Begin;
      StartableMayUse(Apply(c, s));
      UsesLater(c, s);
    }
  }

  // ---- It does happen ----

  lemma {:induction false} RunOn(c: Call, steps: seq<Step>, c': Call, s: Step)
    requires Run(c, steps, c') && Enabled(c', s)
    ensures Run(c, steps + [s], Apply(c', s))
    decreases steps
  {
    hide Apply, Enabled;
    if steps == [] {
      assert Run(Apply(c', s), [], Apply(c', s));
      assert ([] + [s])[1..] == [];
    } else {
      assert (steps + [s])[1..] == steps[1..] + [s];
      RunOn(Apply(c, steps[0]), steps[1..], c', s);
    }
  }

  lemma Next(c: Call, s: Step) returns (c': Call)
    requires Reachable(c) && Enabled(c, s)
    ensures Reachable(c') && c' == Apply(c, s)
  {
    var steps :| Run(NewCall(c.manual), steps, c);
    RunKeepsInv(NewCall(c.manual), steps, c);
    StepKeepsInv(c, s);
    hide Apply, Enabled, Inv;
    RunOn(NewCall(c.manual), steps, c, s);
    c' := Apply(c, s);
  }

  lemma NewIsReachable(manual: bool)
    ensures Reachable(NewCall(manual))
  {
    assert Run(NewCall(manual), [], NewCall(manual));
  }

  lemma ThrowsOnTheOwner() returns (c: Call)
    ensures Reachable(c)
    ensures c == Call(false, Waiting, Over, Another, false, false, Unsettled, true, true, false, false, 1)
  {
    NewIsReachable(false);
    hide Reachable, Run;
    c := Next(NewCall(false), Post(true));
    c := Next(c, Release);
    c := Next(c, Take(false));
    c := Next(c, Begin);
    c := Next(c, End(true));
  }

  /** A throwing task runs twice. */
  lemma ThrowingTaskRunsAgain() returns (c: Call)
    ensures Reachable(c) && !c.manual && c.caller.Returned? && c.threw && c.runs == 2
  {
    hide Reachable;
    c := ThrowsOnTheOwner();
    c := Next(c, Destroy);
    c := Next(c, LastReference);
    c := Next(c, Wake);
    c := Next(c, Look);
    c := Next(c, BeginHere);
    c := Next(c, EndHere);
  }

  lemma TakenByAnother() returns (c: Call)
    ensures Reachable(c)
    ensures c == Call(true, Waiting, Taken, Another, false, false, Unsettled, false, false, false, false, 0)
  {
    NewIsReachable(true);
    hide Reachable, Run;
    c := Next(NewCall(true), Post(true));
    c := Next(c, Release);
    c := Next(c, Take(false));
  }

  /** Two drivers of a Manual owner: the caller finds the queue empty, and the task runs on both. */
  lemma OvertakenTaskRunsAgain() returns (c: Call)
    ensures Reachable(c) && c.manual && c.overtaken && !c.threw && c.caller.Returned? && c.runs == 2
  {
    hide Reachable;
    c := TakenByAnother();
    c := Next(c, Begin);
    c := Next(c, GiveUp);
    c := Next(c, Look);
    c := Next(c, BeginHere);
    c := Next(c, EndHere);
  }

  // ---- No caller is left waiting ----

  /** How far a call has to go. */
  function Rest(c: Call): nat {
    var caller := match c.caller
                  case Posting => 6
                  case Releasing => 5
                  case Waiting => 4
                  case Checking => 3
                  case StandingIn => 2
                  case RunningHere => 1
                  case Returned => 0;
    var closure := match c.closure
                   case WithCaller => 5
                   case Queued => 4
                   case InStop => 1
                   case Taken => 3
                   case Running => 2
                   case Over => 1
                   case Gone => 0;
    caller + closure + (if c.dead then 0 else 1) + if c.unlisted then 0 else 1
  }

  /** Every step brings a call nearer to its end, except a shutdown or a stop that finds nothing of it: no run takes more than 13. */
  lemma StepsEnd(c: Call, s: Step)
    requires Enabled(c, s) && Inv(c)
    ensures Rest(c) <= 13
    ensures Rest(Apply(c, s)) < Rest(c) || (s.Unlist? && c.unlisted) || (s.StopOwner? && !c.closure.Queued?)
  {}

  /** What the owner's side may do to a closure: skip one it took, drop a queued one, and be off the list from then on. */
  lemma OwnerMoves(c: Call)
    ensures c.closure.Taken? ==> Apply(c, Skip) == c.(closure := Over)
    ensures Apply(c, StopOwner) == if c.closure.Queued? then c.(closure := InStop) else c
    ensures Apply(c, Unlist) == c.(unlisted := true)
  {}

  /** And until it has returned there is a step, other than those two, to take. */
  lemma NeverStuck(c: Call) returns (s: Step)
    requires Reachable(c) && !c.caller.Returned?
    ensures Enabled(c, s) && !s.Unlist? && !s.StopOwner?
  {
    ReachableInv(c);
    match c.caller
    case Posting => s := Post(true);
    case Releasing => s := Release;
    case Checking => s := Look;
    case StandingIn => s := BeginHere;
    case RunningHere => s := EndHere;
    case Waiting =>
      if !c.settlement.Unsettled? {
        s := Wake;
      } else {
        s := match c.closure
             case Queued => Take(false)
             case Taken => Begin
             case Running => End(false)
             case Gone => LastReference
             case _ => Destroy;
      }
  }
}
