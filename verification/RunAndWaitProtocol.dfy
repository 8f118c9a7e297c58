/**
 * SerialExecutor::RunAndWait (src/SerialExecutor.cpp) on a ThreadExecutor (src/ThreadExecutor.cpp):
 * any number of callers, the executor's thread, and Stop, one atomic block at a time.
 *
 * `runs` counts how often the task was started. The task is the caller's, used by reference.
 */
module RunAndWaitProtocol {

  type CallId = nat

  datatype Outcome = Unsettled | Ran | Dropped

  /** Where a RunAndWait caller is; up to `Releasing` it holds the ticket itself. */
  datatype Caller = Posting | Releasing | Waiting | StandingIn | RunningHere | Returned

  /** Where the posted closure is; until it is `Gone` it holds the ticket. */
  datatype Closure = WithCaller | Queued | InStop | Taken | Running | Finished | Gone

  /** `ran` is the ticket's flag, `refused` tells that Post found the executor stopped. */
  datatype Call = Call(caller: Caller, closure: Closure, ran: bool, dead: bool, outcome: Outcome, refused: bool, runs: nat)

  /** What the executor's thread has in hand. */
  datatype Hand = Nothing | Other | With(call: CallId)

  datatype World = World(stopped: bool, exited: bool, hand: Hand, calls: map<CallId, Call>)

  const START := World(false, false, Nothing, map[])

  // ---- Steps ----

  datatype Step =
    | StartCall(c: CallId)
    | Post(c: CallId)
    | Release(c: CallId)
    | Take(c: CallId)
    | Begin(c: CallId)
    | End(c: CallId)             // the task returned or threw
    | DestroyTaken(c: CallId)
    | TakeOther
    | EndOther
    | Stop
    | Exit
    | DestroyDropped(c: CallId)  // Stop destroys what it dropped after it joined the thread
    | TicketDies(c: CallId)
    | Wake(c: CallId)
    | BeginHere(c: CallId)
    | EndHere(c: CallId)

  predicate HoldsTicket(x: Call) {
    x.caller.Posting? || x.caller.Releasing?
  }

  predicate Enabled(w: World, s: Step) {
    match s
    case StartCall(c) => c !in w.calls
    case Post(c) => c in w.calls && w.calls[c].caller.Posting?
    case Release(c) => c in w.calls && w.calls[c].caller.Releasing?
    case Take(c) => c in w.calls && w.calls[c].closure.Queued? && w.hand.Nothing? && !w.stopped
    case Begin(c) => c in w.calls && w.calls[c].closure.Taken?
    case End(c) => c in w.calls && w.calls[c].closure.Running?
    case DestroyTaken(c) => c in w.calls && w.calls[c].closure.Finished?
    case TakeOther => w.hand.Nothing? && !w.stopped
    case EndOther => w.hand.Other?
    case Stop => !w.stopped
    case Exit => w.stopped && !w.exited && w.hand.Nothing?
    case DestroyDropped(c) => c in w.calls && w.calls[c].closure.InStop? && w.exited
    case TicketDies(c) => c in w.calls && w.calls[c].closure.Gone? && !HoldsTicket(w.calls[c]) && !w.calls[c].dead
    case Wake(c) => c in w.calls && w.calls[c].caller.Waiting? && !w.calls[c].outcome.Unsettled?
    case BeginHere(c) => c in w.calls && w.calls[c].caller.StandingIn?
    case EndHere(c) => c in w.calls && w.calls[c].caller.RunningHere?
  }

  /** Rendezvous::Settle: the first outcome stays. */
  function FirstOutcome(before: Outcome, outcome: Outcome): Outcome {
    if before.Unsettled? then outcome else before
  }

  /** What the ticket settles when its last reference goes. */
  function LastWord(ran: bool): Outcome {
    if ran then Ran else Dropped
  }

  function Settled(x: Call, outcome: Outcome): Call {
    x.(outcome := FirstOutcome(x.outcome, outcome))
  }

  function Put(w: World, c: CallId, x: Call): World {
    w.(calls := w.calls[c := x])
  }

  function Swept(x: Call): Call {
    if x.closure.Queued? then x.(closure := InStop) else x
  }

  function Apply(w: World, s: Step): World
    requires Enabled(w, s)
  {
    match s
    case StartCall(c) => Put(w, c, Call(Posting, WithCaller, false, false, Unsettled, false, 0))
    case Post(c) =>
      Put(w, c, w.calls[c].(caller := Releasing, closure := if w.stopped then Gone else Queued, refused := w.stopped))
    case Release(c) => Put(w, c, w.calls[c].(caller := Waiting))
    case Take(c) => Put(w, c, w.calls[c].(closure := Taken)).(hand := With(c))
    case Begin(c) => Put(w, c, w.calls[c].(closure := Running, ran := true, runs := w.calls[c].runs + 1))
    case End(c) => Put(w, c, Settled(w.calls[c].(closure := Finished), Ran))
    case DestroyTaken(c) => Put(w, c, w.calls[c].(closure := Gone)).(hand := Nothing)
    case TakeOther => w.(hand := Other)
    case EndOther => w.(hand := Nothing)
    case Stop => w.(stopped := true, calls := map c | c in w.calls :: Swept(w.calls[c]))
    case Exit => w.(exited := true)
    case DestroyDropped(c) => Put(w, c, w.calls[c].(closure := Gone))
    case TicketDies(c) => Put(w, c, Settled(w.calls[c].(dead := true), LastWord(w.calls[c].ran)))
    case Wake(c) => Put(w, c, w.calls[c].(caller := if w.calls[c].outcome.Dropped? then StandingIn else Returned))
    case BeginHere(c) => Put(w, c, w.calls[c].(caller := RunningHere, runs := w.calls[c].runs + 1))
    case EndHere(c) => Put(w, c, w.calls[c].(caller := Returned))
  }

  /** The step is one of this call's own. */
  predicate Concerns(s: Step, c: CallId) {
    match s
    case Post(d) => c == d
    case Release(d) => c == d
    case Take(d) => c == d
    case Begin(d) => c == d
    case End(d) => c == d
    case DestroyTaken(d) => c == d
    case DestroyDropped(d) => c == d
    case TicketDies(d) => c == d
    case Wake(d) => c == d
    case BeginHere(d) => c == d
    case EndHere(d) => c == d
    case _ => false
  }

  // ---- The invariant ----

  predicate InHand(x: Call) {
    x.closure.Taken? || x.closure.Running? || x.closure.Finished?
  }

  /** The caller runs the task itself, or did. */
  predicate RanHere(x: Call) {
    x.caller.RunningHere? || (x.caller.Returned? && x.outcome.Dropped?)
  }

  predicate CallOk(w: World, x: Call) {
    && x.runs == (if x.ran then 1 else 0) + (if RanHere(x) then 1 else 0)
    && (x.caller.Posting? <==> x.closure.WithCaller?)
    && (x.ran ==> x.closure.Running? || x.closure.Finished? || x.closure.Gone?)
    && (x.closure.Running? ==> x.ran && x.outcome.Unsettled?)
    && (x.closure.Finished? ==> x.outcome.Ran?)
    && (x.closure.Gone? && x.ran ==> x.outcome.Ran?)
    && (x.outcome.Ran? ==> x.ran)
    && (x.outcome.Dropped? ==> x.dead && !x.ran)
    && (x.dead ==> x.closure.Gone? && !HoldsTicket(x) && !x.outcome.Unsettled?)
    && (x.caller.Returned? ==> !x.outcome.Unsettled?)
    && (x.caller.StandingIn? || x.caller.RunningHere? ==> x.outcome.Dropped?)
    // where things are
    && (x.closure.Queued? ==> !w.stopped)
    && (x.closure.InStop? ==> w.stopped)
    && (x.refused ==> w.stopped && x.closure.Gone? && !x.ran)
    && (x.closure.Gone? && !x.ran && !x.refused ==> w.exited)
  }

  predicate HandOk(w: World) {
    && (forall c :: c in w.calls ==> (InHand(w.calls[c]) <==> w.hand == With(c)))
    && (w.hand.With? ==> w.hand.call in w.calls)
    && (w.exited ==> w.stopped && w.hand.Nothing?)
  }

  predicate Inv(w: World) {
    HandOk(w) && forall c :: c in w.calls ==> CallOk(w, w.calls[c])
  }

  lemma StepKeepsHand(w: World, s: Step)
    requires Inv(w) && Enabled(w, s)
    ensures HandOk(Apply(w, s))
  {}

  lemma OwnStepKeepsCall(w: World, s: Step, c: CallId)
    requires Inv(w) && Enabled(w, s) && c in w.calls && Concerns(s, c)
    ensures CallOk(Apply(w, s), Apply(w, s).calls[c])
  {
    assert CallOk(w, w.calls[c]);
  }

  lemma OtherStepKeepsCall(w: World, s: Step, c: CallId)
    requires Inv(w) && Enabled(w, s) && c in Apply(w, s).calls && !Concerns(s, c)
    ensures CallOk(Apply(w, s), Apply(w, s).calls[c])
  {
    assert c in w.calls ==> CallOk(w, w.calls[c]);
  }

  lemma StepKeepsInv(w: World, s: Step)
    requires Inv(w) && Enabled(w, s)
    ensures Inv(Apply(w, s))
  {
    StepKeepsHand(w, s);
    forall c | c in Apply(w, s).calls
      ensures CallOk(Apply(w, s), Apply(w, s).calls[c])
    {
      if Concerns(s, c) {
        OwnStepKeepsCall(w, s, c);
      } else {
        OtherStepKeepsCall(w, s, c);
      }
    }
  }

  ghost predicate Run(w: World, steps: seq<Step>, w': World)
    decreases steps
  {
    if steps == [] then w' == w
    else Enabled(w, steps[0]) && Run(Apply(w, steps[0]), steps[1..], w')
  }

  ghost predicate Reachable(w: World) {
    exists steps :: Run(START, steps, w)
  }

  lemma {:induction false} RunKeepsInv(w: World, steps: seq<Step>, w': World)
    requires Inv(w) && Run(w, steps, w')
    ensures Inv(w')
    decreases steps
  {
    if steps != [] {
      hide Apply, Enabled;
      StepKeepsInv(w, steps[0]);
      RunKeepsInv(Apply(w, steps[0]), steps[1..], w');
    }
  }

  lemma {:induction false} RunOn(w: World, steps: seq<Step>, w': World, s: Step)
    requires Run(w, steps, w') && Enabled(w', s)
    ensures Run(w, steps + [s], Apply(w', s))
    decreases steps
  {
    hide Apply, Enabled;
    if steps == [] {
      assert Run(Apply(w', s), [], Apply(w', s));
      assert ([] + [s])[1..] == [];
    } else {
      assert (steps + [s])[1..] == steps[1..] + [s];
      RunOn(Apply(w, steps[0]), steps[1..], w', s);
    }
  }

  /** One step on from a reachable world. */
  lemma Next(w: World, s: Step) returns (w': World)
    requires Reachable(w) && Enabled(w, s)
    ensures Reachable(w') && w' == Apply(w, s)
  {
    hide Apply, Enabled;
    var steps :| Run(START, steps, w);
    RunOn(START, steps, w, s);
    w' := Apply(w, s);
  }

  lemma ReachableInv(w: World)
    requires Reachable(w)
    ensures Inv(w)
  {
    var steps :| Run(START, steps, w);
    RunKeepsInv(START, steps, w);
  }

  // ---- What RunAndWait promises ----

  /** In every interleaving the task has run exactly once when the call returns: there or here. */
  lemma RunsExactlyOnce(w: World, c: CallId)
    requires Reachable(w) && c in w.calls
    ensures w.calls[c].runs <= 1
    ensures w.calls[c].caller.Returned? ==> w.calls[c].runs == 1
  {
    ReachableInv(w);
    assert CallOk(w, w.calls[c]);
  }

  /** While the executor uses the task, the caller has not returned and does not run it. */
  lemma TaskOutlivesItsUse(w: World, c: CallId)
    requires Reachable(w) && c in w.calls && w.calls[c].closure.Running?
    ensures !w.calls[c].caller.Returned? && !w.calls[c].caller.RunningHere?
  {
    ReachableInv(w);
    assert CallOk(w, w.calls[c]);
  }

  /** The task has been run, and neither thread can reach it any more. */
  predicate Over(x: Call) {
    x.caller.Returned? && x.runs == 1 && (x.closure.Finished? || x.closure.Gone?)
  }

  lemma {:induction false} StaysOver(w: World, steps: seq<Step>, w': World, c: CallId)
    requires Run(w, steps, w') && c in w.calls && Over(w.calls[c])
    ensures c in w'.calls && Over(w'.calls[c])
    decreases steps
  {
    if steps != [] {
      StaysOver(Apply(w, steps[0]), steps[1..], w', c);
    }
  }

  /** After the return nothing uses the task again, whatever happens. */
  lemma NeverUsedAfterReturn(w: World, steps: seq<Step>, w': World, c: CallId)
    requires Reachable(w) && Run(w, steps, w') && c in w.calls && w.calls[c].caller.Returned?
    ensures c in w'.calls && w'.calls[c].runs == 1
  {
    ReachableInv(w);
    assert CallOk(w, w.calls[c]);
    StaysOver(w, steps, w', c);
  }

  /** A caller runs the task itself only on a stopped executor; and unless Post refused it, after the thread is gone. */
  lemma StandsInWhenNothingRuns(w: World, c: CallId)
    requires Reachable(w) && c in w.calls && w.calls[c].caller.RunningHere?
    ensures w.stopped && (!w.calls[c].refused ==> w.exited && w.hand.Nothing?)
  {
    ReachableInv(w);
    assert CallOk(w, w.calls[c]);
  }

  // ---- When the caller's run and the executor's may overlap ----

  predicate Overlaps(w: World, c: CallId) {
    c in w.calls && w.calls[c].caller.RunningHere? && !w.hand.Nothing?
  }

  /** In some run from here the caller runs the task while the executor's thread has something in hand. */
  ghost predicate MayOverlap(w: World, c: CallId) {
    exists steps, w' :: Run(w, steps, w') && Overlaps(w', c)
  }

  lemma OverlapsLater(w: World, s: Step, c: CallId)
    requires Enabled(w, s) && MayOverlap(Apply(w, s), c)
    ensures MayOverlap(w, c)
  {
    hide Apply, Enabled, Overlaps;
    var steps, w' :| Run(Apply(w, s), steps, w') && Overlaps(w', c);
    assert ([s] + steps)[1..] == steps;
    assert Run(w, [s] + steps, w');
  }

  lemma OverlapsNow(w: World, c: CallId)
    requires Overlaps(w, c)
    ensures MayOverlap(w, c)
  {
    assert Run(w, [], w);
  }

  /** A stopped executor with nothing in hand takes nothing up again. */
  predicate Still(w: World) {
    w.stopped && w.hand.Nothing?
  }

  lemma {:induction false} StaysStill(w: World, steps: seq<Step>, w': World)
    requires Inv(w) && Still(w) && Run(w, steps, w')
    ensures Still(w')
    decreases steps
  {
    if steps != [] {
      StepStaysStill(w, steps[0]);
      StepKeepsInv(w, steps[0]);
      hide Apply, Enabled, Inv, Still;
      StaysStill(Apply(w, steps[0]), steps[1..], w');
    }
  }

  lemma StepStaysStill(w: World, s: Step)
    requires Inv(w) && Still(w) && Enabled(w, s)
    ensures Still(Apply(w, s))
  {
    assert s.DestroyTaken? ==> InHand(w.calls[s.c]);
  }

  /** Past its Post, accepted and so not to be refused any more. */
  predicate Accepted(w: World, c: CallId) {
    c in w.calls && !w.calls[c].caller.Posting? && !w.calls[c].refused
  }

  lemma {:induction false} StaysAccepted(w: World, steps: seq<Step>, w': World, c: CallId)
    requires Accepted(w, c) && Run(w, steps, w')
    ensures Accepted(w', c)
    decreases steps
  {
    if steps != [] {
      StepStaysAccepted(w, steps[0], c);
      hide Apply, Enabled, Accepted;
      StaysAccepted(Apply(w, steps[0]), steps[1..], w', c);
    }
  }

  lemma StepStaysAccepted(w: World, s: Step, c: CallId)
    requires Accepted(w, c) && Enabled(w, s)
    ensures Accepted(Apply(w, s), c)
  {}

  lemma AcceptedNeverOverlaps(w: World, c: CallId)
    requires Inv(w) && Accepted(w, c)
    ensures !MayOverlap(w, c)
  {
    forall steps, w' | Run(w, steps, w')
      ensures !Overlaps(w', c)
    {
      RunKeepsInv(w, steps, w');
      StaysAccepted(w, steps, w', c);
      assert CallOk(w', w'.calls[c]);
    }
  }

  lemma StillNeverOverlaps(w: World, c: CallId)
    requires Inv(w) && Still(w)
    ensures !MayOverlap(w, c)
  {
    forall steps, w' | Run(w, steps, w')
      ensures !Overlaps(w', c)
    {
      StaysStill(w, steps, w');
    }
  }

  /** A refused call goes on to run the task, whatever is in hand meanwhile. */
  lemma RefusedOverlaps(w: World, c: CallId)
    requires c in w.calls && !w.hand.Nothing?
    requires var x := w.calls[c];
             x.caller.Releasing? && x.closure.Gone? && !x.ran && !x.dead && x.outcome.Unsettled?
    ensures MayOverlap(w, c)
  {
    var w1 := Apply(w, Release(c));
    var w2 := Apply(w1, TicketDies(c));
    var w3 := Apply(w2, Wake(c));
    var w4 := Apply(w3, BeginHere(c));
    OverlapsNow(w4, c);
    hide MayOverlap;
    OverlapsLater(w3, BeginHere(c), c);
    OverlapsLater(w2, Wake(c), c);
    OverlapsLater(w1, TicketDies(c), c);
    OverlapsLater(w, Release(c), c);
  }

  /**
   * At its Post: the caller may come to run the task beside what the executor's thread runs, in some
   * run from there, if and only if the executor is stopped and its thread still has something in hand.
   */
  lemma OverlapAtPost(w: World, c: CallId)
    requires Reachable(w) && Enabled(w, Post(c))
    ensures MayOverlap(Apply(w, Post(c)), c) <==> w.stopped && !w.hand.Nothing?
  {
    ReachableInv(w);
    StepKeepsInv(w, Post(c));
    var w' := Apply(w, Post(c));
    hide MayOverlap;
    assert CallOk(w, w.calls[c]);
    if !w.stopped {
      AcceptedNeverOverlaps(w', c);
    } else if w.hand.Nothing? {
      StillNeverOverlaps(w', c);
    } else {
      RefusedOverlaps(w', c);
    }
  }

  /** Before the call: none can overlap exactly when the executor is stopped and has nothing in hand. */
  lemma OverlapBeforeCall(w: World, c: CallId)
    requires Reachable(w) && Enabled(w, StartCall(c))
    ensures !MayOverlap(Apply(w, StartCall(c)), c) <==> w.stopped && w.hand.Nothing?
  {
    ReachableInv(w);
    StepKeepsInv(w, StartCall(c));
    var w' := Apply(w, StartCall(c));
    hide MayOverlap;
    if w.stopped && w.hand.Nothing? {
      StillNeverOverlaps(w', c);
    } else {
      BusyMayOverlap(w', c);
    }
  }

  lemma BusyMayOverlap(w: World, c: CallId)
    requires c in w.calls && !(w.stopped && w.hand.Nothing?)
    requires w.calls[c] == Call(Posting, WithCaller, false, false, Unsettled, false, 0)
    ensures MayOverlap(w, c)
    decreases w.hand.Nothing?, !w.stopped
  {
    hide MayOverlap;
    if w.hand.Nothing? {
      BusyMayOverlap(Apply(w, TakeOther), c);
      OverlapsLater(w, TakeOther, c);
    } else if !w.stopped {
      BusyMayOverlap(Apply(w, Stop), c);
      OverlapsLater(w, Stop, c);
    } else {
      RefusedOverlaps(Apply(w, Post(c)), c);
      OverlapsLater(w, Post(c), c);
    }
  }

  /** Post finds the executor stopped, with its thread still in the task it took before. */
  lemma RefusedWhileRunning() returns (w: World)
    ensures Reachable(w)
    ensures w == World(true, false, Other, map[0 := Call(Releasing, Gone, false, false, Unsettled, true, 0)])
  {
    assert Reachable(START) by {
      assert Run(START, [], START);
    }
    hide Reachable, Run;
    w := Next(START, TakeOther);
    w := Next(w, Stop);
    w := Next(w, StartCall(0));
    w := Next(w, Post(0));
  }

  /** And it does happen: a caller whose post was refused runs its task while the executor runs another. */
  lemma RefusedMayOverlap() returns (w: World)
    ensures Reachable(w) && Overlaps(w, 0) && w.calls[0].refused
  {
    hide Reachable;
    w := RefusedWhileRunning();
    w := Next(w, Release(0));
    w := Next(w, TicketDies(0));
    w := Next(w, Wake(0));
    w := Next(w, BeginHere(0));
  }

  /** Once the executor's thread has ended, and so once Stop returned, no call overlaps any more. */
  lemma NoOverlapAfterStop(w: World, c: CallId)
    requires Reachable(w) && w.exited
    ensures !MayOverlap(w, c)
  {
    ReachableInv(w);
    StillNeverOverlaps(w, c);
  }

  // ---- No caller is left waiting ----

  /** A step that some thread is sure to take: not a new call, new work, or Stop. */
  predicate Moves(s: Step) {
    !s.StartCall? && !s.TakeOther? && !s.Stop?
  }

  /** What the executor's thread has to do before it gets to a call that is queued, or with Stop. */
  function Ahead(w: World): nat {
    match w.hand
    case Nothing => if w.exited then 0 else 1
    case Other => 2
    case With(h) =>
      if h !in w.calls then 0
      else match w.calls[h].closure case Taken => 4 case Running => 3 case _ => 2
  }

  /** As long as a call has not returned, some thread has a step to take: one of the call's own, or one ahead of it. */
  lemma NeverStuck(w: World, c: CallId) returns (s: Step)
    requires Reachable(w) && c in w.calls && !w.calls[c].caller.Returned?
    ensures Moves(s) && Enabled(w, s) && (Concerns(s, c) || Ahead(Apply(w, s)) < Ahead(w))
  {
    ReachableInv(w);
    var x := w.calls[c];
    assert CallOk(w, x);
    match x.caller
    case Posting => s := Post(c);
    case Releasing => s := Release(c);
    case StandingIn => s := BeginHere(c);
    case RunningHere => s := EndHere(c);
    case Waiting =>
      if !x.outcome.Unsettled? {
        s := Wake(c);
      } else if x.closure.Gone? {
        s := TicketDies(c);
      } else if x.closure.InStop? && w.exited {
        s := DestroyDropped(c);
      } else {
        s := ThreadMoves(w, c);
      }
  }

  /** What the executor's thread does while a closure is queued, in its hand, or with Stop. */
  lemma ThreadMoves(w: World, c: CallId) returns (s: Step)
    requires Inv(w) && c in w.calls && !w.exited
    requires w.calls[c].closure.Queued? || w.calls[c].closure.InStop? || InHand(w.calls[c])
    ensures Moves(s) && Enabled(w, s) && (Concerns(s, c) || Ahead(Apply(w, s)) < Ahead(w))
  {
    assert CallOk(w, w.calls[c]);
    match w.hand
    case Other => s := EndOther;
    case Nothing => s := if w.stopped then Exit else Take(c);
    case With(h) =>
      assert InHand(w.calls[h]);
      s := match w.calls[h].closure case Taken => Begin(h) case Running => End(h) case _ => DestroyTaken(h);
  }

  /** How far a call is; every step of its own brings it further, and 12 is the end. */
  function Progress(x: Call): (p: nat)
    ensures p <= 12
  {
    var caller := match x.caller
                  case Posting => 0
                  case Releasing => 1
                  case Waiting => 2
                  case StandingIn => 3
                  case RunningHere => 4
                  case Returned => 5;
    var closure := match x.closure
                   case WithCaller => 0
                   case Queued => 1
                   case InStop => 2
                   case Taken => 3
                   case Running => 4
                   case Finished => 5
                   case Gone => 6;
    caller + closure + if x.dead then 1 else 0
  }

  /** So each call takes at most twelve steps, and nothing sets it back. */
  lemma StepsMakeProgress(w: World, s: Step, c: CallId)
    requires Inv(w) && Enabled(w, s) && c in w.calls
    ensures c in Apply(w, s).calls
    ensures Progress(Apply(w, s).calls[c]) >= Progress(w.calls[c])
    ensures Concerns(s, c) ==> Progress(Apply(w, s).calls[c]) > Progress(w.calls[c])
  {
    assert CallOk(w, w.calls[c]);
  }

  /** From every reachable point there is a run, without new work or Stop, in which the call returns. */
  lemma {:induction false} CallCanReturn(w: World, c: CallId) returns (steps: seq<Step>, w': World)
    requires Reachable(w) && c in w.calls
    ensures Run(w, steps, w') && c in w'.calls && w'.calls[c].caller.Returned?
    ensures forall i :: 0 <= i < |steps| ==> Moves(steps[i])
    decreases 12 - Progress(w.calls[c]), Ahead(w)
  {
    if w.calls[c].caller.Returned? {
      steps, w' := [], w;
    } else {
      var s := NeverStuck(w, c);
      ReachableInv(w);
      StepsMakeProgress(w, s, c);
      var next := Next(w, s);
      hide Reachable, Apply, Enabled, Inv, Progress, Ahead, Moves;
      steps, w' := CallCanReturn(next, c);
      assert ([s] + steps)[1..] == steps;
      steps := [s] + steps;
    }
  }
}
