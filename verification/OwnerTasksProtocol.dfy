/**
 * OwnerTasks (src/runtime/OwnerTasks.cpp) over the worst executor: it ignores cancels, and delivers
 * what was posted or scheduled as late and as often as it likes, one thing at a time on the owner,
 * nested when a body drives it.
 *
 * A handle's mutex is recursive (include/common/runtime/OwnerTasks.h): an executor may run a body
 * inline, inside the handle call that posted it, and the body may use the handle again or close.
 */
module OwnerTasksProtocol {
  import opened ByteStrings
  import opened OwnerTaskLists

  type BodyId = nat
  type Tid = nat

  /** A bound body: the generation it was bound in, and for a timer its id slot (0 until recorded). */
  datatype Body = Body(generation: nat, timer: bool, slot: TimerId)

  /** A delivery on the owner: past the generation check, past its timer's entry, or in its body. */
  datatype Frame = Checked(body: BodyId) | Claimed(body: BodyId) | InBody(body: BodyId)

  /** A handle call that holds the mutex: the pointer it read, and whether it has reached the executor (with which timer). */
  datatype HandleCall = HandleCall(open: bool, used: bool, body: Option<BodyId>)

  /** Who asked the executor. */
  datatype Origin = Directly | ByHandle

  /** `recording` is the After call that holds the mutex of the timers, `holder` the thread that holds the handle's. */
  datatype World = World(
    tasks: Tasks,
    bodies: map<BodyId, Body>,
    issued: TimerId,
    recording: Option<BodyId>,
    stack: seq<Frame>,
    starts: seq<BodyId>,
    holder: Option<Tid>,
    handleCalls: seq<HandleCall>,
    asked: seq<Origin>)

  const START := World(NEW, map[], 1, None, [], [], None, [], [])

  /** What anybody may do with the tasks, directly or by a handle. */
  datatype Op =
    | Post(b: BodyId)                    // bind, and hand to the executor
    | Bind(b: BodyId)                    // After, under the mutex: bind, and hand to the executor ...
    | Cancel(id: TimerId)

  datatype Step =
    | Direct(op: Op)
    | Record(id: TimerId)                // ... and record the id the executor gave
    // a handle call
    | EnterHandle(t: Tid)
    | ThroughHandle(t: Tid, op: Op)
    | LeaveHandle(t: Tid)
    // Close and DropPending, block by block
    | CloseHandle(t: Tid)
    | Invalidate
    | DropTimers
    // the executor, on the owner
    | Deliver(b: BodyId)
    | Claim
    | Begin
    | Return

  /** The owner runs its own code: between deliveries, or in a body. */
  predicate OwnerFree(w: World) {
    w.stack == [] || w.stack[|w.stack| - 1].InBody?
  }

  function TopOf(w: World): Frame
    requires w.stack != []
  {
    w.stack[|w.stack| - 1]
  }

  function Below(w: World): seq<Frame>
    requires w.stack != []
  {
    w.stack[..|w.stack| - 1]
  }

  function TopCall(w: World): HandleCall
    requires w.handleCalls != []
  {
    w.handleCalls[|w.handleCalls| - 1]
  }

  /** The thread holds the handle's mutex. */
  predicate Holds(w: World, t: Tid) {
    w.holder == Some(t) && w.handleCalls != []
  }

  /** The thread runs code of its own: in no handle call, or inside the executor call of the innermost one. */
  predicate RunsCode(w: World, t: Tid) {
    Holds(w, t) ==> TopCall(w).used
  }

  /** Locking the recursive mutex does not wait. */
  predicate MayLock(w: World, t: Tid) {
    w.handleCalls == [] || w.holder == Some(t)
  }

  predicate OpEnabled(w: World, op: Op) {
    match op
    case Post(b) => b !in w.bodies
    case Bind(b) => b !in w.bodies && w.recording.None?
    case Cancel(id) => w.recording.None?
  }

  predicate Enabled(w: World, s: Step) {
    match s
    case Direct(op) => OpEnabled(w, op)
    case Record(id) => w.recording.Some? && w.recording.value in w.bodies && (id == 0 || id == w.issued)
    case EnterHandle(t) => RunsCode(w, t) && MayLock(w, t)
    case ThroughHandle(t, op) => Holds(w, t) && TopCall(w).open && !TopCall(w).used && OpEnabled(w, op)
    case LeaveHandle(t) => Holds(w, t) && (TopCall(w).body.Some? ==> w.recording != TopCall(w).body)
    case CloseHandle(t) => RunsCode(w, t) && MayLock(w, t)
    case Invalidate => true
    case DropTimers => w.recording.None?
    case Deliver(b) => b in w.bodies && OwnerFree(w)
    case Claim => w.stack != [] && TopOf(w).Checked? && TopOf(w).body in w.bodies && w.recording.None?
    case Begin => w.stack != [] && TopOf(w).Claimed?
    case Return => w.stack != [] && TopOf(w).InBody?
  }

  function ApplyOp(w: World, op: Op, origin: Origin): World
    requires OpEnabled(w, op)
  {
    match op
    case Post(b) => w.(bodies := w.bodies[b := Body(w.tasks.generation, false, 0)], asked := w.asked + [origin])
    case Bind(b) =>
      w.(bodies := w.bodies[b := Body(w.tasks.generation, true, 0)], recording := Some(b), asked := w.asked + [origin])
    case Cancel(id) =>
      w.(tasks := Cancelled(w.tasks, id), asked := if id == 0 then w.asked else w.asked + [origin])
  }

  function Reached(c: HandleCall, op: Op): HandleCall {
    c.(used := true, body := if op.Bind? then Some(op.b) else None)
  }

  function Apply(w: World, s: Step): World
    requires Enabled(w, s)
  {
    match s
    case Direct(op) => ApplyOp(w, op, Directly)
    case Record(id) =>
      if id == 0 then w.(recording := None)
      else
        var b := w.recording.value;
        w.(bodies := w.bodies[b := w.bodies[b].(slot := id)], tasks := Recorded(w.tasks, id), issued := w.issued + 1, recording := None)
    case EnterHandle(t) => w.(holder := Some(t), handleCalls := w.handleCalls + [HandleCall(w.tasks.open, false, None)])
    case ThroughHandle(t, op) =>
      ApplyOp(w, op, ByHandle).(handleCalls := w.handleCalls[|w.handleCalls| - 1 := Reached(TopCall(w), op)])
    case LeaveHandle(t) => w.(handleCalls := w.handleCalls[..|w.handleCalls| - 1])
    case CloseHandle(t) => w.(tasks := HandleCut(w.tasks))
    case Invalidate => w.(tasks := Invalidated(w.tasks))
    case DropTimers => w.(tasks := TimersDropped(w.tasks))
    case Deliver(b) =>
      if w.bodies[b].generation != w.tasks.generation then w
      else w.(stack := w.stack + [if w.bodies[b].timer then Checked(b) else Claimed(b)])
    case Claim =>
      var b := TopOf(w).body;
      var id := w.bodies[b].slot;
      w.(tasks := OwnerTaskLists.Claimed(w.tasks, id), stack := if id in w.tasks.timers then Below(w) + [Claimed(b)] else Below(w))
    case Begin => w.(stack := Below(w) + [InBody(TopOf(w).body)], starts := w.starts + [TopOf(w).body])
    case Return => w.(stack := Below(w))
  }

  // ---- The invariant ----

  function StartsOf(starts: seq<BodyId>, b: BodyId): nat {
    if starts == [] then 0
    else StartsOf(starts[..|starts| - 1], b) + if starts[|starts| - 1] == b then 1 else 0
  }

  /** The delivery in progress that has claimed this timer and not begun its body. */
  predicate ClaimedNow(w: World, b: BodyId) {
    w.stack != [] && TopOf(w) == Claimed(b)
  }

  /** Only the top of the stack is not yet in its body; what is delivered was bound. */
  ghost predicate StackOk(w: World) {
    && (forall i :: 0 <= i < |w.stack| - 1 ==> w.stack[i].InBody?)
    && (forall i :: 0 <= i < |w.stack| ==> w.stack[i].body in w.bodies)
    && (w.stack != [] && TopOf(w).Checked? ==> w.bodies[TopOf(w).body].timer)
  }

  ghost predicate GenerationsOk(w: World) {
    forall b :: b in w.bodies ==> w.bodies[b].generation <= w.tasks.generation
  }

  ghost predicate SlotsOk(w: World) {
    && 0 < w.issued && 0 !in w.tasks.timers
    && (forall id :: id in w.tasks.timers ==> id < w.issued)
    && (forall b :: b in w.bodies ==> w.bodies[b].slot < w.issued && (w.bodies[b].slot != 0 ==> w.bodies[b].timer))
    && (forall a, b :: a in w.bodies && b in w.bodies && w.bodies[a].slot == w.bodies[b].slot != 0 ==> a == b)
    && RecordingOk(w)
  }

  predicate RecordingOk(w: World) {
    w.recording.Some? ==> w.recording.value in w.bodies && w.bodies[w.recording.value].slot == 0 && w.bodies[w.recording.value].timer
  }

  /** A timer waits in `timers`, or was claimed, or has started: only one of these, and once. */
  ghost predicate OnceOk(w: World, b: BodyId)
    requires b in w.bodies
  {
    var waiting := w.bodies[b].slot in w.tasks.timers;
    && StartsOf(w.starts, b) + (if ClaimedNow(w, b) then 1 else 0) + (if waiting then 1 else 0) <= 1
    && (w.bodies[b].slot == 0 ==> StartsOf(w.starts, b) == 0 && !ClaimedNow(w, b))
  }

  /** Outer handle calls are inside the executor; one that read the pointer and has not is innermost, and not closed meanwhile. */
  predicate HandleOk(w: World) {
    && (forall i :: 0 <= i < |w.handleCalls| - 1 ==> w.handleCalls[i].used)
    && (w.handleCalls != [] && TopCall(w).open && !TopCall(w).used ==> w.tasks.open)
    && (w.handleCalls != [] ==> w.holder.Some?)
  }

  ghost predicate Inv(w: World) {
    && StackOk(w) && GenerationsOk(w) && SlotsOk(w) && HandleOk(w)
    && (forall b :: b in w.bodies && w.bodies[b].timer ==> OnceOk(w, b))
    && (forall b :: b !in w.bodies ==> StartsOf(w.starts, b) == 0)
  }

  lemma StartCounted(starts: seq<BodyId>, x: BodyId, b: BodyId)
    ensures StartsOf(starts + [x], b) == StartsOf(starts, b) + if x == b then 1 else 0
  {
    assert (starts + [x])[..|starts|] == starts;
  }

  /** Steps of the handle's mutex, and Invalidate: they leave all but `handleCalls`, `holder`, `open` and the generation alone. */
  predicate MutexStep(s: Step) {
    s.EnterHandle? || s.LeaveHandle? || s.CloseHandle? || s.Invalidate?
  }

  lemma MutexStepKeeps(w: World, s: Step)
    requires Enabled(w, s) && MutexStep(s)
    ensures var w' := Apply(w, s);
            && w'.bodies == w.bodies && w'.issued == w.issued && w'.recording == w.recording
            && w'.stack == w.stack && w'.starts == w.starts && w'.asked == w.asked
            && w'.tasks.timers == w.tasks.timers && w.tasks.generation <= w'.tasks.generation
  {}

  /** What a step does with the tasks directly or by a handle is one operation. */
  predicate IsOp(s: Step) {
    s.Direct? || s.ThroughHandle?
  }

  lemma OpStep(w: World, s: Step)
    requires Enabled(w, s) && IsOp(s)
    ensures OpEnabled(w, s.op)
    ensures var w', w1 := Apply(w, s), ApplyOp(w, s.op, Directly);
            && w'.bodies == w1.bodies && w'.issued == w.issued && w'.recording == w1.recording
            && w'.stack == w.stack && w'.starts == w.starts && w'.tasks == w1.tasks
  {}

  lemma StepKeepsStack(w: World, s: Step)
    requires StackOk(w) && Enabled(w, s) && RecordingOk(w)
    ensures StackOk(Apply(w, s))
  {
    if MutexStep(s) {
      MutexStepKeeps(w, s);
    } else if IsOp(s) {
      OpStep(w, s);
    }
  }

  lemma StepKeepsGenerations(w: World, s: Step)
    requires GenerationsOk(w) && Enabled(w, s)
    ensures GenerationsOk(Apply(w, s))
  {
    if MutexStep(s) {
      MutexStepKeeps(w, s);
    } else if IsOp(s) {
      OpStep(w, s);
    }
  }

  lemma StepKeepsSlots(w: World, s: Step)
    requires SlotsOk(w) && Enabled(w, s)
    ensures SlotsOk(Apply(w, s))
  {
    if MutexStep(s) {
      MutexStepKeeps(w, s);
    } else if IsOp(s) {
      OpStep(w, s);
      OpKeepsSlots(w, s.op);
      hide Apply, ApplyOp;
    } else if s.Record? {
      RecordKeepsSlots(w, s.id);
    }
  }

  lemma OpKeepsSlots(w: World, op: Op)
    requires SlotsOk(w) && OpEnabled(w, op)
    ensures SlotsOk(ApplyOp(w, op, Directly))
  {}

  lemma RecordKeepsSlots(w: World, id: TimerId)
    requires SlotsOk(w) && Enabled(w, Record(id))
    ensures SlotsOk(Apply(w, Record(id)))
  {
    var b := w.recording.value;
    assert b in w.bodies && w.bodies[b].slot == 0;
  }

  lemma StepKeepsHandle(w: World, s: Step)
    requires HandleOk(w) && Enabled(w, s)
    ensures HandleOk(Apply(w, s))
  {}

  lemma StepKeepsOnce(w: World, s: Step, b: BodyId)
    requires StackOk(w) && SlotsOk(w) && Enabled(w, s)
    requires b in w.bodies && w.bodies[b].timer && OnceOk(w, b)
    ensures b in Apply(w, s).bodies && OnceOk(Apply(w, s), b)
  {
    if MutexStep(s) {
      MutexStepKeeps(w, s);
    } else if IsOp(s) {
      OpStep(w, s);
    } else {
      match s
      case Claim => ClaimKeepsOnce(w, b);
      case Begin => BeginKeepsOnce(w, b);
      case Record(id) => RecordKeepsOnce(w, id, b);
      case Return => ReturnToBody(w);
      case Deliver(d) =>
      case _ =>
    }
  }

  lemma ReturnToBody(w: World)
    requires StackOk(w) && w.stack != []
    ensures Below(w) != [] ==> Below(w)[|Below(w)| - 1].InBody?
  {}

  lemma ClaimKeepsOnce(w: World, b: BodyId)
    requires StackOk(w) && SlotsOk(w) && Enabled(w, Claim) && b in w.bodies && w.bodies[b].timer && OnceOk(w, b)
    ensures OnceOk(Apply(w, Claim), b)
  {
    ReturnToBody(w);
  }

  lemma BeginKeepsOnce(w: World, b: BodyId)
    requires StackOk(w) && Enabled(w, Begin) && b in w.bodies && OnceOk(w, b)
    ensures OnceOk(Apply(w, Begin), b)
  {
    StartCounted(w.starts, TopOf(w).body, b);
    hide StartsOf;
    assert !ClaimedNow(Apply(w, Begin), b);
  }

  lemma RecordKeepsOnce(w: World, id: TimerId, b: BodyId)
    requires SlotsOk(w) && Enabled(w, Record(id)) && b in w.bodies && w.bodies[b].timer && OnceOk(w, b)
    ensures OnceOk(Apply(w, Record(id)), b)
  {
    hide StartsOf;
  }

  /** A body bound by this step has not been delivered. */
  lemma NewBodyOk(w: World, s: Step, b: BodyId)
    requires Inv(w) && Enabled(w, s) && b !in w.bodies && b in Apply(w, s).bodies
    ensures OnceOk(Apply(w, s), b)
  {
    hide GenerationsOk;
    if IsOp(s) {
      OpStep(w, s);
    } else if MutexStep(s) {
      MutexStepKeeps(w, s);
    }
  }

  lemma StepKeepsUnbound(w: World, s: Step, b: BodyId)
    requires Inv(w) && Enabled(w, s) && b !in Apply(w, s).bodies
    ensures b !in w.bodies && StartsOf(Apply(w, s).starts, b) == 0
  {
    if IsOp(s) {
      OpStep(w, s);
    } else if MutexStep(s) {
      MutexStepKeeps(w, s);
    } else if s.Begin? {
      StartCounted(w.starts, TopOf(w).body, b);
      assert w.stack[|w.stack| - 1].body in w.bodies;
    }
  }

  lemma StepKeepsInv(w: World, s: Step)
    requires Inv(w) && Enabled(w, s)
    ensures Inv(Apply(w, s))
  {
    StepKeepsStack(w, s);
    StepKeepsGenerations(w, s);
    StepKeepsSlots(w, s);
    StepKeepsHandle(w, s);
    hide StackOk, GenerationsOk, SlotsOk, HandleOk, OnceOk, StartsOf, Apply, Enabled;
    forall b | b in Apply(w, s).bodies && Apply(w, s).bodies[b].timer
      ensures OnceOk(Apply(w, s), b)
    {
      if b in w.bodies {
        StepKeepsKind(w, s, b);
        StepKeepsOnce(w, s, b);
      } else {
        NewBodyOk(w, s, b);
      }
    }
    forall b | b !in Apply(w, s).bodies
      ensures StartsOf(Apply(w, s).starts, b) == 0
    {
      StepKeepsUnbound(w, s, b);
    }
  }

  /** A body keeps its kind and generation, and the generation only grows. */
  lemma StepKeepsKind(w: World, s: Step, b: BodyId)
    requires Enabled(w, s) && b in w.bodies
    ensures b in Apply(w, s).bodies
    ensures Apply(w, s).bodies[b].timer == w.bodies[b].timer && Apply(w, s).bodies[b].generation == w.bodies[b].generation
    ensures w.tasks.generation <= Apply(w, s).tasks.generation
  {
    if IsOp(s) {
      OpStep(w, s);
    } else if MutexStep(s) {
      MutexStepKeeps(w, s);
    }
  }

  // ---- Runs ----

  ghost predicate Run(w: World, steps: seq<Step>, w': World)
    decreases steps
  {
    if steps == [] then w' == w
    else Enabled(w, steps[0]) && Run(Apply(w, steps[0]), steps[1..], w')
  }

  ghost predicate Reachable(w: World) {
    exists steps :: Run(START, steps, w)
  }

  lemma {:induction false} RunKeepsInv(w: World, steps: seq<Step>, w': World)
    requires Inv(w) && Run(w, steps, w')
    ensures Inv(w')
    decreases steps
  {
    if steps != [] {
      hide Apply, Enabled, Inv;
      StepKeepsInv(w, steps[0]);
      RunKeepsInv(Apply(w, steps[0]), steps[1..], w');
    }
  }

  lemma ReachableInv(w: World)
    requires Reachable(w)
    ensures Inv(w)
  {
    var steps :| Run(START, steps, w);
    RunKeepsInv(START, steps, w);
  }

  // ---- Timers ----

  /** However often the executor delivers it, a timer's body starts at most once. */
  lemma TimersStartOnce(w: World, b: BodyId)
    requires Reachable(w) && b in w.bodies && w.bodies[b].timer
    ensures StartsOf(w.starts, b) <= 1
  {
    ReachableInv(w);
  }

  /** The timer's entry is gone, and no delivery has claimed it. */
  predicate Dead(w: World, b: BodyId) {
    b in w.bodies && w.bodies[b].timer && w.bodies[b].slot != 0 && w.bodies[b].slot !in w.tasks.timers && !ClaimedNow(w, b)
  }

  lemma StepKeepsDead(w: World, s: Step, b: BodyId)
    requires StackOk(w) && SlotsOk(w) && Enabled(w, s) && Dead(w, b)
    ensures Dead(Apply(w, s), b) && StartsOf(Apply(w, s).starts, b) == StartsOf(w.starts, b)
  {
    if MutexStep(s) {
      MutexStepKeeps(w, s);
    } else if IsOp(s) {
      OpStep(w, s);
    } else if s.Begin? {
      StartCounted(w.starts, TopOf(w).body, b);
    } else if s.Return? || s.Claim? {
      ReturnToBody(w);
    }
  }

  lemma {:induction false} DeadAlong(w: World, steps: seq<Step>, w': World, b: BodyId)
    requires Inv(w) && Run(w, steps, w') && Dead(w, b)
    ensures StartsOf(w'.starts, b) == StartsOf(w.starts, b)
    decreases steps
  {
    if steps != [] {
      StepKeepsInv(w, steps[0]);
      StepKeepsDead(w, steps[0], b);
      hide Apply, Enabled, Inv, Dead, StartsOf;
      DeadAlong(Apply(w, steps[0]), steps[1..], w', b);
    }
  }

  /** In some run from here this body starts once more. */
  ghost predicate StartsLater(w: World, b: BodyId) {
    exists steps, w' :: Run(w, steps, w') && StartsOf(w'.starts, b) > StartsOf(w.starts, b)
  }

  /**
   * After Cancel, from any thread, the timer's body may still start if and only if a delivery had
   * claimed it already; on the owner none has, for there no claim is pending.
   */
  lemma CancelIsExact(w: World, b: BodyId)
    requires Reachable(w) && b in w.bodies && w.bodies[b].timer && w.bodies[b].slot != 0
    requires w.recording.None?
    ensures StartsLater(Apply(w, Direct(Cancel(w.bodies[b].slot))), b) <==> ClaimedNow(w, b)
    ensures OwnerFree(w) ==> !ClaimedNow(w, b)
  {
    ReachableInv(w);
    var s := Direct(Cancel(w.bodies[b].slot));
    StepKeepsInv(w, s);
    hide StartsLater;
    if ClaimedNow(w, b) {
      ClaimedStartsLater(Apply(w, s), b);
    } else {
      DeadNeverStarts(Apply(w, s), b);
    }
  }

  lemma ClaimedStartsLater(w: World, b: BodyId)
    requires ClaimedNow(w, b)
    ensures StartsLater(w, b)
  {
    var w' := Apply(w, Begin);
    StartCounted(w.starts, b, b);
    assert [Begin][1..] == [] && Run(w', [], w');
    assert Run(w, [Begin], w');
  }

  lemma DeadNeverStarts(w: World, b: BodyId)
    requires Inv(w) && Dead(w, b)
    ensures !StartsLater(w, b)
  {
    hide Inv, Dead;
    forall steps, w' | Run(w, steps, w')
      ensures StartsOf(w'.starts, b) == StartsOf(w.starts, b)
    {
      DeadAlong(w, steps, w', b);
    }
  }
}
