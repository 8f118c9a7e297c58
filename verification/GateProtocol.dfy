/**
 * Every interleaving of the teardown gate: any number of threads, tasks and quiesce calls,
 * each step one block under the gate's lock or one change of a thread's own depth.
 *
 * A mailbox is whatever may run a queued task on some thread or destroy it unrun.
 */
module GateProtocol {
  import opened FiniteSets
  import opened TeardownGates

  type Tid = nat
  type TaskId = nat
  type CallId = nat

  /** Timers stay armed until they first begin; a repeating one is armed for ever. */
  datatype Status = Waiting | Started(at: nat) | Skipped | Dropped

  datatype Task = Task(kind: GateKind, epoch: nat, status: Status)

  /** Where a thread is with the task on top of its stack: `InCode` is inside its body, or outside any task. */
  datatype Stage = InCode | Entering | Leaving

  /** The gated tasks a thread is running, innermost last, and its own nesting counter. */
  datatype Thread = Thread(stack: seq<TaskId>, stage: Stage, depth: int)

  datatype CallPhase = Polling | Decided(drained: bool) | Returned(drained: bool)

  /** One QuiesceForTeardown call that left Open, and the tasks that enclose it. */
  datatype Call = Call(thread: Tid, enclosing: seq<TaskId>, ownDepth: int, epoch: nat, phase: CallPhase)

  /** What a QuiesceForTeardown call that did not leave Open returned at once. */
  datatype Answer = Answer(thread: Tid, quiet: bool)

  /** `crossed`: in this epoch, a call of an earlier epoch closed the gate. */
  datatype World = World(
    gate: Gate,
    tasks: map<TaskId, Task>,
    threads: map<Tid, Thread>,
    calls: map<CallId, Call>,
    answers: seq<Answer>,
    crossed: bool)

  const START := World(INITIAL_GATE, map[], map[], map[], [], false)

  function ThreadOf(w: World, t: Tid): Thread {
    if t in w.threads then w.threads[t] else Thread([], InCode, 0)
  }

  predicate Active(c: Call) {
    !c.phase.Returned?
  }

  /** The thread is executing this quiesce call itself, not a task it runs meanwhile. */
  predicate AtCall(w: World, c: Call) {
    Active(c) && ThreadOf(w, c.thread).stage == InCode && ThreadOf(w, c.thread).stack == c.enclosing
  }

  /** The thread is in code that may post, return, quiesce or reopen. */
  ghost predicate Free(w: World, t: Tid) {
    ThreadOf(w, t).stage == InCode && forall c :: c in w.calls && w.calls[c].thread == t ==> !AtCall(w, w.calls[c])
  }

  // ---- Steps ----

  datatype Step =
    | Post(t: Tid, id: TaskId)
    | Arm(id: TaskId, kind: GateKind)
    | Begin(t: Tid, id: TaskId)
    | Enter(t: Tid)
    | Exit(t: Tid)
    | Leave(t: Tid)
    | Drop(id: TaskId)
    | StartQuiesce(t: Tid, call: CallId)
    | Poll(call: CallId, expired: bool)
    | Close(call: CallId)
    | Reopen(t: Tid)

  ghost predicate Enabled(w: World, s: Step) {
    match s
    case Post(t, id) => Free(w, t) && id !in w.tasks
    case Arm(id, kind) => id !in w.tasks && kind != Posted
    case Begin(t, id) =>
      && id in w.tasks
      && (w.tasks[id].status == Waiting || w.tasks[id].kind == RepeatingTimer)
      && ThreadOf(w, t).stage == InCode
      // a quiesce call runs tasks only while it polls
      && (forall c :: c in w.calls && w.calls[c].thread == t && AtCall(w, w.calls[c]) ==> w.calls[c].phase == Polling)
    case Enter(t) => ThreadOf(w, t).stage == Entering
    case Exit(t) => Free(w, t) && ThreadOf(w, t).stack != []
    case Leave(t) => ThreadOf(w, t).stage == Leaving
    case Drop(id) => id in w.tasks && w.tasks[id].kind == Posted && w.tasks[id].status == Waiting
    case StartQuiesce(t, call) => Free(w, t) && call !in w.calls
    case Poll(call, _) => call in w.calls && AtCall(w, w.calls[call]) && w.calls[call].phase == Polling
    case Close(call) => call in w.calls && AtCall(w, w.calls[call]) && w.calls[call].phase.Decided?
    case Reopen(t) => Free(w, t)
  }

  function Push(th: Thread, id: TaskId): Thread {
    th.(stack := th.stack + [id], stage := Entering)
  }

  function Pop(th: Thread): Thread {
    th.(stack := if th.stack == [] then [] else th.stack[..|th.stack| - 1], stage := InCode)
  }

  ghost function Apply(w: World, s: Step): World
    requires Enabled(w, s)
  {
    match s
    case Post(t, id) =>
      if AcceptsPost(w.gate, ThreadOf(w, t).depth) then
        w.(gate := w.gate.(pending := w.gate.pending + 1), tasks := w.tasks[id := Task(Posted, w.gate.epoch, Waiting)])
      else w
    case Arm(id, kind) => w.(tasks := w.tasks[id := Task(kind, w.gate.epoch, Waiting)])
    case Begin(t, id) =>
      var task := w.tasks[id];
      var gate := AfterBegin(w.gate, task.kind, task.epoch);
      if RunsTask(w.gate, task.kind, task.epoch) then
        w.(gate := gate, tasks := w.tasks[id := task.(status := Started(w.gate.epoch))],
           threads := w.threads[t := Push(ThreadOf(w, t), id)])
      else
        w.(gate := gate, tasks := w.tasks[id := task.(status := if task.kind == RepeatingTimer then task.status else Skipped)])
    case Enter(t) =>
      w.(threads := w.threads[t := ThreadOf(w, t).(stage := InCode, depth := ThreadOf(w, t).depth + 1)])
    case Exit(t) =>
      w.(threads := w.threads[t := ThreadOf(w, t).(stage := Leaving, depth := ThreadOf(w, t).depth - 1)])
    case Leave(t) =>
      w.(gate := w.gate.(running := w.gate.running - 1), threads := w.threads[t := Pop(ThreadOf(w, t))])
    case Drop(id) =>
      w.(gate := w.gate.(pending := w.gate.pending - 1), tasks := w.tasks[id := w.tasks[id].(status := Dropped)])
    case StartQuiesce(t, call) =>
      if w.gate.state != Open then w.(answers := w.answers + [Answer(t, w.gate.running <= ThreadOf(w, t).depth)])
      else
        w.(gate := w.gate.(state := Draining),
           calls := w.calls[call := Call(t, ThreadOf(w, t).stack, ThreadOf(w, t).depth, w.gate.epoch, Polling)])
    case Poll(call, expired) =>
      var c := w.calls[call];
      if IsDrained(w.gate, c.ownDepth) then w.(calls := w.calls[call := c.(phase := Decided(true))])
      else if expired then w.(calls := w.calls[call := c.(phase := Decided(false))])
      else w
    case Close(call) =>
      var c := w.calls[call];
      w.(gate := w.gate.(state := Closed),
         calls := w.calls[call := c.(phase := Returned(c.phase.drained))],
         crossed := w.crossed || c.epoch != w.gate.epoch)
    case Reopen(t) =>
      w.(gate := AfterReopen(w.gate), crossed := if w.gate.state == Open then w.crossed else false)
  }

  // ---- The invariant ----

  /** One element for each gated task that runs on some thread, from its start to its last block. */
  function Frames(w: World): set<(Tid, nat)> {
    set t, k | t in w.threads && 0 <= k < |w.threads[t].stack| :: (t, k)
  }

  /** Accepted posts not yet settled. */
  function Unsettled(w: World): set<TaskId> {
    set id | id in w.tasks && w.tasks[id].kind == Posted && w.tasks[id].status == Waiting
  }

  ghost predicate ThreadOk(th: Thread) {
    && th.depth == |th.stack| - (if th.stage == InCode then 0 else 1)
    && (th.stage != InCode ==> th.stack != [])
  }

  /** The counters are what their names say. */
  ghost predicate Counted(w: World) {
    && w.gate.pending == |Unsettled(w)|
    && w.gate.running == |Frames(w)|
    && forall t :: t in w.threads ==> ThreadOk(w.threads[t])
  }

  /** Nothing but the enclosing tasks of the call runs, and nothing is queued. */
  ghost predicate Quiet(w: World, c: Call) {
    && Unsettled(w) == {}
    && ThreadOf(w, c.thread).stack <= c.enclosing
    && forall t :: t in w.threads && t != c.thread ==> w.threads[t].stack == []
  }

  /** The call saw the gate drained, in this epoch. */
  predicate DrainedNow(w: World, c: Call) {
    c.epoch == w.gate.epoch && !c.phase.Polling? && c.phase.drained
  }

  /** The thread is at the call, or in tasks it runs meanwhile. */
  predicate Encloses(c: Call, th: Thread) {
    c.enclosing <= th.stack && (th.stage != InCode ==> c.enclosing != th.stack)
  }

  ghost predicate CallOk(w: World, c: Call) {
    && c.epoch <= w.gate.epoch && c.ownDepth == |c.enclosing|
    && (Active(c) ==> Encloses(c, ThreadOf(w, c.thread)))
    && (c.phase.Decided? ==> AtCall(w, c))
    && (c.epoch == w.gate.epoch ==> w.gate.state != Open && (c.phase.Returned? ==> w.gate.state == Closed))
    && (DrainedNow(w, c) ==> Quiet(w, c))
  }

  ghost predicate CallsOk(w: World) {
    forall c :: c in w.calls ==> CallOk(w, w.calls[c])
  }

  /** A post of the current epoch was skipped by the gate itself. */
  ghost predicate SkippedNow(w: World) {
    exists id :: id in w.tasks && w.tasks[id] == Task(Posted, w.gate.epoch, Skipped)
  }

  /** No task is of a later epoch; a post or one-shot timer was started in its own. */
  ghost predicate TaskEpochsOk(w: World) {
    forall id :: id in w.tasks ==>
      && w.tasks[id].epoch <= w.gate.epoch
      && (w.tasks[id].status.Started? && w.tasks[id].kind != RepeatingTimer ==> w.tasks[id].status.at == w.tasks[id].epoch)
  }

  ghost predicate EpochsOk(w: World) {
    && TaskEpochsOk(w)
    && (!w.crossed && w.gate.state != Closed ==> !SkippedNow(w))
    && (!w.crossed && (exists c :: c in w.calls && DrainedNow(w, w.calls[c])) ==> !SkippedNow(w))
  }

  /** One call leaves Open in each epoch; until it closes the gate itself, the gate is draining. */
  ghost predicate OneCall(w: World) {
    && (forall a, b :: a in w.calls && b in w.calls && w.calls[a].epoch == w.calls[b].epoch ==> a == b)
    && (!w.crossed ==> forall c :: c in w.calls && Active(w.calls[c]) && w.calls[c].epoch == w.gate.epoch ==> w.gate.state == Draining)
  }

  ghost predicate Inv(w: World) {
    Counted(w) && CallsOk(w) && OneCall(w) && EpochsOk(w)
  }

  // ---- The counters ----

  lemma PushFrame(w: World, t: Tid, th: Thread, w': World)
    requires w'.threads == w.threads[t := th] && ThreadOf(w, t).stack <= th.stack && |th.stack| == |ThreadOf(w, t).stack| + 1
    ensures |Frames(w')| == |Frames(w)| + 1
  {
    var top := (t, |ThreadOf(w, t).stack|);
    assert Frames(w') == Frames(w) + {top};
  }

  lemma PopFrame(w: World, t: Tid, th: Thread, w': World)
    requires w'.threads == w.threads[t := th] && th.stack <= ThreadOf(w, t).stack && |th.stack| + 1 == |ThreadOf(w, t).stack|
    ensures |Frames(w')| == |Frames(w)| - 1
  {
    var top := (t, |th.stack|);
    assert Frames(w') == Frames(w) - {top};
  }

  lemma SameFrames(w: World, t: Tid, th: Thread, w': World)
    requires w'.threads == w.threads[t := th] && th.stack == ThreadOf(w, t).stack
    ensures Frames(w') == Frames(w)
  {}

  /** Changing one task changes the unsettled posts by that one at most. */
  lemma TaskChanged(w: World, id: TaskId, task: Task, w': World)
    requires w'.tasks == w.tasks[id := task]
    ensures Unsettled(w') == if task.kind == Posted && task.status == Waiting then Unsettled(w) + {id} else Unsettled(w) - {id}
  {}

  lemma StepKeepsCounted(w: World, s: Step)
    requires Inv(w) && Enabled(w, s)
    ensures Counted(Apply(w, s))
  {
    var w' := Apply(w, s);
    match s
    case Post(t, id) => TaskStepCounted(w, s, id);
    case Arm(id, kind) => TaskStepCounted(w, s, id);
    case Drop(id) => TaskStepCounted(w, s, id);
    case Begin(t, id) => BeginCounted(w, s);
    case Enter(t) => ThreadStepCounted(w, s);
    case Exit(t) => ThreadStepCounted(w, s);
    case Leave(t) => ThreadStepCounted(w, s);
    case _ => assert Frames(w') == Frames(w) && Unsettled(w') == Unsettled(w);
  }

  lemma TaskStepCounted(w: World, s: Step, id: TaskId)
    requires Inv(w) && Enabled(w, s) && (s.Post? || s.Arm? || s.Drop?) && s.id == id
    ensures Counted(Apply(w, s))
  {
    var w' := Apply(w, s);
    assert Frames(w') == Frames(w);
    if w' != w {
      TaskChanged(w, id, w'.tasks[id], w');
    }
  }

  lemma BeginCounted(w: World, s: Step)
    requires Inv(w) && Enabled(w, s) && s.Begin?
    ensures Counted(Apply(w, s))
  {
    hide CallsOk, OneCall, EpochsOk, Free, Frames, Unsettled, ThreadOk, AtCall;
    BeginSettles(w, s);
    BeginFrames(w, s);
  }

  lemma BeginSettles(w: World, s: Step)
    requires Inv(w) && Enabled(w, s) && s.Begin?
    ensures Apply(w, s).gate.pending == |Unsettled(Apply(w, s))|
  {
    hide CallsOk, OneCall, EpochsOk, Free, Frames, ThreadOk, AtCall;
    var w' := Apply(w, s);
    TaskChanged(w, s.id, w'.tasks[s.id], w');
    assert s.id in Unsettled(w) <==> w.tasks[s.id].kind == Posted;
  }

  lemma BeginFrames(w: World, s: Step)
    requires Inv(w) && Enabled(w, s) && s.Begin?
    ensures Apply(w, s).gate.running == |Frames(Apply(w, s))|
    ensures forall t :: t in Apply(w, s).threads ==> ThreadOk(Apply(w, s).threads[t])
  {
    hide CallsOk, OneCall, EpochsOk, Free, Unsettled, AtCall;
    var w' := Apply(w, s);
    if RunsTask(w.gate, w.tasks[s.id].kind, w.tasks[s.id].epoch) {
      PushFrame(w, s.t, w'.threads[s.t], w');
    } else {
      assert Frames(w') == Frames(w);
    }
  }

  lemma ThreadStepCounted(w: World, s: Step)
    requires Inv(w) && Enabled(w, s) && (s.Enter? || s.Exit? || s.Leave?)
    ensures Counted(Apply(w, s))
  {
    var w' := Apply(w, s);
    assert Unsettled(w') == Unsettled(w);
    assert s.t in w.threads && ThreadOk(w.threads[s.t]);
    if s.Leave? {
      PopFrame(w, s.t, w'.threads[s.t], w');
    } else {
      SameFrames(w, s.t, w'.threads[s.t], w');
    }
  }

  // ---- The quiesce calls ----

  /** When all running tasks are among those that enclose the call, no other thread runs any. */
  lemma DrainedIsQuiet(w: World, c: Call)
    requires Counted(w) && AtCall(w, c) && c.ownDepth == |c.enclosing| && IsDrained(w.gate, c.ownDepth)
    ensures Quiet(w, c)
  {
    assert Unsettled(w) == {};
    var own := set k | 0 <= k < |c.enclosing| :: (c.thread, k);
    OwnFrames(c.thread, |c.enclosing|);
    assert own <= Frames(w);
    SubsetOfSameSize(own, Frames(w));
    forall t | t in w.threads && t != c.thread
      ensures w.threads[t].stack == []
    {
      assert w.threads[t].stack != [] ==> (t, 0) in Frames(w);
    }
  }

  /** In a world drained in this epoch, a wrapped task does not run, and it is no post. */
  lemma QuietSkips(w: World, c: Call, id: TaskId)
    requires CallOk(w, c) && DrainedNow(w, c)
    requires id in w.tasks && (w.tasks[id].status == Waiting || w.tasks[id].kind == RepeatingTimer)
    ensures !RunsTask(w.gate, w.tasks[id].kind, w.tasks[id].epoch)
    ensures w.tasks[id].status == Waiting ==> w.tasks[id].kind != Posted
  {
    assert id !in Unsettled(w);
  }

  /** And a post is refused: no thread outside the call runs a task, and the call itself does not post. */
  lemma QuietRefuses(w: World, k: CallId, t: Tid)
    requires Inv(w) && k in w.calls && DrainedNow(w, w.calls[k]) && Free(w, t)
    ensures !AcceptsPost(w.gate, ThreadOf(w, t).depth)
  {
    var c := w.calls[k];
    assert CallOk(w, c);
    assert t in w.threads ==> ThreadOk(w.threads[t]);
  }

  lemma TaskStepKeepsCall(w: World, s: Step, k: CallId)
    requires Inv(w) && Enabled(w, s) && k in w.calls
    requires s.Post? || s.Arm? || s.Drop?
    ensures CallOk(Apply(w, s), w.calls[k])
  {
    var w' := Apply(w, s);
    var c := w.calls[k];
    assert CallOk(w, c);
    if DrainedNow(w, c) {
      if s.Post? {
        QuietRefuses(w, k, s.t);
      } else {
        TaskChanged(w, s.id, w'.tasks[s.id], w');
      }
    }
  }

  lemma BeginKeepsCall(w: World, s: Step, k: CallId)
    requires Inv(w) && Enabled(w, s) && k in w.calls && s.Begin?
    ensures CallOk(Apply(w, s), w.calls[k])
  {
    var w' := Apply(w, s);
    var c := w.calls[k];
    assert CallOk(w, c);
    if DrainedNow(w, c) {
      QuietSkips(w, c, s.id);
      TaskChanged(w, s.id, w'.tasks[s.id], w');
    } else if RunsTask(w.gate, w.tasks[s.id].kind, w.tasks[s.id].epoch) && c.thread == s.t && Active(c) {
      assert ThreadOf(w', s.t).stack[..|c.enclosing|] == c.enclosing;
    }
  }

  lemma ThreadStepKeepsCall(w: World, s: Step, k: CallId)
    requires Inv(w) && Enabled(w, s) && k in w.calls
    requires s.Enter? || s.Exit? || s.Leave?
    ensures CallOk(Apply(w, s), w.calls[k])
  {
    var w' := Apply(w, s);
    var c := w.calls[k];
    assert CallOk(w, c);
    assert Unsettled(w') == Unsettled(w);
    assert s.t in w.threads && ThreadOk(w.threads[s.t]);
  }

  lemma PollKeepsCall(w: World, s: Step, k: CallId)
    requires Inv(w) && Enabled(w, s) && k in w.calls && s.Poll?
    ensures CallOk(Apply(w, s), Apply(w, s).calls[k])
  {
    hide EpochsOk, OneCall;
    var w' := Apply(w, s);
    assert CallOk(w, w.calls[k]);
    assert Unsettled(w') == Unsettled(w);
    if s.call == k && IsDrained(w.gate, w.calls[k].ownDepth) {
      DrainedIsQuiet(w, w.calls[k]);
    }
  }

  lemma CloseKeepsCall(w: World, s: Step, k: CallId)
    requires Inv(w) && Enabled(w, s) && k in w.calls && s.Close?
    ensures CallOk(Apply(w, s), Apply(w, s).calls[k])
  {
    assert CallOk(w, w.calls[k]);
    assert Unsettled(Apply(w, s)) == Unsettled(w);
  }

  lemma CallStepKeepsCall(w: World, s: Step, k: CallId)
    requires Inv(w) && Enabled(w, s) && k in w.calls
    requires s.StartQuiesce? || s.Reopen?
    ensures CallOk(Apply(w, s), Apply(w, s).calls[k])
  {
    assert CallOk(w, w.calls[k]);
    assert Unsettled(Apply(w, s)) == Unsettled(w);
  }

  lemma StepKeepsCall(w: World, s: Step, k: CallId)
    requires Inv(w) && Enabled(w, s) && k in w.calls
    ensures CallOk(Apply(w, s), Apply(w, s).calls[k])
  {
    match s
    case Post(_, _) => TaskStepKeepsCall(w, s, k);
    case Arm(_, _) => TaskStepKeepsCall(w, s, k);
    case Drop(_) => TaskStepKeepsCall(w, s, k);
    case Begin(_, _) => BeginKeepsCall(w, s, k);
    case Enter(_) => ThreadStepKeepsCall(w, s, k);
    case Exit(_) => ThreadStepKeepsCall(w, s, k);
    case Leave(_) => ThreadStepKeepsCall(w, s, k);
    case Poll(_, _) => PollKeepsCall(w, s, k);
    case Close(_) => CloseKeepsCall(w, s, k);
    case _ => CallStepKeepsCall(w, s, k);
  }

  lemma StepKeepsCalls(w: World, s: Step)
    requires Inv(w) && Enabled(w, s)
    ensures CallsOk(Apply(w, s))
  {
    var w' := Apply(w, s);
    forall k | k in w'.calls
      ensures CallOk(w', w'.calls[k])
    {
      if k in w.calls {
        StepKeepsCall(w, s, k);
      } else if ThreadOf(w, s.t).stack != [] {
        assert ThreadOk(w.threads[s.t]);
      }
    }
  }

  lemma StepKeepsOneCall(w: World, s: Step)
    requires Inv(w) && Enabled(w, s)
    ensures OneCall(Apply(w, s))
  {
    match s
    case StartQuiesce(t, call) => NewEpochKeepsOneCall(w, s);
    case Reopen(t) => NewEpochKeepsOneCall(w, s);
    case Close(call) => CallMovesOn(w, s, call);
    case Poll(call, _) => CallMovesOn(w, s, call);
    case _ =>
      hide Counted, EpochsOk, CallsOk, Enabled;
      QuietStep(w, s);
  }

  lemma NewEpochKeepsOneCall(w: World, s: Step)
    requires Inv(w) && Enabled(w, s) && (s.StartQuiesce? || s.Reopen?)
    ensures OneCall(Apply(w, s))
  {
    hide Counted, EpochsOk, Quiet, Encloses, Free;
    assert forall c :: c in w.calls ==> CallOk(w, w.calls[c]);
  }

  lemma CallMovesOn(w: World, s: Step, call: CallId)
    requires Inv(w) && Enabled(w, s) && ((s.Close? && s.call == call) || (s.Poll? && s.call == call))
    ensures OneCall(Apply(w, s))
  {
    hide Counted, EpochsOk, CallsOk, Free;
  }

  lemma QuietStep(w: World, s: Step)
    requires Enabled(w, s) && !s.StartQuiesce? && !s.Close? && !s.Poll? && !s.Reopen?
    ensures var w' := Apply(w, s);
            w'.calls == w.calls && w'.crossed == w.crossed && w'.gate.state == w.gate.state && w'.gate.epoch == w.gate.epoch
  {}

  // ---- Epochs ----

  lemma StepKeepsTaskEpochs(w: World, s: Step)
    requires TaskEpochsOk(w) && Enabled(w, s)
    ensures TaskEpochsOk(Apply(w, s))
  {}

  /** A step that makes a post of this epoch skipped finds the gate closed, and no call drained. */
  lemma SkipHappens(w: World, s: Step, id: TaskId)
    requires Inv(w) && Enabled(w, s)
    requires var w' := Apply(w, s);
             id in w'.tasks && w'.tasks[id] == Task(Posted, w'.gate.epoch, Skipped) && (id in w.tasks ==> w.tasks[id] != w'.tasks[id])
    ensures w.gate.state == Closed && Apply(w, s).gate == w.gate.(pending := w.gate.pending - 1)
    ensures Apply(w, s).calls == w.calls
    ensures forall c :: c in w.calls ==> !DrainedNow(w, w.calls[c])
  {
    assert s.Begin? && s.id == id;
    forall c | c in w.calls
      ensures !DrainedNow(w, w.calls[c])
    {
      assert CallOk(w, w.calls[c]);
      assert id in Unsettled(w);
    }
  }

  lemma StepKeepsEpochs(w: World, s: Step)
    requires Inv(w) && Enabled(w, s)
    ensures EpochsOk(Apply(w, s))
  {
    var w' := Apply(w, s);
    StepKeepsTaskEpochs(w, s);
    if SkippedNow(w') && !w'.crossed {
      var id :| id in w'.tasks && w'.tasks[id] == Task(Posted, w'.gate.epoch, Skipped);
      if id in w.tasks && w.tasks[id] == w'.tasks[id] {
        CallsDrained(w, s);
      } else {
        SkipHappens(w, s, id);
      }
    }
  }

  /** With posts skipped in this epoch, and no crossing, the gate is closed and stays so, and no call drains. */
  lemma CallsDrained(w: World, s: Step)
    requires Inv(w) && Enabled(w, s) && SkippedNow(w)
    requires !Apply(w, s).crossed && Apply(w, s).gate.epoch == w.gate.epoch
    ensures Apply(w, s).gate.state == Closed
    ensures forall c :: c in Apply(w, s).calls ==> !DrainedNow(Apply(w, s), Apply(w, s).calls[c])
  {
    assert w.gate.state == Closed;
    assert forall c :: c in w.calls ==> !DrainedNow(w, w.calls[c]);
    assert forall c :: c in w.calls && Active(w.calls[c]) ==> w.calls[c].epoch != w.gate.epoch;
  }

  lemma StepKeepsInv(w: World, s: Step)
    requires Inv(w) && Enabled(w, s)
    ensures Inv(Apply(w, s))
  {
    StepKeepsCounted(w, s);
    StepKeepsCalls(w, s);
    StepKeepsOneCall(w, s);
    StepKeepsEpochs(w, s);
  }

  // ---- Runs ----

  ghost predicate Run(w: World, steps: seq<Step>, w': World)
    decreases steps
  {
    if steps == [] then w == w' else Enabled(w, steps[0]) && Run(Apply(w, steps[0]), steps[1..], w')
  }

  lemma {:induction false} RunKeepsInv(w: World, steps: seq<Step>, w': World)
    requires Inv(w) && Run(w, steps, w')
    ensures Inv(w')
    decreases steps
  {
    if steps != [] {
      StepKeepsInv(w, steps[0]);
      RunKeepsInv(Apply(w, steps[0]), steps[1..], w');
    }
  }

  ghost predicate Reachable(w: World) {
    exists steps :: Run(START, steps, w)
  }

  lemma ReachableInv(w: World)
    requires Reachable(w)
    ensures Inv(w)
  {
    var steps :| Run(START, steps, w);
    assert Unsettled(START) == {} && Frames(START) == {};
    RunKeepsInv(START, steps, w);
  }

  // ---- The guarantees ----

  /**
   * Conservation: in every reachable state `pending` is the number of accepted posts not yet
   * run, skipped or destroyed, and `running` is the number of gated tasks between their first
   * and last block on any thread, so at least every thread's own depth.
   */
  lemma GateConservation(w: World, t: Tid)
    requires Reachable(w)
    ensures w.gate.pending == |Unsettled(w)|
    ensures w.gate.running == |Frames(w)|
    ensures 0 <= ThreadOf(w, t).depth <= |ThreadOf(w, t).stack| <= w.gate.running
  {
    ReachableInv(w);
    var own := set k | 0 <= k < |ThreadOf(w, t).stack| :: (t, k);
    OwnFrames(t, |ThreadOf(w, t).stack|);
    assert own <= Frames(w);
    SubsetSize(own, Frames(w));
    assert t in w.threads ==> ThreadOk(w.threads[t]);
  }

  /**
   * Teardown safety: from the moment a quiesce call sees the gate drained until the gate is
   * reopened, so also across the unlocked window before it closes the gate, no gated task is
   * anywhere between its first and its last block, except those that enclose the call.
   */
  lemma DrainedQuiesceIsQuiet(w: World, k: CallId)
    requires Reachable(w) && k in w.calls && DrainedNow(w, w.calls[k])
    ensures forall t :: t != w.calls[k].thread ==> ThreadOf(w, t).stack == []
    ensures ThreadOf(w, w.calls[k].thread).stack <= w.calls[k].enclosing
    ensures w.gate.pending == 0
  {
    ReachableInv(w);
    assert CallOk(w, w.calls[k]);
  }

  /** ... and none starts until then, whatever step any thread takes. */
  lemma NoneStartsUntilReopen(w: World, k: CallId, s: Step, t: Tid)
    requires Reachable(w) && k in w.calls && DrainedNow(w, w.calls[k]) && Enabled(w, s)
    ensures ThreadOf(Apply(w, s), t).stack <= ThreadOf(w, t).stack
    ensures DrainedNow(Apply(w, s), Apply(w, s).calls[k]) || s.Reopen?
  {
    ReachableInv(w);
    assert CallOk(w, w.calls[k]);
    if s.Begin? {
      QuietSkips(w, w.calls[k], s.id);
    }
  }

  /**
   * After a drained quiesce the gate itself has skipped no post of this epoch: each was run or
   * destroyed by its mailbox (unless a call of an earlier epoch closed the gate meanwhile).
   */
  lemma DrainedSkipsNothing(w: World, k: CallId, id: TaskId)
    requires Reachable(w) && k in w.calls && DrainedNow(w, w.calls[k]) && !w.crossed
    requires id in w.tasks && w.tasks[id].kind == Posted && w.tasks[id].epoch == w.gate.epoch
    ensures w.tasks[id].status.Started? || w.tasks[id].status == Dropped
  {
    ReachableInv(w);
    assert CallOk(w, w.calls[k]) && !SkippedNow(w);
    assert id !in Unsettled(w);
  }

  lemma StepKeepsTask(w: World, s: Step, id: TaskId)
    requires Enabled(w, s) && id in w.tasks
    ensures var w' := Apply(w, s);
            && id in w'.tasks && w'.tasks[id].kind == w.tasks[id].kind && w'.tasks[id].epoch == w.tasks[id].epoch
            && (w.tasks[id].kind != RepeatingTimer && w.tasks[id].status != Waiting ==> w'.tasks[id] == w.tasks[id])
            && w.gate.epoch <= w'.gate.epoch
  {
    hide AtCall;
  }

  /** A task keeps its kind and epoch, and once it is started, skipped or dropped it stays so. */
  lemma {:induction false} TasksAreKept(w: World, steps: seq<Step>, w': World, id: TaskId)
    requires Run(w, steps, w') && id in w.tasks
    ensures id in w'.tasks && w'.tasks[id].kind == w.tasks[id].kind && w'.tasks[id].epoch == w.tasks[id].epoch
    ensures w.tasks[id].kind != RepeatingTimer && w.tasks[id].status != Waiting ==> w'.tasks[id] == w.tasks[id]
    ensures w.gate.epoch <= w'.gate.epoch
    decreases steps
  {
    if steps != [] {
      StepKeepsTask(w, steps[0], id);
      hide Enabled, Apply;
      TasksAreKept(Apply(w, steps[0]), steps[1..], w', id);
    }
  }

  lemma StepKeepsDead(w: World, s: Step, id: TaskId)
    requires Enabled(w, s) && id in w.tasks && w.tasks[id].kind != RepeatingTimer && w.tasks[id].epoch < w.gate.epoch
    requires !w.tasks[id].status.Started?
    ensures var w' := Apply(w, s);
            && id in w'.tasks && w'.tasks[id].kind == w.tasks[id].kind && w'.tasks[id].epoch == w.tasks[id].epoch
            && !w'.tasks[id].status.Started? && w.gate.epoch <= w'.gate.epoch
  {
    hide AtCall;
  }

  /** After a reopen, posts and one-shot timers of an earlier epoch never start. */
  lemma OldEpochStaysDead(w: World, steps: seq<Step>, w': World, id: TaskId)
    requires Reachable(w) && Run(w, steps, w')
    requires id in w.tasks && w.tasks[id].kind != RepeatingTimer && w.tasks[id].epoch < w.gate.epoch
    requires !w.tasks[id].status.Started?
    ensures id in w'.tasks && !w'.tasks[id].status.Started?
  {
    DeadAlong(w, steps, w', id);
  }

  lemma {:induction false} DeadAlong(w: World, steps: seq<Step>, w': World, id: TaskId)
    requires Run(w, steps, w')
    requires id in w.tasks && w.tasks[id].kind != RepeatingTimer && w.tasks[id].epoch < w.gate.epoch
    requires !w.tasks[id].status.Started?
    ensures id in w'.tasks && !w'.tasks[id].status.Started?
    decreases steps
  {
    if steps != [] {
      StepKeepsDead(w, steps[0], id);
      hide Enabled, Apply;
      DeadAlong(Apply(w, steps[0]), steps[1..], w', id);
    }
  }
}
