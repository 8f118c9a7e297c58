/** ManualExecutor (src/ManualExecutor.cpp): its fields and loops, against the functions of ManualTime. */
module ManualExecutors {
  import opened ByteStrings
  import T = ManualTime
  import opened Deadlines
  import opened ManualTime

  class ManualExecutor {
    var tasks: seq<Task>
    var deadlines: seq<Deadline>
    var timers: map<TimerId, Task>
    var nextTimer: TimerId
    var now: int
    /** Whether a task runs on the driving thread. */
    var running: bool
    ghost var trace: seq<Event>
    ghost var ran: nat

    ghost function View(): State
      reads this
    {
      State(tasks, deadlines, timers, nextTimer, now, trace, ran)
    }

    constructor ()
      ensures View() == INITIAL && !running
    {
      tasks, deadlines, timers, nextTimer := [], [], map[], 1;
      now, running := 0, false;
      trace, ran := [], 0;
    }

    method Post(task: Task)
      modifies this`tasks
      ensures tasks == old(tasks) + [task]
      ensures View() == AfterPost(old(View()), task)
    {
      tasks := tasks + [task];
    }

    method PostAfter(delay: int, task: Task) returns (id: TimerId)
      modifies this`nextTimer, this`deadlines, this`timers
      ensures id == old(nextTimer)
      ensures (if delay < 0 then now else now + delay, id) in deadlines && timers == old(timers)[id := task]
      ensures View() == AfterPostAfter(old(View()), delay, task)
    {
      id := nextTimer;
      nextTimer := nextTimer + 1;
      deadlines := Insert(deadlines, (now + Clamped(delay), id));
      timers := timers[id := task];
    }

    method CancelTimer(id: TimerId)
      modifies this`timers, this`trace
      ensures View() == AfterCancel(old(View()), id)
    {
      if id in timers {
        timers := timers - {id};
        trace := trace + [Cancelled(id)];
      }
    }

    /** The body of a task, one call on the executor after the other. */
    method Call(p: Program)
      requires running
      modifies this
      ensures running && View() == Execute(p, old(View()))
      decreases p, 0
    {
      match p {
        case Done =>
        case Post(task, rest) =>
          Post(task);
          Call(rest);
        case PostAfter(delay, task, rest) =>
          var id := PostAfter(delay, task);
          Call(rest);
        case CancelTimer(id, rest) =>
          CancelTimer(id);
          Call(rest);
        case RunAndWait(task, rest) =>
          RunInline(task);
          Call(rest);
      }
    }

    /** RunAndWait from a task: at once, on the driving thread. */
    method RunInline(task: Task)
      requires running
      modifies this
      ensures running && View() == Execute(task.body, Recorded(old(View()), Ran(task.name, old(now))))
      decreases task, 0
    {
      match task {
        case Task(name, body) =>
          trace := trace + [Ran(name, now)];
          Call(body);
      }
    }

    /** The flag is given back as it was, so nested drives keep the outer driver's identity. */
    method RunOne(task: Task, ghost e: Event)
      modifies this
      ensures running == old(running)
      ensures View() == T.RunOne(old(View()), task, e)
    {
      var outer := running;
      running := true;
      trace := trace + [e];
      Call(task.body);
      ran := ran + 1;
      running := outer;
    }

    method PopTask() returns (task: Option<Task>)
      modifies this`tasks
      ensures task.None? <==> old(tasks) == []
      ensures tasks == if task.None? then old(tasks) else old(tasks)[1..]
      ensures task.Some? ==> task.value == old(tasks)[0]
    {
      if tasks == [] {
        return None;
      }
      task := Some(tasks[0]);
      tasks := tasks[1..];
    }

    method RunPending() returns (count: nat)
      requires Valid(View())
      modifies this
      ensures running == old(running)
      ensures View() == T.RunPending(old(View())) && ran == old(ran) + count
    {
      count := 0;
      ghost var start := View();
      while true
        invariant Valid(View()) && running == old(running)
        invariant T.RunPending(View()) == T.RunPending(start) && ran == start.ran + count
        decreases Work(View())
      {
        ghost var before := View();
        var task := PopTask();
        if task.None? {
          break;
        }
        RunFrontKeeps(before);
        RunOne(task.value, Ran(task.value.name, now));
        count := count + 1;
        assert View() == RunFront(before);
      }
    }

    method RunAndWait(task: Task)
      requires Valid(View())
      modifies this
      ensures running == old(running)
      ensures old(running) ==> View() == Execute(task.body, Recorded(old(View()), Ran(task.name, old(now))))
      ensures !old(running) ==> View() == T.RunPending(AfterPost(old(View()), task))
    {
      if running {
        RunInline(task);
      } else {
        Post(task);
        var _ := RunPending();
      }
    }

    /** The number of tasks and timers run. */
    method AdvanceBy(amount: int) returns (count: nat)
      requires Valid(View())
      modifies this
      ensures running == old(running)
      ensures now == old(now) + if amount < 0 then 0 else amount
      ensures View() == T.AdvanceBy(old(View()), amount) && ran == old(ran) + count
    {
      hide AdvanceTo, Fire, T.RunPending, Valid, Work, Purge;
      ghost var start := ran;
      count := RunPending();
      var end := now + Clamped(amount);
      ghost var idle := View();
      while true
        invariant Valid(View()) && tasks == [] && now <= end && running == old(running)
        invariant AdvanceTo(View(), end) == AdvanceTo(idle, end) && ran == start + count
        decreases Work(View())
      {
        AdvanceRound(View(), end);
        PurgeCancelled();
        if deadlines == [] || deadlines[0].0 > end {
          now := end;
          break;
        }
        FireFirst();
        var more := RunPending();
        count := count + 1 + more;
      }
      NothingPending(View());
      var last := RunPending();
      count := count + last;
    }

    method FireFirst()
      requires deadlines != [] && deadlines[0].1 in timers
      modifies this
      ensures running == old(running) && View() == Fire(old(View()))
      ensures Valid(old(View())) ==> ran == old(ran) + 1
    {
      var due := deadlines[0];
      deadlines := deadlines[1..];
      now := if now < due.0 then due.0 else now;
      var timer := timers[due.1];
      timers := timers - {due.1};
      RunOne(timer, Fired(timer.name, now, due));
      if Valid(old(View())) {
        FireKeeps(old(View()));
      }
    }

    method PurgeCancelled()
      requires Valid(View())
      modifies this`deadlines
      ensures View() == Purge(old(View()))
    {
      ghost var start := View();
      while deadlines != [] && deadlines[0].1 !in timers
        invariant Valid(View()) && Purge(View()) == Purge(start)
        decreases |deadlines|
      {
        deadlines := deadlines[1..];
      }
    }
  }
}
