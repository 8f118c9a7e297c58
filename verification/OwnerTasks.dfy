/**
 * OwnerTasks (src/runtime/OwnerTasks.cpp): its fields, what each of its operations does to them, and
 * what it asks of the executor. `OwnerTasksProtocol` interleaves the same transitions.
 */
module OwnerTaskLists {

  type TimerId = nat

  /** The generation bodies are bound in, the timers not yet fired, and whether the handle still points here. */
  datatype Tasks = Tasks(generation: nat, timers: set<TimerId>, open: bool)

  const NEW := Tasks(0, {}, true)

  /** After: the id the executor gave is recorded, if it gave one. */
  function Recorded(t: Tasks, id: TimerId): Tasks {
    if id == 0 then t else t.(timers := t.timers + {id})
  }

  /** A delivered body goes on only when its timer is still there, and takes it out. */
  function Claimed(t: Tasks, slot: TimerId): Tasks {
    t.(timers := t.timers - {slot})
  }

  function Cancelled(t: Tasks, id: TimerId): Tasks {
    if id == 0 then t else t.(timers := t.timers - {id})
  }

  function Invalidated(t: Tasks): Tasks {
    t.(generation := t.generation + 1)
  }

  function TimersDropped(t: Tasks): Tasks {
    t.(timers := {})
  }

  function HandleCut(t: Tasks): Tasks {
    t.(open := false)
  }

  /** What an OwnerExecutor is asked, with the generation the body is bound in. */
  datatype Request =
    | PostRequest(generation: nat)
    | PostFrontRequest(generation: nat)
    | AfterRequest(delay: int, generation: nat)
    | CancelRequest(id: TimerId)

  class OwnerExecutor {
    var requests: seq<Request>
    /** Whether it can schedule, and the id it gives next. */
    var schedules: bool
    var next: TimerId

    constructor (schedules: bool)
      ensures requests == [] && this.schedules == schedules && next == 1
    {
      requests, next := [], 1;
      this.schedules := schedules;
    }

    method Ask(r: Request)
      modifies this`requests
      ensures requests == old(requests) + [r]
    {
      requests := requests + [r];
    }

    /** 0 when the body could not be scheduled. */
    method After(delay: int, generation: nat) returns (id: TimerId)
      modifies this`requests, this`next
      ensures requests == old(requests) + [AfterRequest(delay, generation)]
      ensures id == if schedules then old(next) else 0
      ensures next == if schedules then old(next) + 1 else old(next)
    {
      Ask(AfterRequest(delay, generation));
      if !schedules {
        return 0;
      }
      id := next;
      next := next + 1;
    }
  }

  /** One cancel for each of these timers, in some order, and nothing else. */
  predicate CancelsEach(requests: seq<Request>, ids: set<TimerId>) {
    && |requests| == |ids|
    && (forall i :: 0 <= i < |requests| ==> requests[i].CancelRequest? && requests[i].id in ids)
    && forall id :: id in ids ==> CancelRequest(id) in requests
  }

  class OwnerTasks {
    const executor: OwnerExecutor
    var generation: nat
    var timers: set<TimerId>
    var open: bool

    constructor (executor: OwnerExecutor)
      ensures this.executor == executor && View() == NEW
    {
      this.executor := executor;
      generation, timers, open := 0, {}, true;
    }

    function View(): Tasks
      reads this
    {
      Tasks(generation, timers, open)
    }

    method Post()
      modifies executor`requests
      ensures executor.requests == old(executor.requests) + [PostRequest(generation)]
    {
      executor.Ask(PostRequest(generation));
    }

    method PostFront()
      modifies executor`requests
      ensures executor.requests == old(executor.requests) + [PostFrontRequest(generation)]
    {
      executor.Ask(PostFrontRequest(generation));
    }

    method After(delay: int) returns (id: TimerId)
      modifies this`timers, executor`requests, executor`next
      ensures executor.requests == old(executor.requests) + [AfterRequest(delay, generation)]
      ensures timers == old(timers) + if id == 0 then {} else {id}
      ensures View() == Recorded(old(View()), id)
      ensures id != 0 <==> executor.schedules && old(executor.next) != 0
    {
      id := executor.After(delay, generation);
      if id != 0 {
        timers := timers + {id};
      }
    }

    /** The first block of a delivered timer. */
    method Fired(slot: TimerId) returns (runs: bool)
      modifies this`timers
      ensures runs == (slot in old(timers)) && timers == old(timers) - {slot}
      ensures View() == Claimed(old(View()), slot)
    {
      if slot !in timers {
        return false;
      }
      timers := timers - {slot};
      runs := true;
    }

    /** The caller's id becomes 0. */
    method Cancel(id: TimerId) returns (reset: TimerId)
      modifies this`timers, executor`requests
      ensures reset == 0 && timers == old(timers) - (if id == 0 then {} else {id})
      ensures View() == Cancelled(old(View()), id)
      ensures executor.requests == old(executor.requests) + if id == 0 then [] else [CancelRequest(id)]
    {
      if id == 0 {
        return 0;
      }
      executor.Ask(CancelRequest(id));
      timers := timers - {id};
      reset := 0;
    }

    method DropPending()
      modifies this`generation, this`timers, executor`requests
      ensures generation == old(generation) + 1 && timers == {} && open == old(open)
      ensures View() == TimersDropped(Invalidated(old(View())))
      ensures old(executor.requests) <= executor.requests
      ensures CancelsEach(executor.requests[|old(executor.requests)|..], old(timers))
    {
      ghost var before := executor.requests;
      generation := generation + 1;
      var dropped := timers;
      timers := {};
      var rest := dropped;
      while rest != {}
        invariant rest <= dropped && View() == TimersDropped(Invalidated(old(View())))
        invariant before <= executor.requests && executor.requests[..|before|] == before
        invariant CancelsEach(executor.requests[|before|..], dropped - rest)
        decreases |rest|
      {
        var id :| id in rest;
        ghost var asked := executor.requests[|before|..];
        executor.Ask(CancelRequest(id));
        assert executor.requests[|before|..] == asked + [CancelRequest(id)];
        assert dropped - (rest - {id}) == (dropped - rest) + {id};
        rest := rest - {id};
      }
      assert dropped - {} == dropped;
    }

    /** Cut off first, so that no handle call comes in between. */
    method Close()
      modifies this, executor`requests
      ensures generation == old(generation) + 1 && timers == {} && !open
      ensures View() == TimersDropped(Invalidated(HandleCut(old(View()))))
      ensures old(executor.requests) <= executor.requests
      ensures CancelsEach(executor.requests[|old(executor.requests)|..], old(timers))
    {
      open := false;
      DropPending();
    }

    // What a Handle does, under its own mutex.

    method PostByHandle()
      modifies executor`requests
      ensures executor.requests == old(executor.requests) + if open then [PostRequest(generation)] else []
    {
      if open {
        Post();
      }
    }

    /** 0 once closed. */
    method AfterByHandle(delay: int) returns (id: TimerId)
      modifies this`timers, executor`requests, executor`next
      ensures open ==> View() == Recorded(old(View()), id)
      ensures open ==> executor.requests == old(executor.requests) + [AfterRequest(delay, generation)]
      ensures !open ==> id == 0 && View() == old(View()) && executor.requests == old(executor.requests)
    {
      if !open {
        return 0;
      }
      id := After(delay);
    }

    method CancelByHandle(id: TimerId)
      modifies this`timers, executor`requests
      ensures View() == if open then Cancelled(old(View()), id) else old(View())
      ensures executor.requests == old(executor.requests) + if open && id != 0 then [CancelRequest(id)] else []
    {
      if open {
        var _ := Cancel(id);
      }
    }
  }
}
