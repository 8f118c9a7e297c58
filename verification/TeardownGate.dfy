/**
 * The teardown gate of src/runtime/AppRuntime.cpp: the counters under its lock, and the
 * critical sections that change them.
 *
 * `TeardownGate` is the object the source keeps; each of its methods is one block under the
 * lock. `GateProtocol` interleaves these blocks over any number of threads.
 */
module TeardownGates {

  datatype TeardownState = Open | Draining | Closed
  datatype GateKind = Posted | OneShotTimer | RepeatingTimer

  datatype Gate = Gate(state: TeardownState, epoch: nat, pending: int, running: int)

  const INITIAL_GATE := Gate(Open, 0, 0, 0)

  /** A post made at this nesting depth of gated tasks is accepted. */
  predicate AcceptsPost(g: Gate, depth: int) {
    g.state != Closed && !(g.state == Draining && depth == 0)
  }

  /** A gated task that was wrapped in `epoch` runs now. */
  predicate RunsTask(g: Gate, kind: GateKind, epoch: nat) {
    match kind
    case Posted => g.state != Closed && g.epoch == epoch
    case OneShotTimer => g.state == Open && g.epoch == epoch
    case RepeatingTimer => g.state == Open
  }

  function AfterBegin(g: Gate, kind: GateKind, epoch: nat): Gate {
    g.(pending := if kind == Posted then g.pending - 1 else g.pending,
       running := if RunsTask(g, kind, epoch) then g.running + 1 else g.running)
  }

  predicate IsDrained(g: Gate, ownDepth: int) {
    g.pending == 0 && g.running <= ownDepth
  }

  function AfterReopen(g: Gate): Gate {
    if g.state == Open then g else g.(epoch := g.epoch + 1, state := Open)
  }

  /** An accepted post. It is counted until it is settled, once. */
  class PendingPost {
    var settled: bool

    constructor ()
      ensures !settled
    {
      settled := false;
    }
  }

  class TeardownGate {
    var state: TeardownState
    var epoch: nat
    var pending: int
    var running: int

    constructor ()
      ensures View() == INITIAL_GATE
    {
      state, epoch, pending, running := Open, 0, 0, 0;
    }

    function View(): Gate
      reads this
    {
      Gate(state, epoch, pending, running)
    }

    /** PendingPost::Settle, under the lock: a second call does nothing. */
    method Settle(post: PendingPost)
      modifies this`pending, post
      ensures post.settled
      ensures View() == old(View()).(pending := old(pending) - if old(post.settled) then 0 else 1)
    {
      if post.settled {
        return;
      }
      post.settled := true;
      pending := pending - 1;
    }

    /** ~PendingPost: a mailbox destroyed the task. */
    method DropPost(post: PendingPost)
      modifies this`pending, post
      ensures post.settled
      ensures View() == old(View()).(pending := old(pending) - if old(post.settled) then 0 else 1)
    {
      if !post.settled {
        Settle(post);
      }
    }

    /** The first block of GateTask; no post means the task is dropped. */
    method Wrap(kind: GateKind, depth: nat) returns (accepted: bool, post: PendingPost?, wrappedIn: nat)
      modifies this`pending
      ensures accepted <==> (kind == Posted ==> old(state) == Open || (old(state) == Draining && depth > 0))
      ensures accepted && kind == Posted <==> post != null
      ensures post != null ==> fresh(post) && !post.settled
      ensures View() == old(View()).(pending := old(pending) + if post != null then 1 else 0)
      ensures wrappedIn == epoch
    {
      post := null;
      wrappedIn := epoch;
      if kind == Posted {
        if state == Closed || (state == Draining && depth == 0) {
          return false, null, epoch;
        }
        pending := pending + 1;
        post := new PendingPost();
      }
      accepted := true;
    }

    /** The block at the start of a wrapped task; a post settled before is not counted again. */
    method Begin(kind: GateKind, wrappedIn: nat, post: PendingPost?) returns (run: bool)
      requires kind == Posted <==> post != null
      modifies this, post
      ensures kind == Posted ==> (run <==> old(state) != Closed && old(epoch) == wrappedIn)
      ensures kind == OneShotTimer ==> (run <==> old(state) == Open && old(epoch) == wrappedIn)
      ensures kind == RepeatingTimer ==> (run <==> old(state) == Open)
      ensures running == old(running) + if run then 1 else 0
      ensures state == old(state) && epoch == old(epoch)
      ensures post == null || !old(post.settled) ==> View() == AfterBegin(old(View()), kind, wrappedIn)
      ensures post != null && old(post.settled) ==>
                View() == AfterBegin(old(View()), kind, wrappedIn).(pending := old(pending))
      ensures post != null ==> post.settled
    {
      run := false;
      match kind {
        case Posted =>
          Settle(post);
          run := state != Closed && epoch == wrappedIn;
        case OneShotTimer =>
          run := state == Open && epoch == wrappedIn;
        case RepeatingTimer =>
          run := state == Open;
      }
      if run {
        running := running + 1;
      }
    }

    /** The block at its end. */
    method Leave()
      modifies this`running
      ensures View() == old(View()).(running := old(running) - 1)
    {
      running := running - 1;
    }

    /** The first block of QuiesceForTeardown: this call left Open, or what it returns at once. */
    method StartQuiesce(depth: nat) returns (left: bool, quiet: bool)
      modifies this`state
      ensures left <==> old(state) == Open
      ensures View() == old(View()).(state := if left then Draining else old(state))
      ensures !left ==> quiet == (running <= depth)
    {
      if state != Open {
        return false, running <= depth;
      }
      state := Draining;
      left, quiet := true, false;
    }

    method Poll(ownDepth: nat) returns (drained: bool)
      ensures drained <==> pending == 0 && running <= ownDepth
      ensures drained == IsDrained(View(), ownDepth)
    {
      drained := pending == 0 && running <= ownDepth;
    }

    method Close()
      modifies this`state
      ensures View() == old(View()).(state := Closed)
    {
      state := Closed;
    }

    method Reopen()
      modifies this
      ensures state == Open && epoch == old(epoch) + (if old(state) == Open then 0 else 1)
      ensures View() == AfterReopen(old(View()))
    {
      if state == Open {
        return;
      }
      epoch := epoch + 1;
      state := Open;
    }
  }
}
