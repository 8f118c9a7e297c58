/**
 * The mailbox and the timer list of CoordinatorThread (src/runtime/CoordinatorThread.cpp): what each
 * block under its mutex does to them.
 */
module Coordinators {
  import opened ByteStrings

  type TimerId = nat
  type PostId = nat

  /** A fired one-shot is marked `cancelled` too. */
  datatype Timer = Timer(id: TimerId, nextFire: int, interval: int, repeat: bool, cancelled: bool)

  datatype Priority = Critical | Normal | Background

  datatype Mailbox = Mailbox(critical: seq<PostId>, normal: seq<PostId>, background: seq<PostId>)

  const EMPTY := Mailbox([], [], [])

  function Enqueued(m: Mailbox, priority: Priority, post: PostId): Mailbox {
    match priority
    case Critical => m.(critical := m.critical + [post])
    case Normal => m.(normal := m.normal + [post])
    case Background => m.(background := m.background + [post])
  }

  /** The more urgent lane first, each lane in its order. */
  function InOrder(m: Mailbox): seq<PostId> {
    m.critical + m.normal + m.background
  }

  predicate DueBy(t: Timer, now: int) {
    !t.cancelled && t.nextFire <= now
  }

  /** What collecting leaves of a timer: a repeating one is armed again, a one-shot is spent. */
  function Spent(t: Timer, now: int): Timer {
    if !DueBy(t, now) then t else if t.repeat then t.(nextFire := now + t.interval) else t.(cancelled := true)
  }

  function AllSpent(ts: seq<Timer>, now: int): (r: seq<Timer>)
    ensures |r| == |ts|
    ensures forall i :: 0 <= i < |ts| ==> r[i] == Spent(ts[i], now)
  {
    if ts == [] then [] else [Spent(ts[0], now)] + AllSpent(ts[1..], now)
  }

  function DueIds(ts: seq<Timer>, now: int): seq<TimerId> {
    if ts == [] then []
    else DueIds(ts[..|ts| - 1], now) + if DueBy(ts[|ts| - 1], now) then [ts[|ts| - 1].id] else []
  }

  function LiveOnly(ts: seq<Timer>): seq<Timer> {
    if ts == [] then []
    else LiveOnly(ts[..|ts| - 1]) + if ts[|ts| - 1].cancelled then [] else [ts[|ts| - 1]]
  }

  /** The timer with this id, if the list has one, is marked. */
  function WithCancelled(ts: seq<Timer>, id: TimerId): (r: seq<Timer>)
    ensures |r| == |ts|
  {
    if ts == [] then []
    else if ts[0].id == id then [ts[0].(cancelled := true)] + ts[1..]
    else [ts[0]] + WithCancelled(ts[1..], id)
  }

  function AllCancelled(ts: seq<Timer>): (r: seq<Timer>)
    ensures |r| == |ts|
    ensures forall i :: 0 <= i < |ts| ==> r[i] == ts[i].(cancelled := true)
  {
    if ts == [] then [] else [ts[0].(cancelled := true)] + AllCancelled(ts[1..])
  }

  /** The earliest time a live timer is due at; None stands for time_point::max. */
  function NextDeadline(ts: seq<Timer>): (d: Option<int>)
    ensures d.None? <==> forall i :: 0 <= i < |ts| ==> ts[i].cancelled
    ensures d.Some? ==> forall i :: 0 <= i < |ts| && !ts[i].cancelled ==> d.value <= ts[i].nextFire
    ensures d.Some? ==> exists i :: 0 <= i < |ts| && !ts[i].cancelled && d.value == ts[i].nextFire
  {
    if ts == [] then None
    else
      var last, before := ts[|ts| - 1], NextDeadline(ts[..|ts| - 1]);
      if last.cancelled || (before.Some? && before.value <= last.nextFire) then before else Some(last.nextFire)
  }

  lemma {:induction false} CancelKeepsIds(ts: seq<Timer>, id: TimerId)
    ensures forall i :: 0 <= i < |ts| ==> WithCancelled(ts, id)[i].id == ts[i].id
  {
    if ts != [] {
      CancelKeepsIds(ts[1..], id);
    }
  }

  lemma {:induction false} MarkedAt(ts: seq<Timer>, id: TimerId, i: nat)
    requires i < |ts| && ts[i].id == id && forall j :: 0 <= j < i ==> ts[j].id != id
    ensures WithCancelled(ts, id) == ts[i := ts[i].(cancelled := true)]
  {
    if i > 0 {
      MarkedAt(ts[1..], id, i - 1);
    }
  }

  lemma {:induction false} NotMarked(ts: seq<Timer>, id: TimerId)
    requires forall j :: 0 <= j < |ts| ==> ts[j].id != id
    ensures WithCancelled(ts, id) == ts
  {
    if ts != [] {
      NotMarked(ts[1..], id);
    }
  }

  lemma {:induction false} LiveKeepIds(ts: seq<Timer>, next: TimerId)
    requires forall i :: 0 <= i < |ts| ==> 0 < ts[i].id < next
    ensures forall i :: 0 <= i < |LiveOnly(ts)| ==> 0 < LiveOnly(ts)[i].id < next
  {
    if ts != [] {
      LiveKeepIds(ts[..|ts| - 1], next);
    }
  }

  class CoordinatorThread {
    var critical: seq<PostId>
    var normal: seq<PostId>
    var background: seq<PostId>
    var timers: seq<Timer>
    var nextTimerId: TimerId
    var stopped: bool

    /** Ids are given out from 1. */
    ghost predicate Valid()
      reads this
    {
      0 < nextTimerId && forall i :: 0 <= i < |timers| ==> 0 < timers[i].id < nextTimerId
    }

    constructor ()
      ensures Valid() && Queues() == EMPTY && timers == [] && nextTimerId == 1 && !stopped
    {
      critical, normal, background, timers := [], [], [], [];
      nextTimerId, stopped := 1, false;
    }

    function Queues(): Mailbox
      reads this
    {
      Mailbox(critical, normal, background)
    }

    predicate HasWorkLocked()
      reads this
      ensures HasWorkLocked() <==> InOrder(Queues()) != []
    {
      critical != [] || normal != [] || background != []
    }

    method EnqueueLocked(priority: Priority, post: PostId)
      modifies this`critical, this`normal, this`background
      ensures critical == old(critical) + (if priority == Critical then [post] else [])
      ensures normal == old(normal) + (if priority == Normal then [post] else [])
      ensures background == old(background) + (if priority == Background then [post] else [])
      ensures Queues() == Enqueued(old(Queues()), priority, post)
    {
      match priority
      case Critical => critical := critical + [post];
      case Normal => normal := normal + [post];
      case Background => background := background + [post];
    }

    method DequeueOneLocked() returns (post: Option<PostId>)
      modifies this`critical, this`normal, this`background
      ensures post.None? <==> !old(HasWorkLocked())
      ensures post.None? ==> Queues() == old(Queues())
      ensures post.Some? ==>
                [post.value] + (critical + normal + background) == old(critical) + old(normal) + old(background)
    {
      if critical != [] {
        post := Some(critical[0]);
        critical := critical[1..];
      } else if normal != [] {
        post := Some(normal[0]);
        normal := normal[1..];
      } else if background != [] {
        post := Some(background[0]);
        background := background[1..];
      } else {
        post := None;
      }
    }

    method ScheduleRepeating(interval: int, now: int) returns (id: TimerId)
      requires Valid()
      modifies this`timers, this`nextTimerId
      ensures Valid() && (id == 0 <==> interval <= 0 || stopped)
      ensures interval <= 0 || stopped ==> id == 0 && unchanged(this)
      ensures interval > 0 && !stopped ==>
                && id == old(nextTimerId) && nextTimerId == id + 1
                && timers == old(timers) + [Timer(id, now + interval, interval, true, false)]
    {
      if interval <= 0 || stopped {
        return 0;
      }
      id := nextTimerId;
      nextTimerId := nextTimerId + 1;
      timers := timers + [Timer(id, now + interval, interval, true, false)];
    }

    method ScheduleOneShot(delay: int, now: int) returns (id: TimerId)
      requires Valid()
      modifies this`timers, this`nextTimerId
      ensures Valid() && (id == 0 <==> delay < 0 || stopped)
      ensures delay < 0 || stopped ==> id == 0 && unchanged(this)
      ensures delay >= 0 && !stopped ==>
                && id == old(nextTimerId) && nextTimerId == id + 1
                && timers == old(timers) + [Timer(id, now + delay, delay, false, false)]
    {
      if delay < 0 || stopped {
        return 0;
      }
      id := nextTimerId;
      nextTimerId := nextTimerId + 1;
      timers := timers + [Timer(id, now + delay, delay, false, false)];
    }

    /** 0 is no timer. */
    method CancelTimer(id: TimerId)
      modifies this`timers
      ensures timers == if id == 0 then old(timers) else WithCancelled(old(timers), id)
      ensures old(Valid()) ==> Valid()
    {
      if id == 0 {
        return;
      }
      CancelKeepsIds(timers, id);
      Mark(id);
    }

    /** The loop. */
    method Mark(id: TimerId)
      modifies this`timers
      ensures timers == WithCancelled(old(timers), id)
    {
      for i := 0 to |timers|
        invariant timers == old(timers) && forall j :: 0 <= j < i ==> timers[j].id != id
      {
        if timers[i].id == id {
          MarkedAt(timers, id, i);
          timers := timers[i := timers[i].(cancelled := true)];
          return;
        }
      }
      NotMarked(timers, id);
    }

    method NextTimerDeadlineLocked() returns (next: Option<int>)
      ensures next == NextDeadline(timers)
    {
      next := None;
      for i := 0 to |timers|
        invariant next == NextDeadline(timers[..i])
      {
        assert timers[..i + 1][..i] == timers[..i];
        if timers[i].cancelled {
          continue;
        }
        if next.None? || timers[i].nextFire < next.value {
          next := Some(timers[i].nextFire);
        }
      }
      assert timers[..|timers|] == timers;
    }

    /** The first loop of FireDueTimersLocked, before any callback runs. */
    method CollectDue(now: int) returns (due: seq<TimerId>)
      modifies this`timers
      ensures due == DueIds(old(timers), now) && timers == AllSpent(old(timers), now)
      ensures |timers| == |old(timers)|
      ensures forall i :: 0 <= i < |timers| ==>
                var was := old(timers)[i];
                timers[i] == if was.cancelled || was.nextFire > now then was
                             else if was.repeat then was.(nextFire := now + was.interval)
                             else was.(cancelled := true)
      ensures old(Valid()) ==> Valid()
    {
      ghost var was := timers;
      due := [];
      var i := 0;
      while i < |timers|
        invariant 0 <= i <= |timers| == |was|
        invariant due == DueIds(was[..i], now)
        invariant forall j :: 0 <= j < i ==> timers[j] == Spent(was[j], now)
        invariant forall j :: i <= j < |was| ==> timers[j] == was[j]
      {
        assert was[..i + 1][..i] == was[..i];
        var timer := timers[i];
        if timer.cancelled || timer.nextFire > now {
          i := i + 1;
          continue;
        }
        if timer.repeat {
          timers := timers[i := timer.(nextFire := now + timer.interval)];
        } else {
          timers := timers[i := timer.(cancelled := true)];
        }
        due := due + [timer.id];
        i := i + 1;
      }
      assert was[..|was|] == was;
    }

    /** The erase at its end, after the callbacks. */
    method EraseCancelled()
      modifies this`timers
      ensures timers == LiveOnly(old(timers))
      ensures old(Valid()) ==> Valid()
    {
      if Valid() {
        LiveKeepIds(timers, nextTimerId);
      }
      ghost var was := timers;
      var kept := [];
      for i := 0 to |timers|
        invariant timers == was && kept == LiveOnly(was[..i])
      {
        assert was[..i + 1][..i] == was[..i];
        if !timers[i].cancelled {
          kept := kept + [timers[i]];
        }
      }
      assert was[..|was|] == was;
      timers := kept;
    }

    /** The locked block of Shutdown. */
    method StopLocked()
      modifies this
      ensures stopped && Queues() == EMPTY && timers == AllCancelled(old(timers)) && nextTimerId == old(nextTimerId)
      ensures old(Valid()) ==> Valid()
    {
      stopped := true;
      critical, normal, background := [], [], [];
      ghost var was := timers;
      for i := 0 to |timers|
        invariant |timers| == |was| && stopped && Queues() == EMPTY && nextTimerId == old(nextTimerId)
        invariant forall j :: 0 <= j < i ==> timers[j] == was[j].(cancelled := true)
        invariant forall j :: i <= j < |was| ==> timers[j] == was[j]
      {
        timers := timers[i := timers[i].(cancelled := true)];
      }
    }
  }
}
