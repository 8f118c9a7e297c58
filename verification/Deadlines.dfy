/** The ordered set of (time, timer id) pairs both executors keep their timers in. */
module Deadlines {

  type TimerId = nat

  /** When a timer is due and which one it is: the entries of `deadlines_`. */
  type Deadline = (int, TimerId)

  /** A negative stretch of time counts as none. */
  function Clamped(amount: int): nat {
    if amount < 0 then 0 else amount
  }

  /** The order of pairs: by time, then by id. */
  predicate Before(a: Deadline, b: Deadline) {
    a.0 < b.0 || (a.0 == b.0 && a.1 < b.1)
  }

  /** In order, and no id twice. */
  ghost predicate Sorted(ds: seq<Deadline>) {
    ds != [] ==> (forall d :: d in ds[1..] ==> Before(ds[0], d) && ds[0].1 != d.1) && Sorted(ds[1..])
  }

  function Ids(ds: seq<Deadline>): set<TimerId> {
    if ds == [] then {} else {ds[0].1} + Ids(ds[1..])
  }

  /** Adding to the ordered set. */
  function Insert(ds: seq<Deadline>, e: Deadline): (r: seq<Deadline>)
    ensures |r| == |ds| + 1
    ensures forall d :: d in r <==> d == e || d in ds
  {
    if ds == [] || Before(e, ds[0]) then [e] + ds else [ds[0]] + Insert(ds[1..], e)
  }

  lemma FirstComesFirst(ds: seq<Deadline>)
    requires ds != [] && Sorted(ds)
    ensures forall d :: d in ds ==> d == ds[0] || d in ds[1..]
    ensures forall d :: d in ds[1..] ==> d in ds && Before(ds[0], d) && ds[0].1 != d.1
  {}

  lemma {:induction false} Inserted(ds: seq<Deadline>, e: Deadline)
    requires Sorted(ds) && forall d :: d in ds ==> d.1 != e.1
    ensures Sorted(Insert(ds, e))
    ensures Ids(Insert(ds, e)) == Ids(ds) + {e.1}
  {
    if ds == [] || Before(e, ds[0]) {
      assert ([e] + ds)[1..] == ds;
    } else {
      assert ds[0] in ds;
      Inserted(ds[1..], e);
      assert ([ds[0]] + Insert(ds[1..], e))[1..] == Insert(ds[1..], e);
    }
  }
}
