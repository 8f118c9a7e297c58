/**
 * Lifetime (include/common/Lifetime.h): the two atomics, and the list each thread keeps of
 * the bound calls it is inside.
 */
module Lifetimes {

  class State {
    var generation: nat
    /** Bound calls running now, on any thread. */
    var inside: nat

    constructor ()
      ensures generation == 0 && inside == 0
    {
      generation, inside := 0, 0;
    }
  }

  /** A bound call's body runs only in the generation it was bound in. */
  predicate Runs(generation: nat, snapshot: nat) {
    generation == snapshot
  }

  /** A wait is over when no more calls run than the waiting thread's own. */
  predicate MayReturn(inside: int, mine: nat) {
    inside <= mine
  }

  /** How often `x` stands in `s`. */
  function Occurrences<T(==)>(s: seq<T>, x: T): nat {
    if s == [] then 0 else Occurrences(s[..|s| - 1], x) + if s[|s| - 1] == x then 1 else 0
  }

  /** `s` without its last `x`. */
  function WithoutLast<T(==)>(s: seq<T>, x: T): seq<T> {
    if s == [] then []
    else if s[|s| - 1] == x then s[..|s| - 1]
    else WithoutLast(s[..|s| - 1], x) + [s[|s| - 1]]
  }

  /** It is the multiplicity of `x`. */
  lemma {:induction false} OccurrencesCount<T>(s: seq<T>, x: T)
    ensures Occurrences(s, x) == multiset(s)[x]
  {
    if s != [] {
      OccurrencesCount(s[..|s| - 1], x);
      assert s == s[..|s| - 1] + [s[|s| - 1]];
    }
  }

  /** Leaving a call uncounts that one, and no call on another object. */
  lemma {:induction false} WithoutLastCounts<T>(s: seq<T>, x: T, y: T)
    ensures Occurrences(WithoutLast(s, x), y) ==
            if x == y && Occurrences(s, x) > 0 then Occurrences(s, x) - 1 else Occurrences(s, y)
  {
    if s != [] {
      var front, last := s[..|s| - 1], s[|s| - 1];
      WithoutLastCounts(front, x, y);
      if last != x {
        var r := WithoutLast(front, x) + [last];
        assert r[..|r| - 1] == WithoutLast(front, x);
        if x == y {
          assert Occurrences(s, x) == Occurrences(front, x);
        }
      }
    }
  }

  /** The bound calls a thread is inside, innermost last. */
  class EnteredCalls {
    var entered: seq<State>

    constructor ()
      ensures entered == []
    {
      entered := [];
    }

    method EraseLast(state: State)
      modifies this
      ensures entered == WithoutLast(old(entered), state)
    {
      var i := |entered|;
      assert entered[..i] == entered && entered[i..] == [];
      while i > 0
        invariant 0 <= i <= |entered| && entered == old(entered)
        invariant WithoutLast(entered, state) == WithoutLast(entered[..i], state) + entered[i..]
      {
        if entered[i - 1] == state {
          assert entered[..i][..i - 1] == entered[..i - 1];
          entered := entered[..i - 1] + entered[i..];
          return;
        }
        assert entered[..i][..i - 1] == entered[..i - 1];
        assert entered[i - 1..] == [entered[i - 1]] + entered[i..];
        i := i - 1;
      }
    }

    method InsideOnThisThread(state: State) returns (count: nat)
      ensures count == Occurrences(entered, state)
    {
      count := 0;
      for i := 0 to |entered|
        invariant count == Occurrences(entered[..i], state)
      {
        assert entered[..i + 1][..i] == entered[..i];
        count := count + if entered[i] == state then 1 else 0;
      }
      assert entered[..|entered|] == entered;
    }

    /** The first steps of a bound call: counted, then entered; then whether its body runs. */
    method EnterCall(state: State, snapshot: nat) returns (run: bool)
      modifies this, state`inside
      ensures state.inside == old(state.inside) + 1
      ensures entered == old(entered) + [state]
      ensures forall x :: Occurrences(entered, x) == Occurrences(old(entered), x) + if x == state then 1 else 0
      ensures run <==> state.generation == snapshot
      ensures run <==> Runs(state.generation, snapshot)
    {
      state.inside := state.inside + 1;
      assert (entered + [state])[..|entered|] == entered;
      entered := entered + [state];
      run := state.generation == snapshot;
    }

    /** ~Inside: this call goes, and no call on another object. */
    method LeaveCall(state: State)
      requires state.inside > 0
      modifies this, state`inside
      ensures state.inside == old(state.inside) - 1
      ensures entered == WithoutLast(old(entered), state)
      ensures forall x :: Occurrences(entered, x) ==
                          if x == state && Occurrences(old(entered), x) > 0 then Occurrences(old(entered), x) - 1
                          else Occurrences(old(entered), x)
    {
      ghost var was := entered;
      EraseLast(state);
      state.inside := state.inside - 1;
      forall x
        ensures Occurrences(entered, x) ==
                if x == state && Occurrences(was, x) > 0 then Occurrences(was, x) - 1 else Occurrences(was, x)
      {
        WithoutLastCounts(was, state, x);
      }
    }

    /** How InvalidateAndWait begins: the bump, and the thread's own calls. */
    method StartWait(state: State) returns (mine: nat)
      modifies state`generation
      ensures state.generation == old(state.generation) + 1
      ensures mine == Occurrences(entered, state)
    {
      state.generation := state.generation + 1;
      mine := InsideOnThisThread(state);
    }
  }

  /** One look of its loop: the count, and whether the wait is over. */
  method Load(state: State, mine: nat) returns (now: nat, over: bool)
    ensures now == state.inside && (over <==> state.inside <= mine)
    ensures over == MayReturn(state.inside, mine)
  {
    now := state.inside;
    over := !(now > mine);
  }
}
