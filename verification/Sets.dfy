/** Sizes of finite sets. */
module FiniteSets {

  lemma SubsetSize<T>(a: set<T>, b: set<T>)
    requires a <= b
    ensures |a| <= |b|
  {
    assert |b - a| == |b| - |a|;
  }

  lemma SubsetOfSameSize<T>(a: set<T>, b: set<T>)
    requires a <= b && |b| <= |a|
    ensures a == b
  {
    assert |b - a| == |b| - |a|;
    assert b == a + (b - a);
  }

  /** One thread's frames, numbered from the outermost. */
  lemma {:induction false} OwnFrames(t: nat, n: nat)
    ensures |set k | 0 <= k < n :: (t, k)| == n
  {
    var s := set k | 0 <= k < n :: (t, k);
    if n > 0 {
      var s' := set k | 0 <= k < n - 1 :: (t, k);
      OwnFrames(t, n - 1);
      assert s == s' + {(t, n - 1)};
    } else {
      assert s == {};
    }
  }
}
