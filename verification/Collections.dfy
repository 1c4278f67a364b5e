/** Sequences without repeats and the sets of their elements. */
module Collections {

  ghost function ToSet<T>(xs: seq<T>): set<T> {
    set x | x in xs
  }

  ghost predicate Distinct<T>(xs: seq<T>) {
    forall i, j | 0 <= i < j < |xs| :: xs[i] != xs[j]
  }

  lemma {:induction false} SetSize<T>(xs: seq<T>)
    ensures |ToSet(xs)| <= |xs|
    ensures Distinct(xs) ==> |ToSet(xs)| == |xs|
  {
    if xs != [] {
      var n := |xs| - 1;
      SetSize(xs[..n]);
      assert ToSet(xs) == ToSet(xs[..n]) + {xs[n]};
      if Distinct(xs) {
        assert xs[n] !in ToSet(xs[..n]);
      }
    }
  }

  lemma SubsetSize<T>(a: set<T>, b: set<T>)
    requires a <= b
    ensures |a| <= |b|
    ensures |a| == |b| ==> a == b
  {
    assert b == a + (b - a);
    assert |b| == |a| + |b - a|;
  }
}
