/** Facts about finite sets that comparing sizes and subtracting rely on. */
module Sets {

  lemma SubsetOfSameSize<T>(a: set<T>, b: set<T>)
    requires a <= b
    ensures |a| <= |b|
    ensures |a| == |b| ==> a == b
  {
    assert b == a + (b - a);
  }

  lemma EmptyDifference<T>(a: set<T>, b: set<T>)
    requires a - b == {}
    ensures a <= b
  {
    assert a == (a - b) + a * b;
  }

  lemma LessIsLeft<T>(u: set<T>, a: set<T>, b: set<T>)
    requires a <= b <= u && a != b
    ensures |u - b| < |u - a|
  {
    assert u - a == (u - b) + (b - a);
    assert b == a + (b - a);
  }
}
