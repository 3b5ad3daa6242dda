/** The iteration order of `std::map`: the keys of a finite map, listed in increasing order of a
    strict total order. Every loop of the framework over a `std::map` or over a JSON object sees
    its entries in this order. */
module OrderedMaps {

  /** What `std::map` demands of its comparison so that distinct keys get distinct slots. */
  ghost predicate StrictTotalOrder<K(!new)>(less: (K, K) -> bool) {
    Asymmetric(less) && Transitive(less) && Connected(less)
  }

  ghost predicate Asymmetric<K(!new)>(less: (K, K) -> bool) {
    forall a, b :: less(a, b) ==> !less(b, a)
  }

  ghost predicate Transitive<K(!new)>(less: (K, K) -> bool) {
    forall a, b, c :: Chain(less, a, b, c) ==> less(a, c)
  }

  ghost predicate Chain<K>(less: (K, K) -> bool, a: K, b: K, c: K) {
    less(a, b) && less(b, c)
  }

  ghost predicate Connected<K(!new)>(less: (K, K) -> bool) {
    forall a, b :: a == b || less(a, b) || less(b, a)
  }

  ghost predicate Increasing<K>(less: (K, K) -> bool, ks: seq<K>) {
    forall i, j :: 0 <= i < j < |ks| ==> less(ks[i], ks[j])
  }

  predicate IsLeast<K(==)>(less: (K, K) -> bool, k: K, s: set<K>) {
    k in s && forall j :: j in s && j != k ==> less(k, j)
  }

  lemma {:induction false} LeastExists<K(!new)>(less: (K, K) -> bool, s: set<K>)
    requires StrictTotalOrder(less)
    requires s != {}
    ensures exists k :: IsLeast(less, k, s)
    decreases |s|
  {
    var x :| x in s;
    var rest := s - {x};
    if rest == {} {
      assert forall j :: j in s && j != x ==> j in rest;
      assert IsLeast(less, x, s);
    } else {
      LeastExists(less, rest);
      var m :| IsLeast(less, m, rest);
      var least := if less(x, m) then x else m;
      forall j | j in s && j != least ensures less(least, j) {
        if j in rest && j != m && least == x { assert Chain(less, x, m, j); }
      }
      assert IsLeast(less, least, s);
    }
  }

  /** The elements of a set in increasing order. */
  function InOrder<K(!new, ==)>(less: (K, K) -> bool, s: set<K>): (r: seq<K>)
    requires StrictTotalOrder(less)
    ensures Increasing(less, r)
    ensures forall k :: k in r <==> k in s
    ensures |r| == |s|
    decreases |s|
  {
    if s == {} then []
    else
      LeastExists(less, s);
      var k :| k in s && IsLeast(less, k, s);
      var rest := InOrder(less, s - {k});
      LeastGoesFirst(less, k, s, rest);
      [k] + rest
  }

  lemma LeastGoesFirst<K>(less: (K, K) -> bool, k: K, s: set<K>, rest: seq<K>)
    requires IsLeast(less, k, s)
    requires Increasing(less, rest)
    requires forall j :: j in rest <==> j in s - {k}
    ensures Increasing(less, [k] + rest)
    ensures forall j :: j in [k] + rest <==> j in s
  {
    var all := [k] + rest;
    forall i, j | 0 <= i < j < |all| ensures less(all[i], all[j]) {
      assert all[j] == rest[j - 1] && rest[j - 1] in rest;
      if i > 0 { assert all[i] == rest[i - 1]; }
    }
    assert all[0] == k;
    assert forall i :: 0 <= i < |rest| ==> all[i + 1] == rest[i];
  }

  /** A container that iterates in increasing order has no other choice of order. */
  lemma {:induction false} InOrderIsUnique<K(!new)>(less: (K, K) -> bool, s: set<K>, ks: seq<K>)
    requires StrictTotalOrder(less)
    requires Increasing(less, ks)
    requires forall k :: k in ks <==> k in s
    ensures ks == InOrder(less, s)
  {
    IncreasingSameElements(less, ks, InOrder(less, s));
  }

  lemma FirstIsLess<K>(less: (K, K) -> bool, xs: seq<K>, x: K)
    requires Increasing(less, xs)
    requires x in xs && x != xs[0]
    ensures less(xs[0], x)
  {
  }

  lemma HasAnElement<K>(xs: seq<K>)
    requires xs != []
    ensures exists k :: k in xs
  {
    assert xs[0] in xs;
  }

  lemma {:induction false} IncreasingSameElements<K(!new)>(less: (K, K) -> bool, xs: seq<K>, ys: seq<K>)
    requires StrictTotalOrder(less)
    requires Increasing(less, xs) && Increasing(less, ys)
    requires forall k :: k in xs <==> k in ys
    ensures xs == ys
  {
    if xs == [] {
      if ys != [] { HasAnElement(ys); }
    } else {
      assert xs[0] in ys;
      assert ys[0] in xs;
      assert xs[0] == ys[0] by {
        if xs[0] != ys[0] {
          FirstIsLess(less, xs, ys[0]);
          FirstIsLess(less, ys, xs[0]);
        }
      }
      forall k ensures k in xs[1..] <==> k in ys[1..] {
        assert k in xs[1..] ==> k in xs && k != xs[0];
        assert k in ys[1..] ==> k in ys && k != ys[0];
      }
      IncreasingSameElements(less, xs[1..], ys[1..]);
    }
  }

  /** `std::string::operator<`: lexicographic on characters, a proper prefix first. */
  predicate StringLess(a: string, b: string) {
    b != [] && (a == [] || a[0] < b[0] || (a[0] == b[0] && StringLess(a[1..], b[1..])))
  }

  lemma {:induction false} StringLessIrreflexive(a: string)
    ensures !StringLess(a, a)
  {
    if a != [] { StringLessIrreflexive(a[1..]); }
  }

  lemma {:induction false} StringLessTransitive(a: string, b: string, c: string)
    requires StringLess(a, b) && StringLess(b, c)
    ensures StringLess(a, c)
  {
    if a != [] && a[0] == b[0] == c[0] { StringLessTransitive(a[1..], b[1..], c[1..]); }
  }

  lemma {:induction false} StringLessConnected(a: string, b: string)
    ensures a == b || StringLess(a, b) || StringLess(b, a)
  {
    if a != [] && b != [] && a[0] == b[0] {
      StringLessConnected(a[1..], b[1..]);
      if a[1..] == b[1..] {
        assert a == [a[0]] + a[1..] == [b[0]] + b[1..] == b;
      }
    }
  }

  lemma StringLessIsTotalOrder()
    ensures StrictTotalOrder(StringLess)
  {
    forall a, b | StringLess(a, b) ensures !StringLess(b, a) {
      if StringLess(b, a) {
        StringLessTransitive(a, b, a);
        StringLessIrreflexive(a);
      }
    }
    forall a, b, c | Chain(StringLess, a, b, c) ensures StringLess(a, c) { StringLessTransitive(a, b, c); }
    forall a, b ensures a == b || StringLess(a, b) || StringLess(b, a) { StringLessConnected(a, b); }
  }

  /** The string keys of a map in iteration order. */
  function SortedKeys<V>(m: map<string, V>): (r: seq<string>)
    ensures Increasing(StringLess, r)
    ensures forall k :: k in r <==> k in m
    ensures |r| == |m|
  {
    StringLessIsTotalOrder();
    InOrder(StringLess, m.Keys)
  }
}
