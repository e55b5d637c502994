/** Sizes and unions of finite sets. */
module Sets {
  lemma {:induction false} SubsetSize<T>(a: set<T>, b: set<T>)
    requires a <= b
    ensures |a| <= |b|
  {
    if a != {} {
      var x :| x in a;
      SubsetSize(a - {x}, b - {x});
    }
  }

  lemma ProperSubsetSize<T>(a: set<T>, b: set<T>, x: T)
    requires a <= b && x in b && x !in a
    ensures |a| < |b|
  {
    SubsetSize(a + {x}, b);
  }

  lemma EqualSize<T>(a: set<T>, b: set<T>)
    requires a <= b && |a| == |b|
    ensures a == b
  {
    assert |b - a| == |b| - |a|;
  }

  /** `x` was there at the start or among the first `n` additions. */
  ghost predicate Seen<T>(start: set<T>, added: seq<set<T>>, n: nat, x: T)
    requires n <= |added|
  {
    x in start || exists i :: 0 <= i < n && x in added[i]
  }

  /** Sets that grow by one addition at a time hold exactly what was ever added. */
  lemma {:induction false} UnionChain<T>(sets: seq<set<T>>, added: seq<set<T>>, n: nat, x: T)
    requires |sets| == |added| + 1 && n < |sets|
    requires forall i :: 0 <= i < |added| ==> sets[i + 1] == sets[i] + added[i]
    ensures x in sets[n] <==> Seen(sets[0], added, n, x)
  {
    if n > 0 {
      UnionChain(sets, added, n - 1, x);
      assert sets[n - 1 + 1] == sets[n - 1] + added[n - 1];
    }
  }
}
