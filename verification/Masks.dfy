/** Sets of history positions as the unsigned words the checker stores them in.
    Go's `&`, `|` and `<<` are given by their binary digits. */
module Masks {
  /** The longest history the checker accepts. */
  const MAX_ENTRIES: nat := 24

  function Pow2(i: nat): (p: nat)
    ensures p > 0
  {
    if i == 0 then 1 else 2 * Pow2(i - 1)
  }

  /** `uint64(1) << i` */
  function Bit(i: nat): nat {
    Pow2(i)
  }

  /** `uint64(1) << k - 1`: in Go the shift binds tighter than the subtraction. */
  function Ones(k: nat): nat {
    Pow2(k) - 1
  }

  /** Digit `i` of a word. */
  predicate Has(m: nat, i: nat) {
    if i == 0 then m % 2 == 1 else Has(m / 2, i - 1)
  }

  /** `a & b` */
  function And(a: nat, b: nat): nat {
    if a == 0 || b == 0 then 0 else 2 * And(a / 2, b / 2) + (a % 2) * (b % 2)
  }

  /** `a | b` */
  function Or(a: nat, b: nat): nat
    decreases a + b
  {
    if a == 0 then b
    else if b == 0 then a
    else 2 * Or(a / 2, b / 2) + (if a % 2 == 1 || b % 2 == 1 then 1 else 0)
  }

  /** The positions below `n`. */
  function Below(n: nat): (s: set<nat>)
    ensures |s| == n
    ensures forall i: nat :: i in s <==> i < n
  {
    if n == 0 then {} else Below(n - 1) + {n - 1}
  }

  lemma {:induction false} HasBound(m: nat, i: nat)
    requires Has(m, i)
    ensures i < m
  {
    if i > 0 {
      HasBound(m / 2, i - 1);
    }
  }

  /** The set of positions a word stands for. */
  ghost function Members(m: nat): set<nat> {
    set i: nat | i < m && Has(m, i)
  }

  lemma InMembers(m: nat)
    ensures forall i: nat :: i in Members(m) <==> Has(m, i)
  {
    forall i: nat | Has(m, i)
      ensures i < m
    {
      HasBound(m, i);
    }
  }

  lemma {:induction false} ZeroHas(i: nat)
    ensures !Has(0, i)
  {
    if i > 0 {
      ZeroHas(i - 1);
    }
  }

  lemma {:induction false} AndHas(a: nat, b: nat, i: nat)
    ensures Has(And(a, b), i) <==> Has(a, i) && Has(b, i)
  {
    if a == 0 || b == 0 {
      ZeroHas(i);
    } else if i > 0 {
      AndHas(a / 2, b / 2, i - 1);
      assert And(a, b) / 2 == And(a / 2, b / 2);
    }
  }

  lemma {:induction false} OrHas(a: nat, b: nat, i: nat)
    ensures Has(Or(a, b), i) <==> Has(a, i) || Has(b, i)
    decreases i
  {
    if a == 0 || b == 0 {
      ZeroHas(i);
    } else {
      HasDigit(Or(a / 2, b / 2), if a % 2 == 1 || b % 2 == 1 then 1 else 0, i);
      if i > 0 {
        OrHas(a / 2, b / 2, i - 1);
      }
    }
  }

  lemma HasDigit(rest: nat, digit: nat, i: nat)
    requires digit < 2
    ensures Has(2 * rest + digit, i) <==> if i == 0 then digit == 1 else Has(rest, i - 1)
  {
    assert (2 * rest + digit) / 2 == rest;
  }

  lemma {:induction false} BitHas(i: nat, j: nat)
    ensures Has(Bit(i), j) <==> i == j
  {
    if i == 0 {
      if j > 0 {
        ZeroHas(j - 1);
      }
    } else if j > 0 {
      BitHas(i - 1, j - 1);
      assert Bit(i) / 2 == Bit(i - 1);
    }
  }

  lemma {:induction false} OnesHas(k: nat, i: nat)
    ensures Has(Ones(k), i) <==> i < k
  {
    if k == 0 {
      ZeroHas(i);
    } else if i > 0 {
      OnesHas(k - 1, i - 1);
      assert Ones(k) / 2 == Ones(k - 1);
    }
  }

  lemma EmptyMask()
    ensures Members(0) == {}
  {
    InMembers(0);
    forall i: nat ensures !Has(0, i) { ZeroHas(i); }
  }

  /** `m | 1<<i` inserts one position. */
  lemma Insert(m: nat, i: nat)
    ensures Members(Or(m, Bit(i))) == Members(m) + {i}
  {
    InMembers(m);
    InMembers(Or(m, Bit(i)));
    forall j: nat
      ensures Has(Or(m, Bit(i)), j) <==> Has(m, j) || j == i
    {
      OrHas(m, Bit(i), j);
      BitHas(i, j);
    }
  }

  /** `m & 1<<i != 0` tests one position. */
  lemma Probe(m: nat, i: nat)
    ensures And(m, Bit(i)) != 0 <==> i in Members(m)
  {
    InMembers(m);
    InMembers(And(m, Bit(i)));
    forall j: nat
      ensures Has(And(m, Bit(i)), j) <==> Has(m, j) && i == j
    {
      AndHas(m, Bit(i), j);
      BitHas(i, j);
    }
    if And(m, Bit(i)) == 0 {
      ZeroHas(i);
    } else if i !in Members(m) {
      EmptyMask();
      assert Members(And(m, Bit(i))) == Members(0);
      Extensional(And(m, Bit(i)), 0);
    }
  }

  /** A word is determined by the positions it stands for. */
  lemma {:induction false} Extensional(a: nat, b: nat)
    requires Members(a) == Members(b)
    ensures a == b
    decreases a + b
  {
    InMembers(a);
    InMembers(b);
    assert forall i: nat :: i in Members(a) <==> i in Members(b);
    assert Has(a, 0) <==> Has(b, 0);
    if a > 0 || b > 0 {
      InMembers(a / 2);
      InMembers(b / 2);
      forall i: nat
        ensures i in Members(a / 2) <==> i in Members(b / 2)
      {
        assert Has(a, i + 1) <==> Has(b, i + 1);
      }
      if a + b > a / 2 + b / 2 {
        Extensional(a / 2, b / 2);
      }
    }
  }

  /** `a & b == a` decides inclusion. */
  lemma Inclusion(a: nat, b: nat)
    ensures And(a, b) == a <==> Members(a) <= Members(b)
  {
    InMembers(a);
    InMembers(b);
    InMembers(And(a, b));
    forall i: nat
      ensures i in Members(And(a, b)) <==> i in Members(a) && i in Members(b)
    {
      AndHas(a, b, i);
    }
    if Members(a) <= Members(b) {
      assert Members(And(a, b)) == Members(a);
      Extensional(And(a, b), a);
    }
  }

  /** `1<<k - 1` is the set of all positions below `k`. */
  lemma Full(k: nat)
    ensures Members(Ones(k)) == Below(k)
  {
    InMembers(Ones(k));
    forall i: nat
      ensures i in Members(Ones(k)) <==> i < k
    {
      OnesHas(k, i);
    }
  }

  lemma {:induction false} Pow2Monotone(i: nat, j: nat)
    requires i <= j
    ensures Pow2(i) <= Pow2(j)
  {
    if i < j {
      Pow2Monotone(i, j - 1);
    }
  }

  /** Words over positions below `k` are below `1<<k`: no mask of at most 24
      positions leaves the range of `uint64`. */
  lemma {:induction false} Range(m: nat, k: nat)
    requires Members(m) <= Below(k)
    ensures m < Pow2(k)
  {
    if k == 0 {
      EmptyMask();
      assert Members(m) == Members(0);
      Extensional(m, 0);
    } else {
      InMembers(m);
      InMembers(m / 2);
      forall i: nat | i in Members(m / 2)
        ensures i in Below(k - 1)
      {
        assert i + 1 in Members(m);
      }
      Range(m / 2, k - 1);
    }
  }
}
