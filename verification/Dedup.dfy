/** Order-preserving deduplication by key, and tail caps. */
module Dedup {
  ghost predicate HasKey<T, K>(items: seq<T>, key: T -> K, k: K) {
    exists i :: 0 <= i < |items| && key(items[i]) == k
  }

  ghost function Keys<T, K>(items: seq<T>, key: T -> K): set<K> {
    set i | 0 <= i < |items| :: key(items[i])
  }

  /** No two items have the same key. */
  ghost predicate DistinctKeys<T, K>(items: seq<T>, key: T -> K) {
    forall i, j :: 0 <= i < j < |items| ==> key(items[i]) != key(items[j])
  }

  /** Keep the first item of every key. */
  ghost function Unique<T, K>(items: seq<T>, key: T -> K): seq<T>
    decreases |items|
  {
    if items == [] then []
    else
      var n := |items| - 1;
      var kept := Unique(items[..n], key);
      if HasKey(kept, key, key(items[n])) then kept else kept + [items[n]]
  }

  function KeepTail<T>(items: seq<T>, limit: nat): (r: seq<T>) {
    if |items| <= limit then items else items[|items| - limit..]
  }

  /** At most `limit` items, and they are the end of the list. */
  lemma TailIsEnd<T>(items: seq<T>, limit: nat)
    ensures var kept := KeepTail(items, limit);
            && |kept| == (if |items| <= limit then |items| else limit)
            && items[|items| - |kept|..] == kept
  {
  }

  /** The incoming items that `current` does not know by key yet. */
  ghost function Missing<T, K>(current: seq<T>, incoming: seq<T>, key: T -> K): seq<T>
    decreases |incoming|
  {
    if incoming == [] then []
    else
      var n := |incoming| - 1;
      var before := Missing(current, incoming[..n], key);
      if HasKey(current + before, key, key(incoming[n])) then before else before + [incoming[n]]
  }

  /** `appendUnique` */
  method AppendUnique<T, K(==)>(current: seq<T>, incoming: seq<T>, key: T -> K) returns (result: seq<T>)
    ensures result == Unique(current + incoming, key)
  {
    var combined := current + incoming;
    result := [];
    var seen: set<K> := {};
    var i := 0;
    while i < |combined|
      invariant 0 <= i <= |combined|
      invariant result == Unique(combined[..i], key)
      invariant forall k :: k in seen <==> HasKey(result, key, k)
    {
      var item := combined[i];
      var itemKey := key(item);
      UniqueSnoc(combined[..i], item, key);
      assert combined[..i + 1] == combined[..i] + [item];
      assert itemKey in seen <==> HasKey(result, key, itemKey);
      if itemKey !in seen {
        HasKeySnoc(result, item, key);
        seen := seen + {itemKey};
        result := result + [item];
      }
      i := i + 1;
    }
    assert combined[..|combined|] == combined;
  }

  lemma UniqueSnoc<T, K>(items: seq<T>, item: T, key: T -> K)
    ensures Unique(items + [item], key) ==
            if HasKey(Unique(items, key), key, key(item)) then Unique(items, key) else Unique(items, key) + [item]
  {
    var longer := items + [item];
    assert longer[..|longer| - 1] == items;
  }

  lemma MissingSnoc<T, K>(current: seq<T>, incoming: seq<T>, item: T, key: T -> K)
    ensures Missing(current, incoming + [item], key) ==
            var before := Missing(current, incoming, key);
            if HasKey(current + before, key, key(item)) then before else before + [item]
  {
    var longer := incoming + [item];
    assert longer[..|longer| - 1] == incoming;
  }

  lemma HasKeySnoc<T, K>(items: seq<T>, item: T, key: T -> K)
    ensures forall k :: HasKey(items + [item], key, k) <==> HasKey(items, key, k) || key(item) == k
  {
    forall k
      ensures HasKey(items + [item], key, k) <==> HasKey(items, key, k) || key(item) == k
    {
      HasKeyConcat(items, [item], key, k);
      assert HasKey([item], key, k) <==> key([item][0]) == k;
    }
  }

  lemma HasKeyConcat<T, K>(a: seq<T>, b: seq<T>, key: T -> K, k: K)
    ensures HasKey(a + b, key, k) <==> HasKey(a, key, k) || HasKey(b, key, k)
  {
    if HasKey(a, key, k) {
      var i :| 0 <= i < |a| && key(a[i]) == k;
      assert (a + b)[i] == a[i];
    }
    if HasKey(b, key, k) {
      var i :| 0 <= i < |b| && key(b[i]) == k;
      assert (a + b)[|a| + i] == b[i];
    }
  }

  lemma HasKeyIffInKeys<T, K>(items: seq<T>, key: T -> K, k: K)
    ensures HasKey(items, key, k) <==> k in Keys(items, key)
  {
  }

  // ---- what `Unique` means -------------------------------------------------

  /** Nothing before position `i` has the key of item `i`. */
  ghost predicate First<T, K>(items: seq<T>, key: T -> K, i: int)
    requires 0 <= i < |items|
  {
    forall j :: 0 <= j < i ==> key(items[j]) != key(items[i])
  }

  /** `positions` picks out, in order, exactly the first item of every key. */
  ghost predicate PicksFirsts<T, K>(items: seq<T>, key: T -> K, positions: seq<int>, picked: seq<T>) {
    && |positions| == |picked|
    && (forall p :: 0 <= p < |positions| ==> 0 <= positions[p] < |items| && picked[p] == items[positions[p]] && First(items, key, positions[p]))
    && (forall p, q :: 0 <= p < q < |positions| ==> positions[p] < positions[q])
    && (forall i :: 0 <= i < |items| && First(items, key, i) ==> i in positions)
  }

  lemma {:induction false} UniqueKeys<T, K>(items: seq<T>, key: T -> K)
    ensures DistinctKeys(Unique(items, key), key)
    ensures forall k :: HasKey(Unique(items, key), key, k) <==> HasKey(items, key, k)
    decreases |items|
  {
    if items != [] {
      var n := |items| - 1;
      UniqueKeys(items[..n], key);
      HasKeySnoc(items[..n], items[n], key);
      HasKeySnoc(Unique(items[..n], key), items[n], key);
      assert items == items[..n] + [items[n]];
    }
  }

  lemma FirstInPrefix<T, K>(items: seq<T>, key: T -> K, n: int, i: int)
    requires 0 <= i < n <= |items|
    ensures First(items, key, i) <==> First(items[..n], key, i)
  {
    assert forall j :: 0 <= j <= i ==> items[..n][j] == items[j];
  }

  lemma FirstIffNew<T, K>(items: seq<T>, key: T -> K, n: int)
    requires 0 <= n < |items|
    ensures First(items, key, n) <==> !HasKey(items[..n], key, key(items[n]))
  {
    assert forall j :: 0 <= j < n ==> items[..n][j] == items[j];
  }

  lemma PicksStep<T, K>(items: seq<T>, key: T -> K, positions: seq<int>, picked: seq<T>)
    requires items != [] && PicksFirsts(items[..|items| - 1], key, positions, picked)
    ensures var n := |items| - 1;
            if First(items, key, n) then PicksFirsts(items, key, positions + [n], picked + [items[n]])
            else PicksFirsts(items, key, positions, picked)
  {
    var n := |items| - 1;
    forall i | 0 <= i < n
      ensures First(items, key, i) <==> First(items[..n], key, i)
    {
      FirstInPrefix(items, key, n, i);
    }
  }

  /** The result is the subsequence of first occurrences, in the original order. */
  lemma {:induction false} UniquePicksFirsts<T, K>(items: seq<T>, key: T -> K) returns (positions: seq<int>)
    ensures PicksFirsts(items, key, positions, Unique(items, key))
    decreases |items|
  {
    positions := [];
    if items != [] {
      var n := |items| - 1;
      positions := UniquePicksFirsts(items[..n], key);
      UniqueKeys(items[..n], key);
      FirstIffNew(items, key, n);
      assert HasKey(Unique(items[..n], key), key, key(items[n])) <==> HasKey(items[..n], key, key(items[n]));
      PicksStep(items, key, positions, Unique(items[..n], key));
      if First(items, key, n) {
        positions := positions + [n];
      }
    }
  }

  lemma {:induction false} UniqueOfDistinct<T, K>(items: seq<T>, key: T -> K)
    requires DistinctKeys(items, key)
    ensures Unique(items, key) == items
    decreases |items|
  {
    if items != [] {
      var n := |items| - 1;
      UniqueOfDistinct(items[..n], key);
      FirstIffNew(items, key, n);
      assert items == items[..n] + [items[n]];
    }
  }

  lemma UniqueLeftStep<T, K>(a: seq<T>, b: seq<T>, item: T, key: T -> K)
    requires Unique(Unique(a, key) + b, key) == Unique(a + b, key)
    ensures Unique(Unique(a, key) + (b + [item]), key) == Unique(a + (b + [item]), key)
  {
    assert a + (b + [item]) == (a + b) + [item];
    assert Unique(a, key) + (b + [item]) == (Unique(a, key) + b) + [item];
    UniqueSnoc(a + b, item, key);
    UniqueSnoc(Unique(a, key) + b, item, key);
  }

  /** Deduplicating a prefix first changes nothing. */
  lemma {:induction false} UniqueLeft<T, K>(a: seq<T>, b: seq<T>, key: T -> K)
    ensures Unique(Unique(a, key) + b, key) == Unique(a + b, key)
    decreases |b|
  {
    if b == [] {
      UniqueKeys(a, key);
      UniqueOfDistinct(Unique(a, key), key);
      assert a + b == a && Unique(a, key) + b == Unique(a, key);
    } else {
      var n := |b| - 1;
      UniqueLeft(a, b[..n], key);
      UniqueLeftStep(a, b[..n], b[n], key);
      assert b == b[..n] + [b[n]];
    }
  }

  /** Appending to a list without duplicates adds the missing items behind it. */
  lemma {:induction false} UniqueAppends<T, K>(current: seq<T>, incoming: seq<T>, key: T -> K)
    requires DistinctKeys(current, key)
    ensures Unique(current + incoming, key) == current + Missing(current, incoming, key)
    decreases |incoming|
  {
    if incoming == [] {
      UniqueOfDistinct(current, key);
      assert current + incoming == current;
    } else {
      var n := |incoming| - 1;
      UniqueAppends(current, incoming[..n], key);
      UniqueSnoc(current + incoming[..n], incoming[n], key);
      assert current + incoming == (current + incoming[..n]) + [incoming[n]];
    }
  }

  lemma {:induction false} MissingKeys<T, K>(current: seq<T>, incoming: seq<T>, key: T -> K)
    ensures forall k :: HasKey(Missing(current, incoming, key), key, k) <==> HasKey(incoming, key, k) && !HasKey(current, key, k)
    decreases |incoming|
  {
    if incoming != [] {
      var n := |incoming| - 1;
      var before := Missing(current, incoming[..n], key);
      MissingKeys(current, incoming[..n], key);
      HasKeySnoc(incoming[..n], incoming[n], key);
      HasKeySnoc(before, incoming[n], key);
      assert incoming == incoming[..n] + [incoming[n]];
      HasKeyConcat(current, before, key, key(incoming[n]));
    }
  }

  lemma {:induction false} MissingKnown<T, K>(current: seq<T>, known: seq<T>, key: T -> K)
    requires forall i :: 0 <= i < |known| ==> HasKey(current, key, key(known[i]))
    ensures Missing(current, known, key) == []
    decreases |known|
  {
    if known != [] {
      var n := |known| - 1;
      MissingKnown(current, known[..n], key);
      assert current + [] == current;
    }
  }

  lemma MissingNovelStep<T, K>(current: seq<T>, known: seq<T>, novel: seq<T>, item: T, key: T -> K)
    requires Missing(current, known + novel, key) == novel
    requires !HasKey(current, key, key(item)) && !HasKey(novel, key, key(item))
    ensures Missing(current, known + (novel + [item]), key) == novel + [item]
  {
    assert known + (novel + [item]) == (known + novel) + [item];
    MissingSnoc(current, known + novel, item, key);
    HasKeyConcat(current, novel, key, key(item));
  }

  /** Nothing known is missing, and what is new and distinct is missing as it is. */
  lemma {:induction false} MissingSplit<T, K>(current: seq<T>, known: seq<T>, novel: seq<T>, key: T -> K)
    requires forall i :: 0 <= i < |known| ==> HasKey(current, key, key(known[i]))
    requires forall i :: 0 <= i < |novel| ==> !HasKey(current, key, key(novel[i]))
    requires DistinctKeys(novel, key)
    ensures Missing(current, known + novel, key) == novel
    decreases |novel|
  {
    if novel == [] {
      MissingKnown(current, known, key);
      assert known + novel == known;
    } else {
      var n := |novel| - 1;
      MissingSplit(current, known, novel[..n], key);
      MissingNovelStep(current, known, novel[..n], novel[n], key);
      assert novel == novel[..n] + [novel[n]];
    }
  }

  lemma {:induction false} KeysSize<T, K>(items: seq<T>, key: T -> K)
    requires DistinctKeys(items, key)
    ensures |Keys(items, key)| == |items|
    decreases |items|
  {
    if items != [] {
      var n := |items| - 1;
      KeysSize(items[..n], key);
      assert Keys(items, key) == Keys(items[..n], key) + {key(items[n])};
    }
  }
}
