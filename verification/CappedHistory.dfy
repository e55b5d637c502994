/** Replaying one incoming history into a capped, deduplicated list. */
module CappedHistory {
  import opened Dedup
  import opened Sets

  /** The appended histories: old items first, keep the last `limit`. */
  ghost function Append<T, K>(current: seq<T>, incoming: seq<T>, key: T -> K, limit: nat): seq<T> {
    KeepTail(if incoming != [] then Unique(current + incoming, key) else current, limit)
  }

  /** The prepended offers: new items first, keep the last `limit`. */
  ghost function Prepend<T, K>(current: seq<T>, incoming: seq<T>, key: T -> K, limit: nat): seq<T> {
    KeepTail(if incoming != [] then Unique(incoming + current, key) else current, limit)
  }

  /** The list after each delivery of the same history. */
  ghost predicate IsReplay<T, K>(states: seq<seq<T>>, incoming: seq<T>, key: T -> K, limit: nat) {
    && |states| > 0
    && forall i :: 0 <= i < |states| - 1 ==> states[i + 1] == Append(states[i], incoming, key, limit)
  }

  ghost predicate Normal<T, K>(items: seq<T>, key: T -> K, limit: nat) {
    DistinctKeys(items, key) && |items| <= limit
  }

  /** Every incoming key is in the list. */
  ghost predicate Knows<T, K>(items: seq<T>, incoming: seq<T>, key: T -> K) {
    forall i :: 0 <= i < |incoming| ==> HasKey(items, key, key(incoming[i]))
  }

  ghost predicate Fixed<T, K>(items: seq<T>, incoming: seq<T>, key: T -> K, limit: nat) {
    Append(items, incoming, key, limit) == items
  }

  lemma TailDistinct<T, K>(items: seq<T>, key: T -> K, limit: nat)
    requires DistinctKeys(items, key)
    ensures Normal(KeepTail(items, limit), key, limit)
  {
  }

  lemma AppendIsNormal<T, K>(current: seq<T>, incoming: seq<T>, key: T -> K, limit: nat)
    requires incoming != [] || DistinctKeys(current, key)
    ensures Normal(Append(current, incoming, key, limit), key, limit)
  {
    UniqueKeys(current + incoming, key);
    TailDistinct(if incoming != [] then Unique(current + incoming, key) else current, key, limit);
  }

  lemma AppendForm<T, K>(current: seq<T>, incoming: seq<T>, key: T -> K, limit: nat)
    requires DistinctKeys(current, key)
    ensures Append(current, incoming, key, limit) == KeepTail(current + Missing(current, incoming, key), limit)
    ensures DistinctKeys(current + Missing(current, incoming, key), key)
  {
    UniqueAppends(current, incoming, key);
    UniqueKeys(current + incoming, key);
    if incoming == [] {
      assert current + Missing(current, incoming, key) == current;
    }
  }

  lemma AppendedKnows<T, K>(current: seq<T>, incoming: seq<T>, key: T -> K)
    ensures Knows(current + Missing(current, incoming, key), incoming, key)
  {
    var missing := Missing(current, incoming, key);
    MissingKeys(current, incoming, key);
    forall i | 0 <= i < |incoming|
      ensures HasKey(current + missing, key, key(incoming[i]))
    {
      var k := key(incoming[i]);
      assert HasKey(incoming, key, k);
      assert HasKey(missing, key, k) || HasKey(current, key, k);
      HasKeyConcat(current, missing, key, k);
    }
  }

  // ---- when a replay changes nothing --------------------------------------------

  lemma KnownIsFixed<T, K>(items: seq<T>, incoming: seq<T>, key: T -> K, limit: nat)
    requires Normal(items, key, limit) && Knows(items, incoming, key)
    ensures Fixed(items, incoming, key, limit)
  {
    AppendForm(items, incoming, key, limit);
    MissingKnown(items, incoming, key);
    assert items + [] == items;
  }

  lemma NewItemArrives<T, K>(items: seq<T>, missing: seq<T>, key: T -> K, limit: nat)
    requires missing != [] && !HasKey(items, key, key(missing[|missing| - 1])) && limit > 0
    ensures KeepTail(items + missing, limit) != items
  {
    var result := KeepTail(items + missing, limit);
    assert result[|result| - 1] == missing[|missing| - 1];
  }

  lemma UnknownIsNotFixed<T, K>(items: seq<T>, incoming: seq<T>, key: T -> K, limit: nat)
    requires Normal(items, key, limit) && !Knows(items, incoming, key) && limit > 0
    ensures !Fixed(items, incoming, key, limit)
  {
    var missing := Missing(items, incoming, key);
    AppendForm(items, incoming, key, limit);
    MissingKeys(items, incoming, key);
    var i :| 0 <= i < |incoming| && !HasKey(items, key, key(incoming[i]));
    assert HasKey(incoming, key, key(incoming[i]));
    assert HasKey(missing, key, key(incoming[i]));
    assert HasKey(missing, key, key(missing[|missing| - 1]));
    NewItemArrives(items, missing, key, limit);
  }

  lemma FixedIffKnows<T, K>(items: seq<T>, incoming: seq<T>, key: T -> K, limit: nat)
    requires Normal(items, key, limit) && limit > 0
    ensures Fixed(items, incoming, key, limit) <==> Knows(items, incoming, key)
  {
    if Knows(items, incoming, key) {
      KnownIsFixed(items, incoming, key, limit);
    } else {
      UnknownIsNotFixed(items, incoming, key, limit);
    }
  }

  ghost function Dropped<T, K>(current: seq<T>, incoming: seq<T>, key: T -> K, limit: nat): nat {
    var all := |current| + |Missing(current, incoming, key)|;
    if all <= limit then 0 else all - limit
  }

  /** Of a list that knows all incoming keys, a suffix still does exactly when no
      dropped item has one of them. */
  lemma SuffixKnows<T, K>(all: seq<T>, dropped: nat, incoming: seq<T>, key: T -> K)
    requires DistinctKeys(all, key) && Knows(all, incoming, key) && dropped <= |all|
    ensures Knows(all[dropped..], incoming, key) <==> forall i :: 0 <= i < dropped ==> !HasKey(incoming, key, key(all[i]))
  {
    var kept := all[dropped..];
    assert forall j :: 0 <= j < |kept| ==> kept[j] == all[dropped + j];
    if Knows(kept, incoming, key) {
      forall i | 0 <= i < dropped
        ensures !HasKey(incoming, key, key(all[i]))
      {
        assert !HasKey(kept, key, key(all[i]));
      }
    } else {
      var i :| 0 <= i < |incoming| && !HasKey(kept, key, key(incoming[i]));
      var j :| 0 <= j < |all| && key(all[j]) == key(incoming[i]);
      assert forall p :: dropped <= p < |all| ==> all[p] == kept[p - dropped];
      assert HasKey(incoming, key, key(all[j]));
    }
  }

  lemma SuffixFixed<T, K>(all: seq<T>, dropped: nat, incoming: seq<T>, key: T -> K, limit: nat, next: seq<T>)
    requires DistinctKeys(all, key) && Knows(all, incoming, key)
    requires dropped <= |all| && next == all[dropped..] && Normal(next, key, limit) && limit > 0
    ensures Fixed(next, incoming, key, limit) <==> forall i :: 0 <= i < dropped ==> !HasKey(incoming, key, key(all[i]))
  {
    SuffixKnows(all, dropped, incoming, key);
    FixedIffKnows(next, incoming, key, limit);
  }

  /** A second delivery is invisible exactly when the first one pushed out no item
      with an incoming key. */
  lemma IdempotentIff<T, K>(current: seq<T>, incoming: seq<T>, key: T -> K, limit: nat)
    requires Normal(current, key, limit) && limit > 0
    ensures Fixed(Append(current, incoming, key, limit), incoming, key, limit) <==>
            forall i :: 0 <= i < Dropped(current, incoming, key, limit) ==>
              !HasKey(incoming, key, key((current + Missing(current, incoming, key))[i]))
  {
    var all := current + Missing(current, incoming, key);
    var dropped := Dropped(current, incoming, key, limit);
    AppendForm(current, incoming, key, limit);
    AppendedKnows(current, incoming, key);
    AppendIsNormal(current, incoming, key, limit);
    SuffixFixed(all, dropped, incoming, key, limit, Append(current, incoming, key, limit));
  }

  // ---- convergence ---------------------------------------------------------------

  /** One more than the position of the last item whose key is not incoming. */
  ghost function ForeignEnd<T, K>(items: seq<T>, incoming: seq<T>, key: T -> K): (e: nat)
    ensures e <= |items|
    decreases |items|
  {
    if items == [] then 0
    else if !HasKey(incoming, key, key(items[|items| - 1])) then |items|
    else ForeignEnd(items[..|items| - 1], incoming, key)
  }

  lemma {:induction false} ForeignEndMeaning<T, K>(items: seq<T>, incoming: seq<T>, key: T -> K)
    ensures var e := ForeignEnd(items, incoming, key);
            && (e > 0 ==> !HasKey(incoming, key, key(items[e - 1])))
            && (forall i :: e <= i < |items| ==> HasKey(incoming, key, key(items[i])))
    decreases |items|
  {
    if items != [] && HasKey(incoming, key, key(items[|items| - 1])) {
      ForeignEndMeaning(items[..|items| - 1], incoming, key);
    }
  }

  /** Dropping from the front and adding incoming items behind moves the last
      foreign item towards the front. */
  lemma ForeignEndMoves<T, K>(current: seq<T>, added: seq<T>, dropped: nat, incoming: seq<T>, key: T -> K)
    requires dropped <= |current + added|
    requires forall i :: 0 <= i < |added| ==> HasKey(incoming, key, key(added[i]))
    ensures var e, e' := ForeignEnd(current, incoming, key), ForeignEnd((current + added)[dropped..], incoming, key);
            e' == 0 || e' + dropped == e
  {
    var all := current + added;
    var kept := all[dropped..];
    ForeignEndMeaning(current, incoming, key);
    ForeignEndMeaning(kept, incoming, key);
    var e, e' := ForeignEnd(current, incoming, key), ForeignEnd(kept, incoming, key);
    if e' > 0 {
      assert kept[e' - 1] == all[e' - 1 + dropped];
      assert e' - 1 + dropped < |current|;
    }
    assert dropped < e ==> kept[e - 1 - dropped] == current[e - 1];
  }

  /** A list of incoming keys only that lacks one of them is shorter than the number
      of incoming keys. */
  lemma OnlyIncoming<T, K>(items: seq<T>, incoming: seq<T>, key: T -> K)
    requires DistinctKeys(items, key) && ForeignEnd(items, incoming, key) == 0
    requires !Knows(items, incoming, key)
    ensures |items| < |Keys(incoming, key)|
  {
    ForeignEndMeaning(items, incoming, key);
    KeysSize(items, key);
    var i :| 0 <= i < |incoming| && !HasKey(items, key, key(incoming[i]));
    forall k | k in Keys(items, key)
      ensures k in Keys(incoming, key)
    {
      var j :| 0 <= j < |items| && key(items[j]) == k;
      HasKeyIffInKeys(incoming, key, k);
    }
    ProperSubsetSize(Keys(items, key), Keys(incoming, key), key(incoming[i]));
  }

  lemma TailProgress<T, K>(current: seq<T>, missing: seq<T>, dropped: nat, incoming: seq<T>, key: T -> K, limit: nat)
    requires DistinctKeys(current + missing, key) && Knows(current + missing, incoming, key)
    requires forall i :: 0 <= i < |missing| ==> HasKey(incoming, key, key(missing[i]))
    requires dropped == 0 || dropped + limit == |current + missing|
    requires |Keys(incoming, key)| <= limit
    ensures var next := (current + missing)[dropped..];
            Knows(next, incoming, key) ||
            0 < ForeignEnd(next, incoming, key) < ForeignEnd(current, incoming, key)
  {
    var all := current + missing;
    var next := all[dropped..];
    if !Knows(next, incoming, key) {
      ForeignEndMoves(current, missing, dropped, incoming, key);
      assert all[0..] == all;
      if ForeignEnd(next, incoming, key) == 0 {
        OnlyIncoming(next, incoming, key);
      }
    }
  }

  /** One replay either makes every incoming key known, or moves the last foreign
      item strictly towards the front without losing it. */
  lemma ReplayProgress<T, K>(current: seq<T>, incoming: seq<T>, key: T -> K, limit: nat)
    requires Normal(current, key, limit) && |Keys(incoming, key)| <= limit
    ensures var next := Append(current, incoming, key, limit);
            Knows(next, incoming, key) ||
            0 < ForeignEnd(next, incoming, key) < ForeignEnd(current, incoming, key)
  {
    var missing := Missing(current, incoming, key);
    var dropped := Dropped(current, incoming, key, limit);
    AppendForm(current, incoming, key, limit);
    AppendedKnows(current, incoming, key);
    MissingAreIncoming(current, incoming, key);
    TailProgress(current, missing, dropped, incoming, key, limit);
    assert KeepTail(current + missing, limit) == (current + missing)[dropped..];
  }

  lemma MissingAreIncoming<T, K>(current: seq<T>, incoming: seq<T>, key: T -> K)
    ensures var missing := Missing(current, incoming, key);
            forall i :: 0 <= i < |missing| ==> HasKey(incoming, key, key(missing[i]))
  {
    var missing := Missing(current, incoming, key);
    MissingKeys(current, incoming, key);
    forall i | 0 <= i < |missing|
      ensures HasKey(incoming, key, key(missing[i]))
    {
      assert HasKey(missing, key, key(missing[i]));
    }
  }

  /** `n` replays are enough. */
  ghost predicate Near<T, K>(current: seq<T>, incoming: seq<T>, key: T -> K, limit: nat, n: nat) {
    Normal(current, key, limit) && (Knows(current, incoming, key) || (1 <= n && ForeignEnd(current, incoming, key) <= n))
  }

  function Minus(n: nat, i: nat): nat {
    if i <= n then n - i else 0
  }

  lemma NearStep<T, K>(current: seq<T>, incoming: seq<T>, key: T -> K, limit: nat, n: nat)
    requires Near(current, incoming, key, limit, n) && |Keys(incoming, key)| <= limit
    ensures Near(Append(current, incoming, key, limit), incoming, key, limit, Minus(n, 1))
  {
    if Knows(current, incoming, key) {
      KnownIsFixed(current, incoming, key, limit);
    } else {
      AppendIsNormal(current, incoming, key, limit);
      ReplayProgress(current, incoming, key, limit);
    }
  }

  lemma {:induction false} NearAlong<T, K>(states: seq<seq<T>>, incoming: seq<T>, key: T -> K, limit: nat, n: nat, i: nat)
    requires IsReplay(states, incoming, key, limit) && i < |states|
    requires Near(states[0], incoming, key, limit, n) && |Keys(incoming, key)| <= limit
    ensures Near(states[i], incoming, key, limit, Minus(n, i))
  {
    if i > 0 {
      NearAlong(states, incoming, key, limit, n, i - 1);
      NearStep(states[i - 1], incoming, key, limit, Minus(n, i - 1));
      assert states[i - 1 + 1] == Append(states[i - 1], incoming, key, limit);
    }
  }

  /** The position of the last foreign item bounds the number of replays. */
  lemma ConvergesWithin<T, K>(states: seq<seq<T>>, incoming: seq<T>, key: T -> K, limit: nat, n: nat, i: nat)
    requires IsReplay(states, incoming, key, limit) && n <= i < |states|
    requires Normal(states[0], key, limit) && |Keys(incoming, key)| <= limit
    requires 1 <= n && ForeignEnd(states[0], incoming, key) <= n
    ensures Fixed(states[i], incoming, key, limit)
  {
    NearAlong(states, incoming, key, limit, n, i);
    KnownIsFixed(states[i], incoming, key, limit);
  }

  lemma KeysAreKnown<T, K>(items: seq<T>, incoming: seq<T>, key: T -> K)
    requires DistinctKeys(items, key) && Knows(items, incoming, key)
    ensures |Keys(incoming, key)| <= |items|
  {
    KeysSize(items, key);
    forall k | k in Keys(incoming, key)
      ensures k in Keys(items, key)
    {
      var i :| 0 <= i < |incoming| && key(incoming[i]) == k;
      HasKeyIffInKeys(items, key, k);
    }
    SubsetSize(Keys(incoming, key), Keys(items, key));
  }

  lemma EmptyKeys<T, K>(items: seq<T>, key: T -> K)
    ensures items == [] ==> |Keys(items, key)| == 0
  {
    KeysSize([], key);
  }

  /** More incoming keys than the cap holds: nothing is ever a fixed point. */
  lemma TooManyKeysNeverFixed<T, K>(items: seq<T>, incoming: seq<T>, key: T -> K, limit: nat)
    requires |Keys(incoming, key)| > limit > 0
    ensures !Fixed(items, incoming, key, limit)
  {
    var next := Append(items, incoming, key, limit);
    EmptyKeys(incoming, key);
    AppendIsNormal(items, incoming, key, limit);
    FixedIffKnowsAll(next, incoming, key, limit);
  }

  lemma FixedIffKnowsAll<T, K>(items: seq<T>, incoming: seq<T>, key: T -> K, limit: nat)
    requires Normal(items, key, limit) && |Keys(incoming, key)| > limit > 0
    ensures !Fixed(items, incoming, key, limit)
  {
    FixedIffKnows(items, incoming, key, limit);
    if Knows(items, incoming, key) {
      KeysAreKnown(items, incoming, key);
    }
  }

  /** Some number of replays reaches a fixed point. */
  ghost predicate Converges<T(!new), K>(current: seq<T>, incoming: seq<T>, key: T -> K, limit: nat) {
    exists states: seq<seq<T>> ::
      IsReplay(states, incoming, key, limit) && states[0] == current && Fixed(states[|states| - 1], incoming, key, limit)
  }

  lemma {:induction false} SomeReplay<T, K>(current: seq<T>, incoming: seq<T>, key: T -> K, limit: nat, n: nat)
    returns (states: seq<seq<T>>)
    ensures IsReplay(states, incoming, key, limit) && |states| == n + 1 && states[0] == current
  {
    if n == 0 {
      states := [current];
    } else {
      states := SomeReplay(current, incoming, key, limit, n - 1);
      states := states + [Append(states[n - 1], incoming, key, limit)];
    }
  }

  /** Replays of one history reach a fixed point if and only if it has at most
      `limit` distinct keys, and then they do so within `limit` steps. */
  lemma ConvergesIff<T(!new), K>(current: seq<T>, incoming: seq<T>, key: T -> K, limit: nat)
    requires Normal(current, key, limit) && limit > 0
    ensures Converges(current, incoming, key, limit) <==> |Keys(incoming, key)| <= limit
  {
    if |Keys(incoming, key)| <= limit {
      var states := SomeReplay(current, incoming, key, limit, limit);
      ConvergesWithin(states, incoming, key, limit, limit, limit);
    } else {
      forall states: seq<seq<T>> | IsReplay(states, incoming, key, limit)
        ensures !Fixed(states[|states| - 1], incoming, key, limit)
      {
        TooManyKeysNeverFixed(states[|states| - 1], incoming, key, limit);
      }
    }
  }

  lemma ConvergesBy<T, K>(states: seq<seq<T>>, incoming: seq<T>, key: T -> K, limit: nat, i: nat)
    requires IsReplay(states, incoming, key, limit) && 0 < limit <= i < |states|
    requires Normal(states[0], key, limit) && |Keys(incoming, key)| <= limit
    ensures Fixed(states[i], incoming, key, limit)
  {
    ConvergesWithin(states, incoming, key, limit, limit, i);
  }

  /** A list that was never deduplicated or capped needs at most one replay more. */
  lemma ConvergesFromAnywhere<T, K>(states: seq<seq<T>>, incoming: seq<T>, key: T -> K, limit: nat, i: nat)
    requires IsReplay(states, incoming, key, limit) && 0 < limit < i < |states|
    requires incoming != [] && |Keys(incoming, key)| <= limit
    ensures Fixed(states[i], incoming, key, limit)
  {
    var later := states[1..];
    assert states[0 + 1] == Append(states[0], incoming, key, limit);
    AppendIsNormal(states[0], incoming, key, limit);
    assert forall j :: 0 <= j < |later| ==> later[j] == states[j + 1];
    ConvergesBy(later, incoming, key, limit, i - 1);
  }

  // ---- prepending ----------------------------------------------------------------

  lemma PrependForm<T, K>(current: seq<T>, incoming: seq<T>, key: T -> K)
    ensures Unique(incoming + current, key) == Unique(incoming, key) + Missing(Unique(incoming, key), current, key)
  {
    UniqueKeys(incoming, key);
    UniqueLeft(incoming, current, key);
    UniqueAppends(Unique(incoming, key), current, key);
  }

  lemma TailInHead<T, K>(head: seq<T>, rest: seq<T>, key: T -> K, dropped: nat)
    requires DistinctKeys(head + rest, key) && dropped <= |head|
    ensures Missing(head, (head + rest)[dropped..], key) == rest
  {
    assert (head + rest)[dropped..] == head[dropped..] + rest[0..];
    assert rest[0..] == rest;
    RestStaysMissing(head, rest, dropped, 0, key);
  }

  lemma TailInRest<T, K>(head: seq<T>, rest: seq<T>, key: T -> K, dropped: nat)
    requires DistinctKeys(head + rest, key) && |head| <= dropped <= |head + rest|
    ensures Missing(head, (head + rest)[dropped..], key) == (head + rest)[dropped..]
  {
    var cut := dropped - |head|;
    assert (head + rest)[dropped..] == rest[cut..];
    assert head[|head|..] + rest[cut..] == rest[cut..];
    RestStaysMissing(head, rest, |head|, cut, key);
  }

  lemma TailTwice<T, K>(head: seq<T>, rest: seq<T>, key: T -> K, limit: nat)
    requires DistinctKeys(head + rest, key)
    ensures var kept := KeepTail(head + rest, limit);
            KeepTail(head + Missing(head, kept, key), limit) == kept
  {
    var all := head + rest;
    var dropped := |all| - |KeepTail(all, limit)|;
    assert KeepTail(all, limit) == all[dropped..];
    if dropped <= |head| {
      TailInHead(head, rest, key, dropped);
    } else {
      TailInRest(head, rest, key, dropped);
      assert KeepTail(head + all[dropped..], limit) == all[dropped..];
    }
  }

  /** Prepending is replay-idempotent for every list and every incoming history. */
  lemma PrependIdempotent<T, K>(current: seq<T>, incoming: seq<T>, key: T -> K, limit: nat)
    ensures Prepend(Prepend(current, incoming, key, limit), incoming, key, limit) == Prepend(current, incoming, key, limit)
  {
    if incoming != [] {
      var head := Unique(incoming, key);
      var once := Prepend(current, incoming, key, limit);
      PrependForm(current, incoming, key);
      PrependForm(once, incoming, key);
      UniqueKeys(incoming + current, key);
      TailTwice(head, Missing(head, current, key), key, limit);
    }
  }

  lemma HeadKnown<T, K>(head: seq<T>, i: nat, key: T -> K)
    requires i <= |head|
    ensures forall p :: 0 <= p < |head[i..]| ==> HasKey(head, key, key(head[i..][p]))
  {
    forall p | 0 <= p < |head[i..]|
      ensures HasKey(head, key, key(head[i..][p]))
    {
      assert head[i..][p] == head[i + p];
    }
  }

  /** A part of the rest shares no key with the head, nor within itself. */
  lemma RestNovel<T, K>(head: seq<T>, rest: seq<T>, all: seq<T>, j: nat, key: T -> K)
    requires all == head + rest && j <= |rest| && DistinctKeys(all, key)
    ensures forall p :: 0 <= p < |rest[j..]| ==> !HasKey(head, key, key(rest[j..][p]))
    ensures DistinctKeys(rest[j..], key)
  {
    var novel := rest[j..];
    assert forall q :: 0 <= q < |head| ==> head[q] == all[q];
    assert forall p :: 0 <= p < |novel| ==> novel[p] == all[|head| + j + p];
  }

  lemma RestStaysMissing<T, K>(head: seq<T>, rest: seq<T>, i: nat, j: nat, key: T -> K)
    requires i <= |head| && j <= |rest| && DistinctKeys(head + rest, key)
    ensures Missing(head, head[i..] + rest[j..], key) == rest[j..]
  {
    HeadKnown(head, i, key);
    RestNovel(head, rest, head + rest, j, key);
    MissingSplit(head, head[i..], rest[j..], key);
  }
}
