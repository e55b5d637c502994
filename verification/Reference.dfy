/** Values and helpers shared by the product and offer merges. */
module Reference {
  import opened Dedup
  import opened Options
  import opened CappedHistory
  import opened Sets

  /** Nanoseconds; only equality matters. */
  type Time = int

  /** A list entry together with the key it is deduplicated by. */
  datatype Keyed = Keyed(key: string, body: string)

  function KeyOf(item: Keyed): string {
    item.key
  }

  function Itself(s: string): string {
    s
  }

  ghost function NonEmpty(items: seq<string>): seq<string> {
    if items == [] then []
    else
      var n := |items| - 1;
      if items[n] == "" then NonEmpty(items[..n]) else NonEmpty(items[..n]) + [items[n]]
  }

  ghost function UniqueStringsOf(items: seq<string>, removeEmpty: bool): seq<string> {
    Unique(Considered(items, removeEmpty), Itself)
  }

  ghost function Considered(items: seq<string>, removeEmpty: bool): seq<string> {
    if removeEmpty then NonEmpty(items) else items
  }

  lemma ConsideredSnoc(items: seq<string>, item: string, removeEmpty: bool)
    ensures Considered(items + [item], removeEmpty) ==
            if removeEmpty && item == "" then Considered(items, removeEmpty) else Considered(items, removeEmpty) + [item]
  {
    var longer := items + [item];
    assert longer[..|longer| - 1] == items;
  }

  lemma UniqueStringsSnoc(items: seq<string>, item: string, removeEmpty: bool)
    ensures var before := UniqueStringsOf(items, removeEmpty);
            UniqueStringsOf(items + [item], removeEmpty) ==
            if (removeEmpty && item == "") || HasKey(before, Itself, item) then before else before + [item]
  {
    ConsideredSnoc(items, item, removeEmpty);
    UniqueSnoc(Considered(items, removeEmpty), item, Itself);
  }

  lemma UniqueStringsNext(items: seq<string>, i: nat, removeEmpty: bool)
    requires i < |items|
    ensures var before := UniqueStringsOf(items[..i], removeEmpty);
            UniqueStringsOf(items[..i + 1], removeEmpty) ==
            if (removeEmpty && items[i] == "") || HasKey(before, Itself, items[i]) then before else before + [items[i]]
  {
    UniqueStringsSnoc(items[..i], items[i], removeEmpty);
    assert items[..i + 1] == items[..i] + [items[i]];
  }

  lemma SeenSnoc(seen: set<string>, items: seq<string>, item: string)
    requires forall k :: k in seen <==> HasKey(items, Itself, k)
    ensures forall k :: k in seen + {item} <==> HasKey(items + [item], Itself, k)
  {
    HasKeySnoc(items, item, Itself);
  }

  /** `uniqueStrings` */
  method UniqueStrings(items: seq<string>, removeEmpty: bool) returns (result: seq<string>)
    ensures result == UniqueStringsOf(items, removeEmpty)
  {
    result := [];
    var seen: set<string> := {};
    var i := 0;
    while i < |items|
      invariant 0 <= i <= |items|
      invariant result == UniqueStringsOf(items[..i], removeEmpty)
      invariant forall k :: k in seen <==> HasKey(result, Itself, k)
    {
      var item := items[i];
      UniqueStringsNext(items, i, removeEmpty);
      i := i + 1;
      if removeEmpty && item == "" {
        continue;
      }
      if item !in seen {
        SeenSnoc(seen, result, item);
        seen := seen + {item};
        result := result + [item];
      }
    }
    assert items[..|items|] == items;
  }

  lemma {:induction false} NonEmptyElements(items: seq<string>)
    ensures forall s :: s in NonEmpty(items) <==> s in items && s != ""
  {
    if items != [] {
      var n := |items| - 1;
      NonEmptyElements(items[..n]);
      assert items == items[..n] + [items[n]];
    }
  }

  lemma HasItself(items: seq<string>, s: string)
    ensures HasKey(items, Itself, s) <==> s in items
  {
    if s in items {
      var i :| 0 <= i < |items| && items[i] == s;
      assert Itself(items[i]) == s;
    }
  }

  ghost predicate NoDuplicates(items: seq<string>) {
    forall i, j :: 0 <= i < j < |items| ==> items[i] != items[j]
  }

  /** The same strings, each once. */
  lemma UniqueStringsElements(items: seq<string>, removeEmpty: bool)
    ensures var r := UniqueStringsOf(items, removeEmpty);
            && NoDuplicates(r)
            && forall s :: s in r <==> s in items && (removeEmpty ==> s != "")
  {
    var kept := Considered(items, removeEmpty);
    var r := UniqueStringsOf(items, removeEmpty);
    NonEmptyElements(items);
    UniqueKeys(kept, Itself);
    forall i, j | 0 <= i < j < |r|
      ensures r[i] != r[j]
    {
      assert Itself(r[i]) != Itself(r[j]);
    }
    forall s
      ensures s in r <==> s in kept
    {
      HasItself(r, s);
      HasItself(kept, s);
    }
  }

  /** A list that only ever grows by the incoming strings. */
  ghost function Grow(current: seq<string>, incoming: seq<string>): seq<string> {
    if incoming != [] then UniqueStringsOf(current + incoming, false) else current
  }

  ghost function Strings(items: seq<string>): set<string> {
    set s | s in items
  }

  lemma GrowStrings(current: seq<string>, incoming: seq<string>)
    ensures Strings(Grow(current, incoming)) == Strings(current) + Strings(incoming)
  {
    UniqueStringsElements(current + incoming, false);
  }

  ghost function FirstOf(known: Option<Time>, incoming: Option<Time>, stamp: Time): Option<Time> {
    if known.Some? then known else if incoming.Some? then incoming else Some(stamp)
  }

  /** A list merged into nothing is deduplicated and capped, and a list that
      already is stays as it is. */
  lemma AppendToEmpty<T, K>(items: seq<T>, key: T -> K, limit: nat)
    ensures Normal(Append([], items, key, limit), key, limit)
    ensures Normal(items, key, limit) ==> Append([], items, key, limit) == items
  {
    AppendIsNormal([], items, key, limit);
    if Normal(items, key, limit) {
      UniqueOfDistinct(items, key);
      assert [] + items == items;
    }
  }

  lemma PrependIsNormal<T, K>(current: seq<T>, incoming: seq<T>, key: T -> K, limit: nat)
    requires incoming != [] || DistinctKeys(current, key)
    ensures Normal(Prepend(current, incoming, key, limit), key, limit)
  {
    UniqueKeys(incoming + current, key);
    TailDistinct(if incoming != [] then Unique(incoming + current, key) else current, key, limit);
  }

  lemma PrependToEmpty<T, K>(items: seq<T>, key: T -> K, limit: nat)
    ensures Normal(Prepend([], items, key, limit), key, limit)
    ensures Normal(items, key, limit) ==> Prepend([], items, key, limit) == items
  {
    PrependIsNormal([], items, key, limit);
    if Normal(items, key, limit) {
      UniqueOfDistinct(items, key);
      assert items + [] == items;
    }
  }

  // ---- replaying into a stored list ------------------------------------------------

  /** A stored list after each delivery of the same history; it is first merged into an empty one. */
  ghost predicate IsStoredReplay<T, K>(lists: seq<seq<T>>, incoming: seq<T>, key: T -> K, limit: nat) {
    forall i :: 0 <= i < |lists| - 1 ==> lists[i + 1] == Append(Append([], lists[i], key, limit), incoming, key, limit)
  }

  lemma DeliveredIsNormal<T, K>(lists: seq<seq<T>>, incoming: seq<T>, key: T -> K, limit: nat, i: nat)
    requires IsStoredReplay(lists, incoming, key, limit) && 0 < i < |lists|
    ensures Normal(lists[i], key, limit) && Append([], lists[i], key, limit) == lists[i]
  {
    var before := Append([], lists[i - 1], key, limit);
    assert lists[i - 1 + 1] == Append(before, incoming, key, limit);
    AppendToEmpty(lists[i - 1], key, limit);
    AppendIsNormal(before, incoming, key, limit);
    AppendToEmpty(lists[i], key, limit);
  }

  /** With the stored list cleaned up first, the deliveries are plain replays. */
  lemma CleanReplay<T, K>(lists: seq<seq<T>>, incoming: seq<T>, key: T -> K, limit: nat) returns (clean: seq<seq<T>>)
    requires IsStoredReplay(lists, incoming, key, limit) && lists != []
    ensures |clean| == |lists| && Normal(clean[0], key, limit) && IsReplay(clean, incoming, key, limit)
    ensures forall i :: 0 < i < |lists| ==> clean[i] == lists[i]
  {
    clean := lists[0 := Append([], lists[0], key, limit)];
    AppendToEmpty(lists[0], key, limit);
    forall k | 0 <= k < |clean| - 1
      ensures clean[k + 1] == Append(clean[k], incoming, key, limit)
    {
      if k > 0 {
        DeliveredIsNormal(lists, incoming, key, limit, k);
      }
    }
  }

  /** As many distinct keys as the limit settle within that many deliveries, whatever was stored. */
  lemma StoredSettles<T, K>(lists: seq<seq<T>>, incoming: seq<T>, key: T -> K, limit: nat, i: nat)
    requires IsStoredReplay(lists, incoming, key, limit) && 0 < limit <= i < |lists| - 1
    requires |Keys(incoming, key)| <= limit
    ensures lists[i + 1] == lists[i]
  {
    var clean := CleanReplay(lists, incoming, key, limit);
    ConvergesBy(clean, incoming, key, limit, i);
  }

  /** More of them never do, not even once. */
  lemma StoredNeverSettles<T, K>(lists: seq<seq<T>>, incoming: seq<T>, key: T -> K, limit: nat, i: nat)
    requires IsStoredReplay(lists, incoming, key, limit) && i < |lists| - 1 && limit > 0
    ensures |Keys(incoming, key)| > limit ==> lists[i + 1] != lists[i]
  {
    DeliveredIsNormal(lists, incoming, key, limit, i + 1);
    if |Keys(incoming, key)| > limit {
      TooManyKeysNeverFixed(Append([], lists[i], key, limit), incoming, key, limit);
    }
  }

  lemma StoredSettlesIff<T, K>(lists: seq<seq<T>>, incoming: seq<T>, key: T -> K, limit: nat, i: nat)
    requires IsStoredReplay(lists, incoming, key, limit) && 0 < limit <= i < |lists| - 1
    ensures lists[i + 1] == lists[i] <==> |Keys(incoming, key)| <= limit
  {
    if |Keys(incoming, key)| <= limit {
      StoredSettles(lists, incoming, key, limit, i);
    } else {
      StoredNeverSettles(lists, incoming, key, limit, i);
    }
  }

  // ---- what a merge with a stored list comes to --------------------------------------

  /** Stored items first: the end of the deduplicated whole. */
  lemma StoredThenIncoming<T, K>(stored: seq<T>, incoming: seq<T>, key: T -> K, limit: nat)
    ensures var known := KeepTail(Unique(stored, key), limit);
            Append(Append([], stored, key, limit), incoming, key, limit) == KeepTail(Unique(known + incoming, key), limit)
  {
    var known := Cleaned(stored, key, limit);
    if incoming == [] {
      UniqueOfDistinct(known, key);
      assert known + incoming == known;
    }
  }

  /** Incoming items first: the end of the deduplicated whole. */
  lemma IncomingThenStored<T, K>(stored: seq<T>, incoming: seq<T>, key: T -> K, limit: nat)
    ensures var known := KeepTail(Unique(stored, key), limit);
            Prepend(Prepend([], stored, key, limit), incoming, key, limit) == KeepTail(Unique(incoming + known, key), limit)
  {
    var known := Cleaned(stored, key, limit);
    assert stored + [] == stored;
    if incoming == [] {
      UniqueOfDistinct(known, key);
      assert incoming + known == known;
    }
  }

  lemma Cleaned<T, K>(stored: seq<T>, key: T -> K, limit: nat) returns (clean: seq<T>)
    ensures clean == KeepTail(Unique(stored, key), limit) == Append([], stored, key, limit)
    ensures Normal(clean, key, limit)
  {
    clean := KeepTail(Unique(stored, key), limit);
    assert [] + stored == stored;
    UniqueKeys(stored, key);
    TailDistinct(Unique(stored, key), key, limit);
  }

  /** With room for all keys nothing of either side is lost, and an incoming item wins over a stored one. */
  lemma IncomingWins<T, K>(stored: seq<T>, incoming: seq<T>, key: T -> K, limit: nat, k: K)
    requires |Keys(stored + incoming, key)| <= limit
    ensures var merged := Prepend(Prepend([], stored, key, limit), incoming, key, limit);
            && (HasKey(merged, key, k) <==> HasKey(incoming, key, k) || HasKey(stored, key, k))
            && DistinctKeys(merged, key)
            && (forall i, j :: 0 <= i < |merged| && 0 <= j < |incoming| && key(merged[i]) == key(incoming[j]) ==> merged[i] in incoming)
            && (forall i :: 0 <= i < |merged| && !HasKey(incoming, key, key(merged[i])) ==> merged[i] in stored)
  {
    var once, merged := Unique(stored, key), Unique(incoming + Unique(stored, key), key);
    RoomForAll(stored, incoming, key, limit);
    IncomingThenStored(stored, incoming, key, limit);
    UniqueKeys(stored, key);
    UniqueKeys(incoming + once, key);
    HasKeyConcat(incoming, once, key, k);
    UniqueSources(stored, key);
    FirstSourceWins(incoming, once, key);
  }

  /** A deduplicated list consists of items of the list. */
  lemma {:induction false} UniqueSources<T, K>(items: seq<T>, key: T -> K)
    ensures forall x :: x in Unique(items, key) ==> x in items
    decreases |items|
  {
    if items != [] {
      UniqueSources(items[..|items| - 1], key);
    }
  }

  /** Of two lists, the first one provides every key that it has. */
  lemma FirstSourceWins<T, K>(first: seq<T>, second: seq<T>, key: T -> K)
    ensures var merged := Unique(first + second, key);
            forall i :: 0 <= i < |merged| ==> merged[i] in (if HasKey(first, key, key(merged[i])) then first else second)
  {
    var all := first + second;
    var merged := Unique(all, key);
    var positions := UniquePicksFirsts(all, key);
    forall i | 0 <= i < |merged|
      ensures merged[i] in (if HasKey(first, key, key(merged[i])) then first else second)
    {
      var at := positions[i];
      assert First(all, key, at) && merged[i] == all[at];
      if HasKey(first, key, key(merged[i])) {
        var j :| 0 <= j < |first| && key(first[j]) == key(merged[i]);
        assert all[j] == first[j];
        assert at < |first|;
      }
      if at < |first| {
        assert first[at] == merged[i];
      }
    }
  }

  lemma RoomForAll<T, K>(stored: seq<T>, incoming: seq<T>, key: T -> K, limit: nat)
    requires |Keys(stored + incoming, key)| <= limit
    ensures KeepTail(Unique(stored, key), limit) == Unique(stored, key)
    ensures KeepTail(Unique(incoming + Unique(stored, key), key), limit) == Unique(incoming + Unique(stored, key), key)
  {
    var once := Unique(stored, key);
    var merged := Unique(incoming + once, key);
    UniqueKeys(stored, key);
    UniqueKeys(incoming + once, key);
    forall i | 0 <= i < |once|
      ensures HasKey(stored + incoming, key, key(once[i]))
    {
      assert HasKey(once, key, key(once[i]));
      HasKeyConcat(stored, incoming, key, key(once[i]));
    }
    forall i | 0 <= i < |merged|
      ensures HasKey(stored + incoming, key, key(merged[i]))
    {
      assert HasKey(merged, key, key(merged[i]));
      HasKeyConcat(incoming, once, key, key(merged[i]));
      HasKeyConcat(stored, incoming, key, key(merged[i]));
    }
    FitsWithin(once, stored + incoming, key);
    FitsWithin(merged, stored + incoming, key);
  }

  /** Distinct keys that all occur in a list are no more than the list has. */
  lemma FitsWithin<T, K>(items: seq<T>, all: seq<T>, key: T -> K)
    requires DistinctKeys(items, key) && forall i :: 0 <= i < |items| ==> HasKey(all, key, key(items[i]))
    ensures |items| <= |Keys(all, key)|
  {
    KeysSize(items, key);
    forall k | k in Keys(items, key)
      ensures k in Keys(all, key)
    {
      var i :| 0 <= i < |items| && key(items[i]) == k;
      HasKeyIffInKeys(all, key, k);
    }
    SubsetSize(Keys(items, key), Keys(all, key));
  }

  // ---- the order of identifiers -------------------------------------------------------

  lemma {:induction false} NonEmptyConcat(a: seq<string>, b: seq<string>)
    ensures NonEmpty(a + b) == NonEmpty(a) + NonEmpty(b)
    decreases |b|
  {
    if b == [] {
      assert a + b == a;
    } else {
      var n := |b| - 1;
      NonEmptyConcat(a, b[..n]);
      assert (a + b)[..|a| + n] == a + b[..n];
    }
  }

  /** A string that was listed already changes nothing. */
  lemma UniqueKnown(a: seq<string>, s: string, b: seq<string>)
    requires s in a
    ensures Unique(a + [s] + b, Itself) == Unique(a + b, Itself)
  {
    UniqueSnoc(a, s, Itself);
    UniqueKeys(a, Itself);
    HasItself(a, s);
    UniqueLeft(a + [s], b, Itself);
    UniqueLeft(a, b, Itself);
  }

  /** Listing again what was deduplicated before, with a known string in between, comes to listing
      everything once, in the order of first mention. */
  lemma UniqueStringsAgain(a: seq<string>, s: string, b: seq<string>)
    requires s == "" || s in a
    ensures UniqueStringsOf(UniqueStringsOf(a, true) + [s] + b, true) == UniqueStringsOf(a + b, true)
  {
    var x, y := NonEmpty(a), NonEmpty(b);
    var once := Unique(x, Itself);
    UniqueStringsElements(a, true);
    assert forall i :: 0 <= i < |once| ==> once[i] in UniqueStringsOf(a, true);
    NonEmptyIsPlain(once);
    NonEmptyConcat(once, [s]);
    NonEmptyConcat(once + [s], b);
    NonEmptyConcat(a, b);
    NonEmptyOne(s);
    NonEmptyElements(a);
    UniqueLeft(x, y, Itself);
    if s != "" {
      HasItself(once, s);
      UniqueKeys(x, Itself);
      HasItself(x, s);
      UniqueKnown(once, s, y);
    } else {
      assert once + [] == once;
    }
  }

  lemma NonEmptyOne(s: string)
    ensures NonEmpty([s]) == if s == "" then [] else [s]
  {
    assert [s][..0] == [];
    assert NonEmpty([]) == [];
  }

  lemma {:induction false} NonEmptyIsPlain(items: seq<string>)
    requires forall i :: 0 <= i < |items| ==> items[i] != ""
    ensures NonEmpty(items) == items
  {
    if items != [] {
      NonEmptyIsPlain(items[..|items| - 1]);
      assert items == items[..|items| - 1] + [items[|items| - 1]];
    }
  }
}
