/** The bound on replays is attained: for every cap there is a history of as many
    keys and a full list that needs exactly that many deliveries. */
module CappedHistoryBound {
  import opened Dedup
  import opened CappedHistory

  function Identity(x: int): int {
    x
  }

  /** 0, 1, .., limit-2, the foreign item -1, limit-1, 0, 1, .. */
  function Stream(limit: nat, i: nat): int {
    if i + 1 < limit then i
    else if i + 1 == limit then -1
    else if i == limit then limit - 1
    else i - limit - 1
  }

  /** The list after `k` deliveries. */
  function Window(limit: nat, k: nat): seq<int> {
    seq(limit, j requires 0 <= j < limit => Stream(limit, k + j))
  }

  function Range(from: int, to: int): seq<int>
    requires from <= to
  {
    seq(to - from, j requires 0 <= j < to - from => from + j)
  }

  /** The one incoming key that the list lacks after `k` deliveries. */
  function Lacking(limit: nat, k: nat): int {
    if k == 0 then limit - 1 else k - 1
  }

  lemma WindowAt(limit: nat, k: nat)
    ensures forall j :: 0 <= j < limit ==> Window(limit, k)[j] == Stream(limit, k + j)
  {
  }

  lemma WindowDistinct(limit: nat, k: nat)
    requires k < limit
    ensures DistinctKeys(Window(limit, k), Identity)
  {
    WindowAt(limit, k);
    forall i, j | 0 <= i < j < limit
      ensures Identity(Window(limit, k)[i]) != Identity(Window(limit, k)[j])
    {
      assert Stream(limit, k + i) != Stream(limit, k + j);
    }
  }

  lemma WindowLacks(limit: nat, k: nat)
    requires k < limit
    ensures !HasKey(Window(limit, k), Identity, Lacking(limit, k))
  {
    WindowAt(limit, k);
    forall j | 0 <= j < limit
      ensures Identity(Window(limit, k)[j]) != Lacking(limit, k)
    {
      assert Stream(limit, k + j) != Lacking(limit, k);
    }
  }

  lemma WindowHas(limit: nat, k: nat, v: int)
    requires k < limit && 0 <= v < limit && v != Lacking(limit, k)
    ensures HasKey(Window(limit, k), Identity, v)
  {
    var j := if v == limit - 1 then limit - k else if v >= k then v - k else limit + 1 + v - k;
    WindowAt(limit, k);
    assert Stream(limit, k + j) == v;
    assert Identity(Window(limit, k)[j]) == v;
  }

  lemma {:induction false} MissingKnownAfter(current: seq<int>, before: seq<int>, after: seq<int>)
    requires forall i :: 0 <= i < |after| ==> HasKey(current, Identity, after[i])
    ensures Missing(current, before + after, Identity) == Missing(current, before, Identity)
    decreases |after|
  {
    if after == [] {
      assert before + after == before;
    } else {
      var n := |after| - 1;
      MissingKnownAfter(current, before, after[..n]);
      assert before + after == (before + after[..n]) + [after[n]];
      MissingSnoc(current, before + after[..n], after[n], Identity);
      HasKeyConcat(current, Missing(current, before, Identity), Identity, after[n]);
    }
  }

  lemma MissingThrough(window: seq<int>, m: nat)
    requires !HasKey(window, Identity, m)
    requires forall v :: 0 <= v < m ==> HasKey(window, Identity, v)
    ensures Missing(window, Range(0, m) + [m], Identity) == [m]
  {
    var before := Range(0, m);
    forall i | 0 <= i < |before|
      ensures HasKey(window, Identity, Identity(before[i]))
    {
      assert before[i] == i;
    }
    MissingSplit(window, before, [m], Identity);
  }

  lemma RangeAround(m: nat, limit: nat)
    requires m < limit
    ensures Range(0, limit) == Range(0, m) + [m] + Range(m + 1, limit)
  {
  }

  /** If a list has all of 0 .. limit-1 but `m`, then only `m` is missing. */
  lemma OnlyMissing(window: seq<int>, limit: nat, m: int)
    requires 0 <= m < limit && !HasKey(window, Identity, m)
    requires forall v :: 0 <= v < limit && v != m ==> HasKey(window, Identity, v)
    ensures Missing(window, Range(0, limit), Identity) == [m]
  {
    var after := Range(m + 1, limit);
    forall i | 0 <= i < |after|
      ensures HasKey(window, Identity, after[i])
    {
      assert after[i] == m + 1 + i;
    }
    MissingThrough(window, m);
    MissingKnownAfter(window, Range(0, m) + [m], after);
    RangeAround(m, limit);
  }

  lemma WindowMissing(limit: nat, k: nat)
    requires k < limit
    ensures Missing(Window(limit, k), Range(0, limit), Identity) == [Lacking(limit, k)]
  {
    forall v | 0 <= v < limit && v != Lacking(limit, k)
      ensures HasKey(Window(limit, k), Identity, v)
    {
      WindowHas(limit, k, v);
    }
    WindowLacks(limit, k);
    OnlyMissing(Window(limit, k), limit, Lacking(limit, k));
  }

  lemma WindowStep(limit: nat, k: nat)
    requires k < limit
    ensures Append(Window(limit, k), Range(0, limit), Identity, limit) == Window(limit, k + 1)
  {
    WindowDistinct(limit, k);
    WindowMissing(limit, k);
    AppendForm(Window(limit, k), Range(0, limit), Identity, limit);
    assert Lacking(limit, k) == Stream(limit, k + limit);
    assert Window(limit, k + 1) == (Window(limit, k) + [Stream(limit, k + limit)])[1..];
  }

  lemma WindowNotFixed(limit: nat, k: nat)
    requires k < limit
    ensures !Fixed(Window(limit, k), Range(0, limit), Identity, limit)
  {
    WindowDistinct(limit, k);
    WindowLacks(limit, k);
    assert Range(0, limit)[Lacking(limit, k)] == Lacking(limit, k);
    FixedIffKnows(Window(limit, k), Range(0, limit), Identity, limit);
  }

  /** `limit` deliveries can be necessary. */
  lemma BoundAttained(limit: nat)
    requires limit > 0
    ensures var states := seq(limit + 1, k requires 0 <= k <= limit => Window(limit, k));
            && IsReplay(states, Range(0, limit), Identity, limit)
            && Normal(states[0], Identity, limit)
            && |Keys(Range(0, limit), Identity)| == limit
            && Fixed(states[limit], Range(0, limit), Identity, limit)
            && forall k :: 0 <= k < limit ==> !Fixed(states[k], Range(0, limit), Identity, limit)
  {
    var states := seq(limit + 1, k requires 0 <= k <= limit => Window(limit, k));
    var incoming := Range(0, limit);
    KeysSize(incoming, Identity);
    forall k | 0 <= k < limit
      ensures states[k + 1] == Append(states[k], incoming, Identity, limit)
      ensures !Fixed(states[k], incoming, Identity, limit)
    {
      WindowStep(limit, k);
      WindowNotFixed(limit, k);
    }
    WindowDistinct(limit, 0);
    ConvergesBy(states, incoming, Identity, limit, limit);
  }
}
