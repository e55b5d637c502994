/** Load settings: how keys are rounded up, shared out among the workers and
    visited in turn. */
module PerfSettings {
  class Settings {
    const concurrency: int
    const hotKeys: int
    const batch: int
    const upsert: bool
    /** The outcome of the checks on fields that do not concern keys. */
    const otherLimits: bool
    var keys: int

    constructor (concurrency: int, keys: int, hotKeys: int, batch: int, upsert: bool, otherLimits: bool)
      ensures this.concurrency == concurrency && this.keys == keys && this.hotKeys == hotKeys
      ensures this.batch == batch && this.upsert == upsert && this.otherLimits == otherLimits
    {
      this.concurrency, this.keys, this.hotKeys := concurrency, keys, hotKeys;
      this.batch, this.upsert, this.otherLimits := batch, upsert, otherLimits;
    }

    predicate Acceptable()
      reads this
    {
      && otherLimits
      && 1 <= concurrency <= 4096 && 1 <= batch <= 1000 && 1 <= keys <= 1_000_000
      && 0 <= hotKeys <= 1_000_000
      && (hotKeys > 0 ==> !upsert && batch <= hotKeys)
    }

    /** `validateSettings`: rounds the number of keys up in place. */
    method Validate() returns (ok: bool)
      modifies `keys
      ensures ok <==> old(Acceptable())
      ensures ok && hotKeys > 0 ==> keys == hotKeys
      ensures ok && hotKeys == 0 ==> RoundedUp(old(keys), concurrency, batch, keys)
      ensures ok ==> Valid(keys, concurrency, hotKeys > 0, batch)
    {
      if !otherLimits {
        return false;
      }
      if concurrency < 1 || concurrency > 4096 || batch < 1 || batch > 1000 || keys < 1 || keys > 1_000_000 || hotKeys < 0 {
        return false;
      }
      if hotKeys > 0 && upsert {
        return false;
      }
      if hotKeys > 1_000_000 {
        return false;
      }
      if hotKeys > 0 {
        keys := hotKeys;
      } else {
        var ceiling := (keys + concurrency - 1) / concurrency;
        var perWorker := if batch < ceiling then ceiling else batch;
        RoundingUp(keys, concurrency, batch, perWorker);
        keys := perWorker * concurrency;
      }
      if batch > keys {
        return false;
      }
      return true;
    }
  }

  /** `keys` is the least multiple of `concurrency` that is at least `wanted` and
      gives every worker a full batch of keys of its own. */
  ghost predicate RoundedUp(wanted: int, concurrency: int, batch: int, keys: int)
    requires concurrency > 0
  {
    && keys % concurrency == 0
    && wanted <= keys && batch <= keys / concurrency
    && forall fewer: int :: fewer % concurrency == 0 && wanted <= fewer && batch <= fewer / concurrency ==> keys <= fewer
  }

  lemma Multiple(a: int, c: int)
    requires c > 0
    ensures (a * c) % c == 0 && (a * c) / c == a
  {
    DivUnique(a * c, c, a, 0);
  }

  lemma MulOrder(a: int, b: int, c: int)
    requires a <= b && c >= 0
    ensures a * c <= b * c
  {
  }

  lemma DivUnique(x: int, c: int, q: int, r: int)
    requires c > 0 && x == q * c + r && 0 <= r < c
    ensures x / c == q && x % c == r
  {
    var d := x / c - q;
    assert x == (x / c) * c + x % c;
    assert d * c == r - x % c;
    if d >= 1 {
      MulOrder(1, d, c);
    } else if d <= -1 {
      MulOrder(d, -1, c);
    }
  }

  lemma DivMonotone(a: int, b: int, c: int)
    requires a <= b && c > 0
    ensures a / c <= b / c
  {
    if a / c > b / c {
      MulOrder(b / c + 1, a / c, c);
    }
  }

  /** `(x + c - 1) / c` rounds up. */
  lemma Ceiling(x: int, c: int, each: int)
    requires c > 0
    ensures x <= each * c <==> (x + c - 1) / c <= each
  {
    DivUnique(each * c + (c - 1), c, each, c - 1);
    if x <= each * c {
      DivMonotone(x + c - 1, each * c + (c - 1), c);
    } else {
      assert (each + 1) * c == each * c + c;
      DivUnique((each + 1) * c, c, each + 1, 0);
      DivMonotone((each + 1) * c, x + c - 1, c);
    }
  }

  lemma LeastRounding(wanted: int, concurrency: int, batch: int, perWorker: int, other: int)
    requires concurrency >= 1
    requires perWorker <= batch || perWorker <= (wanted + concurrency - 1) / concurrency
    requires other % concurrency == 0 && wanted <= other && batch <= other / concurrency
    ensures perWorker * concurrency <= other
  {
    var each := other / concurrency;
    Ceiling(wanted, concurrency, each);
    MulOrder(perWorker, each, concurrency);
  }

  lemma RoundingUp(wanted: int, concurrency: int, batch: int, perWorker: int)
    requires wanted >= 1 && concurrency >= 1 && batch >= 1
    requires var ceiling := (wanted + concurrency - 1) / concurrency;
             perWorker == if batch < ceiling then ceiling else batch
    ensures RoundedUp(wanted, concurrency, batch, perWorker * concurrency)
    ensures perWorker * concurrency >= batch
    ensures (perWorker * concurrency) / concurrency == perWorker
  {
    Multiple(perWorker, concurrency);
    Ceiling(wanted, concurrency, perWorker);
    MulOrder(1, concurrency, perWorker);
    forall fewer: int | fewer % concurrency == 0 && wanted <= fewer && batch <= fewer / concurrency
      ensures perWorker * concurrency <= fewer
    {
      LeastRounding(wanted, concurrency, batch, perWorker, fewer);
    }
  }

  /** What every part of the generator relies on after validation. */
  ghost predicate Valid(keys: int, concurrency: int, hot: bool, batch: int) {
    && concurrency >= 1 && batch >= 1 && keys >= 1
    && batch <= LocalKeys(keys, concurrency, hot)
    && (!hot ==> keys == LocalKeys(keys, concurrency, hot) * concurrency)
  }

  // ---- who owns which key ------------------------------------------------------

  /** How many keys each worker has. */
  function LocalKeys(keys: int, concurrency: int, hot: bool): int
    requires concurrency >= 1
  {
    if hot then keys else keys / concurrency
  }

  /** `execute`: the record behind a worker's local key. */
  function GlobalKey(worker: int, local: int, count: int, hot: bool): int {
    if hot then local else worker * count + local
  }

  /** `verify`: the local key of a record, out of range if the worker does not have it. */
  function LocalKey(worker: int, key: int, count: int, hot: bool): int {
    if hot then key else key - worker * count
  }

  predicate Owns(worker: int, key: int, count: int, hot: bool) {
    0 <= LocalKey(worker, key, count, hot) < count
  }

  /** `seed`: the writer a record is prepared for when keys are not shared. */
  function SeedWriter(key: int, count: int): int
    requires count > 0
  {
    key / count
  }

  lemma LocalGlobalInverse(worker: int, key: int, local: int, count: int, hot: bool)
    ensures GlobalKey(worker, local, count, hot) == key <==> LocalKey(worker, key, count, hot) == local
  {
  }

  /** Without hot keys the workers' key lists partition the records, and the three
      formulas name the same owner. */
  lemma OwnershipPartition(keys: int, concurrency: int, batch: int, key: int)
    requires Valid(keys, concurrency, false, batch) && 0 <= key < keys
    ensures var count := LocalKeys(keys, concurrency, false);
            && count > 0
            && 0 <= SeedWriter(key, count) < concurrency
            && forall worker: int :: Owns(worker, key, count, false) <==> worker == SeedWriter(key, count)
  {
    var count := LocalKeys(keys, concurrency, false);
    var owner := SeedWriter(key, count);
    assert key == owner * count + key % count;
    if owner >= concurrency {
      MulOrder(concurrency, owner, count);
    }
    forall worker: int
      ensures Owns(worker, key, count, false) <==> worker == owner
    {
      if Owns(worker, key, count, false) {
        DivUnique(key, count, worker, key - worker * count);
      }
    }
  }

  /** No worker reaches outside the records. */
  lemma GlobalInRange(keys: int, concurrency: int, hot: bool, batch: int, worker: int, local: int)
    requires Valid(keys, concurrency, hot, batch) && 0 <= worker < concurrency
    requires 0 <= local < LocalKeys(keys, concurrency, hot)
    ensures 0 <= GlobalKey(worker, local, LocalKeys(keys, concurrency, hot), hot) < keys
  {
    if !hot {
      var count := LocalKeys(keys, concurrency, hot);
      MulOrder(0, worker, count);
      MulOrder(worker, concurrency - 1, count);
      assert (concurrency - 1) * count == concurrency * count - count;
    }
  }

  // ---- visiting keys in turn -----------------------------------------------------

  /** The keys of RPC number `t`. */
  ghost predicate IsBatch(keys: seq<int>, t: nat, n: int, batch: int)
    requires n > 0
  {
    |keys| == batch && forall i :: 0 <= i < batch ==> keys[i] == (t * batch + i) % n
  }

  lemma ModShift(a: int, b: int, n: int)
    requires n > 0
    ensures (a % n + b) % n == (a + b) % n
  {
    var q := a / n;
    var s := (a % n + b) / n;
    assert a + b == (q + s) * n + (a % n + b) % n by {
      assert a == q * n + a % n;
      assert a % n + b == s * n + (a % n + b) % n;
      assert (q + s) * n == q * n + s * n;
    }
    DivUnique(a + b, n, q + s, (a % n + b) % n);
  }

  /** The key selection of `run`: `rpcs` batches over `n` local keys. */
  method SelectKeys(n: int, batch: int, rpcs: nat) returns (batches: seq<seq<int>>)
    requires 1 <= batch <= n
    ensures |batches| == rpcs
    ensures forall t: nat :: t < rpcs ==> IsBatch(batches[t], t, n, batch)
  {
    batches := [];
    var position := 0;
    var iteration := 0;
    while iteration < rpcs
      invariant 0 <= iteration <= rpcs && |batches| == iteration
      invariant position == (iteration * batch) % n
      invariant forall t: nat :: t < iteration ==> IsBatch(batches[t], t, n, batch)
    {
      var keys: seq<int> := [];
      var index := 0;
      while index < batch
        invariant 0 <= index <= batch && |keys| == index
        invariant forall i :: 0 <= i < index ==> keys[i] == (iteration * batch + i) % n
      {
        ModShift(iteration * batch, index, n);
        keys := keys + [(position + index) % n];
        index := index + 1;
      }
      ModShift(iteration * batch, batch, n);
      assert (iteration + 1) * batch == iteration * batch + batch;
      position := (position + batch) % n;
      batches := batches + [keys];
      iteration := iteration + 1;
    }
  }

  lemma SameResidue(x: int, y: int, n: int)
    requires n > 0 && x < y && x % n == y % n
    ensures y - x >= n
  {
    var d := y / n - x / n;
    assert y - x == d * n by {
      assert d * n == (y / n) * n - (x / n) * n;
    }
    if d >= 1 {
      MulOrder(1, d, n);
    } else {
      MulOrder(d, 0, n);
    }
  }

  /** The keys of one RPC are distinct. */
  lemma BatchDistinct(keys: seq<int>, t: nat, n: int, batch: int, i: int, j: int)
    requires 1 <= batch <= n && IsBatch(keys, t, n, batch) && 0 <= i < j < batch
    ensures keys[i] != keys[j]
  {
    if keys[i] == keys[j] {
      SameResidue(t * batch + i, t * batch + j, n);
    }
  }

  /** How often `k` occurs among the first `m` keys of the turn. */
  ghost function Occurrences(m: nat, n: int, k: int): nat
    requires n > 0
  {
    if m == 0 then 0 else Occurrences(m - 1, n, k) + (if (m - 1) % n == k then 1 else 0)
  }

  /** How often `k` occurs in a list of keys. */
  ghost function CountIn(keys: seq<int>, k: int): nat {
    if keys == [] then 0 else CountIn(keys[..|keys| - 1], k) + (if keys[|keys| - 1] == k then 1 else 0)
  }

  ghost function Visits(batches: seq<seq<int>>, k: int): nat {
    if batches == [] then 0 else Visits(batches[..|batches| - 1], k) + CountIn(batches[|batches| - 1], k)
  }

  lemma {:induction false} BatchOccurrences(keys: seq<int>, start: nat, n: int, k: int)
    requires n > 0 && forall i :: 0 <= i < |keys| ==> keys[i] == (start + i) % n
    ensures Occurrences(start + |keys|, n, k) == Occurrences(start, n, k) + CountIn(keys, k)
  {
    if keys != [] {
      BatchOccurrences(keys[..|keys| - 1], start, n, k);
    }
  }

  lemma {:induction false} VisitsAreOccurrences(batches: seq<seq<int>>, n: int, batch: int, k: int)
    requires 1 <= batch <= n
    requires forall t: nat :: t < |batches| ==> IsBatch(batches[t], t, n, batch)
    ensures 0 <= |batches| * batch
    ensures Visits(batches, k) == Occurrences(|batches| * batch, n, k)
  {
    if batches != [] {
      var last := |batches| - 1;
      VisitsAreOccurrences(batches[..last], n, batch, k);
      NextProduct(last, batch);
      assert IsBatch(batches[last], last, n, batch);
      BatchOccurrences(batches[last], last * batch, n, k);
    }
  }

  lemma NextProduct(t: nat, batch: nat)
    ensures 0 <= t * batch && t * batch + batch == (t + 1) * batch
  {
  }

  lemma DivModStep(m: int, n: int)
    requires n > 0
    ensures if (m - 1) % n + 1 < n then m / n == (m - 1) / n && m % n == (m - 1) % n + 1
            else m / n == (m - 1) / n + 1 && m % n == 0
  {
    var q, r := (m - 1) / n, (m - 1) % n;
    if r + 1 < n {
      DivUnique(m, n, q, r + 1);
    } else {
      assert (q + 1) * n == q * n + n;
      DivUnique(m, n, q + 1, 0);
    }
  }

  lemma CeilingShare(m: int, n: int)
    requires n > 0
    ensures (m + n - 1) / n == m / n + (if m % n == 0 then 0 else 1)
  {
    if m % n == 0 {
      DivUnique(m + n - 1, n, m / n, n - 1);
    } else {
      assert (m / n + 1) * n == (m / n) * n + n;
      DivUnique(m + n - 1, n, m / n + 1, m % n - 1);
    }
  }

  lemma {:induction false} OccurrencesShare(m: nat, n: int, k: int)
    requires 0 <= k < n
    ensures Occurrences(m, n, k) == m / n + (if k < m % n then 1 else 0)
  {
    if m == 0 {
      DivUnique(0, n, 0, 0);
    } else {
      OccurrencesShare(m - 1, n, k);
      DivModStep(m, n);
    }
  }

  /** After `T` RPCs of `B` operations over `n` keys every key was visited
      floor(TB/n) or ceil(TB/n) times. */
  lemma FairShare(batches: seq<seq<int>>, n: int, batch: int, k: int)
    requires 1 <= batch <= n && 0 <= k < n
    requires forall t: nat :: t < |batches| ==> IsBatch(batches[t], t, n, batch)
    ensures (|batches| * batch) / n <= Visits(batches, k) <= (|batches| * batch + n - 1) / n
  {
    VisitsAreOccurrences(batches, n, batch, k);
    OccurrencesShare(|batches| * batch, n, k);
    CeilingShare(|batches| * batch, n);
  }
}
