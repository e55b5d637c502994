/** The per-second timeline of a load run and the quorum gate that reads it. */
module Timeline {
  const SECOND: int := 1_000_000_000

  /** One finished RPC; times are in nanoseconds. */
  datatype Outcome = Outcome(finished: int, success: bool)

  datatype Bucket = Bucket(succeeded: nat, failed: nat)

  /** Go's integer division truncates toward zero. */
  function TruncatedQuotient(a: int, b: int): int
    requires b > 0
  {
    if a >= 0 then a / b else -((-a) / b)
  }

  /** The quotient of greatest magnitude that does not overshoot. */
  lemma TruncatesTowardZero(a: int, b: int)
    requires b > 0
    ensures a >= 0 ==> b * TruncatedQuotient(a, b) <= a < b * TruncatedQuotient(a, b) + b
    ensures TruncatedQuotient(-a, b) == -TruncatedQuotient(a, b)
  {
    assert b * (a / b) + a % b == a;
    assert 0 / b == 0;
  }

  function SecondOf(started: int, o: Outcome): int {
    TruncatedQuotient(o.finished - started, SECOND)
  }

  /** How many outcomes fell into a second with the given result. */
  ghost function Count(log: seq<Outcome>, started: int, second: int, success: bool): nat {
    if log == [] then 0
    else
      var last := |log| - 1;
      Count(log[..last], started, second, success) +
      (if SecondOf(started, log[last]) == second && log[last].success == success then 1 else 0)
  }

  ghost function CountWithin(log: seq<Outcome>, started: int, within: int -> bool, success: bool): nat {
    if log == [] then 0
    else
      var last := |log| - 1;
      CountWithin(log[..last], started, within, success) +
      (if within(SecondOf(started, log[last])) && log[last].success == success then 1 else 0)
  }

  function BucketAt(seconds: map<int, Bucket>, second: int): Bucket {
    if second in seconds then seconds[second] else Bucket(0, 0)
  }

  /** The buckets count the log, second by second. */
  ghost predicate Tallies(seconds: map<int, Bucket>, log: seq<Outcome>, started: int) {
    && (forall second: int :: BucketAt(seconds, second) ==
          Bucket(Count(log, started, second, true), Count(log, started, second, false)))
    && (forall i :: 0 <= i < |log| ==> SecondOf(started, log[i]) in seconds)
  }

  lemma CountSnoc(log: seq<Outcome>, started: int, o: Outcome, second: int, success: bool)
    ensures Count(log + [o], started, second, success) ==
            Count(log, started, second, success) + (if SecondOf(started, o) == second && o.success == success then 1 else 0)
  {
    assert (log + [o])[..|log|] == log;
  }

  /** A worker's part of the timeline. */
  class Recorder {
    const started: int
    var rpcs: nat
    var succeeded: nat
    var seconds: map<int, Bucket>
    ghost var log: seq<Outcome>

    constructor (started: int)
      ensures Valid() && this.started == started && log == []
    {
      this.started := started;
      rpcs, succeeded, seconds, log := 0, 0, map[], [];
    }

    ghost predicate Valid()
      reads this
    {
      && rpcs == |log|
      && succeeded == CountWithin(log, started, _ => true, true)
      && Tallies(seconds, log, started)
    }

    /** The end of one iteration of `run`. */
    method Record(finished: int, success: bool)
      requires Valid()
      modifies this
      ensures Valid()
      ensures log == old(log) + [Outcome(finished, success)]
    {
      ghost var o := Outcome(finished, success);
      rpcs := rpcs + 1;
      var second := TruncatedQuotient(finished - started, SECOND);
      var sample := BucketAt(seconds, second);
      if success {
        succeeded := succeeded + 1;
        seconds := seconds[second := sample.(succeeded := sample.succeeded + 1)];
      } else {
        seconds := seconds[second := sample.(failed := sample.failed + 1)];
      }
      forall s: int, b: bool {
        CountSnoc(log, started, o, s, b);
      }
      assert (log + [o])[..|log|] == log;
      log := log + [o];
    }
  }

  lemma {:induction false} CountConcat(a: seq<Outcome>, b: seq<Outcome>, started: int, second: int, success: bool)
    ensures Count(a + b, started, second, success) == Count(a, started, second, success) + Count(b, started, second, success)
    decreases |b|
  {
    if b == [] {
      assert a + b == a;
    } else {
      var last := |b| - 1;
      CountConcat(a, b[..last], started, second, success);
      CountSnoc(a + b[..last], started, b[last], second, success);
      assert a + b == (a + b[..last]) + [b[last]];
    }
  }

  lemma SomeSecond(seconds: set<int>)
    requires seconds != {}
    ensures exists second :: second in seconds
  {
    assert (forall second :: second !in seconds) ==> seconds == {};
  }

  /** Adds one worker's seconds to the combined ones, in any order. */
  method Merge(combined: map<int, Bucket>, entry: map<int, Bucket>, started: int, ghost before: seq<Outcome>, ghost log: seq<Outcome>)
    returns (merged: map<int, Bucket>)
    requires Tallies(combined, before, started) && Tallies(entry, log, started)
    ensures Tallies(merged, before + log, started)
  {
    merged := combined;
    var left := entry.Keys;
    while left != {}
      invariant left <= entry.Keys
      invariant forall s: int :: BucketAt(merged, s) ==
                  if s in entry.Keys - left
                  then Bucket(BucketAt(combined, s).succeeded + BucketAt(entry, s).succeeded, BucketAt(combined, s).failed + BucketAt(entry, s).failed)
                  else BucketAt(combined, s)
      invariant combined.Keys + (entry.Keys - left) <= merged.Keys
      decreases left
    {
      SomeSecond(left);
      var second :| second in left;
      var sample, sum := entry[second], BucketAt(merged, second);
      merged := merged[second := Bucket(sum.succeeded + sample.succeeded, sum.failed + sample.failed)];
      left := left - {second};
    }
    forall s: int, b: bool {
      CountConcat(before, log, started, s, b);
    }
  }

  /** Everything the workers did, one worker after the other. */
  ghost function AllOutcomes(workers: seq<Recorder>): seq<Outcome>
    reads workers
  {
    if workers == [] then [] else AllOutcomes(workers[..|workers| - 1]) + workers[|workers| - 1].log
  }

  /** `execute`: the totals and the timeline of all workers together. */
  method Combine(workers: seq<Recorder>, started: int) returns (rpcs: nat, succeeded: nat, seconds: map<int, Bucket>)
    requires forall w :: 0 <= w < |workers| ==> workers[w].Valid() && workers[w].started == started
    ensures rpcs == |AllOutcomes(workers)|
    ensures succeeded == CountWithin(AllOutcomes(workers), started, _ => true, true)
    ensures Tallies(seconds, AllOutcomes(workers), started)
  {
    rpcs, succeeded, seconds := 0, 0, map[];
    var w := 0;
    while w < |workers|
      invariant 0 <= w <= |workers|
      invariant rpcs == |AllOutcomes(workers[..w])|
      invariant succeeded == CountWithin(AllOutcomes(workers[..w]), started, _ => true, true)
      invariant Tallies(seconds, AllOutcomes(workers[..w]), started)
    {
      ghost var before, log := AllOutcomes(workers[..w]), workers[w].log;
      assert AllOutcomes(workers[..w + 1]) == before + log by {
        assert workers[..w + 1][..w] == workers[..w];
      }
      CountWithinConcat(before, log, started, _ => true, true);
      rpcs := rpcs + workers[w].rpcs;
      succeeded := succeeded + workers[w].succeeded;
      seconds := Merge(seconds, workers[w].seconds, started, before, log);
      w := w + 1;
    }
    assert workers[..|workers|] == workers;
  }

  lemma {:induction false} CountWithinConcat(a: seq<Outcome>, b: seq<Outcome>, started: int, within: int -> bool, success: bool)
    ensures CountWithin(a + b, started, within, success) ==
            CountWithin(a, started, within, success) + CountWithin(b, started, within, success)
    decreases |b|
  {
    if b == [] {
      assert a + b == a;
    } else {
      var last := |b| - 1;
      CountWithinConcat(a, b[..last], started, within, success);
      assert (a + b)[..|a| + last] == a + b[..last];
    }
  }

  // ---- sums over the report's rows -----------------------------------------------

  datatype Row = Row(second: int, succeeded: nat, failed: nat)

  /** The rows of the report: every bucket once, in any order. */
  ghost predicate Lists(rows: seq<Row>, seconds: map<int, Bucket>) {
    && (forall i, j :: 0 <= i < j < |rows| ==> rows[i].second != rows[j].second)
    && (forall i :: 0 <= i < |rows| ==>
          rows[i].second in seconds && seconds[rows[i].second] == Bucket(rows[i].succeeded, rows[i].failed))
    && (forall second: int :: second in seconds ==> HasRow(rows, second))
  }

  ghost predicate HasRow(rows: seq<Row>, second: int) {
    exists i :: 0 <= i < |rows| && rows[i].second == second
  }

  function Sum(rows: seq<Row>, within: int -> bool, success: bool): nat {
    if rows == [] then 0
    else
      var last := |rows| - 1;
      Sum(rows[..last], within, success) +
      (if within(rows[last].second) then (if success then rows[last].succeeded else rows[last].failed) else 0)
  }

  /** The same sum, from the log instead of the rows. */
  ghost function Counted(rows: seq<Row>, log: seq<Outcome>, started: int, within: int -> bool, success: bool): nat {
    if rows == [] then 0
    else
      var last := |rows| - 1;
      Counted(rows[..last], log, started, within, success) +
      (if within(rows[last].second) then Count(log, started, rows[last].second, success) else 0)
  }

  lemma {:induction false} SumIsCounted(rows: seq<Row>, log: seq<Outcome>, started: int, within: int -> bool, success: bool)
    requires forall i :: 0 <= i < |rows| ==>
               && rows[i].succeeded == Count(log, started, rows[i].second, true)
               && rows[i].failed == Count(log, started, rows[i].second, false)
    ensures Sum(rows, within, success) == Counted(rows, log, started, within, success)
  {
    if rows != [] {
      SumIsCounted(rows[..|rows| - 1], log, started, within, success);
    }
  }

  lemma {:induction false} CountedEmpty(rows: seq<Row>, started: int, within: int -> bool, success: bool)
    ensures Counted(rows, [], started, within, success) == 0
  {
    if rows != [] {
      CountedEmpty(rows[..|rows| - 1], started, within, success);
    }
  }

  /** One more outcome raises the count of exactly one row. */
  lemma {:induction false} CountedSnoc(rows: seq<Row>, log: seq<Outcome>, o: Outcome, started: int, within: int -> bool, success: bool)
    requires forall i, j :: 0 <= i < j < |rows| ==> rows[i].second != rows[j].second
    ensures Counted(rows, log + [o], started, within, success) == Counted(rows, log, started, within, success) +
              (if HasRow(rows, SecondOf(started, o)) && within(SecondOf(started, o)) && o.success == success then 1 else 0)
  {
    if rows != [] {
      var last := |rows| - 1;
      var second := SecondOf(started, o);
      CountedSnoc(rows[..last], log, o, started, within, success);
      CountSnoc(log, started, o, rows[last].second, success);
      HasRowSplit(rows, second);
    }
  }

  lemma HasRowSplit(rows: seq<Row>, second: int)
    requires rows != [] && forall i, j :: 0 <= i < j < |rows| ==> rows[i].second != rows[j].second
    ensures HasRow(rows, second) <==> HasRow(rows[..|rows| - 1], second) || rows[|rows| - 1].second == second
    ensures !(HasRow(rows[..|rows| - 1], second) && rows[|rows| - 1].second == second)
  {
    var rest := rows[..|rows| - 1];
    assert forall i :: 0 <= i < |rest| ==> rest[i] == rows[i];
  }

  lemma {:induction false} CountedAll(rows: seq<Row>, log: seq<Outcome>, started: int, within: int -> bool, success: bool)
    requires forall i, j :: 0 <= i < j < |rows| ==> rows[i].second != rows[j].second
    requires forall i :: 0 <= i < |log| ==> HasRow(rows, SecondOf(started, log[i]))
    ensures Counted(rows, log, started, within, success) == CountWithin(log, started, within, success)
    decreases |log|
  {
    if log == [] {
      CountedEmpty(rows, started, within, success);
    } else {
      var last := |log| - 1;
      CountedAll(rows, log[..last], started, within, success);
      CountedSnoc(rows, log[..last], log[last], started, within, success);
      assert log == log[..last] + [log[last]];
    }
  }

  lemma RowsCount(rows: seq<Row>, seconds: map<int, Bucket>, log: seq<Outcome>, started: int, i: int)
    requires Lists(rows, seconds) && Tallies(seconds, log, started) && 0 <= i < |rows|
    ensures rows[i].succeeded == Count(log, started, rows[i].second, true)
    ensures rows[i].failed == Count(log, started, rows[i].second, false)
  {
    assert BucketAt(seconds, rows[i].second) == Bucket(rows[i].succeeded, rows[i].failed);
  }

  /** Over any set of seconds the rows add up to the RPCs that finished in it. */
  lemma Conservation(rows: seq<Row>, seconds: map<int, Bucket>, log: seq<Outcome>, started: int, within: int -> bool, success: bool)
    requires Lists(rows, seconds) && Tallies(seconds, log, started)
    ensures Sum(rows, within, success) == CountWithin(log, started, within, success)
  {
    forall i | 0 <= i < |rows|
      ensures rows[i].succeeded == Count(log, started, rows[i].second, true)
      ensures rows[i].failed == Count(log, started, rows[i].second, false)
    {
      RowsCount(rows, seconds, log, started, i);
    }
    SumIsCounted(rows, log, started, within, success);
    CountedAll(rows, log, started, within, success);
  }

  lemma {:induction false} CountAll(log: seq<Outcome>, started: int)
    ensures CountWithin(log, started, _ => true, true) + CountWithin(log, started, _ => true, false) == |log|
  {
    if log != [] {
      CountAll(log[..|log| - 1], started);
    }
  }

  /** The whole timeline adds up to the RPCs and the successes of the report. */
  lemma TotalsConserved(rows: seq<Row>, seconds: map<int, Bucket>, log: seq<Outcome>, started: int)
    requires Lists(rows, seconds) && Tallies(seconds, log, started)
    ensures Sum(rows, _ => true, true) == CountWithin(log, started, _ => true, true)
    ensures Sum(rows, _ => true, true) + Sum(rows, _ => true, false) == |log|
  {
    var all := (second: int) => true;
    Conservation(rows, seconds, log, started, all, true);
    Conservation(rows, seconds, log, started, all, false);
    CountWithinAgree(log, started, all, _ => true, true);
    CountWithinAgree(log, started, all, _ => true, false);
    SumAgree(rows, all, _ => true, true);
    SumAgree(rows, all, _ => true, false);
    CountAll(log, started);
  }

  lemma {:induction false} CountWithinAgree(log: seq<Outcome>, started: int, p: int -> bool, q: int -> bool, success: bool)
    requires forall i :: 0 <= i < |log| ==> p(SecondOf(started, log[i])) == q(SecondOf(started, log[i]))
    ensures CountWithin(log, started, p, success) == CountWithin(log, started, q, success)
  {
    if log != [] {
      CountWithinAgree(log[..|log| - 1], started, p, q, success);
    }
  }

  lemma {:induction false} SumAgree(rows: seq<Row>, p: int -> bool, q: int -> bool, success: bool)
    requires forall i :: 0 <= i < |rows| ==> p(rows[i].second) == q(rows[i].second)
    ensures Sum(rows, p, success) == Sum(rows, q, success)
  {
    if rows != [] {
      SumAgree(rows[..|rows| - 1], p, q, success);
    }
  }
}
