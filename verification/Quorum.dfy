/** The gate that judges a majority-loss run from its timeline, in exact arithmetic. */
module Quorum {
  import opened Timeline

  function Floor(a: int): int { a / SECOND }

  function Ceil(a: int): int { -((-a) / SECOND) }

  function FirstSecond(started: int, pause: int): int { Ceil(pause - started) + 3 }

  function LastSecond(started: int, resume: int): int { Floor(resume - started) - 1 }

  datatype Report = Report(started: int, verified: bool, operations: int, timeline: seq<Row>)

  datatype Complaint = NotReconciled | TooLittleLoad | NoWindow | SuccessWithoutMajority | NoRejection | NoRecovery

  datatype Verdict = Passed | Failed(complaint: Complaint)

  /** `[row for row in timeline if within(row["second"])]` */
  function Select(rows: seq<Row>, within: int -> bool): seq<Row> {
    if rows == [] then []
    else
      var last := |rows| - 1;
      Select(rows[..last], within) + (if within(rows[last].second) then [rows[last]] else [])
  }

  function Total(rows: seq<Row>, success: bool): nat {
    if rows == [] then 0
    else
      var last := |rows| - 1;
      Total(rows[..last], success) + (if success then rows[last].succeeded else rows[last].failed)
  }

  function Window(report: Report, pause: int, resume: int): int -> bool {
    second => FirstSecond(report.started, pause) <= second <= LastSecond(report.started, resume)
  }

  function Afterwards(report: Report, resume: int): int -> bool {
    second => second > LastSecond(report.started, resume) + 10
  }

  /** The assertions in their order. */
  function Check(report: Report, pause: int, resume: int): Verdict {
    var first, last := FirstSecond(report.started, pause), LastSecond(report.started, resume);
    var outage := Select(report.timeline, Window(report, pause, resume));
    var after := Select(report.timeline, Afterwards(report, resume));
    if !report.verified then Failed(NotReconciled)
    else if report.operations < 1000 then Failed(TooLittleLoad)
    else if last - first < 4 || outage == [] then Failed(NoWindow)
    else if Total(outage, true) != 0 then Failed(SuccessWithoutMajority)
    else if Total(outage, false) == 0 then Failed(NoRejection)
    else if Total(after, true) <= 100 then Failed(NoRecovery)
    else Passed
  }

  // ---- which RPCs a second of the timeline can hold --------------------------------

  lemma DivisionBounds(a: int)
    ensures SECOND * Floor(a) <= a < SECOND * Floor(a) + SECOND
    ensures a <= SECOND * Ceil(a) < a + SECOND
  {}

  /** RPCs end after the run began, so the truncation of the driver is a floor. */
  lemma SecondBounds(started: int, o: Outcome)
    requires started <= o.finished
    ensures SecondOf(started, o) == Floor(o.finished - started)
  {}

  /** A floor reaches `k` exactly when its argument reaches `k` seconds. */
  lemma FloorAtLeast(a: int, k: int)
    ensures k <= Floor(a) <==> SECOND * k <= a
  {
    DivisionBounds(a);
  }

  /** Seconds at or after `FirstSecond` begin at least three seconds after the pause. */
  lemma FirstBounds(started: int, pause: int)
    ensures pause + 3 * SECOND <= started + SECOND * FirstSecond(started, pause) < pause + 4 * SECOND
  {
    DivisionBounds(pause - started);
  }

  /** The second after `LastSecond` begins during the last second before the resume. */
  lemma LastBounds(started: int, resume: int)
    ensures resume - SECOND < started + SECOND * (LastSecond(started, resume) + 1) <= resume
  {
    DivisionBounds(resume - started);
  }

  /** Inside the window only RPCs from three seconds after the pause until the resume. */
  lemma WindowIsInside(report: Report, pause: int, resume: int, o: Outcome)
    requires report.started <= o.finished
    requires Window(report, pause, resume)(SecondOf(report.started, o))
    ensures pause + 3 * SECOND <= o.finished < resume
  {
    var first, last := FirstSecond(report.started, pause), LastSecond(report.started, resume);
    SecondBounds(report.started, o);
    FloorAtLeast(o.finished - report.started, first);
    FloorAtLeast(o.finished - report.started, last + 1);
    FirstBounds(report.started, pause);
    LastBounds(report.started, resume);
  }

  /** Every RPC from four seconds after the pause until one second before the resume is inside. */
  lemma WindowCovers(report: Report, pause: int, resume: int, o: Outcome)
    requires report.started <= o.finished
    requires pause + 4 * SECOND - 1 <= o.finished <= resume - SECOND
    ensures Window(report, pause, resume)(SecondOf(report.started, o))
  {
    var first, last := FirstSecond(report.started, pause), LastSecond(report.started, resume);
    SecondBounds(report.started, o);
    FloorAtLeast(o.finished - report.started, first);
    FloorAtLeast(o.finished - report.started, last + 1);
    FirstBounds(report.started, pause);
    LastBounds(report.started, resume);
  }

  lemma AfterwardsIsLate(report: Report, resume: int, o: Outcome)
    requires report.started <= o.finished
    requires Afterwards(report, resume)(SecondOf(report.started, o))
    ensures resume + 9 * SECOND < o.finished
  {
    var last := LastSecond(report.started, resume);
    SecondBounds(report.started, o);
    FloorAtLeast(o.finished - report.started, last + 11);
    LastBounds(report.started, resume);
  }

  lemma AfterwardsCovers(report: Report, resume: int, o: Outcome)
    requires report.started <= o.finished && resume + 10 * SECOND <= o.finished
    ensures Afterwards(report, resume)(SecondOf(report.started, o))
  {
    var last := LastSecond(report.started, resume);
    SecondBounds(report.started, o);
    FloorAtLeast(o.finished - report.started, last + 11);
    LastBounds(report.started, resume);
  }

  /** None of the four margins can be narrowed by a nanosecond. */
  lemma MarginsAreSharp()
    ensures Reaches(1, 20_000_000_000, 4_000_000_000) && !Reaches(1, 20_000_000_000, 3_999_999_999)
    ensures Reaches(0, 20_000_000_000, 3_000_000_000) && Reaches(0, 20_000_000_000, 19_999_999_999)
    ensures Reaches(0, 20_000_000_000, 19_000_000_000) && !Reaches(0, 19_999_999_999, 19_000_000_000)
  {
    ReachesAt(1, 20_000_000_000, 4_000_000_000, 1, 20, 4);
    ReachesAt(1, 20_000_000_000, 3_999_999_999, 1, 20, 3);
    ReachesAt(0, 20_000_000_000, 3_000_000_000, 0, 20, 3);
    ReachesAt(0, 20_000_000_000, 19_999_999_999, 0, 20, 19);
    ReachesAt(0, 20_000_000_000, 19_000_000_000, 0, 20, 19);
    ReachesAt(0, 19_999_999_999, 19_000_000_000, 0, 19, 19);
  }

  lemma ReachesAt(pause: int, resume: int, finished: int, p: int, r: int, f: int)
    requires 0 <= finished
    requires SECOND * p - SECOND < pause <= SECOND * p
    requires SECOND * r <= resume < SECOND * r + SECOND
    requires SECOND * f <= finished < SECOND * f + SECOND
    ensures Reaches(pause, resume, finished) <==> p + 3 <= f <= r - 1
  {
    FloorAtLeast(-pause, -p);
    FloorAtLeast(-pause, -p + 1);
    FloorAtLeast(resume, r);
    FloorAtLeast(resume, r + 1);
    FloorAtLeast(finished, f);
    FloorAtLeast(finished, f + 1);
    SecondBounds(0, Outcome(finished, true));
    assert Floor(-pause) == -p && Floor(resume) == r && Floor(finished) == f;
    assert FirstSecond(0, pause) == p + 3 && LastSecond(0, resume) == r - 1;
    assert SecondOf(0, Outcome(finished, true)) == f;
  }

  /** Whether an RPC is in the window of a run that began at time 0. */
  predicate Reaches(pause: int, resume: int, finished: int) {
    Window(Report(0, true, 1000, []), pause, resume)(SecondOf(0, Outcome(finished, true)))
  }

  // ---- the gate and the RPCs behind the report -------------------------------------

  lemma {:induction false} TotalOfSelected(rows: seq<Row>, within: int -> bool, success: bool)
    ensures Total(Select(rows, within), success) == Sum(rows, within, success)
  {
    if rows != [] {
      var last := |rows| - 1;
      TotalOfSelected(rows[..last], within, success);
      TotalSnoc(Select(rows[..last], within), rows[last], success);
      assert Select(rows[..last], within) + [] == Select(rows[..last], within);
    }
  }

  lemma TotalSnoc(rows: seq<Row>, row: Row, success: bool)
    ensures Total(rows + [row], success) == Total(rows, success) + (if success then row.succeeded else row.failed)
  {
    assert (rows + [row])[..|rows|] == rows;
  }

  /** The report of a load run whose RPCs are `log`. */
  ghost predicate Reports(report: Report, log: seq<Outcome>) {
    && (forall i :: 0 <= i < |log| ==> report.started <= log[i].finished)
    && exists seconds :: Tallies(seconds, log, report.started) && Lists(report.timeline, seconds)
  }

  lemma SelectedCount(report: Report, log: seq<Outcome>, within: int -> bool, success: bool)
    requires Reports(report, log)
    ensures Total(Select(report.timeline, within), success) == CountWithin(log, report.started, within, success)
  {
    var seconds :| Tallies(seconds, log, report.started) && Lists(report.timeline, seconds);
    Conservation(report.timeline, seconds, log, report.started, within, success);
    TotalOfSelected(report.timeline, within, success);
  }

  /** The gate passes exactly when the RPCs show a rejecting outage and a recovery. */
  lemma PassesIff(report: Report, log: seq<Outcome>, pause: int, resume: int)
    requires Reports(report, log)
    ensures Check(report, pause, resume) == Passed <==>
            && report.verified && report.operations >= 1000
            && LastSecond(report.started, resume) - FirstSecond(report.started, pause) >= 4
            && CountWithin(log, report.started, Window(report, pause, resume), true) == 0
            && CountWithin(log, report.started, Window(report, pause, resume), false) > 0
            && CountWithin(log, report.started, Afterwards(report, resume), true) > 100
  {
    SelectedCount(report, log, Window(report, pause, resume), true);
    SelectedCount(report, log, Window(report, pause, resume), false);
    SelectedCount(report, log, Afterwards(report, resume), true);
  }

  /** A failed gate complains about the first of its demands that the run does not meet. */
  lemma ComplaintIsFirst(report: Report, log: seq<Outcome>, pause: int, resume: int)
    requires Reports(report, log)
    ensures var verdict := Check(report, pause, resume);
            var successes := CountWithin(log, report.started, Window(report, pause, resume), true);
            var failures := CountWithin(log, report.started, Window(report, pause, resume), false);
            var short := LastSecond(report.started, resume) - FirstSecond(report.started, pause) < 4;
            && (verdict == Failed(NotReconciled) <==> !report.verified)
            && (verdict == Failed(TooLittleLoad) <==> report.verified && report.operations < 1000)
            && (verdict == Failed(SuccessWithoutMajority) ==> successes > 0 && !short)
            && (verdict == Failed(NoRejection) ==> successes == 0 && failures == 0 && !short)
            && (verdict == Failed(NoRecovery) <==>
                && report.verified && report.operations >= 1000 && !short && successes == 0 && failures > 0
                && CountWithin(log, report.started, Afterwards(report, resume), true) <= 100)
            && (verdict == Failed(NoWindow) ==> short || (successes == 0 && failures == 0))
  {
    SelectedCount(report, log, Window(report, pause, resume), true);
    SelectedCount(report, log, Window(report, pause, resume), false);
    SelectedCount(report, log, Afterwards(report, resume), true);
  }

  /** How many RPCs with a result finished in [from, until). */
  ghost function Finishing(log: seq<Outcome>, from: int, until: int, success: bool): nat {
    if log == [] then 0
    else
      var last := |log| - 1;
      Finishing(log[..last], from, until, success) +
      (if from <= log[last].finished < until && log[last].success == success then 1 else 0)
  }

  lemma {:induction false} CountAtMost(log: seq<Outcome>, started: int, within: int -> bool, from: int, until: int, success: bool)
    requires forall i :: 0 <= i < |log| && within(SecondOf(started, log[i])) ==> from <= log[i].finished < until
    ensures CountWithin(log, started, within, success) <= Finishing(log, from, until, success)
  {
    if log != [] {
      CountAtMost(log[..|log| - 1], started, within, from, until, success);
    }
  }

  lemma {:induction false} CountAtLeast(log: seq<Outcome>, started: int, within: int -> bool, from: int, until: int, success: bool)
    requires forall i :: 0 <= i < |log| && from <= log[i].finished < until ==> within(SecondOf(started, log[i]))
    ensures CountWithin(log, started, within, success) >= Finishing(log, from, until, success)
  {
    if log != [] {
      CountAtLeast(log[..|log| - 1], started, within, from, until, success);
    }
  }

  /** What a pass says about the run: silence, rejections and recovery at these times. */
  lemma PassMeans(report: Report, log: seq<Outcome>, pause: int, resume: int, end: int)
    requires Reports(report, log) && forall i :: 0 <= i < |log| ==> log[i].finished < end
    requires Check(report, pause, resume) == Passed
    ensures report.verified && report.operations >= 1000
    ensures resume - pause >= 8 * SECOND
    ensures Finishing(log, pause + 4 * SECOND, resume - SECOND, true) == 0
    ensures Finishing(log, pause + 3 * SECOND, resume, false) > 0
    ensures Finishing(log, resume + 9 * SECOND, end, true) > 100
  {
    PassesIff(report, log, pause, resume);
    WindowCounts(report, log, pause, resume, true);
    WindowCounts(report, log, pause, resume, false);
    AfterwardsCounts(report, log, resume, end);
    FirstBounds(report.started, pause);
    LastBounds(report.started, resume);
  }

  /** A run with a long outage, no success in it and a lively end passes. */
  lemma OutagePasses(report: Report, log: seq<Outcome>, pause: int, resume: int, end: int)
    requires Reports(report, log) && forall i :: 0 <= i < |log| ==> log[i].finished < end
    requires report.verified && report.operations >= 1000
    requires resume - pause >= 9 * SECOND
    requires Finishing(log, pause + 3 * SECOND, resume, true) == 0
    requires Finishing(log, pause + 4 * SECOND, resume - SECOND, false) > 0
    requires Finishing(log, resume + 10 * SECOND, end, true) > 100
    ensures Check(report, pause, resume) == Passed
  {
    PassesIff(report, log, pause, resume);
    WindowCounts(report, log, pause, resume, true);
    WindowCounts(report, log, pause, resume, false);
    AfterwardsCounts(report, log, resume, end);
    FirstBounds(report.started, pause);
    LastBounds(report.started, resume);
  }

  lemma WindowCounts(report: Report, log: seq<Outcome>, pause: int, resume: int, success: bool)
    requires forall i :: 0 <= i < |log| ==> report.started <= log[i].finished
    ensures Finishing(log, pause + 4 * SECOND, resume - SECOND, success) <=
            CountWithin(log, report.started, Window(report, pause, resume), success) <=
            Finishing(log, pause + 3 * SECOND, resume, success)
  {
    var within := Window(report, pause, resume);
    forall i | 0 <= i < |log| && within(SecondOf(report.started, log[i]))
      ensures pause + 3 * SECOND <= log[i].finished < resume
    {
      WindowIsInside(report, pause, resume, log[i]);
    }
    forall i | 0 <= i < |log| && pause + 4 * SECOND <= log[i].finished < resume - SECOND
      ensures within(SecondOf(report.started, log[i]))
    {
      WindowCovers(report, pause, resume, log[i]);
    }
    CountAtMost(log, report.started, within, pause + 3 * SECOND, resume, success);
    CountAtLeast(log, report.started, within, pause + 4 * SECOND, resume - SECOND, success);
  }

  lemma AfterwardsCounts(report: Report, log: seq<Outcome>, resume: int, end: int)
    requires forall i :: 0 <= i < |log| ==> report.started <= log[i].finished < end
    ensures Finishing(log, resume + 10 * SECOND, end, true) <=
            CountWithin(log, report.started, Afterwards(report, resume), true) <=
            Finishing(log, resume + 9 * SECOND, end, true)
  {
    var within := Afterwards(report, resume);
    forall i | 0 <= i < |log| && within(SecondOf(report.started, log[i]))
      ensures resume + 9 * SECOND <= log[i].finished < end
    {
      AfterwardsIsLate(report, resume, log[i]);
    }
    forall i | 0 <= i < |log| && resume + 10 * SECOND <= log[i].finished < end
      ensures within(SecondOf(report.started, log[i]))
    {
      AfterwardsCovers(report, resume, log[i]);
    }
    CountAtMost(log, report.started, within, resume + 9 * SECOND, end, true);
    CountAtLeast(log, report.started, within, resume + 10 * SECOND, end, true);
  }
}
