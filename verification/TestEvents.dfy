/** The gate over the event stream of `go test -json`. */
module TestEvents {
  import opened Options

  /** One decoded event, or whatever the decoder could not read. */
  datatype Item =
    | Event(action: string, package: string, test: string)
    | Malformed

  datatype Verdict =
    | Accepted
    | Undecodable
    | Contains(action: string, key: string)
    | PassWithoutRun(key: string)
    | NothingRan
    | OpenPackage(package: string)
    | OpenTest(key: string)
    | NotPassed(name: string)

  function Key(e: Item): string
    requires e.Event?
  {
    e.package + "/" + e.test
  }

  predicate IsRun(e: Item, key: string) { e.Event? && e.action == "run" && Key(e) == key }

  predicate IsTestPass(e: Item) { e.Event? && e.action == "pass" && e.test != "" }

  predicate IsPass(e: Item, key: string) { IsTestPass(e) && Key(e) == key }

  predicate Names(e: Item, test: string) { IsTestPass(e) && e.test == test }

  predicate IsStart(e: Item, package: string) { e.Event? && e.action == "start" && e.package == package }

  predicate IsPackagePass(e: Item, package: string) {
    e.Event? && e.action == "pass" && e.test == "" && e.package == package
  }

  predicate IsForbidden(e: Item) { e.Event? && e.action in {"skip", "fail", "build-fail"} }

  // ---- what an acceptable trace is --------------------------------------------------

  ghost predicate Ran(trace: seq<Item>, key: string) {
    exists i :: 0 <= i < |trace| && IsRun(trace[i], key)
  }

  /** The event at `i` can be read, is not a failure, and passes only what has run. */
  ghost predicate Proper(trace: seq<Item>, i: nat)
    requires i < |trace|
  {
    trace[i].Event? && !IsForbidden(trace[i]) && (IsTestPass(trace[i]) ==> Ran(trace[..i], Key(trace[i])))
  }

  ghost predicate Clean(trace: seq<Item>) {
    forall i :: 0 <= i < |trace| ==> Proper(trace, i)
  }

  ghost predicate PassedFrom(trace: seq<Item>, i: nat, key: string) {
    exists j :: i < j < |trace| && IsPass(trace[j], key)
  }

  /** The last run of the key is followed by a pass: every run is. */
  ghost predicate TestClosed(trace: seq<Item>, key: string) {
    forall i :: 0 <= i < |trace| && IsRun(trace[i], key) ==> PassedFrom(trace, i, key)
  }

  ghost predicate PackagePassedFrom(trace: seq<Item>, i: nat, package: string) {
    exists j :: i < j < |trace| && IsPackagePass(trace[j], package)
  }

  ghost predicate PackageClosed(trace: seq<Item>, package: string) {
    forall i :: 0 <= i < |trace| && IsStart(trace[i], package) ==> PackagePassedFrom(trace, i, package)
  }

  ghost predicate SomeTestPass(trace: seq<Item>) {
    exists i :: 0 <= i < |trace| && IsTestPass(trace[i])
  }

  ghost predicate Mentions(trace: seq<Item>, package: string) {
    exists i :: 0 <= i < |trace| && (IsStart(trace[i], package) || IsPackagePass(trace[i], package))
  }

  ghost predicate SomePackage(trace: seq<Item>) {
    exists package :: Mentions(trace, package)
  }

  ghost predicate TestPassed(trace: seq<Item>, test: string) {
    exists i :: 0 <= i < |trace| && Names(trace[i], test)
  }

  /** The declarative meaning of the gate. */
  ghost predicate Acceptable(trace: seq<Item>, required: seq<string>) {
    && Clean(trace)
    && SomeTestPass(trace)
    && SomePackage(trace)
    && (forall package :: PackageClosed(trace, package))
    && (forall key :: TestClosed(trace, key))
    && (forall i :: 0 <= i < |required| ==> TestPassed(trace, required[i]))
  }

  /** What the reported reason says is so. */
  ghost predicate Justified(verdict: Verdict, trace: seq<Item>, required: seq<string>) {
    match verdict
    case Accepted => Acceptable(trace, required)
    case Undecodable => exists i :: 0 <= i < |trace| && trace[i] == Malformed && Clean(trace[..i])
    case Contains(action, key) =>
      exists i :: 0 <= i < |trace| && IsForbidden(trace[i]) && trace[i].action == action && Key(trace[i]) == key && Clean(trace[..i])
    case PassWithoutRun(key) =>
      exists i :: 0 <= i < |trace| && IsPass(trace[i], key) && !Ran(trace[..i], key) && Clean(trace[..i])
    case NothingRan => Clean(trace) && !(SomeTestPass(trace) && SomePackage(trace))
    case OpenPackage(package) => Clean(trace) && !PackageClosed(trace, package)
    case OpenTest(key) => Clean(trace) && !TestClosed(trace, key)
    case NotPassed(name) => Clean(trace) && name in required && !TestPassed(trace, name)
  }

  /** `started` after reading `trace`: the keys that ran, and whether each is closed. */
  ghost predicate TracksTests(started: map<string, bool>, trace: seq<Item>) {
    && (forall key :: key in started <==> Ran(trace, key))
    && (forall key :: key in started ==> (started[key] <==> TestClosed(trace, key)))
  }

  ghost predicate TracksPackages(packages: map<string, bool>, trace: seq<Item>) {
    && (forall package :: package in packages <==> Mentions(trace, package))
    && (forall package :: package in packages ==> (packages[package] <==> PackageClosed(trace, package)))
  }

  ghost predicate TracksPasses(passed: map<string, bool>, tests: nat, trace: seq<Item>) {
    && (forall test :: test in passed <==> TestPassed(trace, test))
    && (forall test :: test in passed ==> passed[test])
    && (tests > 0 <==> SomeTestPass(trace))
  }

  // ---- one more event ---------------------------------------------------------------

  lemma RanSnoc(trace: seq<Item>, e: Item, key: string)
    ensures Ran(trace + [e], key) <==> Ran(trace, key) || IsRun(e, key)
  {
    var longer := trace + [e];
    if Ran(trace, key) {
      var i :| 0 <= i < |trace| && IsRun(trace[i], key);
      assert IsRun(longer[i], key);
    }
    assert longer[|trace|] == e;
  }

  lemma TestClosedSnoc(trace: seq<Item>, e: Item, key: string)
    ensures TestClosed(trace + [e], key) <==> !IsRun(e, key) && (IsPass(e, key) || TestClosed(trace, key))
  {
    var longer := trace + [e];
    assert longer[|trace|] == e;
    forall i | 0 <= i < |trace|
      ensures PassedFrom(longer, i, key) <==> PassedFrom(trace, i, key) || IsPass(e, key)
    {
      if PassedFrom(trace, i, key) {
        var j :| i < j < |trace| && IsPass(trace[j], key);
        assert IsPass(longer[j], key);
      }
    }
    assert forall i :: 0 <= i < |trace| ==> longer[i] == trace[i];
  }

  lemma MentionsSnoc(trace: seq<Item>, e: Item, package: string)
    ensures Mentions(trace + [e], package) <==> Mentions(trace, package) || IsStart(e, package) || IsPackagePass(e, package)
  {
    var longer := trace + [e];
    if Mentions(trace, package) {
      var i :| 0 <= i < |trace| && (IsStart(trace[i], package) || IsPackagePass(trace[i], package));
      assert IsStart(longer[i], package) || IsPackagePass(longer[i], package);
    }
    assert longer[|trace|] == e;
  }

  lemma PackageClosedSnoc(trace: seq<Item>, e: Item, package: string)
    ensures PackageClosed(trace + [e], package) <==>
            !IsStart(e, package) && (IsPackagePass(e, package) || PackageClosed(trace, package))
  {
    var longer := trace + [e];
    assert longer[|trace|] == e;
    forall i | 0 <= i < |trace|
      ensures PackagePassedFrom(longer, i, package) <==> PackagePassedFrom(trace, i, package) || IsPackagePass(e, package)
    {
      if PackagePassedFrom(trace, i, package) {
        var j :| i < j < |trace| && IsPackagePass(trace[j], package);
        assert IsPackagePass(longer[j], package);
      }
    }
    assert forall i :: 0 <= i < |trace| ==> longer[i] == trace[i];
  }

  lemma TestPassedSnoc(trace: seq<Item>, e: Item, test: string)
    ensures TestPassed(trace + [e], test) <==> TestPassed(trace, test) || Names(e, test)
    ensures SomeTestPass(trace + [e]) <==> SomeTestPass(trace) || IsTestPass(e)
  {
    var longer := trace + [e];
    if TestPassed(trace, test) {
      var i :| 0 <= i < |trace| && Names(trace[i], test);
      assert Names(longer[i], test);
    }
    if SomeTestPass(trace) {
      var i :| 0 <= i < |trace| && IsTestPass(trace[i]);
      assert IsTestPass(longer[i]);
    }
    assert longer[|trace|] == e;
  }

  lemma CleanSnoc(trace: seq<Item>, e: Item)
    ensures Clean(trace + [e]) <==>
            Clean(trace) && e.Event? && !IsForbidden(e) && (IsTestPass(e) ==> Ran(trace, Key(e)))
  {
    var longer := trace + [e];
    forall i | 0 <= i < |trace|
      ensures Proper(longer, i) <==> Proper(trace, i)
    {
      assert longer[..i] == trace[..i];
    }
    assert longer[..|trace|] == trace;
    assert Proper(longer, |trace|) <==> e.Event? && !IsForbidden(e) && (IsTestPass(e) ==> Ran(trace, Key(e)));
  }

  /** A trace whose beginning is not clean is not clean. */
  lemma CleanPrefix(trace: seq<Item>, n: nat)
    requires n <= |trace| && Clean(trace)
    ensures Clean(trace[..n])
  {
    forall i | 0 <= i < n
      ensures Proper(trace[..n], i)
    {
      assert trace[..n][..i] == trace[..i];
      assert Proper(trace, i);
    }
  }

  // ---- the maps after one event -------------------------------------------------------

  lemma TestsStep(started: map<string, bool>, trace: seq<Item>, e: Item, next: map<string, bool>)
    requires TracksTests(started, trace) && e.Event?
    requires IsTestPass(e) ==> Ran(trace, Key(e))
    requires next == if e.action == "run" then started[Key(e) := false]
                     else if IsTestPass(e) then started[Key(e) := true] else started
    ensures TracksTests(next, trace + [e])
  {
    forall key
      ensures key in next <==> Ran(trace + [e], key)
      ensures key in next ==> (next[key] <==> TestClosed(trace + [e], key))
    {
      RanSnoc(trace, e, key);
      TestClosedSnoc(trace, e, key);
    }
  }

  lemma PackagesStep(packages: map<string, bool>, trace: seq<Item>, e: Item, next: map<string, bool>)
    requires TracksPackages(packages, trace) && e.Event?
    requires next == if e.action == "start" then packages[e.package := false]
                     else if e.action == "pass" && e.test == "" then packages[e.package := true] else packages
    ensures TracksPackages(next, trace + [e])
  {
    forall package
      ensures package in next <==> Mentions(trace + [e], package)
      ensures package in next ==> (next[package] <==> PackageClosed(trace + [e], package))
    {
      MentionsSnoc(trace, e, package);
      PackageClosedSnoc(trace, e, package);
    }
  }

  lemma PassesStep(passed: map<string, bool>, tests: nat, trace: seq<Item>, e: Item, next: map<string, bool>, count: nat)
    requires TracksPasses(passed, tests, trace) && e.Event?
    requires next == if IsTestPass(e) then passed[e.test := true] else passed
    requires count == if IsTestPass(e) then tests + 1 else tests
    ensures TracksPasses(next, count, trace + [e])
  {
    forall test {
      TestPassedSnoc(trace, e, test);
    }
    TestPassedSnoc(trace, e, "");
  }

  /** Unstarted packages and tests are closed, so the maps decide for all names. */
  lemma ClosedUnlessTracked(trace: seq<Item>)
    ensures forall package :: !Mentions(trace, package) ==> PackageClosed(trace, package)
    ensures forall key :: !Ran(trace, key) ==> TestClosed(trace, key)
  {
  }

  /** The loop over the stream, then the loops over the maps and the required names. */
  method Check(trace: seq<Item>, required: seq<string>) returns (verdict: Verdict)
    ensures Justified(verdict, trace, required)
    ensures verdict == Accepted <==> Acceptable(trace, required)
  {
    var started: map<string, bool>, passed: map<string, bool>, packages: map<string, bool>, tests := map[], map[], map[], 0;
    var i := 0;
    while i < |trace|
      invariant 0 <= i <= |trace| && Clean(trace[..i])
      invariant TracksTests(started, trace[..i])
      invariant TracksPackages(packages, trace[..i])
      invariant TracksPasses(passed, tests, trace[..i])
    {
      var entry := trace[i];
      ghost var before := trace[..i];
      assert trace[..i + 1] == before + [entry];
      CleanSnoc(before, entry);
      RejectedAt(trace, required, i);
      if entry == Malformed {
        return Undecodable;
      }
      var key := Key(entry);
      ghost var was, wasPackages, wasPassed, count := started, packages, passed, tests;
      if entry.action == "start" {
        packages := packages[entry.package := false];
      } else if entry.action == "run" {
        started := started[key := false];
      } else if entry.action in {"skip", "fail", "build-fail"} {
        return Contains(entry.action, key);
      } else if entry.action == "pass" {
        if entry.test == "" {
          packages := packages[entry.package := true];
        } else {
          if key !in started {
            return PassWithoutRun(key);
          }
          started := started[key := true];
          passed := passed[entry.test := true];
          tests := tests + 1;
        }
      }
      TestsStep(was, before, entry, started);
      PackagesStep(wasPackages, before, entry, packages);
      PassesStep(wasPassed, count, before, entry, passed, tests);
      i := i + 1;
    }
    assert trace[..i] == trace;
    verdict := Conclude(trace, started, passed, packages, tests, required);
  }

  lemma RejectedAt(trace: seq<Item>, required: seq<string>, i: nat)
    requires i < |trace|
    ensures !Clean(trace[..i + 1]) ==> !Acceptable(trace, required)
  {
    if Clean(trace) {
      CleanPrefix(trace, i + 1);
    }
  }

  /** The checks after the end of the stream. */
  method Conclude(ghost trace: seq<Item>, started: map<string, bool>, passed: map<string, bool>, packages: map<string, bool>, tests: nat, required: seq<string>)
    returns (verdict: Verdict)
    requires Clean(trace) && TracksTests(started, trace) && TracksPackages(packages, trace) && TracksPasses(passed, tests, trace)
    ensures Justified(verdict, trace, required)
    ensures verdict == Accepted <==> Acceptable(trace, required)
  {
    PackagesSeen(packages, trace);
    if tests == 0 || |packages| == 0 {
      return NothingRan;
    }
    var open := FindOpen(packages);
    if open.Some? {
      return OpenPackage(open.value);
    }
    open := FindOpen(started);
    if open.Some? {
      return OpenTest(open.value);
    }
    ClosedUnlessTracked(trace);
    for i := 0 to |required|
      invariant forall j :: 0 <= j < i ==> TestPassed(trace, required[j])
    {
      if !(required[i] in passed && passed[required[i]]) {
        return NotPassed(required[i]);
      }
    }
    return Accepted;
  }

  lemma PackagesSeen(packages: map<string, bool>, trace: seq<Item>)
    requires TracksPackages(packages, trace)
    ensures |packages| == 0 <==> !SomePackage(trace)
  {
    if package :| Mentions(trace, package) {
      assert package in packages;
    }
    assert packages != map[] ==> exists package :: package in packages;
  }

  /** A loop over a map, in any order, for a name that is not complete. */
  method FindOpen(complete: map<string, bool>) returns (open: Option<string>)
    ensures match open
            case None => forall name :: name in complete ==> complete[name]
            case Some(name) => name in complete && !complete[name]
  {
    var left := complete.Keys;
    while left != {}
      invariant left <= complete.Keys
      invariant forall name :: name in complete.Keys - left ==> complete[name]
      decreases left
    {
      var name :| name in left;
      if !complete[name] {
        return Some(name);
      }
      left := left - {name};
    }
    return None;
  }

  // ---- which events matter ------------------------------------------------------------------

  /** No acceptable trace holds a skipped, failed or unbuilt test. */
  lemma FailuresAreRejected(trace: seq<Item>, required: seq<string>, i: nat)
    requires i < |trace|
    requires trace[i] == Malformed || trace[i].action == "skip" || trace[i].action == "fail" || trace[i].action == "build-fail"
    ensures !Acceptable(trace, required)
  {
    assert Clean(trace) ==> Proper(trace, i);
  }

  /** All other events, such as output, do not matter at the end of a trace. */
  lemma OtherEventsAreNeutral(trace: seq<Item>, required: seq<string>, e: Item)
    requires e.Event? && e.action !in {"start", "run", "pass", "skip", "fail", "build-fail"}
    ensures Acceptable(trace + [e], required) <==> Acceptable(trace, required)
  {
    var longer := trace + [e];
    CleanSnoc(trace, e);
    forall key: string
      ensures TestClosed(longer, key) <==> TestClosed(trace, key)
    {
      TestClosedSnoc(trace, e, key);
    }
    forall name: string
      ensures PackageClosed(longer, name) <==> PackageClosed(trace, name)
      ensures Mentions(longer, name) <==> Mentions(trace, name)
      ensures TestPassed(longer, name) <==> TestPassed(trace, name)
    {
      PackageClosedSnoc(trace, e, name);
      MentionsSnoc(trace, e, name);
      TestPassedSnoc(trace, e, name);
    }
    TestPassedSnoc(trace, e, "");
    assert SomePackage(longer) <==> SomePackage(trace);
  }

  // ---- what the joined key cannot tell apart -------------------------------------------

  /** Two events share a key only when they name the same test, or when one package is
      below the other and the shorter one's test name spells the difference out. */
  lemma SharedKeys(e: Item, f: Item)
    requires e.Event? && f.Event? && |e.package| <= |f.package|
    ensures Key(e) == Key(f) <==>
            || (e.package == f.package && e.test == f.test)
            || (exists middle :: Between(middle, e, f))
  {
    var joined := Key(f);
    assert f.package == joined[..|f.package|] && f.test == joined[|f.package| + 1..];
    assert Key(e)[..|e.package|] == e.package && Key(e)[|e.package| + 1..] == e.test;
    if Key(e) == Key(f) && |e.package| < |f.package| {
      var middle := f.package[|e.package| + 1..];
      assert f.package == joined[..|e.package|] + joined[|e.package|..|e.package| + 1] + middle;
      assert joined[|e.package|] == '/';
      assert e.test == joined[|e.package| + 1..] == middle + "/" + f.test;
      assert Between(middle, e, f);
    } else if middle :| Between(middle, e, f) {
      assert Key(e) == e.package + "/" + middle + "/" + f.test == Key(f);
    }
  }

  ghost predicate Between(middle: string, e: Item, f: Item)
    requires e.Event? && f.Event?
  {
    f.package == e.package + "/" + middle && e.test == middle + "/" + f.test
  }

  // ---- when the gate speaks about tests and not just about keys --------------------------

  /** A test, by package and name. */
  datatype Identity = Identity(package: string, test: string)

  function IdentityOf(e: Item): Identity
    requires e.Event?
  {
    Identity(e.package, e.test)
  }

  function Joined(id: Identity): string { id.package + "/" + id.test }

  predicate RunOf(e: Item, id: Identity) { e.Event? && e.action == "run" && IdentityOf(e) == id }

  predicate PassOf(e: Item, id: Identity) { IsTestPass(e) && IdentityOf(e) == id }

  ghost predicate HasRunOf(trace: seq<Item>, id: Identity) {
    exists i :: 0 <= i < |trace| && RunOf(trace[i], id)
  }

  ghost predicate PassedAfter(trace: seq<Item>, i: nat, id: Identity) {
    exists j :: i < j < |trace| && PassOf(trace[j], id)
  }

  ghost predicate FollowsItsRun(trace: seq<Item>, i: nat)
    requires i < |trace| && trace[i].Event?
  {
    HasRunOf(trace[..i], IdentityOf(trace[i]))
  }

  /** Each pass follows a run of the very same test, and each run is followed by its own pass. */
  ghost predicate Honest(trace: seq<Item>) {
    && (forall i :: 0 <= i < |trace| && IsTestPass(trace[i]) ==> FollowsItsRun(trace, i))
    && (forall i :: 0 <= i < |trace| && trace[i].Event? && trace[i].action == "run" ==> PassedAfter(trace, i, IdentityOf(trace[i])))
  }

  /** The runs and the test passes of the trace are those of the given tests. */
  ghost predicate Over(trace: seq<Item>, tests: set<Identity>) {
    forall i :: 0 <= i < |trace| && trace[i].Event? && (trace[i].action == "run" || IsTestPass(trace[i])) ==> IdentityOf(trace[i]) in tests
  }

  /** No two tests share a key. */
  ghost predicate KeysDiffer(tests: set<Identity>) {
    forall a, b :: a in tests && b in tests && Joined(a) == Joined(b) ==> a == b
  }

  /** Every accepted trace of the tests is honest. */
  ghost predicate GateHonest(tests: set<Identity>) {
    forall trace: seq<Item>, required: seq<string> :: Over(trace, tests) && Acceptable(trace, required) ==> Honest(trace)
  }

  /** Without shared keys the gate vouches for every single test. */
  lemma DistinctKeysAreHonest(trace: seq<Item>, required: seq<string>, tests: set<Identity>)
    requires KeysDiffer(tests) && Over(trace, tests) && Acceptable(trace, required)
    ensures Honest(trace)
  {
    forall i | 0 <= i < |trace| && IsTestPass(trace[i])
      ensures FollowsItsRun(trace, i)
    {
      assert Proper(trace, i);
      var k :| 0 <= k < i && IsRun(trace[..i][k], Key(trace[i]));
      assert Joined(IdentityOf(trace[k])) == Joined(IdentityOf(trace[i]));
      assert RunOf(trace[..i][k], IdentityOf(trace[i]));
    }
    forall i | 0 <= i < |trace| && trace[i].Event? && trace[i].action == "run"
      ensures PassedAfter(trace, i, IdentityOf(trace[i]))
    {
      assert TestClosed(trace, Key(trace[i])) && IsRun(trace[i], Key(trace[i]));
      var j :| i < j < |trace| && IsPass(trace[j], Key(trace[i]));
      assert Joined(IdentityOf(trace[j])) == Joined(IdentityOf(trace[i]));
      assert PassOf(trace[j], IdentityOf(trace[i]));
    }
  }

  function NamesakeTrace(ran: Identity, passed: Identity): seq<Item> {
    [Event("run", ran.package, ran.test), Event("pass", passed.package, passed.test), Event("pass", passed.package, "")]
  }

  /** Of two tests with one key, the gate accepts a pass of one that never ran after a run of the other. */
  lemma NamesakeAccepted(ran: Identity, passed: Identity)
    requires Joined(ran) == Joined(passed) && ran != passed && passed.test != ""
    ensures var trace := NamesakeTrace(ran, passed);
            && Acceptable(trace, [passed.test])
            && PassOf(trace[1], passed) && !HasRunOf(trace, passed) && !Honest(trace)
            && Over(trace, {ran, passed})
  {
    var trace := NamesakeTrace(ran, passed);
    assert Key(trace[0]) == Key(trace[1]);
    assert Clean(trace) by {
      assert IsRun(trace[..1][0], Key(trace[1]));
      assert Proper(trace, 0) && Proper(trace, 1) && Proper(trace, 2);
    }
    assert IsTestPass(trace[1]) && Names(trace[1], passed.test);
    assert IsPackagePass(trace[2], passed.package);
    assert Mentions(trace, passed.package);
    forall key
      ensures TestClosed(trace, key)
    {
      assert IsRun(trace[0], key) ==> IsPass(trace[1], key);
    }
    assert IsTestPass(trace[1]) && !FollowsItsRun(trace, 1);
  }

  /** The gate vouches for the tests themselves exactly when no two of them share a key. */
  lemma GateHonestIff(tests: set<Identity>)
    ensures GateHonest(tests) <==> KeysDiffer(tests)
  {
    if KeysDiffer(tests) {
      forall trace: seq<Item>, required: seq<string> | Over(trace, tests) && Acceptable(trace, required)
        ensures Honest(trace)
      {
        DistinctKeysAreHonest(trace, required, tests);
      }
    } else {
      var a, b :| a in tests && b in tests && Joined(a) == Joined(b) && a != b;
      var ran, passed := if b.test != "" then a else b, if b.test != "" then b else a;
      SomeName(a, b);
      NamesakeAccepted(ran, passed);
      var trace := NamesakeTrace(ran, passed);
      assert Over(trace, tests) && Acceptable(trace, [passed.test]) && !Honest(trace);
    }
  }

  /** Two packages cannot share a key with empty test names. */
  lemma SomeName(a: Identity, b: Identity)
    requires Joined(a) == Joined(b) && a != b
    ensures a.test != "" || b.test != ""
  {
    assert a.package == Joined(a)[..|a.package|] && b.package == Joined(b)[..|b.package|];
    assert |Joined(a)| == |a.package| + 1 + |a.test| && |Joined(b)| == |b.package| + 1 + |b.test|;
  }

  /** For example a subtest and a test of a package below. */
  lemma SubtestAndSubpackage()
    ensures !GateHonest({Identity("a", "TestB/TestC"), Identity("a/TestB", "TestC")})
  {
    var a, b := Identity("a", "TestB/TestC"), Identity("a/TestB", "TestC");
    assert Joined(a) == "a/TestB/TestC" == Joined(b);
    GateHonestIff({a, b});
  }
}
