/** The soak cycle of one key: create, merge and delete, each retried and reconciled. */
module Soak {
  import opened SoakStore

  // ---- replies ---------------------------------------------------------------------------

  datatype StatusCode = Unavailable | DeadlineExceeded | ResourceExhausted | OtherCode

  datatype RPCError = LocalDeadline | Status(code: StatusCode)

  datatype MutationStatus = Applied | Accepted | Rejected

  datatype Failure = NoFailure | Failure(retryable: bool)

  datatype Result = Result(status: MutationStatus, failure: Failure)

  datatype Reply = Error(error: RPCError) | Results(results: seq<Result>)

  datatype ReadReply = ReadError(retryable: bool) | Read(observed: Observed)

  predicate RetryableRPC(e: RPCError) {
    e.LocalDeadline? || e.code in {Unavailable, DeadlineExceeded, ResourceExhausted}
  }

  predicate ValidResult(results: seq<Result>, want: MutationStatus) {
    |results| == 1 && results[0].status == want && results[0].failure == NoFailure
  }

  predicate RetryableResult(results: seq<Result>) {
    |results| == 1 && results[0].failure.Failure? && results[0].failure.retryable
  }

  datatype Outcome =
    | Done
    | Cancelled
    | ReplyRejected
    | ReadRejected
    | Unexpected(observed: Observed)

  // ---- the service ---------------------------------------------------------------------------

  class Store {
    const key: string
    var issued: seq<Mutation>
    var log: seq<Entry>
    var seen: nat

    constructor (key: string)
      ensures this.key == key && issued == [] && log == [] && seen == 0
      ensures Valid()
    {
      this.key, issued, log, seen := key, [], [], 0;
    }

    /** The attempts are staged, the log follows them, and reads never go back. */
    ghost predicate Valid()
      reads this
    {
      Staged(issued) && InOrder(issued, log) && seen <= |log|
    }

    /** Any number of outstanding attempts may arrive at any time. */
    method Drift()
      requires Valid()
      modifies this`log
      ensures Valid() && old(log) <= log
    {
      var more: nat := *;
      while more > 0
        invariant Valid() && old(log) <= log
      {
        var attempt: nat, now: int := *, *;
        var latest := if log == [] then 0 else log[|log| - 1].attempt;
        if latest <= attempt < |issued| {
          log := log + [Entry(attempt, now)];
        }
        more := more - 1;
      }
    }

    /** An RPC that may or may not be lost, on the way there or back. */
    method Attempt(m: Mutation) returns (reply: Reply)
      requires Valid() && forall i :: 0 <= i < |issued| ==> Rank(issued[i]) <= Rank(m)
      modifies this`issued, this`log
      ensures Valid() && old(log) <= log && issued == old(issued) + [m]
    {
      issued := issued + [m];
      Drift();
      reply := *;
    }

    /** A read sees some prefix of the log, no shorter than any before it. */
    method Observe() returns (reply: ReadReply)
      requires Valid()
      modifies this`log, this`seen
      ensures Valid() && old(log) <= log && old(seen) <= seen
      ensures reply.Read? ==> reply.observed == Contents(key, issued, log[..seen])
    {
      Drift();
      var failed, retryable: bool := *, *;
      if failed {
        return ReadError(retryable);
      }
      var visible: nat := *;
      if seen < visible <= |log| {
        seen := visible;
      }
      reply := Read(Contents(key, issued, log[..seen]));
    }
  }

  /** A context, which is done after finitely many polls. */
  class Context {
    var polls: nat
    /** Some poll has found the context done. */
    ghost var done: bool

    constructor (polls: nat)
      ensures !done
    {
      this.polls := polls;
      done := false;
    }

    method Finished() returns (finished: bool)
      modifies this
      ensures polls <= old(polls) && (!finished ==> polls < old(polls))
      ensures done <==> old(done) || finished
    {
      finished := true;
      if polls > 0 {
        polls := polls - 1;
        finished := *;
      }
      done := done || finished;
    }
  }

  class Counters {
    var transients: nat
    var retries: nat

    constructor ()
      ensures transients == 0 && retries == 0
    {
      transients, retries := 0, 0;
    }
  }

  // ---- the phases --------------------------------------------------------------------------------

  /** While `m` is being reconciled nothing later is issued, and what came before has been seen. */
  ghost predicate During(issued: seq<Mutation>, log: seq<Entry>, seen: nat, m: Mutation) {
    && Staged(issued) && InOrder(issued, log) && seen <= |log|
    && (forall i :: 0 <= i < |issued| ==> Rank(issued[i]) <= Rank(m))
    && (m != Create ==> seen > 0 && Kind(issued, log, 0) == Create)
    && (m == Delete ==> Rank(Kind(issued, log, seen - 1)) >= Rank(Merge))
  }

  /** A read has shown that the mutation took effect. */
  ghost predicate Settled(issued: seq<Mutation>, log: seq<Entry>, seen: nat, m: Mutation) {
    During(issued, log, seen, m) && seen > 0 && Kind(issued, log, seen - 1) == m
  }

  lemma DuringGrows(issued: seq<Mutation>, log: seq<Entry>, seen: nat, longer: seq<Entry>, later: nat, m: Mutation)
    requires During(issued, log, seen, m) && log <= longer && InOrder(issued, longer) && seen <= later <= |longer|
    ensures During(issued, longer, later, m)
  {
    assert seen > 0 ==> log[0] == longer[0] && log[seen - 1] == longer[seen - 1];
    assert seen > 0 ==> longer[seen - 1].attempt <= longer[later - 1].attempt;
  }

  lemma DuringIssued(issued: seq<Mutation>, log: seq<Entry>, seen: nat, m: Mutation)
    requires During(issued, log, seen, m)
    ensures During(issued + [m], log, seen, m)
  {
  }

  /** Any prefix that a phase may read holds the previous or the desired document. */
  lemma ReadsMatch(key: string, issued: seq<Mutation>, log: seq<Entry>, seen: nat, m: Mutation)
    requires During(issued, log, seen, m)
    ensures var observed := Contents(key, issued, log[..seen]);
            && (Matches(observed, Desired(key, m)) <==> Settled(issued, log, seen, m))
            && (Matches(observed, Previous(key, m)) <==> !Settled(issued, log, seen, m))
  {
    IDsDiffer(key);
    if seen > 0 {
      var prefix := log[..seen];
      assert prefix[0] == log[0] && prefix[seen - 1] == log[seen - 1];
      LastDecides(key, issued, prefix);
      var kind := Kind(issued, log, seen - 1);
      assert Rank(kind) <= Rank(m);
      OneExpectation(key, Contents(key, issued, prefix), kind, m);
    }
  }

  /** The three documents of a cycle are told apart. */
  lemma OneExpectation(key: string, observed: Observed, kind: Mutation, m: Mutation)
    requires Matches(observed, Desired(key, kind))
    ensures Matches(observed, Desired(key, m)) <==> kind == m
    ensures Matches(observed, Previous(key, m)) <==> (m == Create && kind == Delete) || Rank(kind) + 1 == Rank(m)
  {
    IDsDiffer(key);
  }

  ghost predicate Reconciling(store: Store, m: Mutation)
    reads store
  {
    During(store.issued, store.log, store.seen, m)
  }

  ghost predicate Reconciled(store: Store, m: Mutation)
    reads store
  {
    Settled(store.issued, store.log, store.seen, m)
  }

  /** One read within a phase. */
  method Look(store: Store, m: Mutation) returns (reply: ReadReply)
    requires Reconciling(store, m)
    modifies store`log, store`seen
    ensures Reconciling(store, m)
    ensures reply.Read? ==> reply.observed == Contents(store.key, store.issued, store.log[..store.seen])
    ensures reply.Read? ==> (Matches(reply.observed, Desired(store.key, m)) <==> Reconciled(store, m))
    ensures reply.Read? ==> Matches(reply.observed, Desired(store.key, m)) || Matches(reply.observed, Previous(store.key, m))
  {
    reply := store.Observe();
    DuringGrows(store.issued, old(store.log), old(store.seen), store.log, store.seen, m);
    ReadsMatch(store.key, store.issued, store.log, store.seen, m);
  }

  ghost predicate Shows(reply: ReadReply, want: Expectation) {
    reply.Read? && Matches(reply.observed, want)
  }

  /** `waitForSoakDocumentState`: polls until the desired document is visible, and stops earlier
      only when the context is done. */
  method WaitForState(ctx: Context, store: Store, m: Mutation, desired: Expectation, previous: Expectation)
    returns (outcome: Outcome, ghost replies: seq<ReadReply>)
    requires Reconciling(store, m) && desired == Desired(store.key, m) && previous == Previous(store.key, m)
    modifies ctx, store`log, store`seen
    ensures Reconciling(store, m) && !outcome.Unexpected?
    ensures ctx.polls <= old(ctx.polls)
    ensures outcome == Done ==> Reconciled(store, m)
    ensures replies != [] && forall i :: 0 <= i < |replies| - 1 ==> !Shows(replies[i], desired)
    ensures outcome == Done <==> Shows(replies[|replies| - 1], desired)
    ensures outcome == Done || (outcome == Cancelled && ctx.done)
  {
    replies := [];
    while true
      invariant Reconciling(store, m) && ctx.polls <= old(ctx.polls)
      invariant forall i :: 0 <= i < |replies| ==> !Shows(replies[i], desired)
      decreases ctx.polls
    {
      var reply := Look(store, m);
      replies := replies + [reply];
      if reply.Read? {
        var observed := reply.observed;
        if Matches(observed, desired) {
          return Done, replies;
        }
        if !Matches(observed, previous) {
          return Unexpected(observed), replies;
        }
      }
      var finished := ctx.Finished();
      if finished {
        return Cancelled, replies;
      }
    }
  }

  /** The observation goes on after it. */
  ghost predicate Inconclusive(reply: ReadReply, desired: Expectation, previous: Expectation) {
    !Shows(reply, desired) && (Shows(reply, previous) || reply == ReadError(true))
  }

  ghost predicate SomeShows(replies: seq<ReadReply>, want: Expectation) {
    exists i :: 0 <= i < |replies| && Shows(replies[i], want)
  }

  datatype Sight = SawDesired | SawPrevious | SawNothing | SawFatal | SawOther(observed: Observed)

  /** One read of the observation and what it shows. */
  method Glance(store: Store, m: Mutation, desired: Expectation, previous: Expectation) returns (sight: Sight, ghost reply: ReadReply)
    requires Reconciling(store, m) && desired == Desired(store.key, m) && previous == Previous(store.key, m)
    modifies store`log, store`seen
    ensures Reconciling(store, m) && !sight.SawOther?
    ensures sight == SawDesired <==> Shows(reply, desired)
    ensures sight == SawDesired ==> Reconciled(store, m)
    ensures sight == SawPrevious ==> Shows(reply, previous)
    ensures sight == SawNothing <==> reply == ReadError(true)
    ensures sight == SawFatal <==> reply == ReadError(false)
  {
    var read := Look(store, m);
    reply := read;
    if !read.Read? {
      return if read.retryable then SawNothing else SawFatal, reply;
    }
    var observed := read.observed;
    sight := if Matches(observed, desired) then SawDesired else if Matches(observed, previous) then SawPrevious else SawOther(observed);
  }

  /** `observeSoakMutation`: was the attempt applied, or is the previous document stable? */
  method ObserveMutation(ctx: Context, store: Store, m: Mutation, desired: Expectation, previous: Expectation)
    returns (resolved: bool, outcome: Outcome, ghost replies: seq<ReadReply>)
    requires Reconciling(store, m) && desired == Desired(store.key, m) && previous == Previous(store.key, m)
    modifies ctx, store`log, store`seen
    ensures Reconciling(store, m) && !outcome.Unexpected?
    ensures ctx.polls <= old(ctx.polls)
    ensures outcome == Done && resolved ==> Reconciled(store, m)
    ensures replies != [] && forall i :: 0 <= i < |replies| - 1 ==> Inconclusive(replies[i], desired, previous)
    ensures outcome == Done && resolved <==> Shows(replies[|replies| - 1], desired)
    ensures outcome == Done && !resolved ==> SomeShows(replies, previous)
    ensures outcome == ReadRejected <==> replies[|replies| - 1] == ReadError(false)
    ensures outcome in {Done, ReadRejected} || (outcome == Cancelled && ctx.done)
  {
    var armed := false;
    replies := [];
    while true
      invariant Reconciling(store, m) && ctx.polls <= old(ctx.polls)
      invariant forall i :: 0 <= i < |replies| ==> Inconclusive(replies[i], desired, previous)
      invariant armed ==> SomeShows(replies, previous)
      decreases ctx.polls
    {
      ghost var reply;
      var sight;
      sight, reply := Glance(store, m, desired, previous);
      SomeShowsNext(replies, reply, previous);
      replies := replies + [reply];
      match sight {
        case SawDesired => return true, Done, replies;
        case SawPrevious => armed := true;
        case SawNothing =>
        case SawFatal => return false, ReadRejected, replies;
        case SawOther(observed) => return false, Unexpected(observed), replies;
      }
      var fired: bool := *;
      if armed && fired {
        return false, Done, replies;
      }
      var finished := ctx.Finished();
      if finished {
        return false, Cancelled, replies;
      }
    }
  }

  lemma SomeShowsNext(replies: seq<ReadReply>, reply: ReadReply, want: Expectation)
    ensures SomeShows(replies + [reply], want) <==> SomeShows(replies, want) || Shows(reply, want)
  {
    var longer := replies + [reply];
    assert longer[|replies|] == reply;
    if SomeShows(replies, want) {
      var i :| 0 <= i < |replies| && Shows(replies[i], want);
      assert Shows(longer[i], want);
    }
  }

  // ---- attempts ------------------------------------------------------------------------------------

  datatype Judgement = Succeeded | Ambiguous | Refused | Aborted

  /** One attempt: its reply, and whether the context was done when it failed. */
  datatype Tried = Tried(reply: Reply, cancelled: bool)

  /** The one result has the wanted status and no failure. */
  ghost predicate IsSuccess(tried: Tried, want: MutationStatus) {
    tried.reply == Results([Result(want, NoFailure)])
  }

  /** The mutation may or may not have been applied: a failure that may be retried, of the one
      result or of the RPC. */
  ghost predicate IsAmbiguous(tried: Tried) {
    || (tried.reply.Results? && |tried.reply.results| == 1 && tried.reply.results[0].failure == Failure(true))
    || (!tried.cancelled && tried.reply.Error? && MayPass(tried.reply.error))
  }

  /** Errors of an RPC after which the mutation may still be applied. */
  ghost predicate MayPass(e: RPCError) {
    e == LocalDeadline || e == Status(Unavailable) || e == Status(DeadlineExceeded) || e == Status(ResourceExhausted)
  }

  lemma RetryableMayPass(e: RPCError)
    ensures RetryableRPC(e) <==> MayPass(e)
  {
  }

  ghost predicate IsAborted(tried: Tried) {
    tried.reply.Error? && tried.cancelled
  }

  /** One attempt within a phase, and what its reply allows. */
  method TryOnce(store: Store, m: Mutation, want: MutationStatus) returns (judgement: Judgement, ghost tried: Tried)
    requires Reconciling(store, m)
    modifies store`issued, store`log
    ensures Reconciling(store, m) && store.issued == old(store.issued) + [m]
    ensures judgement == Succeeded <==> IsSuccess(tried, want)
    ensures judgement == Ambiguous <==> IsAmbiguous(tried)
    ensures judgement == Aborted <==> IsAborted(tried)
  {
    var reply := store.Attempt(m);
    DuringIssued(old(store.issued), old(store.log), store.seen, m);
    DuringGrows(store.issued, old(store.log), store.seen, store.log, store.seen, m);
    tried := Tried(reply, false);
    if reply.Results? {
      OneResult(reply.results);
      return if ValidResult(reply.results, want) then Succeeded
             else if RetryableResult(reply.results) then Ambiguous else Refused, tried;
    }
    var cancelled: bool := *;
    tried := Tried(reply, cancelled);
    if cancelled {
      return Aborted, tried;
    }
    RetryableMayPass(reply.error);
    return if RetryableRPC(reply.error) then Ambiguous else Refused, tried;
  }

  lemma OneResult(results: seq<Result>)
    ensures |results| == 1 ==> results == [Result(results[0].status, results[0].failure)]
    ensures |results| == 1 && results[0].failure.Failure? ==> results[0].failure == Failure(results[0].failure.retryable)
  {
  }

  /** After a valid result: waits for the effect and counts what was overcome on the way. */
  method ConfirmSuccess(ctx: Context, store: Store, counters: Counters, m: Mutation, desired: Expectation, previous: Expectation, sawTransient: bool)
    returns (outcome: Outcome)
    requires Reconciling(store, m) && desired == Desired(store.key, m) && previous == Previous(store.key, m)
    modifies ctx, store`log, store`seen, counters`transients
    ensures Reconciling(store, m) && ctx.polls <= old(ctx.polls)
    ensures outcome == Done || (outcome == Cancelled && ctx.done)
    ensures outcome == Done ==> Reconciled(store, m)
    ensures counters.transients == old(counters.transients) + (if outcome == Done && sawTransient then 1 else 0)
  {
    ghost var replies;
    outcome, replies := WaitForState(ctx, store, m, desired, previous);
    if outcome == Done && sawTransient {
      counters.transients := counters.transients + 1;
    }
  }

  /** After an ambiguous attempt: resolved, to be tried again, or the end. */
  method ResolveAmbiguity(ctx: Context, store: Store, counters: Counters, m: Mutation, desired: Expectation, previous: Expectation)
    returns (again: bool, outcome: Outcome)
    requires Reconciling(store, m) && desired == Desired(store.key, m) && previous == Previous(store.key, m)
    modifies ctx, store`log, store`seen, counters
    ensures Reconciling(store, m) && ctx.polls <= old(ctx.polls)
    ensures outcome in {Done, ReadRejected} || (outcome == Cancelled && ctx.done)
    ensures again ==> outcome == Done && ctx.polls < old(ctx.polls)
    ensures outcome == Done && !again ==> Reconciled(store, m)
    ensures counters.transients == old(counters.transients) + (if outcome == Done && !again then 1 else 0)
    ensures counters.retries >= old(counters.retries) && (outcome == Done ==> counters.retries == old(counters.retries) + (if again then 1 else 0))
  {
    again := false;
    ghost var replies;
    var resolved;
    resolved, outcome, replies := ObserveMutation(ctx, store, m, desired, previous);
    if outcome != Done {
      return;
    }
    if resolved {
      counters.transients := counters.transients + 1;
      return;
    }
    counters.retries := counters.retries + 1;
    var finished := ctx.Finished();
    if finished {
      outcome := Cancelled;
    } else {
      again := true;
    }
  }

  function Repeat(m: Mutation, n: nat): (issued: seq<Mutation>)
    ensures |issued| == n && forall i :: 0 <= i < n ==> issued[i] == m
  {
    seq(n, _ => m)
  }

  /** The last attempt is what the loop ended with; all before it were ambiguous. */
  ghost predicate OnlyAmbiguousRetried(trace: seq<Tried>) {
    forall i :: 0 <= i < |trace| - 1 ==> IsAmbiguous(trace[i])
  }

  lemma RepeatOnce(before: seq<Mutation>, m: Mutation, n: nat)
    ensures before + Repeat(m, n) + [m] == before + Repeat(m, n + 1)
  {
  }

  /** The body of the loop: one attempt and what follows from it. */
  method Round(ctx: Context, store: Store, counters: Counters, m: Mutation, want: MutationStatus, desired: Expectation, previous: Expectation, sawTransient: bool)
    returns (again: bool, outcome: Outcome, ghost tried: Tried)
    requires Reconciling(store, m) && desired == Desired(store.key, m) && previous == Previous(store.key, m)
    modifies ctx, store, counters
    ensures Reconciling(store, m) && !outcome.Unexpected? && ctx.polls <= old(ctx.polls)
    ensures store.issued == old(store.issued) + [m]
    ensures again ==> IsAmbiguous(tried) && ctx.polls < old(ctx.polls) && outcome == Done
    ensures again ==> counters.retries == old(counters.retries) + 1 && counters.transients == old(counters.transients)
    ensures !again ==> Ends(outcome, tried, want, ctx.done)
    ensures !again && outcome == Done ==> Reconciled(store, m) && counters.retries == old(counters.retries)
    ensures !again ==> counters.transients == old(counters.transients) + (if outcome == Done && (sawTransient || IsAmbiguous(tried)) then 1 else 0)
  {
    var judgement;
    judgement, tried := TryOnce(store, m, want);
    again := false;
    if judgement == Succeeded {
      SuccessIsNotAmbiguous(tried, want);
      outcome := ConfirmSuccess(ctx, store, counters, m, desired, previous, sawTransient);
    } else if judgement == Ambiguous {
      AmbiguousIsNotAborted(tried);
      again, outcome := ResolveAmbiguity(ctx, store, counters, m, desired, previous);
    } else {
      outcome := if judgement == Aborted then Cancelled else ReplyRejected;
    }
  }

  lemma SuccessIsNotAmbiguous(tried: Tried, want: MutationStatus)
    requires IsSuccess(tried, want)
    ensures !IsAmbiguous(tried) && !IsAborted(tried)
  {
  }

  lemma AmbiguousIsNotAborted(tried: Tried)
    requires IsAmbiguous(tried)
    ensures !IsAborted(tried)
  {
  }

  /** How the last attempt and the outcome go together. */
  ghost predicate Ends(outcome: Outcome, last: Tried, want: MutationStatus, done: bool) {
    && (outcome == Done ==> IsSuccess(last, want) || IsAmbiguous(last))
    && (outcome == ReplyRejected <==> !IsSuccess(last, want) && !IsAmbiguous(last) && !IsAborted(last))
    && (outcome == ReadRejected ==> IsAmbiguous(last))
    && (outcome == Cancelled ==> done || IsAborted(last))
  }

  /** `writeSoakWithReconciliation` and `deleteSoakWithReconciliation`: only an ambiguous attempt is
      repeated, only a wanted result or a read that shows the effect ends in success, a definite
      refusal never does, and a success after something ambiguous is counted once. */
  method Reconcile(ctx: Context, store: Store, counters: Counters, m: Mutation, want: MutationStatus, desired: Expectation, previous: Expectation)
    returns (outcome: Outcome, ghost trace: seq<Tried>)
    requires Reconciling(store, m) && desired == Desired(store.key, m) && previous == Previous(store.key, m)
    modifies ctx, store, counters
    ensures Reconciling(store, m) && !outcome.Unexpected?
    ensures ctx.polls <= old(ctx.polls)
    ensures outcome == Done ==> Reconciled(store, m)
    ensures trace != [] && OnlyAmbiguousRetried(trace) && Ends(outcome, trace[|trace| - 1], want, ctx.done)
    ensures store.issued == old(store.issued) + Repeat(m, |trace|)
    ensures outcome == Done ==> |trace| == counters.retries - old(counters.retries) + 1
    ensures counters.transients == old(counters.transients) +
              (if outcome == Done && (|trace| > 1 || IsAmbiguous(trace[0])) then 1 else 0)
  {
    var sawTransient := false;
    trace := [];
    ghost var before := store.issued;
    while true
      invariant Reconciling(store, m) && ctx.polls <= old(ctx.polls)
      invariant store.issued == before + Repeat(m, |trace|)
      invariant |trace| == counters.retries - old(counters.retries) && counters.transients == old(counters.transients)
      invariant (sawTransient <==> trace != []) && forall i :: 0 <= i < |trace| ==> IsAmbiguous(trace[i])
      decreases ctx.polls
    {
      ghost var tried;
      var again;
      RepeatOnce(before, m, |trace|);
      again, outcome, tried := Round(ctx, store, counters, m, want, desired, previous, sawTransient);
      trace := trace + [tried];
      if !again {
        return;
      }
      sawTransient := true;
    }
  }

  /** The document has been counted once, however often the merge was delivered. */
  lemma SettledMergeCountsOnce(key: string, issued: seq<Mutation>, log: seq<Entry>, seen: nat)
    requires Settled(issued, log, seen, Merge)
    ensures forall n :: seen <= n <= |log| ==> Matches(Contents(key, issued, log[..n]), MergedExpectation(key))
  {
    forall n | seen <= n <= |log|
      ensures Matches(Contents(key, issued, log[..n]), MergedExpectation(key))
    {
      DuringGrows(issued, log, seen, log, n, Merge);
      assert log[seen - 1].attempt <= log[n - 1].attempt;
      assert Kind(issued, log, n - 1) == Merge;
      ReadsMatch(key, issued, log, n, Merge);
    }
  }

  /** What a completed phase shows. */
  ghost predicate Completed(trace: seq<Tried>, asynchronous: bool) {
    && trace != [] && OnlyAmbiguousRetried(trace)
    && (IsSuccess(trace[|trace| - 1], if asynchronous then Accepted else Applied) || IsAmbiguous(trace[|trace| - 1]))
  }

  /** The first two phases: afterwards every read shows a counter of 1. */
  method CreateAndMerge(ctx: Context, store: Store, counters: Counters, asynchronous: bool)
    returns (outcome: Outcome, ghost created: seq<Tried>, ghost merged: seq<Tried>)
    requires store.issued == [] && store.log == [] && store.seen == 0
    modifies ctx, store, counters
    ensures !outcome.Unexpected?
    ensures outcome == Done ==> Reconciling(store, Delete) && Completed(created, asynchronous) && Completed(merged, asynchronous)
    ensures outcome == Done ==> forall n :: store.seen <= n <= |store.log| ==>
              Matches(Contents(store.key, store.issued, store.log[..n]), MergedExpectation(store.key))
    ensures store.issued == Repeat(Create, |created|) + Repeat(Merge, |merged|)
    ensures outcome == Done ==> |store.issued| == counters.retries - old(counters.retries) + 2
    ensures counters.transients <= old(counters.transients) + 2
  {
    var want := if asynchronous then Accepted else Applied;
    var key := store.key;
    created, merged := [], [];
    outcome, created := Reconcile(ctx, store, counters, Create, want, CreatedExpectation(key), AbsentExpectation());
    if outcome != Done {
      return;
    }
    outcome, merged := Reconcile(ctx, store, counters, Merge, want, MergedExpectation(key), CreatedExpectation(key));
    if outcome == Done {
      SettledMergeCountsOnce(key, store.issued, store.log, store.seen);
    }
  }

  /** `runSoakCycle`: no interleaving of deliveries, losses and retries surprises it. */
  method RunCycle(ctx: Context, store: Store, counters: Counters, asynchronous: bool)
    returns (outcome: Outcome, ghost created: seq<Tried>, ghost merged: seq<Tried>, ghost deleted: seq<Tried>)
    requires store.issued == [] && store.log == [] && store.seen == 0
    modifies ctx, store, counters
    ensures !outcome.Unexpected?
    ensures outcome == Done ==> Reconciled(store, Delete)
    ensures outcome == Done ==> Completed(created, asynchronous) && Completed(merged, asynchronous) && Completed(deleted, asynchronous)
    ensures store.issued == Repeat(Create, |created|) + Repeat(Merge, |merged|) + Repeat(Delete, |deleted|)
    ensures outcome == Done ==> |store.issued| == counters.retries - old(counters.retries) + 3
    ensures counters.transients <= old(counters.transients) + 3
  {
    deleted := [];
    outcome, created, merged := CreateAndMerge(ctx, store, counters, asynchronous);
    if outcome == Done {
      var want := if asynchronous then Accepted else Applied;
      outcome, deleted := Reconcile(ctx, store, counters, Delete, want, AbsentExpectation(), MergedExpectation(store.key));
    }
  }
}
