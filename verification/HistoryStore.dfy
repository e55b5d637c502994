/** The sequential document, told by what each call may answer, and what the verdicts say about it. */
module HistoryStore {
  import opened Int64
  import opened History
  import opened HistoryPaths
  import opened HistorySearch
  import opened HistoryCheck

  /** A document store with one record may give this answer to the call and leave the record so. */
  ghost predicate Answers(before: State, kind: Kind, input: int64, applied: bool, conflict: bool, shown: State, after: State) {
    match kind
    case Read => !applied && !conflict && shown == before && after == before
    case Set => applied && !conflict && shown == State(false, 0) && after == State(true, input)
    case Create =>
      && !conflict && shown == State(false, 0) && applied == !before.found
      && after == (if before.found then before else State(true, input))
    case Replace =>
      && shown == State(false, 0)
      && ((conflict && !applied && after == before)
          || (!conflict && applied && before.found && after == State(true, input))
          || (!conflict && !applied && !before.found && after == before))
    case Add =>
      && shown == State(false, 0)
      && ((conflict && !applied && after == before)
          || (!conflict && applied && after == State(true, Wrap(before.counter + input))))
    case Delete => applied && !conflict && shown == State(false, 0) && after == State(false, 0)
    case Other(_) => applied && !conflict && shown == State(false, 0) && after == before
  }

  /** For every state and every recorded result, honest or not: the entry matches exactly if the
      store may answer so, and the next state is the one the store is then in. */
  lemma MatchesIffAnswered(state: State, entry: Entry, after: State)
    ensures Matches(state, entry) && After(state, entry) == after <==>
            Answers(state, entry.kind, entry.input, entry.result.applied, entry.result.conflict, entry.result.state, after)
  {
  }

  /** Of the recorded result, running a call looks at nothing but the conflict of an `Add` or `Replace`. */
  lemma OnlyConflictsAreTrusted(state: State, entry: Entry, other: Result)
    requires entry.kind.Add? || entry.kind.Replace? ==> other.conflict == entry.result.conflict
    ensures Apply(state, entry.(result := other)) == Apply(state, entry)
  {
  }

  // ---- creates and deletes ---------------------------------------------------------------

  predicate AppliedCreate(entry: Entry) { entry.kind == Create && entry.result.applied }

  predicate IsDelete(entry: Entry) { entry.kind == Delete }

  /** While the record exists, an applied create has to be preceded by a delete. */
  lemma {:induction false} CreateNeedsDelete(history: seq<Entry>, state: State, order: seq<nat>, q: nat) returns (m: nat)
    requires forall p :: 0 <= p < |order| ==> order[p] < |history|
    requires Explains(history, state, order) && state.found
    requires q < |order| && AppliedCreate(history[order[q]])
    ensures m < q && IsDelete(history[order[m]])
    decreases |order|
  {
    if IsDelete(history[order[0]]) {
      m := 0;
    } else {
      MatchesIffAnswered(state, history[order[0]], After(state, history[order[0]]));
      var rest := CreateNeedsDelete(history, After(state, history[order[0]]), order[1..], q - 1);
      m := rest + 1;
    }
  }

  /** Between two applied creates of an ordering that explains the results there is a delete. */
  lemma {:induction false} DeleteBetweenCreates(history: seq<Entry>, state: State, order: seq<nat>, p: nat, q: nat) returns (m: nat)
    requires forall k :: 0 <= k < |order| ==> order[k] < |history|
    requires Explains(history, state, order) && p < q < |order|
    requires AppliedCreate(history[order[p]]) && AppliedCreate(history[order[q]])
    ensures p < m < q && IsDelete(history[order[m]])
    decreases |order|
  {
    var after := After(state, history[order[0]]);
    var rest;
    MatchesIffAnswered(state, history[order[0]], after);
    if p == 0 {
      rest := CreateNeedsDelete(history, after, order[1..], q - 1);
    } else {
      rest := DeleteBetweenCreates(history, after, order[1..], p - 1, q - 1);
    }
    m := rest + 1;
  }

  /** Two applied creates and no delete: the history is never accepted. */
  lemma DoubleCreateIsRejected(initial: State, history: seq<Entry>, verdict: Verdict, i: nat, j: nat)
    requires i < j < |history| && AppliedCreate(history[i]) && AppliedCreate(history[j])
    requires forall k :: 0 <= k < |history| ==> !IsDelete(history[k])
    requires Exact(initial, history, verdict)
    ensures !verdict.Accepted?
  {
    forall order | IsLinearization(initial, history, order)
      ensures false
    {
      DistinctCover(order, |history|);
      assert i in order && j in order;
      var p :| 0 <= p < |order| && order[p] == i;
      var q :| 0 <= q < |order| && order[q] == j;
      var m := DeleteBetweenCreates(history, initial, order, if p < q then p else q, if p < q then q else p);
    }
  }
}
