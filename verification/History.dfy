/** Completed single-record histories and what it means for one to be explained
    by a sequential ordering. Nothing here mentions masks or search. */
module History {
  import opened Int64

  datatype Kind = Read | Set | Create | Replace | Add | Delete | Other(name: string)

  datatype State = State(found: bool, counter: int64)

  const ABSENT := State(false, 0)

  datatype Result = Result(applied: bool, conflict: bool, state: State)

  const APPLIED := Result(true, false, ABSENT)
  const NOT_APPLIED := Result(false, false, ABSENT)
  const CONFLICTED := Result(false, true, ABSENT)

  datatype Entry = Entry(id: int64, client: int64, start: int64, end: int64, kind: Kind, input: int64, result: Result)

  /** One call on the sequential document. The recorded result matters only in
      that a recorded conflict of an `Add` or a `Replace` had no effect. */
  function Apply(state: State, entry: Entry): (State, Result) {
    if entry.result.conflict && (entry.kind.Add? || entry.kind.Replace?) then
      (state, CONFLICTED)
    else
      match entry.kind
      case Read => (state, Result(false, false, state))
      case Delete => (ABSENT, APPLIED)
      case Create =>
        if state.found then (state, NOT_APPLIED) else (State(true, entry.input), APPLIED)
      case Replace =>
        if state.found then (state.(counter := entry.input), APPLIED) else (state, NOT_APPLIED)
      case Set => (State(true, entry.input), APPLIED)
      case Add => (State(true, Wrap(state.counter + entry.input)), APPLIED)
      case Other(_) => (state, APPLIED)
  }

  function After(state: State, entry: Entry): State {
    Apply(state, entry).0
  }

  /** The call explains its recorded result when run on `state`. */
  predicate Matches(state: State, entry: Entry) {
    Apply(state, entry).1 == entry.result
  }

  predicate WellFormedEntry(entry: Entry) {
    0 < entry.start < entry.end && !entry.kind.Other?
  }

  /** What the checker demands before it searches. */
  ghost predicate WellFormed(initial: State, history: seq<Entry>) {
    && (initial.found || initial.counter == 0)
    && (forall i :: 0 <= i < |history| ==> WellFormedEntry(history[i]))
    && (forall i, j :: 0 <= i < j < |history| ==> history[i].id != history[j].id)
  }

  ghost predicate NoRepeats(order: seq<nat>) {
    forall p, q :: 0 <= p < q < |order| ==> order[p] != order[q]
  }

  /** `order` lists every position of the history exactly once. */
  ghost predicate IsOrdering(order: seq<nat>, n: nat) {
    && |order| == n
    && (forall p :: 0 <= p < |order| ==> order[p] < n)
    && NoRepeats(order)
  }

  /** A call that ended before another one started comes first. */
  ghost predicate RespectsRealTime(history: seq<Entry>, order: seq<nat>)
    requires forall p :: 0 <= p < |order| ==> order[p] < |history|
  {
    forall p, q :: 0 <= p < q < |order| ==> !(history[order[q]].end < history[order[p]].start)
  }

  /** Running the calls one after another reproduces every recorded result. */
  ghost predicate Explains(history: seq<Entry>, state: State, order: seq<nat>)
    requires forall p :: 0 <= p < |order| ==> order[p] < |history|
    decreases |order|
  {
    order == [] ||
    (Matches(state, history[order[0]]) && Explains(history, After(state, history[order[0]]), order[1..]))
  }

  ghost predicate IsLinearization(initial: State, history: seq<Entry>, order: seq<nat>) {
    && IsOrdering(order, |history|)
    && RespectsRealTime(history, order)
    && Explains(history, initial, order)
  }

  ghost predicate Linearizable(initial: State, history: seq<Entry>) {
    exists order :: IsLinearization(initial, history, order)
  }
}
