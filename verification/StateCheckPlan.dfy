/** What the calls of the sequential oracle amount to: batching is invisible. */
module StateCheckPlan {
  import opened Int64
  import opened Options
  import opened StateCheck

  lemma ActionsLast(calls: seq<Call>, call: Call)
    ensures Actions(calls + [call]) == Actions(calls) + ActionsOfCall(call)
  {
    assert (calls + [call])[..|calls|] == calls;
  }

  lemma StepsLast(sequence: seq<Step>, step: Step)
    ensures ActionsOf(sequence + [step]) == ActionsOf(sequence) + ActionsOfStep(step)
  {
    assert (sequence + [step])[..|sequence|] == sequence;
  }

  lemma AppendAssociative(a: seq<Action>, b: seq<Action>, c: seq<Action>)
    ensures a + b + c == a + (b + c)
  {
  }

  lemma SplitLast<T>(a: seq<T>, b: seq<T>)
    requires b != []
    ensures b == b[..|b| - 1] + [b[|b| - 1]]
    ensures a + b == (a + b[..|b| - 1]) + [b[|b| - 1]]
  {
  }

  lemma {:induction false} ActionsConcat(a: seq<Call>, b: seq<Call>)
    ensures Actions(a + b) == Actions(a) + Actions(b)
    decreases |b|
  {
    if b == [] {
      assert a + b == a;
    } else {
      var before, call := b[..|b| - 1], b[|b| - 1];
      ActionsConcat(a, before);
      SplitLast(a, b);
      ActionsLast(a + before, call);
      ActionsLast(before, call);
      AppendAssociative(Actions(a), Actions(before), ActionsOfCall(call));
    }
  }

  lemma {:induction false} ActionsOfConcat(a: seq<Step>, b: seq<Step>)
    ensures ActionsOf(a + b) == ActionsOf(a) + ActionsOf(b)
    decreases |b|
  {
    if b == [] {
      assert a + b == a;
    } else {
      var before, step := b[..|b| - 1], b[|b| - 1];
      ActionsOfConcat(a, before);
      SplitLast(a, b);
      StepsLast(a + before, step);
      StepsLast(before, step);
      AppendAssociative(ActionsOf(a), ActionsOf(before), ActionsOfStep(step));
    }
  }

  lemma {:induction false} ActionsOfWrites(sequence: seq<Step>)
    requires forall i :: 0 <= i < |sequence| ==> Writes(sequence[i])
    ensures ActionsOf(sequence) == Doing(Operations(sequence))
  {
    if sequence != [] {
      ActionsOfWrites(sequence[..|sequence| - 1]);
    }
  }

  lemma SingleCall(call: Call)
    ensures Actions([call]) == ActionsOfCall(call)
  {
    assert [call][..0] == [];
    assert Actions([]) == [];
  }

  lemma RoundActions(operations: seq<Operation>)
    ensures Actions(Round(operations)) == Doing(operations)
  {
    if operations != [] {
      var calls := Round(operations);
      assert calls == [Write(operations)] + [Read(CHECKED)];
      ActionsConcat([Write(operations)], [Read(CHECKED)]);
      SingleCall(Write(operations));
      SingleCall(Read(CHECKED));
    }
  }

  lemma OtherActions(step: Step)
    requires !Writes(step)
    ensures Actions(OtherCalls(step)) == ActionsOf([step]) == ActionsOfStep(step)
  {
    assert [step][..0] == [] && ActionsOf([]) == [];
    SingleCall(Read(CHECKED));
    if step.kind == 5 {
      var delete := Delete([step.key, step.key]);
      assert OtherCalls(step) == [delete] + [Read(CHECKED)];
      ActionsConcat([delete], [Read(CHECKED)]);
      SingleCall(delete);
      assert Removing([step.key, step.key]) == [Remove(step.key), Remove(step.key)];
    }
  }

  lemma OtherFirst(step: Step, tail: seq<Step>, rest: seq<Call>)
    requires !Writes(step) && Actions(rest) == ActionsOf(tail)
    ensures Actions(OtherCalls(step) + rest) == ActionsOf([step] + tail)
  {
    OtherActions(step);
    ActionsConcat(OtherCalls(step), rest);
    ActionsOfConcat([step], tail);
  }

  lemma RoundFirst(head: seq<Step>, tail: seq<Step>, rest: seq<Call>)
    requires Actions(rest) == ActionsOf(tail)
    requires forall i :: 0 <= i < |head| ==> Writes(head[i])
    ensures Actions(Round(Operations(head)) + rest) == ActionsOf(head + tail)
  {
    RoundActions(Operations(head));
    ActionsOfWrites(head);
    ActionsConcat(Round(Operations(head)), rest);
    ActionsOfConcat(head, tail);
  }

  lemma PlanOther(sequence: seq<Step>, batchSize: nat)
    requires batchSize > 0 && sequence != [] && Lead(sequence, batchSize) == 0
    requires Actions(Plan(sequence[1..], batchSize)) == ActionsOf(sequence[1..])
    ensures Actions(Plan(sequence, batchSize)) == ActionsOf(sequence)
  {
    OtherFirst(sequence[0], sequence[1..], Plan(sequence[1..], batchSize));
    assert [sequence[0]] + sequence[1..] == sequence;
  }

  lemma PlanBatch(plan: seq<Call>, sequence: seq<Step>, n: nat, rest: seq<Call>)
    requires n <= |sequence| && forall i :: 0 <= i < n ==> Writes(sequence[i])
    requires plan == Round(Operations(sequence[..n])) + rest && Actions(rest) == ActionsOf(sequence[n..])
    ensures Actions(plan) == ActionsOf(sequence)
  {
    var head, tail := sequence[..n], sequence[n..];
    Rejoin(sequence, n);
    RoundFirst(head, tail, rest);
  }

  lemma Rejoin(sequence: seq<Step>, n: nat)
    requires n <= |sequence|
    ensures sequence[..n] + sequence[n..] == sequence
  {
  }

  /** Every write is submitted once and every delete twice, in the order of the steps, and none is left over. */
  lemma {:induction false} PlanActions(sequence: seq<Step>, batchSize: nat)
    requires batchSize > 0
    ensures Actions(Plan(sequence, batchSize)) == ActionsOf(sequence)
    decreases |sequence|
  {
    if sequence != [] {
      var n := Lead(sequence, batchSize);
      if n == 0 {
        PlanActions(sequence[1..], batchSize);
        PlanOther(sequence, batchSize);
      } else {
        PlanActions(sequence[n..], batchSize);
        PlanBatch(Plan(sequence, batchSize), sequence, n, Plan(sequence[n..], batchSize));
      }
    }
  }

  /** A batch is never empty or too large, and what changes the store is checked before the next change. */
  ghost predicate Disciplined(calls: seq<Call>, k: nat, batchSize: nat)
    requires k < |calls|
  {
    && (calls[k].Write? ==> 1 <= |calls[k].operations| <= batchSize)
    && (!calls[k].Read? ==> k + 1 < |calls| && calls[k + 1] == Read(CHECKED))
    && (calls[k].Read? ==> calls[k] == Read(CHECKED))
  }

  lemma {:induction false} PlanDisciplined(sequence: seq<Step>, batchSize: nat, k: nat)
    requires batchSize > 0 && k < |Plan(sequence, batchSize)|
    ensures Disciplined(Plan(sequence, batchSize), k, batchSize)
    decreases |sequence|
  {
    var n := Lead(sequence, batchSize);
    var first := if n == 0 then OtherCalls(sequence[0]) else Round(Operations(sequence[..n]));
    var tail := sequence[if n == 0 then 1 else n..];
    var rest := Plan(tail, batchSize);
    assert Plan(sequence, batchSize) == first + rest;
    if k >= |first| {
      PlanDisciplined(tail, batchSize, k - |first|);
      assert Disciplined(rest, k - |first|, batchSize);
    }
  }

  // ---- what the steps and the server mean ----------------------------------------------------

  /** What each kind of step asks for. */
  lemma StepMeans(key: nat, value: int64, kind: nat)
    ensures var payload := Document(value, Numbered(value));
            && ActionsOfStep(Step(0, key, value)) == [Do(Put(key, payload, Create))]
            && ActionsOfStep(Step(1, key, value)) == [Do(Put(key, payload, Upsert))]
            && ActionsOfStep(Step(2, key, value)) == [Do(Put(key, payload, Replace))]
            && ActionsOfStep(Step(3, key, value)) == [Do(Merge(key, payload, AddProgram))]
            && ActionsOfStep(Step(4, key, value)) == [Do(Merge(key, payload, InvalidProgram))]
            && ActionsOfStep(Step(5, key, value)) == [Remove(key), Remove(key)]
            && (kind >= 6 ==> ActionsOfStep(Step(kind, key, value)) == [])
  {
  }

  /** A put answers and leaves what its mode says. */
  lemma PutMeans(state: State, key: nat, document: Document, mode: Mode)
    ensures var refused := (mode == Create && key in state) || (mode == Replace && key !in state);
            && OutcomeOf(state, Put(key, document, mode)) ==
               (if refused then Refused(WritePreconditionFailed, PreconditionFailed) else Applied)
            && Perform(state, Do(Put(key, document, mode))) == (if refused then state else state[key := document])
  {
  }

  /** A merge adds to the counter, or to nothing, and keeps the label; the invalid program leaves no trace. */
  lemma MergeMeans(state: State, key: nat, incoming: Document)
    ensures OutcomeOf(state, Merge(key, incoming, AddProgram)) == Applied
    ensures Perform(state, Do(Merge(key, incoming, AddProgram))) ==
            if key in state then state[key := Document(Wrap(state[key].counter + incoming.counter), state[key].text)]
            else state[key := Document(incoming.counter, Blank)]
    ensures OutcomeOf(state, Merge(key, incoming, InvalidProgram)) == Refused(WriteFailed, InvalidArgument)
    ensures Perform(state, Do(Merge(key, incoming, InvalidProgram))) == state
  {
  }

  function AddAction(key: nat, value: int64): Action { Do(Merge(key, Document(value, Numbered(value)), AddProgram)) }

  /** The store before, between and after merges of the values into one key. */
  ghost predicate IsAdding(states: seq<State>, key: nat, values: seq<int64>) {
    && |states| == |values| + 1
    && forall i :: 0 <= i < |values| ==> states[i + 1] == Perform(states[i], AddAction(key, values[i]))
  }

  ghost function SumFirst(values: seq<int64>, n: nat): int
    requires n <= |values|
  {
    if n == 0 then 0 else SumFirst(values, n - 1) + values[n - 1]
  }

  ghost function Totalled(state: State, key: nat, total: int, text: Label): State {
    state[key := Document(Wrap(total), text)]
  }

  /** One more merge on a counter that was wrapped before. */
  lemma MergeOnce(state: State, key: nat, total: int, text: Label, value: int64)
    ensures Perform(Totalled(state, key, total, text), AddAction(key, value)) == Totalled(state, key, total + value, text)
  {
    WrapAdd(total, value);
  }

  lemma FirstMerge(state: State, key: nat, value: int64)
    ensures var before := if key in state then state[key] else Document(0, Blank);
            Perform(state, AddAction(key, value)) == Totalled(state, key, before.counter + value, before.text)
  {
  }

  /** However many merges in a row, the counter is the sum, wrapped once, and nothing else changes. */
  lemma {:induction false} MergesAddUp(states: seq<State>, key: nat, values: seq<int64>, n: nat)
    requires IsAdding(states, key, values) && 0 < n <= |values|
    ensures var before := if key in states[0] then states[0][key] else Document(0, Blank);
            states[n] == Totalled(states[0], key, before.counter + SumFirst(values, n), before.text)
  {
    assert states[n - 1 + 1] == Perform(states[n - 1], AddAction(key, values[n - 1]));
    if n == 1 {
      FirstMerge(states[0], key, values[0]);
    } else {
      var before := if key in states[0] then states[0][key] else Document(0, Blank);
      MergesAddUp(states, key, values, n - 1);
      MergeOnce(states[0], key, before.counter + SumFirst(values, n - 1), before.text, values[n - 1]);
    }
  }

  // ---- one at a time or in batches ----------------------------------------------------------

  /** The outcomes of all writes, call by call. */
  ghost function CallOutcomes(calls: seq<Call>): seq<Outcome> {
    if calls == [] then []
    else
      var before, last := calls[..|calls| - 1], calls[|calls| - 1];
      CallOutcomes(before) + Outcomes(StateAfter(before), ActionsOfCall(last))
  }

  lemma {:induction false} CallOutcomesAreOutcomes(calls: seq<Call>)
    ensures CallOutcomes(calls) == Outcomes(map[], Actions(calls))
  {
    if calls != [] {
      var before := calls[..|calls| - 1];
      CallOutcomesAreOutcomes(before);
      OutcomesConcat(map[], Actions(before), ActionsOfCall(calls[|calls| - 1]));
    }
  }

  /** Whatever the batch size, each write has the outcome it has one at a time, and so has the store. */
  lemma BatchingInvisible(sequence: seq<Step>, batchSize: nat)
    requires batchSize > 0
    ensures CallOutcomes(Plan(sequence, batchSize)) == Outcomes(map[], ActionsOf(sequence))
    ensures StateAfter(Plan(sequence, batchSize)) == PerformAll(map[], ActionsOf(sequence))
  {
    PlanActions(sequence, batchSize);
    CallOutcomesAreOutcomes(Plan(sequence, batchSize));
  }

  // ---- servers ---------------------------------------------------------------------------------

  function Results(outcomes: seq<Outcome>): seq<WriteResult> {
    seq(|outcomes|, i requires 0 <= i < |outcomes| =>
      match outcomes[i]
      case Applied => WriteResult(i, WriteApplied, None)
      case Refused(status, code) => WriteResult(i, status, Some(Failure(code, false, "refused"))))
  }

  function ReadAt(state: State, key: nat, i: nat): ReadResult {
    if key in state then ReadResult(i, ReadFound, None, Some(state[key])) else ReadResult(i, ReadNotFound, None, None)
  }

  /** A server that performs its calls one action at a time. */
  function Sequential(calls: seq<Call>): Reply {
    if calls == [] then RPCError
    else
      var state, call := StateAfter(calls[..|calls| - 1]), calls[|calls| - 1];
      match call
      case Write(operations) => Written(Results(Outcomes(state, Doing(operations))))
      case Delete(keys) => Deleted(seq(|keys|, i => DeleteResult(i, DeleteApplied, None)))
      case Read(keys) => Found(seq(|keys|, i requires 0 <= i < |keys| => ReadAt(state, keys[i], i)))
  }

  /** A sequential server is right about every call, so it passes with every batch size. */
  lemma SequentialPasses(calls: seq<Call>)
    ensures AllRight(Sequential, calls)
  {
    forall k | 0 <= k < |calls|
      ensures RightAt(Sequential, calls, k)
    {
      assert calls[..k + 1][..k] == calls[..k];
      SequentialRight(calls[..k + 1]);
    }
  }

  lemma SequentialRight(calls: seq<Call>)
    requires calls != []
    ensures Right(Sequential(calls), StateAfter(calls[..|calls| - 1]), calls[|calls| - 1])
  {
    var call := calls[|calls| - 1];
    if call.Write? {
      ResultsRight(Outcomes(StateAfter(calls[..|calls| - 1]), Doing(call.operations)));
    }
  }

  lemma ResultsRight(outcomes: seq<Outcome>)
    ensures forall i :: 0 <= i < |outcomes| ==> RightWrite(Results(outcomes)[i], i, outcomes[i])
  {
  }

  // ---- what one state check sees ----------------------------------------------------------------

  /** The four reads tell any two stores over the three keys apart. */
  lemma CheckSeesEverything(reply: Reply, a: State, b: State)
    requires forall key :: key in a || key in b ==> key < KEYS
    requires Right(reply, a, Read(CHECKED)) && Right(reply, b, Read(CHECKED))
    ensures a == b
  {
    assert CHECKED[0] == 2 && CHECKED[1] == 0 && CHECKED[2] == 1;
    forall key: nat
      ensures key in a <==> key in b
      ensures key in a ==> a[key] == b[key]
    {
      if key < KEYS {
        var i := if key == 2 then 0 else key + 1;
        assert CHECKED[i] == key;
        assert RightRead(reply.founds[i], i, CHECKED[i], a) && RightRead(reply.founds[i], i, CHECKED[i], b);
      }
    }
    assert a.Keys == b.Keys;
  }
}
