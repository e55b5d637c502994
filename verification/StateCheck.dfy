/** The sequential oracle of the state checks, with its batching loop. */
module StateCheck {
  import opened Int64
  import opened Options

  const KEYS: nat := 3

  /** The label of a document: empty, or "value-" and a number. */
  datatype Label = Blank | Numbered(value: int64)

  datatype Document = Document(counter: int64, text: Label)

  /** One step of a sequence; kinds 0 to 4 write, 5 deletes, all others only read. */
  datatype Step = Step(kind: nat, key: nat, value: int64)

  datatype Mode = Create | Upsert | Replace

  datatype Program = AddProgram | InvalidProgram

  datatype Operation =
    | Put(key: nat, document: Document, mode: Mode)
    | Merge(key: nat, incoming: Document, program: Program)

  datatype WriteStatus = WriteApplied | WriteAccepted | WritePreconditionFailed | WriteFailed

  datatype FailureCode = PreconditionFailed | InvalidArgument | OtherFailure

  datatype Failure = Failure(code: FailureCode, retryable: bool, message: string)

  datatype WriteResult = WriteResult(index: int, status: WriteStatus, failure: Option<Failure>)

  datatype DeleteStatus = DeleteApplied | DeleteAccepted | DeleteFailed

  datatype DeleteResult = DeleteResult(index: int, status: DeleteStatus, failure: Option<Failure>)

  datatype ReadStatus = ReadFound | ReadNotFound | ReadFailed

  /** `document` is absent when the payload cannot be decoded. */
  datatype ReadResult = ReadResult(index: int, status: ReadStatus, failure: Option<Failure>, document: Option<Document>)

  datatype Call =
    | Write(operations: seq<Operation>)
    | Delete(keys: seq<nat>)
    | Read(keys: seq<nat>)

  datatype Reply =
    | RPCError
    | Written(writes: seq<WriteResult>)
    | Deleted(deletes: seq<DeleteResult>)
    | Found(founds: seq<ReadResult>)

  type State = map<nat, Document>

  /** The keys of a state check, out of order and with one repeated. */
  const CHECKED: seq<nat> := [2, 0, 1, 0]

  // ---- what a sequential server does, one action at a time --------------------------

  datatype Action = Do(operation: Operation) | Remove(key: nat)

  datatype Outcome = Applied | Refused(status: WriteStatus, code: FailureCode)

  /** `addProgram`, as Lua runs it on the stored and the incoming document. */
  function Added(state: State, key: nat, incoming: Document): Document {
    var current := if key in state then state[key] else Document(0, Blank);
    Document(Wrap(current.counter + incoming.counter), current.text)
  }

  function OutcomeOf(state: State, operation: Operation): Outcome {
    match operation
    case Put(key, _, mode) =>
      if (mode.Create? && key in state) || (mode.Replace? && key !in state)
      then Refused(WritePreconditionFailed, PreconditionFailed) else Applied
    case Merge(_, _, program) => if program.InvalidProgram? then Refused(WriteFailed, InvalidArgument) else Applied
  }

  function Perform(state: State, action: Action): State {
    match action
    case Remove(key) => state - {key}
    case Do(operation) =>
      if OutcomeOf(state, operation) != Applied then state
      else match operation
        case Put(key, document, _) => state[key := document]
        case Merge(key, incoming, _) => state[key := Added(state, key, incoming)]
  }

  function PerformAll(state: State, actions: seq<Action>): State {
    if actions == [] then state
    else Perform(PerformAll(state, actions[..|actions| - 1]), actions[|actions| - 1])
  }

  /** The outcomes of the writes among the actions, each against the state it meets. */
  function Outcomes(state: State, actions: seq<Action>): seq<Outcome> {
    if actions == [] then []
    else
      var before, last := actions[..|actions| - 1], actions[|actions| - 1];
      Outcomes(state, before) + (if last.Do? then [OutcomeOf(PerformAll(state, before), last.operation)] else [])
  }

  function Doing(operations: seq<Operation>): seq<Action> {
    seq(|operations|, i requires 0 <= i < |operations| => Do(operations[i]))
  }

  function Removing(keys: seq<nat>): seq<Action> {
    seq(|keys|, i requires 0 <= i < |keys| => Remove(keys[i]))
  }

  function ActionsOfCall(call: Call): seq<Action> {
    match call
    case Write(operations) => Doing(operations)
    case Delete(keys) => Removing(keys)
    case Read(_) => []
  }

  /** Everything the calls ask the server to do, in order. */
  function Actions(calls: seq<Call>): seq<Action> {
    if calls == [] then [] else Actions(calls[..|calls| - 1]) + ActionsOfCall(calls[|calls| - 1])
  }

  function StateAfter(calls: seq<Call>): State {
    PerformAll(map[], Actions(calls))
  }

  // ---- which replies are right -------------------------------------------------------

  predicate RightWrite(result: WriteResult, i: nat, outcome: Outcome) {
    && result.index == i
    && match outcome
       case Applied => result.status == WriteApplied && result.failure == None
       case Refused(status, code) =>
         result.status == status && result.failure.Some? && result.failure.value.code == code && !result.failure.value.retryable
  }

  predicate RightDelete(result: DeleteResult, i: nat) {
    result.index == i && result.status == DeleteApplied && result.failure == None
  }

  predicate RightRead(result: ReadResult, i: nat, key: nat, state: State) {
    && result.index == i && result.failure == None
    && if key in state then result.status == ReadFound && result.document == Some(state[key])
       else result.status == ReadNotFound
  }

  /** The reply tells what a sequential server in this state would have done. */
  ghost predicate Right(reply: Reply, state: State, call: Call) {
    match call
    case Write(operations) =>
      var outcomes := Outcomes(state, Doing(operations));
      reply.Written? && |reply.writes| == |outcomes| &&
      forall i :: 0 <= i < |outcomes| ==> RightWrite(reply.writes[i], i, outcomes[i])
    case Delete(keys) =>
      reply.Deleted? && |reply.deletes| == |keys| &&
      forall i :: 0 <= i < |keys| ==> RightDelete(reply.deletes[i], i)
    case Read(keys) =>
      reply.Found? && |reply.founds| == |keys| &&
      forall i :: 0 <= i < |keys| ==> RightRead(reply.founds[i], i, keys[i], state)
  }

  ghost predicate RightAt(answer: seq<Call> -> Reply, calls: seq<Call>, k: nat)
    requires k < |calls|
  {
    Right(answer(calls[..k + 1]), StateAfter(calls[..k]), calls[k])
  }

  /** Every reply so far was right for what was asked before it. */
  ghost predicate AllRight(answer: seq<Call> -> Reply, calls: seq<Call>) {
    forall k :: 0 <= k < |calls| ==> RightAt(answer, calls, k)
  }

  /** The service under test: any function of everything asked so far. */
  class Client {
    const answer: seq<Call> -> Reply
    var calls: seq<Call>

    constructor (answer: seq<Call> -> Reply)
      ensures this.answer == answer && calls == []
    {
      this.answer, calls := answer, [];
    }

    method Ask(call: Call) returns (reply: Reply)
      modifies this
      ensures calls == old(calls) + [call]
      ensures reply == answer(calls)
      ensures AllRight(answer, old(calls)) ==>
                (AllRight(answer, calls) <==> Right(reply, StateAfter(old(calls)), call))
    {
      AllRightSnoc(answer, calls, call);
      calls := calls + [call];
      reply := answer(calls);
    }
  }

  lemma AllRightSnoc(answer: seq<Call> -> Reply, calls: seq<Call>, call: Call)
    ensures AllRight(answer, calls + [call]) <==>
            AllRight(answer, calls) && Right(answer(calls + [call]), StateAfter(calls), call)
  {
    var longer := calls + [call];
    forall k | 0 <= k < |calls|
      ensures RightAt(answer, longer, k) <==> RightAt(answer, calls, k)
    {
      assert longer[..k + 1] == calls[..k + 1] && longer[..k] == calls[..k];
    }
    assert longer[..|calls| + 1] == longer && longer[..|calls|] == calls;
    assert RightAt(answer, longer, |calls|) <==> Right(answer(longer), StateAfter(calls), call);
  }

  // ---- laws of the semantics -----------------------------------------------------------

  lemma {:induction false} PerformConcat(state: State, a: seq<Action>, b: seq<Action>)
    ensures PerformAll(state, a + b) == PerformAll(PerformAll(state, a), b)
    decreases |b|
  {
    if b == [] {
      assert a + b == a;
    } else {
      var last := |b| - 1;
      PerformConcat(state, a, b[..last]);
      assert (a + b)[..|a| + last] == a + b[..last];
    }
  }

  lemma {:induction false} OutcomesConcat(state: State, a: seq<Action>, b: seq<Action>)
    ensures Outcomes(state, a + b) == Outcomes(state, a) + Outcomes(PerformAll(state, a), b)
    decreases |b|
  {
    if b == [] {
      assert a + b == a;
    } else {
      var last := |b| - 1;
      OutcomesConcat(state, a, b[..last]);
      PerformConcat(state, a, b[..last]);
      assert (a + b)[..|a| + last] == a + b[..last];
    }
  }

  lemma ActionsSnoc(calls: seq<Call>, call: Call)
    ensures Actions(calls + [call]) == Actions(calls) + ActionsOfCall(call)
    ensures StateAfter(calls + [call]) == PerformAll(StateAfter(calls), ActionsOfCall(call))
  {
    assert (calls + [call])[..|calls|] == calls;
    PerformConcat(map[], Actions(calls), ActionsOfCall(call));
  }

  lemma DoingSnoc(operations: seq<Operation>, operation: Operation)
    ensures Doing(operations + [operation]) == Doing(operations) + [Do(operation)]
  {
  }

  lemma {:induction false} OutcomesCount(state: State, operations: seq<Operation>)
    ensures |Outcomes(state, Doing(operations))| == |operations|
  {
    if operations != [] {
      var last := |operations| - 1;
      OutcomesCount(state, operations[..last]);
      DoingSnoc(operations[..last], operations[last]);
      assert operations == operations[..last] + [operations[last]];
      assert Doing(operations)[..last] == Doing(operations[..last]);
    }
  }

  // ---- the oracle ----------------------------------------------------------------------

  datatype Expectation = Expectation(status: WriteStatus, code: FailureCode)

  predicate Writes(step: Step) { step.kind < 5 }

  function ModeOf(kind: nat): Mode
    requires kind <= 2
  {
    match kind
    case 0 => Create
    case 1 => Upsert
    case 2 => Replace
  }

  function MakeOperation(step: Step): Operation
    requires Writes(step)
  {
    var payload := Document(step.value, Numbered(step.value));
    if step.kind <= 2 then Put(step.key, payload, ModeOf(step.kind))
    else Merge(step.key, payload, if step.kind == 4 then InvalidProgram else AddProgram)
  }

  function ActionsOfStep(step: Step): seq<Action> {
    if Writes(step) then [Do(MakeOperation(step))]
    else if step.kind == 5 then [Remove(step.key), Remove(step.key)]
    else []
  }

  /** The steps one at a time; a delete step deletes its key twice. */
  function ActionsOf(sequence: seq<Step>): seq<Action> {
    if sequence == [] then []
    else ActionsOf(sequence[..|sequence| - 1]) + ActionsOfStep(sequence[|sequence| - 1])
  }

  ghost predicate Expects(want: Expectation, outcome: Outcome) {
    match outcome
    case Applied => want.status == WriteApplied
    case Refused(status, code) => want == Expectation(status, code) && status != WriteApplied
  }

  /** The model's state runs ahead of the service by the pending operations. */
  ghost predicate Ahead(calls: seq<Call>, operations: seq<Operation>, expected: seq<Expectation>, state: State) {
    && state == PerformAll(StateAfter(calls), Doing(operations))
    && |Outcomes(StateAfter(calls), Doing(operations))| == |operations| == |expected|
    && forall i :: 0 <= i < |expected| ==> Expects(expected[i], Outcomes(StateAfter(calls), Doing(operations))[i])
  }

  /** Compares the results of a read RPC with the model. */
  method CompareReads(reply: Reply, keys: seq<nat>, state: State) returns (ok: bool)
    ensures ok <==> Right(reply, state, Read(keys))
  {
    if !reply.Found? || |reply.founds| != |keys| {
      return false;
    }
    for i := 0 to |keys|
      invariant forall j :: 0 <= j < i ==> RightRead(reply.founds[j], j, keys[j], state)
    {
      var result, key := reply.founds[i], keys[i];
      var status := if key in state then ReadFound else ReadNotFound;
      if result.index != i || result.status != status || result.failure != None {
        return false;
      }
      if key in state && result.document != Some(state[key]) {
        return false;
      }
    }
    return true;
  }

  /** `checkState`: reads all keys and compares them with the model. */
  method CheckState(client: Client, state: State) returns (ok: bool)
    requires AllRight(client.answer, client.calls) && state == StateAfter(client.calls)
    modifies client
    ensures client.calls == old(client.calls) + [Read(CHECKED)] && StateAfter(client.calls) == state
    ensures ok <==> AllRight(client.answer, client.calls)
  {
    ActionsSnoc(client.calls, Read(CHECKED));
    var reply := client.Ask(Read(CHECKED));
    ok := CompareReads(reply, CHECKED, state);
  }

  /** Compares the results of one write RPC with the expectations. */
  method CheckWrites(reply: Reply, expected: seq<Expectation>, ghost outcomes: seq<Outcome>) returns (ok: bool)
    requires |outcomes| == |expected| && forall i :: 0 <= i < |expected| ==> Expects(expected[i], outcomes[i])
    ensures ok <==> reply.Written? && |reply.writes| == |outcomes| &&
                    forall i :: 0 <= i < |outcomes| ==> RightWrite(reply.writes[i], i, outcomes[i])
  {
    if !reply.Written? || |reply.writes| != |expected| {
      return false;
    }
    for i := 0 to |expected|
      invariant forall j :: 0 <= j < i ==> RightWrite(reply.writes[j], j, outcomes[j])
    {
      var want, result := expected[i], reply.writes[i];
      if result.index != i || result.status != want.status {
        return false;
      }
      if want.status == WriteApplied {
        if result.failure != None {
          return false;
        }
      } else if result.failure == None || result.failure.value.code != want.code || result.failure.value.retryable {
        return false;
      }
    }
    return true;
  }

  function Round(operations: seq<Operation>): seq<Call> {
    if operations == [] then [] else [Write(operations), Read(CHECKED)]
  }

  /** The write RPC of `flush`. */
  method Submit(client: Client, operations: seq<Operation>, expected: seq<Expectation>, ghost state: State) returns (ok: bool)
    requires AllRight(client.answer, client.calls) && Ahead(client.calls, operations, expected, state)
    modifies client
    ensures client.calls == old(client.calls) + [Write(operations)] && StateAfter(client.calls) == state
    ensures ok <==> AllRight(client.answer, client.calls)
  {
    ActionsSnoc(client.calls, Write(operations));
    var reply := client.Ask(Write(operations));
    ok := CheckWrites(reply, expected, Outcomes(StateAfter(old(client.calls)), Doing(operations)));
  }

  /** `flush`: submits what is pending and checks the state. */
  method Flush(client: Client, operations: seq<Operation>, expected: seq<Expectation>, state: State) returns (ok: bool)
    requires AllRight(client.answer, client.calls) && Ahead(client.calls, operations, expected, state)
    modifies client
    ensures ok <==> AllRight(client.answer, client.calls)
    ensures client.calls <= old(client.calls) + Round(operations)
    ensures ok ==> client.calls == old(client.calls) + Round(operations) && StateAfter(client.calls) == state
  {
    if operations == [] {
      return true;
    }
    RoundPrefix(client.calls, operations);
    ok := Submit(client, operations, expected, state);
    if ok {
      ok := CheckState(client, state);
    }
  }

  lemma RoundPrefix(calls: seq<Call>, operations: seq<Operation>)
    requires operations != []
    ensures calls + [Write(operations)] <= calls + Round(operations)
    ensures calls + [Write(operations)] + [Read(CHECKED)] == calls + Round(operations)
  {
  }

  // ---- the calls of a whole sequence -----------------------------------------------------

  /** How many writes lead the sequence, up to `most`. */
  function Lead(sequence: seq<Step>, most: nat): (n: nat)
    ensures n <= |sequence| && n <= most && forall i :: 0 <= i < n ==> Writes(sequence[i])
    ensures n == most || n == |sequence| || !Writes(sequence[n])
  {
    if sequence == [] || most == 0 || !Writes(sequence[0]) then 0 else 1 + Lead(sequence[1..], most - 1)
  }

  function Operations(sequence: seq<Step>): seq<Operation>
    requires forall i :: 0 <= i < |sequence| ==> Writes(sequence[i])
  {
    seq(|sequence|, i requires 0 <= i < |sequence| => MakeOperation(sequence[i]))
  }

  function OtherCalls(step: Step): seq<Call> {
    if step.kind == 5 then [Delete([step.key, step.key]), Read(CHECKED)] else [Read(CHECKED)]
  }

  /** Runs of writes cut into batches, each batch and each delete followed by a state check. */
  function Plan(sequence: seq<Step>, batchSize: nat): seq<Call>
    requires batchSize > 0
    decreases |sequence|
  {
    if sequence == [] then []
    else
      var n := Lead(sequence, batchSize);
      if n == 0 then OtherCalls(sequence[0]) + Plan(sequence[1..], batchSize)
      else Round(Operations(sequence[..n])) + Plan(sequence[n..], batchSize)
  }

  /** Compares the results of a delete RPC. */
  method CompareDeletes(reply: Reply, keys: seq<nat>, ghost state: State) returns (ok: bool)
    ensures ok <==> Right(reply, state, Delete(keys))
  {
    if !reply.Deleted? || |reply.deletes| != |keys| {
      return false;
    }
    for i := 0 to |keys|
      invariant forall j :: 0 <= j < i ==> RightDelete(reply.deletes[j], j)
    {
      var result := reply.deletes[i];
      if result.index != i || result.status != DeleteApplied || result.failure != None {
        return false;
      }
    }
    return true;
  }

  /** The delete RPC, which names its key twice. */
  method DeleteTwice(client: Client, key: nat, ghost state: State) returns (ok: bool)
    requires AllRight(client.answer, client.calls) && state == StateAfter(client.calls)
    modifies client
    ensures client.calls == old(client.calls) + [Delete([key, key])] && StateAfter(client.calls) == state - {key}
    ensures ok <==> AllRight(client.answer, client.calls)
  {
    var call := Delete([key, key]);
    ActionsSnoc(client.calls, call);
    RemovedTwice(state, key);
    var reply := client.Ask(call);
    ok := CompareDeletes(reply, [key, key], state);
  }

  /** The body of the loop for a delete or a read. */
  method Other(client: Client, step: Step, state: State) returns (ok: bool, next: State)
    requires AllRight(client.answer, client.calls) && state == StateAfter(client.calls) && !Writes(step)
    modifies client
    ensures ok <==> AllRight(client.answer, client.calls)
    ensures client.calls <= old(client.calls) + OtherCalls(step)
    ensures ok ==> client.calls == old(client.calls) + OtherCalls(step) && StateAfter(client.calls) == next
  {
    next := state;
    if step.kind == 5 {
      ok := DeleteTwice(client, step.key, state);
      if !ok {
        return;
      }
      next := state - {step.key};
    }
    ok := CheckState(client, next);
  }

  lemma RemovedTwice(state: State, key: nat)
    ensures PerformAll(state, Removing([key, key])) == state - {key}
  {
    var actions := Removing([key, key]);
    assert actions == [Remove(key), Remove(key)];
    assert actions[..1] == [Remove(key)] && actions[..1][..0] == [];
    assert PerformAll(state, actions[..1]) == state - {key};
  }

  lemma AheadSnoc(calls: seq<Call>, operations: seq<Operation>, expected: seq<Expectation>, state: State, step: Step, want: Expectation, next: State)
    requires Ahead(calls, operations, expected, state) && Writes(step)
    requires Expects(want, OutcomeOf(state, MakeOperation(step))) && next == Perform(state, Do(MakeOperation(step)))
    ensures Ahead(calls, operations + [MakeOperation(step)], expected + [want], next)
  {
    var operation := MakeOperation(step);
    DoingSnoc(operations, operation);
    assert (Doing(operations) + [Do(operation)])[..|operations|] == Doing(operations);
  }

  /** What the loop computes for a write: its expectation and the next state of the model. */
  method Expect(state: State, step: Step) returns (want: Expectation, next: State)
    requires Writes(step)
    ensures Expects(want, OutcomeOf(state, MakeOperation(step)))
    ensures next == Perform(state, Do(MakeOperation(step)))
  {
    var exists_ := step.key in state;
    var current := if exists_ then state[step.key] else Document(0, Blank);
    want, next := Expectation(WriteApplied, OtherFailure), state;
    var value := Document(step.value, Numbered(step.value));
    if step.kind == 0 || step.kind == 2 {
      if (step.kind == 0 && exists_) || (step.kind == 2 && !exists_) {
        want := Expectation(WritePreconditionFailed, PreconditionFailed);
      }
    } else if step.kind == 4 {
      want := Expectation(WriteFailed, InvalidArgument);
    }
    if want.status == WriteApplied {
      if step.kind == 3 {
        current := current.(counter := Wrap(current.counter + step.value));
        value := current;
      }
      next := state[step.key := value];
    }
  }

  /** `plans[p]` is the plan of the steps from `p` on. */
  ghost predicate Plans(plans: seq<seq<Call>>, sequence: seq<Step>, batchSize: nat) {
    batchSize > 0 && |plans| == |sequence| + 1 && forall p :: 0 <= p <= |sequence| ==> PlanAt(plans, sequence, p, batchSize)
  }

  ghost predicate PlanAt(plans: seq<seq<Call>>, sequence: seq<Step>, p: nat, batchSize: nat)
    requires batchSize > 0 && p <= |sequence| < |plans|
  {
    plans[p] == Plan(sequence[p..], batchSize)
  }

  lemma PlansExist(sequence: seq<Step>, batchSize: nat) returns (plans: seq<seq<Call>>)
    requires batchSize > 0
    ensures Plans(plans, sequence, batchSize) && plans[0] == Plan(sequence, batchSize)
  {
    plans := seq(|sequence| + 1, p requires 0 <= p <= |sequence| => Plan(sequence[p..], batchSize));
    assert sequence[0..] == sequence;
  }

  lemma PlansEnd(plans: seq<seq<Call>>, sequence: seq<Step>, batchSize: nat)
    requires Plans(plans, sequence, batchSize)
    ensures plans[|sequence|] == []
  {
    assert PlanAt(plans, sequence, |sequence|, batchSize);
  }

  lemma FlushPlan(plans: seq<seq<Call>>, sequence: seq<Step>, from: nat, position: nat, batchSize: nat)
    requires Plans(plans, sequence, batchSize)
    requires from <= position <= |sequence| && position - from <= batchSize
    requires forall i :: from <= i < position ==> Writes(sequence[i])
    requires position - from == batchSize || position == |sequence| || !Writes(sequence[position])
    ensures plans[from] == Round(Operations(sequence[from..position])) + plans[position]
  {
    var rest, n := sequence[from..], position - from;
    assert rest[..n] == sequence[from..position] && rest[n..] == sequence[position..];
    PlanRound(rest, batchSize, n);
    assert PlanAt(plans, sequence, from, batchSize) && PlanAt(plans, sequence, position, batchSize);
  }

  lemma OtherPlan(plans: seq<seq<Call>>, sequence: seq<Step>, position: nat, batchSize: nat)
    requires Plans(plans, sequence, batchSize) && position < |sequence| && !Writes(sequence[position])
    ensures plans[position] == OtherCalls(sequence[position]) + plans[position + 1]
  {
    var rest := sequence[position..];
    assert Lead(rest, batchSize) == 0;
    assert rest[1..] == sequence[position + 1..];
    assert PlanAt(plans, sequence, position, batchSize) && PlanAt(plans, sequence, position + 1, batchSize);
  }

  lemma PlannedNext(before: seq<Call>, whole: seq<Call>, next: seq<Call>, rest: seq<Call>, calls: seq<Call>)
    requires before + (next + rest) == whole && calls <= before + next
    ensures calls <= whole
    ensures calls == before + next ==> calls + rest == whole
  {
    assert before + (next + rest) == before + next + rest;
  }

  /** A flush where the plan has one. */
  method FlushAt(client: Client, operations: seq<Operation>, expected: seq<Expectation>, state: State, ghost plans: seq<seq<Call>>, ghost sequence: seq<Step>, ghost position: nat, ghost batchSize: nat)
    returns (ok: bool)
    requires AllRight(client.answer, client.calls) && Ahead(client.calls, operations, expected, state)
    requires |operations| <= position <= |sequence| && |operations| <= batchSize && Plans(plans, sequence, batchSize)
    requires Recent(sequence, position, operations)
    requires |operations| == batchSize || position == |sequence| || !Writes(sequence[position])
    requires client.calls + plans[position - |operations|] == plans[0]
    modifies client
    ensures ok <==> AllRight(client.answer, client.calls)
    ensures client.calls <= plans[0]
    ensures ok ==> client.calls + plans[position] == plans[0] && StateAfter(client.calls) == state
  {
    RecentOperations(sequence, position, operations);
    FlushPlan(plans, sequence, position - |operations|, position, batchSize);
    ok := Flush(client, operations, expected, state);
    PlannedNext(old(client.calls), plans[0], Round(operations), plans[position], client.calls);
  }

  /** A delete or read where the plan has one. */
  method OtherAt(client: Client, state: State, sequence: seq<Step>, position: nat, ghost plans: seq<seq<Call>>, ghost batchSize: nat) returns (ok: bool, next: State)
    requires AllRight(client.answer, client.calls) && state == StateAfter(client.calls)
    requires position < |sequence| && !Writes(sequence[position]) && Plans(plans, sequence, batchSize)
    requires client.calls + plans[position] == plans[0]
    modifies client
    ensures ok <==> AllRight(client.answer, client.calls)
    ensures client.calls <= plans[0]
    ensures ok ==> client.calls + plans[position + 1] == plans[0] && StateAfter(client.calls) == next
  {
    OtherPlan(plans, sequence, position, batchSize);
    ok, next := Other(client, sequence[position], state);
    PlannedNext(old(client.calls), plans[0], OtherCalls(sequence[position]), plans[position + 1], client.calls);
  }

  lemma NothingAhead(calls: seq<Call>)
    ensures Ahead(calls, [], [], StateAfter(calls))
  {
  }

  /** Between two steps: the service is right so far and the model is ahead by what is pending. */
  ghost predicate Ready(answer: seq<Call> -> Reply, calls: seq<Call>, plans: seq<seq<Call>>, sequence: seq<Step>, position: nat, operations: seq<Operation>, expected: seq<Expectation>, state: State) {
    && |operations| <= position <= |sequence| < |plans|
    && Recent(sequence, position, operations)
    && calls + plans[position - |operations|] == plans[0]
    && AllRight(answer, calls)
    && Ahead(calls, operations, expected, state)
  }

  /** The body of the loop for a delete or a read. */
  method TakeOther(client: Client, sequence: seq<Step>, position: nat, ghost batchSize: nat, ghost plans: seq<seq<Call>>, operations: seq<Operation>, expected: seq<Expectation>, state: State)
    returns (ok: bool, next: State)
    requires Plans(plans, sequence, batchSize) && |operations| < batchSize && position < |sequence| && !Writes(sequence[position])
    requires Ready(client.answer, client.calls, plans, sequence, position, operations, expected, state)
    modifies client
    ensures ok <==> AllRight(client.answer, client.calls)
    ensures client.calls <= plans[0]
    ensures ok ==> Ready(client.answer, client.calls, plans, sequence, position + 1, [], [], next)
  {
    ok := FlushAt(client, operations, expected, state, plans, sequence, position, batchSize);
    next := state;
    if ok {
      ok, next := OtherAt(client, state, sequence, position, plans, batchSize);
      NothingAhead(client.calls);
    }
  }

  lemma ReadySnoc(answer: seq<Call> -> Reply, calls: seq<Call>, plans: seq<seq<Call>>, sequence: seq<Step>, position: nat, operations: seq<Operation>, expected: seq<Expectation>, state: State, want: Expectation, next: State)
    requires position < |sequence| && Writes(sequence[position])
    requires Ready(answer, calls, plans, sequence, position, operations, expected, state)
    requires Expects(want, OutcomeOf(state, MakeOperation(sequence[position])))
    requires next == Perform(state, Do(MakeOperation(sequence[position])))
    ensures Ready(answer, calls, plans, sequence, position + 1, operations + [MakeOperation(sequence[position])], expected + [want], next)
  {
    AheadSnoc(calls, operations, expected, state, sequence[position], want, next);
    RecentSnoc(sequence, position, operations);
  }

  /** A full batch is flushed at once, and so is the last one. */
  method FlushWhenFull(client: Client, sequence: seq<Step>, position: nat, batchSize: nat, ghost plans: seq<seq<Call>>, operations: seq<Operation>, expected: seq<Expectation>, state: State)
    returns (ok: bool, flushed: bool)
    requires Plans(plans, sequence, batchSize) && |operations| <= batchSize
    requires Ready(client.answer, client.calls, plans, sequence, position, operations, expected, state)
    modifies client
    ensures ok <==> AllRight(client.answer, client.calls)
    ensures !ok ==> client.calls <= plans[0]
    ensures flushed <==> |operations| == batchSize || position == |sequence|
    ensures ok && flushed ==> Ready(client.answer, client.calls, plans, sequence, position, [], [], state)
    ensures !flushed ==> client.calls == old(client.calls)
  {
    ok, flushed := true, false;
    if |operations| >= batchSize || position == |sequence| {
      ok := FlushAt(client, operations, expected, state, plans, sequence, position, batchSize);
      flushed := true;
      NothingAhead(client.calls);
    }
  }

  /** The body of the loop for a write. */
  method TakeWrite(client: Client, sequence: seq<Step>, position: nat, batchSize: nat, ghost plans: seq<seq<Call>>, operations: seq<Operation>, expected: seq<Expectation>, state: State)
    returns (ok: bool, operations': seq<Operation>, expected': seq<Expectation>, next: State)
    requires Plans(plans, sequence, batchSize) && |operations| < batchSize && position < |sequence| && Writes(sequence[position])
    requires Ready(client.answer, client.calls, plans, sequence, position, operations, expected, state)
    modifies client
    ensures ok <==> AllRight(client.answer, client.calls)
    ensures !ok ==> client.calls <= plans[0]
    ensures |operations'| < batchSize && (position + 1 == |sequence| ==> operations' == [])
    ensures ok ==> Ready(client.answer, client.calls, plans, sequence, position + 1, operations', expected', next)
  {
    var step := sequence[position];
    var want, flushed;
    want, next := Expect(state, step);
    ReadySnoc(client.answer, client.calls, plans, sequence, position, operations, expected, state, want, next);
    operations', expected' := operations + [MakeOperation(step)], expected + [want];
    ok, flushed := FlushWhenFull(client, sequence, position + 1, batchSize, plans, operations', expected', next);
    if flushed {
      operations', expected' := [], [];
    }
  }

  /** The body of the loop. */
  method TakeStep(client: Client, sequence: seq<Step>, position: nat, batchSize: nat, ghost plans: seq<seq<Call>>, operations: seq<Operation>, expected: seq<Expectation>, state: State)
    returns (ok: bool, operations': seq<Operation>, expected': seq<Expectation>, next: State)
    requires Plans(plans, sequence, batchSize) && |operations| < batchSize && position < |sequence|
    requires Ready(client.answer, client.calls, plans, sequence, position, operations, expected, state)
    modifies client
    ensures ok <==> AllRight(client.answer, client.calls)
    ensures !ok ==> client.calls <= plans[0]
    ensures |operations'| < batchSize && (position + 1 == |sequence| ==> operations' == [])
    ensures ok ==> Ready(client.answer, client.calls, plans, sequence, position + 1, operations', expected', next)
  {
    if Writes(sequence[position]) {
      ok, operations', expected', next := TakeWrite(client, sequence, position, batchSize, plans, operations, expected, state);
    } else {
      ok, next := TakeOther(client, sequence, position, batchSize, plans, operations, expected, state);
      operations', expected' := [], [];
    }
  }

  /** The loop of `runSequence`. */
  method Run(client: Client, sequence: seq<Step>, batchSize: nat, ghost plans: seq<seq<Call>>) returns (passed: bool)
    requires client.calls == [] && Plans(plans, sequence, batchSize)
    modifies client
    ensures passed <==> AllRight(client.answer, client.calls)
    ensures client.calls <= plans[0]
    ensures passed ==> client.calls == plans[0]
  {
    var state: State, operations: seq<Operation>, expected: seq<Expectation> := map[], [], [];
    ReadyAtStart(client.answer, plans, sequence);
    PlansEnd(plans, sequence, batchSize);
    var position := 0;
    while position < |sequence|
      invariant 0 <= position <= |sequence| && |operations| < batchSize && (position == |sequence| ==> operations == [])
      invariant Ready(client.answer, client.calls, plans, sequence, position, operations, expected, state)
    {
      passed, operations, expected, state := TakeStep(client, sequence, position, batchSize, plans, operations, expected, state);
      if !passed {
        return;
      }
      position := position + 1;
    }
    ReadyAtEnd(client.answer, client.calls, plans, sequence, operations, expected, state);
    passed := true;
  }

  lemma ReadyAtStart(answer: seq<Call> -> Reply, plans: seq<seq<Call>>, sequence: seq<Step>)
    requires |sequence| < |plans|
    ensures Ready(answer, [], plans, sequence, 0, [], [], map[])
  {
    NothingAhead([]);
  }

  lemma ReadyAtEnd(answer: seq<Call> -> Reply, calls: seq<Call>, plans: seq<seq<Call>>, sequence: seq<Step>, operations: seq<Operation>, expected: seq<Expectation>, state: State)
    requires Ready(answer, calls, plans, sequence, |sequence|, operations, expected, state)
    requires operations == [] && plans[|sequence|] == []
    ensures calls == plans[0] && AllRight(answer, calls)
  {
  }

  /** `runSequence` passes exactly when every reply is that of a sequential server. */
  method RunSequence(client: Client, sequence: seq<Step>, batchSize: nat) returns (passed: bool)
    requires batchSize > 0 && client.calls == [] && forall i :: 0 <= i < |sequence| ==> sequence[i].key < KEYS
    modifies client
    ensures client.calls <= Plan(sequence, batchSize)
    ensures passed ==> client.calls == Plan(sequence, batchSize)
    ensures passed <==> AllRight(client.answer, Plan(sequence, batchSize))
  {
    ghost var plans := PlansExist(sequence, batchSize);
    passed := Run(client, sequence, batchSize, plans);
    if AllRight(client.answer, plans[0]) {
      AllRightPrefix(client.answer, client.calls, plans[0]);
    }
  }

  lemma AllRightPrefix(answer: seq<Call> -> Reply, calls: seq<Call>, more: seq<Call>)
    requires calls <= more && AllRight(answer, more)
    ensures AllRight(answer, calls)
  {
    forall k | 0 <= k < |calls|
      ensures RightAt(answer, calls, k)
    {
      assert calls[..k + 1] == more[..k + 1] && calls[..k] == more[..k];
      assert RightAt(answer, more, k);
    }
  }

  /** The pending operations are those of the steps just read. */
  ghost predicate Recent(sequence: seq<Step>, position: nat, operations: seq<Operation>)
    requires |operations| <= position <= |sequence|
  {
    forall i :: 0 <= i < |operations| ==> IsOperationOf(operations[i], sequence[position - |operations| + i])
  }

  ghost predicate IsOperationOf(operation: Operation, step: Step) {
    Writes(step) && operation == MakeOperation(step)
  }

  lemma RecentSnoc(sequence: seq<Step>, position: nat, operations: seq<Operation>)
    requires |operations| <= position < |sequence| && Writes(sequence[position]) && Recent(sequence, position, operations)
    ensures Recent(sequence, position + 1, operations + [MakeOperation(sequence[position])])
  {
  }

  lemma RecentOperations(sequence: seq<Step>, position: nat, operations: seq<Operation>)
    requires |operations| <= position <= |sequence| && Recent(sequence, position, operations)
    ensures forall i :: position - |operations| <= i < position ==> Writes(sequence[i])
    ensures operations == Operations(sequence[position - |operations|..position])
  {
    var from := position - |operations|;
    forall i | from <= i < position
      ensures Writes(sequence[i])
    {
      assert IsOperationOf(operations[i - from], sequence[from + (i - from)]);
    }
    var steps := sequence[from..position];
    forall i | 0 <= i < |operations|
      ensures operations[i] == MakeOperation(steps[i])
    {
      assert IsOperationOf(operations[i], sequence[from + i]);
    }
  }

  /** A run of `n` writes that cannot grow is the next batch of the plan. */
  lemma PlanRound(rest: seq<Step>, batchSize: nat, n: nat)
    requires batchSize > 0 && n <= |rest| && n <= batchSize
    requires forall i :: 0 <= i < n ==> Writes(rest[i])
    requires n == batchSize || n == |rest| || !Writes(rest[n])
    ensures Plan(rest, batchSize) == Round(Operations(rest[..n])) + Plan(rest[n..], batchSize)
  {
  }
}
