/** The concurrent-history test: three clients make three calls each against one
    record, a final read follows, and every call is stamped before and after. */
module HistoryDriver {
  import opened Int64
  import opened Sets
  import opened History
  import opened HistoryPaths
  import opened HistorySearch
  import opened HistoryCheck
  import opened HistoryBounds
  import opened Masks

  const CLIENTS: nat := 3
  const CALLS: nat := 3
  const ENTRIES: nat := 10
  const MAX_INPUT: nat := 5

  // ---- replies and what the driver makes of them ---------------------------

  datatype Status = ReadFound | ReadNotFound | DeleteApplied | WriteApplied | WritePreconditionFailed | OtherStatus
  datatype FailureCode = CodeConflict | CodePreconditionFailed | OtherCode
  datatype Failure = NoFailure | Failure(code: FailureCode, retryable: bool)
  datatype Document = NoDocument | Undecodable | Fields(values: map<string, int64>)
  datatype Reply = Reply(rpcFailed: bool, results: nat, operationIndex: int, status: Status, failure: Failure, document: Document)

  datatype Outcome = CallError | Completed(result: Result)

  function RunHistoryCall(kind: Kind, reply: Reply): Outcome {
    if reply.rpcFailed || reply.results != 1 || reply.operationIndex != 0 then CallError
    else if kind.Read? then
      if reply.failure != NoFailure then CallError
      else
        match reply.status
        case ReadNotFound => Completed(NOT_APPLIED)
        case ReadFound =>
          if reply.document.Fields? && "counter" in reply.document.values && |reply.document.values| == 1 then
            Completed(Result(false, false, State(true, reply.document.values["counter"])))
          else CallError
        case _ => CallError
    else if kind.Delete? then
      if reply.status == DeleteApplied && reply.failure == NoFailure then Completed(APPLIED) else CallError
    else if reply.status == WritePreconditionFailed && reply.failure == Failure(CodeConflict, true) && (kind.Add? || kind.Replace?) then
      Completed(CONFLICTED)
    else if reply.status == WritePreconditionFailed && (kind.Create? || kind.Replace?) then
      if reply.failure == Failure(CodePreconditionFailed, false) then Completed(NOT_APPLIED) else CallError
    else if reply.status != WriteApplied || reply.failure != NoFailure then CallError
    else Completed(APPLIED)
  }

  /** The definite answers for each kind of call, and the result that each of them names. */
  ghost predicate DefiniteAnswer(kind: Kind, reply: Reply, result: Result) {
    && !reply.rpcFailed && reply.results == 1 && reply.operationIndex == 0
    && (|| (kind == Read && reply.status == ReadNotFound && reply.failure == NoFailure
            && result == Result(false, false, State(false, 0)))
        || (kind == Read && reply.status == ReadFound && reply.failure == NoFailure
            && (exists counter: int64 :: reply.document == Fields(map["counter" := counter])
                                        && result == Result(false, false, State(true, counter))))
        || (kind == Delete && reply.status == DeleteApplied && reply.failure == NoFailure
            && result == Result(true, false, State(false, 0)))
        || (kind != Read && kind != Delete && reply.status == WriteApplied && reply.failure == NoFailure
            && result == Result(true, false, State(false, 0)))
        || ((kind == Create || kind == Replace) && reply.status == WritePreconditionFailed
            && reply.failure == Failure(CodePreconditionFailed, false)
            && result == Result(false, false, State(false, 0)))
        || ((kind == Add || kind == Replace) && reply.status == WritePreconditionFailed
            && reply.failure == Failure(CodeConflict, true)
            && result == Result(false, true, State(false, 0))))
  }

  /** For every reply: the call completes exactly with a definite answer, and records what that says. */
  lemma CompletedIffDefinite(kind: Kind, reply: Reply, result: Result)
    ensures RunHistoryCall(kind, reply) == Completed(result) <==> DefiniteAnswer(kind, reply, result)
  {
    if reply.document.Fields? && "counter" in reply.document.values {
      var values := reply.document.values;
      SingleField(values, "counter");
    }
  }

  lemma SingleField(values: map<string, int64>, name: string)
    requires name in values
    ensures |values| == 1 <==> values == map[name := values[name]]
  {
    assert |map[name := values[name]]| == 1;
    if |values| == 1 {
      EqualSize({name}, values.Keys);
    }
  }

  function Definite(status: Status): Reply {
    Reply(false, 1, 0, status, NoFailure, NoDocument)
  }

  /** A linearizable store: the call takes effect at once, or a compare-and-set
      loop gives up without any effect. */
  function Serve(state: State, kind: Kind, input: int64, conflict: bool): (State, Reply)
    requires !kind.Other?
    requires conflict ==> kind.Add? || kind.Replace?
  {
    if conflict then
      (state, Definite(WritePreconditionFailed).(failure := Failure(CodeConflict, true)))
    else
      match kind
      case Read =>
        if state.found then (state, Definite(ReadFound).(document := Fields(map["counter" := state.counter])))
        else (state, Definite(ReadNotFound))
      case Delete => (ABSENT, Definite(DeleteApplied))
      case Create =>
        if state.found then (state, Definite(WritePreconditionFailed).(failure := Failure(CodePreconditionFailed, false)))
        else (State(true, input), Definite(WriteApplied))
      case Replace =>
        if state.found then (State(true, input), Definite(WriteApplied))
        else (state, Definite(WritePreconditionFailed).(failure := Failure(CodePreconditionFailed, false)))
      case Set => (State(true, input), Definite(WriteApplied))
      case Add => (State(true, Wrap((if state.found then state.counter else 0) + input)), Definite(WriteApplied))
  }

  /** The driver records, for each reply of such a store, the result the
      sequential specification demands, and the specification then moves the
      document the way the store did. */
  lemma ReplyMatchesSpecification(state: State, entry: Entry, conflict: bool)
    requires !entry.kind.Other? && (conflict ==> entry.kind.Add? || entry.kind.Replace?)
    requires state.found || state.counter == 0
    ensures var (after, reply) := Serve(state, entry.kind, entry.input, conflict);
            && RunHistoryCall(entry.kind, reply).Completed?
            && var recorded := entry.(result := RunHistoryCall(entry.kind, reply).result);
               Apply(state, recorded) == (after, recorded.result)
  {
    if entry.kind.Read? && state.found {
      assert |map["counter" := state.counter]| == 1;
    }
  }

  // ---- runs ------------------------------------------------------------------

  datatype Slot = Waiting(entry: Entry) | Started(entry: Entry) | Effected(entry: Entry) | Finished(entry: Entry)

  /** `effects` lists the calls in the order in which they took effect. */
  datatype World = World(clock: nat, record: State, slots: seq<Slot>, effects: seq<nat>)

  datatype Action = StampStart(i: nat) | TakeEffect(i: nat, conflict: bool) | StampEnd(i: nat)

  datatype Plan = Plan(kinds: seq<Kind>, inputs: seq<int64>)

  predicate ValidPlan(plan: Plan) {
    && |plan.kinds| == |plan.inputs| == ENTRIES
    && plan.kinds[ENTRIES - 1] == Read && plan.inputs[ENTRIES - 1] == 0
    && (forall i :: 0 <= i < ENTRIES ==> !plan.kinds[i].Other?)
    && (forall i :: 0 <= i < ENTRIES - 1 ==> 1 <= plan.inputs[i] <= MAX_INPUT)
  }

  function ClientOf(i: nat): int64
    requires i < ENTRIES
  {
    if i == ENTRIES - 1 then 0 else i / CALLS
  }

  function Planned(plan: Plan, i: nat): Entry
    requires ValidPlan(plan) && i < ENTRIES
  {
    Entry(i, ClientOf(i), 0, 0, plan.kinds[i], plan.inputs[i], NOT_APPLIED)
  }

  function Init(plan: Plan): World
    requires ValidPlan(plan)
  {
    World(0, ABSENT, seq(ENTRIES, i requires 0 <= i < ENTRIES => Waiting(Planned(plan, i))), [])
  }

  /** A client makes its calls one after another; the final read waits for all. */
  predicate Ready(w: World, i: nat)
    requires |w.slots| == ENTRIES && i < ENTRIES
  {
    if i == ENTRIES - 1 then forall j :: 0 <= j < ENTRIES - 1 ==> w.slots[j].Finished?
    else i % CALLS == 0 || w.slots[i - 1].Finished?
  }

  predicate Enabled(w: World, a: Action)
    requires |w.slots| == ENTRIES
  {
    && a.i < ENTRIES
    && match a
       case StampStart(i) => w.slots[i].Waiting? && Ready(w, i) && w.clock < MAX
       case TakeEffect(i, conflict) =>
         && w.slots[i].Started?
         && !w.slots[i].entry.kind.Other?
         && (conflict ==> w.slots[i].entry.kind.Add? || w.slots[i].entry.kind.Replace?)
       case StampEnd(i) => w.slots[i].Effected? && w.clock < MAX
  }

  function Step(w: World, a: Action): World
    requires |w.slots| == ENTRIES && Enabled(w, a)
  {
    var entry := w.slots[a.i].entry;
    match a
    case StampStart(i) =>
      w.(clock := w.clock + 1, slots := w.slots[i := Started(entry.(start := w.clock + 1))])
    case TakeEffect(i, conflict) =>
      var (after, reply) := Serve(w.record, entry.kind, entry.input, conflict);
      var outcome := RunHistoryCall(entry.kind, reply);
      var result := if outcome.Completed? then outcome.result else NOT_APPLIED;
      w.(record := after, slots := w.slots[i := Effected(entry.(result := result))], effects := w.effects + [i])
    case StampEnd(i) =>
      w.(clock := w.clock + 1, slots := w.slots[i := Finished(entry.(end := w.clock + 1))])
  }

  ghost predicate IsRun(w: World, actions: seq<Action>, last: World)
    decreases |actions|
  {
    if actions == [] then w == last
    else |w.slots| == ENTRIES && Enabled(w, actions[0]) && IsRun(Step(w, actions[0]), actions[1..], last)
  }

  // ---- what every run keeps --------------------------------------------------

  function Entries(w: World): seq<Entry> {
    seq(|w.slots|, i requires 0 <= i < |w.slots| => w.slots[i].entry)
  }

  ghost predicate Follows(plan: Plan, i: nat, slot: Slot)
    requires ValidPlan(plan) && i < ENTRIES
  {
    && slot.entry.id == i
    && slot.entry.kind == plan.kinds[i]
    && slot.entry.input == plan.inputs[i]
  }

  ghost predicate Stamped(w: World, slot: Slot) {
    && (slot.Started? || slot.Effected? ==> 0 < slot.entry.start <= w.clock)
    && (slot.Finished? ==> 0 < slot.entry.start < slot.entry.end <= w.clock)
  }

  /** The document after running `order` one call at a time. */
  ghost function Final(history: seq<Entry>, state: State, order: seq<nat>): State
    requires forall p :: 0 <= p < |order| ==> order[p] < |history|
    decreases |order|
  {
    if order == [] then state else Final(history, After(state, history[order[0]]), order[1..])
  }

  ghost predicate Took(slot: Slot) {
    slot.Effected? || slot.Finished?
  }

  ghost predicate SlotsValid(plan: Plan, w: World)
    requires ValidPlan(plan)
  {
    && |w.slots| == ENTRIES
    && (forall i :: 0 <= i < ENTRIES ==> Follows(plan, i, w.slots[i]) && Stamped(w, w.slots[i]))
  }

  ghost predicate EffectsValid(w: World) {
    && (forall p :: 0 <= p < |w.effects| ==> w.effects[p] < |w.slots| && Took(w.slots[w.effects[p]]))
    && (forall i: nat :: i < |w.slots| && Took(w.slots[i]) ==> i in w.effects)
    && NoRepeats(w.effects)
  }

  /** Whoever took effect earlier had started before the later one ended. */
  ghost predicate EffectsOrdered(w: World)
    requires forall p :: 0 <= p < |w.effects| ==> w.effects[p] < |w.slots|
  {
    forall p, q :: 0 <= p < q < |w.effects| && w.slots[w.effects[q]].Finished? ==>
      w.slots[w.effects[p]].entry.start < w.slots[w.effects[q]].entry.end
  }

  ghost predicate Explained(w: World)
    requires forall p :: 0 <= p < |w.effects| ==> w.effects[p] < |w.slots|
  {
    && (w.record.found || w.record.counter == 0)
    && Explains(Entries(w), ABSENT, w.effects)
    && Final(Entries(w), ABSENT, w.effects) == w.record
  }

  ghost predicate Invariant(plan: Plan, w: World)
    requires ValidPlan(plan)
  {
    SlotsValid(plan, w) && EffectsValid(w) && EffectsOrdered(w) && Explained(w)
  }

  /** Replaying looks only at kinds, inputs and results. */
  lemma {:induction false} ReplayAgrees(h: seq<Entry>, g: seq<Entry>, state: State, order: seq<nat>)
    requires forall p :: 0 <= p < |order| ==> order[p] < |h| && order[p] < |g|
    requires forall p :: 0 <= p < |order| ==>
               var x, y := h[order[p]], g[order[p]]; x.kind == y.kind && x.input == y.input && x.result == y.result
    ensures Explains(h, state, order) <==> Explains(g, state, order)
    ensures Final(h, state, order) == Final(g, state, order)
    decreases |order|
  {
    if order != [] {
      var x, y := h[order[0]], g[order[0]];
      assert Apply(state, x) == Apply(state, y);
      ReplayAgrees(h, g, After(state, x), order[1..]);
    }
  }

  lemma {:induction false} ReplayAppend(h: seq<Entry>, state: State, order: seq<nat>, i: nat)
    requires i < |h| && forall p :: 0 <= p < |order| ==> order[p] < |h|
    requires Explains(h, state, order) && Matches(Final(h, state, order), h[i])
    ensures Explains(h, state, order + [i])
    ensures Final(h, state, order + [i]) == After(Final(h, state, order), h[i])
    decreases |order|
  {
    var longer := order + [i];
    if order == [] {
      assert longer[1..] == [];
    } else {
      assert longer[0] == order[0] && longer[1..] == order[1..] + [i];
      ReplayAppend(h, After(state, h[order[0]]), order[1..], i);
    }
  }

  lemma InitInvariant(plan: Plan)
    requires ValidPlan(plan)
    ensures Invariant(plan, Init(plan))
  {
  }

  lemma SlotsStayValid(plan: Plan, w: World, a: Action)
    requires ValidPlan(plan) && SlotsValid(plan, w) && Enabled(w, a)
    ensures SlotsValid(plan, Step(w, a))
  {
    var next := Step(w, a);
    assert forall i :: 0 <= i < ENTRIES && i != a.i ==> next.slots[i] == w.slots[i];
  }

  lemma EffectsStayValid(w: World, a: Action)
    requires |w.slots| == ENTRIES && EffectsValid(w) && Enabled(w, a)
    ensures EffectsValid(Step(w, a))
  {
    var next := Step(w, a);
    assert forall i :: 0 <= i < ENTRIES && i != a.i ==> next.slots[i] == w.slots[i];
    if a.TakeEffect? {
      assert !Took(w.slots[a.i]);
      assert next.effects[|w.effects|] == a.i;
    }
  }

  lemma StartKeepsOrder(plan: Plan, w: World, a: Action)
    requires ValidPlan(plan) && Invariant(plan, w) && Enabled(w, a) && a.StampStart?
    ensures EffectsOrdered(Step(w, a)) && Explained(Step(w, a))
  {
    var next := Step(w, a);
    assert forall p :: 0 <= p < |w.effects| ==> next.slots[w.effects[p]] == w.slots[w.effects[p]];
    ReplayAgrees(Entries(w), Entries(next), ABSENT, w.effects);
  }

  lemma EndKeepsOrder(plan: Plan, w: World, a: Action)
    requires ValidPlan(plan) && Invariant(plan, w) && Enabled(w, a) && a.StampEnd?
    ensures EffectsOrdered(Step(w, a)) && Explained(Step(w, a))
  {
    var next := Step(w, a);
    forall p, q | 0 <= p < q < |w.effects| && next.slots[w.effects[q]].Finished?
      ensures next.slots[w.effects[p]].entry.start < next.slots[w.effects[q]].entry.end
    {
      assert next.slots[w.effects[p]].entry.start == w.slots[w.effects[p]].entry.start;
      assert Stamped(w, w.slots[w.effects[p]]);
    }
    ReplayAgrees(Entries(w), Entries(next), ABSENT, w.effects);
  }

  lemma EffectKeepsOrder(plan: Plan, w: World, a: Action)
    requires ValidPlan(plan) && Invariant(plan, w) && Enabled(w, a) && a.TakeEffect?
    ensures EffectsOrdered(Step(w, a))
  {
    var next := Step(w, a);
    assert forall p :: 0 <= p < |w.effects| ==> w.effects[p] != a.i && next.slots[w.effects[p]] == w.slots[w.effects[p]];
  }

  /** One more call at the end of an order, whose own entry alone has changed. */
  lemma ExplainsOneMore(h: seq<Entry>, g: seq<Entry>, order: seq<nat>, i: nat)
    requires i < |h| && |g| == |h| && forall k :: 0 <= k < |h| && k != i ==> g[k] == h[k]
    requires forall p :: 0 <= p < |order| ==> order[p] < |h| && order[p] != i
    requires Explains(h, ABSENT, order) && Matches(Final(h, ABSENT, order), g[i])
    ensures Explains(g, ABSENT, order + [i])
    ensures Final(g, ABSENT, order + [i]) == After(Final(h, ABSENT, order), g[i])
  {
    ReplayAgrees(h, g, ABSENT, order);
    ReplayAppend(g, ABSENT, order, i);
  }

  /** Taking effect changes one entry, whose call had not taken effect before. */
  lemma EffectEntries(w: World, a: Action)
    requires |w.slots| == ENTRIES && EffectsValid(w) && Enabled(w, a) && a.TakeEffect?
    ensures |Entries(Step(w, a))| == |Entries(w)| == ENTRIES
    ensures forall k :: 0 <= k < ENTRIES && k != a.i ==> Entries(Step(w, a))[k] == Entries(w)[k]
    ensures forall p :: 0 <= p < |w.effects| ==> w.effects[p] < ENTRIES && w.effects[p] != a.i
    ensures Step(w, a).effects == w.effects + [a.i]
  {
  }

  /** The recorded result is what the specification demands of the record. */
  lemma EffectMatches(w: World, a: Action)
    requires |w.slots| == ENTRIES && Enabled(w, a) && a.TakeEffect? && (w.record.found || w.record.counter == 0)
    ensures Matches(w.record, Entries(Step(w, a))[a.i])
    ensures After(w.record, Entries(Step(w, a))[a.i]) == Step(w, a).record
  {
    ReplyMatchesSpecification(w.record, w.slots[a.i].entry, a.conflict);
  }

  lemma RecordStaysPlain(value: State, entry: Entry)
    requires value.found || value.counter == 0
    ensures After(value, entry).found || After(value, entry).counter == 0
  {
  }

  lemma EffectKeepsExplained(plan: Plan, w: World, a: Action)
    requires ValidPlan(plan) && Invariant(plan, w) && Enabled(w, a) && a.TakeEffect?
    ensures Explained(Step(w, a))
  {
    EffectEntries(w, a);
    EffectMatches(w, a);
    RecordStaysPlain(w.record, Entries(Step(w, a))[a.i]);
    ExplainsOneMore(Entries(w), Entries(Step(w, a)), w.effects, a.i);
  }

  lemma StepKeeps(plan: Plan, w: World, a: Action)
    requires ValidPlan(plan) && Invariant(plan, w) && Enabled(w, a)
    ensures Invariant(plan, Step(w, a))
  {
    SlotsStayValid(plan, w, a);
    EffectsStayValid(w, a);
    match a {
      case StampStart(_) => StartKeepsOrder(plan, w, a);
      case StampEnd(_) => EndKeepsOrder(plan, w, a);
      case TakeEffect(_, _) =>
        EffectKeepsOrder(plan, w, a);
        EffectKeepsExplained(plan, w, a);
    }
  }

  /** Every state of every run satisfies the invariant. */
  lemma {:induction false} RunKeeps(plan: Plan, w: World, actions: seq<Action>, last: World)
    requires ValidPlan(plan) && Invariant(plan, w) && IsRun(w, actions, last)
    ensures Invariant(plan, last)
    decreases |actions|
  {
    if actions != [] {
      StepKeeps(plan, w, actions[0]);
      RunKeeps(plan, Step(w, actions[0]), actions[1..], last);
    }
  }

  ghost predicate AllFinished(w: World) {
    |w.slots| == ENTRIES && forall i :: 0 <= i < ENTRIES ==> w.slots[i].Finished?
  }

  lemma EffectsAreAll(plan: Plan, w: World)
    requires ValidPlan(plan) && Invariant(plan, w) && AllFinished(w)
    ensures IsLinearization(ABSENT, Entries(w), w.effects)
    ensures Checkable(ABSENT, Entries(w))
  {
    forall i: nat | i < ENTRIES
      ensures i in w.effects
    {
      assert Took(w.slots[i]);
    }
    DistinctCover(w.effects, ENTRIES);
  }

  /** The order in which the calls took effect is a linearization. */
  lemma FinishedIsLinearizable(plan: Plan, w: World)
    requires ValidPlan(plan) && Invariant(plan, w) && AllFinished(w)
    ensures IsLinearization(ABSENT, Entries(w), w.effects)
    ensures Checkable(ABSENT, Entries(w))
    ensures NonNegativeInputs(Entries(w)) && Total(Entries(w)) <= MAX_INPUT * (ENTRIES - 1)
  {
    EffectsAreAll(plan, w);
    InputsAreSmall(plan, w);
  }

  /** Every complete run of the driver yields a history the checker accepts. */
  lemma EveryRunAccepted(plan: Plan, actions: seq<Action>, last: World, verdict: Verdict)
    requires ValidPlan(plan) && IsRun(Init(plan), actions, last) && AllFinished(last)
    requires Exact(ABSENT, Entries(last), verdict)
    ensures verdict.Accepted?
  {
    InitInvariant(plan);
    RunKeeps(plan, Init(plan), actions, last);
    FinishedIsLinearizable(plan, last);
    LinearizableIsAccepted(Entries(last), last.effects, verdict);
  }

  lemma LinearizableIsAccepted(history: seq<Entry>, order: seq<nat>, verdict: Verdict)
    requires |history| == ENTRIES && NonNegativeInputs(history) && Total(history) <= MAX_INPUT * (ENTRIES - 1)
    requires Exact(ABSENT, history, verdict) && Checkable(ABSENT, history) && IsLinearization(ABSENT, history, order)
    ensures verdict.Accepted?
  {
    TenEntriesFit(history);
    SmallHistoriesConclude(history, verdict);
  }

  lemma {:induction false} InputsUpTo(history: seq<Entry>, s: set<nat>, n: nat)
    requires n < ENTRIES == |history| && forall i :: 0 <= i < ENTRIES - 1 ==> 0 <= history[i].input <= MAX_INPUT
    ensures InputSum(history, s, n) <= MAX_INPUT * n
  {
    if n > 0 {
      InputsUpTo(history, s, n - 1);
    }
  }

  /** Nine inputs of at most 5 and a read without one. */
  lemma InputsAreSmall(plan: Plan, w: World)
    requires ValidPlan(plan) && SlotsValid(plan, w)
    ensures NonNegativeInputs(Entries(w)) && Total(Entries(w)) <= MAX_INPUT * (ENTRIES - 1)
  {
    InputsAreThePlan(plan, w);
    SmallTotal(Entries(w));
  }

  lemma SmallTotal(history: seq<Entry>)
    requires |history| == ENTRIES && history[ENTRIES - 1].input == 0
    requires forall i :: 0 <= i < ENTRIES - 1 ==> 0 <= history[i].input <= MAX_INPUT
    ensures NonNegativeInputs(history) && Total(history) <= MAX_INPUT * (ENTRIES - 1)
  {
    LastAddsNothing(history, Below(|history|), |history|);
    InputsUpTo(history, Below(|history|), |history| - 1);
  }

  lemma InputsAreThePlan(plan: Plan, w: World)
    requires ValidPlan(plan) && SlotsValid(plan, w)
    ensures |Entries(w)| == ENTRIES && forall i :: 0 <= i < ENTRIES ==> Entries(w)[i].input == plan.inputs[i]
  {
    forall i | 0 <= i < ENTRIES
      ensures Entries(w)[i].input == plan.inputs[i]
    {
      assert Follows(plan, i, w.slots[i]);
    }
  }

  lemma LastAddsNothing(history: seq<Entry>, s: set<nat>, n: nat)
    requires 0 < n <= |history| && history[n - 1].input == 0
    ensures InputSum(history, s, n) == InputSum(history, s, n - 1)
  {
  }

  lemma MulLess(factor: int)
    requires factor <= 47
    ensures 0x400 * factor <= 0x400 * 47
  {
  }

  /** At most 2^10 * 47 states can be reached, which is below the budget. */
  lemma TenEntriesFit(history: seq<Entry>)
    requires |history| == ENTRIES && Total(history) <= MAX_INPUT * (ENTRIES - 1)
    ensures Pow2(|history|) * (Total(history) + 2) <= 0x400 * 47 < BUDGET
  {
    assert Pow2(5) == 32;
    assert Pow2(10) == 32 * Pow2(5);
    MulLess(Total(history) + 2);
  }

  /** The end of the test: the recorded history is checked, and the checker does not complain. */
  method CheckRun(ghost plan: Plan, ghost actions: seq<Action>, last: World) returns (verdict: Verdict)
    requires ValidPlan(plan) && IsRun(Init(plan), actions, last) && AllFinished(last)
    ensures verdict.Accepted?
  {
    ghost var memo, expanded, expansions;
    verdict, memo, expanded, expansions := Check(ABSENT, Entries(last));
    EveryRunAccepted(plan, actions, last, verdict);
  }

  // ---- clients take turns ------------------------------------------------------

  /** Call `i` has not begun, or began after call `j` ended. */
  ghost predicate BeginsAfter(w: World, i: nat, j: nat)
    requires i < |w.slots| && j < |w.slots|
  {
    !w.slots[i].Waiting? ==> w.slots[j].Finished? && w.slots[j].entry.end < w.slots[i].entry.start
  }

  ghost predicate Turns(w: World)
    requires |w.slots| == ENTRIES
  {
    && (forall i :: 0 <= i < ENTRIES ==> w.slots[i].entry.client == ClientOf(i))
    && (forall i, j :: 0 <= j < i < ENTRIES && MustWait(i, j) ==> BeginsAfter(w, i, j))
  }

  /** The final read waits for all others, and every other call for the one before it of its client. */
  predicate MustWait(i: nat, j: nat) {
    i == ENTRIES - 1 || (i == j + 1 && i % CALLS != 0)
  }

  /** Two calls of one client are neighbours, or have one of its calls between them. */
  lemma SameClient(i: nat, j: nat)
    requires i < j && i / CALLS == j / CALLS
    ensures j % CALLS != 0 && (j == i + 1 || (j == i + 2 && (i + 1) % CALLS != 0))
  {
  }

  lemma StepKeepsAfter(plan: Plan, w: World, a: Action, i: nat, j: nat)
    requires ValidPlan(plan) && SlotsValid(plan, w) && Enabled(w, a) && i < ENTRIES && j < ENTRIES && i != j
    requires BeginsAfter(w, i, j) && (a == StampStart(i) ==> w.slots[j].Finished?)
    ensures BeginsAfter(Step(w, a), i, j)
  {
    assert Stamped(w, w.slots[j]);
  }

  lemma StepKeepsTurns(plan: Plan, w: World, a: Action)
    requires ValidPlan(plan) && SlotsValid(plan, w) && Turns(w) && Enabled(w, a)
    ensures |Step(w, a).slots| == ENTRIES && Turns(Step(w, a))
  {
    forall i, j | 0 <= j < i < ENTRIES && MustWait(i, j)
      ensures BeginsAfter(Step(w, a), i, j)
    {
      assert BeginsAfter(w, i, j);
      StepKeepsAfter(plan, w, a, i, j);
    }
  }

  lemma {:induction false} RunKeepsTurns(plan: Plan, w: World, actions: seq<Action>, last: World)
    requires ValidPlan(plan) && SlotsValid(plan, w) && Turns(w) && IsRun(w, actions, last)
    ensures SlotsValid(plan, last) && Turns(last)
    decreases |actions|
  {
    if actions != [] {
      SlotsStayValid(plan, w, actions[0]);
      StepKeepsTurns(plan, w, actions[0]);
      RunKeepsTurns(plan, Step(w, actions[0]), actions[1..], last);
    }
  }

  /** In every recorded history the calls of one client follow one another, and the final read
      follows all others. */
  lemma ClientsTakeTurns(plan: Plan, actions: seq<Action>, last: World, i: nat, j: nat)
    requires ValidPlan(plan) && IsRun(Init(plan), actions, last) && AllFinished(last) && i < j < ENTRIES
    requires Entries(last)[i].client == Entries(last)[j].client || j == ENTRIES - 1
    ensures Entries(last)[i].end < Entries(last)[j].start
  {
    InitInvariant(plan);
    RunKeepsTurns(plan, Init(plan), actions, last);
    TurnsInTime(plan, last, i, j);
  }

  lemma TurnsInTime(plan: Plan, w: World, i: nat, j: nat)
    requires ValidPlan(plan) && SlotsValid(plan, w) && Turns(w) && AllFinished(w) && i < j < ENTRIES
    requires w.slots[i].entry.client == w.slots[j].entry.client || j == ENTRIES - 1
    ensures w.slots[i].entry.end < w.slots[j].entry.start
  {
    if j < ENTRIES - 1 {
      SameClient(i, j);
      if j == i + 2 {
        assert MustWait(i + 1, i) && BeginsAfter(w, i + 1, i);
        assert Stamped(w, w.slots[i + 1]);
      }
      assert MustWait(j, j - 1) && BeginsAfter(w, j, j - 1);
    } else {
      assert MustWait(j, i) && BeginsAfter(w, j, i);
    }
  }

  // ---- complete runs exist -----------------------------------------------------

  lemma {:induction false} RunOn(w: World, actions: seq<Action>, middle: World, more: seq<Action>, last: World)
    requires IsRun(w, actions, middle) && IsRun(middle, more, last)
    ensures IsRun(w, actions + more, last)
    decreases |actions|
  {
    if actions == [] {
      assert actions + more == more;
    } else {
      assert (actions + more)[0] == actions[0] && (actions + more)[1..] == actions[1..] + more;
      RunOn(Step(w, actions[0]), actions[1..], middle, more, last);
    }
  }

  /** The first `n` calls are finished, the others have not begun. */
  ghost predicate InTurn(plan: Plan, w: World, n: nat)
    requires ValidPlan(plan)
  {
    && SlotsValid(plan, w) && n <= ENTRIES && w.clock == 2 * n
    && (forall i :: 0 <= i < n ==> w.slots[i].Finished?)
    && (forall i :: n <= i < ENTRIES ==> w.slots[i].Waiting?)
  }

  lemma OneCall(plan: Plan, w: World, n: nat) returns (actions: seq<Action>, last: World)
    requires ValidPlan(plan) && InTurn(plan, w, n) && n < ENTRIES
    ensures IsRun(w, actions, last) && InTurn(plan, last, n + 1)
  {
    var start, effect, end := StampStart(n), TakeEffect(n, false), StampEnd(n);
    var started := Step(w, start);
    SlotsStayValid(plan, w, start);
    var effected := Step(started, effect);
    SlotsStayValid(plan, started, effect);
    last := Step(effected, end);
    SlotsStayValid(plan, effected, end);
    assert IsRun(effected, [end], last) by {
      assert [end][1..] == [];
    }
    assert IsRun(started, [effect, end], last) by {
      assert [effect, end][1..] == [end];
    }
    actions := [start, effect, end];
    assert actions[1..] == [effect, end];
  }

  lemma {:induction false} CallsInTurn(plan: Plan, n: nat) returns (actions: seq<Action>, last: World)
    requires ValidPlan(plan) && n <= ENTRIES
    ensures IsRun(Init(plan), actions, last) && InTurn(plan, last, n)
  {
    if n == 0 {
      actions, last := [], Init(plan);
    } else {
      var before, more;
      before, last := CallsInTurn(plan, n - 1);
      var middle := last;
      more, last := OneCall(plan, middle, n - 1);
      RunOn(Init(plan), before, middle, more, last);
      actions := before + more;
    }
  }

  /** Every plan has a complete run: the calls one after another. */
  lemma CompleteRunsExist(plan: Plan) returns (actions: seq<Action>, last: World)
    requires ValidPlan(plan)
    ensures IsRun(Init(plan), actions, last) && AllFinished(last)
  {
    actions, last := CallsInTurn(plan, ENTRIES);
  }
}
