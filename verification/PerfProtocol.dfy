/** Workers that issue numbered merges, lose replies and retry, against a store that
    may apply any attempt late, more than once, or never. */
module PerfProtocol {
  import opened PerfSettings
  import opened PerfWorker

  datatype Record = Record(value: int, seen: map<nat, nat>)

  function Seen(record: Record, writer: nat): nat {
    if writer in record.seen then record.seen[writer] else 0
  }

  /** The merge program of the workload. */
  function Merge(current: Record, incoming: Incoming): Record {
    if incoming.sequence <= Seen(current, incoming.writer) then current
    else Record(current.value + 1, current.seen[incoming.writer := incoming.sequence])
  }

  datatype Config = Config(workers: nat, local: nat, hot: bool, keys: nat)

  ghost predicate ValidConfig(c: Config) {
    && c.workers >= 1 && c.local >= 1
    && forall w: nat, k: nat :: w < c.workers && k < c.local ==> 0 <= GlobalKey(w, k, c.local, c.hot) < c.keys
  }

  datatype Attempt = Attempt(worker: nat, local: nat, sequence: nat)

  /** A worker's RPC: operation `i` is attempt number `first + i`. */
  datatype Call = Idle | InFlight(keys: seq<nat>, first: nat)

  /** `applied` are the attempts that were applied at least once, `refused` those
      that never will be. */
  datatype System = System(
    records: seq<Record>,
    accounts: seq<seq<Account>>,
    calls: seq<Call>,
    attempts: seq<Attempt>,
    applied: set<nat>,
    refused: set<nat>)

  datatype Action =
    | Issue(w: nat, keys: seq<nat>)
    | Deliver(id: nat)
    | Respond(w: nat, response: WriteResponse)

  ghost predicate Shape(c: Config, s: System) {
    && ValidConfig(c)
    && |s.records| == c.keys && |s.accounts| == c.workers && |s.calls| == c.workers
    && (forall w :: 0 <= w < c.workers ==> |s.accounts[w]| == c.local)
    && (forall id :: 0 <= id < |s.attempts| ==> s.attempts[id].worker < c.workers && s.attempts[id].local < c.local)
  }

  /** A store acknowledges only what it applied and definitely rejects only what it
      never applies; everything else is left open. */
  ghost predicate HonestReply(s: System, call: Call, response: WriteResponse)
    requires call.InFlight?
  {
    Complete(response, |call.keys|) ==>
      forall id: nat :: call.first <= id < call.first + |call.keys| ==>
        && (response.items[id - call.first].status == Applied ==> id in s.applied)
        && (FinalRefusal(response.items[id - call.first]) ==> id !in s.applied)
  }

  ghost predicate Enabled(c: Config, s: System, a: Action)
    requires Shape(c, s)
  {
    match a
    case Issue(w, keys) =>
      w < c.workers && s.calls[w].Idle? && Distinct(keys) && forall i :: 0 <= i < |keys| ==> keys[i] < c.local
    case Deliver(id) => id < |s.attempts| && id !in s.refused
    case Respond(w, response) => w < c.workers && s.calls[w].InFlight? && HonestReply(s, s.calls[w], response)
  }

  ghost function NewAttempts(s: System, w: nat, keys: seq<nat>): seq<Attempt>
    requires w < |s.accounts| && forall i :: 0 <= i < |keys| ==> keys[i] < |s.accounts[w]|
  {
    seq(|keys|, i requires 0 <= i < |keys| => Attempt(w, keys[i], s.accounts[w][keys[i]].count + 1))
  }

  ghost predicate Refuses(call: Call, response: WriteResponse, id: nat)
    requires call.InFlight?
  {
    && Complete(response, |call.keys|)
    && call.first <= id < call.first + |call.keys|
    && FinalRefusal(response.items[id - call.first])
  }

  ghost function Refusals(call: Call, response: WriteResponse): set<nat>
    requires call.InFlight?
  {
    set id: nat | id < call.first + |call.keys| && Refuses(call, response, id)
  }

  ghost function Settled(accounts: seq<Account>, keys: seq<nat>, response: WriteResponse): seq<Account> {
    seq(|accounts|, k requires 0 <= k < |accounts| => After(accounts[k], k, keys, response))
  }

  ghost function Step(c: Config, s: System, a: Action): System
    requires Shape(c, s) && Enabled(c, s, a)
  {
    match a
    case Issue(w, keys) =>
      s.(calls := s.calls[w := InFlight(keys, |s.attempts|)], attempts := s.attempts + NewAttempts(s, w, keys))
    case Deliver(id) =>
      var t := s.attempts[id];
      var g := GlobalKey(t.worker, t.local, c.local, c.hot);
      s.(records := s.records[g := Merge(s.records[g], Incoming(t.worker, t.sequence))], applied := s.applied + {id})
    case Respond(w, response) =>
      s.(accounts := s.accounts[w := Settled(s.accounts[w], s.calls[w].keys, response)],
         calls := s.calls[w := Idle],
         refused := s.refused + Refusals(s.calls[w], response))
  }

  // ---- the invariant -------------------------------------------------------------

  ghost function RecordOf(c: Config, s: System, w: nat, k: nat): Record
    requires Shape(c, s) && w < c.workers && k < c.local
  {
    s.records[GlobalKey(w, k, c.local, c.hot)]
  }

  /** Attempt `id` belongs to the RPC that worker `w` is waiting for, as its operation on `k`. */
  ghost predicate Current(s: System, w: nat, k: nat, id: nat)
    requires w < |s.calls|
  {
    var call := s.calls[w];
    call.InFlight? && call.first <= id < call.first + |call.keys| && call.keys[id - call.first] == k
  }

  /** The persisted sequence is the acknowledged count, or one more while that is
      still open. */
  ghost predicate Accounted(c: Config, s: System, w: nat, k: nat)
    requires Shape(c, s) && w < c.workers && k < c.local
  {
    var a, seen := s.accounts[w][k], Seen(RecordOf(c, s, w, k), w);
    seen == a.count ||
    (seen == a.count + 1 && (a.pending || exists id :: id in s.applied && Current(s, w, k, id)))
  }

  /** An attempt is never ahead of the next number, and one with the next number is
      remembered as pending, is current, or was refused. */
  ghost predicate Tracked(c: Config, s: System, id: nat)
    requires Shape(c, s) && id < |s.attempts|
  {
    var t := s.attempts[id];
    var a := s.accounts[t.worker][t.local];
    && t.sequence <= a.count + 1
    && (t.sequence == a.count + 1 && id !in s.refused ==> a.pending || Current(s, t.worker, t.local, id))
    && (id in s.applied ==> id !in s.refused && t.sequence <= Seen(RecordOf(c, s, t.worker, t.local), t.worker))
  }

  ghost predicate CallValid(c: Config, s: System, w: nat)
    requires Shape(c, s) && w < c.workers
  {
    var call := s.calls[w];
    call.InFlight? ==>
      && Distinct(call.keys)
      && call.first + |call.keys| <= |s.attempts|
      && (forall i :: 0 <= i < |call.keys| ==> call.keys[i] < c.local)
      && forall id: nat :: call.first <= id < call.first + |call.keys| ==>
           && s.attempts[id] == Attempt(w, call.keys[id - call.first], s.accounts[w][call.keys[id - call.first]].count + 1)
           && id !in s.refused
  }

  ghost function SumSeen(record: Record, workers: nat): int {
    if workers == 0 then 0 else SumSeen(record, workers - 1) + Seen(record, workers - 1)
  }

  /** The value counts exactly the numbered merges, and only owners write a record. */
  ghost predicate Conserved(c: Config, s: System, g: nat)
    requires Shape(c, s) && g < c.keys
  {
    && s.records[g].value == SumSeen(s.records[g], c.workers)
    && forall w: nat :: w < c.workers && !Owns(w, g, c.local, c.hot) ==> Seen(s.records[g], w) == 0
  }

  ghost predicate Inv(c: Config, s: System) {
    && Shape(c, s)
    && (forall w: nat, k: nat :: w < c.workers && k < c.local ==> Accounted(c, s, w, k))
    && (forall id: nat :: id < |s.attempts| ==> Tracked(c, s, id))
    && (forall w: nat :: w < c.workers ==> CallValid(c, s, w))
    && (forall g: nat :: g < c.keys ==> Conserved(c, s, g))
    && (forall id :: id in s.applied ==> id < |s.attempts|)
    && (forall id :: id in s.refused ==> id < |s.attempts|)
  }

  /** The seeded store. */
  ghost predicate Init(c: Config, s: System) {
    && Shape(c, s)
    && s.attempts == [] && s.applied == {} && s.refused == {}
    && (forall w :: 0 <= w < c.workers ==> s.calls[w] == Idle)
    && (forall w, k :: 0 <= w < c.workers && 0 <= k < c.local ==> s.accounts[w][k] == Account(0, false))
    && (forall g :: 0 <= g < c.keys ==> s.records[g].value == 0 && forall w: nat :: Seen(s.records[g], w) == 0)
  }

  lemma {:induction false} SumZero(record: Record, workers: nat)
    requires forall w: nat :: w < workers ==> Seen(record, w) == 0
    ensures SumSeen(record, workers) == 0
  {
    if workers > 0 {
      SumZero(record, workers - 1);
    }
  }

  lemma InitInv(c: Config, s: System)
    requires Init(c, s)
    ensures Inv(c, s)
  {
    forall g: nat | g < c.keys
      ensures Conserved(c, s, g)
    {
      SumZero(s.records[g], c.workers);
    }
  }

  lemma {:induction false} SumBump(before: Record, after: Record, writer: nat, workers: nat)
    requires Seen(after, writer) == Seen(before, writer) + 1
    requires forall w: nat :: w != writer ==> Seen(after, w) == Seen(before, w)
    ensures SumSeen(after, workers) == SumSeen(before, workers) + (if writer < workers then 1 else 0)
  {
    if workers > 0 {
      SumBump(before, after, writer, workers - 1);
    }
  }

  // ---- delivering an attempt --------------------------------------------------------

  lemma MergeSeen(record: Record, incoming: Incoming)
    ensures var after := Merge(record, incoming);
            && (forall w: nat :: w != incoming.writer ==> Seen(after, w) == Seen(record, w))
            && Seen(after, incoming.writer) == if incoming.sequence <= Seen(record, incoming.writer) then Seen(record, incoming.writer) else incoming.sequence
  {
  }

  /** In every reachable state a delivery raises the sequence by at most one. */
  lemma DeliverStepSize(c: Config, s: System, id: nat)
    requires Inv(c, s) && id < |s.attempts| && id !in s.refused
    ensures var t := s.attempts[id];
            t.sequence <= Seen(RecordOf(c, s, t.worker, t.local), t.worker) + 1
  {
    var t := s.attempts[id];
    assert Tracked(c, s, id);
    assert Accounted(c, s, t.worker, t.local);
  }

  lemma DeliverOther(c: Config, s: System, id: nat, w: nat, k: nat)
    requires Inv(c, s) && Enabled(c, s, Deliver(id)) && w < c.workers && k < c.local
    requires !(s.attempts[id].worker == w && s.attempts[id].local == k)
    ensures Shape(c, Step(c, s, Deliver(id)))
    ensures Seen(RecordOf(c, Step(c, s, Deliver(id)), w, k), w) == Seen(RecordOf(c, s, w, k), w)
  {
    var t := s.attempts[id];
    MergeSeen(RecordOf(c, s, t.worker, t.local), Incoming(t.worker, t.sequence));
  }

  lemma DeliverAccounted(c: Config, s: System, id: nat, w: nat, k: nat)
    requires Inv(c, s) && Enabled(c, s, Deliver(id)) && w < c.workers && k < c.local
    ensures Shape(c, Step(c, s, Deliver(id)))
    ensures Accounted(c, Step(c, s, Deliver(id)), w, k)
    ensures Seen(RecordOf(c, Step(c, s, Deliver(id)), w, k), w) >= Seen(RecordOf(c, s, w, k), w)
  {
    var t := s.attempts[id];
    var next := Step(c, s, Deliver(id));
    assert Accounted(c, s, w, k);
    assert forall j :: Current(next, w, k, j) <==> Current(s, w, k, j);
    if t.worker == w && t.local == k {
      assert Tracked(c, s, id);
      MergeSeen(RecordOf(c, s, w, k), Incoming(t.worker, t.sequence));
      assert id in next.applied;
    } else {
      DeliverOther(c, s, id, w, k);
    }
  }

  lemma DeliverTracked(c: Config, s: System, id: nat, other: nat)
    requires Inv(c, s) && Enabled(c, s, Deliver(id)) && other < |s.attempts|
    ensures Shape(c, Step(c, s, Deliver(id)))
    ensures Tracked(c, Step(c, s, Deliver(id)), other)
  {
    var t, u := s.attempts[id], s.attempts[other];
    DeliverAccounted(c, s, id, u.worker, u.local);
    assert Tracked(c, s, other);
    if other == id {
      MergeSeen(RecordOf(c, s, t.worker, t.local), Incoming(t.worker, t.sequence));
    }
  }

  lemma DeliverConserved(c: Config, s: System, id: nat, g: nat)
    requires Inv(c, s) && Enabled(c, s, Deliver(id)) && g < c.keys
    ensures Shape(c, Step(c, s, Deliver(id)))
    ensures Conserved(c, Step(c, s, Deliver(id)), g)
  {
    var t := s.attempts[id];
    var target := GlobalKey(t.worker, t.local, c.local, c.hot);
    assert Conserved(c, s, g);
    if g == target {
      var before := s.records[g];
      var after := Merge(before, Incoming(t.worker, t.sequence));
      DeliverStepSize(c, s, id);
      MergeSeen(before, Incoming(t.worker, t.sequence));
      if t.sequence > Seen(before, t.worker) {
        SumBump(before, after, t.worker, c.workers);
      }
      LocalGlobalInverse(t.worker, g, t.local, c.local, c.hot);
    }
  }

  lemma DeliverKeeps(c: Config, s: System, id: nat)
    requires Inv(c, s) && Enabled(c, s, Deliver(id))
    ensures Inv(c, Step(c, s, Deliver(id)))
  {
    var next := Step(c, s, Deliver(id));
    assert Shape(c, next);
    forall w: nat, k: nat | w < c.workers && k < c.local
      ensures Accounted(c, next, w, k)
    {
      DeliverAccounted(c, s, id, w, k);
    }
    forall other: nat | other < |next.attempts|
      ensures Tracked(c, next, other)
    {
      DeliverTracked(c, s, id, other);
    }
    forall w: nat | w < c.workers
      ensures CallValid(c, next, w)
    {
      assert CallValid(c, s, w);
    }
    forall g: nat | g < c.keys
      ensures Conserved(c, next, g)
    {
      DeliverConserved(c, s, id, g);
    }
  }

  // ---- issuing an RPC -----------------------------------------------------------------

  lemma IssueTracked(c: Config, s: System, a: Action, id: nat)
    requires Inv(c, s) && Enabled(c, s, a) && a.Issue?
    requires id < |Step(c, s, a).attempts|
    ensures Shape(c, Step(c, s, a)) && Tracked(c, Step(c, s, a), id)
  {
    var next := Step(c, s, a);
    var added := NewAttempts(s, a.w, a.keys);
    assert forall i :: 0 <= i < |s.attempts| ==> next.attempts[i] == s.attempts[i];
    assert forall i :: |s.attempts| <= i < |next.attempts| ==> next.attempts[i] == added[i - |s.attempts|];
    if id < |s.attempts| {
      assert Tracked(c, s, id);
    } else {
      var i := id - |s.attempts|;
      assert next.attempts[id] == Attempt(a.w, a.keys[i], s.accounts[a.w][a.keys[i]].count + 1);
      assert id !in s.applied;
    }
  }

  lemma IssueAccounted(c: Config, s: System, a: Action, w: nat, k: nat)
    requires Inv(c, s) && Enabled(c, s, a) && a.Issue? && w < c.workers && k < c.local
    ensures Shape(c, Step(c, s, a)) && Accounted(c, Step(c, s, a), w, k)
  {
    var next := Step(c, s, a);
    assert Accounted(c, s, w, k);
    assert w != a.w ==> next.calls[w] == s.calls[w];
    assert forall id :: Current(s, w, k, id) ==> Current(next, w, k, id);
  }

  /** The new RPC of the worker that issues it. */
  lemma IssueOwnCall(c: Config, s: System, a: Action)
    requires Inv(c, s) && Enabled(c, s, a) && a.Issue?
    ensures Shape(c, Step(c, s, a)) && CallValid(c, Step(c, s, a), a.w)
  {
    var next := Step(c, s, a);
    var added := NewAttempts(s, a.w, a.keys);
    forall id: nat | |s.attempts| <= id < |s.attempts| + |a.keys|
      ensures next.attempts[id] == added[id - |s.attempts|] && id !in s.refused
    {
    }
  }

  lemma IssueCall(c: Config, s: System, a: Action, w: nat)
    requires Inv(c, s) && Enabled(c, s, a) && a.Issue? && w < c.workers
    ensures Shape(c, Step(c, s, a)) && CallValid(c, Step(c, s, a), w)
  {
    if w == a.w {
      IssueOwnCall(c, s, a);
    } else {
      var next := Step(c, s, a);
      assert CallValid(c, s, w);
      assert forall id: nat :: id < |s.attempts| ==> next.attempts[id] == s.attempts[id];
    }
  }

  lemma IssueKeeps(c: Config, s: System, a: Action)
    requires Inv(c, s) && Enabled(c, s, a) && a.Issue?
    ensures Inv(c, Step(c, s, a))
  {
    var next := Step(c, s, a);
    forall w: nat, k: nat | w < c.workers && k < c.local
      ensures Shape(c, next) && Accounted(c, next, w, k)
    {
      IssueAccounted(c, s, a, w, k);
    }
    forall id: nat | id < |next.attempts|
      ensures Shape(c, next) && Tracked(c, next, id)
    {
      IssueTracked(c, s, a, id);
    }
    forall w: nat | w < c.workers
      ensures Shape(c, next) && CallValid(c, next, w)
    {
      IssueCall(c, s, a, w);
    }
    IssueCall(c, s, a, 0);
    forall g: nat | g < c.keys
      ensures Conserved(c, next, g)
    {
      assert Conserved(c, s, g);
    }
  }

  // ---- booking a reply ------------------------------------------------------------------

  lemma AccountAfter(c: Config, s: System, a: Action, w: nat, k: nat)
    requires Inv(c, s) && Enabled(c, s, a) && a.Respond? && w < c.workers && k < c.local
    ensures Shape(c, Step(c, s, a))
    ensures Step(c, s, a).accounts[w][k] ==
            if w == a.w then After(s.accounts[w][k], k, s.calls[w].keys, a.response) else s.accounts[w][k]
  {
  }

  lemma SameIndex(keys: seq<nat>, i: nat, j: nat)
    requires Distinct(keys) && i < |keys| && j < |keys| && keys[i] == keys[j]
    ensures i == j
  {
  }

  /** The only current attempt of a worker on a key is the one at the key's index. */
  lemma CurrentIs(c: Config, s: System, w: nat, k: nat, id: nat)
    requires Inv(c, s) && w < c.workers && Current(s, w, k, id)
    ensures k in s.calls[w].keys && id == s.calls[w].first + IndexOf(s.calls[w].keys, k)
  {
    assert CallValid(c, s, w);
    var call := s.calls[w];
    assert call.keys[id - call.first] == k;
    SameIndex(call.keys, id - call.first, IndexOf(call.keys, k));
  }

  lemma RespondAccounted(c: Config, s: System, a: Action, w: nat, k: nat)
    requires Inv(c, s) && Enabled(c, s, a) && a.Respond? && w < c.workers && k < c.local
    ensures Shape(c, Step(c, s, a)) && Accounted(c, Step(c, s, a), w, k)
  {
    var next := Step(c, s, a);
    AccountAfter(c, s, a, w, k);
    assert Accounted(c, s, w, k);
    if w != a.w {
      assert forall id :: Current(s, w, k, id) ==> Current(next, w, k, id);
    } else {
      var call := s.calls[w];
      forall id: nat | Current(s, w, k, id)
        ensures k in call.keys && id == call.first + IndexOf(call.keys, k)
      {
        CurrentIs(c, s, w, k, id);
      }
      if k in call.keys && Complete(a.response, |call.keys|) {
        assert CallValid(c, s, w);
        var id := call.first + IndexOf(call.keys, k);
        assert Tracked(c, s, id);
      }
    }
  }

  lemma RefusalsAreOurs(c: Config, s: System, a: Action, id: nat)
    requires Inv(c, s) && Enabled(c, s, a) && a.Respond?
    requires id in Refusals(s.calls[a.w], a.response)
    ensures id < |s.attempts| && s.attempts[id].worker == a.w && id !in s.applied
  {
    assert CallValid(c, s, a.w);
  }

  lemma RespondTracked(c: Config, s: System, a: Action, id: nat)
    requires Inv(c, s) && Enabled(c, s, a) && a.Respond? && id < |s.attempts|
    ensures Shape(c, Step(c, s, a)) && Tracked(c, Step(c, s, a), id)
  {
    var next := Step(c, s, a);
    var t := s.attempts[id];
    assert Tracked(c, s, id);
    AccountAfter(c, s, a, t.worker, t.local);
    if id in Refusals(s.calls[a.w], a.response) {
      RefusalsAreOurs(c, s, a, id);
    }
    if t.worker == a.w && Current(s, t.worker, t.local, id) {
      CurrentIs(c, s, t.worker, t.local, id);
    }
  }

  lemma RespondCall(c: Config, s: System, a: Action, w: nat)
    requires Inv(c, s) && Enabled(c, s, a) && a.Respond? && w < c.workers
    ensures Shape(c, Step(c, s, a)) && CallValid(c, Step(c, s, a), w)
  {
    var next := Step(c, s, a);
    assert CallValid(c, s, w);
    var call := s.calls[w];
    if w != a.w && call.InFlight? {
      forall id: nat | call.first <= id < call.first + |call.keys|
        ensures id !in next.refused
      {
        assert s.attempts[id].worker == w;
        if id in Refusals(s.calls[a.w], a.response) {
          RefusalsAreOurs(c, s, a, id);
        }
      }
    }
  }

  lemma RespondKeeps(c: Config, s: System, a: Action)
    requires Inv(c, s) && Enabled(c, s, a) && a.Respond?
    ensures Inv(c, Step(c, s, a))
  {
    var next := Step(c, s, a);
    forall w: nat, k: nat | w < c.workers && k < c.local
      ensures Shape(c, next) && Accounted(c, next, w, k)
    {
      RespondAccounted(c, s, a, w, k);
    }
    forall id: nat | id < |next.attempts|
      ensures Shape(c, next) && Tracked(c, next, id)
    {
      RespondTracked(c, s, a, id);
    }
    forall w: nat | w < c.workers
      ensures Shape(c, next) && CallValid(c, next, w)
    {
      RespondCall(c, s, a, w);
    }
    RespondCall(c, s, a, 0);
    forall id | id in next.refused
      ensures id < |next.attempts|
    {
      if id in Refusals(s.calls[a.w], a.response) {
        RefusalsAreOurs(c, s, a, id);
      }
    }
    forall g: nat | g < c.keys
      ensures Conserved(c, next, g)
    {
      assert Conserved(c, s, g);
    }
  }

  // ---- runs ------------------------------------------------------------------------------

  lemma StepKeeps(c: Config, s: System, a: Action)
    requires Inv(c, s) && Enabled(c, s, a)
    ensures Inv(c, Step(c, s, a))
  {
    match a {
      case Issue(_, _) => IssueKeeps(c, s, a);
      case Deliver(id) => DeliverKeeps(c, s, id);
      case Respond(_, _) => RespondKeeps(c, s, a);
    }
  }

  ghost predicate IsRun(c: Config, states: seq<System>, actions: seq<Action>) {
    && |states| == |actions| + 1
    && forall i :: 0 <= i < |actions| ==>
         Shape(c, states[i]) && Enabled(c, states[i], actions[i]) && states[i + 1] == Step(c, states[i], actions[i])
  }

  /** The invariant holds in every state of every run. */
  lemma {:induction false} RunKeeps(c: Config, states: seq<System>, actions: seq<Action>, i: nat)
    requires IsRun(c, states, actions) && Inv(c, states[0]) && i < |states|
    ensures Inv(c, states[i])
  {
    if i > 0 {
      RunKeeps(c, states, actions, i - 1);
      StepKeeps(c, states[i - 1], actions[i - 1]);
      assert states[i - 1 + 1] == Step(c, states[i - 1], actions[i - 1]);
    }
  }
}
