/** Replies as they come over the wire, and the positional replies that the accounting books. */
module PerfCollect {
  import opened PerfSettings
  import opened PerfWorker
  import opened PerfProtocol
  import opened PerfVerify
  import opened PerfReconciliation
  import opened StreamCollect

  /** The frames of one read RPC and how it ended. */
  datatype Wire = Wire(frames: seq<seq<Result<ReadItem>>>, error: ReadError)

  function Payloads<T>(results: seq<Result<T>>): (items: seq<T>)
    ensures |items| == |results| && forall i :: 0 <= i < |items| ==> items[i] == results[i].payload
  {
    seq(|results|, i requires 0 <= i < |results| => results[i].payload)
  }

  /** What `verify` makes of the wire: it looks at positions, not at operation indices. */
  function Received(wire: Wire): ReadReply {
    ReadReply(wire.error, Payloads(if wire.error == NoError then Sort(Concat(wire.frames)) else Concat(wire.frames)))
  }

  /** The collector hands `verify` exactly that. */
  method Receive(wire: Wire) returns (reply: ReadReply)
    ensures reply == Received(wire)
  {
    var response := Collect(wire.frames, if wire.error == NoError then EndOfStream else Broken);
    reply := ReadReply(wire.error, Payloads(response.results));
  }

  /** One result for each operation, carrying that operation's item. */
  ghost predicate Answers<T>(results: seq<Result<T>>, items: seq<T>) {
    && OnePerOperation(results, |items|)
    && forall i :: 0 <= i < |results| ==> results[i].payload == items[results[i].operationIndex]
  }

  /** Then the positions are right, however the reply was framed and ordered. */
  lemma AnswersArePositional<T>(frames: seq<seq<Result<T>>>, items: seq<T>)
    requires Answers(Concat(frames), items)
    ensures Payloads(Sort(Concat(frames))) == items
  {
    var sorted := Sort(Concat(frames));
    SortSorts(Concat(frames));
    forall i | 0 <= i < |items|
      ensures sorted[i].payload == items[i]
    {
      CollectedInOrder(frames, |items|, i);
    }
  }

  /** Without that rule a wrong index goes unnoticed: the answer to one operation stands for two. */
  lemma RepeatedIndexStandsTwice<T>(item: T)
    ensures Payloads(Sort(Concat([[Result(0, item), Result(0, item)]]))) == [item, item]
  {
    var frame: seq<Result<T>> := [Result(0, item), Result(0, item)];
    var none: seq<seq<Result<T>>> := [];
    assert [frame][..0] == none;
    assert Concat([frame]) == frame;
    assert frame[..1] == [Result(0, item)] && frame[..1][..0] == [];
    assert Sort(frame[..1]) == [Result(0, item)];
    assert Sort(frame) == frame;
  }

  /** The item of the first record is booked on the second as well. */
  lemma RepeatedIndexIsBooked(item: ReadItem)
    ensures Received(Wire([[Result(0, item), Result(0, item)]], NoError)) == ReadReply(NoError, [item, item])
  {
    RepeatedIndexStandsTwice(item);
  }

  /** And the second write counts as acknowledged though only the first was answered. */
  lemma RepeatedIndexIsAcknowledged(account: Account, first: nat, second: nat, item: WriteItem)
    requires first != second && item.status == Applied
    ensures var response := Results(Payloads(Sort(Concat([[Result(0, item), Result(0, item)]]))));
            After(account, second, [first, second], response) == Account(account.count + 1, false)
  {
    RepeatedIndexStandsTwice(item);
    assert [first, second][1..] == [second];
  }

  // ---- write replies -------------------------------------------------------------------

  /** Each result is honest about the operation that it names. */
  ghost predicate HonestResults(s: System, call: Call, results: seq<Result<WriteItem>>)
    requires call.InFlight?
  {
    forall i :: 0 <= i < |results| ==> HonestResult(s, call, results[i])
  }

  ghost predicate HonestResult(s: System, call: Call, result: Result<WriteItem>)
    requires call.InFlight?
  {
    && (result.payload.status == Applied ==> call.first + result.operationIndex in s.applied)
    && (FinalRefusal(result.payload) ==> call.first + result.operationIndex !in s.applied)
  }

  /** The reply as `write` gets it from the collector, and as `Book` takes it. */
  method ReceiveWrites(frames: seq<seq<Result<WriteItem>>>, ending: Ending) returns (response: WriteResponse)
    ensures response == if ending == EndOfStream then Results(Payloads(Sort(Concat(frames)))) else RpcError
  {
    var collected := Collect(frames, ending);
    response := if collected.error then RpcError else Results(Payloads(collected.results));
  }

  /** At the positions of the collected list too, since they are the indices. */
  lemma PositionsAreHonest(s: System, call: Call, frames: seq<seq<Result<WriteItem>>>, i: nat)
    requires call.InFlight? && OnePerOperation(Concat(frames), |call.keys|) && HonestResults(s, call, Concat(frames))
    requires i < |call.keys|
    ensures |Sort(Concat(frames))| == |call.keys| && HonestAt(s, call, Sort(Concat(frames))[i].payload, i)
  {
    CollectedInOrder(frames, |call.keys|, i);
    NamedIsHonest(s, call, Concat(frames), Sort(Concat(frames))[i]);
  }

  lemma NamedIsHonest(s: System, call: Call, results: seq<Result<WriteItem>>, result: Result<WriteItem>)
    requires call.InFlight? && HonestResults(s, call, results) && result in results
    ensures HonestResult(s, call, result)
  {
    var k :| 0 <= k < |results| && results[k] == result;
    assert HonestResult(s, call, results[k]);
  }

  /** The item is honest about operation `i`. */
  ghost predicate HonestAt(s: System, call: Call, item: WriteItem, i: nat)
    requires call.InFlight?
  {
    (item.status == Applied ==> call.first + i in s.applied) && (FinalRefusal(item) ==> call.first + i !in s.applied)
  }

  lemma HonestItems(s: System, call: Call, items: seq<WriteItem>)
    requires call.InFlight? && |items| == |call.keys| && forall i :: 0 <= i < |items| ==> HonestAt(s, call, items[i], i)
    ensures HonestReply(s, call, Results(items)) && Complete(Results(items), |call.keys|)
  {
    forall id: nat | call.first <= id < call.first + |call.keys|
      ensures items[id - call.first].status == Applied ==> id in s.applied
      ensures FinalRefusal(items[id - call.first]) ==> id !in s.applied
    {
      assert HonestAt(s, call, items[id - call.first], id - call.first);
    }
  }

  /** Honest results under their own indices make the positional reply that the protocol may answer. */
  lemma WireIsHonest(s: System, call: Call, frames: seq<seq<Result<WriteItem>>>)
    requires call.InFlight? && OnePerOperation(Concat(frames), |call.keys|) && HonestResults(s, call, Concat(frames))
    ensures HonestReply(s, call, Results(Payloads(Sort(Concat(frames)))))
    ensures Complete(Results(Payloads(Sort(Concat(frames)))), |call.keys|)
  {
    SortSorts(Concat(frames));
    var items := Payloads(Sort(Concat(frames)));
    forall i | 0 <= i < |items|
      ensures HonestAt(s, call, items[i], i)
    {
      PositionsAreHonest(s, call, frames, i);
    }
    HonestItems(s, call, items);
  }

  // ---- read replies ----------------------------------------------------------------------

  /** The service behind the wire. */
  type Network = (nat, nat, nat) -> Wire

  function ServiceOf(network: Network): Service {
    (t: nat, begin: nat, size: nat) => Received(network(t, begin, size))
  }

  /** Either the batch was too large, or every record came back under its own index, as it was
      at some moment after the workers finished. */
  ghost predicate DeliversBatch(states: seq<System>, n: nat, payloads: nat -> string, wire: Wire, begin: nat, size: nat) {
    || (TooLarge(Received(wire)) && size > 1)
    || (wire.error == NoError && exists items: seq<ReadItem> ::
          Answers(Concat(wire.frames), items) && ReadsBatch(states, n, payloads, ReadReply(NoError, items), begin, size))
  }

  ghost predicate DeliversRecords(states: seq<System>, n: nat, payloads: nat -> string, network: Network, keys: nat) {
    forall t: nat, begin: nat, size: nat :: 0 < size && begin + size <= keys ==>
      DeliversBatch(states, n, payloads, network(t, begin, size), begin, size)
  }

  /** Framing and order on the wire do not matter to reconciliation. */
  lemma WireIsInvisible(states: seq<System>, n: nat, payloads: nat -> string, network: Network, keys: nat)
    requires DeliversRecords(states, n, payloads, network, keys)
    ensures ReadsRecords(states, n, payloads, ServiceOf(network), keys)
  {
    forall t: nat, begin: nat, size: nat | 0 < size && begin + size <= keys
      ensures ReadsBatch(states, n, payloads, ServiceOf(network)(t, begin, size), begin, size)
    {
      var wire := network(t, begin, size);
      assert DeliversBatch(states, n, payloads, wire, begin, size);
      if !(TooLarge(Received(wire)) && size > 1) {
        var items: seq<ReadItem> :|
          Answers(Concat(wire.frames), items) && ReadsBatch(states, n, payloads, ReadReply(NoError, items), begin, size);
        AnswersArePositional(wire.frames, items);
      }
    }
  }

  /** The keys that a worker selects for an RPC may be issued. */
  lemma SelectedKeysMayBeIssued(c: Config, s: System, w: nat, selected: seq<int>, t: nat, batch: int) returns (keys: seq<nat>)
    requires Shape(c, s) && w < c.workers && s.calls[w].Idle?
    requires 1 <= batch <= c.local && IsBatch(selected, t, c.local, batch)
    ensures |keys| == |selected| && forall i :: 0 <= i < |keys| ==> keys[i] == selected[i]
    ensures Enabled(c, s, Issue(w, keys))
  {
    keys := seq(|selected|, i requires 0 <= i < |selected| => (t * batch + i) % c.local);
    forall i, j | 0 <= i < j < |keys|
      ensures keys[i] != keys[j]
    {
      BatchDistinct(selected, t, c.local, batch, i, j);
    }
  }
}
