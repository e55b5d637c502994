/** A load worker's acknowledgement accounting. */
module PerfWorker {
  datatype WriteStatus = Applied | PreconditionFailed | OtherStatus
  datatype FailureCode =
    | NoFailure | InvalidArgument | PreconditionFailedCode | NotFound | Conflict | Unavailable | ResourceExhausted | OtherFailure

  /** What a merge operation carries. */
  datatype Incoming = Incoming(writer: nat, sequence: nat)

  /** A returned document: its sequence for the writer, and whether everything else in it is as sent. */
  datatype Returned = Undecodable | Returned(sequence: nat, intact: bool)

  datatype WriteItem = WriteItem(status: WriteStatus, code: FailureCode, document: Returned)

  /** What the collector hands back for one write RPC. */
  datatype WriteResponse = RpcError | Results(items: seq<WriteItem>)

  /** Could a write that was not acknowledged have been committed all the same? */
  predicate MayHaveCommitted(item: WriteItem) {
    match item.code
    case InvalidArgument => false
    case PreconditionFailedCode => false
    case NotFound => false
    case Conflict => false
    case _ => item.status != PreconditionFailed
  }

  /** The answers that promise that the merge had no effect and never will. */
  ghost predicate FinalRefusal(item: WriteItem) {
    && item.status != Applied
    && (item.status == PreconditionFailed || item.code in {InvalidArgument, PreconditionFailedCode, NotFound, Conflict})
  }

  /** A write that was not acknowledged is open unless it was refused for good. */
  lemma OpenUnlessRefused(item: WriteItem)
    requires item.status != Applied
    ensures MayHaveCommitted(item) <==> !FinalRefusal(item)
  {
  }

  /** The accounting of one local key: acknowledged writes, and whether one more may
      have been applied. */
  datatype Account = Account(count: nat, pending: bool)

  /** A reply that settles every operation. */
  predicate Complete(response: WriteResponse, operations: nat) {
    response.Results? && |response.items| == operations
  }

  /** The document that an acknowledged write has to return. */
  predicate ShowsWrite(item: WriteItem, sequence: nat) {
    item.document == Returned(sequence, true)
  }

  function Settle(account: Account, item: WriteItem): Account {
    if item.status == Applied then Account(account.count + 1, false)
    else account.(pending := account.pending || MayHaveCommitted(item))
  }

  /** What one answer does to an account: an acknowledgement counts and settles, a final refusal
      changes nothing, and every other answer leaves the write open. */
  lemma SettledByAnswer(account: Account, item: WriteItem)
    ensures item.status == Applied ==> Settle(account, item) == Account(account.count + 1, false)
    ensures item.status != Applied ==> Settle(account, item).count == account.count
    ensures item.status != Applied ==> (Settle(account, item).pending <==> account.pending || !FinalRefusal(item))
  {
    if item.status != Applied {
      OpenUnlessRefused(item);
    }
  }

  /** An acknowledgement that counts as a success: the document is looked at only if asked for. */
  ghost predicate Fine(item: WriteItem, account: Account, returnDocument: bool) {
    item.status == Applied && (returnDocument ==> item.document == Returned(account.count + 1, true))
  }

  /** The account of local key `k` after the reply to a request for `keys`. */
  function After(account: Account, k: nat, keys: seq<nat>, response: WriteResponse): Account {
    if k !in keys then account
    else if !Complete(response, |keys|) then account.(pending := true)
    else Settle(account, response.items[IndexOf(keys, k)])
  }

  function IndexOf(keys: seq<nat>, k: nat): (i: nat)
    requires k in keys
    ensures i < |keys| && keys[i] == k
  {
    if keys[0] == k then 0 else 1 + IndexOf(keys[1..], k)
  }

  ghost predicate Distinct(keys: seq<nat>) {
    forall i, j :: 0 <= i < j < |keys| ==> keys[i] != keys[j]
  }

  class Worker {
    const index: nat
    const counts: array<nat>
    const pending: array<bool>

    constructor (index: nat, local: nat)
      ensures fresh(counts) && fresh(pending) && this.index == index
      ensures Valid() && counts.Length == local
      ensures forall k :: 0 <= k < local ==> AccountOf(k) == Account(0, false)
    {
      this.index := index;
      counts := new nat[local](_ => 0);
      pending := new bool[local](_ => false);
    }

    predicate Valid() {
      counts.Length == pending.Length
    }

    function AccountOf(k: nat): Account
      requires Valid() && k < counts.Length
      reads counts, pending
    {
      Account(counts[k], pending[k])
    }

    /** The part of `write` that numbers the operations: always one more than what
        was acknowledged, so a retry of an unknown outcome repeats its number. */
    method Request(keys: seq<nat>) returns (operations: seq<Incoming>)
      requires Valid()
      requires forall i :: 0 <= i < |keys| ==> keys[i] < counts.Length
      ensures |operations| == |keys|
      ensures forall i :: 0 <= i < |keys| ==> operations[i] == Incoming(index, AccountOf(keys[i]).count + 1)
    {
      operations := [];
      var i := 0;
      while i < |keys|
        invariant 0 <= i <= |keys| && |operations| == i
        invariant forall j :: 0 <= j < i ==> operations[j] == Incoming(index, AccountOf(keys[j]).count + 1)
      {
        operations := operations + [Incoming(index, counts[keys[i]] + 1)];
        i := i + 1;
      }
    }

    /** A reply that settles nothing: every operation may have been applied. */
    method MarkPending(keys: seq<nat>)
      requires Valid() && forall i :: 0 <= i < |keys| ==> keys[i] < counts.Length
      modifies pending
      ensures forall k: nat :: k < counts.Length ==> pending[k] == (old(pending[k]) || k in keys)
    {
      var i := 0;
      while i < |keys|
        invariant 0 <= i <= |keys|
        invariant forall k: nat :: k < counts.Length ==> pending[k] == (old(pending[k]) || k in keys[..i])
      {
        assert keys[..i + 1] == keys[..i] + [keys[i]];
        pending[keys[i]] := true;
        i := i + 1;
      }
      assert keys[..|keys|] == keys;
    }

    /** One operation of a complete reply. */
    method BookItem(key: nat, item: WriteItem, returnDocument: bool) returns (fine: bool)
      requires Valid() && key < counts.Length
      modifies counts, pending
      ensures AccountOf(key) == Settle(old(AccountOf(key)), item)
      ensures AccountOf(key).count == old(AccountOf(key).count) + (if item.status == Applied then 1 else 0)
      ensures AccountOf(key).pending <==> item.status != Applied && (old(AccountOf(key).pending) || !FinalRefusal(item))
      ensures forall k: nat :: k < counts.Length && k != key ==> AccountOf(k) == old(AccountOf(k))
      ensures fine <==> Fine(item, old(AccountOf(key)), returnDocument)
    {
      SettledByAnswer(AccountOf(key), item);
      if item.status != Applied {
        pending[key] := pending[key] || MayHaveCommitted(item);
        return false;
      }
      counts[key] := counts[key] + 1;
      pending[key] := false;
      fine := !returnDocument || ShowsWrite(item, counts[key]);
    }

    /** The part of `write` that books the reply. */
    method Book(keys: seq<nat>, response: WriteResponse, returnDocument: bool) returns (success: bool)
      requires Valid() && Distinct(keys)
      requires forall i :: 0 <= i < |keys| ==> keys[i] < counts.Length
      modifies counts, pending
      ensures forall k: nat :: k < counts.Length ==> AccountOf(k) == After(old(AccountOf(k)), k, keys, response)
      ensures success <==> Complete(response, |keys|) && forall i :: 0 <= i < |keys| ==>
                Fine(response.items[i], old(AccountOf(keys[i])), returnDocument)
    {
      if response.RpcError? || |response.items| != |keys| {
        MarkPending(keys);
        return false;
      }
      success := true;
      var index := 0;
      while index < |keys|
        invariant 0 <= index <= |keys|
        invariant forall j :: index <= j < |keys| ==> AccountOf(keys[j]) == old(AccountOf(keys[j]))
        invariant forall j :: 0 <= j < index ==> AccountOf(keys[j]) == Settle(old(AccountOf(keys[j])), response.items[j])
        invariant forall k: nat :: k < counts.Length && k !in keys ==> AccountOf(k) == old(AccountOf(k))
        invariant success <==> forall j :: 0 <= j < index ==> Fine(response.items[j], old(AccountOf(keys[j])), returnDocument)
      {
        var fine := BookItem(keys[index], response.items[index], returnDocument);
        success := success && fine;
        index := index + 1;
      }
    }
  }
}
