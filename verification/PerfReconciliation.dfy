/** Reconciliation never raises a false alarm under the merge workload. */
module PerfReconciliation {
  import opened PerfSettings
  import opened PerfWorker
  import opened PerfProtocol
  import opened PerfVerify

  /** Validated settings make a valid configuration. */
  lemma ConfigFromSettings(keys: int, concurrency: int, hot: bool, batch: int)
    requires Valid(keys, concurrency, hot, batch)
    ensures LocalKeys(keys, concurrency, hot) >= 1
    ensures ValidConfig(Config(concurrency, LocalKeys(keys, concurrency, hot), hot, keys))
  {
    var local := LocalKeys(keys, concurrency, hot);
    forall w: nat, k: nat | w < concurrency && k < local
      ensures 0 <= GlobalKey(w, k, local, hot) < keys
    {
      GlobalInRange(keys, concurrency, hot, batch, w, k);
    }
  }

  ghost predicate AllIdle(s: System) {
    forall w :: 0 <= w < |s.calls| ==> s.calls[w] == Idle
  }

  ghost function LedgerOf(c: Config, s: System): Ledger {
    Ledger(s.accounts, c.hot)
  }

  lemma IdleFits(c: Config, s: System, key: nat, w: nat)
    requires Inv(c, s) && AllIdle(s) && key < c.keys && w < c.workers && Owns(w, key, c.local, c.hot)
    ensures Fits(AccountFor(LedgerOf(c, s), c.local, key, w), Seen(s.records[key], w))
  {
    var k := LocalKey(w, key, c.local, c.hot);
    LocalGlobalInverse(w, key, k, c.local, c.hot);
    assert Accounted(c, s, w, k);
  }

  lemma {:induction false} OwnersSum(c: Config, s: System, key: nat, n: nat)
    requires Inv(c, s) && key < c.keys && n <= c.workers
    ensures OwnedSum(LedgerOf(c, s), c.local, key, s.records[key], n) == SumSeen(s.records[key], n)
  {
    if n > 0 {
      OwnersSum(c, s, key, n - 1);
      assert Conserved(c, s, key);
    }
  }

  /** When no RPC is under way, every record reconciles, late applications included. */
  lemma IdleReconciles(c: Config, s: System, key: nat, payload: string)
    requires Inv(c, s) && AllIdle(s) && key < c.keys
    ensures Reconciles(LedgerOf(c, s), c.local, key, Document(s.records[key], payload), payload)
  {
    forall w: nat | w < c.workers && OwnedBy(LedgerOf(c, s), c.local, key, w)
      ensures Fits(AccountFor(LedgerOf(c, s), c.local, key, w), Seen(s.records[key], w))
    {
      IdleFits(c, s, key, w);
    }
    OwnersSum(c, s, key, c.workers);
    assert Conserved(c, s, key);
  }

  /** From state `n` on the workers are done; only late deliveries still happen. */
  ghost predicate Finished(states: seq<System>, actions: seq<Action>, n: nat) {
    && n < |states| && AllIdle(states[n])
    && forall i :: n <= i < |actions| ==> actions[i].Deliver?
  }

  lemma {:induction false} LateDeliveriesKeepAccounts(c: Config, states: seq<System>, actions: seq<Action>, n: nat, i: nat)
    requires IsRun(c, states, actions) && Finished(states, actions, n) && n <= i < |states|
    ensures states[i].accounts == states[n].accounts && AllIdle(states[i])
    decreases i
  {
    if i > n {
      LateDeliveriesKeepAccounts(c, states, actions, n, i - 1);
      assert states[i - 1 + 1] == Step(c, states[i - 1], actions[i - 1]);
    }
  }

  /** The record was read in some state after the workers finished. */
  ghost predicate ReadLate(states: seq<System>, n: nat, key: nat, record: Record) {
    exists i :: n <= i < |states| && key < |states[i].records| && states[i].records[key] == record
  }

  /** The service may call any batch of more than one record too large, and otherwise
      returns the records, each as it is at some moment after the workers finished. */
  ghost predicate ReadsRecords(states: seq<System>, n: nat, payloads: nat -> string, service: Service, keys: nat) {
    forall t: nat, begin: nat, size: nat :: 0 < size && begin + size <= keys ==>
      ReadsBatch(states, n, payloads, service(t, begin, size), begin, size)
  }

  ghost predicate ReadsBatch(states: seq<System>, n: nat, payloads: nat -> string, reply: ReadReply, begin: nat, size: nat) {
    || (TooLarge(reply) && size > 1)
    || (reply.error == NoError && |reply.results| == size
        && forall i :: 0 <= i < size ==>
             && reply.results[i].Found?
             && reply.results[i].document.payload == payloads(begin + i)
             && ReadLate(states, n, begin + i, reply.results[i].document.record))
  }

  lemma LateReadReconciles(c: Config, states: seq<System>, actions: seq<Action>, n: nat, key: nat, document: Document)
    requires IsRun(c, states, actions) && Inv(c, states[0]) && Finished(states, actions, n) && key < c.keys
    requires ReadLate(states, n, key, document.record)
    ensures ValidLedger(LedgerOf(c, states[n]), c.local)
    ensures Reconciles(LedgerOf(c, states[n]), c.local, key, document, document.payload)
  {
    var i :| n <= i < |states| && key < |states[i].records| && states[i].records[key] == document.record;
    RunKeeps(c, states, actions, n);
    RunKeeps(c, states, actions, i);
    LateDeliveriesKeepAccounts(c, states, actions, n, i);
    IdleReconciles(c, states[i], key, document.payload);
    assert LedgerOf(c, states[i]) == LedgerOf(c, states[n]);
  }

  /** Whatever the workers did and whatever the network lost, repeated or delivered
      late: reconciliation meets only healthy replies, and so `Verify` accepts. */
  lemma NoFalseAlarm(c: Config, states: seq<System>, actions: seq<Action>, n: nat, payloads: nat -> string, service: Service)
    requires IsRun(c, states, actions) && Init(c, states[0]) && Finished(states, actions, n)
    requires ReadsRecords(states, n, payloads, service, c.keys)
    ensures ValidLedger(LedgerOf(c, states[n]), c.local)
    ensures HealthyService(LedgerOf(c, states[n]), c.local, payloads, service, c.keys)
  {
    InitInv(c, states[0]);
    RunKeeps(c, states, actions, n);
    var ledger := LedgerOf(c, states[n]);
    forall t: nat, begin: nat, size: nat | 0 < size && begin + size <= c.keys
      ensures Healthy(ledger, c.local, payloads, service(t, begin, size), begin, size)
    {
      var reply := service(t, begin, size);
      assert ReadsBatch(states, n, payloads, reply, begin, size);
      if !(TooLarge(reply) && size > 1) {
        forall i | 0 <= i < size
          ensures !Bad(ledger, c.local, begin + i, reply.results[i], payloads(begin + i))
        {
          LateReadReconciles(c, states, actions, n, begin + i, reply.results[i].document);
        }
      }
    }
  }

  /** A write acknowledged but not persisted is never accepted, nor is one too many, nor a second
      one beyond the acknowledged. */
  lemma LostWriteIsFound(ledger: Ledger, local: nat, key: nat, w: nat, document: Document, payload: string)
    requires ValidLedger(ledger, local) && w < |ledger.workers| && OwnedBy(ledger, local, key, w)
    requires var account, seen := AccountFor(ledger, local, key, w), Seen(document.record, w);
             seen < account.count || (seen > account.count && !account.pending) || seen > account.count + 1
    ensures !Reconciles(ledger, local, key, document, payload)
  {
    ReconcilesIff(ledger, local, key, document, payload);
  }

  /** The end of a load run: reconciliation accepts it, and says how many writes were
      applied without being acknowledged. */
  method VerifyRun(ghost c: Config, ghost states: seq<System>, ghost actions: seq<Action>, ghost n: nat,
                   ledger: Ledger, local: nat, keys: nat, padding: nat, payloads: nat -> string, service: Service)
    returns (ok: bool, reconciled: nat, ghost documents: seq<Document>, ghost trace: seq<Asked>)
    requires IsRun(c, states, actions) && Init(c, states[0]) && Finished(states, actions, n)
    requires ReadsRecords(states, n, payloads, service, c.keys)
    requires ledger == LedgerOf(c, states[n]) && local == c.local && keys == c.keys
    ensures ok && |documents| == keys && Delivered(service, documents)
    ensures ValidLedger(ledger, local) && reconciled == TotalUnacknowledged(ledger, local, documents)
    ensures Adapts(service, keys, padding, trace)
  {
    NoFalseAlarm(c, states, actions, n, payloads, service);
    ok, reconciled, documents, trace := Verify(ledger, local, keys, padding, payloads, service);
  }
}
