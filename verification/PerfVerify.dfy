/** The final reconciliation of acknowledged against persisted writes. */
module PerfVerify {
  import opened PerfSettings
  import opened PerfWorker
  import opened PerfProtocol

  /** A stored document: the merge record and whatever must come back unchanged. */
  datatype Document = Document(record: Record, payload: string)

  datatype ReadItem = Found(document: Document) | Unreadable | Limited | Failed

  /** What the collector hands back for one read RPC; results may come with an error. */
  datatype ReadError = NoError | ResourceExhaustedError | OtherError
  datatype ReadReply = ReadReply(error: ReadError, results: seq<ReadItem>)

  /** One worker as reconciliation sees it: its index is its position. */
  datatype Ledger = Ledger(workers: seq<seq<Account>>, hot: bool)

  ghost predicate ValidLedger(ledger: Ledger, local: nat) {
    forall w :: 0 <= w < |ledger.workers| ==> |ledger.workers[w]| == local
  }

  /** The persisted sequence of writer `w` fits its account. */
  predicate Fits(account: Account, actual: nat) {
    actual == account.count || (actual == account.count + 1 && account.pending)
  }

  ghost predicate OwnedBy(ledger: Ledger, local: nat, key: nat, w: nat) {
    Owns(w, key, local, ledger.hot)
  }

  ghost function AccountFor(ledger: Ledger, local: nat, key: nat, w: nat): Account
    requires ValidLedger(ledger, local) && w < |ledger.workers| && OwnedBy(ledger, local, key, w)
  {
    ledger.workers[w][LocalKey(w, key, local, ledger.hot)]
  }

  /** The sum of the persisted sequences of the first `n` workers that own the record. */
  ghost function OwnedSum(ledger: Ledger, local: nat, key: nat, record: Record, n: nat): int {
    if n == 0 then 0
    else OwnedSum(ledger, local, key, record, n - 1) + (if OwnedBy(ledger, local, key, n - 1) then Seen(record, n - 1) else 0)
  }

  /** How many of the first `n` workers have one write applied that they never saw acknowledged. */
  ghost function Unacknowledged(ledger: Ledger, local: nat, key: nat, record: Record, n: nat): nat
    requires ValidLedger(ledger, local) && n <= |ledger.workers|
  {
    if n == 0 then 0
    else Unacknowledged(ledger, local, key, record, n - 1) +
         (if OwnedBy(ledger, local, key, n - 1) && Seen(record, n - 1) == AccountFor(ledger, local, key, n - 1).count + 1
             && AccountFor(ledger, local, key, n - 1).pending then 1 else 0)
  }

  ghost predicate SequencesFit(ledger: Ledger, local: nat, key: nat, record: Record, n: nat)
    requires ValidLedger(ledger, local) && n <= |ledger.workers|
  {
    forall w: nat :: w < n && OwnedBy(ledger, local, key, w) ==> Fits(AccountFor(ledger, local, key, w), Seen(record, w))
  }

  /** A record agrees with what all its writers know. */
  ghost predicate Reconciles(ledger: Ledger, local: nat, key: nat, document: Document, payload: string)
    requires ValidLedger(ledger, local)
  {
    && SequencesFit(ledger, local, key, document.record, |ledger.workers|)
    && document.record.value == OwnedSum(ledger, local, key, document.record, |ledger.workers|)
    && document.payload == payload
  }

  /** Without the loop's bookkeeping: no writer has persisted less than was acknowledged, or more
      than one write beyond that, and that one only while it is open; the value is their sum. */
  lemma ReconcilesIff(ledger: Ledger, local: nat, key: nat, document: Document, payload: string)
    requires ValidLedger(ledger, local)
    ensures Reconciles(ledger, local, key, document, payload) <==>
            && (forall w: nat :: w < |ledger.workers| && OwnedBy(ledger, local, key, w) ==>
                  var account := AccountFor(ledger, local, key, w);
                  account.count <= Seen(document.record, w) <= account.count + (if account.pending then 1 else 0))
            && document.record.value == OwnedSum(ledger, local, key, document.record, |ledger.workers|)
            && document.payload == payload
  {
    assert forall w: nat :: w < |ledger.workers| && OwnedBy(ledger, local, key, w) ==>
             var account := AccountFor(ledger, local, key, w);
             (Fits(account, Seen(document.record, w)) <==>
              account.count <= Seen(document.record, w) <= account.count + (if account.pending then 1 else 0));
  }

  /** The inner loop: one record against every worker. */
  method CheckRecord(ledger: Ledger, local: nat, key: nat, document: Document, payload: string)
    returns (ok: bool, extra: nat)
    requires ValidLedger(ledger, local)
    ensures ok <==> Reconciles(ledger, local, key, document, payload)
    ensures ok ==> extra == Unacknowledged(ledger, local, key, document.record, |ledger.workers|)
  {
    var expected := 0;
    extra := 0;
    var w := 0;
    while w < |ledger.workers|
      invariant 0 <= w <= |ledger.workers|
      invariant SequencesFit(ledger, local, key, document.record, w)
      invariant expected == OwnedSum(ledger, local, key, document.record, w)
      invariant extra == Unacknowledged(ledger, local, key, document.record, w)
    {
      var entry := ledger.workers[w];
      var localKey := LocalKey(w, key, |entry|, ledger.hot);
      if localKey < 0 || localKey >= |entry| {
        w := w + 1;
        continue;
      }
      var count := entry[localKey].count;
      var actual := Seen(document.record, w);
      if actual == count + 1 && entry[localKey].pending {
        count := count + 1;
        extra := extra + 1;
      }
      if actual != count {
        assert !Fits(AccountFor(ledger, local, key, w), Seen(document.record, w));
        return false, extra;
      }
      expected := expected + count;
      w := w + 1;
    }
    ok := document.record.value == expected && document.payload == payload;
  }

  ghost predicate AllReconcile(ledger: Ledger, local: nat, documents: seq<Document>, payloads: nat -> string)
    requires ValidLedger(ledger, local)
  {
    forall key: nat :: key < |documents| ==> Reconciles(ledger, local, key, documents[key], payloads(key))
  }

  ghost function TotalUnacknowledged(ledger: Ledger, local: nat, documents: seq<Document>): nat
    requires ValidLedger(ledger, local)
  {
    if documents == [] then 0
    else
      var last := |documents| - 1;
      TotalUnacknowledged(ledger, local, documents[..last]) +
      Unacknowledged(ledger, local, last, documents[last].record, |ledger.workers|)
  }

  /** `documents` goes on from record `begin` with what the results hold. */
  ghost predicate Carries(results: seq<ReadItem>, begin: nat, documents: seq<Document>) {
    && |documents| == begin + |results|
    && forall i :: 0 <= i < |results| ==> results[i] == Found(documents[begin + i])
  }

  /** A result that must fail the run. */
  ghost predicate Bad(ledger: Ledger, local: nat, key: nat, item: ReadItem, payload: string)
    requires ValidLedger(ledger, local)
  {
    !item.Found? || !Reconciles(ledger, local, key, item.document, payload)
  }

  /** The service says that the batch was too large: as the error of the RPC or of one of its results. */
  ghost predicate TooLarge(reply: ReadReply) {
    reply.error == ResourceExhaustedError || Limited in reply.results
  }

  /** The loop over the results that looks for such an answer. */
  method FindLimit(reply: ReadReply) returns (limited: bool)
    ensures limited <==> TooLarge(reply)
  {
    limited := reply.error == ResourceExhaustedError;
    for i := 0 to |reply.results|
      invariant limited <==> reply.error == ResourceExhaustedError || Limited in reply.results[..i]
    {
      assert reply.results[..i + 1] == reply.results[..i] + [reply.results[i]];
      limited := limited || reply.results[i] == Limited;
    }
    assert reply.results[..|reply.results|] == reply.results;
  }

  function Min(a: int, b: int): int {
    if a < b then a else b
  }

  function Max(a: int, b: int): int {
    if a < b then b else a
  }

  /** One result: the document joins those that reconcile, or the run fails. */
  method CheckItem(ledger: Ledger, local: nat, item: ReadItem, payloads: nat -> string, key: nat, ghost before: seq<Document>)
    returns (ok: bool, extra: nat)
    requires ValidLedger(ledger, local) && |before| == key && AllReconcile(ledger, local, before, payloads)
    ensures ok <==> !Bad(ledger, local, key, item, payloads(key))
    ensures ok ==> AllReconcile(ledger, local, before + [item.document], payloads)
    ensures ok ==> TotalUnacknowledged(ledger, local, before + [item.document]) == TotalUnacknowledged(ledger, local, before) + extra
  {
    if !item.Found? {
      return false, 0;
    }
    ok, extra := CheckRecord(ledger, local, key, item.document, payloads(key));
    if ok {
      Extend(ledger, local, before, item.document, payloads);
    }
  }

  /** Books one complete batch of results; `before` are the documents of the records
      below the batch. */
  method CheckBatch(ledger: Ledger, local: nat, begin: nat, results: seq<ReadItem>, payloads: nat -> string, ghost before: seq<Document>)
    returns (ok: bool, extra: nat, ghost documents: seq<Document>)
    requires ValidLedger(ledger, local) && |before| == begin && AllReconcile(ledger, local, before, payloads)
    ensures ok ==> before <= documents && Carries(results, begin, documents) && AllReconcile(ledger, local, documents, payloads)
    ensures ok ==> TotalUnacknowledged(ledger, local, documents) == TotalUnacknowledged(ledger, local, before) + extra
    ensures !ok ==> exists i :: 0 <= i < |results| && Bad(ledger, local, begin + i, results[i], payloads(begin + i))
  {
    extra, documents := 0, before;
    var offset := 0;
    while offset < |results|
      invariant 0 <= offset <= |results| && |documents| == begin + offset && before <= documents
      invariant forall i :: 0 <= i < offset ==> results[i] == Found(documents[begin + i])
      invariant AllReconcile(ledger, local, documents, payloads)
      invariant TotalUnacknowledged(ledger, local, documents) == TotalUnacknowledged(ledger, local, before) + extra
    {
      var fine, one := CheckItem(ledger, local, results[offset], payloads, begin + offset, documents);
      if !fine {
        return false, extra, documents;
      }
      documents := documents + [results[offset].document];
      extra := extra + one;
      offset := offset + 1;
    }
    ok := true;
  }

  lemma Extend(ledger: Ledger, local: nat, documents: seq<Document>, document: Document, payloads: nat -> string)
    requires ValidLedger(ledger, local) && AllReconcile(ledger, local, documents, payloads)
    requires Reconciles(ledger, local, |documents|, document, payloads(|documents|))
    ensures AllReconcile(ledger, local, documents + [document], payloads)
    ensures TotalUnacknowledged(ledger, local, documents + [document]) ==
            TotalUnacknowledged(ledger, local, documents) + Unacknowledged(ledger, local, |documents|, document.record, |ledger.workers|)
  {
    var longer := documents + [document];
    assert longer[..|longer| - 1] == documents;
  }

  // ---- the adaptive loop -----------------------------------------------------------

  const MAX_BATCH: nat := 128
  const READ_BUDGET: nat := 16 * 1024 * 1024
  const RECORD_OVERHEAD: nat := 512

  /** What the service answers to attempt number `t`, a read of `size` records from `begin`. */
  type Service = (nat, nat, nat) -> ReadReply

  /** Every record of `documents` was delivered, at its own position, by an unlimited
      reply without error. */
  ghost predicate Delivered(service: Service, documents: seq<Document>) {
    forall key: nat :: key < |documents| ==> WasDelivered(service, key, documents[key])
  }

  ghost predicate WasDelivered(service: Service, key: nat, document: Document) {
    exists t: nat, begin: nat, size: nat :: DeliveredBy(service, key, document, t, begin, size)
  }

  ghost predicate DeliveredBy(service: Service, key: nat, document: Document, t: nat, begin: nat, size: nat) {
    var reply := service(t, begin, size);
    && begin <= key < begin + size && |reply.results| == size && reply.error == NoError
    && reply.results[key - begin] == Found(document)
  }

  /** A reply that neither fails nor loses anything: the batch was too big, or every
      record came back and agrees with its writers. */
  ghost predicate Healthy(ledger: Ledger, local: nat, payloads: nat -> string, reply: ReadReply, begin: nat, size: nat)
    requires ValidLedger(ledger, local)
  {
    || (TooLarge(reply) && size > 1)
    || (reply.error == NoError && |reply.results| == size
        && forall i :: 0 <= i < size ==> !Bad(ledger, local, begin + i, reply.results[i], payloads(begin + i)))
  }

  ghost predicate HealthyService(ledger: Ledger, local: nat, payloads: nat -> string, service: Service, keys: nat)
    requires ValidLedger(ledger, local)
  {
    forall t: nat, begin: nat, size: nat :: 0 < size && begin + size <= keys ==>
      Healthy(ledger, local, payloads, service(t, begin, size), begin, size)
  }

  lemma DeliveredExtends(service: Service, before: seq<Document>, documents: seq<Document>, t: nat, size: nat)
    requires Delivered(service, before) && before <= documents
    requires service(t, |before|, size).error == NoError && |service(t, |before|, size).results| == size
    requires Carries(service(t, |before|, size).results, |before|, documents)
    ensures Delivered(service, documents)
  {
    var begin := |before|;
    forall key: nat | key < |documents|
      ensures WasDelivered(service, key, documents[key])
    {
      if key < begin {
        assert documents[key] == before[key];
      } else {
        assert documents[begin + (key - begin)] == documents[key];
        assert DeliveredBy(service, key, documents[key], t, begin, size);
      }
    }
  }

  /** One reply of the loop, once it is known not to call for a smaller batch. */
  method AcceptReply(ledger: Ledger, local: nat, payloads: nat -> string, reply: ReadReply, begin: nat, size: nat, ghost before: seq<Document>)
    returns (ok: bool, extra: nat, ghost documents: seq<Document>)
    requires ValidLedger(ledger, local) && |before| == begin && AllReconcile(ledger, local, before, payloads)
    requires !(TooLarge(reply) && size > 1)
    ensures ok ==> reply.error == NoError && |reply.results| == size
    ensures ok ==> before <= documents && Carries(reply.results, begin, documents) && AllReconcile(ledger, local, documents, payloads)
    ensures ok ==> TotalUnacknowledged(ledger, local, documents) == TotalUnacknowledged(ledger, local, before) + extra
    ensures !ok ==> !Healthy(ledger, local, payloads, reply, begin, size)
  {
    extra, documents := 0, before;
    if reply.error != NoError || |reply.results| != size {
      return false, extra, documents;
    }
    ok, extra, documents := CheckBatch(ledger, local, begin, reply.results, payloads, before);
  }

  /** The part of the loop after a reply that was not too large. */
  method BookReply(ledger: Ledger, local: nat, payloads: nat -> string, ghost service: Service, reply: ReadReply, ghost sent: nat, begin: nat, size: nat, ghost before: seq<Document>)
    returns (ok: bool, extra: nat, ghost documents: seq<Document>)
    requires ValidLedger(ledger, local) && |before| == begin && AllReconcile(ledger, local, before, payloads) && Delivered(service, before)
    requires reply == service(sent, begin, size) && !(TooLarge(reply) && size > 1)
    ensures ok ==> |documents| == begin + size && AllReconcile(ledger, local, documents, payloads) && Delivered(service, documents)
    ensures ok ==> TotalUnacknowledged(ledger, local, documents) == TotalUnacknowledged(ledger, local, before) + extra
    ensures !ok ==> !Healthy(ledger, local, payloads, reply, begin, size)
  {
    ok, extra, documents := AcceptReply(ledger, local, payloads, reply, begin, size, before);
    if ok {
      DeliveredExtends(service, before, documents, sent, size);
    }
  }

  /** One read RPC of the reconciliation, with the batch size that was in force. */
  datatype Asked = Asked(begin: nat, batch: nat)

  /** How many records it asks for. */
  function SizeOf(asked: Asked, keys: nat): nat {
    if asked.begin < keys then Min(keys - asked.begin, asked.batch) else 0
  }

  /** A batch small enough for the budget, and never empty. */
  ghost predicate Modest(asked: Asked, padding: nat) {
    1 <= asked.batch <= 128 && (asked.batch > 1 ==> asked.batch * (padding + 512) <= 0x100_0000)
  }

  /** The first batch is as large as that allows. */
  ghost predicate IsLargest(batch: nat, padding: nat) {
    forall more: nat :: batch < more ==> !Modest(Asked(0, more), padding)
  }

  ghost predicate Follows(service: Service, keys: nat, trace: seq<Asked>, i: nat)
    requires i + 1 < |trace|
  {
    var asked, next := trace[i], trace[i + 1];
    var size := SizeOf(asked, keys);
    if TooLarge(service(i, asked.begin, size)) && size > 1
    then next.begin == asked.begin && next.batch == size / 2
    else next.begin == asked.begin + size && next.batch == asked.batch
  }

  /** Nothing is skipped or read twice: a batch is halved and asked again exactly when it was too
      large, and followed by the next records otherwise. */
  ghost predicate Adapts(service: Service, keys: nat, padding: nat, trace: seq<Asked>) {
    && (forall i :: 0 <= i < |trace| ==> trace[i].begin < keys && Modest(trace[i], padding))
    && (trace != [] ==> trace[0].begin == 0 && IsLargest(trace[0].batch, padding))
    && (forall i :: 0 <= i < |trace| - 1 ==> Follows(service, keys, trace, i))
  }

  lemma FirstBatchIsModest(padding: nat, begin: nat)
    ensures var batch := Min(MAX_BATCH, Max(1, READ_BUDGET / (padding + RECORD_OVERHEAD)));
            batch >= 1 && Modest(Asked(begin, batch), padding) && IsLargest(batch, padding)
  {
    var each := padding + RECORD_OVERHEAD;
    var batch := Min(MAX_BATCH, Max(1, READ_BUDGET / each));
    if batch > 1 {
      FloorTimes(READ_BUDGET, each, batch);
    }
    forall more: nat | batch < more <= MAX_BATCH
      ensures more * each > READ_BUDGET
    {
      CeilingTimes(READ_BUDGET, each, more);
    }
  }

  lemma CeilingTimes(budget: nat, each: nat, batch: nat)
    requires each > 0 && batch > budget / each
    ensures batch * each > budget
  {
    MulOrder(budget / each + 1, batch, each);
    assert (budget / each + 1) * each == (budget / each) * each + each;
  }

  lemma FloorTimes(budget: nat, each: nat, batch: nat)
    requires each > 0 && batch <= budget / each
    ensures batch * each <= budget
  {
    MulOrder(batch, budget / each, each);
  }

  /** Less of a modest batch is modest. */
  lemma LessIsModest(asked: Asked, begin: nat, batch: nat, padding: nat)
    requires Modest(asked, padding) && 1 <= batch <= asked.batch
    ensures Modest(Asked(begin, batch), padding)
  {
    MulOrder(batch, asked.batch, padding + RECORD_OVERHEAD);
  }

  lemma AdaptsSnoc(service: Service, keys: nat, padding: nat, trace: seq<Asked>, next: Asked)
    requires Adapts(service, keys, padding, trace) && next.begin < keys && Modest(next, padding)
    requires trace == [] ==> next.begin == 0 && IsLargest(next.batch, padding)
    requires trace != [] ==> Follows(service, keys, trace + [next], |trace| - 1)
    ensures Adapts(service, keys, padding, trace + [next])
  {
    var longer := trace + [next];
    forall i | 0 <= i < |longer| - 1
      ensures Follows(service, keys, longer, i)
    {
      if i < |trace| - 1 {
        assert Follows(service, keys, trace, i);
      }
    }
  }

  /** What the next RPC of the loop is, given the last one. */
  ghost predicate NextIs(service: Service, keys: nat, padding: nat, trace: seq<Asked>, next: Asked) {
    && Adapts(service, keys, padding, trace) && Modest(next, padding)
    && (trace == [] ==> next.begin == 0 && IsLargest(next.batch, padding))
    && (trace != [] ==> Follows(service, keys, trace + [next], |trace| - 1))
  }

  /** After an answer that was too large: the same records again, half as many. */
  lemma AskedAgain(service: Service, keys: nat, padding: nat, trace: seq<Asked>, asked: Asked)
    requires NextIs(service, keys, padding, trace, asked) && asked.begin < keys
    requires SizeOf(asked, keys) > 1 && TooLarge(service(|trace|, asked.begin, SizeOf(asked, keys)))
    ensures NextIs(service, keys, padding, trace + [asked], Asked(asked.begin, SizeOf(asked, keys) / 2))
  {
    var next := Asked(asked.begin, SizeOf(asked, keys) / 2);
    AdaptsSnoc(service, keys, padding, trace, asked);
    LessIsModest(asked, next.begin, next.batch, padding);
    assert (trace + [asked] + [next])[|trace|] == asked;
  }

  /** After any other answer: the records behind. */
  lemma AskedOn(service: Service, keys: nat, padding: nat, trace: seq<Asked>, asked: Asked)
    requires NextIs(service, keys, padding, trace, asked) && asked.begin < keys
    requires !(SizeOf(asked, keys) > 1 && TooLarge(service(|trace|, asked.begin, SizeOf(asked, keys))))
    ensures NextIs(service, keys, padding, trace + [asked], Asked(asked.begin + SizeOf(asked, keys), asked.batch))
  {
    var next := Asked(asked.begin + SizeOf(asked, keys), asked.batch);
    AdaptsSnoc(service, keys, padding, trace, asked);
    LessIsModest(asked, next.begin, next.batch, padding);
    assert (trace + [asked] + [next])[|trace|] == asked;
  }

  /** What holds between two RPCs of the loop. */
  ghost predicate Between(ledger: Ledger, local: nat, keys: nat, padding: nat, payloads: nat -> string, service: Service,
                          begin: nat, batch: nat, documents: seq<Document>, trace: seq<Asked>)
    requires ValidLedger(ledger, local)
  {
    && begin <= keys && |documents| == begin
    && AllReconcile(ledger, local, documents, payloads) && Delivered(service, documents)
    && NextIs(service, keys, padding, trace, Asked(begin, batch))
  }

  /** The body of the loop: one RPC and what it allows. */
  method ReadOnce(ledger: Ledger, local: nat, keys: nat, ghost padding: nat, payloads: nat -> string, service: Service,
                  begin: nat, batch: nat, attempt: nat, ghost before: seq<Document>, ghost trace: seq<Asked>)
    returns (ok: bool, read: nat, next: nat, extra: nat, ghost documents: seq<Document>)
    requires ValidLedger(ledger, local) && begin < keys && attempt == |trace|
    requires Between(ledger, local, keys, padding, payloads, service, begin, batch, before, trace)
    ensures ok ==> Between(ledger, local, keys, padding, payloads, service, begin + read, next, documents, trace + [Asked(begin, batch)])
    ensures ok ==> TotalUnacknowledged(ledger, local, documents) == TotalUnacknowledged(ledger, local, before) + extra
    ensures ok ==> read > 0 || next < batch
    ensures Adapts(service, keys, padding, trace + [Asked(begin, batch)])
    ensures !ok ==> !HealthyService(ledger, local, payloads, service, keys)
  {
    var size := Min(keys, begin + batch) - begin;
    ghost var asked := Asked(begin, batch);
    ok, read, next, extra, documents := true, 0, batch, 0, before;
    var reply := service(attempt, begin, size);
    var limited := FindLimit(reply);
    if limited && size > 1 {
      AskedAgain(service, keys, padding, trace, asked);
      next := Max(1, size / 2);
      return;
    }
    AskedOn(service, keys, padding, trace, asked);
    ok, extra, documents := BookReply(ledger, local, payloads, service, reply, attempt, begin, size, before);
    read := size;
  }

  /** `verify`: reads all records in batches, halving a batch whenever the service
      says that it is too large. It ends for every pattern of such answers, accounts
      every record exactly once, and accepts only if all of them reconcile. */
  method Verify(ledger: Ledger, local: nat, keys: nat, padding: nat, payloads: nat -> string, service: Service)
    returns (ok: bool, reconciled: nat, ghost documents: seq<Document>, ghost trace: seq<Asked>)
    requires ValidLedger(ledger, local)
    ensures ok ==> |documents| == keys && AllReconcile(ledger, local, documents, payloads) && Delivered(service, documents)
    ensures ok ==> reconciled == TotalUnacknowledged(ledger, local, documents)
    ensures HealthyService(ledger, local, payloads, service, keys) ==> ok
    ensures Adapts(service, keys, padding, trace)
  {
    reconciled, documents, trace := 0, [], [];
    FirstBatchIsModest(padding, 0);
    var batchSize: nat := Min(MAX_BATCH, Max(1, READ_BUDGET / (padding + RECORD_OVERHEAD)));
    var begin: nat, attempt: nat := 0, 0;
    while begin < keys
      invariant attempt == |trace| && reconciled == TotalUnacknowledged(ledger, local, documents)
      invariant begin <= keys && Between(ledger, local, keys, padding, payloads, service, begin, batchSize, documents, trace)
      decreases keys - begin, batchSize
    {
      ghost var asked := Asked(begin, batchSize);
      var read, extra;
      ok, read, batchSize, extra, documents := ReadOnce(ledger, local, keys, padding, payloads, service, begin, batchSize, attempt, documents, trace);
      trace, attempt := trace + [asked], attempt + 1;
      if !ok {
        return;
      }
      reconciled, begin := reconciled + extra, begin + read;
    }
    ok := true;
  }
}
