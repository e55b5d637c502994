/** One key of a soak cycle: its document, and the log through which mutations reach it. */
module SoakStore {
  datatype Mutation = Create | Merge | Delete

  function Rank(m: Mutation): nat {
    match m
    case Create => 1
    case Merge => 2
    case Delete => 3
  }

  datatype Document = Document(value: string, counter: int, operation: string, updated: int)

  datatype Observed = Absent | Present(document: Document)

  function CreateID(key: string): string { key + ":create" }

  function MergeID(key: string): string { key + ":merge" }

  lemma IDsDiffer(key: string)
    ensures CreateID(key) != MergeID(key)
  {
    assert CreateID(key)[|key| + 1] == 'c';
    assert MergeID(key)[|key| + 1] == 'm';
  }

  /** What one delivery does to the stored document; the merge program fails without one. */
  function Deliver(key: string, stored: Observed, m: Mutation, now: int): Observed {
    match m
    case Create => Present(Document(key, 0, CreateID(key), 0))
    case Merge =>
      if stored.Absent? then Absent
      else
        var current := stored.document;
        var counted := if current.operation != MergeID(key)
                       then current.(counter := current.counter + 1, operation := MergeID(key)) else current;
        Present(counted.(updated := now))
    case Delete => Absent
  }

  /** An attempt that reached the log, perhaps not for the first time. */
  datatype Entry = Entry(attempt: nat, now: int)

  /** The stored document after the entries; `issued` lists the attempts. */
  function Contents(key: string, issued: seq<Mutation>, log: seq<Entry>): Observed
    requires forall i :: 0 <= i < |log| ==> log[i].attempt < |issued|
  {
    if log == [] then Absent
    else
      var last := log[|log| - 1];
      Deliver(key, Contents(key, issued, log[..|log| - 1]), issued[last.attempt], last.now)
  }

  /** Attempts enter the log in the order of issue, some never and some several times. */
  ghost predicate InOrder(issued: seq<Mutation>, log: seq<Entry>) {
    && (forall i :: 0 <= i < |log| ==> log[i].attempt < |issued|)
    && (forall i, j :: 0 <= i <= j < |log| ==> log[i].attempt <= log[j].attempt)
  }

  /** The cycle issues creates, then merges, then deletes. */
  ghost predicate Staged(issued: seq<Mutation>) {
    forall i, j :: 0 <= i <= j < |issued| ==> Rank(issued[i]) <= Rank(issued[j])
  }

  ghost function Kind(issued: seq<Mutation>, log: seq<Entry>, i: int): Mutation
    requires InOrder(issued, log) && 0 <= i < |log|
  {
    issued[log[i].attempt]
  }

  datatype Expectation = Expectation(found: bool, value: string, counter: int, operation: string)

  predicate Matches(observed: Observed, want: Expectation) {
    if observed.Absent? then !want.found
    else want.found && observed.document.value == want.value && observed.document.counter == want.counter
         && observed.document.operation == want.operation
  }

  function AbsentExpectation(): Expectation { Expectation(false, "", 0, "") }

  function CreatedExpectation(key: string): Expectation { Expectation(true, key, 0, CreateID(key)) }

  function MergedExpectation(key: string): Expectation { Expectation(true, key, 1, MergeID(key)) }

  function Desired(key: string, m: Mutation): Expectation {
    match m
    case Create => CreatedExpectation(key)
    case Merge => MergedExpectation(key)
    case Delete => AbsentExpectation()
  }

  function Previous(key: string, m: Mutation): Expectation {
    match m
    case Create => AbsentExpectation()
    case Merge => CreatedExpectation(key)
    case Delete => MergedExpectation(key)
  }

  /** In a staged log that begins with a create, the last entry alone decides what is stored. */
  lemma {:induction false} LastDecides(key: string, issued: seq<Mutation>, log: seq<Entry>)
    requires InOrder(issued, log) && Staged(issued) && log != [] && Kind(issued, log, 0) == Create
    ensures Matches(Contents(key, issued, log), Desired(key, Kind(issued, log, |log| - 1)))
  {
    var last := |log| - 1;
    IDsDiffer(key);
    if last > 0 {
      assert log[..last][0] == log[0];
      assert Rank(Kind(issued, log, last - 1)) <= Rank(Kind(issued, log, last));
      LastDecides(key, issued, log[..last]);
    }
  }

  /** A merge that enters such a log finds a document, so its program does not fail. */
  lemma MergeFindsDocument(key: string, issued: seq<Mutation>, log: seq<Entry>, i: nat)
    requires InOrder(issued, log) && Staged(issued) && i < |log| && Kind(issued, log, 0) == Create && Kind(issued, log, i) == Merge
    ensures Contents(key, issued, log[..i]).Present?
  {
    assert log[..i] != [] && log[..i][0] == log[0];
    assert Rank(Kind(issued, log, i - 1)) <= Rank(Kind(issued, log, i));
    LastDecides(key, issued, log[..i]);
  }

  // ---- what the program and the comparison promise ---------------------------------------

  /** Delivered once or twice, a merge differs in its time stamp only. */
  lemma RepeatedMergeOnlyStamps(key: string, stored: Observed, first: int, second: int)
    ensures var once := Deliver(key, stored, Merge, first);
            Deliver(key, once, Merge, second) == (if once.Present? then Present(once.document.(updated := second)) else Absent)
    ensures stored.Present? ==> Deliver(key, stored, Merge, first).Present?
  {
  }

  /** What the first merge of a document changes, and what it leaves. */
  lemma FirstMergeCounts(key: string, document: Document, now: int)
    requires document.operation != MergeID(key)
    ensures Deliver(key, Present(document), Merge, now) == Present(Document(document.value, document.counter + 1, MergeID(key), now))
  {
  }

  /** Documents match the same expectation exactly if they agree on everything but the time stamp. */
  lemma MatchingIsAgreeing(a: Document, b: Document)
    ensures Matches(Present(b), Expectation(true, a.value, a.counter, a.operation)) <==> b == a.(updated := b.updated)
    ensures !Matches(Absent, Expectation(true, a.value, a.counter, a.operation))
    ensures forall value, counter, operation :: !Matches(Present(b), Expectation(false, value, counter, operation))
    ensures forall value, counter, operation :: Matches(Absent, Expectation(false, value, counter, operation))
  {
  }

  // ---- what the assumptions are for ------------------------------------------------------

  /** A create that arrives out of order, after the merge, leaves what the delete phase does not expect. */
  lemma LateCreateIsUnexpected(key: string)
    ensures var stored := Contents(key, [Create, Create, Merge], [Entry(0, 0), Entry(2, 0), Entry(1, 0)]);
            !Matches(stored, Desired(key, Delete)) && !Matches(stored, Previous(key, Delete))
  {
    IDsDiffer(key);
  }

  /** So does a read of a shorter prefix than an earlier read saw. */
  lemma StaleReadIsUnexpected(key: string)
    ensures var issued, log := [Create, Merge], [Entry(0, 0), Entry(1, 0)];
            && Matches(Contents(key, issued, log), Desired(key, Merge))
            && !Matches(Contents(key, issued, log[..1]), Desired(key, Delete))
            && !Matches(Contents(key, issued, log[..1]), Previous(key, Delete))
  {
    IDsDiffer(key);
    var issued, log := [Create, Merge], [Entry(0, 0), Entry(1, 0)];
    assert log[..1][..0] == [];
    assert Contents(key, issued, log[..1]) == Present(Document(key, 0, CreateID(key), 0));
  }
}
