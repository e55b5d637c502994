# Verified model of the qualification oracles

The repository qualifies a distributed document store. Its verdicts rest on a
handful of oracles: code that decides whether the store behaved. This project
models those oracles and proves that they neither accept wrong behaviour nor
raise false alarms, each with respect to a specification written independently
of the code.

* **Linearizability** (`History*.dfy`, `Masks.dfy`). `History` states the
  sequential specification and what a linearization is, `HistoryStore` what that
  means for every recorded result. `HistorySearch` is the memoised depth-first
  search with its shared memo and sticky exhaustion flag on bit words;
  `HistoryPaths` relates it to permutations; `HistoryCheck` proves the three
  verdicts exact. `HistoryDriver` is the concurrent test as a step system,
  `HistoryBounds` shows that its histories never exhaust the budget, and
  `HistoryAdds` gives the exact verdict for concurrent increments.
* **At-least-once accounting** (`Perf*.dfy`, `StreamCollect.dfy`). Workers issue
  numbered merges and may lose replies; the store may apply attempts late, often
  or never. The accounting invariant holds in every reachable state, and the
  final reconciliation with its adaptive batches accepts every such run.
* **Timeline and quorum gate** (`Timeline.dfy`, `Quorum.dfy`). What the
  per-second report conserves, and what the majority-loss gate says about the
  RPCs behind it, in exact integer time.
* **Capped merges** (`Dedup.dfy`, `CappedHistory*.dfy`, `Reference.dfy`,
  `Product.dfy`, `Offer.dfy`, `OfferTracking.dfy`). Order-preserving
  deduplication, the exact conditions under which replays are idempotent or
  converge, and the product and offer merges in place.
* **Lua bridge** (`Lua*.dfy`, `Decimal.dfy`). Tables are heap objects with
  sharing and cycles. `LuaJson.Denotes` says which JSON tree a value stands for;
  `LuaGraph` gives the exact condition on the graph of tables; conversion returns
  the tree exactly then, and a round trip normalises numbers and nothing else.
* **Sequential oracle and soak cycle** (`StateCheck*.dfy`, `Soak*.dfy`). Batching
  is invisible, and retries with reconciliation turn repeated delivery into one
  effect.
* **Test evidence** (`TestEvents.dfy`). The streaming gate against a declarative
  specification of traces.

`Int64` is 64-bit wrap-around arithmetic; `Options` and `Sets` are shared helpers.
`dafny verify dfyconfig.toml` checks the whole project.

Findings where the code does less or other than one might expect, each proved:
replay at the cap is idempotent only under the condition of
`CappedHistory.IdempotentIff`, and never settles with more keys than the cap;
`goToLua` refuses the floats that `luaToGo` returns (`LuaRoundTrip.SecondTripIff`);
the array test of the bridge needs more of `table.Len()` than the Lua 5.4
Reference Manual promises in section 3.4.7 (`LuaTable.BorderIsNotEnough`), so the
model assumes that the length is the number of consecutive integer keys from 1;
the evidence gate vouches for single tests exactly when no two of them share the
joined key (`TestEvents.GateHonestIff`), and a subtest can share it with a test of
a package below; an offer's current identifier need not be in its list of
identifiers (`Offer.CurrentUIDListedIff`); the load tool books replies by position,
which is right exactly when each operation is answered once
(`StreamCollect.CollectedInOrderIff`), and this is not checked; a stored product or
offer without a first-found time gets the time of the merge, not the incoming one
(`Product.MergedFirstFound`, `Offer.MergedIdentity`); address and contact keys join
their parts without a separator, so different ones can be taken for the same
(`Offer.KeysShared`).

## Model

| member | source | states |
|---|---|---|
| `HistoryCheck.Check` | internal/historycheck/history.go:50-115 | The three-way verdict is exact: a search is run if and only if the input is well formed with 1 to 24 entries; acceptance means that some permutation explains all results and keeps real-time precedence; "no ordering" means that none does; a malformed entry is reported at the first offending index; no state is expanded twice (as many distinct states as expansions) and the memo ends with at most 250000 + n - 1 states |
| `HistoryCheck.Run` | internal/historycheck/history.go:75-115 | The search proper on validated input: accept and reject are sound even though the memo is still written after exhaustion, and an exhausted budget means that at least 250000 states are reachable |
| `HistorySearch.Search.Visit` | internal/historycheck/history.go:79-106 | The memoised closure: success only from a state that can be completed; failure without exhaustion only from one that cannot; `exhausted` is sticky; what is remembered stays remembered and bounded; a search that meets no dead end succeeds whatever the budget |
| `HistorySearch.Search.Expand` | internal/historycheck/history.go:90-103 | The loop over the entries: tries exactly those whose predecessors are visited and whose result matches, and each state is entered at most once |
| `HistorySearch.Search.MaskTest` | internal/historycheck/history.go:91-98 | The two bit tests on the words are the set statement "not yet visited, all predecessors visited" |
| `HistorySearch.Search.Successor` | internal/historycheck/history.go:99 | Setting the bit and applying the entry is the step of the abstract search, with fewer entries left |
| `HistoryCheck.PredecessorMask` | internal/historycheck/history.go:69-73 | The word of entry i holds exactly the entries that ended before it started |
| `HistoryCheck.Validate` | internal/historycheck/history.go:57-74 | Accepts exactly well-formed entries with distinct identities and reports the first fault otherwise |
| `HistoryPaths.FinishIffLinearizable` | internal/historycheck/history.go:42-45 | A path of matching steps through the search space from the start to the complete set exists exactly when the history is linearizable |
| `HistoryPaths.FinishThroughSuccessor` | internal/historycheck/history.go:90-103 | An incomplete state can be completed exactly through one of its successors |
| `HistoryCheck.ManyReachable` | internal/historycheck/history.go:86-89 | A full memo exhibits that many distinct reachable states |
| `Masks.Full` | internal/historycheck/history.go:75 | `1<<n - 1` is the set of the first n entries |
| `Masks.Insert` | internal/historycheck/history.go:71 | Or with one bit inserts one member |
| `Masks.Inclusion` | internal/historycheck/history.go:92 | `a & b == a` is set inclusion |
| `Masks.Extensional` | internal/historycheck/history.go:42-45 | Words with the same members are equal, so the memo is keyed by sets |
| `Masks.Range` | internal/historycheck/history.go:75 | Sets of at most k entries fit below 2^k, far inside 64 bits |
| `HistoryBounds.NotCrowded` | internal/historycheck/history.go:75-106 | With n entries from an absent record at most 2^n * (S + 2) states are reachable, where S is the sum of all inputs |
| `HistoryBounds.SmallHistoriesConclude` | internal/historycheck/history.go:86-114 | When that number is below the budget the verdict is always a conclusion, and acceptance is equivalent to linearizability |
| `HistoryAdds.AddsLinearizable` | internal/historycheck/history.go:117-145 | For applied or conflicting increments followed by one read an ordering exists exactly when the read shows the initial counter plus the applied inputs, for every overlap |
| `HistoryAdds.SmoothFinishes` | internal/historycheck/history.go:90-103 | Where no dead end can be met, the ordering can be completed |
| `HistoryAdds.AddsVerdict` | internal/historycheck/history.go:90-114 | For such histories the checker accepts exactly the right reads, at any length up to 24 and for any budget use |
| `HistoryStore.MatchesIffAnswered` | internal/historycheck/history.go:117-145 | For every state and every recorded result, honest or not, an entry matches exactly if a sequential store may answer so (applied, not applied, conflict and read state spelled out per kind), and the next state is that store's |
| `HistoryStore.OnlyConflictsAreTrusted` | internal/historycheck/history.go:117-122 | Of the recorded result, running a call looks at nothing but the conflict of an add or replace |
| `HistoryStore.DeleteBetweenCreates` | internal/historycheck/history.go:127-133 | In every ordering that explains the results a delete lies between two applied creates |
| `HistoryStore.DoubleCreateIsRejected` | internal/historycheck/history.go:50-115 | A history with two applied creates and no delete is never accepted |
| `HistoryDriver.ReplyMatchesSpecification` | conformance/history_test.go:152-247 | For every reply of a linearizable store, conflicts included, the driver records the result that the sequential specification demands, and the specification moves the record as the store did |
| `HistoryDriver.CompletedIffDefinite` | conformance/history_test.go:152-247 | For every reply, honest or not: a call completes exactly if the RPC gave one result at index 0 that is a definite answer for its kind, listed by status, failure and document, and it records the result that this answer names |
| `HistoryDriver.StepKeeps` | conformance/history_test.go:79-92 | Each step of a client (stamp start, take effect, stamp end) keeps the invariant: the order of effects explains all recorded results and respects the stamps |
| `HistoryDriver.RunKeeps` | conformance/history_test.go:79-92 | The invariant holds after every run |
| `HistoryDriver.FinishedIsLinearizable` | conformance/history_test.go:73-104 | When all ten calls are finished the order of effects is a linearization of a well-formed history |
| `HistoryDriver.EveryRunAccepted` | conformance/history_test.go:57-110 | Every complete run of three clients with three calls each and a final read is accepted by the checker |
| `HistoryDriver.CheckRun` | conformance/history_test.go:107-110 | Checking the history of a complete run accepts it |
| `HistoryDriver.CompleteRunsExist` | conformance/history_test.go:57-110 | Every choice of kinds and inputs has a complete run, so the statements about complete runs are not empty |
| `HistoryDriver.ClientsTakeTurns` | conformance/history_test.go:76-104 | In every recorded history the calls of one client do not overlap and the final read follows all others |
| `HistoryDriver.TenEntriesFit` | conformance/history_test.go:61-72 | Nine inputs of at most 5 and a final read give at most 2^10 * 47 states, below the budget |
| `PerfWorker.Worker.Request` | tools/sink-perf/main.go:650-679 | Every operation carries one more than the acknowledged count of its key, so a retry repeats its number |
| `PerfWorker.OpenUnlessRefused` | tools/sink-perf/main.go:731-739 | A write that was not acknowledged counts as open unless it was refused by status precondition failed or by one of four codes |
| `PerfWorker.SettledByAnswer` | tools/sink-perf/main.go:696-717 | An acknowledgement adds one and settles the key, a final refusal changes nothing, and any other answer makes or leaves it pending |
| `PerfWorker.Worker.BookItem` | tools/sink-perf/main.go:696-727 | One operation of a reply: the new count and pending flag by status and code, and whether it was a success |
| `PerfWorker.Worker.Book` | tools/sink-perf/main.go:680-729 | The accounting of every key after a reply: acknowledged, possibly committed, definitely rejected, or untouched; success exactly when every operation was applied and, if documents were asked for, returned its own write |
| `PerfProtocol.StepKeeps` | tools/sink-perf/main.go:629-739 | Issuing an RPC, a delivery at any time and any number of times, and any honest reply each keep the accounting invariant |
| `PerfProtocol.RunKeeps` | tools/sink-perf/main.go:503-729 | In every reachable state of any number of workers, sharing keys or not, each persisted sequence is the acknowledged count, or one more while that is pending or in flight, and each value is the sum of its sequences |
| `PerfProtocol.DeliverStepSize` | tools/sink-perf/main.go:144-151 | A delivery raises the persisted sequence of its writer by at most one |
| `PerfProtocol.DeliverConserved` | tools/sink-perf/main.go:144-151 | A delivery changes the value by exactly as much as the sum of the sequences |
| `PerfProtocol.DeliverAccounted` | tools/sink-perf/main.go:144-151 | A late or repeated delivery leaves every account consistent with its record |
| `PerfProtocol.RespondAccounted` | tools/sink-perf/main.go:680-727 | A reply, a lost reply and a definite rejection leave every account consistent with its record |
| `PerfVerify.CheckRecord` | tools/sink-perf/main.go:784-806 | A record passes if and only if every writer's persisted sequence fits its account and the value is their sum; the extra count is the number of applied but unacknowledged writes |
| `PerfVerify.ReconcilesIff` | tools/sink-perf/main.go:784-806 | A record reconciles exactly if every owner's persisted sequence is at least its acknowledged count and at most one more, that one only while pending, the value is their sum and the payload is as sent |
| `PerfVerify.CheckBatch` | tools/sink-perf/main.go:771-807 | A batch passes only if every result is a found record that reconciles, and fails only because of one that does not |
| `PerfVerify.FindLimit` | tools/sink-perf/main.go:755-758 | A reply calls for a smaller batch exactly if the RPC or one of its results says resource exhausted |
| `PerfVerify.Verify` | tools/sink-perf/main.go:741-811 | Ends for every pattern of resource-exhausted replies; accepts only after every record was delivered at its own position and reconciles, each accounted once; `reconciled` is the number of unacknowledged but applied writes; a service without fault is always accepted; the first batch is the largest within 128 records and the byte budget, and batches are halved and asked again exactly when too large, otherwise followed by the next records |
| `PerfReconciliation.IdleReconciles` | tools/sink-perf/main.go:784-806 | Once no RPC is in flight every record of every reachable state reconciles |
| `PerfReconciliation.LateDeliveriesKeepAccounts` | tools/sink-perf/main.go:294-400 | Deliveries after the workers are done do not change the accounts |
| `PerfReconciliation.NoFalseAlarm` | tools/sink-perf/main.go:741-811 | Whatever was lost, repeated or late, and whenever each record is read afterwards, reconciliation meets only healthy replies, so it accepts |
| `PerfReconciliation.VerifyRun` | tools/sink-perf/main.go:741-811 | Reconciliation after any run of the protocol, with late deliveries and resource-exhausted replies, returns success and the number of applied but unacknowledged writes |
| `PerfReconciliation.LostWriteIsFound` | tools/sink-perf/main.go:793-801 | A record with less than was acknowledged, with more while nothing is pending, or with two more never reconciles |
| `PerfReconciliation.ConfigFromSettings` | tools/sink-perf/main.go:205-250 | Validated settings give a configuration in which every worker stays inside the records |
| `PerfSettings.Settings.Validate` | tools/sink-perf/main.go:205-250 | Accepts exactly the admissible settings and rounds the keys up to the least multiple of the concurrency that gives each worker a full batch of its own |
| `PerfSettings.RoundingUp` | tools/sink-perf/main.go:240-245 | The rounded number is a multiple, large enough, and no smaller one would do |
| `PerfSettings.OwnershipPartition` | tools/sink-perf/main.go:326-343 | Without hot keys the key lists partition the records, and the formulas of `execute`, `seed` and `verify` name the same owner |
| `PerfSettings.LocalGlobalInverse` | tools/sink-perf/main.go:786-789 | The local key that `verify` computes inverts the global key of `execute`, in both modes |
| `PerfSettings.GlobalInRange` | tools/sink-perf/main.go:336-343 | No worker reaches outside the records |
| `PerfSettings.SelectKeys` | tools/sink-perf/main.go:526-530 | RPC number t takes the keys (tB + i) mod n |
| `PerfSettings.BatchDistinct` | tools/sink-perf/main.go:526-529 | The keys of one RPC are distinct |
| `PerfSettings.FairShare` | tools/sink-perf/main.go:526-530 | After T RPCs of B operations every one of n keys was visited floor(TB/n) or ceil(TB/n) times |
| `StreamCollect.Collect` | tools/sink-perf/stream_collect.go:11-27 | Appends the frames in order and sorts only at the regular end of the stream; an error returns what had arrived |
| `StreamCollect.SortSorts` | tools/sink-perf/stream_collect.go:20 | The result is sorted by operation index and a permutation of what arrived |
| `StreamCollect.CollectedInOrder` | tools/sink-perf/stream_collect.go:17-26 | For a complete reply result i is the one for operation i, however it was framed and ordered |
| `StreamCollect.PositionalIff` | tools/sink-perf/stream_collect.go:20 | Whatever the sort does with ties, position i of the sorted results is operation i for every i if and only if each operation is answered exactly once |
| `StreamCollect.CollectedInOrderIff` | tools/sink-perf/stream_collect.go:17-26 | So the collected list is positional exactly for replies with one result per operation |
| `StreamCollect.FramingInvisible` | tools/sink-perf/stream_collect.go:17-26 | The same results in other frames give the same list |
| `PerfCollect.Receive` | tools/sink-perf/stream_collect.go:11-27 | What reconciliation gets is the collected results by position |
| `PerfCollect.AnswersArePositional` | tools/sink-perf/main.go:771-780 | If every operation is answered once under its own index, position i holds the answer to operation i |
| `PerfCollect.WireIsInvisible` | tools/sink-perf/main.go:741-811 | A network that answers so is a service that reconciliation accepts, whatever the framing and order |
| `PerfCollect.RepeatedIndexIsBooked` | tools/sink-perf/main.go:768-780 | An instance of the other case of `StreamCollect.CollectedInOrderIff`: a reply of the right length with a repeated index books one read item on two records |
| `PerfCollect.RepeatedIndexIsAcknowledged` | tools/sink-perf/main.go:688-716 | Another one: a write reply with a repeated index acknowledges an operation that was not answered, whatever its account |
| `PerfCollect.ReceiveWrites` | tools/sink-perf/stream_collect.go:29-46 | What the accounting gets for a write is the collected results by position, or an error |
| `PerfCollect.WireIsHonest` | tools/sink-perf/main.go:680-712 | If each operation is answered once and each result is honest about the operation it names, the positional reply is one that the protocol admits |
| `PerfCollect.SelectedKeysMayBeIssued` | tools/sink-perf/main.go:526-540 | The keys that a worker selects satisfy the distinctness that the protocol asks of an RPC |
| `Timeline.Recorder.Record` | tools/sink-perf/main.go:543-560 | One more RPC is counted in exactly one bucket of its second |
| `Timeline.TruncatesTowardZero` | tools/sink-perf/main.go:546 | The second of an RPC is rounded toward zero, also for times before the start |
| `Timeline.Merge` | tools/sink-perf/main.go:358-364 | Combined buckets count the RPCs of both sides |
| `Timeline.Combine` | tools/sink-perf/main.go:347-385 | The totals and the combined timeline count exactly the RPCs of all workers |
| `Timeline.Conservation` | tools/sink-perf/main.go:377-381 | Over any set of seconds the rows of the report add up to the RPCs that finished in them |
| `Timeline.TotalsConserved` | tools/sink-perf/main.go:347-381 | All rows together add up to all RPCs and all successes |
| `Quorum.WindowIsInside` | scripts/check-mongodb-quorum.py:13-15 | Every RPC in the outage window finished at least three seconds after the pause and before the resume |
| `Quorum.WindowCovers` | scripts/check-mongodb-quorum.py:13-15 | Every RPC that finished from four seconds after the pause until one second before the resume is in the window |
| `Quorum.AfterwardsIsLate` | scripts/check-mongodb-quorum.py:16 | Every RPC counted as recovery finished more than nine seconds after the resume |
| `Quorum.AfterwardsCovers` | scripts/check-mongodb-quorum.py:16 | Every RPC from ten seconds after the resume counts as recovery |
| `Quorum.MarginsAreSharp` | scripts/check-mongodb-quorum.py:13-15 | No margin of the window can be narrowed by a nanosecond |
| `Quorum.PassesIff` | scripts/check-mongodb-quorum.py:9-22 | The gate passes exactly when the run reconciled under enough load, the window is long enough, and the RPCs themselves show no success and some failure inside it and more than 100 successes after it |
| `Quorum.ComplaintIsFirst` | scripts/check-mongodb-quorum.py:17-22 | A failed gate names the first demand that the RPCs do not meet |
| `Quorum.PassMeans` | scripts/check-mongodb-quorum.py:9-22 | In times of the run: a pass implies an outage of at least eight seconds without any success from four seconds after the pause to one second before the resume, some rejection, and a recovery |
| `Quorum.OutagePasses` | scripts/check-mongodb-quorum.py:9-22 | Conversely an outage of nine seconds with these properties, and recovery from ten seconds after the resume, passes |
| `Dedup.AppendUnique` | internal/reference/helpers.go:9-22 | The loop with the seen map computes first-occurrence deduplication of current then incoming |
| `Dedup.UniquePicksFirsts` | internal/reference/helpers.go:9-22 | The result is an increasing selection of positions: exactly the first occurrence of every key, in order |
| `Dedup.UniqueKeys` | internal/reference/helpers.go:9-22 | Distinct keys, and the same keys as the input |
| `Dedup.UniqueAppends` | internal/reference/helpers.go:9-22 | On a deduplicated list only the missing incoming items are added, behind it |
| `Reference.UniqueStrings` | internal/reference/helpers.go:24-38 | The loop computes deduplication after dropping empty strings if asked to |
| `Reference.UniqueStringsElements` | internal/reference/helpers.go:24-38 | Each string once, and exactly the strings of the input that are kept |
| `CappedHistory.FixedIffKnows` | internal/reference/helpers.go:9-22 | A bounded list is a fixed point of a delivery exactly when it knows every incoming key |
| `CappedHistory.IdempotentIff` | internal/reference/helpers.go:9-45 | A second delivery is invisible exactly when the first pushed out no item with an incoming key: when replay at the cap is idempotent and when it is not |
| `CappedHistory.ReplayProgress` | internal/reference/helpers.go:9-45 | Each replay makes all incoming keys known or moves the last foreign item strictly forward: the measure of convergence |
| `CappedHistory.ConvergesIff` | internal/reference/helpers.go:9-45 | Replays of one history reach a fixed point if and only if it has at most `limit` distinct keys |
| `CappedHistory.ConvergesBy` | internal/reference/helpers.go:9-45 | They do so within `limit` replays from any bounded list |
| `CappedHistory.ConvergesFromAnywhere` | internal/reference/helpers.go:9-45 | and within one more from any list at all |
| `CappedHistory.ConvergesWithin` | internal/reference/helpers.go:9-45 | The position of the last foreign item bounds the number of replays |
| `CappedHistory.TooManyKeysNeverFixed` | internal/reference/helpers.go:9-45 | With more distinct keys than the cap no list is ever a fixed point |
| `CappedHistory.PrependIdempotent` | internal/reference/product.go:67-74 | Prepended and capped lists are replay-idempotent for every list and every history |
| `CappedHistoryBound.BoundAttained` | internal/reference/helpers.go:9-45 | For every cap there is a list that needs exactly `limit` replays |
| `Product.Product.MergeAt` | internal/reference/product.go:21-111 | Merging a list of products in place is folding the one-product merge |
| `Product.MergeProduct` | internal/reference/product.go:9-19 | Merges the stored product into an empty one, then the incoming one, and clears the eviction |
| `Product.MergedIsSound` | internal/reference/product.go:9-111 | One merge: identifiers are exactly the non-empty ones of both sides, each once and with the current one among them; lists unique by key and within 20, 20, 20 and 50; not evicted |
| `Product.MergedLists` | internal/reference/product.go:44-74 | The histories are the last 20 of the stored items followed by the incoming ones, the offers the last 50 of the incoming ones followed by the stored ones, with the first item of every key |
| `Product.OffersKept` | internal/reference/product.go:67-74 | With at most 50 distinct offers none of either side is lost, and an incoming offer replaces the stored one |
| `Product.MergedIdentity` | internal/reference/product.go:23-29 | The current identifier is the incoming one if there is one, and identifiers are listed in the order of first mention, stored before incoming |
| `Product.MergedFirstFound` | internal/reference/product.go:85-91 | The first-found time is that of the stored product if there is one, otherwise the incoming one, or the time of the merge where that side has none; so an incoming time never fills in for a stored product without one |
| `Product.IdsAreSeen` | internal/reference/product.go:23-29 | After any deliveries the identifiers are exactly the non-empty ones ever seen |
| `Product.CurrentUIDIsLast` | internal/reference/product.go:23-27 | After any deliveries the current identifier is the last non-empty one, or the stored one |
| `Product.EverySequenceSound` | internal/reference/product.go:9-111 | The same guarantees after every non-empty sequence of deliveries from every start |
| `Product.MergedSet` | internal/reference/product.go:76-81 | Countries and languages of a merge are exactly those of both sides |
| `Product.SetsAreSeen` | internal/reference/product.go:76-106 | After any deliveries each of the four string lists holds exactly what was ever seen for it |
| `Product.FirstFoundNeverChanges` | internal/reference/product.go:83-91 | The first-found time is fixed by the first merge |
| `Product.OffersSettleAtOnce` | internal/reference/product.go:67-74 | From the second delivery on, replays of one product leave its offers unchanged, whatever their number |
| `Reference.StoredSettlesIff` | internal/reference/product.go:9-62 | Deliveries of one history onto any stored list, which is first merged into an empty one, change nothing from delivery `limit` on if and only if the history has at most `limit` distinct keys |
| `Reference.StoredNeverSettles` | internal/reference/product.go:9-62 | With more keys every single delivery changes the list |
| `Reference.IncomingWins` | internal/reference/product.go:67-74 | With room for all keys a prepending merge loses no key of either side and takes shared ones from the incoming list |
| `Product.ReplayConverges` | internal/reference/product.go:44-74 | After 20 deliveries of one product, the next one changes none of its lists if and only if each incoming history has at most 20 distinct keys |
| `Product.TooManyKeysNeverSettle` | internal/reference/product.go:44-62 | A history with more than 20 distinct incoming keys is changed by every delivery, the first included |
| `Offer.MergeOffer` | internal/reference/offer.go:8-18 | Merges the stored offer into an empty one, then the incoming one, and clears the eviction |
| `Offer.Offer.MergeIncoming` | internal/reference/offer.go:20-75 | The in-place merge of one incoming offer: identifiers, addresses capped at 10, uncapped contacts, stamps |
| `Offer.MergedIsSound` | internal/reference/offer.go:8-75 | One merge: identifiers are exactly those of both lists and contact keys exactly those of both sides, unique lists within their limits, a known first-found time kept, the eviction cleared |
| `Offer.MergedLists` | internal/reference/offer.go:22-43 | Identifiers, contacts and the last 10 addresses are the stored items followed by the incoming ones, with the first item of every key |
| `Offer.MergedIdentity` | internal/reference/offer.go:22-67 | The current identifier and the first-found time of a merge, as for products |
| `Offer.KeysShared` | internal/reference/offer.go:34-42 | Exactly when two addresses or two contacts have the same key, because their parts are joined without a separator |
| `Offer.EverySequenceSound` | internal/reference/offer.go:8-75 | After every sequence of merges the lists are unique and within their limits, the eviction is cleared, and the first-found time never changes after the first |
| `Offer.UIDsAreSeen` | internal/reference/offer.go:23-25 | After any deliveries the identifiers are exactly the strings of all identifier lists ever seen |
| `Offer.ContactsAreSeen` | internal/reference/offer.go:39-43 | After any deliveries the contacts are exactly, by key, those ever seen |
| `Offer.CurrentUIDIsLast` | internal/reference/offer.go:22 | The current identifier is the last non-empty incoming one, or else the stored one |
| `Offer.CurrentUIDListedIff` | internal/reference/offer.go:22-25 | The current identifier is in the list exactly when some list seen contained the last non-empty identifier delivered or stored |
| `Offer.CurrentUIDMayBeMissing` | internal/reference/offer.go:22-25 | An offer with an identifier and no list keeps an empty list, and an empty string in a list is kept |
| `Offer.MergedAddresses` | internal/reference/offer.go:33-38 | The addresses of a merge into a tidy offer are the capped appended history |
| `Offer.AddressesSettleIff` | internal/reference/offer.go:33-38 | After 10 deliveries of one offer, the next one leaves its addresses alone if and only if it has at most 10 distinct address keys |
| `Offer.TooManyAddressesNeverSettle` | internal/reference/offer.go:33-38 | With more of them every delivery changes the addresses, the first included |
| `OfferTracking.Offer.MergeTrackingIDs` | internal/reference/offer.go:77-97 | Each of the thirteen lists grows by the incoming identifiers; an absent record stays absent until one arrives |
| `OfferTracking.MergeTrackingField` | internal/reference/offer.go:99-104 | The result holds exactly the identifiers of both lists; an empty incoming list changes nothing; a list without duplicates keeps its order and its start and stays without duplicates, and any non-empty merge removes them |
| `OfferTracking.FieldsAreSeen` | internal/reference/offer.go:77-104 | After any deliveries each field holds exactly the identifiers ever seen for it, each once |
| `LuaTable.LengthRecognisesSequences` | internal/luatest/json_bridge.go:195 | With the assumed length the comparison with the number of entries recognises exactly the tables with keys 1 to n |
| `LuaTable.BorderSufficesIff` | internal/luatest/json_bridge.go:195 | Comparing the number of entries with any border recognises the sequences exactly for tables that are sequences or whose number of entries is not a border |
| `LuaTable.BorderIsNotEnough` | internal/luatest/json_bridge.go:195 | Keys 2, 3 and 5 are a table where it fails |
| `LuaTable.LengthIsBorder` | internal/luatest/json_bridge.go:195 | The assumed length is one of the borders the language allows |
| `LuaBridge.InspectLuaTable` | internal/luatest/json_bridge.go:169-188 | Counts the entries and says whether all keys are positive integers |
| `LuaBridge.LuaToGo` | internal/luatest/json_bridge.go:114-147 | Ends on every finite heap, restores `active` on every exit, returns the unfolding if there is one and fails only if there is none; every error names a walk from the outermost value to the place that shows that very problem |
| `LuaBridge.LuaTableToGo` | internal/luatest/json_bridge.go:149-167 | The same for one table, by its tag or else by its keys |
| `LuaBridge.LuaArrayToGo` | internal/luatest/json_bridge.go:190-207 | The same for arrays: keys must be exactly 1 to n |
| `LuaBridge.LuaObjectToGo` | internal/luatest/json_bridge.go:209-231 | The same for objects: all keys must be strings |
| `LuaBridge.ItemToGo` | internal/luatest/json_bridge.go:199-205 | One item of an array: its conversion, or a reason why the whole table stands for nothing |
| `LuaBridge.FieldToGo` | internal/luatest/json_bridge.go:220-228 | One entry of an object: its conversion, or a reason why the whole table stands for nothing |
| `LuaGraph.TrailCycle` | internal/luatest/json_bridge.go:138-140 | A table that is already being converted is where a walk from the outermost value comes back to |
| `LuaGraph.ItemFails` | internal/luatest/json_bridge.go:199-205 | An item that stands for nothing makes its array stand for nothing |
| `LuaGraph.FieldFails` | internal/luatest/json_bridge.go:218-226 | So does a field for its object, and a key that is not a string |
| `LuaBridge.Convert` | internal/luatest/json_bridge.go:114-231 | Succeeds exactly when everything that can be reached is sound on its own (finite, not virtual, keys fitting the shape) and no walk returns to where it was; the result is the only value denoted, and every error has its place and reason |
| `LuaGraph.DenotesIffSound` | internal/luatest/json_bridge.go:114-231 | A value stands for a JSON value exactly when the graph it reaches is sound and acyclic |
| `LuaGraph.Unfold` | internal/luatest/json_bridge.go:114-231 | From a sound and acyclic graph the unfolding can be built, table by table |
| `LuaGraph.DenotedIsSound` | internal/luatest/json_bridge.go:114-231 | Whatever is denoted reaches only sound values and no cycle |
| `LuaBridge.NewBridge` | internal/luatest/json_bridge.go:21-29 | The three metatables are distinct and the null table carries the null tag |
| `LuaJson.DenotesOne` | internal/luatest/json_bridge.go:114-231 | A Lua value stands for at most one JSON value |
| `LuaJson.TableDenotesIff` | internal/luatest/json_bridge.go:149-167 | What a table stands for by its tag; without a tag it is an array exactly if it has entries and only positive integer keys, and an object otherwise |
| `LuaJson.ScalarsDenote` | internal/luatest/json_bridge.go:114-136 | What every value that is not a table stands for, if anything |
| `LuaJson.OrderIsIrrelevant` | internal/luatest/json_bridge.go:209-231 | The order in which a table iterates its entries does not show in the result |
| `LuaJson.CyclesNeverDenote` | internal/luatest/json_bridge.go:138-140 | A value from which a walk can return to an earlier place stands for nothing, so conversion succeeds only without cycles |
| `LuaJson.WalkDenotes` | internal/luatest/json_bridge.go:138-143 | Every place that a walk reaches stands for a part of the whole, and a longer walk for a smaller part |
| `LuaJson.EmptyContainers` | internal/luatest/json_bridge.go:149-167 | An empty table is an array or an object by its tag alone, and the null tag is an error |
| `LuaJson.SharedItemsRepeat` | internal/luatest/json_bridge.go:138-143 | A shared table is unfolded at every place it occurs, to the same value |
| `LuaRoundTrip.GoToLua` | internal/luatest/json_bridge.go:63-112 | Succeeds exactly on convertible values, allocates only new tables, and its result stands for the normalised value |
| `LuaRoundTrip.ArrayToLua` | internal/luatest/json_bridge.go:81-91 | Array items land under the keys 1 to n of a table with the array tag |
| `LuaRoundTrip.ObjectToLua` | internal/luatest/json_bridge.go:92-108 | Fields land under their names in a table with the object tag |
| `LuaRoundTrip.DenotesGrows` | internal/luatest/json_bridge.go:63-112 | Tables allocated later do not change what earlier values stand for |
| `LuaRoundTrip.RoundTrip` | internal/luatest/json_bridge.go:63-231 | Converting to Lua and back gives the value with its numbers normalised, for every convertible value |
| `LuaRoundTrip.NumbersConvert` | internal/luatest/json_bridge.go:71-80 | A number is accepted exactly if it is a 64-bit integer or reads as a finite float, and what becomes of it |
| `LuaRoundTrip.ShapeKept` | internal/luatest/json_bridge.go:63-231 | Nulls stay in place inside arrays and objects, and containers keep kind and size |
| `LuaRoundTrip.UnchangedIff` | internal/luatest/json_bridge.go:71-80 | A round trip is the identity exactly when every number is a canonical 64-bit integer literal |
| `LuaRoundTrip.SecondTripIff` | internal/luatest/json_bridge.go:109-131 | A result can be converted again exactly when the input held no floats, since `goToLua` refuses the floats that `luaToGo` returns |
| `LuaRoundTrip.SecondTripIsIdle` | internal/luatest/json_bridge.go:71-80 | and then the second trip changes nothing |
| `Decimal.FormatParses` | internal/luatest/json_bridge.go:71-75 | The text written for a 64-bit integer is read back as that integer |
| `Decimal.ParseIff` | internal/luatest/json_bridge.go:72 | A text is read as an integer exactly if it is digits with an optional sign and the number fits 64 bits |
| `Decimal.FormatIsCanonical` | internal/luatest/json_bridge.go:123 | Written integers have no plus sign and no leading or negative zero |
| `StateCheck.RunSequence` | internal/statecheck/model.go:90-180 | Passes exactly when the service answers every planned call as a sequential server would, and never makes a call outside the plan |
| `StateCheck.Flush` | internal/statecheck/model.go:104-131 | Submits what is pending in one RPC, then checks the state; passes exactly if both replies are right |
| `StateCheck.CheckWrites` | internal/statecheck/model.go:115-127 | The comparison with the expectations accepts exactly the right results: index, status, and failure code without retry |
| `StateCheck.CompareDeletes` | internal/statecheck/model.go:141-148 | Accepts exactly two applied deletes without failure, in order |
| `StateCheck.CompareReads` | internal/statecheck/model.go:236-258 | Accepts exactly the reads that show the model's state for the four keys |
| `StateCheck.Expect` | internal/statecheck/model.go:155-172 | The expectation computed ahead of the flush is the outcome a sequential server has in that state, and so is the model's next state |
| `StateCheck.AheadSnoc` | internal/statecheck/model.go:155-175 | One more pending write keeps the model exactly as far ahead of the service as the pending writes |
| `StateCheckPlan.PlanActions` | internal/statecheck/model.go:132-179 | For every batch size each write is submitted once and each delete twice, in the order of the steps, with none left over |
| `StateCheckPlan.StepMeans` | internal/statecheck/model.go:132-179 | The operation that each kind of step submits |
| `StateCheckPlan.PutMeans` | internal/statecheck/model.go:159-162 | A put in each mode: its answer and what it leaves |
| `StateCheckPlan.MergeMeans` | internal/statecheck/model.go:44-55 | The add program adds to the counter or to nothing and keeps the label, the invalid one is refused and leaves no trace |
| `StateCheckPlan.MergesAddUp` | internal/statecheck/model.go:44-49 | Any number of merges in a row leaves the sum, wrapped once to 64 bits, and nothing else changed |
| `StateCheckPlan.PlanDisciplined` | internal/statecheck/model.go:104-153 | Every batch has between 1 and BatchSize operations, and every write or delete RPC is followed at once by a read of all keys |
| `StateCheckPlan.BatchingInvisible` | internal/statecheck/model.go:132-179 | For every batch size each write has the outcome it has one at a time, and so has the final state |
| `StateCheckPlan.SequentialPasses` | internal/statecheck/model.go:90-180 | A correct sequential server is right about every call, so it passes with every batch size |
| `StateCheckPlan.CheckSeesEverything` | internal/statecheck/model.go:228-258 | The four reads of a state check tell any two states of the three keys apart |
| `SoakStore.LastDecides` | integration/soak_integration_test.go:31-39 | In a log of creates, then merges, then deletes, each any number of times, the last entry alone decides the document, with counter 1 after any number of merges |
| `SoakStore.RepeatedMergeOnlyStamps` | integration/soak_integration_test.go:31-39 | A merge delivered again changes the time stamp and nothing else |
| `SoakStore.FirstMergeCounts` | integration/soak_integration_test.go:31-39 | The first merge adds one, records its operation and keeps the value |
| `SoakStore.MatchingIsAgreeing` | integration/soak_integration_test.go:594-604 | Two documents match the same expectation exactly if they agree on value, counter and operation; a found document never matches an absence |
| `SoakStore.MergeFindsDocument` | integration/soak_integration_test.go:31-39 | The merge program never runs without a document in such a log |
| `SoakStore.LateCreateIsUnexpected` | integration/soak_integration_test.go:515-517 | Without the order of issue a delayed create makes the delete phase see an unexpected document |
| `SoakStore.StaleReadIsUnexpected` | integration/soak_integration_test.go:548-550 | So does a read older than an earlier read |
| `Soak.ReadsMatch` | integration/soak_integration_test.go:594-604 | Whatever prefix of the log a phase reads, it matches exactly one of desired and previous, and desired exactly when the mutation took effect |
| `Soak.Look` | integration/soak_integration_test.go:501-517 | Every read of a phase matches one of the two expectations |
| `Soak.WaitForState` | integration/soak_integration_test.go:534-560 | Returns success exactly with the first read that shows the desired document, and otherwise only because the context is done; never reports an unexpected document |
| `Soak.Glance` | integration/soak_integration_test.go:501-523 | One read of the observation is told apart exactly: desired, previous, retryable error or fatal error |
| `Soak.ObserveMutation` | integration/soak_integration_test.go:486-532 | Resolved exactly by the first read that shows the desired document; given up only after a read of the previous one, rejected exactly by a read error that is not retryable, and otherwise ended by the context |
| `Soak.TryOnce` | integration/soak_integration_test.go:342-373 | Every reply is judged by its fields: success exactly for one result with the wanted status and no failure, ambiguous exactly for one retryable failure or one of four RPC errors before cancellation, aborted for RPC errors after it, refused otherwise |
| `Soak.Round` | integration/soak_integration_test.go:341-388 | One turn of the retry loop: what each judgement leads to, and what is counted |
| `Soak.Reconcile` | integration/soak_integration_test.go:338-442 | The retry loop: only ambiguous attempts are repeated; success only with the effect seen, after a wanted result or an ambiguous attempt; a definite refusal is the end; as many attempts as counted retries plus one, and one reconciled transient exactly if a success came after something ambiguous; no unexpected document |
| `Soak.SettledMergeCountsOnce` | integration/soak_integration_test.go:296-316 | After a completed merge phase every later prefix shows counter 1, however often the merge was delivered |
| `Soak.RunCycle` | integration/soak_integration_test.go:227-336 | Creates, merges and deletes in this order; a completed cycle had, in every phase, the status that its mode asks for or an ambiguous attempt resolved by a read, and has seen the delete; no drops, repeats, delays and retries make it report an unexpected document |
| `TestEvents.Check` | internal/testevents/events.go:19-74 | The streaming check accepts a trace if and only if it meets the declarative specification, and any reported reason is true of the trace |
| `TestEvents.FailuresAreRejected` | internal/testevents/events.go:43-44 | A trace with a skip, fail or build-fail event, or one that cannot be decoded, is never acceptable |
| `TestEvents.OtherEventsAreNeutral` | internal/testevents/events.go:38-54 | Events of any other kind change nothing at the end of a trace |
| `TestEvents.Conclude` | internal/testevents/events.go:55-73 | The checks after the stream, from the three maps alone |
| `TestEvents.FindOpen` | internal/testevents/events.go:58-67 | The loop over a map finds an incomplete name if and only if there is one |
| `TestEvents.TestsStep` | internal/testevents/events.go:41-53 | One event keeps the map of started tests in step with "ran" and "every run is followed by a pass" |
| `TestEvents.PackagesStep` | internal/testevents/events.go:39-47 | The same for packages |
| `TestEvents.TestClosedSnoc` | internal/testevents/events.go:41-53 | The last of run and pass decides whether a key is closed |
| `TestEvents.SharedKeys` | internal/testevents/events.go:37 | Two events have equal keys exactly when they name the same test, or when one package is below the other and the shorter one's test name spells out the difference |
| `TestEvents.DistinctKeysAreHonest` | internal/testevents/events.go:37-67 | If no two tests share a key, then in every accepted trace each pass follows a run of the same package and test, and each run is followed by its own pass |
| `TestEvents.NamesakeAccepted` | internal/testevents/events.go:37-53 | For any two tests with one key, the gate accepts a trace in which one of them passes although it never ran |
| `TestEvents.GateHonestIff` | internal/testevents/events.go:19-74 | The gate vouches for the tests themselves, in all traces, exactly when no two tests share a key |
| `TestEvents.SubtestAndSubpackage` | internal/testevents/events.go:37 | A subtest and a test of a package below are such a pair |

## Left out

- gRPC, HTTP, Docker, process control, flags, clocks and report formatting; time stamps, replies and deliveries are inputs or steps of the models.
- The store itself, its gateways and adapters: only the oracles are modelled, against any store that keeps the stated rules.
- HistorySearch.Search.Visit: the loop of the closure is the separate method `Expand`; the log messages and `historyOverlaps` are not modelled.
- Masks.Full: words are natural numbers with bitwise and/or written out digit by digit; with at most 24 entries no 64-bit overflow can occur, so wrap-around of words is not modelled.
- PerfWorker.Worker.Book: error and latency statistics and the 64-bit wrap of counters are not modelled; padding and extra fields of a document are one payload, in a returned document one truth value.
- PerfProtocol.RunKeeps: covers the merge workloads; a late upsert overwrites and is not idempotent, so the statement does not hold for the upsert workload.
- PerfVerify.Verify: replies are positional, as the code takes them; `PerfCollect` says when the wire delivers such replies. The service is any function of attempt, position and size; call deadlines are one of its error replies.
- PerfSettings.Settings.Validate: limits on other fields than keys, batch and concurrency are one given truth value.
- Timeline.Recorder.Record: only finish time and success of an RPC are kept; percentiles and rates are left out.
- Timeline.Merge: the order of the report's rows is left open; no statement depends on it.
- Quorum.PassesIff: arithmetic is exact; the rounding of the Python script's floating-point division is not modelled.
- StreamCollect.SortSorts: the library sort is modelled as an insertion sort; it is stable where the Go code's sort need not be, which shows only for repeated operation indices; `PositionalIff` holds for every sort.
- Product.Product.MergeAt: fields that are simply replaced by the incoming ones are left out; digests and formatted dates are abstract keys.
- Offer.Offer.MergeIncoming: fields that are simply replaced are left out; the tracking identifiers are a module of their own, since no other field touches them.
- OfferTracking.Offer.MergeTrackingIDs: the thirteen fields are one list of lists, merged in a loop where the Go code has thirteen calls.
- LuaBridge.LuaToGo: the virtual machine is reduced to tables with unique keys in an iteration order, and its integers are not bounded; an error from stepping through an unmodified table cannot occur and has no branch.
- LuaRoundTrip.ObjectToLua: keys are inserted in an arbitrary order, not sorted; the result does not depend on it.
- LuaRoundTrip.GoToLua: reading a float from a literal is an arbitrary function; rounding is not modelled.
- StateCheck.RunSequence: encodings and decoding are abstract (a label is empty or a number); a document that cannot be decoded counts as a mismatch; deadlines are error replies; the random choice of steps is left out, the result holds for all.
- Soak.Reconcile: safety only; contexts end after an arbitrary finite number of polls and timers fire at arbitrary moments. The write and delete loops, which are alike, are one method.
- SoakStore.LastDecides: relies on attempts entering a key's log in the order of issue and on reads never going back; the two lemmas on late creates and stale reads show what happens otherwise.
- TestEvents.Check: decoding is given; an undecodable item stands for any decoder error but the end of the stream.
