/** The entry point of the checker and what its verdicts mean. */
module HistoryCheck {
  import opened Int64
  import opened History
  import opened HistoryPaths
  import opened HistorySearch
  import opened Masks

  /** The first `n` entries pass validation. */
  ghost predicate SoundPrefix(history: seq<Entry>, n: nat)
    requires n <= |history|
  {
    && (forall i :: 0 <= i < n ==> WellFormedEntry(history[i]))
    && (forall i, j :: 0 <= i < j < n ==> history[i].id != history[j].id)
  }

  ghost predicate BadIdentityOrInterval(history: seq<Entry>, i: nat)
    requires i < |history|
  {
    || !(0 < history[i].start < history[i].end)
    || exists j :: 0 <= j < i && history[j].id == history[i].id
  }

  /** The search never meets a state in which calls are left but none matches. */
  ghost predicate NoDeadEnds(history: seq<Entry>, node: Node) {
    forall to :: Reachable(history, node, to) ==>
      to.visited == Below(|history|) || exists i: nat :: MayFollow(history, to, i)
  }

  ghost predicate AllReachable(history: seq<Entry>, from: Node, nodes: set<Node>) {
    forall node :: node in nodes ==> Reachable(history, from, node)
  }

  ghost predicate Checkable(initial: State, history: seq<Entry>) {
    1 <= |history| <= MAX_ENTRIES && WellFormed(initial, history)
  }

  lemma {:induction false} LeadsFrom(history: seq<Entry>, node: Node, i: nat, path: seq<nat>, to: Node)
    requires MayFollow(history, node, i)
    requires Leads(history, Next(history, node, i), path, to)
    ensures Leads(history, node, [i] + path, to)
    decreases |path|
  {
    if path == [] {
      assert [i] + path == [] + [i];
      LeadsOn(history, node, [], node, i);
    } else {
      var last := |path| - 1;
      var before :| Leads(history, Next(history, node, i), path[..last], before)
        && MayFollow(history, before, path[last]) && to == Next(history, before, path[last]);
      LeadsFrom(history, node, i, path[..last], before);
      LeadsOn(history, node, [i] + path[..last], before, path[last]);
      assert [i] + path == ([i] + path[..last]) + [path[last]];
    }
  }

  lemma SmoothNext(history: seq<Entry>, node: Node, i: nat)
    requires NoDeadEnds(history, node) && MayFollow(history, node, i)
    ensures NoDeadEnds(history, Next(history, node, i))
  {
    forall to | Reachable(history, Next(history, node, i), to)
      ensures Reachable(history, node, to)
    {
      var path :| Leads(history, Next(history, node, i), path, to);
      LeadsFrom(history, node, i, path, to);
    }
  }

  ghost function ReachableNodes(history: seq<Entry>, from: Node): iset<Node> {
    iset node | Reachable(history, from, node)
  }

  ghost function LiveNodes(history: seq<Entry>): iset<Node> {
    iset node | CanFinish(history, node)
  }

  ghost function SmoothNodes(history: seq<Entry>): iset<Node> {
    iset node | NoDeadEnds(history, node)
  }

  lemma CompleteIsLive(history: seq<Entry>, node: Node)
    requires node.visited == Below(|history|)
    ensures CanFinish(history, node)
  {
    assert Finishes(history, node, []);
  }

  lemma SmoothHasNext(history: seq<Entry>, node: Node)
    requires NoDeadEnds(history, node) && node.visited != Below(|history|)
    ensures exists i: nat :: MayFollow(history, node, i)
  {
    ReachableSelf(history, node);
  }

  lemma SearchLaws(history: seq<Entry>, root: Node)
    ensures Laws(history, ReachableNodes(history, root), LiveNodes(history), SmoothNodes(history))
  {
    var space, live, smooth := ReachableNodes(history, root), LiveNodes(history), SmoothNodes(history);
    forall node: Node, i: nat {:trigger Next(history, node, i)} | MayFollow(history, node, i)
      ensures node in space ==> Next(history, node, i) in space
      ensures Next(history, node, i) in live ==> node in live
      ensures node in smooth ==> Next(history, node, i) in smooth
    {
      if node in space {
        ReachableNext(history, root, node, i);
      }
      if Next(history, node, i) in live {
        FinishNext(history, node, i);
      }
      if node in smooth {
        SmoothNext(history, node, i);
      }
    }
    forall node: Node | node.visited == Below(|history|)
      ensures node in live
    {
      CompleteIsLive(history, node);
    }
    forall node: Node | node.visited != Below(|history|) && Stuck(history, live, node)
      ensures node !in live
    {
      FinishThroughSuccessor(history, node);
    }
    forall node: Node | node in smooth && node.visited != Below(|history|)
      ensures exists i: nat :: MayFollow(history, node, i)
    {
      SmoothHasNext(history, node);
    }
  }

  lemma {:induction false} DistinctViews(memo: set<SearchState>)
    ensures |set s | s in memo :: View(s)| == |memo|
  {
    if memo != {} {
      var s :| s in memo;
      DistinctViews(memo - {s});
      forall t | t in memo - {s}
        ensures View(t) != View(s)
      {
        if View(t) == View(s) {
          ViewInjective(t, s);
        }
      }
      assert (set t | t in memo :: View(t)) == (set t | t in memo - {s} :: View(t)) + {View(s)};
    }
  }

  lemma MaskStep(history: seq<Entry>, i: nat, mask: nat, j: nat)
    requires i < |history| && j < |history|
    requires Members(mask) == Predecessors(history, i) * Below(j)
    ensures history[j].end < history[i].start ==> Members(Or(mask, Bit(j))) == Predecessors(history, i) * Below(j + 1)
    ensures !(history[j].end < history[i].start) ==> Members(mask) == Predecessors(history, i) * Below(j + 1)
  {
    Insert(mask, j);
    PredecessorsStep(history, i, j);
  }

  lemma PredecessorsStep(history: seq<Entry>, i: nat, j: nat)
    requires i < |history| && j < |history|
    ensures Predecessors(history, i) * Below(j + 1) ==
            Predecessors(history, i) * Below(j) + (if history[j].end < history[i].start then {j} else {})
  {
    assert Below(j + 1) == Below(j) + {j};
  }

  /** Everything that ended before entry `i` started, as a word. */
  method PredecessorMask(history: seq<Entry>, i: nat) returns (mask: nat)
    requires i < |history|
    ensures Members(mask) == Predecessors(history, i)
  {
    mask := 0;
    EmptyMask();
    var j := 0;
    while j < |history|
      invariant 0 <= j <= |history|
      invariant Members(mask) == Predecessors(history, i) * Below(j)
    {
      MaskStep(history, i, mask, j);
      if history[j].end < history[i].start {
        mask := Or(mask, Bit(j));
      }
      j := j + 1;
    }
    assert Predecessors(history, i) * Below(|history|) == Predecessors(history, i);
  }

  ghost predicate Faulty(history: seq<Entry>, fault: Verdict) {
    || (fault.InvalidEntry? && fault.index < |history| && SoundPrefix(history, fault.index)
        && BadIdentityOrInterval(history, fault.index))
    || (fault.UnknownOperation? && fault.index < |history| && SoundPrefix(history, fault.index)
        && !BadIdentityOrInterval(history, fault.index) && history[fault.index].kind.Other?)
  }

  /** The loop that validates every entry and fills the predecessor masks.
      `NoOrdering` as a fault stands for none. */
  method Validate(history: seq<Entry>) returns (ok: bool, fault: Verdict, predecessors: seq<nat>)
    ensures ok ==> SoundPrefix(history, |history|) && |predecessors| == |history|
    ensures ok ==> forall j :: 0 <= j < |history| ==> Members(predecessors[j]) == Predecessors(history, j)
    ensures !ok ==> Faulty(history, fault)
  {
    var ids: set<int64> := {};
    ok, fault, predecessors := false, NoOrdering, [];
    var i := 0;
    while i < |history|
      invariant 0 <= i <= |history| && |predecessors| == i
      invariant SoundPrefix(history, i)
      invariant forall j :: 0 <= j < i ==> history[j].id in ids
      invariant forall id :: id in ids ==> exists j :: 0 <= j < i && history[j].id == id
      invariant forall j :: 0 <= j < i ==> Members(predecessors[j]) == Predecessors(history, j)
    {
      var entry := history[i];
      if entry.id in ids || entry.start <= 0 || entry.end <= entry.start {
        fault := InvalidEntry(i);
        return;
      }
      ids := ids + {entry.id};
      if entry.kind.Other? {
        fault := UnknownOperation(i);
        return;
      }
      var mask := PredecessorMask(history, i);
      predecessors := predecessors + [mask];
      i := i + 1;
    }
    ok := true;
  }

  lemma FaultyIsMalformed(initial: State, history: seq<Entry>, fault: Verdict)
    requires Faulty(history, fault)
    ensures !WellFormed(initial, history)
  {
    assert fault.index < |history|;
    if WellFormedEntry(history[fault.index]) {
      var j :| 0 <= j < fault.index && history[j].id == history[fault.index].id;
      assert !WellFormed(initial, history);
    }
  }

  /** Checks one completed history.
      `memo` is what the search remembered, `expansions` how many states it expanded
      and `expanded` which ones. */
  method Check(initial: State, history: seq<Entry>)
    returns (verdict: Verdict, ghost memo: set<SearchState>, ghost expanded: set<SearchState>, ghost expansions: nat)
    ensures Exact(initial, history, verdict)
    ensures verdict.BadLength? <==> |history| == 0 || |history| > 24
    ensures verdict.BadInitial? ==> !initial.found && initial.counter != 0
    ensures verdict.InvalidEntry? || verdict.UnknownOperation? ==> Faulty(history, verdict)
    ensures |expanded| == expansions
    ensures verdict.Searched() ==> |memo| <= 250000 + |history| - 1
    ensures verdict.BudgetExhausted? ==> |memo| >= 250000
  {
    memo, expanded, expansions := {}, {}, 0;
    if |history| == 0 || |history| > MAX_ENTRIES {
      return BadLength, memo, expanded, expansions;
    }
    if !initial.found && initial.counter != 0 {
      return BadInitial, memo, expanded, expansions;
    }
    var ok, fault, predecessors := Validate(history);
    if !ok {
      FaultyIsMalformed(initial, history, fault);
      return fault, memo, expanded, expansions;
    }
    verdict, memo, expanded, expansions := Run(initial, history, predecessors);
  }

  /** What a verdict says about a history. */
  ghost predicate Exact(initial: State, history: seq<Entry>, verdict: Verdict) {
    && (verdict.Searched() <==> Checkable(initial, history))
    && (verdict.Accepted? ==> Linearizable(initial, history))
    && (verdict.NoOrdering? ==> !Linearizable(initial, history))
    && (verdict.BudgetExhausted? ==> Crowded(history, initial))
    && (Checkable(initial, history) && NoDeadEnds(history, Root(initial)) ==> verdict.Accepted?)
  }

  /** More states can be reached than the budget allows to remember. */
  ghost predicate Crowded(history: seq<Entry>, initial: State) {
    exists nodes :: |nodes| >= BUDGET && AllReachable(history, Root(initial), nodes)
  }

  /** The search proper. */
  method Run(initial: State, history: seq<Entry>, predecessors: seq<nat>)
    returns (verdict: Verdict, ghost memo: set<SearchState>, ghost expanded: set<SearchState>, ghost expansions: nat)
    requires 0 < |history| == |predecessors| <= MAX_ENTRIES && Intervals(history)
    requires forall j :: 0 <= j < |history| ==> Members(predecessors[j]) == Predecessors(history, j)
    ensures verdict.Searched()
    ensures verdict.Accepted? ==> Linearizable(initial, history)
    ensures verdict.NoOrdering? ==> !Linearizable(initial, history)
    ensures verdict.BudgetExhausted? ==> Crowded(history, initial)
    ensures NoDeadEnds(history, Root(initial)) ==> verdict.Accepted?
    ensures |expanded| == expansions
    ensures |memo| <= BUDGET + |history| - 1
    ensures verdict.BudgetExhausted? ==> |memo| >= BUDGET
  {
    ghost var root := Root(initial);
    SearchLaws(history, root);
    FinishIffLinearizable(initial, history);
    ReachableSelf(history, root);
    EmptyMask();
    var search := new Search(history, predecessors, ReachableNodes(history, root), LiveNodes(history), SmoothNodes(history));
    var start := SearchState(0, initial);
    assert View(start) == root;
    var ok := search.Visit(start, {});
    memo, expanded, expansions := search.rejected, search.expanded, search.expansions;
    MemoBound(history, start, memo);
    if ok {
      verdict := Accepted;
    } else if search.exhausted {
      ManyReachable(history, initial, memo);
      verdict := BudgetExhausted;
    } else {
      verdict := NoOrdering;
    }
  }

  lemma ManyReachable(history: seq<Entry>, initial: State, memo: set<SearchState>)
    requires |memo| >= BUDGET
    requires forall s :: s in memo ==> View(s) in ReachableNodes(history, Root(initial))
    ensures Crowded(history, initial)
  {
    var nodes := set s | s in memo :: View(s);
    DistinctViews(memo);
    assert AllReachable(history, Root(initial), nodes);
  }

  lemma MemoBound(history: seq<Entry>, start: SearchState, memo: set<SearchState>)
    requires Members(start.visited) == {} && |history| > 0
    requires |memo| <= 0 || |memo| <= BUDGET - 1 + |Below(|history|) - Members(start.visited)|
    ensures |memo| <= BUDGET + |history| - 1
  {
    assert Below(|history|) - Members(start.visited) == Below(|history|);
  }
}
