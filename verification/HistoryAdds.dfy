/** The exact verdict for concurrent increments followed by one read. */
module HistoryAdds {
  import opened Sets
  import opened Int64
  import opened History
  import opened HistoryPaths
  import opened HistorySearch
  import opened HistoryCheck
  import opened Masks

  /** Applied and conflicting increments in any overlap, then a read that starts
      after all of them ended. */
  ghost predicate AddsThenRead(history: seq<Entry>) {
    && |history| > 0
    && (forall i :: 0 <= i < |history| - 1 ==>
          && history[i].kind == Add
          && (history[i].result == APPLIED || history[i].result == CONFLICTED)
          && history[i].end < history[|history| - 1].start)
    && history[|history| - 1].kind == Read
  }

  predicate Counts(entry: Entry) {
    !entry.result.conflict
  }

  /** The inputs of the applied increments among the first `n` entries that are in `s`. */
  ghost function Sum(history: seq<Entry>, s: set<nat>, n: nat): int
    requires n <= |history|
  {
    if n == 0 then 0
    else Sum(history, s, n - 1) + (if n - 1 in s && Counts(history[n - 1]) then history[n - 1].input else 0)
  }

  ghost predicate Some(history: seq<Entry>, s: set<nat>) {
    exists i :: 0 <= i < |history| - 1 && i in s && Counts(history[i])
  }

  /** The document after the increments of `s`. */
  ghost function Counter(initial: State, history: seq<Entry>, s: set<nat>): State
    requires |history| > 0
  {
    State(initial.found || Some(history, s), Wrap(initial.counter + Sum(history, s, |history| - 1)))
  }

  /** What the read has to show: the initial counter plus every applied input. */
  ghost function Expected(initial: State, history: seq<Entry>): State
    requires |history| > 0
  {
    Counter(initial, history, Below(|history| - 1))
  }

  ghost predicate ReadShows(initial: State, history: seq<Entry>)
    requires |history| > 0
  {
    history[|history| - 1].result == Result(false, false, Expected(initial, history))
  }

  lemma {:induction false} SumInsert(history: seq<Entry>, s: set<nat>, i: nat, n: nat)
    requires n <= |history| && i !in s && i < |history|
    ensures Sum(history, s + {i}, n) == Sum(history, s, n) + (if i < n && Counts(history[i]) then history[i].input else 0)
  {
    if n > 0 {
      SumInsert(history, s, i, n - 1);
    }
  }

  lemma {:induction false} SumEmpty(history: seq<Entry>, n: nat)
    requires n <= |history|
    ensures Sum(history, {}, n) == 0
  {
    if n > 0 {
      SumEmpty(history, n - 1);
    }
  }

  lemma {:induction false} SumAgrees(history: seq<Entry>, s: set<nat>, t: set<nat>, n: nat)
    requires n <= |history| && forall i :: 0 <= i < n ==> (i in s <==> i in t)
    ensures Sum(history, s, n) == Sum(history, t, n)
  {
    if n > 0 {
      SumAgrees(history, s, t, n - 1);
    }
  }

  /** Before the read the document depends only on which increments were visited. */
  ghost predicate Tracks(initial: State, history: seq<Entry>, node: Node)
    requires |history| > 0
  {
    && node.visited <= Below(|history|)
    && (|history| - 1 !in node.visited ==> node.value == Counter(initial, history, node.visited))
    && (|history| - 1 in node.visited ==> node.visited == Below(|history|))
  }

  lemma CounterInsert(initial: State, history: seq<Entry>, s: set<nat>, i: nat)
    requires i < |history| - 1 && i !in s && Counts(history[i])
    ensures Counter(initial, history, s + {i}) == State(true, Wrap(Counter(initial, history, s).counter + history[i].input))
  {
    SumInsert(history, s, i, |history| - 1);
    WrapAdd(initial.counter + Sum(history, s, |history| - 1), history[i].input);
    assert i in s + {i};
  }

  lemma CounterSkip(initial: State, history: seq<Entry>, s: set<nat>, i: nat)
    requires i < |history| - 1 && i !in s && !Counts(history[i])
    ensures Counter(initial, history, s + {i}) == Counter(initial, history, s)
  {
    SumInsert(history, s, i, |history| - 1);
    assert forall j :: j in s + {i} <==> j in s || j == i;
  }

  lemma ReadIsLast(history: seq<Entry>, node: Node)
    requires AddsThenRead(history) && node.visited <= Below(|history|)
    requires Predecessors(history, |history| - 1) <= node.visited
    ensures Below(|history| - 1) <= node.visited
    ensures node.visited + {|history| - 1} == Below(|history|)
  {
    forall i | i in Below(|history| - 1)
      ensures i in node.visited
    {
      assert i in Predecessors(history, |history| - 1);
    }
  }

  lemma AddTracks(initial: State, history: seq<Entry>, s: set<nat>, i: nat)
    requires AddsThenRead(history) && i < |history| - 1 && i !in s
    ensures After(Counter(initial, history, s), history[i]) == Counter(initial, history, s + {i})
  {
    if Counts(history[i]) {
      CounterInsert(initial, history, s, i);
    } else {
      CounterSkip(initial, history, s, i);
    }
  }

  lemma TracksNext(initial: State, history: seq<Entry>, node: Node, i: nat)
    requires AddsThenRead(history) && Tracks(initial, history, node) && MayFollow(history, node, i)
    ensures Tracks(initial, history, Next(history, node, i))
  {
    if i == |history| - 1 {
      ReadIsLast(history, node);
    } else {
      AddTracks(initial, history, node.visited, i);
    }
  }

  lemma TracksRoot(initial: State, history: seq<Entry>)
    requires |history| > 0
    ensures Tracks(initial, history, Root(initial))
  {
    SumEmpty(history, |history| - 1);
  }

  lemma AllVisited(initial: State, history: seq<Entry>, node: Node)
    requires AddsThenRead(history) && Tracks(initial, history, node)
    requires |history| - 1 !in node.visited && Below(|history| - 1) <= node.visited
    ensures node.value == Expected(initial, history)
  {
    assert node.visited == Below(|history| - 1);
  }

  lemma {:induction false} FinishShows(initial: State, history: seq<Entry>, node: Node, path: seq<nat>)
    requires AddsThenRead(history) && Tracks(initial, history, node)
    requires |history| - 1 !in node.visited && Finishes(history, node, path)
    ensures ReadShows(initial, history)
    decreases |path|
  {
    assert |history| - 1 in Below(|history|);
    if path != [] {
      var i := path[0];
      if i == |history| - 1 {
        ReadIsLast(history, node);
        AllVisited(initial, history, node);
      } else {
        TracksNext(initial, history, node, i);
        FinishShows(initial, history, Next(history, node, i), path[1..]);
      }
    }
  }

  lemma {:induction false} EarliestEnd(history: seq<Entry>, s: set<nat>) returns (i: nat)
    requires s != {} && s <= Below(|history|)
    ensures i in s && forall j :: j in s ==> history[i].end <= history[j].end
  {
    i :| i in s;
    if s != {i} {
      var k := EarliestEnd(history, s - {i});
      if history[k].end < history[i].end {
        i := k;
      }
    }
  }

  lemma AddMatches(value: State, entry: Entry)
    requires entry.kind == Add && (entry.result == APPLIED || entry.result == CONFLICTED)
    ensures Matches(value, entry)
  {
  }

  lemma ReadMatches(initial: State, history: seq<Entry>, node: Node)
    requires AddsThenRead(history) && ReadShows(initial, history) && Tracks(initial, history, node)
    requires |history| - 1 !in node.visited && Predecessors(history, |history| - 1) <= node.visited
    ensures Matches(node.value, history[|history| - 1])
  {
    ReadIsLast(history, node);
    AllVisited(initial, history, node);
  }

  /** Whatever was visited, some increment may come next; and at the end the read may. */
  lemma SomeMayFollow(initial: State, history: seq<Entry>, node: Node)
    requires AddsThenRead(history) && Intervals(history) && ReadShows(initial, history)
    requires Tracks(initial, history, node) && node.visited != Below(|history|)
    ensures exists i: nat :: MayFollow(history, node, i)
  {
    var left := Below(|history|) - node.visited;
    assert left != {};
    var i := EarliestEnd(history, left);
    forall j | j in Predecessors(history, i)
      ensures j in node.visited
    {
      assert history[j].end < history[i].end;
      assert j in left || j in node.visited;
    }
    if i == |history| - 1 {
      ReadMatches(initial, history, node);
    } else {
      AddMatches(node.value, history[i]);
    }
    assert MayFollow(history, node, i);
  }

  lemma {:induction false} ReachableTracks(initial: State, history: seq<Entry>, path: seq<nat>, node: Node)
    requires AddsThenRead(history) && Leads(history, Root(initial), path, node)
    ensures Tracks(initial, history, node)
    decreases |path|
  {
    if path == [] {
      TracksRoot(initial, history);
    } else {
      var last := |path| - 1;
      var before :| Leads(history, Root(initial), path[..last], before)
        && MayFollow(history, before, path[last]) && node == Next(history, before, path[last]);
      ReachableTracks(initial, history, path[..last], before);
      TracksNext(initial, history, before, path[last]);
    }
  }

  /** Where no dead end can be met, going on in any way completes the ordering. */
  lemma {:induction false} SmoothFinishes(history: seq<Entry>, node: Node)
    requires NoDeadEnds(history, node) && node.visited <= Below(|history|)
    ensures CanFinish(history, node)
    decreases |Below(|history|) - node.visited|
  {
    if node.visited == Below(|history|) {
      CompleteIsLive(history, node);
    } else {
      SmoothHasNext(history, node);
      var i: nat :| MayFollow(history, node, i);
      SmoothNext(history, node, i);
      ProperSubsetSize(Below(|history|) - Next(history, node, i).visited, Below(|history|) - node.visited, i);
      SmoothFinishes(history, Next(history, node, i));
      FinishNext(history, node, i);
    }
  }

  /** An ordering exists exactly when the read shows the initial counter plus the
      sum of the applied inputs. */
  lemma AddsLinearizable(initial: State, history: seq<Entry>)
    requires AddsThenRead(history) && Intervals(history)
    ensures Linearizable(initial, history) <==> ReadShows(initial, history)
    ensures ReadShows(initial, history) ==> NoDeadEnds(history, Root(initial))
  {
    if ReadShows(initial, history) {
      forall to | Reachable(history, Root(initial), to) && to.visited != Below(|history|)
        ensures exists i: nat :: MayFollow(history, to, i)
      {
        var path :| Leads(history, Root(initial), path, to);
        ReachableTracks(initial, history, path, to);
        SomeMayFollow(initial, history, to);
      }
      SmoothFinishes(history, Root(initial));
      FinishIffLinearizable(initial, history);
    }
    if Linearizable(initial, history) {
      FinishIffLinearizable(initial, history);
      var path :| Finishes(history, Root(initial), path);
      TracksRoot(initial, history);
      FinishShows(initial, history, Root(initial), path);
    }
  }

  /** The checker accepts exactly the right reads, for every overlap pattern; in
      particular a correct read never runs into the budget. */
  lemma AddsVerdict(initial: State, history: seq<Entry>, verdict: Verdict)
    requires AddsThenRead(history) && Checkable(initial, history)
    requires Exact(initial, history, verdict)
    ensures verdict.Accepted? <==> ReadShows(initial, history)
  {
    AddsLinearizable(initial, history);
  }
}
