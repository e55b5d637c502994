/** The search space of the checker, on sets of positions: which calls may come
    next, which states are reachable, and which can still be completed. */
module HistoryPaths {
  import opened Sets
  import opened History
  import opened Masks

  datatype Node = Node(visited: set<nat>, value: State)

  /** Everything that ended before entry `i` started. */
  ghost function Predecessors(history: seq<Entry>, i: nat): (s: set<nat>)
    requires i < |history|
  {
    set j | 0 <= j < |history| && history[j].end < history[i].start
  }

  ghost predicate MayFollow(history: seq<Entry>, node: Node, i: nat) {
    && i < |history|
    && i !in node.visited
    && Predecessors(history, i) <= node.visited
    && Matches(node.value, history[i])
  }

  ghost function Next(history: seq<Entry>, node: Node, i: nat): Node
    requires i < |history|
  {
    Node(node.visited + {i}, After(node.value, history[i]))
  }

  /** `path` extends `node` to a state that has visited every entry. */
  ghost predicate Finishes(history: seq<Entry>, node: Node, path: seq<nat>)
    decreases |path|
  {
    if path == [] then node.visited == Below(|history|)
    else MayFollow(history, node, path[0]) && Finishes(history, Next(history, node, path[0]), path[1..])
  }

  ghost predicate CanFinish(history: seq<Entry>, node: Node) {
    exists path :: Finishes(history, node, path)
  }

  /** `path` leads from `from` to `to`. */
  ghost predicate Leads(history: seq<Entry>, from: Node, path: seq<nat>, to: Node)
    decreases |path|
  {
    if path == [] then from == to
    else
      var last := |path| - 1;
      exists before ::
        && Leads(history, from, path[..last], before)
        && MayFollow(history, before, path[last])
        && to == Next(history, before, path[last])
  }

  ghost predicate Reachable(history: seq<Entry>, from: Node, to: Node) {
    exists path :: Leads(history, from, path, to)
  }

  lemma ReachableSelf(history: seq<Entry>, from: Node)
    ensures Reachable(history, from, from)
  {
    assert Leads(history, from, [], from);
  }

  lemma LeadsOn(history: seq<Entry>, from: Node, path: seq<nat>, before: Node, i: nat)
    requires Leads(history, from, path, before) && MayFollow(history, before, i)
    ensures Leads(history, from, path + [i], Next(history, before, i))
  {
    var longer := path + [i];
    assert longer[..|longer| - 1] == path && longer[|longer| - 1] == i;
  }

  lemma ReachableNext(history: seq<Entry>, from: Node, node: Node, i: nat)
    requires Reachable(history, from, node) && MayFollow(history, node, i)
    ensures Reachable(history, from, Next(history, node, i))
  {
    var path :| Leads(history, from, path, node);
    LeadsOn(history, from, path, node, i);
  }

  lemma FinishNext(history: seq<Entry>, node: Node, i: nat)
    requires MayFollow(history, node, i) && CanFinish(history, Next(history, node, i))
    ensures CanFinish(history, node)
  {
    var path :| Finishes(history, Next(history, node, i), path);
    var longer := [i] + path;
    assert longer[1..] == path;
    assert Finishes(history, node, longer);
  }

  /** A state that is not complete can finish only through one of its successors. */
  lemma FinishThroughSuccessor(history: seq<Entry>, node: Node)
    requires node.visited != Below(|history|)
    requires forall i: nat :: MayFollow(history, node, i) ==> !CanFinish(history, Next(history, node, i))
    ensures !CanFinish(history, node)
  {
    forall path: seq<nat>
      ensures !Finishes(history, node, path)
    {
      if path != [] && MayFollow(history, node, path[0]) {
        assert !Finishes(history, Next(history, node, path[0]), path[1..]);
      }
    }
  }

  // ---- paths and orderings -----------------------------------------------

  /** What it takes for `order` to be the rest of a linearization. */
  ghost predicate Completes(history: seq<Entry>, node: Node, order: seq<nat>) {
    && (forall p :: 0 <= p < |order| ==> order[p] < |history| && order[p] !in node.visited)
    && NoRepeats(order)
    && (forall i: nat :: i < |history| ==> i in node.visited || i in order)
    && RespectsRealTime(history, order)
    && Explains(history, node.value, order)
  }

  ghost predicate Intervals(history: seq<Entry>) {
    forall i :: 0 <= i < |history| ==> history[i].start < history[i].end
  }

  lemma PrependOrder(history: seq<Entry>, node: Node, path: seq<nat>)
    requires Intervals(history) && node.visited <= Below(|history|)
    requires path != [] && MayFollow(history, node, path[0])
    requires Completes(history, Next(history, node, path[0]), path[1..])
    ensures forall p :: 0 <= p < |path| ==> path[p] < |history| && path[p] !in node.visited
    ensures NoRepeats(path)
    ensures RespectsRealTime(history, path)
  {
    var rest := path[1..];
    assert forall p :: 0 < p < |path| ==> path[p] == rest[p - 1];
    forall p, q | 0 <= p < q < |path|
      ensures path[p] != path[q] && !(history[path[q]].end < history[path[p]].start)
    {
      if p == 0 {
        assert rest[q - 1] !in Predecessors(history, path[0]);
      } else {
        assert rest[p - 1] != rest[q - 1];
      }
    }
  }

  lemma PrependCompletes(history: seq<Entry>, node: Node, path: seq<nat>)
    requires Intervals(history) && node.visited <= Below(|history|)
    requires path != [] && MayFollow(history, node, path[0])
    requires Completes(history, Next(history, node, path[0]), path[1..])
    ensures Completes(history, node, path)
  {
    PrependOrder(history, node, path);
    assert path == [path[0]] + path[1..];
    forall j: nat | j < |history|
      ensures j in node.visited || j in path
    {
      assert j in node.visited || j == path[0] || j in path[1..];
    }
  }

  lemma {:induction false} PathCompletes(history: seq<Entry>, node: Node, path: seq<nat>)
    requires Intervals(history) && node.visited <= Below(|history|)
    requires Finishes(history, node, path)
    ensures Completes(history, node, path)
    decreases |path|
  {
    if path != [] {
      PathCompletes(history, Next(history, node, path[0]), path[1..]);
      PrependCompletes(history, node, path);
    }
  }

  lemma FirstMayFollow(history: seq<Entry>, node: Node, path: seq<nat>)
    requires Intervals(history) && path != []
    requires Completes(history, node, path)
    ensures MayFollow(history, node, path[0])
  {
    forall j | j in Predecessors(history, path[0])
      ensures j in node.visited
    {
      assert j in node.visited || j in path;
      assert forall q :: 0 < q < |path| ==> !(history[path[q]].end < history[path[0]].start);
    }
  }

  lemma RestCompletes(history: seq<Entry>, node: Node, path: seq<nat>)
    requires path != [] && Completes(history, node, path)
    ensures Completes(history, Next(history, node, path[0]), path[1..])
  {
    var next, rest := Next(history, node, path[0]), path[1..];
    assert forall p :: 0 <= p < |rest| ==> rest[p] == path[p + 1];
    forall j: nat | j < |history|
      ensures j in next.visited || j in rest
    {
      if j !in node.visited && j != path[0] {
        var q :| 0 <= q < |path| && path[q] == j;
        assert rest[q - 1] == j;
      }
    }
  }

  lemma {:induction false} CompletionIsPath(history: seq<Entry>, node: Node, path: seq<nat>)
    requires Intervals(history) && node.visited <= Below(|history|)
    requires Completes(history, node, path)
    ensures Finishes(history, node, path)
    decreases |path|
  {
    if path == [] {
      assert node.visited == Below(|history|);
    } else {
      FirstMayFollow(history, node, path);
      RestCompletes(history, node, path);
      CompletionIsPath(history, Next(history, node, path[0]), path[1..]);
    }
  }

  lemma {:induction false} DistinctCover(order: seq<nat>, n: nat)
    requires forall p :: 0 <= p < |order| ==> order[p] < n
    requires NoRepeats(order)
    ensures |order| <= n
    ensures |order| == n <==> forall i: nat :: i < n ==> i in order
  {
    var elements := Elements(order);
    SizeOfDistinct(order);
    SubsetSize(elements, Below(n));
    if |order| == n {
      EqualSize(elements, Below(n));
      forall i: nat | i < n
        ensures i in order
      {
        assert i in Below(n) && i in elements;
      }
    }
    if forall i: nat :: i < n ==> i in order {
      assert elements == Below(n);
    }
  }

  function Elements<T>(order: seq<T>): set<T> {
    set x | x in order
  }

  lemma {:induction false} SizeOfDistinct(order: seq<nat>)
    requires NoRepeats(order)
    ensures |Elements(order)| == |order|
  {
    if order != [] {
      var last := |order| - 1;
      SizeOfDistinct(order[..last]);
      assert order == order[..last] + [order[last]];
      assert Elements(order) == Elements(order[..last]) + {order[last]};
    }
  }

  /** The states the search can complete are those an ordering explains. */
  lemma FinishIffLinearizable(initial: State, history: seq<Entry>)
    requires Intervals(history)
    ensures CanFinish(history, Node({}, initial)) <==> Linearizable(initial, history)
  {
    var root := Node({}, initial);
    if CanFinish(history, root) {
      var path :| Finishes(history, root, path);
      PathCompletes(history, root, path);
      DistinctCover(path, |history|);
      assert IsLinearization(initial, history, path);
    }
    if Linearizable(initial, history) {
      var order :| IsLinearization(initial, history, order);
      DistinctCover(order, |history|);
      CompletionIsPath(history, root, order);
    }
  }
}
