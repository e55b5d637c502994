/** The memoised depth-first search for a sequential ordering. */
module HistorySearch {
  import opened History
  import opened HistoryPaths
  import opened Masks

  /** How many states the memo may hold before the search gives up. */
  const BUDGET: nat := 250000

  datatype SearchState = SearchState(visited: nat, value: State)

  datatype Verdict =
    | Accepted
    | BadLength
    | BadInitial
    | InvalidEntry(index: nat)
    | UnknownOperation(index: nat)
    | BudgetExhausted
    | NoOrdering
  {
    /** The search was run. */
    predicate Searched() {
      Accepted? || BudgetExhausted? || NoOrdering?
    }
  }

  ghost function View(s: SearchState): Node {
    Node(Members(s.visited), s.value)
  }

  ghost function Root(initial: State): Node {
    Node({}, initial)
  }

  lemma ViewInjective(a: SearchState, b: SearchState)
    requires View(a) == View(b)
    ensures a == b
  {
    Extensional(a.visited, b.visited);
  }

  /** No successor of `node` can be completed. */
  ghost predicate Stuck(history: seq<Entry>, live: iset<Node>, node: Node) {
    forall i: nat :: MayFollow(history, node, i) ==> Next(history, node, i) !in live
  }

  ghost predicate StuckBefore(history: seq<Entry>, live: iset<Node>, node: Node, n: nat) {
    forall i: nat :: i < n && MayFollow(history, node, i) ==> Next(history, node, i) !in live
  }

  ghost predicate NoneBefore(history: seq<Entry>, node: Node, n: nat) {
    forall i: nat :: i < n ==> !MayFollow(history, node, i)
  }

  lemma StuckAll(history: seq<Entry>, live: iset<Node>, node: Node)
    requires StuckBefore(history, live, node, |history|)
    ensures Stuck(history, live, node)
  {
  }

  lemma NoneAll(history: seq<Entry>, node: Node)
    requires NoneBefore(history, node, |history|)
    ensures forall i: nat :: !MayFollow(history, node, i)
  {
  }

  /** All that the search needs to know about three sets of states: those it may
      meet, those that can be completed, and those from which no matching call
      is ever a dead end. */
  ghost predicate Laws(history: seq<Entry>, space: iset<Node>, live: iset<Node>, smooth: iset<Node>) {
    && (forall node: Node, i: nat {:trigger Next(history, node, i)} ::
          node in space && MayFollow(history, node, i) ==> Next(history, node, i) in space)
    && (forall node: Node :: node.visited == Below(|history|) ==> node in live)
    && (forall node: Node, i: nat {:trigger Next(history, node, i)} ::
          MayFollow(history, node, i) && Next(history, node, i) in live ==> node in live)
    && (forall node: Node {:trigger Stuck(history, live, node)} ::
          node.visited != Below(|history|) && Stuck(history, live, node) ==> node !in live)
    && (forall node: Node, i: nat {:trigger Next(history, node, i)} ::
          node in smooth && MayFollow(history, node, i) ==> Next(history, node, i) in smooth)
    && (forall node: Node {:trigger node in smooth} ::
          node in smooth && node.visited != Below(|history|) ==> exists i: nat :: MayFollow(history, node, i))
  }

  lemma Grows<T>(s: set<T>, x: T)
    ensures |s| <= |s + {x}| <= |s| + 1
  {
    if x in s {
      assert s + {x} == s;
    }
  }

  class Search {
    const history: seq<Entry>
    const predecessors: seq<nat>
    ghost const space: iset<Node>
    ghost const live: iset<Node>
    ghost const smooth: iset<Node>
    var rejected: set<SearchState>
    var exhausted: bool
    /** The states whose successors were tried, and how often that was done. */
    ghost var expanded: set<SearchState>
    ghost var expansions: nat

    constructor (history: seq<Entry>, predecessors: seq<nat>,
                 ghost space: iset<Node>, ghost live: iset<Node>, ghost smooth: iset<Node>)
      requires |predecessors| == |history| <= MAX_ENTRIES
      requires forall i :: 0 <= i < |history| ==> Members(predecessors[i]) == Predecessors(history, i)
      requires Laws(history, space, live, smooth)
      ensures Frame() && Valid()
      ensures this.history == history && this.space == space && this.live == live && this.smooth == smooth
      ensures rejected == {} && !exhausted && expansions == 0
    {
      this.history, this.predecessors := history, predecessors;
      this.space, this.live, this.smooth := space, live, smooth;
      rejected, exhausted, expanded, expansions := {}, false, {}, 0;
    }

    ghost predicate Frame() {
      && |predecessors| == |history| <= MAX_ENTRIES
      && (forall i :: 0 <= i < |history| ==> Members(predecessors[i]) == Predecessors(history, i))
      && Laws(history, space, live, smooth)
    }

    ghost predicate Valid()
      reads this
    {
      && (forall s :: s in rejected ==> View(s) in space)
      && (!exhausted ==> forall s :: s in rejected ==> View(s) !in live)
      && (exhausted ==> BUDGET <= |rejected|)
      && |expanded| == expansions
    }

    ghost predicate InSpace(current: SearchState) {
      Members(current.visited) <= Below(|history|) && View(current) in space
    }

    /** The states being expanded all have visited fewer entries. */
    ghost predicate Ancestors(stack: set<SearchState>, current: SearchState) {
      forall s :: s in stack ==> Members(s.visited) < Members(current.visited)
    }

    ghost function Left(current: SearchState): nat {
      |Below(|history|) - Members(current.visited)|
    }

    /** Can the calls not yet visited be ordered so as to explain their results? */
    method Visit(current: SearchState, ghost stack: set<SearchState>) returns (ok: bool)
      requires Frame() && Valid() && InSpace(current)
      requires Ancestors(stack, current) && expanded <= rejected + stack
      modifies this
      ensures Valid()
      ensures old(exhausted) ==> exhausted
      ensures ok ==> View(current) in live
      ensures !ok && !exhausted ==> View(current) !in live
      ensures old(rejected) <= rejected
      ensures |rejected| <= old(|rejected|) || |rejected| <= BUDGET - 1 + Left(current)
      ensures !ok ==> expanded <= rejected + stack
      ensures old(rejected == {} && !exhausted) && View(current) in smooth ==> ok
      decreases Left(current), 1
    {
      Full(|history|);
      if current.visited == Ones(|history|) {
        return true;
      }
      if current in rejected || exhausted {
        return false;
      }
      if |rejected| >= BUDGET {
        exhausted := true;
        return false;
      }
      NotComplete(current);
      ok := Expand(current, stack);
      if !ok {
        Grows(rejected, current);
        rejected := rejected + {current};
      }
    }

    /** The loop of `Visit`: try every entry that may come next. */
    method Expand(current: SearchState, ghost stack: set<SearchState>) returns (ok: bool)
      requires Frame() && Valid() && InSpace(current)
      requires Members(current.visited) != Below(|history|)
      requires !exhausted && |rejected| < BUDGET && current !in rejected + stack
      requires Ancestors(stack, current) && expanded <= rejected + stack
      modifies this
      ensures Valid()
      ensures ok ==> View(current) in live
      ensures !ok && !exhausted ==> View(current) !in live
      ensures old(rejected) <= rejected
      ensures |rejected| <= BUDGET - 2 + Left(current)
      ensures !ok ==> expanded <= rejected + stack + {current}
      ensures old(rejected == {}) && View(current) in smooth ==> ok
      decreases Left(current), 0
    {
      expanded, expansions := expanded + {current}, expansions + 1;
      var i := 0;
      while i < |history|
        invariant 0 <= i <= |history|
        invariant Valid()
        invariant old(rejected) <= rejected
        invariant |rejected| <= BUDGET - 2 + Left(current)
        invariant expanded <= rejected + stack + {current}
        invariant !exhausted ==> StuckBefore(history, live, View(current), i)
        invariant old(rejected == {}) && View(current) in smooth ==>
                    rejected == {} && !exhausted && NoneBefore(history, View(current), i)
      {
        var bit := Bit(i);
        MaskTest(current, i);
        if And(current.visited, bit) == 0 && And(predecessors[i], current.visited) == predecessors[i] {
          var (value, result) := Apply(current.value, history[i]);
          if result == history[i].result {
            var next := SearchState(Or(current.visited, bit), value);
            Successor(current, i, next, stack);
            ok := Visit(next, stack + {current});
            if ok {
              return;
            }
          }
        }
        Tried(current, i);
        i := i + 1;
      }
      Reject(current);
      ok := false;
    }

    lemma Tried(current: SearchState, i: nat)
      ensures StuckBefore(history, live, View(current), i) && (MayFollow(history, View(current), i) ==> Next(history, View(current), i) !in live)
              ==> StuckBefore(history, live, View(current), i + 1)
      ensures NoneBefore(history, View(current), i) && !MayFollow(history, View(current), i)
              ==> NoneBefore(history, View(current), i + 1)
    {
    }

    lemma Reject(current: SearchState)
      requires Frame() && Members(current.visited) != Below(|history|)
      ensures StuckBefore(history, live, View(current), |history|) ==> View(current) !in live
      ensures NoneBefore(history, View(current), |history|) ==> View(current) !in smooth
    {
      if StuckBefore(history, live, View(current), |history|) {
        StuckAll(history, live, View(current));
      }
      if NoneBefore(history, View(current), |history|) {
        NoneAll(history, View(current));
      }
    }

    /** The bit tests decide whether entry `i` may come next. */
    lemma MaskTest(current: SearchState, i: nat)
      requires Frame() && i < |history|
      ensures And(current.visited, Bit(i)) == 0 && And(predecessors[i], current.visited) == predecessors[i] && Matches(current.value, history[i])
              <==> MayFollow(history, View(current), i)
    {
      Probe(current.visited, i);
      Inclusion(predecessors[i], current.visited);
    }

    lemma Successor(current: SearchState, i: nat, next: SearchState, stack: set<SearchState>)
      requires Frame() && InSpace(current) && MayFollow(history, View(current), i)
      requires Ancestors(stack, current)
      requires next == SearchState(Or(current.visited, Bit(i)), After(current.value, history[i]))
      ensures View(next) == Next(history, View(current), i)
      ensures InSpace(next)
      ensures Ancestors(stack + {current}, next)
      ensures Left(next) < Left(current)
    {
      Insert(current.visited, i);
      assert Below(|history|) - Members(next.visited) == Below(|history|) - Members(current.visited) - {i};
    }

    lemma NotComplete(current: SearchState)
      requires Frame() && InSpace(current)
      requires current.visited != Ones(|history|)
      ensures Members(current.visited) != Below(|history|)
      ensures Left(current) > 0
    {
      Full(|history|);
      if Members(current.visited) == Below(|history|) {
        Extensional(current.visited, Ones(|history|));
      } else {
        assert Below(|history|) - Members(current.visited) != {};
      }
    }
  }
}
