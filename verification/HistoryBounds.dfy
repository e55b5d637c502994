/** Histories whose inputs are small cannot exhaust the search budget. */
module HistoryBounds {
  import opened Sets
  import opened Int64
  import opened History
  import opened HistoryPaths
  import opened HistorySearch
  import opened HistoryCheck
  import opened Masks

  ghost predicate NonNegativeInputs(history: seq<Entry>) {
    forall i :: 0 <= i < |history| ==> 0 <= history[i].input
  }

  /** The inputs of the members of `s` among the first `n` entries. */
  ghost function InputSum(history: seq<Entry>, s: set<nat>, n: nat): int
    requires n <= |history|
  {
    if n == 0 then 0 else InputSum(history, s, n - 1) + (if n - 1 in s then history[n - 1].input else 0)
  }

  ghost function Total(history: seq<Entry>): int {
    InputSum(history, Below(|history|), |history|)
  }

  lemma {:induction false} InputSumInsert(history: seq<Entry>, s: set<nat>, i: nat, n: nat)
    requires n <= |history| && i !in s
    ensures InputSum(history, s + {i}, n) == InputSum(history, s, n) + (if i < n then history[i].input else 0)
  {
    if n > 0 {
      InputSumInsert(history, s, i, n - 1);
    }
  }

  lemma {:induction false} InputSumMonotone(history: seq<Entry>, s: set<nat>, t: set<nat>, n: nat)
    requires n <= |history| && s <= t && NonNegativeInputs(history)
    ensures 0 <= InputSum(history, s, n) <= InputSum(history, t, n)
  {
    if n > 0 {
      InputSumMonotone(history, s, t, n - 1);
    }
  }

  /** The counter is at most the sum of the inputs used so far. */
  ghost predicate Bounded(history: seq<Entry>, node: Node) {
    && node.visited <= Below(|history|)
    && 0 <= node.value.counter <= InputSum(history, node.visited, |history|)
    && (!node.value.found ==> node.value.counter == 0)
  }

  lemma MulMonotone(k: nat, a: nat, b: nat)
    requires a <= b
    ensures k * a <= k * b
  {
  }

  lemma ApplyIsBounded(value: State, entry: Entry, bound: nat)
    requires 0 <= entry.input && bound + entry.input <= MAX
    requires 0 <= value.counter <= bound && (!value.found ==> value.counter == 0)
    ensures 0 <= After(value, entry).counter <= bound + entry.input
    ensures !After(value, entry).found ==> After(value, entry).counter == 0
  {
  }

  lemma StepIsBounded(history: seq<Entry>, before: Node, i: nat)
    requires NonNegativeInputs(history) && Total(history) <= MAX
    requires Bounded(history, before) && MayFollow(history, before, i)
    ensures Bounded(history, Next(history, before, i))
  {
    var node := Next(history, before, i);
    InputSumInsert(history, before.visited, i, |history|);
    InputSumMonotone(history, node.visited, Below(|history|), |history|);
    ApplyIsBounded(before.value, history[i], InputSum(history, before.visited, |history|));
  }

  lemma {:induction false} ReachableIsBounded(history: seq<Entry>, path: seq<nat>, node: Node)
    requires NonNegativeInputs(history) && Total(history) <= MAX
    requires Leads(history, Root(ABSENT), path, node)
    ensures Bounded(history, node)
    decreases |path|
  {
    InputSumMonotone(history, {}, Below(|history|), |history|);
    if path != [] {
      var last := |path| - 1;
      var before :| Leads(history, Root(ABSENT), path[..last], before)
        && MayFollow(history, before, path[last]) && node == Next(history, before, path[last]);
      ReachableIsBounded(history, path[..last], before);
      StepIsBounded(history, before, path[last]);
    }
  }

  /** A number that stands for the part of `s` below `n`. */
  ghost function Encode(s: set<nat>, n: nat): nat {
    if n == 0 then 0 else Encode(s, n - 1) + (if n - 1 in s then Pow2(n - 1) else 0)
  }

  lemma {:induction false} EncodeBelow(s: set<nat>, n: nat)
    ensures Encode(s, n) < Pow2(n)
  {
    if n > 0 {
      EncodeBelow(s, n - 1);
    }
  }

  lemma {:induction false} EncodeInjective(s: set<nat>, t: set<nat>, n: nat)
    requires Encode(s, n) == Encode(t, n)
    ensures forall i: nat :: i < n ==> (i in s <==> i in t)
  {
    if n > 0 {
      EncodeBelow(s, n - 1);
      EncodeBelow(t, n - 1);
      EncodeInjective(s, t, n - 1);
    }
  }

  /** A number below `2^n * (top + 2)` that identifies a bounded node. */
  ghost function Code(node: Node, n: nat, top: nat): int {
    Encode(node.visited, n) * (top + 2) + Digit(node.value)
  }

  ghost function Digit(value: State): int {
    if value.found then value.counter + 1 else 0
  }

  /** The counter stays within `top`. */
  ghost predicate Within(n: nat, top: nat, node: Node) {
    && node.visited <= Below(n)
    && 0 <= node.value.counter <= top
    && (!node.value.found ==> node.value.counter == 0)
  }

  lemma MulAtLeast(k: nat, base: nat)
    requires k >= 1
    ensures k * base >= base
  {
    MulMonotone(base, 1, k);
  }

  lemma LargerWordLargerCode(a: nat, b: nat, c: nat, d: nat, base: nat)
    requires a < c && b < base
    ensures a * base + b < c * base + d
  {
    MulAtLeast(c - a, base);
    assert (c - a) * base == c * base - a * base;
  }

  lemma DigitsUnique(a: nat, b: nat, c: nat, d: nat, base: nat)
    requires b < base && d < base
    requires a * base + b == c * base + d
    ensures a == c && b == d
  {
    if a < c {
      LargerWordLargerCode(a, b, c, d, base);
    } else if c < a {
      LargerWordLargerCode(c, d, a, b, base);
    }
  }

  lemma CodeInjective(n: nat, top: nat, x: Node, y: Node)
    requires Within(n, top, x) && Within(n, top, y)
    requires Code(x, n, top) == Code(y, n, top)
    ensures x == y
  {
    DigitsUnique(Encode(x.visited, n), Digit(x.value), Encode(y.visited, n), Digit(y.value), top + 2);
    EncodeInjective(x.visited, y.visited, n);
    assert x.visited == y.visited;
  }

  lemma CodeBelow(n: nat, top: nat, x: Node)
    requires Within(n, top, x)
    ensures 0 <= Code(x, n, top) < Pow2(n) * (top + 2)
  {
    var word := Encode(x.visited, n);
    EncodeBelow(x.visited, n);
    DigitsBelow(word, Digit(x.value), Pow2(n), top + 2);
  }

  lemma DigitsBelow(word: nat, digit: nat, words: nat, base: nat)
    requires word < words && digit < base
    ensures 0 <= word * base + digit < words * base
  {
    LargerWordLargerCode(word, digit, words, 0, base);
    MulMonotone(base, 0, word);
  }

  ghost function Codes(n: nat, top: nat, nodes: set<Node>): set<int> {
    set x | x in nodes :: Code(x, n, top)
  }

  lemma {:induction false} CodesDistinct(n: nat, top: nat, nodes: set<Node>)
    requires forall x :: x in nodes ==> Within(n, top, x)
    ensures |Codes(n, top, nodes)| == |nodes|
  {
    if nodes != {} {
      var x :| x in nodes;
      CodesDistinct(n, top, nodes - {x});
      forall y | y in nodes - {x}
        ensures Code(y, n, top) != Code(x, n, top)
      {
        if Code(y, n, top) == Code(x, n, top) {
          CodeInjective(n, top, x, y);
        }
      }
      assert Codes(n, top, nodes) == Codes(n, top, nodes - {x}) + {Code(x, n, top)};
    }
  }

  /** Nodes over `n` entries with counters up to `top` are few. */
  lemma FewNodes(n: nat, top: nat, nodes: set<Node>)
    requires forall x :: x in nodes ==> Within(n, top, x)
    ensures |nodes| <= Pow2(n) * (top + 2)
  {
    CodesDistinct(n, top, nodes);
    forall x | x in nodes
      ensures 0 <= Code(x, n, top) < Pow2(n) * (top + 2)
    {
      CodeBelow(n, top, x);
    }
    SizeBelow(Codes(n, top, nodes), Pow2(n) * (top + 2));
  }

  lemma {:induction false} SizeBelow(s: set<int>, n: nat)
    requires forall x :: x in s ==> 0 <= x < n
    ensures |s| <= n
  {
    if n == 0 {
      assert forall x :: x !in s;
      assert s == {};
    } else {
      SizeBelow(s - {n - 1}, n - 1);
    }
  }

  lemma ReachableIsWithin(history: seq<Entry>, node: Node)
    requires NonNegativeInputs(history) && Total(history) <= MAX
    requires Reachable(history, Root(ABSENT), node)
    ensures 0 <= Total(history) && Within(|history|, Total(history), node)
  {
    var path :| Leads(history, Root(ABSENT), path, node);
    ReachableIsBounded(history, path, node);
    InputSumMonotone(history, node.visited, Below(|history|), |history|);
  }

  lemma AllWithin(history: seq<Entry>, nodes: set<Node>)
    requires NonNegativeInputs(history) && Total(history) <= MAX
    requires AllReachable(history, Root(ABSENT), nodes)
    ensures 0 <= Total(history) && forall x :: x in nodes ==> Within(|history|, Total(history), x)
  {
    InputSumMonotone(history, {}, Below(|history|), |history|);
    forall x | x in nodes
      ensures Within(|history|, Total(history), x)
    {
      ReachableIsWithin(history, x);
    }
  }

  lemma NotCrowded(history: seq<Entry>, nodes: set<Node>)
    requires NonNegativeInputs(history) && Total(history) <= MAX
    requires AllReachable(history, Root(ABSENT), nodes)
    ensures |nodes| <= Pow2(|history|) * (Total(history) + 2)
  {
    AllWithin(history, nodes);
    FewNodes(|history|, Total(history), nodes);
  }

  /** With few entries and small inputs the verdict is always a conclusion. */
  lemma SmallHistoriesConclude(history: seq<Entry>, verdict: Verdict)
    requires NonNegativeInputs(history) && Total(history) <= MAX
    requires Pow2(|history|) * (Total(history) + 2) < BUDGET
    requires Exact(ABSENT, history, verdict) && Checkable(ABSENT, history)
    ensures verdict.Accepted? <==> Linearizable(ABSENT, history)
    ensures !verdict.BudgetExhausted?
  {
    if verdict.BudgetExhausted? {
      var nodes :| |nodes| >= BUDGET && AllReachable(history, Root(ABSENT), nodes);
      NotCrowded(history, nodes);
    }
  }
}
