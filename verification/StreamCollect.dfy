/** Collecting the frames of a streamed reply into one list in operation order. */
module StreamCollect {
  datatype Result<T> = Result(operationIndex: int, payload: T)

  /** How a stream ended. */
  datatype Ending = EndOfStream | Broken

  datatype Response<T> = Response(error: bool, results: seq<Result<T>>)

  ghost predicate SortedByIndex<T>(results: seq<Result<T>>) {
    forall i, j :: 0 <= i < j < |results| ==> results[i].operationIndex <= results[j].operationIndex
  }

  function Insert<T>(sorted: seq<Result<T>>, result: Result<T>): seq<Result<T>> {
    if sorted == [] then [result]
    else if sorted[|sorted| - 1].operationIndex <= result.operationIndex then sorted + [result]
    else Insert(sorted[..|sorted| - 1], result) + [sorted[|sorted| - 1]]
  }

  /** The sort that the collector asks for, by operation index. */
  function Sort<T>(results: seq<Result<T>>): seq<Result<T>> {
    if results == [] then [] else Insert(Sort(results[..|results| - 1]), results[|results| - 1])
  }

  function Concat<T>(frames: seq<seq<Result<T>>>): seq<Result<T>> {
    if frames == [] then [] else Concat(frames[..|frames| - 1]) + frames[|frames| - 1]
  }

  /** `collectRead` and `collectWrite`: the results of a broken stream are handed back
      as they arrived. */
  method Collect<T>(frames: seq<seq<Result<T>>>, ending: Ending) returns (response: Response<T>)
    ensures response == Response(ending != EndOfStream, if ending == EndOfStream then Sort(Concat(frames)) else Concat(frames))
  {
    var results: seq<Result<T>> := [];
    var i := 0;
    while i < |frames|
      invariant 0 <= i <= |frames| && results == Concat(frames[..i])
    {
      assert frames[..i + 1][..i] == frames[..i];
      results := results + frames[i];
      i := i + 1;
    }
    assert frames[..|frames|] == frames;
    if ending == EndOfStream {
      return Response(false, Sort(results));
    }
    return Response(true, results);
  }

  lemma SplitLast<T>(results: seq<Result<T>>)
    requires results != []
    ensures multiset(results) == multiset(results[..|results| - 1]) + multiset{results[|results| - 1]}
  {
    assert results == results[..|results| - 1] + [results[|results| - 1]];
  }

  lemma {:induction false} InsertAdds<T>(sorted: seq<Result<T>>, result: Result<T>)
    ensures multiset(Insert(sorted, result)) == multiset(sorted) + multiset{result}
    ensures |Insert(sorted, result)| == |sorted| + 1
  {
    if sorted != [] && sorted[|sorted| - 1].operationIndex > result.operationIndex {
      var last := |sorted| - 1;
      InsertAdds(sorted[..last], result);
      SplitLast(sorted);
    }
  }

  lemma MembersOfInsert<T>(sorted: seq<Result<T>>, result: Result<T>, x: Result<T>)
    requires x in Insert(sorted, result)
    ensures x == result || x in sorted
  {
    InsertAdds(sorted, result);
    assert x in multiset(Insert(sorted, result));
  }

  lemma {:induction false} InsertSorts<T>(sorted: seq<Result<T>>, result: Result<T>)
    requires SortedByIndex(sorted)
    ensures SortedByIndex(Insert(sorted, result))
  {
    if sorted != [] && sorted[|sorted| - 1].operationIndex > result.operationIndex {
      var last := |sorted| - 1;
      InsertSorts(sorted[..last], result);
      var rest := Insert(sorted[..last], result);
      forall i | 0 <= i < |rest|
        ensures rest[i].operationIndex <= sorted[last].operationIndex
      {
        MembersOfInsert(sorted[..last], result, rest[i]);
      }
    }
  }

  lemma {:induction false} SortPermutes<T>(results: seq<Result<T>>)
    ensures multiset(Sort(results)) == multiset(results) && |Sort(results)| == |results|
  {
    if results != [] {
      var last := |results| - 1;
      SortPermutes(results[..last]);
      InsertAdds(Sort(results[..last]), results[last]);
      SplitLast(results);
    }
  }

  lemma {:induction false} SortIsSorted<T>(results: seq<Result<T>>)
    ensures SortedByIndex(Sort(results))
  {
    if results != [] {
      SortIsSorted(results[..|results| - 1]);
      InsertSorts(Sort(results[..|results| - 1]), results[|results| - 1]);
    }
  }

  /** Sorting rearranges, nothing more. */
  lemma SortSorts<T>(results: seq<Result<T>>)
    ensures SortedByIndex(Sort(results)) && multiset(Sort(results)) == multiset(results)
    ensures |Sort(results)| == |results|
  {
    SortPermutes(results);
    SortIsSorted(results);
  }

  /** One result for each of the operations 0 .. n-1. */
  ghost predicate OnePerOperation<T>(results: seq<Result<T>>, n: nat) {
    && |results| == n
    && (forall i :: 0 <= i < n ==> 0 <= results[i].operationIndex < n)
    && (forall i, j :: 0 <= i < j < n ==> results[i].operationIndex != results[j].operationIndex)
  }

  lemma DistinctMultiplicity<T>(results: seq<Result<T>>, i: nat, j: nat)
    requires i < j < |results| && results[i] == results[j]
    ensures multiset(results)[results[i]] >= 2
  {
    assert results == results[..j] + [results[j]] + results[j + 1..];
    assert results[i] in results[..j];
    assert results[i] in multiset(results[..j]);
    assert multiset(results) == multiset(results[..j]) + multiset{results[j]} + multiset(results[j + 1..]);
  }

  lemma {:induction false} DistinctOnce<T>(results: seq<Result<T>>, n: nat, r: Result<T>)
    requires |results| <= n
    requires forall i, j :: 0 <= i < j < |results| ==> results[i].operationIndex != results[j].operationIndex
    ensures multiset(results)[r] <= 1
  {
    if results != [] {
      var last := |results| - 1;
      DistinctOnce(results[..last], n, r);
      assert results == results[..last] + [results[last]];
      if results[last] == r {
        assert r !in results[..last];
        assert r !in multiset(results[..last]);
      }
    }
  }

  lemma SameIndexSameResult<T>(results: seq<Result<T>>, n: nat, a: Result<T>, b: Result<T>)
    requires OnePerOperation(results, n) && a in results && b in results && a.operationIndex == b.operationIndex
    ensures a == b
  {
  }

  lemma {:induction false} LowerBound<T>(results: seq<Result<T>>, i: nat)
    requires i < |results| && results[0].operationIndex >= 0
    requires forall j, k :: 0 <= j < k < |results| ==> results[j].operationIndex < results[k].operationIndex
    ensures results[i].operationIndex >= i
  {
    if i > 0 {
      LowerBound(results, i - 1);
    }
  }

  lemma {:induction false} UpperBound<T>(results: seq<Result<T>>, n: nat, i: nat)
    requires i < |results| == n && results[n - 1].operationIndex < n
    requires forall j, k :: 0 <= j < k < |results| ==> results[j].operationIndex < results[k].operationIndex
    ensures results[i].operationIndex <= i
    decreases n - i
  {
    if i < n - 1 {
      UpperBound(results, n, i + 1);
    }
  }

  lemma StaysDistinct<T>(results: seq<Result<T>>, n: nat)
    requires OnePerOperation(results, n)
    ensures OnePerOperation(Sort(results), n)
  {
    var sorted := Sort(results);
    SortSorts(results);
    forall i | 0 <= i < n
      ensures sorted[i] in results
    {
      assert sorted[i] in multiset(sorted);
    }
    forall i, j | 0 <= i < j < n
      ensures sorted[i].operationIndex != sorted[j].operationIndex
    {
      if sorted[i].operationIndex == sorted[j].operationIndex {
        SameIndexSameResult(results, n, sorted[i], sorted[j]);
        DistinctMultiplicity(sorted, i, j);
        DistinctOnce(results, n, sorted[i]);
      }
    }
  }

  /** However a complete reply was cut into frames and ordered, result `i` of the
      collected list is the one for operation `i`. */
  lemma CollectedInOrder<T>(frames: seq<seq<Result<T>>>, n: nat, i: nat)
    requires OnePerOperation(Concat(frames), n) && i < n
    ensures var sorted := Sort(Concat(frames));
            |sorted| == n && sorted[i].operationIndex == i && sorted[i] in Concat(frames)
  {
    var all := Concat(frames);
    var sorted := Sort(all);
    SortSorts(all);
    StaysDistinct(all, n);
    forall j, k | 0 <= j < k < n
      ensures sorted[j].operationIndex < sorted[k].operationIndex
    {
      assert sorted[j].operationIndex <= sorted[k].operationIndex;
    }
    LowerBound(sorted, i);
    UpperBound(sorted, n, i);
    assert sorted[i] in multiset(sorted);
  }

  /** Framing and arrival order do not show: the same results give the same list. */
  lemma FramingInvisible<T>(a: seq<seq<Result<T>>>, b: seq<seq<Result<T>>>, n: nat)
    requires OnePerOperation(Concat(a), n) && multiset(Concat(a)) == multiset(Concat(b))
    ensures Sort(Concat(a)) == Sort(Concat(b))
  {
    var x, y := Sort(Concat(a)), Sort(Concat(b));
    SortSorts(Concat(a));
    SortSorts(Concat(b));
    assert |Concat(b)| == |multiset(Concat(b))| == |multiset(Concat(a))| == n;
    SameMembersOnePer(Concat(a), Concat(b), n);
    forall i | 0 <= i < n
      ensures x[i] == y[i]
    {
      CollectedInOrder(a, n, i);
      CollectedInOrder(b, n, i);
      assert y[i] in multiset(Concat(b));
      SameIndexSameResult(Concat(a), n, x[i], y[i]);
    }
  }

  lemma SameMembersOnePer<T>(a: seq<Result<T>>, b: seq<Result<T>>, n: nat)
    requires OnePerOperation(a, n) && multiset(a) == multiset(b) && |b| == n
    ensures OnePerOperation(b, n)
  {
    forall i | 0 <= i < n
      ensures b[i] in a
    {
      assert b[i] in multiset(b);
    }
    forall i, j | 0 <= i < j < n
      ensures b[i].operationIndex != b[j].operationIndex
    {
      if b[i].operationIndex == b[j].operationIndex {
        SameIndexSameResult(a, n, b[i], b[j]);
        DistinctMultiplicity(b, i, j);
        DistinctOnce(a, n, b[i]);
      }
    }
  }

  /** Position i holds the result of operation i, for every i. */
  ghost predicate Positional<T>(results: seq<Result<T>>) {
    forall i :: 0 <= i < |results| ==> results[i].operationIndex == i
  }

  /** However the library breaks ties: sorting by index puts every result at its own position
      if and only if each operation is answered exactly once. */
  lemma PositionalIff<T>(results: seq<Result<T>>, sorted: seq<Result<T>>)
    requires SortedByIndex(sorted) && multiset(sorted) == multiset(results)
    ensures |sorted| == |results|
    ensures Positional(sorted) <==> OnePerOperation(results, |results|)
  {
    var n := |results|;
    assert |sorted| == |multiset(sorted)| == |multiset(results)| == n;
    if OnePerOperation(results, n) {
      SameMembersOnePer(results, sorted, n);
      forall i | 0 <= i < n
        ensures sorted[i].operationIndex == i
      {
        LowerBound(sorted, i);
        UpperBound(sorted, n, i);
      }
    }
    if Positional(sorted) {
      assert OnePerOperation(sorted, n);
      SameMembersOnePer(sorted, results, n);
    }
  }

  /** So the collector's list is positional exactly for complete replies without repetition. */
  lemma CollectedInOrderIff<T>(frames: seq<seq<Result<T>>>)
    ensures |Sort(Concat(frames))| == |Concat(frames)|
    ensures (forall i :: 0 <= i < |Concat(frames)| ==> Sort(Concat(frames))[i].operationIndex == i) <==>
            OnePerOperation(Concat(frames), |Concat(frames)|)
  {
    SortSorts(Concat(frames));
    PositionalIff(Concat(frames), Sort(Concat(frames)));
  }
}
