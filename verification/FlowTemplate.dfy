/** The cross-step rules of createFlowTemplateSchema. */
module FlowTemplate {

  datatype FlowStep = FlowStep(stepIndex: int, deskNumber: string, queueId: string)

  datatype Issue = SharedQueue | IndicesNotSequential | SharedDesk

  function Indices(steps: seq<FlowStep>): seq<int> {
    seq(|steps|, i requires 0 <= i < |steps| => steps[i].stepIndex)
  }

  function Queues(steps: seq<FlowStep>): seq<string> {
    seq(|steps|, i requires 0 <= i < |steps| => steps[i].queueId)
  }

  function Desks(steps: seq<FlowStep>): seq<string> {
    seq(|steps|, i requires 0 <= i < |steps| => steps[i].deskNumber)
  }

  predicate Distinct<T(==)>(s: seq<T>) {
    forall i, j :: 0 <= i < j < |s| ==> s[i] != s[j]
  }

  /** 1, 2, ..., n. */
  function OneTo(n: nat): seq<int> {
    if n == 0 then [] else OneTo(n - 1) + [n]
  }

  /** The rule as documented: the indices are 1 to n in some order. */
  predicate AreSequential(indices: seq<int>) {
    multiset(indices) == multiset(OneTo(|indices|))
  }

  // ----- Sorting -----

  predicate Sorted(steps: seq<FlowStep>) {
    forall i, j :: 0 <= i < j < |steps| ==> steps[i].stepIndex <= steps[j].stepIndex
  }

  function Insert(step: FlowStep, steps: seq<FlowStep>): (r: seq<FlowStep>)
    ensures multiset(r) == multiset(steps) + multiset{step}
  {
    if steps == [] then [step]
    else if steps[|steps| - 1].stepIndex <= step.stepIndex then steps + [step]
    else
      assert steps == steps[..|steps| - 1] + [steps[|steps| - 1]];
      Insert(step, steps[..|steps| - 1]) + [steps[|steps| - 1]]
  }

  lemma {:induction false} InsertKeepsSorted(step: FlowStep, steps: seq<FlowStep>)
    requires Sorted(steps)
    ensures Sorted(Insert(step, steps))
  {
    if steps != [] && steps[|steps| - 1].stepIndex > step.stepIndex {
      var front, last := steps[..|steps| - 1], steps[|steps| - 1];
      InsertKeepsSorted(step, front);
      var r := Insert(step, front);
      forall i | 0 <= i < |r| ensures r[i].stepIndex <= last.stepIndex {
        assert r[i] in multiset(r);
        assert r[i] in front || r[i] == step;
      }
    }
  }

  /** The stable sort by step index. */
  function SortByIndex(steps: seq<FlowStep>): (r: seq<FlowStep>)
    ensures multiset(r) == multiset(steps) && Sorted(r)
  {
    if steps == [] then []
    else
      var front := steps[..|steps| - 1];
      assert steps == front + [steps[|steps| - 1]];
      InsertKeepsSorted(steps[|steps| - 1], SortByIndex(front));
      Insert(steps[|steps| - 1], SortByIndex(front))
  }

  predicate CountsFromOne(sorted: seq<FlowStep>) {
    forall k :: 0 <= k < |sorted| ==> sorted[k].stepIndex == k + 1
  }

  // ----- The check -----

  /** What the schema should report: each broken rule once, in this order. */
  function ExpectedIssues(steps: seq<FlowStep>): seq<Issue> {
    (if Distinct(Queues(steps)) then [] else [SharedQueue])
    + (if AreSequential(Indices(steps)) then [] else [IndicesNotSequential])
    + (if Distinct(Desks(steps)) then [] else [SharedDesk])
  }

  /** The rules of the refinement, run in the order of the schema. */
  method CheckCreate(steps: seq<FlowStep>) returns (issues: seq<Issue>)
    ensures issues == ExpectedIssues(steps)
  {
    hide AreSequential, Distinct, Queues, Desks, Indices;
    issues := [];
    var queueIds := Queues(steps);
    var uniqueQueueIds := set q | q in queueIds;
    SetSizeTellsDistinct(queueIds);
    if |uniqueQueueIds| != |queueIds| {
      issues := issues + [SharedQueue];
    }
    var sequential := CheckIndices(steps);
    if !sequential {
      issues := issues + [IndicesNotSequential];
    }
    var deskNumbers := Desks(steps);
    var uniqueDesks := set d | d in deskNumbers;
    SetSizeTellsDistinct(deskNumbers);
    if |uniqueDesks| != |deskNumbers| {
      issues := issues + [SharedDesk];
    }
  }

  /** The loop over the sorted copy, which stops at the first index out of line. */
  method CheckIndices(steps: seq<FlowStep>) returns (sequential: bool)
    ensures sequential <==> AreSequential(Indices(steps))
  {
    hide AreSequential, SortByIndex, Indices;
    var sorted := SortByIndex(steps);
    SortedTellsSequential(steps);
    sequential := true;
    for i := 0 to |sorted|
      invariant sequential
      invariant forall k :: 0 <= k < i ==> sorted[k].stepIndex == k + 1
    {
      if sorted[i].stepIndex != i + 1 {
        sequential := false;
        break;
      }
    }
  }

  lemma {:induction false} SetSizeTellsDistinct<T>(s: seq<T>)
    ensures |set x | x in s| <= |s|
    ensures |set x | x in s| == |s| <==> Distinct(s)
  {
    if s != [] {
      var front, last := s[..|s| - 1], s[|s| - 1];
      SetSizeTellsDistinct(front);
      assert s == front + [last];
      assert (set x | x in s) == (set x | x in front) + {last};
      if last in front {
        var i :| 0 <= i < |front| && front[i] == last;
        assert s[i] == s[|s| - 1];
        assert !Distinct(s);
      } else {
        assert Distinct(front) <==> Distinct(s);
      }
    }
  }

  lemma {:induction false} SameIndices(s: seq<FlowStep>, t: seq<FlowStep>)
    requires multiset(s) == multiset(t)
    ensures multiset(Indices(s)) == multiset(Indices(t)) && |s| == |t|
  {
    SameImage(s, t, (x: FlowStep) => x.stepIndex);
    assert Indices(s) == Image(s, (x: FlowStep) => x.stepIndex);
    assert Indices(t) == Image(t, (x: FlowStep) => x.stepIndex);
  }

  function Image<T, U>(s: seq<T>, f: T -> U): seq<U> {
    seq(|s|, i requires 0 <= i < |s| => f(s[i]))
  }

  /** Mapping respects permutation. */
  lemma {:induction false} SameImage<T, U>(s: seq<T>, t: seq<T>, f: T -> U)
    requires multiset(s) == multiset(t)
    ensures multiset(Image(s, f)) == multiset(Image(t, f)) && |s| == |t|
  {
    assert |multiset(s)| == |s| && |multiset(t)| == |t|;
    if s != [] {
      var x := s[|s| - 1];
      assert x in multiset(t);
      var k :| 0 <= k < |t| && t[k] == x;
      var s', t' := s[..|s| - 1], t[..k] + t[k + 1..];
      WithoutOne(s, |s| - 1, f);
      WithoutOne(t, k, f);
      assert s[..|s| - 1] + s[|s|..] == s';
      SameImage(s', t', f);
    }
  }

  lemma WithoutOne<T, U>(s: seq<T>, k: nat, f: T -> U)
    requires k < |s|
    ensures multiset(s[..k] + s[k + 1..]) == multiset(s) - multiset{s[k]}
    ensures multiset(Image(s, f)) == multiset(Image(s[..k] + s[k + 1..], f)) + multiset{f(s[k])}
  {
    var l, r := s[..k], s[k + 1..];
    assert s == l + [s[k]] + r;
    assert Image(s, f) == Image(l, f) + [f(s[k])] + Image(r, f);
    assert Image(l + r, f) == Image(l, f) + Image(r, f);
  }

  lemma {:induction false} OneToAt(n: nat)
    ensures |OneTo(n)| == n && forall i :: 0 <= i < n ==> OneTo(n)[i] == i + 1
  {
    if n > 0 { OneToAt(n - 1); }
  }

  predicate Ascending(s: seq<int>) {
    forall i, j :: 0 <= i < j < |s| ==> s[i] <= s[j]
  }

  lemma AscendingPrefix(s: seq<int>)
    requires s != [] && Ascending(s)
    ensures Ascending(s[..|s| - 1])
  {
  }

  /** In ascending order, 1 to n can only be listed one way. */
  lemma {:induction false} AscendingOneTo(s: seq<int>)
    requires Ascending(s) && multiset(s) == multiset(OneTo(|s|))
    ensures s == OneTo(|s|)
    decreases |s|
  {
    if s != [] {
      var front := WithoutLargest(s);
      AscendingOneTo(front);
    }
  }

  lemma WithoutLargest(s: seq<int>) returns (front: seq<int>)
    requires s != [] && Ascending(s) && multiset(s) == multiset(OneTo(|s|))
    ensures |front| == |s| - 1 && Ascending(front) && multiset(front) == multiset(OneTo(|front|))
    ensures front == OneTo(|front|) ==> s == OneTo(|s|)
  {
    hide Ascending;
    LastIsLargest(s);
    AscendingPrefix(s);
    DropLast(s, |s|);
    DropLast(OneTo(|s|), |s|);
    assert OneTo(|s|)[..|s| - 1] == OneTo(|s| - 1);
    front := s[..|s| - 1];
  }

  lemma LastIsLargest(s: seq<int>)
    requires s != [] && Ascending(s)
    requires multiset(s) == multiset(OneTo(|s|))
    ensures s[|s| - 1] == |s| && |OneTo(|s|)| == |s| && OneTo(|s|)[|s| - 1] == |s|
  {
    OneToAt(|s|);
    assert |s| in multiset(OneTo(|s|));
    assert |s| in s;
    assert s[|s| - 1] in multiset(OneTo(|s|));
  }

  lemma DropLast(s: seq<int>, n: nat)
    requires |s| == n > 0
    ensures s == s[..n - 1] + [s[n - 1]]
    ensures multiset(s[..n - 1]) == multiset(s) - multiset{s[n - 1]}
  {
    assert s == s[..n - 1] + [s[n - 1]];
  }

  /** Comparing the sorted copy with 1, 2, ... decides the documented rule. */
  lemma SortedTellsSequential(steps: seq<FlowStep>)
    ensures var sorted := SortByIndex(steps);
      CountsFromOne(sorted) <==> AreSequential(Indices(steps))
  {
    hide SortByIndex, OneTo;
    var sorted := SortByIndex(steps);
    var indices := Indices(sorted);
    SameIndices(sorted, steps);
    OneToAt(|steps|);
    if CountsFromOne(sorted) {
      assert indices == OneTo(|steps|);
    }
    if AreSequential(Indices(steps)) {
      AscendingOneTo(indices);
      assert forall k :: 0 <= k < |sorted| ==> indices[k] == sorted[k].stepIndex;
    }
  }

  /** A list is duplicate-free when no value occurs twice in its multiset. */
  lemma {:induction false} DistinctByCount<T>(s: seq<T>)
    ensures Distinct(s) <==> forall x :: multiset(s)[x] <= 1
  {
    if s != [] {
      var front, last := s[..|s| - 1], s[|s| - 1];
      assert s == front + [last];
      DistinctByCount(front);
      if Distinct(s) {
        assert Distinct(front) && last !in front;
        assert last !in multiset(front);
      }
      if forall x :: multiset(s)[x] <= 1 {
        assert forall x :: multiset(front)[x] <= multiset(s)[x];
        assert multiset(front)[last] == 0;
        assert last !in front;
      }
    }
  }

  /** The order in which the steps are listed does not matter. */
  lemma OrderDoesNotMatter(steps: seq<FlowStep>, permuted: seq<FlowStep>)
    requires multiset(steps) == multiset(permuted)
    ensures ExpectedIssues(steps) == ExpectedIssues(permuted)
  {
    hide AreSequential, Distinct;
    SameIndices(steps, permuted);
    SequentialByMultiset(Indices(steps), Indices(permuted));
    var queue, desk := (x: FlowStep) => x.queueId, (x: FlowStep) => x.deskNumber;
    SameImage(steps, permuted, queue);
    SameImage(steps, permuted, desk);
    assert Queues(steps) == Image(steps, queue) && Queues(permuted) == Image(permuted, queue);
    assert Desks(steps) == Image(steps, desk) && Desks(permuted) == Image(permuted, desk);
    DistinctByCount(Queues(steps));
    DistinctByCount(Queues(permuted));
    DistinctByCount(Desks(steps));
    DistinctByCount(Desks(permuted));
  }

  lemma SequentialByMultiset(s: seq<int>, t: seq<int>)
    requires multiset(s) == multiset(t) && |s| == |t|
    ensures AreSequential(s) <==> AreSequential(t)
  {
  }
}
