/**
 * The ranking step of `simulateCost` (src/lib/actions.ts): the costs are
 * sorted in place by `details.sort((a, b) => a.totalCost - b.totalCost)`,
 * which JavaScript guarantees to be stable, then numbered from 1; the
 * savings are the cost of the current company minus the best cost, floored
 * at 0.
 */
module Ranking {
  import opened Wrappers
  import opened Data

  const CurrentCompanyName: string := "Tu Compañía Actual"

  predicate SortedByCost(s: seq<CompanyCost>) {
    forall i, j :: 0 <= i < j < |s| ==> s[i].totalCost <= s[j].totalCost
  }

  /** The elements of `s` that cost exactly `v`, in their order in `s`. */
  function WithCost(s: seq<CompanyCost>, v: real): seq<CompanyCost> {
    if s == [] then [] else (if s[0].totalCost == v then [s[0]] else []) + WithCost(s[1..], v)
  }

  /** `x` placed after every element of `sorted` that does not cost more than it. */
  function Insert(sorted: seq<CompanyCost>, x: CompanyCost): seq<CompanyCost> {
    if sorted == [] then [x]
    else if sorted[|sorted| - 1].totalCost > x.totalCost then Insert(sorted[..|sorted| - 1], x) + [sorted[|sorted| - 1]]
    else sorted + [x]
  }

  /** The stable sort by total cost, as insertion of each element in turn. */
  function StableSort(s: seq<CompanyCost>): seq<CompanyCost> {
    if s == [] then [] else Insert(StableSort(s[..|s| - 1]), s[|s| - 1])
  }

  lemma {:induction false} WithCostAppend(a: seq<CompanyCost>, b: seq<CompanyCost>, v: real)
    ensures WithCost(a + b, v) == WithCost(a, v) + WithCost(b, v)
  {
    if a != [] {
      assert (a + b)[1..] == a[1..] + b;
      WithCostAppend(a[1..], b, v);
    } else {
      assert a + b == b;
    }
  }

  lemma {:induction false} InsertPermutes(sorted: seq<CompanyCost>, x: CompanyCost)
    ensures multiset(Insert(sorted, x)) == multiset(sorted) + multiset{x}
  {
    if sorted != [] && sorted[|sorted| - 1].totalCost > x.totalCost {
      var init := sorted[..|sorted| - 1];
      InsertPermutes(init, x);
      assert sorted == init + [sorted[|sorted| - 1]];
    }
  }

  /** Insertion keeps every cost under a bound that the list and the new element respect. */
  lemma {:induction false} InsertBounded(sorted: seq<CompanyCost>, x: CompanyCost, bound: real)
    requires forall i :: 0 <= i < |sorted| ==> sorted[i].totalCost <= bound
    requires x.totalCost <= bound
    ensures forall i :: 0 <= i < |Insert(sorted, x)| ==> Insert(sorted, x)[i].totalCost <= bound
  {
    if sorted != [] && sorted[|sorted| - 1].totalCost > x.totalCost {
      InsertBounded(sorted[..|sorted| - 1], x, bound);
    }
  }

  lemma {:induction false} InsertSorted(sorted: seq<CompanyCost>, x: CompanyCost)
    requires SortedByCost(sorted)
    ensures SortedByCost(Insert(sorted, x))
  {
    if sorted != [] && sorted[|sorted| - 1].totalCost > x.totalCost {
      var init := sorted[..|sorted| - 1];
      var last := sorted[|sorted| - 1];
      InsertSorted(init, x);
      InsertBounded(init, x, last.totalCost);
      var r := Insert(init, x);
      assert Insert(sorted, x) == r + [last];
    }
  }

  lemma {:induction false} InsertKeepsTies(sorted: seq<CompanyCost>, x: CompanyCost, v: real)
    ensures WithCost(Insert(sorted, x), v) == WithCost(sorted, v) + WithCost([x], v)
  {
    if sorted != [] {
      var init := sorted[..|sorted| - 1];
      var last := sorted[|sorted| - 1];
      assert sorted == init + [last];
      WithCostAppend(init, [last], v);
      if last.totalCost > x.totalCost {
        InsertKeepsTies(init, x, v);
        WithCostAppend(Insert(init, x), [last], v);
        assert x.totalCost == v ==> last.totalCost != v;
      } else {
        WithCostAppend(sorted, [x], v);
      }
    }
  }

  /** The sorted result is in nondecreasing order of total cost. */
  lemma {:induction false} StableSortSorted(s: seq<CompanyCost>)
    ensures SortedByCost(StableSort(s))
  {
    if s != [] {
      StableSortSorted(s[..|s| - 1]);
      InsertSorted(StableSort(s[..|s| - 1]), s[|s| - 1]);
    }
  }

  /** The sorted result is a permutation of the input. */
  lemma {:induction false} StableSortPermutes(s: seq<CompanyCost>)
    ensures multiset(StableSort(s)) == multiset(s)
  {
    if s != [] {
      var init, last := s[..|s| - 1], s[|s| - 1];
      assert s == init + [last];
      assert StableSort(s) == Insert(StableSort(init), last);
      StableSortPermutes(init);
      InsertPermutes(StableSort(init), last);
      calc {
        multiset(StableSort(s));
        multiset(StableSort(init)) + multiset{last};
        multiset(init) + multiset{last};
        multiset(s);
      }
    }
  }

  /** Stability: the elements of any one cost keep their input order. */
  lemma {:induction false} StableSortKeepsTies(s: seq<CompanyCost>, v: real)
    ensures WithCost(StableSort(s), v) == WithCost(s, v)
  {
    if s != [] {
      var init := s[..|s| - 1];
      StableSortKeepsTies(init, v);
      InsertKeepsTies(StableSort(init), s[|s| - 1], v);
      assert s == init + [s[|s| - 1]];
      WithCostAppend(init, [s[|s| - 1]], v);
    }
  }

  /** Insertion places `x` right after the last element that does not cost more than it. */
  lemma {:induction false} InsertSplit(sorted: seq<CompanyCost>, x: CompanyCost, j: nat)
    requires j <= |sorted|
    requires forall k :: j <= k < |sorted| ==> sorted[k].totalCost > x.totalCost
    requires j == 0 || sorted[j - 1].totalCost <= x.totalCost
    ensures Insert(sorted, x) == sorted[..j] + [x] + sorted[j..]
    decreases |sorted|
  {
    if j < |sorted| {
      var init := sorted[..|sorted| - 1];
      InsertSplit(init, x, j);
      assert init[..j] == sorted[..j];
      assert sorted[j..] == init[j..] + [sorted[|sorted| - 1]];
    } else {
      assert sorted[..j] == sorted && sorted[j..] == [];
    }
  }

  /** The inner loop: every element of `a[..i]` that costs more than `x` moves one place right; `j` is the gap left. */
  method ShiftLarger(a: array<CompanyCost>, i: nat, x: CompanyCost) returns (j: nat)
    requires i < a.Length
    modifies a
    ensures j <= i
    ensures forall k :: 0 <= k < j ==> a[k] == old(a[k])
    ensures forall k :: j < k <= i ==> a[k] == old(a[k - 1])
    ensures forall k :: i < k < a.Length ==> a[k] == old(a[k])
    ensures forall k :: j <= k < i ==> old(a[k]).totalCost > x.totalCost
    ensures j == 0 || old(a[j - 1]).totalCost <= x.totalCost
  {
    j := i;
    while j > 0 && a[j - 1].totalCost > x.totalCost
      invariant j <= i
      invariant forall k :: 0 <= k < j ==> a[k] == old(a[k])
      invariant forall k :: j < k <= i ==> a[k] == old(a[k - 1])
      invariant forall k :: i < k < a.Length ==> a[k] == old(a[k])
      invariant forall k :: j <= k < i ==> old(a[k]).totalCost > x.totalCost
    {
      a[j] := a[j - 1];
      j := j - 1;
    }
  }

  /** One step of the insertion sort: `a[i]` moves left past every larger cost in the sorted `a[..i]`. */
  method InsertAt(a: array<CompanyCost>, i: nat)
    requires i < a.Length
    modifies a
    ensures a[..i + 1] == Insert(old(a[..i]), old(a[i]))
    ensures a[i + 1..] == old(a[i + 1..])
  {
    ghost var sorted := a[..i];
    var x := a[i];
    var j := ShiftLarger(a, i, x);
    a[j] := x;
    InsertSplit(sorted, x, j);
    ghost var expected := sorted[..j] + [x] + sorted[j..];
    forall k | 0 <= k <= i ensures a[k] == expected[k] {
      if k > j { assert expected[k] == sorted[k - 1]; }
    }
    assert a[..i + 1] == expected;
  }

  /** `details.sort(...)`, as an in-place insertion sort proved to compute StableSort. */
  method SortByTotalCost(a: array<CompanyCost>)
    modifies a
    ensures a[..] == StableSort(old(a[..]))
  {
    ghost var original := a[..];
    for i := 0 to a.Length
      invariant a[..i] == StableSort(original[..i])
      invariant a[i..] == original[i..]
    {
      assert a[i] == original[i];
      InsertAt(a, i);
      assert original[..i + 1][..i] == original[..i];
    }
    assert original[..a.Length] == original;
  }

  /** `details.map((detail, index) => ({ ...detail, rank: index + 1 }))`. */
  function AssignRanks(s: seq<CompanyCost>): (r: seq<CompanyCost>)
    ensures |r| == |s|
    ensures forall i :: 0 <= i < |s| ==> r[i].rank == i + 1 && r[i].(rank := s[i].rank) == s[i]
  {
    seq(|s|, i requires 0 <= i < |s| => s[i].(rank := i + 1))
  }

  /** `details.find(d => d.name === name)`, as the position of the first element with that name. */
  function FindByName(s: seq<CompanyCost>, name: string): (r: Option<nat>)
    ensures r.Some? ==> r.value < |s| && s[r.value].name == name
                        && forall j :: 0 <= j < r.value ==> s[j].name != name
    ensures r.None? <==> forall j :: 0 <= j < |s| ==> s[j].name != name
  {
    if s == [] then None
    else if s[0].name == name then Some(0)
    else match FindByName(s[1..], name)
      case None => None
      case Some(i) => Some(i + 1)
  }

  /** The savings: current company's cost minus the cost ranked first, 0 when there is no current company, floored at 0. */
  function Savings(details: seq<CompanyCost>): (r: real)
    requires |details| > 0
    ensures r >= 0.0
    ensures FindByName(details, CurrentCompanyName).None? ==> r == 0.0
    ensures FindByName(details, CurrentCompanyName).Some? ==>
      var current := details[FindByName(details, CurrentCompanyName).value].totalCost;
      r == (if current > details[0].totalCost then current - details[0].totalCost else 0.0)
  {
    var savings := match FindByName(details, CurrentCompanyName)
      case Some(i) => details[i].totalCost - details[0].totalCost
      case None => 0.0;
    if savings > 0.0 then savings else 0.0
  }

  /** On a sorted list the floor never applies: the savings are exactly the difference to the first. */
  lemma SavingsOfSorted(details: seq<CompanyCost>)
    requires |details| > 0 && SortedByCost(details)
    requires FindByName(details, CurrentCompanyName).Some?
    ensures Savings(details) == details[FindByName(details, CurrentCompanyName).value].totalCost - details[0].totalCost
  {
    var i := FindByName(details, CurrentCompanyName).value;
    if i > 0 {
      assert details[0].totalCost <= details[i].totalCost;
    }
  }
}
