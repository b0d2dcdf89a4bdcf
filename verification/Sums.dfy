/** Sums over index sets, for counting arguments. */
module Sums {

  ghost function Sum(xs: seq<nat>, s: set<nat>): nat
    requires forall i | i in s :: i < |xs|
    decreases |s|
  {
    if s == {} then 0
    else
      var i :| i in s;
      xs[i] + Sum(xs, s - {i})
  }

  ghost function Indices(n: nat): (s: set<nat>)
    ensures |s| == n
    ensures forall i :: i in s <==> 0 <= i < n
  {
    if n == 0 then {} else Indices(n - 1) + {n - 1}
  }

  /** cap(0) + cap(1) + … + cap(n-1). */
  ghost function CapSum(cap: nat -> nat, n: nat): nat {
    if n == 0 then 0 else CapSum(cap, n - 1) + cap(n - 1)
  }

  lemma {:induction false} SumSplit(xs: seq<nat>, s: set<nat>, j: nat)
    requires j in s && forall i | i in s :: i < |xs|
    ensures Sum(xs, s) == xs[j] + Sum(xs, s - {j})
    decreases |s|
  {
    var i :| i in s && Sum(xs, s) == xs[i] + Sum(xs, s - {i});
    if i != j {
      SumSplit(xs, s - {i}, j);
      SumSplit(xs, s - {j}, i);
      assert s - {i} - {j} == s - {j} - {i};
    }
  }

  lemma {:induction false} SumFrame(xs: seq<nat>, ys: seq<nat>, s: set<nat>)
    requires forall i | i in s :: i < |xs| && i < |ys| && xs[i] == ys[i]
    ensures Sum(xs, s) == Sum(ys, s)
    decreases |s|
  {
    if s != {} {
      var i :| i in s;
      SumSplit(xs, s, i);
      SumSplit(ys, s, i);
      SumFrame(xs, ys, s - {i});
    }
  }

  lemma SumBump(xs: seq<nat>, j: nat, s: set<nat>)
    requires j in s && forall i | i in s :: i < |xs|
    ensures Sum(xs[j := xs[j] + 1], s) == Sum(xs, s) + 1
  {
    var ys := xs[j := xs[j] + 1];
    SumSplit(xs, s, j);
    SumSplit(ys, s, j);
    SumFrame(xs, ys, s - {j});
  }

  ghost predicate Distinct(order: seq<nat>) {
    forall j, k | 0 <= j < k < |order| :: order[j] != order[k]
  }

  function Members(order: seq<nat>): set<nat> {
    set i | i in order
  }

  lemma {:induction false} DistinctSize(order: seq<nat>)
    requires Distinct(order)
    ensures |Members(order)| == |order|
  {
    if order == [] {
      assert Members(order) == {};
    } else {
      DistinctSize(order[..|order| - 1]);
      MembersOfFront(order);
    }
  }

  lemma SubsetSize(a: set<nat>, b: set<nat>)
    requires a <= b
    ensures |a| <= |b|
    ensures |a| == |b| <==> b <= a
  {
    assert b == a + (b - a);
  }

  ghost predicate NonDecreasing(cap: nat -> nat) {
    forall j, k | j <= k :: cap(j) <= cap(k)
  }

  lemma MembersOfFront(order: seq<nat>)
    requires Distinct(order) && order != []
    ensures var m := |order| - 1;
            order[m] !in Members(order[..m]) && Members(order) == Members(order[..m]) + {order[m]}
  {
    var m := |order| - 1;
    assert order == order[..m] + [order[m]];
  }

  lemma SumInsert(xs: seq<nat>, s: set<nat>, j: nat)
    requires j !in s && j < |xs| && forall i | i in s :: i < |xs|
    ensures Sum(xs, s + {j}) == Sum(xs, s) + xs[j]
  {
    assert s + {j} - {j} == s;
    SumSplit(xs, s + {j}, j);
  }

  /** When the k-th of a list of distinct indices is worth at most `cap(k)`, the sum is bounded. */
  lemma {:induction false} SumOfRanked(xs: seq<nat>, order: seq<nat>, cap: nat -> nat)
    requires Distinct(order)
    requires forall k | 0 <= k < |order| :: order[k] < |xs| && xs[order[k]] <= cap(k)
    ensures Sum(xs, Members(order)) <= CapSum(cap, |order|)
  {
    if order == [] {
      assert Members(order) == {};
    } else {
      var m := |order| - 1;
      SumOfRanked(xs, order[..m], cap);
      MembersOfFront(order);
      SumInsert(xs, Members(order[..m]), order[m]);
    }
  }

  lemma {:induction false} SumOfOthers(xs: seq<nat>, rest: set<nat>, cap: nat -> nat, m: nat, n: nat)
    requires NonDecreasing(cap) && n == m + |rest|
    requires forall i | i in rest :: i < |xs| && xs[i] <= cap(m)
    ensures CapSum(cap, m) + Sum(xs, rest) <= CapSum(cap, n)
    decreases |rest|
  {
    if rest != {} {
      var i :| i in rest;
      SumSplit(xs, rest, i);
      SumOfOthers(xs, rest - {i}, cap, m, n - 1);
      assert cap(m) <= cap(n - 1);
    }
  }

  /** Ranked indices are worth at most the cap of their rank, all others at most the cap of the
      next rank: then the whole sum is at most the one over a complete ranking. */
  lemma SumOfRanking(xs: seq<nat>, order: seq<nat>, cap: nat -> nat)
    requires Distinct(order)
    requires NonDecreasing(cap)
    requires forall k | 0 <= k < |order| :: order[k] < |xs| && xs[order[k]] <= cap(k)
    requires forall i | 0 <= i < |xs| && i !in order :: xs[i] <= cap(|order|)
    ensures |order| <= |xs|
    ensures Sum(xs, Indices(|xs|)) <= CapSum(cap, |xs|)
  {
    SumOfRanked(xs, order, cap);
    DistinctSize(order);
    var rest := Partition(xs, Indices(|xs|), Members(order));
    SumOfOthers(xs, rest, cap, |order|, |xs|);
  }

  lemma Partition(xs: seq<nat>, all: set<nat>, part: set<nat>) returns (rest: set<nat>)
    requires part <= all && forall i | i in all :: i < |xs|
    ensures forall i :: i in rest <==> i in all && i !in part
    ensures |part| + |rest| == |all|
    ensures Sum(xs, all) == Sum(xs, part) + Sum(xs, rest)
  {
    rest := all - part;
    assert part + rest == all;
    SumUnion(xs, part, rest);
  }

  lemma {:induction false} SumUnion(xs: seq<nat>, s: set<nat>, t: set<nat>)
    requires s !! t && forall i | i in s + t :: i < |xs|
    ensures Sum(xs, s + t) == Sum(xs, s) + Sum(xs, t)
    decreases |s|
  {
    if s == {} {
      assert s + t == t;
    } else {
      var i :| i in s;
      assert i in s + t;
      SumSplit(xs, s, i);
      SumSplit(xs, s + t, i);
      assert s + t - {i} == (s - {i}) + t;
      SumUnion(xs, s - {i}, t);
    }
  }

  lemma {:induction false} SumOfZeros(xs: seq<nat>, s: set<nat>)
    requires forall i | i in s :: i < |xs| && xs[i] == 0
    ensures Sum(xs, s) == 0
    decreases |s|
  {
    if s != {} {
      var i :| i in s;
      SumSplit(xs, s, i);
      SumOfZeros(xs, s - {i});
    }
  }
}
