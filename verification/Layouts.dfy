/** Ownership of the nodes of several linked lists: every node is in exactly one list, exactly once. */
module Layouts {

  /** All the nodes of a family of lists, with multiplicity. */
  ghost function Union<T>(lists: seq<seq<T>>): multiset<T> {
    if lists == [] then multiset{} else multiset(lists[0]) + Union(lists[1..])
  }

  /** The free list and the other lists hold each node of `all` exactly once, and nothing else. */
  ghost predicate Partition<T>(all: set<T>, free: seq<T>, lists: seq<seq<T>>) {
    multiset(free) + Union(lists) == multiset(all)
  }

  ghost predicate Distinct<T>(s: seq<T>) {
    forall j, k :: 0 <= j < k < |s| ==> s[j] != s[k]
  }

  ghost predicate Apart<T>(s: seq<T>, t: seq<T>) {
    forall x :: x in s ==> x !in t
  }

  ghost function TotalLength<T>(lists: seq<seq<T>>): nat {
    if lists == [] then 0 else |lists[0]| + TotalLength(lists[1..])
  }

  lemma {:induction false} UnionUpdate<T>(lists: seq<seq<T>>, i: nat, s: seq<T>)
    requires i < |lists|
    ensures Union(lists[i := s]) + multiset(lists[i]) == Union(lists) + multiset(s)
  {
    if i == 0 {
      assert lists[i := s][1..] == lists[1..];
    } else {
      UnionUpdate(lists[1..], i - 1, s);
      var u, u' := Union(lists[1..]), Union(lists[1..][i - 1 := s]);
      assert lists[i := s][1..] == lists[1..][i - 1 := s];
      assert Union(lists[i := s]) == multiset(lists[0]) + u';
      assert u' + multiset(lists[i]) == u + multiset(s);
      assert (multiset(lists[0]) + u') + multiset(lists[i]) == multiset(lists[0]) + (u' + multiset(lists[i]));
    }
  }

  lemma {:induction false} UnionSize<T>(lists: seq<seq<T>>)
    ensures |Union(lists)| == TotalLength(lists)
  {
    if lists != [] {
      UnionSize(lists[1..]);
    }
  }

  lemma {:induction false} UnionEmpty<T>(lists: seq<seq<T>>)
    requires forall i :: 0 <= i < |lists| ==> lists[i] == []
    ensures Union(lists) == multiset{}
  {
    if lists != [] {
      UnionEmpty(lists[1..]);
    }
  }

  lemma {:induction false} UnionContains<T>(lists: seq<seq<T>>, i: nat)
    requires i < |lists|
    ensures multiset(lists[i]) <= Union(lists)
  {
    if i > 0 {
      UnionContains(lists[1..], i - 1);
    }
  }

  lemma {:induction false} UnionContainsTwo<T>(lists: seq<seq<T>>, i: nat, j: nat)
    requires i < j < |lists|
    ensures multiset(lists[i]) + multiset(lists[j]) <= Union(lists)
  {
    if i == 0 {
      UnionContains(lists[1..], j - 1);
    } else {
      UnionContainsTwo(lists[1..], i - 1, j - 1);
    }
  }

  lemma DistinctConcat<T>(s: seq<T>, t: seq<T>)
    requires Distinct(s) && Distinct(t) && Apart(s, t)
    ensures Distinct(s + t)
  {
    forall j, k | 0 <= j < k < |s + t|
      ensures (s + t)[j] != (s + t)[k]
    {
      if j < |s| {
        assert (s + t)[j] in s;
        assert k >= |s| ==> (s + t)[k] in t;
      }
    }
  }

  /** A list all of whose nodes have multiplicity at most one has no repetition. */
  lemma DistinctFromMultiset<T>(s: seq<T>, all: set<T>)
    requires multiset(s) <= multiset(all)
    ensures Distinct(s)
    ensures forall x :: x in s ==> x in all
  {
    forall j, k | 0 <= j < k < |s|
      ensures s[j] != s[k]
    {
      assert s == s[..k] + s[k..];
      assert s[j] in multiset(s[..k]) && s[k] in multiset(s[k..]);
      assert multiset(s) == multiset(s[..k]) + multiset(s[k..]);
      assert s[j] == s[k] ==> multiset(s)[s[j]] >= 2;
      assert multiset(all)[s[j]] <= 1;
    }
    forall x | x in s
      ensures x in all
    {
      assert x in multiset(s);
      assert multiset(s)[x] <= multiset(all)[x];
    }
  }

  lemma ApartFromMultiset<T>(s: seq<T>, t: seq<T>, all: set<T>)
    requires multiset(s) + multiset(t) <= multiset(all)
    ensures Apart(s, t)
  {
    forall x | x in s
      ensures x !in t
    {
      assert x in multiset(s);
      assert (multiset(s) + multiset(t))[x] <= multiset(all)[x] <= 1;
      assert x in t ==> x in multiset(t);
    }
  }

  /** What the single multiset equation means: no list is cyclic, no two lists share a node,
      and the lists together are exactly the nodes. */
  lemma PartitionFacts<T>(all: set<T>, free: seq<T>, lists: seq<seq<T>>)
    requires Partition(all, free, lists)
    ensures Distinct(free)
    ensures forall x :: x in free ==> x in all
    ensures forall i :: 0 <= i < |lists| ==> Distinct(lists[i]) && Apart(lists[i], free)
    ensures forall i, x :: 0 <= i < |lists| && x in lists[i] ==> x in all
    ensures forall i, j :: 0 <= i < |lists| && 0 <= j < |lists| && i != j ==> Apart(lists[i], lists[j])
    ensures |all| == |free| + TotalLength(lists)
  {
    DistinctFromMultiset(free, all);
    forall i | 0 <= i < |lists|
      ensures Distinct(lists[i]) && Apart(lists[i], free)
      ensures forall x :: x in lists[i] ==> x in all
    {
      UnionContains(lists, i);
      DistinctFromMultiset(lists[i], all);
      ApartFromMultiset(lists[i], free, all);
    }
    forall i, j | 0 <= i < |lists| && 0 <= j < |lists| && i != j
      ensures Apart(lists[i], lists[j])
    {
      UnionContainsTwo(lists, if i < j then i else j, if i < j then j else i);
      ApartFromMultiset(lists[i], lists[j], all);
    }
    UnionSize(lists);
    assert |multiset(free) + Union(lists)| == |free| + |Union(lists)|;
  }

  /** Moving nodes from the free list to a list keeps the partition. */
  lemma PartitionMove<T>(all: set<T>, free: seq<T>, lists: seq<seq<T>>, i: nat, free': seq<T>, s: seq<T>)
    requires Partition(all, free, lists)
    requires i < |lists|
    requires multiset(free') + multiset(s) == multiset(free) + multiset(lists[i])
    ensures Partition(all, free', lists[i := s])
  {
    UnionUpdate(lists, i, s);
    var u, u' := Union(lists), Union(lists[i := s]);
    assert u' + multiset(lists[i]) == u + multiset(s);
    var f, f', c, c' := multiset(free), multiset(free'), multiset(lists[i]), multiset(s);
    assert (f' + u') + c == f' + (u + c');
    assert f' + (u + c') == (f' + c') + u;
    assert (f + c) + u == (f + u) + c;
    assert ((f' + u') + c) - c == f' + u' && (multiset(all) + c) - c == multiset(all);
  }

  /** Taking nodes off the top of the free list onto the end of a list keeps the partition. */
  lemma PartitionTake<T>(all: set<T>, taken: seq<T>, free: seq<T>, lists: seq<seq<T>>, i: nat)
    requires Partition(all, taken + free, lists) && i < |lists|
    ensures Partition(all, free, lists[i := lists[i] + taken])
  {
    assert multiset(taken + free) == multiset(taken) + multiset(free);
    assert multiset(lists[i] + taken) == multiset(lists[i]) + multiset(taken);
    PartitionMove(all, taken + free, lists, i, free, lists[i] + taken);
  }
}
