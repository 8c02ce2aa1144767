/** Heaps of nonces, as the container/heap library promises them: the smallest element sits first and every operation
    keeps the elements. A sorted list is one such heap; only the promises are used. */
module NonceHeaps {

  function Parent(i: int): int
  {
    (i - 1) / 2
  }

  ghost predicate IsHeap(h: seq<nat>)
  {
    forall i {:trigger Parent(i)} :: 0 < i < |h| ==> h[Parent(i)] <= h[i]
  }

  ghost predicate IsSorted(h: seq<nat>)
  {
    forall i, j :: 0 <= i < j < |h| ==> h[i] <= h[j]
  }

  ghost predicate IsAscending(h: seq<nat>)
  {
    forall i, j :: 0 <= i < j < |h| ==> h[i] < h[j]
  }

  ghost predicate NoDuplicates(h: seq<nat>)
  {
    forall i, j :: 0 <= i < j < |h| ==> h[i] != h[j]
  }

  /** The first element of a heap is its smallest. */
  lemma {:induction false} FirstIsSmallest(h: seq<nat>, i: nat)
    requires IsHeap(h) && i < |h|
    ensures h[0] <= h[i]
    decreases i
  {
    if i > 0 {
      FirstIsSmallest(h, Parent(i));
    }
  }

  lemma SortedIsHeap(h: seq<nat>)
    requires IsSorted(h)
    ensures IsHeap(h)
  {
  }

  /** A list without duplicates is as long as the set of its elements. */
  lemma {:induction false} DistinctLength(h: seq<nat>, s: set<nat>)
    requires NoDuplicates(h) && forall x :: x in h <==> x in s
    ensures |h| == |s|
    decreases |h|
  {
    if h == [] {
      assert s == {};
    } else {
      var last := h[|h| - 1];
      forall x
        ensures x in h[..|h| - 1] <==> x in s - {last}
      {
        assert x in h <==> x in h[..|h| - 1] || x == last;
      }
      DistinctLength(h[..|h| - 1], s - {last});
    }
  }

  method Insert(h: seq<nat>, x: nat) returns (r: seq<nat>)
    requires IsSorted(h)
    ensures IsSorted(r) && |r| == |h| + 1 && forall y :: y in r <==> y in h || y == x
    ensures NoDuplicates(h) && x !in h ==> NoDuplicates(r)
  {
    if h == [] || x <= h[0] {
      return [x] + h;
    }
    var rest := Insert(h[1..], x);
    assert forall k :: 0 <= k < |rest| ==> rest[k] in rest;
    r := [h[0]] + rest;
  }

  /** sort.Sort. */
  method Sort(h: seq<nat>) returns (r: seq<nat>)
    ensures IsSorted(r) && |r| == |h| && forall x :: x in r <==> x in h
    ensures NoDuplicates(h) ==> IsAscending(r)
  {
    r := [];
    for i := 0 to |h|
      invariant IsSorted(r) && |r| == i && forall x :: x in r <==> x in h[..i]
      invariant NoDuplicates(h) ==> NoDuplicates(r)
    {
      r := Insert(r, h[i]);
    }
  }

  /** heap.Init. */
  method Init(h: seq<nat>) returns (r: seq<nat>)
    ensures IsHeap(r) && |r| == |h| && forall x :: x in r <==> x in h
    ensures NoDuplicates(h) ==> NoDuplicates(r)
  {
    r := Sort(h);
    SortedIsHeap(r);
  }

  /** heap.Push. */
  method Push(h: seq<nat>, x: nat) returns (r: seq<nat>)
    requires IsHeap(h)
    ensures IsHeap(r) && forall y :: y in r <==> y in h || y == x
    ensures NoDuplicates(h) && x !in h ==> NoDuplicates(r)
  {
    r := Init(h + [x]);
  }

  /** heap.Remove. */
  method Remove(h: seq<nat>, i: nat) returns (r: seq<nat>)
    requires IsHeap(h) && NoDuplicates(h) && i < |h|
    ensures IsHeap(r) && NoDuplicates(r) && |r| == |h| - 1 && forall y :: y in r <==> y in h && y != h[i]
  {
    var rest := h[..i] + h[i + 1..];
    forall y
      ensures y in rest <==> y in h && y != h[i]
    {
      assert h == h[..i] + [h[i]] + h[i + 1..];
    }
    r := Init(rest);
  }

  /** heap.Pop. */
  method Pop(h: seq<nat>) returns (x: nat, r: seq<nat>)
    requires IsHeap(h) && NoDuplicates(h) && h != []
    ensures x == h[0] && IsHeap(r) && NoDuplicates(r) && |r| == |h| - 1 && forall y :: y in r <==> y in h && y != x
  {
    x := h[0];
    r := Remove(h, 0);
  }
}
