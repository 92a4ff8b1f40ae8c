/**
  The binary heap behind the bounded search: the list top_n driven by
  heapq.heappush and heapq.heappushpop. Python's heapq is a min-heap and the
  entries are keyed by -dist, so the root is the entry of LARGEST distance;
  here that is stated directly as a max-heap on dist over the prefix
  a[..size] of an array.

  Comparisons are strict on dist. Where two distances are equal the model
  treats the new entry as "not smaller" (no move, no replacement).
 */
module Heap {
  import opened Ranking

  function Parent(i: nat): nat
    requires i > 0
  {
    (i - 1) / 2
  }

  /** Every entry is no farther than its parent. */
  ghost predicate IsMaxHeap(s: seq<Scored>)
  {
    forall i {:trigger Parent(i)} :: 0 < i < |s| ==> s[Parent(i)].dist >= s[i].dist
  }

  /** The root of a heap holds the largest distance kept. */
  lemma {:induction false} HeapRootIsMax(s: seq<Scored>, i: nat)
    requires IsMaxHeap(s)
    requires i < |s|
    ensures s[0].dist >= s[i].dist
    decreases i
  {
    if i > 0 {
      HeapRootIsMax(s, Parent(i));
    }
  }

  lemma HeapRootIsMaxAll(s: seq<Scored>)
    requires IsMaxHeap(s) && |s| > 0
    ensures forall k :: k in multiset(s) ==> k.dist <= s[0].dist
  {
    forall k | k in multiset(s)
      ensures k.dist <= s[0].dist
    {
      var i :| 0 <= i < |s| && s[i] == k;
      HeapRootIsMax(s, i);
    }
  }

  /** s with the entries at i and j exchanged. */
  function Swapped(s: seq<Scored>, i: nat, j: nat): (t: seq<Scored>)
    requires i < |s| && j < |s|
    ensures |t| == |s| && t[i] == s[j] && t[j] == s[i]
    ensures forall m :: 0 <= m < |s| && m != i && m != j ==> t[m] == s[m]
    ensures multiset(t) == multiset(s)
  {
    s[i := s[j]][j := s[i]]
  }

  /** A heap except possibly between position k and its parent. */
  ghost predicate HeapExceptUp(s: seq<Scored>, k: nat)
  {
    && (forall i {:trigger Parent(i)} :: 0 < i < |s| && i != k ==> s[Parent(i)].dist >= s[i].dist)
    && (0 < k < |s| ==> forall i {:trigger Parent(i)} :: 0 < i < |s| && Parent(i) == k ==> s[Parent(k)].dist >= s[i].dist)
  }

  /** A heap except possibly between position k and its children. */
  ghost predicate HeapExceptDown(s: seq<Scored>, k: nat)
  {
    && (forall i {:trigger Parent(i)} :: 0 < i < |s| && Parent(i) != k ==> s[Parent(i)].dist >= s[i].dist)
    && (0 < k < |s| ==> forall i {:trigger Parent(i)} :: 0 < i < |s| && Parent(i) == k ==> s[Parent(k)].dist >= s[i].dist)
  }

  /** The children of k are exactly 2k+1 and 2k+2. */
  lemma ChildrenOf(k: nat)
    ensures forall i: nat :: i > 0 ==> (Parent(i) == k <==> i == 2 * k + 1 || i == 2 * k + 2)
  {
  }

  lemma SiftDownDone(s: seq<Scored>, k: nat)
    requires k < |s| && HeapExceptDown(s, k)
    requires 2 * k + 1 < |s| ==> s[k].dist >= s[2 * k + 1].dist
    requires 2 * k + 2 < |s| ==> s[k].dist >= s[2 * k + 2].dist
    ensures IsMaxHeap(s)
  {
    ChildrenOf(k);
  }

  lemma SiftUpStep(s: seq<Scored>, k: nat)
    requires 0 < k < |s| && HeapExceptUp(s, k)
    requires s[k].dist > s[Parent(k)].dist
    ensures HeapExceptUp(Swapped(s, k, Parent(k)), Parent(k))
  {
  }

  lemma SiftDownStep(s: seq<Scored>, k: nat, c: nat)
    requires k < |s| && c < |s| && c > 0 && Parent(c) == k && HeapExceptDown(s, k)
    requires 2 * k + 1 < |s| ==> s[c].dist >= s[2 * k + 1].dist
    requires 2 * k + 2 < |s| ==> s[c].dist >= s[2 * k + 2].dist
    requires s[c].dist > s[k].dist
    ensures HeapExceptDown(Swapped(s, k, c), c)
  {
    ChildrenOf(k);
  }

  /** Exchanges two entries of the heap region, leaving the rest of the array alone. */
  method Swap(a: array<Scored>, size: nat, i: nat, j: nat)
    requires i < size && j < size && size <= a.Length
    modifies a
    ensures a[..size] == Swapped(old(a[..size]), i, j)
    ensures a[size..] == old(a[size..])
  {
    ghost var s := a[..size];
    a[i], a[j] := a[j], a[i];
    assert a[..size] == Swapped(s, i, j);
  }

  /**
    Moves the entry at position k towards the root while it is farther than
    its parent (heapq's _siftdown).
   */
  method SiftUp(a: array<Scored>, size: nat, k: nat)
    requires k < size <= a.Length
    requires HeapExceptUp(a[..size], k)
    modifies a
    ensures IsMaxHeap(a[..size])
    ensures multiset(a[..size]) == multiset(old(a[..size]))
    ensures a[size..] == old(a[size..])
  {
    var pos: nat := k;
    while pos > 0 && a[pos].dist > a[Parent(pos)].dist
      invariant pos < size
      invariant HeapExceptUp(a[..size], pos)
      invariant multiset(a[..size]) == multiset(old(a[..size]))
      invariant a[size..] == old(a[size..])
      decreases pos
    {
      var p := Parent(pos);
      SiftUpStep(a[..size], pos);
      Swap(a, size, pos, p);
      pos := p;
    }
  }

  /**
    Moves the entry at position k away from the root while a child is
    farther than it (heapq's _siftup).
   */
  method SiftDown(a: array<Scored>, size: nat, k: nat)
    requires k < size <= a.Length
    requires HeapExceptDown(a[..size], k)
    modifies a
    ensures IsMaxHeap(a[..size])
    ensures multiset(a[..size]) == multiset(old(a[..size]))
    ensures a[size..] == old(a[size..])
  {
    var pos: nat := k;
    while 2 * pos + 1 < size
      invariant pos < size
      invariant HeapExceptDown(a[..size], pos)
      invariant multiset(a[..size]) == multiset(old(a[..size]))
      invariant a[size..] == old(a[size..])
      decreases size - pos
    {
      ghost var s := a[..size];
      var child := 2 * pos + 1;
      if child + 1 < size && a[child + 1].dist > a[child].dist {
        child := child + 1;
      }
      assert s[child] == a[child] && s[pos] == a[pos];
      assert 2 * pos + 1 < size ==> s[child].dist >= s[2 * pos + 1].dist;
      assert 2 * pos + 2 < size ==> s[child].dist >= s[2 * pos + 2].dist;
      if a[child].dist <= a[pos].dist {
        SiftDownDone(s, pos);
        break;
      }
      SiftDownStep(s, pos, child);
      Swap(a, size, pos, child);
      pos := child;
    }
    if 2 * pos + 1 >= size {
      SiftDownDone(a[..size], pos);
    }
  }

  /** heapq.heappush: append x to the heap region and restore the heap. */
  method HeapPush(a: array<Scored>, size: nat, x: Scored)
    requires size < a.Length
    requires IsMaxHeap(a[..size])
    modifies a
    ensures IsMaxHeap(a[..size + 1])
    ensures multiset(a[..size + 1]) == multiset(old(a[..size])) + multiset{x}
    ensures a[size + 1..] == old(a[size + 1..])
  {
    a[size] := x;
    assert a[..size + 1] == old(a[..size]) + [x];
    SiftUp(a, size + 1, size);
  }

  /**
    heapq.heappushpop: push x and pop the root in one step. If the heap is
    empty or x is not strictly closer than the root, x itself comes back and
    the heap is untouched; otherwise the root (the farthest kept entry) is
    returned and x takes its place.
   */
  method HeapPushPop(a: array<Scored>, size: nat, x: Scored) returns (out: Scored)
    requires size <= a.Length
    requires IsMaxHeap(a[..size])
    modifies a
    ensures IsMaxHeap(a[..size])
    ensures multiset(a[..size]) + multiset{out} == multiset(old(a[..size])) + multiset{x}
    ensures size == 0 || x.dist >= old(a[0]).dist ==> out == x && a[..size] == old(a[..size])
    ensures size > 0 && x.dist < old(a[0]).dist ==> out == old(a[0])
    ensures forall k :: k in multiset(a[..size]) ==> k.dist <= out.dist
    ensures out == x || (out in multiset(old(a[..size])) && x.dist < out.dist)
    ensures a[size..] == old(a[size..])
  {
    if size > 0 && x.dist < a[0].dist {
      out := a[0];
      HeapRootIsMaxAll(a[..size]);
      ghost var before := a[..size];
      a[0] := x;
      assert a[..size] == before[0 := x];
      SiftDown(a, size, 0);
    } else {
      out := x;
      if size > 0 {
        HeapRootIsMaxAll(a[..size]);
      }
    }
  }
}
