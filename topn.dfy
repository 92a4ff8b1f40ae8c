/**
  get_top_n_similar_images: one pass over the scanned documents keeping the
  n closest in a bounded heap, then an in-place sort into ascending distance.
 */
module TopN {
  import opened Ranking
  import opened Heap

  /**
    top_n.sort(reverse=True) on (-dist, dist, document) entries: the array
    ends up in ascending order of distance, a permutation of what it held.
   */
  method SortAscending(a: array<Scored>)
    modifies a
    ensures SortedByDist(a[..])
    ensures multiset(a[..]) == multiset(old(a[..]))
  {
    ghost var orig := a[..];
    var i := 0;
    while i < a.Length
      invariant 0 <= i <= a.Length
      invariant SortedByDist(a[..i])
      invariant multiset(a[..]) == multiset(orig)
    {
      var j := i;
      InsertionStart(a[..], i);
      while j > 0 && a[j - 1].dist > a[j].dist
        invariant 0 <= j <= i
        invariant SortedExcept(a[..], i, j)
        invariant multiset(a[..]) == multiset(orig)
      {
        InsertionStep(a[..], i, j);
        ghost var s := a[..];
        a[j - 1], a[j] := a[j], a[j - 1];
        assert a[..] == Swapped(s, j - 1, j);
        j := j - 1;
      }
      InsertionDone(a[..], i, j);
      i := i + 1;
    }
  }

  /** s[..i+1] is sorted except possibly for the pairs ending at the hole j. */
  ghost predicate SortedExcept(s: seq<Scored>, i: nat, j: nat)
    requires i < |s|
  {
    forall p, q :: 0 <= p < q <= i && q != j ==> s[p].dist <= s[q].dist
  }

  lemma InsertionStart(s: seq<Scored>, i: nat)
    requires i < |s| && SortedByDist(s[..i])
    ensures SortedExcept(s, i, i)
  {
    assert forall p :: 0 <= p < i ==> s[..i][p] == s[p];
  }

  lemma InsertionStep(s: seq<Scored>, i: nat, j: nat)
    requires 0 < j <= i < |s| && SortedExcept(s, i, j)
    requires s[j - 1].dist > s[j].dist
    ensures SortedExcept(Swapped(s, j - 1, j), i, j - 1)
  {
  }

  lemma InsertionDone(s: seq<Scored>, i: nat, j: nat)
    requires j <= i < |s| && SortedExcept(s, i, j)
    requires j > 0 ==> s[j - 1].dist <= s[j].dist
    ensures SortedByDist(s[..i + 1])
  {
  }

  lemma KeepCountStep(n: int, i: nat)
    ensures KeepCount(n, i) < n ==> KeepCount(n, i) == i && KeepCount(n, i + 1) == i + 1
    ensures KeepCount(n, i) >= n ==> KeepCount(n, i + 1) == KeepCount(n, i)
  {
  }

  lemma KeepCountRoom(n: int, i: nat, m: nat)
    requires i < m
    ensures KeepCount(n, i) < n ==> KeepCount(n, i) < KeepCount(n, m)
  {
  }

  /** While the heap is not full nothing has been discarded, so pushing keeps dominance. */
  lemma PushKeepsDominance(kept: multiset<Scored>, discarded: multiset<Scored>, x: Scored, i: nat)
    requires |kept| == i && |kept + discarded| == i
    ensures discarded == multiset{}
    ensures Dominates(kept + multiset{x}, discarded)
  {
  }

  /**
    Replacing through pushpop keeps dominance: what comes out is either the
    new entry or the farthest kept one, and everything kept afterwards is no
    farther than it.
   */
  lemma PushPopKeepsDominance(kept: multiset<Scored>, discarded: multiset<Scored>, x: Scored,
                              out: Scored, kept': multiset<Scored>)
    requires Dominates(kept, discarded)
    requires kept' + multiset{out} == kept + multiset{x}
    requires forall k :: k in kept' ==> k.dist <= out.dist
    requires out == x || (out in kept && x.dist < out.dist)
    ensures Dominates(kept', discarded + multiset{out})
  {
    forall k, d | k in kept' && d in discarded + multiset{out}
      ensures k.dist <= d.dist
    {
      if d != out {
        assert k in kept + multiset{x};
        if k != x || k in kept {
          assert k in kept;
        } else if out != x {
          assert out.dist <= d.dist;
        }
      }
    }
  }

  /** Splitting the scanned candidates into kept and discarded yields the IsTopN conditions. */
  lemma SplitGivesTopN(kept: seq<Scored>, discarded: multiset<Scored>, cands: seq<Scored>, n: int)
    requires multiset(kept) + discarded == multiset(cands)
    requires Dominates(multiset(kept), discarded)
    requires |kept| == KeepCount(n, |cands|) && SortedByDist(kept)
    ensures IsTopN(kept, cands, n)
  {
    assert multiset(cands) - multiset(kept) == discarded;
  }

  /** The rows of a correct answer: how many, in what order, and where each comes from. */
  lemma ProjectedRows(kept: seq<Scored>, cands: seq<Scored>, n: int)
    requires IsTopN(kept, cands, n)
    ensures |Project(kept)| == KeepCount(n, |cands|)
    ensures forall i, j :: 0 <= i < j < |kept| ==> Project(kept)[i].dist <= Project(kept)[j].dist
    ensures forall i :: 0 <= i < |kept| ==> exists c :: c in cands && Project(kept)[i] == ToMatch(c)
  {
    forall i | 0 <= i < |kept|
      ensures exists c :: c in cands && Project(kept)[i] == ToMatch(c)
    {
      assert kept[i] in multiset(cands);
      assert kept[i] in cands && Project(kept)[i] == ToMatch(kept[i]);
    }
  }

  /**
    The state of the scan after the documents seen so far: the heap holds
    KeepCount(n, |seen|) of them, and together with the discarded ones makes
    up exactly what was seen, every kept entry as close as any discarded one.
   */
  ghost predicate ScanState(heap: seq<Scored>, discarded: multiset<Scored>, seen: seq<Scored>, n: int)
  {
    && |heap| == KeepCount(n, |seen|)
    && IsMaxHeap(heap)
    && multiset(heap) + discarded == multiset(seen)
    && Dominates(multiset(heap), discarded)
  }

  /** Pushing onto a heap that is not yet full keeps the scan state. */
  lemma ScanPush(heap: seq<Scored>, heap': seq<Scored>, discarded: multiset<Scored>,
                 seen: seq<Scored>, x: Scored, n: int)
    requires ScanState(heap, discarded, seen, n) && |heap| < n
    requires IsMaxHeap(heap') && |heap'| == |heap| + 1
    requires multiset(heap') == multiset(heap) + multiset{x}
    ensures ScanState(heap', discarded, seen + [x], n)
  {
    KeepCountStep(n, |seen|);
    PushKeepsDominance(multiset(heap), discarded, x, |seen|);
    assert multiset(seen + [x]) == multiset(seen) + multiset{x};
  }

  /** A pushpop on the full heap keeps the scan state, with what came out discarded. */
  lemma ScanPushPop(heap: seq<Scored>, heap': seq<Scored>, discarded: multiset<Scored>,
                    seen: seq<Scored>, x: Scored, out: Scored, n: int)
    requires ScanState(heap, discarded, seen, n) && |heap| >= n
    requires IsMaxHeap(heap') && |heap'| == |heap|
    requires multiset(heap') + multiset{out} == multiset(heap) + multiset{x}
    requires forall k :: k in multiset(heap') ==> k.dist <= out.dist
    requires out == x || (out in multiset(heap) && x.dist < out.dist)
    ensures ScanState(heap', discarded + multiset{out}, seen + [x], n)
  {
    KeepCountStep(n, |seen|);
    PushPopKeepsDominance(multiset(heap), discarded, x, out, multiset(heap'));
    assert multiset(seen + [x]) == multiset(seen) + multiset{x};
    var after := multiset(heap');
    assert after + (discarded + multiset{out}) == (after + multiset{out}) + discarded;
  }

  /**
    One iteration of the scan: heappush while fewer than n entries are kept,
    heappushpop once the heap is full.
   */
  method Offer(a: array<Scored>, size: nat, x: Scored, n: int,
               ghost discarded: multiset<Scored>, ghost seen: seq<Scored>)
    returns (size': nat, ghost discarded': multiset<Scored>)
    requires size <= a.Length && ScanState(a[..size], discarded, seen, n)
    requires size < n ==> size < a.Length
    modifies a
    ensures size' <= a.Length && ScanState(a[..size'], discarded', seen + [x], n)
  {
    ghost var heap := a[..size];
    if size < n {
      HeapPush(a, size, x);
      ScanPush(heap, a[..size + 1], discarded, seen, x, n);
      size', discarded' := size + 1, discarded;
    } else {
      var out := HeapPushPop(a, size, x);
      ScanPushPop(heap, a[..size], discarded, seen, x, out, n);
      size', discarded' := size, discarded + multiset{out};
    }
  }

  /**
    The scan and the final sort: every document is offered to the bounded
    heap once, and the heap is then sorted in place. The list it leaves is a
    correct top-n answer.
   */
  method SelectClosest(cands: seq<Scored>, n: int) returns (sorted: seq<Scored>)
    ensures IsTopN(sorted, cands, n)
  {
    // The array is given its final capacity up front; the source grows its
    // list with each push instead. Only the prefix a[..size] is the heap.
    var a := new Scored[KeepCount(n, |cands|)];
    var size: nat := 0;
    ghost var discarded: multiset<Scored> := multiset{};
    for i := 0 to |cands|
      invariant size <= a.Length
      invariant ScanState(a[..size], discarded, cands[..i], n)
    {
      assert cands[..i + 1] == cands[..i] + [cands[i]];
      KeepCountRoom(n, i, |cands|);
      size, discarded := Offer(a, size, cands[i], n, discarded, cands[..i]);
    }
    assert cands[..|cands|] == cands;
    assert a[..size] == a[..];
    ghost var heap := a[..];
    assert ScanState(heap, discarded, cands, n);
    SortAscending(a);
    sorted := a[..];
    assert multiset(sorted) == multiset(heap);
    SplitGivesTopN(sorted, discarded, cands, n);
  }

  /**
    get_top_n_similar_images over the documents of one cursor scan, each
    paired with its distance to the query: the rows of the kept entries in
    ascending distance. kept is that list before projection.
   */
  method GetTopNSimilarImages(cands: seq<Scored>, n: int) returns (r: seq<Match>, ghost kept: seq<Scored>)
    ensures |r| == KeepCount(n, |cands|)
    ensures forall i, j :: 0 <= i < j < |r| ==> r[i].dist <= r[j].dist
    ensures forall i :: 0 <= i < |r| ==> exists c :: c in cands && r[i] == ToMatch(c)
    ensures IsTopN(kept, cands, n)
    ensures r == Project(kept)
  {
    var sorted := SelectClosest(cands, n);
    ProjectedRows(sorted, cands, n);
    kept := sorted;
    r := Project(sorted);
  }

  /** The three-document search for the two closest: rows for the first and the third document. */
  method ThreeDocumentSearch() returns (r: seq<Match>)
    ensures r == [Match("a.jpg", "A", "", "", 1), Match("c.jpg", "C", "", "", 3)]
  {
    ghost var kept;
    r, kept := GetTopNSimilarImages([DocA, DocB, DocC], 2);
    ThreeDocumentsTopTwo(kept);
  }
}
