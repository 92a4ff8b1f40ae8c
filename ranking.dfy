/**
  The catalog records scanned by the similarity search, the tuples it returns,
  and the specification of a correct top-N selection.

  Distances are taken as given integer keys: the Euclidean norm of the
  feature difference is computed outside this model.
 */
module Ranking {

  /** The fields of a catalog document that the search projects out. */
  datatype Document = Document(imagePath: string, name: string, description: string, date: string)

  /** A scanned document together with its distance to the query. */
  datatype Scored = Scored(dist: int, doc: Document)

  /** One returned row: (image_path, name, description, date, dist). */
  datatype Match = Match(imagePath: string, name: string, description: string, date: string, dist: int)

  function ToMatch(s: Scored): (m: Match)
    ensures m.dist == s.dist && m.imagePath == s.doc.imagePath && m.name == s.doc.name
    ensures m.description == s.doc.description && m.date == s.doc.date
  {
    Match(s.doc.imagePath, s.doc.name, s.doc.description, s.doc.date, s.dist)
  }

  /** The final list comprehension: one row per kept entry, in the same order. */
  function Project(s: seq<Scored>): (r: seq<Match>)
    ensures |r| == |s|
    ensures forall i :: 0 <= i < |s| ==> r[i] == ToMatch(s[i])
  {
    if s == [] then [] else [ToMatch(s[0])] + Project(s[1..])
  }

  /** How many entries a bounded selection of size n keeps out of m candidates. */
  function KeepCount(n: int, m: nat): (k: nat)
    ensures k <= m
    ensures n <= 0 ==> k == 0
    ensures 0 <= n <= m ==> k == n
    ensures n >= m ==> k == m
  {
    if n <= 0 then 0 else if n < m then n else m
  }

  ghost predicate SortedByDist(s: seq<Scored>)
  {
    forall i, j :: 0 <= i < j < |s| ==> s[i].dist <= s[j].dist
  }

  /** Every kept entry is at least as close as every entry left out. */
  ghost predicate Dominates(kept: multiset<Scored>, rest: multiset<Scored>)
  {
    forall k, d :: k in kept && d in rest ==> k.dist <= d.dist
  }

  /**
    r is a correct answer of the bounded nearest-neighbour search over cands:
    it has min(n, |cands|) entries, ascending by distance, taken from cands
    without invention or duplication, and nothing left out is closer than
    anything kept.
   */
  ghost predicate IsTopN(r: seq<Scored>, cands: seq<Scored>, n: int)
  {
    && |r| == KeepCount(n, |cands|)
    && SortedByDist(r)
    && multiset(r) <= multiset(cands)
    && Dominates(multiset(r), multiset(cands) - multiset(r))
  }

  /** All candidates have pairwise different distances. */
  ghost predicate DistinctDists(cands: seq<Scored>)
  {
    forall i, j :: 0 <= i < j < |cands| ==> cands[i].dist != cands[j].dist
  }

  /** The candidates strictly closer to the query than c, in scan order. */
  ghost function Closer(cands: seq<Scored>, c: Scored): (r: seq<Scored>)
    ensures forall i :: 0 <= i < |r| ==> r[i] in cands && r[i].dist < c.dist
  {
    if cands == [] then []
    else (if cands[0].dist < c.dist then [cands[0]] else []) + Closer(cands[1..], c)
  }

  /** Closer keeps every strictly closer candidate as often as it occurs, and nothing else. */
  lemma {:induction false} CloserCount(cands: seq<Scored>, c: Scored, x: Scored)
    ensures multiset(Closer(cands, c))[x] == if x.dist < c.dist then multiset(cands)[x] else 0
  {
    if cands != [] {
      assert cands == [cands[0]] + cands[1..];
      CloserCount(cands[1..], c, x);
    }
  }

  lemma SubMultisetCard<T>(a: multiset<T>, b: multiset<T>)
    requires a <= b
    ensures |a| <= |b|
  {
    assert b == a + (b - a);
  }

  /** Every candidate strictly closer than a kept entry is kept too. */
  lemma CloserAreKept(kept: multiset<Scored>, all: multiset<Scored>, closer: multiset<Scored>, c: Scored)
    requires Dominates(kept, all - kept) && c in kept
    requires forall x: Scored :: closer[x] == if x.dist < c.dist then all[x] else 0
    ensures closer <= kept - multiset{c}
  {
    forall x: Scored
      ensures closer[x] <= (kept - multiset{c})[x]
    {
    }
  }

  /** A kept entry has fewer than n candidates strictly closer than itself. */
  lemma KeptHasFewerCloser(r: seq<Scored>, cands: seq<Scored>, n: int, c: Scored)
    requires IsTopN(r, cands, n)
    requires c in r
    ensures |Closer(cands, c)| < n
  {
    var kept := multiset(r);
    var closer := multiset(Closer(cands, c));
    forall x: Scored
      ensures closer[x] == if x.dist < c.dist then multiset(cands)[x] else 0
    {
      CloserCount(cands, c, x);
    }
    CloserAreKept(kept, multiset(cands), closer, c);
    SubMultisetCard(closer, kept - multiset{c});
    assert kept == (kept - multiset{c}) + multiset{c};
  }

  /** With distinct distances, equal distances among candidates mean equal candidates. */
  lemma DistinctKeys(cands: seq<Scored>, x: Scored, y: Scored)
    requires DistinctDists(cands)
    requires x in cands && y in cands && x.dist == y.dist
    ensures x == y
  {
  }

  /** Whatever is dropped from a sub-multiset is left over in the difference. */
  lemma SplitCard(kept: multiset<Scored>, all: multiset<Scored>, c: Scored)
    requires kept <= all && c in all - kept
    ensures |kept| < |all|
  {
    assert all == (all - kept) + kept;
  }

  /** With distinct distances every kept entry is strictly closer than a dropped one. */
  lemma KeptAreCloser(kept: multiset<Scored>, all: multiset<Scored>, closer: multiset<Scored>, c: Scored)
    requires kept <= all && Dominates(kept, all - kept) && c in all - kept
    requires forall x, y :: x in all && y in all && x.dist == y.dist ==> x == y
    requires forall x: Scored :: x.dist < c.dist ==> closer[x] == all[x]
    requires all[c] <= 1
    ensures kept <= closer
  {
    forall x: Scored | x in kept
      ensures kept[x] <= closer[x]
    {
      assert x.dist <= c.dist;
      assert x != c;
    }
  }

  /** With distinct distances, a dropped entry has at least n candidates strictly closer. */
  lemma DroppedHasManyCloser(r: seq<Scored>, cands: seq<Scored>, n: int, c: Scored)
    requires IsTopN(r, cands, n) && DistinctDists(cands)
    requires c in cands && c !in r
    ensures |Closer(cands, c)| >= n
  {
    assert c in multiset(cands) - multiset(r);
    forall x: Scored
      ensures x.dist < c.dist ==> multiset(Closer(cands, c))[x] == multiset(cands)[x]
    {
      CloserCount(cands, c, x);
    }
    forall x, y | x in multiset(cands) && y in multiset(cands) && x.dist == y.dist
      ensures x == y
    {
      DistinctKeys(cands, x, y);
    }
    AtMostOnce(cands, c);
    KeptAreCloser(multiset(r), multiset(cands), multiset(Closer(cands, c)), c);
    SubMultisetCard(multiset(r), multiset(Closer(cands, c)));
    SplitCard(multiset(r), multiset(cands), c);
  }

  /**
    Reference characterisation of the selection: with distinct distances a
    candidate is kept exactly when fewer than n candidates are strictly
    closer to the query.
   */
  lemma TopNByRank(r: seq<Scored>, cands: seq<Scored>, n: int, c: Scored)
    requires IsTopN(r, cands, n) && DistinctDists(cands)
    requires c in cands
    ensures c in r <==> |Closer(cands, c)| < n
  {
    if c in r {
      KeptHasFewerCloser(r, cands, n, c);
    } else {
      DroppedHasManyCloser(r, cands, n, c);
    }
  }

  lemma {:induction false} AtMostOnce(cands: seq<Scored>, x: Scored)
    requires DistinctDists(cands)
    ensures multiset(cands)[x] <= 1
  {
    if cands != [] {
      assert cands == [cands[0]] + cands[1..];
      assert DistinctDists(cands[1..]);
      AtMostOnce(cands[1..], x);
      if x == cands[0] {
        assert x !in cands[1..];
      }
    }
  }

  /** Strictly ascending by distance. */
  ghost predicate StrictlySorted(s: seq<Scored>)
  {
    forall i, j :: 0 <= i < j < |s| ==> s[i].dist < s[j].dist
  }

  /** Two strictly ascending lists with the same entries start with the same entry. */
  lemma SameHead(s: seq<Scored>, t: seq<Scored>)
    requires StrictlySorted(s) && StrictlySorted(t) && s != []
    requires multiset(s) == multiset(t)
    ensures t != [] && s[0] == t[0]
  {
    assert s[0] in multiset(t);
    var j :| 0 <= j < |t| && t[j] == s[0];
    assert t[0] in multiset(s);
    var i :| 0 <= i < |s| && s[i] == t[0];
  }

  lemma StrictTail(s: seq<Scored>)
    requires StrictlySorted(s) && s != []
    ensures StrictlySorted(s[1..])
    ensures multiset(s[1..]) == multiset(s) - multiset{s[0]}
  {
    assert s == [s[0]] + s[1..];
  }

  lemma SameHeadSameTail(s: seq<Scored>, t: seq<Scored>)
    requires s != [] && t != [] && s[0] == t[0] && s[1..] == t[1..]
    ensures s == t
  {
    assert s == [s[0]] + s[1..] && t == [t[0]] + t[1..];
  }

  /** Two strictly ascending lists with the same entries are equal. */
  lemma {:induction false} SortedSameEntries(s: seq<Scored>, t: seq<Scored>)
    requires StrictlySorted(s) && StrictlySorted(t)
    requires multiset(s) == multiset(t)
    ensures s == t
    decreases |s|
  {
    if s == [] {
      assert |t| == |multiset(t)| == 0;
    } else {
      SameHead(s, t);
      StrictTail(s);
      StrictTail(t);
      SortedSameEntries(s[1..], t[1..]);
      SameHeadSameTail(s, t);
    }
  }

  lemma TwiceInSeq(r: seq<Scored>, i: nat, j: nat)
    requires i < j < |r| && r[i] == r[j]
    ensures multiset(r)[r[i]] >= 2
  {
    assert r == r[..i] + [r[i]] + r[i + 1..j] + [r[j]] + r[j + 1..];
  }

  /** A sorted answer drawn from candidates with distinct distances is strictly sorted. */
  lemma StrictWhenDistinct(r: seq<Scored>, cands: seq<Scored>)
    requires SortedByDist(r) && multiset(r) <= multiset(cands) && DistinctDists(cands)
    ensures StrictlySorted(r)
  {
    forall i, j | 0 <= i < j < |r|
      ensures r[i].dist < r[j].dist
    {
      if r[i].dist == r[j].dist {
        assert r[i] in multiset(cands) && r[j] in multiset(cands);
        DistinctKeys(cands, r[i], r[j]);
        TwiceInSeq(r, i, j);
        AtMostOnce(cands, r[i]);
        assert false;
      }
    }
  }

  /** With distinct distances there is exactly one correct answer. */
  lemma TopNUnique(r1: seq<Scored>, r2: seq<Scored>, cands: seq<Scored>, n: int)
    requires IsTopN(r1, cands, n) && IsTopN(r2, cands, n) && DistinctDists(cands)
    ensures r1 == r2
  {
    forall x | true
      ensures multiset(r1)[x] == multiset(r2)[x]
    {
      AtMostOnce(cands, x);
      if x in cands {
        TopNByRank(r1, cands, n, x);
        TopNByRank(r2, cands, n, x);
      }
    }
    assert multiset(r1) == multiset(r2);
    StrictWhenDistinct(r1, cands);
    StrictWhenDistinct(r2, cands);
    SortedSameEntries(r1, r2);
  }

  const DocA: Scored := Scored(1, Document("a.jpg", "A", "", ""))
  const DocB: Scored := Scored(5, Document("b.jpg", "B", "", ""))
  const DocC: Scored := Scored(3, Document("c.jpg", "C", "", ""))

  lemma ScenarioDistinct()
    ensures DistinctDists([DocA, DocB, DocC])
  {
  }

  lemma ScenarioAnswer()
    ensures IsTopN([DocA, DocC], [DocA, DocB, DocC], 2)
  {
    var cands, answer := [DocA, DocB, DocC], [DocA, DocC];
    assert DocA != DocB && DocB != DocC;
    assert multiset(cands) == multiset(answer) + multiset{DocB};
    assert multiset(cands) - multiset(answer) == multiset{DocB};
    assert Dominates(multiset(answer), multiset{DocB});
  }

  /**
    Three documents at distances 1, 5 and 3 from the query (0.1, 0.5 and 0.3
    scaled by ten): the only correct top-2 answer is the first document,
    then the third.
   */
  lemma ThreeDocumentsTopTwo(r: seq<Scored>)
    requires IsTopN(r, [DocA, DocB, DocC], 2)
    ensures r == [DocA, DocC]
  {
    ScenarioDistinct();
    ScenarioAnswer();
    TopNUnique(r, [DocA, DocC], [DocA, DocB, DocC], 2);
  }
}
