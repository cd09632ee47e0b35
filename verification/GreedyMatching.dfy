/** What it means to match two groups of pointers greedily by distance, and what that determines. */
module GreedyMatching {
  import opened DistanceHeap

  predicate Conflict(e: HeapElement, f: HeapElement) {
    e.currentPointerIndex == f.currentPointerIndex || e.lastPointerIndex == f.lastPointerIndex
  }

  /** Neither end of `e` is matched yet. */
  ghost predicate Free(matches: seq<HeapElement>, e: HeapElement) {
    forall m :: m in matches ==> !Conflict(m, e)
  }

  /** Each match is the closest candidate among those with both ends still free. */
  ghost predicate Greedy(candidates: set<HeapElement>, matches: seq<HeapElement>) {
    forall k :: 0 <= k < |matches| ==> BestAt(candidates, matches, k)
  }

  ghost predicate BestAt(candidates: set<HeapElement>, matches: seq<HeapElement>, k: nat)
    requires k < |matches|
  {
    IsBest(candidates, matches[..k], matches[k])
  }

  ghost predicate IsBest(candidates: set<HeapElement>, matches: seq<HeapElement>, best: HeapElement) {
    && best in candidates && Free(matches, best)
    && forall e :: e in candidates && Free(matches, e) ==> best.distance <= e.distance
  }

  /** No candidate could still be added. */
  ghost predicate Maximal(candidates: set<HeapElement>, matches: seq<HeapElement>) {
    forall e :: e in candidates ==> !Free(matches, e)
  }

  ghost predicate NoTies(candidates: set<HeapElement>) {
    forall e, f :: e in candidates && f in candidates && e.distance == f.distance ==> e == f
  }

  lemma DistancesNeverDecrease(candidates: set<HeapElement>, matches: seq<HeapElement>, i: nat, j: nat)
    requires Greedy(candidates, matches)
    requires i <= j < |matches|
    ensures matches[i].distance <= matches[j].distance
  {
    assert BestAt(candidates, matches, i) && BestAt(candidates, matches, j);
    assert forall m :: m in matches[..i] ==> m in matches[..j];
  }

  /** Two pointers that are closer to each other than either is to any third pointer are matched. */
  lemma MutualNearestAreMatched(candidates: set<HeapElement>, matches: seq<HeapElement>, e: HeapElement)
    requires Greedy(candidates, matches) && Maximal(candidates, matches)
    requires e in candidates
    requires forall f :: f in candidates && f != e && Conflict(f, e) ==> e.distance < f.distance
    ensures e in matches
  {
    assert matches[..|matches|] == matches;
    var k := FirstConflict(matches, e, |matches|);
    assert BestAt(candidates, matches, k);
  }

  lemma {:induction false} FirstConflict(matches: seq<HeapElement>, e: HeapElement, n: nat) returns (k: nat)
    requires n <= |matches| && !Free(matches[..n], e)
    ensures k < n && Free(matches[..k], e) && Conflict(matches[k], e)
  {
    if Free(matches[..n - 1], e) {
      k := n - 1;
      assert matches[..n] == matches[..k] + [matches[k]];
    } else {
      k := FirstConflict(matches, e, n - 1);
    }
  }

  /** Without ties the matching is determined: any two complete greedy matchings are the same. */
  lemma UniqueWithoutTies(candidates: set<HeapElement>, m: seq<HeapElement>, m': seq<HeapElement>)
    requires Greedy(candidates, m) && Maximal(candidates, m)
    requires Greedy(candidates, m') && Maximal(candidates, m')
    requires NoTies(candidates)
    ensures m == m'
  {
    if |m| <= |m'| {
      SamePrefix(candidates, m, m', |m|);
      NothingToAdd(candidates, m, m');
    } else {
      SamePrefix(candidates, m', m, |m'|);
      NothingToAdd(candidates, m', m);
    }
  }

  lemma {:induction false} SamePrefix(candidates: set<HeapElement>, m: seq<HeapElement>, m': seq<HeapElement>, n: nat)
    requires Greedy(candidates, m) && Greedy(candidates, m') && NoTies(candidates)
    requires n <= |m| && n <= |m'|
    ensures m[..n] == m'[..n]
  {
    if n > 0 {
      var k := n - 1;
      SamePrefix(candidates, m, m', k);
      assert BestAt(candidates, m, k) && BestAt(candidates, m', k);
      assert m[..n] == m[..k] + [m[k]] && m'[..n] == m'[..k] + [m'[k]];
    }
  }

  lemma PrefixIsNotMaximal(candidates: set<HeapElement>, matches: seq<HeapElement>, n: nat)
    requires Greedy(candidates, matches) && n < |matches|
    ensures !Maximal(candidates, matches[..n])
  {
    assert BestAt(candidates, matches, n);
  }

  lemma NothingToAdd(candidates: set<HeapElement>, m: seq<HeapElement>, m': seq<HeapElement>)
    requires Maximal(candidates, m) && Greedy(candidates, m')
    requires |m| <= |m'| && m'[..|m|] == m[..|m|]
    ensures m == m'
  {
    assert m[..|m|] == m;
    if |m| < |m'| {
      PrefixIsNotMaximal(candidates, m', |m|);
    }
    assert m'[..|m'|] == m';
  }

  /** The ends that are taken. */
  ghost function MatchedCurrent(matches: seq<HeapElement>): set<nat> {
    set m | m in matches :: m.currentPointerIndex
  }

  ghost function MatchedLast(matches: seq<HeapElement>): set<nat> {
    set m | m in matches :: m.lastPointerIndex
  }

  lemma FreeMeansUnmatched(matches: seq<HeapElement>, e: HeapElement)
    ensures Free(matches, e) <==>
              e.currentPointerIndex !in MatchedCurrent(matches) && e.lastPointerIndex !in MatchedLast(matches)
  {
  }

  /** Adding the closest free candidate keeps a matching greedy. */
  lemma ExtendGreedy(candidates: set<HeapElement>, matches: seq<HeapElement>, best: HeapElement)
    requires Greedy(candidates, matches) && IsBest(candidates, matches, best)
    ensures Greedy(candidates, matches + [best])
    ensures MatchedCurrent(matches + [best]) == MatchedCurrent(matches) + {best.currentPointerIndex}
    ensures MatchedLast(matches + [best]) == MatchedLast(matches) + {best.lastPointerIndex}
  {
    var m := matches + [best];
    forall k | 0 <= k < |m|
      ensures BestAt(candidates, m, k)
    {
      if k < |matches| {
        assert BestAt(candidates, matches, k);
        assert m[..k] == matches[..k];
      } else {
        assert m[..k] == matches;
      }
    }
    assert forall x :: x in m <==> x in matches || x == best;
  }

  /** A matching has one pair per matched end. */
  lemma {:induction false} MatchingSize(candidates: set<HeapElement>, matches: seq<HeapElement>)
    requires Greedy(candidates, matches)
    ensures |MatchedCurrent(matches)| == |matches| == |MatchedLast(matches)|
  {
    if matches != [] {
      var k := |matches| - 1;
      var shorter := matches[..k];
      assert matches == shorter + [matches[k]];
      assert BestAt(candidates, matches, k);
      forall j | 0 <= j < k
        ensures BestAt(candidates, shorter, j)
      {
        assert BestAt(candidates, matches, j);
        assert shorter[..j] == matches[..j];
      }
      MatchingSize(candidates, shorter);
      ExtendGreedy(candidates, shorter, matches[k]);
    }
  }
}
