/** `TouchInputMapper::assignPointerIds`: carrying pointer ids from one sample to the next. */
module PointerIds {
  import opened BitSets
  import opened RawPointers
  import opened DistanceHeap
  import opened GreedyMatching

  const TWO_POW_32: int := 0x1_0000_0000
  const TWO_POW_48: nat := 0x1_0000_0000_0000

  // ----- distances -----

  /** Subtraction of two `int32_t` values, wrapping around. */
  function Subtract32(a: int, b: int): int {
    (a - b + TWO_POW_32 / 2) % TWO_POW_32 - TWO_POW_32 / 2
  }

  function Square(a: int): (r: nat) {
    assert a * a >= 0;
    a * a
  }

  function TrueDistance(p: Pointer, q: Pointer): nat {
    Square(p.x - q.x) + Square(p.y - q.y)
  }

  /** The squared distance as it is kept: differences in 32 bits, the result in a 48-bit field. */
  function StoredDistance(p: Pointer, q: Pointer): nat {
    (Square(Subtract32(p.x, q.x)) + Square(Subtract32(p.y, q.y))) % TWO_POW_48
  }

  lemma DistanceIs(p: Pointer, q: Pointer)
    ensures TrueDistance(p, q) == (p.x - q.x) * (p.x - q.x) + (p.y - q.y) * (p.y - q.y)
  {
  }

  lemma SquareIsWide(a: int)
    requires Square(a) < TWO_POW_48
    ensures -0x100_0000 < a < 0x100_0000
  {
    assert a >= 0x100_0000 ==> a * a >= 0x100_0000 * 0x100_0000;
    assert a <= -0x100_0000 ==> a * a == (-a) * (-a) >= 0x100_0000 * 0x100_0000;
  }

  /** The stored distance is the true one exactly while the true one fits the field. */
  lemma StoredDistanceIsExactWhenItFits(p: Pointer, q: Pointer)
    ensures StoredDistance(p, q) == TrueDistance(p, q) <==> TrueDistance(p, q) < TWO_POW_48
  {
    if TrueDistance(p, q) < TWO_POW_48 {
      SquareIsWide(p.x - q.x);
      SquareIsWide(p.y - q.y);
      assert Subtract32(p.x, q.x) == p.x - q.x;
      assert Subtract32(p.y, q.y) == p.y - q.y;
    }
  }

  /** Past that the field wraps and a farther pointer can look nearer. */
  lemma WrappedDistanceMisleads(p: Pointer, near: Pointer, far: Pointer)
    requires p.x == p.y == near.y == far.y == 0 && near.x == 1 && far.x == 0x100_0000
    ensures TrueDistance(p, near) < TrueDistance(p, far)
    ensures StoredDistance(p, far) < StoredDistance(p, near)
  {
    assert Subtract32(0, 0x100_0000) == -0x100_0000 && Subtract32(0, 1) == -1 && Subtract32(0, 0) == 0;
    assert Square(-0x100_0000) == TWO_POW_48 && Square(-1) == 1 && Square(0) == 0;
  }

  // ----- candidates -----

  /** The two pointers may be the same contact: they have the same tool type. */
  predicate Comparable(last: RawPointerData, current: RawPointerData, c: nat, l: nat)
    requires current.Sized() && last.Sized()
  {
    c < current.pointerCount && l < last.pointerCount && current.pointers[c].toolType == last.pointers[l].toolType
  }

  function Candidate(last: RawPointerData, current: RawPointerData, c: nat, l: nat): HeapElement
    requires current.Sized() && last.Sized() && Comparable(last, current, c, l)
  {
    HeapElement(c, l, StoredDistance(current.pointers[c], last.pointers[l]))
  }

  ghost function Candidates(last: RawPointerData, current: RawPointerData): (s: set<HeapElement>)
    requires current.Sized() && last.Sized()
  {
    set c: nat, l: nat | c < current.pointerCount && l < last.pointerCount && Comparable(last, current, c, l) ::
      Candidate(last, current, c, l)
  }

  // ----- what the assignment promises -----

  ghost predicate InRange(last: RawPointerData, current: RawPointerData, matches: seq<HeapElement>) {
    && |last.pointers| == |current.pointers| == MAX_POINTERS
    && forall m :: m in matches ==> m.lastPointerIndex < MAX_POINTERS && m.currentPointerIndex < MAX_POINTERS
  }

  ghost function CarriedIds(last: RawPointerData, matches: seq<HeapElement>): set<nat>
    requires InRange(last, last, matches)
  {
    set m | m in matches :: last.pointers[m.lastPointerIndex].id
  }

  /** A matched pointer carries its partner's id.  The others take, in index order, the smallest
      numbers that are not carried. */
  ghost predicate IdsFollow(last: RawPointerData, r: RawPointerData, matches: seq<HeapElement>)
    requires InRange(last, r, matches) && r.pointerCount <= MAX_POINTERS
  {
    && (forall m :: m in matches ==> r.pointers[m.currentPointerIndex].id == last.pointers[m.lastPointerIndex].id)
    && forall i :: 0 <= i < r.pointerCount && i !in MatchedCurrent(matches) ==>
         TakesNextFreeId(CarriedIds(last, matches), MatchedCurrent(matches), r.pointers, i)
  }

  /** The id of `i` is the smallest that is neither carried nor taken by an earlier unmatched pointer. */
  ghost predicate TakesNextFreeId(carried: set<nat>, matched: set<nat>, pointers: seq<Pointer>, i: nat)
    requires i < |pointers|
  {
    IsFirstUnmarked(carried + FreshIdsBefore(matched, pointers, i), pointers[i].id)
  }

  ghost function FreshIdsBefore(matched: set<nat>, pointers: seq<Pointer>, i: nat): set<nat>
    requires i <= |pointers|
  {
    set j | 0 <= j < i && j !in matched :: pointers[j].id
  }

  // ----- the algorithm -----

  /** All comparable pairs, in the order of the two nested loops. */
  method InsertCandidates(last: RawPointerData, current: RawPointerData, heap: array<HeapElement>) returns (heapSize: nat)
    requires current.Sized() && last.Sized()
    requires heap.Length == MAX_POINTERS * MAX_POINTERS
    modifies heap
    ensures heapSize <= heap.Length
    ensures forall e :: e in heap[..heapSize] <==> e in Candidates(last, current)
  {
    heapSize := 0;
    var c := 0;
    while c < current.pointerCount
      invariant c <= current.pointerCount
      invariant heapSize <= c * MAX_POINTERS
      invariant forall e :: e in heap[..heapSize] <==> e in Candidates(last, current) && e.currentPointerIndex < c
    {
      var l := 0;
      while l < last.pointerCount
        invariant l <= last.pointerCount
        invariant heapSize <= c * MAX_POINTERS + l
        invariant forall e :: e in heap[..heapSize] <==>
                    e in Candidates(last, current) &&
                    (e.currentPointerIndex < c || (e.currentPointerIndex == c && e.lastPointerIndex < l))
      {
        if Comparable(last, current, c, l) {
          ghost var before := heap[..heapSize];
          heap[heapSize] := Candidate(last, current, c, l);
          heapSize := heapSize + 1;
          assert heap[..heapSize] == before + [Candidate(last, current, c, l)];
        }
        l := l + 1;
      }
      c := c + 1;
    }
  }

  /** Every candidate is still in the heap or has lost one of its ends to a match. */
  ghost predicate Covered(candidates: set<HeapElement>, heap: seq<HeapElement>, matches: seq<HeapElement>) {
    && (forall e :: e in heap ==> e in candidates)
    && (forall e :: e in candidates && Free(matches, e) ==> e in heap)
  }

  /** The elements not consumed yet: the first time the root is still in place, later it is not. */
  ghost function Remaining(heap: array<HeapElement>, heapSize: nat, first: bool): seq<HeapElement>
    requires heapSize <= heap.Length && (first || heapSize < heap.Length)
    reads heap
  {
    if first then heap[..heapSize] else heap[1..heapSize + 1]
  }

  ghost predicate HeapInOrder(heap: array<HeapElement>, heapSize: nat, first: bool)
    reads heap
  {
    && heapSize <= heap.Length && (first || heapSize < heap.Length)
    && HeapFrom(heap[..if first then heapSize else heapSize + 1], 0)
  }

  lemma SameElements(a: seq<HeapElement>, b: seq<HeapElement>)
    requires multiset(a) == multiset(b)
    ensures forall e :: e in a <==> e in b
  {
    assert forall e :: e in a <==> e in multiset(a);
    assert forall e :: e in b <==> e in multiset(b);
  }

  /** Brings the closest remaining element to the root and consumes it.  The first time it is there
      already; later the root was consumed before and is popped first. */
  method TakeRoot(heap: array<HeapElement>, heapSize: nat, first: bool) returns (root: HeapElement)
    requires HeapInOrder(heap, heapSize, first) && heapSize > 0
    modifies heap
    ensures HeapInOrder(heap, heapSize - 1, false)
    ensures HeapFrom([root] + Remaining(heap, heapSize - 1, false), 0)
    ensures forall e :: e in [root] + Remaining(heap, heapSize - 1, false) <==> e in old(Remaining(heap, heapSize, first))
  {
    ghost var remaining := Remaining(heap, heapSize, first);
    if !first {
      PopRoot(heap, heapSize);
    }
    root := heap[0];
    assert heap[..heapSize] == [root] + Remaining(heap, heapSize - 1, false);
    SameElements(heap[..heapSize], remaining);
  }

  /** The inner loop: consumes elements in order of distance until one has both ends free. */
  method NextMatch(heap: array<HeapElement>, heapSize: nat, first: bool,
                   matchedCurrentBits: set<nat>, matchedLastBits: set<nat>,
                   ghost candidates: set<HeapElement>, ghost matches: seq<HeapElement>)
    returns (found: bool, root: HeapElement, newSize: nat)
    requires HeapInOrder(heap, heapSize, first) && heapSize > 0
    requires Covered(candidates, Remaining(heap, heapSize, first), matches)
    requires matchedCurrentBits == MatchedCurrent(matches) && matchedLastBits == MatchedLast(matches)
    modifies heap
    ensures newSize < heapSize && HeapInOrder(heap, newSize, false)
    ensures found ==> IsBest(candidates, matches, root) &&
                      Covered(candidates, Remaining(heap, newSize, false), matches + [root])
    ensures !found ==> newSize == 0 && Covered(candidates, Remaining(heap, newSize, false), matches)
  {
    newSize := heapSize;
    var atRoot := first;
    found := false;
    root := heap[0];
    while newSize > 0
      invariant newSize <= heapSize
      invariant newSize == heapSize || !atRoot
      invariant HeapInOrder(heap, newSize, atRoot)
      invariant Covered(candidates, Remaining(heap, newSize, atRoot), matches)
    {
      root := TakeRoot(heap, newSize, atRoot);
      atRoot := false;
      newSize := newSize - 1;
      ghost var rest := Remaining(heap, newSize, false);
      FreeMeansUnmatched(matches, root);
      if root.currentPointerIndex in matchedCurrentBits {
        CoveredWithoutRoot(candidates, root, rest, matches);
        continue;
      }
      if root.lastPointerIndex in matchedLastBits {
        CoveredWithoutRoot(candidates, root, rest, matches);
        continue;
      }
      RootIsBest(candidates, [root] + rest, matches);
      CoveredAfterMatch(candidates, root, rest, matches);
      found := true;
      return;
    }
  }

  lemma CoveredWithoutRoot(candidates: set<HeapElement>, root: HeapElement, rest: seq<HeapElement>, matches: seq<HeapElement>)
    requires Covered(candidates, [root] + rest, matches) && !Free(matches, root)
    ensures Covered(candidates, rest, matches)
  {
    assert forall e :: e in [root] + rest <==> e == root || e in rest;
  }

  lemma RootIsBest(candidates: set<HeapElement>, h: seq<HeapElement>, matches: seq<HeapElement>)
    requires |h| > 0 && HeapFrom(h, 0) && Covered(candidates, h, matches) && Free(matches, h[0])
    ensures IsBest(candidates, matches, h[0])
  {
    forall e | e in candidates && Free(matches, e)
      ensures h[0].distance <= e.distance
    {
      var k :| 0 <= k < |h| && h[k] == e;
      RootIsLeast(h, k);
    }
  }

  lemma CoveredAfterMatch(candidates: set<HeapElement>, root: HeapElement, rest: seq<HeapElement>, matches: seq<HeapElement>)
    requires Covered(candidates, [root] + rest, matches)
    ensures Covered(candidates, rest, matches + [root])
  {
    forall e | e in candidates && Free(matches + [root], e)
      ensures e in rest
    {
      assert root in matches + [root];
      assert forall m :: m in matches ==> m in matches + [root];
      assert e in [root] + rest;
    }
    assert forall e :: e in rest ==> e in [root] + rest;
  }

  /** The ids given so far are those of the matched partners. */
  ghost predicate CarriesPartners(last: RawPointerData, owned: map<nat, nat>, matches: seq<HeapElement>)
    requires last.Sized()
  {
    && owned.Keys == MatchedCurrent(matches)
    && forall m :: m in matches ==>
         && m.lastPointerIndex < last.pointerCount && m.currentPointerIndex in owned
         && owned[m.currentPointerIndex] == last.pointers[m.lastPointerIndex].id
  }

  lemma CarryPartner(last: RawPointerData, owned: map<nat, nat>, matches: seq<HeapElement>, e: HeapElement)
    requires last.HasIds() && CarriesPartners(last, owned, matches)
    requires Free(matches, e) && e.lastPointerIndex < last.pointerCount
    ensures last.pointers[e.lastPointerIndex].id <= MAX_POINTER_ID
    ensures last.pointers[e.lastPointerIndex].id !in owned.Values
    ensures e.currentPointerIndex !in owned
    ensures CarriesPartners(last, owned[e.currentPointerIndex := last.pointers[e.lastPointerIndex].id], matches + [e])
  {
    hide RawPointerData.HasIds;
    IdsAreABijection(last);
    var id := last.pointers[e.lastPointerIndex].id;
    forall c | c in owned
      ensures owned[c] != id
    {
      var m :| m in matches && m.currentPointerIndex == c;
      assert m.lastPointerIndex != e.lastPointerIndex;
    }
    assert forall m :: m in matches + [e] <==> m in matches || m == e;
  }

  method BuildHeap(last: RawPointerData, current: RawPointerData, heap: array<HeapElement>) returns (heapSize: nat)
    requires current.Sized() && last.Sized()
    requires heap.Length == MAX_POINTERS * MAX_POINTERS
    modifies heap
    ensures HeapInOrder(heap, heapSize, true)
    ensures Covered(Candidates(last, current), Remaining(heap, heapSize, true), [])
  {
    heapSize := InsertCandidates(last, current, heap);
    ghost var before := heap[..heapSize];
    Heapify(heap, heapSize);
    assert forall e :: e in heap[..heapSize] <==> e in before by {
      assert forall e :: e in before <==> e in multiset(before);
      assert forall e :: e in heap[..heapSize] <==> e in multiset(heap[..heapSize]);
    }
  }

  /** What holds between two rounds of the outer loop. */
  ghost predicate Carrying(last: RawPointerData, current: RawPointerData, r: RawPointerData,
                           owned: map<nat, nat>, matches: seq<HeapElement>)
    requires last.Sized() && current.Sized()
  {
    && r.IdsAre(owned) && r.SameExceptIds(current)
    && Greedy(Candidates(last, current), matches) && CarriesPartners(last, owned, matches)
  }

  lemma OneMore(last: RawPointerData, current: RawPointerData, r: RawPointerData,
                owned: map<nat, nat>, matches: seq<HeapElement>, e: HeapElement)
    requires last.HasIds() && current.Sized()
    requires Carrying(last, current, r, owned, matches)
    requires IsBest(Candidates(last, current), matches, e)
    ensures e.lastPointerIndex < last.pointerCount && e.currentPointerIndex < current.pointerCount
    ensures last.pointers[e.lastPointerIndex].id <= MAX_POINTER_ID
    ensures var id := last.pointers[e.lastPointerIndex].id;
            var owned' := owned[e.currentPointerIndex := id];
            && Carrying(last, current, r.WithId(e.currentPointerIndex, id), owned', matches + [e])
            && owned'.Values == owned.Values + {id} && owned'.Keys == owned.Keys + {e.currentPointerIndex}
            && MatchedLast(matches + [e]) == MatchedLast(matches) + {e.lastPointerIndex}
  {
    var id := last.pointers[e.lastPointerIndex].id;
    CarryPartner(last, owned, matches, e);
    GivingAnId(r, owned, e.currentPointerIndex, id);
    ExtendGreedy(Candidates(last, current), matches, e);
    NewKey(owned, e.currentPointerIndex, id);
  }

  lemma NewKey(m: map<nat, nat>, k: nat, v: nat)
    requires k !in m
    ensures m[k := v].Values == m.Values + {v}
  {
    var m' := m[k := v];
    forall x
      ensures x in m'.Values <==> x in m.Values + {v}
    {
      if x in m.Values {
        var j :| j in m && m[j] == x;
        assert m'[j] == x;
      }
      assert m'[k] == v;
    }
  }

  /** The outer loop: one match at a time, carrying the id of the matched last pointer. */
  method CarryIds(last: RawPointerData, current: RawPointerData, cleared: RawPointerData)
    returns (r: RawPointerData, matchedCurrentBits: set<nat>, usedIdBits: set<nat>, ghost owned: map<nat, nat>, ghost matches: seq<HeapElement>)
    requires last.HasIds() && current.Sized()
    requires cleared == current.ClearIdBits()
    ensures Carrying(last, current, r, owned, matches)
    ensures Maximal(Candidates(last, current), matches)
    ensures matchedCurrentBits == owned.Keys && usedIdBits == owned.Values
  {
    var heap := new HeapElement[MAX_POINTERS * MAX_POINTERS](i => HeapElement(0, 0, 0));
    var heapSize := BuildHeap(last, current, heap);
    ghost var candidates := Candidates(last, current);

    var matchedLastBits: set<nat> := {};
    matchedCurrentBits, usedIdBits := {}, {};
    var first := true;
    r, owned, matches := cleared, map[], [];
    NoIdsYet(current);
    var i: nat := if current.pointerCount < last.pointerCount then current.pointerCount else last.pointerCount;
    while heapSize > 0 && i > 0
      invariant Carrying(last, current, r, owned, matches)
      invariant HeapInOrder(heap, heapSize, first)
      invariant Covered(candidates, Remaining(heap, heapSize, first), matches)
      invariant matchedCurrentBits == owned.Keys && matchedLastBits == MatchedLast(matches)
      invariant usedIdBits == owned.Values
      invariant heapSize > 0 ==> i + |matches| == if current.pointerCount < last.pointerCount then current.pointerCount else last.pointerCount
      decreases i
    {
      var found, e, newSize := NextMatch(heap, heapSize, first, matchedCurrentBits, matchedLastBits, candidates, matches);
      first, heapSize := false, newSize;
      if found {
        OneMore(last, current, r, owned, matches, e);
        var id := last.pointers[e.lastPointerIndex].id;
        matchedCurrentBits := matchedCurrentBits + {e.currentPointerIndex};
        matchedLastBits := matchedLastBits + {e.lastPointerIndex};
        r := r.WithId(e.currentPointerIndex, id);
        usedIdBits := usedIdBits + {id};
        owned, matches := owned[e.currentPointerIndex := id], matches + [e];
      }
      i := i - 1;
    }
    assert heapSize == 0 ==> Remaining(heap, heapSize, first) == [];
    MatchingIsMaximal(last, current, matches, Remaining(heap, heapSize, first));
  }

  lemma MatchIsCandidate(last: RawPointerData, current: RawPointerData, matches: seq<HeapElement>, m: HeapElement)
    requires last.Sized() && current.Sized() && Greedy(Candidates(last, current), matches) && m in matches
    ensures m in Candidates(last, current)
    ensures m.currentPointerIndex < current.pointerCount && m.lastPointerIndex < last.pointerCount
    ensures current.pointers[m.currentPointerIndex].toolType == last.pointers[m.lastPointerIndex].toolType
    ensures m.distance == StoredDistance(current.pointers[m.currentPointerIndex], last.pointers[m.lastPointerIndex])
  {
    hide StoredDistance;
    var k :| 0 <= k < |matches| && matches[k] == m;
    assert BestAt(Candidates(last, current), matches, k);
  }

  /** The outer loop stops only when no pair is left or one side is used up. */
  lemma MatchingIsMaximal(last: RawPointerData, current: RawPointerData, matches: seq<HeapElement>, remaining: seq<HeapElement>)
    requires current.Sized() && last.Sized()
    requires Greedy(Candidates(last, current), matches) && Covered(Candidates(last, current), remaining, matches)
    requires remaining == [] || |matches| == current.pointerCount || |matches| == last.pointerCount
    ensures Maximal(Candidates(last, current), matches)
  {
    hide Greedy, BestAt, StoredDistance;
    var candidates := Candidates(last, current);
    forall m | m in matches
      ensures m in candidates
    {
      MatchIsCandidate(last, current, matches, m);
    }
    MatchingSize(candidates, matches);
    BelowSize(MatchedCurrent(matches), current.pointerCount);
    BelowSize(MatchedLast(matches), last.pointerCount);
    forall e | e in candidates
      ensures !Free(matches, e)
    {
      FreeMeansUnmatched(matches, e);
    }
  }

  /** What holds between two rounds of the last loop: `start` is fixed, `owned` grows. */
  ghost predicate Filling(p: seq<Pointer>, owned: map<nat, nat>, start: map<nat, nat>)
  {
    && (forall i :: i in owned ==> i < |p| && p[i].id == owned[i])
    && (forall i :: i in start ==> i in owned && owned[i] == start[i])
    && forall i :: i in owned && i !in start ==> InTurn(p, owned, start, i)
  }

  ghost predicate InTurn(p: seq<Pointer>, owned: map<nat, nat>, start: map<nat, nat>, i: nat)
    requires i < |p|
  {
    TakesNextFreeId(start.Values, start.Keys, p, i) && forall j: nat :: j < i ==> j in owned
  }

  lemma FreshIdIsNext(p: seq<Pointer>, owned: map<nat, nat>, start: map<nat, nat>, i: nat)
    requires Filling(p, owned, start)
    requires IsFirstUnmarked(owned.Keys, i) && i < |p|
    ensures start.Values + FreshIdsBefore(start.Keys, p, i) == owned.Values
  {
    forall x
      ensures x in start.Values + FreshIdsBefore(start.Keys, p, i) <==> x in owned.Values
    {
      if x in start.Values {
        var j :| j in start && start[j] == x;
        assert owned[j] == x;
      }
      if x in FreshIdsBefore(start.Keys, p, i) {
        var j :| 0 <= j < i && j !in start.Keys && p[j].id == x;
        assert j in owned && owned[j] == x;
      }
      if x in owned.Values {
        var j :| j in owned && owned[j] == x;
        if j in start {
          assert start[j] in start.Values;
        } else {
          assert InTurn(p, owned, start, j);
          assert j < i && p[j].id == x;
        }
      }
    }
  }

  lemma SameFreshIds(matched: set<nat>, p: seq<Pointer>, p': seq<Pointer>, i: nat, k: nat)
    requires k <= i < |p| && |p'| == |p| && forall j :: 0 <= j < i ==> p'[j] == p[j]
    ensures FreshIdsBefore(matched, p', k) == FreshIdsBefore(matched, p, k)
  {
  }

  lemma StillInTurn(p: seq<Pointer>, p': seq<Pointer>, owned: map<nat, nat>, start: map<nat, nat>, i: nat, id: nat, k: nat)
    requires k < i < |p| && p' == p[i := p[i].(id := id)]
    requires InTurn(p, owned, start, k)
    ensures InTurn(p', owned[i := id], start, k)
  {
    SameFreshIds(start.Keys, p, p', i, k);
  }

  lemma NewInTurn(p: seq<Pointer>, p': seq<Pointer>, owned: map<nat, nat>, start: map<nat, nat>, i: nat, id: nat)
    requires Filling(p, owned, start)
    requires IsFirstUnmarked(owned.Keys, i) && IsFirstUnmarked(owned.Values, id)
    requires i < |p| && p' == p[i := p[i].(id := id)]
    ensures InTurn(p', owned[i := id], start, i)
  {
    FreshIdIsNext(p, owned, start, i);
    SameFreshIds(start.Keys, p, p', i, i);
  }

  lemma FreshOnesAreBelow(p: seq<Pointer>, owned: map<nat, nat>, start: map<nat, nat>, i: nat)
    requires Filling(p, owned, start) && i !in owned
    ensures forall k :: k in owned && k !in start ==> k < i
  {
    forall k | k in owned && k !in start
      ensures k < i
    {
      assert InTurn(p, owned, start, k);
    }
  }

  lemma AddInTurn(p: seq<Pointer>, p': seq<Pointer>, owned: map<nat, nat>, start: map<nat, nat>, i: nat, id: nat)
    requires Filling(p, owned, start) && i !in owned
    requires i < |p| && p' == p[i := p[i].(id := id)]
    requires forall k :: k in owned && k !in start ==> k < i
    requires InTurn(p', owned[i := id], start, i)
    ensures Filling(p', owned[i := id], start)
  {
    hide InTurn;
    forall k | k in owned && k !in start
      ensures InTurn(p', owned[i := id], start, k)
    {
      StillInTurn(p, p', owned, start, i, id, k);
    }
  }

  lemma NextFreeId(p: seq<Pointer>, p': seq<Pointer>, owned: map<nat, nat>, start: map<nat, nat>, i: nat, id: nat)
    requires Filling(p, owned, start)
    requires IsFirstUnmarked(owned.Keys, i) && IsFirstUnmarked(owned.Values, id)
    requires i < |p| && p' == p[i := p[i].(id := id)]
    ensures Filling(p', owned[i := id], start)
  {
    NewInTurn(p, p', owned, start, i, id);
    FreshOnesAreBelow(p, owned, start, i);
    AddInTurn(p, p', owned, start, i, id);
  }

  /** `marked` and `used` are the two bit sets of the loop. */
  ghost predicate FillBits(current: RawPointerData, owned: map<nat, nat>, marked: set<nat>, used: set<nat>) {
    && marked == owned.Keys && used == owned.Values && |used| <= |marked|
    && Below(marked, current.pointerCount)
  }

  lemma NextBits(current: RawPointerData, owned: map<nat, nat>, marked: set<nat>, used: set<nat>, i: nat, id: nat)
    requires FillBits(current, owned, marked, used)
    requires i !in marked && i < current.pointerCount && id !in used
    ensures FillBits(current, owned[i := id], marked + {i}, used + {id})
    ensures |marked + {i}| == |marked| + 1
  {
    NewKey(owned, i, id);
  }

  ghost predicate Given(current: RawPointerData, r: RawPointerData, owned: map<nat, nat>) {
    r.IdsAre(owned) && r.SameExceptIds(current)
  }

  lemma NextGiven(current: RawPointerData, r: RawPointerData, owned: map<nat, nat>, i: nat, id: nat)
    requires Given(current, r, owned)
    requires i < MAX_POINTERS && i !in owned && id <= MAX_POINTER_ID && id !in owned.Values
    ensures |r.pointers| == MAX_POINTERS && |r.idToIndex| == MAX_POINTER_ID + 1
    ensures Given(current, r.WithId(i, id), owned[i := id])
  {
    GivingAnId(r, owned, i, id);
  }

  /** The last loop: fresh ids for the pointers that found no partner. */
  method FillFreshIds(current: RawPointerData, carried: RawPointerData, matchedCurrentBits: set<nat>, usedIdBits: set<nat>,
                      ghost start: map<nat, nat>)
    returns (r: RawPointerData, ghost owned: map<nat, nat>)
    requires current.Sized()
    requires Given(current, carried, start) && FillBits(current, start, matchedCurrentBits, usedIdBits)
    ensures Given(current, r, owned) && owned.Keys == Range(current.pointerCount)
    ensures Filling(r.pointers, owned, start)
  {
    r := carried;
    var marked, used := matchedCurrentBits, usedIdBits;
    owned := start;
    BelowSize(marked, current.pointerCount);
    var i := current.pointerCount - |marked|;
    while i != 0
      invariant 0 <= i == current.pointerCount - |marked|
      invariant FillBits(current, owned, marked, used)
      invariant Given(current, r, owned)
      invariant Filling(r.pointers, owned, start)
    {
      var currentPointerIndex, id := FirstUnmarked(marked), FirstUnmarked(used);
      FirstGap(marked, current.pointerCount);
      NextGiven(current, r, owned, currentPointerIndex, id);
      NextFreeId(r.pointers, r.WithId(currentPointerIndex, id).pointers, owned, start, currentPointerIndex, id);
      NextBits(current, owned, marked, used, currentPointerIndex, id);
      marked, used := marked + {currentPointerIndex}, used + {id};
      r := r.WithId(currentPointerIndex, id);
      owned := owned[currentPointerIndex := id];
      i := i - 1;
    }
    BelowSize(marked, current.pointerCount);
  }

  lemma FirstGap(s: set<nat>, n: nat)
    requires Below(s, n) && |s| < n
    ensures FirstUnmarked(s) < n
  {
    if FirstUnmarked(s) >= n {
      SubsetSize(Range(n), s);
    }
  }

  lemma {:induction false} ValuesSize(m: map<nat, nat>)
    ensures |m.Values| <= |m.Keys|
    decreases |m|
  {
    if m != map[] {
      var k :| k in m;
      var m' := m - {k};
      assert m == m'[k := m[k]];
      ValuesSize(m');
      NewKey(m', k, m[k]);
      assert m.Keys == m'.Keys + {k};
    } else {
      assert m.Values == {};
    }
  }

  // ----- assignPointerIds -----

  /** What the caller is promised. */
  ghost predicate IsAssignment(last: RawPointerData, current: RawPointerData, r: RawPointerData, matches: seq<HeapElement>)
    requires last.Sized() && current.Sized()
  {
    && r.HasIds() && r.SameExceptIds(current)
    && Greedy(Candidates(last, current), matches) && Maximal(Candidates(last, current), matches)
    && InRange(last, r, matches) && IdsFollow(last, r, matches)
  }

  /** The first `n` pointers have their index as id. */
  ghost predicate OwnNumbers(owned: map<nat, nat>, n: nat) {
    owned.Keys == Range(n) && forall j :: j in owned ==> owned[j] == j
  }

  lemma NumbersGrow(owned: map<nat, nat>, n: nat)
    requires OwnNumbers(owned, n)
    ensures n !in owned && n !in owned.Values && OwnNumbers(owned[n := n], n + 1)
  {
    assert n !in owned.Keys;
    assert owned[n := n].Keys == owned.Keys + {n} == Range(n + 1);
  }

  lemma NumberNext(current: RawPointerData, r: RawPointerData, owned: map<nat, nat>, n: nat)
    requires r.Sized() && r.IdsAre(owned) && r.SameExceptIds(current) && OwnNumbers(owned, n) && n < MAX_POINTERS
    ensures r.WithId(n, n).Sized() && r.WithId(n, n).IdsAre(owned[n := n]) && r.WithId(n, n).SameExceptIds(current) && OwnNumbers(owned[n := n], n + 1)
  {
    hide RawPointerData.IdsAre, OwnNumbers;
    NumbersGrow(owned, n);
    GivingAnId(r, owned, n, n);
  }

  lemma NumbersAreIds(r: RawPointerData, owned: map<nat, nat>)
    requires r.Sized() && r.IdsAre(owned) && OwnNumbers(owned, r.pointerCount)
    ensures r.HasIds() && forall j :: 0 <= j < r.pointerCount ==> r.pointers[j].id == j
  {
    hide RawPointerData.HasIds, RawPointerData.IdsAre, Range;
    AllHaveIds(r, owned);
    forall j | 0 <= j < r.pointerCount
      ensures r.pointers[j].id == j
    {
      InRangeIs(r.pointerCount, j);
      assert j in owned.Keys;
      IdIsOwned(r, owned, j);
    }
  }

  lemma InRangeIs(n: nat, j: nat)
    requires j < n
    ensures j in Range(n)
  {
  }

  lemma IdIsOwned(r: RawPointerData, owned: map<nat, nat>, j: nat)
    requires r.IdsAre(owned) && j in owned
    ensures j < |r.pointers| && r.pointers[j].id == owned[j]
  {
  }

  /** All pointers are new. */
  method NumberAll(current: RawPointerData) returns (r: RawPointerData)
    requires current.Sized()
    ensures r.HasIds() && r.SameExceptIds(current)
    ensures forall j :: 0 <= j < r.pointerCount ==> r.pointers[j].id == j
  {
    hide RawPointerData.IdsAre, RawPointerData.HasIds;
    r := current.ClearIdBits();
    NoIdsYet(current);
    ghost var owned: map<nat, nat> := map[];
    for i := 0 to current.pointerCount
      invariant r.Sized() && r.IdsAre(owned) && r.SameExceptIds(current) && OwnNumbers(owned, i)
    {
      NumberNext(current, r, owned, i);
      r := r.WithId(i, i);
      owned := owned[i := i];
    }
    NumbersAreIds(r, owned);
  }

  /** A single pointer that takes over from a single one. */
  method KeepOnlyId(last: RawPointerData, current: RawPointerData) returns (r: RawPointerData)
    requires last.HasIds() && current.Sized()
    requires current.pointerCount == 1 && last.pointerCount == 1
    ensures r.HasIds() && r.SameExceptIds(current)
    ensures r.pointers[0].id == last.pointers[0].id
  {
    r := current.ClearIdBits();
    NoIdsYet(current);
    IdsAreABijection(last);
    var id := last.pointers[0].id;
    ghost var none: map<nat, nat> := map[];
    NextGiven(current, r, none, 0, id);
    r := r.WithId(0, id);
    OnlyHasId(r, none[0 := id]);
  }

  lemma OnlyHasId(r: RawPointerData, owned: map<nat, nat>)
    requires r.IdsAre(owned) && r.pointerCount == 1 && owned.Keys == {0}
    ensures r.HasIds()
  {
    assert Range(1) == {0};
    AllHaveIds(r, owned);
  }

  method MatchAndFill(last: RawPointerData, current: RawPointerData) returns (r: RawPointerData, ghost matches: seq<HeapElement>)
    requires last.HasIds() && current.Sized()
    ensures IsAssignment(last, current, r, matches)
  {
    var matchedCurrentBits, usedIdBits;
    ghost var owned;
    r, matchedCurrentBits, usedIdBits, owned, matches := CarryIds(last, current, current.ClearIdBits());
    MatchesInRange(last, current, owned, matches);
    ValuesSize(owned);
    ghost var all;
    r, all := FillFreshIds(current, r, matchedCurrentBits, usedIdBits, owned);
    AllHaveIds(r, all);
    FilledIdsFollow(last, r, all, owned, matches);
  }

  lemma FilledIdsFollow(last: RawPointerData, r: RawPointerData, all: map<nat, nat>, start: map<nat, nat>, matches: seq<HeapElement>)
    requires last.Sized() && InRange(last, r, matches) && r.pointerCount <= MAX_POINTERS
    requires CarriesPartners(last, start, matches) && start.Values == CarriedIds(last, matches)
    requires Filling(r.pointers, all, start) && all.Keys == Range(r.pointerCount)
    ensures IdsFollow(last, r, matches)
  {
    forall i | 0 <= i < r.pointerCount && i !in MatchedCurrent(matches)
      ensures TakesNextFreeId(CarriedIds(last, matches), MatchedCurrent(matches), r.pointers, i)
    {
      assert InTurn(r.pointers, all, start, i);
    }
  }

  /** Every way through the function, the shortcuts included, gives the ids of one complete greedy
      matching: partners share an id and the rest take the smallest free ones. */
  method AssignPointerIds(last: RawPointerData, current: RawPointerData) returns (r: RawPointerData)
    requires last.HasIds() && current.Sized()
    ensures r.HasIds() && r.SameExceptIds(current)
    ensures exists matches :: IsAssignment(last, current, r, matches)
  {
    hide IsAssignment, RawPointerData.HasIds;
    ghost var matches: seq<HeapElement>;
    CompleteIsSized(last);
    if current.pointerCount == 0 {
      r := current.ClearIdBits();
      NothingToAssign(last, current);
      return;
    }
    if last.pointerCount == 0 {
      r := NumberAll(current);
      NumberedIsAssignment(last, current, r);
      return;
    }
    if current.pointerCount == 1 && last.pointerCount == 1 && current.pointers[0].toolType == last.pointers[0].toolType {
      r := KeepOnlyId(last, current);
      KeptIsAssignment(last, current, r);
      return;
    }
    r, matches := MatchAndFill(last, current);
    ItIsAnAssignment(last, current, r, matches);
  }

  lemma ItIsAnAssignment(last: RawPointerData, current: RawPointerData, r: RawPointerData, matches: seq<HeapElement>)
    requires last.Sized() && current.Sized() && IsAssignment(last, current, r, matches)
    ensures r.HasIds() && r.SameExceptIds(current)
  {
  }

  lemma NothingToAssign(last: RawPointerData, current: RawPointerData)
    requires last.HasIds() && last.Sized() && current.Sized() && current.pointerCount == 0
    ensures current.ClearIdBits().HasIds() && current.ClearIdBits().SameExceptIds(current)
    ensures IsAssignment(last, current, current.ClearIdBits(), [])
  {
    NoIdsYet(current);
    AllHaveIds(current.ClearIdBits(), map[]);
  }

  lemma NumberedIsAssignment(last: RawPointerData, current: RawPointerData, r: RawPointerData)
    requires last.HasIds() && last.Sized() && current.Sized() && last.pointerCount == 0
    requires r.HasIds() && r.SameExceptIds(current) && forall j :: 0 <= j < r.pointerCount ==> r.pointers[j].id == j
    ensures IsAssignment(last, current, r, [])
  {
    NumberedInOrder(r);
    assert MatchedCurrent([]) == {} && CarriedIds(last, []) == {};
  }

  lemma KeptIsAssignment(last: RawPointerData, current: RawPointerData, r: RawPointerData)
    requires last.HasIds() && last.Sized() && current.Sized() && current.pointerCount == 1 && last.pointerCount == 1
    requires current.pointers[0].toolType == last.pointers[0].toolType
    requires r.HasIds() && r.SameExceptIds(current) && r.pointers[0].id == last.pointers[0].id
    ensures IsAssignment(last, current, r, [Candidate(last, current, 0, 0)])
  {
    OnlyOnePair(last, current);
  }

  lemma NumberedInOrder(r: RawPointerData)
    requires r.Sized() && forall j :: 0 <= j < r.pointerCount ==> r.pointers[j].id == j
    ensures forall i :: 0 <= i < r.pointerCount ==> TakesNextFreeId({}, {}, r.pointers, i)
  {
    forall i | 0 <= i < r.pointerCount
      ensures TakesNextFreeId({}, {}, r.pointers, i)
    {
      var before := FreshIdsBefore({}, r.pointers, i);
      forall x: nat
        ensures x in before <==> x < i
      {
        if x < i {
          assert r.pointers[x].id == x;
        }
      }
      assert {} + before == before;
    }
  }

  lemma OnlyOnePair(last: RawPointerData, current: RawPointerData)
    requires last.Sized() && current.Sized()
    requires current.pointerCount == 1 && last.pointerCount == 1 && Comparable(last, current, 0, 0)
    ensures Candidates(last, current) == {Candidate(last, current, 0, 0)}
    ensures Greedy(Candidates(last, current), [Candidate(last, current, 0, 0)])
    ensures Maximal(Candidates(last, current), [Candidate(last, current, 0, 0)])
  {
    var e := Candidate(last, current, 0, 0);
    assert Candidates(last, current) == {e};
    assert [e][..0] == [];
    assert e in [e];
  }

  lemma MatchesInRange(last: RawPointerData, current: RawPointerData, owned: map<nat, nat>, matches: seq<HeapElement>)
    requires last.Sized() && current.Sized()
    requires Greedy(Candidates(last, current), matches) && CarriesPartners(last, owned, matches)
    ensures InRange(last, current, matches)
    ensures owned.Keys == MatchedCurrent(matches) && owned.Values == CarriedIds(last, matches)
    ensures Below(owned.Keys, current.pointerCount)
  {
    forall m | m in matches
      ensures m in Candidates(last, current)
    {
      var k :| 0 <= k < |matches| && matches[k] == m;
      assert BestAt(Candidates(last, current), matches, k);
    }
    forall id
      ensures id in owned.Values <==> id in CarriedIds(last, matches)
    {
      if id in owned.Values {
        var c :| c in owned && owned[c] == id;
        var m :| m in matches && m.currentPointerIndex == c;
        assert last.pointers[m.lastPointerIndex].id == id;
      }
    }
  }

  /** Only pointers of the same tool are matched, and of any two of the same tool one is: the matching is
      complete within each tool. */
  lemma ToolsAreMatchedApart(last: RawPointerData, current: RawPointerData, r: RawPointerData, matches: seq<HeapElement>)
    requires last.Sized() && current.Sized() && IsAssignment(last, current, r, matches)
    ensures forall m :: m in matches ==>
              && m.currentPointerIndex < current.pointerCount && m.lastPointerIndex < last.pointerCount
              && current.pointers[m.currentPointerIndex].toolType == last.pointers[m.lastPointerIndex].toolType
    ensures forall c, l :: 0 <= c < current.pointerCount && 0 <= l < last.pointerCount ==>
              current.pointers[c].toolType == last.pointers[l].toolType ==> c in MatchedCurrent(matches) || l in MatchedLast(matches)
  {
    hide Candidates, InRange, IdsFollow, RawPointerData.HasIds;
    forall m | m in matches
      ensures m.currentPointerIndex < current.pointerCount && m.lastPointerIndex < last.pointerCount
      ensures current.pointers[m.currentPointerIndex].toolType == last.pointers[m.lastPointerIndex].toolType
    {
      MatchIsCandidate(last, current, matches, m);
    }
    forall c, l | 0 <= c < current.pointerCount && 0 <= l < last.pointerCount && current.pointers[c].toolType == last.pointers[l].toolType
      ensures c in MatchedCurrent(matches) || l in MatchedLast(matches)
    {
      PairIsCandidate(last, current, c, l);
      FreeMeansUnmatched(matches, Candidate(last, current, c, l));
    }
  }

  lemma PairIsCandidate(last: RawPointerData, current: RawPointerData, c: nat, l: nat)
    requires last.Sized() && current.Sized() && c < current.pointerCount && l < last.pointerCount
    requires current.pointers[c].toolType == last.pointers[l].toolType
    ensures Candidate(last, current, c, l) in Candidates(last, current)
  {
  }

  /** A matched pointer goes on under its partner's id, and no two pointers have the same one. */
  lemma MatchedKeepTheirIds(last: RawPointerData, current: RawPointerData, r: RawPointerData, matches: seq<HeapElement>)
    requires last.Sized() && current.Sized() && IsAssignment(last, current, r, matches)
    ensures r.Sized() && r.pointerCount == current.pointerCount
    ensures forall m :: m in matches ==>
              && m.currentPointerIndex < MAX_POINTERS && m.lastPointerIndex < MAX_POINTERS
              && r.pointers[m.currentPointerIndex].id == last.pointers[m.lastPointerIndex].id
    ensures forall i, j :: 0 <= i < j < r.pointerCount ==> r.pointers[i].id != r.pointers[j].id
  {
    hide Candidates, RawPointerData.HasIds;
    IdsAreABijection(r);
  }

  /** A pointer that matched none has the smallest id that no matched and no earlier pointer has: every smaller
      one is taken by such a pointer. */
  lemma NewPointersTakeTheLeast(last: RawPointerData, current: RawPointerData, r: RawPointerData, matches: seq<HeapElement>, i: nat, x: nat)
    requires last.Sized() && current.Sized() && IsAssignment(last, current, r, matches)
    requires i < current.pointerCount && i !in MatchedCurrent(matches) && i < |r.pointers| && x < r.pointers[i].id
    ensures exists j :: 0 <= j < current.pointerCount <= |r.pointers| && (j < i || j in MatchedCurrent(matches)) && r.pointers[j].id == x
  {
    hide Candidates, RawPointerData.HasIds;
    assert TakesNextFreeId(CarriedIds(last, matches), MatchedCurrent(matches), r.pointers, i);
    if x in CarriedIds(last, matches) {
      var m :| m in matches && last.pointers[m.lastPointerIndex].id == x;
      MatchIsCandidate(last, current, matches, m);
      assert r.pointers[m.currentPointerIndex].id == x && m.currentPointerIndex in MatchedCurrent(matches);
    } else {
      assert x in FreshIdsBefore(MatchedCurrent(matches), r.pointers, i);
    }
  }

  /** While every squared distance fits its field, each match is the truly closest pair of pointers
      of one tool type that were both still unmatched. */
  lemma MatchesAreTrulyClosest(last: RawPointerData, current: RawPointerData, r: RawPointerData, matches: seq<HeapElement>,
                               k: nat, c: nat, l: nat)
    requires last.Sized() && current.Sized() && IsAssignment(last, current, r, matches)
    requires forall i, j :: 0 <= i < current.pointerCount && 0 <= j < last.pointerCount ==>
               TrueDistance(current.pointers[i], last.pointers[j]) < TWO_POW_48
    requires k < |matches| && c < current.pointerCount && l < last.pointerCount
    requires current.pointers[c].toolType == last.pointers[l].toolType
    requires c !in MatchedCurrent(matches[..k]) && l !in MatchedLast(matches[..k])
    ensures matches[k].currentPointerIndex < current.pointerCount && matches[k].lastPointerIndex < last.pointerCount
    ensures var p, q, p', q' := current.pointers[matches[k].currentPointerIndex], last.pointers[matches[k].lastPointerIndex],
                                current.pointers[c], last.pointers[l];
            p.toolType == q.toolType
            && (p.x - q.x) * (p.x - q.x) + (p.y - q.y) * (p.y - q.y) <= (p'.x - q'.x) * (p'.x - q'.x) + (p'.y - q'.y) * (p'.y - q'.y)
  {
    hide RawPointerData.HasIds, TrueDistance, StoredDistance;
    var m, e := matches[k], Candidate(last, current, c, l);
    assert BestAt(Candidates(last, current), matches, k);
    FreeMeansUnmatched(matches[..k], e);
    PairIsCandidate(last, current, c, l);
    assert m.distance <= e.distance;
    MatchIsCandidate(last, current, matches, m);
    var p, q, p', q' := current.pointers[m.currentPointerIndex], last.pointers[m.lastPointerIndex], current.pointers[c], last.pointers[l];
    StoredDistanceIsExactWhenItFits(p, q);
    StoredDistanceIsExactWhenItFits(p', q');
    DistanceIs(p, q);
    DistanceIs(p', q');
  }
}
