/** The binary min-heap of squared distances that `assignPointerIds` keeps in a local array. */
module DistanceHeap {

  /** `PointerDistanceHeapElement`. */
  datatype HeapElement = HeapElement(currentPointerIndex: nat, lastPointerIndex: nat, distance: nat)

  predicate IsChild(parent: nat, child: nat) {
    child == parent * 2 + 1 || child == parent * 2 + 2
  }

  /** The heap order holds below every parent at index `from` or later. */
  ghost predicate HeapFrom(h: seq<HeapElement>, from: nat) {
    forall p: nat, c: nat {:trigger IsChild(p, c)} ::
      IsChild(p, c) && from <= p && c < |h| ==> h[p].distance <= h[c].distance
  }

  /** The root of a heap is no farther than any other element. */
  lemma {:induction false} RootIsLeast(h: seq<HeapElement>, k: nat)
    requires HeapFrom(h, 0)
    requires k < |h|
    ensures h[0].distance <= h[k].distance
  {
    if k > 0 {
      var p := (k - 1) / 2;
      assert IsChild(p, k);
      RootIsLeast(h, p);
    }
  }

  /** The heap order below `start` holds except between `hole` and its children; what is above the
      hole is no farther than what is below it. */
  ghost predicate HeapExcept(h: seq<HeapElement>, start: nat, hole: nat) {
    && (forall p: nat, c: nat {:trigger IsChild(p, c)} ::
          IsChild(p, c) && start <= p && p != hole && c < |h| ==> h[p].distance <= h[c].distance)
    && (forall g: nat, c: nat {:trigger IsChild(g, hole), IsChild(hole, c)} ::
          IsChild(g, hole) && IsChild(hole, c) && start <= g && c < |h| ==> h[g].distance <= h[c].distance)
  }

  /** Exchanging the hole with its nearer child moves the hole down. */
  lemma HoleMovesDown(h: seq<HeapElement>, start: nat, hole: nat, child: nat)
    requires HeapExcept(h, start, hole)
    requires start <= hole && child < |h| && IsChild(hole, child)
    requires h[child].distance < h[hole].distance
    requires forall c: nat {:trigger IsChild(hole, c)} :: IsChild(hole, c) && c < |h| ==> h[child].distance <= h[c].distance
    ensures HeapExcept(h[hole := h[child]][child := h[hole]], start, child)
  {
    var h' := h[hole := h[child]][child := h[hole]];
    forall p: nat, c: nat {:trigger IsChild(p, c)} | IsChild(p, c) && start <= p && p != child && c < |h|
      ensures h'[p].distance <= h'[c].distance
    {
      if c == hole {
        assert IsChild(p, hole) && IsChild(hole, child);
      }
    }
  }

  /** One sift-down: the loop body shared by the heapify step and by the pop.  The heap occupies the
      first `heapSize` cells, and only the order below `start` may be broken. */
  method SiftDown(heap: array<HeapElement>, heapSize: nat, start: nat)
    requires start < heapSize <= heap.Length
    requires HeapFrom(heap[..heapSize], start + 1)
    modifies heap
    ensures HeapFrom(heap[..heapSize], start)
    ensures multiset(heap[..heapSize]) == old(multiset(heap[..heapSize]))
    ensures heap[heapSize..] == old(heap[heapSize..])
  {
    var parentIndex := start;
    while true
      invariant start <= parentIndex < heapSize
      invariant HeapExcept(heap[..heapSize], start, parentIndex)
      invariant multiset(heap[..heapSize]) == old(multiset(heap[..heapSize]))
      invariant heap[heapSize..] == old(heap[heapSize..])
      decreases heapSize - parentIndex
    {
      ghost var h := heap[..heapSize];
      var childIndex := parentIndex * 2 + 1;
      if childIndex >= heapSize {
        break;
      }
      if childIndex + 1 < heapSize && heap[childIndex + 1].distance < heap[childIndex].distance {
        childIndex := childIndex + 1;
      }
      if heap[parentIndex].distance <= heap[childIndex].distance {
        break;
      }
      HoleMovesDown(h, start, parentIndex, childIndex);
      Swap(heap, heapSize, parentIndex, childIndex);
      parentIndex := childIndex;
    }
  }

  method Swap(heap: array<HeapElement>, heapSize: nat, i: nat, j: nat)
    requires i < heapSize && j < heapSize <= heap.Length
    modifies heap
    ensures heap[..heapSize] == old(heap[..heapSize][i := heap[j]][j := heap[i]])
    ensures multiset(heap[..heapSize]) == old(multiset(heap[..heapSize]))
    ensures heap[heapSize..] == old(heap[heapSize..])
  {
    ghost var before := heap[..heapSize];
    heap[i], heap[j] := heap[j], heap[i];
    assert heap[..heapSize] == before[i := before[j]][j := before[i]];
  }

  /** Bottom-up heapify. */
  method Heapify(heap: array<HeapElement>, heapSize: nat)
    requires heapSize <= heap.Length
    modifies heap
    ensures HeapFrom(heap[..heapSize], 0)
    ensures multiset(heap[..heapSize]) == old(multiset(heap[..heapSize]))
    ensures heap[heapSize..] == old(heap[heapSize..])
  {
    var startIndex: nat := heapSize / 2;
    while startIndex != 0
      invariant startIndex <= heapSize / 2
      invariant HeapFrom(heap[..heapSize], startIndex)
      invariant multiset(heap[..heapSize]) == old(multiset(heap[..heapSize]))
      invariant heap[heapSize..] == old(heap[heapSize..])
    {
      startIndex := startIndex - 1;
      SiftDown(heap, heapSize, startIndex);
    }
  }

  /** The last element takes the place of the root: the rest is still in order, and nothing is lost. */
  lemma LastToRoot(h: seq<HeapElement>)
    requires |h| > 1 && HeapFrom(h, 0)
    ensures HeapFrom([h[|h| - 1]] + h[1..|h| - 1], 1)
    ensures multiset([h[|h| - 1]] + h[1..|h| - 1]) == multiset(h[1..])
  {
    assert h[1..] == h[1..|h| - 1] + [h[|h| - 1]];
  }

  /** Replaces the consumed root by the element after the heap and restores the order.  Before the
      call the consumed root is in cell 0 and the remaining elements are in cells 1 to `heapSize`. */
  method PopRoot(heap: array<HeapElement>, heapSize: nat)
    requires 0 < heapSize < heap.Length
    requires HeapFrom(heap[..heapSize + 1], 0)
    modifies heap
    ensures HeapFrom(heap[..heapSize], 0)
    ensures multiset(heap[..heapSize]) == old(multiset(heap[1..heapSize + 1]))
    ensures heap[heapSize..] == old(heap[heapSize..])
  {
    hide HeapFrom;
    ghost var before := heap[..heapSize + 1];
    LastToRoot(before);
    heap[0] := heap[heapSize];
    assert heap[..heapSize] == [before[heapSize]] + before[1..heapSize];
    assert before[1..] == heap[1..heapSize + 1];
    SiftDown(heap, heapSize, 0);
  }
}
