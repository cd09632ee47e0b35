/** The 32-bit id sets of the input reader.

    `BitSet32` is not part of this model's source tree; a value of it is modelled as the set of its
    marked bits, and the operations below are its documented queries.  Iteration with
    `clearFirstMarkedBit` visits the marked bits in ascending order. */
module BitSets {

  const MAX_POINTERS: nat := 16
  const MAX_POINTER_ID: nat := 31

  ghost predicate Below(s: set<nat>, n: nat) {
    forall x :: x in s ==> x < n
  }

  /** The numbers 0, 1, ..., n - 1. */
  function Range(n: nat): (r: set<nat>)
    ensures forall x: nat :: x in r <==> x < n
    ensures |r| == n
  {
    if n == 0 then {} else Range(n - 1) + {n - 1}
  }

  lemma SubsetSize(s: set<nat>, t: set<nat>)
    requires s <= t
    ensures |s| <= |t|
    ensures |s| == |t| ==> s == t
  {
    assert |t - s| == |t| - |s|;
    if |s| == |t| {
      assert t - s == {};
      assert s == t;
    }
  }

  lemma BelowSize(s: set<nat>, n: nat)
    requires Below(s, n)
    ensures |s| <= n
    ensures |s| == n ==> s == Range(n)
  {
    SubsetSize(s, Range(n));
  }

  lemma LeastExists(s: set<nat>, w: nat)
    requires w in s
    ensures exists m :: m in s && forall x :: x in s ==> m <= x
    decreases w
  {
    if x :| x in s && x < w {
      LeastExists(s, x);
    } else {
      assert w in s && forall x :: x in s ==> w <= x;
    }
  }

  /** `firstMarkedBit`. */
  function FirstMarked(s: set<nat>): (m: nat)
    requires s != {}
    ensures m in s
    ensures forall x :: x in s ==> m <= x
  {
    LeastExists(s, var w :| w in s; w);
    var m :| m in s && forall x | x in s :: m <= x;
    m
  }

  ghost predicate IsFirstUnmarked(s: set<nat>, m: nat) {
    m !in s && forall x: nat :: x < m ==> x in s
  }

  lemma NotAllMarked(s: set<nat>, n: nat)
    requires |s| < n
    ensures Range(n) - s != {}
  {
    assert |Range(n) - s| + |Range(n) * s| == n;
    SubsetSize(Range(n) * s, s);
  }

  /** The bit that `markFirstUnmarkedBit` marks. */
  function FirstUnmarked(s: set<nat>): (m: nat)
    ensures IsFirstUnmarked(s, m)
    ensures m <= |s|
  {
    var unmarked := Range(|s| + 1) - s;
    NotAllMarked(s, |s| + 1);
    var m := FirstMarked(unmarked);
    assert IsFirstUnmarked(s, m) by {
      forall x: nat | x < m
        ensures x in s
      {
        assert x in Range(|s| + 1) && x !in unmarked;
      }
    }
    m
  }

  ghost predicate Increasing(order: seq<nat>) {
    forall i, j :: 0 <= i < j < |order| ==> order[i] < order[j]
  }

  ghost function Elements(order: seq<nat>): set<nat> {
    set x | x in order
  }

  /** `order` lists `s` in ascending order. */
  ghost predicate Lists(s: set<nat>, order: seq<nat>) {
    Increasing(order) && forall x :: x in s <==> x in order
  }

  lemma {:induction false} CanList(s: set<nat>) returns (order: seq<nat>)
    ensures Lists(s, order)
    decreases |s|
  {
    if s == {} {
      order := [];
    } else {
      var m := FirstMarked(s);
      var rest := CanList(s - {m});
      order := [m] + rest;
      assert forall j :: 0 <= j < |rest| ==> rest[j] in s - {m};
    }
  }

  lemma ElementsOfListed(s: set<nat>, order: seq<nat>)
    requires Lists(s, order)
    ensures Elements(order) == s
  {
  }

  lemma {:induction false} ListedSize(s: set<nat>, order: seq<nat>)
    requires Lists(s, order)
    ensures |order| == |s|
    decreases |order|
  {
    if order != [] {
      FirstIsLeast(s, order);
      ListedSize(s - {order[0]}, order[1..]);
    } else {
      assert s == {};
    }
  }

  lemma FirstIsLeast(s: set<nat>, order: seq<nat>)
    requires Lists(s, order) && order != []
    ensures order[0] in s && forall x :: x in s ==> order[0] <= x
    ensures Lists(s - {order[0]}, order[1..])
  {
    forall x
      ensures x in s - {order[0]} <==> x in order[1..]
    {
      if x in order && x != order[0] {
        var k :| 0 <= k < |order| && order[k] == x;
        assert order[1..][k - 1] == x;
      }
    }
  }

  lemma {:induction false} ListsOnce(s: set<nat>, p: seq<nat>, q: seq<nat>)
    requires Lists(s, p) && Lists(s, q)
    ensures p == q
    decreases |p|
  {
    ListedSize(s, p);
    ListedSize(s, q);
    if p != [] {
      FirstIsLeast(s, p);
      FirstIsLeast(s, q);
      ListsOnce(s - {p[0]}, p[1..], q[1..]);
    }
  }

  /** The marked bits in the order in which `clearFirstMarkedBit` removes them. */
  ghost function Ascending(s: set<nat>): (order: seq<nat>)
    ensures Lists(s, order)
  {
    assert exists order :: Lists(s, order) by {
      var order := CanList(s);
    }
    var order :| Lists(s, order);
    order
  }

  lemma AscendingLists(s: set<nat>)
    ensures Elements(Ascending(s)) == s && |Ascending(s)| == |s| && Increasing(Ascending(s))
    ensures Ascending(s) == [] <==> s == {}
  {
    ElementsOfListed(s, Ascending(s));
    ListedSize(s, Ascending(s));
  }

  lemma OneElement(s: set<nat>, id: nat)
    requires id in s && |s| == 1
    ensures s == {id}
  {
    SubsetSize({id}, s);
  }
}
