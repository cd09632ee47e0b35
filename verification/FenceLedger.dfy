/** Where every fence descriptor that was read from the stream is now. */
module FenceLedger {
  import opened CommandStream
  import opened Options

  datatype Place = AsPresent(display: nat) | AsRelease(display: nat, index: nat) | HandedOut | Closed

  ghost predicate NoDuplicates(list: seq<int>) {
    forall i, j :: 0 <= i < j < |list| ==> list[i] != list[j]
  }

  /** The fence is where `place` says. */
  ghost predicate IsAt(displays: map<nat, ReturnData>, closed: seq<int>, handed: set<int>, f: int, place: Place) {
    match place
    case AsPresent(d) => d in displays && displays[d].presentFence == f && f !in closed && f !in handed
    case AsRelease(d, i) => d in displays && i < |displays[d].releaseFences| && displays[d].releaseFences[i] == f && f !in closed && f !in handed
    case HandedOut => f in handed && f !in closed
    case Closed => f in closed && f !in handed
  }

  ghost predicate HeldRight(d: nat, data: ReturnData, place: map<int, Place>) {
    && (data.presentFence >= 0 ==> data.presentFence in place && place[data.presentFence] == AsPresent(d))
    && forall i :: 0 <= i < |data.releaseFences| && data.releaseFences[i] >= 0 ==>
         data.releaseFences[i] in place && place[data.releaseFences[i]] == AsRelease(d, i)
  }

  /** Every descriptor duplicated so far is in exactly one place: one cell of the reader, handed out, or
      closed; and none was closed twice. */
  ghost predicate Conserved(displays: map<nat, ReturnData>, nextFence: nat, closed: seq<int>, handed: set<int>, place: map<int, Place>) {
    && (forall f :: f in place <==> 0 <= f < nextFence)
    && (forall f :: f in place ==> IsAt(displays, closed, handed, f, place[f]))
    && (forall d :: d in displays ==> HeldRight(d, displays[d], place))
    && NoDuplicates(closed) && (forall f :: f in closed ==> f in place && place[f] == Closed)
    && (forall f :: f in handed ==> f in place && place[f] == HandedOut)
  }

  ghost predicate IsReleaseAt(displays: map<nat, ReturnData>, d: nat, i: nat, f: int) {
    d in displays && i < |displays[d].releaseFences| && displays[d].releaseFences[i] == f
  }

  /** What conservation says without the ledger: nothing is in two places, and nothing is lost. */
  lemma EachFenceIsInOnePlace(displays: map<nat, ReturnData>, nextFence: nat, closed: seq<int>, handed: set<int>, place: map<int, Place>, f: int)
    requires Conserved(displays, nextFence, closed, handed, place) && 0 <= f < nextFence
    ensures !(f in closed && f in handed)
    ensures (f in closed || f in handed) <==>
              !(exists d :: d in displays && (displays[d].presentFence == f || f in displays[d].releaseFences))
    ensures forall d, e :: d in displays && e in displays && displays[d].presentFence == f && displays[e].presentFence == f ==> d == e
    ensures forall d, e :: d in displays && e in displays && displays[d].presentFence == f ==> f !in displays[e].releaseFences
    ensures forall d, i, e, j :: IsReleaseAt(displays, d, i, f) && IsReleaseAt(displays, e, j, f) ==> d == e && i == j
    ensures forall i, j :: 0 <= i < j < |closed| ==> closed[i] != closed[j]
  {
    assert f in place && IsAt(displays, closed, handed, f, place[f]);
    forall d | d in displays
      ensures displays[d].presentFence == f ==> place[f] == AsPresent(d)
      ensures forall i :: 0 <= i < |displays[d].releaseFences| && displays[d].releaseFences[i] == f ==> place[f] == AsRelease(d, i)
    {
      assert HeldRight(d, displays[d], place);
    }
    match place[f]
    case AsPresent(d) => assert d in displays && displays[d].presentFence == f;
    case AsRelease(d, i) => assert d in displays && f in displays[d].releaseFences;
    case HandedOut =>
    case Closed =>
  }

  /** A step that touches no fence. */
  lemma SameFences(displays: map<nat, ReturnData>, nextFence: nat, closed: seq<int>, handed: set<int>, place: map<int, Place>,
                   displays': map<nat, ReturnData>)
    requires Conserved(displays, nextFence, closed, handed, place)
    requires forall d :: d in displays ==> d in displays' && displays'[d].presentFence == displays[d].presentFence
                                           && displays'[d].releaseFences == displays[d].releaseFences
    requires forall d :: d in displays' && d !in displays ==> displays'[d].presentFence < 0 && displays'[d].releaseFences == []
    ensures Conserved(displays', nextFence, closed, handed, place)
  {
    forall f | f in place
      ensures IsAt(displays', closed, handed, f, place[f])
    {
      assert IsAt(displays, closed, handed, f, place[f]);
    }
    forall d | d in displays'
      ensures HeldRight(d, displays'[d], place)
    {
      if d in displays {
        assert HeldRight(d, displays[d], place);
      }
    }
  }

  /** A display without fences goes. */
  lemma WithoutDisplay(displays: map<nat, ReturnData>, nextFence: nat, closed: seq<int>, handed: set<int>, place: map<int, Place>, d: nat)
    requires Conserved(displays, nextFence, closed, handed, place) && d in displays
    requires displays[d].presentFence < 0 && forall i :: 0 <= i < |displays[d].releaseFences| ==> displays[d].releaseFences[i] < 0
    ensures Conserved(displays - {d}, nextFence, closed, handed, place)
  {
    forall f | f in place
      ensures IsAt(displays - {d}, closed, handed, f, place[f])
    {
      assert IsAt(displays, closed, handed, f, place[f]);
    }
    forall e | e in displays - {d}
      ensures HeldRight(e, (displays - {d})[e], place)
    {
      assert HeldRight(e, displays[e], place);
    }
  }

  /** The present fence of a display is closed. */
  lemma ClosePresent(displays: map<nat, ReturnData>, nextFence: nat, closed: seq<int>, handed: set<int>, place: map<int, Place>, d: nat)
    requires Conserved(displays, nextFence, closed, handed, place) && d in displays && displays[d].presentFence >= 0
    ensures var f := displays[d].presentFence;
            f in place && f !in closed && f !in handed
            && Conserved(displays[d := displays[d].(presentFence := NO_FENCE)], nextFence, closed + [f], handed, place[f := Closed])
  {
    var f := displays[d].presentFence;
    assert HeldRight(d, displays[d], place) && IsAt(displays, closed, handed, f, place[f]);
    Moved(displays, nextFence, closed, handed, place, f, displays[d := displays[d].(presentFence := NO_FENCE)], closed + [f], handed, Closed);
  }

  /** A release fence of a display is closed. */
  lemma CloseRelease(displays: map<nat, ReturnData>, nextFence: nat, closed: seq<int>, handed: set<int>, place: map<int, Place>, d: nat, i: nat)
    requires Conserved(displays, nextFence, closed, handed, place) && d in displays
    requires i < |displays[d].releaseFences| && displays[d].releaseFences[i] >= 0
    ensures var f := displays[d].releaseFences[i];
            f in place && f !in closed && f !in handed
            && Conserved(displays[d := displays[d].(releaseFences := displays[d].releaseFences[i := NO_FENCE])],
                         nextFence, closed + [f], handed, place[f := Closed])
  {
    var f := displays[d].releaseFences[i];
    assert HeldRight(d, displays[d], place) && IsAt(displays, closed, handed, f, place[f]);
    Moved(displays, nextFence, closed, handed, place, f,
          displays[d := displays[d].(releaseFences := displays[d].releaseFences[i := NO_FENCE])], closed + [f], handed, Closed);
  }

  /** The present fence is handed out. */
  lemma HandPresent(displays: map<nat, ReturnData>, nextFence: nat, closed: seq<int>, handed: set<int>, place: map<int, Place>, d: nat)
    requires Conserved(displays, nextFence, closed, handed, place) && d in displays && displays[d].presentFence >= 0
    ensures var f := displays[d].presentFence;
            f in place && f !in closed && f !in handed
            && Conserved(displays[d := displays[d].(presentFence := NO_FENCE)], nextFence, closed, handed + {f}, place[f := HandedOut])
  {
    var f := displays[d].presentFence;
    assert HeldRight(d, displays[d], place) && IsAt(displays, closed, handed, f, place[f]);
    Moved(displays, nextFence, closed, handed, place, f, displays[d := displays[d].(presentFence := NO_FENCE)], closed, handed + {f}, HandedOut);
  }

  /** One held fence leaves its cell, to be closed or handed out. */
  lemma Moved(displays: map<nat, ReturnData>, nextFence: nat, closed: seq<int>, handed: set<int>, place: map<int, Place>, f: int,
              displays': map<nat, ReturnData>, closed': seq<int>, handed': set<int>, to: Place)
    requires Conserved(displays, nextFence, closed, handed, place) && f in place && (place[f].AsPresent? || place[f].AsRelease?)
    requires (to == Closed && closed' == closed + [f] && handed' == handed) || (to == HandedOut && closed' == closed && handed' == handed + {f})
    requires displays'.Keys == displays.Keys
    requires forall d :: d in displays ==>
               && displays'[d].presentFence == (if displays[d].presentFence == f then NO_FENCE else displays[d].presentFence)
               && |displays'[d].releaseFences| == |displays[d].releaseFences|
               && forall i :: 0 <= i < |displays[d].releaseFences| ==>
                    displays'[d].releaseFences[i] == if displays[d].releaseFences[i] == f then NO_FENCE else displays[d].releaseFences[i]
    ensures Conserved(displays', nextFence, closed', handed', place[f := to])
  {
    var place' := place[f := to];
    assert IsAt(displays, closed, handed, f, place[f]);
    forall g | g in place'
      ensures IsAt(displays', closed', handed', g, place'[g])
    {
      if g != f {
        assert IsAt(displays, closed, handed, g, place[g]);
      }
    }
    forall d | d in displays'
      ensures HeldRight(d, displays'[d], place')
    {
      assert HeldRight(d, displays[d], place);
    }
  }

  /** A new descriptor goes into the empty present cell, or no descriptor does. */
  lemma NewPresent(displays: map<nat, ReturnData>, nextFence: nat, closed: seq<int>, handed: set<int>, place: map<int, Place>, d: nat)
    requires Conserved(displays, nextFence, closed, handed, place) && d in displays && displays[d].presentFence < 0
    ensures Conserved(displays[d := displays[d].(presentFence := nextFence)], nextFence + 1, closed, handed, place[nextFence := AsPresent(d)])
  {
    Arrived(displays, nextFence, closed, handed, place, d, displays[d].(presentFence := nextFence), AsPresent(d));
  }

  /** A fence is appended to the release fences: a new descriptor, or none. */
  lemma NewRelease(displays: map<nat, ReturnData>, nextFence: nat, closed: seq<int>, handed: set<int>, place: map<int, Place>, d: nat)
    requires Conserved(displays, nextFence, closed, handed, place) && d in displays
    ensures var fences := displays[d].releaseFences;
            Conserved(displays[d := displays[d].(releaseFences := fences + [nextFence])], nextFence + 1, closed, handed,
                      place[nextFence := AsRelease(d, |fences|)])
  {
    Arrived(displays, nextFence, closed, handed, place, d, displays[d].(releaseFences := displays[d].releaseFences + [nextFence]),
            AsRelease(d, |displays[d].releaseFences|));
  }

  lemma Arrived(displays: map<nat, ReturnData>, nextFence: nat, closed: seq<int>, handed: set<int>, place: map<int, Place>, d: nat,
                data: ReturnData, to: Place)
    requires Conserved(displays, nextFence, closed, handed, place) && d in displays
    requires (to == AsPresent(d) && displays[d].presentFence < 0 && data.presentFence == nextFence && data.releaseFences == displays[d].releaseFences)
          || (to == AsRelease(d, |displays[d].releaseFences|) && data.presentFence == displays[d].presentFence
              && data.releaseFences == displays[d].releaseFences + [nextFence])
    ensures Conserved(displays[d := data], nextFence + 1, closed, handed, place[nextFence := to])
  {
    var displays', place' := displays[d := data], place[nextFence := to];
    assert nextFence !in place;
    forall f | f in place'
      ensures IsAt(displays', closed, handed, f, place'[f])
    {
      if f != nextFence {
        assert IsAt(displays, closed, handed, f, place[f]);
      }
    }
    forall e | e in displays'
      ensures HeldRight(e, displays'[e], place')
    {
      assert HeldRight(e, displays[e], place);
    }
  }

  lemma NoNewRelease(displays: map<nat, ReturnData>, nextFence: nat, closed: seq<int>, handed: set<int>, place: map<int, Place>, d: nat)
    requires Conserved(displays, nextFence, closed, handed, place) && d in displays
    ensures Conserved(displays[d := displays[d].(releaseFences := displays[d].releaseFences + [NO_FENCE])], nextFence, closed, handed, place)
  {
    var displays' := displays[d := displays[d].(releaseFences := displays[d].releaseFences + [NO_FENCE])];
    forall f | f in place
      ensures IsAt(displays', closed, handed, f, place[f])
    {
      assert IsAt(displays, closed, handed, f, place[f]);
    }
    forall e | e in displays'
      ensures HeldRight(e, displays'[e], place)
    {
      assert HeldRight(e, displays[e], place);
    }
  }

  ghost function Real(fences: seq<int>): set<int> {
    set f | f in fences && f >= 0
  }

  /** All release fences of a display are handed out. */
  lemma HandReleases(displays: map<nat, ReturnData>, nextFence: nat, closed: seq<int>, handed: set<int>, place: map<int, Place>, d: nat)
    requires Conserved(displays, nextFence, closed, handed, place) && d in displays
    ensures var taken := Real(displays[d].releaseFences);
            && (forall f :: f in taken ==> f in place && f !in closed && f !in handed)
            && Conserved(displays[d := displays[d].(releaseFences := [])], nextFence, closed, handed + taken,
                         map f | f in place :: if f in taken then HandedOut else place[f])
  {
    var taken := Real(displays[d].releaseFences);
    var displays' := displays[d := displays[d].(releaseFences := [])];
    var place' := map f | f in place :: if f in taken then HandedOut else place[f];
    assert HeldRight(d, displays[d], place);
    forall f | f in taken
      ensures f in place && f !in closed && f !in handed && place[f].AsRelease? && place[f].display == d
    {
      assert IsAt(displays, closed, handed, f, place[f]);
    }
    forall f | f in place'
      ensures IsAt(displays', closed, handed + taken, f, place'[f])
    {
      assert IsAt(displays, closed, handed, f, place[f]);
    }
    forall e | e in displays'
      ensures HeldRight(e, displays'[e], place')
    {
      assert HeldRight(e, displays[e], place);
    }
  }

  /** The release fences of the first `n` triples have been appended. */
  ghost function Appended(displays: map<nat, ReturnData>, handles: seq<bool>, args: seq<nat>, nextFence: nat, d: nat, n: nat): map<nat, ReturnData>
    requires d in displays && 3 * n <= |args|
  {
    displays[d := displays[d].(releaseFences := displays[d].releaseFences + Fences(handles, args[..3 * n], nextFence))]
  }

  lemma FencesAt(handles: seq<bool>, args: seq<nat>, nextFence: nat, n: nat, i: nat)
    requires 3 * n <= |args|
    ensures |Fences(handles, args[..3 * n], nextFence)| == n
    ensures i < n ==> Fences(handles, args[..3 * n], nextFence)[i]
                      == FenceOf(handles, args[3 * i + 2], nextFence + FencesIn(handles, args, i))
  {
    hide FencesIn, FenceOf;
    assert (3 * n) / 3 == n;
    if i < n {
      FencesInPrefix(handles, args, 3 * n, i);
      assert args[..3 * n][3 * i + 2] == args[3 * i + 2];
    }
  }

  lemma OneMoreFence(handles: seq<bool>, args: seq<nat>, nextFence: nat, n: nat)
    requires 3 * (n + 1) <= |args|
    ensures Fences(handles, args[..3 * (n + 1)], nextFence)
         == Fences(handles, args[..3 * n], nextFence) + [FenceOf(handles, args[3 * n + 2], nextFence + FencesIn(handles, args, n))]
  {
    hide Fences, FencesIn, FenceOf;
    var longer, shorter := Fences(handles, args[..3 * (n + 1)], nextFence), Fences(handles, args[..3 * n], nextFence);
    var last := FenceOf(handles, args[3 * n + 2], nextFence + FencesIn(handles, args, n));
    FencesAt(handles, args, nextFence, n + 1, n);
    FencesAt(handles, args, nextFence, n, n);
    forall i | 0 <= i < n + 1
      ensures longer[i] == (shorter + [last])[i]
    {
      FencesAt(handles, args, nextFence, n + 1, i);
      FencesAt(handles, args, nextFence, n, i);
    }
  }

  lemma AppendedStep(displays: map<nat, ReturnData>, handles: seq<bool>, args: seq<nat>, nextFence: nat, d: nat, n: nat)
    requires d in displays && 3 * (n + 1) <= |args|
    ensures var before := Appended(displays, handles, args, nextFence, d, n);
            d in before && Appended(displays, handles, args, nextFence, d, n + 1)
              == before[d := before[d].(releaseFences := before[d].releaseFences
                   + [FenceOf(handles, args[3 * n + 2], nextFence + FencesIn(handles, args, n))])]
    ensures FencesIn(handles, args, n + 1) == FencesIn(handles, args, n) + if HasFence(handles, args[3 * n + 2]) then 1 else 0
  {
    hide Fences, FenceOf;
    OneMoreFence(handles, args, nextFence, n);
    var held, fence := displays[d].releaseFences, FenceOf(handles, args[3 * n + 2], nextFence + FencesIn(handles, args, n));
    var shorter := Fences(handles, args[..3 * n], nextFence);
    assert held + (shorter + [fence]) == (held + shorter) + [fence];
  }

  lemma {:induction false} FencesInPrefix(handles: seq<bool>, args: seq<nat>, m: nat, n: nat)
    requires 3 * n <= m <= |args|
    ensures FencesIn(handles, args[..m], n) == FencesIn(handles, args, n)
  {
    if n > 0 {
      FencesInPrefix(handles, args, m, n - 1);
    }
  }

  lemma {:induction false} ReleasesConserve(displays: map<nat, ReturnData>, nextFence: nat, closed: seq<int>, handed: set<int>, place: map<int, Place>,
                                            handles: seq<bool>, args: seq<nat>, d: nat, n: nat) returns (place': map<int, Place>)
    requires Conserved(displays, nextFence, closed, handed, place) && d in displays && 3 * n <= |args|
    ensures Conserved(Appended(displays, handles, args, nextFence, d, n), nextFence + FencesIn(handles, args, n), closed, handed, place')
  {
    hide Conserved, Appended, Fences, FencesIn;
    if n == 0 {
      place' := place;
      NothingAppended(displays, handles, args, nextFence, d);
    } else {
      var before := Appended(displays, handles, args, nextFence, d, n - 1);
      var next := nextFence + FencesIn(handles, args, n - 1);
      place' := ReleasesConserve(displays, nextFence, closed, handed, place, handles, args, d, n - 1);
      AppendedStep(displays, handles, args, nextFence, d, n - 1);
      if HasFence(handles, args[3 * n - 1]) {
        NewRelease(before, next, closed, handed, place', d);
        place' := place'[next := AsRelease(d, |before[d].releaseFences|)];
      } else {
        NoNewRelease(before, next, closed, handed, place', d);
      }
    }
  }

  lemma NothingAppended(displays: map<nat, ReturnData>, handles: seq<bool>, args: seq<nat>, nextFence: nat, d: nat)
    requires d in displays
    ensures Appended(displays, handles, args, nextFence, d, 0) == displays && FencesIn(handles, args, 0) == 0
  {
    assert Fences(handles, args[..0], nextFence) == [];
    assert displays[d].releaseFences + [] == displays[d].releaseFences;
  }

  lemma PresentConserves(displays: map<nat, ReturnData>, nextFence: nat, closed: seq<int>, handed: set<int>, place: map<int, Place>,
                         d: nat, isNew: bool) returns (place': map<int, Place>)
    requires Conserved(displays, nextFence, closed, handed, place) && d in displays
    ensures Conserved(displays[d := displays[d].(presentFence := if isNew then nextFence else NO_FENCE)], nextFence + (if isNew then 1 else 0),
                      closed + (if displays[d].presentFence >= 0 then [displays[d].presentFence] else []), handed, place')
  {
    hide Conserved;
    var emptied := displays[d := displays[d].(presentFence := NO_FENCE)];
    var closed' := closed + if displays[d].presentFence >= 0 then [displays[d].presentFence] else [];
    place' := place;
    if displays[d].presentFence >= 0 {
      ClosePresent(displays, nextFence, closed, handed, place, d);
      place' := place[displays[d].presentFence := Closed];
    } else {
      assert closed' == closed;
      NothingThere(displays, nextFence, closed, handed, place, d);
    }
    if isNew {
      NewPresent(emptied, nextFence, closed', handed, place', d);
      assert emptied[d := emptied[d].(presentFence := nextFence)] == displays[d := displays[d].(presentFence := nextFence)];
      place' := place'[nextFence := AsPresent(d)];
    }
  }

  /** Every negative number means that there is no fence. */
  lemma NothingThere(displays: map<nat, ReturnData>, nextFence: nat, closed: seq<int>, handed: set<int>, place: map<int, Place>, d: nat)
    requires Conserved(displays, nextFence, closed, handed, place) && d in displays && displays[d].presentFence < 0
    ensures Conserved(displays[d := displays[d].(presentFence := NO_FENCE)], nextFence, closed, handed, place)
  {
    var displays' := displays[d := displays[d].(presentFence := NO_FENCE)];
    forall f | f in place
      ensures IsAt(displays', closed, handed, f, place[f])
    {
      assert IsAt(displays, closed, handed, f, place[f]);
    }
    forall e | e in displays'
      ensures HeldRight(e, displays'[e], place)
    {
      assert HeldRight(e, displays[e], place);
    }
  }

  /** Every accepted command keeps the fences conserved. */
  lemma ExecuteConserves(r: Results, handles: seq<bool>, opcode: Opcode, args: seq<nat>, handed: set<int>, place: map<int, Place>)
    returns (place': map<int, Place>)
    requires r.Valid() && Conserved(r.displays, r.nextFence, r.closed, handed, place)
    requires Execute(r, handles, opcode, args).Some?
    ensures var next := Execute(r, handles, opcode, args).value;
            Conserved(next.displays, next.nextFence, next.closed, handed, place')
  {
    hide Conserved, Fences, FencesIn, Layers, Thirds, AllSigned;
    var next := Execute(r, handles, opcode, args).value;
    match opcode {
      case SetPresentFence =>
        place' := PresentConserves(r.displays, r.nextFence, r.closed, handed, place, r.current.value, HasFence(handles, args[0]));
      case SetReleaseFences =>
        var d, n := r.current.value, |args| / 3;
        place' := ReleasesConserve(r.displays, r.nextFence, r.closed, handed, place, handles, args, d, n);
        assert args[..3 * n] == args;
        var fenced := Appended(r.displays, handles, args, r.nextFence, d, n);
        SameFences(fenced, next.nextFence, r.closed, handed, place', next.displays);
      case _ =>
        place' := place;
        SameFences(r.displays, r.nextFence, r.closed, handed, place, next.displays);
    }
  }
}
