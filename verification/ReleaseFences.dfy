/** `Display::getReleaseFences`: takes the release fences over from the reader and gives them to the layers. */
module ReleaseFences {
  import opened BitSets
  import opened CommandStream
  import opened FenceLedger
  import opened CommandReader

  datatype Status = Ok | BadLayer

  /** No descriptor comes twice; a negative number stands for none. */
  ghost predicate Distinct(fences: seq<int>) {
    forall i, j :: 0 <= i < j < |fences| && fences[i] >= 0 ==> fences[i] != fences[j]
  }

  ghost predicate IsFirst(layerIds: seq<nat>, k: nat) {
    k < |layerIds| && layerIds[k] !in layerIds[..k]
  }

  /** `close` and the destructor of `Fence` do nothing for a negative number. */
  function WithClosed(closed: seq<int>, fence: int): seq<int> {
    if fence >= 0 then closed + [fence] else closed
  }

  /** The first `n` fences are each in one place: the first one of a layer is stored with it, any other one is
      closed, and closed once. */
  ghost predicate Placed(layerIds: seq<nat>, fences: seq<int>, n: nat, stored: map<nat, int>, closed: seq<int>)
    requires n <= |layerIds| == |fences|
  {
    && (forall id :: id in stored <==> id in layerIds[..n])
    && (forall k :: 0 <= k < n && IsFirst(layerIds, k) ==> layerIds[k] in stored && stored[layerIds[k]] == fences[k])
    && (forall k :: 0 <= k < n && fences[k] >= 0 ==> (fences[k] in closed <==> !IsFirst(layerIds, k)))
    && ClosedOnce(fences, n, closed)
  }

  ghost predicate Among(fences: seq<int>, n: nat, f: int)
    requires n <= |fences|
  {
    exists k :: 0 <= k < n && fences[k] == f
  }

  /** Only descriptors among the first `n` were closed, none of them twice. */
  ghost predicate ClosedOnce(fences: seq<int>, n: nat, closed: seq<int>)
    requires n <= |fences|
  {
    NoDuplicates(closed) && forall f :: f in closed ==> f >= 0 && Among(fences, n, f)
  }

  lemma CloseOneMore(fences: seq<int>, n: nat, closed: seq<int>)
    requires n < |fences| && Distinct(fences) && ClosedOnce(fences, n, closed)
    ensures ClosedOnce(fences, n + 1, WithClosed(closed, fences[n]))
    ensures forall k :: 0 <= k < n && fences[k] >= 0 ==> (fences[k] in WithClosed(closed, fences[n]) <==> fences[k] in closed)
    ensures fences[n] >= 0 ==> fences[n] !in closed && fences[n] in WithClosed(closed, fences[n])
  {
    assert fences[n] >= 0 ==> !Among(fences, n, fences[n]);
    assert Among(fences, n + 1, fences[n]);
    forall f | f in closed
      ensures Among(fences, n + 1, f)
    {
      assert Among(fences, n, f);
    }
  }

  lemma LeaveOneMore(fences: seq<int>, n: nat, closed: seq<int>)
    requires n < |fences| && Distinct(fences) && ClosedOnce(fences, n, closed)
    ensures ClosedOnce(fences, n + 1, closed) && (fences[n] >= 0 ==> fences[n] !in closed)
  {
    assert fences[n] >= 0 ==> !Among(fences, n, fences[n]);
    forall f | f in closed
      ensures Among(fences, n + 1, f)
    {
      assert Among(fences, n, f);
    }
  }

  lemma OneMoreId(ids: seq<nat>, n: nat)
    requires n < |ids|
    ensures forall id :: id in ids[..n + 1] <==> id in ids[..n] || id == ids[n]
    ensures forall k :: 0 <= k < n ==> ids[k] in ids[..n]
    ensures IsFirst(ids, n) <==> ids[n] !in ids[..n]
  {
    assert ids[..n + 1] == ids[..n] + [ids[n]];
    forall k | 0 <= k < n
      ensures ids[k] in ids[..n]
    {
      assert ids[..n][k] == ids[k];
    }
  }

  lemma CloseDuplicate(layerIds: seq<nat>, fences: seq<int>, n: nat, stored: map<nat, int>, closed: seq<int>)
    requires n < |layerIds| == |fences| && Distinct(fences) && Placed(layerIds, fences, n, stored, closed) && layerIds[n] in stored
    ensures Placed(layerIds, fences, n + 1, stored, WithClosed(closed, fences[n]))
  {
    hide ClosedOnce, Distinct, WithClosed, IsFirst;
    OneMoreId(layerIds, n);
    CloseOneMore(fences, n, closed);
  }

  lemma StoreFirst(layerIds: seq<nat>, fences: seq<int>, n: nat, stored: map<nat, int>, closed: seq<int>)
    requires n < |layerIds| == |fences| && Distinct(fences) && Placed(layerIds, fences, n, stored, closed) && layerIds[n] !in stored
    ensures Placed(layerIds, fences, n + 1, stored[layerIds[n] := fences[n]], closed)
  {
    hide ClosedOnce, Distinct, IsFirst;
    OneMoreId(layerIds, n);
    LeaveOneMore(fences, n, closed);
  }

  /** The map of stored fences is destroyed, and every fence in it is closed. */
  method CloseStored(stored: map<nat, int>, already: seq<int>) returns (closed: seq<int>)
    requires NoDuplicates(already)
    requires forall id :: id in stored ==> stored[id] !in already
    requires forall i, j :: i in stored && j in stored && i != j && stored[i] >= 0 ==> stored[i] != stored[j]
    ensures NoDuplicates(closed)
    ensures forall f :: f in closed <==> f in already || exists id :: id in stored && stored[id] == f && f >= 0
  {
    closed := already;
    var rest := stored.Keys;
    while rest != {}
      invariant rest <= stored.Keys && NoDuplicates(closed)
      invariant forall id :: id in rest ==> stored[id] !in closed || stored[id] < 0
      invariant forall f :: f in closed <==> f in already || exists id :: id in stored && id !in rest && stored[id] == f && f >= 0
      decreases |rest|
    {
      var id := FirstMarked(rest);
      ghost var before, was := closed, rest;
      closed := WithClosed(closed, stored[id]);
      rest := rest - {id};
      forall f
        ensures f in closed <==> f in already || exists i :: i in stored && i !in rest && stored[i] == f && f >= 0
      {
        assert f in closed <==> f in before || (f == stored[id] && f >= 0);
        if i :| i in stored && i !in was && stored[i] == f && f >= 0 {
          assert i !in rest;
        }
        if i :| i in stored && i !in rest && stored[i] == f && f >= 0 {
          assert i == id || i !in was;
        }
      }
    }
  }

  /** `getReleaseFences` from the pairs of layers and fences on.  Each fence is stored with its layer or
        closed, exactly once; an unknown layer makes the call fail, and then all fences are closed. */
  method StoreReleaseFences(layerIds: seq<nat>, fences: seq<int>, layers: set<nat>, out: map<nat, int>)
    returns (status: Status, result: map<nat, int>, closed: seq<int>)
    requires |layerIds| == |fences| && Distinct(fences)
    ensures status == Ok <==> forall k :: 0 <= k < |layerIds| ==> layerIds[k] in layers
    ensures status == Ok ==> Placed(layerIds, fences, |fences|, result, closed)
    ensures status == BadLayer ==> result == out && ClosedOnce(fences, |fences|, closed)
                                   && forall k :: 0 <= k < |fences| && fences[k] >= 0 ==> fences[k] in closed
  {
    hide Placed, ClosedOnce, NoDuplicates, IsFirst;
    var stored: map<nat, int> := map[];
    closed := [];
    NothingPlaced(layerIds, fences);
    var element := 0;
    while element < |layerIds|
      invariant 0 <= element <= |layerIds| && Placed(layerIds, fences, element, stored, closed)
      invariant forall k :: 0 <= k < element ==> layerIds[k] in layers
    {
      if layerIds[element] in layers {
        if layerIds[element] in stored {
          CloseDuplicate(layerIds, fences, element, stored, closed);
          closed := WithClosed(closed, fences[element]);
        } else {
          StoreFirst(layerIds, fences, element, stored, closed);
          stored := stored[layerIds[element] := fences[element]];
        }
        element := element + 1;
      } else {
        closed := CloseAll(layerIds, fences, element, stored, closed);
        return BadLayer, out, closed;
      }
    }
    return Ok, stored, closed;
  }

  lemma NothingPlaced(layerIds: seq<nat>, fences: seq<int>)
    requires |layerIds| == |fences|
    ensures Placed(layerIds, fences, 0, map[], [])
  {
  }

  /** The way out at an unknown layer: the rest is closed one by one, what was stored goes with the map. */
  method CloseAll(layerIds: seq<nat>, fences: seq<int>, from: nat, stored: map<nat, int>, already: seq<int>) returns (closed: seq<int>)
    requires from <= |layerIds| == |fences| && Distinct(fences) && Placed(layerIds, fences, from, stored, already)
    ensures ClosedOnce(fences, |fences|, closed) && forall k :: 0 <= k < |fences| && fences[k] >= 0 ==> fences[k] in closed
  {
    closed := already;
    for element := from to |fences|
      invariant ClosedOnce(fences, element, closed)
      invariant forall k :: 0 <= k < from && fences[k] >= 0 ==> (fences[k] in closed <==> fences[k] in already)
      invariant forall k :: from <= k < element && fences[k] >= 0 ==> fences[k] in closed
    {
      CloseOneMore(fences, element, closed);
      closed := WithClosed(closed, fences[element]);
    }
    StoredAreFirst(layerIds, fences, from, stored, already);
    ghost var before := closed;
    StoredStillOpen(layerIds, fences, from, stored, already, before);
    closed := CloseStored(stored, closed);
    forall k | 0 <= k < |fences| && fences[k] >= 0
      ensures fences[k] in closed
    {
      if k < from && IsFirst(layerIds, k) {
        assert layerIds[k] in stored && stored[layerIds[k]] == fences[k];
      }
    }
  }

  /** What is stored with a layer is the first fence that came for it. */
  lemma StoredAreFirst(layerIds: seq<nat>, fences: seq<int>, n: nat, stored: map<nat, int>, closed: seq<int>)
    requires n <= |layerIds| == |fences| && Placed(layerIds, fences, n, stored, closed)
    ensures forall id :: id in stored ==> exists k :: 0 <= k < n && IsFirst(layerIds, k) && layerIds[k] == id && stored[id] == fences[k]
  {
    forall id | id in stored
      ensures exists k :: 0 <= k < n && IsFirst(layerIds, k) && layerIds[k] == id && stored[id] == fences[k]
    {
      var k := FirstPlace(layerIds[..n], id);
      assert layerIds[..n][..k] == layerIds[..k];
      assert IsFirst(layerIds, k);
    }
  }

  lemma {:induction false} FirstPlace(ids: seq<nat>, id: nat) returns (k: nat)
    requires id in ids
    ensures k < |ids| && ids[k] == id && id !in ids[..k]
    decreases |ids|
  {
    if ids[0] == id {
      k := 0;
    } else {
      var rest := FirstPlace(ids[1..], id);
      k := rest + 1;
      assert ids[..k] == [ids[0]] + ids[1..][..rest];
    }
  }

  lemma StoredStillOpen(layerIds: seq<nat>, fences: seq<int>, n: nat, stored: map<nat, int>, already: seq<int>, closed: seq<int>)
    requires n <= |layerIds| == |fences| && Distinct(fences) && Placed(layerIds, fences, n, stored, already) && ClosedOnce(fences, |fences|, closed)
    requires forall k :: 0 <= k < n && fences[k] >= 0 ==> (fences[k] in closed <==> fences[k] in already)
    requires forall id :: id in stored ==> exists k :: 0 <= k < n && IsFirst(layerIds, k) && layerIds[k] == id && stored[id] == fences[k]
    ensures forall id :: id in stored ==> stored[id] !in closed
    ensures forall i, j :: i in stored && j in stored && i != j && stored[i] >= 0 ==> stored[i] != stored[j]
    ensures forall id :: id in stored ==> stored[id] in fences
  {
    forall id | id in stored
      ensures stored[id] !in closed && stored[id] in fences
    {
      var k :| 0 <= k < n && IsFirst(layerIds, k) && layerIds[k] == id && stored[id] == fences[k];
    }
  }

  lemma HeldAreDistinct(reader: CommandReader, display: nat)
    requires reader.Valid() && display in reader.returnData
    ensures Distinct(reader.returnData[display].releaseFences)
  {
    assert HeldRight(display, reader.returnData[display], reader.place);
  }

  /** The whole way: the fences leave the reader, and each of them is stored with a layer or closed once. */
  method GetReleaseFences(reader: CommandReader, display: nat, layers: set<nat>, out: map<nat, int>)
    returns (status: Status, result: map<nat, int>, closed: seq<int>)
    requires reader.Valid()
    modifies reader`returnData, reader`handedOut, reader`place
    ensures reader.Valid()
    ensures display in old(reader.returnData) ==>
              var d := old(reader.returnData)[display];
              && |d.releasedLayers| == |d.releaseFences| && reader.handedOut == old(reader.handedOut) + Real(d.releaseFences)
              && (status == Ok <==> forall k :: 0 <= k < |d.releasedLayers| ==> d.releasedLayers[k] in layers)
              && (status == Ok ==> Placed(d.releasedLayers, d.releaseFences, |d.releaseFences|, result, closed))
              && (status == BadLayer ==> result == out && ClosedOnce(d.releaseFences, |d.releaseFences|, closed)
                                         && forall f :: f in Real(d.releaseFences) ==> f in closed)
    ensures display !in old(reader.returnData) ==> status == Ok && result == map[] && closed == []
  {
    if display in reader.returnData {
      HeldAreDistinct(reader, display);
    }
    var layerIds, fences := reader.TakeReleaseFences(display);
    status, result, closed := StoreReleaseFences(layerIds, fences, layers, out);
    if status == Ok {
      ClosedCameIn(fences, closed);
    }
  }

  lemma ClosedCameIn(fences: seq<int>, closed: seq<int>)
    requires ClosedOnce(fences, |fences|, closed)
    ensures closed != [] ==> fences != []
  {
    if closed != [] {
      assert closed[0] in closed;
      assert Among(fences, |fences|, closed[0]);
    }
  }
}
