/** The freeform mapping of `preparePointerGestures`: which gesture pointer each touching finger drives. */
module Freeform {
  import opened BitSets

  /** `freeformTouchToGestureIdMap` gives the fingers distinct gesture ids, `ids` all together. */
  ghost predicate Maps(table: seq<nat>, fingers: set<nat>, ids: set<nat>) {
    && Below(fingers, |table|)
    && Injective(table, fingers)
    && ids == Image(table, fingers)
    && Below(ids, MAX_POINTER_ID + 1)
  }

  ghost predicate Injective(table: seq<nat>, fingers: set<nat>)
    requires Below(fingers, |table|)
  {
    forall s, t :: s in fingers && t in fingers && table[s] == table[t] ==> s == t
  }

  ghost function Image(table: seq<nat>, fingers: set<nat>): set<nat>
    requires Below(fingers, |table|)
  {
    set t | t in fingers :: table[t]
  }

  lemma {:induction false} ImageSize(table: seq<nat>, fingers: set<nat>)
    requires Below(fingers, |table|)
    ensures |Image(table, fingers)| <= |fingers|
    decreases |fingers|
  {
    if fingers != {} {
      var t :| t in fingers;
      ImageSize(table, fingers - {t});
      assert Image(table, fingers) == Image(table, fingers - {t}) + {table[t]};
    } else {
      assert Image(table, fingers) == {};
    }
  }

  /** A finger that stays keeps its gesture id, and a new one takes an id that was not in use. */
  ghost predicate Continues(table0: seq<nat>, fingers0: set<nat>, ids0: set<nat>, table: seq<nat>, fingers: set<nat>)
    requires Below(fingers0, |table0|) && Below(fingers, |table|) && |table| == |table0|
  {
    && (forall t :: t in fingers && t in fingers0 ==> table[t] == table0[t])
    && (forall t :: t in fingers && t !in fingers0 ==> table[t] !in ids0)
  }

  /** Two consecutive freeform frames share a gesture pointer exactly when they share a finger. */
  lemma SharedIds(table0: seq<nat>, fingers0: set<nat>, ids0: set<nat>, table: seq<nat>, fingers: set<nat>, ids: set<nat>)
    requires Maps(table0, fingers0, ids0) && Maps(table, fingers, ids) && |table| == |table0|
    requires Continues(table0, fingers0, ids0, table, fingers)
    ensures ids0 * ids == Image(table0, fingers0 * fingers)
    ensures ids0 * ids == {} <==> fingers0 * fingers == {}
  {
    forall x
      ensures x in ids0 * ids <==> x in Image(table0, fingers0 * fingers)
    {
      if x in ids0 * ids {
        var t :| t in fingers && table[t] == x;
      }
      if x in Image(table0, fingers0 * fingers) {
        var t :| t in fingers0 * fingers && table0[t] == x;
        assert table[t] == x;
      }
    }
    if t :| t in fingers0 * fingers {
      assert table0[t] in Image(table0, fingers0 * fingers);
    }
  }

  /** What holds inside the loop over the fingers: those of `mapped` had an id before, those of `done`
      have been visited, and `used0` was in use at the start. */
  ghost predicate Mapping(table0: seq<nat>, table: seq<nat>, mapped: set<nat>, used0: set<nat>, done: set<nat>, used: set<nat>) {
    && |table| == |table0| == MAX_POINTER_ID + 1 && Below(mapped + done, |table|)
    && MappedOnce(table0, table, mapped, used0, done, used)
    && used0 <= used && Below(used, MAX_POINTER_ID + 1)
    && |used| <= |used0| + |done - mapped|
    && FirstTaken(table, done - mapped, used0)
  }

  ghost predicate MappedOnce(table0: seq<nat>, table: seq<nat>, mapped: set<nat>, used0: set<nat>, done: set<nat>, used: set<nat>)
    requires |table| == |table0| && Below(mapped + done, |table|)
  {
    && Injective(table, mapped + done)
    && (forall t :: t in mapped ==> table[t] == table0[t])
    && (forall t :: t in mapped + done ==> table[t] in used)
    && (forall t :: t in done - mapped ==> table[t] !in used0)
  }

  /** The first of the new fingers took the smallest free id. */
  ghost predicate FirstTaken(table: seq<nat>, newOnes: set<nat>, used0: set<nat>)
    requires Below(newOnes, |table|)
  {
    newOnes != {} ==> exists t :: t in newOnes && IsFirstUnmarked(used0, table[t])
  }

  lemma VisitMapped(table0: seq<nat>, table: seq<nat>, mapped: set<nat>, used0: set<nat>, done: set<nat>, used: set<nat>, t: nat)
    requires Mapping(table0, table, mapped, used0, done, used) && t in mapped
    ensures Mapping(table0, table, mapped, used0, done + {t}, used)
  {
    assert mapped + (done + {t}) == mapped + done;
    assert done + {t} - mapped == done - mapped;
  }

  lemma VisitNew(table0: seq<nat>, table: seq<nat>, mapped: set<nat>, used0: set<nat>, done: set<nat>, used: set<nat>, t: nat, id: nat)
    requires Mapping(table0, table, mapped, used0, done, used)
    requires t !in mapped && t !in done && t < |table|
    requires IsFirstUnmarked(used, id) && id <= MAX_POINTER_ID
    ensures Mapping(table0, table[t := id], mapped, used0, done + {t}, used + {id})
  {
    hide IsFirstUnmarked, FirstTaken, MappedOnce;
    IdIsUnmarked(used, id);
    assert done + {t} - mapped == (done - mapped) + {t};
    FirstStaysTaken(table, done - mapped, used0, used, t, id);
    MapOne(table0, table, mapped, used0, done, used, t, id);
  }

  lemma MapOne(table0: seq<nat>, table: seq<nat>, mapped: set<nat>, used0: set<nat>, done: set<nat>, used: set<nat>, t: nat, id: nat)
    requires |table| == |table0| && Below(mapped + done, |table|) && used0 <= used
    requires MappedOnce(table0, table, mapped, used0, done, used)
    requires t !in mapped && t !in done && t < |table| && id !in used
    ensures MappedOnce(table0, table[t := id], mapped, used0, done + {t}, used + {id})
  {
    assert mapped + (done + {t}) == (mapped + done) + {t};
  }

  lemma IdIsUnmarked(used: set<nat>, id: nat)
    requires IsFirstUnmarked(used, id)
    ensures id !in used
  {
  }

  lemma FirstStaysTaken(table: seq<nat>, newOnes: set<nat>, used0: set<nat>, used: set<nat>, t: nat, id: nat)
    requires Below(newOnes, |table|) && FirstTaken(table, newOnes, used0) && t < |table| && t !in newOnes
    requires used0 <= used && |used| <= |used0| + |newOnes| && IsFirstUnmarked(used, id)
    ensures FirstTaken(table[t := id], newOnes + {t}, used0)
  {
    if newOnes == {} {
      SubsetSize(used0, used);
      assert t in newOnes + {t} && IsFirstUnmarked(used0, table[t := id][t]);
    } else {
      var s :| s in newOnes && IsFirstUnmarked(used0, table[s]);
      assert s in newOnes + {t} && table[t := id][s] == table[s];
    }
  }

  /** The loop over the current fingers. */
  method MapFingers(map_: array<nat>, fingers: set<nat>, mapped: set<nat>, used0: set<nat>)
    returns (ids: set<nat>)
    requires map_.Length == MAX_POINTER_ID + 1
    requires Below(fingers, MAX_POINTER_ID + 1) && |fingers| <= MAX_POINTERS && mapped <= fingers
    requires Below(used0, MAX_POINTER_ID + 1) && |used0| <= MAX_POINTERS
    requires Injective(map_[..], mapped) && forall t :: t in mapped ==> map_[t] in used0
    modifies map_
    ensures Maps(map_[..], fingers, ids)
    ensures forall t :: t in mapped ==> map_[t] == old(map_[t])
    ensures forall t :: t in fingers - mapped ==> map_[t] !in used0
    ensures fingers - mapped != {} ==> exists id :: id in ids && IsFirstUnmarked(used0, id)
  {
    hide Mapping, Maps, Image, IsFirstUnmarked;
    ghost var table0 := map_[..];
    ids := {};
    var used := used0;
    var rest := fingers;
    ghost var done: set<nat> := {};
    StartMapping(table0, mapped, used0);
    while rest != {}
      invariant rest == fingers - done && done <= fingers
      invariant |used| <= |used0| + |done|
      invariant Mapping(table0, map_[..], mapped, used0, done, used)
      invariant ids == Image(map_[..], done)
      decreases |rest|
    {
      var touchId := FirstMarked(rest);
      rest := rest - {touchId};
      ghost var table := map_[..];
      SubsetSize(done + {touchId}, fingers);
      if touchId !in mapped {
        var gestureId := FirstUnmarked(used);
        VisitNew(table0, table, mapped, used0, done, used, touchId, gestureId);
        used := used + {gestureId};
        map_[touchId] := gestureId;
        assert map_[..] == table[touchId := gestureId];
      } else {
        VisitMapped(table0, table, mapped, used0, done, used, touchId);
      }
      ImageGrows(table, map_[..], done, touchId);
      ids := ids + {map_[touchId]};
      done := done + {touchId};
    }
    assert done == fingers;
    EndMapping(table0, map_[..], mapped, used0, fingers, used);
  }

  lemma ImageGrows(table: seq<nat>, table': seq<nat>, done: set<nat>, t: nat)
    requires Below(done, |table|) && |table'| == |table| && t < |table| && t !in done
    requires forall s :: 0 <= s < |table| && s != t ==> table'[s] == table[s]
    ensures Image(table', done + {t}) == Image(table, done) + {table'[t]}
  {
    forall x
      ensures x in Image(table', done + {t}) <==> x in Image(table, done) + {table'[t]}
    {
      if x in Image(table, done) {
        var s :| s in done && table[s] == x;
        assert table'[s] == x && s in done + {t};
      }
      if x == table'[t] {
        assert t in done + {t};
      }
    }
  }

  lemma StartMapping(table0: seq<nat>, mapped: set<nat>, used0: set<nat>)
    requires |table0| == MAX_POINTER_ID + 1 && Below(mapped, |table0|) && Injective(table0, mapped)
    requires Below(used0, MAX_POINTER_ID + 1) && forall t :: t in mapped ==> table0[t] in used0
    ensures Mapping(table0, table0, mapped, used0, {}, used0) && Image(table0, {}) == {}
  {
    assert {} - mapped == {};
  }

  lemma EndMapping(table0: seq<nat>, table: seq<nat>, mapped: set<nat>, used0: set<nat>, fingers: set<nat>, used: set<nat>)
    requires Mapping(table0, table, mapped, used0, fingers, used) && mapped <= fingers
    ensures Maps(table, fingers, Image(table, fingers))
    ensures forall t :: t in mapped ==> table[t] == table0[t]
    ensures forall t :: t in fingers - mapped ==> table[t] !in used0
    ensures fingers - mapped != {} ==> exists id :: id in Image(table, fingers) && IsFirstUnmarked(used0, id)
  {
    assert mapped + fingers == fingers;
    if fingers - mapped != {} {
      var t :| t in fingers - mapped && IsFirstUnmarked(used0, table[t]);
      assert table[t] in Image(table, fingers);
    }
  }
}
