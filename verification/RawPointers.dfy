/** `RawPointerData`: one sample of all contacts, with the tables that find a contact by its id. */
module RawPointers {
  import opened BitSets

  datatype ToolType = Unknown | Finger | Stylus | Mouse | Eraser

  /** One contact.  `shape` stands for pressure, size, orientation, distance and tilt, which the code
      modelled here only copies. */
  datatype Pointer = Pointer(id: nat, x: int, y: int, toolType: ToolType, isHovering: bool, shape: int)

  /** The struct is embedded by value wherever it is used, so it is a value here too: `pointers` and
      `idToIndex` are its two fixed-size arrays, and cells past `pointerCount` hold stale data. */
  datatype RawPointerData = RawPointerData(
    pointerCount: nat, pointers: seq<Pointer>,
    hoveringIdBits: set<nat>, touchingIdBits: set<nat>, idToIndex: seq<nat>)
  {
    /** The sizes of the arrays, and what keeps every table lookup inside them. */
    ghost predicate Sized() {
      && |pointers| == MAX_POINTERS && |idToIndex| == MAX_POINTER_ID + 1
      && pointerCount <= MAX_POINTERS
      && forall n :: 0 <= n < |idToIndex| ==> idToIndex[n] < MAX_POINTERS
    }

    /** `clearIdBits`. */
    function ClearIdBits(): RawPointerData {
      this.(hoveringIdBits := {}, touchingIdBits := {})
    }

    /** `clear`. */
    function Clear(): RawPointerData {
      this.(pointerCount := 0, hoveringIdBits := {}, touchingIdBits := {})
    }

    /** The four assignments with which the source gives pointer `i` the id `id`. */
    function WithId(i: nat, id: nat): (r: RawPointerData)
      requires i < |pointers| && id < |idToIndex|
    {
      var d := this.(pointers := pointers[i := pointers[i].(id := id)], idToIndex := idToIndex[id := i]);
      if pointers[i].isHovering then d.(hoveringIdBits := d.hoveringIdBits + {id})
      else d.(touchingIdBits := d.touchingIdBits + {id})
    }

    /** Exactly the pointers in `owned` have received an id: `owned` maps each of them to it. */
    ghost predicate IdsAre(owned: map<nat, nat>) {
      && Sized()
      && (forall i :: i in owned ==> i < MAX_POINTERS && owned[i] <= MAX_POINTER_ID)
      && (forall i, j :: i in owned && j in owned && owned[i] == owned[j] ==> i == j)
      && (forall i :: i in owned ==> pointers[i].id == owned[i] && idToIndex[owned[i]] == i)
      && (forall id :: id in touchingIdBits <==> exists i :: i in owned && owned[i] == id && !pointers[i].isHovering)
      && (forall id :: id in hoveringIdBits <==> exists i :: i in owned && owned[i] == id && pointers[i].isHovering)
    }

    /** Every pointer has an id of its own, `idToIndex` inverts the ids, and the two bit sets split
        the ids by whether their pointer hovers. */
    ghost predicate HasIds() {
      IdsAre(map i: nat | 0 <= i < pointerCount && i < |pointers| :: pointers[i].id)
    }

    ghost predicate SameExceptIds(that: RawPointerData) {
      && pointerCount == that.pointerCount && |pointers| == |that.pointers|
      && forall i :: 0 <= i < |pointers| ==> pointers[i] == that.pointers[i].(id := pointers[i].id)
    }
  }

  lemma NoIdsYet(d: RawPointerData)
    requires d.Sized()
    ensures d.ClearIdBits().IdsAre(map[])
  {
  }

  /** Some pointer in `owned`, hovering or not, has this id. */
  ghost predicate Owns(d: RawPointerData, owned: map<nat, nat>, id: nat, hovering: bool) {
    exists i :: i in owned && i < |d.pointers| && owned[i] == id && d.pointers[i].isHovering == hovering
  }

  lemma OwnsOneMore(d: RawPointerData, owned: map<nat, nat>, i: nat, id: nat, n: nat, hovering: bool)
    requires i < |d.pointers| && id < |d.idToIndex| && i !in owned
    ensures Owns(d.WithId(i, id), owned[i := id], n, hovering) <==>
              Owns(d, owned, n, hovering) || (n == id && d.pointers[i].isHovering == hovering)
  {
    var r, owned' := d.WithId(i, id), owned[i := id];
    if Owns(d, owned, n, hovering) {
      var k :| k in owned && k < |d.pointers| && owned[k] == n && d.pointers[k].isHovering == hovering;
      assert k in owned' && owned'[k] == n && r.pointers[k].isHovering == hovering;
    }
    if n == id && d.pointers[i].isHovering == hovering {
      assert i in owned' && owned'[i] == n && r.pointers[i].isHovering == hovering;
    }
  }

  /** The ids as `IdsAre` has them, with the owner of each as a predicate. */
  lemma IdsAreOwned(d: RawPointerData, owned: map<nat, nat>)
    requires d.Sized() && forall i :: i in owned ==> i < MAX_POINTERS && owned[i] <= MAX_POINTER_ID
    requires forall i, j :: i in owned && j in owned && owned[i] == owned[j] ==> i == j
    requires forall i :: i in owned ==> d.pointers[i].id == owned[i] && d.idToIndex[owned[i]] == i
    ensures d.IdsAre(owned) <==> forall id :: (id in d.touchingIdBits <==> Owns(d, owned, id, false)) && (id in d.hoveringIdBits <==> Owns(d, owned, id, true))
  {
  }

  lemma GivingAnId(d: RawPointerData, owned: map<nat, nat>, i: nat, id: nat)
    requires d.IdsAre(owned)
    requires i < MAX_POINTERS && i !in owned
    requires id <= MAX_POINTER_ID && id !in owned.Values
    ensures d.WithId(i, id).IdsAre(owned[i := id])
    ensures d.WithId(i, id).SameExceptIds(d)
  {
    GivenCells(d, owned, i, id);
    IdsAreOwned(d, owned);
    var r, owned' := d.WithId(i, id), owned[i := id];
    forall n: nat
      ensures (n in r.touchingIdBits <==> Owns(r, owned', n, false)) && (n in r.hoveringIdBits <==> Owns(r, owned', n, true))
    {
      hide RawPointerData.IdsAre, Owns;
      OwnsOneMore(d, owned, i, id, n, false);
      OwnsOneMore(d, owned, i, id, n, true);
    }
    IdsAreOwned(r, owned');
  }

  lemma GivenCells(d: RawPointerData, owned: map<nat, nat>, i: nat, id: nat)
    requires d.IdsAre(owned)
    requires i < MAX_POINTERS && i !in owned
    requires id <= MAX_POINTER_ID && id !in owned.Values
    ensures var r, owned' := d.WithId(i, id), owned[i := id];
            && r.Sized() && r.SameExceptIds(d)
            && (forall k :: k in owned' ==> k < MAX_POINTERS && owned'[k] <= MAX_POINTER_ID)
            && (forall j, k :: j in owned' && k in owned' && owned'[j] == owned'[k] ==> j == k)
            && forall k :: k in owned' ==> r.pointers[k].id == owned'[k] && r.idToIndex[owned'[k]] == k
  {
    assert forall k :: k in owned ==> owned[k] in owned.Values;
  }

  lemma AllHaveIds(d: RawPointerData, owned: map<nat, nat>)
    requires d.IdsAre(owned)
    requires owned.Keys == Range(d.pointerCount)
    ensures d.HasIds()
  {
    assert owned == map i: nat | 0 <= i < d.pointerCount && i < |d.pointers| :: d.pointers[i].id;
  }

  /** The facts that the users of a complete sample need, without the map. */
  lemma IdsAreABijection(d: RawPointerData)
    requires d.HasIds()
    ensures d.Sized()
    ensures forall i :: 0 <= i < d.pointerCount ==> d.pointers[i].id <= MAX_POINTER_ID && d.idToIndex[d.pointers[i].id] == i
    ensures forall i, j :: 0 <= i < j < d.pointerCount ==> d.pointers[i].id != d.pointers[j].id
    ensures d.touchingIdBits * d.hoveringIdBits == {}
    ensures forall id :: id in d.touchingIdBits + d.hoveringIdBits ==>
              id <= MAX_POINTER_ID && d.idToIndex[id] < d.pointerCount && d.pointers[d.idToIndex[id]].id == id
    ensures forall i :: 0 <= i < d.pointerCount ==>
              (d.pointers[i].id in d.touchingIdBits <==> !d.pointers[i].isHovering) &&
              (d.pointers[i].id in d.hoveringIdBits <==> d.pointers[i].isHovering)
    ensures d.pointerCount == 0 <==> d.touchingIdBits + d.hoveringIdBits == {}
  {
    var owned := map i: nat | 0 <= i < d.pointerCount && i < |d.pointers| :: d.pointers[i].id;
    assert d.IdsAre(owned);
    forall i | 0 <= i < d.pointerCount
      ensures d.pointers[i].id <= MAX_POINTER_ID && d.idToIndex[d.pointers[i].id] == i
      ensures d.pointers[i].id in d.touchingIdBits <==> !d.pointers[i].isHovering
      ensures d.pointers[i].id in d.hoveringIdBits <==> d.pointers[i].isHovering
    {
      assert i in owned && owned[i] == d.pointers[i].id;
    }
    if d.pointerCount > 0 {
      assert d.pointers[0].id in d.touchingIdBits + d.hoveringIdBits;
    }
  }

  lemma CompleteIsSized(d: RawPointerData)
    requires d.HasIds()
    ensures d.Sized()
  {
  }

  /** `pointerForId` of the first touching id. */
  function FirstTouching(d: RawPointerData): Pointer
    requires d.HasIds() && d.touchingIdBits != {}
  {
    IdsAreABijection(d);
    d.pointers[d.idToIndex[FirstMarked(d.touchingIdBits)]]
  }
}
