/** The server's session dictionary: a fixed array of slots that refines a bounded map. */
module SessionDictionary {
  import opened Common
  import opened ConnectionIds
  import opened ManageContext

  const SESSION_MAX_CAPACITY: nat := 10
  const SEARCH_NOT_FOUND: int := -1

  datatype Slot = Slot(connectionId: ConnectionId, context: EdhocContext?, occupied: bool)

  const FREE_SLOT := Slot(CLEARED_CID, null, false)

  datatype SetStatus = SetOk | SetErrFull | SetErrDuplicateCid | SetErrNullContext | SetErrInvalidCid
  datatype GetResult = GetOk(context: EdhocContext) | GetErrNotFound | GetErrInvalidCid
  datatype RemoveStatus = RemoveOk | RemoveErrNotFound | RemoveErrInvalidCid

  type SessionMap = map<ConnectionId, EdhocContext>

  /** Occupied slots hold a context, and no two of them have the same key. */
  ghost predicate WellFormed(slots: seq<Slot>) {
    && (forall i :: 0 <= i < |slots| && slots[i].occupied ==> slots[i].context != null)
    && (forall i, j :: 0 <= i < j < |slots| && slots[i].occupied && slots[j].occupied ==>
                         slots[i].connectionId != slots[j].connectionId)
  }

  ghost predicate HoldsKey(slots: seq<Slot>, i: int, cid: ConnectionId) {
    0 <= i < |slots| && slots[i].occupied && slots[i].connectionId == cid
  }

  ghost predicate IsFirstFree(slots: seq<Slot>, i: int) {
    0 <= i < |slots| && !slots[i].occupied && forall j :: 0 <= j < i ==> slots[j].occupied
  }

  /** The map a slot array stands for, whatever the pattern of holes. */
  ghost function Sessions(slots: seq<Slot>): SessionMap
    requires WellFormed(slots)
  {
    if slots == [] then map[]
    else
      var last := slots[|slots| - 1];
      var rest := Sessions(slots[..|slots| - 1]);
      if last.occupied then rest[last.connectionId := last.context] else rest
  }

  /** An occupied slot is exactly one entry of the map. */
  lemma {:induction false} SessionsOfSlots(slots: seq<Slot>)
    requires WellFormed(slots)
    ensures forall i :: 0 <= i < |slots| && slots[i].occupied ==>
                          slots[i].connectionId in Sessions(slots)
                          && Sessions(slots)[slots[i].connectionId] == slots[i].context
    ensures forall cid :: cid in Sessions(slots) ==> exists i :: HoldsKey(slots, i, cid)
  {
    if slots != [] {
      var n := |slots| - 1;
      var init := slots[..n];
      SessionsOfSlots(init);
      forall cid | cid in Sessions(slots)
        ensures exists i :: HoldsKey(slots, i, cid)
      {
        if cid in Sessions(init) {
          var i :| HoldsKey(init, i, cid);
          assert HoldsKey(slots, i, cid);
        } else {
          assert HoldsKey(slots, n, cid);
        }
      }
    }
  }

  /** The map has as many entries as there are occupied slots: it fills up exactly when no hole is left. */
  lemma {:induction false} SessionsCount(slots: seq<Slot>)
    requires WellFormed(slots)
    ensures |Sessions(slots)| <= |slots|
    ensures |Sessions(slots)| == |slots| <==> forall i :: 0 <= i < |slots| ==> slots[i].occupied
  {
    if slots != [] {
      var n := |slots| - 1;
      var init := slots[..n];
      SessionsCount(init);
      SessionsOfSlots(init);
      if slots[n].occupied {
        assert slots[n].connectionId !in Sessions(init);
        assert |Sessions(slots)| == |Sessions(init)| + 1;
        assert forall i :: 0 <= i < n ==> init[i] == slots[i];
      }
    }
  }

  /** Writing a new entry into a free slot adds it to the map and disturbs no other key. */
  lemma SetCommutes(slots: seq<Slot>, i: nat, cid: ConnectionId, context: EdhocContext)
    requires WellFormed(slots) && i < |slots| && !slots[i].occupied && cid !in Sessions(slots)
    ensures WellFormed(slots[i := Slot(cid, context, true)])
    ensures Sessions(slots[i := Slot(cid, context, true)]) == Sessions(slots)[cid := context]
  {
    var after := slots[i := Slot(cid, context, true)];
    SessionsOfSlots(slots);
    SessionsOfSlots(after);
    forall k | k in Sessions(after)
      ensures k in Sessions(slots)[cid := context] && Sessions(after)[k] == Sessions(slots)[cid := context][k]
    {
      var j :| HoldsKey(after, j, k);
    }
    forall k | k in Sessions(slots)[cid := context]
      ensures k in Sessions(after)
    {
      if k == cid {
        assert after[i].occupied;
      } else {
        var j :| HoldsKey(slots, j, k);
        assert HoldsKey(after, j, k);
      }
    }
  }

  /** Clearing an occupied slot removes its key from the map and disturbs no other key. */
  lemma RemoveCommutes(slots: seq<Slot>, i: nat)
    requires WellFormed(slots) && i < |slots| && slots[i].occupied
    ensures WellFormed(slots[i := FREE_SLOT])
    ensures Sessions(slots[i := FREE_SLOT]) == Sessions(slots) - {slots[i].connectionId}
  {
    var after := slots[i := FREE_SLOT];
    SessionsOfSlots(slots);
    SessionsOfSlots(after);
    var want := Sessions(slots) - {slots[i].connectionId};
    forall k | k in Sessions(after)
      ensures k in want && Sessions(after)[k] == want[k]
    {
      var j :| HoldsKey(after, j, k);
    }
    forall k | k in want
      ensures k in Sessions(after)
    {
      var j :| HoldsKey(slots, j, k);
      assert HoldsKey(after, j, k);
    }
  }

  class Dictionary {
    const slots: array<Slot>

    ghost predicate Valid()
      reads this, slots
    {
      WellFormed(slots[..])
    }

    ghost function Contents(): (m: SessionMap)
      requires Valid()
      reads this, slots
    {
      Sessions(slots[..])
    }

    constructor (capacity: nat)
      ensures Valid() && fresh(slots) && slots.Length == capacity && Contents() == map[]
    {
      slots := new Slot[capacity](_ => FREE_SLOT);
      new;
      SessionsOfSlots(slots[..]);
      assert Sessions(slots[..]) == map[];
    }

    method FindIndexByCid(cid: ConnectionId) returns (index: int)
      requires Valid()
      ensures index == SEARCH_NOT_FOUND <==> cid !in Contents()
      ensures index != SEARCH_NOT_FOUND ==>
                0 <= index < slots.Length && HoldsKey(slots[..], index, cid)
                && Contents()[cid] == slots[index].context
    {
      SessionsOfSlots(slots[..]);
      for i := 0 to slots.Length
        invariant forall j :: 0 <= j < i ==> !HoldsKey(slots[..], j, cid)
      {
        if slots[i].occupied && slots[i].connectionId == cid {
          return i;
        }
      }
      return SEARCH_NOT_FOUND;
    }

    method SetContextByCid(cid: Option<ConnectionId>, context: EdhocContext?) returns (status: SetStatus)
      requires Valid()
      modifies slots
      ensures Valid()
      ensures status == (
                if cid.None? then SetErrInvalidCid
                else if context == null then SetErrNullContext
                else if cid.value in old(Contents()) then SetErrDuplicateCid
                else if |old(Contents())| == slots.Length then SetErrFull
                else SetOk)
      ensures |old(Contents())| <= slots.Length
      ensures Contents() == if status.SetOk? then old(Contents())[cid.value := context] else old(Contents())
      // The first free slot takes the entry; the other slots stay as they are.
      ensures if status.SetOk?
              then exists i :: IsFirstFree(old(slots[..]), i)
                               && slots[..] == old(slots[..])[i := Slot(cid.value, context, true)]
              else slots[..] == old(slots[..])
    {
      SessionsCount(slots[..]);
      if cid.None? {
        return SetErrInvalidCid;
      }
      if context == null {
        return SetErrNullContext;
      }
      var index := FindIndexByCid(cid.value);
      if index != SEARCH_NOT_FOUND {
        return SetErrDuplicateCid;
      }
      for i := 0 to slots.Length
        invariant slots[..] == old(slots[..])
        invariant forall j :: 0 <= j < i ==> slots[..][j].occupied
      {
        if !slots[i].occupied {
          SetCommutes(slots[..], i, cid.value, context);
          assert IsFirstFree(slots[..], i);
          slots[i] := Slot(cid.value, context, true);
          assert slots[..] == old(slots[..])[i := Slot(cid.value, context, true)];
          return SetOk;
        }
      }
      return SetErrFull;
    }

    method GetContextByCid(cid: Option<ConnectionId>) returns (result: GetResult)
      requires Valid()
      ensures result.GetErrInvalidCid? <==> cid.None?
      ensures result.GetOk? <==> cid.Some? && cid.value in Contents()
      ensures result.GetOk? ==> result.context == Contents()[cid.value]
    {
      if cid.None? {
        return GetErrInvalidCid;
      }
      var index := FindIndexByCid(cid.value);
      if index == SEARCH_NOT_FOUND {
        return GetErrNotFound;
      }
      return GetOk(slots[index].context);
    }

    method RemoveContextByCid(cid: Option<ConnectionId>) returns (status: RemoveStatus)
      requires Valid()
      modifies slots
      ensures Valid()
      ensures status == (
                if cid.None? then RemoveErrInvalidCid
                else if cid.value !in old(Contents()) then RemoveErrNotFound
                else RemoveOk)
      ensures Contents() == if cid.Some? then old(Contents()) - {cid.value} else old(Contents())
      ensures if status.RemoveOk?
              then exists i :: HoldsKey(old(slots[..]), i, cid.value)
                               && slots[..] == old(slots[..])[i := FREE_SLOT]
              else slots[..] == old(slots[..])
    {
      if cid.None? {
        return RemoveErrInvalidCid;
      }
      var index := FindIndexByCid(cid.value);
      if index == SEARCH_NOT_FOUND {
        return RemoveErrNotFound;
      }
      RemoveCommutes(slots[..], index);
      slots[index] := FREE_SLOT;
      assert slots[..] == old(slots[..])[index := FREE_SLOT];
      return RemoveOk;
    }
  }
}
