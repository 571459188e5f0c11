/** The identifiers that rooms listen on (apx/api.go:90-102, 1888-1950). */
module ApxHandlerIds {
  import opened Prelude

  const ROOM_MIN_ID := 10000
  const ROOM_MAX_ID := 50000
  const RANGE_SIZE := ROOM_MAX_ID - ROOM_MIN_ID + 1

  predicate InRange(id: int) { ROOM_MIN_ID <= id <= ROOM_MAX_ID }

  /** What the scan that begins at `start` looks at in its turn `i`. */
  function Candidate(start: int, i: nat): (id: int)
    ensures InRange(id)
  {
    ROOM_MIN_ID + (start - ROOM_MIN_ID + i) % RANGE_SIZE
  }

  /** Wherever it begins, a full turn looks at every identifier exactly once. */
  lemma ScanVisitsEveryId(start: int, id: int)
    requires InRange(start) && InRange(id)
    ensures exists i: nat :: i < RANGE_SIZE && Candidate(start, i) == id
    ensures forall i: nat, j: nat ::
              i < RANGE_SIZE && j < RANGE_SIZE && Candidate(start, i) == Candidate(start, j) ==> i == j
  {
    var i := if start <= id then id - start else id - start + RANGE_SIZE;
    assert Candidate(start, i) == id;
  }

  class ApxHandler {
    var id: int

    constructor (id: int)
      ensures this.id == id
    {
      this.id := id;
    }
  }

  function Free(used: set<int>): set<int> {
    set id | ROOM_MIN_ID <= id <= ROOM_MAX_ID && id !in used
  }

  class RoomRegistry {
    var idToHandler: map<int, ApxHandler>

    constructor ()
      ensures idToHandler == map[] && Valid()
    {
      idToHandler := map[];
    }

    /** Every registered handler is found under its own identifier. */
    ghost predicate Valid()
      reads this, idToHandler.Values
    {
      forall id :: id in idToHandler ==> InRange(id) && idToHandler[id].id == id
    }

    predicate CanUse(id: int)
      reads this
    {
      InRange(id) && id !in idToHandler
    }

    /** `start` is where the scan begins, drawn at random. */
    method FindIds(preferredNormal: int, preferredReduced: int, start: int) returns (ids: (int, int))
      requires InRange(start)
      ensures CanUse(preferredNormal) ==> ids.0 == preferredNormal
      ensures CanUse(preferredReduced) && !(preferredReduced == preferredNormal && CanUse(preferredNormal)) ==>
                ids.1 == preferredReduced
      ensures ids.0 != 0 ==> CanUse(ids.0)
      ensures ids.1 != 0 ==> CanUse(ids.1) && ids.1 != ids.0
      ensures ids.0 != 0 && ids.1 != 0 <==> |Free(idToHandler.Keys)| >= 2
    {
      var first, second, found := 0, 0, 0;
      if preferredNormal != 0 && CanUse(preferredNormal) {
        first, found := preferredNormal, found + 1;
      }
      if preferredReduced != 0 && preferredReduced != first && CanUse(preferredReduced) {
        second, found := preferredReduced, found + 1;
      }
      if found < 2 {
        var i := 0;
        while i < RANGE_SIZE && found < 2
          invariant 0 <= i <= RANGE_SIZE
          invariant CanUse(preferredNormal) ==> first == preferredNormal
          invariant CanUse(preferredReduced) && !(preferredReduced == preferredNormal && CanUse(preferredNormal)) ==>
                      second == preferredReduced
          invariant first != 0 ==> CanUse(first)
          invariant second != 0 ==> CanUse(second) && second != first
          invariant found == (if first != 0 then 1 else 0) + (if second != 0 then 1 else 0)
          invariant found < 2 ==>
                      forall j: nat :: j < i && CanUse(Candidate(start, j)) ==> Candidate(start, j) in {first, second}
        {
          var id := Candidate(start, i);
          i := i + 1;
          if id == first || id == second {
            continue;
          }
          if id !in idToHandler {
            if first == 0 {
              first := id;
            } else {
              second := id;
            }
            found := found + 1;
          }
        }
      }
      ids := (first, second);
      var free := Free(idToHandler.Keys);
      if found == 2 {
        SubsetCardinality({first, second}, free);
      } else {
        forall id | id in free ensures id in {first, second} - {0} {
          ScanVisitsEveryId(start, id);
        }
        SubsetCardinality(free, {first, second} - {0});
      }
    }

    /** Gives two handlers identifiers of their own and registers them. It succeeds exactly when
        two identifiers are free, keeps a preferred one that can be used, and changes nothing
        when it fails. */
    method AllocateAndRegisterHandlerPair(normal: ApxHandler, reduced: ApxHandler, start: int) returns (ok: bool)
      requires Valid() && InRange(start)
      requires normal != reduced && normal !in idToHandler.Values && reduced !in idToHandler.Values
      modifies this, normal, reduced
      ensures Valid()
      ensures ok <==> |Free(old(idToHandler).Keys)| >= 2
      ensures ok ==>
                && normal.id != reduced.id && {normal.id, reduced.id} <= Free(old(idToHandler).Keys)
                && idToHandler == old(idToHandler)[normal.id := normal][reduced.id := reduced]
      ensures ok && old(CanUse(normal.id)) ==> normal.id == old(normal.id)
      ensures ok && old(CanUse(reduced.id)) && !(old(reduced.id) == old(normal.id)) ==> reduced.id == old(reduced.id)
      ensures !ok ==> idToHandler == old(idToHandler) && normal.id == old(normal.id) && reduced.id == old(reduced.id)
    {
      var ids := FindIds(normal.id, reduced.id, start);
      if ids.0 == 0 || ids.1 == 0 {
        return false;
      }
      normal.id := ids.0;
      reduced.id := ids.1;
      idToHandler := idToHandler[ids.0 := normal];
      idToHandler := idToHandler[ids.1 := reduced];
      return true;
    }

    /** Removing a room frees the identifiers of its two handlers. */
    method Remove(normal: ApxHandler, reduced: ApxHandler)
      requires Valid()
      modifies this
      ensures Valid() && idToHandler == old(idToHandler) - {normal.id, reduced.id}
      ensures {normal.id, reduced.id} * Free({}) <= Free(idToHandler.Keys)
    {
      idToHandler := idToHandler - {normal.id};
      idToHandler := idToHandler - {reduced.id};
    }
  }
}
