/** FavoritesStorage of site-footer.js: the favourite property ids, kept as a JSON list
    in localStorage under "mdc_favorites". Ids are the numeric CRM ids; JSON.parse of
    what JSON.stringify wrote gives the same value back, so the slot holds the parsed
    value. add, remove and has call includes, push and filter on whatever get() returns,
    and throw a TypeError when the stored value lacks them. */
module Favorites {
  import opened Wrappers
  import opened Text
  import opened Decimal
  import opened Json

  const FAVORITES_KEY: string := "mdc_favorites"

  /** The localStorage slot as get() sees it: nothing (or the empty string), text that
      JSON.parse rejects, or a parsed value. */
  datatype Slot = Empty | Unparsable | Parsed(value: Json)

  /** The error add, remove and has throw when the stored value is not a list. */
  datatype Failure = TypeError

  /** get(): the parsed value, or [] when the slot is empty or does not parse. */
  function Read(slot: Slot): (r: Json)
    ensures !slot.Parsed? ==> r == JArr([])
    ensures slot.Parsed? ==> r == slot.value
  {
    match slot
    case Parsed(v) => v
    case _ => JArr([])
  }

  /** `ids.includes(crmId)`: on a list, membership of the number; on a string, the
      number's text as a substring; anything else has no includes. */
  function Includes(ids: Json, crmId: int): (r: Result<bool, Failure>)
    ensures r.Ok? <==> ids.JArr? || ids.JStr?
    ensures ids.JArr? ==> r == Ok(JNum(crmId) in ids.items)
  {
    match ids
    case JArr(items) => Ok(JNum(crmId) in items)
    case JStr(s) => Ok(Contains(s, IntToString(crmId)))
    case _ => Err(TypeError)
  }

  /** No id occurs twice. */
  predicate NoDup(ids: seq<Json>)
  {
    forall i, j :: 0 <= i < j < |ids| ==> ids[i] != ids[j]
  }

  /** The list add writes: the id appended unless it is there already. */
  function Added(ids: seq<Json>, crmId: int): (r: seq<Json>)
    ensures forall x :: x in r <==> x in ids || x == JNum(crmId)
    ensures |ids| <= |r| && r[..|ids|] == ids
    ensures |r| == if JNum(crmId) in ids then |ids| else |ids| + 1
  {
    if JNum(crmId) in ids then ids else ids + [JNum(crmId)]
  }

  /** The list remove writes: `ids.filter(id => id !== crmId)`. */
  function Removed(ids: seq<Json>, crmId: int): (r: seq<Json>)
    ensures forall x :: x in r <==> x in ids && x != JNum(crmId)
    ensures |r| <= |ids|
    decreases |ids|
  {
    if ids == [] then []
    else (if ids[0] == JNum(crmId) then [] else [ids[0]]) + Removed(ids[1..], crmId)
  }

  /** Adding keeps a list free of duplicates. */
  lemma AddedNoDup(ids: seq<Json>, crmId: int)
    requires NoDup(ids)
    ensures NoDup(Added(ids, crmId))
  {
  }

  /** Removing keeps a list free of duplicates. */
  lemma {:induction false} RemovedNoDup(ids: seq<Json>, crmId: int)
    requires NoDup(ids)
    ensures NoDup(Removed(ids, crmId))
    decreases |ids|
  {
    if ids != [] {
      var rest := Removed(ids[1..], crmId);
      RemovedNoDup(ids[1..], crmId);
      if ids[0] != JNum(crmId) {
        assert ids[0] !in ids[1..];
        assert ids[0] !in rest;
        var r := [ids[0]] + rest;
        forall i, j | 0 <= i < j < |r| ensures r[i] != r[j] {
          if i == 0 {
            assert r[j] == rest[j - 1];
          } else {
            assert r[i] == rest[i - 1] && r[j] == rest[j - 1];
          }
        }
      } else {
        assert [] + rest == rest;
      }
    }
  }

  /** Adding twice is adding once. */
  lemma AddedIdempotent(ids: seq<Json>, crmId: int)
    ensures Added(Added(ids, crmId), crmId) == Added(ids, crmId)
  {
  }

  /** Removing an id that is absent changes nothing. */
  lemma {:induction false} RemovedAbsent(ids: seq<Json>, crmId: int)
    requires JNum(crmId) !in ids
    ensures Removed(ids, crmId) == ids
    decreases |ids|
  {
    if ids != [] {
      RemovedAbsent(ids[1..], crmId);
      assert [ids[0]] + ids[1..] == ids;
    }
  }

  lemma {:induction false} RemovedAppend(a: seq<Json>, b: seq<Json>, crmId: int)
    ensures Removed(a + b, crmId) == Removed(a, crmId) + Removed(b, crmId)
    decreases |a|
  {
    if a == [] {
      assert a + b == b;
    } else {
      assert (a + b)[1..] == a[1..] + b;
      RemovedAppend(a[1..], b, crmId);
    }
  }

  /** Removing a freshly added id restores the list. */
  lemma RemoveUndoesAdd(ids: seq<Json>, crmId: int)
    requires JNum(crmId) !in ids
    ensures Removed(Added(ids, crmId), crmId) == ids
  {
    RemovedAppend(ids, [JNum(crmId)], crmId);
    RemovedAbsent(ids, crmId);
    assert Removed([JNum(crmId)], crmId) == [];
  }

  /** After an add the id is included; after a remove it is not. */
  lemma IncludesAfterAdd(ids: seq<Json>, crmId: int)
    ensures Includes(JArr(Added(ids, crmId)), crmId) == Ok(true)
  {
  }

  lemma IncludesAfterRemove(ids: seq<Json>, crmId: int)
    ensures Includes(JArr(Removed(ids, crmId)), crmId) == Ok(false)
  {
  }

  /** The storage object over its one localStorage slot. */
  class FavoritesStorage {
    var slot: Slot

    constructor(stored: Slot)
      ensures slot == stored
    {
      slot := stored;
    }

    /** get(). */
    method Get() returns (ids: Json)
      ensures ids == Read(slot)
    {
      match slot
      case Parsed(v) => ids := v;
      case _ => ids := JArr([]);
    }

    /** set(ids): `accepted` is false when localStorage.setItem throws (quota, storage
        disabled), which set reports as false. */
    method Set(ids: seq<Json>, accepted: bool) returns (ok: bool)
      modifies this`slot
      ensures ok == accepted
      ensures slot == if accepted then Parsed(JArr(ids)) else old(slot)
    {
      if accepted {
        slot := Parsed(JArr(ids));
      }
      ok := accepted;
    }

    /** add(crmId). */
    method Add(crmId: int, accepted: bool) returns (outcome: Result<(), Failure>)
      modifies this`slot
      ensures outcome.Ok? <==> old(Read(slot)).JArr? || Includes(old(Read(slot)), crmId) == Ok(true)
      ensures old(Read(slot)).JArr? && accepted ==> slot == Parsed(JArr(Added(old(Read(slot)).items, crmId)))
      ensures !old(Read(slot)).JArr? || !accepted ==> slot == old(slot)
    {
      var ids := Get();
      var present := Includes(ids, crmId);
      if present.Err? {
        return Err(TypeError);
      }
      if !present.value {
        if !ids.JArr? {
          return Err(TypeError);
        }
        var _ := Set(ids.items + [JNum(crmId)], accepted);
      }
      outcome := Ok(());
    }

    /** remove(crmId): the filtered list is written even when nothing was removed. */
    method Remove(crmId: int, accepted: bool) returns (outcome: Result<(), Failure>)
      modifies this`slot
      ensures outcome.Ok? <==> old(Read(slot)).JArr?
      ensures old(Read(slot)).JArr? && accepted ==> slot == Parsed(JArr(Removed(old(Read(slot)).items, crmId)))
      ensures !old(Read(slot)).JArr? || !accepted ==> slot == old(slot)
    {
      var ids := Get();
      if !ids.JArr? {
        return Err(TypeError);
      }
      var _ := Set(Removed(ids.items, crmId), accepted);
      outcome := Ok(());
    }

    /** has(crmId). */
    method Has(crmId: int) returns (r: Result<bool, Failure>)
      ensures r == Includes(Read(slot), crmId)
    {
      var ids := Get();
      r := Includes(ids, crmId);
    }
  }
}
