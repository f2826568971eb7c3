/**
 * The tariff catalogue behind src/app/api/tariffs/route.ts: a list of tariffs
 * that GET returns, POST appends to, PUT overwrites one entry of and DELETE
 * filters. The JSON file the routes read and rewrite is the `tariffs` field
 * of a `Store`; the fresh id `Date.now().toString()` is a parameter.
 */
module TariffStore {
  import opened Wrappers
  import opened Data

  /** The two refusals of the routes: status 400 and status 404. */
  datatype RouteError = BadRequest | NotFound

  /** Some tariff of `ts` carries `id`. */
  predicate HasId(ts: seq<Tariff>, id: string) {
    exists i :: 0 <= i < |ts| && ts[i].id == id
  }

  /** `tariffs.findIndex(t => t.id === id)`, with `None` for `-1`. */
  function FindById(ts: seq<Tariff>, id: string): (r: Option<nat>)
    ensures r.None? <==> !HasId(ts, id)
    ensures r.Some? ==> r.value < |ts| && ts[r.value].id == id
    ensures r.Some? ==> forall j :: 0 <= j < r.value ==> ts[j].id != id
  {
    if ts == [] then None
    else if ts[0].id == id then Some(0)
    else
      match FindById(ts[1..], id)
      case None =>
        assert forall i :: 1 <= i < |ts| ==> ts[i] == ts[1..][i - 1];
        None
      case Some(k) => Some(k + 1)
  }

  /** `tariffs.filter(t => t.id !== id)`: every entry with that id removed, the others kept in order. */
  function RemoveById(ts: seq<Tariff>, id: string): (r: seq<Tariff>)
    ensures forall t :: t in r <==> t in ts && t.id != id
    ensures |r| <= |ts|
    ensures |r| == |ts| <==> !HasId(ts, id)
  {
    if ts == [] then []
    else
      var rest := RemoveById(ts[1..], id);
      assert forall i :: 1 <= i < |ts| ==> ts[i] == ts[1..][i - 1];
      assert HasId(ts, id) <==> ts[0].id == id || HasId(ts[1..], id) by {
        if HasId(ts[1..], id) {
          var i :| 0 <= i < |ts[1..]| && ts[1..][i].id == id;
          assert ts[i + 1].id == id;
        }
      }
      assert ts == [ts[0]] + ts[1..];
      if ts[0].id == id then rest else [ts[0]] + rest
  }

  /**
   * The list PUT writes back: the first entry whose id is the body's id
   * replaced by the body, or `NotFound` when there is none.
   */
  function ReplaceInList(ts: seq<Tariff>, updated: Tariff): (r: Result<seq<Tariff>, RouteError>)
    ensures r.Failure? <==> !HasId(ts, updated.id)
    ensures r.Failure? ==> r.error == NotFound
    ensures r.Success? ==> |r.value| == |ts| && updated in r.value
    ensures r.Success? ==> forall j :: 0 <= j < |ts| ==> r.value[j].id == ts[j].id
    ensures r.Success? ==> forall j :: 0 <= j < |ts| && r.value[j] != ts[j] ==>
      r.value[j] == updated && forall i :: 0 <= i < j ==> ts[i].id != updated.id
    ensures r.Success? ==> r.value[FindById(ts, updated.id).value] == updated
  {
    match FindById(ts, updated.id)
    case None => Failure(NotFound)
    case Some(i) =>
      assert ts[i := updated][i] == updated;
      Success(ts[i := updated])
  }

  /**
   * The list DELETE writes back: `BadRequest` when the query has no `id` or an
   * empty one, `NotFound` when filtering removes nothing.
   */
  function DeleteFromList(ts: seq<Tariff>, id: Option<string>): (r: Result<seq<Tariff>, RouteError>)
    ensures r.Failure? && r.error == BadRequest <==> id.None? || id.value == ""
    ensures r.Failure? && r.error == NotFound <==> id.Some? && id.value != "" && !HasId(ts, id.value)
    ensures r.Success? ==> |r.value| < |ts| && forall t :: t in r.value <==> t in ts && t.id != id.value
    ensures r.Success? ==> r.value == RemoveById(ts, id.value)
  {
    if id.None? || id.value == "" then Failure(BadRequest)
    else
      var filtered := RemoveById(ts, id.value);
      if |filtered| == |ts| then Failure(NotFound) else Success(filtered)
  }

  /** Filtering distributes over concatenation, so it keeps the order of the entries. */
  lemma {:induction false} RemoveByIdAppend(a: seq<Tariff>, b: seq<Tariff>, id: string)
    ensures RemoveById(a + b, id) == RemoveById(a, id) + RemoveById(b, id)
  {
    if a == [] {
      assert a + b == b;
    } else {
      assert (a + b)[1..] == a[1..] + b;
      RemoveByIdAppend(a[1..], b, id);
    }
  }

  /** An id nobody carries filters out nothing. */
  lemma {:induction false} RemoveByIdAbsent(ts: seq<Tariff>, id: string)
    requires !HasId(ts, id)
    ensures RemoveById(ts, id) == ts
  {
    if ts != [] {
      assert forall i :: 0 <= i < |ts[1..]| ==> ts[1..][i] == ts[i + 1];
      RemoveByIdAbsent(ts[1..], id);
      assert ts == [ts[0]] + ts[1..];
    }
  }

  /** Deleting the tariff POST just created, under an id new to the list, gives back the list before it. */
  lemma PostThenDeleteRestores(ts: seq<Tariff>, body: Tariff, newId: string)
    requires newId != "" && !HasId(ts, newId)
    ensures DeleteFromList(ts + [body.(id := newId)], Some(newId)) == Success(ts)
  {
    var created := body.(id := newId);
    RemoveByIdAppend(ts, [created], newId);
    RemoveByIdAbsent(ts, newId);
    assert RemoveById([created], newId) == [] by {
      assert [created][1..] == [];
    }
    assert RemoveById(ts + [created], newId) == ts;
    assert |ts + [created]| != |ts|;
  }

  /** A successful DELETE leaves no entry with that id, so repeating it is `NotFound`. */
  lemma DeleteTwiceNotFound(ts: seq<Tariff>, id: string)
    requires DeleteFromList(ts, Some(id)).Success?
    ensures DeleteFromList(DeleteFromList(ts, Some(id)).value, Some(id)) == Failure(NotFound)
  {
    var rest := DeleteFromList(ts, Some(id)).value;
    assert forall i :: 0 <= i < |rest| ==> rest[i] in rest;
  }

  /** After a successful PUT the body is what a lookup of its id finds, at the same place. */
  lemma PutThenFind(ts: seq<Tariff>, updated: Tariff)
    requires ReplaceInList(ts, updated).Success?
    ensures FindById(ReplaceInList(ts, updated).value, updated.id) == FindById(ts, updated.id)
    ensures ReplaceInList(ts, updated).value[FindById(ts, updated.id).value] == updated
  {
    var i := FindById(ts, updated.id).value;
    var after := ReplaceInList(ts, updated).value;
    assert after == ts[i := updated];
    var k := FindById(after, updated.id).value;
    assert forall j :: 0 <= j < |ts| ==> after[j].id == ts[j].id;
    assert after[i].id == updated.id;
  }

  /** Repeating the same PUT changes nothing more. */
  lemma PutIdempotent(ts: seq<Tariff>, updated: Tariff)
    requires ReplaceInList(ts, updated).Success?
    ensures ReplaceInList(ReplaceInList(ts, updated).value, updated) == ReplaceInList(ts, updated)
  {
    PutThenFind(ts, updated);
    var i := FindById(ts, updated.id).value;
    var after := ts[i := updated];
    assert after[i := updated] == after;
  }

  /** The catalogue the routes share, the contents of `tariffs.json`. */
  class Store {
    var tariffs: seq<Tariff>

    constructor(initial: seq<Tariff>)
      ensures tariffs == initial
    {
      tariffs := initial;
    }

    /** GET: the whole list, unchanged. */
    method Get() returns (r: seq<Tariff>)
      ensures r == tariffs
    {
      r := tariffs;
    }

    /** POST: the body with its id overwritten by `newId`, appended; status 201 with the new entry. */
    method Post(body: Tariff, newId: string) returns (created: Tariff)
      modifies this
      ensures created == body.(id := newId)
      ensures tariffs == old(tariffs) + [created]
    {
      created := body.(id := newId);
      tariffs := tariffs + [created];
    }

    /** PUT: the first entry with the body's id overwritten, or `NotFound` with the list untouched. */
    method Put(updated: Tariff) returns (r: Result<Tariff, RouteError>)
      modifies this
      ensures ReplaceInList(old(tariffs), updated).Failure? ==>
        r == Failure(NotFound) && tariffs == old(tariffs)
      ensures ReplaceInList(old(tariffs), updated).Success? ==>
        r == Success(updated) && tariffs == ReplaceInList(old(tariffs), updated).value
    {
      var index := FindById(tariffs, updated.id);
      if index.None? {
        return Failure(NotFound);
      }
      tariffs := tariffs[index.value := updated];
      r := Success(updated);
    }

    /** DELETE: every entry with the query's id removed, or the refusal with the list untouched. */
    method Delete(id: Option<string>) returns (r: Result<(), RouteError>)
      modifies this
      ensures DeleteFromList(old(tariffs), id).Failure? ==>
        r == Failure(DeleteFromList(old(tariffs), id).error) && tariffs == old(tariffs)
      ensures DeleteFromList(old(tariffs), id).Success? ==>
        r == Success(()) && tariffs == DeleteFromList(old(tariffs), id).value
    {
      if id.None? || id.value == "" {
        return Failure(BadRequest);
      }
      var filtered := RemoveById(tariffs, id.value);
      if |filtered| == |tariffs| {
        return Failure(NotFound);
      }
      tariffs := filtered;
      r := Success(());
    }
  }
}
