/** The administrator's scooter handlers: `POST /api/scooters`,
    `PUT /api/scooters/:id` and `DELETE /api/scooters/:id`. Each refuses a
    caller who is not an administrator before it reads anything. */
module Catalog {
  import opened Records
  import opened Lookup

  /** A request body for creating or updating a scooter. An empty brand,
      model or serial number counts as absent, as any falsy value does;
      `None` is a field the body does not have. */
  datatype ScooterBody = ScooterBody(
    brand: string,
    model: string,
    serialNumber: string,
    status: Option<ScooterStatus>,
    location: Option<string>,
    batteryLevel: Option<int>,
    pricePerHour: Option<real>,
    pricePerMinute: Option<real>)

  /** `x || d` for an optional integer field. */
  function OrInt(x: Option<int>, d: int): int {
    if x.Some? && x.value != 0 then x.value else d
  }

  /** `x || d` for an optional number field. */
  function OrReal(x: Option<real>, d: real): real {
    if x.Some? && x.value != 0.0 then x.value else d
  }

  /** `POST /api/scooters`. Refuses a non-administrator, then a body without
      brand, model or serial number; otherwise appends a scooter under a
      fresh id, with the defaults: available, no location, battery 100,
      100 per hour and 2 per minute. A zero in the body takes the default
      too, so a new scooter's rates are never zero. */
  function CreateScooter(s: Snapshot, caller: Identity, body: ScooterBody, now: int): (o: Outcome<Scooter>)
    ensures o.result.Err? ==> o.after == s
    ensures !IsAdmin(caller) ==> o.result == Err(Forbidden)
    ensures IsAdmin(caller) && (body.brand == "" || body.model == "" || body.serialNumber == "") ==>
      o.result == Err(MissingFields)
    ensures IsAdmin(caller) && body.brand != "" && body.model != "" && body.serialNumber != "" ==>
      o.result.Ok?
    ensures o.result.Ok? ==>
      var sc := o.result.value;
      o.after == s.(scooters := s.scooters + [sc]) &&
      (forall k :: 0 <= k < |s.scooters| ==> s.scooters[k].id < sc.id) &&
      sc.id == NextId(ScooterIds(s.scooters)) &&
      (|s.scooters| == 0 ==> sc.id == 1) &&
      sc.brand == body.brand && sc.model == body.model && sc.serialNumber == body.serialNumber &&
      sc.status == body.status.GetOr(Available) &&
      sc.location == body.location.GetOr("") &&
      sc.batteryLevel == OrInt(body.batteryLevel, 100) &&
      sc.pricePerHour == OrReal(body.pricePerHour, 100.0) && sc.pricePerHour != 0.0 &&
      sc.pricePerMinute == Num(OrReal(body.pricePerMinute, 2.0)) && Truthy(sc.pricePerMinute) &&
      sc.createdAt == now && sc.updatedAt == None
  {
    if !IsAdmin(caller) then Outcome(Err(Forbidden), s)
    else if body.brand == "" || body.model == "" || body.serialNumber == "" then Outcome(Err(MissingFields), s)
    else
      var ids := ScooterIds(s.scooters);
      assert forall k :: 0 <= k < |s.scooters| ==> s.scooters[k].id == ids[k];
      var sc := Scooter(NextId(ids), body.brand, body.model, body.serialNumber,
                        body.status.GetOr(Available), body.location.GetOr(""),
                        OrInt(body.batteryLevel, 100), OrReal(body.pricePerHour, 100.0),
                        Num(OrReal(body.pricePerMinute, 2.0)), now, None);
      Outcome(Ok(sc), s.(scooters := s.scooters + [sc]))
  }

  /** The field-wise merge of `PUT /api/scooters/:id`: brand, model, serial
      number and status are replaced only by a non-empty value; location,
      battery and both rates by any value the body has, zero included.
      The id and the creation time never change; the update time is set. */
  function Merge(sc: Scooter, body: ScooterBody, now: int): (r: Scooter)
    ensures r.id == sc.id && r.createdAt == sc.createdAt && r.updatedAt == Some(now)
    ensures r.brand == (if body.brand != "" then body.brand else sc.brand)
    ensures r.model == (if body.model != "" then body.model else sc.model)
    ensures r.serialNumber == (if body.serialNumber != "" then body.serialNumber else sc.serialNumber)
    ensures r.status == body.status.GetOr(sc.status)
    ensures r.location == body.location.GetOr(sc.location)
    ensures r.batteryLevel == body.batteryLevel.GetOr(sc.batteryLevel)
    ensures r.pricePerHour == body.pricePerHour.GetOr(sc.pricePerHour)
    ensures body.pricePerMinute.Some? ==> r.pricePerMinute == Num(body.pricePerMinute.value)
    ensures body.pricePerMinute.None? ==> r.pricePerMinute == sc.pricePerMinute
  {
    sc.(brand := if body.brand != "" then body.brand else sc.brand,
        model := if body.model != "" then body.model else sc.model,
        serialNumber := if body.serialNumber != "" then body.serialNumber else sc.serialNumber,
        status := body.status.GetOr(sc.status),
        location := body.location.GetOr(sc.location),
        batteryLevel := body.batteryLevel.GetOr(sc.batteryLevel),
        pricePerHour := body.pricePerHour.GetOr(sc.pricePerHour),
        pricePerMinute := if body.pricePerMinute.Some? then Num(body.pricePerMinute.value) else sc.pricePerMinute,
        updatedAt := Some(now))
  }

  /** Sending the same update twice has the effect of sending it once, and
      an empty body only touches the update time. */
  lemma {:induction false} MergeSettles(sc: Scooter, body: ScooterBody, now: int)
    ensures Merge(Merge(sc, body, now), body, now) == Merge(sc, body, now)
    ensures body == ScooterBody("", "", "", None, None, None, None, None) ==>
      Merge(sc, body, now) == sc.(updatedAt := Some(now))
  {
  }

  /** `PUT /api/scooters/:id`: refuses a non-administrator, answers not found
      for an unknown id, otherwise merges the body into the first scooter
      with that id and leaves every other scooter as it was. */
  function UpdateScooter(s: Snapshot, caller: Identity, id: int, body: ScooterBody, now: int): (o: Outcome<Scooter>)
    ensures o.result.Err? ==> o.after == s
    ensures !IsAdmin(caller) ==> o.result == Err(Forbidden)
    ensures IsAdmin(caller) && !HasScooter(s.scooters, id) ==> o.result == Err(ScooterNotFound)
    ensures IsAdmin(caller) ==> forall k :: FirstScooterAt(s.scooters, id, k) ==>
      o.result == Ok(Merge(s.scooters[k], body, now)) &&
      o.after == s.(scooters := s.scooters[k := o.result.value])
  {
    if !IsAdmin(caller) then Outcome(Err(Forbidden), s)
    else
      var k := FirstIndex(s.scooters, ScooterWithId(id));
      if k == -1 then Outcome(Err(ScooterNotFound), s)
      else
        assert FirstScooterAt(s.scooters, id, k);
        var merged := Merge(s.scooters[k], body, now);
        Outcome(Ok(merged), s.(scooters := s.scooters[k := merged]))
  }

  /** `DELETE /api/scooters/:id`: refuses a non-administrator, answers not
      found for an unknown id, otherwise removes the first scooter with that
      id and keeps the others in order. Nothing checks for an active ride on
      it: a rented scooter can be deleted. */
  function DeleteScooter(s: Snapshot, caller: Identity, id: int): (o: Outcome<()>)
    ensures o.result.Err? ==> o.after == s
    ensures !IsAdmin(caller) ==> o.result == Err(Forbidden)
    ensures IsAdmin(caller) && !HasScooter(s.scooters, id) ==> o.result == Err(ScooterNotFound)
    ensures IsAdmin(caller) ==> forall k :: FirstScooterAt(s.scooters, id, k) ==>
      o.result.Ok? && o.after == s.(scooters := s.scooters[..k] + s.scooters[k + 1..])
  {
    if !IsAdmin(caller) then Outcome(Err(Forbidden), s)
    else
      var k := FirstIndex(s.scooters, ScooterWithId(id));
      if k == -1 then Outcome(Err(ScooterNotFound), s)
      else
        assert FirstScooterAt(s.scooters, id, k);
        Outcome(Ok(()), s.(scooters := s.scooters[..k] + s.scooters[k + 1..]))
  }

  ghost predicate UniqueIds(ids: seq<int>) {
    forall i, j :: 0 <= i < j < |ids| ==> ids[i] != ids[j]
  }

  /** A created scooter's id is above every id in use, so ids stay unique. */
  lemma {:induction false} CreateKeepsIdsUnique(s: Snapshot, caller: Identity, body: ScooterBody, now: int)
    requires UniqueIds(ScooterIds(s.scooters))
    ensures UniqueIds(ScooterIds(CreateScooter(s, caller, body, now).after.scooters))
  {
    var created := CreateScooter(s, caller, body, now);
    if created.result.Ok? {
      var before, after := ScooterIds(s.scooters), ScooterIds(created.after.scooters);
      assert forall k :: 0 <= k < |s.scooters| ==> after[k] == before[k];
    }
  }

  /** An update never changes a scooter's id, so ids stay unique. */
  lemma {:induction false} UpdateKeepsIds(s: Snapshot, caller: Identity, id: int, body: ScooterBody, now: int)
    ensures ScooterIds(UpdateScooter(s, caller, id, body, now).after.scooters) == ScooterIds(s.scooters)
  {
    var updated := UpdateScooter(s, caller, id, body, now);
    if updated.result.Ok? {
      var k := FirstIndex(s.scooters, ScooterWithId(id));
      assert FirstScooterAt(s.scooters, id, k);
    }
  }

  /** A deletion keeps ids unique, and when ids were unique no scooter with
      the deleted id is left. */
  lemma {:induction false} DeleteRemovesTheId(s: Snapshot, caller: Identity, id: int)
    requires UniqueIds(ScooterIds(s.scooters))
    ensures UniqueIds(ScooterIds(DeleteScooter(s, caller, id).after.scooters))
    ensures DeleteScooter(s, caller, id).result.Ok? ==> !HasScooter(DeleteScooter(s, caller, id).after.scooters, id)
  {
    var deleted := DeleteScooter(s, caller, id);
    if deleted.result.Ok? {
      var before := ScooterIds(s.scooters);
      var k := FirstIndex(s.scooters, ScooterWithId(id));
      assert FirstScooterAt(s.scooters, id, k);
      var rest := deleted.after.scooters;
      assert rest == s.scooters[..k] + s.scooters[k + 1..];
      assert forall j :: 0 <= j < |rest| ==> rest[j] == s.scooters[if j < k then j else j + 1];
      var after := ScooterIds(rest);
      assert forall j :: 0 <= j < |rest| ==> after[j] == before[if j < k then j else j + 1];
      assert before[k] == id;
      forall j | 0 <= j < |rest|
        ensures rest[j].id != id
      {
        if j >= k {
          assert before[j + 1] != before[k];
        }
      }
    }
  }
}
