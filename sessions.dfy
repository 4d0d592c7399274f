/** The ride handlers, each one atomic step from the loaded snapshot to the
    snapshot that is saved: `POST /api/rides/start`, `POST /api/rides/end/:id`
    and `GET /api/rides`. The caller is the identity of a verified token;
    `now` is the server's clock in milliseconds. */
module Sessions {
  import opened Records
  import opened Lookup
  import opened Pricing

  /** A ride opened by `caller` on the scooter at position `k`. */
  function NewRide(s: Snapshot, caller: Identity, k: int, now: int): Ride
    requires 0 <= k < |s.scooters|
  {
    Ride(NextId(RideIds(s.rides)), caller.id, s.scooters[k].id, now, FrozenRate(s.scooters[k]), Active)
  }

  /** `POST /api/rides/start`. The checks run in this order: a missing or zero
      scooter id, an unknown scooter, a scooter that is not available, a
      caller who already has an active ride. A failed check changes nothing.
      Otherwise one active ride is appended, under a fresh id and with the
      scooter's rate frozen into it, and that scooter alone becomes rented. */
  function StartRide(s: Snapshot, caller: Identity, scooterId: Option<int>, now: int): (o: Outcome<Ride>)
    ensures o.result.Err? ==> o.after == s
    ensures Falsy(scooterId) ==> o.result == Err(MissingFields)
    ensures !Falsy(scooterId) && !HasScooter(s.scooters, scooterId.value) ==>
      o.result == Err(ScooterNotFound)
    ensures !Falsy(scooterId) ==> forall k :: FirstScooterAt(s.scooters, scooterId.value, k) ==>
      if s.scooters[k].status != Available then
        o.result == Err(ScooterUnavailable)
      else if HasActiveRide(s.rides, caller.id) then
        o.result == Err(ActiveRideExists)
      else
        o.result.Ok? &&
        o.result.value.pricePerMinute == FrozenRate(s.scooters[k]) &&
        o.after == Snapshot(s.users, s.scooters[k := s.scooters[k].(status := Rented)], s.rides + [o.result.value])
    ensures o.result.Ok? ==>
      var ride := o.result.value;
      ride.userId == caller.id && ride.scooterId == scooterId.value &&
      ride.startTime == now && ride.status == Active &&
      ride.id == NextId(RideIds(s.rides)) &&
      forall j :: 0 <= j < |s.rides| ==> s.rides[j].id != ride.id
  {
    if Falsy(scooterId) then Outcome(Err(MissingFields), s)
    else
      var sid := scooterId.value;
      var k := FirstIndex(s.scooters, ScooterWithId(sid));
      if k == -1 then Outcome(Err(ScooterNotFound), s)
      else
        assert FirstScooterAt(s.scooters, sid, k);
        assert forall k' :: FirstScooterAt(s.scooters, sid, k') ==> k' == k;
        if s.scooters[k].status != Available then Outcome(Err(ScooterUnavailable), s)
        else if FirstIndex(s.rides, ActiveRideOf(caller.id)) != -1 then Outcome(Err(ActiveRideExists), s)
        else
          var ride := NewRide(s, caller, k, now);
          assert forall j :: 0 <= j < |s.rides| ==> s.rides[j].id == RideIds(s.rides)[j];
          Outcome(Ok(ride), Snapshot(s.users, s.scooters[k := s.scooters[k].(status := Rented)], s.rides + [ride]))
  }

  ghost predicate OwnsRide(rides: seq<Ride>, rideId: int, userId: int) {
    exists j :: 0 <= j < |rides| && rides[j].id == rideId && rides[j].userId == userId
  }

  /** `i` is the first position of a ride with this id that belongs to this user. */
  ghost predicate FirstOwnedAt(rides: seq<Ride>, rideId: int, userId: int, i: int) {
    0 <= i < |rides| && rides[i].id == rideId && rides[i].userId == userId &&
    forall j :: 0 <= j < i ==> !(rides[j].id == rideId && rides[j].userId == userId)
  }

  /** The scooter list after a ride on `scooterId` ends: the first scooter
      with that id, if any is left, becomes available whatever its status. */
  function Release(scooters: seq<Scooter>, scooterId: int): (r: seq<Scooter>)
    ensures !HasScooter(scooters, scooterId) ==> r == scooters
    ensures forall k :: FirstScooterAt(scooters, scooterId, k) ==>
      r == scooters[k := scooters[k].(status := Available)]
  {
    var k := FirstIndex(scooters, ScooterWithId(scooterId));
    if k == -1 then scooters
    else
      assert FirstScooterAt(scooters, scooterId, k);
      scooters[k := scooters[k].(status := Available)]
  }

  /** `POST /api/rides/end/:id`. A ride with another owner is reported as not
      found, exactly like an unknown id; a ride that is not active is
      reported as completed already; neither changes anything. Otherwise the
      ride keeps every field it had and gains its end time, its minutes
      billed by rounding the elapsed time up, and its cost from the frozen
      rate; its scooter, when it still exists, becomes available. */
  function EndRide(s: Snapshot, caller: Identity, rideId: int, now: int): (o: Outcome<Ride>)
    ensures o.result.Err? ==> o.after == s
    ensures !OwnsRide(s.rides, rideId, caller.id) ==> o.result == Err(RideNotFound)
    ensures forall i :: FirstOwnedAt(s.rides, rideId, caller.id, i) ==>
      if !s.rides[i].status.Active? then
        o.result == Err(RideAlreadyCompleted)
      else
        o.result.Ok? &&
        o.after == Snapshot(s.users, Release(s.scooters, s.rides[i].scooterId), s.rides[i := o.result.value])
    ensures o.result.Ok? ==>
      var done := o.result.value;
      OwnsRide(s.rides, rideId, caller.id) &&
      done.id == rideId && done.userId == caller.id &&
      done.status.Completed? && done.status.endTime == now &&
      var minutes := done.status.durationMinutes;
      (minutes - 1) * MsPerMinute < now - done.startTime <= minutes * MsPerMinute &&
      done.status.totalCost == Cost(Amount(done.pricePerMinute), minutes)
    ensures forall i :: FirstOwnedAt(s.rides, rideId, caller.id, i) && o.result.Ok? ==>
      o.result.value == s.rides[i].(status := o.result.value.status)
  {
    var i := FirstIndex(s.rides, RideOwnedBy(rideId, caller.id));
    if i == -1 then Outcome(Err(RideNotFound), s)
    else
      assert FirstOwnedAt(s.rides, rideId, caller.id, i);
      assert forall i' :: FirstOwnedAt(s.rides, rideId, caller.id, i') ==> i' == i;
      var ride := s.rides[i];
      if !ride.status.Active? then Outcome(Err(RideAlreadyCompleted), s)
      else
        var minutes := CeilMinutes(now - ride.startTime);
        var done := ride.(status := Completed(now, minutes, Cost(Amount(ride.pricePerMinute), minutes)));
        Outcome(Ok(done), Snapshot(s.users, Release(s.scooters, ride.scooterId), s.rides[i := done]))
  }

  /** The descriptive fields of a scooter that the ride list shows. */
  datatype ScooterInfo = ScooterInfo(brand: string, model: string, serialNumber: string)

  /** A ride as `GET /api/rides` returns it: the record and its scooter, or null. */
  datatype RideView = RideView(ride: Ride, scooter: Option<ScooterInfo>)

  /** The current description of the scooter with this id, if it still exists. */
  function InfoFor(scooters: seq<Scooter>, scooterId: int): Option<ScooterInfo> {
    match FindScooter(scooters, scooterId)
    case None => None
    case Some(sc) => Some(ScooterInfo(sc.brand, sc.model, sc.serialNumber))
  }

  /** `filter(r => r.userId === userId)`. */
  function OwnedBy(rides: seq<Ride>, userId: int): seq<Ride> {
    if |rides| == 0 then []
    else (if rides[0].userId == userId then [rides[0]] else []) + OwnedBy(rides[1..], userId)
  }

  /** The `map` that joins each ride with its scooter. */
  function Join(rides: seq<Ride>, scooters: seq<Scooter>): seq<RideView> {
    if |rides| == 0 then []
    else [RideView(rides[0], InfoFor(scooters, rides[0].scooterId))] + Join(rides[1..], scooters)
  }

  ghost predicate StartDescending(views: seq<RideView>) {
    forall i, j :: 0 <= i < j < |views| ==> views[i].ride.startTime >= views[j].ride.startTime
  }

  /** Puts `v` before the first element that did not start later, so that
      among equal start times the earlier element of the input stays first. */
  function InsertByStart(v: RideView, sorted: seq<RideView>): (r: seq<RideView>)
    requires StartDescending(sorted)
    ensures StartDescending(r)
    ensures multiset(r) == multiset(sorted) + multiset{v}
    ensures |r| > 0 && (r[0] == v || (|sorted| > 0 && r[0] == sorted[0]))
  {
    if |sorted| == 0 || v.ride.startTime >= sorted[0].ride.startTime then
      [v] + sorted
    else
      var rest := InsertByStart(v, sorted[1..]);
      assert sorted == [sorted[0]] + sorted[1..];
      [sorted[0]] + rest
  }

  /** `sort((a, b) => b.startTime - a.startTime)`: a stable sort, latest first. */
  function SortByStart(views: seq<RideView>): (r: seq<RideView>)
    ensures StartDescending(r)
    ensures multiset(r) == multiset(views)
  {
    if |views| == 0 then []
    else
      assert views == [views[0]] + views[1..];
      InsertByStart(views[0], SortByStart(views[1..]))
  }

  /** `GET /api/rides`: exactly the caller's rides, each as many times as it
      is stored, each joined with the current description of its scooter
      (none when the scooter is gone), latest start first. */
  function ListRides(s: Snapshot, caller: Identity): (r: seq<RideView>)
    ensures StartDescending(r)
    ensures forall v ::
              multiset(r)[v] ==
              if v.ride.userId == caller.id && v.scooter == InfoFor(s.scooters, v.ride.scooterId)
              then multiset(s.rides)[v.ride] else 0
  {
    var joined := Join(OwnedBy(s.rides, caller.id), s.scooters);
    JoinCounts(OwnedBy(s.rides, caller.id), s.scooters);
    OwnedByCounts(s.rides, caller.id);
    SortByStart(joined)
  }

  lemma {:induction false} OwnedByCounts(rides: seq<Ride>, userId: int)
    ensures forall x ::
              multiset(OwnedBy(rides, userId))[x] == if x.userId == userId then multiset(rides)[x] else 0
  {
    if |rides| > 0 {
      OwnedByCounts(rides[1..], userId);
      assert rides == [rides[0]] + rides[1..];
    }
  }

  lemma {:induction false} JoinCounts(rides: seq<Ride>, scooters: seq<Scooter>)
    ensures forall v ::
              multiset(Join(rides, scooters))[v] ==
              if v.scooter == InfoFor(scooters, v.ride.scooterId) then multiset(rides)[v.ride] else 0
  {
    if |rides| > 0 {
      JoinCounts(rides[1..], scooters);
      assert rides == [rides[0]] + rides[1..];
    }
  }
}
