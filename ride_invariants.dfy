/** What the ride handlers keep true of the data, and how they compose:
    no user holds two active rides, a scooter is rented exactly while one
    active ride is on it, a ride ends once, and the hand-over scenario of
    one scooter between two riders. */
module RideInvariants {
  import opened Records
  import opened Lookup
  import opened Pricing
  import opened Sessions
  import opened Persistence

  ghost predicate OneActivePerUser(rides: seq<Ride>) {
    forall i, j :: 0 <= i < j < |rides| && rides[i].status.Active? && rides[j].status.Active? ==>
      rides[i].userId != rides[j].userId
  }

  ghost predicate OneActivePerScooter(rides: seq<Ride>) {
    forall i, j :: 0 <= i < j < |rides| && rides[i].status.Active? && rides[j].status.Active? ==>
      rides[i].scooterId != rides[j].scooterId
  }

  ghost predicate UniqueScooterIds(scooters: seq<Scooter>) {
    forall i, j :: 0 <= i < j < |scooters| ==> scooters[i].id != scooters[j].id
  }

  ghost predicate RiddenNow(rides: seq<Ride>, scooterId: int) {
    exists j :: 0 <= j < |rides| && rides[j].scooterId == scooterId && rides[j].status.Active?
  }

  /** Scooter ids are unique, no scooter carries two active rides, and a
      scooter is rented exactly when an active ride is on it. */
  ghost predicate FleetConsistent(s: Snapshot) {
    UniqueScooterIds(s.scooters) &&
    OneActivePerScooter(s.rides) &&
    forall k :: 0 <= k < |s.scooters| ==>
      (s.scooters[k].status == Rented <==> RiddenNow(s.rides, s.scooters[k].id))
  }

  /** Loading only fills in rates: ids, statuses and rides are untouched,
      so the invariants survive it. */
  lemma LoadKeepsInvariants(s: Snapshot)
    ensures Loaded(s).rides == s.rides
    ensures FleetConsistent(s) ==> FleetConsistent(Loaded(s))
  {
    var loaded := Loaded(s).scooters;
    assert forall k :: 0 <= k < |loaded| ==> loaded[k].id == s.scooters[k].id && loaded[k].status == s.scooters[k].status;
  }

  /** The position `StartRide` and `EndRide` pick for a scooter id that exists. */
  lemma FirstScooter(scooters: seq<Scooter>, id: int) returns (k: int)
    requires HasScooter(scooters, id)
    ensures FirstScooterAt(scooters, id, k)
  {
    k := FirstIndex(scooters, ScooterWithId(id));
  }

  lemma FirstOwned(rides: seq<Ride>, rideId: int, userId: int) returns (i: int)
    requires OwnsRide(rides, rideId, userId)
    ensures FirstOwnedAt(rides, rideId, userId, i)
  {
    i := FirstIndex(rides, RideOwnedBy(rideId, userId));
  }

  /** A user who holds at most one active ride still does after starting one. */
  lemma {:induction false} StartRideKeepsOneActivePerUser(s: Snapshot, caller: Identity, scooterId: Option<int>, now: int)
    requires OneActivePerUser(s.rides)
    ensures OneActivePerUser(StartRide(s, caller, scooterId, now).after.rides)
  {
    var o := StartRide(s, caller, scooterId, now);
    if o.result.Ok? {
      var k := FirstScooter(s.scooters, scooterId.value);
      assert !HasActiveRide(s.rides, caller.id);
      var rides := o.after.rides;
      assert rides == s.rides + [o.result.value];
      forall i, j | 0 <= i < j < |rides| && rides[i].status.Active? && rides[j].status.Active?
        ensures rides[i].userId != rides[j].userId
      {
        if j == |s.rides| {
          assert rides[i] == s.rides[i];
        }
      }
    }
  }

  /** Ending a ride never gives anybody a second active ride. */
  lemma {:induction false} EndRideKeepsOneActivePerUser(s: Snapshot, caller: Identity, rideId: int, now: int)
    requires OneActivePerUser(s.rides)
    ensures OneActivePerUser(EndRide(s, caller, rideId, now).after.rides)
  {
    var o := EndRide(s, caller, rideId, now);
    if o.result.Ok? {
      var i := FirstOwned(s.rides, rideId, caller.id);
      var rides := o.after.rides;
      assert rides == s.rides[i := o.result.value];
      forall a, b | 0 <= a < b < |rides| && rides[a].status.Active? && rides[b].status.Active?
        ensures rides[a].userId != rides[b].userId
      {
        assert a != i && b != i;
      }
    }
  }

  /** Starting a ride keeps the fleet consistent: the scooter was available,
      so no active ride was on it, and now exactly the new one is. */
  lemma {:induction false} StartRideKeepsFleetConsistent(s: Snapshot, caller: Identity, scooterId: Option<int>, now: int)
    requires FleetConsistent(s)
    ensures FleetConsistent(StartRide(s, caller, scooterId, now).after)
  {
    var o := StartRide(s, caller, scooterId, now);
    if o.result.Ok? {
      var sid := scooterId.value;
      var k := FirstScooter(s.scooters, sid);
      var ride := o.result.value;
      var rides, scooters := o.after.rides, o.after.scooters;
      assert rides == s.rides + [ride] && ride.scooterId == sid && ride.status.Active?;
      assert scooters == s.scooters[k := s.scooters[k].(status := Rented)];
      assert !RiddenNow(s.rides, sid);
      forall i, j | 0 <= i < j < |rides| && rides[i].status.Active? && rides[j].status.Active?
        ensures rides[i].scooterId != rides[j].scooterId
      {
        if j == |s.rides| {
          assert rides[i] == s.rides[i];
        }
      }
      forall m | 0 <= m < |scooters|
        ensures scooters[m].status == Rented <==> RiddenNow(rides, scooters[m].id)
      {
        if m == k {
          assert rides[|s.rides|] == ride;
        } else {
          assert scooters[m] == s.scooters[m] && scooters[m].id != sid;
          if RiddenNow(rides, scooters[m].id) {
            var j :| 0 <= j < |rides| && rides[j].scooterId == scooters[m].id && rides[j].status.Active?;
            assert j < |s.rides| && s.rides[j] == rides[j];
          }
          if RiddenNow(s.rides, scooters[m].id) {
            var j :| 0 <= j < |s.rides| && s.rides[j].scooterId == scooters[m].id && s.rides[j].status.Active?;
            assert rides[j] == s.rides[j];
          }
        }
      }
    }
  }

  /** Ending a ride keeps the fleet consistent: the ended ride was the only
      active one on its scooter, which becomes available if it still exists. */
  lemma {:induction false} EndRideKeepsFleetConsistent(s: Snapshot, caller: Identity, rideId: int, now: int)
    requires FleetConsistent(s)
    ensures FleetConsistent(EndRide(s, caller, rideId, now).after)
  {
    var o := EndRide(s, caller, rideId, now);
    if o.result.Ok? {
      var i := FirstOwned(s.rides, rideId, caller.id);
      var sid := s.rides[i].scooterId;
      var rides, scooters := o.after.rides, o.after.scooters;
      assert rides == s.rides[i := o.result.value] && !rides[i].status.Active?;
      assert s.rides[i].status.Active?;
      forall a, b | 0 <= a < b < |rides| && rides[a].status.Active? && rides[b].status.Active?
        ensures rides[a].scooterId != rides[b].scooterId
      {
        assert rides[a] == s.rides[a] && rides[b] == s.rides[b];
      }
      forall m | 0 <= m < |scooters|
        ensures scooters[m].status == Rented <==> RiddenNow(rides, scooters[m].id)
      {
        if scooters[m].id == sid {
          var k := FirstScooter(s.scooters, sid);
          assert scooters == s.scooters[k := s.scooters[k].(status := Available)];
          assert m == k;
        } else {
          if HasScooter(s.scooters, sid) {
            var k := FirstScooter(s.scooters, sid);
            assert m != k;
          }
          assert scooters[m] == s.scooters[m];
          if RiddenNow(rides, scooters[m].id) {
            var j :| 0 <= j < |rides| && rides[j].scooterId == scooters[m].id && rides[j].status.Active?;
            assert j != i && rides[j] == s.rides[j];
          }
          if RiddenNow(s.rides, scooters[m].id) {
            var j :| 0 <= j < |s.rides| && s.rides[j].scooterId == scooters[m].id && s.rides[j].status.Active?;
            assert j != i && rides[j] == s.rides[j];
          }
        }
      }
    }
  }

  /** Both ride invariants together, as the store states them. */
  lemma StartRideKeepsInvariants(s: Snapshot, caller: Identity, scooterId: Option<int>, now: int)
    requires OneActivePerUser(s.rides) && FleetConsistent(s)
    ensures var after := StartRide(s, caller, scooterId, now).after;
            OneActivePerUser(after.rides) && FleetConsistent(after)
  {
    StartRideKeepsOneActivePerUser(s, caller, scooterId, now);
    StartRideKeepsFleetConsistent(s, caller, scooterId, now);
  }

  lemma EndRideKeepsInvariants(s: Snapshot, caller: Identity, rideId: int, now: int)
    requires OneActivePerUser(s.rides) && FleetConsistent(s)
    ensures var after := EndRide(s, caller, rideId, now).after;
            OneActivePerUser(after.rides) && FleetConsistent(after)
  {
    EndRideKeepsOneActivePerUser(s, caller, rideId, now);
    EndRideKeepsFleetConsistent(s, caller, rideId, now);
  }

  /** A ride ends once: ending it again answers "already completed" and
      changes nothing. */
  lemma {:induction false} EndRideTwice(s: Snapshot, caller: Identity, rideId: int, t1: int, t2: int)
    requires EndRide(s, caller, rideId, t1).result.Ok?
    ensures var once := EndRide(s, caller, rideId, t1).after;
            EndRide(once, caller, rideId, t2) == Outcome(Err(RideAlreadyCompleted), once)
  {
    var o := EndRide(s, caller, rideId, t1);
    var i := FirstOwned(s.rides, rideId, caller.id);
    assert o.after.rides == s.rides[i := o.result.value];
    assert FirstOwnedAt(o.after.rides, rideId, caller.id, i);
  }

  /** Once a user's ride has started, any further start by that user fails;
      on an available scooter it fails because of the active ride. */
  lemma {:induction false} NoSecondActiveRide(s: Snapshot, caller: Identity, first: Option<int>, second: Option<int>, t1: int, t2: int)
    requires StartRide(s, caller, first, t1).result.Ok?
    ensures var after := StartRide(s, caller, first, t1).after;
            var again := StartRide(after, caller, second, t2);
            again.result.Err? &&
            (forall k ::
               (!Falsy(second) && FirstScooterAt(after.scooters, second.value, k) &&
                after.scooters[k].status == Available) ==> again.result == Err(ActiveRideExists))
  {
    var o := StartRide(s, caller, first, t1);
    assert o.after.rides[|s.rides|] == o.result.value;
    assert HasActiveRide(o.after.rides, caller.id);
  }

  /** Riding for no time at all bills no minutes and costs nothing. */
  lemma {:induction false} InstantRideIsFree(s: Snapshot, caller: Identity, scooterId: Option<int>, now: int)
    requires StartRide(s, caller, scooterId, now).result.Ok?
    ensures var started := StartRide(s, caller, scooterId, now);
            var ended := EndRide(started.after, caller, started.result.value.id, now);
            ended.result.Ok? && ended.result.value.status == Completed(now, 0, 0.0)
  {
    var started := StartRide(s, caller, scooterId, now);
    var ride := started.result.value;
    var rides := started.after.rides;
    assert rides[|s.rides|] == ride;
    assert FirstOwnedAt(rides, ride.id, caller.id, |s.rides|);
    var ended := EndRide(started.after, caller, ride.id, now);
    assert CeilMinutes(0) == 0;
    ZeroElapsedIsFree(Amount(ride.pricePerMinute));
  }

  /** One scooter handed over between two riders: while A rides it B is told
      it is unavailable; once A has ended the ride, B can start one on it. */
  lemma {:induction false} HandOver(s: Snapshot, a: Identity, b: Identity, sid: int, k: int, t0: int, t1: int, t2: int, t3: int)
    requires sid != 0 && a.id != b.id
    requires FirstScooterAt(s.scooters, sid, k) && s.scooters[k].status == Available
    requires !HasActiveRide(s.rides, a.id) && !HasActiveRide(s.rides, b.id)
    ensures var s1 := StartRide(s, a, Some(sid), t0);
            s1.result.Ok? &&
            StartRide(s1.after, b, Some(sid), t1).result == Err(ScooterUnavailable) &&
            var s2 := EndRide(s1.after, a, s1.result.value.id, t2);
            s2.result.Ok? &&
            StartRide(s2.after, b, Some(sid), t3).result.Ok?
  {
    var s1 := StartRide(s, a, Some(sid), t0);
    var ride := s1.result.value;
    assert s1.after.scooters == s.scooters[k := s.scooters[k].(status := Rented)];
    assert FirstScooterAt(s1.after.scooters, sid, k);
    var rides1 := s1.after.rides;
    assert rides1[|s.rides|] == ride;
    assert FirstOwnedAt(rides1, ride.id, a.id, |s.rides|);
    var s2 := EndRide(s1.after, a, ride.id, t2);
    assert s2.after.scooters == s.scooters[k := s.scooters[k].(status := Available)];
    assert FirstScooterAt(s2.after.scooters, sid, k);
    var rides2 := s2.after.rides;
    assert rides2 == rides1[|s.rides| := s2.result.value];
    forall j | 0 <= j < |rides2|
      ensures !(rides2[j].userId == b.id && rides2[j].status.Active?)
    {
      if j < |s.rides| {
        assert rides2[j] == s.rides[j];
      }
    }
    assert !HasActiveRide(rides2, b.id);
  }

  /** A user without rides gets an empty list, not an error. */
  lemma {:induction false} NoRidesListsNothing(s: Snapshot, caller: Identity)
    requires forall j :: 0 <= j < |s.rides| ==> s.rides[j].userId != caller.id
    ensures ListRides(s, caller) == []
  {
  }
}
