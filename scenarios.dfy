/** How the ride handlers interact with the administrator's handlers. The
    ride handlers keep the fleet consistent, but two things outside them do
    not: ids are "largest in use plus one", so deleting the record with the
    largest id frees that id for the next record, and an administrator may
    set any status on any scooter. */
module Scenarios {
  import opened Records
  import opened Lookup
  import opened Sessions
  import opened Catalog
  import opened Accounts
  import opened RideInvariants

  /** Deleting the account with the largest id and registering a new one
      hands the deleted account's id to the newcomer, and with it the old
      account's rides: the newcomer sees them and can end the active one. */
  lemma DeletedUsersRidesPassToNextUser(adminHash: string, bobHash: string, carolHash: string, t: int)
    ensures
      var admin := Identity(1, Admin);
      var bobRide := Ride(1, 2, 7, t, Num(2.0), Active);
      var s := Snapshot([User(1, "admin", adminHash, Admin), User(2, "bob", bobHash, Regular)], [], [bobRide]);
      var deleted := DeleteUser(s, admin, 2);
      var registered := Register(deleted.after, "carol", "secret", carolHash);
      var carol := Identity(2, Regular);
      deleted.result.Ok? &&
      registered.result == Ok(PublicUser(2, "carol", Regular)) &&
      ListRides(registered.after, carol) == [RideView(bobRide, None)] &&
      EndRide(registered.after, carol, 1, t).result.Ok?
  {
    var admin := Identity(1, Admin);
    var bobRide := Ride(1, 2, 7, t, Num(2.0), Active);
    var s := Snapshot([User(1, "admin", adminHash, Admin), User(2, "bob", bobHash, Regular)], [], [bobRide]);
    var deleted := DeleteUser(s, admin, 2);
    var s1 := Snapshot([User(1, "admin", adminHash, Admin)], [], [bobRide]);
    assert deleted.after == s1 by {
      assert deleted.result.Ok?;
      assert s.users[1].id == 2 && s.users[0].id != 2;
    }
    var registered := Register(s1, "carol", "secret", carolHash);
    assert !UsernameInUse(s1.users, "carol") by {
      assert s1.users[0].username == "admin";
    }
    var s2 := Snapshot([User(1, "admin", adminHash, Admin), User(2, "carol", carolHash, Regular)], [], [bobRide]);
    assert registered.after == s2;
    ListsInheritedRide(s2, bobRide);
    assert FirstOwnedAt(s2.rides, 1, 2, 0);
  }

  /** The rides of a store whose only ride belongs to user 2 list, for user 2, as that one ride. */
  lemma {:induction false} ListsInheritedRide(s: Snapshot, ride: Ride)
    requires s.rides == [ride] && ride.userId == 2 && s.scooters == []
    ensures ListRides(s, Identity(2, Regular)) == [RideView(ride, None)]
  {
    var listed := ListRides(s, Identity(2, Regular));
    assert multiset(listed)[RideView(ride, None)] == 1;
    assert |listed| == |multiset(listed)|;
  }

  /** An administrator who sets a rented scooter back to available lets a
      second rider start on it: two active rides on one scooter, which no
      sequence of ride handlers alone can produce from a consistent fleet. */
  lemma AdminStatusEditAllowsDoubleRental(t: int)
    ensures
      var admin := Identity(1, Admin);
      var sc := Scooter(7, "Brand", "Model", "SN-7", Available, "", 100, 120.0, Num(2.0), 0, None);
      var s := Snapshot([], [sc], []);
      var first := StartRide(s, Identity(2, Regular), Some(7), t);
      var edited := UpdateScooter(first.after, admin, 7, ScooterBody("", "", "", Some(Available), None, None, None, None), t);
      var second := StartRide(edited.after, Identity(3, Regular), Some(7), t);
      FleetConsistent(s) &&
      first.result.Ok? && FleetConsistent(first.after) &&
      edited.result.Ok? && !FleetConsistent(edited.after) &&
      second.result.Ok? && !OneActivePerScooter(second.after.rides)
  {
    var admin := Identity(1, Admin);
    var sc := Scooter(7, "Brand", "Model", "SN-7", Available, "", 100, 120.0, Num(2.0), 0, None);
    var s := Snapshot([], [sc], []);
    var first := StartRide(s, Identity(2, Regular), Some(7), t);
    assert FirstScooterAt(s.scooters, 7, 0);
    StartRideKeepsFleetConsistent(s, Identity(2, Regular), Some(7), t);
    var edited := UpdateScooter(first.after, admin, 7, ScooterBody("", "", "", Some(Available), None, None, None, None), t);
    assert FirstScooterAt(first.after.scooters, 7, 0);
    assert edited.after.scooters[0].status == Available;
    assert RiddenNow(edited.after.rides, 7) by {
      assert edited.after.rides[0].scooterId == 7;
    }
    var second := StartRide(edited.after, Identity(3, Regular), Some(7), t);
    assert FirstScooterAt(edited.after.scooters, 7, 0);
    assert second.after.rides[0].status.Active? && second.after.rides[1].status.Active?;
  }
}
