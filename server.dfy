/** The server's data as the handlers see it: one object whose three
    collections the handlers load, change in place and save. Each handler
    is one atomic step (nothing else runs between its load and its save);
    saving is the identity, so the fields are what the data file holds.
    Every method is specified by the pure transition it performs. */
module Server {
  import opened Records
  import opened Lookup
  import opened Pricing
  import opened Persistence
  import opened Sessions
  import Catalog
  import Accounts
  import RideInvariants

  class Store {
    var users: seq<User>
    var scooters: seq<Scooter>
    var rides: seq<Ride>

    function Snap(): Snapshot
      reads this
    {
      Snapshot(users, scooters, rides)
    }

    /** The ride invariants: nobody holds two active rides, and the fleet is
        consistent. The ride handlers preserve them; the administrator's
        scooter handlers need not (see `Scenarios`). */
    ghost predicate RideInvariantsHold()
      reads this
    {
      RideInvariants.OneActivePerUser(rides) && RideInvariants.FleetConsistent(Snap())
    }

    /** `initData`: start from the file found on disk, or from the seed. */
    constructor (file: StoredFile, adminHash: string)
      ensures Snap() == Boot(file, adminHash)
    {
      var u: seq<User>, sc: seq<Scooter>, r: seq<Ride>;
      match file {
        case Parsed(doc) =>
          var adminExists := doc.users.Some? && FirstIndex(doc.users.value, UserNamed(AdminName)) != -1;
          u := doc.users.GetOr([]);
          if !adminExists {
            u := u + [SeedAdmin(NextId(UserIds(u)), adminHash)];
          }
          sc := doc.scooters.GetOr([]);
          r := doc.rides.GetOr([]);
        case _ =>
          u, sc, r := [SeedAdmin(1, adminHash)], [], [];
      }
      users, scooters, rides := u, sc, r;
    }

    /** `loadData`: give every scooter without a per-minute rate the
        backfilled one, and report whether anything had to be written. The
        write itself is the identity here, so the handlers drop the flag. */
    method Load() returns (needsSave: bool)
      modifies this
      ensures Snap() == Loaded(old(Snap()))
      ensures needsSave == NeedsBackfill(old(scooters))
    {
      needsSave := false;
      var i := 0;
      while i < |scooters|
        invariant 0 <= i <= |scooters| == |old(scooters)|
        invariant users == old(users) && rides == old(rides)
        invariant forall k :: 0 <= k < i ==> scooters[k] == BackfillRate(old(scooters)[k])
        invariant forall k :: i <= k < |scooters| ==> scooters[k] == old(scooters)[k]
        invariant needsSave == exists k :: 0 <= k < i && old(scooters)[k].pricePerMinute.Absent?
      {
        if scooters[i].pricePerMinute.Absent? {
          scooters := scooters[i := BackfillRate(scooters[i])];
          needsSave := true;
        }
        i := i + 1;
      }
      assert scooters == Backfill(old(scooters));
    }

    /** `POST /api/rides/start`. */
    method StartRide(caller: Identity, scooterId: Option<int>, now: int) returns (r: Result<Ride>)
      modifies this
      ensures var before := if Falsy(scooterId) then old(Snap()) else Loaded(old(Snap()));
              var o := Sessions.StartRide(before, caller, scooterId, now);
              r == o.result && Snap() == o.after
      ensures old(RideInvariantsHold()) ==> RideInvariantsHold()
    {
      ghost var wasValid := RideInvariantsHold();
      RideInvariants.LoadKeepsInvariants(Snap());
      if Falsy(scooterId) {
        return Err(MissingFields);
      }
      var _ := Load();
      ghost var loaded := Snap();
      var sid := scooterId.value;
      var k := FirstIndex(scooters, ScooterWithId(sid));
      if k == -1 {
        return Err(ScooterNotFound);
      }
      if scooters[k].status != Available {
        return Err(ScooterUnavailable);
      }
      if FirstIndex(rides, ActiveRideOf(caller.id)) != -1 {
        return Err(ActiveRideExists);
      }
      var ride := Ride(NextId(RideIds(rides)), caller.id, sid, now, FrozenRate(scooters[k]), Active);
      rides := rides + [ride];
      scooters := scooters[k := scooters[k].(status := Rented)];
      r := Ok(ride);
      assert Snap() == Sessions.StartRide(loaded, caller, scooterId, now).after;
      if wasValid {
        RideInvariants.StartRideKeepsInvariants(loaded, caller, scooterId, now);
      }
    }

    /** `POST /api/rides/end/:id`. */
    method EndRide(caller: Identity, rideId: int, now: int) returns (r: Result<Ride>)
      modifies this
      ensures var o := Sessions.EndRide(Loaded(old(Snap())), caller, rideId, now);
              r == o.result && Snap() == o.after
      ensures old(RideInvariantsHold()) ==> RideInvariantsHold()
    {
      ghost var wasValid := RideInvariantsHold();
      RideInvariants.LoadKeepsInvariants(Snap());
      var _ := Load();
      ghost var loaded := Snap();
      var i := FirstIndex(rides, RideOwnedBy(rideId, caller.id));
      if i == -1 {
        return Err(RideNotFound);
      }
      var ride := rides[i];
      if !ride.status.Active? {
        return Err(RideAlreadyCompleted);
      }
      var minutes := CeilMinutes(now - ride.startTime);
      var done := ride.(status := Completed(now, minutes, Cost(Amount(ride.pricePerMinute), minutes)));
      rides := rides[i := done];
      var k := FirstIndex(scooters, ScooterWithId(ride.scooterId));
      if k != -1 {
        scooters := scooters[k := scooters[k].(status := Available)];
      }
      r := Ok(done);
      assert FirstOwnedAt(loaded.rides, rideId, caller.id, i);
      assert Snap() == Sessions.EndRide(loaded, caller, rideId, now).after;
      if wasValid {
        RideInvariants.EndRideKeepsInvariants(loaded, caller, rideId, now);
      }
    }

    /** `GET /api/rides`. */
    method ListRides(caller: Identity) returns (views: seq<Sessions.RideView>)
      modifies this
      ensures Snap() == Loaded(old(Snap()))
      ensures views == Sessions.ListRides(Snap(), caller)
    {
      var _ := Load();
      var owned := Sessions.OwnedBy(rides, caller.id);
      views := Sessions.SortByStart(Sessions.Join(owned, scooters));
    }

    /** `GET /api/scooters`: the loaded collection. */
    method ListScooters() returns (all: seq<Scooter>)
      modifies this
      ensures Snap() == Loaded(old(Snap()))
      ensures all == scooters
    {
      var _ := Load();
      all := scooters;
    }

    /** `POST /api/scooters`. */
    method CreateScooter(caller: Identity, body: Catalog.ScooterBody, now: int) returns (r: Result<Scooter>)
      modifies this
      ensures var early := !IsAdmin(caller) || body.brand == "" || body.model == "" || body.serialNumber == "";
              var o := Catalog.CreateScooter(if early then old(Snap()) else Loaded(old(Snap())), caller, body, now);
              r == o.result && Snap() == o.after
    {
      if !IsAdmin(caller) {
        return Err(Forbidden);
      }
      if body.brand == "" || body.model == "" || body.serialNumber == "" {
        return Err(MissingFields);
      }
      var _ := Load();
      var sc := Scooter(NextId(ScooterIds(scooters)), body.brand, body.model, body.serialNumber,
                        body.status.GetOr(Available), body.location.GetOr(""),
                        Catalog.OrInt(body.batteryLevel, 100), Catalog.OrReal(body.pricePerHour, 100.0),
                        Num(Catalog.OrReal(body.pricePerMinute, 2.0)), now, None);
      scooters := scooters + [sc];
      r := Ok(sc);
    }

    /** `PUT /api/scooters/:id`. */
    method UpdateScooter(caller: Identity, id: int, body: Catalog.ScooterBody, now: int) returns (r: Result<Scooter>)
      modifies this
      ensures var o := Catalog.UpdateScooter(if IsAdmin(caller) then Loaded(old(Snap())) else old(Snap()), caller, id, body, now);
              r == o.result && Snap() == o.after
    {
      if !IsAdmin(caller) {
        return Err(Forbidden);
      }
      var _ := Load();
      var k := FirstIndex(scooters, ScooterWithId(id));
      if k == -1 {
        return Err(ScooterNotFound);
      }
      scooters := scooters[k := Catalog.Merge(scooters[k], body, now)];
      r := Ok(scooters[k]);
    }

    /** `DELETE /api/scooters/:id`. */
    method DeleteScooter(caller: Identity, id: int) returns (r: Result<()>)
      modifies this
      ensures var o := Catalog.DeleteScooter(if IsAdmin(caller) then Loaded(old(Snap())) else old(Snap()), caller, id);
              r == o.result && Snap() == o.after
    {
      if !IsAdmin(caller) {
        return Err(Forbidden);
      }
      var _ := Load();
      var k := FirstIndex(scooters, ScooterWithId(id));
      if k == -1 {
        return Err(ScooterNotFound);
      }
      scooters := scooters[..k] + scooters[k + 1..];
      r := Ok(());
    }

    /** `POST /api/register`; `passwordHash` is the hash of `password`. */
    method Register(username: string, password: string, passwordHash: string) returns (r: Result<PublicUser>)
      modifies this
      ensures var early := username == "" || password == "";
              var o := Accounts.Register(if early then old(Snap()) else Loaded(old(Snap())), username, password, passwordHash);
              r == o.result && Snap() == o.after
    {
      if username == "" || password == "" {
        return Err(MissingFields);
      }
      var _ := Load();
      if FirstIndex(users, UserNamed(username)) != -1 {
        return Err(UsernameTaken);
      }
      var id := NextId(UserIds(users));
      users := users + [User(id, username, passwordHash, Regular)];
      r := Ok(PublicUser(id, username, Regular));
    }

    /** `GET /api/users`. */
    method ListUsers(caller: Identity) returns (r: Result<seq<PublicUser>>)
      modifies this
      ensures Snap() == if IsAdmin(caller) then Loaded(old(Snap())) else old(Snap())
      ensures r == Accounts.ListUsers(Snap(), caller)
    {
      if !IsAdmin(caller) {
        return Err(Forbidden);
      }
      var _ := Load();
      var all := users;
      r := Ok(seq(|all|, k requires 0 <= k < |all| => PublicUser(all[k].id, all[k].username, all[k].role)));
      assert r.value == Accounts.ListUsers(Snap(), caller).value;
    }

    /** `DELETE /api/users/:id`. */
    method DeleteUser(caller: Identity, userId: int) returns (r: Result<()>)
      modifies this
      ensures var early := !IsAdmin(caller) || caller.id == userId;
              var o := Accounts.DeleteUser(if early then old(Snap()) else Loaded(old(Snap())), caller, userId);
              r == o.result && Snap() == o.after
    {
      if !IsAdmin(caller) {
        return Err(Forbidden);
      }
      if caller.id == userId {
        return Err(CannotDeleteSelf);
      }
      var _ := Load();
      var k := FirstIndex(users, UserWithId(userId));
      if k == -1 {
        return Err(UserNotFound);
      }
      users := users[..k] + users[k + 1..];
      r := Ok(());
    }
  }
}
