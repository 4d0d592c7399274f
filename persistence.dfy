/** What the server does to the data file when it starts (`initData`) and
    every time a handler reads it (`loadData`): the start-up repair that
    guarantees an account named "admin" and present collections, and the
    load-time backfill of missing per-minute rates. Reading and writing the
    file are the identity here: a snapshot is what the file holds. */
module Persistence {
  import opened Records
  import opened Lookup
  import opened Pricing

  const AdminName: string := "admin"

  /** The parsed file; a collection the JSON document lacks is `None`. */
  datatype Document = Document(users: Option<seq<User>>, scooters: Option<seq<Scooter>>, rides: Option<seq<Ride>>)

  /** What start-up finds on disk: no file, a file that does not parse, or a document. */
  datatype StoredFile = NoFile | Unreadable | Parsed(doc: Document)

  function SeedAdmin(id: int, adminHash: string): User {
    User(id, AdminName, adminHash, Admin)
  }

  /** The data written when there is no usable file: the seeded administrator only. */
  function Fresh(adminHash: string): Snapshot {
    Snapshot([SeedAdmin(1, adminHash)], [], [])
  }

  ghost predicate HasAdminAccount(users: seq<User>) {
    exists k :: 0 <= k < |users| && users[k].username == AdminName
  }

  /** The account list after the start-up check: kept as it is when an
      account named "admin" exists, otherwise (also when the list is
      missing) extended by a new administrator under the next free id. */
  function RepairUsers(users: Option<seq<User>>, adminHash: string): (r: seq<User>)
    ensures HasAdminAccount(r)
    ensures users.Some? && HasAdminAccount(users.value) ==> r == users.value
    ensures !(users.Some? && HasAdminAccount(users.value)) ==>
      var kept := users.GetOr([]);
      |r| == |kept| + 1 && r[..|kept|] == kept &&
      r[|kept|].username == AdminName && r[|kept|].role == Admin &&
      r[|kept|].passwordHash == adminHash &&
      r[|kept|].id == NextId(UserIds(kept)) &&
      (|kept| == 0 ==> r[|kept|].id == 1) &&
      (forall k :: 0 <= k < |kept| ==> kept[k].id < r[|kept|].id)
  {
    var present := users.Some? && FirstIndex(users.value, UserNamed(AdminName)) != -1;
    if present then
      users.value
    else
      var kept := users.GetOr([]);
      var ids := UserIds(kept);
      var r := kept + [SeedAdmin(NextId(ids), adminHash)];
      assert r[|kept|].username == AdminName;
      assert forall k :: 0 <= k < |kept| ==> kept[k].id == ids[k];
      r
  }

  /** `initData`: the snapshot the server starts from. A missing `rides`
      collection is the empty one; every ride handler treats the two alike. */
  function Boot(file: StoredFile, adminHash: string): (s: Snapshot)
    ensures HasAdminAccount(s.users)
    ensures !file.Parsed? ==> s == Fresh(adminHash)
    ensures file.Parsed? ==>
      s.scooters == file.doc.scooters.GetOr([]) && s.rides == file.doc.rides.GetOr([])
    ensures file.Parsed? ==> s.users == RepairUsers(file.doc.users, adminHash)
    ensures file.Parsed? && file.doc.users.Some? ==>
      var stored := file.doc.users.value;
      |stored| <= |s.users| <= |stored| + 1 && s.users[..|stored|] == stored
  {
    assert Fresh(adminHash).users[0].username == AdminName;
    match file
    case NoFile => Fresh(adminHash)
    case Unreadable => Fresh(adminHash)
    case Parsed(doc) =>
      Snapshot(RepairUsers(doc.users, adminHash), doc.scooters.GetOr([]), doc.rides.GetOr([]))
  }

  /** The rate `loadData` writes into a scooter that has none: its hourly
      rate divided by 60 and formatted with two decimals (a string), or the
      number 2 when the hourly rate is zero. */
  function BackfillRate(sc: Scooter): (r: Scooter)
    ensures !r.pricePerMinute.Absent?
    ensures r == sc.(pricePerMinute := r.pricePerMinute)
    ensures !sc.pricePerMinute.Absent? ==> r == sc
    ensures sc.pricePerMinute.Absent? && sc.pricePerHour == 0.0 ==> r.pricePerMinute == Num(2.0)
    ensures sc.pricePerMinute.Absent? && sc.pricePerHour != 0.0 ==>
      r.pricePerMinute.Text? && IsCents(r.pricePerMinute.value) &&
      sc.pricePerHour / 60.0 - 0.005 <= r.pricePerMinute.value <= sc.pricePerHour / 60.0 + 0.005 &&
      (0.0 <= sc.pricePerHour ==> sc.pricePerHour / 60.0 - 0.005 < r.pricePerMinute.value) &&
      (sc.pricePerHour < 0.0 ==> r.pricePerMinute.value < sc.pricePerHour / 60.0 + 0.005)
  {
    if sc.pricePerMinute.Absent? then
      sc.(pricePerMinute := if sc.pricePerHour != 0.0 then Text(Round2(sc.pricePerHour / 60.0)) else Num(2.0))
    else sc
  }

  function Backfill(scooters: seq<Scooter>): seq<Scooter> {
    seq(|scooters|, k requires 0 <= k < |scooters| => BackfillRate(scooters[k]))
  }

  ghost predicate AllPriced(scooters: seq<Scooter>) {
    forall k :: 0 <= k < |scooters| ==> !scooters[k].pricePerMinute.Absent?
  }

  /** Whether `loadData` has anything to write back. */
  ghost predicate NeedsBackfill(scooters: seq<Scooter>) {
    exists k :: 0 <= k < |scooters| && scooters[k].pricePerMinute.Absent?
  }

  /** The snapshot a handler works on after `loadData`. */
  function Loaded(s: Snapshot): Snapshot {
    s.(scooters := Backfill(s.scooters))
  }

  /** After a load every scooter has a rate; a load changes nothing on a file
      that has nothing to backfill, so loading twice is loading once. */
  lemma BackfillSettles(scooters: seq<Scooter>)
    ensures AllPriced(Backfill(scooters))
    ensures !NeedsBackfill(scooters) ==> Backfill(scooters) == scooters
    ensures Backfill(Backfill(scooters)) == Backfill(scooters)
  {
    var once := Backfill(scooters);
    assert forall k :: 0 <= k < |once| ==> BackfillRate(once[k]) == once[k];
  }

  /** The backfill keeps the scooters, their order and every other field. */
  lemma BackfillKeepsRecords(scooters: seq<Scooter>, k: int)
    requires 0 <= k < |scooters|
    ensures |Backfill(scooters)| == |scooters|
    ensures Backfill(scooters)[k] == scooters[k].(pricePerMinute := Backfill(scooters)[k].pricePerMinute)
    ensures ScooterIds(Backfill(scooters)) == ScooterIds(scooters)
  {
  }
}
