/** Searching the collections (`find`, `findIndex`, `some`) and allocating
    the id of a new record (`Math.max(...ids) + 1`, or 1 for an empty
    collection). */
module Lookup {
  import opened Records

  /** `findIndex`: the first position whose element satisfies `p`, or -1. */
  function FirstIndex<T>(s: seq<T>, p: T -> bool): (i: int)
    ensures -1 <= i < |s|
    ensures i == -1 <==> forall k :: 0 <= k < |s| ==> !p(s[k])
    ensures 0 <= i ==> p(s[i]) && forall k :: 0 <= k < i ==> !p(s[k])
    decreases |s|
  {
    if |s| == 0 then -1
    else if p(s[0]) then 0
    else
      var j := FirstIndex(s[1..], p);
      assert forall k :: 1 <= k < |s| ==> s[1..][k - 1] == s[k];
      if j == -1 then -1 else j + 1
  }

  /** `Math.max(...xs)` for a non-empty list. */
  function Max(xs: seq<int>): (m: int)
    requires |xs| > 0
    ensures m in xs
    ensures forall k :: 0 <= k < |xs| ==> xs[k] <= m
  {
    if |xs| == 1 then xs[0]
    else
      var rest := Max(xs[1..]);
      assert forall k :: 1 <= k < |xs| ==> xs[1..][k - 1] == xs[k];
      if xs[0] >= rest then xs[0] else rest
  }

  /** The id given to a new record: one more than the largest id in use,
      or 1 when there is none. It is larger than, hence different from,
      every id in use, and it is the least such number above the maximum. */
  function NextId(ids: seq<int>): (r: int)
    ensures |ids| == 0 ==> r == 1
    ensures |ids| > 0 ==> r - 1 in ids
    ensures forall k :: 0 <= k < |ids| ==> ids[k] < r
  {
    if |ids| > 0 then Max(ids) + 1 else 1
  }

  // The search predicates the handlers pass to find / findIndex / some.

  function ScooterWithId(id: int): Scooter -> bool {
    (sc: Scooter) => sc.id == id
  }

  function UserWithId(id: int): User -> bool {
    (u: User) => u.id == id
  }

  function UserNamed(name: string): User -> bool {
    (u: User) => u.username == name
  }

  function ActiveRideOf(userId: int): Ride -> bool {
    (r: Ride) => r.userId == userId && r.status.Active?
  }

  function RideOwnedBy(rideId: int, userId: int): Ride -> bool {
    (r: Ride) => r.id == rideId && r.userId == userId
  }

  /** `k` is the first position of a scooter with this id. */
  ghost predicate FirstScooterAt(scooters: seq<Scooter>, id: int, k: int) {
    0 <= k < |scooters| && scooters[k].id == id &&
    forall j :: 0 <= j < k ==> scooters[j].id != id
  }

  ghost predicate HasScooter(scooters: seq<Scooter>, id: int) {
    exists k :: 0 <= k < |scooters| && scooters[k].id == id
  }

  ghost predicate HasActiveRide(rides: seq<Ride>, userId: int) {
    exists j :: 0 <= j < |rides| && rides[j].userId == userId && rides[j].status.Active?
  }

  /** The current scooter record with this id, as `find` returns it. */
  function FindScooter(scooters: seq<Scooter>, id: int): (r: Option<Scooter>)
    ensures r.None? <==> !HasScooter(scooters, id)
    ensures r.Some? ==> exists k :: FirstScooterAt(scooters, id, k) && scooters[k] == r.value
  {
    var k := FirstIndex(scooters, ScooterWithId(id));
    if k == -1 then None
    else
      assert FirstScooterAt(scooters, id, k);
      Some(scooters[k])
  }
}
