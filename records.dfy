/** The records kept in the server's data file: users, scooters and rides,
    the caller identity that a verified token yields, and the error replies
    of the request handlers. */
module Records {

  datatype Option<T> = None | Some(value: T) {
    function GetOr(default: T): T {
      match this
      case Some(v) => v
      case None => default
    }
  }

  /** The `role` of an account: `'admin'` or `'user'`. */
  datatype Role = Admin | Regular

  /** A stored account. The password hash is opaque: it is produced and
      compared by a hashing library that is not part of this model. */
  datatype User = User(id: int, username: string, passwordHash: string, role: Role)

  /** What a client sees of an account (`GET /api/users`, `POST /api/register`). */
  datatype PublicUser = PublicUser(id: int, username: string, role: Role)

  /** The identity carried by a verified token: the caller's id and role. */
  datatype Identity = Identity(id: int, role: Role)

  datatype ScooterStatus = Available | Rented | Maintenance | Broken

  /** A per-minute rate as it sits in a record. `Absent` is a field that was
      never written; `Num` is a JSON number; `Text` is the two-decimal string
      that the load-time backfill writes, which JavaScript coerces back to its
      value in arithmetic and which is truthy even when it reads "0.00". */
  datatype Price = Absent | Num(value: real) | Text(value: real)

  datatype Scooter = Scooter(
    id: int,
    brand: string,
    model: string,
    serialNumber: string,
    status: ScooterStatus,
    location: string,
    batteryLevel: int,
    pricePerHour: real,
    pricePerMinute: Price,
    createdAt: int,
    updatedAt: Option<int>)

  /** `'active'`, or `'completed'` together with the three fields that
      completing a ride adds: end time, billed minutes and total cost. */
  datatype RideStatus = Active | Completed(endTime: int, durationMinutes: int, totalCost: real)

  /** A ride; `pricePerMinute` is the rate frozen when the ride started.
      Times are milliseconds since the epoch. */
  datatype Ride = Ride(
    id: int,
    userId: int,
    scooterId: int,
    startTime: int,
    pricePerMinute: Price,
    status: RideStatus)

  /** The whole data file once loaded: the three collections. */
  datatype Snapshot = Snapshot(users: seq<User>, scooters: seq<Scooter>, rides: seq<Ride>)

  /** The error replies of the handlers (HTTP status in the comment). */
  datatype Error =
    | MissingFields          // 400: a required body field is missing or empty
    | Forbidden              // 403: the caller is not an administrator
    | ScooterNotFound        // 404
    | ScooterUnavailable     // 400: the scooter's status is not available
    | ActiveRideExists       // 400: the caller already has an active ride
    | RideNotFound           // 404: no ride with this id belongs to the caller
    | RideAlreadyCompleted   // 400
    | UsernameTaken          // 400
    | CannotDeleteSelf       // 400
    | UserNotFound           // 404

  datatype Result<T> = Ok(value: T) | Err(error: Error)

  /** What a handler answers, and the snapshot it leaves behind. */
  datatype Outcome<T> = Outcome(result: Result<T>, after: Snapshot)

  /** JavaScript truthiness of a rate field. */
  predicate Truthy(p: Price) {
    match p
    case Absent => false
    case Num(v) => v != 0.0
    case Text(_) => true
  }

  /** The number a rate field stands for in arithmetic. A present rate is
      its value; an absent one is taken as 0, which is where the model
      departs from JavaScript: there `undefined` in arithmetic gives NaN. */
  function Amount(p: Price): real {
    match p
    case Absent => 0.0
    case Num(v) => v
    case Text(v) => v
  }

  /** `!x` for an optional numeric body field: missing, or zero. */
  predicate Falsy(x: Option<int>) {
    x.None? || x.value == 0
  }

  predicate IsAdmin(caller: Identity) {
    caller.role == Admin
  }

  function UserIds(users: seq<User>): seq<int> {
    seq(|users|, i requires 0 <= i < |users| => users[i].id)
  }

  function ScooterIds(scooters: seq<Scooter>): seq<int> {
    seq(|scooters|, i requires 0 <= i < |scooters| => scooters[i].id)
  }

  function RideIds(rides: seq<Ride>): seq<int> {
    seq(|rides|, i requires 0 <= i < |rides| => rides[i].id)
  }
}
