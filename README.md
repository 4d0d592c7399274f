# Scooter rental server — a Dafny model

The server (`server.js`) keeps users, scooters and rides in one JSON data
file. Every request handler loads the whole file, checks its request, changes
the loaded `data` in place and writes the file back. Nothing else runs
between that load and that save, so each handler is modelled as one atomic
transition on a `Snapshot` (the three collections).

The core is the ride lifecycle:

- starting a ride checks, in order: that a scooter id was sent, that the scooter exists, that it is available, and that the caller has no active ride;
- a new ride freezes the scooter's per-minute rate, and its scooter becomes rented;
- ending a ride bills the elapsed time rounded up to whole minutes at the frozen rate, rounded to cents, and makes the scooter available again;
- the ride list shows the caller's rides, newest first.

Around it sit the start-up repair of the data file, the load-time rate
backfill, id allocation ("largest id in use plus one"), registration,
account deletion, the administrator guard and the scooter catalogue.

Layout, one module per file:

- `records.dfy` (`Records`): the records, the caller identity, the error replies, JavaScript truthiness of rates.
- `lookup.dfy` (`Lookup`): `findIndex`/`find`, `Math.max` and id allocation.
- `pricing.dfy` (`Pricing`): ceiling minutes, `toFixed(2)` rounding, cost, the frozen rate.
- `persistence.dfy` (`Persistence`): `initData` and the `loadData` backfill.
- `sessions.dfy` (`Sessions`): start, end and list rides as pure transitions.
- `ride_invariants.dfy` (`RideInvariants`): what those transitions preserve, and how they compose.
- `catalog.dfy` (`Catalog`): scooter create, update and delete.
- `accounts.dfy` (`Accounts`): register, list users, delete a user.
- `scenarios.dfy` (`Scenarios`): how the administrator handlers interact with rides.
- `server.dfy` (`Server`): the class `Store`. It holds the three collections as `seq` fields. Its methods are the handlers, changing those fields in place. `Load` is the `forEach` backfill loop. Each method is specified by the pure transition above.

Money is `real`. `Round2` is ECMAScript's `toFixed(2)` on exact values: the
nearest cent, a tie going to the larger magnitude. Times are milliseconds.
The caller is the `(id, role)` of an already verified token. A password hash
is an opaque string passed in by the caller of `Register` and of the
constructor.

The model follows the code in these points, some of which a reader might not expect:

- Ending a ride sets the scooter to available whatever its status was, even maintenance or broken (server.js:405-408).
- The "an account named admin exists" repair runs once, at start-up in `initData`. It does not run on every load.
- It checks the username `admin`, not the role.
- Billed minutes are not clamped at zero. A clock that runs backwards gives a negative duration.
- Serial numbers are not checked for uniqueness.
- Ids are "largest plus one", so they are not monotonic across deletions. `Scenarios.DeletedUsersRidesPassToNextUser` shows the consequence.

## Model

| member | source | states |
|---|---|---|
| `Lookup.FirstIndex` | server.js:210 | `findIndex`: -1 exactly when no element matches, otherwise the first matching position |
| `Lookup.Max` | server.js:352 | `Math.max` of a non-empty id list is an element of it and no element exceeds it |
| `Lookup.NextId` | server.js:352 | a new id is 1 for an empty collection, otherwise one more than an id in use and larger than every id in use |
| `Lookup.FindScooter` | server.js:333 | `find` yields nothing exactly when no scooter has the id, otherwise the first scooter with it |
| `Pricing.CeilMinutes` | server.js:394 | billed minutes `d` satisfy `(d-1)*60000 < elapsed <= d*60000` |
| `Pricing.CeilMinutesUnique` | server.js:394 | those bounds determine the billed minutes uniquely (the ceiling) |
| `Pricing.RoundHalfUpCents` | server.js:395 | rounding a magnitude gives whole cents within half a cent |
| `Pricing.Round2` | server.js:395 | `toFixed(2)` gives a whole number of cents within half a cent of the amount; a tie goes to the larger magnitude (the half-cent interval is open toward zero) |
| `Pricing.Round2OfCents` | server.js:395 | an amount already in whole cents is left unchanged |
| `Pricing.Round2Monotone` | server.js:395 | rounding never reverses the order of two amounts |
| `Pricing.Cost` | server.js:395 | the cost is in whole cents and within half a cent of rate times minutes, a half-cent tie billed at the larger magnitude |
| `Pricing.CostMonotone` | server.js:394-395 | at a non-negative rate a longer ride never costs less |
| `Pricing.CostOfCentRate` | server.js:395 | a rate in whole cents is billed exactly, without rounding |
| `Pricing.PricingExample` | server.js:394-395 | 2.00 per minute for 90 seconds bills 2 minutes and costs 4.00 |
| `Pricing.ZeroElapsedIsFree` | server.js:394-395 | zero elapsed time bills 0 minutes and costs 0 |
| `Pricing.FrozenRate` | server.js:359 | a truthy per-minute rate is frozen as it is (string included), otherwise the hourly rate divided by 60 |
| `Persistence.RepairUsers` | server.js:39-53 | an account named admin always results; a list that has one is kept unchanged; otherwise (a missing list counting as empty) an administrator with the given hash is appended under the id max+1 (1 when there are no accounts) |
| `Persistence.Boot` | server.js:19-88 | start-up always yields an account named admin; no file or an unreadable file gives the seed; a parsed file keeps its scooters and rides (missing ones becoming empty) and its users are exactly the start-up repair of the stored list |
| `Persistence.BackfillRate` | server.js:96-99 | only a missing per-minute rate changes: hourly/60 as a two-decimal string (the nearest cent, a tie going to the larger magnitude) or the number 2 when the hourly rate is zero; every other field is kept |
| `Persistence.BackfillSettles` | server.js:93-105 | after a load every scooter has a rate; a load with nothing to backfill changes nothing; loading twice equals loading once |
| `Persistence.BackfillKeepsRecords` | server.js:93-105 | the backfill keeps every scooter, its position, its id and all fields but the rate |
| `Sessions.StartRide` | server.js:325-370 | checks in order missing id, unknown scooter, scooter not available, caller already riding, and a failed check changes nothing; success appends exactly one active ride for the caller with a fresh id (max+1 or 1), start time now and the frozen rate, sets only that scooter to rented and keeps users and other rides |
| `Sessions.Release` | server.js:405-408 | the first scooter with the ride's id becomes available whatever its status; if none is left the list is unchanged |
| `Sessions.EndRide` | server.js:372-413 | another user's ride and an unknown id both give not found; a non-active ride gives already completed; errors change nothing; success keeps every field of the ride and adds end time, ceiling minutes and cost at the frozen rate (an absent rate billed as 0, see "Left out"), replaces only that ride and releases its scooter |
| `Sessions.InsertByStart` | server.js:435 | inserting into a newest-first list keeps it newest first and adds exactly that element |
| `Sessions.SortByStart` | server.js:435 | the sorted list is newest first and a permutation of its input |
| `Sessions.ListRides` | server.js:415-438 | exactly the caller's rides, each as often as stored, each joined with its scooter's current brand/model/serial or nothing if the scooter is gone, newest first |
| `Sessions.OwnedByCounts` | server.js:423 | the filter keeps every ride of the user, as often as stored, and no other ride |
| `Sessions.JoinCounts` | server.js:424-434 | the join pairs every ride with its scooter's description and nothing else |
| `RideInvariants.LoadKeepsInvariants` | server.js:90-108 | loading leaves rides, scooter ids and statuses alone, so fleet consistency survives it |
| `RideInvariants.StartRideKeepsOneActivePerUser` | server.js:343-346 | if nobody holds two active rides before a start, nobody does after it |
| `RideInvariants.EndRideKeepsOneActivePerUser` | server.js:397-403 | ending a ride never creates a second active ride for anybody |
| `RideInvariants.StartRideKeepsFleetConsistent` | server.js:339-365 | unique scooter ids, at most one active ride per scooter, and "rented exactly when an active ride is on it" survive a start |
| `RideInvariants.EndRideKeepsFleetConsistent` | server.js:392-408 | the same fleet consistency survives an end |
| `RideInvariants.EndRideTwice` | server.js:388-390 | ending a ride a second time answers already completed and changes nothing |
| `RideInvariants.NoSecondActiveRide` | server.js:343-346 | after a start, any further start by the same user fails, and on an available scooter it fails because of the active ride |
| `RideInvariants.InstantRideIsFree` | server.js:392-403 | starting and ending at the same instant completes the ride with 0 minutes and cost 0 |
| `RideInvariants.HandOver` | server.js:332-408 | while A rides a scooter B is told it is unavailable; after A ends the ride, B can start one on it |
| `RideInvariants.NoRidesListsNothing` | server.js:418-437 | a user without rides gets an empty list |
| `Catalog.CreateScooter` | server.js:173-202 | non-admin gives forbidden, a missing brand/model/serial gives a 400, otherwise one scooter is appended under the id max+1 (1 when none) with the request's fields and the defaults, a zero or missing field taking the default so its rates are never zero; errors change nothing |
| `Catalog.Merge` | server.js:217-228 | brand, model, serial and status change only for a non-empty value; location, battery and both rates for any value present; id and creation time are kept, the update time is set |
| `Catalog.MergeSettles` | server.js:217-228 | the same update applied twice equals applying it once; an empty body only sets the update time |
| `Catalog.UpdateScooter` | server.js:204-232 | forbidden for non-admins, not found for an unknown id, otherwise only the first scooter with the id is merged; errors change nothing |
| `Catalog.DeleteScooter` | server.js:234-250 | forbidden for non-admins, not found for an unknown id, otherwise only the first scooter with the id is removed, the rest kept in order, rented or not |
| `Catalog.CreateKeepsIdsUnique` | server.js:186 | a created scooter's id keeps scooter ids unique |
| `Catalog.UpdateKeepsIds` | server.js:217-228 | an update never changes any scooter id |
| `Catalog.DeleteRemovesTheId` | server.js:240-246 | a deletion keeps ids unique and leaves no scooter with the deleted id |
| `Accounts.Register` | server.js:252-281 | an empty username or password gives a 400, a username in use gives a 400, otherwise exactly one ordinary user is appended under the id max+1 (1 when none); errors change nothing |
| `Accounts.RegisterKeepsUsernamesUnique` | server.js:261-273 | registration keeps usernames unique |
| `Accounts.ListUsers` | server.js:283-295 | forbidden exactly for non-admins; an administrator always gets every account's id, username and role, in order |
| `Accounts.DeleteUser` | server.js:297-319 | forbidden for non-admins, then deleting oneself is refused, then an unknown id is not found; otherwise it succeeds and removes only the first account with the id; errors change nothing and the caller's own account always survives |
| `Scenarios.DeletedUsersRidesPassToNextUser` | server.js:265-267 | after the account with the largest id is deleted, the next registrant gets that id, sees its rides and can end its active ride |
| `Scenarios.AdminStatusEditAllowsDoubleRental` | server.js:217-228 | an admin resetting a rented scooter to available breaks fleet consistency and lets a second active ride start on it |
| `Server.Store.constructor` | server.js:19-88 | the store starts from the start-up repair of the file found on disk |
| `Server.Store.Load` | server.js:90-108 | the loop gives the backfilled snapshot and reports whether any rate was missing |
| `Server.Store.StartRide` | server.js:325-370 | the in-place handler performs `Sessions.StartRide` on the loaded data (on the unloaded data for a missing id) and keeps both ride invariants |
| `Server.Store.EndRide` | server.js:372-413 | the in-place handler performs `Sessions.EndRide` on the loaded data and keeps both ride invariants |
| `Server.Store.ListRides` | server.js:415-438 | answers `Sessions.ListRides` of the loaded data |
| `Server.Store.ListScooters` | server.js:168-171 | answers the loaded scooter list |
| `Server.Store.CreateScooter` | server.js:173-202 | performs `Catalog.CreateScooter`, loading only once both checks before the load have passed |
| `Server.Store.UpdateScooter` | server.js:204-232 | performs `Catalog.UpdateScooter`, loading only for an administrator |
| `Server.Store.DeleteScooter` | server.js:234-250 | performs `Catalog.DeleteScooter`, loading only for an administrator |
| `Server.Store.Register` | server.js:252-281 | performs `Accounts.Register`, loading only for a non-empty username and password |
| `Server.Store.ListUsers` | server.js:283-295 | answers `Accounts.ListUsers`, loading only for an administrator |
| `Server.Store.DeleteUser` | server.js:297-319 | performs `Accounts.DeleteUser`, loading only after the role and self checks pass |

## Left out

- `POST /api/login` and the token check (server.js:116-166): password comparison and token signing are done by foreign libraries. A caller is given as a verified `Identity`. A deleted user's token still works until it expires; that is not modelled.
- `GET /api/me` (server.js:321-323): it only echoes the token's payload.
- Password hashing: the hash is an input, and nothing about it is modelled.
- File I/O and JSON (de)serialisation: saving is the identity. The atomicity of the write, and the write that `loadData` makes when `needsSave` is set, are not modelled beyond returning the flag.
- A file written at first start has no `rides` key. The model stores an empty list instead; every ride handler treats the two alike.
- Concurrency: each handler is one atomic step. Interleavings of asynchronous handlers (login, register) are not modelled.
- Floating point: amounts are exact reals. Binary rounding effects of `toFixed` (for example on 1.005) are not captured.
- JavaScript values outside the modelled types are not captured: `NaN` from `parseInt` or `parseFloat`, `null` fields, a missing hourly rate, and status strings other than the four the admin page offers. A non-numeric scooter id (which finds nothing) is covered only as "some id that matches no scooter".
- `Sessions.EndRide`: a stored ride without a frozen per-minute rate is billed 0.00, because `Amount` takes an absent rate as 0. The server computes `undefined * minutes`, which is NaN, so its reply carries NaN and the data file stores `null` as the cost. No handler creates such a ride. It can only come from a data file written before rides carried a rate, which start-up keeps as stored.
- `Sessions.ListRides`: its contract does not state the order among rides with equal start times. `SortByStart` is a stable insertion, as JavaScript's sort is, but only "newest first" and "a permutation" are proved.
- The browser scripts under `public/` are page rendering and network plumbing. The only checks they add run in the browser.
