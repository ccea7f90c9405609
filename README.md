# IBA Carpool seat-reservation ledger, in Dafny

IBA Carpool is a ride-sharing service for students of one university. A driver posts a ride with a number of
seats. Passengers send ride requests for it. The driver accepts or rejects them, and every accept takes one seat.
The server consists of Vercel handlers that run SQL against three tables: `users`, `rides` and `ride_requests`.

This project models those handlers over one in-memory store holding the three tables:

- `Types` holds the row shapes and the two enumerations of types.ts.
- `Http` holds what a handler answers: `Ok(payload)`, or `Err(code, message)` with 400, 404 or 405.
- `Query` holds the SQL operations the handlers use, over tables kept as sequences in insertion order:
  selection, first match, update-where and order-by.
- `Schema` holds the database value `Db`, the id counter and the invariants.
- `RequestsApi`, `RidesApi` and `UsersApi` model the three combined handlers (api/requests.ts, api/rides.ts,
  api/users.ts). Each action is a transition function `Db -> Reply(response, db')`. The lemmas beside each one
  state what it guarantees.
- `RequestsCreate`, `RequestsUpdateStatus`, `RequestsGetByPassenger`, `RequestsGetForRide`, `RidesCreate`,
  `RidesGetByHost` and `UsersFindByEmail` model the single-action endpoints. Each runs the shared action. Its
  `SameAsCombined` lemma shows that it answers, and changes the store, exactly as the combined handler's action
  does, for every HTTP method.
- `Seats` holds the seat accounting: free seats plus accepted requests equal the ride's total. Every operation
  keeps this balance except re-resolving a request that is already accepted, and two concrete runs show that
  exception happening.
- `Ledger.Store` is the store as an object. Its fields are the three tables and the id counter. Its methods carry
  out a handler's guards and then its INSERT and UPDATE statements in the source's order. Each method is proved to
  return what the transition function returns and to leave the fields as that function says. Each also keeps the
  id invariant and, where it applies, the seat bound.

Ids and `created_at` stamps come from one counter on the store. The counter starts at 1 and each insert takes the next
value; numeric ids drawn from one counter are a choice of this model, since the source shows no schema. `Valid` states that ids increase in table order and lie below the counter.
So `WHERE id = $1` matches at most one row, and the newest request has the largest stamp.

Behaviour worth knowing, as the code has it:
- `updateStatus` writes whatever status the caller sends. It is not limited to accepted and rejected.
- It never checks the request's current status, so a request already accepted or rejected can be resolved again.
- Rejecting an accepted request gives no seat back.
- A handler's statements are modelled as one atomic step. The source runs them one after another, without a
  transaction.

## Model

| member | source | states |
|---|---|---|
| Types.ParseRole | types.ts:1 | documents the literal union (never parsed at run time): only "student" and "admin" name a role, and a parsed role prints back as the same string |
| Types.RoleNamesRoundTrip | types.ts:1 | every role's string parses back to that role |
| Types.ParseStatus | types.ts:32 | documents the literal union (never parsed at run time): exactly the four strings pending, accepted, rejected, cancelled name a status, and a parsed status prints back as the same string |
| Types.StatusNamesRoundTrip | types.ts:32 | every status's string parses back to it, and no two statuses share a string |
| RequestsApi.ExistingActive | api/requests.ts:38-43 | the duplicate check's rows are non-empty exactly when the pair has a pending or accepted request |
| RequestsApi.CreateRequest | api/requests.ts:38-63 | 400 with the duplicate message exactly when the pair has an active request, and then nothing changes; otherwise one pending row is appended and returned, carrying the five body fields and the next id and stamp; rides and users are untouched |
| RequestsApi.CreateRequestKeepsValid | api/requests.ts:47-63 | the insert keeps ids increasing and below the counter |
| RequestsApi.CreateRequestKeepsOneActive | api/requests.ts:38-45 | create never makes a second active request for a (ride, passenger) pair |
| RequestsApi.InactiveRequestsDoNotBlock | api/requests.ts:39 | when the pair's earlier requests are all rejected or cancelled, create succeeds |
| RequestsApi.CreatedRequestIsListedForRide | api/requests.ts:47-75 | after a create, getForRide lists what it listed before plus the new request, last in the model's table order |
| RequestsApi.RequestWithId | api/requests.ts:139-143 | the lookup finds a request with that id, or none exactly when no request has it |
| RequestsApi.RideWithId | api/requests.ts:146-150 | the lookup finds a ride with that id, or none exactly when no ride has it |
| RequestsApi.TakeSeat | api/requests.ts:157 | every ride with that id loses one available seat; every other ride stays as it was |
| RequestsApi.SetStatus | api/requests.ts:161 | every request with that id gets the new status; every other request stays as it was |
| RequestsApi.UpdateRequestStatus | api/requests.ts:133-162 | 400 when the id or status is missing, 404 for an unknown request, 404 for an accept on a missing ride, 400 for an accept on a ride with no free seat; no change on any error; success exactly when the call is resolvable; then the status is written, and for an accept one seat is taken; any other status leaves rides alone; users and the counter never change |
| RequestsApi.UpdateRequestStatusKeepsValid | api/requests.ts:157-161 | the two updates keep ids intact |
| RequestsApi.AcceptTakesOneSeat | api/requests.ts:145-157 | a successful accept lowers the request's ride by exactly one seat and changes no other ride |
| RequestsApi.UpdateRequestStatusKeepsSeatsBounded | api/requests.ts:152-157 | since a seat is taken only when one is free, counters that were at least 0, and at most the total, stay so |
| RequestsApi.UpdateRequestStatusKeepsOneActive | api/requests.ts:161 | the one-active rule survives a status write that does not reactivate a rejected or cancelled request |
| RequestsApi.ReactivationBreaksOneActive | api/requests.ts:139-161 | reject a request, create a fresh one for the same pair, then set the first back to pending: every step succeeds, and the pair ends with two active requests |
| RequestsApi.RelabelKeepsLookup | api/requests.ts:139-143 | changing a request's status does not change whether the lookup by id finds it, nor the ride id it finds |
| RequestsApi.CurrentStatusIgnored | api/requests.ts:139-161 | the answer and the seats taken do not depend on the request's current status, so a second accept takes a second seat |
| RequestsApi.RequestsForRide | api/requests.ts:74-75 | exactly the requests on that ride, in every status, each as often as the table holds it |
| RequestsApi.Nest | api/requests.ts:101-124 | reshaping a joined row into request and ride loses none of its columns |
| RequestsApi.NestUndoesColumns | api/requests.ts:89-124 | the `rr_*` columns give back the request and the `r_*` columns the ride |
| RequestsApi.JoinRides | api/requests.ts:92-94 | every joined row pairs a request with a ride whose id is the request's ride id, and every such pair is joined |
| RequestsApi.NestAllMembers | api/requests.ts:101-124 | a pair is in the reshaped list exactly when its joined row is in the row list |
| RequestsApi.PassengerView | api/requests.ts:88-126 | every entry is one of the passenger's requests with the ride it names; every such pair appears; entries are ordered by request stamp, newest first |
| RequestsApi.Joinable | api/requests.ts:93 | the requests the inner join keeps are those whose ride exists |
| RequestsApi.OneRideWithId | api/requests.ts:93 | with unique ride ids, a request joins one ride when its ride exists and none otherwise |
| RequestsApi.JoinRidesLength | api/requests.ts:92-94 | with unique ride ids, the join has one row per request whose ride exists |
| RequestsApi.OneEntryPerRequest | api/requests.ts:88-126 | in a valid store the view has exactly as many entries as the passenger has requests on existing rides; requests on missing rides are dropped |
| RequestsApi.Handle | api/requests.ts:11-166 | OPTIONS is answered first; an unknown action gives 400; a wrong method gives 405; errors and the two reads never change the store; a POSTed create or updateStatus answers and writes exactly as RequestsApi.CreateRequest or RequestsApi.UpdateRequestStatus; a GET read gives 400 without its id and otherwise the ride's requests or the passenger's view |
| RidesApi.CreateRide | api/rides.ts:31-57 | always succeeds; one ride is appended and returned, with the body's fields, every seat available, and the next id and stamp |
| RidesApi.CreateRideKeepsValid | api/rides.ts:37-56 | the insert keeps ids increasing and below the counter |
| RidesApi.CreateRideSeatsBounded | api/rides.ts:45-54 | the total is not validated, so the seat bound survives a create exactly when the total is not negative |
| RidesApi.AllRides | api/rides.ts:60-65 | a permutation of all rides, by departure time ascending |
| RidesApi.RidesOfHost | api/rides.ts:76-77 | exactly the host's rides, each as often as the table holds it, by departure time descending |
| RidesApi.CreatedRideIsListed | api/rides.ts:56-77 | a ride just created is listed by getAll and by getByHost for its host |
| RidesApi.Handle | api/rides.ts:11-81 | OPTIONS first; an unknown action gives 400; a wrong method gives 405; only a POSTed create changes the store, exactly as RidesApi.CreateRide; GET getAll answers RidesApi.AllRides; getByHost gives 400 without a host id and otherwise RidesApi.RidesOfHost |
| UsersApi.UserWithEmail | api/users.ts:27-28 | a user with that email (the first in table order), or null exactly when there is none |
| UsersApi.UserWithErpId | api/users.ts:39-40 | a user with that ERP id (the first in table order), or null exactly when there is none |
| UsersApi.CreateUser | api/users.ts:47-85 | a taken email gives "Email already exists" and wins over a taken ERP id; otherwise a taken ERP id gives "ERP ID already exists"; no change on either; the call succeeds exactly when both are free, and then one user with the twelve body fields is appended and returned |
| UsersApi.CreateUserKeepsValid | api/users.ts:61-85 | the insert keeps ids increasing and below the counter |
| UsersApi.CreateUserKeepsUnique | api/users.ts:49-85 | emails and ERP ids that were unique stay unique |
| UsersApi.CreatedUserIsFound | api/users.ts:19-85 | after a create, findByEmail and findByERP for its email and ERP id return the new account |
| UsersApi.SetPassword | api/users.ts:96 | only the password of users with that id changes |
| UsersApi.UpdateUserPassword | api/users.ts:92-97 | 400 and no change when the user id or the new password is missing; otherwise success with the password written |
| UsersApi.UpdatePasswordOfNobody | api/users.ts:96-97 | success is reported even when no user has the id, and then nothing changes |
| UsersApi.UpdatePasswordKeepsInvariants | api/users.ts:96 | ids, emails and ERP ids are untouched, so validity and both uniqueness rules survive |
| UsersApi.Handle | api/users.ts:11-101 | OPTIONS first; an unknown action gives 400; every action answers 405 to anything but POST; only create and updatePassword change the store; findByEmail and findByERP answer 400 when their field is missing, and findByERP otherwise returns a user with that ERP id, or null exactly when none has it; a POSTed create or updatePassword answers and writes exactly as UsersApi.CreateUser or UsersApi.UpdateUserPassword |
| RequestsCreate.Handle | api/requests/create.ts:11-48 | on POST it fails exactly when the pair has an active request and otherwise returns a pending row; any other method gives 405; rides and users never change; on POST it answers and writes exactly as RequestsApi.CreateRequest |
| RequestsCreate.SameAsCombined | api/requests/create.ts:15-48 | for every method it answers and changes the store as the create action of the combined handler |
| RequestsCreate.RidesNotConsulted | api/requests/create.ts:20-48 | the rides table does not affect the answer and is not changed, so a request on a missing or full ride is accepted for review |
| RequestsUpdateStatus.Handle | api/requests/updateStatus.ts:11-49 | on POST it succeeds exactly when the call is resolvable, and answers and writes exactly as RequestsApi.UpdateRequestStatus; any other method gives 405; errors change nothing |
| RequestsUpdateStatus.SameAsCombined | api/requests/updateStatus.ts:15-49 | for every method it behaves as the updateStatus action of the combined handler |
| RequestsUpdateStatus.KeepsSeatsBounded | api/requests/updateStatus.ts:38-44 | from a valid store with seat counters in range, they stay in range |
| RequestsGetByPassenger.Handle | api/requests/getByPassenger.ts:11-64 | 405 for anything but GET, 400 without a passenger id, otherwise exactly the passenger's requests paired with their rides, newest request first, as RequestsApi.PassengerView |
| RequestsGetByPassenger.SameAsCombined | api/requests/getByPassenger.ts:15-64 | same answer as the combined handler's getByPassenger, and the store is unchanged |
| RequestsGetForRide.Handle | api/requests/getForRide.ts:11-25 | 405 for anything but GET, 400 without a ride id, otherwise exactly the ride's requests |
| RequestsGetForRide.SameAsCombined | api/requests/getForRide.ts:15-25 | same answer as the combined handler's getForRide, and the store is unchanged |
| RidesCreate.Handle | api/rides/create.ts:11-42 | 405 for anything but POST; on POST one ride is appended with all its seats available, exactly as RidesApi.CreateRide |
| RidesCreate.SameAsCombined | api/rides/create.ts:15-42 | for every method it behaves as the create action of the combined handler |
| RidesGetByHost.Handle | api/rides/getByHost.ts:11-25 | 405 for anything but GET, 400 without a host id, otherwise exactly the host's rides, latest departure first |
| RidesGetByHost.SameAsCombined | api/rides/getByHost.ts:15-25 | same answer as the combined handler's getByHost, and the store is unchanged |
| UsersFindByEmail.Handle | api/users/findByEmail.ts:11-25 | 405 for anything but POST, 400 without an email, otherwise a user with that email, or null exactly when there is none |
| UsersFindByEmail.SameAsCombined | api/users/findByEmail.ts:15-25 | same answer as the combined handler's findByEmail, and the store is unchanged |
| Seats.UpdateStatusKeepsBalance | api/requests.ts:145-161 | resolving a request that is not yet accepted keeps free plus accepted equal to total for every ride |
| Seats.CreateRequestKeepsBalance | api/requests.ts:47-63 | a new pending request leaves the balance as it was |
| Seats.CreateRideKeepsBalance | api/rides.ts:37-57 | a new ride starts balanced: all its seats free, no accepted request on it |
| Seats.UsersHandlerKeepsBalance | api/users.ts:43-97 | account changes do not affect the balance |
| Seats.SecondAcceptUnbalances | api/requests.ts:139-161 | accepting the same request twice succeeds twice and takes two seats for one accepted passenger |
| Seats.RejectAfterAcceptUnbalances | api/requests.ts:145-161 | rejecting an accepted request succeeds and gives no seat back |
| Ledger.Store.CreateRequest | api/requests.ts:38-63 | runs the duplicate check and then the insert on the store's tables, exactly as RequestsApi.CreateRequest |
| Ledger.Store.UpdateStatus | api/requests.ts:133-162 | runs the guards, then the seat update and the status update, exactly as RequestsApi.UpdateRequestStatus; the seat bound is kept |
| Ledger.Store.HandleRequests | api/requests.ts:11-166 | dispatches as RequestsApi.Handle and leaves the tables as it says; ids stay valid and the seat bound is kept |
| Ledger.Store.HandleCreateRequest | api/requests/create.ts:11-48 | behaves as RequestsCreate.Handle on the store |
| Ledger.Store.HandleUpdateStatus | api/requests/updateStatus.ts:11-49 | behaves as RequestsUpdateStatus.Handle on the store; the seat bound is kept |
| Ledger.Store.CreateRide | api/rides.ts:35-57 | inserts as RidesApi.CreateRide; from a bounded store the bound survives exactly when the total is not negative |
| Ledger.Store.HandleRides | api/rides.ts:11-81 | dispatches as RidesApi.Handle; the seat bound is kept when a created ride's total is not negative |
| Ledger.Store.HandleCreateRide | api/rides/create.ts:11-42 | behaves as RidesCreate.Handle on the store |
| Ledger.Store.CreateUser | api/users.ts:47-85 | runs the two checks and the insert, exactly as UsersApi.CreateUser |
| Ledger.Store.UpdatePassword | api/users.ts:92-97 | runs the check and the update, exactly as UsersApi.UpdateUserPassword |
| Ledger.Store.HandleUsers | api/users.ts:11-101 | dispatches as UsersApi.Handle and leaves the tables as it says |

## Left out

- JSON body parsing and its "Invalid JSON in request body" answer (api/requests.ts:20-28, api/rides.ts:20-28) are not modelled. Bodies arrive already decoded. A field that is missing, null or of the wrong type is not modelled, except where the handler tests it.
- The SQL gateway in api/db-utils.ts is not part of this model. The same goes for its network calls, its retry on 503 and 504, and the 500 answer the handlers give when a statement throws. Statements are reads and writes on the in-memory tables, and they never fail.
- The single-action endpoints differ from the combined handlers on raw bodies, which the model does not capture because bodies arrive decoded: api/requests/create.ts and api/rides/create.ts never parse a string body, while api/requests.ts:20-28 and api/rides.ts:20-28 do; and api/requests/updateStatus.ts:20 destructures the body without the `|| {}` guard of api/requests.ts:133, so a missing body gets a 500 there and a 400 from the combined handler. The `SameAsCombined` lemmas hold for decoded bodies only.
- The `console.log` and `console.error` calls of every handler (for example api/requests.ts:17, 25 and 169) are logging only and are not modelled.
- CORS headers are not modelled. The OPTIONS preflight is modelled only as its empty 200 answer.
- Concurrency is not modelled. One handler call is one atomic step, so the race between check and insert in create, and between seat check and decrement in updateStatus, does not show.
- The client wrapper services/db.ts, the React components and App.tsx are not part of this model.
- Timestamps are values of the id counter. Departure times are integers standing for their ISO strings. Fares and offered prices are reals or NULL.
- Ids are modelled as numbers, although types.ts declares them as strings. A numeric body field (`requestId`, `userId`) counts as missing when it is 0, as in JavaScript. An id in a query string counts as missing only when it is absent or empty.
- The status sent to updateStatus is modelled as one of the four statuses, or as missing. A string outside the four is not modelled.
- Rows with equal sort keys: the model's order among them is one fixed choice. SQL leaves it unspecified, and the contracts promise nothing about it.
- SELECTs without ORDER BY (api/requests.ts:74, api/users.ts:27, api/users.ts:39) are modelled as returning rows in table order, that is insertion order. SQL promises no order there, and after an UPDATE the database's scan order need not be insertion order. The contracts of the three members below depend on that choice; what holds in any order is named on each line.
- RequestsApi.CreatedRequestIsListedForRide: "the new request, last" holds in the model's table order only; in any order, the listing holds the old rows and the new row (RequestsApi.RequestsForRide gives the ride's rows as a multiset).
- UsersApi.UserWithEmail: "the first match" holds in the model's table order only; in any order, the answer is a user with that email, or null exactly when none has it.
- UsersApi.UserWithErpId: "the first match" holds in the model's table order only; in any order, the answer is a user with that ERP id, or null exactly when none has it.
- An SQL UPDATE with `WHERE id = $1` is modelled as updating every row with that id. In a valid store that is at most one row, and lemmas in `Seats` use this.
- Passwords are stored and compared in plain text. The model keeps them as strings and says nothing about security.
- RidesApi.CreateRide: since the server validates nothing, the seat bound is stated as an equivalence with `total_seats >= 0` rather than required of callers.
- RequestsApi.UpdateRequestStatusKeepsOneActive: holds only when the write does not reactivate a request. RequestsApi.ReactivationBreaksOneActive shows the rule failing otherwise.
- Seats.UpdateStatusKeepsBalance: holds only for requests not yet accepted. Seats.SecondAcceptUnbalances and Seats.RejectAfterAcceptUnbalances show the balance failing otherwise.
