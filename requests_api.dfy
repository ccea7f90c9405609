/** The `/api/requests` endpoint (api/requests.ts): one handler that switches on the `action` query parameter
    over `create`, `getForRide`, `getByPassenger` and `updateStatus`. The actions defined here are the ones the
    per-action endpoints under api/requests/ run as well. */
module RequestsApi {
  import opened Types
  import opened Http
  import opened Schema
  import Query

  /** The decoded body of a `create` call. */
  datatype NewRequest = NewRequest(
    rideId: Id,
    passengerId: Id,
    passengerName: string,
    offeredPrice: Option<real>,
    comment: string)

  /** The `action` query parameter together with the parameters that action reads. */
  datatype Action =
    | Create(body: NewRequest)
    | GetForRide(rideId: Option<Id>)
    | GetByPassenger(passengerId: Option<Id>)
    | UpdateStatus(requestId: Option<Id>, status: Option<RequestStatus>)
    | Unknown

  const DuplicateRequest := "You already have a pending or accepted request for this ride."
  const RideIdRequired := "Ride ID is required"
  const PassengerIdRequired := "Passenger ID is required"
  const IdAndStatusRequired := "Request ID and status are required"
  const RequestNotFound := "Request not found"
  const RideNotFound := "Ride not found"
  const NoSeatsAvailable := "No seats available"
  const InvalidAction := "Invalid action. Use: create, getForRide, getByPassenger, or updateStatus"

  // ---------------------------------------------------------------- create

  /** `q` is what the duplicate check looks for: a pending or accepted request of this passenger on this ride. */
  predicate ActiveFor(q: RideRequest, rideId: Id, passengerId: Id) {
    q.rideId == rideId && q.passengerId == passengerId && IsActive(q.status)
  }

  predicate HasActive(requests: seq<RideRequest>, rideId: Id, passengerId: Id) {
    exists k :: 0 <= k < |requests| && ActiveFor(requests[k], rideId, passengerId)
  }

  /** The rows the duplicate check's SELECT returns. */
  function ExistingActive(requests: seq<RideRequest>, rideId: Id, passengerId: Id): (r: seq<RideRequest>)
    ensures |r| > 0 <==> HasActive(requests, rideId, passengerId)
  {
    var rows := Query.Select(requests, (q: RideRequest) => ActiveFor(q, rideId, passengerId));
    assert |rows| > 0 ==> rows[0] in rows;
    assert HasActive(requests, rideId, passengerId) ==> |rows| > 0 by {
      if HasActive(requests, rideId, passengerId) {
        var k :| 0 <= k < |requests| && ActiveFor(requests[k], rideId, passengerId);
        assert requests[k] in rows;
      }
    }
    rows
  }

  /** The INSERT's row carries the five body fields. */
  predicate Carries(row: RideRequest, b: NewRequest) {
    && row.rideId == b.rideId
    && row.passengerId == b.passengerId
    && row.passengerName == b.passengerName
    && row.offeredPrice == b.offeredPrice
    && row.comment == b.comment
  }

  /** `create`: refuse when the pair already has an active request, otherwise insert one pending row and return it.
      Neither the ride's existence nor its seats are consulted. */
  function CreateRequest(db: Db, b: NewRequest): (out: Reply)
    ensures out.response.Err? <==> HasActive(db.requests, b.rideId, b.passengerId)
    ensures out.response.Err? ==> out == Reply(Err(400, DuplicateRequest), db)
    ensures out.response.Ok? ==>
      && out.response.payload.RequestRow?
      && (var row := out.response.payload.request;
          && Carries(row, b) && row.status == Pending
          && row.id == db.nextId && row.createdAt == db.nextId
          && out.db == db.(requests := db.requests + [row], nextId := db.nextId + 1))
  {
    if |ExistingActive(db.requests, b.rideId, b.passengerId)| > 0 then
      Reply(Err(400, DuplicateRequest), db)
    else
      var row := RideRequest(db.nextId, b.rideId, b.passengerId, b.passengerName, b.offeredPrice, b.comment,
                             Pending, db.nextId);
      Reply(Ok(RequestRow(row)), db.(requests := db.requests + [row], nextId := db.nextId + 1))
  }

  lemma CreateRequestKeepsValid(db: Db, b: NewRequest)
    requires Valid(db)
    ensures Valid(CreateRequest(db, b).db)
  {
    var out := CreateRequest(db, b);
    if out.response.Ok? {
      Query.KeyedAppend(db.requests, out.response.payload.request, RequestKey, db.nextId);
    }
  }

  /** `create` is the guard of the one-active-request rule: it never makes a second active request for a pair. */
  lemma CreateRequestKeepsOneActive(db: Db, b: NewRequest)
    requires OneActive(db.requests)
    ensures OneActive(CreateRequest(db, b).db.requests)
  {
    var out := CreateRequest(db, b);
    if out.response.Ok? {
      var rs := out.db.requests;
      var n := |db.requests|;
      forall i, j | 0 <= i < j < |rs| && SamePair(rs[i], rs[j])
        ensures !(IsActive(rs[i].status) && IsActive(rs[j].status))
      {
        if j == n && IsActive(rs[i].status) {
          assert rs[i] == db.requests[i];
          assert ActiveFor(db.requests[i], b.rideId, b.passengerId);
          assert false;
        }
      }
    }
  }

  /** Only pending and accepted requests block: earlier requests that were rejected or cancelled do not. */
  lemma InactiveRequestsDoNotBlock(db: Db, b: NewRequest)
    requires forall q :: q in db.requests && q.rideId == b.rideId && q.passengerId == b.passengerId ==>
               q.status == Rejected || q.status == Cancelled
    ensures CreateRequest(db, b).response.Ok?
  {
    forall k | 0 <= k < |db.requests| ensures !ActiveFor(db.requests[k], b.rideId, b.passengerId) {
      assert db.requests[k] in db.requests;
    }
  }

  /** The request a successful `create` inserts is the last one `getForRide` lists for its ride. */
  lemma CreatedRequestIsListedForRide(db: Db, b: NewRequest)
    requires CreateRequest(db, b).response.Ok?
    ensures var out := CreateRequest(db, b);
      RequestsForRide(out.db.requests, b.rideId) == RequestsForRide(db.requests, b.rideId) + [out.response.payload.request]
  {
    var row := CreateRequest(db, b).response.payload.request;
    Query.SelectAppend(db.requests, row, (q: RideRequest) => q.rideId == b.rideId);
  }

  // ---------------------------------------------------------------- updateStatus

  /** `rows[0]` of `SELECT * FROM ride_requests WHERE id = $1`. */
  function RequestWithId(requests: seq<RideRequest>, id: Id): (r: Option<RideRequest>)
    ensures r.Some? ==> r.value in requests && r.value.id == id
    ensures r.None? <==> forall q :: q in requests ==> q.id != id
  {
    match Query.First(requests, (q: RideRequest) => q.id == id)
    case None => None
    case Some(k) => Some(requests[k])
  }

  /** Position of the first ride with this id. */
  function RideIndex(rides: seq<Ride>, id: Id): (r: Option<nat>)
    ensures r.Some? ==> r.value < |rides| && rides[r.value].id == id
    ensures r.None? <==> forall k :: 0 <= k < |rides| ==> rides[k].id != id
  {
    Query.First(rides, (ride: Ride) => ride.id == id)
  }

  /** `rows[0]` of `SELECT * FROM rides WHERE id = $1`. */
  function RideWithId(rides: seq<Ride>, id: Id): (r: Option<Ride>)
    ensures r.Some? ==> r.value in rides && r.value.id == id
    ensures r.None? <==> forall ride :: ride in rides ==> ride.id != id
  {
    match RideIndex(rides, id)
    case None => None
    case Some(k) => Some(rides[k])
  }

  /** `UPDATE rides SET available_seats = available_seats - 1 WHERE id = $1`. */
  function TakeSeat(rides: seq<Ride>, rideId: Id): (r: seq<Ride>)
    ensures |r| == |rides|
    ensures forall k :: 0 <= k < |rides| ==>
      r[k] == if rides[k].id == rideId then rides[k].(availableSeats := rides[k].availableSeats - 1) else rides[k]
  {
    Query.UpdateWhere(rides, (ride: Ride) => ride.id == rideId,
                      (ride: Ride) => ride.(availableSeats := ride.availableSeats - 1))
  }

  /** `UPDATE ride_requests SET status = $1 WHERE id = $2`. */
  function SetStatus(requests: seq<RideRequest>, id: Id, status: RequestStatus): (r: seq<RideRequest>)
    ensures |r| == |requests|
    ensures forall k :: 0 <= k < |requests| ==>
      r[k] == if requests[k].id == id then requests[k].(status := status) else requests[k]
  {
    Query.UpdateWhere(requests, (q: RideRequest) => q.id == id, (q: RideRequest) => q.(status := status))
  }

  /** When `updateStatus` succeeds: both parameters are given, the request exists, and, for an accept, its ride
      exists with a seat left. The request's current status plays no part. */
  predicate Resolvable(db: Db, requestId: Option<Id>, status: Option<RequestStatus>) {
    && PresentId(requestId) && status.Some?
    && RequestWithId(db.requests, requestId.value).Some?
    && (status.value == Accepted ==>
          var ride := RideWithId(db.rides, RequestWithId(db.requests, requestId.value).value.rideId);
          ride.Some? && ride.value.availableSeats > 0)
  }

  /** `updateStatus`: look up the request, and for an accept look up its ride, refuse when it has no seat left
      and take one; then write the status the caller sent. */
  function UpdateRequestStatus(db: Db, requestId: Option<Id>, status: Option<RequestStatus>): (out: Reply)
    ensures out.db.users == db.users && out.db.nextId == db.nextId
    ensures out.response.Err? ==> out.db == db
    ensures out.response.Ok? <==> Resolvable(db, requestId, status)
    ensures !PresentId(requestId) || status.None? ==> out.response == Err(400, IdAndStatusRequired)
    ensures PresentId(requestId) && status.Some? && RequestWithId(db.requests, requestId.value).None? ==>
      out.response == Err(404, RequestNotFound)
    ensures PresentId(requestId) && status == Some(Accepted) && RequestWithId(db.requests, requestId.value).Some? ==>
      var ride := RideWithId(db.rides, RequestWithId(db.requests, requestId.value).value.rideId);
      && (ride.None? ==> out.response == Err(404, RideNotFound))
      && (ride.Some? && ride.value.availableSeats <= 0 ==> out.response == Err(400, NoSeatsAvailable))
    ensures status.Some? && status.value != Accepted ==> out.db.rides == db.rides
    ensures out.response.Ok? ==>
      && out.response == Ok(Success)
      && out.db.requests == SetStatus(db.requests, requestId.value, status.value)
      && (status.value == Accepted ==>
            out.db.rides == TakeSeat(db.rides, RequestWithId(db.requests, requestId.value).value.rideId))
  {
    if !PresentId(requestId) || status.None? then Reply(Err(400, IdAndStatusRequired), db)
    else match RequestWithId(db.requests, requestId.value)
      case None => Reply(Err(404, RequestNotFound), db)
      case Some(request) =>
        if status.value == Accepted then
          match RideWithId(db.rides, request.rideId)
          case None => Reply(Err(404, RideNotFound), db)
          case Some(ride) =>
            if ride.availableSeats <= 0 then Reply(Err(400, NoSeatsAvailable), db)
            else
              var seated := db.(rides := TakeSeat(db.rides, request.rideId));
              Reply(Ok(Success), seated.(requests := SetStatus(seated.requests, requestId.value, status.value)))
        else
          Reply(Ok(Success), db.(requests := SetStatus(db.requests, requestId.value, status.value)))
  }

  lemma UpdateRequestStatusKeepsValid(db: Db, requestId: Option<Id>, status: Option<RequestStatus>)
    requires Valid(db)
    ensures Valid(UpdateRequestStatus(db, requestId, status).db)
  {
    var out := UpdateRequestStatus(db, requestId, status);
    if out.response.Ok? {
      var id, st := requestId.value, status.value;
      Query.KeyedUpdate(db.requests, (q: RideRequest) => q.id == id, (q: RideRequest) => q.(status := st),
                        RequestKey, db.nextId);
      if st == Accepted {
        var rideId := RequestWithId(db.requests, id).value.rideId;
        Query.KeyedUpdate(db.rides, (ride: Ride) => ride.id == rideId,
                          (ride: Ride) => ride.(availableSeats := ride.availableSeats - 1), RideKey, db.nextId);
      }
    }
  }

  /** A successful accept takes exactly one seat, from the request's ride, and changes no other ride. */
  lemma AcceptTakesOneSeat(db: Db, requestId: Id)
    requires Valid(db)
    requires UpdateRequestStatus(db, Some(requestId), Some(Accepted)).response.Ok?
    ensures var j := RideIndex(db.rides, RequestWithId(db.requests, requestId).value.rideId);
      && j.Some?
      && UpdateRequestStatus(db, Some(requestId), Some(Accepted)).db.rides
         == db.rides[j.value := db.rides[j.value].(availableSeats := db.rides[j.value].availableSeats - 1)]
  {
    var rideId := RequestWithId(db.requests, requestId).value.rideId;
    var j := RideIndex(db.rides, rideId).value;
    var after := UpdateRequestStatus(db, Some(requestId), Some(Accepted)).db.rides;
    var expected := db.rides[j := db.rides[j].(availableSeats := db.rides[j].availableSeats - 1)];
    forall k | 0 <= k < |db.rides| ensures after[k] == expected[k] {
      if db.rides[k].id == rideId {
        RideIdNamesOneRide(db, j, k);
      }
    }
  }

  /** `updateStatus` never drives a seat counter below zero, and never above the ride's total. */
  lemma UpdateRequestStatusKeepsSeatsBounded(db: Db, requestId: Option<Id>, status: Option<RequestStatus>)
    requires Valid(db)
    ensures SeatsNonNegative(db.rides) ==> SeatsNonNegative(UpdateRequestStatus(db, requestId, status).db.rides)
    ensures SeatsBounded(db.rides) ==> SeatsBounded(UpdateRequestStatus(db, requestId, status).db.rides)
  {
    var out := UpdateRequestStatus(db, requestId, status);
    if out.response.Ok? && status.value == Accepted {
      AcceptTakesOneSeat(db, requestId.value);
    }
  }

  /** Writing a status keeps the one-active-request rule as long as it does not reactivate a request: a request
      made pending or accepted again must already have been pending or accepted. */
  lemma UpdateRequestStatusKeepsOneActive(db: Db, requestId: Option<Id>, status: Option<RequestStatus>)
    requires OneActive(db.requests)
    requires PresentId(requestId) && status.Some? && IsActive(status.value) ==>
      forall q :: q in db.requests && q.id == requestId.value ==> IsActive(q.status)
    ensures OneActive(UpdateRequestStatus(db, requestId, status).db.requests)
  {
    var out := UpdateRequestStatus(db, requestId, status);
    if out.response.Ok? {
      var before, after := db.requests, out.db.requests;
      forall i, j | 0 <= i < j < |after| && SamePair(after[i], after[j])
        ensures !(IsActive(after[i].status) && IsActive(after[j].status))
      {
        assert before[i] in before && before[j] in before;
        assert SamePair(before[i], before[j]);
      }
    }
  }

  /** The rule does break without that condition: a rejected request lets `create` insert a fresh pending one for
      the same pair, and setting the rejected one back to pending then succeeds, leaving two active requests. */
  lemma ReactivationBreaksOneActive()
    ensures var db0 := Db([], [Ride(1, 10, "host", "City Campus", "Main Campus", 900, None, 2, 2, 1)],
                          [RideRequest(2, 1, 20, "passenger", None, "", Pending, 2)], 3);
            var rejected := UpdateRequestStatus(db0, Some(2), Some(Rejected));
            var again := CreateRequest(rejected.db, NewRequest(1, 20, "passenger", None, ""));
            var revived := UpdateRequestStatus(again.db, Some(2), Some(Pending));
      && OneActive(db0.requests)
      && rejected.response == Ok(Success)
      && again.response.Ok? && OneActive(again.db.requests)
      && revived.response == Ok(Success) && !OneActive(revived.db.requests)
  {
    var q := RideRequest(2, 1, 20, "passenger", None, "", Pending, 2);
    var db0 := Db([], [Ride(1, 10, "host", "City Campus", "Main Campus", 900, None, 2, 2, 1)], [q], 3);
    var rejected := UpdateRequestStatus(db0, Some(2), Some(Rejected));
    assert rejected.db.requests == [q.(status := Rejected)];
    var again := CreateRequest(rejected.db, NewRequest(1, 20, "passenger", None, ""));
    assert !ActiveFor(rejected.db.requests[0], 1, 20);
    var second := RideRequest(3, 1, 20, "passenger", None, "", Pending, 3);
    assert again.db.requests == [q.(status := Rejected), second];
    var revived := UpdateRequestStatus(again.db, Some(2), Some(Pending));
    assert revived.db.requests == [q, second];
    assert SamePair(revived.db.requests[0], revived.db.requests[1]);
  }

  /** Relabelling a request's status does not change which request, and so which ride, the lookup finds. */
  lemma RelabelKeepsLookup(requests: seq<RideRequest>, id: Id, current: RequestStatus)
    ensures var before := RequestWithId(requests, id);
            var after := RequestWithId(SetStatus(requests, id, current), id);
      && after.Some? == before.Some?
      && (before.Some? ==> after.value.rideId == before.value.rideId)
  {
    var relabelled := SetStatus(requests, id, current);
    var idx := Query.First(requests, (q: RideRequest) => q.id == id);
    var idx' := Query.First(relabelled, (q: RideRequest) => q.id == id);
    if idx.Some? {
      assert relabelled[idx.value].id == id;
      assert idx' == idx;
    } else {
      assert idx'.None?;
    }
  }

  /** `updateStatus` never reads the request's current status: whatever it is, the answer and the seats taken
      are the same. In particular a second accept of an accepted request takes a second seat. */
  lemma CurrentStatusIgnored(db: Db, requestId: Id, current: RequestStatus, status: Option<RequestStatus>)
    ensures var relabelled := db.(requests := SetStatus(db.requests, requestId, current));
      && UpdateRequestStatus(relabelled, Some(requestId), status).response
         == UpdateRequestStatus(db, Some(requestId), status).response
      && UpdateRequestStatus(relabelled, Some(requestId), status).db.rides
         == UpdateRequestStatus(db, Some(requestId), status).db.rides
  {
    RelabelKeepsLookup(db.requests, requestId, current);
  }

  // ---------------------------------------------------------------- getForRide

  /** `SELECT * FROM ride_requests WHERE ride_id = $1`: every request on the ride, whatever its status. */
  function RequestsForRide(requests: seq<RideRequest>, rideId: Id): (r: seq<RideRequest>)
    ensures forall q :: q in r <==> q in requests && q.rideId == rideId
    ensures forall q :: multiset(r)[q] == if q.rideId == rideId then multiset(requests)[q] else 0
  {
    Query.SelectCounts(requests, (q: RideRequest) => q.rideId == rideId);
    Query.Select(requests, (q: RideRequest) => q.rideId == rideId)
  }

  // ---------------------------------------------------------------- getByPassenger

  /** A row of the join's select list: the request's columns (its id and stamp renamed `rr_id`, `rr_created_at`)
      followed by the ride's (`r_id`, `r_created_at`). */
  datatype JoinRow = JoinRow(
    rrId: Id, rideId: Id, passengerId: Id, passengerName: string, offeredPrice: Option<real>, comment: string,
    status: RequestStatus, rrCreatedAt: nat,
    rId: Id, hostId: Id, hostName: string, departureLocation: string, destinationLocation: string,
    departureTime: int, fare: Option<real>, totalSeats: int, availableSeats: int, rCreatedAt: nat)

  /** The select list applied to one joined pair. */
  function Columns(q: RideRequest, r: Ride): JoinRow {
    JoinRow(q.id, q.rideId, q.passengerId, q.passengerName, q.offeredPrice, q.comment, q.status, q.createdAt,
            r.id, r.hostId, r.hostName, r.departureLocation, r.destinationLocation, r.departureTime, r.fare,
            r.totalSeats, r.availableSeats, r.createdAt)
  }

  /** The `rows.map` reshaping of a flat row into `{ request, ride }`; it loses nothing of the row. */
  function Nest(row: JoinRow): (e: RequestWithRide)
    ensures Columns(e.request, e.ride) == row
  {
    RequestWithRide(
      RideRequest(row.rrId, row.rideId, row.passengerId, row.passengerName, row.offeredPrice, row.comment,
                  row.status, row.rrCreatedAt),
      Ride(row.rId, row.hostId, row.hostName, row.departureLocation, row.destinationLocation, row.departureTime,
           row.fare, row.totalSeats, row.availableSeats, row.rCreatedAt))
  }

  /** Reshaping gives back exactly the request and the ride the select list was taken from. */
  lemma NestUndoesColumns(q: RideRequest, r: Ride)
    ensures Nest(Columns(q, r)) == RequestWithRide(q, r)
  {
  }

  function RidesWithId(rides: seq<Ride>, id: Id): (r: seq<Ride>)
    ensures forall ride :: ride in r <==> ride in rides && ride.id == id
  {
    Query.Select(rides, (ride: Ride) => ride.id == id)
  }

  function RequestsOfPassenger(requests: seq<RideRequest>, passengerId: Id): (r: seq<RideRequest>)
    ensures forall q :: q in r <==> q in requests && q.passengerId == passengerId
  {
    Query.Select(requests, (q: RideRequest) => q.passengerId == passengerId)
  }

  /** `FROM ride_requests rr JOIN rides r ON rr.ride_id = r.id`, request by request in table order. */
  function JoinRides(requests: seq<RideRequest>, rides: seq<Ride>): (rows: seq<JoinRow>)
    ensures forall row :: row in rows ==>
      Nest(row).request in requests && Nest(row).ride in rides && Nest(row).ride.id == Nest(row).request.rideId
    ensures forall q, r :: q in requests && r in rides && r.id == q.rideId ==> Columns(q, r) in rows
  {
    if requests == [] then []
    else
      var q := requests[0];
      var matched := RidesWithId(rides, q.rideId);
      var head := seq(|matched|, i requires 0 <= i < |matched| => Columns(q, matched[i]));
      var rest := JoinRides(requests[1..], rides);
      assert forall r :: r in matched ==> Columns(q, r) in head by {
        forall r | r in matched ensures Columns(q, r) in head {
          var i :| 0 <= i < |matched| && matched[i] == r;
          assert head[i] == Columns(q, r);
        }
      }
      assert forall q' :: q' in requests ==> q' == q || q' in requests[1..] by {
        assert requests == [q] + requests[1..];
      }
      head + rest
  }

  /** Sort key for `ORDER BY rr.created_at DESC`: ascending in the negated stamp. */
  function NewestFirst(row: JoinRow): int { 0 - row.rrCreatedAt as int }

  /** The reshaping applied to every row. */
  function NestAll(rows: seq<JoinRow>): (r: seq<RequestWithRide>)
    ensures |r| == |rows|
    ensures forall i :: 0 <= i < |rows| ==> r[i] == Nest(rows[i])
  {
    seq(|rows|, i requires 0 <= i < |rows| => Nest(rows[i]))
  }

  /** An entry is in the reshaped list exactly when its flat row is in the row list. */
  lemma NestAllMembers(rows: seq<JoinRow>)
    ensures forall e :: e in NestAll(rows) <==> Columns(e.request, e.ride) in rows
  {
    var r := NestAll(rows);
    forall e ensures e in r <==> Columns(e.request, e.ride) in rows {
      if e in r {
        var i :| 0 <= i < |r| && r[i] == e;
        assert Columns(e.request, e.ride) == rows[i];
      }
      if Columns(e.request, e.ride) in rows {
        var i :| 0 <= i < |rows| && rows[i] == Columns(e.request, e.ride);
        NestUndoesColumns(e.request, e.ride);
        assert r[i] == e;
      }
    }
  }

  /** `getByPassenger`: the passenger's requests joined with their rides, newest request first, reshaped. */
  function PassengerView(requests: seq<RideRequest>, rides: seq<Ride>, passengerId: Id): (r: seq<RequestWithRide>)
    ensures forall e :: e in r ==>
      && e.request in requests && e.ride in rides
      && e.request.passengerId == passengerId && e.ride.id == e.request.rideId
    ensures forall q, ride :: q in requests && ride in rides && q.passengerId == passengerId && ride.id == q.rideId ==>
      RequestWithRide(q, ride) in r
    ensures forall i, j :: 0 <= i < j < |r| ==> r[i].request.createdAt >= r[j].request.createdAt
  {
    var sorted := Query.SortBy(JoinRides(RequestsOfPassenger(requests, passengerId), rides), NewestFirst);
    NestAllMembers(sorted);
    NestAll(sorted)
  }

  /** The requests the inner join keeps: those whose ride exists. */
  function Joinable(requests: seq<RideRequest>, rides: seq<Ride>): (r: seq<RideRequest>)
    ensures forall q :: q in r <==> q in requests && RideWithId(rides, q.rideId).Some?
  {
    Query.Select(requests, (q: RideRequest) => RideWithId(rides, q.rideId).Some?)
  }

  /** With ride ids unique, the join finds one ride for an id that exists and none otherwise. */
  lemma {:induction false} OneRideWithId(rides: seq<Ride>, id: Id, next: int)
    requires Query.Keyed(rides, RideKey, next)
    ensures |RidesWithId(rides, id)| == if RideWithId(rides, id).Some? then 1 else 0
  {
    if rides != [] {
      var tail := rides[1..];
      assert Query.Keyed(tail, RideKey, next);
      OneRideWithId(tail, id, next);
      assert rides == [rides[0]] + tail;
      assert RidesWithId(rides, id) == (if rides[0].id == id then [rides[0]] else []) + RidesWithId(tail, id);
      if rides[0].id == id {
        forall r | r in tail ensures r.id != id {
          var k :| 0 <= k < |tail| && tail[k] == r;
          assert rides[k + 1] == r;
        }
      }
    }
  }

  /** With ride ids unique, the join yields exactly one row per request whose ride exists. */
  lemma {:induction false} JoinRidesLength(requests: seq<RideRequest>, rides: seq<Ride>, next: int)
    requires Query.Keyed(rides, RideKey, next)
    ensures |JoinRides(requests, rides)| == |Joinable(requests, rides)|
  {
    if requests != [] {
      var q := requests[0];
      JoinRidesLength(requests[1..], rides, next);
      OneRideWithId(rides, q.rideId, next);
      assert requests == [q] + requests[1..];
      assert Joinable(requests, rides)
             == (if RideWithId(rides, q.rideId).Some? then [q] else []) + Joinable(requests[1..], rides);
    }
  }

  /** In a valid database `getByPassenger` lists each of the passenger's requests whose ride exists exactly once:
      as many entries as such requests, and every one of them among the entries. Requests whose ride is missing
      are dropped. */
  lemma OneEntryPerRequest(db: Db, passengerId: Id)
    requires Valid(db)
    ensures |PassengerView(db.requests, db.rides, passengerId)|
            == |Joinable(RequestsOfPassenger(db.requests, passengerId), db.rides)|
  {
    var mine := RequestsOfPassenger(db.requests, passengerId);
    var rows := JoinRides(mine, db.rides);
    JoinRidesLength(mine, db.rides, db.nextId);
    var sorted := Query.SortBy(rows, NewestFirst);
    assert |sorted| == |rows| by {
      assert |multiset(sorted)| == |multiset(rows)|;
    }
    assert PassengerView(db.requests, db.rides, passengerId) == NestAll(sorted);
  }

  // ---------------------------------------------------------------- the handler

  /** The HTTP method each action answers to. */
  function Verb(a: Action): Method {
    match a
    case Create(_) => Post
    case UpdateStatus(_, _) => Post
    case _ => Get
  }

  /** The whole handler: OPTIONS first, then the action, then each action's method check. */
  function Handle(db: Db, m: Method, a: Action): (out: Reply)
    ensures m == Options ==> out == Reply(Ok(Preflight), db)
    ensures m != Options && a.Unknown? ==> out == Reply(Err(400, InvalidAction), db)
    ensures m != Options && !a.Unknown? && m != Verb(a) ==> out == Reply(MethodNotAllowed, db)
    ensures out.response.Err? || !(a.Create? || a.UpdateStatus?) ==> out.db == db
    ensures m == Post && a.Create? ==> out == CreateRequest(db, a.body)
    ensures m == Post && a.UpdateStatus? ==> out == UpdateRequestStatus(db, a.requestId, a.status)
    ensures m == Get && a.GetForRide? && a.rideId.None? ==> out == Reply(Err(400, RideIdRequired), db)
    ensures m == Get && a.GetForRide? && a.rideId.Some? ==>
      out == Reply(Ok(RequestList(RequestsForRide(db.requests, a.rideId.value))), db)
    ensures m == Get && a.GetByPassenger? && a.passengerId.None? ==> out == Reply(Err(400, PassengerIdRequired), db)
    ensures m == Get && a.GetByPassenger? && a.passengerId.Some? ==>
      out == Reply(Ok(JoinedList(PassengerView(db.requests, db.rides, a.passengerId.value))), db)
  {
    if m == Options then Reply(Ok(Preflight), db)
    else match a
      case Create(b) =>
        if m != Post then Reply(MethodNotAllowed, db)
        else CreateRequest(db, b)
      case GetForRide(rideId) =>
        if m != Get then Reply(MethodNotAllowed, db)
        else if rideId.None? then Reply(Err(400, RideIdRequired), db)
        else Reply(Ok(RequestList(RequestsForRide(db.requests, rideId.value))), db)
      case GetByPassenger(passengerId) =>
        if m != Get then Reply(MethodNotAllowed, db)
        else if passengerId.None? then Reply(Err(400, PassengerIdRequired), db)
        else Reply(Ok(JoinedList(PassengerView(db.requests, db.rides, passengerId.value))), db)
      case UpdateStatus(requestId, status) =>
        if m != Post then Reply(MethodNotAllowed, db)
        else UpdateRequestStatus(db, requestId, status)
      case Unknown => Reply(Err(400, InvalidAction), db)
  }
}
