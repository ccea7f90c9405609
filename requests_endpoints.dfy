/** The single-action endpoints under api/requests/. Each checks its one HTTP method before anything else and then
    runs the corresponding action of the combined `/api/requests` handler; the lemmas state that the two routes
    answer and change the store alike, for every method. */

/** api/requests/create.ts */
module RequestsCreate {
  import opened Types
  import opened Http
  import opened Schema
  import RequestsApi

  function Handle(db: Db, m: Method, b: RequestsApi.NewRequest): (out: Reply)
    ensures m == Options ==> out == Reply(Ok(Preflight), db)
    ensures m != Options && m != Post ==> out == Reply(MethodNotAllowed, db)
    ensures m == Post ==>
      && (out.response.Err? <==> RequestsApi.HasActive(db.requests, b.rideId, b.passengerId))
      && (out.response.Ok? ==> out.response.payload.RequestRow? && out.response.payload.request.status == Pending)
    ensures out.db.users == db.users && out.db.rides == db.rides
    ensures m == Post ==> out == RequestsApi.CreateRequest(db, b)
  {
    if m == Options then Reply(Ok(Preflight), db)
    else if m != Post then Reply(MethodNotAllowed, db)
    else RequestsApi.CreateRequest(db, b)
  }

  lemma SameAsCombined(db: Db, m: Method, b: RequestsApi.NewRequest)
    ensures Handle(db, m, b) == RequestsApi.Handle(db, m, RequestsApi.Create(b))
  {
  }

  /** The endpoint never looks at the rides table: whether the ride exists, has departed or is full, the answer
      is the same, and no seat is taken. */
  lemma RidesNotConsulted(db: Db, m: Method, b: RequestsApi.NewRequest, rides: seq<Ride>)
    ensures Handle(db.(rides := rides), m, b).response == Handle(db, m, b).response
    ensures Handle(db.(rides := rides), m, b).db == Handle(db, m, b).db.(rides := rides)
  {
  }
}

/** api/requests/updateStatus.ts */
module RequestsUpdateStatus {
  import opened Types
  import opened Http
  import opened Schema
  import RequestsApi

  function Handle(db: Db, m: Method, requestId: Option<Id>, status: Option<RequestStatus>): (out: Reply)
    ensures m == Options ==> out == Reply(Ok(Preflight), db)
    ensures m != Options && m != Post ==> out == Reply(MethodNotAllowed, db)
    ensures m == Post ==> (out.response.Ok? <==> RequestsApi.Resolvable(db, requestId, status))
    ensures out.response.Err? ==> out.db == db
    ensures m == Post ==> out == RequestsApi.UpdateRequestStatus(db, requestId, status)
  {
    if m == Options then Reply(Ok(Preflight), db)
    else if m != Post then Reply(MethodNotAllowed, db)
    else RequestsApi.UpdateRequestStatus(db, requestId, status)
  }

  lemma SameAsCombined(db: Db, m: Method, requestId: Option<Id>, status: Option<RequestStatus>)
    ensures Handle(db, m, requestId, status) == RequestsApi.Handle(db, m, RequestsApi.UpdateStatus(requestId, status))
  {
  }

  /** From a store whose seat counters are all within bounds, the endpoint leaves them within bounds. */
  lemma KeepsSeatsBounded(db: Db, m: Method, requestId: Option<Id>, status: Option<RequestStatus>)
    requires Valid(db) && SeatsBounded(db.rides)
    ensures Valid(Handle(db, m, requestId, status).db)
    ensures SeatsBounded(Handle(db, m, requestId, status).db.rides)
  {
    if m == Post {
      RequestsApi.UpdateRequestStatusKeepsValid(db, requestId, status);
      RequestsApi.UpdateRequestStatusKeepsSeatsBounded(db, requestId, status);
    }
  }
}

/** api/requests/getByPassenger.ts */
module RequestsGetByPassenger {
  import opened Types
  import opened Http
  import opened Schema
  import RequestsApi

  /** The endpoint reads `ride_requests` and `rides` and changes nothing. */
  function Handle(requests: seq<RideRequest>, rides: seq<Ride>, m: Method, passengerId: Option<Id>): (r: Response)
    ensures m == Options ==> r == Ok(Preflight)
    ensures m != Options && m != Get ==> r == MethodNotAllowed
    ensures m == Get && passengerId.None? ==> r == Err(400, RequestsApi.PassengerIdRequired)
    ensures m == Get && passengerId.Some? ==>
      && r.Ok? && r.payload.JoinedList?
      && (forall e :: e in r.payload.entries ==>
            e.request in requests && e.ride in rides &&
            e.request.passengerId == passengerId.value && e.ride.id == e.request.rideId)
      && (forall q, ride :: q in requests && ride in rides && q.passengerId == passengerId.value && ride.id == q.rideId ==>
            RequestWithRide(q, ride) in r.payload.entries)
      && (forall i, j :: 0 <= i < j < |r.payload.entries| ==>
            r.payload.entries[i].request.createdAt >= r.payload.entries[j].request.createdAt)
    ensures m == Get && passengerId.Some? ==> r == Ok(JoinedList(RequestsApi.PassengerView(requests, rides, passengerId.value)))
  {
    if m == Options then Ok(Preflight)
    else if m != Get then MethodNotAllowed
    else if passengerId.None? then Err(400, RequestsApi.PassengerIdRequired)
    else Ok(JoinedList(RequestsApi.PassengerView(requests, rides, passengerId.value)))
  }

  lemma SameAsCombined(db: Db, m: Method, passengerId: Option<Id>)
    ensures RequestsApi.Handle(db, m, RequestsApi.GetByPassenger(passengerId))
            == Reply(Handle(db.requests, db.rides, m, passengerId), db)
  {
  }
}

/** api/requests/getForRide.ts */
module RequestsGetForRide {
  import opened Types
  import opened Http
  import opened Schema
  import RequestsApi

  /** The endpoint reads `ride_requests` only and changes nothing. */
  function Handle(requests: seq<RideRequest>, m: Method, rideId: Option<Id>): (r: Response)
    ensures m == Options ==> r == Ok(Preflight)
    ensures m != Options && m != Get ==> r == MethodNotAllowed
    ensures m == Get && rideId.None? ==> r == Err(400, RequestsApi.RideIdRequired)
    ensures m == Get && rideId.Some? ==>
      && r.Ok? && r.payload.RequestList?
      && forall q :: q in r.payload.requests <==> q in requests && q.rideId == rideId.value
    ensures m == Get && rideId.Some? ==> r == Ok(RequestList(RequestsApi.RequestsForRide(requests, rideId.value)))
  {
    if m == Options then Ok(Preflight)
    else if m != Get then MethodNotAllowed
    else if rideId.None? then Err(400, RequestsApi.RideIdRequired)
    else Ok(RequestList(RequestsApi.RequestsForRide(requests, rideId.value)))
  }

  lemma SameAsCombined(db: Db, m: Method, rideId: Option<Id>)
    ensures RequestsApi.Handle(db, m, RequestsApi.GetForRide(rideId)) == Reply(Handle(db.requests, m, rideId), db)
  {
  }
}
