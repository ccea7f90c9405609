/** The database the handlers run their statements against, as one object whose tables the handlers update in
    place. Each handler method checks its guards, then performs its INSERT or UPDATE statements in the order the
    source issues them, and is proved to leave the store exactly as the transition function of its action says. */
module Ledger {
  import opened Types
  import opened Http
  import opened Schema
  import RequestsApi
  import RidesApi
  import UsersApi
  import RequestsCreate
  import RequestsUpdateStatus
  import RidesCreate

  class Store {
    var users: seq<User>
    var rides: seq<Ride>
    var requests: seq<RideRequest>
    var nextId: nat

    /** The store's tables as a value. */
    function State(): Db
      reads this
    {
      Db(users, rides, requests, nextId)
    }

    ghost predicate Valid()
      reads this
    {
      Schema.Valid(State())
    }

    /** Three empty tables; the id counter starts at 1. */
    constructor ()
      ensures State() == Empty && Valid()
    {
      users, rides, requests, nextId := [], [], [], 1;
    }

    /** Hands out the next id, which also serves as the `created_at` stamp. */
    method FreshId() returns (id: Id)
      modifies this
      ensures id == old(nextId) && nextId == old(nextId) + 1
      ensures users == old(users) && rides == old(rides) && requests == old(requests)
    {
      id := nextId;
      nextId := nextId + 1;
    }

    // ------------------------------------------------------------ ride_requests

    /** `create` on `/api/requests`: the duplicate check, then the INSERT. */
    method CreateRequest(b: RequestsApi.NewRequest) returns (r: Response)
      requires Valid()
      modifies this
      ensures Valid()
      ensures Reply(r, State()) == RequestsApi.CreateRequest(old(State()), b)
    {
      RequestsApi.CreateRequestKeepsValid(State(), b);
      var existing := RequestsApi.ExistingActive(requests, b.rideId, b.passengerId);
      if |existing| > 0 {
        return Err(400, RequestsApi.DuplicateRequest);
      }
      var id := FreshId();
      var row := RideRequest(id, b.rideId, b.passengerId, b.passengerName, b.offeredPrice, b.comment, Pending, id);
      requests := requests + [row];
      r := Ok(RequestRow(row));
    }

    /** `updateStatus` on `/api/requests`: the lookups and the seat check, then the seat UPDATE for an accept,
        then the status UPDATE. */
    method UpdateStatus(requestId: Option<Id>, status: Option<RequestStatus>) returns (r: Response)
      requires Valid()
      modifies this
      ensures Valid()
      ensures Reply(r, State()) == RequestsApi.UpdateRequestStatus(old(State()), requestId, status)
      ensures old(SeatsBounded(rides)) ==> SeatsBounded(rides)
    {
      RequestsApi.UpdateRequestStatusKeepsValid(State(), requestId, status);
      RequestsApi.UpdateRequestStatusKeepsSeatsBounded(State(), requestId, status);
      if !PresentId(requestId) || status.None? {
        return Err(400, RequestsApi.IdAndStatusRequired);
      }
      var request := RequestsApi.RequestWithId(requests, requestId.value);
      if request.None? {
        return Err(404, RequestsApi.RequestNotFound);
      }
      if status.value == Accepted {
        var ride := RequestsApi.RideWithId(rides, request.value.rideId);
        if ride.None? {
          return Err(404, RequestsApi.RideNotFound);
        }
        if ride.value.availableSeats <= 0 {
          return Err(400, RequestsApi.NoSeatsAvailable);
        }
        rides := RequestsApi.TakeSeat(rides, request.value.rideId);
      }
      requests := RequestsApi.SetStatus(requests, requestId.value, status.value);
      r := Ok(Success);
    }

    /** `/api/requests`: OPTIONS, then the action switch, then each action's method check. */
    method HandleRequests(m: Method, a: RequestsApi.Action) returns (r: Response)
      requires Valid()
      modifies this
      ensures Valid()
      ensures Reply(r, State()) == RequestsApi.Handle(old(State()), m, a)
      ensures old(SeatsBounded(rides)) ==> SeatsBounded(rides)
    {
      if m == Options {
        return Ok(Preflight);
      }
      match a
      case Create(b) =>
        if m != Post {
          return MethodNotAllowed;
        }
        r := CreateRequest(b);
      case GetForRide(rideId) =>
        if m != Get {
          return MethodNotAllowed;
        }
        if rideId.None? {
          return Err(400, RequestsApi.RideIdRequired);
        }
        r := Ok(RequestList(RequestsApi.RequestsForRide(requests, rideId.value)));
      case GetByPassenger(passengerId) =>
        if m != Get {
          return MethodNotAllowed;
        }
        if passengerId.None? {
          return Err(400, RequestsApi.PassengerIdRequired);
        }
        r := Ok(JoinedList(RequestsApi.PassengerView(requests, rides, passengerId.value)));
      case UpdateStatus(requestId, status) =>
        if m != Post {
          return MethodNotAllowed;
        }
        r := UpdateStatus(requestId, status);
      case Unknown =>
        r := Err(400, RequestsApi.InvalidAction);
    }

    /** api/requests/create.ts */
    method HandleCreateRequest(m: Method, b: RequestsApi.NewRequest) returns (r: Response)
      requires Valid()
      modifies this
      ensures Valid()
      ensures Reply(r, State()) == RequestsCreate.Handle(old(State()), m, b)
    {
      if m == Options {
        return Ok(Preflight);
      }
      if m != Post {
        return MethodNotAllowed;
      }
      r := CreateRequest(b);
    }

    /** api/requests/updateStatus.ts */
    method HandleUpdateStatus(m: Method, requestId: Option<Id>, status: Option<RequestStatus>) returns (r: Response)
      requires Valid()
      modifies this
      ensures Valid()
      ensures Reply(r, State()) == RequestsUpdateStatus.Handle(old(State()), m, requestId, status)
      ensures old(SeatsBounded(rides)) ==> SeatsBounded(rides)
    {
      if m == Options {
        return Ok(Preflight);
      }
      if m != Post {
        return MethodNotAllowed;
      }
      r := UpdateStatus(requestId, status);
    }

    // ------------------------------------------------------------ rides

    /** `create` on `/api/rides`: the INSERT, with every seat available. */
    method CreateRide(b: RidesApi.NewRide) returns (r: Response)
      requires Valid()
      modifies this
      ensures Valid()
      ensures Reply(r, State()) == RidesApi.CreateRide(old(State()), b)
      ensures old(SeatsBounded(rides)) ==> (SeatsBounded(rides) <==> b.totalSeats >= 0)
    {
      RidesApi.CreateRideKeepsValid(State(), b);
      if SeatsBounded(rides) {
        RidesApi.CreateRideSeatsBounded(State(), b);
      }
      var id := FreshId();
      var row := Ride(id, b.hostId, b.hostName, b.departureLocation, b.destinationLocation, b.departureTime,
                      b.fare, b.totalSeats, b.totalSeats, id);
      rides := rides + [row];
      r := Ok(RideRow(row));
    }

    /** `/api/rides`: OPTIONS, then the action switch, then each action's method check. */
    method HandleRides(m: Method, a: RidesApi.Action) returns (r: Response)
      requires Valid()
      modifies this
      ensures Valid()
      ensures Reply(r, State()) == RidesApi.Handle(old(State()), m, a)
      ensures old(SeatsBounded(rides)) && (a.Create? ==> a.body.totalSeats >= 0) ==> SeatsBounded(rides)
    {
      if m == Options {
        return Ok(Preflight);
      }
      match a
      case Create(b) =>
        if m != Post {
          return MethodNotAllowed;
        }
        r := CreateRide(b);
      case GetAll =>
        if m != Get {
          return MethodNotAllowed;
        }
        r := Ok(RideList(RidesApi.AllRides(rides)));
      case GetByHost(hostId) =>
        if m != Get {
          return MethodNotAllowed;
        }
        if hostId.None? {
          return Err(400, RidesApi.HostIdRequired);
        }
        r := Ok(RideList(RidesApi.RidesOfHost(rides, hostId.value)));
      case Unknown =>
        r := Err(400, RidesApi.InvalidAction);
    }

    /** api/rides/create.ts */
    method HandleCreateRide(m: Method, b: RidesApi.NewRide) returns (r: Response)
      requires Valid()
      modifies this
      ensures Valid()
      ensures Reply(r, State()) == RidesCreate.Handle(old(State()), m, b)
      ensures old(SeatsBounded(rides)) && b.totalSeats >= 0 ==> SeatsBounded(rides)
    {
      if m == Options {
        return Ok(Preflight);
      }
      if m != Post {
        return MethodNotAllowed;
      }
      r := CreateRide(b);
    }

    // ------------------------------------------------------------ users

    /** `create` on `/api/users`: the email check, the ERP id check, then the INSERT. */
    method CreateUser(b: UsersApi.NewUser) returns (r: Response)
      requires Valid()
      modifies this
      ensures Valid()
      ensures Reply(r, State()) == UsersApi.CreateUser(old(State()), b)
    {
      UsersApi.CreateUserKeepsValid(State(), b);
      if UsersApi.UserWithEmail(users, b.email).Some? {
        return Err(400, UsersApi.EmailExists);
      }
      if UsersApi.UserWithErpId(users, b.erpId).Some? {
        return Err(400, UsersApi.ErpIdExists);
      }
      var id := FreshId();
      var row := User(id, b.erpId, b.email, b.password, b.name, b.gender, b.graduatingYear, b.contactNumber,
                      b.role, b.secQuestion1, b.secAnswer1, b.secQuestion2, b.secAnswer2);
      users := users + [row];
      r := Ok(UserRow(Some(row)));
    }

    /** `updatePassword` on `/api/users`: the parameter check, then the UPDATE. */
    method UpdatePassword(userId: Option<Id>, newPassword: Option<string>) returns (r: Response)
      requires Valid()
      modifies this
      ensures Valid()
      ensures Reply(r, State()) == UsersApi.UpdateUserPassword(old(State()), userId, newPassword)
    {
      UsersApi.UpdatePasswordKeepsInvariants(State(), userId, newPassword);
      if !PresentId(userId) || !Present(newPassword) {
        return Err(400, UsersApi.IdAndPasswordRequired);
      }
      users := UsersApi.SetPassword(users, userId.value, newPassword.value);
      r := Ok(Success);
    }

    /** `/api/users`: OPTIONS, then the action switch; every action answers to POST only. */
    method HandleUsers(m: Method, a: UsersApi.Action) returns (r: Response)
      requires Valid()
      modifies this
      ensures Valid()
      ensures Reply(r, State()) == UsersApi.Handle(old(State()), m, a)
    {
      if m == Options {
        return Ok(Preflight);
      }
      match a
      case FindByEmail(email) =>
        if m != Post {
          return MethodNotAllowed;
        }
        if !Present(email) {
          return Err(400, UsersApi.EmailRequired);
        }
        r := Ok(UserRow(UsersApi.UserWithEmail(users, email.value)));
      case FindByErp(erpId) =>
        if m != Post {
          return MethodNotAllowed;
        }
        if !Present(erpId) {
          return Err(400, UsersApi.ErpIdRequired);
        }
        r := Ok(UserRow(UsersApi.UserWithErpId(users, erpId.value)));
      case Create(b) =>
        if m != Post {
          return MethodNotAllowed;
        }
        r := CreateUser(b);
      case UpdatePassword(userId, newPassword) =>
        if m != Post {
          return MethodNotAllowed;
        }
        r := UpdatePassword(userId, newPassword);
      case Unknown =>
        r := Err(400, UsersApi.InvalidAction);
    }
  }
}
