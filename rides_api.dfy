/** The `/api/rides` endpoint (api/rides.ts): one handler that switches on `action` over `create`, `getAll` and
    `getByHost`. The per-action endpoints under api/rides/ run the actions defined here. */
module RidesApi {
  import opened Types
  import opened Http
  import opened Schema
  import Query

  /** The decoded body of a `create` call. No field of it is validated. */
  datatype NewRide = NewRide(
    hostId: Id,
    hostName: string,
    departureLocation: string,
    destinationLocation: string,
    departureTime: int,
    fare: Option<real>,
    totalSeats: int)

  datatype Action =
    | Create(body: NewRide)
    | GetAll
    | GetByHost(hostId: Option<Id>)
    | Unknown

  const HostIdRequired := "Host ID is required"
  const InvalidAction := "Invalid action. Use: create, getAll, or getByHost"

  // ---------------------------------------------------------------- create

  /** The INSERT's row carries the six descriptive body fields and `total_seats`. */
  predicate Carries(row: Ride, b: NewRide) {
    && row.hostId == b.hostId
    && row.hostName == b.hostName
    && row.departureLocation == b.departureLocation
    && row.destinationLocation == b.destinationLocation
    && row.departureTime == b.departureTime
    && row.fare == b.fare
    && row.totalSeats == b.totalSeats
  }

  /** `create`: insert the ride with every seat available and return the inserted row. */
  function CreateRide(db: Db, b: NewRide): (out: Reply)
    ensures out.response.Ok? && out.response.payload.RideRow?
    ensures var row := out.response.payload.ride;
      && Carries(row, b)
      && row.availableSeats == row.totalSeats
      && row.id == db.nextId && row.createdAt == db.nextId
      && out.db == db.(rides := db.rides + [row], nextId := db.nextId + 1)
  {
    var row := Ride(db.nextId, b.hostId, b.hostName, b.departureLocation, b.destinationLocation, b.departureTime,
                    b.fare, b.totalSeats, b.totalSeats, db.nextId);
    Reply(Ok(RideRow(row)), db.(rides := db.rides + [row], nextId := db.nextId + 1))
  }

  lemma CreateRideKeepsValid(db: Db, b: NewRide)
    requires Valid(db)
    ensures Valid(CreateRide(db, b).db)
  {
    Query.KeyedAppend(db.rides, CreateRide(db, b).response.payload.ride, RideKey, db.nextId);
  }

  /** Since `total_seats` is not validated, the seat bound survives a `create` exactly when the new total is not
      negative. */
  lemma CreateRideSeatsBounded(db: Db, b: NewRide)
    requires SeatsBounded(db.rides)
    ensures SeatsBounded(CreateRide(db, b).db.rides) <==> b.totalSeats >= 0
  {
    var rides := CreateRide(db, b).db.rides;
    assert rides[|db.rides|].availableSeats == b.totalSeats;
  }

  // ---------------------------------------------------------------- getAll and getByHost

  function ByDeparture(r: Ride): int { r.departureTime }

  /** Sort key for `ORDER BY departure_time DESC`: ascending in the negated time. */
  function LatestFirst(r: Ride): int { 0 - r.departureTime }

  /** `SELECT * FROM rides ORDER BY departure_time ASC`: every ride, earliest departure first. */
  function AllRides(rides: seq<Ride>): (r: seq<Ride>)
    ensures multiset(r) == multiset(rides)
    ensures forall i, j :: 0 <= i < j < |r| ==> r[i].departureTime <= r[j].departureTime
  {
    Query.SortBy(rides, ByDeparture)
  }

  /** `SELECT * FROM rides WHERE host_id = $1 ORDER BY departure_time DESC`: the host's rides, latest first. */
  function RidesOfHost(rides: seq<Ride>, hostId: Id): (r: seq<Ride>)
    ensures forall ride :: ride in r <==> ride in rides && ride.hostId == hostId
    ensures forall ride :: multiset(r)[ride] == if ride.hostId == hostId then multiset(rides)[ride] else 0
    ensures forall i, j :: 0 <= i < j < |r| ==> r[i].departureTime >= r[j].departureTime
  {
    Query.SelectCounts(rides, (ride: Ride) => ride.hostId == hostId);
    Query.SortBy(Query.Select(rides, (ride: Ride) => ride.hostId == hostId), LatestFirst)
  }

  /** A ride just created is listed by `getAll` and by `getByHost` for its host. */
  lemma CreatedRideIsListed(db: Db, b: NewRide)
    ensures var out := CreateRide(db, b);
      && out.response.payload.ride in AllRides(out.db.rides)
      && out.response.payload.ride in RidesOfHost(out.db.rides, b.hostId)
  {
    var out := CreateRide(db, b);
    var row := out.response.payload.ride;
    assert row in out.db.rides;
    assert row in multiset(AllRides(out.db.rides));
  }

  // ---------------------------------------------------------------- the handler

  function Verb(a: Action): Method {
    if a.Create? then Post else Get
  }

  /** The whole handler: OPTIONS first, then the action, then each action's method check. */
  function Handle(db: Db, m: Method, a: Action): (out: Reply)
    ensures m == Options ==> out == Reply(Ok(Preflight), db)
    ensures m != Options && a.Unknown? ==> out == Reply(Err(400, InvalidAction), db)
    ensures m != Options && !a.Unknown? && m != Verb(a) ==> out == Reply(MethodNotAllowed, db)
    ensures !(m == Post && a.Create?) ==> out.db == db
    ensures m == Post && a.Create? ==> out == CreateRide(db, a.body)
    ensures m == Get && a.GetAll? ==> out == Reply(Ok(RideList(AllRides(db.rides))), db)
    ensures m == Get && a.GetByHost? && a.hostId.None? ==> out == Reply(Err(400, HostIdRequired), db)
    ensures m == Get && a.GetByHost? && a.hostId.Some? ==>
      out == Reply(Ok(RideList(RidesOfHost(db.rides, a.hostId.value))), db)
  {
    if m == Options then Reply(Ok(Preflight), db)
    else match a
      case Create(b) =>
        if m != Post then Reply(MethodNotAllowed, db)
        else CreateRide(db, b)
      case GetAll =>
        if m != Get then Reply(MethodNotAllowed, db)
        else Reply(Ok(RideList(AllRides(db.rides))), db)
      case GetByHost(hostId) =>
        if m != Get then Reply(MethodNotAllowed, db)
        else if hostId.None? then Reply(Err(400, HostIdRequired), db)
        else Reply(Ok(RideList(RidesOfHost(db.rides, hostId.value))), db)
      case Unknown => Reply(Err(400, InvalidAction), db)
  }
}
