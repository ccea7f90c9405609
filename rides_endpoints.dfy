/** The single-action endpoints under api/rides/. Each checks its one HTTP method first and then runs the
    corresponding action of the combined `/api/rides` handler. */

/** api/rides/create.ts */
module RidesCreate {
  import opened Types
  import opened Http
  import opened Schema
  import RidesApi

  function Handle(db: Db, m: Method, b: RidesApi.NewRide): (out: Reply)
    ensures m == Options ==> out == Reply(Ok(Preflight), db)
    ensures m != Options && m != Post ==> out == Reply(MethodNotAllowed, db)
    ensures m == Post ==>
      && out.response.Ok? && out.response.payload.RideRow?
      && out.response.payload.ride.availableSeats == b.totalSeats
      && out.db.rides == db.rides + [out.response.payload.ride]
    ensures m == Post ==> out == RidesApi.CreateRide(db, b)
  {
    if m == Options then Reply(Ok(Preflight), db)
    else if m != Post then Reply(MethodNotAllowed, db)
    else RidesApi.CreateRide(db, b)
  }

  lemma SameAsCombined(db: Db, m: Method, b: RidesApi.NewRide)
    ensures Handle(db, m, b) == RidesApi.Handle(db, m, RidesApi.Create(b))
  {
  }
}

/** api/rides/getByHost.ts */
module RidesGetByHost {
  import opened Types
  import opened Http
  import opened Schema
  import RidesApi

  /** The endpoint reads `rides` only and changes nothing. */
  function Handle(rides: seq<Ride>, m: Method, hostId: Option<Id>): (r: Response)
    ensures m == Options ==> r == Ok(Preflight)
    ensures m != Options && m != Get ==> r == MethodNotAllowed
    ensures m == Get && hostId.None? ==> r == Err(400, RidesApi.HostIdRequired)
    ensures m == Get && hostId.Some? ==>
      && r.Ok? && r.payload.RideList?
      && (forall ride :: ride in r.payload.rides <==> ride in rides && ride.hostId == hostId.value)
      && (forall i, j :: 0 <= i < j < |r.payload.rides| ==>
            r.payload.rides[i].departureTime >= r.payload.rides[j].departureTime)
    ensures m == Get && hostId.Some? ==> r == Ok(RideList(RidesApi.RidesOfHost(rides, hostId.value)))
  {
    if m == Options then Ok(Preflight)
    else if m != Get then MethodNotAllowed
    else if hostId.None? then Err(400, RidesApi.HostIdRequired)
    else Ok(RideList(RidesApi.RidesOfHost(rides, hostId.value)))
  }

  lemma SameAsCombined(db: Db, m: Method, hostId: Option<Id>)
    ensures RidesApi.Handle(db, m, RidesApi.GetByHost(hostId)) == Reply(Handle(db.rides, m, hostId), db)
  {
  }
}
