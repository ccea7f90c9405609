/** The three tables as one state value, and the invariants stated over them. */
module Schema {
  import opened Types
  import opened Http
  import Query

  /** The database: the `users`, `rides` and `ride_requests` tables in insertion order, and the counter that
      hands out row ids and `created_at` stamps. */
  datatype Db = Db(users: seq<User>, rides: seq<Ride>, requests: seq<RideRequest>, nextId: nat)

  /** What one handler call answers and the database it leaves behind. */
  datatype Reply = Reply(response: Response, db: Db)

  /** A fresh database; the id counter starts at 1 (a modelling choice: the source shows no schema). */
  const Empty: Db := Db([], [], [], 1)

  function UserKey(u: User): int { u.id }
  function RideKey(r: Ride): int { r.id }
  function RequestKey(q: RideRequest): int { q.id }

  /** Ids are generated, never reused: in every table they increase in insertion order and lie below the counter. */
  predicate Valid(db: Db) {
    && Query.Keyed(db.users, UserKey, db.nextId)
    && Query.Keyed(db.rides, RideKey, db.nextId)
    && Query.Keyed(db.requests, RequestKey, db.nextId)
  }

  /** No ride is overbooked and none offers more seats than it has. */
  predicate SeatsBounded(rides: seq<Ride>) {
    forall i :: 0 <= i < |rides| ==> 0 <= rides[i].availableSeats <= rides[i].totalSeats
  }

  /** No ride has a negative seat counter. */
  predicate SeatsNonNegative(rides: seq<Ride>) {
    forall i :: 0 <= i < |rides| ==> 0 <= rides[i].availableSeats
  }

  predicate SamePair(a: RideRequest, b: RideRequest) {
    a.rideId == b.rideId && a.passengerId == b.passengerId
  }

  /** At most one active request per (ride, passenger) pair. */
  predicate OneActive(requests: seq<RideRequest>) {
    forall i, j :: 0 <= i < j < |requests| && SamePair(requests[i], requests[j]) ==>
      !(IsActive(requests[i].status) && IsActive(requests[j].status))
  }

  predicate UniqueEmails(users: seq<User>) {
    forall i, j :: 0 <= i < j < |users| ==> users[i].email != users[j].email
  }

  predicate UniqueErpIds(users: seq<User>) {
    forall i, j :: 0 <= i < j < |users| ==> users[i].erpId != users[j].erpId
  }

  /** In a valid database a ride id names at most one ride. */
  lemma RideIdNamesOneRide(db: Db, i: nat, j: nat)
    requires Valid(db)
    requires i < |db.rides| && j < |db.rides| && db.rides[i].id == db.rides[j].id
    ensures i == j
  {
    Query.KeyedUnique(db.rides, RideKey, db.nextId, i, j);
  }

  /** In a valid database a request id names at most one request. */
  lemma RequestIdNamesOneRequest(db: Db, i: nat, j: nat)
    requires Valid(db)
    requires i < |db.requests| && j < |db.requests| && db.requests[i].id == db.requests[j].id
    ensures i == j
  {
    Query.KeyedUnique(db.requests, RequestKey, db.nextId, i, j);
  }
}
