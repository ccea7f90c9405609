/** Seat accounting: a ride's free seats plus its accepted requests make up its total. `create` on rides starts a
    ride with all seats free, and an accept takes one seat as it accepts one request, so the ledger balances as
    long as no request that is already accepted is resolved again. `updateStatus` never checks the current
    status, and a second accept, or a reject after an accept, unbalances it. */
module Seats {
  import opened Types
  import opened Http
  import opened Schema
  import Query
  import RequestsApi
  import RidesApi
  import UsersApi

  /** 1 when `q` is an accepted request on the ride `rideId`, else 0. */
  function Holds(q: RideRequest, rideId: Id): nat {
    if q.rideId == rideId && q.status == Accepted then 1 else 0
  }

  /** The number of accepted requests on the ride. */
  function AcceptedOn(requests: seq<RideRequest>, rideId: Id): (n: nat)
    ensures n <= |requests|
  {
    if requests == [] then 0 else Holds(requests[0], rideId) + AcceptedOn(requests[1..], rideId)
  }

  /** Every ride's free seats and accepted requests add up to its total, and every accepted request is on a
      ride that exists. */
  predicate Balanced(db: Db) {
    && (forall i :: 0 <= i < |db.rides| ==>
          db.rides[i].availableSeats + AcceptedOn(db.requests, db.rides[i].id) == db.rides[i].totalSeats)
    && (forall q :: q in db.requests && q.status == Accepted ==> RequestsApi.RideWithId(db.rides, q.rideId).Some?)
  }

  // ---------------------------------------------------------------- counting

  lemma {:induction false} AcceptedOnAppend(requests: seq<RideRequest>, q: RideRequest, rideId: Id)
    ensures AcceptedOn(requests + [q], rideId) == AcceptedOn(requests, rideId) + Holds(q, rideId)
  {
    if requests != [] {
      assert (requests + [q])[1..] == requests[1..] + [q];
      AcceptedOnAppend(requests[1..], q, rideId);
    } else {
      assert [q][1..] == [];
    }
  }

  /** No accepted request on the ride means a count of zero. */
  lemma {:induction false} AcceptedOnNone(requests: seq<RideRequest>, rideId: Id)
    requires forall q :: q in requests ==> Holds(q, rideId) == 0
    ensures AcceptedOn(requests, rideId) == 0
  {
    if requests != [] {
      assert requests[0] in requests;
      assert forall q :: q in requests[1..] ==> q in requests;
      AcceptedOnNone(requests[1..], rideId);
    }
  }

  /** Two tables that differ in one row only have counts that differ by that row's share. */
  lemma {:induction false} AcceptedOnDiffersAt(a: seq<RideRequest>, b: seq<RideRequest>, j: nat, rideId: Id)
    requires |a| == |b| && j < |a|
    requires forall k :: 0 <= k < |a| && k != j ==> a[k] == b[k]
    ensures AcceptedOn(a, rideId) - Holds(a[j], rideId) == AcceptedOn(b, rideId) - Holds(b[j], rideId)
  {
    if j == 0 {
      assert a[1..] == b[1..];
    } else {
      AcceptedOnDiffersAt(a[1..], b[1..], j - 1, rideId);
    }
  }

  // ---------------------------------------------------------------- the operations that keep the balance

  /** In a valid database the request found by id sits at one position, and no other request has that id. */
  lemma FoundRequest(db: Db, id: Id) returns (j: nat)
    requires Valid(db) && RequestsApi.RequestWithId(db.requests, id).Some?
    ensures j < |db.requests| && db.requests[j] == RequestsApi.RequestWithId(db.requests, id).value
    ensures forall k :: 0 <= k < |db.requests| && k != j ==> db.requests[k].id != id
  {
    j :| 0 <= j < |db.requests| && db.requests[j] == RequestsApi.RequestWithId(db.requests, id).value;
  }

  /** A successful `updateStatus` rewrites the status of the one request with that id, and nothing else of the
      requests table. */
  lemma ResolvedAt(db: Db, id: Id, st: RequestStatus) returns (j: nat)
    requires Valid(db) && RequestsApi.UpdateRequestStatus(db, Some(id), Some(st)).response.Ok?
    ensures var after := RequestsApi.UpdateRequestStatus(db, Some(id), Some(st)).db.requests;
      && j < |db.requests| && |after| == |db.requests|
      && db.requests[j] == RequestsApi.RequestWithId(db.requests, id).value
      && after[j] == db.requests[j].(status := st)
      && forall k :: 0 <= k < |after| && k != j ==> after[k] == db.requests[k]
  {
    j := FoundRequest(db, id);
  }

  /** The ride counts after a successful resolve of a request that was not accepted. */
  lemma CountsAfterResolve(db: Db, id: Id, st: RequestStatus, rideId: Id)
    requires Valid(db) && RequestsApi.UpdateRequestStatus(db, Some(id), Some(st)).response.Ok?
    requires RequestsApi.RequestWithId(db.requests, id).value.status != Accepted
    ensures var q := RequestsApi.RequestWithId(db.requests, id).value;
      AcceptedOn(RequestsApi.UpdateRequestStatus(db, Some(id), Some(st)).db.requests, rideId)
      == AcceptedOn(db.requests, rideId) + (if st == Accepted && q.rideId == rideId then 1 else 0)
  {
    var j := ResolvedAt(db, id, st);
    AcceptedOnDiffersAt(db.requests, RequestsApi.UpdateRequestStatus(db, Some(id), Some(st)).db.requests, j, rideId);
  }

  /** Resolving a request that is not yet accepted keeps the balance: an accept moves one seat from free to
      taken, any other status moves none. */
  lemma UpdateStatusKeepsBalance(db: Db, requestId: Option<Id>, status: Option<RequestStatus>)
    requires Valid(db) && Balanced(db)
    requires PresentId(requestId) ==>
      forall q :: q in db.requests && q.id == requestId.value ==> q.status != Accepted
    ensures Balanced(RequestsApi.UpdateRequestStatus(db, requestId, status).db)
  {
    var out := RequestsApi.UpdateRequestStatus(db, requestId, status);
    if out.response.Ok? {
      var id, st := requestId.value, status.value;
      var q := RequestsApi.RequestWithId(db.requests, id).value;
      var after := out.db;
      forall i | 0 <= i < |after.rides|
        ensures after.rides[i].availableSeats + AcceptedOn(after.requests, after.rides[i].id)
                == after.rides[i].totalSeats
      {
        CountsAfterResolve(db, id, st, db.rides[i].id);
      }
      forall p | p in after.requests && p.status == Accepted
        ensures RequestsApi.RideWithId(after.rides, p.rideId).Some?
      {
        AcceptedRideStays(db, id, st, p);
      }
    }
  }

  /** `updateStatus` keeps every ride where it is, under its id. */
  lemma RideIdsKept(db: Db, requestId: Option<Id>, status: Option<RequestStatus>)
    ensures var after := RequestsApi.UpdateRequestStatus(db, requestId, status).db.rides;
      |after| == |db.rides| && forall i :: 0 <= i < |after| ==> after[i].id == db.rides[i].id
  {
  }

  /** After a successful resolve every accepted request is still on a ride that exists. */
  lemma AcceptedRideStays(db: Db, id: Id, st: RequestStatus, p: RideRequest)
    requires Valid(db) && Balanced(db) && RequestsApi.UpdateRequestStatus(db, Some(id), Some(st)).response.Ok?
    requires p in RequestsApi.UpdateRequestStatus(db, Some(id), Some(st)).db.requests && p.status == Accepted
    ensures RequestsApi.RideWithId(RequestsApi.UpdateRequestStatus(db, Some(id), Some(st)).db.rides, p.rideId).Some?
  {
    var after := RequestsApi.UpdateRequestStatus(db, Some(id), Some(st)).db;
    var j := ResolvedAt(db, id, st);
    var k :| 0 <= k < |after.requests| && after.requests[k] == p;
    if k != j {
      assert db.requests[k] in db.requests;
    }
    assert RequestsApi.RideWithId(db.rides, p.rideId).Some?;
    var i := RequestsApi.RideIndex(db.rides, p.rideId).value;
    RideIdsKept(db, Some(id), Some(st));
    assert after.rides[i] in after.rides;
  }

  lemma CreateRequestKeepsBalance(db: Db, b: RequestsApi.NewRequest)
    requires Balanced(db)
    ensures Balanced(RequestsApi.CreateRequest(db, b).db)
  {
    var out := RequestsApi.CreateRequest(db, b);
    if out.response.Ok? {
      var row := out.response.payload.request;
      forall i | 0 <= i < |db.rides| ensures AcceptedOn(out.db.requests, db.rides[i].id) == AcceptedOn(db.requests, db.rides[i].id) {
        AcceptedOnAppend(db.requests, row, db.rides[i].id);
      }
    }
  }

  /** A new ride starts balanced: all its seats free and, ids being fresh, no accepted request on it. */
  lemma CreateRideKeepsBalance(db: Db, b: RidesApi.NewRide)
    requires Valid(db) && Balanced(db)
    ensures Balanced(RidesApi.CreateRide(db, b).db)
  {
    var out := RidesApi.CreateRide(db, b);
    var row := out.response.payload.ride;
    forall q | q in db.requests ensures Holds(q, row.id) == 0 {
      if q.status == Accepted {
        var r := RequestsApi.RideWithId(db.rides, q.rideId).value;
        var i :| 0 <= i < |db.rides| && db.rides[i] == r;
      }
    }
    AcceptedOnNone(db.requests, row.id);
    forall q | q in out.db.requests && q.status == Accepted
      ensures RequestsApi.RideWithId(out.db.rides, q.rideId).Some?
    {
      var r := RequestsApi.RideWithId(db.rides, q.rideId).value;
      assert r in out.db.rides;
    }
  }

  /** The accounts table plays no part in the balance. */
  lemma UsersHandlerKeepsBalance(db: Db, m: Method, a: UsersApi.Action)
    requires Balanced(db)
    ensures Balanced(UsersApi.Handle(db, m, a).db)
  {
  }

  // ---------------------------------------------------------------- what breaks it

  /** One ride with two seats and one pending request on it. */
  const OnePending: Db :=
    Db([], [Ride(1, 10, "host", "City Campus", "Main Campus", 900, None, 2, 2, 1)],
       [RideRequest(2, 1, 20, "passenger", None, "", Pending, 2)], 3)

  /** Accepting the same request twice succeeds twice and takes two seats for one passenger: the first accept
      keeps the balance, the second breaks it. */
  lemma SecondAcceptUnbalances()
    ensures var first := RequestsApi.UpdateRequestStatus(OnePending, Some(2), Some(Accepted));
            var second := RequestsApi.UpdateRequestStatus(first.db, Some(2), Some(Accepted));
      && Balanced(OnePending)
      && first.response == Ok(Success) && Balanced(first.db)
      && second.response == Ok(Success) && !Balanced(second.db)
      && second.db.rides[0].availableSeats == 0
      && AcceptedOn(second.db.requests, 1) == 1
  {
    var db0 := OnePending;
    assert AcceptedOn(db0.requests, 1) == 0;
    var first := RequestsApi.UpdateRequestStatus(db0, Some(2), Some(Accepted));
    assert first.db.rides == [db0.rides[0].(availableSeats := 1)];
    assert first.db.requests == [db0.requests[0].(status := Accepted)];
    assert AcceptedOn(first.db.requests, 1) == 1 by {
      assert first.db.requests[1..] == [];
    }
    var second := RequestsApi.UpdateRequestStatus(first.db, Some(2), Some(Accepted));
    assert second.db.rides == [db0.rides[0].(availableSeats := 0)];
    assert second.db.requests == first.db.requests;
  }

  /** Rejecting an accepted request succeeds but gives no seat back. */
  lemma RejectAfterAcceptUnbalances()
    ensures var first := RequestsApi.UpdateRequestStatus(OnePending, Some(2), Some(Accepted));
            var second := RequestsApi.UpdateRequestStatus(first.db, Some(2), Some(Rejected));
      && second.response == Ok(Success) && !Balanced(second.db)
      && second.db.rides[0].availableSeats == 1
      && AcceptedOn(second.db.requests, 1) == 0
  {
    var db0 := OnePending;
    var first := RequestsApi.UpdateRequestStatus(db0, Some(2), Some(Accepted));
    assert first.db.rides == [db0.rides[0].(availableSeats := 1)];
    var second := RequestsApi.UpdateRequestStatus(first.db, Some(2), Some(Rejected));
    assert second.db.rides == first.db.rides;
    assert second.db.requests == [db0.requests[0].(status := Rejected)];
    assert AcceptedOn(second.db.requests, 1) == 0 by {
      assert second.db.requests[1..] == [];
    }
  }
}
