/** The row shapes of the three tables and the two enumerations, as declared in types.ts. */
module Types {

  /** Row identifiers. The database generates them; here they come from the store's counter. */
  type Id = nat

  /** A value that may be absent: SQL NULL, a missing JSON field, or "no row found". */
  datatype Option<+T> = None | Some(value: T)

  datatype UserRole = Student | Admin

  datatype RequestStatus = Pending | Accepted | Rejected | Cancelled

  /** The statuses the duplicate-request check looks for: a request in one of them holds or claims a seat. */
  predicate IsActive(s: RequestStatus) {
    s == Pending || s == Accepted
  }

  /** The string literal each role is stored and sent as. */
  function RoleName(role: UserRole): string {
    match role
    case Student => "student"
    case Admin => "admin"
  }

  /** Reading a role back from its string; any other string is not a role. TypeScript erases these types at run time and the handlers never parse them; this
      documents the literal union of types.ts. */
  function ParseRole(t: string): (r: Option<UserRole>)
    ensures r.Some? ==> RoleName(r.value) == t
    ensures r.None? ==> t != "student" && t != "admin"
  {
    if t == "student" then Some(Student)
    else if t == "admin" then Some(Admin)
    else None
  }

  /** The string literal each status is stored and sent as. */
  function StatusName(s: RequestStatus): string {
    match s
    case Pending => "pending"
    case Accepted => "accepted"
    case Rejected => "rejected"
    case Cancelled => "cancelled"
  }

  /** Reading a status back from its string; exactly four strings are statuses. TypeScript erases these types at run time and the handlers never parse them; this
      documents the literal union of types.ts. */
  function ParseStatus(t: string): (r: Option<RequestStatus>)
    ensures r.Some? ==> StatusName(r.value) == t
    ensures r.None? <==> t !in ["pending", "accepted", "rejected", "cancelled"]
  {
    if t == "pending" then Some(Pending)
    else if t == "accepted" then Some(Accepted)
    else if t == "rejected" then Some(Rejected)
    else if t == "cancelled" then Some(Cancelled)
    else None
  }

  /** Every status survives the trip to its string and back, and no two statuses share a string: the four
      literals of the union are distinct. Documentation of types.ts only. */
  lemma StatusNamesRoundTrip(s: RequestStatus, t: RequestStatus)
    ensures ParseStatus(StatusName(s)) == Some(s)
    ensures StatusName(s) == StatusName(t) ==> s == t
  {
  }

  /** Every role survives the trip to its string and back. Documentation of types.ts only. */
  lemma RoleNamesRoundTrip(role: UserRole)
    ensures ParseRole(RoleName(role)) == Some(role)
  {
  }

  /** A row of `users`. The password is stored as given (no hashing). */
  datatype User = User(
    id: Id,
    erpId: string,
    email: string,
    password: string,
    name: string,
    gender: string,
    graduatingYear: int,
    contactNumber: string,
    role: UserRole,
    secQuestion1: string,
    secAnswer1: string,
    secQuestion2: string,
    secAnswer2: string)

  /** A row of `rides`. `departureTime` is the ordered key the ISO timestamp stands for; `fare` may be NULL. */
  datatype Ride = Ride(
    id: Id,
    hostId: Id,
    hostName: string,
    departureLocation: string,
    destinationLocation: string,
    departureTime: int,
    fare: Option<real>,
    totalSeats: int,
    availableSeats: int,
    createdAt: nat)

  /** A row of `ride_requests`: a passenger's bid for a seat on a ride. `offeredPrice` may be NULL. */
  datatype RideRequest = RideRequest(
    id: Id,
    rideId: Id,
    passengerId: Id,
    passengerName: string,
    offeredPrice: Option<real>,
    comment: string,
    status: RequestStatus,
    createdAt: nat)

  /** One entry of the passenger view: a request with the ride it refers to. */
  datatype RequestWithRide = RequestWithRide(request: RideRequest, ride: Ride)
}
