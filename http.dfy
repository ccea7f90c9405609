/** What the handlers receive and answer, once the JSON transport is peeled off. */
module Http {
  import opened Types

  datatype Method = Get | Post | Put | Delete | Options

  /** The JSON body of a 200 answer, one constructor per wrapper object the handlers send. */
  datatype Payload =
    | Preflight                                      // OPTIONS: empty 200
    | RequestRow(request: RideRequest)               // { request: ... }
    | RequestList(requests: seq<RideRequest>)        // { requests: [...] }
    | JoinedList(entries: seq<RequestWithRide>)      // { requests: [{ request, ride }, ...] }
    | RideRow(ride: Ride)                            // { ride: ... }
    | RideList(rides: seq<Ride>)                     // { rides: [...] }
    | UserRow(user: Option<User>)                    // { user: ... | null }
    | Success                                        // { success: true }

  /** A 200 answer with its payload, or an error status with the `error` message. */
  datatype Response = Ok(payload: Payload) | Err(code: nat, message: string)

  const MethodNotAllowed: Response := Err(405, "Method not allowed")

  /** JavaScript truthiness of an optional string field: present and not empty. */
  predicate Present(s: Option<string>) {
    s.Some? && s.value != ""
  }

  /** JavaScript truthiness of an optional numeric body field: present and not 0. */
  predicate PresentId(id: Option<nat>) {
    id.Some? && id.value != 0
  }
}
