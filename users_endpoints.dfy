/** api/users/findByEmail.ts: the single-action lookup endpoint. It checks for POST first and then runs the
    `findByEmail` action of the combined `/api/users` handler. */
module UsersFindByEmail {
  import opened Types
  import opened Http
  import opened Schema
  import UsersApi

  /** The endpoint reads `users` only and changes nothing. */
  function Handle(users: seq<User>, m: Method, email: Option<string>): (r: Response)
    ensures m == Options ==> r == Ok(Preflight)
    ensures m != Options && m != Post ==> r == MethodNotAllowed
    ensures m == Post && !Present(email) ==> r == Err(400, UsersApi.EmailRequired)
    ensures m == Post && Present(email) ==>
      && r.Ok? && r.payload.UserRow?
      && (r.payload.user.None? <==> !UsersApi.EmailTaken(users, email.value))
      && (r.payload.user.Some? ==> r.payload.user.value in users && r.payload.user.value.email == email.value)
    ensures m == Post && Present(email) ==> r == Ok(UserRow(UsersApi.UserWithEmail(users, email.value)))
  {
    if m == Options then Ok(Preflight)
    else if m != Post then MethodNotAllowed
    else if !Present(email) then Err(400, UsersApi.EmailRequired)
    else Ok(UserRow(UsersApi.UserWithEmail(users, email.value)))
  }

  lemma SameAsCombined(db: Db, m: Method, email: Option<string>)
    ensures UsersApi.Handle(db, m, UsersApi.FindByEmail(email)) == Reply(Handle(db.users, m, email), db)
  {
  }
}
