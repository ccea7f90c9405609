/** The `/api/users` endpoint (api/users.ts): one handler that switches on `action` over `findByEmail`,
    `findByERP`, `create` and `updatePassword`, all of them POST. */
module UsersApi {
  import opened Types
  import opened Http
  import opened Schema
  import Query

  /** The decoded body of a `create` call: the twelve columns the INSERT writes. */
  datatype NewUser = NewUser(
    erpId: string,
    email: string,
    password: string,
    name: string,
    gender: string,
    graduatingYear: int,
    contactNumber: string,
    role: UserRole,
    secQuestion1: string,
    secAnswer1: string,
    secQuestion2: string,
    secAnswer2: string)

  datatype Action =
    | FindByEmail(email: Option<string>)
    | FindByErp(erpId: Option<string>)
    | Create(body: NewUser)
    | UpdatePassword(userId: Option<Id>, newPassword: Option<string>)
    | Unknown

  const EmailRequired := "Email is required"
  const ErpIdRequired := "ERP ID is required"
  const EmailExists := "Email already exists"
  const ErpIdExists := "ERP ID already exists"
  const IdAndPasswordRequired := "User ID and new password are required"
  const InvalidAction := "Invalid action"

  // ---------------------------------------------------------------- findByEmail and findByERP

  predicate EmailTaken(users: seq<User>, email: string) {
    exists k :: 0 <= k < |users| && users[k].email == email
  }

  predicate ErpIdTaken(users: seq<User>, erpId: string) {
    exists k :: 0 <= k < |users| && users[k].erpId == erpId
  }

  /** `rows[0]` of `SELECT * FROM users WHERE email = $1`, or null: the first user with that email. */
  function UserWithEmail(users: seq<User>, email: string): (r: Option<User>)
    ensures r.None? <==> !EmailTaken(users, email)
    ensures r.Some? ==> exists k :: 0 <= k < |users| && users[k] == r.value && r.value.email == email &&
                                    forall j :: 0 <= j < k ==> users[j].email != email
  {
    match Query.First(users, (u: User) => u.email == email)
    case None => None
    case Some(k) => Some(users[k])
  }

  /** `rows[0]` of `SELECT * FROM users WHERE erp_id = $1`, or null: the first user with that ERP id. */
  function UserWithErpId(users: seq<User>, erpId: string): (r: Option<User>)
    ensures r.None? <==> !ErpIdTaken(users, erpId)
    ensures r.Some? ==> exists k :: 0 <= k < |users| && users[k] == r.value && r.value.erpId == erpId &&
                                    forall j :: 0 <= j < k ==> users[j].erpId != erpId
  {
    match Query.First(users, (u: User) => u.erpId == erpId)
    case None => None
    case Some(k) => Some(users[k])
  }

  // ---------------------------------------------------------------- create

  /** The INSERT's row carries the twelve body fields. */
  predicate Carries(row: User, b: NewUser) {
    && row.erpId == b.erpId && row.email == b.email && row.password == b.password
    && row.name == b.name && row.gender == b.gender && row.graduatingYear == b.graduatingYear
    && row.contactNumber == b.contactNumber && row.role == b.role
    && row.secQuestion1 == b.secQuestion1 && row.secAnswer1 == b.secAnswer1
    && row.secQuestion2 == b.secQuestion2 && row.secAnswer2 == b.secAnswer2
  }

  /** `create`: refuse a taken email, then a taken ERP id, otherwise insert the account and return it. */
  function CreateUser(db: Db, b: NewUser): (out: Reply)
    ensures out.response == Err(400, EmailExists) <==> EmailTaken(db.users, b.email)
    ensures out.response == Err(400, ErpIdExists) <==> !EmailTaken(db.users, b.email) && ErpIdTaken(db.users, b.erpId)
    ensures out.response.Ok? <==> !EmailTaken(db.users, b.email) && !ErpIdTaken(db.users, b.erpId)
    ensures out.response.Err? ==> out.db == db
    ensures out.response.Ok? ==>
      && out.response.payload.UserRow? && out.response.payload.user.Some?
      && (var row := out.response.payload.user.value;
          && Carries(row, b) && row.id == db.nextId
          && out.db == db.(users := db.users + [row], nextId := db.nextId + 1))
  {
    if UserWithEmail(db.users, b.email).Some? then Reply(Err(400, EmailExists), db)
    else if UserWithErpId(db.users, b.erpId).Some? then Reply(Err(400, ErpIdExists), db)
    else
      var row := User(db.nextId, b.erpId, b.email, b.password, b.name, b.gender, b.graduatingYear, b.contactNumber,
                      b.role, b.secQuestion1, b.secAnswer1, b.secQuestion2, b.secAnswer2);
      Reply(Ok(UserRow(Some(row))), db.(users := db.users + [row], nextId := db.nextId + 1))
  }

  lemma CreateUserKeepsValid(db: Db, b: NewUser)
    requires Valid(db)
    ensures Valid(CreateUser(db, b).db)
  {
    var out := CreateUser(db, b);
    if out.response.Ok? {
      Query.KeyedAppend(db.users, out.response.payload.user.value, UserKey, db.nextId);
    }
  }

  /** The two checks keep emails and ERP ids unique across accounts. */
  lemma CreateUserKeepsUnique(db: Db, b: NewUser)
    requires UniqueEmails(db.users) && UniqueErpIds(db.users)
    ensures UniqueEmails(CreateUser(db, b).db.users) && UniqueErpIds(CreateUser(db, b).db.users)
  {
    var out := CreateUser(db, b);
    if out.response.Ok? {
      var us := out.db.users;
      var n := |db.users|;
      forall i, j | 0 <= i < j < |us| ensures us[i].email != us[j].email && us[i].erpId != us[j].erpId {
        if j == n {
          assert us[i] == db.users[i];
        }
      }
    }
  }

  /** An account just created is what `findByEmail` and `findByERP` return for its email and ERP id. */
  lemma CreatedUserIsFound(db: Db, b: NewUser)
    requires CreateUser(db, b).response.Ok?
    ensures var out := CreateUser(db, b);
      && UserWithEmail(out.db.users, b.email) == out.response.payload.user
      && UserWithErpId(out.db.users, b.erpId) == out.response.payload.user
  {
    var out := CreateUser(db, b);
    var us := out.db.users;
    var n := |db.users|;
    assert us[n].email == b.email && us[n].erpId == b.erpId;
    assert EmailTaken(us, b.email) && ErpIdTaken(us, b.erpId);
  }

  // ---------------------------------------------------------------- updatePassword

  /** `UPDATE users SET password = $1 WHERE id = $2`. */
  function SetPassword(users: seq<User>, id: Id, password: string): (r: seq<User>)
    ensures |r| == |users|
    ensures forall k :: 0 <= k < |users| ==>
      r[k] == if users[k].id == id then users[k].(password := password) else users[k]
  {
    Query.UpdateWhere(users, (u: User) => u.id == id, (u: User) => u.(password := password))
  }

  /** `updatePassword`: with both parameters given, overwrite the password of the account with that id. */
  function UpdateUserPassword(db: Db, userId: Option<Id>, newPassword: Option<string>): (out: Reply)
    ensures !(PresentId(userId) && Present(newPassword)) ==> out == Reply(Err(400, IdAndPasswordRequired), db)
    ensures PresentId(userId) && Present(newPassword) ==>
      && out.response == Ok(Success)
      && out.db == db.(users := SetPassword(db.users, userId.value, newPassword.value))
  {
    if !PresentId(userId) || !Present(newPassword) then Reply(Err(400, IdAndPasswordRequired), db)
    else Reply(Ok(Success), db.(users := SetPassword(db.users, userId.value, newPassword.value)))
  }

  /** Success is reported even when no account has the id; then nothing changes. */
  lemma UpdatePasswordOfNobody(db: Db, userId: Id, newPassword: string)
    requires userId != 0 && newPassword != ""
    requires forall u :: u in db.users ==> u.id != userId
    ensures UpdateUserPassword(db, Some(userId), Some(newPassword)) == Reply(Ok(Success), db)
  {
    var after := SetPassword(db.users, userId, newPassword);
    forall k | 0 <= k < |db.users| ensures after[k] == db.users[k] {
      assert db.users[k] in db.users;
    }
    assert after == db.users;
  }

  /** Only the password changes: ids, emails and ERP ids stay, so validity and both uniqueness rules survive. */
  lemma UpdatePasswordKeepsInvariants(db: Db, userId: Option<Id>, newPassword: Option<string>)
    ensures var after := UpdateUserPassword(db, userId, newPassword).db;
      && (Valid(db) ==> Valid(after))
      && (UniqueEmails(db.users) ==> UniqueEmails(after.users))
      && (UniqueErpIds(db.users) ==> UniqueErpIds(after.users))
  {
    if PresentId(userId) && Present(newPassword) {
      var id, pw := userId.value, newPassword.value;
      if Valid(db) {
        Query.KeyedUpdate(db.users, (u: User) => u.id == id, (u: User) => u.(password := pw), UserKey, db.nextId);
      }
    }
  }

  // ---------------------------------------------------------------- the handler

  /** The whole handler: OPTIONS first, then the action; every action answers to POST only. */
  function Handle(db: Db, m: Method, a: Action): (out: Reply)
    ensures m == Options ==> out == Reply(Ok(Preflight), db)
    ensures m != Options && a.Unknown? ==> out == Reply(Err(400, InvalidAction), db)
    ensures m != Options && m != Post && !a.Unknown? ==> out == Reply(MethodNotAllowed, db)
    ensures !(m == Post && (a.Create? || a.UpdatePassword?)) ==> out.db == db
    ensures m == Post && a.Create? ==> out == CreateUser(db, a.body)
    ensures m == Post && a.UpdatePassword? ==> out == UpdateUserPassword(db, a.userId, a.newPassword)
    ensures m == Post && a.FindByEmail? && Present(a.email) ==>
      out == Reply(Ok(UserRow(UserWithEmail(db.users, a.email.value))), db)
    ensures m == Post && a.FindByEmail? && !Present(a.email) ==> out == Reply(Err(400, EmailRequired), db)
    ensures m == Post && a.FindByErp? && !Present(a.erpId) ==> out == Reply(Err(400, ErpIdRequired), db)
    ensures m == Post && a.FindByErp? && Present(a.erpId) ==>
      && out.response.Ok? && out.response.payload.UserRow?
      && (out.response.payload.user.None? <==> !ErpIdTaken(db.users, a.erpId.value))
      && (out.response.payload.user.Some? ==>
            out.response.payload.user.value in db.users && out.response.payload.user.value.erpId == a.erpId.value)
  {
    if m == Options then Reply(Ok(Preflight), db)
    else match a
      case FindByEmail(email) =>
        if m != Post then Reply(MethodNotAllowed, db)
        else if !Present(email) then Reply(Err(400, EmailRequired), db)
        else Reply(Ok(UserRow(UserWithEmail(db.users, email.value))), db)
      case FindByErp(erpId) =>
        if m != Post then Reply(MethodNotAllowed, db)
        else if !Present(erpId) then Reply(Err(400, ErpIdRequired), db)
        else Reply(Ok(UserRow(UserWithErpId(db.users, erpId.value))), db)
      case Create(b) =>
        if m != Post then Reply(MethodNotAllowed, db)
        else CreateUser(db, b)
      case UpdatePassword(userId, newPassword) =>
        if m != Post then Reply(MethodNotAllowed, db)
        else UpdateUserPassword(db, userId, newPassword)
      case Unknown => Reply(Err(400, InvalidAction), db)
  }
}
