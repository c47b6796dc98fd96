// backend/src/services/userService.ts over the users table of
// backend/src/database/db/usersScheme.ts. A row is a map from column name to
// value, so the object spreads of the service and of its controller are map
// unions: in `a + b` the keys of `b` win, as in `{...a, ...b}`. bcrypt's hash
// and compare are parameters.
module UserService {
  import opened Common
  import opened Rows
  import opened Valibot

  type UserId = string

  /** A row, a request body, or a record built from them. */
  type Row = map<string, Json>

  /** The columns of users; the store drops every other key of a record. */
  const Columns: set<string> :=
    {"user_id", "name", "lastname", "email", "password", "role_user", "is_active",
     "last_login", "created_at", "updated_at"}

  /** The columns declared notNull (all but last_login). */
  const NotNull: set<string> :=
    {"user_id", "name", "lastname", "email", "password", "role_user", "is_active",
     "created_at", "updated_at"}

  const EmailReadError := "Failed to get user by email"
  const RegisterError := "Failed to register a new user"
  const LoginError := "Failed to login"
  const ProfileReadError := "Failed to get user profile"
  const UpdateError := "Failed to update user"

  /** A key's value, or null when the record has no such key. */
  function Field(r: Row, k: string): Json
  {
    if k in r then r[k] else JNull
  }

  function UserIdOf(r: Row): Json
  {
    Field(r, "user_id")
  }

  function EmailOf(r: Row): Json
  {
    Field(r, "email")
  }

  /** `where eq(users.email, email)`: a null never compares equal in SQL. */
  function HasEmail(email: Json): Row -> bool
  {
    (r: Row) => email != JNull && EmailOf(r) == email
  }

  function HasUserId(userId: UserId): Row -> bool
  {
    (r: Row) => UserIdOf(r) == JStr(userId)
  }

  /** The keys of a record that name columns. */
  function Stored(r: Row): (s: Row)
    ensures s.Keys == r.Keys * Columns
    ensures forall k :: k in s ==> s[k] == r[k]
  {
    map k | k in r && k in Columns :: r[k]
  }

  /** A row with a non-null value in every notNull column. */
  predicate Filled(r: Row)
  {
    forall k :: k in NotNull ==> k in r && r[k] != JNull
  }

  /** The table's constraints: notNull columns, the user_id primary key and
      the unique email. */
  predicate Consistent(users: seq<Row>)
  {
    && (forall i :: 0 <= i < |users| ==> Filled(users[i]))
    && KeysUnique(users, UserIdOf)
    && KeysUnique(users, EmailOf)
  }

  /** The column defaults; `now` stands for CURRENT_TIMESTAMP. */
  function Defaults(now: string): Row
  {
    map["role_user" := JStr("Customer"), "is_active" := JBool(true), "last_login" := JNull,
        "created_at" := JStr(now), "updated_at" := JStr(now)]
  }

  /** getUserByEmail: the first row with the email, or none; 400 when the
      read fails. */
  function GetUserByEmail(users: seq<Row>, email: Json, readFails: bool): (r: Result<Option<Row>>)
    ensures r.Err? <==> readFails
    ensures r.Err? ==> r.error == AppError(400, EmailReadError)
    ensures r.Ok? && r.value.Some? ==> r.value.value in users && email != JNull && EmailOf(r.value.value) == email
    ensures r.Ok? ==> (r.value.None? <==> email == JNull || forall u :: u in users ==> EmailOf(u) != email)
  {
    if readFails then Err(AppError(400, EmailReadError))
    else
      match FirstIndex(users, HasEmail(email))
      case None => Ok(None)
      case Some(i) => Ok(Some(users[i]))
  }

  /** getUserById: the row with the id, or none; 400 when the read fails. */
  function GetUserById(users: seq<Row>, userId: UserId, readFails: bool): (r: Result<Option<Row>>)
    ensures r.Err? <==> readFails
    ensures r.Err? ==> r.error == AppError(400, ProfileReadError)
    ensures r.Ok? && r.value.Some? ==> r.value.value in users && UserIdOf(r.value.value) == JStr(userId)
    ensures r.Ok? ==> (r.value.None? <==> forall u :: u in users ==> UserIdOf(u) != JStr(userId))
  {
    if readFails then Err(AppError(400, ProfileReadError))
    else
      match FirstIndex(users, HasUserId(userId))
      case None => Ok(None)
      case Some(i) => Ok(Some(users[i]))
  }

  /** The row registerUser inserts: the record with a fresh id and the hashed
      password, cut down to the columns, over the column defaults. */
  function Inserted(dataUser: Row, newId: UserId, hashed: string, now: string): Row
  {
    Defaults(now) + Stored(dataUser + map["user_id" := JStr(newId), "password" := JStr(hashed)])
  }

  /** registerUser. A password that is not a string makes the hash throw; a
      write that breaks a constraint of the table, or fails, is refused; each
      is the same 400. */
  function InsertUser(
    users: seq<Row>, dataUser: Row, newId: UserId, hash: string -> string, now: string, writeFails: bool)
    : (o: (Result<Row>, seq<Row>))
    ensures o.0.Err? ==> o.0.error == AppError(400, RegisterError) && o.1 == users
    ensures o.0.Ok? ==> !writeFails && o.1 == users + [o.0.value] && Consistent(o.1)
  {
    if !("password" in dataUser && dataUser["password"].JStr?) then (Err(AppError(400, RegisterError)), users)
    else
      var row := Inserted(dataUser, newId, hash(dataUser["password"].s), now);
      if writeFails || !Consistent(users + [row]) then (Err(AppError(400, RegisterError)), users)
      else (Ok(row), users + [row])
  }

  /** The columns updateUser sets: the record with its password hashed again. */
  function UpdateSet(user: Row, hashed: string): Row
  {
    Stored(user + map["password" := JStr(hashed)])
  }

  function ApplySet(changes: Row): Row -> Row
  {
    (r: Row) => r + changes
  }

  /** updateUser: every row with the id gets the set columns; the first of
      them, as it is after the update, is returned. The password is hashed
      whatever it holds. */
  function UpdateRows(users: seq<Row>, user: Row, userId: UserId, hash: string -> string, writeFails: bool)
    : (o: (Result<Option<Row>>, seq<Row>))
    ensures o.0.Err? ==> o.0.error == AppError(400, UpdateError) && o.1 == users
    ensures o.0.Ok? ==> !writeFails && |o.1| == |users| && Consistent(o.1)
    ensures o.0.Ok? && o.0.value.Some? ==> o.0.value.value in o.1
  {
    if !("password" in user && user["password"].JStr?) then (Err(AppError(400, UpdateError)), users)
    else
      var rows := UpdateWhere(users, HasUserId(userId), ApplySet(UpdateSet(user, hash(user["password"].s))));
      if writeFails || !Consistent(rows) then (Err(AppError(400, UpdateError)), users)
      else
        match FirstIndex(users, HasUserId(userId))
        case None => (Ok(None), rows)
        case Some(i) => (Ok(Some(rows[i])), rows)
  }

  /** The claims loginUser puts in the token's user. */
  function TokenUser(existing: Row): (u: Row)
    ensures u.Keys == {"email", "user_id", "role_user"}
  {
    map["email" := Field(existing, "email"), "user_id" := Field(existing, "user_id"),
        "role_user" := Field(existing, "role_user")]
  }

  /** loginUser: the token's user when the password matches the stored hash
      and the token is signed; a mismatch, anything compare throws on, and a
      signing failure are the same 400. */
  function LoginUser(existing: Row, password: Json, compare: (string, string) -> bool, signFails: bool): (r: Result<Row>)
    ensures r.Ok? <==>
      && password.JStr? && "password" in existing && existing["password"].JStr?
      && compare(password.s, existing["password"].s)
      && !signFails
    ensures r.Ok? ==> r.value == TokenUser(existing)
    ensures r.Err? ==> r.error == AppError(400, LoginError)
  {
    if password.JStr? && "password" in existing && existing["password"].JStr?
       && compare(password.s, existing["password"].s) && !signFails
    then Ok(TokenUser(existing))
    else Err(AppError(400, LoginError))
  }

  /** The row a registration inserts: the fresh id, the hashed password, every
      other column the record names, and the default of every column it does
      not; no key that is not a column. */
  lemma InsertedRow(dataUser: Row, newId: UserId, hashed: string, now: string)
    ensures var row := Inserted(dataUser, newId, hashed, now);
      && row.Keys <= Columns
      && row["user_id"] == JStr(newId)
      && row["password"] == JStr(hashed)
      && (forall k :: k in Columns && k in dataUser && k != "user_id" && k != "password" ==> row[k] == dataUser[k])
      && (forall k :: k in Defaults(now) && k !in dataUser ==> row[k] == Defaults(now)[k])
  {
  }

  /** A successful registration keeps the constraints and adds one row, which
      the lookup by its email then finds; a failed one changes nothing. */
  lemma {:induction false} InsertThenFindByEmail(
    users: seq<Row>, dataUser: Row, newId: UserId, hash: string -> string, now: string, writeFails: bool)
    requires Consistent(users)
    ensures var (r, after) := InsertUser(users, dataUser, newId, hash, now, writeFails);
      && Consistent(after)
      && (r.Err? ==> r.error == AppError(400, RegisterError) && after == users)
      && (r.Ok? ==>
            && after == users + [r.value]
            && GetUserByEmail(after, EmailOf(r.value), false) == Ok(Some(r.value))
            && GetUserById(after, newId, false) == Ok(Some(r.value)))
  {
    var (r, after) := InsertUser(users, dataUser, newId, hash, now, writeFails);
    if r.Ok? {
      var row := r.value;
      var n := |users|;
      assert after[n] == row;
      assert Filled(after[n]);
      assert EmailOf(row) != JNull;
      forall j | 0 <= j < n
        ensures !HasEmail(EmailOf(row))(after[j]) && !HasUserId(newId)(after[j])
      {
        assert after[j] == users[j];
        assert EmailOf(after[j]) != EmailOf(after[n]);
        assert UserIdOf(after[j]) != UserIdOf(after[n]);
      }
      assert FirstIndex(after, HasEmail(EmailOf(row))) == Some(n);
      assert FirstIndex(after, HasUserId(newId)) == Some(n);
    }
  }

  /** An update that goes through keeps the constraints, keeps the order and
      every row with another id, and gives the rows with the id the set
      columns over their old values; the password column becomes the hash of
      whatever the record held there. A failed one changes nothing. */
  lemma UpdateFrame(users: seq<Row>, user: Row, userId: UserId, hash: string -> string, writeFails: bool)
    requires Consistent(users)
    ensures var (r, after) := UpdateRows(users, user, userId, hash, writeFails);
      && Consistent(after)
      && (r.Err? ==> r.error == AppError(400, UpdateError) && after == users)
      && (r.Ok? ==>
            && "password" in user && user["password"].JStr?
            && |after| == |users|
            && (forall i :: 0 <= i < |users| && UserIdOf(users[i]) != JStr(userId) ==> after[i] == users[i])
            && (forall i :: 0 <= i < |users| && UserIdOf(users[i]) == JStr(userId) ==>
                  && after[i] == users[i] + UpdateSet(user, hash(user["password"].s))
                  && after[i]["password"] == JStr(hash(user["password"].s))))
  {
    var (r, after) := UpdateRows(users, user, userId, hash, writeFails);
    if r.Ok? {
      var changes := UpdateSet(user, hash(user["password"].s));
      assert after == UpdateWhere(users, HasUserId(userId), ApplySet(changes));
      assert changes["password"] == JStr(hash(user["password"].s));
    }
  }

  /** The users table as an object whose two writes change it in place. */
  class UserStore {
    var users: seq<Row>

    ghost predicate Valid()
      reads this
    {
      Consistent(users)
    }

    constructor(users0: seq<Row>)
      requires Consistent(users0)
      ensures Valid() && users == users0
    {
      users := users0;
    }

    /** registerUser */
    method RegisterUser(dataUser: Row, newId: UserId, hash: string -> string, now: string, writeFails: bool)
      returns (r: Result<Row>)
      requires Valid()
      modifies this
      ensures Valid()
      ensures (r, users) == InsertUser(old(users), dataUser, newId, hash, now, writeFails)
    {
      if !("password" in dataUser && dataUser["password"].JStr?) {
        r := Err(AppError(400, RegisterError));
        return;
      }
      var row := Inserted(dataUser, newId, hash(dataUser["password"].s), now);
      if writeFails || !Consistent(users + [row]) {
        r := Err(AppError(400, RegisterError));
        return;
      }
      users := users + [row];
      r := Ok(row);
    }

    /** updateUser */
    method UpdateUser(user: Row, userId: UserId, hash: string -> string, writeFails: bool)
      returns (r: Result<Option<Row>>)
      requires Valid()
      modifies this
      ensures Valid()
      ensures (r, users) == UpdateRows(old(users), user, userId, hash, writeFails)
    {
      if !("password" in user && user["password"].JStr?) {
        r := Err(AppError(400, UpdateError));
        return;
      }
      var rows := UpdateWhere(users, HasUserId(userId), ApplySet(UpdateSet(user, hash(user["password"].s))));
      if writeFails || !Consistent(rows) {
        r := Err(AppError(400, UpdateError));
        return;
      }
      var i := FirstIndex(users, HasUserId(userId));
      users := rows;
      r := Ok(if i.Some? then Some(rows[i.value]) else None);
    }
  }
}
