// backend/src/controllers/userController.ts: registration, login, the profile
// lookup and the profile update, in front of the users store. Request bodies
// and records are maps (see UserService), so the handlers' object spreads are
// map unions.
module UserController {
  import opened Common
  import opened Valibot
  import opened Rows
  import opened UserService

  /** config.adminToken: backend/src/config.ts defines no such key, so it is
      undefined. */
  const ConfiguredAdminToken: Option<string> := None

  /** config.jwtAccessToken, the secret generateToken signs with: config.ts
      defines no such key either, and jsonwebtoken refuses to sign without a
      secret. */
  const ConfiguredAccessSecret: Option<string> := None

  const InternalError := "Internal Server Error"
  const AlreadyExists := "User already exists"
  const UnknownEmail := "User not found or not exists"
  const ProfileError := "An error occurred while getting the user profile"
  const LoginSuccessful := "Login successful"

  /** The data of a successful login. */
  datatype LoginData = LoginData(user: Row, message: string)

  /** A property read from an object: undefined when the key is missing. */
  function Get(r: Row, k: string): Option<Json>
  {
    if k in r then Some(r[k]) else None
  }

  /** The role registerUser derives:
      `userData.adminToken === config.adminToken`, where two undefined values
      are equal and a JSON value equals a string only when it is that string. */
  function DeriveRole(body: Row, configured: Option<string>): (role: string)
    ensures role == "Admin" || role == "Customer"
    ensures role == "Admin" <==>
      match configured
      case None => "adminToken" !in body
      case Some(t) => "adminToken" in body && body["adminToken"] == JStr(t)
  {
    var expected := match configured
      case None => None
      case Some(t) => Some(JStr(t));
    if Get(body, "adminToken") == expected then "Admin" else "Customer"
  }

  /** With no token configured, leaving adminToken out of the body registers
      an Admin, and sending any adminToken at all a Customer. */
  lemma OmittedTokenGrantsAdmin(body: Row)
    ensures DeriveRole(body, ConfiguredAdminToken) == "Admin" <==> "adminToken" !in body
    ensures DeriveRole(map["email" := JStr("a@b.co")], ConfiguredAdminToken) == "Admin"
    ensures DeriveRole(map["adminToken" := JStr("secret")], ConfiguredAdminToken) == "Customer"
  {
  }

  /** The record registerUser hands to the service: the body, with the role
      and one date as created_at and updated_at over whatever it held. */
  function NewUser(body: Row, role: string, date: string): (rec: Row)
    ensures rec.Keys == body.Keys + {"role_user", "created_at", "updated_at"}
    ensures rec["role_user"] == JStr(role)
    ensures rec["created_at"] == rec["updated_at"] == JStr(date)
    ensures forall k :: k in body && k !in {"role_user", "created_at", "updated_at"} ==> rec[k] == body[k]
  {
    body + map["role_user" := JStr(role), "created_at" := JStr(date), "updated_at" := JStr(date)]
  }

  /** registerUser: the response and the table after it. The database's own
      timestamp default is never used, since the record carries both dates. */
  function RegisterUserOutcome(
    users: seq<Row>, body: Row, configured: Option<string>, date: string, newId: UserId,
    hash: string -> string, readFails: bool, writeFails: bool)
    : (o: (Response<Row>, seq<Row>))
    ensures o.0.status in {201, 400}
    ensures o.0.status != 201 ==> o.0.body.Failed? && o.1 == users
    ensures o.0.status == 201 ==> o.0.body.Success? && o.1 == users + [o.0.body.data] && Consistent(o.1)
  {
    var role := DeriveRole(body, configured);
    match GetUserByEmail(users, Field(body, "email"), readFails)
    case Err(e) => (ErrorResponse(e, InternalError), users)
    case Ok(Some(_)) => (Response(400, Failed(AlreadyExists)), users)
    case Ok(None) =>
      var (r, after) := InsertUser(users, NewUser(body, role, date), newId, hash, date, writeFails);
      (Respond(r, 201, InternalError), after)
  }

  /** Registering an email that is already stored is a 400 and inserts
      nothing, whatever the rest of the body. */
  lemma DuplicateEmailRefused(
    users: seq<Row>, body: Row, configured: Option<string>, date: string, newId: UserId,
    hash: string -> string, writeFails: bool, u: Row)
    requires u in users && "email" in body && body["email"] != JNull && EmailOf(u) == body["email"]
    ensures RegisterUserOutcome(users, body, configured, date, newId, hash, false, writeFails)
      == (Response(400, Failed(AlreadyExists)), users)
  {
  }

  /** A registration answers 201 with the inserted row, or changes nothing.
      The row holds the derived role whatever role the body named, one date
      as created_at and updated_at, the fresh id, the hashed password and the
      body's other columns; the table keeps its constraints and the email
      then finds the row. */
  lemma RegisteredUser(
    users: seq<Row>, body: Row, configured: Option<string>, date: string, newId: UserId,
    hash: string -> string, readFails: bool, writeFails: bool)
    requires Consistent(users)
    ensures var (resp, after) := RegisterUserOutcome(users, body, configured, date, newId, hash, readFails, writeFails);
      && Consistent(after)
      && (resp.status != 201 ==> resp.body.Failed? && after == users)
      && (resp.status == 201 ==>
            && resp.body.Success?
            && after == users + [resp.body.data]
            && "password" in body && body["password"].JStr?
            && var row := resp.body.data;
            && row["role_user"] == JStr(DeriveRole(body, configured))
            && row["created_at"] == row["updated_at"] == JStr(date)
            && row["user_id"] == JStr(newId)
            && row["password"] == JStr(hash(body["password"].s))
            && (forall k :: k in Columns && k in body && k !in {"user_id", "password", "role_user", "created_at", "updated_at"}
                  ==> row[k] == body[k])
            && GetUserByEmail(after, Field(body, "email"), false) == Ok(Some(row)))
  {
    var lookup := GetUserByEmail(users, Field(body, "email"), readFails);
    if lookup.Ok? && lookup.value.None? {
      var rec := NewUser(body, DeriveRole(body, configured), date);
      InsertThenFindByEmail(users, rec, newId, hash, date, writeFails);
      var (r, after) := InsertUser(users, rec, newId, hash, date, writeFails);
      if r.Ok? {
        RegisteredRow(users, body, configured, date, newId, hash, writeFails);
      }
    }
  }

  /** The 201 case of RegisteredUser. */
  lemma RegisteredRow(
    users: seq<Row>, body: Row, configured: Option<string>, date: string, newId: UserId,
    hash: string -> string, writeFails: bool)
    requires InsertUser(users, NewUser(body, DeriveRole(body, configured), date), newId, hash, date, writeFails).0.Ok?
    ensures var rec := NewUser(body, DeriveRole(body, configured), date);
      && "password" in body && body["password"].JStr?
      && var row := InsertUser(users, rec, newId, hash, date, writeFails).0.value;
      && row["role_user"] == JStr(DeriveRole(body, configured))
      && row["created_at"] == row["updated_at"] == JStr(date)
      && row["user_id"] == JStr(newId)
      && row["password"] == JStr(hash(body["password"].s))
      && (forall k :: k in Columns && k in body && k !in {"user_id", "password", "role_user", "created_at", "updated_at"}
            ==> row[k] == body[k])
      && EmailOf(row) == Field(body, "email")
  {
    var role := DeriveRole(body, configured);
    var rec := NewUser(body, role, date);
    assert rec["password"] == body["password"];
    NewUserRow(body, role, date, newId, hash(rec["password"].s));
  }

  /** The row a registration inserts for a body. */
  lemma NewUserRow(body: Row, role: string, date: string, newId: UserId, hashed: string)
    ensures var row := Inserted(NewUser(body, role, date), newId, hashed, date);
      && row["role_user"] == JStr(role)
      && row["created_at"] == row["updated_at"] == JStr(date)
      && row["user_id"] == JStr(newId)
      && row["password"] == JStr(hashed)
      && (forall k :: k in Columns && k in body && k !in {"user_id", "password", "role_user", "created_at", "updated_at"}
            ==> row[k] == body[k])
      && EmailOf(row) == Field(body, "email")
  {
    NewUserFixedColumns(body, role, date, newId, hashed);
    NewUserCopiedColumns(body, role, date, newId, hashed);
    NewUserEmail(body, role, date, newId, hashed);
  }

  /** The columns registration fixes, whatever the body held. */
  lemma NewUserFixedColumns(body: Row, role: string, date: string, newId: UserId, hashed: string)
    ensures var row := Inserted(NewUser(body, role, date), newId, hashed, date);
      && "role_user" in row && "created_at" in row && "updated_at" in row
      && row["role_user"] == JStr(role)
      && row["created_at"] == row["updated_at"] == JStr(date)
      && row["user_id"] == JStr(newId)
      && row["password"] == JStr(hashed)
  {
    InsertedRow(NewUser(body, role, date), newId, hashed, date);
  }

  /** The columns registration copies from the body. */
  lemma NewUserCopiedColumns(body: Row, role: string, date: string, newId: UserId, hashed: string)
    ensures var row := Inserted(NewUser(body, role, date), newId, hashed, date);
      && (forall k :: k in Columns && k in body && k !in {"user_id", "password", "role_user", "created_at", "updated_at"}
            ==> k in row && row[k] == body[k])
  {
    var rec := NewUser(body, role, date);
    var written := rec + map["user_id" := JStr(newId), "password" := JStr(hashed)];
    var stored := Stored(written);
    var row := Inserted(rec, newId, hashed, date);
    forall k | k in Columns && k in body && k !in {"user_id", "password", "role_user", "created_at", "updated_at"}
      ensures k in row && row[k] == body[k]
    {
      assert k in rec && rec[k] == body[k];
      assert k in written && written[k] == rec[k];
      assert k in stored && stored[k] == written[k];
    }
  }

  /** The inserted row's email is the body's, or absent with it. */
  lemma NewUserEmail(body: Row, role: string, date: string, newId: UserId, hashed: string)
    ensures EmailOf(Inserted(NewUser(body, role, date), newId, hashed, date)) == Field(body, "email")
  {
    var rec := NewUser(body, role, date);
    var written := rec + map["user_id" := JStr(newId), "password" := JStr(hashed)];
    var stored := Stored(written);
    var row := Inserted(rec, newId, hashed, date);
    assert "email" !in Defaults(date);
    if "email" in body {
      assert "email" in Columns;
      assert rec["email"] == body["email"];
      assert "email" in stored && stored["email"] == written["email"];
    } else {
      assert "email" !in written;
    }
  }

  /** The body's own role_user never matters: the outcome is the same for any
      value of it, or none. */
  lemma BodyRoleIgnored(
    users: seq<Row>, body: Row, role: Json, configured: Option<string>, date: string, newId: UserId,
    hash: string -> string, readFails: bool, writeFails: bool)
    ensures RegisterUserOutcome(users, body["role_user" := role], configured, date, newId, hash, readFails, writeFails)
      == RegisterUserOutcome(users, body - {"role_user"}, configured, date, newId, hash, readFails, writeFails)
  {
    var r1 := body["role_user" := role];
    var r2 := body - {"role_user"};
    assert DeriveRole(r1, configured) == DeriveRole(r2, configured);
    assert Field(r1, "email") == Field(r2, "email");
    var g := DeriveRole(r1, configured);
    assert NewUser(r1, g, date) == NewUser(r2, g, date);
  }

  /** loginUser: the token's user and a message, or the error. `signFails`
      is generateToken throwing. */
  function LoginOutcome(users: seq<Row>, body: Row, compare: (string, string) -> bool, readFails: bool, signFails: bool)
    : (resp: Response<LoginData>)
    ensures resp.status == 200 <==>
      && !readFails
      && GetUserByEmail(users, Field(body, "email"), false).value.Some?
      && LoginUser(GetUserByEmail(users, Field(body, "email"), false).value.value, Field(body, "password"), compare, signFails).Ok?
    ensures resp.status == 200 ==> resp == Response(200, Success(LoginData(
      TokenUser(GetUserByEmail(users, Field(body, "email"), false).value.value), LoginSuccessful)))
    ensures resp.status != 200 ==> resp.status == 400 && resp.body.Failed?
  {
    match GetUserByEmail(users, Field(body, "email"), readFails)
    case Err(e) => ErrorResponse(e, InternalError)
    case Ok(None) => Response(400, Failed(UnknownEmail))
    case Ok(Some(existing)) =>
      match LoginUser(existing, Field(body, "password"), compare, signFails)
      case Err(e) => ErrorResponse(e, InternalError)
      case Ok(user) => Response(200, Success(LoginData(user, LoginSuccessful)))
  }

  /** An unknown email is a 400 before any password check: the answer is the
      same whatever compare does. */
  lemma UnknownEmailBeforePassword(
    users: seq<Row>, body: Row, compare1: (string, string) -> bool, compare2: (string, string) -> bool, signFails: bool)
    requires forall u :: u in users ==> EmailOf(u) != Field(body, "email")
    ensures LoginOutcome(users, body, compare1, false, signFails) == LoginOutcome(users, body, compare2, false, signFails)
      == Response(400, Failed(UnknownEmail))
  {
  }

  /** With the secret config.ts leaves undefined, signing always fails, so no
      login succeeds: a stored user with the right password gets 400 "Failed
      to login". */
  lemma NoLoginSucceedsAsConfigured(users: seq<Row>, body: Row, compare: (string, string) -> bool, readFails: bool)
    ensures LoginOutcome(users, body, compare, readFails, ConfiguredAccessSecret.None?).status == 400
    ensures !readFails && GetUserByEmail(users, Field(body, "email"), false).value.Some? ==>
      LoginOutcome(users, body, compare, readFails, ConfiguredAccessSecret.None?) == Response(400, Failed(LoginError))
  {
  }

  /** getUserById: 200 with the stored row, otherwise a 400. */
  function GetUserByIdResponse(users: seq<Row>, userId: UserId, readFails: bool): (resp: Response<Row>)
    ensures resp.body.Success? <==> !readFails && exists u :: u in users && UserIdOf(u) == JStr(userId)
    ensures resp.body.Success? ==>
      resp.status == 200 && resp.body.data in users && UserIdOf(resp.body.data) == JStr(userId)
    ensures readFails ==> resp == Response(400, Failed(ProfileReadError))
    ensures !readFails && resp.body.Failed? ==> resp == Response(400, Failed(ProfileError))
  {
    match GetUserById(users, userId, readFails)
    case Err(e) => ErrorResponse(e, InternalError)
    case Ok(None) => Response(400, Failed(ProfileError))
    case Ok(Some(profile)) => Response(200, Success(profile))
  }

  /** The record updateUserProfile builds: the stored profile, the request's
      user over it, and the date as updated_at over both. */
  function MergedProfile(profile: Row, patch: Row, date: string): Row
  {
    profile + patch + map["updated_at" := JStr(date)]
  }

  /** The merge keeps every key either side has; a supplied field overrides
      the stored one, an unsupplied one keeps it, and updated_at is the date. */
  lemma MergeOverrides(profile: Row, patch: Row, date: string)
    ensures var m := MergedProfile(profile, patch, date);
      && m.Keys == profile.Keys + patch.Keys + {"updated_at"}
      && m["updated_at"] == JStr(date)
      && (forall k :: k in patch && k != "updated_at" ==> m[k] == patch[k])
      && (forall k :: k in profile && k !in patch && k != "updated_at" ==> m[k] == profile[k])
  {
  }

  /** updateUserProfile: the response and the table after it. `patch` is
      req.body.user, which is where verifyToken puts the decoded token. */
  function UpdateUserProfileOutcome(
    users: seq<Row>, userId: UserId, patch: Row, date: string, hash: string -> string,
    readFails: bool, writeFails: bool)
    : (o: (Response<Option<Row>>, seq<Row>))
    ensures o.0.status in {200, 400}
    ensures o.0.status != 200 ==> o.0.body.Failed? && o.1 == users
    ensures o.0.status == 200 ==> |o.1| == |users| && Consistent(o.1)
  {
    match GetUserById(users, userId, readFails)
    case Err(e) => (ErrorResponse(e, InternalError), users)
    case Ok(None) => (Response(400, Failed(ProfileError)), users)
    case Ok(Some(profile)) =>
      var (r, after) := UpdateRows(users, MergedProfile(profile, patch, date), userId, hash, writeFails);
      (Respond(r, 200, InternalError), after)
  }

  /** Without a stored profile the update is a 400 and writes nothing. */
  lemma UpdateNeedsProfile(
    users: seq<Row>, userId: UserId, patch: Row, date: string, hash: string -> string, readFails: bool, writeFails: bool)
    requires readFails || forall u :: u in users ==> UserIdOf(u) != JStr(userId)
    ensures UpdateUserProfileOutcome(users, userId, patch, date, hash, readFails, writeFails)
      == (Response(400, Failed(if readFails then ProfileReadError else ProfileError)), users)
  {
  }

  /** What the row a profile update leaves holds: each supplied column, each
      unsupplied column of the stored profile, the date as updated_at, and
      the hash of the supplied password or, when none is supplied, of the
      stored one. */
  predicate UpdatedRow(row: Row, profile: Row, patch: Row, date: string, hash: string -> string)
  {
    && "updated_at" in row && row["updated_at"] == JStr(date)
    && (forall k :: k in Columns && k in patch && k != "updated_at" && k != "password" ==> k in row && row[k] == patch[k])
    && (forall k :: k in profile && k !in patch && k != "updated_at" && k != "password" ==> k in row && row[k] == profile[k])
    && ("password" in patch ==>
          && patch["password"].JStr?
          && "password" in row && row["password"] == JStr(hash(patch["password"].s)))
    && ("password" !in patch ==>
          && "password" in profile && profile["password"].JStr?
          && "password" in row && row["password"] == JStr(hash(profile["password"].s)))
  }

  /** A profile update answers 200 with the updated row, or changes nothing.
      The row is an UpdatedRow of the stored profile: its password is the
      hash of whatever the merged record held, so an update that supplies no
      password stores the hash of the stored hash. */
  lemma {:induction false} UpdatedProfile(
    users: seq<Row>, userId: UserId, patch: Row, date: string, hash: string -> string,
    readFails: bool, writeFails: bool)
    requires Consistent(users)
    ensures var (resp, after) := UpdateUserProfileOutcome(users, userId, patch, date, hash, readFails, writeFails);
      && Consistent(after)
      && (resp.status != 200 ==> resp.body.Failed? && after == users)
      && (resp.status == 200 ==>
            && !readFails
            && GetUserById(users, userId, false).value.Some?
            && resp.body.Success? && resp.body.data.Some?
            && UpdatedRow(resp.body.data.value, GetUserById(users, userId, false).value.value, patch, date, hash))
  {
    var (resp, after) := UpdateUserProfileOutcome(users, userId, patch, date, hash, readFails, writeFails);
    UpdateFrameAt(users, userId, patch, date, hash, readFails, writeFails);
    if resp.status == 200 {
      ProfileRow(GetUserById(users, userId, false).value.value, patch, date, hash);
    }
  }

  /** The row an update leaves for a stored profile and a patch. */
  lemma ProfileRow(profile: Row, patch: Row, date: string, hash: string -> string)
    requires var merged := MergedProfile(profile, patch, date);
      "password" in merged && merged["password"].JStr?
    ensures var merged := MergedProfile(profile, patch, date);
      var row := profile + UpdateSet(merged, hash(merged["password"].s));
      && row["password"] == JStr(hash(merged["password"].s))
      && UpdatedRow(row, profile, patch, date, hash)
  {
    var merged := MergedProfile(profile, patch, date);
    var hashed := hash(merged["password"].s);
    var changes := UpdateSet(merged, hashed);
    var row := profile + changes;
    MergeOverrides(profile, patch, date);
    assert "password" in changes && row["password"] == JStr(hashed);
    assert "updated_at" in changes && row["updated_at"] == merged["updated_at"];
    forall k | k in Columns && k in patch && k != "updated_at" && k != "password"
      ensures k in row && row[k] == patch[k]
    {
      assert changes[k] == merged[k];
    }
    forall k | k in profile && k !in patch && k != "updated_at" && k != "password"
      ensures k in row && row[k] == profile[k]
    {
      if k in Columns {
        assert changes[k] == merged[k];
      }
    }
  }

  /** The step of UpdatedProfile that locates the row. */
  lemma {:induction false} UpdateFrameAt(
    users: seq<Row>, userId: UserId, patch: Row, date: string, hash: string -> string,
    readFails: bool, writeFails: bool)
    requires Consistent(users)
    ensures var (resp, after) := UpdateUserProfileOutcome(users, userId, patch, date, hash, readFails, writeFails);
      && Consistent(after)
      && (resp.status != 200 ==> resp.body.Failed? && after == users)
      && (resp.status == 200 ==>
            && !readFails
            && GetUserById(users, userId, false).value.Some?
            && var profile := GetUserById(users, userId, false).value.value;
            && var merged := MergedProfile(profile, patch, date);
            && "password" in merged && merged["password"].JStr?
            && resp.body == Success(Some(profile + UpdateSet(merged, hash(merged["password"].s)))))
  {
    var lookup := GetUserById(users, userId, readFails);
    if lookup.Ok? && lookup.value.Some? {
      var profile := lookup.value.value;
      var merged := MergedProfile(profile, patch, date);
      UpdateFrame(users, merged, userId, hash, writeFails);
      var i := FirstIndex(users, HasUserId(userId));
      assert i.Some? && users[i.value] == profile;
    } else {
      UpdateNeedsProfileOrFails(users, userId, patch, date, hash, readFails, writeFails);
    }
  }

  lemma UpdateNeedsProfileOrFails(
    users: seq<Row>, userId: UserId, patch: Row, date: string, hash: string -> string,
    readFails: bool, writeFails: bool)
    requires GetUserById(users, userId, readFails).Err? || GetUserById(users, userId, readFails).value.None?
    ensures var (resp, after) := UpdateUserProfileOutcome(users, userId, patch, date, hash, readFails, writeFails);
      resp.status == 400 && resp.body.Failed? && after == users
  {
  }

  /** registerUser on the store. */
  method RegisterUser(
    store: UserStore, body: Row, configured: Option<string>, date: string, newId: UserId,
    hash: string -> string, readFails: bool, writeFails: bool)
    returns (resp: Response<Row>)
    requires store.Valid()
    modifies store
    ensures store.Valid()
    ensures (resp, store.users)
      == RegisterUserOutcome(old(store.users), body, configured, date, newId, hash, readFails, writeFails)
  {
    var role := DeriveRole(body, configured);
    var existing := GetUserByEmail(store.users, Field(body, "email"), readFails);
    if existing.Err? {
      resp := ErrorResponse(existing.error, InternalError);
      return;
    }
    if existing.value.Some? {
      resp := Response(400, Failed(AlreadyExists));
      return;
    }
    var r := store.RegisterUser(NewUser(body, role, date), newId, hash, date, writeFails);
    resp := Respond(r, 201, InternalError);
  }

  /** updateUserProfile on the store. */
  method UpdateUserProfile(
    store: UserStore, userId: UserId, patch: Row, date: string, hash: string -> string,
    readFails: bool, writeFails: bool)
    returns (resp: Response<Option<Row>>)
    requires store.Valid()
    modifies store
    ensures store.Valid()
    ensures (resp, store.users)
      == UpdateUserProfileOutcome(old(store.users), userId, patch, date, hash, readFails, writeFails)
  {
    var profile := GetUserById(store.users, userId, readFails);
    if profile.Err? {
      resp := ErrorResponse(profile.error, InternalError);
      return;
    }
    if profile.value.None? {
      resp := Response(400, Failed(ProfileError));
      return;
    }
    var r := store.UpdateUser(MergedProfile(profile.value.value, patch, date), userId, hash, writeFails);
    resp := Respond(r, 200, InternalError);
  }
}
