/**
  Accounts and sessions (app/actions/auth-actions.ts): the admin login with its hard-coded
  credential, the payload-only session checks, student registration, one-shot e-mail
  verification, and student login/logout. `bcrypt.compare` is the `compare` parameter;
  the bcrypt hash, the random token bytes and the database-generated user id are inputs.
 */
module AuthActions {
  import opened Wrappers
  import opened Queries
  import opened Sessions
  import opened Store
  import opened Identifiers

  const HardcodedAdminEmail: string := "admin@gmail.com"
  const HardcodedAdminPassword: string := "@Admin123"
  /** The fixed principal the hard-coded credential logs in as. */
  const HardcodedAdmin: Payload := Payload(Some("admin-1"), Some(HardcodedAdminEmail), Some(AdminRole), None)

  const InvalidCredentials: string := "Invalid email or password"
  const EmailTaken: string := "Email already registered"
  const InvalidToken: string := "Invalid verification token"
  const UnverifiedEmail: string := "Please verify your email before logging in"

  /** `bcrypt.compare(plain, hash)`. */
  type PasswordCheck = (string, string) -> bool

  /** The `{ id, email, role }` object written into an admin session cookie. */
  function AdminPayload(u: User): Payload {
    Payload(Some(u.id), Some(u.email), Some(u.role), None)
  }

  /** The `{ id, email, fullName, role }` object written into a student session cookie. */
  function StudentPayload(u: User): Payload {
    Payload(Some(u.id), Some(u.email), Some(u.role), Some(u.full_name))
  }

  /** `checkAdminAuth`: authenticated iff the `admin-session` payload says `role: "admin"`; no database check. */
  function CheckAdminAuth(jar: Jar): (r: AuthCheck<Payload>)
    ensures r.Authenticated? <==>
              && AdminSessionCookie in jar
              && jar[AdminSessionCookie].Parsed?
              && jar[AdminSessionCookie].json.JObject?
              && jar[AdminSessionCookie].json.fields.role == Some(AdminRole)
    ensures r.Authenticated? ==> jar[AdminSessionCookie] == Parsed(JObject(r.user))
  {
    PayloadWithRole(jar, AdminSessionCookie, AdminRole)
  }

  /** `checkUserAuth`: authenticated iff the `user-session` payload says `role: "student"`. */
  function CheckUserAuth(jar: Jar): (r: AuthCheck<Payload>)
    ensures r.Authenticated? <==>
              && UserSessionCookie in jar
              && jar[UserSessionCookie].Parsed?
              && jar[UserSessionCookie].json.JObject?
              && jar[UserSessionCookie].json.fields.role == Some(StudentRole)
    ensures r.Authenticated? ==> jar[UserSessionCookie] == Parsed(JObject(r.user))
  {
    PayloadWithRole(jar, UserSessionCookie, StudentRole)
  }

  /**
    `adminLogin(email, password)`: the hard-coded credential wins without consulting the
    database; otherwise the unique admin row with that e-mail must exist and its hash must
    match. A failed login leaves the cookies alone.
   */
  function AdminLogin(db: Db, jar: Jar, email: string, password: string, compare: PasswordCheck): (r: (Outcome<Error>, Jar))
    ensures email == HardcodedAdminEmail && password == HardcodedAdminPassword ==>
              r == (Pass, SetSession(jar, AdminSessionCookie, HardcodedAdmin))
    ensures r.0.Fail? ==> r == (Fail(Msg(InvalidCredentials)), jar)
    ensures r.0.Pass? ==> CheckAdminAuth(r.1).Authenticated?
    ensures r.0.Pass? && (email != HardcodedAdminEmail || password != HardcodedAdminPassword) ==>
              exists u :: u in db.users && u.email == email && u.role == AdminRole && compare(password, u.password)
  {
    if email == HardcodedAdminEmail && password == HardcodedAdminPassword then
      (Pass, SetSession(jar, AdminSessionCookie, HardcodedAdmin))
    else
      match Single(db.users, (u: User) => u.email == email && u.role == AdminRole)
      case None => (Fail(Msg(InvalidCredentials)), jar)
      case Some(u) =>
        if !compare(password, u.password) then (Fail(Msg(InvalidCredentials)), jar)
        else (Pass, SetSession(jar, AdminSessionCookie, AdminPayload(u)))
  }

  /**
    A genuine admin account logs in: with unique e-mail addresses, an admin row whose hash
    matches the password writes that row's payload into `admin-session`.
   */
  lemma AdminLoginAccepts(db: Db, jar: Jar, u: User, password: string, compare: PasswordCheck)
    requires UniqueUsers(db.users) && u in db.users && u.role == AdminRole && compare(password, u.password)
    requires u.email != HardcodedAdminEmail || password != HardcodedAdminPassword
    ensures AdminLogin(db, jar, u.email, password, compare) == (Pass, SetSession(jar, AdminSessionCookie, AdminPayload(u)))
  {
    var p := (v: User) => v.email == u.email && v.role == AdminRole;
    assert AtMostOne(db.users, p);
    SingleUnique(db.users, p);
    var w := Single(db.users, p).value;
    assert w == u by {
      var i :| 0 <= i < |db.users| && db.users[i] == u;
      var j :| 0 <= j < |db.users| && db.users[j] == w;
      assert db.users[i].email == db.users[j].email;
    }
  }

  /** Outside the hard-coded pair, a password that does not match the admin row is refused. */
  lemma AdminLoginRefusesWrongPassword(db: Db, jar: Jar, u: User, password: string, compare: PasswordCheck)
    requires UniqueUsers(db.users) && u in db.users && u.role == AdminRole && !compare(password, u.password)
    requires u.email != HardcodedAdminEmail || password != HardcodedAdminPassword
    ensures AdminLogin(db, jar, u.email, password, compare) == (Fail(Msg(InvalidCredentials)), jar)
  {
    var p := (v: User) => v.email == u.email && v.role == AdminRole;
    assert AtMostOne(db.users, p);
    SingleUnique(db.users, p);
    var w := Single(db.users, p).value;
    assert w == u by {
      var i :| 0 <= i < |db.users| && db.users[i] == u;
      var j :| 0 <= j < |db.users| && db.users[j] == w;
      assert db.users[i].email == db.users[j].email;
    }
  }

  /** `adminLogout`: drops the `admin-session` cookie. */
  function AdminLogout(jar: Jar): (r: Jar)
    ensures CheckAdminAuth(r).Unauthenticated?
    ensures UserSessionCookie in jar ==> UserSessionCookie in r && r[UserSessionCookie] == jar[UserSessionCookie]
  {
    DeleteCookie(jar, AdminSessionCookie)
  }

  /**
    `registerUser`: refuses an e-mail that is already registered, otherwise inserts an
    unverified student holding a fresh verification token and returns that token.
    `hashed` is `bcrypt.hash(password, 10)`.
   */
  function RegisterUser(db: Db, email: string, hashed: string, fullName: string,
                        tokenBytes: seq<byte>, newId: string, fault: bool): (r: (Result<string, Error>, Db))
    requires |tokenBytes| == 32
    ensures HasUserEmail(db.users, email) ==> r.0.Err? && r.1 == db
    ensures r.0.Err? ==> r.1 == db
    ensures r.0.Ok? ==>
              && |r.0.value| == 64
              && HexDecode(r.0.value) == Some(tokenBytes)
              && r.1 == db.(users := db.users + [User(newId, email, hashed, fullName, StudentRole, false, Some(r.0.value))])
    ensures Valid(db) ==> Valid(r.1)
  {
    if Single(db.users, (u: User) => u.email == email).Some? then
      (Err(Msg(EmailTaken)), db)
    else
      var token := VerificationToken(tokenBytes);
      var u := User(newId, email, hashed, fullName, StudentRole, false, Some(token));
      match InsertUser(db, u, fault)
      case Err(e) => (Err(e), db)
      case Ok(db') => (Ok(token), db')
  }

  /** With unique e-mail addresses, a registered address is refused with its own message. */
  lemma RegisterDuplicateEmail(db: Db, email: string, hashed: string, fullName: string,
                               tokenBytes: seq<byte>, newId: string, fault: bool)
    requires |tokenBytes| == 32
    requires UniqueUsers(db.users) && HasUserEmail(db.users, email)
    ensures RegisterUser(db, email, hashed, fullName, tokenBytes, newId, fault) == (Err(Msg(EmailTaken)), db)
  {
    var p := (u: User) => u.email == email;
    assert AtMostOne(db.users, p);
    var i :| 0 <= i < |db.users| && db.users[i].email == email;
    assert db.users[i] in db.users && p(db.users[i]);
    SingleUnique(db.users, p);
  }

  /** Marks every row with id `id` verified and clears its token. */
  function MarkVerified(us: seq<User>, id: string): (r: seq<User>)
    ensures |r| == |us|
    ensures forall i :: 0 <= i < |us| && us[i].id == id ==>
              r[i] == us[i].(email_verified := true, verification_token := None)
    ensures forall i :: 0 <= i < |us| && us[i].id != id ==> r[i] == us[i]
  {
    seq(|us|, i requires 0 <= i < |us| =>
      if us[i].id == id then us[i].(email_verified := true, verification_token := None) else us[i])
  }

  /**
    `verifyEmail(token)`: the unique user holding `token` becomes verified and loses the
    token; an unknown token fails and changes nothing.
   */
  function VerifyEmail(db: Db, token: string, fault: bool): (r: (Outcome<Error>, Db))
    ensures r.0.Fail? ==> r.1 == db
    ensures !(exists u :: u in db.users && u.verification_token == Some(token)) ==> r == (Fail(Msg(InvalidToken)), db)
    ensures r.0.Pass? ==>
              && r.1 == db.(users := r.1.users)
              && |r.1.users| == |db.users|
              && (forall i :: 0 <= i < |r.1.users| ==> r.1.users[i].verification_token != Some(token))
              && (exists i :: 0 <= i < |db.users| && db.users[i].verification_token == Some(token)
                    && r.1.users[i].email_verified)
    ensures r.0.Pass? ==>
              exists u :: u in db.users && u.verification_token == Some(token) && r.1 == db.(users := MarkVerified(db.users, u.id))
  {
    match Single(db.users, (u: User) => u.verification_token == Some(token))
    case None => (Fail(Msg(InvalidToken)), db)
    case Some(u) =>
      if fault then (Fail(DbError(Unavailable)), db)
      else
        var users := MarkVerified(db.users, u.id);
        assert forall i :: 0 <= i < |users| ==> users[i].verification_token != Some(token);
        var k :| 0 <= k < |db.users| && db.users[k] == u;
        (Pass, db.(users := users))
  }

  /** A verification token works once: replaying it after a successful verification fails. */
  lemma VerifyEmailOneShot(db: Db, token: string, fault1: bool, fault2: bool)
    requires VerifyEmail(db, token, fault1).0.Pass?
    ensures VerifyEmail(VerifyEmail(db, token, fault1).1, token, fault2).0 == Fail(Msg(InvalidToken))
  {
    var db' := VerifyEmail(db, token, fault1).1;
    forall u | u in db'.users ensures u.verification_token != Some(token) {
      var i :| 0 <= i < |db'.users| && db'.users[i] == u;
    }
  }

  /**
    `loginUser`: only student rows are considered; an unverified account is refused before
    the password is compared; a successful login writes the `user-session` cookie.
   */
  function LoginUser(db: Db, jar: Jar, email: string, password: string, compare: PasswordCheck): (r: (Outcome<Error>, Jar))
    ensures r.0.Fail? ==> r.1 == jar
    ensures r.0.Fail? ==> r.0.error in {Msg(InvalidCredentials), Msg(UnverifiedEmail)}
    ensures r.0.Pass? ==> CheckUserAuth(r.1).Authenticated?
    ensures r.0.Pass? ==>
              exists u :: u in db.users && u.email == email && u.role == StudentRole && u.email_verified
                && compare(password, u.password)
                && r.1 == SetSession(jar, UserSessionCookie, StudentPayload(u))
  {
    match Single(db.users, (u: User) => u.email == email && u.role == StudentRole)
    case None => (Fail(Msg(InvalidCredentials)), jar)
    case Some(u) =>
      if !u.email_verified then (Fail(Msg(UnverifiedEmail)), jar)
      else if !compare(password, u.password) then (Fail(Msg(InvalidCredentials)), jar)
      else (Pass, SetSession(jar, UserSessionCookie, StudentPayload(u)))
  }

  /** An unverified student is refused with the verification message whatever the password. */
  lemma LoginChecksVerificationFirst(db: Db, jar: Jar, u: User, password: string, compare: PasswordCheck)
    requires UniqueUsers(db.users) && u in db.users && u.role == StudentRole && !u.email_verified
    ensures LoginUser(db, jar, u.email, password, compare) == (Fail(Msg(UnverifiedEmail)), jar)
  {
    var p := (v: User) => v.email == u.email && v.role == StudentRole;
    assert AtMostOne(db.users, p);
    SingleUnique(db.users, p);
  }

  /** An unknown e-mail and a wrong password produce the same answer. */
  lemma LoginDoesNotRevealAccounts(db: Db, jar: Jar, u: User, unknown: string, password: string, compare: PasswordCheck)
    requires UniqueUsers(db.users) && u in db.users && u.role == StudentRole && u.email_verified
    requires !compare(password, u.password)
    requires !HasUserEmail(db.users, unknown)
    ensures LoginUser(db, jar, u.email, password, compare) == LoginUser(db, jar, unknown, password, compare)
  {
    var p := (v: User) => v.email == u.email && v.role == StudentRole;
    assert AtMostOne(db.users, p);
    SingleUnique(db.users, p);
    var q := (v: User) => v.email == unknown && v.role == StudentRole;
    assert Filter(db.users, q) == [];
  }

  /** `logoutUser`: drops the `user-session` cookie, after which the user check fails. */
  function LogoutUser(jar: Jar): (r: Jar)
    ensures CheckUserAuth(r).Unauthenticated?
    ensures AdminSessionCookie in jar ==> AdminSessionCookie in r && r[AdminSessionCookie] == jar[AdminSessionCookie]
  {
    DeleteCookie(jar, UserSessionCookie)
  }

  /**
    The account life cycle: a fresh registration, verified with the token it returned,
    admits a login with the registered password.
   */
  lemma {:induction false} RegisterVerifyLogin(db: Db, jar: Jar, email: string, password: string, hashed: string,
                                                fullName: string, tokenBytes: seq<byte>, newId: string,
                                                compare: PasswordCheck)
    requires Valid(db) && |tokenBytes| == 32
    requires !HasUserEmail(db.users, email) && !HasUserId(db.users, newId)
    requires forall u :: u in db.users ==> u.verification_token != Some(VerificationToken(tokenBytes))
    requires compare(password, hashed)
    ensures var (reg, db1) := RegisterUser(db, email, hashed, fullName, tokenBytes, newId, false);
            && reg.Ok?
            && var (ver, db2) := VerifyEmail(db1, reg.value, false);
            && ver.Pass?
            && LoginUser(db2, jar, email, password, compare).0.Pass?
  {
    var token := VerificationToken(tokenBytes);
    var newUser := User(newId, email, hashed, fullName, StudentRole, false, Some(token));
    assert Filter(db.users, (u: User) => u.email == email) == [];
    var (reg, db1) := RegisterUser(db, email, hashed, fullName, tokenBytes, newId, false);
    assert db1.users == db.users + [newUser];
    var pt := (u: User) => u.verification_token == Some(token);
    assert AtMostOne(db1.users, pt);
    SingleUnique(db1.users, pt);
    assert newUser in db1.users;
    var (ver, db2) := VerifyEmail(db1, token, false);
    var k := |db.users|;
    assert db2.users == MarkVerified(db1.users, newId);
    assert db2.users[k] == newUser.(email_verified := true, verification_token := None);
    var pl := (u: User) => u.email == email && u.role == StudentRole;
    assert UniqueUsers(db2.users) by {
      forall i, j | 0 <= i < j < |db2.users| ensures db2.users[i].id != db2.users[j].id && db2.users[i].email != db2.users[j].email {
        assert db2.users[i].id == db1.users[i].id && db2.users[i].email == db1.users[i].email;
        assert db2.users[j].id == db1.users[j].id && db2.users[j].email == db1.users[j].email;
      }
    }
    assert AtMostOne(db2.users, pl);
    SingleUnique(db2.users, pl);
    assert db2.users[k] in db2.users;
  }
}
