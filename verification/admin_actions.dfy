/**
  The administrator's server actions (app/actions/admin-actions.ts). Unlike the payload-only
  check of app/actions/auth-actions.ts, this file's `checkAdminAuth` reads the
  `admin_session` cookie and re-reads the user row from the database. Every data action
  answers "Not authenticated" without touching data when that check fails.
 */
module AdminActions {
  import opened Wrappers
  import opened Queries
  import opened Sessions
  import opened Store
  import opened AuthActions
  import ReportActions

  const CredentialsRequired: string := "Email and password are required"
  const ComplaintNotFound: string := "Complaint not found"

  /**
    `checkAdminAuth()`: the `admin_session` cookie must parse to an object with a non-empty
    `id` and `role: "admin"`, and the unique user row with that id must itself be an admin.
    Every other case, including `null`, fails closed.
   */
  function CheckAdminAuthDb(db: Db, jar: Jar): (r: AuthCheck<User>)
    ensures r.Authenticated? ==>
              && SessionObject(jar, DbAdminSessionCookie).Some?
              && SessionObject(jar, DbAdminSessionCookie).value.role == Some(AdminRole)
              && SessionObject(jar, DbAdminSessionCookie).value.id == Some(r.user.id)
              && r.user.id != ""
              && r.user in db.users
              && r.user.role == AdminRole
  {
    match SessionObject(jar, DbAdminSessionCookie)
    case None => Unauthenticated
    case Some(p) =>
      if p.id.None? || p.id.value == "" || p.role != Some(AdminRole) then Unauthenticated
      else
        match Single(db.users, (u: User) => u.id == p.id.value)
        case None => Unauthenticated
        case Some(u) => if u.role != AdminRole then Unauthenticated else Authenticated(u)
  }

  /**
    The check accepts every genuine admin session: with unique ids, a parsed object naming
    an existing admin row authenticates as that row.
   */
  lemma AdminAuthDbComplete(db: Db, jar: Jar, u: User)
    requires UniqueUsers(db.users) && u in db.users && u.role == AdminRole && u.id != ""
    requires SessionObject(jar, DbAdminSessionCookie).Some?
    requires SessionObject(jar, DbAdminSessionCookie).value.id == Some(u.id)
    requires SessionObject(jar, DbAdminSessionCookie).value.role == Some(AdminRole)
    ensures CheckAdminAuthDb(db, jar) == Authenticated(u)
  {
    var p := (v: User) => v.id == u.id;
    assert AtMostOne(db.users, p);
    SingleUnique(db.users, p);
  }

  /** A session naming a row that is not (or no longer) an admin is refused. */
  lemma DemotedAdminRefused(db: Db, jar: Jar, u: User)
    requires UniqueUsers(db.users) && u in db.users && u.role != AdminRole
    requires SessionObject(jar, DbAdminSessionCookie).Some?
    requires SessionObject(jar, DbAdminSessionCookie).value.id == Some(u.id)
    ensures CheckAdminAuthDb(db, jar).Unauthenticated?
  {
    var p := (v: User) => v.id == u.id;
    assert AtMostOne(db.users, p);
    SingleUnique(db.users, p);
  }

  /**
    The two admin checks differ: a hand-written `admin-session` cookie claiming the admin
    role passes the payload-only check, while the same claim under `admin_session` fails the
    database check when no such user exists.
   */
  lemma PayloadOnlyCheckTrustsTheCookie(db: Db, id: string)
    requires !HasUserId(db.users, id)
    ensures var claim := Payload(Some(id), None, Some(AdminRole), None);
            && CheckAdminAuth(SetSession(map[], AdminSessionCookie, claim)).Authenticated?
            && CheckAdminAuthDb(db, SetSession(map[], DbAdminSessionCookie, claim)).Unauthenticated?
  {
    var p := (v: User) => v.id == id;
    assert Filter(db.users, p) == [];
  }

  /**
    `adminLogin(formData)` of this file: both fields are required; the unique admin row with
    that e-mail must exist and its hash must match; success writes `admin_session`.
   */
  function AdminLogin(db: Db, jar: Jar, email: Option<string>, password: Option<string>, compare: PasswordCheck): (r: (Outcome<Error>, Jar))
    ensures email.None? || email == Some("") || password.None? || password == Some("") ==>
              r == (Fail(Msg(CredentialsRequired)), jar)
    ensures r.0.Fail? ==> r.1 == jar
    ensures r.0.Pass? ==>
              exists u :: u in db.users && Some(u.email) == email && u.role == AdminRole
                && compare(password.value, u.password)
                && r.1 == SetSession(jar, DbAdminSessionCookie, AdminPayload(u))
  {
    if email.None? || email.value == "" || password.None? || password.value == "" then
      (Fail(Msg(CredentialsRequired)), jar)
    else
      match Single(db.users, (u: User) => u.email == email.value && u.role == AdminRole)
      case None => (Fail(Msg(InvalidCredentials)), jar)
      case Some(u) =>
        if !compare(password.value, u.password) then (Fail(Msg(InvalidCredentials)), jar)
        else (Pass, SetSession(jar, DbAdminSessionCookie, AdminPayload(u)))
  }

  /**
    A genuine admin account logs in through this file: with unique e-mail addresses, filled
    fields naming an admin row whose hash matches write that row's payload into `admin_session`.
   */
  lemma AdminLoginAccepts(db: Db, jar: Jar, u: User, password: string, compare: PasswordCheck)
    requires UniqueUsers(db.users) && u in db.users && u.role == AdminRole && compare(password, u.password)
    requires u.email != "" && password != ""
    ensures AdminLogin(db, jar, Some(u.email), Some(password), compare)
            == (Pass, SetSession(jar, DbAdminSessionCookie, AdminPayload(u)))
  {
    var p := (v: User) => v.email == u.email && v.role == AdminRole;
    assert AtMostOne(db.users, p);
    SingleUnique(db.users, p);
    var w := Single(db.users, p).value;
    assert w == u by {
      var i :| 0 <= i < |db.users| && db.users[i] == u;
      var j :| 0 <= j < |db.users| && db.users[j] == w;
      assert db.users[i].email == db.users[j].email;
    }
  }

  /** An e-mail that names no admin row is refused, whatever the password. */
  lemma AdminLoginRefusesNonAdmin(db: Db, jar: Jar, email: string, password: string, compare: PasswordCheck)
    requires email != "" && password != ""
    requires forall v :: v in db.users && v.email == email ==> v.role != AdminRole
    ensures AdminLogin(db, jar, Some(email), Some(password), compare) == (Fail(Msg(InvalidCredentials)), jar)
  {
    var p := (v: User) => v.email == email && v.role == AdminRole;
    assert Filter(db.users, p) == [];
  }

  /** A login through this file is accepted by this file's check. */
  lemma AdminLoginThenCheck(db: Db, jar: Jar, email: Option<string>, password: Option<string>, compare: PasswordCheck)
    requires UniqueUsers(db.users)
    requires AdminLogin(db, jar, email, password, compare).0.Pass?
    ensures var u :| u in db.users && Some(u.email) == email && u.role == AdminRole;
            u.id != "" ==> CheckAdminAuthDb(db, AdminLogin(db, jar, email, password, compare).1) == Authenticated(u)
  {
    var jar' := AdminLogin(db, jar, email, password, compare).1;
    var u :| u in db.users && Some(u.email) == email && u.role == AdminRole;
    var w :| w in db.users && Some(w.email) == email && w.role == AdminRole
               && jar' == SetSession(jar, DbAdminSessionCookie, AdminPayload(w));
    assert u == w by {
      var i :| 0 <= i < |db.users| && db.users[i] == u;
      var j :| 0 <= j < |db.users| && db.users[j] == w;
      assert db.users[i].email == db.users[j].email;
    }
    if u.id != "" {
      AdminAuthDbComplete(db, jar', u);
    }
  }

  /** `adminLogout()`: drops `admin_session`, after which this file's check fails. */
  function AdminLogout(db: Db, jar: Jar): (r: Jar)
    ensures CheckAdminAuthDb(db, r).Unauthenticated?
    ensures forall n :: n != DbAdminSessionCookie ==> (n in r <==> n in jar)
  {
    DeleteCookie(jar, DbAdminSessionCookie)
  }

  /** The camelCase object the admin pages receive: every column except `user_id`. */
  datatype FormattedComplaint = FormattedComplaint(
    id: string,
    complaintNumber: string,
    submissionDate: int,
    incidentDate: string,
    incidentTime: string,
    incidentLocation: string,
    category: Option<string>,
    description: string,
    status: string,
    adminNotes: Option<string>,
    publicNotes: Option<string>,
    evidencePath: Option<string>,
    evidenceFileName: Option<string>,
    evidenceFileType: Option<string>,
    anonymous: bool)

  function Format(c: Complaint): FormattedComplaint {
    FormattedComplaint(c.id, c.complaint_number, c.submission_date, c.incident_date, c.incident_time,
                       c.incident_location, c.category, c.description, c.status, c.admin_notes,
                       c.public_notes, c.evidence_path, c.evidence_file_name, c.evidence_file_type,
                       c.anonymous)
  }

  /** Puts a formatted row back into column form, given the owner it omits. */
  function Unformat(f: FormattedComplaint, userId: Option<string>): Complaint {
    Complaint(f.id, f.complaintNumber, userId, f.incidentDate, f.incidentTime, f.incidentLocation,
              f.category, f.description, f.status, f.adminNotes, f.publicNotes, f.evidencePath,
              f.evidenceFileName, f.evidenceFileType, f.anonymous, f.submissionDate)
  }

  /** Formatting renames every column and drops only the owner. */
  lemma FormatKeepsAllButOwner(c: Complaint)
    ensures Unformat(Format(c), c.user_id) == c
  {
  }

  /** Two rows format alike exactly when they differ at most in their owner. */
  lemma FormatIgnoresOnlyOwner(a: Complaint, b: Complaint)
    ensures Format(a) == Format(b) <==> a.(user_id := None) == b.(user_id := None)
  {
    if Format(a) == Format(b) {
      FormatKeepsAllButOwner(a);
      FormatKeepsAllButOwner(b);
      assert a.(user_id := None) == Unformat(Format(a), None);
    }
  }

  /** `status && status !== "all"`: the status filter applies. */
  predicate StatusFilterActive(status: Option<string>) {
    status.Some? && status.value != "" && status.value != "all"
  }

  predicate Listed(c: Complaint, status: Option<string>) {
    !StatusFilterActive(status) || c.status == status.value
  }

  /** The status filter as a row predicate. */
  function ListedUnder(status: Option<string>): Complaint -> bool {
    (c: Complaint) => Listed(c, status)
  }

  /** The rows `getComplaints` fetches: all of them or one status, newest submission first. */
  function ListedRows(db: Db, status: Option<string>): (rows: seq<Complaint>)
    ensures forall i :: 0 <= i < |rows| ==> rows[i] in db.complaints && Listed(rows[i], status)
    ensures forall i :: 0 <= i < |db.complaints| && Listed(db.complaints[i], status) ==> db.complaints[i] in rows
    ensures multiset(rows) == multiset(Filter(db.complaints, ListedUnder(status)))
    ensures forall i, j :: 0 <= i < j < |rows| ==> rows[i].submission_date >= rows[j].submission_date
    ensures !StatusFilterActive(status) ==> |rows| == |db.complaints| && multiset(rows) == multiset(db.complaints)
  {
    var selected := Filter(db.complaints, ListedUnder(status));
    SortDescSameRows(selected, ReportActions.SubmissionDate);
    if StatusFilterActive(status) then SortDesc(selected, ReportActions.SubmissionDate)
    else
      FilterAll(db.complaints, ListedUnder(status));
      SortDesc(selected, ReportActions.SubmissionDate)
  }

  /**
    `getComplaints(status?)`: one formatted entry per fetched row, in the fetched order.
    `fetchFails` stands for a query error.
   */
  function GetComplaints(db: Db, jar: Jar, status: Option<string>, fetchFails: bool): (r: Result<seq<FormattedComplaint>, Error>)
    ensures CheckAdminAuthDb(db, jar).Unauthenticated? ==> r == Err(Msg(ReportActions.NotAuthenticated))
    ensures r.Ok? ==> CheckAdminAuthDb(db, jar).Authenticated? && !fetchFails
    ensures r.Ok? ==>
              var rows := ListedRows(db, status);
              |r.value| == |rows| && forall i :: 0 <= i < |rows| ==> Unformat(r.value[i], rows[i].user_id) == rows[i]
  {
    if CheckAdminAuthDb(db, jar).Unauthenticated? then Err(Msg(ReportActions.NotAuthenticated))
    else if fetchFails then Err(DbError(Unavailable))
    else
      var rows := ListedRows(db, status);
      Ok(seq(|rows|, i requires 0 <= i < |rows| => Format(rows[i])))
  }

  /**
    An admin's list with status "all" (or none) covers every complaint; with any other
    status it covers exactly the complaints holding that status.
   */
  lemma ComplaintListCoverage(db: Db, jar: Jar, status: Option<string>)
    requires CheckAdminAuthDb(db, jar).Authenticated?
    ensures var r := GetComplaints(db, jar, status, false);
            && r.Ok?
            && (!StatusFilterActive(status) ==> |r.value| == |db.complaints|)
            && (forall i :: 0 <= i < |r.value| ==> !StatusFilterActive(status) || r.value[i].status == status.value)
            && (forall c :: c in db.complaints && Listed(c, status) ==>
                  exists k :: 0 <= k < |r.value| && r.value[k] == Format(c))
  {
    var r := GetComplaints(db, jar, status, false);
    var rows := ListedRows(db, status);
    forall i | 0 <= i < |r.value| ensures !StatusFilterActive(status) || r.value[i].status == status.value {
      assert Unformat(r.value[i], rows[i].user_id) == rows[i];
    }
    forall c | c in db.complaints && Listed(c, status)
      ensures exists k :: 0 <= k < |r.value| && r.value[k] == Format(c)
    {
      var i :| 0 <= i < |db.complaints| && db.complaints[i] == c;
      var k :| 0 <= k < |rows| && rows[k] == c;
      FormatIgnoresOnlyOwner(Unformat(r.value[k], c.user_id), c);
      assert r.value[k] == Format(c);
    }
  }

  /**
    `getComplaintDetails(id)`: the unique row with that id, formatted; a failed query
    (`lookupFails`) reads as not found.
   */
  function GetComplaintDetails(db: Db, jar: Jar, id: string, lookupFails: bool): (r: Result<FormattedComplaint, Error>)
    ensures CheckAdminAuthDb(db, jar).Unauthenticated? ==> r == Err(Msg(ReportActions.NotAuthenticated))
    ensures CheckAdminAuthDb(db, jar).Authenticated? && (lookupFails || !HasComplaintId(db.complaints, id)) ==>
              r == Err(Msg(ComplaintNotFound))
    ensures r.Ok? ==> exists c :: c in db.complaints && c.id == id && r.value == Format(c)
  {
    if CheckAdminAuthDb(db, jar).Unauthenticated? then Err(Msg(ReportActions.NotAuthenticated))
    else if lookupFails then Err(Msg(ComplaintNotFound))
    else
      match Single(db.complaints, (c: Complaint) => c.id == id)
      case None => Err(Msg(ComplaintNotFound))
      case Some(c) => Ok(Format(c))
  }

  /** With unique ids, an admin asking for a stored complaint gets that row, formatted. */
  lemma ComplaintDetailsFound(db: Db, jar: Jar, c: Complaint)
    requires CheckAdminAuthDb(db, jar).Authenticated?
    requires UniqueComplaints(db.complaints) && c in db.complaints
    ensures GetComplaintDetails(db, jar, c.id, false) == Ok(Format(c))
  {
    var p := (x: Complaint) => x.id == c.id;
    assert AtMostOne(db.complaints, p);
    SingleUnique(db.complaints, p);
    var w := Single(db.complaints, p).value;
    assert w == c by {
      var i :| 0 <= i < |db.complaints| && db.complaints[i] == c;
      var j :| 0 <= j < |db.complaints| && db.complaints[j] == w;
      assert db.complaints[i].id == db.complaints[j].id;
    }
  }

  /** `.update({ status, admin_notes, public_notes }).eq("id", id)`: every other column and row is kept. */
  function SetStatus(cs: seq<Complaint>, id: string, status: string, adminNotes: string, publicNotes: string): (r: seq<Complaint>)
    ensures |r| == |cs|
    ensures forall i :: 0 <= i < |cs| && cs[i].id == id ==>
              r[i] == cs[i].(status := status, admin_notes := Some(adminNotes), public_notes := Some(publicNotes))
    ensures forall i :: 0 <= i < |cs| && cs[i].id != id ==> r[i] == cs[i]
  {
    seq(|cs|, i requires 0 <= i < |cs| =>
      if cs[i].id == id then cs[i].(status := status, admin_notes := Some(adminNotes), public_notes := Some(publicNotes))
      else cs[i])
  }

  /** An insert whose failure is ignored: the database is unchanged when it fails. */
  function InsertHistoryIgnoringFailure(db: Db, h: HistoryEntry, fault: bool): (r: Db)
    ensures !fault && HasComplaintId(db.complaints, h.complaint_id) ==> r == db.(history := db.history + [h])
    ensures fault || !HasComplaintId(db.complaints, h.complaint_id) ==> r == db
  {
    match InsertHistory(db, h, fault)
    case Ok(db1) => db1
    case Err(_) => db
  }

  /** The history row an admin's update appends. */
  function UpdateEntry(id: string, status: string, adminNotes: string, admin: User, now: int): HistoryEntry {
    HistoryEntry(id, status, Some(adminNotes), Some(admin.id), now)
  }

  /**
    `updateComplaintStatus(id, status, adminNotes, publicNotes)`: a failed update returns
    the database error and writes no history; otherwise the history row follows, and its
    own failure (or a missing complaint) does not change the success answer.
   */
  function UpdateComplaintStatus(db: Db, jar: Jar, id: string, status: string, adminNotes: string, publicNotes: string,
                                 now: int, updateFails: bool, historyFails: bool): (r: (Outcome<Error>, Db))
    ensures CheckAdminAuthDb(db, jar).Unauthenticated? ==> r == (Fail(Msg(ReportActions.NotAuthenticated)), db)
    ensures r.0.Fail? ==> r.1 == db
    ensures r.0.Pass? <==> CheckAdminAuthDb(db, jar).Authenticated? && !updateFails
    ensures r.0.Pass? ==>
              && r.1.users == db.users && r.1.evidence == db.evidence
              && |r.1.complaints| == |db.complaints|
              && (forall i :: 0 <= i < |db.complaints| && db.complaints[i].id != id ==> r.1.complaints[i] == db.complaints[i])
              && (forall i :: 0 <= i < |db.complaints| && db.complaints[i].id == id ==>
                    && r.1.complaints[i].status == status
                    && r.1.complaints[i].admin_notes == Some(adminNotes)
                    && r.1.complaints[i].public_notes == Some(publicNotes)
                    && r.1.complaints[i].(status := db.complaints[i].status, admin_notes := db.complaints[i].admin_notes,
                                          public_notes := db.complaints[i].public_notes) == db.complaints[i])
    ensures r.0.Pass? && !historyFails && HasComplaintId(db.complaints, id) ==>
              r.1.history == db.history + [UpdateEntry(id, status, adminNotes, CheckAdminAuthDb(db, jar).user, now)]
    ensures r.0.Pass? && (historyFails || !HasComplaintId(db.complaints, id)) ==> r.1.history == db.history
  {
    match CheckAdminAuthDb(db, jar)
    case Unauthenticated => (Fail(Msg(ReportActions.NotAuthenticated)), db)
    case Authenticated(admin) =>
      if updateFails then (Fail(DbError(Unavailable)), db)
      else
        var db1 := db.(complaints := SetStatus(db.complaints, id, status, adminNotes, publicNotes));
        assert HasComplaintId(db1.complaints, id) <==> HasComplaintId(db.complaints, id) by {
          if HasComplaintId(db.complaints, id) {
            var i :| 0 <= i < |db.complaints| && db.complaints[i].id == id;
            assert db1.complaints[i].id == id;
          }
        }
        (Pass, InsertHistoryIgnoringFailure(db1, UpdateEntry(id, status, adminNotes, admin, now), historyFails))
  }

  /**
    There is no transition guard: an authenticated admin may move a complaint from any
    status to any string, `Pending` included.
   */
  lemma AnyStatusChangeAccepted(db: Db, jar: Jar, c: Complaint, status: string, adminNotes: string, publicNotes: string, now: int)
    requires CheckAdminAuthDb(db, jar).Authenticated? && c in db.complaints
    ensures var (res, db') := UpdateComplaintStatus(db, jar, c.id, status, adminNotes, publicNotes, now, false, false);
            && res.Pass?
            && exists i :: 0 <= i < |db'.complaints| && db.complaints[i] == c && db'.complaints[i].status == status
  {
    var i :| 0 <= i < |db.complaints| && db.complaints[i] == c;
    var db' := UpdateComplaintStatus(db, jar, c.id, status, adminNotes, publicNotes, now, false, false).1;
    assert db'.complaints[i].status == status;
  }

  /** Updating an id no complaint has still reports success, and changes nothing. */
  lemma UpdateOfMissingIdSucceeds(db: Db, jar: Jar, id: string, status: string, adminNotes: string, publicNotes: string,
                                  now: int, historyFails: bool)
    requires CheckAdminAuthDb(db, jar).Authenticated? && !HasComplaintId(db.complaints, id)
    ensures UpdateComplaintStatus(db, jar, id, status, adminNotes, publicNotes, now, false, historyFails) == (Pass, db)
  {
    var db' := UpdateComplaintStatus(db, jar, id, status, adminNotes, publicNotes, now, false, historyFails).1;
    assert db'.complaints == db.complaints;
  }

  /** An update keeps ids and tracking numbers, so uniqueness survives it. */
  lemma UpdateKeepsValid(db: Db, jar: Jar, id: string, status: string, adminNotes: string, publicNotes: string,
                         now: int, updateFails: bool, historyFails: bool)
    requires Valid(db)
    ensures Valid(UpdateComplaintStatus(db, jar, id, status, adminNotes, publicNotes, now, updateFails, historyFails).1)
  {
    var db' := UpdateComplaintStatus(db, jar, id, status, adminNotes, publicNotes, now, updateFails, historyFails).1;
    forall i, j | 0 <= i < j < |db'.complaints|
      ensures db'.complaints[i].id != db'.complaints[j].id
      ensures db'.complaints[i].complaint_number != db'.complaints[j].complaint_number
    {
      assert db'.complaints[i].id == db.complaints[i].id && db'.complaints[i].complaint_number == db.complaints[i].complaint_number;
      assert db'.complaints[j].id == db.complaints[j].id && db'.complaints[j].complaint_number == db.complaints[j].complaint_number;
    }
  }

  /** `getEvidenceUrlAdmin(complaintId)`: the public evidence lookup behind the admin check. */
  function GetEvidenceUrlAdmin(db: Db, jar: Jar, complaintId: string, lookupFails: bool): (r: Result<SignedUrl, Error>)
    ensures CheckAdminAuthDb(db, jar).Unauthenticated? ==> r == Err(Msg(ReportActions.NotAuthenticated))
    ensures CheckAdminAuthDb(db, jar).Authenticated? && (lookupFails || !HasComplaintId(db.complaints, complaintId)) ==>
              r == Err(Msg(ReportActions.EvidenceNotFound))
    ensures r.Ok? ==>
              && r.value.expiresIn == OneHour
              && exists c :: c in db.complaints && c.id == complaintId && c.evidence_path == Some(r.value.path)
  {
    if CheckAdminAuthDb(db, jar).Unauthenticated? then Err(Msg(ReportActions.NotAuthenticated))
    else ReportActions.GetEvidenceUrl(db, complaintId, lookupFails)
  }

  /** An admin asking for a stored complaint's evidence gets what the public lookup gives. */
  lemma EvidenceUrlAdminFound(db: Db, jar: Jar, c: Complaint)
    requires CheckAdminAuthDb(db, jar).Authenticated?
    requires UniqueComplaints(db.complaints) && c in db.complaints && ReportActions.Truthy(c.evidence_path)
    ensures GetEvidenceUrlAdmin(db, jar, c.id, false)
            == if c.evidence_path.value in db.evidence then Ok(SignedUrl(c.evidence_path.value, OneHour))
               else Err(Msg(ReportActions.UrlFailed))
  {
    ReportActions.EvidenceUrlFound(db, c);
  }

  /** A complaint without an evidence path has no evidence to sign. */
  lemma NoEvidencePathNoUrl(db: Db, jar: Jar, c: Complaint)
    requires UniqueComplaints(db.complaints) && c in db.complaints && c.evidence_path.None?
    requires CheckAdminAuthDb(db, jar).Authenticated?
    ensures GetEvidenceUrlAdmin(db, jar, c.id, false) == Err(Msg(ReportActions.EvidenceNotFound))
  {
    var p := (x: Complaint) => x.id == c.id;
    assert AtMostOne(db.complaints, p);
    SingleUnique(db.complaints, p);
  }

  /** Without an admin session every data action refuses and writes nothing. */
  lemma UnauthenticatedTouchesNothing(db: Db, jar: Jar, id: string, status: string, adminNotes: string,
                                      publicNotes: string, now: int, filter: Option<string>,
                                      fetchFails: bool, updateFails: bool, historyFails: bool, lookupFails: bool)
    requires CheckAdminAuthDb(db, jar).Unauthenticated?
    ensures GetComplaints(db, jar, filter, fetchFails) == Err(Msg(ReportActions.NotAuthenticated))
    ensures GetComplaintDetails(db, jar, id, lookupFails) == Err(Msg(ReportActions.NotAuthenticated))
    ensures UpdateComplaintStatus(db, jar, id, status, adminNotes, publicNotes, now, updateFails, historyFails)
              == (Fail(Msg(ReportActions.NotAuthenticated)), db)
    ensures GetEvidenceUrlAdmin(db, jar, id, lookupFails) == Err(Msg(ReportActions.NotAuthenticated))
  {
  }
}
