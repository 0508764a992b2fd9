/**
  The student-facing server actions (app/actions/report-actions.ts): submitting a report
  with optional evidence, looking a complaint up by tracking number, listing the caller's
  own complaints, and signing an evidence download link. The random draw, the upload clock,
  the database-generated id and timestamp, and every database or storage failure are inputs
  gathered in `SubmitEnv`.
 */
module ReportActions {
  import opened Wrappers
  import opened Queries
  import opened Sessions
  import opened Store
  import opened Identifiers
  import opened AuthActions

  /** Five mebibytes, the evidence size ceiling. */
  const MaxFileSize: nat := 5 * 1024 * 1024

  const AllowedFileTypes: seq<string> := [
    "image/jpeg",
    "image/png",
    "image/gif",
    "application/pdf",
    "application/msword",
    "application/vnd.openxmlformats-officedocument.wordprocessingml.document"
  ]

  const PendingStatus: string := "Pending"
  const SubmittedNote: string := "Complaint submitted"

  const RequiredFieldsMissing: string := "Please fill in all required fields"
  const FileTooLarge: string := "File size exceeds the maximum limit of 5MB"
  const FileTypeNotAllowed: string := "File type not allowed. Please upload an image, PDF, or document file"
  const UploadFailed: string := "Failed to upload evidence file. Please try again."
  const NumberNotFound: string := "No complaint found with that number. Please check and try again."
  const NotAuthenticated: string := "Not authenticated"
  const EvidenceNotFound: string := "Evidence not found"
  const UrlFailed: string := "Failed to generate download URL"

  /** The submitted `FormData`; a field the form did not send reads as `None`. */
  datatype ReportForm = ReportForm(
    incidentDate: Option<string>,
    incidentTime: Option<string>,
    incidentLocation: Option<string>,
    incidentCategory: Option<string>,
    incidentDescription: Option<string>,
    anonymous: Option<string>,
    evidence: Option<File>)

  /**
    What the submission cannot compute itself: the year and `Math.random` draw behind the
    tracking number, `Date.now()` at upload, the row id and `submission_date` the database
    assigns, and whether the upload, the complaint insert or the history insert fail.
   */
  datatype SubmitEnv = SubmitEnv(
    year: int,
    draw: nat,
    uploadTime: nat,
    complaintId: string,
    now: int,
    uploadFails: bool,
    insertFails: bool,
    historyFails: bool)

  /** A form value JavaScript treats as truthy: sent and non-empty. */
  predicate Filled(v: Option<string>) {
    v.Some? && v.value != ""
  }

  /** A column value `if (value)` accepts: non-null and non-empty. */
  predicate Truthy(v: Option<string>) {
    v.Some? && v.value != ""
  }

  /** The four fields the action insists on. */
  predicate RequiredFilled(f: ReportForm) {
    Filled(f.incidentDate) && Filled(f.incidentTime) && Filled(f.incidentLocation) && Filled(f.incidentDescription)
  }

  /** `incidentCategory || null`. */
  function StoredCategory(v: Option<string>): (r: Option<string>)
    ensures r.None? <==> !Filled(v)
    ensures r.Some? ==> r == v
  {
    if Filled(v) then v else None
  }

  /** The size check precedes the type check; a file of exactly `MaxFileSize` bytes passes. */
  function ValidateEvidence(f: File): (r: Outcome<Error>)
    ensures r.Pass? <==> f.size <= MaxFileSize && f.mimeType in AllowedFileTypes
    ensures f.size > MaxFileSize ==> r == Fail(Msg(FileTooLarge))
    ensures f.size <= MaxFileSize && f.mimeType !in AllowedFileTypes ==> r == Fail(Msg(FileTypeNotAllowed))
  {
    if f.size > MaxFileSize then Fail(Msg(FileTooLarge))
    else if f.mimeType !in AllowedFileTypes then Fail(Msg(FileTypeNotAllowed))
    else Pass
  }

  /** The size ceiling is 5 242 880 bytes and is inclusive. */
  lemma MaxSizeIsInclusive(name: string)
    ensures MaxFileSize == 5242880
    ensures ValidateEvidence(File(name, 5242880, "application/pdf")) == Pass
    ensures ValidateEvidence(File(name, 5242881, "application/pdf")) == Fail(Msg(FileTooLarge))
  {
  }

  /** `name.split(".").pop()`: the text after the last dot, or the whole name when it has none. */
  function FileExtension(name: string): (r: string)
    ensures |r| <= |name| && r == name[|name| - |r|..]
    ensures '.' !in r
    ensures |r| < |name| ==> name[|name| - |r| - 1] == '.'
  {
    if |name| == 0 then ""
    else if name[|name| - 1] == '.' then ""
    else
      var r := FileExtension(name[..|name| - 1]);
      assert name[..|name| - 1][|name| - 1 - |r|..] + [name[|name| - 1]] == name[|name| - 1 - |r|..];
      r + [name[|name| - 1]]
  }

  /** `${complaintNumber}_${Date.now()}.${fileExt}`. */
  function EvidenceObjectName(number: string, uploadTime: nat, original: string): string {
    number + "_" + Text.IntString(uploadTime) + "." + FileExtension(original)
  }

  /** The evidence columns of a new row and the link returned to the submitter. */
  datatype StoredEvidence = StoredEvidence(
    path: Option<string>,
    fileName: Option<string>,
    fileType: Option<string>,
    url: Option<SignedUrl>)

  const NoEvidence: StoredEvidence := StoredEvidence(None, None, None, None)

  /** A file that counts as evidence: sent and non-empty. */
  predicate HasEvidence(e: Option<File>) {
    e.Some? && e.value.size > 0
  }

  /**
    The evidence branch: nothing when no non-empty file was sent; otherwise validation,
    then an upload under a fresh object name and a seven-day link to it.
   */
  function StoreEvidence(db: Db, number: string, e: Option<File>, env: SubmitEnv): (r: Result<(Db, StoredEvidence), Error>)
    ensures !HasEvidence(e) ==> r == Ok((db, NoEvidence))
    ensures HasEvidence(e) && ValidateEvidence(e.value).Fail? ==> r == Err(ValidateEvidence(e.value).error)
    ensures r.Err? && ValidateEvidence(e.value).Pass? ==> r.error == Msg(UploadFailed)
    ensures r.Ok? && HasEvidence(e) ==>
              var path := EvidenceObjectName(number, env.uploadTime, e.value.name);
              && ValidateEvidence(e.value).Pass?
              && r.value.0 == db.(evidence := db.evidence + {path})
              && r.value.1 == StoredEvidence(Some(path), Some(e.value.name), Some(e.value.mimeType), Some(SignedUrl(path, SevenDays)))
    ensures r.Ok? ==> r.value.0.complaints == db.complaints && r.value.0.history == db.history && r.value.0.users == db.users
  {
    if !HasEvidence(e) then Ok((db, NoEvidence))
    else
      var f := e.value;
      match ValidateEvidence(f)
      case Fail(err) => Err(err)
      case Pass =>
        var path := EvidenceObjectName(number, env.uploadTime, f.name);
        match Upload(db, path, env.uploadFails)
        case Err(_) => Err(Msg(UploadFailed))
        case Ok(db1) => Ok((db1, StoredEvidence(Some(path), Some(f.name), Some(f.mimeType), CreateSignedUrl(db1, path, SevenDays))))
  }

  /** The value returned on success: the tracking number and the evidence link, if any. */
  datatype Submission = Submission(complaintNumber: string, evidenceUrl: Option<SignedUrl>)

  /** The owner recorded on a new complaint: the session id whenever a student is logged in. */
  function Owner(jar: Jar): (r: Option<string>)
    ensures CheckUserAuth(jar).Unauthenticated? ==> r.None?
    ensures CheckUserAuth(jar).Authenticated? ==> r == CheckUserAuth(jar).user.id
  {
    match CheckUserAuth(jar)
    case Unauthenticated => None
    case Authenticated(p) => p.id
  }

  /** The history row seeded for a new complaint. */
  function SubmittedEntry(id: string, now: int): HistoryEntry {
    HistoryEntry(id, PendingStatus, Some(SubmittedNote), None, now)
  }

  /**
    The complaint insert followed by the seeded history row: exactly one row is appended on
    success, and the history row is appended unless its own insert fails, which is ignored.
   */
  function Persist(db: Db, c: Complaint, env: SubmitEnv): (r: Result<Db, Error>)
    ensures r.Ok? <==> !env.insertFails && !HasComplaintId(db.complaints, c.id) && !HasComplaintNumber(db.complaints, c.complaint_number)
    ensures r.Err? ==> r.error.DbError?
    ensures r.Ok? ==> r.value.complaints == db.complaints + [c] && r.value.users == db.users && r.value.evidence == db.evidence
    ensures r.Ok? && !env.historyFails ==> r.value.history == db.history + [SubmittedEntry(c.id, env.now)]
    ensures r.Ok? && env.historyFails ==> r.value.history == db.history
  {
    match InsertComplaint(db, c, env.insertFails)
    case Err(e) => Err(e)
    case Ok(db1) =>
      var h := SubmittedEntry(c.id, env.now);
      assert HasComplaintId(db1.complaints, c.id) by {
        assert db1.complaints[|db.complaints|] == c;
      }
      match InsertHistory(db1, h, env.historyFails)
      case Ok(db2) => Ok(db2)
      case Err(_) => Ok(db1)
  }

  /** The row `submitReport` inserts. */
  function NewComplaint(jar: Jar, form: ReportForm, number: string, ev: StoredEvidence, env: SubmitEnv): Complaint
    requires RequiredFilled(form)
  {
    Complaint(env.complaintId, number, Owner(jar),
              form.incidentDate.value, form.incidentTime.value, form.incidentLocation.value,
              StoredCategory(form.incidentCategory), form.incidentDescription.value,
              PendingStatus, None, None, ev.path, ev.fileName, ev.fileType,
              form.anonymous == Some("true"), env.now)
  }

  /**
    `submitReport(formData)`: required fields first, then the evidence, then the complaint
    insert, then the seeded history row, whose failure does not fail the submission. A
    failure leaves the tables alone (an evidence object already uploaded stays).
   */
  function SubmitReport(db: Db, jar: Jar, form: ReportForm, env: SubmitEnv): (r: (Result<Submission, Error>, Db))
    requires env.draw < 9000
    ensures !RequiredFilled(form) ==> r == (Err(Msg(RequiredFieldsMissing)), db)
    ensures r.0.Err? ==> r.1.complaints == db.complaints && r.1.history == db.history && r.1.users == db.users
    ensures r.0.Ok? ==> RequiredFilled(form) && r.0.value.complaintNumber == ComplaintNumber(env.year, env.draw)
    ensures r.0.Ok? ==> |r.1.complaints| == |db.complaints| + 1 && r.1.complaints[..|db.complaints|] == db.complaints
  {
    var number := ComplaintNumber(env.year, env.draw);
    if !RequiredFilled(form) then (Err(Msg(RequiredFieldsMissing)), db)
    else
      match StoreEvidence(db, number, form.evidence, env)
      case Err(e) => (Err(e), db)
      case Ok((db1, ev)) =>
        match Persist(db1, NewComplaint(jar, form, number, ev, env), env)
        case Err(e) => (Err(e), db1)
        case Ok(db2) =>
          assert db2.complaints[..|db.complaints|] == db.complaints;
          (Ok(Submission(number, ev.url)), db2)
  }

  /** A successful submission, unfolded into its evidence and persistence steps. */
  lemma SubmitSteps(db: Db, jar: Jar, form: ReportForm, env: SubmitEnv)
    requires env.draw < 9000 && SubmitReport(db, jar, form, env).0.Ok?
    ensures RequiredFilled(form)
    ensures var number := ComplaintNumber(env.year, env.draw);
            var ev := StoreEvidence(db, number, form.evidence, env);
            && ev.Ok?
            && var c := NewComplaint(jar, form, number, ev.value.1, env);
            && Persist(ev.value.0, c, env).Ok?
            && SubmitReport(db, jar, form, env).1 == Persist(ev.value.0, c, env).value
            && SubmitReport(db, jar, form, env).1.complaints[|db.complaints|] == c
            && SubmitReport(db, jar, form, env).0.value.evidenceUrl == ev.value.1.url
  {
    var number := ComplaintNumber(env.year, env.draw);
    var ev := StoreEvidence(db, number, form.evidence, env);
    var c := NewComplaint(jar, form, number, ev.value.1, env);
    var db2 := Persist(ev.value.0, c, env).value;
    assert db2.complaints == db.complaints + [c];
  }

  /** A submission missing a required field fails before any storage or database write. */
  lemma RequiredFieldsCheckedFirst(db: Db, jar: Jar, form: ReportForm, env: SubmitEnv)
    requires env.draw < 9000 && !RequiredFilled(form)
    ensures SubmitReport(db, jar, form, env) == (Err(Msg(RequiredFieldsMissing)), db)
  {
  }

  /** Rejected evidence fails the submission before the upload and the insert. */
  lemma InvalidEvidenceWritesNothing(db: Db, jar: Jar, form: ReportForm, env: SubmitEnv)
    requires env.draw < 9000 && RequiredFilled(form) && HasEvidence(form.evidence)
    requires ValidateEvidence(form.evidence.value).Fail?
    ensures SubmitReport(db, jar, form, env) == (Err(ValidateEvidence(form.evidence.value).error), db)
  {
  }

  /** A failed complaint insert fails the submission and appends no history row. */
  lemma FailedInsertAddsNoHistory(db: Db, jar: Jar, form: ReportForm, env: SubmitEnv)
    requires env.draw < 9000 && env.insertFails
    ensures SubmitReport(db, jar, form, env).0.Err?
    ensures SubmitReport(db, jar, form, env).1.complaints == db.complaints
    ensures SubmitReport(db, jar, form, env).1.history == db.history
  {
  }

  /**
    The row a successful submission appends is `Pending` with no notes, carries the
    generated id and tracking number, and is followed by exactly the seeded history row
    unless that insert failed.
   */
  lemma SubmittedRow(db: Db, jar: Jar, form: ReportForm, env: SubmitEnv)
    requires env.draw < 9000 && SubmitReport(db, jar, form, env).0.Ok?
    ensures var (res, db') := SubmitReport(db, jar, form, env);
            var c := db'.complaints[|db.complaints|];
            && c.id == env.complaintId
            && c.complaint_number == res.value.complaintNumber
            && c.status == PendingStatus
            && c.admin_notes.None? && c.public_notes.None?
            && c.submission_date == env.now
            && (!env.historyFails ==> db'.history == db.history + [SubmittedEntry(c.id, env.now)])
            && (env.historyFails ==> db'.history == db.history)
            && db'.users == db.users
  {
    SubmitSteps(db, jar, form, env);
  }

  /**
    The appended row carries the form's fields, a `null` category for an empty one, the
    `anonymous` flag as sent, and the session's student id whatever that flag says.
   */
  lemma SubmittedFields(db: Db, jar: Jar, form: ReportForm, env: SubmitEnv)
    requires env.draw < 9000 && SubmitReport(db, jar, form, env).0.Ok?
    ensures var c := SubmitReport(db, jar, form, env).1.complaints[|db.complaints|];
            && RequiredFilled(form)
            && c.incident_date == form.incidentDate.value
            && c.incident_time == form.incidentTime.value
            && c.incident_location == form.incidentLocation.value
            && c.description == form.incidentDescription.value
            && (c.category.None? <==> !Filled(form.incidentCategory))
            && (c.category.Some? ==> c.category == form.incidentCategory)
            && c.anonymous == (form.anonymous == Some("true"))
            && (CheckUserAuth(jar).Authenticated? ==> c.user_id == CheckUserAuth(jar).user.id)
            && (CheckUserAuth(jar).Unauthenticated? ==> c.user_id.None?)
  {
    SubmitSteps(db, jar, form, env);
  }

  /**
    Evidence columns are set only for a non-empty file, whose object then exists in the
    bucket and whose seven-day link is returned.
   */
  lemma SubmittedEvidence(db: Db, jar: Jar, form: ReportForm, env: SubmitEnv)
    requires env.draw < 9000 && SubmitReport(db, jar, form, env).0.Ok?
    ensures var (res, db') := SubmitReport(db, jar, form, env);
            var c := db'.complaints[|db.complaints|];
            && (!HasEvidence(form.evidence) ==>
                  c.evidence_path.None? && c.evidence_file_name.None? && c.evidence_file_type.None?
                  && res.value.evidenceUrl.None? && db'.evidence == db.evidence)
            && (HasEvidence(form.evidence) ==>
                  && ValidateEvidence(form.evidence.value).Pass?
                  && c.evidence_path.Some? && c.evidence_path.value in db'.evidence
                  && c.evidence_file_name == Some(form.evidence.value.name)
                  && c.evidence_file_type == Some(form.evidence.value.mimeType)
                  && res.value.evidenceUrl == Some(SignedUrl(c.evidence_path.value, SevenDays)))
  {
    SubmitSteps(db, jar, form, env);
  }

  /**
    The `anonymous` flag does not hide the submitter: a logged-in student's anonymous
    report still records the student's id.
   */
  lemma AnonymousReportStillOwned(db: Db, jar: Jar, form: ReportForm, env: SubmitEnv, id: string)
    requires env.draw < 9000
    requires form.anonymous == Some("true")
    requires jar == SetSession(map[], UserSessionCookie, Payload(Some(id), None, Some(StudentRole), None))
    requires SubmitReport(db, jar, form, env).0.Ok?
    ensures var db' := SubmitReport(db, jar, form, env).1;
            && db'.complaints[|db.complaints|].anonymous
            && db'.complaints[|db.complaints|].user_id == Some(id)
  {
    SubmittedFields(db, jar, form, env);
  }

  /** With the required fields present, no evidence and fresh keys, a submission succeeds. */
  lemma SubmissionSucceeds(db: Db, jar: Jar, form: ReportForm, env: SubmitEnv)
    requires env.draw < 9000 && RequiredFilled(form) && !HasEvidence(form.evidence) && !env.insertFails
    requires !HasComplaintId(db.complaints, env.complaintId)
    requires !HasComplaintNumber(db.complaints, ComplaintNumber(env.year, env.draw))
    ensures SubmitReport(db, jar, form, env).0 == Ok(Submission(ComplaintNumber(env.year, env.draw), None))
  {
  }

  /** A complaint as the status lookup and the owner's list return it: the row plus a link. */
  datatype ComplaintView = ComplaintView(complaint: Complaint, evidenceUrl: Option<SignedUrl>)

  /** The one-hour link attached to a row with evidence. */
  function ViewOf(db: Db, c: Complaint): (v: ComplaintView)
    ensures v.complaint == c
    ensures v.evidenceUrl.Some? <==> Truthy(c.evidence_path) && c.evidence_path.value in db.evidence
    ensures v.evidenceUrl.Some? ==> v.evidenceUrl.value == SignedUrl(c.evidence_path.value, OneHour)
  {
    ComplaintView(c, if Truthy(c.evidence_path) then CreateSignedUrl(db, c.evidence_path.value, OneHour) else None)
  }

  /**
    `checkComplaintStatus(number)`: the row whose tracking number equals `number` exactly,
    returned whole, `admin_notes` included, with its evidence link. `lookupFails` stands for
    a query error, which reads as not found.
   */
  function CheckComplaintStatus(db: Db, number: string, lookupFails: bool): (r: Result<ComplaintView, Error>)
    ensures r.Ok? ==> r.value.complaint in db.complaints && r.value.complaint.complaint_number == number
    ensures r.Ok? ==> r.value == ViewOf(db, r.value.complaint)
    ensures r.Err? ==> r.error == Msg(NumberNotFound)
    ensures lookupFails || !HasComplaintNumber(db.complaints, number) ==> r.Err?
  {
    if lookupFails then Err(Msg(NumberNotFound))
    else match Single(db.complaints, (c: Complaint) => c.complaint_number == number)
    case None => Err(Msg(NumberNotFound))
    case Some(c) => Ok(ViewOf(db, c))
  }

  /** With unique tracking numbers, a stored complaint is found by its number, notes and all. */
  lemma StatusLookupFindsRow(db: Db, c: Complaint)
    requires UniqueComplaints(db.complaints) && c in db.complaints
    ensures CheckComplaintStatus(db, c.complaint_number, false).Ok?
    ensures CheckComplaintStatus(db, c.complaint_number, false).value.complaint == c
    ensures CheckComplaintStatus(db, c.complaint_number, false).value.complaint.admin_notes == c.admin_notes
  {
    var p := (x: Complaint) => x.complaint_number == c.complaint_number;
    assert AtMostOne(db.complaints, p);
    SingleUnique(db.complaints, p);
  }

  /** A tracking number handed out by a successful submission looks up the submitted row. */
  lemma SubmittedReportIsFound(db: Db, jar: Jar, form: ReportForm, env: SubmitEnv)
    requires env.draw < 9000 && Valid(db)
    requires SubmitReport(db, jar, form, env).0.Ok?
    ensures var (res, db') := SubmitReport(db, jar, form, env);
            && CheckComplaintStatus(db', res.value.complaintNumber, false).Ok?
            && CheckComplaintStatus(db', res.value.complaintNumber, false).value.complaint == db'.complaints[|db.complaints|]
  {
    SubmitSteps(db, jar, form, env);
    var (res, db') := SubmitReport(db, jar, form, env);
    var c := db'.complaints[|db.complaints|];
    assert UniqueComplaints(db'.complaints);
    assert c in db'.complaints;
    StatusLookupFindsRow(db', c);
  }

  /** The session's student id, or `None` when the payload carries no id. */
  predicate OwnedBy(c: Complaint, uid: Option<string>) {
    c.user_id.Some? && c.user_id == uid
  }

  function SubmissionDate(c: Complaint): int {
    c.submission_date
  }

  /** `.eq("user_id", id)` as a row predicate. */
  function OwnedRows(uid: Option<string>): Complaint -> bool {
    (c: Complaint) => OwnedBy(c, uid)
  }

  /**
    `.eq("user_id", id).order("submission_date", { ascending: false })`: every row the
    student owns and nothing else, newest submission first.
   */
  function OwnComplaints(db: Db, uid: Option<string>): (rows: seq<Complaint>)
    ensures forall i :: 0 <= i < |rows| ==> rows[i] in db.complaints && OwnedBy(rows[i], uid)
    ensures forall i :: 0 <= i < |db.complaints| && OwnedBy(db.complaints[i], uid) ==> db.complaints[i] in rows
    ensures multiset(rows) == multiset(Filter(db.complaints, OwnedRows(uid)))
    ensures forall i, j :: 0 <= i < j < |rows| ==> rows[i].submission_date >= rows[j].submission_date
  {
    var owned := Filter(db.complaints, OwnedRows(uid));
    SortDescSameRows(owned, SubmissionDate);
    SortDesc(owned, SubmissionDate)
  }

  /**
    `getUserComplaints()`: the logged-in student's complaints, newest submission first, each
    with a one-hour evidence link. `fetchFails` stands for a query error.
   */
  function GetUserComplaints(db: Db, jar: Jar, fetchFails: bool): (r: Result<seq<ComplaintView>, Error>)
    ensures CheckUserAuth(jar).Unauthenticated? ==> r == Err(Msg(NotAuthenticated))
    ensures r.Ok? ==> CheckUserAuth(jar).Authenticated? && !fetchFails
    ensures r.Ok? ==>
              var rows := OwnComplaints(db, CheckUserAuth(jar).user.id);
              |r.value| == |rows| && forall i :: 0 <= i < |rows| ==> r.value[i] == ViewOf(db, rows[i])
  {
    match CheckUserAuth(jar)
    case Unauthenticated => Err(Msg(NotAuthenticated))
    case Authenticated(p) =>
      if fetchFails then Err(DbError(Unavailable))
      else
        var rows := OwnComplaints(db, p.id);
        Ok(seq(|rows|, i requires 0 <= i < |rows| => ViewOf(db, rows[i])))
  }

  /**
    A logged-in student's list holds exactly the complaints filed under the session id,
    newest first: never someone else's, and none of the student's own missing.
   */
  lemma UserListIsOwnRows(db: Db, jar: Jar)
    requires CheckUserAuth(jar).Authenticated?
    ensures var r := GetUserComplaints(db, jar, false);
            var uid := CheckUserAuth(jar).user.id;
            && r.Ok?
            && (forall i :: 0 <= i < |r.value| ==> r.value[i].complaint in db.complaints && OwnedBy(r.value[i].complaint, uid))
            && (forall c :: c in db.complaints && OwnedBy(c, uid) ==>
                  exists k :: 0 <= k < |r.value| && r.value[k].complaint == c)
            && (forall i, j :: 0 <= i < j < |r.value| ==>
                  r.value[i].complaint.submission_date >= r.value[j].complaint.submission_date)
  {
    var r := GetUserComplaints(db, jar, false);
    var uid := CheckUserAuth(jar).user.id;
    var rows := OwnComplaints(db, uid);
    forall c | c in db.complaints && OwnedBy(c, uid)
      ensures exists k :: 0 <= k < |r.value| && r.value[k].complaint == c
    {
      var i :| 0 <= i < |db.complaints| && db.complaints[i] == c;
      var k :| 0 <= k < |rows| && rows[k] == c;
      assert r.value[k].complaint == c;
    }
  }

  /**
    `getEvidenceUrl(complaintId)`: no session is required. A missing complaint or one with
    no evidence path gives "Evidence not found", and so does a failed query (`lookupFails`);
    an object the bucket cannot sign gives the download-link error.
   */
  function GetEvidenceUrl(db: Db, complaintId: string, lookupFails: bool): (r: Result<SignedUrl, Error>)
    ensures lookupFails || !HasComplaintId(db.complaints, complaintId) ==> r == Err(Msg(EvidenceNotFound))
    ensures r.Err? ==> r.error in {Msg(EvidenceNotFound), Msg(UrlFailed)}
    ensures r.Ok? ==>
              && r.value.expiresIn == OneHour
              && r.value.path in db.evidence
              && exists c :: c in db.complaints && c.id == complaintId && c.evidence_path == Some(r.value.path)
  {
    if lookupFails then Err(Msg(EvidenceNotFound))
    else match Single(db.complaints, (c: Complaint) => c.id == complaintId)
    case None => Err(Msg(EvidenceNotFound))
    case Some(c) =>
      if !Truthy(c.evidence_path) then Err(Msg(EvidenceNotFound))
      else match CreateSignedUrl(db, c.evidence_path.value, OneHour)
        case None => Err(Msg(UrlFailed))
        case Some(u) => Ok(u)
  }

  /**
    With unique ids, a stored complaint with an evidence path gets the one-hour link to that
    path when the object exists, and the download-link error when it does not.
   */
  lemma EvidenceUrlFound(db: Db, c: Complaint)
    requires UniqueComplaints(db.complaints) && c in db.complaints && Truthy(c.evidence_path)
    ensures GetEvidenceUrl(db, c.id, false)
            == if c.evidence_path.value in db.evidence then Ok(SignedUrl(c.evidence_path.value, OneHour))
               else Err(Msg(UrlFailed))
  {
    var p := (x: Complaint) => x.id == c.id;
    assert AtMostOne(db.complaints, p);
    SingleUnique(db.complaints, p);
    var w := Single(db.complaints, p).value;
    assert w == c by {
      var i :| 0 <= i < |db.complaints| && db.complaints[i] == c;
      var j :| 0 <= j < |db.complaints| && db.complaints[j] == w;
      assert db.complaints[i].id == db.complaints[j].id;
    }
  }
}
