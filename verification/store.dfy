/**
  The persistent state the server actions read and write: the `complaints`,
  `complaint_history` and `users` tables and the private `evidence` storage bucket.
  Row fields carry the column names. Inserts enforce the schema's constraints (unique
  complaint id and number, unique user id and e-mail, history rows referencing an existing
  complaint); a `fault` flag stands for any other database or storage failure.
 */
module Store {
  import opened Wrappers

  datatype DbFailure = UniqueViolation | ForeignKeyViolation | Unavailable

  /** A failure reason: a message the action writes itself, or the database's own error text. */
  datatype Error = Msg(text: string) | DbError(failure: DbFailure)

  /** An uploaded `File`: its name, byte size and MIME type. */
  datatype File = File(name: string, size: nat, mimeType: string)

  /** A row of `complaints`. */
  datatype Complaint = Complaint(
    id: string,
    complaint_number: string,
    user_id: Option<string>,
    incident_date: string,
    incident_time: string,
    incident_location: string,
    category: Option<string>,
    description: string,
    status: string,
    admin_notes: Option<string>,
    public_notes: Option<string>,
    evidence_path: Option<string>,
    evidence_file_name: Option<string>,
    evidence_file_type: Option<string>,
    anonymous: bool,
    submission_date: int)

  /** A row of `complaint_history`; `created_at` is the database clock in milliseconds. */
  datatype HistoryEntry = HistoryEntry(
    complaint_id: string,
    status: string,
    notes: Option<string>,
    admin_id: Option<string>,
    created_at: int)

  /** A row of `users`; `password` holds the bcrypt hash. */
  datatype User = User(
    id: string,
    email: string,
    password: string,
    full_name: string,
    role: string,
    email_verified: bool,
    verification_token: Option<string>)

  datatype Db = Db(
    complaints: seq<Complaint>,
    history: seq<HistoryEntry>,
    users: seq<User>,
    evidence: set<string>)

  predicate HasComplaintId(cs: seq<Complaint>, id: string) {
    exists i :: 0 <= i < |cs| && cs[i].id == id
  }

  predicate HasComplaintNumber(cs: seq<Complaint>, n: string) {
    exists i :: 0 <= i < |cs| && cs[i].complaint_number == n
  }

  predicate HasUserId(us: seq<User>, id: string) {
    exists i :: 0 <= i < |us| && us[i].id == id
  }

  predicate HasUserEmail(us: seq<User>, email: string) {
    exists i :: 0 <= i < |us| && us[i].email == email
  }

  /** Complaint ids and tracking numbers are unique. */
  predicate UniqueComplaints(cs: seq<Complaint>) {
    forall i, j :: 0 <= i < j < |cs| ==> cs[i].id != cs[j].id && cs[i].complaint_number != cs[j].complaint_number
  }

  /** User ids and e-mail addresses are unique. */
  predicate UniqueUsers(us: seq<User>) {
    forall i, j :: 0 <= i < j < |us| ==> us[i].id != us[j].id && us[i].email != us[j].email
  }

  predicate Valid(db: Db) {
    UniqueComplaints(db.complaints) && UniqueUsers(db.users)
  }

  /** `insert` into `complaints`: rejected on a duplicate id or tracking number, never overwriting. */
  function InsertComplaint(db: Db, c: Complaint, fault: bool): (r: Result<Db, Error>)
    ensures r.Ok? <==> !fault && !HasComplaintId(db.complaints, c.id) && !HasComplaintNumber(db.complaints, c.complaint_number)
    ensures r.Ok? ==> r.value == db.(complaints := db.complaints + [c])
    ensures r.Err? ==> r.error.DbError?
    ensures r.Ok? && UniqueComplaints(db.complaints) ==> UniqueComplaints(r.value.complaints)
  {
    if fault then Err(DbError(Unavailable))
    else if HasComplaintId(db.complaints, c.id) || HasComplaintNumber(db.complaints, c.complaint_number) then
      Err(DbError(UniqueViolation))
    else
      Ok(db.(complaints := db.complaints + [c]))
  }

  /** `insert` into `complaint_history`: the referenced complaint must exist. */
  function InsertHistory(db: Db, h: HistoryEntry, fault: bool): (r: Result<Db, Error>)
    ensures r.Ok? <==> !fault && HasComplaintId(db.complaints, h.complaint_id)
    ensures r.Ok? ==> r.value == db.(history := db.history + [h])
  {
    if fault then Err(DbError(Unavailable))
    else if !HasComplaintId(db.complaints, h.complaint_id) then Err(DbError(ForeignKeyViolation))
    else Ok(db.(history := db.history + [h]))
  }

  /** `insert` into `users`: rejected on a duplicate id or e-mail address. */
  function InsertUser(db: Db, u: User, fault: bool): (r: Result<Db, Error>)
    ensures r.Ok? <==> !fault && !HasUserId(db.users, u.id) && !HasUserEmail(db.users, u.email)
    ensures r.Ok? ==> r.value == db.(users := db.users + [u])
    ensures r.Err? ==> r.error.DbError?
    ensures r.Ok? && UniqueUsers(db.users) ==> UniqueUsers(r.value.users)
  {
    if fault then Err(DbError(Unavailable))
    else if HasUserId(db.users, u.id) || HasUserEmail(db.users, u.email) then Err(DbError(UniqueViolation))
    else Ok(db.(users := db.users + [u]))
  }

  /** A storage upload without `upsert`: an existing object at `path` makes it fail. */
  function Upload(db: Db, path: string, fault: bool): (r: Result<Db, Error>)
    ensures r.Ok? <==> !fault && path !in db.evidence
    ensures r.Ok? ==> r.value == db.(evidence := db.evidence + {path})
  {
    if fault || path in db.evidence then Err(DbError(Unavailable)) else Ok(db.(evidence := db.evidence + {path}))
  }

  /** A time-limited download link for a stored object; `expiresIn` is in seconds. */
  datatype SignedUrl = SignedUrl(path: string, expiresIn: nat)

  /** `createSignedUrl(path, ttl)`: only an object that exists in the bucket can be signed. */
  function CreateSignedUrl(db: Db, path: string, ttl: nat): (r: Option<SignedUrl>)
    ensures r.Some? <==> path in db.evidence
    ensures r.Some? ==> r.value.path == path && r.value.expiresIn == ttl
  {
    if path in db.evidence then Some(SignedUrl(path, ttl)) else None
  }

  /** Link lifetimes used by the actions: one hour, and seven days after a submission. */
  const OneHour: nat := 60 * 60
  const SevenDays: nat := 60 * 60 * 24 * 7
}
