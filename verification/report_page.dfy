/**
  The report page (app/report/page.tsx): the form's state, the events that change it, and
  `handleSubmit`, which checks the required fields, assembles the form data for
  `submitReport` and resets the form when the report is accepted.
 */
module ReportPage {
  import opened Wrappers
  import opened Store
  import opened ReportActions

  const FillRequiredFields: string := "Please fill in all required fields"
  const SubmitFailed: string := "Failed to submit report. Please try again."

  datatype PageState = PageState(
    authenticated: bool,
    anonymous: bool,
    incidentDate: string,
    incidentTime: string,
    incidentLocation: string,
    incidentCategory: string,
    incidentDescription: string,
    evidence: Option<File>,
    error: Option<string>,
    success: bool,
    complaintNumber: Option<string>)

  /** The page as first rendered: not yet known to be logged in, anonymous ticked, fields empty. */
  const Initial: PageState :=
    PageState(false, true, "", "", "", "", "", None, None, false, None)

  datatype Field = Date | Time | Location | Category | Description

  /**
    What can happen before a submission: the mount-time `checkUserAuth` answer, typing
    into a field, choosing files, and ticking the checkbox.
   */
  datatype Event = AuthChecked(authenticated: bool) | Typed(field: Field, value: string)
                 | FilesChosen(files: seq<File>) | AnonymousChecked(checked: bool)

  /**
    One event. The anonymous checkbox is rendered only for a logged-in visitor, so its
    event changes nothing otherwise; an empty file selection keeps the previous file.
   */
  function Step(s: PageState, e: Event): (s': PageState)
    ensures e.AuthChecked? ==> s' == s.(authenticated := e.authenticated)
    ensures s'.anonymous != s.anonymous ==> s.authenticated && e == AnonymousChecked(s'.anonymous)
    ensures s'.evidence != s.evidence ==> e.FilesChosen? && |e.files| > 0 && s'.evidence == Some(e.files[0])
  {
    match e
    case AuthChecked(a) => s.(authenticated := a)
    case Typed(Date, v) => s.(incidentDate := v)
    case Typed(Time, v) => s.(incidentTime := v)
    case Typed(Location, v) => s.(incidentLocation := v)
    case Typed(Category, v) => s.(incidentCategory := v)
    case Typed(Description, v) => s.(incidentDescription := v)
    case FilesChosen(files) => if |files| > 0 then s.(evidence := Some(files[0])) else s
    case AnonymousChecked(checked) => if s.authenticated then s.(anonymous := checked) else s
  }

  function Run(s: PageState, events: seq<Event>): PageState
    decreases |events|
  {
    if |events| == 0 then s else Run(Step(s, events[0]), events[1..])
  }

  /** `!incidentDate || !incidentTime || !incidentLocation || !incidentDescription` fails. */
  predicate ClientReady(s: PageState) {
    s.incidentDate != "" && s.incidentTime != "" && s.incidentLocation != "" && s.incidentDescription != ""
  }

  /**
    The `FormData` sent: the five text fields (category even when empty), `anonymous` as
    `"true"` or `"false"`, and the evidence only when a file was chosen.
   */
  function FormData(s: PageState): (f: ReportForm)
    ensures f.incidentCategory == Some(s.incidentCategory)
    ensures f.evidence.Some? <==> s.evidence.Some?
    ensures f.anonymous == Some("true") <==> s.anonymous
  {
    ReportForm(Some(s.incidentDate), Some(s.incidentTime), Some(s.incidentLocation), Some(s.incidentCategory),
               Some(s.incidentDescription), Some(if s.anonymous then "true" else "false"), s.evidence)
  }

  /** The page's own check is the action's required-field check on the data it sends. */
  lemma ClientCheckMatchesServer(s: PageState)
    ensures ClientReady(s) <==> RequiredFilled(FormData(s))
  {
  }

  /** What `submitReport` answered: the tracking number, or the error it gave (if any). */
  datatype SubmitResponse = Submitted(complaintNumber: string) | Rejected(error: Option<string>)

  /** After an accepted report the five text fields and the file are cleared; nothing else is. */
  function Reset(s: PageState): (s': PageState)
    ensures s'.incidentDate == "" && s'.incidentTime == "" && s'.incidentLocation == ""
    ensures s'.incidentCategory == "" && s'.incidentDescription == "" && s'.evidence.None?
    ensures s'.anonymous == s.anonymous && s'.authenticated == s.authenticated
  {
    s.(incidentDate := "", incidentTime := "", incidentLocation := "", incidentCategory := "",
       incidentDescription := "", evidence := None)
  }

  /**
    `handleSubmit`: the new state and the form data sent, if any. `submit` stands for the
    server action's answer to that form data.
   */
  function HandleSubmit(s: PageState, submit: ReportForm -> SubmitResponse): (r: (PageState, Option<ReportForm>))
    ensures r.1.Some? <==> ClientReady(s)
    ensures !ClientReady(s) ==> r.0 == s.(error := Some(FillRequiredFields))
    ensures r.1.Some? ==> r.1.value == FormData(s)
    ensures r.1.Some? && submit(r.1.value).Submitted? ==>
              && r.0.success && r.0.complaintNumber == Some(submit(r.1.value).complaintNumber) && r.0.error.None?
              && r.0.incidentDate == "" && r.0.incidentDescription == "" && r.0.evidence.None?
              && r.0.anonymous == s.anonymous
    ensures r.1.Some? && submit(r.1.value).Submitted? ==>
              r.0 == Reset(s).(success := true, complaintNumber := Some(submit(r.1.value).complaintNumber), error := None)
    ensures r.1.Some? && submit(r.1.value).Rejected? ==>
              && r.0.error.Some? && r.0.success == s.success
              && r.0.(error := s.error) == s
  {
    if !ClientReady(s) then (s.(error := Some(FillRequiredFields)), None)
    else
      var form := FormData(s);
      match submit(form)
      case Submitted(number) => (Reset(s).(success := true, complaintNumber := Some(number), error := None), Some(form))
      case Rejected(e) => (s.(error := Some(if e.Some? && e.value != "" then e.value else SubmitFailed)), Some(form))
  }

  /** A visitor the page never found logged in keeps `anonymous` ticked through any events. */
  lemma {:induction false} LoggedOutStaysAnonymous(s: PageState, events: seq<Event>)
    requires !s.authenticated && s.anonymous
    requires forall i :: 0 <= i < |events| ==> events[i] != AuthChecked(true)
    ensures Run(s, events).anonymous && !Run(s, events).authenticated
    decreases |events|
  {
    if |events| > 0 {
      var s1 := Step(s, events[0]);
      assert !s1.authenticated && s1.anonymous;
      assert forall i :: 0 <= i < |events[1..]| ==> events[1..][i] == events[i + 1];
      LoggedOutStaysAnonymous(s1, events[1..]);
    }
  }

  /** So a logged-out visitor's report is always sent with `anonymous` set to `"true"`. */
  lemma LoggedOutSendsAnonymous(events: seq<Event>, submit: ReportForm -> SubmitResponse)
    requires forall i :: 0 <= i < |events| ==> events[i] != AuthChecked(true)
    ensures var sent := HandleSubmit(Run(Initial, events), submit).1;
            sent.Some? ==> sent.value.anonymous == Some("true")
  {
    LoggedOutStaysAnonymous(Initial, events);
  }
}
