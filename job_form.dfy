/** The job application form: its validation schema, the values it starts
    from when adding and when editing, the request it sends, and the reset
    after a successful create. */
module JobForm {
  import opened Wrappers
  import opened Schema
  import opened Strings

  // ---------------------------------------------------------------------------
  // Statuses
  // ---------------------------------------------------------------------------

  /** `statusOptions`: the four progress values of every status field. */
  datatype Status = NotStarted | InProgress | Completed | Rejected

  function StatusName(s: Status): string
  {
    match s
    case NotStarted => "Not Started"
    case InProgress => "In Progress"
    case Completed => "Completed"
    case Rejected => "Rejected"
  }

  /** `z.enum(statusOptions)`: accepts exactly the four names. */
  function ParseStatus(t: string): (r: Option<Status>)
    ensures r.Some? ==> StatusName(r.value) == t
  {
    if t == "Not Started" then Some(NotStarted)
    else if t == "In Progress" then Some(InProgress)
    else if t == "Completed" then Some(Completed)
    else if t == "Rejected" then Some(Rejected)
    else None
  }

  /** Every status name is accepted and read back as itself, and the accepted
      strings are exactly the four names. */
  lemma StatusRoundTrip(s: Status, t: string)
    ensures ParseStatus(StatusName(s)) == Some(s)
    ensures ParseStatus(t).Some? <==> exists s' :: StatusName(s') == t
  {
    if exists s' :: StatusName(s') == t {
      var s' :| StatusName(s') == t;
      assert ParseStatus(StatusName(s')) == Some(s');
    }
  }

  // ---------------------------------------------------------------------------
  // Form values and the schema
  // ---------------------------------------------------------------------------

  /** A form field as the schema receives it: missing (`undefined`), `null`,
      or a string. */
  datatype Value = Undefined | Null | Text(s: string)

  /** The record the form holds, keyed as the schema keys it. */
  datatype FormValues = FormValues(
    companyName: Value,
    jobTitle: Value,
    location: Value,
    salaryMin: Value,
    salaryMax: Value,
    currentDate: Value,
    applicationDate: Value,
    interviewDate: Value,
    recruiterStatus: Value,
    referralStatus: Value,
    assessmentStatus: Value,
    interviewStatus: Value,
    applicationStatus: Value,
    notes: Value)

  /** `JobFormData`: the schema's output. Nullable fields keep what they held;
      statuses are resolved to one of the four values. */
  datatype JobFormData = JobFormData(
    companyName: string,
    jobTitle: string,
    location: Value,
    salaryMin: Value,
    salaryMax: Value,
    currentDate: string,
    applicationDate: Value,
    interviewDate: Value,
    recruiterStatus: Status,
    referralStatus: Status,
    assessmentStatus: Status,
    interviewStatus: Status,
    applicationStatus: Status,
    notes: Value)

  /** Why a field was refused: missing, null where a string is needed, shorter
      than its minimum (with the schema's message), or not a status. */
  datatype IssueKind = Required | ExpectedString | TooShort(message: string) | InvalidStatus
  datatype Issue = Issue(field: string, kind: IssueKind)

  const CompanyRequired := "Company name is required"
  const TitleRequired := "Job title is required"

  /** `z.string().min(1, message)`. */
  function NonEmptyIssues(field: string, v: Value, message: string): (r: seq<Issue>)
    ensures r == [] <==> v.Text? && v.s != ""
    ensures |r| <= 1
  {
    match v
    case Undefined => [Issue(field, Required)]
    case Null => [Issue(field, ExpectedString)]
    case Text(s) => if s == "" then [Issue(field, TooShort(message))] else []
  }

  /** `z.string()`. */
  function StringIssues(field: string, v: Value): (r: seq<Issue>)
    ensures r == [] <==> v.Text?
  {
    match v
    case Undefined => [Issue(field, Required)]
    case Null => [Issue(field, ExpectedString)]
    case Text(_) => []
  }

  /** `z.enum(statusOptions).default("Not Started")`: a missing value takes the
      default; null and any other string are refused. */
  function StatusOf(v: Value): (r: Option<Status>)
    ensures v == Undefined ==> r == Some(NotStarted)
    ensures v.Null? ==> r.None?
    ensures v.Text? ==> r == ParseStatus(v.s)
  {
    match v
    case Undefined => Some(NotStarted)
    case Null => None
    case Text(t) => ParseStatus(t)
  }

  function StatusIssues(field: string, v: Value): (r: seq<Issue>)
    ensures r == [] <==> StatusOf(v).Some?
  {
    if StatusOf(v).Some? then [] else [Issue(field, InvalidStatus)]
  }

  /** Every problem the schema reports, in the order of its keys. The
      `nullish` fields accept anything the form can hold. */
  function Issues(v: FormValues): seq<Issue>
  {
    NonEmptyIssues("companyName", v.companyName, CompanyRequired)
    + NonEmptyIssues("jobTitle", v.jobTitle, TitleRequired)
    + StringIssues("currentDate", v.currentDate)
    + StatusIssues("recruiterStatus", v.recruiterStatus)
    + StatusIssues("referralStatus", v.referralStatus)
    + StatusIssues("assessmentStatus", v.assessmentStatus)
    + StatusIssues("interviewStatus", v.interviewStatus)
    + StatusIssues("applicationStatus", v.applicationStatus)
  }

  /** The conditions the schema imposes, stated field by field. */
  predicate Acceptable(v: FormValues)
  {
    v.companyName.Text? && v.companyName.s != ""
    && v.jobTitle.Text? && v.jobTitle.s != ""
    && v.currentDate.Text?
    && StatusOf(v.recruiterStatus).Some?
    && StatusOf(v.referralStatus).Some?
    && StatusOf(v.assessmentStatus).Some?
    && StatusOf(v.interviewStatus).Some?
    && StatusOf(v.applicationStatus).Some?
  }

  /** `jobSchema.safeParse(values)`: the parsed record, or every issue. */
  function Validate(v: FormValues): (r: Result<JobFormData, seq<Issue>>)
    ensures r.Success? <==> Acceptable(v)
    ensures r.Failure? ==> r.error == Issues(v) && r.error != []
    ensures r.Success? ==>
              && r.value.companyName == v.companyName.s && r.value.jobTitle == v.jobTitle.s
              && r.value.currentDate == v.currentDate.s
              && r.value.location == v.location && r.value.salaryMin == v.salaryMin
              && r.value.salaryMax == v.salaryMax && r.value.notes == v.notes
              && r.value.applicationDate == v.applicationDate
              && r.value.interviewDate == v.interviewDate
              && Some(r.value.recruiterStatus) == StatusOf(v.recruiterStatus)
              && Some(r.value.referralStatus) == StatusOf(v.referralStatus)
              && Some(r.value.assessmentStatus) == StatusOf(v.assessmentStatus)
              && Some(r.value.interviewStatus) == StatusOf(v.interviewStatus)
              && Some(r.value.applicationStatus) == StatusOf(v.applicationStatus)
  {
    if Issues(v) != [] then Failure(Issues(v))
    else
      Success(JobFormData(v.companyName.s, v.jobTitle.s, v.location, v.salaryMin, v.salaryMax,
                  v.currentDate.s, v.applicationDate, v.interviewDate,
                  StatusOf(v.recruiterStatus).value, StatusOf(v.referralStatus).value,
                  StatusOf(v.assessmentStatus).value, StatusOf(v.interviewStatus).value,
                  StatusOf(v.applicationStatus).value, v.notes))
  }

  /** An empty or missing company name or job title is always refused, with
      an issue on that field. */
  lemma MissingNameRefused(v: FormValues)
    ensures !(v.companyName.Text? && v.companyName.s != "") ==>
              Validate(v).Failure? && Validate(v).error[0].field == "companyName"
    ensures v.companyName.Text? && v.companyName.s != "" && !(v.jobTitle.Text? && v.jobTitle.s != "") ==>
              Validate(v).Failure? && Validate(v).error[0].field == "jobTitle"
  {
  }

  // ---------------------------------------------------------------------------
  // Default values
  // ---------------------------------------------------------------------------

  /** `new Date(d).toISOString().split("T")[0]`, with the rendering of an
      instant as an ISO string taken as a parameter. */
  function IsoDay(d: Date, toIso: Date -> string): string
  {
    BeforeT(toIso(d))
  }

  const NotStartedText := Text("Not Started")

  /** The values of an empty form (adding a job): today's date, all statuses
      "Not Started", empty text boxes, and no names or dates yet. */
  function NewFormDefaults(now: Date, toIso: Date -> string): (r: FormValues)
    ensures r.companyName == Undefined && r.jobTitle == Undefined
    ensures r.currentDate == Text(IsoDay(now, toIso))
    ensures r.location == r.salaryMin == r.salaryMax == r.notes == Text("")
    ensures r.applicationDate == r.interviewDate == Undefined
    ensures r.recruiterStatus == r.referralStatus == r.assessmentStatus
         == r.interviewStatus == r.applicationStatus == NotStartedText
  {
    FormValues(Undefined, Undefined, Text(""), Text(""), Text(""), Text(IsoDay(now, toIso)),
               Undefined, Undefined, NotStartedText, NotStartedText, NotStartedText,
               NotStartedText, NotStartedText, Text(""))
  }

  /** `x || ""` for a nullable text column. */
  function TextOrEmpty(o: Option<string>): (r: Value)
    ensures r.Text?
    ensures o.Some? ==> r == Text(o.value)
    ensures o.None? ==> r == Text("")
  {
    if o.Some? && o.value != "" then Text(o.value) else Text("")
  }

  /** `x?.toString() || ""` for a nullable integer column. */
  function NumberText(o: Option<int>): (r: Value)
    ensures r.Text?
    ensures o.None? ==> r == Text("")
    ensures o.Some? ==> ParseDecimal(r.s) == Some(o.value)
  {
    if o.Some? then
      IntToStringRoundTrip(o.value);
      Text(IntToString(o.value))
    else Text("")
  }

  /** The values of the edit form: the row's own fields, with nullable text
      made "", salaries as decimal text, and dates cut to their day. */
  function EditDefaults(job: Job, now: Date, toIso: Date -> string): (r: FormValues)
    ensures r.companyName == Text(job.companyName) && r.jobTitle == Text(job.jobTitle)
    ensures r.currentDate == Text(IsoDay(now, toIso))
    ensures r.location.Text? && r.notes.Text? && r.salaryMin.Text? && r.salaryMax.Text?
    ensures r.location == Text(if job.location.Some? then job.location.value else "")
    ensures r.notes == Text(if job.notes.Some? then job.notes.value else "")
    ensures job.salaryMin.None? ==> r.salaryMin == Text("")
    ensures job.salaryMax.None? ==> r.salaryMax == Text("")
    ensures job.salaryMin.Some? ==> ParseDecimal(r.salaryMin.s) == Some(job.salaryMin.value)
    ensures job.salaryMax.Some? ==> ParseDecimal(r.salaryMax.s) == Some(job.salaryMax.value)
    ensures r.applicationDate == Text(IsoDay(job.applicationDate, toIso))
    ensures r.interviewDate == if job.interviewDate.Some? then Text(IsoDay(job.interviewDate.value, toIso)) else Undefined
    ensures r.recruiterStatus == Text(job.recruiterStatus) && r.referralStatus == Text(job.referralStatus)
    ensures r.assessmentStatus == Text(job.assessmentStatus) && r.interviewStatus == Text(job.interviewStatus)
    ensures r.applicationStatus == Text(job.applicationStatus)
  {
    FormValues(
      Text(job.companyName), Text(job.jobTitle), TextOrEmpty(job.location),
      NumberText(job.salaryMin), NumberText(job.salaryMax), Text(IsoDay(now, toIso)),
      Text(IsoDay(job.applicationDate, toIso)),
      if job.interviewDate.Some? then Text(IsoDay(job.interviewDate.value, toIso)) else Undefined,
      Text(job.recruiterStatus), Text(job.referralStatus), Text(job.assessmentStatus),
      Text(job.interviewStatus), Text(job.applicationStatus), TextOrEmpty(job.notes))
  }

  /** An empty form is refused until both names are given, and then only
      for them: once filled in, it is accepted with every status "Not Started". */
  lemma NewFormNeedsNames(now: Date, toIso: Date -> string, company: string, title: string)
    ensures Validate(NewFormDefaults(now, toIso)).Failure?
    ensures var issues := Validate(NewFormDefaults(now, toIso)).error;
            issues == [Issue("companyName", Required), Issue("jobTitle", Required)]
    ensures company != "" && title != "" ==>
              var filled := NewFormDefaults(now, toIso).(companyName := Text(company), jobTitle := Text(title));
              var r := Validate(filled);
              && r.Success?
              && r.value.recruiterStatus == r.value.referralStatus == r.value.assessmentStatus
                 == r.value.interviewStatus == r.value.applicationStatus == NotStarted
              && r.value.location == r.value.notes == Text("")
  {
  }

  /** A stored row whose names are non-empty and whose statuses are the four
      names opens in an edit form the schema accepts unchanged. */
  lemma EditFormAccepted(job: Job, now: Date, toIso: Date -> string)
    requires job.companyName != "" && job.jobTitle != ""
    requires ParseStatus(job.recruiterStatus).Some? && ParseStatus(job.referralStatus).Some?
    requires ParseStatus(job.assessmentStatus).Some? && ParseStatus(job.interviewStatus).Some?
    requires ParseStatus(job.applicationStatus).Some?
    ensures var r := Validate(EditDefaults(job, now, toIso));
            && r.Success?
            && r.value.companyName == job.companyName && r.value.jobTitle == job.jobTitle
            && StatusName(r.value.applicationStatus) == job.applicationStatus
            && StatusName(r.value.recruiterStatus) == job.recruiterStatus
  {
  }

  /** A stored status outside the four names makes the edit form unsubmittable. */
  lemma EditFormRefusesUnknownStatus(job: Job, now: Date, toIso: Date -> string)
    requires ParseStatus(job.applicationStatus).None?
    ensures Validate(EditDefaults(job, now, toIso)).Failure?
    ensures Issue("applicationStatus", InvalidStatus) in Validate(EditDefaults(job, now, toIso)).error
  {
    var v := EditDefaults(job, now, toIso);
    assert StatusIssues("applicationStatus", v.applicationStatus) == [Issue("applicationStatus", InvalidStatus)];
  }

  // ---------------------------------------------------------------------------
  // The request
  // ---------------------------------------------------------------------------

  const JobsPath := "/api/jobs"

  datatype Method = Post | Put

  /** The url and method: PUT to the row's own path when editing, POST to the
      collection when adding. */
  function Endpoint(job: Option<Job>): (r: (Method, string))
    ensures job.None? <==> r.0 == Post
    ensures job.None? ==> r.1 == JobsPath
    ensures job.Some? ==> r.1 == JobsPath + "/" + IntToString(job.value.id)
  {
    if job.Some? then (Put, JobsPath + "/" + IntToString(job.value.id)) else (Post, JobsPath)
  }

  /** The id in the edit url reads back as the row's id: the PUT reaches the
      row the form was opened on. */
  lemma EndpointNamesRow(job: Job)
    ensures var (m, url) := Endpoint(Some(job));
            && m == Put
            && |url| > |JobsPath| + 1 && url[..|JobsPath| + 1] == JobsPath + "/"
            && ParseDecimal(url[|JobsPath| + 1..]) == Some(job.id)
  {
    var url := Endpoint(Some(job)).1;
    assert url[|JobsPath| + 1..] == IntToString(job.id);
    IntToStringRoundTrip(job.id);
  }

  const InvalidTimeValue := "Invalid time value"

  /** One date of `cleanData`: a missing, null or empty date becomes null; any
      other is parsed (`new Date`) and cut to its day, and a string that is
      not a date makes `toISOString` throw. */
  function CleanDate(v: Value, parse: string -> Option<Date>, toIso: Date -> string): (r: Result<Value, string>)
    ensures !(v.Text? && v.s != "") ==> r == Success(Null)
    ensures v.Text? && v.s != "" && parse(v.s).None? ==> r == Failure(InvalidTimeValue)
    ensures v.Text? && v.s != "" && parse(v.s).Some? ==> r == Success(Text(IsoDay(parse(v.s).value, toIso)))
  {
    if v.Text? && v.s != "" then
      var d := parse(v.s);
      if d.Some? then Success(Text(IsoDay(d.value, toIso))) else Failure(InvalidTimeValue)
    else Success(Null)
  }

  /** A cleaned date holds no 'T', so cutting it again changes nothing. */
  lemma CleanDateCutOnce(v: Value, parse: string -> Option<Date>, toIso: Date -> string)
    requires CleanDate(v, parse, toIso).Success?
    requires CleanDate(v, parse, toIso).value.Text?
    ensures 'T' !in CleanDate(v, parse, toIso).value.s
    ensures var s := CleanDate(v, parse, toIso).value.s; BeforeT(s) == s
  {
    var s := CleanDate(v, parse, toIso).value.s;
    BeforeTWithoutT(s);
  }

  /** `cleanData`: the data with both dates cleaned and nothing else changed;
      the application date is cleaned first. */
  function CleanData(data: JobFormData, parse: string -> Option<Date>, toIso: Date -> string): (r: Result<JobFormData, string>)
    ensures r.Success? <==> (CleanDate(data.applicationDate, parse, toIso).Success?
                             && CleanDate(data.interviewDate, parse, toIso).Success?)
    ensures r.Success? ==>
              r.value == data.(applicationDate := CleanDate(data.applicationDate, parse, toIso).value,
                               interviewDate := CleanDate(data.interviewDate, parse, toIso).value)
    ensures r.Failure? ==> r.error == InvalidTimeValue
  {
    var a := CleanDate(data.applicationDate, parse, toIso);
    var i := CleanDate(data.interviewDate, parse, toIso);
    if a.Failure? then Failure(a.error)
    else if i.Failure? then Failure(i.error)
    else Success(data.(applicationDate := a.value, interviewDate := i.value))
  }

  const NotAuthenticated := "Not authenticated"

  /** What the mutation sends: method, url, the `X-User-Id` header and the body. */
  datatype Request = Request(verb: Method, url: string, userId: string, body: JobFormData)

  /** The start of `mutationFn`: refuse without a signed-in user, then choose
      the endpoint and clean the data. */
  function BuildRequest(user: Option<string>, job: Option<Job>, data: JobFormData,
                        parse: string -> Option<Date>, toIso: Date -> string): (r: Result<Request, string>)
    ensures user.None? ==> r == Failure(NotAuthenticated)
    ensures user.Some? ==> (r.Success? <==> CleanData(data, parse, toIso).Success?)
    ensures user.Some? && CleanData(data, parse, toIso).Failure? ==>
              r == Failure(CleanData(data, parse, toIso).error)
    ensures r.Success? ==>
              && user.Some? && r.value.userId == user.value
              && (r.value.verb, r.value.url) == Endpoint(job)
              && Success(r.value.body) == CleanData(data, parse, toIso)
  {
    if user.None? then Failure(NotAuthenticated)
    else
      var body := CleanData(data, parse, toIso);
      if body.Failure? then Failure(body.error)
      else
        var (verb, url) := Endpoint(job);
        Success(Request(verb, url, user.value, body.value))
  }

  /** The message of a failed response: the server's text, or a generic one
      naming the action when the text is empty. Either way the user is never
      shown an empty message. */
  function ResponseError(editing: bool, errorText: string): (r: string)
    ensures r != ""
    ensures errorText != "" ==> r == errorText
    ensures errorText == "" ==> Contains(r, if editing then "update" else "create")
  {
    if errorText != "" then errorText
    else
      var action := if editing then "update" else "create";
      ContainsInfix("Failed to ", action, " job application");
      "Failed to " + action + " job application"
  }

  // ---------------------------------------------------------------------------
  // The form's state
  // ---------------------------------------------------------------------------

  /** The outcome of pressing submit: the schema's issues, an error thrown
      while building the request, or the request sent. */
  datatype Submission = Invalid(issues: seq<Issue>) | Thrown(message: string) | Sent(request: Request)

  /** One open form: the row it edits (none when adding) and its values. */
  class JobFormState {
    const job: Option<Job>
    var values: FormValues

    constructor(job: Option<Job>, now: Date, toIso: Date -> string)
      ensures this.job == job
      ensures job.None? ==> values == NewFormDefaults(now, toIso)
      ensures job.Some? ==> values == EditDefaults(job.value, now, toIso)
    {
      this.job := job;
      values := if job.Some? then EditDefaults(job.value, now, toIso) else NewFormDefaults(now, toIso);
    }

    /** The user edits the fields. */
    method Change(v: FormValues)
      modifies this
      ensures values == v
    {
      values := v;
    }

    /** `handleSubmit` then `mutationFn`: validation first, then the request. */
    function Submit(user: Option<string>, parse: string -> Option<Date>, toIso: Date -> string): (r: Submission)
      reads this
      ensures r.Invalid? <==> !Acceptable(values)
      ensures r.Invalid? ==> r.issues == Issues(values)
      ensures Acceptable(values) && user.None? ==> r == Thrown(NotAuthenticated)
      ensures r.Sent? ==> user.Some? && (r.request.verb == Put <==> job.Some?)
                          && r.request.body.companyName == values.companyName.s
                          && r.request.body.jobTitle == values.jobTitle.s
      ensures Acceptable(values) ==>
                r == match BuildRequest(user, job, Validate(values).value, parse, toIso)
                     case Success(q) => Sent(q)
                     case Failure(m) => Thrown(m)
      ensures (Acceptable(values) && user.Some? && CleanData(Validate(values).value, parse, toIso).Success?)
              ==> r.Sent?
    {
      match Validate(values)
      case Failure(issues) => Invalid(issues)
      case Success(data) =>
        match BuildRequest(user, job, data, parse, toIso)
        case Failure(m) => Thrown(m)
        case Success(req) => Sent(req)
    }

    /** `onSuccess`: a form that added a job is cleared back to the empty
      form; an edit form keeps its values. */
    method OnSuccess(now: Date, toIso: Date -> string)
      modifies this
      ensures job.None? ==> values == NewFormDefaults(now, toIso)
      ensures job.Some? ==> values == old(values)
    {
      if job.None? {
        values := NewFormDefaults(now, toIso);
      }
    }
  }
}
