/** The domain enums and the shape of an application record. */
module ApplicationTypes {
  import opened Values

  /** The work arrangement of a position. */
  datatype Remote = OnSite | Hybrid | Remote

  /** The string each `Remote` member stands for; these strings are what the
      backend stores and what the remote editor sends. */
  function RemoteLabel(r: Remote): (s: string)
    ensures |s| > 0
  {
    match r
    case OnSite => "On Site"
    case Hybrid => "Hybrid"
    case Remote => "Remote"
  }

  function RemoteFromLabel(s: string): (r: Option<Remote>)
    ensures r.Some? ==> RemoteLabel(r.value) == s
  {
    if s == "On Site" then Some(OnSite)
    else if s == "Hybrid" then Some(Hybrid)
    else if s == "Remote" then Some(Remote)
    else None
  }

  /** The three members in declaration order. */
  const AllRemotes: seq<Remote> := [OnSite, Hybrid, Remote]

  /** `Remote` has exactly three members, whose strings are "On Site",
      "Hybrid" and "Remote"; each string names exactly one member. */
  lemma RemoteEnumeration()
    ensures |AllRemotes| == 3
    ensures forall r: Remote :: r in AllRemotes
    ensures forall i, j :: 0 <= i < j < |AllRemotes| ==> AllRemotes[i] != AllRemotes[j]
    ensures forall r: Remote :: RemoteFromLabel(RemoteLabel(r)) == Some(r)
    ensures forall s :: RemoteFromLabel(s).Some? <==> s in {"On Site", "Hybrid", "Remote"}
  {
    forall r: Remote ensures r in AllRemotes {
      match r
      case OnSite => assert AllRemotes[0] == r;
      case Hybrid => assert AllRemotes[1] == r;
      case Remote => assert AllRemotes[2] == r;
    }
  }

  /** The keys of the `ApplicationStatus` enum. */
  datatype StatusKey =
    | NotStarted | InProgress | Withdrawed
    | Applied | Screening
    | AwaitingInterview | InterviewScheduled | InterviewCompleted
    | Offered | Accepted | Rejected | OnHold

  /** The keys in declaration order, which is the order `Object.keys` lists them. */
  const AllStatusKeys: seq<StatusKey> := [
    NotStarted, InProgress, Withdrawed,
    Applied, Screening,
    AwaitingInterview, InterviewScheduled, InterviewCompleted,
    Offered, Accepted, Rejected, OnHold
  ]

  /** A key as a string: how a status is stored and sent. */
  function StatusKeyName(k: StatusKey): (s: string)
    ensures |s| > 0
  {
    match k
    case NotStarted => "NotStarted"
    case InProgress => "InProgress"
    case Withdrawed => "Withdrawed"
    case Applied => "Applied"
    case Screening => "Screening"
    case AwaitingInterview => "AwaitingInterview"
    case InterviewScheduled => "InterviewScheduled"
    case InterviewCompleted => "InterviewCompleted"
    case Offered => "Offered"
    case Accepted => "Accepted"
    case Rejected => "Rejected"
    case OnHold => "OnHold"
  }

  /** The key a stored string names, if any. */
  function StatusFromName(s: string): (r: Option<StatusKey>)
    ensures r.Some? ==> StatusKeyName(r.value) == s
  {
    if s == "NotStarted" then Some(NotStarted)
    else if s == "InProgress" then Some(InProgress)
    else if s == "Withdrawed" then Some(Withdrawed)
    else if s == "Applied" then Some(Applied)
    else if s == "Screening" then Some(Screening)
    else if s == "AwaitingInterview" then Some(AwaitingInterview)
    else if s == "InterviewScheduled" then Some(InterviewScheduled)
    else if s == "InterviewCompleted" then Some(InterviewCompleted)
    else if s == "Offered" then Some(Offered)
    else if s == "Accepted" then Some(Accepted)
    else if s == "Rejected" then Some(Rejected)
    else if s == "OnHold" then Some(OnHold)
    else None
  }

  /** `ApplicationStatus[k]`: the label shown for a status. */
  function StatusLabel(k: StatusKey): (s: string)
    ensures |s| > 0
  {
    match k
    case NotStarted => "Not Started"
    case InProgress => "In Progress"
    case Withdrawed => "Withdrawed"
    case Applied => "Applied"
    case Screening => "Screening"
    case AwaitingInterview => "Awaiting Interview"
    case InterviewScheduled => "Interview Scheduled"
    case InterviewCompleted => "Interview Completed"
    case Offered => "Offered"
    case Accepted => "Accepted"
    case Rejected => "Rejected"
    case OnHold => "OnHold"
  }

  /** The key whose label is `s`, if any. */
  function StatusFromLabel(s: string): (r: Option<StatusKey>)
    ensures r.Some? ==> StatusLabel(r.value) == s
  {
    if s == "Not Started" then Some(NotStarted)
    else if s == "In Progress" then Some(InProgress)
    else if s == "Withdrawed" then Some(Withdrawed)
    else if s == "Applied" then Some(Applied)
    else if s == "Screening" then Some(Screening)
    else if s == "Awaiting Interview" then Some(AwaitingInterview)
    else if s == "Interview Scheduled" then Some(InterviewScheduled)
    else if s == "Interview Completed" then Some(InterviewCompleted)
    else if s == "Offered" then Some(Offered)
    else if s == "Accepted" then Some(Accepted)
    else if s == "Rejected" then Some(Rejected)
    else if s == "OnHold" then Some(OnHold)
    else None
  }

  const Gray := "bg-status-gray/70"
  const Blue := "bg-status-blue/70"
  const Yellow := "bg-status-yellow/70"
  const Rose := "bg-status-rose/70"
  const Orange := "bg-status-orange/70"
  const Green := "bg-status-green/70"
  const DarkGreen := "bg-status-darkgreen/70"

  /** `ApplicationStatusColor[k]`: the badge colour class of a status. Being a
      function over the keys, the colour map is total. */
  function StatusColor(k: StatusKey): (c: string)
    ensures c in {Gray, Blue, Yellow, Rose, Orange, Green, DarkGreen}
  {
    match k
    case NotStarted => Gray
    case InProgress => Gray
    case Withdrawed => Gray
    case Applied => Blue
    case Screening => Yellow
    case AwaitingInterview => Yellow
    case InterviewScheduled => Yellow
    case InterviewCompleted => Yellow
    case Rejected => Rose
    case OnHold => Orange
    case Offered => Green
    case Accepted => DarkGreen
  }

  /** There are exactly twelve status keys, listed once each. */
  lemma StatusEnumeration()
    ensures |AllStatusKeys| == 12
    ensures forall k: StatusKey :: k in AllStatusKeys
    ensures forall i, j :: 0 <= i < j < |AllStatusKeys| ==> AllStatusKeys[i] != AllStatusKeys[j]
  {
    forall k: StatusKey ensures k in AllStatusKeys {
      var i := StatusIndex(k);
      assert AllStatusKeys[i] == k;
    }
  }

  /** The position of a key in `AllStatusKeys`. */
  function StatusIndex(k: StatusKey): (i: nat)
    ensures i < |AllStatusKeys| && AllStatusKeys[i] == k
  {
    match k
    case NotStarted => 0
    case InProgress => 1
    case Withdrawed => 2
    case Applied => 3
    case Screening => 4
    case AwaitingInterview => 5
    case InterviewScheduled => 6
    case InterviewCompleted => 7
    case Offered => 8
    case Accepted => 9
    case Rejected => 10
    case OnHold => 11
  }

  /** Key names and labels both identify their key: stored names and shown
      labels are pairwise distinct. */
  lemma StatusNamesAndLabelsRoundTrip(k: StatusKey)
    ensures StatusFromName(StatusKeyName(k)) == Some(k)
    ensures StatusFromLabel(StatusLabel(k)) == Some(k)
  {
    StatusNameRoundTrip(k);
    StatusLabelRoundTrip(k);
  }

  lemma StatusNameRoundTrip(k: StatusKey)
    ensures StatusFromName(StatusKeyName(k)) == Some(k)
  {
  }

  lemma StatusLabelRoundTrip(k: StatusKey)
    ensures StatusFromLabel(StatusLabel(k)) == Some(k)
  {
  }

  lemma StatusLabelsDistinct(k1: StatusKey, k2: StatusKey)
    ensures StatusLabel(k1) == StatusLabel(k2) <==> k1 == k2
    ensures StatusKeyName(k1) == StatusKeyName(k2) <==> k1 == k2
  {
    StatusNamesAndLabelsRoundTrip(k1);
    StatusNamesAndLabelsRoundTrip(k2);
  }

  /** The colour groups: the three not-yet-applied states share gray, and
      screening and the three interview states share yellow. */
  lemma StatusColourGroups(k: StatusKey)
    ensures StatusColor(k) == Gray <==> k in {NotStarted, InProgress, Withdrawed}
    ensures StatusColor(k) == Yellow <==>
      k in {Screening, AwaitingInterview, InterviewScheduled, InterviewCompleted}
    ensures StatusColor(k) == Blue <==> k == Applied
  {
  }

  /** An application record. `id`, `company`, `position`, `status` and
      `tracker_id` are required; every other field is optional. */
  datatype Application = Application(
    id: string,
    company: string,
    position: string,
    remote: Option<Remote>,
    location: Option<string>,
    status: StatusKey,
    appliedAt: Option<string>,
    interviewAt: Option<string>,
    expectedSalary: Option<int>,
    resumeVersion: Option<string>,
    hiringManager: Option<string>,
    contact: Option<string>,
    link: Option<string>,
    trackerId: string
  )

  /** The fourteen columns every read of the `applications` table selects. */
  const Columns: set<string> := {
    "id", "company", "position", "remote", "location", "status", "applied_at",
    "interview_at", "expected_salary", "resume_version", "hiring_manager",
    "contact", "link", "tracker_id"
  }

  /** An application as the row the backend returns: every selected column is
      present and an absent optional field is `null`. */
  function ToRow(a: Application): (row: Row)
    ensures row.Keys == Columns
    ensures row["id"] == Text(a.id) && row["tracker_id"] == Text(a.trackerId)
    ensures row["company"] == Text(a.company) && row["position"] == Text(a.position)
    ensures row["status"] == Text(StatusKeyName(a.status))
  {
    map[
      "remote" := RemoteValue(a.remote),
      "location" := TextOrNull(a.location),
      "applied_at" := TextOrNull(a.appliedAt),
      "interview_at" := TextOrNull(a.interviewAt),
      "expected_salary" := NumberOrNull(a.expectedSalary),
      "resume_version" := TextOrNull(a.resumeVersion),
      "hiring_manager" := TextOrNull(a.hiringManager),
      "contact" := TextOrNull(a.contact),
      "link" := TextOrNull(a.link),
      "id" := Text(a.id),
      "company" := Text(a.company),
      "position" := Text(a.position),
      "status" := Text(StatusKeyName(a.status)),
      "tracker_id" := Text(a.trackerId)
    ]
  }

  /** A remote value as stored: its string, or `null`. */
  function RemoteValue(r: Option<Remote>): (v: Value)
    ensures v.Null? <==> r.None?
  {
    match r
    case None => Null
    case Some(x) => Text(RemoteLabel(x))
  }

  function NumberOrNull(o: Option<int>): (v: Value)
    ensures v.Null? <==> o.None?
  {
    match o
    case None => Null
    case Some(n) => Number(n)
  }

  function RequiredText(row: Row, key: string): Option<string> {
    if key in row && row[key].Text? then Some(row[key].s) else None
  }

  /** An optional field: absent or `null` is `None`; a value of the wrong
      kind makes the row unreadable. */
  function OptionalText(row: Row, key: string): Option<Option<string>> {
    if key !in row || row[key].Null? then Some(None)
    else if row[key].Text? then Some(Some(row[key].s))
    else None
  }

  function OptionalRemote(row: Row): Option<Option<Remote>> {
    if "remote" !in row || row["remote"].Null? then Some(None)
    else if row["remote"].Text? && RemoteFromLabel(row["remote"].s).Some? then
      Some(RemoteFromLabel(row["remote"].s))
    else None
  }

  function OptionalNumber(row: Row, key: string): Option<Option<int>> {
    if key !in row || row[key].Null? then Some(None)
    else if row[key].Number? then Some(Some(row[key].n))
    else None
  }

  /** Reads a row back as an application, if it has that shape. */
  function FromRow(row: Row): (r: Option<Application>)
    ensures r.Some? ==> "id" in row && row["id"] == Text(r.value.id)
    ensures r.Some? ==> "tracker_id" in row && row["tracker_id"] == Text(r.value.trackerId)
  {
    var id := RequiredText(row, "id");
    var company := RequiredText(row, "company");
    var position := RequiredText(row, "position");
    var status := RequiredText(row, "status");
    var trackerId := RequiredText(row, "tracker_id");
    var remote := OptionalRemote(row);
    var location := OptionalText(row, "location");
    var appliedAt := OptionalText(row, "applied_at");
    var interviewAt := OptionalText(row, "interview_at");
    var salary := OptionalNumber(row, "expected_salary");
    var resume := OptionalText(row, "resume_version");
    var manager := OptionalText(row, "hiring_manager");
    var contact := OptionalText(row, "contact");
    var link := OptionalText(row, "link");
    if && id.Some? && company.Some? && position.Some? && status.Some?
       && trackerId.Some? && StatusFromName(status.value).Some?
       && remote.Some? && location.Some? && appliedAt.Some? && interviewAt.Some?
       && salary.Some? && resume.Some? && manager.Some? && contact.Some? && link.Some?
    then
      Some(Application(
        id.value, company.value, position.value, remote.value, location.value,
        StatusFromName(status.value).value, appliedAt.value, interviewAt.value,
        salary.value, resume.value, manager.value, contact.value, link.value,
        trackerId.value))
    else
      None
  }

  /** The field readers applied to `ToRow(a)` give back `a`'s fields. */
  lemma ToRowFields(a: Application)
    ensures RequiredText(ToRow(a), "id") == Some(a.id)
    ensures RequiredText(ToRow(a), "company") == Some(a.company)
    ensures RequiredText(ToRow(a), "position") == Some(a.position)
    ensures RequiredText(ToRow(a), "status") == Some(StatusKeyName(a.status))
    ensures RequiredText(ToRow(a), "tracker_id") == Some(a.trackerId)
    ensures OptionalRemote(ToRow(a)) == Some(a.remote)
    ensures OptionalText(ToRow(a), "location") == Some(a.location)
    ensures OptionalText(ToRow(a), "applied_at") == Some(a.appliedAt)
    ensures OptionalText(ToRow(a), "interview_at") == Some(a.interviewAt)
    ensures OptionalNumber(ToRow(a), "expected_salary") == Some(a.expectedSalary)
    ensures OptionalText(ToRow(a), "resume_version") == Some(a.resumeVersion)
    ensures OptionalText(ToRow(a), "hiring_manager") == Some(a.hiringManager)
    ensures OptionalText(ToRow(a), "contact") == Some(a.contact)
    ensures OptionalText(ToRow(a), "link") == Some(a.link)
  {
    ToRowRequiredFields(a);
    ToRowRemote(a);
    ToRowOptionalFields(a);
  }

  lemma ToRowRequiredFields(a: Application)
    ensures RequiredText(ToRow(a), "id") == Some(a.id)
    ensures RequiredText(ToRow(a), "company") == Some(a.company)
    ensures RequiredText(ToRow(a), "position") == Some(a.position)
    ensures RequiredText(ToRow(a), "status") == Some(StatusKeyName(a.status))
    ensures RequiredText(ToRow(a), "tracker_id") == Some(a.trackerId)
  {
  }

  lemma ToRowRemote(a: Application)
    ensures OptionalRemote(ToRow(a)) == Some(a.remote)
  {
    if a.remote.Some? {
      RemoteEnumeration();
    }
  }

  lemma ToRowOptionalFields(a: Application)
    ensures OptionalText(ToRow(a), "location") == Some(a.location)
    ensures OptionalText(ToRow(a), "applied_at") == Some(a.appliedAt)
    ensures OptionalText(ToRow(a), "interview_at") == Some(a.interviewAt)
    ensures OptionalNumber(ToRow(a), "expected_salary") == Some(a.expectedSalary)
    ensures OptionalText(ToRow(a), "resume_version") == Some(a.resumeVersion)
    ensures OptionalText(ToRow(a), "hiring_manager") == Some(a.hiringManager)
    ensures OptionalText(ToRow(a), "contact") == Some(a.contact)
    ensures OptionalText(ToRow(a), "link") == Some(a.link)
  {
    ToRowDatesAndSalary(a);
    ToRowContactFields(a);
  }

  lemma ToRowDatesAndSalary(a: Application)
    ensures OptionalText(ToRow(a), "location") == Some(a.location)
    ensures OptionalText(ToRow(a), "applied_at") == Some(a.appliedAt)
    ensures OptionalText(ToRow(a), "interview_at") == Some(a.interviewAt)
    ensures OptionalNumber(ToRow(a), "expected_salary") == Some(a.expectedSalary)
  {
  }

  lemma ToRowContactFields(a: Application)
    ensures OptionalText(ToRow(a), "resume_version") == Some(a.resumeVersion)
    ensures OptionalText(ToRow(a), "hiring_manager") == Some(a.hiringManager)
    ensures OptionalText(ToRow(a), "contact") == Some(a.contact)
    ensures OptionalText(ToRow(a), "link") == Some(a.link)
  {
  }

  /** Every application survives the trip through its row unchanged. */
  lemma FromRowToRow(a: Application)
    ensures FromRow(ToRow(a)) == Some(a)
  {
    StatusNamesAndLabelsRoundTrip(a.status);
    ToRowFields(a);
  }

  /** A row needs only the five required fields to read as an application:
      the optional ones may all be missing. */
  lemma RequiredFieldsSuffice(id: string, company: string, position: string,
                              status: StatusKey, trackerId: string)
    ensures FromRow(map["id" := Text(id), "company" := Text(company),
                        "position" := Text(position),
                        "status" := Text(StatusKeyName(status)),
                        "tracker_id" := Text(trackerId)])
         == Some(Application(id, company, position, None, None, status, None, None,
                             None, None, None, None, None, trackerId))
  {
    StatusNamesAndLabelsRoundTrip(status);
  }
}
