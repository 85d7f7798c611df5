/**
 * The three document schemas: users, internships and applications, with the
 * defaults and the validation the document store applies when a record is
 * created or saved. Identifiers are the 24-hex-digit text form of an object id.
 */
module Models {
  import opened Wrappers
  import Text

  type Id = string

  predicate IsHexDigit(c: char) {
    '0' <= c <= '9' || 'a' <= c <= 'f' || 'A' <= c <= 'F'
  }

  /** Whether an identifier is a well-formed object id (the 24-hex-digit form). */
  predicate WellFormedId(s: string) {
    |s| == 24 && forall i :: 0 <= i < |s| ==> IsHexDigit(s[i])
  }

  /**
   * The text a well-formed id names its object by: the store casts an id to an
   * object id, whichever case its hex digits are in, and writes it back in lower
   * case. Looking a record up by `s` means looking it up by `IdKey(s)`.
   */
  function IdKey(s: string): (k: Id)
    ensures |k| == |s|
  {
    Text.Lower(s)
  }

  /** A key is well-formed exactly when the id is, and is its own key. */
  lemma IdKeyOfKey(s: string)
    ensures WellFormedId(s) <==> WellFormedId(IdKey(s))
    ensures IdKey(IdKey(s)) == IdKey(s)
  {
    Text.LowerIdempotent(s);
    var k := IdKey(s);
    assert forall i :: 0 <= i < |s| ==> (IsHexDigit(s[i]) <==> IsHexDigit(k[i]));
  }

  /** An id as the store writes it: well-formed, in lower case. */
  predicate StoredId(s: string) {
    WellFormedId(s) && IdKey(s) == s
  }

  /** A required string field is missing when it is absent or empty. */
  predicate Present(s: Option<string>) {
    s.Some? && s.value != ""
  }

  // ----- User -----

  datatype Role = Student | Employer

  function RoleName(r: Role): string {
    match r
    case Student => "student"
    case Employer => "employer"
  }

  /** The role enum: only "student" and "employer" are accepted. */
  function ParseRole(s: string): (r: Option<Role>)
    ensures r.Some? <==> s == "student" || s == "employer"
    ensures r.Some? ==> RoleName(r.value) == s
  {
    if s == "student" then Some(Student)
    else if s == "employer" then Some(Employer)
    else None
  }

  /** A stored user. Profile fields that only a page displays are not part of the model. */
  datatype User = User(
    id: Id,
    name: string,
    email: string,
    password: string,
    role: Role,
    phone: Option<string>,
    university: Option<string>,
    degree: Option<string>,
    skills: seq<string>,
    resume: Option<string>,
    company: Option<string>)

  /** The fields a registration supplies; each may be missing. */
  datatype UserBody = UserBody(
    name: Option<string>,
    email: Option<string>,
    password: Option<string>,
    role: Option<string>,
    phone: Option<string>,
    university: Option<string>,
    degree: Option<string>,
    skills: Option<seq<string>>,
    company: Option<string>)

  /**
   * Creating a user document: name, email and password are required, the role
   * must be one of the enum and defaults to student, skills default to the empty
   * list, and the other profile fields stay optional.
   */
  function NewUser(id: Id, body: UserBody): (r: Option<User>)
    ensures r.Some? <==>
      Present(body.name) && Present(body.email) && Present(body.password) &&
      (body.role.None? || ParseRole(body.role.value).Some?)
    ensures r.Some? ==> r.value.role == (if body.role.None? then Student else ParseRole(body.role.value).value)
    ensures r.Some? ==> r.value.skills == (if body.skills.Some? then body.skills.value else [])
    ensures r.Some? ==> r.value.phone == body.phone && r.value.university == body.university && r.value.degree == body.degree
  {
    if !Present(body.name) || !Present(body.email) || !Present(body.password) then None
    else
      var role := if body.role.None? then Some(Student) else ParseRole(body.role.value);
      if role.None? then None
      else Some(User(id, body.name.value, body.email.value, body.password.value, role.value,
                     body.phone, body.university, body.degree, body.skills.GetOr([]), None, body.company))
  }

  /** The unique index on email. */
  predicate EmailsUnique(users: seq<User>) {
    forall i, j :: 0 <= i < j < |users| ==> users[i].email != users[j].email
  }

  /** Inserting a user under the unique email index: refused when the email is taken. */
  function InsertUser(users: seq<User>, u: User): (r: Option<seq<User>>)
    ensures r.None? <==> exists i :: 0 <= i < |users| && users[i].email == u.email
    ensures r.Some? ==> r.value == users + [u]
    ensures EmailsUnique(users) && r.Some? ==> EmailsUnique(r.value)
  {
    if exists i :: 0 <= i < |users| && users[i].email == u.email then None
    else Some(users + [u])
  }

  // ----- Application -----

  /**
   * The stored status. `Unset` is a document whose status path was cleared by a
   * status update that sent no status; the database then holds no status, and
   * every read fills in the schema default when it loads the document.
   */
  datatype AppStatus = Applied | UnderReview | Accepted | Rejected | Unset

  /** A text field of a JSON request body: left out, sent as null, or sent as text. */
  datatype BodyText = Omitted | Null | Given(text: string)

  /** The status as served; a cleared one is served as the default "applied". */
  function StatusName(s: AppStatus): string {
    match s
    case Applied => "applied"
    case UnderReview => "under_review"
    case Accepted => "accepted"
    case Rejected => "rejected"
    case Unset => "applied"
  }

  /** The status enum: exactly the four names are accepted when a document is saved. */
  function ParseStatus(s: string): (r: Option<AppStatus>)
    ensures r.Some? <==> s in {"applied", "under_review", "accepted", "rejected"}
    ensures r.Some? ==> StatusName(r.value) == s
  {
    if s == "applied" then Some(Applied)
    else if s == "under_review" then Some(UnderReview)
    else if s == "accepted" then Some(Accepted)
    else if s == "rejected" then Some(Rejected)
    else None
  }

  lemma StatusNamesParse(s: AppStatus)
    ensures ParseStatus(StatusName(s)) == Some(if s == Unset then Applied else s)
  {
  }

  /** A stored application; `internship` and `applicant` are required references, `message` optional. */
  datatype Application = Application(
    id: Id,
    internship: Id,
    applicant: Id,
    status: AppStatus,
    message: Option<string>,
    createdAt: int)

  /**
   * A new application: both references are cast to object ids, so they are stored
   * in lower case; status defaults to applied, no message, created now.
   */
  function NewApplication(id: Id, internship: Id, applicant: Id, now: int): (a: Application)
    ensures a.id == id && a.internship == IdKey(internship) && a.applicant == IdKey(applicant)
    ensures a.status == Applied && StatusName(a.status) == "applied"
    ensures a.message == None && a.createdAt == now
  {
    Application(id, IdKey(internship), IdKey(applicant), Applied, None, now)
  }

  // ----- Internship -----

  /** A stored internship. `status` is free text; the empty string stands for a missing value. */
  datatype Internship = Internship(
    id: Id,
    title: string,
    company: string,
    location: Option<string>,
    applyBy: Option<int>,
    category: Option<string>,
    mode: Option<string>,
    duration: Option<string>,
    minSalary: Option<int>,
    maxSalary: Option<int>,
    status: string,
    description: Option<string>,
    requirements: seq<string>,
    postedBy: Id,
    createdAt: int)

  /** The schema fields a request body may carry; each may be missing. */
  datatype InternshipBody = InternshipBody(
    title: Option<string>,
    company: Option<string>,
    location: Option<string>,
    applyBy: Option<int>,
    category: Option<string>,
    mode: Option<string>,
    duration: Option<string>,
    minSalary: Option<int>,
    maxSalary: Option<int>,
    status: Option<string>,
    description: Option<string>,
    requirements: Option<seq<string>>,
    postedBy: Option<Id>)

  const DefaultInternshipStatus: string := "Open"

  /**
   * Creating an internship document from `data`: title, company and a well-formed
   * `postedBy` are required, and `postedBy` is cast to an object id, so it is
   * stored in lower case; status defaults to "Open" and requirements to the
   * empty list; everything else is copied as given, without any check relating
   * the two salaries.
   */
  function NewInternship(id: Id, data: InternshipBody, now: int): (r: Option<Internship>)
    ensures r.Some? <==> Present(data.title) && Present(data.company) &&
                         data.postedBy.Some? && WellFormedId(data.postedBy.value)
    ensures r.Some? ==> r.value.id == id && r.value.createdAt == now
    ensures r.Some? ==> r.value.postedBy == IdKey(data.postedBy.value) && StoredId(r.value.postedBy)
    ensures r.Some? ==> r.value.title == data.title.value && r.value.company == data.company.value
    ensures r.Some? ==> r.value.status == (if data.status.Some? then data.status.value else "Open")
    ensures r.Some? ==> r.value.requirements == (if data.requirements.Some? then data.requirements.value else [])
    ensures r.Some? ==> r.value.applyBy == data.applyBy && r.value.location == data.location &&
                        r.value.minSalary == data.minSalary && r.value.maxSalary == data.maxSalary
    ensures r.Some? ==> r.value.category == data.category && r.value.mode == data.mode &&
                        r.value.duration == data.duration && r.value.description == data.description
  {
    if !Present(data.title) || !Present(data.company) then None
    else if data.postedBy.None? || !WellFormedId(data.postedBy.value) then None
    else
      IdKeyOfKey(data.postedBy.value);
      Some(Internship(
      id, data.title.value, data.company.value, data.location, data.applyBy,
      data.category, data.mode, data.duration, data.minSalary, data.maxSalary,
      data.status.GetOr(DefaultInternshipStatus), data.description,
      data.requirements.GetOr([]), IdKey(data.postedBy.value), now))
  }

  /** The creation time, the key every newest-first list of internships sorts by. */
  function CreatedAt(i: Internship): int {
    i.createdAt
  }

  /** The schema relates the two salaries in no way: a minimum above the maximum is stored. */
  lemma SalariesUnordered(id: Id, owner: Id, now: int)
    requires WellFormedId(owner)
    ensures
      var data := InternshipBody(Some("Intern"), Some("Acme"), None, None, None, None, None,
                                 Some(900), Some(100), None, None, None, Some(owner));
      NewInternship(id, data, now).Some? && NewInternship(id, data, now).value.minSalary == Some(900)
  {
  }
}
