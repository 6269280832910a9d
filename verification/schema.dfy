/**
 * The three document schemas (accounts, company listings, applications),
 * their enumerations, and the validation Mongoose runs before every save.
 */
module Schema {
  import opened Wrappers
  import opened Http

  type Id = nat

  // ---------------------------------------------------------------- enums

  datatype Role = Student | Admin | Hr

  function RoleName(r: Role): string {
    match r
    case Student => "student"
    case Admin => "admin"
    case Hr => "hr"
  }

  /** Casting a string to the `role` enum: only the three enum names are accepted. */
  function ParseRole(s: string): (r: Option<Role>)
    ensures r.Some? <==> s == "student" || s == "admin" || s == "hr"
    ensures r.Some? ==> RoleName(r.value) == s
  {
    if s == "student" then Some(Student)
    else if s == "admin" then Some(Admin)
    else if s == "hr" then Some(Hr)
    else None
  }

  lemma RoleNameRoundTrip(r: Role)
    ensures ParseRole(RoleName(r)) == Some(r)
  {
  }

  datatype Status = Pending | Shortlisted | Rejected | Hired

  function StatusName(st: Status): string {
    match st
    case Pending => "pending"
    case Shortlisted => "shortlisted"
    case Rejected => "rejected"
    case Hired => "hired"
  }

  /** Casting a string to the `status` enum: only the four enum names are accepted. */
  function ParseStatus(s: string): (r: Option<Status>)
    ensures r.Some? <==> s == "pending" || s == "shortlisted" || s == "rejected" || s == "hired"
    ensures r.Some? ==> StatusName(r.value) == s
  {
    if s == "pending" then Some(Pending)
    else if s == "shortlisted" then Some(Shortlisted)
    else if s == "rejected" then Some(Rejected)
    else if s == "hired" then Some(Hired)
    else None
  }

  lemma StatusNameRoundTrip(st: Status)
    ensures ParseStatus(StatusName(st)) == Some(st)
  {
  }

  // ------------------------------------------------------------- accounts

  /**
   * A stored account (students, admins and HR recruiters share one
   * collection). `passwordHash` is the bcrypt digest kept by the pre-save hook.
   */
  datatype Account = Account(
    name: string,
    email: string,
    passwordHash: string,
    role: Role,
    department: string,
    cgpa: real,
    skills: seq<string>,
    resume: string,
    companyId: Option<Id>,
    createdAt: int)

  /** The required string paths of an account are non-empty. */
  predicate WellFormedAccount(a: Account) {
    a.name != "" && a.email != "" && a.department != ""
  }

  /** An account as served to clients: the password path is `select: false`, so it never leaves. */
  datatype Profile = Profile(
    id: Id,
    name: string,
    email: string,
    role: Role,
    department: string,
    cgpa: real,
    skills: seq<string>,
    resume: string,
    companyId: Option<Id>,
    createdAt: int)

  function PublicView(id: Id, a: Account): Profile {
    Profile(id, a.name, a.email, a.role, a.department, a.cgpa, a.skills, a.resume, a.companyId, a.createdAt)
  }

  /** The password path of a document about to be saved. */
  datatype Password =
    | Stored(hash: string)   // loaded (or not loaded) and left alone: not modified
    | Plain(text: string)    // assigned since the load: modified, still clear text

  /** An account document in memory, before validation; `role` and `cgpa` are not yet cast. */
  datatype AccountDraft = AccountDraft(
    name: string,
    email: string,
    password: Password,
    role: string,
    department: string,
    cgpa: Input<real>,
    skills: seq<string>,
    resume: string,
    companyId: Option<Id>,
    createdAt: int)

  /** The draft of a stored account, as Mongoose holds it right after `findById`. */
  function DraftOf(a: Account): AccountDraft {
    AccountDraft(a.name, a.email, Stored(a.passwordHash), RoleName(a.role), a.department,
                 Given(a.cgpa), a.skills, a.resume, a.companyId, a.createdAt)
  }

  /**
   * The paths whose validators fail, in schema order: required strings must
   * be non-empty, a modified password needs at least 6 characters, the role
   * must be an enum name, and `cgpa` must be a number.
   */
  function AccountErrors(d: AccountDraft): (r: seq<string>)
    ensures r == [] <==>
      && d.name != "" && d.email != "" && d.department != ""
      && (d.password.Plain? ==> |d.password.text| >= 6)
      && ParseRole(d.role).Some?
      && d.cgpa.Given?
    ensures "password" in r <==> d.password.Plain? && |d.password.text| < 6
  {
    (if d.name == "" then ["name"] else [])
    + (if d.email == "" then ["email"] else [])
    + (if d.password.Plain? && |d.password.text| < 6 then ["password"] else [])
    + (if ParseRole(d.role).None? then ["role"] else [])
    + (if d.department == "" then ["department"] else [])
    + (if d.cgpa.Given? then [] else ["cgpa"])
  }

  /**
   * `save()` on an account: validation first, then the pre-save hook, which
   * hashes the password only when it was modified.
   */
  function SaveAccount(d: AccountDraft, hash: string -> string): (r: Result<Account, seq<string>>)
    ensures r.Failure? <==> AccountErrors(d) != []
    ensures r.Failure? ==> r.error == AccountErrors(d)
    ensures r.Success? ==> WellFormedAccount(r.value)
    ensures r.Success? ==>
      && r.value.name == d.name && r.value.email == d.email && r.value.department == d.department
      && RoleName(r.value.role) == d.role && Given(r.value.cgpa) == d.cgpa
      && r.value.skills == d.skills && r.value.resume == d.resume
      && r.value.companyId == d.companyId && r.value.createdAt == d.createdAt
    ensures r.Success? && d.password.Stored? ==> r.value.passwordHash == d.password.hash
    ensures r.Success? && d.password.Plain? ==> r.value.passwordHash == hash(d.password.text)
  {
    var errors := AccountErrors(d);
    if errors != [] then Failure(errors)
    else
      var digest := match d.password
        case Stored(h) => h
        case Plain(t) => hash(t);
      Success(Account(d.name, d.email, digest, ParseRole(d.role).value, d.department,
                      d.cgpa.value, d.skills, d.resume, d.companyId, d.createdAt))
  }

  /** Re-saving an untouched well-formed account validates and changes nothing. */
  lemma SaveUntouched(a: Account, hash: string -> string)
    requires WellFormedAccount(a)
    ensures SaveAccount(DraftOf(a), hash) == Success(a)
  {
    RoleNameRoundTrip(a.role);
  }

  // ------------------------------------------------------------ companies

  datatype Eligibility = Eligibility(cgpa: real, skills: seq<string>, branches: seq<string>)

  /** A company listing. `deadline` and `createdAt` are millisecond timestamps. */
  datatype Company = Company(
    name: string,
    role: string,
    location: string,
    ctc: real,
    eligibility: Eligibility,
    description: string,
    deadline: int,
    createdAt: int)

  /** The required string paths of a listing are non-empty. */
  predicate WellFormedCompany(c: Company) {
    c.name != "" && c.role != "" && c.location != "" && c.description != ""
  }

  /** An `eligibility` object from a request body; each of its three keys may be absent or null. */
  datatype EligibilityForm = EligibilityForm(cgpa: Input<real>, skills: Input<seq<string>>, branches: Input<seq<string>>)

  /** The listing fields a request body supplies. */
  datatype CompanyForm = CompanyForm(
    name: Input<string>,
    role: Input<string>,
    location: Input<string>,
    ctc: Input<real>,
    eligibility: Input<EligibilityForm>,
    description: Input<string>,
    deadline: Input<int>)

  /** A `required` string path accepts only a non-empty string. */
  predicate RequiredText(x: Input<string>) {
    x.Given? && x.value != ""
  }

  /** Every required path under `eligibility` holds a value. */
  predicate EligibilityPresent(x: Input<EligibilityForm>) {
    x.Given? && x.value.cgpa.Given? && x.value.skills.Given? && x.value.branches.Given?
  }

  /**
   * The failing `required` paths under `eligibility`, in schema order. With
   * no object at all only `cgpa` can fail: the array paths then hold their
   * defaults (see `WithDefaults`).
   */
  function EligibilityErrors(x: Input<EligibilityForm>): (r: seq<string>)
    ensures r == [] <==> EligibilityPresent(x)
  {
    if !x.Given? then ["eligibility.cgpa"]
    else
      (if x.value.cgpa.Given? then [] else ["eligibility.cgpa"])
      + (if x.value.skills.Given? then [] else ["eligibility.skills"])
      + (if x.value.branches.Given? then [] else ["eligibility.branches"])
  }

  /** An array path left out of a new document takes its default `[]`; a null one stays null. */
  function ArrayDefault(x: Input<seq<string>>): (r: Input<seq<string>>)
    ensures r.Given? <==> !x.Null?
    ensures x.Given? ==> r == x
    ensures x.Undefined? ==> r == Given([])
  {
    if x.Undefined? then Given([]) else x
  }

  /**
   * What `new Company(body)` holds before validation: the schema defaults
   * fill the array paths of a supplied `eligibility` object. Assigning an
   * object to `eligibility` on an existing document does not do this, so
   * there a missing array stays missing.
   */
  function WithDefaults(f: CompanyForm): (r: CompanyForm)
    ensures r.(eligibility := f.eligibility) == f
    ensures !f.eligibility.Given? ==> r == f
    ensures f.eligibility.Given? ==>
      && r.eligibility.Given? && r.eligibility.value.cgpa == f.eligibility.value.cgpa
      && r.eligibility.value.skills == ArrayDefault(f.eligibility.value.skills)
      && r.eligibility.value.branches == ArrayDefault(f.eligibility.value.branches)
  {
    match f.eligibility
    case Given(e) =>
      f.(eligibility := Given(e.(skills := ArrayDefault(e.skills), branches := ArrayDefault(e.branches))))
    case _ => f
  }

  /** The paths whose `required` validators fail, in schema order. */
  function CompanyErrors(f: CompanyForm): (r: seq<string>)
    ensures r == [] <==>
      && RequiredText(f.name) && RequiredText(f.role) && RequiredText(f.location)
      && f.ctc.Given? && EligibilityPresent(f.eligibility)
      && RequiredText(f.description) && f.deadline.Given?
  {
    (if RequiredText(f.name) then [] else ["name"])
    + (if RequiredText(f.role) then [] else ["role"])
    + (if RequiredText(f.location) then [] else ["location"])
    + (if f.ctc.Given? then [] else ["ctc"])
    + EligibilityErrors(f.eligibility)
    + (if RequiredText(f.description) then [] else ["description"])
    + (if f.deadline.Given? then [] else ["deadline"])
  }

  /** Validates a listing document and, when every required path is present, builds it. */
  function BuildCompany(f: CompanyForm, createdAt: int): (r: Result<Company, seq<string>>)
    ensures r.Failure? <==> CompanyErrors(f) != []
    ensures r.Failure? ==> r.error == CompanyErrors(f)
    ensures r.Success? ==> WellFormedCompany(r.value) && r.value.createdAt == createdAt
    ensures r.Success? ==>
      && Given(r.value.name) == f.name && Given(r.value.role) == f.role
      && Given(r.value.location) == f.location && Given(r.value.ctc) == f.ctc
      && Given(r.value.description) == f.description && Given(r.value.deadline) == f.deadline
      && f.eligibility == Given(EligibilityForm(Given(r.value.eligibility.cgpa),
                                                Given(r.value.eligibility.skills),
                                                Given(r.value.eligibility.branches)))
  {
    var errors := CompanyErrors(f);
    if errors != [] then Failure(errors)
    else
      var e := f.eligibility.value;
      Success(Company(f.name.value, f.role.value, f.location.value, f.ctc.value,
                      Eligibility(e.cgpa.value, e.skills.value, e.branches.value),
                      f.description.value, f.deadline.value, createdAt))
  }

  // --------------------------------------------------------- applications

  /** A student's application to a listing. `student` and `company` are required references. */
  datatype Application = Application(student: Id, company: Id, status: Status, appliedAt: int)

  /** The authenticated principal (`req.user`) the auth middleware attaches to a request. */
  datatype Caller = Caller(id: Id, role: Role, companyId: Option<Id>)

  /** A status e-mail handed to the mail dispatcher: recipient, new status, company, student name. */
  datatype Notice = Notice(to: string, status: Status, companyName: string, studentName: string)
}
