/**
 * Sign-up and login. Hashing and hash comparison are bcrypt's and enter as
 * parameters (`hash`, `matches`); token signing is not modelled.
 */
module Auth {
  import opened Wrappers
  import opened Http
  import opened Schema
  import opened Db

  /** The sign-up request body. */
  datatype Registration = Registration(
    name: Input<string>,
    email: Input<string>,
    password: Input<string>,
    department: Input<string>,
    cgpa: Input<real>,
    skills: Input<SkillsValue>,
    resume: Input<string>,
    role: Input<string>)

  /** The login request body. */
  datatype Credentials = Credentials(email: Input<string>, password: Input<string>)

  /** The identity returned by sign-up and login (the signed token is not modelled). */
  datatype Session = Session(id: Id, name: string, email: string, role: Role)

  const MissingFields := Text("Please provide all required fields")
  const UserExists := Text("User already exists")
  const MissingCredentials := Text("Please provide email and password")
  const InvalidCredentials := Text("Invalid email or password")

  /** name, email, password and department truthy; `cgpa` checked with `=== undefined` only. */
  predicate RegistrationComplete(b: Registration) {
    TextTruthy(b.name) && TextTruthy(b.email) && TextTruthy(b.password)
    && TextTruthy(b.department) && !b.cgpa.Undefined?
  }

  /** `Array.isArray(skills) ? skills : []`. */
  function RegistrationSkills(x: Input<SkillsValue>): seq<string> {
    if x.Given? && x.value.Items? then x.value.items else []
  }

  /** The account document sign-up creates, before validation. */
  function RegistrationDraft(b: Registration, now: int): AccountDraft
    requires RegistrationComplete(b)
  {
    AccountDraft(b.name.value, b.email.value, Plain(b.password.value), OrText(b.role, "student"),
                 b.department.value, b.cgpa, RegistrationSkills(b.skills), OrText(b.resume, ""),
                 None, now)
  }

  /** `registerUser`. */
  function Register(s: Store, b: Registration, hash: string -> string, now: int): (r: Response<Session>)
    ensures r.notices == []
    ensures r.reply.BadRequest? || r.reply.Created? || r.reply.ServerError?
    ensures !RegistrationComplete(b) ==> r.reply == BadRequest(MissingFields)
    ensures RegistrationComplete(b) && EmailTaken(s.accounts, b.email.value) ==>
              r.reply == BadRequest(UserExists)
    ensures RegistrationComplete(b) && !EmailTaken(s.accounts, b.email.value)
            && AccountErrors(RegistrationDraft(b, now)) != [] ==>
              r.reply == ServerError(ValidationFailed(AccountErrors(RegistrationDraft(b, now))))
    ensures !r.reply.Created? ==> r.store == s
    ensures r.reply.Created? ==>
      && RegistrationComplete(b) && !EmailTaken(s.accounts, b.email.value)
      && var id := r.reply.value.id;
      && id == s.nextId && id in r.store.accounts
      && r.store == s.(accounts := s.accounts[id := r.store.accounts[id]], nextId := id + 1)
      && var a := r.store.accounts[id];
      && r.reply.value == Session(id, b.name.value, b.email.value, a.role)
      && a.name == b.name.value && a.email == b.email.value
      && a.department == b.department.value && Given(a.cgpa) == b.cgpa
      && a.passwordHash == hash(b.password.value) && |b.password.value| >= 6
      && a.skills == RegistrationSkills(b.skills) && a.resume == OrText(b.resume, "")
      && RoleName(a.role) == OrText(b.role, "student")
      && a.companyId == None && a.createdAt == now
  {
    if !RegistrationComplete(b) then Response(BadRequest(MissingFields), s, [])
    else if EmailTaken(s.accounts, b.email.value) then Response(BadRequest(UserExists), s, [])
    else
      match SaveAccount(RegistrationDraft(b, now), hash)
      case Failure(paths) => Response(ServerError(ValidationFailed(paths)), s, [])
      case Success(a) =>
        var id := s.nextId;
        Response(Created(Session(id, a.name, a.email, a.role)),
                 s.(accounts := s.accounts[id := a], nextId := id + 1), [])
  }

  /**
   * A registration succeeds exactly when every required field is given, the
   * e-mail is not yet registered, and the document passes schema validation.
   */
  lemma RegisterSucceedsIff(s: Store, b: Registration, hash: string -> string, now: int)
    ensures Register(s, b, hash, now).reply.Created? <==>
      && RegistrationComplete(b)
      && !EmailTaken(s.accounts, b.email.value)
      && AccountErrors(RegistrationDraft(b, now)) == []
  {
  }

  /** An omitted role, or an empty one, registers a student. */
  lemma RegisterDefaultsToStudent(s: Store, b: Registration, hash: string -> string, now: int)
    requires !TextTruthy(b.role)
    requires Register(s, b, hash, now).reply.Created?
    ensures Register(s, b, hash, now).reply.value.role == Student
  {
  }

  /** A `cgpa` of 0 passes the `=== undefined` check, unlike the other required fields. */
  lemma ZeroCgpaIsAccepted(b: Registration)
    requires TextTruthy(b.name) && TextTruthy(b.email) && TextTruthy(b.password)
    requires TextTruthy(b.department)
    requires b.cgpa == Given(0.0)
    ensures RegistrationComplete(b)
  {
  }

  /** Sign-up keeps the store invariants: fresh ids, unique e-mails, valid documents. */
  lemma RegisterPreservesValid(s: Store, b: Registration, hash: string -> string, now: int)
    requires Valid(s)
    ensures Valid(Register(s, b, hash, now).store)
  {
  }

  /** `findOne({ email })`: the first account in insertion order with that e-mail. */
  function FindByEmail(s: Store, email: string): (r: Option<Id>)
    ensures r.Some? ==> r.value in s.accounts && s.accounts[r.value].email == email
    ensures r.None? && FreshIds(s) ==> !EmailTaken(s.accounts, email)
  {
    FirstWhere(s.accounts, (a: Account) => a.email == email, s.nextId)
  }

  /** `authUser`: Ok only for a known e-mail whose stored hash accepts the password. */
  function Login(s: Store, c: Credentials, matches: (string, string) -> bool): (r: Reply<Session>)
    ensures r.Ok? || r.BadRequest? || r.Unauthorized?
    ensures !(TextTruthy(c.email) && TextTruthy(c.password)) <==> r == BadRequest(MissingCredentials)
    ensures r.Unauthorized? ==> r.msg == InvalidCredentials
    ensures r.Ok? ==>
      && TextTruthy(c.email) && TextTruthy(c.password)
      && var id := r.value.id;
      && id in s.accounts && s.accounts[id].email == c.email.value
      && matches(c.password.value, s.accounts[id].passwordHash)
      && r.value == Session(id, s.accounts[id].name, s.accounts[id].email, s.accounts[id].role)
  {
    if !TextTruthy(c.email) || !TextTruthy(c.password) then BadRequest(MissingCredentials)
    else
      match FindByEmail(s, c.email.value)
      case Some(id) =>
        var a := s.accounts[id];
        if matches(c.password.value, a.passwordHash) then Ok(Session(id, a.name, a.email, a.role))
        else Unauthorized(InvalidCredentials)
      case None => Unauthorized(InvalidCredentials)
  }

  /** With unique e-mails, login succeeds exactly when some account has that e-mail and the password matches. */
  lemma LoginSucceedsIff(s: Store, c: Credentials, matches: (string, string) -> bool)
    requires Valid(s)
    requires TextTruthy(c.email) && TextTruthy(c.password)
    ensures Login(s, c, matches).Ok? <==>
      exists k :: k in s.accounts && s.accounts[k].email == c.email.value
                  && matches(c.password.value, s.accounts[k].passwordHash)
  {
    var r := FindByEmail(s, c.email.value);
    if r.Some? {
      var id := r.value;
      forall k | k in s.accounts && s.accounts[k].email == c.email.value
        ensures k == id
      {
      }
    }
  }

  /**
   * Sign-up followed by login with the same e-mail and password returns the
   * session sign-up returned, given that bcrypt accepts a password against its own hash.
   */
  lemma RegisterThenLogin(s: Store, b: Registration, hash: string -> string,
                          matches: (string, string) -> bool, now: int)
    requires Valid(s)
    requires forall p :: matches(p, hash(p))
    requires Register(s, b, hash, now).reply.Created?
    ensures Login(Register(s, b, hash, now).store, Credentials(b.email, b.password), matches)
            == Ok(Register(s, b, hash, now).reply.value)
  {
    var r := Register(s, b, hash, now);
    RegisterPreservesValid(s, b, hash, now);
    var id := r.reply.value.id;
    LoginSucceedsIff(r.store, Credentials(b.email, b.password), matches);
    var found := FindByEmail(r.store, b.email.value);
    assert r.store.accounts[id].email == b.email.value;
    assert found.Some? && found.value == id;
  }
}
