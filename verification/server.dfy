/**
 * The mutating endpoints behind one dispatcher, so that the store
 * invariants can be stated for every sequence of requests the server
 * handles one after another.
 */
module Server {
  import opened Wrappers
  import opened Schema
  import opened Db
  import Auth
  import Students
  import Companies
  import Applications

  /** A mutating request; `now` is the clock reading the handler stamps on new documents. */
  datatype Request =
    | SignUp(body: Auth.Registration, now: int)
    | EditProfile(principal: Option<Caller>, profile: Students.ProfileForm)
    | UploadResume(principal: Option<Caller>, file: Option<string>)
    | CreateCompany(listing: CompanyForm, now: int)
    | UpdateCompany(id: Id, listing: CompanyForm)
    | DeleteCompany(id: Id)
    | Apply(caller: Caller, companyId: Id, now: int)
    | UpdateStatus(caller: Caller, appId: Id, status: string)

  /** The store after handling one request; `hash` is bcrypt's hash. */
  function Step(s: Store, req: Request, hash: string -> string): Store {
    match req
    case SignUp(b, now) => Auth.Register(s, b, hash, now).store
    case EditProfile(c, f) => Students.UpdateProfile(s, c, f, hash).store
    case UploadResume(c, file) => Students.UploadResume(s, c, file).store
    case CreateCompany(f, now) => Companies.CreateCompany(s, f, now).store
    case UpdateCompany(id, f) => Companies.UpdateCompany(s, id, f).store
    case DeleteCompany(id) => Companies.DeleteCompany(s, id).store
    case Apply(c, cid, now) => Applications.Apply(s, c, cid, now).store
    case UpdateStatus(c, id, st) => Applications.UpdateStatus(s, c, id, st).store
  }

  /** The store after handling `reqs` in order. */
  function Run(s: Store, reqs: seq<Request>, hash: string -> string): Store
    decreases |reqs|
  {
    if reqs == [] then s else Run(Step(s, reqs[0], hash), reqs[1..], hash)
  }

  lemma StepPreservesValid(s: Store, req: Request, hash: string -> string)
    requires Valid(s)
    ensures Valid(Step(s, req, hash))
  {
    match req
    case SignUp(b, now) => Auth.RegisterPreservesValid(s, b, hash, now);
    case EditProfile(c, f) => Students.UpdateProfilePreservesValid(s, c, f, hash);
    case UploadResume(c, file) => Students.UploadResumePreservesValid(s, c, file);
    case CreateCompany(f, now) => Companies.CreateCompanyPreservesValid(s, f, now);
    case UpdateCompany(id, f) => Companies.UpdateCompanyPreservesValid(s, id, f);
    case DeleteCompany(id) => Companies.DeleteCompanyPreservesValid(s, id);
    case Apply(c, cid, now) => Applications.ApplyPreservesValid(s, c, cid, now);
    case UpdateStatus(c, id, st) => Applications.UpdateStatusPreservesValid(s, c, id, st);
  }

  lemma {:induction false} RunPreservesValid(s: Store, reqs: seq<Request>, hash: string -> string)
    requires Valid(s)
    ensures Valid(Run(s, reqs, hash))
    decreases |reqs|
  {
    if reqs != [] {
      StepPreservesValid(s, reqs[0], hash);
      RunPreservesValid(Step(s, reqs[0], hash), reqs[1..], hash);
    }
  }

  /**
   * Starting from an empty store, any sequence of requests leaves at most
   * one application per (student, company), one account per e-mail and
   * one listing per name.
   */
  lemma ReachableStoresAreUnique(reqs: seq<Request>, hash: string -> string)
    ensures var s := Run(Empty(), reqs, hash);
      UniquePairs(s.applications) && UniqueEmails(s.accounts) && UniqueNames(s.companies)
  {
    RunPreservesValid(Empty(), reqs, hash);
  }
}
