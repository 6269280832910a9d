/**
 * The application workflow: applying to a listing (eligibility, then the
 * one-application-per-pair rule), HR/admin status updates that dispatch a
 * status e-mail for `shortlisted` and `hired`, and the scoped reads.
 */
module Applications {
  import opened Wrappers
  import opened Http
  import opened JsText
  import opened Schema
  import opened Db

  const CompanyNotFound := Text("Company not found")
  const AlreadyApplied := Text("You have already applied to this company")
  const ApplicationNotFound := Text("Application not found")
  const NotAuthorizedToUpdate := Text("Not authorized to update an application for this company")
  const NotAuthorizedForCompany := Text("Not authorized for this company")

  // ------------------------------------------------------------- eligibility

  /** `branches.some(b => b.toLowerCase() === department.toLowerCase())`. */
  predicate BranchListed(branches: seq<string>, department: string) {
    exists i :: 0 <= i < |branches| && SameIgnoringCase(branches[i], department)
  }

  /**
   * The eligibility rules, in the order the handler applies them: the
   * minimum CGPA first, then branch membership when the listing names any
   * branch. `None` means the student may apply. The listing's `skills` are
   * stored but never consulted.
   */
  function EligibilityDenial(a: Account, e: Eligibility): (r: Option<Message>)
    ensures r.None? <==> a.cgpa >= e.cgpa && (|e.branches| == 0 || BranchListed(e.branches, a.department))
    ensures a.cgpa < e.cgpa ==> r == Some(MinimumCgpa(e.cgpa))
    ensures a.cgpa >= e.cgpa && r.Some? ==> r == Some(BranchNotEligible(a.department))
  {
    if a.cgpa < e.cgpa then Some(MinimumCgpa(e.cgpa))
    else if |e.branches| > 0 && !BranchListed(e.branches, a.department) then
      Some(BranchNotEligible(a.department))
    else None
  }

  /** Branch matching ignores the letter case of the department: its lower-cased form is listed exactly when it is. */
  lemma BranchListedIgnoresCase(branches: seq<string>, department: string)
    ensures BranchListed(branches, department) <==> BranchListed(branches, Lower(department))
  {
    LowerIdempotent(department);
  }

  // ------------------------------------------------------------------- apply

  /** `applyForCompany` for the authenticated caller. */
  function Apply(s: Store, caller: Caller, companyId: Id, now: int): (r: Response<Entry<Application>>)
    ensures r.notices == []
    ensures r.reply.Created? || r.reply.NotFound? || r.reply.ServerError?
            || r.reply.Forbidden? || r.reply.BadRequest?
    ensures !r.reply.Created? ==> r.store == s
    ensures companyId !in s.companies <==> r.reply == NotFound(CompanyNotFound)
    ensures companyId in s.companies && caller.id !in s.accounts ==>
              r == Response(ServerError(TypeFault), s, [])
    ensures companyId in s.companies && caller.id in s.accounts
            && s.accounts[caller.id].cgpa < s.companies[companyId].eligibility.cgpa ==>
              r.reply == Forbidden(MinimumCgpa(s.companies[companyId].eligibility.cgpa))
    ensures companyId in s.companies && caller.id in s.accounts
            && s.accounts[caller.id].cgpa >= s.companies[companyId].eligibility.cgpa
            && |s.companies[companyId].eligibility.branches| > 0
            && !BranchListed(s.companies[companyId].eligibility.branches, s.accounts[caller.id].department) ==>
              r.reply == Forbidden(BranchNotEligible(s.accounts[caller.id].department))
    ensures r.reply == BadRequest(AlreadyApplied) <==>
      && companyId in s.companies && caller.id in s.accounts
      && EligibilityDenial(s.accounts[caller.id], s.companies[companyId].eligibility).None?
      && HasApplied(s.applications, caller.id, companyId)
    ensures r.reply.Created? ==>
      && var app := Application(caller.id, companyId, Pending, now);
      && r.reply.value == Entry(s.nextId, app)
      && r.store == s.(applications := s.applications[s.nextId := app], nextId := s.nextId + 1)
      && !HasApplied(s.applications, caller.id, companyId)
  {
    if companyId !in s.companies then Response(NotFound(CompanyNotFound), s, [])
    // the student lookup returned null: reading `student.cgpa` throws
    else if caller.id !in s.accounts then Response(ServerError(TypeFault), s, [])
    else
      match EligibilityDenial(s.accounts[caller.id], s.companies[companyId].eligibility)
      case Some(m) => Response(Forbidden(m), s, [])
      case None =>
        if HasApplied(s.applications, caller.id, companyId) then Response(BadRequest(AlreadyApplied), s, [])
        else
          var id := s.nextId;
          var app := Application(caller.id, companyId, Pending, now);
          Response(Created(Entry(id, app)),
                   s.(applications := s.applications[id := app], nextId := id + 1), [])
  }

  /** Applying succeeds exactly when both documents exist, the student is eligible and has not applied yet. */
  lemma ApplySucceedsIff(s: Store, caller: Caller, companyId: Id, now: int)
    ensures Apply(s, caller, companyId, now).reply.Created? <==>
      && companyId in s.companies && caller.id in s.accounts
      && s.accounts[caller.id].cgpa >= s.companies[companyId].eligibility.cgpa
      && (|s.companies[companyId].eligibility.branches| == 0
          || BranchListed(s.companies[companyId].eligibility.branches, s.accounts[caller.id].department))
      && !HasApplied(s.applications, caller.id, companyId)
  {
  }

  /** In a valid store a successful apply adds exactly one application. */
  lemma ApplyAddsOne(s: Store, caller: Caller, companyId: Id, now: int)
    requires Valid(s)
    requires Apply(s, caller, companyId, now).reply.Created?
    ensures |Apply(s, caller, companyId, now).store.applications| == |s.applications| + 1
  {
    assert s.nextId !in s.applications;
  }

  /** A second application for the same pair is refused and changes nothing. */
  lemma ApplyTwice(s: Store, caller: Caller, companyId: Id, now1: int, now2: int)
    requires Apply(s, caller, companyId, now1).reply.Created?
    ensures var s1 := Apply(s, caller, companyId, now1).store;
      Apply(s1, caller, companyId, now2) == Response(BadRequest(AlreadyApplied), s1, [])
  {
    var s1 := Apply(s, caller, companyId, now1).store;
    assert s1.applications[s.nextId].student == caller.id;
  }

  /** Neither the listing's required skills nor its deadline affect the outcome of applying. */
  lemma ApplyIgnoresSkillsAndDeadline(s: Store, caller: Caller, companyId: Id, now: int,
                                      skills: seq<string>, deadline: int)
    requires companyId in s.companies
    ensures var c := s.companies[companyId];
      var c' := c.(eligibility := c.eligibility.(skills := skills), deadline := deadline);
      Apply(s.(companies := s.companies[companyId := c']), caller, companyId, now).reply
        == Apply(s, caller, companyId, now).reply
  {
  }

  /** Applying keeps the store invariants, the (student, company) unique index in particular. */
  lemma ApplyPreservesValid(s: Store, caller: Caller, companyId: Id, now: int)
    requires Valid(s)
    ensures Valid(Apply(s, caller, companyId, now).store)
  {
  }

  // ----------------------------------------------------------- status update

  /** The statuses whose update e-mails the student. */
  predicate Notifies(st: Status) {
    st == Shortlisted || st == Hired
  }

  /**
   * Whether `caller` may change application `appId`: it exists, and an `hr`
   * caller's company is the application's listing, which still exists.
   */
  predicate MayUpdate(s: Store, caller: Caller, appId: Id) {
    && appId in s.applications
    && (caller.role == Hr ==>
          && s.applications[appId].company in s.companies
          && caller.companyId == Some(s.applications[appId].company))
  }

  /**
   * `updateApplicationStatus` with body `{ status }`. An `hr` caller may
   * touch only applications of its own company; everyone else (the route
   * admits admins and HR) is unrestricted. The reply is the saved document
   * with its student (without the password) and its listing populated. The
   * application is saved before the e-mail is built, so a dangling student
   * or company reference there fails the reply after the status has been stored.
   */
  function UpdateStatus(s: Store, caller: Caller, appId: Id, status: string): (r: Response<ApplicationView>)
    ensures appId !in s.applications <==> r.reply == NotFound(ApplicationNotFound)
    ensures appId in s.applications && caller.role == Hr && s.applications[appId].company !in s.companies ==>
      r == Response(ServerError(TypeFault), s, [])
    ensures r.reply.Forbidden? <==>
      && appId in s.applications && caller.role == Hr
      && s.applications[appId].company in s.companies
      && caller.companyId != Some(s.applications[appId].company)
    ensures r.reply.Forbidden? ==> r.reply.msg == NotAuthorizedToUpdate
    ensures !MayUpdate(s, caller, appId) ==> r.store == s && r.notices == []
    ensures MayUpdate(s, caller, appId) && ParseStatus(status).None? ==>
      r == Response(ServerError(ValidationFailed(["status"])), s, [])
    ensures MayUpdate(s, caller, appId) && ParseStatus(status).Some? ==>
      && var app := s.applications[appId];
      && var st := ParseStatus(status).value;
      && r.store == s.(applications := s.applications[appId := app.(status := st)])
      && (r.reply.Ok? <==> !Notifies(st) || (app.student in s.accounts && app.company in s.companies))
      && (!r.reply.Ok? ==> r.reply == ServerError(TypeFault))
    ensures r.reply.Ok? ==>
      && MayUpdate(s, caller, appId) && ParseStatus(status).Some?
      && r.reply.value == Populate(r.store, appId, true, true)
      && r.reply.value.application == s.applications[appId].(status := ParseStatus(status).value)
    ensures r.notices != [] ==> r.reply.Ok?
    ensures r.reply.Ok? ==>
      && var app := s.applications[appId];
      && var st := ParseStatus(status).value;
      && (Notifies(st) ==>
            r.notices == [Notice(s.accounts[app.student].email, st,
                                 s.companies[app.company].name, s.accounts[app.student].name)])
      && (!Notifies(st) ==> r.notices == [])
  {
    if appId !in s.applications then Response(NotFound(ApplicationNotFound), s, [])
    else
      var app := s.applications[appId];
      // the populated company is null: reading its `_id` throws
      if caller.role == Hr && app.company !in s.companies then Response(ServerError(TypeFault), s, [])
      else if caller.role == Hr && caller.companyId != Some(app.company) then
        Response(Forbidden(NotAuthorizedToUpdate), s, [])
      else
        match ParseStatus(status)
        case None => Response(ServerError(ValidationFailed(["status"])), s, [])
        case Some(st) =>
          var saved := s.(applications := s.applications[appId := app.(status := st)]);
          if !Notifies(st) then Response(Ok(Populate(saved, appId, true, true)), saved, [])
          // the populated student or company is null: building the e-mail throws after the save
          else if app.student !in s.accounts || app.company !in s.companies then
            Response(ServerError(TypeFault), saved, [])
          else
            var student := s.accounts[app.student];
            Response(Ok(Populate(saved, appId, true, true)), saved,
                     [Notice(student.email, st, s.companies[app.company].name, student.name)])
  }

  /** An e-mail goes out exactly for a successful update to `shortlisted` or `hired`. */
  lemma NotifiesExactly(s: Store, caller: Caller, appId: Id, status: string)
    ensures var r := UpdateStatus(s, caller, appId, status);
      r.notices != [] <==> r.reply.Ok? && (status == "shortlisted" || status == "hired")
  {
  }

  /**
   * Setting the status an application already has leaves the store as it
   * was, and a permitted caller gets a success unless the e-mail for a
   * notifying status cannot be built.
   */
  lemma UpdateToSameStatus(s: Store, caller: Caller, appId: Id)
    requires appId in s.applications
    ensures var app := s.applications[appId];
      var r := UpdateStatus(s, caller, appId, StatusName(app.status));
      && r.store == s
      && (MayUpdate(s, caller, appId)
          && (!Notifies(app.status) || (app.student in s.accounts && app.company in s.companies)) ==>
            r.reply == Ok(Populate(s, appId, true, true)))
  {
    StatusNameRoundTrip(s.applications[appId].status);
    var app := s.applications[appId];
    assert app.(status := app.status) == app;
    assert s.applications[appId := app] == s.applications;
  }

  /** Repeating a status update changes nothing the first one did not. */
  lemma UpdateStatusTwice(s: Store, caller: Caller, appId: Id, status: string)
    ensures var s1 := UpdateStatus(s, caller, appId, status).store;
      UpdateStatus(s1, caller, appId, status).store == s1
  {
    var s1 := UpdateStatus(s, caller, appId, status).store;
    if s1 != s {
      var app1 := s1.applications[appId];
      assert app1.(status := ParseStatus(status).value) == app1;
      assert s1.applications[appId := app1] == s1.applications;
    }
  }

  /** An admin is never refused for company scope. */
  lemma AdminIsUnrestricted(s: Store, caller: Caller, appId: Id, status: string, companyId: Id)
    requires caller.role == Admin
    ensures !UpdateStatus(s, caller, appId, status).reply.Forbidden?
    ensures !ApplicationsByCompany(s, caller, companyId).Forbidden?
  {
  }

  /** An HR caller can change only applications of its own company. */
  lemma HrStaysInItsCompany(s: Store, caller: Caller, appId: Id, status: string)
    requires caller.role == Hr
    requires UpdateStatus(s, caller, appId, status).store != s
    ensures caller.companyId == Some(s.applications[appId].company)
  {
  }

  /** A status update keeps the store invariants: it touches one status and no key. */
  lemma UpdateStatusPreservesValid(s: Store, caller: Caller, appId: Id, status: string)
    requires Valid(s)
    ensures Valid(UpdateStatus(s, caller, appId, status).store)
  {
  }

  // ------------------------------------------------------------------- reads

  /**
   * An application as a read returns it; `student` and `company` hold the
   * referenced documents where the handler populates them and they still
   * exist (the password is never selected).
   */
  datatype ApplicationView = ApplicationView(
    id: Id,
    application: Application,
    student: Option<Profile>,
    company: Option<Company>)

  function Populate(s: Store, id: Id, withStudent: bool, withCompany: bool): (v: ApplicationView)
    requires id in s.applications
    ensures v.id == id && v.application == s.applications[id]
    ensures v.student.Some? <==> withStudent && v.application.student in s.accounts
    ensures v.student.Some? ==> v.student.value == PublicView(v.application.student, s.accounts[v.application.student])
    ensures v.company.Some? <==> withCompany && v.application.company in s.companies
    ensures v.company.Some? ==> v.company.value == s.companies[v.application.company]
  {
    var app := s.applications[id];
    ApplicationView(
      id, app,
      if withStudent && app.student in s.accounts then Some(PublicView(app.student, s.accounts[app.student])) else None,
      if withCompany && app.company in s.companies then Some(s.companies[app.company]) else None)
  }

  /** `Application.find(filter)` in insertion order, populated as asked. */
  function FindApplications(s: Store, p: Application -> bool, withStudent: bool, withCompany: bool)
    : (rows: seq<ApplicationView>)
    ensures forall i :: 0 <= i < |rows| ==>
      rows[i].id in s.applications && rows[i] == Populate(s, rows[i].id, withStudent, withCompany)
      && p(rows[i].application)
    ensures forall i, j :: 0 <= i < j < |rows| ==> rows[i].id < rows[j].id
    ensures FreshIds(s) ==>
      forall k :: k in s.applications && p(s.applications[k]) ==>
        exists i :: 0 <= i < |rows| && rows[i].id == k
  {
    var ids := IdsWhere(s.applications, p, s.nextId);
    var rows := seq(|ids|, i requires 0 <= i < |ids| => Populate(s, ids[i], withStudent, withCompany));
    assert forall i :: 0 <= i < |rows| ==> rows[i].id == ids[i];
    rows
  }

  /** `getMyApplications`: the caller's applications, each with its listing. */
  function MyApplications(s: Store, caller: Caller): (r: Reply<seq<ApplicationView>>)
    ensures r.Ok?
    ensures forall i :: 0 <= i < |r.value| ==>
      && r.value[i].id in s.applications
      && r.value[i] == Populate(s, r.value[i].id, false, true)
      && r.value[i].application.student == caller.id
    ensures forall i, j :: 0 <= i < j < |r.value| ==> r.value[i].id < r.value[j].id
    ensures FreshIds(s) ==>
      forall k :: k in s.applications && s.applications[k].student == caller.id ==>
        exists i :: 0 <= i < |r.value| && r.value[i].id == k
  {
    Ok(FindApplications(s, (a: Application) => a.student == caller.id, false, true))
  }

  /** `getApplicationsByCompany`: an `hr` caller is confined to its own company. */
  function ApplicationsByCompany(s: Store, caller: Caller, companyId: Id): (r: Reply<seq<ApplicationView>>)
    ensures r.Ok? || r.Forbidden?
    ensures r.Forbidden? <==> caller.role == Hr && caller.companyId != Some(companyId)
    ensures r.Forbidden? ==> r.msg == NotAuthorizedForCompany
    ensures r.Ok? ==> forall i :: 0 <= i < |r.value| ==>
      && r.value[i].id in s.applications
      && r.value[i] == Populate(s, r.value[i].id, true, false)
      && r.value[i].application.company == companyId
    ensures r.Ok? ==> forall i, j :: 0 <= i < j < |r.value| ==> r.value[i].id < r.value[j].id
    ensures r.Ok? && FreshIds(s) ==>
      forall k :: k in s.applications && s.applications[k].company == companyId ==>
        exists i :: 0 <= i < |r.value| && r.value[i].id == k
  {
    if caller.role == Hr && caller.companyId != Some(companyId) then Forbidden(NotAuthorizedForCompany)
    else Ok(FindApplications(s, (a: Application) => a.company == companyId, true, false))
  }

  /** `getApplications`: every application with both sides populated. */
  function AllApplications(s: Store): (r: Reply<seq<ApplicationView>>)
    ensures r.Ok?
    ensures forall i :: 0 <= i < |r.value| ==>
      r.value[i].id in s.applications && r.value[i] == Populate(s, r.value[i].id, true, true)
    ensures forall i, j :: 0 <= i < j < |r.value| ==> r.value[i].id < r.value[j].id
    ensures FreshIds(s) ==>
      forall k :: k in s.applications ==> exists i :: 0 <= i < |r.value| && r.value[i].id == k
  {
    Ok(FindApplications(s, (a: Application) => true, true, true))
  }
}
