/** The company controller: admin create, read, update and delete of listings. */
module Companies {
  import opened Wrappers
  import opened Http
  import opened Schema
  import opened Db

  const CompanyNotFound := Text("Company not found")
  const CompanyRemoved := "Company removed"

  /** `getCompanies`: every listing, in insertion order. */
  function GetCompanies(s: Store): (r: Reply<seq<Entry<Company>>>)
    ensures r.Ok?
    ensures forall i :: 0 <= i < |r.value| ==>
      r.value[i].id in s.companies && r.value[i].doc == s.companies[r.value[i].id]
    ensures forall i, j :: 0 <= i < j < |r.value| ==> r.value[i].id < r.value[j].id
    ensures FreshIds(s) ==>
      forall k :: k in s.companies ==> exists i :: 0 <= i < |r.value| && r.value[i].id == k
  {
    var ids := IdsWhere(s.companies, (c: Company) => true, s.nextId);
    var rows := seq(|ids|, i requires 0 <= i < |ids| => Entry(ids[i], s.companies[ids[i]]));
    assert forall i :: 0 <= i < |rows| ==> rows[i].id == ids[i];
    Ok(rows)
  }

  /** `getCompanyById`. */
  function GetCompanyById(s: Store, id: Id): (r: Reply<Company>)
    ensures r.Ok? <==> id in s.companies
    ensures r.Ok? ==> r.value == s.companies[id]
    ensures !r.Ok? ==> r == NotFound(CompanyNotFound)
  {
    if id in s.companies then Ok(s.companies[id]) else NotFound(CompanyNotFound)
  }

  /**
   * `createCompany`: the new document (with the array defaults filled in) is
   * validated, then the unique index on `name` is checked, then it is inserted.
   */
  function CreateCompany(s: Store, f: CompanyForm, now: int): (r: Response<Entry<Company>>)
    ensures r.notices == []
    ensures r.reply.Created? || r.reply.ServerError?
    ensures !r.reply.Created? ==> r.store == s
    ensures CompanyErrors(WithDefaults(f)) != [] ==>
              r.reply == ServerError(ValidationFailed(CompanyErrors(WithDefaults(f))))
    ensures CompanyErrors(WithDefaults(f)) == [] && NameTaken(s.companies, f.name.value) ==>
              r.reply == ServerError(DuplicateKey("name"))
    ensures r.reply.Created? ==>
      && var id := r.reply.value.id;
      && var c := r.reply.value.doc;
      && id == s.nextId
      && r.store == s.(companies := s.companies[id := c], nextId := id + 1)
      && !NameTaken(s.companies, c.name)
      && Given(c.name) == f.name && Given(c.role) == f.role && Given(c.location) == f.location
      && Given(c.ctc) == f.ctc && Given(c.description) == f.description
      && Given(c.deadline) == f.deadline && c.createdAt == now
      && f.eligibility.Given? && f.eligibility.value.cgpa == Given(c.eligibility.cgpa)
      && ArrayDefault(f.eligibility.value.skills) == Given(c.eligibility.skills)
      && ArrayDefault(f.eligibility.value.branches) == Given(c.eligibility.branches)
  {
    match BuildCompany(WithDefaults(f), now)
    case Failure(paths) => Response(ServerError(ValidationFailed(paths)), s, [])
    case Success(c) =>
      if NameTaken(s.companies, c.name) then Response(ServerError(DuplicateKey("name")), s, [])
      else
        var id := s.nextId;
        Response(Created(Entry(id, c)), s.(companies := s.companies[id := c], nextId := id + 1), [])
  }

  /** A listing is created exactly when it validates, once defaulted, and its name is not yet taken. */
  lemma CreateCompanySucceedsIff(s: Store, f: CompanyForm, now: int)
    ensures CreateCompany(s, f, now).reply.Created? <==>
      CompanyErrors(WithDefaults(f)) == [] && !NameTaken(s.companies, f.name.value)
  {
  }

  /** The stored eligibility, as a form that would rebuild it. */
  function FormOf(e: Eligibility): EligibilityForm {
    EligibilityForm(Given(e.cgpa), Given(e.skills), Given(e.branches))
  }

  /** `field = x || company.field` for every field of `updateCompany`. */
  function MergeForm(c: Company, f: CompanyForm): CompanyForm {
    CompanyForm(
      Given(OrText(f.name, c.name)),
      Given(OrText(f.role, c.role)),
      Given(OrText(f.location, c.location)),
      Given(OrReal(f.ctc, c.ctc)),
      if f.eligibility.Given? then f.eligibility else Given(FormOf(c.eligibility)),
      Given(OrText(f.description, c.description)),
      Given(OrInt(f.deadline, c.deadline)))
  }

  /**
   * `updateCompany`. A supplied `eligibility` object replaces the stored one
   * whole, without defaults, so every one of its keys must be present.
   */
  function UpdateCompany(s: Store, id: Id, f: CompanyForm): (r: Response<Entry<Company>>)
    ensures r.notices == []
    ensures r.reply.Ok? || r.reply.NotFound? || r.reply.ServerError?
    ensures id !in s.companies <==> r.reply == NotFound(CompanyNotFound)
    ensures !r.reply.Ok? ==> r.store == s
    ensures r.reply.Ok? ==>
      && id in s.companies && r.reply.value.id == id
      && var prev := s.companies[id];
      && var c := r.reply.value.doc;
      && r.store == s.(companies := s.companies[id := c])
      && WellFormedCompany(c) && !NameTakenByOther(s.companies, id, c.name)
      && c.name == (if TextTruthy(f.name) then f.name.value else prev.name)
      && c.role == (if TextTruthy(f.role) then f.role.value else prev.role)
      && c.location == (if TextTruthy(f.location) then f.location.value else prev.location)
      && c.ctc == (if f.ctc.Given? && f.ctc.value != 0.0 then f.ctc.value else prev.ctc)
      && c.description == (if TextTruthy(f.description) then f.description.value else prev.description)
      && c.deadline == (if f.deadline.Given? && f.deadline.value != 0 then f.deadline.value else prev.deadline)
      && (f.eligibility.Given? ==> FormOf(c.eligibility) == f.eligibility.value)
      && (!f.eligibility.Given? ==> c.eligibility == prev.eligibility)
      && c.createdAt == prev.createdAt
    ensures id in s.companies && WellFormedCompany(s.companies[id])
            && f.eligibility.Given? && !EligibilityPresent(f.eligibility) ==>
      r.reply == ServerError(ValidationFailed(EligibilityErrors(f.eligibility)))
  {
    if id !in s.companies then Response(NotFound(CompanyNotFound), s, [])
    else
      var prev := s.companies[id];
      match BuildCompany(MergeForm(prev, f), prev.createdAt)
      case Failure(paths) =>
        assert WellFormedCompany(prev) && f.eligibility.Given? ==> paths == EligibilityErrors(f.eligibility) by {
          if WellFormedCompany(prev) { MergedErrors(prev, f); }
        }
        Response(ServerError(ValidationFailed(paths)), s, [])
      case Success(c) =>
        if NameTakenByOther(s.companies, id, c.name) then Response(ServerError(DuplicateKey("name")), s, [])
        else Response(Ok(Entry(id, c)), s.(companies := s.companies[id := c]), [])
  }

  /** Merged onto a well-formed listing, a form can fail only on the keys of a supplied eligibility object. */
  lemma MergedErrors(c: Company, f: CompanyForm)
    requires WellFormedCompany(c)
    ensures CompanyErrors(MergeForm(c, f)) ==
      (if f.eligibility.Given? then EligibilityErrors(f.eligibility) else [])
  {
    var m := MergeForm(c, f);
    assert RequiredText(m.name) && RequiredText(m.role) && RequiredText(m.location);
    assert RequiredText(m.description);
  }

  /**
   * Updating a well-formed listing fails only through an eligibility object
   * that lacks one of its keys, or a name held by another listing.
   */
  lemma UpdateCompanyValidation(s: Store, id: Id, f: CompanyForm)
    requires id in s.companies && WellFormedCompany(s.companies[id])
    ensures UpdateCompany(s, id, f).reply.ServerError? <==>
      (f.eligibility.Given? && !EligibilityPresent(f.eligibility))
      || (!(f.eligibility.Given? && !EligibilityPresent(f.eligibility))
          && NameTakenByOther(s.companies, id, OrText(f.name, s.companies[id].name)))
  {
  }

  /** An update that supplies nothing truthy leaves the listing as it was. */
  lemma EmptyUpdateIsNoOp(s: Store, id: Id)
    requires Valid(s) && id in s.companies
    ensures var r := UpdateCompany(s, id, CompanyForm(Undefined, Undefined, Undefined, Undefined,
                                                      Undefined, Undefined, Undefined));
      r.reply == Ok(Entry(id, s.companies[id])) && r.store == s
  {
  }

  /**
   * An `eligibility` object carrying only `cgpa` gets empty `skills` and
   * `branches` when a listing is created, but fails validation on both paths
   * when it is assigned to an existing listing.
   */
  lemma EligibilityArraysDefaultOnlyOnCreate(s: Store, f: CompanyForm, id: Id, now: int)
    requires f.eligibility.Given? && f.eligibility.value.cgpa.Given?
    requires f.eligibility.value.skills.Undefined? && f.eligibility.value.branches.Undefined?
    ensures var r := CreateCompany(s, f, now);
      r.reply.Created? ==> r.reply.value.doc.eligibility.skills == [] && r.reply.value.doc.eligibility.branches == []
    ensures id in s.companies && WellFormedCompany(s.companies[id]) ==>
      UpdateCompany(s, id, f) == Response(ServerError(ValidationFailed(["eligibility.skills", "eligibility.branches"])), s, [])
  {
    assert EligibilityErrors(f.eligibility) == ["eligibility.skills", "eligibility.branches"] by {
      assert EligibilityErrors(f.eligibility) == [] + ["eligibility.skills"] + ["eligibility.branches"];
    }
  }

  /** `deleteCompany`: removes that listing only; applications that reference it stay. */
  function DeleteCompany(s: Store, id: Id): (r: Response<string>)
    ensures r.notices == []
    ensures id in s.companies <==> r.reply == Ok(CompanyRemoved)
    ensures id !in s.companies <==> r.reply == NotFound(CompanyNotFound)
    ensures r.store.companies == s.companies - {id}
    ensures r.store.accounts == s.accounts && r.store.applications == s.applications
    ensures r.store.nextId == s.nextId
  {
    if id in s.companies then Response(Ok(CompanyRemoved), s.(companies := s.companies - {id}), [])
    else Response(NotFound(CompanyNotFound), s, [])
  }

  /** A created listing reads back as created. */
  lemma CreateCompanyThenRead(s: Store, f: CompanyForm, now: int)
    requires CreateCompany(s, f, now).reply.Created?
    ensures var r := CreateCompany(s, f, now);
      GetCompanyById(r.store, r.reply.value.id) == Ok(r.reply.value.doc)
  {
  }

  /** An updated listing reads back as the update replied. */
  lemma UpdateCompanyThenRead(s: Store, id: Id, f: CompanyForm)
    requires UpdateCompany(s, id, f).reply.Ok?
    ensures var r := UpdateCompany(s, id, f);
      GetCompanyById(r.store, id) == Ok(r.reply.value.doc)
  {
  }

  /** A deleted listing is no longer found, and deleting it again is refused. */
  lemma DeleteCompanyThenRead(s: Store, id: Id)
    ensures var s1 := DeleteCompany(s, id).store;
      && GetCompanyById(s1, id) == NotFound(CompanyNotFound)
      && DeleteCompany(s1, id).reply == NotFound(CompanyNotFound)
  {
  }

  lemma CreateCompanyPreservesValid(s: Store, f: CompanyForm, now: int)
    requires Valid(s)
    ensures Valid(CreateCompany(s, f, now).store)
  {
  }

  lemma UpdateCompanyPreservesValid(s: Store, id: Id, f: CompanyForm)
    requires Valid(s)
    ensures Valid(UpdateCompany(s, id, f).store)
  {
    var r := UpdateCompany(s, id, f);
    if r.reply.Ok? {
      ReplaceCompanyKeepsValid(s, id, r.reply.value.doc);
    }
  }

  lemma DeleteCompanyPreservesValid(s: Store, id: Id)
    requires Valid(s)
    ensures Valid(DeleteCompany(s, id).store)
  {
  }
}
