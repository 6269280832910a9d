/**
 * The student controller: reading and editing one's own profile (with the
 * skills normalisation and keep-old-unless-given merge), the mock resume
 * upload, and the admin reads of accounts.
 */
module Students {
  import opened Wrappers
  import opened Http
  import opened JsText
  import opened JsArrays
  import opened Sequences
  import opened Schema
  import opened Db

  const NotAuthorized := Text("Not authorized")
  const StudentNotFound := Text("Student not found")
  const EmailInUse := Text("Email already in use")
  const NoFileUploaded := Text("No file uploaded")

  /** `getStudentProfile`: the caller's own account, with the password withheld. */
  function GetProfile(s: Store, caller: Option<Caller>): (r: Reply<Profile>)
    ensures caller.None? <==> r == Unauthorized(NotAuthorized)
    ensures caller.Some? ==> (r.Ok? <==> caller.value.id in s.accounts)
    ensures caller.Some? && !r.Ok? ==> r == NotFound(StudentNotFound)
    ensures r.Ok? ==> r.value == PublicView(caller.value.id, s.accounts[caller.value.id])
  {
    if caller.None? then Unauthorized(NotAuthorized)
    else if caller.value.id !in s.accounts then NotFound(StudentNotFound)
    else Ok(PublicView(caller.value.id, s.accounts[caller.value.id]))
  }

  /** `getStudentById`. */
  function GetStudentById(s: Store, id: Id): (r: Reply<Profile>)
    ensures r.Ok? <==> id in s.accounts
    ensures r.Ok? ==> r.value == PublicView(id, s.accounts[id])
    ensures !r.Ok? ==> r == NotFound(StudentNotFound)
  {
    if id in s.accounts then Ok(PublicView(id, s.accounts[id])) else NotFound(StudentNotFound)
  }

  /** `getStudents`: every student account without its password, in insertion order. */
  function ListStudents(s: Store): (r: Reply<seq<Profile>>)
    ensures r.Ok?
    ensures forall i :: 0 <= i < |r.value| ==>
      && r.value[i].id in s.accounts && s.accounts[r.value[i].id].role == Student
      && r.value[i] == PublicView(r.value[i].id, s.accounts[r.value[i].id])
    ensures forall i, j :: 0 <= i < j < |r.value| ==> r.value[i].id < r.value[j].id
    ensures FreshIds(s) ==>
      forall k :: k in s.accounts && s.accounts[k].role == Student ==>
        exists i :: 0 <= i < |r.value| && r.value[i].id == k
  {
    var ids := IdsWhere(s.accounts, (a: Account) => a.role == Student, s.nextId);
    var rows := seq(|ids|, i requires 0 <= i < |ids| => PublicView(ids[i], s.accounts[ids[i]]));
    assert forall i :: 0 <= i < |rows| ==> rows[i].id == ids[i];
    Ok(rows)
  }

  // ------------------------------------------------------------------ skills

  /** `.map((s) => s.trim()).filter(Boolean)`: entries trimmed, empty ones dropped. */
  function CleanSkills(xs: seq<string>): (r: seq<string>)
    ensures |r| <= |xs|
    ensures forall j :: 0 <= j < |r| ==> r[j] != [] && Trimmed(r[j])
  {
    if xs == [] then []
    else
      var t := Trim(xs[0]);
      var rest := CleanSkills(xs[1..]);
      if t == [] then rest else [t] + rest
  }

  /** Every surviving entry is the trim of an input entry. */
  lemma {:induction false} CleanSkillsSources(xs: seq<string>, x: string)
    requires x in CleanSkills(xs)
    ensures exists i :: 0 <= i < |xs| && Trim(xs[i]) == x
    decreases |xs|
  {
    var t := Trim(xs[0]);
    if x == t {
      assert Trim(xs[0]) == x;
    } else {
      var rest := CleanSkills(xs[1..]);
      assert x in rest by {
        if t != [] {
          assert CleanSkills(xs) == [t] + rest;
        }
      }
      CleanSkillsSources(xs[1..], x);
      var i :| 0 <= i < |xs[1..]| && Trim(xs[1..][i]) == x;
      assert xs[1..][i] == xs[i + 1];
      assert Trim(xs[i + 1]) == x;
    }
  }

  /** Every entry that trims to something non-empty survives, trimmed. */
  lemma CleanSkillsKeeps(xs: seq<string>, i: nat)
    requires i < |xs| && Trim(xs[i]) != []
    ensures Trim(xs[i]) in CleanSkills(xs)
  {
    var a, b := xs[..i], xs[i + 1..];
    SplitAround(xs, i);
    CleanSkillsAppend(a, [xs[i]] + b);
    CleanSkillsAppend([xs[i]], b);
    assert CleanSkills([xs[i]]) == [Trim(xs[i])];
    var c := CleanSkills(xs);
    assert c == CleanSkills(a) + ([Trim(xs[i])] + CleanSkills(b));
    assert c[|CleanSkills(a)|] == Trim(xs[i]);
  }

  /** Cleaning distributes over concatenation, so relative order is kept. */
  lemma {:induction false} CleanSkillsAppend(a: seq<string>, b: seq<string>)
    ensures CleanSkills(a + b) == CleanSkills(a) + CleanSkills(b)
    decreases |a|
  {
    if a == [] {
      assert a + b == b;
    } else {
      DropHeadOfAppend(a, b);
      CleanSkillsAppend(a[1..], b);
      var t := Trim(a[0]);
      var rest, tail := CleanSkills(a[1..]), CleanSkills(b);
      if t != [] {
        calc {
          CleanSkills(a + b);
          [t] + CleanSkills(a[1..] + b);
          [t] + (rest + tail);
          { ConsAppend(t, rest, tail); }
          ([t] + rest) + tail;
          CleanSkills(a) + tail;
        }
      }
    }
  }

  /** A cleaned list is clean: running the normalisation again changes nothing. */
  lemma {:induction false} CleanSkillsIdempotent(xs: seq<string>)
    ensures CleanSkills(CleanSkills(xs)) == CleanSkills(xs)
    decreases |xs|
  {
    if xs != [] {
      CleanSkillsIdempotent(xs[1..]);
      var t := Trim(xs[0]);
      if t != [] {
        TrimIdempotent(xs[0]);
        var c := CleanSkills(xs);
        assert c == [t] + CleanSkills(xs[1..]);
        assert c[1..] == CleanSkills(xs[1..]);
      }
    }
  }

  /**
   * The `skills` field of a profile update: a string is split on commas, an
   * array is taken element-wise; either way entries are trimmed and empty
   * ones dropped. Any other value (null included) leaves skills unchanged (None).
   */
  function NormaliseSkills(x: Input<SkillsValue>): (r: Option<seq<string>>)
    ensures r.Some? <==> x.Given? && !x.value.OtherValue?
    ensures r.Some? ==> forall i :: 0 <= i < |r.value| ==> r.value[i] != [] && Trimmed(r.value[i])
    ensures x.Given? && x.value.Items? ==> r == Some(CleanSkills(x.value.items))
    ensures x.Given? && x.value.CommaText? ==> r == Some(CleanSkills(Split(x.value.text, ',')))
  {
    match x
    case Given(CommaText(text)) => Some(CleanSkills(Split(text, ',')))
    case Given(Items(items)) => Some(CleanSkills(items))
    case _ => None
  }

  /** A comma string and the array of its pieces normalise to the same skills. */
  lemma CommaTextMatchesItems(xs: seq<string>)
    requires forall i :: 0 <= i < |xs| ==> ',' !in xs[i]
    ensures NormaliseSkills(Given(CommaText(Join(xs, ',')))) == NormaliseSkills(Given(Items(xs)))
  {
    if xs == [] {
      assert Split([], ',') == [[]];
      assert Trim([]) == [];
    } else {
      SplitJoin(xs, ',');
    }
  }

  /** Submitting the normalised skills again as an array is a no-op. */
  lemma NormaliseSkillsIdempotent(x: Input<SkillsValue>)
    requires NormaliseSkills(x).Some?
    ensures NormaliseSkills(Given(Items(NormaliseSkills(x).value))) == NormaliseSkills(x)
  {
    match x
    case Given(CommaText(text)) => CleanSkillsIdempotent(Split(text, ','));
    case Given(Items(items)) => CleanSkillsIdempotent(items);
  }

  // ----------------------------------------------------------------- profile

  /** The profile-update request body. */
  datatype ProfileForm = ProfileForm(
    name: Input<string>,
    email: Input<string>,
    department: Input<string>,
    cgpa: Input<real>,
    skills: Input<SkillsValue>,
    resume: Input<string>,
    password: Input<string>)

  /**
   * The document `updateStudentProfile` saves. For name, e-mail and
   * department, `if (x !== undefined) field = x || field` is `x || field`,
   * since undefined is itself falsy.
   */
  function ProfileDraft(a: Account, f: ProfileForm): AccountDraft {
    AccountDraft(
      OrText(f.name, a.name),
      OrText(f.email, a.email),
      if TextTruthy(f.password) then Plain(f.password.value) else Stored(a.passwordHash),
      RoleName(a.role),
      OrText(f.department, a.department),
      if f.cgpa.Undefined? then Given(a.cgpa) else f.cgpa,
      NormaliseSkills(f.skills).GetOr(a.skills),
      if f.resume.Undefined? then a.resume else OrText(f.resume, ""),
      a.companyId,
      a.createdAt)
  }

  /** `updateStudentProfile`. */
  function UpdateProfile(s: Store, caller: Option<Caller>, f: ProfileForm, hash: string -> string)
    : (r: Response<Profile>)
    ensures r.notices == []
    ensures r.reply.Ok? || r.reply.Unauthorized? || r.reply.NotFound? || r.reply.BadRequest?
    ensures caller.None? ==> r.reply == Unauthorized(NotAuthorized)
    ensures caller.Some? && caller.value.id !in s.accounts ==> r.reply == NotFound(StudentNotFound)
    ensures !r.reply.Ok? ==> r.store == s
    ensures r.reply == BadRequest(EmailInUse) <==>
      && caller.Some? && caller.value.id in s.accounts
      && AccountErrors(ProfileDraft(s.accounts[caller.value.id], f)) == []
      && EmailTakenByOther(s.accounts, caller.value.id, OrText(f.email, s.accounts[caller.value.id].email))
    ensures r.reply.Ok? ==>
      && caller.Some? && caller.value.id in s.accounts
      && var id := caller.value.id;
      && var prev := s.accounts[id];
      && id in r.store.accounts
      && var a := r.store.accounts[id];
      && r.store == s.(accounts := s.accounts[id := a])
      && r.reply.value == PublicView(id, a)
      && !EmailTakenByOther(s.accounts, id, a.email)
      && (TextTruthy(f.name) ==> a.name == f.name.value)
      && (!TextTruthy(f.name) ==> a.name == prev.name)
      && (TextTruthy(f.email) ==> a.email == f.email.value)
      && (!TextTruthy(f.email) ==> a.email == prev.email)
      && (TextTruthy(f.department) ==> a.department == f.department.value)
      && (!TextTruthy(f.department) ==> a.department == prev.department)
      && (f.cgpa.Undefined? ==> a.cgpa == prev.cgpa)
      && (f.cgpa.Given? ==> a.cgpa == f.cgpa.value)
      && (f.resume.Undefined? ==> a.resume == prev.resume)
      && (f.resume.Null? ==> a.resume == "")
      && (f.resume.Given? ==> a.resume == f.resume.value)
      && (NormaliseSkills(f.skills).None? ==> a.skills == prev.skills)
      && (NormaliseSkills(f.skills).Some? ==> a.skills == NormaliseSkills(f.skills).value)
      && (TextTruthy(f.password) ==> a.passwordHash == hash(f.password.value))
      && (!TextTruthy(f.password) ==> a.passwordHash == prev.passwordHash)
      && a.role == prev.role && a.companyId == prev.companyId && a.createdAt == prev.createdAt
  {
    if caller.None? then Response(Unauthorized(NotAuthorized), s, [])
    else
      var id := caller.value.id;
      if id !in s.accounts then Response(NotFound(StudentNotFound), s, [])
      else
        var d := ProfileDraft(s.accounts[id], f);
        RoleNameRoundTrip(s.accounts[id].role);
        match SaveAccount(d, hash)
        case Failure(paths) => Response(BadRequest(ValidationFailed(paths)), s, [])
        case Success(a) =>
          if EmailTakenByOther(s.accounts, id, a.email) then Response(BadRequest(EmailInUse), s, [])
          else Response(Ok(PublicView(id, a)), s.(accounts := s.accounts[id := a]), [])
  }

  /**
   * A profile update succeeds exactly when the caller is authenticated and
   * still exists, the merged document validates, and its e-mail belongs to
   * no other account.
   */
  lemma UpdateProfileSucceedsIff(s: Store, caller: Option<Caller>, f: ProfileForm, hash: string -> string)
    ensures UpdateProfile(s, caller, f, hash).reply.Ok? <==>
      && caller.Some? && caller.value.id in s.accounts
      && var d := ProfileDraft(s.accounts[caller.value.id], f);
      && AccountErrors(d) == []
      && !EmailTakenByOther(s.accounts, caller.value.id, d.email)
  {
  }

  /** After a successful update, both profile reads return what the update replied. */
  lemma UpdateProfileThenRead(s: Store, caller: Caller, f: ProfileForm, hash: string -> string)
    requires UpdateProfile(s, Some(caller), f, hash).reply.Ok?
    ensures var r := UpdateProfile(s, Some(caller), f, hash);
      && GetProfile(r.store, Some(caller)) == r.reply
      && GetStudentById(r.store, caller.id) == r.reply
  {
  }

  /** An update of a well-formed account fails validation only for a null cgpa or a short password. */
  lemma UpdateProfileValidation(s: Store, caller: Caller, f: ProfileForm, hash: string -> string)
    requires caller.id in s.accounts && WellFormedAccount(s.accounts[caller.id])
    ensures var r := UpdateProfile(s, Some(caller), f, hash);
      r.reply.BadRequest? && r.reply.msg.ValidationFailed? <==>
        f.cgpa.Null? || (TextTruthy(f.password) && |f.password.value| < 6)
  {
  }

  /** A profile update keeps the store invariants, the unique e-mail index in particular. */
  lemma UpdateProfilePreservesValid(s: Store, caller: Option<Caller>, f: ProfileForm, hash: string -> string)
    requires Valid(s)
    ensures Valid(UpdateProfile(s, caller, f, hash).store)
  {
  }

  // ------------------------------------------------------------------ resume

  /** The keywords the mock resume parser reports. */
  const MockParsedKeywords: seq<string> :=
    ["React", "Node.js", "MongoDB", "JavaScript", "Problem Solving", "Teamwork"]

  /** `` `/${path.replace(/\\/g, '/')}` ``: a rooted path with forward slashes only. */
  function ResumeUrl(path: string): (r: string)
    ensures |r| == |path| + 1 && r[0] == '/'
    ensures '\\' !in r
    ensures forall i :: 0 <= i < |path| ==> r[i + 1] == (if path[i] == '\\' then '/' else path[i])
  {
    "/" + SlashesForBackslashes(path)
  }

  /** `[...new Set([...skills, ...MockParsedKeywords.slice(0, 3)])]`. */
  function MergeParsedSkills(skills: seq<string>): (r: seq<string>)
    ensures NoDuplicates(r)
    ensures forall x :: x in r <==> x in skills || x in MockParsedKeywords[..3]
    ensures |Dedup(skills)| <= |r| && r[..|Dedup(skills)|] == Dedup(skills)
    ensures NoDuplicates(skills) ==> |skills| <= |r| && r[..|skills|] == skills
    ensures r == Dedup(skills) + Missing(MockParsedKeywords[..3], skills)
  {
    var r := Dedup(skills + MockParsedKeywords[..3]);
    DedupPrefix(skills, MockParsedKeywords[..3]);
    DedupAppendDistinct(skills, MockParsedKeywords[..3]);
    assert NoDuplicates(skills) ==> Dedup(skills) == skills by {
      if NoDuplicates(skills) {
        DedupOfDistinct(skills);
      }
    }
    r
  }

  /** A student without skills gets the first three parsed keywords, in the parser's order. */
  lemma MergeIntoNoSkills()
    ensures MergeParsedSkills([]) == ["React", "Node.js", "MongoDB"]
  {
    var kw := MockParsedKeywords[..3];
    assert kw == ["React", "Node.js", "MongoDB"];
    assert kw[..2][..1] == ["React"];
    assert Missing(kw[..2][..1], []) == ["React"] by {
      assert Missing(kw[..2][..1][..0], []) == [];
    }
    assert Missing(kw[..2], []) == ["React", "Node.js"];
    assert Missing(kw, []) == ["React", "Node.js", "MongoDB"];
  }

  /** Merging the parsed skills a second time changes nothing. */
  lemma MergeParsedSkillsTwice(skills: seq<string>)
    ensures MergeParsedSkills(MergeParsedSkills(skills)) == MergeParsedSkills(skills)
  {
    MergeAgainIsNoOp(skills, MockParsedKeywords[..3]);
  }

  /** The body of a successful upload: the saved profile and the keywords the parser reported. */
  datatype ResumeReply = ResumeReply(student: Profile, detectedSkills: seq<string>)

  /**
   * `uploadResume`. The file check comes first; the handler then reads
   * `req.user._id` without a guard, so an unauthenticated call is a TypeError.
   */
  function UploadResume(s: Store, caller: Option<Caller>, file: Option<string>): (r: Response<ResumeReply>)
    ensures r.notices == []
    ensures file.None? <==> r.reply == BadRequest(NoFileUploaded)
    ensures file.Some? && caller.None? ==> r.reply == ServerError(TypeFault)
    ensures file.Some? && caller.Some? && caller.value.id !in s.accounts ==>
      r.reply == NotFound(StudentNotFound)
    ensures !r.reply.Ok? ==> r.store == s
    ensures r.reply.Ok? ==>
      && file.Some? && caller.Some? && caller.value.id in s.accounts
      && var id := caller.value.id;
      && var prev := s.accounts[id];
      && r.store == s.(accounts := s.accounts[id := prev.(resume := ResumeUrl(file.value),
                                                           skills := MergeParsedSkills(prev.skills))])
      && r.reply.value.student == PublicView(id, r.store.accounts[id])
      && r.reply.value.detectedSkills == MockParsedKeywords
    ensures Valid(s) && file.Some? && caller.Some? ==>
      (r.reply.Ok? <==> caller.value.id in s.accounts)
  {
    if file.None? then Response(BadRequest(NoFileUploaded), s, [])
    else if caller.None? then Response(ServerError(TypeFault), s, [])
    else
      var id := caller.value.id;
      if id !in s.accounts then Response(NotFound(StudentNotFound), s, [])
      else
        var prev := s.accounts[id];
        var a := prev.(resume := ResumeUrl(file.value), skills := MergeParsedSkills(prev.skills));
        RoleNameRoundTrip(a.role);
        var errors := AccountErrors(DraftOf(a));
        if errors != [] then Response(ServerError(ValidationFailed(errors)), s, [])
        else Response(Ok(ResumeReply(PublicView(id, a), MockParsedKeywords)),
                      s.(accounts := s.accounts[id := a]), [])
  }

  /** After a successful upload, both profile reads return the student the upload replied with. */
  lemma UploadResumeThenRead(s: Store, caller: Caller, file: string)
    requires UploadResume(s, Some(caller), Some(file)).reply.Ok?
    ensures var r := UploadResume(s, Some(caller), Some(file));
      && GetProfile(r.store, Some(caller)) == Ok(r.reply.value.student)
      && GetStudentById(r.store, caller.id) == Ok(r.reply.value.student)
  {
  }

  /** Uploading twice leaves the skills where the first upload put them. */
  lemma UploadTwiceKeepsSkills(s: Store, caller: Option<Caller>, file1: string, file2: string)
    requires UploadResume(s, caller, Some(file1)).reply.Ok?
    ensures var s1 := UploadResume(s, caller, Some(file1)).store;
      var r2 := UploadResume(s1, caller, Some(file2));
      r2.reply.Ok? && r2.store.accounts[caller.value.id].skills == s1.accounts[caller.value.id].skills
  {
    var s1 := UploadResume(s, caller, Some(file1)).store;
    MergeParsedSkillsTwice(s.accounts[caller.value.id].skills);
    RoleNameRoundTrip(s1.accounts[caller.value.id].role);
  }

  lemma UploadResumePreservesValid(s: Store, caller: Option<Caller>, file: Option<string>)
    requires Valid(s)
    ensures Valid(UploadResume(s, caller, file).store)
  {
    var r := UploadResume(s, caller, file);
    if r.reply.Ok? {
      var id := caller.value.id;
      var a := r.store.accounts[id];
      assert a.email == s.accounts[id].email;
      ReplaceAccountKeepsValid(s, id, a);
    }
  }
}
