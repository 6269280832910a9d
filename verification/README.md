# Campus placement portal: business rules of the backend

This project models the request handlers of a campus placement service in Dafny.
Students register, maintain a profile and apply to company listings. HR recruiters
and admins review applications and move them through `pending`, `shortlisted`,
`rejected` and `hired`. The document store is three maps from identifier to record
(accounts, company listings, applications) plus a counter that hands out fresh
identifiers in increasing order. Because of that counter, a scan in ascending key
order is insertion order, and the model takes that as the order of every
unsorted `find` (see "## Left out"). Each handler is a pure function
from (store, caller, request body) to a `Response`: the reply (`Ok`, `Created`,
`BadRequest`, `Unauthorized`, `Forbidden`, `NotFound`, `ServerError`), the store
afterwards, and the status e-mails it dispatched.

Modules follow the program's structure:

- `Wrappers` holds `Option` and `Result`.
- `JsText` and `JsArrays` hold the JavaScript built-ins the handlers depend on:
  `trim`, `split`, `toLowerCase`, the backslash `replace`, and
  `[...new Set(xs)]`.
- `Http` holds request-body fields and replies. A field is `Undefined`, `Null`
  or `Given(v)`, because the handlers distinguish `!== undefined` from
  truthiness (`||`).
- `Schema` holds the three schemas, their enums, Mongoose validation, and the
  pre-save password hook.
- `Db` holds the store, its invariant `Valid`, and the insertion-order scans
  behind `find` and `findOne`. `Valid` covers fresh ids, the unique indexes on
  e-mail, company name and (student, company), and the required fields.
- `Auth`, `Students`, `Companies` and `Applications` hold the four controllers.
- `Server` dispatches every mutating request. It proves that any sequence of
  requests keeps the invariant.

Oracles enter as parameters: `hash` is bcrypt's hash, `matches` is bcrypt's
compare, and `now` is the clock reading stamped on new documents.

Behaviours of the code that the model keeps as written:

- `applyForCompany` does not check the caller's role.
- The listing's `skills` criterion is stored but never enforced.
- Any status may be set from any status.
- Deleting a listing does not cascade to its applications.
- A status e-mail whose populated student or company is null raises a
  TypeError after the save. The reply is then 500, but the new status stays
  stored. The e-mail service swallows only its own transport errors.
- `getApplications` always omits the password; it does not depend on the caller.
- Assigning an `eligibility` object to an existing listing replaces it without schema defaults, so an object missing `skills` or `branches` fails `required` on update. At creation those arrays default to `[]`.

## Model

| member | source | states |
|---|---|---|
| Applications.EligibilityDenial | backend/controllers/applicationController.js:20-34 | a student may apply iff cgpa ≥ the listing minimum and (no branches are listed or one matches the department ignoring case); a CGPA failure reports the required minimum and is checked before the branch, whose failure reports the department |
| Applications.Apply | backend/controllers/applicationController.js:6-56 | a missing listing gives NotFound; a caller whose account is gone makes the handler throw (ServerError); a failed eligibility rule gives Forbidden; an existing (student, company) pair gives BadRequest; each of these leaves the store unchanged; success inserts exactly one `pending` application for that pair under a fresh id and returns it as Created |
| Applications.ApplySucceedsIff | backend/controllers/applicationController.js:16-52 | applying succeeds exactly when the listing and the student exist, the student meets CGPA and branch rules, and has not applied to that listing before |
| Applications.ApplyAddsOne | backend/controllers/applicationController.js:46-52 | in a valid store a successful apply grows the application collection by exactly one |
| Applications.ApplyTwice | backend/controllers/applicationController.js:36-44 | after a successful apply, applying again for the same pair is refused as a duplicate and changes nothing |
| Applications.ApplyIgnoresSkillsAndDeadline | backend/controllers/applicationController.js:20-44 | changing a listing's required skills or deadline never changes the reply to an application |
| Applications.BranchListedIgnoresCase | backend/controllers/applicationController.js:25-28 | a department is eligible for a branch list exactly when its lower-cased form is, so letter case in the department never matters |
| Applications.ApplyPreservesValid | backend/models/Application.js:25-26 | applying keeps the (student, company) unique index and the other store invariants |
| Applications.UpdateStatus | backend/controllers/applicationController.js:92-125 | a missing id gives NotFound; an `hr` caller gets Forbidden when the application's listing is not its company, and a ServerError when that listing is gone; a status outside the enum gives a validation ServerError; none of these change the store; for a permitted caller and an enum status, exactly that application's status changes, and the reply is Ok, carrying the saved application with student and listing populated, unless a `shortlisted`/`hired` e-mail cannot be built because its student or listing is gone (then ServerError with the new status kept); the e-mail carries the student's address and name, the status and the company name and goes out exactly for `shortlisted`/`hired` |
| Applications.NotifiesExactly | backend/controllers/applicationController.js:104-118 | a status e-mail is dispatched iff the update succeeded and the new status is `shortlisted` or `hired` |
| Applications.UpdateToSameStatus | backend/controllers/applicationController.js:99-118 | setting the status an application already has leaves the store unchanged, and a permitted caller gets Ok with the populated application unless a notifying status's e-mail cannot be built |
| Applications.UpdateStatusTwice | backend/controllers/applicationController.js:104-105 | repeating a status update changes nothing further |
| Applications.AdminIsUnrestricted | backend/controllers/applicationController.js:99-102 | an admin caller is never refused for company scope, neither when updating nor when listing by company |
| Applications.HrStaysInItsCompany | backend/controllers/applicationController.js:100-102 | when an `hr` caller's update changes the store, the application belongs to that caller's company |
| Applications.UpdateStatusPreservesValid | backend/models/Application.js:14-26 | status updates keep every store invariant, the pair uniqueness included |
| Applications.Populate | backend/controllers/applicationController.js:133-135 | a populated reference holds the referenced document when it still exists and null otherwise; a populated student never carries the password |
| Applications.MyApplications | backend/controllers/applicationController.js:61-70 | returns exactly the caller's applications in ascending id order, each with its listing populated and its student left as an id |
| Applications.ApplicationsByCompany | backend/controllers/applicationController.js:75-87 | an `hr` caller is Forbidden for any company but its own; otherwise it returns exactly the applications for that company in ascending id order, students populated without the password and the listing left as an id |
| Applications.AllApplications | backend/controllers/applicationController.js:130-139 | returns every application in ascending id order with both references populated |
| Schema.ParseStatus | backend/models/Application.js:14-18 | only the four status names cast to a status, and each casts back to its own name |
| Schema.StatusNameRoundTrip | backend/models/Application.js:14-18 | every status survives the round trip name → cast |
| Schema.ParseRole | backend/models/Student.js:25-29 | only `student`, `admin`, `hr` cast to a role, each to itself |
| Schema.RoleNameRoundTrip | backend/models/Student.js:25-29 | every role survives the round trip name → cast |
| Schema.AccountErrors | backend/models/Student.js:5-41 | an account validates iff name, e-mail and department are non-empty, cgpa is a number, the role is an enum name, and a modified password has at least 6 characters |
| Schema.SaveAccount | backend/models/Student.js:57-62 | a save validates first; on success it keeps every field, and the stored password hash is re-computed only when the password was modified |
| Schema.SaveUntouched | backend/models/Student.js:57-62 | saving a well-formed account without changes keeps it exactly, hash included |
| Schema.CompanyErrors | backend/models/Company.js:3-42 | a listing validates iff name, role, location and description are non-empty and ctc, deadline, and eligibility's cgpa, skills and branches are all present |
| Schema.BuildCompany | backend/models/Company.js:3-47 | a validated listing holds exactly the supplied fields, its eligibility carries cgpa, skills and branches, and its creation stamp is the given time |
| Db.IdsWhere | backend/controllers/applicationController.js:63-65 | `find` returns, in ascending id order, exactly the documents below the id bound that match the filter; when every key is below the bound, every matching document |
| Db.FirstWhere | backend/controllers/authController.js:62 | `findOne` returns the first matching document in ascending id order, or none when no document matches |
| Auth.Register | backend/controllers/authController.js:8-49 | missing name, e-mail, password or department, or an undefined cgpa, gives BadRequest; a known e-mail gives BadRequest "User already exists"; a document that then fails schema validation gives a ServerError naming the failing paths; failures change nothing; success stores one account (non-array skills → `[]`, missing resume → `''`, missing role → `student`, password hashed) and returns its id, name, e-mail and role |
| Auth.RegisterSucceedsIff | backend/controllers/authController.js:12-45 | sign-up creates an account exactly when all required fields are given, the e-mail is not registered yet, and the new document passes schema validation |
| Auth.ZeroCgpaIsAccepted | backend/controllers/authController.js:12-14 | a cgpa of 0 passes the required-field check |
| Auth.RegisterDefaultsToStudent | backend/controllers/authController.js:31 | without a truthy role a new account is a student |
| Auth.RegisterPreservesValid | backend/models/Student.js:10-13 | sign-up keeps e-mails unique and every other store invariant |
| Auth.Login | backend/controllers/authController.js:54-79 | a missing e-mail or password gives BadRequest; Ok is returned only for a stored account with that e-mail whose hash accepts the password, carrying its id, name, e-mail and role; anything else is Unauthorized |
| Auth.LoginSucceedsIff | backend/controllers/authController.js:62-74 | with unique e-mails, login succeeds iff an account with that e-mail exists and the password oracle accepts |
| Auth.RegisterThenLogin | backend/controllers/authController.js:23-74 | logging in with the credentials just registered returns the session sign-up returned |
| Students.GetProfile | backend/controllers/studentController.js:6-22 | without an authenticated user id the reply is Unauthorized; otherwise the caller's own account without password, or NotFound |
| Students.GetStudentById | backend/controllers/studentController.js:103-118 | returns that account without password, or NotFound |
| Students.ListStudents | backend/controllers/studentController.js:91-98 | returns exactly the accounts whose role is `student`, in ascending id order |
| Students.CleanSkills | backend/controllers/studentController.js:49-54 | after trimming and dropping empties, no entry is empty or has surrounding whitespace, and there are no more entries than before |
| Students.CleanSkillsSources | backend/controllers/studentController.js:49-54 | every entry that survives is the trim of some input entry |
| Students.CleanSkillsKeeps | backend/controllers/studentController.js:49-54 | every input entry that does not trim to empty survives, trimmed |
| Students.CleanSkillsAppend | backend/controllers/studentController.js:49-54 | cleaning distributes over concatenation, so the input order is kept |
| Students.CleanSkillsIdempotent | backend/controllers/studentController.js:49-54 | cleaning a cleaned list changes nothing |
| Students.NormaliseSkills | backend/controllers/studentController.js:47-57 | a string is split on commas and an array taken as is, and either way the entries are trimmed and the empty ones dropped; any other defined value, null or absence leaves skills unchanged |
| Students.CommaTextMatchesItems | backend/controllers/studentController.js:47-54 | a comma-joined string and the array of its pieces normalise to the same skills |
| Students.NormaliseSkillsIdempotent | backend/controllers/studentController.js:47-57 | submitting normalised skills again is a no-op |
| Students.UpdateProfile | backend/controllers/studentController.js:27-86 | no user id gives Unauthorized; a missing account gives NotFound; an e-mail held by another account gives BadRequest "Email already in use"; failures change nothing; success changes only the caller's account: name/e-mail/department replaced only by non-empty values, a given cgpa replaces, a defined resume is set (null/'' → ''), normalised skills replace, a truthy password is re-hashed, role/company/creation stamp kept |
| Students.UpdateProfileSucceedsIff | backend/controllers/studentController.js:27-86 | a profile update succeeds exactly when the caller is authenticated and its account exists, the merged document validates, and its e-mail belongs to no other account |
| Students.UpdateProfileThenRead | backend/controllers/studentController.js:27-86 | after a successful update, the own-profile read and the read by id both return the profile the update replied with |
| Students.UpdateProfileValidation | backend/controllers/studentController.js:59-79 | for a well-formed account, a profile update fails validation exactly for a null cgpa or a truthy password shorter than 6 characters |
| Students.UpdateProfilePreservesValid | backend/controllers/studentController.js:70-83 | profile updates keep e-mails unique and every other store invariant |
| Students.ResumeUrl | backend/controllers/studentController.js:135 | the stored resume path starts with `/`, contains no backslash, and is the upload path with each backslash turned into a slash |
| Students.MergeParsedSkills | backend/controllers/studentController.js:139-144 | the merged skills are the old skills de-duplicated in order, followed by those of the first three parsed keywords not already present, in the parser's order; so they hold no duplicates and exactly the old skills and those keywords |
| Students.MergeIntoNoSkills | backend/controllers/studentController.js:139-144 | a student without skills ends up with `React`, `Node.js`, `MongoDB`, in that order |
| Students.MergeParsedSkillsTwice | backend/controllers/studentController.js:144 | merging the parsed keywords a second time changes nothing |
| Students.UploadResume | backend/controllers/studentController.js:123-161 | no file gives BadRequest; without a caller the handler throws (ServerError); a caller whose account is gone gives NotFound; failures change nothing; success sets the resume path and the merged skills of that account only and returns the detected keywords |
| Students.UploadResumeThenRead | backend/controllers/studentController.js:123-161 | after a successful upload, both profile reads return the student the upload replied with |
| Students.UploadTwiceKeepsSkills | backend/controllers/studentController.js:139-146 | a second upload leaves skills as the first left them |
| Students.UploadResumePreservesValid | backend/controllers/studentController.js:146 | uploads keep every store invariant |
| Companies.GetCompanies | backend/controllers/companyController.js:6-13 | returns every listing, in ascending id order |
| Companies.GetCompanyById | backend/controllers/companyController.js:18-30 | returns that listing, or NotFound |
| Companies.CreateCompany | backend/controllers/companyController.js:35-62 | a new document fills absent eligibility arrays with `[]`; a missing required field (a null array included) or a taken name gives ServerError and changes nothing; success stores exactly the supplied fields under a fresh id |
| Companies.CreateCompanySucceedsIff | backend/controllers/companyController.js:35-62 | a listing is created exactly when, with its array defaults filled in, it passes validation and no listing has its name |
| Companies.CreateCompanyThenRead | backend/controllers/companyController.js:35-62 | the created listing is found by its new id, exactly as the creation replied |
| Companies.UpdateCompany | backend/controllers/companyController.js:67-98 | a missing listing gives NotFound; each field is replaced only by a truthy value (a ctc of 0 keeps the old ctc), a supplied eligibility replaces the old one wholesale and, having no defaults, fails validation on each of its missing keys, and no other listing changes |
| Companies.UpdateCompanyThenRead | backend/controllers/companyController.js:67-98 | after a successful update, reading the listing returns exactly what the update replied |
| Companies.UpdateCompanyValidation | backend/controllers/companyController.js:82-90 | updating a well-formed listing fails only for an eligibility object lacking cgpa, skills or branches, or a name taken by another listing |
| Companies.EligibilityArraysDefaultOnlyOnCreate | backend/controllers/companyController.js:47-86 | an eligibility object with only cgpa gets empty skills and branches when a listing is created, but fails validation on `eligibility.skills` and `eligibility.branches` when assigned to an existing listing, leaving the store unchanged |
| Companies.EmptyUpdateIsNoOp | backend/controllers/companyController.js:82-88 | an update supplying nothing truthy returns the listing unchanged and leaves the store as it was |
| Companies.DeleteCompany | backend/controllers/companyController.js:103-116 | removes exactly that listing, or gives NotFound; accounts and applications (including those referencing it) stay |
| Companies.DeleteCompanyThenRead | backend/controllers/companyController.js:103-116 | after a delete the listing is not found, and deleting it again gives NotFound |
| Companies.CreateCompanyPreservesValid | backend/models/Company.js:4-8 | creating a listing keeps names unique and every other store invariant |
| Companies.UpdateCompanyPreservesValid | backend/controllers/companyController.js:79-91 | updating a listing keeps every store invariant |
| Companies.DeleteCompanyPreservesValid | backend/controllers/companyController.js:105-110 | deleting a listing keeps every store invariant |
| Server.StepPreservesValid | backend/models/Application.js:25-26 | every mutating request keeps the store invariants |
| Server.RunPreservesValid | backend/models/Application.js:25-26 | any sequence of mutating requests keeps the store invariants |
| Server.ReachableStoresAreUnique | backend/models/Application.js:25-26 | from an empty store, no sequence of requests produces two applications for one (student, company), two accounts with one e-mail, or two listings with one name |
| JsText.Trim | backend/controllers/studentController.js:51 | `trim` returns the slice of the input between its maximal whitespace margins: everything cut off is whitespace, and the result has no surrounding whitespace |
| JsText.TrimIdempotent | backend/controllers/studentController.js:51 | trimming twice equals trimming once |
| JsText.TrimEmpty | backend/controllers/studentController.js:52 | a string trims to empty iff it is all whitespace |
| JsText.Split | backend/controllers/studentController.js:50 | `split(',')` yields at least one piece, no piece contains the separator, and joining the pieces back restores the input |
| JsText.SplitJoin | backend/controllers/studentController.js:49-50 | splitting the join of separator-free pieces recovers the pieces |
| JsText.Lower | backend/controllers/applicationController.js:27 | lower-casing keeps the length, maps each upper-case ASCII letter to its lower-case letter, and changes no other character |
| JsText.SlashesForBackslashes | backend/controllers/studentController.js:135 | every backslash becomes a slash and every other character is kept |
| JsArrays.Dedup | backend/controllers/studentController.js:144 | spreading a `Set` gives a duplicate-free list with exactly the input's elements |
| JsArrays.DedupPrefix | backend/controllers/studentController.js:144 | de-duplicating a longer list keeps the de-duplication of its prefix as a prefix |
| JsArrays.DedupOfDistinct | backend/controllers/studentController.js:144 | a duplicate-free list is its own de-duplication |
| JsArrays.DedupAbsorbs | backend/controllers/studentController.js:144 | appending elements already present does not change the de-duplication |
| JsArrays.DedupAppendDistinct | backend/controllers/studentController.js:144 | adding a duplicate-free list to a `Set` built from another appends, in order, exactly the elements the first lacked |
| JsArrays.MergeAgainIsNoOp | backend/controllers/studentController.js:144 | merging the same elements into a merged list a second time is a no-op |

## Left out

- JsText.Lower: only the ASCII letters A–Z are lower-cased; `toLowerCase` maps all of Unicode, which the model does not reproduce.
- Schema.AccountErrors: the e-mail format regex (backend/models/Student.js:14-17) is not checked; regular-expression matching is left out.
- Students.UpdateProfile: a string `cgpa` is coerced with `parseFloat` and `Number.isFinite` in the source; the model takes cgpa as an already-numeric field, because string-to-float parsing is left out.
- Students.UpdateProfile: when the password changes, the source's reply is the saved document, which then holds the new hash; the model's reply is the account without its password.
- Students.NormaliseSkills: array elements are taken to be strings; `String(x)` of non-string elements is not modelled.
- Applications.UpdateStatus: the populated student in the reply is the account without its password, as the schema's `select: false` leaves it. The body's `status` is taken to be a string; an absent or null status (which Mongoose unsets or rejects) is not modelled.
- Auth.Register: the signed token in the reply is not modelled (JWT signing is an oracle left out); the reply carries id, name, e-mail and role.
- Students.UploadResume: the reply's `message` text and the fixed `confidenceScore` and `notes` values are omitted; the reply carries the saved student and the detected keywords.
- Hashing, hash comparison and the clock: bcrypt and `Date.now` are parameters (`hash`, `matches`, `now`), not computations.
- Number truthiness: `NaN` is falsy in JavaScript; the model's reals have no NaN.
- Error texts from the libraries: validation failures carry the failing paths (`ValidationFailed`), duplicate keys the indexed path (`DuplicateKey`), and null dereferences a `TypeFault`. The library's own message strings are not reproduced, and neither is the number-to-text formatting in the eligibility messages.
- Typed request bodies: every body field has the type its handler expects (text, number, array). Mongoose's casting of other types and the CastError it raises are not modelled, nor is an object-valued `email` acting as a query operator in `findOne({ email })` (backend/controllers/authController.js:17, 62).
- Schema.AccountErrors: `minlength: 6` counts UTF-16 code units, while the model counts characters of `string`; the two differ only for characters outside the Basic Multilingual Plane.
- Companies.CreateCompany: a null `eligibility` in a new listing is reported as a missing `eligibility.cgpa` only; which array paths Mongoose also reports for it is not modelled.
- Result order: `find` without a sort has no order MongoDB guarantees; the model fixes it to insertion (ascending id) order, so the ordering clauses of the list reads and of `findOne` describe that choice.
- Malformed identifiers: ids are natural numbers, so Mongoose's CastError for a malformed ObjectId (a 500 reply) cannot arise.
- Role guards (`protect`, `admin`, `adminOrHr`): the authentication middleware is not part of this model; handlers receive the caller as the middleware would attach it.
- Concurrency: requests are handled one at a time, and the unique indexes are invariants. The race between the duplicate check and the insert is not modelled.
- E-mail delivery (backend/utils/emailService.js): SMTP transport, subject and HTML body are out. A dispatched e-mail is a `Notice` event; transport failures are swallowed there and never reach the reply.
- Multer upload configuration (PDF filter, file naming), server start-up, database connection, seed and diagnostic scripts, and the whole React frontend are presentation or plumbing, outside the business rules.
