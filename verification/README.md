# CampusHb portal core in Dafny

A model of the CampusHb campus recruitment portal's request handling. The
portal is an Express/Mongoose REST backend with a React admin page. The
model covers:

- the token middleware and its role gates;
- the three account routes (register, password login, admin-key login with
  the master admin account);
- the job routes (college list, role-filtered listing, detail, creation,
  deletion with cascade);
- the admin-only user routes (list with application counts, activation
  toggle, deletion with cascade);
- the application routes (submission, per-job list, CSV export);
- the frontend URL helpers and the admin dashboard's two server-facing
  computations (the skills list of a new job and the export link).

The collections are the fields of a `Models.Database` object:
`users`, `jobs` and `applications` are sequences in insertion order, and
`nextId`/`clock` stand for the fresh ObjectId and `Date.now` that Mongoose
supplies. `Database.Valid()` keeps four facts:

- ids and timestamps strictly increase along each collection;
- emails are unique (the schema's unique index);
- every stored id and time is below the counters;
- every job's form URL is "/apply/" followed by its id.

Handlers that write are methods that change `db` and restate its whole new
state. Handlers that only read are functions over the collections.

Each response is a `Response<T>`: `Ok(body)` or `Error(status, message)`,
with the source's own status codes and message strings.

Password hashing and token signing are passed in as the functions of a
`Crypto` value. Token verification is passed in as a function returning
the payload or nothing.

JavaScript semantics are written out in `Text`:

- truthiness of a string that may be missing;
- `startsWith`;
- `split` with a one-character separator;
- `trim`, with the ECMA-262 WhiteSpace and LineTerminator code points.

`AdminDashboard.TemplateText` renders a missing value in a template literal
as "null".

The route files implement no duplicate-application check, no college check
on submission, no bulk-ingestion or statistics routes, one export variant,
and no college join for staff. None of these is modelled.

## Model

| member | source | states |
|---|---|---|
| ApiConfig.CleanEndpoint | src/config/api.js:7 | exactly one leading "/" is removed; an endpoint without one is unchanged |
| ApiConfig.GetApiUrl | src/config/api.js:2-16 | with VITE_API_URL unset or empty the URL is "/api/" + cleaned endpoint, otherwise the configured base + "/" + cleaned endpoint (prefix, suffix and exact length) |
| ApiConfig.ApiUrlIgnoresLeadingSlash | src/config/api.js:7 | "/x" and "x" give the same URL |
| ApiConfig.ApiUrlDropsOneSlashOnly | src/config/api.js:7-15 | a doubled leading slash keeps one slash in the URL |
| ApiConfig.GetUploadUrl | src/config/api.js:19-29 | "" for a missing or empty path; an "http" path unchanged; a path starting with "/" unchanged; any other path with one "/" put in front |
| ApiConfig.UploadUrlIdempotent | src/config/api.js:19-29 | applying getUploadUrl to its own result changes nothing |
| AuthMiddleware.BearerHeaderHasSpace | server/middleware/authMiddleware.js:10-11 | a header starting with "Bearer " splits on spaces into at least two pieces, so `[1]` exists |
| AuthMiddleware.HeaderToken | server/middleware/authMiddleware.js:8-13 | the header token contains no space and is non-empty only for a present "Bearer " header |
| AuthMiddleware.HeaderTokenIsNextWord | server/middleware/authMiddleware.js:11 | the header token is the text after "Bearer " up to the next space or the end |
| AuthMiddleware.ExtractToken | server/middleware/authMiddleware.js:4-18 | a non-empty header token wins; otherwise a non-empty query token is used; the result is truthy exactly when one of them is |
| AuthMiddleware.Authenticate | server/middleware/authMiddleware.js:3-32 | 401 "No token…" exactly when no token was found, 401 "Token is not valid" exactly when verification fails, otherwise the verified payload |
| AuthMiddleware.HeaderTokenWins | server/middleware/authMiddleware.js:8-18 | with a usable header token, the query parameter does not affect the decision |
| AuthMiddleware.QueryIsFallback | server/middleware/authMiddleware.js:16-18 | without a usable header token, the decision is the one for the query token alone |
| AuthMiddleware.Auth | server/middleware/authMiddleware.js:3-32 | imperative `auth`: on rejection answers with that status and message and changes nothing; otherwise sets `req.user` to the payload and calls `next` exactly once |
| AuthMiddleware.AdminGate | server/middleware/authMiddleware.js:35-40 | passes exactly role "admin"; everyone else gets 403 "Access denied. Admins only." |
| AuthMiddleware.AuthorizationGate | server/middleware/authMiddleware.js:42-49 | passes exactly the listed roles; everyone else gets 409 "your are not allowed" |
| AuthMiddleware.AdminGateIsAdminOnlyAuthorization | server/middleware/authMiddleware.js:35-49 | `admin` passes the same callers as `authorization(["admin"])`; the refusals differ (403 vs 409) |
| Models.ParseRole | server/routes/auth.js:12-13 | a role name parses exactly when it is one of student, staff, admin, and parsing round-trips with its name |
| Models.IdText | server/routes/jobs.js:61 | the text of an id is a non-empty string of digits, one digit long exactly for ids below 10 |
| Models.IdTextInjective | server/routes/jobs.js:61 | different ids have different texts |
| Models.ApplyPath | server/routes/jobs.js:61 | the form URL is "/apply/" followed by the id's text |
| Models.ApplyPathInjective | server/routes/jobs.js:59-61 | different ids give different form URLs |
| Models.Database.Stamp | server/models/User.js:10 | hands out the current id and time, advances both counters, and every stored document has a smaller id and time |
| Seqs.Filter | server/routes/jobs.js:33 | `find(query)`: at most as long as the collection, holding exactly the members that match |
| Seqs.FilterComplement | server/routes/users.js:89 | the matching and non-matching selections of a collection have lengths adding up to its length |
| Seqs.Reverse | server/routes/jobs.js:33 | `sort({createdAt: -1})` over a collection in creation order: same length, element i is element n-1-i |
| Seqs.IndexOf | server/routes/auth.js:17 | `findOne`: the first matching position, or nothing exactly when no element matches |
| Seqs.Distinct | server/routes/jobs.js:11 | `distinct`: no duplicates and the same members as the input |
| Text.Split | server/middleware/authMiddleware.js:11 | one piece more than separators, and no piece contains the separator |
| Text.JoinSplit | CampusHb/src/pages/AdminDashboard.jsx:40 | joining the pieces of a split with the separator gives back the original string |
| Text.Trim | server/routes/auth.js:59 | `trim` is no longer than its input and neither starts nor ends with whitespace |
| Text.TrimKeepsChars | CampusHb/src/pages/AdminDashboard.jsx:40 | every character of a trimmed string occurs in the original |
| Text.TrimUnpadded | server/routes/auth.js:59 | a string with no whitespace at either end trims to itself |
| Text.TrimIgnoresPadding | server/routes/auth.js:61 | whitespace added at both ends does not change the trim |
| AuthRoutes.MissesRequiredAccountField | server/models/User.js:4-7 | an account without a name, email or college fails the schema's required check |
| AuthRoutes.Register | server/routes/auth.js:7-38 | 400 "Invalid role" for a role outside the three, then 400 "User already exists" for a used email, then 500 for a missing password (hashing throws), then 500 for a missing name, email or college, all without change; otherwise appends one active account with the hashed password, a fresh id and time, and answers with its session |
| AuthRoutes.AppendKeepsValidUsers | server/models/User.js:5 | appending an account with a fresh id and time and an unused email keeps ids, times and emails ordered and unique |
| AuthRoutes.Login | server/routes/auth.js:40-54 | 400 "Invalid credentials" for an unknown email or a password that does not compare; 500 exactly when the email is found and the password is missing (comparing throws); success exactly when the email is found and the password compares, with a session for that account |
| AuthRoutes.LoginHidesWhichCheckFailed | server/routes/auth.js:44-47 | an unknown email and a wrong password give identical answers |
| AuthRoutes.LoginAfterRegister | server/routes/auth.js:21-50 | a just-registered account signs in with its password and receives the session registration returned |
| AuthRoutes.DefaultAdminKeyIsTrimmed | server/routes/auth.js:59 | "admin123" trims to itself |
| AuthRoutes.ExpectedAdminKey | server/routes/auth.js:59 | the trimmed ADMIN_KEY when it is set and non-empty, otherwise "admin123"; it neither starts nor ends with whitespace |
| AuthRoutes.AdminKeyAccepted | server/routes/auth.js:61 | a key is accepted when it is present, non-empty and trims to the expected key |
| AuthRoutes.AdminKeyIgnoresPadding | server/routes/auth.js:61 | whitespace around a submitted key does not change whether it is accepted |
| AuthRoutes.DefaultAdminKeyAccepted | server/routes/auth.js:59-61 | with no ADMIN_KEY, a key is accepted exactly when it trims to "admin123" |
| AuthRoutes.WithMasterAdmin | server/routes/auth.js:66-78 | after find-or-create the master admin email is present; an existing account leaves the users unchanged, otherwise exactly one admin account is appended |
| AuthRoutes.MasterAdminIdempotent | server/routes/auth.js:66-78 | a second find-or-create adds nobody |
| AuthRoutes.MasterAdminKeepsValid | server/routes/auth.js:66-77 | creating the master admin with a fresh id and time keeps the user collection valid |
| AuthRoutes.FindOrCreateMasterAdmin | server/routes/auth.js:66-78 | the users become WithMasterAdmin of the old users, and the returned account is the one holding the master email |
| AuthRoutes.AdminLogin | server/routes/auth.js:56-85 | 401 "Invalid admin key" without change unless the key is accepted; otherwise find-or-create and a session for the master admin |
| JobRoutes.Colleges | server/routes/jobs.js:9-16 | each college name appears once, exactly the names some account carries |
| JobRoutes.CollegeScoped | server/routes/jobs.js:26 | students and staff are limited to their college's jobs |
| JobRoutes.MayView | server/routes/jobs.js:26-27 | a caller may see a job when its role is not college-scoped or the job allows its college |
| JobRoutes.ListJobs | server/routes/jobs.js:19-40 | 500 exactly when the caller's account is gone, success exactly when it exists; then a job is listed exactly when it is stored and the caller may view it (student/staff: own college allowed) |
| JobRoutes.ListJobsNewestFirst | server/routes/jobs.js:33 | the listing is strictly newest first |
| JobRoutes.ListJobsUnscoped | server/routes/jobs.js:26-33 | a caller who is neither student nor staff gets every job, newest first |
| JobRoutes.GetJob | server/routes/jobs.js:71-95 | 404 exactly when no job has the id; then 500 for a vanished caller; 403 exactly when a student/staff college is not allowed; a success is the stored job with that id |
| JobRoutes.JobIdsUnique | server/models/Job.js:3-15 | in a valid job collection, two positions with the same id are the same position |
| JobRoutes.FormUrlsUnique | server/routes/jobs.js:59-61 | in a valid job collection, two positions with the same form URL are the same position |
| JobRoutes.GetJobAgreesWithListing | server/routes/jobs.js:26-87 | the detail route answers a job exactly when the job is in the caller's listing |
| JobRoutes.MissesRequiredJobField | server/models/Job.js:4-9 | a posting without a title, company, location or description fails the schema's required check |
| JobRoutes.CreateJob | server/routes/jobs.js:43-68 | non-admins get 403 without change; a posting missing a required field gets 500 without change; otherwise one job is appended with a fresh id, the caller as poster and "/apply/<id>" as form URL |
| JobRoutes.DeleteJob | server/routes/jobs.js:98-113 | 403, then 404 without change; otherwise exactly the job with the id and its applications are removed, and nothing else |
| UserRoutes.ProfileHidesOnlyPassword | server/routes/users.js:10-11 | two accounts show the same profile exactly when they differ at most in their password |
| UserRoutes.ApplicationCount | server/routes/users.js:16-18 | at most the number of applications, and zero exactly when no application names the account as `studentId` |
| UserRoutes.ListUsers | server/routes/users.js:8-30 | 403 exactly for non-admins, success exactly for admins; then one entry per account in reverse order, each with its profile and the number of applications it submitted |
| UserRoutes.ListUsersNewestFirst | server/routes/users.js:12 | the account list is strictly newest first |
| UserRoutes.ToggledActive | server/routes/users.js:53-57 | a missing flag counts as active, so it becomes inactive; a present flag is negated |
| UserRoutes.ToggleTwice | server/routes/users.js:53-57 | toggling twice restores a present flag and turns a missing one into active |
| UserRoutes.SetActiveKeepsValid | server/routes/users.js:57-58 | changing one account's flag keeps the user collection valid |
| UserRoutes.ToggleStatus | server/routes/users.js:33-73 | 403, 404 "User not found", 400 for the caller's own account, all without change; otherwise only the target's flag changes, and the message names the new state |
| UserRoutes.DeleteUser | server/routes/users.js:76-104 | 403, 404, 400 for the caller's own account, all without change; otherwise the account and exactly its applications are removed, and the reported count is the number removed |
| UserRoutes.DeletedCountMatchesListing | server/routes/users.js:16-18 | the count a deletion reports is the count the account list showed for that account |
| ApplicationRoutes.MissesRequired | server/models/Application.js:6-8 | a form without a student name, email or phone fails the schema's required check |
| ApplicationRoutes.PassesValidation | server/models/Application.js:4-8 | a draft passes the schema when it has an owner and every required text field |
| ApplicationRoutes.AsWrittenSubmitNeverValidates | server/routes/applications.js:13-23 | the draft the handler builds has no `studentId`, so it never passes validation |
| ApplicationRoutes.OwnedDraftValidates | server/routes/applications.js:13-23 | with the caller as owner, a draft passes exactly when its required text fields are present |
| ApplicationRoutes.Submit | server/routes/applications.js:9-28 | a form missing a required field gets 500 and nothing is stored; otherwise exactly one application is appended, owned by the caller, with a fresh id and time |
| ApplicationRoutes.InQuery | server/routes/applications.js:33-38 | the read routes' query: the job's applications, only the caller's own unless it is an admin |
| ApplicationRoutes.OwnerCollege | server/routes/applications.js:40 | the populated college is present exactly when the owner account exists, and is that account's college |
| ApplicationRoutes.JobApplications | server/routes/applications.js:31-45 | every listed entry is a stored application to the job, the caller's own unless the caller is admin, with its owner populated; every such application is listed |
| ApplicationRoutes.JobApplicationsScope | server/routes/applications.js:33-38 | an application to the job is listed exactly when the caller is admin or owns it |
| ApplicationRoutes.JobApplicationsInSubmissionOrder | server/routes/applications.js:40 | the list keeps the model's stored order, which is submission order |
| ApplicationRoutes.NonAdminSeesOwnSubset | server/routes/applications.js:35-38 | a non-admin's list is the admin's list, in order, with other owners' applications removed |
| ApplicationRoutes.DeletedJobListsNothing | server/routes/jobs.js:105 | after a job's applications are deleted, its list is empty for every caller |
| ApplicationRoutes.ExportFilename | server/routes/applications.js:63 | the attachment name is "applications_job_", the job id's text, ".csv" |
| ApplicationRoutes.ExportFilenamesDistinct | server/routes/applications.js:63 | exports of different jobs have different file names |
| ApplicationRoutes.ExportRow | server/routes/applications.js:57-60 | a row holds the six fields in header order, the college empty for a null owner |
| ApplicationRoutes.Column | server/routes/applications.js:57-60 | the value json2csv reads for a field path; empty for a null owner or an unknown path |
| ApplicationRoutes.Export | server/routes/applications.js:48-68 | content type "text/csv", the job's filename, the six header fields, and one six-cell row per listed application |
| ApplicationRoutes.ExportRowFollowsHeader | server/routes/applications.js:57-60 | each cell of a row holds the value its header field names (empty for a null owner) |
| ApplicationRoutes.ExportMatchesListing | server/routes/applications.js:50-60 | row i of the export is listed application i, cell by cell under its header |
| AdminDashboard.ParseSkills | CampusHb/src/pages/AdminDashboard.jsx:40 | [] for a missing or empty input; otherwise one skill per comma-separated piece, each the trimmed piece, none containing a comma |
| AdminDashboard.SkillsAreTrimmed | CampusHb/src/pages/AdminDashboard.jsx:40 | no skill starts or ends with whitespace |
| AdminDashboard.SkillsRoundTrip | CampusHb/src/pages/AdminDashboard.jsx:40 | a non-empty, whitespace-free input joined back from its skills with commas is the input |
| AdminDashboard.ExportLink | CampusHb/src/pages/AdminDashboard.jsx:54-56 | the link is the export endpoint and job id, then "?token=" and the stored token ("null" when none), with nothing else (exact length) |
| AdminDashboard.EndpointHasNoQuery | CampusHb/src/pages/AdminDashboard.jsx:56 | the hardcoded export endpoint contains no "?" |
| AdminDashboard.ExportLinkQuery | CampusHb/src/pages/AdminDashboard.jsx:56 | for a job id without "?", the link's path ends at its first "?" and the rest is "?token=" and the token text |
| AdminDashboard.ExportLinkTokenReachesVerification | CampusHb/src/pages/AdminDashboard.jsx:56 | for a URL-safe job id and token (the characters of hex ids and JWTs), the token read after the link's "?token=" is the stored token's text; a tab opened from the link authenticates exactly when it verifies; without a stored token the text "null" is rejected as invalid, not as missing |

## Findings

| source | as written | input that shows it | evidently intended | confidence | as-written member | corrected member |
|---|---|---|---|---|---|---|
| server/routes/applications.js:13-23 | the new application gets the caller's id as `collegeId`, which server/models/Application.js does not declare, while its required `studentId` is never set, so `save` fails validation | any POST /submit, for example a student sending a complete form | the caller stored as `studentId`, the field server/routes/users.js:17 and :89 count and delete by | not executed; high | ApplicationRoutes.AsWrittenSubmitNeverValidates | ApplicationRoutes.Submit |

## Left out

- Hashing, comparing, signing and verifying are parameters. bcrypt salts, JWT expiry and the JWT secret are not modelled.
- Mongoose persistence is not modelled: ObjectId hex text, casting errors for malformed ids, and `populate` beyond the owner's college. Ids are natural numbers, and `IdText` writes them in decimal.
- `Date.now` is an abstract clock that ticks once per stored document. The CSV's date text is a parameter.
- The json2csv byte format (quoting, escaping, line ends) is not modelled: the export is modelled as header fields plus rows of cells.
- `console.log` auditing is not modelled.
- The 500 catch-all for database failures is not modelled. The handlers' own 500s (a caller whose account is gone; a document that fails the schema's required checks on save) are modelled.
- Submit: as written, the route gives the caller's id as `collegeId`, a path the Application schema does not declare. Mongoose drops it, so the required `studentId` is never set and every submission is refused with 500 (see Findings). The model's `Submit` stores the caller as `studentId`, the owner the user routes count and delete by; it follows the intended owner, not the code as written.
- InQuery: the read routes filter on `collegeId` and call `populate('collegeId', 'collegeName')`, a path the Application schema does not declare. With Mongoose 6 or later, whose `modifiedCount` result shape server/migrate-users.js:17 reads, the default `strictPopulate` makes that populate throw, so GET /job/:jobId and GET /export/:jobId as written answer 500 for every caller. The model's `JobApplications` and `Export` instead return the intended lists: the filter is on `studentId`, the owner the submission is meant to record, and each entry is populated with the owner's college.
- ApplicationRoutes.JobApplicationsInSubmissionOrder: `Application.find` is called without a sort, so MongoDB promises no order. The model returns the applications in stored order, and the lemma is about that choice.
- Required fields: for the schema's required text fields an empty string stands for a missing value, since both fail Mongoose's required check. A password is modelled as present or missing instead, because bcrypt accepts an empty string but throws on a missing one. The stored password is a bcrypt hash, which is never empty, so the User schema's required check on it is not modelled. Mongoose's validation messages are shortened to "User validation failed", "Job validation failed" and "Application validation failed".
- The users router is modelled although `server/server.js` does not mount it.
- `authorization` is modelled although the middleware file does not export it.
- JobRoutes.Colleges: the order in which `distinct` returns names is not modelled, only the members and their uniqueness.
- JobRoutes.DeleteJob, UserRoutes.DeleteUser: removal by id is modelled as a filter on the id. Ids are unique in a valid collection, so this removes at most the one document.
- AuthRoutes.Login: password login ignores `isActive` in the source, and so does the model. No property about deactivated accounts is claimed.
- AdminDashboard.ExportLinkTokenReachesVerification: the query value is modelled as the raw text after "?token=". URL parsing is not modelled: fragments cut at `#`, parameters split at `&`, and `%xx` and `+` decoding. The lemma therefore requires a job id and token made of letters, digits, `-`, `_` and `.`, which covers the server's hex ids and JWTs.
- The React pages are not modelled beyond the skills parsing and the export link: rendering, forms, routing, local storage.
- The Cloudinary service, the migration script and the environment loader are not part of this model.
- Concurrency between requests is not modelled: each handler runs atomically on the collections.
