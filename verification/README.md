# Job application tracker — a Dafny model

This project models the core of a small job-application tracker. The core has
three parts:

- **The Express/Mongoose server.** It covers the job and user schemas, the job
  controller (create, list, get, update, delete, per-status statistics), the
  signup and login controller, and the job router.
- **The job list page.** Its search and status filter, the list update after a
  delete, and the status badge colours.
- **The dashboard page.** It turns the statistics into summary cards and chart
  bars.

The database is an in-memory value:

- The jobs collection is a sequence of `Job` records in insertion order.
- The users collection is a map from e-mail to user document. The unique index
  on `email` makes this a map.

Every handler is a pure function. An HTTP reply is a status code plus a
body or an error message. The job handlers take the jobs collection and the
authenticated caller. Those that write (create, update, delete) return the
new collection together with the reply (`Step`); those that only read (list,
get, stats) return the reply alone. The auth handlers take the users map
instead of a caller: signup returns the new map with the reply (`AuthStep`),
and login returns the reply alone.

Modules, one per file:

| module | file | models |
|---|---|---|
| `Http` | http.dfy | `Option`, the reply shape, the status codes used |
| `Text` | text.dfy | `String.prototype.trim`, ASCII `toLowerCase`, `includes` |
| `Seqs` | seqs.dfy | `Array.prototype.filter` and order-preserving subsequences |
| `Tally` | tally.dfy | the counting `$group` stage |
| `UserModel` | user_model.dfy | `server/models/User.js` |
| `JobSchema` | job_schema.dfy | `server/models/Jobs.js` |
| `JobController` | job_controller.dfy | `server/controllers/jobController.js` |
| `JobProperties` | job_properties.dfy | properties across job handlers |
| `AuthController` | auth_controller.dfy | `server/controllers/authController.js` |
| `JobRoutes` | job_routes.dfy | `server/routes/jobRoutes.js` |
| `JobsPage` | jobs_page.dfy | `src/pages/Jobs.jsx` |
| `Dashboard` | dashboard.dfy | `frontend/src/pages/Dashboard.jsx` |

Behaviour of the code that the model keeps:

- **Create errors are 500.** `createJob`'s `catch` answers 500 "Server error"
  for every failure of `save`, a validation failure included
  (server/controllers/jobController.js:17-18).
- **Updates are not validated.** `updateJob` calls `findOneAndUpdate` without
  validators (server/controllers/jobController.js:51-55). It stores any status
  string, and it stores an empty title or company when the body sends one.
  `JobProperties.UpdateBypassesEnum` and `Dashboard.UnknownStatusMissesTheChart`
  state the consequences.
- **A `__proto__` status has no count.** `getJobStats` copies the groups into
  a plain object (server/controllers/jobController.js:101-106). Assigning to
  its `__proto__` key goes to the inherited setter, which ignores a number.
  A job whose status is `__proto__` is therefore counted in `total` and under
  no key (`JobController.ProtoStatusIsDropped`).
- **Login with a missing password is 500.** `bcrypt.compare` throws, and the
  handler answers 500 rather than 401
  (server/controllers/authController.js:55).
- **Only the first 72 characters of a password count.** bcrypt ignores the
  rest, so two passwords that agree on their first 72 characters both log in
  (`UserModel.LongPasswordsShareTheirPrefix`).

## Model

| member | source | states |
|---|---|---|
| Text.Trim | server/models/Jobs.js:4-8 | the `trim` setter's result has no leading or trailing JavaScript white space or line terminator, and is the input with a run of such characters cut from each end |
| Text.TrimIdempotent | server/models/Jobs.js:4-8 | trimming a trimmed value again changes nothing |
| Text.ToLower | src/pages/Jobs.jsx:76-77 | lower-casing keeps the length and maps each upper-case ASCII letter to its lower-case letter, leaving every other character alone |
| Text.ToLowerIdempotent | src/pages/Jobs.jsx:76-77 | a lower-cased string has no upper-case ASCII letter left, so lower-casing again changes nothing |
| Text.Contains | src/pages/Jobs.jsx:76-77 | `includes` is true exactly when the needle occurs at some position of the haystack |
| Text.EmptyIsContained | src/pages/Jobs.jsx:76-77 | every string includes the empty string |
| Seqs.Filter | src/pages/Jobs.jsx:74-80 | `filter` is never longer than its input |
| Seqs.FilterMembers | src/pages/Jobs.jsx:74-80 | an element is in the filtered list exactly when it is in the input and satisfies the predicate |
| Seqs.FilterIsSubsequence | src/pages/Jobs.jsx:74 | the filtered list embeds into the original in increasing positions, so relative order is kept |
| Seqs.FilterMultiplicity | src/pages/Jobs.jsx:48 | each kept value occurs as often as in the input, and each dropped value not at all |
| Tally.Count | server/controllers/jobController.js:86-94 | grouping and counting gives a key exactly for each value that occurs; its count is that value's number of occurrences and is never 0; and the counts add up to the number of documents |
| UserModel.BcryptKey | server/models/User.js:18 | bcrypt reads the first 72 characters of a longer password and the whole of a shorter one |
| UserModel.CompareOwnHash | server/models/User.js:17-25 | a password compares equal to its own hash under any salt |
| UserModel.CompareIsExactForShortPasswords | server/models/User.js:23-25 | for passwords of at most 72 characters, comparison accepts exactly the hashed password |
| UserModel.LongPasswordsShareTheirPrefix | server/models/User.js:23-25 | two passwords that agree on their first 72 characters are both accepted by the same hash |
| UserModel.NewUser | server/models/User.js:4-9 | a new document holds the given fields, `date` is the creation time, and the password counts as modified |
| UserModel.PreSave | server/models/User.js:12-20 | after the hook the password is a hash and the other fields are unchanged; an unmodified document comes back untouched; a modified one's hash accepts the plaintext |
| UserModel.ComparePasswordAfterSave | server/models/User.js:12-25 | after the pre-save hook has hashed a set password, `comparePassword` accepts a candidate exactly when bcrypt reads the same first 72 characters from it as from the saved password |
| UserModel.NoDoubleHashing | server/models/User.js:13-16 | saving a saved document again does not hash the hash, and the original plaintext still matches |
| JobSchema.TrimField | server/models/Jobs.js:14-17 | an optional field stays absent or present, and a present one comes out as the sent value with leading and trailing white space cut |
| JobSchema.NewJob | server/models/Jobs.js:3-37 | validation passes exactly when title and company are non-empty after trimming and the status is absent or one of the five. A valid job holds the trimmed fields, the owner, the creation time and the default status, and satisfies the schema invariant. An invalid result names exactly the failing paths |
| JobSchema.StatusDefaultsToApplied | server/models/Jobs.js:18-22 | a create without a status yields status `applied` |
| JobSchema.MissingRequiredRejected | server/models/Jobs.js:4-13 | a missing title or company, or a title or company of only white space, fails validation |
| JobSchema.UnknownStatusRejected | server/models/Jobs.js:18-22 | a status outside the enumeration fails validation on the status path |
| JobSchema.StoredFieldsAreTrimFixedPoints | server/models/Jobs.js:4-30 | the trim setters leave the fields of a created job unchanged |
| JobController.CreateJob | server/controllers/jobController.js:4-20 | create succeeds exactly when validation passes and the id is free. It appends the validated job owned by the caller and answers 201. Otherwise it answers 500 "Server error" and leaves the collection unchanged |
| JobController.SortNewestFirst | server/controllers/jobController.js:25-27 | the sorted list is a permutation of its input with non-increasing `dateApplied` |
| JobController.GetJobs | server/controllers/jobController.js:23-32 | the list holds exactly the caller's jobs, each as often as stored, newest first |
| JobController.FindOwned | server/controllers/jobController.js:37 | the query finds the first job with that id owned by the caller, and finds none exactly when no such job exists |
| JobController.GetJob | server/controllers/jobController.js:35-45 | get answers 200 with a stored job of the caller with that id exactly when one exists, and 404 "Job not found" otherwise |
| JobController.ApplyUpdate | server/controllers/jobController.js:50-55 | an update keeps id, owner and date. It leaves each absent field as stored. It stores each present text field as the sent value trimmed, and the status as sent |
| JobController.UpdateJob | server/controllers/jobController.js:48-63 | update succeeds exactly when the caller owns a job with that id, and then replaces only that job by its updated version and returns it. Otherwise it answers 404 and leaves the collection unchanged |
| JobController.DeleteJob | server/controllers/jobController.js:66-79 | delete succeeds exactly when the caller owns a job with that id, and then removes only that job, keeping the others in order. Otherwise it answers 404 and leaves the collection unchanged |
| JobController.StatusMultiplicity | server/controllers/jobController.js:86-94 | a status occurs among the grouped values as often as the caller has jobs with it |
| JobController.GetJobStats | server/controllers/jobController.js:82-112 | `total` is the number of the caller's jobs. A status other than `__proto__` is a key exactly when some job of the caller has it, and its value is the positive number of such jobs. The values add up to `total` less the jobs whose status is `__proto__` |
| JobController.StatusCounts | server/controllers/jobController.js:98-106 | the object built from the groups has no `__proto__` key, has every other status of the jobs as a key with its positive count, and its values add up to the number of jobs less those with status `__proto__` |
| JobController.StatsAddUpWithoutProto | server/controllers/jobController.js:95-106 | when no job of the caller has status `__proto__`, the values of `byStatus` add up to `total` |
| JobController.ProtoStatusIsDropped | server/controllers/jobController.js:104-106 | a job of the caller with status `__proto__` leaves no key in `byStatus`, and the values then add up to less than `total` |
| JobProperties.GetJobLooksOnlyAtOwnJobs | server/controllers/jobController.js:37 | get answers as a lookup among the caller's jobs alone would |
| JobProperties.UpdateReplyIsUpdatedGet | server/controllers/jobController.js:51-59 | update answers with the job get would return, updated, or with get's 404 |
| JobProperties.AnswersDependOnlyOnOwnJobs | server/controllers/jobController.js:23-112 | two collections with the same jobs for a caller give that caller identical answers to list, get, update, delete and stats |
| JobProperties.OthersJobsUntouched | server/controllers/jobController.js:4-79 | create, update and delete by one user never change the jobs another user owns |
| JobProperties.ForeignJobIsNotFound | server/controllers/jobController.js:35-79 | another user's job answers 404 to get, update and delete, exactly like a missing one, and nothing changes |
| JobProperties.CreateThenGet | server/controllers/jobController.js:4-45 | a created job can be fetched by its id, carries the trimmed fields, default status and creation time, is listed, and raises the total by one |
| JobProperties.DeleteUndoesCreate | server/controllers/jobController.js:4-79 | deleting a just-created job restores the collection |
| JobProperties.UpdateIsIdempotent | server/controllers/jobController.js:48-63 | sending the same update twice has the effect of sending it once |
| JobProperties.CreateKeepsIdsUnique | server/controllers/jobController.js:4-20 | a create keeps job ids unique |
| JobProperties.UpdateKeepsIdsUnique | server/controllers/jobController.js:48-63 | an update keeps job ids unique |
| JobProperties.DeleteKeepsIdsUnique | server/controllers/jobController.js:66-79 | a delete keeps job ids unique |
| JobProperties.DeleteDropsOneOwnedJob | server/controllers/jobController.js:68-75 | a successful delete takes exactly one matching job out of the caller's jobs |
| JobProperties.DeleteRemovesTheId | server/controllers/jobController.js:68-71 | with unique ids, no job with the deleted id remains |
| JobProperties.UpdateBypassesEnum | server/controllers/jobController.js:51-55 | an update with a status outside the enumeration stores it, so the job no longer satisfies the schema invariant |
| JobProperties.StatsTotalIsListLength | server/controllers/jobController.js:23-100 | the stats total equals the length of the caller's job list |
| AuthController.Issue | server/controllers/authController.js:25-27 | a token names the user, its `iat` is the issue time in whole seconds, and it expires seven days later |
| AuthController.Signup | server/controllers/authController.js:4-44 | a missing or empty field answers 400 first, and a registered e-mail answers 400 next; neither changes the users. Success adds exactly one user under the e-mail with a hashed password that accepts the given one, and answers 201 with a token and the public user. Success happens exactly when all fields are present, the e-mail is new and the id is free |
| AuthController.Login | server/controllers/authController.js:46-77 | an unknown e-mail answers 404, a missing password 500, and a wrong password 401. Success happens exactly when the stored hash accepts the password, and yields a token for the stored user and its public view |
| AuthController.SignupKeepsUsersWellFormed | server/controllers/authController.js:14-22 | signup keeps every stored user under its own e-mail, hashed, complete, and with a unique id |
| AuthController.SignupThenLogin | server/controllers/authController.js:4-77 | after a successful signup, login with the same e-mail and password succeeds for the new user |
| AuthController.DuplicateSignupRejected | server/controllers/authController.js:15-19 | a signup with a registered e-mail fails with 400 and changes nothing |
| JobRoutes.FirstMatch | server/routes/jobRoutes.js:20-25 | the search finds the first route in registration order that matches, or reports that none does |
| JobRoutes.Dispatch | server/routes/jobRoutes.js:16-25 | a request reaches no handler exactly when authentication rejects it. Otherwise the first matching route runs for the authenticated user with the captured id, and the router falls through exactly when no route matches |
| JobRoutes.StatsWinsOverId | server/routes/jobRoutes.js:22-23 | `GET /stats`, in any letter case and with or without a trailing slash, reaches the stats handler, not the single-job handler |
| JobRoutes.RootRoutes | server/routes/jobRoutes.js:20-21 | `POST /` creates a job and `GET /` lists them |
| JobRoutes.GetIdRoute | server/routes/jobRoutes.js:20-23 | `GET /<id>` reaches getJob with that id unless the id reads `stats`, which the earlier stats route takes |
| JobRoutes.IdRoutes | server/routes/jobRoutes.js:23-25 | GET, PUT and DELETE on `/<id>` reach get, update and delete with that id; for GET this holds unless the id reads `stats` |
| JobRoutes.AuthGuardsEveryRoute | server/routes/jobRoutes.js:17 | a rejected request never reaches a handler |
| JobsPage.FilterJobs | src/pages/Jobs.jsx:74-80 | a job is shown exactly when both the search and the status filter match it; with a filter other than "all", every shown job has that status |
| JobsPage.FilterJobsKeepsOrder | src/pages/Jobs.jsx:74 | the shown jobs are a subsequence of the list, each matching job as often as listed |
| JobsPage.SearchIsCaseInsensitiveSubstring | src/pages/Jobs.jsx:75-77 | the search matches exactly when the lower-cased term occurs in the lower-cased title or company, and lower-casing the term first changes nothing |
| JobsPage.EmptySearchShowsAll | src/pages/Jobs.jsx:76-78 | an empty search leaves only the status filter, and with "all" as well every job is shown |
| JobsPage.AllStatusesIsNoRestriction | src/pages/Jobs.jsx:78 | with "all", the result is what the search alone selects |
| JobsPage.RemoveJob | src/pages/Jobs.jsx:48 | after a delete no job with the id is left and every other job stays |
| JobsPage.RemoveJobKeepsOthersInOrder | src/pages/Jobs.jsx:48 | the local delete keeps the other jobs in order and with their multiplicities, and drops exactly the jobs with that id |
| JobsPage.RemoveJobMirrorsServer | src/pages/Jobs.jsx:47-48 | after a successful server delete, the page's updated list holds the same jobs as the caller's listing fetched again |
| JobsPage.StatusColor | src/pages/Jobs.jsx:57-72 | the badge is gray exactly for statuses outside the five, and is always one of six classes |
| JobsPage.StatusColorsAreDistinct | src/pages/Jobs.jsx:58-68 | distinct known statuses get distinct badge classes |
| Dashboard.CountOf | frontend/src/pages/Dashboard.jsx:115-119 | a status present in `byStatus` shows its count, and an absent one shows 0 |
| Dashboard.StatCards | frontend/src/pages/Dashboard.jsx:45-107 | there are four cards: the first shows `total`, and the others show the interview, offer and rejection counts |
| Dashboard.ChartData | frontend/src/pages/Dashboard.jsx:109-130 | there is one bar per label, and bar `i` shows the count of status `i` in the order applied, interview, offer, rejected, saved |
| Dashboard.ChartCoversTheEnumeration | frontend/src/pages/Dashboard.jsx:110-120 | the chart's statuses are exactly the schema's enumeration, in its order |
| Dashboard.AfterFetch | frontend/src/pages/Dashboard.jsx:28-43 | a successful fetch keeps the server's stats with no error; a failed one keeps total 0, an empty `byStatus` and the error message |
| Dashboard.Render | frontend/src/pages/Dashboard.jsx:158-183 | with an error the page renders the message alone; otherwise it renders the four cards, the first holding the total, and one bar per status of the chart, each holding that status's count |
| Dashboard.FailureShowsZeros | frontend/src/pages/Dashboard.jsx:32-39 | after a failed fetch the card and chart data are all 0, and the page renders only the error message |
| Dashboard.ChartSplitsTheCounts | frontend/src/pages/Dashboard.jsx:114-120 | the counts in `byStatus` add up to the bars plus the counts under keys no bar shows |
| Dashboard.AbsentStatusCountsZero | server/controllers/jobController.js:104-106 | a status missing from the stats belongs to none of the caller's jobs, unless it is `__proto__` |
| Dashboard.DashboardShowsTheCallersCounts | frontend/src/pages/Dashboard.jsx:45-120 | after fetching the caller's stats, the total card shows the number of the caller's jobs and each bar the number with that status, zero included |
| Dashboard.SuccessRendersTheStats | frontend/src/pages/Dashboard.jsx:166-183 | after a successful fetch the page renders the cards and chart, with the caller's total and per-status counts |
| Dashboard.ChartAddsUpToTotal | frontend/src/pages/Dashboard.jsx:45-120 | when all the caller's statuses are among the five, the bars add up to the total card |
| Dashboard.UnknownStatusMissesTheChart | frontend/src/pages/Dashboard.jsx:45-120 | a job whose status is outside the five, which an update can store, counts in the total but in no bar, so the bars add up to less |

## Left out

- Database mechanics are not modelled: queries, the aggregation engine, indexes, connections and failures of the backing store. The collections are values. A database error's 500 answer is modelled only for the two causes the model can produce: failed validation and a duplicate id.
- Malformed ids are not modelled. Ids are already-cast natural numbers, so the 500 that Mongoose answers for an id that is not an ObjectId does not arise.
- The `error.message` detail of 500 replies is not modelled. Only the `msg` field is.
- `Promise.all` in `getJobStats` becomes one sequential pure computation.
- The race between the duplicate-e-mail check and the insert in `signup` is not modelled. Requests are handled one at a time.
- bcrypt is an idealised, collision-free digest of the salt and the first 72 characters. bcrypt truncates at 72 bytes, not characters, so non-ASCII passwords are not modelled exactly. Salt generation is a parameter.
- JWT signing, verification and expiry checking are not modelled. A token is a value holding the user id and its `iat`/`exp` claims. The authentication middleware's source is not part of this model; its decision is a parameter of the router.
- The clock (`Date.now`) is a parameter.
- Text handling:
  - `toLowerCase` is modelled for ASCII letters only.
  - No URL decoding is applied to route parameters.
  - Route matching covers the default Express options: case-insensitive, with an optional trailing slash.
- Body fields that are not strings are not modelled, and the login e-mail is taken as a string.
- `req.user._id` is taken to be an ObjectId, the type of the stored `Job.user`. Ids are natural numbers, so the model does not show what happens when the middleware (not part of this model) passes the token's string `userId`: `aggregate` does not cast its `$match` while `countDocuments` and `find` do, so `byStatus` would come back empty while `total` counts the jobs.
- Dashboard.AbsentStatusCountsZero: promises a zero count only for keys other than `__proto__`, because a plain object drops that key while jobs may carry the status.
- JobController.ApplyUpdate: how the driver treats `undefined` fields in an update document is outside the source. The patch names the fields it sets explicitly, and absent fields are left as stored.
- `server/server.js` and both `api.js` clients are not part of this model: mounting, CORS, and the HTTP client and its interceptors. A non-2xx reply is taken as a failed fetch.
- Everything on the two pages except their data functions and the dashboard's choice of screen (`Dashboard.Render`) is left out: React state, effects, the loading screen and its 15-second timeout, `window.confirm`, the markup, colours of chart bars, the drawing of the charts and locale date formatting.
- The console logging of the signup handler (`console.log`, `console.warn` and `console.error` at server/controllers/authController.js:6-41) is a side effect with no bearing on replies or data, and is left out.
- The other pages and components (`App.jsx`, `Navbar.jsx`, `PieChart.jsx`, `AddJob.jsx`, `Login.jsx`) are not part of this model.
