# Sales tracker — a Dafny model of the backend routes and admin console

The sales tracker is a field-sales system. Sales people check in at dealers
(`/visits`), mark attendance (`/attendance`), report their live location
(`/location`), plan their day (`/pjp`, the "permanent journey plan") and file
expense claims (`/claims`). An admin console approves dealers and claims,
reviews reports (`/reports`) and exports them as CSV. Every route sits behind
a bearer-token middleware, and the admin routes also sit behind a role check.

This project models that core in Dafny:

- **Database tables are classes.** Users, dealers, visits, attendance, last
  locations, plans and claims each hold `rows: seq<Row>` and `nextId`. Each
  has a `Valid()` invariant: ids are positive, distinct and below `nextId`,
  plus the table's own rules (unique e-mail, one plan per user and day, one
  location per user, approval stamps that agree with the claim status).
- **Handlers that write are methods.** Each has `modifies` on its table and
  states the new table and the reply for every branch the route has. That
  includes the 400/401/403/404 answers and the 500 "Server error" the catch
  block gives when the database rejects a write.
- **Handlers that only read are functions over the rows.** A `where` clause
  becomes `Seqs.Filter`, an `orderBy` becomes a sort by a total preorder, and
  `take` becomes `Seqs.Take`. Their contracts state which rows come back
  (membership both ways and multiplicity), in which order, and with which
  joined user and dealer.
- **Console pages are pure functions.** This covers duration formatting, the
  CSV export, the approval filter and the claims query. The CSV text is proved
  to split back into its header and rows.

Code that the model cannot see is passed in as a parameter rather than
modelled. `Js.Runtime` supplies `Number(...)`, `new Date(...)`, the
`YYYY-MM-DD` day parser and `String(...)`; `Hasher` stands for bcrypt; the
token signer and verifier stand for the JWT library; `now` is the clock.

Some answers of the route code are not the ones a reader of the API would
expect; the model gives the route code's answers:

- a claim's `amount` is only checked to be a number, not a positive one;
- a claim's `distanceKm` is not checked to be non-negative;
- approving an unknown dealer id answers 500, not 404, because Prisma's
  not-found error reaches the generic catch block;
- the admin reports answer 500, not 400, for an unparseable `from`/`to`
  date, because the invalid `Date` reaches Prisma;
- a failed plan save answers 400 with the error's message whenever that
  message mentions `dealerId`, and 500 otherwise;
- a crashing login answers 500 with the error's own message.

## Model

| member | source | states |
|---|---|---|
| AuthMiddleware.Request.constructor | backend/middleware/auth.js:6-7 | a request starts with its Authorization header and no authenticated user |
| AuthMiddleware.BearerToken | backend/middleware/auth.js:9-17 | a token is found iff the header starts with "Bearer " followed by a non-space; the token is the space-free word after the prefix |
| AuthMiddleware.Authenticate | backend/middleware/auth.js:6-31 | 401 "No token provided" without a bearer token, 401 "Invalid or expired token" when verification fails; otherwise `req.user` becomes the token's userId and role and the request goes on |
| AdminMiddleware.AdminOnly | backend/middleware/admin.js:3-8 | the request goes on iff it carries a user whose role is "admin"; otherwise 403 "Admin access only" |
| AdminMiddleware.AdminRoute | backend/middleware/admin.js:3-8 | both middlewares in a row let a request through iff its token verifies and carries the admin role; any refusal is a 401 or a 403 |
| AuthRoutes.UserTable.constructor | backend/routes/auth.js:25-43 | the user table starts empty and valid, with e-mails unique |
| AuthRoutes.ByEmail | backend/routes/auth.js:19-22 | `findUnique` by e-mail: the index of the user with that e-mail, or -1 iff there is none |
| AuthRoutes.ContactOf | backend/routes/claims.js:133-139 | the `{id, name, email}` selection of the user with a given id: present iff such a user exists, with that user's fields |
| AuthRoutes.SummaryOf | backend/routes/location.js:41-47 | the `{id, name, email, role}` selection of the user with a given id: present iff such a user exists |
| AuthRoutes.Register | backend/routes/auth.js:10-48 | 400 when a field is missing, 400 "Email already registered" for a known e-mail, otherwise 201 and exactly one new user with the hashed password and a default role; the table stays valid (e-mails unique) |
| AuthRoutes.Login | backend/routes/auth.js:53-105 | 400 iff e-mail or password is missing; 401 for an unknown e-mail or a wrong password; 200 iff a user has that e-mail and the password matches its hash, with a 7-day token and the user's summary |
| AuthRoutes.RegisteredUserCanLogin | backend/routes/auth.js:25-97 | a user just registered logs in with the same e-mail and password and receives a token for its id and role |
| Dealers.DealerTable.constructor | backend/routes/dealers.js:42-58 | the dealer table starts empty and valid |
| Dealers.DealerIndex | backend/routes/dealers.js:108-112 | lookup by id: the index of the dealer with that id, or -1 iff there is none |
| Dealers.BriefOf | backend/routes/pjp.js:108-114 | the `{id, name, city, type}` selection of a dealer: present iff the id exists, with that dealer's fields |
| Dealers.NormalizeType | backend/routes/dealers.js:33-40 | "dealer" iff the lower-cased type is "dealer"; "sub-dealer" iff it is "sub-dealer" or "subdealer"; nothing else is accepted |
| Dealers.NormalizeTypeIdempotent | backend/routes/dealers.js:33-40 | normalizing an accepted type again leaves it unchanged |
| Dealers.Create | backend/routes/dealers.js:14-66 | 201 exactly when the name is given as text, the type is text naming dealer or sub-dealer in any case, and every optional text is empty or text; 400 "name and type are required" and 400 for an unknown type are the only 400s, any other refusal is 500; on success one new unapproved dealer created by the caller with the normalized type, and nothing is written on any error |
| Dealers.List | backend/routes/dealers.js:72-102 | exactly the dealers that match the search (case-insensitive, on name or city), the type and the approval filter, each as often as stored, ordered by name |
| Dealers.ListFiltersCompose | backend/routes/dealers.js:78-90 | a dealer is listed under a query iff it is listed under each of the query's three filters alone |
| Dealers.ListUnfilteredIsAll | backend/routes/dealers.js:76-95 | without any filter every dealer is listed, as often as stored |
| Dealers.WithApproved | backend/routes/dealers.js:108-111 | only the dealer with the id becomes approved; every other row is unchanged |
| Dealers.ApproveIdempotent | backend/routes/dealers.js:106-118 | approving a dealer twice leaves the same table as approving it once |
| Dealers.Approve | backend/routes/dealers.js:106-118 | for a known id the dealer becomes approved and is returned; a non-numeric or unknown id gives 500 and no change |
| Dealers.ApprovedDealerIsListed | backend/routes/dealers.js:89-95 | after approval the dealer is listed under `approved=true` |
| Dealers.ByNameIsPreorder | backend/routes/dealers.js:94 | ordering by name is a total preorder, so the listing can be sorted |
| Visits.VisitTable.constructor | backend/routes/visits.js:31-43 | the visit table starts empty and valid |
| Visits.VisitIndex | backend/routes/visits.js:57-64 | lookup by id: the index of the visit with that id, or -1 iff there is none |
| Visits.DealerOf | backend/routes/visits.js:40-42 | the dealer joined to a visit is a stored dealer with the visit's dealer id, and is absent only when no dealer has it |
| Visits.CheckIn | backend/routes/visits.js:11-50 | 201 exactly when the dealerId is a truthy integer of a known dealer and the notes are empty or text; 400 "dealerId is required" only without a dealerId, 404 "Dealer not found" only for an integer id no dealer has, any other refusal is 500; on success one new open visit at `now` for the caller, returned with its dealer, and nothing is written on any error |
| Visits.CheckedOut | backend/routes/visits.js:70-80 | checking out stamps `now` and keeps the visit's identity, owner, dealer, check-in and notes; a coordinate is replaced only when one is given |
| Visits.CheckOut | backend/routes/visits.js:54-87 | 404 "Visit not found or not yours" for another user's or an unknown visit, 400 "Visit already checked out", otherwise only that row changes, to its checked-out form |
| Visits.VisitsOf | backend/routes/visits.js:110-116 | the visits of the joined rows, in order |
| Visits.JoinDealers | backend/routes/visits.js:110-116 | every visit keeps its place and is joined with its dealer |
| Visits.MineRows | backend/routes/visits.js:93-116 | exactly the caller's visits in the range and for the dealer filter, each as often as stored, newest check-in first, each with its dealer |
| Visits.MineRange | backend/routes/visits.js:99-104 | without both bounds no range applies; with both, from the first millisecond of `from` to the last millisecond of `to`, and no range iff a date is invalid |
| Visits.Mine | backend/routes/visits.js:90-123 | a 500 iff a date or the dealer filter is invalid; otherwise 200 with the caller's matching visits |
| Visits.MineUnfilteredIsAllOwn | backend/routes/visits.js:93-116 | without filters the list is exactly the caller's visits |
| Visits.CheckedInVisitIsMine | backend/routes/visits.js:93-116 | a visit appears in its owner's list and in nobody else's |
| Visits.MineRangeIsWholeDays | backend/routes/visits.js:99-104 | a listed visit's check-in falls on a day from `from` to `to` inclusive |
| Attendance.AttendanceTable.constructor | backend/routes/attendance.js:24-34 | the attendance table starts empty and valid |
| Attendance.NormalizeMode | backend/routes/attendance.js:16-22 | the mode is IN (or OUT) iff it is given and upper-cases to "IN" (or "OUT"); anything else is stored as no mode |
| Attendance.NormalizeModeIgnoresCase | backend/routes/attendance.js:16-22 | a mode and its upper-cased spelling normalize alike |
| Attendance.MarkTime | backend/routes/attendance.js:27 | the given timestamp when truthy, otherwise `now` |
| Attendance.Mark | backend/routes/attendance.js:11-41 | 201 and exactly one new record for the caller with the normalized mode iff every column is accepted; otherwise 500 and no write |
| Attendance.NewerIsPreorder | backend/routes/attendance.js:50 | "newest first" is a total preorder |
| Attendance.Mine | backend/routes/attendance.js:45-58 | at most 50 of the caller's records, newest first, none listed more often than stored |
| Attendance.Own | backend/routes/attendance.js:48-49 | the records of one user: exactly those whose userId is the caller's |
| Attendance.MineKeepsNewest | backend/routes/attendance.js:48-52 | a record of the caller's left out means the page is full and every listed record is at least as recent |
| Attendance.MineIsCompleteWhenFew | backend/routes/attendance.js:48-52 | when the caller has at most 50 records, every one of them is listed |
| Location.LocationTable.constructor | backend/routes/location.js:22-26 | the last-location table starts empty and holds at most one row per user |
| Location.LocationIndex | backend/routes/location.js:22-26 | the index of the caller's row, or -1 iff there is none |
| Location.Live | backend/routes/location.js:13-33 | 400 "lat and lng are required" without a coordinate; otherwise the caller's row is overwritten, or created when absent, with `now` (the table becomes `Pinged` of the old one), keeping one row per user |
| Location.All | backend/routes/location.js:37-56 | every last location, in table order, with its user's summary |
| Location.Pinged | backend/routes/location.js:22-26 | the table after a ping: the caller's row overwritten when it has one, else the ping appended, so it grows by at most one row |
| Location.PingIsLatest | backend/routes/location.js:22-26 | after a ping, first or later, one row per user still holds, the all-users view contains the new location, and every row of the caller shows it |
| Pjp.PlanTable.constructor | backend/routes/pjp.js:82-104 | the plan table starts empty, with one plan per user and day |
| Pjp.Caught | backend/routes/pjp.js:123-129 | an error answers 400 with its message iff the message mentions "dealerId", otherwise 500 "Server error" |
| Pjp.ItemSequence | backend/routes/pjp.js:61-64 | the given sequence when it is a positive number, otherwise the item's position plus one; always positive |
| Pjp.PlannedTime | backend/routes/pjp.js:66-72 | a planned time is kept only when given and parseable |
| Pjp.NormalizeItem | backend/routes/pjp.js:57-79 | a null item throws; an item without `dealerId` throws "Each item must have dealerId"; otherwise its dealer id, sequence and planned time |
| Pjp.ItemErrorsMentionDealerId | backend/routes/pjp.js:57-60 | every error normalization throws becomes a 400 carrying its message |
| Pjp.NormalizeItems | backend/routes/pjp.js:57-79 | all items normalize iff each does, position by position; otherwise the error is the first failing item's |
| Pjp.DefaultSequenceIsPosition | backend/routes/pjp.js:61-64 | without sequences the items are numbered 1, 2, 3, … in order |
| Pjp.StoredItem | backend/routes/pjp.js:94 | an item is stored iff its dealer id and sequence are integers |
| Pjp.StoredItems | backend/routes/pjp.js:92-103 | the items are stored iff each is storable (integer columns and a known dealer), position by position |
| Pjp.KeyIndex | backend/routes/pjp.js:83-88 | the index of the plan for the user and day, or -1 iff there is none |
| Pjp.Upserted | backend/routes/pjp.js:82-104 | an existing plan for the user and day keeps its id and gets the new notes and items; otherwise a new plan is appended |
| Pjp.Saved | backend/routes/pjp.js:82-120 | the plan the upsert returns carries the user, day, notes and items, and the old id when the key existed |
| Pjp.UpsertedKeepsIds | backend/routes/pjp.js:82-104 | an upsert keeps ids distinct and below the next id |
| Pjp.UpsertedKeepsKeysUnique | backend/routes/pjp.js:82-104 | an upsert keeps one plan per user and day, leaves the saved plan under its key and keeps every other plan |
| Pjp.UpsertIdempotent | backend/routes/pjp.js:82-104 | saving the same plan twice leaves the table as saving it once |
| Pjp.BySequenceIsPreorder | backend/routes/pjp.js:117 | ordering by sequence is a total preorder |
| Pjp.ItemsOf | backend/routes/pjp.js:105-118 | the items of the joined rows, in order |
| Pjp.View | backend/routes/pjp.js:105-118 | the returned plan shows its own items, in sequence order, each with its dealer |
| Pjp.Prepare | backend/routes/pjp.js:39-79 | the 400 answers in the route's order (missing date, invalid date, missing or empty items, an item error), then database errors; a plan is ready iff all checks pass (a valid date, a non-empty items array that normalizes, stored dealers, text notes), with that day, notes and items |
| Pjp.Write | backend/routes/pjp.js:82-122 | after the checks, the database accepts the plan iff every dealer exists and the notes are text; otherwise the ORM's message decides the answer |
| Pjp.Save | backend/routes/pjp.js:34-130 | a refused request changes nothing; otherwise the table is upserted, the id counter advances iff the plan is new, and the saved plan is returned |
| Pjp.Store | backend/routes/pjp.js:82-122 | the write step of a save: the table becomes the upsert of the plan, the id counter advances iff no plan existed for that user and day, and the saved plan is returned with 200 |
| Pjp.ByDateIsPreorder | backend/routes/pjp.js:162-164 | ordering by date is a total preorder |
| Pjp.PlansOf | backend/routes/pjp.js:154-180 | the plans of the joined rows, in order |
| Pjp.PlansBetween | backend/routes/pjp.js:154-180 | exactly the user's plans dated within the bounds, each as often as stored, oldest first, each shown with its sorted items |
| Pjp.Views | backend/routes/pjp.js:154-180 | each plan, in order, shown with its items and their dealers; the plans can be read back from the views |
| Pjp.ListBounds | backend/routes/pjp.js:141-152 | "Query params 'from' and 'to' are required" without both, "Invalid date format" for an unparseable one; bounds exactly when both are given and parse, and then the two midnights |
| Pjp.ListMine | backend/routes/pjp.js:136-187 | the bound error as a 400, otherwise the caller's plans between the bounds |
| Pjp.ListForUser | backend/routes/pjp.js:193-247 | the bound error as a 400, 500 for a non-numeric user id, 200 exactly when the bounds are valid and the id is an integer, with that user's plans between the bounds, each with the user's contact |
| Pjp.WithUser | backend/routes/pjp.js:221-225 | each plan view, in order, paired with the owner's contact |
| Pjp.SavedPlanIsListed | backend/routes/pjp.js:136-187 | a stored plan is listed when its own day is asked for |
| Claims.StatusNamed | backend/routes/claims.js:161-165 | the status whose name is the text, and none iff no status has that name |
| Claims.ClaimTable.constructor | backend/routes/claims.js:45-58 | the claim table starts empty, with every claim's approval stamp agreeing with its status |
| Claims.Distance | backend/routes/claims.js:52-55 | a distance is stored iff one is given and is a number |
| Claims.Create | backend/routes/claims.js:26-65 | 201 exactly when the date is given and parses, the amount is a number, and type and description are empty or text; the three 400s (missing date, missing or non-numeric amount, invalid date, in that order) are the only 400s, any other refusal is 500; on success one new pending, unapproved claim for the caller dated at the day's midnight, and nothing is written on any error |
| Claims.LaterDateIsPreorder | backend/routes/claims.js:87-90 | "latest date first" is a total preorder |
| Claims.ClaimRange | backend/routes/claims.js:78-85 | no range unless both bounds are given; with both, from one midnight to the other, and invalid iff a date does not parse |
| Claims.Matching | backend/routes/claims.js:130-141 | exactly the claims matching the owner, date range and status, each as often as stored, latest first |
| Claims.Mine | backend/routes/claims.js:71-97 | 400 "Invalid date range" for a bad bound, otherwise the caller's claims in the range |
| Claims.StatusFilter | backend/routes/claims.js:123-128 | no filter without a status; otherwise the status the upper-cased text names, and none for an unknown text |
| Claims.StatusFilterIgnoresCase | backend/routes/claims.js:123-128 | a status filter and its upper-cased spelling filter alike |
| Claims.WithUsers | backend/routes/claims.js:133-139 | every claim keeps its place, joined with its owner and, when stamped, its approver |
| Claims.AdminList | backend/routes/claims.js:104-148 | 400 "Invalid date range" for a bad bound, 500 for a non-numeric user id, 200 exactly when the range is valid and any user id is an integer, with the matching claims and their users |
| Claims.WithStatus | backend/routes/claims.js:169-176 | the claim takes the new status and keeps every other field; a decided claim is stamped with `now` and the admin, and the stamps agree with the status |
| Claims.ClaimIndex | backend/routes/claims.js:169-170 | lookup by id: the index of the claim with that id, or -1 iff there is none |
| Claims.SetStatus | backend/routes/claims.js:155-186 | 400 unless the status is one of the three names, 500 for a non-text status or a non-numeric id, 404 "Claim not found" for an unknown id; otherwise only that claim changes |
| Claims.BackToPendingClears | backend/routes/claims.js:173-174 | setting a claim back to pending clears both approval stamps |
| Claims.SetTwiceIsSetLast | backend/routes/claims.js:169-176 | two status changes in a row leave what the last one alone would leave |
| Reports.ReportRange | backend/routes/reports.js:21-29 | both dates parse iff there is a range, from the first millisecond of `from` to the last of `to` |
| Reports.IdFilter | backend/routes/reports.js:31-33 | no filter without an id; a non-numeric id is a failure; otherwise that integer |
| Reports.RecordsOf | backend/routes/reports.js:35-43 | the attendance records of the joined rows, in order |
| Reports.AttendanceRows | backend/routes/reports.js:35-43 | exactly the records in the range and for the user filter, each as often as stored, newest first, each with its user's contact |
| Reports.JoinRecords | backend/routes/reports.js:35-43 | each record, in order, joined with its user's contact; the records can be read back from the rows |
| Reports.AttendanceReport | backend/routes/reports.js:11-50 | 400 without both dates, 500 for an unparseable date or user id, otherwise the matching records |
| Reports.AttendanceReportRange | backend/routes/reports.js:21-43 | with valid dates a record is reported iff its timestamp lies between the two day bounds |
| Reports.AttendanceReportIsWholeDays | backend/routes/reports.js:21-43 | with valid dates a record is reported iff it falls on a day from `from` to `to` inclusive |
| Reports.UserByNameIsPreorder | backend/routes/reports.js:55-58 | ordering by name is a total preorder |
| Reports.UsersList | backend/routes/reports.js:53-64 | a permutation of the users' contacts (each user's contact as often as the user is stored, nothing else), ordered by name |
| Reports.VisitsOf | backend/routes/reports.js:95-106 | the visits of the joined rows, in order |
| Reports.VisitRows | backend/routes/reports.js:80-106 | exactly the visits in the range and for the user and dealer filters, each as often as stored, newest check-in first, with user and dealer |
| Reports.JoinVisits | backend/routes/reports.js:80-106 | each visit, in order, joined with its user's contact and its dealer's brief; the visits can be read back from the rows |
| Reports.VisitsReport | backend/routes/reports.js:67-113 | 400 without both dates, 500 for an unparseable date or id, otherwise the matching visits |
| Reports.MineAgreesWithReport | backend/routes/reports.js:67-113 | for the same user and days, a sales person's own visit list and the admin visit report hold the same visits |
| Reports.DealersReport | backend/routes/reports.js:115-145 | a permutation of the table's dealer rows (one per stored dealer, nothing else), each dealer present, ordered by name |
| Reports.DealerRows | backend/routes/reports.js:115-145 | one row per listed dealer, in the same order, each carrying the dealer's fields and the contact of the user who created it |
| Reports.DealerRowsCover | backend/routes/reports.js:115-145 | when the listing is a permutation of the table, every dealer of the table has its row in the report |
| Reports.DealerRowsPermute | backend/routes/reports.js:115-145 | dealers that are a permutation of each other give rows that are a permutation of each other, so sorting the dealers loses and adds no row |
| VisitReportPage.MinutesText | admin-web/src/VisitReport.jsx:109-116 | a duration text always ends in "m" |
| VisitReportPage.FormatDuration | admin-web/src/VisitReport.jsx:102-117 | "In progress" iff the visit has no check-out; otherwise a minutes text ending in "m" |
| VisitReportPage.MinutesTextReadsBack | admin-web/src/VisitReport.jsx:109-116 | from an hour or more, "Hh Mm" with M below 60 and 60·H+M equal to the minutes; below an hour, "Mm" with M equal to the minutes |
| VisitReportPage.NegativeDurationShowsMinus | admin-web/src/VisitReport.jsx:105-116 | a check-out before the check-in shows a negative duration |
| VisitReportPage.Row | admin-web/src/VisitReport.jsx:138-149 | ten cells, with the ISO check-in, the ISO check-out or empty, and the duration |
| VisitReportPage.Rows | admin-web/src/VisitReport.jsx:125-149 | the header followed by one row per visit, in order |
| VisitReportPage.Export | admin-web/src/VisitReport.jsx:119-152 | no file iff there are no visits; otherwise the comma- and newline-joined table |
| VisitReportPage.ExportReadsBack | admin-web/src/VisitReport.jsx:151-152 | with plain cells, splitting the file on newlines and commas gives back the header and every row |
| AttendanceReportPage.ModeText | admin-web/src/AttendanceReport.jsx:104 | empty iff the record has no mode |
| AttendanceReportPage.CoordinateText | admin-web/src/AttendanceReport.jsx:106-107 | empty for a missing coordinate, otherwise the number's text |
| AttendanceReportPage.Row | admin-web/src/AttendanceReport.jsx:100-110 | nine cells, with the mode, the ISO timestamp and the coordinates |
| AttendanceReportPage.Rows | admin-web/src/AttendanceReport.jsx:87-110 | the header followed by one row per record, in order |
| AttendanceReportPage.Export | admin-web/src/AttendanceReport.jsx:81-114 | no file iff there are no records; otherwise the comma- and newline-joined table |
| AttendanceReportPage.ExportReadsBack | admin-web/src/AttendanceReport.jsx:113-114 | with plain cells, splitting the file on newlines and commas gives back the header and every row |
| Csv.JoinExcludes | admin-web/src/VisitReport.jsx:151-152 | joining cells without a character leaves a text without it, except for the separator |
| Csv.DocumentReadsBack | admin-web/src/AttendanceReport.jsx:113-114 | a newline-joined table of comma-joined plain cells splits back into the same rows |
| DealersPage.Filtered | admin-web/src/DealersPage.jsx:66-70 | "approved" keeps exactly the approved dealers and "pending" the rest, in their order; any other choice keeps every row |
| DealersPage.FilterAll | admin-web/src/DealersPage.jsx:69 | a choice other than "approved" or "pending" filters nothing out |
| DealersPage.ApprovedAndPendingPartition | admin-web/src/DealersPage.jsx:66-70 | every dealer is in exactly one of the approved and pending views, and their sizes add up to the whole list |
| DealersPage.ApproveButtonFollowsFilter | admin-web/src/DealersPage.jsx:163-164 | every pending row shows an Approve button and no approved row does |
| DealersPage.ApprovedRowLeavesPending | admin-web/src/DealersPage.jsx:163-164 | once the server approves a dealer, its report row is in the approved view and shows no Approve button |
| ClaimsPage.FormatYMD | admin-web/src/ClaimsPage.jsx:6-8 | the first ten characters of the ISO text, or all of it when shorter |
| ClaimsPage.FormatYMDIsDatePart | admin-web/src/ClaimsPage.jsx:6-8 | for an ISO timestamp this is exactly the date before the "T" |
| ClaimsPage.LookupFinds | admin-web/src/ClaimsPage.jsx:28-32 | a key has a value iff it was appended, and the value is one appended under it |
| ClaimsPage.LookupAppend | admin-web/src/ClaimsPage.jsx:28-32 | appending a parameter sets its key only if the key was not there yet |
| ClaimsPage.AppendIf | admin-web/src/ClaimsPage.jsx:29-32 | a conditional append adds its key at the end when the condition holds and changes nothing else |
| ClaimsPage.Keys | admin-web/src/ClaimsPage.jsx:28-32 | the parameter names, one per parameter, in order |
| ClaimsPage.LoadParams | admin-web/src/ClaimsPage.jsx:24-38 | from, to and userId are sent iff non-empty and status iff it is not "ALL", each with the page's value, in that order |
| ClaimsPage.StatusChoiceReachesServer | admin-web/src/ClaimsPage.jsx:17 | with "ALL" the server applies no status filter; with a status choice it filters by exactly that status |
| ClaimsPage.StatusButtonsAreAccepted | admin-web/src/ClaimsPage.jsx:71-78 | each status the page's buttons send is one the server accepts, under the same name |
| ClaimsPage.ClaimsShown | admin-web/src/ClaimsPage.jsx:40-46 | the response array when it is an array, otherwise nothing |
| Js.String | backend/routes/claims.js:161 | `String(v)` of a string is the string itself |
| Js.Rem | admin-web/src/VisitReport.jsx:111 | JavaScript's `%`: it truncates toward zero, so the remainder takes the dividend's sign and is smaller than the divisor |
| Js.IntOf | backend/routes/visits.js:57 | a number converts to an integer id iff it is finite and whole, with the same value |
| Js.TextOrNull | backend/routes/dealers.js:42-58 | `x \|\| null` into a text column: null iff the value is falsy, the text iff it is a non-empty string, rejected otherwise |
| Js.NumberOrNull | backend/routes/dealers.js:54-55 | null iff the value is nullish, otherwise `Number(value)` |
| Js.FloatColumn | backend/routes/attendance.js:28-29 | a raw float column accepts null for nullish values and a number for a number |
| Js.Prop | backend/routes/pjp.js:58 | reading a property fails iff the object is nullish; on an object it gives the field or undefined |
| Dates.WholeDays | backend/routes/reports.js:21-22 | a time lies between the start of one day and the end of another iff its day lies between them |
| Dates.ParseDateYMD | backend/routes/pjp.js:13-17 | null iff the text is falsy, an invalid date iff it does not parse, otherwise the midnight of its day |

## Left out

- `backend/routes/dashboard.js` is not part of this model, nor are the mobile app and the server setup.
- Concurrency: every handler runs alone against the tables. Prisma transactions, races between two upserts and connection failures are not modelled.
- Floating-point numbers are exact reals (`Js.Number` is `NaN` or a real). Infinities, rounding and the float division in `formatDuration` are left out. The model computes minutes as an exact integer division of milliseconds.
- Case mapping (`toUpperCase`, `toLowerCase`, Prisma's `mode: "insensitive"`) covers ASCII letters only.
- Names are ordered by code point, not by the database's collation. Rows that tie under an `orderBy` may come back in any order; the contracts leave that order open.
- `Location.All` returns rows in table order, because the route gives no `orderBy`.
- Parsing dates and formatting ISO texts are parameters (`Js.Runtime.dayOf`, `newDate`, and the `iso` and `number` functions of the pages), not re-implemented.
- The JWT secret, token signing and verification, and bcrypt are parameters. The token's lifetime is the constant `TokenLifetime`.
- The role column is free text, not an enumeration.
- Ids are unbounded integers; PostgreSQL's 32-bit id limit is not modelled.
- The item ids and creation times of plan items, and `createdAt` columns other than the ones returned, are not modelled.
- Pjp.StoredItems: a plan item whose dealer does not exist is treated as a database rejection. This is how the foreign key behaves, but the key is declared in the Prisma schema, not in the routes.
- URL encoding of query parameters is left out. `ClaimsPage.LoadParams` yields the list of key/value pairs, not the encoded text.
- The claims page's initial date bounds (thirty days before today to today) depend on the clock and are not modelled; only the `formatYMD` text they are shown in is.
- CSV cells are joined unquoted, as the pages do. `VisitReportPage.ExportReadsBack` and `AttendanceReportPage.ExportReadsBack` hold only when no cell contains a comma or a newline.
- Rendering, `fetch`, `alert`, `confirm` dialogs, loading flags and the download link are left out of the console pages.
- AuthRoutes.Login: a crash inside the handler answers 500 with the error's own message. That message is not known to the model, so it stands as the constant `LoginCrash`.
- Visits.CheckIn, Attendance.Mark, Claims.Create and Dealers.Create: a write the database rejects answers 500 "Server error". The exact rules by which Prisma rejects a column value are reduced to `Js.TextOrNull`, `Js.FloatColumn` and `Js.IntOf`.
