# Ragging reporting system: a Dafny model of its decision logic

The repository is a Next.js web application for reporting "ragging" (hazing) incidents at
universities. Students, logged in or anonymous, submit complaints and check on them by
tracking number. Administrators review the complaints, change their status and read
aggregate analytics. All persistent state lives in a Supabase database and storage bucket.

This project models the logic that sits between the forms and that database:

- the server actions for complaints, accounts and administration;
- the analytics aggregations;
- the route guard;
- the identifier generators;
- the client-side checks and state updates of three pages.

The tables and the bucket are immutable values (`Store.Db`). Every action is a pure function
from the store, the request's cookie jar and its inputs to an answer and a new store.

Modules follow the source files:

| module | models |
|---|---|
| `Wrappers` | `Option`, `Result` and `Outcome`: the `{ success, error }` answers |
| `Text` | the JavaScript string operations used: `String(n)`, `padStart`, `startsWith`, `includes`, `toLowerCase`, `trim`, `length` |
| `Queries` | the query-builder and array operations: `.eq`/`filter`, `.single()`, `.order(..., { ascending: false })`, `.slice` |
| `Tally` | counting into a `Record<string, number>` with `record[k] = (record[k] \|\| 0) + 1` |
| `Store` | the `complaints`, `complaint_history` and `users` tables and the `evidence` bucket, with the schema's unique and foreign-key constraints |
| `Sessions` | cookie jars and session payloads |
| `Identifiers` | lib/utils.ts: tracking numbers and verification tokens |
| `Middleware` | middleware.ts |
| `AuthActions` | app/actions/auth-actions.ts |
| `ReportActions` | app/actions/report-actions.ts |
| `AdminActions` | app/actions/admin-actions.ts |
| `Analytics` | app/actions/analytics-actions.ts |
| `AdminDashboard` | app/admin/dashboard/page.tsx |
| `ReportPage` | app/report/page.tsx |
| `RegisterPage` | app/auth/register/page.tsx |

Nothing the code cannot compute itself is modelled as computed; it is passed in as a parameter:

- the random draw behind a tracking number, and the 32 random token bytes;
- `Date.now()`;
- the ids and timestamps the database assigns;
- bcrypt's `compare` (a function parameter) and `hash` output;
- whether a particular database or storage write fails, and whether the complaint lookups fail. The user-table lookups have no such parameter; "## Left out" names them.

A database error is `Store.DbError`. The text of a database error is not modelled.

There are two admin checks, and they are kept apart:

- `AuthActions.CheckAdminAuth` reads the `admin-session` cookie and trusts its payload.
- `AdminActions.CheckAdminAuthDb` reads the `admin_session` cookie and re-reads the user row.

The analytics actions import the second one, so they are gated by `CheckAdminAuthDb`.

Where an invariant one might expect does not hold in the code, the model follows the code. Each
difference is stated as a proved property:

- A logged-in student's report records the student's id even when it is marked anonymous (`ReportActions.AnonymousReportStillOwned`).
- Any status string may replace any other; there is no transition guard (`AdminActions.AnyStatusChangeAccepted`).
- The public status lookup returns the whole row, internal `admin_notes` included (`ReportActions.StatusLookupFindsRow`).
- Updating an id that no complaint has reports success and changes nothing (`AdminActions.UpdateOfMissingIdSucceeds`).
- Sessions are plain JSON cookies, not signed tokens. A hand-written cookie opens the admin area (`Middleware.GarbageAdminCookiePasses`) and passes the payload-only check (`AdminActions.PayloadOnlyCheckTrustsTheCookie`).

## Model

| member | source | states |
|---|---|---|
| Middleware.Route | middleware.ts:27-49 | Each of the four redirects happens exactly when its rule applies. The rules are: an `/admin` path that is not public, without an admin cookie; a `/dashboard` path without a user cookie; the user login or register page with a user cookie; the admin login page with an admin cookie. Redirect targets are the four pages named. |
| Middleware.RulesDisjoint | middleware.ts:27-47 | A `/dashboard` path is never an `/admin` path or one of the login and register pages, and an `/admin` path is never a student login or register page. |
| Middleware.OnlyPresenceMatters | middleware.ts:4-50 | The guard reads only whether the two session cookies are present: two jars that agree on that route every path alike. |
| Middleware.GarbageAdminCookiePasses | middleware.ts:28-32 | An unparsable `admin-session` cookie still lets any `/admin/...` page other than the login page through. |
| Middleware.PublicPathsNeedNoSession | middleware.ts:8-21 | Public paths (the twelve pages and `/api/...`) never redirect to a login page. |
| Middleware.RedirectTargetsPass | middleware.ts:28-49 | No redirect loop: under the same cookies, every redirect target is let through. |
| Sessions.SessionObject | app/actions/auth-actions.ts:80-86 | A session object exists exactly when the cookie is present and parses to a JSON object, and it is that object. |
| Sessions.PayloadWithRole | app/actions/auth-actions.ts:86-92 | Authenticated exactly when the parsed object's `role` is the required one; the user is the parsed object. |
| Sessions.SetSession | app/actions/auth-actions.ts:13-26 | After `cookies().set`, the cookie parses back to the payload written; every other cookie is untouched. |
| Sessions.DeleteCookie | app/actions/auth-actions.ts:74 | After `cookies().delete`, the cookie is gone; every other cookie is untouched. |
| AuthActions.CheckAdminAuth | app/actions/auth-actions.ts:78-97 | Authenticated exactly when `admin-session` is present, parses to an object and says `role: "admin"`; no database check. |
| AuthActions.CheckUserAuth | app/actions/auth-actions.ts:237-256 | Authenticated exactly when `user-session` is present, parses to an object and says `role: "student"`. |
| AuthActions.AdminLogin | app/actions/auth-actions.ts:8-71 | The hard-coded pair `admin@gmail.com` / `@Admin123` always succeeds with the fixed `admin-1` principal. Any other success requires an admin row with that e-mail whose hash matches. A failure says "Invalid email or password" and leaves the cookies alone. A success passes `checkAdminAuth`. |
| AuthActions.AdminLoginAccepts | app/actions/auth-actions.ts:30-66 | Outside the hard-coded pair, with unique e-mails, an admin row whose hash matches the password logs in and its id, e-mail and role are written to `admin-session`. |
| AuthActions.AdminLoginRefusesWrongPassword | app/actions/auth-actions.ts:44-48 | Outside the hard-coded pair, a password that does not match the admin row is refused with "Invalid email or password" and the cookies are kept. |
| AuthActions.AdminLogout | app/actions/auth-actions.ts:73-76 | After logout the payload-only admin check fails; a student session is kept. |
| AuthActions.RegisterUser | app/actions/auth-actions.ts:99-144 | An existing e-mail is refused and nothing is written. Any failure writes nothing. On success, exactly one student row is appended: unverified, holding the returned 64-character token, which decodes to the 32 random bytes. Uniqueness of ids and e-mails is preserved. |
| AuthActions.RegisterDuplicateEmail | app/actions/auth-actions.ts:104-108 | With unique e-mails, registering a taken address answers "Email already registered" and leaves the store unchanged. |
| AuthActions.MarkVerified | app/actions/auth-actions.ts:162-168 | The row with the id becomes verified with no token; every other row is unchanged. |
| AuthActions.VerifyEmail | app/actions/auth-actions.ts:146-179 | An unknown token fails with "Invalid verification token" and writes nothing. A success marks verified, and clears the token of, exactly the rows with the id of a user that held the token; every other row and table is unchanged. |
| AuthActions.VerifyEmailOneShot | app/actions/auth-actions.ts:161-174 | A token that verified once is refused the second time. |
| AuthActions.LoginUser | app/actions/auth-actions.ts:181-230 | A failure is "Invalid email or password" or "Please verify your email before logging in", and sets no cookie. A success means a verified student row with that e-mail whose hash matches, and the `user-session` cookie carries that row's id, e-mail, name and role. |
| AuthActions.LoginChecksVerificationFirst | app/actions/auth-actions.ts:197-206 | An unverified student is refused for verification whatever the password. |
| AuthActions.LoginDoesNotRevealAccounts | app/actions/auth-actions.ts:193-206 | A wrong password for a verified account and an unknown e-mail get identical answers. |
| AuthActions.LogoutUser | app/actions/auth-actions.ts:232-235 | After logout `checkUserAuth` fails; an admin session is kept. |
| AuthActions.RegisterVerifyLogin | app/actions/auth-actions.ts:99-230 | Registering a fresh e-mail, verifying with the returned token, then logging in with the password succeeds at every step. |
| Identifiers.ComplaintNumber | lib/utils.ts:13-15 | The number starts with `RA-`, has the year, a dash and a four-digit serial equal to 1000 + draw. |
| Identifiers.SerialNeverPadded | lib/utils.ts:14 | `padStart(4, "0")` never pads: the serial already has four digits. |
| Identifiers.ParseTrackingNumber | lib/utils.ts:14 | Parsing succeeds exactly on strings of the form `RA-dddd-dddd`. |
| Identifiers.ComplaintNumberRoundTrip | lib/utils.ts:13-15 | For a four-digit year the number has the form `RA-dddd-dddd`, and parsing gives back the year and 1000 + draw. |
| Identifiers.ComplaintNumberInjective | lib/utils.ts:14 | In one year, different draws give different numbers. |
| Identifiers.HexEncode | lib/utils.ts:18 | `toString("hex")` gives two lower-case hex digits per byte. |
| Identifiers.HexRoundTrip | lib/utils.ts:18 | Decoding the hex text returns the original bytes. |
| Identifiers.HexInjective | lib/utils.ts:18 | Different byte strings have different hex encodings. |
| Identifiers.VerificationToken | lib/utils.ts:17-19 | The token has 64 characters, all from `0-9a-f`, and decodes to the 32 bytes. |
| Store.InsertComplaint | app/actions/report-actions.ts:95-116 | The insert succeeds exactly when no fault occurs and the id and number are new. It appends the row, keeps uniqueness, and fails with a database error otherwise. |
| Store.InsertHistory | app/actions/report-actions.ts:119-123 | A history insert succeeds exactly when no fault occurs and the complaint exists, and appends the row. |
| Store.InsertUser | app/actions/auth-actions.ts:117-131 | A user insert succeeds exactly when no fault occurs and the id and e-mail are new. It appends the row and keeps uniqueness. |
| Store.Upload | app/actions/report-actions.ts:77-87 | An upload succeeds exactly when no fault occurs and the object name is new, and adds it to the bucket. |
| Store.CreateSignedUrl | app/actions/report-actions.ts:153-159 | A link is created exactly for an object in the bucket, with the requested lifetime. |
| Queries.Filter | app/actions/report-actions.ts:223-226 | The rows kept satisfy the condition, every row that satisfies it is kept, and the result is an order-preserving subsequence. |
| Queries.FilterAll | app/actions/admin-actions.ts:92-96 | A filter every row passes changes nothing. |
| Queries.FilterFilter | app/admin/dashboard/page.tsx:73-85 | Two filters in a row select what their conjunction selects. |
| Queries.FilterDisjointCount | app/admin/dashboard/page.tsx:243-265 | Counts under two conditions that never both hold add up to the count under their disjunction. |
| Queries.FilterAppend | app/actions/analytics-actions.ts:43-47 | Filtering distributes over concatenation. |
| Queries.FilterSnocCount | app/actions/analytics-actions.ts:43-47 | One more row at the end raises a filter's count by one exactly when the row is selected. |
| Queries.FilterMultiset | app/actions/analytics-actions.ts:20-25 | A filter keeps every copy of a row it selects and none of a row it rejects. |
| Queries.FilterPermutationCount | app/actions/analytics-actions.ts:25 | Reordering the rows does not change how many a filter selects. |
| Queries.FilterAtMostOne | app/actions/auth-actions.ts:104 | On a column with at most one match, the filter yields at most one row, and exactly one when a match exists. |
| Queries.Single | app/actions/report-actions.ts:173-177 | `.single()` yields a row only when exactly one row matches, and that row matches. |
| Queries.SingleUnique | app/actions/report-actions.ts:173-177 | On a unique column, `.single()` finds the row that has the value. |
| Queries.SortDesc | app/actions/report-actions.ts:227 | `.order(..., { ascending: false })` yields the same rows, as a permutation, sorted by non-increasing key. |
| Queries.SortDescSameRows | app/actions/report-actions.ts:227 | Every sorted row was fetched, and every fetched row is in the sorted result. |
| Queries.Take | app/actions/analytics-actions.ts:170 | `.slice(0, n)` keeps the first `min(n, length)` entries. |
| Queries.TakeSortedDominates | app/actions/analytics-actions.ts:169-170 | An entry cut off by the slice of a descending sort counts no more than any entry kept. |
| Tally.Bump | app/actions/analytics-actions.ts:85 | Incrementing a key raises its count and the total by one, appends a new key at the end, and keeps keys distinct. |
| Tally.TallyFromCounts | app/actions/analytics-actions.ts:43-47 | Each key ends with its seeded count plus its number of occurrences. |
| Tally.TallyFromKeys | app/actions/analytics-actions.ts:35-47 | Seeded keys keep their places in front, and every key counted is present. |
| Tally.TallySpec | app/actions/analytics-actions.ts:82-86 | Counting into an empty record gives distinct keys, each key's exact frequency, every value present, and a total equal to the number of values. |
| Tally.DistinctKeysOnce | app/actions/analytics-actions.ts:82-86 | A record with distinct keys holds each entry at most once. |
| Tally.DistinctKeysPermutation | app/actions/analytics-actions.ts:169 | Reordering a record with distinct keys keeps them distinct. |
| Tally.CountByEntry | app/actions/analytics-actions.ts:157-161 | Every value appears with its exact frequency. |
| ReportActions.StoredCategory | app/actions/report-actions.ts:103 | `incidentCategory \|\| null` is null exactly when the category is missing or empty, and is the category otherwise. |
| ReportActions.ValidateEvidence | app/actions/report-actions.ts:51-60 | A file passes exactly when it is at most 5 MiB and its type is one of the six allowed. Size is checked first, with its own message. |
| ReportActions.MaxSizeIsInclusive | app/actions/report-actions.ts:8 | The ceiling is 5 242 880 bytes: a file of exactly that size passes and one byte more fails. |
| ReportActions.FileExtension | app/actions/report-actions.ts:62 | `split(".").pop()` is the longest suffix without a dot, and is preceded by a dot when shorter than the name. |
| ReportActions.StoreEvidence | app/actions/report-actions.ts:45-92 | With no non-empty file, nothing is stored and the evidence columns stay null. Otherwise, a rejected file fails with its message; a failed upload says so. A success stores the object under `number_time.ext` and returns a seven-day link to it. Nothing but the bucket changes. |
| ReportActions.Owner | app/actions/report-actions.ts:41-43 | The owner is the session's id when a student is logged in, and null otherwise. |
| ReportActions.Persist | app/actions/report-actions.ts:94-123 | The complaint insert succeeds exactly when no fault occurs and the keys are new, and appends one row. The seeded "Pending"/"Complaint submitted" history row follows unless its own insert fails, which is ignored. |
| ReportActions.SubmitReport | app/actions/report-actions.ts:20-135 | A missing required field fails with its message and writes nothing. Any failure leaves the tables unchanged. A success returns the generated number and appends exactly one complaint. |
| ReportActions.RequiredFieldsCheckedFirst | app/actions/report-actions.ts:36-39 | A missing date, time, location or description fails before any storage or database write. |
| ReportActions.InvalidEvidenceWritesNothing | app/actions/report-actions.ts:51-60 | Rejected evidence fails the submission with no upload and no insert. |
| ReportActions.FailedInsertAddsNoHistory | app/actions/report-actions.ts:113-116 | A failed complaint insert fails the submission and appends no history row. |
| ReportActions.SubmittedRow | app/actions/report-actions.ts:95-123 | The new row has status "Pending", no notes, the returned number, and the database's id and date. Exactly the seeded history row follows unless that insert fails; users are untouched. |
| ReportActions.SubmittedFields | app/actions/report-actions.ts:97-110 | The new row stores the four required fields as sent, the category or null, and the anonymous flag as sent. It records the session's id whenever a student is logged in. |
| ReportActions.SubmittedEvidence | app/actions/report-actions.ts:46-92 | Without evidence, the three evidence columns and the link are null and the bucket is unchanged. With evidence, the object is in the bucket, the name and type are recorded, and the link is a seven-day link to it. |
| ReportActions.AnonymousReportStillOwned | app/actions/report-actions.ts:43 | A logged-in student's report marked anonymous still records the student's id. |
| ReportActions.SubmissionSucceeds | app/actions/report-actions.ts:20-130 | With the required fields, no evidence and fresh keys, a submission succeeds with the generated number and no link. |
| ReportActions.ViewOf | app/actions/report-actions.ts:186-201 | The view is the stored row unchanged, plus a one-hour link exactly when it has an evidence path whose object exists. |
| ReportActions.CheckComplaintStatus | app/actions/report-actions.ts:168-210 | A success returns a stored row with exactly that number, whole, with the evidence link its path gives. A failure is the not-found message; an unknown number or a failed query fails. |
| ReportActions.StatusLookupFindsRow | app/actions/report-actions.ts:196-201 | With unique numbers, a stored complaint is found by its number, and its `admin_notes` are returned with it. |
| ReportActions.SubmittedReportIsFound | app/actions/report-actions.ts:20-210 | The number returned by a successful submission looks up the row just inserted. |
| ReportActions.OwnComplaints | app/actions/report-actions.ts:223-227 | The rows are exactly the student's own complaints, each as often as stored (a permutation of the filtered table), newest submission first. |
| ReportActions.GetUserComplaints | app/actions/report-actions.ts:212-255 | A visitor who is not logged in gets "Not authenticated". A success returns one view per own row, in order. |
| ReportActions.UserListIsOwnRows | app/actions/report-actions.ts:212-250 | A logged-in student's list contains only their own stored complaints, all of them, newest first. |
| ReportActions.GetEvidenceUrl | app/actions/report-actions.ts:137-166 | An unknown id or a failed query gives "Evidence not found", and every failure is one of the two messages. A success is a one-hour link to an existing object that the complaint's evidence path names. |
| ReportActions.EvidenceUrlFound | app/actions/report-actions.ts:142-163 | With unique ids, a stored complaint with an evidence path gets the one-hour link to that path when the object exists, and "Failed to generate download URL" when it does not. |
| AdminActions.CheckAdminAuthDb | app/actions/admin-actions.ts:57-81 | Authenticated only when `admin_session` parses to an object with role "admin" and a non-empty id naming an existing admin row; the user is that row. |
| AdminActions.AdminAuthDbComplete | app/actions/admin-actions.ts:57-76 | With unique ids, a session naming an existing admin authenticates as that admin. |
| AdminActions.DemotedAdminRefused | app/actions/admin-actions.ts:70-74 | A session naming a row that is not an admin is refused. |
| AdminActions.PayloadOnlyCheckTrustsTheCookie | app/actions/admin-actions.ts:57-74 | A forged admin claim naming no user passes the payload-only check but fails the database check. |
| AdminActions.AdminLogin | app/actions/admin-actions.ts:8-50 | A missing e-mail or password fails with "Email and password are required". A failure sets no cookie. A success means an admin row with that e-mail whose hash matches, written to `admin_session`. |
| AdminActions.AdminLoginAccepts | app/actions/admin-actions.ts:13-45 | With unique e-mails, filled fields naming an admin row whose hash matches log in, writing that row's id, e-mail and role to `admin_session`. |
| AdminActions.AdminLoginRefusesNonAdmin | app/actions/admin-actions.ts:19-29 | Filled fields whose e-mail names no admin row are refused with "Invalid email or password", whatever the password. |
| AdminActions.AdminLoginThenCheck | app/actions/admin-actions.ts:8-81 | With unique e-mails, a successful login here (for a row with an id) passes this file's check as that admin. |
| AdminActions.AdminLogout | app/actions/admin-actions.ts:52-55 | After logout the database admin check fails, and no other cookie is added or removed. |
| AdminActions.FormatKeepsAllButOwner | app/actions/admin-actions.ts:105-121 | The formatted entry keeps every column but the owner, renamed: the row can be rebuilt from it and its owner. |
| AdminActions.FormatIgnoresOnlyOwner | app/actions/admin-actions.ts:105-121 | Two rows format alike exactly when they differ at most in their owner. |
| AdminActions.ListedRows | app/actions/admin-actions.ts:92-98 | The rows are a permutation of the complaints with the requested status, or of all of them when the status is missing, empty or "all", newest first. |
| AdminActions.GetComplaints | app/actions/admin-actions.ts:83-128 | Without an admin session the answer is "Not authenticated". A success is one formatted entry per listed row, in order. |
| AdminActions.ComplaintListCoverage | app/actions/admin-actions.ts:92-123 | An admin's unfiltered list has one entry per complaint. A filtered list holds only that status. Every listed complaint appears formatted. |
| AdminActions.GetComplaintDetails | app/actions/admin-actions.ts:130-169 | Without an admin session the answer is "Not authenticated"; an unknown id or a failed query gives "Complaint not found". A success formats a stored row with that id. |
| AdminActions.ComplaintDetailsFound | app/actions/admin-actions.ts:130-167 | With unique ids, an admin asking for a stored complaint gets that row, formatted. |
| AdminActions.SetStatus | app/actions/admin-actions.ts:181-188 | The row with the id gets the new status and both notes; every other row is unchanged. |
| AdminActions.InsertHistoryIgnoringFailure | app/actions/admin-actions.ts:195-200 | The history row is appended when the insert can succeed; otherwise the store is unchanged. |
| AdminActions.UpdateComplaintStatus | app/actions/admin-actions.ts:171-207 | Without an admin session the answer is "Not authenticated" and nothing changes. It succeeds exactly when an admin's update does not fail. A success changes only the status and the two notes of the rows with the id. The history row naming the admin is appended unless its insert fails, which is ignored. A failure changes nothing. |
| AdminActions.AnyStatusChangeAccepted | app/actions/admin-actions.ts:181-188 | An admin may set any complaint to any status string; there is no transition guard. |
| AdminActions.UpdateOfMissingIdSucceeds | app/actions/admin-actions.ts:181-202 | Updating an id that no complaint has reports success and changes nothing. |
| AdminActions.UpdateKeepsValid | app/actions/admin-actions.ts:181-200 | An update keeps complaint ids and numbers unique. |
| AdminActions.GetEvidenceUrlAdmin | app/actions/admin-actions.ts:209-243 | Without an admin session the answer is "Not authenticated", and an unknown id or a failed query gives "Evidence not found". A success is a one-hour link to the complaint's evidence path. |
| AdminActions.EvidenceUrlAdminFound | app/actions/admin-actions.ts:211-239 | An admin asking for a stored complaint with an evidence path gets the one-hour link when the object exists, and the download-link error when it does not. |
| AdminActions.NoEvidencePathNoUrl | app/actions/admin-actions.ts:225-227 | A complaint without an evidence path gives "Evidence not found". |
| AdminActions.UnauthenticatedTouchesNothing | app/actions/admin-actions.ts:85-88 | Without an admin session, listing, details, update and evidence all answer "Not authenticated", and the update writes nothing. |
| Analytics.MonthAt | app/actions/analytics-actions.ts:36-37 | `setMonth` arithmetic: counting months from year 0, the month built for index k has index k. |
| Analytics.MonthIndexInjective | app/actions/analytics-actions.ts:36-38 | Distinct months have distinct indexes. |
| Analytics.MonthName | app/actions/analytics-actions.ts:255-271 | `getMonthName(m)` is the m-th of the twelve English names. |
| Analytics.MonthNameInjective | app/actions/analytics-actions.ts:256-270 | Different months have different names. |
| Analytics.MonthKey | app/actions/analytics-actions.ts:38 | For a non-negative year the key is the year's digits followed by three characters, the first of them a dash. |
| Analytics.ParseMonthKey | app/actions/analytics-actions.ts:51 | A strict reader of `YYYY-MM` keys: it answers exactly on four digits, a dash and two digits. It stands in for `split("-")` only on the keys the code builds, which is what Analytics.MonthKeyRoundTrip uses to justify keying the record by month. |
| Analytics.TwoDigitMonth | app/actions/analytics-actions.ts:38 | The padded month number has two digits and reads back as the month. |
| Analytics.MonthKeyRoundTrip | app/actions/analytics-actions.ts:38-53 | For a four-digit year, splitting the key gives back the year and month. |
| Analytics.TrendWindow | app/actions/analytics-actions.ts:16-18 | The window holds twelve consecutive months, from eleven months ago to the current month. |
| Analytics.TrendWindowChronological | app/actions/analytics-actions.ts:35-40 | The window's months are strictly increasing and pairwise distinct. |
| Analytics.ZeroEntries | app/actions/analytics-actions.ts:35-40 | The seeded record has the window's keys, in order, all at zero. |
| Analytics.TrendPoints | app/actions/analytics-actions.ts:50-56 | One point per record entry, labelled "Month year", with the entry's count. |
| Analytics.TrendsShape | app/actions/analytics-actions.ts:32-56 | With every fetched month inside the window, the result has twelve points in window order, each counting exactly that month's rows. |
| Analytics.StrayMonthAddsPoint | app/actions/analytics-actions.ts:43-47 | A fetched month outside the window adds a thirteenth point. |
| Analytics.FetchedMonths | app/actions/analytics-actions.ts:20-25 | Every fetched month is the month of a complaint submitted inside the time range, and each month occurs exactly as often as there are complaints of that month inside the range. |
| Analytics.MonthsOfOccurrences | app/actions/analytics-actions.ts:43-47 | A month occurs among the mapped rows as often as rows of that month are present. |
| Analytics.WindowMonthCount | app/actions/analytics-actions.ts:20-47 | Sorting the rows of the range does not change how often a month is counted: once per complaint of that month inside the range. |
| Analytics.GetIncidentTrends | app/actions/analytics-actions.ts:6-63 | Without an admin session the answer is "Not authenticated". It succeeds exactly when an admin's fetch works, with the zero-seeded monthly counts of the fetched months. |
| Analytics.IncidentTrendsCounts | app/actions/analytics-actions.ts:15-61 | When every row in the range falls in one of the twelve seeded months, a success has twelve points in order, each labelled with its month and counting exactly the complaints of that month inside the range. |
| Analytics.CategoryKeys | app/actions/analytics-actions.ts:84 | One key per fetched row. |
| Analytics.CategoryBreakdown | app/actions/analytics-actions.ts:75-92 | Keys are distinct, and the counts sum to the number of complaints with a category. |
| Analytics.CategoryCountsExact | app/actions/analytics-actions.ts:82-92 | Every key is non-empty and counts exactly its rows; an empty category is counted as "Uncategorized". |
| Analytics.CategoriesCovered | app/actions/analytics-actions.ts:83-86 | Every complaint with a category contributes its key. |
| Analytics.StatusKeys | app/actions/analytics-actions.ts:120 | One key per row, with an empty status read as "Unknown". |
| Analytics.StatusDistribution | app/actions/analytics-actions.ts:111-128 | Keys are distinct and non-empty, each counts exactly its rows, every row's key is present, and the counts sum to the number of rows. |
| Analytics.LocationKeys | app/actions/analytics-actions.ts:159 | One key per row, with an empty location read as "Unknown". |
| Analytics.LocationAnalysis | app/actions/analytics-actions.ts:157-170 | Distinct locations sorted by non-increasing count: ten of them, or all of them when there are fewer than ten. |
| Analytics.TopEntries | app/actions/analytics-actions.ts:164-170 | The leading entries of the sorted location record name each location once, in non-increasing count. |
| Analytics.LocationCountsExact | app/actions/analytics-actions.ts:157-170 | Every entry's count is that location's frequency. |
| Analytics.LocationTopTen | app/actions/analytics-actions.ts:164-170 | A location left out of the top ten occurs no more often than any location kept. |
| Analytics.GetCategoryBreakdown | app/actions/analytics-actions.ts:65-99 | Without an admin session the answer is "Not authenticated". It succeeds exactly when an admin's fetch works, with the category tally of the table, whose counts sum to the complaints with a category. |
| Analytics.GetStatusDistribution | app/actions/analytics-actions.ts:101-135 | Without an admin session the answer is "Not authenticated". It succeeds exactly when an admin's fetch works, with the status tally of the table, whose counts sum to the number of complaints. |
| Analytics.GetLocationAnalysis | app/actions/analytics-actions.ts:137-177 | Without an admin session the answer is "Not authenticated". It succeeds exactly when an admin's fetch works, with the location analysis of the table: at most ten distinct locations. |
| Analytics.FirstResolution | app/actions/analytics-actions.ts:202-208 | None exactly when the complaint was never marked "Resolved". Otherwise it is the time of such an entry, and no such entry is earlier. |
| Analytics.DaysBetween | app/actions/analytics-actions.ts:215 | The whole days between the two times, rounded down, also when negative. |
| Analytics.TimesOfTimedCons | app/actions/analytics-actions.ts:201-221 | One more closed complaint in front of the loop adds its whole days in front when its history lookup succeeds and finds a resolution, and nothing otherwise. |
| Analytics.TimesOfTimedLength | app/actions/analytics-actions.ts:201-221 | The loop records at most one time per closed complaint, and one for each when every lookup succeeds and finds a resolution. |
| Analytics.ResponseDays | app/actions/analytics-actions.ts:199-222 | One value per closed complaint whose history lookup succeeds and finds a resolution, in row order: the whole days from submission to its first resolution. None for the others. |
| Analytics.Bucket | app/actions/analytics-actions.ts:225-237 | The ranges are 1-3, 4-7, 8-14, 15-30 and 31 or more days; a value below 1 falls in no range. |
| Analytics.RangeEdges | app/actions/analytics-actions.ts:229-230 | 30 days falls in 15-30, 31 in "30+", 0 in none. |
| Analytics.Positive | app/actions/analytics-actions.ts:233-238 | The values that can land in a range (at least one day) are no more than all the values. |
| Analytics.BucketCounts | app/actions/analytics-actions.ts:233-238 | Five counts adding up to the number of values that are at least one. |
| Analytics.BucketCountsSpec | app/actions/analytics-actions.ts:233-238 | Each count is the number of values in its range. |
| Analytics.Mean | app/actions/analytics-actions.ts:243-246 | The average is the sum over the count, or 0 when there are no values. |
| Analytics.SumBounds | app/actions/analytics-actions.ts:245 | The sum of values in [lo, hi] lies between count·lo and count·hi. |
| Analytics.MeanWithinRange | app/actions/analytics-actions.ts:243-246 | The average lies between the smallest and largest bound of the values. |
| Analytics.Analyse | app/actions/analytics-actions.ts:224-247 | Five ranges with their labels in order, each counting exactly the day counts in its range, together counting every day count of at least one; and the mean. |
| Analytics.BucketCountsTotal | app/actions/analytics-actions.ts:224-238 | Each labelled counter holds the day counts of its range, and the five add up to the day counts of at least one. |
| Analytics.ResponseTimeExample | app/actions/analytics-actions.ts:225-246 | Days 2, 5 and 40 give the counts 1, 1, 0, 0, 1 and the average 47/3. |
| Analytics.GetResponseTimeAnalysis | app/actions/analytics-actions.ts:179-252 | Without an admin session the answer is "Not authenticated". It succeeds exactly when an admin's fetch works, with the analysis of the resolution times of the closed complaints. The ranges count no more complaints than are resolved or closed. |
| Text.DecimalRoundTrip | lib/utils.ts:14 | `String(n)` is read back as n. |
| Text.PadStart | lib/utils.ts:14 | `padStart` gives at least the width, with fill characters in front of the original. |
| Text.Lower | app/admin/dashboard/page.tsx:76-84 | `toLowerCase` keeps the length and lower-cases each character. |
| Text.TrimEmptyIffBlank | app/auth/register/page.tsx:29 | `!s.trim()` holds exactly for strings of white space. |
| Text.Utf16Length | app/auth/register/page.tsx:39 | `length` counts UTF-16 code units: between one and two per character. |
| Text.Utf16LengthBmp | app/auth/register/page.tsx:39 | Inside the Basic Multilingual Plane, `length` is the number of characters. |
| Text.Utf16LengthAstral | app/auth/register/page.tsx:39 | Outside it, each character counts twice. |
| AdminDashboard.SearchThenStatus | app/admin/dashboard/page.tsx:69-88 | The search step followed by the status step keeps exactly the entries the two conditions admit together. |
| AdminDashboard.FilterComplaints | app/admin/dashboard/page.tsx:69-88 | The shown entries are an order-preserving subsequence of the list. Each passes the search (empty, or contained case-insensitively in the number, location or description) and the status tab ("all", or equal case-insensitively). Every entry that passes is shown. |
| AdminDashboard.NoFilterShowsAll | app/admin/dashboard/page.tsx:73-83 | An empty search on the "all" tab shows the list unchanged. |
| AdminDashboard.FilterIdempotent | app/admin/dashboard/page.tsx:69-88 | Filtering what is shown changes nothing. |
| AdminDashboard.SearchIgnoresCase | app/admin/dashboard/page.tsx:74-79 | A term and its lower-case form show the same entries. |
| AdminDashboard.SearchByNumberFinds | app/admin/dashboard/page.tsx:76 | Searching for an entry's own tracking number shows it. |
| AdminDashboard.CardCount | app/admin/dashboard/page.tsx:243 | A card counts at most the whole list, and is zero exactly when no lower-cased status equals it. |
| AdminDashboard.CardMatchesTab | app/admin/dashboard/page.tsx:243-265 | A card equals the number of entries its status tab shows with an empty search. |
| AdminDashboard.CardsDisjoint | app/admin/dashboard/page.tsx:243-265 | The "pending", "under review" and "resolved" cards add up to at most the list's length. |
| AdminDashboard.Patched | app/admin/dashboard/page.tsx:158-163 | The spread keeps every field but the status and both notes, which take the new values. |
| AdminDashboard.ReplaceAsWritten | app/admin/dashboard/page.tsx:156-166 | The patch as written keeps the list's length. |
| AdminDashboard.AsWrittenPatchesEveryEntry | app/admin/dashboard/page.tsx:157 | As written, every entry takes the new status and notes. |
| AdminDashboard.AsWrittenCounterexample | app/admin/dashboard/page.tsx:152-166 | As written, resolving one of two pending complaints shows the other as resolved too. |
| AdminDashboard.ReplaceUpdated | app/admin/dashboard/page.tsx:156-166 | Keyed by `id`: only the entry with the updated id changes, and only its status and two notes. |
| AdminDashboard.PatchAgreesWithServer | app/admin/dashboard/page.tsx:152-168 | After a successful update, the patched list equals the formatted table the server stored. |
| AdminDashboard.HandleUpdateStatus | app/admin/dashboard/page.tsx:145-183 | The corrected handler, which sends and compares `selected.id`: the list is patched only when an admin's update succeeds, and only at the selected id. A list that mirrored the table still mirrors it. |
| ReportPage.Step | app/report/page.tsx:38-102 | The anonymous flag changes only through the checkbox, which exists only for a logged-in visitor. The evidence changes only when at least one file is chosen, to the first. |
| ReportPage.FormData | app/report/page.tsx:63-73 | The category is always sent. The evidence is sent exactly when a file was chosen. `anonymous` is "true" exactly when ticked. |
| ReportPage.ClientCheckMatchesServer | app/report/page.tsx:56-60 | The page's required-field check passes exactly when the server's check passes on the data sent. |
| ReportPage.Reset | app/report/page.tsx:81-87 | The five text fields become empty and the file is dropped; `anonymous` is kept. |
| ReportPage.HandleSubmit | app/report/page.tsx:51-96 | Form data is sent exactly when the four required fields are filled; otherwise only the error is set. On acceptance: the reset state (all five text fields and the file cleared, `anonymous` kept) with success, the number and no error. On refusal: an error and nothing else changed. |
| ReportPage.LoggedOutStaysAnonymous | app/report/page.tsx:29 | Starting logged out and ticked, no events that leave the visitor logged out can untick `anonymous`. |
| ReportPage.LoggedOutSendsAnonymous | app/report/page.tsx:338-349 | A visitor never found logged in always sends `anonymous` as "true". |
| RegisterPage.Validate | app/auth/register/page.tsx:29-48 | The form proceeds exactly when no field is blank, the passwords match and the password has at least eight code units. Each refusal has its message in order: blank, mismatch, length. The values pass untrimmed. |
| RegisterPage.MismatchBeforeLength | app/auth/register/page.tsx:34-42 | A short mistyped confirmation is reported as a mismatch. |
| RegisterPage.LengthCountsSpaces | app/auth/register/page.tsx:39-42 | The length is of the untrimmed password: seven spaces and a letter pass. |
| RegisterPage.AstralCharactersCountTwice | app/auth/register/page.tsx:39 | Four emoji are eight code units, enough to pass. |
| RegisterPage.AfterRegister | app/auth/register/page.tsx:49-59 | The token screen appears exactly for a non-empty returned token. Errors are shown exactly for failures, with the server's message when it has one. |
| RegisterPage.HandleSubmit | app/auth/register/page.tsx:26-65 | A refused form shows its message and calls nothing. An accepted form with a new e-mail and id and no fault reaches the token screen with the token of the drawn bytes. A token screen means exactly one user was added, with the typed e-mail and name and the token shown. Nothing changes otherwise. A successful registration never goes to the verify page, because a token always comes back. |

## Left out

- Supabase itself, HTTP and cookie transport, `JSON.parse`, `redirect()` and `NextResponse`. The store is a value, a cookie is classified by what it parses to, and a redirect is a returned value.
- bcrypt: `compare` is a function parameter and `hash` a given string.
- Randomness and clocks: the `Math.random` draw, the 32 token bytes, `Date.now()`, and database ids and timestamps are parameters.
- Database and storage failures are boolean parameters, and the text of a database error is not modelled. Creating a signed link fails only when the object is missing.
- AdminActions.CheckAdminAuthDb: a failing `users` query is not a parameter. The code turns it into `authenticated: false` (app/actions/admin-actions.ts:71-73), the same answer as a missing row, so a failure would only add more refusals.
- AuthActions.AdminLogin: a failing admin-row lookup (app/actions/auth-actions.ts:33-42) is not a parameter; the code answers it as it answers a missing row.
- AdminActions.AdminLogin: a failing admin-row lookup (app/actions/admin-actions.ts:20-29) is not a parameter; the code answers it as it answers a missing row.
- AuthActions.RegisterUser: a failing existence check (app/actions/auth-actions.ts:104) is not a parameter. Its error is ignored, so the insert goes ahead; the unique e-mail constraint of `Store.InsertUser` still refuses a taken address.
- AuthActions.VerifyEmail: a failing token lookup (app/actions/auth-actions.ts:151-159) is not a parameter; `fault` covers only the update. The code answers a failed lookup as an unknown token.
- AuthActions.LoginUser: a failing student-row lookup (app/actions/auth-actions.ts:186-195) is not a parameter; the code answers it as it answers a missing row.
- Exceptions and the `catch` branches of every action, with their fixed "An unexpected error occurred" style messages.
- Creating the `evidence` bucket when it is missing (app/actions/report-actions.ts:67-74).
- `Promise.all`, `setTimeout` and the loading flags: no concurrency is modelled.
- `getDashboardStats` (app/actions/admin-actions.ts:245-307): it relies on a grouping call whose result is not visible in the code.
- Rendering, the static pages, the other pages (login, verify-email, check-status, the student and admin complaint views, analytics charts and CSV export), `formatDate`/`formatTime` and locale output.
- The admin login page calls the FormData-taking `adminLogin` with two strings (app/admin/login/page.tsx:29). The two admin cookie names differ (`admin_session` against `admin-session`). Both are glue defects between files; each side is modelled on its own terms.
- Analytics.GetIncidentTrends: the calendar is left out. The current month, the time range and the mapping from a timestamp to its local month are parameters, so `setMonth` overflow and time zones are not modelled.
- Analytics.CategoryBreakdown: the order of `Object.entries` is modelled as first-insertion order. JavaScript moves integer-like keys to the front, and that is not modelled.
- Analytics.StatusDistribution: the same first-insertion order is assumed. A status is any string an admin types, so an integer-like status such as "1" would move to the front in JavaScript; that is not modelled.
- Analytics.LocationAnalysis: the same first-insertion order is assumed before the sort, so among equal counts an integer-like location such as "101" may be placed differently in JavaScript; that is not modelled.
- Analytics.LocationAnalysis: among locations with equal counts, which ones the sort keeps is not stated.
- Queries.SortDesc: the database's order among rows with equal keys is not stated.
- Analytics.Mean: the average is a ratio (sum, count), not a floating-point number.
- Text.Lower: `toLowerCase` is modelled on ASCII letters only.
- AdminDashboard.ReplaceAsWritten: the same missing key also sends `undefined` as the id to `updateComplaintStatus` (app/admin/dashboard/page.tsx:152). What the database does with that value is not modelled.

## Findings

| source | as written | input that shows it | evidently intended | confidence | as-written member | corrected member |
|---|---|---|---|---|---|---|
| app/admin/dashboard/page.tsx:152-166 | The local patch after a status update compares `c.complaintId === selectedComplaint.complaintId`. The entries `getComplaints` returns (app/actions/admin-actions.ts:105-121) have an `id` key and no `complaintId` key, so both sides are `undefined` and every entry is patched. | Two pending complaints on screen; select the first and set it to "Resolved". The patch runs only if `updateComplaintStatus(undefined, ...)` reports success; the update of an id no row has does (AdminActions.UpdateOfMissingIdSucceeds). Then both show "Resolved" until the reload. | Compare `c.id === selectedComplaint.id`, so that only the updated complaint changes. | not executed | AdminDashboard.ReplaceAsWritten, AdminDashboard.AsWrittenCounterexample | AdminDashboard.ReplaceUpdated, AdminDashboard.PatchAgreesWithServer, AdminDashboard.HandleUpdateStatus |
