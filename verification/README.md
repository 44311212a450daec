# hrms — a Dafny model of the HR and payroll rules

The hrms application is an HR and payroll administration tool. A FastAPI
server keeps users, employees, payroll, payslips, leave policies and leave
requests in MongoDB. A React single-page app drives the server for two
roles: admins and employees. This project models the parts of both sides
that carry rules, and proves what those rules guarantee.

The server (`backend/server.py`) is modelled in four modules:

- `HrStore` holds the collections as sequences in insertion order. A
  `find_one` is the first matching document, and `to_list(1000)` is a cap
  of 1000.
- `HrStore` also models authentication and the admin gate. The bearer
  token's `sub` claim is an input: `None` stands for a token that fails to
  decode.
- `AuthRoutes` covers registration, login and employee creation, with its
  duplicate-email checks.
- `PayrollRoutes` covers the payroll upsert, payslip generation, and the
  payslip listing and download with their access rule.
- `LeaveRoutes` covers filing, listing and deciding leave requests, and
  the leave-balance arithmetic.

Every route is a total function. It returns an `HttpError`, or the new
database together with the response body. Ids and timestamps are
parameters.

The browser side is modelled as pure functions and small state machines:

- `CivilDate` gives calendar days with day numbers, weekdays, the
  following day and `YYYY-MM-DD` text. `Strptime` gives the server's more
  lenient `strptime(s, "%Y-%m-%d")`.
- `LeaveSection` covers the employee's leave dialog: the weekend and
  holiday range check, the date inputs and the submit gate.
- `TemplatePreview` covers the print-format preview: the placeholder and
  amount-filter substitution over the sample payslip.
- `PrintFormatForm` covers the print-format editor's form.
- `Session` covers the app's `localStorage` session, login, logout, the
  start-up restore and the route guards. `UserJson` gives the stored user
  record's JSON text.
- `ApiClient` covers the API base URL and the bearer-header interceptor.
- `LoginForm` covers the sign-in page.
- `HolidayForm` covers the holiday screen's add form and its built-in 2026
  list.
- `EmployeeScreen` and `LeaveScreen` cover the lookups, payloads and
  actions of the admin's employee and leave screens.

`Wrappers`, `Seqs`, `Text` and `Sorting` are shared helpers:

- `Option` and `Result`;
- first-match search, filtering, and sums that can fail;
- JavaScript character classes and string order;
- Python's stable `sorted(..., reverse=True)`.

Several behaviours are modelled as the code has them, even where they look
unintended:

- The payslip route reads `basic_salary`, `allowances` and `deductions`
  from the payroll record. The assignment route never writes those fields.
  So a payroll assigned through the API always makes payslip generation
  fail with a 500 (`PayrollRoutes.AssignedPayrollCannotPay`).
- The login response has no refresh token. `handleLogin` therefore stores
  the text "undefined" under `refresh_token`, and that text alone is enough
  for the next start-up to restore the user (`Session.MissingRefreshIsTruthy`).
- The default print template writes "₹" in front of a filter that prints
  "₹" itself, so the preview shows it twice (`TemplatePreview.DoubledRupee`).
- A stored user whose role is neither admin nor employee is redirected
  between `/login` and `/employee` forever (`Session.OtherRoleNeverSettles`).

## Model

| member | source | states |
|---|---|---|
| HrStore.Authenticate | backend/server.py:186-203 | a caller is authenticated exactly when the token's subject names a stored account, and is that account's user; every other caller gets 401 "Could not validate credentials" |
| HrStore.RequireAdmin | backend/server.py:205-211 | the admin gate lets through exactly the authenticated admins; an authenticated non-admin gets 403 "Admin access required" and an unauthenticated caller keeps its 401 |
| HrStore.EmployeeOfUser | backend/server.py:412 | the employee profile of an account is a stored record linked to that account's id, and there is none exactly when no record is linked |
| HrStore.PayrollOf | backend/server.py:379 | the payroll of an employee is the first payroll record naming the employee, absent exactly when no record names them |
| HrStore.PayslipFor | backend/server.py:384-387 | a payslip for an employee and month is found exactly when some stored payslip has both |
| AuthRoutes.Register | backend/server.py:215-245 | registration fails with 400 "Email already registered" exactly when some account has the email; otherwise the account is appended with its password hash and the reply is a bearer token for the new id and role; an employee account links the first employee record with its email, an admin account changes no employee record, and nothing else changes |
| AuthRoutes.LinkEmployee | backend/server.py:235-241 | registering an employee account links the first employee record with the same email to the new account and leaves every other record as it was |
| AuthRoutes.Login | backend/server.py:247-258 | login succeeds exactly when an account has the email and the password verifies against its hash, and returns that account's user with claims of its id and role; any failure is 401 "Invalid credentials" |
| AuthRoutes.EmployeeCode | backend/server.py:75 | the generated employee code is "EMP" followed by the first eight characters of the uuid, each upper-cased and otherwise kept, eleven characters for a full uuid |
| AuthRoutes.EmployeeCodeDistinguishes | backend/server.py:75 | two uuids get the same employee code exactly when their first eight characters agree, since upper-casing loses nothing on hexadecimal digits |
| AuthRoutes.CreateEmployee | backend/server.py:266-282 | an admin's new employee is refused with 400 exactly when an employee record already has the email; otherwise a record that is not yet invited or linked is appended and returned |
| AuthRoutes.RegisterKeepsEmailsUnique | backend/server.py:217-220 | registration keeps account emails pairwise distinct |
| AuthRoutes.RegisterThenLogin | backend/server.py:247-258 | logging in right after registering, with the same password, yields the same token and user as registration did |
| AuthRoutes.LoginTokenAuthenticates | backend/server.py:256-258 | with distinct account ids, the subject of a login token authenticates later requests as the user who logged in |
| AuthRoutes.RegisterLinksEmployee | backend/server.py:235-241 | after an employee registers with an existing employee record's email, the profile lookup of the new account finds that record, now linked |
| AuthRoutes.CreateEmployeeKeepsEmailsUnique | backend/server.py:268-271 | adding employees keeps employee emails pairwise distinct |
| PayrollRoutes.AssignPayroll | backend/server.py:320-350 | assignment is admin-only: 404 "Employee not found", then 404 "Payroll structure not found", otherwise success; an existing record keeps its id, creation time and any salary keys and only changes structure in place, while an employee without one gets a new record appended; the reply is the stored record read through the `Payroll` model, so it never carries salary keys; no other collection changes |
| PayrollRoutes.AssignPayrollRefetch | backend/server.py:333-343 | a later lookup of the employee's payroll finds a record on the requested structure whose `Payroll` reading is the reply; a new record is stored exactly as returned, a repointed one keeps its salary keys |
| PayrollRoutes.AsPayroll | backend/server.py:92-97 | a reply built through the `Payroll` model keeps the id, employee, structure and creation instant of the stored record and drops its salary keys |
| PayrollRoutes.AssignPayrollKeepsOneEach | backend/server.py:332-349 | when every employee has at most one payroll record, the upsert keeps it so |
| PayrollRoutes.AssignPayrollLeavesOthers | backend/server.py:336-339 | assigning one employee's payroll leaves every other employee's payroll lookup unchanged |
| PayrollRoutes.GeneratePayslip | backend/server.py:371-406 | generation is admin-only: 404 for an unknown employee, 404 for one without payroll, 400 when that month's payslip exists; a payslip carries exactly the payroll record's three components with net pay = basic + allowances - deductions and is the only change; the route fails with 500 exactly when it reaches a payroll record lacking a component, and succeeds whenever an admin asks for an employee whose payroll record has all three components and who has no payslip for the month |
| PayrollRoutes.GeneratePayslipKeepsOnePerMonth | backend/server.py:383-389 | generation keeps at most one payslip per employee and month |
| PayrollRoutes.GenerateTwiceRefused | backend/server.py:383-389 | a second generation for the same employee and month is refused with 400 and changes nothing |
| PayrollRoutes.AssignedPayrollCannotPay | backend/server.py:392 | a payroll record created by the assignment route has no salary components, so generating that employee's payslip ends in a 500 |
| PayrollRoutes.PayslipsOf | backend/server.py:416 | the employee's payslips are exactly the stored payslips naming that employee, none invented |
| PayrollRoutes.EmployeePayslips | backend/server.py:408-420 | listing is refused with 403 exactly when an employee-role caller asks for anyone but their own linked record; an allowed listing is a permutation of the employee's first thousand payslips, sorted by month descending |
| PayrollRoutes.EmployeePayslipsComplete | backend/server.py:416 | below the cap, every stored payslip of the employee appears in the listing |
| PayrollRoutes.EmployeePayslipsStable | backend/server.py:420 | payslips of the same month keep their stored order, as Python's stable reverse sort does |
| PayrollRoutes.Underscored | backend/server.py:504 | every space of the name becomes an underscore and every other character is kept in place |
| PayrollRoutes.DownloadPayslip | backend/server.py:422-505 | a download is 404 for an unknown payslip, and 403 exactly when the access rule of the listing refuses the caller; a permitted download succeeds exactly when the payslip's employee record exists and the attachment name built from month and name is Latin-1 text, the encoding the response headers use, and is a 500 otherwise; a success carries the payslip, its employee and the attachment name built from month and name |
| PayrollRoutes.NonLatinNameFails | backend/server.py:501-505 | a permitted download of a payslip whose employee's name holds 'Ł' ends in a 500, because the attachment header cannot be Latin-1 encoded |
| PayrollRoutes.ListedPayslipDownloadable | backend/server.py:428-432 | whatever payslip the listing shows a caller, the download does not refuse that caller access |
| LeaveRoutes.CreateLeaveRequest | backend/server.py:535-558 | only an employee with a profile may file: 403 for other roles, 404 without a profile, 404 exactly when the policy is unknown; an employee with a profile naming an existing policy always succeeds; a filed request is pending, belongs to the caller's profile and is appended |
| LeaveRoutes.RequestsOf | backend/server.py:568 | an employee's requests are exactly the stored requests naming that employee |
| LeaveRoutes.Visible | backend/server.py:562-568 | an employee with a profile is shown only requests of that profile |
| LeaveRoutes.ListLeaveRequests | backend/server.py:560-573 | the listing fails only for an unauthenticated caller; it is a permutation of the visible requests, newest first; an employee without a profile gets an empty list and one with a profile only their own requests |
| LeaveRoutes.AdminSeesAll | backend/server.py:562-563 | an admin sees every stored request while there are at most a thousand |
| LeaveRoutes.CreatedRequestListed | backend/server.py:550-568 | a request just filed appears in its author's listing while they have at most a thousand |
| LeaveRoutes.UpdateLeaveRequest | backend/server.py:575-587 | deciding a request is admin-only and 404 exactly when no request has the id; otherwise only that request's status changes, to the decision, whatever it was before |
| LeaveRoutes.UpdateRefetch | backend/server.py:584-587 | the request returned is the one a later lookup by id finds |
| LeaveRoutes.Span | backend/server.py:613-615 | a request's span is its end day minus its start day plus one, unclamped, and is a 500 exactly when a date does not parse |
| LeaveRoutes.UsedDaysFails | backend/server.py:609-615 | summing the approved spans fails exactly when some request's dates do not parse |
| LeaveRoutes.UsedDaysReference | backend/server.py:601-615 | below the cap, a policy's used days are the sum over all stored requests in which only approved requests of that employee and policy contribute their span and all others contribute 0 |
| LeaveRoutes.BalanceOf | backend/server.py:617-623 | a policy's balance names the policy, totals its yearly days, uses the approved spans, and used + remaining = total, with no clamping |
| LeaveRoutes.BalancesFor | backend/server.py:599-623 | there is exactly one balance per policy, in policy order, unless some span fails |
| LeaveRoutes.LeaveBalances | backend/server.py:589-625 | balances are for employees only (403 otherwise) with a profile (404 otherwise), over the first thousand policies |
| LeaveRoutes.ApplyingKeepsBalances | backend/server.py:603-607 | filing a leave request never changes any balance, since a new request is pending |
| LeaveRoutes.SameApprovedSameBalance | backend/server.py:603-623 | a policy's balance depends only on the approved requests of the employee and policy |
| Strptime.ParseYmd | backend/server.py:613 | every date the server accepts is a real calendar day of year 1 or later (texts in ASCII digits) |
| Strptime.StrptimeAcceptsIso | backend/server.py:613 | every strict `YYYY-MM-DD` day from year 1 on is read by the server as the same day |
| Strptime.StrptimeIsoRoundTrip | backend/server.py:614 | the text of a day reads back as that day on the server |
| Strptime.StrptimeSingleDigits | backend/server.py:613 | the server also accepts single-digit months and days, which the browser's strict form does not |
| Strptime.StrptimeTrailingText | backend/server.py:613 | text after the day is refused |
| Strptime.StrptimeYearZero | backend/server.py:613 | year 0 is a calendar day for the browser but is refused by the server |
| CivilDate.NextDayNumber | frontend/src/components/employee/LeaveSection.js:134 | stepping to the next date adds exactly one to the day number |
| CivilDate.WeekdayNext | frontend/src/components/employee/LeaveSection.js:122 | the weekday advances by one, modulo seven, with each step |
| CivilDate.Weekdays2026 | frontend/src/components/employee/LeaveSection.js:93 | the weekday numbering agrees with the calendar: 1 January 2026 is a Thursday and 3 January 2026 a Saturday |
| CivilDate.DayNumberOrder | frontend/src/components/employee/LeaveSection.js:120 | comparing day numbers is comparing (year, month, day) |
| CivilDate.IsoRoundTrip | frontend/src/components/employee/LeaveSection.js:121 | the `YYYY-MM-DD` text of a day parses back to that day |
| CivilDate.ParseIsoExact | frontend/src/components/employee/LeaveSection.js:115-116 | a text that parses is exactly the text of the day it denotes |
| CivilDate.IsoOrder | frontend/src/components/employee/LeaveSection.js:291 | comparing the texts of two days as strings is comparing the days |
| LeaveSection.DayName | frontend/src/components/employee/LeaveSection.js:252 | a day has a day name exactly when it is a Saturday or a Sunday |
| LeaveSection.HolidayName | frontend/src/components/employee/LeaveSection.js:105-109 | the name is that of the first holiday with exactly that date text, and there is none for an empty text or a date no holiday has |
| LeaveSection.IsDateDisabled | frontend/src/components/employee/LeaveSection.js:90-102 | an empty value is never disabled, a weekend day always is, and any other value is disabled exactly when some holiday has that exact date text |
| LeaveSection.DayFlag | frontend/src/components/employee/LeaveSection.js:122-131 | a weekend day is flagged with its day name even if it is a holiday; any other day with its first holiday's name, if any |
| LeaveSection.Walk | frontend/src/components/employee/LeaveSection.js:119-135 | the loop visits one day per step from start to end, the i-th being start + i, and nothing when the end comes first |
| LeaveSection.WalkVisitsEveryDay | frontend/src/components/employee/LeaveSection.js:119-135 | every day from start to end is visited |
| LeaveSection.FlagOf | frontend/src/components/employee/LeaveSection.js:124-131 | a visited day is reported exactly when it has a flag, with that flag as its reason |
| LeaveSection.FlagsFrom | frontend/src/components/employee/LeaveSection.js:119-135 | every reported day lies in the range and carries its own reason |
| LeaveSection.FlagsFromAscending | frontend/src/components/employee/LeaveSection.js:119-135 | reported days are strictly ascending, so no day appears twice |
| LeaveSection.FlagsFromComplete | frontend/src/components/employee/LeaveSection.js:119-135 | every flagged day of the range is reported |
| LeaveSection.ValidateDateRange | frontend/src/components/employee/LeaveSection.js:112-138 | the check is null when either date is empty, and a refusal lists at least one day |
| LeaveSection.ValidateDateRangeNullIff | frontend/src/components/employee/LeaveSection.js:119-137 | the check passes exactly when no day of the range is a weekend day or a holiday |
| LeaveSection.ValidateDateRangeReport | frontend/src/components/employee/LeaveSection.js:119-137 | a refusal lists only days of the range, each with its reason, strictly ascending |
| LeaveSection.ReversedRangeIsNull | frontend/src/components/employee/LeaveSection.js:120 | an end date before the start date runs no loop and passes |
| LeaveSection.WeekendHolidayLabel | frontend/src/components/employee/LeaveSection.js:124-131 | a holiday on a weekend is reported by its day name, not its holiday name |
| LeaveSection.ApplyLeave | frontend/src/components/employee/LeaveSection.js:140-150 | the form is posted whole exactly when the range check passes |
| LeaveSection.NoPostWithRejectedDay | frontend/src/components/employee/LeaveSection.js:144-148 | a weekend day or holiday anywhere in the range means no request is sent |
| LeaveSection.ApplySettled | frontend/src/components/employee/LeaveSection.js:151-158 | success clears the form and closes the dialog; failure leaves both |
| LeaveSection.OnStartDateChange | frontend/src/components/employee/LeaveSection.js:247-258 | a disabled start day is refused and clears the field; any other value is stored; no other field changes |
| LeaveSection.OnEndDateChange | frontend/src/components/employee/LeaveSection.js:278-298 | an end day is cleared when it is disabled or its text sorts before a chosen start, and stored otherwise; no other field changes |
| LeaveSection.EndBeforeStartRefused | frontend/src/components/employee/LeaveSection.js:291-295 | on real dates, an allowed end day is cleared for ordering exactly when it is before the start day |
| TemplatePreview.KeyMatch | frontend/src/components/admin/PrintFormatManagement.js:212 | a placeholder match starts with `{{` and consumes text |
| TemplatePreview.FilterMatch | frontend/src/components/admin/PrintFormatManagement.js:217 | a filter match starts with `{{`, consumes text and captures a `\w+` name |
| TemplatePreview.Lookup | frontend/src/components/admin/PrintFormatManagement.js:218 | a sample field is found exactly when some entry has the name, and the value is that of an entry with the name |
| TemplatePreview.Amount | frontend/src/components/admin/PrintFormatManagement.js:217-220 | the filter prints "₹" and two decimals when the field is a number or missing or empty (as 0), and throws "value.toFixed is not a function" for a text field |
| TemplatePreview.ApplyFilters | frontend/src/components/admin/PrintFormatManagement.js:217-220 | the only error the filter pass raises is the missing `toFixed` |
| TemplatePreview.GeneratePreview | frontend/src/components/admin/PrintFormatManagement.js:201-227 | a blank template clears preview and error; otherwise either the error is empty and the preview is the two passes' result, or the preview is empty and the error names the failure |
| TemplatePreview.PlaceholderMatch | frontend/src/components/admin/PrintFormatManagement.js:212 | a `{{ key }}` placeholder with any white space matches its key as a whole |
| TemplatePreview.PlaceholderNoMatch | frontend/src/components/admin/PrintFormatManagement.js:212 | a placeholder never matches another key, even one that is its prefix |
| TemplatePreview.FormattedMatch | frontend/src/components/admin/PrintFormatManagement.js:217 | an amount filter with any white space matches as a whole and captures its field name |
| TemplatePreview.FormattedNoKey | frontend/src/components/admin/PrintFormatManagement.js:212 | no key pass touches an amount filter |
| TemplatePreview.PlaceholderNoFilter | frontend/src/components/admin/PrintFormatManagement.js:217 | the filter pass does not touch a placeholder |
| TemplatePreview.SegmentKey | frontend/src/components/admin/PrintFormatManagement.js:211-214 | one key pass replaces a well-formed piece as a whole or copies it, independently of what follows |
| TemplatePreview.SegmentFilters | frontend/src/components/admin/PrintFormatManagement.js:217-220 | the filter pass handles a well-formed piece as a whole, independently of what follows |
| TemplatePreview.RenderKey | frontend/src/components/admin/PrintFormatManagement.js:211-214 | a key pass over a template of well-formed pieces fills exactly the placeholders of that key, globally |
| TemplatePreview.RenderFilters | frontend/src/components/admin/PrintFormatManagement.js:217-220 | the filter pass over well-formed pieces computes each filter in order and stops at the first that throws |
| TemplatePreview.RenderKeyPasses | frontend/src/components/admin/PrintFormatManagement.js:211-214 | the ten key passes together fill every placeholder of a sample field with its value's text and leave other placeholders as written |
| TemplatePreview.ResolveThenScan | frontend/src/components/admin/PrintFormatManagement.js:210-220 | filling the placeholders and then scanning the filters gives the piece-by-piece reference reading |
| TemplatePreview.PreviewOfPieces | frontend/src/components/admin/PrintFormatManagement.js:201-227 | the preview of any template made of well-formed pieces is the reference reading: each placeholder of a sample field as its value, unknown placeholders and text unchanged, each filter as its amount, or the first filter's error with an empty preview |
| TemplatePreview.InertPreview | frontend/src/components/admin/PrintFormatManagement.js:210-222 | a template without `{{` previews as itself |
| TemplatePreview.UnknownKeyKept | frontend/src/components/admin/PrintFormatManagement.js:210-214 | a placeholder of a name outside the sample data stays as written |
| TemplatePreview.BasicSalaryAmount | frontend/src/components/admin/PrintFormatManagement.js:173 | the sample basic salary prints as "₹50000.00" |
| TemplatePreview.DoubledRupee | frontend/src/components/admin/PrintFormatManagement.js:144 | the default template's salary cell previews with "₹" twice |
| TemplatePreview.NameAmountFails | frontend/src/components/admin/PrintFormatManagement.js:169 | formatting the sample employee name as an amount throws |
| TemplatePreview.TextFieldFilterFails | frontend/src/components/admin/PrintFormatManagement.js:224-226 | a filter on a text field empties the preview and shows the error text |
| PrintFormatForm.BlankForm | frontend/src/components/admin/PrintFormatManagement.js:190-194 | the blank form has no name, the default template and is not the default format |
| PrintFormatForm.Initial | frontend/src/components/admin/PrintFormatManagement.js:184-194 | the editor opens with the blank form, no format being edited and both dialogs closed |
| PrintFormatForm.CreateRequest | frontend/src/components/admin/PrintFormatManagement.js:252-256 | creating posts the form as it stands to the formats path |
| PrintFormatForm.CreateDone | frontend/src/components/admin/PrintFormatManagement.js:257-262 | a successful create leaves the blank form with the dialog closed; a failed one changes nothing |
| PrintFormatForm.Edit | frontend/src/components/admin/PrintFormatManagement.js:265-273 | editing copies the format's three fields into the form, records the format and opens the edit dialog |
| PrintFormatForm.UpdateRequest | frontend/src/components/admin/PrintFormatManagement.js:275-278 | an update is sent exactly when a format is being edited, to that format's path, with the form |
| PrintFormatForm.UpdateDone | frontend/src/components/admin/PrintFormatManagement.js:279-287 | a successful update leaves the blank form, nothing being edited and the dialog closed; otherwise nothing changes |
| PrintFormatForm.ResetToDefault | frontend/src/components/admin/PrintFormatManagement.js:316-318 | resetting changes only the template, to the default |
| PrintFormatForm.ResetIdempotent | frontend/src/components/admin/PrintFormatManagement.js:316-318 | resetting twice is resetting once |
| PrintFormatForm.ResetBlank | frontend/src/components/admin/PrintFormatManagement.js:316-318 | resetting the blank form changes nothing |
| PrintFormatForm.EditThenUpdate | frontend/src/components/admin/PrintFormatManagement.js:265-277 | editing a format and saving unchanged sends its own fields to its own path |
| PrintFormatForm.UpdateReturnsToStart | frontend/src/components/admin/PrintFormatManagement.js:279-287 | after a successful update the editor is as it started, and a second save sends nothing |
| PrintFormatForm.SavesAgree | frontend/src/components/admin/PrintFormatManagement.js:257 | a successful create and a successful update leave the same blank form |
| Session.StoredText | frontend/src/App.js:28-29 | storing a value keeps its text, and storing a missing value stores "undefined" |
| Session.Restore | frontend/src/App.js:14-24 | start-up restores a user exactly when a token or a refresh token is present and non-empty, a user record is present and non-empty, and it parses; the user is the parsed record; otherwise no one |
| Session.HandleLogin | frontend/src/App.js:26-31 | login sets the user and writes the three keys: the tokens' texts and the user's JSON; no other key changes |
| Session.HandleLogout | frontend/src/App.js:33-38 | logout clears the user and removes the three keys; no other key changes |
| Session.LogoutIdempotent | frontend/src/App.js:33-38 | logging out twice is logging out once |
| Session.LogoutThenRestore | frontend/src/App.js:14-24 | after logout, start-up restores no one |
| Session.LoginThenRestore | frontend/src/App.js:14-31 | after login with some non-empty token, start-up restores the same user |
| Session.MissingRefreshIsTruthy | frontend/src/App.js:29 | a login without refresh token stores "undefined", which counts as present and restores the user |
| Session.Home | frontend/src/App.js:58 | a signed-in user's home is `/admin` exactly for the admin role and `/employee` for every other role |
| Session.Route | frontend/src/App.js:52-95 | the admin area shows the dashboard exactly to admins and the employee area exactly to employees, each redirecting anyone else to `/login`; `/login` shows the form exactly when no one is signed in; `/` and `/login` send a signed-in user home, and `/` sends no one to `/login` |
| Session.RedirectsSettle | frontend/src/App.js:52-95 | for no user or a role the server issues, every route reaches a screen within two redirects: the login page, the admin dashboard or the employee dashboard |
| Session.OtherRoleNeverSettles | frontend/src/App.js:52-81 | a stored user of any other role is redirected forever |
| UserJson.ParseStringify | frontend/src/App.js:21 | the user record `handleLogin` stores parses back to the same user |
| UserJson.EscapedRead | frontend/src/App.js:30 | every string's JSON escaping reads back as that string |
| ApiClient.BackendUrl | frontend/src/lib/api.js:5 | the backend is the variable's value, or the default when unset or empty, with exactly one trailing "/" dropped if there is one |
| ApiClient.ApiUrl | frontend/src/lib/api.js:6 | the API address is the backend followed by "/api" |
| ApiClient.DefaultApiUrl | frontend/src/lib/api.js:5-6 | unset or empty, the variable gives the production backend's API address |
| ApiClient.SingleSlashJoin | frontend/src/lib/api.js:5 | the backend ends without "/" exactly when the base did not end in "//" |
| ApiClient.Decorate | frontend/src/lib/api.js:12-19 | with a non-empty stored token the request gets `Authorization: Bearer` and the token; with none it goes out unchanged; other headers and the rest of the request are never touched |
| ApiClient.LoginAuthorizes | frontend/src/lib/api.js:14-16 | after a login with a non-empty token, requests carry that token |
| ApiClient.LogoutUnauthorizes | frontend/src/lib/api.js:13-18 | after logout, requests go out as built |
| ApiClient.MissingTokenSent | frontend/src/lib/api.js:14-16 | a login without access token makes every request carry "Bearer undefined" |
| LoginForm.Toggle | frontend/src/pages/Login.js:133 | the toggle flips only the mode |
| LoginForm.ToggleTwice | frontend/src/pages/Login.js:133 | toggling twice restores the page |
| LoginForm.Submit | frontend/src/pages/Login.js:19-29 | submitting marks the page busy; sign-in mode posts exactly email and password to `/auth/login`, and register mode posts the whole form to `/auth/register` |
| LoginForm.Finish | frontend/src/pages/Login.js:29-36 | the page is idle afterwards either way, and `onLogin` is called exactly on success, with the reply's user, access token and refresh token |
| LoginForm.SubmitThenFinish | frontend/src/pages/Login.js:19-36 | a full round leaves the page as it was, in its mode and with its form |
| LoginForm.ServerReplySignsIn | frontend/src/pages/Login.js:30 | the server's reply signs the user in, stores the token and "undefined" as refresh token, and survives a restart |
| HolidayForm.Submit | frontend/src/components/admin/HolidayManagement.js:46-60 | nothing happens while a request is in flight; otherwise a date already listed is refused without change, and any other form is posted as is with the screen marked busy |
| HolidayForm.Complete | frontend/src/components/admin/HolidayManagement.js:60-72 | afterwards nothing is in flight; success empties the form and closes the dialog, failure changes nothing else |
| HolidayForm.NoDoubleSubmit | frontend/src/components/admin/HolidayManagement.js:48 | a second press while the first request is in flight sends nothing |
| HolidayForm.DuplicateIgnoresName | frontend/src/components/admin/HolidayManagement.js:51-53 | the duplicate check compares dates only |
| HolidayForm.PostedDateIsNew | frontend/src/components/admin/HolidayManagement.js:51-62 | a posted holiday's date is not already listed |
| HolidayForm.SubmitThenComplete | frontend/src/components/admin/HolidayManagement.js:60-72 | a submitted request leaves the screen idle whatever the outcome, and a failure restores it exactly |
| HolidayForm.Holidays2026 | frontend/src/components/admin/HolidayManagement.js:89-103 | the built-in list has thirteen entries, each the `YYYY-MM-DD` text of its day with its name |
| HolidayForm.Holidays2026Distinct | frontend/src/components/admin/HolidayManagement.js:89-103 | each of the thirteen dates is a real day of 2026, and no two are equal |
| EmployeeScreen.DepartmentName | frontend/src/components/admin/EmployeeManagement.js:133-136 | the department shown is the first with the id, else "N/A" |
| EmployeeScreen.EmployeePolicy | frontend/src/components/admin/EmployeeManagement.js:68-71 | the policy shown is decided by the employee's first assignment: its policy's name when that is present and not empty, none otherwise, and none when no assignment names the employee |
| EmployeeScreen.FirstAssignmentDecides | frontend/src/components/admin/EmployeeManagement.js:69-70 | a first assignment without a policy hides any later one |
| EmployeeScreen.ToPayload | frontend/src/components/admin/EmployeeManagement.js:76-79 | the payload keeps every field, except that an empty manager is sent as null |
| EmployeeScreen.EditForm | frontend/src/components/admin/EmployeeManagement.js:92-98 | editing copies the fields, an absent department or manager becoming empty |
| EmployeeScreen.EditSaveKeepsManager | frontend/src/components/admin/EmployeeManagement.js:105-108 | saving an employee unchanged sends its own manager back, and none stays none |
| EmployeeScreen.ChooseManager | frontend/src/components/admin/EmployeeManagement.js:226 | the manager select changes only the manager, which becomes empty exactly for "none" and the value otherwise |
| EmployeeScreen.NoManagerSendsNull | frontend/src/components/admin/EmployeeManagement.js:322 | choosing "none" sends a null manager |
| EmployeeScreen.ManagerCandidates | frontend/src/components/admin/EmployeeManagement.js:330 | the choices are the listed employees other than the one being edited, and all of them |
| EmployeeScreen.ManagerCandidatesAppend | frontend/src/components/admin/EmployeeManagement.js:330 | the choices keep the list's order and multiplicity: one more employee at the end is one more choice at the end, unless it is being edited |
| EmployeeScreen.CandidatesWithoutEditing | frontend/src/components/admin/EmployeeManagement.js:330 | with no one being edited every employee is a choice, in list order |
| EmployeeScreen.DepartmentCell | frontend/src/components/admin/EmployeeManagement.js:399-402 | a card with a non-empty department id shows the department name looked up for it; otherwise the employee's own department text, or "N/A" when that is absent or empty |
| EmployeeScreen.ServerEmployeeShowsDepartment | frontend/src/components/admin/EmployeeManagement.js:401 | an employee as the server sends it, with a department text and no department id, shows that text, and "N/A" only when it is empty |
| LeaveScreen.EmployeeName | frontend/src/components/admin/LeaveManagement.js:94-97 | the name shown is that of the first employee with the id, else "Unknown" |
| LeaveScreen.PolicyName | frontend/src/components/admin/LeaveManagement.js:99-102 | the name shown is that of the first policy with the id, else "Unknown" |
| LeaveScreen.EmployeeNameOfListed | frontend/src/components/admin/LeaveManagement.js:94-97 | an id no employee has shows "Unknown", and an id shows the earliest employee's name having it |
| LeaveScreen.PolicyNameOfListed | frontend/src/components/admin/LeaveManagement.js:99-102 | an id no policy has shows "Unknown", and an id shows the earliest policy's name having it |
| LeaveScreen.StatusText | backend/server.py:152 | each status has its own JSON text |
| LeaveScreen.StatusColor | frontend/src/components/admin/LeaveManagement.js:115-124 | approved is green, rejected red, and every other text yellow |
| LeaveScreen.StatusIcon | frontend/src/components/admin/LeaveManagement.js:104-113 | approved has a check, rejected a cross, and every other text a clock |
| LeaveScreen.ColorMatchesIcon | frontend/src/components/admin/LeaveManagement.js:104-124 | colour and icon split the statuses the same way |
| LeaveScreen.Actions | frontend/src/components/admin/LeaveManagement.js:282-301 | approve and reject are offered exactly for a pending request |
| LeaveScreen.UpdateRequest | frontend/src/components/admin/LeaveManagement.js:73-75 | a decision patches the request's own path with the chosen status |
| LeaveScreen.DecisionOf | backend/server.py:161-162 | the server accepts exactly "approved" and "rejected", and stores the status it was sent |
| LeaveScreen.ActionsAccepted | frontend/src/components/admin/LeaveManagement.js:285-293 | every offered button sends a status the server accepts and stores as named |
| LeaveScreen.DecidedRequestHasNoActions | frontend/src/components/admin/LeaveManagement.js:282 | once a decision is stored, the card shows that status, not in yellow, with no more buttons |

## Left out

- Storage and concurrency. MongoDB, the async handlers, CORS and logging
  are not modelled. Collections are sequences in insertion order, and each
  route is one atomic step.
- AuthRoutes.Register, AuthRoutes.Login and AuthRoutes.CreateEmployee:
  request bodies are taken as they are after pydantic validation. The
  `EmailStr` normalisation (a lower-cased domain, so "ann@EXAMPLE.COM"
  is a duplicate of "ann@example.com") is not modelled, and neither is the
  422 reply to a malformed email or to a role or status outside its
  `Literal`.
- HrStore.Authenticate: a request with no `Authorization` header is
  refused by `HTTPBearer` itself with "Not authenticated", before
  `get_current_user` runs. The model gives every refused caller 401
  "Could not validate credentials".
- Cryptography. bcrypt and JWT are not modelled. Password checking is a
  `verify` parameter. Token decoding is the `subject` input, whose `None`
  covers an invalid, expired or subject-less token. The signed token is its
  claims.
- Nondeterminism. `uuid4`, `datetime.now`, `new Date()` and `toLocaleDateString`
  are parameters: `newId`, `now`, `uuidText`, and `today` for the preview's
  generated date.
- Payslip PDF layout. ReportLab's layout is not modelled. The download
  stops at the payslip, its employee and the attachment name.
- Floating point. Money is an exact `real` and day counts are unbounded
  integers. The binary floating-point rounding of the server's
  `basic_salary + allowances - deductions` is not modelled. `toFixed(2)`
  and `"%.2f"` are modelled only for whole numbers, which is what the
  sample data holds. `parseFloat` and `parseInt` in the forms are not
  modelled.
- Strptime.ParseYmd: only ASCII digits are read. Python's `\d` in a
  `str` pattern matches every Unicode decimal digit, and `int()` reads
  them, so the server accepts a date such as "٢٠٢٦-01-05" that the model
  refuses. `LeaveRoutes.Span` therefore gives a 500 for such a date where
  the server computes a day count.
- Time zones. `new Date('YYYY-MM-DD')` is read in UTC while `getDay` uses
  local time. The model reads every date as a plain civil day.
- CivilDate.ParseIso: the browser's `new Date` also accepts non-ISO
  layouts. The model parses only strict `YYYY-MM-DD` texts of years
  0-9999. Any other text counts as no date: never a weekend, still checked
  against the holiday list.
- LeaveRoutes.UsedDays: its own contract states only that failures are
  500s. Its meaning is proved separately:
  - by `UsedDaysFails`;
  - by `UsedDaysReference`, which holds only below the 1000-document cap.
- LeaveRoutes.AdminSeesAll, LeaveRoutes.CreatedRequestListed and
  PayrollRoutes.EmployeePayslipsComplete: completeness is stated only
  below the 1000-document cap.
- TemplatePreview.GeneratePreview: its own contract states only the blank
  case and the success/error split. The full reading is
  `PreviewOfPieces`, which covers templates written as well-formed pieces:
  - plain text containing no `{{`;
  - `{{ key }}` placeholders;
  - `{{ "%.2f"|format(name) }}` filters.

  Templates where a match would straddle a piece boundary, or where a
  sample value introduces `{{`, are not covered.
- TemplatePreview.ExpectSpec and Text.Less: strings are sequences of
  Unicode code points, while JavaScript strings are UTF-16 code units. So
  the unescaped `.` in the filter pattern matches any one code point
  here, where the browser matches one code unit and leaves a filter with
  an astral character in its format text as it is. `Less` is code-point
  order, which is Python's `<`; JavaScript's `<` orders code units and
  differs only for characters outside the Basic Multilingual Plane.
- Replacement patterns. The `$&` and `$1` patterns of `String.replace`
  are not modelled: none of the sample values contains `$`.
- UserJson: `JSON.parse` is modelled only for the layout `JSON.stringify`
  writes for the user record. Other stored texts are not modelled: the
  model reads them as the `Unreadable` start-up, which is not what the
  browser does for, say, `null` or the same keys in another order.
- Session: the app's `loading` flag, the `Loading...` screen and the
  import of a logout helper are not modelled.
- Token refresh. The code has no token refresh: the interceptor only adds
  the bearer header, and the server has no refresh route.
- Rendering and side effects. React rendering, toasts, `window.confirm`,
  the refetches after each change, the preview's 500 ms debounce and blob
  downloads are not modelled.
- The print-format editor's default template. Its HTML is the `default`
  parameter. Only its salary cell is written out, in `DoubledRupee`.
- Other routes and screens. The remaining CRUD routes are not modelled:
  departments, payroll structures, leave policies, holidays, print formats
  and employee updates and deletes. Neither are the payroll screen, the
  employee payslip screen, the department screen and the admin dashboard:
  they only fetch and display. The stale integration test script is not
  modelled either.
- Field-name mismatches between the two sides (for example `leave_type`
  in the leave dialog against `leave_policy_id` on the server) are
  modelled on each side as written. The two sides are not joined.
