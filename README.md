# Leave management: a verified model of the approval rules and record handlers

The application keeps three tables: Employee, Leave and Replacement. An
employee asks for leave on a batch of dates and names one colleague as
replacement. For every date, in order, the request handler (`request_leave`)
runs four checks and stops at the first that fails:

1. capacity: the leaves already on the date must be under 33% of the staff;
2. the replacement must not be on leave that day;
3. the replacement must not already be covering for the requester that day;
4. the replacement must not already be covering for anyone that day.

An approved date adds one Leave row and one Replacement row. The answer lists
the approved and the declined date strings. Admin handlers add, rename and
delete employees (deleting one cascades over its leaves and replacements).
They also move a leave to another date, carrying its replacement along, and
delete a leave together with its replacements. Read-only views list the
schedule in date order and feed the calendar.

The model has seven modules:

- `Records` (records.dfy): the rows and tables as values, plus the lookups
  the handlers make (`query.get`, `get_or_404`, `filter_by(...).first()`).
- `Approval` (approval.dfy): the per-date decision, a batch as a left fold
  that threads the tables through the dates, and the whole request with its
  failure cases.
- `Admin` (admin.dfy): the effect of every admin mutation, as a function on
  the tables.
- `Pairing` (pairing.dfy): the invariant that for every employee and day
  there are no more replacements covering for the employee than the employee
  has leaves. It proves that every handler preserves it.
- `Reports` (reports.dfy): the schedule, the leave feed and the replacement
  list.
- `LeaveStore` (store.dfy): the database as a class `Store` whose sequence
  fields the handlers update in place. Each handler is a method proved
  against the function that specifies it. The class invariant `Valid` is
  "keys increase, and the tables are paired".
- `Seqs` (seqs.dfy): generic helpers for filtering, splitting by flags and
  next keys.

Modelling choices:

- Tables are sequences in rowid order.
- A new row gets SQLite's next rowid: the largest key plus one, or 1 in an
  empty table.
- Dates are integers, so a later day is a larger number.
- `datetime.strptime` is a parameter `parse: string -> Option<Date>`; None
  means it raised.
- `int(replacement_employee_id)` is an `Option<Id>` input; None means the
  conversion raised.
- An exception before `db.session.commit()` leaves the store as it was.
- The admin session flag is a boolean parameter.
- Rows added inside the request loop are visible to the queries of later
  iterations (autoflush). The model therefore decides each date against the
  tables as they stand after the earlier dates of the same batch.
- The float comparison `leaves / staff < 0.33` is written as
  `100 * leaves < 33 * staff`.

Two consequences of the code that the model keeps:

- `request_leave` does not check that either employee exists. It looks
  both up (app.py:77-78) but never uses the results, so a Leave can refer
  to a missing employee. `edit_leave` then raises at `employee.id`
  (app.py:271). `leave_schedule` and `edit_leaves` raise at `employee.id`
  too (app.py:166, app.py:243), or at the replacement's `.name` (app.py:169, app.py:246);
  `get_leaves` and `get_replacements` raise at `.name` (app.py:142,
  app.py:153-154). The model returns `Failed(MissingEmployee)` or
  `Err(MissingEmployee)` in those cases.
- With three staff, one approved leave already fails the capacity check
  (1/3 is at least 0.33), which runs first, so every later request for that
  day is declined for capacity, whoever asks and whoever replaces.
  `ScenarioThreeStaff` proves this.
  `ScenarioFourStaff` shows the double-booking decline with four staff, and
  shows that the reverse request is declined because the replacement is on
  leave. `RepeatOfFirstApproval` states the general case: with three staff
  or fewer the repeat is over capacity; otherwise it is declined because
  the replacement is on leave (when requester and replacement are the same
  employee) or double-booked.
- More generally, `MutualCheckShadowed` and `BatchNeverMutual` prove that
  the mutual-replacement check (app.py:97-107) never decides a date on
  tables reachable through the handlers. A replacement covering for the
  requester is itself on leave that day, so check 2 has already declined.

## Model

| member | source | states |
|---|---|---|
| Records.EmployeeAt | app.py:77-78 | `Employee.query.get`: the position of the row with that key, and None exactly when no row has it |
| Records.FindEmployee | app.py:150-151 | the employee found has the requested key and is in the table; None exactly when no row has the key |
| Records.LeaveAt | app.py:262 | `Leave.query.get_or_404`: the position of the leave with that key, and None (the 404) exactly when there is none |
| Records.FirstCover | app.py:271 | `filter_by(employee_on_leave_id, date).first()`: the lowest-positioned matching Replacement row, no earlier row matches, and None exactly when no row matches |
| Records.EmployeeAtUnique | app.py:19 | with increasing primary keys, a key lookup finds exactly the row holding that key |
| Records.LeaveAtUnique | app.py:24 | the same for Leave rows |
| Seqs.NextKey | app.py:59-61 | the key a new row receives is larger than every key already in the table |
| Approval.Quota | app.py:44 | the quota is the least leave count that is not under 33% of the staff |
| Approval.WithinLimit | app.py:39-44 | the capacity check always passes with no employees |
| Approval.QuotaMeaning | app.py:39-44 | with staff, the check passes exactly while the date holds fewer leaves than the quota |
| Approval.LeavesOn | app.py:41 | the number of leaves on a date never exceeds the number of Leave rows |
| Approval.LeavesOnCount | app.py:41 | that number is the size of `Leave.query.filter_by(date=d)` |
| Approval.OnLeaveQuery | app.py:92-93 | the replacement-on-leave check holds exactly when `filter_by(employee_id, date)` finds a row |
| Approval.CoversQuery | app.py:98-105 | the mutual-replacement check holds exactly when the query for Replacement(replacement -> requester, date) finds a row |
| Approval.BookedQuery | app.py:110-116 | the double-booking check holds exactly when the query for a Replacement by the replacement on that date finds a row |
| Approval.Decide | app.py:86-118 | a date is approved exactly when it passes the capacity check and none of the three conflict checks holds |
| Approval.DecideFirstFailure | app.py:86-118 | a declined date is declined by the first failing check in source order (capacity, replacement on leave, mutual replacement, double-booking), each verdict exactly when its check fails and every earlier one passed |
| Approval.Admit | app.py:120-128 | an approval leaves the Employee table alone, keeps the old leaves and replacements as prefixes, and appends exactly one Leave(e, d) and one Replacement(e -> r, d), each under the next key of its table (larger than every existing key, by `NextKey`); keys stay increasing |
| Approval.Step | app.py:86-129 | one iteration appends exactly one flag, true iff every check passed, and never touches the Employee table |
| Approval.Evaluate | app.py:83-129 | the loop yields one decision per date, keeps keys increasing and leaves the Employee table untouched |
| Approval.ParseAll | app.py:84 | parsing succeeds iff every date string parses, and then yields each string's date in order |
| Approval.RunBatch | app.py:71-137 | the request fails iff the replacement id or some date string is malformed (MalformedId first, otherwise MalformedDate); on success, approved and declined together are exactly the input strings (lengths and multisets) |
| Approval.CapacityCap | app.py:39-44 | after a batch a date holds no more leaves than before or than the quota, whichever is larger |
| Approval.EvaluateAppends | app.py:120-129 | a batch only appends: old rows stay, and each approved date in order adds Leave(e, d) and Replacement(e -> r, d) |
| Approval.EvaluatePrefix | app.py:83 | the first m decisions depend only on the first m dates |
| Approval.DecidedInOrder | app.py:83-129 | each date is decided against the tables holding the approvals of the earlier dates of the batch |
| Approval.StillThere | app.py:83-129 | rows present before the batch are still present when any later date is decided |
| Approval.ReplacementOnLeaveDeclines | app.py:91-95 | a date is declined when the replacement already has a Leave on it |
| Approval.MutualReplacementDeclines | app.py:97-107 | a date is declined when Replacement(replacement -> requester, date) exists |
| Approval.ReplacementBookedDeclines | app.py:109-118 | a date is declined when the replacement already covers for anyone on it |
| Approval.RepeatedDateDeclined | app.py:109-128 | once a date is approved in a batch, a repeat of that date later in the same batch is declined |
| Approval.AnswerPlacement | app.py:83-135 | string k of a committed request is answered in `approved` when its date was approved and in `declined` otherwise, at the position counting the earlier strings with the same outcome; each list has one entry per string with its outcome |
| Approval.AnswerOrder | app.py:83-135 | of two strings with the same outcome, the earlier is answered earlier in its list: both lists keep request order |
| Approval.BatchAddsRows | app.py:120-131 | a committed request adds exactly one Leave(e, d) and one Replacement(e -> r, d) per approved string, in the order of the approved list, and nothing else |
| Approval.FirstApproval | app.py:86-128 | on tables with staff and no leave or replacement yet, a one-date request is approved and writes Leave 1 and Replacement 1 |
| Approval.RepeatOfFirstApproval | app.py:86-118 | repeating that request for the same day is declined: over capacity with three staff or fewer, otherwise as replacement on leave when requester and replacement coincide, otherwise as double-booking |
| Approval.FirstBatchRepeat | app.py:83-128 | a first batch naming the same day twice approves the first and declines the repeat, also when the requester is their own replacement |
| Approval.ScenarioThreeStaff | app.py:86-89 | with three staff, after one approval on a day every later request for that day, by any requester with any replacement, is declined as over capacity |
| Approval.ScenarioFourStaff | app.py:91-118 | with four staff, a second request using the same replacement is declined as double-booking, and the reverse pairing is declined because the replacement is on leave |
| Approval.ScenarioTenStaff | app.py:39-44 | with ten staff and three on leave, a fourth leave is approved and a fifth is declined |
| Admin.Hire | app.py:56-61 | adding an employee appends one row with the given name under a key no existing row has; leaves and replacements are unchanged |
| Admin.HireThenFind | app.py:59-61 | looking the new key up finds the new employee under the given name |
| Admin.Rename | app.py:213-216 | the target row keeps its key and takes the new name; every other row is unchanged and no row changes its key |
| Admin.RenameThenFind | app.py:213-216 | after a rename the key finds the new name |
| Admin.Dismiss | app.py:224-230 | delete_employee keeps exactly the employees, leaves and replacements that do not refer to the id, and keeps keys increasing |
| Admin.DismissIsComplete | app.py:226-230 | after the cascade no row refers to the employee, and a second cascade changes nothing |
| Admin.DismissRemovesOneEmployee | app.py:229 | deleting an existing employee removes exactly one Employee row |
| Admin.MoveLeave | app.py:268-274 | edit_leave moves the leave to the new date and moves the first Replacement matching (employee, old date), if any; every other row and every key stays |
| Admin.DropLeave | app.py:284-285 | delete_leave keeps every leave but the target and every replacement except those for its employee on its date |
| Admin.DropLeaveRemovesOne | app.py:285 | with unique keys exactly the target leave row disappears and the others keep their order |
| Pairing.CoverHasLeave | app.py:120-128 | on paired tables every Replacement row has a Leave row of the covered employee on its date |
| Pairing.MutualCheckShadowed | app.py:91-107 | on paired tables the mutual-replacement check never decides a date |
| Pairing.BatchNeverMutual | app.py:83-118 | no date of a request on paired tables is decided by the mutual-replacement check |
| Pairing.PairedEmpty | app.py:35-36 | empty tables are paired |
| Pairing.AdmitPaired | app.py:120-128 | an approval keeps the tables paired |
| Pairing.EvaluatePaired | app.py:83-129 | a batch keeps the tables paired |
| Pairing.BatchPaired | app.py:71-137 | a committed request keeps the tables paired |
| Pairing.MovePaired | app.py:268-274 | editing a leave keeps the tables paired |
| Pairing.DropPaired | app.py:284-286 | deleting a leave keeps the tables paired |
| Pairing.DismissPaired | app.py:226-230 | deleting an employee keeps the tables paired |
| Reports.Traverse | app.py:164-176 | a view succeeds iff every row's line can be built, and then has one line per row in row order |
| Reports.SortByDate | app.py:161 | `order_by(Leave.date)`: the result is sorted by date and is a permutation of the leaves |
| Reports.EntryFor | app.py:165-176 | a schedule line carries the leave's id and date and its employee's name; the replacement name is "No Replacement" when no Replacement row matches, otherwise the name of the employee on the first matching row; it fails iff one of those employees is missing |
| Reports.Schedule | app.py:160-178 | leave_schedule (and edit_leaves, app.py:238-254): one line per leave, in date order, each the line of some leave and every leave's line present; it fails iff some leave's line fails |
| Reports.LeaveItem | app.py:142 | a calendar event exists exactly when the leave's employee exists; it starts on the leave's date and is titled with that employee's name |
| Reports.LeaveFeed | app.py:140-143 | get_leaves: one event per leave in table order, with the leave's date and its employee's name; it fails iff some leave's employee is missing |
| Reports.CoverRow | app.py:150-156 | a row exists exactly when both employees exist; it carries the Replacement's date, the name of the employee on leave and the name of the replacement |
| Reports.CoverFeed | app.py:146-157 | get_replacements: one row per Replacement in table order, with its date and both employees' names; it fails iff an employee is missing |
| LeaveStore.Store.constructor | app.py:35-36 | the store starts with three empty tables and satisfies its invariant |
| LeaveStore.Store.RequestLeave | app.py:71-137 | the loop leaves the store equal to the batch's result and answers its approved/declined partition; on a malformed id or date it answers the failure and the store is unchanged; the invariant is kept |
| LeaveStore.Store.AddEmployee | app.py:53-62 | without admin: LoginRequired and no change; empty name: no change; otherwise the store becomes `Hire` of the old store |
| LeaveStore.Store.EditEmployee | app.py:208-218 | without admin: LoginRequired; unknown id: NotFound; empty name: no change; otherwise `Rename` of the old store |
| LeaveStore.Store.DeleteEmployee | app.py:221-231 | without admin: LoginRequired; unknown id: NotFound; otherwise the store becomes `Dismiss` of the old store |
| LeaveStore.Store.EditLeave | app.py:259-275 | checks in source order (login, 404, date parse, missing employee), failing with no change; otherwise the store becomes `MoveLeave` of the old store |
| LeaveStore.Store.DeleteLeave | app.py:279-287 | without admin: LoginRequired; unknown id: NotFound; otherwise the store becomes `DropLeave` of the old store |

## Left out

- HTTP plumbing is not modelled: Flask routing, `render_template`, `jsonify`, redirects and JSON decoding. A missing JSON key or form field raises in the source; the model takes the fields as given.
- The GET forms of `edit_employee` and `edit_leave` only render a page, and are left out.
- `index`, `calendar` and `edit_employees` only list rows, and are left out.
- Admin login and logout (app.py:181-197) are left out, including the credential comparison and the session cookie. The session flag is a boolean parameter of each admin method.
- `datetime.strptime` and `strftime` are library calls and are left out. Parsing is a function parameter, and views show dates as day numbers rather than `YYYY-MM-DD` strings.
- Approval.WithinLimit: the source compares a float quotient with 0.33. The model uses exact integer cross-multiplication, which agrees with the float comparison for realistic staff sizes but not for sizes near the limit of double precision.
- Records.FirstCover: `filter_by(...).first()` has no ORDER BY, so SQL leaves the row it returns unspecified. The model takes the lowest row in table order (SQLite's plain table scan). This choice decides which Replacement `MoveLeave` moves and which replacement name `EntryFor` shows when several rows match (a second approved request by the same employee for the same day, with another replacement, creates such a pair).
- Reports.SortByDate: SQLite does not specify the order of leaves on the same date. The model sorts stably by table order, and its contract promises only date order and a permutation.
- Concurrency is not modelled. Two requests racing between the checks and the commit have undefined behaviour in the source.
- The SQLAlchemy session, engine and the SQLite file are not modelled. The store is a set of in-memory sequences, and a single commit means all or nothing.
- The front end (static/js/scripts.js) is not part of this model.
