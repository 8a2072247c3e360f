# Kawach complaint backend in Dafny

This project models the core of `api.php`, the backend of the Kawach
civic/pilgrimage complaint system.

- **Pilgrims** register and log in, then file location-tagged complaints.
- **Officials** read a dashboard of open complaints and assign them to workers.
- **Workers** list the tasks assigned to them and mark them completed, with notes and a photo.

The `users` and `complaints` tables form a `Store`. The `Store` is two
sequences of rows in insertion order, and a row's position stands for its
`created_at`. Every handler is a pure function from the store and the
request fields to a reply and the store it leaves behind. A request field
is an `Option<string>`: `None` is a missing key or a JSON `null`, so PHP's
`??` is modelled exactly. PHP's `empty()` on a string is true for `""` and
for `"0"`.

Modules, one per component:

- `Php` (php.dfy): `??`, `empty()`, int-to-decimal conversion, and `str_pad(..., STR_PAD_LEFT)`, with round-trip lemmas.
- `Seqs` (seqs.dfy): `COUNT(*)`, `SELECT ... WHERE` in table order, `ORDER BY created_at DESC` (as reversal), and PDO's first-row `fetch()`.
- `Schema` (schema.dfy): the rows, the lifecycle statuses, the error kinds and the `Step` result.
- `Identity` (identity.dfy): `handle_register_pilgrim` and `handle_login`.
- `Lifecycle` (lifecycle.dfy): `handle_file_complaint`, `handle_assign_task` and `handle_complete_task`. Both transitions are one guarded `UPDATE` (`GuardedUpdate`). `rowCount() > 0` means at least one row matched.
- `Queries` (queries.dfy): `handle_get_pilgrim_status`, `handle_get_official_dashboard` and `handle_get_worker_tasks`.
- `Invariants` (invariants.dfy): stores built by handler calls (`Run`). It proves that identifiers stay fresh and distinct, that phones stay unique, that statuses never move backwards, and that a transition touches only its target.
- `Scenarios` (scenarios.dfy): end-to-end behaviours. Examples are C001, C002, C003, a duplicate phone, repeated transitions and a wrong password.

Some behaviours of `api.php` are easy to miss. The model follows the code on each:

- The duplicate-phone check at registration covers users of every role, not only pilgrims (api.php:83).
- A successful login reports the requested role, the user id, and the phone number for pilgrims. The user's name is not reported (api.php:130).
- The login phone comes from the row for pilgrims. It is `null` for other roles, because their query does not select the column.
- `"0"` counts as a missing field everywhere `empty()` is used.
- The photo path is computed with `??`. A `photo_filename` of `""` gives `"uploads/"`. Only a missing one gives `"uploads/default_proof.jpg"`.
- A missing complaint and a complaint in the wrong state give the same `NotFoundError`. The failed guarded update leaves the table unchanged.

## Model

| member | source | states |
|---|---|---|
| Php.DecimalRoundTrip | api.php:93-94 | The decimal text PHP makes of a counter reads back as that counter. |
| Php.DecimalInjective | api.php:93-94 | Two counters have the same decimal text exactly when they are equal. |
| Php.PadLeft | api.php:152 | `str_pad` left-fills to the width and never truncates. The result has length max(width, input length), ends with the input, and every added character is the pad. |
| Php.PadDecimalRoundTrip | api.php:152 | A zero-padded counter still consists of digits and still reads back as the counter. |
| Seqs.Count | api.php:92 | `COUNT(*) ... WHERE p` never exceeds the table size. It is zero exactly when no row satisfies p. |
| Seqs.Select | api.php:190 | A `SELECT ... WHERE p` result has one entry per matching row. Every matching row's projection is in it, and every entry is the projection of some matching row. |
| Seqs.SelectMultiplicity | api.php:190 | A selection holds each value exactly as many times as there are matching rows that project to it, so the result is the matching rows' views and nothing else, with multiplicity. |
| Seqs.SelectAppend | api.php:190 | Selection keeps table order: over older rows followed by newer rows, the older rows' results come first. |
| Seqs.Reverse | api.php:176 | `ORDER BY created_at DESC` over an insertion-ordered table puts the newest row first, and position i holds row n-1-i. |
| Seqs.Find | api.php:126 | `fetch()` returns the first matching row: it matches, no earlier row does, and it is absent only when no row matches. |
| Identity.PilgrimIdRoundTrip | api.php:92-94 | The digits after "P-" in a new pilgrim id read back as 101 plus the number of pilgrims already registered. |
| Identity.PilgrimIdInjective | api.php:92-94 | Pilgrim ids are equal exactly when the pilgrim counts they were made from are equal. |
| Identity.RegisterPilgrim | api.php:72-103 | An empty name, phone or password gives ValidationError. A phone held by any user gives ConflictError. In both cases the store is unchanged. Otherwise the reply is the phone and exactly one pilgrim is appended, with the given name, phone and verbatim password and the id for the current pilgrim count. The pilgrim count goes up by one and complaints are untouched. |
| Identity.Login | api.php:112-134 | Success exactly when the first row matching the key carries the supplied password. The key is phone plus pilgrim role for role "pilgrim", and user id plus role otherwise. The reply holds the requested role, the id of that first matching row, and the phone for pilgrims. Every failure is AuthError. |
| Lifecycle.ComplaintIdWidth | api.php:149-152 | Below 1000 the complaint id is four characters. From 1000 on it holds every digit of the counter and is longer than four characters. |
| Lifecycle.ComplaintIdRoundTrip | api.php:152 | The characters after "C" are digits that read back as the counter. |
| Lifecycle.ComplaintIdInjective | api.php:152 | Complaint ids are equal exactly when their counters are equal. |
| Lifecycle.FileComplaint | api.php:138-158 | An empty qr_code or description gives ValidationError with the store unchanged, and only those inputs fail. Otherwise exactly one complaint is appended with id C+pad3(n+1), where n is the previous complaint count. It has the given location, description and contact, status Pending, no worker and no photo, and the reply is its id. Users are untouched. |
| Lifecycle.AssignTask | api.php:205-224 | An empty complaint or worker id gives ValidationError. Otherwise success holds exactly when some complaint has that id and status Pending, and other failures are NotFoundError. On failure the store is unchanged. On success each such complaint becomes Assigned to the worker, with other fields unchanged. Every other complaint and all users are unchanged. |
| Lifecycle.PhotoUrl | api.php:256 | The photo path starts with "uploads/". It continues with the supplied file name, or with "default_proof.jpg" only when none is supplied. |
| Lifecycle.CompleteTask | api.php:253-274 | An empty complaint id or notes gives ValidationError. Otherwise success holds exactly when some complaint has that id and status Assigned, and other failures are NotFoundError. On failure the store is unchanged. On success each such complaint becomes Completed with the photo path, and its description becomes the old text + "\n\nWorker Notes: " + notes. Id, location, contact and worker are kept. Every other complaint and all users are unchanged. |
| Queries.PilgrimStatus | api.php:166-180 | An empty contact gives ValidationError and nothing else fails. Otherwise the list has one entry per complaint filed with that contact, holding exactly their views. |
| Queries.OfficialDashboard | api.php:190-197 | The complaints are exactly the Pending and Assigned ones, one entry each, so no Completed complaint appears. The workers are exactly the users with role worker. |
| Queries.WorkerTasks | api.php:232-245 | An empty worker id gives ValidationError and nothing else fails. Otherwise the list has one entry per complaint assigned to that worker, holding exactly their views. |
| Queries.DashboardOldestFirst | api.php:190 | The dashboard lists older complaints before newer ones. |
| Queries.PilgrimStatusNewestFirst | api.php:176 | A pilgrim's list shows newer complaints before older ones. |
| Queries.WorkerTasksNewestFirst | api.php:241 | A worker's list shows newer tasks before older ones. |
| Invariants.ComplaintIdsDistinct | api.php:149-152 | In a table filled by filings, no two complaints share an id. |
| Invariants.FreshComplaintId | api.php:149-152 | In a table filled by filings, the id the next filing generates is not yet used. |
| Invariants.FreshPilgrimId | api.php:92-94 | With sequential pilgrim ids and staff outside the "P-" namespace, the id the next registration generates belongs to no user. |
| Invariants.PilgrimNumbersIncrease | api.php:92-94 | Pilgrims named by the registration rule get strictly increasing numbers in registration order. |
| Invariants.RegisterPreservesValid | api.php:82-101 | Registration keeps sequential ids, unique user ids and unique phones. |
| Invariants.FilePreservesValid | api.php:149-156 | Filing keeps complaint ids sequential. |
| Invariants.RunPreservesValid | api.php:71-279 | Every store reached from a valid one by any sequence of register, file, assign and complete calls is valid. |
| Invariants.StatusNeverRegresses | api.php:216 | One handler call deletes and renames no complaint, and moves each status at most one step forward. |
| Invariants.RunNeverRegresses | api.php:266 | Over any sequence of handler calls, complaints keep their ids and no status moves backwards. |
| Invariants.LoginMatchesCredentials | api.php:118-129 | With unique user ids and phones, login succeeds exactly when some row matching the key carries the supplied password. |
| Invariants.AssignTouchesOnlyTarget | api.php:216-219 | In a valid store a successful assignment changes exactly one complaint, the named one, to Assigned with the worker. |
| Invariants.CompleteTouchesOnlyTarget | api.php:266-269 | In a valid store a successful completion changes exactly one complaint, the named one, to Completed. |
| Invariants.FiledComplaintVisible | api.php:155-176 | A complaint filed with a contact heads that contact's status list as Pending and unassigned, ahead of the earlier entries. |
| Scenarios.ComplaintIdExamples | api.php:152 | Counters 1, 2, 3 and 1000 give C001, C002, C003 and C1000. |
| Scenarios.PilgrimIdExample | api.php:93-94 | The first pilgrim is P-101. |
| Scenarios.ThreeFilingsNumbered | api.php:149-158 | Three filings into an empty complaint table reply C001, C002 and C003 in order. |
| Scenarios.DuplicatePhoneConflict | api.php:83-88 | Registering again with an already registered phone gives ConflictError and changes nothing. |
| Scenarios.AssignTwiceNotFound | api.php:216-223 | A second assignment of the same complaint gives NotFoundError and changes nothing. |
| Scenarios.CompleteTwiceNotFound | api.php:266-273 | A second completion of the same complaint gives NotFoundError and changes nothing. |
| Scenarios.FiledIdUnique | api.php:150-156 | In a table filled by filings, the complaint just filed is the only one with its id: any row carrying that id is the appended row, and it is Pending. |
| Scenarios.CompleteBeforeAssignNotFound | api.php:266-273 | In a valid store, completing a complaint that was just filed gives NotFoundError and changes nothing. |
| Scenarios.WrongPasswordRejected | api.php:129-133 | With unique user ids and phones, a matching user with a different password gives AuthError. |
| Scenarios.RegisteredPilgrimCanLogIn | api.php:118-130 | A pilgrim who just registered logs in with that phone and password and gets back the new id and the phone. |

## Left out

- Transport: CORS headers, the PDO connection bootstrap, JSON decoding of `php://input`, and the `action` switch (api.php:3-67). Handlers are called directly. Replies are a `Reply` value instead of HTTP codes and `echo`ed JSON. The message strings are not modelled.
- Datastore failures: every `PDOException` / HTTP 500 path. A failing database is outside the program.
- Key constraints of the tables (primary keys, the worker foreign key). They are not in this source. `Invariants` proves that the generated ids are fresh in valid stores, so a primary-key clash cannot occur there.
- The race between counting rows and inserting (api.php:92, api.php:150). The model is sequential.
- Timestamps and `DATE(created_at)`. Creation time is the row position. Views omit the `date` field, and ties between equal timestamps are not modelled.
- The worker roster has no `ORDER BY`. It is modelled in table order.
- SQL string comparison is modelled as exact equality. MySQL's usual collations ignore case and trailing spaces.
- Request fields that are JSON numbers, booleans or arrays. Fields are modelled as strings or null only.
- `official_id` and `type` are accepted and ignored, as in the source (api.php:141, api.php:207).
- Password hashing: passwords are stored and compared verbatim, as in the source.
- Login is a function of the store that returns only a reply, so it cannot change the store.
