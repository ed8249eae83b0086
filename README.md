# Task data access of rust-task-manager, modelled in Dafny

This project models the data-access core that the gRPC and web services of
rust-task-manager share:

- `TaskRepository`, the repository over the SQLite `tasks` table. It creates
  a task, finds one by id, lists a user's tasks (all of them, or filtered by
  status or by priority) newest first, updates the supplied fields, deletes,
  counts a user's tasks and checks ownership.
- The task and user models. These cover the `TaskStatus` and `TaskPriority`
  enumerations, their snake_case stored names, the derived priority order
  and the defaults. They also cover `Task`, `CreateTask`, `UpdateTask` and
  the password-free `UserResponse`.
- `AppError`, with its classifiers and the message of `TaskNotFound`.

Module layout:

| file | module | what it holds |
|---|---|---|
| wrappers.dfy | Wrappers | `Option` |
| decimal.dfy | Decimal | decimal text of an `i64` and its parser (the `{0}` of an error message) |
| errors.dfy | Errors | `AppError`, `Result`, classifiers, messages |
| task.dfy | TaskModel | status and priority, names, order, defaults, task records |
| user.dfy | UserModel | `User`, `UserResponse` and both conversions |
| update_builder.dfy | UpdateBuilder | the dynamic `UPDATE` statement: the `QueryBuilder` class, the imperative clause builder of `update`, and the rendering it is proved to produce |
| update_effect.dfy | UpdateEffect | what executing that statement does to the row, proved equal to the field-wise patch |
| listing.dfy | TaskListing | the table, the WHERE filters, `ORDER BY created_at DESC` listings and `COUNT(*)` |
| repository.dfy | TaskRepository | the `TaskTable` class: rows plus the next row id, with the repository operations |

The database is a `TaskTable` object. `rows` is a map from primary key to row, and
`nextId` is a bound above every stored id, from which an insert draws an
id that is fresh for the current rows. Queries
are functions that read the object. `create`, `update` and `delete` are
methods that modify it.

- A listing is specified by the `IsListing` predicate: newest first, and the
  same multiset as the matching rows.
- `Select` computes one listing by scanning the rows in id order and
  inserting each match into a newest-first list.
- `update` is modelled in two steps:
  - `BuildUpdate` is the imperative `has_updates` clause builder over a
    `QueryBuilder`. It is proved to produce the rendering of the assignment
    list of the supplied fields, with their bound values followed by the id.
  - `ExecuteSet` is the effect of that assignment list on the stored row,
    with status and priority stored as text and decoded when read back. It
    is proved equal to the field-wise patch `Patched`.

Where the code and its comments disagree, the model follows the code:

- repository.rs:229 says a due date is written "including None to clear
  it". The guard at repository.rs:230 binds `due_date` only when it is
  `Some`, so an update can never clear a due date.
  `UpdateEffect.DueDateNeverCleared` states the consequence.
- task.rs:12 says tasks progress Todo -> InProgress -> Done. `update`
  (repository.rs:210-217) stores any supplied status, so a Done task can
  go back to Todo. The model does not restrict transitions either
  (`UpdateEffect.UpdateStoresSupplied`).
- user.rs:22-24 says `password_hash` should not be serialized, but the
  `#[serde(skip_serializing)]` it shows sits inside the doc comment and is
  never applied, so `User`'s derived `Serialize` still writes the hash.
  Serialization is not modelled; only `UserResponse` (user.rs:66-102),
  which has no hash field, is.

## Model

| member | source | states |
|---|---|---|
| TaskRepository.TaskTable.constructor | shared/src/db/repository.rs:17 | an empty table; `Valid()` holds |
| TaskRepository.TaskTable.Create | shared/src/db/repository.rs:31-50 | inserts one row under a fresh id and changes no other row; the row carries every input field, is stamped `now` for both timestamps, and reads back by id |
| TaskRepository.TaskTable.FindById | shared/src/db/repository.rs:64-77 | Ok exactly when the id is stored, with that row; otherwise `TaskNotFound(id)` |
| TaskRepository.TaskTable.FindByUser | shared/src/db/repository.rs:90-103 | always Ok; the result is a newest-first listing of the user's rows, and a task is listed iff it is a stored row of that user |
| TaskRepository.TaskTable.FindByUserAndStatus | shared/src/db/repository.rs:117-135 | always Ok; a newest-first listing, and a task is listed iff it is a stored row of that user with that status |
| TaskRepository.TaskTable.FindByUserAndPriority | shared/src/db/repository.rs:149-167 | always Ok; a newest-first listing, and a task is listed iff it is a stored row of that user with that priority |
| TaskRepository.TaskTable.Update | shared/src/db/repository.rs:184-254 | a missing id gives `TaskNotFound(id)` and changes nothing; otherwise only that row changes, it becomes the field-wise patch stamped `now`, and the re-read row is returned |
| TaskRepository.TaskTable.Delete | shared/src/db/repository.rs:268-285 | removes exactly the row with that id; fails with `TaskNotFound(id)` iff no row was affected; the id no longer reads back |
| TaskRepository.TaskTable.CountByUser | shared/src/db/repository.rs:298-310 | always Ok; the number of the user's rows, equal to the length of the user's listing |
| TaskRepository.TaskTable.BelongsToUser | shared/src/db/repository.rs:326-339 | always Ok; true iff the task exists and its owner is the user |
| UpdateBuilder.BuildUpdate | shared/src/db/repository.rs:188-247 | the statement text is the rendering of the supplied assignments, and the bind list is their values followed by the id |
| UpdateBuilder.PushIfSupplied | shared/src/db/repository.rs:199-207 | one `if let` block: the builder afterwards holds the clauses pushed so far plus this field's clause exactly when the field is supplied |
| UpdateBuilder.PushAssignment | shared/src/db/repository.rs:201-206 | after one more `column = ?` clause, the builder text is the prefix and the clauses so far joined by `, `, the bind list is their values, and `has_updates` is set |
| UpdateBuilder.FinishUpdate | shared/src/db/repository.rs:239-247 | appends the separator when needed, the `updated_at` touch and `WHERE id = ?`, and binds the id |
| UpdateBuilder.QueryBuilder.constructor | shared/src/db/repository.rs:189 | `QueryBuilder::new`: the text is the initial string and nothing is bound |
| UpdateBuilder.Assignments | shared/src/db/repository.rs:192-237 | definition: the `column = ?` assignments the five `if let` blocks add, in block order, one per supplied field |
| UpdateBuilder.SuppliedValue | shared/src/db/repository.rs:195 | definition: the value each block binds: the title or description text, the stored name of the status or priority, the due date as a timestamp |
| UpdateBuilder.RenderUpdate | shared/src/db/repository.rs:189-247 | definition: `UPDATE tasks SET `, the clauses and the `updated_at` touch joined by `, `, then ` WHERE id = ?` |
| UpdateBuilder.QueryBuilder.Push | shared/src/db/repository.rs:194 | appends text and binds nothing |
| UpdateBuilder.QueryBuilder.PushBind | shared/src/db/repository.rs:195 | appends one placeholder and binds one value |
| UpdateBuilder.AssignedColumns | shared/src/db/repository.rs:192-237 | the assigned columns are the supplied ones, in the order the blocks test them |
| UpdateBuilder.AssignedColumnsOrdered | shared/src/db/repository.rs:192-237 | the assigned columns appear in strictly increasing block order, so none is assigned twice |
| UpdateBuilder.AssignedIffSupplied | shared/src/db/repository.rs:192-237 | a column is assigned iff the update supplies its field |
| UpdateBuilder.NoChangesAssignsNothing | shared/src/db/repository.rs:192-237 | an update with no field assigns no column |
| UpdateBuilder.NoChangesStatement | shared/src/db/repository.rs:239-247 | with no field, the statement is only the prefix, the `updated_at` touch and the WHERE clause, with no leading separator |
| UpdateBuilder.RenderedShape | shared/src/db/repository.rs:189-247 | the statement starts `UPDATE tasks SET ` followed by the first clause, ends with the touch and `WHERE id = ?`, and has exactly one placeholder per bound value |
| UpdateEffect.ExecuteSetIsPatch | shared/src/db/repository.rs:169-176 | executing the SET list always succeeds and leaves the field-wise patch: supplied fields replaced, the rest kept, `updated_at` set |
| UpdateEffect.ExecuteSet | shared/src/db/repository.rs:250 | the execution, as a definition: each assignment stores its value left to right (status and priority as text decoded on read, a due date as a timestamp or NULL), then `updated_at` is set to `now`; a value of a kind `update` never binds to that column is treated as a failure |
| UpdateEffect.Patched | shared/src/db/repository.rs:171 | the patch keeps id, owner and creation time and stamps the update time |
| UpdateEffect.UpdateStoresSupplied | shared/src/db/repository.rs:171 | every supplied field is stored as given |
| UpdateEffect.UpdateKeepsUnsupplied | shared/src/db/repository.rs:171 | a field that changed was supplied; id, owner and creation time never change |
| UpdateEffect.EmptyUpdateTouchesOnlyTimestamp | shared/src/db/repository.rs:239-243 | an update with no field only refreshes `updated_at` |
| UpdateEffect.DueDateNeverCleared | shared/src/db/repository.rs:229-237 | a row with a due date still has one after any update |
| TaskListing.Matches | shared/src/db/repository.rs:66-68 | the WHERE clauses, as a definition: `id = ?` here, `user_id = ?` (line 94), `user_id = ? AND status = ?` (line 125, comparing stored text), `user_id = ? AND priority = ?` (line 157) and `id = ? AND user_id = ?` (line 330) |
| TaskListing.Select | shared/src/db/repository.rs:93-95 | the scan produces a valid listing: newest first, each matching row exactly once |
| TaskListing.InsertDescSorted | shared/src/db/repository.rs:95 | inserting a row into a newest-first list keeps it newest first |
| TaskListing.Count | shared/src/db/repository.rs:301-302 | `COUNT(*)` is the number of matching ids |
| TaskListing.ListingLength | shared/src/db/repository.rs:298-310 | the count equals the length of the listing for the same filter |
| TaskListing.ListingCount | shared/src/db/repository.rs:298-310 | every valid listing has the counted length |
| TaskListing.ListedIffMatching | shared/src/db/repository.rs:90-103 | a task is in a listing iff it is a stored row that matches the filter |
| TaskListing.MatchesFields | shared/src/db/repository.rs:125 | comparing stored status or priority text is comparing the variants |
| TaskListing.ListingStrict | shared/src/db/repository.rs:95 | with distinct creation times, a listing is strictly newest first |
| TaskListing.ListingUnique | shared/src/db/repository.rs:95 | with distinct creation times, the listing is unique |
| TaskListing.KeepListing | shared/src/db/repository.rs:117-135 | filtering a listing by a narrower filter gives a listing of the narrower filter |
| TaskListing.KeepCounts | shared/src/db/repository.rs:125 | filtering keeps each matching row as often as it occurred and drops the rest |
| TaskListing.StatusQueryNarrows | shared/src/db/repository.rs:125 | every row the status filter selects is selected by the user filter |
| TaskListing.PriorityQueryNarrows | shared/src/db/repository.rs:157 | every row the priority filter selects is selected by the user filter |
| TaskListing.StatusQueryFiltersUserQuery | shared/src/db/repository.rs:117-135 | the status query is the user query filtered by status; with distinct creation times the two are equal as sequences |
| TaskListing.PriorityQueryFiltersUserQuery | shared/src/db/repository.rs:149-167 | the priority query is the user query filtered by priority; with distinct creation times the two are equal as sequences |
| TaskListing.ByIdMatches | shared/src/db/repository.rs:67-68 | filtering by id selects that one key when it is stored, nothing otherwise |
| TaskListing.ByIdAndUserMatches | shared/src/db/repository.rs:329-330 | filtering by id and owner selects that one key when it is stored with that owner, nothing otherwise |
| TaskListing.ByIdListing | shared/src/db/repository.rs:67-68 | selecting by id yields the stored row or nothing |
| TaskModel.StatusName | shared/src/models/task.rs:14 | definition: the stored and wire text of a status, the snake-cased variant identifier |
| TaskModel.PriorityName | shared/src/models/task.rs:31 | definition: the stored and wire text of a priority, the snake-cased variant identifier |
| TaskModel.DefaultStatus | shared/src/models/task.rs:104-108 | definition: the `Default` status, Todo |
| TaskModel.DefaultPriority | shared/src/models/task.rs:110-114 | definition: the `Default` priority, Medium |
| TaskModel.PriorityLess | shared/src/models/task.rs:29 | definition: the derived `Ord`, comparing positions in the declaration |
| TaskModel.Defaults | shared/src/models/task.rs:104-114 | the default status is Todo and the default priority is Medium |
| TaskModel.StatusNames | shared/src/models/task.rs:13-23 | the snake_case rule gives "todo", "in_progress" and "done" |
| TaskModel.PriorityNames | shared/src/models/task.rs:28-42 | the snake_case rule gives "low", "medium", "high" and "urgent" |
| TaskModel.StatusNameInjective | shared/src/models/task.rs:13-23 | distinct statuses have distinct stored names |
| TaskModel.PriorityNameInjective | shared/src/models/task.rs:28-42 | distinct priorities have distinct stored names |
| TaskModel.StatusRoundTrip | shared/src/models/task.rs:13-23 | a stored status reads back as itself |
| TaskModel.StatusDecodesOnlyNames | shared/src/models/task.rs:13-15 | any text that decodes as a status is the name of what it decodes to |
| TaskModel.PriorityRoundTrip | shared/src/models/task.rs:28-42 | a stored priority reads back as itself |
| TaskModel.PriorityDecodesOnlyNames | shared/src/models/task.rs:28-32 | text decodes as a priority iff it is one of the four names |
| TaskModel.ParseStatus | shared/src/models/task.rs:13-15 | the derived decoder: "todo", "in_progress" and "done" decode to Todo, InProgress and Done; any other text is rejected |
| TaskModel.ParsePriority | shared/src/models/task.rs:28-32 | the derived decoder: "low", "medium", "high" and "urgent" decode to the four variants; any other text is rejected |
| TaskModel.PriorityTotalOrder | shared/src/models/task.rs:28-42 | the derived order is Low < Medium < High < Urgent and is a strict total order |
| TaskModel.SnakeCaseWord | shared/src/models/task.rs:14 | a one-word identifier is lowered as a whole |
| TaskModel.CapitalisedTail | shared/src/models/task.rs:14 | an inner capitalised word starts a new `_`-separated word |
| UserModel.ToResponse | shared/src/models/user.rs:91-102 | the response carries the user's id, username, email and creation time |
| UserModel.FromUser | shared/src/models/user.rs:77-89 | the conversion carries the same four fields |
| UserModel.ConversionsAgree | shared/src/models/user.rs:77-102 | both conversions give the same response |
| UserModel.ResponseHidesSecrets | shared/src/models/user.rs:66-75 | the response does not depend on the password hash or the update time |
| UserModel.ResponseKeepsPublicFields | shared/src/models/user.rs:66-75 | users with equal public fields give equal responses |
| Errors.ClassifiersExclusive | shared/src/error.rs:54-77 | no error is both not-found and validation, not-found and auth, or validation and auth |
| Errors.UnclassifiedErrors | shared/src/error.rs:54-77 | an error falls in no class iff it is a database, duplicate-username or internal error |
| Errors.IsNotFound | shared/src/error.rs:58-60 | definition: true exactly for `TaskNotFound` and `UserNotFound` |
| Errors.IsValidation | shared/src/error.rs:65-67 | definition: true exactly for `Validation` |
| Errors.IsAuth | shared/src/error.rs:72-77 | definition: true exactly for `InvalidCredentials` and `Unauthorized` |
| Errors.Message | shared/src/error.rs:13-45 | definition: the eight `Display` texts, each fixed prefix followed by the variant's payload (an id in decimal, or the text) |
| Errors.TaskNotFoundMessage | shared/src/error.rs:18-20 | the message starts "Task not found with id: " and the rest parses back to the id |
| Errors.TaskNotFoundMessageInjective | shared/src/error.rs:18-20 | different ids give different messages |
| Decimal.IntText | shared/src/error.rs:19 | the `{0}` of an id: nonempty, and starts with `-` exactly for a negative number |
| Decimal.IntTextRoundTrip | shared/src/error.rs:19 | the decimal text of an id parses back to the id |
| Decimal.IntTextInjective | shared/src/error.rs:19 | different integers have different decimal texts |
| Decimal.NatTextValue | shared/src/error.rs:19 | the digits of a natural number evaluate back to it |

## Left out

- Database failures (`AppError::Database`) are not modelled. Connection,
  constraint and driver errors come from sqlx and SQLite, which are not part
  of this model. Every operation succeeds except where the code itself
  returns `TaskNotFound`.
- The connection pool, migrations and async execution are not modelled.
  Concurrent requests are not modelled either: each operation is one atomic
  step on the table.
- The schema (`migrations/`) is not part of this model.
  TaskRepository.TaskTable.Create assumes the schema's default that both
  timestamps are set to the insertion time.
- TaskRepository.TaskTable.Create: its contract promises only an id that is
  fresh for the current rows. Which id SQLite picks (the first one, whether
  a deleted id can come back) depends on the schema's key declaration,
  which is not part of this model.
- The clock is a parameter. `now` stands for `datetime('now')` and for the
  insertion time. TaskRepository.TaskTable.Update does not claim that
  `updated_at` increases.
- Integers are unbounded. `i64` ids and counts are never near overflow in
  the code's use, and `CountByUser` returns the exact count.
- Timestamps and due dates are whole numbers. `chrono` date-time values,
  their text format and serde JSON encoding are not modelled.
- TaskListing.Select fixes one order among rows with equal `created_at`.
  SQLite leaves that order unspecified, so no contract relies on it; the
  equality lemmas assume distinct creation times.
- UpdateBuilder.BuildUpdate: the SQL text is not interpreted. Executing the
  statement is modelled by applying the assignment list it is proved to be
  rendered from (UpdateEffect.ExecuteSet).
- UpdateBuilder.NoChangesStatement states the statement through the named
  constant pieces rather than as one literal string.
- `CreateUser` and `UpdateUser` are not modelled. No operation in the
  modelled core reads or writes them.
- The `Display` texts of all eight errors are modelled in `Errors.Message`.
  Only the `TaskNotFound` text has lemmas about it, because it is the only
  error the modelled operations produce.
- The constants and re-exports in `lib.rs` and the `db/mod.rs` pool alias
  are not part of this model.
