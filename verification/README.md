# To-do list: a Dafny model of the task-list handlers

This project models the in-memory logic of a small multi-user to-do web
application (`app.py`). Each request handler reads the logged-in user's
document, changes the `todos` array, and writes the whole array back. The
model lifts that into pure functions over `seq<Todo>`, where
`Todo = Todo(id: int, task: string, done: bool)`:

- **add** (`add_todo`): appends a not-done task. Its id is the **last** task's id + 1, or 1 when the list is empty.
- **toggle** (`update_todo`): flips `done` on the first task with the given id. If no task has that id, nothing changes.
- **delete** (`delete_todo`): keeps exactly the tasks whose id differs from the argument.
- **home**: a missing `todos` field reads as the empty list.
- **register** inserts a user only when no stored user has the same email.
- **login** looks the email up and checks the password with a hash check that is passed in.

Modules:

- `Wrappers` (wrappers.dfy): `Option`.
- `Todos` (todos.dfy): the task datatype, the list operations, and the handler's `for … break` loop as a method.
- `TodoLaws` (todo_laws.dfy): the laws of the list operations.
- `Documents` (documents.dfy): a user document whose `todos` field may be absent, and the four task routes over it.
- `Users` (users.dfy): the user collection, with lookup by email, registration and login.

Behaviour of the code worth knowing:

- The new id is computed from the last task in the current list, not from any record of ids already used. Deleting the task just added makes the next add hand out its id again (`TodoLaws.DeletedLastIdIsReused`). More generally, a deleted id can be handed out again: from ids 1, 2, 3, deleting 2 and then 3 makes the next add hand out 2 (`TodoLaws.DeletedMiddleIdIsReused`). Every history from an empty list keeps ids increasing along the list (`TodoLaws.HistoryKeepsIdsIncreasing`), so ids in one list stay unique and the last id is the largest.
- Task text is stored as submitted; empty text is accepted.
- Toggle and delete of a missing id are silent no-ops. They do fail, though, when the user document has no `todos` field at all (see Findings).

## Model

| member | source | states |
|---|---|---|
| Todos.Add | app.py:98-100 | the list grows by one; the old tasks are an unchanged prefix; the new last task has the given text and is not done; its id is 1 for an empty list, otherwise the last task's id + 1 |
| TodoLaws.FreshNumbering | app.py:99-100 | adding N tasks to an empty list, one after another, gives exactly `Todo(i+1, text_i, false)` at each position i: ids 1..N in call order |
| TodoLaws.IncreasingIdsAreUniqueAndLastIsMax | app.py:99 | when ids increase along the list, they are pairwise distinct and the last id is the largest |
| TodoLaws.AddPreservesIncreasing | app.py:99-100 | on a list with increasing ids, add gives an id larger than every existing id, and ids keep increasing |
| TodoLaws.TogglePreservesIncreasing | app.py:109-112 | toggle keeps ids increasing |
| TodoLaws.DeletePreservesIncreasing | app.py:120 | delete keeps ids increasing |
| TodoLaws.HistoryKeepsIdsIncreasing | app.py:97-121 | any sequence of add/toggle/delete requests on a list with increasing ids (for example an empty one) leaves the ids increasing, hence unique |
| Todos.FirstMatch | app.py:109-110 | the position where the handler's loop stops: the first task carrying the id; none exactly when no task carries it |
| Todos.Toggle | app.py:108-112 | same length, ids and texts at every position; `done` differs from the input exactly at the first position whose id matches; with no match the list is returned unchanged |
| Todos.ToggleLoop | app.py:109-112 | the loop that flips the first match and breaks computes the same list as `Toggle` |
| TodoLaws.ToggleInvolution | app.py:109-112 | toggling the same id twice returns the original list |
| TodoLaws.ToggleLeavesOtherIds | app.py:109-112 | every task whose id differs from the argument is left exactly as it was |
| Todos.Delete | app.py:120 | no task in the result carries the deleted id; the result is no longer than the input; with no match the list is unchanged |
| TodoLaws.DeleteMembers | app.py:120 | a task is in the result if and only if it is in the input and its id differs from the argument |
| TodoLaws.DeleteSingle | app.py:120 | a one-task list keeps its task exactly when the task's id differs |
| TodoLaws.DeleteDistributes | app.py:120 | deleting from `a + b` is deleting from `a` followed by deleting from `b` |
| TodoLaws.DeleteIsKeep | app.py:120 | delete equals the front-to-back filter of the list comprehension: exactly the tasks whose id differs, in their original order |
| TodoLaws.DeleteIdempotent | app.py:120 | deleting the same id twice equals deleting it once |
| TodoLaws.DeletePresentShrinks | app.py:120 | when some task carries the id, the list gets strictly shorter |
| TodoLaws.DeletedLastIdIsReused | app.py:99-120 | after adding a task and deleting it by its id, the list is as before, and the next add hands out the same id again |
| TodoLaws.DeletedMiddleIdIsReused | app.py:99-120 | from ids 1, 2, 3, deleting 2 then 3 leaves only task 1, and the next add hands out id 2 again |
| TodoLaws.AddToggleDeleteSession | app.py:97-121 | adding two tasks gives ids 1 and 2; toggling 1 marks only the first as done; deleting 1 then leaves just the second task, not done |
| Documents.NewUser | app.py:49-53 | a registered record carries the submitted email, name and hash and has no `todos` field |
| Documents.Home | app.py:84-87 | the rendered list is the stored one, or empty when the field is missing |
| Documents.AddTodo | app.py:95-101 | the account fields are unchanged; the field is now present; its list is the add applied to the list read with the empty fallback |
| Documents.UpdateTodo | app.py:106-113 | fails exactly when the `todos` field is absent; otherwise the account is unchanged and the stored list is the toggled one |
| Documents.DeleteTodo | app.py:118-121 | fails exactly when the `todos` field is absent; otherwise the account is unchanged and the stored list is the filtered one |
| Documents.UpdateTodoWithFallback | app.py:108 | corrected `update_todo`: never fails; its stored list is the toggle of the list read with the empty fallback |
| Documents.DeleteTodoWithFallback | app.py:120 | corrected `delete_todo`: never fails; its stored list is the delete applied to the list read with the empty fallback |
| Documents.FreshUserHomeIsEmpty | app.py:87 | a newly registered user sees an empty list, and the first add gives `Todo(1, task, false)` |
| Documents.FreshUserToggleAndDeleteFail | app.py:108-120 | for a newly registered user, toggle and delete as written fail whatever the id |
| Documents.FallbackAgreesWhenFieldPresent | app.py:108-120 | when the field exists, the corrected routes give the same document as the routes as written; when it is missing, they leave an empty list |
| Documents.AddedUserNeverFails | app.py:98-120 | once a task has been added, toggle and delete as written succeed, and succeed again when repeated |
| Users.FindByEmail | app.py:41 | the first user with the email, if any; none exactly when no user has it |
| Users.Register | app.py:41-53 | an email already present leaves the store unchanged and reports a duplicate; otherwise exactly one record with that email is appended and the others are untouched |
| Users.RegisterPreservesUniqueEmails | app.py:41-53 | a registration keeps emails unique |
| Users.RegisterAllUniqueEmails | app.py:41-53 | any sequence of registrations keeps emails unique, and every submitted email ends up present |
| Users.RegisterAllKeepsEmails | app.py:49-53 | registrations never remove a user, so an email once present stays present |
| Users.Login | app.py:67-68 | a success names a user with that email whose stored hash the check accepts; an unknown email never succeeds |
| Users.LoginWithUniqueEmails | app.py:67-70 | with unique emails, login succeeds exactly for the user holding that email, and only when the check accepts |

## Findings

| source | as written | input that shows it | evidently intended | confidence | as-written member | corrected member |
|---|---|---|---|---|---|---|
| app.py:108 | `update_todo` reads `user_data['todos']` directly | a user who has just registered requests `/update_todo/1`: the record has no `todos` field, so the lookup raises instead of being a no-op | the same empty-list fallback as `home` (app.py:87) and `add_todo` (app.py:98), which would make the request a no-op | medium, not executed | Documents.UpdateTodo (failure shown by Documents.FreshUserToggleAndDeleteFail) | Documents.UpdateTodoWithFallback (agreement proved by Documents.FallbackAgreesWhenFieldPresent) |
| app.py:120 | `delete_todo` reads `user_data['todos']` directly | a user who has just registered requests `/delete_todo/1`: the record has no `todos` field, so the lookup raises instead of being a no-op | the same empty-list fallback as `home` and `add_todo` | medium, not executed | Documents.DeleteTodo (failure shown by Documents.FreshUserToggleAndDeleteFail) | Documents.DeleteTodoWithFallback (agreement proved by Documents.FallbackAgreesWhenFieldPresent) |

The list-level laws in `TodoLaws` hold for both variants, since both apply
the same `Toggle` and `Delete` to the list they read.

## Left out

- Flask routing, redirects, templates and flash messages (app.py:30-89, app.py:124-125). These are request plumbing; only the computed documents and outcomes are modelled.
- The database calls `find_one`, `update_one` and `insert_one`. A user document is a value, and the user collection is a sequence. A user's position in it stands in for the generated `ObjectId`.
- Looking up the current user's document by id (app.py:84, 97, 107, 119). The login guard only admits users whose record exists (app.py:26-28), so the task routes are modelled on that document directly.
- bcrypt hashing and checking (app.py:46, app.py:68). The hash arrives already computed in `SignUp`, and the check is the `verify` parameter of `Users.Login`.
- flask_login sessions, `current_user`, `login_required` and logout (app.py:16-28, app.py:75-79). This state is managed by the library.
- Environment and configuration loading (app.py:7-11).
- Missing form fields (app.py:37-39, app.py:96): the handler's first statement raises on a missing field and Flask answers 400, before any database access, so no document changes.
- The route's integer converter accepts only non-negative ids. The list functions take any `int`, which includes every id the route can pass.
- The lost update between concurrent read-modify-write requests on one user document. The model is sequential.
- Users.Login: its own contract states only the success direction and the unknown-email case. The exact condition, for a store with unique emails, is `Users.LoginWithUniqueEmails`.
