/**
 A user's stored document and the in-memory part of the task routes of app.py.
 A freshly registered user has no `todos` field at all; the home page and
 `add_todo` read a missing field as the empty list, while `update_todo` and
 `delete_todo` index the field directly and fail (a KeyError) when it is absent.
 */
module Documents {
  import opened Wrappers
  import opened Todos

  /** A user record: email, display name, stored password hash and the optional `todos` field. */
  datatype UserDoc = UserDoc(email: string, username: string, password: string, todos: Option<seq<Todo>>)

  /** The record `register` inserts: no `todos` field yet. */
  function NewUser(email: string, username: string, password: string): (r: UserDoc)
    ensures r.email == email && r.username == username && r.password == password
    ensures r.todos.None?
  {
    UserDoc(email, username, password, None)
  }

  /** `doc` and `r` agree on everything but the task list. */
  predicate SameAccount(doc: UserDoc, r: UserDoc) {
    r.email == doc.email && r.username == doc.username && r.password == doc.password
  }

  /** The list the home page renders: a missing `todos` field reads as the empty list. */
  function Home(doc: UserDoc): (r: seq<Todo>)
    ensures doc.todos.None? ==> r == []
    ensures doc.todos.Some? ==> r == doc.todos.value
  {
    match doc.todos
    case None => []
    case Some(todos) => todos
  }

  /** `add_todo`: appends to the list read with the empty-list fallback and writes the whole list back. */
  function AddTodo(doc: UserDoc, task: string): (r: UserDoc)
    ensures SameAccount(doc, r) && r.todos.Some?
    ensures Home(r) == Add(Home(doc), task)
  {
    doc.(todos := Some(Add(Home(doc), task)))
  }

  /** `update_todo` as written: fails when the `todos` field is absent, otherwise toggles and writes back. */
  function UpdateTodo(doc: UserDoc, id: int): (r: Option<UserDoc>)
    ensures r.None? <==> doc.todos.None?
    ensures r.Some? ==> SameAccount(doc, r.value) && r.value.todos == Some(Toggle(doc.todos.value, id))
  {
    match doc.todos
    case None => None
    case Some(todos) => Some(doc.(todos := Some(Toggle(todos, id))))
  }

  /** `delete_todo` as written: fails when the `todos` field is absent, otherwise filters and writes back. */
  function DeleteTodo(doc: UserDoc, id: int): (r: Option<UserDoc>)
    ensures r.None? <==> doc.todos.None?
    ensures r.Some? ==> SameAccount(doc, r.value) && r.value.todos == Some(Delete(doc.todos.value, id))
  {
    match doc.todos
    case None => None
    case Some(todos) => Some(doc.(todos := Some(Delete(todos, id))))
  }

  /** `update_todo` with the same empty-list fallback the other routes use: never fails. */
  function UpdateTodoWithFallback(doc: UserDoc, id: int): (r: UserDoc)
    ensures SameAccount(doc, r) && r.todos.Some?
    ensures Home(r) == Toggle(Home(doc), id)
  {
    doc.(todos := Some(Toggle(Home(doc), id)))
  }

  /** `delete_todo` with the same empty-list fallback the other routes use: never fails. */
  function DeleteTodoWithFallback(doc: UserDoc, id: int): (r: UserDoc)
    ensures SameAccount(doc, r) && r.todos.Some?
    ensures Home(r) == Delete(Home(doc), id)
  {
    doc.(todos := Some(Delete(Home(doc), id)))
  }

  /** A new user sees an empty list, and can add to it. */
  lemma FreshUserHomeIsEmpty(email: string, username: string, password: string, task: string)
    ensures Home(NewUser(email, username, password)) == []
    ensures Home(AddTodo(NewUser(email, username, password), task)) == [Todo(1, task, false)]
  {
  }

  /** As written, toggling or deleting anything for a user who never added a task fails. */
  lemma FreshUserToggleAndDeleteFail(email: string, username: string, password: string, id: int)
    ensures UpdateTodo(NewUser(email, username, password), id).None?
    ensures DeleteTodo(NewUser(email, username, password), id).None?
  {
  }

  /**
   The fallback variants agree with the routes as written whenever the field exists,
   and on a fresh user they are the no-op a missing id is elsewhere.
   */
  lemma FallbackAgreesWhenFieldPresent(doc: UserDoc, id: int)
    ensures doc.todos.Some? ==> UpdateTodo(doc, id) == Some(UpdateTodoWithFallback(doc, id))
    ensures doc.todos.Some? ==> DeleteTodo(doc, id) == Some(DeleteTodoWithFallback(doc, id))
    ensures doc.todos.None? ==> Home(UpdateTodoWithFallback(doc, id)) == [] == Home(DeleteTodoWithFallback(doc, id))
  {
  }

  /** Once a task has been added, toggle and delete as written never fail again. */
  lemma AddedUserNeverFails(doc: UserDoc, task: string, id: int)
    ensures UpdateTodo(AddTodo(doc, task), id).Some?
    ensures DeleteTodo(AddTodo(doc, task), id).Some?
    ensures UpdateTodo(UpdateTodo(AddTodo(doc, task), id).value, id).Some?
    ensures DeleteTodo(DeleteTodo(AddTodo(doc, task), id).value, id).Some?
  {
  }
}
