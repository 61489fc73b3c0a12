/**
 The per-user to-do list as the route handlers of app.py manipulate it in memory:
 a sequence of tasks, each with an integer id, its text and a done flag.
 Adding appends, toggling flips the first task with a given id, deleting filters.
 */
module Todos {
  import opened Wrappers

  /** One entry of a user's `todos` array. */
  datatype Todo = Todo(id: int, task: string, done: bool)

  /** Ids strictly increase along the list (so they are unique and the last one is the largest). */
  predicate IdsIncreasing(todos: seq<Todo>) {
    forall i, j :: 0 <= i < j < |todos| ==> todos[i].id < todos[j].id
  }

  /** No task in the list carries `id`. */
  predicate NoTaskWithId(todos: seq<Todo>, id: int) {
    forall i :: 0 <= i < |todos| ==> todos[i].id != id
  }

  /** Position `i` holds the first task whose id is `id`. */
  predicate IsFirstMatch(todos: seq<Todo>, id: int, i: int) {
    && 0 <= i < |todos|
    && todos[i].id == id
    && forall j :: 0 <= j < i ==> todos[j].id != id
  }

  // ---------------------------------------------------------------- add

  /**
   Appends a new, not-done task. Its id is one more than the id of the LAST
   task in the list (not the largest id), or 1 when the list is empty.
   The task text is taken as given: no check for empty text.
   */
  function Add(todos: seq<Todo>, task: string): (r: seq<Todo>)
    ensures |r| == |todos| + 1
    ensures r[..|todos|] == todos
    ensures r[|todos|].task == task && !r[|todos|].done
    ensures |todos| == 0 ==> r[|todos|].id == 1
    ensures |todos| > 0 ==> r[|todos|].id == todos[|todos| - 1].id + 1
  {
    var newId := if |todos| > 0 then todos[|todos| - 1].id + 1 else 1;
    todos + [Todo(newId, task, false)]
  }

  /** The list obtained by adding `tasks` one after another, in call order. */
  function AddAll(todos: seq<Todo>, tasks: seq<string>): (r: seq<Todo>)
    ensures |r| == |todos| + |tasks|
    decreases |tasks|
  {
    if |tasks| == 0 then todos
    else Add(AddAll(todos, tasks[..|tasks| - 1]), tasks[|tasks| - 1])
  }

  // ---------------------------------------------------------------- toggle

  /** Where the handler's loop stops: the index of the first task with id `id`, if any. */
  function FirstMatch(todos: seq<Todo>, id: int): (r: Option<nat>)
    ensures r.Some? ==> IsFirstMatch(todos, id, r.value)
    ensures r.None? <==> NoTaskWithId(todos, id)
  {
    if |todos| == 0 then None
    else if todos[0].id == id then Some(0)
    else
      match FirstMatch(todos[1..], id)
      case None => None
      case Some(k) => Some(k + 1)
  }

  /**
   Flips `done` on the first task whose id is `id`; every other task, every id,
   every text and the order stay as they were. With no such task the list is unchanged.
   */
  function Toggle(todos: seq<Todo>, id: int): (r: seq<Todo>)
    ensures |r| == |todos|
    ensures forall i :: 0 <= i < |todos| ==> r[i].id == todos[i].id && r[i].task == todos[i].task
    ensures forall i :: 0 <= i < |todos| ==> r[i].done == (todos[i].done != IsFirstMatch(todos, id, i))
    ensures NoTaskWithId(todos, id) ==> r == todos
  {
    match FirstMatch(todos, id)
    case None => todos
    case Some(k) => todos[k := todos[k].(done := !todos[k].done)]
  }

  /** The handler's `for ... break` loop over the list, computing the toggled list. */
  method ToggleLoop(todos: seq<Todo>, id: int) returns (r: seq<Todo>)
    ensures r == Toggle(todos, id)
  {
    r := todos;
    var i := 0;
    while i < |r|
      invariant 0 <= i <= |r|
      invariant r == todos
      invariant forall j :: 0 <= j < i ==> todos[j].id != id
    {
      if r[i].id == id {
        r := r[i := r[i].(done := !r[i].done)];
        break;
      }
      i := i + 1;
    }
  }

  // ---------------------------------------------------------------- delete

  /** Keeps exactly the tasks whose id differs from `id`, in their original order. */
  function Delete(todos: seq<Todo>, id: int): (r: seq<Todo>)
    ensures |r| <= |todos|
    ensures NoTaskWithId(r, id)
    ensures NoTaskWithId(todos, id) ==> r == todos
  {
    if |todos| == 0 then []
    else
      var init, last := todos[..|todos| - 1], todos[|todos| - 1];
      Delete(init, id) + (if last.id != id then [last] else [])
  }
}
