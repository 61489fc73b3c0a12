/**
 Laws of the list operations: the numbering a fresh list receives, the id
 ordering every operation preserves, toggle as an involution, delete as an
 idempotent order-preserving filter, and the reuse of a deleted last id.
 */
module TodoLaws {
  import opened Todos

  // ---------------------------------------------------------------- numbering

  /** Adding tasks t1..tN to an empty list yields ids 1..N in call order, not done, with the given texts. */
  lemma {:induction false} FreshNumbering(tasks: seq<string>)
    ensures |AddAll([], tasks)| == |tasks|
    ensures forall i :: 0 <= i < |tasks| ==> AddAll([], tasks)[i] == Todo(i + 1, tasks[i], false)
    decreases |tasks|
  {
    if |tasks| > 0 {
      var n := |tasks| - 1;
      var prev := AddAll([], tasks[..n]);
      FreshNumbering(tasks[..n]);
      var r := Add(prev, tasks[n]);
      assert r == AddAll([], tasks);
      forall i | 0 <= i < |tasks|
        ensures r[i] == Todo(i + 1, tasks[i], false)
      {
        if i < n {
          assert r[i] == r[..n][i] == prev[i];
        }
      }
    }
  }

  // ---------------------------------------------------------------- id ordering

  /** With increasing ids the ids are pairwise distinct and the last id is the largest. */
  lemma IncreasingIdsAreUniqueAndLastIsMax(todos: seq<Todo>)
    requires IdsIncreasing(todos)
    ensures forall i, j :: 0 <= i < |todos| && 0 <= j < |todos| && i != j ==> todos[i].id != todos[j].id
    ensures forall i :: 0 <= i < |todos| ==> todos[i].id <= todos[|todos| - 1].id
  {
  }

  /** Adding to a list with increasing ids gives an id larger than all existing ones, so ids keep increasing. */
  lemma AddPreservesIncreasing(todos: seq<Todo>, task: string)
    requires IdsIncreasing(todos)
    ensures IdsIncreasing(Add(todos, task))
    ensures forall i :: 0 <= i < |todos| ==> todos[i].id < Add(todos, task)[|todos|].id
  {
  }

  /** Toggling never touches ids, so increasing ids stay increasing. */
  lemma TogglePreservesIncreasing(todos: seq<Todo>, id: int)
    requires IdsIncreasing(todos)
    ensures IdsIncreasing(Toggle(todos, id))
  {
  }

  /** Deleting keeps a subsequence, so increasing ids stay increasing. */
  lemma {:induction false} DeletePreservesIncreasing(todos: seq<Todo>, id: int)
    requires IdsIncreasing(todos)
    ensures IdsIncreasing(Delete(todos, id))
    decreases |todos|
  {
    if |todos| > 0 {
      var init, last := todos[..|todos| - 1], todos[|todos| - 1];
      DeletePreservesIncreasing(init, id);
      DeleteMembers(init, id);
      var d := Delete(init, id);
      forall k | 0 <= k < |d|
        ensures d[k].id < last.id
      {
        assert d[k] in init;
      }
    }
  }

  /** The handler operations, as one request each. */
  datatype Op = AddOp(task: string) | ToggleOp(id: int) | DeleteOp(id: int)

  /** The list after one request. */
  function Apply(todos: seq<Todo>, op: Op): (r: seq<Todo>) {
    match op
    case AddOp(task) => Add(todos, task)
    case ToggleOp(id) => Toggle(todos, id)
    case DeleteOp(id) => Delete(todos, id)
  }

  /** The list after the requests, in the order they arrive. */
  function Run(todos: seq<Todo>, ops: seq<Op>): (r: seq<Todo>)
    decreases |ops|
  {
    if |ops| == 0 then todos else Run(Apply(todos, ops[0]), ops[1..])
  }

  /** Whatever sequence of requests a user issues from an empty list, ids stay strictly increasing, hence unique. */
  lemma {:induction false} HistoryKeepsIdsIncreasing(todos: seq<Todo>, ops: seq<Op>)
    requires IdsIncreasing(todos)
    ensures IdsIncreasing(Run(todos, ops))
    decreases |ops|
  {
    if |ops| > 0 {
      match ops[0] {
        case AddOp(task) => AddPreservesIncreasing(todos, task);
        case ToggleOp(id) => TogglePreservesIncreasing(todos, id);
        case DeleteOp(id) => DeletePreservesIncreasing(todos, id);
      }
      HistoryKeepsIdsIncreasing(Apply(todos, ops[0]), ops[1..]);
    }
  }

  // ---------------------------------------------------------------- toggle

  /** Toggling the same id twice restores the original list. */
  lemma ToggleInvolution(todos: seq<Todo>, id: int)
    ensures Toggle(Toggle(todos, id), id) == todos
  {
  }

  /** Toggling one id leaves every task with a different id exactly as it was. */
  lemma ToggleLeavesOtherIds(todos: seq<Todo>, id: int)
    ensures forall i :: 0 <= i < |todos| && todos[i].id != id ==> Toggle(todos, id)[i] == todos[i]
  {
  }

  // ---------------------------------------------------------------- delete

  /** Deleting twice is deleting once. */
  lemma DeleteIdempotent(todos: seq<Todo>, id: int)
    ensures Delete(Delete(todos, id), id) == Delete(todos, id)
  {
  }

  /** A task survives deletion if and only if it was in the list and carries a different id. */
  lemma {:induction false} DeleteMembers(todos: seq<Todo>, id: int)
    ensures forall t :: t in Delete(todos, id) <==> t in todos && t.id != id
    decreases |todos|
  {
    if |todos| > 0 {
      var init, last := todos[..|todos| - 1], todos[|todos| - 1];
      DeleteMembers(init, id);
      assert todos == init + [last];
      DeleteLast(todos, id);
    }
  }

  /** A single task survives deletion exactly when its id differs. */
  lemma DeleteSingle(t: Todo, id: int)
    ensures Delete([t], id) == (if t.id != id then [t] else [])
  {
  }

  /**
   Deleting from a concatenation deletes from each part and keeps the parts in
   order; with `DeleteSingle` this pins `Delete` down as the order-preserving filter.
   */
  lemma {:induction false} DeleteDistributes(a: seq<Todo>, b: seq<Todo>, id: int)
    ensures Delete(a + b, id) == Delete(a, id) + Delete(b, id)
    decreases |b|
  {
    if |b| == 0 {
      assert a + b == a;
    } else {
      var init, last := b[..|b| - 1], b[|b| - 1];
      DeleteDistributes(a, init, id);
      assert (a + b)[..|a + b| - 1] == a + init;
      DeleteLast(a + b, id);
      DeleteLast(b, id);
      var keep := if last.id != id then [last] else [];
      assert Delete(a, id) + Delete(init, id) + keep == Delete(a, id) + (Delete(init, id) + keep);
    }
  }

  /** One step of `Delete`: the last task is kept or dropped after the rest is filtered. */
  lemma DeleteLast(s: seq<Todo>, id: int)
    requires |s| > 0
    ensures Delete(s, id) == Delete(s[..|s| - 1], id) + (if s[|s| - 1].id != id then [s[|s| - 1]] else [])
  {
  }

  /** The list comprehension of the delete handler read front to back: keep each task whose id differs. */
  function Keep(todos: seq<Todo>, id: int): (r: seq<Todo>)
    decreases |todos|
  {
    if |todos| == 0 then []
    else (if todos[0].id != id then [todos[0]] else []) + Keep(todos[1..], id)
  }

  /** Delete is the order-preserving filter: the surviving tasks, in their original order. */
  lemma {:induction false} DeleteIsKeep(todos: seq<Todo>, id: int)
    ensures Delete(todos, id) == Keep(todos, id)
    decreases |todos|
  {
    if |todos| > 0 {
      assert todos == [todos[0]] + todos[1..];
      DeleteDistributes([todos[0]], todos[1..], id);
      DeleteSingle(todos[0], id);
      DeleteIsKeep(todos[1..], id);
    }
  }

  /** Deleting an id that some task carries makes the list strictly shorter. */
  lemma {:induction false} DeletePresentShrinks(todos: seq<Todo>, id: int)
    requires !NoTaskWithId(todos, id)
    ensures |Delete(todos, id)| < |todos|
    decreases |todos|
  {
    var init, last := todos[..|todos| - 1], todos[|todos| - 1];
    if last.id != id {
      var i :| 0 <= i < |todos| && todos[i].id == id;
      assert init[i].id == id;
      DeletePresentShrinks(init, id);
    }
  }

  // ---------------------------------------------------------------- id reuse

  /**
   The new id comes from the last task, not from a record of ids ever used:
   deleting the task just added and adding again hands out the same id.
   */
  lemma DeletedLastIdIsReused(todos: seq<Todo>, task: string, later: string)
    requires IdsIncreasing(todos)
    ensures var added := Add(todos, task);
            var id := added[|todos|].id;
            Delete(added, id) == todos && Add(Delete(added, id), later)[|todos|].id == id
  {
  }

  /**
   Any deleted id can come back, not only the last one: from ids [1, 2, 3],
   deleting 2 and then 3 leaves [1], and the next add hands out 2 again.
   */
  lemma DeletedMiddleIdIsReused(a: string, b: string, c: string, later: string)
    ensures var three := AddAll([], [a, b, c]);
            var left := Delete(Delete(three, 2), 3);
            left == [Todo(1, a, false)] && Add(left, later)[1] == Todo(2, later, false)
  {
    FreshNumbering([a, b, c]);
    var three := AddAll([], [a, b, c]);
    assert three == [Todo(1, a, false), Todo(2, b, false), Todo(3, c, false)];
    DeleteIsKeep(three, 2);
    var two := Delete(three, 2);
    assert two == [Todo(1, a, false), Todo(3, c, false)];
    DeleteIsKeep(two, 3);
  }

  // ---------------------------------------------------------------- a session

  /** Two adds, a toggle of the first task, then its deletion, leave only the second task, not done. */
  lemma AddToggleDeleteSession(first: string, second: string)
    ensures var two := Add(Add([], first), second);
            && two == [Todo(1, first, false), Todo(2, second, false)]
            && Toggle(two, 1) == [Todo(1, first, true), Todo(2, second, false)]
            && Delete(Toggle(two, 1), 1) == [Todo(2, second, false)]
  {
  }
}
