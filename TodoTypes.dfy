/** The records of the app: a todo item and the status filter of the list screen. */
module TodoTypes {
  import opened Js
  import opened Lists

  /** One todo item. Dates are modelled as millisecond timestamps; `colorId` is optional. */
  datatype Todo = Todo(
    id: string,
    text: string,
    completed: bool,
    createdAt: nat,
    updatedAt: nat,
    colorId: Option<string>)

  /** The status filter: show every item, only the open ones, or only the done ones. */
  datatype FilterType = All | Active | Completed

  /** The item is still open. */
  predicate IsActive(t: Todo)
    ensures IsActive(t) <==> !IsDone(t)
  {
    !t.completed
  }

  /** The item is done. */
  predicate IsDone(t: Todo)
    ensures IsDone(t) <==> t.(completed := true) == t
  {
    t.completed
  }

  function IdOf(t: Todo): string {
    t.id
  }

  /** An id names at most one item of the list. */
  ghost predicate UniqueIds(todos: seq<Todo>) {
    DistinctKeys(todos, IdOf)
  }

  /** The id occurs in no item of the list. */
  ghost predicate IdAbsent(todos: seq<Todo>, id: string) {
    forall k :: 0 <= k < |todos| ==> todos[k].id != id
  }

  /** The item with its modification time blanked out. */
  function Unstamped(t: Todo): Todo {
    t.(updatedAt := 0)
  }

  /** Two lists hold the same items in the same order, up to modification times. */
  ghost predicate Agree(a: seq<Todo>, b: seq<Todo>) {
    |a| == |b| && forall i :: 0 <= i < |a| ==> Unstamped(a[i]) == Unstamped(b[i])
  }
}
