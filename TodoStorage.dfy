/** The persisted todo list (utils/todoStorage.ts). One storage slot, `@todos`, holds the
    whole list. Every mutation loads the full list, applies one list transformation and
    saves the result over the slot. Loading and saving catch every error themselves, so
    no operation of the store ever throws. */
module TodoStorage {
  import opened Js
  import opened Lists
  import opened TodoTypes
  import opened KeyValue

  /** What the `@todos` slot holds: nothing (or the empty string, which the truthiness test
      treats alike), a serialised list, or text that `JSON.parse` rejects or whose value is
      not an array, so that the read throws. An array of non-records is not represented. */
  datatype Slot = Absent | Holds(todos: seq<Todo>) | Malformed

  /** The list a successful read of the slot yields. */
  function Contents(slot: Slot): (r: seq<Todo>)
    ensures slot.Holds? ==> r == slot.todos
    ensures !slot.Holds? ==> r == []
  {
    if slot.Holds? then slot.todos else []
  }

  /** `loadTodos`: the stored list, or the empty list when the slot is absent, when it does
      not parse, or when the read throws. It never throws. */
  function Loaded(slot: Slot, read: Access): (r: seq<Todo>)
    ensures read == Succeeds && slot.Holds? ==> r == slot.todos
    ensures read == Fails || !slot.Holds? ==> r == []
  {
    if read == Fails then [] else Contents(slot)
  }

  /** `saveTodos`: the slot after writing `todos`; a failed write is swallowed and leaves
      the slot as it was. */
  function Saved(slot: Slot, todos: seq<Todo>, write: Access): (r: Slot)
    ensures write == Succeeds ==> r == Holds(todos)
    ensures write == Fails ==> r == slot
  {
    if write == Succeeds then Holds(todos) else slot
  }

  /** The record `addTodo` builds: trimmed text, not completed, the two dates from two
      readings of the clock, and the colour key set to the id. */
  function NewTodo(id: string, text: string, createdNow: nat, updatedNow: nat): (t: Todo)
    ensures t.id == id && t.text == Trim(text) && !t.completed
    ensures t.createdAt == createdNow && t.updatedAt == updatedNow && t.colorId == Some(id)
  {
    Todo(id, Trim(text), false, createdNow, updatedNow, Some(id))
  }

  /** The list transform of `updateTodo(id, { text })`. */
  function WithText(todos: seq<Todo>, id: string, text: string, now: nat): (r: seq<Todo>)
    ensures |r| == |todos|
    ensures forall i :: 0 <= i < |r| ==>
      r[i].id == todos[i].id && r[i].completed == todos[i].completed
      && r[i].createdAt == todos[i].createdAt && r[i].colorId == todos[i].colorId
    ensures forall i :: 0 <= i < |r| && todos[i].id == id ==> r[i].text == text && r[i].updatedAt == now
    ensures forall i :: 0 <= i < |r| && todos[i].id != id ==> r[i] == todos[i]
  {
    seq(|todos|, i requires 0 <= i < |todos| =>
      if todos[i].id == id then todos[i].(text := text, updatedAt := now) else todos[i])
  }

  /** The list transform of `toggleTodo(id)`. */
  function Toggled(todos: seq<Todo>, id: string, now: nat): (r: seq<Todo>)
    ensures |r| == |todos|
    ensures forall i :: 0 <= i < |r| ==>
      r[i].id == todos[i].id && r[i].text == todos[i].text
      && r[i].createdAt == todos[i].createdAt && r[i].colorId == todos[i].colorId
    ensures forall i :: 0 <= i < |r| && todos[i].id == id ==> r[i].completed != todos[i].completed && r[i].updatedAt == now
    ensures forall i :: 0 <= i < |r| && todos[i].id != id ==> r[i] == todos[i]
  {
    seq(|todos|, i requires 0 <= i < |todos| =>
      if todos[i].id == id then todos[i].(completed := !todos[i].completed, updatedAt := now) else todos[i])
  }

  /** The list transform of `deleteTodo(id)`. */
  function Deleted(todos: seq<Todo>, id: string): (r: seq<Todo>)
    ensures |r| <= |todos|
    ensures forall k :: 0 <= k < |r| ==> r[k].id != id && r[k] in todos
  {
    KeepWhere(todos, (t: Todo) => t.id != id)
  }

  /** The list transform of `clearCompleted()`. */
  function Cleared(todos: seq<Todo>): (r: seq<Todo>)
    ensures |r| <= |todos|
    ensures forall k :: 0 <= k < |r| ==> !r[k].completed && r[k] in todos
  {
    KeepWhere(todos, IsActive)
  }

  /** A successful save followed by a successful load gives back what was saved. */
  lemma SaveThenLoad(slot: Slot, todos: seq<Todo>)
    ensures Loaded(Saved(slot, todos, Succeeds), Succeeds) == todos
  {
  }

  /** Add does not reject blank text itself: a whitespace-only text is stored as "". */
  lemma AddKeepsBlankText(id: string, text: string, createdNow: nat, updatedNow: nat)
    requires IsBlank(text)
    ensures NewTodo(id, text, createdNow, updatedNow).text == ""
  {
    TrimEmptyIffBlank(text);
  }

  /** The text of a new record is never padded with whitespace, and is empty only for a
      blank input. */
  lemma NewTodoText(id: string, text: string, createdNow: nat, updatedNow: nat)
    ensures NewTodo(id, text, createdNow, updatedNow).text == "" <==> IsBlank(text)
    ensures NewTodo(id, text, createdNow, updatedNow).text == Trim(NewTodo(id, text, createdNow, updatedNow).text)
  {
    TrimEmptyIffBlank(text);
    TrimIdempotent(text);
  }

  /** Deleting keeps exactly the records with another id, as often as they occur, in order. */
  lemma DeletedExact(todos: seq<Todo>, id: string)
    ensures IdAbsent(Deleted(todos, id), id)
    ensures forall x :: multiset(Deleted(todos, id))[x] == if x.id != id then multiset(todos)[x] else 0
    ensures IsSubsequence(Deleted(todos, id), todos)
  {
    KeepWhereMultiplicity(todos, (t: Todo) => t.id != id);
    KeepWhereIsSubsequence(todos, (t: Todo) => t.id != id);
  }

  /** Clearing keeps exactly the open records, as often as they occur, in order; it leaves
      no completed record and a second clear changes nothing. */
  lemma ClearedExact(todos: seq<Todo>)
    ensures forall k :: 0 <= k < |Cleared(todos)| ==> !Cleared(todos)[k].completed
    ensures forall x :: multiset(Cleared(todos))[x] == if x.completed then 0 else multiset(todos)[x]
    ensures IsSubsequence(Cleared(todos), todos)
    ensures Cleared(Cleared(todos)) == Cleared(todos)
  {
    KeepWhereMultiplicity(todos, IsActive);
    KeepWhereIsSubsequence(todos, IsActive);
    KeepWhereIdempotent(todos, IsActive);
  }

  /** Update, toggle and delete with an id no record has leave the list as it was. */
  lemma AbsentIdChangesNothing(todos: seq<Todo>, id: string, text: string, now: nat)
    requires IdAbsent(todos, id)
    ensures WithText(todos, id, text, now) == todos
    ensures Toggled(todos, id, now) == todos
    ensures Deleted(todos, id) == todos
  {
    KeepWhereAll(todos, (t: Todo) => t.id != id);
  }

  /** Toggling twice restores every completion flag, and every other field except the
      modification time. */
  lemma ToggleTwice(todos: seq<Todo>, id: string, now1: nat, now2: nat)
    ensures Agree(Toggled(Toggled(todos, id, now1), id, now2), todos)
    ensures forall k :: 0 <= k < |todos| ==> Toggled(Toggled(todos, id, now1), id, now2)[k].completed == todos[k].completed
  {
  }

  /** No mutation makes two records share an id, provided the id of a new record is fresh. */
  lemma MutationsKeepIdsUnique(todos: seq<Todo>, id: string, text: string, now: nat, createdNow: nat, updatedNow: nat)
    requires UniqueIds(todos)
    ensures IdAbsent(todos, id) ==> UniqueIds([NewTodo(id, text, createdNow, updatedNow)] + todos)
    ensures UniqueIds(WithText(todos, id, text, now))
    ensures UniqueIds(Toggled(todos, id, now))
    ensures UniqueIds(Deleted(todos, id))
    ensures UniqueIds(Cleared(todos))
  {
    KeepWhereKeepsDistinctKeys(todos, (t: Todo) => t.id != id, IdOf);
    KeepWhereKeepsDistinctKeys(todos, IsActive, IdOf);
    if IdAbsent(todos, id) {
      var r := [NewTodo(id, text, createdNow, updatedNow)] + todos;
      forall i, j | 0 <= i < j < |r| ensures IdOf(r[i]) != IdOf(r[j]) {
        if i > 0 {
          assert r[i] == todos[i - 1] && r[j] == todos[j - 1];
        }
      }
    }
  }

  /** A read that throws inside a mutation is seen as an empty list, so a write that then
      succeeds replaces whatever the slot held by the transform of the empty list. */
  lemma FailedReadDiscardsList(slot: Slot, id: string, text: string, now: nat, createdNow: nat, updatedNow: nat)
    ensures Saved(slot, [NewTodo(id, text, createdNow, updatedNow)] + Loaded(slot, Fails), Succeeds) == Holds([NewTodo(id, text, createdNow, updatedNow)])
    ensures Saved(slot, WithText(Loaded(slot, Fails), id, text, now), Succeeds) == Holds([])
    ensures Saved(slot, Toggled(Loaded(slot, Fails), id, now), Succeeds) == Holds([])
    ensures Saved(slot, Deleted(Loaded(slot, Fails), id), Succeeds) == Holds([])
    ensures Saved(slot, Cleared(Loaded(slot, Fails)), Succeeds) == Holds([])
  {
  }

  /** The persisted list behind the `@todos` slot. */
  class TodoStore {
    var slot: Slot

    constructor (initial: Slot)
      ensures slot == initial
    {
      slot := initial;
    }

    /** `loadTodos`. */
    method Load(read: Access) returns (todos: seq<Todo>)
      ensures todos == Loaded(slot, read)
    {
      todos := Loaded(slot, read);
    }

    /** `saveTodos`. */
    method Save(todos: seq<Todo>, write: Access)
      modifies this
      ensures slot == Saved(old(slot), todos, write)
    {
      if write == Succeeds {
        slot := Holds(todos);
      }
    }

    /** `addTodo(text)`: prepends a new record to the loaded list and returns it. */
    method Add(text: string, id: string, createdNow: nat, updatedNow: nat, read: Access, write: Access) returns (t: Todo)
      modifies this
      ensures t == NewTodo(id, text, createdNow, updatedNow)
      ensures t.id == id && t.text == Trim(text) && !t.completed
      ensures t.createdAt == createdNow && t.updatedAt == updatedNow && t.colorId == Some(id)
      ensures slot == Saved(old(slot), [t] + Loaded(old(slot), read), write)
    {
      var todos := Load(read);
      t := NewTodo(id, text, createdNow, updatedNow);
      Save([t] + todos, write);
    }

    /** `updateTodo(id, { text })`. */
    method Update(id: string, text: string, now: nat, read: Access, write: Access)
      modifies this
      ensures slot == Saved(old(slot), WithText(Loaded(old(slot), read), id, text, now), write)
    {
      var todos := Load(read);
      Save(WithText(todos, id, text, now), write);
    }

    /** `deleteTodo(id)`. */
    method Delete(id: string, read: Access, write: Access)
      modifies this
      ensures slot == Saved(old(slot), Deleted(Loaded(old(slot), read), id), write)
    {
      var todos := Load(read);
      Save(Deleted(todos, id), write);
    }

    /** `toggleTodo(id)`. */
    method Toggle(id: string, now: nat, read: Access, write: Access)
      modifies this
      ensures slot == Saved(old(slot), Toggled(Loaded(old(slot), read), id, now), write)
    {
      var todos := Load(read);
      Save(Toggled(todos, id, now), write);
    }

    /** `clearCompleted()`. */
    method ClearCompleted(read: Access, write: Access)
      modifies this
      ensures slot == Saved(old(slot), Cleared(Loaded(old(slot), read)), write)
    {
      var todos := Load(read);
      Save(Cleared(todos), write);
    }
  }
}
