/** The list screen's state (hooks/useTodos.ts): an in-memory mirror of the stored list,
    the status filter, and the id of the record added last. Each callback performs the store
    operation first and applies the same transformation to the mirror once it returns; the
    visible list and the counters are derived from the mirror. */
module UseTodos {
  import opened Js
  import opened Lists
  import opened TodoTypes
  import opened KeyValue
  import opened TodoStorage

  /** The test `filteredTodos` applies to each record. */
  predicate Shows(filter: FilterType, t: Todo)
    ensures Shows(filter, t) <==> match filter
      case All => true
      case Active => !t.completed
      case Completed => t.completed
  {
    !(filter == Active && t.completed) && !(filter == Completed && !t.completed)
  }

  /** `filteredTodos`: the records the current filter lets through, in list order. */
  function FilteredTodos(todos: seq<Todo>, filter: FilterType): (r: seq<Todo>)
    ensures |r| <= |todos|
    ensures forall k :: 0 <= k < |r| ==> Shows(filter, r[k]) && r[k] in todos
  {
    KeepWhere(todos, (t: Todo) => Shows(filter, t))
  }

  /** The three counters of the list screen. */
  datatype Stats = Stats(total: nat, active: nat, completed: nat)

  /** `stats`: counted over the whole list, whatever the filter. */
  function StatsOf(todos: seq<Todo>): (r: Stats)
    ensures r.total == |todos|
    ensures r.total == r.active + r.completed
  {
    KeepWherePartition(todos, IsActive, IsDone);
    Stats(|todos|, |KeepWhere(todos, IsActive)|, |KeepWhere(todos, IsDone)|)
  }

  /** The filter `all` shows the whole list. */
  lemma FilterAllShowsEverything(todos: seq<Todo>)
    ensures FilteredTodos(todos, All) == todos
  {
    KeepWhereAll(todos, (t: Todo) => Shows(All, t));
  }

  /** The filter `active` shows exactly the open records, in list order, each as often as
      it occurs in the list. */
  lemma FilterActiveExact(todos: seq<Todo>)
    ensures FilteredTodos(todos, Active) == KeepWhere(todos, IsActive)
    ensures forall x :: multiset(FilteredTodos(todos, Active))[x] == if x.completed then 0 else multiset(todos)[x]
    ensures IsSubsequence(FilteredTodos(todos, Active), todos)
  {
    KeepWhereExtensional(todos, (t: Todo) => Shows(Active, t), IsActive);
    KeepWhereMultiplicity(todos, IsActive);
    KeepWhereIsSubsequence(todos, IsActive);
  }

  /** The filter `completed` shows exactly the done records, in list order, each as often as
      it occurs in the list. */
  lemma FilterCompletedExact(todos: seq<Todo>)
    ensures FilteredTodos(todos, Completed) == KeepWhere(todos, IsDone)
    ensures forall x :: multiset(FilteredTodos(todos, Completed))[x] == if x.completed then multiset(todos)[x] else 0
    ensures IsSubsequence(FilteredTodos(todos, Completed), todos)
  {
    KeepWhereExtensional(todos, (t: Todo) => Shows(Completed, t), IsDone);
    KeepWhereMultiplicity(todos, IsDone);
    KeepWhereIsSubsequence(todos, IsDone);
  }

  /** The active and the completed view together hold every record of the list, each as
      often as it occurs there. */
  lemma ViewsPartition(todos: seq<Todo>)
    ensures multiset(FilteredTodos(todos, Active)) + multiset(FilteredTodos(todos, Completed)) == multiset(todos)
  {
    FilterActiveExact(todos);
    FilterCompletedExact(todos);
    KeepWherePartition(todos, IsActive, IsDone);
  }

  /** Every record is in exactly one of the active view and the completed view. */
  lemma ViewsExclusive(todos: seq<Todo>)
    ensures forall k :: 0 <= k < |todos| ==>
      (todos[k] in FilteredTodos(todos, Active)) != (todos[k] in FilteredTodos(todos, Completed))
  {
    FilterActiveExact(todos);
    FilterCompletedExact(todos);
    KeepWhereMembers(todos, IsActive);
    KeepWhereMembers(todos, IsDone);
  }

  /** The counters add up, and each equals the length of the matching view. */
  lemma StatsMatchViews(todos: seq<Todo>)
    ensures StatsOf(todos).total == StatsOf(todos).active + StatsOf(todos).completed
    ensures StatsOf(todos).total == |FilteredTodos(todos, All)|
    ensures StatsOf(todos).active == |FilteredTodos(todos, Active)|
    ensures StatsOf(todos).completed == |FilteredTodos(todos, Completed)|
  {
    KeepWherePartition(todos, IsActive, IsDone);
    FilterAllShowsEverything(todos);
    FilterActiveExact(todos);
    FilterCompletedExact(todos);
  }

  /** Filtering commutes with blanking modification times, for tests that ignore them. */
  lemma {:induction false} AgreeKeepWhere(a: seq<Todo>, b: seq<Todo>, keep: Todo -> bool)
    requires Agree(a, b)
    requires forall x :: keep(x) == keep(Unstamped(x))
    ensures Agree(KeepWhere(a, keep), KeepWhere(b, keep))
  {
    if a != [] {
      assert Agree(a[1..], b[1..]) by {
        forall i | 0 <= i < |a| - 1 ensures Unstamped(a[1..][i]) == Unstamped(b[1..][i]) {
          assert a[1..][i] == a[i + 1] && b[1..][i] == b[i + 1];
        }
      }
      AgreeKeepWhere(a[1..], b[1..], keep);
      assert keep(a[0]) == keep(b[0]) by {
        assert Unstamped(a[0]) == Unstamped(b[0]);
      }
      var ra, rb := KeepWhere(a[1..], keep), KeepWhere(b[1..], keep);
      if keep(a[0]) {
        var ha, hb := [a[0]] + ra, [b[0]] + rb;
        forall i | 0 <= i < |ha| ensures Unstamped(ha[i]) == Unstamped(hb[i]) {
          if i > 0 { assert ha[i] == ra[i - 1] && hb[i] == rb[i - 1]; }
        }
      }
    }
  }

  /** The store and the mirror apply the same transformations: lists that agree before an
      operation agree after it, whatever clock readings each side takes. */
  lemma AgreePrepend(a: seq<Todo>, b: seq<Todo>, t: Todo)
    requires Agree(a, b)
    ensures Agree([t] + a, [t] + b)
  {
    var ta, tb := [t] + a, [t] + b;
    forall i | 0 <= i < |ta| ensures Unstamped(ta[i]) == Unstamped(tb[i]) {
      if i > 0 { assert ta[i] == a[i - 1] && tb[i] == b[i - 1]; }
    }
  }

  lemma AgreeWithText(a: seq<Todo>, b: seq<Todo>, id: string, text: string, n1: nat, n2: nat)
    requires Agree(a, b)
    ensures Agree(WithText(a, id, text, n1), WithText(b, id, text, n2))
  {
    forall i | 0 <= i < |a| ensures Unstamped(WithText(a, id, text, n1)[i]) == Unstamped(WithText(b, id, text, n2)[i]) {
      assert Unstamped(a[i]) == Unstamped(b[i]);
    }
  }

  lemma AgreeToggled(a: seq<Todo>, b: seq<Todo>, id: string, n1: nat, n2: nat)
    requires Agree(a, b)
    ensures Agree(Toggled(a, id, n1), Toggled(b, id, n2))
  {
    forall i | 0 <= i < |a| ensures Unstamped(Toggled(a, id, n1)[i]) == Unstamped(Toggled(b, id, n2)[i]) {
      assert Unstamped(a[i]) == Unstamped(b[i]);
    }
  }

  lemma AgreeDeleted(a: seq<Todo>, b: seq<Todo>, id: string)
    requires Agree(a, b)
    ensures Agree(Deleted(a, id), Deleted(b, id))
  {
    AgreeKeepWhere(a, b, (x: Todo) => x.id != id);
  }

  lemma AgreeCleared(a: seq<Todo>, b: seq<Todo>)
    requires Agree(a, b)
    ensures Agree(Cleared(a), Cleared(b))
  {
    AgreeKeepWhere(a, b, IsActive);
  }

  /** The list screen's state. */
  class TodoList {
    const store: TodoStore
    var todos: seq<Todo>
    var filter: FilterType
    var loading: bool
    var newTodoId: Option<string>

    /** The mirror holds what a successful load of the store would return, up to
        modification times. */
    ghost predicate InSync()
      reads this, store
      ensures InSync() ==> |Contents(store.slot)| == |todos|
      ensures InSync() ==> forall k :: 0 <= k < |todos| ==>
        && Contents(store.slot)[k].id == todos[k].id && Contents(store.slot)[k].text == todos[k].text
        && Contents(store.slot)[k].completed == todos[k].completed
    {
      Agree(Contents(store.slot), todos)
    }

    /** The initial state, before the first load. */
    constructor (store: TodoStore)
      ensures this.store == store
      ensures todos == [] && filter == All && loading && newTodoId == None
    {
      this.store := store;
      todos := [];
      filter := All;
      loading := true;
      newTodoId := None;
    }

    /** `loadTodos` (run on mount and as `refreshTodos`): the mirror takes the loaded list. */
    method Refresh(read: Access)
      modifies this
      ensures todos == Loaded(store.slot, read)
      ensures !loading && filter == old(filter) && newTodoId == old(newTodoId)
      ensures read == Succeeds ==> InSync()
    {
      loading := true;
      var loaded := store.Load(read);
      todos := loaded;
      loading := false;
      assert Agree(todos, todos);
    }

    /** `setFilter`. */
    method SetFilter(f: FilterType)
      modifies this
      ensures filter == f
      ensures todos == old(todos) && loading == old(loading) && newTodoId == old(newTodoId)
    {
      filter := f;
    }

    /** `addTodo(text)`: blank text changes nothing; otherwise the record the store returns
        is prepended to the mirror and remembered as the newest. */
    method AddTodo(text: string, id: string, createdNow: nat, updatedNow: nat, read: Access, write: Access)
      modifies this, store
      ensures Trim(text) == "" ==> todos == old(todos) && store.slot == old(store.slot) && newTodoId == old(newTodoId)
      ensures Trim(text) != "" ==>
        && store.slot == Saved(old(store.slot), [NewTodo(id, text, createdNow, updatedNow)] + Loaded(old(store.slot), read), write)
        && todos == [NewTodo(id, text, createdNow, updatedNow)] + old(todos)
        && newTodoId == Some(id)
      ensures filter == old(filter) && loading == old(loading)
      ensures old(InSync()) && read == Succeeds && write == Succeeds ==> InSync()
    {
      if Trim(text) == "" {
        return;
      }
      ghost var before := todos;
      var t := store.Add(text, id, createdNow, updatedNow, read, write);
      todos := [t] + todos;
      newTodoId := Some(t.id);
      if old(InSync()) && read == Succeeds && write == Succeeds {
        AgreePrepend(Contents(old(store.slot)), before, t);
      }
    }

    /** `updateTodo(id, text)`: blank text changes nothing; otherwise store and mirror get
        the new text, each with its own modification time. */
    method UpdateTodo(id: string, text: string, storeNow: nat, now: nat, read: Access, write: Access)
      modifies this, store
      ensures Trim(text) == "" ==> todos == old(todos) && store.slot == old(store.slot)
      ensures Trim(text) != "" ==>
        && store.slot == Saved(old(store.slot), WithText(Loaded(old(store.slot), read), id, text, storeNow), write)
        && todos == WithText(old(todos), id, text, now)
      ensures filter == old(filter) && loading == old(loading) && newTodoId == old(newTodoId)
      ensures old(InSync()) && read == Succeeds && write == Succeeds ==> InSync()
    {
      if Trim(text) == "" {
        return;
      }
      ghost var before := todos;
      store.Update(id, text, storeNow, read, write);
      todos := WithText(todos, id, text, now);
      if old(InSync()) && read == Succeeds && write == Succeeds {
        AgreeWithText(Contents(old(store.slot)), before, id, text, storeNow, now);
      }
    }

    /** `toggleTodo(id)`. */
    method ToggleTodo(id: string, storeNow: nat, now: nat, read: Access, write: Access)
      modifies this, store
      ensures store.slot == Saved(old(store.slot), Toggled(Loaded(old(store.slot), read), id, storeNow), write)
      ensures todos == Toggled(old(todos), id, now)
      ensures filter == old(filter) && loading == old(loading) && newTodoId == old(newTodoId)
      ensures old(InSync()) && read == Succeeds && write == Succeeds ==> InSync()
    {
      ghost var before := todos;
      store.Toggle(id, storeNow, read, write);
      todos := Toggled(todos, id, now);
      if old(InSync()) && read == Succeeds && write == Succeeds {
        AgreeToggled(Contents(old(store.slot)), before, id, storeNow, now);
      }
    }

    /** `deleteTodo(id)`. */
    method DeleteTodo(id: string, read: Access, write: Access)
      modifies this, store
      ensures store.slot == Saved(old(store.slot), Deleted(Loaded(old(store.slot), read), id), write)
      ensures todos == Deleted(old(todos), id)
      ensures filter == old(filter) && loading == old(loading) && newTodoId == old(newTodoId)
      ensures old(InSync()) && read == Succeeds && write == Succeeds ==> InSync()
    {
      ghost var before := todos;
      store.Delete(id, read, write);
      todos := Deleted(todos, id);
      if old(InSync()) && read == Succeeds && write == Succeeds {
        AgreeDeleted(Contents(old(store.slot)), before, id);
      }
    }

    /** `clearCompleted()`. */
    method ClearCompleted(read: Access, write: Access)
      modifies this, store
      ensures store.slot == Saved(old(store.slot), Cleared(Loaded(old(store.slot), read)), write)
      ensures todos == Cleared(old(todos))
      ensures filter == old(filter) && loading == old(loading) && newTodoId == old(newTodoId)
      ensures old(InSync()) && read == Succeeds && write == Succeeds ==> InSync()
    {
      ghost var before := todos;
      store.ClearCompleted(read, write);
      todos := Cleared(todos);
      if old(InSync()) && read == Succeeds && write == Succeeds {
        AgreeCleared(Contents(old(store.slot)), before);
      }
    }
  }
}
