/** One row of the list (components/TodoItem.tsx), reduced to its decision rules: the
    `isEditing`/`editText` state, the callbacks its handlers fire, and the colour key. */
module TodoItem {
  import opened Js
  import opened TodoTypes
  import ColorUtils

  /** `maxLength` of the edit field. */
  const EditMaxLength := 200

  /** A call the row makes to its parent. */
  datatype Callback = OnToggle(id: string) | OnUpdate(id: string, text: string) | OnDelete(id: string)

  /** `todo.colorId || todo.id`: the colour key, falling back to the id when the colour id
      is missing or empty. */
  function ColorKey(t: Todo): (key: string)
    ensures t.colorId.Some? && t.colorId.value != "" ==> key == t.colorId.value
    ensures t.colorId.None? || t.colorId == Some("") ==> key == t.id
    ensures key == t.id || Some(key) == t.colorId
  {
    match t.colorId
    case Some(c) => if c != "" then c else t.id
    case None => t.id
  }

  /** A record made by `addTodo` takes its colour from its own id. */
  lemma NewRecordColorKey(t: Todo)
    requires t.colorId == Some(t.id)
    ensures ColorKey(t) == t.id
  {
  }

  class TodoItemState {
    const todo: Todo
    var isEditing: bool
    var editText: string
    /** The callbacks fired so far, oldest first. */
    var calls: seq<Callback>

    constructor (todo: Todo)
      ensures this.todo == todo && !isEditing && editText == todo.text && calls == []
    {
      this.todo := todo;
      isEditing := false;
      editText := todo.text;
      calls := [];
    }

    /** The colour the row is drawn in. */
    method Color() returns (color: ColorUtils.TodoColor)
      ensures color == ColorUtils.ColorFor(ColorKey(todo))
    {
      color := ColorUtils.GetTodoColorById(ColorKey(todo));
    }

    /** `handleToggle`: fires `onToggle(todo.id)` once and changes no state. */
    method HandleToggle()
      modifies this
      ensures calls == old(calls) + [OnToggle(todo.id)]
      ensures isEditing == old(isEditing) && editText == old(editText)
    {
      calls := calls + [OnToggle(todo.id)];
    }

    /** `handleUpdate`, the commit of an edit: blank text deletes the item and, through the
        early return, stays in edit mode; changed text is sent once and ends editing;
        unchanged text fires nothing and ends editing. */
    method HandleUpdate()
      modifies this
      ensures editText == old(editText)
      ensures Trim(old(editText)) == "" ==> calls == old(calls) + [OnDelete(todo.id)] && isEditing == old(isEditing)
      ensures Trim(old(editText)) != "" && Trim(old(editText)) != todo.text ==>
        calls == old(calls) + [OnUpdate(todo.id, Trim(old(editText)))] && !isEditing
      ensures Trim(old(editText)) != "" && Trim(old(editText)) == todo.text ==> calls == old(calls) && !isEditing
    {
      var trimmed := Trim(editText);
      if trimmed != "" && trimmed != todo.text {
        calls := calls + [OnUpdate(todo.id, trimmed)];
      } else if trimmed == "" {
        calls := calls + [OnDelete(todo.id)];
        return;
      }
      isEditing := false;
    }

    /** `handleStartEdit`. */
    method HandleStartEdit()
      modifies this
      ensures isEditing && editText == todo.text && calls == old(calls)
    {
      isEditing := true;
      editText := todo.text;
    }

    /** `handleCancelEdit`: leaves edit mode, restores the text, fires nothing. */
    method HandleCancelEdit()
      modifies this
      ensures !isEditing && editText == todo.text && calls == old(calls)
    {
      isEditing := false;
      editText := todo.text;
    }

    /** `onChangeText` of the edit field, whose `maxLength` is 200. */
    method ChangeText(typed: string)
      modifies this
      ensures editText == Capped(typed, EditMaxLength) && Length(editText) <= EditMaxLength
      ensures isEditing == old(isEditing) && calls == old(calls)
    {
      editText := Capped(typed, EditMaxLength);
    }
  }
}
