/** The input box above the list (components/AddTodoInput.tsx), reduced to its `text`
    state, the texts it hands to `onAddTodo`, and the conditions that enable its buttons. */
module AddTodoInput {
  import opened Js

  /** `maxLength` of the input. */
  const MaxLength := 200

  class AddTodoInputState {
    var text: string
    /** The arguments of the `onAddTodo` calls made so far, oldest first. */
    var added: seq<string>

    /** The input never holds more than its cap. */
    ghost predicate Valid()
      reads this
    {
      Length(text) <= MaxLength
    }

    constructor ()
      ensures text == "" && added == [] && Valid()
    {
      text := "";
      added := [];
    }

    /** `disabled={!text.trim()}` of the add button: disabled exactly while the text is
        blank. */
    function AddButtonDisabled(): (disabled: bool)
      reads this
      ensures disabled <==> IsBlank(text)
    {
      TrimEmptyIffBlank(text);
      Trim(text) == ""
    }

    /** The clear button is shown while `text.length > 0`. */
    function ClearButtonShown(): (shown: bool)
      reads this
      ensures shown <==> text != ""
    {
      Length(text) > 0
    }

    /** The counter `{text.length}/200`: the length in code units, never above the cap. */
    function CharacterCount(): (count: nat)
      reads this
      requires Valid()
      ensures count == Length(text)
      ensures count <= MaxLength
      ensures count >= |text|
    {
      Length(text)
    }

    /** `onChangeText`, through the `maxLength` cap. */
    method ChangeText(typed: string)
      modifies this
      ensures text == Capped(typed, MaxLength) && added == old(added)
      ensures Valid()
    {
      text := Capped(typed, MaxLength);
    }

    /** `handleSubmit`: blank text does nothing; otherwise the trimmed text is handed to
        `onAddTodo` once and the input is emptied. */
    method HandleSubmit()
      requires Valid()
      modifies this
      ensures IsBlank(old(text)) ==> text == old(text) && added == old(added)
      ensures !IsBlank(old(text)) ==> added == old(added) + [Trim(old(text))] && text == ""
      ensures Valid()
    {
      TrimEmptyIffBlank(text);
      if Trim(text) != "" {
        added := added + [Trim(text)];
        text := "";
      }
    }

    /** `handleClear`: empties the input without adding anything. */
    method HandleClear()
      modifies this
      ensures text == "" && added == old(added)
      ensures Valid()
    {
      text := "";
    }
  }

  /** What the input hands to `onAddTodo` is never blank and never padded. */
  lemma SubmittedTextIsTrimmed(text: string)
    requires !IsBlank(text)
    ensures Trim(text) != "" && Trim(Trim(text)) == Trim(text)
  {
    TrimEmptyIffBlank(text);
    TrimIdempotent(text);
  }
}
