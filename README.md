# Mobile-Todo, modelled in Dafny

This project models the logic core of a React Native to-do app:

- the persisted todo list, with its single `@todos` storage slot;
- the list screen's in-memory mirror of that list, its status filter and its counters;
- the colour a todo item is drawn in, picked by a 32-bit rolling hash of its key;
- the decision rules of the add box and of a list row, over their local state;
- the onboarding pager and the completed flag of first-run onboarding.

## How the core is modelled

One Dafny module stands for each source file. Three shared modules sit beside them:

- `Js` holds the JavaScript semantics the code relies on: `trim`, lengths in UTF-16 code units, ToInt32 truncation, the sign of `%`, `Math.abs`, and the `maxLength` cap of a text input.
- `Lists` holds the laws of `Array.prototype.filter`, as the function `KeepWhere` and its lemmas; it stands for no source file.
- `KeyValue` holds the device store (AsyncStorage) as a class over a `map<string, string>`.

Whether a storage call completes or throws is chosen by the environment. Every storage operation therefore takes a parameter `read: Access` or `write: Access` (`Succeeds | Fails`). Each reading of the clock is also a parameter (`now: nat`, in milliseconds; a new record takes two, one per date), and so is the id of a new record. An update or a toggle takes one reading for all the records it changes (see "## Left out").

The store `TodoStorage.TodoStore` is a class with one field, `slot`. Each of its mutations loads the list, applies one list function (`WithText`, `Toggled`, `Deleted`, `Cleared`, or a prepend), and saves. `loadTodos` and `saveTodos` catch every error. Two consequences follow, and both are modelled as written:

- A save that throws leaves the slot as it was.
- A read that throws inside a mutation yields the empty list. A save that then succeeds replaces the stored list by the transform of `[]`. The lemma `FailedReadDiscardsList` states this.

Because nothing in the store ever throws, the `catch` branches in hooks/useTodos.ts cannot run. After every store call the hook applies the same transform to its own list. The convergence invariant `UseTodos.TodoList.InSync` says that the mirror equals the stored list up to modification times. The store and the hook each read their own clock. Every callback keeps the invariant when its read and its write succeed. When a write fails, the mirror moves ahead of the slot, and the model states that state exactly.

## Model

| member | source | states |
|---|---|---|
| Js.IsWhitespace | utils/todoStorage.ts:40 | the definition of the characters `trim` strips: ECMAScript's WhiteSpace and LineTerminator code points, each inside the Basic Multilingual Plane; `Trim` and `TrimEmptyIffBlank` carry its use |
| Js.TrimStart | hooks/useTodos.ts:29 | the result is a suffix of the input, does not start with whitespace, and every dropped character is whitespace |
| Js.TrimEnd | hooks/useTodos.ts:29 | the result is a prefix of the input, does not end with whitespace, and every dropped character is whitespace |
| Js.Trim | utils/todoStorage.ts:40 | `trim`: the result is a contiguous slice of the input that starts after the leading whitespace; every character outside it is whitespace, and neither of its ends is |
| Js.TrimEmptyIffBlank | hooks/useTodos.ts:29 | `!text.trim()` holds exactly when the text is whitespace only |
| Js.TrimIdempotent | components/AddTodoInput.tsx:41 | trimming a trimmed text changes nothing |
| Js.Units | utils/colorUtils.ts:84 | one code unit, the character code, inside the Basic Multilingual Plane; above it a high surrogate in [0xD800, 0xDC00) then a low surrogate in [0xDC00, 0xE000), which decode back to the character |
| Js.CodeUnits | utils/colorUtils.ts:83-84 | a string has at least as many code units as characters, each in [0, 2^16) |
| Js.Length | components/AddTodoInput.tsx:131 | the definition of `s.length` as the number of UTF-16 code units: never less than the number of characters, and zero exactly for the empty string; `CodeUnitsOfBmp` gives its value on Basic Multilingual Plane text |
| Js.CodeUnitsOfBmp | components/AddTodoInput.tsx:131 | for Basic Multilingual Plane text, `length` is the character count and `charCodeAt` is the character code |
| Js.Capped | components/AddTodoInput.tsx:89 | `maxLength`: the kept text is a prefix of what was typed, fits the cap, is all of it when that fits, and is the longest prefix that fits |
| Js.ToInt32 | utils/colorUtils.ts:86 | the result is an int32 congruent to the argument modulo 2^32 |
| Js.ToInt32Congruent | utils/colorUtils.ts:85-86 | arguments congruent modulo 2^32 truncate to the same int32 |
| Js.Abs | utils/colorUtils.ts:88 | `Math.abs` is the argument or its negation, never negative |
| Js.Remainder | utils/colorUtils.ts:77 | JavaScript `%`: the magnitude is `abs(a) mod n` and the sign follows the dividend |
| Lists.KeepWhere | hooks/useTodos.ts:86-92 | `filter`: the result is no longer than the input, and every kept element passes the test and comes from the input |
| Lists.KeepWhereIsSubsequence | hooks/useTodos.ts:86-92 | what `filter` keeps is an order-preserving subsequence of its input |
| Lists.KeepWhereMultiplicity | hooks/useTodos.ts:86-92 | each passing element is kept as often as it occurs, and each failing one is dropped |
| Lists.KeepWhereMembers | hooks/useTodos.ts:86-92 | an element is in the result exactly when it is in the input and passes the test |
| Lists.KeepWhereAll | hooks/useTodos.ts:86-92 | the filter changes nothing exactly when every element passes, and the same length means the same list |
| Lists.KeepWhereIdempotent | utils/todoStorage.ts:80 | filtering twice with the same test is filtering once |
| Lists.KeepWhereExtensional | hooks/useTodos.ts:88-89 | two tests that agree on every element filter alike |
| Lists.KeepWherePartition | hooks/useTodos.ts:96-97 | a test and its negation split the list: the multisets add up to the input's, and so do the lengths |
| Lists.KeepWhereKeepsDistinctKeys | utils/todoStorage.ts:64 | filtering cannot make two elements share a key |
| TodoTypes.IsActive | utils/todoStorage.ts:80 | the definition of the test `!todo.completed`, which holds exactly when `IsDone` does not; `ClearedExact` and `StatsMatchViews` carry its use |
| TodoTypes.IsDone | hooks/useTodos.ts:97 | the definition of the test `todo.completed`: a record is done exactly when marking it done changes nothing; `FilterCompletedExact` and `StatsMatchViews` carry its use |
| TodoStorage.Contents | utils/todoStorage.ts:9-19 | an absent or unparsable slot reads as the empty list, and a stored list reads as itself |
| TodoStorage.Loaded | utils/todoStorage.ts:7-24 | `loadTodos` gives the stored list when the read succeeds and the slot holds one; otherwise it gives the empty list, and it never throws |
| TodoStorage.Saved | utils/todoStorage.ts:26-33 | `saveTodos` puts the list in the slot on success, and on failure leaves the slot as it was |
| TodoStorage.WithText | utils/todoStorage.ts:52-60 | the length and order are kept; matching records get the new text and time and keep id, completed, createdAt and colorId; every other record is unchanged |
| TodoStorage.Toggled | utils/todoStorage.ts:68-76 | the length and order are kept; on matching records the flag flips and the time is set, with every other field kept; every other record is unchanged |
| TodoStorage.NewTodo | utils/todoStorage.ts:38-45 | the definition of the new record: the given id, the trimmed text, not completed, the two dates from the two clock readings, and colorId == id; `NewTodoText` gives its text's properties |
| TodoStorage.Deleted | utils/todoStorage.ts:64 | the definition of delete's filter: no kept record has the id, and every kept record comes from the list; `DeletedExact` gives multiplicity and order |
| TodoStorage.Cleared | utils/todoStorage.ts:80 | the definition of clear's filter: no kept record is completed, and every kept record comes from the list; `ClearedExact` gives multiplicity, order and idempotence |
| TodoStorage.SaveThenLoad | utils/todoStorage.ts:7-33 | a successful save followed by a successful load gives back the saved list |
| TodoStorage.AddKeepsBlankText | utils/todoStorage.ts:35-48 | add does not reject blank text: it stores it as "" |
| TodoStorage.NewTodoText | utils/todoStorage.ts:40 | the new record's text is empty exactly for blank input, and is already trimmed |
| TodoStorage.DeletedExact | utils/todoStorage.ts:62-66 | after delete the id is absent, records with another id keep their multiplicity, and the order is kept |
| TodoStorage.ClearedExact | utils/todoStorage.ts:78-82 | no completed record is left, open records keep their multiplicity and order, and a second clear changes nothing |
| TodoStorage.AbsentIdChangesNothing | utils/todoStorage.ts:52-76 | update, toggle and delete with an id no record has leave the list unchanged |
| TodoStorage.ToggleTwice | utils/todoStorage.ts:68-76 | toggling twice restores every completion flag and every field except updatedAt |
| TodoStorage.MutationsKeepIdsUnique | utils/todoStorage.ts:35-82 | with distinct ids before, and a fresh id for a new record, the ids are distinct after every mutation |
| TodoStorage.FailedReadDiscardsList | utils/todoStorage.ts:20-23 | a read that throws inside a mutation, followed by a successful write, leaves only the transform of the empty list in the slot |
| TodoStorage.TodoStore.Load | utils/todoStorage.ts:7-24 | `loadTodos` returns what `Loaded` gives for the current slot |
| TodoStorage.TodoStore.Save | utils/todoStorage.ts:26-33 | the slot becomes what `Saved` gives |
| TodoStorage.TodoStore.Add | utils/todoStorage.ts:35-50 | the returned record has the trimmed text, is not completed, takes createdAt and updatedAt from the two clock readings and has colorId == id; the slot is saved with that record in front of the loaded list |
| TodoStorage.TodoStore.Update | utils/todoStorage.ts:52-60 | the slot is saved with `WithText` of the loaded list |
| TodoStorage.TodoStore.Delete | utils/todoStorage.ts:62-66 | the slot is saved with `Deleted` of the loaded list |
| TodoStorage.TodoStore.Toggle | utils/todoStorage.ts:68-76 | the slot is saved with `Toggled` of the loaded list |
| TodoStorage.TodoStore.ClearCompleted | utils/todoStorage.ts:78-82 | the slot is saved with `Cleared` of the loaded list |
| UseTodos.Shows | hooks/useTodos.ts:86-92 | the filter test: `all` shows every record, `active` the open ones, `completed` the done ones |
| UseTodos.FilteredTodos | hooks/useTodos.ts:86-92 | the definition of `filteredTodos`: every shown record passes the filter and comes from the list; the `Filter*Exact` lemmas give exactly which records |
| UseTodos.StatsOf | hooks/useTodos.ts:94-98 | total is the list length and equals active + completed; `StatsMatchViews` ties the counters to the views |
| UseTodos.FilterAllShowsEverything | hooks/useTodos.ts:86-92 | the filter `all` shows the whole list |
| UseTodos.FilterActiveExact | hooks/useTodos.ts:86-92 | the filter `active` shows exactly the open records, with their multiplicity, in list order |
| UseTodos.FilterCompletedExact | hooks/useTodos.ts:86-92 | the filter `completed` shows exactly the done records, with their multiplicity, in list order |
| UseTodos.ViewsPartition | hooks/useTodos.ts:88-89 | the active view and the completed view together are the list, each record as often as it occurs |
| UseTodos.ViewsExclusive | hooks/useTodos.ts:88-89 | each record is in exactly one of the active and the completed view |
| UseTodos.StatsMatchViews | hooks/useTodos.ts:94-98 | total == active + completed, and each counter is the length of the matching view, whatever the current filter |
| UseTodos.AgreeKeepWhere | hooks/useTodos.ts:70 | a filter that ignores modification times keeps lists that agree in agreement |
| UseTodos.AgreePrepend | hooks/useTodos.ts:33 | prepending the same record keeps two agreeing lists in agreement |
| UseTodos.AgreeWithText | hooks/useTodos.ts:48-49 | the hook's text update and the store's keep agreeing lists in agreement, whatever clock each reads |
| UseTodos.AgreeToggled | hooks/useTodos.ts:59-61 | the hook's toggle and the store's keep agreeing lists in agreement, whatever clock each reads |
| UseTodos.AgreeDeleted | hooks/useTodos.ts:70 | the hook's delete and the store's keep agreeing lists in agreement |
| UseTodos.AgreeCleared | hooks/useTodos.ts:79 | the hook's clear and the store's keep agreeing lists in agreement |
| UseTodos.TodoList.InSync | hooks/useTodos.ts:31-83 | the convergence invariant: the mirror and the stored list agree record by record except for modification times, so ids, texts and completion flags match |
| UseTodos.TodoList.constructor | hooks/useTodos.ts:6-9 | the initial state: an empty list, the filter `all`, loading, and no new id |
| UseTodos.TodoList.Refresh | hooks/useTodos.ts:16-26 | the mirror takes the loaded list, loading ends, and a successful read leaves the mirror in step with the slot |
| UseTodos.TodoList.SetFilter | hooks/useTodos.ts:7 | only the filter changes |
| UseTodos.TodoList.AddTodo | hooks/useTodos.ts:28-41 | blank text changes neither the store nor the mirror; otherwise the store's new record is prepended to the mirror and becomes `newTodoId`; the mirror stays in step with the slot |
| UseTodos.TodoList.UpdateTodo | hooks/useTodos.ts:43-54 | blank text changes nothing; otherwise store and mirror both apply the text update and stay in step |
| UseTodos.TodoList.ToggleTodo | hooks/useTodos.ts:56-65 | store and mirror both toggle the record and stay in step |
| UseTodos.TodoList.DeleteTodo | hooks/useTodos.ts:67-74 | store and mirror both drop the id and stay in step |
| UseTodos.TodoList.ClearCompleted | hooks/useTodos.ts:76-83 | store and mirror both drop the completed records and stay in step |
| ColorUtils.PaletteHasTenColors | utils/colorUtils.ts:8-69 | the palette has ten entries, no two alike |
| ColorUtils.ColorByIndex | utils/colorUtils.ts:76-78 | a non-negative index picks `todoColors[index % 10]`; a multiple of 10, negative ones included (`-0` reads position 0), picks the first entry; any other negative index finds no entry |
| ColorUtils.HashStep | utils/colorUtils.ts:85-86 | one round of shift, subtract, add and `&` is `h * 31 + c` truncated to int32 |
| ColorUtils.HashOf | utils/colorUtils.ts:82-87 | the hash after the loop has consumed the units is the int32 truncation of the untruncated polynomial hash in base 31 |
| ColorUtils.PaletteIndex | utils/colorUtils.ts:88 | the index `abs(hash) % 10` lies in [0, 10) |
| ColorUtils.ColorFor | utils/colorUtils.ts:80-89 | the colour of a key is the palette entry at `abs(int32(polynomial hash)) % 10` |
| ColorUtils.SmallestHashIndex | utils/colorUtils.ts:88 | for hash -2^31, whose absolute value leaves int32, the index is 8 |
| ColorUtils.EmptyKeyColor | utils/colorUtils.ts:82-89 | the empty id hashes to 0 and picks the first palette entry |
| ColorUtils.HashExamples | utils/colorUtils.ts:82-87 | "a" hashes to 97 and "ab" to 97 * 31 + 98 |
| ColorUtils.GetTodoColorById | utils/colorUtils.ts:80-90 | the loop picks `todoColors[abs(int32(polynomial hash)) % 10]`, which depends on the id alone |
| TodoItem.ColorKey | components/TodoItem.tsx:46 | the colour id when it is a non-empty string, otherwise the id |
| TodoItem.NewRecordColorKey | utils/todoStorage.ts:44 | a record made by add takes its colour from its own id |
| TodoItem.TodoItemState.constructor | components/TodoItem.tsx:37-38 | not editing, the edit text is the record's text, and no callback has fired |
| TodoItem.TodoItemState.Color | components/TodoItem.tsx:46 | the row's colour is the hash colour of its colour key |
| TodoItem.TodoItemState.HandleToggle | components/TodoItem.tsx:121-137 | fires `onToggle(todo.id)` once and changes no state |
| TodoItem.TodoItemState.HandleUpdate | components/TodoItem.tsx:139-150 | blank text fires `onDelete` and stays in edit mode; changed text fires `onUpdate` with the trimmed text and ends editing; unchanged text fires nothing and ends editing |
| TodoItem.TodoItemState.HandleStartEdit | components/TodoItem.tsx:167-170 | editing starts from the record's text, and nothing fires |
| TodoItem.TodoItemState.HandleCancelEdit | components/TodoItem.tsx:172-176 | editing ends, the text is restored, and nothing fires |
| TodoItem.TodoItemState.ChangeText | components/TodoItem.tsx:240-249 | the edit text becomes what was typed, capped at 200 code units |
| AddTodoInput.AddTodoInputState.constructor | components/AddTodoInput.tsx:17 | the box starts empty, with nothing added |
| AddTodoInput.AddTodoInputState.AddButtonDisabled | components/AddTodoInput.tsx:112 | the add button is disabled exactly while the text is blank |
| AddTodoInput.AddTodoInputState.ClearButtonShown | components/AddTodoInput.tsx:97 | the clear button shows exactly while the text is non-empty |
| AddTodoInput.AddTodoInputState.CharacterCount | components/AddTodoInput.tsx:131 | the counter is `text.length` in code units, never above 200 and never below the character count |
| AddTodoInput.AddTodoInputState.ChangeText | components/AddTodoInput.tsx:85-89 | the text becomes what was typed, capped at 200 code units |
| AddTodoInput.AddTodoInputState.HandleSubmit | components/AddTodoInput.tsx:23-46 | blank text changes nothing; otherwise `onAddTodo` gets the trimmed text once and the box is emptied |
| AddTodoInput.AddTodoInputState.HandleClear | components/AddTodoInput.tsx:66-69 | the box is emptied and nothing is added |
| AddTodoInput.SubmittedTextIsTrimmed | components/AddTodoInput.tsx:41 | what is handed to `onAddTodo` is neither blank nor padded |
| Onboarding.FirstViewable | components/Onboarding.tsx:101 | the first reported index, or 0 when it is missing or zero |
| Onboarding.IsLast | components/Onboarding.tsx:113 | among the four pages, a page is last exactly when it is the fourth, index 3 |
| Onboarding.OnboardingState.constructor | components/Onboarding.tsx:68 | the pager starts on the first page, with nothing completed |
| Onboarding.OnboardingState.CompleteOnboarding | components/Onboarding.tsx:89-97 | the key is set to "true" when the write succeeds, and `onComplete` fires exactly once either way |
| Onboarding.OnboardingState.HandleNext | components/Onboarding.tsx:72-83 | before the last page it moves on by exactly one; on the last page it completes and stays; the index stays on a page |
| Onboarding.OnboardingState.HandleSkip | components/Onboarding.tsx:85-87 | skip completes from any page and keeps the index |
| Onboarding.OnboardingState.OnViewableItemsChanged | components/Onboarding.tsx:99-103 | a non-empty report moves to its first index, or to 0 when that is missing; an empty report changes nothing |
| Onboarding.PressNext | components/Onboarding.tsx:72-97 | from the first page, repeated next walks the pages one by one, never leaves them, and completes once per press on the last page; the completed key holds "true" after a successful write on the last page, and the entries are unchanged otherwise |
| UseOnboarding.CheckedFlag | hooks/useOnboarding.ts:14-19 | the flag is true exactly when the read succeeds and the key holds "true"; a read error gives false |
| UseOnboarding.CheckAfterCompleteAndReset | hooks/useOnboarding.ts:14-16 | a check after a successful complete gives true; after a successful reset, false; any other stored value gives false |
| UseOnboarding.OnboardingStatus.constructor | hooks/useOnboarding.ts:5-6 | the flag starts unknown (`null`) and loading |
| UseOnboarding.OnboardingStatus.CheckOnboardingStatus | hooks/useOnboarding.ts:12-23 | the flag becomes `CheckedFlag` of the store, and loading ends on every path |
| UseOnboarding.OnboardingStatus.CompleteOnboarding | hooks/useOnboarding.ts:25-32 | on a successful write the key holds "true" and the flag is true; on a failed write nothing changes |
| UseOnboarding.OnboardingStatus.ResetOnboarding | hooks/useOnboarding.ts:34-41 | on a successful remove the key is gone and the flag is false; on a failed remove nothing changes |
| KeyValue.Lookup | hooks/useOnboarding.ts:14 | `getItem` gives the key's value, or `null` when the key is absent |
| KeyValue.KeyValueStore.GetItem | hooks/useOnboarding.ts:14 | a failed read throws; a successful one gives `Lookup` of the entries |
| KeyValue.KeyValueStore.SetItem | hooks/useOnboarding.ts:27 | on success the key holds the value; on failure nothing changes |
| KeyValue.KeyValueStore.RemoveItem | hooks/useOnboarding.ts:36 | on success the key is gone; on failure nothing changes |

## Left out

- Rendering, styles, animations, `Keyboard`, scrolling and focus calls: they do not affect state. components/OnboardingScreen.tsx, components/LoadingScreen.tsx, components/EmptyState.tsx, components/SearchBar.tsx, components/TodoFilters.tsx, app/index.tsx, app/settings.tsx and app/_layout.tsx are presentation and navigation only, and are not part of this model.
- Timers: the 600 ms reset of `newTodoId` (hooks/useTodos.ts:37) and the splash timer are clock-driven, so `newTodoId` is only ever set.
- Navigation (`router`, `Stack`): it is outside the app's state.
- The delete confirmation dialog (components/TodoItem.tsx:152-165) is a foreign UI call; the model has only the `onDelete` that results from it.
- JSON serialisation and `Date` parsing (utils/todoStorage.ts:11-17, 28): the slot holds the list itself, or `Malformed` for text that `JSON.parse` rejects or whose value is not an array. Dates are `nat` timestamps. A stored array whose elements are not records (such as `[1]`) loads without throwing as records with no id and no text; such an array is not representable in the model.
- Id generation from `Date.now()` and `Math.random()` (utils/todoStorage.ts:37): the id is a parameter. It is not guaranteed unique, so `TodoStorage.MutationsKeepIdsUnique` takes its freshness as a precondition.
- `getRandomTodoColor` (utils/colorUtils.ts:71-74): it is random.
- Interleaving of concurrent asynchronous calls: each call is modelled as atomic, so lost updates between overlapping load-and-save sequences are not captured.
- Search filtering: app/index.tsx expects `searchQuery` from the hook, but hooks/useTodos.ts defines none, so no search exists to model.
- The scripts generate-icons.js and clear-onboarding.js: one prints, the other is a single storage call.
- TodoStorage.TodoStore.Update: only a text update is modelled, because the only caller passes `{ text }`. A general `Partial<Todo>` merge could also overwrite other fields.
- Js.Capped: `typed` is the text with the newly typed or pasted fragment at its end. A native input cuts an inserted fragment itself at the cursor, so an insertion in the middle of the text (which keeps the old text whole and drops the end of the fragment) is not modelled.
- TodoStorage.WithText: `map` evaluates `new Date()` once per matching record (utils/todoStorage.ts:56, 72; hooks/useTodos.ts:49, 61), but `WithText` and `Toggled` give every matching record the same `now`. This is exact only when at most one record has the id, which `MutationsKeepIdsUnique` keeps for lists built by the store from fresh ids.
- ColorUtils.ColorByIndex: the index is an integer; fractional indices, which read `undefined`, are not modelled.
- UseTodos.TodoList: the hook's `catch` branches are not modelled, because the store never throws. Its `console` output is also left out.
- UseTodos.TodoList.InSync: modification times are ignored, because store and hook read separate clocks. The model does not state that `updatedAt >= createdAt`, because the clocks are parameters with no ordering.
- TodoItem.TodoItemState: the `todo` prop is held constant; a re-render with a new record is not modelled.
- Onboarding.OnboardingState: the `onComplete` callback is counted rather than modelled; what the parent does with it is outside this component.
- Onboarding.OnboardingState.OnViewableItemsChanged: it requires that the list reports only indices of its own four pages.
- Logging through `console` is left out everywhere.
