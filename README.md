# Task-list store, modelled in Dafny

This project models the state core of a small client-side to-do page: an ordered list of task records (`id`, `text`, `completed`, `createdAt`) and the operations the page applies to it. New records go at the head of the list. The operations are toggle, remove, clear-completed and edit. Finishing an edit deletes the task on a blank draft, skips an unchanged text and otherwise saves the trimmed draft. The page derives two views: the list filtered by `all` / `active` / `completed`, and the count of remaining tasks. In the source, every mutation is a pure `prev => next` callback built from `map`, `filter` and array spread. The model therefore writes each one as a Dafny function over `seq<Todo>` and proves its laws as lemmas.

Modules:

- `Text` (`text.dfy`): JavaScript's `String.prototype.trim`. `IsSpace` is the exact set of code points trim removes: the ECMAScript WhiteSpace and LineTerminator productions.
- `Lists` (`lists.dfy`): `Filter` and `Map`, the two array combinators, plus `IsSubsequence` to state that order is kept.
- `Todos` (`todos.dfy`): the `Todo` record, the `Filter` selector, the store invariant `WellFormed`, the mutations and the views.
- `TodoLaws` (`todo_laws.dfy`): lemmas relating the operations to each other, to the views and to the invariant.
- `Storage` (`storage.dfy`): the hydration decision of `useLocalTodos`.

The id and the timestamp that `addTodo` draws from `crypto.randomUUID()` and `Date.now()` are parameters of `Add`. The lemma about id uniqueness requires the id to be fresh.

Three behaviours of the code are worth stating plainly, since one might expect otherwise:

- `edit` (app/page.tsx:84-86) neither trims its text nor deletes on a blank one: it stores the text as given. The trimming and the delete-on-blank happen in `TodoItem.finishEdit` (app/page.tsx:150-158). So the model has both `Edit` and `FinishEdit`, and only the latter keeps the invariant for every input.
- A mutation that changes nothing still leads to a storage write. The persist effect runs whenever the list changes identity, and `map` and `filter` always build a new array, so a toggle of a missing id still writes. Persistence is outside the model, so this is only noted here.
- Hydration does not validate what it restores. The code casts the parsed JSON without checking the records (app/page.tsx:24-25). `Storage.HydrateDoesNotValidate` shows that a restored list can break the store invariant.

## Model

| member | source | states |
|---|---|---|
| Text.Trim | app/page.tsx:59 | the trimmed text is the slice of the input after its leading whitespace, with only whitespace cut from its end, and is empty or starts and ends with non-whitespace |
| Text.TrimBlank | app/page.tsx:59-60 | the trimmed text is empty exactly when the input is all whitespace, so `if (!trimmed)` rejects exactly the blank inputs |
| Text.TrimOfTrimmed | app/page.tsx:154 | a non-blank text with no whitespace at either end, the form every stored text has, is its own trim |
| Text.TrimIdempotent | app/page.tsx:151 | trimming twice gives the same as trimming once |
| Todos.Add | app/page.tsx:58-67 | a blank input leaves the list unchanged; otherwise the list is one longer, its tail is the old list, and its head is an uncompleted record with the given id and time and the trimmed, non-blank text |
| Todos.Toggle | app/page.tsx:72-74 | length, order and every id, text and createdAt are kept; `completed` flips exactly on the records whose id matches |
| Todos.Remove | app/page.tsx:76-78 | no record with the id is left; the result is a subsequence of the list and keeps every other record as often as the list had it |
| Todos.ClearCompleted | app/page.tsx:80-82 | no completed record is left; the result is an order-preserving subsequence keeping every active record, and equals the active view |
| Todos.Edit | app/page.tsx:84-86 | length, order and every id, completed flag and createdAt are kept; the text changes to the new text exactly on the records whose id matches |
| Todos.FinishEdit | app/page.tsx:150-158 | a blank draft removes the record's id, a draft trimming to the record's text changes nothing, any other draft edits the record to the trimmed draft |
| Todos.Filtered | app/page.tsx:50-54 | `all` gives the whole list; every view is a subsequence of the list; `active` holds exactly the uncompleted records and `completed` exactly the completed ones, each as often as in the list |
| Todos.Remaining | app/page.tsx:56 | the count equals the length of the active view, and with the completed view's length adds up to the list's length |
| TodoLaws.SubsequenceKeepsWellFormed | app/page.tsx:77 | dropping records from a list with unique ids and trimmed texts keeps both properties |
| TodoLaws.AddPreservesWellFormed | app/page.tsx:58-67 | adding under a fresh id keeps ids unique and every text trimmed and non-blank |
| TodoLaws.TogglePreservesWellFormed | app/page.tsx:72-74 | toggling keeps the store invariant |
| TodoLaws.RemovePreservesWellFormed | app/page.tsx:76-78 | removing keeps the store invariant |
| TodoLaws.ClearCompletedPreservesWellFormed | app/page.tsx:80-82 | clearing completed records keeps the store invariant |
| TodoLaws.EditPreservesWellFormed | app/page.tsx:84-86 | editing to a trimmed, non-blank text keeps the store invariant |
| TodoLaws.FinishEditPreservesWellFormed | app/page.tsx:150-158 | finishing an edit keeps the store invariant whatever the draft |
| TodoLaws.ToggleInvolution | app/page.tsx:73 | toggling the same id twice returns the original list |
| TodoLaws.ToggleAbsent | app/page.tsx:73 | toggling an id no record has leaves the list unchanged |
| TodoLaws.ToggleRemaining | app/page.tsx:72-74 | with unique ids, toggling a present record raises the remaining count by one if it was completed and lowers it by one if it was active |
| TodoLaws.RemoveAbsent | app/page.tsx:77 | removing an id no record has leaves the list unchanged |
| TodoLaws.RemoveIdempotent | app/page.tsx:76-78 | a second remove of the same id changes nothing |
| TodoLaws.RemoveOne | app/page.tsx:76-78 | with unique ids, removing a present id shortens the list by exactly one |
| TodoLaws.ClearCompletedIdempotent | app/page.tsx:81 | clearing completed records twice is the same as clearing once |
| TodoLaws.ClearCompletedNoneCompleted | app/page.tsx:81 | a list with no completed record is unchanged by clearing |
| TodoLaws.ClearCompletedAllRemaining | app/page.tsx:80-82 | after clearing, the remaining count is the whole length of the list |
| TodoLaws.EditSameText | app/page.tsx:85 | editing records to the text they already hold leaves the list unchanged |
| TodoLaws.FinishEditAgreesWithEdit | app/page.tsx:150-158 | when the rendered record is in a list with unique ids, any non-blank draft gives what `edit` with the trimmed draft gives, so skipping unchanged text only saves a write |
| TodoLaws.FinishEditBlankRemovesOne | app/page.tsx:151-153 | a blank draft removes the edited record, and with unique ids the list becomes exactly one shorter and no longer holds its id |
| TodoLaws.AddRemaining | app/page.tsx:56-67 | a non-blank add raises the remaining count by one |
| TodoLaws.ViewsPartition | app/page.tsx:50-54 | the active and completed views together hold every record of the list exactly as often as the list does, and their lengths sum to its length |
| TodoLaws.Session | app/page.tsx:58-86 | adding "Buy milk" then "Walk dog" to an empty list gives them most-recent-first; after toggling "Buy milk" one task remains and the completed view is exactly "Buy milk" |
| Storage.Hydrate | app/page.tsx:20-30 | the store starts from the stored array when the slot held non-empty text that parsed to an array, and from the empty list when the slot was missing, empty, not JSON or not an array |
| Storage.HydrateDoesNotValidate | app/page.tsx:24-25 | a stored array can restore a record with an empty text, which breaks the store invariant, because the parsed value is not checked |

## Left out

- Persistence (app/page.tsx:32-39): `JSON.stringify`, `localStorage.setItem` and the logging of write failures are foreign I/O. So there is no model of the write, and no stringify/parse round trip.
- Parsing and reading the slot (app/page.tsx:22-24): `localStorage.getItem` and `JSON.parse` are foreign. `Storage.Hydrate` takes their outcome as a `Slot` value. The `console.error` on a parse failure is not modelled.
- Storage.Hydrate: array elements that are not well-typed task records (as in `[{}]` or `[1]`) are not representable, because `Parsed.AnArray` holds a `seq<Todo>`; the source casts whatever array `JSON.parse` returns, so such elements reach the store unchecked.
- Effect ordering: the persist effect also runs on the first render, before hydration's state update lands. That is React scheduling and is not modelled.
- `crypto.randomUUID()` and `Date.now()` (app/page.tsx:62, 65) are parameters of `Add`. UUID uniqueness is a precondition of `TodoLaws.AddPreservesWellFormed`, not a proved fact. `Add` itself accepts any id, as the source does.
- Trimming works on Unicode code points. JavaScript strings are UTF-16 code units, but every code point that trim removes lies in the Basic Multilingual Plane, so the two agree on what is removed.
- React state and UI (`useState`, `useMemo`, `useRef`, focus handling, the input and draft boxes, the Escape key that discards a draft, rendering) and all of app/layout.tsx are presentation.
