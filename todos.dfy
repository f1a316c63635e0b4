/** The task-list store: an ordered list of task records, the mutations the
    page applies to it (each a function from the previous list to the next),
    and the derived views it renders. */
module Todos {
  import opened Text
  import Lists

  /** One task. `id` comes from a UUID generator and `createdAt` from the
      clock; both are supplied by the caller of `Add`. */
  datatype Todo = Todo(id: string, text: string, completed: bool, createdAt: int)

  /** The view selector of the page's filter buttons. */
  datatype Filter = All | Active | Completed

  predicate HasId(s: seq<Todo>, id: string) {
    exists i :: 0 <= i < |s| && s[i].id == id
  }

  /** No two records share an id. */
  predicate UniqueIds(s: seq<Todo>) {
    forall i, j :: 0 <= i < j < |s| ==> s[i].id != s[j].id
  }

  /** The store's invariant: ids are unique and every text is non-blank and
      trimmed, as `Add` and `FinishEdit` leave it. */
  predicate WellFormed(s: seq<Todo>) {
    UniqueIds(s) && forall i :: 0 <= i < |s| ==> IsTrimmed(s[i].text)
  }

  predicate IsActive(t: Todo) {
    !t.completed
  }

  predicate IsCompleted(t: Todo) {
    t.completed
  }

  /** The `filter` callback of `remove`. */
  function HasOtherId(id: string): Todo -> bool {
    (t: Todo) => t.id != id
  }

  /** The `map` callback of `toggle`. */
  function Flip(id: string): Todo -> Todo {
    (t: Todo) => if t.id == id then t.(completed := !t.completed) else t
  }

  /** The `map` callback of `edit`. */
  function Retext(id: string, text: string): Todo -> Todo {
    (t: Todo) => if t.id == id then t.(text := text) else t
  }

  // ---------------------------------------------------------------------
  // Mutations
  // ---------------------------------------------------------------------

  /** `addTodo`: a blank input leaves the list alone; anything else puts a new,
      uncompleted record holding the trimmed text at the head of the list. */
  function Add(s: seq<Todo>, raw: string, id: string, now: int): (r: seq<Todo>)
    ensures AllSpace(raw) ==> r == s
    ensures !AllSpace(raw) ==>
      && |r| == |s| + 1 && r[1..] == s
      && r[0] == Todo(id, Trim(raw), false, now)
      && IsTrimmed(r[0].text)
  {
    TrimBlank(raw);
    var trimmed := Trim(raw);
    if trimmed == [] then s else [Todo(id, trimmed, false, now)] + s
  }

  /** `toggle`: same records in the same places, with `completed` flipped on
      exactly those whose id matches. */
  function Toggle(s: seq<Todo>, id: string): (r: seq<Todo>)
    ensures |r| == |s|
    ensures forall i :: 0 <= i < |s| ==>
      && r[i].id == s[i].id && r[i].text == s[i].text && r[i].createdAt == s[i].createdAt
      && (r[i].completed <==> (s[i].completed != (s[i].id == id)))
  {
    Lists.Map(Flip(id), s)
  }

  /** `remove`: no record with `id` survives, and every other record is kept,
      in its original relative order. */
  function Remove(s: seq<Todo>, id: string): (r: seq<Todo>)
    ensures !HasId(r, id)
    ensures Lists.IsSubsequence(r, s)
    ensures forall t :: multiset(r)[t] == if t.id == id then 0 else multiset(s)[t]
  {
    Lists.FilterIsSubsequence(HasOtherId(id), s);
    Lists.Filter(HasOtherId(id), s)
  }

  /** `clearCompleted`: no completed record survives, every active record is
      kept in order; the result is the "active" view. */
  function ClearCompleted(s: seq<Todo>): (r: seq<Todo>)
    ensures forall i :: 0 <= i < |r| ==> !r[i].completed
    ensures Lists.IsSubsequence(r, s)
    ensures forall t :: multiset(r)[t] == if t.completed then 0 else multiset(s)[t]
    ensures r == Filtered(s, Active)
  {
    Lists.FilterIsSubsequence(IsActive, s);
    Lists.Filter(IsActive, s)
  }

  /** `edit`: same records in the same places, with the text of exactly those
      whose id matches replaced by `text` (taken as given, not trimmed). */
  function Edit(s: seq<Todo>, id: string, text: string): (r: seq<Todo>)
    ensures |r| == |s|
    ensures forall i :: 0 <= i < |s| ==>
      && r[i].id == s[i].id && r[i].completed == s[i].completed && r[i].createdAt == s[i].createdAt
      && r[i].text == (if s[i].id == id then text else s[i].text)
  {
    Lists.Map(Retext(id, text), s)
  }

  /** `TodoItem.finishEdit` for the rendered record `todo` and the edit box's
      `draft`: a blank draft deletes the record, a draft that trims to the
      current text changes nothing, any other draft replaces the text with
      its trimmed form. */
  function FinishEdit(s: seq<Todo>, todo: Todo, draft: string): (r: seq<Todo>)
    ensures AllSpace(draft) ==> r == Remove(s, todo.id)
    ensures !AllSpace(draft) && Trim(draft) == todo.text ==> r == s
    ensures !AllSpace(draft) && Trim(draft) != todo.text ==> r == Edit(s, todo.id, Trim(draft))
  {
    TrimBlank(draft);
    var trimmed := Trim(draft);
    if trimmed == [] then Remove(s, todo.id)
    else if trimmed != todo.text then Edit(s, todo.id, trimmed)
    else s
  }

  // ---------------------------------------------------------------------
  // Derived views
  // ---------------------------------------------------------------------

  /** The `filtered` memo: the whole list for `all`, otherwise the records of
      the chosen completion state, each as often as in the list, in order. */
  function Filtered(s: seq<Todo>, f: Filter): (r: seq<Todo>)
    ensures f == All ==> r == s
    ensures Lists.IsSubsequence(r, s)
    ensures f == Active ==> forall t :: multiset(r)[t] == if t.completed then 0 else multiset(s)[t]
    ensures f == Completed ==> forall t :: multiset(r)[t] == if t.completed then multiset(s)[t] else 0
  {
    match f
    case All =>
      Lists.SubsequenceOfSelf(s);
      s
    case Active =>
      Lists.FilterIsSubsequence(IsActive, s);
      Lists.Filter(IsActive, s)
    case Completed =>
      Lists.FilterIsSubsequence(IsCompleted, s);
      Lists.Filter(IsCompleted, s)
  }

  /** The `remaining` memo: how many records are not completed. */
  function Remaining(s: seq<Todo>): (n: nat)
    ensures n == |Filtered(s, Active)|
    ensures n + |Filtered(s, Completed)| == |s|
  {
    Lists.FilterPartition(IsActive, IsCompleted, s);
    |Lists.Filter(IsActive, s)|
  }
}
