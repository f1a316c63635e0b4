/** The hydration step of `useLocalTodos`: which list the store starts from,
    given what the storage slot held. Reading the slot and JSON parsing are
    foreign calls; their outcomes are given here as data. */
module Storage {
  import opened Todos

  /** What `JSON.parse` made of the stored text. */
  datatype Parsed =
    | Threw              // the text was not JSON
    | NotAnArray         // JSON, but not an array
    | AnArray(items: seq<Todo>)  // an array whose elements are all well-typed task records

  /** What `localStorage.getItem` returned for the versioned key
      "next-todo-app:v1": nothing, or the stored text with its parse. */
  datatype Slot = Missing | Stored(raw: string, parsed: Parsed)

  /** The list the store holds once hydration has run, starting from the empty
      list `useState` gives: the stored array when the slot held non-empty text
      that parsed to an array, the empty list in every other case. */
  function Hydrate(slot: Slot): (r: seq<Todo>)
    ensures slot.Stored? && slot.raw != [] && slot.parsed.AnArray? ==> r == slot.parsed.items
    ensures !(slot.Stored? && slot.raw != [] && slot.parsed.AnArray?) ==> r == []
  {
    match slot
    case Missing => []
    case Stored(raw, parsed) =>
      if raw == [] then []
      else match parsed
        case AnArray(items) => items
        case _ => []
  }

  /** Hydration does not validate what it restores: a stored array holding a
      well-typed record with an empty text yields a list outside the store's
      invariant. */
  /** The JSON text of one record whose text is empty. */
  const EmptyTextJson: string := "[{\"id\":\"x\",\"text\":\"\",\"completed\":false,\"createdAt\":0}]"

  lemma HydrateDoesNotValidate()
    ensures !WellFormed(Hydrate(Stored(EmptyTextJson, AnArray([Todo("x", "", false, 0)]))))
  {
    var restored := Hydrate(Stored(EmptyTextJson, AnArray([Todo("x", "", false, 0)])));
    assert restored[0].text == "";
  }
}
