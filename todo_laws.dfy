/** Laws of the task-list store: how the mutations relate to each other, to
    the derived views, and to the store's invariant. */
module TodoLaws {
  import opened Text
  import Lists
  import opened Todos

  // ---------------------------------------------------------------------
  // The invariant is kept by every mutation
  // ---------------------------------------------------------------------

  /** Dropping records from a well-formed list keeps it well-formed. */
  lemma {:induction false} SubsequenceKeepsWellFormed(a: seq<Todo>, b: seq<Todo>)
    requires Lists.IsSubsequence(a, b) && WellFormed(b)
    ensures WellFormed(a)
    decreases |b|
  {
    if a != [] {
      assert WellFormed(b[1..]) by {
        forall i | 0 <= i < |b| - 1 ensures IsTrimmed(b[1..][i].text) {
          assert b[1..][i] == b[i + 1];
        }
      }
      if a[0] == b[0] && Lists.IsSubsequence(a[1..], b[1..]) {
        SubsequenceKeepsWellFormed(a[1..], b[1..]);
        Lists.SubsequenceMembers(a[1..], b[1..]);
        forall j | 0 < j < |a| ensures a[0].id != a[j].id {
          assert a[1..][j - 1] in b[1..];
          var k :| 0 <= k < |b| - 1 && b[1..][k] == a[j];
          assert b[k + 1] == a[j];
        }
      } else {
        SubsequenceKeepsWellFormed(a, b[1..]);
      }
    }
  }

  /** Adding under an id the list does not hold keeps the list well-formed. */
  lemma AddPreservesWellFormed(s: seq<Todo>, raw: string, id: string, now: int)
    requires WellFormed(s) && !HasId(s, id)
    ensures WellFormed(Add(s, raw, id, now))
  {
    var r := Add(s, raw, id, now);
    if !AllSpace(raw) {
      forall i, j | 0 <= i < j < |r| ensures r[i].id != r[j].id {
        if i == 0 {
          assert r[j] == s[j - 1];
        } else {
          assert r[i] == s[i - 1] && r[j] == s[j - 1];
        }
      }
      forall i | 0 < i < |r| ensures IsTrimmed(r[i].text) {
        assert r[i] == s[i - 1];
      }
    }
  }

  lemma TogglePreservesWellFormed(s: seq<Todo>, id: string)
    requires WellFormed(s)
    ensures WellFormed(Toggle(s, id))
  {
  }

  lemma RemovePreservesWellFormed(s: seq<Todo>, id: string)
    requires WellFormed(s)
    ensures WellFormed(Remove(s, id))
  {
    SubsequenceKeepsWellFormed(Remove(s, id), s);
  }

  lemma ClearCompletedPreservesWellFormed(s: seq<Todo>)
    requires WellFormed(s)
    ensures WellFormed(ClearCompleted(s))
  {
    SubsequenceKeepsWellFormed(ClearCompleted(s), s);
  }

  /** `edit` keeps the invariant when handed a trimmed, non-blank text. */
  lemma EditPreservesWellFormed(s: seq<Todo>, id: string, text: string)
    requires WellFormed(s) && IsTrimmed(text)
    ensures WellFormed(Edit(s, id, text))
  {
  }

  /** Whatever the draft, finishing an edit keeps the invariant. */
  lemma FinishEditPreservesWellFormed(s: seq<Todo>, todo: Todo, draft: string)
    requires WellFormed(s)
    ensures WellFormed(FinishEdit(s, todo, draft))
  {
    if AllSpace(draft) {
      RemovePreservesWellFormed(s, todo.id);
    } else {
      TrimBlank(draft);
      EditPreservesWellFormed(s, todo.id, Trim(draft));
    }
  }

  // ---------------------------------------------------------------------
  // Toggle
  // ---------------------------------------------------------------------

  /** Toggling the same id twice restores the list. */
  lemma ToggleInvolution(s: seq<Todo>, id: string)
    ensures Toggle(Toggle(s, id), id) == s
  {
  }

  /** Toggling an id the list does not hold changes nothing. */
  lemma ToggleAbsent(s: seq<Todo>, id: string)
    requires !HasId(s, id)
    ensures Toggle(s, id) == s
  {
  }

  /** With unique ids, toggling the record at `k` moves it between the views:
      one more remaining if it was completed, one fewer if it was active. */
  lemma {:induction false} ToggleRemaining(s: seq<Todo>, id: string, k: nat)
    requires UniqueIds(s) && k < |s| && s[k].id == id
    ensures Remaining(Toggle(s, id)) == if s[k].completed then Remaining(s) + 1 else Remaining(s) - 1
    decreases |s|
  {
    var r := Toggle(s, id);
    assert s == [s[0]] + s[1..];
    assert r == [r[0]] + r[1..];
    assert r[1..] == Toggle(s[1..], id);
    if k == 0 {
      ToggleAbsent(s[1..], id);
    } else {
      ToggleRemaining(s[1..], id, k - 1);
    }
  }

  // ---------------------------------------------------------------------
  // Remove
  // ---------------------------------------------------------------------

  /** Removing an id the list does not hold changes nothing. */
  lemma RemoveAbsent(s: seq<Todo>, id: string)
    requires !HasId(s, id)
    ensures Remove(s, id) == s
  {
    Lists.FilterAllPass(HasOtherId(id), s);
  }

  /** A second `remove` of the same id is a no-op. */
  lemma RemoveIdempotent(s: seq<Todo>, id: string)
    ensures Remove(Remove(s, id), id) == Remove(s, id)
  {
    RemoveAbsent(Remove(s, id), id);
  }

  /** With unique ids, removing a present id takes exactly one record away. */
  lemma {:induction false} RemoveOne(s: seq<Todo>, id: string)
    requires UniqueIds(s) && HasId(s, id)
    ensures |Remove(s, id)| == |s| - 1
    decreases |s|
  {
    assert s == [s[0]] + s[1..];
    if s[0].id == id {
      RemoveAbsent(s[1..], id);
    } else {
      RemoveOne(s[1..], id);
    }
  }

  // ---------------------------------------------------------------------
  // Clear completed
  // ---------------------------------------------------------------------

  /** Clearing twice is clearing once. */
  lemma ClearCompletedIdempotent(s: seq<Todo>)
    ensures ClearCompleted(ClearCompleted(s)) == ClearCompleted(s)
  {
    Lists.FilterIdempotent(IsActive, s);
  }

  /** A list with no completed records is left as it is. */
  lemma ClearCompletedNoneCompleted(s: seq<Todo>)
    requires forall i :: 0 <= i < |s| ==> !s[i].completed
    ensures ClearCompleted(s) == s
  {
    Lists.FilterAllPass(IsActive, s);
  }

  /** After clearing, every record left is counted as remaining. */
  lemma ClearCompletedAllRemaining(s: seq<Todo>)
    ensures Remaining(ClearCompleted(s)) == |ClearCompleted(s)|
  {
    Lists.FilterAllPass(IsActive, ClearCompleted(s));
  }

  // ---------------------------------------------------------------------
  // Edit and finishEdit
  // ---------------------------------------------------------------------

  /** Editing a record to the text it already has changes nothing. */
  lemma EditSameText(s: seq<Todo>, id: string, text: string)
    requires forall i :: 0 <= i < |s| && s[i].id == id ==> s[i].text == text
    ensures Edit(s, id, text) == s
  {
  }

  /** When the rendered record is in a list with unique ids, skipping the
      unchanged-text case is only an optimisation: any non-blank draft gives
      what `edit` with the trimmed draft would. */
  lemma FinishEditAgreesWithEdit(s: seq<Todo>, todo: Todo, draft: string)
    requires UniqueIds(s) && todo in s && !AllSpace(draft)
    ensures FinishEdit(s, todo, draft) == Edit(s, todo.id, Trim(draft))
  {
    if Trim(draft) == todo.text {
      var k :| 0 <= k < |s| && s[k] == todo;
      EditSameText(s, todo.id, todo.text);
    }
  }

  /** Finishing an edit with a blank draft deletes exactly the edited record. */
  lemma FinishEditBlankRemovesOne(s: seq<Todo>, todo: Todo, draft: string)
    requires UniqueIds(s) && todo in s && AllSpace(draft)
    ensures FinishEdit(s, todo, draft) == Remove(s, todo.id)
    ensures |FinishEdit(s, todo, draft)| == |s| - 1
    ensures !HasId(FinishEdit(s, todo, draft), todo.id)
  {
    RemoveOne(s, todo.id);
  }

  // ---------------------------------------------------------------------
  // Add and the views
  // ---------------------------------------------------------------------

  /** A non-blank add is one more remaining record. */
  lemma AddRemaining(s: seq<Todo>, raw: string, id: string, now: int)
    requires !AllSpace(raw)
    ensures Remaining(Add(s, raw, id, now)) == Remaining(s) + 1
  {
    var r := Add(s, raw, id, now);
    assert r == [r[0]] + s;
  }

  /** The "active" and "completed" views split the list: together they hold
      each record exactly as often as the list does. */
  lemma ViewsPartition(s: seq<Todo>)
    ensures multiset(Filtered(s, Active)) + multiset(Filtered(s, Completed)) == multiset(s)
    ensures |Filtered(s, Active)| + |Filtered(s, Completed)| == |s|
  {
    Lists.FilterPartition(IsActive, IsCompleted, s);
  }

  // ---------------------------------------------------------------------
  // A session
  // ---------------------------------------------------------------------

  /** Start empty, add "Buy milk" then "Walk dog", toggle "Buy milk": the list
      is most-recent-first, one task remains, and the completed view holds
      exactly "Buy milk". */
  lemma Session()
    ensures var s2 := Add(Add([], "Buy milk", "m", 1), "Walk dog", "d", 2);
      && s2 == [Todo("d", "Walk dog", false, 2), Todo("m", "Buy milk", false, 1)]
      && Remaining(Toggle(s2, "m")) == 1
      && Filtered(Toggle(s2, "m"), Completed) == [Todo("m", "Buy milk", true, 1)]
  {
    TrimOfTrimmed("Buy milk");
    TrimOfTrimmed("Walk dog");
    var s2 := Add(Add([], "Buy milk", "m", 1), "Walk dog", "d", 2);
    var s3 := Toggle(s2, "m");
    assert s3 == [Todo("d", "Walk dog", false, 2), Todo("m", "Buy milk", true, 1)];
    assert s3[1..] == [s3[1]];
  }
}
