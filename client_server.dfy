/** How the page's list relates to the server's store. Each handler of the
    page sends one request and then updates its own list from the reply; these
    lemmas show that, starting from a list equal to the store, the page's list
    equals the store again afterwards — as long as ids are unique. The drag
    handler sends nothing, and under an active search it is where the two part
    ways (see `TaskPage.DragDropsHidden`). */
module ClientServer {
  import opened Tasks
  import opened Sequences
  import opened Text
  import opened TaskStore
  import opened TaskPage

  /** Every body the page posts passes the server's title check, and the
      server stores the title as typed, untrimmed, with `completed` false. */
  lemma AddRequestAccepted(st: PageState, id: string)
    requires !IsBlank(st.newTitle)
    ensures HasTitle(AddRequest(st).value.title)
    ensures NewTask(AddRequest(st).value, id) == Task(id, st.newTitle, false)
  {
  }

  /** The server accepts some titles the page would never send. */
  lemma BlankTitleAcceptedByServer()
    ensures HasTitle(Some(" ")) && IsBlank(" ")
  {
  }

  /** Add: the page appends the created record, as the store does. */
  lemma AddInSync(st: PageState, id: string)
    requires !IsBlank(st.newTitle)
    ensures var t := NewTask(AddRequest(st).value, id);
      AddTask(st, Some(t)).tasks == st.tasks + [t]
  {
    var t := NewTask(AddRequest(st).value, id);
    var r := AddTask(st, Some(t));
    assert r.tasks == r.tasks[..|st.tasks|] + [r.tasks[|st.tasks|]];
  }

  /** Toggle: the server merges the page's request into the first record with
      the id, which flips `completed` only; the page puts the reply in place of
      every record with the id, which under unique ids is that one record. */
  lemma ToggleInSync(st: PageState, id: string)
    requires UniqueIds(st.tasks) && HasId(st.tasks, id)
    ensures var i := IndexOfId(st.tasks, id).value;
      var u := Merge(st.tasks[i], ToggleRequest(st.tasks, id).value);
      u == st.tasks[i].(completed := !st.tasks[i].completed) &&
      ToggleTask(st, id, Some(u)).tasks == st.tasks[i := u]
  {
    var i := IndexOfId(st.tasks, id).value;
    var u := Merge(st.tasks[i], ToggleRequest(st.tasks, id).value);
    var r := ToggleTask(st, id, Some(u)).tasks;
    assert |r| == |st.tasks[i := u]|;
    forall j | 0 <= j < |r|
      ensures r[j] == st.tasks[i := u][j]
    {
    }
  }

  /** With two records sharing an id, a toggle makes the page's list differ
      from the store: the page replaces both, the server only the first. */
  lemma ToggleDuplicateIdsDiverge()
    ensures var st := PageState([Task("7", "a", false), Task("7", "b", false)], [], "", "");
      var u := Merge(st.tasks[0], ToggleRequest(st.tasks, "7").value);
      ToggleTask(st, "7", Some(u)).tasks != st.tasks[0 := u]
  {
    var st := PageState([Task("7", "a", false), Task("7", "b", false)], [], "", "");
    var u := Merge(st.tasks[0], ToggleRequest(st.tasks, "7").value);
    assert ToggleTask(st, "7", Some(u)).tasks[1] == u;
  }

  /** Delete: under unique ids, keeping the records with another id is the
      same as splicing out the first record with the id. */
  lemma DeleteInSync(st: PageState, id: string)
    requires UniqueIds(st.tasks) && HasId(st.tasks, id)
    ensures DeleteTask(st, id, true).tasks == RemoveAt(st.tasks, IndexOfId(st.tasks, id).value)
  {
    var s := st.tasks;
    var i := IndexOfId(s, id).value;
    var p := (t: Task) => t.id != id;
    assert s == s[..i] + ([s[i]] + s[i + 1..]);
    FilterConcat(s[..i], [s[i]] + s[i + 1..], p);
    FilterConcat([s[i]], s[i + 1..], p);
    FilterAll(s[..i], p);
    FilterAll(s[i + 1..], p);
    assert Filter([s[i]], p) == [];
  }

  /** With two records sharing an id, a delete makes the page's list differ
      from the store: the page drops both, the server only the first. */
  lemma DeleteDuplicateIdsDiverge()
    ensures var st := PageState([Task("7", "a", false), Task("7", "b", false)], [], "", "");
      DeleteTask(st, "7", true).tasks != RemoveAt(st.tasks, IndexOfId(st.tasks, "7").value)
  {
    var st := PageState([Task("7", "a", false), Task("7", "b", false)], [], "", "");
    var server := RemoveAt(st.tasks, IndexOfId(st.tasks, "7").value);
    assert server[0] == Task("7", "b", false);
    assert server[0] !in DeleteTask(st, "7", true).tasks;
  }
}
